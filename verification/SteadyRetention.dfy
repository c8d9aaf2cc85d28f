/** Exactly when a run retention is too short for an automation whose settings have always been the same: its
    own limits may keep a log from ever reaching as far back as the retention forgets. */
module SteadyRetention {
  import opened Rows
  import opened Workflow
  import opened Invisible
  import opened RunLimits
  import opened FireTimes
  import opened BreakerReach
  import opened ShortRetention

  /** A run from an empty log, at fixed settings, in which pruning changes what the automation records. */
  ghost predicate Noticed(a: Automation, steps: seq<Step>, days: int) {
    && FixedSettings(steps, a) && ClocksNeverBack(steps) && Punctual(steps) && Causal(steps)
    && exists i :: 0 <= i < |steps| && IsTick(steps[i], a)
         && !SameRun(Decisions(Empty(), steps, days)[i], Decisions(Empty(), steps, 0)[i])
  }

  /** As many fires as the cap, and the next time only the cap could hold back, fit into the cap's window. */
  predicate CapLeavesRoom(a: Automation)
    requires Validated(a) && CanFire(a) && CapInForce(a)
  {
    NextWithoutCap(a, Cap(a)) <= CapSpan(a)
  }

  /** A limit outlasts the retention and can be reached. */
  predicate Noticeable(a: Automation, days: int)
    requires Validated(a)
  {
    || !CoversSchedule(a, days)
    || (CanFire(a) && !CoversCooldown(a, days))
    || (CanFire(a) && !CoversBreaker(a, days) && LeavesRoom(a))
    || (CanFire(a) && !CoversCap(a, days) && CapLeavesRoom(a))
  }

  // ------------------------------------------------- a limit that cannot be reached hides nothing

  lemma AskedAGapLater(log: seq<Row<Run>>, a: Automation, now: int, n: nat)
    requires Validated(a) && CanFire(a) && TimeOrdered(log) && KeepsDistances(Fires(log, a), a)
    requires forall r :: r in log ==> r.time <= now
    requires Due(log, a, now) && !Cooling(log, a, now) && 1 <= n <= |Fires(log, a)|
    ensures now - Fires(log, a)[|Fires(log, a)| - n].time >= Earliest(a, n - 1) + Gap(a)
  {
    GapHasPassed(log, a, now);
    DistancesAddUp(Fires(log, a), a, |Fires(log, a)| - n, n - 1);
  }

  lemma AskedPastTheBreaker(log: seq<Row<Run>>, a: Automation, now: int, n: nat)
    requires Validated(a) && CanFire(a) && TimeOrdered(log) && KeepsDistances(Fires(log, a), a)
    requires BreakerInForce(a) && !BreakerReached(log, a, now) && Threshold(a) <= n <= |Fires(log, a)|
    ensures now - Fires(log, a)[|Fires(log, a)| - n].time >= Earliest(a, n - Threshold(a)) + BreakerSpan(a) + 1
  {
    BreakerReadOff(log, a, now);
    DistancesAddUp(Fires(log, a), a, |Fires(log, a)| - n, n - Threshold(a));
  }

  /** An evaluation at `now` that only the cap could hold back comes no sooner after the n-th last fire than
      the n-th fire of the fastest run that only the cap is not asked for. */
  lemma AskedNoSooner(log: seq<Row<Run>>, a: Automation, now: int, n: nat)
    requires Validated(a) && CanFire(a) && TimeOrdered(log) && KeepsDistances(Fires(log, a), a)
    requires forall r :: r in log ==> r.time <= now
    requires Due(log, a, now) && !BreakerReached(log, a, now) && !Cooling(log, a, now) && 1 <= n <= |Fires(log, a)|
    ensures now - Fires(log, a)[|Fires(log, a)| - n].time >= NextWithoutCap(a, n)
  {
    AskedAGapLater(log, a, now, n);
    if BreakerInForce(a) && n >= Threshold(a) {
      AskedPastTheBreaker(log, a, now, n);
    }
  }

  lemma CapNeedsRoom(log: seq<Row<Run>>, a: Automation, now: int)
    requires Validated(a) && CanFire(a) && TimeOrdered(log) && KeepsDistances(Fires(log, a), a)
    requires forall r :: r in log ==> r.time <= now
    requires Due(log, a, now) && !BreakerReached(log, a, now) && !Cooling(log, a, now) && CapReached(log, a, now)
    ensures CapLeavesRoom(a)
  {
    CapReadOff(log, a, now);
    AskedNoSooner(log, a, now, Cap(a));
  }

  lemma KeptCountsLess(log: seq<Row<Run>>, cutoff: int, a: Automation, now: int)
    ensures BreakerReached(Kept(log, cutoff), a, now) ==> BreakerReached(log, a, now)
    ensures CapReached(Kept(log, cutoff), a, now) ==> CapReached(log, a, now)
  {
    if BreakerInForce(a) {
      KeptCountLess(log, cutoff, a.id, a.circuitBreaker.value.windowSeconds.value, now);
    }
    if CapInForce(a) {
      KeptCountLess(log, cutoff, a.id, a.windowSeconds.value, now);
    }
  }

  lemma KeptCountLess(log: seq<Row<Run>>, cutoff: int, automation: int, windowSeconds: int, now: int)
    ensures CountFiredInWindow(Kept(log, cutoff), automation, windowSeconds, now)
         <= CountFiredInWindow(log, automation, windowSeconds, now)
  {
    var p := FiredSince(automation, now - windowSeconds * SECOND);
    FilterCommutes(p, From(cutoff), log);
    FilterMember(From<Run>(cutoff), Filter(p, log));
  }

  lemma SameBreakerOrUnreached(full: seq<Row<Run>>, cutoff: int, a: Automation, now: int, days: int)
    requires Validated(a) && days > 0 && !Noticeable(a, days) && CanFire(a) && cutoff <= now - days * DAY
    requires TimeOrdered(full) && KeepsDistances(Fires(full, a), a) && forall r :: r in full ==> r.time <= now
    requires Due(full, a, now) && Kept(Kept(full, cutoff), cutoff) == Kept(full, cutoff)
    ensures BreakerReached(Kept(full, cutoff), a, now) == BreakerReached(full, a, now)
  {
    if CoversBreaker(a, days) {
      SameBreakerCheck(Kept(full, cutoff), full, cutoff, a, now, days);
    } else {
      KeptCountsLess(full, cutoff, a, now);
      if BreakerReached(full, a, now) {
        ReachedNeedsRoom(full, a, now);
      }
    }
  }

  lemma SameCapOrUnreached(full: seq<Row<Run>>, cutoff: int, a: Automation, now: int, days: int)
    requires Validated(a) && days > 0 && !Noticeable(a, days) && CanFire(a) && cutoff <= now - days * DAY
    requires TimeOrdered(full) && KeepsDistances(Fires(full, a), a) && forall r :: r in full ==> r.time <= now
    requires Due(full, a, now) && Kept(Kept(full, cutoff), cutoff) == Kept(full, cutoff)
    requires !BreakerReached(full, a, now) && !Cooling(full, a, now)
    ensures CapReached(Kept(full, cutoff), a, now) == CapReached(full, a, now)
  {
    if CoversCap(a, days) {
      SameCapCheck(Kept(full, cutoff), full, cutoff, a, now, days);
    } else {
      KeptCountsLess(full, cutoff, a, now);
      if CapReached(full, a, now) {
        CapNeedsRoom(full, a, now);
      }
    }
  }

  lemma UnnoticeableDecision(full: seq<Row<Run>>, cutoff: int, a: Automation, now: int, days: int)
    requires Validated(a) && days > 0 && !Noticeable(a, days) && cutoff <= now - days * DAY
    requires TimeOrdered(full) && (CanFire(a) ==> KeepsDistances(Fires(full, a), a))
    requires forall r :: r in full ==> r.time <= now
    ensures Due(Kept(full, cutoff), a, now) == Due(full, a, now)
    ensures Due(full, a, now) ==> Decide(Kept(full, cutoff), a, now) == Decide(full, a, now)
  {
    FilterWithin(From(cutoff), From(cutoff), full);
    SameDueTest(Kept(full, cutoff), full, cutoff, a, now, days);
    if !CanFire(a) {
      NeverFiringSkips(full, a, now);
      NeverFiringSkips(Kept(full, cutoff), a, now);
    } else if Due(full, a, now) {
      SameBreakerOrUnreached(full, cutoff, a, now, days);
      SameCooldownCheck(Kept(full, cutoff), full, cutoff, a, now, days);
      if !BreakerReached(full, a, now) && !Cooling(full, a, now) {
        SameCapOrUnreached(full, cutoff, a, now, days);
      }
    }
  }

  /** Only this automation, at these settings. */
  ghost predicate Alone(steps: seq<Step>, a: Automation) {
    forall i :: 0 <= i < |steps| && steps[i].Evaluate? ==> steps[i].automation == a
  }

  ghost predicate Steady(steps: seq<Step>, a: Automation) {
    Alone(steps, a) && ClocksNeverBack(steps) && Punctual(steps) && Causal(steps)
  }

  /** The pruned log is the full one from the cutoff on. */
  ghost predicate KeptFrom(pruned: RunLog, full: RunLog, cutoff: Option<int>) {
    pruned.next == full.next && pruned.rows == if cutoff.None? then full.rows else Kept(full.rows, cutoff.value)
  }

  lemma PruneKeepsFrom(pruned: RunLog, full: RunLog, cutoff: Option<int>, here: int)
    requires KeptFrom(pruned, full, cutoff)
    ensures var next := if cutoff.Some? && cutoff.value >= here then cutoff.value else here;
            KeptFrom(pruned.(rows := Kept(pruned.rows, here)), full, Some(next))
  {
    if cutoff.Some? {
      FilterCommutes(From(here), From(cutoff.value), full.rows);
      if cutoff.value >= here {
        FilterWithin(From(cutoff.value), From(here), full.rows);
      } else {
        FilterWithin(From(here), From(cutoff.value), full.rows);
      }
    }
  }

  lemma EvaluationKeepsFrom(pruned: RunLog, full: RunLog, cutoff: Option<int>, step: Step, days: int)
    requires KeptFrom(pruned, full, cutoff) && step.Evaluate? && Recorded(pruned, step) == Recorded(full, step)
    requires cutoff.Some? ==> cutoff.value <= step.stamp
    ensures KeptFrom(Take(pruned, step, days), Take(full, step, 0), cutoff)
  {
    if cutoff.Some? && Recorded(full, step).Some? {
      FilterAppend(From(cutoff.value), full.rows, Recorded(full, step).value);
    }
  }

  lemma UnnoticeableStep(pruned: RunLog, full: RunLog, cutoff: Option<int>, step: Step, a: Automation, days: int)
    requires Validated(a) && days > 0 && !Noticeable(a, days) && KeptFrom(pruned, full, cutoff)
    requires IsTick(step, a) && (cutoff.Some? ==> cutoff.value <= step.now - days * DAY)
    requires TimeOrdered(full.rows) && (CanFire(a) ==> KeepsDistances(Fires(full.rows, a), a))
    requires forall r :: r in full.rows ==> r.time <= step.now
    ensures Recorded(pruned, step) == Recorded(full, step)
  {
    if cutoff.Some? {
      UnnoticeableDecision(full.rows, cutoff.value, a, step.now, days);
    }
  }

  lemma FullLogKeepsDistances(steps: seq<Step>, a: Automation, now: int)
    requires Validated(a) && Steady(steps, a)
    requires forall i :: 0 <= i < |steps| && steps[i].Evaluate? ==> steps[i].now <= now
    ensures var full := Execute(Empty(), steps, 0).rows;
            && TimeOrdered(full) && (CanFire(a) ==> KeepsDistances(Fires(full, a), a))
            && forall r :: r in full ==> r.time <= now
  {
    LogsAreTimeOrdered(steps, now);
    if CanFire(a) {
      FiresKeepDistances(steps, a);
    }
  }

  lemma SteadyBefore(init: seq<Step>, last: Step, a: Automation)
    requires Steady(init + [last], a)
    ensures Steady(init, a)
    ensures last.Evaluate? ==> IsTick(last, a) && last.stamp == last.now
    ensures last.Evaluate? ==> forall i :: 0 <= i < |init| ==>
            (if init[i].Evaluate? then init[i].now else init[i].moment) <= last.now
  {
    var steps := init + [last];
    assert steps[|init|] == last && forall i :: 0 <= i < |init| ==> steps[i] == init[i];
  }

  lemma UnnoticedEvaluation(pruned: RunLog, full: RunLog, cutoff: Option<int>, step: Step, a: Automation, days: int)
    requires Validated(a) && days > 0 && !Noticeable(a, days) && KeptFrom(pruned, full, cutoff)
    requires IsTick(step, a) && step.stamp == step.now && (cutoff.Some? ==> cutoff.value <= step.now - days * DAY)
    requires TimeOrdered(full.rows) && (CanFire(a) ==> KeepsDistances(Fires(full.rows, a), a))
    requires forall r :: r in full.rows ==> r.time <= step.now
    ensures Recorded(pruned, step) == Recorded(full, step)
    ensures KeptFrom(Take(pruned, step, days), Take(full, step, 0), cutoff)
  {
    UnnoticeableStep(pruned, full, cutoff, step, a, days);
    EvaluationKeepsFrom(pruned, full, cutoff, step, days);
  }

  lemma EvaluationGoesUnnoticed(init: seq<Step>, last: Step, a: Automation, days: int)
    requires Validated(a) && days > 0 && !Noticeable(a, days) && Steady(init + [last], a) && last.Evaluate?
    requires KeptFrom(Execute(Empty(), init, days), Execute(Empty(), init, 0), LatestCutoff(init, days))
    ensures Recorded(Execute(Empty(), init, days), last) == Recorded(Execute(Empty(), init, 0), last)
    ensures KeptFrom(Take(Execute(Empty(), init, days), last, days), Take(Execute(Empty(), init, 0), last, 0),
                     LatestCutoff(init, days))
  {
    SteadyBefore(init, last, a);
    CutoffIsPast(init, days, last.now);
    FullLogKeepsDistances(init, a, last.now);
    UnnoticedEvaluation(Execute(Empty(), init, days), Execute(Empty(), init, 0), LatestCutoff(init, days),
                        last, a, days);
  }

  lemma CutoffAfterAPrune(init: seq<Step>, last: Step, days: int)
    requires last.Prune?
    ensures var before, here := LatestCutoff(init, days), last.moment - days * DAY;
            LatestCutoff(init + [last], days) == if before.Some? && before.value >= here then before else Some(here)
  {
    assert (init + [last])[..|init|] == init;
  }

  lemma PruneGoesUnnoticed(init: seq<Step>, last: Step, days: int)
    requires days > 0 && last.Prune?
    requires KeptFrom(Execute(Empty(), init, days), Execute(Empty(), init, 0), LatestCutoff(init, days))
    ensures KeptFrom(Take(Execute(Empty(), init, days), last, days), Take(Execute(Empty(), init, 0), last, 0),
                     LatestCutoff(init + [last], days))
  {
    CutoffAfterAPrune(init, last, days);
    PruneKeepsFrom(Execute(Empty(), init, days), Execute(Empty(), init, 0), LatestCutoff(init, days),
                   last.moment - days * DAY);
  }

  lemma {:induction false} AloneIsKept(steps: seq<Step>, a: Automation, days: int)
    requires Validated(a) && days > 0 && !Noticeable(a, days) && Steady(steps, a)
    ensures KeptFrom(Execute(Empty(), steps, days), Execute(Empty(), steps, 0), LatestCutoff(steps, days))
  {
    if steps != [] {
      var init, last := steps[..|steps| - 1], steps[|steps| - 1];
      assert steps == init + [last];
      SteadyBefore(init, last, a);
      AloneIsKept(init, a, days);
      if last.Prune? {
        PruneGoesUnnoticed(init, last, days);
      } else {
        EvaluationGoesUnnoticed(init, last, a, days);
      }
    }
  }

  lemma {:induction false} SteadyAmongOthers(steps: seq<Step>, a: Automation)
    requires FixedSettings(steps, a) && ClocksNeverBack(steps) && Punctual(steps) && Causal(steps)
    ensures Steady(OwnSteps(steps, a.id), a)
  {
    if steps != [] {
      var init, last := steps[..|steps| - 1], steps[|steps| - 1];
      SteadyAmongOthers(init, a);
      assert steps == init + [last];
      FilterAppend(Concerns(a.id), init, last);
      FilterMember(Concerns(a.id), init);
    }
  }

  lemma LastIsUnnoticed(init: seq<Step>, last: Step, a: Automation, days: int)
    requires Validated(a) && !Noticeable(a, days) && days > 0 && IsTick(last, a)
    requires var steps := init + [last];
             FixedSettings(steps, a) && ClocksNeverBack(steps) && Punctual(steps) && Causal(steps)
    ensures SameRun(Recorded(Execute(Empty(), init, days), last), Recorded(Execute(Empty(), init, 0), last))
  {
    SteadyAmongOthers(init + [last], a);
    FilterAppend(Concerns(a.id), init, last);
    var alone := OwnSteps(init, a.id);
    assert alone == (alone + [last])[..|alone|];
    AloneIsKept(alone, a, days);
    EvaluationGoesUnnoticed(alone, last, a, days);
    AmongAsAlone(Empty(), init, last, a.id, days);
    AmongAsAlone(Empty(), init, last, a.id, 0);
  }

  lemma UnnoticeableGoesUnnoticed(a: Automation, steps: seq<Step>, days: int, i: nat)
    requires Validated(a) && !Noticeable(a, days) && days > 0 && i < |steps| && IsTick(steps[i], a)
    requires FixedSettings(steps, a) && ClocksNeverBack(steps) && Punctual(steps) && Causal(steps)
    ensures SameRun(Decisions(Empty(), steps, days)[i], Decisions(Empty(), steps, 0)[i])
  {
    DecisionAt(Empty(), steps, days, i);
    DecisionAt(Empty(), steps, 0, i);
    var upTo := steps[..i] + [steps[i]];
    assert forall j :: 0 <= j <= i ==> upTo[j] == steps[j];
    LastIsUnnoticed(steps[..i], steps[i], a, days);
  }

  // ------------------------------------------------- a limit that can be reached shows

  /** A prune and an evaluation at one moment, after evaluations of this automation alone. */
  function AskedLate(a: Automation, before: seq<Step>, now: int): seq<Step> {
    before + [Prune(now)] + [Evaluate(a, now, now, true, [])]
  }

  lemma AskedLateIsOrderly(a: Automation, before: seq<Step>, now: int)
    requires Orderly(before) && Alone(before, a) && forall i :: 0 <= i < |before| ==> before[i].now <= now
    ensures var steps := AskedLate(a, before, now);
            FixedSettings(steps, a) && ClocksNeverBack(steps) && Punctual(steps) && Causal(steps)
  {
  }

  lemma AskedLateDecides(a: Automation, before: seq<Step>, now: int, days: int)
    requires days > 0 && Orderly(before)
    ensures var full := Execute(Empty(), before, 0);
            var e, steps := Evaluate(a, now, now, true, []), AskedLate(a, before, now);
            && Decisions(Empty(), steps, 0)[|before| + 1] == Recorded(full, e)
            && Decisions(Empty(), steps, days)[|before| + 1]
                 == Recorded(full.(rows := Kept(full.rows, now - days * DAY)), e)
  {
    AfterALatePrune(before, now, days);
    OneMoreDecision(Empty(), before + [Prune(now)], Evaluate(a, now, now, true, []), days);
    OneMoreDecision(Empty(), before + [Prune(now)], Evaluate(a, now, now, true, []), 0);
  }

  lemma NoticedAtTheEnd(a: Automation, before: seq<Step>, now: int, days: int)
    requires days > 0 && Orderly(before) && Alone(before, a)
    requires forall i :: 0 <= i < |before| ==> before[i].now <= now
    requires var full := Execute(Empty(), before, 0);
             var e := Evaluate(a, now, now, true, []);
             !SameRun(Recorded(full.(rows := Kept(full.rows, now - days * DAY)), e), Recorded(full, e))
    ensures Noticed(a, AskedLate(a, before, now), days)
  {
    AskedLateIsOrderly(a, before, now);
    AskedLateDecides(a, before, now, days);
    assert IsTick(AskedLate(a, before, now)[|before| + 1], a);
  }

  lemma FastestIsAlone(a: Automation, n: nat, now: int)
    requires Validated(a) && CanFire(a) && n >= 1 && now >= Earliest(a, n - 1)
    ensures Orderly(Fastest(a, n)) && Alone(Fastest(a, n), a)
    ensures forall i :: 0 <= i < n ==> Fastest(a, n)[i].now <= now
  {
    FastestIsOrderly(a, n, now);
  }

  lemma ShortForTheSchedule(a: Automation, days: int)
    requires Validated(a) && days > 0 && !CoversSchedule(a, days)
    ensures exists steps :: Noticed(a, steps, days)
  {
    var now, before := days * DAY + 1, [Evaluate(a, 0, 0, true, [])];
    OneMoreDecision(Empty(), [], before[0], 0);
    assert [] + before == before;
    var full := Execute(Empty(), before, 0);
    assert full.rows == [Recorded(Empty(), before[0]).value];
    WholeSeconds(days, a.trigger.scheduleSeconds.value);
    FilterAll(RunBy(a.id), full.rows);
    FilterNone(From(1), full.rows);
    NoticedAtTheEnd(a, before, now, days);
  }

  lemma DueWhenAllHavePaused(log: seq<Row<Run>>, a: Automation, now: int)
    requires Validated(a) && forall r :: r in log ==> now - r.time >= Pause(a)
    ensures Due(log, a, now)
  {
    FilterMember(RunBy(a.id), log);
  }

  lemma NoFireIsLater(log: seq<Row<Run>>, a: Automation, n: nat)
    requires Validated(a) && CanFire(a) && FiredAtEarliest(log, a, n) && n >= 1
    ensures forall r :: r in log ==> r.time <= Earliest(a, n - 1)
  {
    forall i | 0 <= i < n ensures log[i].time <= Earliest(a, n - 1) {
      EarliestInOrder(a, i, n - 1);
    }
  }

  lemma DueAfterTheFires(log: seq<Row<Run>>, a: Automation, n: nat, now: int, cutoff: int)
    requires Validated(a) && CanFire(a) && FiredAtEarliest(log, a, n) && n >= 1
    requires now >= Earliest(a, n - 1) + Pause(a)
    ensures Due(Kept(log, cutoff), a, now)
  {
    NoFireIsLater(log, a, n);
    FilterMember(From<Run>(cutoff), log);
    DueWhenAllHavePaused(Kept(log, cutoff), a, now);
  }

  /** A cutoff after the first fire leaves one fire too few. */
  lemma FewerKept(log: seq<Row<Run>>, a: Automation, n: nat, now: int, cutoff: int)
    requires Validated(a) && CanFire(a) && FiredAtEarliest(log, a, n) && n >= 1 && cutoff > 0
    ensures BreakerInForce(a) && n == Threshold(a) ==> !BreakerReached(Kept(log, cutoff), a, now)
    ensures CapInForce(a) && n == Cap(a) ==> !CapReached(Kept(log, cutoff), a, now)
  {
    FilterStrict(From(cutoff), log, log[0]);
    if BreakerInForce(a) {
      FilterMember(FiredSince(a.id, now - BreakerSpan(a)), Kept(log, cutoff));
    }
    if CapInForce(a) {
      FilterMember(FiredSince(a.id, now - CapSpan(a)), Kept(log, cutoff));
    }
  }

  lemma ShortForTheCooldown(a: Automation, days: int)
    requires Validated(a) && days > 0 && CoversSchedule(a, days) && CanFire(a) && !CoversCooldown(a, days)
    ensures exists steps :: Noticed(a, steps, days)
  {
    var now := days * DAY + 1;
    FastestFires(a, 1, 0);
    FastestIsAlone(a, 1, now);
    var full := Execute(Empty(), Fastest(a, 1), 0);
    WholeSeconds(days, a.cooldownSeconds.value);
    FastLogIsItsFires(full.rows, a, 1);
    CooldownReadOff(full.rows, a, now);
    FilterNone(From(1), full.rows);
    EmptyLogFires(a, now);
    NoticedAtTheEnd(a, Fastest(a, 1), now, days);
  }

  lemma ShortForTheBreaker(a: Automation, days: int)
    requires Validated(a) && days > 0 && CanFire(a) && !CoversBreaker(a, days) && LeavesRoom(a)
    ensures exists steps :: Noticed(a, steps, days)
  {
    var n, now := Threshold(a), BreakerSpan(a);
    FastestFires(a, n, 0);
    FastestIsAlone(a, n, now);
    var full := Execute(Empty(), Fastest(a, n), 0);
    FullThresholdTrips(full.rows, a, now);
    FewerKept(full.rows, a, n, now, now - days * DAY);
    DueAfterTheFires(full.rows, a, n, now, now - days * DAY);
    NoticedAtTheEnd(a, Fastest(a, n), now, days);
  }

  lemma CapDecides(log: seq<Row<Run>>, a: Automation, cutoff: int)
    requires Validated(a) && CanFire(a) && CapInForce(a) && CapLeavesRoom(a) && FiredAtEarliest(log, a, Cap(a))
             && cutoff > 0
    ensures var now := CapSpan(a);
            && Due(log, a, now) && Decide(log, a, now) == Some(RateLimited)
            && Due(Kept(log, cutoff), a, now) && Decide(Kept(log, cutoff), a, now) != Some(RateLimited)
  {
    FastLogAllows(log, a, Cap(a), CapSpan(a));
    FastLogFillsCap(log, a, Cap(a), CapSpan(a));
    FewerKept(log, a, Cap(a), CapSpan(a), cutoff);
    DueAfterTheFires(log, a, Cap(a), CapSpan(a), cutoff);
  }

  lemma ShortForTheCap(a: Automation, days: int)
    requires Validated(a) && days > 0 && CanFire(a) && !CoversCap(a, days) && CapLeavesRoom(a)
    ensures exists steps :: Noticed(a, steps, days)
  {
    FastestFires(a, Cap(a), 0);
    FastestIsAlone(a, Cap(a), CapSpan(a));
    CapDecides(Execute(Empty(), Fastest(a, Cap(a)), 0).rows, a, CapSpan(a) - days * DAY);
    NoticedAtTheEnd(a, Fastest(a, Cap(a)), CapSpan(a), days);
  }

  /** At fixed settings the exact condition is weaker: pruning is noticed in some run if and only if the
      schedule outlasts the retention, or the automation can fire and its cooldown does, or a breaker or cap
      does that its own limits let it reach within the window. */
  lemma PruningIsNoticedIffALimitIsReached(a: Automation, days: int)
    requires Validated(a)
    ensures (exists steps :: Noticed(a, steps, days)) <==> Noticeable(a, days)
  {
    if days <= 0 {
      forall steps ensures !Noticed(a, steps, days) {
        NoRetentionIsZeroRetention(Empty(), steps, days);
      }
    } else if !Noticeable(a, days) {
      forall steps: seq<Step> ensures !Noticed(a, steps, days) {
        if FixedSettings(steps, a) && ClocksNeverBack(steps) && Punctual(steps) && Causal(steps) {
          forall i | 0 <= i < |steps| && IsTick(steps[i], a)
            ensures SameRun(Decisions(Empty(), steps, days)[i], Decisions(Empty(), steps, 0)[i])
          {
            UnnoticeableGoesUnnoticed(a, steps, days, i);
          }
        }
      }
    } else if !CoversSchedule(a, days) {
      ShortForTheSchedule(a, days);
    } else if !CoversCooldown(a, days) {
      ShortForTheCooldown(a, days);
    } else if !CoversBreaker(a, days) && LeavesRoom(a) {
      ShortForTheBreaker(a, days);
    } else {
      ShortForTheCap(a, days);
    }
  }

  /** A cap of 1000 in a hundred days with a cooldown of one day: thirty days of retention are shorter than the
      window, yet pruning is never noticed, since the cooldown keeps the cap from being reached. */
  lemma AShortRetentionCanGoUnnoticed(id: int, steps: seq<Step>)
    ensures var a := Automation(id, true, OnEvent("task-failed"), Some(86_400), Some(1000), Some(8_640_000), None);
            !Retains(a, 30) && !Noticed(a, steps, 30)
  {
    var a := Automation(id, true, OnEvent("task-failed"), Some(86_400), Some(1000), Some(8_640_000), None);
    EarliestGrows(a, 0, 999);
    PruningIsNoticedIffALimitIsReached(a, 30);
  }
}
