/** What a decision of the engine depends on, and when pruning the run log leaves every one of them alone. */
module Invisible {
  import opened Rows
  import opened Retention
  import opened Workflow

  // ------------------------------------------------- what a recorded run says

  ghost predicate RecentlyFired(log: seq<Row<Run>>, a: Automation, now: int) {
    && a.cooldownSeconds.Some?
    && exists r :: r in log && FiredBy(a.id)(r) && now - r.time < a.cooldownSeconds.value * SECOND
  }

  lemma CoolingIsARecentFire(log: seq<Row<Run>>, a: Automation, now: int)
    ensures Cooling(log, a, now) <==> RecentlyFired(log, a, now)
  {
    FilterMember(FiredBy(a.id), log);
    var fires, last := Filter(FiredBy(a.id), log), LastFireTime(log, a.id);
    if last.Some? {
      var r :| r in fires && r.time == last.value;
    }
    if RecentlyFired(log, a, now) {
      var r :| r in log && FiredBy(a.id)(r) && now - r.time < a.cooldownSeconds.value * SECOND;
      assert r in fires;
    }
  }

  /** A recorded run fired exactly when its conditions held and no limit was reached; otherwise it gives one
      reason, the breaker before the cooldown before the cap, and none at all when conditions failed. */
  lemma RecordedRunExplained(log: RunLog, a: Automation, now: int, stamp: int, passed: bool, outcome: seq<string>)
    requires Due(log.rows, a, now)
    ensures var r := Recorded(log, Evaluate(a, now, stamp, passed, outcome)).value;
            var open, recent := BreakerReached(log.rows, a, now), RecentlyFired(log.rows, a, now);
            var full := CapReached(log.rows, a, now);
            && r.time == stamp && r.data.automation == a.id && r.data.conditionsPassed == passed
            && (r.data.fired == Some(outcome) <==> passed && !open && !recent && !full)
            && (r.data.fired == None <==> !passed || open || recent || full)
            && (r.data.skipped == Some(CircuitOpen) <==> passed && open)
            && (r.data.skipped == Some(Cooldown) <==> passed && !open && recent)
            && (r.data.skipped == Some(RateLimited) <==> passed && !open && !recent && full)
    ensures var run := Recorded(log, Evaluate(a, now, stamp, passed, outcome)).value.data;
            && RunSays(log.rows, a, now, passed, outcome, run)
            && (run.skipped == Some(RateLimited) ==> a.maxRunsPerWindow.Some? && a.windowSeconds.Some?)
            && (run.skipped == Some(CircuitOpen) ==>
                  exists k, w :: a.circuitBreaker == Some(Breaker(Some(k), Some(w))) && k != 0 && w != 0)
  {
    CoolingIsARecentFire(log.rows, a, now);
    EvaluationSays(log.rows, a, now, passed, outcome);
    if BreakerReached(log.rows, a, now) {
      var b := a.circuitBreaker.value;
      assert a.circuitBreaker == Some(Breaker(Some(b.failureThreshold.value), Some(b.windowSeconds.value)));
    }
  }

  // ------------------------------------------------- pruning and later decisions

  predicate CoversSchedule(a: Automation, days: int) {
    a.trigger.Periodic? && Truthy(a.trigger.scheduleSeconds) ==> Covers(days, a.trigger.scheduleSeconds.value)
  }

  predicate CoversBreaker(a: Automation, days: int) {
    BreakerInForce(a) ==> Covers(days, a.circuitBreaker.value.windowSeconds.value)
  }

  predicate CoversCooldown(a: Automation, days: int) {
    a.cooldownSeconds.Some? ==> Covers(days, a.cooldownSeconds.value)
  }

  predicate CoversCap(a: Automation, days: int) {
    CapInForce(a) ==> Covers(days, a.windowSeconds.value)
  }

  /** The retention setting reaches back as far as any limit of the automation looks. */
  predicate Retains(a: Automation, days: int) {
    CoversSchedule(a, days) && CoversBreaker(a, days) && CoversCooldown(a, days) && CoversCap(a, days)
  }

  lemma SameCount(log: seq<Row<Run>>, other: seq<Row<Run>>, cutoff: int, automation: int, since: int)
    requires Kept(log, cutoff) == Kept(other, cutoff) && cutoff <= since
    ensures Filter(FiredSince(automation, since), log) == Filter(FiredSince(automation, since), other)
  {
    FilterWithin(FiredSince(automation, since), From(cutoff), log);
    FilterWithin(FiredSince(automation, since), From(cutoff), other);
  }

  /** Two logs that agree from the cutoff on agree on the last selected time, or neither has one there. */
  lemma SameLastTime(log: seq<Row<Run>>, other: seq<Row<Run>>, cutoff: int, p: Row<Run> -> bool)
    requires Kept(log, cutoff) == Kept(other, cutoff)
    ensures var t, u := LastTime(Filter(p, log)), LastTime(Filter(p, other));
            t == u || ((t.Some? ==> t.value < cutoff) && (u.Some? ==> u.value < cutoff))
  {
    var f, g := Filter(p, log), Filter(p, other);
    FilterCommutes(From(cutoff), p, log);
    FilterCommutes(From(cutoff), p, other);
    assert Filter(From(cutoff), f) == Filter(From(cutoff), g);
    FilterMember(From<Run>(cutoff), f);
    FilterMember(From<Run>(cutoff), g);
    RecentLastTime(f, g, cutoff);
    RecentLastTime(g, f, cutoff);
  }

  lemma RecentLastTime(f: seq<Row<Run>>, g: seq<Row<Run>>, cutoff: int)
    requires forall r :: r in f && From(cutoff)(r) ==> r in g
    ensures var t, u := LastTime(f), LastTime(g);
            t.Some? && t.value >= cutoff ==> u.Some? && u.value >= t.value
  {
    var t := LastTime(f);
    if t.Some? && t.value >= cutoff {
      var r :| r in f && r.time == t.value;
      assert From(cutoff)(r);
    }
  }

  lemma SameBreakerCheck(log: seq<Row<Run>>, other: seq<Row<Run>>, cutoff: int, a: Automation, now: int, days: int)
    requires Kept(log, cutoff) == Kept(other, cutoff) && cutoff <= now - days * DAY
    requires days > 0 && CoversBreaker(a, days)
    ensures BreakerReached(log, a, now) == BreakerReached(other, a, now)
  {
    if BreakerInForce(a) {
      SameCount(log, other, cutoff, a.id, now - a.circuitBreaker.value.windowSeconds.value * SECOND);
    }
  }

  lemma SameCooldownCheck(log: seq<Row<Run>>, other: seq<Row<Run>>, cutoff: int, a: Automation, now: int, days: int)
    requires Kept(log, cutoff) == Kept(other, cutoff) && cutoff <= now - days * DAY
    requires days > 0 && CoversCooldown(a, days)
    ensures Cooling(log, a, now) == Cooling(other, a, now)
  {
    SameLastTime(log, other, cutoff, FiredBy(a.id));
  }

  lemma SameCapCheck(log: seq<Row<Run>>, other: seq<Row<Run>>, cutoff: int, a: Automation, now: int, days: int)
    requires Kept(log, cutoff) == Kept(other, cutoff) && cutoff <= now - days * DAY
    requires days > 0 && CoversCap(a, days)
    ensures CapReached(log, a, now) == CapReached(other, a, now)
  {
    if CapInForce(a) {
      SameCount(log, other, cutoff, a.id, now - a.windowSeconds.value * SECOND);
    }
  }

  lemma SameDueTest(log: seq<Row<Run>>, other: seq<Row<Run>>, cutoff: int, a: Automation, now: int, days: int)
    requires Kept(log, cutoff) == Kept(other, cutoff) && cutoff <= now - days * DAY
    requires days > 0 && CoversSchedule(a, days)
    ensures Due(log, a, now) == Due(other, a, now)
  {
    SameLastTime(log, other, cutoff, RunBy(a.id));
  }

  lemma SameDecision(log: seq<Row<Run>>, other: seq<Row<Run>>, cutoff: int, a: Automation, now: int, days: int)
    requires Kept(log, cutoff) == Kept(other, cutoff) && cutoff <= now - days * DAY
    requires days > 0 && Retains(a, days)
    ensures Decide(log, a, now) == Decide(other, a, now)
    ensures Due(log, a, now) == Due(other, a, now)
  {
    SameBreakerCheck(log, other, cutoff, a, now, days);
    SameCooldownCheck(log, other, cutoff, a, now, days);
    SameCapCheck(log, other, cutoff, a, now, days);
    SameDueTest(log, other, cutoff, a, now, days);
  }

  /** No prune is dated later than an evaluation that follows it. */
  ghost predicate Causal(steps: seq<Step>) {
    forall i, j :: 0 <= i < j < |steps| && steps[i].Prune? && steps[j].Evaluate? ==> steps[i].moment <= steps[j].now
  }

  ghost predicate AllRetained(steps: seq<Step>, days: int) {
    forall i :: 0 <= i < |steps| && steps[i].Evaluate? ==> Retains(steps[i].automation, days)
  }

  /** The latest cutoff pruned at, if any. */
  function LatestCutoff(steps: seq<Step>, days: int): Option<int> {
    if steps == [] then None
    else
      var before, last := LatestCutoff(steps[..|steps| - 1], days), steps[|steps| - 1];
      if last.Evaluate? then before
      else
        var cutoff := last.moment - days * DAY;
        if before.Some? && before.value >= cutoff then before else Some(cutoff)
  }

  lemma {:induction false} CutoffIsPast(steps: seq<Step>, days: int, now: int)
    requires forall i :: 0 <= i < |steps| && steps[i].Prune? ==> steps[i].moment <= now
    ensures LatestCutoff(steps, days).Some? ==> LatestCutoff(steps, days).value <= now - days * DAY
  {
    if steps != [] {
      CutoffIsPast(steps[..|steps| - 1], days, now);
    }
  }

  lemma KeptLater<T>(log: seq<Row<T>>, other: seq<Row<T>>, cutoff: int, later: int)
    requires Kept(log, cutoff) == Kept(other, cutoff) && cutoff <= later
    ensures Kept(log, later) == Kept(other, later)
  {
    FilterWithin(From(later), From(cutoff), log);
    FilterWithin(From(later), From(cutoff), other);
  }

  ghost predicate Agree(log: RunLog, other: RunLog, cutoff: Option<int>) {
    && log.next == other.next
    && (cutoff.None? ==> log.rows == other.rows)
    && (cutoff.Some? ==> Kept(log.rows, cutoff.value) == Kept(other.rows, cutoff.value))
  }

  lemma PruneKeepsAgreement(pruned: RunLog, full: RunLog, cutoff: Option<int>, here: int)
    requires Agree(pruned, full, cutoff)
    ensures var next := if cutoff.Some? && cutoff.value >= here then cutoff.value else here;
            Agree(pruned.(rows := Kept(pruned.rows, here)), full, Some(next))
  {
    var next := if cutoff.Some? && cutoff.value >= here then cutoff.value else here;
    FilterWithin(From(next), From(here), pruned.rows);
    if cutoff.Some? {
      KeptLater(pruned.rows, full.rows, cutoff.value, next);
    }
  }

  lemma EvaluationKeepsAgreement(pruned: RunLog, full: RunLog, cutoff: Option<int>, step: Step, days: int)
    requires Agree(pruned, full, cutoff) && step.Evaluate? && days > 0 && Retains(step.automation, days)
    requires cutoff.Some? ==> cutoff.value <= step.now - days * DAY
    ensures Recorded(pruned, step) == Recorded(full, step)
    ensures Agree(Take(pruned, step, days), Take(full, step, 0), cutoff)
  {
    if cutoff.Some? {
      SameDecision(pruned.rows, full.rows, cutoff.value, step.automation, step.now, days);
      if Recorded(full, step).Some? {
        FilterAppend(From(cutoff.value), pruned.rows, Recorded(full, step).value);
        FilterAppend(From(cutoff.value), full.rows, Recorded(full, step).value);
      }
    }
  }

  lemma {:induction false} LogsAgreeFromTheCutoff(log: RunLog, steps: seq<Step>, days: int)
    requires days > 0 && Causal(steps) && AllRetained(steps, days)
    ensures Agree(Execute(log, steps, days), Execute(log, steps, 0), LatestCutoff(steps, days))
    ensures Decisions(log, steps, days) == Decisions(log, steps, 0)
  {
    if steps != [] {
      var init, last := steps[..|steps| - 1], steps[|steps| - 1];
      LogsAgreeFromTheCutoff(log, init, days);
      var pruned, full, cutoff := Execute(log, init, days), Execute(log, init, 0), LatestCutoff(init, days);
      if last.Prune? {
        PruneKeepsAgreement(pruned, full, cutoff, last.moment - days * DAY);
      } else {
        CutoffIsPast(init, days, last.now);
        EvaluationKeepsAgreement(pruned, full, cutoff, last, days);
      }
    }
  }

  /** Pruning is invisible to the engine: with enough retention, pruning the log at any
      past or present moments changes no fire, no skip reason and no due test of any run. */
  lemma PruningIsInvisible(log: RunLog, steps: seq<Step>, days: int)
    requires Causal(steps) && AllRetained(steps, days)
    ensures Decisions(log, steps, days) == Decisions(log, steps, 0)
  {
    if days > 0 {
      LogsAgreeFromTheCutoff(log, steps, days);
    } else {
      NoRetentionIsZeroRetention(log, steps, days);
    }
  }

  lemma {:induction false} NoRetentionIsZeroRetention(log: RunLog, steps: seq<Step>, days: int)
    requires days <= 0
    ensures Decisions(log, steps, days) == Decisions(log, steps, 0)
    ensures Execute(log, steps, days) == Execute(log, steps, 0)
  {
    if steps != [] {
      NoRetentionIsZeroRetention(log, steps[..|steps| - 1], days);
    }
  }

  lemma {:induction false} EvaluationsIgnoreRetention(log: RunLog, steps: seq<Step>, days: int)
    requires forall i :: 0 <= i < |steps| ==> steps[i].Evaluate?
    ensures Execute(log, steps, days) == Execute(log, steps, 0)
  {
    if steps != [] {
      EvaluationsIgnoreRetention(log, steps[..|steps| - 1], days);
    }
  }

  // ------------------------------------------------- one automation among others

  function Unnumbered(): Row<Run> -> Row<Run> {
    (r: Row<Run>) => r.(id := 0)
  }

  /** One automation's runs, surrogate keys aside. */
  function Own(log: seq<Row<Run>>, automation: int): seq<Row<Run>> {
    Apply(Unnumbered(), Filter(RunBy(automation), log))
  }

  /** A selection among one automation's runs that does not look at surrogate keys. */
  ghost predicate ReadsOwn(p: Row<Run> -> bool, automation: int) {
    forall r: Row<Run> :: (p(r) ==> r.data.automation == automation) && p(Unnumbered()(r)) == p(r)
  }

  lemma FireSelectionsReadOwn(automation: int, since: int)
    ensures ReadsOwn(FiredSince(automation, since), automation)
  {
    forall r: Row<Run>
      ensures FiredSince(automation, since)(r) ==> r.data.automation == automation
      ensures FiredSince(automation, since)(Unnumbered()(r)) == FiredSince(automation, since)(r)
    {
      assert FiredSince(automation, since)(r) == (FiredBy(automation)(r) && r.time >= since);
    }
  }

  lemma OwnSelection(log: seq<Row<Run>>, automation: int, p: Row<Run> -> bool)
    requires ReadsOwn(p, automation)
    ensures Filter(p, Own(log, automation)) == Apply(Unnumbered(), Filter(p, log))
  {
    FilterApply(Unnumbered(), p, p, Filter(RunBy(automation), log));
    FilterWithin(p, RunBy(automation), log);
  }

  lemma {:induction false} LastTimeUnnumbered(rows: seq<Row<Run>>)
    ensures LastTime(Apply(Unnumbered(), rows)) == LastTime(rows)
  {
    if rows != [] {
      LastTimeUnnumbered(rows[1..]);
      assert Apply(Unnumbered(), rows)[1..] == Apply(Unnumbered(), rows[1..]);
    }
  }

  lemma OwnCount(log: seq<Row<Run>>, automation: int, windowSeconds: int, now: int)
    ensures CountFiredInWindow(Own(log, automation), automation, windowSeconds, now)
         == CountFiredInWindow(log, automation, windowSeconds, now)
  {
    var since := now - windowSeconds * SECOND;
    FireSelectionsReadOwn(automation, since);
    OwnSelection(log, automation, FiredSince(automation, since));
  }

  lemma OwnTimes(log: seq<Row<Run>>, automation: int)
    ensures LastFireTime(Own(log, automation), automation) == LastFireTime(log, automation)
    ensures LastRunTime(Own(log, automation), automation) == LastRunTime(log, automation)
  {
    OwnSelection(log, automation, FiredBy(automation));
    OwnSelection(log, automation, RunBy(automation));
    LastTimeUnnumbered(Filter(FiredBy(automation), log));
    LastTimeUnnumbered(Filter(RunBy(automation), log));
  }

  /** An automation's decisions read only its own runs. */
  lemma OwnRunsDecide(log: seq<Row<Run>>, a: Automation, now: int)
    ensures CheckCircuitBreaker(Own(log, a.id), a, now) == CheckCircuitBreaker(log, a, now)
    ensures CheckRateLimits(Own(log, a.id), a, now) == CheckRateLimits(log, a, now)
    ensures Due(Own(log, a.id), a, now) == Due(log, a, now)
  {
    if BreakerInForce(a) {
      OwnCount(log, a.id, a.circuitBreaker.value.windowSeconds.value, now);
    }
    if CapInForce(a) {
      OwnCount(log, a.id, a.windowSeconds.value, now);
    }
    OwnTimes(log, a.id);
  }

  lemma OwnAppend(log: seq<Row<Run>>, automation: int, r: Row<Run>)
    ensures Own(log + [r], automation) ==
            if r.data.automation == automation then Own(log, automation) + [r.(id := 0)] else Own(log, automation)
  {
    FilterAppend(RunBy(automation), log, r);
  }

  lemma OwnKept(log: seq<Row<Run>>, automation: int, cutoff: int)
    ensures Own(Kept(log, cutoff), automation) == Kept(Own(log, automation), cutoff)
  {
    FilterCommutes(RunBy(automation), From(cutoff), log);
    FilterApply(Unnumbered(), From(cutoff), From(cutoff), Filter(RunBy(automation), log));
  }

  function Concerns(automation: int): Step -> bool {
    (s: Step) => s.Prune? || s.automation.id == automation
  }

  /** The evaluations of one automation, and the prunes. */
  function OwnSteps(steps: seq<Step>, automation: int): seq<Step> {
    Filter(Concerns(automation), steps)
  }

  lemma SameOwnStep(log: RunLog, alone: RunLog, step: Step, automation: int, days: int)
    requires Own(log.rows, automation) == Own(alone.rows, automation) && Concerns(automation)(step)
    ensures Own(Take(log, step, days).rows, automation) == Own(Take(alone, step, days).rows, automation)
    ensures var r, q := Recorded(log, step), Recorded(alone, step);
            r.Some? == q.Some? && (r.Some? ==> r.value.(id := 0) == q.value.(id := 0))
  {
    match step
    case Prune(moment) =>
      OwnKept(log.rows, automation, moment - days * DAY);
      OwnKept(alone.rows, automation, moment - days * DAY);
    case Evaluate(a, now, stamp, passed, outcome) =>
      OwnRunsDecide(log.rows, a, now);
      OwnRunsDecide(alone.rows, a, now);
      if Due(log.rows, a, now) {
        OwnAppend(log.rows, automation, Recorded(log, step).value);
        OwnAppend(alone.rows, automation, Recorded(alone, step).value);
      }
  }

  lemma ForeignStep(log: RunLog, step: Step, automation: int, days: int)
    requires !Concerns(automation)(step)
    ensures Own(Take(log, step, days).rows, automation) == Own(log.rows, automation)
  {
    if Recorded(log, step).Some? {
      OwnAppend(log.rows, automation, Recorded(log, step).value);
    }
  }

  lemma OneMoreDecision(log: RunLog, steps: seq<Step>, step: Step, days: int)
    ensures Execute(log, steps + [step], days) == Take(Execute(log, steps, days), step, days)
    ensures Decisions(log, steps + [step], days)
            == Decisions(log, steps, days) + [Recorded(Execute(log, steps, days), step)]
  {
    assert (steps + [step])[..|steps|] == steps;
  }

  lemma OneMoreEntry(decisions: seq<Option<Row<Run>>>, decision: Option<Row<Run>>)
    ensures History(decisions + [decision])
            == if decision.Some? then History(decisions) + [decision.value] else History(decisions)
  {
    assert (decisions + [decision])[..|decisions|] == decisions;
  }

  /** Automations do not interfere: one among others logs what it would log alone. */
  lemma {:induction false} AutomationsDoNotInterfere(log: RunLog, steps: seq<Step>, automation: int, days: int)
    ensures var alone := OwnSteps(steps, automation);
            && Own(Execute(log, steps, days).rows, automation) == Own(Execute(log, alone, days).rows, automation)
            && Own(History(Decisions(log, steps, days)), automation)
                 == Own(History(Decisions(log, alone, days)), automation)
  {
    if steps != [] {
      var init, last := steps[..|steps| - 1], steps[|steps| - 1];
      AutomationsDoNotInterfere(log, init, automation, days);
      var among, alone := Execute(log, init, days), Execute(log, OwnSteps(init, automation), days);
      assert steps == init + [last];
      FilterAppend(Concerns(automation), init, last);
      OneMoreEntry(Decisions(log, init, days), Recorded(among, last));
      if Recorded(among, last).Some? {
        OwnAppend(History(Decisions(log, init, days)), automation, Recorded(among, last).value);
      }
      if Concerns(automation)(last) {
        SameOwnStep(among, alone, last, automation, days);
        OneMoreDecision(log, OwnSteps(init, automation), last, days);
        OneMoreEntry(Decisions(log, OwnSteps(init, automation), days), Recorded(alone, last));
        if Recorded(alone, last).Some? {
          OwnAppend(History(Decisions(log, OwnSteps(init, automation), days)), automation, Recorded(alone, last).value);
        }
      } else {
        ForeignStep(among, last, automation, days);
      }
    }
  }

  /** Every limit the automation is ever evaluated with is covered, whatever the others ask for. */
  ghost predicate RetainedFor(steps: seq<Step>, automation: int, days: int) {
    forall i :: 0 <= i < |steps| && steps[i].Evaluate? && steps[i].automation.id == automation
      ==> Retains(steps[i].automation, days)
  }

  lemma {:induction false} CausalAlone(steps: seq<Step>, automation: int, days: int)
    requires Causal(steps) && RetainedFor(steps, automation, days)
    ensures Causal(OwnSteps(steps, automation)) && AllRetained(OwnSteps(steps, automation), days)
  {
    if steps != [] {
      var init, last := steps[..|steps| - 1], steps[|steps| - 1];
      CausalAlone(init, automation, days);
      assert steps == init + [last];
      FilterAppend(Concerns(automation), init, last);
      FilterMember(Concerns(automation), init);
    }
  }

  ghost predicate SameRun(one: Option<Row<Run>>, other: Option<Row<Run>>) {
    one.Some? == other.Some? && (one.Some? ==> one.value.(id := 0) == other.value.(id := 0))
  }

  lemma AmongAsAlone(log: RunLog, init: seq<Step>, last: Step, automation: int, days: int)
    requires Concerns(automation)(last)
    ensures SameRun(Recorded(Execute(log, init, days), last),
                    Recorded(Execute(log, OwnSteps(init, automation), days), last))
  {
    AutomationsDoNotInterfere(log, init, automation, days);
    SameOwnStep(Execute(log, init, days), Execute(log, OwnSteps(init, automation), days), last, automation, days);
  }

  lemma LastDecisionUnchanged(log: RunLog, init: seq<Step>, last: Step, days: int)
    requires Causal(init + [last]) && AllRetained(init + [last], days)
    ensures Recorded(Execute(log, init, days), last) == Recorded(Execute(log, init, 0), last)
  {
    PruningIsInvisible(log, init + [last], days);
    OneMoreDecision(log, init, last, days);
    OneMoreDecision(log, init, last, 0);
    assert Decisions(log, init + [last], days)[|init|] == Decisions(log, init + [last], 0)[|init|];
  }

  lemma OwnDecisionUnchanged(log: RunLog, steps: seq<Step>, automation: int, days: int, i: nat)
    requires i < |steps| && steps[i].Evaluate? && steps[i].automation.id == automation
    requires Causal(steps[..i] + [steps[i]]) && RetainedFor(steps[..i] + [steps[i]], automation, days)
    ensures SameRun(Recorded(Execute(log, steps[..i], days), steps[i]), Recorded(Execute(log, steps[..i], 0), steps[i]))
  {
    CausalAlone(steps[..i] + [steps[i]], automation, days);
    FilterAppend(Concerns(automation), steps[..i], steps[i]);
    LastDecisionUnchanged(log, OwnSteps(steps[..i], automation), steps[i], days);
    AmongAsAlone(log, steps[..i], steps[i], automation, days);
    AmongAsAlone(log, steps[..i], steps[i], automation, 0);
  }

  lemma OwnDecisionAt(log: RunLog, steps: seq<Step>, automation: int, days: int, i: nat)
    requires Causal(steps) && RetainedFor(steps, automation, days)
    requires i < |steps| && steps[i].Evaluate? && steps[i].automation.id == automation
    ensures SameRun(Decisions(log, steps, days)[i], Decisions(log, steps, 0)[i])
  {
    DecisionAt(log, steps, days, i);
    DecisionAt(log, steps, 0, i);
    OwnDecisionUnchanged(log, steps, automation, days, i);
  }

  lemma OwnHistoryUnchanged(log: RunLog, steps: seq<Step>, automation: int, days: int)
    requires Causal(steps) && RetainedFor(steps, automation, days)
    ensures Own(History(Decisions(log, steps, days)), automation) == Own(History(Decisions(log, steps, 0)), automation)
  {
    AutomationsDoNotInterfere(log, steps, automation, days);
    AutomationsDoNotInterfere(log, steps, automation, 0);
    CausalAlone(steps, automation, days);
    PruningIsInvisible(log, OwnSteps(steps, automation), days);
  }

  /** Retention has to cover only the automation at hand: then pruning changes none of its decisions,
      however far back the other automations look. */
  lemma PruningIsInvisibleTo(log: RunLog, steps: seq<Step>, automation: int, days: int)
    requires Causal(steps) && RetainedFor(steps, automation, days)
    ensures forall i :: 0 <= i < |steps| && steps[i].Evaluate? && steps[i].automation.id == automation
              ==> SameRun(Decisions(log, steps, days)[i], Decisions(log, steps, 0)[i])
    ensures Own(History(Decisions(log, steps, days)), automation) == Own(History(Decisions(log, steps, 0)), automation)
  {
    forall i | 0 <= i < |steps| && steps[i].Evaluate? && steps[i].automation.id == automation
      ensures SameRun(Decisions(log, steps, days)[i], Decisions(log, steps, 0)[i])
    {
      OwnDecisionAt(log, steps, automation, days, i);
    }
    OwnHistoryUnchanged(log, steps, automation, days);
  }
}
