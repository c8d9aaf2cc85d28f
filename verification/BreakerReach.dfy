/** Exactly when a circuit breaker can open under the automation's own cooldown, schedule and cap. */
module BreakerReach {
  import opened Rows
  import opened Workflow
  import opened Invisible
  import opened RunLimits
  import opened FireTimes

  ghost predicate Opened(a: Automation, r: Row<Run>) {
    r.data.automation == a.id && r.data.skipped == Some(CircuitOpen)
  }

  ghost predicate OpensIn(a: Automation, history: seq<Row<Run>>) {
    exists r :: r in history && Opened(a, r)
  }

  /** A run of the engine, from an empty log, that records a circuit_open skip of the automation. */
  ghost predicate Opens(a: Automation, steps: seq<Step>, days: int) {
    && FixedSettings(steps, a) && ClocksNeverBack(steps) && Punctual(steps) && Causal(steps)
    && OpensIn(a, History(Decisions(Empty(), steps, days)))
  }

  /** As many fires as the threshold, and the next time the automation is asked, fit into the breaker's window. */
  predicate LeavesRoom(a: Automation)
    requires Validated(a) && BreakerInForce(a)
  {
    Threshold(a) > 0 ==> Earliest(a, Threshold(a) - 1) + Pause(a) <= BreakerSpan(a)
  }

  lemma ReachedNeedsRoom(log: seq<Row<Run>>, a: Automation, now: int)
    requires Validated(a) && BreakerInForce(a) && CanFire(a) && TimeOrdered(log) && KeepsDistances(Fires(log, a), a)
    requires forall r :: r in log ==> r.time <= now
    requires Due(log, a, now) && BreakerReached(log, a, now)
    ensures LeavesRoom(a)
  {
    BreakerReadOff(log, a, now);
    var fires := Fires(log, a);
    DistancesAddUp(fires, a, |fires| - Threshold(a), Threshold(a) - 1);
    DueIsAPauseLater(log, a, now);
    FilterMember(FiredBy(a.id), log);
    assert fires[|fires| - 1] in fires;
  }

  lemma {:induction false} OpeningNeedsRoom(steps: seq<Step>, a: Automation)
    requires Validated(a) && BreakerInForce(a) && Opens(a, steps, 0)
    ensures LeavesRoom(a)
  {
    var init, last := steps[..|steps| - 1], steps[|steps| - 1];
    var log := Execute(Empty(), init, 0);
    assert steps == init + [last];
    OneMoreDecision(Empty(), init, last, 0);
    OneMoreEntry(Decisions(Empty(), init, 0), Recorded(log, last));
    if OpensIn(a, History(Decisions(Empty(), init, 0))) {
      OpeningNeedsRoom(init, a);
    } else if CanFire(a) {
      assert Opened(a, Recorded(log, last).value);
      FiresKeepDistances(init, a);
      LogsAreTimeOrdered(init, last.now);
      ReachedNeedsRoom(log.rows, a, last.now);
    }
  }

  lemma OpeningIsOwn(history: seq<Row<Run>>, other: seq<Row<Run>>, a: Automation)
    requires OpensIn(a, history) && Own(history, a.id) == Own(other, a.id)
    ensures OpensIn(a, other)
  {
    var r :| r in history && Opened(a, r);
    FilterMember(RunBy(a.id), history);
    FilterMember(RunBy(a.id), other);
    var mine, theirs := Filter(RunBy(a.id), history), Filter(RunBy(a.id), other);
    var i :| 0 <= i < |mine| && mine[i] == r;
    assert Own(history, a.id)[i] == Unnumbered()(r) && Own(other, a.id)[i] == Unnumbered()(theirs[i]);
    assert theirs[i] in theirs && Opened(a, theirs[i]);
  }

  lemma FullThresholdTrips(log: seq<Row<Run>>, a: Automation, now: int)
    requires Validated(a) && BreakerInForce(a) && CanFire(a) && FiredAtEarliest(log, a, Threshold(a))
    requires Earliest(a, Threshold(a) - 1) + Pause(a) <= now <= BreakerSpan(a)
    ensures Due(log, a, now) && BreakerReached(log, a, now)
  {
    FastLogIsItsFires(log, a, Threshold(a));
    BreakerReadOff(log, a, now);
    LastIsLatest(log);
  }

  /** Fire as fast as the limits allow, then ask once more. */
  function Trip(a: Automation): seq<Step>
    requires Validated(a) && BreakerInForce(a)
  {
    var n := if Threshold(a) > 0 then Threshold(a) else 0;
    var now := if n > 0 then Earliest(a, n - 1) + Pause(a) else 0;
    (if n > 0 then Fastest(a, n) else []) + [Evaluate(a, now, now, true, [])]
  }

  lemma TripIsOrderly(a: Automation)
    requires Validated(a) && BreakerInForce(a)
    ensures FixedSettings(Trip(a), a) && ClocksNeverBack(Trip(a)) && Punctual(Trip(a)) && Causal(Trip(a))
  {
    if Threshold(a) > 0 {
      FastestIsOrderly(a, Threshold(a), Earliest(a, Threshold(a) - 1) + Pause(a));
    }
  }

  /** After the fast fires, or none, the breaker is open to one more evaluation. */
  lemma AskedOnceMore(a: Automation, init: seq<Step>, last: Step, days: int)
    requires Validated(a) && BreakerInForce(a) && LeavesRoom(a)
    requires init == if Threshold(a) > 0 then Fastest(a, Threshold(a)) else []
    requires var now := if Threshold(a) > 0 then Earliest(a, Threshold(a) - 1) + Pause(a) else 0;
             last == Evaluate(a, now, now, true, [])
    ensures var run := Recorded(Execute(Empty(), init, days), last); run.Some? && Opened(a, run.value)
  {
    if Threshold(a) > 0 {
      FastestFires(a, Threshold(a), days);
      FullThresholdTrips(Execute(Empty(), init, days).rows, a, last.now);
    }
  }

  lemma RoomOpensTheBreaker(a: Automation, days: int)
    requires Validated(a) && BreakerInForce(a) && LeavesRoom(a)
    ensures Opens(a, Trip(a), days)
  {
    TripIsOrderly(a);
    var init := if Threshold(a) > 0 then Fastest(a, Threshold(a)) else [];
    var now := if Threshold(a) > 0 then Earliest(a, Threshold(a) - 1) + Pause(a) else 0;
    EndsOpen(a, init, Evaluate(a, now, now, true, []), days);
  }

  lemma EndsOpen(a: Automation, init: seq<Step>, last: Step, days: int)
    requires Validated(a) && BreakerInForce(a) && LeavesRoom(a)
    requires init == if Threshold(a) > 0 then Fastest(a, Threshold(a)) else []
    requires var now := if Threshold(a) > 0 then Earliest(a, Threshold(a) - 1) + Pause(a) else 0;
             last == Evaluate(a, now, now, true, [])
    ensures OpensIn(a, History(Decisions(Empty(), init + [last], days)))
  {
    AskedOnceMore(a, init, last, days);
    OneMoreDecision(Empty(), init, last, days);
    OneMoreEntry(Decisions(Empty(), init, days), Recorded(Execute(Empty(), init, days), last));
  }

  /** A breaker can open exactly when its threshold of fires, as fast as cooldown, schedule and cap let them
      come, and the next evaluation fit into its window. Pruning with covering retention does not change that. */
  lemma BreakerOpensIffThereIsRoom(a: Automation, days: int)
    requires Validated(a) && BreakerInForce(a) && Retains(a, days)
    ensures (exists steps :: Opens(a, steps, days)) <==> LeavesRoom(a)
  {
    if exists steps :: Opens(a, steps, days) {
      var steps :| Opens(a, steps, days);
      PruningIsInvisibleTo(Empty(), steps, a.id, days);
      OpeningIsOwn(History(Decisions(Empty(), steps, days)), History(Decisions(Empty(), steps, 0)), a);
      OpeningNeedsRoom(steps, a);
    }
    if LeavesRoom(a) {
      RoomOpensTheBreaker(a, days);
    }
  }

  // ------------------------------------------------- the closed form for a cap alone

  /** An event automation with a cap, a breaker and no cooldown. */
  predicate OnlyCappedWithBreaker(a: Automation) {
    && Validated(a) && a.trigger.OnEvent? && a.cooldownSeconds.None? && CapInForce(a)
    && BreakerInForce(a) && Threshold(a) > 0 && BreakerSpan(a) > 0
  }

  /** How many full cap windows can begin inside one breaker window. */
  function Groups(a: Automation): (k: nat)
    requires OnlyCappedWithBreaker(a)
    ensures (k - 1) * (CapSpan(a) + 1) <= BreakerSpan(a) < k * (CapSpan(a) + 1)
  {
    var period := CapSpan(a) + 1;
    var q := BreakerSpan(a) / period;
    assert BreakerSpan(a) == period * q + BreakerSpan(a) % period;
    assert (q + 1) * period == q * period + period;
    q + 1
  }

  lemma {:induction false} CappedAtMost(a: Automation, n: nat, k: nat)
    requires OnlyCappedWithBreaker(a) && n < Threshold(a) && n < Cap(a) * (k + 1)
    ensures Earliest(a, n) <= k * (CapSpan(a) + 1)
    decreases n
  {
    if n > 0 {
      CappedAtMost(a, n - 1, k);
      if n >= Cap(a) {
        assert Cap(a) * (k + 1) == Cap(a) * k + Cap(a);
        assert k >= 1;
        CappedAtMost(a, n - Cap(a), k - 1);
        assert k * (CapSpan(a) + 1) == (k - 1) * (CapSpan(a) + 1) + CapSpan(a) + 1;
      }
    }
  }

  lemma {:induction false} CappedAtLeast(a: Automation, n: nat, k: nat)
    requires OnlyCappedWithBreaker(a) && n >= Cap(a) * k
    ensures Earliest(a, n) >= k * (CapSpan(a) + 1)
    decreases k
  {
    if k > 0 {
      assert Cap(a) * k == Cap(a) * (k - 1) + Cap(a);
      CappedAtLeast(a, n - Cap(a), k - 1);
      assert k * (CapSpan(a) + 1) == (k - 1) * (CapSpan(a) + 1) + CapSpan(a) + 1;
    } else {
      EarliestGrows(a, 0, n);
    }
  }

  /** Under a cap alone there is room exactly when the threshold is at most the cap times the number of cap
      windows that can begin in one breaker window. */
  lemma RoomUnderACap(a: Automation)
    requires OnlyCappedWithBreaker(a)
    ensures LeavesRoom(a) <==> Threshold(a) <= Cap(a) * Groups(a)
  {
    var n := Threshold(a) - 1;
    if n < Cap(a) * Groups(a) {
      assert Groups(a) >= 1;
      CappedAtMost(a, n, Groups(a) - 1);
    } else {
      CappedAtLeast(a, n, Groups(a));
    }
  }
}
