/** The circuit state an automation's status shows (src/taskowl/automations.py), and the breaker its next
    evaluation meets. */
module Status {
  import opened Rows
  import opened Latest
  import opened Workflow
  import opened Invisible
  import opened RunLimits
  import opened FireTimes
  import opened BreakerReach

  function AutomationOf(): Run -> int {
    (r: Run) => r.automation
  }

  /** The answer of WHERE automation_id = id ORDER BY created_at DESC, id DESC LIMIT 1. */
  ghost predicate IsLatestRun(log: seq<Row<Run>>, automation: int, answer: Option<Row<Run>>) {
    match answer
    case None => forall r :: r in log ==> r.data.automation != automation
    case Some(r) => r in LatestRows(AutomationOf(), log) && r.data.automation == automation
  }

  /** get_automation_status: open if the latest run was skipped by the breaker; empty settings count as none. */
  predicate ShownOpen(a: Automation, latest: Option<Row<Run>>) {
    a.circuitBreaker.Some? && latest.Some? && latest.value.data.skipped == Some(CircuitOpen)
  }

  function LastRun(log: seq<Row<Run>>, automation: int): Option<Row<Run>> {
    var runs := Filter(RunBy(automation), log);
    if runs == [] then None else Some(runs[|runs| - 1])
  }

  /** In rows in time and key order nothing precedes the last one. */
  lemma NothingAfterTheLast(rows: seq<Row<Run>>, r: Row<Run>)
    requires Ordered(rows) && TimeOrdered(rows) && r in rows && !Precedes(Descending, rows[|rows| - 1], r)
    ensures r == rows[|rows| - 1]
  {
    var i :| 0 <= i < |rows| && rows[i] == r;
  }

  lemma NothingPrecedesTheLatest(log: seq<Row<Run>>, automation: int, r: Row<Run>)
    requires IsLatestRun(log, automation, Some(r))
    ensures var runs := Filter(RunBy(automation), log);
            r in runs && forall q :: q in runs ==> !Precedes(Descending, q, r)
  {
    FilterMember(RunBy(automation), log);
    FilterMember(RankedFirst(AutomationOf(), Descending, log), log);
    RankedFirstMeans(AutomationOf(), Descending, log, r);
    assert RunBy(automation)(r);
  }

  /** In a log in time order the latest run is the last one. */
  lemma LatestIsLast(log: seq<Row<Run>>, automation: int, answer: Option<Row<Run>>)
    requires Ordered(log) && TimeOrdered(log) && IsLatestRun(log, automation, answer)
    ensures answer == LastRun(log, automation)
  {
    var runs := Filter(RunBy(automation), log);
    match answer
    case None => FilterNone(RunBy(automation), log);
    case Some(r) =>
      NothingPrecedesTheLatest(log, automation, r);
      FilterOrdered(RunBy(automation), log);
      TimeOrderedFilter(RunBy(automation), log);
      assert runs[|runs| - 1] in runs;
      NothingAfterTheLast(runs, r);
  }

  lemma KeptIsKeyed(log: RunLog, cutoff: int)
    requires WellKeyed(log)
    ensures WellKeyed(log.(rows := Kept(log.rows, cutoff)))
  {
    FilterOrdered(From(cutoff), log.rows);
    FilterMember(From<Run>(cutoff), log.rows);
  }

  lemma {:induction false} LogsAreKeyed(steps: seq<Step>, days: int)
    ensures WellKeyed(Execute(Empty(), steps, days))
  {
    if steps != [] {
      var init, last := steps[..|steps| - 1], steps[|steps| - 1];
      LogsAreKeyed(init, days);
      if last.Prune? {
        KeptIsKeyed(Execute(Empty(), init, days), last.moment - days * DAY);
      }
    }
  }

  lemma KeptInTime(rows: seq<Row<Run>>, cutoff: int, clock: int)
    requires TimeOrdered(rows) && forall r :: r in rows ==> r.time <= clock
    ensures TimeOrdered(Kept(rows, cutoff)) && forall r :: r in Kept(rows, cutoff) ==> r.time <= clock
  {
    TimeOrderedFilter(From(cutoff), rows);
    FilterMember(From<Run>(cutoff), rows);
  }

  lemma {:induction false} PrunedLogsAreTimeOrdered(steps: seq<Step>, clock: int, days: int)
    requires ClocksNeverBack(steps) && Punctual(steps)
    requires forall i :: 0 <= i < |steps| && steps[i].Evaluate? ==> steps[i].now <= clock
    ensures TimeOrdered(Execute(Empty(), steps, days).rows)
    ensures forall r :: r in Execute(Empty(), steps, days).rows ==> r.time <= clock
  {
    if steps != [] {
      var init, last := steps[..|steps| - 1], steps[|steps| - 1];
      PrunedLogsAreTimeOrdered(init, if last.Evaluate? then last.now else clock, days);
      if last.Prune? {
        KeptInTime(Execute(Empty(), init, days).rows, last.moment - days * DAY, clock);
      }
    }
  }

  lemma OneMoreRun(log: seq<Row<Run>>, a: Automation, r: Row<Run>)
    ensures LastRun(log + [r], a.id) == if r.data.automation == a.id then Some(r) else LastRun(log, a.id)
    ensures Fires(log + [r], a) == if FiredBy(a.id)(r) then Fires(log, a) + [r] else Fires(log, a)
  {
    FilterAppend(RunBy(a.id), log, r);
    FilterAppend(FiredBy(a.id), log, r);
  }

  lemma SomeLatestRun(log: seq<Row<Run>>, a: Automation) returns (latest: Option<Row<Run>>)
    requires Ordered(log)
    ensures IsLatestRun(log, a.id, latest)
  {
    if r :| r in log && r.data.automation == a.id {
      var first := RankedFirstExists(AutomationOf(), Descending, log, r);
      latest := Some(first);
    } else {
      latest := None;
    }
  }

  lemma {:induction false} FastestNeverSkips(a: Automation, n: nat, days: int)
    requires Validated(a) && CanFire(a)
    ensures forall r :: r in Execute(Empty(), Fastest(a, n), days).rows ==> r.data.skipped.None?
  {
    if n > 0 {
      FastestNeverSkips(a, n - 1, days);
      FastestFires(a, n - 1, days);
      OneFireMore(Execute(Empty(), Fastest(a, n - 1), days), a, n - 1, days);
      assert Fastest(a, n)[..n - 1] == Fastest(a, n - 1);
    }
  }

  lemma NoSkipShowsClosed(log: seq<Row<Run>>, a: Automation, latest: Option<Row<Run>>)
    requires IsLatestRun(log, a.id, latest) && forall r :: r in log ==> r.data.skipped.None?
    ensures !ShownOpen(a, latest)
  {
    FilterMember(RankedFirst(AutomationOf(), Descending, log), log);
  }

  lemma FastestShowsClosed(a: Automation, n: nat, latest: Option<Row<Run>>, days: int)
    requires Validated(a) && CanFire(a) && IsLatestRun(Execute(Empty(), Fastest(a, n), days).rows, a.id, latest)
    ensures !ShownOpen(a, latest)
  {
    FastestNeverSkips(a, n, days);
    NoSkipShowsClosed(Execute(Empty(), Fastest(a, n), days).rows, a, latest);
  }

  // ------------------------------------------------- pruning and the status

  lemma {:induction false} LogIsFromHistory(steps: seq<Step>, days: int)
    ensures forall r :: r in Execute(Empty(), steps, days).rows ==> r in History(Decisions(Empty(), steps, days))
  {
    if steps != [] {
      var init, last := steps[..|steps| - 1], steps[|steps| - 1];
      LogIsFromHistory(init, days);
      var before := Execute(Empty(), init, days);
      assert steps == init + [last];
      OneMoreDecision(Empty(), init, last, days);
      OneMoreEntry(Decisions(Empty(), init, days), Recorded(before, last));
      if last.Prune? {
        FilterMember(From<Run>(last.moment - days * DAY), before.rows);
      }
    }
  }

  function Clock(step: Step): int {
    match step
    case Evaluate(_, now, _, _, _) => now
    case Prune(moment) => moment
  }

  ghost predicate AllBefore(steps: seq<Step>, now: int) {
    forall i :: 0 <= i < |steps| ==> Clock(steps[i]) <= now
  }

  lemma OwnStepsAreBefore(steps: seq<Step>, automation: int, now: int)
    requires AllBefore(steps, now)
    ensures AllBefore(OwnSteps(steps, automation), now)
  {
    FilterMember(Concerns(automation), steps);
    var own := OwnSteps(steps, automation);
    forall i | 0 <= i < |own| ensures Clock(own[i]) <= now {
      var j :| 0 <= j < |steps| && steps[j] == own[i];
    }
  }

  lemma CutoffPruneIsUnseen(steps: seq<Step>, a: Automation, now: int, days: int)
    requires Causal(steps) && AllRetained(steps, days) && Retains(a, days) && AllBefore(steps, now)
    ensures var pruned, full := Execute(Empty(), steps, days).rows, Execute(Empty(), steps, 0).rows;
            BreakerReached(pruned, a, now) == BreakerReached(full, a, now) && Due(pruned, a, now) == Due(full, a, now)
  {
    var pruned, full := Execute(Empty(), steps, days), Execute(Empty(), steps, 0);
    if days > 0 {
      LogsAgreeFromTheCutoff(Empty(), steps, days);
      CutoffIsPast(steps, days, now);
      var cutoff := LatestCutoff(steps, days);
      if cutoff.Some? {
        SameBreakerCheck(pruned.rows, full.rows, cutoff.value, a, now, days);
        SameDueTest(pruned.rows, full.rows, cutoff.value, a, now, days);
      }
    } else {
      NoRetentionIsZeroRetention(Empty(), steps, days);
    }
  }

  /** Covering retention hides nothing from a look at the breaker, whatever the other automations look back to. */
  lemma PrunedBreakerIsTheSame(steps: seq<Step>, a: Automation, now: int, days: int)
    requires Causal(steps) && FixedSettings(steps, a) && Retains(a, days) && AllBefore(steps, now)
    ensures var pruned, full := Execute(Empty(), steps, days).rows, Execute(Empty(), steps, 0).rows;
            BreakerReached(pruned, a, now) == BreakerReached(full, a, now) && Due(pruned, a, now) == Due(full, a, now)
  {
    var own := OwnSteps(steps, a.id);
    CausalAlone(steps, a.id, days);
    OwnStepsAreBefore(steps, a.id, now);
    CutoffPruneIsUnseen(own, a, now, days);
    OwnBreaker(steps, a, now, days);
    OwnBreaker(steps, a, now, 0);
  }

  lemma OwnBreaker(steps: seq<Step>, a: Automation, now: int, days: int)
    ensures var among, alone := Execute(Empty(), steps, days).rows, Execute(Empty(), OwnSteps(steps, a.id), days).rows;
            BreakerReached(among, a, now) == BreakerReached(alone, a, now) && Due(among, a, now) == Due(alone, a, now)
  {
    var among, alone := Execute(Empty(), steps, days).rows, Execute(Empty(), OwnSteps(steps, a.id), days).rows;
    AutomationsDoNotInterfere(Empty(), steps, a.id, days);
    OwnRunsDecide(among, a, now);
    OwnRunsDecide(alone, a, now);
  }

  // ------------------------------------------------- when the status agrees

  /** A run of the engine at fixed settings, the latest run its log shows, and a clock after all of it. */
  ghost predicate StatusAt(a: Automation, steps: seq<Step>, latest: Option<Row<Run>>, now: int, days: int) {
    && FixedSettings(steps, a) && ClocksNeverBack(steps) && Punctual(steps) && Causal(steps) && AllBefore(steps, now)
    && IsLatestRun(Execute(Empty(), steps, days).rows, a.id, latest)
  }

  ghost predicate Agrees(a: Automation, steps: seq<Step>, latest: Option<Row<Run>>, now: int, days: int) {
    ShownOpen(a, latest) == BreakerReached(Execute(Empty(), steps, days).rows, a, now)
  }

  /** The state shown is the breaker's state at every clock after every run ... */
  ghost predicate AlwaysAgrees(a: Automation, days: int) {
    forall steps, latest, now :: StatusAt(a, steps, latest, now, days) ==> Agrees(a, steps, latest, now, days)
  }

  /** ... or at least at every clock at which the automation would be evaluated. */
  ghost predicate AgreesWhenAsked(a: Automation, days: int) {
    forall steps, latest, now :: StatusAt(a, steps, latest, now, days) ==>
      (Due(Execute(Empty(), steps, days).rows, a, now) ==> Agrees(a, steps, latest, now, days))
  }

  /** A status that shows open has the breaker's skip behind it, so the breaker has opened. */
  lemma ShownOpenNeedsRoom(a: Automation, steps: seq<Step>, latest: Option<Row<Run>>, now: int, days: int)
    requires Validated(a) && BreakerInForce(a) && Retains(a, days)
    requires StatusAt(a, steps, latest, now, days) && ShownOpen(a, latest)
    ensures LeavesRoom(a)
  {
    var log := Execute(Empty(), steps, days).rows;
    NothingPrecedesTheLatest(log, a.id, latest.value);
    FilterMember(RunBy(a.id), log);
    LogIsFromHistory(steps, days);
    assert Opened(a, latest.value);
    assert Opens(a, steps, days);
    BreakerOpensIffThereIsRoom(a, days);
  }

  lemma ReachedFitsTheWindow(log: seq<Row<Run>>, a: Automation, now: int)
    requires Validated(a) && BreakerInForce(a) && CanFire(a) && TimeOrdered(log) && KeepsDistances(Fires(log, a), a)
    requires BreakerReached(log, a, now) && forall r :: r in log ==> r.time <= now
    ensures Earliest(a, Threshold(a) - 1) <= BreakerSpan(a)
  {
    BreakerReadOff(log, a, now);
    var fires := Fires(log, a);
    DistancesAddUp(fires, a, |fires| - Threshold(a), Threshold(a) - 1);
    FilterMember(FiredBy(a.id), log);
    assert fires[|fires| - 1] in fires;
  }

  lemma ReachedIsInReach(a: Automation, steps: seq<Step>, latest: Option<Row<Run>>, now: int, days: int)
    requires Validated(a) && BreakerInForce(a) && CanFire(a) && Retains(a, days)
    requires StatusAt(a, steps, latest, now, days) && BreakerReached(Execute(Empty(), steps, days).rows, a, now)
    ensures Earliest(a, Threshold(a) - 1) <= BreakerSpan(a)
    ensures Due(Execute(Empty(), steps, days).rows, a, now) ==> LeavesRoom(a)
  {
    var full := Execute(Empty(), steps, 0).rows;
    PrunedBreakerIsTheSame(steps, a, now, days);
    FiresKeepDistances(steps, a);
    LogsAreTimeOrdered(steps, now);
    ReachedFitsTheWindow(full, a, now);
    if Due(full, a, now) {
      ReachedNeedsRoom(full, a, now);
    }
  }

  /** A breaker that is open from the start shows closed. */
  lemma NeverFiringShowsClosed(a: Automation, days: int)
    requires Validated(a) && BreakerInForce(a) && !CanFire(a)
    ensures StatusAt(a, [], None, 0, days) && Due([], a, 0) && !Agrees(a, [], None, 0, days)
  {
  }

  /** Fire as often as the threshold, as fast as the limits allow, and look at the breaker right away. */
  lemma AFullBreakerDisagrees(a: Automation, latest: Option<Row<Run>>, now: int, days: int)
    requires Validated(a) && BreakerInForce(a) && CanFire(a)
    requires Earliest(a, Threshold(a) - 1) <= now <= BreakerSpan(a)
    requires IsLatestRun(Execute(Empty(), Fastest(a, Threshold(a)), days).rows, a.id, latest)
    ensures StatusAt(a, Fastest(a, Threshold(a)), latest, now, days)
    ensures !Agrees(a, Fastest(a, Threshold(a)), latest, now, days)
  {
    var n := Threshold(a);
    FastestIsOrderly(a, n, now);
    FastestShowsClosed(a, n, latest, days);
    FastestFires(a, n, days);
    var log := Execute(Empty(), Fastest(a, n), days).rows;
    FastLogIsItsFires(log, a, n);
    BreakerReadOff(log, a, now);
  }

  /** The status shows the breaker's state at every clock after every run, pruned with covering retention or not,
      if and only if the breaker can never be reached: its threshold of fires cannot come within its window. */
  lemma StatusAlwaysAgreesIff(a: Automation, days: int)
    requires Validated(a) && BreakerInForce(a) && Retains(a, days)
    ensures AlwaysAgrees(a, days) <==> CanFire(a) && Earliest(a, Threshold(a) - 1) > BreakerSpan(a)
  {
    if !CanFire(a) {
      NeverFiringShowsClosed(a, days);
    } else if Earliest(a, Threshold(a) - 1) > BreakerSpan(a) {
      forall steps, latest, now | StatusAt(a, steps, latest, now, days) ensures Agrees(a, steps, latest, now, days) {
        NeitherOpenNorReached(a, steps, latest, now, days);
      }
    } else {
      LogsAreKeyed(Fastest(a, Threshold(a)), days);
      var latest := SomeLatestRun(Execute(Empty(), Fastest(a, Threshold(a)), days).rows, a);
      AFullBreakerDisagrees(a, latest, Earliest(a, Threshold(a) - 1), days);
    }
  }

  lemma NeitherOpenNorReached(a: Automation, steps: seq<Step>, latest: Option<Row<Run>>, now: int, days: int)
    requires Validated(a) && BreakerInForce(a) && CanFire(a) && Retains(a, days)
    requires StatusAt(a, steps, latest, now, days)
    requires !LeavesRoom(a)
    ensures !ShownOpen(a, latest)
    ensures Earliest(a, Threshold(a) - 1) > BreakerSpan(a) || Due(Execute(Empty(), steps, days).rows, a, now) ==>
              !BreakerReached(Execute(Empty(), steps, days).rows, a, now)
  {
    if ShownOpen(a, latest) {
      ShownOpenNeedsRoom(a, steps, latest, now, days);
    } else if BreakerReached(Execute(Empty(), steps, days).rows, a, now) {
      ReachedIsInReach(a, steps, latest, now, days);
    }
  }

  /** And it tells what the next evaluation would meet, at every clock at which there is one, if and only if no run
      of the engine ever opens the breaker: the state is right about every evaluation just when it is never open. */
  lemma StatusAgreesWhenAskedIff(a: Automation, days: int)
    requires Validated(a) && BreakerInForce(a) && Retains(a, days)
    ensures AgreesWhenAsked(a, days) <==> !LeavesRoom(a)
    ensures AgreesWhenAsked(a, days) <==> !exists steps :: Opens(a, steps, days)
  {
    BreakerOpensIffThereIsRoom(a, days);
    if !CanFire(a) {
      NeverFiringShowsClosed(a, days);
    } else if LeavesRoom(a) {
      LogsAreKeyed(Fastest(a, Threshold(a)), days);
      var latest := SomeLatestRun(Execute(Empty(), Fastest(a, Threshold(a)), days).rows, a);
      var now := Earliest(a, Threshold(a) - 1) + Pause(a);
      AFullBreakerDisagrees(a, latest, now, days);
      FastestTrips(a, Threshold(a), now, days);
    } else {
      forall steps, latest, now | StatusAt(a, steps, latest, now, days)
        ensures Due(Execute(Empty(), steps, days).rows, a, now) ==> Agrees(a, steps, latest, now, days)
      {
        NeitherOpenNorReached(a, steps, latest, now, days);
      }
    }
  }

  // ------------------------------------------------- three ways to disagree

  /** If the last run was skipped by the breaker, the threshold of fires was in its window at that run. */
  ghost predicate OpenWasFull(log: seq<Row<Run>>, a: Automation)
    requires BreakerInForce(a) && CanFire(a)
  {
    var last, fires := LastRun(log, a.id), Fires(log, a);
    last.Some? && last.value.data.skipped == Some(CircuitOpen) ==>
      |fires| >= Threshold(a) && last.value.time - fires[|fires| - Threshold(a)].time <= BreakerSpan(a)
  }

  lemma {:induction false} OpenRunsWereFull(steps: seq<Step>, a: Automation)
    requires BreakerInForce(a) && CanFire(a) && FixedSettings(steps, a) && ClocksNeverBack(steps) && Punctual(steps)
    ensures OpenWasFull(Execute(Empty(), steps, 0).rows, a)
  {
    if steps != [] {
      var init, last := steps[..|steps| - 1], steps[|steps| - 1];
      OpenRunsWereFull(init, a);
      var log := Execute(Empty(), init, 0);
      if last.Evaluate? && Due(log.rows, last.automation, last.now) {
        OneMoreRun(log.rows, a, Recorded(log, last).value);
        LogsAreTimeOrdered(init, last.now);
        BreakerReadOff(log.rows, a, last.now);
      }
    }
  }

  /** Shown open, the breaker was reached at the moment of the latest run; nothing keeps it so. */
  lemma ShownOpenWasReached(a: Automation, steps: seq<Step>, latest: Option<Row<Run>>, now: int)
    requires BreakerInForce(a) && CanFire(a) && StatusAt(a, steps, latest, now, 0) && ShownOpen(a, latest)
    ensures BreakerReached(Execute(Empty(), steps, 0).rows, a, latest.value.time)
  {
    var log := Execute(Empty(), steps, 0).rows;
    LogsAreKeyed(steps, 0);
    LogsAreTimeOrdered(steps, now);
    LatestIsLast(log, a.id, latest);
    OpenRunsWereFull(steps, a);
    BreakerReadOff(log, a, latest.value.time);
  }

  lemma FastestTrips(a: Automation, n: nat, now: int, days: int)
    requires Validated(a) && BreakerInForce(a) && CanFire(a) && n == Threshold(a)
    requires Earliest(a, n - 1) + Pause(a) <= now <= BreakerSpan(a)
    ensures var log := Execute(Empty(), Fastest(a, n), days).rows; Due(log, a, now) && BreakerReached(log, a, now)
  {
    FastestFires(a, n, days);
    FullThresholdTrips(Execute(Empty(), Fastest(a, n), days).rows, a, now);
  }

  /** Right after the fire that fills the threshold the status shows closed, and the next evaluation is skipped. */
  lemma AFullBreakerShowsClosed(a: Automation, days: int) returns (latest: Option<Row<Run>>)
    requires Validated(a) && BreakerInForce(a) && CanFire(a) && LeavesRoom(a)
    ensures var log := Execute(Empty(), Fastest(a, Threshold(a)), days).rows;
            var now := Earliest(a, Threshold(a) - 1) + Pause(a);
            IsLatestRun(log, a.id, latest) && !ShownOpen(a, latest) && Due(log, a, now) && BreakerReached(log, a, now)
  {
    LogsAreKeyed(Fastest(a, Threshold(a)), days);
    latest := SomeLatestRun(Execute(Empty(), Fastest(a, Threshold(a)), days).rows, a);
    FastestShowsClosed(a, Threshold(a), latest, days);
    FastestTrips(a, Threshold(a), Earliest(a, Threshold(a) - 1) + Pause(a), days);
  }

  lemma TripEndsOpen(a: Automation)
    requires Validated(a) && BreakerInForce(a) && CanFire(a) && LeavesRoom(a)
    ensures var log := Execute(Empty(), Trip(a), 0).rows;
            && LastRun(log, a.id).Some? && LastRun(log, a.id).value.data.skipped == Some(CircuitOpen)
            && LastRun(log, a.id).value.time == Earliest(a, Threshold(a) - 1) + Pause(a)
            && |Fires(log, a)| == Threshold(a) && Fires(log, a)[0].time == 0
  {
    var n, now := Threshold(a), Earliest(a, Threshold(a) - 1) + Pause(a);
    var init, last := Fastest(a, n), Evaluate(a, now, now, true, []);
    assert Trip(a) == init + [last];
    OneMoreDecision(Empty(), init, last, 0);
    FastestFires(a, n, 0);
    var before := Execute(Empty(), init, 0);
    FullThresholdTrips(before.rows, a, now);
    FastLogIsItsFires(before.rows, a, n);
    OneMoreRun(before.rows, a, Recorded(before, last).value);
  }

  /** Once the window has rolled past a tripped breaker the status still shows open, and the next evaluation is
      not skipped by it. */
  lemma AClosedBreakerShowsOpen(a: Automation) returns (latest: Option<Row<Run>>)
    requires Validated(a) && BreakerInForce(a) && CanFire(a) && LeavesRoom(a)
    ensures var log := Execute(Empty(), Trip(a), 0).rows;
            IsLatestRun(log, a.id, latest) && ShownOpen(a, latest) && !BreakerReached(log, a, BreakerSpan(a) + 1)
  {
    var log := Execute(Empty(), Trip(a), 0).rows;
    TripEndsOpen(a);
    LogsAreKeyed(Trip(a), 0);
    TripIsInOrder(a);
    latest := SomeLatestRun(log, a);
    LatestIsLast(log, a.id, latest);
    BreakerReadOff(log, a, BreakerSpan(a) + 1);
  }

  lemma TripIsInOrder(a: Automation)
    requires Validated(a) && BreakerInForce(a) && CanFire(a)
    ensures TimeOrdered(Execute(Empty(), Trip(a), 0).rows)
  {
    TripIsOrderly(a);
    FastestIsOrderly(a, Threshold(a), Earliest(a, Threshold(a) - 1) + Pause(a));
    LogsAreTimeOrdered(Trip(a), Earliest(a, Threshold(a) - 1) + Pause(a));
  }

  lemma OneMoreIsLast(log: RunLog, a: Automation, time: int, run: Run, latest: Option<Row<Run>>)
    requires WellKeyed(log) && TimeOrdered(log.rows) && run.automation == a.id
    requires forall r :: r in log.rows ==> r.time <= time
    requires IsLatestRun(Append(log, time, run).rows, a.id, latest)
    ensures latest == Some(Row(log.next, time, run))
  {
    LatestIsLast(Append(log, time, run).rows, a.id, latest);
    OneMoreRun(log.rows, a, Row(log.next, time, run));
  }

  lemma OtherRunsDoNotTrip(log: seq<Row<Run>>, a: Automation, r: Row<Run>, now: int)
    requires r.data.fired.None?
    ensures BreakerReached(log + [r], a, now) == BreakerReached(log, a, now)
  {
    if BreakerInForce(a) {
      assert !FiredBy(a.id)(r);
      FilterAppend(FiredSince(a.id, now - a.circuitBreaker.value.windowSeconds.value * SECOND), log, r);
    }
  }

  /** A run whose conditions fail shows closed and leaves the breaker as it is, tripped or not: after every run of
      the engine, pruned or not, at every later clock. */
  lemma AFailedConditionShowsClosed(a: Automation, steps: seq<Step>, now: int, outcome: seq<string>, days: int,
                                    latest: Option<Row<Run>>, later: int)
    requires ClocksNeverBack(steps) && Punctual(steps) && AllBefore(steps, now)
    requires Due(Execute(Empty(), steps, days).rows, a, now)
    requires IsLatestRun(Execute(Empty(), steps + [Evaluate(a, now, now, false, outcome)], days).rows, a.id, latest)
    ensures !ShownOpen(a, latest)
    ensures BreakerReached(Execute(Empty(), steps + [Evaluate(a, now, now, false, outcome)], days).rows, a, later)
         == BreakerReached(Execute(Empty(), steps, days).rows, a, later)
  {
    var before, last := Execute(Empty(), steps, days), Evaluate(a, now, now, false, outcome);
    OneMoreDecision(Empty(), steps, last, days);
    LogsAreKeyed(steps, days);
    PrunedLogsAreTimeOrdered(steps, now, days);
    OneMoreIsLast(before, a, now, Recorded(before, last).value.data, latest);
    OtherRunsDoNotTrip(before.rows, a, Recorded(before, last).value, later);
  }

  lemma TripIsBefore(a: Automation, now: int)
    requires Validated(a) && BreakerInForce(a) && CanFire(a)
    requires Earliest(a, Threshold(a) - 1) + Pause(a) <= now
    ensures ClocksNeverBack(Trip(a)) && Punctual(Trip(a)) && AllBefore(Trip(a), now)
  {
    TripIsOrderly(a);
    FastestIsOrderly(a, Threshold(a), now);
  }

  lemma DueAPauseLater(log: seq<Row<Run>>, a: Automation, now: int)
    requires Validated(a) && TimeOrdered(log) && LastRun(log, a.id).Some?
    requires LastRun(log, a.id).value.time + Pause(a) <= now
    ensures Due(log, a, now)
  {
    TimeOrderedFilter(RunBy(a.id), log);
    LastIsLatest(Filter(RunBy(a.id), log));
  }

  lemma TripStaysReached(a: Automation, now: int)
    requires Validated(a) && BreakerInForce(a) && CanFire(a)
    requires now == Earliest(a, Threshold(a) - 1) + 2 * Pause(a) <= BreakerSpan(a)
    ensures var log := Execute(Empty(), Trip(a), 0).rows; BreakerReached(log, a, now) && Due(log, a, now)
  {
    TripEndsOpen(a);
    TripIsInOrder(a);
    BreakerReadOff(Execute(Empty(), Trip(a), 0).rows, a, now);
    DueAPauseLater(Execute(Empty(), Trip(a), 0).rows, a, now);
  }

  lemma ReachedShowsClosed(a: Automation, steps: seq<Step>, now: int) returns (latest: Option<Row<Run>>)
    requires ClocksNeverBack(steps) && Punctual(steps) && AllBefore(steps, now)
    requires var log := Execute(Empty(), steps, 0).rows; BreakerReached(log, a, now) && Due(log, a, now)
    ensures var log := Execute(Empty(), steps + [Evaluate(a, now, now, false, [])], 0).rows;
            IsLatestRun(log, a.id, latest) && !ShownOpen(a, latest) && BreakerReached(log, a, now)
  {
    var after := steps + [Evaluate(a, now, now, false, [])];
    LogsAreKeyed(after, 0);
    latest := SomeLatestRun(Execute(Empty(), after, 0).rows, a);
    AFailedConditionShowsClosed(a, steps, now, [], 0, latest, now);
  }

  /** So does a breaker that has just skipped an evaluation, when the next event fails the conditions. */
  lemma ATrippedBreakerShowsClosed(a: Automation, now: int) returns (latest: Option<Row<Run>>)
    requires Validated(a) && BreakerInForce(a) && CanFire(a)
    requires now == Earliest(a, Threshold(a) - 1) + 2 * Pause(a) <= BreakerSpan(a)
    ensures var log := Execute(Empty(), Trip(a) + [Evaluate(a, now, now, false, [])], 0).rows;
            IsLatestRun(log, a.id, latest) && !ShownOpen(a, latest) && BreakerReached(log, a, now)
  {
    TripStaysReached(a, now);
    TripIsBefore(a, now);
    latest := ReachedShowsClosed(a, Trip(a), now);
  }
}
