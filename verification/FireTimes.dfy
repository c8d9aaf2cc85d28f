/** How soon an automation can fire again and again: the earliest times its cooldown, schedule, cap and
    breaker allow together, a bound for every run and a run that reaches it. */
module FireTimes {
  import opened Rows
  import opened Workflow
  import opened RunLimits

  /** What creating or updating an automation accepts, event types aside. It does not look into the breaker. */
  predicate Validated(a: Automation) {
    && (a.cooldownSeconds.Some? ==> a.cooldownSeconds.value >= 0)
    && (a.maxRunsPerWindow.Some? ==> a.maxRunsPerWindow.value > 0 && a.windowSeconds.Some? && a.windowSeconds.value > 0)
    && (a.trigger.Periodic? ==> a.trigger.scheduleSeconds.Some? && a.trigger.scheduleSeconds.value > 0)
  }

  function Cap(a: Automation): int
    requires CapInForce(a)
  {
    a.maxRunsPerWindow.value
  }

  function CapSpan(a: Automation): int
    requires CapInForce(a)
  {
    a.windowSeconds.value * SECOND
  }

  function Threshold(a: Automation): int
    requires BreakerInForce(a)
  {
    a.circuitBreaker.value.failureThreshold.value
  }

  function BreakerSpan(a: Automation): int
    requires BreakerInForce(a)
  {
    a.circuitBreaker.value.windowSeconds.value * SECOND
  }

  /** A breaker with a negative threshold is open before anything has fired. */
  predicate CanFire(a: Automation) {
    BreakerInForce(a) ==> Threshold(a) > 0
  }

  /** How long a periodic automation waits after a run before it is asked again. */
  function Pause(a: Automation): nat
    requires Validated(a)
  {
    if a.trigger.Periodic? then a.trigger.scheduleSeconds.value * SECOND else 0
  }

  function Later(x: int, y: int): int {
    if x >= y then x else y
  }

  /** The least distance between two fires. */
  function Gap(a: Automation): nat
    requires Validated(a)
  {
    if a.cooldownSeconds.Some? then Later(a.cooldownSeconds.value * SECOND, Pause(a)) else Pause(a)
  }

  /** The n-th fire, the first being at 0, if only the cap were not asked for it. */
  function NextWithoutCap(a: Automation, n: nat): int
    requires Validated(a) && CanFire(a) && n >= 1
    decreases n, 0
  {
    var next := Earliest(a, n - 1) + Gap(a);
    if BreakerInForce(a) && n >= Threshold(a)
    then Later(next, Earliest(a, n - Threshold(a)) + BreakerSpan(a) + 1) else next
  }

  /** The earliest time of the n-th fire, the first being at 0. */
  function Earliest(a: Automation, n: nat): int
    requires Validated(a) && CanFire(a)
    decreases n, 1
  {
    if n == 0 then 0
    else
      var next := NextWithoutCap(a, n);
      if CapInForce(a) && n >= Cap(a) then Later(next, Earliest(a, n - Cap(a)) + CapSpan(a) + 1) else next
  }

  lemma {:induction false} EarliestGrows(a: Automation, i: nat, j: nat)
    requires Validated(a) && CanFire(a) && i <= j
    ensures Earliest(a, j) - Earliest(a, i) >= (j - i) * Gap(a)
    decreases j
  {
    if i < j {
      EarliestGrows(a, i, j - 1);
      assert (j - i) * Gap(a) == (j - 1 - i) * Gap(a) + Gap(a);
    }
  }

  // ------------------------------------------------- reading a log in time order

  ghost predicate TimeOrdered(rows: seq<Row<Run>>) {
    forall i, j :: 0 <= i < j < |rows| ==> rows[i].time <= rows[j].time
  }

  function Fires(log: seq<Row<Run>>, a: Automation): seq<Row<Run>> {
    Filter(FiredBy(a.id), log)
  }

  lemma {:induction false} TimeOrderedFilter(p: Row<Run> -> bool, rows: seq<Row<Run>>)
    requires TimeOrdered(rows)
    ensures TimeOrdered(Filter(p, rows))
  {
    if rows != [] {
      TimeOrderedFilter(p, rows[1..]);
      FilterMember(p, rows[1..]);
    }
  }

  lemma LastIsLatest(rows: seq<Row<Run>>)
    requires TimeOrdered(rows) && rows != []
    ensures LastTime(rows) == Some(rows[|rows| - 1].time)
  {
    assert rows[|rows| - 1] in rows;
    var r :| r in rows && r.time == LastTime(rows).value;
  }

  lemma CountInOrder(rows: seq<Row<Run>>, p: Row<Run> -> bool, since: int, k: nat)
    requires TimeOrdered(rows) && k >= 1 && forall r :: r in rows ==> p(r) == (r.time >= since)
    ensures |Filter(p, rows)| >= k <==> |rows| >= k && rows[|rows| - k].time >= since
  {
    FilterMember(p, rows);
    if |rows| >= k {
      if rows[|rows| - k].time >= since {
        var rest := rows[|rows| - k..];
        assert rows == rows[..|rows| - k] + rest;
        FilterConcat(p, rows[..|rows| - k], rest);
        FilterAll(p, rest);
      } else {
        FilterSkips(p, rows, |rows| - k + 1);
      }
    }
  }

  lemma FiresSince(log: seq<Row<Run>>, a: Automation, since: int)
    ensures forall r :: r in Fires(log, a) ==> FiredSince(a.id, since)(r) == (r.time >= since)
  {
    FilterMember(FiredBy(a.id), log);
    forall r | r in Fires(log, a) ensures FiredSince(a.id, since)(r) == (r.time >= since) {
      assert FiredBy(a.id)(r);
    }
  }

  /** A window reaches k fires exactly when the k-th last one is in it. */
  lemma CountReaches(log: seq<Row<Run>>, a: Automation, windowSeconds: int, now: int, k: nat)
    requires TimeOrdered(log) && k >= 1
    ensures CountFiredInWindow(log, a.id, windowSeconds, now) >= k <==>
            var fires := Fires(log, a); |fires| >= k && now - fires[|fires| - k].time <= windowSeconds * SECOND
  {
    var since := now - windowSeconds * SECOND;
    FilterWithin(FiredSince(a.id, since), FiredBy(a.id), log);
    TimeOrderedFilter(FiredBy(a.id), log);
    FiresSince(log, a, since);
    CountInOrder(Fires(log, a), FiredSince(a.id, since), since, k);
  }

  /** The three limits, read off the list of fires. */
  lemma BreakerReadOff(log: seq<Row<Run>>, a: Automation, now: int)
    requires CanFire(a) && TimeOrdered(log)
    ensures var fires := Fires(log, a);
            BreakerReached(log, a, now) <==>
              BreakerInForce(a) && |fires| >= Threshold(a) && now - fires[|fires| - Threshold(a)].time <= BreakerSpan(a)
  {
    if BreakerInForce(a) {
      CountReaches(log, a, a.circuitBreaker.value.windowSeconds.value, now, Threshold(a));
    }
  }

  lemma CapReadOff(log: seq<Row<Run>>, a: Automation, now: int)
    requires Validated(a) && TimeOrdered(log)
    ensures var fires := Fires(log, a);
            CapReached(log, a, now) <==>
              CapInForce(a) && |fires| >= Cap(a) && now - fires[|fires| - Cap(a)].time <= CapSpan(a)
  {
    if CapInForce(a) {
      CountReaches(log, a, a.windowSeconds.value, now, Cap(a));
    }
  }

  lemma CooldownReadOff(log: seq<Row<Run>>, a: Automation, now: int)
    requires TimeOrdered(log)
    ensures var fires := Fires(log, a);
            Cooling(log, a, now) <==>
              && a.cooldownSeconds.Some? && fires != []
              && now - fires[|fires| - 1].time < a.cooldownSeconds.value * SECOND
  {
    TimeOrderedFilter(FiredBy(a.id), log);
    if Fires(log, a) != [] {
      LastIsLatest(Fires(log, a));
    }
  }

  // ------------------------------------------------- no run fires sooner

  ghost predicate Punctual(steps: seq<Step>) {
    forall i :: 0 <= i < |steps| && steps[i].Evaluate? ==> steps[i].stamp == steps[i].now
  }

  lemma {:induction false} LogsAreTimeOrdered(steps: seq<Step>, clock: int)
    requires ClocksNeverBack(steps) && Punctual(steps)
    requires forall i :: 0 <= i < |steps| && steps[i].Evaluate? ==> steps[i].now <= clock
    ensures TimeOrdered(Execute(Empty(), steps, 0).rows)
    ensures forall r :: r in Execute(Empty(), steps, 0).rows ==> r.time <= clock
  {
    if steps != [] {
      var init, last := steps[..|steps| - 1], steps[|steps| - 1];
      LogsAreTimeOrdered(init, if last.Evaluate? then last.now else clock);
    }
  }

  /** Fires k apart in the list are at least `span` apart in time. */
  ghost predicate Apart(fires: seq<Row<Run>>, k: nat, span: int) {
    forall i, j :: 0 <= i && j == i + k && j < |fires| ==> fires[j].time - fires[i].time >= span
  }

  ghost predicate KeepsDistances(fires: seq<Row<Run>>, a: Automation)
    requires Validated(a) && CanFire(a)
  {
    && Apart(fires, 1, Gap(a))
    && (CapInForce(a) ==> Apart(fires, Cap(a), CapSpan(a) + 1))
    && (BreakerInForce(a) ==> Apart(fires, Threshold(a), BreakerSpan(a) + 1))
  }

  lemma DueIsAPauseLater(log: seq<Row<Run>>, a: Automation, now: int)
    requires Validated(a) && Due(log, a, now)
    ensures a.trigger.Periodic? ==> forall r :: r in Fires(log, a) ==> now - r.time >= Pause(a)
  {
    FilterMember(FiredBy(a.id), log);
    FilterMember(RunBy(a.id), log);
  }

  lemma ApartAppend(fires: seq<Row<Run>>, r: Row<Run>, k: nat, span: int)
    requires Apart(fires, k, span) && k >= 1
    requires |fires| >= k ==> r.time - fires[|fires| - k].time >= span
    ensures Apart(fires + [r], k, span)
  {
  }

  lemma GapHasPassed(log: seq<Row<Run>>, a: Automation, now: int)
    requires Validated(a) && TimeOrdered(log) && Due(log, a, now) && !Cooling(log, a, now)
    requires forall q :: q in log ==> q.time <= now
    ensures var fires := Fires(log, a); fires != [] ==> now - fires[|fires| - 1].time >= Gap(a)
  {
    DueIsAPauseLater(log, a, now);
    CooldownReadOff(log, a, now);
    FilterMember(FiredBy(a.id), log);
    var fires := Fires(log, a);
    if fires != [] {
      assert fires[|fires| - 1] in fires;
    }
  }

  lemma CapHasPassed(log: seq<Row<Run>>, a: Automation, r: Row<Run>)
    requires Validated(a) && TimeOrdered(log) && CapInForce(a) && !CapReached(log, a, r.time)
    requires Apart(Fires(log, a), Cap(a), CapSpan(a) + 1)
    ensures Apart(Fires(log, a) + [r], Cap(a), CapSpan(a) + 1)
  {
    CapReadOff(log, a, r.time);
    ApartAppend(Fires(log, a), r, Cap(a), CapSpan(a) + 1);
  }

  lemma BreakerHasPassed(log: seq<Row<Run>>, a: Automation, r: Row<Run>)
    requires CanFire(a) && TimeOrdered(log) && BreakerInForce(a) && !BreakerReached(log, a, r.time)
    requires Apart(Fires(log, a), Threshold(a), BreakerSpan(a) + 1)
    ensures Apart(Fires(log, a) + [r], Threshold(a), BreakerSpan(a) + 1)
  {
    BreakerReadOff(log, a, r.time);
    ApartAppend(Fires(log, a), r, Threshold(a), BreakerSpan(a) + 1);
  }

  lemma NextFireKeepsDistances(log: seq<Row<Run>>, a: Automation, r: Row<Run>)
    requires Validated(a) && CanFire(a) && TimeOrdered(log) && KeepsDistances(Fires(log, a), a)
    requires Due(log, a, r.time) && Decide(log, a, r.time).None? && forall q :: q in log ==> q.time <= r.time
    ensures KeepsDistances(Fires(log, a) + [r], a)
  {
    GapHasPassed(log, a, r.time);
    ApartAppend(Fires(log, a), r, 1, Gap(a));
    if CapInForce(a) {
      CapHasPassed(log, a, r);
    }
    if BreakerInForce(a) {
      BreakerHasPassed(log, a, r);
    }
  }

  lemma {:induction false} FiresKeepDistances(steps: seq<Step>, a: Automation)
    requires Validated(a) && CanFire(a) && FixedSettings(steps, a) && ClocksNeverBack(steps) && Punctual(steps)
    ensures KeepsDistances(Fires(Execute(Empty(), steps, 0).rows, a), a)
  {
    if steps != [] {
      var init, last := steps[..|steps| - 1], steps[|steps| - 1];
      FiresKeepDistances(init, a);
      var log := Execute(Empty(), init, 0);
      if last.Evaluate? && Due(log.rows, last.automation, last.now) {
        var r := Recorded(log, last).value;
        LogsAreTimeOrdered(init, last.now);
        FilterAppend(FiredBy(a.id), log.rows, r);
        if FiredBy(a.id)(r) {
          NextFireKeepsDistances(log.rows, a, r);
        }
      }
    }
  }

  /** Fires that keep the distances come no sooner than the limits allow together. */
  lemma {:induction false} DistancesAddUp(fires: seq<Row<Run>>, a: Automation, i: nat, n: nat)
    requires Validated(a) && CanFire(a) && KeepsDistances(fires, a) && i + n < |fires|
    ensures fires[i + n].time - fires[i].time >= Earliest(a, n)
    decreases n
  {
    if n > 0 {
      DistancesAddUp(fires, a, i, n - 1);
      if BreakerInForce(a) && n >= Threshold(a) {
        DistancesAddUp(fires, a, i, n - Threshold(a));
      }
      if CapInForce(a) && n >= Cap(a) {
        DistancesAddUp(fires, a, i, n - Cap(a));
      }
    }
  }

  /** No run fires n more times sooner than the limits allow. */
  lemma NoRunIsFaster(steps: seq<Step>, a: Automation, i: nat, n: nat)
    requires Validated(a) && CanFire(a) && FixedSettings(steps, a) && ClocksNeverBack(steps) && Punctual(steps)
    requires i + n < |Fires(Execute(Empty(), steps, 0).rows, a)|
    ensures var fires := Fires(Execute(Empty(), steps, 0).rows, a);
            fires[i + n].time - fires[i].time >= Earliest(a, n)
  {
    FiresKeepDistances(steps, a);
    DistancesAddUp(Fires(Execute(Empty(), steps, 0).rows, a), a, i, n);
  }

  // ------------------------------------------------- a run that is as fast

  /** Ask at each of the earliest times. */
  function Fastest(a: Automation, n: nat): seq<Step>
    requires Validated(a) && CanFire(a)
  {
    seq(n, i requires 0 <= i < n => Evaluate(a, Earliest(a, i), Earliest(a, i), true, []))
  }

  ghost predicate FiredAtEarliest(log: seq<Row<Run>>, a: Automation, n: nat)
    requires Validated(a) && CanFire(a)
  {
    && |log| == n
    && forall i {:trigger log[i]} :: 0 <= i < n ==> FiredBy(a.id)(log[i]) && log[i].time == Earliest(a, i)
  }

  lemma EarliestInOrder(a: Automation, i: nat, j: nat)
    requires Validated(a) && CanFire(a) && i <= j
    ensures Earliest(a, i) <= Earliest(a, j)
  {
    EarliestGrows(a, i, j);
    assert (j - i) * Gap(a) >= 0;
  }

  lemma FastLogInOrder(log: seq<Row<Run>>, a: Automation, n: nat)
    requires Validated(a) && CanFire(a) && FiredAtEarliest(log, a, n)
    ensures TimeOrdered(log)
  {
    forall i, j | 0 <= i < j < |log| ensures log[i].time <= log[j].time {
      EarliestInOrder(a, i, j);
    }
  }

  lemma AllFired(log: seq<Row<Run>>, a: Automation)
    requires forall i {:trigger log[i]} :: 0 <= i < |log| ==> FiredBy(a.id)(log[i])
    ensures Fires(log, a) == log && Filter(RunBy(a.id), log) == log
  {
    forall r | r in log ensures FiredBy(a.id)(r) && RunBy(a.id)(r) {
      var i :| 0 <= i < |log| && log[i] == r;
    }
    FilterAll(FiredBy(a.id), log);
    FilterAll(RunBy(a.id), log);
  }

  lemma FastLogIsItsFires(log: seq<Row<Run>>, a: Automation, n: nat)
    requires Validated(a) && CanFire(a) && FiredAtEarliest(log, a, n)
    ensures TimeOrdered(log) && Fires(log, a) == log && Filter(RunBy(a.id), log) == log
  {
    FastLogInOrder(log, a, n);
    AllFired(log, a);
  }

  lemma DueAfterTheGap(log: seq<Row<Run>>, a: Automation, now: int)
    requires Validated(a) && TimeOrdered(log) && Fires(log, a) == log && Filter(RunBy(a.id), log) == log
    requires log != [] ==> now >= log[|log| - 1].time + Gap(a)
    ensures Due(log, a, now) && !Cooling(log, a, now)
  {
    if log != [] {
      LastIsLatest(log);
    }
  }

  lemma FastLogIsDue(log: seq<Row<Run>>, a: Automation, n: nat, now: int)
    requires Validated(a) && CanFire(a) && FiredAtEarliest(log, a, n)
    requires n >= 1 ==> now >= Earliest(a, n - 1) + Gap(a)
    ensures Due(log, a, now) && !Cooling(log, a, now)
  {
    FastLogIsItsFires(log, a, n);
    DueAfterTheGap(log, a, now);
  }

  lemma ClosedPastTheThreshold(log: seq<Row<Run>>, a: Automation, now: int)
    requires CanFire(a) && TimeOrdered(log) && Fires(log, a) == log
    requires BreakerInForce(a) && |log| >= Threshold(a) ==> now > log[|log| - Threshold(a)].time + BreakerSpan(a)
    ensures !BreakerReached(log, a, now)
  {
    BreakerReadOff(log, a, now);
  }

  lemma FastLogIsClosed(log: seq<Row<Run>>, a: Automation, n: nat, now: int)
    requires Validated(a) && CanFire(a) && FiredAtEarliest(log, a, n)
    requires BreakerInForce(a) && n >= Threshold(a) ==> now >= Earliest(a, n - Threshold(a)) + BreakerSpan(a) + 1
    ensures !BreakerReached(log, a, now)
  {
    FastLogIsItsFires(log, a, n);
    ClosedPastTheThreshold(log, a, now);
  }

  lemma FastLogFillsCap(log: seq<Row<Run>>, a: Automation, n: nat, now: int)
    requires Validated(a) && CanFire(a) && FiredAtEarliest(log, a, n)
    ensures CapReached(log, a, now) <==> CapInForce(a) && n >= Cap(a) && now - Earliest(a, n - Cap(a)) <= CapSpan(a)
  {
    FastLogIsItsFires(log, a, n);
    CapReadOff(log, a, now);
  }

  /** After n earliest fires the automation may fire at any time its limits but the cap allow, if the cap does too. */
  lemma FastLogAllows(log: seq<Row<Run>>, a: Automation, n: nat, now: int)
    requires Validated(a) && CanFire(a) && FiredAtEarliest(log, a, n)
    requires n >= 1 ==> now >= NextWithoutCap(a, n)
    ensures Due(log, a, now)
    ensures Decide(log, a, now) == if CapReached(log, a, now) then Some(RateLimited) else None
  {
    FastLogIsDue(log, a, n, now);
    FastLogIsClosed(log, a, n, now);
  }

  lemma OneFireMore(log: RunLog, a: Automation, n: nat, days: int)
    requires Validated(a) && CanFire(a) && FiredAtEarliest(log.rows, a, n)
    ensures var now := Earliest(a, n);
            Take(log, Evaluate(a, now, now, true, []), days)
              == Append(log, now, Run(a.id, TriggerName(a), true, Some([]), None))
  {
    FastLogAllows(log.rows, a, n, Earliest(a, n));
    FastLogFillsCap(log.rows, a, n, Earliest(a, n));
  }

  lemma {:induction false} FastestFires(a: Automation, n: nat, days: int)
    requires Validated(a) && CanFire(a)
    ensures FiredAtEarliest(Execute(Empty(), Fastest(a, n), days).rows, a, n)
  {
    if n > 0 {
      FastestFires(a, n - 1, days);
      OneFireMore(Execute(Empty(), Fastest(a, n - 1), days), a, n - 1, days);
      assert Fastest(a, n)[..n - 1] == Fastest(a, n - 1);
    }
  }

  lemma FastestIsOrderly(a: Automation, n: nat, now: int)
    requires Validated(a) && CanFire(a) && n >= 1 && now >= Earliest(a, n - 1)
    ensures var steps := Fastest(a, n);
            && FixedSettings(steps, a) && Punctual(steps) && ClocksNeverBack(steps)
            && forall i :: 0 <= i < n ==> steps[i].Evaluate? && steps[i].now <= now
  {
    forall i, j | 0 <= i <= j < n ensures Earliest(a, i) <= Earliest(a, j) {
      EarliestInOrder(a, i, j);
    }
  }
}
