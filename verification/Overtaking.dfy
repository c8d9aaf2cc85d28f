/** Evaluations that are not serialised: the engine awaits each of its checks and its commit, and other fires of the
    same automation can be committed in between. How far its limits can then be exceeded. */
module Overtaking {
  import opened Rows
  import opened Workflow
  import opened Invisible
  import opened RunLimits
  import opened FireTimes

  /** How many runs had been committed when the due test, the breaker, the cooldown and the cap were asked. */
  datatype Reads = Reads(due: nat, breaker: nat, cooldown: nat, cap: nat)

  /** The checks of one evaluation, asked in turn at one clock, each on the log as committed by then. */
  ghost predicate PassedInTurn(log: seq<Row<Run>>, a: Automation, clock: int, m: Reads) {
    && m.due <= m.breaker <= m.cooldown <= m.cap <= |log|
    && Due(log[..m.due], a, clock) && !BreakerReached(log[..m.breaker], a, clock)
    && !Cooling(log[..m.cooldown], a, clock) && !CapReached(log[..m.cap], a, clock)
  }

  /** How many fires of the automation were committed between the two positions. */
  function OwnFires(log: seq<Row<Run>>, a: Automation, lo: nat, hi: nat): nat
    requires lo <= hi <= |log|
  {
    |Fires(log[lo..hi], a)|
  }

  /** What the fire at position j was decided on: at most `overlap` of its automation's fires were committed
      between its first check and itself. */
  ghost predicate DecidedOn(log: seq<Row<Run>>, a: Automation, j: nat, clock: int, overlap: nat, m: Reads) {
    PassedInTurn(log, a, clock, m) && m.cap <= j < |log| && OwnFires(log, a, m.due, j) <= overlap
  }

  ghost predicate DecidedBefore(log: seq<Row<Run>>, a: Automation, j: nat, clock: int, overlap: nat) {
    exists m: Reads :: DecidedOn(log, a, j, clock, overlap, m)
  }

  /** Every fire of the automation was decided at its clock with at most `overlap` fires of its own overtaking it. */
  ghost predicate Overtaken(log: seq<Row<Run>>, a: Automation, clocks: seq<int>, overlap: nat, lag: nat) {
    && |clocks| == |log|
    && forall j :: 0 <= j < |log| && FiredBy(a.id)(log[j]) ==>
         log[j].time >= clocks[j] - lag && DecidedBefore(log, a, j, clocks[j], overlap)
  }

  lemma PassedInEither(log: seq<Row<Run>>, longer: seq<Row<Run>>, a: Automation, clock: int, m: Reads)
    requires log <= longer && m.cap <= |log|
    ensures PassedInTurn(log, a, clock, m) <==> PassedInTurn(longer, a, clock, m)
  {
    if m.due <= m.breaker <= m.cooldown <= m.cap {
      assert log[..m.due] == longer[..m.due] && log[..m.breaker] == longer[..m.breaker];
      assert log[..m.cooldown] == longer[..m.cooldown] && log[..m.cap] == longer[..m.cap];
    }
  }

  lemma DecidedInEither(log: seq<Row<Run>>, longer: seq<Row<Run>>, a: Automation, j: nat, clock: int, overlap: nat)
    requires log <= longer && j < |log|
    ensures DecidedBefore(log, a, j, clock, overlap) <==> DecidedBefore(longer, a, j, clock, overlap)
  {
    forall m: Reads | m.due <= m.cap <= j
      ensures DecidedOn(log, a, j, clock, overlap, m) <==> DecidedOn(longer, a, j, clock, overlap, m)
    {
      PassedInEither(log, longer, a, clock, m);
      assert log[m.due..j] == longer[m.due..j];
    }
  }

  lemma OvertakenPrefix(log: seq<Row<Run>>, a: Automation, clocks: seq<int>, overlap: nat, lag: nat)
    requires log != [] && Overtaken(log, a, clocks, overlap, lag)
    ensures Overtaken(log[..|log| - 1], a, clocks[..|log| - 1], overlap, lag)
  {
    var init := log[..|log| - 1];
    forall j | 0 <= j < |init| && FiredBy(a.id)(init[j]) ensures DecidedBefore(init, a, j, clocks[j], overlap) {
      assert init[j] == log[j];
      DecidedInEither(init, log, a, j, clocks[j], overlap);
    }
  }

  lemma OvertakenAppend(log: seq<Row<Run>>, a: Automation, clocks: seq<int>, overlap: nat, lag: nat, r: Row<Run>,
                        clock: int, m: Reads)
    requires Overtaken(log, a, clocks, overlap, lag)
    requires FiredBy(a.id)(r) ==>
               r.time >= clock - lag && PassedInTurn(log, a, clock, m) && OwnFires(log, a, m.due, |log|) <= overlap
    ensures Overtaken(log + [r], a, clocks + [clock], overlap, lag)
  {
    var longer := log + [r];
    forall j | 0 <= j < |longer| && FiredBy(a.id)(longer[j])
      ensures longer[j].time >= (clocks + [clock])[j] - lag
              && DecidedBefore(longer, a, j, (clocks + [clock])[j], overlap)
    {
      if j < |log| {
        DecidedInEither(log, longer, a, j, clocks[j], overlap);
      } else {
        PassedInEither(log, longer, a, clock, m);
        assert longer[m.due..j] == log[m.due..j];
        assert DecidedOn(longer, a, j, clock, overlap, m);
      }
    }
  }

  // ------------------------------------------------- how far the limits give

  lemma LaterFires(log: seq<Row<Run>>, a: Automation, lo: nat, mid: nat, hi: nat)
    requires lo <= mid <= hi <= |log|
    ensures OwnFires(log, a, mid, hi) <= OwnFires(log, a, lo, hi)
  {
    assert log[lo..hi] == log[lo..mid] + log[mid..hi];
    FilterConcat(FiredBy(a.id), log[lo..mid], log[mid..hi]);
  }

  /** A window ending at the newest fire: what its check counted, what overtook it, and itself. */
  lemma NewestFireBound(log: seq<Row<Run>>, a: Automation, windowSeconds: int, most: int, clock: int, m: nat, lag: nat,
                        lo: int)
    requires m < |log| && log[|log| - 1].time >= clock - lag
    requires CountFiredInWindow(log[..m], a.id, windowSeconds, clock) < most
    requires FiredIn(a.id, lo, lo + (windowSeconds * SECOND - lag))(log[|log| - 1])
    ensures FiresBetween(log, a.id, lo, windowSeconds * SECOND - lag)
         <= Positive(most) + OwnFires(log, a, m, |log| - 1)
  {
    var p, n := FiredIn(a.id, lo, lo + (windowSeconds * SECOND - lag)), |log| - 1;
    FilterMonotone(p, FiredSince(a.id, clock - windowSeconds * SECOND), log[..m]);
    FilterMonotone(p, FiredBy(a.id), log[m..n]);
    assert log == (log[..m] + log[m..n]) + [log[n]];
    FilterAppend(p, log[..m] + log[m..n], log[n]);
    FilterConcat(p, log[..m], log[m..n]);
  }

  /** With at most `overlap` of its own fires overtaking any evaluation, a window holds at most `overlap` fires
      more than the cap, and a breaker's window at most that many more than its threshold, however many runs of
      other automations are committed meanwhile; with none it is the serialised bound. */
  lemma {:induction false} OvertakenCap(log: seq<Row<Run>>, a: Automation, clocks: seq<int>, overlap: nat, lag: nat,
                                        lo: int)
    requires CapInForce(a) && Overtaken(log, a, clocks, overlap, lag)
    ensures FiresBetween(log, a.id, lo, CapSpan(a) - lag) <= Positive(Cap(a)) + overlap
  {
    if log != [] {
      var init, last, clock := log[..|log| - 1], log[|log| - 1], clocks[|log| - 1];
      assert log == init + [last];
      if FiredIn(a.id, lo, lo + (CapSpan(a) - lag))(last) {
        var m: Reads :| DecidedOn(log, a, |log| - 1, clock, overlap, m);
        NewestFireBound(log, a, a.windowSeconds.value, Cap(a), clock, m.cap, lag, lo);
        LaterFires(log, a, m.due, m.cap, |log| - 1);
      } else {
        OvertakenPrefix(log, a, clocks, overlap, lag);
        OvertakenCap(init, a, clocks[..|log| - 1], overlap, lag, lo);
        FilterAppend(FiredIn(a.id, lo, lo + (CapSpan(a) - lag)), init, last);
      }
    }
  }

  lemma {:induction false} OvertakenBreaker(log: seq<Row<Run>>, a: Automation, clocks: seq<int>, overlap: nat,
                                            lag: nat, lo: int)
    requires BreakerInForce(a) && Overtaken(log, a, clocks, overlap, lag)
    ensures FiresBetween(log, a.id, lo, BreakerSpan(a) - lag) <= Positive(Threshold(a)) + overlap
  {
    if log != [] {
      var init, last, clock := log[..|log| - 1], log[|log| - 1], clocks[|log| - 1];
      assert log == init + [last];
      if FiredIn(a.id, lo, lo + (BreakerSpan(a) - lag))(last) {
        var m: Reads :| DecidedOn(log, a, |log| - 1, clock, overlap, m);
        NewestFireBound(log, a, a.circuitBreaker.value.windowSeconds.value, Threshold(a), clock, m.breaker, lag, lo);
        LaterFires(log, a, m.due, m.breaker, |log| - 1);
      } else {
        OvertakenPrefix(log, a, clocks, overlap, lag);
        OvertakenBreaker(init, a, clocks[..|log| - 1], overlap, lag, lo);
        FilterAppend(FiredIn(a.id, lo, lo + (BreakerSpan(a) - lag)), init, last);
      }
    }
  }

  /** The cooldown still separates a fire from every one with more than `overlap` fires committed from it on. */
  lemma OvertakenCooldown(log: seq<Row<Run>>, a: Automation, clocks: seq<int>, overlap: nat, lag: nat, i: nat, j: nat)
    requires a.cooldownSeconds.Some? && Overtaken(log, a, clocks, overlap, lag)
    requires i < j < |log| && FiredBy(a.id)(log[i]) && FiredBy(a.id)(log[j]) && OwnFires(log, a, i, j) > overlap
    ensures log[j].time - log[i].time >= a.cooldownSeconds.value * SECOND - lag
  {
    var m: Reads :| DecidedOn(log, a, j, clocks[j], overlap, m);
    if m.due <= i {
      LaterFires(log, a, m.due, i, j);
    }
    CoolingIsARecentFire(log[..m.cooldown], a, clocks[j]);
    assert log[..m.cooldown][i] == log[i] && log[i] in log[..m.cooldown];
  }

  // ------------------------------------------------- serialised runs

  /** Serialised runs are the case in which nothing overtakes. */
  lemma {:induction false} SerialisedRunsAreNotOvertaken(steps: seq<Step>, a: Automation, lag: nat)
    returns (clocks: seq<int>)
    requires FixedSettings(steps, a) && StampsLag(steps, lag)
    ensures Overtaken(Execute(Empty(), steps, 0).rows, a, clocks, 0, lag)
  {
    if steps == [] {
      clocks := [];
    } else {
      var init, last := steps[..|steps| - 1], steps[|steps| - 1];
      clocks := SerialisedRunsAreNotOvertaken(init, a, lag);
      var log := Execute(Empty(), init, 0);
      if last.Evaluate? && Due(log.rows, last.automation, last.now) {
        var n := |log.rows|;
        assert log.rows[..n] == log.rows && log.rows[n..n] == [];
        OvertakenAppend(log.rows, a, clocks, 0, lag, Recorded(log, last).value, last.now, Reads(n, n, n, n));
        clocks := clocks + [last.now];
      }
    }
  }
}
