/** What the cooldown, the sliding-window cap and the breaker guarantee over whole runs of the engine. */
module RunLimits {
  import opened Rows
  import opened Workflow
  import opened Invisible

  // ------------------------------------------------- limits over whole runs

  function FiredIn(automation: int, lo: int, hi: int): Row<Run> -> bool {
    (r: Row<Run>) => FiredBy(automation)(r) && lo <= r.time <= hi
  }

  function Positive(n: int): nat {
    if n > 0 then n else 0
  }

  function FiresBetween(log: seq<Row<Run>>, automation: int, lo: int, length: int): nat {
    |Filter(FiredIn(automation, lo, lo + length), log)|
  }

  /** At most `most` fires in any closed window of the given length. */
  ghost predicate WindowBound(log: seq<Row<Run>>, automation: int, length: int, most: int) {
    forall lo :: FiresBetween(log, automation, lo, length) <= Positive(most)
  }

  /** Any later row is at least `gap` after any earlier one. */
  ghost predicate Spaced(rows: seq<Row<Run>>, gap: int) {
    forall i, j :: 0 <= i < j < |rows| ==> rows[j].time - rows[i].time >= gap
  }

  /** The three limits at once, for stamps that lag the engine's clock by at most `lag`. */
  ghost predicate LimitsHold(log: seq<Row<Run>>, a: Automation, lag: nat) {
    && (CapInForce(a) ==>
          WindowBound(log, a.id, a.windowSeconds.value * SECOND - lag, a.maxRunsPerWindow.value))
    && (BreakerInForce(a) ==>
          WindowBound(log, a.id, a.circuitBreaker.value.windowSeconds.value * SECOND - lag,
                      a.circuitBreaker.value.failureThreshold.value))
    && (a.cooldownSeconds.Some? ==> Spaced(Filter(FiredBy(a.id), log), a.cooldownSeconds.value * SECOND - lag))
  }

  ghost predicate FixedSettings(steps: seq<Step>, a: Automation) {
    forall i :: 0 <= i < |steps| && steps[i].Evaluate? && steps[i].automation.id == a.id ==> steps[i].automation == a
  }

  ghost predicate StampsLag(steps: seq<Step>, lag: nat) {
    forall i :: 0 <= i < |steps| && steps[i].Evaluate? ==> steps[i].stamp >= steps[i].now - lag
  }

  lemma WindowBoundAppend(log: seq<Row<Run>>, a: Automation, windowSeconds: int, most: int, r: Row<Run>, now: int,
                          lag: nat)
    requires WindowBound(log, a.id, windowSeconds * SECOND - lag, most)
    requires FiredBy(a.id)(r) ==> r.time >= now - lag && CountFiredInWindow(log, a.id, windowSeconds, now) < most
    ensures WindowBound(log + [r], a.id, windowSeconds * SECOND - lag, most)
  {
    var length := windowSeconds * SECOND - lag;
    forall lo ensures FiresBetween(log + [r], a.id, lo, length) <= Positive(most) {
      assert FiresBetween(log, a.id, lo, length) <= Positive(most);
      FilterAppend(FiredIn(a.id, lo, lo + length), log, r);
      if FiredIn(a.id, lo, lo + length)(r) {
        FilterMonotone(FiredIn(a.id, lo, lo + length), FiredSince(a.id, now - windowSeconds * SECOND), log);
      }
    }
  }

  lemma SpacedAppend(log: seq<Row<Run>>, p: Row<Run> -> bool, gap: int, r: Row<Run>)
    requires Spaced(Filter(p, log), gap)
    requires p(r) ==> forall q :: q in Filter(p, log) ==> r.time - q.time >= gap
    ensures Spaced(Filter(p, log + [r]), gap)
  {
    FilterAppend(p, log, r);
    var rows := Filter(p, log);
    forall i, j | 0 <= i < j < |Filter(p, log + [r])|
      ensures Filter(p, log + [r])[j].time - Filter(p, log + [r])[i].time >= gap
    {
      assert rows[i] in rows;
    }
  }

  lemma FireKeepsLimits(log: seq<Row<Run>>, a: Automation, now: int, r: Row<Run>, lag: nat)
    requires LimitsHold(log, a, lag)
    requires FiredBy(a.id)(r) ==> r.time >= now - lag && Decide(log, a, now).None?
    ensures LimitsHold(log + [r], a, lag)
  {
    if CapInForce(a) {
      WindowBoundAppend(log, a, a.windowSeconds.value, a.maxRunsPerWindow.value, r, now, lag);
    }
    if BreakerInForce(a) {
      var breaker := a.circuitBreaker.value;
      WindowBoundAppend(log, a, breaker.windowSeconds.value, breaker.failureThreshold.value, r, now, lag);
    }
    if a.cooldownSeconds.Some? {
      FilterMember(FiredBy(a.id), log);
      SpacedAppend(log, FiredBy(a.id), a.cooldownSeconds.value * SECOND - lag, r);
    }
  }

  lemma {:induction false} UnprunedLimits(steps: seq<Step>, a: Automation, lag: nat)
    requires FixedSettings(steps, a) && StampsLag(steps, lag)
    ensures LimitsHold(Execute(Empty(), steps, 0).rows, a, lag)
  {
    if steps != [] {
      var init, last := steps[..|steps| - 1], steps[|steps| - 1];
      UnprunedLimits(init, a, lag);
      var log := Execute(Empty(), init, 0);
      if last.Evaluate? && Due(log.rows, last.automation, last.now) {
        FireKeepsLimits(log.rows, a, last.now, Recorded(log, last).value, lag);
      }
    }
  }

  lemma FireWindowsReadOwn(automation: int, lo: int, hi: int)
    ensures ReadsOwn(FiredIn(automation, lo, hi), automation)
  {
    forall r: Row<Run>
      ensures FiredIn(automation, lo, hi)(r) ==> r.data.automation == automation
      ensures FiredIn(automation, lo, hi)(Unnumbered()(r)) == FiredIn(automation, lo, hi)(r)
    {
      assert FiredIn(automation, lo, hi)(r) == (FiredBy(automation)(r) && lo <= r.time <= hi);
    }
  }

  lemma OwnWindow(log: seq<Row<Run>>, automation: int, lo: int, length: int)
    ensures FiresBetween(Own(log, automation), automation, lo, length) == FiresBetween(log, automation, lo, length)
  {
    FireWindowsReadOwn(automation, lo, lo + length);
    OwnSelection(log, automation, FiredIn(automation, lo, lo + length));
  }

  lemma WindowBoundIsOwn(log: seq<Row<Run>>, other: seq<Row<Run>>, automation: int, length: int, most: int)
    requires WindowBound(log, automation, length, most) && Own(log, automation) == Own(other, automation)
    ensures WindowBound(other, automation, length, most)
  {
    forall lo ensures FiresBetween(other, automation, lo, length) <= Positive(most) {
      OwnWindow(log, automation, lo, length);
      OwnWindow(other, automation, lo, length);
      assert FiresBetween(log, automation, lo, length) <= Positive(most);
    }
  }

  lemma SpacingIsOwn(log: seq<Row<Run>>, other: seq<Row<Run>>, automation: int, p: Row<Run> -> bool, gap: int)
    requires Spaced(Filter(p, log), gap) && Own(log, automation) == Own(other, automation) && ReadsOwn(p, automation)
    ensures Spaced(Filter(p, other), gap)
  {
    OwnSelection(log, automation, p);
    OwnSelection(other, automation, p);
    var f, g := Filter(p, log), Filter(p, other);
    assert Apply(Unnumbered(), f) == Apply(Unnumbered(), g);
    assert |f| == |g|;
    forall i | 0 <= i < |g| ensures g[i].time == f[i].time {
      assert Apply(Unnumbered(), f)[i] == Apply(Unnumbered(), g)[i];
    }
  }

  /** The limits are statements about the automation's own runs. */
  lemma LimitsAreOwn(log: seq<Row<Run>>, other: seq<Row<Run>>, a: Automation, lag: nat)
    requires LimitsHold(log, a, lag) && Own(log, a.id) == Own(other, a.id)
    ensures LimitsHold(other, a, lag)
  {
    if CapInForce(a) {
      WindowBoundIsOwn(log, other, a.id, a.windowSeconds.value * SECOND - lag, a.maxRunsPerWindow.value);
    }
    if BreakerInForce(a) {
      var breaker := a.circuitBreaker.value;
      WindowBoundIsOwn(log, other, a.id, breaker.windowSeconds.value * SECOND - lag, breaker.failureThreshold.value);
    }
    if a.cooldownSeconds.Some? {
      SpacingIsOwn(log, other, a.id, FiredBy(a.id), a.cooldownSeconds.value * SECOND - lag);
    }
  }

  /** Over every run from an empty log, pruned or not, whatever else the engine evaluates and however far
      back the other automations look: no closed window holds more fires than the cap or the breaker
      allows, and fires keep the cooldown apart. With lag 0 the windows are exactly window_seconds long. */
  lemma LimitsHoldOverEveryRun(steps: seq<Step>, a: Automation, days: int, lag: nat)
    requires FixedSettings(steps, a) && StampsLag(steps, lag) && Causal(steps) && Retains(a, days)
    ensures LimitsHold(History(Decisions(Empty(), steps, days)), a, lag)
  {
    PruningIsInvisibleTo(Empty(), steps, a.id, days);
    UnprunedLogIsHistory(steps);
    UnprunedLimits(steps, a, lag);
    LimitsAreOwn(History(Decisions(Empty(), steps, 0)), History(Decisions(Empty(), steps, days)), a, lag);
  }

  // ------------------------------------------------- the limits, read off the settings and the rows

  lemma FiredInFields(rows: seq<Row<Run>>, automation: int, lo: int, length: int)
    ensures FiresBetween(rows, automation, lo, length)
         == |Filter((r: Row<Run>) => r.data.automation == automation && r.data.fired.Some?
                      && lo <= r.time <= lo + length, rows)|
  {
    var fired := (r: Row<Run>) => r.data.automation == automation && r.data.fired.Some? && lo <= r.time <= lo + length;
    forall r | r in rows ensures FiredIn(automation, lo, lo + length)(r) == fired(r) {
      assert FiredBy(automation)(r) == (r.data.automation == automation && r.data.fired.Some?);
    }
    FilterAgree(FiredIn(automation, lo, lo + length), fired, rows);
  }

  /** max_runs_per_window n and window_seconds w are kept: in every closed window of w seconds, less the lag, the
      automation has at most n runs with actions, whatever its trigger. */
  lemma CapIsKept(steps: seq<Step>, a: Automation, days: int, lag: nat, n: int, w: int, lo: int)
    requires FixedSettings(steps, a) && StampsLag(steps, lag) && Causal(steps) && Retains(a, days)
    requires a.maxRunsPerWindow == Some(n) && a.windowSeconds == Some(w)
    ensures |Filter((r: Row<Run>) => r.data.automation == a.id && r.data.fired.Some?
                      && lo <= r.time <= lo + (w * 1_000_000 - lag), History(Decisions(Empty(), steps, days)))|
            <= if n > 0 then n else 0
  {
    var history := History(Decisions(Empty(), steps, days));
    LimitsHoldOverEveryRun(steps, a, days, lag);
    assert FiresBetween(history, a.id, lo, w * SECOND - lag) <= Positive(n);
    FiredInFields(history, a.id, lo, w * 1_000_000 - lag);
  }

  /** failure_threshold k and the breaker's window_seconds w are kept likewise, where neither is 0. */
  lemma BreakerIsKept(steps: seq<Step>, a: Automation, days: int, lag: nat, k: int, w: int, lo: int)
    requires FixedSettings(steps, a) && StampsLag(steps, lag) && Causal(steps) && Retains(a, days)
    requires a.circuitBreaker == Some(Breaker(Some(k), Some(w))) && k != 0 && w != 0
    ensures |Filter((r: Row<Run>) => r.data.automation == a.id && r.data.fired.Some?
                      && lo <= r.time <= lo + (w * 1_000_000 - lag), History(Decisions(Empty(), steps, days)))|
            <= if k > 0 then k else 0
  {
    var history := History(Decisions(Empty(), steps, days));
    LimitsHoldOverEveryRun(steps, a, days, lag);
    assert FiresBetween(history, a.id, lo, w * SECOND - lag) <= Positive(k);
    FiredInFields(history, a.id, lo, w * 1_000_000 - lag);
  }

  /** Where a selected row stands among the selected. */
  lemma PlaceAmongSelected(rows: seq<Row<Run>>, p: Row<Run> -> bool, i: nat)
    requires i < |rows| && p(rows[i])
    ensures var k := |Filter(p, rows[..i])|; k < |Filter(p, rows)| && Filter(p, rows)[k] == rows[i]
  {
    assert rows == (rows[..i] + [rows[i]]) + rows[i + 1..];
    FilterConcat(p, rows[..i] + [rows[i]], rows[i + 1..]);
    FilterAppend(p, rows[..i], rows[i]);
  }

  lemma SpacedInRows(rows: seq<Row<Run>>, p: Row<Run> -> bool, gap: int, i: nat, j: nat)
    requires Spaced(Filter(p, rows), gap) && i < j < |rows| && p(rows[i]) && p(rows[j])
    ensures rows[j].time - rows[i].time >= gap
  {
    PlaceAmongSelected(rows, p, i);
    PlaceAmongSelected(rows, p, j);
    PlaceAmongSelected(rows[..j], p, i);
    assert rows[..j][..i] == rows[..i];
  }

  /** cooldown_seconds c is kept: two runs with actions are that far apart, less the lag. */
  lemma CooldownIsKept(steps: seq<Step>, a: Automation, days: int, lag: nat, c: int, i: nat, j: nat)
    requires FixedSettings(steps, a) && StampsLag(steps, lag) && Causal(steps) && Retains(a, days)
    requires a.cooldownSeconds == Some(c)
    requires var history := History(Decisions(Empty(), steps, days));
             && i < j < |history|
             && history[i].data.automation == a.id && history[i].data.fired.Some?
             && history[j].data.automation == a.id && history[j].data.fired.Some?
    ensures var history := History(Decisions(Empty(), steps, days));
            history[j].time - history[i].time >= c * 1_000_000 - lag
  {
    LimitsHoldOverEveryRun(steps, a, days, lag);
    SpacedInRows(History(Decisions(Empty(), steps, days)), FiredBy(a.id), c * SECOND - lag, i, j);
  }

  // ------------------------------------------------- the dead breaker

  ghost predicate ClocksNeverBack(steps: seq<Step>) {
    forall i, j :: 0 <= i < j < |steps| && steps[i].Evaluate? && steps[j].Evaluate? ==> steps[i].now <= steps[j].now
  }

  predicate CapShadowsBreaker(a: Automation) {
    && CapInForce(a) && BreakerInForce(a)
    && a.maxRunsPerWindow.value > 0
    && a.maxRunsPerWindow.value < a.circuitBreaker.value.failureThreshold.value
    && a.circuitBreaker.value.windowSeconds.value <= a.windowSeconds.value
  }

  /** From any clock not before the last evaluation, the cap's window holds at most the cap. */
  ghost predicate CapNeverExceeded(log: seq<Row<Run>>, a: Automation, clock: int)
    requires CapInForce(a)
  {
    forall since :: since >= clock - a.windowSeconds.value * SECOND ==>
      |Filter(FiredSince(a.id, since), log)| <= a.maxRunsPerWindow.value
  }

  lemma StepKeepsCap(log: RunLog, a: Automation, step: Step, days: int, clock: int)
    requires CapInForce(a) && a.maxRunsPerWindow.value > 0
    requires CapNeverExceeded(log.rows, a, if step.Evaluate? then step.now else clock)
    requires step.Evaluate? ==> step.now <= clock && (step.automation.id == a.id ==> step.automation == a)
    ensures CapNeverExceeded(Take(log, step, days).rows, a, clock)
  {
    forall since | since >= clock - a.windowSeconds.value * SECOND
      ensures |Filter(FiredSince(a.id, since), Take(log, step, days).rows)| <= a.maxRunsPerWindow.value
    {
      match step
      case Prune(moment) =>
        FilterCommutes(FiredSince(a.id, since), From(moment - days * DAY), log.rows);
        FilterMember(From<Run>(moment - days * DAY), Filter(FiredSince(a.id, since), log.rows));
      case Evaluate(b, now, stamp, passed, outcome) =>
        if Due(log.rows, b, now) {
          var r := Recorded(log, step).value;
          FilterAppend(FiredSince(a.id, since), log.rows, r);
          if FiredBy(a.id)(r) {
            FilterMonotone(FiredSince(a.id, since), FiredSince(a.id, now - a.windowSeconds.value * SECOND), log.rows);
          }
        }
    }
  }

  lemma {:induction false} CapBoundsEveryLaterCount(steps: seq<Step>, a: Automation, days: int, clock: int)
    requires CapInForce(a) && a.maxRunsPerWindow.value > 0 && FixedSettings(steps, a) && ClocksNeverBack(steps)
    requires forall i :: 0 <= i < |steps| && steps[i].Evaluate? ==> steps[i].now <= clock
    ensures CapNeverExceeded(Execute(Empty(), steps, days).rows, a, clock)
  {
    if steps != [] {
      var init, last := steps[..|steps| - 1], steps[|steps| - 1];
      CapBoundsEveryLaterCount(init, a, days, if last.Evaluate? then last.now else clock);
      StepKeepsCap(Execute(Empty(), init, days), a, last, days, clock);
    }
  }

  /** A breaker whose threshold is above the cap, over a window no longer than the cap's, never
      opens: no run of the engine, with any pruning, records a circuit_open skip. */
  lemma {:induction false} DeadBreaker(steps: seq<Step>, a: Automation, days: int)
    requires CapShadowsBreaker(a) && FixedSettings(steps, a) && ClocksNeverBack(steps)
    ensures forall r :: r in History(Decisions(Empty(), steps, days)) && r.data.automation == a.id ==>
              r.data.skipped != Some(CircuitOpen)
  {
    if steps != [] {
      var init, last := steps[..|steps| - 1], steps[|steps| - 1];
      DeadBreaker(init, a, days);
      var ds := Decisions(Empty(), steps, days);
      assert ds[..|ds| - 1] == Decisions(Empty(), init, days);
      if last.Evaluate? && last.automation.id == a.id {
        CapBoundsEveryLaterCount(init, a, days, last.now);
        assert CheckCircuitBreaker(Execute(Empty(), init, days).rows, a, last.now).None?;
      }
    }
  }

  /** The worked example of the documentation: cap 2 an hour, breaker 3 in five minutes. */
  function RetryPayments(id: int): Automation {
    Automation(id, true, OnEvent("task-failed"), None, Some(2), Some(3600), Some(Breaker(Some(3), Some(300))))
  }

  /** Its breaker can never trip, so it never pauses anything. */
  lemma WorkedExampleBreakerNeverTrips(steps: seq<Step>, id: int, days: int)
    requires FixedSettings(steps, RetryPayments(id)) && ClocksNeverBack(steps)
    ensures forall r :: r in History(Decisions(Empty(), steps, days)) && r.data.automation == id ==>
              r.data.skipped != Some(CircuitOpen)
  {
    DeadBreaker(steps, RetryPayments(id), days);
  }
}
