/** Periodic automations: how far apart their runs are, and how late one can be. */
module Schedules {
  import opened Rows
  import opened Workflow
  import opened Invisible
  import opened RunLimits

  lemma {:induction false} UnprunedSpacing(steps: seq<Step>, a: Automation, lag: nat)
    requires a.trigger.Periodic? && Truthy(a.trigger.scheduleSeconds)
    requires FixedSettings(steps, a) && StampsLag(steps, lag)
    ensures Spaced(Filter(RunBy(a.id), Execute(Empty(), steps, 0).rows),
                   a.trigger.scheduleSeconds.value * SECOND - lag)
  {
    if steps != [] {
      var init, last := steps[..|steps| - 1], steps[|steps| - 1];
      UnprunedSpacing(init, a, lag);
      var log := Execute(Empty(), init, 0);
      if last.Evaluate? && Due(log.rows, last.automation, last.now) {
        SpacedAppend(log.rows, RunBy(a.id), a.trigger.scheduleSeconds.value * SECOND - lag, Recorded(log, last).value);
      }
    }
  }

  lemma {:induction false} SpacedSpan(rows: seq<Row<Run>>, gap: int, i: nat, j: nat)
    requires Spaced(rows, gap) && i <= j < |rows|
    ensures rows[j].time - rows[i].time >= (j - i) * gap
    decreases j - i
  {
    if i < j {
      SpacedSpan(rows, gap, i, j - 1);
      assert (j - i) * gap == (j - 1 - i) * gap + gap;
    }
  }

  /** Every run of the automation ever recorded, pruned since or not. */
  function RunsOf(a: Automation, steps: seq<Step>, days: int): seq<Row<Run>> {
    Filter(RunBy(a.id), History(Decisions(Empty(), steps, days)))
  }

  lemma RunsAreSpaced(steps: seq<Step>, a: Automation, days: int, lag: nat)
    requires a.trigger.Periodic? && Truthy(a.trigger.scheduleSeconds)
    requires FixedSettings(steps, a) && StampsLag(steps, lag) && Causal(steps) && Retains(a, days)
    ensures Spaced(RunsOf(a, steps, days), a.trigger.scheduleSeconds.value * SECOND - lag)
  {
    PruningIsInvisibleTo(Empty(), steps, a.id, days);
    UnprunedLogIsHistory(steps);
    UnprunedSpacing(steps, a, lag);
    SpacingIsOwn(History(Decisions(Empty(), steps, 0)), History(Decisions(Empty(), steps, days)), a.id,
                 RunBy(a.id), a.trigger.scheduleSeconds.value * SECOND - lag);
  }

  /** Over every run, pruned or not, the n-th run of a periodic automation comes at least
      (n - m) schedules after its m-th. */
  lemma RunsKeepTheSchedule(steps: seq<Step>, a: Automation, days: int, lag: nat, m: nat, n: nat)
    requires a.trigger.Periodic? && Truthy(a.trigger.scheduleSeconds)
    requires FixedSettings(steps, a) && StampsLag(steps, lag) && Causal(steps) && Retains(a, days)
    requires m <= n < |RunsOf(a, steps, days)|
    ensures var runs, schedule := RunsOf(a, steps, days), a.trigger.scheduleSeconds.value * SECOND;
            runs[n].time - runs[m].time >= (n - m) * (schedule - lag)
  {
    RunsAreSpaced(steps, a, days, lag);
    SpacedSpan(RunsOf(a, steps, days), a.trigger.scheduleSeconds.value * SECOND - lag, m, n);
  }

  /** Every tick of the automation comes at most `period` after `start` or after an earlier tick. */
  ghost predicate TicksWithin(steps: seq<Step>, a: Automation, start: int, period: int) {
    forall j :: 0 <= j < |steps| && IsTick(steps[j], a) ==>
      || steps[j].now <= start + period
      || exists i :: 0 <= i < j && IsTick(steps[i], a) && steps[j].now <= steps[i].now + period
  }

  lemma {:induction false} NothingBeforeTheSchedule(log: RunLog, steps: seq<Step>, a: Automation, lastRun: int)
    requires a.trigger.Periodic? && Truthy(a.trigger.scheduleSeconds) && FixedSettings(steps, a)
    requires LastRunTime(log.rows, a.id) == Some(lastRun)
    requires forall i :: 0 <= i < |steps| && IsTick(steps[i], a) ==>
               steps[i].now < lastRun + a.trigger.scheduleSeconds.value * SECOND
    ensures LastRunTime(Execute(log, steps, 0).rows, a.id) == Some(lastRun)
    ensures forall i :: 0 <= i < |steps| && IsTick(steps[i], a) ==> Decisions(log, steps, 0)[i].None?
  {
    if steps != [] {
      var init, last := steps[..|steps| - 1], steps[|steps| - 1];
      NothingBeforeTheSchedule(log, init, a, lastRun);
      assert IsTick(last, a) ==> Recorded(Execute(log, init, 0), last).None?;
      var before := Execute(log, init, 0);
      if last.Evaluate? && Recorded(before, last).Some? {
        FilterAppend(RunBy(a.id), before.rows, Recorded(before, last).value);
      }
    }
  }

  /** The first tick at or after the due moment. */
  lemma {:induction false} FirstDueTick(steps: seq<Step>, a: Automation, due: int) returns (j: nat)
    requires exists i :: 0 <= i < |steps| && IsTick(steps[i], a) && steps[i].now >= due
    ensures j < |steps| && IsTick(steps[j], a) && steps[j].now >= due
    ensures forall i :: 0 <= i < j && IsTick(steps[i], a) ==> steps[i].now < due
  {
    var last := |steps| - 1;
    if exists i :: 0 <= i < last && IsTick(steps[i], a) && steps[i].now >= due {
      var i :| 0 <= i < last && IsTick(steps[i], a) && steps[i].now >= due;
      assert IsTick(steps[..last][i], a);
      j := FirstDueTick(steps[..last], a, due);
      forall k | 0 <= k < j && IsTick(steps[k], a) ensures steps[k].now < due {
        assert IsTick(steps[..last][k], a);
      }
    } else {
      j := last;
    }
  }

  lemma NothingBeforeTheTick(log: RunLog, steps: seq<Step>, a: Automation, lastRun: int, j: nat)
    requires a.trigger.Periodic? && Truthy(a.trigger.scheduleSeconds) && FixedSettings(steps, a)
    requires LastRunTime(log.rows, a.id) == Some(lastRun)
    requires j < |steps| && IsTick(steps[j], a) && steps[j].now >= lastRun + a.trigger.scheduleSeconds.value * SECOND
    requires forall i :: 0 <= i < j && IsTick(steps[i], a) ==>
             steps[i].now < lastRun + a.trigger.scheduleSeconds.value * SECOND
    ensures Decisions(log, steps, 0)[j].Some?
    ensures forall i :: 0 <= i < j && IsTick(steps[i], a) ==> Decisions(log, steps, 0)[i].None?
  {
    NothingBeforeTheSchedule(log, steps[..j], a, lastRun);
    DecisionAt(log, steps, 0, j);
    forall i | 0 <= i < j && IsTick(steps[i], a) ensures Decisions(log, steps, 0)[i].None? {
      assert IsTick(steps[..j][i], a);
      assert Decisions(log, steps, 0)[..j][i].None?;
    }
  }

  /** When the automation is asked at most `period` apart and is asked at all once its schedule has
      passed, its next run is recorded in less than schedule_seconds + period, and not before it is due. */
  lemma NextRunIsPrompt(log: RunLog, steps: seq<Step>, a: Automation, lastRun: int, period: int, days: int)
    returns (j: nat)
    requires a.trigger.Periodic? && a.trigger.scheduleSeconds.Some? && a.trigger.scheduleSeconds.value > 0
    requires FixedSettings(steps, a) && Causal(steps) && Retains(a, days)
    requires LastRunTime(log.rows, a.id) == Some(lastRun)
    requires TicksWithin(steps, a, lastRun, period)
    requires exists i :: 0 <= i < |steps| && IsTick(steps[i], a) &&
               steps[i].now >= lastRun + a.trigger.scheduleSeconds.value * SECOND
    ensures j < |steps|
    ensures IsTick(steps[j], a) && Decisions(log, steps, days)[j].Some?
    ensures var due := lastRun + a.trigger.scheduleSeconds.value * SECOND; due <= steps[j].now < due + period
    ensures forall i :: 0 <= i < j && IsTick(steps[i], a) ==> Decisions(log, steps, days)[i].None?
  {
    var due := lastRun + a.trigger.scheduleSeconds.value * SECOND;
    PruningIsInvisibleTo(log, steps, a.id, days);
    j := FirstDueTick(steps, a, due);
    NothingBeforeTheTick(log, steps, a, lastRun, j);
  }
}
