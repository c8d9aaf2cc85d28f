/** The automation engine's decisions and their run log (src/taskowl/workflow.py). */
module Workflow {
  import opened Rows
  import opened Retention
  import opened Events
  import opened Orphans

  datatype Skip = CircuitOpen | Cooldown | RateLimited

  datatype Breaker = Breaker(failureThreshold: Option<int>, windowSeconds: Option<int>)

  datatype Trigger = OnEvent(eventType: string) | Periodic(scheduleSeconds: Option<int>)

  datatype Automation = Automation(
    id: int,
    enabled: bool,
    trigger: Trigger,
    cooldownSeconds: Option<int>,
    maxRunsPerWindow: Option<int>,
    windowSeconds: Option<int>,
    circuitBreaker: Option<Breaker>)

  /** An entry of the automation_runs log; `fired` is None when no action was dispatched. */
  datatype Run = Run(
    automation: int,
    trigger: string,
    conditionsPassed: bool,
    fired: Option<seq<string>>,
    skipped: Option<Skip>)

  type RunLog = Snapshot<Run>

  function RunBy(automation: int): Row<Run> -> bool {
    (r: Row<Run>) => r.data.automation == automation
  }

  function FiredBy(automation: int): Row<Run> -> bool {
    (r: Row<Run>) => r.data.automation == automation && r.data.fired.Some?
  }

  function FiredSince(automation: int, since: int): Row<Run> -> bool {
    (r: Row<Run>) => FiredBy(automation)(r) && r.time >= since
  }

  function CountFiredInWindow(log: seq<Row<Run>>, automation: int, windowSeconds: int, now: int): nat {
    |Filter(FiredSince(automation, now - windowSeconds * SECOND), log)|
  }

  /** ORDER BY created_at DESC LIMIT 1: the largest time, if there is a row. */
  function LastTime<T>(rows: seq<Row<T>>): (t: Option<int>)
    ensures t.None? <==> rows == []
    ensures forall r :: r in rows ==> t.Some? && r.time <= t.value
    ensures t.Some? ==> exists r :: r in rows && r.time == t.value
  {
    if rows == [] then None
    else
      var rest := LastTime(rows[1..]);
      assert forall r :: r in rows ==> r == rows[0] || r in rows[1..];
      if rest.Some? && rest.value >= rows[0].time then
        assert exists r :: r in rows[1..] && r.time == rest.value;
        rest
      else
        assert rows[0] in rows;
        Some(rows[0].time)
  }

  function LastFireTime(log: seq<Row<Run>>, automation: int): Option<int> {
    LastTime(Filter(FiredBy(automation), log))
  }

  function LastRunTime(log: seq<Row<Run>>, automation: int): Option<int> {
    LastTime(Filter(RunBy(automation), log))
  }

  /** Python truth of an optional integer setting. */
  predicate Truthy(setting: Option<int>) {
    setting.Some? && setting.value != 0
  }

  predicate BreakerInForce(a: Automation) {
    && a.circuitBreaker.Some?
    && Truthy(a.circuitBreaker.value.failureThreshold)
    && Truthy(a.circuitBreaker.value.windowSeconds)
  }

  predicate CapInForce(a: Automation) {
    a.maxRunsPerWindow.Some? && a.windowSeconds.Some?
  }

  predicate BreakerReached(log: seq<Row<Run>>, a: Automation, now: int) {
    && BreakerInForce(a)
    && CountFiredInWindow(log, a.id, a.circuitBreaker.value.windowSeconds.value, now)
       >= a.circuitBreaker.value.failureThreshold.value
  }

  predicate Cooling(log: seq<Row<Run>>, a: Automation, now: int) {
    var lastFire := LastFireTime(log, a.id);
    a.cooldownSeconds.Some? && lastFire.Some? && now - lastFire.value < a.cooldownSeconds.value * SECOND
  }

  predicate CapReached(log: seq<Row<Run>>, a: Automation, now: int) {
    CapInForce(a) && CountFiredInWindow(log, a.id, a.windowSeconds.value, now) >= a.maxRunsPerWindow.value
  }

  function CheckCircuitBreaker(log: seq<Row<Run>>, a: Automation, now: int): Option<Skip> {
    if BreakerReached(log, a, now) then Some(CircuitOpen) else None
  }

  function CheckRateLimits(log: seq<Row<Run>>, a: Automation, now: int): Option<Skip> {
    if Cooling(log, a, now) then Some(Cooldown)
    else if CapReached(log, a, now) then Some(RateLimited)
    else None
  }

  /** The breaker is asked first; the rate limits only when it is closed. */
  function Decide(log: seq<Row<Run>>, a: Automation, now: int): Option<Skip> {
    var open := CheckCircuitBreaker(log, a, now);
    if open.Some? then open else CheckRateLimits(log, a, now)
  }

  /** Whether an evaluation happens at all: event automations always, periodic ones on schedule. */
  predicate Due(log: seq<Row<Run>>, a: Automation, now: int) {
    match a.trigger
    case OnEvent(_) => true
    case Periodic(schedule) =>
      && Truthy(schedule)
      && var lastRun := LastRunTime(log, a.id);
         !(lastRun.Some? && now - lastRun.value < schedule.value * SECOND)
  }

  function TriggerName(a: Automation): string {
    match a.trigger
    case OnEvent(eventType) => eventType
    case Periodic(_) => "periodic"
  }

  /** The run an evaluation records, given whether its conditions hold and what its actions report. */
  function Evaluation(log: seq<Row<Run>>, a: Automation, now: int, passed: bool, outcome: seq<string>): Run {
    var skipped := if passed then Decide(log, a, now) else None;
    var fired := if passed && skipped.None? then Some(outcome) else None;
    Run(a.id, TriggerName(a), passed, fired, skipped)
  }

  /** What a run says of the evaluation that recorded it, read off the settings and the log: the breaker if it is set
      and its window holds the threshold of fires, else the cooldown if a fire is recent, else the cap if it is set
      and its window is full, and otherwise what the actions report; nothing at all if the conditions failed. */
  ghost predicate RunSays(log: seq<Row<Run>>, a: Automation, now: int, passed: bool, outcome: seq<string>, run: Run) {
    var open :=
      && a.circuitBreaker.Some?
      && a.circuitBreaker.value.failureThreshold.Some? && a.circuitBreaker.value.failureThreshold.value != 0
      && a.circuitBreaker.value.windowSeconds.Some? && a.circuitBreaker.value.windowSeconds.value != 0
      && |Filter((r: Row<Run>) => r.data.automation == a.id && r.data.fired.Some?
                   && r.time >= now - a.circuitBreaker.value.windowSeconds.value * 1_000_000, log)|
           >= a.circuitBreaker.value.failureThreshold.value;
    var recent :=
      && a.cooldownSeconds.Some?
      && exists r | r in log && r.data.automation == a.id && r.data.fired.Some? ::
           now - r.time < a.cooldownSeconds.value * 1_000_000;
    var full :=
      && a.maxRunsPerWindow.Some? && a.windowSeconds.Some?
      && |Filter((r: Row<Run>) => r.data.automation == a.id && r.data.fired.Some?
                   && r.time >= now - a.windowSeconds.value * 1_000_000, log)| >= a.maxRunsPerWindow.value;
    && run.automation == a.id && run.conditionsPassed == passed
    && run.trigger == (if a.trigger.OnEvent? then a.trigger.eventType else "periodic")
    && (run.skipped == Some(CircuitOpen) <==> passed && open)
    && (run.skipped == Some(Cooldown) <==> passed && !open && recent)
    && (run.skipped == Some(RateLimited) <==> passed && !open && !recent && full)
    && run.fired == if passed && run.skipped.None? then Some(outcome) else None
  }

  lemma FiresInFields(log: seq<Row<Run>>, automation: int, since: int)
    ensures Filter(FiredSince(automation, since), log)
         == Filter((r: Row<Run>) => r.data.automation == automation && r.data.fired.Some? && r.time >= since, log)
  {
    var fired := (r: Row<Run>) => r.data.automation == automation && r.data.fired.Some? && r.time >= since;
    forall r | r in log ensures FiredSince(automation, since)(r) == fired(r) {
      assert FiredBy(automation)(r) == (r.data.automation == automation && r.data.fired.Some?);
    }
    FilterAgree(FiredSince(automation, since), fired, log);
  }

  lemma BreakerInFields(log: seq<Row<Run>>, a: Automation, now: int)
    ensures BreakerReached(log, a, now) <==>
              && a.circuitBreaker.Some?
              && a.circuitBreaker.value.failureThreshold.Some? && a.circuitBreaker.value.failureThreshold.value != 0
              && a.circuitBreaker.value.windowSeconds.Some? && a.circuitBreaker.value.windowSeconds.value != 0
              && |Filter((r: Row<Run>) => r.data.automation == a.id && r.data.fired.Some?
                   && r.time >= now - a.circuitBreaker.value.windowSeconds.value * 1_000_000, log)|
                   >= a.circuitBreaker.value.failureThreshold.value
  {
    if BreakerInForce(a) {
      FiresInFields(log, a.id, now - a.circuitBreaker.value.windowSeconds.value * 1_000_000);
    }
  }

  lemma CapInFields(log: seq<Row<Run>>, a: Automation, now: int)
    ensures CapReached(log, a, now) <==>
              && a.maxRunsPerWindow.Some? && a.windowSeconds.Some?
              && |Filter((r: Row<Run>) => r.data.automation == a.id && r.data.fired.Some?
                   && r.time >= now - a.windowSeconds.value * 1_000_000, log)| >= a.maxRunsPerWindow.value
  {
    if CapInForce(a) {
      FiresInFields(log, a.id, now - a.windowSeconds.value * 1_000_000);
    }
  }

  lemma CooldownInFields(log: seq<Row<Run>>, a: Automation, now: int)
    ensures Cooling(log, a, now) <==>
              && a.cooldownSeconds.Some?
              && exists r | r in log && r.data.automation == a.id && r.data.fired.Some? ::
                   now - r.time < a.cooldownSeconds.value * 1_000_000
  {
    var fires, last := Filter(FiredBy(a.id), log), LastFireTime(log, a.id);
    FilterMember(FiredBy(a.id), log);
    if last.Some? {
      var r :| r in fires && r.time == last.value;
      assert r in log && FiredBy(a.id)(r);
    }
    forall r | r in log && r.data.automation == a.id && r.data.fired.Some? ensures r in fires {
      assert FiredBy(a.id)(r);
    }
  }

  lemma EvaluationSays(log: seq<Row<Run>>, a: Automation, now: int, passed: bool, outcome: seq<string>)
    ensures RunSays(log, a, now, passed, outcome, Evaluation(log, a, now, passed, outcome))
  {
    BreakerInFields(log, a, now);
    CooldownInFields(log, a, now);
    CapInFields(log, a, now);
  }

  /** The due test, read off the settings and the log. */
  lemma DueInFields(log: seq<Row<Run>>, a: Automation, now: int)
    ensures Due(log, a, now) <==>
              a.trigger.Periodic? ==>
                && a.trigger.scheduleSeconds.Some? && a.trigger.scheduleSeconds.value != 0
                && forall r :: r in log && r.data.automation == a.id ==>
                     now - r.time >= a.trigger.scheduleSeconds.value * 1_000_000
  {
    var runs, last := Filter(RunBy(a.id), log), LastRunTime(log, a.id);
    FilterMember(RunBy(a.id), log);
    if last.Some? {
      var r :| r in runs && r.time == last.value;
      assert r in log && RunBy(a.id)(r);
    }
    forall r | r in log && r.data.automation == a.id ensures r in runs {
      assert RunBy(a.id)(r);
    }
  }

  /** The atomic steps that touch the run log. `stamp` is the row's created_at, which
      the database sets and which may differ from the clock the engine read. */
  datatype Step =
    | Evaluate(automation: Automation, now: int, stamp: int, passed: bool, outcome: seq<string>)
    | Prune(moment: int)

  predicate IsTick(step: Step, a: Automation) {
    step.Evaluate? && step.automation == a
  }

  /** The run a step records, if it records one. */
  function Recorded(log: RunLog, step: Step): Option<Row<Run>> {
    match step
    case Prune(_) => None
    case Evaluate(a, now, stamp, passed, outcome) =>
      if Due(log.rows, a, now)
      then Some(Row(log.next, stamp, Evaluation(log.rows, a, now, passed, outcome)))
      else None
  }

  function Take(log: RunLog, step: Step, days: int): RunLog {
    match step
    case Prune(moment) => log.(rows := Pruned(log.rows, moment, days))
    case Evaluate(_, _, _, _, _) =>
      var run := Recorded(log, step);
      if run.Some? then Append(log, run.value.time, run.value.data) else log
  }

  function Execute(log: RunLog, steps: seq<Step>, days: int): RunLog {
    if steps == [] then log
    else Take(Execute(log, steps[..|steps| - 1], days), steps[|steps| - 1], days)
  }

  /** What every step of a run decided, one entry a step. */
  function Decisions(log: RunLog, steps: seq<Step>, days: int): (decisions: seq<Option<Row<Run>>>)
    ensures |decisions| == |steps|
  {
    if steps == [] then []
    else
      var init, last := steps[..|steps| - 1], steps[|steps| - 1];
      Decisions(log, init, days) + [Recorded(Execute(log, init, days), last)]
  }

  /** Every run ever recorded, pruned since or not. */
  function History(decisions: seq<Option<Row<Run>>>): seq<Row<Run>> {
    if decisions == [] then []
    else
      var init, last := decisions[..|decisions| - 1], decisions[|decisions| - 1];
      if last.Some? then History(init) + [last.value] else History(init)
  }

  lemma {:induction false} ExecuteConcat(log: RunLog, first: seq<Step>, second: seq<Step>, days: int)
    ensures Execute(log, first + second, days) == Execute(Execute(log, first, days), second, days)
  {
    if second == [] {
      assert first + second == first;
    } else {
      var init := second[..|second| - 1];
      ExecuteConcat(log, first, init, days);
      assert (first + second)[..|first + second| - 1] == first + init;
    }
  }

  lemma {:induction false} DecisionAt(log: RunLog, steps: seq<Step>, days: int, j: nat)
    requires j < |steps|
    ensures Decisions(log, steps, days)[j] == Recorded(Execute(log, steps[..j], days), steps[j])
    ensures Decisions(log, steps, days)[..j] == Decisions(log, steps[..j], days)
  {
    var init := steps[..|steps| - 1];
    if j < |steps| - 1 {
      DecisionAt(log, init, days, j);
      assert init[..j] == steps[..j];
    } else if j > 0 {
      DecisionAt(log, init, days, j - 1);
    }
  }

  /** Without retention the log is its own history. */
  lemma {:induction false} UnprunedLogIsHistory(steps: seq<Step>)
    ensures Execute(Empty(), steps, 0).rows == History(Decisions(Empty(), steps, 0))
  {
    if steps != [] {
      var init := steps[..|steps| - 1];
      UnprunedLogIsHistory(init);
      var ds := Decisions(Empty(), steps, 0);
      assert ds[..|ds| - 1] == Decisions(Empty(), init, 0);
    }
  }

  // ---------------------------------------------------------------- the engine

  function ListensTo(eventType: string): Automation -> bool {
    (a: Automation) => a.enabled && a.trigger == OnEvent(eventType)
  }

  function RunsOnSchedule(): Automation -> bool {
    (a: Automation) => a.enabled && a.trigger.Periodic?
  }

  /** What one evaluation reads from outside: its clock, the database's stamp, which
      automations' conditions hold, and what their actions would report. */
  datatype Occasion = Occasion(now: int, stamp: int, passing: set<int>, outcomes: map<int, seq<string>>)

  function OutcomeOf(o: Occasion, a: Automation): seq<string> {
    if a.id in o.outcomes then o.outcomes[a.id] else []
  }

  function StepOn(o: Occasion): Automation -> Step {
    (a: Automation) => Evaluate(a, o.now, o.stamp, a.id in o.passing, OutcomeOf(o, a))
  }

  /** The steps one evaluation is made of: the selected automations, in turn, at one clock. */
  function EvaluationSteps(automations: seq<Automation>, wanted: Automation -> bool, o: Occasion): seq<Step> {
    Apply(StepOn(o), Filter(wanted, automations))
  }

  lemma OneMoreEvaluation(log: RunLog, steps: seq<Step>, i: nat, o: Occasion, a: Automation)
    requires i < |steps| && steps[i] == StepOn(o)(a)
    ensures var before := Execute(log, steps[..i], 0);
            Execute(log, steps[..i + 1], 0) ==
              if Due(before.rows, a, o.now)
              then Append(before, o.stamp, Evaluation(before.rows, a, o.now, a.id in o.passing, OutcomeOf(o, a)))
              else before
  {
    assert steps[..i + 1][..i] == steps[..i];
  }

  // ------------------------------------------------- what a pass records

  /** One run for each of the automations, in turn, stamped by the database and decided on what was there before. */
  ghost predicate RecordsEach(before: seq<Row<Run>>, after: seq<Row<Run>>, evaluated: seq<Automation>, o: Occasion) {
    && |after| == |before| + |evaluated| && after[..|before|] == before
    && forall i, a :: 0 <= i < |evaluated| && a == evaluated[i] ==>
         && after[|before| + i].time == o.stamp
         && RunSays(after[..|before| + i], a, o.now, a.id in o.passing,
                    if a.id in o.outcomes then o.outcomes[a.id] else [], after[|before| + i].data)
  }

  lemma OneMoreRecorded(before: seq<Row<Run>>, after: seq<Row<Run>>, evaluated: seq<Automation>, o: Occasion,
                        a: Automation, r: Row<Run>)
    requires RecordsEach(before, after, evaluated, o) && r.time == o.stamp
    requires r.data == Evaluation(after, a, o.now, a.id in o.passing, OutcomeOf(o, a))
    ensures RecordsEach(before, after + [r], evaluated + [a], o)
  {
    EvaluationSays(after, a, o.now, a.id in o.passing, OutcomeOf(o, a));
    forall i, b | 0 <= i < |evaluated + [a]| && b == (evaluated + [a])[i]
      ensures (after + [r])[|before| + i].time == o.stamp
              && RunSays((after + [r])[..|before| + i], b, o.now, b.id in o.passing,
                         if b.id in o.outcomes then o.outcomes[b.id] else [], (after + [r])[|before| + i].data)
    {
      if i < |evaluated| {
        assert (after + [r])[..|before| + i] == after[..|before| + i];
        assert b == evaluated[i];
      } else {
        assert (after + [r])[..|before| + i] == after;
      }
    }
  }

  /** Those of the first n automations that are due in their turn. */
  function Taken(log: RunLog, automations: seq<Automation>, o: Occasion, n: nat): seq<Automation>
    requires n <= |automations|
  {
    if n == 0 then []
    else
      var before := Execute(log, Apply(StepOn(o), automations)[..n - 1], 0);
      Taken(log, automations, o, n - 1)
        + if Due(before.rows, automations[n - 1], o.now) then [automations[n - 1]] else []
  }

  lemma {:induction false} PassRecordsEach(log: RunLog, automations: seq<Automation>, o: Occasion, n: nat)
    requires n <= |automations|
    ensures RecordsEach(log.rows, Execute(log, Apply(StepOn(o), automations)[..n], 0).rows,
                        Taken(log, automations, o, n), o)
  {
    if n == 0 {
      assert log.rows[..|log.rows|] == log.rows;
    } else {
      PassRecordsEach(log, automations, o, n - 1);
      var steps, a := Apply(StepOn(o), automations), automations[n - 1];
      var before := Execute(log, steps[..n - 1], 0);
      OneMoreEvaluation(log, steps, n - 1, o, a);
      if Due(before.rows, a, o.now) {
        var run := Evaluation(before.rows, a, o.now, a.id in o.passing, OutcomeOf(o, a));
        OneMoreRecorded(log.rows, before.rows, Taken(log, automations, o, n - 1), o, a, Row(before.next, o.stamp, run));
      }
    }
  }

  lemma {:induction false} EventsTakeAll(log: RunLog, automations: seq<Automation>, o: Occasion, n: nat)
    requires n <= |automations| && forall a :: a in automations ==> a.trigger.OnEvent?
    ensures Taken(log, automations, o, n) == automations[..n]
  {
    if n > 0 {
      EventsTakeAll(log, automations, o, n - 1);
      assert automations[n - 1] in automations;
    }
  }

  lemma {:induction false} OwnRunsUntouched(log: RunLog, automations: seq<Automation>, o: Occasion, n: nat, id: int)
    requires n <= |automations| && forall i :: 0 <= i < n ==> automations[i].id != id
    ensures Filter(RunBy(id), Execute(log, Apply(StepOn(o), automations)[..n], 0).rows) == Filter(RunBy(id), log.rows)
  {
    if n > 0 {
      OwnRunsUntouched(log, automations, o, n - 1, id);
      var steps, a := Apply(StepOn(o), automations), automations[n - 1];
      var before := Execute(log, steps[..n - 1], 0);
      OneMoreEvaluation(log, steps, n - 1, o, a);
      if Due(before.rows, a, o.now) {
        FilterAppend(RunBy(id), before.rows,
                     Row(before.next, o.stamp, Evaluation(before.rows, a, o.now, a.id in o.passing, OutcomeOf(o, a))));
      }
    }
  }

  function DueAt(log: seq<Row<Run>>, now: int): Automation -> bool {
    (a: Automation) => Due(log, a, now)
  }

  lemma SameRunsSameDue(log: seq<Row<Run>>, other: seq<Row<Run>>, a: Automation, now: int)
    requires Filter(RunBy(a.id), log) == Filter(RunBy(a.id), other)
    ensures Due(log, a, now) == Due(other, a, now)
  {
  }

  /** With distinct ids, those due in their turn are those due at the start. */
  lemma {:induction false} TakenAreDue(log: RunLog, automations: seq<Automation>, o: Occasion, n: nat)
    requires n <= |automations| && forall i, j :: 0 <= i < j < |automations| ==> automations[i].id != automations[j].id
    ensures Taken(log, automations, o, n) == Filter(DueAt(log.rows, o.now), automations[..n])
  {
    if n > 0 {
      TakenAreDue(log, automations, o, n - 1);
      var a, before := automations[n - 1], Execute(log, Apply(StepOn(o), automations)[..n - 1], 0);
      OwnRunsUntouched(log, automations, o, n - 1, a.id);
      SameRunsSameDue(before.rows, log.rows, a, o.now);
      assert automations[..n] == automations[..n - 1] + [a];
      FilterAppend(DueAt(log.rows, o.now), automations[..n - 1], a);
    }
  }

  /** Which automations an event is evaluated for. */
  lemma EventSelects(automations: seq<Automation>, eventType: string, log: RunLog, o: Occasion)
    ensures RecordsEach(log.rows, Execute(log, EvaluationSteps(automations, ListensTo(eventType), o), 0).rows,
                        Filter((a: Automation) => a.enabled && a.trigger == OnEvent(eventType), automations), o)
  {
    var selected := Filter(ListensTo(eventType), automations);
    FilterMember(ListensTo(eventType), automations);
    FilterAgree(ListensTo(eventType), (a: Automation) => a.enabled && a.trigger == OnEvent(eventType), automations);
    EventsTakeAll(log, selected, o, |selected|);
    PassRecordsEach(log, selected, o, |selected|);
    assert selected[..|selected|] == selected;
    assert Apply(StepOn(o), selected)[..|selected|] == EvaluationSteps(automations, ListensTo(eventType), o);
  }

  /** Which automations a tick is evaluated for: enabled, periodic, with a schedule, and without a run of their own
      in less than the schedule. */
  lemma TickSelects(automations: seq<Automation>, log: RunLog, o: Occasion)
    requires forall i, j :: 0 <= i < j < |automations| ==> automations[i].id != automations[j].id
    ensures var rows := log.rows;
            RecordsEach(rows, Execute(log, EvaluationSteps(automations, RunsOnSchedule(), o), 0).rows,
                        Filter((a: Automation) =>
                                 && a.enabled && a.trigger.Periodic?
                                 && a.trigger.scheduleSeconds.Some? && a.trigger.scheduleSeconds.value != 0
                                 && forall r :: r in rows && r.data.automation == a.id ==>
                                      o.now - r.time >= a.trigger.scheduleSeconds.value * 1_000_000, automations), o)
  {
    var rows, selected := log.rows, Filter(RunsOnSchedule(), automations);
    var wanted := (a: Automation) =>
      && a.enabled && a.trigger.Periodic?
      && a.trigger.scheduleSeconds.Some? && a.trigger.scheduleSeconds.value != 0
      && forall r :: r in rows && r.data.automation == a.id ==>
           o.now - r.time >= a.trigger.scheduleSeconds.value * 1_000_000;
    FilterKeepsIdsApart(RunsOnSchedule(), automations);
    forall a | a in automations ensures wanted(a) <==> RunsOnSchedule()(a) && DueAt(rows, o.now)(a) {
      DueInFields(rows, a, o.now);
    }
    FilterOfFilter(wanted, DueAt(rows, o.now), RunsOnSchedule(), automations);
    TakenAreDue(log, selected, o, |selected|);
    PassRecordsEach(log, selected, o, |selected|);
    assert selected[..|selected|] == selected;
    assert Apply(StepOn(o), selected)[..|selected|] == EvaluationSteps(automations, RunsOnSchedule(), o);
  }

  lemma {:induction false} FilterOfFilter<T>(both: T -> bool, q: T -> bool, p: T -> bool, s: seq<T>)
    requires forall x :: x in s ==> (both(x) <==> p(x) && q(x))
    ensures Filter(both, s) == Filter(q, Filter(p, s))
  {
    if s != [] {
      assert s[0] in s;
      FilterOfFilter(both, q, p, s[1..]);
    }
  }

  lemma {:induction false} FilterKeepsIdsApart(p: Automation -> bool, automations: seq<Automation>)
    requires forall i, j :: 0 <= i < j < |automations| ==> automations[i].id != automations[j].id
    ensures var kept := Filter(p, automations); forall i, j :: 0 <= i < j < |kept| ==> kept[i].id != kept[j].id
  {
    if automations != [] {
      var rest := automations[1..];
      forall i, j | 0 <= i < j < |rest| ensures rest[i].id != rest[j].id {
        assert rest[i] == automations[i + 1] && rest[j] == automations[j + 1];
      }
      FilterKeepsIdsApart(p, rest);
      FilterMember(p, rest);
      forall a | a in rest ensures a.id != automations[0].id {
        var i :| 0 <= i < |rest| && rest[i] == a;
        assert automations[i + 1] == a;
      }
    }
  }

  /** What an offline check reads: whether a webhook is configured, its clock and timeout, the distinct
      hosts, and the rows the per-host queries return. A host whose rows were pruned between the two
      queries has none. */
  datatype Sweep = Sweep(hasUrl: bool, now: int, timeoutSeconds: int, hosts: seq<string>,
                         latest: map<string, Row<WorkerEvent>>)

  function Answer(sweep: Sweep, host: string): Option<Row<WorkerEvent>> {
    if host in sweep.latest then Some(sweep.latest[host]) else None
  }

  /** _worker_stale */
  predicate Stale(sweep: Sweep, host: string) {
    Offline(Answer(sweep, host), sweep.now, sweep.timeoutSeconds)
  }

  /** The alerts of the first n hosts: stale, not notified before, and not alerted earlier in the sweep. */
  function NewlyStale(notified: set<string>, sweep: Sweep, n: nat): seq<string>
    requires n <= |sweep.hosts|
  {
    if n == 0 then []
    else
      var before, host := NewlyStale(notified, sweep, n - 1), sweep.hosts[n - 1];
      if host !in notified && host !in before && Stale(sweep, host) then before + [host] else before
  }

  ghost predicate NoRepeats(hosts: seq<string>) {
    forall i, j :: 0 <= i < j < |hosts| ==> hosts[i] != hosts[j]
  }

  /** Each host once, and exactly the ones not notified before whose row is gone, an offline event or too old. */
  lemma {:induction false} NewlyStaleInFields(notified: set<string>, sweep: Sweep, n: nat)
    requires n <= |sweep.hosts|
    ensures forall h :: h in NewlyStale(notified, sweep, n) <==>
              && h in sweep.hosts[..n] && h !in notified
              && (h !in sweep.latest || sweep.latest[h].data.eventType == "offline"
                  || sweep.now - sweep.latest[h].time > sweep.timeoutSeconds * 1_000_000)
    ensures NoRepeats(NewlyStale(notified, sweep, n))
  {
    if n > 0 {
      NewlyStaleInFields(notified, sweep, n - 1);
      assert sweep.hosts[..n] == sweep.hosts[..n - 1] + [sweep.hosts[n - 1]];
    }
  }

  function HostSet(hosts: seq<string>): set<string> {
    set h | h in hosts
  }

  function Alerted(notified: set<string>, sweep: Sweep): seq<string> {
    if sweep.hasUrl then NewlyStale(notified, sweep, |sweep.hosts|) else []
  }

  class WorkflowEngine {
    const automations: seq<Automation>
    const runs: Table<Run>
    var offlineNotified: set<string>

    constructor (automations: seq<Automation>, runs: Table<Run>)
      ensures this.automations == automations && this.runs == runs && offlineNotified == {}
    {
      this.automations, this.runs := automations, runs;
      offlineNotified := {};
    }

    /** mark_online */
    method MarkOnline(hostname: string)
      modifies this
      ensures offlineNotified == old(offlineNotified) - {hostname}
    {
      offlineNotified := offlineNotified - {hostname};
    }

    /** _fire_check_workers_offline: the distinct hosts and each one's latest row come from queries; the
        webhook client never raises, so every alert of the loop is sent. No URL is an error result. */
    method CheckWorkersOffline(sweep: Sweep) returns (alerted: seq<string>, error: bool)
      modifies this
      ensures error == !sweep.hasUrl
      ensures alerted == Alerted(old(offlineNotified), sweep)
      ensures offlineNotified == old(offlineNotified) + HostSet(alerted)
      ensures forall h :: h in alerted <==>
                && sweep.hasUrl && h in sweep.hosts && h !in old(offlineNotified)
                && (h !in sweep.latest || sweep.latest[h].data.eventType == "offline"
                    || sweep.now - sweep.latest[h].time > sweep.timeoutSeconds * 1_000_000)
      ensures NoRepeats(alerted)
      ensures forall h :: h in offlineNotified <==> h in old(offlineNotified) || h in alerted
    {
      NewlyStaleInFields(offlineNotified, sweep, |sweep.hosts|);
      assert sweep.hosts[..|sweep.hosts|] == sweep.hosts;
      alerted := [];
      if !sweep.hasUrl {
        error := true;
        return;
      }
      error := false;
      for i := 0 to |sweep.hosts|
        invariant offlineNotified == old(offlineNotified) + HostSet(alerted)
        invariant alerted == NewlyStale(old(offlineNotified), sweep, i)
      {
        var hostname := sweep.hosts[i];
        if hostname in offlineNotified {
          continue;
        }
        if Offline(Answer(sweep, hostname), sweep.now, sweep.timeoutSeconds) {
          offlineNotified := offlineNotified + {hostname};
          alerted := alerted + [hostname];
        }
      }
    }

    /** One automation's turn: breaker, then rate limits, then its actions, and the run is recorded. */
    method EvaluateOne(a: Automation, o: Occasion)
      requires runs.Valid()
      modifies runs
      ensures runs.Valid()
      ensures runs.Contents() == Append(old(runs.Contents()), o.stamp,
                                        Evaluation(old(runs.rows), a, o.now, a.id in o.passing, OutcomeOf(o, a)))
      ensures RecordsEach(old(runs.rows), runs.rows, [a], o)
    {
      EvaluationSays(runs.rows, a, o.now, a.id in o.passing, OutcomeOf(o, a));
      assert runs.rows[..|runs.rows|] == runs.rows;
      var passed := a.id in o.passing;
      var fired, skipped := None, None;
      if passed {
        skipped := CheckCircuitBreaker(runs.rows, a, o.now);
        if skipped.None? {
          skipped := CheckRateLimits(runs.rows, a, o.now);
        }
        if skipped.None? {
          fired := Some(OutcomeOf(o, a));
        }
      }
      runs.Insert(o.stamp, Run(a.id, TriggerName(a), passed, fired, skipped));
    }

    /** _evaluate_event */
    method EvaluateEvent(eventType: string, o: Occasion)
      requires runs.Valid()
      modifies runs
      ensures runs.Valid()
      ensures runs.Contents()
           == Execute(old(runs.Contents()), EvaluationSteps(automations, ListensTo(eventType), o), 0)
      ensures RecordsEach(old(runs.rows), runs.rows,
                          Filter((a: Automation) => a.enabled && a.trigger == OnEvent(eventType), automations), o)
    {
      EventSelects(automations, eventType, runs.Contents(), o);
      var matching := Filter(ListensTo(eventType), automations);
      FilterMember(ListensTo(eventType), automations);
      ghost var steps := EvaluationSteps(automations, ListensTo(eventType), o);
      for i := 0 to |matching|
        invariant runs.Valid()
        invariant runs.Contents() == Execute(old(runs.Contents()), steps[..i], 0)
      {
        OneMoreEvaluation(old(runs.Contents()), steps, i, o, matching[i]);
        EvaluateOne(matching[i], o);
      }
      assert steps[..|matching|] == steps;
    }

    /** _evaluate_periodic */
    method EvaluatePeriodic(o: Occasion)
      requires runs.Valid()
      modifies runs
      ensures runs.Valid()
      ensures runs.Contents()
           == Execute(old(runs.Contents()), EvaluationSteps(automations, RunsOnSchedule(), o), 0)
      ensures (forall i, j :: 0 <= i < j < |automations| ==> automations[i].id != automations[j].id) ==>
                var rows := old(runs.rows);
                RecordsEach(rows, runs.rows,
                            Filter((a: Automation) =>
                                     && a.enabled && a.trigger.Periodic?
                                     && a.trigger.scheduleSeconds.Some? && a.trigger.scheduleSeconds.value != 0
                                     && forall r :: r in rows && r.data.automation == a.id ==>
                                          o.now - r.time >= a.trigger.scheduleSeconds.value * 1_000_000,
                                   automations), o)
    {
      if forall i, j :: 0 <= i < j < |automations| ==> automations[i].id != automations[j].id {
        TickSelects(automations, runs.Contents(), o);
      }
      var scheduled := Filter(RunsOnSchedule(), automations);
      FilterMember(RunsOnSchedule(), automations);
      ghost var steps := EvaluationSteps(automations, RunsOnSchedule(), o);
      for i := 0 to |scheduled|
        invariant runs.Valid()
        invariant runs.Contents() == Execute(old(runs.Contents()), steps[..i], 0)
      {
        var a := scheduled[i];
        OneMoreEvaluation(old(runs.Contents()), steps, i, o, a);
        var schedule := a.trigger.scheduleSeconds;
        if !Truthy(schedule) {
          continue;
        }
        var lastRun := LastRunTime(runs.rows, a.id);
        if lastRun.Some? && o.now - lastRun.value < schedule.value * SECOND {
          continue;
        }
        EvaluateOne(a, o);
      }
      assert steps[..|scheduled|] == steps;
    }
  }
}
