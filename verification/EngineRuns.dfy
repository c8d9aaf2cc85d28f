/** Whole lifetimes of the engine: events, periodic ticks and prunes in any order, over one set of automations. */
module EngineRuns {
  import opened Rows
  import opened Retention
  import opened Workflow
  import opened Invisible
  import opened RunLimits
  import opened Schedules

  datatype EngineOp = Event(eventType: string, occasion: Occasion) | Tick(occasion: Occasion) | PruneRuns(moment: int)

  function StepsOf(automations: seq<Automation>, op: EngineOp): seq<Step> {
    match op
    case Event(eventType, o) => EvaluationSteps(automations, ListensTo(eventType), o)
    case Tick(o) => EvaluationSteps(automations, RunsOnSchedule(), o)
    case PruneRuns(moment) => [Prune(moment)]
  }

  function AllSteps(automations: seq<Automation>, ops: seq<EngineOp>): seq<Step> {
    if ops == [] then []
    else AllSteps(automations, ops[..|ops| - 1]) + StepsOf(automations, ops[|ops| - 1])
  }

  ghost predicate UniqueIds(automations: seq<Automation>) {
    forall a, b :: a in automations && b in automations && a.id == b.id ==> a == b
  }

  ghost predicate PrunesAreNotInTheFuture(ops: seq<EngineOp>) {
    forall i, j :: 0 <= i < j < |ops| && ops[i].PruneRuns? && !ops[j].PruneRuns? ==>
           ops[i].moment <= ops[j].occasion.now
  }

  ghost predicate ClockAdvances(ops: seq<EngineOp>) {
    forall i, j :: 0 <= i < j < |ops| && !ops[i].PruneRuns? && !ops[j].PruneRuns? ==>
      ops[i].occasion.now <= ops[j].occasion.now
  }

  ghost predicate StampedWithin(ops: seq<EngineOp>, lag: nat) {
    forall op :: op in ops && !op.PruneRuns? ==> op.occasion.stamp >= op.occasion.now - lag
  }

  /** Every step comes from an operation and one of the automations. */
  ghost predicate ComesFrom(step: Step, automations: seq<Automation>, op: EngineOp) {
    match step
    case Prune(moment) => op == PruneRuns(moment)
    case Evaluate(a, now, stamp, _, _) =>
      !op.PruneRuns? && a in automations && now == op.occasion.now && stamp == op.occasion.stamp
  }

  lemma StepsComeFrom(automations: seq<Automation>, op: EngineOp)
    ensures forall i :: 0 <= i < |StepsOf(automations, op)| ==> ComesFrom(StepsOf(automations, op)[i], automations, op)
  {
    match op
    case PruneRuns(_) =>
    case Event(eventType, o) => FilterMember(ListensTo(eventType), automations);
    case Tick(o) => FilterMember(RunsOnSchedule(), automations);
  }

  ghost predicate Sourced(step: Step, automations: seq<Automation>, ops: seq<EngineOp>) {
    exists op :: op in ops && ComesFrom(step, automations, op)
  }

  lemma {:induction false} AllStepsAreSourced(automations: seq<Automation>, ops: seq<EngineOp>)
    ensures forall s :: s in AllSteps(automations, ops) ==> Sourced(s, automations, ops)
  {
    if ops != [] {
      var init, last := ops[..|ops| - 1], ops[|ops| - 1];
      AllStepsAreSourced(automations, init);
      StepsComeFrom(automations, last);
      assert forall op :: op in init || op == last ==> op in ops;
      forall s | s in AllSteps(automations, ops) ensures Sourced(s, automations, ops) {
        if s in AllSteps(automations, init) {
          assert Sourced(s, automations, init);
        } else {
          var i :| 0 <= i < |StepsOf(automations, last)| && StepsOf(automations, last)[i] == s;
          assert ComesFrom(s, automations, last);
        }
      }
    }
  }

  lemma CausalConcat(before: seq<Step>, added: seq<Step>)
    requires Causal(before) && Causal(added)
    requires forall p, e :: p in before && e in added && p.Prune? && e.Evaluate? ==> p.moment <= e.now
    ensures Causal(before + added)
  {
  }

  lemma ClockConcat(before: seq<Step>, added: seq<Step>)
    requires ClocksNeverBack(before) && ClocksNeverBack(added)
    requires forall p, e :: p in before && e in added && p.Evaluate? && e.Evaluate? ==> p.now <= e.now
    ensures ClocksNeverBack(before + added)
  {
  }

  lemma {:induction false} OrderCarriesOver(automations: seq<Automation>, ops: seq<EngineOp>)
    ensures PrunesAreNotInTheFuture(ops) ==> Causal(AllSteps(automations, ops))
    ensures ClockAdvances(ops) ==> ClocksNeverBack(AllSteps(automations, ops))
  {
    if ops != [] {
      var init, last := ops[..|ops| - 1], ops[|ops| - 1];
      OrderCarriesOver(automations, init);
      AllStepsAreSourced(automations, init);
      StepsComeFrom(automations, last);
      var before, added := AllSteps(automations, init), StepsOf(automations, last);
      forall p, e | p in before && e in added && e.Evaluate?
        ensures PrunesAreNotInTheFuture(ops) && p.Prune? ==> p.moment <= e.now
        ensures ClockAdvances(ops) && p.Evaluate? ==> p.now <= e.now
      {
        assert Sourced(p, automations, init);
        var op :| op in init && ComesFrom(p, automations, op);
        var i :| 0 <= i < |init| && init[i] == op;
        assert ComesFrom(e, automations, last);
      }
      if PrunesAreNotInTheFuture(ops) {
        CausalConcat(before, added);
      }
      if ClockAdvances(ops) {
        ClockConcat(before, added);
      }
    }
  }

  lemma StepConditions(automations: seq<Automation>, ops: seq<EngineOp>, a: Automation, days: int, lag: nat)
    requires UniqueIds(automations) && a in automations && StampedWithin(ops, lag)
    ensures FixedSettings(AllSteps(automations, ops), a) && StampsLag(AllSteps(automations, ops), lag)
    ensures Retains(a, days) ==> RetainedFor(AllSteps(automations, ops), a.id, days)
    ensures (forall b :: b in automations ==> Retains(b, days)) ==> AllRetained(AllSteps(automations, ops), days)
  {
    AllStepsAreSourced(automations, ops);
    var steps := AllSteps(automations, ops);
    forall i | 0 <= i < |steps| && steps[i].Evaluate?
      ensures steps[i].automation in automations && steps[i].stamp >= steps[i].now - lag
    {
      assert Sourced(steps[i], automations, ops);
    }
  }

  /** The safety knobs over a whole engine lifetime. With run retention covering the automation's own limits,
      whatever the others ask for: pruning changes none of its runs, and no decision at all if it covers
      every automation; it keeps its cap, its breaker and its cooldown at once, and its schedule if it is
      periodic; and a breaker shadowed by the cap never opens. */
  lemma EngineKeepsItsPromises(automations: seq<Automation>, ops: seq<EngineOp>, a: Automation, days: int, lag: nat)
    requires UniqueIds(automations) && a in automations && StampedWithin(ops, lag)
    requires PrunesAreNotInTheFuture(ops) && Retains(a, days)
    ensures var steps := AllSteps(automations, ops);
            var history := History(Decisions(Empty(), steps, days));
            && Own(history, a.id) == Own(History(Decisions(Empty(), steps, 0)), a.id)
            && ((forall b :: b in automations ==> Retains(b, days)) ==>
                  Decisions(Empty(), steps, days) == Decisions(Empty(), steps, 0))
            && LimitsHold(history, a, lag)
            && (a.trigger.Periodic? && Truthy(a.trigger.scheduleSeconds) ==>
                  Spaced(RunsOf(a, steps, days), a.trigger.scheduleSeconds.value * SECOND - lag))
            && (CapShadowsBreaker(a) && ClockAdvances(ops) ==>
                  forall r :: r in history && r.data.automation == a.id ==> r.data.skipped != Some(CircuitOpen))
  {
    var steps := AllSteps(automations, ops);
    StepConditions(automations, ops, a, days, lag);
    OrderCarriesOver(automations, ops);
    PruningIsInvisibleTo(Empty(), steps, a.id, days);
    if forall b :: b in automations ==> Retains(b, days) {
      PruningIsInvisible(Empty(), steps, days);
    }
    LimitsHoldOverEveryRun(steps, a, days, lag);
    if a.trigger.Periodic? && Truthy(a.trigger.scheduleSeconds) {
      RunsAreSpaced(steps, a, days, lag);
    }
    if CapShadowsBreaker(a) && ClockAdvances(ops) {
      DeadBreaker(steps, a, days);
    }
  }

  /** The retention, in days, reaches back so many seconds; none keeps everything. */
  predicate ReachesBack(days: int, seconds: Option<int>) {
    days <= 0 || seconds.None? || seconds.value * 1_000_000 <= days * 86_400_000_000
  }

  /** With a retention as long as each of the automation's own limits. */
  ghost predicate ReachesItsLimits(a: Automation, days: int) {
    && ReachesBack(days, a.cooldownSeconds) && ReachesBack(days, a.windowSeconds)
    && (a.circuitBreaker.Some? ==> ReachesBack(days, a.circuitBreaker.value.windowSeconds))
    && (a.trigger.Periodic? ==> ReachesBack(days, a.trigger.scheduleSeconds))
  }

  lemma RetainsInFields(a: Automation, days: int)
    requires ReachesItsLimits(a, days)
    ensures Retains(a, days)
  {
  }

  lemma LifetimeIsARun(automations: seq<Automation>, ops: seq<EngineOp>, a: Automation, days: int, lag: nat)
    requires UniqueIds(automations) && a in automations && StampedWithin(ops, lag) && PrunesAreNotInTheFuture(ops)
    requires ReachesItsLimits(a, days)
    ensures var steps := AllSteps(automations, ops);
            FixedSettings(steps, a) && StampsLag(steps, lag) && Causal(steps) && Retains(a, days)
  {
    RetainsInFields(a, days);
    StepConditions(automations, ops, a, days, lag);
    OrderCarriesOver(automations, ops);
  }

  /** The settings themselves, over a whole lifetime, read off the settings and the rows: no window of
      window_seconds holds more runs with actions than max_runs_per_window ... */
  lemma EngineKeepsItsCap(automations: seq<Automation>, ops: seq<EngineOp>, a: Automation, days: int, lag: nat,
                          n: int, w: int, lo: int)
    requires UniqueIds(automations) && a in automations && StampedWithin(ops, lag) && PrunesAreNotInTheFuture(ops)
    requires ReachesItsLimits(a, days) && a.maxRunsPerWindow == Some(n) && a.windowSeconds == Some(w)
    ensures |Filter((r: Row<Run>) => r.data.automation == a.id && r.data.fired.Some?
                      && lo <= r.time <= lo + (w * 1_000_000 - lag),
                    History(Decisions(Empty(), AllSteps(automations, ops), days)))| <= if n > 0 then n else 0
  {
    LifetimeIsARun(automations, ops, a, days, lag);
    CapIsKept(AllSteps(automations, ops), a, days, lag, n, w, lo);
  }

  /** ... and none of the breaker's more than its threshold, ... */
  lemma EngineKeepsItsBreaker(automations: seq<Automation>, ops: seq<EngineOp>, a: Automation, days: int, lag: nat,
                              k: int, w: int, lo: int)
    requires UniqueIds(automations) && a in automations && StampedWithin(ops, lag) && PrunesAreNotInTheFuture(ops)
    requires ReachesItsLimits(a, days) && a.circuitBreaker == Some(Breaker(Some(k), Some(w))) && k != 0 && w != 0
    ensures |Filter((r: Row<Run>) => r.data.automation == a.id && r.data.fired.Some?
                      && lo <= r.time <= lo + (w * 1_000_000 - lag),
                    History(Decisions(Empty(), AllSteps(automations, ops), days)))| <= if k > 0 then k else 0
  {
    LifetimeIsARun(automations, ops, a, days, lag);
    BreakerIsKept(AllSteps(automations, ops), a, days, lag, k, w, lo);
  }

  /** ... runs with actions are cooldown_seconds apart, and any two runs of a periodic automation schedule_seconds. */
  lemma EngineKeepsItsDistances(automations: seq<Automation>, ops: seq<EngineOp>, a: Automation, days: int, lag: nat)
    requires UniqueIds(automations) && a in automations && StampedWithin(ops, lag) && PrunesAreNotInTheFuture(ops)
    requires ReachesItsLimits(a, days)
    ensures var history := History(Decisions(Empty(), AllSteps(automations, ops), days));
            a.cooldownSeconds.Some? ==>
              forall i, j :: 0 <= i < j < |history|
                && history[i].data.automation == a.id && history[i].data.fired.Some?
                && history[j].data.automation == a.id && history[j].data.fired.Some?
                ==> history[j].time - history[i].time >= a.cooldownSeconds.value * 1_000_000 - lag
    ensures var history := History(Decisions(Empty(), AllSteps(automations, ops), days));
            a.trigger.Periodic? && a.trigger.scheduleSeconds.Some? && a.trigger.scheduleSeconds.value != 0 ==>
              forall i, j :: 0 <= i < j < |history|
                && history[i].data.automation == a.id && history[j].data.automation == a.id
                ==> history[j].time - history[i].time >= a.trigger.scheduleSeconds.value * 1_000_000 - lag
  {
    LifetimeIsARun(automations, ops, a, days, lag);
    FiresAndRunsAreSpaced(AllSteps(automations, ops), a, days, lag);
  }

  lemma FiresAndRunsAreSpaced(steps: seq<Step>, a: Automation, days: int, lag: nat)
    requires FixedSettings(steps, a) && StampsLag(steps, lag) && Causal(steps) && Retains(a, days)
    ensures var history := History(Decisions(Empty(), steps, days));
            a.cooldownSeconds.Some? ==>
              forall i, j :: 0 <= i < j < |history|
                && history[i].data.automation == a.id && history[i].data.fired.Some?
                && history[j].data.automation == a.id && history[j].data.fired.Some?
                ==> history[j].time - history[i].time >= a.cooldownSeconds.value * 1_000_000 - lag
    ensures var history := History(Decisions(Empty(), steps, days));
            a.trigger.Periodic? && a.trigger.scheduleSeconds.Some? && a.trigger.scheduleSeconds.value != 0 ==>
              forall i, j :: 0 <= i < j < |history|
                && history[i].data.automation == a.id && history[j].data.automation == a.id
                ==> history[j].time - history[i].time >= a.trigger.scheduleSeconds.value * 1_000_000 - lag
  {
    var history := History(Decisions(Empty(), steps, days));
    if a.cooldownSeconds.Some? {
      forall i, j | 0 <= i < j < |history|
                    && history[i].data.automation == a.id && history[i].data.fired.Some?
                    && history[j].data.automation == a.id && history[j].data.fired.Some?
        ensures history[j].time - history[i].time >= a.cooldownSeconds.value * 1_000_000 - lag
      {
        CooldownIsKept(steps, a, days, lag, a.cooldownSeconds.value, i, j);
      }
    }
    if a.trigger.Periodic? && a.trigger.scheduleSeconds.Some? && a.trigger.scheduleSeconds.value != 0 {
      RunsAreSpaced(steps, a, days, lag);
      forall i, j | 0 <= i < j < |history| && history[i].data.automation == a.id && history[j].data.automation == a.id
        ensures history[j].time - history[i].time >= a.trigger.scheduleSeconds.value * 1_000_000 - lag
      {
        SpacedInRows(history, RunBy(a.id), a.trigger.scheduleSeconds.value * SECOND - lag, i, j);
      }
    }
  }

  lemma OneMoreOperation(automations: seq<Automation>, ops: seq<EngineOp>, op: EngineOp, days: int)
    ensures var before := Execute(Empty(), AllSteps(automations, ops), days);
            var after := Execute(Empty(), AllSteps(automations, ops + [op]), days);
            && after == Execute(before, StepsOf(automations, op), days)
            && (!op.PruneRuns? ==> after == Execute(before, StepsOf(automations, op), 0))
  {
    assert (ops + [op])[..|ops|] == ops;
    ExecuteConcat(Empty(), AllSteps(automations, ops), StepsOf(automations, op), days);
    if !op.PruneRuns? {
      StepsComeFrom(automations, op);
      EvaluationsIgnoreRetention(Execute(Empty(), AllSteps(automations, ops), days), StepsOf(automations, op), days);
    }
  }

  lemma PruneIsOneStep(log: RunLog, moment: int, days: int)
    ensures Execute(log, [Prune(moment)], days) == log.(rows := Pruned(log.rows, moment, days))
  {
    var steps: seq<Step> := [Prune(moment)];
    assert steps[..0] == [];
  }

  /** One operation of the running engine is one more operation of the lifetime the promises are about. */
  method RunOperation(engine: WorkflowEngine, op: EngineOp, days: int, batchSize: nat, ghost ops: seq<EngineOp>)
    requires batchSize >= 1 && engine.runs.Valid()
    requires engine.runs.Contents() == Execute(Empty(), AllSteps(engine.automations, ops), days)
    modifies engine.runs
    ensures engine.runs.Valid()
    ensures engine.runs.Contents() == Execute(Empty(), AllSteps(engine.automations, ops + [op]), days)
  {
    OneMoreOperation(engine.automations, ops, op, days);
    match op
    case Event(eventType, o) => engine.EvaluateEvent(eventType, o);
    case Tick(o) => engine.EvaluatePeriodic(o);
    case PruneRuns(moment) =>
      PruneIsOneStep(engine.runs.Contents(), moment, days);
      if days > 0 {
        var total, deletes := PruneTable(engine.runs, moment - days * DAY, batchSize, false);
      }
  }
}
