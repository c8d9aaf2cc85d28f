/** Passes that an automation aborts by raising: what the pass dispatched is out, but its run rows are rolled back. */
module Aborted {
  import opened Rows
  import opened Workflow
  import opened RunLimits
  import opened FireTimes

  /** One evaluation of an event, or one periodic tick: what it reads, and whose conditions raise. */
  datatype Pass = Pass(occasion: Occasion, raising: set<int>)

  /** The committed run log, and the runs whose actions were dispatched, committed or not. */
  datatype World = World(log: RunLog, dispatched: seq<Row<Run>>)

  function EvaluateIn(w: World, a: Automation, o: Occasion): World {
    var run := Recorded(w.log, StepOn(o)(a));
    if run.None? then w
    else World(Append(w.log, run.value.time, run.value.data),
               if run.value.data.fired.Some? then w.dispatched + [run.value] else w.dispatched)
  }

  /** The first n automations of a pass, evaluated in turn in its transaction. */
  function Within(w: World, order: seq<Automation>, o: Occasion, n: nat): World
    requires n <= |order|
  {
    if n == 0 then w else EvaluateIn(Within(w, order, o, n - 1), order[n - 1], o)
  }

  /** The position of the first automation whose conditions raise, or the end. */
  function Stop(order: seq<Automation>, raising: set<int>): (k: nat)
    ensures k <= |order|
    ensures forall i :: 0 <= i < k ==> order[i].id !in raising
    ensures k < |order| ==> order[k].id in raising
  {
    if order == [] || order[0].id in raising then 0 else 1 + Stop(order[1..], raising)
  }

  /** Those of the raising automations whose conditions the pass gets to: the ones that are due. */
  function Asked(w: World, order: seq<Automation>, pass: Pass): set<int> {
    set a | a in order && a.id in pass.raising && Due(w.log.rows, a, pass.occasion.now) :: a.id
  }

  /** A pass commits its rows if nothing raised; what it dispatched stays dispatched. */
  function AfterPass(w: World, order: seq<Automation>, pass: Pass): World {
    var k := Stop(order, Asked(w, order, pass));
    var after := Within(w, order, pass.occasion, k);
    if k < |order| then World(w.log, after.dispatched) else after
  }

  function AfterPasses(order: seq<Automation>, passes: seq<Pass>): World {
    if passes == [] then World(Empty(), [])
    else AfterPass(AfterPasses(order, passes[..|passes| - 1]), order, passes[|passes| - 1])
  }

  predicate DifferentIds(order: seq<Automation>) {
    forall i, j :: 0 <= i < j < |order| ==> order[i].id != order[j].id
  }

  /** What evaluating the others leaves of one automation's runs: all of them. */
  lemma OthersRunsStay(w: World, b: Automation, o: Occasion, automation: int)
    requires b.id != automation
    ensures Filter(RunBy(automation), EvaluateIn(w, b, o).log.rows) == Filter(RunBy(automation), w.log.rows)
  {
    var run := Recorded(w.log, StepOn(o)(b));
    if run.Some? {
      FilterAppend(RunBy(automation), w.log.rows, run.value);
    }
  }

  /** The due test of an automation reads the same runs in its turn as at the start of the pass. */
  lemma {:induction false} DueInItsTurn(w: World, order: seq<Automation>, o: Occasion, n: nat, i: nat)
    requires DifferentIds(order) && n <= i < |order|
    ensures Filter(RunBy(order[i].id), Within(w, order, o, n).log.rows) == Filter(RunBy(order[i].id), w.log.rows)
    ensures Due(Within(w, order, o, n).log.rows, order[i], o.now) == Due(w.log.rows, order[i], o.now)
  {
    if n > 0 {
      DueInItsTurn(w, order, o, n - 1, i);
      OthersRunsStay(Within(w, order, o, n - 1), order[n - 1], o, order[i].id);
    }
  }

  /** A pass that nothing aborts logs the steps of an evaluation, and an aborted one nothing. */
  lemma {:induction false} CommittedWithin(w: World, order: seq<Automation>, o: Occasion, n: nat)
    requires n <= |order|
    ensures Within(w, order, o, n).log == Execute(w.log, Apply(StepOn(o), order)[..n], 0)
  {
    if n > 0 {
      CommittedWithin(w, order, o, n - 1);
      var steps := Apply(StepOn(o), order);
      assert steps[..n][..n - 1] == steps[..n - 1];
    }
  }

  lemma PassesLogEvaluations(w: World, automations: seq<Automation>, wanted: Automation -> bool, pass: Pass)
    ensures var order := Filter(wanted, automations);
            AfterPass(w, order, pass).log ==
              if exists a :: a in order && a.id in pass.raising && (a.trigger.Periodic? ==>
                   && a.trigger.scheduleSeconds.Some? && a.trigger.scheduleSeconds.value != 0
                   && forall r :: r in w.log.rows && r.data.automation == a.id ==>
                        pass.occasion.now - r.time >= a.trigger.scheduleSeconds.value * 1_000_000)
              then w.log else Execute(w.log, EvaluationSteps(automations, wanted, pass.occasion), 0)
  {
    var order := Filter(wanted, automations);
    var asked := Asked(w, order, pass);
    var k := Stop(order, asked);
    forall a | a in order {
      DueInFields(w.log.rows, a, pass.occasion.now);
    }
    if k == |order| {
      CommittedWithin(w, order, pass.occasion, k);
      assert Apply(StepOn(pass.occasion), order)[..k] == EvaluationSteps(automations, wanted, pass.occasion);
      forall a | a in order ensures a.id !in asked {
        var i :| 0 <= i < |order| && order[i] == a;
      }
    } else {
      var a :| a in order && a.id in pass.raising && Due(w.log.rows, a, pass.occasion.now) && a.id == order[k].id;
    }
  }

  // ------------------------------------------------- what passes are possible

  /** What one event makes of the conditions: whose hold, and whose raise. */
  datatype Kind = Kind(passing: set<int>, raising: set<int>)

  /** Every pass is of a possible kind and stamps its rows at most `lag` before its clock. */
  ghost predicate Possible(passes: seq<Pass>, kinds: iset<Kind>, lag: nat) {
    forall p :: p in passes ==>
      Kind(p.occasion.passing, p.raising) in kinds && p.occasion.stamp >= p.occasion.now - lag
  }

  /** A kind that spoils a pass after the automation's turn: its conditions hold, no earlier one's raise, and
      a later one's do. */
  predicate Spoils(order: seq<Automation>, p: nat, k: Kind)
    requires p < |order|
  {
    order[p].id in k.passing && p < Stop(order, k.raising) < |order|
  }

  /** The conditions of a periodic automation are read on the empty event, so they raise always or never. */
  ghost predicate Steadfast(order: seq<Automation>, kinds: iset<Kind>) {
    forall a, k, k' :: a in order && a.trigger.Periodic? && k in kinds && k' in kinds && a.id in k.raising ==>
           a.id in k'.raising
  }

  ghost predicate AllValidated(order: seq<Automation>) {
    forall a :: a in order ==> Validated(a)
  }

  /** A periodic automation whose conditions raise has no recorded run, so it is always due. */
  ghost predicate RaisersNeverRan(log: seq<Row<Run>>, order: seq<Automation>, kinds: iset<Kind>) {
    forall a, k :: a in order && a.trigger.Periodic? && k in kinds && a.id in k.raising ==>
           Filter(RunBy(a.id), log) == []
  }

  lemma AskedAreRaising(w: World, order: seq<Automation>, pass: Pass, kinds: iset<Kind>)
    requires AllValidated(order) && RaisersNeverRan(w.log.rows, order, kinds)
    requires Kind(pass.occasion.passing, pass.raising) in kinds
    ensures Stop(order, Asked(w, order, pass)) == Stop(order, pass.raising)
  {
    forall a | a in order ensures a.id in Asked(w, order, pass) <==> a.id in pass.raising {
      if a.id in pass.raising && a.trigger.Periodic? {
        assert Filter(RunBy(a.id), w.log.rows) == [];
      }
    }
    SameStop(order, Asked(w, order, pass), pass.raising);
  }

  lemma {:induction false} SameStop(order: seq<Automation>, s: set<int>, t: set<int>)
    requires forall a :: a in order ==> (a.id in s <==> a.id in t)
    ensures Stop(order, s) == Stop(order, t)
  {
    if order != [] {
      assert order[0] in order;
      SameStop(order[1..], s, t);
    }
  }

  lemma {:induction false} NoRunsBeforeIts(w: World, order: seq<Automation>, o: Occasion, n: nat, a: Automation)
    requires n <= |order| && forall i :: 0 <= i < n ==> order[i].id != a.id
    ensures Filter(RunBy(a.id), Within(w, order, o, n).log.rows) == Filter(RunBy(a.id), w.log.rows)
  {
    if n > 0 {
      NoRunsBeforeIts(w, order, o, n - 1, a);
      OthersRunsStay(Within(w, order, o, n - 1), order[n - 1], o, a.id);
    }
  }

  lemma PassKeepsRaisersOut(w: World, order: seq<Automation>, pass: Pass, kinds: iset<Kind>)
    requires AllValidated(order) && Steadfast(order, kinds) && RaisersNeverRan(w.log.rows, order, kinds)
    requires Kind(pass.occasion.passing, pass.raising) in kinds
    ensures RaisersNeverRan(AfterPass(w, order, pass).log.rows, order, kinds)
  {
    AskedAreRaising(w, order, pass, kinds);
    if Stop(order, pass.raising) == |order| {
      forall a, k | a in order && a.trigger.Periodic? && k in kinds ensures a.id !in k.raising {
        assert a.id !in pass.raising;
      }
    }
  }

  // ------------------------------------------------- when no kind spoils its passes

  /** Its dispatches are its recorded fires, and those keep the limits. */
  ghost predicate InStep(w: World, a: Automation, lag: nat) {
    Fires(w.log.rows, a) == Fires(w.dispatched, a) && LimitsHold(w.log.rows, a, lag)
  }

  lemma OneStaysInStep(w: World, a: Automation, b: Automation, o: Occasion, lag: nat)
    requires InStep(w, a, lag) && (b.id == a.id ==> b == a) && o.stamp >= o.now - lag
    ensures InStep(EvaluateIn(w, b, o), a, lag)
    ensures b.id != a.id || b.id !in o.passing ==> Fires(EvaluateIn(w, b, o).dispatched, a) == Fires(w.dispatched, a)
  {
    var run := Recorded(w.log, StepOn(o)(b));
    if run.Some? {
      FilterAppend(FiredBy(a.id), w.log.rows, run.value);
      FilterAppend(FiredBy(a.id), w.dispatched, run.value);
      FireKeepsLimits(w.log.rows, a, o.now, run.value, lag);
    }
  }

  lemma {:induction false} WithinStaysInStep(w: World, order: seq<Automation>, o: Occasion, p: nat, n: nat, lag: nat)
    requires DifferentIds(order) && p < |order| && n <= |order| && o.stamp >= o.now - lag && InStep(w, order[p], lag)
    ensures InStep(Within(w, order, o, n), order[p], lag)
    ensures n <= p || order[p].id !in o.passing ==>
            Fires(Within(w, order, o, n).dispatched, order[p]) == Fires(w.dispatched, order[p])
  {
    if n > 0 {
      WithinStaysInStep(w, order, o, p, n - 1, lag);
      OneStaysInStep(Within(w, order, o, n - 1), order[p], order[n - 1], o, lag);
    }
  }

  lemma PassStaysInStep(w: World, order: seq<Automation>, p: nat, pass: Pass, kinds: iset<Kind>, lag: nat)
    requires DifferentIds(order) && AllValidated(order) && p < |order|
    requires InStep(w, order[p], lag) && RaisersNeverRan(w.log.rows, order, kinds) && Possible([pass], kinds, lag)
    requires !Spoils(order, p, Kind(pass.occasion.passing, pass.raising))
    ensures InStep(AfterPass(w, order, pass), order[p], lag)
  {
    assert pass in [pass];
    AskedAreRaising(w, order, pass, kinds);
    WithinStaysInStep(w, order, pass.occasion, p, Stop(order, pass.raising), lag);
  }

  lemma {:induction false} PassesStayInStep(order: seq<Automation>, p: nat, passes: seq<Pass>, kinds: iset<Kind>,
                                            lag: nat)
    requires DifferentIds(order) && AllValidated(order) && Steadfast(order, kinds) && p < |order|
    requires Possible(passes, kinds, lag) && forall k :: k in kinds ==> !Spoils(order, p, k)
    ensures InStep(AfterPasses(order, passes), order[p], lag)
    ensures RaisersNeverRan(AfterPasses(order, passes).log.rows, order, kinds)
  {
    if passes != [] {
      var init, last := passes[..|passes| - 1], passes[|passes| - 1];
      assert last in passes;
      PassesStayInStep(order, p, init, kinds, lag);
      PassStaysInStep(AfterPasses(order, init), order, p, last, kinds, lag);
      PassKeepsRaisersOut(AfterPasses(order, init), order, last, kinds);
    } else {
      assert InStep(World(Empty(), []), order[p], lag);
    }
  }

  lemma LimitsReadFires(log: seq<Row<Run>>, other: seq<Row<Run>>, a: Automation, lag: nat)
    requires LimitsHold(log, a, lag) && Fires(log, a) == Fires(other, a)
    ensures LimitsHold(other, a, lag)
  {
    forall lo, length ensures FiresBetween(log, a.id, lo, length) == FiresBetween(other, a.id, lo, length) {
      FilterWithin(FiredIn(a.id, lo, lo + length), FiredBy(a.id), log);
      FilterWithin(FiredIn(a.id, lo, lo + length), FiredBy(a.id), other);
    }
  }

  // ------------------------------------------------- when one does

  /** A limit that bounds anything at all under that lag. */
  predicate Limited(a: Automation, lag: nat) {
    || a.cooldownSeconds.Some?
    || (CapInForce(a) && CapSpan(a) >= lag)
    || (BreakerInForce(a) && BreakerSpan(a) >= lag)
  }

  lemma NoWindowHoldsAny(log: seq<Row<Run>>, automation: int, length: int, most: int)
    requires length < 0
    ensures WindowBound(log, automation, length, most)
  {
    forall lo ensures FiresBetween(log, automation, lo, length) <= Positive(most) {
      FilterNone(FiredIn(automation, lo, lo + length), log);
    }
  }

  lemma UnlimitedHolds(log: seq<Row<Run>>, a: Automation, lag: nat)
    requires !Limited(a, lag)
    ensures LimitsHold(log, a, lag)
  {
    if CapInForce(a) {
      NoWindowHoldsAny(log, a.id, CapSpan(a) - lag, a.maxRunsPerWindow.value);
    }
    if BreakerInForce(a) {
      NoWindowHoldsAny(log, a.id, BreakerSpan(a) - lag, Threshold(a));
    }
  }

  lemma NothingOwnDecides(log: seq<Row<Run>>, a: Automation, now: int)
    requires Validated(a) && CanFire(a) && Filter(RunBy(a.id), log) == []
    ensures Due(log, a, now) && Decide(log, a, now).None?
  {
    FilterMember(RunBy(a.id), log);
    forall r | r in log ensures r.data.automation != a.id {
      assert !RunBy(a.id)(r);
    }
    FilterNone(FiredBy(a.id), log);
    if BreakerInForce(a) {
      FilterNone(FiredSince(a.id, now - BreakerSpan(a)), log);
    }
    if CapInForce(a) {
      FilterNone(FiredSince(a.id, now - CapSpan(a)), log);
    }
  }

  /** A pass of the kind, at a clock. */
  function SpoiledAt(k: Kind, now: int): Pass {
    Pass(Occasion(now, now, k.passing, map[]), k.raising)
  }

  ghost predicate OneMoreAt(before: seq<Row<Run>>, after: seq<Row<Run>>, time: int) {
    |after| == |before| + 1 && after[..|before|] == before && after[|before|].time == time
  }

  lemma ItsTurnDispatches(w: World, a: Automation, o: Occasion)
    requires Validated(a) && CanFire(a) && Filter(RunBy(a.id), w.log.rows) == [] && a.id in o.passing
    ensures OneMoreAt(Fires(w.dispatched, a), Fires(EvaluateIn(w, a, o).dispatched, a), o.stamp)
  {
    NothingOwnDecides(w.log.rows, a, o.now);
    FilterAppend(FiredBy(a.id), w.dispatched, Recorded(w.log, StepOn(o)(a)).value);
  }

  lemma OthersDispatchTheirs(w: World, b: Automation, a: Automation, o: Occasion)
    requires b.id != a.id
    ensures Fires(EvaluateIn(w, b, o).dispatched, a) == Fires(w.dispatched, a)
  {
    var run := Recorded(w.log, StepOn(o)(b));
    if run.Some? {
      FilterAppend(FiredBy(a.id), w.dispatched, run.value);
    }
  }

  lemma {:induction false} OneDispatchWithin(w: World, order: seq<Automation>, p: nat, o: Occasion, n: nat)
    requires DifferentIds(order) && p < |order| && n <= |order| && Validated(order[p]) && CanFire(order[p])
    requires w.log == Empty() && order[p].id in o.passing
    ensures var fires := Fires(Within(w, order, o, n).dispatched, order[p]);
            if n <= p then fires == Fires(w.dispatched, order[p])
            else OneMoreAt(Fires(w.dispatched, order[p]), fires, o.stamp)
  {
    if n > 0 {
      OneDispatchWithin(w, order, p, o, n - 1);
      if n - 1 == p {
        NoRunsBeforeIts(w, order, o, p, order[p]);
        ItsTurnDispatches(Within(w, order, o, p), order[p], o);
      } else {
        OthersDispatchTheirs(Within(w, order, o, n - 1), order[n - 1], order[p], o);
      }
    }
  }

  lemma SpoiledPassDispatches(w: World, order: seq<Automation>, p: nat, k: Kind, now: int)
    requires DifferentIds(order) && AllValidated(order) && p < |order| && CanFire(order[p]) && Spoils(order, p, k)
    requires w.log == Empty()
    ensures var after := AfterPass(w, order, SpoiledAt(k, now));
            after.log == Empty() && OneMoreAt(Fires(w.dispatched, order[p]), Fires(after.dispatched, order[p]), now)
  {
    AskedAreRaising(w, order, SpoiledAt(k, now), iset{k});
    OneDispatchWithin(w, order, p, SpoiledAt(k, now).occasion, Stop(order, k.raising));
  }

  /** The first pass at 0, the others at `then`. */
  function SpoiledPasses(k: Kind, later: int, n: nat): seq<Pass> {
    seq(n, i => SpoiledAt(k, if i == 0 then 0 else later))
  }

  ghost predicate Dispatched(fires: seq<Row<Run>>, later: int, n: nat) {
    |fires| == n && forall i {:trigger fires[i]} :: 0 <= i < n ==> fires[i].time == if i == 0 then 0 else later
  }

  lemma {:induction false} SpoiledPassesDispatch(order: seq<Automation>, p: nat, k: Kind, later: int, n: nat)
    requires DifferentIds(order) && AllValidated(order) && p < |order| && CanFire(order[p]) && Spoils(order, p, k)
    ensures var after := AfterPasses(order, SpoiledPasses(k, later, n));
            after.log == Empty() && Dispatched(Fires(after.dispatched, order[p]), later, n)
  {
    if n > 0 {
      var passes := SpoiledPasses(k, later, n);
      SpoiledPassesDispatch(order, p, k, later, n - 1);
      assert passes[..n - 1] == SpoiledPasses(k, later, n - 1);
      var before := AfterPasses(order, passes[..n - 1]);
      SpoiledPassDispatches(before, order, p, k, if n == 1 then 0 else later);
      var fires := Fires(AfterPass(before, order, passes[n - 1]).dispatched, order[p]);
      forall i | 0 <= i < n - 1 ensures fires[i] == Fires(before.dispatched, order[p])[i] {
        assert fires[..n - 1][i] == fires[i];
      }
    }
  }

  /** More fires than a window may hold. */
  function TooMany(a: Automation): nat {
    2 + (if CapInForce(a) then Positive(a.maxRunsPerWindow.value) else 0)
      + (if BreakerInForce(a) then Positive(Threshold(a)) else 0)
  }

  /** A second clock that comes too soon for the cooldown; the same moment will do for a window. */
  function TooSoon(a: Automation, lag: nat): int {
    if (CapInForce(a) && CapSpan(a) >= lag) || (BreakerInForce(a) && BreakerSpan(a) >= lag) then 0
    else if a.cooldownSeconds.Some? && a.cooldownSeconds.value * SECOND <= lag
    then a.cooldownSeconds.value * SECOND - lag - 1
    else 0
  }

  lemma OneMomentFills(dispatched: seq<Row<Run>>, a: Automation, length: int, n: nat)
    requires length >= 0 && Dispatched(Fires(dispatched, a), 0, n)
    ensures FiresBetween(dispatched, a.id, 0, length) == n
  {
    var fires := Fires(dispatched, a);
    FilterWithin(FiredIn(a.id, 0, 0 + length), FiredBy(a.id), dispatched);
    FilterMember(FiredBy(a.id), dispatched);
    forall r | r in fires ensures FiredIn(a.id, 0, 0 + length)(r) {
      var i :| 0 <= i < n && fires[i] == r;
      assert FiredBy(a.id)(r);
    }
    FilterAll(FiredIn(a.id, 0, 0 + length), fires);
  }

  lemma TooManyBreakALimit(dispatched: seq<Row<Run>>, a: Automation, lag: nat)
    requires Limited(a, lag) && Dispatched(Fires(dispatched, a), TooSoon(a, lag), TooMany(a))
    ensures !LimitsHold(dispatched, a, lag)
  {
    var fires := Fires(dispatched, a);
    if CapInForce(a) && CapSpan(a) >= lag {
      OneMomentFills(dispatched, a, CapSpan(a) - lag, TooMany(a));
    } else if BreakerInForce(a) && BreakerSpan(a) >= lag {
      OneMomentFills(dispatched, a, BreakerSpan(a) - lag, TooMany(a));
    } else {
      assert fires[1].time - fires[0].time < a.cooldownSeconds.value * SECOND - lag;
    }
  }

  // ------------------------------------------------- the automations that never dispatch

  lemma {:induction false} NeverFiringDispatchesNothing(order: seq<Automation>, a: Automation, passes: seq<Pass>)
    requires !CanFire(a) && forall b :: b in order && b.id == a.id ==> b == a
    ensures Fires(AfterPasses(order, passes).dispatched, a) == []
  {
    if passes != [] {
      var init, last := passes[..|passes| - 1], passes[|passes| - 1];
      var before := AfterPasses(order, init);
      NeverFiringDispatchesNothing(order, a, init);
      NothingDispatchedWithin(before, order, a, last.occasion, Stop(order, Asked(before, order, last)));
    }
  }

  lemma {:induction false} NothingDispatchedWithin(w: World, order: seq<Automation>, a: Automation, o: Occasion, n: nat)
    requires !CanFire(a) && (forall b :: b in order && b.id == a.id ==> b == a) && n <= |order|
    ensures Fires(Within(w, order, o, n).dispatched, a) == Fires(w.dispatched, a)
  {
    if n > 0 {
      NothingDispatchedWithin(w, order, a, o, n - 1);
      var before := Within(w, order, o, n - 1);
      var run := Recorded(before.log, StepOn(o)(order[n - 1]));
      assert order[n - 1] in order;
      if run.Some? {
        FilterAppend(FiredBy(a.id), before.dispatched, run.value);
      }
    }
  }

  lemma NoFiresKeepLimits(dispatched: seq<Row<Run>>, a: Automation, lag: nat)
    requires Fires(dispatched, a) == []
    ensures LimitsHold(dispatched, a, lag)
  {
    assert LimitsHold([], a, lag);
    LimitsReadFires([], dispatched, a, lag);
  }

  // ------------------------------------------------- the exact condition

  ghost predicate DispatchesKeepLimits(order: seq<Automation>, a: Automation, kinds: iset<Kind>, lag: nat) {
    forall passes :: Possible(passes, kinds, lag) ==> LimitsHold(AfterPasses(order, passes).dispatched, a, lag)
  }

  ghost predicate SomeKindSpoils(order: seq<Automation>, p: nat, kinds: iset<Kind>)
    requires p < |order|
  {
    exists k :: k in kinds && Spoils(order, p, k)
  }

  lemma SpoiledPassesArePossible(k: Kind, kinds: iset<Kind>, later: int, n: nat, lag: nat)
    requires k in kinds
    ensures Possible(SpoiledPasses(k, later, n), kinds, lag)
  {
    forall pass | pass in SpoiledPasses(k, later, n)
      ensures Kind(pass.occasion.passing, pass.raising) in kinds && pass.occasion.stamp >= pass.occasion.now - lag
    {
      var i :| 0 <= i < n && SpoiledPasses(k, later, n)[i] == pass;
      assert pass == SpoiledAt(k, if i == 0 then 0 else later);
    }
  }

  lemma SpoilingBreaksALimit(order: seq<Automation>, p: nat, k: Kind, kinds: iset<Kind>, lag: nat)
    requires DifferentIds(order) && AllValidated(order) && p < |order| && k in kinds && Spoils(order, p, k)
    requires CanFire(order[p]) && Limited(order[p], lag)
    ensures !DispatchesKeepLimits(order, order[p], kinds, lag)
  {
    var a := order[p];
    var passes := SpoiledPasses(k, TooSoon(a, lag), TooMany(a));
    SpoiledPassesArePossible(k, kinds, TooSoon(a, lag), TooMany(a), lag);
    SpoiledPassesDispatch(order, p, k, TooSoon(a, lag), TooMany(a));
    TooManyBreakALimit(AfterPasses(order, passes).dispatched, a, lag);
  }

  /** The limits bound what an automation dispatches, over all passes of the possible kinds, if and only if no
      kind makes its conditions hold and a later automation's raise, with nothing earlier raising first (or the
      automation cannot fire, or has no limit to speak of): an aborted pass forgets what it has already sent. */
  lemma DispatchesKeepLimitsIffNoKindSpoils(order: seq<Automation>, p: nat, kinds: iset<Kind>, lag: nat)
    requires DifferentIds(order) && AllValidated(order) && Steadfast(order, kinds) && p < |order|
    ensures DispatchesKeepLimits(order, order[p], kinds, lag)
       <==> !SomeKindSpoils(order, p, kinds) || !CanFire(order[p]) || !Limited(order[p], lag)
  {
    var a := order[p];
    if !SomeKindSpoils(order, p, kinds) || !CanFire(a) || !Limited(a, lag) {
      forall passes | Possible(passes, kinds, lag) ensures LimitsHold(AfterPasses(order, passes).dispatched, a, lag) {
        if !Limited(a, lag) {
          UnlimitedHolds(AfterPasses(order, passes).dispatched, a, lag);
        } else if !CanFire(a) {
          NeverFiringDispatchesNothing(order, a, passes);
          NoFiresKeepLimits(AfterPasses(order, passes).dispatched, a, lag);
        } else {
          PassesStayInStep(order, p, passes, kinds, lag);
          LimitsReadFires(AfterPasses(order, passes).log.rows, AfterPasses(order, passes).dispatched, a, lag);
        }
      }
    } else {
      var k :| k in kinds && Spoils(order, p, k);
      SpoilingBreaksALimit(order, p, k, kinds, lag);
    }
  }
}
