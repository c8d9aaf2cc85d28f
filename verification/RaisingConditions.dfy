/** Which events make a pass dispatch and then abort: all its automations read one event, and what they are created
    with is not looked into before (src/taskowl/automations.py:34-62). */
module RaisingConditions {
  import opened Rows
  import opened Values
  import opened Workflow
  import opened FireTimes
  import opened Interpolation
  import opened Conditions
  import opened Aborted

  /** What an automation is stored with: its conditions and its breaker's settings, as JSON. */
  datatype Definition = Definition(conditions: seq<Value>, breaker: Value)

  /** The stored definitions, by automation id. An automation's own breaker is what the checks read of these
      settings when they can. */
  type Book = int -> Definition

  /** _check_circuit_breaker on settings it cannot use: no dict, or a window that is no number of seconds or a
      threshold that no count compares with. */
  predicate BreakerRaises(config: Value) {
    && Truth(config)
    && (config.Dict? ==>
          var threshold, window := Get(config.entries, "failure_threshold"), Get(config.entries, "window_seconds");
          Truth(threshold) && Truth(window) && !(IsNumeric(threshold) && IsNumeric(window)))
  }

  /** What an automation's turn makes of an event: its breaker is asked once its conditions hold. */
  function VerdictOf(p: Patterns, book: Book, event: Value, a: Automation): Verdict {
    var conditions := AllHold(p, event, book(a.id).conditions);
    if conditions == Holds && BreakerRaises(book(a.id).breaker) then Raises else conditions
  }

  /** What one event makes of the conditions of a pass. */
  function KindOf(p: Patterns, book: Book, order: seq<Automation>, event: Value): Kind {
    Kind(set a | a in order && VerdictOf(p, book, event, a) == Holds :: a.id,
         set a | a in order && VerdictOf(p, book, event, a) == Raises :: a.id)
  }

  ghost function KindsOf(p: Patterns, book: Book, order: seq<Automation>, events: iset<Value>): iset<Kind> {
    iset e | e in events :: KindOf(p, book, order, e)
  }

  /** On this event the automation's turn goes through, none before it raises, and one after it does. */
  ghost predicate SpoiledBy(p: Patterns, book: Book, order: seq<Automation>, i: nat, event: Value)
    requires i < |order|
  {
    && VerdictOf(p, book, event, order[i]) == Holds
    && (forall j :: 0 <= j < i ==> VerdictOf(p, book, event, order[j]) != Raises)
    && exists q :: i < q < |order| && VerdictOf(p, book, event, order[q]) == Raises
  }

  lemma KindByPosition(p: Patterns, book: Book, order: seq<Automation>, event: Value, j: nat)
    requires DifferentIds(order) && j < |order|
    ensures order[j].id in KindOf(p, book, order, event).passing <==> VerdictOf(p, book, event, order[j]) == Holds
    ensures order[j].id in KindOf(p, book, order, event).raising <==> VerdictOf(p, book, event, order[j]) == Raises
  {
    assert order[j] in order;
    forall a | a in order && a.id == order[j].id ensures a == order[j] {
      var i :| 0 <= i < |order| && order[i] == a;
      assert i < j || j < i || i == j;
    }
  }

  lemma SpoilsByPosition(order: seq<Automation>, i: nat, k: Kind, verdicts: seq<Verdict>)
    requires i < |order| == |verdicts| && (order[i].id in k.passing <==> verdicts[i] == Holds)
    requires forall j :: 0 <= j < |order| ==> (order[j].id in k.raising <==> verdicts[j] == Raises)
    ensures Spoils(order, i, k) <==>
            && verdicts[i] == Holds && (forall j :: 0 <= j < i ==> verdicts[j] != Raises)
            && exists q :: i < q < |order| && verdicts[q] == Raises
  {
    var stop := Stop(order, k.raising);
    assert stop < |order| ==> verdicts[stop] == Raises;
  }

  lemma SpoilsMeans(p: Patterns, book: Book, order: seq<Automation>, i: nat, event: Value)
    requires DifferentIds(order) && i < |order|
    ensures Spoils(order, i, KindOf(p, book, order, event)) <==> SpoiledBy(p, book, order, i, event)
  {
    var verdicts := seq(|order|, j requires 0 <= j < |order| => VerdictOf(p, book, event, order[j]));
    KindByPosition(p, book, order, event, i);
    forall j | 0 <= j < |order|
      ensures order[j].id in KindOf(p, book, order, event).raising <==> verdicts[j] == Raises
    {
      KindByPosition(p, book, order, event, j);
    }
    SpoilsByPosition(order, i, KindOf(p, book, order, event), verdicts);
    SpoiledByPosition(p, book, order, i, event, verdicts);
  }

  lemma SpoiledByPosition(p: Patterns, book: Book, order: seq<Automation>, i: nat, event: Value, verdicts: seq<Verdict>)
    requires i < |order| == |verdicts|
    requires forall j :: 0 <= j < |order| ==> verdicts[j] == VerdictOf(p, book, event, order[j])
    ensures SpoiledBy(p, book, order, i, event) <==>
            && verdicts[i] == Holds && (forall j :: 0 <= j < i ==> verdicts[j] != Raises)
            && exists q :: i < q < |order| && verdicts[q] == Raises
  {
    if q :| i < q < |order| && verdicts[q] == Raises {
      assert VerdictOf(p, book, event, order[q]) == Raises;
    }
  }

  /** The events a pass can be about: any, for event automations; the empty one, for periodic ones. */
  ghost predicate Heard(order: seq<Automation>, events: iset<Value>) {
    (forall a :: a in order ==> a.trigger.OnEvent?) || events == iset{Dict([])}
  }

  lemma HeardIsSteadfast(p: Patterns, book: Book, order: seq<Automation>, events: iset<Value>)
    requires Heard(order, events)
    ensures Steadfast(order, KindsOf(p, book, order, events))
  {
    if events == iset{Dict([])} {
      forall k | k in KindsOf(p, book, order, events) ensures k == KindOf(p, book, order, Dict([])) {
      }
    }
  }

  /** The limits bound what an automation dispatches if and only if no event that can be heard makes its
      conditions hold and a later automation's conditions or breaker raise, with nothing earlier raising first. */
  lemma DispatchesKeepLimitsIffNoEventSpoils(p: Patterns, book: Book, order: seq<Automation>, events: iset<Value>,
                                             i: nat, lag: nat)
    requires DifferentIds(order) && AllValidated(order) && Heard(order, events) && i < |order|
    requires CanFire(order[i]) && Limited(order[i], lag)
    ensures DispatchesKeepLimits(order, order[i], KindsOf(p, book, order, events), lag)
       <==> !exists e :: e in events && SpoiledBy(p, book, order, i, e)
  {
    var kinds := KindsOf(p, book, order, events);
    HeardIsSteadfast(p, book, order, events);
    DispatchesKeepLimitsIffNoKindSpoils(order, i, kinds, lag);
    if e :| e in events && SpoiledBy(p, book, order, i, e) {
      SpoilsMeans(p, book, order, i, e);
      assert KindOf(p, book, order, e) in kinds;
    } else {
      forall k | k in kinds ensures !Spoils(order, i, k) {
        var e :| e in events && KindOf(p, book, order, e) == k;
        SpoilsMeans(p, book, order, i, e);
      }
    }
  }

  /** Nothing the automation is stored with can raise on any event. */
  predicate Sound(p: Patterns, d: Definition) {
    !BreakerRaises(d.breaker) && forall c :: c in d.conditions ==> !CanRaiseStored(p, c)
  }

  lemma {:induction false} SoundConditionsDoNotRaise(p: Patterns, event: Value, conditions: seq<Value>)
    requires OnlyPatternsRaise(p) && event.Dict? && forall c :: c in conditions ==> !CanRaiseStored(p, c)
    ensures AllHold(p, event, conditions) != Raises
  {
    if conditions != [] {
      assert conditions[0] in conditions;
      RaisesOnSomeEventIff(p, conditions[0]);
      SoundConditionsDoNotRaise(p, event, conditions[1..]);
    }
  }

  /** So the limits hold wherever everything after the automation is sound: that can be read off what is stored. */
  lemma SoundDefinitionsKeepLimits(p: Patterns, book: Book, order: seq<Automation>, events: iset<Value>, i: nat,
                                   lag: nat)
    requires OnlyPatternsRaise(p) && DifferentIds(order) && AllValidated(order) && Heard(order, events) && i < |order|
    requires CanFire(order[i]) && Limited(order[i], lag) && forall e :: e in events ==> e.Dict?
    requires forall j :: i < j < |order| ==> Sound(p, book(order[j].id))
    ensures DispatchesKeepLimits(order, order[i], KindsOf(p, book, order, events), lag)
  {
    forall e, j | e in events && i < j < |order| ensures VerdictOf(p, book, e, order[j]) != Raises {
      SoundConditionsDoNotRaise(p, e, book(order[j].id).conditions);
    }
    DispatchesKeepLimitsIffNoEventSpoils(p, book, order, events, i, lag);
  }

  // ------------------------------------------------- three examples

  /** Twice an hour, and nothing else. */
  function TwiceAnHour(id: int): Automation {
    Automation(id, true, OnEvent("task-failed"), None, Some(2), Some(3600), None)
  }

  function Named(name: string): Value {
    Stored("name", "eq", Text(name))
  }

  lemma NamedReads(name: string)
    ensures Read(Named(name)) == Readable(Condition("name", Eq, Text(name)))
  {
    ReadStored("name", "eq", Text(name));
  }

  function Above(field: string, value: Value): Value {
    Stored(field, "gt", value)
  }

  lemma {:induction false} OnePart(field: string)
    requires '.' !in field
    ensures Split(field) == [field]
  {
    if field != "" {
      OnePart(field[1..]);
      assert field == [field[0]] + field[1..];
    }
  }

  lemma TextsAgainstNumbers()
    ensures SafeCompare(List([Text("a")]), List([Number(1.0)]))
    ensures Compare(List([Text("a")]), List([Number(1.0)])) == TypeError
  {
    assert !Equals(Text("a"), Number(1.0)) && Compare(Text("a"), Number(1.0)) == TypeError;
  }

  /** A failure of x whose info is a list of texts. */
  function TextualFailure(): Value {
    Dict([Entry("name", Text("x")), Entry("info", List([Text("a")]))])
  }

  lemma FieldsOfTheFailure()
    ensures Resolve(TextualFailure(), "name") == Text("x")
    ensures Resolve(TextualFailure(), "info") == List([Text("a")])
  {
    OnePart("name");
    OnePart("info");
    var entries := TextualFailure().entries;
    assert Get(entries, "name") == Text("x");
    assert Get(entries, "info") == Get(entries[1..], "info");
    assert Walk(TextualFailure(), ["name"]) == Walk(Get(entries, "name"), ["name"][1..]);
    assert Walk(TextualFailure(), ["info"]) == Walk(Get(entries, "info"), ["info"][1..]);
  }

  lemma OneCondition(p: Patterns, event: Value, c: Value)
    ensures AllHold(p, event, [c]) == EvaluateStored(p, event, c)
  {
  }

  lemma FailureHoldsAndRaises(p: Patterns)
    ensures AllHold(p, TextualFailure(), [Named("x")]) == Holds
    ensures AllHold(p, TextualFailure(), [Above("info", List([Number(1.0)]))]) == Raises
  {
    FieldsOfTheFailure();
    OneCondition(p, TextualFailure(), Named("x"));
    OneCondition(p, TextualFailure(), Above("info", List([Number(1.0)])));
    StoredEvaluates(p, TextualFailure(), "name", "eq", Text("x"));
    ListAgainstNumbersRaises(p, TextualFailure(), "info");
  }

  lemma ListAgainstNumbersRaises(p: Patterns, event: Value, field: string)
    requires field != "" && Resolve(event, field) == List([Text("a")])
    ensures EvaluateStored(p, event, Above(field, List([Number(1.0)]))) == Raises
  {
    StoredEvaluates(p, event, field, "gt", List([Number(1.0)]));
    TextsAgainstNumbers();
  }

  /** The first automation asks for the name x, the second compares `info` with a list of numbers: such a failure
      dispatches the first and aborts the pass, so nothing bounds what the first dispatches. */
  lemma AComparisonCanSpoil(p: Patterns, book: Book)
    requires book(1) == Definition([Named("x")], Null)
    requires book(2) == Definition([Above("info", List([Number(1.0)]))], Null)
    ensures var order := [TwiceAnHour(1), TwiceAnHour(2)];
            && SpoiledBy(p, book, order, 0, TextualFailure())
            && !DispatchesKeepLimits(order, order[0], KindsOf(p, book, order, iset{TextualFailure()}), 0)
  {
    var order := [TwiceAnHour(1), TwiceAnHour(2)];
    FailureHoldsAndRaises(p);
    assert VerdictOf(p, book, TextualFailure(), order[1]) == Raises;
    DispatchesKeepLimitsIffNoEventSpoils(p, book, order, iset{TextualFailure()}, 0, 0);
  }

  lemma XIsNotY(p: Patterns, event: Value, rest: seq<Value>)
    requires AllHold(p, event, [Named("x")]) == Holds
    ensures AllHold(p, event, [Named("y")] + rest) == Fails
  {
    NamedReads("x");
    NamedReads("y");
    OneCondition(p, event, Named("x"));
    assert Resolve(event, "name") == Text("x");
  }

  /** The second automation can raise, but only on events the first does not fire on: its first condition asks for
      another name, and a condition that fails keeps the malformed pattern behind it from being read. */
  lemma AGuardedPatternIsHarmless(p: Patterns, book: Book, events: iset<Value>, lag: nat)
    requires book(1) == Definition([Named("x")], Null) && Malformed(p, "[")
    requires book(2) == Definition([Named("y"), Stored("name", "matches", Text("["))], Null)
    requires lag <= 3600 * SECOND
    ensures var order := [TwiceAnHour(1), TwiceAnHour(2)];
            && CanRaiseStored(p, book(2).conditions[1])
            && DispatchesKeepLimits(order, order[0], KindsOf(p, book, order, events), lag)
  {
    var order := [TwiceAnHour(1), TwiceAnHour(2)];
    var pattern := Stored("name", "matches", Text("["));
    ReadStored("name", "matches", Text("["));
    assert [Named("y")] + [pattern] == [Named("y"), pattern];
    forall e | e in events ensures !SpoiledBy(p, book, order, 0, e) {
      if VerdictOf(p, book, e, order[0]) == Holds {
        XIsNotY(p, e, [pattern]);
        assert VerdictOf(p, book, e, order[1]) == Fails;
      }
    }
    DispatchesKeepLimitsIffNoEventSpoils(p, book, order, events, 0, lag);
  }

  /** Breaker settings of a threshold and a window raise exactly when both are true in Python and one is no number. */
  lemma BreakerSettingsRaiseIff(threshold: Value, window: Value)
    ensures BreakerRaises(Dict([Entry("failure_threshold", threshold), Entry("window_seconds", window)])) <==>
              && threshold !in {Null, Bool(false), Number(0.0), Text(""), List([]), Dict([])}
              && window !in {Null, Bool(false), Number(0.0), Text(""), List([]), Dict([])}
              && (threshold.Text? || threshold.List? || threshold.Dict? || window.Text? || window.List? || window.Dict?)
  {
    var entries := [Entry("failure_threshold", threshold), Entry("window_seconds", window)];
    assert Get(entries, "failure_threshold") == threshold;
    assert Get(entries, "window_seconds") == Get(entries[1..], "window_seconds") == window;
  }

  /** A threshold that is a text. */
  function TextThreshold(): Value {
    Dict([Entry("failure_threshold", Text("3")), Entry("window_seconds", Number(300.0))])
  }

  lemma TextThresholdRaises()
    ensures BreakerRaises(TextThreshold())
  {
    var entries := TextThreshold().entries;
    assert Get(entries, "window_seconds") == Get(entries[1..], "window_seconds") == Number(300.0);
  }

  /** The second automation has no conditions and a breaker that is accepted and cannot be used: every event that
      dispatches the first aborts its pass, though no condition raises. */
  lemma ABreakerCanSpoil(p: Patterns, book: Book, event: Value, lag: nat)
    requires VerdictOf(p, book, event, TwiceAnHour(1)) == Holds && book(2) == Definition([], TextThreshold())
    requires lag <= 3600 * SECOND
    ensures var order := [TwiceAnHour(1), TwiceAnHour(2)];
            && SpoiledBy(p, book, order, 0, event)
            && !DispatchesKeepLimits(order, order[0], KindsOf(p, book, order, iset{event}), lag)
  {
    var order := [TwiceAnHour(1), TwiceAnHour(2)];
    TextThresholdRaises();
    assert VerdictOf(p, book, event, order[1]) == Raises;
    DispatchesKeepLimitsIffNoEventSpoils(p, book, order, iset{event}, 0, lag);
  }
}
