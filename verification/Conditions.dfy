/** Conditions `{field, op, value}` on an event (src/taskowl/workflow.py). */
module Conditions {
  import opened Rows
  import opened Values
  import opened Interpolation

  datatype Verdict = Holds | Fails | Raises

  datatype Operator =
    Eq | Neq | Gt | Gte | Lt | Lte | Contains | MatchesPattern | In | Exists | Unsupported

  datatype Condition = Condition(field: string, op: Operator, value: Value)

  /** re.search, which raises on a malformed pattern, and str(). */
  datatype Patterns = Patterns(search: (string, string) -> Verdict, show: Value -> string)

  predicate IsNumeric(v: Value) {
    v.Number? || v.Bool?
  }

  /** Booleans are integers. */
  function AsNumber(v: Value): real
    requires IsNumeric(v)
  {
    match v
    case Number(n) => n
    case Bool(b) => if b then 1.0 else 0.0
  }

  predicate HasEntry(entries: seq<Entry>, key: string) {
    exists i :: 0 <= i < |entries| && entries[i].key == key
  }

  /** Python ==; dicts compare as mappings, whatever their order. */
  predicate Equals(v: Value, w: Value) {
    if IsNumeric(v) && IsNumeric(w) then AsNumber(v) == AsNumber(w)
    else
      match v
      case List(items) =>
        w.List? && |items| == |w.items| && forall i :: 0 <= i < |items| ==> Equals(items[i], w.items[i])
      case Dict(entries) =>
        w.Dict? && |entries| == |w.entries| &&
        forall i :: 0 <= i < |entries| ==>
          HasEntry(w.entries, entries[i].key) && Equals(entries[i].value, Get(w.entries, entries[i].key))
      case Text(s) => w.Text? && w.text == s
      case _ => v == w
  }

  datatype Comparison = Less | Same | Greater | TypeError

  function Flip(o: Comparison): Comparison {
    match o
    case Less => Greater
    case Greater => Less
    case _ => o
  }

  function CompareNumbers(m: real, n: real): Comparison {
    if m < n then Less else if m > n then Greater else Same
  }

  function CompareTexts(s: string, t: string): Comparison {
    if s == "" then (if t == "" then Same else Less)
    else if t == "" then Greater
    else if s[0] < t[0] then Less
    else if s[0] > t[0] then Greater
    else CompareTexts(s[1..], t[1..])
  }

  /** Python <, ==, > on two values; lists are decided by their first unequal items. */
  function Compare(v: Value, w: Value): Comparison
    decreases v, 1
  {
    if IsNumeric(v) && IsNumeric(w) then CompareNumbers(AsNumber(v), AsNumber(w))
    else if v.Text? && w.Text? then CompareTexts(v.text, w.text)
    else if v.List? && w.List? then CompareItems(v, v.items, w.items)
    else TypeError
  }

  function CompareItems(whole: Value, items: seq<Value>, others: seq<Value>): Comparison
    requires forall i :: 0 <= i < |items| ==> items[i] < whole
    decreases whole, 0, |items|
  {
    if items == [] then (if others == [] then Same else Less)
    else if others == [] then Greater
    else if Equals(items[0], others[0]) then CompareItems(whole, items[1..], others[1..])
    else Compare(items[0], others[0])
  }

  /** _safe_compare */
  predicate SafeCompare(actual: Value, value: Value) {
    && !actual.Null? && !value.Null?
    && ((IsNumeric(actual) && IsNumeric(value)) || (actual.Text? && value.Text?)
        || (actual.List? && value.List?) || (actual.Dict? && value.Dict?))
  }

  function Verdicted(b: bool): Verdict {
    if b then Holds else Fails
  }

  function OrderedVerdict(actual: Value, value: Value, wanted: set<Comparison>): Verdict {
    if !SafeCompare(actual, value) then Fails
    else if Compare(actual, value) == TypeError then Raises
    else Verdicted(Compare(actual, value) in wanted)
  }

  predicate HasItem(items: seq<Value>, v: Value) {
    exists i :: 0 <= i < |items| && Equals(items[i], v)
  }

  predicate OccursIn(part: string, s: string) {
    exists i :: 0 <= i <= |s| && part <= s[i..]
  }

  /** evaluate_condition */
  function EvaluateCondition(p: Patterns, event: Value, c: Condition): Verdict {
    if c.field == "" || c.op == Unsupported then Fails
    else
      var actual, value := Resolve(event, c.field), c.value;
      match c.op
      case Exists => Verdicted(!actual.Null?)
      case Eq => Verdicted(Equals(actual, value))
      case Neq => Verdicted(!Equals(actual, value))
      case Gt => OrderedVerdict(actual, value, {Greater})
      case Gte => OrderedVerdict(actual, value, {Greater, Same})
      case Lt => OrderedVerdict(actual, value, {Less})
      case Lte => OrderedVerdict(actual, value, {Less, Same})
      case Contains =>
        if actual.Text? && value.Text? then Verdicted(OccursIn(value.text, actual.text))
        else if actual.List? then Verdicted(HasItem(actual.items, value))
        else if actual.Dict? then
          if value.List? || value.Dict? then Raises
          else Verdicted(value.Text? && HasEntry(actual.entries, value.text))
        else Fails
      case MatchesPattern =>
        if value.Text? then p.search(value.text, if Truth(actual) then p.show(actual) else "") else Fails
      case In => Verdicted(value.List? && HasItem(value.items, actual))
      case Unsupported => Fails
  }

  /** The operator that an `op` entry names. */
  function OperatorOf(op: Value): Operator {
    if !op.Text? then Unsupported
    else if op.text == "eq" then Eq
    else if op.text == "neq" then Neq
    else if op.text == "gt" then Gt
    else if op.text == "gte" then Gte
    else if op.text == "lt" then Lt
    else if op.text == "lte" then Lte
    else if op.text == "contains" then Contains
    else if op.text == "matches" then MatchesPattern
    else if op.text == "in" then In
    else if op.text == "exists" then Exists
    else Unsupported
  }

  datatype Reading = Readable(condition: Condition) | Unreadable

  /** A condition is stored as whatever JSON it was created from. One that is no dict has no entries to get, and
      a field that is true but no text cannot be split, once the operator is found supported. */
  function Read(stored: Value): Reading {
    if !stored.Dict? then Unreadable
    else
      var field, op := Get(stored.entries, "field"), OperatorOf(Get(stored.entries, "op"));
      if field.Text? then Readable(Condition(field.text, op, Get(stored.entries, "value")))
      else if Truth(field) && op != Unsupported then Unreadable
      else Readable(Condition("", op, Get(stored.entries, "value")))
  }

  function EvaluateStored(p: Patterns, event: Value, stored: Value): Verdict {
    match Read(stored)
    case Readable(c) => EvaluateCondition(p, event, c)
    case Unreadable => Raises
  }

  /** all(...) over an automation's conditions: it stops at the first that fails or raises. */
  function AllHold(p: Patterns, event: Value, conditions: seq<Value>): Verdict {
    if conditions == [] then Holds
    else
      var first := EvaluateStored(p, event, conditions[0]);
      if first == Holds then AllHold(p, event, conditions[1..]) else first
  }

  predicate Malformed(p: Patterns, pattern: string) {
    p.search(pattern, "") == Raises
  }

  /** Whether a search raises is a matter of the pattern alone. */
  ghost predicate OnlyPatternsRaise(p: Patterns) {
    forall pattern, text :: p.search(pattern, text) == Raises <==> Malformed(p, pattern)
  }

  /** The conditions that can raise: an ordering against a dict or a non-empty list, `contains` of something a
      dict cannot hold as a key, and a malformed pattern. */
  predicate CanRaise(p: Patterns, c: Condition) {
    && c.field != ""
    && match c.op
       case Gt | Gte | Lt | Lte => c.value.Dict? || (c.value.List? && c.value.items != [])
       case Contains => c.value.List? || c.value.Dict?
       case MatchesPattern => c.value.Text? && Malformed(p, c.value.text)
       case _ => false
  }

  function Nest(parts: seq<string>, v: Value): Value {
    if parts == [] then v else Dict([Entry(parts[0], Nest(parts[1..], v))])
  }

  lemma {:induction false} WalkNest(parts: seq<string>, v: Value)
    ensures Walk(Nest(parts, v), parts) == v
  {
    if parts != [] {
      WalkNest(parts[1..], v);
    }
  }

  /** What a field has to hold for the condition to raise. */
  function Upsetting(c: Condition): Value {
    match c.op
    case Contains => Dict([])
    case MatchesPattern => Null
    case _ =>
      if c.value.List? && c.value.items != [] then List([if c.value.items[0].Null? then Bool(true) else Null])
      else Dict([])
  }

  lemma UpsettingItem(item: Value)
    ensures var x := if item.Null? then Bool(true) else Null; !Equals(x, item) && Compare(x, item) == TypeError
  {
  }

  lemma UpsettingRaises(p: Patterns, c: Condition)
    requires CanRaise(p, c)
    ensures var v := Upsetting(c);
            match c.op
            case Contains => v.Dict?
            case MatchesPattern => !Truth(v)
            case _ => SafeCompare(v, c.value) && Compare(v, c.value) == TypeError
  {
    if c.op != Contains && c.op != MatchesPattern && c.value.List? {
      UpsettingItem(c.value.items[0]);
    }
  }

  lemma OrderingRaises(actual: Value, value: Value)
    requires SafeCompare(actual, value) && Compare(actual, value) == TypeError
    ensures value.Dict? || (value.List? && value.items != [])
  {
    if actual.Text? && value.Text? {
      CompareTextsIsAnOrder(actual.text, value.text);
    }
  }

  lemma ReadableRaisesIff(p: Patterns, c: Condition)
    requires OnlyPatternsRaise(p)
    ensures (exists event: Value :: event.Dict? && EvaluateCondition(p, event, c) == Raises) <==> CanRaise(p, c)
  {
    if CanRaise(p, c) {
      var event := Nest(Split(c.field), Upsetting(c));
      WalkNest(Split(c.field), Upsetting(c));
      UpsettingRaises(p, c);
      assert event.Dict? && EvaluateCondition(p, event, c) == Raises;
    }
    forall event: Value | EvaluateCondition(p, event, c) == Raises ensures CanRaise(p, c) {
      var actual := Resolve(event, c.field);
      if SafeCompare(actual, c.value) && Compare(actual, c.value) == TypeError {
        OrderingRaises(actual, c.value);
      }
    }
  }

  /** The stored conditions that can raise: what is no dict, a field that is true but no text under a supported
      operator, and those above. */
  predicate CanRaiseStored(p: Patterns, stored: Value) {
    stored.Dict? ==>
      var field, op := Get(stored.entries, "field"), OperatorOf(Get(stored.entries, "op"));
      && Truth(field) && op != Unsupported
      && (field.Text? ==> CanRaise(p, Condition(field.text, op, Get(stored.entries, "value"))))
  }

  /** A stored condition raises on some event if and only if it is one of those; one that cannot be read does on
      every event. */
  lemma RaisesOnSomeEventIff(p: Patterns, stored: Value)
    requires OnlyPatternsRaise(p)
    ensures (exists event: Value :: event.Dict? && EvaluateStored(p, event, stored) == Raises)
       <==> CanRaiseStored(p, stored)
    ensures Read(stored).Unreadable? ==>
              forall event: Value :: event.Dict? ==> EvaluateStored(p, event, stored) == Raises
  {
    match Read(stored)
    case Unreadable => assert Dict([]).Dict? && EvaluateStored(p, Dict([]), stored) == Raises;
    case Readable(c) =>
      ReadableRaisesIff(p, c);
      if event: Value :| event.Dict? && EvaluateCondition(p, event, c) == Raises {
        assert EvaluateStored(p, event, stored) == Raises;
      }
  }

  /** Exactly which conditions a periodic automation, evaluated against an empty event, can pass: none that
      needs a field, and in particular no ordering and no `exists`. */
  lemma ConditionsOnAnEmptyEvent(p: Patterns, c: Condition)
    ensures EvaluateCondition(p, Dict([]), c) == Holds <==>
      c.field != "" &&
      match c.op
      case Eq => c.value.Null?
      case Neq => !c.value.Null?
      case MatchesPattern => c.value.Text? && p.search(c.value.text, "") == Holds
      case In => c.value.List? && exists i :: 0 <= i < |c.value.items| && c.value.items[i].Null?
      case _ => false
  {
    NothingResolvesInAnEmptyEvent(c.field);
    if c.value.List? {
      forall i | 0 <= i < |c.value.items| ensures Equals(c.value.items[i], Null) == c.value.items[i].Null? {
      }
    }
  }

  lemma {:induction false} CompareTextsIsAnOrder(s: string, t: string)
    ensures CompareTexts(s, t) == Same <==> s == t
    ensures CompareTexts(t, s) == Flip(CompareTexts(s, t))
    ensures CompareTexts(s, t) != TypeError
  {
    if s != "" && t != "" {
      CompareTextsIsAnOrder(s[1..], t[1..]);
      assert s == [s[0]] + s[1..] && t == [t[0]] + t[1..];
    }
  }

  lemma {:induction false} SameMeansEqual(v: Value, w: Value)
    requires Compare(v, w) != TypeError
    ensures Compare(v, w) == Same <==> Equals(v, w)
    decreases v, 1
  {
    if v.Text? && w.Text? {
      CompareTextsIsAnOrder(v.text, w.text);
    } else if v.List? && w.List? {
      SameItemsMeanEqual(v, v.items, w.items);
    }
  }

  lemma {:induction false} SameItemsMeanEqual(whole: Value, items: seq<Value>, others: seq<Value>)
    requires forall i :: 0 <= i < |items| ==> items[i] < whole
    requires CompareItems(whole, items, others) != TypeError
    ensures CompareItems(whole, items, others) == Same
       <==> |items| == |others| && forall i :: 0 <= i < |items| ==> Equals(items[i], others[i])
    decreases whole, 0, |items|
  {
    if items != [] && others != [] {
      if Equals(items[0], others[0]) {
        SameItemsMeanEqual(whole, items[1..], others[1..]);
        assert forall i :: 0 < i < |items| ==> items[i] == items[1..][i - 1];
        assert forall i :: 0 < i < |others| ==> others[i] == others[1..][i - 1];
      } else {
        SameMeansEqual(items[0], others[0]);
      }
    }
  }

  /** On values that can be ordered, at any nesting of lists, exactly one of lt, eq and gt holds, and lte
      and gte are what they say; the two that raise are all four together. */
  lemma OrderingOperatorsAgree(p: Patterns, event: Value, field: string, value: Value)
    requires field != "" && SafeCompare(Resolve(event, field), value)
    ensures var lt := EvaluateCondition(p, event, Condition(field, Lt, value));
            var gt := EvaluateCondition(p, event, Condition(field, Gt, value));
            var lte := EvaluateCondition(p, event, Condition(field, Lte, value));
            var gte := EvaluateCondition(p, event, Condition(field, Gte, value));
            var eq := EvaluateCondition(p, event, Condition(field, Eq, value));
            if Compare(Resolve(event, field), value) == TypeError then lt == gt == lte == gte == Raises
            else
              && (lt == Holds ==> eq == Fails && gt == Fails)
              && (gt == Holds ==> eq == Fails)
              && (lt == Holds || eq == Holds || gt == Holds)
              && (lte == Holds <==> lt == Holds || eq == Holds)
              && (gte == Holds <==> gt == Holds || eq == Holds)
  {
    if Compare(Resolve(event, field), value) != TypeError {
      SameMeansEqual(Resolve(event, field), value);
    }
  }

  // ------------------------------------------------- what each operator means

  function Stored(field: string, op: string, value: Value): Value {
    Dict([Entry("field", Text(field)), Entry("op", Text(op)), Entry("value", value)])
  }

  lemma ReadStored(field: string, op: string, value: Value)
    ensures Read(Stored(field, op, value)) == Readable(Condition(field, OperatorOf(Text(op)), value))
  {
    var entries := Stored(field, op, value).entries;
    assert "field"[0] != "value"[0];
    assert Get(entries, "field") == Text(field);
    assert Get(entries, "op") == Get(entries[1..], "op") == Text(op);
    assert Get(entries, "value") == Get(entries[1..], "value") == Get(entries[1..][1..], "value") == value;
  }

  lemma StoredEvaluates(p: Patterns, event: Value, field: string, op: string, value: Value)
    ensures EvaluateStored(p, event, Stored(field, op, value))
         == EvaluateCondition(p, event, Condition(field, OperatorOf(Text(op)), value))
  {
    ReadStored(field, op, value);
  }

  /** A field that holds a number, against a number. */
  lemma OperatorsOnNumbers(p: Patterns, event: Value, field: string, m: real, n: real)
    requires field != "" && Resolve(event, field) == Number(m)
    ensures EvaluateStored(p, event, Stored(field, "eq", Number(n))) == if m == n then Holds else Fails
    ensures EvaluateStored(p, event, Stored(field, "neq", Number(n))) == if m != n then Holds else Fails
    ensures EvaluateStored(p, event, Stored(field, "gt", Number(n))) == if m > n then Holds else Fails
    ensures EvaluateStored(p, event, Stored(field, "gte", Number(n))) == if m >= n then Holds else Fails
    ensures EvaluateStored(p, event, Stored(field, "lt", Number(n))) == if m < n then Holds else Fails
    ensures EvaluateStored(p, event, Stored(field, "lte", Number(n))) == if m <= n then Holds else Fails
  {
    StoredEvaluates(p, event, field, "eq", Number(n));
    StoredEvaluates(p, event, field, "neq", Number(n));
    StoredEvaluates(p, event, field, "gt", Number(n));
    StoredEvaluates(p, event, field, "gte", Number(n));
    StoredEvaluates(p, event, field, "lt", Number(n));
    StoredEvaluates(p, event, field, "lte", Number(n));
  }

  /** A boolean counts as 1 or 0. */
  lemma OperatorsOnBooleans(p: Patterns, event: Value, field: string, b: bool, n: real)
    requires field != "" && Resolve(event, field) == Bool(b)
    ensures EvaluateStored(p, event, Stored(field, "eq", Bool(!b))) == Fails
    ensures EvaluateStored(p, event, Stored(field, "eq", Number(n))) == Holds <==> n == if b then 1.0 else 0.0
    ensures EvaluateStored(p, event, Stored(field, "gt", Number(n))) == Holds <==> n < if b then 1.0 else 0.0
    ensures EvaluateStored(p, event, Stored(field, "lt", Number(n))) == Holds <==> n > if b then 1.0 else 0.0
  {
    StoredEvaluates(p, event, field, "eq", Bool(!b));
    StoredEvaluates(p, event, field, "eq", Number(n));
    StoredEvaluates(p, event, field, "gt", Number(n));
    StoredEvaluates(p, event, field, "lt", Number(n));
  }

  lemma {:induction false} FirstDifferenceDecides(common: string, s: string, t: string)
    ensures CompareTexts(common + s, common + t) == CompareTexts(s, t)
  {
    if common == "" {
      assert common + s == s && common + t == t;
    } else {
      FirstDifferenceDecides(common[1..], s, t);
      assert (common + s)[1..] == common[1..] + s && (common + t)[1..] == common[1..] + t;
    }
  }

  lemma LesserText(p: Patterns, event: Value, field: string, op: string, u: string, v: string)
    requires field != "" && Resolve(event, field) == Text(u) && CompareTexts(u, v) == Less
    requires op == "lt" || op == "lte" || op == "gt" || op == "gte"
    ensures EvaluateStored(p, event, Stored(field, op, Text(v))) == if op == "lt" || op == "lte" then Holds else Fails
  {
    StoredEvaluates(p, event, field, op, Text(v));
  }

  /** A field that holds a text, against a text: the first character that differs decides, and a text comes before
      those it begins. */
  lemma OperatorsOnTexts(p: Patterns, event: Value, field: string, common: string, s: string, t: string)
    requires field != "" && Resolve(event, field) == Text(common + s) && t != "" && (s != "" ==> s[0] < t[0])
    ensures EvaluateStored(p, event, Stored(field, "lt", Text(common + t))) == Holds
    ensures EvaluateStored(p, event, Stored(field, "lte", Text(common + t))) == Holds
    ensures EvaluateStored(p, event, Stored(field, "gt", Text(common + t))) == Fails
    ensures EvaluateStored(p, event, Stored(field, "gte", Text(common + t))) == Fails
  {
    FirstDifferenceDecides(common, s, t);
    LesserText(p, event, field, "lt", common + s, common + t);
    LesserText(p, event, field, "lte", common + s, common + t);
    LesserText(p, event, field, "gt", common + s, common + t);
    LesserText(p, event, field, "gte", common + s, common + t);
  }

  /** Any field: whether it is there, and whether it matches a pattern, one that is false in Python as "". */
  lemma OperatorsOnAnything(p: Patterns, event: Value, field: string, value: Value, pattern: string)
    requires field != ""
    ensures EvaluateStored(p, event, Stored(field, "exists", value))
         == if Resolve(event, field) != Null then Holds else Fails
    ensures EvaluateStored(p, event, Stored(field, "matches", Text(pattern)))
         == p.search(pattern, if Truth(Resolve(event, field)) then p.show(Resolve(event, field)) else "")
  {
    StoredEvaluates(p, event, field, "exists", value);
    StoredEvaluates(p, event, field, "matches", Text(pattern));
  }

  /** Whether it is one of some texts. */
  lemma OperatorIn(p: Patterns, event: Value, field: string, texts: seq<string>)
    requires field != ""
    ensures EvaluateStored(p, event, Stored(field, "in", List(Apply(AsText(), texts))))
         == if Resolve(event, field).Text? && Resolve(event, field).text in texts then Holds else Fails
  {
    StoredEvaluates(p, event, field, "in", List(Apply(AsText(), texts)));
    TextsHold(texts, Resolve(event, field));
  }

  /** Whether a text has a text in it, a list has it as an item, or a dict as a key. */
  lemma OperatorContains(p: Patterns, event: Value, field: string, text: string)
    requires field != ""
    ensures EvaluateStored(p, event, Stored(field, "contains", Text(text))) != Raises
    ensures EvaluateStored(p, event, Stored(field, "contains", Text(text))) == Holds <==>
              var v := Resolve(event, field);
              || (v.Text? && exists before, after :: v.text == before + text + after)
              || (v.List? && Text(text) in v.items)
              || (v.Dict? && exists i :: 0 <= i < |v.entries| && v.entries[i].key == text)
  {
    var v := Resolve(event, field);
    StoredEvaluates(p, event, field, "contains", Text(text));
    if v.Text? {
      OccursMeans(text, v.text);
    } else if v.List? {
      TextAmong(v.items, text);
    }
  }

  function AsText(): string -> Value {
    (s: string) => Text(s)
  }

  lemma TextsHold(texts: seq<string>, v: Value)
    ensures HasItem(Apply(AsText(), texts), v) <==> v.Text? && v.text in texts
  {
    var items := Apply(AsText(), texts);
    if v.Text? && v.text in texts {
      var i :| 0 <= i < |texts| && texts[i] == v.text;
      assert Equals(items[i], v);
    }
    if HasItem(items, v) {
      var i :| 0 <= i < |items| && Equals(items[i], v);
      assert items[i] == Text(texts[i]);
    }
  }

  lemma OccursMeans(part: string, s: string)
    ensures OccursIn(part, s) <==> exists before, after :: s == before + part + after
  {
    if i :| 0 <= i <= |s| && part <= s[i..] {
      assert s == s[..i] + part + s[i..][|part|..];
    }
    if before, after :| s == before + part + after {
      assert s[|before|..] == part + after;
    }
  }

  lemma TextAmong(items: seq<Value>, text: string)
    ensures HasItem(items, Text(text)) <==> Text(text) in items
  {
    if Text(text) in items {
      var i :| 0 <= i < |items| && items[i] == Text(text);
      assert Equals(items[i], Text(text));
    }
    if HasItem(items, Text(text)) {
      var i :| 0 <= i < |items| && Equals(items[i], Text(text));
      assert items[i] == Text(text);
    }
  }
}
