/** `{event.field}` references in action parameters (src/taskowl/workflow.py). */
module Interpolation {
  import opened Values

  /** What the language supplies: the regular expression class \w, and str(). */
  datatype Language = Language(word: char -> bool, show: Value -> string)

  /** dict.get */
  function Get(entries: seq<Entry>, key: string): Value {
    if entries == [] then Null
    else if entries[0].key == key then entries[0].value
    else Get(entries[1..], key)
  }

  /** str.split(".") */
  function Split(s: string): (parts: seq<string>)
    ensures |parts| >= 1
  {
    if s == "" then [""]
    else
      var rest := Split(s[1..]);
      if s[0] == '.' then [""] + rest else [[s[0]] + rest[0]] + rest[1..]
  }

  function Walk(value: Value, parts: seq<string>): Value
    decreases |parts|
  {
    if parts == [] then value
    else if value.Dict? then Walk(Get(value.entries, parts[0]), parts[1..])
    else Null
  }

  /** The dotted path of a field, followed through nested dicts; Null when it leads nowhere. */
  function Resolve(event: Value, field: string): Value {
    Walk(event, Split(field))
  }

  /** _resolve_field */
  method ResolveField(event: Value, field: string) returns (value: Value)
    ensures value == Resolve(event, field)
  {
    var parts := Split(field);
    value := event;
    for i := 0 to |parts|
      invariant Walk(value, parts[i..]) == Resolve(event, field)
    {
      if value.Dict? {
        value := Get(value.entries, parts[i]);
        assert parts[i..][0] == parts[i] && parts[i..][1..] == parts[i + 1..];
      } else {
        return Null;
      }
    }
  }

  // ---------------------------------------------------------------- the scan

  const OPEN := "{event."

  predicate InField(l: Language, c: char) {
    l.word(c) || c == '.'
  }

  /** The text begins with a match of \{event\.([\w.]+)\} whose group is n characters long. */
  predicate MatchOf(l: Language, s: string, n: nat) {
    && n >= 1 && |s| > |OPEN| + n
    && s[..|OPEN|] == OPEN
    && (forall j :: |OPEN| <= j < |OPEN| + n ==> InField(l, s[j]))
    && s[|OPEN| + n] == '}'
  }

  predicate BeginsReference(l: Language, s: string) {
    exists n: nat :: n < |s| && MatchOf(l, s, n)
  }

  /** A piece of the scanned text: a character no match begins at, or a match. */
  datatype Piece = Literal(c: char) | Reference(field: string)

  function Raw(p: Piece): string {
    match p
    case Literal(c) => [c]
    case Reference(field) => OPEN + field + "}"
  }

  function Joined(pieces: seq<Piece>, text: Piece -> string): string {
    if pieces == [] then "" else text(pieces[0]) + Joined(pieces[1..], text)
  }

  function AsWritten(): Piece -> string {
    (p: Piece) => Raw(p)
  }

  /** How long the group of a match at the front is: up to the first character outside the class. */
  function FieldRun(l: Language, s: string): (n: nat)
    ensures n <= |s| && (n < |s| ==> !InField(l, s[n]))
    ensures forall j :: 0 <= j < n ==> InField(l, s[j])
  {
    if s == "" || !InField(l, s[0]) then 0 else 1 + FieldRun(l, s[1..])
  }

  /** re.sub's left-to-right pass over the text. */
  function Scan(l: Language, s: string): seq<Piece>
    requires !InField(l, '}')
  {
    if s == "" then []
    else if BeginsReference(l, s) then
      MatchLength(l, s);
      var n := FieldRun(l, s[|OPEN|..]);
      [Reference(s[|OPEN|..|OPEN| + n])] + Scan(l, s[|OPEN| + n + 1..])
    else [Literal(s[0])] + Scan(l, s[1..])
  }

  lemma MatchLength(l: Language, s: string)
    requires !InField(l, '}') && BeginsReference(l, s)
    ensures |s| > |OPEN| && MatchOf(l, s, FieldRun(l, s[|OPEN|..]))
  {
    var n: nat :| n < |s| && MatchOf(l, s, n);
    OneMatchLength(l, s, n);
  }

  lemma {:induction false} FieldRunIs(l: Language, s: string, n: nat)
    requires n < |s| && !InField(l, s[n]) && forall j :: 0 <= j < n ==> InField(l, s[j])
    ensures FieldRun(l, s) == n
  {
    if n > 0 {
      FieldRunIs(l, s[1..], n - 1);
    }
  }

  lemma OneMatchLength(l: Language, s: string, n: nat)
    requires !InField(l, '}') && MatchOf(l, s, n)
    ensures n == FieldRun(l, s[|OPEN|..])
  {
    FieldRunIs(l, s[|OPEN|..], n);
  }

  /** What the pass must produce: pieces that spell the text, references that are matches, and no
      literal at which a match begins. */
  predicate IsScan(l: Language, s: string, pieces: seq<Piece>) {
    && Joined(pieces, AsWritten()) == s
    && forall i :: 0 <= i < |pieces| ==>
         match pieces[i]
         case Literal(_) => !BeginsReference(l, Joined(pieces[i..], AsWritten()))
         case Reference(field) => field != "" && forall j :: 0 <= j < |field| ==> InField(l, field[j])
  }

  lemma IsScanTail(l: Language, s: string, pieces: seq<Piece>)
    requires pieces != [] && IsScan(l, s, pieces)
    ensures IsScan(l, Joined(pieces[1..], AsWritten()), pieces[1..])
    ensures s == Raw(pieces[0]) + Joined(pieces[1..], AsWritten())
  {
    forall i | 0 <= i < |pieces[1..]| ensures pieces[1..][i..] == pieces[i + 1..] && pieces[1..][i] == pieces[i + 1] {
    }
  }

  lemma ReferenceMatches(l: Language, field: string, rest: string)
    requires field != "" && forall j :: 0 <= j < |field| ==> InField(l, field[j])
    ensures MatchOf(l, OPEN + field + "}" + rest, |field|) && BeginsReference(l, OPEN + field + "}" + rest)
  {
    var s := OPEN + field + "}" + rest;
    assert s[..|OPEN|] == OPEN;
    assert forall j :: |OPEN| <= j < |OPEN| + |field| ==> s[j] == field[j - |OPEN|];
    assert MatchOf(l, s, |field|);
  }

  lemma OneMorePiece(l: Language, piece: Piece, rest: string, pieces: seq<Piece>)
    requires IsScan(l, rest, pieces)
    requires piece.Literal? ==> !BeginsReference(l, Raw(piece) + rest)
    requires piece.Reference? ==> piece.field != "" && forall j :: 0 <= j < |piece.field| ==> InField(l, piece.field[j])
    ensures IsScan(l, Raw(piece) + rest, [piece] + pieces)
  {
    var all := [piece] + pieces;
    assert all[1..] == pieces && all[0..] == all;
    forall i | 0 < i < |all| ensures all[i] == pieces[i - 1] && all[i..] == pieces[i - 1..] {
    }
  }

  lemma SplitAt(s: string, m: nat, n: nat)
    requires m + n < |s|
    ensures s == s[..m] + s[m..m + n] + [s[m + n]] + s[m + n + 1..]
  {
  }

  lemma ScanAtReference(l: Language, field: string, rest: string)
    requires !InField(l, '}') && field != "" && forall j :: 0 <= j < |field| ==> InField(l, field[j])
    ensures Scan(l, Raw(Reference(field)) + rest) == [Reference(field)] + Scan(l, rest)
  {
    var s := Raw(Reference(field)) + rest;
    ReferenceMatches(l, field, rest);
    OneMatchLength(l, s, |field|);
    assert s[|OPEN|..|OPEN| + |field|] == field;
    assert s[|OPEN| + |field| + 1..] == rest;
  }

  lemma ScanAtLiteral(l: Language, c: char, rest: string)
    requires !InField(l, '}') && !BeginsReference(l, [c] + rest)
    ensures Scan(l, [c] + rest) == [Literal(c)] + Scan(l, rest)
  {
    assert ([c] + rest)[1..] == rest;
  }

  lemma MatchedParts(l: Language, s: string, n: nat)
    requires MatchOf(l, s, n)
    ensures s == Raw(Reference(s[|OPEN|..|OPEN| + n])) + s[|OPEN| + n + 1..]
  {
    SplitAt(s, |OPEN|, n);
    assert [s[|OPEN| + n]] == "}";
  }

  lemma MatchedField(l: Language, s: string, n: nat) returns (field: string)
    requires MatchOf(l, s, n)
    ensures field == s[|OPEN|..|OPEN| + n] && field != "" && forall j :: 0 <= j < |field| ==> InField(l, field[j])
  {
    field := s[|OPEN|..|OPEN| + n];
    forall j | 0 <= j < |field| ensures InField(l, field[j]) {
      assert field[j] == s[|OPEN| + j];
    }
  }

  lemma FrontReference(l: Language, s: string) returns (field: string, rest: string)
    requires !InField(l, '}') && BeginsReference(l, s)
    ensures Scan(l, s) == [Reference(field)] + Scan(l, rest) && |rest| < |s|
    ensures s == Raw(Reference(field)) + rest
    ensures field != "" && forall j :: 0 <= j < |field| ==> InField(l, field[j])
  {
    MatchLength(l, s);
    var n := FieldRun(l, s[|OPEN|..]);
    MatchedParts(l, s, n);
    field := MatchedField(l, s, n);
    rest := s[|OPEN| + n + 1..];
    ScanAtReference(l, field, rest);
  }

  /** The pass meets its description, on every text ... */
  lemma {:induction false} ScanIsAScan(l: Language, s: string)
    requires !InField(l, '}')
    ensures IsScan(l, s, Scan(l, s))
    decreases |s|
  {
    if s != "" {
      if BeginsReference(l, s) {
        var field, rest := FrontReference(l, s);
        ScanIsAScan(l, rest);
        OneMorePiece(l, Reference(field), rest, Scan(l, rest));
      } else {
        assert s == Raw(Literal(s[0])) + s[1..];
        ScanIsAScan(l, s[1..]);
        OneMorePiece(l, Literal(s[0]), s[1..], Scan(l, s[1..]));
      }
    }
  }

  /** ... and nothing else does. */
  lemma {:induction false} ScanIsTheOnlyScan(l: Language, s: string, pieces: seq<Piece>)
    requires !InField(l, '}') && IsScan(l, s, pieces)
    ensures pieces == Scan(l, s)
    decreases |pieces|
  {
    if pieces != [] {
      IsScanTail(l, s, pieces);
      var rest := Joined(pieces[1..], AsWritten());
      ScanIsTheOnlyScan(l, rest, pieces[1..]);
      assert pieces[0..] == pieces;
      match pieces[0]
      case Literal(c) => ScanAtLiteral(l, c, rest);
      case Reference(field) => ScanAtReference(l, field, rest);
    }
  }

  // ---------------------------------------------------------------- substitution

  /** What a piece becomes: a resolved reference its value's text, anything else itself. */
  function Substitute(l: Language, event: Value): Piece -> string {
    (p: Piece) =>
      if p.Literal? then Raw(p)
      else
        var resolved := Resolve(event, p.field);
        if resolved.Null? then Raw(p) else l.show(resolved)
  }

  /** _interpolate */
  function Interpolate(l: Language, v: Value, event: Value): Value
    requires !InField(l, '}')
  {
    match v
    case Text(s) => Text(Joined(Scan(l, s), Substitute(l, event)))
    case List(items) => List(seq(|items|, i requires 0 <= i < |items| => Interpolate(l, items[i], event)))
    case Dict(entries) =>
      Dict(seq(|entries|, i requires 0 <= i < |entries| =>
        Entry(entries[i].key, Interpolate(l, entries[i].value, event))))
    case _ => v
  }

  /** However a text is split into literals and references, as long as the split is a scan, the result is
      the literals with each reference replaced once: substituted text is never scanned again. */
  lemma InterpolationIsOnePass(l: Language, s: string, event: Value, pieces: seq<Piece>)
    requires !InField(l, '}') && IsScan(l, s, pieces)
    ensures Interpolate(l, Text(s), event) == Text(Joined(pieces, Substitute(l, event)))
  {
    ScanIsTheOnlyScan(l, s, pieces);
  }

  function Literals(s: string): seq<Piece> {
    seq(|s|, i requires 0 <= i < |s| => Literal(s[i]))
  }

  lemma OneMoreLiteral(l: Language, c: char, text: string, tail: string, scanned: seq<Piece>)
    requires !InField(l, '}') && c != '{' && Scan(l, text) == Literals(tail) + scanned
    ensures Scan(l, [c] + text) == Literals([c] + tail) + scanned
  {
    NoReferenceWithoutABrace(l, c, text);
    ScanAtLiteral(l, c, text);
    assert Literals([c] + tail) == [Literal(c)] + Literals(tail);
    assert [Literal(c)] + (Literals(tail) + scanned) == ([Literal(c)] + Literals(tail)) + scanned;
  }

  lemma {:induction false} LiteralsAreKept(l: Language, s: string, rest: string)
    requires !InField(l, '}') && '{' !in s
    ensures Scan(l, s + rest) == Literals(s) + Scan(l, rest)
  {
    if s == "" {
      assert s + rest == rest;
    } else {
      var c, tail := s[0], s[1..];
      LiteralsAreKept(l, tail, rest);
      OneMoreLiteral(l, c, tail + rest, tail, Scan(l, rest));
      assert s == [c] + tail;
      assert s + rest == [c] + (tail + rest);
    }
  }

  lemma NoReferenceWithoutABrace(l: Language, c: char, rest: string)
    requires c != '{'
    ensures !BeginsReference(l, [c] + rest)
  {
    forall n: nat | n < |[c] + rest| ensures !MatchOf(l, [c] + rest, n) {
      assert OPEN[0] == '{';
      if |[c] + rest| > |OPEN| + n {
        assert ([c] + rest)[..|OPEN|][0] == c;
      }
    }
  }

  lemma {:induction false} JoinedConcat(first: seq<Piece>, second: seq<Piece>, text: Piece -> string)
    ensures Joined(first + second, text) == Joined(first, text) + Joined(second, text)
  {
    if first == [] {
      assert first + second == second;
    } else {
      JoinedConcat(first[1..], second, text);
      assert (first + second)[1..] == first[1..] + second;
    }
  }

  lemma {:induction false} JoinedLiterals(l: Language, event: Value, s: string)
    ensures Joined(Literals(s), Substitute(l, event)) == s
  {
    if s != "" {
      JoinedLiterals(l, event, s[1..]);
      assert Literals(s)[0] == Literal(s[0]) && Raw(Literal(s[0])) == [s[0]];
      assert Substitute(l, event)(Literal(s[0])) == Raw(Literal(s[0]));
      assert Literals(s)[1..] == Literals(s[1..]);
      assert s == [s[0]] + s[1..];
    }
  }

  lemma ScanOfOneReference(l: Language, before: string, field: string, after: string)
    requires !InField(l, '}') && '{' !in before && '{' !in after
    requires field != "" && forall i :: 0 <= i < |field| ==> InField(l, field[i])
    ensures Scan(l, before + ("{event." + field + "}" + after))
         == Literals(before) + ([Reference(field)] + Literals(after))
  {
    assert Raw(Reference(field)) == "{event." + field + "}";
    LiteralsAreKept(l, before, "{event." + field + "}" + after);
    ScanAtReference(l, field, after);
    LiteralsAreKept(l, after, "");
    assert after + "" == after && Literals(after) + [] == Literals(after);
  }

  /** A text with one reference: the reference becomes what its field holds, or stays if it holds nothing, and the
      rest of the text stays as it is. */
  lemma OneReferenceIsReplaced(l: Language, before: string, field: string, after: string, event: Value)
    requires !InField(l, '}') && '{' !in before && '{' !in after
    requires field != "" && forall i :: 0 <= i < |field| ==> l.word(field[i]) || field[i] == '.'
    ensures Interpolate(l, Text(before + ("{event." + field + "}" + after)), event) ==
              var held := Resolve(event, field);
              if held == Null then Text(before + ("{event." + field + "}" + after))
              else Text(before + (l.show(held) + after))
  {
    var f := Substitute(l, event);
    ScanOfOneReference(l, before, field, after);
    JoinedConcat(Literals(before), [Reference(field)] + Literals(after), f);
    JoinedConcat([Reference(field)], Literals(after), f);
    JoinedLiterals(l, event, before);
    JoinedLiterals(l, event, after);
    OnePiece(Reference(field), f);
    assert Raw(Reference(field)) == "{event." + field + "}";
  }

  lemma OnePiece(piece: Piece, text: Piece -> string)
    ensures Joined([piece], text) == text(piece)
  {
  }

  /** Same nesting, same lengths, same keys in the same order; only texts may differ. */
  predicate SameShape(v: Value, w: Value) {
    match v
    case Text(_) => w.Text?
    case List(items) =>
      w.List? && |items| == |w.items| && forall i :: 0 <= i < |items| ==> SameShape(items[i], w.items[i])
    case Dict(entries) =>
      w.Dict? && |entries| == |w.entries| &&
      forall i :: 0 <= i < |entries| ==>
        entries[i].key == w.entries[i].key && SameShape(entries[i].value, w.entries[i].value)
    case _ => v == w
  }

  lemma {:induction false} InterpolationKeepsShape(l: Language, v: Value, event: Value)
    requires !InField(l, '}')
    ensures SameShape(v, Interpolate(l, v, event))
  {
    match v
    case List(items) =>
      forall i | 0 <= i < |items| ensures SameShape(items[i], Interpolate(l, items[i], event)) {
        InterpolationKeepsShape(l, items[i], event);
      }
    case Dict(entries) =>
      forall i | 0 <= i < |entries| ensures SameShape(entries[i].value, Interpolate(l, entries[i].value, event)) {
        InterpolationKeepsShape(l, entries[i].value, event);
      }
    case _ =>
  }

  lemma {:induction false} JoinedAgree(pieces: seq<Piece>, f: Piece -> string, g: Piece -> string)
    requires forall i :: 0 <= i < |pieces| ==> f(pieces[i]) == g(pieces[i])
    ensures Joined(pieces, f) == Joined(pieces, g)
  {
    if pieces != [] {
      forall i | 0 <= i < |pieces[1..]| ensures f(pieces[1..][i]) == g(pieces[1..][i]) {
        assert pieces[1..][i] == pieces[i + 1];
      }
      JoinedAgree(pieces[1..], f, g);
    }
  }

  lemma NothingResolvesInAnEmptyEvent(field: string)
    ensures Resolve(Dict([]), field) == Null
  {
    var parts := Split(field);
    assert Get([], parts[0]) == Null;
    assert Walk(Null, parts[1..]) == Null;
  }

  /** With an empty event, as periodic automations have, interpolation changes nothing, at any depth. */
  lemma {:induction false} EmptyEventIsIdentity(l: Language, v: Value)
    requires !InField(l, '}')
    ensures Interpolate(l, v, Dict([])) == v
  {
    match v
    case Text(s) =>
      ScanIsAScan(l, s);
      var pieces := Scan(l, s);
      forall i | 0 <= i < |pieces| ensures Substitute(l, Dict([]))(pieces[i]) == AsWritten()(pieces[i]) {
        if pieces[i].Reference? {
          NothingResolvesInAnEmptyEvent(pieces[i].field);
        }
      }
      JoinedAgree(pieces, Substitute(l, Dict([])), AsWritten());
    case List(items) =>
      forall i | 0 <= i < |items| ensures Interpolate(l, items[i], Dict([])) == items[i] {
        EmptyEventIsIdentity(l, items[i]);
      }
    case Dict(entries) =>
      forall i | 0 <= i < |entries| ensures Interpolate(l, entries[i].value, Dict([])) == entries[i].value {
        EmptyEventIsIdentity(l, entries[i].value);
      }
    case _ =>
  }
}
