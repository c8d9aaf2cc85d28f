/** The tables of the event store as sequences of rows, and the one selection
    operator every query of the model is written with. */
module Rows {

  datatype Option<+T> = None | Some(value: T)

  /** A stored row: surrogate key, the column rows are aged by, and the rest.
      The aging column is `timestamp` for task and worker events and
      `created_at` for automation runs. Times are integer microseconds. */
  datatype Row<+T> = Row(id: int, time: int, data: T)

  const SECOND: int := 1_000_000
  const DAY: int := 86_400 * SECOND

  /** A table value: its rows in key order and the next key to be handed out. */
  datatype Snapshot<+T> = Snapshot(rows: seq<Row<T>>, next: int)

  function Empty<T>(): Snapshot<T> {
    Snapshot([], 1)
  }

  ghost predicate Ordered<T>(rows: seq<Row<T>>) {
    forall i, j :: 0 <= i < j < |rows| ==> rows[i].id < rows[j].id
  }

  ghost predicate WellKeyed<T>(s: Snapshot<T>) {
    && Ordered(s.rows)
    && forall r :: r in s.rows ==> r.id < s.next
  }

  function Append<T>(s: Snapshot<T>, time: int, data: T): Snapshot<T> {
    Snapshot(s.rows + [Row(s.next, time, data)], s.next + 1)
  }

  /** SELECT ... WHERE p, in table order. */
  function Filter<T>(p: T -> bool, s: seq<T>): seq<T> {
    if s == [] then []
    else if p(s[0]) then [s[0]] + Filter(p, s[1..])
    else Filter(p, s[1..])
  }

  function Apply<A, B>(f: A -> B, s: seq<A>): seq<B> {
    seq(|s|, i requires 0 <= i < |s| => f(s[i]))
  }

  function From<T>(cutoff: int): Row<T> -> bool {
    (r: Row<T>) => r.time >= cutoff
  }

  function Before<T>(cutoff: int): Row<T> -> bool {
    (r: Row<T>) => r.time < cutoff
  }

  /** What a completed prune at `cutoff` leaves, and what it takes. */
  function Kept<T>(rows: seq<Row<T>>, cutoff: int): seq<Row<T>> {
    Filter(From(cutoff), rows)
  }

  function Old<T>(rows: seq<Row<T>>, cutoff: int): seq<Row<T>> {
    Filter(Before(cutoff), rows)
  }

  lemma {:induction false} FilterConcat<T>(p: T -> bool, a: seq<T>, b: seq<T>)
    ensures Filter(p, a + b) == Filter(p, a) + Filter(p, b)
  {
    if a == [] {
      assert a + b == b;
    } else {
      FilterConcat(p, a[1..], b);
      assert (a + b)[1..] == a[1..] + b;
    }
  }

  lemma FilterAppend<T>(p: T -> bool, s: seq<T>, x: T)
    ensures Filter(p, s + [x]) == if p(x) then Filter(p, s) + [x] else Filter(p, s)
  {
    FilterConcat(p, s, [x]);
    assert Filter(p, [x]) == if p(x) then [x] else [];
  }

  lemma {:induction false} FilterMember<T>(p: T -> bool, s: seq<T>)
    ensures forall x :: x in Filter(p, s) <==> x in s && p(x)
    ensures forall i :: 0 <= i < |Filter(p, s)| ==> Filter(p, s)[i] in s && p(Filter(p, s)[i])
    ensures |Filter(p, s)| <= |s|
  {
    if s != [] {
      FilterMember(p, s[1..]);
      assert s == [s[0]] + s[1..];
      assert forall x :: x in Filter(p, s) <==> x in s && p(x);
    }
  }

  /** Selecting with a stronger predicate is not disturbed by a weaker selection before it. */
  lemma {:induction false} FilterWithin<T>(q: T -> bool, p: T -> bool, s: seq<T>)
    requires forall x :: x in s && q(x) ==> p(x)
    ensures Filter(q, Filter(p, s)) == Filter(q, s)
  {
    if s != [] {
      FilterWithin(q, p, s[1..]);
      assert s[0] in s;
    }
  }

  lemma {:induction false} FilterCommutes<T>(p: T -> bool, q: T -> bool, s: seq<T>)
    ensures Filter(p, Filter(q, s)) == Filter(q, Filter(p, s))
  {
    if s != [] {
      FilterCommutes(p, q, s[1..]);
    }
  }

  lemma {:induction false} FilterAgree<T>(p: T -> bool, q: T -> bool, s: seq<T>)
    requires forall x :: x in s ==> p(x) == q(x)
    ensures Filter(p, s) == Filter(q, s)
  {
    if s != [] {
      assert s[0] in s;
      FilterAgree(p, q, s[1..]);
    }
  }

  lemma {:induction false} FilterAll<T>(p: T -> bool, s: seq<T>)
    requires forall x :: x in s ==> p(x)
    ensures Filter(p, s) == s
  {
    if s != [] {
      assert s[0] in s;
      FilterAll(p, s[1..]);
    }
  }

  lemma {:induction false} FilterNone<T>(p: T -> bool, s: seq<T>)
    requires forall x :: x in s ==> !p(x)
    ensures Filter(p, s) == []
  {
    if s != [] {
      assert s[0] in s;
      FilterNone(p, s[1..]);
    }
  }

  lemma {:induction false} FilterApply<A, B>(f: A -> B, p: B -> bool, q: A -> bool, s: seq<A>)
    requires forall x :: x in s ==> p(f(x)) == q(x)
    ensures Filter(p, Apply(f, s)) == Apply(f, Filter(q, s))
  {
    if s != [] {
      assert s[0] in s;
      assert Apply(f, s)[1..] == Apply(f, s[1..]);
      FilterApply(f, p, q, s[1..]);
    }
  }

  lemma {:induction false} FilterMonotone<T>(q: T -> bool, p: T -> bool, s: seq<T>)
    requires forall x :: x in s && q(x) ==> p(x)
    ensures |Filter(q, s)| <= |Filter(p, s)|
  {
    FilterWithin(q, p, s);
    FilterMember(q, Filter(p, s));
  }

  lemma Without<T>(s: seq<T>, t: seq<T>) returns (i: nat)
    requires s != [] && multiset(s) == multiset(t)
    ensures i < |t| && t == t[..i] + [s[0]] + t[i + 1..] && multiset(s[1..]) == multiset(t[..i] + t[i + 1..])
  {
    assert s[0] in multiset(s);
    assert s[0] in t;
    i :| 0 <= i < |t| && t[i] == s[0];
    assert s == [s[0]] + s[1..];
    assert t == t[..i] + [s[0]] + t[i + 1..];
    assert multiset(t) == multiset(t[..i] + t[i + 1..]) + multiset{s[0]};
    assert multiset(s[1..]) == multiset(s) - multiset{s[0]};
    assert multiset(t[..i] + t[i + 1..]) == multiset(t) - multiset{s[0]};
  }

  /** Rearranging a sequence rearranges what is selected from it. */
  lemma {:induction false} FilterPermuted<T>(p: T -> bool, s: seq<T>, t: seq<T>)
    requires multiset(s) == multiset(t)
    ensures multiset(Filter(p, s)) == multiset(Filter(p, t))
  {
    if s == [] {
      assert |multiset(t)| == |t|;
      assert t == [];
    } else {
      var i := Without(s, t);
      FilterPermuted(p, s[1..], t[..i] + t[i + 1..]);
      FilterConcat(p, t[..i], t[i + 1..]);
      FilterConcat(p, t[..i] + [s[0]], t[i + 1..]);
      FilterAppend(p, t[..i], s[0]);
    }
  }

  lemma {:induction false} FilterStrict<T>(p: T -> bool, s: seq<T>, x: T)
    requires x in s && !p(x)
    ensures |Filter(p, s)| < |s|
  {
    if s[0] == x {
      FilterMember(p, s[1..]);
    } else {
      FilterStrict(p, s[1..], x);
    }
  }

  lemma {:induction false} FilterCover<T>(p: T -> bool, q: T -> bool, q': T -> bool, s: seq<T>)
    requires forall x :: x in s && p(x) ==> q(x) || q'(x)
    ensures |Filter(p, s)| <= |Filter(q, s)| + |Filter(q', s)|
  {
    if s != [] {
      assert s[0] in s;
      FilterCover(p, q, q', s[1..]);
    }
  }

  lemma FilterUpdated<T>(p: T -> bool, s: seq<T>, i: nat, x: T)
    requires i < |s|
    ensures |Filter(p, s[i := x])| + (if p(s[i]) then 1 else 0) == |Filter(p, s)| + if p(x) then 1 else 0
  {
    assert s == (s[..i] + [s[i]]) + s[i + 1..];
    assert s[i := x] == (s[..i] + [x]) + s[i + 1..];
    FilterConcat(p, s[..i] + [s[i]], s[i + 1..]);
    FilterConcat(p, s[..i] + [x], s[i + 1..]);
    FilterAppend(p, s[..i], s[i]);
    FilterAppend(p, s[..i], x);
  }

  lemma FilterSkips<T>(p: T -> bool, s: seq<T>, g: nat)
    requires g <= |s| && forall i :: 0 <= i < g ==> !p(s[i])
    ensures |Filter(p, s)| <= |s| - g
  {
    assert s == s[..g] + s[g..];
    FilterConcat(p, s[..g], s[g..]);
    FilterNone(p, s[..g]);
    FilterMember(p, s[g..]);
  }

  lemma {:induction false} FilterTail<T>(p: T -> bool, s: seq<T>, n: nat)
    requires n <= |s|
    requires forall i :: 0 <= i < |s| ==> (p(s[i]) <==> i >= n)
    ensures Filter(p, s) == s[n..]
  {
    if n > 0 {
      FilterTail(p, s[1..], n - 1);
    } else {
      FilterAll(p, s);
    }
  }

  lemma {:induction false} FilterSplit<T>(p: T -> bool, q: T -> bool, s: seq<T>)
    requires forall x :: x in s ==> p(x) != q(x)
    ensures |Filter(p, s)| + |Filter(q, s)| == |s|
    ensures multiset(Filter(p, s)) + multiset(Filter(q, s)) == multiset(s)
  {
    if s != [] {
      assert s[0] in s;
      FilterSplit(p, q, s[1..]);
      assert s == [s[0]] + s[1..];
    }
  }

  lemma {:induction false} FilterOrdered<T>(p: Row<T> -> bool, rows: seq<Row<T>>)
    requires Ordered(rows)
    ensures Ordered(Filter(p, rows))
  {
    if rows != [] {
      FilterOrdered(p, rows[1..]);
      FilterMember(p, rows[1..]);
    }
  }

  lemma DistinctIds<T>(rows: seq<Row<T>>, r: Row<T>, q: Row<T>)
    requires Ordered(rows) && r in rows && q in rows && r != q
    ensures r.id != q.id
  {
    var i :| 0 <= i < |rows| && rows[i] == r;
    var j :| 0 <= j < |rows| && rows[j] == q;
    assert i < j || j < i;
  }
}
