/** Idempotent ingest: inserts that ignore a dedupe key already stored (src/taskowl/consumer/handlers.py). */
module Ingest {
  import opened Rows
  import opened Retention
  import opened Latest

  /** The values of a row to be inserted. */
  datatype Incoming<+T> = Incoming(time: int, data: T)

  /** The dedupe_key column; None is NULL, which conflicts with nothing. */
  type Key<!T> = T -> Option<string>

  function Strip<T>(): Row<T> -> Incoming<T> {
    (r: Row<T>) => Incoming(r.time, r.data)
  }

  /** A table's rows with their surrogate keys left out. */
  function Stripped<T>(rows: seq<Row<T>>): seq<Incoming<T>> {
    Apply(Strip(), rows)
  }

  ghost predicate Stored<T>(key: Key<T>, rows: seq<Row<T>>, k: string) {
    exists r :: r in rows && key(r.data) == Some(k)
  }

  /** INSERT ... ON CONFLICT (dedupe_key) DO NOTHING */
  ghost function InsertNew<T>(key: Key<T>, s: Snapshot<T>, e: Incoming<T>): Snapshot<T> {
    if key(e.data).Some? && Stored(key, s.rows, key(e.data).value) then s
    else Append(s, e.time, e.data)
  }

  ghost function InsertAll<T>(key: Key<T>, s: Snapshot<T>, es: seq<Incoming<T>>): Snapshot<T> {
    if es == [] then s else InsertNew(key, InsertAll(key, s, es[..|es| - 1]), es[|es| - 1])
  }

  function HasKey<T>(key: Key<T>, k: string): Row<T> -> bool {
    (r: Row<T>) => key(r.data) == Some(k)
  }

  /** insert_event */
  method InsertEvent<T>(table: Table<T>, key: Key<T>, e: Incoming<T>)
    requires table.Valid()
    modifies table
    ensures table.Valid()
    ensures table.Contents() == InsertNew(key, old(table.Contents()), e)
  {
    if key(e.data).Some? {
      var conflicting := Filter(HasKey(key, key(e.data).value), table.rows);
      FilterMember(HasKey(key, key(e.data).value), table.rows);
      if conflicting != [] {
        assert conflicting[0] in table.rows;
        return;
      }
      assert forall r :: r in table.rows && HasKey(key, key(e.data).value)(r) ==> r in conflicting;
    }
    table.Insert(e.time, e.data);
  }

  // ---------------------------------------------------------------- confluence

  function Unkeyed<T>(key: Key<T>): Incoming<T> -> bool {
    (e: Incoming<T>) => key(e.data).None?
  }

  ghost function KeysOf<T>(key: Key<T>, es: seq<Incoming<T>>): set<string> {
    set e | e in es && key(e.data).Some? :: key(e.data).value
  }

  ghost function Distinct<T>(key: Key<T>, es: seq<Incoming<T>>): set<Incoming<T>> {
    set e | e in es && key(e.data).Some?
  }

  /** Redeliveries of a message carry what it carried the first time. */
  ghost predicate Consistent<T>(key: Key<T>, es: seq<Incoming<T>>) {
    forall d, e :: d in es && e in es && key(d.data).Some? && key(d.data) == key(e.data) ==> d == e
  }

  lemma StrippedAppend<T>(rows: seq<Row<T>>, r: Row<T>)
    ensures Stripped(rows + [r]) == Stripped(rows) + [Incoming(r.time, r.data)]
  {
  }

  lemma StrippedMember<T>(rows: seq<Row<T>>)
    ensures forall r :: r in rows ==> Incoming(r.time, r.data) in Stripped(rows)
    ensures forall e :: e in Stripped(rows) ==> exists r :: r in rows && Incoming(r.time, r.data) == e
  {
    forall r | r in rows ensures Incoming(r.time, r.data) in Stripped(rows) {
      var i :| 0 <= i < |rows| && rows[i] == r;
      assert Stripped(rows)[i] == Incoming(r.time, r.data);
    }
    forall e | e in Stripped(rows) ensures exists r :: r in rows && Incoming(r.time, r.data) == e {
      var i :| 0 <= i < |rows| && Stripped(rows)[i] == e;
      assert rows[i] in rows;
    }
  }

  lemma StoredInStripped<T>(key: Key<T>, rows: seq<Row<T>>, k: string)
    ensures Stored(key, rows, k) <==> exists e :: e in Stripped(rows) && key(e.data) == Some(k)
  {
    StrippedMember(rows);
    if Stored(key, rows, k) {
      var r :| r in rows && key(r.data) == Some(k);
      assert Incoming(r.time, r.data) in Stripped(rows);
    }
  }

  lemma KeysAppend<T>(key: Key<T>, es: seq<Incoming<T>>, e: Incoming<T>)
    ensures KeysOf(key, es + [e]) == KeysOf(key, es) + if key(e.data).Some? then {key(e.data).value} else {}
  {
    assert forall d :: d in es + [e] <==> d in es || d == e;
  }

  /** Whatever the order and the repetitions, the keys stored are the keys delivered, and there is
      one row for each plus one for every delivery without a timestamp. */
  lemma {:induction false} RowsAreDistinctKeysPlusUnkeyed<T>(key: Key<T>, es: seq<Incoming<T>>)
    ensures forall k :: Stored(key, InsertAll(key, Empty(), es).rows, k) <==> k in KeysOf(key, es)
    ensures |InsertAll(key, Empty(), es).rows| == |KeysOf(key, es)| + |Filter(Unkeyed(key), es)|
  {
    if es == [] {
      assert KeysOf(key, es) == {};
    } else {
      var init, last := es[..|es| - 1], es[|es| - 1];
      RowsAreDistinctKeysPlusUnkeyed(key, init);
      assert es == init + [last];
      FilterAppend(Unkeyed(key), init, last);
      KeysAppend(key, init, last);
      var before := InsertAll(key, Empty(), init);
      forall k ensures Stored(key, InsertNew(key, before, last).rows, k) <==> k in KeysOf(key, es) {
        StoredAfter(key, before, last, k);
      }
      if key(last.data).Some? {
        assert Stored(key, before.rows, key(last.data).value) <==> key(last.data).value in KeysOf(key, init);
      }
    }
  }

  lemma StoredAfter<T>(key: Key<T>, s: Snapshot<T>, e: Incoming<T>, k: string)
    ensures Stored(key, InsertNew(key, s, e).rows, k) <==> Stored(key, s.rows, k) || key(e.data) == Some(k)
  {
    var rows := InsertNew(key, s, e).rows;
    if Stored(key, s.rows, k) {
      var r :| r in s.rows && key(r.data) == Some(k);
      assert r in rows;
    }
    if rows != s.rows {
      assert rows[|rows| - 1] in rows;
    }
  }

  lemma DistinctAppend<T>(key: Key<T>, es: seq<Incoming<T>>, e: Incoming<T>)
    requires Consistent(key, es + [e])
    ensures key(e.data).None? ==> Distinct(key, es + [e]) == Distinct(key, es)
    ensures key(e.data).Some? && key(e.data).value in KeysOf(key, es) ==> Distinct(key, es + [e]) == Distinct(key, es)
    ensures key(e.data).Some? && key(e.data).value !in KeysOf(key, es) ==>
              e !in Distinct(key, es) && Distinct(key, es + [e]) == Distinct(key, es) + {e}
  {
    var all := es + [e];
    assert forall d :: d in all <==> d in es || d == e;
    if key(e.data).Some? && key(e.data).value in KeysOf(key, es) {
      var d :| d in es && key(d.data).Some? && key(d.data).value == key(e.data).value;
      assert d in all && e in all;
    }
  }

  /** The rows, surrogate keys aside, are a function of what was delivered, not of when or how often:
      the set of timestamped deliveries and the bag of the others. */
  lemma {:induction false} IngestIsConfluent<T>(key: Key<T>, es: seq<Incoming<T>>)
    requires Consistent(key, es)
    ensures multiset(Stripped(InsertAll(key, Empty(), es).rows))
         == multiset(Distinct(key, es)) + multiset(Filter(Unkeyed(key), es))
  {
    if es == [] {
      assert Distinct(key, es) == {};
    } else {
      var init, last := es[..|es| - 1], es[|es| - 1];
      assert es == init + [last];
      IngestIsConfluent(key, init);
      FilterAppend(Unkeyed(key), init, last);
      DistinctAppend(key, init, last);
      RowsAreDistinctKeysPlusUnkeyed(key, init);
      InsertAddsOne(key, InsertAll(key, Empty(), init), last);
    }
  }

  lemma InsertAddsOne<T>(key: Key<T>, s: Snapshot<T>, e: Incoming<T>)
    ensures multiset(Stripped(InsertNew(key, s, e).rows)) == multiset(Stripped(s.rows)) +
              if key(e.data).Some? && Stored(key, s.rows, key(e.data).value) then multiset{} else multiset{e}
  {
    StrippedAppend(s.rows, Row(s.next, e.time, e.data));
    assert multiset(Stripped(s.rows) + [e]) == multiset(Stripped(s.rows)) + multiset{e};
  }

  /** Any reordering and any duplication of the same deliveries leaves the same rows. */
  lemma SameDeliveriesSameRows<T>(key: Key<T>, es: seq<Incoming<T>>, fs: seq<Incoming<T>>)
    requires Consistent(key, es)
    requires Distinct(key, es) == Distinct(key, fs)
    requires multiset(Filter(Unkeyed(key), es)) == multiset(Filter(Unkeyed(key), fs))
    ensures multiset(Stripped(InsertAll(key, Empty(), es).rows)) == multiset(Stripped(InsertAll(key, Empty(), fs).rows))
  {
    forall d, e | d in fs && e in fs && key(d.data).Some? && key(d.data) == key(e.data) ensures d == e {
      assert d in Distinct(key, fs) && e in Distinct(key, fs);
      assert d in es && e in es;
    }
    IngestIsConfluent(key, es);
    IngestIsConfluent(key, fs);
  }

  /** Equal rows reconstruct equal latest states: the same newest time for each partition, and the same f
      of its row wherever tied rows agree on f. */
  lemma SameRowsSameLatest<T(!new), K, X>(part: T -> K, f: T -> X, a: seq<Row<T>>, b: seq<Row<T>>, r: Row<T>, q: Row<T>)
    requires multiset(Stripped(a)) == multiset(Stripped(b))
    requires r in LatestRows(part, a) && q in LatestRows(part, b) && part(r.data) == part(q.data)
    requires TiesAgree(part, a, part(r.data), f)
    ensures r.time == q.time && f(r.data) == f(q.data)
  {
    FilterMember(RankedFirst(part, Descending, a), a);
    FilterMember(RankedFirst(part, Descending, b), b);
    RankedFirstIsNewest(part, a, r);
    RankedFirstIsNewest(part, b, q);
    var r' := Counterpart(a, b, r);
    var q' := Counterpart(b, a, q);
    assert IsNewest(part, a, part(r.data), q');
  }

  lemma Counterpart<T>(a: seq<Row<T>>, b: seq<Row<T>>, r: Row<T>) returns (q: Row<T>)
    requires multiset(Stripped(a)) == multiset(Stripped(b)) && r in a
    ensures q in b && q.time == r.time && q.data == r.data
  {
    StrippedMember(a);
    StrippedMember(b);
    var e := Incoming(r.time, r.data);
    assert e in multiset(Stripped(a));
    assert e in Stripped(b);
    q :| q in b && Incoming(q.time, q.data) == e;
  }

  // ---------------------------------------------------------------- ingest and pruning

  datatype Operation<+T> = Deliver(incoming: Incoming<T>) | PruneAt(cutoff: int)

  ghost function Operate<T>(key: Key<T>, s: Snapshot<T>, ops: seq<Operation<T>>): Snapshot<T> {
    if ops == [] then s
    else
      var before := Operate(key, s, ops[..|ops| - 1]);
      match ops[|ops| - 1]
      case Deliver(e) => InsertNew(key, before, e)
      case PruneAt(cutoff) => before.(rows := Kept(before.rows, cutoff))
  }

  function Deliveries<T>(ops: seq<Operation<T>>): seq<Incoming<T>> {
    if ops == [] then []
    else
      var before := Deliveries(ops[..|ops| - 1]);
      match ops[|ops| - 1]
      case Deliver(e) => before + [e]
      case PruneAt(_) => before
  }

  /** Equal keys force equal timestamps, because the key is made from the timestamp. */
  ghost predicate KeyFixesTime<T>(key: Key<T>, es: seq<Incoming<T>>) {
    forall d, e :: d in es && e in es && key(d.data).Some? && key(d.data) == key(e.data) ==> d.time == e.time
  }

  lemma {:induction false} RowsWereDelivered<T>(key: Key<T>, ops: seq<Operation<T>>)
    ensures forall r :: r in Operate(key, Empty(), ops).rows ==> Incoming(r.time, r.data) in Deliveries(ops)
    ensures forall r :: r in InsertAll(key, Empty(), Deliveries(ops)).rows ==>
            Incoming(r.time, r.data) in Deliveries(ops)
  {
    if ops != [] {
      var init, last := ops[..|ops| - 1], ops[|ops| - 1];
      RowsWereDelivered(key, init);
      match last
      case PruneAt(cutoff) =>
        FilterMember(From<T>(cutoff), Operate(key, Empty(), init).rows);
      case Deliver(e) =>
        var es := Deliveries(ops);
        assert es[..|es| - 1] == Deliveries(init);
    }
  }

  /** A stored row stands for a delivery: it is that delivery, or has its key. */
  ghost predicate StandsFor<T>(key: Key<T>, r: Row<T>, e: Incoming<T>) {
    r.time == e.time && (r.data == e.data || (key(e.data).Some? && key(r.data) == key(e.data)))
  }

  /** Every delivery no prune has reached has a row that stands for it. */
  lemma {:induction false} FreshDeliveriesAreStored<T>(key: Key<T>, ops: seq<Operation<T>>, e: Incoming<T>)
    requires KeyFixesTime(key, Deliveries(ops)) && e in Deliveries(ops)
    requires forall op :: op in ops && op.PruneAt? ==> op.cutoff <= e.time
    ensures exists r :: r in Operate(key, Empty(), ops).rows && StandsFor(key, r, e)
  {
    var init, op := ops[..|ops| - 1], ops[|ops| - 1];
    assert ops == init + [op] && op in ops;
    var before := Operate(key, Empty(), init);
    var es := Deliveries(ops);
    if op.Deliver? {
      assert es == Deliveries(init) + [op.incoming];
    }
    RowsWereDelivered(key, init);
    if e in Deliveries(init) {
      FreshDeliveriesAreStored(key, init, e);
      var r :| r in before.rows && StandsFor(key, r, e);
      FilterMember(From<T>(e.time), before.rows);
      StaysStored(key, before, op, r);
    } else {
      NewDeliveryIsStored(key, before, e, es);
    }
  }

  lemma StaysStored<T>(key: Key<T>, s: Snapshot<T>, op: Operation<T>, r: Row<T>)
    requires r in s.rows && (op.PruneAt? ==> op.cutoff <= r.time)
    ensures op.Deliver? ==> r in InsertNew(key, s, op.incoming).rows
    ensures op.PruneAt? ==> r in Kept(s.rows, op.cutoff)
  {
    match op
    case Deliver(e) =>
    case PruneAt(cutoff) =>
      FilterMember(From<T>(cutoff), s.rows);
      assert From(cutoff)(r);
  }

  lemma NewDeliveryIsStored<T>(key: Key<T>, s: Snapshot<T>, e: Incoming<T>, es: seq<Incoming<T>>)
    requires KeyFixesTime(key, es) && e in es && forall r :: r in s.rows ==> Incoming(r.time, r.data) in es
    ensures exists r :: r in InsertNew(key, s, e).rows && StandsFor(key, r, e)
  {
    var rows := InsertNew(key, s, e).rows;
    if key(e.data).Some? && Stored(key, s.rows, key(e.data).value) {
      var r :| r in s.rows && key(r.data) == Some(key(e.data).value);
      assert Incoming(r.time, r.data) in es;
      assert StandsFor(key, r, e);
    } else {
      assert rows[|rows| - 1] in rows && StandsFor(key, rows[|rows| - 1], e);
    }
  }

  /** A key whose time is at or after the cutoff is stored exactly when a fresh row stores it. */
  lemma StoredAmongFresh<T>(key: Key<T>, rows: seq<Row<T>>, cutoff: int, e: Incoming<T>)
    requires key(e.data).Some? && e.time >= cutoff
    requires forall r :: r in rows && key(r.data) == key(e.data) ==> r.time == e.time
    ensures Stored(key, rows, key(e.data).value)
       <==> exists d :: d in Stripped(Kept(rows, cutoff)) && key(d.data) == key(e.data)
  {
    FilterMember(From<T>(cutoff), rows);
    StoredInStripped(key, Kept(rows, cutoff), key(e.data).value);
    if Stored(key, rows, key(e.data).value) {
      var r :| r in rows && key(r.data) == Some(key(e.data).value);
      assert From(cutoff)(r);
      assert r in Kept(rows, cutoff);
    }
  }

  lemma InsertKeepsAgreement<T>(key: Key<T>, s: Snapshot<T>, t: Snapshot<T>, e: Incoming<T>, cutoff: int)
    requires Stripped(Kept(s.rows, cutoff)) == Stripped(Kept(t.rows, cutoff))
    requires forall r :: (r in s.rows || r in t.rows) && key(e.data).Some? && key(r.data) == key(e.data) ==>
             r.time == e.time
    ensures Stripped(Kept(InsertNew(key, s, e).rows, cutoff)) == Stripped(Kept(InsertNew(key, t, e).rows, cutoff))
  {
    FilterAppend(From(cutoff), s.rows, Row(s.next, e.time, e.data));
    FilterAppend(From(cutoff), t.rows, Row(t.next, e.time, e.data));
    StrippedAppend(Kept(s.rows, cutoff), Row(s.next, e.time, e.data));
    StrippedAppend(Kept(t.rows, cutoff), Row(t.next, e.time, e.data));
    if e.time >= cutoff && key(e.data).Some? {
      StoredAmongFresh(key, s.rows, cutoff, e);
      StoredAmongFresh(key, t.rows, cutoff, e);
    }
  }

  /** Ingest and pruning commute: prune as often as you like on the way, at cutoffs up to the last one,
      and what the last prune leaves is what one prune leaves after ingesting everything. Messages that
      come back after their row was pruned are stored again, and pruned again. */
  lemma {:induction false} IngestAndPruningCommute<T>(key: Key<T>, ops: seq<Operation<T>>, last: int)
    requires KeyFixesTime(key, Deliveries(ops))
    requires forall op :: op in ops && op.PruneAt? ==> op.cutoff <= last
    ensures Stripped(Kept(Operate(key, Empty(), ops).rows, last))
         == Stripped(Kept(InsertAll(key, Empty(), Deliveries(ops)).rows, last))
  {
    if ops != [] {
      var init, op := ops[..|ops| - 1], ops[|ops| - 1];
      assert op in ops;
      var es := Deliveries(ops);
      if op.Deliver? {
        assert es[..|es| - 1] == Deliveries(init);
      }
      IngestAndPruningCommute(key, init, last);
      var pruned, full := Operate(key, Empty(), init), InsertAll(key, Empty(), Deliveries(init));
      match op
      case PruneAt(cutoff) =>
        FilterWithin(From(last), From(cutoff), pruned.rows);
      case Deliver(e) =>
        RowsWereDelivered(key, init);
        assert e in es;
        forall r | (r in pruned.rows || r in full.rows) && key(e.data).Some? && key(r.data) == key(e.data)
          ensures r.time == e.time
        {
          assert Incoming(r.time, r.data) in es;
        }
        InsertKeepsAgreement(key, pruned, full, e, last);
    }
  }
}
