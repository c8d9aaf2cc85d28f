/** The newest row of each partition, as a window query and as a per-item query. */
module Latest {
  import opened Rows

  datatype Order = Ascending | Descending

  /** ORDER BY time, id (both in the given direction): q comes before r. */
  predicate Precedes<T>(order: Order, q: Row<T>, r: Row<T>) {
    match order
    case Ascending => q.time < r.time || (q.time == r.time && q.id < r.id)
    case Descending => q.time > r.time || (q.time == r.time && q.id > r.id)
  }

  function Peer<T, K(==)>(key: T -> K, k: K): Row<T> -> bool {
    (q: Row<T>) => key(q.data) == k
  }

  function PrecedingPeer<T, K(==)>(key: T -> K, order: Order, r: Row<T>): Row<T> -> bool {
    (q: Row<T>) => key(q.data) == key(r.data) && Precedes(order, q, r)
  }

  /** ROW_NUMBER() OVER (PARTITION BY key ORDER BY time, id). */
  function RowNumber<T, K(==)>(key: T -> K, order: Order, rows: seq<Row<T>>, r: Row<T>): nat {
    1 + |Filter(PrecedingPeer(key, order, r), rows)|
  }

  function RankedFirst<T, K(==)>(key: T -> K, order: Order, rows: seq<Row<T>>): Row<T> -> bool {
    (r: Row<T>) => RowNumber(key, order, rows, r) == 1
  }

  /** The rows with row number 1, in table order. */
  function FirstRows<T, K(==)>(key: T -> K, order: Order, rows: seq<Row<T>>): seq<Row<T>> {
    Filter(RankedFirst(key, order, rows), rows)
  }

  function LatestRows<T, K(==)>(key: T -> K, rows: seq<Row<T>>): seq<Row<T>> {
    FirstRows(key, Descending, rows)
  }

  /** A legitimate answer of WHERE key = k ORDER BY time DESC LIMIT 1, which leaves ties open. */
  ghost predicate IsNewest<T, K>(key: T -> K, rows: seq<Row<T>>, k: K, r: Row<T>) {
    && r in rows && key(r.data) == k
    && forall q :: q in rows && key(q.data) == k ==> q.time <= r.time
  }

  ghost predicate LimitOne<T, K>(key: T -> K, rows: seq<Row<T>>, k: K, answer: Option<Row<T>>) {
    match answer
    case None => forall q :: q in rows ==> key(q.data) != k
    case Some(r) => IsNewest(key, rows, k, r)
  }

  /** Rows tied for the newest time of the partition agree on f; with no tie, this holds for every f. */
  ghost predicate TiesAgree<T(!new), K, X>(key: T -> K, rows: seq<Row<T>>, k: K, f: T -> X) {
    forall r, q :: IsNewest(key, rows, k, r) && IsNewest(key, rows, k, q) ==> f(r.data) == f(q.data)
  }

  lemma RankedFirstMeans<T, K>(key: T -> K, order: Order, rows: seq<Row<T>>, r: Row<T>)
    ensures RankedFirst(key, order, rows)(r)
            <==> forall q :: q in rows && key(q.data) == key(r.data) ==> !Precedes(order, q, r)
  {
    var newer := Filter(PrecedingPeer(key, order, r), rows);
    FilterMember(PrecedingPeer(key, order, r), rows);
    if newer != [] {
      assert newer[0] in rows && PrecedingPeer(key, order, r)(newer[0]);
    }
    forall q | q in rows && key(q.data) == key(r.data) && Precedes(order, q, r) ensures newer != [] {
      assert PrecedingPeer(key, order, r)(q);
    }
  }

  lemma RankedFirstIsNewest<T, K>(key: T -> K, rows: seq<Row<T>>, r: Row<T>)
    requires r in rows && RankedFirst(key, Descending, rows)(r)
    ensures IsNewest(key, rows, key(r.data), r)
  {
    RankedFirstMeans(key, Descending, rows, r);
    forall q | q in rows && key(q.data) == key(r.data) ensures q.time <= r.time {
      assert !Precedes(Descending, q, r);
    }
  }

  /** Every partition has a row ranked first ... */
  lemma {:induction false} RankedFirstExists<T, K>(key: T -> K, order: Order, rows: seq<Row<T>>, r: Row<T>)
    returns (first: Row<T>)
    requires Ordered(rows) && r in rows
    ensures first in FirstRows(key, order, rows) && key(first.data) == key(r.data)
    decreases |Filter(PrecedingPeer(key, order, r), rows)|
  {
    FilterMember(RankedFirst(key, order, rows), rows);
    if RankedFirst(key, order, rows)(r) {
      first := r;
    } else {
      RankedFirstMeans(key, order, rows, r);
      var q :| q in rows && key(q.data) == key(r.data) && Precedes(order, q, r);
      FilterWithin(PrecedingPeer(key, order, q), PrecedingPeer(key, order, r), rows);
      FilterMember(PrecedingPeer(key, order, r), rows);
      FilterStrict(PrecedingPeer(key, order, q), Filter(PrecedingPeer(key, order, r), rows), q);
      first := RankedFirstExists(key, order, rows, q);
    }
  }

  /** ... and only one. */
  lemma RankedFirstUnique<T, K>(key: T -> K, order: Order, rows: seq<Row<T>>, r: Row<T>, q: Row<T>)
    requires Ordered(rows) && r in FirstRows(key, order, rows) && q in FirstRows(key, order, rows)
    requires key(r.data) == key(q.data)
    ensures r == q
  {
    FilterMember(RankedFirst(key, order, rows), rows);
    RankedFirstMeans(key, order, rows, r);
    RankedFirstMeans(key, order, rows, q);
    assert !Precedes(order, r, q) && !Precedes(order, q, r);
    if r != q {
      DistinctIds(rows, r, q);
    }
  }

  /** Whatever the per-item query returns, it has the time of the window query's row, and agrees with it
      wherever ties agree. */
  lemma NewestAgreesWithRankedFirst<T(!new), K, X>(key: T -> K, rows: seq<Row<T>>, k: K, f: T -> X, r: Row<T>,
                                      first: Row<T>)
    requires IsNewest(key, rows, k, r) && TiesAgree(key, rows, k, f)
    requires first in LatestRows(key, rows) && key(first.data) == k
    ensures r.time == first.time && f(r.data) == f(first.data)
  {
    FilterMember(RankedFirst(key, Descending, rows), rows);
    RankedFirstIsNewest(key, rows, first);
  }

  /** Pruning and taking the newest of each partition commute. */
  lemma PruningCommutesWithLatest<T, K>(key: T -> K, rows: seq<Row<T>>, cutoff: int)
    ensures LatestRows(key, Kept(rows, cutoff)) == Kept(LatestRows(key, rows), cutoff)
  {
    var kept := Kept(rows, cutoff);
    FilterMember(From<T>(cutoff), rows);
    forall r | r in kept ensures RankedFirst(key, Descending, kept)(r) == RankedFirst(key, Descending, rows)(r) {
      FilterWithin(PrecedingPeer(key, Descending, r), From(cutoff), rows);
    }
    FilterAgree(RankedFirst(key, Descending, kept), RankedFirst(key, Descending, rows), kept);
    FilterCommutes(RankedFirst(key, Descending, rows), From(cutoff), rows);
  }
}
