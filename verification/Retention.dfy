/** Age-based pruning of the append-only tables (src/taskowl/maintenance.py). */
module Retention {
  import opened Rows

  /** A table that statements read and change in place. */
  class Table<T> {
    var rows: seq<Row<T>>
    var next: int

    constructor ()
      ensures Contents() == Empty() && Valid()
    {
      rows, next := [], 1;
    }

    ghost predicate Valid()
      reads this
    {
      WellKeyed(Contents())
    }

    function Contents(): Snapshot<T>
      reads this
    {
      Snapshot(rows, next)
    }

    method Insert(time: int, data: T)
      requires Valid()
      modifies this
      ensures Valid()
      ensures Contents() == Append(old(Contents()), time, data)
    {
      rows, next := rows + [Row(next, time, data)], next + 1;
    }

    /** DELETE ... WHERE id IN ids; reports the row count. */
    method DeleteIds(ids: seq<int>) returns (rowcount: nat)
      requires Valid()
      modifies this
      ensures Valid() && next == old(next)
      ensures rows == Filter(IdNotIn(ids), old(rows))
      ensures rowcount == |old(rows)| - |rows|
    {
      FilterMember(IdNotIn<T>(ids), rows);
      FilterOrdered(IdNotIn<T>(ids), rows);
      var rest := Filter(IdNotIn(ids), rows);
      rowcount := |rows| - |rest|;
      rows := rest;
    }
  }

  function IdOf<T>(): Row<T> -> int {
    (r: Row<T>) => r.id
  }

  function IdNotIn<T>(ids: seq<int>): Row<T> -> bool {
    (r: Row<T>) => r.id !in ids
  }

  function Min(a: nat, b: nat): nat {
    if a <= b then a else b
  }

  /** SELECT id WHERE time < cutoff ORDER BY id LIMIT limit. */
  function BatchIds<T>(rows: seq<Row<T>>, cutoff: int, limit: nat): seq<int> {
    var aged := Old(rows, cutoff);
    Apply(IdOf(), aged[..Min(limit, |aged|)])
  }

  /** Retention of zero days keeps everything. */
  function Pruned<T>(rows: seq<Row<T>>, moment: int, days: int): seq<Row<T>> {
    if days > 0 then Kept(rows, moment - days * DAY) else rows
  }

  /** A retention of so many days reaches back at least so many seconds. */
  predicate Covers(days: int, limitSeconds: int) {
    days <= 0 || limitSeconds * SECOND <= days * DAY
  }

  /** One atomic batch of the prune loop. */
  function DeleteBatch<T>(rows: seq<Row<T>>, cutoff: int, limit: nat): seq<Row<T>> {
    Filter(IdNotIn(BatchIds(rows, cutoff, limit)), rows)
  }

  lemma BatchSparesFresh<T>(rows: seq<Row<T>>, cutoff: int, limit: nat)
    requires Ordered(rows)
    ensures Kept(DeleteBatch(rows, cutoff, limit), cutoff) == Kept(rows, cutoff)
  {
    var aged := Old(rows, cutoff);
    var ids := BatchIds(rows, cutoff, limit);
    FilterMember(Before<T>(cutoff), rows);
    forall r | r in rows && From(cutoff)(r) ensures IdNotIn<T>(ids)(r) {
      forall i | 0 <= i < |ids| ensures ids[i] != r.id {
        DistinctIds(rows, r, aged[i]);
      }
    }
    FilterWithin(From(cutoff), IdNotIn(ids), rows);
  }

  lemma TakenIdsSplitOld<T>(aged: seq<Row<T>>, n: nat)
    requires Ordered(aged) && n <= |aged|
    ensures Filter(IdNotIn(Apply(IdOf(), aged[..n])), aged) == aged[n..]
  {
    var ids := Apply(IdOf(), aged[..n]);
    forall i | 0 <= i < |aged| ensures aged[i].id in ids <==> i < n {
      if i < n {
        assert ids[i] == aged[i].id;
      }
    }
    FilterTail(IdNotIn(ids), aged, n);
  }

  lemma BatchTakesOld<T>(rows: seq<Row<T>>, cutoff: int, limit: nat)
    requires Ordered(rows)
    ensures Old(DeleteBatch(rows, cutoff, limit), cutoff)
         == Old(rows, cutoff)[Min(limit, |Old(rows, cutoff)|)..]
  {
    FilterOrdered(Before<T>(cutoff), rows);
    FilterCommutes(Before(cutoff), IdNotIn(BatchIds(rows, cutoff, limit)), rows);
    TakenIdsSplitOld(Old(rows, cutoff), Min(limit, |Old(rows, cutoff)|));
  }

  /** A batch takes the lowest-keyed expired rows, as many as fit, and nothing else. */
  lemma BatchIsExact<T>(rows: seq<Row<T>>, cutoff: int, limit: nat)
    requires Ordered(rows)
    ensures var rest, n := DeleteBatch(rows, cutoff, limit), Min(limit, |Old(rows, cutoff)|);
            && Ordered(rest)
            && Kept(rest, cutoff) == Kept(rows, cutoff)
            && Old(rest, cutoff) == Old(rows, cutoff)[n..]
            && |rows| - |rest| == n
  {
    var rest := DeleteBatch(rows, cutoff, limit);
    BatchSparesFresh(rows, cutoff, limit);
    BatchTakesOld(rows, cutoff, limit);
    FilterOrdered(IdNotIn<T>(BatchIds(rows, cutoff, limit)), rows);
    FilterSplit(From<T>(cutoff), Before<T>(cutoff), rows);
    FilterSplit(From<T>(cutoff), Before<T>(cutoff), rest);
  }

  lemma NoOldRowsLeft<T>(rows: seq<Row<T>>, cutoff: int)
    requires Old(rows, cutoff) == []
    ensures Kept(rows, cutoff) == rows
  {
    FilterMember(Before<T>(cutoff), rows);
    forall r | r in rows ensures From(cutoff)(r) {
      assert !Before<T>(cutoff)(r);
    }
    FilterAll(From(cutoff), rows);
  }

  lemma OneMoreBatch(batches: nat, batchSize: nat)
    ensures (batches + 1) * batchSize == batches * batchSize + batchSize
  {
  }

  /** _prune_table. The count of DELETE statements is what the loop costs. */
  method PruneTable<T>(table: Table<T>, cutoff: int, batchSize: nat, dryRun: bool)
    returns (total: nat, deletes: nat)
    requires table.Valid() && (dryRun || batchSize >= 1)
    modifies table
    ensures table.Valid() && table.next == old(table.next)
    ensures total == |Old(old(table.rows), cutoff)|
    ensures dryRun ==> table.rows == old(table.rows) && deletes == 0
    ensures !dryRun ==> table.rows == Kept(old(table.rows), cutoff)
    ensures !dryRun ==> deletes >= 1 && (deletes - 1) * batchSize <= total < deletes * batchSize
  {
    total, deletes := 0, 0;
    if dryRun {
      total := |Old(table.rows, cutoff)|;
      return;
    }
    ghost var start := table.rows;
    while true
      invariant table.Valid() && table.next == old(table.next)
      invariant Kept(table.rows, cutoff) == Kept(start, cutoff)
      invariant total + |Old(table.rows, cutoff)| == |Old(start, cutoff)|
      invariant total == deletes * batchSize
      decreases |Old(table.rows, cutoff)|
    {
      BatchIsExact(table.rows, cutoff, batchSize);
      var deleted := table.DeleteIds(BatchIds(table.rows, cutoff, batchSize));
      OneMoreBatch(deletes, batchSize);
      total := total + deleted;
      deletes := deletes + 1;
      if deleted < batchSize {
        NoOldRowsLeft(table.rows, cutoff);
        break;
      }
    }
  }
}
