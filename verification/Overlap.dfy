/** Several prunes of one table at once, and prunes that are killed and run again.
    Each DELETE batch is one atomic step; new rows may arrive between batches. */
module Overlap {
  import opened Rows
  import opened Retention

  /** One call of the prune loop: its batch size, the cutoff its own clock gave it, what it has counted, and
      whether it returned. */
  datatype Pruner = Pruner(batch: nat, cutoff: int, total: int, done: bool)

  datatype Action<+T> = Batch(pruner: nat) | Arrive(time: int, data: T)

  datatype State<+T> = State(table: Snapshot<T>, pruners: seq<Pruner>)

  function Act<T>(s: State<T>, a: Action<T>): State<T> {
    match a
    case Arrive(time, data) => s.(table := Append(s.table, time, data))
    case Batch(p) =>
      if p >= |s.pruners| || s.pruners[p].done then s
      else
        var me := s.pruners[p];
        var rest := DeleteBatch(s.table.rows, me.cutoff, me.batch);
        var deleted := |s.table.rows| - |rest|;
        State(s.table.(rows := rest),
              s.pruners[p := me.(total := me.total + deleted, done := deleted < me.batch)])
  }

  function Perform<T>(s: State<T>, actions: seq<Action<T>>): State<T> {
    if actions == [] then s
    else Act(Perform(s, actions[..|actions| - 1]), actions[|actions| - 1])
  }

  /** The same schedule with every delete left out. */
  function Undeleted<T>(table: Snapshot<T>, actions: seq<Action<T>>): Snapshot<T> {
    if actions == [] then table
    else
      var before := Undeleted(table, actions[..|actions| - 1]);
      match actions[|actions| - 1]
      case Arrive(time, data) => Append(before, time, data)
      case Batch(_) => before
  }

  function Deleted(pruners: seq<Pruner>): int {
    if pruners == [] then 0 else pruners[0].total + Deleted(pruners[1..])
  }

  ghost predicate Starting(pruners: seq<Pruner>) {
    forall p :: p in pruners ==> p.total == 0 && !p.done
  }

  lemma {:induction false} DeletedUpdate(pruners: seq<Pruner>, i: nat, p: Pruner)
    requires i < |pruners|
    ensures Deleted(pruners[i := p]) == Deleted(pruners) - pruners[i].total + p.total
  {
    if i > 0 {
      assert pruners[i := p][1..] == pruners[1..][i - 1 := p];
      DeletedUpdate(pruners[1..], i - 1, p);
    } else {
      assert pruners[i := p][1..] == pruners[1..];
    }
  }

  lemma {:induction false} NothingDeletedYet(pruners: seq<Pruner>)
    requires Starting(pruners)
    ensures Deleted(pruners) == 0
  {
    if pruners != [] {
      assert pruners[0] in pruners;
      NothingDeletedYet(pruners[1..]);
    }
  }

  lemma WellKeyedAppend<T>(s: Snapshot<T>, time: int, data: T)
    requires WellKeyed(s)
    ensures WellKeyed(Append(s, time, data))
  {
    var t := Append(s, time, data);
    forall r | r in t.rows ensures r.id < t.next {
      assert r in s.rows || r == Row(s.next, time, data);
    }
    forall i, j | 0 <= i < j < |t.rows| ensures t.rows[i].id < t.rows[j].id {
      assert s.rows[i] in s.rows;
    }
  }

  /** No pruner's cutoff is later. */
  ghost predicate CutoffsUpTo(pruners: seq<Pruner>, latest: int) {
    forall p :: p in pruners ==> p.cutoff <= latest
  }

  ghost predicate SameCutoffs(pruners: seq<Pruner>, later: seq<Pruner>) {
    |pruners| == |later| && forall i :: 0 <= i < |pruners| ==> pruners[i].cutoff == later[i].cutoff
  }

  lemma BatchSparesFromLatest<T>(rows: seq<Row<T>>, cutoff: int, latest: int, limit: nat)
    requires Ordered(rows) && cutoff <= latest
    ensures Kept(DeleteBatch(rows, cutoff, limit), latest) == Kept(rows, latest)
  {
    BatchSparesFresh(rows, cutoff, limit);
    FilterWithin(From(latest), From(cutoff), rows);
    FilterWithin(From(latest), From(cutoff), DeleteBatch(rows, cutoff, limit));
  }

  lemma KeptAndOld<T>(rows: seq<Row<T>>, cutoff: int)
    ensures |Kept(rows, cutoff)| + |Old(rows, cutoff)| == |rows|
  {
    FilterSplit(From<T>(cutoff), Before<T>(cutoff), rows);
  }

  lemma BatchDeletesWhatItCounts<T>(rows: seq<Row<T>>, cutoff: int, latest: int, limit: nat)
    requires Ordered(rows) && cutoff <= latest
    ensures var rest := DeleteBatch(rows, cutoff, limit);
            Ordered(rest) && |Old(rows, latest)| - |Old(rest, latest)| == |rows| - |rest|
  {
    BatchIsExact(rows, cutoff, limit);
    BatchSparesFromLatest(rows, cutoff, latest, limit);
    KeptAndOld(rows, latest);
    KeptAndOld(DeleteBatch(rows, cutoff, limit), latest);
  }

  /** What every schedule of overlapping pruners keeps, each with its own cutoff. */
  ghost predicate Conserved<T>(s: State<T>, all: Snapshot<T>, pruners: seq<Pruner>, latest: int) {
    && WellKeyed(s.table) && s.table.next == all.next && SameCutoffs(pruners, s.pruners)
    && Kept(s.table.rows, latest) == Kept(all.rows, latest)
    && Deleted(s.pruners) + |Old(s.table.rows, latest)| == |Old(all.rows, latest)|
  }

  lemma ArrivalConserves<T>(s: State<T>, all: Snapshot<T>, pruners: seq<Pruner>, latest: int, time: int, data: T)
    requires Conserved(s, all, pruners, latest)
    ensures Conserved(Act(s, Arrive(time, data)), Append(all, time, data), pruners, latest)
  {
    WellKeyedAppend(s.table, time, data);
    FilterAppend(From(latest), s.table.rows, Row(s.table.next, time, data));
    FilterAppend(From(latest), all.rows, Row(all.next, time, data));
    FilterAppend(Before(latest), s.table.rows, Row(s.table.next, time, data));
    FilterAppend(Before(latest), all.rows, Row(all.next, time, data));
  }

  lemma BatchConserves<T>(s: State<T>, all: Snapshot<T>, pruners: seq<Pruner>, latest: int, p: nat)
    requires Conserved(s, all, pruners, latest) && CutoffsUpTo(pruners, latest) && p < |s.pruners| && !s.pruners[p].done
    ensures Conserved(Act(s, Batch(p)), all, pruners, latest)
  {
    var me := s.pruners[p];
    assert pruners[p] in pruners;
    BatchDeletesWhatItCounts(s.table.rows, me.cutoff, latest, me.batch);
    BatchSparesFromLatest(s.table.rows, me.cutoff, latest, me.batch);
    FilterMember(IdNotIn<T>(BatchIds(s.table.rows, me.cutoff, me.batch)), s.table.rows);
    DeletedUpdate(s.pruners, p, Act(s, Batch(p)).pruners[p]);
  }

  /** Whatever the schedule: rows at or after the latest cutoff are never touched, and every older row is either
      still there or counted by exactly one pruner. */
  lemma {:induction false} EveryScheduleConserves<T>(table: Snapshot<T>, pruners: seq<Pruner>, latest: int,
                                                     actions: seq<Action<T>>)
    requires WellKeyed(table) && Starting(pruners) && CutoffsUpTo(pruners, latest)
    ensures Conserved(Perform(State(table, pruners), actions), Undeleted(table, actions), pruners, latest)
  {
    if actions == [] {
      NothingDeletedYet(pruners);
    } else {
      var init, a := actions[..|actions| - 1], actions[|actions| - 1];
      EveryScheduleConserves(table, pruners, latest, init);
      var s, all := Perform(State(table, pruners), init), Undeleted(table, init);
      match a
      case Arrive(time, data) => ArrivalConserves(s, all, pruners, latest, time, data);
      case Batch(p) =>
        if p < |s.pruners| && !s.pruners[p].done {
          BatchConserves(s, all, pruners, latest, p);
        }
    }
  }

  ghost predicate NoLateArrivals<T>(cutoff: int, actions: seq<Action<T>>) {
    forall a :: a in actions && a.Arrive? ==> a.time >= cutoff
  }

  lemma NothingOldStays<T>(rows: seq<Row<T>>, p: Row<T> -> bool, cutoff: int)
    requires Old(rows, cutoff) == []
    ensures Old(Filter(p, rows), cutoff) == []
  {
    FilterCommutes(Before(cutoff), p, rows);
  }

  lemma LastBatchLeavesNothing<T>(s: State<T>, p: nat)
    requires WellKeyed(s.table) && p < |s.pruners| && !s.pruners[p].done && Act(s, Batch(p)).pruners[p].done
    ensures Old(Act(s, Batch(p)).table.rows, s.pruners[p].cutoff) == []
  {
    BatchIsExact(s.table.rows, s.pruners[p].cutoff, s.pruners[p].batch);
  }

  /** Once a pruner has returned, nothing older than its own cutoff is left, whatever the others do. */
  lemma {:induction false} ADonePrunerLeftNothing<T>(table: Snapshot<T>, pruners: seq<Pruner>, latest: int,
                                                     actions: seq<Action<T>>, p: nat)
    requires WellKeyed(table) && Starting(pruners) && CutoffsUpTo(pruners, latest) && p < |pruners|
    requires NoLateArrivals(pruners[p].cutoff, actions)
    ensures var s := Perform(State(table, pruners), actions);
            SameCutoffs(pruners, s.pruners) && (s.pruners[p].done ==> Old(s.table.rows, pruners[p].cutoff) == [])
  {
    EveryScheduleConserves(table, pruners, latest, actions);
    if actions != [] {
      var init, a := actions[..|actions| - 1], actions[|actions| - 1];
      ADonePrunerLeftNothing(table, pruners, latest, init, p);
      EveryScheduleConserves(table, pruners, latest, init);
      var s := Perform(State(table, pruners), init);
      assert a in actions;
      match a
      case Arrive(time, data) =>
        FilterAppend(Before(pruners[p].cutoff), s.table.rows, Row(s.table.next, time, data));
      case Batch(q) =>
        if q < |s.pruners| && !s.pruners[q].done {
          if s.pruners[p].done {
            NothingOldStays(s.table.rows, IdNotIn(BatchIds(s.table.rows, s.pruners[q].cutoff, s.pruners[q].batch)),
                            pruners[p].cutoff);
          } else if q == p && Act(s, a).pruners[p].done {
            LastBatchLeavesNothing(s, p);
          }
        }
    } else {
      assert pruners[p] in pruners;
    }
  }

  predicate Returned<T>(s: State<T>, p: nat) {
    p < |s.pruners| && s.pruners[p].done
  }

  /** "Overlapping runs are safe but redundant": any number of overlapping, killed or restarted prunes, each at
      the cutoff of its own clock. A prune that has returned leaves nothing older than its cutoff; rows at or
      after the latest cutoff are untouched; and the totals are the rows deleted. */
  lemma OverlapIsSafe<T>(table: Snapshot<T>, pruners: seq<Pruner>, latest: int, actions: seq<Action<T>>, p: nat)
    requires WellKeyed(table) && Starting(pruners) && CutoffsUpTo(pruners, latest) && p < |pruners|
    requires NoLateArrivals(pruners[p].cutoff, actions) && Returned(Perform(State(table, pruners), actions), p)
    ensures var s, all := Perform(State(table, pruners), actions), Undeleted(table, actions);
            && Old(s.table.rows, pruners[p].cutoff) == []
            && Kept(s.table.rows, latest) == Kept(all.rows, latest)
            && Deleted(s.pruners) == |all.rows| - |s.table.rows|
  {
    EveryScheduleConserves(table, pruners, latest, actions);
    ADonePrunerLeftNothing(table, pruners, latest, actions, p);
    KeptAndOld(Perform(State(table, pruners), actions).table.rows, latest);
    KeptAndOld(Undeleted(table, actions).rows, latest);
  }

  /** So as soon as a prune with the latest cutoff has returned, the table is exactly what a single uninterrupted
      prune at that cutoff leaves, and the totals add up to what it would have counted. */
  lemma LatestPruneDecides<T>(table: Snapshot<T>, pruners: seq<Pruner>, actions: seq<Action<T>>, p: nat)
    requires WellKeyed(table) && Starting(pruners) && p < |pruners| && CutoffsUpTo(pruners, pruners[p].cutoff)
    requires NoLateArrivals(pruners[p].cutoff, actions) && Returned(Perform(State(table, pruners), actions), p)
    ensures var s, cutoff := Perform(State(table, pruners), actions), pruners[p].cutoff;
            && s.table.rows == Kept(Undeleted(table, actions).rows, cutoff)
            && Deleted(s.pruners) == |Old(table.rows, cutoff)|
  {
    var cutoff := pruners[p].cutoff;
    EveryScheduleConserves(table, pruners, cutoff, actions);
    ADonePrunerLeftNothing(table, pruners, cutoff, actions, p);
    NoOldRowsLeft(Perform(State(table, pruners), actions).table.rows, cutoff);
    FreshArrivalsAddNoOldRows(table, cutoff, actions);
  }

  lemma {:induction false} FreshArrivalsAddNoOldRows<T>(table: Snapshot<T>, cutoff: int, actions: seq<Action<T>>)
    requires NoLateArrivals(cutoff, actions)
    ensures Old(Undeleted(table, actions).rows, cutoff) == Old(table.rows, cutoff)
  {
    if actions != [] {
      var init, a := actions[..|actions| - 1], actions[|actions| - 1];
      FreshArrivalsAddNoOldRows(table, cutoff, init);
      assert a in actions;
      if a.Arrive? {
        var all := Undeleted(table, init);
        FilterAppend(Before(cutoff), all.rows, Row(all.next, a.time, a.data));
      }
    }
  }

  /** The loop of _prune_table as a bare iteration: the table before its k-th DELETE. */
  function Iteration<T>(rows: seq<Row<T>>, cutoff: int, batch: nat, k: nat): seq<Row<T>> {
    if k == 0 then rows else DeleteBatch(Iteration(rows, cutoff, batch, k - 1), cutoff, batch)
  }

  ghost predicate EndsAt<T>(rows: seq<Row<T>>, cutoff: int, batch: nat, k: nat) {
    |Iteration(rows, cutoff, batch, k)| - |Iteration(rows, cutoff, batch, k + 1)| < batch
  }

  lemma {:induction false} OldRowsAtIteration<T>(rows: seq<Row<T>>, cutoff: int, batch: nat, k: nat)
    requires Ordered(rows)
    ensures var it, n := Iteration(rows, cutoff, batch, k), |Old(rows, cutoff)|;
            && Ordered(it)
            && |Old(it, cutoff)| == if k * batch <= n then n - k * batch else 0
  {
    if k > 0 {
      OldRowsAtIteration(rows, cutoff, batch, k - 1);
      BatchIsExact(Iteration(rows, cutoff, batch, k - 1), cutoff, batch);
      assert k * batch == (k - 1) * batch + batch;
    }
  }

  /** The loop ends exactly when the batch size is positive: a RETENTION_BATCH_SIZE of zero,
      which nothing rejects, deletes nothing for ever. */
  lemma LoopEndsIffBatchPositive<T>(rows: seq<Row<T>>, cutoff: int, batch: nat)
    requires Ordered(rows)
    ensures (exists k: nat :: EndsAt(rows, cutoff, batch, k)) <==> batch >= 1
    ensures batch == 0 ==> forall k: nat :: Iteration(rows, cutoff, batch, k) == rows
  {
    if batch >= 1 {
      var k := |Old(rows, cutoff)|;
      assert k * batch >= k;
      OldRowsAtIteration(rows, cutoff, batch, k);
      BatchIsExact(Iteration(rows, cutoff, batch, k), cutoff, batch);
      assert EndsAt(rows, cutoff, batch, k);
    } else {
      forall k: nat ensures Iteration(rows, cutoff, 0, k) == rows {
        ZeroBatchesDoNothing(rows, cutoff, k);
      }
      forall k: nat ensures !EndsAt(rows, cutoff, 0, k) {
        ZeroBatchesDoNothing(rows, cutoff, k);
        ZeroBatchesDoNothing(rows, cutoff, k + 1);
      }
    }
  }

  lemma {:induction false} ZeroBatchesDoNothing<T>(rows: seq<Row<T>>, cutoff: int, k: nat)
    ensures Iteration(rows, cutoff, 0, k) == rows
  {
    if k > 0 {
      ZeroBatchesDoNothing(rows, cutoff, k - 1);
      assert BatchIds(rows, cutoff, 0) == [];
      FilterAll(IdNotIn([]), rows);
    }
  }
}
