/** One retention pass over the three tables (src/taskowl/maintenance.py). */
module Maintenance {
  import opened Rows
  import opened Retention
  import opened Events
  import opened Workflow

  datatype RetentionSettings = RetentionSettings(eventRetentionDays: int, automationRunRetentionDays: int,
                                                 batchSize: nat)

  function OrElse(override: Option<int>, setting: int): int {
    if override.Some? then override.value else setting
  }

  /** batch_size or settings.retention_batch_size: zero falls back like None. */
  function EffectiveBatch(batchSize: Option<nat>, s: RetentionSettings): nat {
    if batchSize.Some? && batchSize.value != 0 then batchSize.value else s.batchSize
  }

  function Expired<T>(rows: seq<Row<T>>, moment: int, days: int): nat {
    if days > 0 then |Old(rows, moment - days * DAY)| else 0
  }

  datatype Counts = Counts(taskEvents: nat, workerEvents: nat, automationRuns: nat)

  lemma {:induction false} RowsAreDistinct<T>(rows: seq<Row<T>>)
    requires Ordered(rows)
    ensures |set r | r in rows| == |rows|
  {
    if rows != [] {
      RowsAreDistinct(rows[1..]);
      assert forall r :: r in rows[1..] ==> r.id > rows[0].id;
      assert (set r | r in rows) == {rows[0]} + set r | r in rows[1..];
    }
  }

  /** What a pass leaves of a table, row by row, ... */
  lemma PrunedMember<T>(rows: seq<Row<T>>, moment: int, days: int, r: Row<T>)
    ensures r in Pruned(rows, moment, days) <==>
              r in rows && (days <= 0 || r.time >= moment - days * 86_400_000_000)
  {
    FilterMember(From<T>(moment - days * DAY), rows);
  }

  /** ... and what it counts. */
  lemma PrunedInFields<T>(rows: seq<Row<T>>, moment: int, days: int)
    requires Ordered(rows)
    ensures Expired(rows, moment, days)
         == |set r | r in rows && days > 0 && r.time < moment - days * 86_400_000_000|
    ensures Expired(rows, moment, days) == |rows| - |Pruned(rows, moment, days)|
  {
    var cutoff := moment - days * DAY;
    FilterMember(Before<T>(cutoff), rows);
    FilterOrdered(Before<T>(cutoff), rows);
    RowsAreDistinct(Old(rows, cutoff));
    FilterSplit(Before<T>(cutoff), From(cutoff), rows);
    if days > 0 {
      assert (set r | r in rows && days > 0 && r.time < moment - days * 86_400_000_000)
          == set r | r in Old(rows, cutoff);
    } else {
      assert (set r | r in rows && days > 0 && r.time < moment - days * 86_400_000_000) == {};
    }
  }

  /** One table's part of the pass: nothing unless its window is enabled. */
  method PruneByAge<T>(table: Table<T>, moment: int, days: int, batch: nat, dryRun: bool)
    returns (count: nat, deletes: nat)
    requires table.Valid() && (dryRun || days <= 0 || batch >= 1)
    modifies table
    ensures table.Valid() && table.next == old(table.next)
    ensures forall r :: r in table.rows <==>
              r in old(table.rows) && (dryRun || days <= 0 || r.time >= moment - days * 86_400_000_000)
    ensures count == |set r | r in old(table.rows) && days > 0 && r.time < moment - days * 86_400_000_000|
    ensures !dryRun ==> count == |old(table.rows)| - |table.rows|
    ensures dryRun || days <= 0 ==> deletes == 0
    ensures !dryRun && days > 0 ==> deletes >= 1 && (deletes - 1) * batch <= count < deletes * batch
  {
    ghost var before := table.rows;
    PrunedInFields(before, moment, days);
    count, deletes := 0, 0;
    if days > 0 {
      count, deletes := PruneTable(table, moment - days * DAY, batch, dryRun);
    }
    ghost var after := table.rows;
    forall r: Row<T>
      ensures r in after <==> r in before && (dryRun || days <= 0 || r.time >= moment - days * 86_400_000_000)
    {
      if !dryRun {
        PrunedMember(before, moment, days, r);
      }
    }
  }

  /** prune_events. Each table is pruned by its own window, the caller's if given, or not at all: it keeps, in key
      order, the rows it had that are not older than so many days, and the count is that of the others. It takes as
      many DELETE statements as batches fit into that count, and one more; 0 for the batch size falls back to the
      setting, as None does. */
  method PruneEvents(tasks: Table<TaskEvent>, workers: Table<WorkerEvent>, runs: Table<Run>,
                     moment: int, dryRun: bool, batchSize: Option<nat>,
                     eventRetentionDays: Option<int>, automationRunRetentionDays: Option<int>, s: RetentionSettings)
    returns (counts: Counts, deletes: Counts)
    requires tasks.Valid() && workers.Valid() && runs.Valid()
    requires
      || dryRun || (batchSize.Some? && batchSize.value >= 1) || s.batchSize >= 1
      || ((if eventRetentionDays.Some? then eventRetentionDays.value else s.eventRetentionDays) <= 0
          && (if automationRunRetentionDays.Some? then automationRunRetentionDays.value
              else s.automationRunRetentionDays) <= 0)
    modifies tasks, workers, runs
    ensures tasks.Valid() && workers.Valid() && runs.Valid()
    ensures var days := if eventRetentionDays.Some? then eventRetentionDays.value else s.eventRetentionDays;
            && (forall r :: r in tasks.rows <==>
                  r in old(tasks.rows) && (dryRun || days <= 0 || r.time >= moment - days * 86_400_000_000))
            && counts.taskEvents
                 == |set r | r in old(tasks.rows) && days > 0 && r.time < moment - days * 86_400_000_000|
    ensures !dryRun ==> counts.taskEvents == |old(tasks.rows)| - |tasks.rows|
    ensures var days := if eventRetentionDays.Some? then eventRetentionDays.value else s.eventRetentionDays;
            && (forall r :: r in workers.rows <==>
                  r in old(workers.rows) && (dryRun || days <= 0 || r.time >= moment - days * 86_400_000_000))
            && counts.workerEvents
                 == |set r | r in old(workers.rows) && days > 0 && r.time < moment - days * 86_400_000_000|
    ensures !dryRun ==> counts.workerEvents == |old(workers.rows)| - |workers.rows|
    ensures var days := if automationRunRetentionDays.Some? then automationRunRetentionDays.value
                        else s.automationRunRetentionDays;
            && (forall r :: r in runs.rows <==>
                  r in old(runs.rows) && (dryRun || days <= 0 || r.time >= moment - days * 86_400_000_000))
            && counts.automationRuns
                 == |set r | r in old(runs.rows) && days > 0 && r.time < moment - days * 86_400_000_000|
    ensures !dryRun ==> counts.automationRuns == |old(runs.rows)| - |runs.rows|
    ensures var batch := if batchSize.Some? && batchSize.value != 0 then batchSize.value else s.batchSize;
            var days := if eventRetentionDays.Some? then eventRetentionDays.value else s.eventRetentionDays;
            !dryRun && days > 0 ==>
              && deletes.taskEvents >= 1 && deletes.workerEvents >= 1
              && (deletes.taskEvents - 1) * batch <= counts.taskEvents < deletes.taskEvents * batch
              && (deletes.workerEvents - 1) * batch <= counts.workerEvents < deletes.workerEvents * batch
    ensures var batch := if batchSize.Some? && batchSize.value != 0 then batchSize.value else s.batchSize;
            var days := if automationRunRetentionDays.Some? then automationRunRetentionDays.value
                        else s.automationRunRetentionDays;
            !dryRun && days > 0 ==>
              && deletes.automationRuns >= 1
              && (deletes.automationRuns - 1) * batch <= counts.automationRuns < deletes.automationRuns * batch
  {
    var batch := EffectiveBatch(batchSize, s);
    var eventDays := OrElse(eventRetentionDays, s.eventRetentionDays);
    var runDays := OrElse(automationRunRetentionDays, s.automationRunRetentionDays);
    var tasksGone, taskDeletes := PruneByAge(tasks, moment, eventDays, batch, dryRun);
    var workersGone, workerDeletes := PruneByAge(workers, moment, eventDays, batch, dryRun);
    var runsGone, runDeletes := PruneByAge(runs, moment, runDays, batch, dryRun);
    counts := Counts(tasksGone, workersGone, runsGone);
    deletes := Counts(taskDeletes, workerDeletes, runDeletes);
  }
}
