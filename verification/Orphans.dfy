/** Worker liveness and orphaned tasks: one query for all against one test for each
    (src/taskowl/queries.py). */
module Orphans {
  import opened Rows
  import opened Events
  import opened Latest
  import opened Retention

  const STARTED := "started"
  const OFFLINE := "offline"

  datatype Settings = Settings(orphanGraceSeconds: int, workerOfflineTimeoutSeconds: int)

  /** A worker seen at its latest row; a worker without rows is taken to be offline. */
  predicate Offline(latest: Option<Row<WorkerEvent>>, now: int, timeoutSeconds: int) {
    match latest
    case None => true
    case Some(r) => r.data.eventType == OFFLINE || now - r.time > timeoutSeconds * SECOND
  }

  /** The host has no worker row, or its latest one, by time and then key, is an offline event or too old. */
  ghost predicate IsDead(workers: seq<Row<WorkerEvent>>, host: string, now: int, timeoutSeconds: int) {
    forall w | w in workers && w.data.hostname == host && (forall v | v in workers && v.data.hostname == host ::
                 v.time < w.time || (v.time == w.time && v.id <= w.id)) ::
      w.data.eventType == "offline" || now - w.time > timeoutSeconds * 1_000_000
  }

  /** worker_offline.get(host, True) */
  predicate OfflineIn(offlineMap: map<string, bool>, host: string) {
    if host in offlineMap then offlineMap[host] else true
  }

  /** _workers_offline_map */
  method WorkersOfflineMap(workers: seq<Row<WorkerEvent>>, now: int, timeoutSeconds: int)
    returns (offlineMap: map<string, bool>)
    requires Ordered(workers)
    ensures offlineMap == OfflineMap(workers, now, timeoutSeconds)
    ensures forall host :: host in offlineMap <==> exists w :: w in workers && w.data.hostname == host
    ensures forall host :: host in offlineMap ==> (offlineMap[host] <==> IsDead(workers, host, now, timeoutSeconds))
  {
    var latest := LatestRows(HostOf(), workers);
    offlineMap := map[];
    for i := 0 to |latest|
      invariant offlineMap == MapOf(latest[..i], now, timeoutSeconds)
    {
      var r := latest[i];
      assert latest[..i + 1][..i] == latest[..i];
      if r.data.eventType == OFFLINE {
        offlineMap := offlineMap[r.data.hostname := true];
      } else {
        offlineMap := offlineMap[r.data.hostname := now - r.time > timeoutSeconds * SECOND];
      }
    }
    assert latest[..|latest|] == latest;
    OfflineMapCoversHosts(workers, now, timeoutSeconds);
    forall host | host in offlineMap ensures offlineMap[host] <==> IsDead(workers, host, now, timeoutSeconds) {
      OfflineMapIsDead(workers, now, timeoutSeconds, host);
    }
  }

  function MapOf(latest: seq<Row<WorkerEvent>>, now: int, timeoutSeconds: int): map<string, bool> {
    if latest == [] then map[]
    else
      var r := latest[|latest| - 1];
      MapOf(latest[..|latest| - 1], now, timeoutSeconds)[r.data.hostname := Offline(Some(r), now, timeoutSeconds)]
  }

  function OfflineMap(workers: seq<Row<WorkerEvent>>, now: int, timeoutSeconds: int): map<string, bool> {
    MapOf(LatestRows(HostOf(), workers), now, timeoutSeconds)
  }

  lemma {:induction false} MapOfEntries(latest: seq<Row<WorkerEvent>>, now: int, timeoutSeconds: int)
    requires forall r, q :: r in latest && q in latest && r.data.hostname == q.data.hostname ==> r == q
    ensures forall r :: r in latest ==>
              var m := MapOf(latest, now, timeoutSeconds);
              r.data.hostname in m && m[r.data.hostname] == Offline(Some(r), now, timeoutSeconds)
    ensures forall h :: h in MapOf(latest, now, timeoutSeconds) ==> exists r :: r in latest && r.data.hostname == h
  {
    if latest != [] {
      var init, last := latest[..|latest| - 1], latest[|latest| - 1];
      assert latest == init + [last];
      assert last in latest;
      MapOfEntries(init, now, timeoutSeconds);
      forall h | h in MapOf(latest, now, timeoutSeconds) ensures exists r :: r in latest && r.data.hostname == h {
        if h != last.data.hostname {
          var r :| r in init && r.data.hostname == h;
          assert r in latest;
        }
      }
    }
  }

  /** The map, read with default True, is the verdict on the host's row that the window ranks first. */
  lemma OfflineMapReadsLatest(workers: seq<Row<WorkerEvent>>, now: int, timeoutSeconds: int, host: string)
    returns (latest: Option<Row<WorkerEvent>>)
    requires Ordered(workers)
    ensures OfflineIn(OfflineMap(workers, now, timeoutSeconds), host) == Offline(latest, now, timeoutSeconds)
    ensures latest.None? <==> forall q :: q in workers ==> q.data.hostname != host
    ensures latest.Some? ==> latest.value in LatestRows(HostOf(), workers) && latest.value.data.hostname == host
  {
    var rows := LatestRows(HostOf(), workers);
    FilterMember(RankedFirst(HostOf(), Descending, workers), workers);
    forall r, q | r in rows && q in rows && r.data.hostname == q.data.hostname ensures r == q {
      RankedFirstUnique(HostOf(), Descending, workers, r, q);
    }
    MapOfEntries(rows, now, timeoutSeconds);
    if q :| q in workers && q.data.hostname == host {
      var r := RankedFirstExists(HostOf(), Descending, workers, q);
      latest := Some(r);
    } else {
      latest := None;
    }
  }

  lemma OfflineMapCoversHosts(workers: seq<Row<WorkerEvent>>, now: int, timeoutSeconds: int)
    requires Ordered(workers)
    ensures forall host :: host in OfflineMap(workers, now, timeoutSeconds)
                           <==> exists w :: w in workers && w.data.hostname == host
  {
    var rows := LatestRows(HostOf(), workers);
    FilterMember(RankedFirst(HostOf(), Descending, workers), workers);
    forall r, q | r in rows && q in rows && r.data.hostname == q.data.hostname ensures r == q {
      RankedFirstUnique(HostOf(), Descending, workers, r, q);
    }
    MapOfEntries(rows, now, timeoutSeconds);
    forall w | w in workers ensures w.data.hostname in OfflineMap(workers, now, timeoutSeconds) {
      var first := RankedFirstExists(HostOf(), Descending, workers, w);
    }
  }

  lemma LatestByTimeAndKey(workers: seq<Row<WorkerEvent>>, w: Row<WorkerEvent>)
    ensures w in LatestRows(HostOf(), workers) <==>
            w in workers && forall v :: v in workers && v.data.hostname == w.data.hostname ==>
              v.time < w.time || (v.time == w.time && v.id <= w.id)
  {
    FilterMember(RankedFirst(HostOf(), Descending, workers), workers);
    RankedFirstMeans(HostOf(), Descending, workers, w);
    assert RankedFirst(HostOf(), Descending, workers)(w) <==>
           forall v :: v in workers && v.data.hostname == w.data.hostname ==> !Precedes(Descending, v, w);
  }

  /** The map's verdict on a host, read off the rows. */
  lemma OfflineMapIsDead(workers: seq<Row<WorkerEvent>>, now: int, timeoutSeconds: int, host: string)
    requires Ordered(workers)
    ensures OfflineIn(OfflineMap(workers, now, timeoutSeconds), host) <==> IsDead(workers, host, now, timeoutSeconds)
  {
    var latest := OfflineMapReadsLatest(workers, now, timeoutSeconds, host);
    forall w | w in workers && w.data.hostname == host
      ensures latest.Some? && (w == latest.value <==> forall v :: v in workers && v.data.hostname == host ==>
                v.time < w.time || (v.time == w.time && v.id <= w.id))
    {
      LatestByTimeAndKey(workers, w);
      if w in LatestRows(HostOf(), workers) {
        RankedFirstUnique(HostOf(), Descending, workers, w, latest.value);
      }
    }
    LatestRowsAreRows(workers);
  }

  function IsOfflineEvent(): WorkerEvent -> bool {
    (e: WorkerEvent) => e.eventType == OFFLINE
  }

  /** One map for all workers gives each worker the verdict its own query gives, if rows tied for the
      host's newest time agree on being offline events. */
  lemma OfflineMapAgreesWithEachWorker(workers: seq<Row<WorkerEvent>>, now: int, timeoutSeconds: int, host: string,
                                       answer: Option<Row<WorkerEvent>>)
    requires Ordered(workers) && TiesAgree(HostOf(), workers, host, IsOfflineEvent())
    requires LimitOne(HostOf(), workers, host, answer)
    ensures OfflineIn(OfflineMap(workers, now, timeoutSeconds), host) == Offline(answer, now, timeoutSeconds)
  {
    var latest := OfflineMapReadsLatest(workers, now, timeoutSeconds, host);
    if answer.Some? {
      NewestAgreesWithRankedFirst(HostOf(), workers, host, IsOfflineEvent(), answer.value, latest.value);
    }
  }

  ghost predicate VerdictsAgree(workers: seq<Row<WorkerEvent>>, timeoutSeconds: int, host: string) {
    forall now: int, answer: Option<Row<WorkerEvent>> :: LimitOne(HostOf(), workers, host, answer) ==>
      OfflineIn(OfflineMap(workers, now, timeoutSeconds), host) == Offline(answer, now, timeoutSeconds)
  }

  /** That condition is exact: at every clock and for every answer the two agree if and only if the tied
      rows agree. */
  lemma VerdictsAgreeIffTiesDo(workers: seq<Row<WorkerEvent>>, timeoutSeconds: int, host: string)
    requires Ordered(workers) && timeoutSeconds >= 0
    ensures VerdictsAgree(workers, timeoutSeconds, host) <==> TiesAgree(HostOf(), workers, host, IsOfflineEvent())
  {
    if TiesAgree(HostOf(), workers, host, IsOfflineEvent()) {
      forall now: int, answer: Option<Row<WorkerEvent>> | LimitOne(HostOf(), workers, host, answer)
        ensures OfflineIn(OfflineMap(workers, now, timeoutSeconds), host) == Offline(answer, now, timeoutSeconds)
      {
        OfflineMapAgreesWithEachWorker(workers, now, timeoutSeconds, host, answer);
      }
    }
    if VerdictsAgree(workers, timeoutSeconds, host) {
      forall r, q | IsNewest(HostOf(), workers, host, r) && IsNewest(HostOf(), workers, host, q)
        ensures IsOfflineEvent()(r.data) == IsOfflineEvent()(q.data)
      {
        assert LimitOne(HostOf(), workers, host, Some(r)) && LimitOne(HostOf(), workers, host, Some(q));
        assert Offline(Some(r), r.time, timeoutSeconds) == Offline(Some(q), r.time, timeoutSeconds);
      }
    }
  }

  // ---------------------------------------------------------------- orphans

  /** _task_is_orphaned_impl: the task's latest event, and the answer of the query for its worker. */
  predicate TaskIsOrphaned(event: Row<TaskEvent>, worker: Option<Row<WorkerEvent>>, now: int, s: Settings) {
    && event.data.eventType == STARTED
    && now - event.time > s.orphanGraceSeconds * SECOND
    && HasHost(event.data)
    && Offline(worker, now, s.workerOfflineTimeoutSeconds)
  }

  /** The per-task test, read off the rows: the event, and whichever newest row the query for its host returns. */
  lemma PerTaskTestInFields(event: Row<TaskEvent>, workers: seq<Row<WorkerEvent>>, worker: Option<Row<WorkerEvent>>,
                            now: int, s: Settings)
    requires event.data.hostname.Some? ==> LimitOne(HostOf(), workers, event.data.hostname.value, worker)
    ensures TaskIsOrphaned(event, worker, now, s) <==>
            && event.data.eventType == "started" && now - event.time > s.orphanGraceSeconds * 1_000_000
            && event.data.hostname.Some? && event.data.hostname.value != ""
            && ((forall w :: w in workers ==> w.data.hostname != event.data.hostname.value)
                || (worker.Some? && (worker.value.data.eventType == "offline"
                                     || now - worker.value.time > s.workerOfflineTimeoutSeconds * 1_000_000)))
  {
    if event.data.hostname.Some? && worker.Some? {
      assert worker.value in workers && HostOf()(worker.value.data) == event.data.hostname.value;
    }
  }

  /** Python truth of the hostname: neither missing nor empty. */
  predicate HasHost(e: TaskEvent) {
    e.hostname.Some? && e.hostname.value != ""
  }

  function Stuck(offlineMap: map<string, bool>, now: int, s: Settings): Row<TaskEvent> -> bool {
    (r: Row<TaskEvent>) =>
      && r.data.eventType == STARTED
      && now - r.time > s.orphanGraceSeconds * SECOND
      && HasHost(r.data)
      && OfflineIn(offlineMap, r.data.hostname.value)
  }

  /** The latest rows the batched query reports, before its limit. */
  function OrphanRows(tasks: seq<Row<TaskEvent>>, workers: seq<Row<WorkerEvent>>, now: int,
                      s: Settings): seq<Row<TaskEvent>> {
    Filter(Stuck(OfflineMap(workers, now, s.workerOfflineTimeoutSeconds), now, s), LatestRows(TaskOf(), tasks))
  }

  /** The state shown is always "orphaned". */
  datatype OrphanedTask = OrphanedTask(id: TaskId, name: Option<string>, worker: Option<string>, queue: Option<string>,
                                       startedAt: int)

  function AsOrphan(names: Names): Row<TaskEvent> -> OrphanedTask {
    (r: Row<TaskEvent>) => OrphanedTask(r.data.taskId, names(r.data.taskId), r.data.hostname, r.data.queue, r.time)
  }

  /** Python s[:limit]: a negative limit counts from the end. */
  function Upto<T>(s: seq<T>, limit: int): seq<T> {
    if limit >= |s| then s
    else if limit >= 0 then s[..limit]
    else if |s| + limit >= 0 then s[..|s| + limit]
    else []
  }

  lemma OneMoreOrphan(names: Names, stuck: Row<TaskEvent> -> bool, before: seq<Row<TaskEvent>>, event: Row<TaskEvent>)
    ensures Apply(AsOrphan(names), Filter(stuck, before + [event])) ==
            Apply(AsOrphan(names), Filter(stuck, before)) + if stuck(event) then [AsOrphan(names)(event)] else []
  {
    FilterAppend(stuck, before, event);
  }

  /** The task's latest row, by time and then key, is started, older than the grace, and on a host that is dead. */
  ghost predicate IsOrphan(tasks: seq<Row<TaskEvent>>, workers: seq<Row<WorkerEvent>>, now: int, s: Settings,
                           r: Row<TaskEvent>)
  {
    && r in tasks && r.data.eventType == "started" && now - r.time > s.orphanGraceSeconds * 1_000_000
    && (forall q :: q in tasks && q.data.taskId == r.data.taskId ==>
          q.time < r.time || (q.time == r.time && q.id <= r.id))
    && r.data.hostname.Some? && r.data.hostname.value != ""
    && IsDead(workers, r.data.hostname.value, now, s.workerOfflineTimeoutSeconds)
  }

  lemma LatestTaskRow(tasks: seq<Row<TaskEvent>>, r: Row<TaskEvent>)
    ensures r in LatestRows(TaskOf(), tasks) <==>
            r in tasks && forall q :: q in tasks && q.data.taskId == r.data.taskId ==>
              q.time < r.time || (q.time == r.time && q.id <= r.id)
  {
    FilterMember(RankedFirst(TaskOf(), Descending, tasks), tasks);
    RankedFirstMeans(TaskOf(), Descending, tasks, r);
    assert RankedFirst(TaskOf(), Descending, tasks)(r) <==>
           forall q :: q in tasks && q.data.taskId == r.data.taskId ==> !Precedes(Descending, q, r);
  }

  lemma OrphanRowsAreOrphans(tasks: seq<Row<TaskEvent>>, workers: seq<Row<WorkerEvent>>, now: int, s: Settings,
                             r: Row<TaskEvent>)
    requires Ordered(workers)
    ensures r in OrphanRows(tasks, workers, now, s) <==> IsOrphan(tasks, workers, now, s, r)
  {
    var offlineMap := OfflineMap(workers, now, s.workerOfflineTimeoutSeconds);
    FilterMember(Stuck(offlineMap, now, s), LatestRows(TaskOf(), tasks));
    LatestTaskRow(tasks, r);
    if HasHost(r.data) {
      OfflineMapIsDead(workers, now, s.workerOfflineTimeoutSeconds, r.data.hostname.value);
    }
    assert r in OrphanRows(tasks, workers, now, s) <==>
           r in LatestRows(TaskOf(), tasks) && Stuck(offlineMap, now, s)(r);
  }

  ghost predicate ShowsOneOrphan(x: OrphanedTask, tasks: seq<Row<TaskEvent>>, names: Names,
                                 workers: seq<Row<WorkerEvent>>, now: int, s: Settings)
  {
    exists r :: IsOrphan(tasks, workers, now, s, r)
      && x == OrphanedTask(r.data.taskId, names(r.data.taskId), r.data.hostname, r.data.queue, r.time)
  }

  /** Every orphan once, as its latest row shows it. */
  ghost predicate ShowsOrphans(all: seq<OrphanedTask>, tasks: seq<Row<TaskEvent>>, names: Names,
                               workers: seq<Row<WorkerEvent>>, now: int, s: Settings)
  {
    && (forall r :: IsOrphan(tasks, workers, now, s, r) ==>
          OrphanedTask(r.data.taskId, names(r.data.taskId), r.data.hostname, r.data.queue, r.time) in all)
    && (forall x :: x in all ==> ShowsOneOrphan(x, tasks, names, workers, now, s))
    && (Ordered(tasks) ==> forall i, j :: 0 <= i < j < |all| ==> all[i].id != all[j].id)
  }

  lemma OrphanListShowsOrphans(tasks: seq<Row<TaskEvent>>, names: Names, workers: seq<Row<WorkerEvent>>, now: int,
                               s: Settings)
    requires Ordered(workers)
    ensures ShowsOrphans(Apply(AsOrphan(names), OrphanRows(tasks, workers, now, s)), tasks, names, workers, now, s)
  {
    var rows := OrphanRows(tasks, workers, now, s);
    var all := Apply(AsOrphan(names), rows);
    forall r | IsOrphan(tasks, workers, now, s, r)
      ensures OrphanedTask(r.data.taskId, names(r.data.taskId), r.data.hostname, r.data.queue, r.time) in all
    {
      OrphanRowsAreOrphans(tasks, workers, now, s, r);
      var i :| 0 <= i < |rows| && rows[i] == r;
      assert all[i] == AsOrphan(names)(r);
    }
    forall x | x in all ensures ShowsOneOrphan(x, tasks, names, workers, now, s) {
      var i :| 0 <= i < |all| && all[i] == x;
      OrphanRowsAreOrphans(tasks, workers, now, s, rows[i]);
      assert rows[i] in rows && x == AsOrphan(names)(rows[i]);
    }
    if Ordered(tasks) {
      forall i, j | 0 <= i < j < |all| ensures all[i].id != all[j].id {
        OrphansDiffer(tasks, workers, now, s, i, j);
      }
    }
  }

  /** Python s[:limit]. */
  ghost predicate CutFrom(cut: seq<OrphanedTask>, all: seq<OrphanedTask>, limit: int) {
    cut <= all && |cut| == if limit >= |all| then |all| else if limit >= 0 then limit
                           else if |all| + limit >= 0 then |all| + limit else 0
  }

  lemma CutListShowsOrphans(tasks: seq<Row<TaskEvent>>, names: Names, workers: seq<Row<WorkerEvent>>, now: int,
                            s: Settings, limit: int)
    requires Ordered(workers)
    ensures exists all: seq<OrphanedTask> ::
              && ShowsOrphans(all, tasks, names, workers, now, s)
              && CutFrom(Upto(Apply(AsOrphan(names), OrphanRows(tasks, workers, now, s)), limit), all, limit)
  {
    OrphanListShowsOrphans(tasks, names, workers, now, s);
    var all := Apply(AsOrphan(names), OrphanRows(tasks, workers, now, s));
    assert CutFrom(Upto(all, limit), all, limit);
  }

  lemma OrphansDiffer(tasks: seq<Row<TaskEvent>>, workers: seq<Row<WorkerEvent>>, now: int, s: Settings, i: nat,
                      j: nat)
    requires Ordered(tasks) && i < j < |OrphanRows(tasks, workers, now, s)|
    ensures var rows := OrphanRows(tasks, workers, now, s); rows[i].data.taskId != rows[j].data.taskId
  {
    var rows, latest := OrphanRows(tasks, workers, now, s), LatestRows(TaskOf(), tasks);
    var stuck := Stuck(OfflineMap(workers, now, s.workerOfflineTimeoutSeconds), now, s);
    FilterOrdered(RankedFirst(TaskOf(), Descending, tasks), tasks);
    FilterOrdered(stuck, latest);
    FilterMember(stuck, latest);
    assert rows[i].id < rows[j].id;
    if rows[i].data.taskId == rows[j].data.taskId {
      RankedFirstUnique(TaskOf(), Descending, tasks, rows[i], rows[j]);
    }
  }

  /** _list_orphaned_tasks_impl. It lists the orphans, as many as Python's slice at the limit leaves. */
  method ListOrphanedTasks(tasks: seq<Row<TaskEvent>>, names: Names, workers: seq<Row<WorkerEvent>>, now: int,
                           s: Settings, limit: int)
    returns (orphaned: seq<OrphanedTask>)
    requires Ordered(workers)
    ensures orphaned == Upto(Apply(AsOrphan(names), OrphanRows(tasks, workers, now, s)), limit)
    ensures exists all: seq<OrphanedTask> ::
              ShowsOrphans(all, tasks, names, workers, now, s) && CutFrom(orphaned, all, limit)
  {
    var latest := LatestRows(TaskOf(), tasks);
    var offlineMap := WorkersOfflineMap(workers, now, s.workerOfflineTimeoutSeconds);
    ghost var stuck := Stuck(offlineMap, now, s);
    orphaned := [];
    for i := 0 to |latest|
      invariant orphaned == Apply(AsOrphan(names), Filter(stuck, latest[..i]))
    {
      var event := latest[i];
      assert latest[..i + 1] == latest[..i] + [event];
      OneMoreOrphan(names, stuck, latest[..i], event);
      if event.data.eventType != STARTED {
        continue;
      }
      if now - event.time <= s.orphanGraceSeconds * SECOND {
        continue;
      }
      if !HasHost(event.data) {
        continue;
      }
      if OfflineIn(offlineMap, event.data.hostname.value) {
        orphaned := orphaned + [OrphanedTask(event.data.taskId, names(event.data.taskId), event.data.hostname,
                                             event.data.queue, event.time)];
      }
    }
    assert latest[..|latest|] == latest;
    orphaned := Upto(orphaned, limit);
    CutListShowsOrphans(tasks, names, workers, now, s, limit);
  }

  ghost predicate Listed(rows: seq<Row<TaskEvent>>, task: TaskId) {
    exists r :: r in rows && r.data.taskId == task
  }

  /** The host a task is stuck on, if its event says it is. */
  function StartedOn(): TaskEvent -> Option<string> {
    (e: TaskEvent) => if e.eventType == STARTED && HasHost(e) then e.hostname else None
  }

  /** The per-task test at an event, with a legitimate answer about its worker. */
  ghost predicate WorkerAnswer(workers: seq<Row<WorkerEvent>>, e: TaskEvent, worker: Option<Row<WorkerEvent>>) {
    HasHost(e) ==> LimitOne(HostOf(), workers, e.hostname.value, worker)
                   && TiesAgree(HostOf(), workers, e.hostname.value, IsOfflineEvent())
  }

  lemma ListedIffLatestIsStuck(tasks: seq<Row<TaskEvent>>, workers: seq<Row<WorkerEvent>>, now: int, s: Settings,
                               first: Row<TaskEvent>)
    requires Ordered(tasks) && first in LatestRows(TaskOf(), tasks)
    ensures Listed(OrphanRows(tasks, workers, now, s), first.data.taskId)
       <==> Stuck(OfflineMap(workers, now, s.workerOfflineTimeoutSeconds), now, s)(first)
  {
    var stuck := Stuck(OfflineMap(workers, now, s.workerOfflineTimeoutSeconds), now, s);
    FilterMember(stuck, LatestRows(TaskOf(), tasks));
    if Listed(OrphanRows(tasks, workers, now, s), first.data.taskId) {
      var r :| r in OrphanRows(tasks, workers, now, s) && r.data.taskId == first.data.taskId;
      RankedFirstUnique(TaskOf(), Descending, tasks, r, first);
    }
    if stuck(first) {
      assert first in OrphanRows(tasks, workers, now, s);
    }
  }

  /** The batched list holds a task exactly when the per-task test holds for it at the same clock, whichever
      newest rows the per-item queries return, if tied newest rows agree on the host they are started on. */
  lemma BatchedOrphansAgreeWithEachTask(tasks: seq<Row<TaskEvent>>, workers: seq<Row<WorkerEvent>>, now: int,
                                        s: Settings, task: TaskId, event: Row<TaskEvent>,
                                        worker: Option<Row<WorkerEvent>>)
    requires Ordered(tasks) && Ordered(workers)
    requires IsNewest(TaskOf(), tasks, task, event) && TiesAgree(TaskOf(), tasks, task, StartedOn())
    requires WorkerAnswer(workers, event.data, worker)
    ensures Listed(OrphanRows(tasks, workers, now, s), task) <==> TaskIsOrphaned(event, worker, now, s)
  {
    var first := RankedFirstExists(TaskOf(), Descending, tasks, event);
    NewestAgreesWithRankedFirst(TaskOf(), tasks, task, StartedOn(), event, first);
    ListedIffLatestIsStuck(tasks, workers, now, s, first);
    assert StartedOn()(event.data) == StartedOn()(first.data);
    if HasHost(event.data) {
      OfflineMapAgreesWithEachWorker(workers, now, s.workerOfflineTimeoutSeconds, event.data.hostname.value, worker);
    }
  }

  ghost predicate OrphanTestsAgree(tasks: seq<Row<TaskEvent>>, task: TaskId) {
    forall workers: seq<Row<WorkerEvent>>, now: int, s: Settings, event: Row<TaskEvent>,
           worker: Option<Row<WorkerEvent>> ::
      Ordered(workers) && IsNewest(TaskOf(), tasks, task, event) && WorkerAnswer(workers, event.data, worker) ==>
        (Listed(OrphanRows(tasks, workers, now, s), task) <==> TaskIsOrphaned(event, worker, now, s))
  }

  lemma FreshBeatVerdict(beat: Row<WorkerEvent>, host: string)
    requires beat.data.eventType != OFFLINE
    ensures OfflineIn(OfflineMap([beat], beat.time, 0), host) <==> host != beat.data.hostname
    ensures OfflineIn(OfflineMap([], beat.time, 0), host)
  {
    assert beat in [beat];
    var latest := OfflineMapReadsLatest([beat], beat.time, 0, host);
    FilterMember(RankedFirst(HostOf(), Descending, [beat]), [beat]);
    var none := OfflineMapReadsLatest([], beat.time, 0, host);
  }

  /** Where the window's row and another newest row are started on different hosts, or only one of them is,
      some workers and some clock tell the two tests apart. */
  lemma DifferentHostsDisagree(tasks: seq<Row<TaskEvent>>, task: TaskId, first: Row<TaskEvent>, event: Row<TaskEvent>)
    requires Ordered(tasks) && first in LatestRows(TaskOf(), tasks) && first.data.taskId == task
    requires IsNewest(TaskOf(), tasks, task, event) && event.time == first.time
    requires StartedOn()(event.data) != StartedOn()(first.data)
    ensures !OrphanTestsAgree(tasks, task)
  {
    var s, now := Settings(0, 0), event.time + 1;
    var firstHost := if first.data.hostname.Some? then first.data.hostname.value else "";
    var beat := Row(1, now, WorkerEvent("heartbeat", firstHost, map[], None));
    var workers := if StartedOn()(event.data).Some? && StartedOn()(first.data).Some? then [beat] else [];
    ListedIffLatestIsStuck(tasks, workers, now, s, first);
    FreshBeatVerdict(beat, firstHost);
    var answer := SomeAnswer(workers, event.data);
    assert Listed(OrphanRows(tasks, workers, now, s), task) <==> StartedOn()(event.data).None?;
    assert TaskIsOrphaned(event, answer, now, s) <==> StartedOn()(event.data).Some?;
  }

  lemma SomeAnswer(workers: seq<Row<WorkerEvent>>, e: TaskEvent) returns (answer: Option<Row<WorkerEvent>>)
    requires |workers| <= 1
    ensures WorkerAnswer(workers, e, answer)
    ensures workers == [] || (HasHost(e) && workers[0].data.hostname != e.hostname.value) ==> answer == None
  {
    if workers != [] && HasHost(e) && workers[0].data.hostname == e.hostname.value {
      answer := Some(workers[0]);
      assert workers[0] in workers;
    } else {
      answer := None;
    }
  }

  /** The condition is exact: over all workers, clocks and settings the list and the per-task test agree if
      and only if the task's tied newest rows agree on the host they are started on. */
  lemma OrphanTestsAgreeIffTiesDo(tasks: seq<Row<TaskEvent>>, task: TaskId)
    requires Ordered(tasks)
    ensures OrphanTestsAgree(tasks, task) <==> TiesAgree(TaskOf(), tasks, task, StartedOn())
  {
    if TiesAgree(TaskOf(), tasks, task, StartedOn()) {
      forall workers: seq<Row<WorkerEvent>>, now: int, s: Settings, event: Row<TaskEvent>,
             worker: Option<Row<WorkerEvent>>
        | Ordered(workers) && IsNewest(TaskOf(), tasks, task, event) && WorkerAnswer(workers, event.data, worker)
        ensures Listed(OrphanRows(tasks, workers, now, s), task) <==> TaskIsOrphaned(event, worker, now, s)
      {
        BatchedOrphansAgreeWithEachTask(tasks, workers, now, s, task, event, worker);
      }
    } else {
      var r, q :| IsNewest(TaskOf(), tasks, task, r) && IsNewest(TaskOf(), tasks, task, q)
                  && StartedOn()(r.data) != StartedOn()(q.data);
      var first := RankedFirstExists(TaskOf(), Descending, tasks, r);
      FilterMember(RankedFirst(TaskOf(), Descending, tasks), tasks);
      RankedFirstIsNewest(TaskOf(), tasks, first);
      DifferentHostsDisagree(tasks, task, first, if StartedOn()(r.data) != StartedOn()(first.data) then r else q);
    }
  }

  // ---------------------------------------------------------------- after pruning

  /** After a prune a partition has the same first row as before, or none at all. */
  lemma FirstRowAfterPruning(workers: seq<Row<WorkerEvent>>, cutoff: int, before: Row<WorkerEvent>)
    requires Ordered(workers) && before in LatestRows(HostOf(), workers)
    ensures before.time >= cutoff ==> before in LatestRows(HostOf(), Kept(workers, cutoff))
    ensures before.time < cutoff ==> forall q :: q in Kept(workers, cutoff) ==> q.data.hostname != before.data.hostname
  {
    PruningCommutesWithLatest(HostOf(), workers, cutoff);
    FilterMember(From<WorkerEvent>(cutoff), LatestRows(HostOf(), workers));
    FilterMember(From<WorkerEvent>(cutoff), workers);
    FilterMember(RankedFirst(HostOf(), Descending, workers), workers);
    RankedFirstIsNewest(HostOf(), workers, before);
  }

  lemma VerdictAfterCutoff(workers: seq<Row<WorkerEvent>>, cutoff: int, now: int, timeoutSeconds: int, host: string)
    requires Ordered(workers) && now - cutoff >= timeoutSeconds * SECOND
    ensures OfflineIn(OfflineMap(Kept(workers, cutoff), now, timeoutSeconds), host)
         == OfflineIn(OfflineMap(workers, now, timeoutSeconds), host)
  {
    FilterOrdered(From<WorkerEvent>(cutoff), workers);
    var latest := OfflineMapReadsLatest(workers, now, timeoutSeconds, host);
    var left := OfflineMapReadsLatest(Kept(workers, cutoff), now, timeoutSeconds, host);
    if latest.None? {
      FilterMember(From<WorkerEvent>(cutoff), workers);
    } else {
      FirstRowAfterPruning(workers, cutoff, latest.value);
      LatestRowsAreRows(Kept(workers, cutoff));
      if latest.value.time >= cutoff {
        RankedFirstUnique(HostOf(), Descending, Kept(workers, cutoff), latest.value, left.value);
      }
    }
  }

  /** A host keeps its verdict when event retention is at least the offline timeout. */
  lemma PrunedHostKeepsVerdict(workers: seq<Row<WorkerEvent>>, moment: int, days: int, now: int, timeoutSeconds: int,
                               host: string)
    requires Ordered(workers) && moment <= now && Covers(days, timeoutSeconds)
    ensures OfflineIn(OfflineMap(Pruned(workers, moment, days), now, timeoutSeconds), host)
         == OfflineIn(OfflineMap(workers, now, timeoutSeconds), host)
  {
    if days > 0 {
      VerdictAfterCutoff(workers, moment - days * DAY, now, timeoutSeconds, host);
    }
  }

  lemma LatestRowsAreRows(workers: seq<Row<WorkerEvent>>)
    ensures forall r :: r in LatestRows(HostOf(), workers) ==> r in workers
  {
    FilterMember(RankedFirst(HostOf(), Descending, workers), workers);
  }

  lemma SameVerdictsSameOrphans(latest: seq<Row<TaskEvent>>, m: map<string, bool>, n: map<string, bool>, now: int,
                                s: Settings)
    requires forall host :: OfflineIn(m, host) == OfflineIn(n, host)
    ensures Filter(Stuck(m, now, s), latest) == Filter(Stuck(n, now, s), latest)
  {
    forall r: Row<TaskEvent> | r in latest ensures Stuck(m, now, s)(r) == Stuck(n, now, s)(r) {
      assert HasHost(r.data) ==> OfflineIn(m, r.data.hostname.value) == OfflineIn(n, r.data.hostname.value);
    }
    FilterAgree(Stuck(m, now, s), Stuck(n, now, s), latest);
  }

  /** Pruning events at a past or present moment takes away exactly the orphans whose started row it deleted. */
  lemma PruningKeepsSurvivingOrphans(tasks: seq<Row<TaskEvent>>, workers: seq<Row<WorkerEvent>>,
                                     moment: int, days: int, now: int, s: Settings)
    requires Ordered(workers) && moment <= now && Covers(days, s.workerOfflineTimeoutSeconds)
    ensures OrphanRows(Pruned(tasks, moment, days), Pruned(workers, moment, days), now, s)
         == Pruned(OrphanRows(tasks, workers, now, s), moment, days)
  {
    if days > 0 {
      var cutoff, timeout := moment - days * DAY, s.workerOfflineTimeoutSeconds;
      var before := OfflineMap(workers, now, timeout);
      var after := OfflineMap(Kept(workers, cutoff), now, timeout);
      forall host ensures OfflineIn(after, host) == OfflineIn(before, host) {
        PrunedHostKeepsVerdict(workers, moment, days, now, timeout, host);
      }
      PruningCommutesWithLatest(TaskOf(), tasks, cutoff);
      SameVerdictsSameOrphans(LatestRows(TaskOf(), Kept(tasks, cutoff)), after, before, now, s);
      FilterCommutes(Stuck(before, now, s), From(cutoff), LatestRows(TaskOf(), tasks));
    }
  }

  ghost predicate VerdictsSurvivePruning(days: int, timeoutSeconds: int) {
    forall workers: seq<Row<WorkerEvent>>, now: int, host: string :: Ordered(workers) ==>
      OfflineIn(OfflineMap(Pruned(workers, now, days), now, timeoutSeconds), host)
      == OfflineIn(OfflineMap(workers, now, timeoutSeconds), host)
  }

  /** The condition is exact: with any shorter retention some live worker turns offline by being pruned. */
  lemma VerdictsSurviveIffRetained(days: int, timeoutSeconds: int)
    ensures VerdictsSurvivePruning(days, timeoutSeconds) <==> Covers(days, timeoutSeconds)
  {
    if Covers(days, timeoutSeconds) {
      forall workers: seq<Row<WorkerEvent>>, now: int, host: string | Ordered(workers)
        ensures OfflineIn(OfflineMap(Pruned(workers, now, days), now, timeoutSeconds), host)
             == OfflineIn(OfflineMap(workers, now, timeoutSeconds), host)
      {
        PrunedHostKeepsVerdict(workers, now, days, now, timeoutSeconds, host);
      }
    } else {
      var beat := Row(1, 0 - days * DAY - 1, WorkerEvent("heartbeat", "w", map[], None));
      FilterNone(From(0 - days * DAY), [beat]);
      assert Pruned([beat], 0, days) == [];
      var latest := OfflineMapReadsLatest([beat], 0, timeoutSeconds, "w");
      FilterMember(RankedFirst(HostOf(), Descending, [beat]), [beat]);
      assert beat in [beat];
      assert !OfflineIn(OfflineMap([beat], 0, timeoutSeconds), "w");
      assert OfflineIn(OfflineMap([], 0, timeoutSeconds), "w");
      assert !VerdictsSurvivePruning(days, timeoutSeconds);
    }
  }
}
