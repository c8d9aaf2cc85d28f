/** From broker messages to rows: dedupe keys and row shapes (src/taskowl/consumer/handlers.py). */
module Handlers {
  import opened Rows
  import opened Values
  import opened Retention
  import opened Events
  import opened Ingest

  /** How values are written into a key: UUIDs, timestamps, and the digest of the whole. */
  datatype Texts = Texts(uuid: TaskId -> string, iso: int -> string, digest: string -> string)

  predicate NoBar(s: string) {
    '|' !in s
  }

  /** What the standard renderings provide, with SHA-256 taken to be injective. */
  ghost predicate Faithful(t: Texts) {
    && (forall a, b :: t.uuid(a) == t.uuid(b) ==> a == b)
    && (forall a, b :: t.iso(a) == t.iso(b) ==> a == b)
    && (forall a, b :: t.digest(a) == t.digest(b) ==> a == b)
    && (forall a :: NoBar(t.uuid(a)))
    && (forall a :: NoBar(t.iso(a)))
  }

  /** "|".join */
  function Join(parts: seq<string>): string {
    if |parts| == 0 then ""
    else if |parts| == 1 then parts[0]
    else parts[0] + "|" + Join(parts[1..])
  }

  function PartText(part: Option<string>): string {
    match part
    case None => ""
    case Some(text) => text
  }

  function DedupeKey(t: Texts, parts: seq<Option<string>>): string {
    t.digest(Join(seq(|parts|, i requires 0 <= i < |parts| => PartText(parts[i]))))
  }

  function TaskDedupeKey(t: Texts, eventType: string, task: TaskId, hostname: Option<string>,
                         sourceTs: Option<int>): Option<string> {
    if sourceTs.None? then None
    else Some(DedupeKey(t, [Some(eventType), Some(t.uuid(task)), hostname, Some(t.iso(sourceTs.value))]))
  }

  function WorkerDedupeKey(t: Texts, eventType: string, hostname: string, sourceTs: Option<int>): Option<string> {
    if sourceTs.None? then None
    else Some(DedupeKey(t, [Some(eventType), Some(hostname), Some(t.iso(sourceTs.value))]))
  }

  lemma BarPosition(s: string, x: string, y: string)
    requires s == x + "|" + y
    ensures |x| < |s| && s[|x|] == '|' && s[..|x|] == x && s[|x| + 1..] == y
    ensures NoBar(x) ==> forall i :: 0 <= i < |x| ==> s[i] != '|'
    ensures NoBar(y) ==> forall i :: |x| < i < |s| ==> s[i] != '|'
  {
    assert forall i :: 0 <= i < |x| ==> s[i] == x[i];
    assert forall i :: |x| < i < |s| ==> s[i] == y[i - |x| - 1];
  }

  lemma SplitFirst(a: string, x: string, b: string, y: string)
    requires NoBar(a) && NoBar(b) && a + "|" + x == b + "|" + y
    ensures a == b && x == y
  {
    BarPosition(a + "|" + x, a, x);
    BarPosition(a + "|" + x, b, y);
    assert |a| == |b|;
  }

  lemma SplitLast(x: string, a: string, y: string, b: string)
    requires NoBar(a) && NoBar(b) && x + "|" + a == y + "|" + b
    ensures x == y && a == b
  {
    BarPosition(x + "|" + a, x, a);
    BarPosition(x + "|" + a, y, b);
    assert |x| == |y|;
  }

  lemma JoinOfFour(a: string, b: string, c: string, d: string)
    ensures Join([a, b, c, d]) == a + "|" + (b + "|" + (c + "|" + d))
  {
    assert [a, b, c, d][1..] == [b, c, d] && [b, c, d][1..] == [c, d] && [c, d][1..] == [d];
    assert Join([c, d]) == c + "|" + d;
    assert Join([b, c, d]) == b + "|" + (c + "|" + d);
  }

  lemma JoinOfThree(b: string, c: string, d: string)
    ensures Join([b, c, d]) == b + "|" + (c + "|" + d)
  {
    assert [b, c, d][1..] == [c, d] && [c, d][1..] == [d];
    assert Join([c, d]) == c + "|" + d;
  }

  /** The task key determines event type, task, host and timestamp, even when the host contains the
      separator, except that a missing host and an empty one are the same. */
  lemma TaskKeyIsInjective(t: Texts, type1: string, task1: TaskId, host1: Option<string>, ts1: int,
                           type2: string, task2: TaskId, host2: Option<string>, ts2: int)
    requires Faithful(t) && NoBar(type1) && NoBar(type2)
    ensures TaskDedupeKey(t, type1, task1, host1, Some(ts1)) == TaskDedupeKey(t, type2, task2, host2, Some(ts2))
       <==> type1 == type2 && task1 == task2 && PartText(host1) == PartText(host2) && ts1 == ts2
  {
    var h1, h2 := PartText(host1), PartText(host2);
    TaskPayload(t, type1, task1, host1, ts1);
    TaskPayload(t, type2, task2, host2, ts2);
    if TaskDedupeKey(t, type1, task1, host1, Some(ts1)) == TaskDedupeKey(t, type2, task2, host2, Some(ts2)) {
      SplitFirst(type1, t.uuid(task1) + "|" + (h1 + "|" + t.iso(ts1)),
                 type2, t.uuid(task2) + "|" + (h2 + "|" + t.iso(ts2)));
      SplitFirst(t.uuid(task1), h1 + "|" + t.iso(ts1), t.uuid(task2), h2 + "|" + t.iso(ts2));
      SplitLast(h1, t.iso(ts1), h2, t.iso(ts2));
    }
  }

  lemma TaskPayload(t: Texts, eventType: string, task: TaskId, host: Option<string>, ts: int)
    ensures TaskDedupeKey(t, eventType, task, host, Some(ts))
         == Some(t.digest(eventType + "|" + (t.uuid(task) + "|" + (PartText(host) + "|" + t.iso(ts)))))
  {
    var parts := [Some(eventType), Some(t.uuid(task)), host, Some(t.iso(ts))];
    assert seq(|parts|, i requires 0 <= i < |parts| => PartText(parts[i]))
        == [eventType, t.uuid(task), PartText(host), t.iso(ts)];
    JoinOfFour(eventType, t.uuid(task), PartText(host), t.iso(ts));
  }

  lemma WorkerKeyIsInjective(t: Texts, type1: string, host1: string, ts1: int, type2: string, host2: string, ts2: int)
    requires Faithful(t) && NoBar(type1) && NoBar(type2)
    ensures WorkerDedupeKey(t, type1, host1, Some(ts1)) == WorkerDedupeKey(t, type2, host2, Some(ts2))
       <==> type1 == type2 && host1 == host2 && ts1 == ts2
  {
    WorkerPayload(t, type1, host1, ts1);
    WorkerPayload(t, type2, host2, ts2);
    if WorkerDedupeKey(t, type1, host1, Some(ts1)) == WorkerDedupeKey(t, type2, host2, Some(ts2)) {
      SplitFirst(type1, host1 + "|" + t.iso(ts1), type2, host2 + "|" + t.iso(ts2));
      SplitLast(host1, t.iso(ts1), host2, t.iso(ts2));
    }
  }

  lemma WorkerPayload(t: Texts, eventType: string, host: string, ts: int)
    ensures WorkerDedupeKey(t, eventType, host, Some(ts)) == Some(t.digest(eventType + "|" + (host + "|" + t.iso(ts))))
  {
    var parts := [Some(eventType), Some(host), Some(t.iso(ts))];
    assert seq(|parts|, i requires 0 <= i < |parts| => PartText(parts[i])) == [eventType, host, t.iso(ts)];
    JoinOfThree(eventType, host, t.iso(ts));
  }

  // ---------------------------------------------------------------- handlers

  /** A task message. `taskId` is None when the uuid is missing or malformed; `arrival` is the clock at ingest. */
  datatype TaskMessage = TaskMessage(
    eventType: string,
    taskId: Option<TaskId>,
    sourceTs: Option<int>,
    arrival: int,
    hostname: Option<string>,
    name: Option<string>,
    args: Value,
    kwargs: Value,
    queue: Option<string>,
    rootId: Option<TaskId>,
    parentId: Option<TaskId>,
    result: Value,
    runtime: Option<real>,
    exception: Option<string>,
    traceback: Option<string>,
    details: map<string, Value>)

  const TASK_TYPES := ["sent", "received", "started", "succeeded", "failed", "revoked", "retried", "rejected"]

  predicate IsTaskType(eventType: string) {
    eventType in TASK_TYPES
  }

  predicate Introduces(eventType: string) {
    eventType == "sent" || eventType == "received"
  }

  predicate ReportsError(eventType: string) {
    eventType == "failed" || eventType == "retried"
  }

  /** The other columns a type of event fills. */
  function DetailColumns(eventType: string): set<string> {
    if Introduces(eventType) then {"retries", "eta", "expires"}
    else if eventType == "started" then {"pid"}
    else if eventType == "revoked" then {"terminated", "signum", "expired"}
    else if eventType == "rejected" then {"requeue"}
    else {}
  }

  function Only(details: map<string, Value>, columns: set<string>): map<string, Value> {
    map k | k in details && k in columns :: details[k]
  }

  function TimeOf(sourceTs: Option<int>, arrival: int): int {
    if sourceTs.Some? then sourceTs.value else arrival
  }

  /** The row a task message becomes: only sent and received rows carry a name, arguments, a queue and the
      retry links, only succeeded rows a result and a runtime, only failed and retried rows an error. None is
      the exception a malformed uuid raises, or an unknown type. */
  function HandleTask(t: Texts, m: TaskMessage): Option<Incoming<TaskEvent>> {
    if m.taskId.None? || !IsTaskType(m.eventType) then None
    else
      var first, done, error := Introduces(m.eventType), m.eventType == "succeeded", ReportsError(m.eventType);
      Some(Incoming(
        TimeOf(m.sourceTs, m.arrival),
        TaskEvent(
          m.eventType, m.taskId.value, m.hostname,
          if first then m.name else None,
          if first then m.args else Null,
          if first then m.kwargs else Null,
          if first then m.queue else None,
          if first then m.rootId else None,
          if first then m.parentId else None,
          if done then m.result else Null,
          if done then m.runtime else None,
          if error then m.exception else None,
          if error then m.traceback else None,
          Only(m.details, DetailColumns(m.eventType)),
          TaskDedupeKey(t, m.eventType, m.taskId.value, m.hostname, m.sourceTs))))
  }

  /** The row has exactly the columns that the source's handler for that type of message fills. */
  ghost predicate FillsColumns(r: Row<TaskEvent>, m: TaskMessage) {
    var e := r.data;
    var introduced := m.eventType == "sent" || m.eventType == "received";
    var succeeded, erred := m.eventType == "succeeded", m.eventType == "failed" || m.eventType == "retried";
    && r.time == (if m.sourceTs.Some? then m.sourceTs.value else m.arrival)
    && e.eventType == m.eventType && Some(e.taskId) == m.taskId && e.hostname == m.hostname
    && e.name == (if introduced then m.name else None)
    && e.args == (if introduced then m.args else Null) && e.kwargs == (if introduced then m.kwargs else Null)
    && e.queue == (if introduced then m.queue else None)
    && e.rootId == (if introduced then m.rootId else None) && e.parentId == (if introduced then m.parentId else None)
    && e.result == (if succeeded then m.result else Null) && e.runtime == (if succeeded then m.runtime else None)
    && e.exception == (if erred then m.exception else None) && e.traceback == (if erred then m.traceback else None)
    && (forall k :: k in e.details <==>
          && k in m.details
          && ((introduced && (k == "retries" || k == "eta" || k == "expires"))
              || (m.eventType == "started" && k == "pid")
              || (m.eventType == "revoked" && (k == "terminated" || k == "signum" || k == "expired"))
              || (m.eventType == "rejected" && k == "requeue")))
    && (forall k :: k in e.details ==> e.details[k] == m.details[k])
    && (e.dedupeKey.Some? <==> m.sourceTs.Some?)
  }

  /** The messages that a handler accepts: a real task id and one of the eight types. */
  predicate Acceptable(m: TaskMessage) {
    && m.taskId.Some?
    && (m.eventType == "sent" || m.eventType == "received" || m.eventType == "started" || m.eventType == "succeeded"
        || m.eventType == "failed" || m.eventType == "revoked" || m.eventType == "retried" || m.eventType == "rejected")
  }

  lemma HandledFillsColumns(t: Texts, m: TaskMessage, id: int)
    ensures HandleTask(t, m).Some? <==> Acceptable(m)
    ensures HandleTask(t, m).Some? ==>
              FillsColumns(Row(id, HandleTask(t, m).value.time, HandleTask(t, m).value.data), m)
  {
  }

  function TaskKeyColumn(): Key<TaskEvent> {
    (e: TaskEvent) => e.dedupeKey
  }

  /** The columns every task event fills. */
  function Plain(t: Texts, eventType: string, taskId: TaskId, hostname: Option<string>,
                 sourceTs: Option<int>): TaskEvent {
    TaskEvent(eventType, taskId, hostname, None, Null, Null, None, None, None, Null, None, None, None, map[],
              TaskDedupeKey(t, eventType, taskId, hostname, sourceTs))
  }

  /** The handle_task_* functions, by event type. */
  method HandleTaskMessage(table: Table<TaskEvent>, t: Texts, m: TaskMessage) returns (accepted: bool)
    requires table.Valid()
    modifies table
    ensures table.Valid() && accepted == HandleTask(t, m).Some?
    ensures table.Contents() ==
            if accepted then InsertNew(TaskKeyColumn(), old(table.Contents()), HandleTask(t, m).value)
            else old(table.Contents())
    ensures accepted <==> Acceptable(m)
    ensures var before, n := old(table.rows), |old(table.rows)|;
            || table.rows == before
            || (|table.rows| == n + 1 && table.rows[..n] == before && FillsColumns(table.rows[n], m))
    ensures accepted && m.sourceTs.None? ==> |table.rows| == |old(table.rows)| + 1
  {
    HandledFillsColumns(t, m, table.next);
    accepted := false;
    if m.taskId.None? {
      return;
    }
    var values := Plain(t, m.eventType, m.taskId.value, m.hostname, m.sourceTs);
    match m.eventType {
      case "sent" | "received" =>
        values := values.(name := m.name, args := m.args, kwargs := m.kwargs, queue := m.queue, rootId := m.rootId,
                          parentId := m.parentId, details := Only(m.details, {"retries", "eta", "expires"}));
      case "started" =>
        values := values.(details := Only(m.details, {"pid"}));
      case "succeeded" =>
        values := values.(result := m.result, runtime := m.runtime);
      case "failed" | "retried" =>
        values := values.(exception := m.exception, traceback := m.traceback);
      case "revoked" =>
        values := values.(details := Only(m.details, {"terminated", "signum", "expired"}));
      case "rejected" =>
        values := values.(details := Only(m.details, {"requeue"}));
      case _ =>
        return;
    }
    accepted := true;
    InsertEvent(table, TaskKeyColumn(), Incoming(TimeOf(m.sourceTs, m.arrival), values));
  }

  /** A worker message; a missing hostname is an exception. */
  datatype WorkerMessage = WorkerMessage(
    eventType: string, hostname: Option<string>, sourceTs: Option<int>, arrival: int, details: map<string, Value>)

  predicate IsWorkerType(eventType: string) {
    eventType in ["online", "heartbeat", "offline"]
  }

  const SOFTWARE := {"freq", "sw_ident", "sw_ver", "sw_sys"}

  function WorkerColumns(eventType: string): set<string> {
    if eventType == "heartbeat" then SOFTWARE + {"active", "processed"} else SOFTWARE
  }

  /** The row a worker message becomes: only heartbeats carry the load. */
  function HandleWorker(t: Texts, m: WorkerMessage): Option<Incoming<WorkerEvent>> {
    if m.hostname.None? || !IsWorkerType(m.eventType) then None
    else
      Some(Incoming(
        TimeOf(m.sourceTs, m.arrival),
        WorkerEvent(m.eventType, m.hostname.value,
                    Only(m.details, WorkerColumns(m.eventType)),
                    WorkerDedupeKey(t, m.eventType, m.hostname.value, m.sourceTs))))
  }

  /** The row has exactly the columns that the source's handler for that type of message fills. */
  ghost predicate FillsWorkerColumns(r: Row<WorkerEvent>, m: WorkerMessage) {
    var e := r.data;
    && r.time == (if m.sourceTs.Some? then m.sourceTs.value else m.arrival)
    && e.eventType == m.eventType && Some(e.hostname) == m.hostname
    && (forall k :: k in e.details <==>
          && k in m.details
          && (k == "freq" || k == "sw_ident" || k == "sw_ver" || k == "sw_sys"
              || (m.eventType == "heartbeat" && (k == "active" || k == "processed"))))
    && (forall k :: k in e.details ==> e.details[k] == m.details[k])
    && (e.dedupeKey.Some? <==> m.sourceTs.Some?)
  }

  predicate AcceptableSignal(m: WorkerMessage) {
    m.hostname.Some? && (m.eventType == "online" || m.eventType == "heartbeat" || m.eventType == "offline")
  }

  lemma HandledFillsWorkerColumns(t: Texts, m: WorkerMessage, id: int)
    ensures HandleWorker(t, m).Some? <==> AcceptableSignal(m)
    ensures HandleWorker(t, m).Some? ==>
              FillsWorkerColumns(Row(id, HandleWorker(t, m).value.time, HandleWorker(t, m).value.data), m)
  {
  }

  function WorkerKeyColumn(): Key<WorkerEvent> {
    (e: WorkerEvent) => e.dedupeKey
  }

  /** The handle_worker_* functions, by event type. */
  method HandleWorkerMessage(table: Table<WorkerEvent>, t: Texts, m: WorkerMessage) returns (accepted: bool)
    requires table.Valid()
    modifies table
    ensures table.Valid() && accepted == HandleWorker(t, m).Some?
    ensures table.Contents() ==
            if accepted then InsertNew(WorkerKeyColumn(), old(table.Contents()), HandleWorker(t, m).value)
            else old(table.Contents())
    ensures accepted <==> AcceptableSignal(m)
    ensures var before, n := old(table.rows), |old(table.rows)|;
            || table.rows == before
            || (|table.rows| == n + 1 && table.rows[..n] == before && FillsWorkerColumns(table.rows[n], m))
    ensures accepted && m.sourceTs.None? ==> |table.rows| == |old(table.rows)| + 1
  {
    HandledFillsWorkerColumns(t, m, table.next);
    accepted := false;
    if m.hostname.None? {
      return;
    }
    var columns := SOFTWARE;
    match m.eventType {
      case "online" | "offline" =>
      case "heartbeat" =>
        columns := columns + {"active", "processed"};
      case _ =>
        return;
    }
    accepted := true;
    InsertEvent(table, WorkerKeyColumn(), Incoming(
      TimeOf(m.sourceTs, m.arrival),
      WorkerEvent(m.eventType, m.hostname.value, Only(m.details, columns),
                  WorkerDedupeKey(t, m.eventType, m.hostname.value, m.sourceTs))));
  }
}
