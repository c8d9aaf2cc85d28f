/** Whole feeds of messages, with prunes in between: what they leave in the tables and on a task's page. */
module Feeds {
  import opened Rows
  import opened Retention
  import opened Events
  import opened Latest
  import opened Queries
  import opened Ingest
  import opened Handlers

  function TaskHandler(t: Texts): TaskMessage -> Option<Incoming<TaskEvent>> {
    (m: TaskMessage) => HandleTask(t, m)
  }

  function WorkerHandler(t: Texts): WorkerMessage -> Option<Incoming<WorkerEvent>> {
    (m: WorkerMessage) => HandleWorker(t, m)
  }

  /** What reaches a table: messages, and prunes in between. */
  datatype Feed<+M> = Message(message: M) | Cut(cutoff: int)

  function OperationOf<M, T>(handler: M -> Option<Incoming<T>>, item: Feed<M>): seq<Operation<T>> {
    match item
    case Cut(cutoff) => [PruneAt(cutoff)]
    case Message(m) => if handler(m).Some? then [Deliver(handler(m).value)] else []
  }

  function OperationsOf<M, T>(handler: M -> Option<Incoming<T>>, feed: seq<Feed<M>>): seq<Operation<T>> {
    if feed == [] then []
    else OperationsOf(handler, feed[..|feed| - 1]) + OperationOf(handler, feed[|feed| - 1])
  }

  lemma {:induction false} DeliveriesWereHandled<M, T>(handler: M -> Option<Incoming<T>>, feed: seq<Feed<M>>)
    ensures forall e :: e in Deliveries(OperationsOf(handler, feed)) ==>
              exists f :: f in feed && f.Message? && handler(f.message) == Some(e)
    ensures forall op :: op in OperationsOf(handler, feed) && op.PruneAt? ==>
              exists f :: f in feed && f == Cut(op.cutoff)
  {
    if feed != [] {
      var init, last := feed[..|feed| - 1], feed[|feed| - 1];
      DeliveriesWereHandled(handler, init);
      assert feed == init + [last];
      assert last in feed && forall f :: f in init ==> f in feed;
      var ops := OperationsOf(handler, feed);
      if ops != OperationsOf(handler, init) {
        assert ops[..|ops| - 1] == OperationsOf(handler, init);
        assert Deliveries(ops) == Deliveries(OperationsOf(handler, init)) +
                                  if last.Message? then [handler(last.message).value] else [];
      }
    }
  }

  lemma NoBarInTypes(eventType: string)
    requires IsTaskType(eventType) || IsWorkerType(eventType)
    ensures NoBar(eventType)
  {
  }

  lemma TaskKeysFixTime(t: Texts, feed: seq<Feed<TaskMessage>>)
    requires Faithful(t)
    ensures KeyFixesTime(TaskKeyColumn(), Deliveries(OperationsOf(TaskHandler(t), feed)))
  {
    var es := Deliveries(OperationsOf(TaskHandler(t), feed));
    DeliveriesWereHandled(TaskHandler(t), feed);
    forall d, e
      | d in es && e in es && TaskKeyColumn()(d.data).Some? && TaskKeyColumn()(d.data) == TaskKeyColumn()(e.data)
      ensures d.time == e.time
    {
      var f :| f in feed && f.Message? && TaskHandler(t)(f.message) == Some(d);
      var g :| g in feed && g.Message? && TaskHandler(t)(g.message) == Some(e);
      var m, n := f.message, g.message;
      NoBarInTypes(m.eventType);
      NoBarInTypes(n.eventType);
      TaskKeyIsInjective(t, m.eventType, m.taskId.value, m.hostname, m.sourceTs.value,
                         n.eventType, n.taskId.value, n.hostname, n.sourceTs.value);
    }
  }

  lemma WorkerKeysFixTime(t: Texts, feed: seq<Feed<WorkerMessage>>)
    requires Faithful(t)
    ensures KeyFixesTime(WorkerKeyColumn(), Deliveries(OperationsOf(WorkerHandler(t), feed)))
  {
    var es := Deliveries(OperationsOf(WorkerHandler(t), feed));
    DeliveriesWereHandled(WorkerHandler(t), feed);
    forall d, e
      | d in es && e in es && WorkerKeyColumn()(d.data).Some? && WorkerKeyColumn()(d.data) == WorkerKeyColumn()(e.data)
      ensures d.time == e.time
    {
      var f :| f in feed && f.Message? && WorkerHandler(t)(f.message) == Some(d);
      var g :| g in feed && g.Message? && WorkerHandler(t)(g.message) == Some(e);
      var m, n := f.message, g.message;
      NoBarInTypes(m.eventType);
      NoBarInTypes(n.eventType);
      WorkerKeyIsInjective(t, m.eventType, m.hostname.value, m.sourceTs.value,
                           n.eventType, n.hostname.value, n.sourceTs.value);
    }
  }

  /** For every feed of messages with prunes at cutoffs up to the last, to either table: pruning along
      the way and pruning once at the end leave the same rows in the same order. */
  lemma TaskIngestAndPruningCommute(t: Texts, feed: seq<Feed<TaskMessage>>, last: int)
    requires Faithful(t) && forall f :: f in feed && f.Cut? ==> f.cutoff <= last
    ensures var ops := OperationsOf(TaskHandler(t), feed);
            Stripped(Kept(Operate(TaskKeyColumn(), Empty(), ops).rows, last))
              == Stripped(Kept(InsertAll(TaskKeyColumn(), Empty(), Deliveries(ops)).rows, last))
  {
    TaskKeysFixTime(t, feed);
    DeliveriesWereHandled(TaskHandler(t), feed);
    IngestAndPruningCommute(TaskKeyColumn(), OperationsOf(TaskHandler(t), feed), last);
  }

  lemma WorkerIngestAndPruningCommute(t: Texts, feed: seq<Feed<WorkerMessage>>, last: int)
    requires Faithful(t) && forall f :: f in feed && f.Cut? ==> f.cutoff <= last
    ensures var ops := OperationsOf(WorkerHandler(t), feed);
            Stripped(Kept(Operate(WorkerKeyColumn(), Empty(), ops).rows, last))
              == Stripped(Kept(InsertAll(WorkerKeyColumn(), Empty(), Deliveries(ops)).rows, last))
  {
    WorkerKeysFixTime(t, feed);
    DeliveriesWereHandled(WorkerHandler(t), feed);
    IngestAndPruningCommute(WorkerKeyColumn(), OperationsOf(WorkerHandler(t), feed), last);
  }

  // ---------------------------------------------------------------- the page after a feed

  /** The task table after a feed. */
  ghost function TaskLog(t: Texts, feed: seq<Feed<TaskMessage>>): Snapshot<TaskEvent> {
    Operate(TaskKeyColumn(), Empty(), OperationsOf(TaskHandler(t), feed))
  }

  lemma OneMoreItem<M, T>(handler: M -> Option<Incoming<T>>, feed: seq<Feed<M>>, item: Feed<M>)
    ensures OperationsOf(handler, feed + [item]) == OperationsOf(handler, feed) + OperationOf(handler, item)
  {
    assert (feed + [item])[..|feed|] == feed;
  }

  /** One message consumed is one more message of the feed. */
  method ConsumeTask(table: Table<TaskEvent>, t: Texts, m: TaskMessage, ghost feed: seq<Feed<TaskMessage>>)
    requires table.Valid() && table.Contents() == TaskLog(t, feed)
    modifies table
    ensures table.Valid() && table.Contents() == TaskLog(t, feed + [Message(m)])
  {
    OneMoreItem(TaskHandler(t), feed, Message(m));
    ghost var ops := OperationsOf(TaskHandler(t), feed);
    var accepted := HandleTaskMessage(table, t, m);
    if accepted {
      assert (ops + [Deliver(HandleTask(t, m).value)])[..|ops|] == ops;
    } else {
      assert ops + [] == ops;
    }
  }

  /** An accepted message of the feed about this task. */
  ghost predicate Accepted(t: Texts, feed: seq<Feed<TaskMessage>>, task: TaskId, m: TaskMessage) {
    Message(m) in feed && HandleTask(t, m).Some? && m.taskId == Some(task)
  }

  /** No prune of the feed reaches the message. */
  ghost predicate Outlives(feed: seq<Feed<TaskMessage>>, m: TaskMessage) {
    forall f :: f in feed && f.Cut? ==> f.cutoff <= TimeOf(m.sourceTs, m.arrival)
  }

  /** The row says what the message said: its type, task, host (a missing one like an empty one) and time. */
  predicate Reports(r: Row<TaskEvent>, m: TaskMessage) {
    && r.data.eventType == m.eventType && Some(r.data.taskId) == m.taskId
    && PartText(r.data.hostname) == PartText(m.hostname) && r.time == TimeOf(m.sourceTs, m.arrival)
  }

  lemma RowsComeFromMessages(t: Texts, feed: seq<Feed<TaskMessage>>, r: Row<TaskEvent>)
    requires r in TaskLog(t, feed).rows
    ensures exists m :: Accepted(t, feed, r.data.taskId, m) && HandleTask(t, m) == Some(Incoming(r.time, r.data))
  {
    RowsWereDelivered(TaskKeyColumn(), OperationsOf(TaskHandler(t), feed));
    DeliveriesWereHandled(TaskHandler(t), feed);
    var f :| f in feed && f.Message? && TaskHandler(t)(f.message) == Some(Incoming(r.time, r.data));
    assert Accepted(t, feed, r.data.taskId, f.message);
  }

  lemma {:induction false} MessagesAreDelivered<M, T>(handler: M -> Option<Incoming<T>>, feed: seq<Feed<M>>, m: M)
    requires Message(m) in feed && handler(m).Some?
    ensures handler(m).value in Deliveries(OperationsOf(handler, feed))
  {
    var init, last := feed[..|feed| - 1], feed[|feed| - 1];
    assert feed == init + [last];
    OneMoreItem(handler, init, last);
    var ops := OperationsOf(handler, feed);
    assert ops != OperationsOf(handler, init) ==> ops[..|ops| - 1] == OperationsOf(handler, init);
    if Message(m) in init {
      MessagesAreDelivered(handler, init, m);
    }
  }

  /** Equal keys mean equal reports. */
  lemma StandInReports(t: Texts, feed: seq<Feed<TaskMessage>>, r: Row<TaskEvent>, m: TaskMessage)
    requires Faithful(t) && r in TaskLog(t, feed).rows && HandleTask(t, m).Some?
    requires StandsFor(TaskKeyColumn(), r, HandleTask(t, m).value)
    ensures Reports(r, m)
  {
    var e := HandleTask(t, m).value;
    if r.data != e.data {
      RowsComeFromMessages(t, feed, r);
      var n :| Accepted(t, feed, r.data.taskId, n) && HandleTask(t, n) == Some(Incoming(r.time, r.data));
      NoBarInTypes(m.eventType);
      NoBarInTypes(n.eventType);
      TaskKeyIsInjective(t, m.eventType, m.taskId.value, m.hostname, m.sourceTs.value,
                         n.eventType, n.taskId.value, n.hostname, n.sourceTs.value);
    }
  }

  /** Every accepted message that no prune reached is reported, redelivered or not. */
  lemma EveryMessageIsReported(t: Texts, feed: seq<Feed<TaskMessage>>, task: TaskId, m: TaskMessage)
    requires Faithful(t) && Accepted(t, feed, task, m) && Outlives(feed, m)
    ensures exists r :: r in TaskLog(t, feed).rows && Reports(r, m)
  {
    var ops, e := OperationsOf(TaskHandler(t), feed), HandleTask(t, m).value;
    MessagesAreDelivered(TaskHandler(t), feed, m);
    DeliveriesWereHandled(TaskHandler(t), feed);
    TaskKeysFixTime(t, feed);
    FreshDeliveriesAreStored(TaskKeyColumn(), ops, e);
    var r :| r in TaskLog(t, feed).rows && StandsFor(TaskKeyColumn(), r, e);
    StandInReports(t, feed, r, m);
  }

  /** An accepted message about the task that is no older than any such message no prune reached. */
  ghost predicate IsLatestMessage(t: Texts, feed: seq<Feed<TaskMessage>>, task: TaskId, m: TaskMessage) {
    && Accepted(t, feed, task, m)
    && forall n :: Accepted(t, feed, task, n) && Outlives(feed, n) ==>
      TimeOf(n.sourceTs, n.arrival) <= TimeOf(m.sourceTs, m.arrival)
  }

  lemma NewestRowIsALatestMessage(t: Texts, feed: seq<Feed<TaskMessage>>, r: Row<TaskEvent>)
    requires Faithful(t) && IsNewest(TaskOf(), TaskLog(t, feed).rows, r.data.taskId, r)
    ensures exists m :: IsLatestMessage(t, feed, r.data.taskId, m) && HandleTask(t, m) == Some(Incoming(r.time, r.data))
  {
    RowsComeFromMessages(t, feed, r);
    var m :| Accepted(t, feed, r.data.taskId, m) && HandleTask(t, m) == Some(Incoming(r.time, r.data));
    forall n | Accepted(t, feed, r.data.taskId, n) && Outlives(feed, n)
      ensures TimeOf(n.sourceTs, n.arrival) <= TimeOf(m.sourceTs, m.arrival)
    {
      EveryMessageIsReported(t, feed, r.data.taskId, n);
    }
    assert IsLatestMessage(t, feed, r.data.taskId, m);
  }

  lemma ShownNameWasCarried(t: Texts, feed: seq<Feed<TaskMessage>>, task: TaskId, events: seq<Row<TaskEvent>>)
    requires IsTimeline(TaskLog(t, feed).rows, task, events)
    ensures var name := LastValue(NameField(), events);
            name.Some? ==> exists m :: Accepted(t, feed, task, m) && Introduces(m.eventType) && m.name == name
  {
    TimelineMembers(TaskLog(t, feed).rows, task, events);
    LastValueFound(NameField(), events);
    var name := LastValue(NameField(), events);
    if name.Some? {
      var r :| r in events && NameField()(r.data) == name;
      RowsComeFromMessages(t, feed, r);
      var m :| Accepted(t, feed, r.data.taskId, m) && HandleTask(t, m) == Some(Incoming(r.time, r.data));
    }
  }

  lemma NotFoundIsPruned(t: Texts, feed: seq<Feed<TaskMessage>>, task: TaskId)
    requires Faithful(t) && IsTimeline(TaskLog(t, feed).rows, task, [])
    ensures forall m :: Accepted(t, feed, task, m) ==> !Outlives(feed, m)
  {
    TimelineMembers(TaskLog(t, feed).rows, task, []);
    forall m | Accepted(t, feed, task, m) && Outlives(feed, m) ensures false {
      EveryMessageIsReported(t, feed, task, m);
    }
  }

  lemma LastEventIsALatestMessage(t: Texts, feed: seq<Feed<TaskMessage>>, task: TaskId, events: seq<Row<TaskEvent>>)
    requires Faithful(t) && IsTimeline(TaskLog(t, feed).rows, task, events) && events != []
    ensures var last := events[|events| - 1];
            exists m :: IsLatestMessage(t, feed, task, m) && HandleTask(t, m) == Some(Incoming(last.time, last.data))
  {
    var last := events[|events| - 1];
    TimelineMembers(TaskLog(t, feed).rows, task, events);
    assert last in events;
    TimelineEndsWithANewest(TaskLog(t, feed).rows, task, events, last);
    NewestRowIsALatestMessage(t, feed, last);
  }

  /** The task's page after any feed. It shows state, worker and time of a latest message about the task; the
      name it shows was carried by a sent or received message; and the task is not found only if a prune
      reached every message about it. */
  lemma PageAfterAnyFeed(t: Texts, feed: seq<Feed<TaskMessage>>, task: TaskId, events: seq<Row<TaskEvent>>)
    requires Faithful(t) && IsTimeline(TaskLog(t, feed).rows, task, events)
    ensures events == [] ==> forall m :: Accepted(t, feed, task, m) ==> !Outlives(feed, m)
    ensures events != [] ==>
              var last := events[|events| - 1];
              exists m :: IsLatestMessage(t, feed, task, m) && m.eventType == last.data.eventType
                && m.hostname == last.data.hostname && TimeOf(m.sourceTs, m.arrival) == last.time
    ensures var name := LastValue(NameField(), events);
            name.Some? ==> exists m :: Accepted(t, feed, task, m) && Introduces(m.eventType) && m.name == name
  {
    if events == [] {
      NotFoundIsPruned(t, feed, task);
    } else {
      LastEventIsALatestMessage(t, feed, task, events);
    }
    ShownNameWasCarried(t, feed, task, events);
  }
}
