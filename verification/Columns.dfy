/** What a feed leaves in the columns: every message that is stored, in the columns its type fills, and nothing else. */
module Columns {
  import opened Rows
  import opened Events
  import opened Ingest
  import opened Handlers
  import opened Feeds
  import opened Redelivery

  // ------------------------------------------------- a row stays until it is pruned

  /** The table after a feed, whatever the handler. */
  ghost function LogOf<M, T>(key: Key<T>, handler: M -> Option<Incoming<T>>, feed: seq<Feed<M>>): Snapshot<T> {
    Operate(key, Empty(), OperationsOf(handler, feed))
  }

  lemma OneMoreInLog<M, T>(key: Key<T>, handler: M -> Option<Incoming<T>>, feed: seq<Feed<M>>, item: Feed<M>)
    ensures var before, after := LogOf(key, handler, feed), LogOf(key, handler, feed + [item]);
            && (item.Cut? ==> after == before.(rows := Kept(before.rows, item.cutoff)))
            && (item.Message? ==>
                  after == if handler(item.message).Some?
                           then InsertNew(key, before, handler(item.message).value) else before)
  {
    OneMoreItem(handler, feed, item);
    var ops, more := OperationsOf(handler, feed), OperationOf(handler, item);
    if more == [] {
      assert ops + more == ops;
    } else {
      assert (ops + more)[..|ops + more| - 1] == ops;
    }
  }

  lemma {:induction false} RowStays<M, T>(key: Key<T>, handler: M -> Option<Incoming<T>>, feed: seq<Feed<M>>, n: nat,
                                         r: Row<T>)
    requires n <= |feed| && r in LogOf(key, handler, feed[..n]).rows
    requires forall i :: n <= i < |feed| && feed[i].Cut? ==> feed[i].cutoff <= r.time
    ensures r in LogOf(key, handler, feed).rows
    decreases |feed|
  {
    if n == |feed| {
      assert feed[..n] == feed;
    } else {
      var init, last := feed[..|feed| - 1], feed[|feed| - 1];
      assert feed == init + [last] && init[..n] == feed[..n];
      RowStays(key, handler, init, n, r);
      OneMoreInLog(key, handler, init, last);
      if last.Cut? {
        FilterMember(From<T>(last.cutoff), LogOf(key, handler, init).rows);
        assert From(last.cutoff)(r);
      }
    }
  }

  /** A delivery that finds no row with its key is stored as it is. */
  lemma FreshDeliveryIsStored<M, T>(key: Key<T>, handler: M -> Option<Incoming<T>>, feed: seq<Feed<M>>, i: nat,
                                   e: Incoming<T>)
    returns (r: Row<T>)
    requires i < |feed| && feed[i].Message? && handler(feed[i].message) == Some(e)
    requires key(e.data).Some? ==> !Stored(key, LogOf(key, handler, feed[..i]).rows, key(e.data).value)
    requires forall j :: i < j < |feed| && feed[j].Cut? ==> feed[j].cutoff <= e.time
    ensures r in LogOf(key, handler, feed).rows && r.time == e.time && r.data == e.data
  {
    var before := LogOf(key, handler, feed[..i]);
    r := Row(before.next, e.time, e.data);
    OneMoreInLog(key, handler, feed[..i], feed[i]);
    assert feed[..i + 1] == feed[..i] + [feed[i]];
    var after := LogOf(key, handler, feed[..i + 1]).rows;
    assert after == before.rows + [r];
    assert after[|before.rows|] == r;
    RowStays(key, handler, feed, i + 1, r);
  }

  // ------------------------------------------------- task messages

  /** An earlier message of the feed is about the same event: type, task, host (a missing one like an empty one) and
      timestamp. */
  ghost predicate HeardBefore(feed: seq<Feed<TaskMessage>>, i: nat, m: TaskMessage)
    requires i <= |feed|
  {
    exists j :: 0 <= j < i && feed[j].Message? && SameEvent(feed[j].message, m)
  }

  lemma StoredMeansHeard(t: Texts, feed: seq<Feed<TaskMessage>>, i: nat, m: TaskMessage, k: string)
    requires Faithful(t) && i <= |feed| && HandleTask(t, m).Some? && HandleTask(t, m).value.data.dedupeKey == Some(k)
    requires Stored(TaskKeyColumn(), TaskLog(t, feed[..i]).rows, k)
    ensures HeardBefore(feed, i, m)
  {
    var init := feed[..i];
    var r :| r in TaskLog(t, init).rows && TaskKeyColumn()(r.data) == Some(k);
    RowsComeFromMessages(t, init, r);
    var n :| Accepted(t, init, r.data.taskId, n) && HandleTask(t, n) == Some(Incoming(r.time, r.data));
    SameKeySameEvent(t, n, m);
    var j :| 0 <= j < i && init[j] == Message(n);
    assert feed[j].Message? && SameEvent(feed[j].message, m);
  }

  lemma SameKeySameEvent(t: Texts, m: TaskMessage, n: TaskMessage)
    requires Faithful(t) && HandleTask(t, m).Some? && HandleTask(t, n).Some?
    requires HandleTask(t, m).value.data.dedupeKey.Some?
    requires HandleTask(t, m).value.data.dedupeKey == HandleTask(t, n).value.data.dedupeKey
    ensures SameEvent(m, n)
  {
    NoBarInTypes(m.eventType);
    NoBarInTypes(n.eventType);
    TaskKeyIsInjective(t, m.eventType, m.taskId.value, m.hostname, m.sourceTs.value,
                       n.eventType, n.taskId.value, n.hostname, n.sourceTs.value);
  }

  /** Every acceptable message that no earlier one stands for and no later prune reaches is stored, with exactly the
      columns its type fills. */
  lemma FirstMessageFillsItsRow(t: Texts, feed: seq<Feed<TaskMessage>>, i: nat, m: TaskMessage)
    returns (r: Row<TaskEvent>)
    requires Faithful(t) && i < |feed| && feed[i] == Message(m) && Acceptable(m) && !HeardBefore(feed, i, m)
    requires forall j :: i < j < |feed| && feed[j].Cut? ==>
               feed[j].cutoff <= if m.sourceTs.Some? then m.sourceTs.value else m.arrival
    ensures r in TaskLog(t, feed).rows && FillsColumns(r, m)
  {
    HandledFillsColumns(t, m, 0);
    var e := HandleTask(t, m).value;
    if e.data.dedupeKey.Some? && Stored(TaskKeyColumn(), TaskLog(t, feed[..i]).rows, e.data.dedupeKey.value) {
      StoredMeansHeard(t, feed, i, m, e.data.dedupeKey.value);
    }
    r := FreshDeliveryIsStored(TaskKeyColumn(), TaskHandler(t), feed, i, e);
    HandledFillsColumns(t, m, r.id);
  }

  /** Where one event has one message, so is every redelivery: any acceptable message no prune reaches. */
  lemma EveryMessageFillsARow(t: Texts, feed: seq<Feed<TaskMessage>>, m: TaskMessage) returns (r: Row<TaskEvent>)
    requires Faithful(t) && OneStory(MessagesOf(feed)) && Message(m) in feed && Acceptable(m)
    requires forall f :: f in feed && f.Cut? ==>
               f.cutoff <= if m.sourceTs.Some? then m.sourceTs.value else m.arrival
    ensures r in TaskLog(t, feed).rows && FillsColumns(r, m)
  {
    var i := FirstOfItsEvent(feed, m);
    var n := feed[i].message;
    if n == m {
      r := FirstMessageFillsItsRow(t, feed, i, m);
    } else {
      MessagesAreInTheFeed(feed, m);
      MessagesAreInTheFeed(feed, n);
      assert SameMessage(n, m);
      r := FirstMessageFillsItsRow(t, feed, i, n);
      SameMessageSameColumns(r, n, m);
    }
  }

  lemma SameMessageSameColumns(r: Row<TaskEvent>, m: TaskMessage, n: TaskMessage)
    requires FillsColumns(r, m) && SameMessage(m, n) && m.sourceTs.Some?
    ensures FillsColumns(r, n)
  {
  }

  lemma {:induction false} MessagesAreInTheFeed(feed: seq<Feed<TaskMessage>>, m: TaskMessage)
    requires Message(m) in feed
    ensures m in MessagesOf(feed)
  {
    var init, last := feed[..|feed| - 1], feed[|feed| - 1];
    assert feed == init + [last];
    if Message(m) in init {
      MessagesAreInTheFeed(init, m);
    }
  }

  lemma SameHeardBefore(init: seq<Feed<TaskMessage>>, feed: seq<Feed<TaskMessage>>, i: nat, m: TaskMessage)
    requires init <= feed && i <= |init|
    ensures HeardBefore(init, i, m) <==> HeardBefore(feed, i, m)
  {
    forall j | 0 <= j < i ensures init[j] == feed[j] {
    }
  }

  /** The first message of the feed that stands for this one. */
  lemma {:induction false} FirstOfItsEvent(feed: seq<Feed<TaskMessage>>, m: TaskMessage) returns (i: nat)
    requires Message(m) in feed
    ensures i < |feed| && feed[i].Message? && (feed[i].message == m || SameEvent(feed[i].message, m))
    ensures !HeardBefore(feed, i, feed[i].message)
  {
    var init, last := feed[..|feed| - 1], feed[|feed| - 1];
    assert feed == init + [last];
    if Message(m) in init {
      i := FirstOfItsEvent(init, m);
      SameHeardBefore(init, feed, i, init[i].message);
    } else if HeardBefore(feed, |init|, m) {
      var j :| 0 <= j < |init| && feed[j].Message? && SameEvent(feed[j].message, m);
      assert init[j] == Message(feed[j].message);
      i := FirstOfItsEvent(init, feed[j].message);
      SameHeardBefore(init, feed, i, init[i].message);
    } else {
      i := |init|;
    }
  }

  /** And nothing else is stored: every row has the columns of an acceptable message of the feed. */
  lemma EveryRowIsAMessage(t: Texts, feed: seq<Feed<TaskMessage>>, r: Row<TaskEvent>) returns (m: TaskMessage)
    requires r in TaskLog(t, feed).rows
    ensures Message(m) in feed && Acceptable(m) && FillsColumns(r, m)
  {
    RowsComeFromMessages(t, feed, r);
    m :| Accepted(t, feed, r.data.taskId, m) && HandleTask(t, m) == Some(Incoming(r.time, r.data));
    HandledFillsColumns(t, m, r.id);
  }

  // ------------------------------------------------- worker messages

  ghost predicate SignalledBefore(feed: seq<Feed<WorkerMessage>>, i: nat, m: WorkerMessage)
    requires i <= |feed|
  {
    exists j :: 0 <= j < i && feed[j].Message? && SameBeat(feed[j].message, m)
  }

  lemma WorkerRowsComeFromMessages(t: Texts, feed: seq<Feed<WorkerMessage>>, r: Row<WorkerEvent>)
    returns (m: WorkerMessage)
    requires r in WorkerLog(t, feed).rows
    ensures Message(m) in feed && HandleWorker(t, m) == Some(Incoming(r.time, r.data))
  {
    RowsWereDelivered(WorkerKeyColumn(), OperationsOf(WorkerHandler(t), feed));
    DeliveriesWereHandled(WorkerHandler(t), feed);
    var f :| f in feed && f.Message? && WorkerHandler(t)(f.message) == Some(Incoming(r.time, r.data));
    m := f.message;
  }

  lemma SameKeySameBeat(t: Texts, m: WorkerMessage, n: WorkerMessage)
    requires Faithful(t) && HandleWorker(t, m).Some? && HandleWorker(t, n).Some?
    requires HandleWorker(t, m).value.data.dedupeKey.Some?
    requires HandleWorker(t, m).value.data.dedupeKey == HandleWorker(t, n).value.data.dedupeKey
    ensures SameBeat(m, n)
  {
    NoBarInTypes(m.eventType);
    NoBarInTypes(n.eventType);
    WorkerKeyIsInjective(t, m.eventType, m.hostname.value, m.sourceTs.value,
                         n.eventType, n.hostname.value, n.sourceTs.value);
  }

  lemma StoredMeansSignalled(t: Texts, feed: seq<Feed<WorkerMessage>>, i: nat, m: WorkerMessage, k: string)
    requires Faithful(t) && i <= |feed| && HandleWorker(t, m).Some?
    requires HandleWorker(t, m).value.data.dedupeKey == Some(k)
    requires Stored(WorkerKeyColumn(), WorkerLog(t, feed[..i]).rows, k)
    ensures SignalledBefore(feed, i, m)
  {
    var init := feed[..i];
    var r :| r in WorkerLog(t, init).rows && WorkerKeyColumn()(r.data) == Some(k);
    var n := WorkerRowsComeFromMessages(t, init, r);
    SameKeySameBeat(t, n, m);
    var j :| 0 <= j < i && init[j] == Message(n);
    assert feed[j].Message? && SameBeat(feed[j].message, m);
  }

  /** The same for workers: what is stored, ... */
  lemma FirstSignalFillsItsRow(t: Texts, feed: seq<Feed<WorkerMessage>>, i: nat, m: WorkerMessage)
    returns (r: Row<WorkerEvent>)
    requires Faithful(t) && i < |feed| && feed[i] == Message(m) && AcceptableSignal(m) && !SignalledBefore(feed, i, m)
    requires forall j :: i < j < |feed| && feed[j].Cut? ==>
               feed[j].cutoff <= if m.sourceTs.Some? then m.sourceTs.value else m.arrival
    ensures r in WorkerLog(t, feed).rows && FillsWorkerColumns(r, m)
  {
    HandledFillsWorkerColumns(t, m, 0);
    var e := HandleWorker(t, m).value;
    if e.data.dedupeKey.Some? && Stored(WorkerKeyColumn(), WorkerLog(t, feed[..i]).rows, e.data.dedupeKey.value) {
      StoredMeansSignalled(t, feed, i, m, e.data.dedupeKey.value);
    }
    r := FreshDeliveryIsStored(WorkerKeyColumn(), WorkerHandler(t), feed, i, e);
    HandledFillsWorkerColumns(t, m, r.id);
  }

  /** ... and that nothing else is. */
  lemma EveryWorkerRowIsAMessage(t: Texts, feed: seq<Feed<WorkerMessage>>, r: Row<WorkerEvent>)
    returns (m: WorkerMessage)
    requires r in WorkerLog(t, feed).rows
    ensures Message(m) in feed && AcceptableSignal(m) && FillsWorkerColumns(r, m)
  {
    m := WorkerRowsComeFromMessages(t, feed, r);
    HandledFillsWorkerColumns(t, m, r.id);
  }
}
