/** An at-least-once broker in front of the tables: reordered and repeated messages, and prunes in between,
    leave the same rows. */
module Redelivery {
  import opened Rows
  import opened Events
  import opened Ingest
  import opened Handlers
  import opened Feeds

  function MessagesOf<M>(feed: seq<Feed<M>>): seq<M> {
    if feed == [] then []
    else
      var before, last := MessagesOf(feed[..|feed| - 1]), feed[|feed| - 1];
      if last.Message? then before + [last.message] else before
  }

  /** The rows the accepted messages become. */
  function Handled<M, T>(handler: M -> Option<Incoming<T>>, ms: seq<M>): seq<Incoming<T>> {
    if ms == [] then []
    else
      var before, row := Handled(handler, ms[..|ms| - 1]), handler(ms[|ms| - 1]);
      if row.Some? then before + [row.value] else before
  }

  lemma HandledAppend<M, T>(handler: M -> Option<Incoming<T>>, ms: seq<M>, m: M)
    ensures Handled(handler, ms + [m]) == Handled(handler, ms) + if handler(m).Some? then [handler(m).value] else []
  {
    assert (ms + [m])[..|ms|] == ms;
  }

  lemma {:induction false} DeliveriesAreHandled<M, T>(handler: M -> Option<Incoming<T>>, feed: seq<Feed<M>>)
    ensures Deliveries(OperationsOf(handler, feed)) == Handled(handler, MessagesOf(feed))
  {
    if feed != [] {
      var init, last := feed[..|feed| - 1], feed[|feed| - 1];
      DeliveriesAreHandled(handler, init);
      var ops := OperationsOf(handler, init);
      if last.Message? {
        HandledAppend(handler, MessagesOf(init), last.message);
        if handler(last.message).Some? {
          assert (ops + [Deliver(handler(last.message).value)])[..|ops|] == ops;
        } else {
          assert ops + [] == ops;
        }
      } else {
        assert (ops + [PruneAt(last.cutoff)])[..|ops|] == ops;
      }
    }
  }

  lemma {:induction false} HandledMembers<M, T>(handler: M -> Option<Incoming<T>>, ms: seq<M>)
    ensures forall e :: e in Handled(handler, ms) <==> exists m :: m in ms && handler(m) == Some(e)
  {
    if ms != [] {
      var init, last := ms[..|ms| - 1], ms[|ms| - 1];
      HandledMembers(handler, init);
      assert ms == init + [last];
      forall e ensures e in Handled(handler, ms) <==> exists m :: m in ms && handler(m) == Some(e) {
        if e in Handled(handler, init) {
          var m :| m in init && handler(m) == Some(e);
          assert m in ms;
        } else if handler(last) == Some(e) {
          assert last in ms;
        }
      }
    }
  }

  lemma {:induction false} HandledConcat<M, T>(handler: M -> Option<Incoming<T>>, ms: seq<M>, ns: seq<M>)
    ensures Handled(handler, ms + ns) == Handled(handler, ms) + Handled(handler, ns)
  {
    if ns == [] {
      assert ms + ns == ms;
    } else {
      var init := ns[..|ns| - 1];
      HandledConcat(handler, ms, init);
      assert (ms + ns)[..|ms + ns| - 1] == ms + init;
    }
  }

  lemma {:induction false} HandledPermuted<M, T>(handler: M -> Option<Incoming<T>>, ms: seq<M>, ns: seq<M>)
    requires multiset(ms) == multiset(ns)
    ensures multiset(Handled(handler, ms)) == multiset(Handled(handler, ns))
  {
    if ms == [] {
      assert |multiset(ns)| == |ns|;
      assert ns == [];
    } else {
      var i := Without(ms, ns);
      HandledPermuted(handler, ms[1..], ns[..i] + ns[i + 1..]);
      assert ms == [ms[0]] + ms[1..];
      HandledConcat(handler, [ms[0]], ms[1..]);
      HandledConcat(handler, ns[..i], ns[i + 1..]);
      HandledConcat(handler, ns[..i] + [ms[0]], ns[i + 1..]);
      HandledConcat(handler, ns[..i], [ms[0]]);
    }
  }

  /** The handler keys exactly the messages that carry a timestamp. */
  ghost predicate KeysTimed<M(!new), T>(key: Key<T>, handler: M -> Option<Incoming<T>>, untimed: M -> bool) {
    forall m :: handler(m).Some? ==> (key(handler(m).value.data).None? <==> untimed(m))
  }

  lemma {:induction false} UnkeyedAreUntimed<M(!new), T>(key: Key<T>, handler: M -> Option<Incoming<T>>,
                                               untimed: M -> bool, ms: seq<M>)
    requires KeysTimed(key, handler, untimed)
    ensures Filter(Unkeyed(key), Handled(handler, ms)) == Handled(handler, Filter(untimed, ms))
  {
    if ms != [] {
      var init, last := ms[..|ms| - 1], ms[|ms| - 1];
      UnkeyedAreUntimed(key, handler, untimed, init);
      assert ms == init + [last];
      FilterAppend(untimed, init, last);
      HandledAppend(handler, init, last);
      HandledAppend(handler, Filter(untimed, init), last);
      if handler(last).Some? {
        FilterAppend(Unkeyed(key), Handled(handler, init), handler(last).value);
      } else {
        assert Handled(handler, init) + [] == Handled(handler, init);
      }
    }
  }

  /** The rows each of the two becomes, where the handler sends every timed message of one to what it sends
      some message of the other to. */
  ghost predicate Echoes<M, T>(handler: M -> Option<Incoming<T>>, untimed: M -> bool, ms: seq<M>, ns: seq<M>) {
    forall m :: m in ms && !untimed(m) ==> exists n :: n in ns && !untimed(n) && handler(n) == handler(m)
  }

  lemma EchoedKeys<M(!new), T>(key: Key<T>, handler: M -> Option<Incoming<T>>, untimed: M -> bool, ms: seq<M>,
                     ns: seq<M>)
    requires KeysTimed(key, handler, untimed) && Echoes(handler, untimed, ms, ns)
    ensures Distinct(key, Handled(handler, ms)) <= Distinct(key, Handled(handler, ns))
  {
    HandledMembers(handler, ms);
    HandledMembers(handler, ns);
    forall e | e in Distinct(key, Handled(handler, ms)) ensures e in Distinct(key, Handled(handler, ns)) {
      var m :| m in ms && handler(m) == Some(e);
      var n :| n in ns && !untimed(n) && handler(n) == handler(m);
    }
  }

  lemma SameMessagesSameRows<M(!new), T>(key: Key<T>, handler: M -> Option<Incoming<T>>, untimed: M -> bool,
                               ms: seq<M>, ns: seq<M>)
    requires KeysTimed(key, handler, untimed) && Consistent(key, Handled(handler, ms))
    requires Echoes(handler, untimed, ms, ns) && Echoes(handler, untimed, ns, ms)
    requires multiset(Filter(untimed, ms)) == multiset(Filter(untimed, ns))
    ensures multiset(Stripped(InsertAll(key, Empty(), Handled(handler, ms)).rows))
         == multiset(Stripped(InsertAll(key, Empty(), Handled(handler, ns)).rows))
  {
    EchoedKeys(key, handler, untimed, ms, ns);
    EchoedKeys(key, handler, untimed, ns, ms);
    UnkeyedAreUntimed(key, handler, untimed, ms);
    UnkeyedAreUntimed(key, handler, untimed, ns);
    HandledPermuted(handler, Filter(untimed, ms), Filter(untimed, ns));
    SameDeliveriesSameRows(key, Handled(handler, ms), Handled(handler, ns));
  }

  function FreshIncoming<T>(cutoff: int): Incoming<T> -> bool {
    (e: Incoming<T>) => e.time >= cutoff
  }

  lemma KeptStripped<T>(a: seq<Row<T>>, b: seq<Row<T>>, cutoff: int)
    requires multiset(Stripped(a)) == multiset(Stripped(b))
    ensures multiset(Stripped(Kept(a, cutoff))) == multiset(Stripped(Kept(b, cutoff)))
  {
    FilterApply(Strip<T>(), FreshIncoming(cutoff), From(cutoff), a);
    FilterApply(Strip<T>(), FreshIncoming(cutoff), From(cutoff), b);
    FilterPermuted(FreshIncoming(cutoff), Stripped(a), Stripped(b));
  }

  // ---------------------------------------------------------------- task messages

  function UntimedTask(): TaskMessage -> bool {
    (m: TaskMessage) => m.sourceTs.None?
  }

  /** The same message, ingested at another time. */
  predicate SameMessage(m: TaskMessage, n: TaskMessage) {
    m.(arrival := 0) == n.(arrival := 0)
  }

  /** Equal type, task, host (a missing one like an empty one) and timestamp. */
  predicate SameEvent(m: TaskMessage, n: TaskMessage) {
    && m.sourceTs.Some? && m.sourceTs == n.sourceTs
    && m.eventType == n.eventType && m.taskId == n.taskId && PartText(m.hostname) == PartText(n.hostname)
  }

  /** One event has one message. */
  ghost predicate OneStory(ms: seq<TaskMessage>) {
    forall m, n :: m in ms && n in ms && SameEvent(m, n) ==> SameMessage(m, n)
  }

  /** The same timed messages, in any order and number, and the same bag of the others. */
  ghost predicate SameStory(ms: seq<TaskMessage>, ns: seq<TaskMessage>) {
    && (forall m :: m in ms && m.sourceTs.Some? ==> exists n :: n in ns && SameMessage(m, n))
    && (forall n :: n in ns && n.sourceTs.Some? ==> exists m :: m in ms && SameMessage(n, m))
    && multiset(Filter(UntimedTask(), ms)) == multiset(Filter(UntimedTask(), ns))
  }

  lemma OneStoryIsConsistent(t: Texts, ms: seq<TaskMessage>)
    requires Faithful(t) && OneStory(ms)
    ensures Consistent(TaskKeyColumn(), Handled(TaskHandler(t), ms))
  {
    HandledMembers(TaskHandler(t), ms);
    var es := Handled(TaskHandler(t), ms);
    forall d, e
      | d in es && e in es && TaskKeyColumn()(d.data).Some? && TaskKeyColumn()(d.data) == TaskKeyColumn()(e.data)
      ensures d == e
    {
      var m :| m in ms && TaskHandler(t)(m) == Some(d);
      var n :| n in ms && TaskHandler(t)(n) == Some(e);
      NoBarInTypes(m.eventType);
      NoBarInTypes(n.eventType);
      TaskKeyIsInjective(t, m.eventType, m.taskId.value, m.hostname, m.sourceTs.value,
                         n.eventType, n.taskId.value, n.hostname, n.sourceTs.value);
      assert SameEvent(m, n);
    }
  }

  lemma TaskHandlerKeysTimed(t: Texts)
    ensures KeysTimed(TaskKeyColumn(), TaskHandler(t), UntimedTask())
  {
    forall m: TaskMessage | TaskHandler(t)(m).Some?
      ensures TaskKeyColumn()(TaskHandler(t)(m).value.data).None? <==> UntimedTask()(m)
    {
    }
  }

  lemma SameStoryEchoes(t: Texts, ms: seq<TaskMessage>, ns: seq<TaskMessage>)
    requires forall m :: m in ms && m.sourceTs.Some? ==> exists n :: n in ns && SameMessage(m, n)
    ensures Echoes(TaskHandler(t), UntimedTask(), ms, ns)
  {
    forall m | m in ms && !UntimedTask()(m)
      ensures exists n :: n in ns && !UntimedTask()(n) && TaskHandler(t)(n) == TaskHandler(t)(m)
    {
      var n :| n in ns && SameMessage(m, n);
      assert HandleTask(t, n) == HandleTask(t, m);
    }
  }

  /** Two feeds that tell the same story, however the broker ordered and repeated it and whenever the tables
      were pruned on the way, leave the same rows once pruned at one last cutoff. */
  lemma RedeliveryAndPruningDoNotMatter(t: Texts, feed: seq<Feed<TaskMessage>>, other: seq<Feed<TaskMessage>>,
                                        last: int)
    requires Faithful(t) && OneStory(MessagesOf(feed)) && SameStory(MessagesOf(feed), MessagesOf(other))
    requires forall f :: (f in feed || f in other) && f.Cut? ==> f.cutoff <= last
    ensures multiset(Stripped(Kept(TaskLog(t, feed).rows, last)))
            == multiset(Stripped(Kept(TaskLog(t, other).rows, last)))
  {
    var ms, ns := MessagesOf(feed), MessagesOf(other);
    TaskIngestAndPruningCommute(t, feed, last);
    TaskIngestAndPruningCommute(t, other, last);
    DeliveriesAreHandled(TaskHandler(t), feed);
    DeliveriesAreHandled(TaskHandler(t), other);
    OneStoryIsConsistent(t, ms);
    TaskHandlerKeysTimed(t);
    SameStoryEchoes(t, ms, ns);
    SameStoryEchoes(t, ns, ms);
    SameMessagesSameRows(TaskKeyColumn(), TaskHandler(t), UntimedTask(), ms, ns);
    KeptStripped(InsertAll(TaskKeyColumn(), Empty(), Handled(TaskHandler(t), ms)).rows,
                 InsertAll(TaskKeyColumn(), Empty(), Handled(TaskHandler(t), ns)).rows, last);
  }

  // ---------------------------------------------------------------- worker messages

  function UntimedWorker(): WorkerMessage -> bool {
    (m: WorkerMessage) => m.sourceTs.None?
  }

  predicate SameSignal(m: WorkerMessage, n: WorkerMessage) {
    m.(arrival := 0) == n.(arrival := 0)
  }

  predicate SameBeat(m: WorkerMessage, n: WorkerMessage) {
    m.sourceTs.Some? && m.sourceTs == n.sourceTs && m.eventType == n.eventType && m.hostname == n.hostname
  }

  ghost predicate OneSignalEach(ms: seq<WorkerMessage>) {
    forall m, n :: m in ms && n in ms && SameBeat(m, n) ==> SameSignal(m, n)
  }

  ghost predicate SameSignals(ms: seq<WorkerMessage>, ns: seq<WorkerMessage>) {
    && (forall m :: m in ms && m.sourceTs.Some? ==> exists n :: n in ns && SameSignal(m, n))
    && (forall n :: n in ns && n.sourceTs.Some? ==> exists m :: m in ms && SameSignal(n, m))
    && multiset(Filter(UntimedWorker(), ms)) == multiset(Filter(UntimedWorker(), ns))
  }

  lemma OneSignalIsConsistent(t: Texts, ms: seq<WorkerMessage>)
    requires Faithful(t) && OneSignalEach(ms)
    ensures Consistent(WorkerKeyColumn(), Handled(WorkerHandler(t), ms))
  {
    HandledMembers(WorkerHandler(t), ms);
    var es := Handled(WorkerHandler(t), ms);
    forall d, e
      | d in es && e in es && WorkerKeyColumn()(d.data).Some? && WorkerKeyColumn()(d.data) == WorkerKeyColumn()(e.data)
      ensures d == e
    {
      var m :| m in ms && WorkerHandler(t)(m) == Some(d);
      var n :| n in ms && WorkerHandler(t)(n) == Some(e);
      NoBarInTypes(m.eventType);
      NoBarInTypes(n.eventType);
      WorkerKeyIsInjective(t, m.eventType, m.hostname.value, m.sourceTs.value,
                           n.eventType, n.hostname.value, n.sourceTs.value);
      assert SameBeat(m, n);
    }
  }

  lemma WorkerHandlerKeysTimed(t: Texts)
    ensures KeysTimed(WorkerKeyColumn(), WorkerHandler(t), UntimedWorker())
  {
    forall m: WorkerMessage | WorkerHandler(t)(m).Some?
      ensures WorkerKeyColumn()(WorkerHandler(t)(m).value.data).None? <==> UntimedWorker()(m)
    {
    }
  }

  lemma SameSignalsEcho(t: Texts, ms: seq<WorkerMessage>, ns: seq<WorkerMessage>)
    requires forall m :: m in ms && m.sourceTs.Some? ==> exists n :: n in ns && SameSignal(m, n)
    ensures Echoes(WorkerHandler(t), UntimedWorker(), ms, ns)
  {
    forall m | m in ms && !UntimedWorker()(m)
      ensures exists n :: n in ns && !UntimedWorker()(n) && WorkerHandler(t)(n) == WorkerHandler(t)(m)
    {
      var n :| n in ns && SameSignal(m, n);
      assert HandleWorker(t, n) == HandleWorker(t, m);
    }
  }

  /** The worker table after a feed. */
  ghost function WorkerLog(t: Texts, feed: seq<Feed<WorkerMessage>>): Snapshot<WorkerEvent> {
    Operate(WorkerKeyColumn(), Empty(), OperationsOf(WorkerHandler(t), feed))
  }

  /** The same for worker messages. */
  lemma WorkerRedeliveryAndPruningDoNotMatter(t: Texts, feed: seq<Feed<WorkerMessage>>,
                                              other: seq<Feed<WorkerMessage>>, last: int)
    requires Faithful(t) && OneSignalEach(MessagesOf(feed)) && SameSignals(MessagesOf(feed), MessagesOf(other))
    requires forall f :: (f in feed || f in other) && f.Cut? ==> f.cutoff <= last
    ensures multiset(Stripped(Kept(WorkerLog(t, feed).rows, last)))
            == multiset(Stripped(Kept(WorkerLog(t, other).rows, last)))
  {
    var ms, ns := MessagesOf(feed), MessagesOf(other);
    WorkerIngestAndPruningCommute(t, feed, last);
    WorkerIngestAndPruningCommute(t, other, last);
    DeliveriesAreHandled(WorkerHandler(t), feed);
    DeliveriesAreHandled(WorkerHandler(t), other);
    OneSignalIsConsistent(t, ms);
    WorkerHandlerKeysTimed(t);
    SameSignalsEcho(t, ms, ns);
    SameSignalsEcho(t, ns, ms);
    SameMessagesSameRows(WorkerKeyColumn(), WorkerHandler(t), UntimedWorker(), ms, ns);
    KeptStripped(InsertAll(WorkerKeyColumn(), Empty(), Handled(WorkerHandler(t), ms)).rows,
                 InsertAll(WorkerKeyColumn(), Empty(), Handled(WorkerHandler(t), ns)).rows, last);
  }
}
