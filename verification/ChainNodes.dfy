/** What the nodes of a chain can show on an ingested log. */
module ChainNodes {
  import opened Rows
  import opened Values
  import opened Events
  import opened Latest
  import opened Queries
  import opened Ingest
  import opened Handlers
  import opened Feeds
  import opened Chain

  ghost predicate FromHandlers(rows: seq<Row<TaskEvent>>) {
    forall r :: r in rows && (r.data.rootId.Some? || r.data.name.Some?) ==> Introduces(r.data.eventType)
  }

  lemma IngestedRowsAreFromHandlers(t: Texts, feed: seq<Feed<TaskMessage>>)
    ensures FromHandlers(TaskLog(t, feed).rows)
  {
    forall r | r in TaskLog(t, feed).rows && (r.data.rootId.Some? || r.data.name.Some?)
      ensures Introduces(r.data.eventType)
    {
      RowsComeFromMessages(t, feed, r);
    }
  }

  /** A chain node of any task but the one asked about comes from a row that carries the root, so on an
      ingested log it only ever reads "sent" or "received", however the task ended. */
  lemma RelativesNeverShowAnOutcome(rows: seq<Row<TaskEvent>>, root: TaskId, task: TaskId, node: Node)
    requires FromHandlers(rows) && IsLatestNode(FamilyRows(rows, root, task), node) && node.taskId != task
    ensures Introduces(node.state)
  {
    var family := FamilyRows(rows, root, task);
    FilterMember(RankedFirst(TaskOf(), Descending, family), family);
    FamilyMembers(rows, root, task);
    var r :| r in LatestRows(TaskOf(), family) && node == NodeOf(r);
    assert r in family;
  }

  /** So on an ingested log a relative's node is its task's current state exactly when the task has got no
      further than a sent or received event of this root. */
  lemma RelativeIsCurrentIff(rows: seq<Row<TaskEvent>>, root: TaskId, task: TaskId, r: Row<TaskEvent>,
                             q: Row<TaskEvent>)
    requires Ordered(rows) && FromHandlers(rows)
    requires r in LatestRows(TaskOf(), FamilyRows(rows, root, task)) && r.data.taskId != task
    requires q in LatestRows(TaskOf(), rows) && q.data.taskId == r.data.taskId
    ensures r == q <==> q.data.rootId == Some(root)
    ensures !Introduces(q.data.eventType) ==> NodeOf(r).state != q.data.eventType
  {
    NodeIsCurrentIff(rows, root, task, r, q);
    assert r in LatestRows(TaskOf(), FamilyRows(rows, root, task)) && NodeOf(r) == NodeOf(r);
    RelativesNeverShowAnOutcome(rows, root, task, NodeOf(r));
  }

  function Blank(eventType: string, taskId: TaskId, at: int): TaskMessage {
    TaskMessage(eventType, Some(taskId), Some(at), at, None, None, Null, Null, None, None, None, Null, None,
                None, None, map[])
  }

  /** Task 7 of root 3 is sent and then succeeds; the chain asked from task 3 still shows it as sent. */
  lemma ASucceededRelativeShowsSent(t: Texts)
    requires Faithful(t)
    ensures var sent, done := Blank("sent", 7, 0).(rootId := Some(3)), Blank("succeeded", 7, 1);
            var rows := TaskLog(t, [Message(sent), Message(done)]).rows;
            && |rows| == 2 && LatestRows(TaskOf(), rows) == [rows[1]] && rows[1].data.eventType == "succeeded"
            && LatestRows(TaskOf(), FamilyRows(rows, 3, 3)) == [rows[0]] && NodeOf(rows[0]).state == "sent"
  {
    var sent, done := Blank("sent", 7, 0).(rootId := Some(3)), Blank("succeeded", 7, 1);
    TwoMessagesStored(t, sent, done);
    var rows := TaskLog(t, [Message(sent), Message(done)]).rows;
    FilterPair(PrecedingPeer(TaskOf(), Descending, rows[0]), rows[0], rows[1]);
    FilterPair(PrecedingPeer(TaskOf(), Descending, rows[1]), rows[0], rows[1]);
    FilterPair(RankedFirst(TaskOf(), Descending, rows), rows[0], rows[1]);
    FilterPair(InFamily(3, 3), rows[0], rows[1]);
    var family := FamilyRows(rows, 3, 3);
    assert family == [rows[0]];
    FilterAppend(PrecedingPeer(TaskOf(), Descending, rows[0]), [], rows[0]);
    FilterAppend(RankedFirst(TaskOf(), Descending, family), [], rows[0]);
    assert [] + [rows[0]] == family;
  }

  lemma TwoMessagesStored(t: Texts, m: TaskMessage, n: TaskMessage)
    requires Faithful(t) && HandleTask(t, m).Some? && HandleTask(t, n).Some?
    requires m.sourceTs.Some? && n.sourceTs.Some? && m.sourceTs != n.sourceTs
    ensures var d, e := HandleTask(t, m).value, HandleTask(t, n).value;
            TaskLog(t, [Message(m), Message(n)]).rows == [Row(1, d.time, d.data), Row(2, e.time, e.data)]
  {
    var d, e := HandleTask(t, m).value, HandleTask(t, n).value;
    NoBarInTypes(m.eventType);
    NoBarInTypes(n.eventType);
    TaskKeyIsInjective(t, m.eventType, m.taskId.value, m.hostname, m.sourceTs.value,
                       n.eventType, n.taskId.value, n.hostname, n.sourceTs.value);
    OneMoreItem(TaskHandler(t), [], Message(m));
    OneMoreItem(TaskHandler(t), [Message(m)], Message(n));
    assert [] + [Message(m)] == [Message(m)] && [Message(m)] + [Message(n)] == [Message(m), Message(n)];
    var one, two := [Deliver(d)], [Deliver(d), Deliver(e)];
    assert OperationsOf(TaskHandler(t), [Message(m)]) == one;
    assert OperationsOf(TaskHandler(t), [Message(m), Message(n)]) == two;
    assert two[..1] == one && one[..0] == [];
    assert Operate(TaskKeyColumn(), Empty(), one).rows == [Row(1, d.time, d.data)];
  }
}
