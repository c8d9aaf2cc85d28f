/** The chain query over a retry family (src/taskowl/queries.py). */
module Chain {
  import opened Rows
  import opened Events
  import opened Latest
  import opened Queries

  predicate CarriesRoot(r: Row<TaskEvent>, task: TaskId) {
    r.data.taskId == task && r.data.rootId.Some?
  }

  /** A legitimate answer of the root query: newest first, ties open. */
  ghost predicate IsRootAnswer(rows: seq<Row<TaskEvent>>, task: TaskId, answer: Option<TaskId>) {
    match answer
    case None => forall r :: r in rows ==> !CarriesRoot(r, task)
    case Some(_) =>
      exists r :: r in rows && CarriesRoot(r, task) && r.data.rootId == answer &&
        forall q :: q in rows && CarriesRoot(q, task) ==> q.time <= r.time
  }

  function InFamily(root: TaskId, task: TaskId): Row<TaskEvent> -> bool {
    (r: Row<TaskEvent>) => r.data.rootId == Some(root) || r.data.taskId == task
  }

  function FamilyRows(rows: seq<Row<TaskEvent>>, root: TaskId, task: TaskId): seq<Row<TaskEvent>> {
    Filter(InFamily(root, task), rows)
  }

  /** An answer of the ordering query: each task's first family row, by timestamp, ties open. */
  ghost predicate IsFamilyOrder(family: seq<Row<TaskEvent>>, ordered: seq<Row<TaskEvent>>) {
    && multiset(ordered) == multiset(FirstRows(TaskOf(), Ascending, family))
    && forall i, j :: 0 <= i < j < |ordered| ==> ordered[i].time <= ordered[j].time
  }

  datatype Node = Node(taskId: TaskId, parentId: Option<TaskId>, state: string, startedAt: int, runtime: Option<real>)

  function NodeOf(r: Row<TaskEvent>): Node {
    Node(r.data.taskId, r.data.parentId, r.data.eventType, r.time, r.data.runtime)
  }

  lemma FamilyMembers(rows: seq<Row<TaskEvent>>, root: TaskId, task: TaskId)
    ensures forall r :: r in FamilyRows(rows, root, task) <==>
              r in rows && (r.data.rootId == Some(root) || r.data.taskId == task)
  {
    FilterMember(InFamily(root, task), rows);
    forall r ensures r in FamilyRows(rows, root, task) <==>
                       r in rows && (r.data.rootId == Some(root) || r.data.taskId == task)
    {
      assert InFamily(root, task)(r) <==> r.data.rootId == Some(root) || r.data.taskId == task;
    }
  }

  lemma OrderedAreFirsts(family: seq<Row<TaskEvent>>, ordered: seq<Row<TaskEvent>>, i: nat)
    requires IsFamilyOrder(family, ordered) && i < |ordered|
    ensures ordered[i] in FirstRows(TaskOf(), Ascending, family) && ordered[i] in family
  {
    FilterMember(RankedFirst(TaskOf(), Ascending, family), family);
    assert ordered[i] in multiset(ordered);
  }

  lemma EveryTaskIsOrdered(family: seq<Row<TaskEvent>>, ordered: seq<Row<TaskEvent>>, r: Row<TaskEvent>)
    requires Ordered(family) && IsFamilyOrder(family, ordered) && r in family
    ensures r.data.taskId in TaskIds(ordered)
  {
    var f := RankedFirstExists(TaskOf(), Ascending, family, r);
    assert f in multiset(FirstRows(TaskOf(), Ascending, family));
    assert f in ordered;
  }

  lemma {:induction false} OnceInOrdered(rows: seq<Row<TaskEvent>>, r: Row<TaskEvent>)
    requires Ordered(rows)
    ensures multiset(rows)[r] <= 1
  {
    if rows != [] {
      assert rows == [rows[0]] + rows[1..];
      OnceInOrdered(rows[1..], r);
      if rows[0] == r {
        assert forall q :: q in rows[1..] ==> q.id > r.id;
        assert r !in multiset(rows[1..]);
      }
    }
  }

  lemma NoTaskIsOrderedTwice(family: seq<Row<TaskEvent>>, ordered: seq<Row<TaskEvent>>, i: nat, j: nat)
    requires Ordered(family) && IsFamilyOrder(family, ordered) && i < j < |ordered|
    ensures ordered[i].data.taskId != ordered[j].data.taskId
  {
    var firsts := FirstRows(TaskOf(), Ascending, family);
    var r, q := ordered[i], ordered[j];
    FilterMember(RankedFirst(TaskOf(), Ascending, family), family);
    FilterOrdered(RankedFirst(TaskOf(), Ascending, family), family);
    OnceInOrdered(firsts, r);
    assert ordered == ordered[..j] + [q] + ordered[j + 1..];
    assert ordered[..j][i] == r;
    assert multiset(ordered)[r] >= multiset(ordered[..j])[r] + multiset([q])[r];
    assert r in multiset(ordered) && q in multiset(ordered);
    if r.data.taskId == q.data.taskId {
      RankedFirstUnique(TaskOf(), Ascending, family, r, q);
    }
  }

  /** The chain_map of _get_task_chain_impl: each family task's node, from its latest family event. */
  method ChainMap(family: seq<Row<TaskEvent>>) returns (chainMap: map<TaskId, Node>)
    requires Ordered(family)
    ensures forall r :: r in family ==> r.data.taskId in chainMap
    ensures forall t :: t in chainMap ==> chainMap[t].taskId == t && IsLatestNode(family, chainMap[t])
  {
    var latest := LatestRows(TaskOf(), family);
    FilterMember(RankedFirst(TaskOf(), Descending, family), family);
    chainMap := map[];
    for i := 0 to |latest|
      invariant forall t :: t in chainMap ==> chainMap[t].taskId == t && IsLatestNode(family, chainMap[t])
      invariant forall j :: 0 <= j < i ==> latest[j].data.taskId in chainMap
    {
      var row := latest[i];
      assert row in latest;
      assert IsLatestNode(family, NodeOf(row));
      chainMap := chainMap[row.data.taskId := NodeOf(row)];
    }
    forall r | r in family ensures r.data.taskId in chainMap {
      var first := RankedFirstExists(TaskOf(), Descending, family, r);
    }
  }

  ghost predicate IsLatestNode(family: seq<Row<TaskEvent>>, node: Node) {
    exists r :: r in LatestRows(TaskOf(), family) && node == NodeOf(r)
  }

  /** The assembly: the ordered ids, each looked up in chain_map and kept if it is there. */
  method Assemble(family: seq<Row<TaskEvent>>, ordered: seq<Row<TaskEvent>>) returns (chain: seq<Node>)
    requires Ordered(family) && forall i :: 0 <= i < |ordered| ==> ordered[i] in family
    ensures |chain| == |ordered|
    ensures forall i :: 0 <= i < |chain| ==> chain[i].taskId == ordered[i].data.taskId && IsLatestNode(family, chain[i])
  {
    var chainMap := ChainMap(family);
    chain := [];
    for i := 0 to |ordered|
      invariant |chain| == i
      invariant forall j :: 0 <= j < i ==>
                ordered[j].data.taskId in chainMap && chain[j] == chainMap[ordered[j].data.taskId]
    {
      var tid := ordered[i].data.taskId;
      if tid in chainMap {
        chain := chain + [chainMap[tid]];
      }
    }
  }

  /** The node shows the task's latest row, by time and then key, among the rows that carry the root or belong to the
      task asked about. */
  ghost predicate ShowsMember(rows: seq<Row<TaskEvent>>, root: TaskId, task: TaskId, node: Node) {
    exists r ::
      && r in rows && (r.data.rootId == Some(root) || r.data.taskId == task)
      && (forall q :: q in rows && q.data.taskId == r.data.taskId
                      && (q.data.rootId == Some(root) || q.data.taskId == task)
            ==> q.time < r.time || (q.time == r.time && q.id <= r.id))
      && node.taskId == r.data.taskId && node.parentId == r.data.parentId && node.state == r.data.eventType
      && node.startedAt == r.time && node.runtime == r.data.runtime
  }

  /** The first such row of the one task is no later than any such row of the other. */
  ghost predicate BeginsBefore(rows: seq<Row<TaskEvent>>, root: TaskId, task: TaskId, one: TaskId, other: TaskId) {
    exists q :: q in rows && q.data.taskId == one && (q.data.rootId == Some(root) || q.data.taskId == task)
      && forall p :: p in rows && p.data.taskId == other && (p.data.rootId == Some(root) || p.data.taskId == task) ==>
           q.time <= p.time
  }

  lemma LatestNodeShowsMember(rows: seq<Row<TaskEvent>>, root: TaskId, task: TaskId, node: Node)
    requires IsLatestNode(FamilyRows(rows, root, task), node)
    ensures ShowsMember(rows, root, task, node)
  {
    var family := FamilyRows(rows, root, task);
    FamilyMembers(rows, root, task);
    FilterMember(RankedFirst(TaskOf(), Descending, family), family);
    var r :| r in LatestRows(TaskOf(), family) && node == NodeOf(r);
    RankedFirstMeans(TaskOf(), Descending, family, r);
    forall q | q in rows && q.data.taskId == r.data.taskId && (q.data.rootId == Some(root) || q.data.taskId == task)
      ensures q.time < r.time || (q.time == r.time && q.id <= r.id)
    {
      assert q in family && !Precedes(Descending, q, r);
    }
  }

  lemma OrderedByFirstRow(rows: seq<Row<TaskEvent>>, root: TaskId, task: TaskId, ordered: seq<Row<TaskEvent>>, i: nat,
                          j: nat)
    requires IsFamilyOrder(FamilyRows(rows, root, task), ordered) && i < j < |ordered|
    ensures BeginsBefore(rows, root, task, ordered[i].data.taskId, ordered[j].data.taskId)
  {
    var family := FamilyRows(rows, root, task);
    FamilyMembers(rows, root, task);
    OrderedAreFirsts(family, ordered, i);
    OrderedAreFirsts(family, ordered, j);
    FilterMember(RankedFirst(TaskOf(), Ascending, family), family);
    RankedFirstMeans(TaskOf(), Ascending, family, ordered[j]);
    forall p | p in rows && p.data.taskId == ordered[j].data.taskId
               && (p.data.rootId == Some(root) || p.data.taskId == task)
      ensures ordered[i].time <= p.time
    {
      assert p in family && !Precedes(Ascending, p, ordered[j]);
    }
  }

  lemma EveryMemberIsOrdered(rows: seq<Row<TaskEvent>>, root: TaskId, task: TaskId, ordered: seq<Row<TaskEvent>>,
                             r: Row<TaskEvent>)
    requires Ordered(rows) && IsFamilyOrder(FamilyRows(rows, root, task), ordered)
    requires r in rows && (r.data.rootId == Some(root) || r.data.taskId == task)
    ensures exists i :: 0 <= i < |ordered| && ordered[i].data.taskId == r.data.taskId
  {
    FamilyMembers(rows, root, task);
    FilterOrdered(InFamily(root, task), rows);
    EveryTaskIsOrdered(FamilyRows(rows, root, task), ordered, r);
    var f :| f in ordered && f.data.taskId == r.data.taskId;
  }

  lemma RootInFields(rows: seq<Row<TaskEvent>>, task: TaskId, answer: Option<TaskId>, root: TaskId)
    requires IsRootAnswer(rows, task, answer) && root == if answer.Some? then answer.value else task
    ensures (root == task && forall r :: r in rows && r.data.taskId == task ==> r.data.rootId.None?)
            || exists r | r in rows && r.data.taskId == task && r.data.rootId == Some(root) ::
                 forall q :: q in rows && q.data.taskId == task && q.data.rootId.Some? ==> q.time <= r.time
  {
    if answer.None? {
      forall r | r in rows && r.data.taskId == task ensures r.data.rootId.None? {
        assert !CarriesRoot(r, task);
      }
    } else {
      var r :| r in rows && CarriesRoot(r, task) && r.data.rootId == answer
               && forall q :: q in rows && CarriesRoot(q, task) ==> q.time <= r.time;
      forall q | q in rows && q.data.taskId == task && q.data.rootId.Some? ensures q.time <= r.time {
        assert CarriesRoot(q, task);
      }
    }
  }

  /** _get_task_chain_impl. The answers of its root and ordering queries come in; what comes out holds
      every family task once, in the order of its first family event, as its latest family event shows it:
      the membership filter on chain_map drops nothing. */
  method GetTaskChain(rows: seq<Row<TaskEvent>>, task: TaskId, answer: Option<TaskId>, ordered: seq<Row<TaskEvent>>)
    returns (root: TaskId, chain: seq<Node>)
    requires Ordered(rows) && IsRootAnswer(rows, task, answer)
    requires IsFamilyOrder(FamilyRows(rows, if answer.Some? then answer.value else task, task), ordered)
    ensures root == if answer.Some? then answer.value else task
    ensures (root == task && forall r :: r in rows && r.data.taskId == task ==> r.data.rootId.None?)
            || exists r | r in rows && r.data.taskId == task && r.data.rootId == Some(root) ::
                 forall q :: q in rows && q.data.taskId == task && q.data.rootId.Some? ==> q.time <= r.time
    ensures |chain| == |ordered|
    ensures forall i :: 0 <= i < |chain| ==>
              chain[i].taskId == ordered[i].data.taskId && IsLatestNode(FamilyRows(rows, root, task), chain[i])
    ensures forall i :: 0 <= i < |chain| ==> ShowsMember(rows, root, task, chain[i])
    ensures forall r :: r in rows && (r.data.rootId == Some(root) || r.data.taskId == task) ==>
              exists i :: 0 <= i < |chain| && chain[i].taskId == r.data.taskId
    ensures forall i, j :: 0 <= i < j < |chain| ==>
              && chain[i].taskId != chain[j].taskId
              && BeginsBefore(rows, root, task, chain[i].taskId, chain[j].taskId)
  {
    root := if answer.Some? then answer.value else task;
    RootInFields(rows, task, answer, root);
    var family := FamilyRows(rows, root, task);
    FilterOrdered(InFamily(root, task), rows);
    forall i | 0 <= i < |ordered| ensures ordered[i] in family {
      OrderedAreFirsts(family, ordered, i);
    }
    chain := Assemble(family, ordered);
    forall i | 0 <= i < |chain| ensures ShowsMember(rows, root, task, chain[i]) {
      LatestNodeShowsMember(rows, root, task, chain[i]);
    }
    ChainIsInOrder(rows, root, task, ordered, chain);
  }

  lemma ChainIsInOrder(rows: seq<Row<TaskEvent>>, root: TaskId, task: TaskId, ordered: seq<Row<TaskEvent>>,
                       chain: seq<Node>)
    requires Ordered(rows) && IsFamilyOrder(FamilyRows(rows, root, task), ordered)
    requires |chain| == |ordered| && forall i :: 0 <= i < |chain| ==> chain[i].taskId == ordered[i].data.taskId
    ensures forall r :: r in rows && (r.data.rootId == Some(root) || r.data.taskId == task) ==>
              exists i :: 0 <= i < |chain| && chain[i].taskId == r.data.taskId
    ensures forall i, j :: 0 <= i < j < |chain| ==>
              && chain[i].taskId != chain[j].taskId
              && BeginsBefore(rows, root, task, chain[i].taskId, chain[j].taskId)
  {
    FilterOrdered(InFamily(root, task), rows);
    forall r | r in rows && (r.data.rootId == Some(root) || r.data.taskId == task)
      ensures exists i :: 0 <= i < |chain| && chain[i].taskId == r.data.taskId
    {
      EveryMemberIsOrdered(rows, root, task, ordered, r);
      var i :| 0 <= i < |ordered| && ordered[i].data.taskId == r.data.taskId;
      assert chain[i].taskId == r.data.taskId;
    }
    forall i, j | 0 <= i < j < |chain|
      ensures chain[i].taskId != chain[j].taskId
              && BeginsBefore(rows, root, task, chain[i].taskId, chain[j].taskId)
    {
      NoTaskIsOrderedTwice(FamilyRows(rows, root, task), ordered, i, j);
      OrderedByFirstRow(rows, root, task, ordered, i, j);
    }
  }

  /** A node shows its task's current row always for the task asked about, and for a relative exactly when
      that row itself carries the root. */
  lemma NodeIsCurrentIff(rows: seq<Row<TaskEvent>>, root: TaskId, task: TaskId, r: Row<TaskEvent>, q: Row<TaskEvent>)
    requires Ordered(rows) && r in LatestRows(TaskOf(), FamilyRows(rows, root, task))
    requires q in LatestRows(TaskOf(), rows) && q.data.taskId == r.data.taskId
    ensures r == q <==> r.data.taskId == task || q.data.rootId == Some(root)
  {
    var family := FamilyRows(rows, root, task);
    FamilyMembers(rows, root, task);
    FilterOrdered(InFamily(root, task), rows);
    FilterMember(RankedFirst(TaskOf(), Descending, family), family);
    FilterMember(RankedFirst(TaskOf(), Descending, rows), rows);
    RankedFirstMeans(TaskOf(), Descending, rows, q);
    if q in family {
      RankedFirstMeans(TaskOf(), Descending, family, q);
      RankedFirstUnique(TaskOf(), Descending, family, r, q);
    }
  }

  // ---------------------------------------------------------------- one family, whoever asks

  /** The tasks the chain of `task` lists when `root` is its root. */
  ghost function ChainTasks(rows: seq<Row<TaskEvent>>, root: TaskId, task: TaskId): set<TaskId> {
    TaskIds(FamilyRows(rows, root, task))
  }

  lemma ChainListsTheFamily(rows: seq<Row<TaskEvent>>, root: TaskId, task: TaskId, ordered: seq<Row<TaskEvent>>)
    requires Ordered(rows) && IsFamilyOrder(FamilyRows(rows, root, task), ordered)
    ensures TaskIds(ordered) == ChainTasks(rows, root, task)
    ensures |ordered| == |ChainTasks(rows, root, task)|
  {
    var family := FamilyRows(rows, root, task);
    FilterOrdered(InFamily(root, task), rows);
    forall i, j | 0 <= i < j < |ordered| ensures IdsOf(ordered)[i] != IdsOf(ordered)[j] {
      NoTaskIsOrderedTwice(family, ordered, i, j);
    }
    DistinctSize(IdsOf(ordered));
    IdsAreTaskIds(ordered);
    forall t | t in TaskIds(ordered) ensures t in TaskIds(family) {
      var r :| r in ordered && r.data.taskId == t;
      var i :| 0 <= i < |ordered| && ordered[i] == r;
      OrderedAreFirsts(family, ordered, i);
    }
    forall t | t in TaskIds(family) ensures t in TaskIds(ordered) {
      var r :| r in family && r.data.taskId == t;
      EveryTaskIsOrdered(family, ordered, r);
    }
  }

  ghost predicate Records(rows: seq<Row<TaskEvent>>, task: TaskId, root: TaskId) {
    exists r :: r in rows && r.data.taskId == task && r.data.rootId == Some(root)
  }

  ghost predicate Known(rows: seq<Row<TaskEvent>>, task: TaskId) {
    exists r :: r in rows && r.data.taskId == task
  }

  lemma ChainTasksAre(rows: seq<Row<TaskEvent>>, root: TaskId, task: TaskId, t: TaskId)
    requires Known(rows, task)
    ensures t in ChainTasks(rows, root, task) <==> t == task || Records(rows, t, root)
  {
    FamilyMembers(rows, root, task);
    if t in ChainTasks(rows, root, task) {
      var r :| r in FamilyRows(rows, root, task) && r.data.taskId == t;
    }
    if t == task {
      var r :| r in rows && r.data.taskId == task;
      assert r in FamilyRows(rows, root, task);
    }
    if Records(rows, t, root) {
      var r :| r in rows && r.data.taskId == t && r.data.rootId == Some(root);
      assert r in FamilyRows(rows, root, task);
    }
  }

  /** Two tasks of one root get the same chain exactly when both have recorded that root; a task
      that has not is listed only when it is the one asked about. */
  lemma SameChainIffBothRecorded(rows: seq<Row<TaskEvent>>, root: TaskId, task: TaskId, other: TaskId)
    requires Known(rows, task) && Known(rows, other)
    ensures ChainTasks(rows, root, task) == ChainTasks(rows, root, other)
       <==> task == other || (Records(rows, task, root) && Records(rows, other, root))
  {
    forall t ensures t in ChainTasks(rows, root, task) <==> t == task || Records(rows, t, root) {
      ChainTasksAre(rows, root, task, t);
    }
    forall t ensures t in ChainTasks(rows, root, other) <==> t == other || Records(rows, t, root) {
      ChainTasksAre(rows, root, other, t);
    }
    if task != other && ChainTasks(rows, root, task) == ChainTasks(rows, root, other) {
      assert task in ChainTasks(rows, root, other);
      assert other in ChainTasks(rows, root, task);
    }
    if Records(rows, task, root) && Records(rows, other, root) {
      assert ChainTasks(rows, root, task) == ChainTasks(rows, root, other);
    }
  }

  /** The events of a task that carry a root carry the same one. */
  ghost predicate OneRoot(rows: seq<Row<TaskEvent>>, task: TaskId) {
    forall r, q :: r in rows && q in rows && CarriesRoot(r, task) && CarriesRoot(q, task) ==>
           r.data.rootId == q.data.rootId
  }

  /** The root a chain is built for: what the root query answers, or the task itself. */
  function RootOf(task: TaskId, answer: Option<TaskId>): TaskId {
    if answer.Some? then answer.value else task
  }

  lemma AnswerIsRecorded(rows: seq<Row<TaskEvent>>, task: TaskId, answer: Option<TaskId>, root: TaskId)
    requires IsRootAnswer(rows, task, answer)
    ensures answer == Some(root) ==> Records(rows, task, root)
    ensures OneRoot(rows, task) && Records(rows, task, root) ==> answer == Some(root)
  {
    if Records(rows, task, root) {
      var r :| r in rows && r.data.taskId == task && r.data.rootId == Some(root);
      assert CarriesRoot(r, task);
    }
  }

  /** Two tasks get the same chain when the root query answers the same recorded root for both, and where each
      carries one root, only then: a task without a recorded root is its own root, and its chain is its own. */
  lemma SameChainIffSameAnswer(rows: seq<Row<TaskEvent>>, task: TaskId, other: TaskId, at: Option<TaskId>,
                               au: Option<TaskId>)
    requires Known(rows, task) && Known(rows, other) && task != other
    requires IsRootAnswer(rows, task, at) && IsRootAnswer(rows, other, au)
    ensures at.Some? && at == au ==>
            ChainTasks(rows, RootOf(task, at), task) == ChainTasks(rows, RootOf(other, au), other)
    ensures OneRoot(rows, task) && OneRoot(rows, other) ==>
              (ChainTasks(rows, RootOf(task, at), task) == ChainTasks(rows, RootOf(other, au), other)
               <==> at.Some? && at == au)
  {
    var root, root' := RootOf(task, at), RootOf(other, au);
    AnswerIsRecorded(rows, task, at, root);
    AnswerIsRecorded(rows, other, au, root');
    AnswerIsRecorded(rows, task, at, root');
    AnswerIsRecorded(rows, other, au, root);
    if root == root' {
      SameChainIffBothRecorded(rows, root, task, other);
    } else {
      ChainTasksAre(rows, root, task, task);
      ChainTasksAre(rows, root, task, other);
      ChainTasksAre(rows, root', other, other);
      ChainTasksAre(rows, root', other, task);
    }
  }

  /** The one root the log attributes to a task: what its events say, or itself when they say nothing. */
  ghost predicate RootIs(rows: seq<Row<TaskEvent>>, task: TaskId, root: TaskId) {
    && (forall r :: r in rows && CarriesRoot(r, task) ==> r.data.rootId == Some(root))
    && (root == task || Records(rows, task, root))
  }

  /** Retry families are closed: ask for the chain from any task a chain lists, and the same tasks come back. */
  lemma RetryFamilyIsClosed(rows: seq<Row<TaskEvent>>, task: TaskId, other: TaskId, root: TaskId,
                            answer: Option<TaskId>)
    requires Records(rows, task, root) && other in ChainTasks(rows, root, task)
    requires RootIs(rows, other, root) && IsRootAnswer(rows, other, answer)
    ensures answer == Some(root)
    ensures ChainTasks(rows, root, other) == ChainTasks(rows, root, task)
  {
    ChainTasksAre(rows, root, task, other);
    assert Records(rows, other, root);
    var r :| r in rows && r.data.taskId == other && r.data.rootId == Some(root);
    assert CarriesRoot(r, other);
    SameChainIffBothRecorded(rows, root, task, other);
  }
}
