/** How retries grow a family (src/taskowl/actions.py): the root each one hands on, while events arrive late
    and old ones are pruned. */
module Retries {
  import opened Rows
  import opened Events
  import opened Latest
  import opened Queries
  import opened Chain

  /** A retry reads the task's timeline and sends a new task; an event arrives, whenever it does; old rows go. */
  datatype Growth =
    | Retry(task: TaskId, events: seq<Row<TaskEvent>>, newTask: TaskId)
    | Arrive(time: int, event: TaskEvent)
    | PruneTo(cutoff: int)

  /** The stored events, the root each retry handed on to its new task, and every task heard of so far. */
  datatype Family = Family(log: Snapshot<TaskEvent>, roots: map<TaskId, TaskId>, seen: set<TaskId>)

  /** The root a retry hands on: the recorded one, or the retried task itself. */
  function NewRoot(task: TaskId, events: seq<Row<TaskEvent>>): TaskId {
    var recorded := LastValue(RootField(), events);
    if recorded.Some? then recorded.value else task
  }

  /** The root a task was sent with; `origin` says it for tasks no retry has sent. */
  function TrueRoot(origin: TaskId -> TaskId, f: Family, task: TaskId): TaskId {
    if task in f.roots then f.roots[task] else origin(task)
  }

  function Grow(f: Family, g: Growth): Family {
    match g
    case Retry(task, events, newTask) =>
      f.(roots := f.roots[newTask := NewRoot(task, events)], seen := f.seen + {newTask})
    case Arrive(time, event) =>
      f.(log := Append(f.log, time, event), seen := f.seen + {event.taskId})
    case PruneTo(cutoff) =>
      f.(log := f.log.(rows := Kept(f.log.rows, cutoff)))
  }

  function GrowAll(f: Family, steps: seq<Growth>): Family {
    if steps == [] then f else Grow(GrowAll(f, steps[..|steps| - 1]), steps[|steps| - 1])
  }

  /** A retry reads a real timeline, is refused unless it finds a name there, and gets a fresh task id. An event
      that carries a root carries the one its task was sent with. */
  ghost predicate Legal(origin: TaskId -> TaskId, f: Family, g: Growth) {
    match g
    case Retry(task, events, newTask) =>
      && task in f.seen && IsTimeline(f.log.rows, task, events)
      && LastValue(NameField(), events).Some? && newTask !in f.seen
    case Arrive(_, event) =>
      event.rootId.Some? ==> event.rootId.value == TrueRoot(origin, f, event.taskId)
    case PruneTo(_) => true
  }

  ghost predicate AllLegal(origin: TaskId -> TaskId, f: Family, steps: seq<Growth>) {
    forall i :: 0 <= i < |steps| ==> Legal(origin, GrowAll(f, steps[..i]), steps[i])
  }

  /** What the log says of roots is true. */
  ghost predicate Sound(origin: TaskId -> TaskId, f: Family) {
    && f.roots.Keys <= f.seen
    && forall r :: r in f.log.rows ==>
         r.data.taskId in f.seen && (r.data.rootId.Some? ==> r.data.rootId.value == TrueRoot(origin, f, r.data.taskId))
  }

  lemma GrowStaysSound(origin: TaskId -> TaskId, f: Family, g: Growth)
    requires Sound(origin, f) && Legal(origin, f, g)
    ensures Sound(origin, Grow(f, g))
    ensures forall t :: t in f.seen ==>
            t in Grow(f, g).seen && TrueRoot(origin, Grow(f, g), t) == TrueRoot(origin, f, t)
  {
    if g.PruneTo? {
      FilterMember(From<TaskEvent>(g.cutoff), f.log.rows);
    }
  }

  lemma LegalPrefix(origin: TaskId -> TaskId, f: Family, steps: seq<Growth>)
    requires steps != [] && AllLegal(origin, f, steps)
    ensures AllLegal(origin, f, steps[..|steps| - 1])
    ensures Legal(origin, GrowAll(f, steps[..|steps| - 1]), steps[|steps| - 1])
  {
    var init := steps[..|steps| - 1];
    forall i | 0 <= i < |init| ensures Legal(origin, GrowAll(f, init[..i]), init[i]) {
      assert init[..i] == steps[..i];
    }
  }

  lemma {:induction false} StaysSound(origin: TaskId -> TaskId, f: Family, steps: seq<Growth>)
    requires Sound(origin, f) && AllLegal(origin, f, steps)
    ensures Sound(origin, GrowAll(f, steps))
    ensures forall t :: t in f.seen ==>
              t in GrowAll(f, steps).seen && TrueRoot(origin, GrowAll(f, steps), t) == TrueRoot(origin, f, t)
  {
    if steps != [] {
      var init, last := steps[..|steps| - 1], steps[|steps| - 1];
      LegalPrefix(origin, f, steps);
      StaysSound(origin, f, init);
      GrowStaysSound(origin, GrowAll(f, init), last);
    }
  }

  // ---------------------------------------------------------------- what one retry hands on

  /** The log still says which root the task was sent with, or it was sent with none but itself. */
  ghost predicate Anchored(rows: seq<Row<TaskEvent>>, task: TaskId, root: TaskId) {
    task == root || Records(rows, task, root)
  }

  /** A retry hands on the root its task was sent with exactly when the log still records it or the task is
      its own root: after a prune of the rows that carry it the retried task itself becomes the root. */
  lemma RetryHandsOnTheRootIff(origin: TaskId -> TaskId, f: Family, task: TaskId, events: seq<Row<TaskEvent>>)
    requires Sound(origin, f) && IsTimeline(f.log.rows, task, events)
    ensures NewRoot(task, events) == TrueRoot(origin, f, task)
            <==> Anchored(f.log.rows, task, TrueRoot(origin, f, task))
  {
    TimelineMembers(f.log.rows, task, events);
    LastValueFound(RootField(), events);
    if LastValue(RootField(), events).Some? {
      var r :| r in events && RootField()(r.data) == LastValue(RootField(), events);
      assert r in f.log.rows && r.data.taskId == task;
    } else {
      forall r | r in f.log.rows && r.data.taskId == task ensures r.data.rootId.None? {
        assert r in events && RootField()(r.data).None?;
      }
    }
  }

  /** A retry is refused for want of a name exactly when no stored event of the task carries a real one. */
  lemma RetryIsRefusedIff(rows: seq<Row<TaskEvent>>, task: TaskId, events: seq<Row<TaskEvent>>)
    requires IsTimeline(rows, task, events)
    ensures LastValue(NameField(), events).None?
            <==> forall r :: r in rows && r.data.taskId == task ==> !Given(r.data.name)
  {
    TimelineMembers(rows, task, events);
    LastValueFound(NameField(), events);
    if LastValue(NameField(), events).Some? {
      var r :| r in events && NameField()(r.data) == LastValue(NameField(), events);
      assert r in rows && Given(r.data.name);
    } else {
      forall r | r in rows && r.data.taskId == task ensures !Given(r.data.name) {
        assert r in events && NameField()(r.data).None?;
      }
    }
  }

  // ---------------------------------------------------------------- whole histories

  /** The original task, its retries, their retries, and so on. */
  function Descendants(task: TaskId, steps: seq<Growth>): set<TaskId> {
    if steps == [] then {task}
    else
      var before, last := Descendants(task, steps[..|steps| - 1]), steps[|steps| - 1];
      if last.Retry? && last.task in before then before + {last.newTask} else before
  }

  ghost predicate AllRootedAt(origin: TaskId -> TaskId, f: Family, tasks: set<TaskId>, root: TaskId) {
    forall t :: t in tasks ==> t in f.seen && TrueRoot(origin, f, t) == root
  }

  /** The i-th step, if it retries a descendant, finds the root. */
  ghost predicate FindsRoot(f: Family, steps: seq<Growth>, task: TaskId, root: TaskId, i: nat)
    requires i < |steps|
  {
    var retriesADescendant := steps[i].Retry? && steps[i].task in Descendants(task, steps[..i]);
    retriesADescendant ==> Anchored(GrowAll(f, steps[..i]).log.rows, steps[i].task, root)
  }

  ghost predicate EveryRetryFindsRoot(f: Family, steps: seq<Growth>, task: TaskId, root: TaskId) {
    forall i :: 0 <= i < |steps| ==> FindsRoot(f, steps, task, root, i)
  }

  lemma FindsRootPrefix(f: Family, steps: seq<Growth>, task: TaskId, root: TaskId)
    requires steps != []
    ensures EveryRetryFindsRoot(f, steps, task, root) <==>
            && EveryRetryFindsRoot(f, steps[..|steps| - 1], task, root)
            && FindsRoot(f, steps, task, root, |steps| - 1)
  {
    var init := steps[..|steps| - 1];
    forall i | 0 <= i < |init| ensures FindsRoot(f, init, task, root, i) == FindsRoot(f, steps, task, root, i) {
      assert init[..i] == steps[..i];
    }
    if EveryRetryFindsRoot(f, init, task, root) && FindsRoot(f, steps, task, root, |init|) {
      forall i | 0 <= i < |steps| ensures FindsRoot(f, steps, task, root, i) {
        assert i < |init| ==> FindsRoot(f, init, task, root, i);
      }
    }
  }

  /** Over any history of retries, late events and prunes every descendant was sent with the original root if
      and only if every retry of a descendant still found that root in the log. */
  lemma {:induction false} RootIsKeptIffFound(origin: TaskId -> TaskId, f: Family, steps: seq<Growth>, task: TaskId)
    requires Sound(origin, f) && AllLegal(origin, f, steps) && task in f.seen
    ensures AllRootedAt(origin, GrowAll(f, steps), Descendants(task, steps), TrueRoot(origin, f, task))
       <==> EveryRetryFindsRoot(f, steps, task, TrueRoot(origin, f, task))
    ensures Descendants(task, steps) <= GrowAll(f, steps).seen
  {
    if steps != [] {
      var init, last := steps[..|steps| - 1], steps[|steps| - 1];
      var before, root := GrowAll(f, init), TrueRoot(origin, f, task);
      LegalPrefix(origin, f, steps);
      RootIsKeptIffFound(origin, f, init, task);
      FindsRootPrefix(f, steps, task, root);
      StaysSound(origin, f, init);
      GrowStaysSound(origin, before, last);
      if last.Retry? && last.task in Descendants(task, init) {
        RetryHandsOnTheRootIff(origin, before, last.task, last.events);
      }
    }
  }

  /** Names come with roots: every event that carries a real name carries a root too. */
  ghost predicate NamesCarryRoots(f: Family, steps: seq<Growth>) {
    && (forall r :: r in f.log.rows && Given(r.data.name) ==> r.data.rootId.Some?)
    && (forall g :: g in steps && g.Arrive? && Given(g.event.name) ==> g.event.rootId.Some?)
  }

  lemma {:induction false} NamedRowsAreRooted(f: Family, steps: seq<Growth>)
    requires NamesCarryRoots(f, steps)
    ensures forall r :: r in GrowAll(f, steps).log.rows && Given(r.data.name) ==> r.data.rootId.Some?
  {
    if steps != [] {
      var init, last := steps[..|steps| - 1], steps[|steps| - 1];
      assert last in steps;
      NamedRowsAreRooted(f, init);
      if last.PruneTo? {
        FilterMember(From<TaskEvent>(last.cutoff), GrowAll(f, init).log.rows);
      }
    }
  }

  lemma AcceptedRetryIsAnchored(origin: TaskId -> TaskId, f: Family, g: Growth)
    requires Sound(origin, f) && g.Retry? && Legal(origin, f, g)
    requires forall r :: r in f.log.rows && Given(r.data.name) ==> r.data.rootId.Some?
    ensures Records(f.log.rows, g.task, TrueRoot(origin, f, g.task))
  {
    RetryIsRefusedIff(f.log.rows, g.task, g.events);
    var r :| r in f.log.rows && r.data.taskId == g.task && Given(r.data.name);
    assert r.data.rootId == Some(TrueRoot(origin, f, g.task));
  }

  /** Where names come with roots, retries keep the root of the original task over any history, however late
      events arrive and whatever is pruned: a retry that would lose the root is refused, since the name went
      with it. */
  lemma {:induction false} RetriesKeepTheRoot(origin: TaskId -> TaskId, f: Family, steps: seq<Growth>, task: TaskId)
    requires Sound(origin, f) && AllLegal(origin, f, steps) && task in f.seen && NamesCarryRoots(f, steps)
    ensures AllRootedAt(origin, GrowAll(f, steps), Descendants(task, steps), TrueRoot(origin, f, task))
  {
    if steps != [] {
      var init, last := steps[..|steps| - 1], steps[|steps| - 1];
      var before := GrowAll(f, init);
      LegalPrefix(origin, f, steps);
      RetriesKeepTheRoot(origin, f, init, task);
      NamedRowsAreRooted(f, init);
      StaysSound(origin, f, init);
      GrowStaysSound(origin, before, last);
      if last.Retry? && last.task in Descendants(task, init) {
        AcceptedRetryIsAnchored(origin, before, last);
        RetryHandsOnTheRootIff(origin, before, last.task, last.events);
      }
    }
  }

  lemma OneRowTimeline(r: Row<TaskEvent>)
    ensures IsTimeline([r], r.data.taskId, [r])
    ensures LastValue(NameField(), [r]) == NonEmpty(r.data.name) && NewRoot(r.data.taskId, [r]) ==
            if r.data.rootId.Some? then r.data.rootId.value else r.data.taskId
  {
    FilterAppend(Peer(TaskOf(), r.data.taskId), [], r);
    LastValueAppend(NameField(), [], r);
    LastValueAppend(RootField(), [], r);
    assert [] + [r] == [r];
  }

  /** Task 7 of root 3 is sent with its root and received, with its name but without its root; once the sent row
      is pruned, a retry hands on 7 instead of 3. */
  lemma ARootCanBePruned(origin: TaskId -> TaskId)
    requires origin(7) == 3
    ensures var sent, received := Row(1, 0, Bare("sent", 7).(name := Some("x"), rootId := Some(3))),
                                  Row(2, 10, Bare("received", 7).(name := Some("x")));
            var f := Family(Snapshot([sent, received], 3), map[], {3, 7});
            var pruned, retry := Grow(f, PruneTo(5)), Retry(7, [received], 8);
            && Sound(origin, f) && Legal(origin, pruned, retry)
            && TrueRoot(origin, pruned, 7) == 3 && TrueRoot(origin, Grow(pruned, retry), 8) == 7
  {
    var sent, received := Row(1, 0, Bare("sent", 7).(name := Some("x"), rootId := Some(3))),
                          Row(2, 10, Bare("received", 7).(name := Some("x")));
    FilterPair(From(5), sent, received);
    OneRowTimeline(received);
  }

  // ---------------------------------------------------------------- the chain after such a history

  /** Wherever the root was kept, any two family members that record it get the same answer of the root query
      and the same chain, the original task included, and it lists every descendant that records the root. */
  lemma EveryMemberSeesTheSameChain(origin: TaskId -> TaskId, f: Family, steps: seq<Growth>, task: TaskId,
                                    t: TaskId, u: TaskId, at: Option<TaskId>, au: Option<TaskId>)
    requires Sound(origin, f) && AllLegal(origin, f, steps) && task in f.seen
    requires AllRootedAt(origin, GrowAll(f, steps), Descendants(task, steps), TrueRoot(origin, f, task))
    requires t in Descendants(task, steps) && u in Descendants(task, steps)
    requires var rows, root := GrowAll(f, steps).log.rows, TrueRoot(origin, f, task);
             Records(rows, t, root) && Records(rows, u, root) && IsRootAnswer(rows, t, at) && IsRootAnswer(rows, u, au)
    ensures var rows, root := GrowAll(f, steps).log.rows, TrueRoot(origin, f, task);
            && at == au == Some(root)
            && ChainTasks(rows, root, t) == ChainTasks(rows, root, u)
            && t in ChainTasks(rows, root, u)
            && forall d :: d in Descendants(task, steps) ==>
                 (d in ChainTasks(rows, root, t) <==> Records(rows, d, root))
  {
    var rows, root := GrowAll(f, steps).log.rows, TrueRoot(origin, f, task);
    StaysSound(origin, f, steps);
    RecordedRootIsAnswered(origin, GrowAll(f, steps), t, at);
    RecordedRootIsAnswered(origin, GrowAll(f, steps), u, au);
    SameChainIffBothRecorded(rows, root, t, u);
    forall d ensures d in ChainTasks(rows, root, t) <==> d == t || Records(rows, d, root) {
      ChainTasksAre(rows, root, t, d);
    }
  }

  lemma RecordedRootIsAnswered(origin: TaskId -> TaskId, f: Family, task: TaskId, answer: Option<TaskId>)
    requires Sound(origin, f) && Records(f.log.rows, task, TrueRoot(origin, f, task))
    requires IsRootAnswer(f.log.rows, task, answer)
    ensures answer == Some(TrueRoot(origin, f, task))
  {
    var r :| r in f.log.rows && r.data.taskId == task && r.data.rootId == Some(TrueRoot(origin, f, task));
    assert CarriesRoot(r, task);
  }

  /** With nothing pruned, what a task once recorded it records for ever. */
  lemma {:induction false} RecordsStay(f: Family, steps: seq<Growth>, i: nat, task: TaskId, root: TaskId)
    requires i <= |steps| && Records(GrowAll(f, steps[..i]).log.rows, task, root)
    requires forall g :: g in steps ==> !g.PruneTo?
    ensures Records(GrowAll(f, steps).log.rows, task, root)
  {
    if i == |steps| {
      assert steps[..i] == steps;
    } else {
      var init, last := steps[..|steps| - 1], steps[|steps| - 1];
      assert last in steps && init[..i] == steps[..i];
      RecordsStay(f, init, i, task, root);
      var r :| r in GrowAll(f, init).log.rows && r.data.taskId == task && r.data.rootId == Some(root);
      assert r in GrowAll(f, steps).log.rows;
    }
  }

  /** At some point of the history the log recorded the task's root. */
  ghost predicate OnceRecorded(f: Family, steps: seq<Growth>, task: TaskId, root: TaskId) {
    exists i :: 0 <= i <= |steps| && Records(GrowAll(f, steps[..i]).log.rows, task, root)
  }

  lemma AllStillRecorded(f: Family, steps: seq<Growth>, tasks: set<TaskId>, root: TaskId)
    requires forall g :: g in steps ==> !g.PruneTo?
    requires forall d :: d in tasks ==> OnceRecorded(f, steps, d, root)
    ensures forall d :: d in tasks ==> Records(GrowAll(f, steps).log.rows, d, root)
  {
    forall d | d in tasks ensures Records(GrowAll(f, steps).log.rows, d, root) {
      assert OnceRecorded(f, steps, d, root);
      var i :| 0 <= i <= |steps| && Records(GrowAll(f, steps[..i]).log.rows, d, root);
      RecordsStay(f, steps, i, d, root);
    }
  }

  lemma RecordedAreListed(rows: seq<Row<TaskEvent>>, root: TaskId, t: TaskId, tasks: set<TaskId>)
    requires t in tasks && forall d :: d in tasks ==> Records(rows, d, root)
    ensures tasks <= ChainTasks(rows, root, t)
  {
    forall d | d in tasks ensures d in ChainTasks(rows, root, t) {
      ChainTasksAre(rows, root, t, d);
    }
  }

  /** With nothing pruned, the chain asked from any member ever recorded, the original task included, holds every
      descendant ever recorded, and the root query answers the original root. */
  lemma UnprunedChainIsWhole(origin: TaskId -> TaskId, f: Family, steps: seq<Growth>, task: TaskId, t: TaskId,
                             at: Option<TaskId>)
    requires Sound(origin, f) && AllLegal(origin, f, steps) && task in f.seen && NamesCarryRoots(f, steps)
    requires t in Descendants(task, steps) && IsRootAnswer(GrowAll(f, steps).log.rows, t, at)
    requires forall g :: g in steps ==> !g.PruneTo?
    requires forall d :: d in Descendants(task, steps) ==> OnceRecorded(f, steps, d, TrueRoot(origin, f, task))
    ensures var rows, root := GrowAll(f, steps).log.rows, TrueRoot(origin, f, task);
            at == Some(root) && Descendants(task, steps) <= ChainTasks(rows, root, t)
  {
    RetriesKeepTheRoot(origin, f, steps, task);
    AllStillRecorded(f, steps, Descendants(task, steps), TrueRoot(origin, f, task));
    StaysSound(origin, f, steps);
    RecordedRootIsAnswered(origin, GrowAll(f, steps), t, at);
    RecordedAreListed(GrowAll(f, steps).log.rows, TrueRoot(origin, f, task), t, Descendants(task, steps));
  }
}
