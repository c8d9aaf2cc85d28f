/** Listing, counting and detailing tasks from the event log (src/taskowl/queries.py). */
module Queries {
  import opened Rows
  import opened Values
  import opened Events
  import opened Latest
  import opened Retention
  import opened Orphans

  /** A name an earliest named event of the task carries; none when no event carries one. */
  ghost predicate IsEarliestName(rows: seq<Row<TaskEvent>>, task: TaskId, name: Option<string>) {
    match name
    case None => forall q :: q in rows && q.data.taskId == task ==> q.data.name.None?
    case Some(_) =>
      exists r :: r in rows && r.data.taskId == task && r.data.name == name &&
        forall q :: q in rows && q.data.taskId == task && q.data.name.Some? ==> r.time <= q.time
  }

  // ---------------------------------------------------------------- listing

  datatype Listing = Listing(state: Option<string>, name: Option<string>, worker: Option<string>, since: Option<int>)

  /** Python truth of an optional string: a filter given as "" filters nothing. */
  predicate Given(filter: Option<string>) {
    filter.Some? && filter.value != ""
  }

  function LowerLetter(c: char): char {
    if 'A' <= c <= 'Z' then (c as int + 32) as char else c
  }

  /** str.lower, for the letters event types are written in. */
  function Lower(s: string): string {
    Apply(LowerLetter, s)
  }

  function Matches(f: Listing, names: Names): Row<TaskEvent> -> bool {
    var byState, byName, byWorker := Given(f.state), Given(f.name), Given(f.worker);
    (r: Row<TaskEvent>) =>
      && (byState ==> r.data.eventType == Lower(f.state.value))
      && (byName ==> names(r.data.taskId) == f.name)
      && (byWorker ==> r.data.hostname == f.worker)
      && (f.since.Some? ==> r.time >= f.since.value)
  }

  /** _list_tasks_impl before ordering and paging: one latest row for every task listed. */
  function ListTasks(rows: seq<Row<TaskEvent>>, names: Names, f: Listing): seq<Row<TaskEvent>> {
    Filter(Matches(f, names), LatestRows(TaskOf(), rows))
  }

  /** The same text with the letters A to Z in lower case. */
  ghost predicate IsLowered(s: string, lower: string) {
    |s| == |lower| && forall i :: 0 <= i < |s| ==>
      lower[i] == if 'A' <= s[i] <= 'Z' then ((s[i] as int) + 32) as char else s[i]
  }

  /** What a listing shows: each task's latest row, by time and then key, if its type is the asked state in lower
      case, its task has the asked name, its host is the asked worker and it is recent enough, where a filter that
      is missing or empty asks nothing. */
  lemma ListedIff(rows: seq<Row<TaskEvent>>, names: Names, f: Listing, r: Row<TaskEvent>)
    ensures r in ListTasks(rows, names, f) <==>
              && r in rows
              && (forall q :: q in rows && q.data.taskId == r.data.taskId ==>
                    q.time < r.time || (q.time == r.time && q.id <= r.id))
              && (f.state.None? || f.state.value == "" || IsLowered(f.state.value, r.data.eventType))
              && (f.name.None? || f.name.value == "" || names(r.data.taskId) == f.name)
              && (f.worker.None? || f.worker.value == "" || r.data.hostname == f.worker)
              && (f.since.None? || r.time >= f.since.value)
  {
    FilterMember(Matches(f, names), LatestRows(TaskOf(), rows));
    LatestTaskRow(rows, r);
    if f.state.Some? {
      LowerMeans(f.state.value, r.data.eventType);
    }
    assert r in ListTasks(rows, names, f) <==> r in LatestRows(TaskOf(), rows) && Matches(f, names)(r);
  }

  lemma LowerMeans(s: string, lower: string)
    ensures lower == Lower(s) <==> IsLowered(s, lower)
  {
    forall i | 0 <= i < |s|
      ensures Lower(s)[i] == if 'A' <= s[i] <= 'Z' then ((s[i] as int) + 32) as char else s[i]
    {
      assert Lower(s)[i] == LowerLetter(s[i]);
    }
  }

  /** Pruning leaves every surviving task its state, worker, queue and timestamp; the others vanish. */
  lemma PruningKeepsSurvivingTasks(rows: seq<Row<TaskEvent>>, moment: int, days: int)
    ensures LatestRows(TaskOf(), Pruned(rows, moment, days)) == Pruned(LatestRows(TaskOf(), rows), moment, days)
  {
    if days > 0 {
      PruningCommutesWithLatest(TaskOf(), rows, moment - days * DAY);
    }
  }

  // ---------------------------------------------------------------- listing by name, after a prune

  /** Every task resolved to a legitimate name. */
  ghost predicate Resolves(rows: seq<Row<TaskEvent>>, names: Names) {
    forall t :: IsEarliestName(rows, t, names(t))
  }

  /** Earliest named events that tie agree on the name. */
  ghost predicate OneEarliestName(rows: seq<Row<TaskEvent>>) {
    forall t, x, y :: IsEarliestName(rows, t, x) && IsEarliestName(rows, t, y) ==> x == y
  }

  predicate NamedRow(r: Row<TaskEvent>, task: TaskId) {
    r.data.taskId == task && r.data.name.Some?
  }

  /** The task's earliest named event is older than the cutoff. */
  ghost predicate LosesItsEarliest(rows: seq<Row<TaskEvent>>, task: TaskId, cutoff: int) {
    exists q :: q in rows && NamedRow(q, task) && q.time < cutoff
  }

  /** A surviving task that every other filter of the listing lets through. */
  ghost predicate InQuestion(rows: seq<Row<TaskEvent>>, f: Listing, cutoff: int, r: Row<TaskEvent>) {
    r in LatestRows(TaskOf(), rows) && r.time >= cutoff && Matches(f.(name := None), NoNames())(r)
  }

  function NoNames(): Names {
    (t: TaskId) => None
  }

  /** Without a name filter any listing of the pruned log is the pruned listing, whatever names either resolves. */
  lemma PruningKeepsUnnamedListings(rows: seq<Row<TaskEvent>>, names: Names, names': Names, f: Listing, moment: int,
                                    days: int)
    requires !Given(f.name)
    ensures ListTasks(Pruned(rows, moment, days), names', f) == Pruned(ListTasks(rows, names, f), moment, days)
  {
    PruningKeepsSurvivingTasks(rows, moment, days);
    var latest := LatestRows(TaskOf(), Pruned(rows, moment, days));
    forall r | r in latest ensures Matches(f, names')(r) == Matches(f, names)(r) {
    }
    FilterAgree(Matches(f, names'), Matches(f, names), latest);
    FilterCommutes(Matches(f, names), From(moment - days * DAY), LatestRows(TaskOf(), rows));
  }

  /** Selections of one sequence are equal exactly when they select the same members. */
  lemma SameSelection<T>(p: T -> bool, q: T -> bool, s: seq<T>)
    ensures Filter(p, s) == Filter(q, s) <==> forall x :: x in s ==> p(x) == q(x)
  {
    if forall x :: x in s ==> p(x) == q(x) {
      FilterAgree(p, q, s);
    }
    FilterMember(p, s);
    FilterMember(q, s);
    if Filter(p, s) == Filter(q, s) {
      forall x | x in s ensures p(x) == q(x) {
        assert x in Filter(p, s) <==> p(x);
        assert x in Filter(q, s) <==> q(x);
      }
    }
  }

  lemma ListingOfPruned(rows: seq<Row<TaskEvent>>, names: Names, names': Names, f: Listing, cutoff: int)
    requires Given(f.name)
    ensures ListTasks(Kept(rows, cutoff), names', f) == Kept(ListTasks(rows, names, f), cutoff)
       <==> forall r :: InQuestion(rows, f, cutoff, r) ==>
              (names(r.data.taskId) == f.name <==> names'(r.data.taskId) == f.name)
  {
    var latest := LatestRows(TaskOf(), rows);
    var kept := Kept(latest, cutoff);
    PruningCommutesWithLatest(TaskOf(), rows, cutoff);
    FilterCommutes(Matches(f, names), From(cutoff), latest);
    SameSelection(Matches(f, names'), Matches(f, names), kept);
    FilterMember(From<TaskEvent>(cutoff), latest);
    forall r | r in kept
      ensures InQuestion(rows, f, cutoff, r) <==> Matches(f.(name := None), NoNames())(r)
      ensures Matches(f, names)(r) <==> Matches(f.(name := None), NoNames())(r) && names(r.data.taskId) == f.name
      ensures Matches(f, names')(r) <==> Matches(f.(name := None), NoNames())(r) && names'(r.data.taskId) == f.name
    {
    }
    forall r | InQuestion(rows, f, cutoff, r) ensures r in kept {
      assert From(cutoff)(r);
    }
  }

  /** A task none of whose named events is older than the cutoff keeps the name it resolves to. */
  lemma NameOutlivesThePrune(rows: seq<Row<TaskEvent>>, task: TaskId, cutoff: int, name: Option<string>)
    requires !LosesItsEarliest(rows, task, cutoff)
    ensures IsEarliestName(Kept(rows, cutoff), task, name) <==> IsEarliestName(rows, task, name)
  {
    FilterMember(From<TaskEvent>(cutoff), rows);
    forall q | q in rows && NamedRow(q, task) ensures q in Kept(rows, cutoff) {
      assert From(cutoff)(q);
    }
    if name.Some? {
      if IsEarliestName(rows, task, name) {
        var r :| r in rows && r.data.taskId == task && r.data.name == name &&
                 forall q :: q in rows && q.data.taskId == task && q.data.name.Some? ==> r.time <= q.time;
        assert NamedRow(r, task) && r in Kept(rows, cutoff);
      }
      if IsEarliestName(Kept(rows, cutoff), task, name) {
        var r :| r in Kept(rows, cutoff) && r.data.taskId == task && r.data.name == name &&
                 forall q :: q in Kept(rows, cutoff) && q.data.taskId == task && q.data.name.Some? ==> r.time <= q.time;
        assert forall q :: q in rows && q.data.taskId == task && q.data.name.Some? ==> NamedRow(q, task);
      }
    } else {
      assert forall q :: q in rows && q.data.taskId == task && q.data.name.Some? ==> NamedRow(q, task);
    }
  }

  /** A listing by name of the pruned log is the pruned listing if and only if every surviving task in question
      that loses its earliest named event resolves to the asked name after the prune exactly when it did before. */
  lemma PruningKeepsNameListingsIff(rows: seq<Row<TaskEvent>>, names: Names, names': Names, f: Listing, cutoff: int)
    requires Given(f.name) && Resolves(rows, names) && Resolves(Kept(rows, cutoff), names')
    requires OneEarliestName(rows) && OneEarliestName(Kept(rows, cutoff))
    ensures ListTasks(Kept(rows, cutoff), names', f) == Kept(ListTasks(rows, names, f), cutoff)
       <==> forall r :: InQuestion(rows, f, cutoff, r) && LosesItsEarliest(rows, r.data.taskId, cutoff) ==>
              var t := r.data.taskId;
              (IsEarliestName(rows, t, f.name) <==> IsEarliestName(Kept(rows, cutoff), t, f.name))
  {
    ListingOfPruned(rows, names, names', f, cutoff);
    forall t
      ensures names(t) == f.name <==> IsEarliestName(rows, t, f.name)
      ensures names'(t) == f.name <==> IsEarliestName(Kept(rows, cutoff), t, f.name)
      ensures !LosesItsEarliest(rows, t, cutoff) ==> (names(t) == f.name <==> names'(t) == f.name)
    {
      assert IsEarliestName(rows, t, names(t)) && IsEarliestName(Kept(rows, cutoff), t, names'(t));
      if !LosesItsEarliest(rows, t, cutoff) {
        NameOutlivesThePrune(rows, t, cutoff, f.name);
      }
    }
  }

  /** All named events of a task carry one name. */
  ghost predicate OneNameEach(rows: seq<Row<TaskEvent>>) {
    forall q, r :: q in rows && r in rows && q.data.taskId == r.data.taskId && q.data.name.Some? && r.data.name.Some?
      ==> q.data.name == r.data.name
  }

  lemma NameOfATask(rows: seq<Row<TaskEvent>>, names: Names, t: TaskId, name: string)
    requires OneNameEach(rows) && Resolves(rows, names)
    ensures names(t) == Some(name) <==> exists q :: q in rows && NamedRow(q, t) && q.data.name == Some(name)
  {
    assert IsEarliestName(rows, t, names(t));
    if names(t).Some? {
      var r :| r in rows && r.data.taskId == t && r.data.name == names(t);
      assert NamedRow(r, t);
    }
  }

  lemma NameLeft(rows: seq<Row<TaskEvent>>, names: Names, names': Names, t: TaskId, name: string, cutoff: int)
    requires OneNameEach(rows) && Resolves(rows, names) && Resolves(Kept(rows, cutoff), names')
    ensures names'(t) == Some(name)
            <==> names(t) == Some(name) && exists q :: q in rows && NamedRow(q, t) && q.time >= cutoff
  {
    FilterMember(From<TaskEvent>(cutoff), rows);
    NameOfATask(rows, names, t, name);
    NameOfATask(Kept(rows, cutoff), names', t, name);
    forall q | q in rows && NamedRow(q, t) && q.time >= cutoff ensures q in Kept(rows, cutoff) {
      assert From(cutoff)(q);
    }
  }

  lemma PrunedListingIsInQuestion(rows: seq<Row<TaskEvent>>, names: Names, f: Listing, cutoff: int, r: Row<TaskEvent>)
    requires Given(f.name)
    ensures r in Kept(ListTasks(rows, names, f), cutoff)
            <==> InQuestion(rows, f, cutoff, r) && names(r.data.taskId) == f.name
  {
    FilterMember(From<TaskEvent>(cutoff), ListTasks(rows, names, f));
    FilterMember(Matches(f, names), LatestRows(TaskOf(), rows));
    assert Matches(f, names)(r) <==> Matches(f.(name := None), NoNames())(r) && names(r.data.taskId) == f.name;
    assert From(cutoff)(r) <==> r.time >= cutoff;
  }

  /** Where each task has one name, a listing by name loses exactly the tasks of that name none of whose named
      events is left, so it is the pruned listing if and only if there is no such task. */
  lemma PruningForgetsNames(rows: seq<Row<TaskEvent>>, names: Names, names': Names, f: Listing, cutoff: int)
    requires Given(f.name) && OneNameEach(rows) && Resolves(rows, names) && Resolves(Kept(rows, cutoff), names')
    ensures ListTasks(Kept(rows, cutoff), names', f) == Kept(ListTasks(rows, names, f), cutoff)
       <==> forall r :: r in Kept(ListTasks(rows, names, f), cutoff) ==>
              exists q :: q in rows && NamedRow(q, r.data.taskId) && q.time >= cutoff
  {
    ListingOfPruned(rows, names, names', f, cutoff);
    forall r: Row<TaskEvent>
      ensures r in Kept(ListTasks(rows, names, f), cutoff)
              <==> InQuestion(rows, f, cutoff, r) && names(r.data.taskId) == f.name
      ensures names'(r.data.taskId) == f.name <==>
              names(r.data.taskId) == f.name && exists q :: q in rows && NamedRow(q, r.data.taskId) && q.time >= cutoff
    {
      PrunedListingIsInQuestion(rows, names, f, cutoff, r);
      NameLeft(rows, names, names', r.data.taskId, f.name.value, cutoff);
    }
  }

  lemma FilterPair<T>(p: T -> bool, a: T, b: T)
    ensures Filter(p, [a, b]) == (if p(a) then [a] else []) + (if p(b) then [b] else [])
  {
    FilterAppend(p, [a], b);
    FilterAppend(p, [], a);
    assert [a] + [b] == [a, b] && [] + [a] == [a];
  }

  lemma OneRowListing(r: Row<TaskEvent>, names: Names, f: Listing)
    requires f == Listing(None, f.name, None, None) && Given(f.name)
    ensures Filter(Matches(f, names), [r]) == if names(r.data.taskId) == f.name then [r] else []
    ensures r.time >= DAY ==> Kept([r], DAY) == [r]
  {
    assert Matches(f, names)(r) <==> names(r.data.taskId) == f.name;
    FilterAppend(Matches(f, names), [], r);
    FilterAppend(From(DAY), [], r);
    assert [] + [r] == [r];
  }

  /** Task 7 is sent as "x" and started two days later; pruned then with a day of retention, it is no longer
      listed as "x", though its started row is still there. */
  lemma ANameCanBePruned(names: Names, names': Names)
    requires var sent, started := Row(1, 0, Bare("sent", 7).(name := Some("x"))), Row(2, 2 * DAY, Bare("started", 7));
             Resolves([sent, started], names) && Resolves(Kept([sent, started], DAY), names')
    ensures var sent, started := Row(1, 0, Bare("sent", 7).(name := Some("x"))), Row(2, 2 * DAY, Bare("started", 7));
            var f := Listing(None, Some("x"), None, None);
            && Kept(ListTasks([sent, started], names, f), DAY) == [started]
            && ListTasks(Kept([sent, started], DAY), names', f) == []
  {
    var sent, started := Row(1, 0, Bare("sent", 7).(name := Some("x"))), Row(2, 2 * DAY, Bare("started", 7));
    var rows, f := [sent, started], Listing(None, Some("x"), None, None);
    assert rows[0] == sent && rows[1] == started && sent in rows && started in rows;
    FilterPair(From(DAY), sent, started);
    assert IsEarliestName(rows, 7, names(7)) && IsEarliestName([started], 7, names'(7));
    assert names(7) == Some("x") && names'(7) == None;
    FilterPair(PrecedingPeer(TaskOf(), Descending, sent), sent, started);
    FilterPair(PrecedingPeer(TaskOf(), Descending, started), sent, started);
    FilterPair(RankedFirst(TaskOf(), Descending, rows), sent, started);
    assert LatestRows(TaskOf(), rows) == [started];
    PruningCommutesWithLatest(TaskOf(), rows, DAY);
    assert LatestRows(TaskOf(), Kept(rows, DAY)) == [started];
    OneRowListing(started, names, f);
    OneRowListing(started, names', f);
  }

  // ---------------------------------------------------------------- grouping

  function Has<T, K(==)>(f: T -> K, k: K): T -> bool {
    (x: T) => f(x) == k
  }

  function HasNot<T, K(==)>(f: T -> K, k: K): T -> bool {
    (x: T) => f(x) != k
  }

  /** SELECT f, COUNT(*) ... GROUP BY f. */
  function GroupCounts<T, K(==)>(f: T -> K, rows: seq<T>): map<K, nat> {
    map k | k in Apply(f, rows) :: |Filter(Has(f, k), rows)|
  }

  ghost function SumValues<K>(m: map<K, nat>): nat {
    if m == map[] then 0
    else
      var k :| k in m;
      m[k] + SumValues(m - {k})
  }

  lemma {:induction false} SumValuesRemove<K>(m: map<K, nat>, k: K)
    requires k in m
    ensures SumValues(m) == m[k] + SumValues(m - {k})
    decreases |m|
  {
    var picked :| picked in m && SumValues(m) == m[picked] + SumValues(m - {picked});
    if picked != k {
      SumValuesRemove(m - {picked}, k);
      SumValuesRemove(m - {k}, picked);
      assert m - {picked} - {k} == m - {k} - {picked};
    }
  }

  lemma ApplyHas<T, K>(f: T -> K, rows: seq<T>, x: T)
    requires x in rows
    ensures f(x) in Apply(f, rows)
  {
    var i :| 0 <= i < |rows| && rows[i] == x;
    assert Apply(f, rows)[i] == f(x);
  }

  lemma ApplyMember<T, K>(f: T -> K, rows: seq<T>)
    ensures forall k :: k in Apply(f, rows) <==> exists x :: x in rows && f(x) == k
  {
    forall k | k in Apply(f, rows) ensures exists x :: x in rows && f(x) == k {
      var i :| 0 <= i < |rows| && Apply(f, rows)[i] == k;
      assert rows[i] in rows;
    }
    forall x | x in rows ensures f(x) in Apply(f, rows) {
      ApplyHas(f, rows, x);
    }
  }

  lemma GroupsWithoutOne<T, K>(f: T -> K, rows: seq<T>, k: K)
    ensures GroupCounts(f, Filter(HasNot(f, k), rows)) == GroupCounts(f, rows) - {k}
  {
    var rest := Filter(HasNot(f, k), rows);
    var counts, fewer := GroupCounts(f, rows) - {k}, GroupCounts(f, rest);
    FilterMember(HasNot(f, k), rows);
    ApplyMember(f, rows);
    ApplyMember(f, rest);
    forall j | j in counts ensures j in fewer {
      var x :| x in rows && f(x) == j;
      assert HasNot(f, k)(x);
      ApplyHas(f, rest, x);
    }
    forall j | j in fewer ensures j in counts && fewer[j] == counts[j] {
      FilterWithin(Has(f, j), HasNot(f, k), rows);
    }
  }

  /** Grouping loses no row: the counts add up to the rows grouped. */
  lemma {:induction false} GroupCountsAddUp<T, K>(f: T -> K, rows: seq<T>)
    ensures SumValues(GroupCounts(f, rows)) == |rows|
    decreases |rows|
  {
    if rows != [] {
      var k := f(rows[0]);
      FilterSplit(Has(f, k), HasNot(f, k), rows);
      FilterStrict(HasNot(f, k), rows, rows[0]);
      GroupCountsAddUp(f, Filter(HasNot(f, k), rows));
      GroupsWithoutOne(f, rows, k);
      assert Apply(f, rows)[0] == k;
      SumValuesRemove(GroupCounts(f, rows), k);
    }
  }

  // ---------------------------------------------------------------- summary

  function StateOf(): Row<TaskEvent> -> string {
    (r: Row<TaskEvent>) => r.data.eventType
  }

  /** Rows of tasks that had any event in the window. */
  function ActiveIn(rows: seq<Row<TaskEvent>>, since: int): Row<TaskEvent> -> bool {
    var active := set r | r in rows && r.time >= since :: r.data.taskId;
    (r: Row<TaskEvent>) => r.data.taskId in active
  }

  function SummaryRows(rows: seq<Row<TaskEvent>>, since: int): seq<Row<TaskEvent>> {
    LatestRows(TaskOf(), Filter(ActiveIn(rows, since), rows))
  }

  /** by_state of _get_task_summary_impl; total_tasks is the sum of its values. */
  function StateCounts(rows: seq<Row<TaskEvent>>, since: int): map<string, nat> {
    GroupCounts(StateOf(), SummaryRows(rows, since))
  }

  function SinceOnly(since: int): Listing {
    Listing(None, None, None, Some(since))
  }

  lemma SummaryRowsAreListed(rows: seq<Row<TaskEvent>>, names: Names, since: int)
    ensures SummaryRows(rows, since) == ListTasks(rows, names, SinceOnly(since))
  {
    var active := Filter(ActiveIn(rows, since), rows);
    var latest := LatestRows(TaskOf(), rows);
    FilterMember(ActiveIn(rows, since), rows);
    FilterMember(RankedFirst(TaskOf(), Descending, rows), rows);
    forall r | r in active
      ensures RankedFirst(TaskOf(), Descending, active)(r) == RankedFirst(TaskOf(), Descending, rows)(r)
    {
      FilterWithin(PrecedingPeer(TaskOf(), Descending, r), ActiveIn(rows, since), rows);
    }
    FilterAgree(RankedFirst(TaskOf(), Descending, active), RankedFirst(TaskOf(), Descending, rows), active);
    FilterCommutes(RankedFirst(TaskOf(), Descending, rows), ActiveIn(rows, since), rows);
    forall r | r in latest ensures ActiveIn(rows, since)(r) == Matches(SinceOnly(since), names)(r) {
      RankedFirstIsNewest(TaskOf(), rows, r);
    }
    FilterAgree(ActiveIn(rows, since), Matches(SinceOnly(since), names), latest);
  }

  /** The summary counts what the listing lists: the total and every state, however it is capitalised, for every
      log, although one selects tasks by any event in the window and the other by their latest event. */
  lemma SummaryRefinesListing(rows: seq<Row<TaskEvent>>, names: Names, since: int, state: string)
    requires state != ""
    ensures SumValues(StateCounts(rows, since)) == |ListTasks(rows, names, SinceOnly(since))|
    ensures var counts := StateCounts(rows, since);
            (if Lower(state) in counts then counts[Lower(state)] else 0)
              == |ListTasks(rows, names, SinceOnly(since).(state := Some(state)))|
  {
    var all := SummaryRows(rows, since);
    SummaryRowsAreListed(rows, names, since);
    GroupCountsAddUp(StateOf(), all);
    ApplyMember(StateOf(), all);
    var f := SinceOnly(since).(state := Some(state));
    var latest := LatestRows(TaskOf(), rows);
    FilterWithin(Matches(f, names), Matches(SinceOnly(since), names), latest);
    FilterMember(Matches(SinceOnly(since), names), latest);
    FilterAgree(Has(StateOf(), Lower(state)), Matches(f, names), all);
    if Lower(state) !in StateCounts(rows, since) {
      FilterNone(Has(StateOf(), Lower(state)), all);
    }
  }

  /** An event before the moment and one at or after it, of one task. */
  ghost predicate Straddles(rows: seq<Row<TaskEvent>>, since: int) {
    exists p, q :: p in rows && q in rows && p.data.taskId == q.data.taskId && p.time < since <= q.time
  }

  /** Every listed task has all its events at or after the moment. */
  ghost predicate ListsOnlyTasksSince(rows: seq<Row<TaskEvent>>, names: Names, since: int) {
    forall r, q :: r in ListTasks(rows, names, SinceOnly(since)) && q in rows && q.data.taskId == r.data.taskId ==>
      q.time >= since
  }

  /** `since` compares the latest event: it selects the tasks created since if and only if no task has an event
      before the moment and one at or after it. */
  lemma SinceSelectsCreatedTasksIff(rows: seq<Row<TaskEvent>>, names: Names, since: int)
    requires Ordered(rows)
    ensures ListsOnlyTasksSince(rows, names, since) <==> !Straddles(rows, since)
  {
    var latest := LatestRows(TaskOf(), rows);
    var listed := ListTasks(rows, names, SinceOnly(since));
    FilterMember(Matches(SinceOnly(since), names), latest);
    FilterMember(RankedFirst(TaskOf(), Descending, rows), rows);
    if Straddles(rows, since) {
      var p, q :| p in rows && q in rows && p.data.taskId == q.data.taskId && p.time < since <= q.time;
      var first := RankedFirstExists(TaskOf(), Descending, rows, q);
      RankedFirstIsNewest(TaskOf(), rows, first);
      assert Matches(SinceOnly(since), names)(first);
      assert first in listed;
    } else {
      forall r, q | r in listed && q in rows && q.data.taskId == r.data.taskId ensures q.time >= since {
        assert Matches(SinceOnly(since), names)(r);
      }
    }
  }

  /** An event of this type, with nothing else in it. */
  function Bare(eventType: string, task: TaskId): TaskEvent {
    TaskEvent(eventType, task, None, None, Null, Null, None, None, None, Null, None, None, None, map[], None)
  }

  /** A task sent before the moment and started after it is listed. */
  lemma AnOldTaskCanBeListed(names: Names)
    ensures var rows := [Row(1, 0, Bare("sent", 7)), Row(2, 10, Bare("started", 7))];
            !ListsOnlyTasksSince(rows, names, 5)
  {
    var rows := [Row(1, 0, Bare("sent", 7)), Row(2, 10, Bare("started", 7))];
    assert rows[0] in rows && rows[1] in rows;
    SinceSelectsCreatedTasksIff(rows, names, 5);
  }

  // ---------------------------------------------------------------- task types

  function Named(names: Names): Row<TaskEvent> -> bool {
    (r: Row<TaskEvent>) => names(r.data.taskId).Some?
  }

  function Unnamed(names: Names): Row<TaskEvent> -> bool {
    (r: Row<TaskEvent>) => names(r.data.taskId).None?
  }

  function NameOf(names: Names): Row<TaskEvent> -> Option<string> {
    (r: Row<TaskEvent>) => names(r.data.taskId)
  }

  /** _list_task_types_impl before its limit. */
  function TypeCounts(rows: seq<Row<TaskEvent>>, names: Names): map<Option<string>, nat> {
    GroupCounts(NameOf(names), Filter(Named(names), LatestRows(TaskOf(), rows)))
  }

  function TaskIds(rows: seq<Row<TaskEvent>>): set<TaskId> {
    set r | r in rows :: r.data.taskId
  }

  lemma {:induction false} DistinctSize<K>(s: seq<K>)
    requires forall i, j :: 0 <= i < j < |s| ==> s[i] != s[j]
    ensures |set x | x in s| == |s|
  {
    if s != [] {
      DistinctSize(s[1..]);
      assert (set x | x in s) == {s[0]} + set x | x in s[1..];
    }
  }

  function IdsOf(rows: seq<Row<TaskEvent>>): seq<TaskId> {
    seq(|rows|, i requires 0 <= i < |rows| => rows[i].data.taskId)
  }

  lemma IdsAreTaskIds(rows: seq<Row<TaskEvent>>)
    ensures TaskIds(rows) == set t | t in IdsOf(rows)
  {
    var ids := IdsOf(rows);
    forall t | t in TaskIds(rows) ensures t in ids {
      var r :| r in rows && r.data.taskId == t;
      var i :| 0 <= i < |rows| && rows[i] == r;
      assert ids[i] == t;
    }
    forall t | t in ids ensures t in TaskIds(rows) {
      var i :| 0 <= i < |rows| && ids[i] == t;
      assert rows[i] in rows;
    }
  }

  lemma LatestIdsDistinct(rows: seq<Row<TaskEvent>>, i: nat, j: nat)
    requires Ordered(rows) && i < j < |LatestRows(TaskOf(), rows)|
    ensures IdsOf(LatestRows(TaskOf(), rows))[i] != IdsOf(LatestRows(TaskOf(), rows))[j]
  {
    var latest := LatestRows(TaskOf(), rows);
    FilterMember(RankedFirst(TaskOf(), Descending, rows), rows);
    FilterOrdered(RankedFirst(TaskOf(), Descending, rows), rows);
    RankedFirstDiffers(rows, latest[i], latest[j]);
  }

  lemma RankedFirstDiffers(rows: seq<Row<TaskEvent>>, r: Row<TaskEvent>, q: Row<TaskEvent>)
    requires Ordered(rows) && r in LatestRows(TaskOf(), rows) && q in LatestRows(TaskOf(), rows) && r != q
    ensures r.data.taskId != q.data.taskId
  {
    if r.data.taskId == q.data.taskId {
      RankedFirstUnique(TaskOf(), Descending, rows, r, q);
    }
  }

  lemma OneLatestRowEach(rows: seq<Row<TaskEvent>>)
    requires Ordered(rows)
    ensures |LatestRows(TaskOf(), rows)| == |TaskIds(rows)|
  {
    var latest := LatestRows(TaskOf(), rows);
    var ids := IdsOf(latest);
    FilterMember(RankedFirst(TaskOf(), Descending, rows), rows);
    forall i, j | 0 <= i < j < |ids| ensures ids[i] != ids[j] {
      LatestIdsDistinct(rows, i, j);
    }
    DistinctSize(ids);
    IdsAreTaskIds(latest);
    forall task | task in TaskIds(rows) ensures task in TaskIds(latest) {
      var r :| r in rows && r.data.taskId == task;
      var first := RankedFirstExists(TaskOf(), Descending, rows, r);
    }
    assert TaskIds(rows) == TaskIds(latest);
  }

  /** Type counts conserve tasks: with the tasks no event names, they add up to the distinct tasks. */
  lemma TypeCountsConserveTasks(rows: seq<Row<TaskEvent>>, names: Names)
    requires Ordered(rows)
    ensures SumValues(TypeCounts(rows, names)) + |Filter(Unnamed(names), LatestRows(TaskOf(), rows))| == |TaskIds(rows)|
  {
    var latest := LatestRows(TaskOf(), rows);
    GroupCountsAddUp(NameOf(names), Filter(Named(names), latest));
    FilterSplit(Named(names), Unnamed(names), latest);
    OneLatestRowEach(rows);
  }

  function NameOnly(name: string): Listing {
    Listing(None, Some(name), None, None)
  }

  lemma CountOfName(rows: seq<Row<TaskEvent>>, names: Names, name: string)
    requires Some(name) in TypeCounts(rows, names)
    ensures TypeCounts(rows, names)[Some(name)]
         == |Filter(Has(NameOf(names), Some(name)), LatestRows(TaskOf(), rows))|
  {
    FilterWithin(Has(NameOf(names), Some(name)), Named(names), LatestRows(TaskOf(), rows));
  }

  lemma ListingOfName(rows: seq<Row<TaskEvent>>, names: Names, name: string)
    ensures name != "" ==>
      ListTasks(rows, names, NameOnly(name)) == Filter(Has(NameOf(names), Some(name)), LatestRows(TaskOf(), rows))
    ensures name == "" ==> ListTasks(rows, names, NameOnly(name)) == LatestRows(TaskOf(), rows)
  {
    var latest := LatestRows(TaskOf(), rows);
    var matches := Matches(NameOnly(name), names);
    if name == "" {
      forall r | r in latest ensures matches(r) {
        assert !Given(Some(name));
      }
      FilterAll(matches, latest);
    } else {
      forall r | r in latest ensures Has(NameOf(names), Some(name))(r) == matches(r) {
        assert NameOf(names)(r) == names(r.data.taskId);
        assert matches(r) == (names(r.data.taskId) == Some(name));
        assert Has(NameOf(names), Some(name))(r) == (names(r.data.taskId) == Some(name));
      }
      FilterAgree(Has(NameOf(names), Some(name)), matches, latest);
    }
  }

  /** A name's count is the length of the listing for that exact name, except that the listing cannot
      ask for the empty name: there it lists every task, so the two agree only if all are named "". */
  lemma TypeCountIsListingLength(rows: seq<Row<TaskEvent>>, names: Names, name: string)
    requires Some(name) in TypeCounts(rows, names)
    ensures TypeCounts(rows, names)[Some(name)] == |ListTasks(rows, names, NameOnly(name))|
       <==> name != "" || forall r :: r in LatestRows(TaskOf(), rows) ==> names(r.data.taskId) == Some("")
  {
    var latest := LatestRows(TaskOf(), rows);
    var has := Has(NameOf(names), Some(name));
    CountOfName(rows, names, name);
    ListingOfName(rows, names, name);
    if name == "" {
      if r :| r in latest && names(r.data.taskId) != Some("") {
        assert !has(r);
        FilterStrict(has, latest, r);
      } else {
        FilterAll(has, latest);
      }
    }
  }

  /** Task 7 is sent without a name to speak of and task 8 as "x": one task is counted under the empty name, and
      the listing for that name has both. */
  lemma AnEmptyNameListsEveryTask(names: Names)
    requires Resolves([Row(1, 0, Bare("sent", 7).(name := Some(""))), Row(2, 0, Bare("sent", 8).(name := Some("x")))],
                      names)
    ensures var rows := [Row(1, 0, Bare("sent", 7).(name := Some(""))), Row(2, 0, Bare("sent", 8).(name := Some("x")))];
            && Some("") in TypeCounts(rows, names) && TypeCounts(rows, names)[Some("")] == 1
            && ListTasks(rows, names, NameOnly("")) == rows
  {
    var unnamed, named := Row(1, 0, Bare("sent", 7).(name := Some(""))), Row(2, 0, Bare("sent", 8).(name := Some("x")));
    var rows := [unnamed, named];
    assert rows[0] == unnamed && rows[1] == named && unnamed in rows && named in rows;
    assert IsEarliestName(rows, 7, names(7)) && IsEarliestName(rows, 8, names(8));
    assert names(7) == Some("") && names(8) == Some("x");
    FilterPair(PrecedingPeer(TaskOf(), Descending, unnamed), unnamed, named);
    FilterPair(PrecedingPeer(TaskOf(), Descending, named), unnamed, named);
    FilterPair(RankedFirst(TaskOf(), Descending, rows), unnamed, named);
    assert LatestRows(TaskOf(), rows) == rows;
    FilterAll(Named(names), rows);
    FilterPair(Has(NameOf(names), Some("")), unnamed, named);
    assert Apply(NameOf(names), rows)[0] == Some("");
    CountOfName(rows, names, "");
    ListingOfName(rows, names, "");
  }

  // ---------------------------------------------------------------- one task

  datatype TaskState = TaskState(
    id: TaskId,
    name: Option<string>,
    args: Option<Value>,
    kwargs: Option<Value>,
    result: Option<Value>,
    exception: Option<string>,
    traceback: Option<string>,
    runtime: Option<real>,
    queue: Option<string>,
    rootId: Option<TaskId>,
    parentId: Option<TaskId>,
    events: seq<EventData>,
    state: string,
    worker: Option<string>,
    orphaned: bool)

  datatype EventData = EventData(eventType: string, time: int, hostname: Option<string>)

  function Shown(): Row<TaskEvent> -> EventData {
    (r: Row<TaskEvent>) => EventData(r.data.eventType, r.time, r.data.hostname)
  }

  /** An answer of WHERE task_id = task ORDER BY timestamp, which leaves ties open. */
  ghost predicate IsTimeline(rows: seq<Row<TaskEvent>>, task: TaskId, events: seq<Row<TaskEvent>>) {
    && multiset(events) == multiset(Filter(Peer(TaskOf(), task), rows))
    && forall i, j :: 0 <= i < j < |events| ==> events[i].time <= events[j].time
  }

  /** The value the last event that carries one leaves behind. */
  function LastValue<X>(field: TaskEvent -> Option<X>, events: seq<Row<TaskEvent>>): Option<X> {
    if events == [] then None
    else
      var last := field(events[|events| - 1].data);
      if last.Some? then last else LastValue(field, events[..|events| - 1])
  }

  function NonEmpty(text: Option<string>): Option<string> {
    if Given(text) then text else None
  }

  function NonNull(v: Value): Option<Value> {
    if Truth(v) then Some(v) else None
  }

  function NameField(): TaskEvent -> Option<string> {
    (e: TaskEvent) => NonEmpty(e.name)
  }

  function ArgsField(): TaskEvent -> Option<Value> {
    (e: TaskEvent) => NonNull(e.args)
  }

  function KwargsField(): TaskEvent -> Option<Value> {
    (e: TaskEvent) => NonNull(e.kwargs)
  }

  function ResultField(): TaskEvent -> Option<Value> {
    (e: TaskEvent) => NonNull(e.result)
  }

  function ExceptionField(): TaskEvent -> Option<string> {
    (e: TaskEvent) => NonEmpty(e.exception)
  }

  function TracebackField(): TaskEvent -> Option<string> {
    (e: TaskEvent) => NonEmpty(e.traceback)
  }

  function RuntimeField(): TaskEvent -> Option<real> {
    (e: TaskEvent) => e.runtime
  }

  function QueueField(): TaskEvent -> Option<string> {
    (e: TaskEvent) => NonEmpty(e.queue)
  }

  function RootField(): TaskEvent -> Option<TaskId> {
    (e: TaskEvent) => e.rootId
  }

  function ParentField(): TaskEvent -> Option<TaskId> {
    (e: TaskEvent) => e.parentId
  }

  /** What the events leave behind, before state, worker and orphan status. */
  function Collected(task: TaskId, events: seq<Row<TaskEvent>>): TaskState {
    TaskState(task, LastValue(NameField(), events), LastValue(ArgsField(), events), LastValue(KwargsField(), events),
              LastValue(ResultField(), events), LastValue(ExceptionField(), events),
              LastValue(TracebackField(), events), LastValue(RuntimeField(), events), LastValue(QueueField(), events),
              LastValue(RootField(), events),
              LastValue(ParentField(), events), Apply(Shown(), events), "", None, false)
  }

  lemma LastValueAppend<X>(field: TaskEvent -> Option<X>, events: seq<Row<TaskEvent>>, event: Row<TaskEvent>)
    ensures LastValue(field, events + [event])
            == if field(event.data).Some? then field(event.data) else LastValue(field, events)
  {
    assert (events + [event])[..|events|] == events;
  }

  lemma CollectedAppend(task: TaskId, events: seq<Row<TaskEvent>>, event: Row<TaskEvent>)
    ensures var before, e := Collected(task, events), event.data;
            Collected(task, events + [event]) == TaskState(
              task,
              if Given(e.name) then e.name else before.name,
              if Truth(e.args) then Some(e.args) else before.args,
              if Truth(e.kwargs) then Some(e.kwargs) else before.kwargs,
              if Truth(e.result) then Some(e.result) else before.result,
              if Given(e.exception) then e.exception else before.exception,
              if Given(e.traceback) then e.traceback else before.traceback,
              if e.runtime.Some? then e.runtime else before.runtime,
              if Given(e.queue) then e.queue else before.queue,
              if e.rootId.Some? then e.rootId else before.rootId,
              if e.parentId.Some? then e.parentId else before.parentId,
              before.events + [EventData(e.eventType, event.time, e.hostname)], "", None, false)
  {
    LastValueAppend(NameField(), events, event);
    LastValueAppend(ArgsField(), events, event);
    LastValueAppend(KwargsField(), events, event);
    LastValueAppend(ResultField(), events, event);
    LastValueAppend(ExceptionField(), events, event);
    LastValueAppend(TracebackField(), events, event);
    LastValueAppend(RuntimeField(), events, event);
    LastValueAppend(QueueField(), events, event);
    LastValueAppend(RootField(), events, event);
    LastValueAppend(ParentField(), events, event);
    assert Apply(Shown(), events + [event]) == Apply(Shown(), events) + [Shown()(event)];
  }

  /** What an event carries replaces what was there: the request, ... */
  method ReadRequest(before: TaskState, e: TaskEvent) returns (after: TaskState)
    ensures after == before.(name := if Given(e.name) then e.name else before.name,
                             args := if Truth(e.args) then Some(e.args) else before.args,
                             kwargs := if Truth(e.kwargs) then Some(e.kwargs) else before.kwargs)
  {
    after := before;
    if Given(e.name) {
      after := after.(name := e.name);
    }
    if Truth(e.args) {
      after := after.(args := Some(e.args));
    }
    if Truth(e.kwargs) {
      after := after.(kwargs := Some(e.kwargs));
    }
  }

  /** ... the outcome, ... */
  method ReadOutcome(before: TaskState, e: TaskEvent) returns (after: TaskState)
    ensures after == before.(result := if Truth(e.result) then Some(e.result) else before.result,
                             exception := if Given(e.exception) then e.exception else before.exception,
                             traceback := if Given(e.traceback) then e.traceback else before.traceback,
                             runtime := if e.runtime.Some? then e.runtime else before.runtime)
  {
    after := before;
    if Truth(e.result) {
      after := after.(result := Some(e.result));
    }
    if Given(e.exception) {
      after := after.(exception := e.exception);
    }
    if Given(e.traceback) {
      after := after.(traceback := e.traceback);
    }
    if e.runtime.Some? {
      after := after.(runtime := e.runtime);
    }
  }

  /** ... the queue and the retry links. */
  method ReadLinks(before: TaskState, e: TaskEvent) returns (after: TaskState)
    ensures after == before.(queue := if Given(e.queue) then e.queue else before.queue,
                             rootId := if e.rootId.Some? then e.rootId else before.rootId,
                             parentId := if e.parentId.Some? then e.parentId else before.parentId)
  {
    after := before;
    if Given(e.queue) {
      after := after.(queue := e.queue);
    }
    if e.rootId.Some? {
      after := after.(rootId := e.rootId);
    }
    if e.parentId.Some? {
      after := after.(parentId := e.parentId);
    }
  }

  /** _get_task_impl, given the task's events in timestamp order and the answer of the query for the worker of
      the last one; None is "Task not found". */
  method GetTask(task: TaskId, events: seq<Row<TaskEvent>>, worker: Option<Row<WorkerEvent>>, now: int, s: Settings)
    returns (found: Option<TaskState>)
    ensures found.None? <==> events == []
    ensures events != [] ==>
              var last := events[|events| - 1];
              found == Some(Collected(task, events).(state := last.data.eventType, worker := last.data.hostname,
                                                     orphaned := TaskIsOrphaned(last, worker, now, s)))
    ensures events != [] ==>
              var last := events[|events| - 1];
              found.value.orphaned <==>
                && last.data.eventType == "started" && now - last.time > s.orphanGraceSeconds * 1_000_000
                && last.data.hostname.Some? && last.data.hostname.value != ""
                && (worker.None? || worker.value.data.eventType == "offline"
                    || now - worker.value.time > s.workerOfflineTimeoutSeconds * 1_000_000)
    ensures events != [] ==>
              && found.value.id == task && |found.value.events| == |events|
              && forall i :: 0 <= i < |events| ==>
                   && found.value.events[i].eventType == events[i].data.eventType
                   && found.value.events[i].time == events[i].time
                   && found.value.events[i].hostname == events[i].data.hostname
  {
    if events == [] {
      return None;
    }
    var taskState := Collected(task, []);
    for i := 0 to |events|
      invariant taskState == Collected(task, events[..i])
    {
      assert events[..i + 1] == events[..i] + [events[i]];
      CollectedAppend(task, events[..i], events[i]);
      taskState := ReadRequest(taskState, events[i].data);
      taskState := ReadOutcome(taskState, events[i].data);
      taskState := ReadLinks(taskState, events[i].data);
      taskState := taskState.(events := taskState.events + [Shown()(events[i])]);
    }
    assert events[..|events|] == events;
    var last := events[|events| - 1];
    taskState := taskState.(state := last.data.eventType, worker := last.data.hostname);
    found := Some(taskState.(orphaned := TaskIsOrphaned(last, worker, now, s)));
  }

  lemma TimelineMembers(rows: seq<Row<TaskEvent>>, task: TaskId, events: seq<Row<TaskEvent>>)
    requires IsTimeline(rows, task, events)
    ensures forall r :: r in events <==> r in rows && r.data.taskId == task
  {
    FilterMember(Peer(TaskOf(), task), rows);
    forall r ensures r in events <==> r in rows && r.data.taskId == task {
      assert r in events <==> r in multiset(events);
      assert r in Filter(Peer(TaskOf(), task), rows) <==> r in multiset(Filter(Peer(TaskOf(), task), rows));
      assert Peer(TaskOf(), task)(r) <==> r.data.taskId == task;
    }
  }

  function StateAndWorker(): TaskEvent -> (string, Option<string>) {
    (e: TaskEvent) => (e.eventType, e.hostname)
  }

  lemma TimelineEndsWithANewest(rows: seq<Row<TaskEvent>>, task: TaskId, events: seq<Row<TaskEvent>>, r: Row<TaskEvent>)
    requires IsTimeline(rows, task, events) && r in rows && r.data.taskId == task
    ensures events != [] && IsNewest(TaskOf(), rows, task, events[|events| - 1])
  {
    TimelineMembers(rows, task, events);
    assert r in events;
    var last := events[|events| - 1];
    assert last in events;
    forall q | q in rows && q.data.taskId == task ensures q.time <= last.time {
      assert q in events;
    }
  }

  /** The task's own page shows the state and worker the listing shows, in whatever order tied events come
      back, if events tied for its newest time agree on them. */
  lemma TaskPageAgreesWithListing(rows: seq<Row<TaskEvent>>, task: TaskId, events: seq<Row<TaskEvent>>,
                                  r: Row<TaskEvent>)
    requires Ordered(rows) && IsTimeline(rows, task, events)
    requires TiesAgree(TaskOf(), rows, task, StateAndWorker())
    requires r in LatestRows(TaskOf(), rows) && r.data.taskId == task
    ensures events != []
    ensures var last := events[|events| - 1];
            last.time == r.time && last.data.eventType == r.data.eventType && last.data.hostname == r.data.hostname
  {
    FilterMember(RankedFirst(TaskOf(), Descending, rows), rows);
    TimelineEndsWithANewest(rows, task, events, r);
    var last := events[|events| - 1];
    NewestAgreesWithRankedFirst(TaskOf(), rows, task, StateAndWorker(), last, r);
    assert StateAndWorker()(last.data) == StateAndWorker()(r.data);
  }

  /** The non-empty names the task's events carry are all the same. */
  ghost predicate NamesAgree(rows: seq<Row<TaskEvent>>, task: TaskId) {
    forall r, q | r in rows && q in rows && NamedRow(r, task) && NamedRow(q, task) ::
      r.data.name == Some("") || q.data.name == Some("") || r.data.name == q.data.name
  }

  /** Before any event with the empty name there is one with a real name. */
  ghost predicate NoEmptyNameFirst(rows: seq<Row<TaskEvent>>, task: TaskId) {
    forall r :: r in rows && NamedRow(r, task) && r.data.name == Some("") ==>
      exists q :: q in rows && NamedRow(q, task) && q.data.name != Some("") && q.time < r.time
  }

  lemma {:induction false} LastValueFound<X>(field: TaskEvent -> Option<X>, events: seq<Row<TaskEvent>>)
    ensures LastValue(field, events).Some? ==> exists r :: r in events && field(r.data) == LastValue(field, events)
    ensures LastValue(field, events).None? ==> forall r :: r in events ==> field(r.data).None?
  {
    if events != [] {
      var init, last := events[..|events| - 1], events[|events| - 1];
      LastValueFound(field, init);
      assert events == init + [last] && last in events;
      if field(last.data).None? && LastValue(field, init).Some? {
        var r :| r in init && field(r.data) == LastValue(field, init);
        assert r in events;
      }
    }
  }

  lemma {:induction false} EarliestOf(rows: seq<Row<TaskEvent>>) returns (r: Row<TaskEvent>)
    requires rows != []
    ensures r in rows && forall q :: q in rows ==> r.time <= q.time
  {
    r := rows[0];
    if |rows| > 1 {
      var rest := EarliestOf(rows[1..]);
      r := if rest.time < r.time then rest else r;
    }
    assert forall q :: q in rows ==> q == rows[0] || q in rows[1..];
  }

  function NamedOnly(task: TaskId): Row<TaskEvent> -> bool {
    (r: Row<TaskEvent>) => NamedRow(r, task)
  }

  lemma EmptyNameCanBeEarliest(rows: seq<Row<TaskEvent>>, task: TaskId)
    requires !NoEmptyNameFirst(rows, task)
    ensures IsEarliestName(rows, task, Some(""))
  {
    var r :| r in rows && NamedRow(r, task) && r.data.name == Some("") &&
             forall q :: q in rows && NamedRow(q, task) && q.data.name != Some("") ==> q.time >= r.time;
    var named := Filter(NamedOnly(task), rows);
    FilterMember(NamedOnly(task), rows);
    assert r in named;
    var first := EarliestOf(named);
    var earliest := if first.data.name == Some("") then first else r;
    assert forall q :: q in rows && q.data.taskId == task && q.data.name.Some? ==> q in named;
    assert earliest in rows && earliest.data.taskId == task && earliest.data.name == Some("");
  }

  /** For a task whose real names agree, the listing's earliest name is the page's last name, whatever ties
      resolve to, if and only if no empty name comes first: the listing keeps it, the page skips it. */
  lemma EarliestNameIsLastNameIff(rows: seq<Row<TaskEvent>>, task: TaskId, events: seq<Row<TaskEvent>>)
    requires IsTimeline(rows, task, events) && NamesAgree(rows, task)
    ensures (forall name :: IsEarliestName(rows, task, name) ==> LastValue(NameField(), events) == name)
       <==> NoEmptyNameFirst(rows, task)
  {
    TimelineMembers(rows, task, events);
    LastValueFound(NameField(), events);
    var last := LastValue(NameField(), events);
    if NoEmptyNameFirst(rows, task) {
      forall name | IsEarliestName(rows, task, name) ensures last == name {
        RealEarliestNameIsLast(rows, task, events, name);
      }
    } else {
      EmptyNameCanBeEarliest(rows, task);
      assert last != Some("");
    }
  }

  lemma RealEarliestNameIsLast(rows: seq<Row<TaskEvent>>, task: TaskId, events: seq<Row<TaskEvent>>,
                               name: Option<string>)
    requires IsTimeline(rows, task, events) && NamesAgree(rows, task) && NoEmptyNameFirst(rows, task)
    requires IsEarliestName(rows, task, name)
    ensures LastValue(NameField(), events) == name
  {
    TimelineMembers(rows, task, events);
    LastValueFound(NameField(), events);
    if name.Some? {
      var r :| r in rows && r.data.taskId == task && r.data.name == name &&
               forall q :: q in rows && q.data.taskId == task && q.data.name.Some? ==> r.time <= q.time;
      assert NamedRow(r, task) && name != Some("");
      assert r in events && NameField()(r.data) == name;
    }
  }

  /** Task 7 is sent with an empty name and received as "x": the listing resolves the empty name, the page shows x. */
  lemma AnEmptyNameIsListedNotShown()
    ensures var rows := [Row(1, 0, Bare("sent", 7).(name := Some(""))),
                         Row(2, 10, Bare("received", 7).(name := Some("x")))];
            && IsEarliestName(rows, 7, Some("")) && !IsEarliestName(rows, 7, Some("x"))
            && IsTimeline(rows, 7, rows) && LastValue(NameField(), rows) == Some("x")
  {
    var sent, received := Row(1, 0, Bare("sent", 7).(name := Some(""))),
                          Row(2, 10, Bare("received", 7).(name := Some("x")));
    var rows := [sent, received];
    assert rows[0] == sent && rows[1] == received && sent in rows && received in rows;
    FilterAll(Peer(TaskOf(), 7), rows);
    EmptyNameCanBeEarliest(rows, 7);
    assert NameField()(received.data) == Some("x");
  }
}
