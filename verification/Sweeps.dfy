/** Offline checks that overlap: each awaits the row of one host at a time, so other checks and the hosts' own
    messages come in between (src/taskowl/workflow.py). */
module Sweeps {
  import opened Rows
  import opened Workflow
  import opened Alerts

  /** A check on its way: the host it has got to, and whether it is awaiting that host's row. */
  datatype Flight = Flight(sweep: Sweep, next: nat, awaiting: bool)

  datatype Fleet = Fleet(notified: set<string>, signals: seq<Signal>, flights: seq<Flight>)

  /** A host is heard of, a check starts, a check looks whether its next host is notified, or it learns that
      host's row. */
  datatype Event = Hear(host: string) | Start(sweep: Sweep) | Look(flight: nat) | Learn(flight: nat)

  predicate Flying(f: Fleet, i: nat) {
    i < |f.flights| && f.flights[i].next < |f.flights[i].sweep.hosts|
  }

  function NextHost(f: Fleet, i: nat): string
    requires Flying(f, i)
  {
    f.flights[i].sweep.hosts[f.flights[i].next]
  }

  function PassOver(flight: Flight): Flight {
    flight.(next := flight.next + 1, awaiting := false)
  }

  /** A check without a webhook URL ends with an error and looks at no host. */
  function Happen(f: Fleet, e: Event): Fleet {
    match e
    case Hear(host) => f.(notified := f.notified - {host}, signals := f.signals + [Online(host)])
    case Start(sweep) => if sweep.hasUrl then f.(flights := f.flights + [Flight(sweep, 0, false)]) else f
    case Look(i) =>
      if Flying(f, i) && !f.flights[i].awaiting then
        if NextHost(f, i) in f.notified then f.(flights := f.flights[i := PassOver(f.flights[i])])
        else f.(flights := f.flights[i := f.flights[i].(awaiting := true)])
      else f
    case Learn(i) =>
      if Flying(f, i) && f.flights[i].awaiting then
        var host, flights := NextHost(f, i), f.flights[i := PassOver(f.flights[i])];
        if Stale(f.flights[i].sweep, host) then Fleet(f.notified + {host}, f.signals + [Alert(host)], flights)
        else f.(flights := flights)
      else f
  }

  function AfterEvents(events: seq<Event>): Fleet {
    if events == [] then Fleet({}, [], [])
    else Happen(AfterEvents(events[..|events| - 1]), events[|events| - 1])
  }

  // ------------------------------------------------- how often a host can be alerted about

  function Awaits(host: string): Flight -> bool {
    (x: Flight) => x.awaiting && x.next < |x.sweep.hosts| && x.sweep.hosts[x.next] == host
  }

  /** How many checks are awaiting the host's row. */
  function Awaiting(f: Fleet, host: string): nat {
    |Filter(Awaits(host), f.flights)|
  }

  function AlertsOf(f: Fleet, host: string): nat {
    |Filter(Is(Alert(host)), f.signals)|
  }

  function TimesHeard(f: Fleet, host: string): nat {
    |Filter(Is(Online(host)), f.signals)|
  }

  /** At no time do more than k checks await the host's row together. */
  ghost predicate AtMostTogether(events: seq<Event>, host: string, k: nat) {
    forall i :: 0 <= i <= |events| ==> Awaiting(AfterEvents(events[..i]), host) <= k
  }

  /** What the alerts sent leave to be sent: while a host is notified, only checks already awaiting it can alert. */
  ghost predicate WithinBound(f: Fleet, host: string, k: nat) {
    AlertsOf(f, host) + (if host in f.notified then Awaiting(f, host) else 0)
      <= k * (TimesHeard(f, host) + if host in f.notified then 1 else 0)
  }

  lemma HearKeepsBound(f: Fleet, host: string, k: nat, other: string)
    requires WithinBound(f, host, k)
    ensures WithinBound(Happen(f, Hear(other)), host, k)
  {
    FilterAppend(Is(Alert(host)), f.signals, Online(other));
    FilterAppend(Is(Online(host)), f.signals, Online(other));
    assert k * TimesHeard(f, host) <= k * (TimesHeard(f, host) + 1);
  }

  lemma StartKeepsBound(f: Fleet, host: string, k: nat, sweep: Sweep)
    requires WithinBound(f, host, k)
    ensures WithinBound(Happen(f, Start(sweep)), host, k)
  {
    FilterAppend(Awaits(host), f.flights, Flight(sweep, 0, false));
  }

  lemma LookKeepsBound(f: Fleet, host: string, k: nat, i: nat)
    requires WithinBound(f, host, k)
    ensures WithinBound(Happen(f, Look(i)), host, k)
  {
    if Flying(f, i) && !f.flights[i].awaiting {
      FilterUpdated(Awaits(host), f.flights, i, PassOver(f.flights[i]));
      FilterUpdated(Awaits(host), f.flights, i, f.flights[i].(awaiting := true));
    }
  }

  lemma LearnKeepsBound(f: Fleet, host: string, k: nat, i: nat)
    requires WithinBound(f, host, k) && Awaiting(f, host) <= k
    ensures WithinBound(Happen(f, Learn(i)), host, k)
  {
    if Flying(f, i) && f.flights[i].awaiting {
      FilterUpdated(Awaits(host), f.flights, i, PassOver(f.flights[i]));
      FilterAppend(Is(Alert(host)), f.signals, Alert(NextHost(f, i)));
      FilterAppend(Is(Online(host)), f.signals, Alert(NextHost(f, i)));
      assert k * (TimesHeard(f, host) + 1) == k * TimesHeard(f, host) + k;
    }
  }

  lemma FirstEventsTogether(events: seq<Event>, host: string, k: nat, n: nat)
    requires AtMostTogether(events, host, k) && n <= |events|
    ensures AtMostTogether(events[..n], host, k) && Awaiting(AfterEvents(events[..n]), host) <= k
  {
    forall i | 0 <= i <= n ensures Awaiting(AfterEvents(events[..n][..i]), host) <= k {
      assert events[..n][..i] == events[..i];
    }
  }

  lemma {:induction false} EventsKeepBound(events: seq<Event>, host: string, k: nat)
    requires AtMostTogether(events, host, k)
    ensures WithinBound(AfterEvents(events), host, k)
  {
    if events != [] {
      var n := |events| - 1;
      FirstEventsTogether(events, host, k, n);
      EventsKeepBound(events[..n], host, k);
      match events[n]
      case Hear(other) => HearKeepsBound(AfterEvents(events[..n]), host, k, other);
      case Start(sweep) => StartKeepsBound(AfterEvents(events[..n]), host, k, sweep);
      case Look(i) => LookKeepsBound(AfterEvents(events[..n]), host, k, i);
      case Learn(i) => LearnKeepsBound(AfterEvents(events[..n]), host, k, i);
    }
  }

  /** If at most k checks ever await a host's row together, it is alerted about at most k times more often than
      once more than it is heard of; with one at a time that is the bound of checks that do not overlap. */
  lemma OverlappingAlertsAreBounded(events: seq<Event>, host: string, k: nat)
    requires AtMostTogether(events, host, k)
    ensures AlertsOf(AfterEvents(events), host) <= k * (TimesHeard(AfterEvents(events), host) + 1)
  {
    EventsKeepBound(events, host, k);
    assert k * TimesHeard(AfterEvents(events), host) <= k * (TimesHeard(AfterEvents(events), host) + 1);
  }

  // ------------------------------------------------- a run that reaches the bound

  /** A check of one host without rows. */
  function Lone(host: string): Sweep {
    Sweep(true, 0, 0, [host], map[])
  }

  ghost predicate AllLone(f: Fleet, host: string) {
    forall x :: x in f.flights ==> x.sweep == Lone(host)
  }

  /** A run so far: the host is heard of `heard` times and alerted about `alerts` times. */
  ghost predicate Counts(events: seq<Event>, host: string, k: nat, waiting: nat, heard: nat, alerts: nat) {
    var f := AfterEvents(events);
    && AtMostTogether(events, host, k) && AllLone(f, host)
    && Awaiting(f, host) == waiting && TimesHeard(f, host) == heard && AlertsOf(f, host) == alerts
  }

  lemma OneMoreEvent(events: seq<Event>, e: Event, host: string, k: nat) returns (more: seq<Event>)
    requires AtMostTogether(events, host, k) && Awaiting(Happen(AfterEvents(events), e), host) <= k
    ensures AtMostTogether(more, host, k) && AfterEvents(more) == Happen(AfterEvents(events), e)
  {
    more := events + [e];
    assert more[..|events|] == events;
    forall i | 0 <= i <= |more| ensures Awaiting(AfterEvents(more[..i]), host) <= k {
      if i <= |events| {
        assert more[..i] == events[..i];
      } else {
        assert more[..i] == more;
      }
    }
  }

  /** One check more starts and looks at the host, which is not notified. */
  lemma OneMoreAwaits(events: seq<Event>, host: string, k: nat, waiting: nat, heard: nat, alerts: nat)
    returns (more: seq<Event>)
    requires Counts(events, host, k, waiting, heard, alerts) && waiting < k && host !in AfterEvents(events).notified
    ensures Counts(more, host, k, waiting + 1, heard, alerts) && host !in AfterEvents(more).notified
  {
    var f := AfterEvents(events);
    var n := |f.flights|;
    FilterAppend(Awaits(host), f.flights, Flight(Lone(host), 0, false));
    more := OneMoreEvent(events, Start(Lone(host)), host, k);
    FilterUpdated(Awaits(host), AfterEvents(more).flights, n, Flight(Lone(host), 0, true));
    more := OneMoreEvent(more, Look(n), host, k);
  }

  lemma {:induction false} AllAwait(events: seq<Event>, host: string, k: nat, n: nat, heard: nat, alerts: nat)
    returns (more: seq<Event>)
    requires Counts(events, host, k, 0, heard, alerts) && n <= k && host !in AfterEvents(events).notified
    ensures Counts(more, host, k, n, heard, alerts) && host !in AfterEvents(more).notified
  {
    if n == 0 {
      more := events;
    } else {
      more := AllAwait(events, host, k, n - 1, heard, alerts);
      more := OneMoreAwaits(more, host, k, n - 1, heard, alerts);
    }
  }

  lemma LearningAlerts(f: Fleet, host: string, i: nat)
    requires AllLone(f, host) && i < |f.flights| && Awaits(host)(f.flights[i])
    ensures var g := Happen(f, Learn(i));
            && AllLone(g, host) && Awaiting(g, host) == Awaiting(f, host) - 1
            && TimesHeard(g, host) == TimesHeard(f, host) && AlertsOf(g, host) == AlertsOf(f, host) + 1
  {
    FilterUpdated(Awaits(host), f.flights, i, PassOver(f.flights[i]));
    FilterAppend(Is(Alert(host)), f.signals, Alert(host));
    FilterAppend(Is(Online(host)), f.signals, Alert(host));
    assert Stale(f.flights[i].sweep, host);
  }

  /** One of the awaiting checks learns that the host has no rows, and alerts. */
  lemma OneMoreLearns(events: seq<Event>, host: string, k: nat, waiting: nat, heard: nat, alerts: nat)
    returns (more: seq<Event>)
    requires Counts(events, host, k, waiting, heard, alerts) && waiting > 0
    ensures Counts(more, host, k, waiting - 1, heard, alerts + 1)
  {
    var f := AfterEvents(events);
    FilterMember(Awaits(host), f.flights);
    var i :| 0 <= i < |f.flights| && f.flights[i] == Filter(Awaits(host), f.flights)[0];
    LearningAlerts(f, host, i);
    assert events[..|events|] == events;
    more := OneMoreEvent(events, Learn(i), host, k);
  }

  lemma {:induction false} AllLearn(events: seq<Event>, host: string, k: nat, waiting: nat, heard: nat, alerts: nat)
    returns (more: seq<Event>)
    requires Counts(events, host, k, waiting, heard, alerts)
    ensures Counts(more, host, k, 0, heard, alerts + waiting)
    decreases waiting
  {
    if waiting == 0 {
      more := events;
    } else {
      more := OneMoreLearns(events, host, k, waiting, heard, alerts);
      more := AllLearn(more, host, k, waiting - 1, heard, alerts + 1);
    }
  }

  lemma HeardOnceMore(events: seq<Event>, host: string, k: nat, heard: nat, alerts: nat) returns (more: seq<Event>)
    requires Counts(events, host, k, 0, heard, alerts)
    ensures Counts(more, host, k, 0, heard + 1, alerts) && host !in AfterEvents(more).notified
  {
    var f := AfterEvents(events);
    FilterAppend(Is(Alert(host)), f.signals, Online(host));
    FilterAppend(Is(Online(host)), f.signals, Online(host));
    more := OneMoreEvent(events, Hear(host), host, k);
  }

  /** And the bound is reached: by k checks that await the host together, after each time it is heard of. */
  lemma {:induction false} OverlappingAlertsReachTheBound(host: string, k: nat, heard: nat) returns (events: seq<Event>)
    ensures AtMostTogether(events, host, k) && TimesHeard(AfterEvents(events), host) == heard
    ensures AlertsOf(AfterEvents(events), host) == k * (heard + 1)
    ensures AllLone(AfterEvents(events), host) && Awaiting(AfterEvents(events), host) == 0
  {
    if heard == 0 {
      events := [];
    } else {
      events := OverlappingAlertsReachTheBound(host, k, heard - 1);
      events := HeardOnceMore(events, host, k, heard - 1, k * heard);
      assert k * (heard + 1) == k * heard + k;
    }
    events := AllAwait(events, host, k, k, heard, k * heard);
    events := AllLearn(events, host, k, k, heard, k * heard);
  }

  // ------------------------------------------------- a check that nothing overlaps

  /** A check looks at its next host and learns its row with nothing in between. */
  function Visit(f: Fleet, i: nat): Fleet {
    Happen(Happen(f, Look(i)), Learn(i))
  }

  function Undisturbed(f: Fleet, i: nat, n: nat): Fleet {
    if n == 0 then f else Visit(Undisturbed(f, i, n - 1), i)
  }

  lemma LookAndLearn(f: Fleet, i: nat)
    requires Flying(f, i) && !f.flights[i].awaiting
    ensures var host, flights := NextHost(f, i), f.flights[i := PassOver(f.flights[i])];
            Visit(f, i)
              == if host !in f.notified && Stale(f.flights[i].sweep, host)
                 then Fleet(f.notified + {host}, f.signals + [Alert(host)], flights) else f.(flights := flights)
  {
    var looked := f.flights[i].(awaiting := true);
    assert f.flights[i := looked][i := PassOver(looked)] == f.flights[i := PassOver(f.flights[i])];
  }

  /** The fleet when a check has got to its n-th host and alerted about some. */
  function Got(f: Fleet, sweep: Sweep, alerted: seq<string>, n: nat): Fleet {
    Fleet(f.notified + HostSet(alerted), AndAlerts(f.signals, alerted), f.flights + [Flight(sweep, n, false)])
  }

  lemma OneMoreHost(f: Fleet, sweep: Sweep, alerted: seq<string>, n: nat, host: string)
    requires n < |sweep.hosts| && host == sweep.hosts[n]
    ensures Visit(Got(f, sweep, alerted, n), |f.flights|)
         == if host !in f.notified && host !in alerted && Stale(sweep, host)
            then Got(f, sweep, alerted + [host], n + 1) else Got(f, sweep, alerted, n + 1)
  {
    LookAndLearn(Got(f, sweep, alerted, n), |f.flights|);
    var flights := f.flights + [Flight(sweep, n, false)];
    assert flights[|f.flights| := Flight(sweep, n + 1, false)] == f.flights + [Flight(sweep, n + 1, false)];
    assert f.notified + HostSet(alerted + [host]) == f.notified + HostSet(alerted) + {host};
    assert AndAlerts(f.signals, alerted + [host]) == AndAlerts(f.signals, alerted) + [Alert(host)];
  }

  lemma VisitGets(f: Fleet, sweep: Sweep, n: nat, before: Fleet, after: Fleet)
    requires 0 < n <= |sweep.hosts| && before == Got(f, sweep, NewlyStale(f.notified, sweep, n - 1), n - 1)
    requires after == Visit(before, |f.flights|)
    ensures after == Got(f, sweep, NewlyStale(f.notified, sweep, n), n)
  {
    OneMoreHost(f, sweep, NewlyStale(f.notified, sweep, n - 1), n - 1, sweep.hosts[n - 1]);
  }

  lemma {:induction false} UndisturbedGets(f: Fleet, sweep: Sweep, n: nat)
    requires n <= |sweep.hosts|
    ensures Undisturbed(Got(f, sweep, [], 0), |f.flights|, n) == Got(f, sweep, NewlyStale(f.notified, sweep, n), n)
  {
    if n > 0 {
      UndisturbedGets(f, sweep, n - 1);
      var start, i := Got(f, sweep, [], 0), |f.flights|;
      VisitGets(f, sweep, n, Undisturbed(start, i, n - 1), Undisturbed(start, i, n));
    }
  }

  lemma NothingToVisit(f: Fleet, i: nat)
    requires i == |f.flights|
    ensures Visit(f, i) == f
  {
  }

  lemma {:induction false} NothingFlies(f: Fleet, i: nat, n: nat)
    requires i == |f.flights|
    ensures Undisturbed(f, i, n) == f
  {
    if n > 0 {
      NothingFlies(f, i, n - 1);
      NothingToVisit(f, i);
    }
  }

  /** It does what the atomic check does: alerts and notifies exactly the newly stale hosts, and nothing without a
      webhook. */
  lemma UndisturbedIsAtomic(f: Fleet, sweep: Sweep)
    ensures var after := Undisturbed(Happen(f, Start(sweep)), |f.flights|, |sweep.hosts|);
            && after.notified == f.notified + HostSet(Alerted(f.notified, sweep))
            && after.signals == AndAlerts(f.signals, Alerted(f.notified, sweep))
  {
    assert AndAlerts(f.signals, []) == f.signals;
    assert f.notified + HostSet([]) == f.notified;
    if sweep.hasUrl {
      assert Happen(f, Start(sweep)) == Got(f, sweep, [], 0);
      UndisturbedGets(f, sweep, |sweep.hosts|);
    } else {
      NothingFlies(f, |f.flights|, |sweep.hosts|);
    }
  }
}
