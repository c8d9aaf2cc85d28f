/** Offline alerts over one engine lifetime: one alert until the worker is seen again
    (src/taskowl/workflow.py). */
module Alerts {
  import opened Rows
  import opened Events
  import opened Orphans
  import opened Workflow

  /** What happens to the notified set: a worker is heard of, or an offline check runs. */
  datatype Op = Heard(host: string) | Check(sweep: Sweep)

  /** What can be observed: a worker came online, or an alert about it was sent. */
  datatype Signal = Online(host: string) | Alert(host: string)

  function Alerting(): string -> Signal {
    (h: string) => Alert(h)
  }

  function Notified(ops: seq<Op>): set<string> {
    if ops == [] then {}
    else
      var before := Notified(ops[..|ops| - 1]);
      match ops[|ops| - 1]
      case Heard(host) => before - {host}
      case Check(sweep) => before + HostSet(Alerted(before, sweep))
  }

  function Signals(ops: seq<Op>): seq<Signal> {
    if ops == [] then []
    else
      var init := ops[..|ops| - 1];
      match ops[|ops| - 1]
      case Heard(host) => Signals(init) + [Online(host)]
      case Check(sweep) => AndAlerts(Signals(init), Alerted(Notified(init), sweep))
  }

  /** The host was alerted about and has not been heard of since. */
  predicate AlertStands(signals: seq<Signal>, host: string) {
    if signals == [] then false
    else
      var last := signals[|signals| - 1];
      if last.host == host then last.Alert? else AlertStands(signals[..|signals| - 1], host)
  }

  /** No alert repeats while an earlier one stands. */
  predicate Separated(signals: seq<Signal>) {
    signals == [] ||
    var init, last := signals[..|signals| - 1], signals[|signals| - 1];
    Separated(init) && (last.Alert? ==> !AlertStands(init, last.host))
  }

  /** The notified set is exactly the hosts with a standing alert, and no alert has repeated while it stood. */
  ghost predicate Tracks(notified: set<string>, signals: seq<Signal>) {
    && (forall h :: h in notified <==> AlertStands(signals, h))
    && Separated(signals)
  }

  function Is(s: Signal): Signal -> bool {
    (x: Signal) => x == s
  }

  lemma SignalTracks(notified: set<string>, signals: seq<Signal>, s: Signal)
    requires Tracks(notified, signals) && (s.Alert? ==> s.host !in notified)
    ensures Tracks(if s.Alert? then notified + {s.host} else notified - {s.host}, signals + [s])
  {
    assert (signals + [s])[..|signals|] == signals;
  }

  /** The signals so far, followed by one alert for each host. */
  function AndAlerts(signals: seq<Signal>, hosts: seq<string>): seq<Signal> {
    signals + Apply(Alerting(), hosts)
  }

  lemma OneMoreAlert(notified: set<string>, signals: seq<Signal>, before: seq<string>, host: string)
    requires Tracks(notified + HostSet(before), AndAlerts(signals, before))
    requires host !in notified && host !in before
    ensures Tracks(notified + HostSet(before + [host]), AndAlerts(signals, before + [host]))
  {
    SignalTracks(notified + HostSet(before), AndAlerts(signals, before), Alert(host));
    assert notified + HostSet(before + [host]) == notified + HostSet(before) + {host};
    assert AndAlerts(signals, before + [host]) == AndAlerts(signals, before) + [Alert(host)];
  }

  lemma {:induction false} SweepTracks(notified: set<string>, signals: seq<Signal>, sweep: Sweep, n: nat)
    requires Tracks(notified, signals) && n <= |sweep.hosts|
    ensures var alerted := NewlyStale(notified, sweep, n);
            Tracks(notified + HostSet(alerted), AndAlerts(signals, alerted))
  {
    if n == 0 {
      assert AndAlerts(signals, []) == signals;
      assert notified + HostSet([]) == notified;
    } else {
      SweepTracks(notified, signals, sweep, n - 1);
      var before, host := NewlyStale(notified, sweep, n - 1), sweep.hosts[n - 1];
      if host !in notified && host !in before && Stale(sweep, host) {
        OneMoreAlert(notified, signals, before, host);
      }
    }
  }

  lemma {:induction false} NotifiedTracksSignals(ops: seq<Op>)
    ensures Tracks(Notified(ops), Signals(ops))
  {
    if ops != [] {
      var init := ops[..|ops| - 1];
      NotifiedTracksSignals(init);
      match ops[|ops| - 1]
      case Heard(host) => SignalTracks(Notified(init), Signals(init), Online(host));
      case Check(sweep) =>
        if sweep.hasUrl {
          SweepTracks(Notified(init), Signals(init), sweep, |sweep.hosts|);
        } else {
          assert Signals(ops) == Signals(init);
          assert Notified(ops) == Notified(init);
        }
    }
  }

  lemma {:induction false} FallenAlertWasAnswered(signals: seq<Signal>, i: nat, host: string)
    requires i < |signals| && signals[i] == Alert(host) && !AlertStands(signals, host)
    ensures Online(host) in signals[i..]
  {
    var init, last := signals[..|signals| - 1], signals[|signals| - 1];
    assert signals[i..] == init[i..] + [last];
    if last != Online(host) {
      FallenAlertWasAnswered(init, i, host);
    }
  }

  lemma {:induction false} SeparatedAt(signals: seq<Signal>, j: nat)
    requires Separated(signals) && j < |signals| && signals[j].Alert?
    ensures !AlertStands(signals[..j], signals[j].host)
  {
    if j < |signals| - 1 {
      SeparatedAt(signals[..|signals| - 1], j);
      assert signals[..|signals| - 1][..j] == signals[..j];
    }
  }

  /** Within one engine lifetime, whatever is heard and checked: between any two alerts about a host
      it was heard of. */
  lemma AlertsAreSeparatedByRecovery(ops: seq<Op>, i: nat, j: nat, host: string)
    requires i < j < |Signals(ops)| && Signals(ops)[i] == Signals(ops)[j] == Alert(host)
    ensures Online(host) in Signals(ops)[i..j]
  {
    NotifiedTracksSignals(ops);
    SeparatedAt(Signals(ops), j);
    FallenAlertWasAnswered(Signals(ops)[..j], i, host);
    assert Signals(ops)[..j][i..] == Signals(ops)[i..j];
  }

  lemma {:induction false} SeparatedCount(signals: seq<Signal>, host: string)
    requires Separated(signals)
    ensures |Filter(Is(Alert(host)), signals)|
         <= |Filter(Is(Online(host)), signals)| + if AlertStands(signals, host) then 1 else 0
  {
    if signals != [] {
      var init, last := signals[..|signals| - 1], signals[|signals| - 1];
      assert signals == init + [last];
      FilterAppend(Is(Alert(host)), init, last);
      FilterAppend(Is(Online(host)), init, last);
      SeparatedCount(init, host);
    }
  }

  /** So a host is alerted about at most once more than it is heard of. */
  lemma AlertsAreBounded(ops: seq<Op>, host: string)
    ensures |Filter(Is(Alert(host)), Signals(ops))| <= |Filter(Is(Online(host)), Signals(ops))| + 1
  {
    NotifiedTracksSignals(ops);
    SeparatedCount(Signals(ops), host);
  }

  /** The sweep lists every host of the table it read. */
  ghost predicate Lists(sweep: Sweep, workers: seq<Row<WorkerEvent>>) {
    forall r :: r in workers ==> r.data.hostname in sweep.hosts
  }

  /** A check alerts about exactly the stale hosts not notified before, each once. */
  lemma {:induction false} AlertsExactlyTheNewlyStale(notified: set<string>, sweep: Sweep, n: nat)
    requires n <= |sweep.hosts|
    ensures forall h :: h in NewlyStale(notified, sweep, n) <==>
              h in sweep.hosts[..n] && h !in notified && Stale(sweep, h)
    ensures NoRepeats(NewlyStale(notified, sweep, n))
  {
    if n > 0 {
      AlertsExactlyTheNewlyStale(notified, sweep, n - 1);
      assert sweep.hosts[..n] == sweep.hosts[..n - 1] + [sweep.hosts[n - 1]];
    }
  }

  /** After a check with a webhook, every known host is either notified or fresh by its own query's answer:
      a host whose rows vanish between the queries is stale, and so notified. */
  lemma AfterACheckEveryHostIsFreshOrNotified(ops: seq<Op>, sweep: Sweep, workers: seq<Row<WorkerEvent>>, host: string)
    requires sweep.hasUrl && Lists(sweep, workers) && exists r :: r in workers && r.data.hostname == host
    ensures host in Notified(ops + [Check(sweep)])
         || (host in sweep.latest && !Offline(Some(sweep.latest[host]), sweep.now, sweep.timeoutSeconds))
  {
    assert (ops + [Check(sweep)])[..|ops|] == ops;
    AlertsExactlyTheNewlyStale(Notified(ops), sweep, |sweep.hosts|);
    assert sweep.hosts[..|sweep.hosts|] == sweep.hosts;
  }
}
