/** The engine's evaluations as interleaved moves: each turn opens at a clock, asks its four queries one at a time,
    and commits; moves of different turns come in any order. */
module Interleaving {
  import opened Rows
  import opened Workflow
  import opened FireTimes
  import opened RunLimits
  import opened Overtaking

  /** One automation's turn: its clock, and how many runs were committed when each query so far was asked. */
  datatype Turn = Turn(automation: Automation, now: int, seen: seq<nat>, closed: bool)

  datatype Move =
    | Open(automation: Automation, now: int)
    | Ask(turn: nat)
    | Commit(turn: nat, stamp: int, passed: bool, outcome: seq<string>)

  /** The committed log, the clock each of its rows was decided at, and the turns. */
  datatype Engine = Engine(log: RunLog, clocks: seq<int>, turns: seq<Turn>)

  /** What a turn decides from what its queries returned. */
  function Decision(log: seq<Row<Run>>, a: Automation, now: int, m: Reads): Option<Skip>
    requires m.breaker <= |log| && m.cooldown <= |log| && m.cap <= |log|
  {
    if BreakerReached(log[..m.breaker], a, now) then Some(CircuitOpen)
    else if Cooling(log[..m.cooldown], a, now) then Some(Cooldown)
    else if CapReached(log[..m.cap], a, now) then Some(RateLimited)
    else None
  }

  predicate Answered(e: Engine, t: Turn) {
    && |t.seen| == 4 && !t.closed
    && t.seen[0] <= t.seen[1] <= t.seen[2] <= t.seen[3] <= |e.log.rows|
  }

  function ReadsOf(t: Turn): Reads
    requires |t.seen| == 4
  {
    Reads(t.seen[0], t.seen[1], t.seen[2], t.seen[3])
  }

  function RunOf(e: Engine, t: Turn, passed: bool, outcome: seq<string>): Run
    requires Answered(e, t)
  {
    var skipped := if passed then Decision(e.log.rows, t.automation, t.now, ReadsOf(t)) else None;
    Run(t.automation.id, TriggerName(t.automation), passed,
        if passed && skipped.None? then Some(outcome) else None, skipped)
  }

  function Play(e: Engine, move: Move): Engine {
    match move
    case Open(a, now) => e.(turns := e.turns + [Turn(a, now, [], false)])
    case Ask(i) =>
      if i < |e.turns| && |e.turns[i].seen| < 4
      then e.(turns := e.turns[i := e.turns[i].(seen := e.turns[i].seen + [|e.log.rows|])]) else e
    case Commit(i, stamp, passed, outcome) =>
      if i < |e.turns| && Answered(e, e.turns[i]) then
        var t := e.turns[i];
        var closed := e.turns[i := t.(closed := true)];
        if Due(e.log.rows[..t.seen[0]], t.automation, t.now)
        then Engine(Append(e.log, stamp, RunOf(e, t, passed, outcome)), e.clocks + [t.now], closed)
        else e.(turns := closed)
      else e
  }

  function PlayAll(moves: seq<Move>): Engine {
    if moves == [] then Engine(Empty(), [], [])
    else Play(PlayAll(moves[..|moves| - 1]), moves[|moves| - 1])
  }

  /** A commit of the automation's turns comes after at most `overlap` fires of its own since the turn's first
      query, and stamps its row at most `lag` before the turn's clock. */
  ghost predicate CommitInTime(e: Engine, move: Move, a: Automation, overlap: nat, lag: nat) {
    move.Commit? && move.turn < |e.turns| && Answered(e, e.turns[move.turn]) ==>
      var t := e.turns[move.turn];
      t.automation.id == a.id ==>
        OwnFires(e.log.rows, a, t.seen[0], |e.log.rows|) <= overlap && move.stamp >= t.now - lag
  }

  ghost predicate OvertakenBy(moves: seq<Move>, a: Automation, overlap: nat, lag: nat) {
    forall i :: 0 <= i < |moves| ==> CommitInTime(PlayAll(moves[..i]), moves[i], a, overlap, lag)
  }

  ghost predicate OneSetting(moves: seq<Move>, a: Automation) {
    forall m :: m in moves && m.Open? && m.automation.id == a.id ==> m.automation == a
  }

  ghost predicate TurnsOf(turns: seq<Turn>, a: Automation) {
    forall t :: t in turns && t.automation.id == a.id ==> t.automation == a
  }

  lemma CommitIsOvertaken(e: Engine, a: Automation, t: Turn, stamp: int, passed: bool, outcome: seq<string>,
                          overlap: nat, lag: nat)
    requires Overtaken(e.log.rows, a, e.clocks, overlap, lag) && Answered(e, t)
    requires t.automation.id == a.id ==> t.automation == a
    requires Due(e.log.rows[..t.seen[0]], t.automation, t.now)
    requires t.automation.id == a.id ==>
               OwnFires(e.log.rows, a, t.seen[0], |e.log.rows|) <= overlap && stamp >= t.now - lag
    ensures Overtaken(Append(e.log, stamp, RunOf(e, t, passed, outcome)).rows, a, e.clocks + [t.now], overlap, lag)
  {
    var r := Row(e.log.next, stamp, RunOf(e, t, passed, outcome));
    OvertakenAppend(e.log.rows, a, e.clocks, overlap, lag, r, t.now, ReadsOf(t));
  }

  /** Whatever the interleaving: if at most `overlap` fires of an automation are ever committed between the first
      query and the commit of one of its turns, every fire was decided with at most that many overtaking it, so the
      bounds above apply. */
  lemma {:induction false} InterleavedRunsAreOvertaken(moves: seq<Move>, a: Automation, overlap: nat, lag: nat)
    requires OvertakenBy(moves, a, overlap, lag) && OneSetting(moves, a)
    ensures Overtaken(PlayAll(moves).log.rows, a, PlayAll(moves).clocks, overlap, lag)
    ensures TurnsOf(PlayAll(moves).turns, a)
  {
    if moves != [] {
      var init, last := moves[..|moves| - 1], moves[|moves| - 1];
      var e := PlayAll(init);
      forall i | 0 <= i < |init| ensures CommitInTime(PlayAll(init[..i]), init[i], a, overlap, lag) {
        assert init[..i] == moves[..i];
        assert CommitInTime(PlayAll(moves[..i]), moves[i], a, overlap, lag);
      }
      assert last in moves;
      InterleavedRunsAreOvertaken(init, a, overlap, lag);
      if last.Commit? && last.turn < |e.turns| && Answered(e, e.turns[last.turn]) {
        var t := e.turns[last.turn];
        assert t in e.turns && CommitInTime(PlayAll(moves[..|init|]), moves[|init|], a, overlap, lag);
        if Due(e.log.rows[..t.seen[0]], t.automation, t.now) {
          CommitIsOvertaken(e, a, t, last.stamp, last.passed, last.outcome, overlap, lag);
        }
      }
      TurnsStay(e, last, a);
    }
  }

  lemma TurnsStay(e: Engine, move: Move, a: Automation)
    requires TurnsOf(e.turns, a) && (move.Open? && move.automation.id == a.id ==> move.automation == a)
    ensures TurnsOf(Play(e, move).turns, a)
  {
    var turns := Play(e, move).turns;
    forall t | t in turns && t.automation.id == a.id ensures t.automation == a {
      var i :| 0 <= i < |turns| && turns[i] == t;
      assert i < |e.turns| ==> e.turns[i] in e.turns && e.turns[i].automation == t.automation;
    }
  }

  /** So the cap and the breaker hold up to the overlap over every interleaving. */
  lemma InterleavedCap(moves: seq<Move>, a: Automation, overlap: nat, lag: nat, lo: int)
    requires OvertakenBy(moves, a, overlap, lag) && OneSetting(moves, a) && CapInForce(a)
    ensures FiresBetween(PlayAll(moves).log.rows, a.id, lo, CapSpan(a) - lag) <= Positive(Cap(a)) + overlap
  {
    InterleavedRunsAreOvertaken(moves, a, overlap, lag);
    OvertakenCap(PlayAll(moves).log.rows, a, PlayAll(moves).clocks, overlap, lag, lo);
  }

  lemma InterleavedBreaker(moves: seq<Move>, a: Automation, overlap: nat, lag: nat, lo: int)
    requires OvertakenBy(moves, a, overlap, lag) && OneSetting(moves, a) && BreakerInForce(a)
    ensures FiresBetween(PlayAll(moves).log.rows, a.id, lo, BreakerSpan(a) - lag) <= Positive(Threshold(a)) + overlap
  {
    InterleavedRunsAreOvertaken(moves, a, overlap, lag);
    OvertakenBreaker(PlayAll(moves).log.rows, a, PlayAll(moves).clocks, overlap, lag, lo);
  }

  function Closed(): Turn -> bool {
    (t: Turn) => t.closed
  }

  lemma CommitClosesOne(e: Engine, move: Move)
    requires |e.log.rows| <= |Filter(Closed(), e.turns)|
    ensures |Play(e, move).log.rows| <= |Filter(Closed(), Play(e, move).turns)|
  {
    match move
    case Open(a, now) => FilterAppend(Closed(), e.turns, Turn(a, now, [], false));
    case Ask(i) =>
      if i < |e.turns| {
        FilterUpdated(Closed(), e.turns, i, e.turns[i].(seen := e.turns[i].seen + [|e.log.rows|]));
      }
    case Commit(i, _, _, _) =>
      if i < |e.turns| {
        FilterUpdated(Closed(), e.turns, i, e.turns[i].(closed := true));
      }
  }

  /** A turn commits at most one run, however often the moves ask it to. */
  lemma {:induction false} TurnsCommitOnce(moves: seq<Move>)
    ensures |PlayAll(moves).log.rows| <= |Filter(Closed(), PlayAll(moves).turns)| <= |PlayAll(moves).turns|
  {
    if moves != [] {
      TurnsCommitOnce(moves[..|moves| - 1]);
      CommitClosesOne(PlayAll(moves[..|moves| - 1]), moves[|moves| - 1]);
    }
    FilterMember(Closed(), PlayAll(moves).turns);
  }
}
