/** Exactly when a run retention is too short: for settings that may have been edited, and for settings that
    have always been the same. */
module ShortRetention {
  import opened Rows
  import opened Retention
  import opened Workflow
  import opened Invisible
  import opened RunLimits
  import opened FireTimes

  /** Evaluations only, in time order, with stamps equal to their clocks. */
  ghost predicate Orderly(steps: seq<Step>) {
    (forall i :: 0 <= i < |steps| ==> steps[i].Evaluate?) && ClocksNeverBack(steps) && Punctual(steps)
  }

  /** A prune at the very moment of an evaluation. */
  lemma AfterALatePrune(before: seq<Step>, now: int, days: int)
    requires Orderly(before)
    ensures var full := Execute(Empty(), before, 0);
            && Execute(Empty(), before + [Prune(now)], 0) == full
            && Execute(Empty(), before + [Prune(now)], days) == full.(rows := Pruned(full.rows, now, days))
  {
    OneMoreDecision(Empty(), before, Prune(now), 0);
    OneMoreDecision(Empty(), before, Prune(now), days);
    EvaluationsIgnoreRetention(Empty(), before, days);
  }

  // ------------------------------------------------- settings that may have been edited

  const EVENT_TYPES := [
    "task-sent", "task-received", "task-started", "task-succeeded", "task-failed", "task-revoked", "task-retried",
    "task-rejected", "worker-online", "worker-heartbeat", "worker-offline"]

  /** What creating or updating an automation accepts, event types included. */
  predicate ValidDefinition(a: Automation) {
    Validated(a) && (a.trigger.OnEvent? ==> a.trigger.eventType in EVENT_TYPES)
  }

  /** An evaluation after any others, of automations with any valid settings, its own id included. */
  ghost predicate Follows(before: seq<Step>, e: Step, a: Automation) {
    && e.Evaluate? && e.automation == a && Orderly(before + [e])
    && forall i :: 0 <= i < |before| && before[i].Evaluate? ==> ValidDefinition(before[i].automation)
  }

  /** A prune just before any such evaluation changes nothing it records. */
  ghost predicate LatePrunesGoUnnoticed(a: Automation, days: int) {
    forall before: seq<Step>, e: Step :: Follows(before, e, a) ==>
      Recorded(Execute(Empty(), before + [Prune(e.now)], days), e)
        == Recorded(Execute(Empty(), before + [Prune(e.now)], 0), e)
  }

  /** The same automation before any limit was set on it. */
  function Unlimited(a: Automation): Automation {
    Automation(a.id, true, OnEvent("task-failed"), None, None, None, None)
  }

  function Burst(a: Automation, n: nat): seq<Step> {
    seq(n, i => Evaluate(Unlimited(a), 0, 0, true, []))
  }

  ghost predicate FiredAtOnce(log: seq<Row<Run>>, a: Automation, n: nat) {
    |log| == n && forall r :: r in log ==> r.time == 0 && FiredBy(a.id)(r)
  }

  lemma {:induction false} BurstFires(a: Automation, n: nat)
    ensures FiredAtOnce(Execute(Empty(), Burst(a, n), 0).rows, a, n)
  {
    if n > 0 {
      BurstFires(a, n - 1);
      assert Burst(a, n)[..n - 1] == Burst(a, n - 1);
    }
  }

  /** Enough fires to reach every limit. */
  function BurstSize(a: Automation): nat {
    1 + (if CapInForce(a) then Positive(a.maxRunsPerWindow.value) else 0)
      + (if BreakerInForce(a) then Positive(Threshold(a)) else 0)
  }

  /** Limits and retentions are whole seconds apart. */
  lemma WholeSeconds(days: int, limitSeconds: int)
    requires days > 0 && !Covers(days, limitSeconds)
    ensures limitSeconds * SECOND > days * DAY + 1
  {
    assert days * DAY == (days * 86_400) * SECOND;
    assert limitSeconds > days * 86_400;
  }

  lemma BurstInWindow(log: seq<Row<Run>>, a: Automation, windowSeconds: int, now: int)
    requires FiredAtOnce(log, a, BurstSize(a)) && now <= windowSeconds * SECOND
    ensures CountFiredInWindow(log, a.id, windowSeconds, now) == BurstSize(a)
  {
    FilterAll(FiredSince(a.id, now - windowSeconds * SECOND), log);
  }

  lemma BurstIsLast(log: seq<Row<Run>>, a: Automation)
    requires FiredAtOnce(log, a, BurstSize(a))
    ensures LastFireTime(log, a.id) == Some(0) && LastRunTime(log, a.id) == Some(0)
  {
    FilterAll(FiredBy(a.id), log);
    FilterAll(RunBy(a.id), log);
    assert log[0] in log;
  }

  /** A burst just out of reach of the retention is still in reach of the limit it is too short for. */
  lemma BurstIsInReach(log: seq<Row<Run>>, a: Automation, days: int)
    requires FiredAtOnce(log, a, BurstSize(a)) && days > 0
    ensures var now := days * DAY + 1;
            && (!CoversBreaker(a, days) ==> BreakerReached(log, a, now))
            && (!CoversCooldown(a, days) ==> Cooling(log, a, now))
            && (!CoversCap(a, days) ==> CapReached(log, a, now))
            && (!CoversSchedule(a, days) ==> !Due(log, a, now))
  {
    var now := days * DAY + 1;
    BurstIsLast(log, a);
    if !CoversBreaker(a, days) {
      WholeSeconds(days, a.circuitBreaker.value.windowSeconds.value);
      BurstInWindow(log, a, a.circuitBreaker.value.windowSeconds.value, now);
    }
    if !CoversCooldown(a, days) {
      WholeSeconds(days, a.cooldownSeconds.value);
    }
    if !CoversCap(a, days) {
      WholeSeconds(days, a.windowSeconds.value);
      BurstInWindow(log, a, a.windowSeconds.value, now);
    }
    if !CoversSchedule(a, days) {
      WholeSeconds(days, a.trigger.scheduleSeconds.value);
    }
  }

  /** What the retention has to cover: the schedule always, the limits if the automation can fire at all. */
  predicate LongEnough(a: Automation, days: int) {
    CoversSchedule(a, days) && (CanFire(a) ==> Retains(a, days))
  }

  lemma NeverFiringSkips(log: seq<Row<Run>>, a: Automation, now: int)
    requires !CanFire(a)
    ensures Decide(log, a, now) == Some(CircuitOpen)
  {
  }

  lemma EmptyLogFires(a: Automation, now: int)
    requires Validated(a)
    ensures Due([], a, now) && (CanFire(a) ==> Decide([], a, now).None?)
  {
  }

  lemma DecisionRecords(log: RunLog, other: RunLog, e: Step)
    requires e.Evaluate? && log.next == other.next
    requires Due(log.rows, e.automation, e.now) == Due(other.rows, e.automation, e.now)
    requires Decide(log.rows, e.automation, e.now) == Decide(other.rows, e.automation, e.now)
    ensures Recorded(log, e) == Recorded(other, e)
  {
  }

  lemma BurstDecides(log: seq<Row<Run>>, a: Automation, days: int)
    requires Validated(a) && days > 0 && !LongEnough(a, days) && FiredAtOnce(log, a, BurstSize(a))
    ensures var now := days * DAY + 1;
            && Kept(log, now - days * DAY) == []
            && Due([], a, now) && (Due(log, a, now) ==> Decide(log, a, now).Some? && Decide([], a, now).None?)
  {
    BurstIsInReach(log, a, days);
    FilterNone(From(1), log);
    EmptyLogFires(a, days * DAY + 1);
  }

  lemma BurstIsOrderly(a: Automation, n: nat, e: Step)
    requires e.Evaluate? && e.automation == a && e.stamp == e.now >= 0
    ensures Orderly(Burst(a, n)) && Follows(Burst(a, n), e, a)
  {
  }

  lemma ShortRetentionShows(a: Automation, days: int)
    requires Validated(a) && days > 0 && !LongEnough(a, days)
    ensures !LatePrunesGoUnnoticed(a, days)
  {
    var now, before := days * DAY + 1, Burst(a, BurstSize(a));
    var e := Evaluate(a, now, now, true, []);
    BurstIsOrderly(a, BurstSize(a), e);
    AfterALatePrune(before, now, days);
    BurstFires(a, BurstSize(a));
    BurstDecides(Execute(Empty(), before, 0).rows, a, days);
  }

  lemma LongRetentionDecides(full: seq<Row<Run>>, a: Automation, now: int, days: int)
    requires days > 0 && LongEnough(a, days)
    ensures var kept := Kept(full, now - days * DAY);
            Due(kept, a, now) == Due(full, a, now) && Decide(kept, a, now) == Decide(full, a, now)
  {
    var cutoff := now - days * DAY;
    FilterWithin(From(cutoff), From(cutoff), full);
    SameDueTest(Kept(full, cutoff), full, cutoff, a, now, days);
    if CanFire(a) {
      SameDecision(Kept(full, cutoff), full, cutoff, a, now, days);
    } else {
      NeverFiringSkips(full, a, now);
      NeverFiringSkips(Kept(full, cutoff), a, now);
    }
  }

  lemma FollowsIsOrderly(before: seq<Step>, e: Step, a: Automation)
    requires Follows(before, e, a)
    ensures Orderly(before)
  {
    assert before == (before + [e])[..|before|];
  }

  lemma LongRetentionHides(a: Automation, days: int, before: seq<Step>, e: Step)
    requires days > 0 && LongEnough(a, days) && Orderly(before) && e.Evaluate? && e.automation == a
    ensures Recorded(Execute(Empty(), before + [Prune(e.now)], days), e)
         == Recorded(Execute(Empty(), before + [Prune(e.now)], 0), e)
  {
    AfterALatePrune(before, e.now, days);
    var full := Execute(Empty(), before, 0);
    LongRetentionDecides(full.rows, a, e.now, days);
    DecisionRecords(full.(rows := Pruned(full.rows, e.now, days)), full, e);
  }

  /** Automations can be edited. Then the retention condition is exact over runs: a late prune goes unnoticed
      after every run, whatever settings the automation had before, if and only if the retention covers its
      schedule and, if it can fire at all, its limits. */
  lemma RetentionConditionIsExact(a: Automation, days: int)
    requires Validated(a)
    ensures LatePrunesGoUnnoticed(a, days) <==> LongEnough(a, days)
  {
    if days <= 0 {
      forall before: seq<Step>, e: Step | Follows(before, e, a)
        ensures Recorded(Execute(Empty(), before + [Prune(e.now)], days), e)
             == Recorded(Execute(Empty(), before + [Prune(e.now)], 0), e)
      {
        NoRetentionIsZeroRetention(Empty(), before + [Prune(e.now)], days);
      }
    } else if LongEnough(a, days) {
      forall before: seq<Step>, e: Step | Follows(before, e, a)
        ensures Recorded(Execute(Empty(), before + [Prune(e.now)], days), e)
             == Recorded(Execute(Empty(), before + [Prune(e.now)], 0), e)
      {
        FollowsIsOrderly(before, e, a);
        LongRetentionHides(a, days, before, e);
      }
    } else {
      ShortRetentionShows(a, days);
    }
  }
}
