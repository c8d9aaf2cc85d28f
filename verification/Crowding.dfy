/** How many fires overtaking can crowd into a window: the earliest times at which each of them can come when up
    to `overlap` fires overtake an evaluation, a bound for every interleaved run with its log in time order, and an
    interleaved run that reaches it. */
module Crowding {
  import opened Rows
  import opened Workflow
  import opened RunLimits
  import opened FireTimes
  import opened Overtaking
  import opened Interleaving

  /** The earliest time of the n-th fire, the first being at 0, when each evaluation may miss the last `overlap`. */
  function Crowded(a: Automation, overlap: nat, n: nat): int
    requires Validated(a) && CanFire(a)
    decreases n
  {
    if n == 0 then 0
    else
      var inOrder := Crowded(a, overlap, n - 1);
      var gap := if n > overlap then Later(inOrder, Crowded(a, overlap, n - 1 - overlap) + Gap(a)) else inOrder;
      var breaker :=
        if BreakerInForce(a) && n >= overlap + Threshold(a)
        then Later(gap, Crowded(a, overlap, n - overlap - Threshold(a)) + BreakerSpan(a) + 1) else gap;
      if CapInForce(a) && n >= overlap + Cap(a)
      then Later(breaker, Crowded(a, overlap, n - overlap - Cap(a)) + CapSpan(a) + 1) else breaker
  }

  lemma {:induction false} CrowdedInOrder(a: Automation, overlap: nat, i: nat, j: nat)
    requires Validated(a) && CanFire(a) && i <= j
    ensures Crowded(a, overlap, i) <= Crowded(a, overlap, j)
    decreases j
  {
    if i < j {
      CrowdedInOrder(a, overlap, i, j - 1);
    }
  }

  lemma {:induction false} NothingOvertakesIsEarliest(a: Automation, n: nat)
    requires Validated(a) && CanFire(a)
    ensures Crowded(a, 0, n) == Earliest(a, n)
  {
    if n > 0 {
      NothingOvertakesIsEarliest(a, n - 1);
      if BreakerInForce(a) && n >= Threshold(a) {
        NothingOvertakesIsEarliest(a, n - Threshold(a));
      }
      if CapInForce(a) && n >= Cap(a) {
        NothingOvertakesIsEarliest(a, n - Cap(a));
      }
    }
  }

  lemma CrowdedAtMost(a: Automation, overlap: nat, n: nat, x: int)
    requires Validated(a) && CanFire(a) && n >= 1 && Crowded(a, overlap, n - 1) <= x
    requires n > overlap ==> Crowded(a, overlap, n - 1 - overlap) + Gap(a) <= x
    requires BreakerInForce(a) && n >= overlap + Threshold(a) ==>
               Crowded(a, overlap, n - overlap - Threshold(a)) + BreakerSpan(a) + 1 <= x
    requires CapInForce(a) && n >= overlap + Cap(a) ==> Crowded(a, overlap, n - overlap - Cap(a)) + CapSpan(a) + 1 <= x
    ensures Crowded(a, overlap, n) <= x
  {
  }

  lemma OvertakenAtMost(a: Automation, overlap: nat, n: nat, x: int)
    requires Validated(a) && CanFire(a) && n >= 1
    requires Crowded(a, overlap, n - 1 + overlap) <= x && Crowded(a, overlap, n - 1) + Gap(a) <= x
    requires BreakerInForce(a) && n >= Threshold(a) ==> Crowded(a, overlap, n - Threshold(a)) + BreakerSpan(a) + 1 <= x
    requires CapInForce(a) && n >= Cap(a) ==> Crowded(a, overlap, n - Cap(a)) + CapSpan(a) + 1 <= x
    ensures Crowded(a, overlap, n + overlap) <= x
  {
    CrowdedAtMost(a, overlap, n + overlap, x);
  }

  lemma EarliestAtLeast(a: Automation, n: nat)
    requires Validated(a) && CanFire(a) && n >= 1
    ensures Earliest(a, n) >= Earliest(a, n - 1) + Gap(a)
    ensures BreakerInForce(a) && n >= Threshold(a) ==>
            Earliest(a, n) >= Earliest(a, n - Threshold(a)) + BreakerSpan(a) + 1
    ensures CapInForce(a) && n >= Cap(a) ==> Earliest(a, n) >= Earliest(a, n - Cap(a)) + CapSpan(a) + 1
  {
  }

  /** `overlap` fires more can always come as early as without overtaking. */
  lemma {:induction false} ExtraFiresComeEarly(a: Automation, overlap: nat, n: nat)
    requires Validated(a) && CanFire(a)
    ensures Crowded(a, overlap, n + overlap) <= Earliest(a, n)
    decreases n, 0
  {
    if n == 0 {
      FirstFiresComeAtOnce(a, overlap, overlap);
    } else {
      EarliestAtLeast(a, n);
      NoLaterThanEarliest(a, overlap, n - 1);
      ExtraFiresComeEarly(a, overlap, n - 1);
      if BreakerInForce(a) && n >= Threshold(a) {
        NoLaterThanEarliest(a, overlap, n - Threshold(a));
      }
      if CapInForce(a) && n >= Cap(a) {
        NoLaterThanEarliest(a, overlap, n - Cap(a));
      }
      OvertakenAtMost(a, overlap, n, Earliest(a, n));
    }
  }

  lemma {:induction false} NoLaterThanEarliest(a: Automation, overlap: nat, n: nat)
    requires Validated(a) && CanFire(a)
    ensures Crowded(a, overlap, n) <= Earliest(a, n)
    decreases n, 1
  {
    ExtraFiresComeEarly(a, overlap, n);
    CrowdedInOrder(a, overlap, n, n + overlap);
  }

  lemma {:induction false} FirstFiresComeAtOnce(a: Automation, overlap: nat, n: nat)
    requires Validated(a) && CanFire(a) && n <= overlap
    ensures Crowded(a, overlap, n) == 0
  {
    if n > 0 {
      FirstFiresComeAtOnce(a, overlap, n - 1);
    }
  }

  // ------------------------------------------------- no log is more crowded

  /** Where the f-th fire stands in the log. */
  lemma {:induction false} FireAt(log: seq<Row<Run>>, a: Automation, f: nat) returns (j: nat)
    requires f < |Fires(log, a)|
    ensures j < |log| && FiredBy(a.id)(log[j]) && log[j] == Fires(log, a)[f]
    ensures Fires(log[..j], a) == Fires(log, a)[..f]
  {
    var init, last := log[..|log| - 1], log[|log| - 1];
    assert log == init + [last];
    FilterAppend(FiredBy(a.id), init, last);
    if f < |Fires(init, a)| {
      j := FireAt(init, a, f);
      assert init[..j] == log[..j];
    } else {
      j := |log| - 1;
    }
  }

  /** What a check that missed at most `overlap` fires has seen of the first f. */
  lemma SeenFires(log: seq<Row<Run>>, a: Automation, j: nat, due: nat, m: nat, overlap: nat)
    requires due <= m <= j <= |log| && OwnFires(log, a, due, j) <= overlap
    ensures Fires(log[..m], a) <= Fires(log[..j], a)
    ensures |Fires(log[..j], a)| <= |Fires(log[..m], a)| + overlap
  {
    assert log[..j] == log[..m] + log[m..j];
    FilterConcat(FiredBy(a.id), log[..m], log[m..j]);
    LaterFires(log, a, due, m, j);
  }

  ghost predicate KeepsDistancesOver(fires: seq<Row<Run>>, a: Automation, overlap: nat)
    requires Validated(a) && CanFire(a)
  {
    && Apart(fires, 1, 0)
    && Apart(fires, overlap + 1, Gap(a))
    && (CapInForce(a) ==> Apart(fires, overlap + Cap(a), CapSpan(a) + 1))
    && (BreakerInForce(a) ==> Apart(fires, overlap + Threshold(a), BreakerSpan(a) + 1))
  }

  lemma InTimeOrder(rows: seq<Row<Run>>, i: nat, j: nat)
    requires TimeOrdered(rows) && i <= j < |rows|
    ensures rows[i].time <= rows[j].time
  {
  }

  /** If the k-th last of the fires seen is out of the way, the fire `overlap + k` before is too. */
  lemma SeenIsPast(fires: seq<Row<Run>>, seen: seq<Row<Run>>, f: nat, overlap: nat, k: nat, span: int, clock: int)
    requires TimeOrdered(fires) && f < |fires| && seen <= fires[..f] && f <= |seen| + overlap && 1 <= k
    requires |seen| >= k ==> clock - seen[|seen| - k].time >= span
    requires clock <= fires[f].time
    ensures f >= overlap + k ==> fires[f].time - fires[f - overlap - k].time >= span
  {
    if f >= overlap + k {
      assert seen[|seen| - k] == fires[|seen| - k];
      InTimeOrder(fires, f - overlap - k, |seen| - k);
    }
  }

  lemma PrefixInOrder(log: seq<Row<Run>>, m: nat)
    requires TimeOrdered(log) && m <= |log|
    ensures TimeOrdered(log[..m])
  {
  }

  /** The f-th fire keeps its distance from the one k before it. */
  predicate Behind(fires: seq<Row<Run>>, f: nat, k: nat, span: int)
    requires f < |fires|
  {
    f >= k ==> fires[f].time - fires[f - k].time >= span
  }

  lemma PauseUnderOvertaking(log: seq<Row<Run>>, a: Automation, f: nat, j: nat, m: Reads, clock: int, overlap: nat)
    requires Validated(a) && CanFire(a) && TimeOrdered(log) && f < |Fires(log, a)| && j < |log|
    requires log[j] == Fires(log, a)[f] && Fires(log[..j], a) == Fires(log, a)[..f] && clock <= log[j].time
    requires DecidedOn(log, a, j, clock, overlap, m)
    ensures a.trigger.Periodic? && f >= overlap + 1 ==>
              Fires(log, a)[f].time - Fires(log, a)[f - overlap - 1].time >= Pause(a)
  {
    TimeOrderedFilter(FiredBy(a.id), log);
    if a.trigger.Periodic? && f >= overlap + 1 {
      SeenFires(log, a, j, m.due, m.due, overlap);
      DueIsAPauseLater(log[..m.due], a, clock);
      var seen := Fires(log[..m.due], a);
      assert seen[|seen| - 1] in seen;
      SeenIsPast(Fires(log, a), seen, f, overlap, 1, Pause(a), clock);
    }
  }

  lemma CooldownUnderOvertaking(log: seq<Row<Run>>, a: Automation, f: nat, j: nat, m: Reads, clock: int, overlap: nat)
    requires Validated(a) && CanFire(a) && TimeOrdered(log) && f < |Fires(log, a)| && j < |log|
    requires log[j] == Fires(log, a)[f] && Fires(log[..j], a) == Fires(log, a)[..f] && clock <= log[j].time
    requires DecidedOn(log, a, j, clock, overlap, m)
    ensures a.cooldownSeconds.Some? && f >= overlap + 1 ==>
              Fires(log, a)[f].time - Fires(log, a)[f - overlap - 1].time >= a.cooldownSeconds.value * SECOND
  {
    TimeOrderedFilter(FiredBy(a.id), log);
    if a.cooldownSeconds.Some? && f >= overlap + 1 {
      SeenFires(log, a, j, m.due, m.cooldown, overlap);
      PrefixInOrder(log, m.cooldown);
      CooldownReadOff(log[..m.cooldown], a, clock);
      SeenIsPast(Fires(log, a), Fires(log[..m.cooldown], a), f, overlap, 1, a.cooldownSeconds.value * SECOND, clock);
    }
  }

  lemma GapUnderOvertaking(log: seq<Row<Run>>, a: Automation, f: nat, j: nat, m: Reads, clock: int, overlap: nat)
    requires Validated(a) && CanFire(a) && TimeOrdered(log) && f < |Fires(log, a)| && j < |log|
    requires log[j] == Fires(log, a)[f] && Fires(log[..j], a) == Fires(log, a)[..f] && clock <= log[j].time
    requires DecidedOn(log, a, j, clock, overlap, m)
    ensures Behind(Fires(log, a), f, overlap + 1, Gap(a))
  {
    PauseUnderOvertaking(log, a, f, j, m, clock, overlap);
    CooldownUnderOvertaking(log, a, f, j, m, clock, overlap);
    TimeOrderedFilter(FiredBy(a.id), log);
    if f >= overlap + 1 {
      InTimeOrder(Fires(log, a), f - overlap - 1, f);
    }
  }

  lemma BreakerUnderOvertaking(log: seq<Row<Run>>, a: Automation, f: nat, j: nat, m: Reads, clock: int, overlap: nat)
    requires CanFire(a) && BreakerInForce(a) && TimeOrdered(log) && f < |Fires(log, a)| && j < |log|
    requires log[j] == Fires(log, a)[f] && Fires(log[..j], a) == Fires(log, a)[..f] && clock <= log[j].time
    requires DecidedOn(log, a, j, clock, overlap, m)
    ensures f >= overlap + Threshold(a) ==>
              Fires(log, a)[f].time - Fires(log, a)[f - overlap - Threshold(a)].time >= BreakerSpan(a) + 1
  {
    TimeOrderedFilter(FiredBy(a.id), log);
    SeenFires(log, a, j, m.due, m.breaker, overlap);
    PrefixInOrder(log, m.breaker);
    BreakerReadOff(log[..m.breaker], a, clock);
    SeenIsPast(Fires(log, a), Fires(log[..m.breaker], a), f, overlap, Threshold(a), BreakerSpan(a) + 1, clock);
  }

  lemma CapUnderOvertaking(log: seq<Row<Run>>, a: Automation, f: nat, j: nat, m: Reads, clock: int, overlap: nat)
    requires Validated(a) && CapInForce(a) && TimeOrdered(log) && f < |Fires(log, a)| && j < |log|
    requires log[j] == Fires(log, a)[f] && Fires(log[..j], a) == Fires(log, a)[..f] && clock <= log[j].time
    requires DecidedOn(log, a, j, clock, overlap, m)
    ensures f >= overlap + Cap(a) ==>
              Fires(log, a)[f].time - Fires(log, a)[f - overlap - Cap(a)].time >= CapSpan(a) + 1
  {
    TimeOrderedFilter(FiredBy(a.id), log);
    SeenFires(log, a, j, m.due, m.cap, overlap);
    PrefixInOrder(log, m.cap);
    CapReadOff(log[..m.cap], a, clock);
    SeenIsPast(Fires(log, a), Fires(log[..m.cap], a), f, overlap, Cap(a), CapSpan(a) + 1, clock);
  }

  ghost predicate FireKeepsDistances(fires: seq<Row<Run>>, a: Automation, overlap: nat, f: nat)
    requires Validated(a) && CanFire(a) && f < |fires|
  {
    && Behind(fires, f, overlap + 1, Gap(a))
    && (CapInForce(a) ==> Behind(fires, f, overlap + Cap(a), CapSpan(a) + 1))
    && (BreakerInForce(a) ==> Behind(fires, f, overlap + Threshold(a), BreakerSpan(a) + 1))
  }

  lemma OneFireKeepsDistance(log: seq<Row<Run>>, a: Automation, clocks: seq<int>, overlap: nat, f: nat)
    requires Validated(a) && CanFire(a) && TimeOrdered(log) && Overtaken(log, a, clocks, overlap, 0)
    requires f < |Fires(log, a)|
    ensures FireKeepsDistances(Fires(log, a), a, overlap, f)
  {
    var j := FireAt(log, a, f);
    assert DecidedBefore(log, a, j, clocks[j], overlap);
    var m: Reads :| DecidedOn(log, a, j, clocks[j], overlap, m);
    GapUnderOvertaking(log, a, f, j, m, clocks[j], overlap);
    if CapInForce(a) {
      CapUnderOvertaking(log, a, f, j, m, clocks[j], overlap);
    }
    if BreakerInForce(a) {
      BreakerUnderOvertaking(log, a, f, j, m, clocks[j], overlap);
    }
  }

  lemma GapsAreApart(fires: seq<Row<Run>>, a: Automation, overlap: nat, k: nat, span: int)
    requires Validated(a) && CanFire(a) && k == overlap + 1 && span == Gap(a)
    requires forall f :: 0 <= f < |fires| ==> FireKeepsDistances(fires, a, overlap, f)
    ensures Apart(fires, k, span)
  {
    forall i, j | 0 <= i && j == i + k && j < |fires| ensures fires[j].time - fires[i].time >= span {
      assert FireKeepsDistances(fires, a, overlap, j);
      assert Behind(fires, j, k, span);
    }
  }

  lemma CapsAreApart(fires: seq<Row<Run>>, a: Automation, overlap: nat, k: nat, span: int)
    requires Validated(a) && CanFire(a) && CapInForce(a) && k == overlap + Cap(a) && span == CapSpan(a) + 1
    requires forall f :: 0 <= f < |fires| ==> FireKeepsDistances(fires, a, overlap, f)
    ensures Apart(fires, k, span)
  {
    forall i, j | 0 <= i && j == i + k && j < |fires| ensures fires[j].time - fires[i].time >= span {
      assert FireKeepsDistances(fires, a, overlap, j);
      assert Behind(fires, j, k, span);
    }
  }

  lemma BreakersAreApart(fires: seq<Row<Run>>, a: Automation, overlap: nat, k: nat, span: int)
    requires Validated(a) && CanFire(a) && BreakerInForce(a)
    requires k == overlap + Threshold(a) && span == BreakerSpan(a) + 1
    requires forall f :: 0 <= f < |fires| ==> FireKeepsDistances(fires, a, overlap, f)
    ensures Apart(fires, k, span)
  {
    forall i, j | 0 <= i && j == i + k && j < |fires| ensures fires[j].time - fires[i].time >= span {
      assert FireKeepsDistances(fires, a, overlap, j);
      assert Behind(fires, j, k, span);
    }
  }

  lemma AllFiresAreApart(fires: seq<Row<Run>>, a: Automation, overlap: nat)
    requires Validated(a) && CanFire(a) && TimeOrdered(fires)
    requires forall f :: 0 <= f < |fires| ==> FireKeepsDistances(fires, a, overlap, f)
    ensures KeepsDistancesOver(fires, a, overlap)
  {
    GapsAreApart(fires, a, overlap, overlap + 1, Gap(a));
    if CapInForce(a) {
      CapsAreApart(fires, a, overlap, overlap + Cap(a), CapSpan(a) + 1);
    }
    if BreakerInForce(a) {
      BreakersAreApart(fires, a, overlap, overlap + Threshold(a), BreakerSpan(a) + 1);
    }
  }

  lemma OvertakenKeepDistances(log: seq<Row<Run>>, a: Automation, clocks: seq<int>, overlap: nat)
    requires Validated(a) && CanFire(a) && TimeOrdered(log) && Overtaken(log, a, clocks, overlap, 0)
    ensures KeepsDistancesOver(Fires(log, a), a, overlap)
  {
    var fires := Fires(log, a);
    TimeOrderedFilter(FiredBy(a.id), log);
    forall f | 0 <= f < |fires| ensures FireKeepsDistances(fires, a, overlap, f) {
      OneFireKeepsDistance(log, a, clocks, overlap, f);
    }
    AllFiresAreApart(fires, a, overlap);
  }

  lemma {:induction false} NoLogIsMoreCrowded(fires: seq<Row<Run>>, a: Automation, overlap: nat, i: nat, n: nat)
    requires Validated(a) && CanFire(a) && KeepsDistancesOver(fires, a, overlap) && i + n < |fires|
    ensures fires[i + n].time - fires[i].time >= Crowded(a, overlap, n)
    decreases n, 1
  {
    if n > 0 {
      NoLogIsMoreCrowded(fires, a, overlap, i, n - 1);
      NoSoonerThanTheGap(fires, a, overlap, i, n);
      NoSoonerThanTheBreaker(fires, a, overlap, i, n);
      NoSoonerThanTheCap(fires, a, overlap, i, n);
      CrowdedAtMost(a, overlap, n, fires[i + n].time - fires[i].time);
    }
  }

  lemma {:induction false} NoSoonerThanTheGap(fires: seq<Row<Run>>, a: Automation, overlap: nat, i: nat, n: nat)
    requires Validated(a) && CanFire(a) && KeepsDistancesOver(fires, a, overlap) && n >= 1 && i + n < |fires|
    ensures n > overlap ==> Crowded(a, overlap, n - 1 - overlap) + Gap(a) <= fires[i + n].time - fires[i].time
    decreases n, 0
  {
    if n > overlap {
      NoLogIsMoreCrowded(fires, a, overlap, i, n - 1 - overlap);
    }
  }

  lemma {:induction false} NoSoonerThanTheBreaker(fires: seq<Row<Run>>, a: Automation, overlap: nat, i: nat, n: nat)
    requires Validated(a) && CanFire(a) && KeepsDistancesOver(fires, a, overlap) && n >= 1 && i + n < |fires|
    ensures BreakerInForce(a) && n >= overlap + Threshold(a) ==>
              Crowded(a, overlap, n - overlap - Threshold(a)) + BreakerSpan(a) + 1 <= fires[i + n].time - fires[i].time
    decreases n, 0
  {
    if BreakerInForce(a) && n >= overlap + Threshold(a) {
      NoLogIsMoreCrowded(fires, a, overlap, i, n - overlap - Threshold(a));
    }
  }

  lemma {:induction false} NoSoonerThanTheCap(fires: seq<Row<Run>>, a: Automation, overlap: nat, i: nat, n: nat)
    requires Validated(a) && CanFire(a) && KeepsDistancesOver(fires, a, overlap) && n >= 1 && i + n < |fires|
    ensures CapInForce(a) && n >= overlap + Cap(a) ==>
              Crowded(a, overlap, n - overlap - Cap(a)) + CapSpan(a) + 1 <= fires[i + n].time - fires[i].time
    decreases n, 0
  {
    if CapInForce(a) && n >= overlap + Cap(a) {
      NoLogIsMoreCrowded(fires, a, overlap, i, n - overlap - Cap(a));
    }
  }

  /** Where a window holds n fires, some n in a row lie in it. */
  lemma WindowIsARow(fires: seq<Row<Run>>, p: Row<Run> -> bool, lo: int, hi: int, n: nat) returns (i: nat)
    requires TimeOrdered(fires) && n >= 1 && |Filter(p, fires)| >= n
    requires forall r :: r in fires ==> (p(r) <==> lo <= r.time <= hi)
    ensures i + n <= |fires| && lo <= fires[i].time && fires[i + n - 1].time <= hi
  {
    i := FirstFrom(fires, lo);
    FilterSkips(p, fires, i);
    if fires[i + n - 1].time > hi {
      assert fires == fires[..i + n - 1] + fires[i + n - 1..];
      FilterConcat(p, fires[..i + n - 1], fires[i + n - 1..]);
      FilterNone(p, fires[i + n - 1..]);
      FilterSkips(p, fires[..i + n - 1], i);
    }
  }

  lemma {:induction false} FirstFrom(fires: seq<Row<Run>>, lo: int) returns (i: nat)
    requires TimeOrdered(fires)
    ensures i <= |fires| && (i < |fires| ==> lo <= fires[i].time) && forall j :: 0 <= j < i ==> fires[j].time < lo
  {
    if fires == [] || fires[0].time >= lo {
      i := 0;
    } else {
      i := FirstFrom(fires[1..], lo);
      i := i + 1;
      assert forall j :: 0 < j < i ==> fires[j] == fires[1..][j - 1];
    }
  }

  // ------------------------------------------------- a log that is as crowded

  function CrowdFire(a: Automation, overlap: nat, i: nat): Row<Run>
    requires Validated(a) && CanFire(a)
  {
    Row(i + 1, Crowded(a, overlap, i), Run(a.id, TriggerName(a), true, Some([]), None))
  }

  /** n fires, each as early as overtaking lets it come. */
  function Crowd(a: Automation, overlap: nat, n: nat): seq<Row<Run>>
    requires Validated(a) && CanFire(a)
  {
    seq(n, i requires 0 <= i < n => CrowdFire(a, overlap, i))
  }

  /** How much of the crowd the i-th turn sees: all but the `overlap` fires before its own. */
  function Sees(overlap: nat, i: nat): nat {
    if i <= overlap then 0 else i - overlap
  }

  lemma CrowdIsItsFires(a: Automation, overlap: nat, n: nat)
    requires Validated(a) && CanFire(a)
    ensures var log := Crowd(a, overlap, n);
            TimeOrdered(log) && Fires(log, a) == log && Filter(RunBy(a.id), log) == log
  {
    var log := Crowd(a, overlap, n);
    forall i, j | 0 <= i < j < n ensures log[i].time <= log[j].time {
      CrowdedInOrder(a, overlap, i, j);
    }
    AllFired(log, a);
  }

  lemma OpenBelowTheCap(log: seq<Row<Run>>, a: Automation, now: int)
    requires Validated(a) && TimeOrdered(log) && Fires(log, a) == log
    requires CapInForce(a) && |log| >= Cap(a) ==> now > log[|log| - Cap(a)].time + CapSpan(a)
    ensures !CapReached(log, a, now)
  {
    CapReadOff(log, a, now);
  }

  lemma CrowdedAfter(a: Automation, overlap: nat, n: nat)
    requires Validated(a) && CanFire(a) && n > overlap
    ensures Crowded(a, overlap, n) >= Crowded(a, overlap, n - 1 - overlap) + Gap(a)
    ensures BreakerInForce(a) && n >= overlap + Threshold(a) ==>
              Crowded(a, overlap, n) > Crowded(a, overlap, n - overlap - Threshold(a)) + BreakerSpan(a)
    ensures CapInForce(a) && n >= overlap + Cap(a) ==>
              Crowded(a, overlap, n) > Crowded(a, overlap, n - overlap - Cap(a)) + CapSpan(a)
  {
  }

  /** A clock that every limit lets pass, after a log of nothing but fires. */
  ghost predicate ComesAfter(log: seq<Row<Run>>, a: Automation, now: int)
    requires Validated(a) && CanFire(a)
  {
    && (log != [] ==> now >= log[|log| - 1].time + Gap(a))
    && (BreakerInForce(a) && |log| >= Threshold(a) ==> now > log[|log| - Threshold(a)].time + BreakerSpan(a))
    && (CapInForce(a) && |log| >= Cap(a) ==> now > log[|log| - Cap(a)].time + CapSpan(a))
  }

  lemma AllChecksPass(log: seq<Row<Run>>, a: Automation, now: int)
    requires Validated(a) && CanFire(a) && TimeOrdered(log) && Fires(log, a) == log && Filter(RunBy(a.id), log) == log
    requires ComesAfter(log, a, now)
    ensures Due(log, a, now) && !BreakerReached(log, a, now) && !Cooling(log, a, now) && !CapReached(log, a, now)
  {
    DueAfterTheGap(log, a, now);
    ClosedPastTheThreshold(log, a, now);
    OpenBelowTheCap(log, a, now);
  }

  lemma CrowdTime(a: Automation, overlap: nat, m: nat, i: nat, x: int)
    requires Validated(a) && CanFire(a) && i < m && Crowded(a, overlap, i) == x
    ensures Crowd(a, overlap, m)[i].time == x
  {
  }

  lemma CrowdComesAfter(a: Automation, overlap: nat, n: nat, m: nat)
    requires Validated(a) && CanFire(a) && m == Sees(overlap, n)
    ensures ComesAfter(Crowd(a, overlap, m), a, Crowded(a, overlap, n))
  {
    if n > overlap {
      CrowdedAfter(a, overlap, n);
      CrowdTime(a, overlap, m, m - 1, Crowded(a, overlap, n - 1 - overlap));
      if BreakerInForce(a) && m >= Threshold(a) {
        CrowdTime(a, overlap, m, m - Threshold(a), Crowded(a, overlap, n - overlap - Threshold(a)));
      }
      if CapInForce(a) && m >= Cap(a) {
        CrowdTime(a, overlap, m, m - Cap(a), Crowded(a, overlap, n - overlap - Cap(a)));
      }
    }
  }

  /** The n-th fire passes every check on what it has seen of the crowd. */
  lemma CrowdLetsNext(a: Automation, overlap: nat, n: nat, m: nat)
    requires Validated(a) && CanFire(a) && m == Sees(overlap, n)
    ensures var log, now := Crowd(a, overlap, m), Crowded(a, overlap, n);
            Due(log, a, now) && !BreakerReached(log, a, now) && !Cooling(log, a, now) && !CapReached(log, a, now)
  {
    CrowdIsItsFires(a, overlap, m);
    CrowdComesAfter(a, overlap, n, m);
    AllChecksPass(Crowd(a, overlap, m), a, Crowded(a, overlap, n));
  }

  // ------------------------------------------------- an interleaved run that leaves it

  function CrowdTurn(a: Automation, overlap: nat, i: nat, closed: bool): Turn
    requires Validated(a) && CanFire(a)
  {
    var m := Sees(overlap, i);
    Turn(a, Crowded(a, overlap, i), [m, m, m, m], closed)
  }

  /** The crowd of n fires, and k turns, the first n of them closed. */
  ghost predicate IsCrowd(e: Engine, a: Automation, overlap: nat, n: nat, k: nat)
    requires Validated(a) && CanFire(a)
  {
    && e.log.rows == Crowd(a, overlap, n) && e.log.next == n + 1 && |e.turns| == k
    && forall i {:trigger e.turns[i]} :: 0 <= i < k ==> e.turns[i] == CrowdTurn(a, overlap, i, i < n)
  }

  /** At most `overlap` of its fires overtake any of the automation's turns, and its settings never change. */
  ghost predicate Orderly(moves: seq<Move>, a: Automation, overlap: nat) {
    OvertakenBy(moves, a, overlap, 0) && OneSetting(moves, a)
  }

  lemma OneMoreMove(moves: seq<Move>, move: Move, a: Automation, overlap: nat) returns (more: seq<Move>)
    requires Orderly(moves, a, overlap) && CommitInTime(PlayAll(moves), move, a, overlap, 0)
    requires move.Open? && move.automation.id == a.id ==> move.automation == a
    ensures PlayAll(more) == Play(PlayAll(moves), move) && Orderly(more, a, overlap)
  {
    more := moves + [move];
    assert more[..|moves|] == moves;
    forall i | 0 <= i < |more| ensures CommitInTime(PlayAll(more[..i]), more[i], a, overlap, 0) {
      if i < |moves| {
        assert more[..i] == moves[..i];
        assert CommitInTime(PlayAll(moves[..i]), moves[i], a, overlap, 0);
      }
    }
  }

  /** The last turn opened asks its next query. */
  lemma OneMoreAsk(moves: seq<Move>, a: Automation, overlap: nat, before: Engine, t: Turn, next: Turn)
    returns (more: seq<Move>)
    requires Orderly(moves, a, overlap) && PlayAll(moves) == before.(turns := before.turns + [t])
    requires |t.seen| < 4 && next == t.(seen := t.seen + [|before.log.rows|])
    ensures Orderly(more, a, overlap) && PlayAll(more) == before.(turns := before.turns + [next])
  {
    var turns, i := before.turns + [t], |before.turns|;
    more := OneMoreMove(moves, Ask(i), a, overlap);
    assert turns[i := next] == before.turns + [next];
  }

  lemma AskFourTimes(moves: seq<Move>, a: Automation, overlap: nat, before: Engine, now: int, n: nat)
    returns (more: seq<Move>)
    requires Orderly(moves, a, overlap) && n == |before.log.rows|
    requires PlayAll(moves) == before.(turns := before.turns + [Turn(a, now, [], false)])
    ensures Orderly(more, a, overlap)
    ensures PlayAll(more) == before.(turns := before.turns + [Turn(a, now, [n, n, n, n], false)])
  {
    assert [] + [n] == [n] && [n] + [n] == [n, n] && [n, n] + [n] == [n, n, n];
    assert [n, n, n] + [n] == [n, n, n, n];
    more := OneMoreAsk(moves, a, overlap, before, Turn(a, now, [], false), Turn(a, now, [n], false));
    more := OneMoreAsk(more, a, overlap, before, Turn(a, now, [n], false), Turn(a, now, [n, n], false));
    more := OneMoreAsk(more, a, overlap, before, Turn(a, now, [n, n], false), Turn(a, now, [n, n, n], false));
    more := OneMoreAsk(more, a, overlap, before, Turn(a, now, [n, n, n], false), Turn(a, now, [n, n, n, n], false));
  }

  lemma OpenAndAsk(moves: seq<Move>, a: Automation, overlap: nat, before: Engine, now: int, n: nat)
    returns (more: seq<Move>)
    requires Orderly(moves, a, overlap) && before == PlayAll(moves) && n == |before.log.rows|
    ensures Orderly(more, a, overlap)
    ensures PlayAll(more) == before.(turns := before.turns + [Turn(a, now, [n, n, n, n], false)])
  {
    more := OneMoreMove(moves, Open(a, now), a, overlap);
    more := AskFourTimes(more, a, overlap, before, now, n);
  }

  lemma TurnJoinsTheCrowd(e: Engine, after: Engine, a: Automation, overlap: nat, n: nat, k: nat)
    requires Validated(a) && CanFire(a) && IsCrowd(e, a, overlap, n, k) && n == Sees(overlap, k) && n <= k
    requires after == e.(turns := e.turns + [Turn(a, Crowded(a, overlap, k), [n, n, n, n], false)])
    ensures IsCrowd(after, a, overlap, n, k + 1)
  {
  }

  /** One more turn, opened at its clock, asks all its queries before the next commit. */
  lemma OneMoreTurn(moves: seq<Move>, a: Automation, overlap: nat, n: nat, k: nat) returns (more: seq<Move>)
    requires Validated(a) && CanFire(a) && Orderly(moves, a, overlap)
    requires IsCrowd(PlayAll(moves), a, overlap, n, k) && n == Sees(overlap, k) && n <= k
    ensures Orderly(more, a, overlap) && IsCrowd(PlayAll(more), a, overlap, n, k + 1)
  {
    more := OpenAndAsk(moves, a, overlap, PlayAll(moves), Crowded(a, overlap, k), n);
    TurnJoinsTheCrowd(PlayAll(moves), PlayAll(more), a, overlap, n, k);
  }

  /** The first turns ask before anything is committed. */
  lemma {:induction false} FirstTurnsAsk(a: Automation, overlap: nat, k: nat) returns (moves: seq<Move>)
    requires Validated(a) && CanFire(a) && k <= overlap + 1
    ensures Orderly(moves, a, overlap) && IsCrowd(PlayAll(moves), a, overlap, 0, k)
  {
    if k == 0 {
      moves := [];
    } else {
      moves := FirstTurnsAsk(a, overlap, k - 1);
      moves := OneMoreTurn(moves, a, overlap, 0, k - 1);
    }
  }

  lemma CrowdOvertakesLittle(a: Automation, overlap: nat, n: nat)
    requires Validated(a) && CanFire(a)
    ensures OwnFires(Crowd(a, overlap, n), a, Sees(overlap, n), n) <= overlap
  {
    FilterMember(FiredBy(a.id), Crowd(a, overlap, n)[Sees(overlap, n)..n]);
  }

  /** The next turn passes every check on what it has seen. */
  lemma CrowdTurnFires(e: Engine, a: Automation, overlap: nat, n: nat, t: Turn)
    requires Validated(a) && CanFire(a) && e.log.rows == Crowd(a, overlap, n) && t == CrowdTurn(a, overlap, n, false)
    ensures Answered(e, t) && Due(e.log.rows[..t.seen[0]], a, t.now)
    ensures RunOf(e, t, true, []) == CrowdFire(a, overlap, n).data
  {
    var m := Sees(overlap, n);
    CrowdLetsNext(a, overlap, n, m);
    assert e.log.rows[..m] == Crowd(a, overlap, m);
  }

  lemma CommitJoinsTheCrowd(e: Engine, a: Automation, overlap: nat, n: nat)
    requires Validated(a) && CanFire(a) && IsCrowd(e, a, overlap, n, n + overlap + 1)
    ensures var move := Commit(n, Crowded(a, overlap, n), true, []);
            CommitInTime(e, move, a, overlap, 0) && IsCrowd(Play(e, move), a, overlap, n + 1, n + overlap + 1)
  {
    var t := CrowdTurn(a, overlap, n, false);
    assert e.turns[n] == t;
    CrowdTurnFires(e, a, overlap, n, t);
    CrowdOvertakesLittle(a, overlap, n);
    assert Crowd(a, overlap, n + 1) == Crowd(a, overlap, n) + [CrowdFire(a, overlap, n)];
  }

  /** Then each commit makes room for one turn more. */
  lemma {:induction false} CrowdIsPlayed(a: Automation, overlap: nat, n: nat) returns (moves: seq<Move>)
    requires Validated(a) && CanFire(a)
    ensures Orderly(moves, a, overlap) && IsCrowd(PlayAll(moves), a, overlap, n, n + overlap + 1)
  {
    if n == 0 {
      moves := FirstTurnsAsk(a, overlap, overlap + 1);
    } else {
      moves := CrowdIsPlayed(a, overlap, n - 1);
      CommitJoinsTheCrowd(PlayAll(moves), a, overlap, n - 1);
      moves := OneMoreMove(moves, Commit(n - 1, Crowded(a, overlap, n - 1), true, []), a, overlap);
      moves := OneMoreTurn(moves, a, overlap, n, n + overlap);
    }
  }

  lemma CrowdFills(a: Automation, overlap: nat, n: nat, span: int)
    requires Validated(a) && CanFire(a) && n >= 1 && Crowded(a, overlap, n - 1) <= span
    ensures FiresBetween(Crowd(a, overlap, n), a.id, 0, span) == n
  {
    var log := Crowd(a, overlap, n);
    forall r | r in log ensures FiredIn(a.id, 0, 0 + span)(r) {
      var i :| 0 <= i < n && log[i] == r;
      CrowdedInOrder(a, overlap, 0, i);
      CrowdedInOrder(a, overlap, i, n - 1);
      assert FiredBy(a.id)(r);
    }
    FilterAll(FiredIn(a.id, 0, 0 + span), log);
  }

  // ------------------------------------------------- exactly how many

  /** An interleaved run, its log in time order, in which overtaking crowds n fires into one window of that length. */
  ghost predicate Crowds(moves: seq<Move>, a: Automation, overlap: nat, lo: int, span: int, n: nat) {
    && OvertakenBy(moves, a, overlap, 0) && OneSetting(moves, a)
    && TimeOrdered(PlayAll(moves).log.rows) && FiresBetween(PlayAll(moves).log.rows, a.id, lo, span) >= n
  }

  ghost predicate CanCrowd(a: Automation, overlap: nat, span: int, n: nat) {
    exists moves: seq<Move>, lo: int :: Crowds(moves, a, overlap, lo, span, n)
  }

  lemma FiresInAWindow(log: seq<Row<Run>>, a: Automation, lo: int, span: int, n: nat) returns (i: nat)
    requires TimeOrdered(log) && n >= 1 && FiresBetween(log, a.id, lo, span) >= n
    ensures var fires := Fires(log, a); i + n <= |fires| && fires[i + n - 1].time - fires[i].time <= span
  {
    var fires, p := Fires(log, a), FiredIn(a.id, lo, lo + span);
    FilterWithin(p, FiredBy(a.id), log);
    FilterMember(FiredBy(a.id), log);
    TimeOrderedFilter(FiredBy(a.id), log);
    forall r | r in fires ensures p(r) <==> lo <= r.time <= lo + span {
      assert FiredBy(a.id)(r);
    }
    i := WindowIsARow(fires, p, lo, lo + span, n);
  }

  lemma CrowdedLogFits(log: seq<Row<Run>>, clocks: seq<int>, a: Automation, overlap: nat, lo: int, span: int, n: nat)
    requires Validated(a) && CanFire(a) && n >= 1 && TimeOrdered(log) && Overtaken(log, a, clocks, overlap, 0)
    requires FiresBetween(log, a.id, lo, span) >= n
    ensures Crowded(a, overlap, n - 1) <= span
  {
    var i := FiresInAWindow(log, a, lo, span, n);
    OvertakenKeepDistances(log, a, clocks, overlap);
    NoLogIsMoreCrowded(Fires(log, a), a, overlap, i, n - 1);
  }

  lemma CrowdedRunFits(moves: seq<Move>, a: Automation, overlap: nat, lo: int, span: int, n: nat)
    requires Validated(a) && CanFire(a) && n >= 1 && Crowds(moves, a, overlap, lo, span, n)
    ensures Crowded(a, overlap, n - 1) <= span
  {
    InterleavedRunsAreOvertaken(moves, a, overlap, 0);
    CrowdedLogFits(PlayAll(moves).log.rows, PlayAll(moves).clocks, a, overlap, lo, span, n);
  }

  /** Overtaking can crowd n fires into a window exactly when the n-th can come early enough. */
  lemma CrowdingIsExact(a: Automation, overlap: nat, span: int, n: nat)
    requires Validated(a) && CanFire(a) && n >= 1
    ensures CanCrowd(a, overlap, span, n) <==> Crowded(a, overlap, n - 1) <= span
  {
    if CanCrowd(a, overlap, span, n) {
      var moves: seq<Move>, lo: int :| Crowds(moves, a, overlap, lo, span, n);
      CrowdedRunFits(moves, a, overlap, lo, span, n);
    }
    if Crowded(a, overlap, n - 1) <= span {
      CrowdIsItsFires(a, overlap, n);
      var moves := CrowdIsPlayed(a, overlap, n);
      CrowdFills(a, overlap, n, span);
      assert Crowds(moves, a, overlap, 0, span, n);
    }
  }

  lemma NoMoreThanTheCap(a: Automation, overlap: nat, span: int, n: nat)
    requires Validated(a) && CapInForce(a) && span == CapSpan(a) && n == Cap(a) + overlap + 1
    ensures !CanCrowd(a, overlap, span, n)
  {
    forall moves: seq<Move>, lo: int ensures !Crowds(moves, a, overlap, lo, span, n) {
      if OvertakenBy(moves, a, overlap, 0) && OneSetting(moves, a) {
        InterleavedCap(moves, a, overlap, 0, lo);
      }
    }
  }

  lemma NoMoreThanTheThreshold(a: Automation, overlap: nat, span: int, n: nat)
    requires BreakerInForce(a) && CanFire(a) && span == BreakerSpan(a) && n == Threshold(a) + overlap + 1
    ensures !CanCrowd(a, overlap, span, n)
  {
    forall moves: seq<Move>, lo: int ensures !Crowds(moves, a, overlap, lo, span, n) {
      if OvertakenBy(moves, a, overlap, 0) && OneSetting(moves, a) {
        InterleavedBreaker(moves, a, overlap, 0, lo);
      }
    }
  }

  /** So the excess over a cap is reached exactly when that many fires can come within its window, and in
      particular whenever the cap itself can be filled without overtaking. */
  lemma CapExcessIsReachedIff(a: Automation, overlap: nat)
    requires Validated(a) && CanFire(a) && CapInForce(a)
    ensures CanCrowd(a, overlap, CapSpan(a), Cap(a) + overlap)
            <==> Crowded(a, overlap, Cap(a) + overlap - 1) <= CapSpan(a)
    ensures !CanCrowd(a, overlap, CapSpan(a), Cap(a) + overlap + 1)
    ensures Earliest(a, Cap(a) - 1) <= CapSpan(a) ==> CanCrowd(a, overlap, CapSpan(a), Cap(a) + overlap)
  {
    CrowdingIsExact(a, overlap, CapSpan(a), Cap(a) + overlap);
    ExtraFiresComeEarly(a, overlap, Cap(a) - 1);
    NoMoreThanTheCap(a, overlap, CapSpan(a), Cap(a) + overlap + 1);
  }

  /** The same for a breaker's window and its threshold. */
  lemma BreakerExcessIsReachedIff(a: Automation, overlap: nat)
    requires Validated(a) && CanFire(a) && BreakerInForce(a)
    ensures CanCrowd(a, overlap, BreakerSpan(a), Threshold(a) + overlap)
       <==> Crowded(a, overlap, Threshold(a) + overlap - 1) <= BreakerSpan(a)
    ensures !CanCrowd(a, overlap, BreakerSpan(a), Threshold(a) + overlap + 1)
    ensures Earliest(a, Threshold(a) - 1) <= BreakerSpan(a) ==>
            CanCrowd(a, overlap, BreakerSpan(a), Threshold(a) + overlap)
  {
    CrowdingIsExact(a, overlap, BreakerSpan(a), Threshold(a) + overlap);
    ExtraFiresComeEarly(a, overlap, Threshold(a) - 1);
    NoMoreThanTheThreshold(a, overlap, BreakerSpan(a), Threshold(a) + overlap + 1);
  }

  /** And a cooldown never keeps `overlap` fires more from coming at one moment. */
  lemma CooldownExcessIsReached(a: Automation, overlap: nat)
    requires Validated(a) && CanFire(a)
    ensures CanCrowd(a, overlap, 0, 1 + overlap)
  {
    FirstFiresComeAtOnce(a, overlap, overlap);
    CrowdingIsExact(a, overlap, 0, 1 + overlap);
  }
}
