/**
  What an account's back-off, cooldown and eviction say about its history,
  for every sequence of failures and successes.
 */
module AccountHealth {
  import opened Wrappers
  import opened AccountRotation
  import opened RotationFairness

  ghost predicate Plausible(es: seq<Event>) {
    forall e :: e in es && e.Failure? ==> 0.0 <= e.jitter < 1000.0
  }

  ghost function HealthAfter(es: seq<Event>): Health {
    if es == [] then FreshHealth
    else AfterEvent(HealthAfter(es[..|es| - 1]), es[|es| - 1])
  }

  /** The failures since the last success, oldest first. */
  ghost function Streak(es: seq<Event>): (s: seq<Event>)
    ensures |s| <= |es| && s == es[|es| - |s|..]
    ensures forall e :: e in s ==> e.Failure?
    ensures |s| < |es| ==> es[|es| - |s| - 1].Success?
  {
    if es == [] || es[|es| - 1].Success? then []
    else Streak(es[..|es| - 1]) + [es[|es| - 1]]
  }

  /** Index i of the streak is a terminal failure that evicts: the third of the streak or later. */
  ghost predicate Evicts(s: seq<Event>, i: nat) {
    i < |s| && s[i].Failure? && s[i].kind == Terminal && i + 1 >= 3
  }

  ghost predicate LastEviction(s: seq<Event>, i: nat) {
    Evicts(s, i) && forall j: nat :: i < j < |s| ==> !Evicts(s, j)
  }

  ghost predicate LastFailureAt(es: seq<Event>, i: nat) {
    i < |es| && es[i].Failure? && forall j :: i < j < |es| ==> es[j].Success?
  }

  /** The back-off doubles from five seconds and saturates at a minute, from the fifth failure on. */
  lemma {:induction false} BackoffValue(k: nat)
    requires 1 <= k
    ensures Backoff(k) == if k == 1 then 5000 else if k == 2 then 10000 else if k == 3 then 20000
                          else if k == 4 then 40000 else 60000
  {
    if k > 5 {
      BackoffValue(k - 1);
      assert Pow2(k - 1) == 2 * Pow2(k - 2);
    } else {
      assert Pow2(1) == 2 && Pow2(2) == 4 && Pow2(3) == 8 && Pow2(4) == 16;
    }
  }

  /** The failure counter is the length of the current streak. */
  lemma {:induction false} FailsCountTheStreak(es: seq<Event>)
    ensures HealthAfter(es).consecutiveFails == |Streak(es)|
  {
    if es != [] {
      FailsCountTheStreak(es[..|es| - 1]);
    }
  }

  lemma EvictsExtended(s: seq<Event>, e: Event)
    requires e.Failure?
    ensures forall i: nat :: Evicts(s + [e], i) <==>
              Evicts(s, i) || (i == |s| && e.kind == Terminal && |s| + 1 >= 3)
  {
  }

  lemma LastEvictionExtended(s: seq<Event>, e: Event, i: nat)
    requires e.Failure? && LastEviction(s + [e], i)
    ensures if Evicts(s + [e], |s|) then i == |s| else LastEviction(s, i)
  {
    EvictsExtended(s, e);
  }

  /** An account is evicted iff its current streak holds an evicting failure; the latest one dates it. */
  lemma {:induction false} EvictionReadsTheStreak(es: seq<Event>)
    ensures HealthAfter(es).IsEvicted() <==> exists i: nat :: Evicts(Streak(es), i)
    ensures forall i: nat :: LastEviction(Streak(es), i) ==>
              HealthAfter(es).evictedAt == Some(Streak(es)[i].stampedAt)
  {
    if es != [] && es[|es| - 1].Failure? {
      var front, e := es[..|es| - 1], es[|es| - 1];
      EvictionReadsTheStreak(front);
      FailsCountTheStreak(front);
      EvictsExtended(Streak(front), e);
      assert Evicts(Streak(es), |Streak(front)|) || forall i: nat :: Evicts(Streak(es), i) <==> Evicts(Streak(front), i);
      forall i: nat | LastEviction(Streak(es), i)
        ensures HealthAfter(es).evictedAt == Some(Streak(es)[i].stampedAt)
      {
        LastEvictionExtended(Streak(front), e, i);
      }
    }
  }

  lemma FailureSetsCooldown(front: seq<Event>, e: Event)
    requires e.Failure?
    ensures
      var es := front + [e];
      |Streak(es)| >= 1 && HealthAfter(es).cooldownUntil == e.at as real + Backoff(|Streak(es)|) as real + e.jitter
  {
    var es := front + [e];
    assert es[..|es| - 1] == front && es[|es| - 1] == e;
    FailsCountTheStreak(front);
  }

  /** The cooldown was set by the last failure, from its position in its streak, and never touched since. */
  lemma {:induction false} CooldownSetByLastFailure(es: seq<Event>, i: nat)
    requires LastFailureAt(es, i)
    ensures
      |Streak(es[..i + 1])| >= 1 &&
      HealthAfter(es).cooldownUntil == es[i].at as real + Backoff(|Streak(es[..i + 1])|) as real + es[i].jitter
  {
    var front := es[..|es| - 1];
    if i == |es| - 1 {
      assert es[..i + 1] == es == front + [es[i]];
      FailureSetsCooldown(front, es[i]);
    } else {
      assert front[..i + 1] == es[..i + 1];
      CooldownSetByLastFailure(front, i);
    }
  }

  lemma {:induction false} NeverFailedNeverCools(es: seq<Event>)
    requires forall e :: e in es ==> e.Success?
    ensures HealthAfter(es) == FreshHealth
  {
    if es != [] {
      assert es[|es| - 1] in es;
      NeverFailedNeverCools(es[..|es| - 1]);
    }
  }

  /**
    After a last failure at time t the account is not ready before t + 5000, and is ready from
    t + 61000 on, whatever happened before.
   */
  lemma ReadinessWindow(es: seq<Event>, i: nat, now: int)
    requires Plausible(es) && LastFailureAt(es, i)
    ensures
      (now < es[i].at + 5000 ==> !HealthAfter(es).IsReady(now)) &&
      (now >= es[i].at + 61000 ==> HealthAfter(es).IsReady(now))
  {
    assert es[i] in es;
    CooldownSetByLastFailure(es, i);
    BackoffValue(|Streak(es[..i + 1])|);
  }

  /**
    To the instant: the account is ready from its last failure's time on, plus 5, 10, 20, 40 or 60
    seconds by the failure's position in its streak, plus the jitter.
   */
  lemma ReadyWhenCooldownEnds(es: seq<Event>, i: nat, now: int)
    requires LastFailureAt(es, i)
    ensures
      var k := |Streak(es[..i + 1])|;
      var delay := if k == 1 then 5000.0 else if k == 2 then 10000.0 else if k == 3 then 20000.0
                   else if k == 4 then 40000.0 else 60000.0;
      HealthAfter(es).IsReady(now) <==> es[i].at as real + delay + es[i].jitter <= now as real
  {
    CooldownSetByLastFailure(es, i);
    BackoffValue(|Streak(es[..i + 1])|);
  }

  /** The account at slot a answers the plain cooldown check with the history es at every pick of the run. */
  ghost predicate ReadyByCooldown(run: seq<seq<bool>>, times: seq<int>, a: nat, es: seq<Event>) {
    |times| == |run| &&
    forall k :: 0 <= k < |run| ==> a < |run[k]| && (run[k][a] <==> HealthAfter(es).IsReady(times[k]))
  }

  /**
    Recovery: whatever the other accounts do, n picks made 61 seconds or more after an account's
    last failure include that account.
   */
  lemma RecoveredAccountIsPicked(
    n: nat, p: nat, run: seq<seq<bool>>, times: seq<int>, a: nat, es: seq<Event>, i: nat)
    requires Run(n, p, run) && a < n <= |run| && ReadyByCooldown(run, times, a, es)
    requires Plausible(es) && LastFailureAt(es, i)
    requires forall k :: 0 <= k < |run| ==> es[i].at + 61000 <= times[k]
    ensures a in Picks(n, p, run)
  {
    forall k | 0 <= k < |run| ensures Eligible(run[k], a) {
      ReadinessWindow(es, i, times[k]);
    }
    PickedWithinDistance(n, p, run, a);
  }
}
