/**
  What the round-robin pick guarantees over whole runs. A run is a list of picks, each with
  its own readiness of the n accounts; the pointer moves from one pick to the next.
 */
module RotationFairness {
  import opened AccountRotation
  import opened Sets

  ghost predicate Run(n: nat, p: nat, run: seq<seq<bool>>) {
    p < n && forall k :: 0 <= k < |run| ==> |run[k]| == n
  }

  /** The slots picked, in order. */
  ghost function Picks(n: nat, p: nat, run: seq<seq<bool>>): (s: seq<nat>)
    requires Run(n, p, run)
    ensures |s| == |run|
    decreases run
  {
    if run == [] then [] else [Pick(p, run[0])] + Picks(n, NextPointer(p, run[0]), run[1..])
  }

  ghost function PointerAfter(n: nat, p: nat, run: seq<seq<bool>>): (q: nat)
    requires Run(n, p, run)
    ensures q < n
    decreases run
  {
    if run == [] then p else PointerAfter(n, NextPointer(p, run[0]), run[1..])
  }

  ghost predicate AlwaysEligible(n: nat, run: seq<seq<bool>>, a: nat) {
    a < n && forall k :: 0 <= k < |run| ==> Eligible(run[k], a)
  }

  ghost predicate Distinct(s: seq<nat>) {
    forall i, j :: 0 <= i < j < |s| ==> s[i] != s[j]
  }

  // ---------------------------------------------------------------- one pick

  lemma {:induction false} SkipFindsNearest(p: nat, ready: seq<bool>, d: nat)
    requires p < |ready| && d <= |ready|
    requires forall e :: 0 <= e < d ==> !ready[At(|ready|, p, e)]
    ensures forall e :: 0 <= e < Skip(p, ready, d) ==> !ready[At(|ready|, p, e)]
    ensures Skip(p, ready, d) == 0 || ready[At(|ready|, p, Skip(p, ready, d))]
    ensures Skip(p, ready, d) == 0 && !ready[p] ==> forall e :: 0 <= e < |ready| ==> !ready[At(|ready|, p, e)]
    decreases |ready| - d
  {
    if d < |ready| && !ready[At(|ready|, p, d)] {
      SkipFindsNearest(p, ready, d + 1);
    }
  }

  /** The pick is the eligible slot nearest to the pointer, and no other slot qualifies. */
  lemma PickIsNearestEligible(p: nat, ready: seq<bool>, i: nat)
    requires p < |ready| && i < |ready|
    ensures i == Pick(p, ready) <==>
            Eligible(ready, i) &&
            forall j :: 0 <= j < |ready| && Eligible(ready, j) ==> Distance(|ready|, p, i) <= Distance(|ready|, p, j)
  {
    var n := |ready|;
    SkipFindsNearest(p, ready, 0);
    var r := Pick(p, ready);
    forall j | 0 <= j < n && Eligible(ready, j)
      ensures Eligible(ready, r) && Distance(n, p, r) <= Distance(n, p, j)
    {
      assert At(n, p, Distance(n, p, j)) == j;
      if SomeReady(ready) {
        var k :| 0 <= k < n && ready[k];
        assert At(n, p, Distance(n, p, k)) == k;
      }
    }
    assert Eligible(ready, r) by {
      if SomeReady(ready) {
        var k :| 0 <= k < n && ready[k];
        assert Eligible(ready, k);
      } else {
        assert Eligible(ready, p);
      }
    }
    if Eligible(ready, i) && Distance(n, p, i) <= Distance(n, p, r) {
      assert Distance(n, p, i) == Distance(n, p, r);
    }
  }

  /** When no account is ready the pick is the one made when all are: the fallback is the same round robin. */
  lemma FallbackIsRoundRobinOverAll(p: nat, ready: seq<bool>, all: seq<bool>)
    requires p < |ready| == |all|
    requires forall i :: 0 <= i < |ready| ==> !ready[i] && all[i]
    ensures Pick(p, ready) == Pick(p, all) == p && NextPointer(p, ready) == NextPointer(p, all)
  {
    SkipFindsNearest(p, ready, 0);
    SkipFindsNearest(p, all, 0);
  }

  /** An eligible account that is passed over comes strictly nearer to the pointer. */
  lemma PassedOverComesNearer(p: nat, ready: seq<bool>, a: nat)
    requires p < |ready| && Eligible(ready, a)
    requires Pick(p, ready) != a
    ensures Distance(|ready|, NextPointer(p, ready), a)
         == Distance(|ready|, p, a) - Distance(|ready|, p, Pick(p, ready)) - 1
    ensures Distance(|ready|, p, Pick(p, ready)) < Distance(|ready|, p, a)
  {
    PickIsNearestEligible(p, ready, Pick(p, ready));
  }

  // ---------------------------------------------------------------- bounded bypass

  /** From any pointer, an account that stays eligible is picked within its distance + 1 picks. */
  lemma {:induction false} PickedWithinDistance(n: nat, p: nat, run: seq<seq<bool>>, a: nat)
    requires Run(n, p, run) && AlwaysEligible(n, run, a)
    requires Distance(n, p, a) < |run|
    ensures a in Picks(n, p, run)
    decreases run
  {
    if Pick(p, run[0]) != a {
      PassedOverComesNearer(p, run[0], a);
      PickedWithinDistance(n, NextPointer(p, run[0]), run[1..], a);
    }
  }

  /** While an eligible account keeps being passed over, no account is picked twice. */
  lemma {:induction false} NoRepeatWhilePassedOver(n: nat, p: nat, run: seq<seq<bool>>, a: nat)
    requires Run(n, p, run) && AlwaysEligible(n, run, a)
    requires a !in Picks(n, p, run)
    ensures Distinct(Picks(n, p, run))
    ensures forall x :: x in Picks(n, p, run) ==> x < n && Distance(n, p, x) < Distance(n, p, a)
    decreases run
  {
    if run != [] {
      var q, s := NextPointer(p, run[0]), Picks(n, p, run);
      assert s[0] == Pick(p, run[0]) && s[1..] == Picks(n, q, run[1..]);
      PassedOverComesNearer(p, run[0], a);
      NoRepeatWhilePassedOver(n, q, run[1..], a);
      forall x | x in s[1..]
        ensures x < n && Distance(n, p, s[0]) < Distance(n, p, x) < Distance(n, p, a)
      {
      }
    }
  }

  lemma PicksCons(n: nat, p: nat, ready: seq<bool>, rest: seq<seq<bool>>)
    requires Run(n, p, [ready] + rest)
    ensures |ready| == n && Run(n, NextPointer(p, ready), rest)
    ensures Picks(n, p, [ready] + rest) == [Pick(p, ready)] + Picks(n, NextPointer(p, ready), rest)
    ensures PointerAfter(n, p, [ready] + rest) == PointerAfter(n, NextPointer(p, ready), rest)
  {
    var run := [ready] + rest;
    assert run[0] == ready && run[1..] == rest;
  }

  /** Picks of two runs, one after the other. */
  lemma {:induction false} PicksAppend(n: nat, p: nat, first: seq<seq<bool>>, second: seq<seq<bool>>)
    requires Run(n, p, first) && Run(n, p, second)
    ensures Run(n, p, first + second)
    ensures Picks(n, p, first + second) == Picks(n, p, first) + Picks(n, PointerAfter(n, p, first), second)
    ensures PointerAfter(n, p, first + second) == PointerAfter(n, PointerAfter(n, p, first), second)
    decreases first
  {
    if first == [] {
      assert first + second == second;
    } else {
      var ready, rest := first[0], first[1..];
      assert first == [ready] + rest && first + second == [ready] + (rest + second);
      PicksCons(n, p, ready, rest);
      PicksAppend(n, NextPointer(p, ready), rest, second);
      PicksCons(n, p, ready, rest + second);
    }
  }

  lemma Middle(a: seq<nat>, b: seq<nat>, c: seq<nat>)
    ensures (a + (b + c))[|a|..|a| + |b|] == b
  {
  }

  lemma PicksWindow(n: nat, p: nat, run: seq<seq<bool>>, i: nat, j: nat)
    requires Run(n, p, run) && i <= j <= |run|
    ensures Picks(n, p, run)[i..j] == Picks(n, PointerAfter(n, p, run[..i]), run[i..j])
  {
    var before, window, after := run[..i], run[i..j], run[j..];
    var q := PointerAfter(n, p, before);
    assert run == before + (window + after);
    PicksAppend(n, p, before, window + after);
    PicksAppend(n, q, window, after);
    Middle(Picks(n, p, before), Picks(n, q, window), Picks(n, PointerAfter(n, q, window), after));
  }

  /**
    Bounded bypass: wherever the pointer stands and however readiness changes, an account that
    stays eligible for n consecutive picks is one of them, and between two successive picks of it
    every other account is picked at most once.
   */
  lemma BoundedBypass(n: nat, p: nat, run: seq<seq<bool>>, a: nat, i: nat, j: nat)
    requires Run(n, p, run) && i <= j <= |run| && AlwaysEligible(n, run[i..j], a)
    ensures j - i >= n ==> a in Picks(n, p, run)[i..j]
    ensures a !in Picks(n, p, run)[i..j] ==> Distinct(Picks(n, p, run)[i..j])
  {
    PicksWindow(n, p, run, i, j);
    var q := PointerAfter(n, p, run[..i]);
    if j - i >= n {
      PickedWithinDistance(n, q, run[i..j], a);
    }
    if a !in Picks(n, q, run[i..j]) {
      NoRepeatWhilePassedOver(n, q, run[i..j], a);
    }
  }

  // ---------------------------------------------------------------- exact round robin

  ghost function EligibleSet(ready: seq<bool>): set<nat> {
    set i: nat | i < |ready| && Eligible(ready, i)
  }

  ghost function Steady(ready: seq<bool>, m: nat): (run: seq<seq<bool>>)
    ensures |run| == m && forall k :: 0 <= k < m ==> run[k] == ready
  {
    seq(m, _ => ready)
  }

  ghost function Elements(s: seq<nat>): set<nat> {
    set x | x in s
  }

  lemma {:induction false} DistinctCount(s: seq<nat>)
    requires Distinct(s)
    ensures |Elements(s)| == |s|
    ensures forall x :: multiset(s)[x] == if x in s then 1 else 0
  {
    if s != [] {
      var last := |s| - 1;
      assert s == s[..last] + [s[last]];
      DistinctCount(s[..last]);
      assert Elements(s) == Elements(s[..last]) + {s[last]};
    }
  }

  /** Only eligible accounts are ever picked. */
  lemma {:induction false} PicksAreEligible(p: nat, ready: seq<bool>, m: nat)
    requires p < |ready|
    ensures Elements(Picks(|ready|, p, Steady(ready, m))) <= EligibleSet(ready)
    decreases m
  {
    if m > 0 {
      PickIsNearestEligible(p, ready, Pick(p, ready));
      assert Steady(ready, m)[1..] == Steady(ready, m - 1);
      PicksAreEligible(NextPointer(p, ready), ready, m - 1);
    }
  }

  lemma SteadySplit(p: nat, ready: seq<bool>, m: nat, k: nat)
    requires p < |ready| && k <= m
    ensures
      var q := PointerAfter(|ready|, p, Steady(ready, k));
      Picks(|ready|, p, Steady(ready, m)) == Picks(|ready|, p, Steady(ready, k)) + Picks(|ready|, q, Steady(ready, m - k))
  {
    assert Steady(ready, m) == Steady(ready, k) + Steady(ready, m - k);
    PicksAppend(|ready|, p, Steady(ready, k), Steady(ready, m - k));
  }

  lemma {:induction false} FirstPicksDistinct(p: nat, ready: seq<bool>, m: nat)
    requires p < |ready| && m <= |EligibleSet(ready)|
    ensures Distinct(Picks(|ready|, p, Steady(ready, m)))
  {
    if m > 0 {
      var s, front := Picks(|ready|, p, Steady(ready, m)), Picks(|ready|, p, Steady(ready, m - 1));
      SteadySplit(p, ready, m, m - 1);
      FirstPicksDistinct(p, ready, m - 1);
      var a := StillToCome(p, ready, m - 1);
      assert s == front + [s[m - 1]];
      if s[m - 1] != a {
        NoRepeatWhilePassedOver(|ready|, p, Steady(ready, m), a);
      }
    }
  }

  /** With fewer distinct picks made than accounts eligible, some eligible account has not been picked. */
  lemma StillToCome(p: nat, ready: seq<bool>, m: nat) returns (a: nat)
    requires p < |ready| && m < |EligibleSet(ready)|
    requires Distinct(Picks(|ready|, p, Steady(ready, m)))
    ensures a < |ready| && Eligible(ready, a) && a !in Picks(|ready|, p, Steady(ready, m))
  {
    var s := Picks(|ready|, p, Steady(ready, m));
    DistinctCount(s);
    a := SomeMissing(EligibleSet(ready), Elements(s));
  }

  ghost function SomeMissing(big: set<nat>, small: set<nat>): (a: nat)
    requires |small| < |big|
    ensures a in big && a !in small
  {
    assert big - small != {} by {
      if big - small == {} {
        assert forall x :: x in big ==> x in small || x in big - small;
        SubsetCardinality(big, small);
      }
    }
    var a :| a in big - small;
    a
  }

  /**
    Exact round robin: while readiness does not change, |R| consecutive picks are a permutation
    of the eligible set R, from any pointer.
   */
  lemma RoundIsPermutation(p: nat, ready: seq<bool>)
    requires p < |ready|
    ensures
      var s := Picks(|ready|, p, Steady(ready, |EligibleSet(ready)|));
      Distinct(s) && Elements(s) == EligibleSet(ready)
  {
    var m := |EligibleSet(ready)|;
    FirstPicksDistinct(p, ready, m);
    DistinctCount(Picks(|ready|, p, Steady(ready, m)));
    PicksAreEligible(p, ready, m);
    SubsetCardinality(Elements(Picks(|ready|, p, Steady(ready, m))), EligibleSet(ready));
  }

  /** How often slot z is picked in m picks from pointer p under unchanging readiness. */
  ghost function PickCount(p: nat, ready: seq<bool>, m: nat, z: nat): nat
    requires p < |ready|
  {
    multiset(Picks(|ready|, p, Steady(ready, m)))[z]
  }

  lemma CountSplit(s: seq<nat>, t: seq<nat>, z: nat)
    ensures multiset(s + t)[z] == multiset(s)[z] + multiset(t)[z]
  {
    assert multiset(s + t) == multiset(s) + multiset(t);
  }

  lemma IneligibleNeverPicked(p: nat, ready: seq<bool>, m: nat, z: nat)
    requires p < |ready| && z !in EligibleSet(ready)
    ensures PickCount(p, ready, m, z) == 0
  {
    PicksAreEligible(p, ready, m);
    assert z !in Elements(Picks(|ready|, p, Steady(ready, m)));
  }

  lemma AtMostOncePerRound(p: nat, ready: seq<bool>, m: nat, z: nat)
    requires p < |ready| && m <= |EligibleSet(ready)|
    ensures PickCount(p, ready, m, z) <= 1
    ensures m == |EligibleSet(ready)| && z in EligibleSet(ready) ==> PickCount(p, ready, m, z) == 1
  {
    FirstPicksDistinct(p, ready, m);
    DistinctCount(Picks(|ready|, p, Steady(ready, m)));
    if m == |EligibleSet(ready)| && z in EligibleSet(ready) {
      RoundIsPermutation(p, ready);
      assert z in Elements(Picks(|ready|, p, Steady(ready, m)));
    }
  }

  /** A full round contributes exactly one pick to every eligible account. */
  lemma NextRound(p: nat, ready: seq<bool>, m: nat, z: nat)
    requires p < |ready| && |EligibleSet(ready)| <= m && z in EligibleSet(ready)
    ensures
      var r := |EligibleSet(ready)|;
      PickCount(p, ready, m, z) == 1 + PickCount(PointerAfter(|ready|, p, Steady(ready, r)), ready, m - r, z)
  {
    var r := |EligibleSet(ready)|;
    var q := PointerAfter(|ready|, p, Steady(ready, r));
    SteadySplit(p, ready, m, r);
    CountSplit(Picks(|ready|, p, Steady(ready, r)), Picks(|ready|, q, Steady(ready, m - r)), z);
    AtMostOncePerRound(p, ready, r, z);
  }

  /**
    After any number of picks under unchanging readiness, the eligible accounts' pick counts
    differ by at most one and nobody else has been picked.
   */
  lemma {:induction false} PickCountsBalanced(p: nat, ready: seq<bool>, m: nat, x: nat, y: nat)
    requires p < |ready| && x in EligibleSet(ready)
    ensures y in EligibleSet(ready) ==> PickCount(p, ready, m, x) <= PickCount(p, ready, m, y) + 1
    ensures y !in EligibleSet(ready) ==> PickCount(p, ready, m, y) == 0
    decreases m
  {
    if y !in EligibleSet(ready) {
      IneligibleNeverPicked(p, ready, m, y);
    } else if m <= |EligibleSet(ready)| {
      AtMostOncePerRound(p, ready, m, x);
    } else {
      NextRound(p, ready, m, x);
      NextRound(p, ready, m, y);
      var r := |EligibleSet(ready)|;
      PickCountsBalanced(PointerAfter(|ready|, p, Steady(ready, r)), ready, m - r, x, y);
    }
  }
}
