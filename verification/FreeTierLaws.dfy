/** The laws of the free-tier figures, for every catalogue. */
module FreeTierLaws {
  import opened Wrappers
  import opened FreeModelCatalog

  /** A pool counts with exactly the larger of zero and its largest included figure. */
  lemma {:induction false} PoolMaxMeaning(models: seq<Entry>, pick: Entry -> int, keep: Entry -> bool, k: string, v: int)
    ensures v == PoolMax(models, pick, keep, k) <==> IsPoolMax(models, pick, keep, k, v)
  {
    PoolMaxIs(models, pick, keep, k);
  }

  // ---------------------------------------------------------------- sums over pools

  lemma {:induction false} SumPointwise(keys: set<string>, f: string -> int, g: string -> int, h: string -> int)
    requires forall k :: k in keys ==> f(k) == g(k) + h(k)
    ensures SumOver(keys, f) == SumOver(keys, g) + SumOver(keys, h)
  {
    if keys != {} {
      var k :| k in keys;
      SumWithout(keys, f, k);
      SumWithout(keys, g, k);
      SumWithout(keys, h, k);
      SumPointwise(keys - {k}, f, g, h);
    }
  }

  // ---------------------------------------------------------------- permutation

  lemma {:induction false} LooseSumWithout(models: seq<Entry>, pick: Entry -> int, keep: Entry -> bool, i: nat)
    requires i < |models|
    ensures LooseSum(models, pick, keep)
         == LooseSum(models[..i] + models[i + 1..], pick, keep) + LooseSum([models[i]], pick, keep)
  {
    var last := |models| - 1;
    if i == last {
      assert models[..i] + models[i + 1..] == models[..last];
      assert [models[i]][..0] == [];
    } else {
      var front := models[..last];
      LooseSumWithout(front, pick, keep, i);
      var rest := models[..i] + models[i + 1..];
      assert rest[..|rest| - 1] == front[..i] + front[i + 1..] && rest[|rest| - 1] == models[last];
      assert front[i] == models[i];
    }
  }

  lemma MultisetWithout(s: seq<Entry>, i: nat)
    requires i < |s|
    ensures multiset(s[..i] + s[i + 1..]) == multiset(s) - multiset{s[i]}
  {
    assert s == s[..i] + [s[i]] + s[i + 1..];
  }

  lemma {:induction false} LooseSumPermuted(a: seq<Entry>, b: seq<Entry>, pick: Entry -> int, keep: Entry -> bool)
    requires multiset(a) == multiset(b)
    ensures LooseSum(a, pick, keep) == LooseSum(b, pick, keep)
    decreases |a|
  {
    if a == [] {
      assert |multiset(b)| == 0;
    } else {
      var last := |a| - 1;
      assert a[last] in multiset(b);
      var i :| 0 <= i < |b| && b[i] == a[last];
      var a', b' := a[..last] + a[last + 1..], b[..i] + b[i + 1..];
      MultisetWithout(a, last);
      MultisetWithout(b, i);
      LooseSumWithout(a, pick, keep, last);
      LooseSumWithout(b, pick, keep, i);
      LooseSumPermuted(a', b', pick, keep);
    }
  }

  /** The order of the catalogue does not matter. */
  lemma PermutationInvariance(a: seq<Entry>, b: seq<Entry>, pick: Entry -> int, keep: Entry -> bool)
    requires multiset(a) == multiset(b)
    ensures DedupedTotal(a, pick, keep) == DedupedTotal(b, pick, keep)
  {
    assert forall m :: m in a <==> m in multiset(a);
    assert forall m :: m in b <==> m in multiset(b);
    PoolsInclude(a, keep, b, keep);
    PoolsInclude(b, keep, a, keep);
    assert Pools(a, keep) == Pools(b, keep);
    forall k ensures PoolFigure(a, pick, keep)(k) == PoolFigure(b, pick, keep)(k) {
      PoolMaxIs(a, pick, keep, k);
      PoolMaxMeaning(b, pick, keep, k, PoolMax(a, pick, keep, k));
    }
    SumMonotone(Pools(a, keep), PoolFigure(a, pick, keep), PoolFigure(b, pick, keep));
    LooseSumPermuted(a, b, pick, keep);
    DedupedMeaning(a, pick, keep);
    DedupedMeaning(b, pick, keep);
  }

  // ---------------------------------------------------------------- conservation

  ghost function Either(p: Entry -> bool, q: Entry -> bool): Entry -> bool {
    (m: Entry) => p(m) || q(m)
  }

  /** What a pool is counted for twice when p and q are summed apart. */
  ghost function Overlap(models: seq<Entry>, pick: Entry -> int, p: Entry -> bool, q: Entry -> bool): string -> int {
    k => var a, b := PoolMax(models, pick, p, k), PoolMax(models, pick, q, k); if a < b then a else b
  }

  ghost predicate LooselyDisjoint(models: seq<Entry>, p: Entry -> bool, q: Entry -> bool) {
    forall m :: m in models && !Pooled(m) ==> !(p(m) && q(m))
  }

  lemma {:induction false} LooseSumSplits(models: seq<Entry>, pick: Entry -> int, p: Entry -> bool, q: Entry -> bool)
    requires LooselyDisjoint(models, p, q)
    ensures LooseSum(models, pick, Either(p, q)) == LooseSum(models, pick, p) + LooseSum(models, pick, q)
  {
    if models != [] {
      LooseSumSplits(models[..|models| - 1], pick, p, q);
    }
  }

  lemma {:induction false} PoolMaxSplits(models: seq<Entry>, pick: Entry -> int, p: Entry -> bool, q: Entry -> bool, k: string)
    ensures PoolMax(models, pick, Either(p, q), k) == Max(PoolMax(models, pick, p, k), PoolMax(models, pick, q, k))
  {
    if models != [] {
      PoolMaxSplits(models[..|models| - 1], pick, p, q, k);
    }
  }

  /**
    Conservation: summed apart, two disjoint selections come to their joint total plus exactly
    what their common pools are counted for twice.
   */
  lemma Conservation(models: seq<Entry>, pick: Entry -> int, p: Entry -> bool, q: Entry -> bool)
    requires LooselyDisjoint(models, p, q)
    ensures DedupedTotal(models, pick, p) + DedupedTotal(models, pick, q)
         == DedupedTotal(models, pick, Either(p, q))
          + SumOver(Pools(models, Either(p, q)), Overlap(models, pick, p, q))
  {
    var all := Pools(models, Either(p, q));
    var f, g := PoolFigure(models, pick, p), PoolFigure(models, pick, q);
    var joint, overlap := PoolFigure(models, pick, Either(p, q)), Overlap(models, pick, p, q);
    PoolsInclude(models, p, models, Either(p, q));
    PoolsInclude(models, q, models, Either(p, q));
    PoolSumOver(models, pick, p, all);
    PoolSumOver(models, pick, q, all);
    LooseSumSplits(models, pick, p, q);
    DedupedMeaning(models, pick, p);
    DedupedMeaning(models, pick, q);
    DedupedMeaning(models, pick, Either(p, q));
    var both := (k: string) => f(k) + g(k);
    forall k ensures both(k) == joint(k) + overlap(k) {
      PoolMaxSplits(models, pick, p, q, k);
    }
    SumPointwise(all, both, f, g);
    SumPointwise(all, both, joint, overlap);
  }

  /** The sum is sub-additive, with equality exactly when no pool has a positive figure on both sides. */
  lemma SubAdditivity(models: seq<Entry>, pick: Entry -> int, p: Entry -> bool, q: Entry -> bool)
    requires LooselyDisjoint(models, p, q)
    ensures DedupedTotal(models, pick, Either(p, q)) <= DedupedTotal(models, pick, p) + DedupedTotal(models, pick, q)
    ensures DedupedTotal(models, pick, Either(p, q)) == DedupedTotal(models, pick, p) + DedupedTotal(models, pick, q)
       <==> forall k :: k in Pools(models, Either(p, q)) ==>
              PoolMax(models, pick, p, k) == 0 || PoolMax(models, pick, q, k) == 0
  {
    var all, overlap := Pools(models, Either(p, q)), Overlap(models, pick, p, q);
    Conservation(models, pick, p, q);
    var zero := (k: string) => 0;
    SumOverMore({}, all, zero);
    forall k ensures 0 <= overlap(k) &&
                     (overlap(k) == 0 <==> PoolMax(models, pick, p, k) == 0 || PoolMax(models, pick, q, k) == 0) {
      PoolMaxIs(models, pick, p, k);
      PoolMaxIs(models, pick, q, k);
    }
    SumMonotone(all, zero, overlap);
  }

  ghost function InEitherSide(bucket: TokenBucket): Entry -> bool {
    Either(InBucket(bucket, false), InBucket(bucket, true))
  }

  /** Steady plus gated is the all-steady total unless the gate splits a pool that pays on both sides. */
  lemma GateSplitsTheSteadyTotal(catalog: seq<Entry>, excludeTosAvoid: bool, boosts: seq<Boost>)
    ensures
      var t, models := TotalsOf(catalog, excludeTosAvoid, boosts), Kept(catalog, excludeTosAvoid);
      var whole := DedupedTotal(models, MonthlyTokens(), InEitherSide(SteadyMonthlyBucket));
      var apart := t.steadyRecurringTokens + t.gatedRecurringTokens;
      whole <= apart &&
      (whole == apart <==>
       forall k :: k in Pools(models, InEitherSide(SteadyMonthlyBucket)) ==>
         PoolMax(models, MonthlyTokens(), InBucket(SteadyMonthlyBucket, false), k) == 0 ||
         PoolMax(models, MonthlyTokens(), InBucket(SteadyMonthlyBucket, true), k) == 0)
  {
    SubAdditivity(Kept(catalog, excludeTosAvoid), MonthlyTokens(),
                  InBucket(SteadyMonthlyBucket, false), InBucket(SteadyMonthlyBucket, true));
  }

  // ---------------------------------------------------------------- monotonicity

  /** An entry added anywhere raises the total by exactly its gain. */
  lemma EntryGain(pre: seq<Entry>, post: seq<Entry>, e: Entry, pick: Entry -> int, keep: Entry -> bool)
    ensures DedupedTotal(pre + [e] + post, pick, keep)
         == DedupedTotal(pre + post, pick, keep) + Gain(pre + post, e, pick, keep)
  {
    var models := pre + post;
    var bigger := models + [e];
    assert multiset(bigger) == multiset(pre + [e] + post);
    PermutationInvariance(bigger, pre + [e] + post, pick, keep);
    assert bigger[..|models|] == models;
  }

  /** Adding an entry anywhere raises the total by between nothing and its own figure. */
  lemma AddingAnEntry(pre: seq<Entry>, post: seq<Entry>, e: Entry, pick: Entry -> int, keep: Entry -> bool)
    requires keep(e) ==> 0 <= pick(e)
    ensures
      var gain := DedupedTotal(pre + [e] + post, pick, keep) - DedupedTotal(pre + post, pick, keep);
      0 <= gain <= (if keep(e) then pick(e) else 0) &&
      (keep(e) && !Pooled(e) ==> gain == pick(e))
  {
    EntryGain(pre, post, e, pick, keep);
    if keep(e) && Pooled(e) {
      PoolMaxIs(pre + post, pick, keep, e.poolKey.value);
    }
  }

  // ---------------------------------------------------------------- entries that feed no figure

  lemma {:induction false} KeptAppend(a: seq<Entry>, b: seq<Entry>, excludeTosAvoid: bool)
    ensures Kept(a + b, excludeTosAvoid) == Kept(a, excludeTosAvoid) + Kept(b, excludeTosAvoid)
  {
    if b == [] {
      assert a + b == a;
    } else {
      var front := b[..|b| - 1];
      assert (a + b)[..|a + b| - 1] == a + front;
      KeptAppend(a, front, excludeTosAvoid);
    }
  }

  lemma KeptInserted(pre: seq<Entry>, e: Entry, post: seq<Entry>, excludeTosAvoid: bool)
    ensures Kept(pre + [e] + post, excludeTosAvoid) ==
            Kept(pre, excludeTosAvoid) + (if Counted(e, excludeTosAvoid) then [e] else []) + Kept(post, excludeTosAvoid)
  {
    KeptAppend(pre + [e], post, excludeTosAvoid);
    KeptAppend(pre, [e], excludeTosAvoid);
    assert [e][..0] == [];
  }

  lemma UncountedEntry(pre: seq<Entry>, e: Entry, post: seq<Entry>, x: bool)
    requires !Counted(e, x)
    ensures Kept(pre + [e] + post, x) == Kept(pre + post, x)
  {
    KeptInserted(pre, e, post, x);
    KeptAppend(pre, post, x);
    assert Kept(pre, x) + [] == Kept(pre, x);
  }

  /** A disabled entry, or one excluded for its terms, changes no figure at all. */
  lemma UncountedEntryIsAbsent(pre: seq<Entry>, e: Entry, post: seq<Entry>, excludeTosAvoid: bool, boosts: seq<Boost>)
    requires e.enabled == Some(false) || (excludeTosAvoid && e.tos == Avoid)
    ensures TotalsOf(pre + [e] + post, excludeTosAvoid, boosts) == TotalsOf(pre + post, excludeTosAvoid, boosts)
  {
    UncountedEntry(pre, e, post, excludeTosAvoid);
  }

  lemma PoolsInserted(a: seq<Entry>, e: Entry, b: seq<Entry>, keep: Entry -> bool)
    requires !keep(e)
    ensures Pools(a + [e] + b, keep) == Pools(a + b, keep)
  {
    assert forall m :: m in a + [e] + b <==> m == e || m in a + b;
    PoolsInclude(a + b, keep, a + [e] + b, keep);
    PoolsInclude(a + [e] + b, keep, a + b, keep);
  }

  /** An entry outside a selection feeds neither its sum nor its set of pools, wherever it stands. */
  lemma UnselectedEntry(pre: seq<Entry>, e: Entry, post: seq<Entry>, x: bool, pick: Entry -> int, keep: Entry -> bool)
    requires !keep(e)
    ensures DedupedTotal(Kept(pre + [e] + post, x), pick, keep) == DedupedTotal(Kept(pre + post, x), pick, keep)
    ensures Pools(Kept(pre + [e] + post, x), keep) == Pools(Kept(pre + post, x), keep)
  {
    var a, b := Kept(pre, x), Kept(post, x);
    KeptAppend(pre, post, x);
    if Counted(e, x) {
      KeptInserted(pre, e, post, x);
      EntryGain(a, b, e, pick, keep);
      PoolsInserted(a, e, b, keep);
    } else {
      UncountedEntry(pre, e, post, x);
    }
  }

  /** An entry behind an eligibility gate moves the gated figure only. */
  lemma GatedEntryFeedsGatedOnly(pre: seq<Entry>, e: Entry, post: seq<Entry>, x: bool, boosts: seq<Boost>)
    requires e.eligibilityGate.Some?
    ensures
      var t, t' := TotalsOf(pre + post, x, boosts), TotalsOf(pre + [e] + post, x, boosts);
      t'.steadyRecurringTokens == t.steadyRecurringTokens &&
      t'.steadyWithRecurringCreditsTokens == t.steadyWithRecurringCreditsTokens &&
      t'.firstMonthRealisticTokens == t.firstMonthRealisticTokens &&
      t'.boostMonthlyTokens == t.boostMonthlyTokens && t'.poolCount == t.poolCount
  {
    UnselectedEntry(pre, e, post, x, MonthlyTokens(), InBucket(SteadyMonthlyBucket, false));
    UnselectedEntry(pre, e, post, x, CreditTokens(), InBucket(RecurringCreditBucket, false));
    UnselectedEntry(pre, e, post, x, CreditTokens(), InBucket(OneTimeCreditBucket, false));
  }

  /** An uncapped or discontinued entry enters none of the sums. */
  lemma UncappedIsNeverSummed(pre: seq<Entry>, e: Entry, post: seq<Entry>, x: bool, boosts: seq<Boost>)
    requires e.freeType in {RecurringUncapped, Discontinued}
    ensures
      var t, t' := TotalsOf(pre + post, x, boosts), TotalsOf(pre + [e] + post, x, boosts);
      t'.steadyRecurringTokens == t.steadyRecurringTokens &&
      t'.steadyWithRecurringCreditsTokens == t.steadyWithRecurringCreditsTokens &&
      t'.firstMonthRealisticTokens == t.firstMonthRealisticTokens &&
      t'.gatedRecurringTokens == t.gatedRecurringTokens && t'.boostMonthlyTokens == t.boostMonthlyTokens
  {
    UnselectedEntry(pre, e, post, x, MonthlyTokens(), InBucket(SteadyMonthlyBucket, false));
    UnselectedEntry(pre, e, post, x, MonthlyTokens(), InBucket(SteadyMonthlyBucket, true));
    UnselectedEntry(pre, e, post, x, CreditTokens(), InBucket(RecurringCreditBucket, false));
    UnselectedEntry(pre, e, post, x, CreditTokens(), InBucket(OneTimeCreditBucket, false));
  }

  // ---------------------------------------------------------------- leaving entries out

  ghost predicate NonNegative(catalog: seq<Entry>) {
    forall m :: m in catalog ==> 0 <= m.monthlyTokens && 0 <= m.creditTokens
  }

  lemma LooseSumAppend(models: seq<Entry>, m: Entry, pick: Entry -> int, keep: Entry -> bool)
    ensures LooseSum(models + [m], pick, keep)
         == LooseSum(models, pick, keep) + if keep(m) && !Pooled(m) then pick(m) else 0
  {
    assert (models + [m])[..|models|] == models;
  }

  lemma {:induction false} KeptLooseSum(catalog: seq<Entry>, pick: Entry -> int, keep: Entry -> bool)
    requires forall m :: m in catalog ==> 0 <= pick(m)
    ensures LooseSum(Kept(catalog, true), pick, keep) <= LooseSum(Kept(catalog, false), pick, keep)
  {
    if catalog != [] {
      var last := |catalog| - 1;
      KeptLooseSum(catalog[..last], pick, keep);
      LooseSumAppend(Kept(catalog[..last], true), catalog[last], pick, keep);
      LooseSumAppend(Kept(catalog[..last], false), catalog[last], pick, keep);
      assert 0 <= pick(catalog[last]);
    }
  }

  lemma ExclusionNeverRaisesASum(catalog: seq<Entry>, pick: Entry -> int, keep: Entry -> bool)
    requires forall m :: m in catalog ==> 0 <= pick(m)
    ensures DedupedTotal(Kept(catalog, true), pick, keep) <= DedupedTotal(Kept(catalog, false), pick, keep)
  {
    var strict, lax := Kept(catalog, true), Kept(catalog, false);
    forall m ensures m in strict ==> m in lax && m in catalog {
      KeptHas(catalog, true, m);
      KeptHas(catalog, false, m);
    }
    var f, g := PoolFigure(strict, pick, keep), PoolFigure(lax, pick, keep);
    forall k ensures f(k) <= g(k) {
      PoolMaxIs(strict, pick, keep, k);
      PoolMaxIs(lax, pick, keep, k);
    }
    PoolsInclude(strict, keep, lax, keep);
    PoolSumOver(strict, pick, keep, Pools(lax, keep));
    SumMonotone(Pools(lax, keep), f, g);
    KeptLooseSum(catalog, pick, keep);
    DedupedMeaning(strict, pick, keep);
    DedupedMeaning(lax, pick, keep);
  }

  lemma {:induction false} FewerPoolsFewerBoosts(boosts: seq<Boost>, few: set<string>, many: set<string>)
    requires few <= many && forall b :: b in boosts ==> 0 <= b.boostMonthlyTokens
    ensures BoostSum(boosts, few) <= BoostSum(boosts, many)
  {
    if boosts != [] {
      assert boosts[0] in boosts;
      FewerPoolsFewerBoosts(boosts[1..], few, many);
    }
  }

  /** Leaving out the entries whose terms say "avoid" never raises a published figure. */
  lemma ExcludingTosAvoidNeverRaises(catalog: seq<Entry>, boosts: seq<Boost>)
    requires NonNegative(catalog) && forall b :: b in boosts ==> 0 <= b.boostMonthlyTokens
    ensures
      var strict, lax := TotalsOf(catalog, true, boosts), TotalsOf(catalog, false, boosts);
      strict.steadyRecurringTokens <= lax.steadyRecurringTokens &&
      strict.steadyWithRecurringCreditsTokens <= lax.steadyWithRecurringCreditsTokens &&
      strict.firstMonthRealisticTokens <= lax.firstMonthRealisticTokens &&
      strict.boostMonthlyTokens <= lax.boostMonthlyTokens &&
      strict.gatedRecurringTokens <= lax.gatedRecurringTokens
  {
    ExclusionNeverRaisesASum(catalog, MonthlyTokens(), InBucket(SteadyMonthlyBucket, false));
    ExclusionNeverRaisesASum(catalog, MonthlyTokens(), InBucket(SteadyMonthlyBucket, true));
    ExclusionNeverRaisesASum(catalog, CreditTokens(), InBucket(RecurringCreditBucket, false));
    ExclusionNeverRaisesASum(catalog, CreditTokens(), InBucket(OneTimeCreditBucket, false));
    var live := InBucket(SteadyMonthlyBucket, false);
    forall m ensures m in Kept(catalog, true) ==> m in Kept(catalog, false) {
      KeptHas(catalog, true, m);
      KeptHas(catalog, false, m);
    }
    PoolsInclude(Kept(catalog, true), live, Kept(catalog, false), live);
    FewerPoolsFewerBoosts(boosts, Pools(Kept(catalog, true), live), Pools(Kept(catalog, false), live));
  }
}
