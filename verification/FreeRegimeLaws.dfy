/**
  Which published figure an entry feeds, by its regime: the effect of one more entry on every
  figure, wherever in the catalogue it stands.
 */
module FreeRegimeLaws {
  import opened Wrappers
  import opened FreeModelCatalog
  import opened FreeTierLaws

  ghost predicate Listed(m: Entry, excludeTosAvoid: bool) {
    m.enabled != Some(false) && (excludeTosAvoid ==> m.tos != Avoid)
  }

  ghost predicate Loose(m: Entry) {
    m.poolKey == None || m.poolKey == Some("")
  }

  /** Paid out every month, with or without a key. */
  ghost predicate Steady(m: Entry) {
    m.freeType == RecurringDaily || m.freeType == RecurringMonthly || m.freeType == Keyless
  }

  ghost function Tokens(m: Entry): int {
    if Steady(m) then m.monthlyTokens else m.creditTokens
  }

  /** The two draw on one pool for the same figure. */
  ghost predicate Mates(a: Entry, b: Entry) {
    && a.poolKey == b.poolKey && !Loose(a)
    && a.eligibilityGate.Some? == b.eligibilityGate.Some?
    && (a.freeType == b.freeType || (Steady(a) && Steady(b)))
  }

  /** What the pool of e counts with so far: 0, or the most tokens of any listed mate. */
  ghost predicate PoolCountsWith(catalog: seq<Entry>, x: bool, e: Entry, best: int) {
    && 0 <= best
    && (forall m :: m in catalog && Listed(m, x) && Mates(m, e) ==> Tokens(m) <= best)
    && (best == 0 || exists m :: m in catalog && Listed(m, x) && Mates(m, e) && Tokens(m) == best)
  }

  /** All its tokens, or what they exceed those of its pool by. */
  ghost function Raise(e: Entry, best: int): int {
    if Loose(e) then Tokens(e) else if best < Tokens(e) then Tokens(e) - best else 0
  }

  /** Entry e is the first to draw on its pool for the steady figure. */
  ghost predicate OpensPool(catalog: seq<Entry>, x: bool, e: Entry) {
    !Loose(e) && forall m :: m in catalog && Listed(m, x) ==> !Mates(m, e)
  }

  ghost function BoostsOf(boosts: seq<Boost>, pool: string): int {
    if boosts == [] then 0
    else (if boosts[0].poolKey == pool then boosts[0].boostMonthlyTokens else 0) + BoostsOf(boosts[1..], pool)
  }

  // ---------------------------------------------------------------- one sum, one set at a time

  lemma PoolMaxIsBest(catalog: seq<Entry>, x: bool, e: Entry, best: int, pick: Entry -> int, keep: Entry -> bool)
    requires PoolCountsWith(catalog, x, e, best) && !Loose(e)
    requires forall m :: Draws(m, keep, e.poolKey.value) <==> Mates(m, e)
    requires forall m :: Mates(m, e) ==> pick(m) == Tokens(m)
    ensures PoolMax(Kept(catalog, x), pick, keep, e.poolKey.value) == best
  {
    var models := Kept(catalog, x);
    forall m ensures m in models <==> m in catalog && Listed(m, x) {
      KeptHas(catalog, x, m);
    }
    PoolMaxMeaning(models, pick, keep, e.poolKey.value, best);
  }

  /** An entry a selection keeps raises its sum by all its tokens, or by what its pool lacks. */
  lemma FeedsSum(pre: seq<Entry>, e: Entry, post: seq<Entry>, x: bool, best: int, pick: Entry -> int, keep: Entry -> bool)
    requires Listed(e, x) && keep(e) && pick(e) == Tokens(e) && PoolCountsWith(pre + post, x, e, best)
    requires !Loose(e) ==> forall m :: Draws(m, keep, e.poolKey.value) <==> Mates(m, e)
    requires !Loose(e) ==> forall m :: Mates(m, e) ==> pick(m) == Tokens(m)
    ensures DedupedTotal(Kept(pre + [e] + post, x), pick, keep)
         == DedupedTotal(Kept(pre + post, x), pick, keep) + Raise(e, best)
  {
    KeptInserted(pre, e, post, x);
    KeptAppend(pre, post, x);
    EntryGain(Kept(pre, x), Kept(post, x), e, pick, keep);
    if !Loose(e) {
      PoolMaxIsBest(pre + post, x, e, best, pick, keep);
    }
  }

  lemma SteadyMates(e: Entry, m: Entry, gated: bool)
    requires Steady(e) && e.eligibilityGate.Some? == gated && !Loose(e)
    ensures Draws(m, InBucket(SteadyMonthlyBucket, gated), e.poolKey.value) <==> Mates(m, e)
    ensures Mates(m, e) ==> Tokens(m) == m.monthlyTokens
  {
  }

  lemma FeedsSteady(pre: seq<Entry>, e: Entry, post: seq<Entry>, x: bool, best: int, gated: bool)
    requires Listed(e, x) && Steady(e) && e.eligibilityGate.Some? == gated && PoolCountsWith(pre + post, x, e, best)
    ensures DedupedTotal(Kept(pre + [e] + post, x), MonthlyTokens(), InBucket(SteadyMonthlyBucket, gated))
         == DedupedTotal(Kept(pre + post, x), MonthlyTokens(), InBucket(SteadyMonthlyBucket, gated)) + Raise(e, best)
  {
    if !Loose(e) {
      forall m
        ensures Draws(m, InBucket(SteadyMonthlyBucket, gated), e.poolKey.value) <==> Mates(m, e)
        ensures Mates(m, e) ==> Tokens(m) == m.monthlyTokens
      {
        SteadyMates(e, m, gated);
      }
    }
    FeedsSum(pre, e, post, x, best, MonthlyTokens(), InBucket(SteadyMonthlyBucket, gated));
  }

  ghost predicate Credit(e: Entry, bucket: TokenBucket) {
    if bucket == RecurringCreditBucket then e.freeType == RecurringCredit
    else bucket == OneTimeCreditBucket && e.freeType == OneTimeInitial
  }

  lemma FeedsCredit(pre: seq<Entry>, e: Entry, post: seq<Entry>, x: bool, best: int, bucket: TokenBucket)
    requires Listed(e, x) && Credit(e, bucket) && e.eligibilityGate == None && PoolCountsWith(pre + post, x, e, best)
    ensures DedupedTotal(Kept(pre + [e] + post, x), CreditTokens(), InBucket(bucket, false))
         == DedupedTotal(Kept(pre + post, x), CreditTokens(), InBucket(bucket, false)) + Raise(e, best)
  {
    FeedsSum(pre, e, post, x, best, CreditTokens(), InBucket(bucket, false));
  }

  /** The sums an entry is not selected for stay. */
  lemma OtherSum(pre: seq<Entry>, e: Entry, post: seq<Entry>, x: bool, bucket: TokenBucket, gated: bool)
    requires BucketOf(e.freeType) != bucket || e.eligibilityGate.Some? != gated
    ensures
      var before, after, keep := Kept(pre + post, x), Kept(pre + [e] + post, x), InBucket(bucket, gated);
      DedupedTotal(after, MonthlyTokens(), keep) == DedupedTotal(before, MonthlyTokens(), keep) &&
      DedupedTotal(after, CreditTokens(), keep) == DedupedTotal(before, CreditTokens(), keep)
  {
    UnselectedEntry(pre, e, post, x, MonthlyTokens(), InBucket(bucket, gated));
    UnselectedEntry(pre, e, post, x, CreditTokens(), InBucket(bucket, gated));
  }

  lemma OneMore(pre: seq<Entry>, e: Entry, post: seq<Entry>, x: bool)
    requires Listed(e, x)
    ensures |Kept(pre + [e] + post, x)| == |Kept(pre + post, x)| + 1
  {
    KeptInserted(pre, e, post, x);
    KeptAppend(pre, post, x);
  }

  lemma {:induction false} ProvidersAppend(a: seq<Entry>, b: seq<Entry>, keep: Entry -> bool)
    ensures ProvidersOf(a + b, keep) == ProvidersOf(a, keep) + ProvidersOf(b, keep)
  {
    if b == [] {
      assert a + b == a;
    } else {
      var front := b[..|b| - 1];
      assert (a + b)[..|a + b| - 1] == a + front;
      ProvidersAppend(a, front, keep);
    }
  }

  lemma ProvidersInserted(pre: seq<Entry>, e: Entry, post: seq<Entry>, x: bool, keep: Entry -> bool)
    requires Listed(e, x)
    ensures
      var before, after := ProvidersOf(Kept(pre + post, x), keep), ProvidersOf(Kept(pre + [e] + post, x), keep);
      after == if keep(e) then before + {e.provider} else before
  {
    var a, b := Kept(pre, x), Kept(post, x);
    KeptInserted(pre, e, post, x);
    KeptAppend(pre, post, x);
    ProvidersAppend(a + [e], b, keep);
    ProvidersAppend(a, b, keep);
    assert (a + [e])[..|a|] == a;
    Slide(ProvidersOf(a, keep), e.provider, ProvidersOf(b, keep));
  }

  lemma Slide(a: set<string>, k: string, b: set<string>)
    ensures a + {k} + b == a + b + {k}
  {
  }

  lemma {:induction false} PoolsAppend(a: seq<Entry>, b: seq<Entry>, keep: Entry -> bool)
    ensures Pools(a + b, keep) == Pools(a, keep) + Pools(b, keep)
  {
    if b == [] {
      assert a + b == a;
    } else {
      var front := b[..|b| - 1];
      assert (a + b)[..|a + b| - 1] == a + front;
      PoolsAppend(a, front, keep);
    }
  }

  lemma PoolsOfInserted(pre: seq<Entry>, e: Entry, post: seq<Entry>, x: bool, keep: Entry -> bool)
    requires Listed(e, x)
    ensures
      var before, after := Pools(Kept(pre + post, x), keep), Pools(Kept(pre + [e] + post, x), keep);
      after == if keep(e) && !Loose(e) then before + {e.poolKey.value} else before
  {
    var a, b := Kept(pre, x), Kept(post, x);
    KeptInserted(pre, e, post, x);
    KeptAppend(pre, post, x);
    PoolsAppend(a + [e], b, keep);
    PoolsAppend(a, b, keep);
    assert (a + [e])[..|a|] == a;
    if !Loose(e) {
      Slide(Pools(a, keep), e.poolKey.value, Pools(b, keep));
    }
  }

  lemma {:induction false} BoostOfOneMore(boosts: seq<Boost>, pools: set<string>, pool: string)
    ensures BoostSum(boosts, pools + {pool}) == BoostSum(boosts, pools) + if pool in pools then 0 else BoostsOf(boosts, pool)
  {
    if boosts != [] {
      BoostOfOneMore(boosts[1..], pools, pool);
    }
  }

  /** In none of the sums. */
  ghost predicate Unsummed(e: Entry) {
    e.freeType == RecurringUncapped || e.freeType == Discontinued || (e.eligibilityGate.Some? && !Steady(e))
  }

  lemma SteadySums(pre: seq<Entry>, e: Entry, post: seq<Entry>, x: bool, boosts: seq<Boost>, best: int)
    requires Listed(e, x) && Steady(e) && e.eligibilityGate == None
    requires PoolCountsWith(pre + post, x, e, best)
    ensures
      var t, t', raise := TotalsOf(pre + post, x, boosts), TotalsOf(pre + [e] + post, x, boosts), Raise(e, best);
      t'.steadyRecurringTokens == t.steadyRecurringTokens + raise &&
      t'.steadyWithRecurringCreditsTokens == t.steadyWithRecurringCreditsTokens + raise &&
      t'.firstMonthRealisticTokens == t.firstMonthRealisticTokens + raise &&
      t'.gatedRecurringTokens == t.gatedRecurringTokens
  {
    assert BucketOf(e.freeType) == SteadyMonthlyBucket;
    FeedsSteady(pre, e, post, x, best, false);
    OtherSum(pre, e, post, x, SteadyMonthlyBucket, true);
    OtherSum(pre, e, post, x, RecurringCreditBucket, false);
    OtherSum(pre, e, post, x, OneTimeCreditBucket, false);
  }

  lemma GatedSums(pre: seq<Entry>, e: Entry, post: seq<Entry>, x: bool, boosts: seq<Boost>, best: int)
    requires Listed(e, x) && Steady(e) && e.eligibilityGate.Some?
    requires PoolCountsWith(pre + post, x, e, best)
    ensures
      var t, t', raise := TotalsOf(pre + post, x, boosts), TotalsOf(pre + [e] + post, x, boosts), Raise(e, best);
      t'.steadyRecurringTokens == t.steadyRecurringTokens &&
      t'.steadyWithRecurringCreditsTokens == t.steadyWithRecurringCreditsTokens &&
      t'.firstMonthRealisticTokens == t.firstMonthRealisticTokens &&
      t'.gatedRecurringTokens == t.gatedRecurringTokens + raise
  {
    assert BucketOf(e.freeType) == SteadyMonthlyBucket;
    FeedsSteady(pre, e, post, x, best, true);
    OtherSum(pre, e, post, x, SteadyMonthlyBucket, false);
    OtherSum(pre, e, post, x, RecurringCreditBucket, false);
    OtherSum(pre, e, post, x, OneTimeCreditBucket, false);
  }

  lemma RecurringCreditSums(pre: seq<Entry>, e: Entry, post: seq<Entry>, x: bool, boosts: seq<Boost>, best: int)
    requires Listed(e, x) && e.freeType == RecurringCredit && e.eligibilityGate == None
    requires PoolCountsWith(pre + post, x, e, best)
    ensures
      var t, t', raise := TotalsOf(pre + post, x, boosts), TotalsOf(pre + [e] + post, x, boosts), Raise(e, best);
      t'.steadyRecurringTokens == t.steadyRecurringTokens &&
      t'.steadyWithRecurringCreditsTokens == t.steadyWithRecurringCreditsTokens + raise &&
      t'.firstMonthRealisticTokens == t.firstMonthRealisticTokens + raise &&
      t'.gatedRecurringTokens == t.gatedRecurringTokens
  {
    FeedsCredit(pre, e, post, x, best, RecurringCreditBucket);
    OtherSum(pre, e, post, x, SteadyMonthlyBucket, false);
    OtherSum(pre, e, post, x, SteadyMonthlyBucket, true);
    OtherSum(pre, e, post, x, OneTimeCreditBucket, false);
  }

  lemma OneTimeSums(pre: seq<Entry>, e: Entry, post: seq<Entry>, x: bool, boosts: seq<Boost>, best: int)
    requires Listed(e, x) && e.freeType == OneTimeInitial && e.eligibilityGate == None
    requires PoolCountsWith(pre + post, x, e, best)
    ensures
      var t, t', raise := TotalsOf(pre + post, x, boosts), TotalsOf(pre + [e] + post, x, boosts), Raise(e, best);
      t'.steadyRecurringTokens == t.steadyRecurringTokens &&
      t'.steadyWithRecurringCreditsTokens == t.steadyWithRecurringCreditsTokens &&
      t'.firstMonthRealisticTokens == t.firstMonthRealisticTokens + raise &&
      t'.gatedRecurringTokens == t.gatedRecurringTokens
  {
    FeedsCredit(pre, e, post, x, best, OneTimeCreditBucket);
    OtherSum(pre, e, post, x, SteadyMonthlyBucket, false);
    OtherSum(pre, e, post, x, SteadyMonthlyBucket, true);
    OtherSum(pre, e, post, x, RecurringCreditBucket, false);
  }

  lemma IdleSums(pre: seq<Entry>, e: Entry, post: seq<Entry>, x: bool, boosts: seq<Boost>)
    requires Listed(e, x) && Unsummed(e)
    ensures
      var t, t' := TotalsOf(pre + post, x, boosts), TotalsOf(pre + [e] + post, x, boosts);
      t'.steadyRecurringTokens == t.steadyRecurringTokens &&
      t'.steadyWithRecurringCreditsTokens == t.steadyWithRecurringCreditsTokens &&
      t'.firstMonthRealisticTokens == t.firstMonthRealisticTokens &&
      t'.gatedRecurringTokens == t.gatedRecurringTokens
  {
    OtherSum(pre, e, post, x, SteadyMonthlyBucket, false);
    OtherSum(pre, e, post, x, SteadyMonthlyBucket, true);
    OtherSum(pre, e, post, x, RecurringCreditBucket, false);
    OtherSum(pre, e, post, x, OneTimeCreditBucket, false);
  }

  lemma UncappedAfter(pre: seq<Entry>, e: Entry, post: seq<Entry>, x: bool, boosts: seq<Boost>)
    requires Listed(e, x)
    ensures
      var t, t' := TotalsOf(pre + post, x, boosts), TotalsOf(pre + [e] + post, x, boosts);
      if e.freeType == RecurringUncapped && e.eligibilityGate == None then
        t'.uncappedProviders == t.uncappedProviders + {e.provider}
      else t'.uncappedProviders == t.uncappedProviders
  {
    var open := InBucket(UncappedBucket, false);
    assert open(e) <==> e.freeType == RecurringUncapped && e.eligibilityGate == None;
    ProvidersInserted(pre, e, post, x, open);
  }

  lemma GatedAfter(pre: seq<Entry>, e: Entry, post: seq<Entry>, x: bool, boosts: seq<Boost>)
    requires Listed(e, x)
    ensures
      var t, t' := TotalsOf(pre + post, x, boosts), TotalsOf(pre + [e] + post, x, boosts);
      if Steady(e) && e.eligibilityGate.Some? then t'.gatedProviders == t.gatedProviders + {e.provider}
      else t'.gatedProviders == t.gatedProviders
  {
    var gated := InBucket(SteadyMonthlyBucket, true);
    assert gated(e) <==> Steady(e) && e.eligibilityGate.Some?;
    ProvidersInserted(pre, e, post, x, gated);
  }

  lemma CountAfter(pre: seq<Entry>, e: Entry, post: seq<Entry>, x: bool, boosts: seq<Boost>)
    requires Listed(e, x)
    ensures TotalsOf(pre + [e] + post, x, boosts).modelCount == TotalsOf(pre + post, x, boosts).modelCount + 1
  {
    OneMore(pre, e, post, x);
  }

  lemma SameLivePools(pre: seq<Entry>, e: Entry, post: seq<Entry>, x: bool)
    requires Listed(e, x) && (!Steady(e) || e.eligibilityGate.Some?)
    ensures Pools(Kept(pre + [e] + post, x), InBucket(SteadyMonthlyBucket, false))
         == Pools(Kept(pre + post, x), InBucket(SteadyMonthlyBucket, false))
  {
    PoolsOfInserted(pre, e, post, x, InBucket(SteadyMonthlyBucket, false));
  }

  lemma SamePools(pre: seq<Entry>, e: Entry, post: seq<Entry>, x: bool, boosts: seq<Boost>)
    requires Listed(e, x) && (!Steady(e) || e.eligibilityGate.Some?)
    ensures
      var t, t' := TotalsOf(pre + post, x, boosts), TotalsOf(pre + [e] + post, x, boosts);
      t'.boostMonthlyTokens == t.boostMonthlyTokens && t'.poolCount == t.poolCount
  {
    SameLivePools(pre, e, post, x);
  }

  lemma LiveUnlessOpened(catalog: seq<Entry>, e: Entry, x: bool)
    requires Steady(e) && e.eligibilityGate == None && !Loose(e)
    ensures e.poolKey.value in Pools(Kept(catalog, x), InBucket(SteadyMonthlyBucket, false)) <==> !OpensPool(catalog, x, e)
  {
    var keep, key := InBucket(SteadyMonthlyBucket, false), e.poolKey.value;
    forall m ensures Draws(m, keep, key) <==> Mates(m, e) {
      SteadyMates(e, m, false);
    }
    forall m ensures m in Kept(catalog, x) <==> m in catalog && Listed(m, x) {
      KeptHas(catalog, x, m);
    }
    PoolsHave(Kept(catalog, x), keep, key);
  }

  lemma LivePoolsAfter(pre: seq<Entry>, e: Entry, post: seq<Entry>, x: bool, boosts: seq<Boost>)
    requires Listed(e, x) && Steady(e) && e.eligibilityGate == None
    ensures
      var live := Pools(Kept(pre + post, x), InBucket(SteadyMonthlyBucket, false));
      var live' := Pools(Kept(pre + [e] + post, x), InBucket(SteadyMonthlyBucket, false));
      if OpensPool(pre + post, x, e) then
        |live'| == |live| + 1 && BoostSum(boosts, live') == BoostSum(boosts, live) + BoostsOf(boosts, e.poolKey.value)
      else live' == live
  {
    var live := Pools(Kept(pre + post, x), InBucket(SteadyMonthlyBucket, false));
    PoolsOfInserted(pre, e, post, x, InBucket(SteadyMonthlyBucket, false));
    if !Loose(e) {
      var key := e.poolKey.value;
      LiveUnlessOpened(pre + post, e, x);
      BoostOfOneMore(boosts, live, key);
      OneMoreKey(live, key);
    }
  }

  lemma OneMoreKey(keys: set<string>, key: string)
    ensures if key in keys then keys + {key} == keys else |keys + {key}| == |keys| + 1
  {
  }

  lemma SteadyPools(pre: seq<Entry>, e: Entry, post: seq<Entry>, x: bool, boosts: seq<Boost>)
    requires Listed(e, x) && Steady(e) && e.eligibilityGate == None
    ensures
      var t, t', opens := TotalsOf(pre + post, x, boosts), TotalsOf(pre + [e] + post, x, boosts), OpensPool(pre + post, x, e);
      t'.boostMonthlyTokens == t.boostMonthlyTokens + (if opens then BoostsOf(boosts, e.poolKey.value) else 0) &&
      t'.poolCount == t.poolCount + if opens then 1 else 0
  {
    LivePoolsAfter(pre, e, post, x, boosts);
  }

  // ---------------------------------------------------------------- the regimes

  /** A daily, monthly or keyless allowance open to anyone raises the steady figure and the two built on it. */
  lemma SteadyEntry(pre: seq<Entry>, e: Entry, post: seq<Entry>, x: bool, boosts: seq<Boost>, best: int)
    requires Listed(e, x) && Steady(e) && e.eligibilityGate == None
    requires PoolCountsWith(pre + post, x, e, best)
    ensures
      var t, raise, opens := TotalsOf(pre + post, x, boosts), Raise(e, best), OpensPool(pre + post, x, e);
      TotalsOf(pre + [e] + post, x, boosts) ==
      t.(steadyRecurringTokens := t.steadyRecurringTokens + raise,
         steadyWithRecurringCreditsTokens := t.steadyWithRecurringCreditsTokens + raise,
         firstMonthRealisticTokens := t.firstMonthRealisticTokens + raise,
         boostMonthlyTokens := t.boostMonthlyTokens + (if opens then BoostsOf(boosts, e.poolKey.value) else 0),
         modelCount := t.modelCount + 1,
         poolCount := t.poolCount + if opens then 1 else 0)
  {
    SteadySums(pre, e, post, x, boosts, best);
    UncappedAfter(pre, e, post, x, boosts);
    GatedAfter(pre, e, post, x, boosts);
    CountAfter(pre, e, post, x, boosts);
    SteadyPools(pre, e, post, x, boosts);
  }

  /** Behind an eligibility gate the same allowance raises the gated figure and names its provider there. */
  lemma GatedSteadyEntry(pre: seq<Entry>, e: Entry, post: seq<Entry>, x: bool, boosts: seq<Boost>, best: int)
    requires Listed(e, x) && Steady(e) && e.eligibilityGate.Some?
    requires PoolCountsWith(pre + post, x, e, best)
    ensures
      var t := TotalsOf(pre + post, x, boosts);
      TotalsOf(pre + [e] + post, x, boosts) ==
      t.(gatedRecurringTokens := t.gatedRecurringTokens + Raise(e, best),
         gatedProviders := t.gatedProviders + {e.provider},
         modelCount := t.modelCount + 1)
  {
    GatedSums(pre, e, post, x, boosts, best);
    UncappedAfter(pre, e, post, x, boosts);
    GatedAfter(pre, e, post, x, boosts);
    CountAfter(pre, e, post, x, boosts);
    SamePools(pre, e, post, x, boosts);
  }

  /** A credit that refills raises the figure that includes such credits, and the first month's. */
  lemma RecurringCreditEntry(pre: seq<Entry>, e: Entry, post: seq<Entry>, x: bool, boosts: seq<Boost>, best: int)
    requires Listed(e, x) && e.freeType == RecurringCredit && e.eligibilityGate == None
    requires PoolCountsWith(pre + post, x, e, best)
    ensures
      var t, raise := TotalsOf(pre + post, x, boosts), Raise(e, best);
      TotalsOf(pre + [e] + post, x, boosts) ==
      t.(steadyWithRecurringCreditsTokens := t.steadyWithRecurringCreditsTokens + raise,
         firstMonthRealisticTokens := t.firstMonthRealisticTokens + raise,
         modelCount := t.modelCount + 1)
  {
    RecurringCreditSums(pre, e, post, x, boosts, best);
    UncappedAfter(pre, e, post, x, boosts);
    GatedAfter(pre, e, post, x, boosts);
    CountAfter(pre, e, post, x, boosts);
    SamePools(pre, e, post, x, boosts);
  }

  /** A signup credit raises the first month's figure only. */
  lemma OneTimeEntry(pre: seq<Entry>, e: Entry, post: seq<Entry>, x: bool, boosts: seq<Boost>, best: int)
    requires Listed(e, x) && e.freeType == OneTimeInitial && e.eligibilityGate == None
    requires PoolCountsWith(pre + post, x, e, best)
    ensures
      var t := TotalsOf(pre + post, x, boosts);
      TotalsOf(pre + [e] + post, x, boosts) ==
      t.(firstMonthRealisticTokens := t.firstMonthRealisticTokens + Raise(e, best), modelCount := t.modelCount + 1)
  {
    OneTimeSums(pre, e, post, x, boosts, best);
    UncappedAfter(pre, e, post, x, boosts);
    GatedAfter(pre, e, post, x, boosts);
    CountAfter(pre, e, post, x, boosts);
    SamePools(pre, e, post, x, boosts);
  }

  /** Uncapped access open to anyone names its provider and raises no figure. */
  lemma UncappedEntry(pre: seq<Entry>, e: Entry, post: seq<Entry>, x: bool, boosts: seq<Boost>)
    requires Listed(e, x) && e.freeType == RecurringUncapped && e.eligibilityGate == None
    ensures
      var t := TotalsOf(pre + post, x, boosts);
      TotalsOf(pre + [e] + post, x, boosts) ==
      t.(uncappedProviders := t.uncappedProviders + {e.provider}, modelCount := t.modelCount + 1)
  {
    IdleSums(pre, e, post, x, boosts);
    UncappedAfter(pre, e, post, x, boosts);
    GatedAfter(pre, e, post, x, boosts);
    CountAfter(pre, e, post, x, boosts);
    SamePools(pre, e, post, x, boosts);
  }

  /** A discontinued entry, or anything but a steady allowance behind a gate, is counted as a model and no more. */
  lemma IdleEntry(pre: seq<Entry>, e: Entry, post: seq<Entry>, x: bool, boosts: seq<Boost>)
    requires Listed(e, x) && (e.freeType == Discontinued || (e.eligibilityGate.Some? && !Steady(e)))
    ensures
      var t := TotalsOf(pre + post, x, boosts);
      TotalsOf(pre + [e] + post, x, boosts) == t.(modelCount := t.modelCount + 1)
  {
    IdleSums(pre, e, post, x, boosts);
    UncappedAfter(pre, e, post, x, boosts);
    GatedAfter(pre, e, post, x, boosts);
    CountAfter(pre, e, post, x, boosts);
    SamePools(pre, e, post, x, boosts);
  }

  /** Nothing listed, nothing published. */
  lemma EmptyCatalogue(catalog: seq<Entry>, x: bool, boosts: seq<Boost>)
    requires forall m :: m in catalog ==> !Listed(m, x)
    ensures TotalsOf(catalog, x, boosts) == Totals(0, 0, 0, 0, 0, {}, {}, 0, 0)
  {
    var models := Kept(catalog, x);
    forall m ensures m !in models {
      KeptHas(catalog, x, m);
    }
    assert |models| > 0 ==> models[0] in models;
    NothingSummed(models, MonthlyTokens(), InBucket(SteadyMonthlyBucket, false));
    NothingSummed(models, MonthlyTokens(), InBucket(SteadyMonthlyBucket, true));
    NothingSummed(models, CreditTokens(), InBucket(RecurringCreditBucket, false));
    NothingSummed(models, CreditTokens(), InBucket(OneTimeCreditBucket, false));
    NothingSummed(models, CreditTokens(), InBucket(UncappedBucket, false));
    NoPoolsNoBoosts(boosts);
  }

  lemma NothingSummed(models: seq<Entry>, pick: Entry -> int, keep: Entry -> bool)
    requires models == []
    ensures DedupedTotal(models, pick, keep) == 0 && Pools(models, keep) == {} && ProvidersOf(models, keep) == {}
  {
    assert Pools(models, keep) == {};
  }

  lemma {:induction false} NoPoolsNoBoosts(boosts: seq<Boost>)
    ensures BoostSum(boosts, {}) == 0
  {
    if boosts != [] {
      NoPoolsNoBoosts(boosts[1..]);
    }
  }
}
