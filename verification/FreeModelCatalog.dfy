/**
  Free-tier accounting: per-model allowances are summed so that models drawing on one shared
  pool count that pool once, at its largest figure.
 */
module FreeModelCatalog {
  import opened Wrappers

  datatype FreeType =
    | RecurringDaily | RecurringMonthly | RecurringCredit | RecurringUncapped
    | OneTimeInitial | Keyless | Discontinued

  datatype TokenBucket = SteadyMonthlyBucket | RecurringCreditBucket | OneTimeCreditBucket | UncappedBucket | NoBucket

  datatype TosVerdict = Ok | Caution | Ambiguous | Avoid | Unknown

  datatype Entry = Entry(
    provider: string, modelId: string, monthlyTokens: int, creditTokens: int, freeType: FreeType,
    poolKey: Option<string>, tos: TosVerdict, eligibilityGate: Option<string>, enabled: Option<bool>)

  datatype Boost = Boost(poolKey: string, boostMonthlyTokens: int)

  datatype Totals = Totals(
    steadyRecurringTokens: int, steadyWithRecurringCreditsTokens: int, firstMonthRealisticTokens: int,
    boostMonthlyTokens: int, gatedRecurringTokens: int,
    uncappedProviders: set<string>, gatedProviders: set<string>, modelCount: nat, poolCount: nat)

  function BucketOf(t: FreeType): TokenBucket {
    match t
    case RecurringDaily | RecurringMonthly | Keyless => SteadyMonthlyBucket
    case RecurringCredit => RecurringCreditBucket
    case RecurringUncapped => UncappedBucket
    case OneTimeInitial => OneTimeCreditBucket
    case Discontinued => NoBucket
  }

  function Max(a: int, b: int): int {
    if a < b then b else a
  }

  /** An empty pool key counts as none. */
  predicate Pooled(m: Entry) {
    m.poolKey.Some? && m.poolKey.value != ""
  }

  // ---------------------------------------------------------------- what the sum means

  /** The largest included figure of pool k, and at least 0. */
  function PoolMax(models: seq<Entry>, pick: Entry -> int, keep: Entry -> bool, k: string): int {
    if models == [] then 0
    else
      var before, m := PoolMax(models[..|models| - 1], pick, keep, k), models[|models| - 1];
      if keep(m) && Pooled(m) && m.poolKey.value == k then Max(before, pick(m)) else before
  }

  function LooseSum(models: seq<Entry>, pick: Entry -> int, keep: Entry -> bool): int {
    if models == [] then 0
    else
      var before, m := LooseSum(models[..|models| - 1], pick, keep), models[|models| - 1];
      if keep(m) && !Pooled(m) then before + pick(m) else before
  }

  function Pools(models: seq<Entry>, keep: Entry -> bool): set<string> {
    if models == [] then {}
    else
      var before, m := Pools(models[..|models| - 1], keep), models[|models| - 1];
      if keep(m) && Pooled(m) then before + {m.poolKey.value} else before
  }

  ghost function SumOver(keys: set<string>, f: string -> int): int {
    if keys == {} then 0
    else
      var k :| k in keys;
      f(k) + SumOver(keys - {k}, f)
  }

  ghost function PoolFigure(models: seq<Entry>, pick: Entry -> int, keep: Entry -> bool): string -> int {
    k => PoolMax(models, pick, keep, k)
  }

  /** What one more entry adds: its figure, or as much of it as its pool does not count with already. */
  function Gain(models: seq<Entry>, e: Entry, pick: Entry -> int, keep: Entry -> bool): int {
    if !keep(e) then 0
    else if Pooled(e) then Max(0, pick(e) - PoolMax(models, pick, keep, e.poolKey.value))
    else pick(e)
  }

  function DedupedTotal(models: seq<Entry>, pick: Entry -> int, keep: Entry -> bool): int {
    if models == [] then 0
    else
      var before, m := models[..|models| - 1], models[|models| - 1];
      DedupedTotal(before, pick, keep) + Gain(before, m, pick, keep)
  }

  lemma {:induction false} SumWithout(keys: set<string>, f: string -> int, x: string)
    requires x in keys
    ensures SumOver(keys, f) == f(x) + SumOver(keys - {x}, f)
  {
    var k :| k in keys && SumOver(keys, f) == f(k) + SumOver(keys - {k}, f);
    if k != x {
      SumWithout(keys - {k}, f, x);
      SumWithout(keys - {x}, f, k);
      assert keys - {k} - {x} == keys - {x} - {k};
    }
  }

  ghost predicate Draws(m: Entry, keep: Entry -> bool, k: string) {
    keep(m) && Pooled(m) && m.poolKey.value == k
  }

  ghost predicate IsPoolMax(models: seq<Entry>, pick: Entry -> int, keep: Entry -> bool, k: string, v: int) {
    && 0 <= v
    && (forall m :: m in models && Draws(m, keep, k) ==> pick(m) <= v)
    && (v == 0 || exists m :: m in models && Draws(m, keep, k) && pick(m) == v)
  }

  lemma {:induction false} PoolMaxIs(models: seq<Entry>, pick: Entry -> int, keep: Entry -> bool, k: string)
    ensures IsPoolMax(models, pick, keep, k, PoolMax(models, pick, keep, k))
  {
    if models != [] {
      var front, m := models[..|models| - 1], models[|models| - 1];
      PoolMaxIs(front, pick, keep, k);
      assert forall x :: x in models <==> x in front || x == m;
    }
  }

  lemma {:induction false} SumMonotone(keys: set<string>, f: string -> int, g: string -> int)
    requires forall k :: k in keys ==> f(k) <= g(k)
    ensures SumOver(keys, f) <= SumOver(keys, g)
    ensures SumOver(keys, f) == SumOver(keys, g) <==> forall k :: k in keys ==> f(k) == g(k)
  {
    if keys != {} {
      var k :| k in keys;
      SumWithout(keys, f, k);
      SumWithout(keys, g, k);
      SumMonotone(keys - {k}, f, g);
      assert forall j :: j in keys ==> j == k || j in keys - {k};
    }
  }

  /** Keys whose figure is zero may be added to the sum. */
  lemma {:induction false} SumOverMore(keys: set<string>, more: set<string>, f: string -> int)
    requires keys <= more && forall k :: k in more && k !in keys ==> f(k) == 0
    ensures SumOver(keys, f) == SumOver(more, f)
    decreases more
  {
    if k :| k in more && k !in keys {
      SumWithout(more, f, k);
      SumOverMore(keys, more - {k}, f);
    } else {
      assert keys == more;
    }
  }

  lemma {:induction false} PoolsHave(models: seq<Entry>, keep: Entry -> bool, k: string)
    ensures k in Pools(models, keep) <==> exists m :: m in models && Draws(m, keep, k)
  {
    if models != [] {
      var front, m := models[..|models| - 1], models[|models| - 1];
      PoolsHave(front, keep, k);
      assert forall x :: x in models <==> x in front || x == m;
      if k in Pools(front, keep) {
        var x :| x in front && Draws(x, keep, k);
        assert x in models;
      } else if Draws(m, keep, k) {
        assert m in models;
      }
    }
  }

  lemma PoolsInclude(few: seq<Entry>, p: Entry -> bool, many: seq<Entry>, q: Entry -> bool)
    requires forall m :: m in few && p(m) ==> m in many && q(m)
    ensures Pools(few, p) <= Pools(many, q)
  {
    forall k | k in Pools(few, p) ensures k in Pools(many, q) {
      PoolsHave(few, p, k);
      PoolsHave(many, q, k);
      var m :| m in few && Draws(m, p, k);
      assert Draws(m, q, k);
    }
  }

  lemma PoolSumOver(models: seq<Entry>, pick: Entry -> int, keep: Entry -> bool, more: set<string>)
    requires Pools(models, keep) <= more
    ensures SumOver(Pools(models, keep), PoolFigure(models, pick, keep))
         == SumOver(more, PoolFigure(models, pick, keep))
  {
    forall k | k in more && k !in Pools(models, keep)
      ensures PoolFigure(models, pick, keep)(k) == 0
    {
      PoolsHave(models, keep, k);
      PoolMaxIs(models, pick, keep, k);
    }
    SumOverMore(Pools(models, keep), more, PoolFigure(models, pick, keep));
  }

  /** Every included pool counts once, at its largest figure, and every included pool-less model on its own. */
  lemma {:induction false} DedupedMeaning(models: seq<Entry>, pick: Entry -> int, keep: Entry -> bool)
    ensures DedupedTotal(models, pick, keep)
         == SumOver(Pools(models, keep), PoolFigure(models, pick, keep)) + LooseSum(models, pick, keep)
  {
    if models != [] {
      var front, e := models[..|models| - 1], models[|models| - 1];
      DedupedMeaning(front, pick, keep);
      var all := Pools(models, keep);
      var f, f' := PoolFigure(front, pick, keep), PoolFigure(models, pick, keep);
      PoolSumOver(front, pick, keep, all);
      if keep(e) && Pooled(e) {
        var key := e.poolKey.value;
        SumWithout(all, f, key);
        SumWithout(all, f', key);
        SumMonotone(all - {key}, f, f');
      } else {
        SumMonotone(all, f, f');
      }
    }
  }

  // ---------------------------------------------------------------- the computation

  method DedupedSum(models: seq<Entry>, pick: Entry -> int, keep: Entry -> bool) returns (total: int)
    ensures total == DedupedTotal(models, pick, keep)
  {
    var poolMax: map<string, int> := map[];
    var loose := 0;
    for i := 0 to |models|
      invariant loose == LooseSum(models[..i], pick, keep)
      invariant poolMax.Keys == Pools(models[..i], keep)
      invariant forall k :: (if k in poolMax then poolMax[k] else 0) == PoolMax(models[..i], pick, keep, k)
    {
      var m := models[i];
      assert models[..i + 1][..i] == models[..i] && models[..i + 1] == models[..i] + [m];
      if keep(m) {
        if Pooled(m) {
          var key := m.poolKey.value;
          poolMax := poolMax[key := Max(if key in poolMax then poolMax[key] else 0, pick(m))];
        } else {
          loose := loose + pick(m);
        }
      }
    }
    assert models[..|models|] == models;
    total := loose;
    var pending := poolMax.Keys;
    ghost var figure := PoolFigure(models, pick, keep);
    while pending != {}
      invariant pending <= poolMax.Keys
      invariant total + SumOver(pending, figure) == LooseSum(models, pick, keep) + SumOver(poolMax.Keys, figure)
    {
      var key :| key in pending;
      SumWithout(pending, figure, key);
      total := total + poolMax[key];
      pending := pending - {key};
    }
    DedupedMeaning(models, pick, keep);
  }

  // ---------------------------------------------------------------- the published figures

  predicate Counted(m: Entry, excludeTosAvoid: bool) {
    !(excludeTosAvoid && m.tos == Avoid) && m.enabled != Some(false)
  }

  function Kept(catalog: seq<Entry>, excludeTosAvoid: bool): seq<Entry> {
    if catalog == [] then []
    else
      var before, m := Kept(catalog[..|catalog| - 1], excludeTosAvoid), catalog[|catalog| - 1];
      if Counted(m, excludeTosAvoid) then before + [m] else before
  }

  lemma {:induction false} KeptHas(catalog: seq<Entry>, excludeTosAvoid: bool, m: Entry)
    ensures m in Kept(catalog, excludeTosAvoid) <==> m in catalog && Counted(m, excludeTosAvoid)
  {
    if catalog != [] {
      var front, last := catalog[..|catalog| - 1], catalog[|catalog| - 1];
      KeptHas(front, excludeTosAvoid, m);
      assert m in catalog <==> m in front || m == last;
    }
  }

  function MonthlyTokens(): Entry -> int { (m: Entry) => m.monthlyTokens }

  function CreditTokens(): Entry -> int { (m: Entry) => m.creditTokens }

  /** Entries of a bucket, on one side or the other of the eligibility gate. */
  function InBucket(bucket: TokenBucket, gated: bool): Entry -> bool {
    (m: Entry) => BucketOf(m.freeType) == bucket && m.eligibilityGate.Some? == gated
  }

  function BoostSum(boosts: seq<Boost>, livePools: set<string>): int {
    if boosts == [] then 0
    else (if boosts[0].poolKey in livePools then boosts[0].boostMonthlyTokens else 0) + BoostSum(boosts[1..], livePools)
  }

  function ProvidersOf(models: seq<Entry>, keep: Entry -> bool): set<string> {
    if models == [] then {}
    else
      var before, m := ProvidersOf(models[..|models| - 1], keep), models[|models| - 1];
      if keep(m) then before + {m.provider} else before
  }

  ghost function TotalsOf(catalog: seq<Entry>, excludeTosAvoid: bool, boosts: seq<Boost>): Totals {
    var models := Kept(catalog, excludeTosAvoid);
    var steady := DedupedTotal(models, MonthlyTokens(), InBucket(SteadyMonthlyBucket, false));
    var credits := DedupedTotal(models, CreditTokens(), InBucket(RecurringCreditBucket, false));
    var oneTime := DedupedTotal(models, CreditTokens(), InBucket(OneTimeCreditBucket, false));
    var livePools := Pools(models, InBucket(SteadyMonthlyBucket, false));
    Totals(
      steady, steady + credits, steady + credits + oneTime, BoostSum(boosts, livePools),
      DedupedTotal(models, MonthlyTokens(), InBucket(SteadyMonthlyBucket, true)),
      ProvidersOf(models, InBucket(UncappedBucket, false)),
      ProvidersOf(models, InBucket(SteadyMonthlyBucket, true)),
      |models|, |livePools|)
  }

  method ComputeFreeModelTotals(catalog: seq<Entry>, excludeTosAvoid: bool, boosts: seq<Boost>) returns (t: Totals)
    ensures t == TotalsOf(catalog, excludeTosAvoid, boosts)
  {
    var models := Kept(catalog, excludeTosAvoid);
    var steady := DedupedSum(models, MonthlyTokens(), InBucket(SteadyMonthlyBucket, false));
    var gated := DedupedSum(models, MonthlyTokens(), InBucket(SteadyMonthlyBucket, true));
    var credits := DedupedSum(models, CreditTokens(), InBucket(RecurringCreditBucket, false));
    var oneTime := DedupedSum(models, CreditTokens(), InBucket(OneTimeCreditBucket, false));
    var livePools := Pools(models, InBucket(SteadyMonthlyBucket, false));
    t := Totals(
      steady, steady + credits, steady + credits + oneTime, BoostSum(boosts, livePools), gated,
      ProvidersOf(models, InBucket(UncappedBucket, false)),
      ProvidersOf(models, InBucket(SteadyMonthlyBucket, true)),
      |models|, |livePools|);
  }
}
