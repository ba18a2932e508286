/** What an embedding model string parses to, case by case: aliases, bare ids, known and unknown prefixes. */
module EmbeddingParseLaws {
  import opened Wrappers
  import opened Text
  import opened EmbeddingRegistry

  // ---------------------------------------------------------------- model aliases

  /** An alias stands for the whole string or, if it has no slash itself, for all behind a last slash. */
  ghost predicate AliasApplies(alias: string, s: string) {
    s == alias || ('/' !in alias && exists front: string :: s == front + "/" + alias)
  }

  ghost predicate FirstAlias(aliases: seq<(string, string)>, i: nat, s: string) {
    i < |aliases| && AliasApplies(aliases[i].0, s) && forall j: nat :: j < i ==> !AliasApplies(aliases[j].0, s)
  }

  lemma AliasAtEnd(alias: string, s: string)
    ensures EndsWith(s, "/" + alias) <==> exists front: string :: s == front + "/" + alias
  {
    if EndsWith(s, "/" + alias) {
      var front := s[..|s| - |alias| - 1];
      assert s == front + ("/" + alias);
      assert s == front + "/" + alias;
    }
    if front: string :| s == front + "/" + alias {
      assert s[|s| - |alias| - 1..] == "/" + alias;
    }
  }

  /** The first alias that applies replaces the string, or what follows its last slash; without one nothing changes. */
  lemma {:induction false} AliasMeaning(aliases: seq<(string, string)>, i: nat, s: string, front: string)
    ensures FirstAlias(aliases, i, s) && s == aliases[i].0 ==> ApplyModelAliases(aliases, s) == aliases[i].1
    ensures FirstAlias(aliases, i, s) && s == front + "/" + aliases[i].0 && aliases[i].0 != "" ==>
              ApplyModelAliases(aliases, s) == front + "/" + aliases[i].1
    ensures FirstAlias(aliases, i, s) && aliases[i].0 == "" ==> ApplyModelAliases(aliases, s) == aliases[i].1
    ensures (forall j: nat :: j < |aliases| ==> !AliasApplies(aliases[j].0, s)) ==> ApplyModelAliases(aliases, s) == s
  {
    if aliases != [] {
      var alias, rest := aliases[0].0, aliases[1..];
      AliasAtEnd(alias, s);
      assert AliasApplies(alias, s) <==> s == alias || ('/' !in alias && EndsWith(s, "/" + alias));
      if AliasApplies(alias, s) {
        if s == front + "/" + alias {
          assert |s| > |alias| && s[..|s| - |alias|] == front + "/";
        }
      } else {
        assert forall j: nat :: j < |rest| ==> rest[j] == aliases[j + 1];
        AliasMeaning(rest, if i == 0 then 0 else i - 1, s, front);
        if FirstAlias(aliases, i, s) {
          assert i > 0;
          assert FirstAlias(rest, i - 1, s);
        }
      }
    }
  }

  // ---------------------------------------------------------------- strings without a provider

  ghost predicate FirstLister(providers: seq<Provider>, i: nat, id: string) {
    && i < |providers| && (exists m :: m in providers[i].models && m.id == id)
    && forall j: nat, m :: j < i && m in providers[j].models ==> m.id != id
  }

  lemma {:induction false} FindModelMeaning(providers: seq<Provider>, i: nat, id: string)
    ensures FirstLister(providers, i, id) ==> FindModelProvider(providers, id) == Some(providers[i].key)
    ensures (forall p, m :: p in providers && m in p.models ==> m.id != id) ==> FindModelProvider(providers, id) == None
  {
    if providers != [] {
      var rest := providers[1..];
      assert providers == [providers[0]] + rest;
      FindModelMeaning(rest, if i == 0 then 0 else i - 1, id);
      if FirstLister(providers, i, id) && i > 0 {
        forall j: nat, m | j < i - 1 && m in rest[j].models ensures m.id != id {
          assert rest[j] == providers[j + 1];
        }
        assert FirstLister(rest, i - 1, id);
      }
    }
  }

  lemma {:induction false} NoIndex(s: string, c: char)
    ensures c !in s ==> IndexOf(s, c) == |s|
    ensures s != [] && s[0] == c ==> IndexOf(s, c) == 0
  {
    if s != [] {
      NoIndex(s[1..], c);
    }
  }

  /**
    A string without a slash, or with one in front, is a model of the first provider that lists it,
    and of none if none does; no string at all is no model.
   */
  lemma BareMeaning(c: Catalogue, s: string, dynamicIds: seq<string>, i: nat)
    requires s != "" && NotAliased(c, s) && ('/' !in s || s[0] == '/')
    ensures FirstLister(c.providers, i, s) ==> Parse(c, Some(s), dynamicIds) == Parsed(Some(c.providers[i].key), Some(s))
    ensures (forall p, m :: p in c.providers && m in p.models ==> m.id != s) ==>
              Parse(c, Some(s), dynamicIds) == Parsed(None, Some(s))
    ensures Parse(c, None, dynamicIds) == Parse(c, Some(""), dynamicIds) == Parsed(None, None)
  {
    NotAliasedStays(c.modelAliases, s);
    NoIndex(s, '/');
    FindModelMeaning(c.providers, i, s);
  }

  /** Wherever an alias applies the string parses as the one the alias stands for. */
  lemma AliasedParse(c: Catalogue, s: string, dynamicIds: seq<string>)
    requires s != "" && ApplyModelAliases(c.modelAliases, s) != ""
    requires NotAliased(c, ApplyModelAliases(c.modelAliases, s))
    ensures Parse(c, Some(s), dynamicIds) == Parse(c, Some(ApplyModelAliases(c.modelAliases, s)), dynamicIds)
  {
    NotAliasedStays(c.modelAliases, ApplyModelAliases(c.modelAliases, s));
  }

  // ---------------------------------------------------------------- strings with a provider

  /** Under provider p a rest is its id as listed, bare or with the prefix, or what is left without the prefix. */
  ghost function NormalForm(p: Provider, rest: string): string {
    if exists m :: m in p.models && m.id == rest then rest
    else if exists m :: m in p.models && m.id == p.key + "/" + rest then p.key + "/" + rest
    else if StartsWith(rest, p.key + "/") then rest[|p.key| + 1..]
    else rest
  }

  lemma NormalFormMeaning(c: Catalogue, p: Provider, rest: string)
    requires DistinctKeys(c.providers) && p in c.providers && p.key !in c.providerAliases
    ensures NormalizeModelId(c, p.key, rest) == NormalForm(p, rest)
  {
    FindProviderFinds(c.providers, p);
  }

  /**
    A prefix that is a provider's key, or an alias of one, names that provider, which normalises the
    rest; a dynamic provider of that very id comes first and leaves the rest alone.
   */
  lemma KnownPrefix(c: Catalogue, raw: string, p: Provider, rest: string, dynamicIds: seq<string>)
    requires DistinctKeys(c.providers) && p in c.providers && p.key !in c.providerAliases
    requires raw != "" && '/' !in raw && NotAliased(c, raw + "/" + rest)
    requires raw == p.key || (raw in c.providerAliases && c.providerAliases[raw] == p.key != "")
    ensures Parse(c, Some(raw + "/" + rest), dynamicIds)
         == if raw in dynamicIds then Parsed(Some(raw), Some(rest)) else Parsed(Some(p.key), Some(NormalForm(p, rest)))
  {
    var s := raw + "/" + rest;
    NotAliasedStays(c.modelAliases, s);
    IndexOfAfter(raw, '/', rest);
    assert s[..|raw|] == raw && s[|raw| + 1..] == rest;
    FindProviderFinds(c.providers, p);
    NormalFormMeaning(c, p, rest);
  }

  ghost predicate FirstStarting(ids: seq<string>, i: nat, s: string) {
    i < |ids| && StartsWith(s, ids[i] + "/") && forall j: nat :: j < i ==> !StartsWith(s, ids[j] + "/")
  }

  lemma {:induction false} FirstPrefixMeaning(ids: seq<string>, i: nat, s: string)
    ensures FirstStarting(ids, i, s) ==> FirstPrefix(ids, s) == Some(ids[i])
    ensures (forall j: nat :: j < |ids| ==> !StartsWith(s, ids[j] + "/")) ==> FirstPrefix(ids, s) == None
  {
    if ids != [] {
      var rest := ids[1..];
      assert forall j: nat :: j < |rest| ==> rest[j] == ids[j + 1];
      FirstPrefixMeaning(rest, if i == 0 then 0 else i - 1, s);
      if FirstStarting(ids, i, s) && i > 0 {
        assert FirstStarting(rest, i - 1, s);
      }
    }
  }

  lemma {:induction false} KeysAt(providers: seq<Provider>)
    ensures |Keys(providers)| == |providers|
    ensures forall i :: 0 <= i < |providers| ==> Keys(providers)[i] == providers[i].key
  {
    if providers != [] {
      KeysAt(providers[1..]);
    }
  }

  lemma {:induction false} NoSuchProvider(providers: seq<Provider>, key: string)
    requires forall p :: p in providers ==> p.key != key
    ensures FindProvider(providers, key) == None
  {
    if providers != [] {
      assert providers[0] in providers;
      NoSuchProvider(providers[1..], key);
    }
  }

  /** Neither a provider nor a dynamic provider goes by the prefix, and it is no alias. */
  ghost predicate Unclaimed(c: Catalogue, raw: string, dynamicIds: seq<string>) {
    && raw !in dynamicIds && (raw !in c.providerAliases || c.providerAliases[raw] == "")
    && forall p :: p in c.providers ==> p.key != raw
  }

  /** What follows a prefix and its slash. */
  ghost function Behind(s: string, prefix: string): string {
    if |prefix| < |s| then s[|prefix| + 1..] else ""
  }

  lemma UnclaimedParse(c: Catalogue, raw: string, rest: string, dynamicIds: seq<string>)
    requires raw != "" && '/' !in raw && NotAliased(c, raw + "/" + rest) && Unclaimed(c, raw, dynamicIds)
    ensures
      var s := raw + "/" + rest;
      Parse(c, Some(s), dynamicIds) ==
      match FirstPrefix(Keys(c.providers), s)
      case Some(key) => Parsed(Some(key), Some(NormalizeModelId(c, key, Behind(s, key))))
      case None =>
        match FirstPrefix(dynamicIds, s)
        case Some(id) => Parsed(Some(id), Some(Behind(s, id)))
        case None => Parsed(Some(raw), Some(rest))
  {
    FirstPrefixIsPrefix(Keys(c.providers), raw + "/" + rest);
    FirstPrefixIsPrefix(dynamicIds, raw + "/" + rest);
    var s := raw + "/" + rest;
    NotAliasedStays(c.modelAliases, s);
    IndexOfAfter(raw, '/', rest);
    assert s[..|raw|] == raw && s[|raw| + 1..] == rest;
    NoSuchProvider(c.providers, raw);
  }

  /**
    A prefix that is nobody's: the first provider whose whole key, slashes and all, starts the string
    takes it.
   */
  lemma UnclaimedGoesToKey(c: Catalogue, raw: string, rest: string, dynamicIds: seq<string>, i: nat)
    requires raw != "" && '/' !in raw && NotAliased(c, raw + "/" + rest) && Unclaimed(c, raw, dynamicIds)
    requires FirstStarting(Keys(c.providers), i, raw + "/" + rest)
    ensures
      var s, key := raw + "/" + rest, Keys(c.providers)[i];
      Parse(c, Some(s), dynamicIds) == Parsed(Some(key), Some(NormalizeModelId(c, key, Behind(s, key))))
  {
    UnclaimedParse(c, raw, rest, dynamicIds);
    FirstPrefixMeaning(Keys(c.providers), i, raw + "/" + rest);
  }

  /** Without one, the first dynamic provider whose id starts the string; without that the prefix is reported as it is. */
  lemma UnclaimedGoesToDynamic(c: Catalogue, raw: string, rest: string, dynamicIds: seq<string>, i: nat)
    requires raw != "" && '/' !in raw && NotAliased(c, raw + "/" + rest) && Unclaimed(c, raw, dynamicIds)
    requires forall p :: p in c.providers ==> !StartsWith(raw + "/" + rest, p.key + "/")
    ensures
      var s := raw + "/" + rest;
      var parsed := Parse(c, Some(s), dynamicIds);
      (FirstStarting(dynamicIds, i, s) ==> parsed == Parsed(Some(dynamicIds[i]), Some(Behind(s, dynamicIds[i])))) &&
      ((forall d :: d in dynamicIds ==> !StartsWith(s, d + "/")) ==> parsed == Parsed(Some(raw), Some(rest)))
  {
    var s := raw + "/" + rest;
    UnclaimedParse(c, raw, rest, dynamicIds);
    KeysAt(c.providers);
    FirstPrefixMeaning(Keys(c.providers), i, s);
    FirstPrefixMeaning(dynamicIds, i, s);
  }

  // ---------------------------------------------------------------- the listing

  /** How many models the first n providers have. */
  ghost function ModelsBefore(providers: seq<Provider>, n: nat): nat
    requires n <= |providers|
  {
    if n == 0 then 0 else ModelsBefore(providers, n - 1) + |providers[n - 1].models|
  }

  /** A model's listed entry: its own name and dimension, and its id with the provider's prefix, once. */
  ghost predicate IsEntry(l: Listed, p: Provider, m: Model) {
    && l.name == m.name && l.provider == p.key && l.dimensions == m.dimensions
    && l.id == if StartsWith(m.id, p.key + "/") then m.id else p.key + "/" + m.id
  }

  lemma {:induction false} ProviderListingAt(p: Provider, n: nat, j: nat)
    requires n <= |p.models|
    ensures |ProviderListing(p, n)| == n
    ensures j < n ==> IsEntry(ProviderListing(p, n)[j], p, p.models[j])
  {
    if n > 0 {
      ProviderListingAt(p, n - 1, j);
    }
  }

  /** The listing has every provider's models in order, provider by provider. */
  lemma {:induction false} ListingOrder(providers: seq<Provider>, n: nat, i: nat, j: nat)
    requires n <= |providers|
    ensures |Listing(providers, n)| == ModelsBefore(providers, n)
    ensures i < n && j < |providers[i].models| ==>
              ModelsBefore(providers, i) + j < ModelsBefore(providers, n) &&
              IsEntry(Listing(providers, n)[ModelsBefore(providers, i) + j], providers[i], providers[i].models[j])
  {
    if n > 0 {
      ListingOrder(providers, n - 1, i, j);
      ProviderListingAt(providers[n - 1], |providers[n - 1].models|, j);
    }
  }
}
