/**
  Embedding model ids: how they are listed with their provider prefix and how "provider/model"
  strings are parsed, with provider aliases, model aliases and prefixes an id may already carry.
 */
module EmbeddingRegistry {
  import opened Wrappers
  import opened Text

  datatype Model = Model(id: string, name: string, dimensions: Option<int>)

  datatype Provider = Provider(key: string, models: seq<Model>)

  /** The three tables, each in the order the source iterates it. */
  datatype Catalogue = Catalogue(
    providers: seq<Provider>, providerAliases: map<string, string>, modelAliases: seq<(string, string)>)

  datatype Parsed = Parsed(provider: Option<string>, model: Option<string>)

  datatype Listed = Listed(id: string, name: string, provider: string, dimensions: Option<int>)

  function ApplyModelAliases(aliases: seq<(string, string)>, s: string): string {
    if aliases == [] then s
    else
      var (alias, canonical) := aliases[0];
      if s == alias then canonical
      else if '/' !in alias && EndsWith(s, "/" + alias) then
        // `slice(0, -0)` is empty
        (if alias == "" then "" else s[..|s| - |alias|]) + canonical
      else ApplyModelAliases(aliases[1..], s)
  }

  function ResolveProviderId(c: Catalogue, id: string): string {
    if id in c.providerAliases && c.providerAliases[id] != "" then c.providerAliases[id] else id
  }

  function FindProvider(providers: seq<Provider>, key: string): Option<Provider> {
    if providers == [] then None
    else if providers[0].key == key then Some(providers[0])
    else FindProvider(providers[1..], key)
  }

  predicate Lists(p: Provider, id: string) {
    exists m :: m in p.models && m.id == id
  }

  predicate ProviderLists(p: Option<Provider>, id: string) {
    p.Some? && Lists(p.value, id)
  }

  function NormalizeModelId(c: Catalogue, providerId: string, modelId: string): string {
    var resolved := ResolveProviderId(c, providerId);
    var provider := FindProvider(c.providers, resolved);
    if ProviderLists(provider, modelId) then modelId
    else if ProviderLists(provider, resolved + "/" + modelId) then resolved + "/" + modelId
    else if StartsWith(modelId, providerId + "/") then modelId[|providerId| + 1..]
    else modelId
  }

  function ToProviderScopedModelId(providerId: string, modelId: string): string {
    if StartsWith(modelId, providerId + "/") then modelId else providerId + "/" + modelId
  }

  /** The first id that, followed by a slash, starts the string. */
  function FirstPrefix(ids: seq<string>, s: string): Option<string> {
    if ids == [] then None
    else if StartsWith(s, ids[0] + "/") then Some(ids[0])
    else FirstPrefix(ids[1..], s)
  }

  function Keys(providers: seq<Provider>): seq<string> {
    if providers == [] then [] else [providers[0].key] + Keys(providers[1..])
  }

  lemma {:induction false} FirstPrefixIsPrefix(ids: seq<string>, s: string)
    ensures FirstPrefix(ids, s).Some? ==> StartsWith(s, FirstPrefix(ids, s).value + "/")
  {
    if ids != [] {
      FirstPrefixIsPrefix(ids[1..], s);
    }
  }

  function ParsePrefixed(c: Catalogue, s: string, slash: nat, dynamicIds: seq<string>): Parsed
    requires slash < |s|
  {
    var rawProvider, rest := s[..slash], s[slash + 1..];
    if rawProvider in dynamicIds then Parsed(Some(rawProvider), Some(rest))
    else
      var resolved := ResolveProviderId(c, rawProvider);
      if FindProvider(c.providers, resolved).Some? then
        Parsed(Some(resolved), Some(NormalizeModelId(c, resolved, rest)))
      else
        FirstPrefixIsPrefix(Keys(c.providers), s);
        FirstPrefixIsPrefix(dynamicIds, s);
        match FirstPrefix(Keys(c.providers), s)
        case Some(key) => Parsed(Some(key), Some(NormalizeModelId(c, key, s[|key| + 1..])))
        case None =>
          match FirstPrefix(dynamicIds, s)
          case Some(id) => Parsed(Some(id), Some(s[|id| + 1..]))
          case None => Parsed(Some(rawProvider), Some(rest))
  }

  function FindModelProvider(providers: seq<Provider>, id: string): Option<string> {
    if providers == [] then None
    else if Lists(providers[0], id) then Some(providers[0].key)
    else FindModelProvider(providers[1..], id)
  }

  function Parse(c: Catalogue, modelStr: Option<string>, dynamicIds: seq<string>): Parsed {
    if modelStr == None || modelStr.value == "" then Parsed(None, None)
    else
      var s := ApplyModelAliases(c.modelAliases, modelStr.value);
      var slash := IndexOf(s, '/');
      if 0 < slash < |s| then ParsePrefixed(c, s, slash, dynamicIds)
      else Parsed(FindModelProvider(c.providers, s), Some(s))
  }

  // ---------------------------------------------------------------- the listing

  function Entry(p: Provider, m: Model): Listed {
    Listed(ToProviderScopedModelId(p.key, m.id), m.name, p.key, m.dimensions)
  }

  function ProviderListing(p: Provider, j: nat): seq<Listed>
    requires j <= |p.models|
  {
    if j == 0 then [] else ProviderListing(p, j - 1) + [Entry(p, p.models[j - 1])]
  }

  /** The first n providers' models. */
  function Listing(providers: seq<Provider>, n: nat): seq<Listed>
    requires n <= |providers|
  {
    if n == 0 then []
    else Listing(providers, n - 1) + ProviderListing(providers[n - 1], |providers[n - 1].models|)
  }

  method GetAllEmbeddingModels(c: Catalogue) returns (models: seq<Listed>)
    ensures models == Listing(c.providers, |c.providers|)
  {
    models := [];
    for i := 0 to |c.providers|
      invariant models == Listing(c.providers, i)
    {
      var p := c.providers[i];
      for j := 0 to |p.models|
        invariant models == Listing(c.providers, i) + ProviderListing(p, j)
      {
        var m := p.models[j];
        models := models + [Listed(ToProviderScopedModelId(p.key, m.id), m.name, p.key, m.dimensions)];
      }
    }
  }

  /** The recorded dimension of a model string, if any. */
  function FirstDimensions(models: seq<Model>, id: string): Option<int> {
    if models == [] then None
    else if models[0].id == id then models[0].dimensions
    else FirstDimensions(models[1..], id)
  }

  function GetDimension(c: Catalogue, modelStr: string): Option<int> {
    var parsed := Parse(c, Some(modelStr), []);
    if parsed.provider == None || parsed.provider.value == "" || parsed.model == None || parsed.model.value == "" then None
    else
      var config := FindProvider(c.providers, ResolveProviderId(c, parsed.provider.value));
      if config == None then None else FirstDimensions(config.value.models, parsed.model.value)
  }

  // ---------------------------------------------------------------- round trip

  ghost predicate DistinctKeys(providers: seq<Provider>) {
    forall i, j :: 0 <= i < j < |providers| ==> providers[i].key != providers[j].key
  }

  /** A key the parser reads back as itself: not empty, without slashes, and not an alias of another. */
  ghost predicate PlainKey(c: Catalogue, key: string) {
    key != "" && '/' !in key && key !in c.providerAliases
  }

  /** No model alias rewrites the string. */
  ghost predicate NotAliased(c: Catalogue, s: string) {
    forall a :: a in c.modelAliases ==> s != a.0 && ('/' in a.0 || !EndsWith(s, "/" + a.0))
  }

  lemma {:induction false} NotAliasedStays(aliases: seq<(string, string)>, s: string)
    requires forall a :: a in aliases ==> s != a.0 && ('/' in a.0 || !EndsWith(s, "/" + a.0))
    ensures ApplyModelAliases(aliases, s) == s
  {
    if aliases != [] {
      assert aliases[0] in aliases;
      NotAliasedStays(aliases[1..], s);
    }
  }

  lemma {:induction false} FindProviderFinds(providers: seq<Provider>, p: Provider)
    requires p in providers && DistinctKeys(providers)
    ensures FindProvider(providers, p.key) == Some(p)
  {
    if providers[0] != p {
      assert providers[0].key != p.key;
      FindProviderFinds(providers[1..], p);
    }
  }

  /** A string "key/rest" goes to the provider of that key, with rest normalised by it unless a dynamic provider has the key. */
  lemma ParseScoped(c: Catalogue, p: Provider, rest: string, dynamicIds: seq<string>)
    requires DistinctKeys(c.providers) && p in c.providers && PlainKey(c, p.key)
    requires NotAliased(c, p.key + "/" + rest)
    ensures Parse(c, Some(p.key + "/" + rest), dynamicIds)
         == Parsed(Some(p.key), Some(if p.key in dynamicIds then rest else NormalizeModelId(c, p.key, rest)))
  {
    var s := p.key + "/" + rest;
    NotAliasedStays(c.modelAliases, s);
    IndexOfAfter(p.key, '/', rest);
    assert s[..|p.key|] == p.key && s[|p.key| + 1..] == rest;
    FindProviderFinds(c.providers, p);
  }

  /**
    Print and parse: a listed id parses back to exactly its provider and registry model id unless
    the registry id already carries the prefix, as "p/x", and either the provider lists the bare
    "x" too or a dynamic provider has taken over the key.
   */
  lemma RoundTrip(c: Catalogue, p: Provider, m: Model, dynamicIds: seq<string>)
    requires DistinctKeys(c.providers) && p in c.providers && m in p.models && PlainKey(c, p.key)
    requires NotAliased(c, Entry(p, m).id)
    ensures Parse(c, Some(Entry(p, m).id), dynamicIds) == Parsed(Some(p.key), Some(m.id)) <==>
            (StartsWith(m.id, p.key + "/") ==> p.key !in dynamicIds && !Lists(p, m.id[|p.key| + 1..]))
  {
    var prefix := p.key + "/";
    var rest := if StartsWith(m.id, prefix) then m.id[|prefix|..] else m.id;
    assert Entry(p, m).id == prefix + rest;
    ParseScoped(c, p, rest, dynamicIds);
    FindProviderFinds(c.providers, p);
    assert |rest| != |prefix + rest|;
  }

  /** The failing case, concretely: a provider "p" listing both "x" and "p/x". */
  lemma CollapsingPairIsConfused()
    ensures
      var bare, scoped := Model("x", "X", None), Model("p/x", "PX", None);
      var c := Catalogue([Provider("p", [bare, scoped])], map[], []);
      Entry(c.providers[0], scoped).id == "p/x" && Parse(c, Some("p/x"), []) == Parsed(Some("p"), Some("x"))
  {
    var bare, scoped := Model("x", "X", None), Model("p/x", "PX", None);
    var p := Provider("p", [bare, scoped]);
    var c := Catalogue([p], map[], []);
    assert "p/x" == "p" + "/" + "x" && StartsWith("p/x", "p/");
    assert bare in p.models;
    FindProviderFinds(c.providers, p);
    ParseScoped(c, p, "x", []);
  }

  ghost predicate NoCollapsingPair(p: Provider) {
    forall x, y :: x in p.models && y in p.models ==> x.id != p.key + "/" + y.id
  }

  lemma {:induction false} ProviderListingMeaning(p: Provider, j: nat, l: Listed)
    requires j <= |p.models|
    ensures l in ProviderListing(p, j) <==> exists m :: m in p.models[..j] && l == Entry(p, m)
  {
    if j > 0 {
      assert p.models[..j] == p.models[..j - 1] + [p.models[j - 1]];
      ProviderListingMeaning(p, j - 1, l);
    }
  }

  lemma {:induction false} ListingMeaning(providers: seq<Provider>, n: nat, l: Listed)
    requires n <= |providers|
    ensures l in Listing(providers, n) <==>
            exists p, m :: p in providers[..n] && m in p.models && l == Entry(p, m)
  {
    if n > 0 {
      var p := providers[n - 1];
      assert providers[..n] == providers[..n - 1] + [p] && p.models[..|p.models|] == p.models;
      ListingMeaning(providers, n - 1, l);
      ProviderListingMeaning(p, |p.models|, l);
    }
  }

  /** No dynamic provider takes over the key of a provider that lists ids under its own prefix. */
  ghost predicate NoTakeover(p: Provider, dynamicIds: seq<string>) {
    p.key in dynamicIds ==> forall m :: m in p.models ==> !StartsWith(m.id, p.key + "/")
  }

  /** With plain keys, no rewritten ids, no collapsing pairs and no takeover, the whole listing parses back. */
  lemma EveryListedIdParsesBack(c: Catalogue, l: Listed, dynamicIds: seq<string>)
    requires DistinctKeys(c.providers) && l in Listing(c.providers, |c.providers|)
    requires forall p :: p in c.providers ==> PlainKey(c, p.key) && NoCollapsingPair(p) && NoTakeover(p, dynamicIds)
    requires NotAliased(c, l.id)
    ensures exists p, m ::
      p in c.providers && m in p.models && l == Entry(p, m) &&
      Parse(c, Some(l.id), dynamicIds) == Parsed(Some(l.provider), Some(m.id))
  {
    ListingMeaning(c.providers, |c.providers|, l);
    assert c.providers[..|c.providers|] == c.providers;
    var p, m :| p in c.providers && m in p.models && l == Entry(p, m);
    RoundTrip(c, p, m, dynamicIds);
  }

  lemma {:induction false} FirstDimensionsOf(models: seq<Model>, m: Model)
    requires m in models && forall i, j :: 0 <= i < j < |models| ==> models[i].id != models[j].id
    ensures FirstDimensions(models, m.id) == m.dimensions
  {
    if models[0] != m {
      assert models[0].id != m.id;
      FirstDimensionsOf(models[1..], m);
    }
  }

  /** Looking up the dimension of a listed id gives the listed dimension, unless the id itself is empty. */
  lemma ListedDimension(c: Catalogue, p: Provider, m: Model)
    requires DistinctKeys(c.providers) && p in c.providers && m in p.models && PlainKey(c, p.key)
    requires NotAliased(c, Entry(p, m).id) && NoCollapsingPair(p) && m.id != ""
    requires forall i, j :: 0 <= i < j < |p.models| ==> p.models[i].id != p.models[j].id
    ensures GetDimension(c, Entry(p, m).id) == m.dimensions
  {
    RoundTrip(c, p, m, []);
    FindProviderFinds(c.providers, p);
    FirstDimensionsOf(p.models, m);
  }
}
