/**
  Model lookup in a provider registry: the "provider/model" prefixes, the cached index behind
  bare model ids, and the flattened listing. A registry is its entries in key order.
 */
module RegistryUtils {
  import opened Wrappers
  import opened Text

  datatype Model = Model(id: string, name: string)

  datatype Provider = Provider(key: string, alias: Option<string>, models: seq<Model>)

  datatype Parsed = Parsed(provider: Option<string>, model: Option<string>)

  datatype Listed = Listed(id: string, name: string, provider: string)

  class Registry {
    const entries: seq<Provider>

    constructor (entries: seq<Provider>)
      ensures this.entries == entries
    {
      this.entries := entries;
    }
  }

  // ---------------------------------------------------------------- the linear scan

  predicate Lists(p: Provider, id: string) {
    exists m :: m in p.models && m.id == id
  }

  /** The first provider, in key order, that lists the id. */
  function FirstListing(entries: seq<Provider>, id: string): Option<string> {
    if entries == [] then None
    else
      var earlier, last := FirstListing(entries[..|entries| - 1], id), entries[|entries| - 1];
      if earlier.Some? then earlier else if Lists(last, id) then Some(last.key) else None
  }

  predicate HasAlias(p: Provider) {
    p.alias.Some? && p.alias.value != ""
  }

  /** The provider and model of a prefixed id: the first provider whose key or alias it starts with. */
  function ScanPrefixes(entries: seq<Provider>, s: string): Option<Parsed> {
    if entries == [] then None
    else
      var p := entries[0];
      if StartsWith(s, p.key + "/") then
        Some(Parsed(Some(p.key), Some(s[|p.key| + 1..])))
      else if HasAlias(p) && StartsWith(s, p.alias.value + "/") then
        Some(Parsed(Some(p.key), Some(s[|p.alias.value| + 1..])))
      else ScanPrefixes(entries[1..], s)
  }

  function Parse(entries: seq<Provider>, modelStr: Option<string>): Parsed {
    if modelStr == None || modelStr.value == "" then Parsed(None, None)
    else if ScanPrefixes(entries, modelStr.value).Some? then ScanPrefixes(entries, modelStr.value).value
    else
      var owner := FirstListing(entries, modelStr.value);
      Parsed(if owner == Some("") then None else owner, modelStr)
  }

  // ---------------------------------------------------------------- the cached index

  function Get(index: map<string, string>, id: string): Option<string> {
    if id in index then Some(index[id]) else None
  }

  ghost predicate Refines(index: map<string, string>, entries: seq<Provider>) {
    forall id :: Get(index, id) == FirstListing(entries, id)
  }

  ghost function Ids(models: seq<Model>): set<string> {
    set m | m in models :: m.id
  }

  method BuildIndex(entries: seq<Provider>) returns (index: map<string, string>)
    ensures Refines(index, entries)
  {
    index := map[];
    for i := 0 to |entries|
      invariant Refines(index, entries[..i])
    {
      var p := entries[i];
      ghost var before := index;
      for j := 0 to |p.models|
        invariant forall id :: Get(index, id) ==
                    if id in before then Some(before[id])
                    else if id in Ids(p.models[..j]) then Some(p.key) else None
      {
        var model := p.models[j];
        assert p.models[..j + 1] == p.models[..j] + [model];
        assert Ids(p.models[..j + 1]) == Ids(p.models[..j]) + {model.id};
        if model.id !in index {
          index := index[model.id := p.key];
        }
      }
      assert p.models[..|p.models|] == p.models;
      assert entries[..i + 1][..i] == entries[..i];
      assert forall id :: id in Ids(p.models) <==> Lists(p, id);
      assert forall id :: Get(before, id) == FirstListing(entries[..i], id);
    }
    assert entries[..|entries|] == entries;
  }

  class ModelIndexCache {
    var registryModelIndexCache: map<Registry, map<string, string>>

    ghost predicate Valid()
      reads this
    {
      forall r :: r in registryModelIndexCache ==> Refines(registryModelIndexCache[r], r.entries)
    }

    constructor ()
      ensures Valid() && registryModelIndexCache == map[]
    {
      registryModelIndexCache := map[];
    }

    method GetRegistryModelIndex(registry: Registry) returns (index: map<string, string>)
      requires Valid()
      modifies this
      ensures Valid() && Refines(index, registry.entries)
      ensures registryModelIndexCache == old(registryModelIndexCache)[registry := index]
    {
      if registry in registryModelIndexCache {
        index := registryModelIndexCache[registry];
      } else {
        index := BuildIndex(registry.entries);
        registryModelIndexCache := registryModelIndexCache[registry := index];
      }
    }

    method ParseModelFromRegistry(modelStr: Option<string>, registry: Registry) returns (r: Parsed)
      requires Valid()
      modifies this
      ensures Valid() && r == Parse(registry.entries, modelStr)
    {
      if modelStr == None || modelStr.value == "" {
        return Parsed(None, None);
      }
      var s := modelStr.value;
      for i := 0 to |registry.entries|
        invariant unchanged(this)
        invariant ScanPrefixes(registry.entries, s) == ScanPrefixes(registry.entries[i..], s)
      {
        var p := registry.entries[i];
        if StartsWith(s, p.key + "/") {
          return Parsed(Some(p.key), Some(s[|p.key| + 1..]));
        }
        if HasAlias(p) && StartsWith(s, p.alias.value + "/") {
          return Parsed(Some(p.key), Some(s[|p.alias.value| + 1..]));
        }
      }
      var index := GetRegistryModelIndex(registry);
      assert Get(index, s) == FirstListing(registry.entries, s);
      if s in index && index[s] != "" {
        return Parsed(Some(index[s]), Some(s));
      }
      return Parsed(None, Some(s));
    }
  }

  // ---------------------------------------------------------------- the listing

  /** The non-empty prefixes under which a provider's models are listed. */
  function Prefixes(p: Provider): seq<string> {
    (if p.key != "" then [p.key] else []) + (if HasAlias(p) then [p.alias.value] else [])
  }

  /** A model under the first k prefixes of its provider. */
  function PrefixedListing(p: Provider, m: Model, k: nat): seq<Listed>
    requires k <= |Prefixes(p)|
  {
    if k == 0 then []
    else PrefixedListing(p, m, k - 1) + [Listed(Prefixes(p)[k - 1] + "/" + m.id, m.name, p.key)]
  }

  /** The first j models of a provider. */
  function ProviderListing(p: Provider, j: nat): seq<Listed>
    requires j <= |p.models|
  {
    if j == 0 then []
    else ProviderListing(p, j - 1) + PrefixedListing(p, p.models[j - 1], |Prefixes(p)|)
  }

  /** The first n providers. */
  function Listing(entries: seq<Provider>, n: nat): seq<Listed>
    requires n <= |entries|
  {
    if n == 0 then []
    else Listing(entries, n - 1) + ProviderListing(entries[n - 1], |entries[n - 1].models|)
  }

  method GetAllModelsFromRegistry(entries: seq<Provider>) returns (models: seq<Listed>)
    ensures models == Listing(entries, |entries|)
  {
    models := [];
    for i := 0 to |entries|
      invariant models == Listing(entries, i)
    {
      var p := entries[i];
      for j := 0 to |p.models|
        invariant models == Listing(entries, i) + ProviderListing(p, j)
      {
        var model, prefixes := p.models[j], Prefixes(p);
        ghost var sofar := models;
        for k := 0 to |prefixes|
          invariant models == sofar + PrefixedListing(p, model, k)
        {
          var entry := Listed(prefixes[k] + "/" + model.id, model.name, p.key);
          assert PrefixedListing(p, model, k + 1) == PrefixedListing(p, model, k) + [entry];
          models := models + [entry];
        }
        assert models == sofar + PrefixedListing(p, model, |prefixes|);
      }
    }
  }
}
