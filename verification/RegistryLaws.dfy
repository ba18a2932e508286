/** What the registry look-up promises, for every registry and string. */
module RegistryLaws {
  import opened Wrappers
  import opened Text
  import opened RegistryUtils

  ghost predicate HasModel(p: Provider, id: string) {
    exists m :: m in p.models && m.id == id
  }

  ghost predicate FirstAt(entries: seq<Provider>, id: string, i: nat) {
    i < |entries| && HasModel(entries[i], id) && forall j: nat :: j < i ==> !HasModel(entries[j], id)
  }

  /** The scan names the provider at the first position listing the id, and answers nothing when none does. */
  lemma {:induction false} FirstListingMeaning(entries: seq<Provider>, id: string)
    ensures forall i: nat :: FirstAt(entries, id, i) ==> FirstListing(entries, id) == Some(entries[i].key)
    ensures FirstListing(entries, id) == None <==> forall i: nat :: i < |entries| ==> !HasModel(entries[i], id)
  {
    if entries != [] {
      var front := entries[..|entries| - 1];
      FirstListingMeaning(front, id);
      assert forall i: nat :: i < |front| ==> front[i] == entries[i];
      forall i: nat | FirstAt(entries, id, i)
        ensures FirstListing(entries, id) == Some(entries[i].key)
      {
        if i < |front| {
          assert FirstAt(front, id, i);
        }
      }
    }
  }

  /** The string starts with the provider's key or its alias, and a slash. */
  ghost predicate AnswersTo(p: Provider, s: string) {
    StartsWith(s, p.key + "/") || (p.alias.Some? && p.alias.value != "" && StartsWith(s, p.alias.value + "/"))
  }

  ghost predicate FirstAnswering(entries: seq<Provider>, i: nat, s: string) {
    i < |entries| && AnswersTo(entries[i], s) && forall j: nat :: j < i ==> !AnswersTo(entries[j], s)
  }

  lemma {:induction false} ScanMeaning(entries: seq<Provider>, i: nat, s: string, prefix: string, rest: string)
    requires s == prefix + "/" + rest
    ensures FirstAnswering(entries, i, s) && entries[i].key == prefix ==>
              ScanPrefixes(entries, s) == Some(Parsed(Some(prefix), Some(rest)))
    ensures FirstAnswering(entries, i, s) && !StartsWith(s, entries[i].key + "/") && entries[i].alias == Some(prefix) ==>
              ScanPrefixes(entries, s) == Some(Parsed(Some(entries[i].key), Some(rest)))
  {
    if FirstAnswering(entries, i, s) {
      assert s[|prefix| + 1..] == rest && StartsWith(s, prefix + "/");
      if i > 0 {
        var tail := entries[1..];
        assert forall j: nat :: j < |tail| ==> tail[j] == entries[j + 1];
        assert FirstAnswering(tail, i - 1, s);
        ScanMeaning(tail, i - 1, s, prefix, rest);
      }
    }
  }

  lemma {:induction false} ScanFindsNone(entries: seq<Provider>, s: string)
    ensures ScanPrefixes(entries, s) == None <==> forall p :: p in entries ==> !AnswersTo(p, s)
  {
    if entries != [] {
      var tail := entries[1..];
      ScanFindsNone(tail, s);
      assert entries[0] in entries && forall p :: p in entries <==> p == entries[0] || p in tail;
    }
  }

  /**
    A prefixed id goes to the first provider that answers to it, under its key or else its alias,
    with what follows the slash for a model.
   */
  lemma PrefixedLookup(entries: seq<Provider>, i: nat, prefix: string, rest: string)
    requires FirstAnswering(entries, i, prefix + "/" + rest)
    requires prefix == entries[i].key ||
             (entries[i].alias == Some(prefix) && !StartsWith(prefix + "/" + rest, entries[i].key + "/"))
    ensures Parse(entries, Some(prefix + "/" + rest)) == Parsed(Some(entries[i].key), Some(rest))
  {
    ScanMeaning(entries, i, prefix + "/" + rest, prefix, rest);
  }

  /**
    A bare id comes back with the first provider listing it, except that one registered under the
    empty key is never reported; with none if nobody lists it.
   */
  lemma BareLookup(entries: seq<Provider>, s: string, i: nat)
    requires s != "" && forall p :: p in entries ==> !AnswersTo(p, s)
    ensures Parse(entries, Some(s)).model == Some(s)
    ensures FirstAt(entries, s, i) ==> (Parse(entries, Some(s)).provider == Some(entries[i].key) <==> entries[i].key != "")
    ensures FirstAt(entries, s, i) && entries[i].key == "" ==> Parse(entries, Some(s)).provider == None
    ensures (forall j: nat :: j < |entries| ==> !HasModel(entries[j], s)) ==> Parse(entries, Some(s)).provider == None
    ensures Parse(entries, None) == Parse(entries, Some("")) == Parsed(None, None)
  {
    ScanFindsNone(entries, s);
    FirstListingMeaning(entries, s);
  }

  /** The failing case, concretely: one provider under the empty key. */
  lemma EmptyKeyIsNotReported()
    ensures
      var entries := [Provider("", None, [Model("m", "M")])];
      FirstListing(entries, "m") == Some("") && Parse(entries, Some("m")) == Parsed(None, Some("m"))
  {
    var entries := [Provider("", None, [Model("m", "M")])];
    assert Model("m", "M") in entries[0].models && entries[0].models[0].id == "m";
    assert entries[..0] == [] && entries[1..] == [];
    assert ("" + "/")[0] == '/';
  }

  // ---------------------------------------------------------------- round trip

  /** A provider goes by its key and by its alias, the empty string aside. */
  ghost predicate GoesBy(p: Provider, prefix: string) {
    prefix != "" && (prefix == p.key || p.alias == Some(prefix))
  }

  /** It is listed under each of its names, the key first. */
  lemma PrefixesMeaning(p: Provider)
    ensures forall prefix :: prefix in Prefixes(p) <==> GoesBy(p, prefix)
    ensures |Prefixes(p)| == (if GoesBy(p, p.key) then 1 else 0) + (if p.alias.Some? && p.alias.value != "" then 1 else 0)
    ensures p.key != "" ==> Prefixes(p)[0] == p.key
  {
  }

  ghost predicate ListedUnder(entries: seq<Provider>, i: nat, prefix: string, m: Model, l: Listed) {
    && i < |entries| && GoesBy(entries[i], prefix) && m in entries[i].models
    && l == Listed(prefix + "/" + m.id, m.name, entries[i].key)
  }

  lemma {:induction false} PrefixedListingMeaning(p: Provider, m: Model, k: nat, l: Listed)
    requires k <= |Prefixes(p)|
    ensures l in PrefixedListing(p, m, k) <==>
            exists i :: 0 <= i < k && l == Listed(Prefixes(p)[i] + "/" + m.id, m.name, p.key)
  {
    if k > 0 {
      PrefixedListingMeaning(p, m, k - 1, l);
    }
  }

  ghost predicate ListedBy(p: Provider, prefix: string, m: Model, l: Listed) {
    GoesBy(p, prefix) && l == Listed(prefix + "/" + m.id, m.name, p.key)
  }

  lemma {:induction false} ProviderListingMeaning(p: Provider, j: nat, l: Listed)
    requires j <= |p.models|
    ensures l in ProviderListing(p, j) <==> exists prefix, m :: m in p.models[..j] && ListedBy(p, prefix, m, l)
  {
    if j > 0 {
      var m := p.models[j - 1];
      assert p.models[..j] == p.models[..j - 1] + [m];
      ProviderListingMeaning(p, j - 1, l);
      PrefixedListingMeaning(p, m, |Prefixes(p)|, l);
      PrefixesMeaning(p);
      if i :| 0 <= i < |Prefixes(p)| && l == Listed(Prefixes(p)[i] + "/" + m.id, m.name, p.key) {
        assert ListedBy(p, Prefixes(p)[i], m, l);
      }
    }
  }

  /** The listing holds every model of every provider under each of its prefixes, and nothing else. */
  lemma {:induction false} ListingMeaning(entries: seq<Provider>, n: nat, l: Listed)
    requires n <= |entries|
    ensures l in Listing(entries, n) <==> exists i: nat, prefix, m :: i < n && ListedUnder(entries, i, prefix, m, l)
  {
    if n > 0 {
      var last := n - 1;
      var p := entries[last];
      ListingMeaning(entries, n - 1, l);
      ProviderListingMeaning(p, |p.models|, l);
      assert p.models[..|p.models|] == p.models;
      if l in ProviderListing(p, |p.models|) {
        var prefix, m :| m in p.models && ListedBy(p, prefix, m, l);
        assert ListedUnder(entries, last, prefix, m, l);
      } else if prefix, m :| ListedUnder(entries, last, prefix, m, l) {
        assert ListedBy(p, prefix, m, l);
      }
    }
  }

  ghost predicate WellFormed(entries: seq<Provider>) {
    && (forall i, j :: 0 <= i < j < |entries| ==> entries[i].key != entries[j].key)
    && (forall i :: 0 <= i < |entries| ==>
          '/' !in entries[i].key && (HasAlias(entries[i]) ==> '/' !in entries[i].alias.value))
  }

  /** The first entry that answers to a prefix decides. */
  lemma {:induction false} ScanFindsFirstOwner(entries: seq<Provider>, i: nat, prefix: string, rest: string)
    requires WellFormed(entries) && i < |entries| && GoesBy(entries[i], prefix)
    requires forall j: nat :: j < i ==> !GoesBy(entries[j], prefix)
    ensures ScanPrefixes(entries, prefix + "/" + rest) == Some(Parsed(Some(entries[i].key), Some(rest)))
  {
    var p, s := entries[0], prefix + "/" + rest;
    PrefixUpToSeparator(p.key, prefix, '/', rest);
    if HasAlias(p) {
      PrefixUpToSeparator(p.alias.value, prefix, '/', rest);
    }
    assert s[|prefix| + 1..] == rest;
    if i > 0 {
      assert !GoesBy(p, prefix) && prefix != "";
      assert forall j: nat :: j < i - 1 ==> entries[1..][j] == entries[j + 1];
      ScanFindsFirstOwner(entries[1..], i - 1, prefix, rest);
    } else if p.key != prefix {
      assert HasAlias(p) && p.alias.value == prefix;
    }
  }

  /**
    With slash-free keys and aliases, a listed id parses back to its provider and model exactly
    when no earlier provider answers to the prefix it is listed under.
   */
  lemma RoundTrip(entries: seq<Provider>, i: nat, prefix: string, m: Model, l: Listed)
    requires WellFormed(entries) && ListedUnder(entries, i, prefix, m, l)
    ensures Parse(entries, Some(l.id)) == Parsed(Some(l.provider), Some(m.id)) <==>
            forall j: nat :: j < i ==> !GoesBy(entries[j], prefix)
  {
    if j: nat :| j < i && GoesBy(entries[j], prefix) {
      var first := FirstOwner(entries, j, prefix);
      ScanFindsFirstOwner(entries, first, prefix, m.id);
    } else {
      ScanFindsFirstOwner(entries, i, prefix, m.id);
    }
  }

  lemma {:induction false} FirstOwner(entries: seq<Provider>, j: nat, prefix: string) returns (i: nat)
    requires j < |entries| && GoesBy(entries[j], prefix)
    ensures i <= j && GoesBy(entries[i], prefix)
    ensures forall k: nat :: k < i ==> !GoesBy(entries[k], prefix)
  {
    if k: nat :| k < j && GoesBy(entries[k], prefix) {
      i := FirstOwner(entries, k, prefix);
    } else {
      i := j;
    }
  }

  ghost predicate PrefixesDiffer(entries: seq<Provider>) {
    forall i, j, q :: 0 <= i < j < |entries| && GoesBy(entries[i], q) ==> !GoesBy(entries[j], q)
  }

  /** Hence with prefixes distinct across providers every id of the listing parses back. */
  lemma EveryListedIdParsesBack(entries: seq<Provider>, l: Listed)
    requires WellFormed(entries) && PrefixesDiffer(entries) && l in Listing(entries, |entries|)
    ensures exists i: nat, prefix, m ::
      ListedUnder(entries, i, prefix, m, l) &&
      Parse(entries, Some(l.id)) == Parsed(Some(l.provider), Some(m.id))
  {
    ListingMeaning(entries, |entries|, l);
    var i: nat, prefix, m :| ListedUnder(entries, i, prefix, m, l);
    RoundTrip(entries, i, prefix, m, l);
  }

  // ---------------------------------------------------------------- the order of the listing

  /** How many entries the first j models of a provider come to. */
  ghost function EntriesOf(p: Provider, j: nat): nat {
    if j == 0 then 0 else EntriesOf(p, j - 1) + |Prefixes(p)|
  }

  ghost function EntriesBefore(entries: seq<Provider>, n: nat): nat
    requires n <= |entries|
  {
    if n == 0 then 0 else EntriesBefore(entries, n - 1) + EntriesOf(entries[n - 1], |entries[n - 1].models|)
  }

  lemma {:induction false} PrefixedListingAt(p: Provider, m: Model, k: nat, i: nat)
    requires k <= |Prefixes(p)|
    ensures |PrefixedListing(p, m, k)| == k
    ensures i < k ==> PrefixedListing(p, m, k)[i] == Listed(Prefixes(p)[i] + "/" + m.id, m.name, p.key)
  {
    if k > 0 {
      PrefixedListingAt(p, m, k - 1, i);
    }
  }

  lemma {:induction false} ProviderListingAt(p: Provider, n: nat, j: nat, k: nat)
    requires n <= |p.models|
    ensures |ProviderListing(p, n)| == EntriesOf(p, n)
    ensures j < n && k < |Prefixes(p)| ==>
              EntriesOf(p, j) + k < EntriesOf(p, n) &&
              ProviderListing(p, n)[EntriesOf(p, j) + k] ==
              Listed(Prefixes(p)[k] + "/" + p.models[j].id, p.models[j].name, p.key)
  {
    if n > 0 {
      ProviderListingAt(p, n - 1, j, k);
      PrefixedListingAt(p, p.models[n - 1], |Prefixes(p)|, k);
    }
  }

  /**
    Where everything stands: the providers in their order, each provider's models in theirs, and
    each model under the provider's key and then its alias.
   */
  lemma {:induction false} ListingOrder(entries: seq<Provider>, n: nat, i: nat, j: nat, k: nat)
    requires n <= |entries|
    ensures |Listing(entries, n)| == EntriesBefore(entries, n)
    ensures i < n && j < |entries[i].models| && k < |Prefixes(entries[i])| ==>
              var p, at := entries[i], EntriesBefore(entries, i) + EntriesOf(entries[i], j) + k;
              at < EntriesBefore(entries, n) &&
              Listing(entries, n)[at] == Listed(Prefixes(p)[k] + "/" + p.models[j].id, p.models[j].name, p.key)
  {
    if n > 0 {
      ListingOrder(entries, n - 1, i, j, k);
      ProviderListingAt(entries[n - 1], |entries[n - 1].models|, j, k);
    }
  }
}
