/**
  Merging a client's `anthropic-beta` list into the gateway's own, and collapsing the two
  capitalisations of the Anthropic headers. The string comparison goes through a lower-casing
  function that is a parameter: nothing below depends on what it does.
 */
module AnthropicHeaders {
  import opened Wrappers
  import opened Text

  const CONTEXT_1M_BETA := "context-1m-2025-08-07"

  function TrimmedNonEmpty(parts: seq<string>): seq<string> {
    if parts == [] then []
    else (if Trim(parts[0]) == "" then [] else [Trim(parts[0])]) + TrimmedNonEmpty(parts[1..])
  }

  /** The values of a comma list. */
  function Tokens(s: string): seq<string> {
    TrimmedNonEmpty(Split(s, ','))
  }

  /** The lower-cased allow-list, without the long-context beta when the model is known not to take it. */
  function AllowSet(
    allow: seq<string>, model: Option<string>, supportsContext1m: string -> bool, lower: string -> string): set<string>
  {
    set a | a in allow &&
            (lower(a) != CONTEXT_1M_BETA || model == None || model.value == "" || supportsContext1m(model.value))
          :: lower(a)
  }

  function Lowers(tokens: seq<string>, lower: string -> string): set<string> {
    set t | t in tokens :: lower(t)
  }

  /** Appends to the base the client's tokens that are allowed and not there yet. */
  function Extend(base: seq<string>, client: seq<string>, allowed: set<string>, lower: string -> string): seq<string>
    decreases client
  {
    if client == [] then base
    else if lower(client[0]) in allowed && lower(client[0]) !in Lowers(base, lower) then
      Extend(base + [client[0]], client[1..], allowed, lower)
    else Extend(base, client[1..], allowed, lower)
  }

  function Merged(base: string, clientBeta: Option<string>, allowed: set<string>, lower: string -> string): string {
    if clientBeta == None || Trim(clientBeta.value) == "" then Join(Tokens(base), ',')
    else Join(Extend(Tokens(base), Tokens(clientBeta.value), allowed, lower), ',')
  }

  method MergeClientAnthropicBeta(
    base: string, clientBeta: Option<string>, allow: seq<string>, model: Option<string>,
    supportsContext1m: string -> bool, lower: string -> string) returns (merged: string)
    ensures merged == Merged(base, clientBeta, AllowSet(allow, model, supportsContext1m, lower), lower)
  {
    var baseList := Tokens(base);
    if clientBeta == None || Trim(clientBeta.value) == "" {
      return Join(baseList, ',');
    }
    var seen := Lowers(baseList, lower);
    var allowSet := AllowSet(allow, model, supportsContext1m, lower);
    var client := Tokens(clientBeta.value);
    for i := 0 to |client|
      invariant seen == Lowers(baseList, lower)
      invariant Extend(Tokens(base), client, allowSet, lower) == Extend(baseList, client[i..], allowSet, lower)
    {
      var token := client[i];
      var lowered := lower(token);
      assert client[i..][1..] == client[i + 1..];
      if lowered in allowSet && lowered !in seen {
        baseList := baseList + [token];
        seen := seen + {lowered};
      }
    }
    return Join(baseList, ',');
  }

  // ---------------------------------------------------------------- the two capitalisations

  /** The values, each once, in order of first appearance. */
  function Unique(values: seq<string>): seq<string> {
    if values == [] then []
    else
      var before, v := Unique(values[..|values| - 1]), values[|values| - 1];
      if v in before then before else before + [v]
  }

  function UniqueCommaValues(first: string, second: string): seq<string> {
    Unique(Tokens(first) + Tokens(second))
  }

  const VERSION := "anthropic-version"
  const VERSION_CAPITALISED := "Anthropic-Version"
  const BETA := "anthropic-beta"
  const BETA_CAPITALISED := "Anthropic-Beta"

  /** What the two variants leave behind: the whole list, or its first value; nothing if there is no value. */
  function Reconciled(values: seq<string>, asList: bool): Option<string> {
    if values == [] then None else Some(if asList then Join(values, ',') else values[0])
  }

  function Put(fields: map<string, string>, name: string, value: Option<string>): map<string, string> {
    if value.Some? then fields[name := value.value] else fields
  }

  /** Only when both capitalisations are present are they replaced by one lower-case header. */
  function Collapse(fields: map<string, string>, name: string, capitalised: string, asList: bool): map<string, string> {
    if name in fields && capitalised in fields then
      Put(fields - {capitalised} - {name}, name,
          Reconciled(UniqueCommaValues(fields[name], fields[capitalised]), asList))
    else fields
  }

  function Normalized(fields: map<string, string>): map<string, string> {
    Collapse(Collapse(fields, VERSION, VERSION_CAPITALISED, false), BETA, BETA_CAPITALISED, true)
  }

  class Headers {
    var fields: map<string, string>

    constructor (fields: map<string, string>)
      ensures this.fields == fields
    {
      this.fields := fields;
    }

    method NormalizeAnthropicVariants()
      modifies this
      ensures fields == Normalized(old(fields))
    {
      CollapseVariants(VERSION, VERSION_CAPITALISED, false);
      CollapseVariants(BETA, BETA_CAPITALISED, true);
    }

    method CollapseVariants(name: string, capitalised: string, asList: bool)
      modifies this
      ensures fields == Collapse(old(fields), name, capitalised, asList)
    {
      if name in fields && capitalised in fields {
        var values := UniqueCommaValues(fields[name], fields[capitalised]);
        fields := fields - {capitalised};
        fields := fields - {name};
        if values != [] {
          fields := fields[name := if asList then Join(values, ',') else values[0]];
        }
      }
    }
  }

  // ---------------------------------------------------------------- tokens print and parse

  ghost predicate Token(t: string) {
    t != "" && Trimmed(t) && ',' !in t
  }

  ghost predicate TokenList(ts: seq<string>) {
    forall t :: t in ts ==> Token(t)
  }

  lemma {:induction false} TrimmedNonEmptyAppend(a: seq<string>, b: seq<string>)
    ensures TrimmedNonEmpty(a + b) == TrimmedNonEmpty(a) + TrimmedNonEmpty(b)
  {
    if a == [] {
      assert a + b == b;
    } else {
      assert (a + b)[1..] == a[1..] + b;
      TrimmedNonEmptyAppend(a[1..], b);
    }
  }

  lemma {:induction false} TrimmedNonEmptyTokens(parts: seq<string>)
    requires forall p :: p in parts ==> ',' !in p
    ensures TokenList(TrimmedNonEmpty(parts))
  {
    if parts != [] {
      TrimShape(parts[0]);
      TrimmedNonEmptyTokens(parts[1..]);
    }
  }

  lemma {:induction false} TrimmedNonEmptyIdentity(ts: seq<string>)
    requires TokenList(ts)
    ensures TrimmedNonEmpty(ts) == ts
  {
    if ts != [] {
      assert Token(ts[0]);
      TrimShape(ts[0]);
      TrimmedNonEmptyIdentity(ts[1..]);
    }
  }

  /** Parsing a comma list gives tokens, and parsing a printed token list gives it back. */
  lemma TokensRoundTrip(s: string, ts: seq<string>)
    requires TokenList(ts)
    ensures TokenList(Tokens(s)) && Tokens(Join(ts, ',')) == ts
  {
    SplitPiecesAreSepFree(s, ',');
    TrimmedNonEmptyTokens(Split(s, ','));
    if ts == [] {
      assert Split("", ',') == [""] && Trim("") == "";
    } else {
      SplitJoin(ts, ',');
      TrimmedNonEmptyIdentity(ts);
    }
  }

  lemma TokensAround(c1: string, c2: string)
    ensures Tokens(c1 + [','] + c2) == Tokens(c1) + Tokens(c2)
  {
    SplitAround(c1, c2, ',');
    TrimmedNonEmptyAppend(Split(c1, ','), Split(c2, ','));
  }

  lemma BlankHasNoTokens(s: string)
    requires Trim(s) == ""
    ensures Tokens(s) == []
  {
    TrimEmpty(s);
    SplitOne(s, ',');
  }

  /** A piece between two commas gives the token it wraps in blanks, or none if it is blank. */
  lemma PieceTokens(piece: string, t: string)
    requires ',' !in piece && Trimmed(t) && Wraps(piece, t)
    ensures Tokens(piece) == if t == "" then [] else [t]
  {
    SplitOne(piece, ',');
    TrimMeaning(piece, t);
    var parts := [piece];
    assert parts[1..] == [] && Split(piece, ',') == parts;
    assert TrimmedNonEmpty(parts) == (if t == "" then [] else [t]) + TrimmedNonEmpty(parts[1..]);
  }

  // ---------------------------------------------------------------- merging

  /** The early return for a blank client list is the general rule. */
  lemma MergedTokens(base: string, client: string, allowed: set<string>, lower: string -> string)
    ensures Merged(base, Some(client), allowed, lower) == Join(Extend(Tokens(base), Tokens(client), allowed, lower), ',')
    ensures TokenList(Extend(Tokens(base), Tokens(client), allowed, lower))
    ensures Tokens(Merged(base, Some(client), allowed, lower)) == Extend(Tokens(base), Tokens(client), allowed, lower)
  {
    if Trim(client) == "" {
      BlankHasNoTokens(client);
    }
    TokensRoundTrip(base, []);
    TokensRoundTrip(client, []);
    ExtendKeepsTokens(Tokens(base), Tokens(client), allowed, lower);
    TokensRoundTrip("", Extend(Tokens(base), Tokens(client), allowed, lower));
  }

  lemma {:induction false} ExtendKeepsTokens(base: seq<string>, client: seq<string>, allowed: set<string>, lower: string -> string)
    requires TokenList(base) && TokenList(client)
    ensures TokenList(Extend(base, client, allowed, lower))
    decreases client
  {
    if client != [] {
      assert Token(client[0]);
      ExtendKeepsTokens(base, client[1..], allowed, lower);
      ExtendKeepsTokens(base + [client[0]], client[1..], allowed, lower);
    }
  }

  lemma {:induction false} ExtendInTwo(base: seq<string>, a: seq<string>, b: seq<string>, allowed: set<string>, lower: string -> string)
    ensures Extend(base, a + b, allowed, lower) == Extend(Extend(base, a, allowed, lower), b, allowed, lower)
    decreases a
  {
    if a == [] {
      assert a + b == b;
    } else {
      assert (a + b)[1..] == a[1..] + b;
      ExtendInTwo(base, a[1..], b, allowed, lower);
      ExtendInTwo(base + [a[0]], a[1..], b, allowed, lower);
    }
  }

  /** Homomorphism: merging two client lists at once is merging them one after the other. */
  lemma MergeHomomorphism(base: string, c1: string, c2: string, allowed: set<string>, lower: string -> string)
    ensures Merged(base, Some(c1 + [','] + c2), allowed, lower)
         == Merged(Merged(base, Some(c1), allowed, lower), Some(c2), allowed, lower)
  {
    MergedTokens(base, c1 + [','] + c2, allowed, lower);
    MergedTokens(base, c1, allowed, lower);
    MergedTokens(Merged(base, Some(c1), allowed, lower), c2, allowed, lower);
    TokensAround(c1, c2);
    ExtendInTwo(Tokens(base), Tokens(c1), Tokens(c2), allowed, lower);
  }

  ghost predicate Subsequence(a: seq<string>, b: seq<string>) {
    if a == [] then true
    else if b == [] then false
    else if a[0] == b[0] then Subsequence(a[1..], b[1..])
    else Subsequence(a, b[1..])
  }

  ghost predicate DistinctUpTo(ts: seq<string>, lower: string -> string) {
    forall i, j :: 0 <= i < j < |ts| ==> lower(ts[i]) != lower(ts[j])
  }

  lemma {:induction false} SubsequenceSkip(a: seq<string>, b: seq<string>, x: string)
    requires Subsequence(a, b)
    ensures Subsequence(a, [x] + b)
    decreases |b|, 1
  {
    if a != [] {
      assert ([x] + b)[1..] == b;
      if a[0] == x {
        SubsequenceTail(a, b);
      }
    }
  }

  lemma {:induction false} SubsequenceTail(a: seq<string>, b: seq<string>)
    requires a != [] && Subsequence(a, b)
    ensures Subsequence(a[1..], b)
    decreases |b|, 0
  {
    if a[0] == b[0] {
      SubsequenceSkip(a[1..], b[1..], b[0]);
      assert b == [b[0]] + b[1..];
    } else {
      SubsequenceTail(a, b[1..]);
      SubsequenceSkip(a[1..], b[1..], b[0]);
      assert b == [b[0]] + b[1..];
    }
  }

  /** What one extension adds: allowed tokens of the client, in its order, new up to case, none missed. */
  lemma {:induction false} ExtendMeaning(base: seq<string>, client: seq<string>, allowed: set<string>, lower: string -> string)
    returns (added: seq<string>)
    ensures Extend(base, client, allowed, lower) == base + added
    ensures Subsequence(added, client) && DistinctUpTo(added, lower)
    ensures forall t :: t in added ==> lower(t) in allowed && lower(t) !in Lowers(base, lower)
    ensures forall t :: t in client && lower(t) in allowed ==> lower(t) in Lowers(base + added, lower)
    decreases client
  {
    if client == [] {
      added := [];
    } else {
      var t, rest := client[0], client[1..];
      if lower(t) in allowed && lower(t) !in Lowers(base, lower) {
        var more := ExtendMeaning(base + [t], rest, allowed, lower);
        added := [t] + more;
        assert base + added == base + [t] + more && added[1..] == more;
        assert t in base + [t];
        assert t in base + added;
      } else {
        added := ExtendMeaning(base, rest, allowed, lower);
        SubsequenceSkip(added, rest, t);
        assert client == [t] + rest;
        if lower(t) in allowed {
          var u :| u in base && lower(u) == lower(t);
          assert u in base + added;
        }
      }
    }
  }

  /**
    The token is on the allow-list up to case, and is not the long-context beta if the model is
    known not to take that.
   */
  ghost predicate MayJoin(
    t: string, allow: seq<string>, model: Option<string>, supportsContext1m: string -> bool, lower: string -> string)
  {
    && (exists a :: a in allow && lower(a) == lower(t))
    && (lower(t) == "context-1m-2025-08-07" && model.Some? && model.value != "" ==> supportsContext1m(model.value))
  }

  lemma AllowSetMeaning(
    t: string, allow: seq<string>, model: Option<string>, supportsContext1m: string -> bool, lower: string -> string)
    ensures lower(t) in AllowSet(allow, model, supportsContext1m, lower) <==> MayJoin(t, allow, model, supportsContext1m, lower)
  {
  }

  /**
    The merged list starts with the base tokens; what follows are client tokens that may join, in
    the client's order, distinct up to case and absent from the base, and none of those is missing.
   */
  lemma MergeMeaning(
    base: string, client: string, allow: seq<string>, model: Option<string>, supportsContext1m: string -> bool, lower: string -> string)
    ensures
      var merged := Merged(base, Some(client), AllowSet(allow, model, supportsContext1m, lower), lower);
      exists added ::
        merged == Join(Tokens(base) + added, ',') && Tokens(merged) == Tokens(base) + added &&
        Subsequence(added, Tokens(client)) && DistinctUpTo(added, lower) &&
        (forall t :: t in added ==>
           MayJoin(t, allow, model, supportsContext1m, lower) && lower(t) !in Lowers(Tokens(base), lower)) &&
        (forall t :: t in Tokens(client) && MayJoin(t, allow, model, supportsContext1m, lower) ==>
           lower(t) in Lowers(Tokens(base) + added, lower))
  {
    var allowed := AllowSet(allow, model, supportsContext1m, lower);
    MergedTokens(base, client, allowed, lower);
    var added := ExtendMeaning(Tokens(base), Tokens(client), allowed, lower);
    forall t ensures lower(t) in allowed <==> MayJoin(t, allow, model, supportsContext1m, lower) {
      AllowSetMeaning(t, allow, model, supportsContext1m, lower);
    }
  }

  /** Without a client header the base comes back with its tokens, normalised. */
  lemma AbsentHeader(base: string, allowed: set<string>, lower: string -> string)
    ensures
      var merged := Merged(base, None, allowed, lower);
      merged == Join(Tokens(base), ',') && Tokens(merged) == Tokens(base)
  {
    TokensRoundTrip(base, []);
    TokensRoundTrip(base, Tokens(base));
  }

  lemma {:induction false} NothingNew(base: seq<string>, client: seq<string>, allowed: set<string>, lower: string -> string)
    requires forall t :: t in client && lower(t) in allowed ==> lower(t) in Lowers(base, lower)
    ensures Extend(base, client, allowed, lower) == base
    decreases client
  {
    if client != [] {
      assert client[0] in client;
      NothingNew(base, client[1..], allowed, lower);
    }
  }

  /** Merging the same client list again changes nothing. */
  lemma MergeIdempotent(base: string, client: string, allowed: set<string>, lower: string -> string)
    ensures Merged(Merged(base, Some(client), allowed, lower), Some(client), allowed, lower)
         == Merged(base, Some(client), allowed, lower)
  {
    var once := Merged(base, Some(client), allowed, lower);
    MergedTokens(base, client, allowed, lower);
    MergedTokens(once, client, allowed, lower);
    var added := ExtendMeaning(Tokens(base), Tokens(client), allowed, lower);
    NothingNew(Tokens(once), Tokens(client), allowed, lower);
  }

  /** Merging never adds the long-context beta for a model known not to take it. */
  lemma LongContextGate(
    base: string, client: string, allow: seq<string>, model: string, supportsContext1m: string -> bool, lower: string -> string, t: string)
    requires model != "" && !supportsContext1m(model) && lower(t) == "context-1m-2025-08-07"
    ensures
      var allowed := AllowSet(allow, Some(model), supportsContext1m, lower);
      t in Tokens(Merged(base, Some(client), allowed, lower)) <==> t in Tokens(base)
  {
    var allowed := AllowSet(allow, Some(model), supportsContext1m, lower);
    MergedTokens(base, client, allowed, lower);
    var added := ExtendMeaning(Tokens(base), Tokens(client), allowed, lower);
  }

  // ---------------------------------------------------------------- collapsing

  lemma {:induction false} UniqueMeaning(values: seq<string>)
    ensures forall i, j :: 0 <= i < j < |Unique(values)| ==> Unique(values)[i] != Unique(values)[j]
    ensures forall v :: v in Unique(values) <==> v in values
    ensures values != [] ==> Unique(values) != [] && Unique(values)[0] == values[0]
  {
    if values != [] {
      UniqueMeaning(values[..|values| - 1]);
    }
  }

  /** The values stand in the order of their first appearance. */
  lemma {:induction false} UniqueOrder(values: seq<string>, i: nat, j: nat)
    requires i < j < |Unique(values)|
    ensures exists p, q ::
      0 <= p < q < |values| && values[p] == Unique(values)[i] && values[q] == Unique(values)[j] &&
      Unique(values)[j] !in values[..q]
  {
    var last := |values| - 1;
    var front := values[..last];
    UniqueMeaning(front);
    if j < |Unique(front)| {
      UniqueOrder(front, i, j);
      var p, q :| 0 <= p < q < |front| && front[p] == Unique(front)[i] && front[q] == Unique(front)[j] &&
                  Unique(front)[j] !in front[..q];
      assert values[p] == front[p] && values[q] == front[q] && values[..q] == front[..q];
    } else {
      assert Unique(front)[i] in front;
      var p :| 0 <= p < last && front[p] == Unique(front)[i];
      assert values[p] == Unique(values)[i] && values[last] == Unique(values)[j] && values[..last] == front;
    }
  }

  ghost predicate BothVariants(fields: map<string, string>, name: string, capitalised: string) {
    name in fields && capitalised in fields
  }

  lemma NamesDiffer()
    ensures VERSION != VERSION_CAPITALISED && BETA != BETA_CAPITALISED
    ensures {VERSION, VERSION_CAPITALISED} !! {BETA, BETA_CAPITALISED}
  {
    assert VERSION[0] == BETA[0] == 'a' && VERSION_CAPITALISED[0] == BETA_CAPITALISED[0] == 'A';
    assert |VERSION| == |VERSION_CAPITALISED| == 17 && |BETA| == |BETA_CAPITALISED| == 14;
  }

  lemma CollapseOne(fields: map<string, string>, name: string, capitalised: string, asList: bool, other: string)
    requires name != capitalised
    ensures
      var after := Collapse(fields, name, capitalised, asList);
      !BothVariants(after, name, capitalised) &&
      (other != name && other != capitalised ==>
        (other in after <==> other in fields) && (other in after ==> after[other] == fields[other])) &&
      (!BothVariants(fields, name, capitalised) ==> after == fields)
  {
  }

  /** Afterwards neither header has both capitalisations, a second pass changes nothing, and no other header moved. */
  lemma NormalizeSettles(fields: map<string, string>, other: string)
    ensures
      var after := Normalized(fields);
      && !BothVariants(after, "anthropic-version", "Anthropic-Version") && !BothVariants(after, "anthropic-beta", "Anthropic-Beta")
      && Normalized(after) == after
      && (other !in {"anthropic-version", "Anthropic-Version", "anthropic-beta", "Anthropic-Beta"} ==>
            (other in after <==> other in fields) && (other in after ==> after[other] == fields[other]))
  {
    NamesDiffer();
    var mid := Collapse(fields, VERSION, VERSION_CAPITALISED, false);
    CollapseOne(fields, VERSION, VERSION_CAPITALISED, false, other);
    CollapseOne(mid, BETA, BETA_CAPITALISED, true, other);
    CollapseOne(mid, BETA, BETA_CAPITALISED, true, VERSION);
    CollapseOne(mid, BETA, BETA_CAPITALISED, true, VERSION_CAPITALISED);
  }

  lemma ReconciledMeaning(a: string, b: string)
    ensures
      var given := Tokens(a) + Tokens(b);
      var list, first := Reconciled(UniqueCommaValues(a, b), true), Reconciled(UniqueCommaValues(a, b), false);
      (list.Some? <==> given != []) && (first.Some? <==> given != []) &&
      (given != [] ==> list.value == Join(Unique(given), ',') && Tokens(list.value) == Unique(given) && first.value == given[0] && Token(given[0]))
  {
    TokensRoundTrip(a, []);
    TokensRoundTrip(b, []);
    UniqueMeaning(Tokens(a) + Tokens(b));
    TokensRoundTrip(a, UniqueCommaValues(a, b));
  }

  /**
    Where both capitalisations were present, the beta header lists every token of the two, each
    once, and the version header is the first token; a header without tokens disappears.
   */
  lemma NormalizeKeepsTokens(fields: map<string, string>)
    ensures BothVariants(fields, "anthropic-beta", "Anthropic-Beta") ==>
      var given, after := Tokens(fields["anthropic-beta"]) + Tokens(fields["Anthropic-Beta"]), Normalized(fields);
      ("anthropic-beta" in after <==> given != []) && ("anthropic-beta" in after ==>
         after["anthropic-beta"] == Join(Unique(given), ',') && Tokens(after["anthropic-beta"]) == Unique(given))
    ensures BothVariants(fields, "anthropic-version", "Anthropic-Version") ==>
      var given, after := Tokens(fields["anthropic-version"]) + Tokens(fields["Anthropic-Version"]), Normalized(fields);
      ("anthropic-version" in after <==> given != []) && ("anthropic-version" in after ==> after["anthropic-version"] == given[0] && Token(given[0]))
  {
    NamesDiffer();
    var mid := Collapse(fields, VERSION, VERSION_CAPITALISED, false);
    CollapseOne(fields, VERSION, VERSION_CAPITALISED, false, BETA);
    CollapseOne(fields, VERSION, VERSION_CAPITALISED, false, BETA_CAPITALISED);
    CollapseOne(mid, BETA, BETA_CAPITALISED, true, VERSION);
    if BothVariants(fields, BETA, BETA_CAPITALISED) {
      ReconciledMeaning(fields[BETA], fields[BETA_CAPITALISED]);
    }
    if BothVariants(fields, VERSION, VERSION_CAPITALISED) {
      ReconciledMeaning(fields[VERSION], fields[VERSION_CAPITALISED]);
    }
  }
}
