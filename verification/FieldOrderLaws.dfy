/** Ordering is a stable permutation, and ordering twice is ordering once. */
module FieldOrderLaws {
  import opened Wrappers
  import opened CliFingerprints

  lemma {:induction false} DistinctCount<V>(fields: seq<Field<V>>, f: Field<V>)
    requires Distinct(fields)
    ensures multiset(fields)[f] == if f in fields then 1 else 0
  {
    if fields != [] {
      assert fields == [fields[0]] + fields[1..];
      DistinctCount(fields[1..], f);
      assert forall i :: 0 <= i < |fields[1..]| ==> fields[1..][i].key != fields[0].key;
    }
  }

  lemma SameFieldsPermute<V>(a: seq<Field<V>>, b: seq<Field<V>>)
    requires Distinct(a) && Distinct(b) && forall f :: f in a <==> f in b
    ensures multiset(a) == multiset(b)
  {
    forall f ensures multiset(a)[f] == multiset(b)[f] {
      DistinctCount(a, f);
      DistinctCount(b, f);
    }
  }

  lemma OrderedHas<V>(fields: seq<Field<V>>, order: seq<string>, f: Field<V>)
    requires Distinct(fields)
    ensures f in Ordered(fields, order) <==> f in fields
  {
    LeadingHas(fields, order, f);
    TrailingHas(fields, order, f);
  }

  lemma OrderedDistinct<V>(fields: seq<Field<V>>, order: seq<string>)
    requires Distinct(fields)
    ensures Distinct(Ordered(fields, order))
  {
    var lead, rest := Leading(fields, order), Trailing(fields, order);
    LeadingDistinct(fields, order);
    TrailingDistinct(fields, order);
    forall i, j | 0 <= i < |lead| && 0 <= j < |rest| ensures lead[i].key != rest[j].key {
      LeadingHas(fields, order, lead[i]);
      TrailingHas(fields, order, rest[j]);
    }
  }

  /** Every key and value is kept, exactly once. */
  lemma OrderedIsPermutation<V>(fields: seq<Field<V>>, order: seq<string>)
    requires Distinct(fields)
    ensures multiset(Ordered(fields, order)) == multiset(fields)
  {
    OrderedDistinct(fields, order);
    forall f ensures f in Ordered(fields, order) <==> f in fields {
      OrderedHas(fields, order, f);
    }
    SameFieldsPermute(Ordered(fields, order), fields);
  }

  /** Where a key is first mentioned; |order| if it is not. */
  ghost function Rank(order: seq<string>, key: string): nat {
    if order == [] || order[0] == key then 0 else 1 + Rank(order[1..], key)
  }

  lemma {:induction false} RankMeaning(order: seq<string>, key: string)
    ensures Rank(order, key) <= |order|
    ensures key in order <==> Rank(order, key) < |order|
    ensures key in order ==> order[Rank(order, key)] == key && key !in order[..Rank(order, key)]
  {
    if order != [] && order[0] != key {
      RankMeaning(order[1..], key);
      if key in order {
        assert order[..Rank(order, key)] == [order[0]] + order[1..][..Rank(order[1..], key)];
      }
    }
  }

  lemma {:induction false} RankExtends(order: seq<string>, last: string, key: string)
    ensures Rank(order + [last], key) == if key in order || key == last then Rank(order, key) else |order| + 1
  {
    if order == [] {
      assert (order + [last])[1..] == [];
    } else {
      assert (order + [last])[1..] == order[1..] + [last];
      if order[0] != key {
        RankExtends(order[1..], last, key);
        RankMeaning(order[1..], key);
      }
    }
  }

  lemma {:induction false} LeadingFollowsList<V>(fields: seq<Field<V>>, order: seq<string>, i: nat, j: nat)
    requires Distinct(fields) && i < j < |Leading(fields, order)|
    ensures Rank(order, Leading(fields, order)[i].key) < Rank(order, Leading(fields, order)[j].key)
  {
    var front, key := order[..|order| - 1], order[|order| - 1];
    var lead := Leading(fields, front);
    assert order == front + [key];
    assert i < |lead|;
    LeadingHas(fields, front, lead[i]);
    RankExtends(front, key, lead[i].key);
    RankMeaning(front, lead[i].key);
    if j < |lead| {
      LeadingFollowsList(fields, front, i, j);
      LeadingHas(fields, front, lead[j]);
      RankExtends(front, key, lead[j].key);
    } else {
      RankExtends(front, key, key);
      RankMeaning(front, key);
    }
  }

  /** The original position of the j-th trailing field. */
  ghost function Origin<V>(fields: seq<Field<V>>, order: seq<string>, j: nat): (i: nat)
    requires j < |Trailing(fields, order)|
    ensures i < |fields| && fields[i] == Trailing(fields, order)[j]
  {
    if fields[0].key in order then 1 + Origin(fields[1..], order, j)
    else if j == 0 then 0
    else 1 + Origin(fields[1..], order, j - 1)
  }

  lemma {:induction false} TrailingKeepsOrder<V>(fields: seq<Field<V>>, order: seq<string>, i: nat, j: nat)
    requires i < j < |Trailing(fields, order)|
    ensures Origin(fields, order, i) < Origin(fields, order, j)
  {
    if fields[0].key in order {
      TrailingKeepsOrder(fields[1..], order, i, j);
    } else if i > 0 {
      TrailingKeepsOrder(fields[1..], order, i - 1, j - 1);
    }
  }

  /** Field a stands before field b. */
  ghost predicate Before<V>(fields: seq<Field<V>>, a: Field<V>, b: Field<V>) {
    exists i, j :: 0 <= i < j < |fields| && fields[i] == a && fields[j] == b
  }

  /** Both orders an ordered object promises: the list's among listed keys, the original among the others. */
  ghost predicate InOrder<V>(fields: seq<Field<V>>, order: seq<string>, a: Field<V>, b: Field<V>) {
    if b.key in order then a.key in order && Rank(order, a.key) < Rank(order, b.key)
    else a.key in order || Before(fields, a, b)
  }

  lemma TrailingInOrder<V>(fields: seq<Field<V>>, order: seq<string>, i: nat, j: nat)
    requires i < j < |Trailing(fields, order)|
    ensures InOrder(fields, order, Trailing(fields, order)[i], Trailing(fields, order)[j])
  {
    var rest := Trailing(fields, order);
    TrailingHas(fields, order, rest[j]);
    TrailingKeepsOrder(fields, order, i, j);
    assert fields[Origin(fields, order, i)] == rest[i] && fields[Origin(fields, order, j)] == rest[j];
  }

  lemma LeadingInOrder<V>(fields: seq<Field<V>>, order: seq<string>, i: nat, j: nat)
    requires Distinct(fields) && i < j < |Leading(fields, order)|
    ensures InOrder(fields, order, Leading(fields, order)[i], Leading(fields, order)[j])
  {
    LeadingHas(fields, order, Leading(fields, order)[i]);
    LeadingFollowsList(fields, order, i, j);
  }

  /** Listed keys come first, in the order of their first mention; the others follow in their original order. */
  lemma OrderedIsStable<V>(fields: seq<Field<V>>, order: seq<string>, i: nat, j: nat)
    requires Distinct(fields) && i < j < |Ordered(fields, order)|
    ensures InOrder(fields, order, Ordered(fields, order)[i], Ordered(fields, order)[j])
  {
    var lead, rest := Leading(fields, order), Trailing(fields, order);
    var n := |lead|;
    if j < n {
      LeadingInOrder(fields, order, i, j);
    } else if i < n {
      LeadingHas(fields, order, lead[i]);
      TrailingHas(fields, order, rest[j - n]);
    } else {
      TrailingInOrder(fields, order, i - n, j - n);
    }
  }

  // ---------------------------------------------------------------- idempotence

  lemma {:induction false} LeadingDependsOnValues<V>(a: seq<Field<V>>, b: seq<Field<V>>, order: seq<string>)
    requires Distinct(a) && Distinct(b) && forall f :: f in a <==> f in b
    ensures Leading(a, order) == Leading(b, order)
  {
    if order != [] {
      var key := order[|order| - 1];
      LeadingDependsOnValues(a, b, order[..|order| - 1]);
      if Get(a, key).Some? {
        GetOne(b, Field(key, Get(a, key).value));
      }
    }
  }

  lemma {:induction false} TrailingAppend<V>(a: seq<Field<V>>, b: seq<Field<V>>, order: seq<string>)
    ensures Trailing(a + b, order) == Trailing(a, order) + Trailing(b, order)
  {
    if a == [] {
      assert a + b == b;
    } else {
      assert (a + b)[1..] == a[1..] + b;
      TrailingAppend(a[1..], b, order);
    }
  }

  lemma {:induction false} NoneTrail<V>(fields: seq<Field<V>>, order: seq<string>)
    requires forall i :: 0 <= i < |fields| ==> fields[i].key in order
    ensures Trailing(fields, order) == []
  {
    if fields != [] {
      NoneTrail(fields[1..], order);
    }
  }

  lemma {:induction false} AllTrail<V>(fields: seq<Field<V>>, order: seq<string>)
    requires forall i :: 0 <= i < |fields| ==> fields[i].key !in order
    ensures Trailing(fields, order) == fields
  {
    if fields != [] {
      AllTrail(fields[1..], order);
    }
  }

  lemma TrailingOfOrdered<V>(fields: seq<Field<V>>, order: seq<string>)
    requires Distinct(fields)
    ensures Trailing(Ordered(fields, order), order) == Trailing(fields, order)
  {
    var lead, rest := Leading(fields, order), Trailing(fields, order);
    TrailingAppend(lead, rest, order);
    forall i | 0 <= i < |lead| ensures lead[i].key in order {
      LeadingHas(fields, order, lead[i]);
    }
    forall i | 0 <= i < |rest| ensures rest[i].key !in order {
      TrailingHas(fields, order, rest[i]);
    }
    NoneTrail(lead, order);
    AllTrail(rest, order);
  }

  /** Ordering an ordered object again changes nothing, duplicates in the list or not. */
  lemma OrderedIdempotent<V>(fields: seq<Field<V>>, order: seq<string>)
    requires Distinct(fields)
    ensures Ordered(Ordered(fields, order), order) == Ordered(fields, order)
  {
    OrderedDistinct(fields, order);
    forall f ensures f in Ordered(fields, order) <==> f in fields {
      OrderedHas(fields, order, f);
    }
    LeadingDependsOnValues(Ordered(fields, order), fields, order);
    TrailingOfOrdered(fields, order);
  }

  // ---------------------------------------------------------------- headers

  ghost predicate LastSpelling(headers: seq<Header>, i: nat, lower: string -> string) {
    i < |headers| && forall j :: i < j < |headers| ==> lower(headers[j].key) != lower(headers[i].key)
  }

  ghost predicate KeptFrom(headers: seq<Header>, i: nat, e: Field<Header>, lower: string -> string) {
    LastSpelling(headers, i, lower) && e == Field(lower(headers[i].key), headers[i])
  }

  lemma KeptStep(headers: seq<Header>, i: nat, e: Field<Header>, lower: string -> string)
    requires headers != []
    ensures
      var last := |headers| - 1;
      KeptFrom(headers, i, e, lower) <==>
      if i == last then e == Field(lower(headers[last].key), headers[last])
      else KeptFrom(headers[..last], i, e, lower) && e.key != lower(headers[last].key)
  {
    var last := |headers| - 1;
    var front := headers[..last];
    assert forall j :: i < j < last ==> front[j] == headers[j];
  }

  /** Collapsing keeps, for every case-insensitive name, its last spelling and value, and nothing else. */
  lemma {:induction false} CollapsedMeaning(headers: seq<Header>, lower: string -> string, e: Field<Header>)
    ensures e in Collapsed(headers, lower) <==> exists i: nat :: KeptFrom(headers, i, e, lower)
  {
    if headers != [] {
      var last := |headers| - 1;
      var front, h := headers[..last], headers[last];
      CollapsedMeaning(front, lower, e);
      CollapsedIsFiled(front, lower);
      SetHas(Collapsed(front, lower), lower(h.key), h, e);
      forall i: nat
        ensures KeptFrom(headers, i, e, lower) <==>
                if i == last then e == Field(lower(h.key), h)
                else KeptFrom(front, i, e, lower) && e.key != lower(h.key)
      {
        KeptStep(headers, i, e, lower);
      }
      if e in Collapsed(headers, lower) {
        if e == Field(lower(h.key), h) {
          assert KeptFrom(headers, last, e, lower);
        } else {
          var i: nat :| KeptFrom(front, i, e, lower);
          assert KeptFrom(headers, i, e, lower);
        }
      }
    }
  }

  ghost function Names(headers: seq<Header>, lower: string -> string): seq<string> {
    if headers == [] then []
    else
      var front, name := Names(headers[..|headers| - 1], lower), lower(headers[|headers| - 1].key);
      if name in front then front else front + [name]
  }

  ghost function KeysOf<V>(fields: seq<Field<V>>): (r: seq<string>)
    ensures |r| == |fields| && forall i :: 0 <= i < |r| ==> r[i] == fields[i].key
  {
    seq(|fields|, i requires 0 <= i < |fields| => fields[i].key)
  }

  /** Assigning to a key that is there leaves every key where it stands. */
  lemma {:induction false} SetInPlace<V>(fields: seq<Field<V>>, key: string, value: V, i: nat)
    requires !Absent(fields, key) && i < |fields|
    ensures |Set(fields, key, value)| == |fields| && Set(fields, key, value)[i].key == fields[i].key
  {
    if fields[0].key != key {
      var tail := fields[1..];
      assert fields == [fields[0]] + tail;
      SetInPlace(tail, key, value, if i == 0 then 0 else i - 1);
    }
  }

  lemma SetKeys<V>(fields: seq<Field<V>>, key: string, value: V)
    ensures KeysOf(Set(fields, key, value)) == if Absent(fields, key) then KeysOf(fields) + [key] else KeysOf(fields)
  {
    if Absent(fields, key) {
      SetAppends(fields, key, value);
    } else {
      assert fields != [];
      SetInPlace(fields, key, value, 0);
      forall i | 0 <= i < |fields| ensures KeysOf(Set(fields, key, value))[i] == KeysOf(fields)[i] {
        SetInPlace(fields, key, value, i);
      }
    }
  }

  /** The collapsed names stand in the order in which each first appears. */
  lemma {:induction false} CollapsedOrder(headers: seq<Header>, lower: string -> string)
    ensures KeysOf(Collapsed(headers, lower)) == Names(headers, lower)
  {
    if headers != [] {
      var front, h := headers[..|headers| - 1], headers[|headers| - 1];
      CollapsedOrder(front, lower);
      var fields, name := Collapsed(front, lower), lower(h.key);
      SetKeys(fields, name, h);
      assert name in KeysOf(fields) <==> !Absent(fields, name) by {
        assert forall i :: 0 <= i < |fields| ==> KeysOf(fields)[i] == fields[i].key;
      }
    }
  }

  ghost predicate DistinctNames(headers: seq<Header>, lower: string -> string) {
    forall i, j :: 0 <= i < j < |headers| ==> lower(headers[i].key) != lower(headers[j].key)
  }

  /** Headers already distinct up to case are filed as they stand. */
  lemma {:induction false} CollapseFiled(entries: seq<Field<Header>>, lower: string -> string)
    requires Filed(entries, lower)
    ensures Collapsed(Headers(entries), lower) == entries
  {
    if entries != [] {
      var front, e := entries[..|entries| - 1], entries[|entries| - 1];
      assert Headers(entries)[..|entries| - 1] == Headers(front);
      assert e in entries;
      CollapseFiled(front, lower);
      SetAppends(front, e.key, e.value);
      assert entries == front + [Field(e.key, e.value)];
    }
  }

  /** Ordered headers hold the last spelling and value of every case-insensitive name, and nothing else. */
  lemma OrderedHeadersKeepLast(headers: seq<Header>, order: seq<string>, lower: string -> string, h: Header)
    requires order != []
    ensures h in OrderedHeaders(headers, order, lower) <==>
            exists i: nat :: KeptFrom(headers, i, Field(lower(h.key), h), lower)
  {
    var full, names, e := Collapsed(headers, lower), LowerAll(order, lower), Field(lower(h.key), h);
    var entries, r := Ordered(full, names), OrderedHeaders(headers, order, lower);
    CollapsedIsFiled(headers, lower);
    CollapsedMeaning(headers, lower, e);
    OrderedHas(full, names, e);
    if h in r {
      var i :| 0 <= i < |r| && r[i] == h;
      OrderedHas(full, names, entries[i]);
      assert entries[i] == e;
    }
    if e in entries {
      var i :| 0 <= i < |entries| && entries[i] == e;
      assert r[i] == h;
    }
  }

  lemma OrderedIsFiled(full: seq<Field<Header>>, names: seq<string>, lower: string -> string)
    requires Filed(full, lower)
    ensures Filed(Ordered(full, names), lower)
  {
    OrderedDistinct(full, names);
    forall e | e in Ordered(full, names) ensures e.key == lower(e.value.key) {
      OrderedHas(full, names, e);
    }
  }

  lemma FiledNames(entries: seq<Field<Header>>, lower: string -> string)
    requires Filed(entries, lower)
    ensures DistinctNames(Headers(entries), lower)
  {
    assert forall i :: 0 <= i < |entries| ==> entries[i] in entries;
  }

  /** Ordered headers have one entry per case-insensitive name, and ordering them again changes nothing. */
  lemma OrderedHeadersIdempotent(headers: seq<Header>, order: seq<string>, lower: string -> string)
    ensures
      var r := OrderedHeaders(headers, order, lower);
      OrderedHeaders(r, order, lower) == r && (order != [] ==> DistinctNames(r, lower))
  {
    if order != [] {
      var full, names := Collapsed(headers, lower), LowerAll(order, lower);
      CollapsedIsFiled(headers, lower);
      OrderedIsFiled(full, names, lower);
      FiledNames(Ordered(full, names), lower);
      CollapseFiled(Ordered(full, names), lower);
      OrderedIdempotent(full, names);
    }
  }

  /** Headers distinct up to case come out as a permutation of what went in. */
  lemma OrderedHeadersPermute(headers: seq<Header>, order: seq<string>, lower: string -> string)
    requires DistinctNames(headers, lower)
    ensures multiset(OrderedHeaders(headers, order, lower)) == multiset(headers)
  {
    if order != [] {
      var r := OrderedHeaders(headers, order, lower);
      OrderedHeadersIdempotent(headers, order, lower);
      forall h ensures h in r <==> h in headers {
        OrderedHeadersKeepLast(headers, order, lower, h);
        if h in headers {
          var i: nat :| i < |headers| && headers[i] == h;
          assert KeptFrom(headers, i, Field(lower(h.key), h), lower);
        }
      }
      SameFieldsPermute(r, headers);
    }
  }

  lemma {:induction false} RankOfKey<V>(fields: seq<Field<V>>, i: nat)
    requires Distinct(fields) && i < |fields|
    ensures Rank(KeysOf(fields), fields[i].key) == i
  {
    if i > 0 {
      assert KeysOf(fields)[1..] == KeysOf(fields[1..]);
      RankOfKey(fields[1..], i - 1);
    }
  }

  /** In distinct fields, standing before is having the key of lower rank. */
  lemma BeforeByRank<V>(fields: seq<Field<V>>, a: Field<V>, b: Field<V>)
    requires Distinct(fields) && Before(fields, a, b)
    ensures Rank(KeysOf(fields), a.key) < Rank(KeysOf(fields), b.key)
  {
    var i: nat, j: nat :| i < j < |fields| && fields[i] == a && fields[j] == b;
    RankOfKey(fields, i);
    RankOfKey(fields, j);
  }

  /** The order promised for two lower-cased names: the list's, or else that of first appearance. */
  ghost predicate NamesInOrder(headers: seq<Header>, order: seq<string>, lower: string -> string, a: string, b: string) {
    var listed, given := LowerAll(order, lower), Names(headers, lower);
    if b in listed then a in listed && Rank(listed, a) < Rank(listed, b)
    else a in listed || Rank(given, a) < Rank(given, b)
  }

  /**
    Headers whose names are listed come first, in the order of their first mention up to case; the
    others follow in the order in which their names first appeared.
   */
  lemma OrderedHeadersAreStable(headers: seq<Header>, order: seq<string>, lower: string -> string, i: nat, j: nat)
    requires order != [] && i < j < |OrderedHeaders(headers, order, lower)|
    ensures
      var r := OrderedHeaders(headers, order, lower);
      NamesInOrder(headers, order, lower, lower(r[i].key), lower(r[j].key))
  {
    var full, names := Collapsed(headers, lower), LowerAll(order, lower);
    var entries := Ordered(full, names);
    CollapsedIsFiled(headers, lower);
    CollapsedOrder(headers, lower);
    OrderedIsFiled(full, names, lower);
    OrderedIsStable(full, names, i, j);
    assert entries[i] in entries && entries[j] in entries;
    if entries[j].key !in names && entries[i].key !in names {
      BeforeByRank(full, entries[i], entries[j]);
    }
  }
}
