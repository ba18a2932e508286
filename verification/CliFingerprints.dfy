/**
  Reordering body fields and headers to match a CLI's fingerprint. An object is the list of its
  own keys and values in insertion order; so is a Map. Lower-casing is a parameter.
 */
module CliFingerprints {
  import opened Wrappers

  datatype Field<+V> = Field(key: string, value: V)

  function Get<V>(fields: seq<Field<V>>, key: string): (r: Option<V>)
    ensures r.Some? ==> Field(key, r.value) in fields
    ensures r == None <==> forall f :: f in fields ==> f.key != key
  {
    if fields == [] then None
    else if fields[0].key == key then
      assert fields[0] == Field(key, fields[0].value);
      Some(fields[0].value)
    else Get(fields[1..], key)
  }

  /** Assignment to a key: in place when the key is there, at the end otherwise. */
  function Set<V>(fields: seq<Field<V>>, key: string, value: V): seq<Field<V>> {
    if fields == [] then [Field(key, value)]
    else if fields[0].key == key then [Field(key, value)] + fields[1..]
    else [fields[0]] + Set(fields[1..], key, value)
  }

  function Delete<V>(fields: seq<Field<V>>, key: string): seq<Field<V>> {
    Trailing(fields, [key])
  }

  ghost predicate Distinct<V>(fields: seq<Field<V>>) {
    forall i, j :: 0 <= i < j < |fields| ==> fields[i].key != fields[j].key
  }

  // ---------------------------------------------------------------- the ordered list

  /** The fields named in the order list, in its order, each at its first mention. */
  function Leading<V>(fields: seq<Field<V>>, order: seq<string>): seq<Field<V>> {
    if order == [] then []
    else
      var front, key := order[..|order| - 1], order[|order| - 1];
      var value := Get(fields, key);
      if value.Some? && key !in front then Leading(fields, front) + [Field(key, value.value)]
      else Leading(fields, front)
  }

  /** The fields not named, as they stood. */
  function Trailing<V>(fields: seq<Field<V>>, order: seq<string>): seq<Field<V>> {
    if fields == [] then []
    else if fields[0].key in order then Trailing(fields[1..], order)
    else [fields[0]] + Trailing(fields[1..], order)
  }

  function Ordered<V>(fields: seq<Field<V>>, order: seq<string>): seq<Field<V>> {
    Leading(fields, order) + Trailing(fields, order)
  }

  lemma {:induction false} SetAppends<V>(fields: seq<Field<V>>, key: string, value: V)
    requires Absent(fields, key)
    ensures Set(fields, key, value) == fields + [Field(key, value)]
  {
    if fields != [] {
      SetAppends(fields[1..], key, value);
    }
  }

  lemma {:induction false} SetSame<V>(fields: seq<Field<V>>, key: string, value: V)
    requires Distinct(fields) && Field(key, value) in fields
    ensures Set(fields, key, value) == fields
  {
    if fields[0].key != key {
      SetSame(fields[1..], key, value);
    }
  }

  lemma {:induction false} GetOne<V>(fields: seq<Field<V>>, f: Field<V>)
    requires Distinct(fields) && f in fields
    ensures Get(fields, f.key) == Some(f.value)
  {
    if fields[0] != f {
      GetOne(fields[1..], f);
    }
  }

  ghost predicate Absent<V>(fields: seq<Field<V>>, key: string) {
    forall i :: 0 <= i < |fields| ==> fields[i].key != key
  }

  lemma AbsentMeaning<V>(fields: seq<Field<V>>, key: string)
    ensures Absent(fields, key) <==> Get(fields, key) == None
    ensures Absent(fields, key) <==> forall f :: f in fields ==> f.key != key
  {
    if !Absent(fields, key) {
      var i :| 0 <= i < |fields| && fields[i].key == key;
      assert fields[i] in fields;
    }
  }

  lemma {:induction false} LeadingHas<V>(fields: seq<Field<V>>, order: seq<string>, f: Field<V>)
    requires Distinct(fields)
    ensures f in Leading(fields, order) <==> f in fields && f.key in order
  {
    if order != [] {
      var front, key := order[..|order| - 1], order[|order| - 1];
      LeadingHas(fields, front, f);
      assert f.key in order <==> f.key in front || f.key == key;
      if f in fields {
        GetOne(fields, f);
      }
    }
  }

  lemma {:induction false} TrailingHas<V>(fields: seq<Field<V>>, order: seq<string>, f: Field<V>)
    ensures f in Trailing(fields, order) <==> f in fields && f.key !in order
  {
    if fields != [] {
      TrailingHas(fields[1..], order, f);
      assert f in fields <==> f == fields[0] || f in fields[1..];
    }
  }

  lemma {:induction false} LeadingDistinct<V>(fields: seq<Field<V>>, order: seq<string>)
    requires Distinct(fields)
    ensures Distinct(Leading(fields, order))
  {
    if order != [] {
      var front, key := order[..|order| - 1], order[|order| - 1];
      LeadingDistinct(fields, front);
      var lead := Leading(fields, front);
      forall i | 0 <= i < |lead| && key !in front
        ensures lead[i].key != key
      {
        LeadingHas(fields, front, lead[i]);
      }
    }
  }

  lemma {:induction false} TrailingDistinct<V>(fields: seq<Field<V>>, order: seq<string>)
    requires Distinct(fields)
    ensures Distinct(Trailing(fields, order))
  {
    if fields != [] {
      var rest := Trailing(fields[1..], order);
      TrailingDistinct(fields[1..], order);
      forall i | 0 <= i < |rest|
        ensures rest[i].key != fields[0].key
      {
        TrailingHas(fields[1..], order, rest[i]);
      }
    }
  }

  lemma {:induction false} TrailingTwice<V>(fields: seq<Field<V>>, order: seq<string>, more: seq<string>)
    ensures Trailing(Trailing(fields, order), more) == Trailing(fields, order + more)
  {
    if fields != [] {
      TrailingTwice(fields[1..], order, more);
      if fields[0].key !in order {
        var rest := Trailing(fields[1..], order);
        assert ([fields[0]] + rest)[1..] == rest;
      }
    }
  }

  /** Going on to the next key of the order list. */
  lemma OrderStep<V>(fields: seq<Field<V>>, order: seq<string>, i: nat)
    requires i < |order|
    ensures
      var key, value := order[i], Get(fields, order[i]);
      Leading(fields, order[..i + 1]) ==
        (if value.Some? && key !in order[..i] then Leading(fields, order[..i]) + [Field(key, value.value)]
         else Leading(fields, order[..i]))
    ensures Trailing(fields, order[..i + 1]) == Delete(Trailing(fields, order[..i]), order[i])
  {
    assert order[..i + 1][..i] == order[..i];
    TrailingTwice(fields, order[..i], [order[i]]);
    assert order[..i + 1] == order[..i] + [order[i]];
  }

  // ---------------------------------------------------------------- body fields

  method OrderFields<V>(fields: seq<Field<V>>, order: seq<string>) returns (result: seq<Field<V>>)
    requires Distinct(fields)
    ensures result == Ordered(fields, order)
  {
    NothingNamed(fields);
    if order == [] {
      return fields;
    }
    result := [];
    var remaining := fields;
    for i := 0 to |order|
      invariant result == Leading(fields, order[..i])
      invariant remaining == Trailing(fields, order[..i])
    {
      var key := order[i];
      var value := Get(fields, key);
      FieldStep(fields, order, i);
      if value.Some? {
        result := Set(result, key, value.value);
        remaining := Delete(remaining, key);
      }
    }
    assert order[..|order|] == order;
    for j := 0 to |remaining|
      invariant result == Leading(fields, order) + remaining[..j]
    {
      NextRemaining(fields, order, j);
      result := Set(result, remaining[j].key, remaining[j].value);
    }
    assert remaining[..|remaining|] == remaining;
  }

  lemma NextRemaining<V>(fields: seq<Field<V>>, order: seq<string>, j: nat)
    requires Distinct(fields) && j < |Trailing(fields, order)|
    ensures
      var lead, rest := Leading(fields, order), Trailing(fields, order);
      Set(lead + rest[..j], rest[j].key, rest[j].value) == lead + rest[..j + 1]
  {
    var rest := Trailing(fields, order);
    RestIsNew(fields, order, j);
    SetAppends(Leading(fields, order) + rest[..j], rest[j].key, rest[j].value);
    assert rest[..j + 1] == rest[..j] + [Field(rest[j].key, rest[j].value)];
  }

  lemma {:induction false} NothingNamed<V>(fields: seq<Field<V>>)
    ensures Trailing(fields, []) == fields
  {
    if fields != [] {
      NothingNamed(fields[1..]);
    }
  }

  lemma {:induction false} DeleteAbsent<V>(fields: seq<Field<V>>, key: string)
    requires Absent(fields, key)
    ensures Delete(fields, key) == fields
  {
    if fields != [] {
      DeleteAbsent(fields[1..], key);
    }
  }

  /** What one key of the order list does to the two halves. */
  lemma FieldStep<V>(fields: seq<Field<V>>, order: seq<string>, i: nat)
    requires Distinct(fields) && i < |order|
    ensures
      var value := Get(fields, order[i]);
      var lead, rest := Leading(fields, order[..i]), Trailing(fields, order[..i]);
      Leading(fields, order[..i + 1]) == (if value.Some? then Set(lead, order[i], value.value) else lead) &&
      Trailing(fields, order[..i + 1]) == (if value.Some? then Delete(rest, order[i]) else rest)
  {
    var key, value := order[i], Get(fields, order[i]);
    var lead, rest := Leading(fields, order[..i]), Trailing(fields, order[..i]);
    OrderStep(fields, order, i);
    if value == None {
      TrailingAbsent(fields, order[..i], key);
      DeleteAbsent(rest, key);
    } else if key in order[..i] {
      LeadingHas(fields, order[..i], Field(key, value.value));
      LeadingDistinct(fields, order[..i]);
      SetSame(lead, key, value.value);
    } else {
      LeadingAbsent(fields, order[..i], key);
      SetAppends(lead, key, value.value);
    }
  }

  lemma LeadingAbsent<V>(fields: seq<Field<V>>, order: seq<string>, key: string)
    requires Distinct(fields) && key !in order
    ensures Absent(Leading(fields, order), key)
  {
    var lead := Leading(fields, order);
    forall i | 0 <= i < |lead| ensures lead[i].key != key {
      LeadingHas(fields, order, lead[i]);
    }
  }

  lemma TrailingAbsent<V>(fields: seq<Field<V>>, order: seq<string>, key: string)
    requires Get(fields, key) == None
    ensures Absent(Trailing(fields, order), key)
  {
    var rest := Trailing(fields, order);
    forall i | 0 <= i < |rest| ensures rest[i].key != key {
      TrailingHas(fields, order, rest[i]);
    }
  }

  /** No trailing field has the key of a leading one or of an earlier trailing one. */
  lemma RestIsNew<V>(fields: seq<Field<V>>, order: seq<string>, j: nat)
    requires Distinct(fields) && j < |Trailing(fields, order)|
    ensures Absent(Leading(fields, order) + Trailing(fields, order)[..j], Trailing(fields, order)[j].key)
  {
    var lead, rest := Leading(fields, order), Trailing(fields, order);
    TrailingHas(fields, order, rest[j]);
    TrailingDistinct(fields, order);
    LeadingAbsent(fields, order, rest[j].key);
  }

  // ---------------------------------------------------------------- headers

  type Header = Field<string>

  /** One entry per lower-cased name, holding the last spelling and value, where the name first stood. */
  function Collapsed(headers: seq<Header>, lower: string -> string): seq<Field<Header>> {
    if headers == [] then []
    else
      var last := headers[|headers| - 1];
      Set(Collapsed(headers[..|headers| - 1], lower), lower(last.key), last)
  }

  function Headers(entries: seq<Field<Header>>): seq<Header> {
    seq(|entries|, i requires 0 <= i < |entries| => entries[i].value)
  }

  function LowerAll(names: seq<string>, lower: string -> string): (r: seq<string>)
    ensures |r| == |names| && forall i :: 0 <= i < |r| ==> r[i] == lower(names[i])
  {
    seq(|names|, i requires 0 <= i < |names| => lower(names[i]))
  }

  function OrderedHeaders(headers: seq<Header>, order: seq<string>, lower: string -> string): seq<Header> {
    if order == [] then headers
    else Headers(Ordered(Collapsed(headers, lower), LowerAll(order, lower)))
  }

  /** Every entry is filed under its lower-cased name, and each name once. */
  ghost predicate Filed(entries: seq<Field<Header>>, lower: string -> string) {
    Distinct(entries) && forall e :: e in entries ==> e.key == lower(e.value.key)
  }

  lemma {:induction false} SetHas<V>(fields: seq<Field<V>>, key: string, value: V, f: Field<V>)
    requires Distinct(fields)
    ensures f in Set(fields, key, value) <==> f == Field(key, value) || (f in fields && f.key != key)
  {
    if fields != [] {
      SetHas(fields[1..], key, value, f);
      assert f in fields <==> f == fields[0] || f in fields[1..];
      if fields[0].key == key {
        assert f in fields[1..] ==> f.key != key;
      }
    }
  }

  lemma {:induction false} SetDistinct<V>(fields: seq<Field<V>>, key: string, value: V)
    requires Distinct(fields)
    ensures Distinct(Set(fields, key, value))
  {
    if fields != [] && fields[0].key != key {
      var tail := Set(fields[1..], key, value);
      SetDistinct(fields[1..], key, value);
      forall i | 0 <= i < |tail| ensures tail[i].key != fields[0].key {
        SetHas(fields[1..], key, value, tail[i]);
      }
    }
  }

  lemma {:induction false} CollapsedIsFiled(headers: seq<Header>, lower: string -> string)
    ensures Filed(Collapsed(headers, lower), lower)
  {
    if headers != [] {
      var front, last := headers[..|headers| - 1], headers[|headers| - 1];
      CollapsedIsFiled(front, lower);
      SetDistinct(Collapsed(front, lower), lower(last.key), last);
      forall e | e in Collapsed(headers, lower) ensures e.key == lower(e.value.key) {
        SetHas(Collapsed(front, lower), lower(last.key), last, e);
      }
    }
  }

  method OrderHeaders(headers: seq<Header>, order: seq<string>, lower: string -> string) returns (result: seq<Header>)
    ensures result == OrderedHeaders(headers, order, lower)
  {
    if order == [] {
      return headers;
    }
    var headerMap: seq<Field<Header>> := [];
    for i := 0 to |headers|
      invariant headerMap == Collapsed(headers[..i], lower)
    {
      assert headers[..i + 1][..i] == headers[..i];
      headerMap := Set(headerMap, lower(headers[i].key), headers[i]);
    }
    assert headers[..|headers|] == headers;
    ghost var full, names := headerMap, LowerAll(order, lower);
    CollapsedIsFiled(headers, lower);
    NothingNamed(full);
    result := [];
    for i := 0 to |order|
      invariant result == Headers(Leading(full, names[..i]))
      invariant headerMap == Trailing(full, names[..i])
    {
      var entry := Get(headerMap, lower(order[i]));
      HeaderStep(full, names, i, lower);
      if entry.Some? {
        result := Set(result, entry.value.key, entry.value.value);
        headerMap := Delete(headerMap, lower(order[i]));
      }
    }
    assert names[..|names|] == names;
    ghost var leading := Leading(full, names);
    for j := 0 to |headerMap|
      invariant result == Headers(leading + headerMap[..j])
    {
      RemainingStep(full, names, j, lower);
      result := Set(result, headerMap[j].value.key, headerMap[j].value.value);
    }
    assert headerMap[..|headerMap|] == headerMap;
  }

  /** What one name of the order list does to the result and to the map of headers still to place. */
  lemma HeaderStep(full: seq<Field<Header>>, names: seq<string>, i: nat, lower: string -> string)
    requires Filed(full, lower) && i < |names|
    ensures
      var lead, rest := Leading(full, names[..i]), Trailing(full, names[..i]);
      var entry := Get(rest, names[i]);
      Headers(Leading(full, names[..i + 1])) ==
        (if entry.Some? then Set(Headers(lead), entry.value.key, entry.value.value) else Headers(lead)) &&
      Trailing(full, names[..i + 1]) == (if entry.Some? then Delete(rest, names[i]) else rest)
  {
    var rest := Trailing(full, names[..i]);
    var entry := Get(rest, names[i]);
    EntryStep(full, names, i);
    if entry.Some? {
      AppendEntry(Field(names[i], entry.value), full, names[..i], lower);
    } else {
      AbsentMeaning(rest, names[i]);
      DeleteAbsent(rest, names[i]);
    }
  }

  lemma RemainingStep(full: seq<Field<Header>>, names: seq<string>, j: nat, lower: string -> string)
    requires Filed(full, lower) && j < |Trailing(full, names)|
    ensures
      var lead, rest := Leading(full, names), Trailing(full, names);
      Headers(lead + rest[..j + 1]) == Set(Headers(lead + rest[..j]), rest[j].value.key, rest[j].value.value)
  {
    var lead, rest := Leading(full, names), Trailing(full, names);
    var before := lead + rest[..j];
    RestIsNew(full, names, j);
    assert lead + rest[..j + 1] == before + [rest[j]];
    forall i | 0 <= i < |before| ensures before[i] in full {
      if i < |lead| {
        LeadingHas(full, names, before[i]);
      } else {
        TrailingHas(full, names, rest[i - |lead|]);
      }
    }
    TrailingHas(full, names, rest[j]);
    HeadersAppend(before, rest[j], full, lower);
  }

  lemma EntryStep(full: seq<Field<Header>>, names: seq<string>, i: nat)
    requires Distinct(full) && i < |names|
    ensures Trailing(full, names[..i + 1]) == Delete(Trailing(full, names[..i]), names[i])
    ensures
      var entry := Get(Trailing(full, names[..i]), names[i]);
      Leading(full, names[..i + 1]) ==
        Leading(full, names[..i]) + (if entry.Some? then [Field(names[i], entry.value)] else [])
  {
    var rest, found := Trailing(full, names[..i]), Get(full, names[i]);
    OrderStep(full, names, i);
    if Get(rest, names[i]).Some? {
      var e := Field(names[i], Get(rest, names[i]).value);
      TrailingHas(full, names[..i], e);
      GetOne(full, e);
    } else if found.Some? {
      TrailingHas(full, names[..i], Field(names[i], found.value));
    }
    assert Leading(full, names[..i]) + [] == Leading(full, names[..i]);
  }

  lemma AppendEntry(e: Field<Header>, full: seq<Field<Header>>, names: seq<string>, lower: string -> string)
    requires Filed(full, lower) && Get(Trailing(full, names), e.key) == Some(e.value)
    ensures Set(Headers(Leading(full, names)), e.value.key, e.value.value) == Headers(Leading(full, names) + [e])
  {
    var lead := Leading(full, names);
    TrailingHas(full, names, e);
    LeadingAbsent(full, names, e.key);
    forall i | 0 <= i < |lead| ensures lead[i] in full {
      LeadingHas(full, names, lead[i]);
    }
    HeadersAppend(lead, e, full, lower);
  }

  lemma HeadersAppend(entries: seq<Field<Header>>, e: Field<Header>, full: seq<Field<Header>>, lower: string -> string)
    requires Filed(full, lower) && e in full && forall i :: 0 <= i < |entries| ==> entries[i] in full
    requires Absent(entries, e.key)
    ensures Set(Headers(entries), e.value.key, e.value.value) == Headers(entries + [e])
  {
    assert forall i :: 0 <= i < |entries| ==> lower(Headers(entries)[i].key) == entries[i].key;
    SetAppends(Headers(entries), e.value.key, e.value.value);
    assert Headers(entries + [e]) == Headers(entries) + [e.value];
  }
}
