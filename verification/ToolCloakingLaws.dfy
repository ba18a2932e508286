/** Where stripping reaches and what it leaves, stated by paths through arbitrary JSON trees. */
module ToolCloakingLaws {
  import opened Wrappers
  import opened ToolCloaking

  datatype Step = Key(key: string) | Index(i: nat)

  ghost predicate FirstOf(members: seq<Member>, i: nat, key: string) {
    i < |members| && members[i].key == key && forall j: nat :: j < i ==> members[j].key != key
  }

  /** A key leads to the value of the first member that has it, and nowhere if none does. */
  lemma {:induction false} FindMeaning(members: seq<Member>, key: string)
    ensures forall i: nat :: FirstOf(members, i, key) ==> Find(members, key) == Some(members[i].value)
    ensures Find(members, key) == None <==> forall i: nat :: i < |members| ==> members[i].key != key
  {
    if members != [] {
      var tail := members[1..];
      FindMeaning(tail, key);
      assert forall i: nat :: i < |tail| ==> tail[i] == members[i + 1];
      forall i: nat | FirstOf(members, i, key) && i > 0
        ensures Find(members, key) == Some(members[i].value)
      {
        assert FirstOf(tail, i - 1, key);
      }
      assert forall i: nat :: 0 < i < |members| ==> members[i] == tail[i - 1];
    }
  }

  /** The value at the end of a path, if there is one. */
  ghost function Get(j: Json, path: seq<Step>): Option<Json>
    decreases path
  {
    if path == [] then Some(j)
    else
      match path[0]
      case Key(k) =>
        if j.Obj? && Find(j.members, k).Some? then Get(Find(j.members, k).value, path[1..]) else None
      case Index(i) =>
        if j.Arr? && i < |j.items| then Get(j.items[i], path[1..]) else None
  }

  ghost function Stripped(v: Option<Json>): Option<Json> {
    if v.Some? then Some(Strip(v.value)) else None
  }

  // ---------------------------------------------------------------- stripping

  lemma {:induction false} FindStripped(members: seq<Member>, k: string)
    ensures Find(StripMembers(members), k) == if k == ENUM_DESCRIPTIONS then None else Stripped(Find(members, k))
  {
    if members != [] {
      FindStripped(members[1..], k);
      var m, rest := members[0], StripMembers(members[1..]);
      assert ([Member(m.key, Strip(m.value))] + rest)[1..] == rest;
    }
  }

  lemma {:induction false} StripItemsAt(items: seq<Json>, i: nat)
    requires i < |items|
    ensures StripItems(items)[i] == Strip(items[i])
  {
    if i > 0 {
      StripItemsAt(items[1..], i - 1);
    }
  }

  /** Every path not through the dropped key leads to the stripped form of what it led to before. */
  lemma {:induction false} StripGet(j: Json, path: seq<Step>)
    ensures Get(Strip(j), path) == if Key(ENUM_DESCRIPTIONS) in path then None else Stripped(Get(j, path))
    decreases path
  {
    if path != [] {
      assert path == [path[0]] + path[1..];
      match path[0]
      case Key(k) =>
        if j.Obj? {
          FindStripped(j.members, k);
          if Find(j.members, k).Some? {
            StripGet(Find(j.members, k).value, path[1..]);
          }
        }
      case Index(i) =>
        if j.Arr? && i < |j.items| {
          StripItemsAt(j.items, i);
          StripGet(j.items[i], path[1..]);
        }
    }
  }

  ghost function KeysOf(members: seq<Member>): seq<string> {
    if members == [] then [] else [members[0].key] + KeysOf(members[1..])
  }

  ghost function Without(keys: seq<string>, key: string): seq<string> {
    if keys == [] then []
    else (if keys[0] == key then [] else [keys[0]]) + Without(keys[1..], key)
  }

  /**
    What stripping makes of one value, its parts aside: an array keeps its length, an object its
    keys in their order without "enumDescriptions", and any other value is as it was.
   */
  ghost predicate Pruned(before: Json, after: Json) {
    match before
    case Arr(items) => after.Arr? && |after.items| == |items|
    case Obj(members) => after.Obj? && KeysOf(after.members) == Without(KeysOf(members), "enumDescriptions")
    case Null => after == Null
    case Bool(b) => after == Bool(b)
    case Num(n) => after == Num(n)
    case Str(s) => after == Str(s)
  }

  lemma {:induction false} StrippedKeys(members: seq<Member>)
    ensures KeysOf(StripMembers(members)) == Without(KeysOf(members), "enumDescriptions")
  {
    if members != [] {
      var m, rest := members[0], StripMembers(members[1..]);
      StrippedKeys(members[1..]);
      assert KeysOf(members)[1..] == KeysOf(members[1..]);
      assert ([Member(m.key, Strip(m.value))] + rest)[1..] == rest;
    }
  }

  lemma StripPrunes(j: Json)
    ensures Pruned(j, Strip(j))
  {
    if j.Obj? {
      StrippedKeys(j.members);
    }
  }

  /** The value a path leads to has been pruned, or the path leads nowhere in both trees. */
  ghost predicate PrunedAt(before: Option<Json>, after: Option<Json>) {
    after.Some? == before.Some? && (before.Some? ==> Pruned(before.value, after.value))
  }

  /**
    In a stripped tree no path through an "enumDescriptions" key leads anywhere; every other path
    leads where it did, to the same scalar, an array of the same length, or an object with the same
    keys but that one.
   */
  lemma StripAt(j: Json, path: seq<Step>)
    ensures
      if Key("enumDescriptions") in path then Get(Strip(j), path) == None
      else PrunedAt(Get(j, path), Get(Strip(j), path))
  {
    StripGet(j, path);
    if Get(j, path).Some? {
      StripPrunes(Get(j, path).value);
    }
  }

  /** Stripping twice is stripping once. */
  lemma {:induction false} StripIdempotent(j: Json)
    ensures Strip(Strip(j)) == Strip(j)
    decreases j, 1
  {
    match j
    case Arr(items) => StripItemsIdempotent(items);
    case Obj(members) => StripMembersIdempotent(members);
    case _ =>
  }

  lemma {:induction false} StripItemsIdempotent(items: seq<Json>)
    ensures StripItems(StripItems(items)) == StripItems(items)
    decreases items, 0
  {
    if items != [] {
      StripIdempotent(items[0]);
      StripItemsIdempotent(items[1..]);
      assert ([Strip(items[0])] + StripItems(items[1..]))[1..] == StripItems(items[1..]);
    }
  }

  lemma {:induction false} StripMembersIdempotent(members: seq<Member>)
    ensures StripMembers(StripMembers(members)) == StripMembers(members)
    decreases members, 0
  {
    if members != [] {
      var m, rest := members[0], StripMembers(members[1..]);
      StripIdempotent(m.value);
      StripMembersIdempotent(members[1..]);
      assert ([Member(m.key, Strip(m.value))] + rest)[1..] == rest;
    }
  }

  // ---------------------------------------------------------------- payloads

  ghost predicate Follows(step: Step, level: Level) {
    match level
    case Into(key) => step == Key(key)
    case Each => step.Index?
  }

  /** The path goes along the levels as far as both reach. */
  ghost predicate Along(path: seq<Step>, levels: seq<Level>) {
    forall i :: 0 <= i < |path| && i < |levels| ==> Follows(path[i], levels[i])
  }

  /** Same kind of value, with the same number of items or the same keys in the same order. */
  ghost predicate SameShape(a: Json, b: Json) {
    match a
    case Arr(items) => b.Arr? && |b.items| == |items|
    case Obj(members) =>
      b.Obj? && |b.members| == |members| && forall i :: 0 <= i < |members| ==> b.members[i].key == members[i].key
    case _ => a == b
  }

  lemma {:induction false} FindUpdated(members: seq<Member>, key: string, value: Json, k: string)
    requires Find(members, key).Some?
    ensures Find(Update(members, key, value), k) == if k == key then Some(value) else Find(members, k)
    ensures SameShape(Obj(members), Obj(Update(members, key, value)))
  {
    if members[0].key == key {
      assert ([Member(key, value)] + members[1..])[1..] == members[1..];
    } else {
      FindUpdated(members[1..], key, value, k);
      var rest := Update(members[1..], key, value);
      assert ([members[0]] + rest)[1..] == rest;
      assert forall i :: 1 <= i < |members| ==> members[i] == members[1..][i - 1];
    }
  }

  /**
    Rewriting leaves every path off the way to a schema exactly as it was; on the way values keep
    their shape; at and below a schema every path is pruned as in a stripped tree.
   */
  lemma {:induction false} RewriteAt(j: Json, levels: seq<Level>, path: seq<Step>)
    ensures
      var before, after := Get(j, path), Get(Rewrite(j, levels), path);
      if !Along(path, levels) then after == before
      else if |path| < |levels| then
        after.Some? == before.Some? && (before.Some? ==> SameShape(before.value, after.value))
      else if Key("enumDescriptions") in path[|levels|..] then after == None
      else PrunedAt(before, after)
    decreases levels
  {
    if levels == [] {
      StripAt(j, path);
      assert path[0..] == path;
    } else if path == [] {
      RewriteKeepsShape(j, levels);
    } else {
      var rest, path' := levels[1..], path[1..];
      AlongStep(path, levels);
      assert |path| >= |levels| ==> path[|levels|..] == path'[|rest|..];
      match path[0]
      case Key(k) =>
        if levels[0].Into? && j.Obj? && Find(j.members, levels[0].key).Some? {
          var v := Find(j.members, levels[0].key).value;
          FindUpdated(j.members, levels[0].key, Rewrite(v, rest), k);
          if k == levels[0].key {
            RewriteAt(v, rest, path');
          }
        }
      case Index(i) =>
        if levels[0].Each? && j.Arr? && i < |j.items| {
          RewriteItemsAt(j.items, rest, i);
          RewriteAt(j.items[i], rest, path');
        }
    }
  }

  lemma AlongStep(path: seq<Step>, levels: seq<Level>)
    requires path != [] && levels != []
    ensures Along(path, levels) <==> Follows(path[0], levels[0]) && Along(path[1..], levels[1..])
  {
    if Follows(path[0], levels[0]) && Along(path[1..], levels[1..]) {
      forall i | 0 <= i < |path| && i < |levels| ensures Follows(path[i], levels[i]) {
        if i > 0 {
          assert Follows(path[1..][i - 1], levels[1..][i - 1]);
        }
      }
    }
    if Along(path, levels) {
      forall i | 0 <= i < |path[1..]| && i < |levels[1..]| ensures Follows(path[1..][i], levels[1..][i]) {
        assert Follows(path[i + 1], levels[i + 1]);
      }
    }
  }

  lemma RewriteKeepsShape(j: Json, levels: seq<Level>)
    requires levels != []
    ensures SameShape(j, Rewrite(j, levels))
  {
    if levels[0].Into? && j.Obj? && Find(j.members, levels[0].key).Some? {
      var key := levels[0].key;
      FindUpdated(j.members, key, Rewrite(Find(j.members, key).value, levels[1..]), key);
    }
  }

  lemma {:induction false} UpdateTwice(members: seq<Member>, key: string, a: Json, b: Json)
    ensures Update(Update(members, key, a), key, b) == Update(members, key, b)
  {
    if members != [] {
      UpdateTwice(members[1..], key, a, b);
      if members[0].key == key {
        assert ([Member(key, a)] + members[1..])[1..] == members[1..];
      } else {
        var rest := Update(members[1..], key, a);
        assert ([members[0]] + rest)[1..] == rest;
      }
    }
  }

  /** Sanitising a sanitised payload changes nothing. */
  lemma {:induction false} RewriteIdempotent(j: Json, levels: seq<Level>)
    ensures Rewrite(Rewrite(j, levels), levels) == Rewrite(j, levels)
    decreases levels
  {
    if levels == [] {
      StripIdempotent(j);
    } else if levels[0].Into? {
      var key, rest := levels[0].key, levels[1..];
      if j.Obj? && Find(j.members, key).Some? {
        var v := Find(j.members, key).value;
        RewriteIdempotent(v, rest);
        FindUpdated(j.members, key, Rewrite(v, rest), key);
        UpdateTwice(j.members, key, Rewrite(v, rest), Rewrite(v, rest));
      }
    } else if j.Arr? {
      var rest := levels[1..];
      var once := RewriteItems(j.items, rest);
      var twice := RewriteItems(once, rest);
      forall i | 0 <= i < |j.items| ensures twice[i] == once[i] {
        RewriteItemsAt(j.items, rest, i);
        RewriteItemsAt(once, rest, i);
        RewriteIdempotent(j.items[i], rest);
      }
      assert once == twice;
    }
  }

  ghost function WayToSchemas(): seq<Level> {
    [Into("request"), Into("tools"), Each, Into("functionDeclarations"), Each, Into("parameters")]
  }

  ghost function ToolAt(i: nat): seq<Step> {
    [Key("request"), Key("tools"), Index(i)]
  }

  ghost function DeclarationAt(i: nat, k: nat): seq<Step> {
    ToolAt(i) + [Key("functionDeclarations"), Index(k)]
  }

  lemma LevelsOfBody()
    ensures IN_BODY == WayToSchemas()
  {
  }

  /**
    In a sanitised payload the parameters of the tools' function declarations are pruned, and any
    path that leaves the way to them leads where it did.
   */
  lemma PayloadAt(body: Json, path: seq<Step>)
    ensures
      var before, after := Get(body, path), Get(Rewrite(body, IN_BODY), path);
      if !Along(path, WayToSchemas()) then after == before
      else if |path| < 6 then after.Some? == before.Some? && (before.Some? ==> SameShape(before.value, after.value))
      else if Key("enumDescriptions") in path[6..] then after == None
      else PrunedAt(before, after)
  {
    LevelsOfBody();
    RewriteAt(body, IN_BODY, path);
  }

  /**
    In a sanitised payload every member of a declaration other than its parameters, its name among
    them, and every member of a tool other than its declarations, is what it was.
   */
  lemma IdentityIsKept(body: Json, i: nat, k: nat, key: string, rest: seq<Step>)
    ensures key != "parameters" ==>
      var path := DeclarationAt(i, k) + [Key(key)] + rest;
      Get(Rewrite(body, IN_BODY), path) == Get(body, path)
    ensures key != "functionDeclarations" ==>
      var path := ToolAt(i) + [Key(key)] + rest;
      Get(Rewrite(body, IN_BODY), path) == Get(body, path)
  {
    LevelsOfBody();
    if key != "parameters" {
      var path := DeclarationAt(i, k) + [Key(key)] + rest;
      assert path[5] == Key(key) && !Follows(path[5], IN_BODY[5]);
      RewriteAt(body, IN_BODY, path);
    }
    if key != "functionDeclarations" {
      var path := ToolAt(i) + [Key(key)] + rest;
      assert path[3] == Key(key) && !Follows(path[3], IN_BODY[3]);
      RewriteAt(body, IN_BODY, path);
    }
  }
}
