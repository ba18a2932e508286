/**
  Removing `enumDescriptions` from tool schemas, at any depth, and from a request payload only
  where the tool parameter schemas are.
 */
module ToolCloaking {
  import opened Wrappers

  datatype Json =
    | Null
    | Bool(b: bool)
    | Num(n: real)
    | Str(s: string)
    | Arr(items: seq<Json>)
    | Obj(members: seq<Member>)

  datatype Member = Member(key: string, value: Json)

  const ENUM_DESCRIPTIONS := "enumDescriptions"

  // ---------------------------------------------------------------- stripping a schema

  function Strip(j: Json): Json
    decreases j, 1
  {
    match j
    case Arr(items) => Arr(StripItems(items))
    case Obj(members) => Obj(StripMembers(members))
    case _ => j
  }

  function StripItems(items: seq<Json>): (r: seq<Json>)
    ensures |r| == |items|
    decreases items, 0
  {
    if items == [] then [] else [Strip(items[0])] + StripItems(items[1..])
  }

  function StripMembers(members: seq<Member>): seq<Member>
    decreases members, 0
  {
    if members == [] then []
    else
      var m, rest := members[0], StripMembers(members[1..]);
      if m.key == ENUM_DESCRIPTIONS then rest else [Member(m.key, Strip(m.value))] + rest
  }

  method StripEnumDescriptions(schema: Json) returns (r: Json)
    ensures r == Strip(schema)
    decreases schema
  {
    match schema
    case Arr(items) =>
      var result := [];
      for i := 0 to |items|
        invariant result + StripItems(items[i..]) == StripItems(items)
      {
        assert items[i..][1..] == items[i + 1..];
        var stripped := StripEnumDescriptions(items[i]);
        result := result + [stripped];
      }
      assert items[|items|..] == [];
      return Arr(result);
    case Obj(members) =>
      var result := [];
      for i := 0 to |members|
        invariant result + StripMembers(members[i..]) == StripMembers(members)
      {
        assert members[i..][1..] == members[i + 1..];
        if members[i].key != ENUM_DESCRIPTIONS {
          var stripped := StripEnumDescriptions(members[i].value);
          result := result + [Member(members[i].key, stripped)];
        }
      }
      assert members[|members|..] == [];
      return Obj(result);
    case _ =>
      return schema;
  }

  // ---------------------------------------------------------------- a payload's schemas

  function Find(members: seq<Member>, key: string): Option<Json> {
    if members == [] then None
    else if members[0].key == key then Some(members[0].value)
    else Find(members[1..], key)
  }

  /** `{ ...members, key: value }` where the key is there already. */
  function Update(members: seq<Member>, key: string, value: Json): seq<Member> {
    if members == [] then []
    else if members[0].key == key then [Member(key, value)] + members[1..]
    else [members[0]] + Update(members[1..], key, value)
  }

  /** One level of the way to a schema: into a key of an object, or into every item of an array. */
  datatype Level = Into(key: string) | Each

  const PARAMETERS := "parameters"
  const DECLARATIONS := "functionDeclarations"
  const TOOLS := "tools"
  const REQUEST := "request"

  const IN_DECLARATION := [Into(PARAMETERS)]
  const IN_TOOL := [Into(DECLARATIONS), Each] + IN_DECLARATION
  const IN_REQUEST := [Into(TOOLS), Each] + IN_TOOL
  const IN_BODY := [Into(REQUEST)] + IN_REQUEST

  /** Strips every schema the levels lead to, and leaves alone whatever does not have their shape. */
  function Rewrite(j: Json, levels: seq<Level>): Json
    decreases |levels|, 0
  {
    if levels == [] then Strip(j)
    else
      match levels[0]
      case Into(key) =>
        if j.Obj? && Find(j.members, key).Some? then
          Obj(Update(j.members, key, Rewrite(Find(j.members, key).value, levels[1..])))
        else j
      case Each =>
        if j.Arr? then Arr(RewriteItems(j.items, levels[1..])) else j
  }

  function RewriteItems(items: seq<Json>, levels: seq<Level>): (r: seq<Json>)
    ensures |r| == |items|
    decreases |levels|, 1, |items|
  {
    if items == [] then [] else [Rewrite(items[0], levels)] + RewriteItems(items[1..], levels)
  }

  lemma {:induction false} RewriteItemsAt(items: seq<Json>, levels: seq<Level>, i: nat)
    requires i < |items|
    ensures RewriteItems(items, levels)[i] == Rewrite(items[i], levels)
  {
    if i > 0 {
      RewriteItemsAt(items[1..], levels, i - 1);
    }
  }

  lemma {:induction false} UpdateSame(members: seq<Member>, key: string)
    requires Find(members, key).Some?
    ensures Update(members, key, Find(members, key).value) == members
  {
    if members[0].key != key {
      UpdateSame(members[1..], key);
    }
  }

  lemma RewriteInto(j: Json, key: string, rest: seq<Level>)
    requires j.Obj? && Find(j.members, key).Some?
    ensures Rewrite(j, [Into(key)] + rest) == Obj(Update(j.members, key, Rewrite(Find(j.members, key).value, rest)))
  {
    assert ([Into(key)] + rest)[1..] == rest;
  }

  lemma RewriteIntoEach(j: Json, key: string, rest: seq<Level>)
    requires j.Obj? && Find(j.members, key).Some? && Find(j.members, key).value.Arr?
    ensures Rewrite(j, [Into(key), Each] + rest)
         == Obj(Update(j.members, key, Arr(RewriteItems(Find(j.members, key).value.items, rest))))
  {
    assert [Into(key), Each] + rest == [Into(key)] + ([Each] + rest);
    RewriteInto(j, key, [Each] + rest);
    assert ([Each] + rest)[1..] == rest;
  }

  /** A value without the array where it should be is left as it is. */
  lemma RewriteMissing(j: Json, key: string, rest: seq<Level>)
    requires !(j.Obj? && Find(j.members, key).Some? && Find(j.members, key).value.Arr?)
    ensures Rewrite(j, [Into(key), Each] + rest) == j
  {
    if j.Obj? && Find(j.members, key).Some? {
      assert [Into(key), Each] + rest == [Into(key)] + ([Each] + rest);
      RewriteInto(j, key, [Each] + rest);
      UpdateSame(j.members, key);
    }
  }

  lemma RewriteDeclaration(d: Json)
    ensures Rewrite(d, IN_DECLARATION) ==
            if d.Obj? && Find(d.members, PARAMETERS).Some? then
              Obj(Update(d.members, PARAMETERS, Strip(Find(d.members, PARAMETERS).value)))
            else d
  {
    assert IN_DECLARATION[1..] == [];
  }

  method SanitizeDeclarations(declarations: seq<Json>) returns (r: seq<Json>, changed: bool)
    ensures r == RewriteItems(declarations, IN_DECLARATION)
    ensures !changed ==> r == declarations
  {
    r, changed := [], false;
    for i := 0 to |declarations|
      invariant r + RewriteItems(declarations[i..], IN_DECLARATION) == RewriteItems(declarations, IN_DECLARATION)
      invariant !changed ==> r == declarations[..i]
    {
      var declaration := declarations[i];
      assert declarations[i..][1..] == declarations[i + 1..];
      RewriteDeclaration(declaration);
      if declaration.Obj? && Find(declaration.members, PARAMETERS).Some? {
        changed := true;
        var parameters := StripEnumDescriptions(Find(declaration.members, PARAMETERS).value);
        r := r + [Obj(Update(declaration.members, PARAMETERS, parameters))];
      } else {
        r := r + [declaration];
      }
    }
    assert declarations[|declarations|..] == [] && declarations[..|declarations|] == declarations;
  }

  method SanitizeTool(tool: Json) returns (r: Json, changed: bool)
    ensures r == Rewrite(tool, IN_TOOL)
    ensures !changed ==> r == tool
  {
    if !(tool.Obj? && Find(tool.members, DECLARATIONS).Some? && Find(tool.members, DECLARATIONS).value.Arr?) {
      RewriteMissing(tool, DECLARATIONS, IN_DECLARATION);
      return tool, false;
    }
    var declarations, declarationsChanged := SanitizeDeclarations(Find(tool.members, DECLARATIONS).value.items);
    RewriteIntoEach(tool, DECLARATIONS, IN_DECLARATION);
    if !declarationsChanged {
      UpdateSame(tool.members, DECLARATIONS);
      return tool, false;
    }
    return Obj(Update(tool.members, DECLARATIONS, Arr(declarations))), true;
  }

  method SanitizeTools(tools: seq<Json>) returns (r: seq<Json>, changed: bool)
    ensures r == RewriteItems(tools, IN_TOOL)
    ensures !changed ==> r == tools
  {
    r, changed := [], false;
    for i := 0 to |tools|
      invariant r + RewriteItems(tools[i..], IN_TOOL) == RewriteItems(tools, IN_TOOL)
      invariant !changed ==> r == tools[..i]
    {
      assert tools[i..][1..] == tools[i + 1..];
      var tool, toolChanged := SanitizeTool(tools[i]);
      r, changed := r + [tool], changed || toolChanged;
    }
    assert tools[|tools|..] == [] && tools[..|tools|] == tools;
  }

  method SanitizeAntigravityToolPayload(body: Json) returns (r: Json)
    requires body.Obj?
    ensures r == Rewrite(body, IN_BODY)
  {
    if Find(body.members, REQUEST) == None {
      return body;
    }
    var request := Find(body.members, REQUEST).value;
    RewriteInto(body, REQUEST, IN_REQUEST);
    if !(request.Obj? && Find(request.members, TOOLS).Some? && Find(request.members, TOOLS).value.Arr?) {
      RewriteMissing(request, TOOLS, IN_TOOL);
      UpdateSame(body.members, REQUEST);
      return body;
    }
    var tools, changed := SanitizeTools(Find(request.members, TOOLS).value.items);
    RewriteIntoEach(request, TOOLS, IN_TOOL);
    if !changed {
      UpdateSame(request.members, TOOLS);
      UpdateSame(body.members, REQUEST);
      return body;
    }
    return Obj(Update(body.members, REQUEST, Obj(Update(request.members, TOOLS, Arr(tools)))));
  }
}
