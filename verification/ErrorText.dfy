/** Upstream error bodies as text: serialising, quoting and lower-casing them for marker searches. */
module ErrorText {
  import opened Wrappers
  import opened Text

  /** Nothing, a string, or any other value given by its JSON serialisation. */
  datatype Body = NoBody | TextBody(text: string) | JsonBody(serialised: string)

  function LowerAll(s: string, lower: char -> char): (r: string)
    ensures |r| == |s| && forall i :: 0 <= i < |s| ==> r[i] == lower(s[i])
  {
    seq(|s|, i requires 0 <= i < |s| => lower(s[i]))
  }

  /** How JSON writes one character inside a string. */
  function Escape(c: char): string {
    if c == '"' then "\\\""
    else if c == '\\' then "\\\\"
    else if c as int == 8 then "\\b"
    else if c as int == 9 then "\\t"
    else if c as int == 10 then "\\n"
    else if c as int == 12 then "\\f"
    else if c as int == 13 then "\\r"
    else if c as int < 32 then "\\u00" + [HexDigit(c as int / 16), HexDigit(c as int % 16)]
    else [c]
  }

  function EscapeAll(s: string): string {
    if s == [] then [] else Escape(s[0]) + EscapeAll(s[1..])
  }

  function JsonQuote(s: string): string {
    "\"" + EscapeAll(s) + "\""
  }

  /** `JSON.stringify(body ?? "")`. */
  function Serialised(body: Body): string {
    match body
    case NoBody => JsonQuote("")
    case TextBody(text) => JsonQuote(text)
    case JsonBody(serialised) => serialised
  }

  // ---------------------------------------------------------------- markers survive quoting and lower-casing

  /** Beyond ASCII: what JSON never escapes. */
  ghost predicate Wide(s: string) {
    forall i :: 0 <= i < |s| ==> 128 <= s[i] as int
  }

  ghost predicate Narrow(s: string) {
    forall i :: 0 <= i < |s| ==> s[i] as int < 128
  }

  /** The lower-casing neither changes the marker's characters nor makes other characters into them. */
  ghost predicate Caseless(marker: string, lower: char -> char) {
    forall c, m :: m in marker ==> (lower(c) == m <==> c == m)
  }

  lemma OccursLater(c: char, s: string, part: string, i: nat)
    ensures OccursAt([c] + s, part, i + 1) <==> OccursAt(s, part, i)
  {
    if i + |part| <= |s| {
      assert ([c] + s)[i + 1..i + 1 + |part|] == s[i..i + |part|];
    }
  }

  lemma ContainsStep(c: char, s: string, part: string)
    ensures Contains([c] + s, part) <==> StartsWith([c] + s, part) || Contains(s, part)
  {
    var t := [c] + s;
    assert StartsWith(t, part) <==> OccursAt(t, part, 0);
    if i: nat :| 0 < i <= |t| && OccursAt(t, part, i) {
      OccursLater(c, s, part, i - 1);
    }
    if i: nat :| i <= |s| && OccursAt(s, part, i) {
      OccursLater(c, s, part, i);
    }
  }

  lemma {:induction false} NarrowSkipped(narrow: string, s: string, marker: string)
    requires marker != [] && Wide(marker) && Narrow(narrow)
    ensures Contains(narrow + s, marker) <==> Contains(s, marker)
  {
    if narrow == [] {
      assert narrow + s == s;
    } else {
      var rest := narrow[1..] + s;
      assert narrow + s == [narrow[0]] + rest;
      assert (narrow + s)[0] != marker[0];
      ContainsStep(narrow[0], rest, marker);
      NarrowSkipped(narrow[1..], s, marker);
    }
  }

  lemma EscapeShape(c: char)
    ensures Escape(c) == [c] || (c as int < 128 && Narrow(Escape(c)))
  {
  }

  lemma {:induction false} EscapedStart(s: string, marker: string)
    requires Wide(marker)
    ensures StartsWith(EscapeAll(s) + "\"", marker) <==> StartsWith(s, marker)
  {
    if marker != [] {
      var m := marker[0];
      if s == [] {
        assert (EscapeAll(s) + "\"")[0] == '"';
      } else {
        EscapeShape(s[0]);
        var rest := EscapeAll(s[1..]) + "\"";
        assert EscapeAll(s) + "\"" == Escape(s[0]) + rest;
        assert (EscapeAll(s) + "\"")[0] == Escape(s[0])[0];
        if s[0] == m {
          assert Escape(m) == [m];
          EscapedStart(s[1..], marker[1..]);
          StartsWithCons(m, rest, marker);
          StartsWithCons(m, s[1..], marker);
          assert s == [m] + s[1..];
        }
      }
    }
  }

  lemma StartsWithCons(c: char, s: string, part: string)
    requires part != [] && part[0] == c
    ensures StartsWith([c] + s, part) <==> StartsWith(s, part[1..])
  {
    assert part == [c] + part[1..];
    if StartsWith([c] + s, part) {
      assert ([c] + s)[..|part|] == part;
      assert s[..|part| - 1] == ([c] + s)[..|part|][1..];
    }
    if StartsWith(s, part[1..]) {
      assert ([c] + s)[..|part|] == [c] + s[..|part| - 1];
    }
  }

  lemma {:induction false} EscapedContains(s: string, marker: string)
    requires marker != [] && Wide(marker)
    ensures Contains(EscapeAll(s) + "\"", marker) <==> Contains(s, marker)
  {
    if s == [] {
      NarrowSkipped("\"", "", marker);
      assert EscapeAll(s) + "\"" == "\"" + "";
    } else {
      var rest := EscapeAll(s[1..]) + "\"";
      EscapedContains(s[1..], marker);
      assert s == [s[0]] + s[1..] && EscapeAll(s) + "\"" == Escape(s[0]) + rest;
      ContainsStep(s[0], s[1..], marker);
      EscapeShape(s[0]);
      if Escape(s[0]) == [s[0]] {
        ContainsStep(s[0], rest, marker);
        EscapedStart(s, marker);
      } else {
        NarrowSkipped(Escape(s[0]), rest, marker);
      }
    }
  }

  /** A wide marker is in the quoted string exactly when it is in the string. */
  lemma QuotedContains(s: string, marker: string)
    requires marker != [] && Wide(marker)
    ensures Contains(JsonQuote(s), marker) <==> Contains(s, marker)
  {
    EscapedContains(s, marker);
    NarrowSkipped("\"", EscapeAll(s) + "\"", marker);
    assert JsonQuote(s) == "\"" + (EscapeAll(s) + "\"");
  }

  /** A caseless marker is in the lower-cased string exactly when it is in the string. */
  lemma LoweredContains(s: string, marker: string, lower: char -> char)
    requires Caseless(marker, lower)
    ensures Contains(LowerAll(s, lower), marker) <==> Contains(s, marker)
  {
    forall i: nat | i + |marker| <= |s|
      ensures OccursAt(LowerAll(s, lower), marker, i) <==> OccursAt(s, marker, i)
    {
      var a, b := LowerAll(s, lower)[i..i + |marker|], s[i..i + |marker|];
      forall k | 0 <= k < |marker| ensures a[k] == marker[k] <==> b[k] == marker[k] {
        assert marker[k] in marker;
      }
      assert a == marker <==> forall k :: 0 <= k < |marker| ==> a[k] == marker[k];
      assert b == marker <==> forall k :: 0 <= k < |marker| ==> b[k] == marker[k];
    }
    assert forall i: nat :: OccursAt(LowerAll(s, lower), marker, i) <==> OccursAt(s, marker, i);
  }

  lemma ContainsTransitive(s: string, part: string, inner: string)
    requires Contains(s, part) && Contains(part, inner)
    ensures Contains(s, inner)
  {
    var i: nat :| i <= |s| && OccursAt(s, part, i);
    var k: nat :| k <= |part| && OccursAt(part, inner, k);
    var found := s[i + k..i + k + |inner|];
    forall x | 0 <= x < |inner| ensures found[x] == inner[x] {
      assert s[i..i + |part|][k + x] == part[k + x] && part[k..k + |inner|][x] == inner[x];
    }
    assert found == inner;
    assert OccursAt(s, inner, i + k);
  }

  // ---------------------------------------------------------------- quoting is undone by reading

  /** The value of a hexadecimal digit. */
  ghost function DigitValue(c: char): int {
    if '0' <= c <= '9' then c as int - '0' as int else c as int - 'a' as int + 10
  }

  /** What the letter after a backslash stands for. */
  ghost function Unescaped(c: char): char {
    if c == 'b' then 8 as char
    else if c == 't' then 9 as char
    else if c == 'n' then 10 as char
    else if c == 'f' then 12 as char
    else if c == 'r' then 13 as char
    else c
  }

  /** How a reader takes the characters of a JSON string (section 7 of RFC 8259), for codes below 256. */
  ghost function Read(s: string): string {
    if s == [] then []
    else if s[0] != '\\' then [s[0]] + Read(s[1..])
    else if |s| < 2 then []
    else if s[1] != 'u' then [Unescaped(s[1])] + Read(s[2..])
    else if |s| < 6 || !(0 <= 16 * DigitValue(s[4]) + DigitValue(s[5]) < 256) then []
    else [(16 * DigitValue(s[4]) + DigitValue(s[5])) as char] + Read(s[6..])
  }

  /** Which characters are written with a backslash, and how: the short forms first, then the four digits. */
  lemma EscapeForms(c: char)
    ensures c in ['"', '\\', 8 as char, 9 as char, 10 as char, 12 as char, 13 as char] ==>
              |Escape(c)| == 2 && Escape(c)[0] == '\\' && Unescaped(Escape(c)[1]) == c && Escape(c)[1] != 'u'
    ensures c as int < 32 && c !in [8 as char, 9 as char, 10 as char, 12 as char, 13 as char] ==>
              |Escape(c)| == 6 && Escape(c)[..4] == ['\\', 'u', '0', '0'] &&
              16 * DigitValue(Escape(c)[4]) + DigitValue(Escape(c)[5]) == c as int
    ensures c as int >= 32 && c != '"' && c != '\\' ==> Escape(c) == [c]
  {
  }

  /** Reading what was quoted gives the string back. */
  lemma {:induction false} QuotedReadsBack(s: string)
    ensures Read(EscapeAll(s)) == s
    ensures JsonQuote(s) == ['"'] + EscapeAll(s) + ['"']
  {
    if s != [] {
      var c, rest := s[0], EscapeAll(s[1..]);
      QuotedReadsBack(s[1..]);
      EscapeForms(c);
      var whole := Escape(c) + rest;
      assert whole[|Escape(c)|..] == rest;
      assert forall i :: 0 <= i < |Escape(c)| ==> whole[i] == Escape(c)[i];
      if |Escape(c)| == 6 {
        assert Escape(c)[0] == Escape(c)[..4][0] && Escape(c)[1] == Escape(c)[..4][1];
      }
    }
  }
}
