/** The string operations the sources lean on: trimming, splitting, joining, searching. */
module Text {

  /** White space and line terminators, as `String.prototype.trim` removes them. */
  predicate IsSpace(c: char) {
    var n := c as int;
    9 <= n <= 13 || n == 32 || n == 0xA0 || n == 0x1680 || 0x2000 <= n <= 0x200A ||
    n == 0x2028 || n == 0x2029 || n == 0x202F || n == 0x205F || n == 0x3000 || n == 0xFEFF
  }

  /** They are WhiteSpace and LineTerminator of ECMA-262, sections 12.2 and 12.3. */
  lemma SpacesListed(c: char)
    ensures IsSpace(c) <==>
            c as int in {9, 10, 11, 12, 13, 32, 160, 5760, 8192, 8193, 8194, 8195, 8196, 8197, 8198, 8199, 8200, 8201, 8202,
                         8232, 8233, 8239, 8287, 12288, 65279}
  {
  }

  function TrimStart(s: string): string {
    if s != [] && IsSpace(s[0]) then TrimStart(s[1..]) else s
  }

  function TrimEnd(s: string): string {
    if s != [] && IsSpace(s[|s| - 1]) then TrimEnd(s[..|s| - 1]) else s
  }

  function Trim(s: string): string {
    TrimEnd(TrimStart(s))
  }

  ghost predicate Trimmed(s: string) {
    s == [] || (!IsSpace(s[0]) && !IsSpace(s[|s| - 1]))
  }

  lemma {:induction false} TrimStartShape(s: string)
    ensures TrimStart(s) == [] || !IsSpace(TrimStart(s)[0])
    ensures forall c :: c in TrimStart(s) ==> c in s
    ensures s == [] || !IsSpace(s[0]) ==> TrimStart(s) == s
  {
    if s != [] && IsSpace(s[0]) {
      TrimStartShape(s[1..]);
    }
  }

  lemma {:induction false} TrimEndShape(s: string)
    ensures TrimEnd(s) == [] || !IsSpace(TrimEnd(s)[|TrimEnd(s)| - 1])
    ensures TrimEnd(s) <= s
    ensures s == [] || !IsSpace(s[|s| - 1]) ==> TrimEnd(s) == s
  {
    if s != [] && IsSpace(s[|s| - 1]) {
      TrimEndShape(s[..|s| - 1]);
    }
  }

  lemma TrimShape(s: string)
    ensures Trimmed(Trim(s))
    ensures forall c :: c in Trim(s) ==> c in s
    ensures Trimmed(s) ==> Trim(s) == s
  {
    TrimStartShape(s);
    TrimEndShape(TrimStart(s));
  }

  lemma {:induction false} TrimEndNonEmpty(s: string)
    requires s != [] && !IsSpace(s[0])
    ensures TrimEnd(s) != []
  {
    if IsSpace(s[|s| - 1]) {
      TrimEndNonEmpty(s[..|s| - 1]);
    }
  }

  lemma {:induction false} TrimStartEmpty(s: string)
    requires TrimStart(s) == []
    ensures forall c :: c in s ==> IsSpace(c)
  {
    if s != [] {
      TrimStartEmpty(s[1..]);
    }
  }

  /** Only blank strings trim to nothing. */
  lemma TrimEmpty(s: string)
    requires Trim(s) == ""
    ensures forall c :: c in s ==> IsSpace(c)
  {
    TrimStartShape(s);
    if TrimStart(s) != [] {
      TrimEndNonEmpty(TrimStart(s));
    }
    TrimStartEmpty(s);
  }

  ghost predicate Blank(s: string) {
    forall c :: c in s ==> IsSpace(c)
  }

  /** What is left is the text between the blanks around it. */
  lemma TrimAround(lead: string, core: string, trail: string)
    requires Blank(lead) && Trimmed(core) && Blank(trail)
    ensures Trim(lead + core + trail) == core
  {
    if core == [] {
      BlankStart(lead + trail, []);
      assert lead + core + trail == lead + trail + [];
    } else {
      assert lead + core + trail == lead + (core + trail);
      BlankStart(lead, core + trail);
      TrimStartShape(core + trail);
      BlankEnd(core, trail);
      TrimEndShape(core);
    }
  }

  lemma {:induction false} BlankStart(lead: string, rest: string)
    requires Blank(lead)
    ensures TrimStart(lead + rest) == TrimStart(rest)
  {
    if lead == [] {
      assert lead + rest == rest;
    } else {
      assert lead[0] in lead && (lead + rest)[1..] == lead[1..] + rest;
      BlankStart(lead[1..], rest);
    }
  }

  lemma {:induction false} BlankEnd(rest: string, trail: string)
    requires Blank(trail)
    ensures TrimEnd(rest + trail) == TrimEnd(rest)
  {
    if trail == [] {
      assert rest + trail == rest;
    } else {
      var last := |trail| - 1;
      assert trail[last] in trail && (rest + trail)[..|rest| + last] == rest + trail[..last];
      BlankEnd(rest, trail[..last]);
    }
  }

  lemma {:induction false} TrimStartSplits(s: string) returns (lead: string)
    ensures Blank(lead) && s == lead + TrimStart(s)
  {
    if s != [] && IsSpace(s[0]) {
      var l := TrimStartSplits(s[1..]);
      lead := [s[0]] + l;
    } else {
      lead := [];
    }
  }

  lemma {:induction false} TrimEndSplits(s: string) returns (trail: string)
    ensures Blank(trail) && s == TrimEnd(s) + trail
  {
    if s != [] && IsSpace(s[|s| - 1]) {
      var t := TrimEndSplits(s[..|s| - 1]);
      trail := t + [s[|s| - 1]];
    } else {
      trail := [];
    }
  }

  /** The string is the core with blanks around it. */
  ghost predicate Wraps(s: string, core: string) {
    exists lead: string, trail: string :: Blank(lead) && Blank(trail) && s == lead + core + trail
  }

  /** Trimming gives the one core without blanks at either end that the string wraps. */
  lemma TrimMeaning(s: string, core: string)
    ensures core == Trim(s) <==> Trimmed(core) && Wraps(s, core)
  {
    TrimShape(s);
    if core == Trim(s) {
      var lead := TrimStartSplits(s);
      var trail := TrimEndSplits(TrimStart(s));
      assert s == lead + core + trail;
    }
    if Trimmed(core) && Wraps(s, core) {
      var lead: string, trail: string :| Blank(lead) && Blank(trail) && s == lead + core + trail;
      TrimAround(lead, core, trail);
    }
  }

  /** Puts one more character in front of a split. */
  function Prepend(c: char, parts: seq<string>, sep: char): seq<string>
    requires parts != []
  {
    if c == sep then [""] + parts else [[c] + parts[0]] + parts[1..]
  }

  function Split(s: string, sep: char): (r: seq<string>)
    ensures r != []
  {
    if s == [] then [""]
    else Prepend(s[0], Split(s[1..], sep), sep)
  }

  function Join(parts: seq<string>, sep: char): string {
    if parts == [] then ""
    else if |parts| == 1 then parts[0]
    else parts[0] + [sep] + Join(parts[1..], sep)
  }

  lemma {:induction false} SplitOne(s: string, sep: char)
    requires sep !in s
    ensures Split(s, sep) == [s]
  {
    if s != [] {
      SplitOne(s[1..], sep);
      assert s == [s[0]] + s[1..];
    }
  }

  lemma {:induction false} SplitPiecesAreSepFree(s: string, sep: char)
    ensures forall p :: p in Split(s, sep) ==> sep !in p
  {
    if s != [] {
      SplitPiecesAreSepFree(s[1..], sep);
    }
  }

  lemma SplitCons(c: char, s: string, sep: char)
    ensures Split([c] + s, sep) == Prepend(c, Split(s, sep), sep)
  {
    assert ([c] + s)[1..] == s;
  }

  lemma PrependAppend(c: char, a: seq<string>, b: seq<string>, sep: char)
    requires a != []
    ensures Prepend(c, a + b, sep) == Prepend(c, a, sep) + b
  {
    assert (a + b)[1..] == a[1..] + b;
  }

  /** Splitting a concatenation around the separator concatenates the splits. */
  lemma {:induction false} SplitAround(a: string, b: string, sep: char)
    ensures Split(a + [sep] + b, sep) == Split(a, sep) + Split(b, sep)
  {
    if a == [] {
      assert a + [sep] + b == [sep] + b;
      SplitCons(sep, b, sep);
    } else {
      var c, rest := a[0], a[1..];
      assert a == [c] + rest && a + [sep] + b == [c] + (rest + [sep] + b);
      SplitAround(rest, b, sep);
      SplitCons(c, rest, sep);
      SplitCons(c, rest + [sep] + b, sep);
      PrependAppend(c, Split(rest, sep), Split(b, sep), sep);
    }
  }

  /** Splitting undoes joining. */
  lemma {:induction false} SplitJoin(parts: seq<string>, sep: char)
    requires parts != [] && forall p :: p in parts ==> sep !in p
    ensures Split(Join(parts, sep), sep) == parts
  {
    SplitOne(parts[0], sep);
    if |parts| > 1 {
      SplitJoin(parts[1..], sep);
      SplitAround(parts[0], Join(parts[1..], sep), sep);
    }
  }

  /** A lower-case hexadecimal digit. */
  function HexDigit(n: nat): char
    requires n < 16
  {
    if n < 10 then ('0' as int + n) as char else ('a' as int + n - 10) as char
  }

  predicate StartsWith(s: string, prefix: string) {
    prefix <= s
  }

  predicate EndsWith(s: string, suffix: string) {
    |suffix| <= |s| && s[|s| - |suffix|..] == suffix
  }

  /** Position of the first c, or |s| if there is none. */
  function IndexOf(s: string, c: char): nat {
    if s == [] || s[0] == c then 0 else 1 + IndexOf(s[1..], c)
  }

  lemma {:induction false} IndexOfAfter(front: string, c: char, rest: string)
    requires c !in front
    ensures IndexOf(front + [c] + rest, c) == |front|
  {
    if front != [] {
      assert (front + [c] + rest)[1..] == front[1..] + [c] + rest;
      IndexOfAfter(front[1..], c, rest);
    }
  }

  /** Two separator-free prefixes of one string, each followed by the separator, are the same. */
  lemma PrefixUpToSeparator(p: string, q: string, c: char, rest: string)
    requires c !in p && c !in q
    ensures StartsWith(q + [c] + rest, p + [c]) <==> p == q
  {
    var s, t := q + [c] + rest, p + [c];
    assert s[|q|] == c && t[|p|] == c;
    assert |p| < |q| ==> s[|p|] == q[|p|];
    assert |q| < |p| ==> t[|q|] == p[|q|];
    assert t <= s && |p| == |q| ==> p == s[..|p|];
    assert p == q ==> s[..|t|] == t;
  }

  predicate OccursAt(s: string, part: string, i: nat) {
    i + |part| <= |s| && s[i..i + |part|] == part
  }

  predicate Contains(s: string, part: string) {
    exists i: nat | i <= |s| :: OccursAt(s, part, i)
  }
}
