/** Joining a GLM base URL and an endpoint path: when it settles, and what it ignores. */
module GlmUrlLaws {
  import opened Text
  import opened GlmProvider

  ghost predicate QueryFree(s: string) {
    forall i :: 0 <= i < |s| ==> s[i] != '?' && s[i] != '#'
  }

  ghost predicate IsQuery(q: string) {
    q == "" || q[0] == '?' || q[0] == '#'
  }

  ghost predicate Slashes(s: string) {
    forall i :: 0 <= i < |s| ==> s[i] == '/'
  }

  // ---------------------------------------------------------------- query and hash

  lemma {:induction false} QuerySplitsOff(base: string, q: string)
    requires QueryFree(base) && IsQuery(q)
    ensures SplitUrlQueryAndHash(base + q) == Parts(base, q)
  {
    if base == [] {
      assert base + q == q;
    } else {
      assert (base + q)[1..] == base[1..] + q;
      QuerySplitsOff(base[1..], q);
    }
  }

  lemma {:induction false} SplitShape(url: string)
    ensures QueryFree(BeforeQuery(url)) && IsQuery(url[|BeforeQuery(url)|..])
  {
    if url != [] && !StartsQuery(url[0]) {
      SplitShape(url[1..]);
      assert url[|BeforeQuery(url)|..] == url[1..][|BeforeQuery(url[1..])|..];
    }
  }

  lemma StrippedShape(url: string)
    ensures QueryFree(Stripped(url).base) && IsQuery(Stripped(url).suffix)
    ensures Stripped(url).suffix == SplitUrlQueryAndHash(url).suffix
  {
    SplitShape(url);
  }

  // ---------------------------------------------------------------- endpoint tails

  lemma LowerAppend(a: string, b: string)
    ensures Lower(a + b) == Lower(a) + Lower(b)
  {
  }

  lemma EndingChar(s: string, tail: string, k: nat)
    requires EndsWith(s, tail) && 1 <= k <= |tail|
    ensures s[|s| - k] == tail[|tail| - k]
  {
    assert s[|s| - |tail|..][|tail| - k] == s[|s| - k];
  }

  lemma AppendEnds(b: string, tail: string)
    ensures EndsWith(b + tail, tail) && (b + tail)[..|b|] == b
  {
  }

  /** No two endpoint tails end one string. */
  lemma TailsExclude(s: string)
    ensures EndsWith(s, COUNT_TOKENS) ==> !EndsWith(s, MESSAGES) && !EndsWith(s, CHAT_COMPLETIONS) && !EndsWith(s, MODELS)
    ensures EndsWith(s, MESSAGES) ==> !EndsWith(s, CHAT_COMPLETIONS) && !EndsWith(s, MODELS)
    ensures EndsWith(s, CHAT_COMPLETIONS) ==> !EndsWith(s, MODELS)
  {
    assert |COUNT_TOKENS| == 22 && COUNT_TOKENS[20] == 'n' && COUNT_TOKENS[19] == 'e';
    assert |MESSAGES| == 9 && MESSAGES[7] == 'e';
    assert |CHAT_COMPLETIONS| == 17 && CHAT_COMPLETIONS[15] == 'n' && CHAT_COMPLETIONS[14] == 'o';
    assert |MODELS| == 7 && MODELS[5] == 'l';
    if EndsWith(s, COUNT_TOKENS) {
      EndingChar(s, COUNT_TOKENS, 2);
      EndingChar(s, COUNT_TOKENS, 3);
    }
    if EndsWith(s, MESSAGES) {
      EndingChar(s, MESSAGES, 2);
    }
    if EndsWith(s, CHAT_COMPLETIONS) {
      EndingChar(s, CHAT_COMPLETIONS, 2);
      EndingChar(s, CHAT_COMPLETIONS, 3);
    }
    if EndsWith(s, MODELS) {
      EndingChar(s, MODELS, 2);
    }
  }

  const TAILS := {"/messages/count_tokens", "/messages", "/chat/completions", "/models"}

  /** The endpoints whose version goes with them. */
  ghost predicate TakesVersion(tail: string) {
    tail == "/messages/count_tokens" || tail == "/messages"
  }

  lemma EndpointOf(b: string, tail: string)
    requires tail in TAILS
    ensures EndpointLength(b + tail) == |tail| + if TakesVersion(tail) then VersionLength(b) else 0
  {
    AppendEnds(b, tail);
    TailsExclude(b + tail);
  }

  /** A lower-case path segment that cannot be mistaken for a version, a query or a slash. */
  ghost predicate PlainPath(tail: string) {
    && |tail| > 1 && tail[0] == '/' && tail[1] != 'v' && tail[|tail| - 1] != '/'
    && Lower(tail) == tail && QueryFree(tail)
  }

  ghost predicate PathChar(c: char) {
    'a' <= c <= 'z' || c == '/' || c == '_'
  }

  lemma PathChars(s: string)
    requires forall i :: 0 <= i < |s| ==> PathChar(s[i])
    ensures Lower(s) == s && QueryFree(s)
  {
  }

  lemma TailsArePlain(tail: string)
    requires tail in TAILS
    ensures PlainPath(tail)
  {
    PathChars(tail);
  }

  ghost function WithoutVersion(b: string): string {
    b[..|b| - VersionLength(Lower(b))]
  }

  lemma TailEndsPlain(b: string, e: string)
    requires Lower(e) in TAILS
    ensures e != "" && (b + e)[|b + e| - 1] != '/'
  {
    TailsArePlain(Lower(e));
    assert Lower(e)[|e| - 1] == LowerChar(e[|e| - 1]);
  }

  lemma SlashesAndQueryComeOff(whole: string, slashes: string, q: string)
    requires QueryFree(whole) && whole != "" && whole[|whole| - 1] != '/' && Slashes(slashes) && IsQuery(q)
    ensures Stripped(whole + slashes + q) == Parts(StripEndpoint(whole), q)
  {
    assert QueryFree(whole + slashes);
    QuerySplitsOff(whole + slashes, q);
    SlashesComeOff(whole, slashes);
  }

  lemma StripsTail(b: string, e: string, slashes: string, q: string)
    requires QueryFree(b + e) && Lower(e) in TAILS && Slashes(slashes) && IsQuery(q)
    ensures Stripped(b + e + slashes + q) == Parts(if TakesVersion(Lower(e)) then WithoutVersion(b) else b, q)
  {
    TailEndsPlain(b, e);
    SlashesAndQueryComeOff(b + e, slashes, q);
    LowerAppend(b, e);
    EndpointOf(Lower(b), Lower(e));
    PrefixOfAppend(b, e, |b + e| - EndpointLength(Lower(b + e)));
  }

  lemma PrefixOfAppend(b: string, e: string, n: nat)
    requires n <= |b|
    ensures (b + e)[..n] == b[..n]
  {
  }

  lemma {:induction false} SlashesComeOff(b: string, slashes: string)
    requires b == "" || b[|b| - 1] != '/'
    requires Slashes(slashes)
    ensures StripSlashes(b + slashes) == b
  {
    if slashes == [] {
      assert b + slashes == b;
    } else {
      var front, last := slashes[..|slashes| - 1], slashes[|slashes| - 1];
      assert (b + slashes)[|b + slashes| - 1] == last;
      assert (b + slashes)[..|b + slashes| - 1] == b + front;
      SlashesComeOff(b, front);
    }
  }

  // ---------------------------------------------------------------- versions

  lemma {:induction false} TrailingDigitsAppend(b: string, s: string)
    requires TrailingDigits(s) < |s|
    ensures TrailingDigits(b + s) == TrailingDigits(s)
  {
    assert (b + s)[..|b + s| - 1] == b + s[..|s| - 1];
    if IsDigit(s[|s| - 1]) {
      TrailingDigitsAppend(b, s[..|s| - 1]);
    }
  }

  lemma VersionAppend(b: string, v: string)
    requires 0 < VersionLength(v) == |v|
    ensures VersionLength(b + v) == |v|
  {
    TrailingDigitsAppend(b, v);
  }

  lemma {:induction false} TrailingDigitsShape(s: string)
    ensures forall i :: |s| - TrailingDigits(s) <= i < |s| ==> IsDigit(s[i])
  {
    if s != [] && IsDigit(s[|s| - 1]) {
      TrailingDigitsShape(s[..|s| - 1]);
    }
  }

  /** A version is a slash followed by slash-free text beginning with v. */
  lemma VersionShape(s: string)
    requires 0 < VersionLength(s)
    ensures
      var v := s[|s| - VersionLength(s)..];
      |v| >= 3 && v[0] == '/' && v[1] == 'v' && '/' !in v[1..]
  {
    TrailingDigitsShape(s);
  }

  /** Capitals become their small letters. */
  lemma CapitalsLowered(i: nat)
    requires i < 26
    ensures LowerChar("ABCDEFGHIJKLMNOPQRSTUVWXYZ"[i]) == "abcdefghijklmnopqrstuvwxyz"[i]
  {
  }

  /** No other character changes. */
  lemma OthersStay(c: char)
    ensures c in "ABCDEFGHIJKLMNOPQRSTUVWXYZ" || LowerChar(c) == c
  {
    if 'A' <= c <= 'Z' {
      assert "ABCDEFGHIJKLMNOPQRSTUVWXYZ"[c as int - 65] == c;
    }
  }

  /** A slash, a v in either capital, and digits. */
  ghost predicate IsVersion(v: string) {
    |v| >= 3 && v[0] == '/' && (v[1] == 'v' || v[1] == 'V') && forall i :: 2 <= i < |v| ==> '0' <= v[i] <= '9'
  }

  lemma {:induction false} AllDigits(s: string)
    requires forall i :: 0 <= i < |s| ==> '0' <= s[i] <= '9'
    ensures TrailingDigits(s) == |s|
  {
    if s != [] {
      AllDigits(s[..|s| - 1]);
    }
  }

  lemma {:induction false} DigitsAfter(front: string, digits: string)
    requires forall i :: 0 <= i < |digits| ==> '0' <= digits[i] <= '9'
    ensures TrailingDigits(front + digits) == |digits| + TrailingDigits(front)
  {
    if digits == [] {
      assert front + digits == front;
    } else {
      var shorter := digits[..|digits| - 1];
      assert (front + digits)[..|front + digits| - 1] == front + shorter;
      DigitsAfter(front, shorter);
    }
  }

  lemma LowerVersion(v: string)
    requires IsVersion(v)
    ensures Lower(v) == ['/', 'v'] + v[2..]
  {
  }

  lemma VersionAtEnd(front: string, digits: string)
    requires digits != [] && forall i :: 0 <= i < |digits| ==> '0' <= digits[i] <= '9'
    ensures VersionLength(front + (['/', 'v'] + digits)) == 2 + |digits|
  {
    DigitsAfter(front + ['/', 'v'], digits);
    assert front + ['/', 'v'] + digits == front + (['/', 'v'] + digits);
  }

  lemma VersionFound(b: string, v: string)
    requires IsVersion(v)
    ensures VersionLength(Lower(b + v)) == |v|
  {
    LowerAppend(b, v);
    LowerVersion(v);
    VersionAtEnd(Lower(b), v[2..]);
  }

  lemma VersionIs(s: string)
    requires 0 < VersionLength(Lower(s))
    ensures IsVersion(s[|s| - VersionLength(Lower(s))..])
  {
    TrailingDigitsShape(Lower(s));
  }

  /** The string ends in an API version, in either capital. */
  ghost predicate EndsInVersion(b: string) {
    exists front: string, v :: IsVersion(v) && b == front + v
  }

  lemma VersionSplitsOff(b: string)
    requires 0 < VersionLength(Lower(b))
    ensures EndsInVersion(b)
  {
    var front, v := b[..|b| - VersionLength(Lower(b))], b[|b| - VersionLength(Lower(b))..];
    VersionIs(b);
    assert b == front + v;
  }

  lemma VersionMeaning(b: string)
    ensures 0 < VersionLength(Lower(b)) <==> EndsInVersion(b)
  {
    if 0 < VersionLength(Lower(b)) {
      VersionSplitsOff(b);
    } else if EndsInVersion(b) {
      var front: string, v :| IsVersion(v) && b == front + v;
      VersionFound(front, v);
    }
  }

  /** The string ends in one of the known endpoint paths, in any capitals. */
  ghost predicate EndsInEndpoint(b: string) {
    exists front: string, e :: Lower(e) in TAILS && b == front + e
  }

  lemma EndpointMeaning(b: string)
    ensures 0 < EndpointLength(Lower(b)) <==> EndsInEndpoint(b)
  {
    if tail :| tail in TAILS && EndsWith(Lower(b), tail) {
      var n := |b| - |tail|;
      var e := b[n..];
      assert Lower(e) == Lower(b)[n..] == tail && b == b[..n] + e;
    }
    if front: string, e :| Lower(e) in TAILS && b == front + e {
      LowerAppend(front, e);
      EndpointOf(Lower(front), Lower(e));
    }
  }

  /** Stripping takes off exactly one endpoint, whatever its capitals, and with a messages endpoint the one version before it. */
  lemma StripsOneEndpoint(b: string, v: string, e: string, slashes: string, q: string)
    requires QueryFree(b + v + e) && Lower(e) in TAILS && Slashes(slashes) && IsQuery(q)
    requires if v == "" then !EndsInVersion(b) else IsVersion(v)
    ensures Stripped(b + v + e + slashes + q) == Parts(if TakesVersion(Lower(e)) then b else b + v, q)
  {
    StripsTail(b + v, e, slashes, q);
    VersionComesOff(b, v);
  }

  // ---------------------------------------------------------------- carried endpoints are ignored

  /** Some known endpoint, in any capitals, with or without an API version before a messages one, or none. */
  ghost predicate KnownEndpoint(v: string, e: string) {
    || (v == "" && (e == "" || Lower(e) in TAILS))
    || (IsVersion(v) && Lower(e) in TAILS && TakesVersion(Lower(e)))
  }

  ghost predicate CleanBase(b: string) {
    QueryFree(b) && !EndsInEndpoint(b) && (b == "" || b[|b| - 1] != '/')
  }

  lemma NothingCarried(b: string, slashes: string, q: string)
    requires CleanBase(b) && Slashes(slashes) && IsQuery(q)
    ensures Stripped(b + "" + "" + slashes + q) == Parts(b, q)
  {
    assert b + "" == b;
    assert b + "" + "" == b;
    CleanBaseStays(b, slashes, q);
  }

  lemma VersionComesOff(b: string, v: string)
    requires v == "" || IsVersion(v)
    requires v == "" ==> !EndsInVersion(b)
    ensures WithoutVersion(b + v) == b
  {
    VersionMeaning(b);
    if v == "" {
      assert b + v == b;
    } else {
      VersionFound(b, v);
    }
  }

  lemma QueryFreeTogether(a: string, b: string)
    requires QueryFree(a) && QueryFree(b)
    ensures QueryFree(a + b)
  {
  }

  lemma BareEndpointCarried(b: string, e: string, slashes: string, q: string)
    requires QueryFree(b) && QueryFree(e) && !EndsInVersion(b) && Lower(e) in TAILS && Slashes(slashes) && IsQuery(q)
    ensures Stripped(b + "" + e + slashes + q) == Parts(b, q)
  {
    QueryFreeTogether(b, e);
    assert b + "" == b;
    StripsOneEndpoint(b, "", e, slashes, q);
  }

  lemma VersionedEndpointCarried(b: string, v: string, e: string, slashes: string, q: string)
    requires QueryFree(b) && QueryFree(v + e) && IsVersion(v) && Lower(e) in TAILS && TakesVersion(Lower(e))
    requires Slashes(slashes) && IsQuery(q)
    ensures Stripped(b + v + e + slashes + q) == Parts(b, q)
  {
    QueryFreeTogether(b, v + e);
    assert b + v + e == b + (v + e);
    StripsOneEndpoint(b, v, e, slashes, q);
  }

  lemma CarriedComesOff(b: string, v: string, e: string, slashes: string, q: string)
    requires CleanBase(b) && !EndsInVersion(b) && KnownEndpoint(v, e) && QueryFree(v + e)
    requires Slashes(slashes) && IsQuery(q)
    ensures Stripped(b + v + e + slashes + q) == Parts(b, q)
  {
    assert v == "" ==> v + e == e;
    if v != "" {
      VersionedEndpointCarried(b, v, e, slashes, q);
    } else if e != "" {
      BareEndpointCarried(b, e, slashes, q);
    } else {
      NothingCarried(b, slashes, q);
    }
  }

  /**
    Over a clean base without a version, the joined URL is the same whichever endpoint and
    trailing slashes the configured URL already carried, for every path and query.
   */
  lemma CarriedEndpointIsIgnored(b: string, v: string, e: string, slashes: string, q: string, path: string)
    requires CleanBase(b) && !EndsInVersion(b) && KnownEndpoint(v, e) && QueryFree(v + e)
    requires Slashes(slashes) && IsQuery(q)
    ensures JoinBaseAndPath(b + v + e + slashes + q, path) == JoinBaseAndPath(b + q, path)
         == Attach(b, Slashed(path)) + q
  {
    CarriedComesOff(b, v, e, slashes, q);
    CleanBaseStays(b, "", q);
    assert b + "" == b;
  }

  lemma NoEndpointStays(b: string, slashes: string, q: string)
    requires QueryFree(b) && EndpointLength(Lower(b)) == 0 && (b == "" || b[|b| - 1] != '/')
    requires Slashes(slashes) && IsQuery(q)
    ensures Stripped(b + slashes + q) == Parts(b, q)
  {
    assert QueryFree(b + slashes);
    QuerySplitsOff(b + slashes, q);
    SlashesComeOff(b, slashes);
  }

  lemma CleanBaseStays(b: string, slashes: string, q: string)
    requires CleanBase(b) && Slashes(slashes) && IsQuery(q)
    ensures Stripped(b + slashes + q) == Parts(b, q)
  {
    EndpointMeaning(b);
    NoEndpointStays(b, slashes, q);
  }

  // ---------------------------------------------------------------- what joining writes

  /** A clean base is joined to the path, with a slash between them, and keeps its query and hash. */
  lemma JoinMeaning(b: string, slashes: string, q: string, path: string)
    requires CleanBase(b) && Slashes(slashes) && IsQuery(q)
    ensures JoinBaseAndPath(b + slashes + q, path) ==
            Attach(b, if path != "" && path[0] == '/' then path else "/" + path) + q
  {
    CleanBaseStays(b, slashes, q);
  }

  /** The path starts with the base's own version, up to case, and a slash. */
  ghost predicate Shares(base: string, path: string, v: string, again: string, rest: string) {
    && IsVersion(v) && (exists front: string :: base == front + v)
    && path == again + rest && Lower(again) == Lower(v) && rest != "" && rest[0] == '/'
  }

  /** A version shared at the seam is written once, as the base has it; everything else is written out in full. */
  lemma AttachMeaning(base: string, path: string)
    ensures forall v, again, rest :: Shares(base, path, v, again, rest) ==> Attach(base, path) == base + rest
    ensures (forall v, again, rest :: !Shares(base, path, v, again, rest)) ==> Attach(base, path) == base + path
  {
    forall v, again, rest | Shares(base, path, v, again, rest) ensures Attach(base, path) == base + rest {
      AttachShared(base, path, v, again, rest);
    }
    var v, again, rest := AttachUnshared(base, path);
  }

  lemma StartsAgain(w: string, path: string)
    ensures StartsWith(path, w + "/") <==> |w| < |path| && path[..|w|] == w && path[|w|] == '/'
  {
    var whole := w + "/";
    if |w| < |path| && path[..|w|] == w && path[|w|] == '/' {
      assert path[..|w| + 1] == path[..|w|] + [path[|w|]] == whole;
    }
    if StartsWith(path, whole) {
      assert path[..|whole|] == whole;
      assert path[..|w|] == path[..|whole|][..|w|] == w && path[|w|] == whole[|w|];
    }
  }

  lemma LowerTail(s: string, n: nat)
    requires n <= |s|
    ensures Lower(s)[n..] == Lower(s[n..]) && Lower(s)[..n] == Lower(s[..n])
  {
  }

  lemma SlashChar(c: char)
    ensures LowerChar(c) == '/' <==> c == '/'
  {
  }

  /** The base's last n characters stand at the start of the path too, up to case, with a slash behind. */
  ghost predicate Again(base: string, path: string, n: nat)
    requires n <= |base|
  {
    n < |path| && Lower(path[..n]) == Lower(base[|base| - n..]) && path[n] == '/'
  }

  lemma AgainMeaning(base: string, path: string, n: nat)
    requires n <= |base|
    ensures StartsWith(Lower(path), Lower(base)[|base| - n..] + "/") <==> Again(base, path, n)
  {
    StartsAgain(Lower(base)[|base| - n..], Lower(path));
    LowerTail(base, |base| - n);
    if n < |path| {
      LowerTail(path, n);
      SlashChar(path[n]);
    }
  }

  lemma AttachByVersion(base: string, path: string)
    ensures
      var n := VersionLength(Lower(base));
      Attach(base, path) == if 0 < n && Again(base, path, n) then base + path[n..] else base + path
  {
    AgainMeaning(base, path, VersionLength(Lower(base)));
  }

  lemma AttachShared(base: string, path: string, v: string, again: string, rest: string)
    requires Shares(base, path, v, again, rest)
    ensures Attach(base, path) == base + rest
  {
    var front: string :| base == front + v;
    var n := |v|;
    VersionFound(front, v);
    assert base[|base| - n..] == v && |again| == n && path[..n] == again && path[n..] == rest;
    AttachByVersion(base, path);
  }

  lemma AttachUnshared(base: string, path: string) returns (v: string, again: string, rest: string)
    ensures Attach(base, path) == base + path || Shares(base, path, v, again, rest)
  {
    var n := VersionLength(Lower(base));
    v, again, rest := "", "", "";
    AttachByVersion(base, path);
    if 0 < n && Again(base, path, n) {
      VersionIs(base);
      ShareFound(base, path, n);
      v, again, rest := base[|base| - n..], path[..n], path[n..];
    }
  }

  lemma ShareFound(base: string, path: string, n: nat)
    requires n <= |base| && IsVersion(base[|base| - n..]) && Again(base, path, n)
    ensures Shares(base, path, base[|base| - n..], path[..n], path[n..])
  {
    var front := base[..|base| - n];
    assert base == front + base[|base| - n..];
    assert path == path[..n] + path[n..] && path[n..][0] == '/';
  }

  // ---------------------------------------------------------------- joining settles

  ghost predicate Idempotent(url: string, path: string) {
    JoinBaseAndPath(JoinBaseAndPath(url, path), path) == JoinBaseAndPath(url, path)
  }

  /** Stripping takes an endpoint off again. */
  lemma EndpointComesOff(b: string, tail: string, q: string)
    requires tail in TAILS && QueryFree(b) && IsQuery(q)
    ensures PlainPath(tail)
    ensures Stripped(b + tail + q) == Parts(if TakesVersion(tail) then WithoutVersion(b) else b, q)
  {
    TailsArePlain(tail);
    assert b + tail + "" + q == b + tail + q;
    StripsTail(b, tail, "", q);
  }

  lemma TailsDiffer()
    ensures !TakesVersion(CHAT_COMPLETIONS) && !TakesVersion(MODELS) && TakesVersion(MESSAGES) && TakesVersion(COUNT_TOKENS)
  {
    assert CHAT_COMPLETIONS[1] == 'c' && MESSAGES[1] == COUNT_TOKENS[1] == MODELS[1] == 'm';
    assert MESSAGES[2] == COUNT_TOKENS[2] == 'e' && MODELS[2] == 'o';
  }

  lemma SecondCharOfPrefix(path: string, v: string)
    requires |v| >= 2 && StartsWith(path, v + "/")
    ensures |path| > 1 && path[1] == v[1]
  {
    assert (v + "/")[1] == v[1];
  }

  lemma PlainPathsAttach(b: string, tail: string)
    requires PlainPath(tail)
    ensures Attach(b, tail) == b + tail && Slashed(tail) == tail
  {
    var n := VersionLength(Lower(b));
    if 0 < n {
      var v := Lower(b)[|b| - n..];
      VersionShape(Lower(b));
      if StartsWith(tail, v + "/") {
        SecondCharOfPrefix(tail, v);
      }
    }
  }

  lemma JoinPlain(url: string, base: string, q: string, tail: string)
    requires PlainPath(tail) && Stripped(url) == Parts(base, q)
    ensures JoinBaseAndPath(url, tail) == base + tail + q
  {
    PlainPathsAttach(base, tail);
  }

  /** For every URL, joining with "/chat/completions" or "/models" is idempotent and keeps the query and hash. */
  lemma JoinIdempotent(url: string, path: string)
    requires path == "/chat/completions" || path == "/models"
    ensures Idempotent(url, path)
    ensures SplitUrlQueryAndHash(JoinBaseAndPath(url, path)).suffix == SplitUrlQueryAndHash(url).suffix
  {
    var parts := Stripped(url);
    StrippedShape(url);
    TailsDiffer();
    EndpointComesOff(parts.base, path, parts.suffix);
    JoinPlain(url, parts.base, parts.suffix, path);
    JoinPlain(parts.base + path + parts.suffix, parts.base, parts.suffix, path);
    QuerySplitsOff(parts.base + path, parts.suffix);
  }

  const V1 := "/v1"

  /** The string ends in "/v1", in either capital. */
  ghost predicate EndsInV1(b: string) {
    VersionLength(Lower(b)) == 3 && Lower(b)[|b| - 3..] == V1
  }

  lemma EndsInV1Meaning(b: string)
    ensures EndsInV1(b) <==> exists front: string :: b == front + "/v1" || b == front + "/V1"
  {
    if EndsInV1(b) {
      V1Ends(b);
      assert b == b[..|b| - 3] + b[|b| - 3..];
    }
    if front: string :| b == front + "/v1" || b == front + "/V1" {
      EndsWithV1(front, b[|front|..]);
      assert b == front + b[|front|..];
    }
  }

  lemma V1Ends(b: string)
    requires EndsInV1(b)
    ensures |b| >= 3 && (b[|b| - 3..] == "/v1" || b[|b| - 3..] == "/V1")
  {
    VersionIs(b);
    LowerTail(b, |b| - 3);
    assert b[|b| - 1] == Lower(b)[|b| - 3..][2] == V1[2];
  }

  lemma EndsWithV1(front: string, v: string)
    requires v == "/v1" || v == "/V1"
    ensures EndsInV1(front + v)
  {
    VersionFound(front, v);
    LowerAppend(front, v);
    assert Lower(v) == V1;
  }

  lemma SlashFreeHeads(a: string, b: string, rest: string)
    requires '/' !in a && '/' !in b
    ensures "/" + a + "/" <= "/" + b + "/" + rest <==> a == b
  {
    PrefixUpToSeparator(a, b, '/', rest);
    var s, t := "/" + a + "/", "/" + b + "/" + rest;
    assert s[1..] == a + "/" && t[1..] == b + "/" + rest;
    assert s <= t <==> s[1..] <= t[1..] by {
      assert s <= t ==> t[1..][..|s| - 1] == t[..|s|][1..];
      assert s[1..] <= t[1..] ==> t[..|s|] == [t[0]] + t[1..][..|s| - 1];
      assert s == [s[0]] + s[1..];
    }
  }

  lemma VersionsMeet(b: string, tail: string)
    requires PlainPath(tail) && 0 < VersionLength(Lower(b))
    ensures StartsWith(V1 + tail, Lower(b)[|b| - VersionLength(Lower(b))..] + "/") <==> EndsInV1(b)
  {
    VersionShape(Lower(b));
    var v, rest := Lower(b)[|b| - VersionLength(Lower(b))..], tail[1..];
    assert v == "/" + v[1..];
    assert V1 + tail == "/" + "v1" + "/" + rest;
    SlashFreeHeads(v[1..], "v1", rest);
    assert V1 == "/" + "v1";
    assert v == V1 <==> v[1..] == "v1";
  }

  /** The base with "/v1" at its end, put there if it is missing. */
  ghost function WithV1(base: string): string {
    if EndsInV1(base) then base else base + V1
  }

  lemma AttachV1(b: string, tail: string)
    requires PlainPath(tail)
    ensures Attach(b, V1 + tail) == WithV1(b) + tail && Slashed(V1 + tail) == V1 + tail
  {
    LowerAppend(V1, tail);
    assert Lower(V1) == V1;
    assert (V1 + tail)[3..] == tail && b + (V1 + tail) == b + V1 + tail;
    if 0 < VersionLength(Lower(b)) {
      VersionsMeet(b, tail);
    }
  }

  lemma V1IsAVersion(b: string)
    ensures VersionLength(Lower(b + V1)) == 3 && EndsInV1(b + V1) && WithoutVersion(b + V1) == b
  {
    assert Lower(V1) == V1 && V1[..2] == "/v" && TrailingDigits(V1) == 1;
    LowerAppend(b, V1);
    VersionAppend(Lower(b), V1);
  }

  /** Whether taking the endpoint off and putting "/v1" back leaves the base as it was. */
  lemma V1ComesBack(base: string, withVersion: bool)
    ensures
      var b := WithV1(base);
      WithV1(if withVersion then WithoutVersion(b) else b) == b <==>
      (withVersion && EndsInV1(base) ==> base[|base| - 3..] == V1 && !EndsInV1(base[..|base| - 3]))
  {
    V1IsAVersion(base);
    if withVersion && EndsInV1(base) {
      var front, last := base[..|base| - 3], base[|base| - 3..];
      assert WithoutVersion(base) == front && base == front + last;
      assert (front + V1)[|front|..] == V1;
    }
  }

  lemma SameFront(a: string, b: string, tail: string, q: string)
    ensures a + tail + q == b + tail + q <==> a == b
  {
    var s, t := a + tail + q, b + tail + q;
    assert |a| == |b| ==> s[..|a|] == a && t[..|b|] == b;
  }

  lemma JoinFrom(url: string, base: string, q: string, tail: string)
    requires PlainPath(tail) && Stripped(url) == Parts(base, q)
    ensures JoinBaseAndPath(url, V1 + tail) == WithV1(base) + tail + q
  {
    AttachV1(base, tail);
  }

  lemma LeftAfterJoin(url: string, tail: string) returns (left: string)
    requires tail in TAILS
    ensures PlainPath(tail)
    ensures
      var b, q := WithV1(Stripped(url).base), Stripped(url).suffix;
      left == (if TakesVersion(tail) then WithoutVersion(b) else b) && Stripped(b + tail + q) == Parts(left, q)
  {
    var b, q := WithV1(Stripped(url).base), Stripped(url).suffix;
    StrippedShape(url);
    assert QueryFree(b);
    EndpointComesOff(b, tail, q);
    left := if TakesVersion(tail) then WithoutVersion(b) else b;
  }

  /**
    Joining with a versioned endpoint is idempotent for every URL when the endpoint is "models".
    With the messages endpoints it is so exactly when the stripped base does not end in "/v1", or
    ends in it once and in lower case: the version that the second join strips with the endpoint
    is then the one it puts back.
   */
  lemma VersionedJoinIdempotent(url: string, tail: string)
    requires tail == "/models" || tail == "/messages" || tail == "/messages/count_tokens"
    ensures
      var b := Stripped(url).base;
      Idempotent(url, V1 + tail) <==>
      (tail != "/models" && EndsInV1(b) ==> b[|b| - 3..] == V1 && !EndsInV1(b[..|b| - 3]))
  {
    var parts := Stripped(url);
    TailsDiffer();
    var b, q := WithV1(parts.base), parts.suffix;
    var left := LeftAfterJoin(url, tail);
    JoinFrom(url, parts.base, q, tail);
    JoinFrom(b + tail + q, left, q, tail);
    SameFront(WithV1(left), b, tail, q);
    V1ComesBack(parts.base, tail != MODELS);
  }

  const CAPITAL_URL := "h/V1"

  lemma CapitalUrlIsClean()
    ensures Stripped(CAPITAL_URL) == Parts(CAPITAL_URL, "")
  {
    assert Lower(CAPITAL_URL) == "h/v1";
    assert QueryFree(CAPITAL_URL);
    CleanBaseStays(CAPITAL_URL, "", "");
    assert CAPITAL_URL + "" + "" == CAPITAL_URL;
  }

  lemma CapitalUrlEndsInV1()
    ensures EndsInV1(CAPITAL_URL) && CAPITAL_URL[1..] != V1
  {
    assert CAPITAL_URL == "h" + "/V1";
    assert Lower("h") == "h" && Lower("/V1") == V1 && TrailingDigits(V1) == 1;
    LowerAppend("h", "/V1");
    VersionAppend("h", V1);
    assert CAPITAL_URL[1..][1] == 'V';
  }

  /** The failing case, concretely: a capital version is stripped by the second join and comes back in lower case. */
  lemma CapitalVersionIsRewritten()
    ensures !Idempotent("h/V1", "/v1" + "/messages")
  {
    CapitalUrlIsClean();
    CapitalUrlEndsInV1();
    VersionedJoinIdempotent(CAPITAL_URL, MESSAGES);
    TailsDiffer();
  }
}
