/**
  GLM endpoint URLs: a configured base URL may already carry an endpoint path, trailing slashes,
  an API version and a query; joining puts the wanted path in their place.
 */
module GlmProvider {
  import opened Text

  const CHAT_COMPLETIONS := "/chat/completions"
  const MODELS := "/models"
  const MESSAGES := "/messages"
  const COUNT_TOKENS := "/messages/count_tokens"

  datatype Parts = Parts(base: string, suffix: string)

  function LowerChar(c: char): char {
    if 'A' <= c <= 'Z' then (c as int + 32) as char else c
  }

  function Lower(s: string): (r: string)
    ensures |r| == |s| && forall i :: 0 <= i < |s| ==> r[i] == LowerChar(s[i])
  {
    seq(|s|, i requires 0 <= i < |s| => LowerChar(s[i]))
  }

  predicate StartsQuery(c: char) {
    c == '?' || c == '#'
  }

  function BeforeQuery(url: string): (base: string)
    ensures base <= url
  {
    if url == [] || StartsQuery(url[0]) then [] else [url[0]] + BeforeQuery(url[1..])
  }

  function SplitUrlQueryAndHash(url: string): Parts {
    Parts(BeforeQuery(url), url[|BeforeQuery(url)|..])
  }

  function StripSlashes(s: string): (r: string)
    ensures r <= s
  {
    if s != [] && s[|s| - 1] == '/' then StripSlashes(s[..|s| - 1]) else s
  }

  predicate IsDigit(c: char) {
    '0' <= c <= '9'
  }

  function TrailingDigits(s: string): (n: nat)
    ensures n <= |s|
  {
    if s != [] && IsDigit(s[|s| - 1]) then 1 + TrailingDigits(s[..|s| - 1]) else 0
  }

  /** Length of the "/v<digits>" a lower-cased string ends with, or 0. */
  function VersionLength(s: string): (n: nat)
    ensures n <= |s|
  {
    var d := TrailingDigits(s);
    if 1 <= d && d + 2 <= |s| && s[|s| - d - 1] == 'v' && s[|s| - d - 2] == '/' then d + 2 else 0
  }

  /** Length of the known endpoint path a lower-cased string ends with, its version included; 0 if none. */
  function EndpointLength(s: string): (n: nat)
    ensures n <= |s|
  {
    if EndsWith(s, COUNT_TOKENS) then |COUNT_TOKENS| + VersionLength(s[..|s| - |COUNT_TOKENS|])
    else if EndsWith(s, MESSAGES) then |MESSAGES| + VersionLength(s[..|s| - |MESSAGES|])
    else if EndsWith(s, CHAT_COMPLETIONS) then |CHAT_COMPLETIONS|
    else if EndsWith(s, MODELS) then |MODELS|
    else 0
  }

  function StripEndpoint(s: string): string {
    s[..|s| - EndpointLength(Lower(s))]
  }

  function Stripped(url: string): Parts {
    var parts := SplitUrlQueryAndHash(url);
    parts.(base := StripEndpoint(StripSlashes(parts.base)))
  }

  method StripKnownGlmEndpointSuffix(url: string) returns (parts: Parts)
    ensures parts == Stripped(url)
  {
    var split := SplitUrlQueryAndHash(url);
    var base := split.base;
    while base != [] && base[|base| - 1] == '/'
      invariant StripSlashes(base) == StripSlashes(split.base)
    {
      base := base[..|base| - 1];
    }
    return Parts(StripEndpoint(base), split.suffix);
  }

  function Slashed(path: string): string {
    if StartsWith(path, "/") then path else "/" + path
  }

  /** The base with the path after it; a version they share at the seam is written once. */
  function Attach(base: string, path: string): string {
    var v := VersionLength(Lower(base));
    if 0 < v && StartsWith(Lower(path), Lower(base)[|base| - v..] + "/") then base + path[v..] else base + path
  }

  function JoinBaseAndPath(url: string, path: string): string {
    var parts := Stripped(url);
    Attach(parts.base, Slashed(path)) + parts.suffix
  }
}
