/** The two agentrouter tables agree with each other, and operator rules take over exactly where declared. */
module ErrorRuleLaws {
  import opened Wrappers
  import opened Text
  import opened ErrorText
  import SR = StatusRestatement
  import PR = ProviderErrorRules

  /** The lower-casing leaves the three markers alone, as Unicode's does. */
  ghost predicate LeavesMarkers(lower: char -> char) {
    Caseless(SR.QUOTA_MARKER, lower) && Caseless(PR.MODEL_ACCESS_MARKER, lower)
  }

  lemma MarkersAreWide()
    ensures Wide(SR.QUOTA_MARKER) && Wide(PR.MODEL_ACCESS_MARKER) && Wide(SR.ACCESS_MARKER)
    ensures SR.QUOTA_MARKER != [] && PR.MODEL_ACCESS_MARKER != [] && SR.ACCESS_MARKER != []
    ensures SR.QUOTA_MARKER == PR.QUOTA_MARKER && Contains(PR.MODEL_ACCESS_MARKER, SR.ACCESS_MARKER)
  {
    assert PR.MODEL_ACCESS_MARKER[0..4] == SR.ACCESS_MARKER;
    assert OccursAt(PR.MODEL_ACCESS_MARKER, SR.ACCESS_MARKER, 0);
  }

  /** On any body the rule that fires is decided by the status and the markers in the body as serialised. */
  lemma FiresByMarkers(status: int, body: Body, lower: char -> char)
    requires LeavesMarkers(lower)
    ensures PR.AgentrouterFires(status, body, lower) ==
            if status in {400, 403, 429} && Contains(Serialised(body), SR.QUOTA_MARKER) then Some(PR.UserQuotaExhausted)
            else if status == 403 && Contains(Serialised(body), PR.MODEL_ACCESS_MARKER) then Some(PR.ModelAccessDenied)
            else None
  {
    MarkersAreWide();
    LoweredContains(Serialised(body), SR.QUOTA_MARKER, lower);
    LoweredContains(Serialised(body), PR.MODEL_ACCESS_MARKER, lower);
  }

  /** On a text body it is decided by the status and the markers in the text itself, unquoted. */
  lemma AgentrouterMeaning(status: int, text: string, lower: char -> char)
    requires LeavesMarkers(lower)
    ensures PR.AgentrouterFires(status, TextBody(text), lower) ==
            if status in {400, 403, 429} && Contains(text, SR.QUOTA_MARKER) then Some(PR.UserQuotaExhausted)
            else if status == 403 && Contains(text, PR.MODEL_ACCESS_MARKER) then Some(PR.ModelAccessDenied)
            else None
  {
    MarkersAreWide();
    FiresByMarkers(status, TextBody(text), lower);
    QuotedContains(text, SR.QUOTA_MARKER);
    QuotedContains(text, PR.MODEL_ACCESS_MARKER);
  }

  /** So is agentrouter's own answer: exhausted quota cools the connection, missing access locks the model for six hours. */
  lemma AgentrouterAnswers(status: int, text: string, lower: char -> char)
    requires LeavesMarkers(lower)
    ensures PR.AgentrouterMatch(status, TextBody(text), lower) ==
            if status in {400, 403, 429} && Contains(text, "额度不足") then
              Some(PR.Match("quota_exhausted", PR.ConnectionScope, None))
            else if status == 403 && Contains(text, "无权访问模型") then
              Some(PR.Match("auth_error", PR.ModelScope, Some(21_600_000)))
            else None
  {
    AgentrouterMeaning(status, text, lower);
  }

  ghost function Restate(
    provider: string, status: int, message: Option<string>, body: Body, retryAfterMs: Option<int>, lower: char -> char): SR.Restated
  {
    SR.ApplyStatusRestatement(SR.REGISTRY, Some(provider), status, message, body, retryAfterMs, lower)
  }

  lemma AccessMarkerCaseless(lower: char -> char)
    requires LeavesMarkers(lower)
    ensures Caseless(SR.ACCESS_MARKER, lower)
  {
    assert forall m :: m in SR.ACCESS_MARKER ==> m in PR.MODEL_ACCESS_MARKER;
  }

  lemma RestatementBySearch(
    provider: string, status: int, message: Option<string>, body: Body, retryAfterMs: Option<int>, lower: char -> char)
    requires LeavesMarkers(lower) && provider != "" && LowerAll(provider, lower) == "agentrouter"
    ensures
      var text, r := SR.Searched(message, body), Restate(provider, status, message, body, retryAfterMs, lower);
      if status in {400, 403} && Contains(text, "额度不足") && !Contains(text, "无权访问") then
        r.status == 429 && r.fromStatus == status && r.ruleId == Some("agentrouter-quota-misstatus") &&
        r.retryAfterMs == (if retryAfterMs.Some? && retryAfterMs.value > 0 then retryAfterMs else Some(60_000))
      else r == SR.Restated(status, retryAfterMs, None, status)
  {
    var text := SR.Searched(message, body);
    var haystack := LowerAll(text, lower);
    var rule := SR.AGENTROUTER_RULES[0];
    MarkersAreWide();
    AccessMarkerCaseless(lower);
    LoweredContains(text, SR.QUOTA_MARKER, lower);
    LoweredContains(text, SR.ACCESS_MARKER, lower);
    assert SR.AnyContained(rule.textMarkers, haystack) <==> Contains(haystack, SR.QUOTA_MARKER) by {
      assert SR.QUOTA_MARKER in rule.textMarkers;
    }
    assert SR.AnyContained(rule.excludeMarkers, haystack) <==> Contains(haystack, SR.ACCESS_MARKER) by {
      assert SR.ACCESS_MARKER in rule.excludeMarkers;
    }
    assert SR.AGENTROUTER_RULES[1..] == [];
    assert SR.FirstFiring(SR.AGENTROUTER_RULES, status, haystack) ==
           if SR.Fires(rule, status, haystack) then Some(rule) else None;
    if Contains(haystack, SR.QUOTA_MARKER) {
      BlankHoldsNoMarker(haystack);
    }
  }

  /** The marker is in the message, or in the body as text or JSON. */
  ghost predicate Reports(message: Option<string>, body: Body, marker: string) {
    (message.Some? && Contains(message.value, marker)) ||
    match body
    case NoBody => false
    case TextBody(text) => Contains(text, marker)
    case JsonBody(serialised) => Contains(serialised, marker)
  }

  lemma CharInside(s: string, marker: string, i: nat, k: nat)
    requires i <= k < i + |marker| && OccursAt(s, marker, i)
    ensures k < |s| && s[k] in marker
  {
    assert s[i..i + |marker|][k - i] == s[k];
  }

  lemma OccursInFront(a: string, rest: string, marker: string, i: nat)
    requires i + |marker| <= |a|
    ensures OccursAt(a + rest, marker, i) <==> OccursAt(a, marker, i)
  {
    assert (a + rest)[i..i + |marker|] == a[i..i + |marker|];
  }

  lemma OccursBehind(front: string, b: string, marker: string, i: nat)
    ensures OccursAt(front + b, marker, |front| + i) <==> OccursAt(b, marker, i)
  {
    if i + |marker| <= |b| {
      assert (front + b)[|front| + i..|front| + i + |marker|] == b[i..i + |marker|];
    }
  }

  /** A marker without a space is not found across the space between two strings. */
  lemma ContainsAround(a: string, b: string, marker: string)
    requires marker != "" && ' ' !in marker
    ensures Contains(a + " " + b, marker) <==> Contains(a, marker) || Contains(b, marker)
  {
    var s := a + " " + b;
    assert s == a + (" " + b);
    if i: nat :| i <= |s| && OccursAt(s, marker, i) {
      if i <= |a| < i + |marker| {
        CharInside(s, marker, i, |a|);
      }
      if i <= |a| {
        OccursInFront(a, " " + b, marker, i);
      } else {
        OccursBehind(a + " ", b, marker, i - |a| - 1);
      }
    }
    if i: nat :| i <= |a| && OccursAt(a, marker, i) {
      OccursInFront(a, " " + b, marker, i);
    }
    if i: nat :| i <= |b| && OccursAt(b, marker, i) {
      OccursBehind(a + " ", b, marker, i);
      assert OccursAt(s, marker, |a| + 1 + i);
    }
  }

  lemma SearchedMeaning(message: Option<string>, body: Body, marker: string)
    requires marker != "" && ' ' !in marker
    ensures Contains(SR.Searched(message, body), marker) <==> Reports(message, body, marker)
  {
    ContainsAround(if message.Some? then message.value else "", SR.StringifyBody(body), marker);
    assert forall i: nat :: !OccursAt("", marker, i);
  }

  /**
    A status is restated exactly when it is agentrouter's 400 or 403 and the error reports exhausted
    quota and not missing access.
   */
  lemma RestatementMeaning(
    provider: string, status: int, message: Option<string>, body: Body, retryAfterMs: Option<int>, lower: char -> char)
    requires LeavesMarkers(lower) && provider != "" && LowerAll(provider, lower) == "agentrouter"
    ensures
      var r := Restate(provider, status, message, body, retryAfterMs, lower);
      if status in {400, 403} && Reports(message, body, "额度不足") && !Reports(message, body, "无权访问") then
        r.status == 429 && r.fromStatus == status && r.ruleId == Some("agentrouter-quota-misstatus") &&
        r.retryAfterMs == (if retryAfterMs.Some? && retryAfterMs.value > 0 then retryAfterMs else Some(60_000))
      else r == SR.Restated(status, retryAfterMs, None, status)
  {
    RestatementBySearch(provider, status, message, body, retryAfterMs, lower);
    SearchedMeaning(message, body, "额度不足");
    SearchedMeaning(message, body, "无权访问");
  }

  /** The errors of every other provider, or of none, pass as they are. */
  lemma OthersPassThrough(
    provider: Option<string>, status: int, message: Option<string>, body: Body, retryAfterMs: Option<int>, lower: char -> char)
    requires provider.Some? && provider.value != "" ==> LowerAll(provider.value, lower) != "agentrouter"
    ensures SR.ApplyStatusRestatement(SR.REGISTRY, provider, status, message, body, retryAfterMs, lower)
         == SR.Restated(status, retryAfterMs, None, status)
  {
  }

  lemma BlankHoldsNoMarker(s: string)
    requires Contains(s, SR.QUOTA_MARKER)
    ensures Trim(s) != ""
  {
    var i: nat :| i <= |s| && OccursAt(s, SR.QUOTA_MARKER, i);
    assert s[i] == s[i..i + 4][0] == '额' && !IsSpace('额');
    assert s[i] in s;
    if Trim(s) == "" {
      TrimEmpty(s);
    }
  }

  /** The status of agentrouter's restated error. */
  ghost function RestatedStatus(
    provider: string, status: int, message: Option<string>, body: Body, retryAfterMs: Option<int>, lower: char -> char): int
  {
    Restate(provider, status, message, body, retryAfterMs, lower).status
  }

  /** A body whose missing access the restatement would have seen fires the same rule under both statuses. */
  lemma BodyCommutes(
    provider: string, status: int, message: Option<string>, body: Body, retryAfterMs: Option<int>, matched: Body, lower: char -> char)
    requires LeavesMarkers(lower) && provider != "" && LowerAll(provider, lower) == "agentrouter"
    requires Contains(Serialised(matched), PR.MODEL_ACCESS_MARKER) ==>
               Contains(SR.Searched(message, body), PR.MODEL_ACCESS_MARKER)
    ensures
      var restated := RestatedStatus(provider, status, message, body, retryAfterMs, lower);
      PR.AgentrouterFires(restated, matched, lower) == PR.AgentrouterFires(status, matched, lower)
  {
    RestatementBySearch(provider, status, message, body, retryAfterMs, lower);
    FiresByMarkers(status, matched, lower);
    FiresByMarkers(RestatedStatus(provider, status, message, body, retryAfterMs, lower), matched, lower);
    if Contains(Serialised(matched), PR.MODEL_ACCESS_MARKER) {
      MarkersAreWide();
      ContainsTransitive(SR.Searched(message, body), PR.MODEL_ACCESS_MARKER, SR.ACCESS_MARKER);
    }
  }

  /**
    The tables commute: matching any text that is part of the error under the restated status fires
    the same built-in rule as under the raw one.
   */
  lemma TablesCommute(
    provider: string, status: int, message: Option<string>, body: Body, retryAfterMs: Option<int>, text: string, lower: char -> char)
    requires LeavesMarkers(lower) && provider != "" && LowerAll(provider, lower) == "agentrouter"
    requires Contains(SR.Searched(message, body), text)
    ensures
      var restated := RestatedStatus(provider, status, message, body, retryAfterMs, lower);
      PR.AgentrouterFires(restated, TextBody(text), lower) == PR.AgentrouterFires(status, TextBody(text), lower)
  {
    MarkersAreWide();
    QuotedContains(text, PR.MODEL_ACCESS_MARKER);
    if Contains(text, PR.MODEL_ACCESS_MARKER) {
      ContainsTransitive(SR.Searched(message, body), text, PR.MODEL_ACCESS_MARKER);
    }
    BodyCommutes(provider, status, message, body, retryAfterMs, TextBody(text), lower);
  }

  /** The message and the body's text are both part of what the restatement searches. */
  lemma MessageAndBodyAreSearched(message: Option<string>, body: Body)
    ensures message.Some? ==> Contains(SR.Searched(message, body), message.value)
    ensures Contains(SR.Searched(message, body), SR.StringifyBody(body))
  {
    var s, text := SR.Searched(message, body), SR.StringifyBody(body);
    if message.Some? {
      assert s[0..|message.value|] == message.value;
      assert OccursAt(s, message.value, 0);
    }
    assert s[|s| - |text|..|s|] == text;
    assert OccursAt(s, text, |s| - |text|);
  }

  /** In particular the message fires the same built-in rule under both statuses. */
  lemma MessageCommutes(
    provider: string, status: int, message: string, body: Body, retryAfterMs: Option<int>, lower: char -> char)
    requires LeavesMarkers(lower) && provider != "" && LowerAll(provider, lower) == "agentrouter"
    ensures
      var restated := RestatedStatus(provider, status, Some(message), body, retryAfterMs, lower);
      PR.AgentrouterFires(restated, TextBody(message), lower) == PR.AgentrouterFires(status, TextBody(message), lower)
  {
    MessageAndBodyAreSearched(Some(message), body);
    TablesCommute(provider, status, Some(message), body, retryAfterMs, message, lower);
  }

  /** So does the very body handed to the restatement: absent, text or any other JSON value. */
  lemma RestatedBodyCommutes(
    provider: string, status: int, message: Option<string>, body: Body, retryAfterMs: Option<int>, lower: char -> char)
    requires LeavesMarkers(lower) && provider != "" && LowerAll(provider, lower) == "agentrouter"
    ensures
      var restated := RestatedStatus(provider, status, message, body, retryAfterMs, lower);
      PR.AgentrouterFires(restated, body, lower) == PR.AgentrouterFires(status, body, lower)
  {
    var text, marker := SR.StringifyBody(body), PR.MODEL_ACCESS_MARKER;
    MarkersAreWide();
    QuotedContains(text, marker);
    assert Contains(Serialised(body), marker) <==> Contains(text, marker);
    MessageAndBodyAreSearched(message, body);
    if Contains(text, marker) {
      ContainsTransitive(SR.Searched(message, body), text, marker);
    }
    BodyCommutes(provider, status, message, body, retryAfterMs, body, lower);
  }

  /** Restating an already restated error changes neither its status nor its retry delay. */
  lemma RestatementIdempotent(
    provider: Option<string>, status: int, message: Option<string>, body: Body, retryAfterMs: Option<int>, lower: char -> char)
    ensures
      var once := SR.ApplyStatusRestatement(SR.REGISTRY, provider, status, message, body, retryAfterMs, lower);
      var twice := SR.ApplyStatusRestatement(SR.REGISTRY, provider, once.status, message, body, once.retryAfterMs, lower);
      twice.status == once.status && twice.retryAfterMs == once.retryAfterMs
  {
    var rule := SR.AGENTROUTER_RULES[0];
    assert SR.AGENTROUTER_RULES[1..] == [];
    forall s, haystack
      ensures SR.FirstFiring(SR.AGENTROUTER_RULES, s, haystack) ==
              if SR.Fires(rule, s, haystack) then Some(rule) else None
    {
    }
  }

  // ---------------------------------------------------------------- operator rules

  /** A list of at least one rule is declared for this provider, up to case. */
  ghost predicate Declares(d: PR.Declared, key: string, lower: char -> char) {
    d.rules.Some? && d.rules.value != [] && LowerAll(d.provider, lower) == key
  }

  ghost predicate LastDeclared(declared: seq<PR.Declared>, i: nat, key: string, lower: char -> char) {
    && i < |declared| && Declares(declared[i], key, lower)
    && forall j :: i < j < |declared| ==> !Declares(declared[j], key, lower)
  }

  /** A provider's rules are the last non-empty list declared for it, up to case. */
  lemma {:induction false} TableMeaning(declared: seq<PR.Declared>, key: string, lower: char -> char)
    ensures key in PR.TableOf(declared, lower) ==> PR.TableOf(declared, lower)[key] != []
    ensures forall i: nat :: LastDeclared(declared, i, key, lower) ==>
              key in PR.TableOf(declared, lower) && PR.TableOf(declared, lower)[key] == declared[i].rules.value
    ensures key in PR.TableOf(declared, lower) ==> exists i: nat :: LastDeclared(declared, i, key, lower)
  {
    if declared != [] {
      var last := |declared| - 1;
      var front, d := declared[..last], declared[last];
      TableMeaning(front, key, lower);
      var mine := Declares(d, key, lower);
      forall i: nat | LastDeclared(declared, i, key, lower)
        ensures if mine then i == last else LastDeclared(front, i, key, lower)
      {
        assert forall j :: i < j < last ==> front[j] == declared[j];
      }
      if mine {
        assert LastDeclared(declared, last, key, lower);
      } else if key in PR.TableOf(front, lower) {
        var i: nat :| LastDeclared(front, i, key, lower);
        assert LastDeclared(declared, i, key, lower);
      }
    }
  }

  ghost predicate FirstFiring(rules: seq<PR.OperatorRule>, i: nat, status: int, text: string, lower: char -> char) {
    && i < |rules| && PR.OperatorRuleFires(rules[i], status, text, lower)
    && forall j: nat :: j < i ==> !PR.OperatorRuleFires(rules[j], status, text, lower)
  }

  lemma {:induction false} FirstOperatorMatchMeaning(rules: seq<PR.OperatorRule>, status: int, text: string, lower: char -> char)
    ensures forall i: nat :: FirstFiring(rules, i, status, text, lower) ==>
              PR.FirstOperatorMatch(rules, status, text, lower) == Some(PR.Answer(rules[i]))
    ensures PR.FirstOperatorMatch(rules, status, text, lower) == None <==>
            forall i: nat :: i < |rules| ==> !PR.OperatorRuleFires(rules[i], status, text, lower)
  {
    if rules != [] {
      FirstOperatorMatchMeaning(rules[1..], status, text, lower);
      assert forall i: nat :: 0 < i < |rules| ==> rules[1..][i - 1] == rules[i];
      forall i: nat | FirstFiring(rules, i, status, text, lower)
        ensures PR.FirstOperatorMatch(rules, status, text, lower) == Some(PR.Answer(rules[i]))
      {
        if i > 0 {
          assert !PR.OperatorRuleFires(rules[0], status, text, lower);
          assert FirstFiring(rules[1..], i - 1, status, text, lower) by {
            forall j: nat | j < i - 1 ensures !PR.OperatorRuleFires(rules[1..][j], status, text, lower) {
              assert rules[1..][j] == rules[j + 1];
            }
          }
        }
      }
    }
  }

  /** The whole pipeline: the body is resolved, then matched. */
  ghost function Classified(
    table: PR.OperatorTable, builtin: PR.Builtin, provider: string, status: int, structured: Body, errorText: Option<string>,
    lower: char -> char): Option<PR.Match>
  {
    var body := PR.ResolveRuleMatchBody(table, Some(provider), structured, errorText, lower);
    PR.GetProviderErrorRuleMatch(table, builtin, Some(provider), status, body, lower)
  }

  /** What the rules of a provider with operator rules see: the full error text, or else the structured error. */
  ghost function SeenBody(structured: Body, errorText: Option<string>): Body {
    if errorText.Some? && errorText.value != "" then TextBody(errorText.value) else structured
  }

  /** A string as it is, anything else as JSON; nothing at all as the empty JSON string. */
  ghost function SeenText(body: Body): string {
    match body
    case NoBody => "\"\""
    case TextBody(text) => text
    case JsonBody(serialised) => serialised
  }

  /** The rule is for this status, and its pattern is in the text up to case. */
  ghost predicate Fits(r: PR.OperatorRule, status: int, text: string, lower: char -> char) {
    r.status == status && Contains(LowerAll(text, lower), LowerAll(r.pattern, lower))
  }

  ghost predicate FirstFitting(rules: seq<PR.OperatorRule>, i: nat, status: int, text: string, lower: char -> char) {
    i < |rules| && Fits(rules[i], status, text, lower) && forall j: nat :: j < i ==> !Fits(rules[j], status, text, lower)
  }

  /**
    A provider with operator rules is answered by the first of them whose status and pattern match
    the error, with its reason, scope and cooldown; when none does, by its built-in rules.
   */
  lemma OperatorRulesDecide(
    declared: seq<PR.Declared>, builtin: PR.Builtin, provider: string, status: int, structured: Body,
    errorText: Option<string>, lower: char -> char)
    requires provider != "" && LowerAll(provider, lower) in PR.TableOf(declared, lower)
    ensures
      var key, body := LowerAll(provider, lower), SeenBody(structured, errorText);
      var rules, text := PR.TableOf(declared, lower)[key], SeenText(body);
      var answer := Classified(PR.TableOf(declared, lower), builtin, provider, status, structured, errorText, lower);
      (forall i: nat :: FirstFitting(rules, i, status, text, lower) ==>
         answer == Some(PR.Match(
           if rules[i].reason == None then "quota_exhausted" else rules[i].reason.value, rules[i].scope, rules[i].cooldownMs))) &&
      ((forall i: nat :: i < |rules| ==> !Fits(rules[i], status, text, lower)) ==> answer == builtin(key, status, body))
  {
    var key, body := LowerAll(provider, lower), SeenBody(structured, errorText);
    var rules, text := PR.TableOf(declared, lower)[key], SeenText(body);
    TableMeaning(declared, key, lower);
    assert PR.ResolveRuleMatchBody(PR.TableOf(declared, lower), Some(provider), structured, errorText, lower) == body;
    assert JsonQuote("") == "\"\"";
    FirstOperatorMatchMeaning(rules, status, LowerAll(text, lower), lower);
    forall i: nat | i < |rules|
      ensures PR.OperatorRuleFires(rules[i], status, LowerAll(text, lower), lower) <==> Fits(rules[i], status, text, lower)
    {
    }
    forall i: nat | FirstFitting(rules, i, status, text, lower)
      ensures FirstFiring(rules, i, status, LowerAll(text, lower), lower)
    {
    }
  }

  /** A provider nobody declared rules for is answered as if no operator rule existed. */
  lemma OthersUnchanged(
    declared: seq<PR.Declared>, builtin: PR.Builtin, provider: string, status: int, structured: Body, errorText: Option<string>,
    lower: char -> char)
    requires forall d :: d in declared ==> !Declares(d, LowerAll(provider, lower), lower)
    ensures Classified(PR.TableOf(declared, lower), builtin, provider, status, structured, errorText, lower)
         == Classified(map[], builtin, provider, status, structured, errorText, lower)
  {
    TableMeaning(declared, LowerAll(provider, lower), lower);
  }

  /** Agentrouter, or a provider with at least one operator rule. */
  ghost predicate SeesFullText(declared: seq<PR.Declared>, provider: string, lower: char -> char) {
    provider != "" &&
    (LowerAll(provider, lower) == "agentrouter" || exists d :: d in declared && Declares(d, LowerAll(provider, lower), lower))
  }

  /** Rules see the full error text of exactly those providers whose lock scope is honoured; the others' structured error. */
  lemma FullTextIffScopeHonored(
    declared: seq<PR.Declared>, provider: string, structured: Body, errorText: string, lower: char -> char)
    requires errorText != ""
    requires LowerAll(LowerAll(provider, lower), lower) == LowerAll(provider, lower)
    ensures
      var table := PR.TableOf(declared, lower);
      PR.ResolveRuleMatchBody(table, Some(provider), structured, Some(errorText), lower) ==
        (if SeesFullText(declared, provider, lower) then TextBody(errorText) else structured) &&
      (PR.HonorsRuleLockScope(table, Some(provider), lower) <==> SeesFullText(declared, provider, lower))
  {
    var key := LowerAll(provider, lower);
    TableMeaning(declared, key, lower);
    if key in PR.TableOf(declared, lower) {
      var i: nat :| LastDeclared(declared, i, key, lower);
      assert declared[i] in declared;
    } else if d :| d in declared && Declares(d, key, lower) {
      var i :| 0 <= i < |declared| && declared[i] == d;
      DeclaredInTable(declared, i, key, lower);
    }
  }

  lemma {:induction false} DeclaredInTable(declared: seq<PR.Declared>, i: nat, key: string, lower: char -> char)
    requires i < |declared| && Declares(declared[i], key, lower)
    ensures key in PR.TableOf(declared, lower)
  {
    var front := declared[..|declared| - 1];
    if i < |front| {
      assert front[i] == declared[i];
      DeclaredInTable(front, i, key, lower);
    }
  }

  // ---------------------------------------------------------------- restating, then classifying

  ghost predicate AgentrouterTable(builtin: PR.Builtin, lower: char -> char) {
    forall s, b :: builtin(PR.AGENTROUTER, s, b) == PR.AgentrouterMatch(s, b, lower)
  }

  ghost function RulesFor(table: PR.OperatorTable, key: string): seq<PR.OperatorRule> {
    if key in table then table[key] else []
  }

  /**
    On this text the operator's first rule for one status says what the first for the other says. A
    rule that answers under one status only must say what the built-in quota rule says.
   */
  ghost predicate OperatorsAgree(
    rules: seq<PR.OperatorRule>, one: int, other: int, errorText: string, lower: char -> char)
  {
    var text := LowerAll(errorText, lower);
    var a, b := PR.FirstOperatorMatch(rules, one, text, lower), PR.FirstOperatorMatch(rules, other, text, lower);
    var quota := Some(PR.Match("quota_exhausted", PR.ConnectionScope, None));
    a == b || (Contains(errorText, SR.QUOTA_MARKER) && ((a == None && b == quota) || (a == quota && b == None)))
  }

  /**
    End to end for agentrouter, whatever its operator declared: the error is classified alike under
    the restated and the raw status exactly when the operator's rules for the two statuses agree.
   */
  lemma ClassificationSurvivesRestatement(
    table: PR.OperatorTable, builtin: PR.Builtin, provider: string, status: int, message: Option<string>, body: Body,
    retryAfterMs: Option<int>, structured: Body, errorText: string, lower: char -> char)
    requires LeavesMarkers(lower) && provider != "" && LowerAll(provider, lower) == "agentrouter"
    requires errorText != "" && Contains(SR.Searched(message, body), errorText)
    requires AgentrouterTable(builtin, lower)
    ensures
      var restated := RestatedStatus(provider, status, message, body, retryAfterMs, lower);
      Classified(table, builtin, provider, restated, structured, Some(errorText), lower)
      == Classified(table, builtin, provider, status, structured, Some(errorText), lower)
      <==>
      restated == status || OperatorsAgree(RulesFor(table, PR.AGENTROUTER), restated, status, errorText, lower)
  {
    var restated := RestatedStatus(provider, status, message, body, retryAfterMs, lower);
    ClassifiedByRules(table, builtin, provider, status, structured, errorText, lower);
    ClassifiedByRules(table, builtin, provider, restated, structured, errorText, lower);
    TablesCommute(provider, status, message, body, retryAfterMs, errorText, lower);
    RestatementBySearch(provider, status, message, body, retryAfterMs, lower);
    AgentrouterMeaning(restated, errorText, lower);
  }

  lemma ClassifiedByRules(
    table: PR.OperatorTable, builtin: PR.Builtin, provider: string, status: int, structured: Body, errorText: string,
    lower: char -> char)
    requires provider != "" && LowerAll(provider, lower) == "agentrouter" && errorText != ""
    requires AgentrouterTable(builtin, lower)
    ensures
      var first := PR.FirstOperatorMatch(RulesFor(table, PR.AGENTROUTER), status, LowerAll(errorText, lower), lower);
      Classified(table, builtin, provider, status, structured, Some(errorText), lower) ==
      if first.Some? then first else PR.AgentrouterMatch(status, TextBody(errorText), lower)
  {
  }

  /** Operator rules that leave agentrouter's three statuses alone never come between: every message is classified alike. */
  lemma MessageSurvivesRestatement(
    table: PR.OperatorTable, builtin: PR.Builtin, provider: string, status: int, message: string, body: Body,
    retryAfterMs: Option<int>, structured: Body, lower: char -> char)
    requires LeavesMarkers(lower) && provider != "" && LowerAll(provider, lower) == "agentrouter"
    requires message != "" && AgentrouterTable(builtin, lower)
    requires forall r :: r in RulesFor(table, PR.AGENTROUTER) ==> r.status !in {400, 403, 429}
    ensures
      var restated := RestatedStatus(provider, status, Some(message), body, retryAfterMs, lower);
      Classified(table, builtin, provider, restated, structured, Some(message), lower)
      == Classified(table, builtin, provider, status, structured, Some(message), lower)
  {
    var rules, text := RulesFor(table, PR.AGENTROUTER), LowerAll(message, lower);
    var restated := RestatedStatus(provider, status, Some(message), body, retryAfterMs, lower);
    MessageAndBodyAreSearched(Some(message), body);
    RestatementBySearch(provider, status, Some(message), body, retryAfterMs, lower);
    FirstOperatorMatchMeaning(rules, restated, text, lower);
    FirstOperatorMatchMeaning(rules, status, text, lower);
    ClassificationSurvivesRestatement(table, builtin, provider, status, Some(message), body, retryAfterMs, structured, message, lower);
  }

  /** An operator rule for agentrouter's raw 403 is never reached on quota text: the status is 429 by then. */
  lemma RuleForRawStatusIsMissed()
    ensures
      var lower := (c: char) => c;
      var table := map[PR.AGENTROUTER := [PR.OperatorRule(403, "", PR.ModelScope, Some("x"), None)]];
      var builtin := (key: string, status: int, body: Body) => PR.AgentrouterMatch(status, body, lower);
      var message := SR.QUOTA_MARKER;
      var restated := RestatedStatus(PR.AGENTROUTER, 403, Some(message), NoBody, None, lower);
      Classified(table, builtin, PR.AGENTROUTER, 403, NoBody, Some(message), lower)
        == Some(PR.Match("x", PR.ModelScope, None)) &&
      Classified(table, builtin, PR.AGENTROUTER, restated, NoBody, Some(message), lower)
        == Some(PR.Match("quota_exhausted", PR.ConnectionScope, None))
  {
    var lower := (c: char) => c;
    var table := map[PR.AGENTROUTER := [PR.OperatorRule(403, "", PR.ModelScope, Some("x"), None)]];
    var builtin := (key: string, status: int, body: Body) => PR.AgentrouterMatch(status, body, lower);
    var message := SR.QUOTA_MARKER;
    assert LowerAll(PR.AGENTROUTER, lower) == PR.AGENTROUTER && LowerAll(message, lower) == message;
    assert LowerAll("", lower) == "";
    assert OccursAt(message, "", 0);
    QuotaAloneIsRestated(lower);
    ClassifiedByRules(table, builtin, PR.AGENTROUTER, 403, NoBody, message, lower);
    ClassifiedByRules(table, builtin, PR.AGENTROUTER, 429, NoBody, message, lower);
    assert OccursAt(message, SR.QUOTA_MARKER, 0);
    AgentrouterMeaning(429, message, lower);
  }

  /** Agentrouter's 403 with just the quota marker for a message becomes a 429. */
  lemma QuotaAloneIsRestated(lower: char -> char)
    requires LeavesMarkers(lower) && LowerAll(SR.AGENTROUTER, lower) == SR.AGENTROUTER
    ensures RestatedStatus(SR.AGENTROUTER, 403, Some(SR.QUOTA_MARKER), NoBody, None, lower) == 429
  {
    var text := SR.Searched(Some(SR.QUOTA_MARKER), NoBody);
    RestatementBySearch(SR.AGENTROUTER, 403, Some(SR.QUOTA_MARKER), NoBody, None, lower);
    MessageAndBodyAreSearched(Some(SR.QUOTA_MARKER), NoBody);
    assert text == SR.QUOTA_MARKER + " ";
    forall i: nat | i <= |text| ensures !OccursAt(text, SR.ACCESS_MARKER, i) {
      if i + 4 <= |text| {
        assert text[i..i + 4][0] == text[i] != SR.ACCESS_MARKER[0];
      }
    }
  }
}
