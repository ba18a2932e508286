/**
  Provider-specific error rules: operator-declared rules come first, then the provider's own. The
  built-in tables of other providers are a parameter.
 */
module ProviderErrorRules {
  import opened Wrappers
  import opened Text
  import opened ErrorText

  datatype Scope = ModelScope | ProviderScope | ConnectionScope

  datatype Match = Match(reason: string, scope: Scope, cooldownMs: Option<int>)

  datatype OperatorRule = OperatorRule(status: int, pattern: string, scope: Scope, reason: Option<string>, cooldownMs: Option<int>)

  type OperatorTable = map<string, seq<OperatorRule>>

  /** A provider's built-in answer for a status and a body. */
  type Builtin = (string, int, Body) -> Option<Match>

  const AGENTROUTER := "agentrouter"
  const QUOTA_MARKER := "额度不足"
  const MODEL_ACCESS_MARKER := "无权访问模型"

  /** Which of agentrouter's two rules fires. */
  datatype AgentrouterRule = UserQuotaExhausted | ModelAccessDenied

  function AgentrouterFires(status: int, body: Body, lower: char -> char): Option<AgentrouterRule> {
    var text := LowerAll(Serialised(body), lower);
    if status in {400, 403, 429} && Contains(text, QUOTA_MARKER) then Some(UserQuotaExhausted)
    else if status == 403 && Contains(text, MODEL_ACCESS_MARKER) then Some(ModelAccessDenied)
    else None
  }

  function AgentrouterMatch(status: int, body: Body, lower: char -> char): Option<Match> {
    match AgentrouterFires(status, body, lower)
    case Some(UserQuotaExhausted) => Some(Match("quota_exhausted", ConnectionScope, None))
    case Some(ModelAccessDenied) => Some(Match("auth_error", ModelScope, Some(6 * 60 * 60 * 1000)))
    case None => None
  }

  // ---------------------------------------------------------------- operator rules

  /** A list that is not an array counts as absent. */
  datatype Declared = Declared(provider: string, rules: Option<seq<OperatorRule>>)

  predicate Usable(d: Declared) {
    d.rules.Some? && d.rules.value != []
  }

  function TableOf(declared: seq<Declared>, lower: char -> char): OperatorTable {
    if declared == [] then map[]
    else
      var before, d := TableOf(declared[..|declared| - 1], lower), declared[|declared| - 1];
      if Usable(d) then before[LowerAll(d.provider, lower) := d.rules.value] else before
  }

  class OperatorRules {
    var table: OperatorTable

    constructor ()
      ensures table == map[]
    {
      table := map[];
    }

    method SetOperatorProviderErrorRules(declared: Option<seq<Declared>>, lower: char -> char)
      modifies this
      ensures table == TableOf(if declared.Some? then declared.value else [], lower)
    {
      table := map[];
      if declared == None {
        return;
      }
      for i := 0 to |declared.value|
        invariant table == TableOf(declared.value[..i], lower)
      {
        var d := declared.value[i];
        assert declared.value[..i + 1][..i] == declared.value[..i];
        if Usable(d) {
          table := table[LowerAll(d.provider, lower) := d.rules.value];
        }
      }
      assert declared.value[..|declared.value|] == declared.value;
    }
  }

  predicate HasOperatorRule(table: OperatorTable, provider: Option<string>, lower: char -> char) {
    provider.Some? && provider.value != "" &&
    LowerAll(provider.value, lower) in table && table[LowerAll(provider.value, lower)] != []
  }

  predicate HonorsRuleLockScope(table: OperatorTable, provider: Option<string>, lower: char -> char) {
    provider.Some? && provider.value != "" &&
    (LowerAll(provider.value, lower) == AGENTROUTER ||
     HasOperatorRule(table, Some(LowerAll(provider.value, lower)), lower))
  }

  function ResolveRuleMatchBody(
    table: OperatorTable, provider: Option<string>, structured: Body, errorText: Option<string>, lower: char -> char): Body
  {
    if provider.Some? && provider.value != "" &&
       (LowerAll(provider.value, lower) == AGENTROUTER || HasOperatorRule(table, provider, lower)) &&
       errorText.Some? && errorText.value != ""
    then TextBody(errorText.value)
    else structured
  }

  predicate OperatorRuleFires(r: OperatorRule, status: int, text: string, lower: char -> char) {
    r.status == status && Contains(text, LowerAll(r.pattern, lower))
  }

  function FirstOperatorMatch(rules: seq<OperatorRule>, status: int, text: string, lower: char -> char): Option<Match> {
    if rules == [] then None
    else if OperatorRuleFires(rules[0], status, text, lower) then Some(Answer(rules[0]))
    else FirstOperatorMatch(rules[1..], status, text, lower)
  }

  function Answer(r: OperatorRule): Match {
    Match(if r.reason.Some? then r.reason.value else "quota_exhausted", r.scope, r.cooldownMs)
  }

  function GetProviderErrorRuleMatch(
    table: OperatorTable, builtin: Builtin, provider: Option<string>, status: int, body: Body, lower: char -> char): Option<Match>
  {
    if provider == None || provider.value == "" then None
    else
      var key := LowerAll(provider.value, lower);
      var text := if body.TextBody? then body.text else Serialised(body);
      var operator := if key in table then FirstOperatorMatch(table[key], status, LowerAll(text, lower), lower) else None;
      if operator.Some? then operator else builtin(key, status, body)
  }
}
