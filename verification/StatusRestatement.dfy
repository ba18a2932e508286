/**
  Restating an upstream status: some gateways report exhausted quota with a status that clients
  take for permanent. A rule fires on a listed status when the error text holds one of its
  markers and none of its vetoes.
 */
module StatusRestatement {
  import opened Wrappers
  import opened Text
  import opened ErrorText

  datatype Rule = Rule(
    id: string, fromStatuses: set<int>, toStatus: int, textMarkers: seq<string>, excludeMarkers: seq<string>,
    defaultRetryAfterMs: Option<int>)

  datatype Restated = Restated(status: int, retryAfterMs: Option<int>, ruleId: Option<string>, fromStatus: int)

  const AGENTROUTER := "agentrouter"
  const QUOTA_MARKER := "额度不足"
  const ACCESS_MARKER := "无权访问"

  const AGENTROUTER_RULES :=
    [Rule("agentrouter-quota-misstatus", {403, 400}, 429, [QUOTA_MARKER], [ACCESS_MARKER], Some(60_000))]

  const REGISTRY := map[AGENTROUTER := AGENTROUTER_RULES]

  function StringifyBody(body: Body): string {
    match body
    case NoBody => ""
    case TextBody(text) => text
    case JsonBody(serialised) => serialised
  }

  /** What the markers are searched in, before lower-casing. */
  function Searched(message: Option<string>, body: Body): string {
    (if message.Some? then message.value else "") + " " + StringifyBody(body)
  }

  predicate AnyContained(markers: seq<string>, s: string) {
    exists m :: m in markers && Contains(s, m)
  }

  predicate Fires(rule: Rule, status: int, haystack: string) {
    status in rule.fromStatuses && AnyContained(rule.textMarkers, haystack) && !AnyContained(rule.excludeMarkers, haystack)
  }

  function FirstFiring(rules: seq<Rule>, status: int, haystack: string): Option<Rule> {
    if rules == [] then None
    else if Fires(rules[0], status, haystack) then Some(rules[0])
    else FirstFiring(rules[1..], status, haystack)
  }

  function ApplyStatusRestatement(
    registry: map<string, seq<Rule>>, provider: Option<string>, status: int, message: Option<string>, body: Body,
    retryAfterMs: Option<int>, lower: char -> char): Restated
  {
    var passthrough := Restated(status, retryAfterMs, None, status);
    if provider == None || provider.value == "" || LowerAll(provider.value, lower) !in registry then passthrough
    else
      var haystack := LowerAll(Searched(message, body), lower);
      var rule := FirstFiring(registry[LowerAll(provider.value, lower)], status, haystack);
      if Trim(haystack) == "" || rule == None then passthrough
      else
        var upstream := if retryAfterMs.Some? && retryAfterMs.value > 0 then retryAfterMs else None;
        Restated(rule.value.toStatus, if upstream.Some? then upstream else rule.value.defaultRetryAfterMs,
                 Some(rule.value.id), status)
  }
}
