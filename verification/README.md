# OmniRoute verification model

A Dafny model of the parts of the OmniRoute gateway that hold state, keep caches, or read and
print strings, with proofs of what they promise. Code that changes state step by step is modelled by
classes and methods with loops, each proved against a specification function; the laws are lemmas
about those functions, for every input and every run.

| file | what it models |
|---|---|
| `AccountRotation.dfy`, `RotationFairness.dfy`, `AccountHealth.dfy` | round-robin pick over accounts, back-off and eviction |
| `CodexTurnState.dfy`, `TurnStateRefinement.dfy` | the turn-state provenance table with its TTL and sweep |
| `FreeModelCatalog.dfy`, `FreeTierLaws.dfy`, `FreeRegimeLaws.dfy` | pool-deduplicated free-tier totals, and which regime feeds which figure |
| `CredentialExecutors.dfy` | the single-flight executor cache, over all interleavings |
| `RegistryUtils.dfy`, `RegistryLaws.dfy`, `EmbeddingRegistry.dfy`, `EmbeddingParseLaws.dfy` | model-id listing, parsing and the cached index |
| `AnthropicHeaders.dfy` | merging `anthropic-beta` lists, collapsing header capitalisations |
| `CliFingerprints.dfy`, `FieldOrderLaws.dfy` | ordering body fields and headers |
| `GlmProvider.dfy`, `GlmUrlLaws.dfy` | joining base URLs and endpoint paths |
| `ToolCloaking.dfy`, `ToolCloakingLaws.dfy` | stripping `enumDescriptions` from JSON trees and payloads |
| `CodexIdentity.dfy` | derived UUIDs and the persisted fingerprint seed |
| `ErrorText.dfy`, `StatusRestatement.dfy`, `ProviderErrorRules.dfy`, `ErrorRuleLaws.dfy` | status restatement and provider error rules |
| `Text.dfy`, `Sets.dfy`, `Wrappers.dfy` | trimming, splitting, searching; a set fact; options |

Clock readings, `Math.random()`, `randomUUID()` and SHA-256 are parameters. So are lower-casing
functions, wherever the result does not depend on what they do.

Five promises turned out to hold only under a condition. Each is stated as an equivalence, with a
concrete failing input beside it:

* the provenance table answers like one that never forgets, unless an earlier call met the record
  when its clock already showed it expired (`AnswerUnderAnyClock`, `ClockSetBackIsObservable`); with
  a clock that never runs back this makes no difference (`Refinement`);
* a bare model id is reported for its first provider, unless that provider's key is empty
  (`BareLookup`, `EmptyKeyIsNotReported`);
* a listed embedding id parses back, unless provider `p` registers it as `p/x` and either `p` lists
  `x` as well or a dynamic provider has taken the key `p` (`EmbeddingRegistry.RoundTrip`,
  `CollapsingPairIsConfused`);
* joining with the versioned messages endpoints is idempotent, unless the base ends in a `/v1` that
  is doubled or in capitals (`VersionedJoinIdempotent`, `CapitalVersionIsRewritten`);
* restating agentrouter's status does not change how its error is classified, unless the operator
  declared rules for it that answer differently for the raw and the restated status
  (`ClassificationSurvivesRestatement`, `RuleForRawStatusIsMissed`); with rules for other statuses
  only this makes no difference (`MessageSurvivesRestatement`).

## Model

| member | source | states |
|---|---|---|
| `AccountRotation.RotationState.PickAccount` | open-sse/executors/accountRotation.ts:68-84 | the account returned and the new pointer are those of the ring specification for the readiness at the call, for any starting pointer |
| `AccountRotation.RingStep` | open-sse/executors/accountRotation.ts:74-77 | the source's index arithmetic modulo the list length is a walk on a ring |
| `AccountRotation.RotatableAccount.MarkCooldown` | open-sse/executors/accountRotation.ts:86-96 | the account's new health after a failure |
| `AccountRotation.RotatableAccount.MarkSuccess` | open-sse/executors/accountRotation.ts:98-101 | the account's new health after a success; the cooldown stays |
| `RotationFairness.PickIsNearestEligible` | open-sse/executors/accountRotation.ts:61-84 | a slot is picked if and only if it is the eligible one nearest to the pointer, eligible meaning ready, or any when none is |
| `RotationFairness.FallbackIsRoundRobinOverAll` | open-sse/executors/accountRotation.ts:81-83 | when nothing is ready the pick and the pointer are those of all being ready |
| `RotationFairness.PickedWithinDistance` | open-sse/executors/accountRotation.ts:68-84 | an account that stays eligible is picked within its cyclic distance plus one picks |
| `RotationFairness.NoRepeatWhilePassedOver` | open-sse/executors/accountRotation.ts:68-84 | while an eligible account is passed over no account is picked twice |
| `RotationFairness.BoundedBypass` | open-sse/executors/accountRotation.ts:68-84 | in any window of any run, with readiness changing at will: n picks include an account that stays eligible, and picks between two of it are pairwise distinct |
| `RotationFairness.RoundIsPermutation` | open-sse/executors/accountRotation.ts:68-84 | with unchanging readiness, as many picks as there are eligible accounts are a permutation of them |
| `RotationFairness.PickCountsBalanced` | open-sse/executors/accountRotation.ts:68-84 | with unchanging readiness pick counts of eligible accounts differ by at most one after any number of picks, and nobody else is picked |
| `AccountHealth.BackoffValue` | open-sse/config/errorConfig.ts:65-74 | the back-off is 5, 10, 20, 40 and then always 60 seconds |
| `AccountHealth.FailsCountTheStreak` | open-sse/executors/accountRotation.ts:86-101 | after any history the failure counter is the length of the streak since the last success |
| `AccountHealth.EvictionReadsTheStreak` | open-sse/executors/accountRotation.ts:48-52 | an account is evicted if and only if its streak holds a terminal failure at position three or later, and the last such dates it |
| `AccountHealth.CooldownSetByLastFailure` | open-sse/executors/accountRotation.ts:86-101 | the cooldown is the last failure's time, back-off at its position in its streak, and jitter |
| `AccountHealth.NeverFailedNeverCools` | open-sse/executors/accountRotation.ts:98-101 | an account that never failed is as it was created |
| `AccountHealth.ReadinessWindow` | open-sse/executors/accountRotation.ts:54-59 | not ready before 5 seconds after the last failure, ready from 61 seconds on |
| `AccountHealth.ReadyWhenCooldownEnds` | open-sse/executors/accountRotation.ts:57-96 | the account is ready exactly from its last failure on plus the back-off at its position in its streak and the jitter |
| `AccountHealth.RecoveredAccountIsPicked` | open-sse/executors/accountRotation.ts:57-96 | any n picks made 61 seconds or more after an account's last failure include it |
| `CodexTurnState.TurnStateTable.SweepExpired` | open-sse/config/codexTurnState.ts:78-84 | the sweep leaves exactly the live records |
| `CodexTurnState.TurnStateTable.NoteProvenance` | open-sse/config/codexTurnState.ts:93-112 | the table after a note, sweep included |
| `CodexTurnState.TurnStateTable.IsCrossAccount` | open-sse/config/codexTurnState.ts:121-138 | the answer, and the table after the lazy delete |
| `TurnStateRefinement.NormalizeKeyMeaning` | open-sse/config/codexTurnState.ts:47-51 | a session or account key counts exactly when it is a string that is not blank, and goes by what it wraps in blanks |
| `TurnStateRefinement.RecordFor` | open-sse/config/codexTurnState.ts:78-138 | under any clock a session's record is its latest note's, and is there unless a call met it expired |
| `TurnStateRefinement.AnswerUnderAnyClock` | open-sse/config/codexTurnState.ts:121-138 | under any clock the guard strips exactly when the latest note is live and names another account and the record was not dropped; so it never strips wrongly |
| `TurnStateRefinement.DroppedMeansExpired` | open-sse/config/codexTurnState.ts:78-84 | with a non-decreasing clock a dropped record had expired |
| `TurnStateRefinement.Refinement` | open-sse/config/codexTurnState.ts:78-138 | over every run with a non-decreasing clock the answers are those of a table that never forgets |
| `TurnStateRefinement.ClockSetBackIsObservable` | open-sse/config/codexTurnState.ts:133-136 | a run in which a clock set back makes the lazy delete visible |
| `TurnStateRefinement.SweepLeavesTheLiveSessions` | open-sse/config/codexTurnState.ts:108-111 | after a sweep the table holds the live sessions, the one just noted among them |
| `TurnStateRefinement.NoteSurvivesItsOwnSweep` | open-sse/config/codexTurnState.ts:93-112 | a note's record is in the table afterwards even if the note ran the sweep |
| `TurnStateRefinement.SizeBound` | open-sse/config/codexTurnState.ts:33-36 | the table never exceeds the sessions live at the last sweep plus the writes modulo 256 |
| `TurnStateRefinement.HeldRecordsAreRecent` | open-sse/config/codexTurnState.ts:78-112 | everything held was written after the last sweep's time less the TTL |
| `FreeModelCatalog.DedupedSum` | open-sse/config/freeModelCatalog.ts:221-236 | the two loops compute the sum entry by entry: what each adds to the pool or to the loose figure |
| `FreeModelCatalog.DedupedMeaning` | open-sse/config/freeModelCatalog.ts:219-236 | that sum counts every included pool once, at its largest figure, and every included pool-less entry on its own |
| `FreeModelCatalog.ComputeFreeModelTotals` | open-sse/config/freeModelCatalog.ts:238-325 | the published figures in terms of that sum |
| `FreeTierLaws.PoolMaxMeaning` | open-sse/config/freeModelCatalog.ts:219-231 | a pool's figure is the larger of zero and its largest included figure, and nothing else is |
| `FreeTierLaws.PermutationInvariance` | open-sse/config/freeModelCatalog.ts:221-236 | the order of the catalogue does not matter |
| `FreeTierLaws.Conservation` | open-sse/config/freeModelCatalog.ts:221-236 | two disjoint selections summed apart exceed their joint sum by exactly the smaller figure of every pool they share |
| `FreeTierLaws.SubAdditivity` | open-sse/config/freeModelCatalog.ts:221-236 | hence at most the sum of the two, with equality if and only if no pool has a positive figure on both sides |
| `FreeTierLaws.GateSplitsTheSteadyTotal` | open-sse/config/freeModelCatalog.ts:256-267 | steady plus gated is the all-steady total if and only if the gate splits no paying pool |
| `FreeTierLaws.AddingAnEntry` | open-sse/config/freeModelCatalog.ts:221-236 | an entry added anywhere raises the total by between zero and its figure, by all of it if pool-less |
| `FreeTierLaws.ExcludingTosAvoidNeverRaises` | open-sse/config/freeModelCatalog.ts:252-302 | excluding entries with "avoid" terms raises none of the five published sums |
| `FreeTierLaws.UncountedEntryIsAbsent` | open-sse/config/freeModelCatalog.ts:241-254 | a disabled or excluded entry changes no figure, as if it were absent |
| `FreeTierLaws.GatedEntryFeedsGatedOnly` | open-sse/config/freeModelCatalog.ts:60-92 | an eligibility-gated entry leaves the steady, credit, first-month and boost figures and the pool count alone |
| `FreeTierLaws.UncappedIsNeverSummed` | open-sse/config/freeModelCatalog.ts:99-109 | an uncapped or discontinued entry enters none of the sums |
| `FreeRegimeLaws.SteadyEntry` | open-sse/config/freeModelCatalog.ts:137-302 | one more open daily, monthly or keyless entry, anywhere: steady and the two cumulative figures rise by its monthly tokens, or by what its pool lacks of them; it opens its pool, with the pool's boosts, if it is the first; nothing else changes |
| `FreeRegimeLaws.GatedSteadyEntry` | open-sse/config/freeModelCatalog.ts:256-272 | behind a gate the same entry raises the gated figure and names its provider there, and nothing else |
| `FreeRegimeLaws.RecurringCreditEntry` | open-sse/config/freeModelCatalog.ts:273-285 | a recurring-credit entry raises exactly the figure with recurring credits and the first month's, by its credit tokens or what its pool lacks |
| `FreeRegimeLaws.OneTimeEntry` | open-sse/config/freeModelCatalog.ts:278-285 | a one-time entry raises exactly the first month's figure |
| `FreeRegimeLaws.UncappedEntry` | open-sse/config/freeModelCatalog.ts:304-310 | an open uncapped entry names its provider and raises no figure |
| `FreeRegimeLaws.IdleEntry` | open-sse/config/freeModelCatalog.ts:137-310 | a discontinued entry, or a gated one that is not steady, is counted as a model and no more |
| `FreeRegimeLaws.EmptyCatalogue` | open-sse/config/freeModelCatalog.ts:253-324 | with nothing listed every figure is zero and every list empty |
| `CredentialExecutors.CredentialExecutorCache.GetCredentialRefreshExecutor` | open-sse/executors/credential.ts:36-54 | the promise returned and the cache after a call |
| `CredentialExecutors.CredentialExecutorCache.InnerSettles` | open-sse/executors/credential.ts:43-47 | the load after its promise settled |
| `CredentialExecutors.CredentialExecutorCache.RejectionHandler` | open-sse/executors/credential.ts:47-50 | the cache after the handler ran |
| `CredentialExecutors.InvariantAlways` | open-sse/executors/credential.ts:33-54 | in every reachable state the cached promises are exactly those not evicted, each under its provider |
| `CredentialExecutors.StatusIsHistory` | open-sse/executors/credential.ts:41-52 | what is recorded of a load follows from the history alone: how it first settled after it started (a default executor is there at once), and whether its handler ran after a failure |
| `CredentialExecutors.CachedByHistory` | open-sse/executors/credential.ts:43-52 | a promise is cached if and only if its load did not fail and then have its handler run |
| `CredentialExecutors.CallByHistory` | open-sse/executors/credential.ts:36-54 | what every call does, from the history: it throws, shares the load not failed and handled, or, where there is none, starts exactly one |
| `CredentialExecutors.SuccessIsReturned` | open-sse/executors/credential.ts:41-53 | a load that settled well is what every later available call returns, whatever happens in between |
| `CredentialExecutors.FailureReloads` | open-sse/executors/credential.ts:47-52 | after a failure and its handler the next call that can start a load starts exactly one |
| `CredentialExecutors.SingleFlight` | open-sse/executors/credential.ts:41-52 | over all interleavings a provider never has two loads not evicted |
| `CredentialExecutors.HandlerEvictsItsOwnPromise` | open-sse/executors/credential.ts:47-50 | the handler removes the very promise that failed and no other entry |
| `CredentialExecutors.SuccessIsForever` | open-sse/executors/credential.ts:41-53 | a load recorded as successful stays cached through every continuation and its provider starts no other |
| `CredentialExecutors.SharedUntilEvicted` | open-sse/executors/credential.ts:41-53 | until its handler ran every call returns the same promise and starts nothing |
| `CredentialExecutors.LoadsBoundedByFailures` | open-sse/executors/credential.ts:41-52 | loads started for a provider never exceed the ones that failed, read off the history, plus one |
| `RegistryUtils.BuildIndex` | open-sse/config/registryUtils.ts:37-42 | the index built by the nested loops refines the linear scan for every id |
| `RegistryUtils.ModelIndexCache.GetRegistryModelIndex` | open-sse/config/registryUtils.ts:31-46 | the cached index does too, and other registries' entries stay |
| `RegistryUtils.ModelIndexCache.ParseModelFromRegistry` | open-sse/config/registryUtils.ts:52-76 | parsing with the cached index is parsing by scanning |
| `RegistryUtils.GetAllModelsFromRegistry` | open-sse/config/registryUtils.ts:82-107 | the listing, in order |
| `RegistryLaws.FirstListingMeaning` | open-sse/config/registryUtils.ts:25-30 | the scan names the provider at the first position listing the id, or none |
| `RegistryLaws.PrefixedLookup` | open-sse/config/registryUtils.ts:58-66 | a prefixed id goes to the first provider that answers to it, slashes in keys included, under its key or else its alias |
| `RegistryLaws.BareLookup` | open-sse/config/registryUtils.ts:52-76 | with no prefix answering, a bare id is reported for the first provider listing it if and only if that provider's key is not empty, and for none if nobody lists it; null and "" are nothing |
| `RegistryLaws.EmptyKeyIsNotReported` | open-sse/config/registryUtils.ts:70-75 | a registry in which it is not |
| `RegistryLaws.PrefixesMeaning` | open-sse/config/registryUtils.ts:92-95 | a provider is listed under its key and then its alias, empty ones aside |
| `RegistryLaws.ListingMeaning` | open-sse/config/registryUtils.ts:89-104 | an entry is listed if and only if some provider lists the model under one of its prefixes |
| `RegistryLaws.ListingOrder` | open-sse/config/registryUtils.ts:86-106 | the position of every entry in the listing, and its length |
| `RegistryLaws.RoundTrip` | open-sse/config/registryUtils.ts:58-107 | with slash-free keys and aliases a listed id parses back if and only if no earlier provider answers to its prefix |
| `RegistryLaws.EveryListedIdParsesBack` | open-sse/config/registryUtils.ts:52-107 | with prefixes distinct across providers every listed id parses back |
| `EmbeddingRegistry.GetAllEmbeddingModels` | open-sse/config/embeddingRegistry.ts:648-666 | the listing, in order |
| `EmbeddingRegistry.ParseScoped` | open-sse/config/embeddingRegistry.ts:489-505 | a "key/rest" string goes to that key's provider, with rest normalised by it unless a dynamic provider has the key |
| `EmbeddingRegistry.RoundTrip` | open-sse/config/embeddingRegistry.ts:441-586 | a listed id parses back to its provider and registry id if and only if the registry id is not "p/x" beside a listed "x" or under a key "p" that a dynamic provider has taken |
| `EmbeddingRegistry.CollapsingPairIsConfused` | open-sse/config/embeddingRegistry.ts:457-472 | a provider with such a pair, and the wrong answer |
| `EmbeddingRegistry.EveryListedIdParsesBack` | open-sse/config/embeddingRegistry.ts:571-666 | without such pairs and takeovers the whole listing parses back |
| `EmbeddingRegistry.ListedDimension` | open-sse/config/embeddingRegistry.ts:594-600 | looking up a listed id's dimension gives the listed dimension |
| `EmbeddingParseLaws.AliasMeaning` | open-sse/config/embeddingRegistry.ts:441-451 | the first alias that applies replaces the whole string or what follows its last slash; an alias with a slash only the whole |
| `EmbeddingParseLaws.AliasedParse` | open-sse/config/embeddingRegistry.ts:571-576 | a string parses as the one its alias stands for |
| `EmbeddingParseLaws.BareMeaning` | open-sse/config/embeddingRegistry.ts:529-586 | a string without a provider is a model of the first provider listing it, or of none; null and "" are nothing |
| `EmbeddingParseLaws.KnownPrefix` | open-sse/config/embeddingRegistry.ts:453-506 | a prefix that is a key or an alias of one names that provider, and the rest is its listed id, bare or prefixed, or what is left without the prefix; a dynamic provider of that id comes first |
| `EmbeddingParseLaws.UnclaimedGoesToKey` | open-sse/config/embeddingRegistry.ts:508-519 | a prefix that is nobody's goes to the first provider whose whole key starts the string |
| `EmbeddingParseLaws.UnclaimedGoesToDynamic` | open-sse/config/embeddingRegistry.ts:481-527 | else to the first dynamic provider whose id does, else it is reported as it is |
| `EmbeddingParseLaws.ListingOrder` | open-sse/config/embeddingRegistry.ts:648-666 | the position and the fields of every entry in the listing, and its length |
| `AnthropicHeaders.MergeClientAnthropicBeta` | open-sse/config/anthropicHeaders.ts:86-117 | the loop computes the merge specification |
| `Text.TrimMeaning` | open-sse/config/anthropicHeaders.ts:92-96 | trimming gives the one string without blanks at either end that the text wraps in blanks |
| `Text.SpacesListed` | open-sse/config/anthropicHeaders.ts:92-96 | which characters count as blank there (sections 12.2 and 12.3 of ECMA-262) |
| `AnthropicHeaders.TokensRoundTrip` | open-sse/config/anthropicHeaders.ts:92-96 | parsing gives tokens, and parsing a printed token list gives it back |
| `AnthropicHeaders.PieceTokens` | open-sse/config/anthropicHeaders.ts:92-95 | each piece between commas gives the token it wraps in blanks, or none |
| `AnthropicHeaders.MergeHomomorphism` | open-sse/config/anthropicHeaders.ts:86-117 | merging c1 + "," + c2 is merging c1 and then c2, for all strings |
| `AnthropicHeaders.MergeMeaning` | open-sse/config/anthropicHeaders.ts:86-117 | the merged string is the base tokens and then a subsequence of the client's, duplicate-free up to case: exactly those on the allow-list up to case that the base lacks, the long-context beta only if the model may take it |
| `AnthropicHeaders.AbsentHeader` | open-sse/config/anthropicHeaders.ts:92-96 | without a client header the base comes back normalised |
| `AnthropicHeaders.MergeIdempotent` | open-sse/config/anthropicHeaders.ts:86-117 | merging the same client list again changes nothing |
| `AnthropicHeaders.LongContextGate` | open-sse/config/anthropicHeaders.ts:98-104 | the long-context beta is never added for a model known not to take it |
| `AnthropicHeaders.Headers.NormalizeAnthropicVariants` | open-sse/config/anthropicHeaders.ts:143-168 | the headers after collapsing |
| `AnthropicHeaders.NormalizeSettles` | open-sse/config/anthropicHeaders.ts:136-168 | no header keeps both capitalisations, a second pass changes nothing, other headers stay |
| `AnthropicHeaders.UniqueOrder` | open-sse/config/anthropicHeaders.ts:124-134 | the values of both headers stand in the order of their first appearance |
| `AnthropicHeaders.NormalizeKeepsTokens` | open-sse/config/anthropicHeaders.ts:124-168 | the beta header is the list of every token of both once; the version is the first token |
| `CliFingerprints.OrderFields` | open-sse/config/cliFingerprints.ts:206-225 | the loops compute the ordering specification, duplicates in the list included |
| `CliFingerprints.OrderHeaders` | open-sse/config/cliFingerprints.ts:232-262 | the same with the case-insensitive map |
| `FieldOrderLaws.OrderedIsPermutation` | open-sse/config/cliFingerprints.ts:206-225 | every key and value is kept exactly once |
| `FieldOrderLaws.OrderedIsStable` | open-sse/config/cliFingerprints.ts:202-205 | listed keys first, by first mention; the others in their original order |
| `FieldOrderLaws.OrderedIdempotent` | open-sse/config/cliFingerprints.ts:206-225 | ordering twice is ordering once |
| `FieldOrderLaws.CollapsedMeaning` | open-sse/config/cliFingerprints.ts:241-245 | the map keeps exactly the last spelling and value of every case-insensitive name |
| `FieldOrderLaws.CollapsedOrder` | open-sse/config/cliFingerprints.ts:241-245 | at the position where the name first appeared |
| `FieldOrderLaws.OrderedHeadersKeepLast` | open-sse/config/cliFingerprints.ts:232-262 | a header is in the result if and only if it is the last of its name |
| `FieldOrderLaws.OrderedHeadersIdempotent` | open-sse/config/cliFingerprints.ts:232-262 | one entry per name, and ordering twice is ordering once |
| `FieldOrderLaws.OrderedHeadersAreStable` | open-sse/config/cliFingerprints.ts:232-262 | of any two headers in the result: listed names come first, by first mention up to case; the others in the order in which their names first appeared |
| `FieldOrderLaws.OrderedHeadersPermute` | open-sse/config/cliFingerprints.ts:232-262 | headers distinct up to case are permuted |
| `GlmProvider.StripKnownGlmEndpointSuffix` | open-sse/config/glmProvider.ts:391-412 | the loop and matches compute the stripping specification |
| `GlmUrlLaws.StripsOneEndpoint` | open-sse/config/glmProvider.ts:391-412 | behind any base and API version, a known endpoint in any capitals comes off with its slashes, and with a messages endpoint exactly the one version before it |
| `GlmUrlLaws.CarriedEndpointIsIgnored` | open-sse/config/glmProvider.ts:391-425 | over a clean unversioned base the joined URL does not depend on the endpoint and slashes carried, for every path and query |
| `GlmUrlLaws.JoinMeaning` | open-sse/config/glmProvider.ts:414-425 | a clean base is joined to the path with a slash between them and keeps its query and hash |
| `GlmUrlLaws.AttachMeaning` | open-sse/config/glmProvider.ts:417-424 | a version that base and path share at the seam, up to case, is written once, as the base has it; everything else in full |
| `GlmUrlLaws.VersionMeaning` | open-sse/config/glmProvider.ts:398-417 | the version match finds exactly a slash, a v in either capital, and digits |
| `GlmUrlLaws.JoinIdempotent` | open-sse/config/glmProvider.ts:414-425 | joining with "/chat/completions" or "/models" is idempotent for every string and keeps query and hash |
| `GlmUrlLaws.VersionedJoinIdempotent` | open-sse/config/glmProvider.ts:391-425 | with "/v1/models" always idempotent; with the versioned messages endpoints if and only if the base does not end in a capital or doubled "/v1" |
| `GlmUrlLaws.EndsInV1Meaning` | open-sse/config/glmProvider.ts:417 | the condition above is that the base ends in "/v1" or "/V1" |
| `GlmUrlLaws.CapitalVersionIsRewritten` | open-sse/config/glmProvider.ts:417-423 | a base for which it is not |
| `ToolCloaking.StripEnumDescriptions` | open-sse/config/toolCloaking.ts:15-30 | the recursive method with its loops computes the stripping function |
| `ToolCloaking.SanitizeAntigravityToolPayload` | open-sse/config/toolCloaking.ts:39-85 | the nested maps with their change flags compute one rewriting along request, tools, declarations, parameters |
| `ToolCloakingLaws.StripAt` | open-sse/config/toolCloaking.ts:7-30 | no path through "enumDescriptions" leads anywhere; every other path leads where it did, to the same scalar, an array of the same length, or an object with the same keys in order but that one |
| `ToolCloakingLaws.StripIdempotent` | open-sse/config/toolCloaking.ts:15-30 | stripping twice is stripping once |
| `ToolCloakingLaws.RewriteAt` | open-sse/config/toolCloaking.ts:32-85 | on any levels: a path off the way to a schema is untouched, values on the way keep shape, count and keys, and at and below a schema every path is pruned as above |
| `ToolCloakingLaws.PayloadAt` | open-sse/config/toolCloaking.ts:39-85 | so in a payload along request, tools, functionDeclarations, parameters |
| `ToolCloakingLaws.RewriteIdempotent` | open-sse/config/toolCloaking.ts:39-85 | sanitising twice is sanitising once |
| `ToolCloakingLaws.IdentityIsKept` | open-sse/config/toolCloaking.ts:32-38 | names and all else in declarations, and everything in tools without declarations, stay |
| `CodexIdentity.DerivedIsUuid` | open-sse/config/codexIdentity.ts:61-74 | for every digest a version 4 UUID that the validator accepts (section 5.4 of RFC 9562) |
| `CodexIdentity.LegacyIsUuid` | open-sse/config/codexIdentity.ts:55-59 | so is the historical layout |
| `CodexIdentity.DerivedSpellsDigest` | open-sse/config/codexIdentity.ts:63-73 | it spells the first sixteen digest bytes in order, with the version digit and two variant bits written over |
| `CodexIdentity.LegacySpellsDigest` | open-sse/config/codexIdentity.ts:56-59 | the historical layout spells the same digits with two overwritten |
| `CodexIdentity.UuidGroups` | open-sse/config/codexIdentity.ts:19 | the validator's pattern is five groups of hexadecimal digits with a version from 1 to 5 and a variant from 8 to b |
| `CodexIdentity.UuidsTrimToThemselves` | open-sse/config/codexIdentity.ts:45-47 | the validator returns a UUID as it is |
| `CodexIdentity.NormalizeUuidMeaning` | open-sse/config/codexIdentity.ts:45-47 | a value is accepted exactly when it is a string that wraps a UUID in blanks |
| `CodexIdentity.InstallationIdFixedPoint` | open-sse/config/codexIdentity.ts:186-209 | every installation id is a UUID, and given back as the explicit one it is returned |
| `CodexIdentity.InstallationSource` | open-sse/config/codexIdentity.ts:186-209 | which string every installation id is the hash of: seed, then workspace, account or email, then the account chain |
| `CodexIdentity.IdentitySources` | open-sse/config/codexIdentity.ts:211-237 | which string the session and thread ids are the hash of, with a valid seed and without |
| `CodexIdentity.ClientSeedIgnored` | open-sse/config/codexIdentity.ts:125-127 | the seed a client sends has no influence on what is stored |
| `CodexIdentity.ModeMeaning` | open-sse/config/codexIdentity.ts:171-184 | the mode is the one named, today's key before the historical one, lower-cased; anything unknown is "session" |
| `CodexIdentity.StoredSeedOrigin` | open-sse/config/codexIdentity.ts:102-143 | a stored seed is the earlier one, or a new one when a save with a token had none and its mode does not read "off" |
| `CodexIdentity.OtherFieldsAsSent` | open-sse/config/codexIdentity.ts:120-143 | every field but the seed is stored as sent, and nothing is stored if and only if no field is left |
| `CodexIdentity.SeedKeptIffOAuth` | open-sse/config/codexIdentity.ts:128-136 | a valid seed survives a save if and only if the save carries a token that is not blank |
| `CodexIdentity.StoredFieldsOfLastSave` | open-sse/config/codexIdentity.ts:120-143 | after any run of saves every field but the seed is as the last save sent it |
| `CodexIdentity.IdentityIsStable` | open-sse/config/codexIdentity.ts:120-237 | over any run of OAuth saves the seed and the session and thread ids never change, whatever the mode |
| `ErrorRuleLaws.RestatementMeaning` | open-sse/config/upstreamStatusRestatement.ts:75-129 | agentrouter's status is restated if and only if it is 400 or 403 and message or body report exhausted quota and neither reports missing access; the status, rule, origin and delay it then gets |
| `ErrorRuleLaws.OthersPassThrough` | open-sse/config/upstreamStatusRestatement.ts:101-110 | the errors of every other provider pass as they are |
| `ErrorRuleLaws.RestatementIdempotent` | open-sse/config/upstreamStatusRestatement.ts:101-129 | restating a restated error changes neither status nor delay, for every provider |
| `ErrorRuleLaws.AgentrouterMeaning` | open-sse/config/providerErrorRules.ts:260-291 | which rule fires is decided by the status and the markers in the unquoted text |
| `ErrorRuleLaws.AgentrouterAnswers` | open-sse/config/providerErrorRules.ts:260-291 | the reason, scope and cooldown agentrouter's rules answer with |
| `ErrorRuleLaws.TablesCommute` | open-sse/config/providerErrorRules.ts:234-291 | any part of the error text fires the same built-in rule under the restated status as under the raw one |
| `ErrorRuleLaws.MessageCommutes` | open-sse/config/providerErrorRules.ts:234-291 | so does the message, for every message and body |
| `ErrorRuleLaws.RestatedBodyCommutes` | open-sse/config/providerErrorRules.ts:260-291 | so does the very body handed to the restatement: absent, text or other JSON, matched as serialised |
| `ErrorRuleLaws.ClassificationSurvivesRestatement` | open-sse/config/providerErrorRules.ts:399-468 | with any operator rules, the whole classification is the same under both statuses if and only if the status was not restated or the operator's first rules for the two statuses say the same, the built-in quota answer standing in for a missing one |
| `ErrorRuleLaws.MessageSurvivesRestatement` | open-sse/config/providerErrorRules.ts:420-468 | every message is classified alike when the operator's rules for agentrouter leave 400, 403 and 429 alone |
| `ErrorRuleLaws.RuleForRawStatusIsMissed` | open-sse/handlers/chatCore.ts:4137-4151 | an operator rule for agentrouter's 403 that the restatement to 429 keeps from answering |
| `ErrorText.QuotedContains` | open-sse/config/providerErrorRules.ts:267-268 | JSON quoting neither hides a non-ASCII marker nor makes one up |
| `ErrorText.QuotedReadsBack` | open-sse/config/providerErrorRules.ts:267-268 | reading the quoted string as JSON gives the text back (section 7 of RFC 8259) |
| `ProviderErrorRules.OperatorRules.SetOperatorProviderErrorRules` | open-sse/config/providerErrorRules.ts:78-88 | the table after an update |
| `ErrorRuleLaws.TableMeaning` | open-sse/config/providerErrorRules.ts:72-88 | a provider's rules are the last non-empty list declared for it up to case |
| `ErrorRuleLaws.OperatorRulesDecide` | open-sse/config/providerErrorRules.ts:399-451 | the first operator rule for the status whose pattern is in the error text, up to case, answers with its reason, scope and cooldown; if none does, the built-in rules; a structured error is matched as serialised |
| `ErrorRuleLaws.OthersUnchanged` | open-sse/config/providerErrorRules.ts:78-88 | a provider nobody declared rules for is answered as before |
| `ErrorRuleLaws.FullTextIffScopeHonored` | open-sse/config/providerErrorRules.ts:328-413 | agentrouter and the providers with operator rules see the full error text and have their lock scope honoured; the others see the structured error |

## Left out

- PickAccount: an empty account list is excluded. The source then returns `undefined` and leaves `NaN` as the pointer; its only caller (`open-sse/executors/opencode.ts:278-324`) always has an account. Readiness is a snapshot per pick: a clock tick between two checks of one pick is not modelled.
- MarkCooldown: times and jitter are exact numbers; rounding of the sum to a double is not modelled, so the strict bound of 61 seconds is that of exact arithmetic.
- NormalizeAnthropicVariants: headers are a map, so the order in which the object lists them is not captured.
- ComputeFreeModelTotals: provider lists are sets and figures are integers; the sorting of lists and models and the headline text are left out.
- GetAllModelsFromRegistry: the `extra` callback, which can add or overwrite fields of an entry, is left out.
- ParseModelFromRegistry: a registry object does not change after it was indexed, as the source's comment on the cache assumes.
- SanitizeAntigravityToolPayload: values are compared, not identities, so that an unchanged body is returned without copying is not captured.
- EnsureSeed: the steps of the save around it, and `turnId` and the other carriers of an identity, are left out.
- GetProviderErrorRuleMatch: the built-in rules of providers other than agentrouter are a parameter, and so are headers.
- Strings are sequences of Unicode characters, not UTF-16 units; lone surrogates and case folding that changes a string's length are not modelled. In GLM URLs only ASCII letters have case, which is exact for the endpoint names matched there.
- Object keys are own keys that are neither array indices nor `__proto__`; inherited names such as `constructor` used as a provider id are not modelled.
- Reading headers, the echo decision of `resolveCodexTurnStateEcho`, `isEmptyUpstreamRejection`, reset-countdown parsing and account-id masking: single reads or branches.
- Provider catalogues, executors, streaming, the dashboard and all network code: the laws quantify over arbitrary catalogues and registries instead.
