# Verified model of the release, contract and cost tooling

This project models the scripts that guard the agent server's and the SDK's public contracts, the
scripts that account for model usage, and the bot that closes duplicate issues, and proves what
they promise. `dafny verify dfyconfig.toml` checks everything.

| modules | what they model |
|---|---|
| `JsonPointer`, `OpenApiWalk`, `OpenApiDocument`, `OpenApiQuality`, `OpenApiReference` | the OpenAPI quality ratchet: the walk that reports weak schemas, the JSON Pointer codec (sections 3 and 4 of RFC 6901), the allowlist check, and what they find in terms of the document alone |
| `Versions`, `Lifecycle`, `ReleaseGate` | when a deprecated feature must go and when it may go, and what every history of accepted releases keeps |
| `NewlineEscape`, `FieldDiff`, `DeprecationVisitor`, `DeprecationMarkers` | the SDK breakage check's lexer, its classes of `Field(...)` changes, the visitor that collects deprecation markers and what it knows in the end |
| `ReferenceGraph`, `ContractPrune`, `ContractReferences`, `PublicContract` | the public REST contract: references and reachability over their cycles, pruning, flattening and the diff |
| `BoundRewrite`, `ChangePipeline`, `PropertyName`, `PropertyRemovals`, `RemovalTiming` | the REST breakage check: the exclusive-bound rewrite, the classification of oasdiff's findings, when operations and properties may go, and its treatment of removed properties |
| `PersistedPayload`, `PersistedReleases`, `PayloadPasses` | the "nothing old was lost" test on persisted settings, over chains of releases, and when a payload passes |
| `Grouping`, `Spend`, `Prices`, `Reconcile`, `DatedCalls` | usage totals, prices, the comparison of the daemon's totals with the provider's export, and when its reports are real |
| `AutoCloseRules`, `AutoCloseProtocol`, `AutoCloseOutcome` | the auto-close bot as a state machine among people who comment, react, relabel, close and reopen: what it never does, and what it gets done |
| `SummarySection`, `SectionReference`, `WrittenBlock`, `GeneratedBlock`, `LastWriter`, `FreshBody`, `BlockRemoved`, `UnclosedMarker`, `LastWriterExact` | the generated block in a pull request's Summary section |
| `SkillName` | the normalisation of skill names |
| `Wrappers`, `Text`, `Json` | shared values |

Objects whose fields the scripts update are classes (`OpenApiQuality.Walker`,
`DeprecationVisitor.Visitor`); loops that accumulate are methods with loops, each proved against a
function on values; the theorems are about those functions.

## Where the code does less than it says

The model follows the code. These properties, which its documentation or design suggests, are false
of it. Each has a lemma for the exact condition and one for the inputs on which it fails:

| property | holds exactly when | fails on |
|---|---|---|
| the resolver reads pointers as sections 3 and 4 of RFC 6901 do | `JsonPointer.ResolverMeansDenotes` | `JsonPointer.EmptyPointerIsNotTheDocument`, `JsonPointer.UnrootedIsFound`, `JsonPointer.BadEscapeIsFound`, `JsonPointer.PaddedIndexIsFound`, `JsonPointer.SignedIndexIsFound` |
| `JsonPointer.UnescapeMeans` | packages/.github/scripts/check_agent_server_openapi_quality.py:108-109 | the two replacements in a row read every well-formed token as RFC 6901 does, character by character |
| the latest notice is the one used | `AutoCloseRules.LatestNoticeUsed` | `AutoCloseRules.BadStampBlocks` |
| the exports of a minor line only grow | `Lifecycle.LineOrderIsExact` | `Lifecycle.OutOfOrderShrinks` |
| a scheduled feature is gone from its removal version on | `Lifecycle.RemovedOnSchedule`, while its marker stays | `Lifecycle.DroppedMarkerKeepsExport` |
| a scheduled feature can be kept or removed at every version | `Lifecycle.KeepXorRemove`, for the two checks by themselves | `Lifecycle.StuckInLine`, with the version-bump rule |
| the exclusive-bound rewrite keeps the accepted numbers | `BoundRewrite.NormalizeKeepsNumbers` | `BoundRewrite.LooserMinimum`, `BoundRewrite.FlagTightens` |
| a removed property was deprecated in the baseline | `PropertyRemovals.PropertyRemovalRule` | `PropertyRemovals.UndeprecatedRemovalPasses` |
| a harmless `Field` change is in one of the two classes | `FieldDiff.ClassesCover` | `FieldDiff.MovedDefaultIsBreaking` |
| the last summary wins | `LastWriterExact.ReadyIsExact` | `FreshBody.BlankLinesGrow`, `LastWriterExact.CutKeepsBlock`, `FreshBody.LastWriterLoses`, `LastWriterExact.OpenedLosesText` |
| a valid skill name is left alone | `SkillName.ValidatedIsFixed` | `SkillName.FinalNewlineMatches` |
| a reported contradiction is real | `DatedCalls.ContradictionIsReal` | `DatedCalls.StrayReported`, `Reconcile.MidnightFalseAlarm` |

## Model

| member | source | states |
|---|---|---|
| `JsonPointer.EscapeRoundTrip` | packages/.github/scripts/check_agent_server_openapi_quality.py:82-83 | unescaping undoes escaping on every string, those containing `~0` or `~1` included |
| `JsonPointer.TokensOfRender` | packages/.github/scripts/check_agent_server_openapi_quality.py:106-109 | splitting and unescaping a rendered pointer returns the token list it was rendered from |
| `JsonPointer.RenderInjective` | packages/.github/scripts/check_agent_server_openapi_quality.py:82-83 | distinct token lists never render to the same pointer |
| `JsonPointer.RenderDenotes` | packages/.github/scripts/check_agent_server_openapi_quality.py:82-83 | every rendered location is a pointer that sections 3 and 4 of RFC 6901 read as that location |
| `JsonPointer.ResolvePointer` | packages/.github/scripts/check_agent_server_openapi_quality.py:106-118 | the resolver's loop is evaluation of the pointer's tokens, errors included |
| `JsonPointer.EvaluateMeansAt` | packages/.github/scripts/check_agent_server_openapi_quality.py:106-118 | on token lists, evaluation finds a value exactly where section 4 of RFC 6901 does, apart from non-canonical indices |
| `JsonPointer.ResolverMeansDenotes` | packages/.github/scripts/check_agent_server_openapi_quality.py:106-118 | on strings, the resolver agrees with sections 3 and 4 of RFC 6901 iff the pointer is not empty and, unless nothing is found, starts with a slash, escapes properly and uses canonical indices |
| `JsonPointer.UnrootedIsFound` | packages/.github/scripts/check_agent_server_openapi_quality.py:108 | a plain key without a slash in front is resolved, although it is no pointer |
| `JsonPointer.BadEscapeIsFound` | packages/.github/scripts/check_agent_server_openapi_quality.py:106-118 | a tilde that escapes nothing is resolved, although such a string is no pointer |
| `JsonPointer.PaddedIndexIsFound` | packages/.github/scripts/check_agent_server_openapi_quality.py:106-118 | every list index with a zero in front of it is found, although the pointer denotes nothing |
| `JsonPointer.SignedIndexIsFound` | packages/.github/scripts/check_agent_server_openapi_quality.py:106-118 | so is every index with a sign, a negative one counting from the end |
| `JsonPointer.ResolveRendered` | packages/.github/scripts/check_agent_server_openapi_quality.py:106-118 | every non-empty location that exists is found again from its rendered pointer |
| `JsonPointer.EmptyPointerIsNotTheDocument` | packages/.github/scripts/check_agent_server_openapi_quality.py:106-118 | the empty pointer never resolves to the document, on any document |
| `OpenApiWalk.WalkIsExact` | packages/.github/scripts/check_agent_server_openapi_quality.py:121-165 | the recursive walk reports exactly the weak positions that navigation through the listed keywords reaches |
| `OpenApiReference.WalkIncludesBelow` | packages/.github/scripts/check_agent_server_openapi_quality.py:139-165 | what the walk finds in an item of `oneOf`, `anyOf`, `allOf` or `prefixItems`, under one of the seven schema keywords or in a property, it finds in the node |
| `OpenApiReference.WalkFindsWeak` | packages/.github/scripts/check_agent_server_openapi_quality.py:121-165 | the walk finds a position iff going down through those keywords, written out, leads to a node that is `{}` or has `additionalProperties: true` |
| `OpenApiWalk.PathLocates` | packages/.github/scripts/check_agent_server_openapi_quality.py:121-165 | the tokens the walk builds for a navigation path denote the node that path leads to |
| `OpenApiWalk.WeakBelowLocates` | packages/.github/scripts/check_agent_server_openapi_quality.py:121-165 | where a weak position's tokens point, the document holds exactly `{}` or `true` |
| `OpenApiDocument.FindSpotsIsExact` | packages/.github/scripts/check_agent_server_openapi_quality.py:168-244 | a position is found if and only if some component, request body or 2xx response has it |
| `OpenApiReference.FindSpotsFindsWeak` | packages/.github/scripts/check_agent_server_openapi_quality.py:168-244 | a position is found iff it is weak in the document: in a component, in a request body under one of the eight methods, or in a response whose status starts with 2; and which documents raise |
| `OpenApiDocument.SiteLocates` | packages/.github/scripts/check_agent_server_openapi_quality.py:168-229 | the tokens of a site denote its schema, or denote nothing where the schema is missing |
| `OpenApiDocument.FindingsResolve` | packages/.github/scripts/check_agent_server_openapi_quality.py:106-244 | a finding's pointer resolves to exactly `{}` or exactly `true`; a schema reported missing is missing |
| `OpenApiQuality.Walker.WalkSchema` | packages/.github/scripts/check_agent_server_openapi_quality.py:121-165 | the in-place walk adds exactly the positions of the specification, with rendered pointers |
| `OpenApiQuality.Walker.WalkOperations` | packages/.github/scripts/check_agent_server_openapi_quality.py:168-229 | the operation walk adds exactly the positions of all request bodies and 2xx responses |
| `OpenApiQuality.Walker.WalkComponents` | packages/.github/scripts/check_agent_server_openapi_quality.py:232-244 | the component loop adds exactly the positions of all component schemas |
| `OpenApiQuality.FindWeakLocations` | packages/.github/scripts/check_agent_server_openapi_quality.py:232-244 | the reported records are those of exactly the weak positions, or the error of a malformed document |
| `OpenApiQuality.RecordInjective` | packages/.github/scripts/check_agent_server_openapi_quality.py:62-66 | two positions never share a record |
| `OpenApiQuality.CheckEntries` | packages/.github/scripts/check_agent_server_openapi_quality.py:319-330 | the dict has the keys of the entries, and there is no complaint iff no entry is expired or duplicated |
| `OpenApiQuality.CheckAllowlist` | packages/.github/scripts/check_agent_server_openapi_quality.py:313-336 | silent iff findings and entries agree and no entry is expired or duplicated; every new and every stale location is named |
| `OpenApiQuality.RatchetIsExact` | packages/.github/scripts/check_agent_server_openapi_quality.py:313-336 | when the ratchet passes, every weak position of the document is listed, every entry resolves to `{}` or `true`, and entries and positions are equally many |
| `OpenApiReference.RatchetIsUpToDate` | packages/.github/scripts/check_agent_server_openapi_quality.py:313-336 | the allowlist holds iff its entries name exactly the weak positions of the document, once each, and none is past its last day |
| `Lifecycle.KeepXorRemove` | packages/.github/scripts/check_deprecations.py:560-608 | a version-based schedule passes the runway check iff at every version exactly one of keeping the feature and removing it passes |
| `Lifecycle.FreshBaseline` | packages/.github/scripts/check_sdk_api_breakage.py:411-456 | in an accepted history the baseline of a release is the newest older one |
| `Lifecycle.RepublishRemovesNothing` | packages/.github/scripts/check_sdk_api_breakage.py:411-456 | a release accepted under a version already published removes nothing of it |
| `Lifecycle.NothingRemoved` | packages/.github/scripts/check_sdk_api_breakage.py:888-920 | a release allowed against a baseline of its own minor line removes no export |
| `Lifecycle.LineGrows` | packages/.github/scripts/check_sdk_api_breakage.py:1305-1310 | over every accepted history with ordered lines, the exports of a minor line only grow |
| `Lifecycle.InOrderIsLineOrdered` | packages/.github/scripts/check_sdk_api_breakage.py:438-456 | versions that only increase leave every line in order, so LineGrows applies to every in-order history |
| `Lifecycle.LineBaseline` | packages/.github/scripts/check_sdk_api_breakage.py:438-456 | over every accepted history, a release keeps the exports of a release of its own line at least as new as any given older one |
| `Lifecycle.OutOfOrderShrinks` | packages/.github/scripts/check_sdk_api_breakage.py:438-456 | for every publication order with a version of a line after a larger one there is an accepted history in which the smaller version has an export the larger lacks |
| `Lifecycle.LineOrderIsExact` | packages/.github/scripts/check_sdk_api_breakage.py:438-456 | all accepted histories with given versions have growing lines iff the versions of each line come in order |
| `Lifecycle.PreviousIsBaseline` | packages/.github/scripts/check_sdk_api_breakage.py:1398-1406 | in order, each release is checked against the one before it |
| `Lifecycle.RemovalStep` | packages/.github/scripts/check_sdk_api_breakage.py:362-408 | an export that disappears in one step had a valid schedule that this release has reached |
| `Lifecycle.RemovalsAreScheduled` | packages/.github/scripts/check_sdk_api_breakage.py:362-408 | over every in-order accepted history, an export that is gone disappeared at some step by a valid and reached schedule |
| `Lifecycle.NoOverdueSchedule` | packages/.github/scripts/check_deprecations.py:593-608 | in an accepted history no release carries a marker whose removal version it has reached |
| `Lifecycle.RemovedOnSchedule` | packages/.github/scripts/check_deprecations.py:560-608 | over every in-order accepted history in which the schedule of a name stays, a release exports the name iff it is older than `removed_in` |
| `Lifecycle.DroppedMarkerKeepsExport` | packages/.github/scripts/check_deprecations.py:593-608 | for every valid schedule, a release at or after `removed_in` that drops the marker and keeps the export is accepted |
| `Lifecycle.StuckInLine` | packages/.github/scripts/check_sdk_api_breakage.py:888-920 | with `removed_in` inside the baseline's own minor line, no release of that line that has reached it is accepted, whether it keeps the marked name or removes it |
| `ReleaseGate.AcceptedIsExact` | packages/.github/scripts/check_sdk_api_breakage.py:1255-1406 | a release is accepted iff every marker in it has its five minor releases of runway and is not due, every export that is gone was due, no member error is left, and any removal or member break opens a later line than the baseline's |
| `ReleaseGate.DeadlineMeans` | packages/.github/scripts/check_deprecations.py:560-608 | which records lack their runway, clean-up calls aside, and from which version or day on a record fails |
| `NewlineEscape.EscapeNewlines` | packages/.github/scripts/check_sdk_api_breakage.py:481-515 | the loop is the escaping transformation from outside a literal |
| `NewlineEscape.EscapeKeepsState` | packages/.github/scripts/check_sdk_api_breakage.py:481-515 | the output leaves the lexer in the state the input leaves it in |
| `NewlineEscape.EscapeIsClean` | packages/.github/scripts/check_sdk_api_breakage.py:481-515 | the output has no raw newline in a literal except directly after an escaping backslash |
| `NewlineEscape.CleanIsFixed` | packages/.github/scripts/check_sdk_api_breakage.py:481-515 | a text is left alone if and only if it has no such newline |
| `NewlineEscape.EscapeIdempotent` | packages/.github/scripts/check_sdk_api_breakage.py:481-515 | a second pass changes nothing |
| `NewlineEscape.EscapePreservesMeaning` | packages/.github/scripts/check_sdk_api_breakage.py:481-515 | the literals of the output denote what those of the input denote |
| `NewlineEscape.LiteralRewritten` | packages/.github/scripts/check_sdk_api_breakage.py:481-515 | for either quote, in a literal without escapes exactly the raw newlines are rewritten, the other quote included, and the code around it is copied |
| `NewlineEscape.EscapeCopied` | packages/.github/scripts/check_sdk_api_breakage.py:481-515 | a backslash in a literal protects the character behind it, a newline or the quote included |
| `FieldDiff.DefaultSurvives` | packages/.github/scripts/check_sdk_api_breakage.py:545-564 | dropping metadata keywords leaves the default node as it is |
| `FieldDiff.KeywordNames` | packages/.github/scripts/check_sdk_api_breakage.py:470-478 | the five metadata keywords and the two default keywords, by name |
| `FieldDiff.MetadataIsInvisible` | packages/.github/scripts/check_sdk_api_breakage.py:545-576 | a metadata keyword at any place changes neither what is compared nor the default |
| `FieldDiff.MetadataOnlyIsEquivalence` | packages/.github/scripts/check_sdk_api_breakage.py:621-642 | metadata-only is reflexive exactly on `Field` calls, symmetric and transitive |
| `FieldDiff.SkeletonMeans` | packages/.github/scripts/check_sdk_api_breakage.py:545-576 | calls agree besides metadata and default iff function, later arguments and all keywords but those seven are the same, in order |
| `FieldDiff.DefaultOnlyIsSeparate` | packages/.github/scripts/check_sdk_api_breakage.py:590-618 | default-only is symmetric, irreflexive and excludes metadata-only |
| `FieldDiff.ClassesRespectMetadata` | packages/.github/scripts/check_sdk_api_breakage.py:590-642 | both classes give the same answer for values that differ in metadata only, on either side |
| `FieldDiff.SpellingDecides` | packages/.github/scripts/check_sdk_api_breakage.py:545-576 | calls that agree besides metadata and default agree up to metadata iff the first argument and the default keywords with their places are the same |
| `FieldDiff.ClassesCover` | packages/.github/scripts/check_sdk_api_breakage.py:590-642 | for calls that agree besides metadata and default: metadata-only iff spelled in the same way, default-only iff the defaults differ; metadata-only if neither has one; neither class if one has |
| `FieldDiff.MovedDefaultIsBreaking` | packages/.github/scripts/check_sdk_api_breakage.py:557-642 | a default that moves from the first position to a keyword is in neither class, whatever the other arguments and keywords are |
| `DeprecationVisitor.Visitor.VisitNode` | packages/.github/scripts/check_sdk_api_breakage.py:1099-1200 | a visit restores the class stack and records what the specification collects |
| `DeprecationVisitor.Visitor.GenericVisit` | packages/.github/scripts/check_sdk_api_breakage.py:1099-1200 | visiting the children restores the class stack and records what they declare |
| `DeprecationVisitor.Visitor.RecordAll` | packages/.github/scripts/check_sdk_api_breakage.py:1177-1200 | the markers of one node are recorded in order, the class stack unchanged |
| `DeprecationVisitor.VisitDescribed` | packages/.github/scripts/check_sdk_api_breakage.py:1099-1200 | every visit keeps both name sets inside the keys of the metadata |
| `DeprecationVisitor.FindDeprecatedSymbols` | packages/.github/scripts/check_sdk_api_breakage.py:1202-1224 | the loop over the files merges the visits of all of them |
| `DeprecationVisitor.CollectDescribed` | packages/.github/scripts/check_sdk_api_breakage.py:1070-1224 | after any sequence of files every recorded name has metadata |
| `DeprecationVisitor.FallbackNeverUsed` | packages/.github/scripts/check_sdk_api_breakage.py:676-702 | no lookup's answer depends on the fallback metadata |
| `DeprecationVisitor.MemberScheduled` | packages/.github/scripts/check_sdk_api_breakage.py:676-702 | a removed member has its own schedule, or that of its class, or that of the first base with one |
| `DeprecationVisitor.CollectedNames` | packages/.github/scripts/check_sdk_api_breakage.py:1099-1200 | a qualified name is recorded iff some node of the tree declares it under its enclosing classes |
| `DeprecationVisitor.MethodRecorded` | packages/.github/scripts/check_sdk_api_breakage.py:1121-1140 | a decorated function anywhere in a tree is recorded under its full enclosing-class path |
| `DeprecationMarkers.MarkersMean` | packages/.github/scripts/check_sdk_api_breakage.py:1083-1200 | a node records a marker iff it is a decorated class or function, a warning call or a registry entry that gives that feature, top-level name, `deprecated_in` and `removed_in` |
| `DeprecationMarkers.VisitKnows` | packages/.github/scripts/check_sdk_api_breakage.py:1099-1200 | in every tree the qualified and the top-level names are exactly those marked somewhere, and the metadata of a name is that of its last own marker, or else of the first that marks it along |
| `DeprecationMarkers.MarkedMetadata` | packages/.github/scripts/check_sdk_api_breakage.py:1083-1200 | a feature marked in one way only is known with exactly the metadata its marker gives |
| `DeprecationMarkers.CollectMarks` | packages/.github/scripts/check_sdk_api_breakage.py:1202-1224 | over all files a name is marked iff one of them marks it |
| `DeprecationMarkers.CollectKnows` | packages/.github/scripts/check_sdk_api_breakage.py:1202-1224 | over all files the metadata of a name is that of the last file that knows it |
| `ReferenceGraph.ReachableIsLeast` | packages/.github/scripts/generate_agent_server_rest_api_contract_summary.py:63-81 | what chains of references reach is closed under references and inside every closed set |
| `ContractPrune.Worklist` | packages/.github/scripts/generate_agent_server_rest_api_contract_summary.py:69-76 | the worklist ends on cyclic graphs and returns a closed set inside every closed set |
| `ContractPrune.UsedSchemas` | packages/.github/scripts/generate_agent_server_rest_api_contract_summary.py:69-76 | the schemas kept are exactly those reachable from the paths |
| `ContractReferences.CollectRefsIsExact` | packages/.github/scripts/generate_agent_server_rest_api_contract_summary.py:44-60 | a name is collected iff some path of keys and list positions leads to a dict whose `$ref` is `#/components/schemas/` and that name, which is not empty and has no slash |
| `ContractReferences.KeptIsReferenced` | packages/.github/scripts/generate_agent_server_rest_api_contract_summary.py:63-81 | a component is kept, unchanged, iff a chain of such references through defined components leads from `paths` to it |
| `ContractPrune.PruneUnreferencedSchemas` | packages/.github/scripts/generate_agent_server_rest_api_contract_summary.py:63-81 | the result is the document with only the reachable components, or the error of a malformed one |
| `ContractPrune.PruneIdempotent` | packages/.github/scripts/generate_agent_server_rest_api_contract_summary.py:63-81 | pruning twice is pruning once, and `paths` stays |
| `ContractReferences.PrunedKeepsTheRest` | packages/.github/scripts/generate_agent_server_rest_api_contract_summary.py:63-81 | pruning replaces the component schemas and keeps every other key of the document and of its components |
| `ContractPrune.ReferencesStillResolve` | packages/.github/scripts/generate_agent_server_rest_api_contract_summary.py:63-81 | what a kept part refers to resolves after pruning exactly as before |
| `ContractPrune.SameContract` | packages/.github/scripts/generate_agent_server_rest_api_contract_summary.py:211-233 | documents with the same roots keep the same components iff they agree on every name the first one refers to |
| `PublicContract.FlattenPublicContract` | packages/.github/scripts/generate_agent_server_rest_api_contract_summary.py:211-233 | the lines are those of the operations and of the kept components, or the error of a malformed document |
| `PublicContract.ContractLines` | packages/.github/scripts/generate_agent_server_rest_api_contract_summary.py:211-233 | a line is in the contract iff some operation of the paths says it, or some component that a chain of references leads to |
| `PublicContract.GenerateContractDiff` | packages/.github/scripts/generate_agent_server_rest_api_contract_summary.py:236-265 | the diff is empty iff the flattened contracts are equal |
| `PublicContract.NoDiffWhenContractsAgree` | packages/.github/scripts/generate_agent_server_rest_api_contract_summary.py:211-247 | the same paths and agreement on every referenced component make the flattened contracts equal |
| `PublicContract.UnreferencedNeverShows` | packages/.github/scripts/generate_agent_server_rest_api_contract_summary.py:211-247 | replacing the components by any that agree on the referenced ones leaves the contract as it is |
| `PublicContract.PruningKeepsContract` | packages/.github/scripts/generate_agent_server_rest_api_contract_summary.py:211-233 | a pruned document has the contract of the document |
| `BoundRewrite.NormalizeOpenapi` | packages/.github/scripts/check_agent_server_rest_api_breakage.py:822-861 | the walk is the rewrite of every node of the tree |
| `BoundRewrite.NormalizeBounds` | packages/.github/scripts/check_agent_server_rest_api_breakage.py:833-852 | the two branches on a dict are the rewrite of that node |
| `BoundRewrite.RewriteNodeFrame` | packages/.github/scripts/check_agent_server_rest_api_breakage.py:833-852 | only the four bound keys change, and what is stored there is a number or `true` |
| `BoundRewrite.NormalizeIdempotent` | packages/.github/scripts/check_agent_server_rest_api_breakage.py:822-861 | normalising twice is normalising once, on every JSON tree |
| `BoundRewrite.NormalizeAt` | packages/.github/scripts/check_agent_server_rest_api_breakage.py:822-861 | a location outside the four keys exists after iff it existed, and holds the normalised value |
| `BoundRewrite.RewriteKeepsNumbers` | packages/.github/scripts/check_agent_server_rest_api_breakage.py:833-852 | the numbers a node accepts by JSON Schema Validation 2020-12 before are those it accepts by OpenAPI 3.0.3 after iff each numeric exclusive bound has no inclusive bound beside it or an equal one and no flag stands beside a number, or the node accepted nothing and the edges it keeps leave nothing |
| `BoundRewrite.LooserMinimum` | packages/.github/scripts/check_agent_server_rest_api_breakage.py:833-852 | with a minimum below the exclusive minimum every number between them is rejected before and accepted after |
| `BoundRewrite.LooserMaximum` | packages/.github/scripts/check_agent_server_rest_api_breakage.py:833-852 | the same for a maximum above the exclusive maximum |
| `BoundRewrite.FlagTightens` | packages/.github/scripts/check_agent_server_rest_api_breakage.py:833-852 | a boolean exclusive minimum is left beside its minimum, which is accepted before and rejected after |
| `BoundRewrite.NormalizeKeepsNumbers` | packages/.github/scripts/check_agent_server_rest_api_breakage.py:822-861 | the same condition, at every schema node of a normalised document |
| `ChangePipeline.SplitBreakingChanges` | packages/.github/scripts/check_agent_server_rest_api_breakage.py:779-819 | the four lists are the changes of the four kinds, in order |
| `ChangePipeline.FilterRemaining` | packages/.github/scripts/check_agent_server_rest_api_breakage.py:1038-1101 | every list of notices and the list of breaking changes is exactly one bucket of the report |
| `ChangePipeline.Classify` | packages/.github/scripts/check_agent_server_rest_api_breakage.py:1021-1101 | after the split and all filters every list is exactly one bucket of the report |
| `ChangePipeline.StageOrderIsFree` | packages/.github/scripts/check_agent_server_rest_api_breakage.py:1038-1101 | the same filters in any order, repeated or not, leave the same breaking changes |
| `ChangePipeline.ChangesConserved` | packages/.github/scripts/check_agent_server_rest_api_breakage.py:1021-1101 | every change is in exactly one bucket, as often as it was reported |
| `ChangePipeline.NothingLost` | packages/.github/scripts/check_agent_server_rest_api_breakage.py:1021-1101 | the lists together are as long as the report |
| `ChangePipeline.ValidateRemovedOperations` | packages/.github/scripts/check_agent_server_rest_api_breakage.py:405-462 | one error for exactly the operations that were not deprecated, have no scheduled removal in the baseline or have not reached it |
| `ChangePipeline.AdditiveMeans` | packages/.github/scripts/check_agent_server_rest_api_breakage.py:570-598 | which findings count as additions, by rule id |
| `ChangePipeline.OperationRule` | packages/.github/scripts/check_agent_server_rest_api_breakage.py:681-689 | of the removed operations only the accepted one passes unchecked |
| `RemovalTiming.OperationRemovalTiming` | packages/.github/scripts/check_agent_server_rest_api_breakage.py:405-462 | the run on a removed operation fails exactly at the versions before the one its deprecated baseline operation schedules, and at every version if none is scheduled |
| `RemovalTiming.KeepXorRemoveRoute` | packages/.github/scripts/check_deprecations.py:593-608 | at every version exactly one passes: the deadline check with a scheduled route kept, or the breakage check with it removed |
| `ChangePipeline.ValidateRemovedProperties` | packages/.github/scripts/check_agent_server_rest_api_breakage.py:495-563 | one error for exactly the removals without a deprecated baseline property of that name whose removal version is reached |
| `RemovalTiming.PropertiesIsExact` | packages/.github/scripts/check_agent_server_rest_api_breakage.py:465-481 | the properties found are exactly those declared in a dict reached through dict values and dicts in lists |
| `RemovalTiming.PropertyRemovalTiming` | packages/.github/scripts/check_agent_server_rest_api_breakage.py:495-560 | the run on a checked property removal passes at a version iff some deprecated baseline property of its name schedules a removal that this version has reached |
| `PropertyName.RemovedName` | packages/.github/scripts/check_agent_server_rest_api_breakage.py:484-492 | the name of a removal is the last part of the path quoted behind one of the three words, slashes at its end aside |
| `ChangePipeline.FailsByOne` | packages/.github/scripts/check_agent_server_rest_api_breakage.py:1103-1217 | split, filters and both validators fail a report iff some single change of it fails by itself |
| `ChangePipeline.Verdict` | packages/.github/scripts/check_agent_server_rest_api_breakage.py:1008-1219 | the exit code is 1 iff some single change fails by itself or there are policy errors |
| `ChangePipeline.VerdictDistributes` | packages/.github/scripts/check_agent_server_rest_api_breakage.py:1021-1217 | the decision on the lists distributes over concatenation of reports and ignores the order of changes |
| `PropertyRemovals.PropertyRemovalRule` | packages/.github/scripts/check_agent_server_rest_api_breakage.py:717-731 | a property removal passes against every baseline iff its text names a response or request property; otherwise the baseline decides |
| `PropertyRemovals.UndeprecatedRemovalPasses` | packages/.github/scripts/check_agent_server_rest_api_breakage.py:717-731 | the removal of a required response property that the baseline does not declare passes, for any name |
| `PropertyRemovals.RequestAlternativeIsDead` | packages/.github/scripts/check_agent_server_rest_api_breakage.py:484-492 | the "request property" alternative of the name pattern never decides a name: such texts do not reach the validator |
| `PersistedPayload.EmbeddedReflexive` | packages/.github/scripts/check_persisted_settings_compat.py:545-585 | every payload is embedded in itself |
| `PersistedPayload.EmbeddedTransitive` | packages/.github/scripts/check_persisted_settings_compat.py:545-585 | embedding composes |
| `PersistedPayload.FindReports` | packages/.github/scripts/check_persisted_settings_compat.py:545-585 | the recursion scans the locations in depth-first order and reports the first that is lost |
| `PersistedPayload.LocationsComplete` | packages/.github/scripts/check_persisted_settings_compat.py:545-585 | the scanned locations are all locations of the historical payload |
| `PersistedPayload.PreservedIsEmbedded` | packages/.github/scripts/check_persisted_settings_compat.py:545-585 | no path is returned iff the historical payload is embedded in the new one |
| `PersistedPayload.UnpreservedIsFirst` | packages/.github/scripts/check_persisted_settings_compat.py:545-585 | a returned path is the text of the first lost location in depth-first order |
| `PersistedPayload.LossIsReported` | packages/.github/scripts/check_persisted_settings_compat.py:545-585 | a path is reported iff something is missing, of another kind, of another length or another value anywhere, numbers being compared by value |
| `PayloadPasses.ValidateSingleIsExact` | packages/.github/scripts/check_persisted_settings_compat.py:588-656 | a payload passes iff it and its dump load with the current version, the dump declares it, nothing of a payload of that version is lost where that is asked for, and every expected path holds its value |
| `PayloadPasses.FixturePasses` | packages/.github/scripts/check_persisted_settings_compat.py:490-502 | a fixture passes iff its surface is known, its version is not newer and its payload passes |
| `PersistedReleases.AcceptedIsEmbedded` | packages/.github/scripts/check_persisted_settings_compat.py:588-662 | a payload that passes validation is embedded in what the release dumps |
| `PersistedReleases.ReleasesPreserve` | packages/.github/scripts/check_persisted_settings_compat.py:621-634 | after any number of releases that each pass, the payload still holds every original value |
| `PersistedReleases.SeenVersions` | packages/.github/scripts/check_persisted_settings_compat.py:488-503 | the loop stops with the problem of the first fixture that has one, and otherwise has seen exactly the fixtures' versions |
| `PersistedReleases.ValidateFixtureCases` | packages/.github/scripts/check_persisted_settings_compat.py:483-515 | passes iff every fixture passes and no schema version of a surface lacks one; a version it names is missing |
| `Grouping.GroupedSum` | tools/spend.py:123-145 | grouping entries by key and adding the groups gives the sum of the entries |
| `Grouping.ClampOfSum` | tools/spend.py:148-171 | the clamped sum is at most the sum of clamped parts, and equal iff no part pulls against another |
| `Spend.UsageByModel` | tools/spend.py:123-145 | the buckets hold, per model, the sums of everything recorded, in order of first appearance |
| `Spend.PriceTotals` | tools/spend.py:174-189 | the loop's total is the sum of the models' costs, and the unpriced tokens are exactly those of models without rates |
| `Spend.PriceSession` | tools/spend.py:174-189 | a session's total, unpriced tokens and unpriced models, from its recorded services |
| `Prices.PriceOfOneKind` | tools/spend.py:148-171 | fresh prompt tokens cost the miss rate, cache reads the hit rate, completions the output rate, and nothing else is charged |
| `Prices.PriceIsSumOfKinds` | tools/spend.py:148-171 | any usage costs the sum of its three kinds, and reads beyond the prompt leave no fresh tokens |
| `Prices.RoutedName` | tools/spend.py:106-120 | a routing prefix never changes the rates |
| `Prices.CardOfName` | tools/spend.py:106-120 | a name is billed by its own card, a retired one by that of the model that serves it, any other by none; peak rates at peak only |
| `Prices.PeakHours` | tools/spend.py:78-92 | peak is 01:00 to 04:00 and 06:00 to 10:00 on five days, and any unknown time |
| `Prices.ServiceBooks` | tools/spend.py:123-145 | calls go under their models, unnamed ones under "unknown", and the accumulated bucket counts only without calls |
| `Spend.TokensConserved` | tools/spend.py:123-189 | per field, priced plus unpriced tokens equal everything recorded, whatever the table covers |
| `Spend.AggregateAtMostPerCall` | tools/spend.py:148-171 | pricing a model's aggregate costs at most its calls one by one, and equally much iff their fresh portions are of one sign |
| `Spend.SessionAtMostCalls` | tools/spend.py:148-189 | a session costs at most its calls priced one by one, and equally much iff the fresh portions of each priced model are of one sign |
| `Spend.CoveredCallsAddUp` | tools/spend.py:148-189 | equally much in particular when each prompt covers its reads |
| `Spend.PublishedTable` | tools/spend.py:49-62 | the published rates are half off-peak, not negative, and charge for fresh tokens |
| `Spend.CardTwice` | tools/spend.py:106-120 | the peak price of any usage is twice its off-peak price |
| `Spend.UnknownTimeIsUpperBound` | tools/spend.py:81-92 | pricing an unknown start time bounds the price at any start time |
| `Reconcile.Billed` | tools/reconcile_usage.py:47-59 | every bucket of every (period, key, model) holds the sum of what the rows of the export book under it |
| `Reconcile.RowMeans` | tools/reconcile_usage.py:47-59 | requests count whether priced or not, misses and any other metric only if the row has a price |
| `Reconcile.GroupedMiss` | tools/reconcile_usage.py:105-110 | adding the misses of a period's keys gives the misses its rows bill |
| `Reconcile.BilledMisses` | tools/reconcile_usage.py:105-110 | the loop finds the billed misses of every period |
| `Reconcile.DaemonTotals` | tools/reconcile_usage.py:67-86 | per period the sums of prompts and reads of the sessions listed for it |
| `Reconcile.Contradictions` | tools/reconcile_usage.py:140-144 | a period is reported iff it is billed, listed, and the daemon has more misses than were billed |
| `Reconcile.SubmultisetMisses` | tools/reconcile_usage.py:140-144 | some of the calls miss at most as much as all of them |
| `Reconcile.NoFalseContradiction` | tools/reconcile_usage.py:140-144 | if the listed usage of a period is that of calls the key made in it, and its priced rows bill at least the key's misses, the daemon's misses do not exceed the billed ones |
| `DatedCalls.ListedCalls` | tools/reconcile_usage.py:67-86 | when calls stay within the period, what is listed for it adds up to calls whose misses are among those of that day |
| `DatedCalls.StrayReported` | tools/reconcile_usage.py:140-144 | for every call outside the period there are counts and a full bill with which the period is reported |
| `DatedCalls.ContradictionIsReal` | tools/reconcile_usage.py:140-144 | a period is never reported, for all counts and all full bills, iff every call of every session created in it was made in it |
| `Reconcile.ReconcilesExactly` | tools/reconcile_usage.py:140-144 | with all calls listed and prompts that cover their reads the two sides are equal |
| `Reconcile.MidnightFalseAlarm` | tools/reconcile_usage.py:67-86 | a session with calls on two days makes its first day reported although every call was billed |
| `AutoCloseRules.FindLatestAutoCloseComment` | packages/scripts/auto_close_duplicate_issues.py:170-203 | the loop with its three variables settles on the comment of the specification and its canonical issue |
| `AutoCloseRules.ChosenState` | packages/scripts/auto_close_duplicate_issues.py:170-203 | what the scan has settled on after any number of comments |
| `AutoCloseRules.LatestNoticeUsed` | packages/scripts/auto_close_duplicate_issues.py:170-203 | if some candidate's timestamp parses, the notice used is a latest one, ties to the later-listed, iff the first stamped candidate's timestamp parses |
| `AutoCloseRules.BadStampBlocks` | packages/scripts/auto_close_duplicate_issues.py:170-203 | after a candidate with a malformed stamp the notice used is not a latest one, whatever follows |
| `AutoCloseRules.NewerComments` | packages/scripts/auto_close_duplicate_issues.py:423-438 | exactly the human comments later than the notice are collected |
| `AutoCloseRules.HumanMeans` | packages/scripts/auto_close_duplicate_issues.py:241-255 | a comment is human iff its account has an id and a login, is no Bot, is not the automation account and its login does not end in `[bot]`, letter case aside |
| `AutoCloseRules.EligibleMeans` | packages/scripts/auto_close_duplicate_issues.py:366-395 | the script acts on a notice iff it is a latest one, has an id, is not after the cutoff and no malformed timestamp comes first |
| `AutoCloseRules.PlanExact` | packages/scripts/auto_close_duplicate_issues.py:396-455 | the issue is closed iff nothing speaks against it, with the canonical issue of the notice; a veto note is posted iff a thumbs-down has none yet; the label goes if the issue had it or is closed |
| `AutoCloseProtocol.PlanShape` | packages/scripts/auto_close_duplicate_issues.py:354-465 | the requests planned for a snapshot: no second veto note, no closing against a thumbs-down or a newer comment |
| `AutoCloseProtocol.StepKeeps` | packages/scripts/auto_close_duplicate_issues.py:354-465 | every step of the bot and of others keeps the invariant |
| `AutoCloseProtocol.InvHolds` | packages/scripts/auto_close_duplicate_issues.py:354-465 | the invariant holds in every state of every run |
| `AutoCloseProtocol.AtMostOneVetoNote` | packages/scripts/auto_close_duplicate_issues.py:235-291 | over every run at most one veto note is posted on an issue |
| `AutoCloseProtocol.DryRunChangesNothing` | packages/scripts/auto_close_duplicate_issues.py:258-323 | a dry run leaves the issue as others left it |
| `AutoCloseProtocol.GroundedHolds` | packages/scripts/auto_close_duplicate_issues.py:354-465 | in every state of every run, what the bot is about to request follows from states it has read |
| `AutoCloseProtocol.CloseIsJustified` | packages/scripts/auto_close_duplicate_issues.py:294-323 | over every run the bot closes only if its snapshot had a latest notice old enough, no author thumbs-down and no later human comment |
| `AutoCloseProtocol.OnlyCloseIssueCloses` | packages/scripts/auto_close_duplicate_issues.py:294-323 | no other step of the bot closes an issue |
| `AutoCloseOutcome.SessionDoesItsPlan` | packages/scripts/auto_close_duplicate_issues.py:354-465 | from taking up an issue to being done with it, without a failure, the bot carries out exactly what follows from the comments and reactions it read, in order |
| `AutoCloseOutcome.SessionOutcome` | packages/scripts/auto_close_duplicate_issues.py:354-465 | over every such session: with a thumbs-down a veto note is on the issue in the end; without one, and without a later human comment, the issue was closed in it as a duplicate of the notice's issue; otherwise the session does not close it |
| `SummarySection.ScriptLayoutIsLayout` | packages/.github/scripts/update_pr_body_with_rest_api_summary.py:11-20 | the script's markers, headings and notion of space are of the kind the results hold for |
| `SummarySection.SpacesMatch` | packages/.github/scripts/update_pr_body_with_rest_api_summary.py:13-14 | `\s*$` matches space up to a line end, blank lines included, and no such stretch is longer |
| `SummarySection.BoundsMatch` | packages/.github/scripts/update_pr_body_with_rest_api_summary.py:23-34 | the section starts at a line end, ends at a heading or with the text, and has no heading inside |
| `SectionReference.SummaryBoundsIsExact` | packages/.github/scripts/update_pr_body_with_rest_api_summary.py:23-34 | the section found is the Summary section, read off the text: behind the first `##` heading with that title after the first agent line, up to the next heading |
| `SectionReference.ChangeNeedsSection` | packages/.github/scripts/update_pr_body_with_rest_api_summary.py:44-64 | a body changes only if it has an agent line and a Summary heading behind it |
| `SectionReference.BlockAtIsExact` | packages/.github/scripts/update_pr_body_with_rest_api_summary.py:16-20 | the pattern matches a prefix iff it is a block: a start marker that ends its line, the first end marker below that starts one, and a line break around them, with or without carriage return |
| `SectionReference.StripMeans` | packages/.github/scripts/update_pr_body_with_rest_api_summary.py:37-41 | stripping takes away the space at both ends and nothing else |
| `SectionReference.ScriptTexts` | packages/.github/scripts/update_pr_body_with_rest_api_summary.py:11-20 | the agent word, the title and the characters taken for space |
| `SectionReference.MarkerText` | packages/.github/scripts/update_pr_body_with_rest_api_summary.py:11-12 | the text of both markers |
| `WrittenBlock.WrittenIsBlock` | packages/.github/scripts/update_pr_body_with_rest_api_summary.py:16-41 | the block a run writes is matched as one block, and removing it leaves two newlines |
| `WrittenBlock.WrittenMarkerOnce` | packages/.github/scripts/update_pr_body_with_rest_api_summary.py:37-41 | the start marker stands in it exactly once |
| `GeneratedBlock.NothingReplaced` | packages/.github/scripts/update_pr_body_with_rest_api_summary.py:16-20 | text in which no block opens is copied unchanged |
| `GeneratedBlock.TailCleaned` | packages/.github/scripts/update_pr_body_with_rest_api_summary.py:37-64 | removing blocks from author text and what a run wrote after it gives back the author text |
| `LastWriter.BoundsMove` | packages/.github/scripts/update_pr_body_with_rest_api_summary.py:23-34 | a text that agrees with the body up to the section has its section start at the end of that space, and end at the next heading |
| `LastWriter.UpdateRebuilds` | packages/.github/scripts/update_pr_body_with_rest_api_summary.py:44-64 | on a section with author text an update writes that text and the new block, or nothing |
| `LastWriter.LastWriterWins` | packages/.github/scripts/update_pr_body_with_rest_api_summary.py:44-64 | an update and then a non-empty one equal the second alone, and the body stays fit for the next |
| `LastWriter.LastOfManyWins` | packages/.github/scripts/update_pr_body_with_rest_api_summary.py:44-64 | over any number of updates the result is that of the last non-empty summary alone |
| `LastWriter.OneBlockRemains` | packages/.github/scripts/update_pr_body_with_rest_api_summary.py:44-64 | the section of an updated body is author text and one block: a block is matched only there, it is the block just written, and the start marker stands only there unless the author mentions it |
| `FreshBody.OutsideUntouched` | packages/.github/scripts/update_pr_body_with_rest_api_summary.py:44-64 | text outside the section stays as it is, on every body |
| `FreshBody.FreshIsReady` | packages/.github/scripts/update_pr_body_with_rest_api_summary.py:23-64 | what that condition is on a section with text and no marker: the body does not end in a line of two hashes |
| `FreshBody.BlockLeftBehind` | packages/.github/scripts/update_pr_body_with_rest_api_summary.py:23-64 | on a body that does, the block written is outside the section the next update finds |
| `FreshBody.LastWriterLoses` | packages/.github/scripts/update_pr_body_with_rest_api_summary.py:23-64 | there two updates never equal the second alone, whatever the two summaries are |
| `FreshBody.BlankLinesGrow` | packages/.github/scripts/update_pr_body_with_rest_api_summary.py:23-64 | on a section without text two updates are the second alone with one more newline, so they never equal it |
| `BlockRemoved.EmptySummaryRemovesBlock` | packages/.github/scripts/update_pr_body_with_rest_api_summary.py:44-64 | an empty summary after any other leaves the author's text and a newline in the section |
| `BlockRemoved.EmptySummaryOnBlank` | packages/.github/scripts/update_pr_body_with_rest_api_summary.py:44-64 | on a section without text it takes the block away and leaves two newlines |
| `BlockRemoved.EmptySummaryChangesNothing` | packages/.github/scripts/update_pr_body_with_rest_api_summary.py:44-48 | without the start marker in the body it changes nothing |
| `FreshBody.LastWriterIsExact` | packages/.github/scripts/update_pr_body_with_rest_api_summary.py:23-64 | on a section without the start marker two updates equal the second for all plain summaries iff the section has text and the body does not end in a line of two hashes |
| `UnclosedMarker.TextShrinks` | packages/.github/scripts/update_pr_body_with_rest_api_summary.py:16-20 | removing blocks from text and a written block behind it leaves at most the text, and less if a line of the text ends in the start marker |
| `LastWriterExact.OpenedLosesText` | packages/.github/scripts/update_pr_body_with_rest_api_summary.py:23-64 | on a section in which such a line is left, two updates always leave less than the second alone: author text is deleted |
| `LastWriterExact.CutKeepsBlock` | packages/.github/scripts/update_pr_body_with_rest_api_summary.py:23-64 | on a section with a line that becomes a heading, first summaries of different length leave different bodies after the second update |
| `LastWriterExact.ReadyIsExact` | packages/.github/scripts/update_pr_body_with_rest_api_summary.py:23-64 | on every body with a Summary section two updates equal the second, for all plain first and non-empty second summaries, iff what the first update keeps of the section has text, no line ending in the start marker and no line that becomes a heading |
| `SkillName.NameIsWellFormed` | packages/scripts/convert_legacy_skills.py:35 | the pattern, character by character |
| `SkillName.NormalizeShape` | packages/scripts/convert_legacy_skills.py:38-49 | the result is empty or matches the pattern, and its parts are the words of the lower-cased name |
| `SkillName.FixedPoints` | packages/scripts/convert_legacy_skills.py:38-49 | a name is left alone iff it is empty or matches the pattern without a final newline |
| `SkillName.NormalizeIdempotent` | packages/scripts/convert_legacy_skills.py:38-49 | normalising twice is normalising once |
| `SkillName.ValidateSkillName` | packages/scripts/convert_legacy_skills.py:52-65 | a name passes iff it has at most 64 characters and, but for a final newline, is letters and digits with single hyphens between; each error stands for the one thing that is wrong |
| `SkillName.ConvertName` | packages/scripts/convert_legacy_skills.py:118-120 | after normalisation a name is rejected only for being empty or longer than 64 |
| `SkillName.ValidatedIsFixed` | packages/scripts/convert_legacy_skills.py:52-65 | a name that matches is a fixed point iff it does not end in a newline |
| `SkillName.FinalNewlineMatches` | packages/scripts/convert_legacy_skills.py:52-65 | every name of the pattern with a newline behind it matches and is changed by normalisation |

## Left out

- HTTP, git, subprocesses, PyPI, OSV, GitHub and the daemon: their results are inputs, or steps of others in `AutoCloseProtocol`.
- griffe, oasdiff, pydantic, `packaging`, `ast.parse` and `difflib`: syntax trees, change records, versions and releases are values; the text of a contract diff is not modelled beyond being empty when the flattened contracts are equal.
- Version strings: versions are major, minor and patch numbers with an optional pre-release number; epochs, post- and dev-releases and the parsing of version text are not part of this model.
- Date-based `removed_in` values: `Lifecycle` covers version-based schedules, which are the only ones the removal check reads.
- Floating point: prices, rates and JSON numbers are exact reals, without NaN and infinities.
- JsonPointer.ResolvePointer: `int()` on spaces, underscores or digits outside ASCII is not modelled; a sign and leading zeros are.
- OpenApiQuality.CheckAllowlist: complaints are values instead of text, and the sorted order of new and stale locations is left open.
- BoundRewrite.NormalizeOpenapi: dicts are rewritten as values, so two places that share one dict object are not modelled.
- ChangePipeline.Classify: the regular expressions for extensible discriminators and type widenings are arbitrary functions; removed operations are known by their details.
- ChangePipeline.ValidateRemovedOperations: the reading of a removal version from a description is an arbitrary function, and a version that does not parse, on which the script exits, counts as none.
- ChangePipeline.ValidateRemovedProperties: the same; which of several versions is read first, and so whether one that does not parse stops the script, depends on the order of the schema's keys.
- ChangePipeline.Verdict: the policy checks that come before the report are known by their numbers of errors; a missing baseline, a schema that cannot be generated and an oasdiff failure are not modelled.
- PublicContract.FlattenPublicContract: the lines of one operation and of one component are arbitrary functions of it, and the sorted order of the lines is left open.
- NewlineEscape.EscapePreservesMeaning: string prefixes and triple quotes are unknown to the escaping loop and to the model.
- FieldDiff.ClassesCover: expressions are compared by their dump, and parsing a value to a call is an arbitrary function.
- AutoCloseProtocol.AtMostOneVetoNote: comments are not deleted or edited; a deleted note could be posted again.
- AutoCloseProtocol.CloseIsJustified: a comment body is known by the markers it contains.
- PayloadPasses.FixturePasses: a fixture of an unknown surface, on which the script stops with a KeyError, counts as not passing.
- PersistedPayload.PreservedIsEmbedded: payloads are JSON-like trees with distinct keys.
- PayloadPasses.ValidateSingleIsExact: the same, for payloads, dumps and expected values.
- PersistedReleases.ReleasesPreserve: a loader that changes the raw payload it is given is not modelled.
- SkillName.NormalizeShape: lower-casing is an arbitrary function; the results on fixed points ask that it leaves lower-case letters, digits and hyphens alone. Elsewhere lower-casing is that of ASCII letters.
- Reconcile.Billed: the billed cost, a sum that is only printed, is not modelled.
- LastWriter.LastWriterWins: asks that earlier summaries hold neither the end marker nor headings.
- Report text, printing, argument parsing, file handling and the scripts not named above, whose logic is settled by reading one branch.
