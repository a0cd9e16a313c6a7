# RustForge, verified

A Dafny model of the parts of RustForge where a mistake would be hard to see: protocols that
run across awaits and two stores, parsers that must undo a printer, printers a reader must be
able to undo, loops with a budget, and normalisers. Every module follows one component of the
program. Code that changes state step by step is a class or a method with loops, proved equal to
a function on values; what the component promises is then proved about that function for every
input, every run and every schedule of failures.

Check the project with `dafny verify dfyconfig.toml`.

## Modules

- `MissionStore`, `MissionRuns`, `MissionLaws`, `MissionEndings`, `MissionDisplay`: the assessment mission store, whose operations
  start, wait and resume while others start and projects switch. Each stretch between two awaits is
  one method; a run is any sequence of calls, replies, failures, backend events and timers.
- `SelectionQueue`: the queue of project selections in front of the backend.
- `ProviderVault`, `ProviderSafety`, `ProviderOutcome`: the provider update over a database row and a credential
  store, with compensation. Every store operation may work, fail, or fail after taking effect.
- `ReportPair`: two report files, created together or not at all.
- `JsonBalanced`, `JsonExtraction`, `JsonChoice`: finding JSON in a model's answer.
- `TemplateRenderer`: one-pass prompt templates.
- `Utf8`, `InputFraming`, `ContextBudget`, `ContextGates`: the bytes that are hashed, what is sent of
  a body, and fitting bodies into the context budget.
- `MarkdownText`, `MarkdownBlocks`, `MarkdownCode`: escaping for reports, against readers written
  from CommonMark 0.31.2 (sections 2.1, 2.4, 2.5, 4.3 to 4.5, 5.2 and 6.1).
- `RedactionManifest`, `JsonTree`, `JsonRedaction`, `Multipart`, `MultipartRoundTrip`: redaction of
  JSON values and multipart forms.
- `Crawl`, `CrawlOrder`, `Discovery`: the crawl worklist.
- `TrafficDigest`, `EndpointRanking`: aggregation and ranking of traffic.
- `Calibration`, `Grounding`, `Acceptance`, `Revalidation`: validation of hypotheses.
- `PlanShapes`: plan trees.
- `Wrappers`, `Text`: optional values, results, and strings.

## What the proofs turned up

Where the code does less than one would expect, the model keeps the code and states the exact
condition:

- A timed reload that fails after a project switch leaves its error on the next project's screen
  (`MissionDisplay.StaleErrorsComeFromReloads`).
- A refresh can leave the detail of one mission on the screen while another is selected
  (`MissionDisplay.DetailLeavesSelectionOnlyOnDrop`).
- A created mission whose preview fails is shown with the context of the mission before it
  (`MissionDisplay.ContextLeavesSelectionIffReplaced`).
- The project shown can stay behind the persisted one when a load overlaps a selection, when a
  recovery read fails, or when the written project is not listed
  (`SelectionQueue.SyncIsLostOnlyByThree`).
- Provider ids are compared as written but stored trimmed, so replacing a provider by one whose
  id differs only in outer spaces deletes the credential of the new one; and a failing read of the
  old list counts as an empty list (`ProviderSafety`).
- Escaped text can still open a list, a fence, a heading or indented code: the printer knows two
  forms of list marker and one line ending, and leaves indentation alone
  (`MarkdownBlocks.PrintedOpensIffMissed`).
- A multipart form whose content holds its delimiter in the middle of a line, which RFC 2046
  allows, is read as other parts than it was written with, or not at all
  (`MultipartRoundTrip.FormIsReadIff`). The content of a file is dropped either way, so what is made
  of such a form can still agree.
- A code span whose value is empty, or only spaces and line endings, is not read back
  (`MarkdownCode.InlineCodeReadsBackIff`).
- The candidate popped when the crawl's budget is spent leaves no gap of its own
  (`Discovery.BudgetGapIffTwoLeft`).
- A stop condition ends the crawl, and the further identities still ask the start URL
  (`Discovery.StopIsFollowedIffReady`).
- A second validation can turn an ungrounded hypothesis into a grounded one
  (`Revalidation.HypothesisTwice`).

## Model

| member | source | states |
|---|---|---|
| MissionStore.Store.ActivateProject | src/stores/assessmentMission.ts:80-100 | a switch drops everything shown, both owners, the last event and the timer, and takes a new generation; activating the open project does nothing |
| MissionStore.Store.MergeMission | src/stores/assessmentMission.ts:102-107 | the list becomes the merged list of `MergeReplacesOrAdds` |
| MissionStore.MergeReplacesOrAdds | src/stores/assessmentMission.ts:102-107 | merging keeps all other missions, puts the new one in place of its first namesake or adds it, and leaves newer ids first |
| MissionStore.Store.BeginRefresh | src/stores/assessmentMission.ts:109-116 | the synchronous start of `refresh`: new generation, loading owned by it, any mutation disowned |
| MissionStore.Store.ResumeRefresh | src/stores/assessmentMission.ts:122-132 | fresh lists are taken only by the current owner of the open project; a selection no longer listed moves to the first mission, and an empty list clears what is shown |
| MissionStore.Store.ReleaseLoading | src/stores/assessmentMission.ts:139-144 | only the loading owner lowers the loading flag |
| MissionStore.Store.ResumeLoadDetail | src/stores/assessmentMission.ts:152-165 | a detail is shown only while project, selection and generation are those of its request; a legacy mission clears the context |
| MissionStore.Store.ResumeLoadContext | src/stores/assessmentMission.ts:166-183 | the same three checks for the context, on success and on failure |
| MissionStore.Store.SelectMission | src/stores/assessmentMission.ts:186-199 | selecting a listed mission clears what was shown and takes a new generation and the loading flag; otherwise nothing changes |
| MissionStore.Store.ApplyDetail | src/stores/assessmentMission.ts:210-218 | a detail of another project is refused; one of this project is shown, selected and merged |
| MissionStore.Store.BeginMutation | src/stores/assessmentMission.ts:220-233 | a mutation starts only on the open project and selected mission; it takes a new generation, disowns loading and owns the mutating flag |
| MissionStore.Store.FinishMutation | src/stores/assessmentMission.ts:244-248 | only the mutation owner lowers the mutating flag |
| MissionStore.Store.OnEvent | src/stores/assessmentMission.ts:504-533 | an event of the open project, not seen before, is kept as the last event, updates its mission unless it is older, and arms the timer when the mission is selected |
| MissionStore.Store.SetToolPermissions | src/stores/assessmentMission.ts:444-445 | fresh permissions go into the detail shown, if there is one, and nowhere else |
| MissionStore.Store.TimerFires | src/stores/assessmentMission.ts:523-533 | the timer waits while a mutation runs, and otherwise starts a reload under a new generation |
| MissionRuns.BusyFlagsTellTheTruth | src/stores/assessmentMission.ts:80-248 | in every reachable state, over all interleavings of calls, replies, failures, events and project switches: each flag is up exactly when its owner is set, the owner is an operation still in flight, a mutation owner is the current generation, the flags are never both up, and with nothing in flight both are down |
| MissionRuns.OnlyTheCurrentOperationWrites | src/stores/assessmentMission.ts:147-184 | a reply that changes the detail or the context is one of the current generation |
| MissionRuns.LaterWritesAreNotOlder | src/stores/assessmentMission.ts:109-248 | over every run the generations of successive writes never fall, and none is older than the generation at the start of the run |
| MissionLaws.EverythingBelongsToWorkspace | src/stores/assessmentMission.ts:80-218 | if lists, too, are answered for the project asked about, then in every run all missions listed and the last event belong to the open project, and the selected mission is in the list |
| MissionLaws.SwitchStartsAfresh | src/stores/assessmentMission.ts:80-100 | a switch leaves no mission, profile, selection, detail, context, event, error, timer or flag of the old project, and disowns every operation in flight |
| MissionLaws.StartsAreNewest | src/stores/assessmentMission.ts:109-248 | an operation that a step starts takes a generation newer than that of any operation in flight |
| MissionLaws.EventUpdates | src/stores/assessmentMission.ts:514-520 | an event gives the first mission with its id the new status and time, unless it is older, and leaves all else in the list alone |
| MissionEndings.LoadFails | src/stores/assessmentMission.ts:147-207 | a load whose detail cannot be read shows nothing new and lowers its flag; a refresh and a timed reload leave their error, a selection and a handoff leave none |
| MissionEndings.PreviewFails | src/stores/assessmentMission.ts:166-184 | a load whose preview fails shows the detail without a context, and no error |
| MissionEndings.RefreshEnds | src/stores/assessmentMission.ts:109-145 | an undisturbed refresh ends with the lists on the screen and the mission selected before, if it is still listed, or else the first one, with its detail and context, and no flag up |
| MissionEndings.RefreshEndsEarly | src/stores/assessmentMission.ts:117-145 | one of a project without missions ends with nothing shown, and one that fails with its error and all else as it was |
| MissionEndings.SelectEnds | src/stores/assessmentMission.ts:147-207 | an undisturbed selection ends with the selected mission's detail and context on the screen, and no flag up |
| MissionEndings.ReloadEnds | src/stores/assessmentMission.ts:523-533 | so does a reload that the timer starts |
| MissionEndings.CreateEnds | src/stores/assessmentMission.ts:250-272 | an undisturbed creation ends with the new mission listed, selected and shown with its context, and no flag up |
| MissionEndings.DetailMutationEnds | src/stores/assessmentMission.ts:220-248 | so does an undisturbed change that answers with the mission's new detail, with the context unless the change keeps the one shown |
| MissionEndings.ImportIsChange | src/stores/assessmentMission.ts:324-347 | once a file is picked its import is such a change, with the same state and the same request; without one nothing happens |
| MissionEndings.PermissionsEnd | src/stores/assessmentMission.ts:429-459 | new permissions go into the detail shown, and the context is asked for again |
| MissionEndings.HandoffEnds | src/stores/assessmentMission.ts:480-502 | a handoff reloads the mission it belongs to |
| MissionEndings.FailedMutationEnds | src/stores/assessmentMission.ts:234-248 | a change that fails leaves everything shown as it was, the error line included, with no flag up |
| MissionEndings.EventIsTaken | src/stores/assessmentMission.ts:504-533 | an event of the open project not seen before is kept, and arms the timer exactly if its mission is selected; any other event changes nothing |
| MissionEndings.TimerIsKept | src/stores/assessmentMission.ts:521-545 | the reload an event asked for is not forgotten: in every step the timer stays up unless the reload starts, nothing is left to reload, the project switches or the events are unbound |
| MissionDisplay.ShownBelongsToWorkspace | src/stores/assessmentMission.ts:147-218 | if the backend answers for the mission it was asked about, a shown detail or context belongs to the open project, in every run |
| MissionDisplay.DetailLeavesSelectionOnlyOnDrop | src/stores/assessmentMission.ts:122-132 | the detail shown stays that of the selected mission in every step except one, exactly: fresh lists, not empty, that no longer hold the mission shown |
| MissionDisplay.MutationsStartOnSelected | src/stores/assessmentMission.ts:220-233 | every step that sends a mutation for an existing mission, called at once or after a file was picked, happens while that mission is selected in the open project, and leaves the mutating flag up and owned by the new generation |
| MissionDisplay.ContextLeavesSelectionIffReplaced | src/stores/assessmentMission.ts:122-270 | the context shown, whose hash a confirmation sends, stays that of the selected mission in every step except two kinds, exactly: fresh lists that no longer hold its mission, and an applied detail of another mission |
| MissionDisplay.CreateCanKeepOldContext | src/stores/assessmentMission.ts:250-270 | a concrete run: a mission is created and its preview fails; the new mission is shown with the context of the old one, with nothing in flight |
| MissionDisplay.StaleErrorsComeFromReloads | src/stores/assessmentMission.ts:529-531 | an operation that is no longer current changes the error on the screen exactly when it is a failed timed reload, whose handler has no owner check |
| MissionDisplay.StaleReloadErrorReachesNextProject | src/stores/assessmentMission.ts:523-533 | a concrete run: the error of project 1's reload stays on the screen of project 2, with nothing in flight |
| MissionDisplay.RefreshCanPartDetailFromSelection | src/stores/assessmentMission.ts:122-133 | a concrete run that ends quiet with one mission selected and the detail of another shown |
| SelectionQueue.ProjectStore.TakeIntent | src/stores/project.ts:29-30 | each selection takes the next intent |
| SelectionQueue.ProjectStore.WriteSucceeded | src/stores/project.ts:37-40 | after a write only the newest intent changes what is shown, to its project or to nothing if that is not listed |
| SelectionQueue.ProjectStore.SetProjects | src/stores/project.ts:21 | a fresh list replaces the projects and not what is shown |
| SelectionQueue.ProjectStore.ShowProject | src/stores/project.ts:22 | what the backend holds is shown, whatever the list says |
| SelectionQueue.WritesAreSerialAndInOrder | src/stores/project.ts:29-50 | in every run at most one operation talks to the backend, and writes are issued in the order of the selections |
| SelectionQueue.OnlySupersededAreSkipped | src/stores/project.ts:29-37 | in every run a selection goes to the backend at its turn if and only if none has been made since; so the newest is never skipped, and once it no longer waits its write is the last issued |
| SelectionQueue.QueueNeverStalls | src/stores/project.ts:31-48 | whatever has failed, the first unsettled operation of the chain can move |
| SelectionQueue.QuietShowsPersisted | src/stores/project.ts:20-50 | in every run without one of the three events of `SyncIsLostOnlyByThree`, however selections, effects and replies of writes, loads and failures interleave: once all selections have settled, after at least one, the screen shows the persisted project |
| SelectionQueue.ConfirmedSelectionIsPersisted | src/stores/project.ts:28-50 | in every run the i-th operation carries the i-th project selected and its confirmation finds that project persisted; if it is the newest, all is then quiet and the screen shows that project, or nothing if it is not listed |
| SelectionQueue.QuietKeepsPersisted | src/stores/project.ts:20-50 | in a quiet moment nothing but a new selection can lead to a change of what is persisted |
| SelectionQueue.SyncIsLostOnlyByThree | src/stores/project.ts:20-50 | the exact step: from any state in step with its history and in agreement whenever quiet, an event keeps that if and only if it is none of three: the newest write stores a project not listed; the newest recovery read fails after a write that changed what is persisted; a load answers in a quiet moment with what it read before such a write |
| SelectionQueue.OverlappingLoadShowsOldProject | src/stores/project.ts:20-23 | a concrete run: a load that overlaps a selection leaves the old project on the screen for good |
| SelectionQueue.LostRecoveryReadShowsOldProject | src/stores/project.ts:41-46 | a concrete run: a write that took effect and failed, and whose recovery read fails, leaves the two apart |
| SelectionQueue.UnlistedWriteShowsNothing | src/stores/project.ts:38-40 | a concrete run: a confirmed write of a project that is not listed leaves the screen empty |
| ProviderVault.SecretIdIsInjectiveOnTrimmed | src-tauri/src/secrets.rs:100-111 | two trimmed provider ids share a credential only if they are equal |
| ProviderVault.RemovedIsTheDifference | src-tauri/src/commands.rs:571-576 | the removed providers are those whose id the new list lacks |
| ProviderVault.Stores.SetProviderMetadata | src-tauri/src/commands.rs:563-619 | the whole command under any schedule of faults: its outcome and both stores are those of the specification `SetProviders` |
| ProviderVault.Stores.CollectCredentials | src-tauri/src/commands.rs:572-580 | the credentials of all removed providers are read before anything is written, or the command stops |
| ProviderVault.Stores.DeleteCredentials | src-tauri/src/commands.rs:591-617 | the deletes, and on the first failure the recovery |
| ProviderVault.Stores.Recover | src-tauri/src/commands.rs:592-616 | recovery tries every restore, then writes the old row, and reports completeness only if all of it worked |
| ProviderVault.ValidIdsAre | src-tauri/src/secrets.rs:100-111 | the ids accepted are those of 1 to 96 letters, digits, hyphens, underscores and full stops, with any white space around them |
| ProviderOutcome.OutcomeIsForetold | src-tauri/src/commands.rs:563-619 | for acceptable lists the schedule of faults decides the outcome, exactly: refused if and only if a credential read or the row write fails, undone if and only if those work and a delete fails, completely so if and only if every restoring `set` and the write of the old row work too, and done in every other case |
| ProviderOutcome.DoneIffDiffer | src-tauri/src/commands.rs:295-305 | without faults an update is done if and only if in both lists every id is valid and there are as many different ids as providers; any other is refused before a store is asked |
| ProviderSafety.UpdateIsCrashSafe | src-tauri/src/commands.rs:563-619 | after every single store operation each listed provider has its original credential unless a restoring `set` for it failed; success leaves exactly the new list with the removed credentials gone and the kept ones untouched; a complete recovery leaves both stores as they were |
| ProviderSafety.TrimmedIdsAreHarmless | src-tauri/src/secrets.rs:100-111 | with trimmed ids the condition of the safety theorem always holds |
| ProviderSafety.SafeUnderAllFaultsIffHarmless | src-tauri/src/commands.rs:295-305 | the command is safe under all fault schedules if and only if no removed provider shares a stored credential with a listed one |
| ProviderSafety.ClashLosesCredential | src-tauri/src/commands.rs:591-618 | otherwise it deletes the credential of a listed provider, without a single fault |
| ProviderSafety.UntrimmedIdLosesListedKey | src-tauri/src/commands.rs:571-576 | a concrete pair of lists the command accepts and that clash: ids are compared raw and stored trimmed |
| ProviderSafety.FailedReadKeepsRemovedCredentials | src-tauri/src/commands.rs:98-103 | a failing read of the old row counts as an empty list; the update then is safe after every operation and deletes no credential, which is right exactly when the dropped providers had none |
| ReportPair.Directory.WriteReportPair | src-tauri/src/commands.rs:4253-4309 | the directory, the attempts, creations, writes and removals in order, under any faults |
| ReportPair.PairIsAtomic | src-tauri/src/commands.rs:4253-4309 | on success exactly the two files are new, under free names and with the report in them; on failure nothing is; files that were there are untouched; and anything else is left behind exactly when a removal failed |
| ReportPair.FirstFreeNameIsUsed | src-tauri/src/commands.rs:4253-4309 | the pair gets the first of a hundred names of which both are free; there are too many conflicts only if none is; and every other failure has a fault behind it |
| JsonBalanced.BalancedJsonEnd | src-tauri/src/ai/json_balanced.rs:20-61 | the byte loop computes the specified scan |
| JsonBalanced.BalancedEndIffFragment | src-tauri/src/ai/json_balanced.rs:20-61 | the scan returns an end if and only if the text up to it is one properly nested bracket word outside string literals, at most 64 deep, and there is at most one such end |
| JsonExtraction.JsonCandidateStarts | src-tauri/src/ai/json_balanced.rs:63-87 | the loop lists the opening brackets outside string literals |
| JsonExtraction.ParseLlmJson | src-tauri/src/ai/json_balanced.rs:94-113 | the loop tries the candidates in order and keeps the last failure |
| JsonExtraction.ContainerIsFragment | src-tauri/src/ai/json_balanced.rs:20-61 | an array or object printed in any way RFC 8259 allows is such a word, wherever it stands |
| JsonChoice.ExtractsIffOutcome | src-tauri/src/ai/json_balanced.rs:94-113 | for every text and every deserialiser, exactly: the value is that of the first balanced fragment, at a bracket outside string literals, that deserialises; there is no JSON if and only if there is no such bracket; otherwise the failure is that of the last balanced fragment, or that none was complete |
| JsonChoice.ExtractionRecoversText | src-tauri/src/ai/json_balanced.rs:8-113 | any printed array or object nested at most 64 deep is what is deserialised, fenced or not and before any text, after any prose that leaves no string literal open and whose own bracketed fragments do not deserialise |
| JsonChoice.HarmlessProse | src-tauri/src/ai/json_balanced.rs:63-87 | prose without quotation marks or opening brackets is of that kind |
| TemplateRenderer.RenderTokens | src-tauri/src/ai/prompts.rs:120-140 | the cursor loop renders what filling the split of the template gives |
| TemplateRenderer.FirstMatchWins | src-tauri/src/ai/prompts.rs:120-140 | at a brace the first entry of the table whose placeholder stands there gives the text, and a brace where none does stays |
| TemplateRenderer.SplitLosesNothing | src-tauri/src/ai/prompts.rs:120-140 | the split depends on the template alone and loses nothing of it |
| TemplateRenderer.RenderedLength | src-tauri/src/ai/prompts.rs:117-140 | the output is as long as the template, less the placeholders replaced, plus the values: inserted text is never scanned |
| TemplateRenderer.TableOrderDoesNotMatter | src-tauri/src/ai/prompts.rs:127-130 | tables with the same entries render alike when no placeholder that starts with a brace begins another |
| TemplateRenderer.BracedTableIsPrefixFree | src-tauri/src/ai/prompts.rs:142-155 | none does among different placeholders in braces, as the program's are |
| TemplateRenderer.OrderNeverMattersIffPrefixFree | src-tauri/src/ai/prompts.rs:120-140 | that condition is exact: any order of the entries gives the same text, for all values and templates, if and only if no placeholder that starts with a brace begins another |
| TemplateRenderer.ValidateTemplate | src-tauri/src/ai/prompts.rs:157-171 | the checks of the validator, in order |
| TemplateRenderer.SlotsAreOccurrences | src-tauri/src/ai/prompts.rs:120-140 | the renderer replaces every occurrence of a placeholder and nothing else |
| TemplateRenderer.AcceptedTemplatesHaveOneSlotEach | src-tauri/src/ai/prompts.rs:142-171 | a template is accepted if and only if it is not blank, fits the size limit, and the renderer fills the request and the response exactly once each |
| InputFraming.FeedParts | src-tauri/src/ai/context.rs:435-442 | the loop feeds the framed parts to the hash |
| InputFraming.DeframeRecoversParts | src-tauri/src/ai/context.rs:435-442 | a reader gets the list of parts back from the bytes fed, if each part is shorter than 2^64 bytes |
| InputFraming.FramingIsInjective | src-tauri/src/ai/context.rs:435-442 | two lists feed the same bytes if and only if they are equal |
| InputFraming.LengthBoundIsTwoToThe64 | src-tauri/src/ai/context.rs:435-442 | the bound on a part's length is that of the 64-bit field in front of it |
| Utf8.BoundarySplits | src-tauri/src/ai/context.rs:146-158 | cutting UTF-8 text at a character boundary leaves UTF-8 on both sides |
| ContextBudget.TruncateUtf8 | src-tauri/src/ai/context.rs:146-158 | the boundary loop finds the specified cut |
| ContextBudget.TruncatedIsLongestValid | src-tauri/src/ai/context.rs:146-158 | truncation keeps the longest beginning within the limit that is still UTF-8 |
| ContextBudget.MarkedFits | src-tauri/src/ai/context.rs:160-170 | with the marker appended the text is UTF-8 and within the limit |
| ContextBudget.ProgramMarkers | src-tauri/src/ai/context.rs:23-24 | both markers of the program are UTF-8 and not empty, as the theorems ask of a marker |
| ContextBudget.SentIffPermittedAndFits | src-tauri/src/ai/context.rs:199-345 | a body is sent if and only if the policy permits it, its limit is not zero, redaction leaves something, and some of that fits; it is then UTF-8 within the limit |
| ContextBudget.ReasonTellsWhatHappened | src-tauri/src/ai/context.rs:199-345 | the reason recorded says included exactly when the body is sent, and names a permission the policy gave; the truncation flag is up exactly when the policy limit cut or dropped it |
| ContextGates.OnlyRedactedTextIsSent | src-tauri/src/ai/context.rs:199-345 | what is sent is all of the redacted text if it fits the limit, and otherwise the longest beginning that leaves room for the marker, and the marker |
| ContextGates.FirstGateGivesReason | src-tauri/src/ai/context.rs:199-345 | the gates that hold a body back stand in one order, and the reason recorded is that of the first that does |
| ContextGates.PermissionIsNamed | src-tauri/src/ai/context.rs:199-345 | a body that is sent names the first permission that it needed |
| ContextBudget.FitBodies | src-tauri/src/ai/context.rs:537-588 | the shortening loop computes `Shrink`, and ends |
| ContextBudget.ShrinkCounts | src-tauri/src/ai/context.rs:539-588 | every iteration removes at least one byte and records one omission, and none leaves the bodies as they were |
| ContextBudget.ShrinkFits | src-tauri/src/ai/context.rs:539-588 | on success the prompt is within the limit, each body is as it was, gone, or a beginning of itself with one marker behind it, and valid UTF-8, and the request is untouched unless the response is gone; on failure the prompt is too large even without both bodies |
| ContextBudget.CutKeepsWhatFits | src-tauri/src/ai/context.rs:560-587 | a cut removes the overflow or 256 bytes, whichever is more, and drops nothing that would fit: the body keeps its longest UTF-8 beginning that leaves room for the marker, and goes only if there is no such room |
| ContextBudget.EvidenceRefs | src-tauri/src/ai/context.rs:601-617 | the evidence references are distinct, and a body is among them if and only if it is sent |
| ContextBudget.DecisionsAgreeWithBodies | src-tauri/src/ai/context.rs:590-600 | a decision says included exactly when bytes are sent, and truncated exactly when policy or loop cut something |
| MarkdownText.MarkdownText | src-tauri/src/report.rs:3675-3694 | the three passes produce the specified text |
| MarkdownText.TwoPassesMakePieces | src-tauri/src/report.rs:3676-3688 | the first two passes together escape character by character |
| MarkdownText.JoinedLines | src-tauri/src/report.rs:3689-3693 | splitting into lines and joining them turns CRLF into LF and drops a final line ending, nothing else |
| MarkdownText.PrintedReadsBack | src-tauri/src/report.rs:3675-3710 | for every value, one left-to-right reader of backslash escapes and entities gets the value back, up to those line endings, and meets no structural character or HTML delimiter outside an escape |
| MarkdownBlocks.PrintedOpensIffMissed | src-tauri/src/report.rs:3656-3710 | for every value, and for each of list items, tilde fences, setext underlines and indented code as CommonMark defines them: some line of the output opens one if and only if some line of the value is of a form the printer misses (a bare marker, one before a tab, digits before a parenthesis, tildes, an underline, an indentation, or anything after a lone carriage return) |
| MarkdownBlocks.BareHyphenGetsThrough | src-tauri/src/report.rs:3696-3710 | a value that is one hyphen comes out as it is, an empty list item |
| MarkdownBlocks.ParenthesisGetsThrough | src-tauri/src/report.rs:3698-3702 | so does every ordered list item whose number ends in a parenthesis |
| MarkdownBlocks.TildeFenceGetsThrough | src-tauri/src/report.rs:3656-3710 | so does a tilde fence, which would take in what follows it in the report |
| MarkdownBlocks.UnderlineGetsThrough | src-tauri/src/report.rs:3656-3710 | so does an underline, which makes a heading of the paragraph above it |
| MarkdownBlocks.ItemAfterReturnGetsThrough | src-tauri/src/report.rs:3689-3693 | so does any bullet item after a lone carriage return, even with the markers the printer knows |
| MarkdownBlocks.IndentedCodeShowsEscapes | src-tauri/src/report.rs:3696-3710 | a structural character behind four or more spaces gets its backslash inside indented code, where a reader takes it literally |
| MarkdownCode.LongestRun | src-tauri/src/report.rs:3732-3744 | the counting loop computes the longest run |
| MarkdownCode.LongestBoundsRuns | src-tauri/src/report.rs:3732-3744 | no run of the character is longer |
| MarkdownCode.LongestIsAttained | src-tauri/src/report.rs:3732-3744 | and one is as long |
| MarkdownCode.InlineCodeReadsBackIff | src-tauri/src/report.rs:3712-3725 | a reader of code spans gets the value back, with line endings as spaces, if and only if it holds anything besides spaces and line endings |
| MarkdownCode.Report.PushCodeBlock | src-tauri/src/report.rs:3727-3730 | the block is appended to the report |
| MarkdownCode.NoLineCloses | src-tauri/src/report.rs:3727-3730 | no line of a value can close a fence longer than the value's backtick runs |
| MarkdownCode.CodeBlockReadsBack | src-tauri/src/report.rs:3727-3730 | a reader of fenced blocks finds exactly the value's lines, whatever the value and what follows |
| RedactionManifest.Log.RecordRedaction | src-tauri/src/ai/redaction.rs:52-66 | the search loop counts the redaction in its record or adds one |
| RedactionManifest.RecordedCounts | src-tauri/src/ai/redaction.rs:52-66 | recording adds one to its own location and kind and nothing to any other |
| RedactionManifest.RecordedKeepsKeysDistinct | src-tauri/src/ai/redaction.rs:52-66 | there is never more than one record for a location and kind |
| RedactionManifest.RecordedKeepsPlaces | src-tauri/src/ai/redaction.rs:52-66 | records keep their places, and a new one goes to the end |
| RedactionManifest.Log.Disclose | src-tauri/src/ai/redaction.rs:75-80 | a disclosure is listed once |
| RedactionManifest.RedactOrDiscloseValue | src-tauri/src/ai/redaction.rs:252-271 | a detected value is replaced and recorded, or sent and disclosed; one with a hint goes to the text scanner only with redaction on |
| RedactionManifest.DetectedTextDoesNotShow | src-tauri/src/ai/redaction.rs:252-271 | with redaction on a detected string comes out as the marker of its kind, and two strings of one kind give the same output and the same manifest; only one with a hint is left to the scanner, and any other comes out as it is |
| JsonRedaction.RedactJsonValue | src-tauri/src/ai/redaction.rs:398-437 | the recursion over a JSON value, with the manifest changed in place |
| JsonRedaction.HiddenValuesDoNotShow | src-tauri/src/ai/redaction.rs:398-437 | with redaction on, two values that differ only below sensitive keys, or in strings of the same detected kind, give the same output and the same manifest |
| JsonRedaction.RedactionKeepsShape | src-tauri/src/ai/redaction.rs:398-437 | everywhere else key sets, array lengths and scalars come through, but for strings that are detected, which come out as the marker of their kind, and those left to the scanner; hidden values are the marker of fields |
| JsonRedaction.NothingChangesWhenOff | src-tauri/src/ai/redaction.rs:398-437 | with redaction off the value that comes out of the redactor is the one that went in |
| JsonRedaction.EveryRedactionIsCounted | src-tauri/src/ai/redaction.rs:398-437 | the manifest's count for every location and kind grows by exactly the hidden values and detected strings there, if the text scanner leaves that count alone |
| JsonRedaction.DisclosuresAreExact | src-tauri/src/ai/redaction.rs:398-437 | with redaction off nothing is counted as redacted, and exactly the sensitive fields and detected strings sent are disclosed |
| Multipart.SplitHeaderParameters | src-tauri/src/ai/redaction.rs:478-507 | the scanning loop computes the specified split |
| Multipart.UnquoteHeaderParameter | src-tauri/src/ai/redaction.rs:509-533 | a quoted parameter is unescaped, another trimmed |
| Multipart.RedactMultipart | src-tauri/src/ai/redaction.rs:555-601 | the loop over the parts, with early exit and the manifest changed in place |
| MultipartRoundTrip.BoundaryComesBack | src-tauri/src/ai/redaction.rs:467-476 | any boundary of RFC 2046 is read back from the content type, quoted or not |
| MultipartRoundTrip.UnquoteUndone | src-tauri/src/ai/redaction.rs:509-533 | unquoting undoes quoting for every string |
| MultipartRoundTrip.ScanParameters | src-tauri/src/ai/redaction.rs:478-507 | printed parameters are split where they were joined, whatever their quoted values hold |
| MultipartRoundTrip.PartReads | src-tauri/src/ai/redaction.rs:535-577 | an encoded part is read with its name, whether it is a file, and its exact body |
| MultipartRoundTrip.EncodedFormIsReadBack | src-tauri/src/ai/redaction.rs:555-601 | for every encoded form whose delimiter is absent from the contents, reading and redacting it is redacting its fields one by one, in order |
| MultipartRoundTrip.FormIsReadIff | src-tauri/src/ai/redaction.rs:555-577 | that condition is exact for the reader: the parts read are those written, with name, file mark and body, if and only if no part holds the delimiter, at the start of a line or elsewhere |
| MultipartRoundTrip.FieldsAreOfPartsRead | src-tauri/src/ai/redaction.rs:564-598 | the parts read decide the fields: none when one is malformed, else one for each, under its name, with the omission marker for a file and, with redaction off, the body for any other |
| MultipartRoundTrip.PlainFormComesBackIff | src-tauri/src/ai/redaction.rs:555-601 | with redaction off, a form without files yields exactly its names and bodies if and only if no part holds the delimiter |
| MultipartRoundTrip.MiddleDelimiterFails | src-tauri/src/ai/redaction.rs:564-577 | a family of forms RFC 2046 allows, with the delimiter in the middle of a line, that the reader gives up on |
| MultipartRoundTrip.UnnamedPartsAreNumbered | src-tauri/src/ai/redaction.rs:564-579 | a part without a name is named after the number of its piece, and pieces that are skipped count |
| MultipartRoundTrip.FormFields | src-tauri/src/ai/redaction.rs:577-598 | names stay in order, files are always the omission marker, sensitive fields the marker of fields with redaction on, detected bodies the marker of their kind; the scanner sees only what holds a hint, and any other body comes through |
| MultipartRoundTrip.HiddenPartsDoNotShow | src-tauri/src/ai/redaction.rs:577-598 | with redaction on, forms that differ only in the content of files, in sensitive fields, or in bodies of the same detected kind give the same fields and the same manifest |
| MultipartRoundTrip.FormIsCounted | src-tauri/src/ai/redaction.rs:577-598 | the count for every location and kind grows by exactly the hidden fields and detected bodies there, if the text scanner leaves that count alone |
| MultipartRoundTrip.FormIsDisclosed | src-tauri/src/ai/redaction.rs:577-598 | with redaction off nothing is counted as redacted, and exactly the sensitive fields and detected bodies sent are disclosed |
| MultipartRoundTrip.FilesAreOmitted | src-tauri/src/ai/redaction.rs:584-586 | every file is on the list of omissions, in order, and the loop puts nothing else there |
| Crawl.TurnSpends | src-tauri/src/assessment/discovery.rs:83-254 | every turn of the worklist spends a request of the budget or shortens the queue |
| Crawl.CrawlIsSound | src-tauri/src/assessment/discovery.rs:83-254 | for every site, reply and cancellation: no normalised URL is requested twice, each was authorised, requests are counted and stay in the budget, each rejected candidate has its gap, and every candidate ever queued was requested, a duplicate, rejected, dropped on the way out, or is still queued |
| Crawl.EmptyQueueMeansComplete | src-tauri/src/assessment/discovery.rs:138-252 | a crawl that ends with an empty queue has overlooked nothing: the start URL and whatever an answered reply refers to and policy allows was found as what it is referred to as (page or script; start page, link or redirect), and requested or refused in its normal form |
| CrawlOrder.CrawlIsExact | src-tauri/src/assessment/discovery.rs:83-254 | what was found is the start page and exactly what complete replies call for and policy allows, each gap has its cause and each cause its gap; candidates are served first come first served, the first stop condition ends the crawl at once, and it ends for no other reason than those of the loop |
| CrawlOrder.RoutesOfScriptsAreHandled | src-tauri/src/assessment/discovery.rs:208-252 | when the queue ends empty, a script that is the first candidate of its normal form was requested as a script, and every route in its complete reply that policy allows was found as a page and handled |
| Discovery.Crawler.CrawlSite | src-tauri/src/assessment/discovery.rs:67-254 | the loop with its queue, marks, gaps and counter in place |
| Discovery.Crawler.EnqueueOrNote | src-tauri/src/assessment/discovery.rs:567-597 | an authorised URL is queued, another leaves a gap |
| Discovery.Crawler.Discover | src-tauri/src/assessment/discovery.rs:67-336 | the crawl, the visits for the other identities, the budget gap and whether a stop condition is reported; merging known endpoints is left out |
| Discovery.VisitsAreBounded | src-tauri/src/assessment/discovery.rs:256-315 | the other identities get at most one request each, counted and within the budget |
| Discovery.VisitsAreExact | src-tauri/src/assessment/discovery.rs:256-315 | the visits one by one: A if it is ready, then B if it is and A neither failed nor met a stop condition; a failed request ends the discovery |
| Discovery.VisitsAreChosen | src-tauri/src/assessment/discovery.rs:256-275 | only identities that are available get one, and only where policy allows the start URL |
| Discovery.DiscoveryStaysInBudget | src-tauri/src/assessment/discovery.rs:67-325 | over the whole discovery requests never exceed the budget |
| Discovery.BudgetGapIffTwoLeft | src-tauri/src/assessment/discovery.rs:83-86 | when the crawl gives up for lack of budget, the report says so if and only if at least two candidates were left: the one popped last is gone before the budget is looked at |
| Discovery.BudgetGapIffSpent | src-tauri/src/assessment/discovery.rs:317-325 | the report says that the budget ran out if and only if candidates are left and crawl and visits have spent it |
| Discovery.LastCandidateCanVanish | src-tauri/src/assessment/discovery.rs:317-325 | a concrete site: one link is dropped and no gap is recorded |
| Discovery.StopIsFollowedIffReady | src-tauri/src/assessment/discovery.rs:138-315 | after a stop condition the target is asked again if and only if budget is left, policy allows the start URL, and an identity is available at a moment the run is not cancelled |
| Discovery.StopCanBeFollowed | src-tauri/src/assessment/discovery.rs:138-315 | a concrete site: the first reply stops the crawl, and identity A asks the same URL right after it |
| TrafficDigest.AggregateRows | src-tauri/src/ai/digest.rs:301-361 | the row loop computes the digest |
| TrafficDigest.DigestKeys | src-tauri/src/ai/digest.rs:324-342 | an endpoint is in the digest if and only if it has a row |
| TrafficDigest.DigestSummarises | src-tauri/src/ai/digest.rs:324-361 | each entry has the number of its rows, their first and last id, every label with its count, and all names and tags; the labels of each facet add up to the count |
| TrafficDigest.SummaryIsUnique | src-tauri/src/ai/digest.rs:324-361 | and there is only one such entry for given rows |
| TrafficDigest.CountsAddUp | src-tauri/src/ai/digest.rs:301-361 | the counts of all endpoints add up to the number of rows |
| TrafficDigest.LastIdsDiffer | src-tauri/src/ai/digest.rs:343-345 | different endpoints have different last ids |
| EndpointRanking.EndpointScore | src-tauri/src/ai/digest.rs:174-214 | the score as the sum of its parts |
| EndpointRanking.FirstPoints | src-tauri/src/ai/digest.rs:174-182 | a plain endpoint has 500 points and its recency, and 160 more for a single request, 100 up to three, 40 up to ten, and 25 less for each doubling beyond |
| EndpointRanking.RecencyRuns | src-tauri/src/ai/digest.rs:175-176 | recency is 0 for the first row, 100 for the last, and never outside that range |
| EndpointRanking.MoreRequestsGainNothing | src-tauri/src/ai/digest.rs:178-213 | more requests never gain an endpoint points |
| EndpointRanking.TagsAndMethodGain | src-tauri/src/ai/digest.rs:184-205 | rule tags gain it 240 points and a method other than GET and HEAD gains it 80 |
| EndpointRanking.ErrorStatusGains | src-tauri/src/ai/digest.rs:187-193 | a status of the 400s or 500s gains it 80 |
| EndpointRanking.SecondRoleGains | src-tauri/src/ai/digest.rs:201-203 | a second role gains it 70 |
| EndpointRanking.DocumentGains | src-tauri/src/ai/digest.rs:194-200 | JSON or HTML gains it 50 |
| EndpointRanking.StaticAndNoiseLose | src-tauri/src/ai/digest.rs:207-212 | a static file loses 450 points, and a health check loses 500 and 40 for each doubling of its requests |
| EndpointRanking.LaterScoresNoLower | src-tauri/src/ai/digest.rs:174-176 | a later last request never lowers a score |
| EndpointRanking.IdsDecide | src-tauri/src/ai/digest.rs:364-371 | on different last ids the comparison is a strict order that never reaches the names |
| EndpointRanking.SortRanks | src-tauri/src/ai/digest.rs:363-371 | sorting by it gives a strictly ordered list |
| EndpointRanking.ShownIgnoresMapOrder | src-tauri/src/ai/digest.rs:363-372 | the list shown is the same for every order in which the hash map hands out its entries |
| EndpointRanking.ShownRankBeforeHidden | src-tauri/src/ai/digest.rs:372 | what is cut off ranks behind everything shown, and nothing is cut off from a short list |
| Calibration.CalibrateConfidence | src-tauri/src/ai/validation_calibrated.rs:139-186 | the confidence is limited by the cap for the evidence |
| Calibration.MoreEvidenceNeverLowersCap | src-tauri/src/ai/validation_calibrated.rs:139-186 | more evidence never lowers the cap |
| Grounding.CapIsLimit | src-tauri/src/ai/validation_calibrated.rs:139-180 | the limit for every severity and kind of evidence, one by one |
| Grounding.ConfidenceIsLimited | src-tauri/src/ai/validation_calibrated.rs:341-360 | the confidence is the one claimed or that limit, whichever is lower, and never above 25 without grounding |
| Grounding.GroundedIffAllSent | src-tauri/src/ai/validation_calibrated.rs:308-340 | on a first pass a hypothesis is grounded if and only if some short reference was asked for and every short one asked for was sent |
| Grounding.GroundKeepsTheRest | src-tauri/src/ai/validation_calibrated.rs:308-380 | grounding changes nothing of a hypothesis but evidence and confidence |
| Calibration.CheckHypotheses | src-tauri/src/ai/validation_calibrated.rs:230-383 | the loop over the hypotheses with its seen set and counters; grounded and ungrounded add up to the total |
| Calibration.GroundedEvidence | src-tauri/src/ai/validation_calibrated.rs:308-340 | the evidence kept is without repetition and exactly what was asked for, short enough, and sent |
| Grounding.EvidenceKeepsItsOrder | src-tauri/src/ai/validation_calibrated.rs:308-340 | each reference kept stands in the order in which it was first asked for |
| Calibration.ConfidenceNeverRises | src-tauri/src/ai/validation_calibrated.rs:341-380 | every result comes from a hypothesis, with no more confidence than that had |
| Calibration.KeysAreDistinct | src-tauri/src/ai/validation_calibrated.rs:324-339 | results have pairwise distinct keys |
| Calibration.KeysAreKept | src-tauri/src/ai/validation_calibrated.rs:324-339 | and no key is lost by merging |
| Grounding.FirstOfEachKeySurvives | src-tauri/src/ai/validation_calibrated.rs:324-339 | and of the hypotheses with one key the first survives, in order |
| Revalidation.DropRepeated | src-tauri/src/ai/validation_calibrated.rs:209-217 | the loop keeps the first parameter of every lower-case form |
| Revalidation.ParseAndValidate | src-tauri/src/ai/validation_calibrated.rs:188-404 | acceptance, result and counters of the whole validator |
| Acceptance.AcceptedIffFits | src-tauri/src/ai/validation_calibrated.rs:188-404 | an answer is accepted if and only if every text, list and field keeps its limit, one by one; what is returned then is trimmed, with the first parameter of each lower-case form and the first hypothesis of each key |
| Revalidation.HypothesisTwice | src-tauri/src/ai/validation_calibrated.rs:251-380 | cleaning and grounding a second time changes no hypothesis; it is grounded then if and only if some evidence is left |
| Revalidation.SecondPassIsStable | src-tauri/src/ai/validation_calibrated.rs:188-404 | an accepted result is accepted again with the same purpose, parameters, hypotheses, evidence, confidences and summary; only a grounding can change, and only for the better |
| PlanShapes.NormalizeTextArrays | src-tauri/src/ai/planner.rs:271-311 | the loop over the text fields folds lists of strings and touches nothing else |
| PlanShapes.FoldedTextIsJoined | src-tauri/src/ai/planner.rs:289-309 | a folded list is the trimmed texts of its items, with steps counted from 1, joined by line feeds, or by commas for roles and sessions |
| PlanShapes.FoldedLinesComeBack | src-tauri/src/ai/planner.rs:289-309 | lines of a folded list that hold no line feed of their own are told apart in the text |
| PlanShapes.NormalizeTree | src-tauri/src/ai/planner.rs:313-353 | removing and inserting keys in place, node by node |
| PlanShapes.NormalizePlanNodeShapes | src-tauri/src/ai/planner.rs:262-358 | the whole plan |
| PlanShapes.NormalIsCanonical | src-tauri/src/ai/planner.rs:313-353 | what comes out has no alias and no list of lines on any node reached through children |
| PlanShapes.NormalizeTwice | src-tauri/src/ai/planner.rs:313-353 | normalising is idempotent, and leaves a tree alone if and only if it is canonical |
| PlanShapes.PlanTwice | src-tauri/src/ai/planner.rs:262-358 | normalising a plan twice is normalising it once |
| PlanShapes.FailsIffConflict | src-tauri/src/ai/planner.rs:329-341 | it fails if and only if some reached node has both tasks and children that are not null |
| PlanShapes.PlanFailsIffConflict | src-tauri/src/ai/planner.rs:262-358 | a plan fails if and only if some node under its phases does |
| PlanShapes.NormalizesIffSame | src-tauri/src/ai/planner.rs:313-353 | the result is the one tree with the same nodes: on every node reached through children, no key appears or goes beyond the two aliases, other keys keep their values, text fields are folded, a title that says something stays and another gives way to the phase name, and the children are the same in number and order, each related in the same way |
| PlanShapes.PlanNormalizesIffSame | src-tauri/src/ai/planner.rs:262-358 | the same for a whole plan: everything outside the phases is untouched, and each phase is its normal form |

## Left out

- MissionDisplay.ShownBelongsToWorkspace: assumes that the backend answers a read for the mission it was asked about.
- MissionLaws.EverythingBelongsToWorkspace: assumes the same, and that missions listed for a project are of that project.
- MissionStore.Store.MergeMission: missions are values, so the sharing of one object between the list and the detail shown is not modelled.
- MissionRuns.BusyFlagsTellTheTruth: changes of a mission are told apart by what they do with the reply (`Kind`) and by whether a file is picked first; what they send, and the check of `confirmContext` that there is a context to confirm, are left out.
- MissionStore.Store.TimerFires: the delay of 100 ms is an event that may come at any time.
- MissionStore.Store.OnEvent: of an event's content, only its message is kept beside what the handler uses.
- SelectionQueue.QuietShowsPersisted: holds for runs without the three events of `SyncIsLostOnlyByThree`, each shown to happen; before the first selection nothing is promised, because a load alone need not agree. A write takes effect before its reply or not at all.
- ProviderSafety.UpdateIsCrashSafe: holds when no removed provider shares a stored credential with a listed one, which `SafeUnderAllFaultsIffHarmless` shows to be exact; base-URL rules and the JSON form of the row are left out.
- ReportPair.PairIsAtomic: creating the directory works or fails and has no other effect; file names are told apart by attempt and kind instead of by their text, and no other process touches the directory meanwhile.
- JsonChoice.ExtractionRecoversText: what `serde_json` does with a fragment is an arbitrary function.
- TemplateRenderer.RenderTokens: requires that no placeholder is empty, because the loop of the program would not end on an empty one; its callers pass constants.
- ContextBudget.SentIffPermittedAndFits: the redactors are arbitrary functions, and so are the size of the rendered prompt and the texts of the notes kept about each body.
- MarkdownText.PrintedReadsBack: the table of entities is arbitrary beyond `amp`, `lt` and `gt`; the reader is that of text in paragraphs, so lines that open a block (`MarkdownBlocks`) are read otherwise, indented code literally (`IndentedCodeShowsEscapes`).
- MarkdownBlocks.PrintedOpensIffMissed: says where a block can begin on its own line; whether a paragraph above, an open list or an HTML block lets it is left out, and so are thematic breaks with blanks between their hyphens.
- MarkdownCode.CodeBlockReadsBack: the opening fence is not indented, and a CR at the very end of a value joins the LF that follows it.
- JsonRedaction.HiddenValuesDoNotShow: values are rebuilt instead of changed in place, fields are visited in any fixed order, and name list, secret patterns and text scanner are arbitrary functions.
- MultipartRoundTrip.EncodedFormIsReadBack: asks that the delimiter is nowhere in the contents, where section 5.1.1 of RFC 2046 forbids it at the start of a line only, because the program splits at it anywhere (`FormIsReadIff`, `MiddleDelimiterFails`); the encoder writes no preamble, and the JSON form of the fields is left out.
- RedactionManifest.Log.Disclose: a disclosure is told apart by location and kind instead of by its text; notes are left out.
- Crawl.CrawlIsSound: the policy is a fixed predicate, a request that answers counts as one, and resolving references, parsing HTML and scripts and storing what was found are left out.
- Discovery.Crawler.Discover: merging traffic and mission resources known before is left out.
- EndpointRanking.EndpointScore: the patterns for static files and health checks are arbitrary; 64-bit overflow is left out.
- EndpointRanking.SortRanks: the library sort is an insertion sort on values; the theorems hold for any order of its input.
- TrafficDigest.DigestSummarises: rows come with route, labels and tags already normalised, and tag totals are left out.
- Revalidation.SecondPassIsStable: assumes that a lookup returns no more standards than it was asked for, and that looking up the standards it returned returns them again; notes and warnings are left out, and errors are counted.
- PlanShapes.FoldedLinesComeBack: roles and sessions, which are joined by commas, are not told apart again.
- SQL, the database schema, IPC, TLS, dialogs and views: no algorithm of their own.
- SHA-256: the bytes hashed are modelled, the digest is not.
- The merged response-structure hash of discovered surfaces (`src-tauri/src/assessment/discovery.rs:1265-1308`): it rehashes an already combined hash.
- `src/stores/assessment.ts`: its start action writes after an await without checking ownership, so it keeps less than the mission store does.
- URL parsing, regular expressions and entropy heuristics: arbitrary functions where a proof needs them.
