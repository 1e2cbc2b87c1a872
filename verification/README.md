# MetalDocs protocols and algorithms, proved in Dafny

MetalDocs is a document management system: documents are edited in single-writer sessions and
autosaved as revisions, templates go through review and publication, controlled documents get
numbers, exports are cached. This project models the parts of it whose correctness spans several
operations and proves what they guarantee. `dafny verify dfyconfig.toml` checks all of it.

One file, one component:

| file | component |
|---|---|
| `Prelude.dfy` | optional values and results |
| `DocumentProtocol.dfy`, `DocumentInvariant.dfy`, `DocumentTheorems.dfy` | the documents_v2 tables, each transaction as one atomic step, the invariant over all of them, and the theorems about runs |
| `DocumentEffects.dfy` | what each transaction asks for and writes, column by column |
| `DocumentRepository.dfy` | the repository and service as classes, statement by statement, proved against those steps |
| `JsonKeys.dfy`, `InlineContent.dfy`, `DocumentBlocks.dfy`, `DocumentNormalForm.dfy`, `CanonicalEffects.dfy` | the MDDM canonicaliser: key sorting, inline runs, block trees, the canonical form as a normal form, what becomes of each block |
| `FunctionalGraph.dfy`, `VisibilityGraph.dfy`, `PlaceholderSchema.dfy` | graphs with one successor per node, the three-colour search over visible_if, the schema gate |
| `ProcessAreas.dfy` | the process-area tree |
| `TokenScanner.dfy`, `TokenSections.dfy`, `TokenErrors.dfy`, `TokenPrinting.dfy` | the DOCX token scanner, its section stack, what it reports, printing and scanning back |
| `TemplateStore.dfy`, `TemplateLifecycle.dfy`, `TemplateRules.dfy`, `TemplateService.dfy` | template versions as sequences of writes that can fail, the theorems, who may do what, the service as classes |
| `RoleCache.dfy` | the TTL role cache under interleaving |
| `Backpressure.dfy`, `RateLimiter.dfy` | the scheduler's hysteresis, the fixed-window limiter |
| `ExportHash.dfy`, `ExportCache.dfy` | what digests are computed over, the export cache |
| `Registry.dfy`, `RegistryRules.dfy` | automatic numbering of controlled documents |
| `Workflow.dfy`, `WorkflowRules.dfy` | the first workflow with its compensating writes, its table of moves |

Code that updates state is a class or a loop here too; each such method is proved to compute a
specification function, and the theorems are about those functions. Where several actors
interleave, a run is a sequence of atomic steps and theorems hold of every run.

## Where the code and its documentation part

- RestoreCheckpoint says a key conflict means the head already matches (repository.go:700-702). The
  row it conflicts with is the checkpoint's own revision, so every successful restore changes
  nothing and the head stays (`DocumentTheorems.RestoreNeverMovesHead`,
  `DocumentTheorems.RestoreCanLeaveOtherContent`).
- AcquireSession reads the head and inserts the session in two statements of a read-committed
  transaction that does not lock the document row; the exact condition under which that is safe is
  `DocumentTheorems.AcquireNeedsCurrentHead`, what follows otherwise is
  `DocumentTheorems.StaleSessionBranches`, a run that does so `DocumentTheorems.RaceHappens`. In
  runs it is one step.
- canonicalizeMDDM is not idempotent on every valid envelope: links are compared before their keys
  are sorted (`DocumentBlocks.KeyOrderBreaksIdempotence`), and NFC is not closed under concatenation
  (Unicode Standard Annex #15, section 1.4; `InlineContent.IdempotentIff`). The exact
  condition on the envelope is `DocumentBlocks.CanonicalizeIdempotentIff`.
- A field with block children, which the MDDM schema allows, makes it throw, and so do all
  blocks below the other inline parents (`DocumentBlocks.ThrowsIff`).
- An area created with its own code as parent passes the foreign key and is a cycle
  (`ProcessAreas.CreateKeepsForestIff`).
- CreateNextVersion that loses its second write, and CreateTemplate that does, leave a template
  that never gets another version (`TemplateLifecycle.CanGrowAfterIff`,
  `TemplateLifecycle.NewTemplateGrowsIff`, `TemplateLifecycle.NeverGrowsAgain`); an approval that
  loses its second or third leaves PublishedVersionID on an unpublished version, if it named one
  or got to name the new one (`TemplateLifecycle.ApprovalNamesPublishedIff`).
- InvalidateUser does not wait for lookups that already fetched, which matters exactly when these
  carry roles that have changed since (`RoleCache.FencedIff`).
- A manual code equal to the automatic one of a number not yet given ends automatic numbering for
  its profile when the counter gets there (`Registry.ManualCodeDoomsIff`, `Registry.BlockedForGood`).
- Undo calls restore consistency only in step (`Workflow.ConsistentAfterIff`); a decision that
  gets out of step strands its document in review (`Workflow.DecisionStrandsIff`,
  `Workflow.StrandedForGood`).
  Undoing a submission deletes its approval, but migrations/0017_grant_workflow_approvals_privileges.sql
  grants the application no DELETE on that table; `Workflow.SubmissionOrphansIff` says when one remains.

## Keys and inputs

Unique keys are those of migrations/0110_docx_v2_documents.sql:46-98,
migrations/0111_docx_v2_exports.sql and its neighbours 0016, 0120, 0123 and 0124; an insert that
breaks one fails without effect. Times, new ids, object hashes, case folding, collation, NFC,
SHA-256, JSON encoding and the success of calls into other systems are parameters; whether a regex
compiles or a date parses comes with its text. Strings the
source trims first come trimmed. Keys of JSON objects are neither integer-like, which JavaScript
lists in numeric order whatever the order of insertion, nor outside the basic multilingual plane,
where its sort compares UTF-16 units.

## Model

| member | source | states |
|---|---|---|
| `DocumentTheorems.SingleWriter` | internal/modules/documents_v2/repository/repository.go:214-268 | In every reachable state a document has at most one active session, `active_session_id` names exactly that one, and the revision it acknowledged is the head |
| `DocumentTheorems.OneChain` | internal/modules/documents_v2/repository/repository.go:446-543 | In every reachable state the revisions of a document are one unbranched parent chain from the initial revision to the head, numbers growing along it |
| `DocumentTheorems.RunExtends` | internal/modules/documents_v2/repository/repository.go:446-553 | No lost update: over any run of any transactions revisions, consumed uploads and checkpoints stay, and each document's history only grows at its end |
| `DocumentTheorems.CommitIffBaseIsHead` | internal/modules/documents_v2/repository/repository.go:446-543 | For an open, unexpired, correctly hashed upload of the active session, commit succeeds iff its base is the head and the content is new to the document; the history then grows by exactly the new revision; a stale base changes nothing |
| `DocumentTheorems.AcquireNeedsCurrentHead` | internal/modules/documents_v2/repository/repository.go:214-268 | The insert of AcquireSession keeps the invariant iff the head read before it is still the head |
| `DocumentTheorems.StaleSessionBranches` | internal/modules/documents_v2/repository/repository.go:214-268 | If the head moved between the two statements and nobody edits the document at the second, the next commit of that session is accepted and gives the stale base a second child |
| `DocumentTheorems.VisitMovesHead` | internal/modules/documents_v2/repository/repository.go:214-306 | From every reachable state in which nobody edits a document, another user's acquire, autosave and release move the head and leave nobody editing: what the race needs can always come between the two statements |
| `DocumentTheorems.RaceHappens` | internal/modules/documents_v2/repository/repository.go:214-268 | A whole run: create, release, head read, another session in between, insert, commit; two revisions end with the same parent |
| `DocumentTheorems.ReplayForever` | internal/modules/documents_v2/repository/repository.go:467-482 | A consumed upload answers its own session and document with the same revision and number, AlreadyConsumed, and no change, in every later state; no sweeper has deleted it |
| `DocumentTheorems.CommitThenReplay` | internal/modules/documents_v2/repository/repository.go:467-482 | A client that lost the answer of a successful commit gets that answer again after any further run |
| `DocumentTheorems.VerifiedHashIsCommitted` | internal/modules/documents_v2/application/service.go:490-523 | Whatever runs between the two phases of CommitAutosave, the hash the service computed is the one committed: the mismatch guard inside the transaction never fires |
| `DocumentTheorems.OneConsumedPerBase` | internal/modules/documents_v2/repository/repository.go:503-541 | At most one upload is ever consumed per document and base revision |
| `DocumentTheorems.RevisionCount` | internal/modules/documents_v2/repository/repository.go:503-541 | A document has exactly one revision more than consumed uploads |
| `DocumentTheorems.PresignIsOpen` | internal/modules/documents_v2/repository/repository.go:349-389 | PresignReserve never hands back a consumed upload; the one it names has the caller's key and its base is the head |
| `DocumentTheorems.ExpireCounts` | internal/modules/documents_v2/repository/repository.go:330-347 | The sweep reports "no rows" iff nothing was stale, and otherwise the number of sessions it expired; none is stale afterwards |
| `DocumentTheorems.CheckpointsAreDense` | internal/modules/documents_v2/repository/repository.go:556-590 | Checkpoint versions of a document are exactly 1..n, each once, and each names a revision of the document's history |
| `DocumentTheorems.RestoreNeverMovesHead` | internal/modules/documents_v2/repository/repository.go:631-723 | Every successful restore in a reachable state is idempotent: it answers with the checkpoint's own revision and changes no row, so the head shows that content iff it was there already |
| `DocumentTheorems.RestoreCanLeaveOtherContent` | internal/modules/documents_v2/repository/repository.go:700-723 | A reachable state in which a restore succeeds and the head stays on other content |
| `DocumentInvariant.RunKeepsInv` | internal/modules/documents_v2/repository/repository.go:35-723 | The invariant that ties documents, sessions, revisions, uploads and checkpoints together is kept by every run |
| `DocumentRepository.Repository.CreateDocument` | internal/modules/documents_v2/repository/repository.go:35-82 | Statement by statement, ends in the state and answer of the specification and keeps the invariant |
| `DocumentRepository.Repository.AcquireSession` | internal/modules/documents_v2/repository/repository.go:214-268 | Same, for acquiring: refresh of one's own session, read-only for another's, insert otherwise |
| `DocumentRepository.Repository.ReleaseSession` | internal/modules/documents_v2/repository/repository.go:286-306 | Same, for the holder's release |
| `DocumentRepository.Repository.ForceReleaseSession` | internal/modules/documents_v2/repository/repository.go:308-328 | Same, for an administrator's release |
| `DocumentRepository.Repository.ExpireStaleSessions` | internal/modules/documents_v2/repository/repository.go:330-347 | Same, for the session sweep |
| `DocumentRepository.Repository.PresignReserve` | internal/modules/documents_v2/repository/repository.go:349-389 | Same, for reserving an upload, the conflict on (session, base, hash) included |
| `DocumentRepository.Repository.CommitUpload` | internal/modules/documents_v2/repository/repository.go:446-543 | Same, for the commit with its replay branch and ordered refusals |
| `DocumentRepository.Repository.DeleteExpiredPending` | internal/modules/documents_v2/repository/repository.go:545-553 | Same, for the upload sweep |
| `DocumentRepository.Repository.CreateCheckpoint` | internal/modules/documents_v2/repository/repository.go:556-590 | Same, for checkpoints |
| `DocumentRepository.Repository.RestoreCheckpoint` | internal/modules/documents_v2/repository/repository.go:631-723 | Same, for restores |
| `DocumentRepository.Service.CommitAutosave` | internal/modules/documents_v2/application/service.go:490-523 | Both phases of an autosave in a row: refusals of the first change nothing, the second is the repository commit |
| `DocumentEffects.FreshCommitIff` | internal/modules/documents_v2/repository/repository.go:446-543 | For every user and hash, a commit makes a new revision iff the upload is open and in time, its session still active and the caller's, its base the head, the hash its own and the content new |
| `DocumentEffects.FreshCommitWrites` | internal/modules/documents_v2/repository/repository.go:514-541 | The new revision has the upload's storage key, hash and base, the snapshot given and the caller's session; head and form data, acknowledgement and consumption follow; every other column and row stays |
| `DocumentEffects.ReplayIff` | internal/modules/documents_v2/repository/repository.go:467-482 | A replay is answered iff the upload is bound as said and consumed, with the revision that has its content |
| `DocumentEffects.CommitRefusals` | internal/modules/documents_v2/repository/repository.go:460-512 | Which refusal is given, in order; none changes a row |
| `DocumentEffects.CreateDocumentWrites` | internal/modules/documents_v2/repository/repository.go:35-82 | The three rows of a new document, column by column |
| `DocumentEffects.SetStorageKeyIff` | internal/modules/documents_v2/repository/repository.go:87-99 | The storage key of a revision is set once |
| `DocumentEffects.ChangeStatusIff` | internal/modules/documents_v2/repository/repository.go:187-208 | A document of the tenant changes status iff it has the one the caller names |
| `DocumentEffects.AcquireEdited` | internal/modules/documents_v2/repository/repository.go:222-242 | Where someone edits the document: the holder's time is extended by five minutes, another is told who holds it |
| `DocumentEffects.AcquireFree` | internal/modules/documents_v2/repository/repository.go:244-269 | Where nobody does: a session of the caller on the head for five minutes, iff the document is the tenant's |
| `DocumentEffects.HeartbeatIff` | internal/modules/documents_v2/repository/repository.go:272-284 | A heartbeat extends the caller's active session by five minutes, and nothing else |
| `DocumentEffects.ReleaseIff` | internal/modules/documents_v2/repository/repository.go:286-306 | Only the holder releases, only an active session; the documents it edited are let go |
| `DocumentEffects.ForceReleaseIff` | internal/modules/documents_v2/repository/repository.go:308-328 | The same for anyone, with the other status |
| `DocumentEffects.ExpireCloses` | internal/modules/documents_v2/repository/repository.go:330-347 | Exactly the active sessions whose time is over expire |
| `DocumentEffects.PresignIff` | internal/modules/documents_v2/repository/repository.go:349-374 | An upload is reserved iff the caller's own active session on that document has the head as base; the refusal otherwise |
| `DocumentEffects.PresignWrites` | internal/modules/documents_v2/repository/repository.go:375-388 | The row of the first such request, or a new one with the caller's key and time |
| `DocumentEffects.PresignAutosaveIff` | internal/modules/documents_v2/application/service.go:465-483 | Only for drafts of the tenant, for fifteen minutes |
| `DocumentEffects.BeginCommitIff` | internal/modules/documents_v2/application/service.go:490-516 | The first phase goes on iff the document is a draft of the tenant and the stored object has the hash of the upload; the refusal otherwise |
| `DocumentEffects.DeleteExpiredIff` | internal/modules/documents_v2/repository/repository.go:545-554 | Exactly the expired, never consumed uploads go |
| `DocumentEffects.CheckpointWrites` | internal/modules/documents_v2/repository/repository.go:556-590 | The next version of the head under the caller's name and label |
| `DocumentEffects.RestoreIff` | internal/modules/documents_v2/repository/repository.go:631-676 | A restore goes through iff the caller edits the document and the version exists; the refusal otherwise |
| `JsonKeys.SortKeysIffSameValue` | shared/schemas/canonicalize.ts:5-13 | Two JSON texts have the same key-sorted form iff they are the same value, object members taken as a set |
| `JsonKeys.SortKeysKeepsValue` | shared/schemas/canonicalize.ts:5-13 | Key sorting keeps the value and is idempotent |
| `JsonKeys.SortKeysInto` | shared/schemas/canonicalize.ts:5-13 | The loop that fills the sorted object key by key computes that form |
| `InlineContent.SortMarksIffSameMarks` | shared/schemas/canonicalize.ts:19-29 | Two mark lists sort to the same list iff they hold the same marks equally often, where the comparator tells the marks of the list apart |
| `InlineContent.OrderForgottenIff` | shared/schemas/canonicalize.ts:19-29 | That hypothesis is exact: every reordering of a mark list sorts to the same list iff no two different marks of it tie |
| `InlineContent.MarksEqual` | shared/schemas/canonicalize.ts:31-39 | The index loop decides equality of the mark lists, absent kept apart from empty |
| `InlineContent.CanonicalizeInlineContent` | shared/schemas/canonicalize.ts:41-71 | The loops, of which the first throws at the first child without a text and the second grows and mutates `merged`, compute the canonical form |
| `InlineContent.CanonicalKeepsText` | shared/schemas/canonicalize.ts:41-71 | Canonicalising keeps the decoration of every character of the normalised text |
| `InlineContent.FixpointIffCanonical` | shared/schemas/canonicalize.ts:41-71 | A run list is its own canonical form iff its marks are sorted, its texts normalised, its references truthy and no neighbours could be merged |
| `InlineContent.IdempotentIff` | shared/schemas/canonicalize.ts:41-71 | Canonicalising twice is canonicalising once iff, in the input, the normalised texts of every longest stretch of equally decorated runs are in NFC when joined and no neighbours differ in the kind of falsy reference alone |
| `InlineContent.MergedTexts` | shared/schemas/canonicalize.ts:49-62 | What the merged texts are: a property holds of all of them iff it holds of the joined texts of every longest stretch of equally decorated neighbours |
| `InlineContent.MergeApart` | shared/schemas/canonicalize.ts:49-62 | Merging before bringing references into a normal form leaves neighbours that agree after it iff the input has neighbours that agree after it and not before |
| `InlineContent.CanonicalIffSameText` | shared/schemas/canonicalize.ts:41-71 | For input with no empty stretch, another input has the same canonical form iff it denotes the same decorated text, character for character and mark for mark, and has no empty stretch either |
| `InlineContent.MarkOrderIgnored` | shared/schemas/canonicalize.ts:19-29 | The order of marks within runs does not change the canonical form, where the comparator tells the marks of each run apart |
| `InlineContent.NormalIffNoEmptyRun` | shared/schemas/canonicalize.ts:41-71 | Empty runs leave no trace in the canonical form iff every longest stretch of equally decorated runs has some text |
| `DocumentBlocks.FullInlineIdempotentIff` | shared/schemas/canonicalize.ts:41-111 | With key sorting, the inline pipeline is idempotent on an input iff its stretches join in NFC and neighbours with the same marks and references of the same value have these written alike |
| `DocumentBlocks.LeftoverIffWrittenApart` | shared/schemas/canonicalize.ts:55-56 | Mergeable neighbours are left iff the input has neighbours with the same marks whose references have the same value but are written differently: keys in another order, or a falsy reference beside an absent one |
| `DocumentBlocks.FullBlockIdempotentIff` | shared/schemas/canonicalize.ts:73-111 | Lifted to whole block trees: a second pass changes nothing iff titles and labels settle under NFC and all inline content meets that condition on the input |
| `DocumentBlocks.CanonicalizeIdempotentIff` | shared/schemas/canonicalize.ts:104-111 | A second canonicalizeMDDM never throws where the first did not, and returns the same envelope iff every block of the input meets that condition |
| `DocumentBlocks.KeyOrderBreaksIdempotence` | shared/schemas/canonicalize.ts:55-56 | Two runs with one link written in both key orders: canonicalising twice differs from once |
| `DocumentNormalForm.FullInlineIffSaysSame` | shared/schemas/canonicalize.ts:41-111 | The normal form with key sorting: for input with no empty stretch and equal references written alike, another input comes out the same iff it is such input too and says the same, every character with its marks and the values its references have |
| `DocumentNormalForm.FullBlockIffSaySame` | shared/schemas/canonicalize.ts:73-111 | Lifted to block trees: another tree comes out the same iff it has the same shape and kinds, normalised titles and labels, property values and inline content that says the same, and its inline content is such input too |
| `DocumentNormalForm.CanonicalIffDocumentsSaySame` | shared/schemas/canonicalize.ts:104-111 | Lifted to canonicalizeMDDM: another envelope has the same canonical form iff canonicalizeMDDM returns for it, it says the same block by block, a missing template_ref being null, and its inline content is such input too |
| `DocumentBlocks.ThrowsIff` | shared/schemas/canonicalize.ts:73-111 | canonicalizeMDDM, propagating the TypeError of the inline loop, returns iff no inline parent at any depth has blocks for children; it then returns the canonical, key-sorted blocks one for one |
| `CanonicalEffects.CanonicalizeTurns` | shared/schemas/canonicalize.ts:73-111 | For every envelope: it throws iff a paragraph, heading, list item, table cell or field has blocks for children; else every block at every depth turns into what it should: runs of those six kinds say what the normalised input says, with marks sorted and no mergeable neighbours left where equal references are written alike, runs of other kinds keep text and marks, titles and labels are normalised but in code, all keys ascend, all values stay |
| `CanonicalEffects.InlineParentsAre` | shared/schemas/canonicalize.ts:77-84 | Which kinds those are |
| `CanonicalEffects.SortedInOrder` | shared/schemas/canonicalize.ts:19-29 | Sorted marks are bold, code, italic, strike, underline, then the others as collated, none lost |
| `CanonicalEffects.BeforeIff` | shared/schemas/canonicalize.ts:9-9 | Keys are compared where they first differ |
| `VisibilityGraph.DetectVisibilityCycle` | internal/modules/templates_v2/application/visibility_graph.go:16-60 | Ends, and returns nil iff every visible_if target is declared and the dependencies are acyclic; an error is explained by the first placeholder in order whose chain is bad |
| `VisibilityGraph.Detector.Visit` | internal/modules/templates_v2/application/visibility_graph.go:24-49 | A cycle error carries a genuine walk through fresh ids whose last id occurred before; an unknown-dependency error names a really missing target |
| `VisibilityGraph.ExplainedIsBad` | internal/modules/templates_v2/application/visibility_graph.go:24-49 | Anything such an error reports is a real defect: its chain never settles |
| `VisibilityGraph.DistinctIdsReadTheList` | internal/modules/templates_v2/application/visibility_graph.go:16-20 | For a list without repeated ids the by-id map says exactly what the list says |
| `PlaceholderSchema.ValidatePlaceholders` | internal/modules/templates_v2/application/schema.go:77-142 | Accepts iff ids are present and distinct, names distinct, each placeholder sound (name bound to its catalogue entry, limits consistent, computed ones resolvable), every target listed and the dependencies acyclic; an error is true of the first placeholder at fault, and about the graph only when all pass on their own |
| `PlaceholderSchema.EachEntryOnce` | internal/modules/templates_v2/application/schema.go:79-105 | A valid schema shows each catalogue entry at most once, under its own resolver, so it has at most seven named placeholders |
| `PlaceholderSchema.SoundIff` | internal/modules/templates_v2/application/schema.go:77-137 | What the checks on one placeholder come to, the catalogue included |
| `ProcessAreas.AreaService.ListAncestors` | internal/modules/taxonomy/infrastructure/repository.go:308-344 | The recursive query ends on any table and returns exactly the areas reachable by one or more parent steps |
| `ProcessAreas.AreaService.SetParent` | internal/modules/taxonomy/application/area_service.go:40-79 | Result and table are those of the specification, a failed governance log included |
| `ProcessAreas.CycleErrorIffCycle` | internal/modules/taxonomy/application/area_service.go:40-79 | On a forest, moving an active area under an existing parent is refused as a cycle iff the move would create one |
| `ProcessAreas.CycleErrorIffOnCycle` | internal/modules/taxonomy/application/area_service.go:40-79 | On any table it is refused iff the area itself would come to lie on a cycle |
| `ProcessAreas.RunKeepsForest` | internal/modules/taxonomy/application/area_service.go:32-100 | The area table stays a forest on every sequential run of Create, SetParent and Archive whose creations do not name themselves as parent |
| `ProcessAreas.CreateKeepsForestIff` | internal/modules/taxonomy/application/area_service.go:32-34 | A creation that goes through keeps the forest iff the area is not its own parent, which the foreign key lets through |
| `ProcessAreas.ArchivedKeepsParent` | internal/modules/taxonomy/application/area_service.go:45-47 | An archived area keeps its row on every later run |
| `ProcessAreas.SetParentIff` | internal/modules/taxonomy/application/area_service.go:40-79 | Which moves are refused, in order, and what the others write |
| `ProcessAreas.ArchiveIff` | internal/modules/taxonomy/application/area_service.go:81-100 | Archiving is once and keeps the parent |
| `ProcessAreas.CreateIff` | internal/modules/taxonomy/application/area_service.go:32-34 | Which creations the table takes |
| `TokenScanner.ScanTokens` | packages/shared-tokens/src/parser.ts:92-147 | The scan returns the tokens and errors of the specification |
| `TokenScanner.MatchesAreAllOccurrences` | packages/shared-tokens/src/parser.ts:7-7 | Searching from match to match finds every occurrence of the pattern, left to right, without overlap |
| `TokenScanner.TokensAreTheGoodMatches` | packages/shared-tokens/src/parser.ts:92-147 | Tokens have strictly increasing disjoint spans, each wholly inside the run it names, and are exactly the occurrences that fit one run and hold a valid, unreserved name |
| `TokenScanner.OneRunIffInside` | packages/shared-tokens/src/parser.ts:159-161 | A span overlaps one run only iff some run holds all of it, empty runs or not, and that run is the one named |
| `TokenScanner.RunPositions` | packages/shared-tokens/src/parser.ts:149-157 | The cursor loop lays the runs end to end |
| `TokenSections.NoUnmatchedIffBalanced` | packages/shared-tokens/src/parser.ts:121-144 | No unmatched section is reported iff the emitted section tokens are the brackets of a forest of sections closed by their own names |
| `TokenSections.TooDeepIffHigh` | packages/shared-tokens/src/parser.ts:127-131 | For matching sections, nesting is reported as too deep iff that forest is higher than MAX_SECTION_DEPTH + 1 |
| `TokenErrors.TokenIff` | packages/shared-tokens/src/parser.ts:92-147 | A token is returned iff an occurrence lies in the run named and reads, prefix and trimmed name, as a valid unreserved one of that kind |
| `TokenErrors.RejectionIff` | packages/shared-tokens/src/parser.ts:105-118 | SplitAcrossRuns with these runs and text is reported iff some occurrence of that text lies in no one run and these are the runs it touches, in order; MalformedToken and ReservedIdent iff a one-run occurrence at that offset has an invalid or a reserved name |
| `TokenErrors.EveryOccurrenceOnce` | packages/shared-tokens/src/parser.ts:92-147 | Tokens and rejections together are as many as the occurrences |
| `TokenErrors.TooDeepIff` | packages/shared-tokens/src/parser.ts:126-131 | A too-deep error with this name and depth is reported iff some section opens inside that many others, two or more |
| `TokenErrors.UnmatchedIff` | packages/shared-tokens/src/parser.ts:131-144 | An unmatched closing with this name is reported at an offset iff a closing token there is not that of the innermost section still open, and without one iff a section of that name is left open |
| `TokenErrors.NamesAre` | packages/shared-tokens/src/grammar.ts:1-26 | What a valid and what a reserved name is |
| `TokenErrors.SpacesAre` | packages/shared-tokens/src/parser.ts:101-101 | What trimming takes for space |
| `TokenPrinting.ScanPrinted` | packages/shared-tokens/src/parser.ts:92-147 | Scanning printed tokens with brace-free text around them in one run gives them back at the offsets they were printed to, with no error but nesting ones |
| `TemplateLifecycle.RunKeepsInv` | internal/modules/templates_v2/application/lifecycle.go:14-278 | Every state of every sequential run, with any repository call failing, keeps the invariant |
| `TemplateLifecycle.AtMostOnePublished` | internal/modules/templates_v2/application/lifecycle.go:156-215 | A template never has two published versions, at any intermediate state |
| `TemplateLifecycle.ApprovedIsThePublished` | internal/modules/templates_v2/application/lifecycle.go:182-213 | After an accepted approval whose calls all succeed exactly the version PublishedVersionID names is published |
| `TemplateLifecycle.ApprovalNamesPublishedIff` | internal/modules/templates_v2/application/lifecycle.go:182-213 | An accepted approval stopped after n calls leaves the template naming a published version iff n is 0 and it did before, or n is at least 3; after one or two calls nothing is published |
| `TemplateLifecycle.WellNamedAfterIff` | internal/modules/templates_v2/application/lifecycle.go:14-278 | For every operation and point of failure, a template names a published version or none as before, but for its own publication between first call and third; a template that names no published version has none |
| `TemplateLifecycle.PublishedAsSubmittedAndSigned` | internal/modules/templates_v2/application/lifecycle.go:14-215 | A published or obsolete version has the content of its last submission; approver differs from author; where a reviewer role was pending, the person who reviewed differs from both; its placeholder schema is valid, acyclic and has options where it has selects |
| `TemplateLifecycle.PublishedIsFrozen` | internal/modules/templates_v2/application/lifecycle.go:14-244 | Once published, content and signatures stay on every later run; all that can happen is retirement |
| `TemplateRules.ApproveIff` | internal/modules/templates_v2/application/lifecycle.go:156-180 | A decision goes on iff the template is the tenant's, the version is approved where a reviewer role is pending and in review otherwise, the actor has the pending approver role and is neither author nor reviewer; which refusal is given otherwise |
| `TemplateRules.AcceptWrites` | internal/modules/templates_v2/application/lifecycle.go:182-213 | The rows after each call of a publication, column by column |
| `TemplateRules.RejectWrites` | internal/modules/templates_v2/application/lifecycle.go:217-243 | A rejection sends the version back to draft and clears its times |
| `TemplateRules.PublishedByItsRole` | internal/modules/templates_v2/application/lifecycle.go:156-215 | On every run, whatever calls fail, a version that is or was published was accepted by its approver in a call whose roles held the approver role it was submitted under |
| `TemplateRules.ReviewIff` | internal/modules/templates_v2/application/lifecycle.go:72-93 | A review goes on iff the version is in review with a reviewer role pending that the actor has, and not by its author; the refusal otherwise |
| `TemplateRules.ReviewWrites` | internal/modules/templates_v2/application/lifecycle.go:95-144 | What a review writes |
| `TemplateRules.SubmitIff` | internal/modules/templates_v2/application/lifecycle.go:14-61 | A draft with an approval config goes into review under the roles of the config |
| `TemplateRules.UpdateSchemasIff` | internal/modules/templates_v2/application/schema.go:24-75 | Which edits of schemas are refused, in order, a stale hash included, and what is stored |
| `TemplateRules.TemplateAutosaveIff` | internal/modules/templates_v2/application/autosave.go:55-97 | Which autosaves are refused, and the hash that is stored |
| `TemplateRules.CreateTemplateIff` | internal/modules/templates_v2/application/create.go:30-44 | Visibility first, then the key |
| `TemplateRules.CreateTemplateWrites` | internal/modules/templates_v2/application/create.go:46-107 | The three rows of a new template, column by column |
| `TemplateRules.NextVersionRefusals` | internal/modules/templates_v2/application/create.go:115-135 | Which next versions are refused, in order |
| `TemplateRules.NextVersionWrites` | internal/modules/templates_v2/application/create.go:124-170 | The next version has the schemas of the published version, or else of the latest, and nothing else of it |
| `TemplateRules.ArchiveIff` | internal/modules/templates_v2/application/lifecycle.go:250-278 | Archiving is once and sets the time alone |
| `TemplateRules.ConfigureIff` | internal/modules/templates_v2/application/approval_config.go:16-69 | Who may set the roles: an administrator, or the creator before the first publication |
| `TemplateLifecycle.NextVersionDoneIff` | internal/modules/templates_v2/application/create.go:115-170 | CreateNextVersion is done iff the template is owned and not archived, its latest version is there, the next number is free, and all calls succeed |
| `TemplateLifecycle.CanGrowAfterIff` | internal/modules/templates_v2/application/create.go:115-170 | For every operation and point of failure, a template loses the possibility of a next version iff it is archived or its own CreateNextVersion stops after the insert |
| `TemplateLifecycle.NewTemplateGrowsIff` | internal/modules/templates_v2/application/create.go:60-107 | A template is created with that possibility iff its first version was written too |
| `TemplateLifecycle.NeverGrowsAgain` | internal/modules/templates_v2/application/create.go:115-170 | A template without it never gets it back, whatever follows |
| `TemplateLifecycle.StuckAfterIff` | internal/modules/templates_v2/application/create.go:148-155 | The next number gets taken without the counter iff that lost write happens; from then on no operation moves latest_version and creating a next version changes nothing |
| `TemplateService.Service.SubmitForReview` | internal/modules/templates_v2/application/lifecycle.go:14-61 | Reads, checks, field updates and writes in order: effect up to the first failing call as planned, invariant kept |
| `TemplateService.Service.Review` | internal/modules/templates_v2/application/lifecycle.go:72-145 | Same, for the review |
| `TemplateService.Service.Approve` | internal/modules/templates_v2/application/lifecycle.go:156-244 | Same, for the approval; CanTransition never refuses what the checks before it let through |
| `TemplateService.Service.ArchiveTemplate` | internal/modules/templates_v2/application/lifecycle.go:250-278 | Same, for archiving |
| `TemplateService.Service.UpdateSchemas` | internal/modules/templates_v2/application/schema.go:20-75 | Same, for schema edits of drafts, with the checks of resolvers and options in order |
| `TemplateService.Service.CommitAutosave` | internal/modules/templates_v2/application/autosave.go:55-97 | Same, for autosaves of drafts; the stored object is deleted iff its hash is not the expected one |
| `TemplateService.Service.CreateTemplate` | internal/modules/templates_v2/application/create.go:30-107 | Same, for creation, with the visibility checks and the dropping of needless areas |
| `TemplateService.Service.CreateNextVersion` | internal/modules/templates_v2/application/create.go:115-170 | Same, for the next version |
| `TemplateService.Service.UpsertApprovalConfig` | internal/modules/templates_v2/application/approval_config.go:16-69 | Same, for the approval roles |
| `TemplateService.Repository.UpdateVersion` | internal/modules/templates_v2/repository/postgres.go:229-267 | The columns an update touches: all but the author and the keys |
| `TemplateService.Repository.ObsoletePreviousPublished` | internal/modules/templates_v2/repository/postgres.go:269-276 | Retires exactly the other published versions of the template |
| `RoleCache.AnswerIsFresh` | internal/modules/iam/application/cached_role_provider.go:35-56 | Under any interleaving, roles given to a lookup from s to e were in the store at some instant in (s - ttl, e] |
| `RoleCache.FencedIff` | internal/modules/iam/application/cached_role_provider.go:46-66 | InvalidateUser, or InvalidateAll, after any run is a fence iff no lookup of the user is between fetch and store with roles the store no longer holds: then, and only then, all later lookups on all continuations answer roles the store held at the invalidation or after |
| `RoleCache.StaleRunsExist` | internal/modules/iam/application/cached_role_provider.go:46-56 | For any two different role sets a run exists in which such a lookup is under way |
| `RoleCache.PeekIs` | internal/modules/iam/application/cached_role_provider.go:38-44 | A lookup is answered from an entry that lives at its start, and misses otherwise |
| `RoleCache.FetchAndStoreAre` | internal/modules/iam/application/cached_role_provider.go:46-54 | What a miss fetches is answered and kept until ttl after the start |
| `RoleCache.InvalidatesAre` | internal/modules/iam/application/cached_role_provider.go:58-68 | Invalidating forgets the entries of the user, or all, and touches nothing else |
| `RoleCache.CachedRoleProvider.RolesByUserID` | internal/modules/iam/application/cached_role_provider.go:35-56 | An uninterrupted lookup: the entry while it lives, else the store's answer, kept for ttl from its start |
| `Backpressure.Scheduler.ProbePressure` | internal/modules/jobs/scheduler/scheduler.go:262-307 | The counters refine the history: under pressure iff the most recent three equal extreme readings in a row were high; a failed probe changes nothing |
| `Backpressure.FlipsAreApart` | internal/modules/jobs/scheduler/scheduler.go:285-304 | Two flips are at least three readings apart |
| `Backpressure.UnderPressureIff` | internal/modules/jobs/scheduler/scheduler.go:285-304 | Under pressure iff three high readings came in a row and no three low ones since |
| `Backpressure.LevelIs` | internal/modules/jobs/scheduler/scheduler.go:276-302 | High above 70 percent of the connections, low below 60 |
| `Backpressure.SkipsIs` | internal/modules/jobs/scheduler/scheduler.go:162-184 | Which ticks are sat out: none without pressure; under it all by a skipping job, by a degrading one those after a tick under pressure that ran |
| `Backpressure.JobLoop.Tick` | internal/modules/jobs/scheduler/scheduler.go:148-184 | A degrading job sits out exactly the even ticks of a stretch under pressure, a skipping job all of them |
| `Backpressure.DegradeNeverSkipsTwice` | internal/modules/jobs/scheduler/scheduler.go:162-184 | A degrading job is never skipped on two ticks in a row, whatever the pressure does |
| `Backpressure.DegradeRunsHalf` | internal/modules/jobs/scheduler/scheduler.go:162-184 | Under steady pressure it runs on exactly one of any two ticks |
| `RateLimiting.RateLimiter.Allow` | internal/platform/security/ratelimit.go:64-90 | Admission, new counter and, on denial, the least whole number of seconds after which a lone retry is admitted |
| `RateLimiting.SecondsCeil` | internal/platform/security/ratelimit.go:130-139 | Rounds a wait up to whole seconds |
| `RateLimiting.AtMostTwoWindows` | internal/platform/security/ratelimit.go:64-90 | At most 2 * maxRequests - 1 admissions in any half-open interval one window long |
| `RateLimiting.BoundIsReached` | internal/platform/security/ratelimit.go:64-90 | That bound is reached, for every maximum |
| `RateLimiting.DeniedWhenFull` | internal/platform/security/ratelimit.go:79-85 | A denial means the current window has given out exactly maxRequests |
| `RateLimiting.AdmittedIffRoom` | internal/platform/security/ratelimit.go:64-90 | A request is admitted iff it is the first, its window is over, or the window has given out less than the maximum |
| `RateLimiting.Serve` | internal/platform/security/ratelimit.go:64-90 | Each identity is limited by its own requests alone |
| `ExportHash.ComputeCompositeHash` | internal/modules/documents_v2/domain/composite_hash.go:28-48 | The writes into the hasher feed it the preimage |
| `ExportHash.PreimageTellsInputs` | internal/modules/documents_v2/domain/composite_hash.go:37-46 | For 32-byte content hashes and separator-free fields the byte stream determines all inputs |
| `ExportHash.StreamIsItsOwnIff` | internal/modules/documents_v2/domain/composite_hash.go:16-46 | For a 32-byte content hash and an encoder that is injective and writes no raw separator, no other input has the same stream iff the fields are separator-free |
| `ExportHash.ComputeValuesHash` | internal/modules/documents_v2/domain/values_hash.go:10-25 | The digest depends on the map alone, not on the order it is ranged over |
| `ExportHash.StreamTellsValues` | internal/modules/documents_v2/domain/values_hash.go:17-23 | For NUL-free keys and encodings the hashed stream determines the map |
| `ExportHash.AloneIff` | internal/modules/documents_v2/domain/values_hash.go:17-23 | Among all maps, a stream stands for its map alone iff this has at most one entry and no NUL in it |
| `ExportCache.Store.InsertExport` | internal/modules/documents_v2/repository/export_repository.go:11-32 | Inserts or reads the row that is there; no two exports of a document share a hash |
| `ExportCache.Store.GetExportByHash` | internal/modules/documents_v2/repository/export_repository.go:34-52 | Finds the row iff there is one |
| `ExportCache.ExportPDF` | internal/modules/documents_v2/application/export_service.go:50-124 | A returned export, and the PDF under its key, were made for the same byte stream of inputs or for one that collides with it; the first call that fails decides the error; an uncached success adds exactly its own row; the PDF stays under its key once converted |
| `ExportCache.RowColumns` | internal/modules/documents_v2/application/export_service.go:70-118 | The columns of an export's row and the parts of its storage key |
| `ExportCache.NeverForOtherInputs` | internal/modules/documents_v2/application/export_service.go:76-123 | Without a digest collision an export made for other inputs is never returned |
| `Registry.RegistryService.Create` | internal/modules/registry/application/service.go:79-238 | The transaction with deferred rollback: result and rows of the specification, failures change nothing |
| `Registry.RegistryService.NextAndIncrement` | internal/modules/registry/infrastructure/repository.go:211-245 | Takes the counter's value and moves it on by one, in the transaction's view |
| `Registry.RegistryService.ChangeStatus` | internal/modules/registry/application/service.go:256-265 | Only an active document of the tenant changes status |
| `Registry.NumbersAreDense` | internal/modules/registry/infrastructure/repository.go:211-245 | On every run, failed creations included, the automatic numbers of each tenant and profile are 1..next_seq-1 in order, each once |
| `Registry.AutoCodeTellsNumber` | internal/modules/registry/domain/controlled_document.go:48-50 | Within a profile two automatic codes are equal iff their numbers are |
| `Registry.AutoCreateIff` | internal/modules/registry/application/service.go:127-168 | An automatic creation goes through iff references, override and commit do and its next code is free and fits; otherwise nothing has changed, the counter included |
| `Registry.OnlyManualBlocks` | internal/modules/registry/application/service.go:104-114 | Only a document coded by hand can hold the next automatic code |
| `Registry.ManualCodeBlocks` | internal/modules/registry/application/service.go:104-114 | A manual creation blocks its scope at once iff it uses the very next automatic code |
| `Registry.ManualCodeDoomsIff` | internal/modules/registry/application/service.go:104-114 | After a successful manual creation automatic numbering can come to its end iff it could before or the code is the automatic one of some number from next_seq on |
| `Registry.CanEndIffDoomed` | internal/modules/registry/application/service.go:127-168 | A run without further manual creations can end automatic numbering iff some code from next_seq on is in use; automatic creations alone get there |
| `Registry.NumberingEndsThere` | internal/modules/registry/application/service.go:127-168 | And no run at all gets the counter past that code |
| `Registry.BlockedForGood` | internal/modules/registry/application/service.go:143-151 | A blocked scope stays blocked: its counter never moves again, even after the blocking document is retired |
| `RegistryRules.AutoCodeShape` | internal/modules/registry/domain/controlled_document.go:48-50 | The code is the profile in upper case, a dash and the digits of the number, at least two, without a needless zero |
| `RegistryRules.ManualCreateIff` | internal/modules/registry/application/service.go:100-120 | What a manual creation asks for, in order, and writes |
| `RegistryRules.AutomaticCreateIff` | internal/modules/registry/application/service.go:127-220 | What an automatic one asks for, in order, and writes, the counter included |
| `RegistryRules.ChangeStatusIff` | internal/modules/registry/application/service.go:256-265 | Only an active document of the tenant changes status, to the one asked for |
| `Workflow.Service.Transition` | internal/modules/workflow/application/service.go:43-134 | Calls in order with their undo calls: result and rows of the specification for every combination of calls that go through |
| `Workflow.Service.RollbackApproval` | internal/modules/workflow/application/service.go:136-147 | Deletes a request or saves the previous approval back |
| `WorkflowRules.TransitionIff` | internal/modules/workflow/application/service.go:43-134 | A transition succeeds iff it is one of the six moves of the table, a submission names a reviewer and has a fresh id, a decision is that of the pending reviewer of the latest approval, and the calls it needs go through |
| `WorkflowRules.TransitionErrors` | internal/modules/workflow/application/service.go:43-122 | Which error is given otherwise, in order |
| `WorkflowRules.TransitionWrites` | internal/modules/workflow/application/service.go:62-110 | The rows a successful transition writes, column by column |
| `WorkflowRules.OnlyMoves` | internal/modules/workflow/application/service.go:246-261 | Whatever calls fail, a document changes status only by a move of the table |
| `WorkflowRules.ArchivedStays` | internal/modules/workflow/application/service.go:246-261 | An archived document stays archived on every run, whatever calls fail |
| `Workflow.FailureRestoresIff` | internal/modules/workflow/application/service.go:108-122 | Exactly when a failed transition leaves every row as it was |
| `Workflow.RunIsConsistent` | internal/modules/workflow/application/service.go:43-134 | When only audit records may fail: IN_REVIEW iff the latest approval is pending; APPROVED, PUBLISHED or ARCHIVED only if that approval was given by its assigned person |
| `Workflow.ConsistentAfterIff` | internal/modules/workflow/application/service.go:43-134 | Whatever calls fail, a consistent document is consistent after a transition iff it was refused or its calls were in step: the status written if an approval was, and on a lost audit record both undone or neither |
| `Workflow.InvAfterIff` | internal/modules/workflow/application/service.go:43-134 | The same for all documents at once |
| `Workflow.SubmissionOrphansIff` | internal/modules/workflow/application/service.go:77-122 | Exactly when a failed submission leaves a draft with a pending approval |
| `Workflow.DecisionStrandsIff` | internal/modules/workflow/application/service.go:98-122 | A decision leaves its document in review with nothing pending iff its approval is written and the status write is lost, or the audit record is lost and only the status undone |
| `Workflow.StrandedForGood` | internal/modules/workflow/application/service.go:80-92 | Such a document can never be moved by a transition again |

## Left out

- ProcessAreas.RunKeepsForest: does not cover AreaService.Update, which writes parents unchecked, nor concurrent moves, which run without a transaction.
- TemplateLifecycle.RunKeepsInv: operations run one after another; their read-modify-write steps are not interleaved, since the source guards nothing there.
- Backpressure.Scheduler.ProbePressure: a probe is one step; a failed probe reports the pressure as read at its start, which here is the same instant. Ratios are exact reals.
- RateLimiting.RateLimiter.Allow: the clock is read before the lock is taken, so under contention times can reach the lock out of order; the bounds are for non-decreasing times.
- ExportCache.ExportPDF: a request is what its first reads gave; their failures, which come before any effect, are left out. What the converter puts into the file, and which version of it answers, are outside; an object is known by the inputs it was requested with.
- Registry.RegistryService.Create: only the configuration with a database; without one the counter moves outside any transaction. Governance events are best effort and leave no trace in the rows.
- Workflow.RunIsConsistent: requested_at is taken to grow with each request, so the latest approval is the last one.
- TokenScanner.ScanTokens: reading runs out of the DOCX archive and its XML, and the unsupported-element errors of that walk.
- InlineContent.CanonicalIffSameText: one of the inputs has no empty stretch; two that both have are not compared, since the text does not determine the form then (`InlineContent.NormalIffNoEmptyRun`).
- JsonKeys.SortKeysInto: integer-like keys, which a JavaScript object does not list in insertion order, are excluded.
- DocumentNormalForm.FullBlockIffSaySame: an empty array of children is an empty list of runs or of blocks; that these two coincide in JSON is not modelled.
- "No commit after finalize" is not claimed: draft status is looked at before the commit transaction, and restores do not look at it.
- Lease exclusion and draining of the scheduler: the SQL lease functions are not part of this model.
- Reading operations, comments, search, notifications, freezing, reconstruction, HTTP handlers, authentication, permissions and the front end.
