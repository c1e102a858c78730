# Verified model of the knowledge layer's API core

This project models the parts of the API server that keep state and make decisions, and proves
properties of them for every input, every database content and every run.

* **Chunks.** `Text`, `Chunker`, `Extract`, `ChunkIndex`, `ChunkCoherence`: text is extracted from a
  normalized record, packed into chunks by paragraph with a hard-split fallback, and stored in a table
  that is a derived view of the records. Steps may fail at every point between them (read, transaction,
  mark, enqueue); a crash is the step with the matching fault.
* **Permissions.** `Access` states the gates of the permission pipeline one by one on the tables;
  `Evaluator` is the pipeline itself, early returns and failing queries included; `AccessRules` proves
  that they agree and how decisions move when the tables change; `AccessRows` says what an allow rests
  on row by row and what expiry does. `Retrieval`, `Visibility` and `Related`
  are consumers of the pipeline: two-stage semantic search, the publish-right folds, and the two-hop
  walk over entity links.
* **Review.** `Review` is the protocol for extracted tasks: a call reads outside its transaction and
  commits later under a guard, and any number of calls interleave.
* **Ingestion.** `Telegram`, `Slack` and `ContentTree` (Confluence): two-level deduplication, counters
  that account for every item, cursors, and a breadth-first walk that must end on cyclic sites.
* **Cache.** `CacheKeys` and `Cache`: key construction, and a store that may lose entries beside a
  sidecar set of keys.
* `Order` (lexicographic order) and `Wrappers` (optional values) are shared helpers.

Conventions: a table is a map or set with the uniqueness key that the `ON CONFLICT` clause names; one
SQL transaction is one atomic step; one evaluation reads the tables at one instant `now`; what the
network, the clock or a failing query does is an argument (`fault`, `faults`, `fails`, `Site`, `Api`),
over which every statement quantifies. Text is a sequence of valid runes, so a rune count is a length.

Where code and its own documentation disagree, the model follows the code:

* The flush test of the packer leaves out the two-rune break, so a chunk may have `maxRunes + 2` runes
  although the comment on `RebuildNormalizedRecordChunks` promises at most `maxChunkRunes`
  (`Chunker.DocumentedBoundIff` says exactly when the promise holds, `Chunker.BoundIsTight` that the
  larger bound is reached).
* The comment on `RoleGranted` says the grantee's `/domains` entry is dropped; the prefix ends in a colon
  that the key lacks, so it survives (`CacheKeys.RoleGrantDropsExactly`).
* Overrides carry a review status that the pipeline never reads (`AccessRules.StatusIgnored`).
* A failed grant query is reported as a missing grant, not as an error (`AccessRules.FailedGrantReadsAsNone`).
* A patch that commits after a decision edits nothing but still logs an edit
  (`Review.StalePatchLogsWithoutEditing`, `Review.StalePatchRun`); two patches of one draft can lose an
  edit (`Review.OverlappingPatchesIff` says exactly when).
* The metrics of a domain are two reads outside a transaction, so a decision in between makes them
  disagree (`Review.MetricsDrift`, `Review.MetricsDisagree`).
* A message whose normalized write fails is a duplicate for every later sync (`Telegram.OrphanIff`,
  `Telegram.OrphanStaysOrphan`), although the cursor has passed it.
* Different searches can share a cache key when a value holds a NUL (`CacheKeys.RouteCollides`); without
  one they cannot (`CacheKeys.PreimageInjective`).

## Model

| member | source | states |
|---|---|---|
| Text.ParagraphsOfJoin | apps/api/internal/chunks/service.go:143-147 | joining paragraphs with blank lines and splitting again gives the same paragraphs |
| Text.ParagraphsAppend | apps/api/internal/chunks/service.go:126-133 | the paragraphs of two trimmed texts joined by a break are those of the first, then those of the second |
| Text.TrimIsWindow | apps/api/internal/chunks/service.go:126-127 | trimming keeps one window of the text and drops only white space around it |
| Text.JoinOfSplit | apps/api/internal/chunks/service.go:133-133 | the pieces between blank lines, joined again, are the text |
| Chunker.SplitIntoChunks | apps/api/internal/chunks/service.go:122-165 | the packing loop with its string buffer and rune counter returns the chunks of the paragraph-level specification, for every text and bound |
| Chunker.HardSplitRunes | apps/api/internal/chunks/service.go:167-179 | the re-slicing loop cuts as the recursive specification does, whose pieces the lemmas below describe |
| Chunker.HardSplitKeepsText | apps/api/internal/chunks/service.go:167-179 | the hard-split pieces put together are the text itself |
| Chunker.HardSplitIsFull | apps/api/internal/chunks/service.go:167-179 | every piece but the last has exactly max runes, and the last has 1 to max |
| Chunker.HardSplitCount | apps/api/internal/chunks/service.go:167-179 | n runes are cut into ceiling(n / max) pieces |
| Chunker.SplitIsGreedy | apps/api/internal/chunks/service.go:143-163 | the chunks are those of a greedy grouping of all paragraphs in order: an over-long one alone, the others filled until the next, without its break, no longer fits |
| Chunker.OverlongCutInPlace | apps/api/internal/chunks/service.go:152-155 | the full pieces and the remainder of an over-long paragraph stand one after the other in the answer |
| Chunker.ContentConserved | apps/api/internal/chunks/service.go:122-179 | the chunks put together are the input, in order, up to white space, also when packed and hard-split paragraphs alternate |
| Chunker.ChunkSizes | apps/api/internal/chunks/service.go:149-161 | no chunk is empty; a chunk of one paragraph or a hard-split piece has at most max runes and a packed one at most max + 2 |
| Chunker.DocumentedBoundIff | apps/api/internal/chunks/service.go:149-161 | every chunk has at most max runes if and only if no paragraph fits where its break does not |
| Chunker.BoundIsTight | apps/api/internal/chunks/service.go:149-161 | max + 2 is reached for every max of at least two |
| Chunker.ThreeChunksExceedBound | apps/api/internal/chunks/service.go:143-163 | any three consecutive chunks together hold more than max runes |
| Chunker.ChunkCount | apps/api/internal/chunks/service.go:122-179 | n runes give at most 3 * floor(n / (max + 1)) + 2 chunks |
| Chunker.ResplitFixedPoint | apps/api/internal/chunks/service.go:92-107 | splitting the text of a stored row again gives that one text |
| Chunker.ParagraphsSurvive | apps/api/internal/chunks/service.go:143-163 | when no paragraph is over-long, the paragraphs of the chunks are those of the text, unbroken and in order |
| Extract.JoinNonEmptyParts | apps/api/internal/chunks/extract.go:170-179 | the loop joins the trimmed non-blank parts |
| Extract.JoinMessageItems | apps/api/internal/chunks/extract.go:137-166 | one line per object with text, author first when known, with both field fallbacks |
| Extract.JoinNonEmptyParagraphs | apps/api/internal/chunks/extract.go:170-179 | the paragraphs of the joined text are those of each part, part by part |
| Extract.ExtractedParagraphs | apps/api/internal/chunks/extract.go:27-109 | a multi-field record's text has the paragraphs of its fields in field order |
| ChunkIndex.Service.ReplaceRows | apps/api/internal/chunks/service.go:81-111 | one transaction replaces the rows of one root by one row per non-blank piece, ids and ordinals as specified, and touches no other root |
| ChunkIndex.Service.RebuildEntityChunks | apps/api/internal/chunks/service.go:60-112 | a missing or archived entity and every failure leave the table alone; otherwise the rows are those of title, summary and body, and their ids are returned in ordinal order |
| ChunkIndex.Service.RebuildNormalizedRecordChunks | apps/api/internal/chunks/service.go:253-308 | new state, returned ids and success for every fault; a record without text keeps its rows |
| ChunkIndex.Service.OnNormalizedRecordPersisted | apps/api/internal/chunks/service.go:314-332 | rebuild, mark, enqueue, with the state left by a failure between any two |
| ChunkIndex.Service.EnqueueEmbeddings | apps/api/internal/chunks/service.go:323-331 | the tasks before the first failing one are enqueued in order |
| ChunkIndex.Service.PersistNormalizedRecord | apps/api/internal/ingestion_connectors/artifact_worker.go:505-533 | a failed insert is an error and changes nothing; a duplicate (feed, hash) changes nothing; a new record is inserted unmarked and the hook fires |
| ChunkIndex.Service.RebuildPendingNormalizedRecords | apps/api/internal/chunks/service.go:352-388 | state, processed count and failures of one backfill call |
| ChunkIndex.IndexAppend | apps/api/internal/chunks/service.go:92-107 | the rows of two piece lists are the rows of the first, then those of the second with shifted ordinals |
| ChunkCoherence.IndexRows | apps/api/internal/chunks/service.go:92-107 | every stored row is its piece, trimmed and not blank, with a quarter of its runes as token estimate, and ordinals increase strictly |
| ChunkCoherence.IndexComplete | apps/api/internal/chunks/service.go:92-107 | every non-blank piece has its row |
| ChunkCoherence.StoredTextConserved | apps/api/internal/chunks/service.go:277-304 | the stored rows of a text hold all of it up to white space, and each row splits to itself |
| ChunkCoherence.RebuildCoherent | apps/api/internal/chunks/service.go:253-308 | a rebuild keeps the table coherent, a successful one leaves exactly the expected rows and returns their ids, a failed one changes nothing, and other roots are untouched |
| ChunkCoherence.OnPersistedCoherent | apps/api/internal/chunks/service.go:314-332 | the hook keeps coherence under every fault and marks a record only after its rows are right |
| ChunkCoherence.HookEnqueuesEveryRow | apps/api/internal/chunks/service.go:314-332 | when the hook succeeds an embedding task has been enqueued for every stored row, in order |
| ChunkCoherence.RunCoherent | apps/api/internal/chunks/service.go:253-388 | after any run of inserts, hooks, rebuilds, backfills, entity rebuilds and deletions, (feed, hash) is unique and a record's rows are empty or exactly extract-then-split, and exactly that once it is marked |
| ChunkCoherence.EveryRunCoherent | apps/api/internal/chunks/service.go:253-388 | the same for every run from the empty database |
| ChunkCoherence.RebuildIdempotent | apps/api/internal/chunks/service.go:229-252 | after one successful rebuild a further one, failing or not, leaves every stored text row as it was |
| ChunkCoherence.EntityParagraphs | apps/api/internal/chunks/service.go:70-78 | the indexed text of an entity has the paragraphs of title, summary and body in that order, an empty title included |
| ChunkCoherence.DrainCounts | apps/api/internal/chunks/service.go:352-388 | one call takes the oldest min(limit, pending) records, counts each once, and the backlog drops by at least the processed and at most all of them |
| ChunkCoherence.PendingInOrder | apps/api/internal/chunks/service.go:356-360 | the backlog is listed in the order of creation |
| ChunkCoherence.HealthyDrain | apps/api/internal/chunks/service.go:352-388 | without failures exactly the handled records leave the backlog, and the rest stays in order |
| ChunkCoherence.BacklogDrains | apps/api/internal/chunks/service.go:334-351 | without failures ceiling(P / limit) calls empty a backlog of P records |
| Evaluator.Evaluate | apps/api/internal/identity_access/access.go:118-333 | the pipeline, with any set of failing queries, gives the verdict of the rule: that of the first stage that stops, or the allow |
| Evaluator.CheckEntityAcl | apps/api/internal/identity_access/access.go:182-209 | step 4 gives the rule's verdict on an ACL deny or a failed query, and otherwise says whether the type policy is bypassed |
| Evaluator.EvaluateInDomain | apps/api/internal/identity_access/access.go:211-333 | once steps 1 to 4 let a request pass, steps 5 to 9 give the rule's verdict |
| Evaluator.CheckTypePolicy | apps/api/internal/identity_access/access.go:239-260 | step 6 either gives the rule's verdict or lets the request reach step 6b |
| Evaluator.CheckRoleTypes | apps/api/internal/identity_access/access.go:262-279 | step 6b either gives the rule's verdict or lets the request reach step 7 |
| Evaluator.CheckAction | apps/api/internal/identity_access/access.go:281-333 | once step 6b lets a request pass, steps 7 to 9 give the rule's verdict |
| Evaluator.CheckSensitivity | apps/api/internal/identity_access/access.go:304-332 | steps 8 and 9 give the rule's verdict: over the cap a refusal, otherwise the allow with its policies |
| Evaluator.EntityTypeAllowedForDomain | apps/api/internal/identity_access/entity_acl.go:51-80 | collect-then-search accepts a type iff no active policy of the domain narrows types or one of its scopes admits it |
| Evaluator.RoleEntityTypeAllowed | apps/api/internal/identity_access/access.go:401-444 | a type passes iff the union of the applicable roles' types is empty or holds it |
| Evaluator.ScanOverrides | apps/api/internal/identity_access/access.go:166-179 | refuses iff a live override denies; records the allows before the first deny, and that deny |
| Evaluator.DomainIdsWithGrant | apps/api/internal/identity_access/access.go:82-102 | lists each domain with a live grant once, none for the nil user, an error only when the query fails |
| Evaluator.PermittedNeedsGrant | apps/api/internal/identity_access/access.go:221-236 | whatever is permitted lies in a domain the principal holds a live grant on |
| AccessRules.AllowIff | apps/api/internal/identity_access/access.go:118-333 | Allow iff every gate passes on the tables and no query the request needs fails |
| AccessRules.ReasonNamesFirstFailingGate | apps/api/internal/identity_access/access.go:108-117 | the reason is a gate's iff that gate fails and all earlier gates pass; ALLOW_OK iff all pass; SensitivityOK is false only for the sensitivity reason |
| AccessRules.GatesInOrder | apps/api/internal/identity_access/access.go:108-117 | the stages of the gates follow the fixed order 1 to 8 with 6b |
| AccessRules.FaultsFailClosed | apps/api/internal/identity_access/access.go:147-318 | a database error never opens access |
| AccessRules.FailedGrantReadsAsNone | apps/api/internal/identity_access/access.go:229-235 | a failed grant query gives the very verdict of a missing grant row |
| AccessRules.DenyRowsNeverAllow | apps/api/internal/identity_access/access.go:146-196 | adding denials, overrides or ACL deny rows never turns a refusal into an allow |
| AccessRules.StatusIgnored | apps/api/internal/identity_access/access.go:348-373 | changing the status of any override never changes any verdict |
| AccessRules.NonDenyOverridesInert | apps/api/internal/identity_access/access.go:166-179 | an override that is not a deny, wherever inserted, changes neither Allow nor the reason |
| AccessRules.HigherLevelAllowsMore | apps/api/internal/identity_access/access.go:56-79 | read, write and admin allow growing sets of actions |
| AccessRules.WideningKeepsAllow | apps/api/internal/identity_access/access.go:221-313 | raising levels or caps and adding ACL allow rows never turns an allow into a refusal |
| AccessRules.NewBindingRefusesIff | apps/api/internal/identity_access/access.go:375-444 | a new role binding turns an allow into a refusal iff no applicable role constrained types before and the new one does, without the requested type |
| AccessRows.ExpiredRowsAreInert | apps/api/internal/identity_access/access.go:226-226 | removing every grant, binding and override whose time has come changes no verdict and no list of granted domains |
| AccessRows.UnexpiredRowsCount | apps/api/internal/identity_access/access.go:352-356 | while nothing has expired, removing all expiry times changes no verdict, and the granted domains are exactly the grant rows |
| AccessRows.PermittedOnRows | apps/api/internal/identity_access/access.go:118-333 | all gates pass iff, on single rows, no denial, deny override or ACL deny names the request, an unexpired grant suffices in level and cap, an unexpired binding to an active role confers the action, and the type fits |
| AccessRows.EntityViewOnRows | apps/api/internal/httpserver/routes_helpers.go:169-190 | what a permitted view of an entity needs, on the rows: cap over its own sensitivity, a role for viewing, no denial, an admitted type or an ACL row |
| AccessRows.PlainAction | apps/api/internal/identity_access/action_normalize.go:6-15 | a lower-case action stands for itself, except that manage_source_feed means manage_sources |
| AccessRows.TypesIgnoreCase | apps/api/internal/identity_access/entity_acl.go:74-77 | type scopes ignore case |
| AccessRows.LonePolicy | apps/api/internal/identity_access/entity_acl.go:51-80 | a single policy admits its own type only, unless it is inactive, of another domain, without scope or the wildcard |
| AccessRows.MatchedPoliciesIff | apps/api/internal/identity_access/access.go:446-463 | the policies recorded are exactly the active ones of the domain and of no domain |
| AccessRows.MatchedOverridesAre | apps/api/internal/identity_access/access.go:166-179 | the overrides recorded are the allows before the first deny, and that deny |
| Retrieval.FetchSize | apps/api/internal/embeddings/service.go:103-110 | the clamped oversampling window, with 64-bit wrap-around |
| Retrieval.FetchFormulaIff | apps/api/internal/embeddings/service.go:103-110 | the window is min(200, max(24, 8 * limit)) without wrap-around iff the limit is below 2^60 or lies, modulo 2^61, between 25 and 2^60 |
| Retrieval.SmallestWrap | apps/api/internal/embeddings/service.go:103-110 | the smallest limit that wraps, 2^60, gets the smallest window instead of the largest |
| Retrieval.FilterCandidatesByEntityView | apps/api/internal/embeddings/service.go:179-212 | the first viewable candidates up to the limit, in order; only viewable ones whatever fails |
| Retrieval.ViewVerdict | apps/api/internal/embeddings/service.go:195-209 | the kept candidates are exactly the permitted ones, and never more under faults |
| Retrieval.SemanticNear | apps/api/internal/embeddings/service.go:96-177 | every early return and error, and otherwise the answer of the two stages; results are granted, viewable and at most limit |
| Retrieval.DomainFilterLosesNothing | apps/api/internal/embeddings/service.go:131-148 | pre-filtering by granted domains removes no viewable chunk |
| Retrieval.TwoStageRetrieval | apps/api/internal/embeddings/service.go:95-177 | the answer is a prefix of the first limit viewable chunks of the whole ranking, and all of them iff the window holds limit viewable rows or every viewable one |
| Retrieval.NoNearerChunkSkipped | apps/api/internal/embeddings/service.go:150-151 | no viewable chunk nearer than a returned one is left out |
| Retrieval.ReturnedOnRows | apps/api/internal/embeddings/service.go:191-209 | a returned chunk's own sensitivity is within the cap of an unexpired grant on its own domain, its entity is not denied and its type admitted |
| Visibility.AllowAction | apps/api/internal/httpserver/nav_visibility.go:62-73 | yes exactly when the tables permit; under faults never more than they permit |
| Visibility.ComputeNavigationVisibility | apps/api/internal/httpserver/nav_visibility.go:21-60 | each flag holds iff the action is permitted in some domain at all; errors only from the database |
| Visibility.GovernancePublishDomainIds | apps/api/internal/httpserver/routes_helpers.go:28-53 | the granted domains one may publish in, in grant order; forbidden iff there is none anywhere |
| Visibility.RequireCanManageIdentity | apps/api/internal/httpserver/identity_admin.go:15-36 | succeeds iff some domain at all may be published in |
| Visibility.FoldsAgree | apps/api/internal/httpserver/identity_admin.go:14-36 | the three folds give the same answer with the database up, whatever order each lists the grants in |
| Visibility.PublishOnRows | apps/api/internal/httpserver/nav_visibility.go:62-73 | publishing in a domain is permitted iff there is an unexpired grant to write or administer and an unexpired binding to an active role that holds publish there |
| Visibility.FeedRightIsSources | apps/api/internal/httpserver/nav_visibility.go:44-50 | the feed flag is the right to manage sources |
| ContentTree.Feed.PersistPage | apps/api/internal/ingestion_connectors/confluence_sync.go:217-323 | exactly one counter is one; when each of them is, and exactly what both tables become |
| ContentTree.Feed.SyncSinglePage | apps/api/internal/ingestion_connectors/confluence_sync.go:117-125 | one request, and the page's effect on tables and counters; a failed request is an error and nothing else |
| ContentTree.Feed.FetchChildren | apps/api/internal/ingestion_connectors/confluence_sync.go:145-167 | the listing and its raw row when it can be had, nothing otherwise |
| ContentTree.Feed.SyncContentTree | apps/api/internal/ingestion_connectors/confluence_sync.go:127-178 | ends on every site, fetches no id twice and breadth first, accounts for every page seen, ingests at most 25, leaves the raw row of every page that got that far; it has seen exactly the pages reachable through the listings that can be had iff the queue left at the end brings nothing new, as it does whenever the cap is not reached |
| ContentTree.ClosedIsReachable | apps/api/internal/ingestion_connectors/confluence_sync.go:168-172 | a set of reachable pages that holds the root and is closed under listed children is the reachable set |
| ContentTree.WalkEnds | apps/api/internal/ingestion_connectors/confluence_sync.go:131-137 | the walk ends on every finite site, cyclic or not |
| ContentTree.WalkIsBreadthFirst | apps/api/internal/ingestion_connectors/confluence_sync.go:128-137 | the pages requested are, without repetition, the first ones met, where the root and then the listings of the pages requested are met in order |
| ContentTree.AllVisitedFacts | apps/api/internal/ingestion_connectors/confluence_sync.go:138-167 | over any list of visits each page falls in one counter, the tables only grow, by as many records as are ingested, and keep every page's raw rows |
| ContentTree.NewPageIsRecorded | apps/api/internal/ingestion_connectors/confluence_sync.go:217-323 | a page that meets no fault and whose content is new to the feed gets its record, whatever happens to the others |
| ContentTree.AppendIds | apps/api/internal/ingestion_connectors/confluence_sync.go:168-172 | the non-empty child ids join the queue behind what it held, in order |
| Related.RouteLimit | apps/api/internal/httpserver/routes_register.go:1226-1237 | six by default, otherwise the number from 1 to 12 nearest to the one asked for |
| Related.MayView | apps/api/internal/httpserver/routes_helpers.go:169-190 | one view check: exactly the permission without faults, never more with them |
| Related.ViewableOnRows | apps/api/internal/httpserver/routes_helpers.go:169-190 | an entity in the answer is within the cap of an unexpired grant on its own domain, not denied, and of an admitted type |
| Related.Walk.TryAdd | apps/api/internal/httpserver/routes_register.go:1258-1275 | adds one eligible, unseen entity with its justification, or nothing; a lookup that meets no glitch adds every eligible entity |
| Related.Walk.AddNeighbours | apps/api/internal/httpserver/routes_register.go:1277-1290 | fails iff the root's listing does; without glitches the answer has exactly the eligible ends of a prefix of the listing, in its order, and of all of it unless full |
| Related.Walk.ExpandSeed | apps/api/internal/httpserver/routes_register.go:1298-1316 | every eligible neighbour of a seed is in the answer unless it is full |
| Related.Walk.ExpandSeeds | apps/api/internal/httpserver/routes_register.go:1292-1316 | the first four seeds are expanded in order while there is room; fails iff the listing of one of those reached does |
| Related.Walk.Run | apps/api/internal/httpserver/tools_gateway_routes.go:383-445 | fails iff the root's listing or that of a seed reached with room left does; always distinct, viewable, at most limit, never the root, two-hop items via a returned viewable neighbour; when not full every neighbour and every neighbour of the first four, and with at most four seeds exactly the viewable entities within the depth |
| Review.Service.Create | apps/api/internal/extracted_meeting_tasks/service.go:139-185 | when a task is created, the draft and event it leaves; otherwise nothing changes |
| Review.Service.BeginPatch | apps/api/internal/extracted_meeting_tasks/service.go:187-218 | the read of a patch: refuses a non-draft, computes the new fields from what it read |
| Review.Service.FinishPatch | apps/api/internal/extracted_meeting_tasks/service.go:219-243 | the guarded update of a patch and its event |
| Review.Service.BeginTransition | apps/api/internal/extracted_meeting_tasks/service.go:257-264 | the read of a decision: refuses a non-draft |
| Review.Service.FinishTransition | apps/api/internal/extracted_meeting_tasks/service.go:265-291 | the guarded decision: status, confirming user and one event, or nothing at all |
| Review.Service.MetricsForDomain | apps/api/internal/extracted_meeting_tasks/service.go:294-322 | two queries outside any transaction, with any steps of others in between: each event count is the status count plus the decisions of its kind committed in between |
| Review.RunKeepsInv | apps/api/internal/extracted_meeting_tasks/service.go:139-291 | every interleaving of reads and commits keeps one created event and the matching terminal event per task |
| Review.AtMostOneTerminalEvent | apps/api/internal/extracted_meeting_tasks/service.go:257-291 | in every reachable state a decided task has exactly one terminal event, the one of its status, and a draft none |
| Review.DecidedTasksAreFrozen | apps/api/internal/extracted_meeting_tasks/service.go:224-227 | once decided, a task's row never changes again, whatever stale calls commit |
| Review.OnlyPatchesEdit | apps/api/internal/extracted_meeting_tasks/service.go:224-227 | only the commit of a patch on a draft changes a task's content, and nothing changes its domain |
| Review.ConfirmedByDecider | apps/api/internal/extracted_meeting_tasks/service.go:270-281 | in every reachable state a decided task names the user of its terminal event |
| Review.StalePatchLogsWithoutEditing | apps/api/internal/extracted_meeting_tasks/service.go:187-237 | with any steps of others between a patch's read of a draft and its commit: an edit is logged and no task changes iff a decision of the task was logged in between or the patch had nothing left to change; otherwise the task gets what was computed from the read |
| Review.DecidedIffLogged | apps/api/internal/extracted_meeting_tasks/service.go:257-291 | over any run, a draft is no longer a draft iff the log has gained a terminal event of it |
| Review.StalePatchRun | apps/api/internal/extracted_meeting_tasks/service.go:224-237 | a run from the empty database whose log ends in an edit of a rejected, unchanged task |
| Review.OverlappingPatchesIff | apps/api/internal/extracted_meeting_tasks/service.go:187-243 | two patches that read the same draft, with any steps of others before and between their commits: if the task is still open, the later commit keeps the earlier edit iff it sets every field the earlier one changed |
| Review.LostEdit | apps/api/internal/extracted_meeting_tasks/service.go:195-227 | a new title committed first is gone after a new description committed second |
| Review.MetricsAgree | apps/api/internal/extracted_meeting_tasks/service.go:294-322 | in every reachable state, read at once, a domain's status counts sum to the tasks created and each decided status counts its terminal events |
| Review.MetricsDrift | apps/api/internal/extracted_meeting_tasks/service.go:296-318 | statuses counted first and events after any run of others: the counts differ by exactly the decisions committed in between, so they agree iff there is none |
| Review.MetricsDisagree | apps/api/internal/extracted_meeting_tasks/service.go:296-318 | a run from the empty database in which the two reads report no confirmed task and one confirmation |
| Telegram.Feed.Sync | apps/api/internal/ingestion_connectors/service.go:377-455 | tables, counters and cursor after one sync, for every batch and every fault |
| Telegram.Feed.ProcessQueuedRawArtifact | apps/api/internal/ingestion_connectors/artifact_worker.go:19-38 | the retry of a raw row does nothing when a normalized row came from it, and otherwise stores the missing one, unless a step fails |
| Telegram.EveryUpdateCounted | apps/api/internal/ingestion_connectors/service.go:383-444 | ingested + deduped + errs is the fetch errors plus the filtered updates, and ingested is the growth of the normalized table |
| Telegram.ErrorFreeRunStoresAll | apps/api/internal/ingestion_connectors/service.go:387-444 | after an error-free run every update's raw row is stored |
| Telegram.StoredBatchIsInert | apps/api/internal/ingestion_connectors/service.go:413-421 | a batch whose raw rows are stored changes nothing, whatever fails |
| Telegram.SecondRunIdempotent | apps/api/internal/ingestion_connectors/service.go:383-444 | after an error-free run a second one on the same batch ingests nothing, leaves both tables, counts each update as deduplicated, and without faults has no errors of its own |
| Telegram.RawFate | apps/api/internal/ingestion_connectors/service.go:387-421 | after a sync a raw hash is stored iff it was before or its first readable copy got as far as the raw table |
| Telegram.NormFate | apps/api/internal/ingestion_connectors/service.go:387-444 | a sync stores the record of a normalized hash new to the feed iff the first readable copy of one of its raw hashes, itself new to the feed, meets no fault |
| Telegram.OrphanIff | apps/api/internal/ingestion_connectors/service.go:413-438 | a sync leaves a raw row without its record iff the row was there before without one, or the first readable copy failed between the two tables |
| Telegram.FailedNormLosesRecord | apps/api/internal/ingestion_connectors/service.go:413-438 | two syncs of one update, the first failing at the normalized write, the second error-free: no record is stored and the update counts as a duplicate |
| Telegram.OrphanStaysOrphan | apps/api/internal/ingestion_connectors/service.go:418-421 | no later sync of any batch gives such a raw row its record |
| Telegram.CursorPassesWholeBatch | apps/api/internal/ingestion_connectors/telegram_v1.go:147-155 | the next offset excludes every fetched update, stored or not |
| Telegram.MaxBounds | apps/api/internal/ingestion_connectors/telegram_v1.go:147-155 | the cursor is the greatest positive id, attained by an update, or zero |
| Telegram.FilterKeeps | apps/api/internal/ingestion_connectors/telegram_v1.go:130-145 | an update is kept iff the feed allows its primary chat and it comes from that chat |
| Telegram.FilterAppends | apps/api/internal/ingestion_connectors/telegram_v1.go:130-145 | the filter keeps the order and every copy |
| Slack.Run.Persist | apps/api/internal/ingestion_connectors/slack_sync.go:67-134 | exactly one counter moves, which one and what both tables become; an unacceptable or repeated ts touches no table |
| Slack.Run.PersistNew | apps/api/internal/ingestion_connectors/slack_sync.go:83-133 | what both tables become, and ingested iff nothing fails and both hashes are new |
| Slack.Run.See | apps/api/internal/ingestion_connectors/slack_sync.go:80-81 | maxTS stays the greatest seen ts, and empty iff none was seen |
| Slack.Run.SyncReplyPage | apps/api/internal/ingestion_connectors/slack_sync.go:155-172 | one page of replies: counted messages, a failed fetch, or the cursor of what is still to fetch |
| Slack.Run.SyncReplies | apps/api/internal/ingestion_connectors/slack_sync.go:152-174 | a whole thread is handed over page by page, up to the page cap |
| Slack.Run.SyncMessages | apps/api/internal/ingestion_connectors/slack_sync.go:147-175 | a history page with its threads is handed over whole, in whatever order sorting leaves ties |
| Slack.Run.SyncHistory | apps/api/internal/ingestion_connectors/slack_sync.go:136-180 | every page up to the cap, the end marker or the first failure |
| Slack.Run.Sync | apps/api/internal/ingestion_connectors/slack_sync.go:55-191 | the ts seen are exactly those of the acceptable messages on fetchable history pages and on fetchable pages of threads headed there; ingested + deduped + warnings + errs is the messages on the pages fetched plus the failed fetches; each ts reaches the raw table at most once, and without faults at least once; the stored cursor becomes the greatest seen ts |
| Slack.TallyOfPermutation | apps/api/internal/ingestion_connectors/slack_sync.go:147-150 | what a page amounts to does not depend on the order of its messages |
| Slack.PagesIff | apps/api/internal/ingestion_connectors/slack_sync.go:153-173 | the pages a loop gets are exactly those at the end of a chain of cursors, each page before the last ok, with more to come, and at most the cap of them |
| Slack.HistoryIsLoad | apps/api/internal/ingestion_connectors/slack_sync.go:136-180 | the messages handed over are those of the history pages and of the threads headed on them, and every failed request is counted |
| Slack.StampsAreReached | apps/api/internal/ingestion_connectors/slack_sync.go:136-180 | the ts of a run are exactly those of the acceptable messages it can fetch, threads included |
| Slack.SortByTs | apps/api/internal/ingestion_connectors/slack_sync.go:148 | a permutation in ts order |
| CacheKeys.NamespacesDisjoint | apps/api/internal/cache/keys.go:23-29 | no key lies in two namespaces, so flushing one never touches another |
| CacheKeys.RoleGrantDropsExactly | apps/api/internal/cache/invalidation.go:61-67 | a role grant drops exactly the effective-access entries the grantee asked for; every domains entry survives, the grantee's own included |
| CacheKeys.KeysScopePrincipals | apps/api/internal/cache/keys.go:31-48 | keys of different askers or targets never coincide |
| CacheKeys.SearchKeywordPreimage | apps/api/internal/cache/keys.go:48-61 | the hashed bytes are the query and the filters in key order, whatever order the map yields |
| CacheKeys.SortedUnique | apps/api/internal/cache/keys.go:51-55 | the sorted key list is unique, so map iteration order does not matter |
| CacheKeys.PreimageInjective | apps/api/internal/cache/keys.go:44-62 | with NUL-free text and `=`-free keys, equal bytes iff equal query and equal filter map |
| CacheKeys.DecodableIff | apps/api/internal/cache/keys.go:44-62 | no other query and filters at all give the same bytes iff there are no filters and the query holds no NUL followed by an `=` |
| CacheKeys.AdjacentCollide | apps/api/internal/cache/keys.go:56-61 | for every fixed set of keys, a separator inside the first filter's value can be read as the start of the second |
| CacheKeys.RouteCollides | apps/api/internal/httpserver/routes_register.go:3895-3910 | two searches of the route, with its nine fixed filters, that differ and share a key |
| Cache.Backend.Get | apps/api/internal/cache/bigcache.go:64-74 | a hit is the last value set and not deleted since; a miss forgets the key |
| Cache.Backend.Set | apps/api/internal/cache/bigcache.go:76-87 | the new entry is stored and tracked, whatever the store drops for it |
| Cache.Backend.Delete | apps/api/internal/cache/bigcache.go:89-95 | the key is gone from store and sidecar, nothing else is |
| Cache.Backend.DeletePrefix | apps/api/internal/cache/bigcache.go:97-117 | uncancelled, exactly the keys with the prefix are gone; cancelled or not, no other key is touched |
| Cache.Backend.Evict | apps/api/internal/cache/bigcache.go:18-28 | losing entries keeps live keys tracked and hits truthful |
| Cache.Invalidator.DropPrefix | apps/api/internal/cache/invalidation.go:84-98 | a blank prefix is refused, any other is swept |
| Cache.Invalidator.RoleGranted | apps/api/internal/cache/invalidation.go:61-67 | uncancelled, exactly the keys under the grantee's two prefixes are gone |
| Cache.Invalidator.PolicyUpdated | apps/api/internal/cache/invalidation.go:69-75 | uncancelled, no domains or effective-access entry can hit afterwards, and all others are as they were |
| Cache.Invalidator.SearchInvalidated | apps/api/internal/cache/invalidation.go:48-59 | the keyword-search namespace goes, and nothing else |

## Left out

- HTTP routing, SQL text, queues, object storage and the network: calls are arguments that succeed or fail.
- Hashes, JSON encoding and UUID generation are uninterpreted: a payload carries its hash, a JSON value that is not a string carries its marshalled text, and new row ids are taken in order.
- Invalid UTF-8: text is a sequence of valid runes.
- ChunkIndex.Service.RebuildNormalizedRecordChunks: reads the record and replaces its rows as one step; two concurrent rebuilds of one record could interleave their DELETE and INSERT under READ COMMITTED.
- ChunkIndex.Service.RebuildEntityChunks: coherence of entity rows is stated per call; edits of an entity between rebuilds are not part of the runs.
- ChunkIndex.Service.PersistNormalizedRecord: source timestamp, author reference and raw artifact id of a record are not kept.
- Evaluator.Evaluate: the free-text Reasons and Trace lines and the texts of denial and override reasons are not modelled, and one evaluation sees one snapshot of the tables.
- Evaluator.EntityTypeAllowedForDomain: case folding of scopes and lower-casing of actions cover ASCII letters only.
- Retrieval.SemanticNear: the corpus is given as one fixed ranking, so ties of the distance are resolved the same way each time; computing distances and storing embeddings are left out.
- Related.Walk.Run: the view check of the root entity, which both handlers make first, is left out.
- Review.Service.Create: linked entities, participants and product analytics events are not modelled; the priority check is that of the table's constraint.
- Telegram.Feed.Sync: parsing of the feed configuration, activation checks and run-status rows are left out.
- Slack.Run.Sync: the page cap is a parameter (twenty in the program); feed validation and run-status rows are left out.
- ContentTree.Feed.SyncContentTree: the single-page and space-wide feed kinds and the fields of the normalized payload are left out.
- Cache.Backend.Get: the store's internals, time-to-live and interleavings inside one cache operation are left out; deletion from the store never fails except for an absent key.
- CacheKeys.SearchKeywordPreimage: the digest of the preimage is left out; keys are compared by preimage.
- The other connectors, which repeat the loop shapes of Telegram and Slack with other fields, are left out.
- Retrieval, the three folds and the related walk make their evaluations on one snapshot of the tables; the program reads them anew at each evaluation.
- PDF, DOCX, HTML and video extraction, mail, OAuth, the web application and configuration are left out.
