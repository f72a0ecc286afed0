# Slinger Cloud sync engine: a verified model

This project models the sync engine of one workspace and three smaller machines around it, and proves what they promise.

**The workspace.** Eight kinds of resources (collections, folders, requests, environments, environment variables,
collection versions, collection variables, globals) are versioned rows. Every write, from REST or from a pushed desktop
operation, goes through one mutation that refuses, writes one row, or removes a row together with everything that refers
to it; it appends one log entry per changed row under the workspace's checkpoint and at most one audit row. A client
bootstraps from a paged snapshot that others may write during, and then replays the log.

| file | what it holds |
|---|---|
| `Prelude.dfy` | optional values, the order on ids, sorted listings |
| `Rows.dfy` | rows, foreign keys, wire payloads |
| `Tree.dfy` | the folder forest, the bounded cycle check, subtrees by level |
| `Content.dfy` | what each of the 21 mutations decides |
| `Integrity.dfy` | table invariants, cascades, and that decisions keep them |
| `Journal.dfy` | the log, replay, and what performing a decision keeps |
| `Apply.dfy` | one pushed operation: base versions and the mutation it becomes |
| `Sync.dfy` | pushes, batches, and every run of REST writes and pushes |
| `Echo.dfy` | pushing back what the server sent |
| `Writes.dfy`, `Answers.dfy` | what writes and deletes do, told on payload fields and the new state, and that the mutations and pushes do it |
| `Reasons.dfy` | why a mutation or push is refused |
| `Features.dfy` | feature shaping of payloads, logs and replicas |
| `Pull.dfy` | pull pages |
| `Snapshot.dfy`, `SnapshotPages.dfy`, `FullPages.dfy` | listings, snapshot pages, what each page sends and leaves, and why it stops |
| `Places.dfy`, `Restarts.dfy` | paging on fixed tables: exactly when it delivers everything, and when it never ends |
| `Convergence.dfy`, `Bootstrap.dfy` | a client that bootstraps while others write, and that it converges |
| `Calm.dfy`, `Falling.dfy` | exactly which events lose a folder, and runs that lose none |
| `Missing.dfy` | exactly which folders an up-to-date client lacks |
| `Pushed.dfy`, `Newline.dfy`, `Unreached.dfy`, `Race.dfy`, `Upward.dfy` | concrete runs from an empty workspace that show the failures |
| `Audit.dfy` | payload differences and audit rows |
| `Engine.dfy` | the workspace as a class whose methods change tables, log, checkpoint and audit in place |
| `CheckpointLock.dfy` | checkpoint allocation by interleaved transactions under the row lock |
| `RateLimit.dfy` | the in-memory fixed-window rate limiter |
| `Cursors.dfy`, `Keyset.dfy`, `Paginator.dfy` | cursors, keyset paging, and the dashboard's list |
| `Credentials.dfy` | refresh rotation, device sign-in, token versions and revocation |

Specifications are functions on values; the classes `Engine.Workspace`, `RateLimit.MemoryRateLimitStore`,
`Paginator.List` and `Credentials.CredentialStore` have the fields and loops of the code and are proved to compute exactly
those functions (`Performed` in `Engine.dfy` says: the decision was performed, audited and answered, and nothing else
changed). The theorems are about the functions and about whole runs of them. What a write, a delete, an answer or a page
means is told a second time without those functions, on payload fields, tables and log entries: `Writes.Wanted` is the
payload that a row is to show, `Writes.Welcome` when a write is to be accepted, `Answers.Wrote` and `Answers.Erased` what
becomes of tables and log, `Reasons.Tells` what a rejection says, `Pull.Delivered` what a pull sends.

**Where the code and its documentation differ, the model follows the code.**

- The comment on the folder query promises that the pull from the snapshot's checkpoint replays whatever folders were
  moved or deleted during the download (`server/src/services/syncSnapshot.ts:52-58`, `:84`). It replays the moved and
  deleted folders themselves, but not others that this made the download skip: an unread descendant of a moved folder
  (`Falling.CommitLosesExactly`, `Upward.UpwardLosesFolder`), and all folders after a page when one of its listed
  folders is deleted between the two queries (`Missing.FoldersSkippedExactly`, `Race.RaceLosesFolder`).
  `Convergence.Loses` names the events that lose a folder, `Calm.Calm` writes that never do: they bring the folder no
  closer to the root and delete no folder of a full list it comes after.
- The same comment calls it harmless when a folder position restarts the folders. That is so for what the client ends up
  with (`Bootstrap.BootstrapConverges` includes restarts), but not for whether it ends: the pattern at
  `server/src/services/syncSnapshot.ts:61` does not match an id with a line terminator, which a pushed id may have
  (`server/src/routes/sync.ts:13`), and a page that closes there starts the folders over
  (`Restarts.EveryPagingCompletesExactly`, `Newline.NewlineNeverEnds`).
- The comment on the snapshot order promises parents before children (`server/src/services/syncSnapshot.ts:13-15`). A
  folder whose chain of parents does not end, or not within 10000 links, is not sent at all, while requests in it are
  (`Restarts.ReceivedIsClosedExactly`, `Unreached.RequestIsSentAlone`).
- The server gives out cursors that it then refuses: it takes 512 characters (`server/src/routes/sync.ts:378`), and an id
  of control characters takes six bytes a character in the cursor's JSON (`Newline.ControlsAreNeverPassed`).
- `createCollectionVersion` documents a null result for an identical replay
  (`server/src/services/content.ts:571`); it has none, and the replay is recognised in `applyOperation`
  (`server/src/services/syncApply.ts:158-163`).

**Modelling choices.** The eight tables are one map keyed by kind and id, since ids are unique per table. Ids other
workspaces hold are a parameter of every action. Ids compare by character code. Operation ids the server makes up are
shown as none, and so never equal a client's. A removal through foreign keys is the least set closed under referrers. A
recursive folder delete from a folder on a cycle, whose query would not end, is the refusal `Diverged`. A
snapshot cursor is kept as the place it stands for; `Snapshot.Resumed` is what reading its text back makes of it, and
`Snapshot.Admitted` whether its text, base64url of JSON, is short enough to be taken. The size of a payload as JSON text
is an arbitrary function. Payload validation that fails is the input `Unreadable`; what remains of a valid payload is
which fields are present. Ciphertext is a constructor that remembers its plaintext. The clock is a parameter of rate
limiter and credential events.

## Model

| member | source | states |
|---|---|---|
| Bootstrap.BootstrapConverges | server/src/services/syncSnapshot.ts:110-164 | from any consistent workspace, for every interleaving of snapshot queries, committed REST and pushed writes, page turns (restarts and refusals included) and pulls: once the client is up to date it holds of every resource that is not a folder exactly the server's current version and shaped payload, with no hypothesis on the writes; of a folder too when its own chain of parents ended within the query's limit at the start and no event lost it while it was unread and untouched |
| Falling.CommitLosesExactly | server/src/services/syncSnapshot.ts:64-79 | which write loses an unread folder that it is not about: exactly one that moves a folder above it, when it is not in the list in hand, and either its chain of parents no longer ends, or ends deeper than the query goes, or its new depth and id, computed before the write, are at or before the cursor or the end of that list |
| Bootstrap.ReadFoldersLosesExactly | server/src/services/syncSnapshot.ts:80-87 | when reading the rows of a list in hand loses an unread folder: exactly when it is in the list, not sent, and has moved to or before the last row sent, or comes after a full list that lost a row and was sent to its end |
| Calm.LosesExactly | server/src/services/syncSnapshot.ts:110-164 | no other event loses one: after an event that adds no entry about it, a folder ahead of the download is read or still ahead unless the event is one of those two |
| Calm.CalmRunLosesNothing | server/src/services/syncSnapshot.ts:52-58 | a run whose writes bring the unread folder no closer to the root and keep the folders of a full list it comes after loses nothing |
| Missing.CalmBootstrapRebuildsView | server/src/routes/sync.ts:322-355 | after a run calm for every folder, from any workspace that REST and push built, the replica agrees with the shaped view of the tables on everything but folders that were out of the query's reach at the start and not written to since; it is that view when none was |
| Missing.MissingExactly | server/src/services/syncSnapshot.ts:52-58 | whatever was written when: at any point past the folders, an up-to-date client will be wrong about exactly the folders that exist, that it does not hold at that point, and that no entry since the checkpoint is about |
| Missing.OnlyUntouchedFoldersGoMissing | server/src/services/syncSnapshot.ts:56-58 | with no hypothesis at all, an up-to-date client is right about a resource, or it is a folder that exists, that the client lacks, and that no log entry since the snapshot's checkpoint is about |
| Missing.FoldersSkippedExactly | server/src/services/syncSnapshot.ts:60-87 | after a full first folder query the scan goes on to the next type, although folders may follow, if and only if a listed folder was deleted before the second query and what is left of the list fits the page |
| Missing.PassedFoldersStayMissing | server/src/services/syncSnapshot.ts:126-162 | a folder the download has passed by stays missing through every continuation until an entry is logged about it |
| Falling.FallenBehindExactly | server/src/services/syncSnapshot.ts:60-79 | a folder behind the cursor, with nothing written until the download is past the folders, is read after all if and only if some page meanwhile closed at a folder whose id does not read back |
| Upward.UpwardLosesFolder | server/src/services/syncSnapshot.ts:64-79 | a run from an empty workspace: three nested folders are pushed, downloaded one to a page, and the middle one is moved to the top after the second; however the run goes on, every up-to-date client lacks the innermost folder until it is written |
| Race.RaceLosesFolder | server/src/services/syncSnapshot.ts:80-87 | a concrete five-event run (page limit 1, one folder deleted between the two folder queries) after which, however the run continues, another folder is missing from every up-to-date client until it is written |
| Convergence.CopyCatchesUp | server/test/syncV2.test.ts:757-767 | replaying with deletes always and upserts only when absent or not older: a copy read at a later log position stays that copy until replay reaches the position and is the truth from then on |
| Convergence.AbsentCatchesUp | server/test/syncV2.test.ts:757-767 | a resource that was never read is right from its first replayed entry on |
| Bootstrap.ScanKeepsListed | server/src/services/syncSnapshot.ts:143-161 | a listed row is sent by a scan turn, or the page is closed with the cursor still before the row |
| Bootstrap.UntouchedRow | server/src/services/content.ts:233-263 | a row changes between two reachable states only if an entry about it was logged in between |
| Sync.LogIsComplete | server/src/services/content.ts:233-263 | after every run of REST writes and pushed operations from an empty workspace, replaying the whole log from nothing gives exactly the live rows with versions and payloads, cascades included |
| Journal.ReplayIsLast | server/test/syncV2.test.ts:757-767 | in a log of lives the version check of the replica never drops an entry: replay leaves what the last entry of each resource says |
| Sync.RunsAreConsistent | server/src/services/content.ts:268-714 | every reachable state has matching kinds and versions, resolving references within one collection, unique keys, stored secrets, a log numbered 1..checkpoint made of lives (upsert 1..n, delete n), single-use operation ids, and tables equal to the log's last entries |
| Journal.PerformKeepsConsistent | server/src/services/content.ts:233-263 | one decision, logged, keeps all of that |
| Sync.KeysAndSecretsHold | server/src/services/content.ts:485-706 | over all runs: key per environment, collection and workspace and semver per collection are unique; a secret environment variable stores nothing or ciphertext and a secret global nothing; no entry marked secret carries a value; the folder of a row is in the row's collection |
| Journal.EntriesAfterCheckpoint | server/src/services/syncLog.ts:28-49 | the entries with a number above checkpoint c are exactly the log without its first c entries |
| Sync.EveryPrefixIsClosed | server/src/services/content.ts:297-302 | every prefix of the log of every run replays to a replica in which references to collections, environments and folders resolve, parents of folders aside |
| Sync.PrefixesInRunsAreClosed | server/src/services/content.ts:366-386 | parents of folders resolve too at every prefix that does not end inside a collection delete |
| Journal.PartlyIsClosed | server/src/services/content.ts:382-385 | part way through a delete every row still there finds what it refers to |
| Integrity.Cascade | server/prisma/schema.prisma:243-423 | what ON DELETE CASCADE removes contains the deleted row and is closed under referrers |
| Integrity.CascadeIsLeast | server/prisma/schema.prisma:243-423 | and is the least such set |
| Integrity.CollectionListsCascade | server/src/services/content.ts:289-304 | variables, versions, requests and folders by id, then the collection, are exactly the cascade, each once, requests before folders |
| Integrity.FolderListsCascade | server/src/services/content.ts:367-385 | requests, then descendant folders deepest first, then the folder, are exactly the cascade, each once, every row before what it refers to |
| Integrity.EnvironmentListsCascade | server/src/services/content.ts:470-474 | the variables and the environment are exactly the cascade |
| Integrity.DecisionsFit | server/src/services/content.ts:268-714 | every mutation writes a row that fits (references, collection of the folder, unique key, secrecy) or lists exactly a cascade, or refuses |
| Integrity.WriteKeepsWellFormed | server/src/services/content.ts:268-714 | writing a row that fits keeps all table invariants |
| Integrity.EraseKeepsWellFormed | server/src/services/content.ts:285-386 | removing a cascade keeps all table invariants |
| Tree.WalkMeetsExactly | server/src/services/content.ts:320-327 | the bounded walk finds the folder if and only if it is one of the first 1000 folders from the start of the walk |
| Tree.MoveRefusedExactly | server/src/services/content.ts:315-328 | a move is refused as cyclic if and only if the folder is met within the limit |
| Tree.MoveKeepsForestExactly | server/src/services/content.ts:342-362 | moving a folder keeps the forest if and only if the new parent is outside its subtree |
| Tree.CyclesAcceptedExactly | server/src/services/content.ts:315-362 | a move of a forest that the check lets through makes a cycle if and only if the folder is more than 1000 levels above its new parent |
| Pushed.DeepRunMakesCycle | server/src/services/content.ts:323-326 | runs from an empty workspace that show it: for every length over 1000, pushes with ids of 1 to 64 characters build a chain, and one more push moves its first folder under its last, is accepted and leaves a cycle |
| Tree.CheckedParentIsOutside | server/src/services/content.ts:315-328 | within the limit a kept or accepted parent is never in the folder's subtree |
| Tree.SubtreeFacts | server/src/services/content.ts:369-375 | off cycles the descendants are closed under children, each once, children before parents |
| Tree.OnCycleExactly | server/src/services/content.ts:369-375 | the recursive query from a folder has no end if and only if the folder is met again going up from its own parent |
| Tree.ForestSubtree | server/src/services/content.ts:369-375 | in a forest the descendants are exactly the folders strictly below |
| Tree.ForestExactly | server/src/services/syncSnapshot.ts:64-74 | where parents resolve, the parent links form a forest if and only if the chain of parents of every folder ends |
| Tree.SubtreeIsQueryResult | server/src/services/content.ts:369-375 | the levels are exactly the rounds of the recursive query, which therefore ends |
| Sync.StepKeepsForestExactly | server/src/services/content.ts:315-362 | an action on a forest leaves a forest if and only if it does not move a folder into its own subtree |
| Sync.ShallowRunsKeepForest | server/src/services/content.ts:315-362 | along every run whose folders never have more than 1000 proper ancestors the folders form a forest |
| Answers.PushedWriteIsRight | server/src/services/syncApply.ts:59-191 | a pushed create or update that is not in the log, of any kind: accepted exactly when its base is the row's version (0 for a new one), its payload can be read and the write is welcome, and then the row's payload shows every pushed field as pushed and the others as they were or by default, the log grows by one entry saying so, and nothing else changes; a collection version sent again unchanged is accepted without a change; anything else is rejected without one |
| Answers.PushedDeleteIsRight | server/src/services/syncApply.ts:59-191 | a pushed delete that is not in the log, of any kind: from the row's version it is accepted with that version, the row and everything referring to it, directly or not, are gone and nothing else, and the log grows by one tombstone for each, the row's last and alone under the operation id; without the row, from another version, or on a cycle of folders it is rejected for just that reason |
| Answers.WriteIsRight | server/src/services/content.ts:268-706 | each of the twelve creates, updates and sync writes by id, performed on its own: accepted exactly when the expected version is the row's and the write is welcome, and then its row, its entry and nothing else change, shown field by field as given, as they were, or by default; a moved request shows its new collection and folder |
| Answers.PutVariableIsRight | server/src/services/content.ts:485-517 | the REST write of a variable goes to the variable that shows the environment and key, or makes a new one; it shows the value unless secret, stores it as given or sealed, and is refused exactly without the environment, with a wrong version or a taken id |
| Answers.DeleteIsRight | server/src/services/content.ts:285-714 | each of the eight deletes, with or without a version given: the row it names and everything referring to it are gone, with a tombstone each, exactly when the version given is the row's and the folder is on no cycle |
| Writes.WritesAreRight | server/src/services/content.ts:268-706 | what accepts a write, told on payloads only: the container and folder that the row would show are there and fit together, it stays in its container, its new parent is not below it within the limit, no other row shows its unique key, a new one has its required fields and a free id |
| Reasons.GateAnswersExactly | server/src/services/syncApply.ts:40-48 | the answer to a new operation is a version mismatch with n if and only if the resource is there at version n and the base differs (outside pushed collection versions); gone if and only if it edits, from a base above 0, something that is not there; immutable with n if and only if it changes a collection version stored at n |
| Reasons.RejectionsAreTrue | server/src/routes/sync.ts:83-116 | every reason a new operation is rejected for is true of it: what is not found is missing from the tables, what is invalid is misplaced or a secret with a value, what is malformed cannot be read or lacks a required field, a duplicate names the row that shows the same key, an id in use belongs to another workspace, and a bare unique violation never happens |
| Reasons.HolderIsNamed | server/src/services/content.ts:537-706 | a pushed write with nothing else wrong than a taken key is told the id of the row that holds it |
| Reasons.IdInUseExactly | server/src/services/syncApply.ts:59-191 | a readable operation is answered with id in use if and only if it creates a row under an id that another workspace holds |
| Reasons.ReasonsAreTrue | server/src/services/content.ts:268-706 | the same of every write by id, from REST too: each reason of a refusal is true of the mutation and the rows |
| Reasons.MergeGoesThrough | server/src/routes/sync.ts:204-205 | after a version mismatch, the edit pushed again from the version it was told is applied if and only if it is welcome, and is never stale |
| Reasons.OthersChangeNothing | server/src/routes/sync.ts:238-269 | an operation that is logged already or meant for another workspace changes nothing; one that its lookup finds is answered by its entry, one of another workspace as invalid, and one logged since the lookup by its entry if the tables would let it through |
| Apply.NoLostUpdate | server/src/services/syncApply.ts:40-48 | a pushed operation writes or removes exactly the resource it names, an existing one only from the version it claims as base, a new one only from base 0 |
| Apply.StaleBaseRefused | server/src/services/syncApply.ts:40-48 | a stale base is answered with the server's version whatever the payload |
| Apply.EditOfDeletedRefused | server/src/services/syncApply.ts:46-48 | an edit of something deleted meanwhile is refused as gone, never turned into a new row |
| Apply.DecisionTarget | server/src/services/syncApply.ts:59-191 | a mutation acts on the resource it names and nothing else, apart from rows a delete takes along |
| Sync.PushIsIdempotent | server/src/routes/sync.ts:238-274 | after an operation was applied, in every later state of every run pushing it again changes nothing, whatever its first lookup saw; when the lookup sees the entry the answer is the original one |
| Sync.AppliedIsLogged | server/src/routes/sync.ts:252-254 | an operation that changed anything was not logged before and is logged now with the id and version it was accepted with |
| Sync.RejectionLeavesNoTrace | server/src/routes/sync.ts:255-273 | a rejected operation leaves the state as it was |
| Sync.BatchAnswersEach | server/src/routes/sync.ts:238-274 | every operation of a batch is done and answered exactly once, in order, in the state that those before it left; a rejected one changed nothing |
| Sync.AnswersArePartitioned | server/src/routes/sync.ts:238-274 | the accepted and rejected lists share out the answers, each as often as it was given |
| Echo.EchoKeepsRow | server/src/services/syncApply.ts:129-190 | pushing back the payload the server sends, with its version, writes the very row it came from, stored ciphertext included; a collection version is accepted without a write |
| Echo.EchoRecreatesRow | server/src/services/syncApply.ts:139-190 | pushing the payload of a row as new, where it fits and is not there, makes the row again, less the secret and the author |
| Echo.AbsentKeepsRow | server/src/services/content.ts:273-282 | an update that gives none of its fields writes the same row: absent is unchanged, in every kind that has partial updates |
| Rows.PayloadShowsRefs | server/src/services/content.ts:181-231 | a payload shows exactly the foreign keys of its row |
| Rows.PayloadsAreSecretFree | server/src/services/content.ts:203-228 | no payload marked secret has a value |
| Features.ShapeCommutesWithReplay | server/src/services/syncFeatures.ts:25-59 | the visible part of a full replica is the replay of the visible, shaped part of the log, for any declared features |
| Features.ShapedLogRebuildsView | server/src/routes/sync.ts:342-350 | replaying the shaped log from nothing gives the shaped view of the tables, the same view the snapshot lists |
| Features.ShapeKeepsExactly | server/src/services/syncFeatures.ts:50-58 | a collection or folder field survives exactly when its feature was declared or it needs none |
| Features.FieldsShownExactly | server/src/services/syncFeatures.ts:18-23 | which feature shows which field of a collection or folder, one by one, and that all other fields and kinds but versions stay whole |
| Features.RowsShownExactly | server/src/services/syncFeatures.ts:14-17 | a client sees collection variables and globals only with their features, everything else always, at the stored versions |
| Features.VersionShownExactly | server/src/services/syncFeatures.ts:43-49 | a version payload has an author field, null if need be, exactly for clients declaring it, its other fields unchanged, and tombstones stay empty |
| Features.ShapePayload | server/src/services/syncFeatures.ts:42-59 | the loop that deletes undeclared fields one by one computes the shaped payload |
| Features.AllFeaturesSeeEverything | server/src/services/syncFeatures.ts:25-35 | a client with every feature sees the tables unshaped |
| Pull.PullsDeliverTheLog | server/src/routes/sync.ts:325-354 | for any limits and byte cap, repeated pulls concatenate to exactly the visible entries after the starting checkpoint, and reach the end within as many pages as there are entries |
| Pull.PullsSendTheLog | server/src/routes/sync.ts:342-350 | what repeated pulls send, entry by entry: numbers strictly rise between the two checkpoints, the operation with number n is the n-th entry in operation id, resource, change, version and base, with that entry's payload shaped, and every visible entry between the checkpoints is there; asked after a checkpoint that is not there yet they send nothing |
| Pull.PageSendsTheLog | server/src/routes/sync.ts:325-354 | the same of one page, up to the checkpoint it answers |
| Pull.PageIsFull | server/src/routes/sync.ts:325-341 | a page stops before the end of the log only at its limit or where one more entry would pass the byte cap |
| Pull.FittingIsLargest | server/src/routes/sync.ts:333-341 | a page holds the most entries the byte cap allows, and one in any case |
| Pull.PageProgress | server/src/routes/sync.ts:333-352 | every page before the end advances the checkpoint, hidden entries included, and `has_more` is false exactly at the end of the log |
| Restarts.PagesCompleteExactly | server/src/services/syncSnapshot.ts:126-163 | on fixed tables, for any limits per page, byte cap and sizes and at least one page per row: following the cursor ends with exactly the rows of the shaped view of the tables, each once, if and only if every page closes with a cursor that carries its place and the folder query reaches every folder |
| Restarts.EveryPagingCompletesExactly | server/src/services/syncSnapshot.ts:60-74 | every choice of limits does if and only if of every visible type a cursor at each listed row but the last carries its place, and the chain of parents of every folder ends within 10000 links |
| Restarts.PagesDeliverExactly | server/src/services/syncSnapshot.ts:126-163 | what the queries list comes in order and each row once, and the download ends, if and only if every page closes with a cursor that carries its place |
| Restarts.ResumableExactly | server/src/services/syncSnapshot.ts:60-63 | a cursor carries its place at each listed row but the last of its type if and only if no row blocks a download |
| Restarts.OrdinaryIsResumable | server/src/routes/sync.ts:13 | it does in all tables whose ids have 1 to 64 units and no control characters or line terminators |
| Restarts.ReceivedIsClosedExactly | server/src/services/syncSnapshot.ts:13-15 | after any number of pages, restarts or not, what a received row refers to was received if and only if the folder query reaches it; collections, environments and parents of received folders always were |
| Restarts.BlockedDownloadsNeverEnd | server/src/services/syncSnapshot.ts:60-63 | where a cursor does not carry its place before the last row of a type, a download of one row a page never ends and sends only rows up to that one; when no cursor is too long it goes on for ever, one row a page |
| Restarts.NothingAfterIsSent | server/src/services/syncSnapshot.ts:60-63 | and no row after it is ever sent |
| Newline.NewlineNeverEnds | server/src/routes/sync.ts:13 | a run that does it: two folders are pushed, the first with a line break in its id; every page sends a row, and never the second folder |
| Newline.ControlsAreNeverPassed | server/src/routes/sync.ts:378 | another: the first id is 64 control characters, within the limit for ids, and the cursor at it is longer than the server takes |
| Unreached.CycleIsNeverSent | server/src/services/syncSnapshot.ts:64-74 | a third: after pushes whose last makes a cycle of more than 1000 folders, no page of any download sends any of them |
| Unreached.RequestIsSentAlone | server/src/services/syncSnapshot.ts:126-163 | after one more push every long enough download of that workspace ends regularly, with a request whose folder it never sends |
| Unreached.DeepFolderIsNeverSent | server/src/services/syncSnapshot.ts:72 | of a pushed chain of folders exactly those within the depth limit are reached, and the others are never sent |
| Snapshot.ResumesExactly | server/src/services/syncSnapshot.ts:60-63 | a cursor reads back as its place, down to every depth the query reaches, if and only if it stands at the beginning of a type or its id reads back; otherwise the type starts over |
| Snapshot.OrdinaryIsCarried | server/src/services/syncSnapshot.ts:38-48 | a cursor at a row with an id of 1 to 64 units without control characters and line terminators is taken and read back |
| Cursors.EncodedLengthIs | server/src/services/syncSnapshot.ts:34-36 | the length of a base64url text, which the limit on cursors is about |
| SnapshotPages.PageIsPrefix | server/src/services/syncSnapshot.ts:131-161 | from wherever a cursor resumes, a page and what its own cursor leaves are everything; a next cursor is given only when more of its type is left, and a page is empty only when everything is |
| SnapshotPages.RestElement | server/src/services/syncSnapshot.ts:126-156 | the full list holds a row at a version and payload exactly when the shaped view of the tables does and the queries reach it; with no hypothesis on the tables |
| SnapshotPages.RestInOrder | server/src/services/syncSnapshot.ts:13-15 | the full list goes by type, then by position |
| SnapshotPages.NoneSentTwice | server/src/services/syncSnapshot.ts:126-163 | no resource is listed twice, and every listed one is a live row |
| SnapshotPages.ParentsComeFirst | server/src/services/syncSnapshot.ts:52-58 | what a listed row refers to is listed before it if and only if the folder query reaches it; a folder's parent always is |
| SnapshotPages.ListedExactly | server/src/services/syncSnapshot.ts:64-79 | a listing holds exactly the rows of its type whose chain of parents ends within the limit, each at its (depth, id), or (0, id), whatever cycles there are besides |
| SnapshotPages.ResumeAfter | server/src/services/syncSnapshot.ts:75-79 | resuming after the m-th listed row continues with the next one |
| Snapshot.EmitSendsPrefix | server/src/services/syncSnapshot.ts:145-156 | the inner loop sends a prefix of the rows, at least one on an empty page, and leaves the cursor at its last row |
| SnapshotPages.PageInBounds | server/src/services/syncSnapshot.ts:131-156 | a page holds at most `limit` entities and keeps to the byte cap unless it holds only one |
| FullPages.PageStopsForReason | server/src/services/syncSnapshot.ts:127-161 | a page that leaves rows to its cursor holds `limit` entities, or has no room for the next row, or ends with a batch of twenty collection versions of which more follow |
| Cursors.PositionRoundTrip | server/src/services/syncSnapshot.ts:60-63 | a folder position reads back as (depth, id) if and only if the depth has at most nine digits and the id is not empty and has no line terminator |
| CheckpointLock.VisibleNumbersAreExact | server/src/services/syncLog.ts:28-50 | with interleaved transactions and the row lock held to their end, committed entries always carry exactly the numbers 1 to the committed checkpoint, in order |
| CheckpointLock.SeenCheckpointIsFinal | server/src/services/syncLog.ts:28-50 | once a reader has seen a checkpoint, an entry has a number up to it if and only if it was there already |
| CheckpointLock.CommitIsAtomic | server/src/services/syncLog.ts:8-12 | a transaction's entries appear all at once, next to each other, or not at all |
| CheckpointLock.LockIsFreed | server/src/services/syncLog.ts:28-33 | the lock's holder can go on, and ending its transaction frees the lock |
| Audit.BeforeIsTheRow | server/src/services/content.ts:237-247 | the payload of the last log entry is the row's payload just before the write, and none for a new or re-created id |
| Audit.WritesAuditedRightly | server/src/services/contentAudit.ts:129-146 | created, under its name, exactly for an item the tables lacked, updated for one they had with the difference to the payload it replaced, and no row exactly when that difference is empty |
| Audit.DeletesAuditedRightly | server/src/services/content.ts:296-304 | a delete adds one row, for the root, named after what the row was |
| Audit.EmptyDiffExactly | server/src/services/contentAudit.ts:88-110 | the difference is empty if and only if no field it cares about differs, the position is the same and the item is not secret |
| Audit.DiffTellsExactly | server/src/services/contentAudit.ts:88-110 | how often each change is told: every field that counts and differs once, with both values if they are short and not secret, each changed part of a request document as often as it is named, and nothing else; a new position, or failing that the value of a secret, only when nothing else differs |
| Audit.RowsGoByTheirName | server/src/services/contentAudit.ts:112-116 | an item is named after its name, key or version, and not at all when that is empty |
| Audit.DiffShowsNoSecret | server/src/services/contentAudit.ts:96-100 | the value of anything secret before or after is never shown |
| Audit.DiffPayloads | server/src/services/contentAudit.ts:88-110 | the loop over the fields of both payloads computes the difference |
| Engine.Workspace.KeepsConsistent | server/src/services/content.ts:268-714 | whichever mutation a method performed, a consistent workspace stays consistent (tables, log and checkpoint together); `Execute`, `PushOperation` and `PushOperations` promise it outright |
| Engine.Workspace.RecordChange | server/src/services/syncLog.ts:13-51 | increments the checkpoint and appends the entry that carries it |
| Engine.Workspace.AuditChange | server/src/services/contentAudit.ts:129-178 | appends the audit row of one change, or none for an update without a visible difference |
| Engine.Workspace.Log | server/src/services/content.ts:233-263 | audits a change that was not cascaded against the last entry, then records it, a tombstone with an empty payload |
| Engine.Workspace.InsertRow | server/src/services/content.ts:268-272 | creates a row at version 1 and logs it, or refuses a taken id |
| Engine.Workspace.UpdateRow | server/src/services/content.ts:276-282 | replaces a row at its next version and logs it |
| Engine.Workspace.DeleteRow | server/src/services/content.ts:296-304 | removes the row and its cascade and logs a tombstone per listed child, then one for the row |
| Engine.Workspace.DeleteLeaf | server/src/services/content.ts:442-448 | removes a row nothing refers to, checking a given version |
| Engine.Workspace.UpdateCollection | server/src/services/content.ts:273-284 | new state, log, audit and answer of the update, absent fields unchanged |
| Engine.Workspace.DeleteCollection | server/src/services/content.ts:285-305 | new state, log, audit and answer of the delete with its four kinds of children, which `Answers.DeleteIsRight` tells in the new state |
| Engine.Workspace.AssertFolder | server/src/services/content.ts:309-314 | a folder that is not there is not found, one of another collection is invalid |
| Engine.Workspace.AssertParentFolder | server/src/services/content.ts:315-328 | the loop that walks up at most 1000 folders computes the parent check |
| Engine.Workspace.CreateFolder | server/src/services/content.ts:329-341 | new state, log, audit and answer of the create |
| Engine.Workspace.UpdateFolder | server/src/services/content.ts:342-362 | new state, log, audit and answer of the update or move |
| Engine.Workspace.DeleteFolder | server/src/services/content.ts:363-386 | new state, log, audit and answer of the delete of a subtree |
| Engine.Workspace.CreateRequest | server/src/services/content.ts:394-406 | new state, log, audit and answer of the create |
| Engine.Workspace.UpdateRequest | server/src/services/content.ts:411-441 | new state, log, audit and answer of the update or move between collections, which `Answers.WriteIsRight` tells field by field |
| Engine.Workspace.UpdateEnvironment | server/src/services/content.ts:456-465 | new state, log, audit and answer of the update |
| Engine.Workspace.DeleteEnvironment | server/src/services/content.ts:466-475 | new state, log, audit and answer of the delete with its variables |
| Engine.Workspace.PutVariable | server/src/services/content.ts:485-517 | new state, log, audit and answer of the write by (environment, key), a secret encrypted |
| Engine.Workspace.DeleteVariable | server/src/services/content.ts:519-525 | new state, log, audit and answer of the delete by (environment, key) |
| Engine.Workspace.SyncPutVariable | server/src/services/content.ts:537-568 | new state, log, audit and answer of the sync write, stored ciphertext kept |
| Engine.Workspace.CreateCollectionVersion | server/src/services/content.ts:572-591 | new state, log, audit and answer of the create, semver clashes refused |
| Engine.Workspace.SyncPutCollectionVariable | server/src/services/content.ts:620-654 | new state, log, audit and answer of the sync write |
| Engine.Workspace.SyncPutGlobalVariable | server/src/services/content.ts:672-706 | new state, log, audit and answer of the sync write, a secret storing nothing |
| Engine.Workspace.ApplyOperation | server/src/services/syncApply.ts:59-191 | performs exactly the decision made for the operation |
| Engine.Workspace.Transact | server/src/routes/sync.ts:252-257 | the same in a transaction that a second use of the operation id rolls back entirely |
| Engine.Workspace.PushOperation | server/src/routes/sync.ts:239-273 | one operation of a push: replay lookup, transaction, second lookup after a unique violation, and the answer that `Answers.PushedWriteIsRight`, `Answers.PushedDeleteIsRight` and `Reasons.GateAnswersExactly` are about |
| Engine.Workspace.PushOperations | server/src/routes/sync.ts:238-274 | the loop over a batch leaves the state, the audit and the two lists the specification says |
| Engine.Workspace.CutAtCap | server/src/routes/sync.ts:333-341 | the loop that stops at the byte cap counts the entries that fit |
| Engine.Workspace.PullPage | server/src/routes/sync.ts:325-354 | reads one entry more than asked for and answers with the page, checkpoint and `has_more` that `Pull.PageSendsTheLog` and `Pull.PageIsFull` are about |
| Engine.Workspace.EmitRows | server/src/services/syncSnapshot.ts:145-156 | the loop that sends rows up to the byte cap |
| Engine.Workspace.ScanType | server/src/services/syncSnapshot.ts:127-161 | one turn of the scan loop |
| Engine.Workspace.ReadSnapshotPage | server/src/services/syncSnapshot.ts:110-164 | refuses a cursor that is too long; otherwise the scan loop computes the page from the cursor read back, or from the current checkpoint |
| RateLimit.RunAllowsAtMostTwice | server/src/routes/sync.ts:120-121 | over every run of the store with a non-decreasing clock and no eviction, with any sweeps and hits of other keys: any half-open interval of one window's length holds at most twice the limit of hits of a key answered within the limit |
| RateLimit.RunRefusesOnlyOverLimit | server/src/routes/sync.ts:120-121 | in such a run a hit is answered over the limit only when the last `limit` hits of its key before it fall within one window length of it |
| RateLimit.HitAnswersFromOwnHits | server/src/lib/rateLimitStore.ts:22-33 | as long as nothing is evicted, a hit is answered from the earlier hits of its own key alone |
| RateLimit.SweepsChangeNoAnswer | server/src/lib/rateLimitStore.ts:35-38 | two runs with the same hits of a key, swept whenever they like, answer its next hit alike |
| RateLimit.StoreStaysBounded | server/src/lib/rateLimitStore.ts:26-27 | the map never holds more keys than a positive `maxEntries` |
| RateLimit.ForgetsExactly | server/src/lib/rateLimitStore.ts:26-27 | a hit of another key makes a live bucket forget its count if and only if that key is new, the live buckets alone fill the map, and this one is the oldest of them; otherwise it changes nothing about it |
| RateLimit.MemoryRateLimitStore.Record | server/src/lib/rateLimitStore.ts:22-33 | new buckets, their order and the answer of one hit |
| RateLimit.MemoryRateLimitStore.FreeSlot | server/src/lib/rateLimitStore.ts:26-27 | sweeps when full and drops the oldest key when still full |
| RateLimit.MemoryRateLimitStore.Sweep | server/src/lib/rateLimitStore.ts:35-38 | the loop drops exactly the expired buckets and keeps the order |
| Paginator.ListIsOneChain | admin-dashboard/src/lib/state/paginator.svelte.ts:24-61 | under any interleaving of load, load-more and answers in any order, failed or superseded ones included, the list shows the pages of one cursor chain from the first page |
| Paginator.ListIsPrefix | admin-dashboard/src/lib/state/paginator.svelte.ts:24-61 | against keyset paging of a fixed table, in either order and with any page sizes, the list is a duplicate-free prefix of the ordered table, and all of it once it says there is no more |
| Paginator.ListSaysWhatItWaitsFor | admin-dashboard/src/lib/state/paginator.svelte.ts:24-61 | under any interleaving the list is loading if and only if a load of the current generation is in flight, and loading more if and only if a load-more of it is; it shows an error exactly after a failed load, and a load-more error only when nothing is loading |
| Paginator.MoreIsWithinReach | admin-dashboard/src/lib/state/paginator.svelte.ts:44-60 | a ready list with more to come has a load-more for its cursor in flight, or the next load-more makes one |
| Paginator.FailuresAreShown | admin-dashboard/src/lib/state/paginator.svelte.ts:36-60 | a failed answer of the current generation shows its message and leaves items and cursor alone, and after a load-more the next one may be made at once |
| Paginator.PagesAreShown | admin-dashboard/src/lib/state/paginator.svelte.ts:29-60 | a page of the current generation replaces the items or follows them, and ends the loading |
| Paginator.LoadSupersedes | admin-dashboard/src/lib/state/paginator.svelte.ts:24-31 | a load always asks for the first page, and no answer to an earlier call shows any more |
| Paginator.MoreRowsCome | admin-dashboard/src/lib/state/paginator.svelte.ts:44-60 | against a fixed table every page that a load-more brings makes the list longer, and there is more if and only if it is not yet the whole table |
| Paginator.List.Load | admin-dashboard/src/lib/state/paginator.svelte.ts:24-31 | starts a new generation and asks for the first page |
| Paginator.List.Loaded | admin-dashboard/src/lib/state/paginator.svelte.ts:32-41 | takes an answer of the current generation, ignores others |
| Paginator.List.LoadMore | admin-dashboard/src/lib/state/paginator.svelte.ts:44-50 | asks for the next page only when ready, with more to come and nothing in flight |
| Paginator.List.LoadedMore | admin-dashboard/src/lib/state/paginator.svelte.ts:51-60 | appends an answer of the current generation or keeps its message, ends the loading either way, and ignores others (`Paginator.PagesAreShown`, `Paginator.FailuresAreShown`) |
| Keyset.PageContinues | server/src/lib/pagination.ts:45-79 | the page at the cursor left by n rows holds the next rows and says truly whether and where more follow |
| Keyset.InOrderIsOrdered | server/src/lib/pagination.ts:55 | the descending list is the ascending one reversed, ordered and with the same rows |
| Keyset.FormatsAreFaithful | server/src/lib/pagination.ts:85-91 | both cursor formats carry every row with an id of 1 to 64 characters, the sort order up to its validated maximum |
| Cursors.DecodeOfEncode | server/src/lib/pagination.ts:17-19 | base64url decoding gives back the encoded bytes, whatever they are |
| Cursors.DateCursorRoundTrip | server/src/lib/pagination.ts:17-35 | a creation cursor decodes to what it was made of if and only if the id has 1 to 64 UTF-16 units |
| Cursors.SortCursorRoundTrip | server/src/lib/pagination.ts:85-92 | a sort cursor decodes to what it was made of if and only if the order has at most ten digits and the id 1 to 64 UTF-16 units |
| Credentials.AtMostOnePair | server/src/auth/tokens.ts:64-71 | in every run each refresh token has at most one successor and each device flow hands out at most one pair |
| Credentials.RefreshStartsExactly | server/src/auth/tokens.ts:54-63 | a refresh goes ahead if and only if the token is live, unexpired and of an enabled user |
| Credentials.RefreshHandsOver | server/src/auth/tokens.ts:64-71 | undisturbed, it spends the old token for good, and both tokens of the new pair are accepted exactly until their lifetimes end |
| Credentials.PollHandsOver | server/src/routes/auth.ts:201-225 | a poll starts if and only if the flow is in time and was approved by someone who is enabled and need not change the password; undisturbed, it uses the flow up and both tokens of its pair are accepted exactly until their lifetimes end |
| Credentials.PairsGoToTheirOwner | server/src/routes/auth.ts:201-225 | in every run a pair goes to the user who approved its flow, or whose live token it was given for |
| Credentials.ApprovedExactly | server/src/routes/auth.ts:255-266 | an event makes a flow approved by a user if and only if it is that user's approval, in time, of a waiting flow |
| Credentials.LogoutIsFinal | server/src/routes/auth.ts:278-284 | a logged-out token is never accepted again in any later state, a refresh of it under way comes to nothing, and every other token is left as it was |
| Credentials.SignOutIsFinal | server/src/routes/auth.ts:296-300 | a session signed out is never accepted again, and every other one is left as it was |
| Credentials.SignInLasts | server/src/routes/auth.ts:127-139 | a sign-in gives anyone who is not disabled a session that is accepted exactly until its lifetime ends, and so it does after an enabling |
| Credentials.FlowWaits | server/src/routes/auth.ts:164-183 | a new flow can be approved exactly until its lifetime ends, and after a password change the approval starts a sign-in for anyone not disabled |
| Credentials.DisabledIsLockedOut | server/src/auth/middleware.ts:79-95 | until enabled again a disabled user gets in by no access token, refresh token or session, old or new |
| Credentials.ResetHoldsUntilChange | server/src/routes/auth.ts:207-210 | after an administrator's reset no device sign-in starts for the user until the password is changed |
| Credentials.RevocationSparesOthers | server/src/auth/tokens.ts:79-83 | signing a user out everywhere spares the kept session and everyone else, and so does a token used twice |
| Credentials.ReuseRevokesAll | server/src/auth/tokens.ts:59-62 | presenting a revoked token leaves its user without a live refresh token |
| Credentials.NoneLiveUntilSignIn | server/src/auth/tokens.ts:50-72 | from then on only a device sign-in gives the user a live refresh token; refreshes in flight come to nothing |
| Credentials.RevocationIsFinal | server/src/auth/tokens.ts:79-83 | in every run, after a password change, a reset or a disabling no access token issued before, no refresh token that existed and no session but the kept one is accepted in any later state |
| Credentials.RefreshIsNeverStale | server/src/auth/tokens.ts:54-72 | a refresh reads the user before its transaction and still never signs an outdated token version |
| Credentials.PollIsStaleExactly | server/src/routes/auth.ts:201-225 | a poll signs an outdated version exactly when the user's version rose since it read the user, and that access token is never accepted |
| Credentials.PollOutlivesRevocation | server/src/routes/auth.ts:214-225 | after signing a user out everywhere, a poll read before still gives a live refresh token if and only if its flow is not used up and the user is not disabled; its access token is never accepted |
| Credentials.LateSignIn | server/src/routes/auth.ts:201-225 | a run from nothing that does it: a poll, a password change, and the poll's transaction with a live refresh token and an outdated access token |
| Credentials.ApprovalOutlivesRevocation | server/src/auth/tokens.ts:79-83 | flows are left alone by it: an approved one not yet polled starts a sign-in on the same conditions as before |
| Credentials.RunFits | server/src/auth/middleware.ts:79-95 | in every run no access token is ahead of its user's version and every request in flight for a good refresh token read the current one |
| Credentials.CredentialStore.RevokeAllUserCredentials | server/src/auth/tokens.ts:79-83 | new tokens, sessions and token version |
| Credentials.CredentialStore.IssueTokenPair | server/src/auth/tokens.ts:32-48 | adds a live refresh token and signs the version it was given |
| Credentials.CredentialStore.BeginRotation | server/src/auth/tokens.ts:54-63 | what a refresh reads first, revoking everything on reuse |
| Credentials.CredentialStore.FinishRotation | server/src/auth/tokens.ts:64-71 | claims the token or loses the race, then issues |
| Credentials.CredentialStore.LogoutToken | server/src/routes/auth.ts:278-284 | revokes one refresh token |
| Credentials.CredentialStore.ApproveDevice | server/src/routes/auth.ts:255-266 | binds a pending, unexpired flow to the user |
| Credentials.CredentialStore.BeginPoll | server/src/routes/auth.ts:201-213 | what a poll reads first, using the flow up when the password must change |
| Credentials.CredentialStore.FinishPoll | server/src/routes/auth.ts:214-225 | consumes an approved flow once, then issues |

## Left out

- HTTP, authentication of requests, permissions, configuration and OpenAPI: no property above depends on them.
- zod validation, size caps and JSON well-formedness: abstracted to `Unreadable` and to the presence of fields; ids may be anything here, and the limits on ids are used only where a statement says so.
- Cryptography: hashes, signatures and encryption are opaque; names stand for the secrets they hash.
- Isolation anomalies of PostgreSQL between mutations: each mutation is one atomic step, except that the replay lookup of a push, every snapshot query and every pull may be separated from it, and that `CheckpointLock.dfy` interleaves transactions.
- Wall-clock fields: `occurred_at` and the capping of a pushed version's `created_at` are not modelled, and users are not deleted, so the author of a version does not change behind the log.
- Sync.PushOne: an error that the code turns into a failed request (a diverging delete) is answered as a rejection here.
- Sync.VerdictOf: the payload that accompanies a version mismatch, read again after the transaction, is not modelled.
- Sync.PushIsIdempotent: equal answers are stated for a repeated push whose lookup sees the entry; one that races with the first may be answered with a version mismatch instead, and changes nothing either way.
- Integrity.EnvironmentListsCascade: the code lists an environment's variables without an order; the model lists them by id.
- Audit.DiffPayloads: field labels and the order of the fields are not modelled; fields go in a fixed order, and the names of changed parts of a request document are a parameter.
- Engine.Workspace.AuditChange: the container's name, the device, the counts of removed children and the actor in an audit row are not modelled.
- Engine.Workspace.ReadSnapshotPage: runs on one state of the tables; reads separated by writes are in `Convergence.dfy`.
- Bootstrap.BootstrapConverges: a folder that an event lost while it was unread is missing until it is written; `Missing.MissingExactly` says which those are.
- Tree.CheckedParentIsOutside: needs folders with at most 1000 proper ancestors; `Tree.CyclesAcceptedExactly` says what happens beyond.
- Cursors.DateCursorRoundTrip: the text of a date and UTF-8 are taken to read back as they were written. Characters are whole, so lone surrogates in ids do not occur.
- Restarts.EveryPagingCompletesExactly: needs a checkpoint that fits its 32-bit column, which the model otherwise lets grow.
- RateLimit.MemoryRateLimitStore.Record: a hit is one atomic step; the code awaits its sweep when it is full.
- PostgresRateLimitStore: the same fixed window in one SQL statement; not modelled.
- Credentials.RevocationIsFinal: deleting a user, and the e-mail and password checks of signing in, are not modelled.
- Paginator.List: `patch`, `remove` and `prepend`, which edit the shown items after a mutation, are not modelled.
- Members, hosts, workspaces, admin routes and user interface: short guarded updates with no deep property.
