# RailFog, modelled

RailFog is a small serverless platform. This project models the parts of it that hold
state and proves what they keep: the control plane's deployment service with its
persistence and the CLI's batch deploy, backup and restore, the gateway's rate limiter,
queue consumers and the worker supervisor, snapshot distribution to the runtime, the API
key store, and three algorithms of the CLI.

Components whose methods update fields are classes. Each of their methods is proved
against a function on the object's value, and the promises are lemmas about those
functions: invariants of every reachable state, properties of every run, round trips.
Where methods are asynchronous, each piece between two awaits is one step, and a run is
any sequence of such steps of any number of concurrent operations.

`dafny verify dfyconfig.toml` checks the whole project.

| area | files |
|---|---|
| deployments | `Deployment`, `DeploymentRuns`, `DeploymentSafety`, `DeploymentArtifacts`, `Persistence`, `BatchDeploy`, `HealthCheck`, `Ulid` |
| backup | `KvPaths`, `Stores`, `StoreKeys`, `BackupArchive`, `StateBackup`, `BackupService`, `BackupRoundTrip`, `BackupTheorems`, `BackupCodec` |
| gateway | `RateLimiter` |
| workers | `QueueRedelivery`, `QueueCounts`, `QueueConsumers`, `SupervisorLifecycle`, `SupervisorPolling`, `WorkerSupervisor` |
| snapshots | `SnapshotProtocol`, `SnapshotFreshness`, `SnapshotRecency`, `SnapshotInvalidation`, `EntityTags`, `SnapshotServers` |
| keys | `ApiKeys`, `ApiKeyRaces` |
| command line | `EditDistance`, `Routing`, `LogLines` |

## Where the code does less than it says

Each point has a lemma with the input or the run, and one with the exact condition.

- An active pointer need not name a Deployed record: a project deleted between a
  rollback's read and its flip leaves it dangling, and an active restore over a Failed
  record of the same artifact activates that record (`DeletionDuringRollbackDangles`,
  `RestoreOverFailedActivatesIt`; `StepKeepsPointersIff`, `RunIsSoundIff`).
- Pre-checks of an import with overwrite do not look at the key limits of the KV
  contract, so a passed import can throw half way (`OverwriteStopsHalfway`;
  `PassedImportSucceedsIff`). Duplicates are found on joined keys, so different keys can
  be taken for one (`SlashInSegmentBlocksImport`; `RoundTripIff`). A project with a
  zero-length object cannot be exported, because the schema's base64 pattern refuses the
  empty text (`EmptyObjectBlocksExport`; `ExportSucceedsIff`).
- The SQLite key-value store lists a prefix with LIKE, so an export can archive entries of
  other projects (`UnderscoreArchivesAnotherProject`, `ForeignEntryIsRestored`;
  `ArchiveIsExactIff`, and `PlainScopeSelectsOnlyOwnIff` for names without wildcards).
- A prefix wildcard whose prefix is the whole path beats the exact literal
  (`WildcardBeatsItsLiteral`; `ScoreRanksByPrefix`).
- Pruning sooner than a bucket refills changes decisions and breaks the admission bound
  (`EarlyPruneIsObservable`, `EarlyPruneExceedsTheBound`; `PruningIsUnobservableIff`,
  `AdmissionBoundIff`). The default idle time is long enough (`DefaultPruneIsHarmless`).
- A failed dead-letter send loses the message (`FailedSendLosesTheMessage`; `LostIff`), the
  supervisor can dead-letter a message that was handled (`HandledMessageCanBeDeadLettered`;
  `HandledIsDeadLetteredIff`), and a failed ack runs a message beyond its limit
  (`FailedAckInvokesBeyondTheLimit`; `InvocationsAreLimitPlusKeptAcks`).
- A supervisor stop called after a start, while both wait for an earlier stop, returns
  with that start's loops running (`JoinedStopIsSwallowed`; `StopsReturnToSilenceIff`).
- A snapshot of a higher version can show an older deployment
  (`LateConstructionPublishesOldRevision`; `NextVersionIsRecentIff`). Without an active
  revision an invalidation goes unnoticed: configured routes are not served, and a removed
  revision is served on (`EmptyProjectIgnoresInvalidation`, `RemovedRevisionStaysListed`;
  `InvalidationMakesVersionIff`, `ConstructionIsCurrentIff`). Deleting a project does not
  invalidate: a project deleted while its snapshot is marked is served on, and one restored
  after its deletion keeps its old routes until it is invalidated
  (`DeletedProjectIsServedOn`, `RestoredProjectKeepsOldRoutes`; `DeletedIsServedOnIff`,
  `ConstructionIsCurrentIff`).
- A verification overtaken by the key's revocation puts the revoked identity back into
  the cache (`LateFillRevivesRevokedKey`; `RevokedIsAnsweredIff`). An organisation name too
  long for the storage leaves two of three indexes written
  (`LongOrganisationLeavesTwoIndexes`; `CreateKeepsInvIff`).
- An entity tag with a comma is taken apart by the header's split
  (`CommaTagMatchesItsFirstPart`; `WeakComparisonIff`, `CommaTagMatchesOnlyStar`).
- Restoring an inactive revision schedules no write, so a restart can lose it
  (`InactiveRestoreIsLost`, `RestoreIntoEmptyIsLost`; `MutationsSchedule`,
  `DrainedFileIsCurrentIff`).
- A malformed state file does not start the service empty, as the comment on its error
  handler says, but with what stood before the malformed entry (`BrokenPointersKeepRecords`;
  `BrokenFileIsEmptyIff`).

## Model

| member | source | states |
|---|---|---|
| DeploymentRuns.PointerIsFoldOfCompletions | apps/api/deployment-service.ts:320-487 | In every interleaving of deploys, rollbacks, restores and deletions cut at their awaits, each active pointer is the fold over completion order: a healthy deploy takes the maximum, a rollback or active restore sets its target, a deletion clears |
| DeploymentRuns.FoldIsGreatest | apps/api/deployment-service.ts:404-418 | With deploys alone the fold is the greatest healthy identifier, and nothing exactly when no deploy was healthy |
| DeploymentRuns.CompletionOrderIsIrrelevant | apps/api/deployment-service.ts:404-418 | Deploys finishing in any other order leave the same pointer |
| DeploymentRuns.IssueOrderIsStringOrder | apps/api/deployment-service.ts:247-255 | Identifiers issued later by one service sort later as strings, while the clock stays below 2^50 |
| DeploymentRuns.NewestHealthyRevisionWins | apps/api/deployment-service.ts:320-441 | In every run where a function sees only deploys, its pointer ends at the revision issued last among the healthy ones |
| DeploymentSafety.StepKeepsPointersIff | apps/api/deployment-service.ts:380-596 | A step keeps every pointer on an existing Deployed record if and only if a condition checkable just before it holds |
| DeploymentSafety.RunIsSoundIff | apps/api/deployment-service.ts:320-596 | Pointers name Deployed records throughout a run if and only if every step met that condition |
| DeploymentSafety.DeletionDuringRollbackDangles | apps/api/deployment-service.ts:450-487 | A reachable run in which deleting the project between a rollback's read and its flip leaves the pointer on no record |
| DeploymentSafety.RestoreOverFailedActivatesIt | apps/api/deployment-service.ts:565-596 | A reachable run in which restoring a Deployed revision over a Failed record of the same artifact activates the Failed one |
| DeploymentSafety.DisciplinedRunsAreSound | apps/api/deployment-service.ts:320-596 | Fresh identifiers, no deletion under a rollback and restores that leave Deployed records keep all pointers sound, and all records under their own keys, in every run |
| DeploymentSafety.CarefulRunsAreSound | apps/api/deployment-service.ts:320-596 | From the start, with the clock below 2^50: if no restored identifier was issued to a deploy, no project is deleted under a rollback and restores leave Deployed what they activate, pointers stay sound in every run; fresh deploy identifiers follow from their order |
| DeploymentSafety.DeployedMeansProbed | apps/api/deployment-service.ts:380-441 | A Deployed record of a function that no restore brought into that function comes from a deploy whose probe outcomes end in the required run of consecutive successes |
| DeploymentArtifacts.RecordsNameTheirArtifact | apps/api/deployment-service.ts:320-441 | In every run each record that no restore brought into its function names the artifact and integrity computed from bytes that a deploy of that function uploaded under exactly those digests, with its manifest, identifier and issue time |
| DeploymentArtifacts.DeployGoesThrough | apps/api/deployment-service.ts:320-441 | From any state a deploy of an artifact that is what it claims to be, whose bytes are stored and whose three probes succeed, goes through: its revision is Deployed, and active unless a later identifier is |
| DeploymentArtifacts.DeploysAloneEndAtTheNewest | apps/api/deployment-service.ts:320-441 | After any run of deploys alone each function's pointer is its healthy revision issued last |
| DeploymentArtifacts.RestoreGoesThroughIff | apps/api/deployment-service.ts:565-580 | A restore goes through exactly when no other artifact is on record under its identifier |
| DeploymentSafety.FailedMeansUnhealthy | apps/api/deployment-service.ts:380-441 | A Failed record of a function that no restore brought in comes from a deploy whose gate did not pass; an in-process gate gave up at an unsuccessful probe |
| Deployment.NextTimestamp | apps/api/deployment-service.ts:247-255 | The least timestamp above the last one and not below the clock |
| Deployment.DeploymentService.NextMonotonicTimestamp | apps/api/deployment-service.ts:247-255 | Moves only the timestamp, to the next one |
| Deployment.WithPointer | apps/api/deployment-service.ts:274-285 | Exactly one pointer of the nested maps differs |
| Deployment.DeploymentService.SetActivePointer | apps/api/deployment-service.ts:274-285 | Sets exactly one pointer, creating the inner map when needed |
| Deployment.WithRecord | apps/api/deployment-service.ts:292-308 | Exactly one record of the nested maps differs, under the record's own id |
| Deployment.DeploymentService.SaveRevisionRecord | apps/api/deployment-service.ts:292-308 | Saves exactly one record, creating inner maps when needed |
| Deployment.DeploymentService.BeginDeploy | apps/api/deployment-service.ts:320-378 | Up to the first storage write: refused with nothing changed exactly when a digest is malformed or not the computed one; otherwise only the clock has moved and the Ready revision carries the computed id and integrity, the manifest, the issue time and the identifier made from it |
| Deployment.ArtifactIdIff | apps/api/deployment-service.ts:320-346 | A well-formed artifact identifier is sha256: and 64 lower-case hexadecimal digits |
| Deployment.DeploymentService.FinishDeploy | apps/api/deployment-service.ts:404-441 | After the health gate: record saved as Deployed or Failed, pointer moved only if healthy and not superseded, and the result says so |
| Deployment.DeploymentService.FinishRollback | apps/api/deployment-service.ts:450-487 | Decides on the record read before the await: refusals change nothing, success moves exactly that pointer and returns the previous one |
| Deployment.DeploymentService.RestoreRevision | apps/api/deployment-service.ts:565-596 | Throws exactly on another artifact under the same id, keeps an existing record, and moves the pointer if active |
| Deployment.DeploymentService.DeleteProject | apps/api/deployment-service.ts:666-677 | Removes the project and nothing else from all four maps and says whether it was in any |
| Deployment.DeploymentService.SchedulePersist | apps/api/deployment-service.ts:197-234 | Queues one more write when there is a path |
| Deployment.DeploymentService.SetProjectRoutes | apps/api/deployment-service.ts:602-608 | Replaces the routes of one project and schedules a write |
| Deployment.DeploymentService.SetProjectMetadata | apps/api/deployment-service.ts:624-633 | Replaces the metadata of one project and schedules a write |
| Ulid.GenerateUlid | packages/core/id/ulid.ts:9-56 | The digit loop yields the ten base-32 digits of the time followed by those of ten random bytes |
| Ulid.LaterSortsAfter | packages/core/id/ulid.ts:9-56 | A later timestamp gives a later string, whatever the random parts |
| Ulid.OrderEndsAtTheLimit | packages/core/id/ulid.ts:9-56 | At 2^50 the ten digits wrap and a later timestamp sorts first |
| Ulid.EncodeDecides | packages/core/id/ulid.ts:9-56 | Below 2^50 two identifiers are equal only for the same time and the same eighty random bits |
| Ulid.FiveBytesAreDigits | packages/core/id/ulid.ts:9-56 | Five random bytes are written as the eight base-32 digits of the number they are |
| HealthCheck.ExecuteHealthCheck | apps/api/health-checker.ts:35-128 | Passes exactly when, before the deadline, the current run of successes first reaches the required length; otherwise it has used every attempt in time |
| HealthCheck.CallProbe | apps/api/deployment-service.ts:388-402 | Healthy exactly when the first three calls all return true, and it stops at the first that does not |
| HealthCheck.StreakIsTheLastRun | apps/api/health-checker.ts:55-128 | The success counter is the length of the longest run of successes that ends the outcomes |
| HealthCheck.SatisfiedIff | apps/api/health-checker.ts:35-128 | The required run is that many answers of status 200 in a row at the end, and at least one |
| HealthCheck.PassedEndsInRequiredRun | apps/api/health-checker.ts:55-128 | A passed gate ends in the required number of consecutive successes |
| Persistence.HydrationRestoresIff | apps/api/deployment-service.ts:147-234 | Reading back a serialized state gives exactly that state if and only if every record is keyed by its own id |
| Persistence.HydratedIsKeyed | apps/api/deployment-service.ts:147-195 | Whatever was read back is keyed by its own ids |
| Persistence.Hydrate | apps/api/deployment-service.ts:147-195 | The reading loops rebuild the four maps of a snapshot in order, up to the entry at which a malformed file breaks off; an absent or unparsable file gives the empty state |
| Persistence.BrokenFileIsEmptyIff | apps/api/deployment-service.ts:147-195 | A malformed file starts the service empty if and only if it breaks before its first entry; otherwise what stood before is kept, and a pointer only with all the records |
| Persistence.BrokenPointersKeepRecords | apps/api/deployment-service.ts:147-195 | For instance a file whose pointers are malformed gives back its revision without a pointer |
| Persistence.DrainedChainLosesNothing | apps/api/deployment-service.ts:197-241 | Once the write chain has drained, a restart finds the state after some mutation: none older than the last one that asked for a write if and only if the last write succeeded |
| Persistence.DrainedFileIsCurrentIff | apps/api/deployment-service.ts:197-241 | In every run whose last write succeeded, a restart after the chain drained finds the state as it is if and only if no inactive revision was newly restored since the snapshot on file was taken |
| Persistence.InactiveRestoreIsLost | apps/api/deployment-service.ts:565-596 | From any service just started with a file, restoring an inactive revision not recorded yet leaves a drained chain and a file without it |
| Persistence.RestoreIntoEmptyIsLost | apps/api/deployment-service.ts:565-596 | For instance into an empty service with an empty file |
| Persistence.MutationsSchedule | apps/api/deployment-service.ts:320-678 | The durable state changes and no write is asked for if and only if an inactive revision that is not recorded yet is restored |
| Persistence.SettersSet | apps/api/deployment-service.ts:602-633 | Setting routes or metadata replaces them for that project and changes nothing else |
| Persistence.MutationKeepsKeys | apps/api/deployment-service.ts:292-308 | Every mutation keeps records keyed by their own ids |
| BatchDeploy.RunBatch | cli/deploy.ts:963-1032 | The batch succeeds if and only if every item would switch its function at its turn, under the identifier of its turn and with its artifact on record; otherwise the last one reached is the first that would not, functions that were serving have their previous revision back, and nothing else is touched |
| BatchDeploy.CapturePointers | cli/deploy.ts:973-984 | Holds the active revision of each function of the batch |
| BatchDeploy.Deploy | cli/deploy.ts:978-1002 | One deploy switches its function if and only if its artifact has a well-formed digest and is what it claims to be, it could be stored, it is healthy and no later identifier is active; then a Deployed record carries that artifact |
| BatchDeploy.DeployNext | cli/deploy.ts:987-1002 | One turn of the loop switches its function exactly when the deploy goes through, and otherwise leaves its pointer |
| BatchDeploy.DeployAll | cli/deploy.ts:978-1002 | The loop stops at the first item that would not switch; the ones before are switched, under the identifiers of their turns and for their artifacts, and nothing else is touched |
| BatchDeploy.Compensate | cli/deploy.ts:1003-1032 | After the loop each switched function is at its previous revision if that is Deployed, and at its new one otherwise |
| BackupTheorems.RoundTripIff | apps/api/state-backup-service.ts:170-569 | Importing an export into an empty project succeeds if and only if names are free of traversal texts, rescoped keys fit the store and, without overwrite, no two keys join to one text; it then yields the same functions, revisions, pointers and objects under the new names, and the same KV entries if the listing selected only own keys, without overwrite only if |
| BackupTheorems.EntriesRoundTripIff | apps/api/state-backup-service.ts:214-240 | Entries come back as the project's if the listing selected only its keys, and only if when rescoped keys differ |
| BackupTheorems.ForeignEntryIsRestored | providers/kv/sqlite-provider.ts:117-161 | An entry of another project that the listing selected turns up in the restored project, which had none there |
| BackupTheorems.UnderscoreArchivesAnotherProject | providers/kv/sqlite-provider.ts:124-129 | Exporting my_app also archives what myxapp and MY_APP store |
| BackupTheorems.PlainScopeSelectsOnlyOwnIff | providers/kv/sqlite-provider.ts:124-129 | For names without wildcards or reserved characters the listing selects only own keys exactly when no stored key lies under names that differ only in letter case |
| BackupTheorems.DefaultKeyIsNoPayload | apps/api/state-backup-service.ts:326-341 | The default archive key is no payload key |
| BackupTheorems.ExportLeavesPayloads | apps/api/state-backup-service.ts:273-287 | After an export the same object store holds every large payload under its hash |
| BackupTheorems.SlashFreeIsJoinedApart | apps/api/state-backup-service.ts:441-466 | Keys whose segments hold no slash never collide when joined |
| BackupTheorems.SlashInSegmentBlocksImport | apps/api/state-backup-service.ts:441-466 | Two stored keys that differ only by a slash inside a segment make every import without overwrite refuse the export |
| BackupTheorems.OverwriteStopsHalfway | apps/api/state-backup-service.ts:441-520 | An archive that passes every pre-check with overwrite and whose import throws after its first key is stored |
| BackupTheorems.GatePassesIff | apps/api/state-backup-service.ts:441-466 | Over an empty target the gate passes exactly when all keys fit and join to different texts |
| BackupTheorems.PrecheckPassesIff | apps/api/state-backup-service.ts:356-470 | An import passes its pre-checks if and only if both scopes and the archive are well formed, no namespace, key segment, store or object key holds two adjacent dots, plain or percent-encoded in either case, a backslash or a NUL, stores hold no slash and object keys begin with none, payloads are at hand, no revision conflicts, and without overwrite the gate passes every entry |
| BackupTheorems.TraversalIsRefused | apps/api/state-backup-service.ts:376-410 | An archive with an object key ../secret is refused and nothing is written |
| StoreKeys.TraversalIff | apps/api/state-backup-service.ts:114-122 | The traversal test refuses a text exactly for one of those characters or pairs, by their positions |
| StoreKeys.ContainsIff | apps/api/state-backup-service.ts:114-122 | A text contains another exactly when it is something, the other, and something |
| StoreKeys.ValidIdentifierIff | apps/api/state-backup-service.ts:80-109 | A tenant identifier is valid exactly when, trimmed, it is not empty and holds no slash, colon, control character or way up |
| StoreKeys.TrimCuts | apps/api/state-backup-service.ts:80-109 | Trimming takes white space off both ends, and all of it |
| BackupRoundTrip.ExportSucceedsIff | apps/api/state-backup-service.ts:289-306 | The assembled archive passes its own schema exactly when record ids, digests and states are well formed, pointers name records, segments of the listed keys and object keys are non-empty and no object is empty |
| BackupTheorems.EmptyObjectBlocksExport | packages/core/backup/archive-schema.ts:356-366 | A project whose only content is one object can be exported if and only if the object has a byte |
| BackupRoundTrip.PassedImportSucceedsIff | apps/api/state-backup-service.ts:370-569 | An archive that passed the pre-checks restores without throwing exactly when revisions of one id agree on their artifact, payloads match their hashes and, under overwrite, keys fit |
| BackupRoundTrip.DistinctAgree | apps/api/state-backup-service.ts:472-498 | Distinct function names and distinct revision ids per function make revisions agree |
| BackupRoundTrip.RestoreSucceedsIff | apps/api/deployment-service.ts:565-596 | Restoring a sequence of revisions throws nowhere exactly when they conflict neither with the target nor with each other |
| BackupRoundTrip.RestoredState | apps/api/state-backup-service.ts:472-498 | Existing records stay, others come from the first operation naming them, the last activation holds the pointer |
| BackupRoundTrip.ImportStaysInProject | apps/api/state-backup-service.ts:468-569 | Finished, refused or interrupted, an import changes no record, pointer, key or object outside the target project |
| BackupRoundTrip.EntriesRoundTrip | apps/api/state-backup-service.ts:501-517 | Entries that describe a project reappear with the same values under the new prefix and nothing else does |
| BackupRoundTrip.ObjectsRoundTrip | apps/api/state-backup-service.ts:519-558 | Objects, inlined or content-addressed, reappear with the same bytes under the new prefix and nothing else does |
| BackupArchive.Gate | apps/api/state-backup-service.ts:441-466 | The gate refuses nothing exactly when it refuses no entry |
| BackupArchive.ValidArchiveIff | packages/core/backup/archive-schema.ts:142-368 | The schema accepts an archive exactly when every field has its form: prefixed ULIDs, digests, states, active revisions among the archived ones, and no empty name, segment, store, key or payload text |
| BackupArchive.PrefixedUlidIff | packages/core/backup/archive-schema.ts:26-27 | A prefixed ULID is the prefix and 26 characters of Crockford's alphabet |
| BackupArchive.Base64Iff | packages/core/backup/archive-schema.ts:48-50 | The base64 test accepts non-empty texts over that alphabet |
| BackupArchive.IntegrityIff | packages/core/backup/archive-schema.ts:43-45 | An integrity text is sha256- and a base64 text |
| BackupService.StateBackupService.ExportProject | apps/api/state-backup-service.ts:170-345 | A returned archive holds every function and object of the project and an entry for every key the listing selects, and only payload keys and the archive key were written; an error means a bad name or key or an archive the schema refuses |
| BackupService.StateBackupService.ExportFunctions | apps/api/state-backup-service.ts:180-212 | Every function with its pointer and every revision, from the service's maps |
| BackupService.StateBackupService.ExportKv | apps/api/state-backup-service.ts:214-240 | Walking the pages archives every selected key with a namespace and a segment exactly once |
| BackupService.StateBackupService.ExportPage | apps/api/state-backup-service.ts:223-236 | Adds one entry for each key of a page that is long enough |
| BackupService.StateBackupService.ExportObjects | apps/api/state-backup-service.ts:242-314 | Walking the pages lists every object in a store exactly once, inlined below 256 KiB and otherwise copied under its hash |
| BackupService.StateBackupService.PrecheckImport | apps/api/state-backup-service.ts:356-466 | Computes the pre-checks in their order |
| BackupService.StateBackupService.CheckConflicts | apps/api/state-backup-service.ts:420-437 | True exactly when no archived revision conflicts with the target |
| BackupService.StateBackupService.CheckKvGate | apps/api/state-backup-service.ts:440-466 | Returns the first refusal of the gate |
| BackupService.StateBackupService.RestoreFunctions | apps/api/state-backup-service.ts:472-498 | Restores the revisions in archive order up to the first conflict |
| BackupService.StateBackupService.RestoreKv | apps/api/state-backup-service.ts:500-517 | Writes the entries in order up to the first key that does not fit |
| BackupService.StateBackupService.RestoreObjects | apps/api/state-backup-service.ts:519-558 | Writes the objects in order up to the first payload that is missing, undecodable or of another hash |
| BackupService.StateBackupService.ImportProject | apps/api/state-backup-service.ts:356-569 | A refusal leaves everything as it was; otherwise the three stores end in the state of the restore phase and the counts are the archive's |
| BackupService.CasSurvives | apps/api/state-backup-service.ts:542-552 | Restored objects never replace a content-addressed payload |
| StateBackup.ArchiveIsExactIff | apps/api/state-backup-service.ts:214-240 | The archived entries describe the project's keys, all of them and nothing else, exactly when the listing selects no entry of another project |
| StateBackup.OwnIsSelected | providers/kv/sqlite-provider.ts:117-161 | The listing selects every key of the project |
| StateBackup.RecordDescribes | apps/api/state-backup-service.ts:250-287 | An archived object tells its size and digests, and carries its bytes exactly below 256 KiB |
| StateBackup.StorageKeyAllowedIff | apps/api/state-backup-service.ts:170-215 | Which storage keys an export accepts, character by character |
| KvPaths.EncodePathDecides | providers/kv/sqlite-provider.ts:35-38 | Different keys have different encoded paths |
| KvPaths.UnreservedIff | providers/kv/sqlite-provider.ts:35-38 | Which characters stay as they are in a key path |
| KvPaths.PlainNameIff | providers/kv/sqlite-provider.ts:35-38 | Names of letters, digits and marks other than the underscore encode to themselves and hold no wildcard |
| Stores.KeyLimits | providers/kv/sqlite-provider.ts:41-53 | A key has at most thirty-two segments and 512 bytes |
| Stores.KeyBytesCounts | providers/kv/sqlite-provider.ts:41-53 | Bytes are counted segment by segment |
| Stores.Utf8LengthCounts | providers/kv/sqlite-provider.ts:41-53 | The bytes of a segment are those of its characters in UTF-8 |
| KvPaths.Utf8Reads | providers/kv/sqlite-provider.ts:35-38 | The bytes of a character read back as its code, in the shortest form |
| KvPaths.PercentByteReads | providers/kv/sqlite-provider.ts:35-38 | A byte is written as a percent sign and its two hexadecimal digits, the higher first |
| KvPaths.FoldIff | providers/kv/sqlite-provider.ts:117-161 | LIKE takes two characters for equal exactly when they are, or are the two cases of one ASCII letter |
| KvPaths.UnderIsListed | providers/kv/sqlite-provider.ts:124-129 | A key under a prefix matches the pattern of the prefix |
| KvPaths.PlainListedIff | providers/kv/sqlite-provider.ts:124-129 | For plain names a key matches exactly when its first two segments are those names but for letter case |
| KvPaths.UnderscoreSelects | providers/kv/sqlite-provider.ts:124-129 | A name with an underscore selects every project whose name differs only at underscores and in letter case |
| BackupCodec.LawfulCodecExists | apps/api/state-backup-service.ts:264-276 | The laws asked of hashing and base64 can be met |
| StateBackup.PageShown | apps/api/state-backup-service.ts:217-240 | One more page: distinct keys not shown before, and strictly fewer remain |
| StoreKeys.SplitInvertsBuild | apps/api/state-backup-service.ts:253-262 | Splitting at the first slash inverts building an object key |
| StoreKeys.BuildInvertsSplit | apps/api/state-backup-service.ts:253-262 | Building from the two parts gives the full key back |
| StoreKeys.ObjectKeyIsInjective | apps/api/state-backup-service.ts:519-522 | Different store and key give different object keys |
| StoreKeys.CasIsNobodys | apps/api/state-backup-service.ts:276-287 | Content-addressed keys lie under no project prefix |
| StoreKeys.FreeJoinDecides | apps/api/state-backup-service.ts:447-454 | Texts without the separator are equal exactly when their joins are |
| StoreKeys.IndexOf | apps/api/state-backup-service.ts:257-262 | The first position of a character, or none exactly when it does not occur |
| Stores.ListPage | providers/kv/sqlite-provider.ts:117-161 | A page holds distinct keys after the cursor, and the next cursor leaves exactly the keys not yet shown |
| Stores.FirstOf | providers/objects/local-fs-provider.ts:160-161 | A key whose path text sorts before all others |
| Stores.CursorLeavesRest | providers/objects/local-fs-provider.ts:163-178 | After the last key of a page exactly the unshown keys follow |
| Stores.KvStore.Get | providers/kv/sqlite-provider.ts:56-77 | The stored value, null when absent, and an error exactly when the key is over the limits |
| Stores.KvStore.Set | providers/kv/sqlite-provider.ts:80-105 | Writes one key, and fails with nothing changed exactly when it is over the limits |
| Stores.KvStore.List | providers/kv/sqlite-provider.ts:117-161 | Pages through exactly the keys whose path matches the pattern of the prefix |
| Stores.ObjectStore.List | providers/objects/local-fs-provider.ts:132-179 | Pages through exactly the object keys under a prefix |
| RateLimiter.AdmissionBound | apps/gateway/rate-limiter.ts:96-160 | In every run with non-decreasing times, no reset of the bucket and safe prunes, checks admitted in any window [s, t] number at most burst + rate * (t - s) / 1000 |
| RateLimiter.AdmissionBoundIff | apps/gateway/rate-limiter.ts:96-196 | Prunes with a given idle time keep every window of every run within the bound if and only if that time refills every scope's bucket, for bursts of at least one |
| RateLimiter.EarlyPruneExceedsTheBound | apps/gateway/rate-limiter.ts:184-196 | For a shorter idle time there is a run from empty that admits more than burst + rate * (t - s) / 1000 |
| RateLimiter.DefaultPruneIsHarmless | apps/gateway/rate-limiter.ts:41-60 | The default limits and idle time make prunes invisible and keep the bound |
| RateLimiter.NextKeepsBounded | apps/gateway/rate-limiter.ts:96-160 | Tokens stay between zero and burst and timestamps do not pass the clock |
| RateLimiter.BucketsAreIsolated | apps/gateway/rate-limiter.ts:96-160 | Operations on other scopes and keys change no answer a bucket gives |
| RateLimiter.BucketKeyInjective | apps/gateway/rate-limiter.ts:105-107 | Scope and key are told apart by the bucket key |
| RateLimiter.PruningIsUnobservable | apps/gateway/rate-limiter.ts:184-196 | If every prune waits long enough for a bucket to refill, a pruning limiter answers every sequence of checks as one that never prunes |
| RateLimiter.EarlyPruneIsObservable | apps/gateway/rate-limiter.ts:184-196 | For any real burst of at least one, a prune that comes sooner changes whether a check of some run is admitted |
| RateLimiter.PruningIsUnobservableIff | apps/gateway/rate-limiter.ts:184-196 | For bursts of at least one, pruning after maxIdleMs is unobservable, in the decisions or only in what is admitted, if and only if rate * maxIdleMs / 1000 >= burst for every scope |
| RateLimiter.RetryAfterIsTight | apps/gateway/rate-limiter.ts:116-159 | A check retryAfterSeconds after a refusal is admitted if none was admitted between, one a second earlier is refused, whatever refusals lie between |
| RateLimiter.ResetIsTight | apps/gateway/rate-limiter.ts:96-160 | resetMs after a check the untouched bucket is full, and a millisecond earlier it is not |
| RateLimiter.RemainingIsExact | apps/gateway/rate-limiter.ts:96-160 | After an admitted check exactly remaining more are admitted at the same moment |
| RateLimiter.ResetWithoutRate | apps/gateway/rate-limiter.ts:96-160 | Without a rate resetMs is infinite, or no number when the bucket is full |
| RateLimiter.RetryAfterUndisturbed | apps/gateway/rate-limiter.ts:96-160 | In particular for one bucket that nothing touches between the refusal and the retry |
| RateLimiter.RefusalKeepsEarning | apps/gateway/rate-limiter.ts:116-159 | A refused check changes no later balance: refills compose |
| RateLimiter.MultiTenantRateLimiter.Check | apps/gateway/rate-limiter.ts:96-160 | Answers and updates exactly one bucket as the balance function says |
| RateLimiter.MultiTenantRateLimiter.Prune | apps/gateway/rate-limiter.ts:184-196 | Keeps exactly the buckets idle for at most the limit, as they are, and counts the others |
| RateLimiter.MultiTenantRateLimiter.Reset | apps/gateway/rate-limiter.ts:168-171 | Removes exactly one bucket |
| QueueRedelivery.AcksAndDeadLettersAreJustified | apps/worker/queue-consumer.ts:139-202 | In every run with failing handlers, sends and acks, lease expiries and several consumers: before an ack the same delivery was handled, or failed at the limit and was offered to the dead-letter queue; a dead-letter send happens once per delivery, at the limit, before its successful ack, with the sent body |
| QueueRedelivery.NothingIsLost | apps/worker/queue-consumer.ts:388-459 | With a dead-letter queue, a message none of whose own dead-letter sends failed is still queued, past retention, was handled or is dead-lettered |
| QueueRedelivery.LeaseHolds | providers/queues/sqlite-queue-provider.ts:100-190 | A message taken under a lease is not received again, and keeps its row, in any run whose clock is short of the lease's end |
| QueueRedelivery.LostIff | apps/worker/queue-consumer.ts:388-459 | A message that is gone and was neither handled nor dead-lettered had a delivery at its receive limit that failed, that its ack removed and that no dead-letter queue took; and it is so lost if and only if no delivery of it was handled and every dead-letter send of it failed |
| QueueRedelivery.InvThroughRun | apps/worker/worker-supervisor.ts:254-341 | The invariant behind both, in every reachable state |
| QueueCounts.FailingMessageIsInvokedMaxReceivesTimes | apps/worker/queue-consumer.ts:139-202 | If no ack of an always-failing message fails and keeps it, a single consumer invokes it at most maxReceives times, exactly that often once it is gone, offers it once to the dead-letter queue, and can take it again while it is queued and visible |
| QueueCounts.InvocationsAreLimitPlusKeptAcks | apps/worker/queue-consumer.ts:139-202 | A single consumer invokes an always-failing message at most limit plus kept acks times, exactly once it is gone; the limit is passed if and only if an ack failed at the limit, left the message, and it was invoked again |
| QueueCounts.FailedSendLosesTheMessage | apps/worker/queue-consumer.ts:174-188 | A reachable run in which a failed dead-letter send loses the message |
| QueueCounts.HandledMessageCanBeDeadLettered | apps/worker/worker-supervisor.ts:310-341 | A reachable run in which the supervisor dead-letters a message that was handled, because its ack failed at the limit |
| QueueCounts.ConsumerDeadLettersOnlyFailures | apps/worker/queue-consumer.ts:174-188 | Outside the supervisor a dead-lettered delivery failed and was never handled |
| QueueCounts.HandledIsDeadLetteredIff | apps/worker/worker-supervisor.ts:310-341 | In every run that does not abandon the delivery, a handled delivery is offered to the dead-letter queue, or is about to be, if and only if it was at the receive limit of a supervisor's worker with a dead-letter queue and an ack of it failed |
| QueueCounts.OfferedWhenHandled | apps/worker/worker-supervisor.ts:310-341 | Abandoned or not, a handled delivery is offered only after a failed ack at such a limit |
| QueueCounts.FailedAckInvokesBeyondTheLimit | apps/worker/queue-consumer.ts:174-195 | A reachable run in which a failed ack makes a message run beyond the limit |
| QueueConsumers.QueueProvider.Receive | providers/queues/sqlite-queue-provider.ts:137-187 | Leases the earliest visible message below the provider's limit with attempts raised by one, parking exhausted ones; nothing is returned exactly when none is due; all as a run of the redelivery system |
| QueueConsumers.QueueProvider.FirstVisible | providers/queues/sqlite-queue-provider.ts:145-156 | The visible row with the earliest time, or none exactly when nothing is visible |
| QueueConsumers.QueueProvider.Ack | providers/queues/sqlite-queue-provider.ts:189-193 | Removes the message exactly when the deletion took effect |
| QueueConsumers.ResilientConsumer.ProcessNext | apps/worker/queue-consumer.ts:388-459 | When the receive succeeds and a message is due, the first due one is invoked, acknowledged or spent, logged in that order, leased until its visibility time or removed by its ack; otherwise nothing is logged. True exactly when it was handled and acknowledged; its effect is that of a run of the redelivery system |
| QueueConsumers.SupervisedWorker.RunWorkerCycle | apps/worker/worker-supervisor.ts:259-341 | One cycle works exactly when the receive succeeds and a message is due, and does the same with the first due one, spending at the limit also what was handled and not acknowledged |
| QueueConsumers.DeadLetterAndAck | apps/worker/queue-consumer.ts:428-447 | Offers the body once, then acknowledges, whatever the send did |
| SupervisorLifecycle.OneGenerationAtATime | apps/worker/worker-supervisor.ts:88-245 | In every run of starts, stops, aborts and worker steps, live loops belong to the last generation, activeWorkers counts them, none sleeps while a stop is under way, and a stopped supervisor has none |
| SupervisorLifecycle.LaunchesOnlyWhenEmpty | apps/worker/worker-supervisor.ts:103-136 | Loops are spawned only when none is alive |
| SupervisorLifecycle.DrainingEndsLoops | apps/worker/worker-supervisor.ts:219-245 | While a stop drains, the next step of a loop ends it |
| SupervisorLifecycle.SettlingReturns | apps/worker/worker-supervisor.ts:147-183 | When a stop settles its creator goes on with no loop alive, and a joined stop too unless a start waited ahead of it |
| SupervisorLifecycle.StopsReturnToSilenceIff | apps/worker/worker-supervisor.ts:147-183 | Every stop goes on with no loop alive if and only if no settling stop had a start waiting ahead of a joined stop |
| SupervisorLifecycle.JoinedStopIsSwallowed | apps/worker/worker-supervisor.ts:88-183 | A reachable run in which a stop called after a start returns with that start's loop running and nothing left to stop it |
| SupervisorLifecycle.WaitersResumed | apps/worker/worker-supervisor.ts:147-183 | Resuming the waiters: the first start relaunches unless aborted, and every stop sees the loops there then |
| SupervisorPolling.EveryEmptyPollIsSleptOff | apps/worker/worker-supervisor.ts:210-275 | In every run each worker loop has slept once for each receive that was empty or threw before it receives again, and finished one message for each it received |
| SupervisorStarts.NoStartIsLeftHanging | apps/worker/worker-supervisor.ts:88-136 | In every run each start is done, or the stop it called on an aborted signal still waits for a stop under way or an unsettled start |
| SupervisorStarts.AbortedSpawnsNothing | apps/worker/worker-supervisor.ts:88-136 | Once the signal was aborted no start of any later run spawns a loop |
| SupervisorStarts.AbortedStartAwaitsItsStop | apps/worker/worker-supervisor.ts:88-136 | A start begun after the abort is done only once the stop it called has returned |
| WorkerSupervisor.Supervisor.Start | apps/worker/worker-supervisor.ts:88-136 | Takes the start step of the lifecycle |
| WorkerSupervisor.Supervisor.Stop | apps/worker/worker-supervisor.ts:147-183 | Waits for a pending start, joins a pending stop, returns when idle, or begins a stop |
| WorkerSupervisor.Supervisor.WakeUpAll | apps/worker/worker-supervisor.ts:185-190 | Every sleeping loop is woken and no callback is left |
| WorkerSupervisor.Supervisor.SpawnAll | apps/worker/worker-supervisor.ts:120-135 | Spawns the configured number of loops and counts them |
| WorkerSupervisor.Supervisor.AbortSignal | apps/worker/worker-supervisor.ts:107-118 | An abort stops the supervisor while it listens |
| WorkerSupervisor.Supervisor.StartPromiseSettled | apps/worker/worker-supervisor.ts:138-145 | The stops that waited for a start go on in order |
| WorkerSupervisor.Supervisor.StopPromiseSettled | apps/worker/worker-supervisor.ts:172-183 | The fields are cleared, then the waiters go on in order |
| WorkerSupervisor.Supervisor.WorkerStep | apps/worker/worker-supervisor.ts:219-245 | One loop goes from one await to the next, or ends |
| SnapshotFreshness.VersionsDecideContent | apps/runtime/runtime-server.ts:582-624 | In every run with interleaved deployments, constructions and polls the runtime's version never decreases nor passes the control plane's, and equal versions are equal content |
| SnapshotFreshness.PollAfterTheLastChangeIsCurrent | apps/api/control-server.ts:808-841 | A poll begun after the last change of a project with an active revision leaves the runtime with exactly the listed functions that have an active revision on record, the declared routes or one per function from its name to it, and the metadata, whether answered 200 or 304, if an invalidation followed any deletion |
| SnapshotFreshness.LateConstructionPublishesOldRevision | apps/api/control-server.ts:379-433 | A reachable run in which a construction that read before a deployment publishes the old revision under a newer version |
| SnapshotFreshness.CurrentServesNow | apps/api/control-server.ts:379-433 | A snapshot is of now exactly in what the project state says: the listed functions with an active revision on record, their routes or the declared ones, the metadata |
| SnapshotFreshness.ChangesSet | apps/api/control-server.ts:744-768 | Each change of a project sets what it says and leaves the rest, and which of them invalidate |
| SnapshotFreshness.StartFits | apps/api/control-server.ts:355-380 | A beginning with one function and two revisions meets what the theorems ask |
| SnapshotRecency.NextVersionIsRecentIff | apps/api/control-server.ts:379-433 | In every run each version shows exactly the active revisions at the moments its construction read them, and version n + 1 is not older than version n if and only if its construction read no pointer before a change the other one saw |
| SnapshotInvalidation.ConstructionMakesVersionIff | apps/api/control-server.ts:395-443 | From any reachable state an undisturbed construction makes a new version exactly when none was made yet, or the cached one is invalidated and some revision is active, or it is not and lists other revisions |
| SnapshotInvalidation.InvalidationMakesVersionIff | apps/api/control-server.ts:435-443 | An invalidation and an undisturbed construction make a new version exactly when some revision is active or none was made yet; otherwise the old one is served |
| SnapshotInvalidation.ConstructionIsCurrentIff | apps/api/control-server.ts:395-443 | An undisturbed construction serves the project as it is if and only if it makes a version or the cached one is right already; where no deletion went unnoticed, if and only if some revision is active, nothing was made yet, the cached one lists revisions and is not invalidated, or it is right already |
| SnapshotInvalidation.DeletedIsServedOnIff | apps/api/control-server.ts:744-768 | After a deletion an undisturbed construction serves the old snapshot on if and only if its cached fingerprint is the mark of an invalidation; otherwise it makes a version that shows the project gone |
| SnapshotInvalidation.DeletedProjectIsServedOn | apps/api/control-server.ts:744-768 | A reachable run in which a project deleted between an invalidation and the next construction is served on |
| SnapshotInvalidation.RestoredProjectKeepsOldRoutes | apps/api/control-server.ts:744-768 | A reachable run in which a project deleted and restored with the same revision is served with its old routes until it is invalidated |
| SnapshotInvalidation.EmptyProjectIgnoresInvalidation | apps/api/control-server.ts:395-443 | A reachable run in which routes configured for a project without an active revision are invalidated and never served |
| SnapshotInvalidation.RemovedRevisionStaysListed | apps/api/control-server.ts:395-443 | A reachable run in which the last revision goes away and an invalidation keeps it served |
| SnapshotProtocol.FingerprintIsExact | apps/api/control-server.ts:395-398 | For delimiter-free names fingerprints are equal exactly when the active revisions are |
| SnapshotProtocol.EmptyFingerprintIff | apps/api/control-server.ts:395-443 | The mark of invalidation is the fingerprint of no revisions and of nothing else |
| SnapshotProtocol.EndedKeepsInv | packages/protocol/snapshot.ts:279-364 | Ending a construction keeps versions consecutive and the cache holding the last snapshot made |
| SnapshotProtocol.StepKeepsInv | apps/api/control-server.ts:379-443 | Every step keeps the protocol's invariant |
| EntityTags.IsEtagMatch | apps/api/control-server.ts:322-342 | The loop decides the header comparison |
| EntityTags.ListMatchesIff | apps/api/control-server.ts:322-342 | Among tags without a comma, which the snapshot versions are, a list matches exactly when one has the current opaque part, weak or not |
| EntityTags.VersionsMatchIff | apps/api/control-server.ts:819-826 | A poll's condition holds exactly for the version it has |
| EntityTags.CommaTagMatchesOnlyStar | apps/api/control-server.ts:322-342 | A current tag whose opaque part holds a comma is matched by no list but through a star |
| EntityTags.WeakComparisonIff | apps/api/control-server.ts:322-342 | For a current tag without a comma the comparison is the weak one of RFC 9110 exactly when some listed tag is equal or no piece of a listed tag with a comma matches |
| EntityTags.ListMatchesByPiecesIff | apps/api/control-server.ts:322-342 | A list matches exactly when a comma-separated piece of one of its items does |
| EntityTags.CommaTagMatchesItsFirstPart | apps/api/control-server.ts:322-342 | A listed tag with a comma can match the tag of its first part |
| SnapshotServers.ControlPlane.FinishProjectSnapshot | apps/api/control-server.ts:395-433 | Returns the cached snapshot exactly when the fingerprints agree; otherwise makes the next version of the entries read, with the declared routes, or one route per function from its name to it, and the metadata |
| SnapshotServers.ControlPlane.InvalidateProjectSnapshot | apps/api/control-server.ts:435-443 | Marks one project's state and no other |
| SnapshotServers.ControlPlane.AnswerPoll | apps/api/control-server.ts:814-841 | Not modified exactly for the version the poll has |
| SnapshotServers.RuntimeServer.SnapshotArrives | apps/runtime/runtime-server.ts:600-624 | Takes a body only if newer, keeps the own project's two copies equal and touches no other project |
| SnapshotServers.RuntimeServer.TrackCallDepth | apps/runtime/runtime-server.ts:190-197 | Depth comes from the chain, from the header only for an unknown one; the map stays bounded and only a full map forgets others |
| SnapshotServers.RuntimeServer.CacheArtifactCode | apps/runtime/runtime-server.ts:200-209 | Holds the new code, loses at most the oldest and only at capacity |
| SnapshotServers.RuntimeServer.RecordLogEntry | apps/runtime/runtime-server.ts:225-230 | The log is the last thousand entries recorded |
| ApiKeys.CacheIsInvisible | packages/auth/store.ts:99-186 | In every run of operations one at a time over a cache that may expire anything, verification answers what primary storage alone would |
| ApiKeys.RevokedNeverVerifiesAgain | packages/auth/store.ts:191-222 | Once revoked, a key's token is refused after every later run of operations |
| ApiKeys.CreatedVerifies | packages/auth/store.ts:57-186 | A created key verifies as its identity until it is revoked, whatever is done to others |
| ApiKeys.CreateKeepsInvIff | packages/auth/store.ts:57-93 | Creating a key keeps the three indexes in agreement if and only if its organisation key fits the storage limits |
| ApiKeys.LongOrganisationLeavesTwoIndexes | packages/auth/store.ts:57-93 | Creating a key for an organisation whose name is longer than a storage key throws, leaves a token that verifies, and no entry under the organisation |
| ApiKeys.RunKeepsInv | packages/auth/store.ts:57-222 | The indexes describe the same records and the cache agrees with storage in every run |
| ApiKeys.CachedIsComplete | packages/auth/store.ts:157-176 | In every run what is cached names a caller and an organisation |
| ApiKeys.KeyOfDecides | packages/auth/store.ts:84-90 | The three indexes never share a storage key |
| ApiKeyRaces.RevokedIsAnsweredIff | packages/auth/store.ts:99-222 | In every run of overlapping calls, after a revocation marked the record and evicted the entry, the token is answered if and only if a verification that read storage before the mark filled the cache after the eviction and its entry is still there; storage alone refuses it |
| ApiKeyRaces.MarkedIsAnsweredIff | packages/auth/store.ts:99-222 | The same from the mark on, whether the eviction is to come, came or failed |
| ApiKeyRaces.LateFillRevivesRevokedKey | packages/auth/store.ts:134-222 | A reachable run in which a key is created, revoked to the end, and its token is answered |
| ApiKeyRaces.UninterruptedVerify | packages/auth/store.ts:99-186 | A verification nobody interrupts does what the sequential store does |
| ApiKeyRaces.UninterruptedRevoke | packages/auth/store.ts:191-222 | So does a revocation |
| ApiKeyRaces.KeyLifecycle | packages/auth/store.ts:57-230 | A reachable run of a key created, verified and cached, expired in the cache, revoked and refused |
| ApiKeyRaces.RunKeepsInv | packages/auth/store.ts:57-222 | Fills follow a read of the same call, nothing is read after its mark, and the cache is what the trace says |
| ApiKeys.ApiKeyStore.CreateKey | packages/auth/store.ts:57-93 | Stores the trimmed record under its three keys, or throws on the third exactly when the organisation's key does not fit the storage limits |
| ApiKeys.ApiKeyStore.VerifyRawToken | packages/auth/store.ts:99-186 | Returns what primary storage says about the token and changes only the cache |
| ApiKeys.ApiKeyStore.RevokeKey | packages/auth/store.ts:191-226 | Marks both copies of the record with the time, leaves the rest of it and of the storage, evicts the cached identity, and says whether there was such a key |
| ApiKeys.ApiKeyStore.HasAnyKeys | packages/auth/store.ts:230-233 | True exactly when some key exists |
| EditDistance.DistanceIsMetric | cli/main.ts:383-412 | The recursive distance is zero exactly on equal strings, symmetric, and satisfies the triangle inequality |
| EditDistance.DistanceIsLeast | cli/main.ts:383-412 | The distance is the least number of single-character insertions, deletions and replacements that lead from one string to the other |
| EditDistance.Levenshtein | cli/main.ts:383-412 | The two-row loop in place computes the recursive distance |
| EditDistance.FindClosestCommand | cli/main.ts:445-457 | The first nearest known command at distance at most two, none exactly when there is none |
| Routing.MatchingIsBySegments | cli/simulate.ts:50-61 | For literal and prefix patterns the string comparison is matching segment by segment |
| Routing.StarContinues | cli/simulate.ts:50-61 | A final star that no slash precedes matches exactly the continuations of what stands before it |
| Routing.CalculateRouteScore | cli/check.ts:143-157 | The loop computes the score of a pattern's segments |
| Routing.ScoreIsWeight | cli/check.ts:143-157 | A literal of n segments scores 2n and a prefix of n segments 2n + 1 |
| Routing.ScoreCounts | cli/check.ts:143-157 | A pattern scores one for every segment and one more for every segment without a wildcard, parameter, group or brace |
| Routing.ScoreRanksByPrefix | cli/check.ts:143-157 | Among matching patterns the score ranks by prefix length; an exact literal beats a wildcard if and only if the wildcard's prefix is not the whole path |
| Routing.WildcardBeatsItsLiteral | cli/simulate.ts:101-127 | Of /api and a later /api/* the second wins the path /api |
| Routing.SelectWinner | cli/simulate.ts:101-127 | The matching route of highest score, the first declared among equals, none exactly when none matches |
| Routing.WinnerIsLongestPrefix | cli/simulate.ts:101-127 | The winner's pattern matches and no matching pattern outranks it, ties by declaration order |
| Routing.SortPutsFirstBestAhead | cli/simulate.ts:125-127 | The stable sort is a permutation that puts the first of the best in front |
| LogLines.StreamLines | cli/logs.ts:244-257 | However a text is cut into chunks, streaming yields the lines of the whole text |
| LogLines.SplitAnywhere | cli/logs.ts:247-252 | Splitting at any point, even between CR and LF, completes the same pieces |
| LogLines.SplitLosesNothing | cli/logs.ts:247-252 | Joined by line ends the pieces give the text back, with CR LF written as LF |
| LogLines.LinesAreTheText | cli/logs.ts:244-257 | The lines hold no line feed and, each ended by one, are the text with CR LF written as LF, but for a line feed the last line may lack |

## Left out

- Deployment.DeploymentService.BeginDeploy: artifact bytes are not modelled; their digests are parameters, and storing the artifact is a step that may fail.
- Persistence.Hydrate: JSON itself is not modelled, nor a value of a wrong type that is read without an error.
- BackupService.StateBackupService.ExportProject: nobody else writes to the three stores meanwhile, and records are keyed by their own id, which every mutation and hydration keeps.
- Stores.KvStore.Get: rows do not expire here, so nothing is deleted by reading.
- Stores.KvStore.Set: has no ttl and no version counter; exports carry no ttl, so a restored entry does not expire. Value size limits are absent too.
- Stores.KvStore.List: rows do not expire; stores other than SQLite's, and provider-specific path checks on object keys, are not part of this model.
- BackupTheorems.RoundTripIff: a pointer of a function without any record is not exported, so pointers are required to belong to listed functions; queue records are always empty on export and are left out of the archive.
- RateLimiter.AdmissionBound: arithmetic is over the reals, and times do not decrease; floating-point rounding is not modelled. A reset of the bucket restarts the bound.
- RateLimiter.PruningIsUnobservableIff: stated, like AdmissionBoundIff, for bursts of at least one; a smaller burst never admits a check.
- QueueConsumers.ResilientConsumer.ProcessNext: the sleep between polls and its jitter (`packages/policy/retry.ts`), and the consumers' own start and stop, are not modelled; the supervisor's lifecycle is.
- QueueRedelivery.NothingIsLost: a provider that parks an exhausted message in its own dead-letter state still counts as holding it; retention expiry is an event of its own.
- SupervisorLifecycle.OneGenerationAtATime: a queue provider whose `receive` aborts the signal before it first awaits would stop the supervisor in the middle of a start; such re-entry is not modelled.
- SnapshotFreshness.VersionsDecideContent: one control-plane lifetime, one poll at a time, sorted function names free of the fingerprint's delimiters, immutable revisions; snapshot validation and the runtime's disk copy are not modelled.
- SnapshotRecency.NextVersionIsRecentIff: functions with an active revision are taken to be listed: listing goes by records, and an active revision has one.
- QueueCounts.InvocationsAreLimitPlusKeptAcks: a single consumer that is not stopped with the message in hand.
- ApiKeys.ApiKeyStore.CreateKey: identifiers and tokens are parameters required to be new; storage is taken to fail on over-long keys only.
- `listKeys`, which reads one page of at most a thousand records and sorts them, is not modelled.
- HTTP handling, authentication middleware, compute providers, cron schedules, the pricing calculator, the runtime's own route matching and everything the CLI prints are not modelled.
- The filter and limit loop of `runLogs`, argument parsing, manifest validation and secret redaction would only add single-branch members.
- SHA-256, base64, JSON and random numbers are parameters with the laws they are used for.
