# CloudMoo monitoring engine: a verified model

This project models the monitoring engine of CloudMoo in Dafny and proves what its runs keep.
Any number of workers check the same assets at once; every check reserves a generation, asks the
provider without holding a lock, and commits only if its generation is still current. A commit
updates the asset's state row, may append a log row, and may create outbox rows for notification
emails, which send tasks and a recovery task then deliver. Around this protocol the project models
the metadata pipeline that decides whether a check counts as a change, the status timeline, and the
reconciliation of periodic tasks that follows a cloud's status.

`dafny verify dfyconfig.toml` checks the whole project.

## How it is organised

| file | what it holds |
|---|---|
| `basics.dfy`, `text.dfy`, `json.dfy` | options, time, ASCII string operations, JSON trees |
| `redaction.dfy`, `keys.dfy` | recursive redaction, its exact non-interference theorem, and which keys it hides |
| `fields.dfy`, `sorting.dfy`, `comparison.dfy`, `readings.dfy`, `roundtrip.dfy` | filtering, reading and comparing tracked fields, and what each leaf shows |
| `arrays.dfy`, `innerleaves.dfy`, `reordering.dfy` | where the filter leaves lists, paths that run into a leaf, lists in another order |
| `places.dfy` | which keys the filtered copy holds and what redaction hides there, read off the payload and the table |
| `discretion.dfy`, `telltales.dfy`, `flatcopies.dfy`, `noninterference.dfy` | for exactly which tables what is stored tells nothing about what redaction hides |
| `timeline.dfy` | run compression, durations, and what the timeline means |
| `outbox.dfy`, `delivery.dfy`, `attempts.dfy` | outbox rows, the delivery machine, its runs, and what a row tells of its attempts |
| `observation.dfy`, `fallback.dfy`, `history.dfy`, `transparency.dfy` | one check as a transaction, spelled out over any rows, and its meaning as a history |
| `protocol.dfy`, `linearization.dfy`, `provenance.dfy`, `consequences.dfy` | all interleavings of checks, mail steps and retention |
| `retention.dfy`, `mailing.dfy`, `recipients.dfy` | what pruning can change, mail and recovery in the whole system, mails per recipient |
| `witnesses.dfy` | concrete runs: pruning is noticed, the timeline misdates a status, a recipient is mailed twice |
| `engine.dfy`, `work.dfy` | the transactions as methods that update the database in place, and a worker's deliveries among other tasks |
| `schedules.dfy` | periodic tasks, cloud status, synchronization with rollback |
| `configuration.dfy` | the deployed statuses and metadata pipeline plugged into the protocol |

The imperative code of the engine (`engine.dfy`, `schedules.dfy`, and the loops in `timeline.dfy`,
`fields.dfy` and `comparison.dfy`) is written as methods that change fields or local variables in
loops, each proved against a specification function. Runs are sequences of steps over those
functions; a step that is not possible leaves the system unchanged, so every list of steps is a run.
The main theorems hold for all of them.

The main results, in plain words:

* **Linearization.** A finished check is accepted exactly when no other check of its asset started in
  between. Accepted generations strictly increase, accepted times never go back although the clock is
  read outside both transactions, and the health fields of the state row and the log are functions of the accepted
  observations alone. `history.dfy` states those functions over the sequence of observations (last
  healthy observation, trailing run of failures, changes), not as updates of a row.
* **Retention.** In every run, with pruning anywhere, a commit decides as the whole history asks for
  exactly when the database still tells the asset's last healthy status; only an empty status whose
  log row was pruned is not told. Erasing the prune steps changes no accepted observation and nothing
  of a state row but the time of its last change.
* **Notifications.** Each commit creates exactly one pending row per normalized recipient if and only
  if it logs a healthy change of a known status; failed checks neither cause nor hide notifications.
* **Mail.** The outbox of the whole system is a run of the delivery machine. Over all interleavings
  with crashes, the mails a recipient gets about an event are one if a sent row of theirs remains,
  plus the receipts that were lost, plus the prunes that removed a sent row of theirs; recovery
  starves no row.
* **Any rows.** What a check is compared with is the last known status and metadata, from the state row
  or else from the newest healthy log row, and what its commit writes is spelled out for any state row
  and log, also for an asset whose state row is new. Every accepted observation of a run is a provider's
  answer to a check started before, with the clock at which it came.
* **Attempts.** In every run a delivery row tells how many attempts committed, the clock of the last one
  and what came of it; recovery leaves it alone for five minutes after that.
* **Metadata.** What redaction makes of a payload is the one clean payload that agrees with it outside the
  sensitive positions, which are those under a key with one of eight words anywhere in its letters and
  digits. Redaction identifies two payloads exactly when they agree there. A prefix-free table stores all such payloads alike if and only if, outside Linode, none of
  its paths enters an array behind a hidden part and no two of them go through one environment map, one
  into its variables and one elsewhere; in the Linode branch, if and only if its paths stop at the first
  key of a hidden map, or of an environment's variables, and not at a list there. The table of AWS
  functions, which tracks `function.Environment.Variables`, is such a table. Whether a stored field reads
  back what the redacted payload shows is an iff for every plain path on every dict payload, and the
  condition can be decided from the payload and the table before anything is stored; in any table there
  is exactly one line per field that changed.
* **Schedules.** Reconciliation is exact and idempotent, recovery restores what invalidation removed,
  and failures leave the store as it was.

Where the code and its documentation differ, the model follows the code:

* `calculate_status_timeline` speaks of the time of a status change but keeps the newest row of each
  run of equal statuses, and changes of metadata alone do log a status again. `Timeline.TimelineMeaning`
  says exactly when the timeline and the log agree; `Witnesses.MetadataChangeMisdatesTimeline` is a run
  in which they do not.
* The filter stores the list of an array path one level below the slot the comparison reads, in both
  branches. On payloads whose parts before the array are dicts, such a path reads back exactly when its
  slot holds no list (`ArrayPaths.ArrayPathReadsBackIffNoList`), and no change inside the array is
  reported. Outside Linode a payload with a list one level above the array's own place does have it
  found again, and only then are changes reported (`ArrayPaths.ArrayChangesReportedExactly`).
* Outside Linode, a missing last key is stored as null and then reads as `None` rather than `{}`, and a
  tracked path of one part is stored as an empty dict whatever it holds. A path that runs into a leaf is
  stored as an empty dict there. `RoundTrip.FilterReadsBackExactly` and `InnerLeaves.LeafInsideReadsBack`
  say exactly when a field reads back; every dict payload falls under one of the two
  (`InnerLeaves.DictsOrLeafInside`).
* The filter copies before it redacts, and an environment map is shown only if it has a variables key. So
  a tracked path through an environment to something else can be hidden in the copy and open in the
  payload (`RoundTrip.OpenInPayloadOnly`) or the other way round (`RoundTrip.OpenInCopyOnly`).
* Redaction runs after filtering, so a table can undo it: two payloads that differ in a masked
  environment value are stored differently if the environment's variables are tracked besides
  (`NonInterference.EnvironmentTellsApart`), and a list under a sensitive key is told from a text by a
  path into that list (`NonInterference.HiddenListTellsApart`).
* A recipient can be mailed twice about one event without any receipt being lost, when the sent row is
  pruned before the event's send task is delivered again (`Witnesses.RecipientMailedTwice`).
* `run_cloud_sync` reports the in-memory status: the report differs from the stored status exactly when
  the status was assigned, in a recovery or an invalidation, and the transaction then failed, or when
  locking the cloud failed and the caller's copy was out of date (`Schedules.CloudDb.RunCloudSync`,
  `Schedules.FailsAfterAssigning`).

The protocol is proved for any set of non-alerting statuses that does not contain the empty string,
and for any functions that store and compare metadata; `Configuration` supplies the deployed ones.

## Model

| member | source | states |
|---|---|---|
| Linearization.AcceptedIffUncontended | apps/monitoring/tasks.py:62-119 | a finished check is accepted exactly when no other check of its asset started between its own start and its record step |
| Linearization.GenerationCountsStarts | apps/monitoring/tasks.py:62-85 | in every run an asset's generation is the number of checks started for it |
| Linearization.TaskRemembersItsStart | apps/monitoring/tasks.py:252-290 | a task in flight still carries the asset and the generation its own start gave it |
| Protocol.AcceptedInOrder | apps/monitoring/tasks.py:62-119 | accepted observations have strictly increasing generations and non-decreasing times, tasks in flight have distinct generations |
| Linearization.RowsFollowHistory | apps/monitoring/tasks.py:88-234 | in every interleaving without pruning, the health fields of the state row and the log are those of the sequential history of accepted observations |
| Linearization.HealthFollowsHistory | apps/monitoring/tasks.py:88-234 | in every run, whatever is pruned, the health fields of the state row but for the time of the last change are those of the whole history |
| Linearization.StateFollowsHistoryDespitePruning | apps/monitoring/tasks.py:88-234 | with prune steps anywhere, an asset whose healthy checks reported non-empty statuses has all health fields of its history, and its remaining log rows belong to it |
| Linearization.CommitFollowsHistory | apps/monitoring/tasks.py:125-213 | at every commit of every run the verdict (previous status, log entry, notification) is the one the history asks for iff the database still tells the last healthy status |
| History.JudgedByHistory | apps/monitoring/tasks.py:125-184 | the verdict is that of the history iff the last healthy status is known from the state row or, if empty, from the log |
| History.RecordingExtendsHistory | apps/monitoring/tasks.py:141-224 | recording a current check, the last status being known, gives the health fields and log of the history extended by it |
| History.LogShowsLastStatus | apps/monitoring/tasks.py:129-135 | the newest healthy log row shows the last healthy status and is missing only if there was none |
| History.PruningMattersExactly | apps/monitoring/tasks.py:125-139 | a prune leaves the verdict on a current check as it is iff the last status is not empty or the newest healthy row left shows the same status as before |
| Fallback.NewestHealthyExactly | apps/monitoring/tasks.py:129-135 | the log row looked up is the asset's newest one without a failure status, and none is found only if there is none |
| Fallback.PreviousIsLastKnown | apps/monitoring/tasks.py:125-139 | for any state row and log, a check is compared with exactly the row's last status, or if that is empty the newest healthy log row's, and likewise the metadata |
| Fallback.HealthyCommitSpelledOut | apps/monitoring/tasks.py:173-224 | for any state row and log, a healthy commit writes the spelled-out state row, logs exactly a first status, another status or another stored payload, and announces it to every recipient iff a last healthy status is known |
| Fallback.FailedCommitSpelledOut | apps/monitoring/tasks.py:141-171 | for any state row and log, a failed commit counts and remembers the failure and logs one row iff it is another failure |
| Fallback.ReplySpelledOut | apps/monitoring/tasks.py:165-234 | for any state row and log the reply names the last known status, and says whether the check was logged and whether it was announced |
| Fallback.StaleCheckWritesNothing | apps/monitoring/tasks.py:99-119 | a check that is not current writes nothing and reports whether it failed and the status shown |
| Fallback.KnownFromLogOnly | apps/monitoring/tasks.py:125-213 | with a new state row and a healthy row in the log, a check with another status is logged and announced with that row's status |
| Provenance.HistoryIsAnswers | apps/monitoring/tasks.py:237-290 | every accepted observation carries the status and payload of a provider's answer, the clock at which it came, and the number of the start before it |
| Provenance.RowsShowTheirAsset | apps/monitoring/tasks.py:62-85 | in every run a state row shows when its asset's last check began, and the account, provider and kind last seen |
| Witnesses.PruningIsNoticed | apps/monitoring/tasks.py:125-139 | two runs differing in one prune step of at least a day: the repeated check of an empty status is silent in one and logged in the other |
| Transparency.OutagesAreTransparent | apps/monitoring/tasks.py:141-213 | histories with the same healthy checks, whatever their generations, have equal healthy log rows, announcements, last status, payload and times |
| Transparency.EveryChangeIsAnnouncedOnce | apps/monitoring/tasks.py:180-213 | the first healthy row is silent, each later one differs from its predecessor and is announced once with the predecessor's status |
| Transparency.FailuresCountedExactly | apps/monitoring/tasks.py:141-148 | the failure counter is the exact length of the run of failed checks at the end of the history |
| Consequences.OutboxIsExact | apps/monitoring/tasks.py:186-213 | a commit adds one fresh pending row per normalized recipient iff it logs a healthy change of a known status, else none; for a healthy check with recipients this holds iff the last status is still known |
| Consequences.LogStaysInOrder | apps/monitoring/tasks.py:278-290 | log ids follow creation order and an asset's timestamps never run against them, with or without pruning |
| Consequences.StateTimesInOrder | apps/monitoring/tasks.py:215-224 | last_change_at <= last_success_at <= last_checked_at in every run |
| Consequences.LastStatusIsHealthy | apps/monitoring/tasks.py:217-221 | last_status is never non-alerting, and a known status comes with stored metadata |
| Consequences.MessagesFollowHistory | apps/monitoring/tasks.py:186-213 | if the last healthy status was known at each of an asset's healthy commits, the rows its commits create carry exactly the messages its history announces, in order |
| Consequences.KnownIfNamedOrUnpruned | apps/monitoring/tasks.py:125-139 | that is so in every run without pruning, and with it if the asset's healthy checks reported non-empty statuses |
| Consequences.RunsAgreeUpToOutages | apps/monitoring/tasks.py:141-213 | two runs with the same healthy checks of an asset, however numbered, show the same last status and payload; without pruning the same healthy rows; and, the status known throughout, create outbox rows with the same messages |
| Retention.PruningIsInvisible | apps/monitoring/tasks.py:607-619 | erasing the prune steps changes no accepted observation and no state row but its change time, and leaves a verdict as it is iff the check is stale or the last status still known |
| Retention.NamedAssetsNeverNotice | apps/monitoring/tasks.py:607-619 | an asset whose healthy checks reported non-empty statuses has the very same state row without pruning |
| Retention.SurvivingLogKeepsItsMail | apps/monitoring/tasks.py:607-619 | a log row that is not older than the cutoff of a prune keeps every outbox row of its event and account |
| Retention.DeletesAreSteps | apps/monitoring/tasks.py:609-619 | each delete of a prune task, in the log or in the outbox of one account, is a step of the protocol however long the task has been running |
| Consequences.TimelineOfAnyRun | apps/monitoring/tasks.py:204-213 | the timeline of any asset in any run has no negative duration and covers its window |
| Consequences.EventsAlwaysLogged | apps/monitoring/email.py:156-175 | in every run of the whole system outbox rows are well formed and speak only of logged events |
| Engine.MonitoringDb.StartMonitoringObservation | apps/monitoring/tasks.py:62-85 | the in-place start equals the step function and returns the new generation |
| Engine.MonitoringDb.RecordMonitoringObservation | apps/monitoring/tasks.py:88-234 | the in-place record transaction equals the step function, and its verdict the specified one |
| Engine.MonitoringDb.LoadPrevious | apps/monitoring/tasks.py:125-139 | previous status and metadata come from the state row, or from the newest healthy log row |
| Engine.MonitoringDb.RecordFailure | apps/monitoring/tasks.py:141-171 | a failed check writes the heartbeat and logs only a change of error status |
| Engine.MonitoringDb.RecordSuccess | apps/monitoring/tasks.py:173-234 | a healthy check writes state, log row and outbox rows as one |
| Engine.MonitoringDb.RunStatusCheck | apps/monitoring/tasks.py:237-290 | a check nobody races with is never stale, comes back with the verdict on its observation, and an adapter's exception is recorded as an error |
| Engine.MonitoringDb.EnsureStatusChangeEmailOutbox | apps/monitoring/email.py:63-121 | the loop creates exactly the rows of the specification |
| Engine.MonitoringDb.DeliverStatusEmail | apps/monitoring/email.py:124-185 | one delivery with its rollback on a crash; a failed attempt's increment is durable although the error is raised |
| Engine.MonitoringDb.SendStatusChangeEmails | apps/monitoring/email.py:188-245 | the send task creates missing rows one by one, then delivers in recipient order, each at the time it has become and among any other steps, and reports what was sent and whose delivery raised or whose row was gone |
| Engine.MonitoringDb.ReadBatch | apps/monitoring/tasks.py:565-580 | the recovery batch is exactly the hundred oldest due rows, in order |
| Engine.MonitoringDb.RetryPendingStatusEmails | apps/monitoring/tasks.py:563-596 | a recovery pass, among any other steps, is a run of the delivery machine that attempts its whole batch unless the worker dies, and counts its own mails |
| Engine.MonitoringDb.PruneStatusLogs | apps/monitoring/tasks.py:607-619 | account by account, one delete in the log and one in the outbox with the cutoff of the task's beginning, whatever other tasks do to the database in between |
| Engine.PruneSpelledOut | apps/monitoring/tasks.py:607-619 | undisturbed, the rows deleted are exactly those more than their account's days of 86400 seconds old |
| Engine.PruneUndisturbed | apps/monitoring/tasks.py:607-619 | with nothing in between the task removes exactly each account's expired log and outbox rows |
| Outbox.RecipientsExact | apps/monitoring/email.py:47-53 | recipients are exactly the normalized non-blank addresses, once each |
| Outbox.RecipientsSpelledOut | apps/monitoring/email.py:47-53 | a recipient is what is left of an address without the blanks around it, in lower case, and not empty |
| Outbox.DeliveryKeySpelledOut | apps/monitoring/email.py:56-60 | the key text is the event in decimal digits, a colon and the lowered address |
| Outbox.RecipientsKeepOrder | apps/monitoring/email.py:47-53 | de-duplication keeps the order of first occurrence |
| Outbox.RecipientsIdempotent | apps/monitoring/email.py:47-53 | normalizing a normalized list changes nothing |
| Outbox.DeliveryKeyInjective | apps/monitoring/email.py:56-60 | the key text determines event and address, even with colons in the address |
| Outbox.EnsureKeepsRows | apps/monitoring/email.py:94-119 | existing rows keep every field but a missing content type, and keys stay unique |
| Outbox.BackfillSpelledOut | apps/monitoring/email.py:94-119 | a row asked for again gets the content type iff it lacks one, and nothing else changes on any row |
| Outbox.EnsureIdempotent | apps/monitoring/email.py:63-121 | asking again for the same event and recipients changes nothing |
| Outbox.FreshEventAddsOneRowEach | apps/monitoring/email.py:94-112 | a fresh event gets exactly one pending row per recipient and nothing else changes |
| Delivery.RunKeepsOk | apps/monitoring/email.py:124-175 | in every run attempts stay within ten, dead means ten attempts, pending means none, and no row is committed as sending |
| Delivery.SendingIsNeverCommitted | apps/monitoring/tasks.py:569-579 | the sending disjunct of the recovery query never matches in a reachable state |
| Delivery.OneRowPerEventAndRecipient | apps/monitoring/email.py:94-119 | at most one row per event and normalized recipient in every reachable state |
| Attempts.RowTellsItsLastAttempt | apps/monitoring/email.py:124-180 | in every run a row's counter, last attempt time, status, sent time and error are those of its committed attempts: sent then, failed with that error, or given up after ten |
| Attempts.DueRowsExactly | apps/monitoring/tasks.py:565-577 | a row is due iff it is pending or failed and was not attempted within the last 300 seconds; none within them is in a batch |
| Attempts.BatchExactly | apps/monitoring/tasks.py:580 | a batch holds the due rows before which fewer than a hundred others are due |
| Attempts.MailIsHandedOverExactly | apps/monitoring/email.py:131-160 | a delivery hands a mail over iff the row is not sent, has fewer than ten attempts and the worker lives that long |
| Attempts.SystemRowsTell | apps/monitoring/email.py:124-180 | the same in every run of the whole system, with checks and retention |
| Delivery.MailIsConserved | apps/monitoring/email.py:124-185 | attempt_count is the number of committed attempts, and accepted mails are one if sent plus the lost receipts |
| Recipients.StepConserves | apps/monitoring/email.py:124-185 | every step conserves the mails of a recipient of an event: shown by a sent row, lost, or forgotten with a pruned row |
| Delivery.RunAdvances | apps/monitoring/email.py:124-175 | a row's message never changes, sent and dead are absorbing, attempts never decrease, and the attempt time moves only with them |
| Delivery.CycleServes | apps/monitoring/tasks.py:565-594 | a complete pass attempts each of the hundred oldest waiting rows, or another task just did |
| Delivery.RecoveryNeverStarves | apps/monitoring/tasks.py:563-596 | with r older rows waiting a row is settled within 11 * (r / 100 + 1) complete passes, however many newer rows arrive |
| Mailing.OutboxIsDeliveryRun | apps/monitoring/tasks.py:186-213 | in every run of the whole system the outbox is what the delivery machine makes of the run, commits creating the rows |
| Mailing.SystemConservesMail | apps/monitoring/email.py:124-185 | in every run of the whole system, attempts and accepted mails of a row are exactly those its status accounts for, plus lost receipts |
| Recipients.MailPerRecipientIsConserved | apps/monitoring/email.py:94-185 | in every run of the whole system, the mails accepted for a recipient of an event are one if a sent row of theirs remains, plus lost receipts, plus prunes of a sent row of theirs |
| Recipients.MailedAtMostOnce | apps/monitoring/email.py:94-185 | if none of their receipts is lost and no prune removes a sent row of theirs, a recipient is mailed at most once about an event, and exactly when a row of theirs is sent |
| Witnesses.RecipientMailedTwice | apps/monitoring/tasks.py:607-619 | a run in which a recipient loses no receipt and is mailed twice about one event, its sent row pruned in between |
| Mailing.SystemNeverStarves | apps/monitoring/tasks.py:563-596 | amid checks and retention, a row with r older rows waiting is settled within 11 * (r / 100 + 1) complete passes |
| Redaction.RedactsEqualIffAgree | apps/monitoring/metadata.py:36-73 | two payloads redact alike exactly when they agree outside the sensitive positions |
| Keys.SensitiveExactly | apps/monitoring/metadata.py:18-27 | a key is sensitive iff one of the eight words occurs anywhere in its lowered letters and digits, or they say variables |
| Keys.WordHidesValue | apps/monitoring/metadata.py:60-67 | a key with such a word in it hides its value, whatever stands before or after: a mask, or masks under a map's names |
| Keys.SpellingIgnores | apps/monitoring/metadata.py:41-43 | characters that are neither letter nor digit do not change how a key is read |
| Keys.LoweringKeepsSpelling | apps/monitoring/metadata.py:41-43 | nor do capitals |
| Keys.SpelledAlikeHideAlike | apps/monitoring/metadata.py:41-69 | keys that are read alike hide alike |
| Keys.HarmlessKeyHidesNothing | apps/monitoring/metadata.py:68-69 | a key with none of the words, neither environment nor variables, keeps its value but for what is hidden inside |
| Keys.CommonSecretsAreHidden | apps/monitoring/metadata.py:18-27 | `api_token`, `DB_PASSWORD` and `AccessKey` are masked |
| Keys.RedactionIsTheCleanOne | apps/monitoring/metadata.py:36-73 | the redacted payload is the only one that has nothing but masks under hiding keys at any depth and agrees with the payload elsewhere |
| Redaction.RedactIdempotent | apps/monitoring/metadata.py:36-73 | redacting twice is redacting once |
| Redaction.RedactKeepsTheRest | apps/monitoring/metadata.py:36-73 | keys, lengths and leaves outside sensitive positions are unchanged |
| Fields.FilterMetadata | apps/monitoring/metadata.py:1013-1104 | the loop over the field table computes the specified filtered and redacted copy |
| Fields.FilterCopies | apps/monitoring/metadata.py:1021-1102 | at every tracked plain path, where the parts before the last are dicts or missing, the copy holds the payload's value, or what the branch makes of a missing one or of a path of one part |
| Fields.SecondRedactionIsNoOp | apps/monitoring/tasks.py:173-175 | the second redaction in the record step changes nothing |
| NonInterference.SecretsKeptIffSafe | apps/monitoring/metadata.py:1021-1104 | in either branch, a prefix-free table stores all dict payloads alike that agree outside the sensitive positions iff it is discreet (outside Linode) or shallow (in Linode), a condition on its paths alone |
| NonInterference.SecretsAreNotStored | apps/monitoring/metadata.py:36-73 | with such a table, payloads that agree outside the sensitive positions are stored as the same metadata, and a check that differs only there reports no change |
| NonInterference.TrackedVariablesAreSafe | apps/monitoring/metadata.py:553-573 | a table of visible paths and one path into the variables of an environment, as that of AWS functions, is such a table although that path is not visible |
| NonInterference.VisibleTableIsSafe | apps/monitoring/metadata.py:1021-1104 | so is every table none of whose paths leads through a sensitive or environment part |
| Discretion.CopyAllAlike | apps/monitoring/metadata.py:1065-1104 | outside Linode, a discreet table copies payloads that redact alike to copies that redact alike |
| TellTales.IndiscreetTableTells | apps/monitoring/metadata.py:1065-1104 | every other table has two payloads that redact alike and whose copies do not |
| FlatCopies.ShallowTableKeeps | apps/monitoring/metadata.py:1021-1063 | in the Linode branch, a shallow table keeps copies alike, also inside the environment maps that the payload opens |
| FlatCopies.DeepTableTells | apps/monitoring/metadata.py:1021-1063 | every other table has two payloads that redact alike and whose copies do not |
| NonInterference.EnvironmentTellsApart | apps/monitoring/metadata.py:44-60 | a table that leads through an environment map both into its variables and elsewhere stores two such payloads differently |
| NonInterference.HiddenListTellsApart | apps/monitoring/metadata.py:1084-1090 | a table with a path into an array under a sensitive key stores a list and a text there differently |
| RoundTrip.FilterReadsBackExactly | apps/monitoring/metadata.py:1065-1163 | outside Linode, where the parts before the last are dicts or missing: an iff for every prefix-free table, over present, missing and redacted fields and paths of one part |
| RoundTrip.FilterReadsBack | apps/monitoring/metadata.py:1013-1163 | a present field whose path follows environment maps only into their variables reads back in either branch, except that a path of one part outside Linode reads as an empty dict |
| RoundTrip.FilterReadsBackIffPresent | apps/monitoring/metadata.py:1065-1104 | outside Linode, on paths without environment or sensitive inner parts, the round trip holds iff the payload has the key or lacks the root, and for a path of one part iff the payload reads as an empty dict |
| InnerLeaves.LeafInsideReadsBack | apps/monitoring/metadata.py:1021-1163 | in either branch, on any plain path that runs into a leaf before it ends, an iff on the text of the leaf, on what redaction hides in payload and copy, and on what other paths have left of a list |
| Places.CopyHoldsFilled | apps/monitoring/metadata.py:1021-1104 | in either branch, the copy holds a key exactly when the place that some tracked path fills, computed from the payload, is that key or below it |
| Places.HiddenIffFilled | apps/monitoring/metadata.py:36-73 | whether the copy hides a path is a condition on the payload and the table |
| Places.HiddenByTable | apps/monitoring/metadata.py:1065-1104 | outside Linode, over dicts, the copy hides a tracked path iff the payload has its root and it leads through a sensitive part, or an environment into whose variables the table sends no path |
| Places.ReadsBackDecided | apps/monitoring/metadata.py:1065-1163 | outside Linode, where the parts before the last are dicts or missing, the exact condition for reading back in terms of payload and table |
| Places.LinodeReadsBackDecided | apps/monitoring/metadata.py:1021-1063 | the same in the Linode branch |
| Places.LeafReadsBackDecided | apps/monitoring/metadata.py:1021-1163 | the same in either branch for a path that runs into a leaf, the kept list included |
| RoundTrip.OpenInPayloadOnly | apps/monitoring/metadata.py:44-60 | an environment value shown by the redacted payload and masked in the copy, which lacks the variables key |
| RoundTrip.OpenInCopyOnly | apps/monitoring/metadata.py:44-60 | an environment value masked in the redacted payload and shown by the copy, which got a null variables key |
| RoundTrip.OnePartPathIsLost | apps/monitoring/metadata.py:1071-1081 | a tracked root that holds a text is stored, but reads as an empty dict |
| RoundTrip.LinodeReadsBack | apps/monitoring/metadata.py:1021-1063 | in the Linode branch, where the parts before the last are dicts or missing, a field present or missing reads back iff its path is hidden in payload and copy alike or its slot shows only the mask |
| Places.ListsLandOneLevelBelow | apps/monitoring/metadata.py:1044-1061 | the list of a tracked array path is stored whole one level below its own place: under the part before the array, or in Linode under the path's last part that is no array |
| Places.UntrackedKindStoresNothing | apps/monitoring/metadata.py:1015-1016 | without a table for the provider and kind nothing is stored and nothing differs |
| Places.OnlyLinodeKeepsRootTexts | apps/monitoring/metadata.py:1021-1081 | a tracked root text is kept for the provider linode only |
| ArrayPaths.ArrayPathReadsBackIffNoList | apps/monitoring/metadata.py:1021-1104 | in both branches, where the parts before the array are dicts, an array path reads back iff its slot holds no list |
| ArrayPaths.ArrayChangesAreNeverReported | apps/monitoring/metadata.py:1021-1104 | in both branches, where the parts before the array are dicts, no change inside the array is reported between two stored copies |
| ArrayPaths.StoredArray | apps/monitoring/metadata.py:1082-1104 | outside Linode, on any payload, the stored copy holds a list at the array's own place iff the payload holds that list one level above |
| ArrayPaths.ArrayChangesReportedExactly | apps/monitoring/metadata.py:1082-1201 | outside Linode, on any two payloads, a change inside an array is reported iff both hold a sortable list one level above and the texts differ |
| Comparison.GetNestedValue | apps/monitoring/metadata.py:1107-1163 | the loop over the path computes the specified reading |
| Readings.ScalarIsRead | apps/monitoring/metadata.py:1136-1163 | at a plain path over dicts the leaf's text is read |
| Readings.TextsAreShown | apps/monitoring/metadata.py:1112-1120 | a text shows itself, a number its decimal digits and sign, a boolean 1 or 0, null None |
| Readings.LeavesLookAlike | apps/monitoring/metadata.py:1112-1120 | two numeric leaves look alike iff they are equal numbers, two texts iff they are equal |
| Readings.LeafLineExactly | apps/monitoring/metadata.py:1177-1196 | at a plain path over dicts two numbers or two texts give exactly one line, with both values, iff they differ |
| Readings.StoredLeafLineExactly | apps/monitoring/metadata.py:1013-1196 | the same between the stored copies of two payloads, on visible paths |
| Readings.OtherReadings | apps/monitoring/metadata.py:1136-1163 | a missing key shows the empty dict and a dict itself |
| Readings.LeafIsReadOn | apps/monitoring/metadata.py:1153-1156 | a path that goes on behind a leaf shows the leaf |
| Readings.NothingShowsBlank | apps/monitoring/metadata.py:1179-1180 | nothing stored, or an empty dict, shows the empty text |
| Readings.ElementsAreShown | apps/monitoring/metadata.py:1186-1187 | a list element shows its text or number, a boolean its name |
| Readings.ReadableListsExactly | apps/monitoring/metadata.py:1122-1126 | a list is read iff it has at most one element, or only numbers, only texts or only dicts |
| Readings.ArrayLinesExactly | apps/monitoring/metadata.py:1183-1193 | two readable lists give one line of the texts that came and one of those that went |
| Readings.NoListGivesNoLine | apps/monitoring/metadata.py:1183-1185 | where either payload holds no list an array path gives no line |
| Comparison.CompareMetadata | apps/monitoring/metadata.py:1166-1201 | the loop over the field table computes the specified list of changes |
| Comparison.ComparingWithItselfIsSilent | apps/monitoring/metadata.py:1166-1201 | comparing metadata with itself reports nothing |
| Comparison.ChangeReportedIffSomeFieldDiffers | apps/monitoring/metadata.py:1177-1199 | changes are reported exactly when some tracked field differs |
| Comparison.OneLinePerDifference | apps/monitoring/metadata.py:1177-1196 | in any table there is exactly one line per plain path whose readings differ, one per array path that gained and one per array path that lost elements, each kind in table order and with the right values |
| Comparison.PlainTablesHaveOneKind | apps/monitoring/metadata.py:1177-1196 | without array paths the lines of plain paths are all lines there are |
| Comparison.ReorderedListIsNoChange | apps/monitoring/metadata.py:1122-1162 | permuting a tracked list never counts as a change |
| Reordering.ReorderedStoredListIsNoChange | apps/monitoring/metadata.py:1013-1162 | between two stored copies a permuted list at a plain path gives no line, in either branch |
| Reordering.ReorderedArrayIsNoChange | apps/monitoring/metadata.py:1122-1195 | a permuted list at an array path gives no line, even with equal sort keys |
| Reordering.ReorderedStoredArrayIsNoChange | apps/monitoring/metadata.py:1082-1195 | nor between two stored copies outside Linode, wherever the filter has left the list |
| Sorting.PermutationsNormalizeAlike | apps/monitoring/metadata.py:1122-1134 | permutations of a list with distinct sort keys normalize to the same list |
| Sorting.SortAscends | apps/monitoring/metadata.py:1122-1134 | sorted lists ascend in numbers, and alphabetically in texts |
| Timeline.EntriesLastUntilTheNext | apps/monitoring/timeline.py:41-61 | each entry has time and status of its run's newest row, and lasts until the next newer entry, the first one until now |
| Timeline.QueryTakesTheNewest | apps/monitoring/timeline.py:30-39 | the queried rows are the newest of the window's rows, at most ten thousand, newest first |
| Consequences.TimelineSeesHealthyRows | apps/monitoring/timeline.py:30-38 | the timeline is drawn from time and status of exactly the asset's log rows without a failure status |
| Timeline.CalculateStatusTimeline | apps/monitoring/timeline.py:21-63 | the two loops compute the run heads of the queried rows and their durations |
| Timeline.NeighboursDiffer | apps/monitoring/timeline.py:41-50 | neighbouring entries never show the same status |
| Timeline.TimelineCoversItsWindow | apps/monitoring/timeline.py:52-61 | durations are not negative and add up to the time since the oldest entry |
| Timeline.TimelineMeaning | apps/monitoring/timeline.py:41-50 | at any instant the timeline shows the log's status exactly when the newest row then is the newest of its run |
| Timeline.AgreeEverywhereIffNoRepeats | apps/monitoring/timeline.py:41-50 | timeline and log agree at every instant iff no two neighbouring rows repeat a status |
| Witnesses.MetadataChangeMisdatesTimeline | apps/monitoring/timeline.py:44-50 | a run with a change of metadata alone, after which the log shows a status from its first check and the timeline only from the second |
| Timeline.QueryShowsTheLog | apps/monitoring/timeline.py:30-39 | inside the window and below the row limit the queried rows show what the whole log shows |
| Schedules.CloudDb.UpsertPeriodicTask | apps/monitoring/schedules.py:51-77 | creating or repairing field by field leaves exactly the wanted task |
| Schedules.CloudDb.DeleteAllAssetSchedules | apps/console/cloud/models.py:490-505 | removes exactly the tasks of the cloud's assets |
| Schedules.CloudDb.CreateAllAssetSchedules | apps/console/cloud/models.py:507-525 | the loop reconciles every known asset |
| Schedules.CloudDb.SaveStatus | apps/console/cloud/models.py:326-353 | the cloud's sync task follows when the stored status changes, unless its update fails unnoticed |
| Schedules.UnnoticedFailureIsHarmless | apps/console/cloud/models.py:339-353 | in a synchronization that failure changes nothing, because the sync task is the same before and after |
| Schedules.CloudDb.RunCloudSync | apps/monitoring/tasks.py:382-465 | one synchronization with rollback; the reported status differs from the stored one iff it was assigned in memory and the transaction then failed, or locking failed and the caller's copy was out of date |
| Schedules.RunningCloudIsImported | apps/monitoring/tasks.py:420-431 | a running cloud with valid credentials gets its inventory imported and is marked synced, unless something fails |
| Schedules.RecoveredCloudIsImported | apps/monitoring/tasks.py:420-431 | a cloud whose credentials are valid again gets every asset's task and its own 15-minute task back, and then its inventory imported, unless something fails |
| Schedules.InvalidCloudIsStopped | apps/monitoring/tasks.py:403-408 | a running cloud with invalid credentials loses exactly its assets' tasks and keeps its own enabled one, unless something fails |
| Schedules.NothingElseIsSynced | apps/monitoring/tasks.py:391-465 | in every other case nothing changes |
| Schedules.SuccessSpelledOut | apps/monitoring/tasks.py:391-465 | a synchronization succeeds iff the credentials were decided on and no step it takes fails |
| Schedules.FailsAfterAssigning | apps/monitoring/tasks.py:398-465 | a failure after the assignment is one of saving or committing an invalidation, or any in a recovery |
| Schedules.ReconciliationIsExact | apps/console/cloud/models.py:514-522 | one current task per existing asset, enabled iff actively monitored, none for vanished ones, no other task touched |
| Schedules.ReconciliationIsIdempotent | apps/console/cloud/models.py:507-525 | reconciling twice is reconciling once |
| Schedules.RecoveryRestoresSchedules | apps/monitoring/tasks.py:402-416 | invalidation followed by recovery gives the tasks that reconciling directly gives |
| Schedules.SyncsKeepStoreOk | apps/monitoring/tasks.py:391-465 | over any sequence of synchronizations the sync task matches the status, invalid clouds have no asset tasks, other statuses never move |
| Configuration.RepeatedCheckIsSilent | apps/monitoring/tasks.py:176-186 | a healthy check that repeats the last one is neither logged nor announced |
| Configuration.LoggedIffSomethingDiffers | apps/monitoring/tasks.py:176-199 | a healthy check of a known status is logged exactly when the status or a tracked field differs |
| Configuration.FailuresSpelledOut | apps/monitoring/checks/base.py:7-20 | exactly six statuses count as failed checks |
| Configuration.ChangedLeafIsNews | apps/monitoring/tasks.py:173-184 | a tracked number or text that differs from the last known payload's makes a check news even if the status is the same, with one line for the field |
| Configuration.DeployedCommits | apps/monitoring/tasks.py:176-199 | in every run of the deployed engine, a healthy commit of a known status is logged and announced iff the status or a tracked field differs from the last healthy check |

## Left out

- Provider check functions, credential validation and provider inventory: arbitrary answers and an opaque step that may rewrite assets and tasks or fail.
- Email bodies, subjects and duration texts: rendering only; durations are integers here.
- The legacy branch of `send_status_change_emails` without an event id, and legacy outbox rows without one: they have no outbox guarantee.
- `redact_error_message` patterns: the wording of an error is a parameter of the protocol.
- Broker publishing after a commit and the choice between queued and inline sending: send tasks may run at any time, any number of times.
- Deletion of a cloud's or asset's monitoring data: it resets generations, so the protocol assumes it does not happen to a key in use.
- The concrete field table: a parameter; the round-trip results ask that no tracked path is a prefix of another. Tables whose paths collide make the source raise, which is not modelled.
- Metadata that is not a JSON object: healthy checks return objects; the source raises on null and searches strings for the root key.
- Floating-point numbers and integers beyond the exact range of floats: numbers are integers with their decimal text. `True` and `1` inside a list are told apart, which Python's equality does not do.
- Lists of lists: Python orders them; here a list leaf of two or more lists cannot be read.
- Non-ASCII letters, digits and blanks: the string operations are ASCII.
- The text of dicts and lists: a parameter; only the theorem that needs it fixes the text of the empty dict.
- Rows with equal timestamps: the database may return them in any order; here the newest is the one created last, and the outbox is read in creation order.
- The in-place cursors of the metadata filter: the walk through the nested dicts is a recursion on values, so aliasing between the payload and the filtered copy is not captured.
- The hash in the delivery key: the key is its text, that is, the hash is taken to be collision-free.
- Operator changes of a cloud's status between synchronizations, and asset saves that create tasks in between: `Schedules.SyncsKeepStoreOk` speaks of synchronizations only, with imports that spare the cloud's own task.
- Comparison.ReorderedListIsNoChange: asks for distinct sort keys, because equal keys of different elements keep Python's input order.
- Reordering.ReorderedStoredListIsNoChange: asks, like Comparison.ReorderedListIsNoChange, for distinct sort keys, and that the path follows environment maps only into their variables.
- NonInterference.SecretsKeptIffSafe: asks that no tracked path begins with an array, which no table of the source does.
- Timeline.TimelineMeaning: asks for strictly decreasing timestamps, because the rows at one instant have no defined order.
- Dashboards, views, forms, login, plans, migrations and settings.
