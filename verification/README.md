# Verified models of Mastarr

Mastarr manages media services and the files behind them. This project models
the parts of it that must stay correct under interleaving, crashes and lost
responses, and proves what they are for. Each module names the source files it
models; `dafny verify dfyconfig.toml` checks everything.

| area | modules |
|---|---|
| durable idempotency log | `IdempotencyLog` (rows, operations, abstract machine, refinement), `IdempotencyRuns` (whole runs), `IdempotencyMeaning` (what each answer means in row and request fields), `IdempotencyStore` (the transactions as methods) |
| configuration manager | `Configuration` (locked regions), `ConfigurationRuns` (interleavings), `ConfigurationManager` (the object), `SnapshotValidation`, `Namespace` |
| managed credentials | `Credentials` (writer, resolvers, restart), `CredentialWriter` |
| qBittorrent login | `LoginFlight` (protocol), `LoginClient` (the object) |
| backup | `BackupTree`, `BackupCopy`, `BackupRestore` (exact copies), `Publication` (publish and rollback against an adversary) |
| filesystem actions | `FilesystemReconcile`, `DirectoryExpansion`, `AffectedMapping` |
| directory cursors | `CursorStore` (threads and locks), `CursorObserver` (the object) |
| Seerr catalog | `SeerrPaging`, `JsonScan` |
| smaller cores | `PercentDecode`, `DependencyCycle` |
| shared | `Common`, `PathText` |

How the models are built:

- A region under a lock and an SQL transaction are one atomic step. Whatever
  happens between two steps is arbitrary: other threads, failures, a store that
  loses or replaces what it was given, an adversary in a directory. Run theorems
  quantify over all event sequences.
- A class method is the code between two lock operations; its contract equates
  the new state with the region function that the run theorems interleave.
- SHA-256 and envelope digests are injective; a cursor with a valid signature is
  one this client issued; clocks, the network and system calls are arbitrary.
- Three rules bind the callers of the idempotency log: base scopes hold no NUL,
  every reservation uses a new attempt id, and only the current holder records an
  effect. For each rule a lemma shows what goes wrong without it, and
  `FamiliesMeetIff`, `ReleaseFreesIff` and `StrayEffectReopensIff` give the exact
  conditions under which families stay apart, a release frees a key and an effect
  damages a finished entry.
- Reconciliation after a crash does not keep its promise on every accepted batch:
  the source digest is compared trimmed (internal/actions/filesystem.go:464) and
  the copy's untrimmed (line 441), and the observed type of a file follows from
  its name. `PaddedDigestErrs` and `SubtitleRenameErrs` give inputs,
  `ReconcileAfterCrash` the exact condition.
- The adversary of a publication, the system calls that work and what an archive
  holds are fixed but arbitrary functions of the history, so no step of the code
  can be passed off as theirs.
- The promise of the endpoint path check is false for some malformed segments:
  the fixed-point exit at clients/nzbget/client.go:867-872 can be taken in the
  first round, before any check. `MalformedSlips` gives the input and
  `AcceptedIsHarmlessIff` the exact condition. A parsed URL is well-escaped, so
  the path theorem assumes that.

## Model

| member | source | states |
|---|---|---|
| `IdempotencyRuns.LogRefinesMachine` | cmd/mastarr/persistence.go:559-861 | Every run that obeys the three caller rules answers each operation as the abstract Absent/Reserved/Released/Completed machine does, and the newest-row read of every family then shows exactly what that machine holds |
| `IdempotencyLog.StepRefines` | cmd/mastarr/persistence.go:710-850 | One transaction of any kind takes the rows of an abstract state to the rows of its successor, with the same outcome |
| `IdempotencyLog.ReserveRefines` | cmd/mastarr/persistence.go:710-761 | A reservation wins exactly when the entry is absent or released with the same digest; a different digest is a conflict |
| `IdempotencyLog.EffectRefines` | cmd/mastarr/persistence.go:497-548 | An effect recorded by the current holder becomes part of its pending entry; recording the same one again changes nothing |
| `IdempotencyLog.ReleaseRefines` | cmd/mastarr/persistence.go:808-850 | Only the holder releases; a repeated release is accepted and changes nothing |
| `IdempotencyLog.CompleteRefines` | cmd/mastarr/persistence.go:763-806 | Only the holder completes, and the stored response keeps the effect of its reservation |
| `IdempotencyLog.LatestShowsEntry` | cmd/mastarr/persistence.go:596-697 | The newest-row query over base, completion and event scopes reads the abstract entry |
| `IdempotencyLog.FamiliesNeverMix` | cmd/mastarr/persistence.go:862-874 | No stored scope belongs to the families of two different NUL-free base scopes |
| `IdempotencyLog.TagInjective` | cmd/mastarr/persistence.go:862-874 | Scope encoding is injective in the event kind and the attempt within one family |
| `IdempotencyLog.EventScopeInjective` | cmd/mastarr/persistence.go:868-874 | Two event scopes of NUL-free parts are equal only if scope, attempt and state are |
| `IdempotencyRuns.FamilyHasOneDigest` | cmd/mastarr/persistence.go:710-806 | All rows of one key in one family carry one request digest |
| `IdempotencyRuns.LogIsMutuallyExclusive` | cmd/mastarr/persistence.go:710-850 | Between two winning reservations of one key lies a successful release by the first winner |
| `IdempotencyRuns.CompletedIsForever` | cmd/mastarr/persistence.go:559-586 | Once a load returns a finished response, every later load returns the same status and body and no later reservation of that key wins |
| `IdempotencyRuns.ReleaseFreesIff` | cmd/mastarr/persistence.go:808-850 | For arbitrary rows: a release that reports success frees the key if and only if the key was free already or no release row of this attempt was stored before |
| `IdempotencyRuns.ReusedAttemptNeverFrees` | cmd/mastarr/persistence.go:836-848 | With a reused attempt id the ignored insert reports success and the key stays reserved (the input behind the fresh-attempt rule) |
| `IdempotencyRuns.StrayEffectReopens` | cmd/mastarr/persistence.go:497-548 | An effect recorded without holding the reservation turns a finished key back into a pending one (the input behind the holder rule) |
| `IdempotencyRuns.StrayEffectReopensIff` | cmd/mastarr/persistence.go:497-548 | For any represented rows and finished entry, recording an effect changes the stored answer if and only if the effect is valid and was not stored before |
| `IdempotencyRuns.NulScopeJoinsFamily` | cmd/mastarr/persistence.go:862-874 | A reservation under a base scope with a NUL shows up as a reservation of another base scope that nobody used (the input behind the NUL-free rule) |
| `IdempotencyRuns.FamiliesMeetIff` | cmd/mastarr/persistence.go:862-874 | For any two different base scopes, some scope lies in both families if and only if one is the completion scope of the other or, followed by a NUL, starts with an event prefix of the other |
| `IdempotencyMeaning.RecordedEffectsAreRead` | cmd/mastarr/persistence.go:497-548 | In every obeying run, an effect that reports success makes the next load pending under its attempt with scope, key, digest, attempt, operation, resource kind, resource id and revision as the caller gave them |
| `IdempotencyMeaning.EffectIsRead` | cmd/mastarr/persistence.go:497-548 | The holder's first effect succeeds and is read back field by field; with one recorded a load stays as it was, and a refusal changes nothing |
| `IdempotencyMeaning.CompletionsAreRead` | cmd/mastarr/persistence.go:763-806 | In every obeying run, a completion that reports success finds its own reservation pending and makes the next load return its status, body and replayability with the effect recorded before |
| `IdempotencyMeaning.CompletionIsRead` | cmd/mastarr/persistence.go:763-806 | A well-formed completion succeeds exactly for the attempt that is pending, with the digest of its family, and changes nothing otherwise |
| `IdempotencyMeaning.ReserveAnswers` | cmd/mastarr/persistence.go:710-761 | A well-formed reservation conflicts exactly if a row of its family has another digest, and otherwise wins exactly if a load finds nothing; then its own attempt is pending |
| `IdempotencyMeaning.ReleaseAnswers` | cmd/mastarr/persistence.go:808-850 | A release that reports success leaves nothing to be found; a pending key is released exactly for its own attempt and digest, a finished one never |
| `IdempotencyMeaning.OthersStay` | cmd/mastarr/persistence.go:497-850 | No operation changes what a load of another scope or key returns |
| `IdempotencyMeaning.LoadReadsTheNewestRow` | cmd/mastarr/persistence.go:649-697 | In any table a load reads the newest row of its key and family: an error exactly for a row that breaks the stated conditions, else released as absent, reserved as pending, completed as finished, and a row without a state as finished and replayable |
| `IdempotencyMeaning.MalformedIsRefused` | cmd/mastarr/persistence.go:497-850 | Each malformed request (blank or overlong attempt id, blank field, digest that is no hex, status or body out of bounds) is refused and changes no row |
| `IdempotencyMeaning.SuccessIsStored` | cmd/mastarr/persistence.go:763-850 | In any table, a release or completion that reports success leaves a row of its own family with its attempt and digest, a completion also with its status and body; a failed one changes nothing |
| `IdempotencyMeaning.StorableMeans` | migrations/000001_initial.up.sql:385 | The key column takes exactly the keys whose text up to the first NUL has at most 200 characters and one that is no space |
| `IdempotencyStore.Store.LoadRecord` | cmd/mastarr/persistence.go:559-586 | The load transaction: table untouched, answer equal to the modelled read |
| `IdempotencyStore.Store.ReserveKey` | cmd/mastarr/persistence.go:710-761 | The reserve transaction as written takes the table and outcome of the modelled step |
| `IdempotencyStore.Store.PersistEffect` | cmd/mastarr/persistence.go:497-548 | The effect transaction takes the table and outcome of the modelled step, and an effect row it stores is what a load then reads: pending under the given attempt, with all eight effect fields as given |
| `IdempotencyStore.Store.ReleaseKey` | cmd/mastarr/persistence.go:808-850 | The release transaction as written takes the table and outcome of the modelled step |
| `IdempotencyStore.Store.CompleteKey` | cmd/mastarr/persistence.go:763-806 | The complete transaction, with its insert, read-back and roll-back, takes the table and outcome of the modelled step |
| `ConfigurationRuns.SnapshotIsAlwaysTheValidMerge` | internal/configuration/configuration.go:962-993 | After any interleaving of create, update, retire and YAML activation the cached snapshot is the validated merge of the current API and YAML tables, tables and tombstones are disjoint, every record is well-formed and every active mapping resolves |
| `ConfigurationRuns.SameBaseCommitsOnce` | internal/configuration/configuration.go:1657-1674 | Of two transactions based on one generation at most one commits, even if contents and revisions return to old values |
| `ConfigurationRuns.CommitSeesItsBase` | internal/configuration/configuration.go:1814-1842 | A committing transaction finds exactly the tables of the generation it was prepared on |
| `ConfigurationRuns.OwnershipIsForever` | internal/configuration/configuration.go:2451-2462 | An id owned by one source, also as a tombstone, never becomes owned by the other |
| `ConfigurationRuns.ConnectionsAreExclusive` | internal/configuration/configuration.go:1571-1595 | Two running connection transactions never hold one connection id |
| `ConfigurationRuns.GenerationsGrow` | internal/configuration/configuration.go:798-837 | Generations never decrease, and an unchanged generation means unchanged tables and snapshot |
| `ConfigurationRuns.UpdateInstallsItsRecord` | internal/configuration/configuration.go:1954-2059 | A root or mapping update that commits finds the caller's revision stored, and leaves the API table with exactly the caller's record replaced and every other table as it was |
| `ConfigurationRuns.ConnectionInstallsItsRecord` | internal/configuration/configuration.go:1571-1842 | A connection creation finds its id unowned, an update finds the caller's revision; either installs exactly the prepared record under the opened id |
| `ConfigurationRuns.RetireRemovesItsRecord` | internal/configuration/configuration.go:1851-1915 | A retirement that commits removes exactly the record at the caller's revision and keeps it as a tombstone |
| `ConfigurationRuns.CreateInstallsItsRecord` | internal/configuration/configuration.go:1923-1951 | A direct creation finds its id unowned in every table and adds exactly its record |
| `ConfigurationRuns.ActivationInstallsItsDocument` | internal/configuration/configuration.go:904-960 | An activation that commits makes the document the YAML table; the tombstones are those of records it drops and the old ones it does not bring back |
| `ConfigurationRuns.CommitsIffUntouched` | internal/configuration/configuration.go:2048-2057 | An update, retirement or activation commits exactly if nothing was committed since it was opened |
| `ConfigurationRuns.ConnectionsOpenIff` | internal/configuration/configuration.go:1571-1715 | A creation opens exactly for an id that is unowned, not quarantined and not pending, an update exactly for the stored revision of an id that is not pending |
| `ConfigurationRuns.PreparesIff` | internal/configuration/configuration.go:1619-1643 | A drafted change is prepared exactly while its base is current, for an API record of its key that merges validly |
| `ConfigurationRuns.ResourcesOpenIff` | internal/configuration/configuration.go:1851-2059 | Updates and retirements of records open exactly for the stored revision and a valid merge, a retirement also only if no mapping of the snapshot refers to the record |
| `ConfigurationRuns.DocumentsOpenIff` | internal/configuration/configuration.go:855-951 | Direct creations and activations go through exactly for unowned ids, or a document that shares no id with API records and API tombstones, and a valid merge |
| `ConfigurationRuns.TransactionsEndIff` | internal/configuration/configuration.go:1571-1842 | Every prepared transaction can come to its commit, every running one can be aborted, every ended one closes |
| `ConfigurationRuns.TransactionsLeave` | internal/configuration/configuration.go:1571-1842 | A connection transaction that ends gives its id back when it closes; an abort changes no table; a doubtful credential write quarantines its id and nothing else |
| `ConfigurationRuns.RefusedCommitChangesNothing` | internal/configuration/configuration.go:1657-1664 | A step that leaves the generation leaves tables, tombstones and snapshot |
| `ConfigurationRuns.MappingsAreUnambiguous` | internal/configuration/configuration.go:2922-2939 | In every reachable state each connection and remote path has at most one best mapping |
| `ConfigurationRuns.StepInv` | internal/configuration/configuration.go:855-960 | Every locked region keeps the table, transaction and pending-mark invariants |
| `Configuration.CommitChangeOk` | internal/configuration/configuration.go:1902-1915 | A commit whose base is current leaves disjoint tables and the validated merge as snapshot |
| `Configuration.CommitActivationOk` | internal/configuration/configuration.go:904-960 | A YAML activation commit leaves disjoint tables, tombstones for removed records and the validated merge as snapshot |
| `Configuration.ValidConfigMeans` | internal/configuration/configuration.go:2882-2939 | A table validates exactly when its records are well-formed, its mappings refer to records in it through canonical prefixes, and no connection and remote path has two best mappings |
| `ConfigurationManager.Manager.BeginCreateConnection` | internal/configuration/configuration.go:1571-1595 | First region of connection creation: refused exactly for an owned, quarantined or pending id |
| `ConfigurationManager.Manager.BeginPatchConnection` | internal/configuration/configuration.go:1688-1715 | First region of a connection update: refused exactly for a stale revision, an inactive or a pending id |
| `ConfigurationManager.Manager.PrepareChange` | internal/configuration/configuration.go:1619-1643 | Candidate region: yields the validated merge that the commit would leave, or nothing |
| `ConfigurationManager.Manager.BeginUpdateResource` | internal/configuration/configuration.go:1954-2000 | First region of root and mapping updates: refused exactly for an inactive id, a stale revision or an invalid merge; the transaction carries the caller's key, revision and record |
| `ConfigurationManager.Manager.HasMappings` | internal/configuration/configuration.go:2781-2807 | Finds exactly whether some mapping refers to the connection or root |
| `ConfigurationManager.Manager.BeginRetireResource` | internal/configuration/configuration.go:1851-1901 | First region of retirement: refused exactly when stale, referenced or pending |
| `ConfigurationManager.Manager.CreateResource` | internal/configuration/configuration.go:1923-1951 | Insert, rebuild and, on a validation failure, undo: either the whole new state or the old one |
| `ConfigurationManager.Manager.CommitTransaction` | internal/configuration/configuration.go:1657-1674 | Commits exactly when generation and revision still match and then stores the transaction's record under its key, or turns it into a tombstone; else changes nothing |
| `ConfigurationManager.Manager.PrepareActivation` | internal/configuration/configuration.go:855-902 | Activation is prepared exactly for a document that shares no id with API records or API tombstones and merges validly |
| `ConfigurationManager.Manager.CommitYaml` | internal/configuration/configuration.go:904-960 | The record-by-record activation leaves exactly the modelled tables, tombstones and snapshot, or changes nothing |
| `ConfigurationManager.Manager.RetireRemoved` | internal/configuration/configuration.go:904-960 | The tombstone loop adds exactly the records missing from the new document |
| `ConfigurationManager.Manager.ForgetReturning` | internal/configuration/configuration.go:904-960 | The clean-up loop drops exactly the YAML tombstones of returning records |
| `SnapshotValidation.SnapshotFor` | internal/configuration/configuration.go:975-993 | Listing, concatenating and validating the two tables decides the table-level merge exactly |
| `SnapshotValidation.ListsDecideConfig` | internal/domain/configuration.go:171-213 | Distinct ids, resolving references and unambiguous prefixes over the lists hold exactly when they hold over the tables |
| `SnapshotValidation.Validate` | internal/domain/configuration.go:171-213 | The seen-id loops accept exactly the valid lists |
| `SnapshotValidation.ScanIds` | internal/domain/configuration.go:175-193 | One pass accepts exactly distinct, well-formed records and returns the set of their ids |
| `SnapshotValidation.ScanMappings` | internal/domain/configuration.go:194-213 | One pass accepts exactly distinct mappings whose references are in the two id sets |
| `Namespace.ValidateMappingAmbiguity` | internal/configuration/configuration.go:2922-2939 | The double loop accepts exactly the lists without an ambiguous pair |
| `Namespace.AcceptedMeansUniqueMostSpecific` | internal/configuration/configuration.go:2922-3030 | In an accepted list every connection and every remote path has at most one most specific containing mapping |
| `Namespace.RejectedMeansTwoMostSpecific` | internal/configuration/configuration.go:2922-3030 | A rejected list really has a path with two most specific mappings |
| `Namespace.EqualCountContainersAgree` | internal/configuration/configuration.go:3017-3030 | Two valid prefixes with equally many components that contain one path are the same prefix |
| `Namespace.ValidPrefixMeans` | internal/configuration/configuration.go:2941-3008 | The valid prefixes are a slash and plain components joined by slashes, without NUL and backslash |
| `Namespace.ContainsMeans` | internal/configuration/configuration.go:3017-3023 | A prefix contains what starts with its components, and its specificity is their number |
| `Credentials.ResolvedValueIsCommitted` | internal/configuration/configuration.go:1440-1502 | A resolved managed value comes from a complete envelope set whose digest is the committed one at the final check, read back whole before its commit or persisted at first start, with no transaction or quarantine on the connection |
| `Credentials.ResolverReadTheStore` | internal/configuration/configuration.go:1440-1502 | The set behind an answer was the whole stored set at one earlier moment of that resolution |
| `Credentials.CommittedFieldsResolve` | internal/configuration/configuration.go:1440-1502 | A resolution succeeds with the plaintext of its field if the connection stays active, idle and unquarantined, its load works, the store then holds the committed set and the envelope is authentic |
| `Credentials.CommitsMaterialise` | internal/configuration/configuration.go:1825-1842 | A commit without credentials keeps the managed fields and digest, one with a sealed set makes them that set's fields and digest, and one that came too late changes neither and quarantines what it wrote |
| `Credentials.UndisturbedWriteCommits` | internal/configuration/configuration.go:1590-1842 | A write that nothing disturbs ends with the sealed set in the store and its fields and digest committed under the next generation |
| `Credentials.WriterSteps` | internal/configuration/configuration.go:1590-1842 | A change begins on the current generation and revision, and goes on only past a readable previous set (none for a creation) and a re-check of both after the callback |
| `Credentials.OutsideSteps` | internal/configuration/configuration.go:764-796 | A restart begins from the durable record with nothing pending, quarantined or resolving; other commits count one generation each |
| `Credentials.NoOperationIsStuck` | internal/configuration/configuration.go:1590-1842 | Whatever the store answers, every operation under way has its next step, and an idle active connection may begin a change or a retirement |
| `Credentials.NoResolutionIsStuck` | internal/configuration/configuration.go:1440-1502 | Every resolution and the start-up comparison have their next step |
| `Credentials.RetirementKeepsTheRest` | internal/configuration/configuration.go:1902-1915 | A retirement that commits ends the activity and keeps revision, managed fields and digest |
| `Credentials.ReadBackDecides` | internal/configuration/configuration.go:2403-2419 | The read-back is verified exactly for the wanted set, without effect for the previous one and uncertain for anything else |
| `Credentials.UncertainWriteIsNeverExposed` | internal/configuration/configuration.go:1646-1674 | After a write whose read-back proved neither the new nor the old set, nothing resolves until restart |
| `Credentials.BlockedUntilRestart` | internal/configuration/configuration.go:1646-1674 | Quarantine, and an uncertain write on its way to it, last until the process restarts |
| `Credentials.ReconcileExposesOnlyMatches` | internal/configuration/configuration.go:764-796 | A managed connection leaves start-up unquarantined only if the readable stored set had the committed digest |
| `Credentials.ReconcileQuarantinesOnlyMismatches` | internal/configuration/configuration.go:764-796 | Start-up quarantines a connection only if its stored set was unreadable or had another digest than the committed one |
| `CredentialWriter.WriteCredentialSet` | internal/configuration/configuration.go:2403-2419 | Asks the store for exactly one replacement; success, unchanged and unknown are then decided by the complete read-back alone, whatever the replacement did |
| `LoginFlight.SingleFlight` | clients/qbittorrent/client.go:696-767 | At most one login is in flight, and none while a session is installed |
| `LoginFlight.NilResultIffInstalled` | clients/qbittorrent/client.go:720-767 | A finished flight has a nil result exactly when it installed a session |
| `LoginFlight.HistoryIsFinal` | clients/qbittorrent/client.go:720-767 | Finished flights and installed (SID, generation) pairs never change afterwards |
| `LoginFlight.CallersHoldInstalledPairs` | clients/qbittorrent/client.go:800-821 | Every credential a caller ever holds is the pair one login installed, with a nonempty SID of characters a cookie value may hold |
| `LoginFlight.OnlyItsOwnHoldersEndASession` | clients/qbittorrent/client.go:789-798 | A session ends only through a request rejected while carrying that very generation |
| `LoginFlight.WaitersFollowTheirFlight` | clients/qbittorrent/client.go:696-720 | A waiter keeps waiting until it leaves, with its own cancellation or once the flight is finished: after a cancelled leader it enters anew, after a failure it returns that very error, after a success it returns nil or goes on to the session |
| `LoginFlight.UncancelledFlightAnswersItsWaiters` | clients/qbittorrent/client.go:696-720 | A flight its leader did not cancel answers each waiter, unless that is cancelled itself: with the flight's error if there is one, else with nil for a direct login and the session for any other call |
| `LoginFlight.RequestsAreBounded` | clients/qbittorrent/client.go:833-861 | A read sends at most two requests, a control action at most one, a direct login none beside the login |
| `LoginFlight.NilMeansSuccess` | clients/qbittorrent/client.go:619-861 | A read or control action returns nil only for a readable 200 response of its own, a direct login only after some login installed a session |
| `LoginFlight.NoCallerIsStuck` | clients/qbittorrent/client.go:696-861 | Until it returns every caller has a step of its own, unless it waits for a flight in progress, whose leader has one |
| `LoginFlight.CancellationsStay` | clients/qbittorrent/client.go:1147-1159 | A caller counts as cancelled exactly from its cancellation on |
| `LoginFlight.LoginInstallsItsReply` | clients/qbittorrent/client.go:720-757 | A login without an error installs its SID under the next generation, even for a cancelled leader; any other changes no session. The flight keeps the reply, or the cancellation if that cut it short |
| `LoginFlight.EnteringJoinsOrLeads` | clients/qbittorrent/client.go:696-720 | Entering uses a session at hand, joins a flight under way and otherwise leads a new one |
| `LoginFlight.ReadingTakesThePair` | clients/qbittorrent/client.go:800-821 | An installed pair is carried into the request; without one the call logs in |
| `LoginFlight.ResponsesAreReported` | clients/qbittorrent/client.go:619-861 | Every response but a readable 200 is reported with its status; a rejected read logs in once more, and a rejection clears exactly the session it was made with |
| `LoginFlight.ChecksStopCancelledCallers` | clients/qbittorrent/client.go:696-767 | A cancelled caller stops at its next check, any other goes on to the next region |
| `LoginFlight.CallsStart` | clients/qbittorrent/client.go:358-360 | A read starts with one retry, a control action without, a direct login at the session |
| `LoginFlight.InvStep` | clients/qbittorrent/client.go:696-913 | Every lock region, login outcome, cancellation and response keeps the protocol invariant |
| `LoginClient.Client.EnterSession` | clients/qbittorrent/client.go:696-719 | The head of the loop returns for an installed session, joins the flight under way or leads a fresh one, and leaves session and generation |
| `LoginClient.Client.FinishLogin` | clients/qbittorrent/client.go:720-767 | The leader's second region installs the SID under the next generation exactly for a reply without an error that was not cut short, and finishes the flight with the reply or the cancellation |
| `LoginClient.Client.InvalidateSession` | clients/qbittorrent/client.go:789-798 | Clears SID and session exactly when the generation is the installed one |
| `LoginClient.Client.SessionCredential` | clients/qbittorrent/client.go:800-807 | Returns the installed pair exactly while authenticated with a value that the Cookie header carries verbatim |
| `Publication.Disk.Publish` | internal/backup/backup.go:1428-1483 | Beside any adversary: the history is one unbroken chain in which every step that is not the adversary's keeps all objects and contents; each result fixes the checks and renames made; success implies the final content check, the identity check, the rename, the identity check and the content check after it. Calm, with working system calls: refused exactly without an accepted staged object, an existing destination exactly when there is one, published exactly if the content passes the later check, and rolled back otherwise; the names change by that one relocation or not at all |
| `Publication.PublishedMeaning` | internal/backup/backup.go:1428-1483 | In the chain of worlds a nil error means: stage content accepted by the final check, stage seen as the object, relocation, destination seen as the object, content accepted there by the later check, and nothing but adversary moves between the last four |
| `Publication.NoOwnStepDestroys` | internal/backup/backup.go:1428-1483 | Every link of the chain from the first to the current world is an adversary's move or keeps all objects, names by number, contents and kinds, and renames only onto an absent name |
| `Publication.RelocationKeepsObjects` | internal/backup/publish_linux.go:15-54 | A no-replace rename keeps all objects and contents and is undone by its opposite |
| `Publication.Disk.AtomicPublish` | internal/backup/publish_linux.go:15-54 | Adds to the chain only the stage identity check and one rename; calm, it relocates the stage exactly when the destination is absent |
| `Publication.Disk.Rollback` | internal/backup/publish_linux.go:56-106 | Adds to the chain a prefix of identity check, absence check, rename back, identity check, absence check, and reports success only for the whole of it |
| `Publication.Disk.CheckPublished` | internal/backup/backup.go:1450-1483 | Rejected content is rolled back or reported as uncertain, never as published; calm, the world is as published or moved back |
| `Publication.Disk.SameObject` | internal/backup/backup.go:299-323 | The identity check answers for the name it was asked about, at the moment it looked |
| `Publication.ChainJoins` | internal/backup/backup.go:1428-1483 | Each entry of a chain is truthful and starts in the world where the one before it ended |
| `BackupCopy.VerifyTreeContents` | internal/backup/backup.go:1822-1934 | Verification accepts exactly the archives that hold every listed entry with its kind, mode, size and digest and nothing else |
| `BackupCopy.SortOrders` | internal/backup/backup.go:2024-2094 | Sorting by depth keeps the directories and orders them shallowest first |
| `BackupTree.MatchingTreesAreEqual` | internal/backup/backup.go:1720-1816 | Two archives that match one manifest and carry the same manifest file are the same tree |
| `BackupTree.ItemIsExpected` | internal/backup/backup.go:1720-1816 | Every listed entry is what the path-indexed view expects at its path |
| `BackupTree.ExpectedIsItem` | internal/backup/backup.go:1720-1816 | Every expected path is listed |
| `BackupRestore.Restore` | internal/backup/backup.go:1970-2018 | A copy succeeds only from a verified archive and then staging equals it exactly, with a private manifest file; when the calls made work and the archive stays as it is, it succeeds |
| `BackupRestore.Staging.MakeDirectories` | internal/backup/backup.go:2024-2094 | All listed directories are made, each after its parent, with their modes |
| `BackupRestore.PlanParentsFirst` | internal/backup/backup.go:2024-2094 | The directory plan lists every parent before its children |
| `BackupRestore.PlanDistinct` | internal/backup/backup.go:2024-2094 | The directory plan never repeats a path |
| `BackupRestore.Staging.CopyArtifact` | internal/backup/backup.go:2103-2127 | Copying one artifact creates it as listed and leaves every other entry alone |
| `BackupRestore.Staging.CopyManifestTree` | internal/backup/backup.go:1970-2018 | A successful manifest copy leaves exactly what the manifest describes, whatever the archive holds meanwhile |
| `BackupRestore.CaptureTree` | internal/backup/backup.go:1192-1271 | Capture yields an equal tree and a manifest that describes it, which validation accepts if the names are plain; when the calls made work it succeeds exactly for a source without special entries |
| `BackupRestore.RestoredDescriptorsAreTheSource` | internal/backup/backup.go:1192-1271 | The descriptor tree of a matching restore equals the captured source |
| `BackupRestore.RestoredTrashIsTheSource` | internal/backup/backup.go:1192-1271 | Each trash tree of a matching restore equals its captured source |
| `BackupRestore.CapturedArchiveMatches` | internal/backup/backup.go:1822-1934 | An archive assembled from captured trees passes verification |
| `FilesystemReconcile.ReconcileAfterCrash` | internal/actions/filesystem.go:270-283 | For any fresh batch: retry exactly when nothing was applied, applied exactly when everything was, unresolved for every strict part, after every part in any order, if and only if in every mapping both names have the same type and a copy's digest reads the same untrimmed |
| `FilesystemReconcile.VerdictAfterCrash` | internal/actions/filesystem.go:270-283 | The exact verdict after any part of any fresh batch: the wanted one, or an error once a mapping that cannot be recognised has taken effect |
| `FilesystemReconcile.PaddedDigestErrs` | internal/actions/filesystem.go:441-466 | A copy approved with white space before its digest is dispatched, and once done is reported as an error |
| `FilesystemReconcile.SubtitleRenameErrs` | internal/filesystem/observe/observe.go:629-648 | A move that turns a text file into a subtitle name is dispatched, and once done is reported as an error |
| `FilesystemReconcile.CopyDigest` | internal/actions/filesystem.go:452-468 | An intact source has the digest its copy is compared with exactly when trimming the approved digest makes no difference |
| `FilesystemReconcile.Reconcile` | internal/actions/filesystem.go:270-283 | On every disk: retry exactly when every mapping is pending, applied exactly when every mapping is satisfied, error exactly when some mapping is neither; retry implies untouched sources and absent destinations, applied implies the approved identity or size at each destination |
| `FilesystemReconcile.VerdictMeans` | internal/actions/filesystem.go:270-283 | What each verdict says of the disk in entries, sizes and identities; an unreadable name is an error |
| `FilesystemReconcile.DigestsCompare` | internal/actions/filesystem.go:422-468 | Digests are compared without one sha256: prefix and letter by letter without case |
| `FilesystemReconcile.PartialStates` | internal/actions/filesystem.go:356-420 | After part of a batch each other mapping is pending, and each applied one is satisfied exactly if it is recoverable and never pending |
| `FilesystemReconcile.ObserveMappings` | internal/actions/filesystem.go:356-420 | The observe loop fails, is satisfied or needs action exactly by the meaning of its mappings |
| `FilesystemReconcile.ObserveMapping` | internal/actions/filesystem.go:356-420 | One mapping is pending exactly with an intact source (digests trimmed) and no destination, satisfied exactly with the produced destination |
| `FilesystemReconcile.DestinationMatches` | internal/actions/filesystem.go:422-450 | A destination matches exactly when it has the approved type under its own name and is what copy (digest untrimmed), hardlink or move would have produced |
| `FilesystemReconcile.EffectsAreSafeToRetry` | internal/actions/actions.go:589-599 | Safe exactly for a nonempty list of pending effects |
| `FilesystemReconcile.ReconcileObservation` | internal/actions/actions.go:601-613 | Maps an observation to error, applied, retry or unresolved |
| `FilesystemReconcile.ObserveDelete` | internal/actions/filesystem.go:470-496 | Deletion is satisfied exactly when all are gone, fails exactly on a changed or unreadable entry |
| `FilesystemReconcile.ObserveTrash` | internal/actions/filesystem.go:498-521 | Trashing is never inferred from a missing source |
| `FilesystemReconcile.ReconcileDeleteAfterCrash` | internal/actions/filesystem.go:470-496 | After a crash in a deletion: an error exactly when some approved directory lost children, else retry exactly when nothing went and applied exactly when everything went |
| `DirectoryExpansion.ExpansionTelescopes` | internal/actions/filesystem.go:937-956 | With canonical paths expansion succeeds exactly when every child lies below its directory, and then lists each leaf once, in order, at the top destination plus the leaf's relative path |
| `DirectoryExpansion.DistinctLeavesDistinctDestinations` | internal/actions/filesystem.go:937-956 | Leaves with distinct paths get distinct destinations |
| `DirectoryExpansion.AppendExpandedMappings` | internal/actions/filesystem.go:937-956 | The recursive appending loop adds exactly the expansion, and fails exactly when it fails |
| `DirectoryExpansion.ExpandedMappings` | internal/actions/filesystem.go:924-935 | Succeeds exactly when every mapping expands and something concrete remains |
| `DirectoryExpansion.ChildMapBelow` | internal/actions/actions.go:615-635 | A child is mapped exactly when it lies below its directory, to the destination plus its relative path |
| `DirectoryExpansion.ChildSuffix` | internal/actions/actions.go:615-635 | The child suffix is canonical and joining it is plain concatenation |
| `DirectoryExpansion.LeavesMeans` | internal/actions/filesystem.go:937-956 | The leaves of an entry are itself, or for a directory those of its children |
| `DirectoryExpansion.TargetsAreValid` | internal/actions/filesystem.go:937-956 | Whatever the manifest says, a directory expands only to valid targets under the root it was mapped to, and never to a directory |
| `DirectoryExpansion.ValidPathMeans` | internal/domain/observations.go:182-202 | The valid relative paths are nonempty lists of plain components joined by slashes, without NUL and backslash |
| `AffectedMapping.MapFilesystemAffected` | internal/actions/filesystem.go:653-726 | Accepts exactly when the effect count fits and the affected entries match distinct approved sources one to one; the result is the ordered sub-list of effects hit. Of each, a pending state becomes applied, already satisfied or unknown exactly by the reported outcome, any other is kept; a missing ordinal becomes the index, the evidence is extended and the time is the report's or now |
| `AffectedMapping.OnlyPendingChanges` | internal/actions/filesystem.go:703-714 | The same of every sub-list of marked effects: other states survive, and each field is given |
| `AffectedMapping.OneToOneMeans` | internal/actions/filesystem.go:671-692 | Matching one to one: every affected entry agrees with an approved source, with one alone, and no two with the same |
| `AffectedMapping.SourcesAgree` | internal/actions/filesystem.go:728-736 | Two entries agree in root, path, kind, size and a nonempty identity, and in their digests unless one has none |
| `AffectedMapping.FlatMeans` | internal/actions/filesystem.go:645-651 | The entries under an approved entry are itself and those under its children |
| `AffectedMapping.ChildrenHitTheirTop` | internal/actions/filesystem.go:645-651 | For trash and delete an effect is hit exactly when an affected entry matches something in its manifest tree |
| `AffectedMapping.ApprovedSources` | internal/actions/filesystem.go:623-643 | Lists the approved sources: for a manifest every entry at or below one of its entries with the index of that one, else the expanded mappings by their index; fails exactly when there are none |
| `AffectedMapping.AppendManifestSources` | internal/actions/filesystem.go:645-651 | Appends the entry and all its descendants under one effect index |
| `AffectedMapping.Find` | internal/actions/filesystem.go:671-686 | Finds the one source that agrees in root, path, kind, size and nonempty identity, or reports none or several |
| `SeerrPaging.ListAll` | clients/seerr/client.go:711-749 | Against any server: at most maxPages requests, contiguous and without gaps, distinct ids within maxRecords, failure only at the first limit check or at an unreadable response (no issued cursor is ever refused), and coverage complete exactly when the first response shows the whole catalog in one clean page, stated in the fields of that response, whose records are then all returned |
| `SeerrPaging.ListPage` | clients/seerr/client.go:557-621 | One page asks for the limit, offset and page its cursor holds, keeps exactly the new valid records, issues only cursors this client accepts at the same limit, is complete exactly for a first page that shows the whole catalog, unknown exactly with missing or incomplete page information, and partial otherwise; the condition for a next page is spelled out over request and response |
| `SeerrPaging.PreparePageState` | clients/seerr/client.go:848-880 | Adds a reason exactly when the page information is missing, incomplete or inconsistent with the traversal |
| `SeerrPaging.HasMore` | clients/seerr/client.go:882-905 | Continues exactly when nothing forbids it; a stop without a reason means the total and the last page were reached |
| `SeerrPaging.FinishPage` | clients/seerr/client.go:907-962 | A continuation is always partial; a cursor that does not fit never leaves a complete result |
| `SeerrPaging.KeepRecords` | clients/seerr/client.go:589-614 | Keeps first occurrences of valid records within the id window; no reason is left exactly when none was dropped or noted |
| `SeerrPaging.NothingDropped` | clients/seerr/client.go:589-614 | Nothing is dropped exactly when all records are valid, new, distinct and fit the window |
| `SeerrPaging.KeptMeans` | clients/seerr/client.go:589-614 | Each kept id is that of a valid record not seen before, at its first valid occurrence, in order |
| `SeerrPaging.KeptAll` | clients/seerr/client.go:589-614 | Every valid record with a new id is kept while the window has room |
| `SeerrPaging.ShowsAllMeans` | clients/seerr/client.go:907-962 | A response shows the whole catalog exactly if it is page one of at most one, its total is its record count, and all records are valid, without notes and distinct |
| `SeerrPaging.StartMeans` | clients/seerr/client.go:766-782 | A page starts exactly within the size limit and, from a cursor, for the same catalog and limit |
| `SeerrPaging.CursorsAreChecked` | clients/seerr/client.go:766-850 | Any authentic cursor, whoever issued it, is taken exactly within the bounds of this client, for the same catalog and limit |
| `SeerrPaging.PageInfoMeans` | clients/seerr/client.go:1436-1480 | Page information is accepted exactly within its bounds and without contradiction; a field left out counts as zero, and complete information states all four |
| `SeerrPaging.ReasonsAreKept` | clients/seerr/client.go:1861-1866 | A reason is kept once, in order, while there are fewer than 256 |
| `SeerrPaging.ContiguousMeans` | clients/seerr/client.go:711-749 | The requests of a traversal ask for one limit, start at zero and go on by the length of each response |
| `SeerrPaging.CompleteIff` | clients/seerr/client.go:947-962 | The conditions left after a clean first page are exactly those of a whole catalog |
| `SeerrPaging.Truncate` | clients/seerr/client.go:579-587 | Cuts a response to the limit and to the remaining records, with a reason exactly when something is cut |
| `SeerrPaging.DecodePageInfo` | clients/seerr/client.go:1436-1480 | Complete page information has a positive page within its pages and a total no smaller than the page |
| `JsonScan.ScanJSON` | clients/seerr/client.go:1726-1739 | Accepts exactly the token streams that are one value with distinct member names and bounded nesting, and nothing after it |
| `JsonScan.ScanExactly` | clients/seerr/client.go:1741-1794 | A scan leaves a rest exactly when the tokens are one such value followed by that rest |
| `JsonScan.Decoder.ScanValue` | clients/seerr/client.go:1741-1794 | The recursive loops over More and Token accept and consume exactly what the scan function says |
| `JsonScan.Complete` | clients/seerr/client.go:1741-1794 | On the tokens of any value the scan succeeds exactly for distinct names and bounded nesting, and leaves what follows untouched |
| `JsonScan.Sound` | clients/seerr/client.go:1741-1794 | Whatever an accepted scan read is such a value |
| `JsonScan.FlattenUnambiguous` | clients/seerr/client.go:1741-1794 | No token sequence starts with two different values |
| `JsonScan.ArraysAreScanned` | clients/seerr/client.go:1741-1745 | An empty array inside n others is accepted exactly for n up to 64 |
| `DependencyCycle.CycleErrors` | scripts/check_planning.py:33-48 | A cycle is reported if and only if the known tasks have a directed dependency cycle, and every reported task lies on one |
| `DependencyCycle.Search.Visit` | scripts/check_planning.py:35-45 | The recursive search terminates, keeps the call stack as its visiting set and reports only tasks on cycles |
| `DependencyCycle.TopologicalIsAcyclic` | scripts/check_planning.py:33-48 | A finishing order that lists dependencies first excludes every cycle |
| `DependencyCycle.LastDefinitionCounts` | scripts/check_planning.py:14-16 | A task id stands for the dependencies of its last definition, and nothing else is known |
| `CursorStore.DirectoriesAreBounded` | internal/filesystem/observe/cursor_store.go:84-119 | In every reachable state at most 256 cursors are stored, a directory is open exactly while its state is stored or owned by the call that opened it, and a running continuation works on a stored one |
| `CursorStore.QuiescentStore` | internal/filesystem/observe/cursor_store.go:121-156 | With no call under way exactly the stored directories are open and no stored cursor is invalidated |
| `CursorStore.NoDeadlock` | internal/filesystem/observe/cursor_store.go:57-156 | No set of threads waits only for one another |
| `CursorStore.UnblockedSteps` | internal/filesystem/observe/cursor_store.go:57-156 | A thread that waits for nobody has an enabled step |
| `CursorStore.StaleTokensAreHarmless` | internal/filesystem/observe/cursor_store.go:61-156 | Once a state is past generation g, a generation-g token changes no cursor, by lookup, continuation or cancellation, except for the expiry that every lookup performs |
| `CursorStore.TokensAreSingleUse` | internal/filesystem/observe/observe.go:455-460 | A token is consumed at most once |
| `CursorStore.LookupHandsOver` | internal/filesystem/observe/cursor_store.go:61-82 | A lookup hands the stored state over with its lock, or forgets and closes an expired one; the map lock is released either way |
| `CursorStore.TakingTheMap` | internal/filesystem/observe/cursor_store.go:57-156 | Under the map lock a stored cursor is waited for, a missing one ends the call, and a drop goes after the very state it is for |
| `CursorStore.StoringStores` | internal/filesystem/observe/cursor_store.go:84-119 | A new state is stored under its own id; with room nothing else changes, at 256 exactly one other cursor goes and its directory is closed |
| `CursorStore.CancellationWorks` | internal/filesystem/observe/cursor_store.go:138-156 | With the current generation the cursor goes, closed and marked; with any other nothing changes |
| `CursorStore.DroppingWorks` | internal/filesystem/observe/cursor_store.go:121-133 | A dropped cursor goes, closed and marked, and nothing else changes |
| `CursorStore.ContinuationsEnd` | internal/filesystem/observe/observe.go:290-311 | A continuation frees its lock and consumes its token or gives the state up only if its token was current |
| `CursorStore.InvStep` | internal/filesystem/observe/cursor_store.go:57-156 | Every lock step keeps the ownership, lock, openness and pending-drop invariants |
| `CursorObserver.Observer.Store` | internal/filesystem/observe/cursor_store.go:84-119 | Removes exactly the idle cursors and, when still full, one least recently used; closes what it removes and stores the new state |
| `CursorObserver.Observer.Sweep` | internal/filesystem/observe/cursor_store.go:91-98 | The sweep forgets exactly the cursors unused for longer than the window |
| `CursorObserver.Observer.Oldest` | internal/filesystem/observe/cursor_store.go:99-108 | Finds a stored cursor that no other precedes in last use |
| `CursorObserver.Observer.Lock` | internal/filesystem/observe/cursor_store.go:61-82 | Returns the stored state unless it is missing or expired; an expired one is deleted and closed |
| `CursorObserver.Observer.Drop` | internal/filesystem/observe/cursor_store.go:121-133 | Drops only the very state it was given |
| `CursorObserver.Observer.InvalidateCursor` | internal/filesystem/observe/cursor_store.go:138-156 | Invalidates exactly when the generation matches |
| `PercentDecode.AcceptedStaysHarmless` | clients/nzbget/client.go:861-885 | However often an accepted, well-escaped segment is decoded it is no dot segment and has no separator, and decoding ends in a text without valid escapes |
| `PercentDecode.AcceptedIsHarmlessIff` | clients/nzbget/client.go:861-885 | For accepted segments in general this holds if and only if the segment is well-escaped or holds no separator |
| `PercentDecode.MalformedSlips` | clients/nzbget/client.go:865-872 | A malformed segment with a backslash is accepted unchecked |
| `PercentDecode.AcceptedPathKeepsItsSegments` | clients/nzbget/client.go:832-859 | Decoding an accepted, well-escaped path as a whole any number of times decodes each segment on its own and never produces a dot segment or a new separator |
| `PercentDecode.UnsafeEndpointSegment` | clients/nzbget/client.go:861-885 | The loop returns the verdict of the first round that settles, is unsafe or is malformed |
| `PercentDecode.OneVerdict` | clients/nzbget/client.go:861-885 | No text has two verdicts |
| `PercentDecode.DecodeShortens` | clients/nzbget/client.go:861-885 | A round changes the text exactly when it holds a valid escape, and then shortens it by at least two bytes |
| `PercentDecode.DecodeUndoesEscaping` | clients/nzbget/client.go:861-885 | Escaping every byte and decoding once gives the text back |
| `PercentDecode.PlainTextStays` | clients/nzbget/client.go:861-885 | Text without a percent sign is its own decoding |
| `PercentDecode.PrintableMeans` | clients/nzbget/client.go:861-885 | The byte texts that pass the check are exactly the UTF-8 encodings of texts without control characters |
| `PercentDecode.ShortSegmentsAreDecided` | clients/nzbget/client.go:888-890 | A segment of fewer than 64 bytes is never rejected as too deep |
| `PercentDecode.HasPercentEscape` | clients/nzbget/client.go:892-899 | Finds exactly whether a valid escape is left |
| `PercentDecode.ValidateEndpointPath` | clients/nzbget/client.go:832-859 | Accepts exactly the rooted paths whose inner segments are accepted, with at most one trailing slash |

## Left out

- Idempotency rows: creation time, expiry, response headers and the size limit of the stored JSON; the resource id written by reservations, effects and releases is a fixed text; the legacy save path.
- SQL: transactions are atomic and rowid order is append order; connection, root and mapping row writers are not modelled.
- Configuration records: labels, URLs, intervals, root paths, capabilities and destination prefixes are one field-check result per record; the sort order of the merged lists and source metadata are dropped; changed-field lists and callbacks appear only as transactions that may abort at any point.
- Configuration generations are unbounded; the source's counter could wrap after 2^64 commits.
- Initial tables of the configuration runs are any that satisfy the invariant; loading persisted state at start-up is not modelled.
- Credentials: one connection at a time, since pending marks make connection transactions exclusive; the id check against retired records is over-approximated; sealing, key handling and metadata are not modelled.
- Login: HTTP, cookie attributes and endpoint choice are a reply value; the caller's context is an event that may happen at any time.
- Publication: the object identity is a number, and the content checks before and after publication are always present; the Darwin variant uses the same protocol.
- Backup: copy budgets, manifest size ceilings, format and schema versions, artifact sorting, archive-relative path spelling, database copies and credential verification; umask and ownership.
- Backup walks: a concurrent change of the archive during verification is not modelled; during a restore copy the archive may hold anything.
- Filesystem reconciliation: evidence texts, linked-client checks and the transport that reads the disk; a read sees one disk. Case folding of digests and file extensions covers ASCII letters only.
- Directory expansion: root ids are any nonblank text; path text is characters, not bytes.
- Affected entries: evidence is a list of texts, and a field the mapping never touches is part of the effect id.
- Cursor store: which cursor is idle or oldest is arbitrary in the thread model and exact in the object model, so only the object model has last-use times; it runs a critical section with its state locks free and does not show a last-use time that changes during a sweep.
- Cursor store: reading directory records, change detection and page contents; a continuation is one step that may consume the token, invalidate the state, both or neither.
- Seerr: field normalization is a validity flag with notes per record; cursor encoding is the state itself with a free choice of whether it fits; the start time and service errors are dropped; page state is passed by value, so aliasing of the state pointer is not shown.
- JSON: lexing, UTF-8 and duplicate handling inside the decoder; commas and colons are not tokens.
- Planning: only the cycle search, not the other record checks.
- Endpoint paths: URL parsing; a character stands for a byte.
- Transport handling and field copying of the service clients, action state tables, start-up wiring, YAML decoding and the other catalog listings, which would only add easy members.
