# Nanofile: state machines, transformations and codecs

A Dafny model of the parts of the Nanofile server whose correctness depends on a whole run, on an
interleaving, or on arithmetic over an unbounded input. Every statement below is for all inputs, all
runs or all reachable states. Where a promise of the code's comments or tests does not hold of the
code, the model follows the code, a lemma gives an input or a run that breaks the promise, and another
gives the exact condition under which it holds.

`dafny verify dfyconfig.toml` checks the whole project.

| modules | subject |
|---|---|
| `ActivityModel`, `ActivityCalls`, `ActivityBatch`, `ActivityLog`, `ActivityEdits`, `ActivityOutcome`, `ActivityTable` | activity rows: calls, batches and edit deduplication one after the other, what they leave key by key, the logger class |
| `ActivityProtocol`, `ActivityConservation`, `ActivityMisses`, `ActivityOneRow`, `ActivityRuns`, `ActivityEditRace` | concurrent calls and batch groups, statement by statement: what is lost and when, when calls share a row, when edits do |
| `LogRotation` | the size-capped log and its backups, with and without failing file operations |
| `Crc32`, `CrcBursts`, `PngChunk` | the table-driven checksum against a bit-serial one (section 3.4 of RFC 2083), bursts of damage, and PNG chunks |
| `PathSegments`, `CanonicalPath`, `SafeJoin`, `PathNames`, `PathLimits`, `UniqueFilename` | virtual paths: normal form, joining, splitting, limits and errors, unique names |
| `QuotaCache` | storage reservations and usage snapshots |
| `WebDavMigration`, `WebDavAccess` | the key migration, statement by statement, and the access it leaves |
| `RestartSignal`, `Generations`, `ServeDrain` | restart requests, the listener kept across generations, graceful drain |
| `StatePaths` | `sqlite:` URLs and the rewrite of relative state paths |
| `Options`, `Sequences`, `Sets` | shared vocabulary |

The shape is the same throughout. Code that changes state is a class or a method with the source's
loops, proved against a function of the old state; the theorems are about that function. Concurrent
code is a state machine whose steps are the atomic statements, and the theorems are about its runs. What
an operation stores or answers is also stated outright, with the keys, characters, windows and limits
written into the statement (`ActivityOutcome`, `PathLimits` and the members marked "in plain terms").
Who may read or write a library with a key is taken from `server/src/webdav/auth.rs:165-199` for WebDAV and
`server/src/middleware/auth.rs:451-461` for the other capabilities, both with
`server/src/domain/api_key.rs:20-107`.

## Where the code falls short of its promise

- **A batch can lose items.** `log_activity_batch` never takes the aggregate lock, so its groups read,
  extend and write back a row unprotected, against calls and against each other. Items are lost in a run
  if and only if some process, call or group, writes over a row that another has written since it was
  read (`NothingLostIffNoStaleWrite`). `OverlapLoses` builds such a run for every call: a group and a call,
  or two groups, whichever writes last.
- **Concurrent creates may stay several rows.** A call that finds no recent row releases the lock before
  it inserts, so a second call may find none either (`ConcurrentCallsMayStayApart`). The test
  `concurrent_creates_are_all_aggregated` (`server/tests/activity_test.rs`) expects one row. A burst of calls
  inserts as many rows as queries find none (`RowsAreMisses`), and ends in one row if and only if every
  later query comes after the insertion of the call that queried first (`AllInOneRowIff`).
- **One batch can write two edit rows of one path.** The 1800-second gap survives a batch if and only
  if each path edited twice in it already has a recent row (`BatchKeepsGapIff`, `RepeatedEditBreaksGap`).
- **Two concurrent edits of one path can write two rows.** An edit takes no lock between its lookup and its
  insertion (`ConcurrentEditsBreakGap`). Edits of one path within one window keep the gap if and only if every
  later lookup comes after the insertion of the call that looked up first (`RaceKeepsGapIff`).
- **A connection can be accepted after the shutdown is asked for.** The accept loop's select is not biased
  (`AcceptAfterSignalIsPossible`). From then on it can happen if and only if a connection waits in the backlog
  (`LateAcceptPossibleIff`), and at most as often as connections wait there at that moment or arrive before
  the loop stops (`LateAtMostExposed`). Late connections are drained like the others.
- **A digest shared by two users loses one of them.** The WebDAV migration preserves access if and only
  if each digest has one user (`AccessPreservedIff`), and that is also exactly when the order of the rows does
  not matter (`OrderIrrelevantIff`).
- **Keys made through the API lose their bindings.** What such a key permits, through any capability, survives
  if and only if the key covers all libraries, holds no capability or has no binding
  (`PrefixedAccessSurvivesIff`, `BoundKeyLosesAccess`); access through WebDAV alone also survives if the key
  could not read there (`PrefixedWebDavSurvivesIff`).
- **A full usage cache serves an old snapshot.** A store that finds 4096 fresh snapshots is dropped even if the
  user has one (`FullCacheServesOld`); what is served is the user's latest store if and only if that was not
  dropped or equals the older one (`ServedIsLatestIff`).
- **Joining a blank step is not joining its text.** Joining x and then y is joining x/y if and only if
  neither is a non-empty blank text (`JoinComposesIff`, `BlankStepDiffers`).
- **`safe_normalize_path` is not idempotent.** Its result is a fixed point if and only if the last component
  of the trimmed input that no `..` takes back does not end in white space (`NormalizeIsFixedIff`,
  `NormalizeTwiceDiffers`); the fixed points are given outright (`NormalizeFixesIff`).
- **A database path with two leading slashes is read back as another file** (`UrlRoundTripIff`,
  `DoubleSlashTurnsRelative`). This is also the only way in which resolving state paths is not idempotent,
  and `ResolvingIsIdempotentIff` says exactly when.
- **An existing absolute directory stops the rewrite of relative paths.** The documentation lets only
  existing relative paths do so. The two rules differ if and only if no relative path exists and some
  absolute directory does (`KeepIsDocumentedIff`, `AbsoluteStopsTheRewrite`).

## Model

| member | source | states |
|---|---|---|
| ActivityConservation.NothingLostIffNoStaleWrite | infra/src/activity_log.rs:82-403 | In every interleaving of the statements of any number of calls and batch groups no row exceeds 200 items and nothing is stored more often than it was there or logged; once all are done the multiset of items over the six common keys is what was stored plus what was logged, if and only if no process wrote over a row that another had written since it read it |
| ActivityConservation.CallsLoseNothing | infra/src/activity_log.rs:82-187 | Without batches every interleaving keeps every item exactly once, inserts made after the lock is released included |
| ActivityConservation.BatchesApartLoseNothing | infra/src/activity_log.rs:82-403 | Runs in which no two processes of one library, user, operation and object type are between their read and their write at once lose nothing |
| ActivityRuns.OverlapLoses | infra/src/activity_log.rs:82-385 | For every create or delete item there is a run that ends with an item lost: a group overlaps a call or another group, and either of them may write last |
| ActivityOneRow.AllInOneRowIff | infra/src/activity_log.rs:82-187 | In a burst of at most 200 calls of one tag within one window, on a table without a recent row, all items end in one row, the other rows unchanged, if and only if every query after the first comes after the insertion of the call that queried first |
| ActivityOneRow.RowsAreMisses | infra/src/activity_log.rs:82-187 | A burst inserts exactly as many rows as its queries find none |
| ActivityMisses.OneRowIff | infra/src/activity_log.rs:82-187 | In every run whose queries miss just until a row is there, one row is inserted if and only if all other queries await the row of the first |
| ActivityRuns.ConcurrentCallsMayStayApart | infra/src/activity_log.rs:82-187 | A run of two creates on an empty table that ends in two lone rows |
| ActivityConservation.RunAccount | infra/src/activity_log.rs:82-403 | The books of a run: stored, lost and owed items change by the logged ones, and something is lost exactly when a stale write happened |
| ActivityProtocol.StepInv | infra/src/activity_log.rs:82-403 | Every statement keeps: the lock holder is the only call between read and write, and a snapshot is its row, or something written to the row is missing in it |
| ActivityBatch.GroupConserves | infra/src/activity_log.rs:343-402 | A group appends its first items to the recent row as far as 200 allows, inserts the others, and stores exactly its items more |
| ActivityBatch.GroupKeepsCap | infra/src/activity_log.rs:358-377 | A group keeps every row within 200 items |
| ActivityBatch.RunIsClosed | infra/src/activity_log.rs:343-402 | The table after all groups in closed form: old rows rewritten by the group of their own type as judged from the initial table, left-over items inserted group by group |
| ActivityBatch.GroupOrderDoesNotMatter | infra/src/activity_log.rs:331-402 | Whatever one iteration order of the groups can end in, every other order can, up to the ids of the new rows |
| ActivityModel.PromotionKeepsEntries | infra/src/activity_log.rs:261-284 | Promoting a lone object to an array keeps its item over the common keys, with either list of allowed keys |
| ActivityLog.CallConserves | infra/src/activity_log.rs:82-187 | A call on its own stores exactly its item more, or nothing if its operation does not aggregate |
| ActivityRuns.SoloCallIsARun | infra/src/activity_log.rs:82-187 | A call on its own is a run of the protocol with the specified result |
| ActivityRuns.SoloGroupIsARun | infra/src/activity_log.rs:343-402 | A group on its own is a run of the protocol with the specified result |
| ActivityLog.BatchConserves | infra/src/activity_log.rs:293-403 | A whole batch stores exactly its create and delete items more and keeps the cap |
| ActivityLog.BatchStoresWhatCallsStore | infra/src/activity_log.rs:293-403 | Logging a batch and logging its items one by one store the same multiset of items |
| ActivityEdits.CallKeepsGap | infra/src/activity_log.rs:147-166 | A single call keeps the edit rows of one library, user and path 1800 seconds apart |
| ActivityEdits.DedupKeepsGapIff | infra/src/activity_log.rs:407-456 | The edits of a batch keep the gap if and only if every repeated path already had a recent row |
| ActivityEdits.BatchKeepsGapIff | infra/src/activity_log.rs:293-456 | The same condition is exact for a whole batch |
| ActivityEdits.RepeatedEditBreaksGap | infra/src/activity_log.rs:407-456 | A first batch with one path edited twice breaks the gap |
| ActivityEdits.EditsStayApart | infra/src/activity_log.rs:147-166 | In every sequential run with a nondecreasing clock the gap holds after every call and batch, as long as no batch meets the exception |
| ActivityEdits.AtMostOneRecentEdit | infra/src/activity_log.rs:147-158 | With the gap at most one row answers an edit lookup |
| ActivityEditRace.RaceKeepsGapIff | infra/src/activity_log.rs:147-187 | Concurrent edits of one path within one window, on a table without a recent row of it, keep the 1800-second gap if and only if every lookup after the first comes after the insertion of the call that looked up first |
| ActivityEditRace.ConcurrentEditsBreakGap | infra/src/activity_log.rs:147-187 | A run of two edits of one path that ends in two rows of one second |
| ActivityOutcome.CallOutcome | infra/src/activity_log.rs:40-187 | In plain terms: a create or delete extends the newest row of its kind less than 300 seconds old by its item if that holds fewer than 200, keeping the six keys of a lone object; an edit re-dates the newest edit row less than 1800 seconds old; everything else becomes a row; every column and key holds its own argument and nothing else is stored |
| ActivityOutcome.StoredNames | infra/src/activity_log.rs:129-135 | A row that was appended to is named `batch_create` or `batch_delete`, an inserted one plainly |
| ActivityOutcome.GroupOutcome | infra/src/activity_log.rs:343-402 | In plain terms: the newest row less than 300 seconds old takes the first items of the group in order until it holds 200, keeping eight keys of a lone object, and the others become rows in order |
| ActivityOutcome.BatchOutcome | infra/src/activity_log.rs:207-456 | In plain terms: every item of a batch is found afterwards with each of its fields under its own key or column, in a row of its own, behind the newest recent row of its kind, or as a new date of the newest recent edit row |
| ActivityTable.ActivityLogger.FindRecent | infra/src/activity_log.rs:88-98 | Returns some row of the window with maximal time, or none exactly when there is none |
| ActivityTable.ActivityLogger.FindRecentEdits | infra/src/activity_log.rs:420-429 | Exactly the recent edit rows on the given paths, newest first |
| ActivityTable.ActivityLogger.LatestByPath | infra/src/activity_log.rs:431-434 | The first entry of each path is a newest recent row of that path |
| ActivityTable.ActivityLogger.LogActivity | infra/src/activity_log.rs:82-187 | The statements of a single call are the call as specified and leave what `CallOutcome` says |
| ActivityTable.ActivityLogger.DedupEditItems | infra/src/activity_log.rs:407-456 | Refreshes the newest recent row of each edited path and inserts exactly the edits without one |
| ActivityTable.ActivityLogger.GroupItems | infra/src/activity_log.rs:331-341 | One group per operation and object type that occurs, its items in their order |
| ActivityTable.ActivityLogger.LogGroup | infra/src/activity_log.rs:343-402 | The append loop with its 200-item cap is the group as specified |
| ActivityTable.ActivityLogger.LogGroups | infra/src/activity_log.rs:343-402 | Every group is run exactly once, in some order |
| ActivityTable.ActivityLogger.LogActivityBatch | infra/src/activity_log.rs:293-403 | The statements of a batch are a batch as specified and leave of every item what `BatchOutcome` says |
| LogRotation.RunRetainsSuffix | server/src/logging.rs:298-359 | In every run without I/O errors the backups from the oldest to the log read as a suffix of everything written, in whole events; `written` is the log's length; no file beyond the last backup is created |
| LogRotation.RunNeverReorders | server/src/logging.rs:298-359 | Whatever opens, length queries, removes, renames and writes fail, the chain is a subsequence of everything written with failed events cut short at most, and `written` never exceeds the length of the log, which it equals unless a length query failed |
| LogRotation.RunKeepsPairs | server/src/logging.rs:309-349 | After r rotations the newest min(r, N) pairs of neighbouring files each hold more than the cap together |
| LogRotation.RunRetainsHalf | server/src/logging.rs:309-349 | Once N rotations have happened the chain holds more than floor((N + 1) / 2) times the cap |
| LogRotation.FileWithinCapOrOneChunk | server/src/logging.rs:309-324 | After a write the log is within the cap or is exactly one oversized event |
| LogRotation.RotatesIff | server/src/logging.rs:309-315 | A write rotates exactly when there is a cap and the event would push the log over it |
| LogRotation.NoCapNoRotation | server/src/logging.rs:309-315 | With a cap of 0 no write rotates |
| LogRotation.RotationDropsOldest | server/src/logging.rs:327-349 | A rotation drops the oldest backup, moves each other file up by one and leaves an empty log |
| LogRotation.RotatingLog.constructor | server/src/logging.rs:267-293 | Opening takes over an existing log, with its length if that can be read and 0 otherwise |
| LogRotation.RotatingLog.Rotate | server/src/logging.rs:327-349 | The descending rename loop is the rotation as specified, under every combination of failures |
| LogRotation.RotatingLog.WriteChunk | server/src/logging.rs:298-325 | Reopening, rotating and appending, an event cut short when its write fails, are the write as specified, under every combination of failures |
| Crc32.ShiftLinear | e2e/helpers/image.ts:51 | One shift of the register is linear for exclusive or |
| Crc32.TableStep | e2e/helpers/image.ts:59 | Eight shifts of the register are a lookup by its low byte, exclusive or the register moved down a byte |
| Crc32.FeedBitsIsShifts | e2e/helpers/image.ts:47-61 | Feeding the bits of a byte one by one is folding the byte in and shifting, at every count of bits |
| Crc32.MakeTable | e2e/helpers/image.ts:47-55 | Entry w of the table is w shifted eight times |
| Crc32.Lookup | e2e/helpers/image.ts:59 | The table step of one byte feeds its eight bits |
| Crc32.Checksum | e2e/helpers/image.ts:57-61 | For every buffer one lookup per byte computes the bit-serial checksum |
| Crc32.PolynomialIs | e2e/helpers/image.ts:51 | The polynomial by its exponents |
| Crc32.ChecksumOfEnd | e2e/helpers/image.ts:57-61 | The checksum of `IEND` is 0xae426082 |
| CrcBursts.BurstChangesChecksum | e2e/helpers/image.ts:57-61 | Two messages that differ within one burst of at most 32 bits, wherever it starts, have different checksums |
| PngChunk.WriteChunk | e2e/helpers/image.ts:76-83 | Fills a buffer with length, type, data and the checksum of type and data |
| PngChunk.ReadsBack | e2e/helpers/image.ts:76-83 | Reading a written chunk returns its type and data and what follows it |
| PngChunk.EndChunk | e2e/helpers/image.ts:76-83 | The twelve bytes of the end chunk |
| PngChunk.BigEndian | e2e/helpers/image.ts:78 | Words are written most significant byte first |
| PngChunk.DamageIsRejected | e2e/helpers/image.ts:76-83 | A chunk whose type and data are damaged by a burst of at most 32 bits is rejected by its checksum |
| CanonicalPath.CanonicalizePath | base/src/sanitize.rs:71-124 | The push and pop loop computes the specified result, each error included |
| CanonicalPath.SucceedsIff | base/src/sanitize.rs:71-117 | Success if and only if the limits hold, every name is valid and no prefix has more `..` than names |
| CanonicalPath.ResultIsNormalForm | base/src/sanitize.rs:118-124 | The result is canonical, not longer than the input, and its own canonical form |
| CanonicalPath.FixedIffCanonical | base/src/sanitize.rs:71-124 | The fixed points are exactly the canonical paths within 4096 bytes |
| CanonicalPath.InsertionChangesNothingIff | base/src/sanitize.rs:71-124 | Inserting `/`, `/.` or `/name/..` at a segment boundary changes nothing, errors included, if and only if it does not push the path over the limit |
| PathLimits.SucceedsExactly | base/src/sanitize.rs:71-117 | In plain terms: success if and only if the path is absolute, at most 4096 bytes, none of nine characters is in a component, and no prefix has more `..` than names |
| PathLimits.ErrorIs | base/src/sanitize.rs:71-117 | Which error is answered: empty, relative, too long, NUL, in this order, then that of the first component that offends |
| PathLimits.ComponentOutcome | base/src/sanitize.rs:92-101 | What becomes of any single component, with its error |
| PathLimits.ResultIsClean | base/src/sanitize.rs:118-124 | No result holds one of the nine characters or exceeds 4096 bytes |
| PathLimits.BytesOf | base/src/sanitize.rs:78 | Lengths are in UTF-8 bytes |
| SafeJoin.JoinComposesIff | base/src/sanitize.rs:138-150 | When x/y can be joined, joining x and then y succeeds with the same result, lengths included, if and only if neither is a non-empty blank text |
| SafeJoin.BlankStepDiffers | base/src/sanitize.rs:138-150 | Joining a space and then a name differs from joining both at once |
| SafeJoin.NormalizeIsFixedIff | base/src/sanitize.rs:165-176 | A normalised path is a fixed point if and only if the last component of the trimmed input that no `..` takes back does not end in white space |
| SafeJoin.NormalizeFixesIff | base/src/sanitize.rs:165-176 | The fixed points are exactly the canonical paths within 4096 bytes that do not end in white space |
| SafeJoin.SurvivorIsOnTop | base/src/sanitize.rs:84-117 | Scanning the components backwards finds what resolving leaves on top of the stack |
| SafeJoin.NormalizeTwiceDiffers | base/src/sanitize.rs:165-176 | A path that a second normalisation changes |
| SafeJoin.NormalizeRoots | base/src/sanitize.rs:170-175 | A relative path is normalised as the absolute one with a slash in front |
| SafeJoin.NormalizeTrims | base/src/sanitize.rs:166-169 | White space around a path does not matter, and nothing else is the root |
| SafeJoin.RelativeNames | base/src/sanitize.rs:165-176 | Names joined by slashes without one in front normalise to the absolute path of these names |
| SafeJoin.OneCharacter | base/src/sanitize.rs:140-142 | Which characters are blank: joining one of them alone changes nothing, joining any other adds it |
| SafeJoin.LeadingSlashIsIgnored | base/src/sanitize.rs:143 | A slash in front of what is joined does not matter |
| PathNames.JoinComesApart | infra/src/common/util.rs:177-197 | Parent and basename of a canonical path joined with a valid name are the two, and the join is its own canonical form exactly within 4096 bytes |
| PathNames.RebuiltFromHalves | infra/src/common/util.rs:177-197 | Every canonical path but the root is rebuilt from its parent and basename |
| PathNames.ParentOfCanonicalJoin | infra/src/common/util.rs:177-197 | Canonicalising a join within the limit succeeds and has the base's canonical form as its parent |
| PathLimits.HalvesAre | infra/src/common/util.rs:177-188 | Parent and basename of any text: cut at the last slash, or `/` and nothing |
| PathLimits.NameOutcome | base/src/sanitize.rs:29-46 | In plain terms: what the validator says of any name, with 255 bytes, the nine characters and the device names |
| PathLimits.ReservedIff | base/src/sanitize.rs:21-27 | A name is reserved exactly when what precedes its first dot, less spaces, is a device name in any case |
| UniqueFilename.CandidateInjective | infra/src/common/util.rs:231-237 | Two candidates with different numbers are different names |
| UniqueFilename.TakenAtMost | infra/src/common/util.rs:231-242 | A run of taken candidates is not longer than the listing |
| UniqueFilename.GenerateUniqueFilename | infra/src/common/util.rs:223-243 | Ends within one try more than there are entries, with the unused candidate of least number |
| UniqueFilename.LastDotSplits | infra/src/common/util.rs:224-229 | Stem and extension make up the name, cut at its last dot if it has one |
| UniqueFilename.CandidateShape | infra/src/common/util.rs:224-237 | A candidate is the stem, a space, the decimal number in brackets and the extension from the last dot |
| QuotaCache.ReservedWithinQuota | infra/src/quota_cache.rs:78-131 | In every run a user's reserved total stays within 0 and the quota, and another user's call leaves it as it was |
| QuotaCache.LedgerBalances | infra/src/quota_cache.rs:90-131 | Per user and library, accepted bytes are reserved still, released, or were let through unrecorded |
| QuotaCache.AdmissionIsExact | infra/src/quota_cache.rs:90-124 | Over every run: a call is admitted if and only if it asks for something and committed usage, the user's reservations and its bytes are within the quota; then exactly its bytes are added to its key, unless 8192 other keys exist; otherwise nothing changes |
| QuotaCache.FailsOpenIff | infra/src/quota_cache.rs:113-121 | An accepted call stores nothing exactly when 8192 keys exist and its key is new |
| QuotaCache.RetainKeepsAll | infra/src/quota_cache.rs:115 | Every stored value is positive, so the clean-up removes nothing |
| QuotaCache.OthersUntouched | infra/src/quota_cache.rs:90-131 | A call changes at most the reservation of its own user and library |
| QuotaCache.ServedSnapshotIsFresh | infra/src/quota_cache.rs:46-75 | A snapshot that is served was stored less than 500 ms ago and not invalidated since |
| QuotaCache.ServedIsLatestIff | infra/src/quota_cache.rs:46-65 | A snapshot that is served shows the user's latest store if and only if that store did not find 4096 fresh snapshots, or equals the one held before it |
| QuotaCache.LatestIsServedIff | infra/src/quota_cache.rs:46-65 | With a clock that does not go back, a latest store that was not dropped is served exactly while it is less than 500 ms old |
| QuotaCache.FullCacheServesOld | infra/src/quota_cache.rs:56-65 | 4096 stores after which a user's new snapshot is dropped and the old one served |
| QuotaCache.QuotaCache.ReservedTotal | infra/src/quota_cache.rs:78-84 | The loop over the map computes the user's total |
| QuotaCache.QuotaCache.ReserveIfFits | infra/src/quota_cache.rs:90-124 | Answers Ok exactly when nothing is asked for or committed usage, reserved total and delta are within the quota, and stores the call as specified |
| WebDavAccess.AccessPreservedIff | migration/src/m20260912_000001_migrate_webdav_keys_into_api_keys.rs:27-152 | With the old unique index, a digest reads or writes a library after the migration exactly when a live legacy row allowed it, for every digest, if and only if each digest has one user |
| WebDavAccess.SucceedsIff | migration/src/m20260912_000001_migrate_webdav_keys_into_api_keys.rs:54-142 | It succeeds if and only if no live row carries the digest of a key made through the API |
| WebDavAccess.RerunEndsTheSame | migration/src/m20260912_000001_migrate_webdav_keys_into_api_keys.rs:27-152 | Stopped after any statement and rerun with the rows in any order, it succeeds alike, and with one user per digest it ends with the same access |
| WebDavAccess.OrderIrrelevantIff | migration/src/m20260912_000001_migrate_webdav_keys_into_api_keys.rs:37-142 | All orders of the selected rows end with the same access if and only if each digest has one user |
| WebDavAccess.SharedDigestLosesAccess | migration/src/m20260912_000001_migrate_webdav_keys_into_api_keys.rs:79-139 | A database in which two users share a digest and one of them loses access |
| WebDavAccess.PrefixedAccessSurvivesIff | migration/src/m20260912_000001_migrate_webdav_keys_into_api_keys.rs:27-32 | What a key made through the API permits is the same after as before, for every user, capability and library, reading and writing, if and only if the key covers all libraries, holds no capability or has no binding |
| WebDavAccess.PrefixedWebDavSurvivesIff | migration/src/m20260912_000001_migrate_webdav_keys_into_api_keys.rs:27-32 | Its access through WebDAV is the same after as before if and only if the key covers all libraries, could not read through WebDAV or has no binding |
| WebDavAccess.BoundKeyLosesAccess | migration/src/m20260912_000001_migrate_webdav_keys_into_api_keys.rs:27-32 | A database in which a key made through the API loses its access, through WebDAV and through another capability |
| WebDavAccess.PrefixedKeysLoseBindings | migration/src/m20260912_000001_migrate_webdav_keys_into_api_keys.rs:27-32 | Keys made through the API are kept as they are, and all their bindings are gone |
| WebDavMigration.KeysEstablished | migration/src/m20260912_000001_migrate_webdav_keys_into_api_keys.rs:54-129 | After every prefix of the rows there is one key per digest, with the data of its first row and the widest capabilities of its rows, and the other keys are unchanged |
| WebDavMigration.BindingsEstablished | migration/src/m20260912_000001_migrate_webdav_keys_into_api_keys.rs:131-139 | After every prefix there is exactly one binding per digest and library, with the permission of its first row |
| WebDavMigration.Database.MigrateRow | migration/src/m20260912_000001_migrate_webdav_keys_into_api_keys.rs:54-141 | The statements of one row: insert or widen, then bind, or fail on the unique digest with nothing changed |
| WebDavMigration.Database.MigrateRows | migration/src/m20260912_000001_migrate_webdav_keys_into_api_keys.rs:51-150 | The row loop with its digest table passes through exactly the specified states |
| WebDavMigration.Database.Up | migration/src/m20260912_000001_migrate_webdav_keys_into_api_keys.rs:18-155 | The whole migration; success drops the legacy table and leaves users and libraries alone, without the legacy table nothing happens, and a failure leaves the last state |
| WebDavMigration.SecondRunChangesNothing | migration/src/m20260912_000001_migrate_webdav_keys_into_api_keys.rs:22-25 | Running again after a success changes nothing |
| RestartSignal.NoRequestIsLost | server/src/restart.rs:62-90 | No reachable state has the flag set, the waiter parked, no permit and no requester about to notify, over all interleavings with given-up and repeated waits |
| RestartSignal.ReturnsOnlyWhenRequested | server/src/restart.rs:81-89 | A wait returns only when a restart was requested |
| RestartSignal.WaiterGetsThrough | server/src/restart.rs:70-89 | Once the requesters are done a waiting waiter has a step of its own and returns within two |
| RestartSignal.OneWakePerNotification | server/src/restart.rs:70-89 | Every notification lets the waiter go on at most once |
| Generations.AcquireKeepsListener | server/src/restart.rs:108-141 | Acquiring keeps the socket of the same address, takes the first bind that succeeds, or fails after exactly 30 attempts (one at first start) with the listener unchanged |
| Generations.EveryGeneration | server/src/main.rs:718-741 | In every generation that goes on a listener is held, a failure with both addresses is recorded exactly when its address is not the configured one, an unchanged address keeps its socket, and numbers increase by one |
| Generations.EveryAcquisition | server/src/main.rs:984-1002 | Over all generations: a listener on the configured address is kept; otherwise the first socket bound within 30 attempts, or within one for the first generation, is taken, and if there is none the old listener stays |
| Generations.GoesOnIff | server/src/main.rs:718-741 | Another generation follows exactly when the last one stopped for a restart and the next one starts up; the first needs a listener or a successful attempt |
| Generations.HeldListenerAlwaysGoesOn | server/src/main.rs:988-1002 | A process that holds a listener never stops for lack of one |
| Generations.Process.AcquireListener | server/src/restart.rs:108-141 | The retry loop is the acquisition as specified; the old listener is held until the new one is bound |
| Generations.Process.StartGeneration | server/src/main.rs:984-1002 | Numbering, acquisition and the failure record of one generation |
| Generations.Process.RunServerFlow | server/src/main.rs:700-742 | The generation loop produces exactly the specified records, and a held listener stays held |
| ServeDrain.ReturnedMeansDrained | server/src/serve.rs:58-123 | When serving returns after shutdown no connection is live and each was asked to drain at most once |
| ServeDrain.ReturnEnabledIff | server/src/serve.rs:118-123 | The final wait can end if and only if every connection has finished |
| ServeDrain.RunInv | server/src/serve.rs:58-123 | In every run the close receivers are the loop's own and one per live connection, the signal receiver is held until the shutdown, and a live connection was asked to drain exactly if its signal branch fired |
| ServeDrain.LiveConnectionsObserve | server/src/serve.rs:58-114 | Once the shutdown is asked for the signal receiver can be dropped, and once it is dropped every live connection can be asked to drain or has been |
| ServeDrain.NoneAcceptedAfterBreak | server/src/serve.rs:69-73 | Once the loop has stopped accepting no connection is added |
| ServeDrain.AcceptAfterSignalIsPossible | server/src/serve.rs:69-73 | A run in which a connection is accepted after the signal receiver was dropped |
| ServeDrain.LateAcceptPossibleIff | server/src/serve.rs:69-73 | While the loop accepts after the shutdown was asked for, some continuation without further arrivals accepts a connection late if and only if one waits in the backlog |
| ServeDrain.LateAtMostExposed | server/src/serve.rs:69-73 | Late connections number at most the backlog when the shutdown is asked for and the arrivals before the loop stops |
| ServeDrain.LateOnesAreDrained | server/src/serve.rs:85-123 | Every late connection has finished, asked to drain at most once, when serving returns |
| ServeDrain.DrainIsShort | server/src/serve.rs:100-123 | Every run after the loop stops has at most two steps per live connection and the return |
| ServeDrain.DrainGoesOn | server/src/serve.rs:100-123 | Until it has returned a drain always has a step to take |
| StatePaths.UrlRoundTripIff | infra/src/config.rs:1813-1829 | Printing an absolute path with its query string and parsing it returns both if and only if the path has no `?` and no two leading slashes |
| StatePaths.UrlOutcome | infra/src/config.rs:1813-1829 | In plain terms: which file a `sqlite:` or `sqlite://` URL names, with its query string, and that in-memory URLs name none |
| StatePaths.OtherSchemes | infra/src/config.rs:1814-1816 | A URL of another scheme names no file |
| StatePaths.AllOrNothing | infra/src/config.rs:2044-2090 | Under an absolute base either nothing changes or every relative directory and database file moves under the base |
| StatePaths.RewrittenUrlIff | infra/src/config.rs:2064-2072 | The rewritten URL names exactly the joined file with its query string if and only if that path can be written as a URL |
| StatePaths.ResolvingIsIdempotentIff | infra/src/config.rs:2044-2090 | For every absolute base, resolving twice is resolving once unless the database path under the base begins with two slashes; then if and only if the new URL text names no file, or something that it or a directory under the base names exists, or the base is what the parser takes for the scheme |
| StatePaths.KeepIsDocumentedIff | infra/src/config.rs:2002-2058 | The code keeps a configuration by the documented rule except exactly when no relative path exists and some absolute directory does |
| StatePaths.AbsoluteStopsTheRewrite | infra/src/config.rs:2049-2058 | A configuration that stays relative because of an absolute directory |
| StatePaths.DoubleSlashTurnsRelative | infra/src/config.rs:1813-1829 | An absolute database path that the rewrite turns into a relative one |
| StatePaths.DirReportIsExact | infra/src/config.rs:1833-1851 | The report lists exactly the relative directories with their new paths and the common decision |
| StatePaths.ReportIsExact | infra/src/config.rs:2073-2090 | The report lists exactly the relative fields by name, the database among them, each with the path it now has |
| StatePaths.StateConfig.ResolveDirs | infra/src/config.rs:1833-1851 | The loop over the directories rewrites and reports as specified |
| StatePaths.StateConfig.ResolveStatePaths | infra/src/config.rs:2044-2090 | Fields and report after the call, with the decision the code takes |

## Left out

- Activity logging with failing statements, and stored details that are not objects or arrays: the code only warns about the former.
- Concurrent edits of a batch: the race is between single calls.
- Within a batch group the query, the update and the insert of the remaining rows are one statement each, as they are for the database; the edit and direct inserts of a batch run before its groups and are not interleaved.
- Operation names that themselves begin with `batch_`, which the aggregation query would match; no caller passes one.
- The commit id and library name that `log_activity` looks up are arguments of a call, and so is its clock reading.
- Overflow: `i64` sums in the quota cache, the `u64` length of a log file and the generation counter are unbounded integers.
- ReservedWithinQuota: takes the committed usage and the quota from each call, as the code does; how they are computed is not modelled.
- File permissions, directories and the first-failure message of the log.
- Windows path rules in `components()`, and names that are not valid Unicode, which a `&str` cannot hold.
- PngChunk.WriteChunk: takes the data's length also as a 32-bit word, because lengths of 2^32 and more cannot be written.
- The pixels and compression of `pngFixture` and the other image fixtures.
- Access beyond the key itself: membership of the user in the library, expiry, rate limits, and which route demands which capability; reading and writing are considered for every capability.
- Which of several rows of a digest names the key and dates it: the query leaves the order open, and nothing is promised.
- The migration's `down`, and values of a legacy row that cannot be decoded.
- More than one waiter on a restart signal; the run loop has one.
- The error text inside a recorded restart failure, and the delay between bind attempts.
- Timeouts, sockets and HTTP in the accept loop: a connection finishes at a step of its own choosing.
- `state_dirs`, configuration defaults and validation: flat lists that would only add easy members.
- Schema-only migrations, routes, templates, settings, `format_size`, multipart scanning and SMTP: wiring or one-step facts.
