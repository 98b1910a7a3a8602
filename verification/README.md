# Verified models of the OSINT dashboard's stateful code

Dafny models of the parts of the dashboard, its licence server and its capture extension that keep state over
time, with proofs of what they keep. Each module stands for one source component.

| files | component |
|---|---|
| `Encryption` | field encryption over an ideal authenticated cipher: a token holds key, nonce and text and opens only under its own key; a keyring is the current key and the legacy keys |
| `Store`, `Repair`, `RepairProtocol`, `RepairSafety`, `RepairOutcome` | the repair script for values that were stored as clear text: durable manifest first, then encryption and commit, owner by owner, with a crash possible after every durable write |
| `Rotation` | the `rotate-encryption` command with its commit inside the record loop, and the session guard that runs at each commit |
| `Calendar`, `Retention` | the backup retention script: three keep-the-newest-per-bucket loops |
| `NuxtResolver`, `NuxtFlatten` | the decoder of index-referenced Nuxt payloads, and the flattening encoder it undoes |
| `Licensing`, `CanonicalJson`, `Sublists`, `LicenseServer` | base64url and canonical JSON of signed licences; the server's tables under register, telemetry, issue, revoke, delete and purge |
| `TenantPurge` | the hard delete of expired tenants over one shared database session |
| `RateLimits`, `CoolDowns` | fixed-window request counters and failure counters with a cool-down |
| `SettingCache` | the settings cache under every interleaving of its locked sections with writes and invalidations |
| `CaptureUrls`, `CaptureExtension`, `CaptureArming` | the browser extension's URL checks, its message handlers cut at every await, and what becomes of an armed record |
| `Ordering`, `IsoTime`, `SearchHistory` | the search history lists and the timestamps they are purged by |
| `SessionCache` | bounded retries around the session files |
| `Wrappers` | `Option` and `Result` |

Code that changes state in place is a class whose methods are tied to functions of the old state; code that is
interleaved (the settings cache's callers, the extension's handlers) is a state machine whose steps are the
stretches between two locks or two awaits, and the theorems range over all its traces. Time is an integer that does
not run backwards: microseconds, in the extension milliseconds, in the licence server seconds.

`dafny verify dfyconfig.toml` checks the project.

## Where the code does not do what was expected of it

Each of these is proved: what happens instead, and when the code does do what was expected.

- **Manifest names have a resolution of one second.** When two repair runs complete under the same stamp, the second
  erases the only record of each cell the first encrypted, unless a manifest of another name holds it
  (`RepairSafety.SameSecondErasesTheRecord`). Every earlier change is still on record after a completed pass exactly
  when manifests other than the one it overwrites cover it (`RepairSafety.RerunKeepsTheRecord`); file names that are
  fresh in each pass suffice (`RepairSafety.FreshStampsKeepTheRecord`).
- **An interrupted rotation locks values away.** What the old ring could read it can still read exactly when the new
  key is in that ring or no token has been replaced yet (`Rotation.OldRingReadsOnIff`). The command prints the key it
  generated in full only at its end (app.py:1131), so an interrupted run with a fresh key leaves tokens under a key
  nobody holds (`Rotation.FreshKeyLocksValuesAway`). The proofs that nothing becomes unreadable are about a holder of
  that key. A second run of a job without failures has none exactly under the same condition
  (`Rotation.RerunMeetsItsOwnTokens`).
- **Archives stamped in the future are deleted** by the retention script. An early prune is harmless, whatever arrives
  and whenever the next prune is, exactly when no archive present is stamped later than the clock
  (`Retention.EarlyPruningIsHarmlessIff`).
- **The payload decoder** reads back what was flattened, in every surrounding payload, exactly for values without a
  `$ref` key whose wrappers come in the sequences of `NuxtFlatten.Readable` (`NuxtFlatten.RoundTripIff`): any chain of
  Ref and skipHydrate, and behind each reactive hop the node itself or a Ref; a number does not survive a Ref that
  follows a hop. A second reactive hop stays behind as a list (`NuxtResolver.SecondHopIsNotFollowed`), and
  `["EmptyRef", x]` and `["skipHydrate", x]` met as lists never end (`NuxtResolver.BareWrapperNeverEnds`).
- **A failing tenant undoes its predecessors.** The rollback is on the shared session, so only the tenants behind the
  last failing one are purged (`TenantPurge.EffectiveIsTheTail`), while the returned count covers all of them.
- **The request limit over one window length is 2 * max - 1**, not max, and not 2 * max either: the first counted
  request opens the window (`RateLimits.WindowBound`, attained by `RateLimits.BoundIsReached`). It holds exactly when
  clean-ups look back at least as far as the window (`RateLimits.BoundHoldsIff`); `cleanup_rate_limits(0)`
  (cms/routes/system_app.py:1250) does not. Waiting just Retry-After is not always enough (`RateLimits.RetryAfterPlusOne`).
- **An invalidation can be undone** by a thread that has loaded the old value and saves it afterwards
  (`SettingCache.LateSaveUndoesInvalidation`). All answers after an invalidation are current exactly when no thread has
  an outdated value loaded (`SettingCache.InvalidationHoldsIff`); the calls begun after it are answered with current
  values exactly when each such thread has asked at least one time to live ago (`SettingCache.NewCallsAreCurrentIff`).
- **A cached default is handed to callers who passed another one**, unless all callers pass the same one
  (`SettingCache.DefaultsAreOwnIff`).
- **Revocation ends with deletion.** A revoked licence stays revoked through every run that neither issues a licence to
  the install nor deletes it (`LicenseServer.RevocationLasts`); once deleted, the install registers again with a whole
  new trial (`LicenseServer.DeletionForgetsRevocation`).
- **The extension's case check is a prefix test**: it takes a page of one case for another's exactly when the one id is
  a prefix of the other (`CaptureUrls.AcceptedIffPrefix`), so it is exact for ids of one length, as UUIDs are. A
  screenshot shows the recorded address only if the window has not moved on since the tab was asked for
  (`CaptureExtension.SourceIsShownIff`).
- **An acknowledged arm can be lost** to a handler already under way: the expiry of an old record removes it
  (`CaptureArming.ExpiryCanDropANewArm`), and the capture for an older arm overwrites it
  (`CaptureArming.LateCaptureOverwritesANewArm`). Which handlers under way at the moment of arming can do so is exact
  (`CaptureArming.ArmingSurvivesIff`).
- **The session cache sleeps up to 63 ms** where the comment at cms/session_cache.py:24-27 promises 50
  (`SessionCache.ShippedBudget`); the limit is kept exactly when the doubling steps add up to it
  (`SessionCache.LimitIsKeptIff`).

## Model

| member | source | states |
|---|---|---|
| Encryption.Encrypt | cms/encryption_utils.py:144-167 | None stays None; anything else becomes a token of the current key that opens to it under that key alone, whatever the nonce |
| Encryption.Decrypt | cms/encryption_utils.py:169-212 | None stays None; a token of the current key or of a key in the legacy list that encloses text gives that text; every other value is an error |
| Encryption.RetiredKeysStillRead | cms/encryption_utils.py:169-212 | what was encrypted under one ring is read back under every ring that has its key as the current one or in the legacy list, and under no other |
| Encryption.IsEncryptedWithCurrentKey | cms/encryption_utils.py:231-245 | true exactly for None and for tokens of the current key |
| Encryption.ReEncrypt | cms/encryption_utils.py:214-229 | succeeds on exactly what the ring can open, and the result needs only the current key |
| Encryption.EncryptDictFields | cms/encryption_utils.py:289-304 | each listed non-empty entry gains one layer of encryption per time it is listed; nothing else changes |
| Encryption.DecryptDictFields | cms/encryption_utils.py:307-322 | the decryption loop computes its field-by-field specification, errors included |
| Encryption.DictRoundTrip | cms/encryption_utils.py:289-322 | decrypting a dictionary undoes encrypting it with the same field list, even when a field is listed twice |
| Encryption.DecryptFieldsExact | cms/encryption_utils.py:307-322 | with no field listed twice, decryption succeeds exactly if each listed non-empty entry opens; then those entries are their contents and all others as before |
| Repair.FieldStateOf | scripts/repair_encrypted_subject_fields.py:56-66 | None and the empty string are empty; a token of a key of the ring that encloses text is ciphertext; other tokens, and text that begins with the marker, are unrecognized; all other text is plaintext |
| Repair.SealingIsSafe | scripts/repair_encrypted_subject_fields.py:169-172 | sealing a clear-text field keeps what a tolerant reader gets from it and makes every later pass skip it |
| Repair.ScanRow | scripts/repair_encrypted_subject_fields.py:135-141 | the field loop returns the clear-text fields in order and the number of fields in each state |
| Repair.ScanTable | scripts/repair_encrypted_subject_fields.py:133-143 | the row loop does so for the owner's rows of one model |
| Repair.ScanTenant | scripts/repair_encrypted_subject_fields.py:131-143 | the nested scan loops return the owner's rows with clear text in scan order and the number of fields in each state |
| Repair.HitsExact | scripts/repair_encrypted_subject_fields.py:131-143 | a scan finds a cell exactly when it is a clear-text cell of the owner |
| Repair.HitsOrdered | scripts/repair_encrypted_subject_fields.py:131-143 | no row and no field is listed twice, so none is encrypted twice within a pass |
| Repair.HitsAgree | scripts/repair_encrypted_subject_fields.py:131-147 | what a scan finds depends on that owner's rows alone |
| RepairProtocol.Sorted | scripts/repair_encrypted_subject_fields.py:69-75 | the owner list holds each owner once, in ascending order |
| RepairProtocol.PathsDiffer | scripts/repair_encrypted_subject_fields.py:81-86 | a temporary file never shares its path with any manifest, and different stamps give different manifests |
| RepairProtocol.Machine.WriteManifest | scripts/repair_encrypted_subject_fields.py:78-86 | at every durable moment of the write the target file is the old version or the whole new one; data and audit log are untouched |
| RepairProtocol.Machine.EncryptHits | scripts/repair_encrypted_subject_fields.py:170-172 | exactly the listed cells become one-layer tokens, in the session only |
| RepairProtocol.Machine.EncryptRow | scripts/repair_encrypted_subject_fields.py:171-172 | each listed field of one row becomes a token of the value it held; no other cell moves |
| RepairProtocol.Machine.EncryptOwner | scripts/repair_encrypted_subject_fields.py:169-188 | the owner's cells and one audit entry are committed together, in one durable step |
| RepairProtocol.Machine.RepairOwner | scripts/repair_encrypted_subject_fields.py:144-188 | announcing, encrypting and committing one owner passes only through states of the protocol and ends with that owner done; the run's manifest names its start and its backup in each of them |
| RepairProtocol.Machine.ProcessOwner | scripts/repair_encrypted_subject_fields.py:131-188 | one turn of the owner loop finds what the starting state exposes of that owner and, when applying, repairs it |
| RepairProtocol.Machine.ProcessOwners | scripts/repair_encrypted_subject_fields.py:128-190 | the owner loop reports every owner's exposed fields of the starting state, and passes only through states of the protocol |
| RepairProtocol.Machine.WriteFinal | scripts/repair_encrypted_subject_fields.py:192-194 | the closing rewrite passes only through protocol states and changes no data |
| RepairProtocol.Machine.Run | scripts/repair_encrypted_subject_fields.py:89-195 | refused exactly for an apply run without an existing backup; a refused or dry run changes nothing; an apply run ends with all owners committed and a manifest of its start, its backup and what it reports as affected; each durable state on the way is a protocol state |
| RepairProtocol.TallyOfHits | scripts/repair_encrypted_subject_fields.py:137-146 | the number reported as encrypted is the number of fields classified as clear text |
| RepairProtocol.SameScan | scripts/repair_encrypted_subject_fields.py:128-147 | commits for earlier owners do not change what the scan of a later owner finds |
| RepairSafety.ListingExact | scripts/repair_encrypted_subject_fields.py:148-160 | a manifest names exactly the exposed cells of the owners it covers |
| RepairSafety.CrashLeavesARecord | scripts/repair_encrypted_subject_fields.py:113-188 | wherever a run is cut off, every committed field that differs from its starting value is named in the whole durable manifest |
| RepairSafety.ManifestsAreNeverTorn | scripts/repair_encrypted_subject_fields.py:78-86 | in every durable state of a run no manifest file is a half-written one |
| RepairSafety.PassesAreSafe | scripts/repair_encrypted_subject_fields.py:89-195 | over any sequence of crashed and repeated passes no field is encrypted twice, each field reads as at the start, and ciphertext, unrecognized, empty and unowned fields do not move |
| RepairSafety.CompletedPassIsFinal | scripts/repair_encrypted_subject_fields.py:89-195 | after a completed pass no owned field is clear text, and no further pass, crashed or not, changes data or audit log |
| RepairSafety.FinalManifestNames | scripts/repair_encrypted_subject_fields.py:192-194 | the manifest of a completed pass names exactly the owned cells that were clear text before it |
| RepairSafety.RerunKeepsTheRecord | scripts/repair_encrypted_subject_fields.py:106-115 | after a completed later pass all earlier changes are on record if and only if manifests other than the one it overwrites covered them before it |
| RepairSafety.CoverageCarriesOver | scripts/repair_encrypted_subject_fields.py:106-115 | what those manifests cover stays on record in each durable state of the pass as well, together with its own changes |
| RepairSafety.FreshStampsKeepTheRecord | scripts/repair_encrypted_subject_fields.py:106-115 | with a fresh file name per pass all changes since the first pass stay on record throughout |
| RepairSafety.SameSecondErasesTheRecord | scripts/repair_encrypted_subject_fields.py:106-115 | for any two completed passes with the same stamp: each cell the first encrypted is changed and in its manifest, and not in the second; only a manifest of another name can still hold it |
| RepairOutcome.CompletedPassSealsClearText | scripts/repair_encrypted_subject_fields.py:131-188 | cell by cell: after a completed pass each non-empty text without the marker in a row with an owner is a token of the current key for that text; every other value is unchanged |
| RepairOutcome.TallyCounts | scripts/repair_encrypted_subject_fields.py:136-146 | each total is the number of cells of the listed owners in that state |
| RepairOutcome.AuditCounts | scripts/repair_encrypted_subject_fields.py:174-187 | an owner with clear text gets one audit entry, with the numbers of its rows and fields that hold any; others get none |
| RepairOutcome.TrailExact | scripts/repair_encrypted_subject_fields.py:128-188 | the audit entries of a pass are exactly those, once for each owner and in the owners' order |
| RepairOutcome.EntriesNameTheirOwner | scripts/repair_encrypted_subject_fields.py:148-160 | each manifest entry names an owner of the list and clear-text cells of that owner |
| Rotation.RotateValue | app.py:1088-1114 | exactly a readable token under a usable target key that is not of that key already is replaced, by the same content under the target key; which of the three counts is raised is said for every kind of value |
| Rotation.RotateFields | app.py:1088-1114 | the field loop rotates and counts each value of a record as judged |
| Rotation.EncryptIfPlaintext | cms/models/__init__.py:4080-4099 | non-empty text without the marker becomes a token of the current key for it; every other value is returned |
| Rotation.Guard | cms/models/__init__.py:4834-4861 | at the commit of a changed record its rotated fields keep their new tokens and its remaining clear text is sealed |
| Rotation.Session.RotateRecord | app.py:1087-1117 | one record is rotated and, once its model has re-encrypted anything, committed; a dry run commits nothing |
| Rotation.Session.RotateTable | app.py:1083-1117 | all live records of one model, in order, with the model's counts |
| Rotation.Session.Run | app.py:1066-1126 | the whole command: its counts, and a prefix of rotated records at every commit |
| Rotation.CommitExact | app.py:1087-1117 | cell by cell, at the commit with the loops at any position: in live records before it each replaceable token is replaced, and if there was one the record's clear text is sealed with the current key; nothing else has moved |
| Rotation.EveryCommitReadsTheSame | app.py:1087-1117 | at every commit what opened under the old ring opens to the same text under target and old ring; clear text reads the same; unreadable tokens and deleted records have not moved |
| Rotation.InterruptedRunsReadTheSame | app.py:1087-1117 | the same over any number of runs of one job, each cut off anywhere |
| Rotation.CleanRunNeedsOnlyTheTarget | app.py:1087-1126 | after a run with no failures each non-empty live value opens under the target key alone to what the old ring read |
| Rotation.CountsAreExact | app.py:1083-1126 | each of the three counts is the number of cells of live records with that verdict |
| Rotation.CountsAddUp | app.py:1083-1126 | together they are the number of non-empty values in live records |
| Rotation.NoFailuresIff | app.py:1083-1126 | a run counts no failure if and only if no live value is one that the ring cannot open or the target key cannot seal |
| Rotation.OldRingReadsOnIff | app.py:1087-1117 | at every commit of a run, whoever holds only the old ring reads all that it read before if and only if the target key is in that ring or no value has been rotated yet |
| Rotation.FreshKeyLocksValuesAway | app.py:1066-1131 | for every ring, fresh key and text: a run cut off after its first commit leaves a token that no key set without the fresh key opens |
| Rotation.RerunMeetsItsOwnTokens | app.py:1083-1126 | after a run that was cut off and whose whole would have had no failures, a second run of the same job has none if and only if the target key is in the ring or no value had been rotated |
| Calendar.Chronological | scripts/prune_backup_retention.py:28-35 | comparing date fields in order is comparing instants, leap years included, and different fields are different instants |
| Retention.NameRoundTrip | scripts/prune_backup_retention.py:16-23 | the date is read back from every name it was written into |
| Retention.DatedIff | scripts/prune_backup_retention.py:16-23 | the archives that are judged are exactly the files whose name is written from a valid date |
| Retention.StampsDiffer | scripts/prune_backup_retention.py:16-23 | two archive names with one instant are the same name, so archives never tie |
| Retention.NewestPerBucket | scripts/prune_backup_retention.py:31-53 | a bucket loop keeps exactly the newest archive of each bucket in reach |
| Retention.SameBucketIff | scripts/prune_backup_retention.py:34-50 | two archives compete in the daily tier if their dates agree, in the weekly tier if they lie between the same two Mondays at midnight, in the monthly tier if year and month agree |
| Retention.WeeksDoNotCompete | scripts/prune_backup_retention.py:39-46 | archives with a Monday midnight between them never displace each other in the weekly tier |
| Retention.WantedIff | scripts/prune_backup_retention.py:26-54 | an archive is wanted exactly if, up to now, it is the last of its day, its Monday-to-Monday week or its month, and not older than the days, weeks or 31-day months asked for |
| Retention.SelectedArchives | scripts/prune_backup_retention.py:26-54 | exactly the wanted archives are selected |
| Retention.BackupDirectory.Prune | scripts/prune_backup_retention.py:57-77 | usage error exactly for a value below one; otherwise, with apply, the directory is left with the selection and the files whose names carry no date |
| Retention.IncrementalPruning | scripts/prune_backup_retention.py:26-54 | for archives not in the future at the first prune: pruning early and again later keeps what one later prune of everything would keep, whatever arrived in between, for the selection and for the directory |
| Retention.EarlyPruningIsHarmlessIff | scripts/prune_backup_retention.py:68-76 | for every later clock and all arrivals an early prune leaves the same directory in the end, if and only if no archive present at the early prune is stamped later than its clock |
| Retention.OneLaterPruneAgreesIff | scripts/prune_backup_retention.py:68-76 | for one later clock and given arrivals: if and only if no such archive, unless it arrives again, is wanted then |
| Retention.ScheduleEqualsOnePrune | scripts/prune_backup_retention.py:57-77 | after any schedule of arrivals and prunes the directory is what one prune of everything ever stored would leave |
| Retention.NewestSurvives | scripts/prune_backup_retention.py:26-54 | the newest archive is kept as long as some tier reaches it |
| NuxtResolver.MoreFuel | cms/politie_scraper.py:49-65 | a result reached within some recursion depth is the result at every greater depth |
| NuxtResolver.ResultHasNoRefKey | cms/politie_scraper.py:61-64 | no result contains an object with a `$ref` key |
| NuxtResolver.BareWrapperNeverEnds | cms/politie_scraper.py:57-60 | an EmptyRef or skipHydrate list met outside an index exceeds every recursion depth |
| NuxtResolver.SecondHopIsNotFollowed | cms/politie_scraper.py:31-32 | in every payload in which one reactive cell names another, a result is the second cell as a list, tag first, with its reference resolved |
| NuxtResolver.ResolveLands | cms/politie_scraper.py:22-47 | on a well-formed payload an index, whole, fractional or a bool, resolves to the cell its chain of wrappers ends at |
| NuxtResolver.IndexIsTruncated | cms/politie_scraper.py:22-24 | a fractional index is cut off towards zero, a bool is 0 or 1 |
| NuxtResolver.IndexWraps | cms/politie_scraper.py:24 | an index from -n to n - 1 reads a list of n, negative ones from its end; any other raises |
| NuxtResolver.BadIndexRaises | cms/politie_scraper.py:22-32 | resolution raises for every index out of range and for a fractional one behind a reactive wrapper |
| NuxtResolver.Terminates | cms/politie_scraper.py:49-65 | on every acyclic well-formed payload full resolution ends with a value |
| NuxtFlatten.FlattenHolds | cms/politie_scraper.py:22-47 | the flattened form of a document is laid out so that each node sits at its index |
| NuxtFlatten.ResolveReadsBack | cms/politie_scraper.py:49-65 | resolving the index of a document in any payload that holds it gives its value, whenever its wrappers come in a readable sequence and no object has a `$ref` key |
| NuxtFlatten.RoundTrip | cms/politie_scraper.py:18-65 | in each single payload a readable document is read back if and only if it has no `$ref` key, at every sufficient recursion depth |
| NuxtFlatten.UnreadableDoesNotReadBack | cms/politie_scraper.py:18-65 | for every document with any other wrapper sequence there is a payload in which it is not read back |
| NuxtFlatten.RoundTripIff | cms/politie_scraper.py:18-65 | a document is read back in every payload if and only if its wrappers come in a readable sequence and it has no `$ref` key |
| Licensing.StrippedShape | license-server/licensing.py:27-32 | stripped lengths modulo four are never one, and the length tells the padding that was stripped (sections 3.2 and 5 of RFC 4648) |
| Licensing.DecodePadded | license-server/licensing.py:31-32 | Python's lenient decoder reads back the padded encoding of any byte string |
| Licensing.DecoderIsLenient | license-server/licensing.py:31-32 | characters outside the alphabets are skipped, and both alphabets are read |
| Licensing.PadsComplete | license-server/licensing.py:31-32 | two symbols need two pads and three need one; fewer, or a lone symbol, is an error |
| Licensing.Base64RoundTrip | license-server/licensing.py:27-32 | decoding undoes encoding for every byte string |
| Licensing.Base64IsInjective | license-server/licensing.py:27-32 | different byte strings have different encodings |
| CanonicalJson.CharReadsBack | license-server/licensing.py:35-36 | a reader of JSON strings reads every character back from how it is written, surrogate pairs included (section 7 of RFC 8259) |
| CanonicalJson.StringReadsBack | license-server/licensing.py:35-36 | and every string, up to its own closing quote |
| CanonicalJson.PayloadDeterminesClaims | license-server/licensing.py:35-36 | different claims are never serialised, and so never signed, as the same text |
| LicenseServer.Server.UpdateInstall | license-server/app.py:569-606 | the row is inserted or refreshed, its inactivity mark cleared, and the address cache extended as the request says |
| LicenseServer.Server.IssueTrialIfNeeded | license-server/app.py:332-371 | with a licence row or without a usable key no row changes; otherwise the old rows are followed by one genuine active trial of the install, and it is licensed up to the end of the trial and not after |
| LicenseServer.Server.ApiRegister | license-server/app.py:609-641 | an unknown install gets a row with this token that knows only this contact, and a first trial if it has no licence row and a key can sign; a known one is refreshed only with its own token, and a wrong token changes nothing; no other row moves |
| LicenseServer.Server.ApiTelemetry | license-server/app.py:644-669 | an unknown install or a wrong token changes nothing; otherwise the row keeps token and registration, its last contact is now, it is no longer inactive, each stamped column comes from its own part of the contact, and the new information wins over the old; no other row moves |
| LicenseServer.Server.WebLicenseIssue | license-server/app.py:742-773 | refused without effect for an unknown install or without the signing key; otherwise exactly one row of the install is left, genuine and active with the given plan and expiry, the other installs' rows are all there in their order, and the install is licensed exactly as long as that expiry is current |
| LicenseServer.Server.WebLicenseRevoke | license-server/app.py:408-415 | every row of the install is revoked and differs in nothing else, every other row is as before, and the answer tells whether any row changed |
| LicenseServer.Server.WebLicenseDelete | license-server/app.py:418-422 | neither an install nor a licence row of the id is left, all rows of others are unchanged and in their order, and the answer tells whether anything changed |
| LicenseServer.Server.ClearColumns | license-server/app.py:201-213 | each privacy-sensitive column older than its retention is emptied together with its time |
| LicenseServer.Server.MarkInactive | license-server/app.py:227-234 | no row comes or goes; a row is marked exactly if it was or its last contact is before the cutoff; a new mark is the time of that contact, no other column moves, and the count is the number of rows that differ |
| LicenseServer.Server.DeleteInactive | license-server/app.py:236-248 | exactly the installs marked before the cutoff without an active unexpired licence are deleted, and counted |
| LicenseServer.Server.PurgeSensitiveData | license-server/app.py:193-249 | the retention statements one after another amount to the purge function; the counts are the rows marked and deleted |
| LicenseServer.PurgeExact | license-server/app.py:193-249 | what one purge leaves, row by row: each column by its own retention and its own time, the inactivity mark by the last contact, address lookups by their age, audit entries by theirs and in their order; licences untouched |
| LicenseServer.PurgesCompose | license-server/app.py:193-249 | for unchanged settings a purge followed by a later purge gives the same state as the later purge alone |
| LicenseServer.EventKeepsInv | license-server/app.py:193-422 | every event keeps the invariant: one licence per install, inactivity mark absent or equal to the last contact, genuine signatures, orphaned licences revoked or expired |
| LicenseServer.ReachableStates | license-server/app.py:193-422 | the invariant holds in every state reachable from an empty database |
| LicenseServer.DeletedExactlyWhen | license-server/app.py:227-247 | in a reachable state a purge deletes an install if and only if its last contact is older than both limits and no active licence row of it has no expiry or one that has not passed |
| LicenseServer.ClientsOnlyAddFirstTrials | license-server/app.py:332-422 | no sequence of client requests and purges changes or removes a licence row or adds one for an install that has one: revoked stays revoked and no second trial appears |
| LicenseServer.RevocationLasts | license-server/app.py:193-422 | a revoked install stays revoked, and unlicensed at every time, through every run of events without an issue to it or its deletion |
| LicenseServer.DeletionForgetsRevocation | license-server/app.py:332-422 | after a deletion a revoked, so unlicensed, install that registers again is licensed for a whole trial |
| TenantPurge.Session.PurgeSingleTenant | cms/data_retention.py:168-216 | succeeds exactly when no step fails; then the tenant's rows are gone from the session, or in a dry run the session is rolled back |
| TenantPurge.Session.PurgeExpiredTenants | cms/data_retention.py:64-88 | the committed effect is that of purging the tenants behind the last failing one, and row by row that of CommittedEffect; none in a dry run or when the commit fails; the count covers all expired tenants |
| TenantPurge.TablesExact | cms/data_retention.py:172-207 | after the ordered deletes each table holds exactly the rows the tenant does not own, directly or through the parent table |
| TenantPurge.OthersKeepTheirs | cms/data_retention.py:172-207 | purging one tenant does not change what any other owns |
| TenantPurge.OthersOwnTheSame | cms/data_retention.py:79-86 | whatever tenants are purged, what any other tenant owns, directly or through a parent table, has not changed |
| TenantPurge.PurgeAllExact | cms/data_retention.py:79-86 | purging several tenants removes exactly the rows owned by one of them and exactly their tenant rows |
| TenantPurge.OrderIsGood | cms/data_retention.py:91-165 | the table order has no repeats, puts both child tables before their parents, and is allowed by the allow-list |
| TenantPurge.EffectiveIsTheTail | cms/data_retention.py:79-86 | the purged tenants are the tail of the list behind the last failure |
| TenantPurge.PurgedAreEffective | cms/data_retention.py:79-86 | purged is an expired tenant if no tenant from it to the end of the list meets a table that refuses its statement or a child table whose parent is missing or unscoped |
| TenantPurge.CommittedEffect | cms/data_retention.py:64-88 | row by row: an action finding stays unless an old research action with the id it refers to is of a purged tenant, likewise preferences and users; in every other listed table with a tenant column exactly the rows of purged tenants go; all other tables stay, and exactly the purged tenants go |
| TenantPurge.ParentsFirstLeaveChildren | cms/data_retention.py:178-194 | were a parent table purged before its child table, every row of the child table would stay |
| RateLimits.HitKeepsInv | cms/rate_limiting.py:177-203 | counting or refusing a request under any of the key's limits keeps the log of counted requests in step with the window and spread out, as the largest maximum and the shortest window have it |
| RateLimits.SweepKeepsInv | cms/rate_limiting.py:500-507 | a clean-up that looks back at least one window keeps it so |
| RateLimits.RunInv | cms/rate_limiting.py:139-203 | so it is at every moment of a trace |
| RateLimits.WindowBound | cms/rate_limiting.py:139-203 | on every trace of requests and such clean-ups, a closed interval as long as the key's shortest window holds at most 2 * max - 1 counted requests, max being the largest of its limits |
| RateLimits.BoundIsReached | cms/rate_limiting.py:139-203 | for every limit some trace reaches that number |
| RateLimits.BoundHoldsIff | cms/rate_limiting.py:486-507 | the bound holds on all traces if and only if clean-ups look back at least as far as the window |
| RateLimits.RetryAfterPlusOne | cms/rate_limiting.py:186-201 | after a refusal, waiting Retry-After and one second more always meets an expired window; waiting just Retry-After does so if and only if less than a second was left |
| RateLimits.RateLimiter.Charge | cms/rate_limiting.py:177-203 | one counter is opened, restarted, raised or found full as specified, and no other is touched |
| RateLimits.RateLimiter.RateLimit | cms/rate_limiting.py:145-203 | a request is handled exactly if it has been counted against both keys, the address's and the endpoint's, and a refused one has not been counted against the endpoint's; the per-address counter is raised even if the endpoint's refuses; every key keeps its invariant as long as the limits used stay under the key's largest maximum and shortest window |
| RateLimits.HandledIffCounted | cms/rate_limiting.py:145-203 | the same for tables, with the remaining number, which limit a refusal names, and all other keys untouched |
| RateLimits.RateLimiter.CleanUp | cms/rate_limiting.py:500-507 | removes exactly the stale keys; looking back at least one window keeps every key's invariant |
| RateLimits.EveryKeyIsBounded | cms/rate_limiting.py:139-203 | the bound holds for every key in every state the limiter reaches |
| RateLimits.HandledAreBounded | cms/rate_limiting.py:139-203 | in every run of requests and patient clean-ups at most 2 * max - 1 requests of an endpoint key are handled in any closed interval as long as its shortest window |
| RateLimits.QuietClientsAreHandled | cms/rate_limiting.py:139-203 | no request is refused while fewer than the maximum were counted in the window that ends with it, for the address and for the endpoint |
| CoolDowns.StreakIsLongest | cms/rate_limiting.py:442-451 | the streak is the length of the longest suffix of attempts without a gap over the reset time |
| CoolDowns.LimitedIff | cms/rate_limiting.py:395-466 | limited exactly if the last attempts, as many as are allowed, have no gap over the reset time and the last is less than the retry time ago |
| CoolDowns.AttemptKeepsInv | cms/rate_limiting.py:432-463 | the entry after an attempt is the one its attempts determine |
| CoolDowns.PlatformLimiter.RateLimitAfterN | cms/rate_limiting.py:421-466 | the entry is set as the count says; the returned count is the streak of the attempts made, whatever clean-ups of sufficient age came between |
| CoolDowns.PlatformLimiter.IsRateLimited | cms/rate_limiting.py:395-408 | limited exactly while the entry's cool-down lasts, which is when the attempts alone say so: streak at the maximum and the last attempt less than the retry time ago |
| CoolDowns.PlatformLimiter.CleanUp | cms/rate_limiting.py:486-499 | removes exactly the stale entries; at sufficient age every later answer is what the attempts alone say |
| CoolDowns.NeverShortenedIff | cms/rate_limiting.py:444-463 | no attempt ends an active cool-down early if and only if the retry time is at most the reset time or one attempt suffices |
| CoolDowns.NeverDroppedIff | cms/rate_limiting.py:486-499 | no clean-up drops an active cool-down if and only if the retry time is at most the clean-up age |
| CoolDowns.SweepUnnoticedIff | cms/rate_limiting.py:486-499 | no clean-up changes a later count if and only if the reset time is at most the clean-up age |
| SettingCache.Cache.Store | cms/setting_cache.py:29-30 | from the time read before the lookup, lookups of the key hit the value for one time to live and miss afterwards; lookups of other keys answer as before |
| SettingCache.Cache.Invalidate | cms/setting_cache.py:35-38 | lookups of the key miss at every time; lookups of other keys answer as before |
| SettingCache.Cache.InvalidateAll | cms/setting_cache.py:41-44 | every lookup misses |
| SettingCache.Cache.CachedGet | cms/setting_cache.py:16-32 | an undisturbed call returns the hit, or the stored value or default, which it then keeps |
| SettingCache.AnswersAreFresh | cms/setting_cache.py:16-44 | under every interleaving a call that read the clock at `now` returns a value the database held later than now - TTL, or a passed default while it held none |
| SettingCache.InvalidationHoldsIff | cms/setting_cache.py:16-44 | after any trace and an invalidation, all answers for the key up to its next write are current if and only if no thread had an outdated value loaded |
| SettingCache.NewCallsAreCurrentIff | cms/setting_cache.py:16-44 | the answers to calls begun after the invalidation are current if and only if each thread with an outdated value read its clock at least one time to live ago |
| SettingCache.SettledAnswersAreCurrent | cms/setting_cache.py:16-44 | once neither cache nor thread holds an outdated value, every answer up to the key's next write is current |
| SettingCache.LateSaveUndoesInvalidation | cms/setting_cache.py:27-32 | from every state with a fresh enough thread that has loaded an outdated value, some schedule answers a call begun later with that value |
| SettingCache.DefaultsAreOwnIff | cms/setting_cache.py:16-32 | callers of a key the database does not hold always get the default they passed if and only if they all pass the same one |
| CaptureUrls.EncodedPrefix | browser_extensions/local_finding_capture/background.js:12-14 | one percent-encoded id is a prefix of another, up to the end of the path segment, exactly when the ids are |
| CaptureUrls.IsCaseUrl | browser_extensions/local_finding_capture/background.js:1-18 | only pages below the case path of the two dashboards are ever accepted |
| CaptureUrls.AcceptedIffPrefix | browser_extensions/local_finding_capture/background.js:9-18 | a dashboard page of one case is taken for another's if and only if the id asked for is a prefix of the page's |
| CaptureUrls.ExactAmongEqualLengths | browser_extensions/local_finding_capture/background.js:9-18 | among ids of one length the check is exact |
| CaptureExtension.CapturesAreNeverMixed | browser_extensions/local_finding_capture/background.js:34-169 | under every interleaving each ready record ever stored or sent is what one capture handler made, at the time it carries, from the record it had read, of a web page that is not the case's own and within the size limit; each upload was ready, at most ten minutes old when read and for the sender's case |
| CaptureExtension.WhyStorageChanges | browser_extensions/local_finding_capture/background.js:34-169 | a step changes the stored record only by storing one or by a handler that removes it, and a handler comes to that exactly by a cancel message, by having read a record over ten minutes old, or by an upload that went well |
| CaptureExtension.OnePictureOneFinding | browser_extensions/local_finding_capture/background.js:62-99 | one picture goes with one case and finding, and a record for them was stored, unexpired, before the picture was taken |
| CaptureExtension.SourceIsShownIff | browser_extensions/local_finding_capture/background.js:78-93 | a picture shows the recorded address if and only if the window shows the same then as when the tab was asked for |
| CaptureArming.ArmingSurvivesIff | browser_extensions/local_finding_capture/background.js:34-169 | an armed record keeps naming its case and finding, through every continuation without new messages within its lifetime, if and only if no handler under way clears, sends, or stores another record, and none holds or can pick up what would make it do so |
| CaptureArming.ExpiryCanDropANewArm | browser_extensions/local_finding_capture/background.js:34-43 | a schedule in which expiring an old record removes one armed later |
| CaptureArming.LateCaptureOverwritesANewArm | browser_extensions/local_finding_capture/background.js:62-99 | a schedule in which the capture for an older arm overwrites one armed later |
| IsoTime.IsoOrder | search_history.py:142-147 | `isoformat()` strings compare as the instants do, for all years 1 to 9999, with and without a fraction (compare section 5.1 of RFC 3339) |
| SearchHistory.SearchHistory.AddEntry | search_history.py:39-54 | a new unread entry at the front |
| SearchHistory.SearchHistory.ArchiveEntry | search_history.py:79-93 | only the first entry with the id moves to the front of the archive |
| SearchHistory.SearchHistory.MarkRead | search_history.py:95-101 | only the first entry with the id is marked |
| SearchHistory.SearchHistory.MarkAllRead | search_history.py:103-107 | every entry is marked, nothing else changes |
| SearchHistory.SearchHistory.ArchiveAll | search_history.py:109-122 | the whole history, marked as archived now, is in front of the archive, its last entry foremost, and the old archive unchanged behind it; the answer is the size of the whole archive |
| SearchHistory.SearchHistory.PurgeOld | search_history.py:141-150 | both lists keep what does not sort before the cutoff, and the answer counts what went |
| SearchHistory.ShelvingMovesItems | search_history.py:113-118 | as multisets of id, tool, query and timestamp nothing is lost or doubled, even when ids collide |
| SearchHistory.PurgeSplits | search_history.py:147-148 | what a purge keeps and what it drops add up to what there was |
| SearchHistory.KeptIffNotOlder | search_history.py:142-147 | an entry is kept exactly when it is not strictly older than the cutoff |
| SearchHistory.KeptInOrder | search_history.py:147-148 | entries that are kept stay in their order |
| SessionCache.RunSafely | cms/session_cache.py:46-64 | calls exactly up to the first that settles, at most n, the least number with step * (2^n - 1) >= limit; the settled outcome, or no value after n failures; the exact time slept, below 2 * limit + step |
| SessionCache.SettledAtFirst | cms/session_cache.py:54-64 | the outcome is that of the first call that is not retried |
| SessionCache.Get | cms/session_cache.py:66-75 | a miss is looked up once more, after exactly one pause and from the call at which the first lookup stopped; the calls made and the time slept are exact |
| SessionCache.LimitIsKeptIff | cms/session_cache.py:46-64 | the time slept stays within the limit if and only if the doubling steps add up to it exactly |
| SessionCache.ShippedBudget | cms/session_cache.py:24-31 | the shipped settings allow six calls and 63 ms asleep, and 136 ms for a lookup that is tried again |

## Left out

- Flask routes, templates, sessions, CSRF, login and request parsing: no state or arithmetic of their own.
- Network clients and scrapers: they rest on outside services.
- The cryptography inside Fernet and Ed25519, key files and key caching, `rotate_key`: an ideal cipher and an ideal signature stand for them.
- RepairProtocol.Machine.WriteManifest: the rename is taken as durable and atomic; the source syncs the file but not its directory.
- RepairProtocol.Machine.Run: row-level security contexts, exceptions in the middle of a pass other than a crash, and inserts or deletes by others meanwhile; rows are identified by their position.
- Rotation.Session.Run: a table whose count query fails is one without live rows; what a dry run leaves in the session is never committed, as the process ends.
- Retention.SelectedArchives: names whose digits are no calendar date make `strptime` raise and are excluded; so are dates that overflow when the span is subtracted. ISO weeks are identified by their Monday.
- NuxtResolver.Terminates: payloads with cycles, out-of-range or negative indices are excluded by `WellFormed`; recursion depth stands for Python's stack, and numbers are reals without NaN and infinities.
- LicenseServer.ReachableStates: licence ids are fresh, as random UUIDs are; address lookups and claimed contact data are parameters; expiry texts that do not parse count as not current; the signed payload is represented by its claims.
- TenantPurge.Session.PurgeExpiredTenants: which statement fails is a parameter; foreign keys, locks and automatic flushes are not modelled, nor are allow-list entries outside the order.
- RateLimits.RateLimiter.RateLimit: per-user and per-tenant counters, persistence and restarts. For the prefixes `phone` and `person`, each used with two limits (cms/routes/app_bp.py:85, phone.py:340, osint_routes.py:69 and 107), the bound is in terms of the larger maximum and the shorter window.
- CoolDowns.PlatformLimiter.RateLimitAfterN: `set_rate_limited`, entries restored as strings, and a local clock set back.
- SettingCache.AnswersAreFresh: decoding of JSON and encrypted settings inside `Setting.get`; each lookup, load and save is one step.
- CaptureExtension.CapturesAreNeverMixed: badges, the page that carries out the upload, failures of the storage calls; URL parsing is the browser's. Handlers are steps of a state machine, not methods, because they interleave at their awaits.
- SearchHistory.SearchHistory.PurgeOld: a cutoff before year 1, which overflows in the source, is excluded.
- SearchHistory.SearchHistory.ArchiveAll: one clock reading stands for one per entry; concurrent use of the files, unreadable files and filtering views are not modelled.
- SessionCache.Get: the third-party lookup around `_run_safely` counts as a miss when the file cannot be read.
- Diagnostics, seeding, mail, canary and report scripts.
