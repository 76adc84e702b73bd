# KE8YGW Logger: verified model

This project models the parts of the KE8YGW amateur-radio logger that must not
go wrong, and proves what they promise:

- the hash-chained official log, its store, backup, import and replication between
  replicas (`Event`, `EventTypes`, `Chain`, `StoreSpec`, `EventFile`, `Store`, `Backup`, `Replication`,
  `Replicas`), and the QSOs folded from it (`Projection`);
- ADIF: scanner, printer, mapping in both directions, clock and frequency
  conversions, and the import loop with its duplicate test (`AdifFormat`, `AdifNames`,
  `AdifExport`, `AdifRoundTrip`, `AdifMapping`, `AdifReading`, `AdifRestores`, `AdifImport`,
  `AdifReimport`, `AdifSync`, `Clock`, `Frequency`);
- the LAN sync runtime: HTTP messages, signed requests, the trust store, the
  discovery workers and the address sweep (`Http`, `LanTrust`, `LanAuth`, `LanExchange`,
  `UuidText`, `Discovery`, `Sweep`);
- offline work: the mutation queue, tracked submission with crashes, the push to the
  cloud server and corrective conflict review (`OfflineQueue`, `QueueEntries`, `QueueDrain`,
  `QueueStore`, `OfflineSubmit`, `PushErrors`, `CloudPush`, `OfflineRun`, `CorrectiveReview`,
  `ProposalTypes`);
- fast forms against simple ones: award grouping, the replay buffer, redaction and
  the API contract check (`Awards`, `Bus`, `Redaction`, `SchemaCheck`).

`Basics`, `Text` and `Json` hold what the others share.

## Conventions

- A text or a message is the sequence of its UTF-8 bytes, one char per byte. The code
  modelled only looks at ASCII.
- SHA-256 and HMAC are parameters. Theorems that need it assume no collision among
  the events, or between the two signed texts, that they speak about.
- Rounding to a double is a parameter with a relative error of at most 2^-53 where
  doubles are normal (section 4.3.1 of IEEE 754-2019).
- Random ids and clock readings are arguments. Files are kept as the values they hold,
  JSON encoding being exact, except the event file, which is its bytes: there the
  encoder is a parameter that writes an event on one line, and neither a proper part of
  an event's text nor two texts joined parse (`EventFile.Faithful`).
- Threads and crashes are steps: every interleaving, and every point to stop at, is
  covered by the theorems that mention them.

## Where code and expectation differ

The model follows the code. Each of these is a lemma with the exact condition.

- The documentation says replayed nonces are rejected (README.md:1096-1107). Nonces
  are forgotten ten minutes after their acceptance, as soon as a later request is
  accepted: `LanTrust.ReplayAcceptedIff` says exactly when a replay passes, over any
  run and with any clock. With a clock that never steps back that is more than ten
  minutes later (`LanTrust.NonceReuseIsLate`); after a clock that jumped ahead and was
  set back it can be at once (`LanTrust.ClockBackReplays`).
- A submission that is refused, or stopped before its event hash is recorded, keeps its
  queue entry without an event. No submission, recovery or push ever clears it, and
  no later entry of its logbook is sent from the queue: `OfflineRun.UnfinishedBlocks`.
- A stop inside an event's text leaves an event file that does not open
  (`EventFile.CrashRecovery`). A stop between the text and its newline leaves one that
  does, but the next append joins it on the same line and the file never opens again:
  `EventFile.NextAppendLost`, and `EventFile.RunReads` for the exact condition.
- A push refused for an unsupported event type is taken for a divergence when the type's
  name mentions a previous hash: `CloudPush.DivergedExactly`.
- A backup import can answer with an error after appending every event:
  `Backup.HandleBackupImport`.
- A successful dry run does not mean the import will complete: it does not look at
  event types, schema versions, the logbook of each event, or ids stored under another
  logbook. `Backup.ImportCompletesIff` gives the condition, `Backup.RestoreIntoEmpty`
  the one for an export, and `Backup.EmergencyEventBlocksRestore` an export that
  restores nothing.
- The dry run's duplicate count is 0 when the backup's chain is refused, whatever the
  common prefix: `Backup.LocalBackupDryRun`.
- A pull that finds the local log ahead of its peer reports divergence:
  `Replication.PullDecision`.
- The ADIF version of the header ends up in the first parsed record, and an empty
  export parses to one record: `AdifRoundTrip.ExportParses`.
- An end time is printed without its date, so it comes back on the start's date:
  `AdifRestores.TimesRestored` inside `AdifRestores.QsoComesBack`.
- ADIF import is not idempotent with a negative window, under ImportAnyway, or while
  the projection cannot be rebuilt: `AdifImport.IdempotentIff`.
- A corrective review whose events all have blank hashes would stay open after they
  were appended; SHA-256 hashes are never blank: `CorrectiveReview.ResolvedIff`.
- The contract check is not transitive through a value that is not an object, or
  through a schema that does not say whether it is nullable:
  `SchemaCheck.TransitiveIffGapless`. Its test for a null removed from a union never
  adds an error of its own, since the type has then changed: `SchemaCheck.NodeFindings`.

## Model

| member | source | states |
|---|---|---|
| Event.FromNew | crates/ham-core/src/event.rs:68-89 | a new event carries the previous hash it was given and a hash that is valid for it |
| Event.InputKept | crates/ham-core/src/event.rs:68-89 | two different inputs never make the same event, and the event gives its input back field by field |
| Event.HashDeterminesEvent | crates/ham-core/src/event.rs:91-118 | without a collision among the events at hand, two valid events with one hash agree in every field |
| Chain.BackupEvents | crates/ham-client/src/serve.rs:4850-4875 | accepts exactly the valid chains (distinct ids, valid hashes, unbroken links), returned unchanged; otherwise names the first faulty event and the first fault of it |
| Chain.ChainExtends | crates/ham-core/src/event.rs:68-89 | appending keeps a chain valid exactly when hash, link and id of the new event are right |
| Chain.SharedAncestry | crates/ham-client/src/serve.rs:4850-4875 | a hash found in two valid chains is at one position in both, and the chains are identical up to it |
| Chain.SharedHashes | crates/ham-client/src/serve.rs:4850-4875 | two valid chains share a hash at a pair of positions exactly when these are equal and inside the longest common prefix |
| Chain.ForkOnce | crates/ham-client/src/serve.rs:4850-4875 | two valid chains are equal, or one is a proper prefix of the other, or they fork at one index with no hash in common afterwards |
| Chain.SameHeadSameHistory | crates/ham-core/src/event.rs:91-118 | equal heads exactly when equal histories |
| StoreSpec.InsertValid | crates/ham-core/src/store.rs:292-328 | the store stays valid under an insertion exactly when the event is valid and continues its logbook |
| StoreSpec.RemoteAppendValid | crates/ham-core/src/store.rs:183-328 | a remote append never breaks the store, appends exactly when the event is supported, new and continues the head, and touches one log only |
| StoreSpec.VerdictExactly | crates/ham-core/src/store.rs:292-328 | each verdict on a remote event exactly: stored already as it is, a hash that is not its own, a schema that is not 1, a type not on the list, an id taken, or a previous hash that is not the head |
| EventTypes.SupportedExactly | crates/ham-core/src/store.rs:443-494 | the supported types are exactly those a group of actions names, spelled out |
| EventTypes.FoldedTypesAppend | crates/ham-core/src/projection.rs:285-335 | every event that changes the QSO projection is accepted by the remote append when it is valid, new, of schema 1 and continues the head |
| StoreSpec.LocalAppendValid | crates/ham-core/src/store.rs:272-290 | a local append with a fresh id keeps the store valid and adds one event to one log |
| StoreSpec.ReplayValid | crates/ham-core/src/store.rs:148-173 | loading a file that the store wrote gives a valid store |
| EventFile.OpensIff | crates/ham-core/src/store.rs:134-173 | a file opens exactly when it does not end with a proper part of an event, and then with exactly its events, a last one without its newline included |
| EventFile.CrashRecovery | crates/ham-core/src/store.rs:134-173 | after a stop at any byte the file opens exactly when the stop was not inside the text of an event; the store is then valid, holds the events whose text is complete, and each log is a prefix of the full one |
| EventFile.RunReads | crates/ham-core/src/store.rs:134-173 | over any run of appends, stops and reopenings the file opens at the end exactly when it did at the start, no append wrote behind a line without its newline and none stopped inside an event; it then holds every event whose text was written whole |
| EventFile.WrittenInv | crates/ham-core/src/store.rs:113-173 | a file the store wrote, left with any of the three tails, meets what opening asks of it, and is ended exactly when its tail is |
| EventFile.NextAppendLost | crates/ham-core/src/store.rs:134-146 | a file left without its last newline opens with that event, and the next append makes it unreadable |
| EventFile.BlankLinePassedOver | crates/ham-core/src/store.rs:148-173 | a line of white space in the file is passed over |
| EventFile.ReturnCut | crates/ham-core/src/store.rs:148-173 | a line may end in a carriage return before its newline |
| StoreSpec.KnownIsLogged | crates/ham-core/src/store.rs:148-173 | an event the id map knows is in the log of its own logbook |
| Store.InMemoryStore.AppendEvent | crates/ham-core/src/store.rs:272-290 | the new maps are the specified local append of the old ones |
| Store.InMemoryStore.AppendVerifiedRemoteEvent | crates/ham-core/src/store.rs:292-328 | verdict and new maps are those of the specification; a refusal changes nothing |
| Store.InMemoryStore.ListEventsAfter | crates/ham-core/src/store.rs:342-369 | lists from just after the first event with the given hash, or everything when there is none |
| Store.ListAfterIsTail | crates/ham-core/src/store.rs:342-369 | on a valid store, listing after a logged hash gives exactly the rest of that log |
| Store.InMemoryStore.VerifyChain | crates/ham-core/src/store.rs:371-416 | accepts exactly the logbooks whose stored ids all resolve to a linked chain ending at the recorded head, whatever state the maps are in; an error is that of the first position at which this fails, or of the head if none does |
| Store.LoadInner | crates/ham-core/src/store.rs:148-173 | the loop over the lines of the file computes the replay of their events, blank lines apart, and fails exactly when a line does not parse |
| Store.JsonlStore.Open | crates/ham-core/src/store.rs:113-127 | opens exactly the files whose lines all parse, in the state replayed from them; on a file the store has written, stopped anywhere, the store is consistent exactly when the file is ended |
| Store.JsonlStore.AppendEvent | crates/ham-core/src/store.rs:134-181 | memory grows by the event and the file by its line; reopening then gives the state in memory if the file was ended and opened before, and fails otherwise |
| Store.JsonlStore.AppendVerifiedRemoteEvent | crates/ham-core/src/store.rs:134-195 | the file grows by a line exactly when memory grows, with the same consequence for reopening |
| Store.FileGrows | crates/ham-core/src/store.rs:134-195 | one more event keeps a sequence of events one the store accepted exactly when it is new, valid and continues its logbook |
| Backup.LocalBackupDryRun | crates/ham-client/src/serve.rs:4795-4848 | ok exactly when version and logbook match, the chain verifies and the local log is a prefix of it; the duplicate count is the longest common prefix with the accepted events, so 0 when the chain is refused |
| Backup.HandleBackupImport | crates/ham-client/src/serve.rs:4689-4780 | without confirmation or a good dry run nothing changes; the ahead and divergence errors after a good dry run never occur; otherwise the outcome is the append loop over the missing tail, with an error although all is appended when the QSOs cannot be rebuilt |
| Backup.AppendTail | crates/ham-client/src/serve.rs:4729-4739 | the loop equals the recursive import of the tail, refusals included |
| Backup.ImportKeepsValid | crates/ham-client/src/serve.rs:4729-4739 | any import, complete or not, keeps the store valid and only extends logs |
| Backup.ImportCompletesIff | crates/ham-client/src/serve.rs:4689-4739 | after a good dry run the local log becomes the backup exactly when every missing event is supported, of this logbook and has an unknown id; then exactly backup length minus local length events are added |
| Backup.SecondImportAppendsNothing | crates/ham-client/src/serve.rs:4689-4739 | a second import passes its dry run and appends none |
| Backup.InterruptedImportResumes | crates/ham-client/src/serve.rs:4689-4739 | stopped after any append, the import can be run again and ends with exactly the backup |
| Backup.RestoreIntoEmpty | crates/ham-client/src/serve.rs:4596-4611 | an export restores into an empty profile exactly when all its events have supported types and schema 1 |
| Backup.EmergencyEventBlocksRestore | crates/ham-core/src/store.rs:443-494 | a log that begins with an emergency-communications event passes the dry run but imports nothing |
| Projection.RebuildsIff | crates/ham-core/src/projection.rs:282-366 | a log can be folded exactly when every creation comes with an object or nothing and every correction of a QSO that exists with an object; the projection then holds exactly the QSOs created |
| Projection.DeletedIff | crates/ham-core/src/projection.rs:305-335 | a QSO is deleted exactly when it was deleted after it came to be and neither restored nor created again since |
| Projection.LastValueStands | crates/ham-core/src/projection.rs:282-366 | each key of a QSO has the value of the last event that set it, a creation setting every key |
| Replication.VerifyIncomingChain | crates/ham-core/src/sync/mod.rs:709-734 | passes exactly the lists that continue the given head with supported events of the logbook; otherwise the first event that does not decides: diverged for its previous hash, rejected for anything else |
| Replication.SelectMissing | crates/ham-core/src/sync/mod.rs:685-707 | selects what follows the head, everything without a head, everything that connects to it, or nothing |
| Replication.PullMissingEvents | crates/ham-core/src/sync/mod.rs:549-670 | in sync exactly when heads agree; otherwise nothing is appended unless the whole selection verifies first, and a failed verification is reported as its first refused event says |
| Replication.PullDecision | crates/ham-core/src/sync/mod.rs:549-670 | against a peer with a valid log, comparing heads decides equality and prefix correctly; a local log that is ahead counts as diverged |
| Replication.PullReachesPeer | crates/ham-core/src/sync/mod.rs:549-670 | a pull of importable events ends with the peer's log |
| Replicas.LogsOnlyGrow | crates/ham-client/src/serve.rs:4689-4739 | in every run of appends, exports, imports of any file and pulls, each cut short anywhere, every log stays a valid chain and only extends its earlier self |
| Replicas.SingleWriterNeverForks | crates/ham-client/src/serve.rs:4689-4739 | with one writer every replica and every export holds a prefix of the writer's log at every moment |
| AdifSync.ImportedLogRestores | crates/ham-core/src/adif.rs:192-256 | a log that restores, continued by an ADIF import, still restores whole into an empty store |
| AdifSync.ImportedLogTravels | crates/ham-core/src/adif.rs:192-256 | an import, a verified pull and a cloud push of such a log each reach the other side whole, from any part of it that is there already |
| AdifFormat.ParseAdif | crates/ham-core/src/adif.rs:59-107 | one indexed pass over the bytes computes the scan of the text, with EOH leaving gathered fields in place and a length past the end stopping it |
| AdifFormat.TakeTag | crates/ham-core/src/adif.rs:69-102 | what one tag does to records, gathered fields and index |
| AdifFormat.FieldStep | crates/ham-core/src/adif.rs:395-403 | scanning one printed field consumes exactly it, whatever bytes its value holds |
| AdifFormat.FileRoundTrip | crates/ham-core/src/adif.rs:59-107 | a printed file parses to the printed fields of each record that has any; the header version joins the first record, which is there in any case |
| AdifFormat.ForeignField | crates/ham-core/src/adif.rs:77-102 | a field another program wrote, its name in any case and a type behind its length, is consumed exactly and stored under the name in capitals |
| AdifFormat.ForeignMarker | crates/ham-core/src/adif.rs:77-89 | the record mark in any case ends a record; the header mark in any case changes nothing |
| AdifExport.AppendField | crates/ham-core/src/adif.rs:395-403 | appends the field of a non-empty text and nothing otherwise |
| AdifExport.AppendFieldOrStr | crates/ham-core/src/adif.rs:405-416 | a text in the payload wins over the fallback, even an empty one |
| AdifExport.AppendFrequency | crates/ham-core/src/adif.rs:427-434 | appends the six-decimal megahertz text of an unsigned frequency |
| AdifExport.AppendDateTime | crates/ham-core/src/adif.rs:436-458 | appends date and start time, and the end time only after them |
| AdifExport.ExportQso | crates/ham-core/src/adif.rs:122-188 | appends the fields of one QSO in the fixed order, then the end mark |
| AdifExport.ExportAdif | crates/ham-core/src/adif.rs:113-190 | header, then every listed QSO; tombstoned ones only on request |
| AdifExport.ListedExactly | crates/ham-core/src/adif.rs:113-122 | a QSO is listed as often as it occurs, a deleted one only on request |
| AdifExport.ChosenExactly | crates/ham-core/src/adif.rs:149-163 | the activation named by the QSO is used, the first linked one only when none is named |
| AdifExport.OwnSigsExactly | crates/ham-core/src/adif.rs:164-183 | the own special-activity tags come from the QSO or else from its activation: type in capitals, park before summit |
| AdifExport.TextTagsExactly | crates/ham-core/src/adif.rs:122-188 | every plain tag prints the text of its own payload key, and nothing when that is empty |
| AdifRoundTrip.ExportParses | crates/ham-core/src/adif.rs:59-190 | parsing an export gives one record for every QSO with a printed field, in order; an empty export parses to the version alone |
| AdifRoundTrip.ExportedFieldReturns | crates/ham-core/src/adif.rs:113-190 | every tag of a parsed record answers with the value its QSO printed, and a tag that printed nothing is absent |
| AdifRoundTrip.EveryCallKept | crates/ham-core/src/adif.rs:113-190 | a QSO that prints its call always has a record of its own |
| AdifMapping.AdifRecordToQsoPayload | crates/ham-core/src/adif.rs:258-309 | the step-by-step conversion, with its first error, computes the specified payload |
| AdifMapping.FullDraftAt | crates/ham-core/src/adif.rs:265-306 | copying in order leaves each key with the value of its own tag, NOTES over COMMENT, blanks left out |
| AdifReading.MappedIff | crates/ham-core/src/adif.rs:363-387 | a record is mapped exactly when it gives a call, a mode and a date, and the date and the start time filled up with zeros can be read |
| AdifReading.ShortTimes | crates/ham-core/src/adif.rs:371-387 | a start without seconds is read at the full minute, one without a time at midnight |
| AdifReading.ContactTaken | crates/ham-core/src/adif.rs:258-281 | call and mode in capitals and the start as an instant stand under their keys |
| AdifReading.EndTaken | crates/ham-core/src/adif.rs:298-303 | the end time is put on the day of the start, and left out when it cannot be read |
| AdifReading.TextsTaken | crates/ham-core/src/adif.rs:284-296 | every text field is taken over unchanged when it has a character that is no space, and left out otherwise |
| AdifReading.NotesTaken | crates/ham-core/src/adif.rs:291-292 | the notes are the record's NOTES or else its COMMENT |
| AdifReading.OwnCallsigns | crates/ham-core/src/adif.rs:265-274 | the station and operator callsigns come from the record, else from the options, the operator at last from the station |
| AdifRestores.TimesRead | crates/ham-core/src/adif.rs:371-387 | the printed time tags read back as the start cut to the second and the end time on the start's date |
| AdifRestores.QsoComesBack | crates/ham-core/src/adif.rs:258-309 | a printed QSO maps back exactly when it names call, mode and start, with the same non-blank texts, call and mode in capitals, start cut to the second, end on the start's UTC date, and the frequency in hertz |
| AdifReimport.ExportedFileRestores | crates/ham-core/src/adif.rs:59-309 | the same over any exported file: the payloads its records map back to are, in order, those of the QSOs with call, mode and start, whether the others print anything or not |
| AdifReimport.OwnExportImportsNothing | crates/ham-core/src/adif.rs:113-256 | importing one's own export under Skip imports nothing |
| Clock.DateRoundTrip | crates/ham-core/src/adif.rs:445-447 | the eight-digit date of a year 0 to 9999 reads back |
| Clock.TimeRoundTrip | crates/ham-core/src/adif.rs:445-447 | the six-digit time reads back |
| Clock.Rfc3339RoundTrip | crates/ham-core/src/adif.rs:277 | the RFC 3339 text of a whole second reads back |
| Clock.ToUtcKeepsInstant | crates/ham-core/src/adif.rs:437-442 | conversion to UTC moves the instant by exactly the offset, across day, month and year ends |
| Frequency.FrequencyRoundTrip | crates/ham-core/src/adif.rs:304-306 | every frequency below 2^51 Hz survives division, printing, parsing, multiplication and rounding |
| Frequency.ExportedExactly | crates/ham-core/src/adif.rs:427-434 | the printed text is the exact decimal form of the frequency |
| AdifImport.CloseTimeExactly | crates/ham-core/src/adif.rs:355-357 | the window test accepts exactly differences strictly below window + 1 minutes |
| AdifImport.SkippedExactly | crates/ham-core/src/adif.rs:311-361 | under Skip a readable record is skipped exactly when a live QSO has its call and mode up to case, its band up to case if it names one, and a start less than window + 1 minutes away |
| AdifImport.NewContactImported | crates/ham-core/src/adif.rs:203-253 | a record with a call, mode or band that no live QSO has is imported whenever it is acceptable by itself |
| AdifImport.RefusalExactly | crates/ham-core/src/proposal.rs:420-447 | a payload is accepted exactly when the job is, the four required texts are there, the start is a time and a frequency is a positive 64-bit number |
| AdifImport.StoredAs | crates/ham-core/src/adif.rs:225-243 | the event stored for a record: its type, entity, author, source and every key of its payload |
| AdifImport.ImportAdif | crates/ham-core/src/adif.rs:192-256 | the loop with its cached projection equals a run that rebuilds the projection for every record |
| AdifImport.RunAccounts | crates/ham-core/src/adif.rs:203-253 | imported + skipped + rejected = records, skipped = duplicates, one error for each rejection, and the log grows by the imported records |
| AdifImport.RunKeepsChain | crates/ham-core/src/adif.rs:225-243 | an import keeps the official log a valid chain |
| AdifImport.RunGrows | crates/ham-core/src/projection.rs:285-304 | an import leaves every QSO as it was and adds exactly the imported ones |
| AdifImport.StoredMatches | crates/ham-core/src/adif.rs:311-361 | a stored QSO matches the payload it was created from |
| AdifImport.SecondImportImportsNothing | crates/ham-core/src/adif.rs:192-256 | under Skip with a window of at least 0, a second import of the same text imports nothing, whatever was appended in between that neither deletes nor changes a QSO |
| AdifImport.IdempotentIff | crates/ham-core/src/adif.rs:192-256 | an immediate second import imports nothing exactly when the duplicate test can work (Skip, window at least 0, projection rebuilds) or no record is acceptable by itself; otherwise it imports every such record once more |
| Http.ReadHttpRequest | crates/ham-client/src/serve.rs:991-1028 | the reading loop computes the specified request |
| Http.RequestReads | crates/ham-client/src/serve.rs:991-1028 | a printed request reads back with names in lower case, values trimmed and the body cut at the last declared length |
| Http.GetReads | crates/ham-client/src/serve.rs:8044-8076 | the client's GET reads back whole |
| Http.PostReads | crates/ham-client/src/serve.rs:8078-8114 | the client's POST reads back whole, body and all |
| Http.ExtraHeaders | crates/ham-client/src/serve.rs:8116-8125 | the loop writes one line for each header |
| Http.ResponseWithHeaders | crates/ham-client/src/serve.rs:1482-1513 | the response is status line, headers, blank line and body |
| Http.ResponseRoundTrip | crates/ham-client/src/serve.rs:8127-8137 | for any body the client gets exactly it when the status is 200, and an error naming the status line for every other status |
| LanTrust.JsonLanTrustStore.TrustedPeer | crates/ham-core/src/sync/offline.rs:2261-2282 | finds the device, refuses it when unknown, revoked or of another logbook |
| LanTrust.JsonLanTrustStore.AuthorizePeer | crates/ham-core/src/sync/offline.rs:2284-2326 | prunes, refuses a seen nonce, checks trust, and saves only when everything passes |
| LanTrust.JsonLanTrustStore.RevokeDevice | crates/ham-core/src/sync/offline.rs:2328-2343 | marks the device revoked |
| LanTrust.NoncesChange | crates/ham-core/src/sync/offline.rs:2284-2379 | only an accepted authorization changes the nonce history |
| LanTrust.ReuseNeedsLateRequest | crates/ham-core/src/sync/offline.rs:2284-2379 | whatever the clock does, a nonce of a device is accepted a second time only if a request accepted since the first time, possibly this one, came more than 600 s after it |
| LanTrust.NonceReuseIsLate | crates/ham-core/src/sync/offline.rs:2284-2379 | over any run in which the clock does not step back, one nonce of one device is accepted twice only more than 600 s apart |
| LanTrust.ReplayAcceptedIff | crates/ham-core/src/sync/offline.rs:2284-2379 | after any operations and with any clock, a request that repeats an accepted nonce, not accepted since, is accepted exactly when the device is trusted for the logbook and this request, or one accepted in between, came more than 600 s after the first |
| LanTrust.ClockBackReplays | crates/ham-core/src/sync/offline.rs:2284-2379 | a replay accepted one nanosecond later: the clock jumped ahead, another request was accepted, and the clock was set back |
| LanTrust.RevokedStaysOut | crates/ham-core/src/sync/offline.rs:2328-2375 | a revoked device is refused for ever unless it is trusted anew |
| LanTrust.RevocationSticks | crates/ham-core/src/sync/offline.rs:2328-2343 | a device that was revoked and not trusted anew since is refused whatever it asks, after any operations |
| LanTrust.OperationOnDevice | crates/ham-core/src/sync/offline.rs:2203-2343 | what each operation makes of the device it names: an active one with an unseen nonce is authorized, an active one can change to another credential, any can be revoked, trusting replaces it, and nothing else about it changes |
| LanTrust.TrustedIsStored | crates/ham-core/src/sync/offline.rs:2203-2224 | a device that is trusted is stored under its id, new or not |
| LanTrust.OtherDevicesStay | crates/ham-core/src/sync/offline.rs:2203-2343 | no operation touches the device of another id |
| LanAuth.ConstantTimeEq | crates/ham-core/src/sync/offline.rs:2441-2450 | comparing every byte finds exactly equality |
| LanAuth.SignatureBinds | crates/ham-core/src/sync/offline.rs:2391-2426 | without a collision, a signature fits another request exactly when device, logbook, verb up to case, target and nonce are the same |
| LanAuth.AcceptedExactly | crates/ham-client/src/serve.rs:6751-6886 | a request is accepted exactly when its four headers are there and well formed, it is signed with the secret of a device trusted and not revoked for the logbook, over its own verb and target, and its nonce has not been seen |
| LanAuth.AcceptedWasIssued | crates/ham-core/src/sync/offline.rs:2391-2426 | an accepted request that carries a signature issued for some request has that request's device, logbook, verb up to case, target and nonce |
| LanAuth.Endpoint.RequireLanEndpointAuth | crates/ham-client/src/serve.rs:6751-6846 | result and trust file are those of the specified sequence of checks |
| LanAuth.RefusalChangesNothing | crates/ham-client/src/serve.rs:6751-6846 | a refused request leaves the trust file as it was; an accepted one records its nonce |
| LanExchange.QueryNames | crates/ham-client/src/serve.rs:6731-6749 | the logbook id in a query is decoded to the served logbook |
| LanExchange.OnlyServed | crates/ham-client/src/serve.rs:6731-6749 | a request is only ever answered for the served logbook |
| LanExchange.LastLogbookDecides | crates/ham-client/src/serve.rs:6731-6749 | the last logbook a query names decides: left empty it is the served one, otherwise 400 for no id and 403 for another logbook |
| LanExchange.ServeExactly | crates/ham-client/src/serve.rs:6660-6749 | a sync read is answered exactly when it asks for the served logbook and passes the trust checks for it; a refusal is 400 for an unreadable id, 403 otherwise, and changes nothing |
| LanExchange.CredentialsArrive | crates/ham-client/src/serve.rs:6848-6886 | the four signed headers survive printing and parsing |
| LanExchange.HonestRequestAccepted | crates/ham-client/src/serve.rs:7988-8025 | signed, printed, parsed and checked, the request of a mutually trusted peer with a shared secret, the served logbook and a fresh nonce always succeeds |
| UuidText.UuidRoundTrip | crates/ham-client/src/serve.rs:8017 | a printed UUID parses back |
| Discovery.SyncUiState.HandleSyncDiscovery | crates/ham-client/src/serve.rs:5887-5934 | the field updates are a Start or Stop step and hand out the generation of the worker to start |
| Discovery.SyncUiState.LanDiscoveryIsRunning | crates/ham-client/src/serve.rs:6353-6359 | the check workers make: running, and their generation is the current one |
| Discovery.ReachableStates | crates/ham-client/src/serve.rs:6292-6359 | in every interleaving: running exactly when the generation is odd; over the lists of pending and started workers no generation occurs twice, and every odd one so far occurs; at most one started worker passes the check; while running one does, or is about to start, and it has not stopped |
| Discovery.StaleWinds | crates/ham-client/src/serve.rs:6303-6327 | a stale worker stays stale, begins no cycle and finishes at most the one it is in |
| Discovery.StaleStops | crates/ham-client/src/serve.rs:6339-6359 | its next look at the state ends it |
| Discovery.StopMakesStale | crates/ham-client/src/serve.rs:5900-5915 | stopping makes every issued worker stale, and starting again does not revive it |
| Sweep.StepConserves | crates/ham-client/src/serve.rs:6138-6168 | queue, probes under way and finished targets together stay the original multiset |
| Sweep.SweepResult | crates/ham-client/src/serve.rs:6132-6181 | at the end every target was probed as often as it was listed, and the totals depend on the answers alone, for every schedule and number of workers |
| Sweep.SweepEnds | crates/ham-client/src/serve.rs:6132-6181 | every schedule ends, after at most two steps a target and one a worker |
| Sweep.JoinWorkers | crates/ham-client/src/serve.rs:6169-6181 | joining adds responses and unites ids |
| Sweep.TallyObservations | crates/ham-client/src/serve.rs:6101-6121 | counts recorded observations, with at least as many as distinct ids |
| Sweep.ScanFindsPeers | crates/ham-client/src/serve.rs:6057-6099 | peers found is the size of the union of both passes and at most observations plus responses |
| Sweep.RecordedRegardless | crates/ham-client/src/serve.rs:6210-6226 | what is recorded for a peer does not depend on what the registry knew, and different peers have different ids |
| Sweep.ObservedExactly | crates/ham-core/src/sync/mod.rs:166-216 | a probed identity is ignored exactly when it is the local one, known exactly when its id was, and new otherwise |
| Sweep.RecordedExactly | crates/ham-client/src/serve.rs:6101-6121 | the ids counted are exactly those recorded, as often as they were |
| OfflineQueue.EnqueueAppendsLast | crates/ham-core/src/sync/offline.rs:495-526 | a new mutation comes after every mutation of its logbook and keeps the file valid |
| OfflineQueue.EnqueueTwice | crates/ham-core/src/sync/offline.rs:495-526 | enqueueing the same input again, whatever was enqueued or changed status in between, stores nothing and returns the stored mutation, unless only its key had matched and another one has since taken the operation id |
| QueueEntries.EnqueueExactly | crates/ham-core/src/sync/offline.rs:195-253 | an input is answered with the entry of its logbook that repeats it, or stored last as a pending entry due at once, or refused for a blank type or key or a dependency on a later schema |
| QueueEntries.NextExactly | crates/ham-core/src/sync/offline.rs:414-425 | the sequence given out is after every one in use, not before the stored counter, and no later than these ask |
| QueueEntries.GivenEvent | crates/ham-core/src/sync/offline.rs:565-577 | an entry given its event names it and keeps its entity; one held back or refused is due again |
| QueueEntries.ChangesAlike | crates/ham-core/src/sync/offline.rs:565-672 | every change keeps the entry, is dated, counts an attempt only when sending starts, leaves a time to wait for only while retrying, and a reason exactly when the entry was neither sent nor given its event |
| QueueEntries.AcceptedByHash | crates/ham-core/src/sync/offline.rs:674-699 | an entry is accepted exactly when it was already or its event is among the accepted ones |
| QueueEntries.RecoveredIsDue | crates/ham-core/src/sync/offline.rs:1045-1057 | an entry interrupted in sending is due at once, and no other changes |
| QueueEntries.SendingCounted | crates/ham-core/src/sync/offline.rs:1045-1057 | recovering reports the number of entries that were being sent |
| QueueEntries.AcceptancesCounted | crates/ham-core/src/sync/offline.rs:674-699 | accepting by hash reports the number of entries newly accepted |
| QueueStore.EnqueueKeepsDistinct | crates/ham-core/src/sync/offline.rs:495-526 | operation ids stay apart exactly when nothing is stored or the id is not in the file, under any logbook |
| OfflineQueue.RetrySeconds | crates/ham-core/src/sync/offline.rs:1034-1043 | the delay is at least a second and at most the configured maximum |
| OfflineQueue.RetryExactly | crates/ham-core/src/sync/offline.rs:1034-1043 | the delay is the base delay times two to the number of earlier attempts, sixteen doublings at most, within 64 bits and the maximum, and a second at least |
| OfflineQueue.RetryDoubles | crates/ham-core/src/sync/offline.rs:1034-1043 | one more attempt doubles the delay as long as the maximum allows |
| OfflineQueue.UpdateValid | crates/ham-core/src/sync/offline.rs:818-834 | a status change keeps the file valid and every entry's identity |
| QueueStore.JsonOfflineMutationQueue.EnqueueInput | crates/ham-core/src/sync/offline.rs:495-526 | result and file are those of the specification |
| QueueStore.JsonOfflineMutationQueue.UpdateMutation | crates/ham-core/src/sync/offline.rs:818-834 | changes the first mutation with the id, and no other |
| QueueStore.JsonOfflineMutationQueue.MarkAcceptedByEventHashes | crates/ham-core/src/sync/offline.rs:674-699 | accepts exactly the mutations with one of the hashes and counts the newly accepted |
| QueueStore.JsonOfflineMutationQueue.RecoverInterruptedWrites | crates/ham-core/src/sync/offline.rs:1045-1057 | leaves nothing in sending and counts what it recovered |
| QueueStore.UpdateAllAt | crates/ham-core/src/sync/offline.rs:818-834 | several updates leave the named mutations in a state of the change and the others untouched |
| QueueDrain.ReadyInOrder | crates/ham-core/src/sync/offline.rs:967-1010 | ready mutations are in sequence order, due and unblocked, and nothing unaccepted with a smaller sequence is left out |
| QueueDrain.ReadyEventBatch | crates/ham-core/src/sync/offline.rs:784-816 | the loop computes the batch of the ready mutations |
| QueueDrain.BatchMatches | crates/ham-core/src/sync/offline.rs:784-816 | position by position the batch holds the ready operations and their own events, up to the first without one |
| QueueDrain.SentExactly | crates/ham-core/src/sync/offline.rs:784-816 | a batch sends exactly the unaccepted mutations of the logbook that, with every unaccepted one before them, are due, unblocked and have their event |
| QueueDrain.SendableExactly | crates/ham-core/src/sync/offline.rs:967-1032 | sendable means pending or retrying and due, every dependency accepted by operation and by event and within schema 1, and its event in the log |
| CloudPush.PushEvents | crates/ham-core/src/sync/mod.rs:1234-1297 | the loop over a request computes the specified push and its reply, error text included |
| CloudPush.DivergedExactly | crates/ham-core/src/sync/mod.rs:741-752 | a reply is diverged exactly when the push ended at an event that does not continue the head, or at one of an unsupported type whose name mentions "previous hash" or "does not connect" |
| CloudPush.PushedEventsStored | crates/ham-core/src/sync/mod.rs:1234-1297 | a push keeps the server store valid, loses nothing, and without errors stores every event sent |
| CloudPush.RunCloudPush | crates/ham-client/src/serve.rs:7388-7613 | queue file, server store and events sent are those of the specification |
| CloudPush.BatchIsSettled | crates/ham-client/src/serve.rs:7487-7613 | no operation of the batch stays in sending, and each is accepted exactly when the server reported no errors |
| CloudPush.PreparedExactly | crates/ham-client/src/serve.rs:7440-7509 | what preparing a push does to each entry: sending with one attempt more, handed to the operator for want of its event, or nothing |
| CloudPush.PushLeaves | crates/ham-client/src/serve.rs:7487-7613 | what a push leaves of each operation sent, read off the server: accepted; blocked for a previous hash that does not fit; handed to the operator as rejected for any other fault; or, when the request was refused, retried after the doubling delay and failed once the attempts are used up |
| CloudPush.AcceptedMeansStored | crates/ham-client/src/serve.rs:7487-7613 | an accepted operation of the batch has its official event in the server store |
| CloudPush.OthersUntouched | crates/ham-client/src/serve.rs:7487-7613 | a mutation outside the batch that shares no event with it is unchanged |
| CloudPush.QueueOnlySendsBatch | crates/ham-client/src/serve.rs:7440-7509 | queue-only mode sends exactly the batch, in sequence order |
| CloudPush.PushKeepsFile | crates/ham-client/src/serve.rs:7388-7613 | a push keeps the queue file valid |
| OfflineSubmit.SubmitOfflineTracked | crates/ham-client/src/serve.rs:4352-4421 | the disks it passes through are, write by write, queue entry first, then the event, then its hash, or the refusal; nothing at all when queueing fails |
| OfflineSubmit.EntryComesFirst | crates/ham-client/src/serve.rs:4352-4421 | stopped after any write, whenever the log has grown the entry is there |
| OfflineSubmit.EveryEventHasEntry | crates/ham-client/src/serve.rs:4352-4421 | over any run of submissions, each stopped anywhere, the log grows by exactly the tracked events and each has its queue entry |
| OfflineSubmit.SubmissionLeaves | crates/ham-client/src/serve.rs:4352-4421 | carried through, a refused proposal leaves its entry to the operator with the reason and no event; an accepted one leaves it naming the event appended at the head |
| OfflineRun.WholePush | crates/ham-client/src/serve.rs:7388-7613 | a push not stopped does what run_cloud_push is specified to do |
| OfflineRun.RunKeeps | crates/ham-client/src/serve.rs:4352-4421 | over any run of submissions, recoveries and pushes, each stopped anywhere: the queue file stays valid with one entry for each operation, entries keep content and event, accepted ones stay accepted, new ones come last in their logbook, log and server only grow, and whatever became accepted is on the server |
| OfflineRun.CompletedIsSent | crates/ham-client/src/serve.rs:7388-7509 | a submission carried through has its event in its entry and in the log after any run; it is accepted only with that event on the server, and a push sends it exactly when it is unaccepted and no unaccepted entry up to it is undue, blocked or without its event |
| OfflineRun.UnfinishedBlocks | crates/ham-client/src/serve.rs:4352-4421 | a submission refused, or stopped after its entry and before its hash is recorded, leaves an entry without an event for ever; neither it nor any later entry of the logbook is in a batch again |
| OfflineRun.CutPushResumes | crates/ham-core/src/sync/offline.rs:701-709 | a push cut short before its answer is acted on, then recovered, loses nothing: every operation of its batch is in the next one |
| OfflineRun.CutSettlingLeaves | crates/ham-client/src/serve.rs:7487-7613 | a push stopped between its settling writes, then recovered: operations settled already are accepted or as the failure leaves them, the others are due to be sent again |
| CorrectiveReview.HandleCorrectiveEvents | crates/ham-client/src/serve.rs:5314-5444 | log, reviews and answer are those of the specification |
| ProposalTypes.PassesExactly | crates/ham-client/src/serve.rs:4306-4350 | a proposal passes exactly when its payload is an object and its trimmed type is one of the supported ones, with an entity unless it begins something new |
| ProposalTypes.RefusedExactly | crates/ham-client/src/serve.rs:5314-5364 | a request is refused beforehand exactly when it has no proposals, a note over 4096 bytes, a faulty proposal, or no open review |
| ProposalTypes.NoteExactly | crates/ham-client/src/serve.rs:5404-5410 | the note is kept exactly when it is not blank |
| CorrectiveReview.JsonConflictReviewStore.ResolveReview | crates/ham-core/src/sync/offline.rs:1419-1439 | resolves the review found, unless the resolution is refused |
| CorrectiveReview.ResolveExactly | crates/ham-core/src/sync/offline.rs:1413-1440 | a resolution goes through exactly when the review is there, its note is no longer than 4096 bytes and some hash is not blank; the first review with the id is then resolved and nothing else changes |
| CorrectiveReview.AcceptedPrefix | crates/ham-client/src/serve.rs:5365-5402 | the events appended are those of the proposals before the first rejected one, in order |
| CorrectiveReview.ResolvedIff | crates/ham-client/src/serve.rs:5314-5444 | an open review is resolved exactly when nothing was refused beforehand, every proposal was accepted and some new hash is not blank; it records exactly the new hashes in order, and otherwise stays open with the accepted prefix in the log |
| CorrectiveReview.CorrectionsKeepChain | crates/ham-client/src/serve.rs:5365-5402 | corrective events keep the official log a valid chain |
| Awards.ComputeAwardProgress | crates/ham-core/src/awards.rs:127-176 | the pass over the QSOs computes the grouping of the eligible ones |
| Awards.RebuildFromQsos | crates/ham-core/src/awards.rs:77-82 | one progress for each definition |
| Awards.GroupedInOrder | crates/ham-core/src/awards.rs:138-166 | credits are in strictly increasing key order |
| Awards.GroupedFor | crates/ham-core/src/awards.rs:138-166 | each key's credit lists exactly the eligible QSOs with that key in order, and is confirmed exactly when one of them is |
| Awards.EveryEntryOnce | crates/ham-core/src/awards.rs:138-166 | the id lists together hold the ids of the eligible QSOs, each as often as it occurs |
| Awards.CountsAreKeys | crates/ham-core/src/awards.rs:167-175 | the counts are the numbers of distinct keys and of distinct confirmed keys |
| Awards.CountsGrow | crates/ham-core/src/awards.rs:127-176 | adding QSOs never lowers a count |
| Awards.CountsPermute | crates/ham-core/src/awards.rs:127-176 | reordering the QSOs changes neither count |
| Awards.DeletedDoNotCount | crates/ham-core/src/awards.rs:127-176 | progress is that of the QSOs not deleted |
| Awards.DeletingLeavesOut | crates/ham-core/src/awards.rs:127-176 | marking a QSO deleted is the same as leaving it out |
| Awards.CreditsExactly | crates/ham-core/src/awards.rs:127-176 | the credit of a key lists, in order, exactly the live QSOs whose field is a number, a truth value or a text that trims and capitalises to it, and that are confirmed if the rule asks; it is confirmed exactly when one of them is |
| Awards.CreditNamed | crates/ham-core/src/awards.rs:208-245 | a credit is named by its first QSO: the entity for DXCC, the key otherwise |
| Awards.ProgressFor | crates/ham-core/src/awards.rs:127-176 | a progress belongs to its definition, counts its credits and the confirmed ones among them, and lists what is missing exactly for a placeholder with a rule |
| Bus.InMemoryEventBus.Publish | crates/ham-core/src/bus.rs:235-248 | the buffer holds exactly the last events of the history, in order |
| Bus.InMemoryEventBus.ReplayRuntimeEvents | crates/ham-core/src/bus.rs:254-268 | replay answers from the last events of the history |
| Bus.ReplayedIsLastMatching | crates/ham-core/src/bus.rs:254-268 | a replay is the last matching events, as many as asked for, newest first |
| Bus.PartsDecide | crates/ham-core/src/bus.rs:101-143 | an event matches exactly when severity, category, source, text and the other parts of the filter each allow it |
| Bus.SeverityDecides | crates/ham-core/src/bus.rs:101-143 | only events of the severity asked for |
| Bus.CategoryDecides | crates/ham-core/src/bus.rs:84-99 | only events of the category asked for |
| Bus.SourceDecides | crates/ham-core/src/bus.rs:101-143 | only events of the source asked for |
| Bus.TextDecides | crates/ham-core/src/bus.rs:101-143 | only events that hold the text, up to case, in type, source, summary or error put in a line |
| Bus.BufferRefinesHistory | crates/ham-core/src/bus.rs:235-268 | replay from the buffer is a prefix of replay from the full history, and all of it exactly when enough matches are kept |
| Redaction.RedactFixes | crates/ham-core/src/bus.rs:146-163 | redaction changes exactly the values with something other than the marker under a secret-like key |
| Redaction.SecretExactly | crates/ham-core/src/bus.rs:165-180 | a key is secret-like exactly when it holds one of the nine words, up to case |
| Redaction.RedactIdempotent | crates/ham-core/src/bus.rs:146-163 | redacting twice is redacting once |
| Redaction.NoSecretsUnchanged | crates/ham-core/src/bus.rs:146-180 | a value without secret-like keys is unchanged |
| Redaction.RedactedAt | crates/ham-core/src/bus.rs:146-163 | place by place: paths without a secret-like key stay, with the redacted value; a first secret-like key leads to the marker and to nothing below it |
| SchemaCheck.CompareSchema | scripts/check_api_contract.py:32-64 | appends to the list, and the set of errors added is exactly the specified findings |
| SchemaCheck.NoFindingsIff | scripts/check_api_contract.py:32-64 | no error exactly when the change is compatible |
| SchemaCheck.FindingsByPath | scripts/check_api_contract.py:32-64 | the errors reported are exactly what is wrong at the paths the comparison reaches, each under the name of its path and with the values it is about |
| SchemaCheck.PassesIffPathsOk | scripts/check_api_contract.py:32-64 | no error exactly when at every path reached the types are equal, no enum value is removed, no field is newly required, nullability is not narrowed and every property remains |
| SchemaCheck.CompatibleReflexive | scripts/check_api_contract.py:32-64 | an unchanged schema passes |
| SchemaCheck.CompatibleTransitive | scripts/check_api_contract.py:32-64 | two passing changes through a schema of objects with explicit nullable make a passing change |
| SchemaCheck.TransitiveIffGapless | scripts/check_api_contract.py:32-64 | transitivity through a schema holds exactly when every node of it is an object with explicit nullable |
| SchemaCheck.GapHidesChange | scripts/check_api_contract.py:32-64 | for any other schema, a breaking change that two checks let through |

## Left out

- Sockets, timeouts, multicast, file reads and writes and their failures, JSON
  encoding, and runtime messages on the event bus.
- SHA-256 and HMAC themselves; leap seconds in times (`:60` is refused here); Unicode
  white space in trimming, and slices that would cut a UTF-8 character.
- Integer overflow of lengths past 64 bits in the ADIF scanner, saturation of 64-bit
  sequence numbers and wrap-around of the discovery generation.
- The conventions of the chrono and uuid crates are modelled from their documented
  behaviour; their code is not part of this model.
- ADIF export with a start outside the UTC years 0 to 9999: the date then has more
  than the eight digits announced, so AdifRoundTrip.ExportParses asks for such years.
- The order in which a hash map lists QSOs, activations or JSON keys: any order is
  allowed, and the theorems do not depend on it.
- Event bus failures after an append during ADIF import, which would count an imported
  record as rejected.
- Pairing tokens and credential storage on the LAN; the registry's addresses and
  expiry times; the network scan's port and address lists.
- The queue file's order on disk, its migration from older versions and its quarantine;
  conflict reports and the other resolutions of a review.
- Station profile selections, which queue and accept an entry of their own; a write of
  a file that fails while the program goes on.
- Cloud sessions and their tokens: a push is refused or not by an argument.
- Activation, net and emergency-communications proposals and their projections; the
  permission checks of a proposal are one argument of an import.
- The part of the contract check that compares paths, methods, status codes and error
  codes, which would only add easy members.
- A schema whose enum or required entry is not a list, or whose properties entry is not
  an object, stops the script; here such an entry counts as absent. Python's equality
  of 1 and True is not modelled.
- A QSO created from a text, a number, a truth value or a list stops the program inside
  the projection; here such a log cannot be folded (`Projection.RebuildsIff`).
- The restore of station book, upload queue and map layers from a backup: plain
  overwrites.
- Account, rig, map, weather and provider handlers and the user interface.
