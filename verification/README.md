# Verified model of the ClamAV service

A Dafny model of the parts of the service where a mistake would lose an upload, misreport a verdict or
leave two stores disagreeing: the asynchronous scan queue, the streaming path from a client to the
clamd daemon, the quarantine vault, the YARA rule manager, the counters that limit calls and alerts,
the `.env` key file, and the arithmetic of the address filter, the archive inspection and the stored
time stamps. `dafny verify dfyconfig.toml` checks everything.

## How it is built

- `Basics`, `Text`, `Hex`, `Bits`, `Readers`: bytes, the string functions of Go that are used,
  hexadecimal text, bit operations digit by digit, and `io.Reader` as an adversary. A `Source` follows
  a script of short reads, empty reads, data together with the end, and failures.
- `AsyncQueue`, `QueueInvariant`, `QueueTheorems`, `QueueService`: the queue as a transition system
  with one event per effect (submitters, workers, close, and the other users of the vault, in any
  order), its inductive invariant, the theorems on all reachable states and runs, and the sequential
  code on its own tables, spool directory, channel and vault, each of whose calls is shown to refine a
  run of the protocol. What the scanner promises the protocol is what `Clamd.ScanStream` guarantees.
- `Clamd`, `ScanService`, `SafeFetch`, `AddressFilter`: framing, reply parsing, the gRPC and HTTP
  scans, the bounded body reader, dial and redirect checks.
- `Vault`, `Aes`, `RestoreRace`: stored forms, records, whitelist, every sequence of vault operations,
  and restorations that run at the same time.
- `YaraLexer`, `YaraManager`: the brace counter against a reference lexer, and the rule stores with
  rollback.
- `Keygen`, `RateLimit`, `Throttle`, `Archive`, `Timestamps`: one module for each source file named at
  its top.

What the source changes in place is a class whose methods are proved against functions of the state
(`Vault.Store`, `YaraManager.Manager`, `QueueService.Queue`, `Keygen.EnvFile`, `RateLimit.Limiter`,
`Throttle.Notifier`, `SafeFetch.BoundedReader`, `ScanService.Service`); the theorems are about these
functions and about runs of them.

## Assumptions

- IDs drawn from the clock, from random bytes or from uuid are distinct, also across the tables that
  share them. The clock does not go backwards.
- SHA-256 is an arbitrary function. AES-GCM is any pair of functions in which opening undoes sealing
  under the same key and nonce (`Aes.Sound`); nothing is assumed about forged texts.
- SQL statements are map operations that succeed or fail as a whole, except where the source itself
  issues two of them. File and database faults, cancellations, answers of the daemon, of the resolver
  and of webhook receivers are inputs or free choices.
- The daemon's answer is a function of the bytes it decodes from the stream.
- A character of a Go string is a Dafny `char`. Time is counted in nanoseconds.

## What the proofs brought to light

Each of these is how the code behaves; the model follows the code.

- A job that finds the channel full is dropped for good while its caller gets a success: its QUEUED
  row and its spool file stay (`QueueTheorems.LeftoversAtRest`). A send after `Stop` panics.
- A failed scan posts no webhook, a failed open does (`QueueTheorems.WebhooksMatchRow`).
- The asynchronous path does not ask the whitelist (`QueueTheorems.RunsIgnoreWhitelist`,
  `QueueTheorems.ListedIsIsolated`).
- A webhook about an infection claims a quarantine even when there was none
  (`QueueTheorems.ActionUnfounded`); it is founded exactly if the vault accepts what it is given
  (`QueueTheorems.WebhooksMatchRow`, `QueueService.Queue.ProcessJob`).
- When the spool file cannot be rewound, the error is ignored and an empty file is quarantined in place
  of the upload (`QueueTheorems.IsolatedIsUpload`).
- The vault falls back to scrambling when no key can be ensured, and a scrambled file cannot be read
  back if its bytes look encrypted (`Vault.DecryptsStoredForm`).
- A virus name that contains "OK" makes an infected reply read as clean
  (`Clamd.FoundReplyUnderstood`).
- A remote body of exactly the maximum size is accepted or refused depending on whether its reader
  reports the end together with the last bytes (`SafeFetch.BoundedReader.ReadAll`); of payloads
  that meet no fault the vault accepts exactly those up to its limit (`Vault.QuarantineAccepts`).
- The purge goes by a fixed seven days, so a longer retention is cut short (`Vault.PurgedEarly`). The
  repository's README promises a seven-day retention; the code takes the retention as a parameter.
- The restore handler of the HTTP API does not look at the status of a record, so any number of
  restorations through it succeed (`Vault.ApiRestoresAgain`).
- The vault's own restoration looks at the status, but holds no lock until the update: two calls at the
  same time can both succeed (`RestoreRace.OverlapRestoresTwice`).
- A restoration can change the status and still report an error (`Vault.Store.Restore`).
- The reader of the `.env` file accepts space before the equals sign, the writer does not, so a key may
  be written below a line that still shadows it (`Keygen.WrittenKeyFound`).
- Inserting a block comment right after a slash in code hides what follows
  (`YaraLexer.CommentAfterSlashHides`).
- An archive entry that carries the declared total past the range of int64 goes unnoticed, and an
  archive whose totals avoid the window between the limit and 2^63 passes (`Archive.InspectUnbounded`,
  `Archive.OverflowPasses`).

## Model

| member | source | states |
|---|---|---|
| QueueInvariant.InvKept | internal/asyncscan/queue.go:137-393 | one effect of any submitter, worker or closer, and any operation of others on the vault, deletions and purges included, keeps the invariant that links channel, workers, rows, spool files, audit rows, webhooks and vault |
| QueueInvariant.RunsKeepInv | internal/asyncscan/queue.go:137-393 | the invariant holds after every interleaving with any faults |
| QueueTheorems.ExactlyOneSpot | internal/asyncscan/queue.go:180-225 | an inserted job is in exactly one place: unsent, on the channel once, with one worker, finished, dropped, or lost to a send after close |
| QueueTheorems.LeftoversAtRest | internal/asyncscan/queue.go:180-241 | at rest the QUEUED rows and the leftover spool files are exactly those of the dropped jobs |
| QueueTheorems.SpoolFollowsJob | internal/asyncscan/queue.go:157-304 | a queued job has its whole upload in the spool, the open failure needs a disk fault, and a finished job has no spool file whichever exit was taken |
| QueueTheorems.StatusNeverMovesBack | internal/storage/sqlite.go:642-651 | between any two moments of a run the status does not move back and a terminal row does not change, whichever updates fail |
| QueueTheorems.RowFollowsWork | internal/asyncscan/queue.go:219-350 | in every reachable state, the row of a job no write failed for is QUEUED until a worker has marked it, PROCESSING up to the write of its outcome, then COMPLETED for a report, and otherwise FAILED with the verdict ERROR and neither name nor digest |
| QueueTheorems.CompletedIsTrue | internal/asyncscan/queue.go:244-349 | a COMPLETED row has the digest of the whole upload and the verdict and name the daemon gives for it (clean exactly if its reply has "OK", infected exactly if it has "FOUND" and no "OK"), one audit row that agrees, and a quarantine ID that is the one record added for the job; as long as record and file are there, they are about the bytes read back from the spool |
| QueueTheorems.IsolatedIsUpload | internal/asyncscan/queue.go:293-302 | that file, while it is there, decrypts to the upload exactly if the spool file was rewound (or is empty) and the upload is storable, for every vault key |
| QueueTheorems.VaultRuns | internal/asyncscan/queue.go:293-302 | seen from the vault, every run of the queue and all others is a run of vault operations, so that the theorems on those apply |
| QueueTheorems.IsolatedUnlessTaken | cmd/server/main.go:218-231 | through any run, an isolated file stays with its record exactly if no deletion of it and no purge that finds it too old comes by |
| QueueTheorems.IsolatedStays | internal/asyncscan/queue.go:293-302 | in runs without deletions and purges, every record added for a job stays, with its file |
| QueueTheorems.WebhooksMatchRow | internal/asyncscan/queue.go:306-393 | at most three webhooks, each equal to the terminal row; a scan error sends none; the claimed quarantine is true exactly if the vault accepts what it was given, and then the ID of the one record added for the job is sent with it |
| QueueTheorems.ActionUnfounded | internal/asyncscan/queue.go:293-341 | when the payload cannot be read back, no record is added and the webhook claims a quarantine all the same |
| QueueTheorems.RunsIgnoreWhitelist | internal/asyncscan/queue.go:211-350 | from two states that differ in the whitelist only, the queue has the same runs and ends with the same jobs, workers, files and records |
| QueueTheorems.ListedIsIsolated | internal/asyncscan/queue.go:293-302 | the queue records an upload whose digest is listed, where a scan over HTTP or gRPC of the same bytes records none |
| QueueTheorems.WorkDecreases | internal/asyncscan/queue.go:211-393 | every worker step uses up a measure over channel, program points and webhook attempts |
| QueueTheorems.WorkAfterCloseIsBounded | internal/asyncscan/queue.go:127-134 | after close the number of worker steps is bounded by that measure, whatever else happens |
| QueueTheorems.NoWorkerBlocks | internal/asyncscan/queue.go:211-217 | after close every worker that has not stopped can take a step |
| QueueTheorems.StopReturns | internal/asyncscan/queue.go:127-134 | from every closed state the workers run to their end within the measure |
| QueueTheorems.StopDrains | internal/asyncscan/queue.go:127-134 | when all workers have stopped, each job that was sent is done and has a terminal row unless a write of that row failed |
| QueueService.Queue.CopyUpload | internal/asyncscan/queue.go:165-170 | the copy to the spool directory, for every behaviour of the reader, refines a run of the protocol and ends with the whole upload or with an aborted job |
| QueueService.Queue.SubmitJob | internal/asyncscan/queue.go:157-201 | the call refines a run of the protocol; it succeeds exactly when copy and insert do and the queue is open, and then the row is QUEUED, the spool file holds the upload, and the job is on the channel or dropped |
| QueueService.Queue.DispatchWebhook | internal/asyncscan/queue.go:353-393 | the webhooks sent tell the outcome, and their number is fixed by the answers: one if the first is an acceptance, two or three after one or two answers worth a retry, three at most, and none from a blocked attempt on |
| QueueService.Queue.StreamFile | internal/asyncscan/queue.go:244-250 | the tee in front of the daemon has seen the whole spool file whenever the scan returns without error, and the outcome is what the daemon says of it |
| QueueService.Queue.HandOver | internal/asyncscan/queue.go:295-301 | the vault is given exactly what the rewound file holds, or nothing of it without the rewinding, whenever the file can be read; an ID comes back exactly if the vault accepts it |
| QueueService.Queue.ProcessJob | internal/asyncscan/queue.go:219-350 | the call, on its own tables, spool, vault and daemon, refines a run of the protocol that takes a received job to its end; an opened file is reported whenever the daemon answers; an infected one gets an ID if and only if there is a vault, and limit, nonce, write and insert let it accept what is read back; whatever the outcome, scanned, infected or not opened, the webhook about it leaves exactly as often as the answers to its attempts make it, and it does not leave after a failed scan; no fault is added when all calls work |
| QueueService.Queue.Worker | internal/asyncscan/queue.go:211-217 | after close the loop takes every job that is left on the channel and stops |
| QueueService.Queue.Elsewhere | internal/asyncscan/queue.go:293-302 | whatever operation others did to the shared vault in the meantime, the queue goes on refining the protocol |
| QueueService.PurgeBeside | cmd/server/main.go:218-231 | the hourly purge of the vault keeps the queue a refinement of the protocol |
| QueueService.DeleteBeside | internal/api/server.go:676-692 | so does the deletion of a quarantined file |
| QueueService.RestoreBeside | internal/quarantine/vault.go:146-177 | so does a restoration |
| QueueService.ScanBeside | internal/api/server.go:242-352 | so does a scan over HTTP or gRPC on the same vault |
| QueueService.DoneIsTold | internal/asyncscan/queue.go:219-393 | for a job the code is done with, its own tables have the row of the outcome (COMPLETED for a report, FAILED with ERROR otherwise), the one audit row, no spool file and only webhooks of the outcome, each unless the call for it failed, whatever others do to the vault between calls |
| QueueService.TablesAreTrue | internal/asyncscan/queue.go:219-350 | a COMPLETED row in the table of the code has the digest of the upload and the daemon's verdict on it, and audit row and webhooks agree |
| Clamd.UnframeFramed | internal/clamd/client.go:134-171 | decoding length-framed chunks up to the zero length returns the chunks |
| Clamd.FramedUnframe | internal/clamd/client.go:151-171 | whatever decodes is the framing of what it decodes to: the format is unambiguous |
| Clamd.SendPayload | internal/clamd/client.go:141-166 | for every behaviour of the reader, success means that every byte left in a non-empty frame, and each failure has its cause |
| Clamd.ScanStream | internal/clamd/client.go:127-180 | an outcome without error is CLEAN or INFECTED, comes only after the reader was read to its end, and is the daemon's answer to exactly the whole input: CLEAN exactly if the reply says so, INFECTED exactly if it does, and an error for every other reply; nothing else comes out when nothing goes wrong |
| Clamd.ReadUntilNull | internal/clamd/client.go:210-231 | through any byte-wise reader, the text before the first NUL, newline or end |
| Clamd.LineCuts | internal/clamd/client.go:210-231 | that text is a prefix of the reply without NUL and newline, and one of these follows it unless it is all of the reply |
| Clamd.ReplyDecides | internal/clamd/client.go:182-208 | for every reply: clean if and only if "OK" stands somewhere in its line, infected if and only if "FOUND" does and "OK" does not, and an error in every other case, the daemon's own exactly if "ERROR" does |
| Clamd.ErrorReply | internal/clamd/client.go:202-205 | a text without "OK" and "FOUND" that ends in " ERROR", as for an upload over the daemon's limit, is an error and no verdict |
| Clamd.CleanReply | internal/clamd/client.go:182-192 | "stream: OK" is clean, whatever comes after its NUL |
| Clamd.WireBytes | internal/clamd/client.go:134-171 | the command is "zINSTREAM" with a NUL, and a length goes out as four bytes, the highest first |
| Clamd.FoundReplyUnderstood | internal/clamd/client.go:182-208 | the reply for a virus name yields INFECTED with that name if and only if the name is non-empty, does not start with space, and has no colon, NUL, newline or "OK" inside |
| ScanService.Reassemble | internal/grpcserver/server.go:145-168 | the receive loop accepts exactly unbroken streams within the limit and yields the chunks in order with the last metadata |
| ScanService.PiecesMakePayload | internal/grpcserver/server.go:145-168 | however an upload is cut into chunks, what is scanned is the upload |
| ScanService.MetaCarriesNoPayload | internal/grpcserver/server.go:153-156 | metadata anywhere in the stream do not change the payload, and the last ones count |
| ScanService.GateDecides | internal/grpcserver/server.go:185-188 | the checksum gate, against an independent decoder: without an expectation nothing is refused, and otherwise exactly what does not decode to the digest, in whatever letter case |
| ScanService.Service.Judge | internal/api/server.go:242-352 | whitelist, daemon, quarantine and audit row follow the answer owed to the payload, which is reached whenever nothing goes wrong; a clean verdict needs a reply with "OK", an infected one a reply with "FOUND" and without "OK" |
| ScanService.AnswerDecides | internal/api/server.go:247-352 | which payload gets which answer: listed ones are waved through, the others get the verdict in the daemon's reply, and an error exactly when the exchange fails or the reply has no verdict |
| ScanService.AnswerNames | internal/api/server.go:262-352 | an infection the daemon names, by a name its reply can carry, is answered with that name |
| ScanService.Service.ScanStream | internal/grpcserver/server.go:136-291 | the gRPC answer, vault and audit log depend on the chunks only through their concatenation; an expected checksum is refused exactly if it does not spell the bytes of the payload's digest; every refusal changes nothing |
| ScanService.Service.ScanUrl | internal/api/server.go:420-569 | with a reliable body the outcome of the URL scan is fixed by status and content, but for a body of exactly the maximum; below it, an expected checksum is refused exactly if it does not spell the bytes of the body's digest |
| ScanService.InfectedIsIsolated | internal/api/server.go:302-326 | for every vault key, a quarantine ID in an answer names a record of this payload, its digest, size, virus name and retention in plain figures, whose file is its stored form and decrypts to it exactly if it is storable; without an ID no record was made |
| ScanService.InfectedIsAccepted | internal/api/server.go:302-347 | an infected payload gets an ID, and its claimed quarantine a basis, exactly if the vault accepts it |
| ScanService.AnswerIsAScan | internal/api/server.go:247-352 | an answer does to the vault what a scan does in the vault's runs |
| SafeFetch.BoundedReader.Read | internal/fetcher/client.go:330-362 | delivers the next bytes, never more than the maximum in all, and reports an overflow exactly at the maximum |
| SafeFetch.BoundedReader.ReadAll | internal/fetcher/client.go:330-362 | the whole source when shorter than the maximum, too large when longer, and at exactly the maximum success if and only if the end came with data |
| SafeFetch.CheckedIp | internal/fetcher/client.go:159-202 | the dial succeeds exactly when the lookup has an address and all of them pass, and dials its first |
| SafeFetch.CheckTargets | internal/fetcher/client.go:215-247 | the check of a redirect passes exactly when all resolved addresses pass |
| SafeFetch.PassesInFigures | internal/fetcher/client.go:159-180 | an address passes exactly if it is public or, in test mode, a loopback address |
| SafeFetch.LiteralChecked | internal/fetcher/client.go:159-166 | a host that does not resolve passes exactly if it is an address itself, and that passes |
| SafeFetch.GoesInFigures | internal/fetcher/client.go:215-321 | with resolved hosts and outside of test mode, a request goes out exactly if its URL is valid, all addresses found before it are public, and so are those found for its dial, of which there is one |
| SafeFetch.Fetch | internal/fetcher/client.go:215-321 | for every chain of redirects and every answer of the resolver, the fetch succeeds exactly when the chain ends within the limit and all its checks pass, at most the allowed number of requests is sent, and the connections made are those of the requests sent, each to the first address of its own lookup, all of which passed and, outside of test mode, are public in plain figures; one connection for each request that dials; a failure has the error of the first check that fails |
| SafeFetch.DialsSafe | internal/fetcher/client.go:159-202 | the connections of requests that pass their checks go to addresses that passed in their own lookup, and none is blocked outside of test mode |
| AddressFilter.IsBlockedIP | internal/fetcher/client.go:68-92 | the loop over the table decides the filter |
| AddressFilter.ContainsIsInterval | internal/fetcher/client.go:86-90 | comparing under a mask is membership in an interval of integers |
| AddressFilter.BlockedIsUnionOfRanges | internal/fetcher/client.go:25-92 | for 4 and 16 bytes the filter is the union of the integer ranges of its table; the built-in checks add nothing |
| AddressFilter.BlockedInFigures | internal/fetcher/client.go:25-92 | for every address of 4 or 16 bytes, the filter blocks exactly the reserved ones, block by block in figures of their first bytes, mapped IPv4 addresses included |
| AddressFilter.MappedSame | internal/fetcher/client.go:73-76 | invariant under IPv4-mapping, section 2.5.5.2 of RFC 4291 |
| Vault.ScrambledTwice | internal/quarantine/vault.go:237-251 | scrambling undoes itself |
| Vault.ScrambleBytes | internal/quarantine/vault.go:237-243 | the array loop scrambles each byte |
| Vault.FormatOnDisk | internal/quarantine/vault.go:94-106 | with a 32-byte key a file is the header "VQF_AESGCM_V1" with a newline, the nonce and the sealed payload; without, the payload with each byte scrambled |
| Vault.XorFlips | internal/quarantine/vault.go:235-243 | scrambling flips the bits 0, 2, 5 and 7 of a byte and no others |
| Vault.DecryptsStoredForm | internal/quarantine/vault.go:79-142 | decryption inverts the stored form, with a scrambled payload exactly when its bytes do not start with the magic header |
| Vault.Store.ReadPayload | internal/quarantine/vault.go:67-75 | for every reader, at most one byte beyond the limit is read, which is enough to tell an oversized payload |
| Vault.Store.QuarantineFile | internal/quarantine/vault.go:62-130 | on whatever reader, the new files, records and result are those of the whole input or nothing changed; through a reader that does not fail a record is made exactly if the vault accepts the payload, with its size, digest, name and expiry in plain figures |
| Vault.QuarantineAccepts | internal/quarantine/vault.go:62-130 | a call makes a record exactly if the payload is within the limit, a proper key has its nonce, and the write and the insert work |
| Vault.Store.RestoreQuarantineRecord | internal/storage/sqlite.go:380-402 | status first, then the whitelist, each of which may fail |
| Vault.Store.Restore | internal/quarantine/vault.go:146-177 | result and new state of a restoration, with its error cases in order, the failing last look at the record among them; what comes back has the recorded digest and length |
| Vault.Store.ApiRestore | internal/api/server.go:626-674 | result and new state of a restoration through the HTTP API |
| Vault.Store.Download | internal/quarantine/vault.go:180-198 | result of a download, which changes nothing; it has the recorded digest and length |
| Vault.Store.Delete | internal/quarantine/vault.go:222-233 | file and record go exactly as far as the two removals work, and nothing else does |
| Vault.Store.Purge | internal/quarantine/vault.go:200-219 | exactly the files older than seven days that can be removed go, no record does, and their number is returned |
| Vault.QuarantineAgrees | internal/quarantine/vault.go:62-130 | a new record agrees with its file in digest and length exactly for payloads whose stored form can be told apart |
| Vault.RunsAgree | internal/quarantine/vault.go:62-233 | after any operations and faults every file decrypts to content of its record's digest and length |
| Vault.QuarantinedComesBack | internal/quarantine/vault.go:62-198 | a download or restoration after any operations returns exactly the bytes that were quarantined |
| Vault.KeptUnlessTaken | internal/quarantine/vault.go:200-233 | through any run of vault operations a quarantined file stays with its record exactly if no deletion of it and no purge that finds it too old comes by |
| Vault.RestorableUnlessUsed | internal/quarantine/vault.go:62-177 | after an accepted quarantine of a storable payload and any run of vault operations, a restoration returns exactly its bytes if and only if the database calls work, the run took neither record nor file, and it restored the record neither through the vault nor through the API; otherwise it fails with the error of the first that is missing |
| Vault.RestoredAtMostOnce | internal/quarantine/vault.go:146-177 | no sequence of calls restores a record twice through the vault |
| Vault.RestoredExactlyOnce | internal/quarantine/vault.go:62-177 | a run that holds such a call restores the record exactly once, whatever comes after it |
| Vault.ApiRestoreSucceeds | internal/api/server.go:651-660 | through the HTTP API a record is restored exactly if the database calls work, whatever its status |
| Vault.ApiRestoresAgain | internal/api/server.go:651-660 | any number of such restorations of one record can succeed |
| RestoreRace.UninterruptedIsRestoreFile | internal/quarantine/vault.go:146-177 | check and update of a restoration, done without interruption, are the call |
| RestoreRace.ExclusiveRestoresOnce | internal/quarantine/vault.go:146-177 | for calls that run at the same time, and anything else done to the vault: at most one succeeds if no two of them are between check and update at once |
| RestoreRace.OverlapRestoresTwice | internal/quarantine/vault.go:146-177 | as soon as two are, both can succeed |
| RestoreRace.CallsCanOverlap | internal/quarantine/vault.go:146-167 | two calls that begin together on a record that can be restored get there |
| Vault.PurgedEarly | internal/quarantine/vault.go:200-219 | a purge can take a file before its record expires exactly when the record outlives seven days |
| Vault.PurgeKeepsUnexpired | internal/quarantine/vault.go:99-219 | with a retention of at most seven days no purge after any run takes an unexpired file |
| Vault.WhitelistedStaysOut | internal/api/server.go:247-261 | once a digest is listed, no later HTTP or gRPC scan of it makes a record |
| Vault.ListedByRestorations | internal/storage/sqlite.go:380-402 | over every run, a digest is on the whitelist at the end exactly if it was at the start or a restoration that asked for it, of a record with that digest, got that far |
| Aes.EnvelopeRoundTrip | internal/crypto/aes.go:19-70 | encryption succeeds exactly with a 32-byte key and a nonce, and decryption returns the plain text |
| Aes.VerifyAccepts | internal/crypto/aes.go:98-133 | a stored password hash accepts exactly the passwords of the same salted digest |
| Aes.VerifyInFigures | internal/crypto/aes.go:111-133 | whatever text is stored, it accepts a password exactly if it is two hexadecimal texts with one dollar sign between them, and the second spells the digest of the first's bytes and the password |
| Hex.RoundTrip | internal/crypto/keygen.go:21-54 | hexadecimal text decodes to the bytes it was made from |
| Hex.FoldIsSpelling | internal/api/server.go:442-444 | a text equals the hexadecimal form of some bytes, letter case aside, if and only if it decodes to these bytes |
| YaraLexer.LexConcatenates | internal/yara/validator.go:49-115 | the code, string and comment segments of the reference lexer concatenate to the input |
| YaraLexer.CountIsLexical | internal/yara/validator.go:49-115 | the flag automaton counts exactly the braces in code segments |
| YaraLexer.CountBraces | internal/yara/validator.go:49-115 | the loop with its four flags returns these counts, for every string |
| YaraLexer.BracesBalanced | internal/yara/validator.go:31-47 | the check passes exactly with equal, non-zero counts in code |
| YaraLexer.PlainIsCode | internal/yara/validator.go:49-115 | in a text without slashes and quotes every brace counts |
| YaraLexer.QuotedHides | internal/yara/validator.go:77-105 | a string at a code position that no slash in code stands right before hides whatever is escaped in it, and nothing after it |
| YaraLexer.LineHides | internal/yara/validator.go:62-94 | so does a line comment, up to and with its newline |
| YaraLexer.CommentIsHarmless | internal/yara/validator.go:76-98 | a closed block comment inserted at a code position not preceded by a slash in code leaves the counts unchanged |
| YaraLexer.CommentAfterSlashHides | internal/yara/validator.go:86-98 | after such a slash it does not, for every prefix |
| YaraManager.FailedAddRestores | internal/yara/manager.go:38-93 | a failed AddRule restores the exact prior state if and only if a failed write leaves nothing and the rollback calls it makes work |
| YaraManager.AddKeepsBijection | internal/yara/manager.go:38-93 | rule files and rows stay in bijection exactly when no half-done work stays behind |
| YaraManager.DeleteKeepsBijection | internal/yara/manager.go:106-133 | deleting keeps the bijection exactly when file and row go or stay together |
| YaraManager.OpKeeps | internal/yara/manager.go:38-133 | a call keeps stores and daemon in agreement; without error the daemon has exactly the files; a failed AddRule changes nothing |
| YaraManager.StoresAgree | internal/yara/manager.go:38-133 | over every run with failing writes, inserts and reloads, files and rows agree and every file is loaded |
| YaraManager.RuleSurvives | internal/yara/manager.go:38-133 | a rule that was added without error has its row, its file with its content and its entry in the daemon's set after any further calls of which none deletes its ID, whatever faults these meet |
| YaraManager.RuleGoes | internal/yara/manager.go:106-133 | a deletion without error whose file removal works leaves neither row nor file, and the daemon forgets the rule |
| YaraManager.Manager.Add | internal/yara/manager.go:38-93 | result and new state of AddRule, with its rollbacks; stores in order stay in order, a failure changes nothing; in any stores, only the row of the ID and the file of the name are touched, and the call succeeds exactly with a valid rule of new name and ID whose calls work |
| YaraManager.Manager.Delete | internal/yara/manager.go:106-133 | result and new state of DeleteRule; stores in order stay in order; in any stores, the row goes exactly if its deletion works, its file exactly if that removal does, and all other rows and files stay as they were |
| Keygen.KeyRoundTrip | internal/crypto/keygen.go:21-54 | a generated key text parses to its 32 bytes |
| Keygen.KeyAccepted | internal/crypto/keygen.go:33-55 | a text is taken for a key exactly if it is, spaces around it aside, "clam_sec_" and a spelling of 32 bytes in hexadecimal, and the key is these bytes |
| Keygen.SettingRead | internal/crypto/keygen.go:98-109 | a line with the name, an equals sign and a value is the key's, with spaces around any of them and quotes around the value, and the value is what is between these |
| Keygen.SetsInFigures | internal/crypto/keygen.go:98-109 | a line is taken for the key's if and only if it starts, leading spaces aside, with the name, perhaps spaces, and an equals sign |
| Keygen.ReadsFirst | internal/crypto/keygen.go:98-111 | the first line that is the key's decides, unless one before it is too long for the scanner |
| Keygen.WritesAtFirst | internal/crypto/keygen.go:127-138 | the writer replaces the first line that starts with the name and an equals sign, but for spaces before it |
| Keygen.ReadWritten | internal/crypto/keygen.go:90-144 | reading after writing yields the key, or, below a shadowing line, what was read before |
| Keygen.WrittenKeyFound | internal/crypto/keygen.go:60-144 | a written key is found again, so that a second call changes nothing, exactly when no earlier line shadows it |
| Keygen.OtherLinesSurvive | internal/crypto/keygen.go:114-144 | all other lines survive, in order |
| Keygen.EnvFile.ReadKeyFromEnv | internal/crypto/keygen.go:90-112 | the line loop reads the first line that counts |
| Keygen.EnvFile.AppendOrWriteEnv | internal/crypto/keygen.go:114-144 | the line loop replaces the first line of the key or appends one |
| Keygen.EnvFile.EnsureMasterKey | internal/crypto/keygen.go:60-88 | an existing key is returned and the file left alone; otherwise the drawn key is written |
| RateLimit.RateBound | internal/ratelimit/limiter.go:30-62 | in every interval at most limit times (windows + 2) calls are allowed |
| RateLimit.KeyRateBound | internal/ratelimit/limiter.go:30-62 | this bound for each key over any trace of calls of all keys |
| RateLimit.KeysAreIndependent | internal/ratelimit/limiter.go:34-45 | a key is served as if its calls were the only ones |
| RateLimit.TokensAccounted | internal/ratelimit/limiter.go:34-62 | tokens missing from a bucket are the calls allowed since its refill |
| RateLimit.DenialExplained | internal/ratelimit/limiter.go:42-62 | a denial means exactly the limit was allowed since a refill less than a window ago |
| RateLimit.KeyTokensAccounted | internal/ratelimit/limiter.go:34-62 | among the calls of all keys, tokens missing from a bucket were given to its own key since its refill |
| RateLimit.KeyDenialExplained | internal/ratelimit/limiter.go:34-62 | among the calls of all keys, a denial means exactly the limit was given to the same key since a refill less than a minute ago |
| RateLimit.Limiter.Allow | internal/ratelimit/limiter.go:30-62 | the new buckets, the answer, and a reset time at most a minute ahead |
| RateLimit.Limiter.AllowGlobal | internal/ratelimit/limiter.go:65-87 | the same bucket on a window of one second |
| Throttle.RecentTwice | internal/alert/notifier.go:84-96 | pruning again with a later clock is pruning once |
| Throttle.ThrottledInFigures | internal/alert/notifier.go:80-104 | an alert is throttled if and only if it is at least the sixth call of the 60 seconds up to it |
| Throttle.AtMostFive | internal/alert/notifier.go:80-104 | no window of a minute holds more than five alerts that got through |
| Throttle.Notifier.RecordAndCheckThrottle | internal/alert/notifier.go:80-104 | the pruned list is always the whole history restricted to the last minute |
| Archive.InspectIsExact | internal/scanner/archive.go:46-95 | without overflow an archive is no bomb exactly when files, total and ratios are within limits, and then the total and the encryption flag (section 4.4.4 of PKWARE APPNOTE) are exact |
| Archive.SuspiciousInFigures | internal/scanner/archive.go:82-90 | an entry is suspicious exactly if it is larger than ten MiB and at least 101 times its packed size |
| Archive.EncryptedIsLowestBit | internal/scanner/archive.go:67-70 | encryption is the lowest of the 16 flag bits |
| Archive.BombReport | internal/scanner/archive.go:64-91 | for all archives, what is reported of one that is stopped at some entry: the reason, size before ratio, encryption up to there, and the wrapped total for the size only |
| Archive.ScanUnbounded | internal/scanner/archive.go:60-93 | for all archives, overflow or not, the loop goes through exactly if no entry is suspicious and no total on the way wraps to more than the limit, and then it has the wrapped total |
| Archive.NoticedWindow | internal/scanner/archive.go:72-80 | such totals are those between the limit and 2^63, and those a multiple of 2^64 away from them |
| Archive.InspectUnbounded | internal/scanner/archive.go:46-95 | for all archives, when the verdict is "no bomb", and when that is the intended verdict |
| Archive.OverflowPasses | internal/scanner/archive.go:66-93 | two entries of 2^63 bytes pass as an archive of 0 bytes |
| Archive.CrossingNoticed | internal/scanner/archive.go:66-80 | the entry that takes the total over the limit is noticed right away exactly when that total fits int64 |
| Archive.InspectZip | internal/scanner/archive.go:46-95 | the loop with its early returns yields this report |
| Timestamps.TextOrderIsTimeOrder | internal/storage/sqlite.go:313-320 | RFC 3339 text in UTC compares as the instants do |
| Timestamps.TextExample | internal/storage/sqlite.go:313-314 | order, widths and separators of the fields in a stored stamp |
| Timestamps.DaysClosedForm | internal/storage/sqlite.go:313-320 | the days before a year, against a closed form with the leap years of the Gregorian calendar |
| Timestamps.MonthTable | internal/storage/sqlite.go:313-320 | the days before a month, with the leap day where the calendar has it |
| Timestamps.PurgeAuditLogs | internal/storage/sqlite.go:313-320 | exactly the rows before the threshold are deleted |

## Left out

- QueueTheorems.StopDrains: a submission after close is modelled as the panic it is, so the drain speaks of the jobs that were sent.
- QueueTheorems.StopReturns: scanner and webhook calls are assumed to return; their deadlines are not modelled, and goroutine scheduling is taken to be fair.
- QueueService.Queue.SubmitJob: begins with the creation of the spool file; the callback URL checks, a failed MkdirAll or OpenFile and the recorded file size are not part of it.
- QueueService.Queue.ProcessJob: threat alerts, durations and error texts are not kept; which calls work and what the daemon's connection does are inputs; a job without callback URL is one whose webhook is blocked; and the call is shown without interruption, since interleavings are the business of the protocol.
- QueueTheorems.IsolatedIsUpload: a failed rewinding is taken to leave the file at its end, where the scan left it.
- Clamd.ScanStream: a failed dial is a connection that takes no byte; a cancelled context is noticed between buffers, after a number of rounds that is an input.
- ScanService.Reassemble: the byte count is unbounded, while the source's int64 would need 2^63 bytes received to wrap; the limit is given in bytes.
- ScanService.Service.Judge: multipart parsing before it, JSON and protobuf answers after it, and alerts are left out.
- ScanService.Service.ScanUrl: begins with a fetched response; file and consumer names are inputs.
- SafeFetch.Fetch: without a proxy; URL parsing is a flag, an answer that never comes is a chain without an end, and a host without address is one error on all paths.
- Archive.InspectUnbounded: what the verdict should be is said for limits that are not negative; a limit in megabytes of 2^43 or more wraps in the source.
- Vault.Store.QuarantineFile: one call at a time; of the vault calls only restorations are interleaved within themselves. Path derivation, permissions and descriptive columns are not modelled.
- YaraManager.Manager.Add: name pattern, rule declaration and size checks of ValidateRule are one flag; that a failing reload leaves the daemon with its old rules is assumed.
- Keygen.EnvFile.EnsureMasterKey: reading and writing the file as a whole is assumed to work, and the random source to deliver.
- RateLimit.RateBound: for a fixed limit; the global bucket of the source starts as a zero time, here as none.
- Brace nesting: the validator compares counts only, so nothing about well-nestedness is claimed.
- Base64 wrappers of the string encryption, system settings, API keys, statistics, pagination, listing and CSV export: easy or bound to libraries.
- Ping, Version and Reload of the clamd client, whitelist removal: no property that spans operations.
- HTTP and gRPC plumbing, authentication, Telegram and Discord messages, process supervision, web UI and start-up wiring: no deep property. That Stop comes before the HTTP shutdown in cmd/server/main.go is why a send after close is modelled.
