# Verified model of the open-rgs-go platform core

This project models, in Dafny 4.11, the parts of the remote gaming server that other parts rely on without
re-checking, and proves what they promise over every input, every run or every reachable state:

- **Audit hash chain** (`AuditChain.dfy`, `AuditStore.dfy`, `AuditLog.dfy`). The digest's pre-image, when a head
  digest pins the whole history, what the append-time check finds when stored bytes change through a shared slice,
  and when the database log passes its own verification.
- **Keysets and rotation** (`KeyRing.dfy`, `Keysets.dfy`, `Fingerprints.dfy`, `Tokens.dfy`, `JwtKeys.dfy`,
  `Rotation.dfy`). The `id:value` parsers, the two keyset loaders, the fingerprint and the keysets it pins, the
  signer and verifier objects with their deep copies, the refresh tick, and the interleaving of signing and verifying
  with its two separate installs.
- **Actor binding** (`ActorTypes.dfy`, `Requests.dfy`). From a bearer header to the actor a service acts for.
- **Refresh sessions** (`Sessions.dfy`). The session table's statements and transactions, login lineages over every
  interleaving with the clean-up worker, and the batched clean-up loop.
- **Cashless ledger** (`Ledger.dfy`). The four money movements with double entry, idempotency keys, lockout and undo.
- **Attestation and evidence** (`Attestation.dfy`, `Evidence.dfy`). Keys from generation through files to the signer
  and the validator, and what strict validation of an evidence directory pins.

`GoStrings.dfy` and `Encoding.dfy` hold the Go library functions all of this is built on: trimming, splitting,
sorting order, hex, base64 and the printed form of a time.

Conventions. A Go string is a sequence of code points, and a byte slice made from a string is that string's text.
Integers are unbounded except in the ledger, where 64-bit wrap-around is written out. Digests, MACs, signatures, JSON
decoding and path functions are function values passed in. No lemma assumes that a digest is injective on all inputs,
which no 64-digit digest is: results either exhibit a collision or ask that two named texts do not collide.

Where a promise does not hold of the code as written, the model keeps the code and states exactly when it does hold:
`HistoryPinnedIff`, `LogVerifiesIff`, `OrderIndependentIff`, `LoadersAgreeIff`, `DelimitedPinnedIff`,
`SinglePinnedIff`, `SkipsOnlySameIff`, `NeverRejectsIff`, `RotationCount`, `RevivedIff`, `GeneratedResolve`,
`LineagesConservedIff`, `ManifestLineIff`, `NonNegativeIff`, `AlwaysInBooksIff` and `ShareKeyIff` below. The
repository's compliance notes promise non-negative balances and idempotent movements
(docs/compliance/REQUIREMENTS.md). The code keeps a balance non-negative exactly as long as every movement into the
account leaves room below 2^63, and it answers each key text once, but two accounts share key texts exactly when one's
text up to the idempotency key is a prefix of the other's.

## Model

| member | source | states |
|---|---|---|
| `AuditChain.PreimagePins` | internal/platform/audit/chain.go:9-17 | an unambiguous event's pre-image fixes the previous digest and every covered field, against any other event |
| `AuditChain.AmbiguousTwin` | internal/platform/audit/chain.go:11-15 | every ambiguous event has a different event with the same pre-image |
| `AuditChain.HeadDetermines` | internal/platform/audit/chain.go:9-17 | two linked chains with one head digest, one of them unambiguous, are the same history or exhibit a digest collision |
| `AuditChain.HistoryPinnedIff` | internal/platform/audit/chain.go:9-17 | a linked chain is pinned by its head digest exactly when each of its events is unambiguous |
| `AuditStore.RunConsistent` | internal/platform/audit/store.go:20-38 | over every run of appends and writes through shared buffers the appended history is a linked chain from GENESIS with `last` as its head, and only grows |
| `AuditStore.EmptyConsistent` | internal/platform/audit/store.go:16-18 | a new store satisfies what every run keeps |
| `AuditStore.AppendOnlyRun` | internal/platform/audit/store.go:16-38 | without such writes every append of every run succeeds, and the stored events are that chain, one event per append |
| `AuditStore.AppendVerdict` | internal/platform/audit/store.go:27-33 | the next append succeeds exactly when the last event's bytes are as appended or their digest collides; earlier events play no part |
| `AuditStore.FailClosed` | internal/platform/audit/store.go:27-38 | while the last event's bytes are not restored, no run appends anything or moves `last` |
| `AuditStore.ComputeHash` | internal/platform/audit/chain.go:9-17 | the successive writes feed the delimited pre-image to the digest |
| `AuditStore.InMemoryStore.constructor` | internal/platform/audit/store.go:16-18 | a new store is empty with `last` at GENESIS |
| `AuditStore.InMemoryStore.Append` | internal/platform/audit/store.go:20-38 | the store's new contents, the returned event sharing the caller's buffers, and nothing changed on corruption |
| `AuditStore.InMemoryStore.Events` | internal/platform/audit/store.go:40-47 | a new slice with the same structs, so writes to its elements cannot reach the store |
| `AuditStore.PokeByte` | internal/platform/audit/store.go:35-47 | a write of one byte into any buffer, shared or not, is a step of the run model |
| `AuditLog.AuditTable.constructor` | internal/platform/server/audit_postgres.go:58-71 | an empty table, in which the first row of a day is chained to GENESIS |
| `AuditLog.AuditTable.AppendAuditEvent` | internal/platform/server/audit_postgres.go:16-118 | missing times and day are filled in; the event is hashed as given and chained to the last row of its day in log order; what is stored is the normalised states as the columns return them; a taken id inserts nothing |
| `AuditLog.CompletedMeaning` | internal/platform/server/audit_postgres.go:42-50 | what was given stays; a missing recording time is the present, a missing occurrence time that of recording, and a missing day what the printed recording time starts with |
| `AuditLog.BeforeIff` | internal/platform/server/audit_postgres.go:58-65 | rows are ordered by year, month, day, hour, minute, second and nanosecond of the recorded time, in that order, and then by id |
| `AuditLog.FixedIff` | internal/platform/server/audit_postgres.go:16-25 | an event comes back as given exactly if its time does and each state is valid JSON that the column keeps, or what the column makes of braces |
| `AuditLog.LogIds` | internal/platform/server/audit_postgres.go:75-94 | after any appends the rows have distinct ids, those of the events |
| `AuditLog.LogGrown` | internal/platform/server/audit_postgres.go:58-118 | after any appends each row carries the digest of the latest of its day's earlier rows, and a digest of its event as given rather than as stored |
| `AuditLog.KeptPreimage` | internal/platform/server/audit_postgres.go:73-107 | what the table returns has the hashed pre-image exactly when time and states are returned as given |
| `AuditLog.VerifyAuditChain` | internal/platform/server/audit_postgres.go:184-256 | the walk with one remembered digest per day accepts exactly when each day's rows form a chain from GENESIS, and otherwise names a row |
| `AuditLog.DayVerifiesIff` | internal/platform/server/audit_postgres.go:184-256 | one day's rows, written only by appends, verify exactly when they arrived in increasing order of recording time and id and each event was returned as it was given |
| `AuditLog.LogVerifiesIff` | internal/platform/server/audit_postgres.go:184-256 | a table written only by appends verifies exactly when both hold on every day |
| `AuditLog.EmptyStateFails` | internal/platform/server/audit_postgres.go:16-25 | an appended event with an empty state, or one that is not JSON, breaks the verification of its day, since braces are stored in its place |
| `AuditLog.TenAfterNine` | internal/platform/server/audit_postgres.go:193 | events numbered 9 and 10 at one time break the verification of an untouched day |
| `AuditLog.WritesFound` | internal/platform/server/audit_postgres.go:239-250 | of a verified table with states overwritten in place, verification accepts exactly the unchanged one, absent collisions |
| `AuditLog.RewritesFound` | internal/platform/server/audit_postgres.go:239-250 | of a verified table with any field changed but order, day and digests, verification accepts exactly the changes that keep every pre-image, absent collisions |
| `AuditLog.UnambiguousRewritesFound` | internal/platform/server/audit_postgres.go:239-250 | with unambiguous rows that means exactly the tables with every covered field unchanged |
| `AuditLog.RemovalsFound` | internal/platform/server/audit_postgres.go:239-250 | rows taken from a verified day, in any order, verify exactly when they are its first ones |
| `AuditLog.TableRemovalsFound` | internal/platform/server/audit_postgres.go:184-256 | a table with rows removed verifies exactly when on each day a first part is left |
| `Encoding.StampInjective` | internal/platform/audit/chain.go:13 | the printed UTC time determines the time |
| `Encoding.StampLayout` | internal/platform/audit/chain.go:13 | each field of the printed time by position, and a fraction only if there is one, without trailing zeros |
| `Encoding.InstantOrder` | internal/platform/server/audit_postgres.go:62 | times are compared as their fields are, the year first, and equal only if all fields are |
| `Encoding.HexRoundTrip` | internal/platform/evidence/summary_artifact_validator.go:206-209 | hex decoding inverts hex encoding |
| `Encoding.HexAt` | internal/platform/evidence/summary_artifact_validator.go:69 | each byte prints as its high and its low digit, small, in place |
| `Encoding.UnhexIff` | internal/platform/evidence/summary_artifact_validator.go:206 | decoding succeeds exactly on pairs of digits, small or capital, and gives each pair's byte |
| `Encoding.Base64RoundTrip` | cmd/attestkeygen/main.go:113-114 | base64 decoding inverts padded base64 encoding |
| `Encoding.Base64At` | cmd/attestkeygen/main.go:113-114 | every three bytes are the four base-64 digits of their 24-bit number, in the standard alphabet by position |
| `Encoding.Base64Last` | cmd/attestkeygen/main.go:113-114 | one or two last bytes are padded |
| `Encoding.DecodedText` | internal/platform/evidence/summary_artifact_validator.go:284 | what decodes is what encoding writes, of the same length and padding, but for unused bits of a padded quantum |
| `Encoding.LineBreaksIgnored` | internal/platform/evidence/summary_artifact_validator.go:284 | line breaks make no difference to decoding |
| `KeyRing.ParseHmacEntries` | internal/platform/auth/jwt.go:38-54 | accepts exactly the texts without a malformed part, builds the map the parts name, and reports a malformed entry otherwise |
| `KeyRing.ParseKeyRing` | cmd/attestsign/main.go:79-95 | the index-tested loop, in the signer and in the validator alike, accepts the same texts and builds the same map |
| `KeyRing.ParseKeyValueSecrets` | cmd/rgsd/main.go:431-451 | builds that same map, from the valid parts only where the others refuse |
| `KeyRing.BuildMeaning` | internal/platform/auth/jwt.go:39-54 | an id is in the map exactly when a part names it, with the value of the last part that does |
| `KeyRing.TrimKeepsEntry` | internal/platform/auth/jwt.go:40-49 | trimming a part first does not change what it names |
| `KeyRing.EdgeColon` | internal/platform/evidence/summary_artifact_validator.go:236-239 | the index test refuses nothing that the emptiness tests would accept |
| `KeyRing.RingRoundTrip` | internal/platform/auth/jwt.go:38-54 | printing clean entries and parsing them gives them back |
| `KeyRing.RingIdsClean` | internal/platform/evidence/summary_artifact_validator.go:236-245 | ids and values in a parsed ring are trimmed, not empty and free of delimiters |
| `Keysets.ParseHMACKeyset` | internal/platform/auth/jwt.go:29-68 | when it succeeds, with which keys, and that the result is well formed |
| `Keysets.FallbackKeyset` | internal/platform/auth/jwt.go:31-60 | without a ring: one key, the fallback secret as it stands, under the active kid or `default` |
| `Keysets.RingKeyset` | internal/platform/auth/jwt.go:31-67 | with a ring: exactly the kids its parts name, the last part counting, and nothing if a part is malformed or the active kid is not named |
| `Keysets.LoadHMACKeysetJSON` | internal/platform/auth/keyset_source.go:44-72 | the loaded keyset for one map order, and that it is well formed without outer space in any kid or secret |
| `Keysets.LoadedIff` | internal/platform/auth/keyset_source.go:49-71 | a file loads exactly if a usable entry trims to the active kid; the error tells whether there was a usable entry |
| `Keysets.LoadableIff` | internal/platform/auth/keyset_source.go:44-72 | those are exactly the keysets that some file in some order loads as |
| `Keysets.OrderIndependentIff` | internal/platform/auth/keyset_source.go:53-68 | the result is the same for every map order exactly when no two entries conflict or the active kid is missing |
| `Keysets.LoadersAgreeIff` | internal/platform/auth/keyset_source.go:49-71 | from the same clean entries and active-kid text, the ring text and the JSON file in any order have the same outcome exactly when that text is blank, has no outer space, or names no key once trimmed; what the first accepts the second loads alike |
| `Keysets.LoadersDiffer` | internal/platform/auth/jwt.go:31-36 | with a space before the active kid, the JSON file loads and the environment does not |
| `Keysets.KeysetFingerprint` | cmd/rgsd/main.go:453-465 | the fingerprint does not depend on the map order |
| `Keysets.FingerprintTextInjective` | cmd/rgsd/main.go:459-462 | keysets free of the delimiters are told apart by the hashed text |
| `Fingerprints.SpareTwin` | cmd/rgsd/main.go:453-465 | every well-formed keyset with a non-active kid that is not its least one has a different well-formed keyset with the same text, which the JSON loader can return if it can return the first |
| `Fingerprints.DelimitedPinnedIff` | cmd/rgsd/main.go:453-465 | among the keysets the JSON loader can return, one free of the delimiters is told apart from every other exactly when it has no such kid, and no colon in the other kid's secret that could end a longer kid before the active one |
| `Fingerprints.SinglePinnedIff` | cmd/rgsd/main.go:453-465 | among the keysets the JSON loader can return, one with a single delimiter-free kid, whatever its secret, is told apart from every other exactly when its secret does not split into a secret and an entry for a later kid |
| `Tokens.VerifyIff` | internal/platform/auth/jwt.go:150-180 | any token is accepted, for the actor it names, exactly with the algorithm, the tag under its kid's secret, the five-second leeway on `exp` and `nbf`, and both actor claims |
| `Tokens.SignIff` | internal/platform/auth/jwt.go:91-116 | exactly what is signed, from which second to which, under which kid, and when signing fails |
| `Tokens.AcceptanceIff` | internal/platform/auth/jwt.go:91-180 | a token signed under one keyset is accepted under another, for its actor, exactly when the actor is named, the floor of the expiry plus five seconds has not come, and the kid maps to the same secret |
| `Tokens.WellFormedSigns` | internal/platform/auth/jwt.go:95-101 | a well-formed keyset always signs, and the blank-kid fallback is never taken for its tokens |
| `Tokens.ExpiryWindow` | internal/platform/auth/jwt.go:102-108 | rounding `exp` down shortens a token's life by less than a second |
| `JwtKeys.CopyKeyMap` | internal/platform/auth/jwt.go:196-207 | fresh slices with the same contents, nil ones dropped |
| `JwtKeys.JWTSigner.constructor` | internal/platform/auth/jwt.go:84-89 | the signer holds a deep copy |
| `JwtKeys.JWTSigner.SignActor` | internal/platform/auth/jwt.go:91-116 | signs from one reading of kid and keys; fails only if the active secret is empty |
| `JwtKeys.JWTSigner.SetKeyset` | internal/platform/auth/jwt.go:118-130 | installs a deep copy exactly when the active kid is present, else changes nothing |
| `JwtKeys.JWTVerifier.constructor` | internal/platform/auth/jwt.go:146-148 | the verifier holds a deep copy |
| `JwtKeys.JWTVerifier.ParseActor` | internal/platform/auth/jwt.go:150-180 | the verdict from one reading of kid and keys |
| `JwtKeys.JWTVerifier.SetKeyset` | internal/platform/auth/jwt.go:182-194 | installs a deep copy exactly when the active kid is present, else changes nothing |
| `JwtKeys.InstallThenSign` | internal/platform/auth/jwt.go:91-130 | after an install that succeeds, signing fails exactly when the active entry is nil or empty; after one that is refused, the signer signs as before |
| `JwtKeys.InstallThenOverwrite` | internal/platform/auth/jwt.go:118-130 | after an install, a write to any buffer the caller can reach leaves both objects as installed |
| `JwtKeys.InstallBoth` | cmd/rgsd/main.go:149-156 | the verifier cannot refuse what the signer accepted; otherwise neither changes |
| `JwtKeys.Start` | cmd/rgsd/main.go:87-92 | at start both hold the loaded keyset and its fingerprint is remembered |
| `JwtKeys.Refresher.Tick` | cmd/rgsd/main.go:136-158 | after every tick signer and verifier hold equal keysets and the remembered fingerprint is theirs; a good load is installed or has the current fingerprint |
| `Rotation.RunCoherent` | cmd/rgsd/main.go:136-158 | in every run the verifier equals the signer or, between the two installs, is exactly one keyset behind |
| `Rotation.TickEndAgreement` | cmd/rgsd/main.go:136-158 | at the end of every tick of every run both agree and the fingerprint is theirs |
| `Rotation.SkipMeansSame` | cmd/rgsd/main.go:146-148 | a skipped load was of the keyset already held, if free of delimiters and not colliding |
| `Rotation.SkipsOnlySameIff` | cmd/rgsd/main.go:131-148 | between ticks of every run, for any hash, a skipped load that the JSON loader can return is the keyset held or a collision exactly when the held keyset's text pins it |
| `Rotation.RunSigns` | internal/platform/auth/jwt.go:91-101 | from well-formed loads, in every run and at every step, signing finds its active key |
| `Rotation.SmoothDelivers` | internal/platform/auth/jwt.go:91-180 | in every interleaving a usable token signed under the current or previous keyset is accepted for its actor |
| `Rotation.RoughRejects` | internal/platform/auth/jwt.go:150-171 | where a handover disagrees on a secret and the MAC tells the two secrets apart, some interleaving rejects a fresh token |
| `Rotation.NeverRejectsIff` | cmd/rgsd/main.go:136-158 | with a MAC that tells apart the secrets consecutive keysets give their active kids, no recent token is ever rejected exactly when each handover agrees on those secrets |
| `ActorTypes.NameRoundTrip` | internal/platform/server/actor_context.go:11-22 | a stored actor type name reads back as that type |
| `ActorTypes.FromStringIff` | internal/platform/server/actor_context.go:11-22 | a type is read exactly from its name or the part after its prefix, in capitals or not, with any space around |
| `Requests.BuildAllow` | internal/platform/auth/grpc_jwt.go:14-17 | the allow set holds exactly the listed methods |
| `Requests.ListedPass` | internal/platform/auth/grpc_jwt.go:19-21 | a listed method or path is reached with the caller's own context, whatever it carries |
| `Requests.NoBearerRefused` | internal/platform/auth/grpc_jwt.go:22-33 | any other is refused without metadata, without an authorization value, or without the bearer scheme |
| `Requests.ResolveActorIff` | internal/platform/server/actor_context.go:24-46 | an actor is resolved exactly if named, of a known type, and the token's, which the request may only repeat, or without a token the request's |
| `Requests.ActorBinding` | internal/platform/auth/grpc_jwt.go:18-40 | past the gate, for any metadata and whatever the request itself claims, the resolved actor is that of a sign call whose token has not run out and whose secret the verifier still holds; both gates give one verdict on one header |
| `Requests.MiddlewareBinding` | internal/platform/auth/jwt.go:222-245 | the same over HTTP, for any authorization header |
| `Requests.SignedRequestIff` | internal/platform/auth/grpc_jwt.go:30-39 | a signer's token, over gRPC in any metadata and over HTTP, gets its actor through gate and resolution exactly when keys agree, it is in time, its type is known and the request claims no other actor |
| `Sessions.SessionTable.StoreSession` | internal/platform/server/identity_postgres.go:72-88 | the upsert, or nothing on a nil session or a failure |
| `Sessions.SessionTable.GetSession` | internal/platform/server/identity_postgres.go:90-110 | the row read back, or none |
| `Sessions.StoreThenGet` | internal/platform/server/identity_postgres.go:72-110 | a stored session reads back as stored and no other changes |
| `Sessions.SessionTable.RevokeSession` | internal/platform/server/identity_postgres.go:112-123 | the row is marked; an absent token is no error |
| `Sessions.RevokeThenGet` | internal/platform/server/identity_postgres.go:112-123 | the token reads back revoked and otherwise as before, and every other as before |
| `Sessions.SessionTable.RotateSession` | internal/platform/server/identity_postgres.go:125-151 | all or nothing at every failure point, including a taken new token |
| `Sessions.RotateThenGet` | internal/platform/server/identity_postgres.go:125-151 | after a commit the new token reads back as given, the old one revoked and otherwise as before, all others as before; without one nothing changes |
| `Sessions.RotationCount` | internal/platform/server/identity_postgres.go:125-151 | the exact number of unrevoked rows afterwards, and exactly when it is conserved |
| `Sessions.DoubleRotationForks` | internal/platform/server/identity_postgres.go:140-150 | rotating one token twice leaves both successors live |
| `Sessions.PickBatch` | internal/platform/server/identity_postgres.go:160-170 | as many expired rows as the limit allows, earliest expiry first |
| `Sessions.SessionTable.CleanupExpiredSessions` | internal/platform/server/identity_postgres.go:153-176 | one batch is removed and counted, with non-positive sizes read as 500 |
| `Sessions.SessionTable.DrainExpired` | internal/platform/server/identity_postgres.go:182-210 | terminates; without a failure the table equals one filter at the last round's time, and with one only expired rows are gone; full batches bound the rounds |
| `Sessions.RevivedIff` | internal/platform/server/identity_postgres.go:72-151 | a token that is not live becomes live exactly by being issued |
| `Sessions.RevocationPermanent` | internal/platform/server/identity_postgres.go:72-151 | in runs with fresh tokens a token once not live is never live again |
| `Sessions.NoLoginsYet` | migrations/000007_identity_sessions.up.sql:1-9 | an empty table satisfies what every run of requests keeps |
| `Sessions.SwapKeepsIff` | internal/platform/server/identity_postgres.go:125-151 | a refresh's rotation keeps one live session for each login exactly when it does not commit or the token it replaces is live at that moment |
| `Sessions.LineagesConservedIff` | internal/platform/server/identity_grpc.go:629-690 | over every interleaving of logins, logouts, refresh checks, rotations and clean-ups each login keeps exactly one live session until it ends and none after, exactly when no rotation commits on a token no longer live |
| `Sessions.RefreshKeepsIff` | internal/platform/server/identity_grpc.go:637-682 | one refresh, with any clean-up batches between its check and its rotation, keeps that exactly when no batch took its row after expiry |
| `Sessions.ExpiryRace` | internal/platform/server/identity_postgres.go:182-210 | a session that expires and is deleted between check and rotation leaves an ended login with a live session |
| `Sessions.ActorsConserved` | internal/platform/server/identity_grpc.go:637-682 | over every interleaving every session, however often refreshed, is of the actor that logged in, and a refresh passes its check only in that actor's name |
| `Sessions.RefreshableIff` | internal/platform/server/identity_grpc.go:651 | at every moment an unrevoked session can be refreshed or be cleaned up, and not both |
| `Ledger.LedgerService.constructor` | internal/platform/server/ledger_grpc.go:59-81 | a new ledger is empty |
| `Ledger.LedgerService.Handle` | internal/platform/server/ledger_grpc.go:614-765 | the new state and the answer of a request, for any of the four kinds |
| `Ledger.LedgerService.Settle` | internal/platform/server/ledger_grpc.go:691-765 | the funds test, the remembered denial, and the movement or its undoing |
| `Ledger.LedgerService.Post` | internal/platform/server/ledger_grpc.go:718-736 | a numbered double entry, the new balance and the listed transaction |
| `Ledger.LedgerService.Undo` | internal/platform/server/ledger_grpc.go:739-744 | taking a movement back restores balance, postings and statement, through wrap-around too |
| `Ledger.LedgerService.RecordEFTFailure` | internal/platform/server/ledger_grpc.go:388-413 | one more failure, and the lock from the limit on |
| `Ledger.TransfersIff` | internal/platform/server/ledger_grpc.go:614-716 | money moves exactly for a request in order from an actor that may, not under a lock at that time, with a new key, in the account's currency, with its funds there and its audit accepted |
| `Ledger.TransferAnswer` | internal/platform/server/ledger_grpc.go:561-611 | the answer of a movement (amount, partial or not, transaction number, balance after it) and the whole new state: statement line, the two named sides, key remembered, failures and lock cleared |
| `Ledger.ShortfallAnswer` | internal/platform/server/ledger_grpc.go:698-716 | a shortfall is denied with the unchanged balance, counted once, remembered, and locks from the limit on |
| `Ledger.UnauditedAnswer` | internal/platform/server/ledger_grpc.go:585-591 | after a failed audit balances, postings, statements and keys are as before, and the same request can be sent again and then moves the same amount |
| `Ledger.OtherAnswers` | internal/platform/server/ledger_grpc.go:614-697 | every other request changes nothing: refused as invalid or, where only the actor or the lock stands against it, denied; answered from its key; or in another currency |
| `Ledger.IsBalanced` | internal/platform/server/ledger_grpc.go:281-294 | accepts exactly known directions with a zero total in 64-bit arithmetic |
| `Ledger.RunSound` | internal/platform/server/ledger_grpc.go:477-1045 | in every run each transaction is a balanced double entry, transactions and remembered successes correspond one to one, and each account that is not a contra account holds what its postings and its statement say, in one currency |
| `Ledger.RunMatched` | internal/platform/server/ledger_grpc.go:477-1045 | in every run every statement line has the two sides of its kind posted under its number, every posting belongs to a line, and no number is on two lines |
| `Ledger.RunFollowsStatement` | internal/platform/server/ledger_grpc.go:477-1045 | in every run every account, contra accounts too, holds the wrapped total of its statement, and that total is never negative |
| `Ledger.StepNonNegativeIff` | internal/platform/server/ledger_grpc.go:554-573 | a request leaves a non-negative balance non-negative exactly when its movement is outgoing or balance plus amount is below 2^63, and then nothing wraps |
| `Ledger.NonNegativeIff` | internal/platform/server/ledger_grpc.go:477-1045 | over a whole run a balance stays non-negative exactly when every movement into the account meets that guard, and exactly then it stays equal to the statement's total |
| `Ledger.BalanceCanWrap` | internal/platform/server/ledger_grpc.go:573 | two deposits within range leave a negative balance |
| `Ledger.AlwaysInBooksIff` | internal/platform/server/ledger_grpc.go:565-573 | the accounts whose balance follows the books in every run are exactly those whose id is not used for the other side |
| `Ledger.CacheStable` | internal/platform/server/ledger_grpc.go:760-762 | a remembered answer is never dropped or replaced |
| `Ledger.ReplayInert` | internal/platform/server/ledger_grpc.go:644-649 | after a key is answered, every later request with it changes nothing and gets the first answer unless refused before the key is read |
| `Ledger.AnsweredOnce` | internal/platform/server/ledger_grpc.go:703-764 | every movement and every insufficient-funds denial answers its key |
| `Ledger.CacheKeyInjective` | internal/platform/server/ledger_grpc.go:641 | for one account, or two that do not overlap, a key fixes kind, account and idempotency key |
| `Ledger.ShareKeyIff` | internal/platform/server/ledger_grpc.go:641 | two accounts can share a key exactly when they overlap: one's text up to the idempotency key is a prefix of the other's; without bars only an account and itself do |
| `Ledger.OverlapText` | internal/platform/server/ledger_grpc.go:938 | every account overlaps with itself followed by the kind's name between bars |
| `Ledger.SharedKeySwallows` | internal/platform/server/ledger_grpc.go:641-649 | after an answer, any request with the same key, on whatever account and after whatever other calls, moves nothing and gets that answer unless refused earlier |
| `Ledger.OverlapSwallows` | internal/platform/server/ledger_grpc.go:641-649 | for every two overlapping accounts there are deposits of which the second is answered with the first's success while its account is not opened |
| `Ledger.LockedIff` | internal/platform/server/ledger_grpc.go:388-434 | in every run the failures kept are the shortfalls since the last movement, counted from the answers; an account carries a lock, in force or run out, exactly while they are at or past the limit, and it ends the lockout time after the last of them |
| `Ledger.LastFailureLocks` | internal/platform/server/ledger_grpc.go:408-411 | the failure that reaches the limit locks for the lockout time |
| `Ledger.LockoutFreezes` | internal/platform/server/ledger_grpc.go:632-639 | no run of requests before the lock's end moves a locked account's balance or lock |
| `Ledger.OnlyOwnAccount` | internal/platform/server/ledger_grpc.go:296-312 | only the named account changes, and only for an operator, a service or the player it belongs to |
| `Attestation.RenderKeyMaterial` | cmd/attestkeygen/main.go:108-123 | the two rendered values |
| `Attestation.WriteSecretFiles` | cmd/attestkeygen/main.go:143-173 | the two files and the three printed assignments |
| `Attestation.VerifyMaterial` | cmd/attestkeygen/main.go:181-223 | succeeds exactly when the material decodes to a matching pair |
| `Attestation.MatchingPublic` | cmd/attestkeygen/main.go:181-223 | what passes fixes the public value: the key the seed derives, or the end of the private key |
| `Attestation.StripIff` | cmd/attestkeygen/main.go:225-235 | exactly the id, a colon and something more is stripped |
| `Attestation.RenderedMatches` | cmd/attestkeygen/main.go:181-235 | checking freshly rendered material never fails, for any key id |
| `Attestation.ResolveEd25519PrivateKey` | cmd/attestsign/main.go:61-130 | the loop and branches compute the specified resolution |
| `Attestation.ResolveEd25519PublicKey` | internal/platform/evidence/summary_artifact_validator.go:219-281 | the loop and branches compute the specified resolution |
| `Attestation.SourceIff` | internal/platform/evidence/summary_artifact_validator.go:299-318 | a file wins over a command and that over a value, all trimmed, and a failing one is an error |
| `Attestation.DevelopmentKey` | internal/platform/evidence/summary_artifact_validator.go:267-272 | with nothing configured both sides use the development pair for the default id only, and under enforcement not even that |
| `Attestation.SinglePublicIff` | internal/platform/evidence/summary_artifact_validator.go:259-281 | a single key is resolved exactly for the configured id |
| `Attestation.RingPublicIff` | internal/platform/evidence/summary_artifact_validator.go:229-257 | with a ring exactly the ids its parts name are resolved, by the last part |
| `Attestation.InlineIff` | cmd/attestsign/main.go:61-71 | an inline private key is refused exactly under enforcement without the permission |
| `Attestation.ResolvedSizes` | internal/platform/evidence/summary_artifact_validator.go:283-292 | every resolved key has the size the scheme asks for |
| `Attestation.QuotedText` | internal/platform/evidence/summary_artifact_validator.go:320-330 | quotes of either kind and space inside or around them make no difference |
| `Attestation.GeneratedResolve` | cmd/attestsign/main.go:61-183 | generated keys read back from their files resolve on both sides to the generated pair: always as a single key, and as a ring exactly when the id is clean |
| `Attestation.SignatureIff` | internal/platform/evidence/summary_artifact_validator.go:199-217 | exactly when a signature file is accepted |
| `Attestation.GeneratedSignatureAccepted` | internal/platform/evidence/summary_artifact_validator.go:199-217 | what the signer signs with generated material the validator accepts |
| `Evidence.ValidateSummaryArtifact` | internal/platform/evidence/summary_artifact_validator.go:22-197 | each mode accepts exactly what its conditions describe |
| `Evidence.AcceptedIff` | internal/platform/evidence/summary_artifact_validator.go:22-197 | strict mode accepts exactly the complete directories, every condition said of the six files: names, digests, fields, signature, index entries and manifest lines |
| `Evidence.AcceptedIsSigned` | internal/platform/evidence/summary_artifact_validator.go:140-150 | an accepted directory carries a signature of its attestation's bytes by the public key the environment resolves for the id stated there |
| `Evidence.NoKeyNoAcceptance` | internal/platform/evidence/summary_artifact_validator.go:267-272 | under enforcement and with no public key configured nothing is accepted |
| `Evidence.WrittenAccepted` | internal/platform/evidence/summary_artifact_validator.go:22-217 | a directory written with the generated private key, with its listings in place, is accepted where the generated public key is configured |
| `Evidence.ValidateListings` | internal/platform/evidence/summary_artifact_validator.go:74-194 | index, manifest and attestation conditions, in both directions |
| `Evidence.ValidateAttestation` | internal/platform/evidence/summary_artifact_validator.go:107-165 | accepts exactly a well-formed, signed attestation of this run and summary |
| `Evidence.FindManifestLine` | internal/platform/evidence/summary_artifact_validator.go:90-102 | finds the line exactly when the manifest lists the digest at the path |
| `Evidence.FindTwoLines` | internal/platform/evidence/summary_artifact_validator.go:176-191 | both flags are exact |
| `Evidence.ManifestLineIff` | internal/platform/evidence/summary_artifact_validator.go:92-97 | a checksum line reads back as written exactly when its path is one word |
| `Evidence.AttestationPins` | internal/platform/evidence/summary_artifact_validator.go:63-72 | accepted directories with one attestation have one summary and one log, absent a collision between them |
| `Evidence.ManifestCoversFiles` | internal/platform/evidence/summary_artifact_validator.go:170-194 | an accepted manifest lists the digests of the bytes that are there |

## Left out

- Strings that are not valid UTF-8, and case pairs outside ASCII in `strings.EqualFold` and `strings.ToUpper`.
- Years before 0 in printed times, and sub-slices: a byte slice in the audit store is a whole buffer.
- SHA-256, HMAC, Ed25519, JSON decoding, path functions and the JWT library's wire format, including its reading of an `exp` of exactly zero as absent; they are function values with stated premises.
- FingerprintTextInjective: two keysets are compared only if both are free of the delimiters; `DelimitedPinnedIff` and `SinglePinnedIff` compare with every keyset the JSON loader can return.
- SinglePinnedIff: kids that hold a delimiter themselves, and pinning of two keys whose secrets hold a bar.
- AppendAuditEvent: JSON decoding and what the columns return are function values; day texts are taken to be canonical, ids are ordered by code point, and two concurrent first appends to one day are not modelled.
- The mutexes: each locked section is one step, and signing and verifying read one consistent pair by contract.
- Overlap inside one database transaction: each statement or transaction on the session table is one step, and the steps interleave freely.
- The `db == nil` branches of the session code, query failures in `getSession`, and `created_at`/`updated_at`.
- The ledger with a database, its request-hash comparison, balance and statement queries, and transfer ids; a transaction number stands for its `tx-` name.
- Handle: one handler stands for the four, whose bodies run the same steps; refusal texts are abbreviated and the audit store's verdict is a parameter.
- Writing errors in key generation, printing assignments to the terminal, and the sorted id lists in error messages.
- Wagering, registry, events, reporting, configuration, remote access, metrics, TLS, server wiring and all generated code.
