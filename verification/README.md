# NOX Vault: a model and its proofs

NOX Vault keeps secrets end-to-end encrypted. The server stores opaque rows under uniqueness
constraints and a version number per record; every user operation is a small workflow of several
requests carried out by the client, which alone can read names and values. This project models the
whole: the server's tables and transactions, the client's computation, any number of clients whose
requests interleave, the backup file, and beside them the shared unlock agent, the login rate limiter,
the password generator and the desktop controller.

The central result is that many clients working on one vault at once behave like a plain map from
names to texts with one password, executed one call at a time (`Linearizability.EveryRunIsLinearizable`). Every
call ends after three requests of its own, whatever the others do (`Progress.EveryCallEnds`), and a call nobody
disturbs returns what its operation owes (`Progress.EachCallIsAnswered`).

## How it is built

| file | what it holds |
|---|---|
| `Wrappers.dfy` | optional values |
| `Crypto.dfy` | ideal encryption, key derivation and name hashing; the five associated-data builders, on real strings |
| `Store.dfy` | tables, constraints and requests as functions; store invariant, isolation of users, exactness of restore |
| `ServerTables.dfy` | the same requests as methods of a class that updates its tables in place and rolls back |
| `Client.dfy` | lookup by trial decryption, sealing, listing; what it means for rows to represent a map |
| `BackupFiles.dfy` | the backup file and the checks of import |
| `VaultClient.dfy`, `BackupClient.dfy` | the client's services as classes calling the server, alone with it |
| `Protocol.dfy` | many clients as program counters between requests; the sequential map they should implement |
| `ProtocolInvariant.dfy`, `ProtocolSteps.dfy` | the invariant of every interleaving, and that every step keeps it |
| `Linearizability.dfy`, `Guarantees.dfy`, `Rotations.dfy`, `Backups.dfy`, `Rewinds.dfy`, `Vanishing.dfy`, `Progress.dfy` | what follows for whole runs |
| `Ledger.dfy` | runs of requests by any users against the audit log |
| `Limits.dfy` | what the server cannot prevent, with exact conditions |
| `Agent.dfy`, `AgentLock.dfy`, `Limiter.dfy`, `PasswordGenerator.dfy`, `Controller.dfy` | the four smaller parts |

Keys, ciphertexts, keyed hashes and wrapped keys are terms, equal only when made from equal arguments:
encryption opens exactly under the key, associated data and nonce it was sealed with, a derived key is
determined by password and parameters, the keyed name hash is injective, and a vault key drawn at
`initialize` is new. Record ids drawn by clients are new and not guessed by other users. A request is one
transaction; requests of all clients and of other users come in any order. A client may give up or die
between any two requests; a call whose last request was served counts as finished even if its answer is
lost. The server lists rows in an arbitrary order, which covers the order it uses.
The agent's clients hold the vault key itself (`Auth.Holding`).
The numbers the password generator draws are inputs of its methods.

A moment of the protocol is a map, a password and the number of restores so far. A finished call points to
the moment at which it took effect: writes at their POST, PUT, DELETE or restore, reads at GET /secrets,
password checks at GET /vault. `Protocol.Accepts` is the sequential specification, outcome by outcome;
`Failed`, which stands for every error the source does not expect, is accepted nowhere, so it never occurs.
Two outcomes it leaves open, because the code does. `Vanished` (not found by the PUT or DELETE) is accepted at a
moment without the name, and also for a name that is there if the vault was restored since the client listed its
rows. `Conflict` is accepted for any update of a name that is there. What they do mean is said by
`Guarantees.VanishedMeansAbsent` and `Guarantees.UpdatesAreNeverLost`.

## Where the code promises less

Seven properties one might expect are false of the code. Each has a counterexample and its exact limit.

- Rotation checks the old password with one request and writes with another. Two clients that both know it
  can both be told they succeeded, and the first one's new password is then worthless
  (`Rotations.RotationsCanRace`). The password given was in force at some moment of the call; it still was at
  the write if and only if nobody changed it during the call, or the last one who did put the same password
  in force (`Rotations.RotationKnewThePassword`).
- An import sets record versions back, so a version read before it can be reached again after it over another
  text, and an update is lost (`Rewinds.UpdateAcrossImportCanBeLost`). Without an import in between this
  cannot happen (`Guarantees.UpdatesAreNeverLost`); in general a stored update overwrites the text its author
  read if and only if nobody set the name's text in between, or the last one who did set that same text
  (`Guarantees.UpdateOverwritesWhatItRead`). For the same reason a version conflict across an import need not
  mean that anybody updated the name (`Rewinds.ConflictAcrossImportCanBeNeedless`); it means exactly that the row
  now has another version than the one read (`ProtocolSteps.PutStatus`).
- "Not found" does not mean that the name was missing. If it was removed and added again after an export, a
  client reads the new row, and the backup is imported, then that client's PUT is not found although the name was
  there at every moment since its listing (`Vanishing.PresentNameCanVanish`). The name really was absent at some
  moment between listing and answer if and only if a removal of the name or an import of a backup without it
  finished in between; without an import that is always so (`Guarantees.VanishedMeansAbsent`). The run is a sequential
  execution in the sense of the main theorem only because the map accepts that answer across a restore.
- If another vault is restored between a client's GET and its write, the server takes the write. The rows
  still mean a map if and only if id and key are the old ones (`Limits.PostAcrossRestoreCorrupts`,
  `Limits.PutAcrossRestoreCorrupts`). Worse, the PUT of a rotation is always taken, and then no password
  yields the vault's key any more unless it is the key that was wrapped
  (`Limits.RotationAcrossRestoreLosesTheKey`).
- The uniqueness of private names rests on the name hash, which legacy rows lack: a new secret of a name is
  accepted if and only if no row of that name carries its hash (`Limits.LegacyNameCanBeDoubled`).
- The rate limiter reads the clock before it takes its lock. A query answered late can miss failures of its
  window (`Limiter.LateQueryUndercounts`) and can count failures recorded after its time
  (`Limiter.EarlyQueryOvercounts`). It compares the limit with exactly the failures of the window that ends at its
  time if and only if every logged failure lies in that window just when it lies after the start of the latest
  window asked about (`Limiter.QueryCountsTheWindow`); so it does when nothing of the key is timed after it
  (`Limiter.OrderedQueriesAreExact`). Recorded failures are bounded by the limit and the logins under way as long
  as nothing recorded in the window was forgotten, a sufficient condition (`Limiter.WindowIsBounded`); the bound is
  reached (`Limiter.WindowBoundIsReached`), and an eviction can exceed it (`Limiter.EvictionLoosensTheLimit`). The
  10,000-key capacity does not bound the table (`Limiter.QueriesGrowTheTable`).
- Adding an account neither counts as a dispatch nor waits for one, so a pending snapshot or the completion of
  an operation under way can take the login screen away; `Controller.AddAccountCanBeOverwritten` says exactly
  when.

## Model

| member | source | states |
|---|---|---|
| Linearizability.EveryRunIsLinearizable | client/src/vault_service.cpp:48-249 | For any number of clients, any interleaving, both metadata modes: the rows mean a map, the vault opens with one password, and the finished calls, put in the order of their points, respect real time and are a sequential execution of that map giving every call its outcome; across an import the map also accepts a not-found answer to an update or removal of a name that is present, and it accepts a conflict of any update of a present name |
| Progress.EveryCallEnds | client/src/vault_service.cpp:48-249 | In every run a call that is not given up has ended, and is on record with its client and beginning, after three requests of its client, whatever all others do |
| Progress.RequestsMakeProgress | client/src/vault_service.cpp:48-249 | Every request of a client either ends its call, recorded once with the moments of its beginning, listing and end, or brings it one request nearer to its end and changes nothing |
| Progress.EachCallIsAnswered | client/src/vault_service.cpp:6-249 | From any reachable state an idle client can make any call offered; if the others hold still it ends with the answer its operation owes it, operation by operation, and leaves the map and password it should |
| Progress.UnparsableListingFails | client/src/vault_service.cpp:26-34 | One row that does not parse fails every operation that reads the listing, for any client |
| Guarantees.ReadsAreTrue | client/src/vault_service.cpp:106-123 | In every run a get, listing or unlock told the truth about some moment of the call, under a password in force at some moment of it |
| ProtocolSteps.NextKeepsInv | client/src/vault_service.cpp:74-249 | Every step of any client, at any program counter, and every request of another user keeps the protocol invariant |
| ProtocolSteps.PostStatus | server/app/api/secrets.py:18-38 | The POST of an add, whatever others did since its client looked, is stored, refused as a duplicate or refused as invalid exactly as the map says at that moment, and adds just that row |
| ProtocolSteps.PutStatus | server/app/api/secrets.py:54-83 | The PUT of an update is stored exactly when the row is still there in the version read, conflicts exactly when its version moved, is missing exactly when it is gone, and never trips a name constraint |
| ProtocolSteps.ImportIsAccepted | server/app/api/restore.py:14-51 | A file exported from the vault meets every condition of restore at any later moment, except the explicit replacement |
| Linearizability.InitializeOpens | client/src/vault_service.cpp:6-22 | Initialize succeeds exactly for an account without a vault and leaves an empty vault that opens with its password |
| Linearizability.OrderReplays | client/src/vault_service.cpp:74-249 | Calls sorted by their points replay on the map from any moment to the last |
| Guarantees.UpdatesAreNeverLost | server/app/api/secrets.py:65-77 | In every run, unless a backup was imported meanwhile: from its GET to its successful PUT nobody else added, updated or removed the name, and a version conflict means somebody did update it |
| Guarantees.UpdateOverwritesWhatItRead | server/app/api/secrets.py:67-75 | In every run, imports included: a stored update overwrites the text its author read if and only if nobody set the text in between, or the last who did set that same text |
| Rewinds.UpdateAcrossImportCanBeLost | server/app/api/restore.py:41-41 | From any state with three idle clients there is a run in which an update read before an import is stored after it over a text its author never saw |
| Rewinds.ConflictAcrossImportCanBeNeedless | server/app/api/secrets.py:67-75 | From any state with three idle clients there is a run in which an update across an import is told of a conflict though nobody updated its name since it listed the rows |
| Guarantees.VanishedMeansAbsent | server/app/api/secrets.py:58-60 | In every run an update or removal that found its name and was then told "not found" had the name absent at some moment in between if and only if a removal of it or an import without it finished in between; without an import it always had |
| Vanishing.PresentNameCanVanish | server/app/api/secrets.py:58-60 | From any state with three idle clients there is a run in which an update is not found although its name was there at every moment from its listing to its PUT |
| Guarantees.NamesAreAddedOnce | client/src/vault_service.cpp:66-103 | In every run two successful adds of one name have a removal of it, or an import of a backup without it, finishing between them |
| Guarantees.RotationKeepsMeaning | client/src/vault_service.cpp:160-176 | After any run the wrapped key opens under exactly the last accepted password and yields the one vault key; id and mode are unchanged and rotations contribute nothing to the map |
| Guarantees.StateIsCommitted | client/src/vault_service.cpp:74-249 | After every run the store means the effects of the finished calls applied in the order in which they finished |
| Rotations.RotationKnewThePassword | client/src/vault_service.cpp:160-168 | The password given to an accepted rotation was in force during the call, and at the write if and only if nobody changed it meanwhile or the last who did put the same one in force |
| Rotations.RotationsCanRace | server/app/api/vaults.py:35-47 | In any state two idle clients that know the password can both be told their rotation succeeded while the first new password opens nothing |
| Backups.ExportThenImport | client/src/backup_service.cpp:43-138 | After any later run, import with replace brings back exactly the exported rows (ids, versions, ciphertexts) and map, and the vault opens with the export's password only |
| Backups.SavedFileRestores | client/src/backup_service.cpp:98-134 | Any file exported earlier restores, at any time, its records and wrapped key; without replace it is refused and nothing changes |
| Backups.ExportSaves | client/src/backup_service.cpp:43-84 | An export that lists the rows completes with a file of those records under the password it was given |
| BackupFiles.FileRoundTrip | client/src/backup_service.cpp:60-134 | Reading an exported file asks for exactly the exported vault and records with the header's password, and rejects every other password |
| BackupFiles.UnlocksExactly | client/src/vault_service.cpp:35-47 | A wrapped key opens under the password it was wrapped with and no other |
| BackupFiles.WrapKeepsKey | client/src/vault_service.cpp:163-168 | Wrapping under a new password keeps the key |
| BackupClient.BackupService.ExportFile | client/src/backup_service.cpp:43-85 | Export step by step: wrong password, too many records, or a file that reads back as exactly the rows |
| BackupClient.BackupService.ImportFile | client/src/backup_service.cpp:86-138 | Import step by step agrees with the reading of the file and with restore, and changes nothing when it refuses; it succeeds only for a whole file of this account, and then vault and rows are the file's |
| BackupFiles.ReadsExactly | client/src/backup_service.cpp:98-134 | Exactly the files that fit the account and format, open with the password and hold at most 10,000 records of the vault and mode their header names go to restore, as that request; the password is called wrong exactly when a fitting header does not open with it |
| VaultClient.VaultService.Initialize | client/src/vault_service.cpp:6-22 | Returns the new vault key exactly for an account without a vault, which then means the empty map |
| VaultClient.VaultService.ListRecords | client/src/vault_service.cpp:25-34 | Returns the rows, each once, all of them parsing; returns nothing exactly when some row does not parse |
| VaultClient.VaultService.FindRecord | client/src/vault_service.cpp:48-65 | The scan with trial decryption finds the first record of that name in a listing that parses, or fails as the specification says |
| Client.ScanStopsAtTheFirst | client/src/vault_service.cpp:50-64 | On any listing, duplicates included, the scan returns the first record that has the name, unless one before it cannot be opened |
| VaultClient.VaultService.FindName | client/src/vault_service.cpp:66-73 | Lookup succeeds exactly for the names of the map and yields the record that stands for the name |
| VaultClient.VaultService.Add | client/src/vault_service.cpp:74-105 | Adds the name and text, or says which of the five ways to refuse applies, leaving the map alone |
| VaultClient.VaultService.AddUnlocked | client/src/vault_service.cpp:177-203 | The same with the key at hand |
| VaultClient.VaultService.Get | client/src/vault_service.cpp:106-123 | Returns the map's text, NotFound exactly when absent, BadPassword exactly for another password |
| VaultClient.VaultService.GetUnlocked | client/src/vault_service.cpp:204-213 | Returns the map's text, NotFound exactly when absent |
| VaultClient.VaultService.Update | client/src/vault_service.cpp:124-143 | Replaces the text of an existing name and nothing else |
| VaultClient.VaultService.UpdateUnlocked | client/src/vault_service.cpp:214-229 | The same with the key at hand |
| VaultClient.VaultService.SendUpdate | client/src/vault_service.cpp:218-224 | The PUT of an update on whatever store it meets: stored, a version conflict or a vanished record, as the update request decides |
| VaultClient.VaultService.Remove | client/src/vault_service.cpp:144-150 | Removes a name without a key in visible mode, refuses in private mode |
| VaultClient.VaultService.RemoveUnlocked | client/src/vault_service.cpp:230-234 | Removes exactly the name |
| VaultClient.VaultService.ListUnlocked | client/src/vault_service.cpp:235-249 | Returns the names of the map, each once, in lexicographic order |
| VaultClient.VaultService.RotatePassword | client/src/vault_service.cpp:160-176 | The vault opens with the new password afterwards and means the same map |
| Client.FindAgrees | client/src/vault_service.cpp:48-73 | Lookup by trial decryption agrees with the map, in any order of the rows |
| Client.ClashMeansNameInUse | server/app/models/secret.py:14-18 | The constraints, which never see a private name, reject a new row exactly when its name is in use |
| Client.OwnNameNeverClashes | server/app/models/secret.py:14-18 | Re-sealing a row under its own name never violates a constraint |
| Client.NewPayloadEncodes | client/src/vault_service.cpp:177-198 | What add seals, under the nonces drawn for it, opens to the name and text in both modes and is valid exactly for names of 1 to 255 characters or private ones |
| Client.ResealEncodes | client/src/vault_service.cpp:214-224 | What update seals, under a new nonce, keeps the record's name, encrypted name and hash and opens to the new text |
| Client.AddRow | client/src/vault_service.cpp:177-198 | Adding a row for a new name extends the represented map by it |
| Client.ChangeRow | client/src/vault_service.cpp:214-224 | Rewriting a name's row changes its text and keeps all others |
| Client.DropRow | client/src/vault_service.cpp:230-234 | Dropping a name's row removes that name only |
| Client.RepresentsOneMap | client/src/models.cpp:55-82 | Rows represent at most one map |
| Client.SortedNamesListTheMap | client/src/vault_service.cpp:235-249 | Opening and sorting the names of any listing gives the keys of the map in lexicographic order |
| Client.BelowIsLexicographic | client/src/vault_service.cpp:247-247 | The comparison is the lexicographic order: a proper prefix, or smaller at the first difference |
| Client.SortedListingIsUnique | client/src/vault_service.cpp:247-248 | There is only one listing of a key set in lexicographic order |
| Crypto.OpensExactlyWhatWasSealed | client/src/crypto_service.cpp:35-64 | Decryption accepts a value exactly when encryption yields it for that key, text and context; it is then of version 1, XChaCha20-Poly1305, with a nonce of 24 and a key of 32 bytes |
| Crypto.KnownContexts | client/src/crypto_service.cpp:65-79 | The text of each context on sample arguments, which every client of a vault must build alike |
| Crypto.KeksAreSeparate | client/src/crypto_service.cpp:24-34 | A key encryption key exists exactly for Argon2id with a salt of 16 bytes and tells passwords and parameters apart |
| Crypto.PackedNamesUnpack | client/src/models.cpp:62-63 | A packed name unpacks to what was packed, and nothing shorter than 45 bytes unpacks |
| Crypto.ContextsAreSeparate | client/src/crypto_service.cpp:65-79 | The five builders are jointly injective over purpose and arguments when vault ids have equal length, even if names contain colons |
| Crypto.UnequalIdsCanCollide | client/src/crypto_service.cpp:68-70 | With vault ids of different length two contexts can collide |
| Crypto.MovedCiphertextIsRejected | client/src/crypto_service.cpp:50-79 | A ciphertext offered under another purpose, vault, record, name or account never opens |
| Store.HandleKeepsValid | server/app/schemas/secret.py:11-32 | One vault a user, every row in a live vault, one name form matching the mode, names and hashes unique, versions at least 1, all sizes right: kept by every request |
| Store.RestoreKeepsValid | server/app/schemas/restore.py:31-56 | A restore keeps the store invariant, accepted or refused |
| Store.RestoreIsExact | server/app/api/restore.py:14-51 | Accepted exactly when the payload is valid, the account and mode match and nothing collides; then vault and rows are the payload's, otherwise nothing changes and the answer names the first condition that failed |
| Store.InsertAllExact | server/app/api/restore.py:38-42 | The row loop succeeds exactly when no id is taken and no two records clash, and adds just those rows |
| Store.UsersAreIsolated | server/app/repositories/secrets.py:9-25 | No request of one user changes another user's vault or rows, even when ids collide |
| Ledger.OthersLeaveMyVault | server/app/repositories/secrets.py:9-14 | No run of requests by others changes a user's vault or rows |
| Store.OnlyMentionedIdsAppear | server/app/api/secrets.py:18-38 | A request brings in only ids it mentions |
| Store.UpdateOnRows | server/app/api/secrets.py:54-83 | When an update is stored, what it does to the caller's rows, and the answer of each refusal |
| Store.CreateOnRows | server/app/api/secrets.py:18-38 | When a new secret is stored, what it does to the caller's rows, and the answer of each refusal |
| Store.RemoveOnRows | server/app/api/secrets.py:86-96 | A row is removed, and only it, exactly when it is the caller's |
| Store.CreateVaultExact | server/app/api/vaults.py:14-24 | An account gets a vault exactly when it has none and the id is free; it has no rows |
| Store.SchemaLimits | server/app/schemas/restore.py:43-56 | Sizes, formats and bounds of every accepted payload, in numbers |
| Store.RewrapOnRows | server/app/api/vaults.py:35-47 | Re-wrapping replaces the wrapped key and leaves id, mode and rows alone |
| ServerTables.Server.PostVault | server/app/api/vaults.py:14-24 | The transaction on the tables agrees with the request function |
| ServerTables.Server.PutVaultKey | server/app/api/vaults.py:35-47 | The transaction on the tables agrees with the request function |
| ServerTables.Server.PostSecret | server/app/api/secrets.py:18-38 | The transaction on the tables agrees with the request function |
| ServerTables.Server.PutSecret | server/app/api/secrets.py:54-83 | The transaction on the tables agrees with the request function |
| ServerTables.Server.DeleteSecret | server/app/api/secrets.py:86-96 | The transaction on the tables agrees with the request function |
| ServerTables.Server.ListSecrets | server/app/repositories/secrets.py:18-25 | Lists exactly the caller's rows, each once |
| ServerTables.Server.RestoreBackup | server/app/api/restore.py:14-51 | Delete, insert row by row and roll back on any refusal: all or nothing, as the request function says |
| ServerTables.FailsFromHere | server/app/api/restore.py:45-50 | Once one row is refused the whole restore is |
| Ledger.VersionsCountUpdates | server/app/api/secrets.py:65-77 | In every run of requests by any users, a live row's version is its version at creation or restore plus its update events since |
| Ledger.RowsMatchTheLog | server/app/services/audit.py:10-30 | While a user restores nothing, live rows move with created minus deleted events |
| Ledger.OnePutPerVersion | server/app/api/secrets.py:67-75 | Of all PUTs carrying one version of a row at most one is accepted until the row is deleted or replaced |
| Ledger.StoredIsLastWritten | server/app/api/secrets.py:18-96 | What is stored under an id is always the last accepted write, read off the requests alone |
| Ledger.HandleLogs | server/app/services/audit.py:22-30 | One event per accepted mutating request, of its kind and resource; none otherwise |
| Limits.PostAcrossRestoreCorrupts | server/app/api/secrets.py:22-38 | A POST sealed before a restore and accepted after it leaves rows that mean a map if and only if the vault's id and key are unchanged |
| Limits.PutAcrossRestoreCorrupts | server/app/api/secrets.py:54-83 | The same for the PUT of an update |
| Limits.RotationAcrossRestoreLosesTheKey | server/app/api/vaults.py:35-47 | A re-wrapped key is always accepted, and then some password yields the vault's key if and only if it is the key that was wrapped |
| Limits.DuplicateIsCaughtIff | server/app/models/secret.py:17-17 | Two private records clash exactly when they have one name and both carry their hash |
| Limits.LegacyNameCanBeDoubled | server/app/models/secret.py:17-26 | A private vault with any rows accepts a second record of a name if and only if no row of that name carries its hash |
| Agent.Process.Handle | client/src/agent.cpp:480-541 | One request under the mutex, branch by branch, including that any operation refreshes the idle timer of an unlocked agent; it serves an operation exactly when a key is there, the operation works and is one of the five, and only with the key of an unlock that still stands |
| Agent.Process.Evaluate | client/src/agent.cpp:441-451 | One turn of the watchdog, after which a key in memory is within both limits |
| Agent.KeyExpiresInTime | client/src/agent.cpp:440-451 | At any time within delta of the watchdog's last turn a key in memory was unlocked at most absolute + delta and used at most idle + delta ago |
| Agent.NoTrafficKeepsTheKey | client/src/agent.cpp:485-513 | Without a fresh unlock no traffic keeps the key beyond absolute + delta |
| Agent.OnlyUnlockRestarts | client/src/agent.cpp:485-513 | Nothing but an accepted unlock moves the start of the absolute limit |
| Agent.KeyIsTheLastUnlock | client/src/agent.cpp:485-516 | The key is the 32 bytes of an accepted unlock with no lock, expiry or other unlock since, and empty exactly when there is none |
| Agent.ServedUnderUnlock | client/src/agent.cpp:510-537 | A vault operation is served only with the key of an unlock that still stood |
| Agent.ServedExactly | client/src/agent.cpp:510-537 | list, get, add, update and remove, when they work, are served with a key if and only if an unlock with that key still stands; nothing else is served |
| Agent.OtherAnswers | client/src/agent.cpp:485-509 | An unlock is granted exactly for 32 bytes and sets key and both timers, a lock is granted and ends the agent, the watchdog drops an expired key |
| Agent.StatusIsTruthful | client/src/agent.cpp:495-505 | Status reports a key exactly when there is one and the whole seconds left of each limit, none exactly when that limit is reached |
| AgentLock.OneAgent | client/src/agent.cpp:161-178 | Over any processes, stops and crashes: at most one holds the lock, the endpoint is absent, stale or the holder's, and a client reaches exactly the serving process |
| AgentLock.UnlinksSpareOthers | client/src/agent.cpp:220-235 | Neither unlink removes the endpoint of another process that is still open |
| AgentLock.ServingIsUndisturbed | client/src/agent.cpp:429-433 | A serving process keeps its endpoint through every step of the others |
| AgentLock.CrashReleases | client/src/agent.cpp:544-560 | After a crash the next process takes over |
| AgentLock.AgentComesUp | client/src/agent.cpp:418-461 | In every run, when nobody holds the lock, a process that starts takes it, clears the path, binds and is the one clients reach |
| AgentLock.AgentIsReplaced | client/src/agent.cpp:544-560 | After a stop, or a crash at any stage, the next process that starts serves in its place |
| AgentLock.SecondAgentYields | client/src/agent.cpp:429-433 | A process that finds the lock taken is gone at once and has touched nothing |
| AgentLock.FailedBindReleases | client/src/agent.cpp:453-460 | A process that cannot bind or listen gives the lock back and nobody is reached |
| AgentLock.WhatTouchesThePath | client/src/agent.cpp:220-235 | Only the two unlinks and a successful bind change what the path holds; a crash leaves its file |
| Limiter.LoginRateLimiter.IsLimited | server/app/core/middleware.py:86-92 | Inserts a missing key, prunes from the front, compares with the limit |
| Limiter.LoginRateLimiter.AddFailure | server/app/core/middleware.py:94-98 | Evicts the oldest key only for a new key at capacity, then appends |
| Limiter.LoginRateLimiter.Clear | server/app/core/middleware.py:100-102 | Forgets the key |
| Limiter.EvictsTheOldest | server/app/core/middleware.py:94-98 | In every run a failure pushes out another key exactly when its own is new and there are 10,000, and then the one inserted longest ago |
| Limiter.FailureEvictsAtCapacity | server/app/core/middleware.py:94-98 | What a failure does to the whole table below and at capacity |
| Limiter.DequeIsRecentLog | server/app/core/middleware.py:86-102 | The deque is exactly the failures logged since the key was last forgotten that are later than the latest queried time minus the window |
| Limiter.QueryCountsTheWindow | server/app/core/middleware.py:86-92 | A query is limited exactly when the failures it counts reach the limit; they are the failures of the window ending at its time, less those in it that had left the window of a later query, plus those recorded after its time, and exactly the window's if and only if every logged failure is in the window just when it is later than the pruned horizon |
| Limiter.OrderedQueriesAreExact | server/app/core/middleware.py:86-92 | When no event of the key is timed after the query, the answer is exactly that of the sliding window ending at its time |
| Limiter.LateQueryUndercounts | server/app/core/middleware.py:87-91 | A run of logins in which a late query misses a failure inside its window |
| Limiter.EarlyQueryOvercounts | server/app/core/middleware.py:87-92 | A run of logins in which a query counts a failure recorded after its time |
| Limiter.WindowIsBounded | server/app/api/auth.py:39-52 | With at most C logins of a key under way, no window holds more than attempts - 1 + C recorded failures beside those forgotten within it |
| Limiter.WindowBoundIsReached | server/app/api/auth.py:39-52 | For every limit and every C there is a run of logins, with nothing forgotten, that reaches the bound |
| Limiter.EvictionLoosensTheLimit | server/app/core/middleware.py:94-98 | A run of logins in which an eviction lets a key exceed that bound |
| Limiter.QueriesGrowTheTable | server/app/core/middleware.py:89-97 | Queries alone grow the table to any size |
| PasswordGenerator.GeneratePassword | client/src/gui/password_generator.cpp:8-37 | Accepts exactly lengths 8 to 256 with a class enabled, and says why not otherwise; for all numbers drawn the password has that length, only enabled classes of upper and lower case, digits and symbols, and a character of each |
| PasswordGenerator.PossiblePasswords | client/src/gui/password_generator.cpp:8-37 | A text can come from the generator, for some numbers drawn, if and only if it is a password as the user wished it |
| PasswordGenerator.Generate | client/src/gui/password_generator.cpp:14-37 | For any classes: the password that the numbers drawn make, or the reason for refusing |
| PasswordGenerator.ShuffleInPlace | client/src/gui/password_generator.cpp:32-35 | The loop over the array is the shuffle of its draws |
| PasswordGenerator.ShuffleIsBijective | client/src/gui/password_generator.cpp:32-35 | On different characters exactly the permutations are reached, each by one sequence of draws |
| PasswordGenerator.ShufflePermutes | client/src/gui/password_generator.cpp:32-35 | The shuffle keeps the multiset of characters |
| PasswordGenerator.ChosenAreTheEnabled | client/src/gui/password_generator.cpp:13-21 | The chosen classes are exactly the enabled ones |
| Controller.OneAtATime | client/src/gui/app_controller.cpp:137-165 | In every run at most one operation is under way, busy says so, and the app screen implies unlocked |
| Controller.AppliedSnapshotsAreCurrent | client/src/gui/app_controller.cpp:298-346 | A snapshot is applied exactly when no operation was dispatched since it began, and then none was under way at any moment of it |
| Controller.AddAccountCanBeOverwritten | client/src/gui/app_controller.cpp:572-575 | After any run, the login screen of a new account survives everything that may come back if and only if the window is closing, or no current snapshot is pending and every operation under way leaves the screen alone |
| Controller.AppController.FinishOperation | client/src/gui/app_controller.cpp:146-165 | The completion of an operation, with expiry, errors and the next dispatch, keeps the invariant and never turns the generation back |
| Controller.AppController.RequestOperation | client/src/gui/app_controller.cpp:137-145 | A request starts its operation alone, or is dropped while another is under way |
| Controller.AppController.ApplyShared | client/src/gui/app_controller.cpp:307-346 | What a snapshot writes; it writes only while no operation is under way |
| Controller.AppController.Complete | client/src/gui/app_controller.cpp:463-505 | What each completion does to screen and lock state |
| Controller.AnswersShow | client/src/gui/app_controller.cpp:146-165 | What each operation's answer, failure or expiry leaves on screen, who counts as signed in and unlocked, and which operation it starts |
| Controller.SnapshotsShow | client/src/gui/app_controller.cpp:307-346 | What each snapshot of the shared state shows when it is current, and that a stale one shows nothing |
| Controller.UsersShow | client/src/gui/app_controller.cpp:572-592 | What starting, requesting, adding an account, cancelling it, the timer and closing do to the view |
| Controller.LockedUntilUnlocked | client/src/gui/app_controller.cpp:540-551 | Once locked, the vault stays locked and off the screen in every run until an answer unlocks it |

## Left out

- Cryptographic primitives: libsodium, Argon2id, XChaCha20-Poly1305, BLAKE2 and Base64 are the ideal functions above; nonces are never compared across messages.
- Transport: HTTP, TLS, request and response size limits, JSON parsing, file sizes and the rename that replaces a backup file.
- SQL below one transaction: the update's WHERE clause is its compare-and-set and constraint checks happen at the statement.
- Linearizability.EveryRunIsLinearizable: the sequential map has no rows and versions, so it leaves open when a present name is answered by a conflict or, across an import, by not found; Guarantees.UpdatesAreNeverLost and Guarantees.VanishedMeansAbsent say when.
- Linearizability.EveryRunIsLinearizable: the imports of a run are of files exported from the same vault during the run; files of another vault are the subject of Limits.PostAcrossRestoreCorrupts.
- Linearizability.EveryRunIsLinearizable: every private record of the starting vault carries its name hash; legacy records are the subject of Limits.LegacyNameCanBeDoubled.
- VaultClient.VaultService.Update: speaks of a server nobody else uses, so a version conflict cannot occur there; conflicts are in VaultClient.VaultService.SendUpdate and in module Protocol.
- VaultClient.VaultService.UpdateUnlocked: the same.
- ServerTables.Server.ListSecrets: does not promise the order by creation time and id; rows carry no timestamps and every client result is proved for any order.
- AgentLock.OneAgent: covers the POSIX lock and socket; the Windows pipe and mutex, peer credentials and the probing of ensure_running are not modelled; its forks are the model's spawns, which may come at any time.
- Agent.KeyExpiresInTime: takes the watchdog's gap as delta; a request that holds the mutex for long makes the gap longer.
- Frame reading and writing of the agent, the bit layout of UUIDs and the byte layout of packed names: only that a packed name unpacks.
- Memory wiping, clipboard, timers for revealed values, translations, configuration and session files.
- User registration, password hashing and JSON web tokens: library wrappers around one insert.
- Controller.OneAtATime: records, notices and the language field are not part of the view.
- The audit event's address and user agent: taken from headers, not read by anything modelled.
