/** Export and import, step by step, against a server nobody else is using. */
module BackupClient {
  import opened Wrappers
  import opened Crypto
  import opened Store
  import opened Client
  import opened BackupFiles
  import opened Protocol
  import opened ProtocolInvariant
  import opened ProtocolSteps
  import opened Linearizability
  import opened ServerTables

  /** A file that reads back, with this password only, as exactly these rows of this vault. */
  ghost predicate Archives(r: Realm, file: BackupFile, rows: map<Uuid, Secret>, password: string) {
    && WrapsUnder(r, file.wrapped, password)
    && RowsOfRecords(r.vaultId, RecordsOf(file)) == rows
    && forall attempt, replace ::
         ReadFile(file, r.user, attempt, replace)
         == if attempt == password
            then Ready(Backup(1, r.user, replace, r.vaultId, file.wrapped, r.isPrivate, RecordsOf(file)))
            else WrongPassword
  }

  lemma MadeFileArchives(
    r: Realm, d: Database, m: map<string, string>, password: string, vault: Vault, records: seq<Record>, nonce: Nonce)
    requires Opens(r, d, m, password) && Listing(RowsOf(d, r.user), records) && |records| <= MAX_RECORDS
    requires vault.id == r.vaultId && vault.isPrivate == r.isPrivate && WrapsUnder(r, vault.wrapped, password)
    ensures var file := MakeFile(r.user, vault, r.key, records, nonce);
      file.Some? && Archives(r, file.value, RowsOf(d, r.user), password)
  {
    hide Represents, Valid, Listing, WrapsUnder, RowsOf, RowsOfRecords, ReadFile, Inv;
    var s := Start(r, d, m, password);
    StartIsOk(r, d, m, password);
    InvParts(r, s, 0);
    ListingReadsBack(r, s, records);
    FileRoundTrip(r, vault, records, nonce, password, password, true);
    var file := MakeFile(r.user, vault, r.key, records, nonce).value;
    assert file.wrapped == vault.wrapped;
    hide MakeFile, RecordsOf, PasswordOf;
    forall attempt, replace
      ensures ReadFile(file, r.user, attempt, replace)
              == if attempt == password
                 then Ready(Backup(1, r.user, replace, r.vaultId, file.wrapped, r.isPrivate, records))
                 else WrongPassword
    {
      FileRoundTrip(r, vault, records, nonce, password, attempt, replace);
    }
  }

  /** The header opens with the password to a key, and the payload under it is the header's vault. */
  ghost predicate Whole(file: BackupFile, user: Uuid, password: string) {
    exists key :: HeaderHolds(file, user, password, KeyBytes(key)) && PayloadHolds(file, user, key, RecordsOf(file))
  }

  lemma WhatIsRestored(file: BackupFile, user: Uuid, password: string, replace: bool, d: Database)
    requires ReadFile(file, user, password, replace).Ready?
    ensures HeaderFits(file, user) && Whole(file, user, password)
    ensures var (after, status) := Restore(d, user, ReadFile(file, user, password, replace).backup);
      status.Done? ==>
        && user in after.vaults && after.vaults[user] == Vault(file.vaultId, file.wrapped, file.isPrivate)
        && (Valid(d) ==> RowsOf(after, user) == RowsOfRecords(file.vaultId, RecordsOf(file)))
  {
    var b := ReadFile(file, user, password, replace).backup;
    ReadsExactly(file, user, password, replace, b);
    hide ReadFile, Valid, ValidBackup, RowsOf, RowsOfRecords;
    assert b.records == RecordsOf(file);
    if Restore(d, user, b).1.Done? && Valid(d) { RestoreOnRows(d, user, b); }
    hide WithoutVault, InsertAll, VaultIdUsed, OneMode;
  }

  class BackupService {
    const server: Server
    const user: Uuid

    constructor (server: Server, user: Uuid)
      ensures this.server == server && this.user == user
    {
      this.server, this.user := server, user;
    }

    /** The file holds the vault as it stands, under the password that opened it. */
    method ExportFile(
      ghost r: Realm, ghost m: map<string, string>, ghost password: string, attempt: string, nonce: Nonce)
      returns (outcome: Outcome)
      requires r.user == user && Opens(r, server.Contents(), m, password)
      ensures outcome.BadPassword? <==> attempt != password
      ensures outcome.TooLarge? <==> attempt == password && |m| > 10_000
      ensures !outcome.BadPassword? && !outcome.TooLarge? ==>
                outcome.Saved? && Archives(r, outcome.file, RowsOf(server.Contents(), user), password)
    {
      hide Represents, Valid, Listing, RowsOf, MakeFile, WrapsUnder, Archives, Unlock;
      var vault := server.GetVault(user);
      UnlocksExactly(r, vault.value.wrapped, password, attempt);
      var key := Unlock(vault.value.wrapped, user, attempt);
      if key.None? { return BadPassword; }
      var records := server.ListSecrets(user);
      OneRecordPerName(r, RowsOf(server.Contents(), user), m, records);
      if |records| > MAX_RECORDS { return TooLarge; }
      MadeFileArchives(r, server.Contents(), m, password, vault.value, records, nonce);
      var file := MakeFile(user, vault.value, key.value, records, nonce);
      outcome := Saved(file.value);
    }

    /** Check by check, then one request. */
    method ImportFile(file: BackupFile, attempt: string, replace: bool) returns (outcome: Outcome)
      modifies server
      ensures match ReadFile(file, user, attempt, replace)
        case WrongPassword => outcome == BadPassword && server.Contents() == old(server.Contents())
        case Unacceptable => outcome == Failed && server.Contents() == old(server.Contents())
        case Ready(backup) =>
          var (d, status) := Restore(old(server.Contents()), user, backup);
          && server.Contents() == d
          && outcome == (if status.Done? then Imported else if status == VAULT_NOT_EMPTY then VaultPresent else Failed)
      ensures outcome.Imported? ==>
                && HeaderFits(file, user) && Whole(file, user, attempt)
                && user in server.vaults && server.vaults[user] == Vault(file.vaultId, file.wrapped, file.isPrivate)
      ensures outcome.Imported? && Valid(old(server.Contents())) ==>
                RowsOf(server.Contents(), user) == RowsOfRecords(file.vaultId, RecordsOf(file))
    {
      if ReadFile(file, user, attempt, replace).Ready? {
        WhatIsRestored(file, user, attempt, replace, server.Contents());
      }
      hide Decrypt, Restore, RowsOf, RowsOfRecords, RecordsOf, Whole, Valid, HeaderFits;
      if file.magic != MAGIC || file.formatVersion != FILE_VERSION { return Failed; }
      if file.sourceUser != user { return Failed; }
      var kek := DeriveKek(attempt, file.wrapped.kdf);
      if kek.None? { return Failed; }
      var header := Decrypt(WrappedValue(file.wrapped), kek.value, VaultKeyAad(user));
      if header.None? { return BadPassword; }
      if !header.value.KeyBytes? { return Failed; }
      var plain := Decrypt(file.payload, header.value.key, BackupAad(user));
      if plain.None? || !plain.value.Archive? { return Failed; }
      var payload := plain.value;
      if payload.vaultId != file.vaultId || payload.isPrivate != file.isPrivate { return Failed; }
      if |payload.records| > MAX_RECORDS { return Failed; }
      var status := server.RestoreBackup(
        user, Backup(1, user, replace, payload.vaultId, file.wrapped, payload.isPrivate, payload.records));
      outcome := if status.Done? then Imported else if status == VAULT_NOT_EMPTY then VaultPresent else Failed;
    }
  }
}
