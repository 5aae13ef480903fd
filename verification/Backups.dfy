/** Export, any later life of the vault, then import: exactly the exported vault again. */
module Backups {
  import opened Wrappers
  import opened Crypto
  import opened Store
  import opened Client
  import opened BackupFiles
  import opened Protocol
  import opened ProtocolInvariant
  import opened ProtocolSteps
  import opened Linearizability

  /** Client c is about to list the rows for an export it will complete. */
  ghost predicate Exporting(r: Realm, s: System, c: nat, draw: Draw) {
    && Enabled(r, s, Proceed(c, draw)) && PcOf(s, c).KnowsVault? && PcOf(s, c).call.op.Export?
    && PcOf(s, c).call.auth.Password? && |draw.records| <= MAX_RECORDS
  }

  /** The export succeeds: a file of those rows, under the password the call was given. */
  lemma ExportSaves(r: Realm, s: System, c: nat, draw: Draw)
    requires Inv(r, s) && s.hist != [] && Exporting(r, s, c, draw)
    ensures var s1 := Next(r, s, Proceed(c, draw));
      && |s1.done| == |s.done| + 1 && s1.done[|s.done|].outcome.Saved?
      && var file := s1.done[|s.done|].outcome.file;
      RecordsOf(file) == draw.records && PasswordOf(file) == PcOf(s, c).call.auth.password
  {
    hide Inv, PcOk, Core, Represents, HistoryOk, FilesOk, WrapsUnder, Entitled;
    InvParts(r, s, c);
    var pc := PcOf(s, c);
    KnowsCall(r, s, pc.call, pc.start, pc.vault, pc.key, draw) by { hide *; ReadsNow(r, s, pc, draw); }
    FileRoundTrip(r, pc.vault, draw.records, draw.nonce1, pc.call.auth.password, pc.call.auth.password, true);
    ExportMoves(r, pc.call, pc.start, |s.hist| - 1, pc.vault, draw);
    hide AfterList, MakeFile, ReadFile, RecordsOf, PasswordOf;
  }

  lemma ReadsNow(r: Realm, s: System, pc: Pc, draw: Draw)
    requires pc.KnowsVault? && Core(r, s) && HistoryOk(r, s.hist, s.done) && PcOk(r, s, pc)
    requires draw.id !in s.drawn && draw.id !in s.d.secrets && Listing(Rows(r, s), draw.records)
    ensures Reads(r, s, pc.call, pc.start, pc.vault, pc.key, draw)
  {
    hide Core, HistoryOk, PcOk, Listing, Rows;
  }

  /** A file in the history restores, at any time, exactly its records and the key its header wraps. */
  lemma SavedFileRestores(r: Realm, t: System, file: BackupFile, attempt: string, replace: bool)
    requires Inv(r, t) && Exported(t, file)
    ensures ReadFile(file, r.user, attempt, replace)
            == if attempt == PasswordOf(file) then Reading.Ready(ImportedBackup(r, file, replace)) else WrongPassword
    ensures Restore(t.d, r.user, ImportedBackup(r, file, false)) == (t.d, VAULT_NOT_EMPTY)
    ensures var (after, status) := Restore(t.d, r.user, ImportedBackup(r, file, true));
      && status.Done? && Valid(after)
      && r.user in after.vaults && after.vaults[r.user] == Vault(r.vaultId, file.wrapped, r.isPrivate)
      && RowsOf(after, r.user) == RowsOfRecords(r.vaultId, RecordsOf(file))
      && Unlock(after.vaults[r.user].wrapped, r.user, attempt)
         == (if attempt == PasswordOf(file) then Some(r.key) else None)
  {
    hide Inv, Core, Represents, HistoryOk, WrapsUnder, PcOk, RecordsOk, ReadFile, Restore, RowsOf, RowsOfRecords, Valid;
    InvParts(r, t, 0);
    ExportedReads(r, t, file, attempt, replace);
    ImportIsAccepted(r, t, file, true);
    ImportIsAccepted(r, t, file, false);
    RefusedRestoreChangesNothing(t.d, r.user, ImportedBackup(r, file, false));
    CoreIsValid(r, t);
    RestoreKeepsValid(t.d, r.user, ImportedBackup(r, file, true));
    RestoreOnRows(t.d, r.user, ImportedBackup(r, file, true));
    UnlocksExactly(r, file.wrapped, PasswordOf(file), attempt);
  }

  lemma CoreIsValid(r: Realm, t: System)
    requires Core(r, t)
    ensures Valid(t.d) && WellKeyed(r)
  {
  }

  lemma RefusedRestoreChangesNothing(d: Database, user: Uuid, b: Backup)
    requires !Restore(d, user, b).1.Done?
    ensures Restore(d, user, b).0 == d
  {
  }

  lemma SavedStays(r: Realm, s: System, actions: seq<Action>, j: nat)
    requires Inv(r, s) && s.hist != [] && Allowed(r, s, actions) && j < |s.done| && s.done[j].outcome.Saved?
    ensures Exported(Run(r, s, actions), s.done[j].outcome.file)
  {
    hide Inv, Allowed, Run;
    RunExtends(r, s, actions);
    assert Run(r, s, actions).done[j] == s.done[j];
  }

  /** The caller's rows and map are those of before, and the vault opens with that password and no other. */
  ghost predicate Returned(r: Realm, before: Database, m: map<string, string>, after: Database, password: string) {
    && RowsOf(after, r.user) == RowsOf(before, r.user)
    && Represents(r, RowsOf(after, r.user), m)
    && r.user in after.vaults && after.vaults[r.user].id == r.vaultId && after.vaults[r.user].isPrivate == r.isPrivate
    && forall attempt ::
         Unlock(after.vaults[r.user].wrapped, r.user, attempt) == if attempt == password then Some(r.key) else None
  }

  /** Restoring a saved file brings back the rows it was made from. */
  lemma SavedFileReturns(r: Realm, before: Database, m: map<string, string>, t: System, file: BackupFile)
    requires Inv(r, t) && Exported(t, file) && Represents(r, RowsOf(before, r.user), m)
    requires RowsOfRecords(r.vaultId, RecordsOf(file)) == RowsOf(before, r.user)
    ensures Restore(t.d, r.user, ImportedBackup(r, file, true)).1.Done?
    ensures Returned(r, before, m, Restore(t.d, r.user, ImportedBackup(r, file, true)).0, PasswordOf(file))
  {
    hide Inv, Represents, Restore, ReadFile, RowsOf, RowsOfRecords, RecordsOf, PasswordOf, Valid, Unlock;
    hide ImportedBackup;
    hide Exported;
    var after := Restore(t.d, r.user, ImportedBackup(r, file, true)).0;
    SavedFileRestores(r, t, file, "", true);
    forall attempt
      ensures Unlock(after.vaults[r.user].wrapped, r.user, attempt)
              == if attempt == PasswordOf(file) then Some(r.key) else None
    {
      SavedFileRestores(r, t, file, attempt, true);
    }
  }

  /**
   The law of backups: export the vault in state s, let everything run on (writes, removals, rotations,
   imports, other users), then import with replace. Back come exactly the rows of s, with their ids, versions
   and ciphertexts; they open to the map of s; and the vault opens with the export's password and no other.
   */
  lemma ExportThenImport(r: Realm, s: System, c: nat, draw: Draw, actions: seq<Action>)
    requires Inv(r, s) && s.hist != [] && Exporting(r, s, c, draw)
    requires Allowed(r, Next(r, s, Proceed(c, draw)), actions)
    ensures var s1, password := Next(r, s, Proceed(c, draw)), PcOf(s, c).call.auth.password;
      var t := Run(r, s1, actions);
      exists file, backup, after ::
        && Exported(s1, file)
        && ReadFile(file, r.user, password, true) == Reading.Ready(backup)
        && Restore(t.d, r.user, backup) == (after, Status.Done)
        && Returned(r, s.d, Last(s.hist).contents, after, password)
  {
    hide Inv, Next, Exporting, Core, Represents, HistoryOk, FilesOk, PcOk, Allowed, Run, Restore, ReadFile, RowsOf;
    hide RowsOfRecords, RecordsOf, PasswordOf, Enabled, Valid, Unlock, ImportedBackup, Exported, Returned;
    ExportSaves(r, s, c, draw);
    ExportingListsRows(r, s, c, draw);
    ExportingIsEnabled(r, s, c, draw);
    NextKeepsInv(r, s, Proceed(c, draw));
    var s1 := Next(r, s, Proceed(c, draw));
    var t, file := Run(r, s1, actions), s1.done[|s.done|].outcome.file;
    InvMeans(r, s1);
    RunKeepsInv(r, s1, actions);
    SavedStays(r, s1, actions, |s.done|);
    IsExported(s1, |s.done|);
    SavedFileRestores(r, t, file, PasswordOf(file), true);
    SavedFileReturns(r, s.d, Last(s.hist).contents, t, file);
  }

  lemma ExportingIsEnabled(r: Realm, s: System, c: nat, draw: Draw)
    requires Exporting(r, s, c, draw)
    ensures Enabled(r, s, Proceed(c, draw))
  {
  }

  lemma ExportingListsRows(r: Realm, s: System, c: nat, draw: Draw)
    requires Inv(r, s) && s.hist != [] && Exporting(r, s, c, draw)
    ensures RowsOfRecords(r.vaultId, draw.records) == RowsOf(s.d, r.user)
    ensures Represents(r, RowsOf(s.d, r.user), Last(s.hist).contents)
  {
    InvParts(r, s, c);
    hide Inv, Core, Represents, Listing, RowsOf, RowsOfRecords;
    ListingReadsBack(r, s, draw.records);
  }

  lemma IsExported(s: System, j: nat)
    requires j < |s.done| && s.done[j].outcome.Saved?
    ensures Exported(s, s.done[j].outcome.file)
  {
  }
}
