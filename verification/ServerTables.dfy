/**
 The server as it runs: tables updated in place, one transaction a request, with rollback.
 Every method is proved against the request function of module Store.
 */
module ServerTables {
  import opened Wrappers
  import opened Crypto
  import opened Store
  import opened Client

  class Server {
    var vaults: map<Uuid, Vault>
    var secrets: map<Uuid, Secret>
    var audit: seq<Event>

    function Contents(): (d: Database)
      reads this
    {
      Database(vaults, secrets, audit)
    }

    constructor ()
      ensures Contents() == Database(map[], map[], []) && Valid(Contents())
    {
      vaults, secrets, audit := map[], map[], [];
    }

    method AddAuditEvent(user: Uuid, kind: EventKind, resource: Uuid)
      modifies this`audit
      ensures Contents() == Logged(old(Contents()), user, kind, resource)
    {
      audit := audit + [Event(user, kind, resource)];
    }

    method GetVault(user: Uuid) returns (vault: Option<Vault>)
      ensures vault == if user in vaults then Some(vaults[user]) else None
    {
      vault := if user in vaults then Some(vaults[user]) else None;
    }

    /** The rows of the user, each once. */
    method ListSecrets(user: Uuid) returns (records: seq<Record>)
      ensures Listing(RowsOf(Contents(), user), records)
    {
      var rows := RowsOf(Contents(), user);
      records := [];
      var left := rows.Keys;
      while left != {}
        invariant left <= rows.Keys
        invariant forall i | 0 <= i < |records| :: ListedAt(rows, records[i]) && records[i].id !in left
        invariant forall i, j | 0 <= i < j < |records| :: records[i].id != records[j].id
        invariant forall id | id in rows :: id in left || exists i | 0 <= i < |records| :: records[i].id == id
        decreases left
      {
        hide RowsOf;
        ghost var before := records;
        var id :| id in left;
        records := records + [Record(id, rows[id].payload, rows[id].recordVersion)];
        left := left - {id};
        forall k | k in rows ensures k in left || exists i | 0 <= i < |records| :: records[i].id == k {
          if k == id {
            assert records[|before|].id == id;
          } else if k !in left {
            var i :| 0 <= i < |before| && before[i].id == k;
            assert records[i].id == k;
          }
        }
      }
    }

    method PostVault(user: Uuid, id: Uuid, wrapped: WrappedKey, isPrivate: bool) returns (status: Status)
      modifies this
      ensures (Contents(), status) == CreateVault(old(Contents()), user, id, wrapped, isPrivate)
    {
      if !ValidWrappedKey(wrapped) { return VALIDATION; }
      if user in vaults || VaultIdUsed(vaults, id) { return VAULT_EXISTS; }
      vaults := vaults[user := Vault(id, wrapped, isPrivate)];
      status := Done;
    }

    method PutVaultKey(user: Uuid, wrapped: WrappedKey) returns (status: Status)
      modifies this
      ensures (Contents(), status) == UpdateVaultKey(old(Contents()), user, wrapped)
    {
      if !ValidWrappedKey(wrapped) { return VALIDATION; }
      if user !in vaults { return NO_VAULT; }
      var vault := vaults[user];
      vaults := vaults[user := vault.(wrapped := wrapped)];
      AddAuditEvent(user, MasterKeyRewrapped, vault.id);
      status := Done;
    }

    method PostSecret(user: Uuid, id: Uuid, p: Payload) returns (status: Status)
      modifies this
      ensures (Contents(), status) == CreateSecret(old(Contents()), user, id, p)
    {
      if !ValidPayload(p) { return VALIDATION; }
      if user !in vaults { return NO_VAULT; }
      var vault := vaults[user];
      if vault.isPrivate != p.encryptedName.Some? { return MODE_MISMATCH; }
      if id in secrets || Clash(secrets, id, vault.id, p) { return NAME_EXISTS; }
      secrets := secrets[id := Secret(vault.id, p, 1)];
      AddAuditEvent(user, SecretCreated, id);
      status := Done;
    }

    /** The version check is the WHERE clause of the update: no row matched means a conflict. */
    method PutSecret(user: Uuid, id: Uuid, p: Payload, version: int) returns (status: Status)
      modifies this
      ensures (Contents(), status) == UpdateSecret(old(Contents()), user, id, p, version)
    {
      if !ValidPayload(p) || version < 1 { return VALIDATION; }
      if !Owns(Contents(), user, id) { return NO_SECRET; }
      var vault := vaults[user];
      if vault.isPrivate != p.encryptedName.Some? { return MODE_MISMATCH; }
      if secrets[id].recordVersion != version { return VERSION_CONFLICT; }
      if Clash(secrets, id, vault.id, p) { return NAME_EXISTS; }
      secrets := secrets[id := Secret(vault.id, p, secrets[id].recordVersion + 1)];
      AddAuditEvent(user, SecretUpdated, id);
      status := Done;
    }

    method DeleteSecret(user: Uuid, id: Uuid) returns (status: Status)
      modifies this
      ensures (Contents(), status) == RemoveSecret(old(Contents()), user, id)
    {
      if !Owns(Contents(), user, id) { return NO_SECRET; }
      secrets := secrets - {id};
      AddAuditEvent(user, SecretDeleted, id);
      status := Done;
    }

    /** Undo everything since the transaction began. */
    method Rollback(d: Database)
      modifies this
      ensures Contents() == d
    {
      vaults, secrets, audit := d.vaults, d.secrets, d.audit;
    }

    /** Deleting a vault cascades to its rows. */
    method DeleteVault(user: Uuid)
      modifies this`vaults, this`secrets
      ensures Contents() == WithoutVault(old(Contents()), user)
    {
      secrets := map id | id in secrets && !Owns(Contents(), user, id) :: secrets[id];
      vaults := vaults - {user};
    }

    /** Inserts row by row; a refused row stops it. */
    method InsertRecords(vaultId: Uuid, records: seq<Record>) returns (ok: bool)
      modifies this`secrets
      ensures var inserted := InsertAll(old(secrets), vaultId, records);
        ok == inserted.Some? && (ok ==> secrets == inserted.value)
    {
      hide Clash;
      for i := 0 to |records|
        invariant InsertAll(old(secrets), vaultId, records[..i]) == Some(secrets)
      {
        var r := records[i];
        assert records[..i + 1][..i] == records[..i];
        if r.id in secrets || Clash(secrets, r.id, vaultId, r.payload) {
          FailsFromHere(old(secrets), vaultId, records, i + 1);
          return false;
        }
        secrets := secrets[r.id := Secret(vaultId, r.payload, r.recordVersion)];
      }
      assert records[..|records|] == records;
      ok := true;
    }

    /** Deletes the old vault with its rows, then adds the new vault, then its rows: all or nothing. */
    method RestoreBackup(user: Uuid, b: Backup) returns (status: Status)
      modifies this
      ensures (Contents(), status) == Restore(old(Contents()), user, b)
    {
      hide ValidBackup, InsertAll, VaultIdUsed;
      if !ValidBackup(b) { return VALIDATION; }
      if b.sourceUser != user { return ACCOUNT_MISMATCH; }
      var before := Contents();
      if user in vaults {
        if !b.replace { return VAULT_NOT_EMPTY; }
        DeleteVault(user);
      }
      WithoutAbsentVault(before, user);
      hide WithoutVault;
      if VaultIdUsed(vaults, b.vaultId) {
        Rollback(before);
        return RESTORE_CONFLICT;
      }
      vaults := vaults[user := Vault(b.vaultId, b.wrapped, b.isPrivate)];
      for i := 0 to |b.records|
        invariant forall k | 0 <= k < i :: b.isPrivate == b.records[k].payload.encryptedName.Some?
        invariant secrets == WithoutVault(before, user).secrets && audit == before.audit
        invariant vaults == WithoutVault(before, user).vaults[user := Vault(b.vaultId, b.wrapped, b.isPrivate)]
      {
        if b.isPrivate != b.records[i].payload.encryptedName.Some? {
          Rollback(before);
          return MODE_MISMATCH;
        }
      }
      var ok := InsertRecords(b.vaultId, b.records);
      if !ok {
        Rollback(before);
        return RESTORE_CONFLICT;
      }
      AddAuditEvent(user, VaultRestored, b.vaultId);
      status := Done;
    }
  }

  lemma WithoutAbsentVault(d: Database, user: Uuid)
    ensures user !in d.vaults ==> WithoutVault(d, user) == d
  {
    if user !in d.vaults {
      assert WithoutVault(d, user).secrets == d.secrets;
      assert WithoutVault(d, user).vaults == d.vaults;
    }
  }

  /** Once a row is refused the whole transaction is. */
  lemma {:induction false} FailsFromHere(secrets: map<Uuid, Secret>, vaultId: Uuid, records: seq<Record>, i: nat)
    requires i <= |records| && InsertAll(secrets, vaultId, records[..i]).None?
    ensures InsertAll(secrets, vaultId, records).None?
    decreases |records| - i
  {
    hide Clash;
    if i == |records| {
      assert records[..i] == records;
    } else {
      assert records[..i + 1][..i] == records[..i];
      FailsFromHere(secrets, vaultId, records, i + 1);
    }
  }
}
