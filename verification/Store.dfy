/**
 The server's tables and its requests as transactions on them.

 A request either commits a new store or refuses with a status and leaves the store alone. Vaults
 are keyed by their owner (the unique user_id column); that vault ids are distinct is an invariant.
 */
module Store {
  import opened Wrappers
  import opened Crypto

  datatype WrappedKey = WrappedKey(cipher: Cipher, nonce: Bytes, kdf: KdfParameters)
  datatype Vault = Vault(id: Uuid, wrapped: WrappedKey, isPrivate: bool)
  datatype Secret = Secret(vaultId: Uuid, payload: Payload, recordVersion: nat)

  datatype EventKind = SecretCreated | SecretUpdated | SecretDeleted | MasterKeyRewrapped | VaultRestored
  datatype Event = Event(user: Uuid, kind: EventKind, resource: Uuid)

  datatype Database = Database(vaults: map<Uuid, Vault>, secrets: map<Uuid, Secret>, audit: seq<Event>)

  datatype Status = Done | Refused(code: nat, reason: string)

  datatype Backup = Backup(
    formatVersion: int, sourceUser: Uuid, replace: bool, vaultId: Uuid, wrapped: WrappedKey, isPrivate: bool,
    records: seq<Record>)

  /** PostVault and PostSecret carry the id that was drawn, by the client or by the server. */
  datatype Request =
    | PostVault(id: Uuid, wrapped: WrappedKey, isPrivate: bool)
    | PutKey(wrapped: WrappedKey)
    | PostSecret(id: Uuid, payload: Payload)
    | PutSecret(id: Uuid, payload: Payload, recordVersion: int)
    | DeleteSecret(id: Uuid)
    | PostRestore(backup: Backup)

  const VALIDATION := Refused(422, "validation_error")
  const NO_VAULT := Refused(404, "vault_not_found")
  const NO_SECRET := Refused(404, "secret_not_found")
  const VAULT_EXISTS := Refused(409, "vault_exists")
  const NAME_EXISTS := Refused(409, "secret_name_exists")
  const MODE_MISMATCH := Refused(422, "metadata_mode_mismatch")
  const VERSION_CONFLICT := Refused(409, "version_conflict")
  const ACCOUNT_MISMATCH := Refused(403, "backup_account_mismatch")
  const VAULT_NOT_EMPTY := Refused(409, "vault_not_empty")
  const RESTORE_CONFLICT := Refused(409, "restore_conflict")

  const MAX_NAME: nat := 255
  const MIN_PACKED_NAME: nat := 45
  const MAX_RECORDS: nat := 10000

  // ----------------------------------------------------------- validation

  predicate ValidWrappedKey(w: WrappedKey) {
    && |w.nonce| == NONCE_BYTES && |w.kdf.salt| == SALT_BYTES
    && CipherSize(w.cipher) == KEY_BYTES + TAG_BYTES
    && w.kdf.algorithm == KDF_ALGORITHM && w.kdf.opsLimit > 0 && w.kdf.memLimit > 0
  }

  predicate ValidPayload(p: Payload) {
    && p.name.Some? != p.encryptedName.Some?
    && (p.name.Some? ==> 1 <= |p.name.value| <= MAX_NAME)
    && |p.value.nonce| == NONCE_BYTES && CipherSize(p.value.cipher) >= TAG_BYTES
    && (p.encryptedName.Some? ==> PackedSize(p.encryptedName.value) >= MIN_PACKED_NAME)
    && (p.nameHash.Some? ==> p.encryptedName.Some? && HashSize(p.nameHash.value) == HASH_BYTES)
    && p.value.algorithm == ALGORITHM && p.value.version == FORMAT_VERSION
  }

  predicate ValidBackup(b: Backup) {
    && b.formatVersion == 1
    && ValidWrappedKey(b.wrapped)
    && |b.records| <= MAX_RECORDS
    && forall i | 0 <= i < |b.records| :: ValidPayload(b.records[i].payload) && b.records[i].recordVersion >= 1
  }

  // ---------------------------------------------------------- constraints

  /** Equal plaintext names, or equal non-null name hashes, inside one vault. */
  predicate SameName(p: Payload, q: Payload) {
    || (p.name.Some? && p.name == q.name)
    || (p.nameHash.Some? && p.nameHash == q.nameHash)
  }

  /** Some row other than id would violate a uniqueness constraint of the vault. */
  predicate Clash(secrets: map<Uuid, Secret>, id: Uuid, vaultId: Uuid, p: Payload) {
    exists k | k in secrets :: k != id && secrets[k].vaultId == vaultId && SameName(secrets[k].payload, p)
  }

  predicate VaultIdUsed(vaults: map<Uuid, Vault>, id: Uuid) {
    exists u | u in vaults :: vaults[u].id == id
  }

  ghost predicate NamesUnique(secrets: map<Uuid, Secret>) {
    forall j, k | j in secrets && k in secrets && j != k && secrets[j].vaultId == secrets[k].vaultId ::
      !SameName(secrets[j].payload, secrets[k].payload)
  }

  /** What the schema, the table constraints and the handlers promise of every committed store. */
  ghost predicate Valid(d: Database) {
    && (forall u, v | u in d.vaults && v in d.vaults && d.vaults[u].id == d.vaults[v].id :: u == v)
    && (forall u | u in d.vaults :: ValidWrappedKey(d.vaults[u].wrapped))
    && (forall id | id in d.secrets :: VaultIdUsed(d.vaults, d.secrets[id].vaultId))
    && (forall id | id in d.secrets :: ValidPayload(d.secrets[id].payload) && d.secrets[id].recordVersion >= 1)
    && (forall id, u | id in d.secrets && u in d.vaults && d.vaults[u].id == d.secrets[id].vaultId ::
          d.secrets[id].payload.encryptedName.Some? == d.vaults[u].isPrivate)
    && NamesUnique(d.secrets)
  }

  // -------------------------------------------------------------- queries

  predicate Owns(d: Database, user: Uuid, id: Uuid) {
    user in d.vaults && id in d.secrets && d.secrets[id].vaultId == d.vaults[user].id
  }

  /** The rows GET /secrets returns to a user, by id. */
  function RowsOf(d: Database, user: Uuid): map<Uuid, Secret> {
    map id | id in d.secrets && Owns(d, user, id) :: d.secrets[id]
  }

  // ------------------------------------------------------------- requests

  function Logged(d: Database, user: Uuid, kind: EventKind, resource: Uuid): Database {
    d.(audit := d.audit + [Event(user, kind, resource)])
  }

  function CreateVault(d: Database, user: Uuid, id: Uuid, wrapped: WrappedKey, isPrivate: bool): (Database, Status) {
    if !ValidWrappedKey(wrapped) then (d, VALIDATION)
    else if user in d.vaults || VaultIdUsed(d.vaults, id) then (d, VAULT_EXISTS)
    else (d.(vaults := d.vaults[user := Vault(id, wrapped, isPrivate)]), Done)
  }

  function UpdateVaultKey(d: Database, user: Uuid, wrapped: WrappedKey): (Database, Status) {
    if !ValidWrappedKey(wrapped) then (d, VALIDATION)
    else if user !in d.vaults then (d, NO_VAULT)
    else
      var vault := d.vaults[user];
      (Logged(d.(vaults := d.vaults[user := vault.(wrapped := wrapped)]), user, MasterKeyRewrapped, vault.id), Done)
  }

  function CreateSecret(d: Database, user: Uuid, id: Uuid, p: Payload): (Database, Status) {
    if !ValidPayload(p) then (d, VALIDATION)
    else if user !in d.vaults then (d, NO_VAULT)
    else
      var vault := d.vaults[user];
      if vault.isPrivate != p.encryptedName.Some? then (d, MODE_MISMATCH)
      else if id in d.secrets || Clash(d.secrets, id, vault.id, p) then (d, NAME_EXISTS)
      else (Logged(d.(secrets := d.secrets[id := Secret(vault.id, p, 1)]), user, SecretCreated, id), Done)
  }

  function UpdateSecret(d: Database, user: Uuid, id: Uuid, p: Payload, version: int): (Database, Status) {
    if !ValidPayload(p) || version < 1 then (d, VALIDATION)
    else if !Owns(d, user, id) then (d, NO_SECRET)
    else
      var vault, row := d.vaults[user], d.secrets[id];
      if vault.isPrivate != p.encryptedName.Some? then (d, MODE_MISMATCH)
      else if row.recordVersion != version then (d, VERSION_CONFLICT)
      else if Clash(d.secrets, id, vault.id, p) then (d, NAME_EXISTS)
      else (Logged(d.(secrets := d.secrets[id := Secret(vault.id, p, version + 1)]), user, SecretUpdated, id), Done)
  }

  function RemoveSecret(d: Database, user: Uuid, id: Uuid): (Database, Status) {
    if !Owns(d, user, id) then (d, NO_SECRET)
    else (Logged(d.(secrets := d.secrets - {id}), user, SecretDeleted, id), Done)
  }

  /** The store after the cascading delete of a user's vault. */
  function WithoutVault(d: Database, user: Uuid): Database {
    d.(vaults := d.vaults - {user},
       secrets := map id | id in d.secrets && !Owns(d, user, id) :: d.secrets[id])
  }

  /** One INSERT: refused by the primary key or by a uniqueness constraint. */
  function Insert(secrets: map<Uuid, Secret>, vaultId: Uuid, r: Record): Option<map<Uuid, Secret>> {
    if r.id in secrets || Clash(secrets, r.id, vaultId, r.payload) then None
    else Some(secrets[r.id := Secret(vaultId, r.payload, r.recordVersion)])
  }

  function InsertAll(secrets: map<Uuid, Secret>, vaultId: Uuid, records: seq<Record>): Option<map<Uuid, Secret>> {
    if records == [] then Some(secrets)
    else
      var n := |records| - 1;
      match InsertAll(secrets, vaultId, records[..n])
      case None => None
      case Some(before) => Insert(before, vaultId, records[n])
  }

  predicate OneMode(b: Backup) {
    forall i | 0 <= i < |b.records| :: b.isPrivate == b.records[i].payload.encryptedName.Some?
  }

  function Restore(d: Database, user: Uuid, b: Backup): (Database, Status) {
    if !ValidBackup(b) then (d, VALIDATION)
    else if b.sourceUser != user then (d, ACCOUNT_MISMATCH)
    else if user in d.vaults && !b.replace then (d, VAULT_NOT_EMPTY)
    else
      var base := WithoutVault(d, user);
      if VaultIdUsed(base.vaults, b.vaultId) then (d, RESTORE_CONFLICT)
      else if !OneMode(b) then (d, MODE_MISMATCH)
      else match InsertAll(base.secrets, b.vaultId, b.records)
        case None => (d, RESTORE_CONFLICT)
        case Some(secrets) =>
          var vaults := base.vaults[user := Vault(b.vaultId, b.wrapped, b.isPrivate)];
          (Logged(Database(vaults, secrets, d.audit), user, VaultRestored, b.vaultId), Done)
  }

  function Handle(d: Database, user: Uuid, r: Request): (Database, Status) {
    match r
    case PostVault(id, wrapped, isPrivate) => CreateVault(d, user, id, wrapped, isPrivate)
    case PutKey(wrapped) => UpdateVaultKey(d, user, wrapped)
    case PostSecret(id, p) => CreateSecret(d, user, id, p)
    case PutSecret(id, p, version) => UpdateSecret(d, user, id, p, version)
    case DeleteSecret(id) => RemoveSecret(d, user, id)
    case PostRestore(b) => Restore(d, user, b)
  }

  // ------------------------------------------------- inserting a whole backup

  /** The records of a backup can live side by side in one vault. */
  ghost predicate Distinct(records: seq<Record>) {
    forall i, j | 0 <= i < j < |records| ::
      records[i].id != records[j].id && !SameName(records[i].payload, records[j].payload)
  }

  ghost predicate Unclaimed(secrets: map<Uuid, Secret>, records: seq<Record>) {
    forall i | 0 <= i < |records| :: records[i].id !in secrets
  }

  ghost predicate EmptyVault(secrets: map<Uuid, Secret>, vaultId: Uuid) {
    forall id | id in secrets :: secrets[id].vaultId != vaultId
  }

  /** The rows of t are those of secrets and exactly the records. */
  ghost predicate Adds(secrets: map<Uuid, Secret>, vaultId: Uuid, records: seq<Record>, t: map<Uuid, Secret>) {
    && (forall id | id in secrets :: id in t && t[id] == secrets[id])
    && (forall i | 0 <= i < |records| ::
          records[i].id in t && t[records[i].id] == Secret(vaultId, records[i].payload, records[i].recordVersion))
    && (forall id | id in t :: id in secrets || exists i | 0 <= i < |records| :: records[i].id == id)
  }

  /** The row-by-row loop succeeds exactly when no id is taken and no two records clash, and then adds just them. */
  lemma {:induction false} InsertAllExact(secrets: map<Uuid, Secret>, vaultId: Uuid, records: seq<Record>)
    requires EmptyVault(secrets, vaultId)
    ensures InsertAll(secrets, vaultId, records).Some? <==> Unclaimed(secrets, records) && Distinct(records)
    ensures InsertAll(secrets, vaultId, records).Some? ==>
              Adds(secrets, vaultId, records, InsertAll(secrets, vaultId, records).value)
  {
    hide SameName, Clash, Apart;
    if records != [] {
      var n := |records| - 1;
      var init, last := records[..n], records[n];
      InsertAllExact(secrets, vaultId, init);
      DistinctGrows(secrets, init, last);
      assert records == init + [last];
      if InsertAll(secrets, vaultId, init).Some? {
        var before := InsertAll(secrets, vaultId, init).value;
        InsertOneExact(secrets, vaultId, init, last, before);
        if Insert(before, vaultId, last).Some? {
          AddsOneMore(secrets, vaultId, init, last, before);
        }
      }
    }
  }

  ghost predicate Apart(init: seq<Record>, last: Record) {
    forall i | 0 <= i < |init| :: init[i].id != last.id && !SameName(init[i].payload, last.payload)
  }

  lemma DistinctGrows(secrets: map<Uuid, Secret>, init: seq<Record>, last: Record)
    ensures Distinct(init + [last]) <==> Distinct(init) && Apart(init, last)
    ensures Unclaimed(secrets, init + [last]) <==> Unclaimed(secrets, init) && last.id !in secrets
  {
    var records := init + [last];
    assert records[|init|] == last;
    assert forall i | 0 <= i < |init| :: records[i] == init[i];
  }

  lemma InsertOneExact(
    secrets: map<Uuid, Secret>, vaultId: Uuid, init: seq<Record>, last: Record, before: map<Uuid, Secret>)
    requires EmptyVault(secrets, vaultId) && Adds(secrets, vaultId, init, before)
    ensures Insert(before, vaultId, last).Some? <==> last.id !in secrets && Apart(init, last)
  {
    forall i | 0 <= i < |init| && init[i].id != last.id && SameName(init[i].payload, last.payload)
      ensures Clash(before, last.id, vaultId, last.payload)
    {
      assert init[i].id in before && before[init[i].id].vaultId == vaultId;
    }
  }

  lemma AddsOneMore(
    secrets: map<Uuid, Secret>, vaultId: Uuid, init: seq<Record>, last: Record, before: map<Uuid, Secret>)
    requires Adds(secrets, vaultId, init, before) && last.id !in before
    ensures Adds(secrets, vaultId, init + [last],
                 before[last.id := Secret(vaultId, last.payload, last.recordVersion)])
  {
    var records := init + [last];
    var after := before[last.id := Secret(vaultId, last.payload, last.recordVersion)];
    assert records[|init|] == last;
    forall id | id in after ensures id in secrets || exists i | 0 <= i < |records| :: records[i].id == id {
      if id != last.id && id !in secrets {
        var i :| 0 <= i < |init| && init[i].id == id;
        assert records[i].id == id;
      }
    }
  }

  lemma BaseIsEmpty(d: Database, user: Uuid, vaultId: Uuid)
    requires Valid(d) && !VaultIdUsed(WithoutVault(d, user).vaults, vaultId)
    ensures EmptyVault(WithoutVault(d, user).secrets, vaultId)
  {
    hide NamesUnique, ValidPayload, ValidWrappedKey;
    var base := WithoutVault(d, user);
    forall id | id in base.secrets ensures base.secrets[id].vaultId != vaultId {
      var u :| u in d.vaults && d.vaults[u].id == d.secrets[id].vaultId;
      assert u != user;
      assert u in base.vaults && base.vaults[u] == d.vaults[u];
    }
  }

  ghost predicate VaultIdTaken(d: Database, user: Uuid, b: Backup) {
    exists u | u in d.vaults :: u != user && d.vaults[u].id == b.vaultId
  }

  lemma VaultIdTakenMeans(d: Database, user: Uuid, b: Backup)
    ensures VaultIdTaken(d, user, b) <==> VaultIdUsed(WithoutVault(d, user).vaults, b.vaultId)
  {
    var base := WithoutVault(d, user);
    forall u | u in d.vaults && u != user && d.vaults[u].id == b.vaultId ensures VaultIdUsed(base.vaults, b.vaultId) {
      assert u in base.vaults;
    }
  }

  /** Another user's vault or row already holds an id of the backup, or two of its records clash. */
  ghost predicate Conflicts(d: Database, user: Uuid, b: Backup) {
    || VaultIdTaken(d, user, b)
    || (exists i | 0 <= i < |b.records| :: b.records[i].id in d.secrets && !Owns(d, user, b.records[i].id))
    || !Distinct(b.records)
  }

  /** The caller's vault and rows are the backup's, record by record. */
  ghost predicate Holds(d: Database, user: Uuid, b: Backup) {
    && user in d.vaults && d.vaults[user] == Vault(b.vaultId, b.wrapped, b.isPrivate)
    && Adds(map[], b.vaultId, b.records, RowsOf(d, user))
  }

  /** The three ways a restore can collide, in the caller's terms. */
  lemma ConflictsAreCollisions(d: Database, user: Uuid, b: Backup)
    ensures var base := WithoutVault(d, user);
      Conflicts(d, user, b) <==>
        VaultIdUsed(base.vaults, b.vaultId) || !Unclaimed(base.secrets, b.records) || !Distinct(b.records)
  {
    VaultIdTakenMeans(d, user, b);
  }

  lemma RestoredRows(base: Database, user: Uuid, b: Backup, secrets: map<Uuid, Secret>, audit: seq<Event>)
    requires EmptyVault(base.secrets, b.vaultId) && Adds(base.secrets, b.vaultId, b.records, secrets)
    ensures Holds(Database(base.vaults[user := Vault(b.vaultId, b.wrapped, b.isPrivate)], secrets, audit), user, b)
  {
  }

  /** Restore is all or nothing: it succeeds on exactly these conditions and then the vault is the payload. */
  lemma RestoreIsExact(d: Database, user: Uuid, b: Backup)
    requires Valid(d)
    ensures var (after, status) := Restore(d, user, b);
      && (status.Done? <==>
            && ValidBackup(b) && OneMode(b) && b.sourceUser == user
            && (user in d.vaults ==> b.replace) && !Conflicts(d, user, b))
      && (status.Done? ==> Holds(after, user, b))
      && (!status.Done? ==> after == d)
      && (!status.Done? ==>
            status == if !ValidBackup(b) then Refused(422, "validation_error")
                      else if b.sourceUser != user then Refused(403, "backup_account_mismatch")
                      else if user in d.vaults && !b.replace then Refused(409, "vault_not_empty")
                      else if VaultIdTaken(d, user, b) then Refused(409, "restore_conflict")
                      else if !OneMode(b) then Refused(422, "metadata_mode_mismatch")
                      else Refused(409, "restore_conflict"))
  {
    VaultIdTakenMeans(d, user, b);
    var base := WithoutVault(d, user);
    ConflictsAreCollisions(d, user, b);
    if !VaultIdUsed(base.vaults, b.vaultId) {
      BaseIsEmpty(d, user, b.vaultId);
      InsertAllExact(base.secrets, b.vaultId, b.records);
      match InsertAll(base.secrets, b.vaultId, b.records)
      case None =>
      case Some(secrets) =>
        RestoredRows(base, user, b, secrets, Restore(d, user, b).0.audit);
    }
  }

  // ------------------------------------------------------------ invariance

  /** Writing one row that clashes with no other keeps names unique. */
  lemma WriteKeepsNamesUnique(secrets: map<Uuid, Secret>, id: Uuid, row: Secret)
    requires NamesUnique(secrets)
    requires !Clash(secrets, id, row.vaultId, row.payload)
    ensures NamesUnique(secrets[id := row])
  {
    forall k | k in secrets && k != id && secrets[k].vaultId == row.vaultId
      ensures !SameName(secrets[k].payload, row.payload) && !SameName(row.payload, secrets[k].payload)
    {
    }
  }

  lemma UsedStaysUsed(vaults: map<Uuid, Vault>, user: Uuid, vault: Vault, id: Uuid)
    requires VaultIdUsed(vaults, id) && (user in vaults ==> vaults[user].id == vault.id)
    ensures VaultIdUsed(vaults[user := vault], id)
  {
    var u :| u in vaults && vaults[u].id == id;
    assert vaults[user := vault][u].id == id;
  }

  lemma CreateVaultKeepsValid(d: Database, user: Uuid, id: Uuid, wrapped: WrappedKey, isPrivate: bool)
    requires Valid(d)
    ensures Valid(CreateVault(d, user, id, wrapped, isPrivate).0)
  {
    var after := CreateVault(d, user, id, wrapped, isPrivate).0;
    if after != d {
      forall k | k in d.secrets ensures VaultIdUsed(after.vaults, d.secrets[k].vaultId) {
        UsedStaysUsed(d.vaults, user, Vault(id, wrapped, isPrivate), d.secrets[k].vaultId);
      }
    }
  }

  lemma UpdateVaultKeyKeepsValid(d: Database, user: Uuid, wrapped: WrappedKey)
    requires Valid(d)
    ensures Valid(UpdateVaultKey(d, user, wrapped).0)
  {
    var after := UpdateVaultKey(d, user, wrapped).0;
    if after != d {
      forall k | k in d.secrets ensures VaultIdUsed(after.vaults, d.secrets[k].vaultId) {
        UsedStaysUsed(d.vaults, user, d.vaults[user].(wrapped := wrapped), d.secrets[k].vaultId);
      }
    }
  }

  lemma CreateSecretKeepsValid(d: Database, user: Uuid, id: Uuid, p: Payload)
    requires Valid(d)
    ensures Valid(CreateSecret(d, user, id, p).0)
  {
    var after := CreateSecret(d, user, id, p).0;
    if after != d {
      WriteKeepsNamesUnique(d.secrets, id, Secret(d.vaults[user].id, p, 1));
    }
  }

  lemma UpdateSecretKeepsValid(d: Database, user: Uuid, id: Uuid, p: Payload, version: int)
    requires Valid(d)
    ensures Valid(UpdateSecret(d, user, id, p, version).0)
  {
    var after := UpdateSecret(d, user, id, p, version).0;
    if after != d {
      WriteKeepsNamesUnique(d.secrets, id, Secret(d.vaults[user].id, p, version + 1));
    }
  }

  lemma RemoveSecretKeepsValid(d: Database, user: Uuid, id: Uuid)
    requires Valid(d)
    ensures Valid(RemoveSecret(d, user, id).0)
  {
  }

  lemma {:induction false} InsertAllKeepsNamesUnique(
    secrets: map<Uuid, Secret>, vaultId: Uuid, records: seq<Record>)
    requires NamesUnique(secrets) && InsertAll(secrets, vaultId, records).Some?
    ensures NamesUnique(InsertAll(secrets, vaultId, records).value)
  {
    if records != [] {
      var n := |records| - 1;
      InsertAllKeepsNamesUnique(secrets, vaultId, records[..n]);
      var before := InsertAll(secrets, vaultId, records[..n]).value;
      WriteKeepsNamesUnique(
        before, records[n].id, Secret(vaultId, records[n].payload, records[n].recordVersion));
    }
  }

  /** A row another user keeps belongs to a vault that stays. */
  lemma KeptRowHasVault(d: Database, user: Uuid, id: Uuid)
    requires Valid(d) && id in d.secrets && !Owns(d, user, id)
    ensures VaultIdUsed(WithoutVault(d, user).vaults, d.secrets[id].vaultId)
  {
    hide NamesUnique, ValidPayload, ValidWrappedKey;
    var base := WithoutVault(d, user);
    var u :| u in d.vaults && d.vaults[u].id == d.secrets[id].vaultId;
    assert u != user;
    assert base.vaults[u].id == d.secrets[id].vaultId;
  }

  lemma WithoutVaultKeepsValid(d: Database, user: Uuid)
    requires Valid(d)
    ensures Valid(WithoutVault(d, user))
  {
    hide ValidPayload, ValidWrappedKey, VaultIdUsed, SameName;
    var base := WithoutVault(d, user);
    forall id | id in base.secrets ensures VaultIdUsed(base.vaults, base.secrets[id].vaultId) {
      KeptRowHasVault(d, user, id);
    }
  }

  /** Putting a backup into a store that lacks the caller's vault. */
  lemma RefilledIsValid(base: Database, user: Uuid, b: Backup, secrets: map<Uuid, Secret>, audit: seq<Event>)
    requires Valid(base) && user !in base.vaults && !VaultIdUsed(base.vaults, b.vaultId)
    requires ValidBackup(b) && OneMode(b) && NamesUnique(secrets)
    requires EmptyVault(base.secrets, b.vaultId) && Adds(base.secrets, b.vaultId, b.records, secrets)
    ensures Valid(Database(base.vaults[user := Vault(b.vaultId, b.wrapped, b.isPrivate)], secrets, audit))
  {
    hide NamesUnique, ValidPayload, ValidWrappedKey;
    var vault := Vault(b.vaultId, b.wrapped, b.isPrivate);
    var vaults := base.vaults[user := vault];
    forall id | id in secrets
      ensures VaultIdUsed(vaults, secrets[id].vaultId)
      ensures ValidPayload(secrets[id].payload) && secrets[id].recordVersion >= 1
      ensures id in base.secrets
              || (secrets[id].vaultId == b.vaultId && secrets[id].payload.encryptedName.Some? == b.isPrivate)
    {
      if id in base.secrets {
        UsedStaysUsed(base.vaults, user, vault, base.secrets[id].vaultId);
      } else {
        assert vaults[user].id == b.vaultId;
      }
    }
  }

  /** What a successful restore did. */
  lemma RestoreSteps(d: Database, user: Uuid, b: Backup)
    requires Valid(d) && Restore(d, user, b).1.Done?
    ensures var base, after := WithoutVault(d, user), Restore(d, user, b).0;
      && ValidBackup(b) && OneMode(b) && user !in base.vaults && !VaultIdUsed(base.vaults, b.vaultId)
      && InsertAll(base.secrets, b.vaultId, b.records) == Some(after.secrets)
      && EmptyVault(base.secrets, b.vaultId) && Adds(base.secrets, b.vaultId, b.records, after.secrets)
      && after == Database(base.vaults[user := Vault(b.vaultId, b.wrapped, b.isPrivate)], after.secrets, after.audit)
  {
    hide Valid, ValidBackup, OneMode, EmptyVault, Adds, InsertAll;
    var base := WithoutVault(d, user);
    BaseIsEmpty(d, user, b.vaultId);
    InsertAllExact(base.secrets, b.vaultId, b.records);
  }

  lemma RestoreKeepsValid(d: Database, user: Uuid, b: Backup)
    requires Valid(d)
    ensures Valid(Restore(d, user, b).0)
  {
    hide Valid, ValidBackup, OneMode, NamesUnique, EmptyVault, Adds, WithoutVault, InsertAll;
    var (after, status) := Restore(d, user, b);
    if status.Done? {
      var base := WithoutVault(d, user);
      WithoutVaultKeepsValid(d, user);
      RestoreSteps(d, user, b);
      hide Restore;
      InsertAllKeepsNamesUnique(base.secrets, b.vaultId, b.records) by { ValidNames(base); }
      RefilledIsValid(base, user, b, after.secrets, after.audit);
    }
  }

  lemma ValidNames(d: Database)
    requires Valid(d)
    ensures NamesUnique(d.secrets)
  {
  }

  /** Every request, accepted or refused, by any user, keeps the store invariant. */
  lemma HandleKeepsValid(d: Database, user: Uuid, r: Request)
    requires Valid(d)
    ensures Valid(Handle(d, user, r).0)
  {
    match r
    case PostVault(id, wrapped, isPrivate) => CreateVaultKeepsValid(d, user, id, wrapped, isPrivate);
    case PutKey(wrapped) => UpdateVaultKeyKeepsValid(d, user, wrapped);
    case PostSecret(id, p) => CreateSecretKeepsValid(d, user, id, p);
    case PutSecret(id, p, version) => UpdateSecretKeepsValid(d, user, id, p, version);
    case DeleteSecret(id) => RemoveSecretKeepsValid(d, user, id);
    case PostRestore(b) => RestoreKeepsValid(d, user, b);
  }

  // ------------------------------------------------------------- isolation

  /** Rows and vault of a user are the same in two stores. */
  ghost predicate SameFor(d: Database, after: Database, user: Uuid) {
    && (user in after.vaults <==> user in d.vaults)
    && (user in d.vaults ==> after.vaults[user] == d.vaults[user])
    && RowsOf(after, user) == RowsOf(d, user)
  }

  lemma AddingLeavesOthers(
    base: Database, user: Uuid, b: Backup, secrets: map<Uuid, Secret>, audit: seq<Event>, other: Uuid)
    requires other != user && other in base.vaults && base.vaults[other].id != b.vaultId
    requires Adds(base.secrets, b.vaultId, b.records, secrets)
    ensures var after := Database(base.vaults[user := Vault(b.vaultId, b.wrapped, b.isPrivate)], secrets, audit);
      RowsOf(after, other) == RowsOf(base, other)
  {
  }

  lemma DroppingLeavesOthers(d: Database, user: Uuid, other: Uuid)
    requires Valid(d) && other != user && other in d.vaults
    ensures RowsOf(WithoutVault(d, user), other) == RowsOf(d, other)
  {
    var base := WithoutVault(d, user);
    forall id | id in d.secrets && Owns(d, other, id) ensures id in base.secrets {
    }
  }

  lemma RestoreLeavesOthers(d: Database, user: Uuid, b: Backup, other: Uuid)
    requires Valid(d) && other != user
    ensures SameFor(d, Restore(d, user, b).0, other)
  {
    hide Valid, RowsOf, EmptyVault, Adds, InsertAll, ValidBackup, OneMode, VaultIdUsed;
    var (after, status) := Restore(d, user, b);
    if status.Done? {
      RestoreSteps(d, user, b);
      hide Restore;
      RestoredLeavesOthers(d, user, b, other, after);
    }
  }

  lemma RestoredLeavesOthers(d: Database, user: Uuid, b: Backup, other: Uuid, after: Database)
    requires Valid(d) && other != user && !VaultIdUsed(WithoutVault(d, user).vaults, b.vaultId)
    requires Adds(WithoutVault(d, user).secrets, b.vaultId, b.records, after.secrets)
    requires after.vaults == WithoutVault(d, user).vaults[user := Vault(b.vaultId, b.wrapped, b.isPrivate)]
    ensures SameFor(d, after, other)
  {
    hide Valid, Adds, RowsOf;
    var base := WithoutVault(d, user);
    if other in d.vaults {
      assert base.vaults[other].id != b.vaultId;
      DroppingLeavesOthers(d, user, other);
      AddingLeavesOthers(base, user, b, after.secrets, after.audit, other);
    } else {
      NoVaultNoRows(d, other);
      NoVaultNoRows(after, other);
    }
  }

  lemma NoVaultNoRows(d: Database, user: Uuid)
    requires user !in d.vaults
    ensures RowsOf(d, user) == map[]
  {
  }

  lemma VaultWriteLeavesOthers(d: Database, user: Uuid, vault: Vault, audit: seq<Event>, other: Uuid)
    requires other != user
    ensures SameFor(d, Database(d.vaults[user := vault], d.secrets, audit), other)
  {
  }

  /** An id that is free, or the user's own, is in no other user's rows. */
  lemma NotAnothers(d: Database, user: Uuid, id: Uuid, other: Uuid)
    requires Valid(d) && other != user && (id !in d.secrets || Owns(d, user, id))
    ensures id !in RowsOf(d, other)
    ensures user in d.vaults && other in d.vaults ==> d.vaults[user].id != d.vaults[other].id
  {
    hide NamesUnique, ValidPayload, ValidWrappedKey, VaultIdUsed;
  }

  lemma RowWriteLeavesOthers(d: Database, user: Uuid, id: Uuid, row: Secret, audit: seq<Event>, other: Uuid)
    requires Valid(d) && other != user && user in d.vaults && row.vaultId == d.vaults[user].id
    requires id !in d.secrets || Owns(d, user, id)
    ensures SameFor(d, Database(d.vaults, d.secrets[id := row], audit), other)
  {
    hide Valid;
    NotAnothers(d, user, id, other);
  }

  lemma RowDeleteLeavesOthers(d: Database, user: Uuid, id: Uuid, audit: seq<Event>, other: Uuid)
    requires Valid(d) && other != user && Owns(d, user, id)
    ensures SameFor(d, Database(d.vaults, d.secrets - {id}, audit), other)
  {
    hide Valid;
    NotAnothers(d, user, id, other);
  }

  /** No request of one user changes another user's vault or rows, even when ids collide. */
  lemma UsersAreIsolated(d: Database, user: Uuid, r: Request, other: Uuid)
    requires Valid(d) && other != user
    ensures SameFor(d, Handle(d, user, r).0, other)
  {
    var after := Handle(d, user, r).0;
    if after != d {
      match r
      case PostVault(id, w, p) => VaultWriteLeavesOthers(d, user, Vault(id, w, p), d.audit, other);
      case PutKey(w) => VaultWriteLeavesOthers(d, user, d.vaults[user].(wrapped := w), after.audit, other);
      case PostSecret(id, p) => RowWriteLeavesOthers(d, user, id, after.secrets[id], after.audit, other);
      case PutSecret(id, p, v) => RowWriteLeavesOthers(d, user, id, after.secrets[id], after.audit, other);
      case DeleteSecret(id) => RowDeleteLeavesOthers(d, user, id, after.audit, other);
      case PostRestore(b) => RestoreLeavesOthers(d, user, b, other);
    }
  }

  /** A request can bring in only the ids it mentions. */
  predicate Mentions(r: Request, id: Uuid) {
    match r
    case PostSecret(k, _) => k == id
    case PostRestore(b) => exists i | 0 <= i < |b.records| :: b.records[i].id == id
    case _ => false
  }

  lemma OnlyMentionedIdsAppear(d: Database, user: Uuid, r: Request, id: Uuid)
    requires Valid(d) && id !in d.secrets && !Mentions(r, id)
    ensures id !in Handle(d, user, r).0.secrets
  {
    hide Valid, ValidPayload, ValidWrappedKey, Clash, VaultIdUsed, ValidBackup, OneMode, InsertAll;
    if r.PostRestore? && Restore(d, user, r.backup).1.Done? {
      RestoreSteps(d, user, r.backup);
      hide Restore;
    }
  }

  // ------------------------------------------- effects on the caller's rows

  /** The rows of a vault as a backup's records describe them. */
  function RowsOfRecords(vaultId: Uuid, records: seq<Record>): map<Uuid, Secret> {
    if records == [] then map[]
    else
      var n := |records| - 1;
      RowsOfRecords(vaultId, records[..n])[
        records[n].id := Secret(vaultId, records[n].payload, records[n].recordVersion)]
  }

  lemma {:induction false} RowsOfRecordsExact(vaultId: Uuid, records: seq<Record>)
    requires forall i, j | 0 <= i < j < |records| :: records[i].id != records[j].id
    ensures Adds(map[], vaultId, records, RowsOfRecords(vaultId, records))
  {
    if records != [] {
      var n := |records| - 1;
      var init := records[..n];
      RowsOfRecordsExact(vaultId, init);
      assert records == init + [records[n]];
      AddsOneMore(map[], vaultId, init, records[n], RowsOfRecords(vaultId, init));
    }
  }

  lemma SameRowsAdded(vaultId: Uuid, records: seq<Record>, s: map<Uuid, Secret>, t: map<Uuid, Secret>)
    requires Adds(map[], vaultId, records, s) && Adds(map[], vaultId, records, t)
    ensures s == t
  {
    forall id | id in s ensures id in t && s[id] == t[id] {
      var i :| 0 <= i < |records| && records[i].id == id;
    }
    forall id | id in t ensures id in s {
      var i :| 0 <= i < |records| && records[i].id == id;
    }
  }

  lemma ClashWithinRows(d: Database, user: Uuid, id: Uuid, p: Payload)
    requires user in d.vaults
    ensures Clash(d.secrets, id, d.vaults[user].id, p) <==> Clash(RowsOf(d, user), id, d.vaults[user].id, p)
  {
    var rows, vaultId := RowsOf(d, user), d.vaults[user].id;
    forall k | k in d.secrets && d.secrets[k].vaultId == vaultId ensures k in rows && rows[k] == d.secrets[k] {
    }
  }

  lemma CreateOnRows(d: Database, user: Uuid, id: Uuid, p: Payload)
    requires user in d.vaults
    ensures var (after, status) := CreateSecret(d, user, id, p);
      var rows, vault := RowsOf(d, user), d.vaults[user];
      && (status.Done? <==> && ValidPayload(p) && vault.isPrivate == p.encryptedName.Some?
                            && id !in d.secrets && !Clash(rows, id, vault.id, p))
      && (status.Done? ==> && after.vaults == d.vaults
                           && RowsOf(after, user) == rows[id := Secret(vault.id, p, 1)])
      && (!status.Done? ==> after == d)
      && (!status.Done? ==>
            status == if !ValidPayload(p) then Refused(422, "validation_error")
                      else if vault.isPrivate != p.encryptedName.Some? then Refused(422, "metadata_mode_mismatch")
                      else Refused(409, "secret_name_exists"))
  {
    ClashWithinRows(d, user, id, p);
  }

  lemma UpdateOnRows(d: Database, user: Uuid, id: Uuid, p: Payload, version: int)
    requires user in d.vaults
    ensures var (after, status) := UpdateSecret(d, user, id, p, version);
      var rows, vault := RowsOf(d, user), d.vaults[user];
      && (status.Done? <==> && ValidPayload(p) && version >= 1 && id in rows
                            && vault.isPrivate == p.encryptedName.Some?
                            && rows[id].recordVersion == version && !Clash(rows, id, vault.id, p))
      && (status == NO_SECRET <==> ValidPayload(p) && version >= 1 && id !in rows)
      && (status == VERSION_CONFLICT <==> && ValidPayload(p) && version >= 1 && id in rows
                                          && vault.isPrivate == p.encryptedName.Some?
                                          && rows[id].recordVersion != version)
      && (status.Done? ==> && after.vaults == d.vaults
                           && RowsOf(after, user) == rows[id := Secret(vault.id, p, version + 1)]
                           && after.secrets.Keys == d.secrets.Keys)
      && (!status.Done? ==> after == d)
      && (!status.Done? ==>
            status == if !ValidPayload(p) || version < 1 then Refused(422, "validation_error")
                      else if id !in rows then Refused(404, "secret_not_found")
                      else if vault.isPrivate != p.encryptedName.Some? then Refused(422, "metadata_mode_mismatch")
                      else if rows[id].recordVersion != version then Refused(409, "version_conflict")
                      else Refused(409, "secret_name_exists"))
  {
    ClashWithinRows(d, user, id, p);
    hide ValidPayload, Clash;
  }

  lemma RemoveOnRows(d: Database, user: Uuid, id: Uuid)
    requires user in d.vaults
    ensures var (after, status) := RemoveSecret(d, user, id);
      var rows := RowsOf(d, user);
      && (status.Done? <==> id in rows)
      && (status.Done? ==> after.vaults == d.vaults && RowsOf(after, user) == rows - {id})
      && (!status.Done? ==> after == d && status == Refused(404, "secret_not_found"))
  {
  }

  lemma RewrapOnRows(d: Database, user: Uuid, wrapped: WrappedKey)
    requires user in d.vaults && ValidWrappedKey(wrapped)
    ensures var (after, status) := UpdateVaultKey(d, user, wrapped);
      && status.Done? && after.vaults == d.vaults[user := d.vaults[user].(wrapped := wrapped)]
      && after.secrets == d.secrets && RowsOf(after, user) == RowsOf(d, user)
  {
  }

  /** Without a vault there is nothing to write to. */
  lemma NoVaultRefusesAll(d: Database, user: Uuid, id: Uuid, wrapped: WrappedKey, p: Payload, version: int)
    requires user !in d.vaults
    ensures UpdateVaultKey(d, user, wrapped)
            == (d, if ValidWrappedKey(wrapped) then Refused(404, "vault_not_found")
                   else Refused(422, "validation_error"))
    ensures CreateSecret(d, user, id, p)
            == (d, if ValidPayload(p) then Refused(404, "vault_not_found") else Refused(422, "validation_error"))
    ensures UpdateSecret(d, user, id, p, version)
            == (d, if ValidPayload(p) && version >= 1 then Refused(404, "secret_not_found")
                   else Refused(422, "validation_error"))
    ensures RemoveSecret(d, user, id) == (d, Refused(404, "secret_not_found"))
  {
    hide ValidPayload, ValidWrappedKey;
  }

  /** An account gets a vault exactly once; the new vault has no rows and no user's rows change. */
  lemma CreateVaultExact(d: Database, user: Uuid, id: Uuid, wrapped: WrappedKey, isPrivate: bool)
    requires Valid(d)
    ensures var (after, status) := CreateVault(d, user, id, wrapped, isPrivate);
      && (status.Done? <==>
            ValidWrappedKey(wrapped) && user !in d.vaults && forall u | u in d.vaults :: d.vaults[u].id != id)
      && (status.Done? ==>
            && after.vaults == d.vaults[user := Vault(id, wrapped, isPrivate)] && RowsOf(after, user) == map[]
            && after.secrets == d.secrets)
      && (!status.Done? ==> after == d)
      && (!status.Done? ==> status == if ValidWrappedKey(wrapped) then Refused(409, "vault_exists")
                                      else Refused(422, "validation_error"))
  {
    hide ValidWrappedKey, ValidPayload, NamesUnique;
  }

  /** The limits the request schemas set, in numbers. */
  lemma SchemaLimits(w: WrappedKey, p: Payload, b: Backup)
    ensures ValidWrappedKey(w) ==>
              && |w.nonce| == 24 && |w.kdf.salt| == 16 && CipherSize(w.cipher) == 48 && w.kdf.algorithm == "argon2id"
              && w.kdf.opsLimit >= 1 && w.kdf.memLimit >= 1
    ensures ValidPayload(p) ==>
              && (p.name.Some? <==> p.encryptedName.None?) && (p.name.Some? ==> 1 <= |p.name.value| <= 255)
              && |p.value.nonce| == 24 && CipherSize(p.value.cipher) >= 16
              && (p.encryptedName.Some? ==> PackedSize(p.encryptedName.value) >= 45)
              && (p.nameHash.Some? ==> p.encryptedName.Some? && HashSize(p.nameHash.value) == 32)
              && p.value.algorithm == "xchacha20poly1305" && p.value.version == 1
    ensures ValidBackup(b) ==>
              && b.formatVersion == 1 && ValidWrappedKey(b.wrapped) && |b.records| <= 10_000
              && forall i | 0 <= i < |b.records| ::
                   ValidPayload(b.records[i].payload) && b.records[i].recordVersion >= 1
  {
  }

  /** And nothing more is asked: what keeps to them passes. */
  lemma SchemaAccepts(w: WrappedKey, p: Payload, b: Backup)
    requires |w.nonce| == 24 && |w.kdf.salt| == 16 && CipherSize(w.cipher) == 48 && w.kdf.algorithm == "argon2id"
    requires w.kdf.opsLimit >= 1 && w.kdf.memLimit >= 1
    requires p.name.Some? <==> p.encryptedName.None?
    requires p.name.Some? ==> 1 <= |p.name.value| <= 255
    requires |p.value.nonce| == 24 && CipherSize(p.value.cipher) >= 16
    requires p.encryptedName.Some? ==> PackedSize(p.encryptedName.value) >= 45
    requires p.nameHash.Some? ==> p.encryptedName.Some? && HashSize(p.nameHash.value) == 32
    requires p.value.algorithm == "xchacha20poly1305" && p.value.version == 1
    requires b.formatVersion == 1 && b.wrapped == w && |b.records| <= 10_000
    requires forall i | 0 <= i < |b.records| :: ValidPayload(b.records[i].payload) && b.records[i].recordVersion >= 1
    ensures ValidWrappedKey(w) && ValidPayload(p) && ValidBackup(b)
  {
  }

  lemma RestoreOnRows(d: Database, user: Uuid, b: Backup)
    requires Valid(d) && Restore(d, user, b).1.Done?
    ensures var after := Restore(d, user, b).0;
      && user in after.vaults && after.vaults[user] == Vault(b.vaultId, b.wrapped, b.isPrivate)
      && RowsOf(after, user) == RowsOfRecords(b.vaultId, b.records)
  {
    RestoreIsExact(d, user, b);
    RowsOfRecordsExact(b.vaultId, b.records);
    SameRowsAdded(b.vaultId, b.records, RowsOf(Restore(d, user, b).0, user), RowsOfRecords(b.vaultId, b.records));
  }

  lemma RestoreBringsOnlyItsRecords(d: Database, user: Uuid, b: Backup, id: Uuid)
    requires Valid(d) && Restore(d, user, b).1.Done? && id in Restore(d, user, b).0.secrets
    ensures Owns(Restore(d, user, b).0, user, id) || (id in d.secrets && !Owns(d, user, id))
  {
    RestoreSteps(d, user, b);
    hide Valid, Restore, InsertAll, ValidBackup, OneMode, EmptyVault, VaultIdUsed;
    var base := WithoutVault(d, user);
    if id !in base.secrets {
      var i :| 0 <= i < |b.records| && b.records[i].id == id;
    }
  }
}
