/**
 The client's service, method by method, against a server nobody else is using: each call does to
 the map of names and texts what its name says. (Other clients in between are module Protocol's subject.)
 */
module VaultClient {
  import opened Wrappers
  import opened Crypto
  import opened Store
  import opened Client
  import opened BackupFiles
  import opened Protocol
  import opened ProtocolInvariant
  import opened Linearizability
  import opened ServerTables
  import opened Ledger

  // ------------------------------------------- what the requests do to the map

  lemma CreateMeans(
    r: Realm, d: Database, m: map<string, string>, password: string, id: Uuid, p: Payload, name: string, text: string)
    requires Opens(r, d, m, password) && id !in d.secrets && Encodes(r, id, p, name, text)
    requires ValidPayload(p) <==> AcceptableName(r, name)
    ensures var (after, status) := CreateSecret(d, r.user, id, p);
      && (status.Done? <==> AcceptableName(r, name) && name !in m)
      && (status == NAME_EXISTS <==> AcceptableName(r, name) && name in m)
      && (status.Done? ==> Opens(r, after, m[name := text], password))
      && (!status.Done? ==> after == d)
  {
    hide Represents, Valid, ValidPayload, WrapsUnder, RowsOf, TitleOf, Clash;
    CreateOnRows(d, r.user, id, p);
    CreateSecretKeepsValid(d, r.user, id, p);
    RowsInVault(d, r.user);
    RowsAreSecrets(d, r.user, id);
    ClashMeansNameInUse(r, RowsOf(d, r.user), m, id, p, name, text);
    ClashWithinRows(d, r.user, id, p);
    if AcceptableName(r, name) && name !in m {
      AddRow(r, RowsOf(d, r.user), m, id, Secret(r.vaultId, p, 1), name, text);
    }
  }

  lemma RowsInVault(d: Database, user: Uuid)
    requires user in d.vaults
    ensures forall k | k in RowsOf(d, user) :: RowsOf(d, user)[k].vaultId == d.vaults[user].id
  {
  }

  lemma RowsAreSecrets(d: Database, user: Uuid, id: Uuid)
    ensures id in RowsOf(d, user) ==> id in d.secrets && RowsOf(d, user)[id] == d.secrets[id]
  {
  }

  lemma UpdateMeans(
    r: Realm, d: Database, m: map<string, string>, password: string, record: Record, p: Payload,
    name: string, text: string)
    requires Opens(r, d, m, password) && ListedAt(RowsOf(d, r.user), record)
    requires Titled(r, RowsOf(d, r.user), record.id, name)
    requires Encodes(r, record.id, p, name, text) && (ValidPayload(record.payload) ==> ValidPayload(p))
    ensures var (after, status) := UpdateSecret(d, r.user, record.id, p, record.recordVersion);
      status.Done? && Opens(r, after, m[name := text], password)
  {
    hide Represents, ValidPayload, WrapsUnder, RowsOf, TitleOf, Clash, NamesUnique;
    var id, version := record.id, record.recordVersion;
    UpdateOnRows(d, r.user, id, p, version);
    RowsAreSecrets(d, r.user, id);
    UpdateSecretKeepsValid(d, r.user, id, p, version);
    hide Valid, UpdateSecret;
    OwnNameNeverClashes(r, RowsOf(d, r.user), m, id, p, name, text);
    ChangeRow(r, RowsOf(d, r.user), m, id, Secret(r.vaultId, p, version + 1), name, text);
  }

  lemma RemoveMeans(r: Realm, d: Database, m: map<string, string>, password: string, id: Uuid, name: string)
    requires Opens(r, d, m, password) && Titled(r, RowsOf(d, r.user), id, name)
    ensures var (after, status) := RemoveSecret(d, r.user, id);
      status.Done? && Opens(r, after, m - {name}, password)
  {
    hide Represents, Valid, WrapsUnder, RowsOf, TitleOf, RemoveSecret;
    RemoveOnRows(d, r.user, id);
    RemoveSecretKeepsValid(d, r.user, id);
    DropRow(r, RowsOf(d, r.user), m, id, name);
  }

  lemma RewrapMeans(r: Realm, d: Database, m: map<string, string>, password: string, wrapped: WrappedKey, next: string)
    requires Opens(r, d, m, password) && WrapsUnder(r, wrapped, next)
    ensures var (after, status) := UpdateVaultKey(d, r.user, wrapped);
      status.Done? && Opens(r, after, m, next)
  {
    hide Represents, Valid, RowsOf;
    RewrapOnRows(d, r.user, wrapped);
    UpdateVaultKeyKeepsValid(d, r.user, wrapped);
  }

  // ------------------------------------------------------------- the service

  class VaultService {
    const server: Server
    const user: Uuid

    constructor (server: Server, user: Uuid)
      ensures this.server == server && this.user == user
    {
      this.server, this.user := server, user;
    }

    /** The service's account holds a vault that means m and opens with the password. */
    ghost predicate Means(r: Realm, m: map<string, string>, password: string)
      reads this, server
    {
      r.user == user && Opens(r, server.Contents(), m, password)
    }

    method Metadata(ghost r: Realm, ghost m: map<string, string>, ghost password: string) returns (vault: Vault)
      requires Means(r, m, password)
      ensures vault.id == r.vaultId && vault.isPrivate == r.isPrivate && WrapsUnder(r, vault.wrapped, password)
    {
      hide Represents, Valid, WrapsUnder;
      var found := server.GetVault(user);
      vault := found.value;
    }

    /** Just one event was logged since, of that kind. */
    ghost predicate WroteOnce(before: Database, kind: EventKind)
      reads server
    {
      exists id :: server.audit == before.audit + [Event(user, kind, id)]
    }

    /** Deriving the key encryption key and opening the wrapped key: right exactly with the right password. */
    method UnlockVault(ghost r: Realm, ghost password: string, vault: Vault, attempt: string) returns (key: Option<Key>)
      requires r.user == user && WrapsUnder(r, vault.wrapped, password)
      ensures key == if attempt == password then Some(r.key) else None
    {
      UnlocksExactly(r, vault.wrapped, password, attempt);
      key := Unlock(vault.wrapped, user, attempt);
    }

    /** What the scan finds in a listing of the rows as they are. */
    ghost predicate FoundIn(records: seq<Record>, f: Lookup, name: string, vault: Vault, key: Option<Key>)
      reads this, server
    {
      Listing(RowsOf(server.Contents(), user), records) && f == Find(records, name, vault.id, key)
    }

    /** The listing, read row by row: the rows, each once, or nothing because one of them does not parse. */
    method ListRecords() returns (listed: Option<seq<Record>>)
      ensures listed.Some? ==> Listing(RowsOf(server.Contents(), user), listed.value) && AllParse(listed.value)
      ensures listed.None? <==> !RowsParse(RowsOf(server.Contents(), user))
    {
      var rows := server.ListSecrets(user);
      ListingParses(RowsOf(server.Contents(), user), rows);
      hide Listing, Parses, RowsParse;
      for i := 0 to |rows|
        invariant forall k | 0 <= k < i :: Parses(rows[k])
      {
        if !Parses(rows[i]) { return None; }
      }
      listed := Some(rows);
    }

    /** Trial decryption, record by record, until one has the name. */
    method FindRecord(name: string, vault: Vault, key: Option<Key>) returns (f: Lookup)
      ensures exists records :: FoundIn(records, f, name, vault, key)
    {
      var listed := ListRecords();
      ghost var all := ListingExists(RowsOf(server.Contents(), user));
      if listed.Some? { all := listed.value; }
      ListingParses(RowsOf(server.Contents(), user), all);
      assert FoundIn(all, Find(all, name, vault.id, key), name, vault, key);
      hide Listing, FoundIn, AllParse;
      if listed.None? { return Broken; }
      var records := listed.value;
      f := Missing;
      for i := 0 to |records|
        invariant Find(all, name, vault.id, key) == Scan(records[i..], name, vault.id, key)
      {
        var r := records[i];
        assert records[i..][1..] == records[i + 1..];
        if r.payload.name.Some? {
          if r.payload.name.value == name { return Found(r); }
        } else if key.Some? && r.payload.encryptedName.Some? {
          var decoded := OpenName(r.payload.encryptedName.value, vault.id, r.id, key.value);
          if decoded.None? { return Broken; }
          if decoded.value == name { return Found(r); }
        }
      }
    }

    /** Lookup finds exactly the names of the map. */
    method FindName(
      ghost r: Realm, ghost m: map<string, string>, ghost password: string,
      name: string, vault: Vault, key: Option<Key>) returns (f: Lookup)
      requires Means(r, m, password) && vault.id == r.vaultId && CanRead(r, key)
      ensures !f.Broken? && (f.Found? <==> name in m)
      ensures f.Found? ==>
                && ListedAt(RowsOf(server.Contents(), user), f.record)
                && Titled(r, RowsOf(server.Contents(), user), f.record.id, name)
                && Encodes(r, f.record.id, f.record.payload, name, m[name])
    {
      hide Represents, Valid, Listing, Find, Encodes, RowsOf;
      f := FindRecord(name, vault, key);
      ghost var records :| FoundIn(records, f, name, vault, key);
      FindAgrees(r, RowsOf(server.Contents(), user), m, records, name, key);
    }

    method AddUnlocked(
      ghost r: Realm, ghost m: map<string, string>, ghost password: string,
      name: string, text: string, key: Key, id: Uuid, n1: Nonce, n2: Nonce) returns (outcome: Outcome)
      requires Means(r, m, password) && key == r.key && id !in server.secrets
      modifies server
      ensures outcome == if name in m then AlreadyExists else if AcceptableName(r, name) then Stored else Rejected
      ensures Means(r, if outcome.Stored? then m[name := text] else m, password)
      ensures server.audit == old(server.audit) + if outcome.Stored? then [Event(user, SecretCreated, id)] else []
    {
      hide Represents, Valid, Encodes, RowsOf, NewPayload, ValidPayload, VaultOk, CreateSecret, AcceptableName;
      var vault := Metadata(r, m, password);
      var f := FindName(r, m, password, name, vault, Some(key));
      if f.Found? { return AlreadyExists; }
      var payload := NewPayload(vault.id, vault.isPrivate, key, id, name, text, n1, n2);
      PayloadIsGood(r, id, name, text, n1, n2);
      CreateMeans(r, server.Contents(), m, password, id, payload.value, name, text);
      HandleLogs(server.Contents(), user, PostSecret(id, payload.value));
      var status := server.PostSecret(user, id, payload.value);
      outcome := if status.Done? then Stored else Rejected;
    }

    method GetUnlocked(ghost r: Realm, ghost m: map<string, string>, ghost password: string, name: string, key: Key)
      returns (outcome: Outcome)
      requires Means(r, m, password) && key == r.key
      ensures outcome == if name in m then Value(m[name]) else NotFound
    {
      hide Represents, Valid, RowsOf, VaultOk, OpenText, TitleOf;
      var vault := Metadata(r, m, password);
      var f := FindName(r, m, password, name, vault, Some(key));
      if f.Missing? { return NotFound; }
      var text := OpenText(f.record.payload.value, key, ValueAad(vault.isPrivate, vault.id, f.record.id, name));
      outcome := Value(text.value);
    }

    method UpdateUnlocked(
      ghost r: Realm, ghost m: map<string, string>, ghost password: string,
      name: string, text: string, key: Key, nonce: Nonce) returns (outcome: Outcome)
      requires Means(r, m, password) && key == r.key
      modifies server
      ensures outcome == if name in m then Stored else NotFound
      ensures Means(r, if outcome.Stored? then m[name := text] else m, password)
      ensures outcome.Stored? ==> WroteOnce(old(server.Contents()), SecretUpdated)
      ensures !outcome.Stored? ==> server.Contents() == old(server.Contents())
    {
      hide Represents, Valid, Encodes, RowsOf, Reseal, ValidPayload, VaultOk, UpdateSecret;
      var vault := Metadata(r, m, password);
      var f := FindName(r, m, password, name, vault, Some(key));
      if f.Missing? { return NotFound; }
      ResealEncodes(r, f.record, name, m[name], text, nonce);
      ghost var payload := Reseal(r.vaultId, r.isPrivate, r.key, f.record, name, text, nonce).value;
      UpdateMeans(r, server.Contents(), m, password, f.record, payload, name, text);
      HandleLogs(server.Contents(), user, PutSecret(f.record.id, payload, f.record.recordVersion));
      outcome := SendUpdate(vault, f.record, name, text, key, nonce);
    }

    /**
     The second half of an update, whatever has happened on the server since the record was read: the PUT with
     the version that was read, and what its answer means.
     */
    method SendUpdate(vault: Vault, record: Record, name: string, text: string, key: Key, nonce: Nonce)
      returns (outcome: Outcome)
      requires Reseal(vault.id, vault.isPrivate, key, record, name, text, nonce).Some?
      modifies server
      ensures var payload := Reseal(vault.id, vault.isPrivate, key, record, name, text, nonce).value;
        var (d, status) := UpdateSecret(old(server.Contents()), user, record.id, payload, record.recordVersion);
        && server.Contents() == d
        && outcome == (if status.Done? then Stored else if status == VERSION_CONFLICT then Conflict
                       else if status == NO_SECRET then Vanished else Failed)
    {
      hide Reseal, UpdateSecret;
      var payload := Reseal(vault.id, vault.isPrivate, key, record, name, text, nonce);
      var status := server.PutSecret(user, record.id, payload.value, record.recordVersion);
      outcome := if status.Done? then Stored else if status == VERSION_CONFLICT then Conflict
        else if status == NO_SECRET then Vanished else Failed;
    }

    method RemoveUnlocked(ghost r: Realm, ghost m: map<string, string>, ghost password: string, name: string, key: Key)
      returns (outcome: Outcome)
      requires Means(r, m, password) && key == r.key
      modifies server
      ensures outcome == if name in m then Stored else NotFound
      ensures Means(r, if outcome.Stored? then m - {name} else m, password)
      ensures outcome.Stored? ==> WroteOnce(old(server.Contents()), SecretDeleted)
      ensures !outcome.Stored? ==> server.Contents() == old(server.Contents())
    {
      hide Represents, Valid, Encodes, RowsOf, VaultOk, RemoveSecret;
      var vault := Metadata(r, m, password);
      var f := FindName(r, m, password, name, vault, Some(key));
      if f.Missing? { return NotFound; }
      RemoveMeans(r, server.Contents(), m, password, f.record.id, name);
      HandleLogs(server.Contents(), user, DeleteSecret(f.record.id));
      var _ := server.DeleteSecret(user, f.record.id);
      outcome := Stored;
    }

    /** Without a key only a vault with visible names can be searched. */
    method Remove(ghost r: Realm, ghost m: map<string, string>, ghost password: string, name: string)
      returns (outcome: Outcome)
      requires Means(r, m, password)
      modifies server
      ensures outcome == if r.isPrivate then RefusedLocally else if name in m then Stored else NotFound
      ensures Means(r, if outcome.Stored? then m - {name} else m, password)
    {
      hide Represents, Valid, Encodes, RowsOf, VaultOk, RemoveSecret;
      var vault := Metadata(r, m, password);
      if vault.isPrivate { return RefusedLocally; }
      var f := FindName(r, m, password, name, vault, None);
      if f.Missing? { return NotFound; }
      RemoveMeans(r, server.Contents(), m, password, f.record.id, name);
      HandleLogs(server.Contents(), user, DeleteSecret(f.record.id));
      var _ := server.DeleteSecret(user, f.record.id);
      outcome := Stored;
    }

    /** All names, opened one by one and sorted. */
    method ListUnlocked(ghost r: Realm, ghost m: map<string, string>, ghost password: string, key: Key)
      returns (names: seq<string>)
      requires Means(r, m, password) && key == r.key
      ensures forall i, j | 0 <= i < j < |names| :: Precedes(names[i], names[j])
      ensures forall name :: name in names <==> name in m
    {
      hide Represents, Valid, RowsOf, VaultOk, Listing, Lists, Sort;
      var vault := Metadata(r, m, password);
      RowsOfAMapParse(r, RowsOf(server.Contents(), user), m);
      var listed := ListRecords();
      var records := listed.value;
      SortedNamesListTheMap(r, RowsOf(server.Contents(), user), m, records);
      var out := [];
      for i := 0 to |records|
        invariant NamesOf(records[..i], r.vaultId, r.key) == Some(out)
      {
        assert records[..i + 1][..i] == records[..i];
        PrefixOpens(records, i + 1, r.vaultId, r.key);
        var p := records[i].payload;
        if p.name.Some? {
          out := out + [p.name.value];
        } else {
          out := out + [OpenName(p.encryptedName.value, vault.id, records[i].id, key).value];
        }
      }
      assert records[..|records|] == records;
      names := Sort(out);
      ListsMeans(names, m);
    }

    /** Draws the vault key and wraps it; the server takes it only for an account without a vault. */
    method Initialize(password: string, isPrivate: bool, id: Uuid, serial: nat, kdf: KdfParameters, nonce: Nonce)
      returns (key: Option<Key>)
      requires Valid(server.Contents()) && FreshKdf(kdf)
      modifies server
      ensures key.Some? <==> user !in old(server.vaults) && !VaultIdUsed(old(server.vaults), id)
      ensures key.Some? ==>
                key.value == VaultKey(serial) && Means(Realm(user, id, isPrivate, key.value), map[], password)
      ensures key.None? ==> server.Contents() == old(server.Contents())
    {
      hide Valid, Opens, Wrap, VaultIdUsed;
      InitializeOpens(server.Contents(), user, id, isPrivate, password, serial, kdf, nonce);
      var wrapped := Wrap(VaultKey(serial), user, password, kdf, nonce);
      var status := server.PostVault(user, id, wrapped.value, isPrivate);
      key := if status.Done? then Some(VaultKey(serial)) else None;
    }

    method RotatePassword(
      ghost r: Realm, ghost m: map<string, string>, ghost password: string,
      attempt: string, next: string, kdf: KdfParameters, nonce: Nonce) returns (outcome: Outcome)
      requires Means(r, m, password) && FreshKdf(kdf)
      modifies server
      ensures outcome == if attempt == password then Rekeyed else BadPassword
      ensures Means(r, m, if outcome.Rekeyed? then next else password)
      ensures outcome.Rekeyed? ==> WroteOnce(old(server.Contents()), MasterKeyRewrapped)
      ensures !outcome.Rekeyed? ==> server.Contents() == old(server.Contents())
    {
      hide Represents, Valid, RowsOf, Wrap, WrapsUnder, UpdateVaultKey, FreshKdf;
      var vault := Metadata(r, m, password);
      var key := UnlockVault(r, password, vault, attempt);
      if key.None? { return BadPassword; }
      WrapKeepsKey(r, next, kdf, nonce);
      var wrapped := Wrap(key.value, user, next, kdf, nonce);
      RewrapMeans(r, server.Contents(), m, password, wrapped.value, next);
      HandleLogs(server.Contents(), user, PutKey(wrapped.value));
      var _ := server.PutVaultKey(user, wrapped.value);
      outcome := Rekeyed;
    }

    method Add(
      ghost r: Realm, ghost m: map<string, string>, ghost password: string,
      name: string, text: string, attempt: string, id: Uuid, n1: Nonce, n2: Nonce) returns (outcome: Outcome)
      requires Means(r, m, password) && id !in server.secrets
      modifies server
      ensures outcome == if name == "" then RefusedLocally else if attempt != password then BadPassword
                         else if name in m then AlreadyExists else if AcceptableName(r, name) then Stored else Rejected
      ensures Means(r, if outcome.Stored? then m[name := text] else m, password)
      ensures server.audit == old(server.audit) + if outcome.Stored? then [Event(user, SecretCreated, id)] else []
    {
      hide Opens, WrapsUnder;
      if name == "" { return RefusedLocally; }
      var vault := Metadata(r, m, password);
      var key := UnlockVault(r, password, vault, attempt);
      if key.None? { return BadPassword; }
      outcome := AddUnlocked(r, m, password, name, text, key.value, id, n1, n2);
    }

    method Get(ghost r: Realm, ghost m: map<string, string>, ghost password: string, name: string, attempt: string)
      returns (outcome: Outcome)
      requires Means(r, m, password)
      ensures outcome == if attempt != password then BadPassword else if name in m then Value(m[name]) else NotFound
    {
      hide Opens, WrapsUnder;
      var vault := Metadata(r, m, password);
      var key := UnlockVault(r, password, vault, attempt);
      if key.None? { return BadPassword; }
      outcome := GetUnlocked(r, m, password, name, key.value);
    }

    method Update(
      ghost r: Realm, ghost m: map<string, string>, ghost password: string,
      name: string, text: string, attempt: string, nonce: Nonce) returns (outcome: Outcome)
      requires Means(r, m, password)
      modifies server
      ensures outcome == if attempt != password then BadPassword else if name in m then Stored else NotFound
      ensures Means(r, if outcome.Stored? then m[name := text] else m, password)
      ensures outcome.Stored? ==> WroteOnce(old(server.Contents()), SecretUpdated)
      ensures !outcome.Stored? ==> server.Contents() == old(server.Contents())
    {
      hide Opens, WrapsUnder;
      var vault := Metadata(r, m, password);
      var key := UnlockVault(r, password, vault, attempt);
      if key.None? { return BadPassword; }
      outcome := UpdateUnlocked(r, m, password, name, text, key.value, nonce);
    }
  }

  lemma ListsMeans(names: seq<string>, m: map<string, string>)
    requires Lists(names, m)
    ensures forall i, j | 0 <= i < j < |names| :: Precedes(names[i], names[j])
    ensures forall name :: name in names <==> name in m
  {
    hide Precedes;
  }

  lemma PayloadIsGood(r: Realm, id: Uuid, name: string, text: string, n1: Nonce, n2: Nonce)
    requires WellKeyed(r)
    ensures var p := NewPayload(r.vaultId, r.isPrivate, r.key, id, name, text, n1, n2);
      && p.Some? && Encodes(r, id, p.value, name, text) && (ValidPayload(p.value) <==> AcceptableName(r, name))
  {
    NewPayloadEncodes(r, id, name, text, n1, n2);
    hide NewPayload, Encodes, ValidPayload;
  }

  /** When all names of a listing open, so do the first i. */
  lemma {:induction false} PrefixOpens(records: seq<Record>, i: nat, vaultId: Uuid, key: Key)
    requires i <= |records| && NamesOf(records, vaultId, key).Some?
    ensures NamesOf(records[..i], vaultId, key).Some?
    decreases |records| - i
  {
    if i == |records| {
      assert records[..i] == records;
    } else {
      PrefixOpens(records, i + 1, vaultId, key);
      assert records[..i + 1][..i] == records[..i];
    }
  }
}
