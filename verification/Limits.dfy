/** Where the promises stop: what the server, which cannot read names or values, cannot prevent. */
module Limits {
  import opened Wrappers
  import opened Crypto
  import opened Store
  import opened Client
  import opened BackupFiles
  import opened ProtocolInvariant
  import opened Linearizability

  // ------------------------------------------ a write that outlives its vault

  /** The vault a client read before it computed its write, and the one that is there when the write arrives. */
  ghost predicate Alike(was: Realm, now: Realm) {
    WellKeyed(was) && WellKeyed(now) && was.user == now.user
  }

  predicate SameVault(was: Realm, now: Realm) {
    was.vaultId == now.vaultId && was.key == now.key
  }

  /** The rows are the encryption of some map. */
  ghost predicate Meaningful(r: Realm, rows: map<Uuid, Secret>) {
    exists m :: Represents(r, rows, m)
  }

  /** A payload sealed for one vault and key opens under another exactly when vault and key are the same. */
  lemma SealedForOneVault(was: Realm, now: Realm, id: Uuid, p: Payload, name: string, text: string)
    requires Alike(was, now) && was.isPrivate == now.isPrivate && Encodes(was, id, p, name, text)
    ensures SameVault(was, now) ==> Encodes(now, id, p, name, text)
    ensures !SameVault(was, now) ==> forall m :: !Shows(now, id, p, m)
  {
    if was.isPrivate {
      ContextsAreSeparate(ForPrivateName(was.vaultId, id), ForPrivateName(now.vaultId, id));
    } else {
      ContextsAreSeparate(ForSecret(was.vaultId, name), ForSecret(now.vaultId, name));
    }
  }

  /** Rows with one row written, whose name no other row has, represent a map again. */
  lemma WrittenRowsMean(
    r: Realm, rows: map<Uuid, Secret>, m: map<string, string>, id: Uuid, row: Secret, name: string, text: string)
    requires Represents(r, rows, m) && Encodes(r, id, row.payload, name, text)
    requires (forall k | k in rows :: rows[k].vaultId == r.vaultId) && !Clash(rows, id, r.vaultId, row.payload)
    ensures Meaningful(r, rows[id := row])
  {
    var others, rest := rows, m;
    if id in rows {
      var title := TitleOf(r, id, rows[id].payload).value by { assert Shows(r, id, rows[id].payload, m); }
      DropRow(r, rows, m, id, title);
      others, rest := rows - {id}, m - {title};
    }
    hide Represents, Encodes;
    ClashMeansNameInUse(r, others, rest, id, row.payload, name, text);
    AddRow(r, others, rest, id, row, name, text);
    assert others[id := row] == rows[id := row];
  }

  lemma WriteMeansSomething(
    was: Realm, now: Realm, rows: map<Uuid, Secret>, m: map<string, string>, id: Uuid, row: Secret,
    name: string, text: string)
    requires Alike(was, now) && was.isPrivate == now.isPrivate
    requires Represents(now, rows, m) && Encodes(was, id, row.payload, name, text)
    requires (forall k | k in rows :: rows[k].vaultId == now.vaultId) && !Clash(rows, id, now.vaultId, row.payload)
    ensures Meaningful(now, rows[id := row]) <==> SameVault(was, now)
  {
    SealedForOneVault(was, now, id, row.payload, name, text);
    if SameVault(was, now) {
      hide Represents, Encodes;
      WrittenRowsMean(now, rows, m, id, row, name, text);
    } else {
      var written := rows[id := row];
      forall after ensures !Represents(now, written, after) {
        assert id in written && written[id] == row && !Shows(now, id, row.payload, after);
      }
    }
  }

  /** A payload shows the mode of the vault it was sealed for, and the server compares the modes. */
  lemma FormShowsMode(r: Realm, id: Uuid, p: Payload, name: string, text: string)
    requires Encodes(r, id, p, name, text)
    ensures p.encryptedName.Some? == r.isPrivate
  {
  }

  lemma RowsAreTheVaults(d: Database, user: Uuid)
    requires user in d.vaults
    ensures forall k | k in RowsOf(d, user) :: RowsOf(d, user)[k].vaultId == d.vaults[user].id
  {
  }

  /**
   A POST sealed before a restore and accepted after it leaves rows that mean a map if and only if the vault
   that is there has the id and key of the vault that was.
   */
  lemma PostAcrossRestoreCorrupts(
    was: Realm, now: Realm, d: Database, m: map<string, string>, password: string, id: Uuid, p: Payload,
    name: string, text: string)
    requires Alike(was, now) && Opens(now, d, m, password) && Encodes(was, id, p, name, text)
    requires CreateSecret(d, now.user, id, p).1.Done?
    ensures Meaningful(now, RowsOf(CreateSecret(d, now.user, id, p).0, now.user)) <==> SameVault(was, now)
  {
    hide Represents, Encodes, Valid, ValidPayload, Clash, CreateSecret, RowsOf, WrapsUnder;
    RowsAreTheVaults(d, now.user);
    FormShowsMode(was, id, p, name, text);
    CreateOnRows(d, now.user, id, p);
    WriteMeansSomething(was, now, RowsOf(d, now.user), m, id, Secret(now.vaultId, p, 1), name, text);
  }

  /** The same for the PUT of an update, accepted because the restored row has the version that was read. */
  lemma PutAcrossRestoreCorrupts(
    was: Realm, now: Realm, d: Database, m: map<string, string>, password: string, id: Uuid, p: Payload, version: nat,
    name: string, text: string)
    requires Alike(was, now) && Opens(now, d, m, password) && Encodes(was, id, p, name, text)
    requires UpdateSecret(d, now.user, id, p, version).1.Done?
    ensures Meaningful(now, RowsOf(UpdateSecret(d, now.user, id, p, version).0, now.user)) <==> SameVault(was, now)
  {
    hide Represents, Encodes, Valid, ValidPayload, Clash, UpdateSecret, RowsOf, WrapsUnder;
    RowsAreTheVaults(d, now.user);
    FormShowsMode(was, id, p, name, text);
    UpdateOnRows(d, now.user, id, p, version);
    WriteMeansSomething(was, now, RowsOf(d, now.user), m, id, Secret(now.vaultId, p, version + 1), name, text);
  }

  /**
   The worst one: a rotation whose PUT crosses a restore is always accepted. Afterwards some password yields
   the vault's key if and only if the restored vault has the key that was wrapped; else the vault is lost.
   */
  lemma RotationAcrossRestoreLosesTheKey(
    was: Realm, now: Realm, d: Database, m: map<string, string>, password: string, wrapped: WrappedKey, next: string)
    requires Alike(was, now) && Opens(now, d, m, password) && WrapsUnder(was, wrapped, next)
    ensures var (after, status) := UpdateVaultKey(d, now.user, wrapped);
      && status.Done? && now.user in after.vaults
      && ((exists attempt :: Unlock(after.vaults[now.user].wrapped, now.user, attempt) == Some(now.key))
          <==> was.key == now.key)
      && (was.key == now.key ==> Opens(now, after, m, next))
  {
    hide Represents, Valid, RowsOf;
    RewrapOnRows(d, now.user, wrapped);
    UpdateVaultKeyKeepsValid(d, now.user, wrapped);
    var after := UpdateVaultKey(d, now.user, wrapped).0;
    forall attempt
      ensures Unlock(after.vaults[now.user].wrapped, now.user, attempt)
              == if attempt == next then Some(was.key) else None
    {
      UnlocksExactly(was, wrapped, next, attempt);
    }
    assert Unlock(after.vaults[now.user].wrapped, now.user, next) == Some(was.key);
  }

  // ---------------------------------------------------------- legacy records

  /** A private record opens to the name; its hash, if it carries one, is that name's. */
  ghost predicate Carries(r: Realm, id: Uuid, p: Payload, name: string) {
    && p.name.None? && p.encryptedName.Some? && TitleOf(r, id, p) == Some(name)
    && (p.nameHash == None || p.nameHash == Some(KeyedHash(name, r.key)))
  }

  /** The hash constraint catches two private records of one name exactly when both carry their hash. */
  lemma DuplicateIsCaughtIff(r: Realm, i: Uuid, p: Payload, j: Uuid, q: Payload, pName: string, qName: string)
    requires Carries(r, i, p, pName) && Carries(r, j, q, qName)
    ensures SameName(p, q) <==> pName == qName && p.nameHash.Some? && q.nameHash.Some?
  {
    hide TitleOf;
  }

  /** Every row opens to some name; some may be legacy rows, without a hash. */
  ghost predicate AllCarry(r: Realm, rows: map<Uuid, Secret>) {
    forall k | k in rows :: exists name :: Carries(r, k, rows[k].payload, name)
  }

  ghost predicate Guarded(r: Realm, rows: map<Uuid, Secret>, name: string) {
    exists k :: Titled(r, rows, k, name) && rows[k].payload.nameHash.Some?
  }

  lemma ClashMeansGuarded(r: Realm, rows: map<Uuid, Secret>, id: Uuid, p: Payload, name: string)
    requires AllCarry(r, rows) && id !in rows && forall k | k in rows :: rows[k].vaultId == r.vaultId
    requires Carries(r, id, p, name) && p.nameHash.Some?
    ensures Clash(rows, id, r.vaultId, p) <==> Guarded(r, rows, name)
  {
    hide TitleOf;
    forall k | k in rows
      ensures SameName(rows[k].payload, p) <==> Titled(r, rows, k, name) && rows[k].payload.nameHash.Some?
    {
      var title :| Carries(r, k, rows[k].payload, title);
      DuplicateIsCaughtIff(r, k, rows[k].payload, id, p, title, name);
    }
  }

  /**
   A private vault whose rows may lack their hash accepts a new secret of a name if and only if no row of that
   name carries one; beside a legacy row of that name there are then two.
   */
  lemma LegacyNameCanBeDoubled(
    r: Realm, d: Database, id: Uuid, name: string, text: string, n1: Nonce, n2: Nonce)
    requires WellKeyed(r) && r.isPrivate && r.user in d.vaults
    requires d.vaults[r.user].id == r.vaultId && d.vaults[r.user].isPrivate
    requires AllCarry(r, RowsOf(d, r.user)) && id !in d.secrets
    ensures var p := NewPayload(r.vaultId, true, r.key, id, name, text, n1, n2);
      && p.Some?
      && var (after, status) := CreateSecret(d, r.user, id, p.value);
      && (status.Done? <==> !Guarded(r, RowsOf(d, r.user), name))
      && (status.Done? ==> Titled(r, RowsOf(after, r.user), id, name)
                           && forall k | Titled(r, RowsOf(d, r.user), k, name) ::
                                k != id && Titled(r, RowsOf(after, r.user), k, name))
  {
    NewPayloadEncodes(r, id, name, text, n1, n2);
    var p := NewPayload(r.vaultId, true, r.key, id, name, text, n1, n2).value;
    var rows := RowsOf(d, r.user);
    assert id !in rows;
    RowsAreTheVaults(d, r.user);
    hide NewPayload, ValidPayload, OpenText, TitleOf, CreateSecret, RowsOf, AllCarry, Guarded;
    ClashMeansGuarded(r, rows, id, p, name);
    CreateOnRows(d, r.user, id, p);
  }
}
