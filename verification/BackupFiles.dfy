/** The encrypted backup file: what export writes, and what import accepts and sends. */
module BackupFiles {
  import opened Wrappers
  import opened Crypto
  import opened Store
  import opened Client

  const MAGIC := "NOXBACKUP"
  const FILE_VERSION := 1

  datatype BackupFile = BackupFile(
    magic: string, formatVersion: int, sourceUser: string, vaultId: Uuid, wrapped: WrappedKey, isPrivate: bool,
    payload: Encrypted)

  datatype Reading = Ready(backup: Backup) | WrongPassword | Unacceptable

  function MakeFile(user: Uuid, vault: Vault, key: Key, records: seq<Record>, nonce: Nonce): Option<BackupFile> {
    match Encrypt(Archive(vault.id, vault.isPrivate, records), key, BackupAad(user), nonce)
    case None => None
    case Some(payload) => Some(BackupFile(MAGIC, FILE_VERSION, user, vault.id, vault.wrapped, vault.isPrivate, payload))
  }

  /** The checks of import, in order, and the restore request they lead to. */
  function ReadFile(file: BackupFile, user: Uuid, password: string, replace: bool): Reading {
    if file.magic != MAGIC || file.formatVersion != FILE_VERSION || file.sourceUser != user then Unacceptable
    else match DeriveKek(password, file.wrapped.kdf)
      case None => Unacceptable
      case Some(kek) =>
        match Decrypt(WrappedValue(file.wrapped), kek, VaultKeyAad(user))
        case None => WrongPassword
        case Some(header) => if header.KeyBytes? then ReadPayload(file, user, header.key, replace) else Unacceptable
  }

  /** The second half: the payload under the vault key, and what the header says of it. */
  function ReadPayload(file: BackupFile, user: Uuid, key: Key, replace: bool): Reading {
    match Decrypt(file.payload, key, BackupAad(user))
    case Some(Archive(vaultId, isPrivate, records)) =>
      if vaultId != file.vaultId || isPrivate != file.isPrivate || |records| > MAX_RECORDS then Unacceptable
      else Ready(Backup(1, user, replace, vaultId, file.wrapped, isPrivate, records))
    case _ => Unacceptable
  }

  /** The password that opens a file made by export: the one its header was wrapped under. */
  function PasswordOf(file: BackupFile): string {
    if file.wrapped.cipher.Sealed? && file.wrapped.cipher.key.Kek? then file.wrapped.cipher.key.password else ""
  }

  function RecordsOf(file: BackupFile): seq<Record> {
    if file.payload.cipher.Sealed? && file.payload.cipher.plain.Archive? then file.payload.cipher.plain.records else []
  }

  // ---------------------------------------------------- the wrapped vault key

  /** The wrapped key opens to the realm's key, under that password. */
  ghost predicate WrapsUnder(r: Realm, w: WrappedKey, password: string) {
    ValidWrappedKey(w) && w.cipher == Sealed(Kek(password, w.kdf), VaultKeyAad(r.user), w.nonce, KeyBytes(r.key))
  }

  ghost predicate FreshKdf(kdf: KdfParameters) {
    kdf.algorithm == "argon2id" && |kdf.salt| == 16 && kdf.opsLimit > 0 && kdf.memLimit > 0
  }

  /** Exactly the password it was wrapped under opens a wrapped key, and it yields the one vault key. */
  lemma UnlocksExactly(r: Realm, w: WrappedKey, password: string, attempt: string)
    requires WrapsUnder(r, w, password)
    ensures Unlock(w, r.user, attempt) == if attempt == password then Some(r.key) else None
  {
  }

  /** Wrapping again under a new password keeps the key. */
  lemma WrapKeepsKey(r: Realm, password: string, kdf: KdfParameters, nonce: Nonce)
    requires WellKeyed(r) && FreshKdf(kdf)
    ensures var w := Wrap(r.key, r.user, password, kdf, nonce);
      w.Some? && WrapsUnder(r, w.value, password) && w.value.kdf == kdf && w.value.nonce == nonce
  {
  }

  /** Import of an exported file asks for exactly the exported vault and records, given the header's password. */
  lemma FileRoundTrip(
    r: Realm, vault: Vault, records: seq<Record>, nonce: Nonce, password: string, attempt: string, replace: bool)
    requires WellKeyed(r) && WrapsUnder(r, vault.wrapped, password) && |records| <= MAX_RECORDS
    ensures var file := MakeFile(r.user, vault, r.key, records, nonce);
      && file.Some? && PasswordOf(file.value) == password && RecordsOf(file.value) == records
      && file.value.payload.nonce == nonce
      && ReadFile(file.value, r.user, attempt, replace)
         == if attempt == password
            then Ready(Backup(1, r.user, replace, vault.id, vault.wrapped, vault.isPrivate, records))
            else WrongPassword
  {
    UnlocksExactly(r, vault.wrapped, password, attempt);
  }

  // ------------------------------------------------- which files are accepted

  /** The header is that of a backup of this account, and says how to derive a key encryption key. */
  predicate HeaderFits(file: BackupFile, user: Uuid) {
    && file.magic == "NOXBACKUP" && file.formatVersion == 1 && file.sourceUser == user
    && file.wrapped.kdf.algorithm == "argon2id" && |file.wrapped.kdf.salt| == 16
  }

  /** The header's wrapped key was sealed for this account under that password. */
  predicate HeaderHolds(file: BackupFile, user: Uuid, password: string, plain: Plain) {
    var w := file.wrapped;
    |w.nonce| == 24 && w.cipher == Sealed(Kek(password, w.kdf), "nox:v1:vault-key:" + user, w.nonce, plain)
  }

  /** The payload was sealed for this account under that key, and is of the vault and mode the header names. */
  predicate PayloadHolds(file: BackupFile, user: Uuid, key: Key, records: seq<Record>) {
    var archive := Archive(file.vaultId, file.isPrivate, records);
    && KeySize(key) == 32 && |file.payload.nonce| == 24 && |records| <= 10000
    && file.payload == Encrypted(1, "xchacha20poly1305",
                                 Sealed(key, "nox:v1:backup:" + user, file.payload.nonce, archive), file.payload.nonce)
  }

  lemma HeaderOpens(file: BackupFile, user: Uuid, password: string, plain: Plain)
    ensures Decrypt(WrappedValue(file.wrapped), Kek(password, file.wrapped.kdf), VaultKeyAad(user)) == Some(plain)
       <==> HeaderHolds(file, user, password, plain)
  {
  }

  lemma PayloadOpens(file: BackupFile, user: Uuid, key: Key, replace: bool, b: Backup)
    ensures ReadPayload(file, user, key, replace) == Ready(b)
       <==> && PayloadHolds(file, user, key, b.records)
            && b == Backup(1, user, replace, file.vaultId, file.wrapped, file.isPrivate, b.records)
  {
  }

  /**
   Import goes to the server with exactly the files that are whole: the right account and format, a header that
   opens with the password to a key, and under that key a payload of at most 10,000 records that names the
   vault and metadata mode of the header; and it asks for just that. A password is called wrong exactly when the
   header fits and does not open with it. Everything else is refused.
   */
  lemma ReadsExactly(file: BackupFile, user: Uuid, password: string, replace: bool, b: Backup)
    ensures ReadFile(file, user, password, replace) == Ready(b)
       <==> && HeaderFits(file, user)
            && (exists key ::
                  HeaderHolds(file, user, password, KeyBytes(key)) && PayloadHolds(file, user, key, b.records))
            && b == Backup(1, user, replace, file.vaultId, file.wrapped, file.isPrivate, b.records)
    ensures ReadFile(file, user, password, replace).WrongPassword?
       <==> HeaderFits(file, user) && !exists plain :: HeaderHolds(file, user, password, plain)
  {
    var unsealed := Decrypt(WrappedValue(file.wrapped), Kek(password, file.wrapped.kdf), VaultKeyAad(user));
    forall plain ensures unsealed == Some(plain) <==> HeaderHolds(file, user, password, plain) {
      HeaderOpens(file, user, password, plain);
    }
    forall key ensures ReadPayload(file, user, key, replace) == Ready(b)
      <==> && PayloadHolds(file, user, key, b.records)
           && b == Backup(1, user, replace, file.vaultId, file.wrapped, file.isPrivate, b.records)
    {
      PayloadOpens(file, user, key, replace, b);
    }
    forall key ensures !ReadPayload(file, user, key, replace).WrongPassword? {
    }
    hide Decrypt, HeaderHolds, PayloadHolds, ReadPayload;
    if unsealed.Some? { assert HeaderHolds(file, user, password, unsealed.value); }
  }
}
