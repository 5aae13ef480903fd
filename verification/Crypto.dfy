/**
 The client's cryptography, with every primitive replaced by its ideal form.

 Ciphertexts, keys and keyed hashes are terms: two of them are equal only when they were made
 from equal arguments. A sealed value therefore opens only under the key, the associated data and
 the nonce it was sealed with, a key encryption key is determined by (password, parameters), and
 the keyed name hash is injective. The associated data stay real strings, so that the separation
 of contexts is proved about the text the client actually builds.
 */
module Crypto {
  import opened Wrappers

  type Byte = b: int | 0 <= b < 256
  type Bytes = seq<Byte>

  /** The textual form of a UUID: 36 characters. */
  type Uuid = s: string | |s| == 36 witness seq(36, _ => '0')

  const FORMAT_VERSION := 1
  const ALGORITHM := "xchacha20poly1305"
  const KDF_ALGORITHM := "argon2id"
  const KEY_BYTES: nat := 32
  const NONCE_BYTES: nat := 24
  const TAG_BYTES: nat := 16
  const SALT_BYTES: nat := 16
  const HASH_BYTES: nat := 32

  type Nonce = n: Bytes | |n| == NONCE_BYTES witness seq(NONCE_BYTES, _ => 0)

  datatype KdfParameters = KdfParameters(algorithm: string, salt: Bytes, opsLimit: nat, memLimit: nat)

  /** Raw keys are byte strings no client drew; they may have any length. */
  datatype Key =
    | VaultKey(serial: nat)
    | Kek(password: string, kdf: KdfParameters)
    | RawKey(bytes: Bytes)

  datatype Plain =
    | Text(text: string)
    | KeyBytes(key: Key)
    | Archive(vaultId: Uuid, isPrivate: bool, records: seq<Record>)

  datatype Cipher =
    | Sealed(key: Key, aad: string, nonce: Bytes, plain: Plain)
    | Junk(bytes: Bytes)

  datatype Encrypted = Encrypted(version: int, algorithm: string, cipher: Cipher, nonce: Bytes)

  datatype PackedName =
    | Packed(nonce: Bytes, cipher: Cipher)
    | Unreadable(bytes: Bytes)

  datatype NameHash =
    | KeyedHash(name: string, key: Key)
    | RawHash(bytes: Bytes)

  /** The part of a secret that both the create and the update request carry. */
  datatype Payload = Payload(
    name: Option<string>, encryptedName: Option<PackedName>, nameHash: Option<NameHash>, value: Encrypted)

  datatype Record = Record(id: Uuid, payload: Payload, recordVersion: nat)

  // ---------------------------------------------------------------- sizes

  function KeySize(key: Key): nat {
    if key.RawKey? then |key.bytes| else KEY_BYTES
  }

  function PlainSize(plain: Plain): nat {
    match plain
    case Text(text) => |text|
    case KeyBytes(key) => KeySize(key)
    case Archive(_, _, records) => |records|
  }

  function CipherSize(cipher: Cipher): nat {
    match cipher
    case Sealed(_, _, _, plain) => PlainSize(plain) + TAG_BYTES
    case Junk(bytes) => |bytes|
  }

  function PackedSize(packed: PackedName): nat {
    match packed
    case Packed(nonce, cipher) => 5 + |nonce| + CipherSize(cipher)
    case Unreadable(bytes) => |bytes|
  }

  function HashSize(hash: NameHash): nat {
    if hash.RawHash? then |hash.bytes| else HASH_BYTES
  }

  // ----------------------------------------------------------- operations

  function DeriveKek(password: string, kdf: KdfParameters): Option<Key> {
    if kdf.algorithm != KDF_ALGORITHM || |kdf.salt| != SALT_BYTES then None else Some(Kek(password, kdf))
  }

  function Encrypt(plain: Plain, key: Key, aad: string, nonce: Nonce): Option<Encrypted> {
    if KeySize(key) != KEY_BYTES then None
    else Some(Encrypted(FORMAT_VERSION, ALGORITHM, Sealed(key, aad, nonce, plain), nonce))
  }

  function Decrypt(value: Encrypted, key: Key, aad: string): Option<Plain> {
    if value.version != FORMAT_VERSION || value.algorithm != ALGORITHM || KeySize(key) != KEY_BYTES
       || |value.nonce| != NONCE_BYTES || CipherSize(value.cipher) < TAG_BYTES then None
    else match value.cipher
      case Sealed(k, a, n, plain) => if k == key && a == aad && n == value.nonce then Some(plain) else None
      case Junk(_) => None
  }

  function PrivateNameHash(name: string, key: Key): Option<NameHash> {
    if KeySize(key) != KEY_BYTES then None else Some(KeyedHash(name, key))
  }

  function Pack(value: Encrypted): Option<PackedName> {
    if value.version != FORMAT_VERSION || value.algorithm != ALGORITHM || |value.nonce| != NONCE_BYTES then None
    else Some(Packed(value.nonce, value.cipher))
  }

  function Unpack(packed: PackedName): Option<Encrypted> {
    if packed.Unreadable? || PackedSize(packed) < 45 || |packed.nonce| != NONCE_BYTES then None
    else Some(Encrypted(FORMAT_VERSION, ALGORITHM, packed.cipher, packed.nonce))
  }

  /** Decryption accepts a value exactly when it is what encryption yields for that key, text and context. */
  lemma OpensExactlyWhatWasSealed(value: Encrypted, key: Key, aad: string, plain: Plain)
    ensures Decrypt(value, key, aad) == Some(plain)
       <==> |value.nonce| == NONCE_BYTES && Encrypt(plain, key, aad, value.nonce) == Some(value)
    ensures Decrypt(value, key, aad).Some? ==>
              && value.version == 1 && value.algorithm == "xchacha20poly1305"
              && |value.nonce| == 24 && KeySize(key) == 32
              && CipherSize(value.cipher) == PlainSize(Decrypt(value, key, aad).value) + 16
  {
  }

  // ------------------------------------------------------ associated data

  /** What a sealed value is for. Record ids and names are unconstrained text. */
  datatype Context =
    | ForVaultKey(user: string)
    | ForSecret(vault: string, name: string)
    | ForPrivateSecret(vault: string, id: string)
    | ForPrivateName(vault: string, id: string)
    | ForBackup(user: string)

  function VaultKeyAad(user: string): string { "nox:v1:vault-key:" + user }

  function SecretAad(vault: string, name: string): string { "nox:v1:secret:" + vault + ":" + name }

  function PrivateSecretAad(vault: string, id: string): string { "nox:v1:private-secret:" + vault + ":" + id }

  function PrivateNameAad(vault: string, id: string): string { "nox:v1:private-name:" + vault + ":" + id }

  function BackupAad(user: string): string { "nox:v1:backup:" + user }

  function Aad(c: Context): string {
    match c
    case ForVaultKey(user) => VaultKeyAad(user)
    case ForSecret(vault, name) => SecretAad(vault, name)
    case ForPrivateSecret(vault, id) => PrivateSecretAad(vault, id)
    case ForPrivateName(vault, id) => PrivateNameAad(vault, id)
    case ForBackup(user) => BackupAad(user)
  }

  /** The vault named by a context; the two account-wide contexts name none. */
  function VaultPart(c: Context): string {
    match c
    case ForVaultKey(_) => ""
    case ForSecret(vault, _) => vault
    case ForPrivateSecret(vault, _) => vault
    case ForPrivateName(vault, _) => vault
    case ForBackup(_) => ""
  }

  /** The associated data of each purpose, on samples: other clients of the same vault must build the same text. */
  lemma KnownContexts()
    ensures Aad(ForVaultKey("u")) == "nox:v1:vault-key:u"
    ensures Aad(ForSecret("v", "n")) == "nox:v1:secret:v:n"
    ensures Aad(ForPrivateSecret("v", "i")) == "nox:v1:private-secret:v:i"
    ensures Aad(ForPrivateName("v", "i")) == "nox:v1:private-name:v:i"
    ensures Aad(ForBackup("u")) == "nox:v1:backup:u"
  {
  }

  /** A key encryption key exists exactly for Argon2id with a 16-byte salt; it tells passwords and parameters apart. */
  lemma KeksAreSeparate(p: string, q: string, a: KdfParameters, b: KdfParameters)
    ensures DeriveKek(p, a).Some? <==> a.algorithm == "argon2id" && |a.salt| == 16
    ensures DeriveKek(p, a).Some? && DeriveKek(p, a) == DeriveKek(q, b) ==> p == q && a == b
  {
  }

  /** A packed name unpacks to what was packed; a text too short for nonce, tag and header does not unpack. */
  lemma PackedNamesUnpack(value: Encrypted, packed: PackedName)
    ensures Pack(value).Some? && CipherSize(value.cipher) >= 16 ==> Unpack(Pack(value).value) == Some(value)
    ensures PackedSize(packed) < 45 ==> Unpack(packed).None?
    ensures Unpack(packed).Some? ==>
              packed.Packed? && |packed.nonce| == 24 && Pack(Unpack(packed).value) == Some(packed)
  {
  }

  /** The fixed text each purpose starts with tells the purposes apart by two characters. */
  lemma PurposeShows(c: Context)
    ensures |Aad(c)| > 13
    ensures c.ForVaultKey? <==> Aad(c)[7] == 'v'
    ensures c.ForSecret? <==> Aad(c)[7] == 's'
    ensures c.ForBackup? <==> Aad(c)[7] == 'b'
    ensures c.ForPrivateSecret? || c.ForPrivateName? <==> Aad(c)[7] == 'p'
    ensures c.ForPrivateSecret? ==> |Aad(c)| > 15 && Aad(c)[15] == 's'
    ensures c.ForPrivateName? ==> |Aad(c)| > 15 && Aad(c)[15] == 'n'
  {
  }

  /** Two texts with a common head and a separator after equally long ids split the same way. */
  lemma SplitsAlike(head: string, v1: string, t1: string, v2: string, t2: string)
    requires |v1| == |v2|
    requires head + v1 + ":" + t1 == head + v2 + ":" + t2
    ensures v1 == v2 && t1 == t2
  {
    var a, b := head + v1 + ":" + t1, head + v2 + ":" + t2;
    var from, to := |head|, |head| + |v1|;
    assert v1 == a[from..to] && v2 == b[from..to];
    assert t1 == a[to + 1..] && t2 == b[to + 1..];
  }

  lemma TailsAlike(head: string, t1: string, t2: string)
    requires head + t1 == head + t2
    ensures t1 == t2
  {
    assert t1 == (head + t1)[|head|..] && t2 == (head + t2)[|head|..];
  }

  /** The five builders are jointly injective on purpose and arguments whenever vault ids have one length. */
  lemma ContextsAreSeparate(c: Context, d: Context)
    requires c.ForVaultKey? || c.ForBackup? || d.ForVaultKey? || d.ForBackup? || |VaultPart(c)| == |VaultPart(d)|
    ensures Aad(c) == Aad(d) <==> c == d
  {
    if Aad(c) == Aad(d) {
      PurposeShows(c);
      PurposeShows(d);
      match c
      case ForVaultKey(u) => TailsAlike("nox:v1:vault-key:", u, d.user);
      case ForBackup(u) => TailsAlike("nox:v1:backup:", u, d.user);
      case ForSecret(v, n) => SplitsAlike("nox:v1:secret:", v, n, d.vault, d.name);
      case ForPrivateSecret(v, i) => SplitsAlike("nox:v1:private-secret:", v, i, d.vault, d.id);
      case ForPrivateName(v, i) => SplitsAlike("nox:v1:private-name:", v, i, d.vault, d.id);
    }
  }

  /** The length condition is needed: with ids of different length a name can absorb part of an id. */
  lemma UnequalIdsCanCollide()
    ensures Aad(ForSecret("a", "b:c")) == Aad(ForSecret("a:b", "c"))
  {
    assert "a" + ":" + "b:c" == "a:b" + ":" + "c";
    assert SecretAad("a", "b:c") == "nox:v1:secret:" + ("a" + ":" + "b:c");
    assert SecretAad("a:b", "c") == "nox:v1:secret:" + ("a:b" + ":" + "c");
  }

  /** A ciphertext offered under another purpose, vault, record, name or account never opens. */
  lemma MovedCiphertextIsRejected(plain: Plain, key: Key, other: Key, nonce: Nonce, sealedFor: Context, used: Context)
    requires KeySize(key) == KEY_BYTES
    requires sealedFor.ForVaultKey? || sealedFor.ForBackup? || |VaultPart(sealedFor)| == 36
    requires used.ForVaultKey? || used.ForBackup? || |VaultPart(used)| == 36
    ensures Decrypt(Encrypt(plain, key, Aad(sealedFor), nonce).value, other, Aad(used))
         == if key == other && sealedFor == used then Some(plain) else None
  {
    ContextsAreSeparate(sealedFor, used);
  }
}
