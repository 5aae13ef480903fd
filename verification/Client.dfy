/**
 What the client computes between its requests, and what the rows of a vault mean to someone who
 holds the vault key: a map from names to plaintexts.
 */
module Client {
  import opened Wrappers
  import opened Crypto
  import opened Store

  // ------------------------------------------------------ local computation

  function WrappedValue(w: WrappedKey): Encrypted {
    Encrypted(FORMAT_VERSION, ALGORITHM, w.cipher, w.nonce)
  }

  /** The vault key, or None for a wrong password or damaged vault metadata. */
  function Unlock(wrapped: WrappedKey, user: Uuid, password: string): Option<Key> {
    match DeriveKek(password, wrapped.kdf)
    case None => None
    case Some(kek) =>
      match Decrypt(WrappedValue(wrapped), kek, VaultKeyAad(user))
      case Some(KeyBytes(key)) => Some(key)
      case _ => None
  }

  function Wrap(key: Key, user: Uuid, password: string, kdf: KdfParameters, nonce: Nonce): Option<WrappedKey> {
    match DeriveKek(password, kdf)
    case None => None
    case Some(kek) =>
      match Encrypt(KeyBytes(key), kek, VaultKeyAad(user), nonce)
      case None => None
      case Some(value) => Some(WrappedKey(value.cipher, value.nonce, kdf))
  }

  function ValueAad(isPrivate: bool, vaultId: Uuid, id: Uuid, name: string): string {
    if isPrivate then PrivateSecretAad(vaultId, id) else SecretAad(vaultId, name)
  }

  function OpenText(value: Encrypted, key: Key, aad: string): Option<string> {
    match Decrypt(value, key, aad)
    case Some(Text(text)) => Some(text)
    case _ => None
  }

  function OpenName(packed: PackedName, vaultId: Uuid, id: Uuid, key: Key): Option<string> {
    match Unpack(packed)
    case None => None
    case Some(value) => OpenText(value, key, PrivateNameAad(vaultId, id))
  }

  datatype Lookup = Found(record: Record) | Missing | Broken

  /** A row the client can read: one name form, a packed name that unpacks, a known format. */
  predicate Parses(r: Record) {
    && r.payload.name.Some? != r.payload.encryptedName.Some?
    && (r.payload.encryptedName.Some? ==> Unpack(r.payload.encryptedName.value).Some?)
    && r.payload.value.version == FORMAT_VERSION && r.payload.value.algorithm == ALGORITHM
  }

  predicate AllParse(records: seq<Record>) {
    forall i | 0 <= i < |records| :: Parses(records[i])
  }

  /** The first record of that name; private names are found by trial decryption. */
  function Scan(records: seq<Record>, name: string, vaultId: Uuid, key: Option<Key>): Lookup {
    if records == [] then Missing
    else
      var r := records[0];
      match r.payload.name
      case Some(n) => if n == name then Found(r) else Scan(records[1..], name, vaultId, key)
      case None =>
        if key.None? || r.payload.encryptedName.None? then Scan(records[1..], name, vaultId, key)
        else match OpenName(r.payload.encryptedName.value, vaultId, r.id, key.value)
          case None => Broken
          case Some(n) => if n == name then Found(r) else Scan(records[1..], name, vaultId, key)
  }

  /** Lookup reads the whole listing first, and fails when any row does not parse. */
  function Find(records: seq<Record>, name: string, vaultId: Uuid, key: Option<Key>): Lookup {
    if AllParse(records) then Scan(records, name, vaultId, key) else Broken
  }

  /** The payload of a new secret, in the vault's metadata mode. */
  function NewPayload(
    vaultId: Uuid, isPrivate: bool, key: Key, id: Uuid, name: string, text: string, n1: Nonce, n2: Nonce)
    : Option<Payload>
  {
    match Encrypt(Text(text), key, ValueAad(isPrivate, vaultId, id, name), n2)
    case None => None
    case Some(value) =>
      if !isPrivate then Some(Payload(Some(name), None, None, value))
      else match Encrypt(Text(name), key, PrivateNameAad(vaultId, id), n1)
        case None => None
        case Some(encrypted) => Some(Payload(None, Pack(encrypted), PrivateNameHash(name, key), value))
  }

  /** The payload of an update: the record's own name form with a freshly sealed value. */
  function Reseal(
    vaultId: Uuid, isPrivate: bool, key: Key, r: Record, name: string, text: string, nonce: Nonce): Option<Payload>
  {
    match Encrypt(Text(text), key, ValueAad(isPrivate, vaultId, r.id, name), nonce)
    case None => None
    case Some(value) => Some(r.payload.(value := value))
  }

  /** The names of a listing in record order, or None when one of them does not open. */
  function NamesOf(records: seq<Record>, vaultId: Uuid, key: Key): Option<seq<string>> {
    if records == [] then Some([])
    else
      var n := |records| - 1;
      match NamesOf(records[..n], vaultId, key)
      case None => None
      case Some(names) =>
        var p := records[n].payload;
        if p.name.Some? then Some(names + [p.name.value])
        else if p.encryptedName.None? then None
        else match OpenName(p.encryptedName.value, vaultId, records[n].id, key)
          case None => None
          case Some(name) => Some(names + [name])
  }

  function ListNames(records: seq<Record>, vaultId: Uuid, key: Key): Option<seq<string>> {
    if AllParse(records) then NamesOf(records, vaultId, key) else None
  }

  // ---------------------------------------------------------------- meaning

  /** One user's vault as seen by the holders of its key. */
  datatype Realm = Realm(user: Uuid, vaultId: Uuid, isPrivate: bool, key: Key)

  ghost predicate WellKeyed(r: Realm) {
    r.key.VaultKey?
  }

  function TitleOf(r: Realm, id: Uuid, p: Payload): Option<string> {
    if p.name.Some? then p.name
    else if p.encryptedName.Some? then OpenName(p.encryptedName.value, r.vaultId, id, r.key)
    else None
  }

  /** The payload, stored under that id, stands for (name, text). */
  ghost predicate Encodes(r: Realm, id: Uuid, p: Payload, name: string, text: string) {
    && TitleOf(r, id, p) == Some(name)
    && OpenText(p.value, r.key, ValueAad(r.isPrivate, r.vaultId, id, name)) == Some(text)
    && p.encryptedName.Some? == r.isPrivate && p.name.Some? == !r.isPrivate
    && p.nameHash == (if r.isPrivate then Some(KeyedHash(name, r.key)) else None)
  }

  ghost predicate Shows(r: Realm, id: Uuid, p: Payload, m: map<string, string>) {
    var title := TitleOf(r, id, p);
    title.Some? && title.value in m && Encodes(r, id, p, title.value, m[title.value])
  }

  ghost predicate OnePerName(r: Realm, rows: map<Uuid, Secret>) {
    forall i, j | i in rows && j in rows && TitleOf(r, i, rows[i].payload) == TitleOf(r, j, rows[j].payload) :: i == j
  }

  ghost predicate Titled(r: Realm, rows: map<Uuid, Secret>, id: Uuid, name: string) {
    id in rows && TitleOf(r, id, rows[id].payload) == Some(name)
  }

  /** The rows are an encryption of the map: one row a name, each opening to that name and its text. */
  ghost predicate Represents(r: Realm, rows: map<Uuid, Secret>, m: map<string, string>) {
    && (forall id | id in rows :: Shows(r, id, rows[id].payload, m))
    && OnePerName(r, rows)
    && (forall name | name in m :: exists id :: Titled(r, rows, id, name))
  }

  lemma RepresentsOneMap(r: Realm, rows: map<Uuid, Secret>, m1: map<string, string>, m2: map<string, string>)
    requires Represents(r, rows, m1) && Represents(r, rows, m2)
    ensures m1 == m2
  {
    forall name | name in m1 ensures name in m2 && m2[name] == m1[name] {
      var id :| Titled(r, rows, id, name);
      assert Shows(r, id, rows[id].payload, m1) && Shows(r, id, rows[id].payload, m2);
    }
    forall name | name in m2 ensures name in m1 {
      var id :| Titled(r, rows, id, name);
      assert Shows(r, id, rows[id].payload, m1);
    }
  }

  lemma AddRow(
    r: Realm, rows: map<Uuid, Secret>, m: map<string, string>, id: Uuid, row: Secret, name: string, text: string)
    requires Represents(r, rows, m) && id !in rows && name !in m
    requires Encodes(r, id, row.payload, name, text)
    ensures Represents(r, rows[id := row], m[name := text])
  {
    var rows', m' := rows[id := row], m[name := text];
    forall i | i in rows' ensures Shows(r, i, rows'[i].payload, m') {
      if i != id { assert Shows(r, i, rows[i].payload, m); }
    }
    forall i | i in rows ensures TitleOf(r, i, rows[i].payload) != Some(name) {
      assert Shows(r, i, rows[i].payload, m);
    }
    forall n | n in m' ensures exists i :: Titled(r, rows', i, n) {
      if n == name {
        assert Titled(r, rows', id, n);
      } else {
        var i :| Titled(r, rows, i, n);
        assert Titled(r, rows', i, n);
      }
    }
  }

  lemma ChangeRow(
    r: Realm, rows: map<Uuid, Secret>, m: map<string, string>, id: Uuid, row: Secret, name: string, text: string)
    requires Represents(r, rows, m) && Titled(r, rows, id, name)
    requires Encodes(r, id, row.payload, name, text)
    ensures Represents(r, rows[id := row], m[name := text])
  {
    var rows', m' := rows[id := row], m[name := text];
    forall i | i in rows' ensures Shows(r, i, rows'[i].payload, m') {
      if i != id {
        assert Shows(r, i, rows[i].payload, m);
        assert TitleOf(r, i, rows[i].payload) != Some(name);
      }
    }
    forall n | n in m' ensures exists i :: Titled(r, rows', i, n) {
      if n == name {
        assert Titled(r, rows', id, n);
      } else {
        var i :| Titled(r, rows, i, n);
        assert Titled(r, rows', i, n);
      }
    }
  }

  lemma DropRow(r: Realm, rows: map<Uuid, Secret>, m: map<string, string>, id: Uuid, name: string)
    requires Represents(r, rows, m) && Titled(r, rows, id, name)
    ensures Represents(r, rows - {id}, m - {name})
  {
    var rows', m' := rows - {id}, m - {name};
    forall i | i in rows' ensures Shows(r, i, rows'[i].payload, m') {
      assert Shows(r, i, rows[i].payload, m);
    }
    forall n | n in m' ensures exists i :: Titled(r, rows', i, n) {
      var i :| Titled(r, rows, i, n);
      assert Titled(r, rows', i, n);
    }
  }

  // ------------------------------------------------- what GET /secrets returns

  ghost predicate ListedAt(rows: map<Uuid, Secret>, record: Record) {
    record.id in rows && record == Record(record.id, rows[record.id].payload, rows[record.id].recordVersion)
  }

  /** The records are the rows, each once, in some order. */
  ghost predicate Listing(rows: map<Uuid, Secret>, records: seq<Record>) {
    && (forall i | 0 <= i < |records| :: ListedAt(rows, records[i]))
    && (forall i, j | 0 <= i < j < |records| :: records[i].id != records[j].id)
    && (forall id | id in rows :: exists i | 0 <= i < |records| :: records[i].id == id)
  }

  /** A payload in the one known format: a name or a packed name of at least 45 bytes with a nonce of 24. */
  ghost predicate Readable(p: Payload) {
    && p.value.version == 1 && p.value.algorithm == "xchacha20poly1305"
    && (p.name.Some? <==> p.encryptedName.None?)
    && (p.encryptedName.Some? ==>
          var packed := p.encryptedName.value; packed.Packed? && |packed.nonce| == 24 && PackedSize(packed) >= 45)
  }

  ghost predicate RowsParse(rows: map<Uuid, Secret>) {
    forall id | id in rows :: Readable(rows[id].payload)
  }

  lemma ReadableParses(r: Record)
    ensures Parses(r) <==> Readable(r.payload)
  {
  }

  lemma ListingParses(rows: map<Uuid, Secret>, records: seq<Record>)
    requires Listing(rows, records)
    ensures AllParse(records) <==> RowsParse(rows)
  {
    hide Parses, Readable;
    forall i | 0 <= i < |records| && !Parses(records[i]) ensures !RowsParse(rows) {
      assert ListedAt(rows, records[i]);
      ReadableParses(records[i]);
    }
    forall id | id in rows && !Readable(rows[id].payload) ensures !AllParse(records) {
      var i :| 0 <= i < |records| && records[i].id == id;
      assert ListedAt(rows, records[i]);
      ReadableParses(records[i]);
    }
  }

  lemma ListingGrows(rows: map<Uuid, Secret>, id: Uuid, others: seq<Record>)
    requires id in rows && Listing(rows - {id}, others)
    ensures Listing(rows, others + [Record(id, rows[id].payload, rows[id].recordVersion)])
  {
    var records := others + [Record(id, rows[id].payload, rows[id].recordVersion)];
    forall i | 0 <= i < |records| ensures ListedAt(rows, records[i]) {
      if i < |others| { assert ListedAt(rows - {id}, others[i]); }
    }
    forall i | 0 <= i < |others| ensures others[i].id != id {
      assert ListedAt(rows - {id}, others[i]);
    }
    forall k | k in rows ensures exists i | 0 <= i < |records| :: records[i].id == k {
      if k == id {
        assert records[|others|].id == k;
      } else {
        assert k in rows - {id};
        var i :| 0 <= i < |others| && others[i].id == k;
        assert records[i].id == k;
      }
    }
  }

  /** Every set of rows can be listed. */
  lemma ListingExists(rows: map<Uuid, Secret>) returns (records: seq<Record>)
    ensures Listing(rows, records)
    decreases |rows|
  {
    if rows == map[] {
      records := [];
    } else {
      var id :| id in rows;
      var rest := rows - {id};
      assert rest.Keys == rows.Keys - {id};
      var others := ListingExists(rest);
      records := others + [Record(id, rows[id].payload, rows[id].recordVersion)];
      ListingGrows(rows, id, others);
    }
  }

  ghost predicate CanRead(r: Realm, key: Option<Key>) {
    key == Some(r.key) || (key == None && !r.isPrivate)
  }

  /** One step of the scan: the first record is taken exactly when its title is the name. */
  lemma FindTakes(r: Realm, m: map<string, string>, records: seq<Record>, name: string, key: Option<Key>)
    requires records != [] && Shows(r, records[0].id, records[0].payload, m) && CanRead(r, key)
    ensures Scan(records, name, r.vaultId, key)
            == if TitleOf(r, records[0].id, records[0].payload) == Some(name) then Found(records[0])
               else Scan(records[1..], name, r.vaultId, key)
  {
    hide OpenText;
  }

  /** What the scan makes of one record: it has the name, it does not, or it cannot be opened to tell. */
  datatype Glance = Match | Pass | Closed

  function Look(r: Record, name: string, vaultId: Uuid, key: Option<Key>): Glance {
    if r.payload.name.Some? then (if r.payload.name == Some(name) then Match else Pass)
    else if key.None? || r.payload.encryptedName.None? then Pass
    else
      var title := OpenName(r.payload.encryptedName.value, vaultId, r.id, key.value);
      if title.None? then Glance.Closed else if title == Some(name) then Match else Pass
  }

  /** On any listing, whatever its rows mean: the scan stops at the first record that it does not pass over. */
  lemma {:induction false} ScanStopsAtTheFirst(
    records: seq<Record>, i: nat, name: string, vaultId: Uuid, key: Option<Key>)
    requires i <= |records| && forall j | 0 <= j < i :: Look(records[j], name, vaultId, key).Pass?
    requires i < |records| ==> !Look(records[i], name, vaultId, key).Pass?
    ensures Scan(records, name, vaultId, key)
            == if i == |records| then Missing
               else if Look(records[i], name, vaultId, key).Match? then Found(records[i]) else Broken
    decreases i
  {
    hide OpenName;
    if i > 0 {
      var rest := records[1..];
      assert forall j | 0 <= j < i - 1 :: rest[j] == records[j + 1];
      assert i < |records| ==> rest[i - 1] == records[i];
      assert Look(records[0], name, vaultId, key).Pass?;
      ScanStopsAtTheFirst(rest, i - 1, name, vaultId, key);
    }
  }

  /** Scanning a suffix of a listing finds exactly the record of that name, and no record fails to open. */
  lemma {:induction false} FindScans(
    r: Realm, rows: map<Uuid, Secret>, m: map<string, string>, records: seq<Record>, name: string, key: Option<Key>)
    requires Represents(r, rows, m) && CanRead(r, key)
    requires forall i | 0 <= i < |records| :: ListedAt(rows, records[i])
    ensures var f := Scan(records, name, r.vaultId, key);
      && !f.Broken?
      && (f.Found? ==> ListedAt(rows, f.record) && Titled(r, rows, f.record.id, name))
      && (f.Missing? ==> forall i | 0 <= i < |records| :: TitleOf(r, records[i].id, records[i].payload) != Some(name))
  {
    if records != [] {
      var first := records[0];
      assert ListedAt(rows, first) && Shows(r, first.id, rows[first.id].payload, m);
      FindTakes(r, m, records, name, key);
      hide Represents, Scan, Shows, TitleOf;
      FindScans(r, rows, m, records[1..], name, key);
      assert forall i | 1 <= i < |records| :: records[i] == records[1..][i - 1];
    }
  }

  /** Rows that stand for names and texts all parse. */
  lemma ListedRowsParse(r: Realm, rows: map<Uuid, Secret>, m: map<string, string>, records: seq<Record>)
    requires Represents(r, rows, m) && forall i | 0 <= i < |records| :: ListedAt(rows, records[i])
    ensures AllParse(records)
  {
    forall i | 0 <= i < |records| ensures Parses(records[i]) {
      assert ListedAt(rows, records[i]) && Shows(r, records[i].id, rows[records[i].id].payload, m);
      hide Represents;
    }
  }

  lemma RowsOfAMapParse(r: Realm, rows: map<Uuid, Secret>, m: map<string, string>)
    requires Represents(r, rows, m)
    ensures RowsParse(rows)
  {
    var records := ListingExists(rows);
    ListedRowsParse(r, rows, m, records);
    ListingParses(rows, records);
  }

  /** Lookup by trial decryption agrees with the map. */
  lemma FindAgrees(
    r: Realm, rows: map<Uuid, Secret>, m: map<string, string>, records: seq<Record>, name: string, key: Option<Key>)
    requires Represents(r, rows, m) && CanRead(r, key) && Listing(rows, records)
    ensures var f := Find(records, name, r.vaultId, key);
      && (f.Found? <==> name in m) && (f.Missing? <==> name !in m)
      && (f.Found? ==> ListedAt(rows, f.record) && Titled(r, rows, f.record.id, name)
                       && Encodes(r, f.record.id, f.record.payload, name, m[name]))
  {
    if name in m {
      var id :| Titled(r, rows, id, name);
      var i :| 0 <= i < |records| && records[i].id == id;
      assert ListedAt(rows, records[i]) && TitleOf(r, records[i].id, records[i].payload) == Some(name);
    }
    ListedRowsParse(r, rows, m, records);
    FindScans(r, rows, m, records, name, key);
    var f := Find(records, name, r.vaultId, key);
    if f.Found? {
      assert Shows(r, f.record.id, rows[f.record.id].payload, m);
    }
  }

  /** Sealing for an honest client succeeds and yields a payload that stands for what was sealed. */
  lemma NewPayloadEncodes(r: Realm, id: Uuid, name: string, text: string, n1: Nonce, n2: Nonce)
    requires WellKeyed(r)
    ensures var p := NewPayload(r.vaultId, r.isPrivate, r.key, id, name, text, n1, n2);
      && p.Some? && Encodes(r, id, p.value, name, text)
      && (ValidPayload(p.value) <==> r.isPrivate || 1 <= |name| <= 255)
      && p.value.value.nonce == n2
      && (r.isPrivate ==>
            var packed := p.value.encryptedName.value;
            packed.Packed? && packed.nonce == n1 && PackedSize(packed) == 45 + |name|)
  {
  }

  lemma ResealEncodes(r: Realm, record: Record, name: string, before: string, text: string, nonce: Nonce)
    requires WellKeyed(r) && Encodes(r, record.id, record.payload, name, before)
    ensures var p := Reseal(r.vaultId, r.isPrivate, r.key, record, name, text, nonce);
      && p.Some? && Encodes(r, record.id, p.value, name, text)
      && p.value.name == record.payload.name && p.value.encryptedName == record.payload.encryptedName
      && p.value.nameHash == record.payload.nameHash
      && (ValidPayload(record.payload) ==> ValidPayload(p.value))
      && p.value.value.nonce == nonce
  {
  }

  /** The server's uniqueness constraints, which never see a private name, reject exactly the names in use. */
  lemma ClashMeansNameInUse(
    r: Realm, rows: map<Uuid, Secret>, m: map<string, string>, id: Uuid, p: Payload, name: string, text: string)
    requires Represents(r, rows, m) && Encodes(r, id, p, name, text) && id !in rows
    requires forall k | k in rows :: rows[k].vaultId == r.vaultId
    ensures Clash(rows, id, r.vaultId, p) <==> name in m
  {
    forall k | k in rows ensures SameName(rows[k].payload, p) <==> TitleOf(r, k, rows[k].payload) == Some(name) {
      assert Shows(r, k, rows[k].payload, m);
    }
    if name in m {
      var k :| Titled(r, rows, k, name);
      assert SameName(rows[k].payload, p);
    }
    forall k | k in rows && SameName(rows[k].payload, p) ensures name in m {
      assert Shows(r, k, rows[k].payload, m);
    }
  }

  /** Re-sealing a row under its own name never violates a uniqueness constraint. */
  lemma OwnNameNeverClashes(
    r: Realm, rows: map<Uuid, Secret>, m: map<string, string>, id: Uuid, p: Payload, name: string, text: string)
    requires Represents(r, rows, m) && Titled(r, rows, id, name) && Encodes(r, id, p, name, text)
    ensures !Clash(rows, id, r.vaultId, p)
  {
    forall k | k in rows && k != id ensures !SameName(rows[k].payload, p) {
      assert Shows(r, k, rows[k].payload, m);
    }
  }

  // ------------------------------------------------------------ sorted names

  predicate Below(a: string, b: string) {
    if a == [] then b != []
    else b != [] && (a[0] < b[0] || (a[0] == b[0] && Below(a[1..], b[1..])))
  }

  ghost predicate Sorted(names: seq<string>) {
    forall i, j | 0 <= i < j < |names| :: names[i] == names[j] || Below(names[i], names[j])
  }

  /** Lexicographic order: a is a proper prefix of b, or smaller where they first differ. */
  ghost predicate Precedes(a: string, b: string) {
    exists k: nat :: k <= |a| && k < |b| && a[..k] == b[..k] && (k == |a| || a[k] < b[k])
  }

  ghost predicate StrictlySorted(names: seq<string>) {
    forall i, j | 0 <= i < j < |names| :: Precedes(names[i], names[j])
  }

  /** The comparison, character by character, is the lexicographic order. */
  lemma {:induction false} BelowIsLexicographic(a: string, b: string)
    ensures Below(a, b) <==> Precedes(a, b)
  {
    if a == [] || b == [] || a[0] != b[0] {
      assert b != [] && (a == [] || a[0] < b[0]) ==> a[..0] == b[..0];
      forall k: nat | 0 < k <= |a| && k < |b| ensures a[..k] != b[..k] {
        assert a[..k][0] != b[..k][0];
      }
    } else {
      BelowIsLexicographic(a[1..], b[1..]);
      LaterDifference(a, b);
    }
  }

  lemma LaterDifference(a: string, b: string)
    requires a != [] && b != [] && a[0] == b[0]
    ensures Precedes(a[1..], b[1..]) <==> Precedes(a, b)
  {
    if k: nat :| k <= |a[1..]| && k < |b[1..]| && a[1..][..k] == b[1..][..k]
                 && (k == |a[1..]| || a[1..][k] < b[1..][k])
    {
      assert a[..k + 1] == [a[0]] + a[1..][..k] && b[..k + 1] == [b[0]] + b[1..][..k];
    }
    if k: nat :| k <= |a| && k < |b| && a[..k] == b[..k] && (k == |a| || a[k] < b[k]) {
      assert a[1..][..k - 1] == a[..k][1..] && b[1..][..k - 1] == b[..k][1..];
    }
  }

  lemma BelowIsTotal(a: string, b: string)
    ensures a == b || Below(a, b) || Below(b, a)
  {
    if a != [] && b != [] && a[0] == b[0] {
      BelowIsTotal(a[1..], b[1..]);
      assert a == [a[0]] + a[1..] && b == [b[0]] + b[1..];
    }
  }

  lemma BelowIsStrict(a: string, b: string)
    requires Below(a, b)
    ensures a != b && !Below(b, a)
  {
  }

  lemma BelowIsTransitive(a: string, b: string, c: string)
    requires Below(a, b) && Below(b, c)
    ensures Below(a, c)
  {
  }

  function InsertSorted(names: seq<string>, name: string): seq<string> {
    if names == [] then [name]
    else if names[0] == name || Below(names[0], name) then [names[0]] + InsertSorted(names[1..], name)
    else [name] + names
  }

  function Sort(names: seq<string>): seq<string> {
    if names == [] then [] else InsertSorted(Sort(names[..|names| - 1]), names[|names| - 1])
  }

  /** A name not after any of these, nor after one more, is not after any rearrangement of them all. */
  lemma NotAfterAny(first: string, rest: seq<string>, name: string, tail: seq<string>)
    requires multiset(tail) == multiset(rest) + multiset{name}
    requires first == name || Below(first, name)
    requires forall k | 0 <= k < |rest| :: first == rest[k] || Below(first, rest[k])
    ensures forall j | 0 <= j < |tail| :: first == tail[j] || Below(first, tail[j])
  {
    hide Below;
    forall j | 0 <= j < |tail| ensures first == tail[j] || Below(first, tail[j]) {
      assert tail[j] in multiset(tail);
      if tail[j] != name {
        assert tail[j] in multiset(rest);
        assert tail[j] in rest;
      }
    }
  }

  lemma FirstOfSorted(names: seq<string>)
    requires Sorted(names) && names != []
    ensures Sorted(names[1..])
    ensures forall k | 0 <= k < |names[1..]| :: names[0] == names[1..][k] || Below(names[0], names[1..][k])
  {
    hide Below;
  }

  lemma SortedWithFirst(first: string, tail: seq<string>)
    requires Sorted(tail) && forall j | 0 <= j < |tail| :: first == tail[j] || Below(first, tail[j])
    ensures Sorted([first] + tail)
  {
    hide Below;
  }

  lemma BeforeAll(name: string, names: seq<string>)
    requires names != [] && Below(name, names[0])
    requires forall j | 0 < j < |names| :: names[0] == names[j] || Below(names[0], names[j])
    ensures forall j | 0 <= j < |names| :: name == names[j] || Below(name, names[j])
  {
    hide Below;
    forall j | 0 <= j < |names| ensures Below(name, names[j]) {
      if names[j] != names[0] { BelowIsTransitive(name, names[0], names[j]); }
    }
  }

  lemma {:induction false} InsertSortedSorts(names: seq<string>, name: string)
    requires Sorted(names)
    ensures Sorted(InsertSorted(names, name))
    ensures multiset(InsertSorted(names, name)) == multiset(names) + multiset{name}
  {
    hide Sorted, Below;
    if names == [] {
      SortedWithFirst(name, []) by { NothingIsSorted(); }
      assert [name] + [] == [name];
    } else {
      var first, rest := names[0], names[1..];
      assert names == [first] + rest;
      FirstOfSorted(names);
      if first == name || Below(first, name) {
        InsertSortedSorts(rest, name);
        NotAfterAny(first, rest, name, InsertSorted(rest, name));
        SortedWithFirst(first, InsertSorted(rest, name));
      } else {
        BelowIsTotal(first, name);
        BeforeAll(name, names);
        SortedWithFirst(name, names);
      }
    }
  }

  lemma NothingIsSorted()
    ensures Sorted([])
  {
  }

  /** list_unlocked's sort: the same names, in order. */
  lemma {:induction false} SortSorts(names: seq<string>)
    ensures Sorted(Sort(names)) && multiset(Sort(names)) == multiset(names)
  {
    if names != [] {
      var n := |names| - 1;
      SortSorts(names[..n]);
      InsertSortedSorts(Sort(names[..n]), names[n]);
      assert names == names[..n] + [names[n]];
    }
  }

  ghost predicate Lists(names: seq<string>, m: map<string, string>) {
    StrictlySorted(names) && (forall name :: name in names <==> name in m)
  }

  lemma PrecedesIsStrict(a: string, b: string)
    requires Precedes(a, b)
    ensures a != b && !Precedes(b, a)
  {
    BelowIsLexicographic(a, b);
    BelowIsLexicographic(b, a);
    BelowIsStrict(a, b);
  }

  /** A strictly sorted listing of the keys is the only one. */
  lemma {:induction false} SortedListingIsUnique(a: seq<string>, b: seq<string>)
    requires StrictlySorted(a) && StrictlySorted(b) && (forall name :: name in a <==> name in b)
    ensures a == b
  {
    var first := if b == [] then "" else b[0];
    assert b == [] || first in a;
    if a != [] {
      assert a[0] in b;
      var i :| 0 <= i < |a| && a[i] == b[0];
      var j :| 0 <= j < |b| && b[j] == a[0];
      if a[0] != b[0] { PrecedesIsStrict(a[0], b[0]); }
      assert a[0] == b[0];
      forall name ensures name in a[1..] <==> name in b[1..] {
        TailMembers(a, name);
        TailMembers(b, name);
      }
      SortedListingIsUnique(a[1..], b[1..]);
    }
  }

  lemma TailMembers(a: seq<string>, name: string)
    requires StrictlySorted(a) && a != []
    ensures name in a[1..] <==> name in a && name != a[0]
  {
    if name in a[1..] {
      var k :| 0 <= k < |a[1..]| && a[1..][k] == name;
      PrecedesIsStrict(a[0], a[k + 1]);
    }
  }

  lemma OneMoreNameOpens(r: Realm, m: map<string, string>, records: seq<Record>)
    requires records != [] && Shows(r, records[|records| - 1].id, records[|records| - 1].payload, m)
    ensures var n := |records| - 1;
      var title, before := TitleOf(r, records[n].id, records[n].payload), NamesOf(records[..n], r.vaultId, r.key);
      && title.Some?
      && NamesOf(records, r.vaultId, r.key) == if before.None? then None else Some(before.value + [title.value])
  {
    hide OpenText;
  }

  /** The names of a listing: one a record, each the record's title. */
  lemma {:induction false} NamesOpen(
    r: Realm, rows: map<Uuid, Secret>, m: map<string, string>, records: seq<Record>)
    requires Represents(r, rows, m) && forall i | 0 <= i < |records| :: ListedAt(rows, records[i])
    ensures var names := NamesOf(records, r.vaultId, r.key);
      && names.Some? && |names.value| == |records|
      && forall i | 0 <= i < |records| :: TitleOf(r, records[i].id, records[i].payload) == Some(names.value[i])
  {
    if records != [] {
      var n := |records| - 1;
      assert ListedAt(rows, records[n]) && Shows(r, records[n].id, rows[records[n].id].payload, m);
      OneMoreNameOpens(r, m, records);
      hide Represents, NamesOf, Shows, TitleOf;
      NamesOpen(r, rows, m, records[..n]);
      assert forall i | 0 <= i < n :: records[i] == records[..n][i];
    }
  }

  lemma SortedDistinctIsStrict(names: seq<string>, sorted: seq<string>)
    requires Sorted(sorted) && multiset(sorted) == multiset(names)
    requires forall i, j | 0 <= i < j < |names| :: names[i] != names[j]
    ensures StrictlySorted(sorted) && forall name :: name in sorted <==> name in names
  {
    hide Precedes, Below;
    forall i, j | 0 <= i < j < |sorted| ensures Precedes(sorted[i], sorted[j]) {
      BelowIsLexicographic(sorted[i], sorted[j]);
      if sorted[i] == sorted[j] {
        TwiceInMultiset(sorted, i, j);
        OnceInMultiset(names, sorted[i]);
      }
    }
    forall name ensures name in sorted <==> name in names {
      assert name in sorted <==> name in multiset(sorted);
      assert name in names <==> name in multiset(names);
    }
  }

  lemma TwiceInMultiset(s: seq<string>, i: nat, j: nat)
    requires i < j < |s| && s[i] == s[j]
    ensures multiset(s)[s[i]] >= 2
  {
    assert s == s[..i] + [s[i]] + s[i + 1..j] + [s[j]] + s[j + 1..];
  }

  lemma {:induction false} OnceInMultiset(s: seq<string>, x: string)
    requires forall i, j | 0 <= i < j < |s| :: s[i] != s[j]
    ensures multiset(s)[x] <= 1
  {
    if s != [] {
      OnceInMultiset(s[1..], x);
      assert s == [s[0]] + s[1..];
    }
  }

  /** list_unlocked returns the sorted key set of the map. */
  lemma SortedNamesListTheMap(r: Realm, rows: map<Uuid, Secret>, m: map<string, string>, records: seq<Record>)
    requires Represents(r, rows, m) && Listing(rows, records)
    ensures ListNames(records, r.vaultId, r.key).Some?
    ensures Lists(Sort(ListNames(records, r.vaultId, r.key).value), m)
  {
    ListedRowsParse(r, rows, m, records);
    NamesOpen(r, rows, m, records);
    var names := NamesOf(records, r.vaultId, r.key).value;
    SortSorts(names);
    TitlesAreDistinct(r, rows, records, names);
    SortedDistinctIsStrict(names, Sort(names));
    NamesCoverTheMap(r, rows, m, records, names);
  }

  lemma NamesCoverTheMap(
    r: Realm, rows: map<Uuid, Secret>, m: map<string, string>, records: seq<Record>, names: seq<string>)
    requires Represents(r, rows, m) && Listing(rows, records) && |names| == |records|
    requires forall i | 0 <= i < |records| :: TitleOf(r, records[i].id, records[i].payload) == Some(names[i])
    ensures forall name :: name in names <==> name in m
  {
    forall name | name in m ensures name in names {
      var id :| Titled(r, rows, id, name);
      var i :| 0 <= i < |records| && records[i].id == id;
      assert ListedAt(rows, records[i]) && names[i] == name;
    }
    forall i | 0 <= i < |names| ensures names[i] in m {
      assert ListedAt(rows, records[i]) && Shows(r, records[i].id, rows[records[i].id].payload, m);
    }
  }

  lemma TitlesAreDistinct(r: Realm, rows: map<Uuid, Secret>, records: seq<Record>, names: seq<string>)
    requires OnePerName(r, rows) && Listing(rows, records) && |names| == |records|
    requires forall i | 0 <= i < |records| :: TitleOf(r, records[i].id, records[i].payload) == Some(names[i])
    ensures forall i, j | 0 <= i < j < |names| :: names[i] != names[j]
  {
    forall i, j | 0 <= i < j < |names| ensures names[i] != names[j] {
      assert ListedAt(rows, records[i]) && ListedAt(rows, records[j]);
    }
  }
}
