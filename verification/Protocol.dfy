/**
 Many clients of one vault, each running its operations as the source does: one request at a time,
 with local computation in between, while the requests of all clients and of all other users
 interleave freely on the server.
 */
module Protocol {
  import opened Wrappers
  import opened Crypto
  import opened Store
  import opened Client
  import opened BackupFiles

  // ------------------------------------------------------------- operations

  /** Holding: the key came from the agent. Anonymous: remove without a key. */
  datatype Auth = Holding | Password(password: string) | Anonymous

  datatype Op =
    | Add(name: string, text: string)
    | Get(name: string)
    | Update(name: string, text: string)
    | Remove(name: string)
    | List
    | Open
    | Rotate(newPassword: string)
    | Export
    | Import(file: BackupFile, replace: bool)
    | Initialize(isPrivate: bool)

  datatype Call = Call(op: Op, auth: Auth)

  datatype Outcome =
    | Stored | Value(text: string) | Names(names: seq<string>) | Opened(key: Key) | Saved(file: BackupFile)
    | Rekeyed | Imported
    | NotFound | AlreadyExists | Rejected | BadPassword | Conflict | Vanished | RefusedLocally | VaultPresent
    | TooLarge | Failed

  predicate WellFormed(call: Call) {
    match call.op
    case Add(_, _) | Get(_) | Update(_, _) => !call.auth.Anonymous?
    case Remove(_) => !call.auth.Password?
    case List => call.auth.Holding?
    case _ => call.auth.Password?
  }

  /** Where a client stands between two requests, and what it remembers. */
  datatype Pc =
    | Idle
    | Called(call: Call, start: nat)
    | KnowsVault(call: Call, start: nat, vault: Vault, key: Option<Key>)
    | Rewrapping(call: Call, start: nat, wrapped: WrappedKey)
    | Posting(call: Call, start: nat, id: Uuid, payload: Payload)
    | Putting(call: Call, start: nat, read: nat, id: Uuid, payload: Payload, version: nat)
    | Deleting(call: Call, start: nat, read: nat, id: Uuid)

  /** What one step draws at random, and the order in which the server lists rows. */
  datatype Draw = Draw(
    id: Uuid, serial: nat, nonce1: Nonce, nonce2: Nonce, kdf: KdfParameters, records: seq<Record>)

  /** What local computation leads to: another request, or the end of the call. */
  datatype Move = Go(pc: Pc) | End(outcome: Outcome)

  function AfterVault(r: Realm, call: Call, start: nat, vault: Vault, draw: Draw): Move {
    match call.auth
    case Anonymous => if vault.isPrivate then End(RefusedLocally) else Go(KnowsVault(call, start, vault, None))
    case Holding => Go(KnowsVault(call, start, vault, Some(r.key)))
    case Password(password) =>
      match Unlock(vault.wrapped, r.user, password)
      case None => End(BadPassword)
      case Some(key) =>
        match call.op
        case Open => End(Opened(key))
        case Rotate(next) =>
          (match Wrap(key, r.user, next, draw.kdf, draw.nonce1)
           case None => End(Failed)
           case Some(wrapped) => Go(Rewrapping(call, start, wrapped)))
        case _ => Go(KnowsVault(call, start, vault, Some(key)))
  }

  function AfterList(user: Uuid, call: Call, start: nat, read: nat, vault: Vault, key: Option<Key>, draw: Draw): Move {
    match call.op
    case Add(name, text) => AfterListAdd(call, start, vault, key, name, text, draw)
    case Get(name) => AfterListGet(vault, key, name, draw)
    case Update(name, text) => AfterListUpdate(call, start, read, vault, key, name, text, draw)
    case Remove(name) => AfterListRemove(call, start, read, vault, key, name, draw)
    case List =>
      if key.None? then End(Failed)
      else (match ListNames(draw.records, vault.id, key.value)
            case None => End(Failed)
            case Some(names) => End(Names(Sort(names))))
    case Export =>
      if key.None? then End(Failed)
      else if |draw.records| > MAX_RECORDS then End(TooLarge)
      else (match MakeFile(user, vault, key.value, draw.records, draw.nonce1)
            case None => End(Failed)
            case Some(file) => End(Saved(file)))
    case _ => End(Failed)
  }

  function AfterListGet(vault: Vault, key: Option<Key>, name: string, draw: Draw): Move {
    match Find(draw.records, name, vault.id, key)
    case Missing => End(NotFound)
    case Broken => End(Failed)
    case Found(record) =>
      if key.None? then End(Failed)
      else match OpenText(record.payload.value, key.value, ValueAad(vault.isPrivate, vault.id, record.id, name))
        case None => End(Failed)
        case Some(text) => End(Value(text))
  }

  function AfterListAdd(
    call: Call, start: nat, vault: Vault, key: Option<Key>, name: string, text: string, draw: Draw): Move
  {
    match Find(draw.records, name, vault.id, key)
    case Found(_) => End(AlreadyExists)
    case Broken => End(Failed)
    case Missing =>
      if key.None? then End(Failed)
      else match NewPayload(vault.id, vault.isPrivate, key.value, draw.id, name, text, draw.nonce1, draw.nonce2)
        case None => End(Failed)
        case Some(payload) => Go(Posting(call, start, draw.id, payload))
  }

  function AfterListRemove(
    call: Call, start: nat, read: nat, vault: Vault, key: Option<Key>, name: string, draw: Draw): Move
  {
    match Find(draw.records, name, vault.id, key)
    case Found(record) => Go(Deleting(call, start, read, record.id))
    case Missing => End(NotFound)
    case Broken => End(Failed)
  }

  function AfterListUpdate(
    call: Call, start: nat, read: nat, vault: Vault, key: Option<Key>, name: string, text: string, draw: Draw): Move
  {
    match Find(draw.records, name, vault.id, key)
    case Missing => End(NotFound)
    case Broken => End(Failed)
    case Found(record) =>
      if key.None? then End(Failed)
      else match Reseal(vault.id, vault.isPrivate, key.value, record, name, text, draw.nonce2)
        case None => End(Failed)
        case Some(payload) => Go(Putting(call, start, read, record.id, payload, record.recordVersion))
  }

  // ------------------------------------------------- the system and its past

  /** The vault at one moment; the epoch counts the restores so far. */
  datatype Moment = Moment(contents: map<string, string>, password: string, epoch: nat)

  /**
   A finished call. It began at moment start, listed the rows (if it did) at moment read, and took effect,
   or saw what it reports, at moment point; its last request was served at moment finish.
   */
  datatype Completed = Completed(
    client: nat, call: Call, outcome: Outcome, start: nat, read: nat, point: nat, finish: nat, seen: nat)

  /** Besides server and clients: every id ever drawn, the name each posted id was given, and the history. */
  datatype System = System(
    d: Database, pcs: map<nat, Pc>, drawn: set<Uuid>, titles: map<Uuid, string>,
    hist: seq<Moment>, done: seq<Completed>)

  function PcOf(s: System, c: nat): Pc {
    if c in s.pcs then s.pcs[c] else Idle
  }

  function Last(hist: seq<Moment>): Moment
    requires hist != []
  {
    hist[|hist| - 1]
  }

  ghost function Picture(r: Realm, rows: map<Uuid, Secret>): map<string, string> {
    if m :| Represents(r, rows, m) then m else map[]
  }

  lemma PictureIs(r: Realm, rows: map<Uuid, Secret>, m: map<string, string>)
    requires Represents(r, rows, m)
    ensures Picture(r, rows) == m
  {
    RepresentsOneMap(r, rows, Picture(r, rows), m);
  }

  /** The map a backup file holds. */
  ghost function FilePicture(r: Realm, file: BackupFile): map<string, string> {
    Picture(r, RowsOfRecords(r.vaultId, RecordsOf(file)))
  }

  // -------------------------------------- the sequential map the vault should be

  predicate Writes(c: Completed) {
    c.outcome.Stored? || c.outcome.Rekeyed? || c.outcome.Imported?
  }

  ghost function Effect(r: Realm, m: Moment, c: Completed): Moment {
    match c.outcome
    case Stored =>
      (match c.call.op
       case Add(name, text) => m.(contents := m.contents[name := text])
       case Update(name, text) => m.(contents := m.contents[name := text])
       case Remove(name) => m.(contents := m.contents - {name})
       case _ => m)
    case Rekeyed => if c.call.op.Rotate? then m.(password := c.call.op.newPassword) else m
    case Imported =>
      if c.call.op.Import?
      then Moment(FilePicture(r, c.call.op.file), PasswordOf(c.call.op.file), m.epoch + 1)
      else m
    case _ => m
  }

  predicate AcceptableName(r: Realm, name: string) {
    r.isPrivate || 1 <= |name| <= 255
  }

  /** Calls the client refuses by itself: an empty name at the prompt, and removal from a private vault with no key. */
  predicate RefusesLocally(r: Realm, call: Call) {
    || (call.op.Add? && call.op.name == "" && call.auth.Password?)
    || (call.op.Remove? && r.isPrivate && call.auth.Anonymous?)
  }

  /**
   The outcome is the one the map gives to this call at moment m. Rows are no part of the map, so it cannot say
   when a PUT or DELETE finds its row replaced: a conflict is open, and so is "not found" after a restore.
   */
  ghost predicate Accepts(r: Realm, m: Moment, c: Completed) {
    var op, auth := c.call.op, c.call.auth;
    if RefusesLocally(r, c.call) then c.outcome.RefusedLocally?
    else match c.outcome
    case Stored =>
      (match op
       case Add(name, _) => name !in m.contents && AcceptableName(r, name)
       case Update(name, _) => name in m.contents
       case Remove(name) => name in m.contents
       case _ => false)
    case Value(text) => op.Get? && op.name in m.contents && m.contents[op.name] == text
    case Names(names) => op.List? && Lists(names, m.contents)
    case Opened(key) => op.Open? && key == r.key && auth == Password(m.password)
    case Saved(file) =>
      op.Export? && |m.contents| <= 10000 && FilePicture(r, file) == m.contents && auth == Password(PasswordOf(file))
    case Rekeyed => op.Rotate?
    case Imported => op.Import? && op.replace && auth == Password(PasswordOf(op.file))
    case NotFound => (op.Get? || op.Update? || op.Remove?) && op.name !in m.contents
    case AlreadyExists => op.Add? && op.name in m.contents
    case Rejected => op.Add? && !AcceptableName(r, op.name)
    case BadPassword =>
      auth.Password? && !op.Initialize? && auth.password != if op.Import? then PasswordOf(op.file) else m.password
    case Conflict => op.Update? && op.name in m.contents
    case Vanished => (op.Update? || op.Remove?) && (op.name !in m.contents || c.seen != m.epoch)
    case RefusedLocally => false
    case VaultPresent => op.Initialize? || (op.Import? && !op.replace && auth == Password(PasswordOf(op.file)))
    case TooLarge => op.Export? && |m.contents| > 10000
    case Failed => false
  }

  /** Replaying the calls one after another on a map gives every call its outcome and ends in that moment. */
  ghost predicate Replays(r: Realm, m: Moment, log: seq<Completed>, end: Moment)
    decreases log
  {
    if log == [] then m == end
    else Accepts(r, m, log[0]) && Replays(r, Effect(r, m, log[0]), log[1..], end)
  }

  // ------------------------------------------------------------------ steps

  function Progress(s: System, c: nat, d: Database, moment: Moment, pc: Pc): System {
    System(d, s.pcs[c := pc], s.drawn, s.titles, s.hist + [moment], s.done)
  }

  function Complete(
    s: System, c: nat, call: Call, start: nat, read: nat, point: nat, outcome: Outcome, d: Database, moment: Moment)
    : System
    requires s.hist != [] && read < |s.hist|
  {
    var finish := |s.hist| - 1;
    Progress(s, c, d, moment, Idle).(
      done := s.done + [Completed(c, call, outcome, start, read, point, finish, s.hist[read].epoch)])
  }

  /** A call that ends here and changes nothing. */
  function Report(s: System, c: nat, call: Call, start: nat, outcome: Outcome): System
    requires s.hist != []
  {
    Complete(s, c, call, start, |s.hist| - 1, |s.hist| - 1, outcome, s.d, Last(s.hist))
  }

  function Take(s: System, c: nat, call: Call, start: nat, move: Move): System
    requires s.hist != []
  {
    match move
    case Go(pc) => Progress(s, c, s.d, Last(s.hist), pc).(drawn := if pc.Posting? then s.drawn + {pc.id} else s.drawn)
    case End(outcome) => Report(s, c, call, start, outcome)
  }

  /** A moment since read at which the name was absent, or the present one if there was none. */
  ghost function AbsentMoment(hist: seq<Moment>, read: nat, name: string): (i: nat)
    requires read < |hist|
    ensures read <= i < |hist|
  {
    if i :| read <= i < |hist| && name !in hist[i].contents then i else |hist| - 1
  }

  ghost function StepImport(r: Realm, s: System, c: nat, call: Call, start: nat): System
    requires s.hist != [] && call.op.Import? && call.auth.Password?
  {
    match ReadFile(call.op.file, r.user, call.auth.password, call.op.replace)
    case WrongPassword => Report(s, c, call, start, BadPassword)
    case Unacceptable => Report(s, c, call, start, Failed)
    case Ready(backup) =>
      var (d, status) := Restore(s.d, r.user, backup);
      if status.Done? then
        var now := Last(s.hist);
        var moment := Moment(FilePicture(r, call.op.file), PasswordOf(call.op.file), now.epoch + 1);
        Complete(s, c, call, start, |s.hist| - 1, |s.hist| - 1, Imported, d, moment)
      else Report(s, c, call, start, if status == VAULT_NOT_EMPTY then VaultPresent else Failed)
  }

  function StepInitialize(r: Realm, s: System, c: nat, call: Call, start: nat, draw: Draw): System
    requires s.hist != [] && call.op.Initialize? && call.auth.Password?
  {
    match Wrap(VaultKey(draw.serial), r.user, call.auth.password, draw.kdf, draw.nonce1)
    case None => Report(s, c, call, start, Failed)
    case Some(wrapped) =>
      var (d, status) := CreateVault(s.d, r.user, draw.id, wrapped, call.op.isPrivate);
      var outcome := if status == VAULT_EXISTS then VaultPresent else Failed;
      Complete(s, c, call, start, |s.hist| - 1, |s.hist| - 1, outcome, d, Last(s.hist))
  }

  ghost function StepCalled(r: Realm, s: System, c: nat, call: Call, start: nat, draw: Draw): System
    requires s.hist != [] && WellFormed(call)
  {
    if call.op.Add? && call.op.name == "" && call.auth.Password? then Report(s, c, call, start, RefusedLocally)
    else if call.op.Import? then StepImport(r, s, c, call, start)
    else if call.op.Initialize? then StepInitialize(r, s, c, call, start, draw)
    else if r.user !in s.d.vaults then Report(s, c, call, start, Failed)
    else Take(s, c, call, start, AfterVault(r, call, start, s.d.vaults[r.user], draw))
  }

  function StepPosting(r: Realm, s: System, c: nat, pc: Pc): System
    requires s.hist != [] && pc.Posting? && pc.call.op.Add?
  {
    var now, op := Last(s.hist), pc.call.op;
    var (d, status) := CreateSecret(s.d, r.user, pc.id, pc.payload);
    if status.Done? then
      Complete(s, c, pc.call, pc.start, |s.hist| - 1, |s.hist| - 1, Stored, d,
               now.(contents := now.contents[op.name := op.text])).(titles := s.titles[pc.id := op.name])
    else Report(s, c, pc.call, pc.start,
                if status == NAME_EXISTS then AlreadyExists else if status == VALIDATION then Rejected else Failed)
  }

  ghost function StepPutting(r: Realm, s: System, c: nat, pc: Pc): System
    requires pc.Putting? && pc.call.op.Update? && pc.read < |s.hist|
  {
    var now, op, end := Last(s.hist), pc.call.op, |s.hist| - 1;
    var (d, status) := UpdateSecret(s.d, r.user, pc.id, pc.payload, pc.version);
    if status.Done? then
      Complete(s, c, pc.call, pc.start, pc.read, end, Stored, d, now.(contents := now.contents[op.name := op.text]))
    else if status == NO_SECRET then
      Complete(s, c, pc.call, pc.start, pc.read, AbsentMoment(s.hist, pc.read, op.name), Vanished, s.d, now)
    else
      Complete(s, c, pc.call, pc.start, pc.read, end, if status == VERSION_CONFLICT then Conflict else Failed, s.d, now)
  }

  ghost function StepDeleting(r: Realm, s: System, c: nat, pc: Pc): System
    requires pc.Deleting? && pc.call.op.Remove? && pc.read < |s.hist|
  {
    var now, op, end := Last(s.hist), pc.call.op, |s.hist| - 1;
    var (d, status) := RemoveSecret(s.d, r.user, pc.id);
    if status.Done? then
      Complete(s, c, pc.call, pc.start, pc.read, end, Stored, d, now.(contents := now.contents - {op.name}))
    else
      Complete(s, c, pc.call, pc.start, pc.read, AbsentMoment(s.hist, pc.read, op.name), Vanished, s.d, now)
  }

  function StepRewrapping(r: Realm, s: System, c: nat, pc: Pc): System
    requires s.hist != [] && pc.Rewrapping? && pc.call.op.Rotate?
  {
    var (d, status) := UpdateVaultKey(s.d, r.user, pc.wrapped);
    if status.Done? then
      Complete(s, c, pc.call, pc.start, |s.hist| - 1, |s.hist| - 1, Rekeyed, d,
               Last(s.hist).(password := pc.call.op.newPassword))
    else Report(s, c, pc.call, pc.start, Failed)
  }

  /** The operation a program counter belongs to. */
  predicate Consistent(s: System, pc: Pc) {
    match pc
    case Idle => true
    case Called(call, _) => WellFormed(call)
    case KnowsVault(_, _, _, _) => true
    case Rewrapping(call, _, _) => call.op.Rotate?
    case Posting(call, _, _, _) => call.op.Add?
    case Putting(call, _, read, _, _, _) => call.op.Update? && read < |s.hist|
    case Deleting(call, _, read, _) => call.op.Remove? && read < |s.hist|
  }

  /** Client c sends its next request and computes on with the answer. */
  ghost function Step(r: Realm, s: System, c: nat, draw: Draw): System
    requires s.hist != [] && Consistent(s, PcOf(s, c))
  {
    match PcOf(s, c)
    case Idle => s
    case Called(call, start) => StepCalled(r, s, c, call, start, draw)
    case KnowsVault(call, start, vault, key) =>
      Take(s, c, call, start, AfterList(r.user, call, start, |s.hist| - 1, vault, key, draw))
    case Rewrapping(_, _, _) => StepRewrapping(r, s, c, PcOf(s, c))
    case Posting(_, _, _, _) => StepPosting(r, s, c, PcOf(s, c))
    case Putting(_, _, _, _, _, _) => StepPutting(r, s, c, PcOf(s, c))
    case Deleting(_, _, _, _) => StepDeleting(r, s, c, PcOf(s, c))
  }

  /** A call begins; a client proceeds; a client gives up or dies; another user sends any request. */
  datatype Action =
    | Begin(client: nat, call: Call)
    | Proceed(client: nat, draw: Draw)
    | Abandon(client: nat)
    | Foreign(user: Uuid, request: Request)

  ghost predicate Exported(s: System, file: BackupFile) {
    exists j | 0 <= j < |s.done| :: s.done[j].outcome == Saved(file)
  }

  ghost predicate Enabled(r: Realm, s: System, a: Action) {
    match a
    case Begin(c, call) =>
      PcOf(s, c).Idle? && WellFormed(call) && (call.op.Import? ==> Exported(s, call.op.file))
    case Proceed(c, draw) =>
      && !PcOf(s, c).Idle? && Consistent(s, PcOf(s, c))
      && draw.id !in s.drawn && draw.id !in s.d.secrets && FreshKdf(draw.kdf)
      && Listing(RowsOf(s.d, r.user), draw.records)
    case Abandon(_) => true
    case Foreign(user, request) => user != r.user && forall id | id in s.drawn :: !Mentions(request, id)
  }

  ghost function Next(r: Realm, s: System, a: Action): System
    requires s.hist != [] && Enabled(r, s, a)
  {
    match a
    case Begin(c, call) => Progress(s, c, s.d, Last(s.hist), Called(call, |s.hist| - 1))
    case Proceed(c, draw) => Step(r, s, c, draw)
    case Abandon(c) => Progress(s, c, s.d, Last(s.hist), Idle)
    case Foreign(user, request) => s.(d := Handle(s.d, user, request).0, hist := s.hist + [Last(s.hist)])
  }
}
