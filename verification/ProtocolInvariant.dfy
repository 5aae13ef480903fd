/**
 What every reachable state of the protocol satisfies, and how the step of one client can disturb
 what the others rely on.
 */
module ProtocolInvariant {
  import opened Wrappers
  import opened Crypto
  import opened Store
  import opened Client
  import opened BackupFiles
  import opened Protocol

  function Rows(r: Realm, s: System): map<Uuid, Secret> {
    RowsOf(s.d, r.user)
  }

  // ------------------------------------------------------------ the vault now

  ghost predicate VaultOk(r: Realm, d: Database, password: string) {
    && r.user in d.vaults && d.vaults[r.user].id == r.vaultId && d.vaults[r.user].isPrivate == r.isPrivate
    && WrapsUnder(r, d.vaults[r.user].wrapped, password)
  }

  /** Rows keep the name their id was posted with. */
  ghost predicate Bound(r: Realm, rows: map<Uuid, Secret>, titles: map<Uuid, string>) {
    forall id | id in rows :: id in titles && Titled(r, rows, id, titles[id])
  }

  /** No other user holds an id our clients drew. */
  ghost predicate Reserved(r: Realm, d: Database, drawn: set<Uuid>) {
    forall id | id in drawn && id in d.secrets :: Owns(d, r.user, id)
  }

  ghost predicate Core(r: Realm, s: System) {
    && s.hist != [] && WellKeyed(r) && Valid(s.d)
    && VaultOk(r, s.d, Last(s.hist).password)
    && Represents(r, Rows(r, s), Last(s.hist).contents)
    && Bound(r, Rows(r, s), s.titles)
    && s.titles.Keys <= s.drawn
    && Reserved(r, s.d, s.drawn)
  }

  // ----------------------------------------------------------- exported files

  ghost predicate RecordOk(r: Realm, titles: map<Uuid, string>, record: Record) {
    && ValidPayload(record.payload) && record.recordVersion >= 1 && record.payload.encryptedName.Some? == r.isPrivate
    && record.id in titles && TitleOf(r, record.id, record.payload) == Some(titles[record.id])
  }

  ghost predicate RecordsOk(r: Realm, titles: map<Uuid, string>, records: seq<Record>) {
    && |records| <= MAX_RECORDS && Distinct(records)
    && (forall i | 0 <= i < |records| :: RecordOk(r, titles, records[i]))
    && Represents(r, RowsOfRecords(r.vaultId, records), Picture(r, RowsOfRecords(r.vaultId, records)))
  }

  ghost predicate FileOk(r: Realm, titles: map<Uuid, string>, file: BackupFile) {
    && RecordsOk(r, titles, RecordsOf(file))
    && WrapsUnder(r, file.wrapped, PasswordOf(file))
    && forall password, replace ::
         ReadFile(file, r.user, password, replace)
         == if password == PasswordOf(file)
            then Ready(Backup(1, r.user, replace, r.vaultId, file.wrapped, r.isPrivate, RecordsOf(file)))
            else WrongPassword
  }

  ghost predicate FilesOk(r: Realm, titles: map<Uuid, string>, done: seq<Completed>) {
    forall j | 0 <= j < |done| && done[j].outcome.Saved? :: FileOk(r, titles, done[j].outcome.file)
  }

  // -------------------------------------------------------------- the history

  ghost predicate Steady(hist: seq<Moment>, name: string, from: nat, to: nat)
    requires from <= to < |hist|
  {
    forall i | from <= i <= to ::
      name in hist[i].contents && name in hist[from].contents && hist[i].contents[name] == hist[from].contents[name]
  }

  predicate IsUpdateOf(c: Completed, name: string) {
    c.outcome.Stored? && c.call.op.Update? && c.call.op.name == name
  }

  ghost predicate Overwritten(done: seq<Completed>, name: string, from: nat, to: nat) {
    exists j | 0 <= j < |done| :: IsUpdateOf(done[j], name) && from <= done[j].finish < to
  }

  ghost predicate AbsentSince(hist: seq<Moment>, name: string, from: nat) {
    exists i | from <= i < |hist| :: name !in hist[i].contents
  }

  /** Some moment from start on had the password the call was given. */
  ghost predicate Entitled(hist: seq<Moment>, call: Call, start: nat) {
    call.auth.Password? && !call.op.Import? && !call.op.Initialize?
    ==> exists i | start <= i < |hist| :: hist[i].password == call.auth.password
  }

  predicate NeedsNoPassword(o: Outcome) {
    o.BadPassword? || o.RefusedLocally?
  }

  /** The call found a row of its name and went on to write it. */
  predicate FoundRow(c: Completed) {
    (c.call.op.Update? || c.call.op.Remove?) && (c.outcome.Stored? || c.outcome.Conflict? || c.outcome.Vanished?)
  }

  /** A finished call is accounted for by the moment it points to. */
  ghost predicate Justified(r: Realm, hist: seq<Moment>, c: Completed) {
    && c.start <= c.point <= c.finish && c.start <= c.read <= c.finish && c.finish + 1 < |hist|
    && c.seen == hist[c.read].epoch
    && Accepts(r, hist[c.point], c)
    && (Writes(c) ==> c.point == c.finish && hist[c.finish + 1] == Effect(r, hist[c.finish], c))
  }

  /**
   Beyond what the map alone says. A stored update saw the latest text: since it read, the name kept the
   text it read and no other update of it was stored. A conflict is never spurious: another update of that
   name was stored meanwhile. (Unless a restore replaced the rows meanwhile.) A call given a password had the
   right one at some moment. A call that found a row read it while its name was there.
   */
  ghost predicate Explained(hist: seq<Moment>, done: seq<Completed>, c: Completed)
    requires c.read <= c.finish < |hist|
  {
    var sameRows := hist[c.read].epoch == hist[c.finish].epoch;
    && (c.call.op.Update? && c.outcome.Stored? && sameRows ==>
          && Steady(hist, c.call.op.name, c.read, c.finish)
          && !Overwritten(done, c.call.op.name, c.read, c.finish))
    && (c.call.op.Update? && c.outcome.Conflict? && sameRows ==> Overwritten(done, c.call.op.name, c.read, c.finish))
    && (!NeedsNoPassword(c.outcome) ==> Entitled(hist[..c.finish + 1], c.call, c.start))
    && (FoundRow(c) ==> c.call.op.name in hist[c.read].contents)
    && (c.outcome.Vanished? ==> c.read <= c.point)
  }

  ghost predicate Sound(r: Realm, hist: seq<Moment>, done: seq<Completed>, c: Completed) {
    Justified(r, hist, c) && Explained(hist, done, c)
  }

  ghost predicate WrittenAt(done: seq<Completed>, i: nat) {
    exists j | 0 <= j < |done| :: Writes(done[j]) && done[j].finish == i
  }

  ghost predicate HistoryOk(r: Realm, hist: seq<Moment>, done: seq<Completed>) {
    && (forall j | 0 <= j < |done| :: Sound(r, hist, done, done[j]))
    && (forall j, k | 0 <= j < k < |done| :: done[j].finish < done[k].finish)
    && (forall i | 0 <= i < |hist| - 1 :: hist[i + 1] == hist[i] || WrittenAt(done, i))
  }

  // ---------------------------------------------------------- program counters

  /** What an update still knows about the row it read, as long as no restore intervened. */
  ghost predicate Tracked(r: Realm, s: System, id: Uuid, name: string, version: nat, read: nat)
    requires read < |s.hist|
  {
    var rows := Rows(r, s);
    && (id !in rows ==> AbsentSince(s.hist, name, read))
    && (id in rows ==>
          && version <= rows[id].recordVersion
          && (version == rows[id].recordVersion ==>
                Steady(s.hist, name, read, |s.hist| - 1) && !Overwritten(s.done, name, read, |s.hist| - 1))
          && (version < rows[id].recordVersion ==> Overwritten(s.done, name, read, |s.hist| - 1)))
  }

  ghost predicate SinceRead(s: System, start: nat, read: nat) {
    start <= read < |s.hist| && s.hist[read].epoch <= s.hist[|s.hist| - 1].epoch
  }

  predicate SameRowsSince(s: System, read: nat)
    requires read < |s.hist|
  {
    s.hist[read].epoch == s.hist[|s.hist| - 1].epoch
  }

  ghost predicate KeyOk(r: Realm, call: Call, vault: Vault, key: Option<Key>) {
    && vault.id == r.vaultId && vault.isPrivate == r.isPrivate
    && (if call.auth.Anonymous? then key == None && !r.isPrivate else key == Some(r.key))
    && (call.auth.Password? ==> WrapsUnder(r, vault.wrapped, call.auth.password))
  }

  predicate ListsRows(op: Op) {
    op.Add? || op.Get? || op.Update? || op.Remove? || op.List? || op.Export?
  }

  ghost predicate FreshId(s: System, id: Uuid) {
    id in s.drawn && id !in s.titles && id !in s.d.secrets
  }

  ghost predicate PutOk(r: Realm, s: System, pc: Pc)
    requires pc.Putting?
  {
    var op := pc.call.op;
    && op.Update? && SinceRead(s, pc.start, pc.read) && pc.version >= 1 && op.name in s.hist[pc.read].contents
    && pc.id in s.titles && s.titles[pc.id] == op.name
    && Encodes(r, pc.id, pc.payload, op.name, op.text) && ValidPayload(pc.payload)
    && (SameRowsSince(s, pc.read) ==> Tracked(r, s, pc.id, op.name, pc.version, pc.read))
  }

  ghost predicate DeleteOk(r: Realm, s: System, pc: Pc)
    requires pc.Deleting?
  {
    var op := pc.call.op;
    && op.Remove? && SinceRead(s, pc.start, pc.read) && op.name in s.hist[pc.read].contents
    && pc.id in s.titles && s.titles[pc.id] == op.name
    && (SameRowsSince(s, pc.read) ==> pc.id in Rows(r, s) || AbsentSince(s.hist, op.name, pc.read))
  }

  ghost predicate PostOk(r: Realm, s: System, pc: Pc)
    requires pc.Posting?
  {
    var op := pc.call.op;
    && op.Add? && FreshId(s, pc.id) && Encodes(r, pc.id, pc.payload, op.name, op.text)
    && (ValidPayload(pc.payload) <==> AcceptableName(r, op.name))
  }

  ghost predicate PcOk(r: Realm, s: System, pc: Pc) {
    && (!pc.Idle? ==> pc.start < |s.hist| && WellFormed(pc.call))
    && (!pc.Idle? && !pc.Called? ==> Entitled(s.hist, pc.call, pc.start) && !RefusesLocally(r, pc.call))
    && (match pc
        case Idle => true
        case Called(call, _) => call.op.Import? ==> Exported(s, call.op.file)
        case KnowsVault(call, _, vault, key) => ListsRows(call.op) && KeyOk(r, call, vault, key)
        case Rewrapping(call, _, wrapped) => call.op.Rotate? && WrapsUnder(r, wrapped, call.op.newPassword)
        case Posting(_, _, _, _) => PostOk(r, s, pc)
        case Putting(_, _, _, _, _, _) => PutOk(r, s, pc)
        case Deleting(_, _, _, _) => DeleteOk(r, s, pc))
  }

  ghost predicate PostingsApart(s: System) {
    forall a, b | a in s.pcs && b in s.pcs && a != b && s.pcs[a].Posting? && s.pcs[b].Posting? ::
      s.pcs[a].id != s.pcs[b].id
  }

  ghost predicate Inv(r: Realm, s: System) {
    && Core(r, s) && FilesOk(r, s.titles, s.done) && HistoryOk(r, s.hist, s.done)
    && (forall c | c in s.pcs :: PcOk(r, s, s.pcs[c]))
    && PostingsApart(s)
  }

  /** The parts of the invariant a step of client c starts from. */
  lemma InvParts(r: Realm, s: System, c: nat)
    requires Inv(r, s)
    ensures Core(r, s) && s.hist != [] && WellKeyed(r) && Represents(r, Rows(r, s), Last(s.hist).contents)
    ensures VaultOk(r, s.d, Last(s.hist).password)
    ensures PcOk(r, s, PcOf(s, c)) && FilesOk(r, s.titles, s.done) && HistoryOk(r, s.hist, s.done)
    ensures forall k | k in s.pcs && k != c && s.pcs[k].Posting? && PcOf(s, c).Posting? :: s.pcs[k].id != PcOf(s, c).id
  {
  }

  /** A row's name is the one its id was posted with, and it is in the map. */
  lemma RowIsNamed(r: Realm, s: System, id: Uuid)
    requires Core(r, s) && id in Rows(r, s)
    ensures id in s.titles && Titled(r, Rows(r, s), id, s.titles[id]) && s.titles[id] in Last(s.hist).contents
    ensures id in s.d.secrets && s.d.secrets[id] == Rows(r, s)[id] && ValidPayload(Rows(r, s)[id].payload)
    ensures Rows(r, s)[id].recordVersion >= 1 && Rows(r, s)[id].vaultId == r.vaultId
    ensures Rows(r, s)[id].payload.encryptedName.Some? == r.isPrivate
  {
    assert Shows(r, id, Rows(r, s)[id].payload, Last(s.hist).contents);
  }

  lemma RowsAreApart(r: Realm, s: System, i: Uuid, j: Uuid)
    requires Core(r, s) && i in Rows(r, s) && j in Rows(r, s) && i != j
    ensures i in s.titles && j in s.titles && s.titles[i] != s.titles[j]
  {
    assert Titled(r, Rows(r, s), i, s.titles[i]) && Titled(r, Rows(r, s), j, s.titles[j]);
  }

  // ------------------------------------------------------- what others rely on

  ghost predicate SameText(a: Moment, b: Moment, name: string) {
    name in a.contents && name in b.contents && a.contents[name] == b.contents[name]
  }

  /** The step stored an update of that name. */
  ghost predicate UpdatedNow(s: System, t: System, name: string) {
    s.hist != [] && Overwritten(t.done, name, |s.hist| - 1, |s.hist|)
  }

  /** How one step may change a row: it keeps its text, is updated and its version grows, or goes with its name. */
  ghost predicate RowRely(r: Realm, s: System, t: System, id: Uuid)
    requires s.hist != [] && t.hist != [] && id in s.titles
  {
    var before, after, name := Rows(r, s), Rows(r, t), s.titles[id];
    && (id !in before ==> id !in after)
    && (id in before && id !in after ==> name !in Last(t.hist).contents)
    && (id in before && id in after ==>
          && before[id].recordVersion <= after[id].recordVersion
          && (before[id].recordVersion == after[id].recordVersion ==>
                SameText(Last(s.hist), Last(t.hist), name) && !UpdatedNow(s, t, name))
          && (before[id].recordVersion < after[id].recordVersion ==>
                UpdatedNow(s, t, name)))
  }

  ghost predicate Grows(s: System, t: System) {
    && s.hist != [] && |t.hist| == |s.hist| + 1 && t.hist[..|s.hist|] == s.hist
    && |s.done| <= |t.done| && t.done[..|s.done|] == s.done
    && (forall j | |s.done| <= j < |t.done| :: t.done[j].finish == |s.hist| - 1)
    && (forall id | id in s.titles :: id in t.titles && t.titles[id] == s.titles[id])
    && s.drawn <= t.drawn
  }

  /** The step from s to t, seen by a client that does not own the ids in mine. */
  ghost predicate Rely(r: Realm, s: System, t: System, mine: set<Uuid>) {
    && Grows(s, t)
    && Last(s.hist).epoch <= Last(t.hist).epoch
    && (Last(s.hist).epoch == Last(t.hist).epoch ==> forall id | id in s.titles :: RowRely(r, s, t, id))
    && (forall id | FreshId(s, id) && id !in mine :: FreshId(t, id))
  }

  lemma AbsentStays(hist: seq<Moment>, longer: seq<Moment>, name: string, from: nat)
    requires |hist| <= |longer| && longer[..|hist|] == hist && AbsentSince(hist, name, from)
    ensures AbsentSince(longer, name, from)
  {
    var i :| from <= i < |hist| && name !in hist[i].contents;
    assert longer[i] == hist[i];
  }

  lemma EntitledStays(hist: seq<Moment>, longer: seq<Moment>, call: Call, start: nat)
    requires |hist| <= |longer| && longer[..|hist|] == hist && Entitled(hist, call, start)
    ensures Entitled(longer, call, start)
  {
    if call.auth.Password? && !call.op.Import? && !call.op.Initialize? {
      var i :| start <= i < |hist| && hist[i].password == call.auth.password;
      assert longer[i] == hist[i];
    }
  }

  lemma OverwrittenStays(done: seq<Completed>, longer: seq<Completed>, name: string, from: nat, to: nat, to': nat)
    requires |done| <= |longer| && longer[..|done|] == done && to <= to' && Overwritten(done, name, from, to)
    ensures Overwritten(longer, name, from, to')
  {
    var j :| 0 <= j < |done| && IsUpdateOf(done[j], name) && from <= done[j].finish < to;
    assert longer[j] == done[j];
  }

  lemma OverwrittenWidens(done: seq<Completed>, name: string, from: nat, from': nat, to: nat)
    requires from <= from' && Overwritten(done, name, from', to)
    ensures Overwritten(done, name, from, to)
  {
    var j :| 0 <= j < |done| && IsUpdateOf(done[j], name) && from' <= done[j].finish < to;
  }

  lemma NotOverwrittenGrows(s: System, t: System, name: string, from: nat)
    requires Grows(s, t) && !Overwritten(s.done, name, from, |s.hist| - 1) && !UpdatedNow(s, t, name)
    ensures !Overwritten(t.done, name, from, |t.hist| - 1)
  {
    forall j | 0 <= j < |t.done| && IsUpdateOf(t.done[j], name)
      ensures !(from <= t.done[j].finish < |t.hist| - 1)
    {
      if j < |s.done| { assert t.done[j] == s.done[j]; }
    }
  }

  lemma SteadyGrows(hist: seq<Moment>, longer: seq<Moment>, name: string, from: nat)
    requires from < |hist| && |longer| == |hist| + 1 && longer[..|hist|] == hist
    requires Steady(hist, name, from, |hist| - 1) && SameText(Last(hist), Last(longer), name)
    ensures Steady(longer, name, from, |longer| - 1)
  {
    forall i | from <= i <= |longer| - 1
      ensures name in longer[i].contents && longer[i].contents[name] == hist[from].contents[name]
    {
      assert name in hist[|hist| - 1].contents;
      if i < |hist| { assert longer[i] == hist[i]; }
    }
    assert longer[from] == hist[from];
  }

  /** Tracking survives any step of the others. */
  lemma TrackedStays(r: Realm, s: System, t: System, id: Uuid, name: string, version: nat, read: nat)
    requires Grows(s, t) && read < |s.hist| && id in s.titles && s.titles[id] == name
    requires RowRely(r, s, t, id) && Tracked(r, s, id, name, version, read)
    ensures Tracked(r, t, id, name, version, read)
  {
    var before, after := Rows(r, s), Rows(r, t);
    if id !in before {
      AbsentStays(s.hist, t.hist, name, read);
    } else if id !in after {
      assert name !in t.hist[|t.hist| - 1].contents;
    } else if version < before[id].recordVersion {
      OverwrittenStays(s.done, t.done, name, read, |s.hist| - 1, |t.hist| - 1);
    } else if before[id].recordVersion < after[id].recordVersion {
      OverwrittenWidens(t.done, name, read, |s.hist| - 1, |s.hist|);
    } else {
      SteadyGrows(s.hist, t.hist, name, read);
      NotOverwrittenGrows(s, t, name, read);
    }
  }

  lemma ReadStays(s: System, t: System, start: nat, read: nat)
    requires Grows(s, t) && Last(s.hist).epoch <= Last(t.hist).epoch && SinceRead(s, start, read)
    ensures SinceRead(t, start, read) && t.hist[read] == s.hist[read]
    ensures SameRowsSince(t, read) ==> SameRowsSince(s, read) && Last(s.hist).epoch == Last(t.hist).epoch
  {
  }

  lemma ExportedStays(s: System, t: System, file: BackupFile)
    requires Grows(s, t) && Exported(s, file)
    ensures Exported(t, file)
  {
    var j :| 0 <= j < |s.done| && s.done[j].outcome == Saved(file);
    assert t.done[j] == s.done[j];
  }

  /** Whatever one client does, the others' knowledge stays true. */
  lemma OthersKeep(r: Realm, s: System, t: System, mine: set<Uuid>, pc: Pc)
    requires Rely(r, s, t, mine) && PcOk(r, s, pc) && (pc.Posting? ==> pc.id !in mine)
    ensures PcOk(r, t, pc)
  {
    if !pc.Idle? && !pc.Called? { EntitledStays(s.hist, t.hist, pc.call, pc.start); }
    match pc
    case Idle =>
    case Called(call, _) => if call.op.Import? { ExportedStays(s, t, call.op.file); }
    case KnowsVault(_, _, _, _) =>
    case Rewrapping(_, _, _) =>
    case Posting(_, _, _, _) =>
    case Putting(call, start, read, id, payload, version) =>
      ReadStays(s, t, start, read);
      if SameRowsSince(t, read) { TrackedStays(r, s, t, id, call.op.name, version, read); }
    case Deleting(call, start, read, id) =>
      ReadStays(s, t, start, read);
      if SameRowsSince(t, read) {
        assert RowRely(r, s, t, id);
        DeleteStays(r, s, t, pc);
      }
  }

  lemma DeleteStays(r: Realm, s: System, t: System, pc: Pc)
    requires pc.Deleting? && Grows(s, t) && DeleteOk(r, s, pc) && SameRowsSince(s, pc.read) && RowRely(r, s, t, pc.id)
    ensures pc.id in Rows(r, t) || AbsentSince(t.hist, pc.call.op.name, pc.read)
  {
    if pc.id !in Rows(r, s) {
      AbsentStays(s.hist, t.hist, pc.call.op.name, pc.read);
    } else if pc.id !in Rows(r, t) {
      assert pc.call.op.name !in t.hist[|t.hist| - 1].contents;
    }
  }

  // ---------------------------------------------------- growing the history

  lemma SoundStays(
    r: Realm, hist: seq<Moment>, done: seq<Completed>, moment: Moment, more: seq<Completed>, c: Completed)
    requires Sound(r, hist, done, c) && forall e | e in more :: e.finish >= |hist| - 1
    ensures Sound(r, hist + [moment], done + more, c)
  {
    var longer := hist + [moment];
    assert longer[..|hist|] == hist && (done + more)[..|done|] == done;
    assert longer[c.point] == hist[c.point] && longer[c.read] == hist[c.read];
    assert longer[c.finish] == hist[c.finish] && longer[c.finish + 1] == hist[c.finish + 1];
    ExplainedStays(hist, longer, done, done + more, c);
  }

  lemma ExplainedStays(hist: seq<Moment>, longer: seq<Moment>, done: seq<Completed>, more: seq<Completed>, c: Completed)
    requires |hist| <= |longer| && longer[..|hist|] == hist && |done| <= |more| && more[..|done|] == done
    requires c.read <= c.finish < |hist| && Explained(hist, done, c)
    requires forall j | |done| <= j < |more| :: more[j].finish >= c.finish
    ensures Explained(longer, more, c)
  {
    if c.call.op.Update? && Overwritten(more, c.call.op.name, c.read, c.finish) {
      var j :| 0 <= j < |more| && IsUpdateOf(more[j], c.call.op.name) && c.read <= more[j].finish < c.finish;
      assert more[j] == done[j];
    }
    assert forall i | 0 <= i < |hist| :: longer[i] == hist[i];
    assert longer[..c.finish + 1] == hist[..c.finish + 1];
    if c.call.op.Update? && c.outcome.Conflict? && hist[c.read].epoch == hist[c.finish].epoch {
      OverwrittenStays(done, more, c.call.op.name, c.read, c.finish, c.finish);
    }
  }

  /** A step in which no call ends. */
  lemma QuietHistory(r: Realm, hist: seq<Moment>, done: seq<Completed>)
    requires hist != [] && HistoryOk(r, hist, done)
    ensures HistoryOk(r, hist + [Last(hist)], done)
  {
    var longer := hist + [Last(hist)];
    assert done + [] == done;
    forall j | 0 <= j < |done| ensures Sound(r, longer, done, done[j]) {
      SoundStays(r, hist, done, Last(hist), [], done[j]);
    }
  }

  /** A step in which one call ends. */
  lemma EndingHistory(r: Realm, hist: seq<Moment>, done: seq<Completed>, moment: Moment, c: Completed)
    requires hist != [] && HistoryOk(r, hist, done) && c.finish == |hist| - 1
    requires Sound(r, hist + [moment], done, c) && (moment == Last(hist) || Writes(c))
    ensures HistoryOk(r, hist + [moment], done + [c])
  {
    var longer, more := hist + [moment], done + [c];
    forall j | 0 <= j < |more| ensures Sound(r, longer, more, more[j]) {
      if j < |done| {
        SoundStays(r, hist, done, moment, [c], done[j]);
        assert more[j] == done[j];
      } else {
        assert more[..|done|] == done;
        ExplainedStays(longer, longer, done, more, c);
      }
    }
    forall i | 0 <= i < |longer| - 1 ensures longer[i + 1] == longer[i] || WrittenAt(more, i) {
      if i < |hist| - 1 {
        assert hist[i + 1] == hist[i] || WrittenAt(done, i);
        if hist[i + 1] != hist[i] {
          var j :| 0 <= j < |done| && Writes(done[j]) && done[j].finish == i;
          assert more[j] == done[j];
        }
      } else if Writes(c) {
        assert more[|done|] == c;
      }
    }
  }

  lemma PastHasEnded(r: Realm, s: System)
    requires s.hist != [] && HistoryOk(r, s.hist, s.done)
    ensures forall name :: !UpdatedNow(s, s, name)
  {
    forall j | 0 <= j < |s.done| ensures s.done[j].finish < |s.hist| - 1 {
      assert Sound(r, s.hist, s.done, s.done[j]);
    }
  }

  /** The call that ends now is the only one that can have updated a name now. */
  lemma UpdatedByTheLast(r: Realm, s: System, t: System, e: Completed)
    requires s.hist != [] && HistoryOk(r, s.hist, s.done) && t.done == s.done + [e] && e.finish == |s.hist| - 1
    ensures forall name :: UpdatedNow(s, t, name) <==> IsUpdateOf(e, name)
  {
    PastHasEnded(r, s);
    hide HistoryOk;
    forall name ensures UpdatedNow(s, t, name) <==> IsUpdateOf(e, name) {
      if UpdatedNow(s, t, name) {
        var j :| 0 <= j < |t.done| && IsUpdateOf(t.done[j], name) && |s.hist| - 1 <= t.done[j].finish < |s.hist|;
        if j < |s.done| { assert s.done[j] == t.done[j]; }
      } else {
        assert t.done[|s.done|] == e;
      }
    }
  }

  lemma FileStays(r: Realm, titles: map<Uuid, string>, more: map<Uuid, string>, file: BackupFile)
    requires FileOk(r, titles, file) && forall id | id in titles :: id in more && more[id] == titles[id]
    ensures FileOk(r, more, file)
  {
    forall i | 0 <= i < |RecordsOf(file)| ensures RecordOk(r, more, RecordsOf(file)[i]) {
      assert RecordOk(r, titles, RecordsOf(file)[i]);
    }
  }

  lemma FilesStay(r: Realm, s: System, t: System)
    requires Grows(s, t) && FilesOk(r, s.titles, s.done)
    requires forall j | |s.done| <= j < |t.done| && t.done[j].outcome.Saved? ::
      FileOk(r, t.titles, t.done[j].outcome.file)
    ensures FilesOk(r, t.titles, t.done)
  {
    forall j | 0 <= j < |t.done| && t.done[j].outcome.Saved? ensures FileOk(r, t.titles, t.done[j].outcome.file) {
      if j < |s.done| {
        assert t.done[j] == s.done[j];
        FileStays(r, s.titles, t.titles, s.done[j].outcome.file);
      }
    }
  }

  // ----------------------------------------------------------- putting together

  lemma PostingIsDrawn(r: Realm, s: System, k: nat)
    requires Inv(r, s) && k in s.pcs && s.pcs[k].Posting?
    ensures s.pcs[k].id in s.drawn
  {
    assert PcOk(r, s, s.pcs[k]);
    hide Core, FilesOk, HistoryOk, PostingsApart;
  }

  /** A step of client c that does its own part and keeps the others' part keeps the invariant. */
  lemma StepKeepsInv(r: Realm, s: System, t: System, c: nat, pc: Pc, mine: set<Uuid>)
    requires Inv(r, s) && Core(r, t) && Rely(r, s, t, mine)
    requires t.pcs == s.pcs[c := pc] && PcOk(r, t, pc)
    requires HistoryOk(r, t.hist, t.done) && FilesOk(r, t.titles, t.done)
    requires forall k | k in s.pcs && k != c && s.pcs[k].Posting? :: s.pcs[k].id !in mine
    requires pc.Posting? ==> pc.id !in s.drawn
    ensures Inv(r, t)
  {
    hide Core, PcOk, Rely, FilesOk, HistoryOk;
    forall k | k in s.pcs && s.pcs[k].Posting? ensures s.pcs[k].id in s.drawn {
      PostingIsDrawn(r, s, k);
    }
    forall k | k in t.pcs ensures PcOk(r, t, t.pcs[k]) {
      if k != c { OthersKeep(r, s, t, mine, s.pcs[k]); }
    }
  }

  /** A step that touches neither the vault nor the map. */
  lemma QuietRely(r: Realm, s: System, t: System)
    requires s.hist != [] && forall name :: !UpdatedNow(s, t, name)
    requires Core(r, s) && Grows(s, t) && Rows(r, t) == Rows(r, s) && t.titles == s.titles
    requires Last(t.hist).contents == Last(s.hist).contents && Last(t.hist).epoch == Last(s.hist).epoch
    requires forall id | FreshId(s, id) :: id !in t.d.secrets
    ensures Rely(r, s, t, {})
  {
    forall id | id in s.titles ensures RowRely(r, s, t, id) {
      if id in Rows(r, s) {
        assert Titled(r, Rows(r, s), id, s.titles[id]);
        assert Shows(r, id, Rows(r, s)[id].payload, Last(s.hist).contents);
      }
    }
  }
}
