/**
 An import sets record versions back, so a version that was read before it can be reached again after it,
 over another text. This builds the run in which an update is lost that way.
 */
module Rewinds {
  import opened Wrappers
  import opened Crypto
  import opened Store
  import opened Client
  import opened BackupFiles
  import opened Protocol
  import opened ProtocolInvariant
  import opened ProtocolSteps
  import opened Linearizability
  import opened Guarantees
  import opened Backups

  // ------------------------------------------------------- putting runs together

  ghost predicate Reach(r: Realm, s: System, t: System) {
    exists actions :: Allowed(r, s, actions) && Run(r, s, actions) == t
  }

  lemma {:induction false} RunsJoin(r: Realm, s: System, first: seq<Action>, second: seq<Action>)
    requires Allowed(r, s, first) && Allowed(r, Run(r, s, first), second)
    ensures Allowed(r, s, first + second) && Run(r, s, first + second) == Run(r, Run(r, s, first), second)
    decreases |first|
  {
    hide Next, Enabled;
    if first == [] {
      assert first + second == second;
    } else {
      RunsJoin(r, Next(r, s, first[0]), first[1..], second);
      assert (first + second)[1..] == first[1..] + second;
    }
  }

  lemma ReachOn(r: Realm, s: System, t: System, u: System)
    requires Reach(r, s, t) && Reach(r, t, u)
    ensures Reach(r, s, u)
  {
    hide Run, Allowed;
    var first :| Allowed(r, s, first) && Run(r, s, first) == t;
    var second :| Allowed(r, t, second) && Run(r, t, second) == u;
    RunsJoin(r, s, first, second);
  }

  lemma ReachNext(r: Realm, s: System, a: Action)
    requires s.hist != [] && Enabled(r, s, a)
    ensures Reach(r, s, Next(r, s, a))
  {
    hide Next, Enabled;
    assert Allowed(r, s, [a]) && Run(r, s, [a]) == Next(r, s, a) by {
      assert [a][1..] == [];
    }
  }

  // ---------------------------------------------------------- one step at a time

  /** A reachable state, and an id and key parameters nobody has used. */
  ghost predicate Calm(r: Realm, s: System, draw: Draw) {
    Inv(r, s) && s.hist != [] && draw.id !in s.drawn && draw.id !in s.d.secrets && FreshKdf(draw.kdf)
  }

  ghost predicate OthersSame(s: System, t: System, c: nat) {
    forall k | k != c :: PcOf(t, k) == PcOf(s, k)
  }

  /** Nothing but client c has moved. */
  ghost predicate OnlyMoved(s: System, t: System, c: nat) {
    && s.hist != [] && t.hist != [] && Last(t.hist) == Last(s.hist) && t.d == s.d && t.done == s.done
    && t.titles == s.titles && t.drawn == s.drawn && s.hist <= t.hist && OthersSame(s, t, c)
  }

  lemma Begins(r: Realm, s: System, c: nat, call: Call, draw: Draw) returns (t: System)
    requires Calm(r, s, draw) && PcOf(s, c).Idle? && WellFormed(call)
    requires call.op.Import? ==> Exported(s, call.op.file)
    ensures Reach(r, s, t) && Calm(r, t, draw) && OnlyMoved(s, t, c) && PcOf(t, c) == Called(call, |s.hist| - 1)
    ensures |t.hist| == |s.hist| + 1
  {
    hide Inv, Exported;
    t := Next(r, s, Begin(c, call));
    NextKeepsInv(r, s, Begin(c, call));
    ReachNext(r, s, Begin(c, call));
    hide Reach;
  }

  /** A call that a client with the key, or for an export with the password, can bring to the listing. */
  predicate Authorized(call: Call, password: string) {
    && (call.op.Add? || call.op.Update? || call.op.Remove? || call.op.Export?)
    && call.auth == if call.op.Export? then Password(password) else Holding
  }

  /** A client that holds the key, or gives the right password, learns the vault. */
  lemma LearnsVault(r: Realm, s: System, c: nat, draw: Draw) returns (t: System)
    requires Calm(r, s, draw) && PcOf(s, c).Called? && Authorized(PcOf(s, c).call, Last(s.hist).password)
    ensures Reach(r, s, t) && Calm(r, t, draw) && OnlyMoved(s, t, c)
    ensures PcOf(t, c).KnowsVault? && PcOf(t, c).call == PcOf(s, c).call
  {
    var records := ListingExists(Rows(r, s));
    var a := Proceed(c, draw.(records := records));
    hide Inv, Listing, Unlock, PcOk, Core, Represents, HistoryOk, FilesOk, WrapsUnder;
    InvParts(r, s, c);
    UnlocksExactly(r, s.d.vaults[r.user].wrapped, Last(s.hist).password, Last(s.hist).password);
    assert Consistent(s, PcOf(s, c)) by { CalledIsConsistent(r, s, PcOf(s, c)); }
    t := Next(r, s, a);
    NextKeepsInv(r, s, a);
    ReachNext(r, s, a);
    hide Reach;
  }

  lemma CalledIsConsistent(r: Realm, s: System, pc: Pc)
    requires PcOk(r, s, pc)
    ensures Consistent(s, pc)
  {
  }

  /** Client c is about to put name's row, read at the moment read, in the version it has now. */
  ghost predicate AboutToPut(r: Realm, s: System, c: nat, call: Call, read: nat, id: Uuid, version: nat) {
    && PcOf(s, c).Putting? && PcOf(s, c).call == call && call.op.Update? && PcOf(s, c).read == read
    && PcOf(s, c).id == id && PcOf(s, c).version == version
  }

  /** What an update makes of the listing: a put of its name's row in the row's present version. */
  lemma UpdateFindsItsRow(r: Realm, s: System, pc: Pc, draw: Draw) returns (put: Pc)
    requires Inv(r, s) && s.hist != [] && pc.KnowsVault? && pc.call.op.Update? && PcOk(r, s, pc)
    requires draw.id !in s.drawn && draw.id !in s.d.secrets && Listing(Rows(r, s), draw.records)
    requires pc.call.op.name in Last(s.hist).contents
    ensures AfterList(r.user, pc.call, pc.start, |s.hist| - 1, pc.vault, pc.key, draw) == Go(put)
    ensures put.Putting? && put.call == pc.call && put.read == |s.hist| - 1
    ensures put.id in Rows(r, s) && put.version == Rows(r, s)[put.id].recordVersion
    ensures put.id in s.titles && s.titles[put.id] == pc.call.op.name
  {
    hide Inv, Listing, PcOk, Core, Represents, HistoryOk, FilesOk, WrapsUnder, Find, Encodes, ValidPayload, Entitled;
    hide AfterListUpdate, RowsOf, Reads;
    var name, read := pc.call.op.name, |s.hist| - 1;
    InvParts(r, s, 0);
    ReadsNow(r, s, pc, draw);
    KnowsCall(r, s, pc.call, pc.start, pc.vault, pc.key, draw);
    LookupAgrees(r, s, pc.call, pc.start, pc.vault, pc.key, draw, name);
    UpdateMoves(r, pc.call, pc.start, read, pc.vault, name, pc.call.op.text, draw, Last(s.hist).contents[name]);
    put := AfterListUpdate(pc.call, pc.start, read, pc.vault, pc.key, name, pc.call.op.text, draw).pc;
  }

  /** An update that lists the rows holds the row's present version. */
  lemma ListsForUpdate(r: Realm, s: System, c: nat, draw: Draw) returns (t: System, id: Uuid)
    requires Calm(r, s, draw) && PcOf(s, c).KnowsVault? && PcOf(s, c).call.op.Update?
    requires PcOf(s, c).call.op.name in Last(s.hist).contents
    ensures Reach(r, s, t) && Calm(r, t, draw) && OnlyMoved(s, t, c)
    ensures id in Rows(r, t) && id in t.titles && t.titles[id] == PcOf(s, c).call.op.name
    ensures AboutToPut(r, t, c, PcOf(s, c).call, |s.hist| - 1, id, Rows(r, t)[id].recordVersion)
    ensures |t.hist| == |s.hist| + 1
  {
    var records := ListingExists(Rows(r, s));
    var listed := draw.(records := records);
    hide Inv, Listing, PcOk, Core, Represents, HistoryOk, FilesOk, AfterList;
    InvParts(r, s, c);
    var put := UpdateFindsItsRow(r, s, PcOf(s, c), listed);
    id := put.id;
    t := Next(r, s, Proceed(c, listed));
    NextKeepsInv(r, s, Proceed(c, listed));
    ReachNext(r, s, Proceed(c, listed));
    hide Reach;
  }

  /** The call that has just finished was an update that was stored. */
  ghost predicate JustStored(s: System, t: System, call: Call, read: nat) {
    && s.hist != [] && |t.done| == |s.done| + 1 && s.done <= t.done
    && var e := t.done[|s.done|];
    e.call == call && e.outcome == Stored && e.read == read && e.finish == |s.hist| - 1
  }

  /** A put in the right version is stored, whatever the text it overwrites. */
  lemma PutLands(r: Realm, s: System, c: nat, call: Call, read: nat, id: Uuid, draw: Draw) returns (t: System)
    requires Calm(r, s, draw) && id in Rows(r, s) && id in s.titles && call.op.Update? && s.titles[id] == call.op.name
    requires AboutToPut(r, s, c, call, read, id, Rows(r, s)[id].recordVersion)
    ensures Reach(r, s, t) && Calm(r, t, draw) && OthersSame(s, t, c) && PcOf(t, c).Idle?
    ensures JustStored(s, t, call, read) && t.titles == s.titles && s.hist <= t.hist
    ensures t.hist == s.hist + [Last(s.hist).(contents := Last(s.hist).contents[call.op.name := call.op.text])]
    ensures id in Rows(r, t) && Rows(r, t)[id].recordVersion == Rows(r, s)[id].recordVersion + 1
  {
    var records := ListingExists(Rows(r, s));
    var a := Proceed(c, draw.(records := records));
    hide Inv, Listing, Core, Represents, HistoryOk, FilesOk, Encodes, ValidPayload, Tracked, Entitled, UpdateSecret;
    InvParts(r, s, c);
    PutStatus(r, s, PcOf(s, c));
    hide RowsOf;
    t := Next(r, s, a);
    NextKeepsInv(r, s, a);
    ReachNext(r, s, a);
    hide Reach;
  }

  lemma MovedOn(s: System, t: System, u: System, c: nat)
    requires OnlyMoved(s, t, c) && OnlyMoved(t, u, c)
    ensures OnlyMoved(s, u, c)
  {
    hide PcOf;
    assert u.hist[..|s.hist|] == s.hist;
  }

  /** A call up to its listing. */
  lemma Approaches(r: Realm, s: System, c: nat, call: Call, draw: Draw) returns (t: System)
    requires Calm(r, s, draw) && PcOf(s, c).Idle? && Authorized(call, Last(s.hist).password)
    ensures Reach(r, s, t) && Calm(r, t, draw) && OnlyMoved(s, t, c)
    ensures PcOf(t, c).KnowsVault? && PcOf(t, c).call == call
  {
    hide Calm, Reach, PcOf, OnlyMoved;
    var s1 := Begins(r, s, c, call, draw);
    Standing(s, s1, c);
    t := LearnsVault(r, s1, c, draw);
    MovedOn(s, s1, t, c);
    ReachOn(r, s, s1, t);
  }

  /** An update up to its put: the text it read is the present one. */
  lemma ArrivesAtPut(r: Realm, s: System, c: nat, call: Call, draw: Draw) returns (t: System, id: Uuid, read: nat)
    requires Calm(r, s, draw) && PcOf(s, c).Idle? && call.op.Update? && call.auth == Holding
    requires call.op.name in Last(s.hist).contents
    ensures Reach(r, s, t) && Calm(r, t, draw) && OnlyMoved(s, t, c)
    ensures |s.hist| <= read + 1 && read + 2 == |t.hist| && t.hist[read] == Last(s.hist)
    ensures id in Rows(r, t) && id in t.titles && t.titles[id] == call.op.name
    ensures AboutToPut(r, t, c, call, read, id, Rows(r, t)[id].recordVersion)
  {
    hide Calm, Reach, RowsOf, PcOf, OnlyMoved, AboutToPut;
    var s1 := Approaches(r, s, c, call, draw);
    Standing(s, s1, c);
    t, id := ListsForUpdate(r, s1, c, draw);
    read := |s1.hist| - 1;
    Standing(s1, t, c);
    MovedOn(s, s1, t, c);
    ReachOn(r, s, s1, t);
  }

  lemma Standing(s: System, t: System, c: nat)
    requires OnlyMoved(s, t, c)
    ensures s.hist != [] && t.hist != [] && Last(t.hist) == Last(s.hist) && s.hist <= t.hist
    ensures t.d == s.d && t.drawn == s.drawn
    ensures t.hist[|s.hist| - 1] == Last(s.hist) && t.titles == s.titles && OthersSame(s, t, c) && t.done == s.done
  {
    hide OthersSame;
  }

  /** A whole update, alone. */
  lemma Updates(r: Realm, s: System, c: nat, name: string, text: string, draw: Draw) returns (t: System, id: Uuid)
    requires Calm(r, s, draw) && PcOf(s, c).Idle? && name in Last(s.hist).contents
    ensures Reach(r, s, t) && Calm(r, t, draw) && OthersSame(s, t, c) && PcOf(t, c).Idle? && t.titles == s.titles
    ensures s.hist <= t.hist && |t.done| == |s.done| + 1 && s.done <= t.done
    ensures IsUpdateOf(t.done[|s.done|], name) && |s.hist| - 1 <= t.done[|s.done|].finish == |t.hist| - 2
    ensures Last(t.hist) == Last(s.hist).(contents := Last(s.hist).contents[name := text])
    ensures id in Rows(r, s) && id in s.titles && s.titles[id] == name
    ensures id in Rows(r, t) && Rows(r, t)[id].recordVersion == Rows(r, s)[id].recordVersion + 1
  {
    hide Calm, Reach, RowsOf, PcOf;
    var call := Call(Update(name, text), Holding);
    var s1, i, read := ArrivesAtPut(r, s, c, call, draw);
    id := i;
    t := PutLands(r, s1, c, call, read, id, draw);
    ReachOn(r, s, s1, t);
  }

  // ------------------------------------------------------- export and import

  /** A file of the rows as they are. */
  ghost predicate Snapshot(r: Realm, s: System, file: BackupFile) {
    RowsOfRecords(r.vaultId, RecordsOf(file)) == Rows(r, s)
  }

  lemma ListsForExport(r: Realm, s: System, c: nat, draw: Draw) returns (t: System, file: BackupFile)
    requires Calm(r, s, draw) && PcOf(s, c).KnowsVault? && PcOf(s, c).call.op.Export? && PcOf(s, c).call.auth.Password?
    requires |Last(s.hist).contents| <= MAX_RECORDS
    ensures Reach(r, s, t) && Calm(r, t, draw) && OthersSame(s, t, c) && PcOf(t, c).Idle?
    ensures t.d == s.d && t.titles == s.titles && s.hist <= t.hist && Last(t.hist) == Last(s.hist)
    ensures Exported(t, file) && Snapshot(r, s, file) && t.drawn == s.drawn
  {
    var records := ListingExists(Rows(r, s));
    var listed := draw.(records := records);
    hide Inv, Listing, PcOk, Core, Represents, HistoryOk, FilesOk, AfterList, RecordsOf, PasswordOf, RowsOf;
    hide RowsOfRecords;
    InvParts(r, s, c);
    OneRecordPerName(r, Rows(r, s), Last(s.hist).contents, records);
    ListingReadsBack(r, s, records);
    ExportSaves(r, s, c, listed);
    t := Next(r, s, Proceed(c, listed));
    file := t.done[|s.done|].outcome.file;
    IsExported(t, |s.done|);
    NextKeepsInv(r, s, Proceed(c, listed));
    ReachNext(r, s, Proceed(c, listed));
    hide Reach, Exported;
  }

  lemma Exports(r: Realm, s: System, c: nat, draw: Draw) returns (t: System, file: BackupFile)
    requires Calm(r, s, draw) && PcOf(s, c).Idle? && |Last(s.hist).contents| <= MAX_RECORDS
    ensures Reach(r, s, t) && Calm(r, t, draw) && OthersSame(s, t, c) && PcOf(t, c).Idle?
    ensures t.d == s.d && t.titles == s.titles && s.hist <= t.hist && Last(t.hist) == Last(s.hist)
    ensures Exported(t, file) && Snapshot(r, s, file) && t.drawn == s.drawn
  {
    assert s.hist != [];
    hide Calm, Reach, RowsOf, PcOf, Exported, Snapshot, OnlyMoved;
    var s1 := Approaches(r, s, c, Call(Export, Password(Last(s.hist).password)), draw);
    Standing(s, s1, c);
    t, file := ListsForExport(r, s1, c, draw);
    SameSnapshot(r, s1, s, file);
    ReachOn(r, s, s1, t);
  }

  lemma SameSnapshot(r: Realm, s: System, t: System, file: BackupFile)
    requires Snapshot(r, s, file) && t.d == s.d
    ensures Snapshot(r, t, file)
  {
  }

  /** The records of a saved file come back whole, and no unused id with them. */
  lemma ImportStep(r: Realm, s: System, c: nat, call: Call, start: nat, file: BackupFile, draw: Draw)
    requires s.hist != [] && call == Call(Import(file, true), Password(PasswordOf(file)))
    requires Calm(r, s, draw) && PcOf(s, c) == Called(call, start) && Exported(s, file)
    ensures var t := StepImport(r, s, c, call, start);
      && t == Complete(s, c, call, start, |s.hist| - 1, |s.hist| - 1, Imported, t.d, Last(t.hist))
      && t.hist == s.hist + [Last(t.hist)] && Snapshot(r, t, file) && draw.id !in t.d.secrets
  {
    hide Inv, Core, Represents, HistoryOk, RecordsOf, RowsOfRecords, Restore, Exported, RowsOf, ReadFile;
    hide PasswordOf, PcOk;
    SavedFileRestores(r, s, file, PasswordOf(file), true);
    var backup := ImportedBackup(r, file, true);
    var (d, status) := Restore(s.d, r.user, backup);
    var moment := Moment(FilePicture(r, file), PasswordOf(file), Last(s.hist).epoch + 1);
    hide FilePicture;
    CompleteIs(s, c, call, start, |s.hist| - 1, |s.hist| - 1, Imported, d, moment);
    UnusedStaysUnused(r, s, file, draw.id, d);
  }

  lemma UnusedStaysUnused(r: Realm, s: System, file: BackupFile, id: Uuid, d: Database)
    requires Inv(r, s) && Exported(s, file) && id !in s.drawn && id !in s.d.secrets
    requires Restore(s.d, r.user, ImportedBackup(r, file, true)) == (d, Status.Done)
    ensures id !in d.secrets
  {
    hide Inv, Represents, HistoryOk, Exported, Restore, RowsOfRecords, Valid, RecordsOf, ReadFile;
    InvParts(r, s, 0);
    ExportedReads(r, s, file, "", true);
    CoreIsValid(r, s);
    forall i | 0 <= i < |RecordsOf(file)| ensures RecordsOf(file)[i].id != id {
      assert RecordOk(r, s.titles, RecordsOf(file)[i]);
    }
    assert s.titles.Keys <= s.drawn;
    hide Core;
    OnlyMentionedIdsAppear(s.d, r.user, PostRestore(ImportedBackup(r, file, true)), id);
  }

  lemma Imports(r: Realm, s: System, c: nat, file: BackupFile, draw: Draw) returns (t: System)
    requires Calm(r, s, draw) && PcOf(s, c).Idle? && Exported(s, file)
    ensures Reach(r, s, t) && Calm(r, t, draw) && OthersSame(s, t, c) && t.titles == s.titles && s.hist <= t.hist
    ensures Snapshot(r, t, file) && |t.hist| == |s.hist| + 2 && t.hist[|s.hist|] == Last(s.hist)
    ensures |t.done| == |s.done| + 1 && s.done <= t.done && t.done[|s.done|].outcome.Imported?
  {
    var call := Call(Import(file, true), Password(PasswordOf(file)));
    hide Inv, Exported, Reach, Snapshot, PasswordOf, Listing;
    var s1 := Begins(r, s, c, call, draw);
    assert Exported(s1, file) by { SameDoneSameFiles(s, s1, file); }
    var records := ListingExists(Rows(r, s1));
    hide RowsOf;
    var a := Proceed(c, draw.(records := records));
    ImportStep(r, s1, c, call, |s.hist| - 1, file, draw);
    t := Next(r, s1, a);
    hide StepImport;
    NextKeepsInv(r, s1, a);
    ReachNext(r, s1, a);
    ReachOn(r, s, s1, t);
  }

  lemma SameDoneSameFiles(s: System, t: System, file: BackupFile)
    requires Exported(s, file) && t.done == s.done
    ensures Exported(t, file)
  {
  }

  // ------------------------------------------------------------- the lost update

  /** The last finished call is that update, stored; its author had read one text and overwrote another. */
  ghost predicate Overwrote(t: System, call: Call, seen: string, overwritten: string)
    requires call.op.Update?
  {
    && t.done != []
    && var e := t.done[|t.done| - 1];
    && e.call == call && e.outcome == Stored && e.read < |t.hist| && e.finish < |t.hist|
    && TextAt(t.hist[e.read], call.op.name) == Some(seen)
    && TextAt(t.hist[e.finish], call.op.name) == Some(overwritten)
  }

  /** A name has one row, so its id is the same for everyone. */
  lemma OneRowPerName(r: Realm, s: System, i: Uuid, j: Uuid)
    requires Inv(r, s) && i in Rows(r, s) && j in Rows(r, s) && i in s.titles && j in s.titles
    requires s.titles[i] == s.titles[j]
    ensures i == j
  {
    InvParts(r, s, 0);
    hide Inv, Core;
    if i != j { RowsAreApart(r, s, i, j); }
  }

  /** The name is still there after the import: its row is. */
  lemma RowMeansName(r: Realm, s: System, id: Uuid)
    requires Inv(r, s) && id in Rows(r, s) && id in s.titles
    ensures s.hist != [] && s.titles[id] in Last(s.hist).contents
  {
    InvParts(r, s, 0);
    hide Inv, Core;
    RowIsNamed(r, s, id);
  }

  /** Up to the moment when client a is about to put, having read the text x1, and the file is still at hand. */
  lemma ReadsAhead(
    r: Realm, s: System, a: nat, b: nat, c: nat, name: string, x1: string, call: Call, draw: Draw)
    returns (t: System, file: BackupFile, id: Uuid, read: nat)
    requires Calm(r, s, draw) && a != b && b != c && a != c && PcOf(s, a).Idle? && PcOf(s, b).Idle? && PcOf(s, c).Idle?
    requires name in Last(s.hist).contents && |Last(s.hist).contents| <= MAX_RECORDS
    requires call.op.Update? && call.op.name == name && call.auth == Holding
    ensures Reach(r, s, t) && Calm(r, t, draw) && PcOf(t, b).Idle? && PcOf(t, c).Idle? && t.titles == s.titles
    ensures Exported(t, file) && Snapshot(r, s, file)
    ensures id in Rows(r, s) && id in t.titles && t.titles[id] == name
    ensures AboutToPut(r, t, a, call, read, id, Rows(r, s)[id].recordVersion + 1)
    ensures read < |t.hist| && TextAt(t.hist[read], name) == Some(x1)
    ensures forall j | 0 <= j < |t.done| :: t.done[j].finish < read
  {
    assert s.hist != [];
    hide Calm, Reach, RowsOf, PcOf, Exported, Snapshot;
    var s1, f := Exports(r, s, c, draw);
    file := f;
    var s2, i := Updates(r, s1, b, name, x1, draw);
    ExportedLater(s1, s2, file);
    hide AboutToPut;
    var j;
    t, j, read := ArrivesAtPut(r, s2, a, call, draw);
    id := i;
    OneRowPerName(r, t, i, j) by { CalmIsInv(r, t, draw); }
    CalmHasFinished(r, s2, draw);
    ExportedLater(s2, t, file);
    ReachOn(r, s, s1, s2);
    ReachOn(r, s, s2, t);
  }

  lemma CalmIsInv(r: Realm, s: System, draw: Draw)
    requires Calm(r, s, draw)
    ensures Inv(r, s) && s.hist != []
  {
  }

  lemma CalmHasFinished(r: Realm, s: System, draw: Draw)
    requires Calm(r, s, draw)
    ensures s.hist != [] && forall j | 0 <= j < |s.done| :: s.done[j].finish < |s.hist| - 1
  {
    hide HistoryOk, Inv;
    InvMeans(r, s);
    AllHaveFinished(r, s.hist, s.done);
  }

  lemma ExportedLater(s: System, t: System, file: BackupFile)
    requires Exported(s, file) && s.done <= t.done
    ensures Exported(t, file)
  {
    var j :| 0 <= j < |s.done| && s.done[j].outcome == Saved(file);
    assert t.done[j] == s.done[j];
  }

  /**
   From any state with three idle clients and a name: one exports, one updates the name, a third reads it, the
   backup is imported, the name is updated again, and the third client's put is accepted. Its author read x1
   and overwrote x2, which he never saw.
   */
  lemma UpdateAcrossImportCanBeLost(
    r: Realm, s: System, a: nat, b: nat, c: nat, name: string, x1: string, x2: string, mine: string, draw: Draw)
    requires Calm(r, s, draw) && a != b && b != c && a != c && PcOf(s, a).Idle? && PcOf(s, b).Idle? && PcOf(s, c).Idle?
    requires name in Last(s.hist).contents && |Last(s.hist).contents| <= MAX_RECORDS
    ensures exists t :: Reach(r, s, t) && Overwrote(t, Call(Update(name, mine), Holding), x1, x2)
  {
    var call := Call(Update(name, mine), Holding);
    hide Calm, Reach, RowsOf, PcOf, Exported;
    var s1, file, id, read := ReadsAhead(r, s, a, b, c, name, x1, call, draw);
    var s2 := Imports(r, s1, c, file, draw);
    assert Rows(r, s2) == Rows(r, s);
    RowMeansName(r, s2, id) by { CalmIsInv(r, s2, draw); }
    var s3, i := Updates(r, s2, b, name, x2, draw);
    OneRowPerName(r, s2, i, id) by { CalmIsInv(r, s2, draw); }
    var t := PutLands(r, s3, a, call, read, id, draw);
    ReachOn(r, s, s1, s2);
    ReachOn(r, s, s2, s3);
    ReachOn(r, s, s3, t);
    assert t.hist[|s3.hist| - 1] == Last(s3.hist);
    assert Overwrote(t, call, x1, x2);
  }

  // ------------------------------------------------------ the needless conflict

  /** A put in another version than the row's is told of a conflict. */
  lemma PutConflicts(r: Realm, s: System, c: nat, call: Call, read: nat, id: Uuid, version: nat, draw: Draw)
    returns (t: System)
    requires Calm(r, s, draw) && call.op.Update? && AboutToPut(r, s, c, call, read, id, version)
    requires id in Rows(r, s) && Rows(r, s)[id].recordVersion != version
    ensures Reach(r, s, t) && |t.done| == |s.done| + 1 && s.done <= t.done
    ensures var e := t.done[|s.done|]; e.call == call && e.outcome == Conflict && e.read == read
  {
    var records := ListingExists(Rows(r, s));
    var a := Proceed(c, draw.(records := records));
    hide Inv, Listing, Core, Represents, HistoryOk, FilesOk, Encodes, ValidPayload, Tracked, Entitled, UpdateSecret;
    InvParts(r, s, c);
    PutStatus(r, s, PcOf(s, c));
    hide RowsOf;
    t := Next(r, s, a);
    ReachNext(r, s, a);
    hide Reach;
  }

  /** The last finished call is that update, told of a conflict though nobody updated its name since it looked. */
  ghost predicate ConflictedAlone(t: System, call: Call)
    requires call.op.Update?
  {
    && t.done != []
    && var e := t.done[|t.done| - 1];
    e.call == call && e.outcome == Conflict && !Overwritten(t.done, call.op.name, e.read, e.finish)
  }

  /** From any state with three idle clients: across an import, a version conflict need not mean an update. */
  lemma ConflictAcrossImportCanBeNeedless(
    r: Realm, s: System, a: nat, b: nat, c: nat, name: string, x1: string, mine: string, draw: Draw)
    requires Calm(r, s, draw) && a != b && b != c && a != c && PcOf(s, a).Idle? && PcOf(s, b).Idle? && PcOf(s, c).Idle?
    requires name in Last(s.hist).contents && |Last(s.hist).contents| <= MAX_RECORDS
    ensures exists t :: Reach(r, s, t) && ConflictedAlone(t, Call(Update(name, mine), Holding))
  {
    var call := Call(Update(name, mine), Holding);
    hide Calm, Reach, RowsOf, PcOf, Exported;
    var s1, file, id, read := ReadsAhead(r, s, a, b, c, name, x1, call, draw);
    var s2 := Imports(r, s1, c, file, draw);
    assert Rows(r, s2) == Rows(r, s);
    var t := PutConflicts(r, s2, a, call, read, id, Rows(r, s)[id].recordVersion + 1, draw);
    ReachOn(r, s, s1, s2);
    ReachOn(r, s, s2, t);
    assert ConflictedAlone(t, call);
  }
}
