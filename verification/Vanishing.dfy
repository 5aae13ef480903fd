/**
 An import can bring a name back under the id of an older row. A client that has read the newer row is then
 told that the secret is not there, although its name has been there all the time. This builds that run.
 */
module Vanishing {
  import opened Wrappers
  import opened Crypto
  import opened Store
  import opened Client
  import opened BackupFiles
  import opened Protocol
  import opened ProtocolInvariant
  import opened ProtocolSteps
  import opened Linearizability
  import opened Guarantees
  import opened Backups
  import opened Rewinds

  // ------------------------------------------------------------------- removing

  /** No id has come into use. */
  predicate NothingNew(s: System, t: System) {
    t.drawn <= s.drawn && t.d.secrets.Keys <= s.d.secrets.Keys
  }

  lemma StaysCalm(r: Realm, s: System, t: System, near: Draw, draw: Draw)
    requires Calm(r, s, draw) && Calm(r, t, near) && NothingNew(s, t)
    ensures Calm(r, t, draw)
  {
    hide Inv;
  }

  lemma RemoveMoves(call: Call, start: nat, read: nat, vault: Vault, key: Option<Key>, name: string, draw: Draw)
    requires Find(draw.records, name, vault.id, key).Found?
    ensures AfterListRemove(call, start, read, vault, key, name, draw)
            == Go(Deleting(call, start, read, Find(draw.records, name, vault.id, key).record.id))
  {
    hide Find;
  }

  /** What a removal makes of the listing: a delete of its name's row. */
  lemma RemoveFindsItsRow(r: Realm, s: System, pc: Pc, draw: Draw) returns (next: Pc)
    requires Inv(r, s) && s.hist != [] && pc.KnowsVault? && pc.call.op.Remove? && PcOk(r, s, pc)
    requires draw.id !in s.drawn && draw.id !in s.d.secrets && Listing(Rows(r, s), draw.records)
    requires pc.call.op.name in Last(s.hist).contents
    ensures AfterList(r.user, pc.call, pc.start, |s.hist| - 1, pc.vault, pc.key, draw) == Go(next)
    ensures next.Deleting? && next.call == pc.call
    ensures next.id in Rows(r, s) && next.id in s.titles && s.titles[next.id] == pc.call.op.name
  {
    hide Inv, Listing, PcOk, Core, Represents, HistoryOk, FilesOk, WrapsUnder, Find, Encodes, ValidPayload, Entitled;
    hide AfterListRemove, RowsOf, Reads;
    var name, read := pc.call.op.name, |s.hist| - 1;
    InvParts(r, s, 0);
    ReadsNow(r, s, pc, draw);
    KnowsCall(r, s, pc.call, pc.start, pc.vault, pc.key, draw);
    LookupAgrees(r, s, pc.call, pc.start, pc.vault, pc.key, draw, name);
    RemoveMoves(pc.call, pc.start, read, pc.vault, pc.key, name, draw);
    next := Deleting(pc.call, pc.start, read, Find(draw.records, name, r.vaultId, pc.key).record.id);
  }

  ghost predicate AboutToDelete(s: System, c: nat, call: Call, id: Uuid) {
    PcOf(s, c).Deleting? && PcOf(s, c).call == call && PcOf(s, c).id == id
  }

  lemma ListsForRemove(r: Realm, s: System, c: nat, draw: Draw) returns (t: System, id: Uuid)
    requires Calm(r, s, draw) && PcOf(s, c).KnowsVault? && PcOf(s, c).call.op.Remove?
    requires PcOf(s, c).call.op.name in Last(s.hist).contents
    ensures Reach(r, s, t) && Calm(r, t, draw) && OnlyMoved(s, t, c)
    ensures id in Rows(r, t) && id in t.titles && t.titles[id] == PcOf(s, c).call.op.name
    ensures AboutToDelete(t, c, PcOf(s, c).call, id)
  {
    var records := ListingExists(Rows(r, s));
    var listed := draw.(records := records);
    hide Inv, Listing, PcOk, Core, Represents, HistoryOk, FilesOk, AfterList;
    InvParts(r, s, c);
    var next := RemoveFindsItsRow(r, s, PcOf(s, c), listed);
    id := next.id;
    t := Next(r, s, Proceed(c, listed));
    NextKeepsInv(r, s, Proceed(c, listed));
    ReachNext(r, s, Proceed(c, listed));
    hide Reach;
  }

  /** The delete of a row that is there takes its name away. */
  lemma DeleteLands(r: Realm, s: System, c: nat, call: Call, id: Uuid, draw: Draw) returns (t: System)
    requires Calm(r, s, draw) && id in Rows(r, s) && call.op.Remove? && AboutToDelete(s, c, call, id)
    ensures Reach(r, s, t) && Calm(r, t, draw) && OthersSame(s, t, c) && PcOf(t, c).Idle?
    ensures t.titles == s.titles && s.done <= t.done && NothingNew(s, t)
    ensures t.hist == s.hist + [Last(s.hist).(contents := Last(s.hist).contents - {call.op.name})]
  {
    var records := ListingExists(Rows(r, s));
    var a := Proceed(c, draw.(records := records));
    hide Inv, Listing, Core, Represents, HistoryOk, FilesOk, Entitled, RemoveSecret, DeleteOk;
    InvParts(r, s, c);
    DeletingCall(r, s, PcOf(s, c));
    RemoveOnRows(s.d, r.user, id);
    RemovingShrinks(s.d, r.user, id);
    hide RowsOf, PcOk;
    t := Next(r, s, a);
    NextKeepsInv(r, s, a);
    ReachNext(r, s, a);
    hide Reach;
  }

  lemma DeletingCall(r: Realm, s: System, pc: Pc)
    requires pc.Deleting? && PcOk(r, s, pc)
    ensures pc.call.op.Remove? && pc.read < |s.hist|
  {
  }

  /** A whole removal, alone. */
  lemma Removes(r: Realm, s: System, c: nat, name: string, draw: Draw) returns (t: System)
    requires Calm(r, s, draw) && PcOf(s, c).Idle? && name in Last(s.hist).contents
    ensures Reach(r, s, t) && Calm(r, t, draw) && OthersSame(s, t, c) && PcOf(t, c).Idle? && t.titles == s.titles
    ensures s.done <= t.done && NothingNew(s, t)
    ensures Last(t.hist) == Last(s.hist).(contents := Last(s.hist).contents - {name})
    ensures AcceptableName(r, name)
  {
    hide Calm, Reach, RowsOf, PcOf, OnlyMoved, AboutToDelete, AcceptableName;
    var call := Call(Remove(name), Holding);
    var s1 := Approaches(r, s, c, call, draw);
    Standing(s, s1, c);
    var s2, id := ListsForRemove(r, s1, c, draw);
    Standing(s1, s2, c);
    StoredNameIsAcceptable(r, s2, id) by { CalmIsInv(r, s2, draw); }
    t := DeleteLands(r, s2, c, call, id, draw);
    ReachOn(r, s, s1, s2);
    ReachOn(r, s, s2, t);
  }

  lemma StoredNameIsAcceptable(r: Realm, s: System, id: Uuid)
    requires Inv(r, s) && id in Rows(r, s)
    ensures id in s.titles && AcceptableName(r, s.titles[id])
  {
    InvParts(r, s, 0);
    hide Inv, Core, RowsOf;
    RowIsNamed(r, s, id);
  }

  // --------------------------------------------------------------------- adding

  ghost predicate AboutToPost(s: System, c: nat, call: Call, id: Uuid) {
    PcOf(s, c).Posting? && PcOf(s, c).call == call && PcOf(s, c).id == id
  }

  /** What an add makes of a listing without its name: a post under the id it draws. */
  lemma AddFindsNoRow(r: Realm, s: System, pc: Pc, draw: Draw) returns (next: Pc)
    requires Inv(r, s) && s.hist != [] && pc.KnowsVault? && pc.call.op.Add? && PcOk(r, s, pc)
    requires draw.id !in s.drawn && draw.id !in s.d.secrets && Listing(Rows(r, s), draw.records)
    requires pc.call.op.name !in Last(s.hist).contents
    ensures AfterList(r.user, pc.call, pc.start, |s.hist| - 1, pc.vault, pc.key, draw) == Go(next)
    ensures next.Posting? && next.call == pc.call && next.id == draw.id
  {
    hide Inv, Listing, PcOk, Core, Represents, HistoryOk, FilesOk, WrapsUnder, Find, Encodes, ValidPayload, Entitled;
    hide AfterListAdd, RowsOf, Reads;
    InvParts(r, s, 0);
    ReadsNow(r, s, pc, draw);
    KnowsCall(r, s, pc.call, pc.start, pc.vault, pc.key, draw);
    LookupAgrees(r, s, pc.call, pc.start, pc.vault, pc.key, draw, pc.call.op.name);
    AddMoves(r, pc.call, pc.start, pc.vault, pc.call.op.name, pc.call.op.text, draw);
    next := AfterListAdd(pc.call, pc.start, pc.vault, pc.key, pc.call.op.name, pc.call.op.text, draw).pc;
  }

  lemma ListsForAdd(r: Realm, s: System, c: nat, own: Draw, draw: Draw) returns (t: System)
    requires Calm(r, s, own) && Calm(r, s, draw) && own.id != draw.id
    requires PcOf(s, c).KnowsVault? && PcOf(s, c).call.op.Add?
    requires PcOf(s, c).call.op.name !in Last(s.hist).contents
    ensures Reach(r, s, t) && Calm(r, t, draw) && OthersSame(s, t, c) && t.d == s.d && t.done == s.done
    ensures t.titles == s.titles && t.hist == s.hist + [Last(s.hist)] && AboutToPost(t, c, PcOf(s, c).call, own.id)
  {
    var records := ListingExists(Rows(r, s));
    var listed := own.(records := records);
    hide Inv, Listing, PcOk, Core, Represents, HistoryOk, FilesOk, AfterList;
    InvParts(r, s, c);
    var next := AddFindsNoRow(r, s, PcOf(s, c), listed);
    t := Next(r, s, Proceed(c, listed));
    NextKeepsInv(r, s, Proceed(c, listed));
    ReachNext(r, s, Proceed(c, listed));
    hide Reach;
  }

  /** The post of an acceptable name that is not there is stored. */
  lemma PostLands(r: Realm, s: System, c: nat, call: Call, id: Uuid, draw: Draw) returns (t: System)
    requires Calm(r, s, draw) && draw.id != id && call.op.Add? && AboutToPost(s, c, call, id)
    requires AcceptableName(r, call.op.name) && call.op.name !in Last(s.hist).contents
    ensures Reach(r, s, t) && Calm(r, t, draw) && OthersSame(s, t, c) && PcOf(t, c).Idle? && s.done <= t.done
    ensures t.titles == s.titles[id := call.op.name] && id in Rows(r, t)
    ensures t.hist == s.hist + [Last(s.hist).(contents := Last(s.hist).contents[call.op.name := call.op.text])]
  {
    var records := ListingExists(Rows(r, s));
    var a := Proceed(c, draw.(records := records));
    hide Inv, Listing, Core, Represents, HistoryOk, FilesOk, Entitled, CreateSecret, PostOk, AcceptableName;
    InvParts(r, s, c);
    PostingCall(r, s, PcOf(s, c));
    PostStatus(r, s, PcOf(s, c));
    hide RowsOf, PcOk;
    t := Next(r, s, a);
    NextKeepsInv(r, s, a);
    ReachNext(r, s, a);
    hide Reach;
  }

  /** A whole add, alone, under the id its client draws. */
  lemma Adds(r: Realm, s: System, c: nat, name: string, text: string, own: Draw, draw: Draw) returns (t: System)
    requires Calm(r, s, own) && Calm(r, s, draw) && own.id != draw.id && PcOf(s, c).Idle?
    requires AcceptableName(r, name) && name !in Last(s.hist).contents
    ensures Reach(r, s, t) && Calm(r, t, draw) && OthersSame(s, t, c) && PcOf(t, c).Idle? && s.done <= t.done
    ensures t.titles == s.titles[own.id := name] && own.id in Rows(r, t) && name in Last(t.hist).contents
  {
    hide Calm, Reach, RowsOf, PcOf, OnlyMoved, AboutToPost, AcceptableName;
    var call := Call(Add(name, text), Holding);
    var s1 := Approaches(r, s, c, call, draw);
    Standing(s, s1, c);
    StaysCalm(r, s, s1, draw, own);
    var s2 := ListsForAdd(r, s1, c, own, draw);
    t := PostLands(r, s2, c, call, own.id, draw);
    ReachOn(r, s, s1, s2);
    ReachOn(r, s, s2, t);
  }

  // ------------------------------------------------------------------ the answer

  /** A put of a row that is gone is answered "not found". */
  lemma PutMisses(r: Realm, s: System, c: nat, call: Call, read: nat, id: Uuid, version: nat, draw: Draw)
    returns (t: System)
    requires Calm(r, s, draw) && call.op.Update? && AboutToPut(r, s, c, call, read, id, version) && id !in Rows(r, s)
    ensures Reach(r, s, t) && s.hist <= t.hist && |t.done| == |s.done| + 1
    ensures var e := t.done[|s.done|];
      e.call == call && e.outcome == Vanished && e.read == read && e.finish == |s.hist| - 1
  {
    var records := ListingExists(Rows(r, s));
    var a := Proceed(c, draw.(records := records));
    hide Inv, Listing, Core, Represents, HistoryOk, FilesOk, Encodes, ValidPayload, Tracked, Entitled, UpdateSecret;
    InvParts(r, s, c);
    PutStatus(r, s, PcOf(s, c));
    hide RowsOf;
    t := Next(r, s, a);
    ReachNext(r, s, a);
    hide Reach;
  }

  /** The last finished call is that update, not found, though its name was there from its listing to its put. */
  ghost predicate MissedThoughThere(t: System, call: Call)
    requires call.op.Update?
  {
    && t.done != []
    && var e := t.done[|t.done| - 1];
    && e.call == call && e.outcome == Vanished && e.read <= e.finish < |t.hist|
    && !AbsentWhile(t.hist, call.op.name, e.read, e.finish)
  }

  /** The name is removed and added again: it has a new row. */
  lemma Replaces(
    r: Realm, s: System, c: nat, name: string, text: string, own: Draw, draw: Draw) returns (t: System)
    requires Calm(r, s, own) && Calm(r, s, draw) && own.id != draw.id && PcOf(s, c).Idle?
    requires name in Last(s.hist).contents
    ensures Reach(r, s, t) && Calm(r, t, draw) && OthersSame(s, t, c) && s.done <= t.done
    ensures t.titles == s.titles[own.id := name] && own.id in Rows(r, t) && name in Last(t.hist).contents
  {
    hide Calm, Reach, RowsOf, PcOf, AcceptableName, NothingNew;
    var s1 := Removes(r, s, c, name, draw);
    StaysCalm(r, s, s1, draw, own);
    t := Adds(r, s1, c, name, text, own, draw);
    ReachOn(r, s, s1, t);
  }

  /** A client that lists the rows for an update is about to put the new row. */
  lemma ReadsNewerRow(
    r: Realm, s: System, a: nat, b: nat, call: Call, text: string, own: Draw, draw: Draw)
    returns (t: System, read: nat, version: nat)
    requires Calm(r, s, own) && Calm(r, s, draw) && own.id != draw.id && a != b
    requires PcOf(s, a).Idle? && PcOf(s, b).Idle? && call.op.Update? && call.auth == Holding
    requires call.op.name in Last(s.hist).contents
    ensures Reach(r, s, t) && Calm(r, t, draw) && s.done <= t.done
    ensures forall k | k != a && k != b :: PcOf(t, k) == PcOf(s, k)
    ensures AboutToPut(r, t, a, call, read, own.id, version)
    ensures read + 2 == |t.hist| && call.op.name in t.hist[read].contents && Last(t.hist) == t.hist[read]
    ensures t.titles == s.titles[own.id := call.op.name]
  {
    hide Calm, Reach, RowsOf, PcOf, AboutToPut;
    var s1 := Replaces(r, s, b, call.op.name, text, own, draw);
    var id;
    t, id, read := ArrivesAtPut(r, s1, a, call, draw);
    Standing(s1, t, a);
    hide OnlyMoved;
    version := Rows(r, t)[id].recordVersion;
    OneRowPerName(r, t, own.id, id) by { CalmIsInv(r, t, draw); }
    ReachOn(r, s, s1, t);
  }

  /** A backup is saved before that. */
  lemma ExportsAndReads(
    r: Realm, s: System, a: nat, b: nat, c: nat, call: Call, text: string, own: Draw, draw: Draw)
    returns (t: System, file: BackupFile, read: nat, version: nat)
    requires Calm(r, s, own) && Calm(r, s, draw) && own.id != draw.id && a != b && b != c && a != c
    requires PcOf(s, a).Idle? && PcOf(s, b).Idle? && PcOf(s, c).Idle? && call.op.Update? && call.auth == Holding
    requires call.op.name in Last(s.hist).contents && |Last(s.hist).contents| <= MAX_RECORDS
    ensures Reach(r, s, t) && Calm(r, t, draw) && PcOf(t, c).Idle? && Exported(t, file) && Snapshot(r, s, file)
    ensures AboutToPut(r, t, a, call, read, own.id, version)
    ensures read + 2 == |t.hist| && call.op.name in t.hist[read].contents && Last(t.hist) == t.hist[read]
    ensures t.titles == s.titles[own.id := call.op.name]
  {
    assert s.hist != [];
    hide Calm, Reach, RowsOf, PcOf, Exported, Snapshot, AboutToPut;
    var s1, f := Exports(r, s, c, draw);
    file := f;
    SameCalm(r, s, s1, draw, own);
    t, read, version := ReadsNewerRow(r, s1, a, b, call, text, own, draw);
    ExportedLater(s1, t, file);
    ReachOn(r, s, s1, t);
  }

  lemma SameCalm(r: Realm, s: System, t: System, near: Draw, draw: Draw)
    requires Calm(r, s, draw) && Calm(r, t, near) && t.d == s.d && t.drawn == s.drawn
    ensures Calm(r, t, draw)
  {
    StaysCalm(r, s, t, near, draw);
  }

  /** The name is there at the four moments from the listing to the put. */
  lemma ThereThroughout(hist: seq<Moment>, name: string, read: nat)
    requires read + 4 == |hist|
    requires name in hist[read].contents && name in hist[read + 1].contents
    requires name in hist[read + 2].contents && name in hist[read + 3].contents
    ensures !AbsentWhile(hist, name, read, read + 3)
  {
  }

  lemma SnapshotIsBack(r: Realm, s: System, t: System, file: BackupFile)
    requires Snapshot(r, s, file) && Snapshot(r, t, file)
    ensures Rows(r, s) == Rows(r, t)
  {
  }

  lemma StillAboutToPut(r: Realm, s: System, t: System, c: nat, call: Call, read: nat, id: Uuid, version: nat)
    requires AboutToPut(r, s, c, call, read, id, version) && PcOf(t, c) == PcOf(s, c)
    ensures AboutToPut(r, t, c, call, read, id, version)
  {
  }

  lemma SameMoments(hist: seq<Moment>, longer: seq<Moment>, name: string, from: nat, until: nat)
    requires hist <= longer && until < |hist| && !AbsentWhile(hist, name, from, until)
    ensures !AbsentWhile(longer, name, from, until)
  {
  }

  lemma NameHasRow(r: Realm, s: System, name: string, draw: Draw) returns (id: Uuid)
    requires Calm(r, s, draw) && name in Last(s.hist).contents
    ensures id in Rows(r, s) && id in s.titles && s.titles[id] == name && draw.id !in Rows(r, s)
  {
    hide HistoryOk, FilesOk, PcOk, Valid, VaultOk;
    InvParts(r, s, 0);
    hide Inv;
    id :| Titled(r, Rows(r, s), id, name);
    RowIsNamed(r, s, id);
  }

  /** The import brings back the rows of the past, with another row of the name, and the put misses its own. */
  lemma MissesAcrossImport(
    r: Realm, past: System, s: System, a: nat, c: nat, call: Call, read: nat, id: Uuid, version: nat,
    file: BackupFile, other: Uuid, draw: Draw) returns (t: System)
    requires Calm(r, s, draw) && a != c && PcOf(s, c).Idle? && call.op.Update?
    requires AboutToPut(r, s, a, call, read, id, version)
    requires read + 2 == |s.hist| && call.op.name in s.hist[read].contents && Last(s.hist) == s.hist[read]
    requires Exported(s, file) && Snapshot(r, past, file) && id !in Rows(r, past)
    requires other in Rows(r, past) && other in s.titles && s.titles[other] == call.op.name
    ensures Reach(r, s, t) && MissedThoughThere(t, call)
  {
    hide Calm, Reach, RowsOf, PcOf, Exported, Snapshot, AbsentWhile, AboutToPut;
    var s1 := Imports(r, s, c, file, draw);
    SnapshotIsBack(r, past, s1, file);
    RowMeansName(r, s1, other) by { CalmIsInv(r, s1, draw); }
    ThereThroughout(s1.hist, call.op.name, read);
    StillAboutToPut(r, s, s1, a, call, read, id, version);
    t := PutMisses(r, s1, a, call, read, id, version, draw);
    SameMoments(s1.hist, t.hist, call.op.name, read, read + 3);
    ReachOn(r, s, s1, t);
  }

  /**
   From any state with three idle clients and a name: one exports, one removes the name and adds it again, a
   third lists it for an update, the backup is imported, and the third client's put is not found, although the
   name was there at every moment from its listing to its put.
   */
  lemma PresentNameCanVanish(
    r: Realm, s: System, a: nat, b: nat, c: nat, name: string, text: string, mine: string, own: Draw, draw: Draw)
    requires Calm(r, s, own) && Calm(r, s, draw) && own.id != draw.id && a != b && b != c && a != c
    requires PcOf(s, a).Idle? && PcOf(s, b).Idle? && PcOf(s, c).Idle?
    requires name in Last(s.hist).contents && |Last(s.hist).contents| <= MAX_RECORDS
    ensures exists t :: Reach(r, s, t) && MissedThoughThere(t, Call(Update(name, mine), Holding))
  {
    hide *;
    CalmIsInv(r, s, draw);
    var call := Call(Update(name, mine), Holding);
    var first := NameHasRow(r, s, name, own);
    var s1, file, read, version := ExportsAndReads(r, s, a, b, c, call, text, own, draw);
    var t := MissesAcrossImport(r, s, s1, a, c, call, read, own.id, version, file, first, draw);
    ReachOn(r, s, s1, t);
  }
}
