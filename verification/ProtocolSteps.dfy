/** Every step of the protocol keeps the invariant. */
module ProtocolSteps {
  import opened Wrappers
  import opened Crypto
  import opened Store
  import opened Client
  import opened BackupFiles
  import opened Protocol
  import opened ProtocolInvariant

  // ------------------------------------------------ steps that change nothing

  lemma QuietCore(r: Realm, s: System, t: System)
    requires Core(r, s) && t.d == s.d && t.titles == s.titles && s.drawn <= t.drawn
    requires t.hist != [] && Last(t.hist) == Last(s.hist)
    requires forall id | id in t.drawn && id !in s.drawn :: id !in s.d.secrets
    ensures Core(r, t)
  {
  }

  /** A client moves on without having changed anything. */
  lemma GoKeepsInv(r: Realm, s: System, c: nat, pc: Pc, drawn: set<Uuid>)
    requires Inv(r, s) && s.drawn <= drawn && forall id | id in drawn && id !in s.drawn :: id !in s.d.secrets
    requires pc.Posting? ==> pc.id !in s.drawn
    requires PcOk(r, Progress(s, c, s.d, Last(s.hist), pc).(drawn := drawn), pc)
    ensures Inv(r, Progress(s, c, s.d, Last(s.hist), pc).(drawn := drawn))
  {
    var t := Progress(s, c, s.d, Last(s.hist), pc).(drawn := drawn);
    assert t.hist[..|s.hist|] == s.hist && t.done[..|s.done|] == s.done;
    InvParts(r, s, c);
    hide Inv, PcOk, HistoryOk, FileOk, RowsOf, Rely, Core, PcOf;
    QuietCore(r, s, t);
    PastHasEnded(r, s);
    assert forall name :: UpdatedNow(s, t, name) == UpdatedNow(s, s, name);
    QuietRely(r, s, t);
    QuietHistory(r, s.hist, s.done);
    FilesStay(r, s, t);
    StepKeepsInv(r, s, t, c, pc, {});
  }

  function Reported(s: System, c: nat, call: Call, start: nat, outcome: Outcome): Completed
    requires s.hist != []
  {
    var end := |s.hist| - 1;
    Completed(c, call, outcome, start, end, end, end, s.hist[end].epoch)
  }

  /** What a finished call leaves behind. */
  lemma CompleteIs(
    s: System, c: nat, call: Call, start: nat, read: nat, point: nat, outcome: Outcome, d: Database, moment: Moment)
    requires s.hist != [] && read < |s.hist|
    ensures var t := Complete(s, c, call, start, read, point, outcome, d, moment);
      && t == System(d, s.pcs[c := Idle], s.drawn, s.titles, t.hist, t.done)
      && t.hist == s.hist + [moment] && t.hist[..|s.hist|] == s.hist
      && |t.hist| == |s.hist| + 1 && Last(t.hist) == moment
      && |t.done| == |s.done| + 1 && t.done[..|s.done|] == s.done && t.done == s.done + [t.done[|s.done|]]
      && t.done[|s.done|]
         == Completed(c, call, outcome, start, read, point, |s.hist| - 1, s.hist[read].epoch)
  {
  }

  /** A call ends with a report about the present. */
  lemma ReportKeepsInv(r: Realm, s: System, c: nat, call: Call, start: nat, outcome: Outcome)
    requires Inv(r, s) && start < |s.hist|
    requires !Writes(Reported(s, c, call, start, outcome)) && !outcome.Conflict? && !outcome.Vanished?
    requires Accepts(r, Last(s.hist), Reported(s, c, call, start, outcome))
    requires NeedsNoPassword(outcome) || Entitled(s.hist, call, start)
    requires outcome.Saved? ==> FileOk(r, s.titles, outcome.file)
    ensures Inv(r, Report(s, c, call, start, outcome))
  {
    hide Inv, Accepts, Entitled, FileOk;
    var t, e := Report(s, c, call, start, outcome), Reported(s, c, call, start, outcome);
    EndQuietly(r, s, t, c, e);
  }

  lemma IdleIsOk(r: Realm, t: System)
    ensures PcOk(r, t, Idle)
  {
  }

  /** A call ends without an effect. */
  lemma EndQuietly(r: Realm, s: System, t: System, c: nat, e: Completed)
    requires Inv(r, s) && !Writes(e)
    requires t == Progress(s, c, s.d, Last(s.hist), Idle).(done := s.done + [e])
    requires e.start <= e.point <= e.finish == |s.hist| - 1 && e.start <= e.read <= e.finish
    requires e.seen == s.hist[e.read].epoch && Accepts(r, s.hist[e.point], e)
    requires NeedsNoPassword(e.outcome) || Entitled(s.hist, e.call, e.start)
    requires e.call.op.Update? && e.outcome.Conflict? && s.hist[e.read].epoch == Last(s.hist).epoch
             ==> Overwritten(s.done, e.call.op.name, e.read, e.finish)
    requires (FoundRow(e) ==> e.call.op.name in s.hist[e.read].contents) && (e.outcome.Vanished? ==> e.read <= e.point)
    requires e.outcome.Saved? ==> FileOk(r, s.titles, e.outcome.file)
    ensures Inv(r, t)
  {
    hide Accepts, Entitled, FileOk, Represents, Valid, VaultOk, Bound, Reserved, RowsOf, PcOk;
    assert t.hist[..|s.hist|] == s.hist && t.done[..|s.done|] == s.done;
    QuietCore(r, s, t);
    UpdatedByTheLast(r, s, t, e);
    QuietRely(r, s, t);
    assert t.hist[..e.finish + 1] == s.hist;
    assert Sound(r, t.hist, s.done, e);
    EndingHistory(r, s.hist, s.done, Last(s.hist), e);
    FilesStay(r, s, t);
    IdleIsOk(r, t);
    StepKeepsInv(r, s, t, c, Idle, {});
  }

  // ----------------------------------------------------- local computation

  /** A truthful report about the present. */
  ghost predicate Reportable(r: Realm, s: System, c: nat, call: Call, start: nat, outcome: Outcome) {
    && s.hist != [] && start < |s.hist|
    && !Writes(Reported(s, c, call, start, outcome)) && !outcome.Conflict? && !outcome.Vanished?
    && Accepts(r, Last(s.hist), Reported(s, c, call, start, outcome))
    && (NeedsNoPassword(outcome) || Entitled(s.hist, call, start))
    && (outcome.Saved? ==> FileOk(r, s.titles, outcome.file))
  }

  /** A move that ends in a truthful report, or leads to a program counter that knows what it should. */
  ghost predicate GoodMove(r: Realm, s: System, c: nat, call: Call, start: nat, move: Move) {
    && s.hist != []
    && match move
       case End(outcome) => Reportable(r, s, c, call, start, outcome)
       case Go(pc) =>
         (pc.Posting? ==> pc.id !in s.drawn && pc.id !in s.d.secrets) && PcOk(r, Take(s, c, call, start, move), pc)
  }

  lemma EndIsGood(r: Realm, s: System, c: nat, call: Call, start: nat, outcome: Outcome)
    requires s.hist != [] && Reportable(r, s, c, call, start, outcome)
    ensures GoodMove(r, s, c, call, start, End(outcome))
  {
    hide Reportable, PcOk, Take;
  }

  lemma MoveKeepsInv(r: Realm, s: System, c: nat, call: Call, start: nat, move: Move)
    requires Inv(r, s) && GoodMove(r, s, c, call, start, move)
    ensures Inv(r, Take(s, c, call, start, move))
  {
    hide Inv, PcOk, Accepts, Report, Progress, Entitled, FileOk;
    match move
    case End(outcome) => ReportKeepsInv(r, s, c, call, start, outcome);
    case Go(pc) => GoKeepsInv(r, s, c, pc, if pc.Posting? then s.drawn + {pc.id} else s.drawn);
  }

  // ------------------------------------------------------ after GET /vault

  lemma AfterVaultIsGood(r: Realm, s: System, c: nat, call: Call, start: nat, draw: Draw)
    requires Core(r, s) && start < |s.hist| && WellFormed(call) && FreshKdf(draw.kdf)
    requires !call.op.Import? && !call.op.Initialize? && !(call.op.Add? && call.op.name == "" && call.auth.Password?)
    ensures GoodMove(r, s, c, call, start, AfterVault(r, call, start, s.d.vaults[r.user], draw))
  {
    hide Represents, Valid, Bound, Reserved;
    var vault, now := s.d.vaults[r.user], Last(s.hist);
    var move := AfterVault(r, call, start, vault, draw);
    if call.auth.Password? {
      UnlocksExactly(r, vault.wrapped, now.password, call.auth.password);
      if call.auth.password == now.password {
        assert s.hist[|s.hist| - 1].password == call.auth.password;
        assert Entitled(s.hist, call, start);
        EntitledStays(s.hist, s.hist + [now], call, start);
        if call.op.Rotate? { WrapKeepsKey(r, call.op.newPassword, draw.kdf, draw.nonce1); }
      }
    }
  }

  // ---------------------------------------------------- after GET /secrets

  /** A client that knows the vault, and the listing it receives. */
  ghost predicate Reads(r: Realm, s: System, call: Call, start: nat, vault: Vault, key: Option<Key>, draw: Draw) {
    && Core(r, s) && HistoryOk(r, s.hist, s.done) && PcOk(r, s, KnowsVault(call, start, vault, key))
    && draw.id !in s.drawn && draw.id !in s.d.secrets
    && Listing(Rows(r, s), draw.records)
  }

  lemma KnowsCall(r: Realm, s: System, call: Call, start: nat, vault: Vault, key: Option<Key>, draw: Draw)
    requires Reads(r, s, call, start, vault, key, draw)
    ensures s.hist != [] && start < |s.hist| && WellFormed(call) && Entitled(s.hist, call, start) && ListsRows(call.op)
    ensures !RefusesLocally(r, call)
    ensures Entitled(s.hist + [Last(s.hist)], call, start)
    ensures draw.id !in s.drawn && draw.id !in s.d.secrets && s.titles.Keys <= s.drawn
    ensures vault.id == r.vaultId && vault.isPrivate == r.isPrivate && WellKeyed(r)
    ensures !call.op.Remove? ==> key == Some(r.key)
    ensures call.op.Export? ==> WrapsUnder(r, vault.wrapped, call.auth.password)
    ensures forall name :: !UpdatedNow(s, s, name)
  {
    PastHasEnded(r, s);
    EntitledStays(s.hist, s.hist + [Last(s.hist)], call, start);
    hide Listing, Represents, Valid, Bound, Reserved, VaultOk, HistoryOk;
  }

  /** The record is the stored row of that name. */
  ghost predicate RecordOf(r: Realm, s: System, record: Record, name: string) {
    && record.id in Rows(r, s) && record.payload == Rows(r, s)[record.id].payload
    && record.recordVersion == Rows(r, s)[record.id].recordVersion >= 1
    && record.id in s.titles && s.titles[record.id] == name && ValidPayload(record.payload)
  }

  /** What lookup by name finds, whatever the operation. */
  lemma LookupAgrees(
    r: Realm, s: System, call: Call, start: nat, vault: Vault, key: Option<Key>, draw: Draw, name: string)
    requires Reads(r, s, call, start, vault, key, draw)
    ensures s.hist != []
    ensures var m, f := Last(s.hist).contents, Find(draw.records, name, r.vaultId, key);
      && !f.Broken? && (f.Found? <==> name in m)
      && (f.Found? ==> RecordOf(r, s, f.record, name)
                       && Encodes(r, f.record.id, f.record.payload, name, m[name]))
  {
    FindAgrees(r, Rows(r, s), Last(s.hist).contents, draw.records, name, key);
    hide Represents, Listing, Encodes, Valid, Reserved, VaultOk, KeyOk;
    var f := Find(draw.records, name, r.vaultId, key);
    if f.Found? { RowIsNamed(r, s, f.record.id); }
  }

  /** Add posts a new payload exactly for a name the listing lacks. */
  lemma AddMoves(r: Realm, call: Call, start: nat, vault: Vault, name: string, text: string, draw: Draw)
    requires WellKeyed(r) && vault.id == r.vaultId && vault.isPrivate == r.isPrivate
    requires !Find(draw.records, name, r.vaultId, Some(r.key)).Broken?
    ensures var f := Find(draw.records, name, r.vaultId, Some(r.key));
      var move := AfterListAdd(call, start, vault, Some(r.key), name, text, draw);
      && (f.Found? ==> move == End(AlreadyExists))
      && (f.Missing? ==>
            && move.Go? && move.pc.Posting? && move.pc == Posting(call, start, draw.id, move.pc.payload)
            && Encodes(r, draw.id, move.pc.payload, name, text)
            && (ValidPayload(move.pc.payload) <==> AcceptableName(r, name)))
  {
    NewPayloadEncodes(r, draw.id, name, text, draw.nonce1, draw.nonce2);
    hide Encodes, NewPayload, ValidPayload, Find;
  }

  lemma AddIsGood(r: Realm, s: System, c: nat, call: Call, start: nat, vault: Vault, key: Option<Key>, draw: Draw)
    requires Reads(r, s, call, start, vault, key, draw) && call.op.Add?
    ensures GoodMove(r, s, c, call, start, AfterListAdd(call, start, vault, key, call.op.name, call.op.text, draw))
  {
    hide Reads, Encodes, ValidPayload, Find, Entitled, RecordOf, FileOk, GoodMove, AfterListAdd, PcOk, Take;
    LookupAgrees(r, s, call, start, vault, key, draw, call.op.name);
    KnowsCall(r, s, call, start, vault, key, draw);
    AddMoves(r, call, start, vault, call.op.name, call.op.text, draw);
    if call.op.name in Last(s.hist).contents {
      EndIsGood(r, s, c, call, start, AlreadyExists);
    } else {
      PostingIsGood(r, s, c, AfterListAdd(call, start, vault, key, call.op.name, call.op.text, draw).pc);
    }
  }

  lemma PostingIsGood(r: Realm, s: System, c: nat, pc: Pc)
    requires s.hist != [] && pc.Posting? && pc.call.op.Add? && WellFormed(pc.call) && pc.start < |s.hist|
    requires s.titles.Keys <= s.drawn
    requires pc.id !in s.drawn && pc.id !in s.d.secrets && Entitled(s.hist + [Last(s.hist)], pc.call, pc.start)
    requires Encodes(r, pc.id, pc.payload, pc.call.op.name, pc.call.op.text)
    requires (ValidPayload(pc.payload) <==> AcceptableName(r, pc.call.op.name)) && !RefusesLocally(r, pc.call)
    ensures GoodMove(r, s, c, pc.call, pc.start, Go(pc))
  {
    hide Encodes, ValidPayload, Entitled;
  }

  /** Get ends with the text of the record it finds. */
  lemma GetMoves(r: Realm, vault: Vault, name: string, draw: Draw, m: map<string, string>)
    requires vault.id == r.vaultId && vault.isPrivate == r.isPrivate
    requires var f := Find(draw.records, name, r.vaultId, Some(r.key));
      && !f.Broken? && (f.Found? <==> name in m)
      && (f.Found? ==> Encodes(r, f.record.id, f.record.payload, name, m[name]))
    ensures AfterListGet(vault, Some(r.key), name, draw) == End(if name in m then Value(m[name]) else NotFound)
  {
    hide Find, OpenText, TitleOf;
  }

  lemma GetIsGood(r: Realm, s: System, c: nat, call: Call, start: nat, vault: Vault, key: Option<Key>, draw: Draw)
    requires Reads(r, s, call, start, vault, key, draw) && call.op.Get?
    ensures GoodMove(r, s, c, call, start, AfterListGet(vault, key, call.op.name, draw))
  {
    hide Reads, Find, Encodes, Entitled, RecordOf, GoodMove, Take, PcOk, FileOk, AfterListGet;
    LookupAgrees(r, s, call, start, vault, key, draw, call.op.name);
    KnowsCall(r, s, call, start, vault, key, draw);
    var m, name := Last(s.hist).contents, call.op.name;
    GetMoves(r, vault, name, draw, m);
    EndIsGood(r, s, c, call, start, if name in m then Value(m[name]) else NotFound);
  }

  /** Update puts a resealed payload exactly for a name the listing has. */
  lemma UpdateMoves(
    r: Realm, call: Call, start: nat, read: nat, vault: Vault, name: string, text: string, draw: Draw, before: string)
    requires WellKeyed(r) && vault.id == r.vaultId && vault.isPrivate == r.isPrivate
    requires var f := Find(draw.records, name, r.vaultId, Some(r.key));
      && !f.Broken?
      && (f.Found? ==> Encodes(r, f.record.id, f.record.payload, name, before) && ValidPayload(f.record.payload))
    ensures var f := Find(draw.records, name, r.vaultId, Some(r.key));
      var move := AfterListUpdate(call, start, read, vault, Some(r.key), name, text, draw);
      && (f.Missing? ==> move == End(NotFound))
      && (f.Found? ==>
            && move.Go? && move.pc.Putting?
            && move.pc == Putting(call, start, read, f.record.id, move.pc.payload, f.record.recordVersion)
            && Encodes(r, f.record.id, move.pc.payload, name, text) && ValidPayload(move.pc.payload))
  {
    hide Encodes, Reseal, ValidPayload, Find;
    var f := Find(draw.records, name, r.vaultId, Some(r.key));
    if f.Found? { ResealEncodes(r, f.record, name, before, text, draw.nonce2); }
  }

  lemma UpdateIsGood(r: Realm, s: System, c: nat, call: Call, start: nat, vault: Vault, key: Option<Key>, draw: Draw)
    requires Reads(r, s, call, start, vault, key, draw) && call.op.Update?
    ensures s.hist != []
    ensures GoodMove(r, s, c, call, start,
                     AfterListUpdate(call, start, |s.hist| - 1, vault, key, call.op.name, call.op.text, draw))
  {
    hide Reads, Find, Encodes, ValidPayload, Entitled, GoodMove, Take, PcOk, FileOk, AfterListUpdate, RowsOf;
    LookupAgrees(r, s, call, start, vault, key, draw, call.op.name);
    KnowsCall(r, s, call, start, vault, key, draw);
    var m, name, read := Last(s.hist).contents, call.op.name, |s.hist| - 1;
    UpdateMoves(r, call, start, read, vault, name, call.op.text, draw, if name in m then m[name] else "");
    if name in m {
      PuttingIsGood(r, s, c, AfterListUpdate(call, start, read, vault, key, name, call.op.text, draw).pc);
    } else {
      EndIsGood(r, s, c, call, start, NotFound);
    }
  }

  lemma PuttingIsGood(r: Realm, s: System, c: nat, pc: Pc)
    requires s.hist != [] && pc.Putting? && pc.call.op.Update? && WellFormed(pc.call) && pc.start < |s.hist|
    requires pc.read == |s.hist| - 1 && Entitled(s.hist + [Last(s.hist)], pc.call, pc.start)
    requires pc.id in Rows(r, s) && pc.id in s.titles && s.titles[pc.id] == pc.call.op.name
    requires pc.version == Rows(r, s)[pc.id].recordVersion >= 1 && pc.call.op.name in Last(s.hist).contents
    requires Encodes(r, pc.id, pc.payload, pc.call.op.name, pc.call.op.text) && ValidPayload(pc.payload)
    requires !UpdatedNow(s, s, pc.call.op.name)
    ensures GoodMove(r, s, c, pc.call, pc.start, Go(pc))
  {
    hide Encodes, ValidPayload, Entitled;
    var t := Take(s, c, pc.call, pc.start, Go(pc));
    assert t.hist[pc.read] == Last(s.hist) && t.hist[pc.read + 1] == Last(s.hist);
    assert Rows(r, t) == Rows(r, s);
    assert Steady(t.hist, pc.call.op.name, pc.read, |t.hist| - 1);
  }

  lemma RemoveIsGood(r: Realm, s: System, c: nat, call: Call, start: nat, vault: Vault, key: Option<Key>, draw: Draw)
    requires Reads(r, s, call, start, vault, key, draw) && call.op.Remove?
    ensures s.hist != []
    ensures GoodMove(r, s, c, call, start,
                     AfterListRemove(call, start, |s.hist| - 1, vault, key, call.op.name, draw))
  {
    hide Reads, Encodes, ValidPayload, Entitled, Find, GoodMove, FileOk, PcOk, Take, RowsOf;
    LookupAgrees(r, s, call, start, vault, key, draw, call.op.name);
    KnowsCall(r, s, call, start, vault, key, draw);
    var f := Find(draw.records, call.op.name, r.vaultId, key);
    if f.Found? {
      DeletingIsGood(r, s, c, Deleting(call, start, |s.hist| - 1, f.record.id));
    } else {
      EndIsGood(r, s, c, call, start, NotFound);
    }
  }

  lemma DeletingIsGood(r: Realm, s: System, c: nat, pc: Pc)
    requires s.hist != [] && pc.Deleting? && pc.call.op.Remove? && WellFormed(pc.call) && pc.start < |s.hist|
    requires pc.read == |s.hist| - 1 && Entitled(s.hist + [Last(s.hist)], pc.call, pc.start)
    requires pc.id in Rows(r, s) && pc.id in s.titles && s.titles[pc.id] == pc.call.op.name
    requires pc.call.op.name in Last(s.hist).contents && !RefusesLocally(r, pc.call)
    ensures GoodMove(r, s, c, pc.call, pc.start, Go(pc))
  {
    hide Entitled, AbsentSince;
  }

  lemma ListIsGood(r: Realm, s: System, c: nat, call: Call, start: nat, vault: Vault, key: Option<Key>, draw: Draw)
    requires Reads(r, s, call, start, vault, key, draw) && call.op.List?
    ensures s.hist != []
    ensures GoodMove(r, s, c, call, start, AfterList(r.user, call, start, |s.hist| - 1, vault, key, draw))
  {
    SortedNamesListTheMap(r, Rows(r, s), Last(s.hist).contents, draw.records);
    KnowsCall(r, s, call, start, vault, key, draw);
    hide Reads, Lists, Sort, ListNames, Entitled, GoodMove, FileOk, RowsOf;
    EndIsGood(r, s, c, call, start, Names(Sort(ListNames(draw.records, r.vaultId, r.key).value)));
  }

  // ---------------------------------------------------------------- export

  lemma ListedRow(r: Realm, s: System, records: seq<Record>, i: nat)
    requires Core(r, s) && Listing(Rows(r, s), records) && i < |records|
    ensures RecordOk(r, s.titles, records[i])
    ensures records[i].id in Rows(r, s)
    ensures Rows(r, s)[records[i].id] == Secret(r.vaultId, records[i].payload, records[i].recordVersion)
  {
    assert ListedAt(Rows(r, s), records[i]);
    RowIsNamed(r, s, records[i].id);
  }

  lemma ListingIsDistinct(r: Realm, s: System, records: seq<Record>)
    requires Core(r, s) && Listing(Rows(r, s), records)
    ensures Distinct(records)
  {
    forall i, j | 0 <= i < j < |records| ensures !SameName(records[i].payload, records[j].payload) {
      ListedPair(r, s, records, i, j);
    }
  }

  lemma ListedPair(r: Realm, s: System, records: seq<Record>, i: nat, j: nat)
    requires Core(r, s) && Listing(Rows(r, s), records) && i < j < |records|
    ensures !SameName(records[i].payload, records[j].payload)
  {
    assert ListedAt(Rows(r, s), records[i]) && ListedAt(Rows(r, s), records[j]);
    var a, b := records[i].id, records[j].id;
    assert a in s.d.secrets && b in s.d.secrets && s.d.secrets[a].vaultId == s.d.secrets[b].vaultId;
    hide Represents, Bound, Reserved;
  }

  /** A listing, read back as rows, is the rows. */
  lemma ListingReadsBack(r: Realm, s: System, records: seq<Record>)
    requires Core(r, s) && Listing(Rows(r, s), records)
    ensures RowsOfRecords(r.vaultId, records) == Rows(r, s)
  {
    RowsOfRecordsExact(r.vaultId, records);
    forall i | 0 <= i < |records|
      ensures records[i].id in Rows(r, s)
              && Rows(r, s)[records[i].id] == Secret(r.vaultId, records[i].payload, records[i].recordVersion)
    {
      ListedRow(r, s, records, i);
    }
    hide Core;
    SameRowsAdded(r.vaultId, records, Rows(r, s), RowsOfRecords(r.vaultId, records));
  }

  /** A listing of the vault is a record set a later restore will accept. */
  lemma ListingIsRestorable(r: Realm, s: System, records: seq<Record>)
    requires Core(r, s) && Listing(Rows(r, s), records) && |records| <= MAX_RECORDS
    ensures RecordsOk(r, s.titles, records)
    ensures Picture(r, RowsOfRecords(r.vaultId, records)) == Last(s.hist).contents
  {
    forall i | 0 <= i < |records| ensures RecordOk(r, s.titles, records[i]) {
      ListedRow(r, s, records, i);
    }
    ListingIsDistinct(r, s, records);
    ListingReadsBack(r, s, records);
    PictureIs(r, Rows(r, s), Last(s.hist).contents);
    assert Represents(r, Rows(r, s), Last(s.hist).contents);
    hide Core, Represents, Listing, RecordOk, Distinct, Picture;
  }

  lemma {:induction false} DistinctNamesCount(names: seq<string>, m: map<string, string>)
    requires forall i, j | 0 <= i < j < |names| :: names[i] != names[j]
    requires forall name :: name in names <==> name in m
    ensures |names| == |m|
  {
    if names == [] {
      assert m == map[];
    } else {
      var n := |names| - 1;
      var init, rest := names[..n], m - {names[n]};
      assert names == init + [names[n]];
      DistinctNamesCount(init, rest);
      assert rest.Keys == m.Keys - {names[n]};
      assert |m| == |m.Keys| && |rest| == |rest.Keys|;
    }
  }

  lemma OneRecordPerName(r: Realm, rows: map<Uuid, Secret>, m: map<string, string>, records: seq<Record>)
    requires Represents(r, rows, m) && Listing(rows, records)
    ensures |records| == |m|
  {
    NamesOpen(r, rows, m, records);
    var names := NamesOf(records, r.vaultId, r.key).value;
    TitlesAreDistinct(r, rows, records, names);
    NamesCoverTheMap(r, rows, m, records, names);
    DistinctNamesCount(names, m);
  }

  lemma ExportedFileOk(r: Realm, s: System, vault: Vault, password: string, draw: Draw)
    requires Core(r, s) && Listing(Rows(r, s), draw.records) && |draw.records| <= MAX_RECORDS
    requires vault.id == r.vaultId && vault.isPrivate == r.isPrivate && WrapsUnder(r, vault.wrapped, password)
    ensures var file := MakeFile(r.user, vault, r.key, draw.records, draw.nonce1);
      && file.Some? && FileOk(r, s.titles, file.value)
      && PasswordOf(file.value) == password && FilePicture(r, file.value) == Last(s.hist).contents
  {
    hide Represents, Valid, VaultOk, Bound, Reserved, Listing, RecordsOk, WrapsUnder, PasswordOf, RecordsOf, ReadFile;
    hide Picture;
    ListingIsRestorable(r, s, draw.records);
    assert WellKeyed(r);
    hide Core;
    FileRoundTrip(r, vault, draw.records, draw.nonce1, password, password, false);
    var file := MakeFile(r.user, vault, r.key, draw.records, draw.nonce1).value;
    assert file.wrapped == vault.wrapped;
    hide MakeFile;
    forall attempt, replace
      ensures ReadFile(file, r.user, attempt, replace)
              == if attempt == password
                 then Ready(Backup(1, r.user, replace, r.vaultId, file.wrapped, r.isPrivate, draw.records))
                 else WrongPassword
    {
      FileRoundTrip(r, vault, draw.records, draw.nonce1, password, attempt, replace);
    }
  }

  lemma ExportMoves(r: Realm, call: Call, start: nat, read: nat, vault: Vault, draw: Draw)
    requires call.op.Export?
    requires |draw.records| <= MAX_RECORDS ==> MakeFile(r.user, vault, r.key, draw.records, draw.nonce1).Some?
    ensures AfterList(r.user, call, start, read, vault, Some(r.key), draw)
            == if |draw.records| > MAX_RECORDS then End(TooLarge)
               else End(Saved(MakeFile(r.user, vault, r.key, draw.records, draw.nonce1).value))
  {
    hide MakeFile;
  }

  lemma ExportIsGood(r: Realm, s: System, c: nat, call: Call, start: nat, vault: Vault, key: Option<Key>, draw: Draw)
    requires Reads(r, s, call, start, vault, key, draw) && call.op.Export?
    ensures s.hist != []
    ensures GoodMove(r, s, c, call, start, AfterList(r.user, call, start, |s.hist| - 1, vault, key, draw))
  {
    hide Reads, Entitled, MakeFile, WrapsUnder, FileOk, FilePicture, PasswordOf, GoodMove, PcOk, Take, AfterList;
    KnowsCall(r, s, call, start, vault, key, draw);
    ExportFinds(r, s, call, start, vault, key, draw);
    ExportMoves(r, call, start, |s.hist| - 1, vault, draw);
    if |draw.records| > MAX_RECORDS {
      EndIsGood(r, s, c, call, start, TooLarge);
    } else {
      EndIsGood(r, s, c, call, start, Saved(MakeFile(r.user, vault, r.key, draw.records, draw.nonce1).value));
    }
  }

  lemma ExportFinds(r: Realm, s: System, call: Call, start: nat, vault: Vault, key: Option<Key>, draw: Draw)
    requires Reads(r, s, call, start, vault, key, draw) && call.op.Export? && s.hist != []
    requires vault.id == r.vaultId && vault.isPrivate == r.isPrivate && call.auth.Password?
    requires WrapsUnder(r, vault.wrapped, call.auth.password)
    ensures |draw.records| == |Last(s.hist).contents|
    ensures |draw.records| <= MAX_RECORDS ==>
              var file := MakeFile(r.user, vault, r.key, draw.records, draw.nonce1);
              && file.Some? && FileOk(r, s.titles, file.value)
              && PasswordOf(file.value) == call.auth.password && FilePicture(r, file.value) == Last(s.hist).contents
  {
    hide Represents, Listing, PcOk, Valid, Bound, Reserved, VaultOk, WrapsUnder, MakeFile, FileOk, FilePicture;
    OneRecordPerName(r, Rows(r, s), Last(s.hist).contents, draw.records);
    if |draw.records| <= MAX_RECORDS { ExportedFileOk(r, s, vault, call.auth.password, draw); }
  }

  lemma AfterListIsGood(
    r: Realm, s: System, c: nat, call: Call, start: nat, vault: Vault, key: Option<Key>, draw: Draw)
    requires Reads(r, s, call, start, vault, key, draw)
    ensures s.hist != []
    ensures GoodMove(r, s, c, call, start, AfterList(r.user, call, start, |s.hist| - 1, vault, key, draw))
  {
    KnowsCall(r, s, call, start, vault, key, draw);
    hide Reads, GoodMove, Entitled, WrapsUnder;
    match call.op
    case Add(_, _) => AddIsGood(r, s, c, call, start, vault, key, draw);
    case Get(_) => GetIsGood(r, s, c, call, start, vault, key, draw);
    case Update(_, _) => UpdateIsGood(r, s, c, call, start, vault, key, draw);
    case Remove(_) => RemoveIsGood(r, s, c, call, start, vault, key, draw);
    case List => ListIsGood(r, s, c, call, start, vault, key, draw);
    case Export => ExportIsGood(r, s, c, call, start, vault, key, draw);
  }

  // -------------------------------------------------- steps that write

  /** Before and after a write: the past is kept, the restores are counted the same. */
  ghost predicate OneStep(s: System, t: System) {
    && Grows(s, t) && Last(t.hist).epoch == Last(s.hist).epoch
  }

  /** A finished call that stays in the epoch, and names at most a fresh id. */
  lemma CompleteIsOneStep(
    s: System, c: nat, call: Call, start: nat, read: nat, point: nat, outcome: Outcome, d: Database, moment: Moment,
    titles: map<Uuid, string>)
    requires s.hist != [] && read < |s.hist| && moment.epoch == Last(s.hist).epoch
    requires forall id | id in s.titles :: id in titles && titles[id] == s.titles[id]
    ensures OneStep(s, Complete(s, c, call, start, read, point, outcome, d, moment).(titles := titles))
  {
    CompleteIs(s, c, call, start, read, point, outcome, d, moment);
    hide Complete;
  }

  /** Rows not written keep their text, because a name has one row. */
  lemma UntouchedRow(r: Realm, s: System, t: System, id: Uuid)
    requires s.hist != [] && t.hist != [] && id in s.titles
    requires id in Rows(r, s) <==> id in Rows(r, t)
    requires id in Rows(r, s) ==>
               && Rows(r, t)[id] == Rows(r, s)[id] && SameText(Last(s.hist), Last(t.hist), s.titles[id])
               && !UpdatedNow(s, t, s.titles[id])
    ensures RowRely(r, s, t, id)
  {
  }

  /** The row that was written went with its name, or grew and is accounted for. */
  lemma WrittenRow(r: Realm, s: System, t: System, id: Uuid)
    requires s.hist != [] && t.hist != [] && id in s.titles && id in Rows(r, s)
    requires id !in Rows(r, t) ==> s.titles[id] !in Last(t.hist).contents
    requires id in Rows(r, t) ==> Rows(r, s)[id].recordVersion < Rows(r, t)[id].recordVersion
                                  && UpdatedNow(s, t, s.titles[id])
    ensures RowRely(r, s, t, id)
  {
    hide Overwritten;
  }

  lemma GrowsKeeps(s: System, t: System)
    requires Grows(s, t)
    ensures s.hist != [] && t.hist != [] && s.drawn <= t.drawn
    ensures forall id | id in s.titles :: id in t.titles
  {
  }

  /** The other rows of the vault keep their text when one name's text changes. */
  lemma OtherRow(r: Realm, s: System, t: System, written: Uuid, id: Uuid)
    requires Core(r, s) && t.hist != [] && written in Rows(r, s)
    requires written in s.titles && id in s.titles && id != written
    requires id in Rows(r, s) <==> id in Rows(r, t)
    requires id in Rows(r, s) ==> Rows(r, t)[id] == Rows(r, s)[id]
    requires forall n | n != s.titles[written] && n in Last(s.hist).contents ::
      && n in Last(t.hist).contents && Last(t.hist).contents[n] == Last(s.hist).contents[n]
      && !UpdatedNow(s, t, n)
    ensures RowRely(r, s, t, id)
  {
    if id in Rows(r, s) {
      RowIsNamed(r, s, id);
      RowsAreApart(r, s, id, written);
    }
    hide Core, RowsOf;
    UntouchedRow(r, s, t, id);
  }

  lemma StoredSound(r: Realm, hist: seq<Moment>, done: seq<Completed>, moment: Moment, e: Completed)
    requires hist != [] && HistoryOk(r, hist, done) && Writes(e)
    requires e.start <= e.read <= e.finish == e.point == |hist| - 1 && e.seen == hist[e.read].epoch
    requires Accepts(r, Last(hist), e) && moment == Effect(r, Last(hist), e)
    requires Entitled(hist, e.call, e.start) && (FoundRow(e) ==> e.call.op.name in hist[e.read].contents)
    requires e.call.op.Update? && hist[e.read].epoch == Last(hist).epoch
             ==> Steady(hist, e.call.op.name, e.read, e.finish)
                 && !Overwritten(done, e.call.op.name, e.read, e.finish)
    ensures HistoryOk(r, hist + [moment], done + [e])
  {
    hide HistoryOk, Effect, Accepts;
    var longer := hist + [moment];
    assert longer[..|hist|] == hist;
    assert forall i | 0 <= i < |hist| :: longer[i] == hist[i];
    assert longer[..e.finish + 1] == hist;
    assert Sound(r, longer, done, e);
    EndingHistory(r, hist, done, moment, e);
  }

  /** A call that ends with a write, the sequential map's write. */
  ghost predicate GoodWrite(r: Realm, s: System, e: Completed, moment: Moment) {
    && s.hist != [] && Writes(e)
    && e.start <= e.read <= e.finish == e.point == |s.hist| - 1 && e.seen == s.hist[e.read].epoch
    && Accepts(r, Last(s.hist), e) && moment == Effect(r, Last(s.hist), e)
    && Entitled(s.hist, e.call, e.start) && (FoundRow(e) ==> e.call.op.name in s.hist[e.read].contents)
    && (e.call.op.Update? && s.hist[e.read].epoch == Last(s.hist).epoch
        ==> Steady(s.hist, e.call.op.name, e.read, e.finish)
            && !Overwritten(s.done, e.call.op.name, e.read, e.finish))
  }

  lemma RelyGrows(r: Realm, s: System, t: System, mine: set<Uuid>)
    requires Rely(r, s, t, mine)
    ensures Grows(s, t)
  {
  }

  lemma GoodWriteWrites(r: Realm, s: System, e: Completed, moment: Moment)
    requires GoodWrite(r, s, e, moment)
    ensures Writes(e)
  {
    hide Accepts, Effect;
  }

  lemma StoredKeepsInv(r: Realm, s: System, t: System, c: nat, e: Completed, mine: set<Uuid>)
    requires Inv(r, s) && Core(r, t) && Rely(r, s, t, mine)
    requires t.pcs == s.pcs[c := Idle] && t.done == s.done + [e]
    requires GoodWrite(r, s, e, Last(t.hist))
    requires forall k | k in s.pcs && k != c && s.pcs[k].Posting? :: s.pcs[k].id !in mine
    ensures Inv(r, t)
  {
    hide Inv, Core, Represents, VaultOk, HistoryOk, FilesOk, Effect, Accepts, Entitled, Steady, RowRely, PcOk;
    InvParts(r, s, c);
    RelyGrows(r, s, t, mine);
    hide Rely;
    assert t.hist == s.hist + [Last(t.hist)];
    StoredSound(r, s.hist, s.done, Last(t.hist), e);
    hide GoodWrite;
    FilesStay(r, s, t) by { assert !e.outcome.Saved? by { GoodWriteWrites(r, s, e, Last(t.hist)); } }
    hide Grows;
    StepKeepsInv(r, s, t, c, Idle, mine) by { hide *; IdleIsOk(r, t); }
  }

  /** The write of a call that stores a name, seen as the map's. */
  lemma StoreIsGood(r: Realm, s: System, e: Completed)
    requires s.hist != [] && e.outcome.Stored? && (e.call.op.Add? || e.call.op.Update?)
    requires e.start <= e.read <= e.finish == e.point == |s.hist| - 1 && e.seen == s.hist[e.read].epoch
    requires e.call.op.Add? ==> e.call.op.name !in Last(s.hist).contents && AcceptableName(r, e.call.op.name)
    requires e.call.op.Update? ==> e.call.op.name in Last(s.hist).contents && e.call.op.name in s.hist[e.read].contents
    requires e.call.op.Update? && s.hist[e.read].epoch == Last(s.hist).epoch
             ==> Steady(s.hist, e.call.op.name, e.read, |s.hist| - 1)
                 && !Overwritten(s.done, e.call.op.name, e.read, |s.hist| - 1)
    requires Entitled(s.hist, e.call, e.start) && !RefusesLocally(r, e.call)
    ensures GoodWrite(r, s, e,
                      Last(s.hist).(contents := Last(s.hist).contents[e.call.op.name := e.call.op.text]))
  {
    hide Entitled, Steady;
  }

  lemma RemovalIsGood(r: Realm, s: System, e: Completed)
    requires s.hist != [] && e.outcome.Stored? && e.call.op.Remove? && e.call.op.name in Last(s.hist).contents
    requires e.start <= e.read <= e.finish == e.point == |s.hist| - 1 && e.seen == s.hist[e.read].epoch
    requires Entitled(s.hist, e.call, e.start) && e.call.op.name in s.hist[e.read].contents
    requires !RefusesLocally(r, e.call)
    ensures GoodWrite(r, s, e, Last(s.hist).(contents := Last(s.hist).contents - {e.call.op.name}))
  {
    hide Entitled;
  }

  // ------------------------------------------------------- POST /secrets

  lemma PostStatus(r: Realm, s: System, pc: Pc)
    requires Core(r, s) && pc.Posting? && PostOk(r, s, pc)
    ensures var (d, status) := CreateSecret(s.d, r.user, pc.id, pc.payload);
      var name := pc.call.op.name;
      && (status.Done? <==> AcceptableName(r, name) && name !in Last(s.hist).contents)
      && (status == VALIDATION <==> !AcceptableName(r, name))
      && (status == NAME_EXISTS <==> AcceptableName(r, name) && name in Last(s.hist).contents)
      && (status.Done? ==> d.vaults == s.d.vaults
                           && RowsOf(d, r.user) == Rows(r, s)[pc.id := Secret(r.vaultId, pc.payload, 1)]
                           && d.secrets.Keys == s.d.secrets.Keys + {pc.id})
  {
    CreateOnRows(s.d, r.user, pc.id, pc.payload);
    ClashMeansNameInUse(
      r, Rows(r, s), Last(s.hist).contents, pc.id, pc.payload, pc.call.op.name, pc.call.op.text);
    hide Represents, Bound, Reserved, Valid, ValidPayload, Clash, WrapsUnder, TitleOf, RowsOf;
  }

  lemma PostedCore(r: Realm, s: System, pc: Pc, t: System)
    requires Core(r, s) && pc.Posting? && PostOk(r, s, pc)
    requires CreateSecret(s.d, r.user, pc.id, pc.payload) == (t.d, Status.Done)
    requires t.titles == s.titles[pc.id := pc.call.op.name] && t.drawn == s.drawn && t.hist != []
    requires Last(t.hist) == Last(s.hist).(contents := Last(s.hist).contents[pc.call.op.name := pc.call.op.text])
    ensures Core(r, t)
  {
    var row := Secret(r.vaultId, pc.payload, 1);
    PostStatus(r, s, pc);
    CreateSecretKeepsValid(s.d, r.user, pc.id, pc.payload);
    PostedRows(r, s, pc, row);
    PostedReserved(r, s, pc, t);
    hide Represents, Valid, Bound, Encodes, ValidPayload, CreateSecret, WrapsUnder, Reserved, RowsOf;
  }

  lemma PostedReserved(r: Realm, s: System, pc: Pc, t: System)
    requires Core(r, s) && pc.Posting? && t.drawn == s.drawn
    requires t.d.secrets.Keys == s.d.secrets.Keys + {pc.id}
    requires RowsOf(t.d, r.user) == Rows(r, s)[pc.id := Secret(r.vaultId, pc.payload, 1)]
    ensures Reserved(r, t.d, t.drawn)
  {
    hide Represents, Valid, Bound, VaultOk;
    forall id | id in t.drawn && id in t.d.secrets ensures Owns(t.d, r.user, id) {
      if id != pc.id { assert id in Rows(r, s); }
      assert id in RowsOf(t.d, r.user);
    }
  }

  lemma PostedRows(r: Realm, s: System, pc: Pc, row: Secret)
    requires Core(r, s) && pc.Posting? && PostOk(r, s, pc) && row.payload == pc.payload
    requires pc.call.op.name !in Last(s.hist).contents
    ensures var rows := Rows(r, s)[pc.id := row];
      && Represents(r, rows, Last(s.hist).contents[pc.call.op.name := pc.call.op.text])
      && Bound(r, rows, s.titles[pc.id := pc.call.op.name])
  {
    AddRow(r, Rows(r, s), Last(s.hist).contents, pc.id, row, pc.call.op.name, pc.call.op.text);
    hide Represents, Valid, Reserved, VaultOk;
    var rows, titles := Rows(r, s)[pc.id := row], s.titles[pc.id := pc.call.op.name];
    forall id | id in rows ensures id in titles && Titled(r, rows, id, titles[id]) {
      if id != pc.id { assert Titled(r, Rows(r, s), id, s.titles[id]); }
    }
  }

  lemma PostedRely(r: Realm, s: System, t: System, pc: Pc)
    requires Core(r, s) && OneStep(s, t) && pc.Posting? && PostOk(r, s, pc)
    requires pc.call.op.name !in Last(s.hist).contents
    requires Last(t.hist).contents == Last(s.hist).contents[pc.call.op.name := pc.call.op.text]
    requires t.titles == s.titles[pc.id := pc.call.op.name]
    requires Rows(r, t) == Rows(r, s)[pc.id := Secret(r.vaultId, pc.payload, 1)]
    requires t.d.secrets.Keys == s.d.secrets.Keys + {pc.id}
    requires forall name :: !UpdatedNow(s, t, name)
    ensures Rely(r, s, t, {pc.id})
  {
    hide Core, RowRely, Encodes, ValidPayload, RowsOf, Grows, Titled, UpdatedNow;
    GrowsKeeps(s, t);
    forall id | id in s.titles ensures RowRely(r, s, t, id) {
      if id in Rows(r, s) { RowIsNamed(r, s, id); }
      UntouchedRow(r, s, t, id);
    }
  }

  lemma PostingKeepsInv(r: Realm, s: System, c: nat)
    requires Inv(r, s) && PcOf(s, c).Posting?
    ensures Consistent(s, PcOf(s, c)) && Inv(r, StepPosting(r, s, c, PcOf(s, c)))
  {
    InvParts(r, s, c);
    hide Inv, Core, Represents, VaultOk, HistoryOk, FilesOk, PcOk, PostOk, Entitled, CreateSecret, RowsOf, Valid;
    hide StepPosting;
    var pc := PcOf(s, c);
    PostingCall(r, s, pc);
    if CreateSecret(s.d, r.user, pc.id, pc.payload).1.Done? {
      PostDone(r, s, c, pc);
    } else {
      PostRefused(r, s, c, pc);
    }
  }

  lemma PostRefused(r: Realm, s: System, c: nat, pc: Pc)
    requires Inv(r, s) && Core(r, s) && s.hist != [] && pc.Posting? && pc.call.op.Add? && PostOk(r, s, pc)
    requires pc.start < |s.hist| && Entitled(s.hist, pc.call, pc.start) && !RefusesLocally(r, pc.call)
    requires !CreateSecret(s.d, r.user, pc.id, pc.payload).1.Done?
    ensures Inv(r, StepPosting(r, s, c, pc))
  {
    hide Inv, Core, PostOk, Entitled, CreateSecret, RowsOf, Report;
    PostStatus(r, s, pc);
    var status := CreateSecret(s.d, r.user, pc.id, pc.payload).1;
    var outcome := if status == NAME_EXISTS then AlreadyExists else Rejected;
    assert StepPosting(r, s, c, pc) == Report(s, c, pc.call, pc.start, outcome);
    hide StepPosting;
    ReportKeepsInv(r, s, c, pc.call, pc.start, outcome);
  }

  lemma PostDone(r: Realm, s: System, c: nat, pc: Pc)
    requires Inv(r, s) && pc == PcOf(s, c) && pc.Posting? && PcOk(r, s, pc) && Core(r, s)
    requires pc.call.op.Add? && CreateSecret(s.d, r.user, pc.id, pc.payload).1.Done?
    requires forall k | k in s.pcs && k != c && s.pcs[k].Posting? :: s.pcs[k].id != pc.id
    ensures Inv(r, StepPosting(r, s, c, pc))
  {
    hide Inv, Core, Entitled, CreateSecret, PcOk, PostOk, Represents, Valid, Complete, GoodWrite, RowsOf;
    PostingCall(r, s, pc);
    PostStatus(r, s, pc);
    var now, end, name := Last(s.hist), |s.hist| - 1, pc.call.op.name;
    var d := CreateSecret(s.d, r.user, pc.id, pc.payload).0;
    var moment := now.(contents := now.contents[name := pc.call.op.text]);
    CompleteIs(s, c, pc.call, pc.start, end, end, Stored, d, moment);
    var t := Complete(s, c, pc.call, pc.start, end, end, Stored, d, moment).(titles := s.titles[pc.id := name]);
    assert t == StepPosting(r, s, c, pc);
    hide StepPosting;
    var e := Completed(c, pc.call, Stored, pc.start, end, end, end, now.epoch);
    StoreIsGood(r, s, e);
    UpdatedByTheLast(r, s, t, e) by { InvParts(r, s, c); }
    hide UpdatedNow, HistoryOk;
    CompleteIsOneStep(s, c, pc.call, pc.start, end, end, Stored, d, moment, t.titles);
    hide OneStep, Grows, Rely;
    PostedCore(r, s, pc, t);
    PostedRely(r, s, t, pc);
    StoredKeepsInv(r, s, t, c, e, {pc.id});
  }

  lemma PostingCall(r: Realm, s: System, pc: Pc)
    requires pc.Posting? && PcOk(r, s, pc)
    ensures pc.call.op.Add? && pc.start < |s.hist| && Entitled(s.hist, pc.call, pc.start)
    ensures PostOk(r, s, pc) && pc.id !in s.titles && !RefusesLocally(r, pc.call)
  {
  }

  // ------------------------------------------------------- PUT /secrets/{id}

  lemma PutStatus(r: Realm, s: System, pc: Pc)
    requires Core(r, s) && pc.Putting? && PutOk(r, s, pc)
    ensures var (d, status) := UpdateSecret(s.d, r.user, pc.id, pc.payload, pc.version);
      var rows := Rows(r, s);
      && (status == NO_SECRET <==> pc.id !in rows)
      && (status == VERSION_CONFLICT <==> pc.id in rows && rows[pc.id].recordVersion != pc.version)
      && (status.Done? <==> pc.id in rows && rows[pc.id].recordVersion == pc.version)
      && (status.Done? ==> d.vaults == s.d.vaults
                           && RowsOf(d, r.user) == rows[pc.id := Secret(r.vaultId, pc.payload, pc.version + 1)]
                           && d.secrets.Keys == s.d.secrets.Keys)
  {
    hide Represents, Bound, Reserved, Valid, ValidPayload, Clash, WrapsUnder, TitleOf, Tracked, RowsOf, UpdateSecret;
    UpdateOnRows(s.d, r.user, pc.id, pc.payload, pc.version);
    if pc.id in Rows(r, s) {
      RowIsNamed(r, s, pc.id);
      OwnNameNeverClashes(
        r, Rows(r, s), Last(s.hist).contents, pc.id, pc.payload, pc.call.op.name, pc.call.op.text);
    }
  }

  lemma PutCore(r: Realm, s: System, pc: Pc, t: System)
    requires Core(r, s) && pc.Putting? && PutOk(r, s, pc) && pc.id in Rows(r, s)
    requires UpdateSecret(s.d, r.user, pc.id, pc.payload, pc.version) == (t.d, Status.Done)
    requires t.titles == s.titles && t.drawn == s.drawn && t.hist != []
    requires Last(t.hist) == Last(s.hist).(contents := Last(s.hist).contents[pc.call.op.name := pc.call.op.text])
    ensures Core(r, t)
  {
    PutStatus(r, s, pc);
    UpdateSecretKeepsValid(s.d, r.user, pc.id, pc.payload, pc.version);
    PutRows(r, s, pc, Secret(r.vaultId, pc.payload, pc.version + 1));
    SameIdsReserved(r, s, t);
    hide Represents, Valid, Bound, Encodes, ValidPayload, UpdateSecret, WrapsUnder, Tracked, Reserved, RowsOf;
  }

  lemma SameIdsReserved(r: Realm, s: System, t: System)
    requires Core(r, s) && t.drawn == s.drawn && t.d.secrets.Keys <= s.d.secrets.Keys
    requires forall id | id in Rows(r, s) && id in t.d.secrets :: id in Rows(r, t)
    ensures Reserved(r, t.d, t.drawn)
  {
    hide Represents, Valid, Bound, VaultOk;
    forall id | id in t.drawn && id in t.d.secrets ensures Owns(t.d, r.user, id) {
      assert id in Rows(r, s);
      assert id in Rows(r, t);
    }
  }

  lemma SameTitle(r: Realm, id: Uuid, p: Payload, name: string, text: string)
    requires Encodes(r, id, p, name, text)
    ensures TitleOf(r, id, p) == Some(name)
  {
  }

  lemma PutRows(r: Realm, s: System, pc: Pc, row: Secret)
    requires Core(r, s) && pc.Putting? && PutOk(r, s, pc) && pc.id in Rows(r, s) && row.payload == pc.payload
    ensures var rows := Rows(r, s)[pc.id := row];
      && Represents(r, rows, Last(s.hist).contents[pc.call.op.name := pc.call.op.text])
      && Bound(r, rows, s.titles)
  {
    hide Represents, Valid, Reserved, VaultOk, Tracked, ValidPayload, RowsOf, Encodes;
    RowIsNamed(r, s, pc.id);
    ChangeRow(r, Rows(r, s), Last(s.hist).contents, pc.id, row, pc.call.op.name, pc.call.op.text);
    SameTitle(r, pc.id, pc.payload, pc.call.op.name, pc.call.op.text);
    var rows := Rows(r, s)[pc.id := row];
    forall id | id in rows ensures id in s.titles && Titled(r, rows, id, s.titles[id]) {
      if id != pc.id { assert Titled(r, Rows(r, s), id, s.titles[id]); }
    }
  }

  lemma PutRely(r: Realm, s: System, pc: Pc, t: System)
    requires Core(r, s) && OneStep(s, t) && pc.Putting? && pc.call.op.Update? && pc.id in Rows(r, s)
    requires pc.id in s.titles && s.titles[pc.id] == pc.call.op.name
    requires Rows(r, s)[pc.id].recordVersion == pc.version
    requires Rows(r, t) == Rows(r, s)[pc.id := Secret(r.vaultId, pc.payload, pc.version + 1)]
    requires t.titles == s.titles && t.d.secrets.Keys == s.d.secrets.Keys
    requires Last(t.hist).contents == Last(s.hist).contents[pc.call.op.name := pc.call.op.text]
    requires forall name :: UpdatedNow(s, t, name) <==> name == pc.call.op.name
    ensures Rely(r, s, t, {})
  {
    hide Core, RowRely, UpdatedNow, RowsOf, Grows;
    GrowsKeeps(s, t);
    WrittenRow(r, s, t, pc.id);
    forall id | id in s.titles && id != pc.id ensures RowRely(r, s, t, id) {
      OtherRow(r, s, t, pc.id, id);
    }
  }

  lemma PuttingKeepsInv(r: Realm, s: System, c: nat)
    requires Inv(r, s) && PcOf(s, c).Putting?
    ensures Consistent(s, PcOf(s, c)) && Inv(r, StepPutting(r, s, c, PcOf(s, c)))
  {
    InvParts(r, s, c);
    var pc := PcOf(s, c);
    PutStatus(r, s, pc);
    if pc.id in Rows(r, s) && Rows(r, s)[pc.id].recordVersion == pc.version {
      PutDone(r, s, c, pc);
    } else {
      PutRefused(r, s, c, pc);
    }
  }

  lemma PutDone(r: Realm, s: System, c: nat, pc: Pc)
    requires Inv(r, s) && pc == PcOf(s, c) && pc.Putting? && PcOk(r, s, pc) && Core(r, s)
    requires UpdateSecret(s.d, r.user, pc.id, pc.payload, pc.version).1.Done?
    requires pc.call.op.Update? && pc.read < |s.hist|
    ensures Inv(r, StepPutting(r, s, c, pc))
  {
    hide Inv, Core, Entitled, UpdateSecret, PcOk, Steady, Represents, Valid, Complete, GoodWrite, Overwritten, RowsOf;
    hide Tracked, Encodes, ValidPayload;
    assert PutOk(r, s, pc) by { PutIsOk(r, s, pc); }
    PutStatus(r, s, pc);
    PutKnows(r, s, pc);
    hide PutOk;
    var now, end, name := Last(s.hist), |s.hist| - 1, pc.call.op.name;
    var d := UpdateSecret(s.d, r.user, pc.id, pc.payload, pc.version).0;
    var moment := now.(contents := now.contents[name := pc.call.op.text]);
    CompleteIs(s, c, pc.call, pc.start, pc.read, end, Stored, d, moment);
    var t := Complete(s, c, pc.call, pc.start, pc.read, end, Stored, d, moment);
    assert t == StepPutting(r, s, c, pc);
    hide StepPutting;
    var e := Completed(c, pc.call, Stored, pc.start, pc.read, end, end, s.hist[pc.read].epoch);
    StoreIsGood(r, s, e);
    UpdatedByTheLast(r, s, t, e) by { InvParts(r, s, c); }
    hide UpdatedNow, HistoryOk;
    CompleteIsOneStep(s, c, pc.call, pc.start, pc.read, end, Stored, d, moment, s.titles);
    assert t == t.(titles := s.titles);
    hide OneStep, Grows, Rely;
    PutCore(r, s, pc, t);
    PutRely(r, s, pc, t);
    StoredKeepsInv(r, s, t, c, e, {});
  }

  lemma PutIsOk(r: Realm, s: System, pc: Pc)
    requires pc.Putting? && PcOk(r, s, pc)
    ensures PutOk(r, s, pc)
  {
    hide PutOk;
  }

  /** What a put that is about to succeed has established. */
  lemma PutKnows(r: Realm, s: System, pc: Pc)
    requires Core(r, s) && pc.Putting? && PcOk(r, s, pc)
    requires pc.id in Rows(r, s) && Rows(r, s)[pc.id].recordVersion == pc.version
    ensures PutOk(r, s, pc) && pc.call.op.Update? && pc.start <= pc.read < |s.hist|
    ensures Entitled(s.hist, pc.call, pc.start)
    ensures pc.id in s.titles && s.titles[pc.id] == pc.call.op.name && pc.call.op.name in Last(s.hist).contents
    ensures pc.call.op.name in s.hist[pc.read].contents
    ensures s.hist[pc.read].epoch == Last(s.hist).epoch
            ==> Steady(s.hist, pc.call.op.name, pc.read, |s.hist| - 1)
                && !Overwritten(s.done, pc.call.op.name, pc.read, |s.hist| - 1)
  {
    hide Core, Entitled, Steady, Overwritten, RowsOf, Encodes, ValidPayload, Titled;
    RowIsNamed(r, s, pc.id);
  }

  lemma PutRefused(r: Realm, s: System, c: nat, pc: Pc)
    requires Inv(r, s) && pc == PcOf(s, c) && pc.Putting? && PcOk(r, s, pc) && Core(r, s)
    requires !UpdateSecret(s.d, r.user, pc.id, pc.payload, pc.version).1.Done?
    ensures Inv(r, StepPutting(r, s, c, pc))
  {
    hide Inv, Core, Entitled, UpdateSecret, RowsOf, Encodes, ValidPayload, Steady, Complete, FileOk;
    PutStatus(r, s, pc);
    var absent, name := pc.id !in Rows(r, s), pc.call.op.name;
    var point := if absent then AbsentMoment(s.hist, pc.read, name) else |s.hist| - 1;
    var outcome := if absent then Vanished else Conflict;
    CompleteIs(s, c, pc.call, pc.start, pc.read, point, outcome, s.d, Last(s.hist));
    var t := Complete(s, c, pc.call, pc.start, pc.read, point, outcome, s.d, Last(s.hist));
    assert t == StepPutting(r, s, c, pc);
    hide StepPutting;
    var e := Completed(c, pc.call, outcome, pc.start, pc.read, point, |s.hist| - 1, s.hist[pc.read].epoch);
    RefusalIsJustified(r, s, pc);
    if !absent { RowIsNamed(r, s, pc.id); }
    assert Accepts(r, s.hist[point], e);
    hide Accepts, PcOk, Progress, PutOk;
    EndQuietly(r, s, t, c, e);
  }

  /** Why a put was refused, when no restore intervened. */
  lemma RefusalIsJustified(r: Realm, s: System, pc: Pc)
    requires pc.Putting? && PutOk(r, s, pc)
    requires pc.id !in Rows(r, s) || Rows(r, s)[pc.id].recordVersion != pc.version
    ensures pc.start <= pc.read < |s.hist| && pc.call.op.name in s.hist[pc.read].contents
    ensures pc.id !in Rows(r, s) && SameRowsSince(s, pc.read) ==> AbsentSince(s.hist, pc.call.op.name, pc.read)
    ensures pc.id in Rows(r, s) && SameRowsSince(s, pc.read)
            ==> Overwritten(s.done, pc.call.op.name, pc.read, |s.hist| - 1)
  {
    hide RowsOf, Encodes, ValidPayload, Steady, Overwritten, AbsentSince;
  }

  // ---------------------------------------------------- DELETE /secrets/{id}

  lemma DeleteCore(r: Realm, s: System, pc: Pc, t: System)
    requires Core(r, s) && pc.Deleting? && pc.call.op.Remove? && pc.id in Rows(r, s)
    requires pc.id in s.titles && s.titles[pc.id] == pc.call.op.name
    requires t.d == RemoveSecret(s.d, r.user, pc.id).0 && t.titles == s.titles && t.drawn == s.drawn && t.hist != []
    requires Last(t.hist) == Last(s.hist).(contents := Last(s.hist).contents - {pc.call.op.name})
    ensures Core(r, t)
  {
    hide Represents, Valid, Reserved, WrapsUnder, Bound, RowsOf, RemoveSecret;
    RowIsNamed(r, s, pc.id);
    RemoveOnRows(s.d, r.user, pc.id);
    RemoveSecretKeepsValid(s.d, r.user, pc.id);
    DropRow(r, Rows(r, s), Last(s.hist).contents, pc.id, pc.call.op.name);
    RemovingShrinks(s.d, r.user, pc.id);
    SameIdsReserved(r, s, t);
    FewerRowsBound(r, Rows(r, s), s.titles, pc.id);
  }

  lemma RemovingShrinks(d: Database, user: Uuid, id: Uuid)
    ensures RemoveSecret(d, user, id).0.secrets.Keys <= d.secrets.Keys
    ensures forall k | k in RowsOf(d, user) && k in RemoveSecret(d, user, id).0.secrets ::
      k in RowsOf(RemoveSecret(d, user, id).0, user)
  {
  }

  lemma FewerRowsBound(r: Realm, rows: map<Uuid, Secret>, titles: map<Uuid, string>, id: Uuid)
    requires Bound(r, rows, titles)
    ensures Bound(r, rows - {id}, titles)
  {
    forall k | k in rows - {id} ensures k in titles && Titled(r, rows - {id}, k, titles[k]) {
      assert Titled(r, rows, k, titles[k]);
    }
  }

  lemma DeleteRely(r: Realm, s: System, pc: Pc, t: System)
    requires Core(r, s) && OneStep(s, t) && pc.Deleting? && pc.call.op.Remove? && pc.id in Rows(r, s)
    requires pc.id in s.titles && s.titles[pc.id] == pc.call.op.name
    requires Rows(r, t) == Rows(r, s) - {pc.id} && t.titles == s.titles && t.d.secrets.Keys <= s.d.secrets.Keys
    requires Last(t.hist).contents == Last(s.hist).contents - {pc.call.op.name}
    requires forall name :: !UpdatedNow(s, t, name)
    ensures Rely(r, s, t, {})
  {
    hide Core, RowRely, RowsOf, Grows, UpdatedNow;
    GrowsKeeps(s, t);
    WrittenRow(r, s, t, pc.id);
    forall id | id in s.titles && id != pc.id ensures RowRely(r, s, t, id) {
      OtherRow(r, s, t, pc.id, id);
    }
  }

  lemma DeletingKeepsInv(r: Realm, s: System, c: nat)
    requires Inv(r, s) && PcOf(s, c).Deleting?
    ensures Consistent(s, PcOf(s, c)) && Inv(r, StepDeleting(r, s, c, PcOf(s, c)))
  {
    InvParts(r, s, c);
    var pc := PcOf(s, c);
    RemoveOnRows(s.d, r.user, pc.id);
    if pc.id in Rows(r, s) {
      DeleteDone(r, s, c, pc);
    } else {
      DeleteRefused(r, s, c, pc);
    }
  }

  lemma DeleteDone(r: Realm, s: System, c: nat, pc: Pc)
    requires Inv(r, s) && pc == PcOf(s, c) && pc.Deleting? && PcOk(r, s, pc) && Core(r, s) && r.user in s.d.vaults
    requires pc.id in Rows(r, s) && pc.call.op.Remove? && pc.read < |s.hist|
    ensures Inv(r, StepDeleting(r, s, c, pc))
  {
    hide Inv, Core, Entitled, RemoveSecret, Represents, Valid, Complete, GoodWrite, RowsOf;
    RemoveOnRows(s.d, r.user, pc.id);
    RemovingShrinks(s.d, r.user, pc.id);
    RowIsNamed(r, s, pc.id);
    var now, end, name := Last(s.hist), |s.hist| - 1, pc.call.op.name;
    var d := RemoveSecret(s.d, r.user, pc.id).0;
    var moment := now.(contents := now.contents - {name});
    CompleteIs(s, c, pc.call, pc.start, pc.read, end, Stored, d, moment);
    var t := Complete(s, c, pc.call, pc.start, pc.read, end, Stored, d, moment);
    assert t == StepDeleting(r, s, c, pc);
    hide StepDeleting;
    var e := Completed(c, pc.call, Stored, pc.start, pc.read, end, end, s.hist[pc.read].epoch);
    RemovalIsGood(r, s, e);
    UpdatedByTheLast(r, s, t, e) by { InvParts(r, s, c); }
    hide UpdatedNow, HistoryOk;
    CompleteIsOneStep(s, c, pc.call, pc.start, pc.read, end, Stored, d, moment, s.titles);
    assert t == t.(titles := s.titles);
    hide OneStep, Grows, Rely, PcOk;
    DeleteCore(r, s, pc, t);
    DeleteRely(r, s, pc, t);
    StoredKeepsInv(r, s, t, c, e, {});
  }

  /** Why a delete was refused, when no restore intervened. */
  lemma MissIsJustified(r: Realm, s: System, pc: Pc)
    requires pc.Deleting? && PcOk(r, s, pc) && pc.id !in Rows(r, s)
    ensures pc.call.op.Remove? && pc.start <= pc.read < |s.hist| && Entitled(s.hist, pc.call, pc.start)
    ensures !RefusesLocally(r, pc.call)
    ensures pc.call.op.name in s.hist[pc.read].contents
    ensures SameRowsSince(s, pc.read) ==> AbsentSince(s.hist, pc.call.op.name, pc.read)
  {
    hide RowsOf, AbsentSince, Entitled;
  }

  lemma DeleteRefused(r: Realm, s: System, c: nat, pc: Pc)
    requires Inv(r, s) && pc == PcOf(s, c) && pc.Deleting? && PcOk(r, s, pc) && s.hist != [] && r.user in s.d.vaults
    requires pc.id !in Rows(r, s)
    ensures pc.call.op.Remove? && pc.read < |s.hist| && Inv(r, StepDeleting(r, s, c, pc))
  {
    hide Inv, PcOk, Entitled, RemoveSecret, RowsOf, Complete, FileOk;
    RemoveOnRows(s.d, r.user, pc.id);
    MissIsJustified(r, s, pc);
    var point := AbsentMoment(s.hist, pc.read, pc.call.op.name);
    CompleteIs(s, c, pc.call, pc.start, pc.read, point, Vanished, s.d, Last(s.hist));
    var t := Complete(s, c, pc.call, pc.start, pc.read, point, Vanished, s.d, Last(s.hist));
    assert t == StepDeleting(r, s, c, pc);
    hide StepDeleting;
    var e := Completed(c, pc.call, Vanished, pc.start, pc.read, point, |s.hist| - 1, s.hist[pc.read].epoch);
    assert Accepts(r, s.hist[point], e);
    hide Accepts, Progress;
    EndQuietly(r, s, t, c, e);
  }

  // ------------------------------------------------------------ PUT /vault/key

  lemma RewrappingKeepsInv(r: Realm, s: System, c: nat)
    requires Inv(r, s) && PcOf(s, c).Rewrapping?
    ensures PcOf(s, c).call.op.Rotate? && Inv(r, StepRewrapping(r, s, c, PcOf(s, c)))
  {
    InvParts(r, s, c);
    hide Inv, Represents, FilesOk, HistoryOk, Entitled, Valid, Bound, Reserved;
    RewrapDone(r, s, c, PcOf(s, c));
  }

  lemma RewrapDone(r: Realm, s: System, c: nat, pc: Pc)
    requires Inv(r, s) && pc == PcOf(s, c) && Core(r, s) && r.user in s.d.vaults && pc.Rewrapping?
    requires pc.call.op.Rotate? && pc.start < |s.hist| && Entitled(s.hist, pc.call, pc.start)
    requires WrapsUnder(r, pc.wrapped, pc.call.op.newPassword)
    ensures Inv(r, StepRewrapping(r, s, c, pc))
  {
    hide Inv, Core, Entitled, UpdateVaultKey, Complete, GoodWrite, RowsOf, WrapsUnder;
    WrapsValid(r, pc.wrapped, pc.call.op.newPassword);
    RewrapOnRows(s.d, r.user, pc.wrapped);
    var end := |s.hist| - 1;
    var d := UpdateVaultKey(s.d, r.user, pc.wrapped).0;
    var moment := Last(s.hist).(password := pc.call.op.newPassword);
    CompleteIs(s, c, pc.call, pc.start, end, end, Rekeyed, d, moment);
    var t := Complete(s, c, pc.call, pc.start, end, end, Rekeyed, d, moment);
    assert t == StepRewrapping(r, s, c, pc);
    hide StepRewrapping;
    var e := Completed(c, pc.call, Rekeyed, pc.start, end, end, end, s.hist[end].epoch);
    RekeyingIsGood(r, s, e);
    CompleteIsOneStep(s, c, pc.call, pc.start, end, end, Rekeyed, d, moment, s.titles);
    assert t == t.(titles := s.titles);
    RewrappedCore(r, s, t, pc);
    UpdatedByTheLast(r, s, t, e) by { InvParts(r, s, c); }
    QuietRely(r, s, t);
    hide OneStep, Grows, Rely;
    StoredKeepsInv(r, s, t, c, e, {});
  }

  lemma WrapsValid(r: Realm, w: WrappedKey, password: string)
    requires WrapsUnder(r, w, password)
    ensures ValidWrappedKey(w)
  {
  }

  lemma RekeyingIsGood(r: Realm, s: System, e: Completed)
    requires s.hist != [] && e.outcome.Rekeyed? && e.call.op.Rotate?
    requires e.start <= e.read <= e.finish == e.point == |s.hist| - 1 && e.seen == s.hist[e.read].epoch
    requires Entitled(s.hist, e.call, e.start)
    ensures GoodWrite(r, s, e, Last(s.hist).(password := e.call.op.newPassword))
  {
    hide Entitled;
  }

  lemma RewrappedCore(r: Realm, s: System, t: System, pc: Pc)
    requires Core(r, s) && pc.Rewrapping? && pc.call.op.Rotate? && WrapsUnder(r, pc.wrapped, pc.call.op.newPassword)
    requires t.d == UpdateVaultKey(s.d, r.user, pc.wrapped).0
    requires t.titles == s.titles && t.drawn == s.drawn && t.hist != []
    requires Last(t.hist) == Last(s.hist).(password := pc.call.op.newPassword)
    ensures Core(r, t)
  {
    UpdateVaultKeyKeepsValid(s.d, r.user, pc.wrapped);
    hide Valid, Represents, Bound;
    RewrapOnRows(s.d, r.user, pc.wrapped);
  }

  // --------------------------------------------------- POST /restore, POST /vault

  /** The backup that importing an exported file asks the server to restore. */
  function ImportedBackup(r: Realm, file: BackupFile, replace: bool): Backup {
    Backup(1, r.user, replace, r.vaultId, file.wrapped, r.isPrivate, RecordsOf(file))
  }

  /** Importing an exported file meets every condition of restore except, perhaps, replace. */
  lemma ImportIsAccepted(r: Realm, s: System, file: BackupFile, replace: bool)
    requires Core(r, s) && FileOk(r, s.titles, file)
    ensures Restore(s.d, r.user, ImportedBackup(r, file, replace)).1
            == if replace then Status.Done else VAULT_NOT_EMPTY
  {
    var records := RecordsOf(file);
    var b := ImportedBackup(r, file, replace);
    RestoreIsExact(s.d, r.user, b);
    assert ValidBackup(b) && OneMode(b) by {
      assert forall i | 0 <= i < |records| :: RecordOk(r, s.titles, records[i]);
    }
    forall i | 0 <= i < |records| && records[i].id in s.d.secrets ensures Owns(s.d, r.user, records[i].id) {
      assert RecordOk(r, s.titles, records[i]);
    }
    assert !Conflicts(s.d, r.user, b);
  }

  lemma ImportedBound(r: Realm, titles: map<Uuid, string>, file: BackupFile)
    requires FileOk(r, titles, file)
    ensures Bound(r, RowsOfRecords(r.vaultId, RecordsOf(file)), titles)
  {
    hide RecordOk, RowsOfRecords, WrapsUnder, ReadFile, TitleOf, Represents;
    var records := RecordsOf(file);
    var rows := RowsOfRecords(r.vaultId, records);
    RowsOfRecordsExact(r.vaultId, records);
    forall id | id in rows ensures id in titles && Titled(r, rows, id, titles[id]) {
      var i :| 0 <= i < |records| && records[i].id == id;
      RecordIsTitled(r, titles, records[i]);
    }
  }

  lemma RecordIsTitled(r: Realm, titles: map<Uuid, string>, record: Record)
    requires RecordOk(r, titles, record)
    ensures record.id in titles && TitleOf(r, record.id, record.payload) == Some(titles[record.id])
  {
    hide TitleOf;
  }

  lemma ImportedReserved(r: Realm, s: System, b: Backup, d: Database)
    requires Core(r, s) && Restore(s.d, r.user, b) == (d, Status.Done)
    ensures Reserved(r, d, s.drawn)
  {
    hide Restore, Valid, Represents, Bound, VaultOk;
    forall id | id in s.drawn && id in d.secrets ensures Owns(d, r.user, id) {
      RestoreBringsOnlyItsRecords(s.d, r.user, b, id);
    }
  }

  lemma FileMeans(r: Realm, titles: map<Uuid, string>, file: BackupFile)
    requires FileOk(r, titles, file)
    ensures Represents(r, RowsOfRecords(r.vaultId, RecordsOf(file)), FilePicture(r, file))
    ensures WrapsUnder(r, file.wrapped, PasswordOf(file))
  {
    hide Represents, WrapsUnder, RecordOk, ReadFile;
  }

  lemma ImportedCore(r: Realm, s: System, t: System, file: BackupFile)
    requires Core(r, s) && FileOk(r, s.titles, file)
    requires var (d, status) := Restore(s.d, r.user, ImportedBackup(r, file, true)); status.Done? && t.d == d
    requires t.titles == s.titles && t.drawn == s.drawn && t.hist != []
    requires Last(t.hist).contents == FilePicture(r, file) && Last(t.hist).password == PasswordOf(file)
    ensures Core(r, t)
  {
    hide Represents, Valid, Bound, Reserved, WrapsUnder, FileOk, Restore, RowsOf, RowsOfRecords, FilePicture, RecordsOf;
    hide PasswordOf;
    var b := ImportedBackup(r, file, true);
    RestoreOnRows(s.d, r.user, b);
    RestoreKeepsValid(s.d, r.user, b);
    FileMeans(r, s.titles, file);
    ImportedBound(r, s.titles, file);
    ImportedReserved(r, s, b, t.d);
  }

  lemma ImportedRely(r: Realm, s: System, t: System, file: BackupFile)
    requires Core(r, s) && Grows(s, t) && FileOk(r, s.titles, file)
    requires t.d == Restore(s.d, r.user, ImportedBackup(r, file, true)).0
    requires t.titles == s.titles && t.drawn == s.drawn && Last(t.hist).epoch == Last(s.hist).epoch + 1
    ensures Rely(r, s, t, {})
  {
    var records := RecordsOf(file);
    var b := ImportedBackup(r, file, true);
    forall id | FreshId(s, id) ensures FreshId(t, id) {
      forall i | 0 <= i < |records| ensures records[i].id != id {
        assert RecordOk(r, s.titles, records[i]);
      }
      OnlyMentionedIdsAppear(s.d, r.user, PostRestore(b), id);
    }
  }

  /** What reading an exported file leads to. */
  lemma ExportedReads(r: Realm, s: System, file: BackupFile, password: string, replace: bool)
    requires FilesOk(r, s.titles, s.done) && Exported(s, file)
    ensures FileOk(r, s.titles, file)
    ensures ReadFile(file, r.user, password, replace)
            == if password == PasswordOf(file) then Ready(ImportedBackup(r, file, replace)) else WrongPassword
  {
    assert FileOk(r, s.titles, file);
    hide ReadFile, RecordsOk, WrapsUnder, PasswordOf, RecordsOf;
  }

  lemma ImportingIsGood(r: Realm, s: System, e: Completed)
    requires s.hist != [] && e.outcome.Imported? && e.call.op.Import? && e.call.op.replace
    requires e.call.auth == Password(PasswordOf(e.call.op.file))
    requires e.start <= e.read <= e.finish == e.point == |s.hist| - 1 && e.seen == s.hist[e.read].epoch
    ensures GoodWrite(r, s, e,
                      Moment(FilePicture(r, e.call.op.file), PasswordOf(e.call.op.file), Last(s.hist).epoch + 1))
  {
    hide FilePicture, PasswordOf;
  }

  lemma ImportReports(r: Realm, s: System, c: nat, call: Call, start: nat)
    requires s.hist != [] && call.op.Import? && call.auth.Password?
    requires var (file, password) := (call.op.file, call.auth.password);
      && ReadFile(file, r.user, password, call.op.replace)
         == (if password == PasswordOf(file) then Ready(ImportedBackup(r, file, call.op.replace)) else WrongPassword)
      && (password != PasswordOf(file)
          || Restore(s.d, r.user, ImportedBackup(r, file, call.op.replace)).1 == VAULT_NOT_EMPTY)
    ensures StepImport(r, s, c, call, start)
            == Report(s, c, call, start,
                      if call.auth.password != PasswordOf(call.op.file) then BadPassword else VaultPresent)
  {
    hide ReadFile, PasswordOf, ImportedBackup, Restore, Report, FilePicture;
  }

  lemma ImportRefused(r: Realm, s: System, c: nat, call: Call, start: nat)
    requires Inv(r, s) && start < |s.hist| && WellFormed(call) && call.op.Import?
    requires call.auth.password != PasswordOf(call.op.file) || !call.op.replace
    ensures Inv(r, Report(s, c, call, start,
                          if call.auth.password != PasswordOf(call.op.file) then BadPassword else VaultPresent))
  {
    hide Inv, PasswordOf, Report;
    ReportKeepsInv(r, s, c, call, start,
                   if call.auth.password != PasswordOf(call.op.file) then BadPassword else VaultPresent);
  }

  lemma ImportKeepsInv(r: Realm, s: System, c: nat, call: Call, start: nat)
    requires Inv(r, s) && start < |s.hist| && WellFormed(call) && call.op.Import? && Exported(s, call.op.file)
    ensures Inv(r, StepImport(r, s, c, call, start))
  {
    InvParts(r, s, c);
    hide Inv, Core, Represents, FilesOk, HistoryOk, Exported, PcOk, FileOk, VaultOk, ReadFile, PasswordOf;
    hide ImportedBackup;
    hide FilePicture, Restore, StepImport, Report;
    var file, replace := call.op.file, call.op.replace;
    ExportedReads(r, s, file, call.auth.password, replace);
    ImportIsAccepted(r, s, file, replace);
    if call.auth.password == PasswordOf(file) && replace {
      ImportDone(r, s, c, call, start);
    } else {
      ImportReports(r, s, c, call, start);
      ImportRefused(r, s, c, call, start);
    }
  }

  lemma ImportDone(r: Realm, s: System, c: nat, call: Call, start: nat)
    requires Inv(r, s) && Core(r, s) && start < |s.hist| && WellFormed(call) && call.op.Import? && call.op.replace
    requires var file := call.op.file;
      && FileOk(r, s.titles, file) && call.auth == Password(PasswordOf(file))
      && ReadFile(file, r.user, PasswordOf(file), true) == Ready(ImportedBackup(r, file, true))
      && Restore(s.d, r.user, ImportedBackup(r, file, true)).1.Done?
    ensures Inv(r, StepImport(r, s, c, call, start))
  {
    hide Inv, Core, FileOk, ReadFile, PasswordOf, ImportedBackup, FilePicture, Restore, Represents;
    var file, end := call.op.file, |s.hist| - 1;
    var d := Restore(s.d, r.user, ImportedBackup(r, file, true)).0;
    var moment := Moment(FilePicture(r, file), PasswordOf(file), Last(s.hist).epoch + 1);
    CompleteIs(s, c, call, start, end, end, Imported, d, moment);
    var t := Complete(s, c, call, start, end, end, Imported, d, moment);
    assert t == StepImport(r, s, c, call, start);
    var e := Completed(c, call, Imported, start, end, end, end, s.hist[end].epoch);
    ImportingIsGood(r, s, e);
    hide Complete, StepImport, GoodWrite;
    ImportedCore(r, s, t, file);
    ImportedRely(r, s, t, file);
    hide Rely;
    StoredKeepsInv(r, s, t, c, e, {});
  }

  lemma InitializeKeepsInv(r: Realm, s: System, c: nat, call: Call, start: nat, draw: Draw)
    requires Inv(r, s) && start < |s.hist| && WellFormed(call) && call.op.Initialize? && FreshKdf(draw.kdf)
    ensures Inv(r, StepInitialize(r, s, c, call, start, draw))
  {
    InvParts(r, s, c);
    hide Inv, Core, Represents, FilesOk, HistoryOk;
    var other := r.(key := VaultKey(draw.serial));
    WrapKeepsKey(other, call.auth.password, draw.kdf, draw.nonce1);
    ReportKeepsInv(r, s, c, call, start, VaultPresent);
  }

  lemma CalledKeepsInv(r: Realm, s: System, c: nat, call: Call, start: nat, draw: Draw)
    requires Inv(r, s) && PcOf(s, c) == Called(call, start) && FreshKdf(draw.kdf)
    ensures Inv(r, StepCalled(r, s, c, call, start, draw))
  {
    InvParts(r, s, c);
    hide Inv, Core, Represents, FilesOk, HistoryOk;
    if call.op.Add? && call.op.name == "" && call.auth.Password? {
      ReportKeepsInv(r, s, c, call, start, RefusedLocally);
    } else if call.op.Import? {
      ImportKeepsInv(r, s, c, call, start);
    } else if call.op.Initialize? {
      InitializeKeepsInv(r, s, c, call, start, draw);
    } else {
      AfterVaultIsGood(r, s, c, call, start, draw);
      MoveKeepsInv(r, s, c, call, start, AfterVault(r, call, start, s.d.vaults[r.user], draw));
    }
  }

  // ------------------------------------------------------------- other users

  lemma ForeignReserved(r: Realm, s: System, user: Uuid, request: Request, d: Database)
    requires Core(r, s) && Enabled(r, s, Foreign(user, request)) && d == Handle(s.d, user, request).0
    requires RowsOf(d, r.user) == Rows(r, s)
    ensures Reserved(r, d, s.drawn)
  {
    hide Handle, Valid, Represents, Bound, VaultOk;
    forall id | id in s.drawn && id in d.secrets ensures Owns(d, r.user, id) {
      if id !in s.d.secrets { OnlyMentionedIdsAppear(s.d, user, request, id); }
      assert id in Rows(r, s);
      assert id in RowsOf(d, r.user);
    }
  }

  lemma ForeignCore(r: Realm, s: System, user: Uuid, request: Request, t: System)
    requires Core(r, s) && Enabled(r, s, Foreign(user, request)) && t == Next(r, s, Foreign(user, request))
    ensures Core(r, t) && Rows(r, t) == Rows(r, s)
    ensures forall id | FreshId(s, id) :: id !in t.d.secrets
  {
    hide Handle, Valid, Represents, Bound, Reserved, RowsOf, WrapsUnder;
    UsersAreIsolated(s.d, user, request, r.user);
    HandleKeepsValid(s.d, user, request);
    ForeignReserved(r, s, user, request, t.d);
    forall id | FreshId(s, id) ensures id !in t.d.secrets {
      OnlyMentionedIdsAppear(s.d, user, request, id);
    }
  }

  lemma OthersKeepInv(r: Realm, s: System, t: System)
    requires Inv(r, s) && Core(r, t) && Rely(r, s, t, {}) && t.pcs == s.pcs
    requires HistoryOk(r, t.hist, t.done) && FilesOk(r, t.titles, t.done)
    ensures Inv(r, t)
  {
    hide Core, PcOk, HistoryOk, FilesOk, Rely;
    forall c | c in t.pcs ensures PcOk(r, t, t.pcs[c]) {
      OthersKeep(r, s, t, {}, s.pcs[c]);
    }
  }

  lemma ForeignRely(r: Realm, s: System, t: System)
    requires Core(r, s) && s.hist != [] && HistoryOk(r, s.hist, s.done)
    requires t == s.(d := t.d, hist := s.hist + [Last(s.hist)]) && Rows(r, t) == Rows(r, s)
    requires forall id | FreshId(s, id) :: id !in t.d.secrets
    ensures Grows(s, t) && Rely(r, s, t, {})
  {
    hide Core, HistoryOk, RowsOf, Rely;
    assert t.hist[..|s.hist|] == s.hist && t.done[..|s.done|] == s.done;
    PastHasEnded(r, s);
    assert forall name :: UpdatedNow(s, t, name) == UpdatedNow(s, s, name);
    QuietRely(r, s, t);
  }

  lemma ForeignKeepsInv(r: Realm, s: System, user: Uuid, request: Request)
    requires Inv(r, s) && s.hist != [] && Enabled(r, s, Foreign(user, request))
    ensures Inv(r, Next(r, s, Foreign(user, request)))
  {
    InvParts(r, s, 0);
    hide Inv, Core, PcOk, HistoryOk, FileOk, RowsOf, Handle, Rely, Represents, VaultOk;
    var t := Next(r, s, Foreign(user, request));
    ForeignCore(r, s, user, request, t);
    ForeignRely(r, s, t);
    hide Grows;
    QuietHistory(r, s.hist, s.done);
    FilesStay(r, s, t);
    OthersKeepInv(r, s, t);
  }

  // -------------------------------------------------------------- every step

  lemma BegunIsOk(r: Realm, s: System, c: nat, call: Call)
    requires Inv(r, s) && s.hist != [] && Enabled(r, s, Begin(c, call))
    ensures var pc := Called(call, |s.hist| - 1);
      PcOk(r, Progress(s, c, s.d, Last(s.hist), pc).(drawn := s.drawn), pc)
  {
    hide Inv;
    var t := Progress(s, c, s.d, Last(s.hist), Called(call, |s.hist| - 1)).(drawn := s.drawn);
    if call.op.Import? {
      assert t.done[..|s.done|] == s.done && t.hist[..|s.hist|] == s.hist;
      ExportedStays(s, t, call.op.file);
    }
  }

  lemma BeginKeepsInv(r: Realm, s: System, c: nat, call: Call)
    requires Inv(r, s) && s.hist != [] && Enabled(r, s, Begin(c, call))
    ensures Inv(r, Next(r, s, Begin(c, call)))
  {
    BegunIsOk(r, s, c, call);
    hide Inv, PcOk, Exported;
    GoKeepsInv(r, s, c, Called(call, |s.hist| - 1), s.drawn);
  }

  lemma AbandonKeepsInv(r: Realm, s: System, c: nat)
    requires Inv(r, s)
    ensures Inv(r, Progress(s, c, s.d, Last(s.hist), Idle))
  {
    hide Inv, Core;
    GoKeepsInv(r, s, c, Idle, s.drawn) by { InvParts(r, s, c); }
  }

  lemma ListedKeepsInv(
    r: Realm, s: System, c: nat, call: Call, start: nat, vault: Vault, key: Option<Key>, draw: Draw)
    requires Inv(r, s) && Enabled(r, s, Proceed(c, draw)) && PcOf(s, c) == KnowsVault(call, start, vault, key)
    ensures Inv(r, Take(s, c, call, start, AfterList(r.user, call, start, |s.hist| - 1, vault, key, draw)))
  {
    InvParts(r, s, c);
    hide Inv, Core, Represents, FilesOk, HistoryOk, Take, AfterList, GoodMove;
    AfterListIsGood(r, s, c, call, start, vault, key, draw);
    MoveKeepsInv(r, s, c, call, start, AfterList(r.user, call, start, |s.hist| - 1, vault, key, draw));
  }

  lemma ProceedKeepsInv(r: Realm, s: System, c: nat, draw: Draw)
    requires Inv(r, s) && Enabled(r, s, Proceed(c, draw))
    ensures Inv(r, Step(r, s, c, draw))
  {
    hide Inv, Take, AfterList, StepCalled, StepRewrapping, StepPosting, StepPutting, StepDeleting, Listing;
    match PcOf(s, c)
    case Called(call, start) => CalledKeepsInv(r, s, c, call, start, draw);
    case KnowsVault(call, start, vault, key) => ListedKeepsInv(r, s, c, call, start, vault, key, draw);
    case Rewrapping(_, _, _) => RewrappingKeepsInv(r, s, c);
    case Posting(_, _, _, _) => PostingKeepsInv(r, s, c);
    case Putting(_, _, _, _, _, _) => PuttingKeepsInv(r, s, c);
    case Deleting(_, _, _, _) => DeletingKeepsInv(r, s, c);
  }

  /** Every enabled action, of any client or any other user, keeps the invariant. */
  lemma NextKeepsInv(r: Realm, s: System, a: Action)
    requires Inv(r, s) && Enabled(r, s, a)
    ensures s.hist != [] && Inv(r, Next(r, s, a))
  {
    InvParts(r, s, 0);
    hide Inv, Core, Represents, FilesOk, HistoryOk, PcOk, VaultOk, Step;
    match a
    case Begin(c, call) => BeginKeepsInv(r, s, c, call);
    case Abandon(c) => AbandonKeepsInv(r, s, c);
    case Foreign(user, request) => ForeignKeepsInv(r, s, user, request);
    case Proceed(c, draw) => ProceedKeepsInv(r, s, c, draw);
  }
}
