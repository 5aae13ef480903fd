/**
 Calls come to an end, and with the right answer: what every request of a client leads to, that no call takes
 more than three of them, and what each operation returns and leaves behind when nobody interferes.
 */
module Progress {
  import opened Wrappers
  import opened Crypto
  import opened Store
  import opened Client
  import opened BackupFiles
  import opened Protocol
  import opened ProtocolInvariant
  import opened ProtocolSteps
  import opened Linearizability
  import opened Guarantees
  import opened Backups
  import opened Rewinds

  /** The requests a call can still make. */
  function Steps(pc: Pc): nat {
    match pc
    case Idle => 0
    case Called(_, _) => 3
    case KnowsVault(_, _, _, _) => 2
    case _ => 1
  }

  /** The moment at which the rows were listed that a request being made now is based on. */
  function ListedAtMoment(pc: Pc, now: nat): nat {
    if pc.Putting? || pc.Deleting? then pc.read else now
  }

  /** One moment has passed, and nobody but client c has moved. */
  ghost predicate OneRequest(s: System, t: System, c: nat) {
    s.hist != [] && |t.hist| == |s.hist| + 1 && s.hist <= t.hist && OthersSame(s, t, c)
  }

  /** The call has ended with this request, and that is on record. */
  ghost predicate Ended(s: System, t: System, c: nat, pc: Pc)
    requires !pc.Idle?
  {
    && OneRequest(s, t, c) && PcOf(t, c).Idle? && |t.done| == |s.done| + 1 && s.done <= t.done
    && var e, now := t.done[|s.done|], |s.hist| - 1;
    e.client == c && e.call == pc.call && e.start == pc.start && e.finish == now && e.read == ListedAtMoment(pc, now)
  }

  /** The call goes on, one request nearer to its end, having changed nothing. */
  ghost predicate WentOn(s: System, t: System, c: nat, pc: Pc)
    requires !pc.Idle?
  {
    var next := PcOf(t, c);
    && OneRequest(s, t, c) && !next.Idle? && next.call == pc.call && next.start == pc.start && Steps(next) < Steps(pc)
    && t.done == s.done && t.d == s.d && t.titles == s.titles && t.hist == s.hist + [Last(s.hist)]
    && (next.Putting? || next.Deleting? ==> next.read == |s.hist| - 1)
  }

  lemma CompleteEnds(
    s: System, c: nat, pc: Pc, read: nat, point: nat, outcome: Outcome, d: Database, moment: Moment)
    requires !pc.Idle? && s.hist != [] && read < |s.hist| && read == ListedAtMoment(pc, |s.hist| - 1)
    ensures Ended(s, Complete(s, c, pc.call, pc.start, read, point, outcome, d, moment), c, pc)
  {
  }

  lemma ReportEnds(s: System, c: nat, pc: Pc, outcome: Outcome)
    requires !pc.Idle? && s.hist != [] && !pc.Putting? && !pc.Deleting?
    ensures Ended(s, Report(s, c, pc.call, pc.start, outcome), c, pc)
  {
  }

  /** A program counter that computation after pc's request may lead to. */
  predicate Follows(s: System, pc: Pc, next: Pc)
    requires !pc.Idle?
  {
    && !next.Idle? && next.call == pc.call && next.start == pc.start && Steps(next) < Steps(pc)
    && (next.Putting? || next.Deleting? ==> next.read == |s.hist| - 1)
  }

  lemma TakeMoves(s: System, c: nat, pc: Pc, move: Move)
    requires !pc.Idle? && s.hist != [] && !pc.Putting? && !pc.Deleting?
    requires move.Go? ==> Follows(s, pc, move.pc)
    ensures var t := Take(s, c, pc.call, pc.start, move);
      if move.End? then Ended(s, t, c, pc) else WentOn(s, t, c, pc)
  {
    if move.End? { ReportEnds(s, c, pc, move.outcome); }
    hide Report, Ended;
  }

  lemma AfterListFollows(r: Realm, s: System, pc: Pc, draw: Draw)
    requires pc.KnowsVault? && s.hist != []
    ensures var move := AfterList(r.user, pc.call, pc.start, |s.hist| - 1, pc.vault, pc.key, draw);
      move.Go? ==> Follows(s, pc, move.pc)
  {
    hide Find, NewPayload, Reseal, OpenText, ListNames, MakeFile, Sort;
  }

  lemma ImportEnds(r: Realm, s: System, c: nat, pc: Pc)
    requires pc.Called? && s.hist != [] && pc.call.op.Import? && pc.call.auth.Password?
    ensures Ended(s, StepImport(r, s, c, pc.call, pc.start), c, pc)
  {
    hide ReadFile, Restore, FilePicture;
  }

  lemma InitializeEnds(r: Realm, s: System, c: nat, pc: Pc, draw: Draw)
    requires pc.Called? && s.hist != [] && pc.call.op.Initialize? && pc.call.auth.Password?
    ensures Ended(s, StepInitialize(r, s, c, pc.call, pc.start, draw), c, pc)
  {
    hide Wrap, CreateVault;
  }

  lemma AfterVaultFollows(r: Realm, s: System, pc: Pc, vault: Vault, draw: Draw)
    requires pc.Called? && s.hist != []
    ensures var move := AfterVault(r, pc.call, pc.start, vault, draw);
      move.Go? ==> Follows(s, pc, move.pc)
  {
    hide Unlock, Wrap;
  }

  lemma CalledMoves(r: Realm, s: System, c: nat, pc: Pc, draw: Draw)
    requires pc.Called? && s.hist != [] && WellFormed(pc.call)
    ensures var t := StepCalled(r, s, c, pc.call, pc.start, draw);
      Ended(s, t, c, pc) || WentOn(s, t, c, pc)
  {
    hide StepImport, StepInitialize, AfterVault, Report, Take, Ended, WentOn, Follows;
    ReportEnds(s, c, pc, RefusedLocally);
    ReportEnds(s, c, pc, Outcome.Failed);
    if pc.call.op.Import? { ImportEnds(r, s, c, pc); }
    if pc.call.op.Initialize? { InitializeEnds(r, s, c, pc, draw); }
    if r.user in s.d.vaults {
      AfterVaultFollows(r, s, pc, s.d.vaults[r.user], draw);
      TakeMoves(s, c, pc, AfterVault(r, pc.call, pc.start, s.d.vaults[r.user], draw));
    }
  }

  lemma WritesEnd(r: Realm, s: System, c: nat, pc: Pc)
    requires s.hist != [] && Consistent(s, pc)
    ensures pc.Rewrapping? ==> Ended(s, StepRewrapping(r, s, c, pc), c, pc)
    ensures pc.Posting? ==> Ended(s, StepPosting(r, s, c, pc), c, pc)
    ensures pc.Putting? ==> Ended(s, StepPutting(r, s, c, pc), c, pc)
    ensures pc.Deleting? ==> Ended(s, StepDeleting(r, s, c, pc), c, pc)
  {
    hide UpdateVaultKey, CreateSecret, UpdateSecret, RemoveSecret;
  }

  /**
   Every request of a client either ends its call, which is then on record once, with the client, the call, the
   moment it began, the moment its rows were listed and the present one as its end; or it brings the call one
   request nearer to its end and changes nothing. The other clients stand where they stood.
   */
  lemma RequestsMakeProgress(r: Realm, s: System, c: nat, draw: Draw)
    requires s.hist != [] && Enabled(r, s, Proceed(c, draw))
    ensures var t, pc := Next(r, s, Proceed(c, draw)), PcOf(s, c); Ended(s, t, c, pc) || WentOn(s, t, c, pc)
  {
    var pc := PcOf(s, c);
    hide AfterList, StepCalled, StepRewrapping, StepPosting, StepPutting, StepDeleting, Take, Ended, WentOn, Follows;
    match pc
    case Called(_, _) => CalledMoves(r, s, c, pc, draw);
    case KnowsVault(_, _, _, _) =>
      AfterListFollows(r, s, pc, draw);
      TakeMoves(s, c, pc, AfterList(r.user, pc.call, pc.start, |s.hist| - 1, pc.vault, pc.key, draw));
    case _ => WritesEnd(r, s, c, pc);
  }

  /** What the other actions do: a call begins, or is given up without a trace, or another user is served. */
  lemma OtherActions(r: Realm, s: System, a: Action)
    requires s.hist != [] && Enabled(r, s, a) && !a.Proceed?
    ensures var t := Next(r, s, a);
      && t.done == s.done && t.titles == s.titles && t.drawn == s.drawn && t.hist == s.hist + [Last(s.hist)]
      && (a.Begin? ==> t.d == s.d && OthersSame(s, t, a.client) && PcOf(t, a.client) == Called(a.call, |s.hist| - 1))
      && (a.Abandon? ==> t.d == s.d && OthersSame(s, t, a.client) && PcOf(t, a.client).Idle?)
      && (a.Foreign? ==> forall k :: PcOf(t, k) == PcOf(s, k))
  {
    hide Handle;
  }

  /** One row that does not parse fails every operation that reads the listing. */
  lemma UnparsableListingFails(
    user: Uuid, call: Call, start: nat, read: nat, vault: Vault, key: Option<Key>, draw: Draw)
    requires call.op.Add? || call.op.Get? || call.op.Update? || call.op.Remove? || call.op.List?
    requires exists i | 0 <= i < |draw.records| :: !Readable(draw.records[i].payload)
    ensures AfterList(user, call, start, read, vault, key, draw) == End(Outcome.Failed)
  {
    var i :| 0 <= i < |draw.records| && !Readable(draw.records[i].payload);
    ReadableParses(draw.records[i]);
    assert !AllParse(draw.records);
  }

  /** Nothing keeps a client from giving up or dying, or another user from being served, at any moment. */
  lemma EnvironmentIsFree(r: Realm, s: System, c: nat, user: Uuid, request: Request)
    ensures Enabled(r, s, Abandon(c))
    ensures user != r.user && (forall id | id in s.drawn :: !Mentions(request, id)) ==>
              Enabled(r, s, Foreign(user, request))
    ensures s.hist != [] && Enabled(r, s, Foreign(user, request)) ==>
              Next(r, s, Foreign(user, request)).d == Handle(s.d, user, request).0
  {
    hide Handle;
  }

  // ------------------------------------------------------------- whole runs

  /** How many requests client c makes. */
  function Requests(actions: seq<Action>, c: nat): nat {
    if actions == [] then 0
    else (if actions[0].Proceed? && actions[0].client == c then 1 else 0) + Requests(actions[1..], c)
  }

  predicate GivesUp(actions: seq<Action>, c: nat) {
    exists i | 0 <= i < |actions| :: actions[i].Abandon? && actions[i].client == c
  }

  /** Among the calls finished since is that one. */
  ghost predicate Finished(s: System, t: System, c: nat, call: Call, start: nat) {
    exists j :: |s.done| <= j < |t.done| && t.done[j].client == c && t.done[j].call == call && t.done[j].start == start
  }

  lemma FinishedLater(s: System, t: System, u: System, c: nat, call: Call, start: nat)
    requires t.done <= u.done
    ensures Finished(s, t, c, call, start) ==> Finished(s, u, c, call, start)
    ensures s.done <= t.done && Finished(t, u, c, call, start) ==> Finished(s, u, c, call, start)
  {
    if Finished(s, t, c, call, start) {
      var j :| |s.done| <= j < |t.done| && t.done[j].client == c && t.done[j].call == call && t.done[j].start == start;
      assert u.done[j] == t.done[j];
    }
  }

  /** Any other action leaves client c where it is; it cannot begin another call meanwhile. */
  lemma OthersWait(r: Realm, s: System, a: Action, c: nat)
    requires s.hist != [] && Enabled(r, s, a) && !PcOf(s, c).Idle?
    requires a.Foreign? || a.client != c || a.Begin?
    ensures PcOf(Next(r, s, a), c) == PcOf(s, c)
  {
    if a.Proceed? { RequestsMakeProgress(r, s, a.client, a.draw); } else { OtherActions(r, s, a); }
    hide Next;
  }

  /**
   Nobody waits for anybody: whatever the other clients and users do, a call under way that is not given up has
   ended, and is on record, after as many requests of its own client as it still can make, three at the most.
   */
  lemma {:induction false} CallsEnd(r: Realm, s: System, actions: seq<Action>, c: nat)
    requires s.hist != [] && Allowed(r, s, actions) && !PcOf(s, c).Idle? && !GivesUp(actions, c)
    requires Requests(actions, c) >= Steps(PcOf(s, c))
    ensures Finished(s, Run(r, s, actions), c, PcOf(s, c).call, PcOf(s, c).start)
    decreases |actions|
  {
    hide Next, Enabled;
    var a, rest := actions[0], actions[1..];
    var t, u := Next(r, s, a), Run(r, s, actions);
    NextExtends(r, s, a);
    RunExtends(r, t, rest);
    FinishedLater(s, t, u, c, PcOf(s, c).call, PcOf(s, c).start);
    assert !GivesUp(rest, c) by {
      assert forall i | 0 <= i < |rest| :: rest[i] == actions[i + 1];
    }
    if a.Proceed? && a.client == c {
      RequestsMakeProgress(r, s, c, a.draw);
      if PcOf(t, c).Idle? {
        assert t.done[|s.done|].client == c;
      } else {
        CallsEnd(r, t, rest, c);
      }
    } else {
      OthersWait(r, s, a, c);
      CallsEnd(r, t, rest, c);
    }
  }

  lemma {:induction false} FirstPart(r: Realm, s: System, actions: seq<Action>, n: nat)
    requires n <= |actions| && Allowed(r, s, actions)
    ensures Allowed(r, s, actions[..n])
    ensures Allowed(r, Run(r, s, actions[..n]), actions[n..])
            && Run(r, Run(r, s, actions[..n]), actions[n..]) == Run(r, s, actions)
    decreases n
  {
    hide Next, Enabled;
    if n == 0 {
      assert actions[..0] == [] && actions[0..] == actions;
    } else {
      assert actions[..n][0] == actions[0] && actions[..n][1..] == actions[1..][..n - 1];
      assert actions[1..][n - 1..] == actions[n..];
      FirstPart(r, Next(r, s, actions[0]), actions[1..], n - 1);
    }
  }

  /** Three requests are enough, in every run: action n begins the call, and it is not given up afterwards. */
  lemma EveryCallEnds(
    r: Realm, d: Database, m: map<string, string>, password: string, actions: seq<Action>, n: nat, c: nat, call: Call)
    requires Opens(r, d, m, password) && Allowed(r, Start(r, d, m, password), actions)
    requires n < |actions| && actions[n] == Begin(c, call)
    requires !GivesUp(actions[n + 1..], c) && Requests(actions[n + 1..], c) >= 3
    ensures var t := Run(r, Start(r, d, m, password), actions);
      exists j :: 0 <= j < |t.done| && t.done[j].client == c && t.done[j].call == call && t.done[j].start == n
  {
    var s := Start(r, d, m, password);
    StartIsOk(r, d, m, password);
    FirstPart(r, s, actions, n);
    RunExtends(r, s, actions[..n]);
    MomentsPass(r, s, actions[..n]);
    hide Opens, Start, Inv, Next, Enabled;
    var s1, rest := Run(r, s, actions[..n]), actions[n..];
    assert rest[0] == actions[n] && rest[1..] == actions[n + 1..];
    var s2 := Next(r, s1, rest[0]);
    OtherActions(r, s1, rest[0]);
    CallsEnd(r, s2, rest[1..], c);
  }

  /** Every action takes one moment. */
  lemma {:induction false} MomentsPass(r: Realm, s: System, actions: seq<Action>)
    requires s.hist != [] && Allowed(r, s, actions)
    ensures |Run(r, s, actions).hist| == |s.hist| + |actions|
    decreases |actions|
  {
    hide Next, Enabled;
    if actions != [] {
      if actions[0].Proceed? {
        RequestsMakeProgress(r, s, actions[0].client, actions[0].draw);
      } else {
        OtherActions(r, s, actions[0]);
      }
      MomentsPass(r, Next(r, s, actions[0]), actions[1..]);
    }
  }

  // ------------------------------------------------------ a call left alone

  /** Ids and key parameters for as many requests, used by nobody. */
  ghost predicate Unused(s: System, draws: seq<Draw>) {
    && (forall i | 0 <= i < |draws| ::
          draws[i].id !in s.drawn && draws[i].id !in s.d.secrets && FreshKdf(draws[i].kdf))
    && (forall i, j | 0 <= i < j < |draws| :: draws[i].id != draws[j].id)
  }

  lemma ImportUsesOnlyItsIds(r: Realm, s: System, c: nat, call: Call, start: nat, id: Uuid)
    requires Inv(r, s) && s.hist != [] && call.op.Import? && call.auth.Password? && Exported(s, call.op.file)
    requires id !in s.drawn && id !in s.d.secrets
    ensures var t := StepImport(r, s, c, call, start); id !in t.drawn && id !in t.d.secrets
  {
    hide Inv, ReadFile, Restore, RecordsOf, RowsOfRecords, RowsOf, PasswordOf, FilePicture, Exported, Valid, Unlock;
    var file := call.op.file;
    SavedFileRestores(r, s, file, call.auth.password, call.op.replace);
    var (d, status) := Restore(s.d, r.user, ImportedBackup(r, file, true));
    UnusedStaysUnused(r, s, file, id, d);
  }

  lemma CalledUsesOnlyItsIds(r: Realm, s: System, c: nat, call: Call, start: nat, draw: Draw, id: Uuid)
    requires Inv(r, s) && s.hist != [] && WellFormed(call) && (call.op.Import? ==> Exported(s, call.op.file))
    requires id !in s.drawn && id !in s.d.secrets
    ensures var t := StepCalled(r, s, c, call, start, draw); id !in t.drawn && id !in t.d.secrets
  {
    hide Inv, StepImport, Unlock, Wrap, Exported;
    if call.op.Import? { ImportUsesOnlyItsIds(r, s, c, call, start, id); }
  }

  lemma ListingUsesOnlyItsId(r: Realm, s: System, c: nat, pc: Pc, draw: Draw, id: Uuid)
    requires pc.KnowsVault? && s.hist != [] && id !in s.drawn && id !in s.d.secrets && id != draw.id
    ensures var t := Take(s, c, pc.call, pc.start,
                          AfterList(r.user, pc.call, pc.start, |s.hist| - 1, pc.vault, pc.key, draw));
      id !in t.drawn && id !in t.d.secrets
  {
    hide Find, NewPayload, Reseal, OpenText, ListNames, MakeFile, Sort;
  }

  lemma PostingUsesItsId(r: Realm, s: System, c: nat, pc: Pc, id: Uuid)
    requires Core(r, s) && pc.Posting? && pc.call.op.Add? && pc.id in s.drawn && id !in s.drawn && id !in s.d.secrets
    ensures var t := StepPosting(r, s, c, pc); id !in t.drawn && id !in t.d.secrets
  {
    CoreIsValid(r, s);
    hide Core, Valid, CreateSecret;
    OnlyMentionedIdsAppear(s.d, r.user, PostSecret(pc.id, pc.payload), id);
  }

  lemma PuttingUsesNoId(r: Realm, s: System, c: nat, pc: Pc, id: Uuid)
    requires Core(r, s) && pc.Putting? && Consistent(s, pc) && id !in s.drawn && id !in s.d.secrets
    ensures var t := StepPutting(r, s, c, pc); id !in t.drawn && id !in t.d.secrets
  {
    CoreIsValid(r, s);
    hide Core, Valid, UpdateSecret;
    OnlyMentionedIdsAppear(s.d, r.user, PutSecret(pc.id, pc.payload, pc.version), id);
  }

  lemma DeletingUsesNoId(r: Realm, s: System, c: nat, pc: Pc, id: Uuid)
    requires pc.Deleting? && Consistent(s, pc) && id !in s.drawn && id !in s.d.secrets
    ensures var t := StepDeleting(r, s, c, pc); id !in t.drawn && id !in t.d.secrets
  {
    RemovingShrinks(s.d, r.user, pc.id);
    hide RemoveSecret;
  }

  lemma RewrappingUsesNoId(r: Realm, s: System, c: nat, pc: Pc, id: Uuid)
    requires s.hist != [] && pc.Rewrapping? && Consistent(s, pc) && id !in s.drawn && id !in s.d.secrets
    ensures var t := StepRewrapping(r, s, c, pc); id !in t.drawn && id !in t.d.secrets
  {
    hide ValidWrappedKey;
  }

  lemma PostedIdIsDrawn(r: Realm, s: System, pc: Pc)
    requires PcOk(r, s, pc) && pc.Posting?
    ensures pc.id in s.drawn
  {
  }

  /** A request uses no id but the one it draws. */
  lemma OnlyTheDrawnIdIsUsed(r: Realm, s: System, c: nat, draw: Draw, id: Uuid)
    requires Inv(r, s) && s.hist != [] && Enabled(r, s, Proceed(c, draw))
    requires id !in s.drawn && id !in s.d.secrets && id != draw.id
    ensures var t := Next(r, s, Proceed(c, draw)); id !in t.drawn && id !in t.d.secrets
  {
    hide Inv, Core, PcOk, AfterList, StepCalled, StepRewrapping, StepPosting, StepPutting, StepDeleting, Take, Exported;
    hide HistoryOk, FilesOk, Represents, VaultOk, Listing, RowsOf;
    InvParts(r, s, c);
    var pc := PcOf(s, c);
    CalledMayImport(r, s, pc);
    match pc
    case Called(call, start) => CalledUsesOnlyItsIds(r, s, c, call, start, draw, id);
    case KnowsVault(_, _, _, _) => ListingUsesOnlyItsId(r, s, c, pc, draw, id);
    case Rewrapping(_, _, _) => RewrappingUsesNoId(r, s, c, pc, id);
    case Posting(_, _, _, _) =>
      PostedIdIsDrawn(r, s, pc);
      PostingUsesItsId(r, s, c, pc, id);
    case Putting(_, _, _, _, _, _) => PuttingUsesNoId(r, s, c, pc, id);
    case Deleting(_, _, _, _) => DeletingUsesNoId(r, s, c, pc, id);
  }

  lemma CalledMayImport(r: Realm, s: System, pc: Pc)
    requires PcOk(r, s, pc)
    ensures pc.Called? && pc.call.op.Import? ==> Exported(s, pc.call.op.file)
  {
  }

  /** Whatever a client is about to do, the server lets it. */
  lemma CanProceed(r: Realm, s: System, c: nat, draw: Draw) returns (a: Action)
    requires Inv(r, s) && s.hist != [] && !PcOf(s, c).Idle?
    requires draw.id !in s.drawn && draw.id !in s.d.secrets && FreshKdf(draw.kdf)
    ensures a.Proceed? && a.client == c && a.draw.id == draw.id && Enabled(r, s, a)
  {
    var records := ListingExists(Rows(r, s));
    a := Proceed(c, draw.(records := records));
    InvParts(r, s, c);
    CalledIsConsistent(r, s, PcOf(s, c));
    hide Inv, Core, PcOk, Listing, RowsOf;
  }

  /** A run in which only client c moved, and its call has ended; until its last request all stayed as it was. */
  ghost predicate RanAlone(r: Realm, s: System, t: System, c: nat, pc: Pc)
    requires !pc.Idle?
  {
    && Reach(r, s, t) && Inv(r, t) && s.hist != [] && |s.hist| < |t.hist| && s.hist <= t.hist
    && PcOf(t, c).Idle? && |t.done| == |s.done| + 1 && s.done <= t.done
    && (var e := t.done[|s.done|];
        e.client == c && e.call == pc.call && e.start == pc.start && e.finish == |t.hist| - 2)
    && forall i | |s.hist| - 1 <= i < |t.hist| - 1 :: t.hist[i] == Last(s.hist)
  }

  lemma UnusedStays(r: Realm, s: System, c: nat, a: Action, draws: seq<Draw>)
    requires Inv(r, s) && s.hist != [] && draws != [] && Unused(s, draws)
    requires a.Proceed? && a.client == c && a.draw.id == draws[0].id && Enabled(r, s, a)
    ensures Unused(Next(r, s, a), draws[1..])
  {
    hide Inv, Enabled, Next;
    forall i | 0 <= i < |draws[1..]|
      ensures draws[1..][i].id !in Next(r, s, a).drawn && draws[1..][i].id !in Next(r, s, a).d.secrets
    {
      OnlyTheDrawnIdIsUsed(r, s, c, a.draw, draws[i + 1].id);
    }
  }

  lemma RanAloneOn(r: Realm, s: System, t: System, u: System, c: nat, pc: Pc, next: Pc)
    requires !pc.Idle? && WentOn(s, t, c, pc) && next == PcOf(t, c) && RanAlone(r, t, u, c, next) && Reach(r, s, t)
    ensures RanAlone(r, s, u, c, pc)
  {
    hide Reach, Inv, OthersSame;
    ReachOn(r, s, t, u);
    forall i | |s.hist| - 1 <= i < |u.hist| - 1 ensures u.hist[i] == Last(s.hist) {
      if i < |t.hist| - 1 { assert u.hist[i] == t.hist[i]; }
    }
  }

  lemma EndedAlone(r: Realm, s: System, t: System, c: nat, pc: Pc)
    requires !pc.Idle? && Ended(s, t, c, pc) && Reach(r, s, t) && Inv(r, t)
    ensures RanAlone(r, s, t, c, pc)
  {
    hide Reach, Inv;
    assert t.hist[|s.hist| - 1] == Last(s.hist);
  }

  lemma {:induction false} RunsAlone(r: Realm, s: System, c: nat, draws: seq<Draw>) returns (t: System)
    requires Inv(r, s) && s.hist != [] && !PcOf(s, c).Idle? && Unused(s, draws) && |draws| >= Steps(PcOf(s, c))
    ensures RanAlone(r, s, t, c, PcOf(s, c))
    decreases |draws|
  {
    var pc := PcOf(s, c);
    var a := CanProceed(r, s, c, draws[0]);
    var s1 := Next(r, s, a);
    NextKeepsInv(r, s, a);
    RequestsMakeProgress(r, s, c, a.draw);
    ReachNext(r, s, a);
    UnusedStays(r, s, c, a, draws);
    hide Inv, Enabled, Next, Reach, RanAlone, Unused;
    if PcOf(s1, c).Idle? {
      EndedAlone(r, s, s1, c, pc);
      t := s1;
    } else {
      assert s1.hist != [];
      t := RunsAlone(r, s1, c, draws[1..]);
      RanAloneOn(r, s, s1, t, c, pc, PcOf(s1, c));
    }
  }

  // ------------------------------------------------------- what each call answers

  /**
   What a call that nobody disturbs answers, and the map and password it leaves: operation by operation, from
   the map and password it finds.
   */
  ghost predicate Answers(r: Realm, m: Moment, call: Call, o: Outcome, after: Moment) {
    var p, expected := call.auth, if call.op.Import? then PasswordOf(call.op.file) else m.password;
    if RefusesLocally(r, call) then o == RefusedLocally && after == m
    else if p.Password? && !call.op.Initialize? && p.password != expected then o == BadPassword && after == m
    else match call.op
      case Add(name, text) =>
        if name in m.contents then o == AlreadyExists && after == m
        else if !r.isPrivate && !(1 <= |name| <= 255) then o == Rejected && after == m
        else o == Stored && after == m.(contents := m.contents[name := text])
      case Get(name) => o == (if name in m.contents then Value(m.contents[name]) else NotFound) && after == m
      case Update(name, text) =>
        if name in m.contents then o == Stored && after == m.(contents := m.contents[name := text])
        else o == NotFound && after == m
      case Remove(name) =>
        if name in m.contents then o == Stored && after == m.(contents := m.contents - {name})
        else o == NotFound && after == m
      case List => o.Names? && Lists(o.names, m.contents) && after == m
      case Open => o == Opened(r.key) && after == m
      case Rotate(next) => o == Rekeyed && after == m.(password := next)
      case Export =>
        && after == m
        && if |m.contents| > 10000 then o == TooLarge
           else o.Saved? && FilePicture(r, o.file) == m.contents && PasswordOf(o.file) == m.password
      case Import(file, replace) =>
        if replace then o == Imported && after == Moment(FilePicture(r, file), PasswordOf(file), m.epoch + 1)
        else o == VaultPresent && after == m
      case Initialize(_) => o == VaultPresent && after == m
  }

  /** What the record of a finished call leaves open when map and password stood still throughout. */
  lemma AnswerIsForced(r: Realm, m: Moment, e: Completed)
    requires WellFormed(e.call) && Accepts(r, m, e) && e.seen == m.epoch && !e.outcome.Conflict?
    requires forall name | name in m.contents :: AcceptableName(r, name)
    requires FoundRow(e) ==> e.call.op.name in m.contents
    requires e.call.auth.Password? && !e.call.op.Import? && !e.call.op.Initialize? && !NeedsNoPassword(e.outcome)
             ==> e.call.auth.password == m.password
    ensures Answers(r, m, e.call, e.outcome, Effect(r, m, e))
  {
    hide Lists, FilePicture, PasswordOf;
  }

  lemma NamesAreAcceptable(r: Realm, s: System)
    requires Inv(r, s) && s.hist != []
    ensures forall name | name in Last(s.hist).contents :: AcceptableName(r, name)
  {
    InvParts(r, s, 0);
    hide Inv, HistoryOk, FilesOk, PcOk, VaultOk;
    forall name | name in Last(s.hist).contents ensures AcceptableName(r, name) {
      var id :| Titled(r, Rows(r, s), id, name);
      RowIsNamed(r, s, id);
    }
  }

  /** Nothing has happened since the call began, and no other call has ended since. */
  ghost predicate StandsStill(s: System, pc: Pc)
    requires !pc.Idle?
  {
    && s.hist != [] && pc.start < |s.hist| && (forall i | pc.start <= i < |s.hist| :: s.hist[i] == Last(s.hist))
    && forall j | 0 <= j < |s.done| :: s.done[j].finish < pc.start
  }

  lemma StoodStill(r: Realm, s: System, t: System, c: nat, pc: Pc)
    requires !pc.Idle? && StandsStill(s, pc) && RanAlone(r, s, t, c, pc)
    ensures forall i | pc.start <= i < |t.hist| - 1 :: t.hist[i] == Last(s.hist)
    ensures forall j | 0 <= j < |s.done| :: t.done[j].finish < pc.start
  {
    hide Reach, Inv;
    forall i | pc.start <= i < |t.hist| - 1 ensures t.hist[i] == Last(s.hist) {
      if i < |s.hist| { assert t.hist[i] == s.hist[i]; }
    }
    forall j | 0 <= j < |s.done| ensures t.done[j].finish < pc.start {
      assert t.done[j] == s.done[j];
    }
  }

  /** The record of a call that ran alone, against the map and password it found. */
  lemma AloneIsUndisturbed(r: Realm, hist: seq<Moment>, done: seq<Completed>, j: nat, m: Moment)
    requires HistoryOk(r, hist, done) && j + 1 == |done| && done[j].finish == |hist| - 2
    requires forall i | done[j].start <= i < |hist| - 1 :: hist[i] == m
    requires forall k | 0 <= k < j :: done[k].finish < done[j].start
    ensures var e := done[j];
      && Accepts(r, m, e) && e.seen == m.epoch && !e.outcome.Conflict? && Last(hist) == Effect(r, m, e)
      && (FoundRow(e) ==> e.call.op.name in m.contents)
      && (e.call.auth.Password? && !e.call.op.Import? && !e.call.op.Initialize? && !NeedsNoPassword(e.outcome)
          ==> e.call.auth.password == m.password)
  {
    hide Accepts, Effect, Writes;
    var e := done[j];
    assert Sound(r, hist, done, e);
    assert hist[e.point] == m && hist[e.read] == m && hist[e.finish] == m;
    if !Writes(e) {
      LookersChangeNothing(r, m, e);
      assert !WrittenAt(done, e.finish);
      assert hist[e.finish + 1] == hist[e.finish];
    }
    if e.call.auth.Password? && !e.call.op.Import? && !e.call.op.Initialize? && !NeedsNoPassword(e.outcome) {
      var now := hist[..e.finish + 1];
      var i :| e.start <= i < |now| && now[i].password == e.call.auth.password;
      assert now[i] == hist[i];
    }
    hide HistoryOk, Entitled, Steady;
    assert !Overwritten(done, if e.call.op.Update? then e.call.op.name else "", e.read, e.finish);
    if e.outcome.Conflict? { ConflictIsAnUpdates(r, m, e); }
  }

  lemma ConflictIsAnUpdates(r: Realm, m: Moment, e: Completed)
    requires Accepts(r, m, e) && e.outcome.Conflict?
    ensures e.call.op.Update?
  {
  }

  /** With the agent's key, with a password, or, for removal, with neither. */
  predicate Offered(call: Call) {
    match call.auth
    case Holding => call.op.Add? || call.op.Get? || call.op.Update? || call.op.Remove? || call.op.List?
    case Password(_) => !call.op.Remove? && !call.op.List?
    case Anonymous => call.op.Remove?
  }

  /**
   From any reachable state, whatever calls of others are under way, an idle client can begin any call that is
   offered, and if the others hold still it ends, with the answer its operation owes it, leaving the map and the
   password its operation should leave.
   */
  lemma EachCallIsAnswered(r: Realm, s: System, c: nat, call: Call, draws: seq<Draw>)
    requires Inv(r, s) && s.hist != [] && PcOf(s, c).Idle? && Offered(call)
    requires call.op.Import? ==> Exported(s, call.op.file)
    requires |draws| == 3 && Unused(s, draws)
    ensures exists t :: Reach(r, s, t) && AnsweredBy(r, s, t, call)
  {
    hide Inv, Exported, Answers, Accepts, Effect;
    var begin := Begin(c, call);
    var s1 := Next(r, s, begin);
    NextKeepsInv(r, s, begin);
    ReachNext(r, s, begin);
    OtherActions(r, s, begin);
    SystemHasFinished(r, s);
    hide Next, Enabled, Reach, RanAlone;
    var t := RunsAlone(r, s1, c, draws);
    var e := t.done[|s.done|];
    AnswersAlone(r, s, s1, t, c, call);
    ReachOn(r, s, s1, t);
  }

  lemma SystemHasFinished(r: Realm, s: System)
    requires Inv(r, s) && s.hist != []
    ensures forall j | 0 <= j < |s.done| :: s.done[j].finish < |s.hist| - 1
  {
    hide HistoryOk, Inv;
    InvMeans(r, s);
    AllHaveFinished(r, s.hist, s.done);
  }

  /** The one call finished since is that call, answered and with the effect it should have. */
  ghost predicate AnsweredBy(r: Realm, s: System, t: System, call: Call) {
    && s.hist != [] && t.hist != [] && |t.done| == |s.done| + 1 && s.done <= t.done && t.done[|s.done|].call == call
    && Answers(r, Last(s.hist), call, t.done[|s.done|].outcome, Last(t.hist))
  }

  lemma RanAloneMeans(r: Realm, s: System, t: System, c: nat, pc: Pc)
    requires !pc.Idle? && RanAlone(r, s, t, c, pc)
    ensures s.hist != [] && |s.hist| < |t.hist| && |t.done| == |s.done| + 1 && s.done <= t.done
    ensures HistoryOk(r, t.hist, t.done)
    ensures var e := t.done[|s.done|]; e.call == pc.call && e.start == pc.start && e.finish == |t.hist| - 2
  {
    hide Inv, Reach, HistoryOk, Opens;
    InvMeans(r, t);
  }

  lemma AnswersAlone(r: Realm, s: System, s1: System, t: System, c: nat, call: Call)
    requires Inv(r, s) && s.hist != [] && WellFormed(call) && s1.hist == s.hist + [Last(s.hist)] && s1.done == s.done
    requires forall j | 0 <= j < |s.done| :: s.done[j].finish < |s.hist| - 1
    requires RanAlone(r, s1, t, c, Called(call, |s.hist| - 1))
    ensures AnsweredBy(r, s, t, call)
  {
    hide Inv, Reach, Accepts, Effect, Answers, HistoryOk, RanAlone, Opens;
    StoodStill(r, s1, t, c, Called(call, |s.hist| - 1));
    RanAloneMeans(r, s1, t, c, Called(call, |s.hist| - 1));
    AloneIsUndisturbed(r, t.hist, t.done, |s.done|, Last(s.hist));
    NamesAreAcceptable(r, s);
    AnswerIsForced(r, Last(s.hist), t.done[|s.done|]);
  }
}
