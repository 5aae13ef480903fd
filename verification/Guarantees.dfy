/** What the linearizable history means for the people who use the vault. */
module Guarantees {
  import opened Wrappers
  import opened Crypto
  import opened Store
  import opened Client
  import opened BackupFiles
  import opened Protocol
  import opened ProtocolInvariant
  import opened ProtocolSteps
  import opened Linearizability

  // ------------------------------------------------- the state, from the calls

  /** The effects of the finished calls, in the order in which they finished. */
  ghost function Committed(r: Realm, m: Moment, done: seq<Completed>): Moment {
    if done == [] then m else Effect(r, Committed(r, m, done[..|done| - 1]), done[|done| - 1])
  }

  /** Each moment is the first one with the effects of the calls that finished before it. */
  lemma {:induction false} MomentsAreCommitted(r: Realm, hist: seq<Moment>, done: seq<Completed>, k: nat, j: nat)
    requires HistoryOk(r, hist, done) && k < |hist| && j <= |done|
    requires forall a | 0 <= a < j :: done[a].finish < k
    requires forall a | j <= a < |done| :: done[a].finish >= k
    ensures hist[k] == Committed(r, hist[0], done[..j])
    decreases k
  {
    hide Effect, Accepts, Explained, Writes;
    if k > 0 {
      if j > 0 && done[j - 1].finish == k - 1 {
        MomentsAreCommitted(r, hist, done, k - 1, j - 1);
        assert done[..j][..j - 1] == done[..j - 1];
        assert Sound(r, hist, done, done[j - 1]);
        if !Writes(done[j - 1]) {
          assert !WrittenAt(done, k - 1);
          LookersChangeNothing(r, hist[k - 1], done[j - 1]);
        }
      } else {
        assert !WrittenAt(done, k - 1);
        MomentsAreCommitted(r, hist, done, k - 1, j);
      }
    }
  }

  lemma AllHaveFinished(r: Realm, hist: seq<Moment>, done: seq<Completed>)
    requires HistoryOk(r, hist, done)
    ensures forall a | 0 <= a < |done| :: done[a].finish < |hist| - 1
  {
    hide Explained, Accepts, Effect;
    forall a | 0 <= a < |done| ensures done[a].finish < |hist| - 1 {
      assert Sound(r, hist, done, done[a]);
    }
  }

  lemma SystemIsCommitted(r: Realm, t: System)
    requires Inv(r, t) && t.hist != []
    ensures Last(t.hist) == Committed(r, t.hist[0], t.done)
  {
    hide Inv, Committed, HistoryOk, Opens;
    InvMeans(r, t);
    AllHaveFinished(r, t.hist, t.done);
    MomentsAreCommitted(r, t.hist, t.done, |t.hist| - 1, |t.done|);
    assert t.done[..|t.done|] == t.done;
  }

  /** After any run, map and password are the effects of the finished calls in the order in which they finished. */
  lemma StateIsCommitted(r: Realm, d: Database, m: map<string, string>, password: string, actions: seq<Action>)
    requires Opens(r, d, m, password) && Allowed(r, Start(r, d, m, password), actions)
    ensures var t := Run(r, Start(r, d, m, password), actions);
      var end := Committed(r, Moment(m, password, 0), t.done);
      Opens(r, t.d, end.contents, end.password)
  {
    var s := Start(r, d, m, password);
    StartIsOk(r, d, m, password);
    RunKeepsInv(r, s, actions);
    RunExtends(r, s, actions);
    hide Opens, Inv, Allowed, Run, Committed;
    InvMeans(r, Run(r, s, actions));
    SystemIsCommitted(r, Run(r, s, actions));
  }

  // ---------------------------------------------------------------- rotation

  /** The password of the last finished rotation or import, or the first one. */
  function PasswordInForce(password: string, done: seq<Completed>): string {
    if done == [] then password
    else
      var before, last := PasswordInForce(password, done[..|done| - 1]), done[|done| - 1];
      if last.outcome.Rekeyed? && last.call.op.Rotate? then last.call.op.newPassword
      else if last.outcome.Imported? && last.call.op.Import? then PasswordOf(last.call.op.file)
      else before
  }

  lemma {:induction false} CommittedPassword(r: Realm, m: Moment, done: seq<Completed>)
    ensures Committed(r, m, done).password == PasswordInForce(m.password, done)
  {
    hide FilePicture, PasswordOf;
    if done != [] { CommittedPassword(r, m, done[..|done| - 1]); }
  }

  function WithoutRotations(done: seq<Completed>): seq<Completed> {
    if done == [] then []
    else
      var before, last := WithoutRotations(done[..|done| - 1]), done[|done| - 1];
      if last.outcome.Rekeyed? then before else before + [last]
  }

  lemma EffectOnContents(r: Realm, m: Moment, n: Moment, c: Completed)
    requires m.contents == n.contents
    ensures Effect(r, m, c).contents == Effect(r, n, c).contents
    ensures c.outcome.Rekeyed? ==> Effect(r, m, c).contents == m.contents
  {
    hide FilePicture;
  }

  lemma {:induction false} RotationsLeaveContents(r: Realm, m: Moment, done: seq<Completed>)
    ensures Committed(r, m, done).contents == Committed(r, m, WithoutRotations(done)).contents
  {
    hide Effect;
    if done != [] {
      var init, last := done[..|done| - 1], done[|done| - 1];
      RotationsLeaveContents(r, m, init);
      EffectOnContents(r, Committed(r, m, init), Committed(r, m, WithoutRotations(init)), last);
      assert (WithoutRotations(init) + [last])[..|WithoutRotations(init)|] == WithoutRotations(init);
    }
  }

  /**
   After any run the stored wrapped key opens under exactly one password, that of the last rotation (or
   import) the server accepted, and yields the one vault key; id and metadata mode are as at the start, and
   the rows mean what they would without the rotations.
   */
  lemma RotationKeepsMeaning(
    r: Realm, d: Database, m: map<string, string>, password: string, actions: seq<Action>, attempt: string)
    requires Opens(r, d, m, password) && Allowed(r, Start(r, d, m, password), actions)
    ensures var t := Run(r, Start(r, d, m, password), actions);
      && r.user in t.d.vaults && t.d.vaults[r.user].id == r.vaultId && t.d.vaults[r.user].isPrivate == r.isPrivate
      && Unlock(t.d.vaults[r.user].wrapped, r.user, attempt)
         == (if attempt == PasswordInForce(password, t.done) then Some(r.key) else None)
      && Represents(r, RowsOf(t.d, r.user), Committed(r, Moment(m, password, 0), WithoutRotations(t.done)).contents)
  {
    var s, m0 := Start(r, d, m, password), Moment(m, password, 0);
    StartIsOk(r, d, m, password);
    RunKeepsInv(r, s, actions);
    RunExtends(r, s, actions);
    hide Inv, Allowed, Run, Represents, Unlock, PasswordInForce, Committed, WithoutRotations, Valid, WrapsUnder;
    var t := Run(r, s, actions);
    InvMeans(r, t);
    SystemIsCommitted(r, t);
    CommittedPassword(r, m0, t.done);
    RotationsLeaveContents(r, m0, t.done);
    UnlocksExactly(r, t.d.vaults[r.user].wrapped, Last(t.hist).password, attempt);
  }

  // ----------------------------------------------------------- what is read

  /** What a get, a listing or an unlock may answer at that moment: the truth about it. */
  ghost predicate TrueAt(r: Realm, m: Moment, call: Call, o: Outcome) {
    if o.BadPassword? then call.auth.Password? && call.auth.password != m.password
    else match call.op
      case Get(name) => o == if name in m.contents then Value(m.contents[name]) else NotFound
      case List => o.Names? && Lists(o.names, m.contents)
      case Open => o == Opened(r.key) && call.auth == Password(m.password)
      case _ => false
  }

  lemma SoundReadIsTrue(r: Realm, m: Moment, e: Completed)
    requires Accepts(r, m, e) && (e.call.op.Get? || e.call.op.List? || e.call.op.Open?)
    ensures TrueAt(r, m, e.call, e.outcome)
  {
    hide Lists;
  }

  /**
   In every run, whatever the others do meanwhile, a finished get, listing or unlock told the truth about some
   moment between its beginning and its end; and unless it was called wrong, the password it was given was the
   one in force at some moment of the call.
   */
  lemma ReadsAreTrue(r: Realm, d: Database, m: map<string, string>, password: string, actions: seq<Action>, j: nat)
    requires Opens(r, d, m, password) && Allowed(r, Start(r, d, m, password), actions)
    requires var done := Run(r, Start(r, d, m, password), actions).done;
      j < |done| && (done[j].call.op.Get? || done[j].call.op.List? || done[j].call.op.Open?)
    ensures var t := Run(r, Start(r, d, m, password), actions);
      var e := t.done[j];
      && e.finish < |t.hist|
      && (exists i :: e.start <= i <= e.finish && TrueAt(r, t.hist[i], e.call, e.outcome))
      && (e.call.auth.Password? && !e.outcome.BadPassword? ==>
            exists i :: e.start <= i <= e.finish && t.hist[i].password == e.call.auth.password)
  {
    StartIsOk(r, d, m, password);
    RunKeepsInv(r, Start(r, d, m, password), actions);
    hide Opens, Inv, Allowed, Run, TrueAt;
    ReadIsTrue(r, Run(r, Start(r, d, m, password), actions), j);
  }

  lemma ReadIsTrue(r: Realm, t: System, j: nat)
    requires Inv(r, t) && j < |t.done|
    requires t.done[j].call.op.Get? || t.done[j].call.op.List? || t.done[j].call.op.Open?
    ensures var e := t.done[j];
      && e.finish < |t.hist|
      && (exists i :: e.start <= i <= e.finish && TrueAt(r, t.hist[i], e.call, e.outcome))
      && (e.call.auth.Password? && !e.outcome.BadPassword? ==>
            exists i :: e.start <= i <= e.finish && t.hist[i].password == e.call.auth.password)
  {
    hide Inv, Opens, Accepts, Effect, TrueAt;
    InvMeans(r, t);
    var e := t.done[j];
    assert Sound(r, t.hist, t.done, e);
    hide HistoryOk;
    SoundReadIsTrue(r, t.hist[e.point], e);
    if e.call.auth.Password? && !e.outcome.BadPassword? {
      ReadsRefuseNothing(r, t.hist[e.point], e);
      var now := t.hist[..e.finish + 1];
      var i :| e.start <= i < |now| && now[i].password == e.call.auth.password;
      assert now[i] == t.hist[i];
    }
  }

  lemma ReadsRefuseNothing(r: Realm, m: Moment, e: Completed)
    requires Accepts(r, m, e) && (e.call.op.Get? || e.call.op.List? || e.call.op.Open?) && !e.outcome.BadPassword?
    ensures !NeedsNoPassword(e.outcome)
  {
    hide Lists;
  }

  // ---------------------------------------------------------- no lost updates

  predicate NoImport(done: seq<Completed>, from: nat, to: nat) {
    forall k | 0 <= k < |done| && done[k].outcome.Imported? :: !(from <= done[k].finish < to)
  }

  lemma SameEpochStep(r: Realm, m: Moment, c: Completed)
    ensures Effect(r, m, c).epoch == m.epoch || c.outcome.Imported?
  {
    hide FilePicture;
  }

  /** A moment that differs from the one before was written by a finished call. */
  lemma ChangeHasWriter(r: Realm, hist: seq<Moment>, done: seq<Completed>, k: nat) returns (j: nat)
    requires HistoryOk(r, hist, done) && k + 1 < |hist| && hist[k + 1] != hist[k]
    ensures j < |done| && done[j].finish == k && Writes(done[j]) && hist[k + 1] == Effect(r, hist[k], done[j])
  {
    hide Effect, Accepts, Explained, Writes;
    assert WrittenAt(done, k);
    j :| 0 <= j < |done| && Writes(done[j]) && done[j].finish == k;
    assert Sound(r, hist, done, done[j]);
  }

  lemma {:induction false} SameEpoch(r: Realm, hist: seq<Moment>, done: seq<Completed>, from: nat, until: nat)
    requires HistoryOk(r, hist, done) && from <= until < |hist| && NoImport(done, from, until)
    ensures hist[from].epoch == hist[until].epoch
    decreases until
  {
    hide Effect, HistoryOk, Writes;
    if from != until {
      SameEpoch(r, hist, done, from, until - 1);
      if hist[until] != hist[until - 1] {
        var j := ChangeHasWriter(r, hist, done, until - 1);
        SameEpochStep(r, hist[until - 1], done[j]);
      }
    }
  }

  /** A stored call that adds, updates or removes the name. */
  predicate WroteName(c: Completed, name: string) {
    c.outcome.Stored? && (c.call.op.Add? || c.call.op.Update? || c.call.op.Remove?) && c.call.op.name == name
  }

  lemma WritesOfAName(r: Realm, hist: seq<Moment>, done: seq<Completed>, k: nat, name: string)
    requires HistoryOk(r, hist, done) && k < |done| && WroteName(done[k], name)
    ensures done[k].finish + 1 < |hist|
    ensures done[k].call.op.Add? ==> name !in hist[done[k].finish].contents
    ensures done[k].call.op.Remove? ==> name !in hist[done[k].finish + 1].contents
  {
    hide Explained;
    assert Sound(r, hist, done, done[k]);
  }

  /**
   A stored update overwrites only what its author has read: from its GET to its PUT nobody else added,
   updated or removed the name. And a version conflict is reported only when somebody did update it.
   */
  lemma UpdatesAreNeverLost(
    r: Realm, d: Database, m: map<string, string>, password: string, actions: seq<Action>, j: nat)
    requires Opens(r, d, m, password) && Allowed(r, Start(r, d, m, password), actions)
    requires var done := Run(r, Start(r, d, m, password), actions).done;
      j < |done| && done[j].call.op.Update? && NoImport(done, done[j].read, done[j].finish)
    ensures UpdateIsFaithful(Run(r, Start(r, d, m, password), actions).done, j)
  {
    StartIsOk(r, d, m, password);
    RunKeepsInv(r, Start(r, d, m, password), actions);
    hide Opens, Inv, Allowed, Run, UpdateIsFaithful;
    UpdateIsNotLost(r, Run(r, Start(r, d, m, password), actions), j);
  }

  /** A stored update had no write of its name between its GET and its PUT; a conflict had an update of it. */
  ghost predicate UpdateIsFaithful(done: seq<Completed>, j: nat)
    requires j < |done| && done[j].call.op.Update?
  {
    var e, name := done[j], done[j].call.op.name;
    && (e.outcome.Stored? ==> forall k | 0 <= k < |done| && WroteName(done[k], name) ::
          !(e.read <= done[k].finish < e.finish))
    && (e.outcome.Conflict? ==> exists k :: 0 <= k < |done| && IsUpdateOf(done[k], name)
                                            && e.read <= done[k].finish < e.finish)
  }

  lemma UpdateIsNotLost(r: Realm, t: System, j: nat)
    requires Inv(r, t) && j < |t.done| && t.done[j].call.op.Update?
    requires NoImport(t.done, t.done[j].read, t.done[j].finish)
    ensures UpdateIsFaithful(t.done, j)
  {
    InvMeans(r, t);
    hide Inv, Accepts, Effect, Entitled, Opens, WroteName;
    var e, name := t.done[j], t.done[j].call.op.name;
    assert Sound(r, t.hist, t.done, e);
    SameEpoch(r, t.hist, t.done, e.read, e.finish);
    if e.outcome.Stored? {
      hide HistoryOk;
      forall k | 0 <= k < |t.done| && WroteName(t.done[k], name)
        ensures !(e.read <= t.done[k].finish < e.finish)
      {
        WritesOfAName(r, t.hist, t.done, k, name);
        WriterIsUpdateOrNot(t.done[k], name);
      }
    }
  }

  lemma WriterIsUpdateOrNot(c: Completed, name: string)
    requires WroteName(c, name)
    ensures IsUpdateOf(c, name) || c.call.op.Add? || c.call.op.Remove?
  {
  }

  // ------------------------------------------------------------- unique names

  /** A removal of the name, or an import of a file without it. */
  ghost predicate TakesAway(r: Realm, c: Completed, name: string) {
    || (WroteName(c, name) && c.call.op.Remove?)
    || (c.outcome.Imported? && c.call.op.Import? && name !in FilePicture(r, c.call.op.file))
  }

  lemma NameStays(r: Realm, m: Moment, c: Completed, name: string)
    requires name in m.contents && !TakesAway(r, c, name)
    ensures name in Effect(r, m, c).contents
  {
    hide FilePicture;
  }

  lemma NameIsGone(r: Realm, hist: seq<Moment>, done: seq<Completed>, k: nat, name: string)
    requires HistoryOk(r, hist, done) && k < |done| && TakesAway(r, done[k], name)
    ensures done[k].finish + 1 < |hist| && name !in hist[done[k].finish + 1].contents
  {
    hide Explained, FilePicture;
    assert Sound(r, hist, done, done[k]);
  }

  lemma AddedNameIsPresent(r: Realm, hist: seq<Moment>, done: seq<Completed>, k: nat, name: string)
    requires HistoryOk(r, hist, done) && k < |done| && WroteName(done[k], name) && done[k].call.op.Add?
    ensures done[k].finish + 1 < |hist| && name in hist[done[k].finish + 1].contents
  {
    hide Explained;
    assert Sound(r, hist, done, done[k]);
  }

  /** A name that is there, and later is not, was taken away by a call that finished in between. */
  lemma {:induction false} NameWasTaken(
    r: Realm, hist: seq<Moment>, done: seq<Completed>, name: string, from: nat, until: nat) returns (k: nat)
    requires HistoryOk(r, hist, done) && from <= until < |hist|
    requires name in hist[from].contents && name !in hist[until].contents
    ensures k < |done| && from <= done[k].finish < until && TakesAway(r, done[k], name)
    decreases until
  {
    hide Effect, HistoryOk, Writes, TakesAway;
    if name in hist[until - 1].contents {
      k := ChangeHasWriter(r, hist, done, until - 1);
      if !TakesAway(r, done[k], name) { NameStays(r, hist[until - 1], done[k], name); }
    } else {
      k := NameWasTaken(r, hist, done, name, from, until - 1);
    }
  }

  lemma AddsAreApart(r: Realm, t: System, i: nat, j: nat, name: string) returns (k: nat)
    requires Inv(r, t) && i < j < |t.done|
    requires WroteName(t.done[i], name) && t.done[i].call.op.Add?
    requires WroteName(t.done[j], name) && t.done[j].call.op.Add?
    ensures i < k < j && TakesAway(r, t.done[k], name)
  {
    hide Inv, HistoryOk, Opens, WroteName, TakesAway;
    InvMeans(r, t);
    AddedNameIsPresent(r, t.hist, t.done, i, name);
    WritesOfAName(r, t.hist, t.done, j, name);
    FinishesInOrder(r, t.hist, t.done);
    k := NameWasTaken(r, t.hist, t.done, name, t.done[i].finish + 1, t.done[j].finish);
  }

  lemma FinishesInOrder(r: Realm, hist: seq<Moment>, done: seq<Completed>)
    requires HistoryOk(r, hist, done)
    ensures forall j, k | 0 <= j < k < |done| :: done[j].finish < done[k].finish
  {
    hide Sound;
  }

  /**
   In every run two clients' adds of one name can both succeed only if, between them, the name was removed or
   a backup without it imported; both having looked before either wrote is not enough.
   */
  lemma NamesAreAddedOnce(
    r: Realm, d: Database, m: map<string, string>, password: string, actions: seq<Action>, i: nat, j: nat, name: string)
    requires Opens(r, d, m, password) && Allowed(r, Start(r, d, m, password), actions)
    requires var done := Run(r, Start(r, d, m, password), actions).done;
      && i < j < |done|
      && WroteName(done[i], name) && done[i].call.op.Add? && WroteName(done[j], name) && done[j].call.op.Add?
    ensures exists k: nat :: i < k < j && TakesAway(r, Run(r, Start(r, d, m, password), actions).done[k], name)
  {
    StartIsOk(r, d, m, password);
    RunKeepsInv(r, Start(r, d, m, password), actions);
    hide Opens, Inv, Allowed, Run, TakesAway, WroteName;
    var k := AddsAreApart(r, Run(r, Start(r, d, m, password), actions), i, j, name);
  }

  // ---------------------------------------------------- not found any more

  ghost predicate AbsentWhile(hist: seq<Moment>, name: string, from: nat, until: nat) {
    exists i :: from <= i <= until && i < |hist| && name !in hist[i].contents
  }

  ghost predicate TakenWhile(r: Realm, done: seq<Completed>, name: string, from: nat, until: nat) {
    exists k :: 0 <= k < |done| && TakesAway(r, done[k], name) && from <= done[k].finish < until
  }

  /** A name that is there at first is away at some time if and only if some call takes it away. */
  lemma AwayIfTaken(r: Realm, hist: seq<Moment>, done: seq<Completed>, name: string, from: nat, until: nat)
    requires HistoryOk(r, hist, done) && from <= until < |hist| && name in hist[from].contents
    ensures AbsentWhile(hist, name, from, until) <==> TakenWhile(r, done, name, from, until)
  {
    hide HistoryOk, TakesAway;
    if AbsentWhile(hist, name, from, until) {
      var i :| from <= i <= until && name !in hist[i].contents;
      var k := NameWasTaken(r, hist, done, name, from, i);
    }
    if TakenWhile(r, done, name, from, until) {
      var k :| 0 <= k < |done| && TakesAway(r, done[k], name) && from <= done[k].finish < until;
      NameIsGone(r, hist, done, k, name);
    }
  }

  lemma WhatVanishedMeans(r: Realm, hist: seq<Moment>, done: seq<Completed>, j: nat)
    requires HistoryOk(r, hist, done) && j < |done| && done[j].outcome.Vanished?
    ensures var e := done[j];
      && (e.call.op.Update? || e.call.op.Remove?) && e.read <= e.point <= e.finish < |hist|
      && e.call.op.name in hist[e.read].contents
      && (e.call.op.name !in hist[e.point].contents || hist[e.read].epoch != hist[e.point].epoch)
  {
    hide Effect, Entitled;
    assert Sound(r, hist, done, done[j]);
  }

  lemma VanishedExactly(r: Realm, t: System, j: nat)
    requires Inv(r, t) && j < |t.done| && t.done[j].outcome.Vanished?
    ensures var e := t.done[j];
      && (e.call.op.Update? || e.call.op.Remove?) && e.read <= e.finish < |t.hist|
      && e.call.op.name in t.hist[e.read].contents
      && (AbsentWhile(t.hist, e.call.op.name, e.read, e.finish)
          <==> TakenWhile(r, t.done, e.call.op.name, e.read, e.finish))
      && (NoImport(t.done, e.read, e.finish) ==> AbsentWhile(t.hist, e.call.op.name, e.read, e.finish))
  {
    hide Inv, HistoryOk, Opens, TakenWhile;
    InvMeans(r, t);
    WhatVanishedMeans(r, t.hist, t.done, j);
    var e := t.done[j];
    AwayIfTaken(r, t.hist, t.done, e.call.op.name, e.read, e.finish);
    if NoImport(t.done, e.read, e.finish) {
      SameEpoch(r, t.hist, t.done, e.read, e.point);
    }
  }

  /**
   What "not found" means to a client that found the name when it listed the rows. The name really was absent
   at some moment since if and only if, in between, somebody removed it or imported a backup without it. That
   is always so if nothing was imported in between; across an import of a backup that has the name, in another
   row, the answer can come for a name that was there all the time.
   */
  lemma VanishedMeansAbsent(
    r: Realm, d: Database, m: map<string, string>, password: string, actions: seq<Action>, j: nat)
    requires Opens(r, d, m, password) && Allowed(r, Start(r, d, m, password), actions)
    requires var done := Run(r, Start(r, d, m, password), actions).done; j < |done| && done[j].outcome.Vanished?
    ensures var t := Run(r, Start(r, d, m, password), actions);
      var e := t.done[j];
      && (e.call.op.Update? || e.call.op.Remove?) && e.read <= e.finish < |t.hist|
      && e.call.op.name in t.hist[e.read].contents
      && (AbsentWhile(t.hist, e.call.op.name, e.read, e.finish)
          <==> TakenWhile(r, t.done, e.call.op.name, e.read, e.finish))
      && (NoImport(t.done, e.read, e.finish) ==> AbsentWhile(t.hist, e.call.op.name, e.read, e.finish))
  {
    StartIsOk(r, d, m, password);
    RunKeepsInv(r, Start(r, d, m, password), actions);
    hide Opens, Inv, Allowed, Run, AbsentWhile, TakenWhile;
    VanishedExactly(r, Run(r, Start(r, d, m, password), actions), j);
  }

  // --------------------------------------------------- the last of certain calls

  /** Call k is the last with that property among those that finished from one moment on and before another. */
  predicate LastOf(property: Completed -> bool, done: seq<Completed>, from: nat, until: nat, k: nat) {
    && k < |done| && property(done[k]) && from <= done[k].finish < until
    && forall j | k < j < |done| && property(done[j]) :: done[j].finish >= until
  }

  ghost predicate SomeBetween(property: Completed -> bool, done: seq<Completed>, from: nat, until: nat) {
    exists j :: 0 <= j < |done| && property(done[j]) && from <= done[j].finish < until
  }

  lemma {:induction false} LastAmong(property: Completed -> bool, done: seq<Completed>, from: nat, until: nat, n: nat)
    returns (k: nat)
    requires n <= |done| && forall i, j | 0 <= i < j < |done| :: done[i].finish < done[j].finish
    requires exists j :: 0 <= j < n && property(done[j]) && from <= done[j].finish < until
    requires forall j | n <= j < |done| && property(done[j]) :: done[j].finish >= until
    ensures LastOf(property, done, from, until, k)
    decreases n
  {
    var j :| 0 <= j < n && property(done[j]) && from <= done[j].finish < until;
    var last := n - 1;
    if property(done[last]) && done[last].finish < until {
      k := last;
    } else {
      k := LastAmong(property, done, from, until, last);
    }
  }

  /** One of the calls between two moments is the last, if there is any. */
  lemma SomeIsLast(
    r: Realm, hist: seq<Moment>, done: seq<Completed>, property: Completed -> bool, from: nat, until: nat)
    requires HistoryOk(r, hist, done)
    ensures SomeBetween(property, done, from, until) <==> exists k: nat :: LastOf(property, done, from, until, k)
  {
    FinishesInOrder(r, hist, done);
    hide HistoryOk;
    if SomeBetween(property, done, from, until) {
      var k := LastAmong(property, done, from, until, |done|);
    }
  }

  // ------------------------------------------------- updates, imports and all

  function TextAt(m: Moment, name: string): Option<string> {
    if name in m.contents then Some(m.contents[name]) else None
  }

  predicate SetsText(c: Completed, name: string) {
    WroteName(c, name) || c.outcome.Imported?
  }

  function Setting(name: string): Completed -> bool {
    c => SetsText(c, name)
  }

  /** What a call that sets the text of a name leaves there. */
  ghost function TextFrom(r: Realm, c: Completed, name: string): Option<string> {
    match c.call.op
    case Add(_, text) => Some(text)
    case Update(_, text) => Some(text)
    case Import(file, _) => if name in FilePicture(r, file) then Some(FilePicture(r, file)[name]) else None
    case _ => None
  }

  lemma OthersKeepText(r: Realm, m: Moment, c: Completed, name: string)
    requires !SetsText(c, name)
    ensures TextAt(Effect(r, m, c), name) == TextAt(m, name)
  {
  }

  lemma {:induction false} SameTextThroughout(
    r: Realm, hist: seq<Moment>, done: seq<Completed>, name: string, from: nat, until: nat)
    requires HistoryOk(r, hist, done) && from <= until < |hist| && !SomeBetween(Setting(name), done, from, until)
    ensures TextAt(hist[from], name) == TextAt(hist[until], name)
    decreases until
  {
    hide Effect, HistoryOk, Writes, SetsText, TextAt;
    if from != until {
      SameTextThroughout(r, hist, done, name, from, until - 1);
      if hist[until] != hist[until - 1] {
        var j := ChangeHasWriter(r, hist, done, until - 1);
        assert !Setting(name)(done[j]);
        OthersKeepText(r, hist[until - 1], done[j], name);
      }
    }
  }

  lemma SettingSetsText(r: Realm, hist: seq<Moment>, done: seq<Completed>, k: nat, name: string)
    requires HistoryOk(r, hist, done) && k < |done| && SetsText(done[k], name)
    ensures done[k].finish + 1 < |hist| && TextAt(hist[done[k].finish + 1], name) == TextFrom(r, done[k], name)
  {
    hide Explained, FilePicture;
    assert Sound(r, hist, done, done[k]);
  }

  lemma AfterLastSetting(r: Realm, hist: seq<Moment>, done: seq<Completed>, name: string, from: nat, until: nat, k: nat)
    requires HistoryOk(r, hist, done) && until < |hist| && LastOf(Setting(name), done, from, until, k)
    ensures TextAt(hist[until], name) == TextFrom(r, done[k], name)
  {
    hide SetsText, TextAt, TextFrom;
    SettingSetsText(r, hist, done, k, name);
    FinishesInOrder(r, hist, done);
    hide HistoryOk;
    SameTextThroughout(r, hist, done, name, done[k].finish + 1, until);
  }

  lemma TextAtTheWrite(r: Realm, t: System, j: nat)
    requires Inv(r, t) && j < |t.done| && t.done[j].call.op.Update? && t.done[j].outcome.Stored?
    ensures var e, name := t.done[j], t.done[j].call.op.name;
      && e.read <= e.finish < |t.hist|
      && (TextAt(t.hist[e.finish], name) == TextAt(t.hist[e.read], name)
          <==> forall k: nat | LastOf(Setting(name), t.done, e.read, e.finish, k) ::
                 TextFrom(r, t.done[k], name) == TextAt(t.hist[e.read], name))
  {
    hide Inv, Opens, TextAt, TextFrom, SetsText, SomeBetween;
    InvMeans(r, t);
    var e, name := t.done[j], t.done[j].call.op.name;
    CallIsWithinHistory(r, t.hist, t.done, j);
    hide HistoryOk;
    SomeIsLast(r, t.hist, t.done, Setting(name), e.read, e.finish);
    if SomeBetween(Setting(name), t.done, e.read, e.finish) {
      forall k: nat | LastOf(Setting(name), t.done, e.read, e.finish, k)
        ensures TextFrom(r, t.done[k], name) == TextAt(t.hist[e.finish], name)
      {
        AfterLastSetting(r, t.hist, t.done, name, e.read, e.finish, k);
      }
    } else {
      SameTextThroughout(r, t.hist, t.done, name, e.read, e.finish);
    }
  }

  lemma CallIsWithinHistory(r: Realm, hist: seq<Moment>, done: seq<Completed>, j: nat)
    requires HistoryOk(r, hist, done) && j < |done|
    ensures done[j].start <= done[j].read <= done[j].finish < |hist| && done[j].start <= done[j].point <= done[j].finish
  {
    hide Explained, Accepts, Effect;
    assert Sound(r, hist, done, done[j]);
  }

  /**
   With imports allowed, too: a stored update overwrites the very text its author read if and only if nobody
   set the name's text in between, or the last one who did, by a call or by an import, set that same text.
   */
  lemma UpdateOverwritesWhatItRead(
    r: Realm, d: Database, m: map<string, string>, password: string, actions: seq<Action>, j: nat)
    requires Opens(r, d, m, password) && Allowed(r, Start(r, d, m, password), actions)
    requires var done := Run(r, Start(r, d, m, password), actions).done;
      j < |done| && done[j].call.op.Update? && done[j].outcome.Stored?
    ensures var t := Run(r, Start(r, d, m, password), actions);
      var e, name := t.done[j], t.done[j].call.op.name;
      && e.read <= e.finish < |t.hist|
      && (TextAt(t.hist[e.finish], name) == TextAt(t.hist[e.read], name)
          <==> forall k: nat | LastOf(Setting(name), t.done, e.read, e.finish, k) ::
                 TextFrom(r, t.done[k], name) == TextAt(t.hist[e.read], name))
  {
    StartIsOk(r, d, m, password);
    RunKeepsInv(r, Start(r, d, m, password), actions);
    hide Opens, Inv, Allowed, Run, TextAt, TextFrom, LastOf;
    TextAtTheWrite(r, Run(r, Start(r, d, m, password), actions), j);
  }
}
