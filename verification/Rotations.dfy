/**
 Rotation reads the old password's proof with one request and writes the new wrapped key with another,
 and the server cannot compare the two: when the check is as good as atomic, and how it can fail.
 */
module Rotations {
  import opened Wrappers
  import opened Crypto
  import opened Store
  import opened Client
  import opened BackupFiles
  import opened Protocol
  import opened ProtocolInvariant
  import opened ProtocolSteps
  import opened Linearizability
  import opened Guarantees

  /** A stored rotation or import, the only calls that change the password. */
  predicate ChangesPassword(c: Completed) {
    c.outcome.Rekeyed? || c.outcome.Imported?
  }

  lemma OthersKeepPassword(r: Realm, m: Moment, c: Completed)
    requires !ChangesPassword(c)
    ensures Effect(r, m, c).password == m.password
  {
  }

  lemma {:induction false} SamePassword(r: Realm, hist: seq<Moment>, done: seq<Completed>, from: nat, until: nat)
    requires HistoryOk(r, hist, done) && from <= until < |hist|
    requires forall k | 0 <= k < |done| && ChangesPassword(done[k]) :: !(from <= done[k].finish < until)
    ensures hist[from].password == hist[until].password
    decreases until
  {
    hide Effect, HistoryOk, Writes;
    if from < until {
      SamePassword(r, hist, done, from, until - 1);
      if hist[until] != hist[until - 1] {
        var j := ChangeHasWriter(r, hist, done, until - 1);
        OthersKeepPassword(r, hist[until - 1], done[j]);
      }
    }
  }

  lemma AcceptedRotation(r: Realm, t: System, j: nat)
    requires Inv(r, t) && j < |t.done| && t.done[j].outcome.Rekeyed? && t.done[j].call.auth.Password?
    ensures var e := t.done[j];
      && e.start <= e.finish < |t.hist|
      && (exists i :: e.start <= i <= e.finish && t.hist[i].password == e.call.auth.password)
      && ((forall k | 0 <= k < |t.done| && ChangesPassword(t.done[k]) :: !(e.start <= t.done[k].finish < e.finish))
          ==> t.hist[e.finish].password == e.call.auth.password)
  {
    hide Inv, Effect, Opens;
    InvMeans(r, t);
    assert Sound(r, t.hist, t.done, t.done[j]);
    var e, now := t.done[j], t.hist[..t.done[j].finish + 1];
    assert Entitled(now, e.call, e.start);
    hide HistoryOk;
    var i :| e.start <= i < |now| && now[i].password == e.call.auth.password;
    assert t.hist[i] == now[i];
    if forall k | 0 <= k < |t.done| && ChangesPassword(t.done[k]) :: !(e.start <= t.done[k].finish < e.finish) {
      SamePassword(r, t.hist, t.done, i, e.finish);
    }
  }

  /** The password a stored rotation, or an import, puts in force. */
  function NewPasswordOf(c: Completed): string {
    if c.call.op.Rotate? then c.call.op.newPassword
    else if c.call.op.Import? then PasswordOf(c.call.op.file)
    else ""
  }

  lemma ChangeSetsPassword(r: Realm, hist: seq<Moment>, done: seq<Completed>, k: nat)
    requires HistoryOk(r, hist, done) && k < |done| && ChangesPassword(done[k])
    ensures done[k].finish + 1 < |hist| && hist[done[k].finish + 1].password == NewPasswordOf(done[k])
  {
    hide Explained, FilePicture;
    assert Sound(r, hist, done, done[k]);
  }

  lemma AfterLastChange(r: Realm, hist: seq<Moment>, done: seq<Completed>, start: nat, finish: nat, k: nat)
    requires HistoryOk(r, hist, done) && finish < |hist| && LastOf(ChangesPassword, done, start, finish, k)
    ensures hist[finish].password == NewPasswordOf(done[k])
  {
    ChangeSetsPassword(r, hist, done, k);
    FinishesInOrder(r, hist, done);
    hide HistoryOk;
    SamePassword(r, hist, done, done[k].finish + 1, finish);
  }

  /** The password that was in force at the write, read off the calls that finished meanwhile. */
  lemma PasswordAtTheWrite(r: Realm, t: System, j: nat)
    requires Inv(r, t) && j < |t.done| && t.done[j].outcome.Rekeyed? && t.done[j].call.auth.Password?
    ensures var e := t.done[j];
      && e.finish < |t.hist|
      && (t.hist[e.finish].password == e.call.auth.password
          <==> forall k: nat | LastOf(ChangesPassword, t.done, e.start, e.finish, k) ::
                 NewPasswordOf(t.done[k]) == e.call.auth.password)
  {
    hide Inv, HistoryOk, Opens;
    AcceptedRotation(r, t, j);
    InvMeans(r, t);
    var e := t.done[j];
    SomeIsLast(r, t.hist, t.done, ChangesPassword, e.start, e.finish);
    if k: nat :| LastOf(ChangesPassword, t.done, e.start, e.finish, k) {
      forall i: nat | LastOf(ChangesPassword, t.done, e.start, e.finish, i)
        ensures NewPasswordOf(t.done[i]) == t.hist[e.finish].password
      {
        AfterLastChange(r, t.hist, t.done, e.start, e.finish, i);
      }
    }
  }

  /**
   What checking the old password in a request of its own is worth. The password given to an accepted rotation
   was in force at some moment of the call. It was still in force when the new key was written if and only if
   nobody changed it during the call, or the last one who did put the very same password in force.
   */
  lemma RotationKnewThePassword(
    r: Realm, d: Database, m: map<string, string>, password: string, actions: seq<Action>, j: nat)
    requires Opens(r, d, m, password) && Allowed(r, Start(r, d, m, password), actions)
    requires var done := Run(r, Start(r, d, m, password), actions).done;
      j < |done| && done[j].outcome.Rekeyed? && done[j].call.auth.Password?
    ensures var t := Run(r, Start(r, d, m, password), actions); var e := t.done[j];
      && e.start <= e.finish < |t.hist|
      && (exists i :: e.start <= i <= e.finish && t.hist[i].password == e.call.auth.password)
      && (t.hist[e.finish].password == e.call.auth.password
          <==> forall k: nat | LastOf(ChangesPassword, t.done, e.start, e.finish, k) ::
                 NewPasswordOf(t.done[k]) == e.call.auth.password)
  {
    StartIsOk(r, d, m, password);
    RunKeepsInv(r, Start(r, d, m, password), actions);
    hide Opens, Inv, Allowed, Run;
    var t := Run(r, Start(r, d, m, password), actions);
    AcceptedRotation(r, t, j);
    PasswordAtTheWrite(r, t, j);
    hide LastOf, NewPasswordOf;
  }

  // ------------------------------------------------------- two rotations at once

  ghost predicate Ready(r: Realm, s: System, draw: Draw) {
    && s.hist != [] && draw.id !in s.drawn && draw.id !in s.d.secrets && FreshKdf(draw.kdf)
    && Listing(RowsOf(s.d, r.user), draw.records)
  }

  /** The first request of a rotation: the right password leads on, and nothing has changed. */
  lemma RotationReads(r: Realm, s: System, c: nat, draw: Draw)
    requires Inv(r, s) && Ready(r, s, draw) && PcOf(s, c).Called? && PcOf(s, c).call.op.Rotate?
    requires PcOf(s, c).call.auth == Password(Last(s.hist).password)
    ensures Enabled(r, s, Proceed(c, draw))
    ensures var t, pc := Next(r, s, Proceed(c, draw)), PcOf(Next(r, s, Proceed(c, draw)), c);
      && pc.Rewrapping? && pc.call == PcOf(s, c).call
      && t.d == s.d && t.done == s.done && t.hist != [] && Last(t.hist) == Last(s.hist) && Ready(r, t, draw)
      && forall k | k != c :: PcOf(t, k) == PcOf(s, k)
  {
    hide Inv, Represents, Valid, Bound, Reserved, HistoryOk, FilesOk, Unlock, Wrap, Listing, RowsOf, WrapsUnder, PcOk;
    InvParts(r, s, c);
    var call := PcOf(s, c).call;
    UnlocksExactly(r, s.d.vaults[r.user].wrapped, Last(s.hist).password, Last(s.hist).password);
    WrapKeepsKey(r, call.op.newPassword, draw.kdf, draw.nonce1);
  }

  /** The second request: the server takes any well-formed wrapped key. */
  lemma RotationWrites(r: Realm, s: System, c: nat, draw: Draw)
    requires Inv(r, s) && Ready(r, s, draw) && PcOf(s, c).Rewrapping?
    ensures PcOf(s, c).call.op.Rotate? && Enabled(r, s, Proceed(c, draw))
    ensures var t, call := Next(r, s, Proceed(c, draw)), PcOf(s, c).call;
      && |t.done| == |s.done| + 1 && s.done <= t.done
      && t.done[|s.done|].call == call && t.done[|s.done|].outcome == Rekeyed
      && t.hist != [] && Last(t.hist).password == call.op.newPassword && Ready(r, t, draw)
      && forall k | k != c :: PcOf(t, k) == PcOf(s, k)
  {
    hide Inv, Represents, Valid, Bound, Reserved, HistoryOk, FilesOk, Listing, RowsOf, WrapsUnder, Entitled;
    hide UpdateVaultKey;
    InvParts(r, s, c);
    var pc := PcOf(s, c);
    WrapsValid(r, pc.wrapped, pc.call.op.newPassword);
    RewrapOnRows(s.d, r.user, pc.wrapped);
  }

  lemma RotationBegins(r: Realm, s: System, c: nat, call: Call, draw: Draw)
    requires Inv(r, s) && Ready(r, s, draw) && PcOf(s, c).Idle? && call.op.Rotate? && call.auth.Password?
    ensures Enabled(r, s, Begin(c, call))
    ensures var t := Next(r, s, Begin(c, call));
      && PcOf(t, c) == Called(call, |s.hist| - 1)
      && t.d == s.d && t.done == s.done && t.hist != [] && Last(t.hist) == Last(s.hist) && Ready(r, t, draw)
      && forall k | k != c :: PcOf(t, k) == PcOf(s, k)
  {
    hide Inv, Listing, RowsOf;
  }

  function RacingRotations(a: nat, b: nat, ca: Call, cb: Call, draw: Draw): seq<Action> {
    [Begin(a, ca), Begin(b, cb), Proceed(a, draw), Proceed(b, draw), Proceed(a, draw), Proceed(b, draw)]
  }

  lemma OneMore(r: Realm, s: System, a: Action, rest: seq<Action>)
    requires s.hist != [] && Enabled(r, s, a) && Allowed(r, Next(r, s, a), rest)
    ensures Allowed(r, s, [a] + rest) && Run(r, s, [a] + rest) == Run(r, Next(r, s, a), rest)
  {
    hide Enabled, Next;
    assert ([a] + rest)[1..] == rest;
  }

  /** Both clients have checked the old password; both writes are accepted. */
  lemma BothWrite(r: Realm, s: System, a: nat, b: nat, draw: Draw)
    requires Inv(r, s) && Ready(r, s, draw) && a != b && PcOf(s, a).Rewrapping? && PcOf(s, b).Rewrapping?
    ensures PcOf(s, b).call.op.Rotate?
    ensures Allowed(r, s, [Proceed(a, draw), Proceed(b, draw)])
    ensures var t := Run(r, s, [Proceed(a, draw), Proceed(b, draw)]);
      && |t.done| == |s.done| + 2 && t.hist != []
      && t.done[|s.done|].call == PcOf(s, a).call && t.done[|s.done|].outcome == Rekeyed
      && t.done[|s.done| + 1].call == PcOf(s, b).call && t.done[|s.done| + 1].outcome == Rekeyed
      && Last(t.hist).password == PcOf(s, b).call.op.newPassword && Inv(r, t)
  {
    hide Inv, Ready, Enabled, Next, PcOf;
    RotationWrites(r, s, a, draw);
    NextKeepsInv(r, s, Proceed(a, draw));
    var s1 := Next(r, s, Proceed(a, draw));
    RotationWrites(r, s1, b, draw);
    NextKeepsInv(r, s1, Proceed(b, draw));
    OneMore(r, s1, Proceed(b, draw), []);
    OneMore(r, s, Proceed(a, draw), [Proceed(b, draw)]);
    assert [Proceed(a, draw)] + [Proceed(b, draw)] == [Proceed(a, draw), Proceed(b, draw)];
    assert [Proceed(b, draw)] + [] == [Proceed(b, draw)];
  }

  /** The two calls that finished last were told that they changed the password. */
  ghost predicate BothSucceeded(s: System, t: System, ca: Call, cb: Call) {
    && |t.done| == |s.done| + 2
    && t.done[|s.done|].call == ca && t.done[|s.done|].outcome == Rekeyed
    && t.done[|s.done| + 1].call == cb && t.done[|s.done| + 1].outcome == Rekeyed
  }

  ghost predicate OpensNothing(r: Realm, d: Database, password: string) {
    r.user in d.vaults && Unlock(d.vaults[r.user].wrapped, r.user, password) == None
  }

  /**
   The check is not atomic with the write: in any state two idle clients that know the password can both
   be told that their rotation succeeded, and the first one's new password does not open the vault.
   */
  lemma RotationsCanRace(r: Realm, s: System, a: nat, b: nat, pa: string, pb: string, draw: Draw)
    requires Inv(r, s) && s.hist != [] && Ready(r, s, draw) && a != b && pa != pb
    requires PcOf(s, a).Idle? && PcOf(s, b).Idle?
    ensures var current := Last(s.hist).password;
      var ca, cb := Call(Rotate(pa), Password(current)), Call(Rotate(pb), Password(current));
      exists actions :: Allowed(r, s, actions) && BothSucceeded(s, Run(r, s, actions), ca, cb)
                        && OpensNothing(r, Run(r, s, actions).d, pa)
  {
    hide Inv, Ready, Enabled, Next, PcOf, WrapsUnder, Unlock, Represents, Valid, Allowed, Run;
    var current := Last(s.hist).password;
    var ca, cb := Call(Rotate(pa), Password(current)), Call(Rotate(pb), Password(current));
    RotationBegins(r, s, a, ca, draw);
    NextKeepsInv(r, s, Begin(a, ca));
    var s1 := Next(r, s, Begin(a, ca));
    RotationBegins(r, s1, b, cb, draw);
    NextKeepsInv(r, s1, Begin(b, cb));
    var s2 := Next(r, s1, Begin(b, cb));
    RotationReads(r, s2, a, draw);
    NextKeepsInv(r, s2, Proceed(a, draw));
    var s3 := Next(r, s2, Proceed(a, draw));
    RotationReads(r, s3, b, draw);
    NextKeepsInv(r, s3, Proceed(b, draw));
    var s4 := Next(r, s3, Proceed(b, draw));
    BothWrite(r, s4, a, b, draw);
    var last := [Proceed(a, draw), Proceed(b, draw)];
    OneMore(r, s3, Proceed(b, draw), last);
    OneMore(r, s2, Proceed(a, draw), [Proceed(b, draw)] + last);
    OneMore(r, s1, Begin(b, cb), [Proceed(a, draw)] + ([Proceed(b, draw)] + last));
    OneMore(r, s, Begin(a, ca), [Begin(b, cb)] + ([Proceed(a, draw)] + ([Proceed(b, draw)] + last)));
    assert [Begin(a, ca)] + ([Begin(b, cb)] + ([Proceed(a, draw)] + ([Proceed(b, draw)] + last)))
        == RacingRotations(a, b, ca, cb, draw);
    var t := Run(r, s4, last);
    InvMeans(r, t);
    UnlocksExactly(r, t.d.vaults[r.user].wrapped, pb, pa);
    var actions := RacingRotations(a, b, ca, cb, draw);
    assert Run(r, s, actions) == t;
    assert BothSucceeded(s, t, ca, cb) && OpensNothing(r, t.d, pa);
  }
}
