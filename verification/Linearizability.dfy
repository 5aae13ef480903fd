/**
 What a reader of the protocol may rely on: whatever the interleaving, the finished calls are those of
 a plain map from names to texts with a password, executed one at a time.
 */
module Linearizability {
  import opened Wrappers
  import opened Crypto
  import opened Store
  import opened Client
  import opened BackupFiles
  import opened Protocol
  import opened ProtocolInvariant
  import opened ProtocolSteps

  // -------------------------------------------------------------------- runs

  ghost predicate Allowed(r: Realm, s: System, actions: seq<Action>)
    decreases |actions|
  {
    actions == []
    || (s.hist != [] && Enabled(r, s, actions[0]) && Allowed(r, Next(r, s, actions[0]), actions[1..]))
  }

  ghost function Run(r: Realm, s: System, actions: seq<Action>): System
    requires Allowed(r, s, actions)
    decreases |actions|
  {
    if actions == [] then s else Run(r, Next(r, s, actions[0]), actions[1..])
  }

  /** The names the rows of an existing vault carry. */
  ghost function TitlesOf(r: Realm, rows: map<Uuid, Secret>): map<Uuid, string> {
    map id | id in rows && TitleOf(r, id, rows[id].payload).Some? :: TitleOf(r, id, rows[id].payload).value
  }

  /** A vault that means m, with no call under way. */
  ghost predicate Opens(r: Realm, d: Database, m: map<string, string>, password: string) {
    WellKeyed(r) && Valid(d) && VaultOk(r, d, password) && Represents(r, RowsOf(d, r.user), m)
  }

  ghost function Start(r: Realm, d: Database, m: map<string, string>, password: string): System {
    var titles := TitlesOf(r, RowsOf(d, r.user));
    System(d, map[], titles.Keys, titles, [Moment(m, password, 0)], [])
  }

  /** A successful initialize leaves an empty vault that opens with its password. */
  lemma InitializeOpens(
    d: Database, user: Uuid, id: Uuid, isPrivate: bool, password: string, serial: nat, kdf: KdfParameters, nonce: Nonce)
    requires Valid(d) && FreshKdf(kdf)
    ensures var r := Realm(user, id, isPrivate, VaultKey(serial));
      var wrapped := Wrap(r.key, user, password, kdf, nonce);
      wrapped.Some? &&
      var (after, status) := CreateVault(d, user, id, wrapped.value, isPrivate);
      && (status.Done? <==> user !in d.vaults && !VaultIdUsed(d.vaults, id))
      && (status.Done? ==> Opens(r, after, map[], password))
  {
    var r := Realm(user, id, isPrivate, VaultKey(serial));
    WrapKeepsKey(r, password, kdf, nonce);
    var wrapped := Wrap(r.key, user, password, kdf, nonce).value;
    CreateVaultKeepsValid(d, user, id, wrapped, isPrivate);
    var (after, status) := CreateVault(d, user, id, wrapped, isPrivate);
    if status.Done? {
      NothingInNewVault(d, user, id, after);
    }
    hide Valid, Wrap, VaultIdUsed, RowsOf;
  }

  lemma NothingInNewVault(d: Database, user: Uuid, id: Uuid, after: Database)
    requires Valid(d) && !VaultIdUsed(d.vaults, id) && after.secrets == d.secrets
    requires user in after.vaults && after.vaults[user].id == id
    ensures RowsOf(after, user) == map[]
  {
    hide ValidPayload, ValidWrappedKey, NamesUnique;
  }

  lemma RowsAreTitled(r: Realm, rows: map<Uuid, Secret>, m: map<string, string>)
    requires Represents(r, rows, m)
    ensures Bound(r, rows, TitlesOf(r, rows))
  {
    hide TitleOf;
    forall id | id in rows ensures id in TitlesOf(r, rows) && Titled(r, rows, id, TitlesOf(r, rows)[id]) {
      assert Shows(r, id, rows[id].payload, m);
    }
  }

  lemma StartIsOk(r: Realm, d: Database, m: map<string, string>, password: string)
    requires Opens(r, d, m, password)
    ensures Inv(r, Start(r, d, m, password))
  {
    hide Represents, Valid, VaultOk;
    var s := Start(r, d, m, password);
    RowsAreTitled(r, RowsOf(d, r.user), m);
    hide TitleOf;
    assert Core(r, s);
    hide Core;
  }

  /** The invariant holds after every run, and the past is never rewritten. */
  lemma {:induction false} RunKeepsInv(r: Realm, s: System, actions: seq<Action>)
    requires Inv(r, s) && Allowed(r, s, actions)
    ensures Inv(r, Run(r, s, actions))
    decreases |actions|
  {
    hide Inv, Next, Enabled;
    if actions != [] {
      NextKeepsInv(r, s, actions[0]);
      RunKeepsInv(r, Next(r, s, actions[0]), actions[1..]);
    }
  }

  // ---------------------------------------------------- a sequential execution

  /** Calls in the order of their points; at one moment, those that only look come before the one that writes. */
  function Rank(c: Completed): nat {
    2 * c.point + if Writes(c) then 1 else 0
  }

  function Place(order: seq<Completed>, c: Completed): seq<Completed> {
    if order == [] || Rank(order[|order| - 1]) <= Rank(c) then order + [c]
    else Place(order[..|order| - 1], c) + [order[|order| - 1]]
  }

  function Ordered(done: seq<Completed>): seq<Completed> {
    if done == [] then [] else Place(Ordered(done[..|done| - 1]), done[|done| - 1])
  }

  ghost predicate ByRank(order: seq<Completed>) {
    forall i, j | 0 <= i < j < |order| :: Rank(order[i]) <= Rank(order[j])
  }

  ghost predicate FinishApart(order: seq<Completed>) {
    forall i, j | 0 <= i < j < |order| :: order[i].finish != order[j].finish
  }

  lemma {:induction false} PlaceSorts(order: seq<Completed>, c: Completed)
    requires ByRank(order)
    ensures ByRank(Place(order, c)) && multiset(Place(order, c)) == multiset(order) + multiset{c}
    ensures forall e :: e in Place(order, c) <==> e in order || e == c
  {
    hide Rank;
    if order != [] && !(Rank(order[|order| - 1]) <= Rank(c)) {
      var init, last := order[..|order| - 1], order[|order| - 1];
      PlaceSorts(init, c);
      assert order == init + [last];
      assert forall e | e in init :: Rank(e) <= Rank(last);
    } else {
      assert forall e | e in order :: Rank(e) <= Rank(c);
    }
  }

  lemma {:induction false} PlaceKeepsApart(order: seq<Completed>, c: Completed)
    requires FinishApart(order) && forall e | e in order :: e.finish != c.finish
    requires ByRank(order)
    ensures FinishApart(Place(order, c))
  {
    hide Rank;
    if order != [] && !(Rank(order[|order| - 1]) <= Rank(c)) {
      var init, last := order[..|order| - 1], order[|order| - 1];
      PlaceKeepsApart(init, c);
      PlaceSorts(init, c);
      assert order == init + [last];
      assert forall e | e in init :: e.finish != last.finish;
      assert forall e | e in Place(init, c) :: e.finish != last.finish;
    }
  }

  lemma {:induction false} OrderedSorts(done: seq<Completed>)
    requires forall j, k | 0 <= j < k < |done| :: done[j].finish < done[k].finish
    ensures ByRank(Ordered(done)) && multiset(Ordered(done)) == multiset(done) && FinishApart(Ordered(done))
    ensures forall e :: e in Ordered(done) <==> e in done
  {
    if done != [] {
      var init, last := done[..|done| - 1], done[|done| - 1];
      OrderedSorts(init);
      assert done == init + [last];
      PlaceSorts(Ordered(init), last);
      PlaceKeepsApart(Ordered(init), last);
    }
  }

  // ------------------------------------------------------------ replaying it

  ghost predicate WrittenBy(order: seq<Completed>, k: nat) {
    exists e :: e in order && Writes(e) && e.finish == k
  }

  /** Every change from moment i on is the write of a call in the list. */
  ghost predicate Covers(hist: seq<Moment>, order: seq<Completed>, i: nat) {
    forall k | i <= k < |hist| - 1 :: hist[k + 1] == hist[k] || WrittenBy(order, k)
  }

  lemma {:induction false} QuietToTheEnd(hist: seq<Moment>, i: nat)
    requires i < |hist| && Covers(hist, [], i)
    ensures hist[i] == Last(hist)
    decreases |hist| - i
  {
    if i < |hist| - 1 {
      QuietToTheEnd(hist, i + 1);
    }
  }

  lemma LookersChangeNothing(r: Realm, m: Moment, c: Completed)
    requires !Writes(c)
    ensures Effect(r, m, c) == m
  {
  }

  lemma {:induction false} OrderReplays(r: Realm, hist: seq<Moment>, order: seq<Completed>, i: nat)
    requires i < |hist| && ByRank(order) && FinishApart(order) && Covers(hist, order, i)
    requires forall e | e in order :: Justified(r, hist, e) && 2 * i <= Rank(e)
    ensures Replays(r, hist[i], order, Last(hist))
    decreases |hist| - i, |order|
  {
    hide Effect, Accepts, Writes;
    if order == [] {
      QuietToTheEnd(hist, i);
    } else if order[0].point > i {
      assert forall e | e in order :: 2 * (i + 1) <= Rank(e);
      assert forall e | e in order && Writes(e) :: e.finish != i;
      assert hist[i + 1] == hist[i];
      OrderReplays(r, hist, order, i + 1);
    } else {
      var first, rest := order[0], order[1..];
      assert order == [first] + rest;
      assert first in order && Justified(r, hist, first) && first.point == i;
      if Writes(first) {
        forall e | e in rest ensures 2 * (i + 1) <= Rank(e) {
          RankAfterWriter(order, e);
        }
        CoversRest(hist, order, i + 1);
        OrderReplays(r, hist, rest, i + 1);
      } else {
        CoversRest(hist, order, i);
        LookersChangeNothing(r, hist[i], first);
        OrderReplays(r, hist, rest, i);
      }
    }
  }

  lemma RankAfterWriter(order: seq<Completed>, e: Completed)
    requires ByRank(order) && FinishApart(order) && order != [] && Writes(order[0]) && order[0].point == order[0].finish
    requires e in order[1..] && (Writes(e) ==> e.point == e.finish)
    ensures 2 * (order[0].point + 1) <= Rank(e)
  {
    var k :| 0 <= k < |order[1..]| && order[1..][k] == e;
    assert order[k + 1] == e;
  }

  /** A list without its first call still accounts for what comes after. */
  lemma CoversRest(hist: seq<Moment>, order: seq<Completed>, i: nat)
    requires order != [] && Covers(hist, order, if Writes(order[0]) && i > 0 then i - 1 else i)
    requires Writes(order[0]) ==> order[0].finish < i
    ensures Covers(hist, order[1..], i)
  {
    assert order == [order[0]] + order[1..];
    forall k | i <= k < |hist| - 1 ensures hist[k + 1] == hist[k] || WrittenBy(order[1..], k) {
      if hist[k + 1] != hist[k] {
        var e :| e in order && Writes(e) && e.finish == k;
        assert e in order[1..];
      }
    }
  }

  /** One call came back before the other was made. */
  predicate Before(a: Completed, b: Completed) {
    a.finish < b.start
  }

  /** The calls of done, each once, in an order that respects real time and that the map could have executed. */
  ghost predicate Linearizes(r: Realm, from: Moment, done: seq<Completed>, order: seq<Completed>, end: Moment) {
    && multiset(order) == multiset(done)
    && (forall i, j | 0 <= i < j < |order| :: !Before(order[j], order[i]))
    && Replays(r, from, order, end)
  }

  lemma HistoryIsCovered(r: Realm, hist: seq<Moment>, done: seq<Completed>, order: seq<Completed>)
    requires HistoryOk(r, hist, done) && forall e :: e in order <==> e in done
    ensures Covers(hist, order, 0)
    ensures forall e | e in order :: Justified(r, hist, e)
  {
    hide Justified, Explained, Writes;
    forall k | 0 <= k < |hist| - 1 ensures hist[k + 1] == hist[k] || WrittenBy(order, k) {
      if hist[k + 1] != hist[k] {
        var j :| 0 <= j < |done| && Writes(done[j]) && done[j].finish == k;
        assert done[j] in order;
      }
    }
    forall e | e in order ensures Justified(r, hist, e) {
      var j :| 0 <= j < |done| && done[j] == e;
      assert Sound(r, hist, done, done[j]);
    }
  }

  /** A list sorted by points respects real time, because a call's point lies within it. */
  lemma RankedRespectsTime(r: Realm, hist: seq<Moment>, order: seq<Completed>)
    requires ByRank(order) && forall e | e in order :: Justified(r, hist, e)
    ensures forall i, j | 0 <= i < j < |order| :: !Before(order[j], order[i])
  {
    hide Accepts, Effect, Writes;
    forall i, j | 0 <= i < j < |order| ensures !Before(order[j], order[i]) {
      assert Justified(r, hist, order[i]) && Justified(r, hist, order[j]);
      assert Rank(order[i]) <= Rank(order[j]);
    }
  }

  lemma HistoryLinearizes(r: Realm, hist: seq<Moment>, done: seq<Completed>)
    requires hist != [] && HistoryOk(r, hist, done)
    ensures Linearizes(r, hist[0], done, Ordered(done), Last(hist))
  {
    hide Ordered, Justified, Sound, Writes, Replays, Covers;
    var order := Ordered(done);
    OrderedSorts(done);
    HistoryIsCovered(r, hist, done, order);
    hide HistoryOk;
    RankedRespectsTime(r, hist, order);
    OrderReplays(r, hist, order, 0);
  }

  // ---------------------------------------------------------- the past is kept

  /** What is recorded stays recorded. */
  ghost predicate Extends(s: System, t: System) {
    s.hist <= t.hist && s.done <= t.done
  }

  lemma CompleteExtends(
    s: System, c: nat, call: Call, start: nat, read: nat, point: nat, outcome: Outcome, d: Database, moment: Moment)
    requires s.hist != [] && read < |s.hist|
    ensures Extends(s, Complete(s, c, call, start, read, point, outcome, d, moment))
  {
  }

  lemma TakeExtends(s: System, c: nat, call: Call, start: nat, move: Move)
    requires s.hist != []
    ensures Extends(s, Take(s, c, call, start, move))
  {
    if move.End? {
      var end := |s.hist| - 1;
      CompleteExtends(s, c, call, start, end, end, move.outcome, s.d, Last(s.hist));
    }
    hide Complete;
  }

  lemma CalledExtends(r: Realm, s: System, c: nat, call: Call, start: nat, draw: Draw)
    requires s.hist != [] && WellFormed(call)
    ensures Extends(s, StepCalled(r, s, c, call, start, draw))
  {
    hide AfterVault, Restore, CreateVault, ReadFile, Wrap, FilePicture, Take;
    if r.user in s.d.vaults {
      TakeExtends(s, c, call, start, AfterVault(r, call, start, s.d.vaults[r.user], draw));
    }
  }

  lemma WriteExtends(r: Realm, s: System, c: nat, pc: Pc)
    requires s.hist != [] && Consistent(s, pc)
    ensures pc.Rewrapping? ==> Extends(s, StepRewrapping(r, s, c, pc))
    ensures pc.Posting? ==> Extends(s, StepPosting(r, s, c, pc))
    ensures pc.Putting? ==> Extends(s, StepPutting(r, s, c, pc))
    ensures pc.Deleting? ==> Extends(s, StepDeleting(r, s, c, pc))
  {
    hide UpdateVaultKey, CreateSecret, UpdateSecret, RemoveSecret;
  }

  lemma NextExtends(r: Realm, s: System, a: Action)
    requires s.hist != [] && Enabled(r, s, a)
    ensures Extends(s, Next(r, s, a))
  {
    hide StepCalled, StepRewrapping, StepPosting, StepPutting, StepDeleting, Take, AfterList, Handle;
    if a.Proceed? {
      WriteExtends(r, s, a.client, PcOf(s, a.client));
      match PcOf(s, a.client)
      case Called(call, start) => CalledExtends(r, s, a.client, call, start, a.draw);
      case KnowsVault(call, start, vault, key) =>
        TakeExtends(
          s, a.client, call, start, AfterList(r.user, call, start, |s.hist| - 1, vault, key, a.draw));
      case _ =>
    }
  }

  lemma {:induction false} RunExtends(r: Realm, s: System, actions: seq<Action>)
    requires s.hist != [] && Allowed(r, s, actions)
    ensures Extends(s, Run(r, s, actions))
    decreases |actions|
  {
    hide Next, Enabled;
    if actions != [] {
      NextExtends(r, s, actions[0]);
      RunExtends(r, Next(r, s, actions[0]), actions[1..]);
    }
  }

  // ------------------------------------------------------------ main theorem

  /**
   Any number of clients, any interleaving of their requests with each other and with other users', both
   metadata modes: the finished calls are, in some order that respects real time, a sequential execution of
   a map with a password, and the rows and the wrapped key stand for the map and password it ends in.
   */
  lemma EveryRunIsLinearizable(
    r: Realm, d: Database, m: map<string, string>, password: string, actions: seq<Action>)
    requires Opens(r, d, m, password) && Allowed(r, Start(r, d, m, password), actions)
    ensures var t := Run(r, Start(r, d, m, password), actions);
      exists order, end ::
        Linearizes(r, Moment(m, password, 0), t.done, order, end) && Opens(r, t.d, end.contents, end.password)
  {
    var s := Start(r, d, m, password);
    StartIsOk(r, d, m, password);
    RunKeepsInv(r, s, actions);
    RunExtends(r, s, actions);
    hide Opens, Inv, Allowed, Linearizes, Ordered, Run;
    var t := Run(r, s, actions);
    InvMeans(r, t);
    HistoryLinearizes(r, t.hist, t.done);
    assert Linearizes(r, Moment(m, password, 0), t.done, Ordered(t.done), Last(t.hist));
  }

  lemma InvMeans(r: Realm, t: System)
    requires Inv(r, t)
    ensures t.hist != [] && Opens(r, t.d, Last(t.hist).contents, Last(t.hist).password)
    ensures HistoryOk(r, t.hist, t.done)
  {
    hide Represents, Valid, VaultOk, HistoryOk;
  }
}
