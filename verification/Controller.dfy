/**
 The desktop controller: user operations run in the background one at a time, and so do snapshots of the
 shared state; both write the same fields when they come back. A generation counter tells stale snapshots.
 */
module Controller {
  import opened Wrappers

  datatype Screen = Loading | Login | Setup | UnlockPrompt | App

  datatype Operation =
    | Startup | SwitchAccount | Authenticate | Initialize | Unlock | Lock | Logout
    | Refresh | Mutate | Import | ChangePassword | Other

  /** What a startup snapshot finds. */
  datatype Snapshot = SignedOut | NoVault | LockedVault | OpenVault

  datatype Result = Failure | Expired | Found(snapshot: Snapshot) | Flag(yes: bool) | Plain

  datatype Shared = SyncError | NoSession | MissingVault | OtherUser(snapshot: Snapshot) | NowLocked | NowUnlocked

  /** sync holds the generation captured by the snapshot under way; inFlight the operations under way. */
  datatype View = View(
    busy: bool, generation: nat, inFlight: seq<Operation>, screen: Screen, unlocked: bool,
    adding: bool, hasUser: bool, sync: Option<nat>, closing: bool)

  datatype Event =
    | Start
    | Request(op: Operation)
    | AddAccount
    | CancelAdd
    | Finish(i: nat, result: Result)
    | SyncTick
    | SyncFinish(shared: Shared)
    | Close

  // ---------------------------------------------------------------- one event

  function Dispatch(v: View, op: Operation): View {
    if v.busy || v.closing then v
    else v.(busy := true, generation := v.generation + 1, inFlight := v.inFlight + [op])
  }

  function ScreenOf(s: Snapshot): Screen {
    match s
    case SignedOut => Login
    case NoVault => Setup
    case LockedVault => UnlockPrompt
    case OpenVault => App
  }

  function ApplyStartup(v: View, s: Snapshot): View {
    v.(screen := ScreenOf(s), unlocked := s.OpenVault?, hasUser := !s.SignedOut?)
  }

  function Started(v: View): View {
    Dispatch(v.(screen := Loading), Startup)
  }

  /** The kind of answer an operation comes back with. */
  predicate Answers(op: Operation, r: Result) {
    match op
    case Startup | SwitchAccount => r.Found? || r.Failure? || r.Expired?
    case Initialize | Unlock => r.Flag? || r.Failure? || r.Expired?
    case _ => r.Plain? || r.Failure? || r.Expired?
  }

  function Completed(v: View, op: Operation, r: Result): View
    requires Answers(op, r) && !r.Failure? && !r.Expired?
  {
    match op
    case Startup => ApplyStartup(v, r.snapshot)
    case SwitchAccount => ApplyStartup(v.(adding := false), r.snapshot)
    case Authenticate => Started(v.(adding := false))
    case Initialize =>
      if r.yes then Dispatch(v.(unlocked := true, screen := App), Refresh)
      else v.(unlocked := false, screen := UnlockPrompt)
    case Unlock =>
      if r.yes then Dispatch(v.(unlocked := true, screen := App), Refresh)
      else v.(unlocked := false, screen := Setup)
    case Lock => v.(unlocked := false, screen := UnlockPrompt)
    case Logout => v.(unlocked := false, hasUser := false, screen := Login)
    case Mutate => Dispatch(v, Refresh)
    case Import => Dispatch(v, Lock)
    case ChangePassword => v.(unlocked := false, screen := UnlockPrompt)
    case Refresh => v
    case Other => v
  }

  function Finished(v: View, i: nat, r: Result): View
    requires i < |v.inFlight| && Answers(v.inFlight[i], r)
  {
    var w := v.(inFlight := v.inFlight[..i] + v.inFlight[i + 1..]);
    if v.closing then w
    else match r
      case Failure => w.(busy := false)
      case Expired => w.(busy := false, unlocked := false, screen := Login)
      case _ => Completed(w.(busy := false), v.inFlight[i], r)
  }

  predicate MaySync(v: View) {
    v.sync.None? && !v.busy && !v.closing && !v.adding
  }

  /** The result of a snapshot is used only when no operation has been dispatched since it began. */
  predicate Applies(v: View, s: Shared) {
    v.sync.Some? && !v.closing && v.sync.value == v.generation && !s.SyncError?
  }

  function Synced(v: View, s: Shared): View {
    var w := v.(sync := None);
    if !Applies(v, s) then w
    else match s
      case SyncError => w
      case NoSession => if v.hasUser then w.(hasUser := false, unlocked := false, screen := Login) else w
      case MissingVault => w.(unlocked := false, screen := Setup)
      case OtherUser(snapshot) => ApplyStartup(w, snapshot)
      case NowLocked => w.(unlocked := false, screen := UnlockPrompt)
      case NowUnlocked => w.(unlocked := true, screen := App)
  }

  predicate Enabled(v: View, e: Event) {
    match e
    case Finish(i, r) => i < |v.inFlight| && Answers(v.inFlight[i], r)
    case SyncFinish(_) => v.sync.Some?
    case _ => true
  }

  function Next(v: View, e: Event): View
    requires Enabled(v, e)
  {
    match e
    case Start => Started(v)
    case Request(op) => Dispatch(v, op)
    case AddAccount => v.(adding := true, screen := Login)
    case CancelAdd => if v.adding then Started(v.(adding := false)) else v
    case Finish(i, r) => Finished(v, i, r)
    case SyncTick => if MaySync(v) then v.(sync := Some(v.generation)) else v
    case SyncFinish(s) => Synced(v, s)
    case Close => v.(closing := true)
  }

  // ------------------------------------------------------------ the controller

  class AppController {
    var busy: bool
    var generation: nat
    var inFlight: seq<Operation>
    var screen: Screen
    var unlocked: bool
    var adding: bool
    var hasUser: bool
    var sync: Option<nat>
    var closing: bool

    function Now(): (v: View)
      reads this
    {
      View(busy, generation, inFlight, screen, unlocked, adding, hasUser, sync, closing)
    }

    /** What holds between any two events, whoever caused them. */
    ghost predicate Valid()
      reads this
    {
      Inv(Now())
    }

    constructor ()
      ensures Valid() && Now() == INITIAL
    {
      busy, generation, inFlight, screen, unlocked := false, 0, [], Loading, false;
      adding, hasUser, sync, closing := false, false, None, false;
    }

    method DispatchOperation(op: Operation)
      modifies this
      ensures Now() == Dispatch(old(Now()), op)
    {
      if busy || closing { return; }
      generation := generation + 1;
      busy := true;
      inFlight := inFlight + [op];
    }

    method ApplySnapshot(s: Snapshot)
      modifies this
      ensures Now() == ApplyStartup(old(Now()), s)
    {
      screen, unlocked, hasUser := ScreenOf(s), s.OpenVault?, !s.SignedOut?;
    }

    method StartUp()
      modifies this
      ensures Now() == Next(old(Now()), Start)
    {
      screen := Loading;
      DispatchOperation(Startup);
    }

    /** What every button of the window does; while an operation is under way it does nothing. */
    method RequestOperation(op: Operation)
      requires Valid()
      modifies this
      ensures Valid() && Now() == Next(old(Now()), Request(op))
      ensures inFlight == if old(busy || closing) then old(inFlight) else [op]
    {
      DispatchOperation(op);
      NextKeepsInv(old(Now()), Request(op));
    }

    method BeginAddAccount()
      requires Valid()
      modifies this
      ensures Valid() && Now() == Next(old(Now()), AddAccount)
    {
      adding, screen := true, Login;
      NextKeepsInv(old(Now()), AddAccount);
    }

    method CancelAddAccount()
      requires Valid()
      modifies this
      ensures Valid() && Now() == Next(old(Now()), CancelAdd) && old(generation) <= generation
    {
      NextKeepsInv(Now(), CancelAdd);
      if !adding { return; }
      adding := false;
      StartUp();
    }

    /** An operation comes back; its completion may dispatch the next one. */
    method FinishOperation(i: nat, r: Result)
      requires Valid() && Enabled(Now(), Finish(i, r))
      modifies this
      ensures Valid() && Now() == Next(old(Now()), Finish(i, r)) && old(generation) <= generation
      ensures screen.App? ==> unlocked
    {
      NextKeepsInv(Now(), Finish(i, r));
      hide Inv;
      var op := inFlight[i];
      inFlight := inFlight[..i] + inFlight[i + 1..];
      if closing { return; }
      busy := false;
      if r.Expired? {
        unlocked, screen := false, Login;
      } else if !r.Failure? {
        Complete(op, r);
      }
    }

    method Complete(op: Operation, r: Result)
      requires Answers(op, r) && !r.Failure? && !r.Expired?
      modifies this
      ensures Now() == Completed(old(Now()), op, r)
    {
      match op
      case Startup => ApplySnapshot(r.snapshot);
      case SwitchAccount => adding := false; ApplySnapshot(r.snapshot);
      case Authenticate => adding := false; StartUp();
      case Initialize =>
        unlocked := r.yes;
        screen := if unlocked then App else UnlockPrompt;
        if unlocked { DispatchOperation(Refresh); }
      case Unlock =>
        if !r.yes { unlocked, screen := false, Setup; return; }
        unlocked, screen := true, App;
        DispatchOperation(Refresh);
      case Lock => unlocked, screen := false, UnlockPrompt;
      case Logout => unlocked, hasUser, screen := false, false, Login;
      case Mutate => DispatchOperation(Refresh);
      case Import => DispatchOperation(Lock);
      case ChangePassword => unlocked, screen := false, UnlockPrompt;
      case Refresh =>
      case Other =>
    }

    method SyncSharedState()
      requires Valid()
      modifies this
      ensures Valid() && Now() == Next(old(Now()), SyncTick)
    {
      NextKeepsInv(Now(), SyncTick);
      if sync.Some? || busy || closing || adding { return; }
      sync := Some(generation);
    }

    /** A snapshot comes back; it writes only when nothing else is under way. */
    method ApplyShared(s: Shared)
      requires Valid() && sync.Some?
      modifies this
      ensures Valid() && Now() == Next(old(Now()), SyncFinish(s))
      ensures Now() == old(Now()).(sync := None) || (inFlight == [] && !closing)
    {
      NextKeepsInv(Now(), SyncFinish(s));
      NothingUnderWay(Now());
      hide Inv, Next;
      var captured := sync.value;
      sync := None;
      if closing || captured != generation || s.SyncError? { return; }
      match s
      case NoSession =>
        if hasUser { hasUser, unlocked, screen := false, false, Login; }
      case MissingVault => unlocked, screen := false, Setup;
      case OtherUser(snapshot) => ApplySnapshot(snapshot);
      case NowLocked => unlocked, screen := false, UnlockPrompt;
      case NowUnlocked => unlocked, screen := true, App;
    }
  }

  // -------------------------------------------------------------------- runs

  const INITIAL := View(false, 0, [], Loading, false, false, false, None, false)

  ghost predicate Allowed(v: View, run: seq<Event>)
    decreases |run|
  {
    run == [] || (Enabled(v, run[0]) && Allowed(Next(v, run[0]), run[1..]))
  }

  function After(v: View, run: seq<Event>): View
    requires Allowed(v, run)
    decreases |run|
  {
    if run == [] then v else After(Next(v, run[0]), run[1..])
  }

  /** A snapshot is under way that would still be applied. */
  predicate SnapshotPending(v: View) {
    v.sync.Some? && v.sync.value == v.generation
  }

  ghost predicate Inv(v: View) {
    && |v.inFlight| <= 1
    && (v.inFlight != [] ==> v.busy)
    && (v.busy && !v.closing ==> v.inFlight != [])
    && (v.screen.App? ==> v.unlocked)
    && (v.sync.Some? ==> v.sync.value <= v.generation)
    && (SnapshotPending(v) ==> v.inFlight == [])
  }

  lemma NothingUnderWay(v: View)
    requires Inv(v)
    ensures SnapshotPending(v) ==> v.inFlight == []
  {
  }

  lemma FinishKeepsInv(v: View, i: nat, r: Result)
    requires Inv(v) && Enabled(v, Finish(i, r))
    ensures Inv(Finished(v, i, r)) && v.generation <= Finished(v, i, r).generation
  {
    assert v.inFlight[..i] + v.inFlight[i + 1..] == [];
    if !v.closing && !r.Failure? && !r.Expired? {
      CompletedKeepsInv(v.(busy := false, inFlight := []), v.inFlight[i], r);
    }
    hide Completed;
  }

  lemma CompletedKeepsInv(v: View, op: Operation, r: Result)
    requires Inv(v) && !v.busy && Answers(op, r) && !r.Failure? && !r.Expired?
    ensures Inv(Completed(v, op, r)) && v.generation <= Completed(v, op, r).generation
  {
  }

  lemma NextKeepsInv(v: View, e: Event)
    requires Inv(v) && Enabled(v, e)
    ensures Inv(Next(v, e)) && v.generation <= Next(v, e).generation
  {
    hide Finished;
    match e
    case Finish(i, r) => FinishKeepsInv(v, i, r);
    case _ =>
  }

  lemma {:induction false} RunKeepsInv(v: View, run: seq<Event>)
    requires Inv(v) && Allowed(v, run)
    ensures Inv(After(v, run)) && v.generation <= After(v, run).generation
    decreases |run|
  {
    hide Inv, Next, Enabled;
    if run != [] {
      NextKeepsInv(v, run[0]);
      RunKeepsInv(Next(v, run[0]), run[1..]);
    }
  }

  /** In every run one operation at most is under way, and the vault's contents are on screen only when unlocked. */
  lemma OneAtATime(run: seq<Event>)
    requires Allowed(INITIAL, run)
    ensures var v := After(INITIAL, run);
      |v.inFlight| <= 1 && (v.screen.App? ==> v.unlocked) && (!v.closing ==> (v.busy <==> v.inFlight != []))
  {
    RunKeepsInv(INITIAL, run);
  }

  // --------------------------------------------------------- stale snapshots

  /** While the generation stands still and nothing runs, nothing starts to run. */
  lemma QuietStaysQuiet(v: View, e: Event)
    requires Inv(v) && Enabled(v, e) && v.inFlight == []
    ensures Next(v, e).generation == v.generation <==> Next(v, e).inFlight == []
  {
  }

  lemma {:induction false} SameGenerationMeansQuiet(v: View, run: seq<Event>, k: nat)
    requires Inv(v) && v.inFlight == [] && Allowed(v, run) && k <= |run|
    requires After(v, run).generation == v.generation
    ensures Allowed(v, run[..k]) && After(v, run[..k]).inFlight == [] && After(v, run[..k]).generation == v.generation
    decreases |run|
  {
    hide Inv, Next, Enabled;
    if run != [] {
      var w := Next(v, run[0]);
      NextKeepsInv(v, run[0]);
      RunKeepsInv(w, run[1..]);
      QuietStaysQuiet(v, run[0]);
      if k > 0 {
        SameGenerationMeansQuiet(w, run[1..], k - 1);
        assert run[..k][1..] == run[1..][..k - 1] && run[..k][0] == run[0];
      }
    } else {
      assert run[..k] == [];
    }
  }

  /** The snapshot under way was captured at the start of the run and is still the same one. */
  ghost predicate SameSync(v: View, run: seq<Event>) {
    forall k | 0 <= k < |run| :: !run[k].SyncFinish?
  }

  lemma OnlyItsFinishEndsSync(v: View, e: Event)
    requires Enabled(v, e) && v.sync.Some? && !e.SyncFinish?
    ensures Next(v, e).sync == v.sync
  {
    if e.Finish? { FinishLeavesSync(v, e.i, e.result); }
    hide Finished;
  }

  lemma FinishLeavesSync(v: View, i: nat, r: Result)
    requires Enabled(v, Finish(i, r))
    ensures Finished(v, i, r).sync == v.sync
  {
  }

  lemma {:induction false} SyncIsKept(v: View, run: seq<Event>)
    requires Allowed(v, run) && v.sync.Some? && SameSync(v, run)
    ensures After(v, run).sync == v.sync
    decreases |run|
  {
    hide Enabled, Next;
    if run != [] {
      assert !run[0].SyncFinish?;
      OnlyItsFinishEndsSync(v, run[0]);
      assert forall k | 0 <= k < |run[1..]| :: run[1..][k] == run[k + 1];
      SyncIsKept(Next(v, run[0]), run[1..]);
    }
  }

  /**
   A snapshot that began in v and comes back after the run is applied exactly when it is no error, the window
   is not closing, and no operation was dispatched since it began; then none was under way at any moment of it.
   */
  lemma AppliedSnapshotsAreCurrent(v: View, run: seq<Event>, s: Shared, k: nat)
    requires Inv(v) && MaySync(v) && k <= |run|
    requires var begun := Next(v, SyncTick); Allowed(begun, run) && SameSync(begun, run)
    ensures var begun := Next(v, SyncTick); var back := After(begun, run);
      && (Applies(back, s) <==> !s.SyncError? && !back.closing && back.generation == v.generation)
      && (Applies(back, s) ==> v.inFlight == [] && Allowed(begun, run[..k]) && After(begun, run[..k]).inFlight == [])
  {
    var begun := Next(v, SyncTick);
    NextKeepsInv(v, SyncTick);
    SyncIsKept(begun, run);
    if Applies(After(begun, run), s) {
      SameGenerationMeansQuiet(begun, run, k);
    }
  }

  // ---------------------------- an account being added, and what comes back meanwhile

  /** What happens without the user: snapshots start and come back, operations finish. */
  predicate Background(e: Event) {
    e.SyncTick? || e.SyncFinish? || e.Finish?
  }

  ghost predicate AllBackground(run: seq<Event>) {
    forall k | 0 <= k < |run| :: Background(run[k])
  }

  /** Neither the operation's completion nor what it dispatches leaves the login screen. */
  predicate LeavesScreen(op: Operation) {
    op.Refresh? || op.Mutate? || op.Logout? || op.Other?
  }

  ghost predicate Undisturbed(v: View) {
    v.closing || (!SnapshotPending(v) && forall i | 0 <= i < |v.inFlight| :: LeavesScreen(v.inFlight[i]))
  }

  ghost predicate StaysOnLogin(v: View) {
    forall run | Allowed(v, run) && AllBackground(run) :: After(v, run).screen.Login?
  }

  lemma LoginStandsOnce(v: View, e: Event)
    requires Inv(v) && v.adding && v.screen.Login? && Undisturbed(v) && Enabled(v, e) && Background(e)
    ensures var w := Next(v, e); w.adding && w.screen.Login? && Undisturbed(w)
  {
    if e.Finish? {
      assert v.inFlight == [v.inFlight[0]] && e.i == 0;
      assert v.inFlight[..e.i] + v.inFlight[e.i + 1..] == [];
    }
  }

  lemma {:induction false} LoginStands(v: View, run: seq<Event>)
    requires Inv(v) && v.adding && v.screen.Login? && Undisturbed(v) && Allowed(v, run) && AllBackground(run)
    ensures After(v, run).screen.Login?
    decreases |run|
  {
    hide Inv, Next, Enabled, Undisturbed;
    if run != [] {
      assert Background(run[0]);
      assert forall k | 0 <= k < |run[1..]| :: run[1..][k] == run[k + 1];
      LoginStandsOnce(v, run[0]);
      NextKeepsInv(v, run[0]);
      LoginStands(Next(v, run[0]), run[1..]);
    }
  }

  /** The answer with which an operation takes the login screen away. */
  function Disturbing(op: Operation): Result {
    match op
    case Startup | SwitchAccount => Found(OpenVault)
    case Initialize | Unlock => Flag(true)
    case _ => Plain
  }

  lemma OperationDisturbs(v: View)
    requires Inv(v) && v.adding && v.screen.Login? && !v.closing && v.inFlight != [] && !LeavesScreen(v.inFlight[0])
    ensures !StaysOnLogin(v)
  {
    var op := v.inFlight[0];
    var first := Finish(0, Disturbing(op));
    assert v.inFlight == [op] && v.inFlight[..0] + v.inFlight[1..] == [];
    var w := Next(v, first);
    if op.Import? {
      var second := Finish(0, Plain);
      var run := [first, second];
      assert w.inFlight == [Lock] && w.inFlight[..0] + w.inFlight[1..] == [];
      assert Next(w, second).screen.UnlockPrompt?;
      hide Next;
      assert run[1..] == [second] && run[1..][1..] == [];
      assert Allowed(w, run[1..]) && After(w, run[1..]) == Next(w, second);
      assert Allowed(v, run) && AllBackground(run) && After(v, run) == After(w, run[1..]);
    } else {
      var run := [first];
      assert run[1..] == [];
      assert Allowed(v, run) && AllBackground(run) && !After(v, run).screen.Login?;
    }
  }

  lemma SnapshotDisturbs(v: View)
    requires !v.closing && SnapshotPending(v)
    ensures !StaysOnLogin(v)
  {
    var run := [SyncFinish(NowUnlocked)];
    assert run[1..] == [];
    assert Allowed(v, run) && AllBackground(run) && After(v, run).screen.App?;
  }

  /**
   Adding an account neither counts as a dispatch nor waits for one. After any run, the login screen it shows
   stays through everything that may come back, exactly when the window is closing, or no current snapshot is
   pending and every operation under way is one whose completion leaves the screen alone.
   */
  lemma AddAccountCanBeOverwritten(run: seq<Event>)
    requires Allowed(INITIAL, run)
    ensures var v := After(INITIAL, run);
      StaysOnLogin(Next(v, AddAccount)) <==> Undisturbed(v)
  {
    RunKeepsInv(INITIAL, run);
    var v := After(INITIAL, run);
    var w := Next(v, AddAccount);
    NextKeepsInv(v, AddAccount);
    assert Undisturbed(w) <==> Undisturbed(v);
    hide Inv, Allowed, After;
    if Undisturbed(w) {
      forall later | Allowed(w, later) && AllBackground(later) ensures After(w, later).screen.Login? {
        LoginStands(w, later);
      }
    } else if SnapshotPending(w) {
      SnapshotDisturbs(w);
    } else {
      OnlyOneUnderWay(w);
      OperationDisturbs(w);
    }
  }

  lemma OnlyOneUnderWay(v: View)
    requires Inv(v)
    ensures |v.inFlight| <= 1
  {
  }

  // -------------------------------------------------- what the window shows after

  /** The screen, whether the vault counts as unlocked, whether somebody is signed in or being added. */
  predicate Shows(v: View, screen: Screen, unlocked: bool, hasUser: bool, adding: bool) {
    v.screen == screen && v.unlocked == unlocked && v.hasUser == hasUser && v.adding == adding
  }

  /** Nothing is under way, or just that operation. */
  predicate Rests(v: View) {
    !v.busy && v.inFlight == []
  }

  predicate Runs(v: View, op: Operation) {
    v.busy && v.inFlight == [op]
  }

  /** Two views that differ at most in what is under way. */
  predicate SameWindow(v: View, w: View) {
    Shows(w, v.screen, v.unlocked, v.hasUser, v.adding)
  }

  /** Whatever is under way can come back, with a failure, an expiry, or an answer of its kind. */
  lemma OperationsComeBack(v: View, snapshot: Snapshot, yes: bool)
    requires v.inFlight != []
    ensures var op := v.inFlight[0];
      && Enabled(v, Finish(0, Failure)) && Enabled(v, Finish(0, Expired))
      && Enabled(v, Finish(0, if op.Startup? || op.SwitchAccount? then Found(snapshot)
                              else if op.Initialize? || op.Unlock? then Flag(yes) else Plain))
  {
  }

  /** What a finished operation leaves on screen when it was asked in view v, and what it starts. */
  predicate AnswerShows(v: View, op: Operation, r: Result, w: View) {
    match r
    case Failure => SameWindow(v, w) && Rests(w)
    case Expired => Shows(w, Login, false, v.hasUser, v.adding) && Rests(w)
    case Found(s) =>
      && Rests(w)
      && (var adding := v.adding && op.Startup?;
          match s
          case SignedOut => Shows(w, Login, false, false, adding)
          case NoVault => Shows(w, Setup, false, true, adding)
          case LockedVault => Shows(w, UnlockPrompt, false, true, adding)
          case OpenVault => Shows(w, App, true, true, adding))
    case Flag(yes) =>
      if yes then Shows(w, App, true, v.hasUser, v.adding) && Runs(w, Refresh)
      else Shows(w, if op.Initialize? then UnlockPrompt else Setup, false, v.hasUser, v.adding) && Rests(w)
    case Plain =>
      if op.Authenticate? then Shows(w, Loading, v.unlocked, v.hasUser, false) && Runs(w, Startup)
      else if op.Lock? || op.ChangePassword? then Shows(w, UnlockPrompt, false, v.hasUser, v.adding) && Rests(w)
      else if op.Logout? then Shows(w, Login, false, false, v.adding) && Rests(w)
      else if op.Mutate? then SameWindow(v, w) && Runs(w, Refresh)
      else if op.Import? then SameWindow(v, w) && Runs(w, Operation.Lock)
      else SameWindow(v, w) && Rests(w)
  }

  lemma CompletionShows(v: View, op: Operation, r: Result)
    requires Rests(v) && !v.closing && Answers(op, r) && !r.Failure? && !r.Expired?
    ensures var w := Completed(v, op, r);
      && AnswerShows(v, op, r, w)
      && w.sync == v.sync && !w.closing && w.generation == v.generation + (if w.busy then 1 else 0)
  {
    assert forall o: Operation :: [] + [o] == [o];
  }

  /** What each operation's answer leaves on screen, and which operation it starts. */
  lemma AnswersShow(v: View, r: Result)
    requires Inv(v) && !v.closing && v.inFlight != [] && Enabled(v, Finish(0, r))
    ensures var op, w := v.inFlight[0], Next(v, Finish(0, r));
      && AnswerShows(v, op, r, w)
      && w.sync == v.sync && !w.closing && w.generation == v.generation + (if w.busy then 1 else 0)
  {
    assert v.inFlight[..0] + v.inFlight[1..] == [];
    if !r.Failure? && !r.Expired? {
      var rested := v.(inFlight := [], busy := false);
      CompletionShows(rested, v.inFlight[0], r);
      hide Completed, Answers;
    }
  }

  /** A snapshot of the shared state that comes back: a current one decides what is shown, a stale one nothing. */
  lemma SnapshotsShow(v: View, s: Shared)
    requires v.sync.Some?
    ensures var w := Next(v, SyncFinish(s));
      && w.sync.None? && w.busy == v.busy && w.inFlight == v.inFlight && w.generation == v.generation
      && w.closing == v.closing
      && if v.closing || v.sync.value != v.generation then SameWindow(v, w)
         else match s
           case SyncError => SameWindow(v, w)
           case NoSession => if v.hasUser then Shows(w, Login, false, false, v.adding) else SameWindow(v, w)
           case MissingVault => Shows(w, Setup, false, v.hasUser, v.adding)
           case OtherUser(SignedOut) => Shows(w, Login, false, false, v.adding)
           case OtherUser(NoVault) => Shows(w, Setup, false, true, v.adding)
           case OtherUser(LockedVault) => Shows(w, UnlockPrompt, false, true, v.adding)
           case OtherUser(OpenVault) => Shows(w, App, true, true, v.adding)
           case NowLocked => Shows(w, UnlockPrompt, false, v.hasUser, v.adding)
           case NowUnlocked => Shows(w, App, true, v.hasUser, v.adding)
  {
  }

  /** What the user and the timer do to the view. */
  lemma UsersShow(v: View, op: Operation)
    requires Inv(v) && !v.closing
    ensures var w := Next(v, Request(op));
      if v.busy then w == v
      else SameWindow(v, w) && Runs(w, op) && w.generation == v.generation + 1 && w.sync == v.sync && !w.closing
    ensures var w := Next(v, Start);
      && Shows(w, Loading, v.unlocked, v.hasUser, v.adding) && w.sync == v.sync && !w.closing
      && (if v.busy then w.inFlight == v.inFlight && w.busy && w.generation == v.generation
          else Runs(w, Startup) && w.generation == v.generation + 1)
    ensures Next(v, AddAccount) == v.(adding := true, screen := Login)
    ensures Next(v, CancelAdd) == if v.adding then Next(v.(adding := false), Start) else v
    ensures Next(v, SyncTick)
            == if v.sync.None? && !v.busy && !v.adding then v.(sync := Some(v.generation)) else v
    ensures Next(v, Close) == v.(closing := true)
  {
    assert !v.busy ==> v.inFlight == [] && [] + [op] == [op];
  }

  /** Once the window is closing nothing changes what it shows. */
  lemma ClosingIsFinal(v: View, e: Event)
    requires v.closing && Enabled(v, e) && (e.Request? || e.Finish? || e.SyncTick? || e.SyncFinish?)
    ensures SameWindow(v, Next(v, e)) && Next(v, e).closing
  {
  }

  /** The only answers that unlock: an open vault found, a yes to unlock or initialize, a shared session open now. */
  predicate MayUnlock(e: Event) {
    || (e.Finish? && (e.result == Found(OpenVault) || e.result == Flag(true)))
    || (e.SyncFinish? && (e.shared == NowUnlocked || e.shared == OtherUser(OpenVault)))
  }

  /** A locked vault stays locked, and its contents off the screen, until an answer unlocks it. */
  lemma {:induction false} LockedUntilUnlocked(v: View, run: seq<Event>)
    requires Inv(v) && !v.unlocked && Allowed(v, run) && forall k | 0 <= k < |run| :: !MayUnlock(run[k])
    ensures !After(v, run).unlocked && !After(v, run).screen.App?
    decreases |run|
  {
    hide Inv, Next, Enabled, MayUnlock;
    if run != [] {
      LockedOnce(v, run[0]);
      NextKeepsInv(v, run[0]);
      assert forall k | 0 <= k < |run[1..]| :: run[1..][k] == run[k + 1];
      LockedUntilUnlocked(Next(v, run[0]), run[1..]);
    } else {
      LockedShowsNothing(v);
    }
  }

  lemma LockedOnce(v: View, e: Event)
    requires Enabled(v, e) && !v.unlocked && !MayUnlock(e)
    ensures !Next(v, e).unlocked
  {
  }

  lemma LockedShowsNothing(v: View)
    requires Inv(v) && !v.unlocked
    ensures !v.screen.App?
  {
  }
}
