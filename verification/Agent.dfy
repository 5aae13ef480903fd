/**
 The shared unlock agent: a session in memory, served under a mutex that a polling watchdog also takes.
 Times are readings of one steady clock, taken while the mutex is held, in nanoseconds.
 */
module Agent {
  import opened Wrappers
  import opened Crypto

  const SECOND: int := 1_000_000_000

  /** What arrives under the mutex: a request, or the watchdog's turn. */
  datatype Event =
    | Unlock(candidate: Option<Bytes>)
    | Status
    | Lock
    | Operation(name: string, works: bool)
    | Malformed
    | Watchdog

  datatype Response =
    | Granted
    | Report(unlocked: bool, idleLeft: int, absoluteLeft: int)
    | Served(name: string, key: Bytes)
    | Failed
    | Nothing

  datatype Limits = Limits(idle: int, absolute: int)

  datatype Session = Session(key: Bytes, started: int, last: int, stopped: bool)

  const OPERATIONS := {"list", "get", "add", "update", "remove"}

  function Whole(d: int): int {
    if d >= 0 then d / SECOND else -((-d) / SECOND)
  }

  function Left(limit: int, elapsed: int): int {
    if limit - Whole(elapsed) > 0 then limit - Whole(elapsed) else 0
  }

  predicate Expired(l: Limits, s: Session, now: int) {
    now - s.last > l.idle * SECOND || now - s.started > l.absolute * SECOND
  }

  /** One turn of the service loop or of the watchdog. */
  function Step(l: Limits, s: Session, now: int, e: Event): (Session, Response) {
    if s.stopped then (s, Nothing)
    else match e
      case Unlock(candidate) =>
        if candidate.None? || |candidate.value| != KEY_BYTES then (s, Failed)
        else (Session(candidate.value, now, now, false), Granted)
      case Status =>
        (s, if s.key == [] then Report(false, 0, 0)
            else Report(true, Left(l.idle, now - s.last), Left(l.absolute, now - s.started)))
      case Lock => (s.(key := [], stopped := true), Granted)
      case Operation(name, works) =>
        if s.key == [] then (s, Failed)
        else (s.(last := now), if name in OPERATIONS && works then Served(name, s.key) else Failed)
      case Malformed => (s, Failed)
      case Watchdog => (if s.key != [] && Expired(l, s, now) then s.(key := []) else s, Nothing)
  }

  /**
   The agent itself: the variables of the service loop, updated in place. The history is what has happened
   under the mutex since the process began.
   */
  class Process {
    const limits: Limits
    const born: int
    var key: Bytes
    var started: int
    var last: int
    var stop: bool
    ghost var history: seq<Timed>

    ghost predicate Valid()
      reads this
    {
      Now() == After(limits, born, history)
    }

    function Now(): (s: Session)
      reads this
    {
      Session(key, started, last, stop)
    }

    constructor (limits: Limits, now: int)
      ensures Valid() && this.limits == limits && born == now && history == []
    {
      this.limits, born, key, started, last, stop := limits, now, [], now, now, false;
      history := [];
    }

    method Wipe()
      modifies this`key
      ensures Now() == old(Now()).(key := [])
    {
      key := [];
    }

    /** Serves one request; a vault operation only with the key of an unlock that still stands. */
    method Handle(now: int, request: Event) returns (response: Response)
      requires Valid() && !request.Watchdog? && !stop
      modifies this
      ensures Valid() && history == old(history) + [Timed(now, request)]
      ensures (Now(), response) == Step(limits, old(Now()), now, request)
      ensures request.Operation? ==>
                response == if old(key) != [] && request.works
                               && request.name in ["list", "get", "add", "update", "remove"]
                            then Served(request.name, old(key)) else Failed
      ensures response.Served? ==> exists i: nat :: Unlocked(limits, old(history), i, response.key)
    {
      hide After, Unlocked;
      if Step(limits, Now(), now, request).1.Served? {
        ServedUnderUnlock(limits, born, history, now, request);
      }
      Remembers(limits, born, history, Timed(now, request));
      history := history + [Timed(now, request)];
      match request
      case Unlock(candidate) =>
        if candidate.None? || |candidate.value| != KEY_BYTES { return Failed; }
        Wipe();
        key := candidate.value;
        started, last := now, now;
        response := Granted;
      case Status =>
        var idleLeft := if key == [] then 0 else Left(limits.idle, now - last);
        var absoluteLeft := if key == [] then 0 else Left(limits.absolute, now - started);
        response := Report(key != [], idleLeft, absoluteLeft);
      case Lock =>
        Wipe();
        response := Granted;
        stop := true;
      case Operation(name, works) =>
        if key == [] { return Failed; }
        last := now;
        response := if name in OPERATIONS && works then Served(name, key) else Failed;
      case Malformed =>
        response := Failed;
    }

    /** The watchdog's turn: afterwards a key in memory is within both limits. */
    method Evaluate(now: int)
      requires Valid()
      modifies this
      ensures Valid() && history == old(history) + [Timed(now, Watchdog)]
      ensures Now() == Step(limits, old(Now()), now, Watchdog).0
      ensures key != [] ==>
                now - started <= limits.absolute * 1_000_000_000 && now - last <= limits.idle * 1_000_000_000
    {
      StoppedExactlyByLock(limits, born, history);
      Remembers(limits, born, history, Timed(now, Watchdog));
      hide After;
      history := history + [Timed(now, Watchdog)];
      if stop { return; }
      if key != [] && (now - last > limits.idle * SECOND || now - started > limits.absolute * SECOND) {
        Wipe();
      }
    }
  }

  // -------------------------------------------------------------------- runs

  datatype Timed = Timed(at: int, event: Event)

  function After(l: Limits, t0: int, run: seq<Timed>): Session {
    if run == [] then Session([], t0, t0, false)
    else
      var n := |run| - 1;
      Step(l, After(l, t0, run[..n]), run[n].at, run[n].event).0
  }

  lemma Remembers(l: Limits, t0: int, run: seq<Timed>, next: Timed)
    ensures After(l, t0, run + [next]) == Step(l, After(l, t0, run), next.at, next.event).0
  {
    assert (run + [next])[..|run|] == run;
  }

  /** The clock never runs backwards. */
  ghost predicate Ticks(t0: int, run: seq<Timed>) {
    && (forall i | 0 <= i < |run| :: t0 <= run[i].at)
    && (forall i, j | 0 <= i < j < |run| :: run[i].at <= run[j].at)
  }

  function EndOf(t0: int, run: seq<Timed>): int {
    if run == [] then t0 else run[|run| - 1].at
  }

  /** When the watchdog last had its turn, or the agent started. */
  function LastWatch(t0: int, run: seq<Timed>): int {
    if run == [] then t0
    else
      var n := |run| - 1;
      if run[n].event.Watchdog? then run[n].at else LastWatch(t0, run[..n])
  }

  lemma {:induction false} StoppedExactlyByLock(l: Limits, t0: int, run: seq<Timed>)
    ensures After(l, t0, run).stopped <==> exists j | 0 <= j < |run| :: run[j].event.Lock?
    ensures After(l, t0, run).stopped ==> After(l, t0, run).key == []
  {
    if run != [] {
      var n := |run| - 1;
      StoppedExactlyByLock(l, t0, run[..n]);
      assert forall j | 0 <= j < n :: run[..n][j] == run[j];
      if run[n].event.Lock? {
        assert After(l, t0, run).stopped;
      } else if After(l, t0, run[..n]).stopped {
        var j :| 0 <= j < n && run[..n][j].event.Lock?;
        assert run[j].event.Lock?;
      }
    }
  }

  function AtLeastZero(seconds: int): int {
    if seconds > 0 then seconds * 1_000_000_000 else 0
  }

  /** A key in memory was within both limits when the watchdog last looked, or has been set or used since. */
  ghost predicate Bounded(l: Limits, s: Session, watch: int) {
    s.key != [] ==>
      && s.started - watch + AtLeastZero(l.absolute) >= 0
      && s.last - watch + AtLeastZero(l.idle) >= 0
  }

  lemma LimitIsCovered(seconds: int)
    ensures AtLeastZero(seconds) >= 0 && AtLeastZero(seconds) >= seconds * 1_000_000_000
  {
  }

  lemma StepIsBounded(l: Limits, s: Session, watch: int, now: int, e: Event)
    requires Bounded(l, s, watch) && watch <= now && (s.stopped ==> s.key == [])
    ensures Bounded(l, Step(l, s, now, e).0, if e.Watchdog? then now else watch)
  {
    LimitIsCovered(l.idle);
    LimitIsCovered(l.absolute);
    hide AtLeastZero;
  }

  lemma {:induction false} KeyIsBounded(l: Limits, t0: int, run: seq<Timed>)
    requires Ticks(t0, run)
    ensures Bounded(l, After(l, t0, run), LastWatch(t0, run)) && LastWatch(t0, run) <= EndOf(t0, run)
  {
    if run != [] {
      var n := |run| - 1;
      assert forall i | 0 <= i < n :: run[..n][i] == run[i];
      KeyIsBounded(l, t0, run[..n]);
      assert EndOf(t0, run[..n]) <= run[n].at;
      StoppedExactlyByLock(l, t0, run[..n]);
      StepIsBounded(l, After(l, t0, run[..n]), LastWatch(t0, run[..n]), run[n].at, run[n].event);
    }
  }

  /**
   Timed safety: at any time t not later than delta after the watchdog's last turn, a key in memory was
   unlocked at most absolute + delta ago and used at most idle + delta ago.
   */
  lemma KeyExpiresInTime(l: Limits, t0: int, run: seq<Timed>, t: int, delta: int)
    requires Ticks(t0, run) && t <= LastWatch(t0, run) + delta
    ensures var s := After(l, t0, run);
      s.key != [] ==>
        t - s.started <= AtLeastZero(l.absolute) + delta && t - s.last <= AtLeastZero(l.idle) + delta
  {
    KeyIsBounded(l, t0, run);
  }

  predicate Accepted(e: Event) {
    e.Unlock? && e.candidate.Some? && |e.candidate.value| == 32
  }

  /** Nothing but an unlock that is accepted moves the start of the absolute limit. */
  lemma {:induction false} OnlyUnlockRestarts(l: Limits, t0: int, run: seq<Timed>, i: nat)
    requires i <= |run| && forall j | i <= j < |run| :: !Accepted(run[j].event)
    ensures After(l, t0, run).started == After(l, t0, run[..i]).started
    decreases |run| - i
  {
    if i < |run| {
      var n := |run| - 1;
      assert run[..n][..i] == run[..i];
      OnlyUnlockRestartsStep(l, t0, run);
      OnlyUnlockRestarts(l, t0, run[..n], i);
    } else {
      assert run[..i] == run;
    }
  }

  lemma OnlyUnlockRestartsStep(l: Limits, t0: int, run: seq<Timed>)
    requires run != [] && !Accepted(run[|run| - 1].event)
    ensures After(l, t0, run).started == After(l, t0, run[..|run| - 1]).started
  {
  }

  /** So without a fresh unlock the key is gone once the limit and one watchdog gap have passed. */
  lemma NoTrafficKeepsTheKey(l: Limits, t0: int, run: seq<Timed>, i: nat, t: int, delta: int)
    requires Ticks(t0, run) && i <= |run| && (forall j | i <= j < |run| :: !Accepted(run[j].event))
    requires t <= LastWatch(t0, run) + delta
    requires t > After(l, t0, run[..i]).started + AtLeastZero(l.absolute) + delta
    ensures After(l, t0, run).key == []
  {
    KeyExpiresInTime(l, t0, run, t, delta);
    OnlyUnlockRestarts(l, t0, run, i);
  }

  // -------------------------------------------------------------- provenance

  /** When the key unlocked by event i was last used: by any operation since, known or not. */
  function Touched(run: seq<Timed>, i: nat): int
    requires i < |run|
  {
    var n := |run| - 1;
    if i == n then run[i].at
    else if run[n].event.Operation? then run[n].at
    else Touched(run[..n], i)
  }

  /** Event i unlocked with key c; nothing since has locked, expired or replaced it. */
  ghost predicate Unlocked(l: Limits, run: seq<Timed>, i: nat, c: Bytes) {
    && i < |run| && run[i].event == Unlock(Some(c)) && |c| == 32
    && (forall j | 0 <= j < |run| :: !run[j].event.Lock?)
    && (forall j | i < j < |run| :: !Accepted(run[j].event))
    && (forall j | i < j < |run| && run[j].event.Watchdog? ::
          !Expired(l, Session(c, run[i].at, Touched(run[..j], i), false), run[j].at))
  }

  /** An unlock that still stands, seen one event earlier. */
  lemma UnlockedBefore(l: Limits, run: seq<Timed>, i: nat, c: Bytes)
    requires Unlocked(l, run, i, c) && i < |run| - 1
    ensures Unlocked(l, run[..|run| - 1], i, c)
  {
    var init := run[..|run| - 1];
    forall j | i < j < |init| && init[j].event.Watchdog?
      ensures !Expired(l, Session(c, init[i].at, Touched(init[..j], i), false), init[j].at)
    {
      assert init[..j] == run[..j];
      assert run[j] == init[j];
    }
    hide Expired;
  }

  /** The session an unlock that still stands has led to. */
  lemma {:induction false} UnlockedMeans(l: Limits, t0: int, run: seq<Timed>, i: nat, c: Bytes)
    requires Unlocked(l, run, i, c)
    ensures After(l, t0, run) == Session(c, run[i].at, Touched(run, i), false)
  {
    var n := |run| - 1;
    StoppedExactlyByLock(l, t0, run[..n]);
    if i < n {
      UnlockedBefore(l, run, i, c);
      UnlockedMeans(l, t0, run[..n], i, c);
    }
  }

  /** One more event after an unlock that stands, unless it ends it. */
  lemma UnlockedAfter(l: Limits, run: seq<Timed>, i: nat, c: Bytes)
    requires run != [] && Unlocked(l, run[..|run| - 1], i, c)
    requires var e := run[|run| - 1].event; !e.Lock? && !Accepted(e)
    requires var n := |run| - 1;
      run[n].event.Watchdog? ==> !Expired(l, Session(c, run[i].at, Touched(run[..n], i), false), run[n].at)
    ensures Unlocked(l, run, i, c)
  {
    var n := |run| - 1;
    var init := run[..n];
    assert forall j | 0 <= j < n :: run[j] == init[j];
    forall j | i < j < |run| && run[j].event.Watchdog?
      ensures !Expired(l, Session(c, run[i].at, Touched(run[..j], i), false), run[j].at)
    {
      if j < n { assert init[..j] == run[..j]; }
    }
    hide Expired;
  }

  /** A key in memory comes from an unlock that still stands. */
  lemma {:induction false} KeyHasUnlock(l: Limits, t0: int, run: seq<Timed>) returns (i: nat)
    requires After(l, t0, run).key != []
    ensures Unlocked(l, run, i, After(l, t0, run).key)
  {
    var n := |run| - 1;
    var init := run[..n];
    var before := After(l, t0, init);
    if Accepted(run[n].event) {
      i := n;
      StoppedExactlyByLock(l, t0, run);
    } else {
      i := KeyHasUnlock(l, t0, init);
      UnlockedMeans(l, t0, init, i, before.key);
      assert run[i] == init[i];
      UnlockedAfter(l, run, i, before.key);
    }
  }

  /**
   Provenance: the agent's key is the 32 bytes of an accepted unlock with no lock, expiry or other unlock
   since, and it is empty exactly when there is no such unlock.
   */
  lemma KeyIsTheLastUnlock(l: Limits, t0: int, run: seq<Timed>, c: Bytes)
    ensures var s := After(l, t0, run);
      && (c != [] && s.key == c <==> exists i: nat :: Unlocked(l, run, i, c))
      && (s.key == [] <==> !exists i: nat, k: Bytes :: Unlocked(l, run, i, k))
  {
    var s := After(l, t0, run);
    if s.key != [] {
      var i := KeyHasUnlock(l, t0, run);
    }
    forall i: nat, k: Bytes | Unlocked(l, run, i, k) ensures s.key == k && k != [] {
      UnlockedMeans(l, t0, run, i, k);
    }
  }

  /** A vault operation is served only with the key of an unlock that still stood when it arrived. */
  lemma ServedUnderUnlock(l: Limits, t0: int, run: seq<Timed>, now: int, e: Event)
    requires Step(l, After(l, t0, run), now, e).1.Served?
    ensures e.Operation? && exists i: nat :: Unlocked(l, run, i, Step(l, After(l, t0, run), now, e).1.key)
  {
    var i := KeyHasUnlock(l, t0, run);
  }

  /**
   What a client of an unlocked agent gets: the answer of its operation, under the key, exactly when the
   operation works and is one of the five; otherwise a failure. Either way the key counts as used.
   */
  lemma OperationsAreServed(l: Limits, s: Session, now: int, name: string, works: bool)
    requires !s.stopped
    ensures var (after, r) := Step(l, s, now, Operation(name, works));
      && (s.key != [] ==> after == s.(last := now))
      && (s.key == [] ==> after == s)
      && r == if s.key != [] && works && name in ["list", "get", "add", "update", "remove"]
              then Served(name, s.key) else Failed
  {
  }

  /** The same for whole runs: served if and only if an unlock with that key still stands when the request comes. */
  lemma ServedExactly(l: Limits, t0: int, run: seq<Timed>, now: int, name: string, works: bool, key: Bytes)
    ensures Step(l, After(l, t0, run), now, Operation(name, works)).1 == Served(name, key)
       <==> && works && name in ["list", "get", "add", "update", "remove"]
            && exists i: nat :: Unlocked(l, run, i, key)
  {
    var s := After(l, t0, run);
    KeyIsTheLastUnlock(l, t0, run, key);
    StoppedExactlyByLock(l, t0, run);
    if !s.stopped { OperationsAreServed(l, s, now, name, works); }
    hide After, Unlocked;
    if exists i: nat :: Unlocked(l, run, i, key) { UnlockedIsRunning(l, t0, run, key); }
  }

  lemma UnlockedIsRunning(l: Limits, t0: int, run: seq<Timed>, key: Bytes)
    requires exists i: nat :: Unlocked(l, run, i, key)
    ensures After(l, t0, run).key == key && key != [] && !After(l, t0, run).stopped
  {
    var i: nat :| Unlocked(l, run, i, key);
    UnlockedMeans(l, t0, run, i, key);
  }

  /** What the other requests answer: an unlock is granted for 32 bytes and nothing else, a lock always. */
  lemma OtherAnswers(l: Limits, s: Session, now: int, candidate: Option<Bytes>)
    requires !s.stopped
    ensures Step(l, s, now, Unlock(candidate))
            == if candidate.Some? && |candidate.value| == 32 then (Session(candidate.value, now, now, false), Granted)
               else (s, Failed)
    ensures Step(l, s, now, Lock) == (Session([], s.started, s.last, true), Granted)
    ensures Step(l, s, now, Malformed) == (s, Failed)
    ensures Step(l, s, now, Watchdog)
            == (if s.key != []
                   && (now - s.last > l.idle * 1_000_000_000 || now - s.started > l.absolute * 1_000_000_000)
                then s.(key := []) else s, Nothing)
  {
  }

  /** After a lock the agent answers nobody any more. */
  lemma StoppedAnswersNobody(l: Limits, s: Session, now: int, e: Event)
    requires s.stopped
    ensures Step(l, s, now, e) == (s, Nothing)
  {
  }

  /** Seconds left of a limit: the limit less the whole seconds elapsed, and never below zero. */
  lemma WholeSecondsLeft(limit: int, elapsed: int, seconds: nat)
    requires seconds * 1_000_000_000 <= elapsed < (seconds + 1) * 1_000_000_000
    ensures Left(limit, elapsed) == if limit > seconds then limit - seconds else 0
  {
    assert elapsed / SECOND == seconds;
  }

  lemma WholeSeconds(limit: int, elapsed: int)
    requires elapsed >= 0
    ensures Left(limit, elapsed) == 0 <==> elapsed >= limit * SECOND
  {
    var q := elapsed / SECOND;
    assert q * SECOND <= elapsed < (q + 1) * SECOND;
    if limit <= q {
      assert limit * SECOND <= q * SECOND;
    } else {
      assert (q + 1) * SECOND <= limit * SECOND;
    }
  }

  /**
   Status says whether there is a key, and how many whole seconds are left of each limit; that is none exactly
   when the limit is reached.
   */
  lemma StatusIsTruthful(l: Limits, s: Session, now: int, idle: nat, absolute: nat)
    requires !s.stopped && s.last <= now && s.started <= now
    requires idle * 1_000_000_000 <= now - s.last < (idle + 1) * 1_000_000_000
    requires absolute * 1_000_000_000 <= now - s.started < (absolute + 1) * 1_000_000_000
    ensures var (after, r) := Step(l, s, now, Status);
      && after == s
      && r == (if s.key == [] then Report(false, 0, 0)
               else Report(true, if l.idle > idle then l.idle - idle else 0,
                           if l.absolute > absolute then l.absolute - absolute else 0))
      && (s.key != [] ==> (r.idleLeft == 0 <==> now - s.last >= l.idle * 1_000_000_000)
                          && (r.absoluteLeft == 0 <==> now - s.started >= l.absolute * 1_000_000_000))
      && (s.key != [] && Expired(l, s, now) ==> r.idleLeft == 0 || r.absoluteLeft == 0)
  {
    WholeSecondsLeft(l.idle, now - s.last, idle);
    WholeSecondsLeft(l.absolute, now - s.started, absolute);
    WholeSeconds(l.idle, now - s.last);
    WholeSeconds(l.absolute, now - s.started);
    hide Left;
  }
}
