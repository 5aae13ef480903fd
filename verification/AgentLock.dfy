/**
 Which process is the agent: any number of processes start, serve, stop and crash, each taking the
 instance lock without waiting, unlinking and binding the one endpoint, and unlinking it again.
 */
module AgentLock {
  import opened Wrappers

  type Pid = nat

  /** How far a process is in run_agent and listen_channel. */
  datatype Stage =
    | Starting   // before the lock is tried
    | Locked     // holds the lock, has not unlinked yet
    | Unlinked   // removed whatever was at the endpoint
    | Serving    // bound and listening
    | Closed     // stopped: the listener is closed, the endpoint still there
    | Cleared    // removed its endpoint
    | Refused    // could not bind or listen; returns without unlinking
    | Gone       // returned, or crashed

  /** What the path holds: nothing, a file from an earlier login, or the socket a process made there. */
  datatype Endpoint = Absent | Leftover | SocketOf(owner: Pid)

  datatype System = System(stages: map<Pid, Stage>, holder: Option<Pid>, endpoint: Endpoint)

  datatype Action =
    | Spawn(p: Pid)
    | TryLock(p: Pid)
    | UnlinkOld(p: Pid)
    | Bind(p: Pid, works: bool, listens: bool)
    | Stop(p: Pid)
    | UnlinkOwn(p: Pid)
    | Release(p: Pid)
    | Crash(p: Pid)

  predicate Critical(stage: Stage) {
    !stage.Starting? && !stage.Gone?
  }

  predicate At(s: System, p: Pid, stage: Stage) {
    p in s.stages && s.stages[p] == stage
  }

  predicate Enabled(s: System, a: Action) {
    match a
    case Spawn(p) => p !in s.stages
    case TryLock(p) => At(s, p, Starting)
    case UnlinkOld(p) => At(s, p, Locked)
    case Bind(p, works, _) => At(s, p, Unlinked) && (works ==> s.endpoint.Absent?)
    case Stop(p) => At(s, p, Serving)
    case UnlinkOwn(p) => At(s, p, Closed)
    case Release(p) => At(s, p, Cleared) || At(s, p, Refused)
    case Crash(p) => p in s.stages && !s.stages[p].Gone?
  }

  function Move(s: System, p: Pid, stage: Stage): System {
    s.(stages := s.stages[p := stage])
  }

  /** The kernel drops a lock with the process that holds it; it leaves the endpoint's file. */
  function Next(s: System, a: Action): System
    requires Enabled(s, a)
  {
    match a
    case Spawn(p) => Move(s, p, Starting)
    case TryLock(p) => if s.holder.Some? then Move(s, p, Gone) else Move(s, p, Locked).(holder := Some(p))
    case UnlinkOld(p) => Move(s, p, Unlinked).(endpoint := Absent)
    case Bind(p, works, listens) =>
      if !works then Move(s, p, Refused)
      else if !listens then Move(s, p, Refused).(endpoint := SocketOf(p))
      else Move(s, p, Serving).(endpoint := SocketOf(p))
    case Stop(p) => Move(s, p, Closed)
    case UnlinkOwn(p) => Move(s, p, Cleared).(endpoint := Absent)
    case Release(p) => Move(s, p, Gone).(holder := None)
    case Crash(p) => Move(s, p, Gone).(holder := if s.holder == Some(p) then None else s.holder)
  }

  ghost predicate Allowed(s: System, actions: seq<Action>)
    decreases |actions|
  {
    actions == [] || (Enabled(s, actions[0]) && Allowed(Next(s, actions[0]), actions[1..]))
  }

  function Run(s: System, actions: seq<Action>): System
    requires Allowed(s, actions)
    decreases |actions|
  {
    if actions == [] then s else Run(Next(s, actions[0]), actions[1..])
  }

  /** No process yet; a file may be left from before. */
  predicate Fresh(s: System) {
    s.stages == map[] && s.holder.None? && !s.endpoint.SocketOf?
  }

  predicate Open(s: System, p: Pid) {
    At(s, p, Serving) || At(s, p, Closed)
  }

  /** Whoever made the file will never answer on it again. */
  predicate Stale(s: System) {
    match s.endpoint
    case Absent => false
    case Leftover => true
    case SocketOf(p) => At(s, p, Refused) || At(s, p, Gone)
  }

  ghost predicate Inv(s: System) {
    && (forall p | p in s.stages :: Critical(s.stages[p]) <==> s.holder == Some(p))
    && (s.holder.Some? ==> s.holder.value in s.stages)
    && (forall p | p in s.stages && Open(s, p) :: s.endpoint == SocketOf(p))
    && (s.endpoint.SocketOf? ==> Stale(s) || Open(s, s.endpoint.owner))
    && (forall p | p in s.stages && s.stages[p].Unlinked? :: s.endpoint.Absent?)
  }

  lemma LockKeepsInv(s: System, a: Action)
    requires Inv(s) && Enabled(s, a) && (a.Spawn? || a.TryLock?)
    ensures Inv(Next(s, a))
  {
  }

  lemma EndKeepsInv(s: System, a: Action)
    requires Inv(s) && Enabled(s, a) && (a.Release? || a.Crash?)
    ensures Inv(Next(s, a))
  {
  }

  lemma EndpointKeepsInv(s: System, a: Action)
    requires Inv(s) && Enabled(s, a) && (a.Stop? || a.UnlinkOld? || a.UnlinkOwn?)
    ensures Inv(Next(s, a))
  {
  }

  lemma BindKeepsInv(s: System, p: Pid, works: bool, listens: bool)
    requires Inv(s) && Enabled(s, Bind(p, works, listens))
    ensures Inv(Next(s, Bind(p, works, listens)))
  {
  }

  lemma StepKeepsInv(s: System, a: Action)
    requires Inv(s) && Enabled(s, a)
    ensures Inv(Next(s, a))
  {
    hide Inv, Next, Enabled;
    match a
    case Bind(p, works, listens) => BindKeepsInv(s, p, works, listens);
    case Stop(_) => EndpointKeepsInv(s, a);
    case UnlinkOld(_) => EndpointKeepsInv(s, a);
    case UnlinkOwn(_) => EndpointKeepsInv(s, a);
    case Release(_) => EndKeepsInv(s, a);
    case Crash(_) => EndKeepsInv(s, a);
    case _ => LockKeepsInv(s, a);
  }

  lemma {:induction false} RunKeepsInv(s: System, actions: seq<Action>)
    requires Inv(s) && Allowed(s, actions)
    ensures Inv(Run(s, actions))
    decreases |actions|
  {
    hide Inv, Next, Enabled;
    if actions != [] {
      StepKeepsInv(s, actions[0]);
      RunKeepsInv(Next(s, actions[0]), actions[1..]);
    }
  }

  /** The process a client that connects to the path reaches. */
  function Reached(s: System): Option<Pid> {
    if s.endpoint.SocketOf? && At(s, s.endpoint.owner, Serving) then Some(s.endpoint.owner) else None
  }

  /**
   In every run of any number of processes, crashes included: at most one is between taking and releasing
   the lock; the endpoint is absent, stale or the lock holder's; and a client reaches the process that
   serves, whenever one does, and nobody else.
   */
  lemma OneAgent(s: System, actions: seq<Action>, p: Pid, q: Pid)
    requires Fresh(s) && Allowed(s, actions)
    ensures var t := Run(s, actions);
      && (p in t.stages && q in t.stages && Critical(t.stages[p]) && Critical(t.stages[q]) ==> p == q)
      && (t.endpoint.Absent? || Stale(t) || t.holder == Some(t.endpoint.owner))
      && (At(t, p, Serving) <==> Reached(t) == Some(p))
      && (Reached(t) == Some(p) ==> t.holder == Some(p))
  {
    RunKeepsInv(s, actions);
  }

  /** Neither unlink, at startup or at shutdown, removes the endpoint of another process that is still open. */
  lemma UnlinksSpareOthers(s: System, actions: seq<Action>, a: Action, p: Pid, q: Pid)
    requires Fresh(s) && Allowed(s, actions) && Enabled(Run(s, actions), a)
    requires a == UnlinkOld(p) || a == UnlinkOwn(p)
    ensures var t := Run(s, actions);
      && (q != p ==> !Open(t, q))
      && (a == UnlinkOwn(p) ==> t.endpoint == SocketOf(p))
  {
    RunKeepsInv(s, actions);
  }

  /** A process that serves keeps its endpoint through every step of the others. */
  lemma ServingIsUndisturbed(s: System, actions: seq<Action>, a: Action, p: Pid)
    requires Fresh(s) && Allowed(s, actions) && Enabled(Run(s, actions), a)
    requires At(Run(s, actions), p, Serving) && a != Stop(p) && a != Crash(p)
    ensures Reached(Next(Run(s, actions), a)) == Some(p)
  {
    RunKeepsInv(s, actions);
    StepKeepsInv(Run(s, actions), a);
  }

  /** After a crash of the agent the next process that tries gets the lock, whatever file was left. */
  lemma CrashReleases(s: System, actions: seq<Action>, p: Pid, q: Pid)
    requires Fresh(s) && Allowed(s, actions) && q != p
    requires Enabled(Run(s, actions), Crash(p)) && Run(s, actions).holder == Some(p) && At(Run(s, actions), q, Starting)
    ensures var t := Next(Run(s, actions), Crash(p));
      && Enabled(t, TryLock(q)) && At(Next(t, TryLock(q)), q, Locked) && Next(t, TryLock(q)).holder == Some(q)
  {
    RunKeepsInv(s, actions);
  }

  // ---------------------------------------------------------------- progress

  lemma RunStep(s: System, a: Action, rest: seq<Action>)
    requires Enabled(s, a) && Allowed(Next(s, a), rest)
    ensures Allowed(s, [a] + rest) && Run(s, [a] + rest) == Run(Next(s, a), rest)
  {
    hide Enabled, Next;
    assert ([a] + rest)[1..] == rest;
  }

  /** Process p begins to serve: it has the lock, and whoever connects reaches it. */
  ghost predicate Serves(s: System, p: Pid) {
    At(s, p, Serving) && s.holder == Some(p) && Reached(s) == Some(p)
  }

  function StartUp(p: Pid): seq<Action> {
    [TryLock(p)] + ([UnlinkOld(p)] + ([Bind(p, true, true)] + []))
  }

  function ShutDown(p: Pid): seq<Action> {
    [Stop(p)] + ([UnlinkOwn(p)] + ([Release(p)] + []))
  }

  lemma StartsUp(s: System, p: Pid)
    requires s.holder.None? && At(s, p, Starting)
    ensures Allowed(s, StartUp(p)) && Serves(Run(s, StartUp(p)), p)
  {
    var s1 := Next(s, TryLock(p));
    var s2 := Next(s1, UnlinkOld(p));
    var s3 := Next(s2, Bind(p, true, true));
    assert Serves(s3, p);
    assert Enabled(s, TryLock(p)) && Enabled(s1, UnlinkOld(p)) && Enabled(s2, Bind(p, true, true));
    hide Next, Enabled, Serves;
    RunStep(s2, Bind(p, true, true), []);
    RunStep(s1, UnlinkOld(p), [Bind(p, true, true)] + []);
    RunStep(s, TryLock(p), [UnlinkOld(p)] + ([Bind(p, true, true)] + []));
  }

  lemma ShutsDown(s: System, p: Pid)
    requires At(s, p, Serving)
    ensures Allowed(s, ShutDown(p))
    ensures Run(s, ShutDown(p)) == System(s.stages[p := Gone], None, Absent)
  {
    var s1 := Next(s, Stop(p));
    var s2 := Next(s1, UnlinkOwn(p));
    var s3 := Next(s2, Release(p));
    assert s3.stages == s.stages[p := Gone] && s3.holder == None && s3.endpoint == Absent;
    assert Enabled(s, Stop(p)) && Enabled(s1, UnlinkOwn(p)) && Enabled(s2, Release(p));
    hide Next, Enabled;
    RunStep(s2, Release(p), []);
    RunStep(s1, UnlinkOwn(p), [Release(p)] + []);
    RunStep(s, Stop(p), [UnlinkOwn(p)] + ([Release(p)] + []));
  }

  lemma {:induction false} RunsJoin(s: System, first: seq<Action>, second: seq<Action>)
    requires Allowed(s, first) && Allowed(Run(s, first), second)
    ensures Allowed(s, first + second) && Run(s, first + second) == Run(Run(s, first), second)
    decreases |first|
  {
    hide Enabled, Next;
    if first == [] {
      assert first + second == second;
    } else {
      RunsJoin(Next(s, first[0]), first[1..], second);
      assert (first + second)[1..] == first[1..] + second;
    }
  }

  /**
   The agent comes up: in every run, when nobody holds the lock, a process that starts takes it, clears the
   path, binds and serves; a new process can always be started.
   */
  lemma AgentComesUp(s: System, actions: seq<Action>, p: Pid)
    requires Fresh(s) && Allowed(s, actions) && Run(s, actions).holder.None?
    ensures var t := Run(s, actions);
      && (p !in t.stages ==>
            Enabled(t, Spawn(p)) && At(Next(t, Spawn(p)), p, Starting) && Next(t, Spawn(p)).holder.None?)
      && (At(t, p, Starting) ==> Allowed(t, StartUp(p)) && Serves(Run(t, StartUp(p)), p))
  {
    var t := Run(s, actions);
    if At(t, p, Starting) { StartsUp(t, p); }
    hide Run, Allowed, Serves;
  }

  /** An agent that stops, or crashes at any stage, makes way: the next process that starts serves in its place. */
  lemma AgentIsReplaced(s: System, actions: seq<Action>, p: Pid, q: Pid)
    requires Fresh(s) && Allowed(s, actions) && p != q && At(Run(s, actions), q, Starting)
    ensures var t := Run(s, actions);
      && (At(t, p, Serving) ==>
            Allowed(t, ShutDown(p) + StartUp(q)) && Serves(Run(t, ShutDown(p) + StartUp(q)), q))
      && (t.holder == Some(p) ==>
            Allowed(t, [Crash(p)] + StartUp(q)) && Serves(Run(t, [Crash(p)] + StartUp(q)), q))
  {
    var t := Run(s, actions);
    RunKeepsInv(s, actions);
    if At(t, p, Serving) {
      ShutsDown(t, p);
      StartsUp(Run(t, ShutDown(p)), q);
      RunsJoin(t, ShutDown(p), StartUp(q));
    }
    if t.holder == Some(p) {
      assert Enabled(t, Crash(p));
      StartsUp(Next(t, Crash(p)), q);
      RunStep(t, Crash(p), StartUp(q));
    }
  }

  /** The path changes by an unlink or by a successful bind and by nothing else; a crash leaves its file behind. */
  lemma WhatTouchesThePath(s: System, a: Action)
    requires Enabled(s, a)
    ensures Next(s, a).endpoint
            == match a
               case UnlinkOld(_) => Absent
               case UnlinkOwn(_) => Absent
               case Bind(p, works, _) => if works then SocketOf(p) else s.endpoint
               case _ => s.endpoint
  {
  }

  /** While one process holds the lock, another that tries returns at once and has touched nothing. */
  lemma SecondAgentYields(s: System, p: Pid)
    requires s.holder.Some? && At(s, p, Starting)
    ensures Enabled(s, TryLock(p)) && Next(s, TryLock(p)) == s.(stages := s.stages[p := Gone])
  {
  }

  /** A process that cannot bind or listen gives the lock back, and nobody is reached. */
  lemma FailedBindReleases(s: System, actions: seq<Action>, p: Pid, works: bool)
    requires Fresh(s) && Allowed(s, actions) && At(Run(s, actions), p, Unlinked)
    ensures var t, a := Run(s, actions), Bind(p, works, false);
      && Enabled(t, a) && At(Next(t, a), p, Refused) && Enabled(Next(t, a), Release(p))
      && Next(Next(t, a), Release(p)).holder.None? && Reached(Next(Next(t, a), Release(p))).None?
      && Next(t, a).endpoint == if works then SocketOf(p) else Absent
  {
    RunKeepsInv(s, actions);
  }
}
