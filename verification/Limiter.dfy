/** The login rate limiter: a table of deques, pruned by queries, against the failures actually logged. */
module Limiter {
  const CAPACITY: nat := 10_000

  type Times = seq<real>

  /** The dictionary and the order in which its keys were inserted. */
  datatype Table = Table(entries: map<string, Times>, order: seq<string>)

  // ------------------------------------------------------- what each call does

  /** Drop from the front what has left the window. */
  function Prune(s: Times, now: real, window: real): Times {
    if s != [] && now - s[0] >= window then Prune(s[1..], now, window) else s
  }

  function Without(order: seq<string>, key: string): seq<string> {
    if order == [] then []
    else if order[0] == key then Without(order[1..], key)
    else [order[0]] + Without(order[1..], key)
  }

  /** Reading a missing key of a defaultdict inserts it. */
  function Touched(t: Table, key: string): Table {
    if key in t.entries then t else Table(t.entries[key := []], t.order + [key])
  }

  function Dropped(t: Table, key: string): Table {
    Table(t.entries - {key}, Without(t.order, key))
  }

  function Queried(t: Table, key: string, now: real, window: real): Table {
    var u := Touched(t, key);
    u.(entries := u.entries[key := Prune(Deque(t, key), now, window)])
  }

  predicate Evicts(t: Table, key: string) {
    key !in t.entries && |t.order| >= CAPACITY && t.order != []
  }

  function Failed(t: Table, key: string, now: real): Table {
    var u := Touched(if Evicts(t, key) then Dropped(t, t.order[0]) else t, key);
    u.(entries := u.entries[key := Deque(t, key) + [now]])
  }

  /** The times stored for a key, none when it has no entry. */
  function Deque(t: Table, key: string): Times {
    if key in t.entries then t.entries[key] else []
  }

  ghost predicate Distinct(order: seq<string>) {
    forall i, j | 0 <= i < j < |order| :: order[i] != order[j]
  }

  ghost predicate WellOrdered(t: Table) {
    (forall k :: k in t.entries <==> k in t.order) && Distinct(t.order)
  }

  lemma {:induction false} WithoutIsExact(order: seq<string>, key: string)
    ensures forall k :: k in Without(order, key) <==> k in order && k != key
    ensures Distinct(order) ==> Distinct(Without(order, key))
  {
    if order != [] {
      var first, rest := order[0], order[1..];
      WithoutIsExact(rest, key);
      assert order == [first] + rest;
      if Distinct(order) {
        assert Distinct(rest) && first !in rest;
      }
    }
  }

  lemma DroppedStaysOrdered(t: Table, key: string)
    requires WellOrdered(t)
    ensures WellOrdered(Dropped(t, key))
  {
    WithoutIsExact(t.order, key);
  }

  lemma TouchedStaysOrdered(t: Table, key: string)
    requires WellOrdered(t)
    ensures WellOrdered(Touched(t, key))
  {
  }

  lemma WithoutFirst(order: seq<string>)
    requires order != [] && Distinct(order)
    ensures Without(order, order[0]) == order[1..]
  {
    WithoutAbsent(order[1..], order[0]);
  }

  lemma {:induction false} WithoutAbsent(order: seq<string>, key: string)
    requires key !in order
    ensures Without(order, key) == order
  {
    if order != [] { WithoutAbsent(order[1..], key); }
  }

  /** A failure of a new key pushes out the first key exactly when there are 10,000, and nothing else is lost. */
  lemma FailureEvictsAtCapacity(t: Table, key: string, now: real)
    requires WellOrdered(t)
    ensures Failed(t, key, now)
            == if key in t.entries then Table(t.entries[key := t.entries[key] + [now]], t.order)
               else if |t.order| < 10_000 then Table(t.entries[key := [now]], t.order + [key])
               else Table((t.entries - {t.order[0]})[key := [now]], t.order[1..] + [key])
  {
    assert [] + [now] == [now];
    if t.order != [] { WithoutFirst(t.order); }
    var kept := if Evicts(t, key) then Dropped(t, t.order[0]) else t;
    assert key !in t.entries ==> kept.entries[key := []][key := [now]] == kept.entries[key := [now]];
  }

  /** A query of a key without an entry gives it an empty one, the last in the order. */
  lemma QueryInsertsAtTheEnd(t: Table, key: string, now: real, window: real)
    ensures var u := Queried(t, key, now, window);
      && u.order == (if key in t.entries then t.order else t.order + [key])
      && u.entries == t.entries[key := if key in t.entries then Prune(t.entries[key], now, window) else []]
  {
  }

  class LoginRateLimiter {
    const attempts: int
    const window: real
    var entries: map<string, Times>
    var order: seq<string>

    ghost predicate Valid()
      reads this
    {
      WellOrdered(Contents())
    }

    function Contents(): (t: Table)
      reads this
    {
      Table(entries, order)
    }

    constructor (attempts: int, window: real)
      ensures Valid() && Contents() == Table(map[], []) && this.attempts == attempts && this.window == window
    {
      this.attempts, this.window := attempts, window;
      entries, order := map[], [];
    }

    /** now was read before the lock was taken. */
    method IsLimited(key: string, now: real) returns (limited: bool)
      requires Valid()
      modifies this
      ensures Valid() && Contents() == Queried(old(Contents()), key, now, window)
      ensures limited <==> |Contents().entries[key]| >= attempts
    {
      TouchedStaysOrdered(Contents(), key);
      if key !in entries {
        entries, order := entries[key := []], order + [key];
      }
      while entries[key] != [] && now - entries[key][0] >= window
        invariant key in entries && order == Touched(old(Contents()), key).order
        invariant entries == Touched(old(Contents()), key).entries[key := entries[key]]
        invariant Prune(entries[key], now, window) == Prune(Deque(old(Contents()), key), now, window)
        decreases |entries[key]|
      {
        entries := entries[key := entries[key][1..]];
      }
      limited := |entries[key]| >= attempts;
    }

    method AddFailure(key: string, now: real)
      requires Valid()
      modifies this
      ensures Valid() && Contents() == Failed(old(Contents()), key, now)
    {
      if key !in entries && |order| >= CAPACITY {
        var first := order[0];
        WithoutIsExact(order, first);
        entries, order := entries - {first}, Without(order, first);
      }
      TouchedStaysOrdered(Contents(), key);
      if key !in entries {
        entries, order := entries[key := []], order + [key];
      }
      entries := entries[key := entries[key] + [now]];
    }

    method Clear(key: string)
      requires Valid()
      modifies this
      ensures Valid() && Contents() == Dropped(old(Contents()), key)
    {
      WithoutIsExact(order, key);
      entries, order := entries - {key}, Without(order, key);
    }

    method Reset()
      modifies this
      ensures Valid() && Contents() == Table(map[], [])
    {
      entries, order := map[], [];
    }
  }

  // -------------------------------------------------------------------- runs

  /** The calls in the order in which they held the lock; Leave is a login that ends without calling the limiter. */
  datatype Event =
    | Query(key: string, now: real)
    | Failure(key: string, now: real)
    | Success(key: string)
    | Leave(key: string)
    | Reset

  datatype Settings = Settings(attempts: int, window: real)

  function Step(c: Settings, t: Table, e: Event): Table {
    match e
    case Query(key, now) => Queried(t, key, now, c.window)
    case Failure(key, now) => Failed(t, key, now)
    case Success(key) => Dropped(t, key)
    case Leave(_) => t
    case Reset => Table(map[], [])
  }

  function After(c: Settings, run: seq<Event>): Table {
    if run == [] then Table(map[], [])
    else Step(c, After(c, run[..|run| - 1]), run[|run| - 1])
  }

  /** The answer of the query that ends the run. */
  predicate Limited(c: Settings, run: seq<Event>, key: string) {
    |Deque(After(c, run), key)| >= c.attempts
  }

  /** The last event wipes out what is known of the key: a success, a reset, or its eviction for another key. */
  predicate Forgets(c: Settings, run: seq<Event>, key: string)
    requires run != []
  {
    var t, e := After(c, run[..|run| - 1]), run[|run| - 1];
    match e
    case Query(_, _) => false
    case Failure(k, _) => k != key && Evicts(t, k) && t.order[0] == key
    case Success(k) => k == key
    case Leave(_) => false
    case Reset => true
  }

  /** All failures recorded for the key since it was last forgotten. */
  function Log(c: Settings, run: seq<Event>, key: string): Times {
    if run == [] || Forgets(c, run, key) then []
    else
      var before, e := Log(c, run[..|run| - 1], key), run[|run| - 1];
      if e.Failure? && e.key == key then before + [e.now] else before
  }

  /** The latest time any query of the key has asked about since then; low when there was none. */
  function Horizon(c: Settings, run: seq<Event>, key: string, low: real): real {
    if run == [] || Forgets(c, run, key) then low
    else
      var before, e := Horizon(c, run[..|run| - 1], key, low), run[|run| - 1];
      if e.Query? && e.key == key && e.now > before then e.now else before
  }

  /** The failures later than a bound. */
  function Since(log: Times, bound: real): Times {
    if log == [] then []
    else
      var before, last := Since(log[..|log| - 1], bound), log[|log| - 1];
      if last > bound then before + [last] else before
  }

  predicate HasTime(e: Event) {
    e.Query? || e.Failure?
  }

  /** A failure is timed under the lock: no earlier than any time read for an earlier call. */
  ghost predicate Clocked(run: seq<Event>, low: real) {
    && (forall i | 0 <= i < |run| && HasTime(run[i]) :: low <= run[i].now)
    && (forall i, j | 0 <= i < j < |run| && HasTime(run[i]) && run[j].Failure? :: run[i].now <= run[j].now)
  }

  ghost predicate Sorted(s: Times) {
    forall i, j | 0 <= i < j < |s| :: s[i] <= s[j]
  }

  ghost predicate Within(s: Times, low: real, high: real) {
    forall i | 0 <= i < |s| :: low <= s[i] <= high
  }

  lemma {:induction false} SinceFront(s: Times, bound: real)
    requires s != []
    ensures Since(s, bound) == (if s[0] > bound then [s[0]] else []) + Since(s[1..], bound)
  {
    if |s| > 1 {
      var n := |s| - 1;
      assert s[..n][1..] == s[1..][..n - 1] && s[1..][n - 1] == s[n];
      SinceFront(s[..n], bound);
    } else {
      assert s[1..] == [];
    }
  }

  lemma {:induction false} SinceAll(s: Times, bound: real)
    requires forall i | 0 <= i < |s| :: s[i] > bound
    ensures Since(s, bound) == s
  {
    if s != [] {
      var n := |s| - 1;
      SinceAll(s[..n], bound);
      assert s == s[..n] + [s[n]];
    }
  }

  /** Popping old times off the front of a sorted deque keeps exactly the later ones. */
  lemma {:induction false} PruneIsSince(s: Times, now: real, window: real)
    requires Sorted(s)
    ensures Prune(s, now, window) == Since(s, now - window)
  {
    hide Since;
    if s == [] {
      SinceAll(s, now - window);
    } else if now - s[0] >= window {
      SinceFront(s, now - window);
      PruneIsSince(s[1..], now, window);
    } else {
      SinceAll(s, now - window);
    }
  }

  lemma {:induction false} SinceTwice(s: Times, a: real, b: real)
    ensures Since(Since(s, a), b) == Since(s, if a > b then a else b)
  {
    if s != [] {
      var n := |s| - 1;
      SinceTwice(s[..n], a, b);
      if s[n] > a {
        assert (Since(s[..n], a) + [s[n]])[..|Since(s[..n], a)|] == Since(s[..n], a);
      }
    }
  }

  lemma {:induction false} SinceStaysSorted(s: Times, bound: real)
    requires Sorted(s)
    ensures Sorted(Since(s, bound))
    ensures forall x :: x in Since(s, bound) ==> x in s
  {
    if s != [] {
      var n := |s| - 1;
      SinceStaysSorted(s[..n], bound);
      assert forall x | x in s[..n] :: x <= s[n];
      var kept := Since(s[..n], bound);
      forall i | 0 <= i < |kept| ensures kept[i] in s[..n] {
        assert kept[i] in kept;
      }
    }
  }

  /** Logged failures and queried times are times of the run. */
  lemma {:induction false} LogIsTimed(c: Settings, run: seq<Event>, key: string, low: real, high: real)
    requires low <= high
    requires forall i | 0 <= i < |run| && HasTime(run[i]) && run[i].key == key :: low <= run[i].now <= high
    ensures Within(Log(c, run, key), low, high) && low <= Horizon(c, run, key, low) <= high
  {
    if run != [] {
      var n := |run| - 1;
      assert forall i | 0 <= i < n :: run[..n][i] == run[i];
      LogIsTimed(c, run[..n], key, low, high);
      assert HasTime(run[n]) && run[n].key == key ==> low <= run[n].now <= high;
      hide Forgets;
    }
  }

  lemma ClockedBefore(run: seq<Event>, low: real)
    requires run != [] && Clocked(run, low)
    ensures Clocked(run[..|run| - 1], low)
  {
    var init := run[..|run| - 1];
    assert forall i | 0 <= i < |init| :: init[i] == run[i];
  }

  lemma BeforeFailure(c: Settings, run: seq<Event>, key: string, low: real)
    requires run != [] && Clocked(run, low) && run[|run| - 1].Failure?
    ensures var init, now := run[..|run| - 1], run[|run| - 1].now;
      low <= now && Within(Log(c, init, key), low, now) && Horizon(c, init, key, low) <= now
  {
    var n := |run| - 1;
    assert forall i | 0 <= i < n :: run[..n][i] == run[i];
    assert HasTime(run[n]);
    LogIsTimed(c, run[..n], key, low, run[n].now);
  }

  /** What one call does to a key it neither names nor evicts: nothing. */
  lemma OtherKey(c: Settings, t: Table, e: Event, key: string)
    requires !e.Reset? && (e.key != key || e.Leave?) && (e.Failure? ==> !(Evicts(t, e.key) && t.order[0] == key))
    ensures Deque(Step(c, t, e), key) == Deque(t, key)
  {
  }

  lemma OwnFailure(c: Settings, t: Table, key: string, now: real)
    requires WellOrdered(t)
    ensures Deque(Failed(t, key, now), key) == Deque(t, key) + [now]
  {
  }

  lemma {:induction false} StaysOrdered(c: Settings, run: seq<Event>)
    ensures WellOrdered(After(c, run))
  {
    if run != [] {
      var t, e := After(c, run[..|run| - 1]), run[|run| - 1];
      StaysOrdered(c, run[..|run| - 1]);
      hide Prune;
      match e
      case Query(key, _) => TouchedStaysOrdered(t, key);
      case Failure(key, _) =>
        if Evicts(t, key) { DroppedStaysOrdered(t, t.order[0]); }
        TouchedStaysOrdered(if Evicts(t, key) then Dropped(t, t.order[0]) else t, key);
      case Success(key) => DroppedStaysOrdered(t, key);
      case Leave(_) =>
      case Reset =>
    }
  }

  lemma QueryPrunes(log: Times, horizon: real, now: real, window: real)
    requires Sorted(log)
    ensures Prune(Since(log, horizon - window), now, window)
            == Since(log, (if now > horizon then now else horizon) - window)
  {
    hide Since, Prune, Sorted;
    SinceStaysSorted(log, horizon - window);
    PruneIsSince(Since(log, horizon - window), now, window);
    SinceTwice(log, horizon - window, now - window);
  }

  lemma FailureIsRecent(log: Times, low: real, horizon: real, now: real, window: real)
    requires Sorted(log) && Within(log, low, now) && horizon <= now && window > 0.0
    ensures Sorted(log + [now])
    ensures Since(log + [now], horizon - window) == Since(log, horizon - window) + [now]
  {
    assert (log + [now])[..|log|] == log;
  }

  /** What the last event adds to the log and the horizon of a key it does not make the table forget. */
  lemma LogGrows(c: Settings, run: seq<Event>, key: string, low: real)
    requires run != [] && !Forgets(c, run, key)
    ensures var init, e := run[..|run| - 1], run[|run| - 1];
      var log, horizon := Log(c, init, key), Horizon(c, init, key, low);
      && Log(c, run, key) == (if e.Failure? && e.key == key then log + [e.now] else log)
      && Horizon(c, run, key, low) == (if e.Query? && e.key == key && e.now > horizon then e.now else horizon)
  {
    hide Forgets;
  }

  lemma OwnQuery(c: Settings, t: Table, key: string, now: real)
    ensures Deque(Queried(t, key, now, c.window), key) == Prune(Deque(t, key), now, c.window)
  {
  }

  /**
   The deque of a key is exactly the failures logged since it was last forgotten that lie after the
   latest queried time minus the window. Pruning has lost nothing that is newer than that.
   */
  lemma {:induction false} DequeIsRecentLog(c: Settings, run: seq<Event>, key: string, low: real)
    requires c.window > 0.0 && Clocked(run, low)
    ensures Sorted(Log(c, run, key))
    ensures Deque(After(c, run), key) == Since(Log(c, run, key), Horizon(c, run, key, low) - c.window)
  {
    hide Since, Prune, Sorted, Within, Clocked, Queried, Failed, Dropped, Deque;
    if run == [] {
      NothingLogged(c, key, low);
    } else if Forgets(c, run, key) {
      ForgottenIsEmpty(c, run, key);
      NothingLogged(c, key, low);
    } else {
      var n := |run| - 1;
      var init, t, e := run[..n], After(c, run[..n]), run[n];
      var log, horizon := Log(c, init, key), Horizon(c, init, key, low);
      ClockedBefore(run, low);
      DequeIsRecentLog(c, init, key, low);
      LogGrows(c, run, key, low);
      hide Log, Horizon;
      if e.Query? && e.key == key {
        OwnQuery(c, t, key, e.now);
        QueryPrunes(log, horizon, e.now, c.window);
      } else if e.Failure? && e.key == key {
        StaysOrdered(c, init);
        BeforeFailure(c, run, key, low);
        OwnFailure(c, t, key, e.now);
        FailureIsRecent(log, low, horizon, e.now, c.window);
      } else {
        OtherKey(c, t, e, key);
      }
    }
  }

  lemma NothingLogged(c: Settings, key: string, low: real)
    ensures Sorted([]) && Deque(After(c, []), key) == [] && forall bound :: Since([], bound) == []
  {
  }

  lemma ForgottenIsEmpty(c: Settings, run: seq<Event>, key: string)
    requires run != [] && Forgets(c, run, key)
    ensures Deque(After(c, run), key) == []
  {
  }

  // ------------------------------------------------------- the sliding window

  lemma {:induction false} SinceShrinks(s: Times, a: real, b: real)
    requires a <= b
    ensures |Since(s, b)| <= |Since(s, a)|
    ensures |Since(s, b)| == |Since(s, a)| <==> forall i | 0 <= i < |s| :: !(a < s[i] <= b)
  {
    if s != [] {
      var n := |s| - 1;
      SinceShrinks(s[..n], a, b);
      assert forall i | 0 <= i < n :: s[..n][i] == s[i];
    }
  }

  lemma HorizonCoversQuery(c: Settings, run: seq<Event>, key: string, low: real)
    requires run != [] && run[|run| - 1].Query? && run[|run| - 1].key == key
    ensures run[|run| - 1].now <= Horizon(c, run, key, low)
  {
  }

  /** The failures later than one time and not later than another. */
  function Between(log: Times, low: real, high: real): Times {
    if log == [] then []
    else
      var before, last := Between(log[..|log| - 1], low, high), log[|log| - 1];
      if low < last <= high then before + [last] else before
  }

  /** The failures of the window that ends at time t. */
  function InWindow(log: Times, t: real, window: real): Times {
    Between(log, t - window, t)
  }

  lemma {:induction false} BetweenAndSince(s: Times, low: real, high: real)
    requires low <= high
    ensures |Between(s, low, high)| + |Since(s, high)| == |Since(s, low)|
  {
    if s != [] { BetweenAndSince(s[..|s| - 1], low, high); }
  }

  lemma {:induction false} WhatIsKept(s: Times, bound: real, low: real, high: real)
    ensures forall x :: x in Since(s, bound) <==> x in s && x > bound
    ensures forall x :: x in Between(s, low, high) <==> x in s && low < x <= high
  {
    if s != [] {
      var n := |s| - 1;
      WhatIsKept(s[..n], bound, low, high);
      assert s == s[..n] + [s[n]];
    }
  }

  lemma {:induction false} SameKept(s: Times, bound: real, low: real, high: real)
    requires forall i | 0 <= i < |s| :: low < s[i] <= high <==> s[i] > bound
    ensures Since(s, bound) == Between(s, low, high)
  {
    if s != [] {
      var n := |s| - 1;
      assert forall i | 0 <= i < n :: s[..n][i] == s[i];
      SameKept(s[..n], bound, low, high);
    }
  }

  lemma KeptAlikeExactly(s: Times, bound: real, low: real, high: real)
    ensures Since(s, bound) == Between(s, low, high)
       <==> forall i | 0 <= i < |s| :: low < s[i] <= high <==> s[i] > bound
  {
    hide Since, Between;
    WhatIsKept(s, bound, low, high);
    if Since(s, bound) == Between(s, low, high) {
      forall i | 0 <= i < |s| ensures low < s[i] <= high <==> s[i] > bound {
        assert s[i] in s;
      }
    } else if forall i | 0 <= i < |s| :: low < s[i] <= high <==> s[i] > bound {
      SameKept(s, bound, low, high);
    }
  }

  /**
   What a query at time t compares with the limit is the failures of the window ending at t, less those that
   had left the window of a later time already asked about, plus those recorded after t was read. It is exactly
   the window's failures if and only if there are neither.
   */
  lemma QueryCountsTheWindow(c: Settings, run: seq<Event>, key: string, low: real)
    requires c.window > 0.0 && Clocked(run, low)
    requires run != [] && run[|run| - 1].Query? && run[|run| - 1].key == key
    ensures var t, log, horizon := run[|run| - 1].now, Log(c, run, key), Horizon(c, run, key, low);
      var counted, due := Deque(After(c, run), key), InWindow(log, t, c.window);
      && (Limited(c, run, key) <==> |counted| >= c.attempts)
      && |counted| == |due| - |Between(log, t - c.window, horizon - c.window)| + |Since(log, t)|
      && (counted == due
          <==> forall i | 0 <= i < |log| :: t - c.window < log[i] <= t <==> log[i] > horizon - c.window)
  {
    DequeIsRecentLog(c, run, key, low);
    HorizonCoversQuery(c, run, key, low);
    hide Since, Between, Log, Horizon, After, Deque;
    var t, log, horizon := run[|run| - 1].now, Log(c, run, key), Horizon(c, run, key, low);
    BetweenAndSince(log, t - c.window, t);
    BetweenAndSince(log, t - c.window, horizon - c.window);
    KeptAlikeExactly(log, horizon - c.window, t - c.window, t);
  }

  /** When neither an earlier query nor a failure is timed after this query, the answer is exactly the window's. */
  lemma OrderedQueriesAreExact(c: Settings, run: seq<Event>, key: string, low: real)
    requires c.window > 0.0 && Clocked(run, low)
    requires run != [] && run[|run| - 1].Query? && run[|run| - 1].key == key
    requires forall i | 0 <= i < |run| && HasTime(run[i]) && run[i].key == key :: run[i].now <= run[|run| - 1].now
    ensures Limited(c, run, key) <==> |InWindow(Log(c, run, key), run[|run| - 1].now, c.window)| >= c.attempts
  {
    var n := |run| - 1;
    assert HasTime(run[n]);
    LogIsTimed(c, run, key, low, run[n].now);
    QueryCountsTheWindow(c, run, key, low);
    HorizonCoversQuery(c, run, key, low);
    hide Since, Between, Log, Horizon, After, Deque;
  }

  /** What one more query of the key leaves stored and logged. */
  lemma QueryMore(c: Settings, run: seq<Event>, key: string, now: real)
    ensures Deque(After(c, run + [Query(key, now)]), key) == Prune(Deque(After(c, run), key), now, c.window)
    ensures Log(c, run + [Query(key, now)], key) == Log(c, run, key)
  {
    assert (run + [Query(key, now)])[..|run|] == run;
    OwnQuery(c, After(c, run), key, now);
    hide Prune, Deque, Queried;
  }

  /** What one more failure of the key leaves stored and logged. */
  lemma FailMore(c: Settings, run: seq<Event>, key: string, now: real)
    ensures Deque(After(c, run + [Failure(key, now)]), key) == Deque(After(c, run), key) + [now]
    ensures Log(c, run + [Failure(key, now)], key) == Log(c, run, key) + [now]
  {
    assert (run + [Failure(key, now)])[..|run|] == run;
    StaysOrdered(c, run);
    OwnFailure(c, After(c, run), key, now);
    hide Deque, Failed, WellOrdered;
  }

  /** A login that fails alone: one failure stored, and logged. */
  lemma OneFailure(c: Settings, key: string, at: real)
    ensures var run := [Query(key, 0.0), Failure(key, at)];
      Deque(After(c, run), key) == [at] && Log(c, run, key) == [at]
  {
    assert After(c, []) == Table(map[], []);
    assert [] + [Query(key, 0.0)] == [Query(key, 0.0)];
    assert [Query(key, 0.0)] + [Failure(key, at)] == [Query(key, 0.0), Failure(key, at)];
    QueryMore(c, [], key, 0.0);
    hide After;
    FailMore(c, [Query(key, 0.0)], key, at);
  }

  /** The time is read before the lock is taken, so a query can be answered late and miss a failure in its window. */
  lemma LateQueryUndercounts(key: string)
    ensures var c := Settings(1, 60.0);
      var run := [Query(key, 0.0), Failure(key, 0.0), Query(key, 61.0), Query(key, 30.0)];
      && Clocked(run, 0.0) && !Limited(c, run, key) && InWindow(Log(c, run, key), 30.0, c.window) == [0.0]
  {
    hide After, Deque, Log;
    var c := Settings(1, 60.0);
    var run := [Query(key, 0.0), Failure(key, 0.0)];
    OneFailure(c, key, 0.0);
    QueryMore(c, run, key, 61.0);
    QueryMore(c, run + [Query(key, 61.0)], key, 30.0);
    assert [0.0][1..] == [] && [0.0][..0] == [];
    assert run + [Query(key, 61.0)] + [Query(key, 30.0)]
        == [Query(key, 0.0), Failure(key, 0.0), Query(key, 61.0), Query(key, 30.0)];
  }

  /** For the same reason a query can count a failure that was recorded after its time. */
  lemma EarlyQueryOvercounts(key: string)
    ensures var c := Settings(1, 60.0);
      var run := [Query(key, 0.0), Failure(key, 31.0), Query(key, 30.0)];
      && Clocked(run, 0.0) && Limited(c, run, key) && InWindow(Log(c, run, key), 30.0, c.window) == []
  {
    hide After, Deque, Log;
    var c := Settings(1, 60.0);
    var run := [Query(key, 0.0), Failure(key, 31.0)];
    OneFailure(c, key, 31.0);
    QueryMore(c, run, key, 30.0);
    assert [31.0][..0] == [];
    assert run + [Query(key, 30.0)] == [Query(key, 0.0), Failure(key, 31.0), Query(key, 30.0)];
  }

  // ------------------------------------------------------------ who is evicted

  /** The event that gave the key its present entry. */
  function Inserted(c: Settings, run: seq<Event>, key: string): int {
    if run == [] then 0
    else
      var n := |run| - 1;
      if key in After(c, run[..n]).entries then Inserted(c, run[..n], key) else n
  }

  ghost predicate RankedBy(order: seq<string>, rank: string -> int, until: int) {
    && (forall i, j | 0 <= i < j < |order| :: rank(order[i]) < rank(order[j]))
    && (forall i | 0 <= i < |order| :: rank(order[i]) < until)
  }

  lemma {:induction false} WithoutStaysRanked(order: seq<string>, key: string, rank: string -> int, until: int)
    requires RankedBy(order, rank, until)
    ensures RankedBy(Without(order, key), rank, until)
  {
    if order != [] {
      var rest := order[1..];
      WithoutStaysRanked(rest, key, rank, until);
      WithoutIsExact(rest, key);
      assert order == [order[0]] + rest;
      assert forall k | k in rest :: rank(order[0]) < rank(k);
    }
  }

  lemma OneMoreIsRanked(order: seq<string>, key: string, rank: string -> int, later: string -> int, n: int)
    requires RankedBy(order, rank, n) && later(key) == n && key !in order
    requires forall k | k in order :: later(k) == rank(k)
    ensures RankedBy(order + [key], later, n + 1)
  {
    assert forall i | 0 <= i < |order| :: order[i] in order;
  }

  lemma SameRanked(order: seq<string>, rank: string -> int, later: string -> int, n: int)
    requires RankedBy(order, rank, n) && forall k | k in order :: later(k) == rank(k)
    ensures RankedBy(order, later, n + 1)
  {
    assert forall i | 0 <= i < |order| :: order[i] in order;
  }

  lemma FailureStaysRanked(t: Table, key: string, now: real, rank: string -> int, later: string -> int, n: int)
    requires WellOrdered(t) && RankedBy(t.order, rank, n) && RankedBy(t.order, later, n + 1)
    requires (forall k | k in t.order :: later(k) == rank(k)) && (key !in t.entries ==> later(key) == n)
    ensures RankedBy(Failed(t, key, now).order, later, n + 1)
  {
    FailureEvictsAtCapacity(t, key, now);
    hide Failed;
    if key !in t.entries {
      if |t.order| < 10_000 {
        OneMoreIsRanked(t.order, key, rank, later, n);
      } else {
        var rest := t.order[1..];
        assert RankedBy(rest, rank, n) && forall k | k in rest :: k in t.order;
        OneMoreIsRanked(rest, key, rank, later, n);
      }
    }
  }

  lemma StepStaysRanked(c: Settings, t: Table, e: Event, rank: string -> int, later: string -> int, n: int)
    requires WellOrdered(t) && RankedBy(t.order, rank, n)
    requires forall k :: later(k) == if k in t.entries then rank(k) else n
    ensures RankedBy(Step(c, t, e).order, later, n + 1)
  {
    hide Prune, Failed, RankedBy, Queried;
    SameRanked(t.order, rank, later, n);
    match e
    case Query(key, now) =>
      QueryInsertsAtTheEnd(t, key, now, c.window);
      if key !in t.entries { OneMoreIsRanked(t.order, key, rank, later, n); }
    case Failure(key, now) => FailureStaysRanked(t, key, now, rank, later, n);
    case Success(key) => WithoutStaysRanked(t.order, key, later, n + 1);
    case Leave(_) =>
    case Reset => NobodyIsRanked(later, n + 1);
  }

  lemma NobodyIsRanked(rank: string -> int, n: int)
    ensures RankedBy([], rank, n)
  {
  }

  /** The keys stand in the order in which they were inserted. */
  lemma {:induction false} OrderIsByInsertion(c: Settings, run: seq<Event>)
    ensures RankedBy(After(c, run).order, (k: string) => Inserted(c, run, k), |run|)
  {
    var later := (k: string) => Inserted(c, run, k);
    if run != [] {
      var n := |run| - 1;
      var t := After(c, run[..n]);
      var rank := (k: string) => Inserted(c, run[..n], k);
      OrderIsByInsertion(c, run[..n]);
      StaysOrdered(c, run[..n]);
      hide Step, RankedBy;
      assert forall k :: later(k) == if k in t.entries then rank(k) else n;
      StepStaysRanked(c, t, run[n], rank, later, n);
    }
  }

  /**
   In every run the key that a failure of another key pushes out is the one inserted longest ago, and that
   happens only when there are 10,000 keys and the failing one is new.
   */
  lemma EvictsTheOldest(c: Settings, run: seq<Event>, key: string, now: real, victim: string)
    requires victim in After(c, run).entries && victim != key
    ensures var t := After(c, run);
      victim !in Step(c, t, Failure(key, now)).entries
      <==> && key !in t.entries && |t.order| >= 10_000
           && forall k | k in t.entries && k != victim :: Inserted(c, run, victim) < Inserted(c, run, k)
  {
    var t := After(c, run);
    StaysOrdered(c, run);
    OrderIsByInsertion(c, run);
    FailureEvictsAtCapacity(t, key, now);
    hide Failed, After, Inserted;
    var v :| 0 <= v < |t.order| && t.order[v] == victim;
    if v > 0 {
      assert t.order[0] in t.entries && Inserted(c, run, t.order[0]) < Inserted(c, run, victim);
    } else {
      forall k | k in t.entries && k != victim ensures Inserted(c, run, victim) < Inserted(c, run, k) {
        var i :| 0 <= i < |t.order| && t.order[i] == k;
      }
    }
  }

  // ------------------------------------------------------------ logins in flight

  /** Login requests of the key that were let through and have not yet ended. */
  function InFlight(c: Settings, run: seq<Event>, key: string): int {
    if run == [] then 0
    else
      var before, e := InFlight(c, run[..|run| - 1], key), run[|run| - 1];
      if e.Reset? || e.key != key then before
      else if e.Query? then (if Limited(c, run, key) then before else before + 1)
      else before - 1
  }

  /** Only requests that were let through record failures or successes, and never more than most are under way. */
  ghost predicate AtMostInFlight(c: Settings, run: seq<Event>, key: string, most: int) {
    forall i | 0 <= i <= |run| :: 0 <= InFlight(c, run[..i], key) <= most
  }

  lemma {:induction false} PruneShrinks(s: Times, now: real, window: real)
    ensures |Prune(s, now, window)| <= |s|
  {
    if s != [] { PruneShrinks(s[1..], now, window); }
  }

  lemma NoOvershoot(c: Settings, run: seq<Event>, key: string)
    requires run != [] && WellOrdered(After(c, run[..|run| - 1]))
    ensures var t, e, after := After(c, run[..|run| - 1]), run[|run| - 1], After(c, run);
      && (e.Failure? && e.key == key ==> |Deque(after, key)| == |Deque(t, key)| + 1)
      && (e.Success? && e.key == key ==> Deque(after, key) == [])
      && (!(e.Failure? && e.key == key) ==> |Deque(after, key)| <= |Deque(t, key)|)
  {
    var t, e := After(c, run[..|run| - 1]), run[|run| - 1];
    if Forgets(c, run, key) {
      ForgottenIsEmpty(c, run, key);
    } else if e.Query? && e.key == key {
      OwnQuery(c, t, key, e.now);
      PruneShrinks(Deque(t, key), e.now, c.window);
    } else if e.Failure? && e.key == key {
      OwnFailure(c, t, key, e.now);
    } else if !e.Reset? {
      OtherKey(c, t, e, key);
    }
  }

  /** Stored failures and logins under way together never exceed attempts - 1 + most. */
  lemma {:induction false} FailuresAndFlights(c: Settings, run: seq<Event>, key: string, most: int)
    requires c.attempts >= 1 && AtMostInFlight(c, run, key, most)
    ensures |Deque(After(c, run), key)| + InFlight(c, run, key) <= c.attempts - 1 + most
  {
    assert run[..|run|] == run;
    if run == [] {
      assert 0 <= InFlight(c, run[..0], key) <= most;
    } else {
      var n := |run| - 1;
      forall i | 0 <= i <= n ensures 0 <= InFlight(c, run[..n][..i], key) <= most {
        assert run[..n][..i] == run[..i];
      }
      FailuresAndFlights(c, run[..n], key, most);
      StaysOrdered(c, run[..n]);
      NoOvershoot(c, run, key);
      hide After, Deque, WellOrdered;
    }
  }

  lemma LoggedWindowIsBounded(c: Settings, run: seq<Event>, key: string, low: real, most: int)
    requires c.attempts >= 1 && c.window > 0.0 && Clocked(run, low) && AtMostInFlight(c, run, key, most)
    requires run != [] && run[|run| - 1].Failure? && run[|run| - 1].key == key
    ensures |Since(Log(c, run, key), run[|run| - 1].now - c.window)| <= c.attempts - 1 + most
  {
    var n := |run| - 1;
    FailuresAndFlights(c, run, key, most);
    DequeIsRecentLog(c, run, key, low);
    BeforeFailure(c, run, key, low);
    LogGrows(c, run, key, low);
    assert run[..|run|] == run && 0 <= InFlight(c, run[..|run|], key);
    hide Since, Log, Horizon, After, Deque, InFlight;
    SinceShrinks(Log(c, run, key), Horizon(c, run, key, low) - c.window, run[n].now - c.window);
  }

  // --------------------------------------------- all failures, forgotten ones too

  /** Every failure of the key the run has recorded. */
  function Recorded(run: seq<Event>, key: string): Times {
    if run == [] then []
    else
      var before, e := Recorded(run[..|run| - 1], key), run[|run| - 1];
      if e.Failure? && e.key == key then before + [e.now] else before
  }

  /** Those of them that lie before the last success, reset or eviction of the key. */
  function Forgotten(c: Settings, run: seq<Event>, key: string): Times {
    if run == [] then []
    else if Forgets(c, run, key) then Recorded(run, key)
    else Forgotten(c, run[..|run| - 1], key)
  }

  lemma {:induction false} RecordedSplits(c: Settings, run: seq<Event>, key: string)
    ensures Recorded(run, key) == Forgotten(c, run, key) + Log(c, run, key)
  {
    hide Forgets;
    if run != [] && !Forgets(c, run, key) { RecordedSplits(c, run[..|run| - 1], key); }
  }

  lemma {:induction false} SinceJoins(a: Times, b: Times, bound: real)
    ensures Since(a + b, bound) == Since(a, bound) + Since(b, bound)
  {
    if b == [] {
      assert a + b == a;
    } else {
      var n := |b| - 1;
      assert (a + b)[..|a + b| - 1] == a + b[..n];
      SinceJoins(a, b[..n], bound);
    }
  }

  /**
   The check and the recording of a failure are two steps, so the limit can be overrun, but not by much: with
   at most most logins of a key under way at once, no window holds more than attempts - 1 + most recorded
   failures beside those the table was made to forget, by a success, a reset or an eviction, within it.
   Stated at each recorded failure, the last one of its window.
   */
  lemma WindowIsBounded(c: Settings, run: seq<Event>, key: string, low: real, most: int)
    requires c.attempts >= 1 && c.window > 0.0 && Clocked(run, low) && AtMostInFlight(c, run, key, most)
    requires run != [] && run[|run| - 1].Failure? && run[|run| - 1].key == key
    ensures var from := run[|run| - 1].now - c.window;
      && |Since(Recorded(run, key), from)| <= c.attempts - 1 + most + |Since(Forgotten(c, run, key), from)|
      && ((forall i | 0 <= i < |Forgotten(c, run, key)| :: Forgotten(c, run, key)[i] <= from)
          ==> |Since(Recorded(run, key), from)| <= c.attempts - 1 + most)
  {
    hide Since, Log, Forgotten, Recorded, Clocked, AtMostInFlight;
    var from := run[|run| - 1].now - c.window;
    LoggedWindowIsBounded(c, run, key, low, most);
    RecordedSplits(c, run, key);
    SinceJoins(Forgotten(c, run, key), Log(c, run, key), from);
    if forall i | 0 <= i < |Forgotten(c, run, key)| :: Forgotten(c, run, key)[i] <= from {
      SinceNone(Forgotten(c, run, key), from);
    }
  }

  lemma {:induction false} SinceNone(s: Times, bound: real)
    requires forall i | 0 <= i < |s| :: s[i] <= bound
    ensures Since(s, bound) == []
  {
    if s != [] { SinceNone(s[..|s| - 1], bound); }
  }

  // ------------------------------------------------------- the capacity is no bound

  function KeyOfLength(n: nat): (key: string)
    ensures |key| == n
  {
    seq(n, _ => 'x')
  }

  /** Queries of n keys nobody failed with. */
  function Probes(n: nat): seq<Event> {
    if n == 0 then [] else Probes(n - 1) + [Query(KeyOfLength(n), 0.0)]
  }

  lemma NewKeyIsInserted(t: Table, key: string, now: real, window: real)
    requires key !in t.entries
    ensures Queried(t, key, now, window).order == t.order + [key]
    ensures forall k :: k in Queried(t, key, now, window).entries <==> k in t.entries || k == key
  {
    hide Prune;
  }

  lemma OneMoreProbe(c: Settings, n: nat)
    requires n > 0
    ensures After(c, Probes(n)) == Queried(After(c, Probes(n - 1)), KeyOfLength(n), 0.0, c.window)
  {
    assert Probes(n)[..|Probes(n)| - 1] == Probes(n - 1);
    hide Queried;
  }

  /** A query inserts its key too, and only recorded failures evict: the table can grow to any size. */
  lemma {:induction false} QueriesGrowTheTable(c: Settings, n: nat)
    ensures |After(c, Probes(n)).order| == n
    ensures forall k :: k in After(c, Probes(n)).entries ==> |k| <= n
  {
    if n > 0 {
      QueriesGrowTheTable(c, n - 1);
      hide After, Queried, Probes, KeyOfLength;
      var key := KeyOfLength(n);
      assert key !in After(c, Probes(n - 1)).entries;
      OneMoreProbe(c, n);
      NewKeyIsInserted(After(c, Probes(n - 1)), key, 0.0, c.window);
    }
  }

  // ------------------------------------------------------- the bound is reached

  ghost predicate AllAtOnce(run: seq<Event>) {
    forall i | 0 <= i < |run| && HasTime(run[i]) :: run[i].now == 0.0
  }

  lemma GrowsByOne(c: Settings, run: seq<Event>, e: Event)
    ensures After(c, run + [e]) == Step(c, After(c, run), e)
    ensures forall key :: Recorded(run + [e], key)
              == if e.Failure? && e.key == key then Recorded(run, key) + [e.now] else Recorded(run, key)
    ensures forall key :: InFlight(c, run + [e], key)
              == if e.Reset? || e.key != key then InFlight(c, run, key)
                 else if e.Query?
                 then (if Limited(c, run + [e], key) then InFlight(c, run, key) else InFlight(c, run, key) + 1)
                 else InFlight(c, run, key) - 1
    ensures AllAtOnce(run) && (HasTime(e) ==> e.now == 0.0) ==> AllAtOnce(run + [e])
    ensures forall key, most :: AtMostInFlight(c, run, key, most) && 0 <= InFlight(c, run + [e], key) <= most
              ==> AtMostInFlight(c, run + [e], key, most)
  {
    assert (run + [e])[..|run|] == run;
    hide Step, Limited;
    forall key, most | AtMostInFlight(c, run, key, most) && 0 <= InFlight(c, run + [e], key) <= most
      ensures AtMostInFlight(c, run + [e], key, most)
    {
      forall i | 0 <= i <= |run + [e]| ensures 0 <= InFlight(c, (run + [e])[..i], key) <= most {
        if i <= |run| {
          assert (run + [e])[..i] == run[..i];
        } else {
          assert (run + [e])[..i] == run + [e];
        }
      }
    }
  }

  /** A run of logins of one key at one time, after which that many failures are stored and logins under way. */
  ghost predicate Tally(c: Settings, run: seq<Event>, most: int, failures: nat, flights: nat) {
    && AllAtOnce(run) && AtMostInFlight(c, run, "", most) && InFlight(c, run, "") == flights
    && |Deque(After(c, run), "")| == failures && (forall x | x in Deque(After(c, run), "") :: x == 0.0)
    && |Recorded(run, "")| == failures && Forgotten(c, run, "") == []
  }

  lemma ForgottenGrows(c: Settings, run: seq<Event>, e: Event)
    requires (e.Query? || e.Failure?) && e.key == ""
    ensures Forgotten(c, run + [e], "") == Forgotten(c, run, "")
  {
    assert (run + [e])[..|run|] == run;
  }

  lemma OneMoreQuery(c: Settings, run: seq<Event>, most: int, failures: nat, flights: nat)
    requires c.window > 0.0 && Tally(c, run, most, failures, flights) && failures < c.attempts && flights < most
    ensures Tally(c, run + [Query("", 0.0)], most, failures, flights + 1)
  {
    var t := After(c, run);
    OwnQuery(c, t, "", 0.0);
    assert Prune(Deque(t, ""), 0.0, c.window) == Deque(t, "") by {
      assert Deque(t, "") != [] ==> Deque(t, "")[0] in Deque(t, "");
    }
    GrowsByOne(c, run, Query("", 0.0));
    ForgottenGrows(c, run, Query("", 0.0));
    hide After, InFlight, Recorded, AllAtOnce, Forgotten, Deque, Queried, Prune;
  }

  lemma OneMoreFailure(c: Settings, run: seq<Event>, most: int, failures: nat, flights: nat)
    requires Tally(c, run, most, failures, flights) && 0 < flights <= most
    ensures Tally(c, run + [Failure("", 0.0)], most, failures + 1, flights - 1)
  {
    StaysOrdered(c, run);
    OwnFailure(c, After(c, run), "", 0.0);
    GrowsByOne(c, run, Failure("", 0.0));
    ForgottenGrows(c, run, Failure("", 0.0));
    hide After, InFlight, Recorded, AllAtOnce, Forgotten, Deque, Failed;
  }

  lemma {:induction false} FailuresOneByOne(c: Settings, most: int, n: nat) returns (run: seq<Event>)
    requires c.attempts >= 1 && c.window > 0.0 && most >= 1 && n < c.attempts
    ensures Tally(c, run, most, n, 0)
  {
    if n == 0 {
      run := [];
    } else {
      run := FailuresOneByOne(c, most, n - 1);
      OneMoreQuery(c, run, most, n - 1, 0);
      run := run + [Query("", 0.0)];
      OneMoreFailure(c, run, most, n - 1, 1);
      run := run + [Failure("", 0.0)];
    }
  }

  /**
   The bound is the best there is: for every limit and every number of logins at once there is a run, with
   nothing forgotten, whose last window holds exactly attempts - 1 + most failures.
   */
  lemma WindowBoundIsReached(c: Settings, most: int)
    requires c.attempts >= 1 && c.window > 0.0 && most >= 1
    ensures exists run: seq<Event> ::
      && AllAtOnce(run) && AtMostInFlight(c, run, "", most) && Forgotten(c, run, "") == []
      && |Recorded(run, "")| == c.attempts - 1 + most
  {
    hide Tally;
    var run := FailuresOneByOne(c, most, c.attempts - 1);
    for i := 0 to most
      invariant Tally(c, run, most, c.attempts - 1, i)
    {
      OneMoreQuery(c, run, most, c.attempts - 1, i);
      run := run + [Query("", 0.0)];
    }
    for i := 0 to most
      invariant Tally(c, run, most, c.attempts - 1 + i, most - i)
    {
      OneMoreFailure(c, run, most, c.attempts - 1 + i, most - i);
      run := run + [Failure("", 0.0)];
    }
    TallyMeans(c, run, most, c.attempts - 1 + most);
  }

  lemma TallyMeans(c: Settings, run: seq<Event>, most: int, failures: nat)
    requires Tally(c, run, most, failures, 0)
    ensures AllAtOnce(run) && AtMostInFlight(c, run, "", most) && Forgotten(c, run, "") == []
    ensures |Recorded(run, "")| == failures
  {
  }

  // --------------------------------------------------- eviction loosens the limit

  /** Two logins of the key "" that fail, then queries of n other keys, all at one time. */
  function Crowd(n: nat): seq<Event> {
    if n == 0 then [Query("", 0.0), Query("", 0.0), Failure("", 0.0), Failure("", 0.0)]
    else Crowd(n - 1) + [Query(KeyOfLength(n), 0.0)]
  }

  /** A table full of other keys in which "" is the oldest and has two failures. */
  ghost predicate Crowded(t: Table, n: nat) {
    && WellOrdered(t) && |t.order| == n + 1 && t.order[0] == "" && Deque(t, "") == [0.0, 0.0]
    && forall k :: k in t.entries ==> |k| <= n
  }

  /** Every request that records anything was let through, and at most two of a key are under way at once. */
  ghost predicate LoginRun(c: Settings, run: seq<Event>) {
    AllAtOnce(run) && forall key :: AtMostInFlight(c, run, key, 2)
  }

  ghost predicate CrowdFacts(c: Settings, run: seq<Event>, n: nat) {
    && LoginRun(c, run) && Crowded(After(c, run), n)
    && Recorded(run, "") == [0.0, 0.0] && InFlight(c, run, "") == 0
    && forall key | |key| > n :: InFlight(c, run, key) == 0
  }

  lemma StillLoginRun(c: Settings, run: seq<Event>, e: Event)
    requires LoginRun(c, run) && (HasTime(e) ==> e.now == 0.0)
    requires !e.Reset? ==> 0 <= InFlight(c, run + [e], e.key) <= 2
    ensures LoginRun(c, run + [e])
  {
    GrowsByOne(c, run, e);
    hide InFlight, AllAtOnce;
    forall key ensures AtMostInFlight(c, run + [e], key, 2) {
      assert AtMostInFlight(c, run, key, 2);
      if e.Reset? || e.key != key { NowInFlight(c, run, key); }
    }
  }

  lemma NowInFlight(c: Settings, run: seq<Event>, key: string)
    requires AtMostInFlight(c, run, key, 2)
    ensures 0 <= InFlight(c, run, key) <= 2
  {
    assert run[..|run|] == run;
  }

  /** A query of a key the table does not hold is let through and inserts it. */
  lemma NewKeyIsLetThrough(c: Settings, t: Table, key: string)
    requires c.attempts == 1 && WellOrdered(t) && key !in t.entries
    ensures var u := Queried(t, key, 0.0, c.window);
      && u == Table(t.entries[key := []], t.order + [key]) && WellOrdered(u) && Deque(u, key) == []
  {
    TouchedStaysOrdered(t, key);
  }

  lemma CrowdStarts(c: Settings)
    requires c.attempts == 1 && c.window > 0.0
    ensures CrowdFacts(c, Crowd(0), 0)
  {
    var q, f := Query("", 0.0), Failure("", 0.0);
    var r0: seq<Event> := [];
    var r1, r2, r3, r4 := r0 + [q], r0 + [q] + [q], r0 + [q] + [q] + [f], r0 + [q] + [q] + [f] + [f];
    assert r4 == Crowd(0);
    assert LoginRun(c, r0);
    GrowsByOne(c, r0, q);
    GrowsByOne(c, r1, q);
    GrowsByOne(c, r2, f);
    GrowsByOne(c, r3, f);
    hide After, InFlight, Recorded, AllAtOnce, LoginRun;
    NewKeyIsLetThrough(c, Table(map[], []), "");
    StillLoginRun(c, r0, q);
    StillLoginRun(c, r1, q);
    StillLoginRun(c, r2, f);
    StillLoginRun(c, r3, f);
  }

  lemma {:induction false} CrowdGrows(c: Settings, n: nat)
    requires c.attempts == 1 && c.window > 0.0
    ensures CrowdFacts(c, Crowd(n), n)
  {
    if n == 0 {
      CrowdStarts(c);
    } else {
      CrowdGrows(c, n - 1);
      CrowdGrowsOnce(c, n);
    }
  }

  lemma CrowdGrowsOnce(c: Settings, n: nat)
    requires c.attempts == 1 && n > 0 && CrowdFacts(c, Crowd(n - 1), n - 1)
    ensures CrowdFacts(c, Crowd(n), n)
  {
    hide After, InFlight, Recorded, AllAtOnce, LoginRun, KeyOfLength, Queried;
    var run, e := Crowd(n - 1), Query(KeyOfLength(n), 0.0);
    GrowsByOne(c, run, e);
    NewKeyIsLetThrough(c, After(c, run), e.key);
    StillLoginRun(c, run, e);
  }

  lemma {:induction false} WithoutNewcomer(order: seq<string>, key: string)
    requires key !in order
    ensures Without(order, key) == order && Without(order + [key], key) == order
  {
    if order == [] {
      assert [key][1..] == [];
    } else {
      assert (order + [key])[1..] == order[1..] + [key];
      WithoutNewcomer(order[1..], key);
    }
  }

  lemma TableIsRestored(c: Settings, t: Table, key: string)
    requires c.attempts == 1 && WellOrdered(t) && key !in t.entries
    ensures var u := Queried(t, key, 0.0, c.window);
      Queried(u, key, 0.0, c.window) == u && Deque(u, key) == [] && Dropped(u, key) == t
  {
    NewKeyIsLetThrough(c, t, key);
    WithoutNewcomer(t.order, key);
  }

  /** Two logins of a new key, the first successful: the table is as before, and one login is under way. */
  lemma SuccessMakesRoom(c: Settings, run: seq<Event>, n: nat, key: string)
    requires c.attempts == 1 && CrowdFacts(c, run, n) && |key| > n
    ensures var later := run + [Query(key, 0.0)] + [Query(key, 0.0)] + [Success(key)];
      && LoginRun(c, later) && After(c, later) == After(c, run)
      && InFlight(c, later, key) == 1 && InFlight(c, later, "") == 0 && Recorded(later, "") == [0.0, 0.0]
  {
    var t, q := After(c, run), Query(key, 0.0);
    var r1, r2 := run + [q], run + [q] + [q];
    GrowsByOne(c, run, q);
    GrowsByOne(c, r1, q);
    GrowsByOne(c, r2, Success(key));
    hide After, InFlight, Recorded, AllAtOnce, LoginRun, Queried, Dropped, Deque;
    TableIsRestored(c, t, key);
    StillLoginRun(c, run, q);
    StillLoginRun(c, r1, q);
    StillLoginRun(c, r2, Success(key));
  }

  /**
   So the bound cannot do without what was forgotten. In a full table the failed login of another key, whose
   entry a concurrent success has just removed, evicts the oldest key: with one attempt allowed and never more
   than two logins of a key under way, "" has three failures at once, where two would be the bound.
   */
  lemma EvictionLoosensTheLimit(window: real)
    requires window > 0.0
    ensures exists run: seq<Event> :: LoginRun(Settings(1, window), run) && |Recorded(run, "")| == 3
                                      && Since(Recorded(run, ""), 0.0 - window) == Recorded(run, "")
  {
    hide LoginRun, Recorded, Crowd, After, InFlight, KeyOfLength, Crowded;
    var c, n := Settings(1, window), CAPACITY - 1;
    var key := KeyOfLength(n + 1);
    CrowdGrows(c, n);
    SuccessMakesRoom(c, Crowd(n), n, key);
    var full := Crowd(n) + [Query(key, 0.0)] + [Query(key, 0.0)] + [Success(key)];
    var run := Evicted(c, full, n, key);
    SinceAll(Recorded(run, ""), 0.0 - window);
  }

  lemma Evicted(c: Settings, full: seq<Event>, n: nat, key: string) returns (run: seq<Event>)
    requires c.attempts == 1 && c.window > 0.0 && n + 1 == CAPACITY && |key| > n
    requires LoginRun(c, full) && Crowded(After(c, full), n)
    requires InFlight(c, full, key) == 1 && InFlight(c, full, "") == 0 && Recorded(full, "") == [0.0, 0.0]
    ensures LoginRun(c, run) && Recorded(run, "") == [0.0, 0.0, 0.0]
  {
    var f, q, g := Failure(key, 0.0), Query("", 0.0), Failure("", 0.0);
    var r1, r2 := full + [f], full + [f] + [q];
    run := r2 + [g];
    assert r1[..|full|] == full;
    assert Forgets(c, r1, "");
    ForgottenIsEmpty(c, r1, "");
    StaysOrdered(c, full);
    StaysOrdered(c, r1);
    EvictedIsGone(After(c, full), key);
    GrowsByOne(c, full, f);
    GrowsByOne(c, r1, q);
    GrowsByOne(c, r2, g);
    hide After, InFlight, Recorded, AllAtOnce, LoginRun;
    StillLoginRun(c, full, f);
    NewKeyIsLetThrough(c, After(c, r1), "");
    StillLoginRun(c, r1, q);
    StillLoginRun(c, r2, g);
  }

  lemma EvictedIsGone(t: Table, key: string)
    requires WellOrdered(t) && Evicts(t, key)
    ensures t.order[0] !in Failed(t, key, 0.0).entries
  {
  }
}
