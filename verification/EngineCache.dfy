/**
 The cached database engine: a getter with double-checked locking, a synchronous disposer that
 disposes under the lock, and an asynchronous one that takes the engine out under the lock and
 disposes it afterwards.

 Any number of threads run these three operations, any number of times, interleaved step by step.
 One step is one read or write of the shared cache, one lock operation, or one call that builds or
 disposes an engine.  Engines are numbered in the order they are built.
 */
module EngineCache {
  import opened Options

  datatype Operation = Get | SyncDispose | AsyncDispose

  /** Where a thread stands; the comment says what its next step does. */
  datatype Pc =
    | Idle
    | GetCheck                              // reads the cache without the lock
    | GetFast                               // reads it again and returns that
    | GetLock                               // takes the lock
    | GetRecheck                            // reads the cache under the lock
    | GetReturnLocked                       // reads it again under the lock and returns that
    | GetUnlock                             // releases the lock, having returned
    | GetBuild                              // builds an engine
    | GetStore(engine: nat)                 // stores it
    | GetRelease                            // releases the lock
    | GetReturn                             // reads the cache without the lock and returns that
    | SyncLock                              // takes the lock
    | SyncCheck                             // reads the cache
    | SyncDisposing(engine: nat)            // disposes the cached engine
    | SyncClear(engine: nat)                // clears the cache
    | SyncRelease                           // releases the lock
    | AsyncLock                             // takes the lock
    | AsyncRead                             // takes the snapshot
    | AsyncClear(snapshot: Option<nat>)     // clears the cache
    | AsyncRelease(snapshot: Option<nat>)   // releases the lock
    | AsyncDisposing(engine: nat)           // disposes the snapshot

  datatype State = State(
    cached: Option<nat>,
    lock: Option<nat>,             // the thread that holds it
    pcs: seq<Pc>,                  // by thread
    disposals: seq<nat>,           // by engine: how often it was disposed
    results: seq<Option<nat>>,     // what the getters returned, in order
    lost: set<nat>)                // engines whose disposal failed after they had been taken out

  datatype Action =
    | Start(thread: nat, op: Operation)
    | Advance(thread: nat)
    | FailBuild(thread: nat)
    | FailDispose(thread: nat)

  function At(s: State, t: nat, pc: Pc): State
    requires t < |s.pcs|
  {
    s.(pcs := s.pcs[t := pc])
  }

  function Acquire(s: State, t: nat, pc: Pc): State
    requires t < |s.pcs|
  {
    if s.lock.None? then At(s, t, pc).(lock := Some(t)) else s
  }

  function Release(s: State, t: nat, pc: Pc): State
    requires t < |s.pcs|
  {
    At(s, t, pc).(lock := None)
  }

  function Return(s: State, t: nat, pc: Pc): State
    requires t < |s.pcs|
  {
    At(s, t, pc).(results := s.results + [s.cached])
  }

  function Dispose(s: State, e: nat): State {
    if e < |s.disposals| then s.(disposals := s.disposals[e := s.disposals[e] + 1]) else s
  }

  function Entry(op: Operation): Pc {
    match op case Get => GetCheck case SyncDispose => SyncLock case AsyncDispose => AsyncLock
  }

  /** Disposing raises: under the lock the engine stays cached, outside it nobody has the engine any more. */
  function FailedDispose(s: State, t: nat): State
    requires t < |s.pcs|
  {
    match s.pcs[t]
    case SyncDisposing(_) => Release(s, t, Idle)
    case AsyncDisposing(e) => At(s, t, Idle).(lost := s.lost + {e})
    case _ => s
  }

  /** One step of one thread; a thread that cannot move leaves the state as it is. */
  function Step(s: State, a: Action): State {
    var t := a.thread;
    if t >= |s.pcs| then s
    else
      match a
      case Start(_, op) => if s.pcs[t].Idle? then At(s, t, Entry(op)) else s
      case FailBuild(_) => if s.pcs[t].GetBuild? then Release(s, t, Idle) else s
      case FailDispose(_) => FailedDispose(s, t)
      case Advance(_) =>
        match s.pcs[t]
        case Idle => s
        case GetCheck => At(s, t, if s.cached.Some? then GetFast else GetLock)
        case GetFast => Return(s, t, Idle)
        case GetLock => Acquire(s, t, GetRecheck)
        case GetRecheck => At(s, t, if s.cached.Some? then GetReturnLocked else GetBuild)
        case GetReturnLocked => Return(s, t, GetUnlock)
        case GetUnlock => Release(s, t, Idle)
        case GetBuild => At(s, t, GetStore(|s.disposals|)).(disposals := s.disposals + [0])
        case GetStore(e) => At(s, t, GetRelease).(cached := Some(e))
        case GetRelease => Release(s, t, GetReturn)
        case GetReturn => Return(s, t, Idle)
        case SyncLock => Acquire(s, t, SyncCheck)
        case SyncCheck => At(s, t, if s.cached.Some? then SyncDisposing(s.cached.value) else SyncRelease)
        case SyncDisposing(e) => Dispose(At(s, t, SyncClear(e)), e)
        case SyncClear(_) => At(s, t, SyncRelease).(cached := None)
        case SyncRelease => Release(s, t, Idle)
        case AsyncLock => Acquire(s, t, AsyncRead)
        case AsyncRead => At(s, t, AsyncClear(s.cached))
        case AsyncClear(snapshot) => At(s, t, AsyncRelease(snapshot)).(cached := None)
        case AsyncRelease(snapshot) => Release(s, t, if snapshot.Some? then AsyncDisposing(snapshot.value) else Idle)
        case AsyncDisposing(e) => Dispose(At(s, t, Idle), e)
  }

  function Initial(threads: nat): State {
    State(None, None, seq(threads, _ => Idle), [], [], {})
  }

  function Run(s: State, actions: seq<Action>): State
    decreases |actions|
  {
    if actions == [] then s else Run(Step(s, actions[0]), actions[1..])
  }

  // ---------- What every run keeps ----------

  /** The thread is between taking and releasing the lock. */
  predicate InLock(pc: Pc) {
    || pc.GetRecheck? || pc.GetReturnLocked? || pc.GetUnlock? || pc.GetBuild? || pc.GetStore? || pc.GetRelease?
    || pc.SyncCheck? || pc.SyncDisposing? || pc.SyncClear? || pc.SyncRelease?
    || pc.AsyncRead? || pc.AsyncClear? || pc.AsyncRelease?
  }

  /** The engine is in this thread's hands alone: just built, or taken out to be disposed. */
  predicate Holds(pc: Pc, e: nat) {
    pc == GetStore(e) || pc == AsyncRelease(Some(e)) || pc == AsyncDisposing(e)
  }

  /** What a thread under the lock knows of the cache. */
  ghost predicate LocalView(s: State, pc: Pc) {
    match pc
    case GetReturnLocked => s.cached.Some?
    case GetBuild => s.cached.None?
    case GetStore(_) => s.cached.None?
    case GetRelease => s.cached.Some?
    case SyncDisposing(e) => s.cached == Some(e) && e < |s.disposals| && s.disposals[e] == 0
    case SyncClear(e) => s.cached == Some(e) && e < |s.disposals| && s.disposals[e] == 1
    case AsyncClear(snapshot) => s.cached == snapshot
    case AsyncRelease(_) => s.cached.None?
    case _ => true
  }

  ghost predicate Clearing(s: State, e: nat) {
    exists t :: 0 <= t < |s.pcs| && s.pcs[t] == SyncClear(e)
  }

  ghost predicate Held(s: State, e: nat) {
    exists t :: 0 <= t < |s.pcs| && Holds(s.pcs[t], e)
  }

  /** Only the thread that holds the lock is between taking and releasing it. */
  ghost predicate LockKept(s: State) {
    && (forall t | 0 <= t < |s.pcs| :: InLock(s.pcs[t]) <==> s.lock == Some(t))
    && (s.lock.Some? ==> s.lock.value < |s.pcs|)
  }

  ghost predicate ViewsKept(s: State) {
    && (forall t | 0 <= t < |s.pcs| :: LocalView(s, s.pcs[t]))
    && (s.cached.Some? ==> s.cached.value < |s.disposals|)
  }

  /** An engine in a thread's hands is in no other hands, not cached and not disposed. */
  ghost predicate HoldsApart(s: State) {
    && (forall t, e: nat | 0 <= t < |s.pcs| && Holds(s.pcs[t], e) ::
          e < |s.disposals| && s.disposals[e] == 0 && s.cached != Some(e))
    && (forall t, u, e: nat | 0 <= t < |s.pcs| && 0 <= u < |s.pcs| && Holds(s.pcs[t], e) && Holds(s.pcs[u], e) ::
          t == u)
  }

  /** What is lost stays out of the cache, out of all hands and undisposed. */
  ghost predicate LostApart(s: State) {
    forall e | e in s.lost ::
      e < |s.disposals| && s.disposals[e] == 0 && s.cached != Some(e) && !Held(s, e)
  }

  /** No engine is unaccounted for and none is disposed twice. */
  ghost predicate Accounted(s: State) {
    && (forall e: nat | e < |s.disposals| :: s.disposals[e] <= 1)
    && (forall e: nat | e < |s.disposals| && s.disposals[e] == 0 && s.cached != Some(e) && e !in s.lost :: Held(s, e))
    && (s.cached.Some? && s.cached.value < |s.disposals| && s.disposals[s.cached.value] == 1 ==>
          Clearing(s, s.cached.value))
  }

  ghost predicate Invariant(s: State) {
    LockKept(s) && ViewsKept(s) && HoldsApart(s) && LostApart(s) && Accounted(s)
  }

  /** A step takes a free lock, gives its own lock back, or leaves the lock alone. */
  lemma {:induction false} OwnLock(s: State, a: Action)
    requires LockKept(s) && a.thread < |s.pcs|
    ensures
      var t, after := a.thread, Step(s, a);
      && (InLock(after.pcs[t]) <==> after.lock == Some(t))
      && (after.lock == s.lock || (s.lock.None? && after.lock == Some(t)) || (s.lock == Some(t) && after.lock.None?))
  {
  }

  lemma {:induction false} StepKeepsLock(s: State, a: Action)
    requires LockKept(s)
    ensures LockKept(Step(s, a))
  {
    var t, after := a.thread, Step(s, a);
    StepFrame(s, a);
    if t < |s.pcs| {
      OwnLock(s, a);
      forall u | 0 <= u < |s.pcs| && u != t
        ensures InLock(after.pcs[u]) <==> after.lock == Some(u)
      {
        assert InLock(s.pcs[u]) <==> s.lock == Some(u);
      }
    }
  }

  /** A view outlasts a step of another thread. */
  lemma {:induction false} ViewStays(s: State, after: State, pc: Pc)
    requires LocalView(s, pc)
    requires InLock(pc) ==>
               && after.cached == s.cached
               && |s.disposals| <= |after.disposals|
               && (s.cached.Some? && s.cached.value < |s.disposals| ==>
                     after.disposals[s.cached.value] == s.disposals[s.cached.value])
    ensures LocalView(after, pc)
  {
  }

  /** What one step can change: the stepping thread's place, and little else unless it has the lock. */
  lemma {:induction false} StepFrame(s: State, a: Action)
    ensures
      var t, after := a.thread, Step(s, a);
      && |after.pcs| == |s.pcs|
      && (forall u | 0 <= u < |s.pcs| && u != t :: after.pcs[u] == s.pcs[u])
      && ((t < |s.pcs| && InLock(s.pcs[t])) || after.cached == s.cached)
      && |s.disposals| <= |after.disposals|
  {
  }

  lemma {:induction false} LostFrame(s: State, a: Action)
    ensures
      var t, after := a.thread, Step(s, a);
      && s.lost <= after.lost
      && (forall e | e in after.lost && e !in s.lost ::
            t < |s.pcs| && s.pcs[t] == AsyncDisposing(e) && after.pcs[t].Idle?)
  {
  }

  lemma {:induction false} DisposalsFrame(s: State, a: Action, e: nat)
    requires e < |s.disposals|
    requires a.thread < |s.pcs| ==> s.pcs[a.thread] != SyncDisposing(e) && s.pcs[a.thread] != AsyncDisposing(e)
    ensures e < |Step(s, a).disposals| && Step(s, a).disposals[e] == s.disposals[e]
  {
  }

  lemma {:induction false} OwnView(s: State, a: Action)
    requires Invariant(s) && a.thread < |s.pcs|
    ensures a.thread < |Step(s, a).pcs| && LocalView(Step(s, a), Step(s, a).pcs[a.thread])
    ensures Step(s, a).cached.Some? ==> Step(s, a).cached.value < |Step(s, a).disposals|
  {
    assert LocalView(s, s.pcs[a.thread]);
    assert InLock(s.pcs[a.thread]) <==> s.lock == Some(a.thread);
  }

  lemma {:induction false} StepKeepsViews(s: State, a: Action)
    requires Invariant(s)
    ensures ViewsKept(Step(s, a))
  {
    var t, after := a.thread, Step(s, a);
    StepFrame(s, a);
    if t < |s.pcs| {
      OwnView(s, a);
    }
    forall u | 0 <= u < |s.pcs| && u != t
      ensures LocalView(after, after.pcs[u])
    {
      assert LocalView(s, s.pcs[u]);
      if InLock(s.pcs[u]) && s.cached.Some? {
        assert t < |s.pcs| ==> !InLock(s.pcs[t]) && !Holds(s.pcs[t], s.cached.value);
        DisposalsFrame(s, a, s.cached.value);
      }
      ViewStays(s, after, s.pcs[u]);
    }
  }

  lemma {:induction false} HoldFacts(s: State, t: nat, e: nat)
    requires HoldsApart(s) && t < |s.pcs| && Holds(s.pcs[t], e)
    ensures e < |s.disposals| && s.disposals[e] == 0 && s.cached != Some(e)
  {
  }

  /** Under the lock, the cached engine is undisposed for everyone but a disposer about to clear it. */
  lemma {:induction false} CachedFresh(s: State, t: nat)
    requires Invariant(s) && t < |s.pcs| && InLock(s.pcs[t]) && !s.pcs[t].SyncClear? && s.cached.Some?
    ensures s.cached.value < |s.disposals| && s.disposals[s.cached.value] == 0
  {
  }

  /** An engine a thread comes to hold was in its hands, is new, or was cached. */
  lemma {:induction false} NewHold(s: State, a: Action, after: State, e: nat)
    requires Invariant(s) && a.thread < |s.pcs| && after == Step(s, a) && |after.pcs| == |s.pcs|
    requires Holds(after.pcs[a.thread], e)
    ensures
      && e < |after.disposals| && after.disposals[e] == 0 && after.cached != Some(e)
      && (Holds(s.pcs[a.thread], e) || e == |s.disposals| || s.cached == Some(e))
  {
    var t := a.thread;
    assert LocalView(s, s.pcs[t]);
    if Holds(s.pcs[t], e) {
      HoldFacts(s, t, e);
    } else if a.Advance? && s.pcs[t].AsyncClear? {
      CachedFresh(s, t);
    }
  }

  lemma {:induction false} StepKeepsHoldsApart(s: State, a: Action)
    requires Invariant(s)
    ensures HoldsApart(Step(s, a))
  {
    var t, after := a.thread, Step(s, a);
    StepFrame(s, a);
    forall u, e: nat | 0 <= u < |s.pcs| && Holds(after.pcs[u], e)
      ensures e < |after.disposals| && after.disposals[e] == 0 && after.cached != Some(e)
      ensures u == t || Holds(s.pcs[u], e)
    {
      if u == t {
        NewHold(s, a, after, e);
      } else {
        OtherHold(s, a, after, u, e);
      }
    }
    forall u, v, e: nat | 0 <= u < |s.pcs| && 0 <= v < |s.pcs| && Holds(after.pcs[u], e) && Holds(after.pcs[v], e)
      ensures u == v
    {
      if u == t && v != t {
        NewHold(s, a, after, e);
      } else if v == t && u != t {
        NewHold(s, a, after, e);
      }
    }
  }

  /** A step of one thread leaves an engine in another's hands alone. */
  lemma {:induction false} OtherHold(s: State, a: Action, after: State, u: nat, e: nat)
    requires Invariant(s) && after == Step(s, a) && u < |s.pcs| && u != a.thread && Holds(s.pcs[u], e)
    ensures e < |after.disposals| && after.disposals[e] == 0 && after.cached != Some(e)
  {
    HoldFacts(s, u, e);
    var t := a.thread;
    if t < |s.pcs| {
      assert !Holds(s.pcs[t], e);
      assert LocalView(s, s.pcs[t]);
      DisposalsFrame(s, a, e);
    }
  }

  /** The stepping thread lets go of an engine only by caching it, disposing it or losing it. */
  lemma {:induction false} LetGo(s: State, a: Action, e: nat)
    requires Invariant(s) && a.thread < |s.pcs| && Holds(s.pcs[a.thread], e) && !Holds(Step(s, a).pcs[a.thread], e)
    ensures || Step(s, a).cached == Some(e)
            || e in Step(s, a).lost
            || (e < |Step(s, a).disposals| && Step(s, a).disposals[e] == 1)
  {
    HoldFacts(s, a.thread, e);
  }

  /** A lost engine comes into no hands and not into the cache again. */
  lemma {:induction false} LostStays(s: State, a: Action, e: nat)
    requires Invariant(s) && e in s.lost
    ensures e < |Step(s, a).disposals| && Step(s, a).disposals[e] == 0 && Step(s, a).cached != Some(e)
    ensures !Held(Step(s, a), e)
  {
    var t, after := a.thread, Step(s, a);
    StepFrame(s, a);
    assert forall u | 0 <= u < |s.pcs| :: !Holds(s.pcs[u], e);
    if t < |s.pcs| {
      assert LocalView(s, s.pcs[t]);
      DisposalsFrame(s, a, e);
      if Holds(after.pcs[t], e) {
        NewHold(s, a, after, e);
      }
    }
  }

  /** An engine is lost by the one thread that had it. */
  lemma {:induction false} NewlyLost(s: State, a: Action, e: nat)
    requires Invariant(s) && e in Step(s, a).lost && e !in s.lost
    ensures e < |Step(s, a).disposals| && Step(s, a).disposals[e] == 0 && Step(s, a).cached != Some(e)
    ensures !Held(Step(s, a), e)
  {
    var t, after := a.thread, Step(s, a);
    StepFrame(s, a);
    LostFrame(s, a);
    HoldFacts(s, t, e);
    forall u | 0 <= u < |s.pcs|
      ensures !Holds(after.pcs[u], e)
    {
      if u != t {
        assert after.pcs[u] == s.pcs[u];
        assert Holds(s.pcs[t], e);
      }
    }
  }

  lemma {:induction false} StepKeepsLostApart(s: State, a: Action)
    requires Invariant(s)
    ensures LostApart(Step(s, a))
  {
    hide Step;
    forall e | e in Step(s, a).lost
      ensures e < |Step(s, a).disposals| && Step(s, a).disposals[e] == 0 && Step(s, a).cached != Some(e)
      ensures !Held(Step(s, a), e)
    {
      if e in s.lost {
        LostStays(s, a, e);
      } else {
        NewlyLost(s, a, e);
      }
    }
  }

  /** A new or uncached engine goes into the stepping thread's hands, unless it was disposed. */
  lemma {:induction false} PickUp(s: State, a: Action, after: State, e: nat)
    requires Invariant(s) && a.thread < |s.pcs| && after == Step(s, a) && |after.pcs| == |s.pcs|
    requires e == |s.disposals| || s.cached == Some(e)
    requires e < |after.disposals| && after.disposals[e] == 0 && after.cached != Some(e)
    ensures Holds(after.pcs[a.thread], e)
  {
    assert LocalView(s, s.pcs[a.thread]);
  }

  lemma {:induction false} StepKeepsHeld(s: State, a: Action, after: State, e: nat)
    requires Invariant(s) && after == Step(s, a)
    requires e < |after.disposals| && after.disposals[e] == 0 && after.cached != Some(e) && e !in after.lost
    ensures Held(after, e)
  {
    hide Step, LocalView;
    var t := a.thread;
    StepFrame(s, a);
    LostFrame(s, a);
    DisposalsGrow(s, a, e);
    if t < |s.pcs| {
      if e == |s.disposals| || s.cached == Some(e) {
        PickUp(s, a, after, e);
      } else {
        assert Held(s, e);
        var u :| 0 <= u < |s.pcs| && Holds(s.pcs[u], e);
        if u == t && !Holds(after.pcs[t], e) {
          LetGo(s, a, e);
        }
        assert Holds(after.pcs[u], e);
      }
    } else {
      StrangerStep(s, a);
    }
  }

  lemma StrangerStep(s: State, a: Action)
    requires a.thread >= |s.pcs|
    ensures Step(s, a) == s
  {
  }

  lemma {:induction false} DisposalsGrow(s: State, a: Action, e: nat)
    requires e < |Step(s, a).disposals|
    ensures e <= |s.disposals|
    ensures e < |s.disposals| ==> s.disposals[e] <= Step(s, a).disposals[e]
    ensures e == |s.disposals| ==> Step(s, a).disposals[e] == 0
  {
  }

  lemma {:induction false} StepKeepsOnce(s: State, a: Action, e: nat)
    requires Invariant(s) && e < |Step(s, a).disposals|
    ensures Step(s, a).disposals[e] <= 1
  {
    DisposalsGrow(s, a, e);
    StepFrame(s, a);
    if a.thread < |s.pcs| {
      assert LocalView(s, s.pcs[a.thread]);
    }
  }

  /** A cached engine that is already disposed has its disposer about to clear the cache. */
  lemma {:induction false} StepKeepsClearing(s: State, a: Action)
    requires Invariant(s)
    ensures
      var after := Step(s, a);
      after.cached.Some? && after.cached.value < |after.disposals| && after.disposals[after.cached.value] == 1 ==>
        Clearing(after, after.cached.value)
  {
    var t, after := a.thread, Step(s, a);
    StepFrame(s, a);
    if t < |s.pcs| && after.cached.Some? && after.cached.value < |after.disposals|
       && after.disposals[after.cached.value] == 1 {
      var e := after.cached.value;
      assert LocalView(s, s.pcs[t]);
      if after.pcs[t] == SyncClear(e) {
        assert Clearing(after, e);
      } else {
        ClearingStays(s, a, after, e);
      }
    }
  }

  lemma {:induction false} ClearingStays(s: State, a: Action, after: State, e: nat)
    requires Invariant(s) && a.thread < |s.pcs| && after == Step(s, a) && |after.pcs| == |s.pcs|
    requires after.cached == Some(e) && e < |after.disposals| && after.disposals[e] == 1
    requires after.pcs[a.thread] != SyncClear(e)
    ensures Clearing(after, e)
  {
    var t := a.thread;
    StepFrame(s, a);
    assert LocalView(s, s.pcs[t]);
    assert InLock(s.pcs[t]) <==> s.lock == Some(t);
    assert s.cached == Some(e) && s.disposals[e] == 1;
    var u :| 0 <= u < |s.pcs| && s.pcs[u] == SyncClear(e);
    assert u != t;
    assert after.pcs[u] == SyncClear(e);
  }

  lemma {:induction false} StepKeepsInvariant(s: State, a: Action)
    requires Invariant(s)
    ensures Invariant(Step(s, a))
  {
    StepKeepsLock(s, a);
    StepKeepsViews(s, a);
    StepKeepsHoldsApart(s, a);
    StepKeepsLostApart(s, a);
    StepKeepsClearing(s, a);
    var after := Step(s, a);
    forall e: nat | e < |after.disposals|
      ensures after.disposals[e] <= 1
      ensures after.disposals[e] == 0 && after.cached != Some(e) && e !in after.lost ==> Held(after, e)
    {
      StepKeepsOnce(s, a, e);
      if after.disposals[e] == 0 && after.cached != Some(e) && e !in after.lost {
        StepKeepsHeld(s, a, after, e);
      }
    }
  }

  lemma {:induction false} RunKeepsInvariant(s: State, actions: seq<Action>)
    requires Invariant(s)
    ensures Invariant(Run(s, actions))
    decreases |actions|
  {
    if actions == [] {
    } else {
      StepKeepsInvariant(s, actions[0]);
      RunKeepsInvariant(Step(s, actions[0]), actions[1..]);
    }
  }

  lemma {:induction false} InitialHolds(threads: nat)
    ensures Invariant(Initial(threads)) && OneEngine(Initial(threads))
  {
    var s := Initial(threads);
    assert forall t | 0 <= t < |s.pcs| :: s.pcs[t] == Idle;
    assert forall t, e: nat | 0 <= t < |s.pcs| :: !Holds(s.pcs[t], e);
  }

  // ---------- What that means ----------

  ghost predicate ExactlyOne(a: bool, b: bool, c: bool, d: bool) {
    (a || b || c || d) && !(a && b) && !(a && c) && !(a && d) && !(b && c) && !(b && d) && !(c && d)
  }

  ghost predicate HeldByOne(s: State, e: nat) {
    exists t :: 0 <= t < |s.pcs| && Holds(s.pcs[t], e)
             && forall u | 0 <= u < |s.pcs| && Holds(s.pcs[u], e) :: u == t
  }

  /**
   After any run of any number of threads, every engine ever built is exactly one of these: in the
   cache and not disposed, in the hands of exactly one thread, disposed, and then once, or lost to a
   disposal that failed outside the lock.
   */
  lemma {:induction false} EveryEngineAccounted(threads: nat, actions: seq<Action>, e: nat)
    requires e < |Run(Initial(threads), actions).disposals|
    ensures
      var s := Run(Initial(threads), actions);
      && ExactlyOne(s.cached == Some(e) && s.disposals[e] == 0, HeldByOne(s, e), s.disposals[e] == 1, e in s.lost)
      && s.disposals[e] <= 1
  {
    var s := Run(Initial(threads), actions);
    InitialHolds(threads);
    RunKeepsInvariant(Initial(threads), actions);
    if s.disposals[e] == 0 && s.cached != Some(e) && e !in s.lost {
      var t :| 0 <= t < |s.pcs| && Holds(s.pcs[t], e);
      assert HeldByOne(s, e);
    }
  }

  ghost predicate Quiet(s: State) {
    forall t | 0 <= t < |s.pcs| :: s.pcs[t] == Idle
  }

  /** When all threads are idle, every engine but the cached one and the lost ones was disposed, once. */
  lemma {:induction false} QuietRunLeaksNothing(threads: nat, actions: seq<Action>, e: nat)
    requires e < |Run(Initial(threads), actions).disposals| && Quiet(Run(Initial(threads), actions))
    ensures
      var s := Run(Initial(threads), actions);
      s.disposals[e] == if s.cached == Some(e) || e in s.lost then 0 else 1
  {
    EveryEngineAccounted(threads, actions, e);
    InitialHolds(threads);
    RunKeepsInvariant(Initial(threads), actions);
  }

  /** A disposal that fails under the lock leaves the engine in the cache, to be returned and disposed again. */
  lemma {:induction false} SyncFailureKeepsEngine(s: State, t: nat, e: nat)
    requires Invariant(s) && t < |s.pcs| && s.pcs[t] == SyncDisposing(e)
    ensures
      var after := Step(s, FailDispose(t));
      after.cached == Some(e) && after.lock == None && after.pcs[t] == Idle && after.disposals == s.disposals
      && after.lost == s.lost && after.disposals[e] == 0
  {
    assert LocalView(s, s.pcs[t]);
  }

  /** One that fails after the engine was taken out loses it: it is never disposed or cached again. */
  lemma {:induction false} AsyncFailureLosesEngine(s: State, t: nat, e: nat, actions: seq<Action>)
    requires Invariant(s) && t < |s.pcs| && s.pcs[t] == AsyncDisposing(e)
    ensures
      var after := Run(Step(s, FailDispose(t)), actions);
      e in after.lost && e < |after.disposals| && after.disposals[e] == 0 && after.cached != Some(e)
  {
    var after := Step(s, FailDispose(t));
    StepKeepsInvariant(s, FailDispose(t));
    LostForever(after, actions, e);
    RunKeepsInvariant(after, actions);
  }

  lemma {:induction false} LostForever(s: State, actions: seq<Action>, e: nat)
    requires e in s.lost
    ensures e in Run(s, actions).lost
    decreases |actions|
  {
    if actions == [] {
    } else {
      LostFrame(s, actions[0]);
      LostForever(Step(s, actions[0]), actions[1..], e);
    }
  }

  /** No deadlock: as long as some thread is busy, some thread can move. */
  lemma {:induction false} SomeThreadCanMove(s: State, busy: nat)
    requires Invariant(s) && busy < |s.pcs| && !s.pcs[busy].Idle?
    ensures exists t: nat :: t < |s.pcs| && Step(s, Advance(t)) != s
  {
    var t := if s.lock.Some? then s.lock.value else busy;
    assert s.lock.Some? ==> InLock(s.pcs[t]);
    Moves(s, t);
  }

  /** A busy thread moves unless another one has the lock it wants. */
  lemma {:induction false} Moves(s: State, t: nat)
    requires t < |s.pcs| && !s.pcs[t].Idle? && (s.lock.None? || InLock(s.pcs[t]))
    ensures Step(s, Advance(t)) != s
  {
    assert Step(s, Advance(t)).pcs[t] != s.pcs[t];
  }

  // ---------- Runs without a dispose ----------

  predicate GetterPc(pc: Pc) {
    || pc.Idle? || pc.GetCheck? || pc.GetFast? || pc.GetLock? || pc.GetRecheck? || pc.GetReturnLocked? || pc.GetUnlock?
    || pc.GetBuild? || pc.GetStore? || pc.GetRelease? || pc.GetReturn?
  }

  ghost predicate OneEngine(s: State) {
    && (forall t | 0 <= t < |s.pcs| :: GetterPc(s.pcs[t]))
    && (forall t | 0 <= t < |s.pcs| && (s.pcs[t].GetFast? || s.pcs[t].GetReturn?) :: s.cached.Some?)
    && |s.disposals| <= 1
    && (s.cached.Some? ==> s.cached == Some(0))
    && (forall i | 0 <= i < |s.results| :: s.results[i] == Some(0))
    && (s.results != [] ==> s.cached.Some?)
    && (s.cached.None? && |s.disposals| == 1 ==> s.lock.Some? && s.lock.value < |s.pcs| && s.pcs[s.lock.value].GetStore?)
    && (forall t | 0 <= t < |s.pcs| && s.pcs[t].GetStore? :: s.pcs[t].engine == 0)
  }

  lemma {:induction false} GetterStep(s: State, a: Action)
    requires Invariant(s) && OneEngine(s) && (a.Start? ==> a.op.Get?)
    ensures OneEngine(Step(s, a))
  {
    var t, after := a.thread, Step(s, a);
    if t < |s.pcs| {
      assert LocalView(s, s.pcs[t]);
      assert InLock(s.pcs[t]) <==> s.lock == Some(t);
      assert forall u | 0 <= u < |s.pcs| && u != t :: after.pcs[u] == s.pcs[u];
    }
  }

  lemma {:induction false} GetterRun(s: State, actions: seq<Action>)
    requires Invariant(s) && OneEngine(s) && forall i | 0 <= i < |actions| && actions[i].Start? :: actions[i].op.Get?
    ensures OneEngine(Run(s, actions)) && Invariant(Run(s, actions))
    decreases |actions|
  {
    if actions == [] {
    } else {
      GetterStep(s, actions[0]);
      StepKeepsInvariant(s, actions[0]);
      GetterRun(Step(s, actions[0]), actions[1..]);
    }
  }

  /** Without a dispose at most one engine is ever built, and every getter returns it. */
  lemma {:induction false} GettersShareOneEngine(threads: nat, actions: seq<Action>)
    requires forall i | 0 <= i < |actions| && actions[i].Start? :: actions[i].op.Get?
    ensures
      var s := Run(Initial(threads), actions);
      && |s.disposals| <= 1
      && (s.results != [] ==> |s.disposals| == 1 && s.disposals[0] == 0 && s.cached == Some(0))
      && forall i | 0 <= i < |s.results| :: s.results[i] == Some(0)
  {
    InitialHolds(threads);
    GetterRun(Initial(threads), actions);
  }

  // ---------- Runs end to end ----------

  lemma {:induction false} RunOneMore(s: State, actions: seq<Action>, a: Action)
    ensures Run(s, actions + [a]) == Step(Run(s, actions), a)
    decreases |actions|
  {
    if actions == [] {
      assert actions + [a] == [a];
      assert Run(Step(s, a), [a][1..]) == Step(s, a);
    } else {
      assert (actions + [a])[1..] == actions[1..] + [a];
      RunOneMore(Step(s, actions[0]), actions[1..], a);
    }
  }

  lemma {:induction false} RunAppend(s: State, a: seq<Action>, b: seq<Action>)
    ensures Run(s, a + b) == Run(Run(s, a), b)
    decreases |a|
  {
    if a == [] {
      assert a + b == b;
    } else {
      assert (a + b)[1..] == a[1..] + b;
      RunAppend(Step(s, a[0]), a[1..], b);
    }
  }

  /** A thread that keeps advancing with no other thread in between; idling costs nothing. */
  function AdvanceN(s: State, t: nat, n: nat): State
    decreases n
  {
    if n == 0 then s else AdvanceN(Step(s, Advance(t)), t, n - 1)
  }

  /** One operation from start to end, undisturbed: no operation takes more than seven further steps. */
  function Alone(s: State, t: nat, op: Operation): State {
    AdvanceN(Step(s, Start(t, op)), t, 7)
  }

  ghost predicate Ready(s: State, t: nat) {
    t < |s.pcs| && s.pcs[t].Idle? && s.lock.None? && (s.cached.Some? ==> s.cached.value < |s.disposals|)
  }

  lemma {:induction false} AdvanceTwice(s: State, t: nat, n: nat)
    requires n >= 2
    ensures AdvanceN(s, t, n) == AdvanceN(Step(Step(s, Advance(t)), Advance(t)), t, n - 2)
  {
  }

  lemma {:induction false} AdvanceOnce(s: State, t: nat, n: nat)
    requires n >= 1
    ensures AdvanceN(s, t, n) == AdvanceN(Step(s, Advance(t)), t, n - 1)
  {
  }

  lemma {:induction false} IdleStays(s: State, t: nat, n: nat)
    requires t < |s.pcs| && s.pcs[t].Idle?
    ensures AdvanceN(s, t, n) == s
  {
    if n == 0 {
    } else {
      IdleStays(s, t, n - 1);
    }
  }

  /** An undisturbed getter returns the cached engine, building it if there is none. */
  lemma {:induction false} GetAlone(s: State, t: nat)
    requires Ready(s, t)
    ensures s.cached.Some? ==> Alone(s, t, Get) == s.(results := s.results + [s.cached])
    ensures s.cached.None? ==>
              var e := Some(|s.disposals|);
              Alone(s, t, Get) == s.(cached := e, disposals := s.disposals + [0], results := s.results + [e])
  {
    var s0 := Step(s, Start(t, Get));
    AdvanceTwice(s0, t, 7);
    var s2 := Step(Step(s0, Advance(t)), Advance(t));
    if s.cached.Some? {
      IdleStays(s2, t, 5);
      assert s2.pcs == s.pcs;
    } else {
      AdvanceTwice(s2, t, 5);
      var s4 := Step(Step(s2, Advance(t)), Advance(t));
      AdvanceTwice(s4, t, 3);
      var s6 := Step(Step(s4, Advance(t)), Advance(t));
      assert AdvanceN(s6, t, 1) == AdvanceN(Step(s6, Advance(t)), t, 0);
      assert Step(s6, Advance(t)).pcs == s.pcs;
    }
  }

  lemma {:induction false} SyncAlone(s: State, t: nat)
    requires Ready(s, t)
    ensures Alone(s, t, SyncDispose) == (if s.cached.Some? then Dispose(s, s.cached.value) else s).(cached := None)
  {
    hide AdvanceN;
    var s0 := Step(s, Start(t, SyncDispose));
    AdvanceTwice(s0, t, 7);
    var s2 := Step(Step(s0, Advance(t)), Advance(t));
    AdvanceTwice(s2, t, 5);
    var s4 := Step(Step(s2, Advance(t)), Advance(t));
    AdvanceTwice(s4, t, 3);
    var s6 := Step(Step(s4, Advance(t)), Advance(t));
    IdleStays(s6, t, 1);
    assert s6.pcs == s.pcs;
  }

  lemma {:induction false} AsyncTakesOut(s: State, t: nat)
    requires Ready(s, t)
    ensures
      var out := At(s, t, AsyncRelease(s.cached)).(lock := Some(t), cached := None);
      Alone(s, t, AsyncDispose) == AdvanceN(out, t, 4)
  {
    hide AdvanceN;
    var s0 := At(s, t, AsyncLock);
    assert Step(s, Start(t, AsyncDispose)) == s0;
    AdvanceTwice(s0, t, 7);
    var s2 := At(s, t, AsyncClear(s.cached)).(lock := Some(t));
    assert Step(Step(s0, Advance(t)), Advance(t)) == s2;
    AdvanceOnce(s2, t, 5);
    assert Step(s2, Advance(t)).pcs == s.pcs[t := AsyncRelease(s.cached)];
  }

  lemma {:induction false} AsyncAlone(s: State, t: nat)
    requires Ready(s, t)
    ensures Alone(s, t, AsyncDispose) == (if s.cached.Some? then Dispose(s, s.cached.value) else s).(cached := None)
  {
    hide AdvanceN;
    AsyncTakesOut(s, t);
    var out := At(s, t, AsyncRelease(s.cached)).(lock := Some(t), cached := None);
    AdvanceTwice(out, t, 4);
    var end := Step(Step(out, Advance(t)), Advance(t));
    assert s.pcs[t := Idle] == s.pcs;
    assert end.pcs == s.pcs;
    IdleStays(end, t, 2);
  }

  /** Undisturbed, both disposers do the same: the cached engine is disposed once and the cache is empty. */
  lemma {:induction false} DisposersAgreeAlone(s: State, t: nat)
    requires Ready(s, t)
    ensures Alone(s, t, SyncDispose) == Alone(s, t, AsyncDispose)
  {
    SyncAlone(s, t);
    AsyncAlone(s, t);
  }

  // ---------- When a getter returns no engine ----------

  /** The thread is about to read the cache once more, without the lock, and to return what it reads. */
  predicate Reading(pc: Pc) {
    pc.GetFast? || pc.GetReturn?
  }

  datatype Write = NoWrite | Filled(engine: nat) | Cleared

  /** The write to the cache that one step makes. */
  function WriteOf(s: State, a: Action): Write {
    if !a.Advance? || a.thread >= |s.pcs| then NoWrite
    else
      match s.pcs[a.thread]
      case GetStore(e) => Filled(e)
      case SyncClear(_) => Cleared
      case AsyncClear(_) => Cleared
      case _ => NoWrite
  }

  /** The last write to the cache in a run. */
  function LastWrite(s: State, actions: seq<Action>): Write
    decreases |actions|
  {
    if actions == [] then NoWrite
    else
      var later := LastWrite(Step(s, actions[0]), actions[1..]);
      if later.NoWrite? then WriteOf(s, actions[0]) else later
  }

  function Written(cached: Option<nat>, w: Write): Option<nat> {
    match w
    case NoWrite => cached
    case Filled(e) => Some(e)
    case Cleared => None
  }

  lemma {:induction false} StepWrites(s: State, a: Action)
    ensures Step(s, a).cached == Written(s.cached, WriteOf(s, a))
  {
  }

  lemma {:induction false} RunWrites(s: State, actions: seq<Action>)
    ensures Run(s, actions).cached == Written(s.cached, LastWrite(s, actions))
    decreases |actions|
  {
    if actions == [] {
    } else {
      hide Step, WriteOf;
      StepWrites(s, actions[0]);
      RunWrites(Step(s, actions[0]), actions[1..]);
    }
  }

  ghost predicate OthersOnly(actions: seq<Action>, t: nat) {
    forall i | 0 <= i < |actions| :: actions[i].thread != t
  }

  lemma {:induction false} OthersLeaveThread(s: State, actions: seq<Action>, t: nat)
    requires t < |s.pcs| && OthersOnly(actions, t)
    ensures |Run(s, actions).pcs| == |s.pcs| && Run(s, actions).pcs[t] == s.pcs[t]
    decreases |actions|
  {
    if actions == [] {
    } else {
      hide Step;
      StepFrame(s, actions[0]);
      OthersLeaveThread(Step(s, actions[0]), actions[1..], t);
    }
  }

  /** A getter comes to its last read only when it has seen, or stored, an engine. */
  lemma {:induction false} ReaderHasSeenEngine(s: State, t: nat)
    requires Invariant(s) && t < |s.pcs| && !Reading(s.pcs[t]) && Reading(Step(s, Advance(t)).pcs[t])
    ensures Step(s, Advance(t)).cached.Some?
  {
    assert LocalView(s, s.pcs[t]);
  }

  /** What a getter returns that is overtaken by any actions of other threads before its last read. */
  lemma {:induction false} ReaderReturns(s: State, actions: seq<Action>, t: nat)
    requires t < |s.pcs| && Reading(s.pcs[t]) && OthersOnly(actions, t)
    ensures
      var before := Run(s, actions);
      && t < |before.pcs|
      && Step(before, Advance(t))
         == At(before, t, Idle).(results := before.results + [Written(s.cached, LastWrite(s, actions))])
  {
    OthersLeaveThread(s, actions, t);
    RunWrites(s, actions);
  }

  /**
   From the moment a getter has seen an engine it returns none if and only if the last write to the
   cache before its last read clears it; it returns the engine it saw if nothing was written, and the
   one stored last otherwise.
   */
  lemma {:induction false} ReturnsNoneIff(s: State, t: nat, actions: seq<Action>)
    requires Invariant(s) && t < |s.pcs| && !Reading(s.pcs[t]) && Reading(Step(s, Advance(t)).pcs[t])
    requires OthersOnly(actions, t)
    ensures
      var saw := Step(s, Advance(t));
      var before := Run(saw, actions);
      var after := Step(before, Advance(t));
      && |after.results| == |before.results| + 1
      && (after.results[|before.results|] == None <==> LastWrite(saw, actions) == Cleared)
      && (forall e: nat :: after.results[|before.results|] == Some(e) <==>
            LastWrite(saw, actions) == Filled(e) || (LastWrite(saw, actions) == NoWrite && saw.cached == Some(e)))
  {
    hide Step, Run, LastWrite, Invariant;
    StepFrame(s, Advance(t));
    ReaderHasSeenEngine(s, t);
    ReaderReturns(Step(s, Advance(t)), actions, t);
  }

  /** A getter that finds the cache filled under the lock always returns an engine. */
  lemma {:induction false} LockedReaderReturnsEngine(s: State, t: nat)
    requires Invariant(s) && t < |s.pcs| && s.pcs[t].GetReturnLocked?
    ensures s.cached.Some? && Step(s, Advance(t)).results == s.results + [s.cached]
  {
    assert LocalView(s, s.pcs[t]);
  }

  /**
   The engine a getter returns is a disposed one if and only if some thread stands between disposing
   that engine and clearing the cache.
   */
  lemma {:induction false} ReturnsDisposedIff(s: State, t: nat, e: nat)
    requires Invariant(s) && t < |s.pcs| && Reading(s.pcs[t])
    ensures
      var after := Step(s, Advance(t));
      && after.results == s.results + [s.cached]
      && (s.cached == Some(e) && e < |after.disposals| && after.disposals[e] == 1 <==> Clearing(s, e))
  {
    if u :| 0 <= u < |s.pcs| && s.pcs[u] == SyncClear(e) {
      assert LocalView(s, s.pcs[u]);
    }
  }

  /** Filling the cache from the start. */
  const FILL: seq<Action> :=
    [Start(0, Get), Advance(0), Advance(0), Advance(0), Advance(0), Advance(0), Advance(0), Advance(0)]

  /** Thread 1 checks, thread 0 takes the engine out, thread 1 reads again. */
  const OVERTAKE: seq<Action> :=
    [Start(1, Get), Advance(1), Start(0, AsyncDispose), Advance(0), Advance(0), Advance(0), Advance(1)]

  lemma {:induction false} RunOnly(s: State, a: Action)
    ensures Run(s, [a]) == Step(s, a)
  {
    assert [a][1..] == [];
  }

  lemma {:induction false} Unroll(s: State, a: seq<Action>)
    requires |a| > 1
    ensures Run(s, a) == Run(Step(Step(s, a[0]), a[1]), a[2..])
  {
    assert a[1..][1..] == a[2..];
  }

  /** Thread 0 builds and stores an engine and gives back the lock, thread 1 takes the engine out, thread 0 reads. */
  const BUILD: seq<Action> :=
    [Start(0, Get), Advance(0), Advance(0), Advance(0), Advance(0), Advance(0), Advance(0)]

  const ROB: seq<Action> := [Start(1, AsyncDispose), Advance(1), Advance(1), Advance(1), Advance(0)]

  /**
   Both unprotected reads can miss: a getter that finds the cache filled and one that has just built
   the engine return none when a disposer overtakes them.
   */
  lemma {:induction false} OvertakenGettersReturnNone()
    ensures Run(Initial(2), FILL + OVERTAKE).results == [Some(0), None]
    ensures Run(Initial(2), BUILD + ROB).results == [None]
  {
    RunAppend(Initial(2), FILL, OVERTAKE);
    FillRun();
    OvertakeRun();
    RunAppend(Initial(2), BUILD, ROB);
    BuildRun();
    RobRun();
  }

  lemma {:induction false} BuildRun()
    ensures Run(Initial(2), BUILD) == State(Some(0), None, [GetReturn, Idle], [0], [], {})
  {
    hide Run;
    var s, a := Initial(2), BUILD;
    Unroll(s, a);
    assert Step(Step(s, a[0]), a[1]) == State(None, None, [GetLock, Idle], [], [], {});
    var s2 := State(None, None, [GetLock, Idle], [], [], {});
    Unroll(s2, a[2..]);
    var s4 := State(None, Some(0), [GetBuild, Idle], [], [], {});
    assert Step(Step(s2, a[2]), a[3]) == s4;
    assert a[2..][2..] == a[4..];
    Unroll(s4, a[4..]);
    var s6 := State(Some(0), Some(0), [GetRelease, Idle], [0], [], {});
    assert Step(Step(s4, a[4]), a[5]) == s6;
    assert a[4..][2..] == [Advance(0)];
    RunOnly(s6, Advance(0));
  }

  lemma {:induction false} RobRun()
    ensures Run(State(Some(0), None, [GetReturn, Idle], [0], [], {}), ROB).results == [None]
  {
    hide Run;
    var s, a := State(Some(0), None, [GetReturn, Idle], [0], [], {}), ROB;
    Unroll(s, a);
    var s2 := State(Some(0), Some(1), [GetReturn, AsyncRead], [0], [], {});
    assert Step(Step(s, a[0]), a[1]) == s2;
    Unroll(s2, a[2..]);
    var s4 := State(None, Some(1), [GetReturn, AsyncRelease(Some(0))], [0], [], {});
    assert Step(Step(s2, a[2]), a[3]) == s4;
    assert a[2..][2..] == [Advance(0)];
    RunOnly(s4, Advance(0));
  }

  /** Thread 1 checks, thread 0 disposes the engine without having cleared the cache, thread 1 reads again. */
  const PREEMPT: seq<Action> :=
    [Start(1, Get), Advance(1), Start(0, SyncDispose), Advance(0), Advance(0), Advance(0), Advance(1)]

  /** A getter that returns an engine which is disposed already. */
  lemma {:induction false} DisposedEngineReturned()
    ensures
      var s := Run(Initial(2), FILL + PREEMPT);
      s.results == [Some(0), Some(0)] && s.disposals == [1]
  {
    hide Run;
    RunAppend(Initial(2), FILL, PREEMPT);
    FillRun();
    var f, o := State(Some(0), None, [Idle, Idle], [0], [Some(0)], {}), PREEMPT;
    Unroll(f, o);
    var f2 := State(Some(0), None, [Idle, GetFast], [0], [Some(0)], {});
    assert Step(Step(f, o[0]), o[1]) == f2;
    Unroll(f2, o[2..]);
    var f4 := State(Some(0), Some(0), [SyncCheck, GetFast], [0], [Some(0)], {});
    assert Step(Step(f2, o[2]), o[3]) == f4;
    assert o[2..][2..] == o[4..];
    Unroll(f4, o[4..]);
    var f6 := State(Some(0), Some(0), [SyncClear(0), GetFast], [1], [Some(0)], {});
    assert Step(Step(f4, o[4]), o[5]) == f6;
    assert o[4..][2..] == [Advance(1)];
    RunOnly(f6, Advance(1));
  }

  lemma {:induction false} OvertakeRun()
    ensures Run(State(Some(0), None, [Idle, Idle], [0], [Some(0)], {}), OVERTAKE).results == [Some(0), None]
  {
    hide Run;
    var f, o := State(Some(0), None, [Idle, Idle], [0], [Some(0)], {}), OVERTAKE;
    Unroll(f, o);
    var f2 := State(Some(0), None, [Idle, GetFast], [0], [Some(0)], {});
    assert Step(Step(f, o[0]), o[1]) == f2;
    Unroll(f2, o[2..]);
    var f4 := State(Some(0), Some(0), [AsyncRead, GetFast], [0], [Some(0)], {});
    assert Step(Step(f2, o[2]), o[3]) == f4;
    assert o[2..][2..] == o[4..];
    Unroll(f4, o[4..]);
    var f6 := State(None, Some(0), [AsyncRelease(Some(0)), GetFast], [0], [Some(0)], {});
    assert Step(Step(f4, o[4]), o[5]) == f6;
    assert o[4..][2..] == [Advance(1)];
    RunOnly(f6, Advance(1));
  }

  lemma {:induction false} FillRun()
    ensures Run(Initial(2), FILL) == State(Some(0), None, [Idle, Idle], [0], [Some(0)], {})
  {
    hide Run;
    BuildRun();
    assert FILL == BUILD + [Advance(0)];
    RunOneMore(Initial(2), BUILD, Advance(0));
  }

  // ---------- The operations of one thread, undisturbed ----------

  /** The module's global, and the engines it has built. */
  class EngineModule {
    var engine: Option<nat>
    var disposals: seq<nat>

    ghost predicate Valid()
      reads this
    {
      engine.Some? ==> engine.value < |disposals|
    }

    /** The state as the step machine sees it, with one idle thread. */
    ghost function Alike(results: seq<Option<nat>>): State
      reads this
    {
      State(engine, None, [Idle], disposals, results, {})
    }

    constructor ()
      ensures Valid() && Alike([]) == Initial(1)
    {
      engine, disposals := None, [];
    }

    method GetEngine() returns (r: Option<nat>)
      requires Valid()
      modifies this
      ensures Valid() && Alike([r]) == Alone(old(Alike([])), 0, Get)
      ensures r.Some? && r == engine && (old(engine).Some? ==> r == old(engine))
    {
      GetAlone(Alike([]), 0);
      if engine.Some? {
        return engine;
      }
      disposals := disposals + [0];
      engine := Some(|disposals| - 1);
      return engine;
    }

    method DisposeEngine()
      requires Valid()
      modifies this
      ensures Valid() && Alike([]) == Alone(old(Alike([])), 0, SyncDispose) && engine.None?
    {
      hide Alone, Step;
      ghost var before := Alike([]);
      SyncAlone(before, 0);
      ghost var alone := Alone(before, 0, SyncDispose);
      if engine.Some? {
        disposals := disposals[engine.value := disposals[engine.value] + 1];
        engine := None;
      }
      assert Alike([]) == alone;
    }

    method AsyncDisposeEngine()
      requires Valid()
      modifies this
      ensures Valid() && Alike([]) == Alone(old(Alike([])), 0, AsyncDispose) && engine.None?
    {
      hide Alone, Step;
      ghost var before := Alike([]);
      AsyncAlone(before, 0);
      ghost var alone := Alone(before, 0, AsyncDispose);
      var snapshot := engine;
      engine := None;
      if snapshot.Some? {
        disposals := disposals[snapshot.value := disposals[snapshot.value] + 1];
      }
      assert Alike([]) == alone;
    }
  }
}
