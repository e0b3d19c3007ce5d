/** Retrying a database write: lock errors are waited out, anything else ends the loop at once. */
module Retry {
  import opened Options
  import opened Strings

  /** An operational error of the database, or any other exception of the callback. */
  datatype Failure = Operational(text: string) | Foreign(text: string)

  datatype Outcome<+T> = Success(value: T) | Failed(failure: Failure)

  datatype Exception = ValueError | RuntimeError | Passed(failure: Failure)

  datatype Result<+T> = Returned(value: T) | Raised(exception: Exception)

  const LOCKED_SENTINEL := "database is locked"

  const DEFAULT_ATTEMPTS := 3

  const DEFAULT_BASE_DELAY := 0.05

  predicate IsLock(failure: Failure) {
    failure.Operational? && Contains(failure.text, LOCKED_SENTINEL)
  }

  /** A lock is an operational error with these words somewhere in its text, and nothing else is. */
  lemma {:induction false} LockIff(failure: Failure)
    ensures IsLock(failure)
       <==> failure.Operational? && exists k: nat :: OccursAt(failure.text, "database is locked", k)
  {
    ContainsIff(failure.text, "database is locked");
  }

  predicate LockedAt<T>(fn: nat -> Outcome<T>, k: nat) {
    fn(k).Failed? && IsLock(fn(k).failure)
  }

  function Power4(k: nat): (p: nat)
    ensures p >= 1
  {
    if k == 0 then 1 else 4 * Power4(k - 1)
  }

  function Delay(base: real, attempt: nat): real { base * Power4(attempt) as real }

  function Delays(base: real, k: nat): seq<real> {
    if k == 0 then [] else Delays(base, k - 1) + [Delay(base, k - 1)]
  }

  function Total(delays: seq<real>): real {
    if delays == [] then 0.0 else Total(delays[..|delays| - 1]) + delays[|delays| - 1]
  }

  /** What a call of the helper did: its result, how often it called back, and what it slept between. */
  datatype Trace<+T> = Trace(result: Result<T>, calls: nat, sleeps: seq<real>)

  /**
   Every call but the last met a lock; the last one settled the matter, or was the last that was
   allowed.  Between two calls the helper slept, four times longer each time.
   */
  ghost predicate Retried<T>(fn: nat -> Outcome<T>, attempts: int, base: real, t: Trace<T>) {
    && 1 <= t.calls <= attempts
    && (forall k: nat | k < t.calls - 1 :: LockedAt(fn, k))
    && (t.calls < attempts ==> !LockedAt(fn, t.calls - 1))
    && t.result == (match fn(t.calls - 1)
                    case Success(v) => Returned(v)
                    case Failed(e) => Raised(Passed(e)))
    && t.sleeps == Delays(base, t.calls - 1)
  }

  lemma NoDelay(base: real)
    ensures Delays(base, 0) == []
  {
  }

  lemma DelayAfter(base: real, k: nat)
    ensures Delays(base, k + 1) == Delays(base, k) + [Delay(base, k)]
  {
  }

  method WithWriteRetry<T>(fn: nat -> Outcome<T>, attempts: int, base: real) returns (t: Trace<T>)
    ensures attempts < 1 ==> t == Trace(Raised(ValueError), 0, [])
    ensures attempts >= 1 ==> Retried(fn, attempts, base, t)
  {
    hide IsLock, Delays;
    if attempts < 1 {
      return Trace(Raised(ValueError), 0, []);
    }
    var lastExc: Option<Failure> := None;
    var sleeps: seq<real> := [];
    NoDelay(base);
    for attempt := 0 to attempts
      invariant forall k: nat | k < attempt :: LockedAt(fn, k)
      invariant attempt > 0 ==> fn(attempt - 1).Failed? && lastExc == Some(fn(attempt - 1).failure)
      invariant sleeps == Delays(base, if attempt < attempts then attempt else attempts - 1)
    {
      match fn(attempt)
      case Success(v) =>
        return Trace(Returned(v), attempt + 1, sleeps);
      case Failed(e) =>
        if !IsLock(e) {
          return Trace(Raised(Passed(e)), attempt + 1, sleeps);
        }
        lastExc := Some(e);
        if attempt < attempts - 1 {
          sleeps := sleeps + [Delay(base, attempt)];
          DelayAfter(base, attempt);
        }
    }
    t := Trace(if lastExc == None then Raised(RuntimeError) else Raised(Passed(lastExc.value)), attempts, sleeps);
  }

  /** The calls end with the first one that settles the matter. */
  lemma {:induction false} CallsUntil<T>(fn: nat -> Outcome<T>, attempts: int, base: real, t: Trace<T>, k: nat)
    requires Retried(fn, attempts, base, t) && k < attempts
    requires (forall j: nat | j < k :: LockedAt(fn, j)) && (k < attempts - 1 ==> !LockedAt(fn, k))
    ensures t.calls == k + 1
  {
    hide IsLock, Delays, LockedAt;
    var last: nat := t.calls - 1;
    assert k < last ==> LockedAt(fn, k);
    assert last < k ==> LockedAt(fn, last);
  }

  /** The outcomes leave the helper no choice. */
  lemma {:induction false} RetriedUnique<T>(fn: nat -> Outcome<T>, attempts: int, base: real, s: Trace<T>, t: Trace<T>)
    requires Retried(fn, attempts, base, s) && Retried(fn, attempts, base, t)
    ensures s == t
  {
    hide IsLock, Delays;
    CallsUntil(fn, attempts, base, s, t.calls - 1);
  }

  /** A value is returned exactly when some allowed call succeeds with it after nothing but locks. */
  lemma {:induction false} ReturnsIff<T>(fn: nat -> Outcome<T>, attempts: int, base: real, t: Trace<T>, v: T)
    requires Retried(fn, attempts, base, t)
    ensures t.result == Returned(v)
       <==> exists k: nat :: k < attempts && fn(k) == Success(v) && forall j: nat | j < k :: LockedAt(fn, j)
  {
    hide IsLock, Delays;
    if k: nat :| k < attempts && fn(k) == Success(v) && forall j: nat | j < k :: LockedAt(fn, j) {
      CallsUntil(fn, attempts, base, t, k);
    }
  }

  /** A lock error is raised exactly when every allowed call met one; it is the last. */
  lemma {:induction false} RaisesLockIff<T>(fn: nat -> Outcome<T>, attempts: int, base: real, t: Trace<T>)
    requires Retried(fn, attempts, base, t)
    ensures t.result != Raised(RuntimeError) && t.result != Raised(ValueError)
    ensures (exists e :: t.result == Raised(Passed(e)) && IsLock(e)) <==> forall k: nat | k < attempts :: LockedAt(fn, k)
    ensures (forall k: nat | k < attempts :: LockedAt(fn, k)) ==>
              t.calls == attempts && t.result == Raised(Passed(fn(attempts - 1).failure))
  {
    hide IsLock, Delays;
    if forall k: nat | k < attempts :: LockedAt(fn, k) {
      assert LockedAt(fn, t.calls - 1);
    }
    if e :| t.result == Raised(Passed(e)) && IsLock(e) {
      assert LockedAt(fn, t.calls - 1);
    }
  }

  /** An error of another kind is never retried. */
  lemma {:induction false} ForeignEndsIt<T>(fn: nat -> Outcome<T>, attempts: int, base: real, t: Trace<T>, k: nat)
    requires Retried(fn, attempts, base, t) && k < attempts
    requires fn(k).Failed? && !IsLock(fn(k).failure) && forall j: nat | j < k :: LockedAt(fn, j)
    ensures t.calls == k + 1 && t.result == Raised(Passed(fn(k).failure))
  {
    hide IsLock, Delays;
    CallsUntil(fn, attempts, base, t, k);
  }

  lemma {:induction false} DelayGrows(base: real, k: nat)
    ensures Delay(base, 0) == base
    ensures Delay(base, k + 1) == 4.0 * Delay(base, k)
  {
    var p, q := Power4(k) as real, Power4(k + 1) as real;
    assert q == 4.0 * p;
    assert base * (4.0 * p) == 4.0 * (base * p);
  }

  /** The time slept is a geometric sum: a third of what the next delay exceeds the first by. */
  lemma {:induction false} TotalDelay(base: real, k: nat)
    ensures |Delays(base, k)| == k
    ensures 3.0 * Total(Delays(base, k)) == Delay(base, k) - base
  {
    hide Delay;
    if k == 0 {
      DelayGrows(base, 0);
    } else {
      TotalDelay(base, k - 1);
      assert Delays(base, k)[..k - 1] == Delays(base, k - 1);
      DelayGrows(base, k - 1);
    }
  }

  lemma {:induction false} Power4Grows(j: nat, k: nat)
    requires j <= k
    ensures Power4(j) <= Power4(k)
    decreases k
  {
    if j < k {
      Power4Grows(j, k - 1);
    }
  }

  lemma SleptDelays<T>(fn: nat -> Outcome<T>, attempts: int, base: real, t: Trace<T>)
    requires Retried(fn, attempts, base, t)
    ensures t.sleeps == Delays(base, t.calls - 1) && 1 <= t.calls <= attempts
  {
  }

  lemma MonotoneProduct(a: real, x: real, y: real)
    requires a >= 0.0 && x <= y
    ensures a * x <= a * y
  {
  }

  /** No run sleeps longer than the one that meets a lock every time. */
  lemma {:induction false} SleepBound<T>(fn: nat -> Outcome<T>, attempts: int, base: real, t: Trace<T>)
    requires Retried(fn, attempts, base, t) && base >= 0.0
    ensures |t.sleeps| == t.calls - 1 <= attempts - 1
    ensures 3.0 * Total(t.sleeps) == base * Power4(t.calls - 1) as real - base
    ensures 3.0 * Total(t.sleeps) <= base * Power4(attempts - 1) as real - base
  {
    hide Retried, IsLock, Delays, Total, Power4;
    SleptDelays(fn, attempts, base, t);
    TotalDelay(base, t.calls - 1);
    Power4Grows(t.calls - 1, attempts - 1);
    MonotoneProduct(base, Power4(t.calls - 1) as real, Power4(attempts - 1) as real);
  }

  /** With the defaults at most a quarter of a second is slept, in at most two sleeps. */
  lemma {:induction false} DefaultWait<T>(fn: nat -> Outcome<T>, t: Trace<T>)
    requires Retried(fn, DEFAULT_ATTEMPTS, DEFAULT_BASE_DELAY, t)
    ensures t.sleeps <= [0.05, 0.2] && Total(t.sleeps) <= 0.25
    ensures (forall k: nat | k < 3 :: LockedAt(fn, k)) ==> Total(t.sleeps) == 0.25
  {
    hide IsLock, LockedAt;
    SleepBound(fn, DEFAULT_ATTEMPTS, DEFAULT_BASE_DELAY, t);
    assert Power4(1) == 4 && Power4(2) == 16;
    DelayAfter(0.05, 0);
    DelayAfter(0.05, 1);
    assert Delays(0.05, 2) == [0.05, 0.2];
    assert t.calls == 1 || t.calls == 2 || t.calls == 3;
    assert Delays(0.05, 1) == [0.05];
    if forall k: nat | k < 3 :: LockedAt(fn, k) {
      RaisesLockIff(fn, DEFAULT_ATTEMPTS, DEFAULT_BASE_DELAY, t);
    }
  }
}
