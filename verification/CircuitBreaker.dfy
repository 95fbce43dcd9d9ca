/**
 The circuit breaker of one (provider, key) pair, circuit_breaker.py.

 `Breaker` is the abstract state; the functions below are the specification of the methods of class
 `CircuitBreaker`.  What they mean over whole runs is proved in BreakerHistory.dfy.
 */
module CircuitBreakers {
  datatype Phase = Closed | Open | HalfOpen

  datatype Breaker = Breaker(phase: Phase, failures: nat, lastFailure: real, openedAt: real)

  /** Failure threshold and recovery timeout in seconds; both are plain configuration integers. */
  datatype Limits = Limits(threshold: int, recovery: int)

  const FRESH := Breaker(Closed, 0, 0.0, 0.0)

  /** Reading the state is itself a transition: an OPEN breaker whose timeout has passed becomes HALF_OPEN. */
  function Observe(b: Breaker, lim: Limits, now: real): Breaker {
    if b.phase == Open && now - b.openedAt >= lim.recovery as real then b.(phase := HalfOpen) else b
  }

  predicate Admits(b: Breaker, lim: Limits, now: real) {
    Observe(b, lim, now).phase != Open
  }

  /** A success is ignored while the raw state is OPEN. */
  function Succeed(b: Breaker): Breaker {
    if b.phase == Open then b else b.(phase := Closed, failures := 0)
  }

  /** The clock is read for the failure, and again if it opens the breaker. */
  function Fail(b: Breaker, lim: Limits, now: real, opening: real): Breaker {
    var counted := b.(failures := b.failures + 1, lastFailure := now);
    if b.phase == HalfOpen || counted.failures >= lim.threshold
    then counted.(phase := Open, openedAt := opening)
    else counted
  }

  function Reset(b: Breaker): Breaker {
    b.(phase := Closed, failures := 0, openedAt := 0.0)
  }

  class CircuitBreaker {
    const provider: string
    const keyIndex: int
    const failureThreshold: int
    const recoveryTimeout: int

    var state: Phase
    var failureCount: nat
    var lastFailureTime: real
    var openedAt: real

    ghost function View(): Breaker
      reads this
    {
      Breaker(state, failureCount, lastFailureTime, openedAt)
    }

    ghost function Lim(): Limits {
      Limits(failureThreshold, recoveryTimeout)
    }

    constructor (provider: string, keyIndex: int, failureThreshold: int, recoveryTimeout: int)
      ensures View() == FRESH
      ensures Lim() == Limits(failureThreshold, recoveryTimeout)
      ensures this.provider == provider && this.keyIndex == keyIndex
    {
      this.provider, this.keyIndex := provider, keyIndex;
      this.failureThreshold, this.recoveryTimeout := failureThreshold, recoveryTimeout;
      state, failureCount, lastFailureTime, openedAt := Closed, 0, 0.0, 0.0;
    }

    /** The `state` property: a read that may write. */
    method CurrentState(now: real) returns (s: Phase)
      modifies this
      ensures View() == Observe(old(View()), Lim(), now)
      ensures s == state
    {
      if state == Open {
        if now - openedAt >= recoveryTimeout as real {
          state := HalfOpen;
        }
      }
      s := state;
    }

    method IsAvailable(now: real) returns (ok: bool)
      modifies this
      ensures View() == Observe(old(View()), Lim(), now)
      ensures ok == Admits(old(View()), Lim(), now)
    {
      var s := CurrentState(now);
      ok := s != Open;
    }

    method RecordSuccess()
      modifies this
      ensures View() == Succeed(old(View()))
    {
      if state == HalfOpen || state == Closed {
        state := Closed;
        failureCount := 0;
      }
    }

    method RecordFailure(now: real, opening: real)
      modifies this
      ensures View() == Fail(old(View()), Lim(), now, opening)
    {
      failureCount := failureCount + 1;
      lastFailureTime := now;
      if state == HalfOpen {
        state := Open;
        openedAt := opening;
        return;
      }
      if failureCount >= failureThreshold {
        state := Open;
        openedAt := opening;
      }
    }

    method ManualReset()
      modifies this
      ensures View() == Reset(old(View()))
    {
      state := Closed;
      failureCount := 0;
      openedAt := 0.0;
    }
  }

  /** The manager's dictionary of breakers, one per (provider, key index), created on first use. */
  class CircuitBreakerManager {
    const failureThreshold: int
    const recoveryTimeout: int
    var breakers: map<(string, int), CircuitBreaker>

    ghost function Lim(): Limits {
      Limits(failureThreshold, recoveryTimeout)
    }

    /** Distinct pairs own distinct breakers, and every breaker carries the manager's limits. */
    ghost predicate Valid()
      reads this
    {
      && (forall a, b :: a in breakers && b in breakers && a != b ==> breakers[a] != breakers[b])
      && (forall a :: a in breakers ==> breakers[a].Lim() == Lim())
    }

    ghost function View(): map<(string, int), Breaker>
      reads this, breakers.Values
    {
      map a | a in breakers :: breakers[a].View()
    }

    constructor (failureThreshold: int, recoveryTimeout: int)
      ensures Valid() && View() == map[]
      ensures Lim() == Limits(failureThreshold, recoveryTimeout)
      ensures breakers == map[]
    {
      this.failureThreshold, this.recoveryTimeout := failureThreshold, recoveryTimeout;
      breakers := map[];
    }

    method GetBreaker(provider: string, keyIndex: int) returns (b: CircuitBreaker)
      requires Valid()
      modifies this
      ensures Valid()
      ensures (provider, keyIndex) in breakers && breakers[(provider, keyIndex)] == b
      ensures View() == WithBreaker(old(View()), provider, keyIndex)
      ensures b in old(breakers.Values) || fresh(b)
      ensures breakers.Values == old(breakers.Values) + {b}
    {
      var k := (provider, keyIndex);
      if k !in breakers {
        b := new CircuitBreaker(provider, keyIndex, failureThreshold, recoveryTimeout);
        var was := breakers;
        breakers := breakers[k := b];
        assert breakers.Values == was.Values + {b} by {
          forall c | c in was.Values ensures c in breakers.Values {
            var a :| a in was && was[a] == c;
            assert breakers[a] == c;
          }
          assert breakers[k] == b;
        }
      }
      b := breakers[k];
    }

    method IsAvailable(provider: string, keyIndex: int, now: real) returns (ok: bool)
      requires Valid()
      modifies this, breakers.Values
      ensures Valid()
      ensures forall b :: b in breakers.Values ==> b in old(breakers.Values) || fresh(b)
      ensures ok == Admits(Lookup(old(View()), provider, keyIndex), Lim(), now)
      ensures View() == old(View())[(provider, keyIndex) :=
                          Observe(Lookup(old(View()), provider, keyIndex), Lim(), now)]
    {
      var b := GetBreaker(provider, keyIndex);
      assert b.View() == View()[(provider, keyIndex)] == Lookup(old(View()), provider, keyIndex);
      ok := b.IsAvailable(now);
    }

    method RecordSuccess(provider: string, keyIndex: int)
      requires Valid()
      modifies this, breakers.Values
      ensures Valid()
      ensures forall b :: b in breakers.Values ==> b in old(breakers.Values) || fresh(b)
      ensures View() == old(View())[(provider, keyIndex) := Succeed(Lookup(old(View()), provider, keyIndex))]
    {
      var b := GetBreaker(provider, keyIndex);
      b.RecordSuccess();
    }

    method RecordFailure(provider: string, keyIndex: int, now: real, opening: real)
      requires Valid()
      modifies this, breakers.Values
      ensures Valid()
      ensures forall b :: b in breakers.Values ==> b in old(breakers.Values) || fresh(b)
      ensures View() == old(View())[(provider, keyIndex) :=
                          Fail(Lookup(old(View()), provider, keyIndex), Lim(), now, opening)]
    {
      var b := GetBreaker(provider, keyIndex);
      b.RecordFailure(now, opening);
    }
  }

  function Lookup(m: map<(string, int), Breaker>, provider: string, keyIndex: int): Breaker {
    if (provider, keyIndex) in m then m[(provider, keyIndex)] else FRESH
  }

  function WithBreaker(m: map<(string, int), Breaker>, provider: string, keyIndex: int): map<(string, int), Breaker> {
    m[(provider, keyIndex) := Lookup(m, provider, keyIndex)]
  }
}
