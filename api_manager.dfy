/**
 * Round-robin rotation over a non-empty pool of API keys (lib/api_manager.py).
 * The counters form a `Cursor`; the pure functions below say what each operation does
 * to it, and the class `APIKeyManager` updates its fields exactly as they say.
 */
module ApiManager {
  import opened Wrappers
  import Config

  /** The manager's mutable state: which key is current, calls made with it, calls overall. */
  datatype Cursor = Cursor(index: nat, callCount: nat, totalCalls: nat)

  /** What the manager reports about itself. */
  datatype Status = Status(
    currentKeyNumber: nat,
    callsWithCurrentKey: nat,
    maxCallsPerKey: int,
    totalCalls: nat,
    totalKeys: nat)

  /** The two things that move the cursor: a counted call, or a failure. */
  datatype Event = Increment | Failure

  /**
   * The invariant: the index addresses a key, and the per-key counter is below the
   * quota (or 0, which is all that can hold when the quota is below 1).
   */
  predicate CursorOk(c: Cursor, poolSize: nat, maxCalls: int) {
    c.index < poolSize && (c.callCount == 0 || c.callCount < maxCalls)
  }

  /** `_rotate`: move to the next key circularly and reset the per-key counter. */
  function Rotated(c: Cursor, poolSize: nat): Cursor
    requires poolSize > 0
  {
    Cursor((c.index + 1) % poolSize, 0, c.totalCalls)
  }

  /** `increment_call_count`: count the call, then rotate once the quota is reached. */
  function Incremented(c: Cursor, poolSize: nat, maxCalls: int): Cursor
    requires poolSize > 0
  {
    var bumped := Cursor(c.index, c.callCount + 1, c.totalCalls + 1);
    if bumped.callCount >= maxCalls then Rotated(bumped, poolSize) else bumped
  }

  /** One event: `increment_call_count` or `rotate_on_failure`. */
  function Step(c: Cursor, e: Event, poolSize: nat, maxCalls: int): Cursor
    requires poolSize > 0
  {
    match e
    case Increment => Incremented(c, poolSize, maxCalls)
    case Failure => Rotated(c, poolSize)
  }

  /** The cursor after a sequence of events, applied in order. */
  function Replay(c: Cursor, es: seq<Event>, poolSize: nat, maxCalls: int): Cursor
    requires poolSize > 0
    decreases |es|
  {
    if es == [] then c else Replay(Step(c, es[0], poolSize, maxCalls), es[1..], poolSize, maxCalls)
  }

  function CountIncrements(es: seq<Event>): nat {
    if es == [] then 0 else (if es[0] == Increment then 1 else 0) + CountIncrements(es[1..])
  }

  function Repeat(e: Event, k: nat): (r: seq<Event>)
    ensures |r| == k && forall i :: 0 <= i < k ==> r[i] == e
  {
    if k == 0 then [] else [e] + Repeat(e, k - 1)
  }

  /** `get_status` as a function of the state. */
  function StatusOf(c: Cursor, poolSize: nat, maxCalls: int): (s: Status)
    requires CursorOk(c, poolSize, maxCalls)
    ensures 1 <= s.currentKeyNumber <= s.totalKeys == poolSize
    ensures s.callsWithCurrentKey == c.callCount && s.totalCalls == c.totalCalls
    ensures s.maxCallsPerKey == maxCalls
    ensures maxCalls >= 1 ==> s.callsWithCurrentKey < s.maxCallsPerKey
  {
    Status(c.index + 1, c.callCount, maxCalls, c.totalCalls, poolSize)
  }

  /** Both operations keep the invariant and never lower `total_calls`; only a counted call raises it, by exactly 1. */
  lemma StepKeepsCursorOk(c: Cursor, e: Event, poolSize: nat, maxCalls: int)
    requires poolSize > 0 && CursorOk(c, poolSize, maxCalls)
    ensures CursorOk(Step(c, e, poolSize, maxCalls), poolSize, maxCalls)
    ensures Step(c, e, poolSize, maxCalls).totalCalls == c.totalCalls + (if e == Increment then 1 else 0)
  {
  }

  /** Any run of operations from a valid state leaves a valid state. */
  lemma {:induction false} ReplayKeepsCursorOk(c: Cursor, es: seq<Event>, poolSize: nat, maxCalls: int)
    requires poolSize > 0 && CursorOk(c, poolSize, maxCalls)
    ensures CursorOk(Replay(c, es, poolSize, maxCalls), poolSize, maxCalls)
    decreases |es|
  {
    if es != [] {
      StepKeepsCursorOk(c, es[0], poolSize, maxCalls);
      ReplayKeepsCursorOk(Step(c, es[0], poolSize, maxCalls), es[1..], poolSize, maxCalls);
    }
  }

  /** `total_calls` counts exactly the `increment_call_count` calls, so it never decreases. */
  lemma {:induction false} ReplayCountsIncrements(c: Cursor, es: seq<Event>, poolSize: nat, maxCalls: int)
    requires poolSize > 0
    ensures Replay(c, es, poolSize, maxCalls).totalCalls == c.totalCalls + CountIncrements(es)
    ensures Replay(c, es, poolSize, maxCalls).totalCalls >= c.totalCalls
    decreases |es|
  {
    if es != [] {
      ReplayCountsIncrements(Step(c, es[0], poolSize, maxCalls), es[1..], poolSize, maxCalls);
    }
  }

  /** `k` failures advance the index by `k` places around the pool and leave the per-key counter at 0. */
  lemma {:induction false} FailuresAdvance(c: Cursor, k: nat, poolSize: nat, maxCalls: int)
    requires poolSize > 0 && c.index < poolSize && k > 0
    ensures Replay(c, Repeat(Failure, k), poolSize, maxCalls)
      == Cursor((c.index + k) % poolSize, 0, c.totalCalls)
    decreases k
  {
    var es := Repeat(Failure, k);
    var c1 := Rotated(c, poolSize);
    assert es[1..] == Repeat(Failure, k - 1);
    assert Replay(c, es, poolSize, maxCalls) == Replay(c1, es[1..], poolSize, maxCalls);
    if k == 1 {
      assert es[1..] == [];
    } else {
      FailuresAdvance(c1, k - 1, poolSize, maxCalls);
      var i1 := (c.index + 1) % poolSize;
      assert c1 == Cursor(i1, 0, c.totalCalls);
      ModShift(c.index + 1, k - 1, poolSize);
      assert (i1 + (k - 1)) % poolSize == (c.index + k) % poolSize;
    }
  }

  lemma MulAtLeast(k: int, n: int)
    requires n > 0 && k >= 1
    ensures k * n >= n
  {
  }

  lemma ModUnique(x: int, q: int, r: int, n: int)
    requires n > 0 && 0 <= r < n && x == q * n + r
    ensures x % n == r
  {
    var k := q - x / n;
    assert x == (x / n) * n + x % n;
    assert k * n == x % n - r;
    if k >= 1 {
      MulAtLeast(k, n);
    }
  }

  lemma ModShift(a: nat, b: nat, n: nat)
    requires n > 0
    ensures ((a % n) + b) % n == (a + b) % n
  {
    var s := (a % n) + b;
    var q := a / n;
    assert a == q * n + a % n;
    assert s == (s / n) * n + s % n;
    assert a + b == (q + s / n) * n + s % n;
    ModUnique(a + b, q + s / n, s % n, n);
  }

  /** Failing once per key brings the cursor back to the key it started from. */
  lemma {:induction false} FullCycleReturns(c: Cursor, poolSize: nat, maxCalls: int)
    requires poolSize > 0 && c.index < poolSize
    ensures Replay(c, Repeat(Failure, poolSize), poolSize, maxCalls).index == c.index
  {
    FailuresAdvance(c, poolSize, poolSize, maxCalls);
    ModUnique(c.index + poolSize, 1, c.index, poolSize);
  }

  /** Below the quota, counted calls stay on the same key and only raise the counters. */
  lemma {:induction false} IncrementsBelowQuota(c: Cursor, k: nat, poolSize: nat, maxCalls: int)
    requires poolSize > 0 && c.callCount + k < maxCalls
    ensures Replay(c, Repeat(Increment, k), poolSize, maxCalls)
      == Cursor(c.index, c.callCount + k, c.totalCalls + k)
    decreases k
  {
    if k > 0 {
      var es := Repeat(Increment, k);
      assert es[1..] == Repeat(Increment, k - 1);
      IncrementsBelowQuota(Incremented(c, poolSize, maxCalls), k - 1, poolSize, maxCalls);
    }
  }

  /** A fresh key serves exactly `max_calls_per_key` counted calls, then the next key takes over. */
  lemma {:induction false} QuotaRotates(c: Cursor, poolSize: nat, maxCalls: int)
    requires poolSize > 0 && c.index < poolSize && c.callCount == 0 && maxCalls >= 1
    ensures Replay(c, Repeat(Increment, maxCalls), poolSize, maxCalls)
      == Cursor((c.index + 1) % poolSize, 0, c.totalCalls + maxCalls)
  {
    var m: nat := maxCalls;
    var es := Repeat(Increment, m);
    IncrementsBelowQuota(c, m - 1, poolSize, maxCalls);
    var mid := Cursor(c.index, m - 1, c.totalCalls + m - 1);
    ReplaySplit(c, Repeat(Increment, m - 1), [Increment], poolSize, maxCalls);
    assert es == Repeat(Increment, m - 1) + [Increment];
    assert Replay(mid, [Increment], poolSize, maxCalls) == Incremented(mid, poolSize, maxCalls);
  }

  /** Replaying two runs one after the other is replaying their concatenation. */
  lemma {:induction false} ReplaySplit(c: Cursor, xs: seq<Event>, ys: seq<Event>, poolSize: nat, maxCalls: int)
    requires poolSize > 0
    ensures Replay(c, xs + ys, poolSize, maxCalls)
      == Replay(Replay(c, xs, poolSize, maxCalls), ys, poolSize, maxCalls)
    decreases |xs|
  {
    if xs == [] {
      assert xs + ys == ys;
    } else {
      assert (xs + ys)[0] == xs[0] && (xs + ys)[1..] == xs[1..] + ys;
      assert Replay(c, xs + ys, poolSize, maxCalls)
        == Replay(Step(c, xs[0], poolSize, maxCalls), xs[1..] + ys, poolSize, maxCalls);
      ReplaySplit(Step(c, xs[0], poolSize, maxCalls), xs[1..], ys, poolSize, maxCalls);
    }
  }

  /** The manager object: an immutable key pool and quota, and the three counters. */
  class APIKeyManager {
    const apiKeys: seq<string>
    const maxCallsPerKey: int
    var currentIndex: nat
    var callCount: nat
    var totalCalls: nat

    function State(): Cursor
      reads this
    {
      Cursor(currentIndex, callCount, totalCalls)
    }

    ghost predicate Valid()
      reads this
    {
      |apiKeys| > 0 && CursorOk(State(), |apiKeys|, maxCallsPerKey)
    }

    /** Construction from a non-empty pool: first key, both counters at 0. */
    constructor(keys: seq<string>, maxCalls: int)
      requires |keys| > 0
      ensures Valid()
      ensures apiKeys == keys && maxCallsPerKey == maxCalls
      ensures State() == Cursor(0, 0, 0)
    {
      apiKeys := keys;
      maxCallsPerKey := maxCalls;
      currentIndex := 0;
      callCount := 0;
      totalCalls := 0;
    }

    /** `APIKeyManager(api_keys, max_calls_per_key)`: an empty pool raises `ValueError`. */
    static method Create(keys: seq<string>, maxCalls: int) returns (r: Result<APIKeyManager, string>)
      ensures r.Err? <==> |keys| == 0
      ensures r.Err? ==> r.error == "At least one API key must be provided"
      ensures r.Ok? ==> (fresh(r.value) && r.value.Valid() && r.value.apiKeys == keys
                         && r.value.maxCallsPerKey == maxCalls && r.value.State() == Cursor(0, 0, 0))
    {
      if |keys| == 0 {
        return Err("At least one API key must be provided");
      }
      var m := new APIKeyManager(keys, maxCalls);
      return Ok(m);
    }

    /** Construction with the default quota of `Config.MAX_CALLS_PER_API_KEY` calls per key. */
    static method CreateWithDefaultQuota(keys: seq<string>) returns (r: Result<APIKeyManager, string>)
      ensures r.Err? <==> |keys| == 0
      ensures r.Ok? ==> (fresh(r.value) && r.value.Valid() && r.value.apiKeys == keys
                         && r.value.maxCallsPerKey == 15 && r.value.State() == Cursor(0, 0, 0))
    {
      r := Create(keys, Config.MAX_CALLS_PER_API_KEY);
    }

    /** `get_current_key`: always one of the pool's keys. */
    function CurrentKey(): (k: string)
      reads this
      requires Valid()
      ensures k in apiKeys && k == apiKeys[currentIndex]
    {
      apiKeys[currentIndex]
    }

    /** `get_current_key_number`: the 1-based position of the current key. */
    function CurrentKeyNumber(): (k: nat)
      reads this
      requires Valid()
      ensures 1 <= k <= |apiKeys| && apiKeys[k - 1] == CurrentKey()
    {
      currentIndex + 1
    }

    /** `increment_call_count`. */
    method IncrementCallCount()
      requires Valid()
      modifies this
      ensures Valid()
      ensures State() == Incremented(old(State()), |apiKeys|, maxCallsPerKey)
      ensures totalCalls == old(totalCalls) + 1
    {
      callCount := callCount + 1;
      totalCalls := totalCalls + 1;
      if callCount >= maxCallsPerKey {
        Rotate();
      }
    }

    /** `_rotate`. */
    method Rotate()
      requires |apiKeys| > 0
      modifies this
      ensures Valid()
      ensures State() == Rotated(old(State()), |apiKeys|)
      ensures totalCalls == old(totalCalls) && callCount == 0
    {
      currentIndex := (currentIndex + 1) % |apiKeys|;
      callCount := 0;
    }

    /** `rotate_on_failure`: rotates whatever the counters say. */
    method RotateOnFailure()
      requires Valid()
      modifies this
      ensures Valid()
      ensures State() == Rotated(old(State()), |apiKeys|)
      ensures totalCalls == old(totalCalls)
    {
      Rotate();
    }

    /** `get_status`: reads the state and changes nothing. */
    method GetStatus() returns (s: Status)
      requires Valid()
      ensures s == StatusOf(State(), |apiKeys|, maxCallsPerKey)
      ensures s.currentKeyNumber == CurrentKeyNumber() && s.totalKeys == |apiKeys|
    {
      s := Status(CurrentKeyNumber(), callCount, maxCallsPerKey, totalCalls, |apiKeys|);
    }
  }
}
