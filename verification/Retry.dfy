/** Retrying a cloud call with capped exponential backoff. */
module Retry {
  import opened Common

  const TWO_62 := 0x4000_0000_0000_0000
  const TWO_63 := 0x8000_0000_0000_0000
  const TWO_64 := 0x1_0000_0000_0000_0000

  predicate Int64(x: int) {
    -TWO_63 <= x < TWO_63
  }

  /** Twice a 64-bit signed number, wrapping around as Go's time.Duration does. */
  function Twice(x: int): (r: int)
    ensures Int64(x) ==> Int64(r)
  {
    if 2 * x >= TWO_63 then 2 * x - TWO_64
    else if 2 * x < -TWO_63 then 2 * x + TWO_64
    else 2 * x
  }

  datatype Policy = Policy(maxAttempts: int, initial: int, max: int)
  {
    predicate Valid() {
      Int64(initial) && Int64(max)
    }
  }

  const MILLISECOND := 1_000_000

  function Attempts(p: Policy): nat {
    if p.maxAttempts <= 0 then 1 else p.maxAttempts
  }

  function NextDelay(p: Policy, delay: int): int {
    var twice := Twice(delay);
    if twice > p.max && p.max > 0 then p.max else twice
  }

  /** The k-th sleep of the loop. */
  function Delay(p: Policy, k: nat): int {
    if k == 0 then if p.initial <= 0 then 100 * MILLISECOND else p.initial
    else NextDelay(p, Delay(p, k - 1))
  }

  datatype OpResult = Success | Failure(transient: bool)
  datatype Outcome = Nil | OpError | Cancelled

  /** The first `n` calls all failed transiently and none of their sleeps was cut short. */
  ghost predicate Retried(op: nat -> OpResult, cancelled: nat -> bool, n: int) {
    forall k: nat :: k < n ==> op(k) == Failure(true) && !cancelled(k)
  }

  ghost predicate OnSchedule(p: Policy, sleeps: seq<int>) {
    forall k :: 0 <= k < |sleeps| ==> sleeps[k] == Delay(p, k)
  }

  /** What the loop returns and how many calls it has made in all, from its k-th call on. */
  function Loop(p: Policy, op: nat -> OpResult, cancelled: nat -> bool, k: nat): (r: (Outcome, nat))
    requires k < Attempts(p)
    ensures k < r.1 <= Attempts(p) && (r.0.Nil? <==> op(r.1 - 1).Success?)
    decreases Attempts(p) - k
  {
    match op(k)
    case Success => (Nil, k + 1)
    case Failure(transient) =>
      if !transient || k + 1 == Attempts(p) then (OpError, k + 1)
      else if cancelled(k) then (Cancelled, k + 1)
      else Loop(p, op, cancelled, k + 1)
  }

  /** From call `k` on, call `j` is the first that does not fail transiently, and succeeds. */
  ghost predicate SucceedsAt(p: Policy, op: nat -> OpResult, cancelled: nat -> bool, k: nat, j: nat) {
    && k <= j < Max(1, p.maxAttempts) && op(j).Success?
    && forall i: nat :: k <= i < j ==> op(i) == Failure(true) && !cancelled(i)
  }

  /** The loop returns nil if and only if some call within its attempts succeeds after nothing
      but transient failures and uninterrupted sleeps. */
  lemma {:induction false} NilExactly(p: Policy, op: nat -> OpResult, cancelled: nat -> bool, k: nat)
    requires k < Attempts(p)
    ensures Loop(p, op, cancelled, k).0.Nil? <==> exists j: nat :: SucceedsAt(p, op, cancelled, k, j)
    decreases Attempts(p) - k
  {
    if op(k).Success? {
      assert SucceedsAt(p, op, cancelled, k, k);
    } else if op(k).transient && k + 1 < Attempts(p) && !cancelled(k) {
      var next := k + 1;
      NilExactly(p, op, cancelled, next);
      if j: nat :| SucceedsAt(p, op, cancelled, next, j) {
        assert SucceedsAt(p, op, cancelled, k, j);
      }
      if j: nat :| SucceedsAt(p, op, cancelled, k, j) {
        assert SucceedsAt(p, op, cancelled, next, j);
      }
    }
  }

  /** `op(k)` is what the k-th call returns; `cancelled(k)` says that the context ends
      the k-th sleep. */
  method Retry(p: Policy, op: nat -> OpResult, cancelled: nat -> bool)
    returns (r: Outcome, calls: nat, sleeps: seq<int>)
    ensures 1 <= calls <= Max(1, p.maxAttempts) && (r, calls) == Loop(p, op, cancelled, 0)
    ensures Retried(op, cancelled, calls - 1) && OnSchedule(p, sleeps)
    ensures r.Nil? <==> op(calls - 1).Success?
    ensures r.OpError? <==> op(calls - 1).Failure? && (op(calls - 1).transient ==> calls == Max(1, p.maxAttempts))
    ensures r.Cancelled? ==> cancelled(calls - 1)
    ensures |sleeps| == if r.Cancelled? then calls else calls - 1
  {
    var maxAttempts := if p.maxAttempts <= 0 then 1 else p.maxAttempts;
    var delay := if p.initial <= 0 then 100 * MILLISECOND else p.initial;
    calls, sleeps := 0, [];
    while calls < maxAttempts
      invariant 0 <= calls < maxAttempts
      invariant Loop(p, op, cancelled, calls) == Loop(p, op, cancelled, 0)
      invariant |sleeps| == calls && delay == Delay(p, calls)
      invariant Retried(op, cancelled, calls) && OnSchedule(p, sleeps)
    {
      var attempt := calls;
      var err := op(attempt);
      calls := calls + 1;
      if err.Success? {
        return Nil, calls, sleeps;
      }
      if !err.transient || attempt == maxAttempts - 1 {
        return OpError, calls, sleeps;
      }
      sleeps := sleeps + [delay];
      if cancelled(attempt) {
        return Cancelled, calls, sleeps;
      }
      delay := NextDelay(p, delay);
    }
  }

  function Doubled(n: nat, k: nat): (r: nat)
    ensures n <= r
  {
    if k == 0 then n else 2 * Doubled(n, k - 1)
  }

  /** The promised k-th sleep. */
  function Capped(p: Policy, k: nat): int
    requires 0 < p.initial
  {
    Min(Doubled(p.initial, k), p.max)
  }

  lemma {:induction false} CappedGrows(p: Policy, j: nat, k: nat)
    requires 0 < p.initial && j <= k
    ensures Capped(p, j) <= Capped(p, k)
    decreases k
  {
    if j < k {
      CappedGrows(p, j, k - 1);
    }
  }

  /** Doubling follows the schedule as long as what it doubles is below 2^62. */
  lemma {:induction false} CappedDoubling(p: Policy, k: nat)
    requires p.Valid() && 0 < p.initial <= p.max
    requires k > 0 ==> Capped(p, k - 1) < TWO_62
    ensures Delay(p, k) == Capped(p, k)
  {
    if k > 0 {
      if k > 1 {
        CappedGrows(p, k - 2, k - 1);
      }
      CappedDoubling(p, k - 1);
      var d := Delay(p, k - 1);
      assert 0 < d < TWO_62 && Twice(d) == 2 * d;
    }
  }

  /** For 0 < Initial <= Max every sleep that the loop can make is min(Initial * 2^k, Max),
      exactly when it makes no second sleep or the last but one is below 2^62, so that
      doubling it does not overflow. */
  lemma ScheduleExact(p: Policy)
    requires p.Valid() && 0 < p.initial <= p.max
    ensures (forall k: nat :: k < Attempts(p) - 1 ==> Delay(p, k) == Capped(p, k)) <==>
            (Attempts(p) < 3 || Capped(p, Attempts(p) - 3) < TWO_62)
  {
    var last := Attempts(p) - 2;
    if last < 1 || Capped(p, last - 1) < TWO_62 {
      forall k: nat | k < Attempts(p) - 1 ensures Delay(p, k) == Capped(p, k) {
        if k > 0 {
          CappedGrows(p, k - 1, last - 1);
        }
        CappedDoubling(p, k);
      }
    } else if Delay(p, last - 1) == Capped(p, last - 1) {
      assert Delay(p, last) == NextDelay(p, Capped(p, last - 1)) < 0 < Capped(p, last);
    }
  }

  /** Three attempts with Initial = Max = 2^62 ns: the second sleep is not one at all. */
  lemma DoublingOverflows()
    ensures var p := Policy(3, TWO_62, TWO_62);
            p.Valid() && Attempts(p) - 1 == 2 && Delay(p, 1) == -TWO_63 && Capped(p, 1) == TWO_62
  {
    var p := Policy(3, TWO_62, TWO_62);
    assert Delay(p, 0) == TWO_62 && Doubled(TWO_62, 1) == 2 * TWO_62;
  }

  /** Without a positive initial delay the first sleep is 100 ms. */
  lemma DefaultInitial(p: Policy)
    requires p.initial <= 0
    ensures Delay(p, 0) == 100_000_000
  {
  }

  /** Without a positive cap every sleep is twice the one before, as long as that fits. */
  lemma {:induction false} UncappedDoubling(p: Policy, k: nat)
    requires 0 < p.initial && p.max <= 0 && (k > 0 ==> Doubled(p.initial, k - 1) < TWO_62)
    ensures Delay(p, k) == Doubled(p.initial, k)
  {
    if k > 0 {
      UncappedDoubling(p, k - 1);
    }
  }

  /** A first delay above the cap is slept in full once. */
  lemma FirstSleepUncapped(p: Policy)
    requires p.Valid() && 0 < p.max < TWO_62 && p.max < p.initial < TWO_62
    ensures Delay(p, 0) == p.initial && forall k: nat :: 0 < k ==> Delay(p, k) == p.max
  {
    forall k: nat | 0 < k ensures Delay(p, k) == p.max {
      SleepsAtCap(p, k);
    }
  }

  lemma {:induction false} SleepsAtCap(p: Policy, k: nat)
    requires p.Valid() && 0 < p.max < TWO_62 && p.max < p.initial < TWO_62 && 0 < k
    ensures Delay(p, k) == p.max
  {
    if k == 1 {
      assert Delay(p, 0) == p.initial;
      assert Twice(p.initial) == 2 * p.initial;
    } else {
      SleepsAtCap(p, k - 1);
      assert Twice(p.max) == 2 * p.max;
    }
  }
}
