/** The client's retransmission schedule: how long each attempt waits for the CHALLENGE. */
module Backoff {
  import opened Types

  /** `Duration::MAX`, in whole milliseconds. */
  const DURATION_MAX: nat := U64_MAX * 1000 + 999

  function Pow2(k: nat): (p: nat)
    ensures p >= 1
  {
    if k == 0 then 1 else 2 * Pow2(k - 1)
  }

  /** The wait of attempt `k` (from 1): the shift is clamped at 31 so that it fits a u32,
      the product saturates, and the result is capped. All in milliseconds. */
  function Wait(initial: u64, max: u64, k: nat): nat
    requires k >= 1
  {
    Min(Min(initial * Pow2(Min(k - 1, 31)), DURATION_MAX), max)
  }

  /** The schedule of Timer E, section 17.1.2.2 of RFC 3261: doubling, capped. */
  function TimerE(t1: nat, t2: nat, k: nat): nat
    requires k >= 1
  {
    Min(t1 * Pow2(k - 1), t2)
  }

  lemma {:induction false} Pow2Grows(i: nat, j: nat)
    requires i <= j
    ensures Pow2(i) <= Pow2(j)
  {
    if i < j {
      Pow2Grows(i, j - 1);
    }
  }

  lemma ScaledGrows(t: nat, i: nat, j: nat)
    requires i <= j
    ensures t * Pow2(i) <= t * Pow2(j)
  {
    Pow2Grows(i, j);
    Scaled(t, Pow2(i), Pow2(j));
  }

  lemma Scaled(t: nat, a: nat, b: nat)
    requires a <= b
    ensures t * a <= t * b
  {
  }

  /** The saturating product plays no part: the cap is far below the largest duration. */
  lemma WaitClosedForm(t1: u64, t2: u64, k: nat)
    requires k >= 1
    ensures Wait(t1, t2, k) == Min(t1 * Pow2(Min(k - 1, 31)), t2)
  {
  }

  lemma WaitIsTimerE(t1: u64, t2: u64, k: nat)
    requires k >= 1 && t2 <= t1 * Pow2(31)
    ensures Wait(t1, t2, k) == TimerE(t1, t2, k)
  {
    WaitClosedForm(t1, t2, k);
    if k - 1 > 31 {
      ScaledGrows(t1, 31, k - 1);
    }
  }

  /** The client follows Timer E for every attempt exactly when the cap is reached before
      the clamp: T2 <= T1 * 2^31. */
  lemma FollowsTimerEIff(t1: u64, t2: u64)
    requires 0 < t1 <= t2
    ensures (forall k :: k >= 1 ==> Wait(t1, t2, k) == TimerE(t1, t2, k)) <==> t2 <= t1 * Pow2(31)
  {
    if t2 <= t1 * Pow2(31) {
      forall k | k >= 1 ensures Wait(t1, t2, k) == TimerE(t1, t2, k) {
        WaitIsTimerE(t1, t2, k);
      }
    } else {
      WaitClosedForm(t1, t2, 33);
      Doubles(t1, 31);
      assert Wait(t1, t2, 33) == t1 * Pow2(31) < TimerE(t1, t2, 33);
    }
  }

  lemma Doubles(t: nat, k: nat)
    ensures t * Pow2(k + 1) == 2 * (t * Pow2(k))
    ensures t > 0 ==> t * Pow2(k) > 0
  {
    var p := Pow2(k);
    assert Pow2(k + 1) == 2 * p;
    assert t * (2 * p) == 2 * (t * p);
  }

  /** The waits one after the other: the first is T1, each of the next 31 is twice the one before,
      all capped at T2; from the 32nd on they stay what they are. */
  lemma WaitDoubles(t1: u64, t2: u64, k: nat)
    requires k >= 1
    ensures Wait(t1, t2, 1) == Min(t1, t2)
    ensures k <= 31 ==> Wait(t1, t2, k + 1) == Min(2 * Wait(t1, t2, k), t2)
    ensures k >= 32 ==> Wait(t1, t2, k + 1) == Wait(t1, t2, k)
  {
    Doubles(t1, k - 1);
  }

  /** Waits never get shorter. */
  lemma WaitNeverShrinks(t1: u64, t2: u64, k: nat)
    requires k >= 1
    ensures Wait(t1, t2, k) <= Wait(t1, t2, k + 1)
  {
    WaitClosedForm(t1, t2, k);
    WaitClosedForm(t1, t2, k + 1);
    ScaledGrows(t1, Min(k - 1, 31), Min(k, 31));
  }

  /** The total wait of the first n attempts. */
  function Total(t1: u64, t2: u64, n: nat): nat {
    if n == 0 then 0 else Total(t1, t2, n - 1) + Wait(t1, t2, n)
  }

  /** n attempts wait at most n caps, and at most the unbounded geometric sum. */
  lemma {:induction false} TotalBounded(t1: u64, t2: u64, n: nat)
    ensures Total(t1, t2, n) <= n * t2
    ensures Total(t1, t2, n) <= t1 * Pow2(n) - t1
  {
    if n == 0 {
      assert t1 * Pow2(0) == t1;
    } else {
      TotalBounded(t1, t2, n - 1);
      WaitClosedForm(t1, t2, n);
      ScaledGrows(t1, Min(n - 1, 31), n - 1);
      Doubles(t1, n - 1);
      assert n * t2 == (n - 1) * t2 + t2;
    }
  }

  /** One cycle: attempts, at least one, until one is answered. `answered(k)` says whether attempt k is. */
  method RunCycle(t1: u64, t2: u64, maxAttempts: u32, answered: nat -> bool) returns (ok: bool, waits: seq<nat>)
    ensures 1 <= |waits| <= Max(maxAttempts, 1)
    ensures forall i :: 0 <= i < |waits| ==> waits[i] == Wait(t1, t2, i + 1)
    ensures forall k :: 1 <= k < |waits| ==> !answered(k)
    ensures ok ==> waits != [] && answered(|waits|)
    ensures !ok ==> |waits| == Max(maxAttempts, 1) && !answered(|waits|)
  {
    waits := [];
    var attempts := if maxAttempts < 1 then 1 else maxAttempts;
    var attempt := 1;
    while attempt <= attempts
      invariant 1 <= attempt <= attempts + 1
      invariant |waits| == attempt - 1
      invariant forall i :: 0 <= i < |waits| ==> waits[i] == Wait(t1, t2, i + 1)
      invariant forall k :: 1 <= k < attempt ==> !answered(k)
    {
      var shift := if attempt - 1 < 31 then attempt - 1 else 31;
      var product := t1 * Pow2(shift);
      var timeout := Min(Min(product, DURATION_MAX), t2);
      assert shift == Min(attempt - 1, 31) && timeout == Wait(t1, t2, attempt);
      waits := waits + [timeout];
      if answered(attempt) {
        return true, waits;
      }
      attempt := attempt + 1;
    }
    ok := false;
  }
}
