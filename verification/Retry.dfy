/** The capped exponential backoff of djangae/utils.py; one unit of time is a millisecond. */
module Retry {
  import opened Common

  /** What one call of the function does; only some exceptions are caught. */
  datatype Attempt<+T> = Returns(value: T) | Raises(caught: bool)

  function Pow2(k: nat): nat {
    if k == 0 then 1 else 2 * Pow2(k - 1)
  }

  /** The random part of the k-th sleep, counting from 0; the first sleep has none. */
  function Jitter(randomize: bool, rnd: nat -> nat, k: nat): nat {
    if randomize && k > 0 then rnd(k) else 0
  }

  /** The length of the k-th sleep, counting from 0. */
  function SleepMs(initial: nat, maxWait: nat, randomize: bool, rnd: nat -> nat, k: nat): nat {
    Min(Pow2(k) * initial + Jitter(randomize, rnd, k), maxWait)
  }

  predicate Fails<T>(a: Attempt<T>) {
    a.Raises? && a.caught
  }

  /**
   The result is that of the first call that returns, raises something uncaught, or uses up the attempts;
   exactly one sleep of the specified length lies between consecutive calls.
   */
  method CallWithRetry<T>(outcome: nat -> Attempt<T>, attempts: int, initialWait: nat, maxWait: nat,
                          randomize: bool, rnd: nat -> nat)
    returns (result: Attempt<T>, sleeps: seq<nat>)
    ensures result == outcome(|sleeps| + 1) && |sleeps| + 1 <= Max(1, attempts)
    ensures forall i :: 1 <= i <= |sleeps| ==> Fails(outcome(i))
    ensures Fails(result) ==> |sleeps| + 1 == Max(1, attempts)
    ensures forall k :: 0 <= k < |sleeps| ==> sleeps[k] == SleepMs(initialWait, maxWait, randomize, rnd, k)
  {
    hide Pow2;
    FirstDouble();
    ghost var doubled := initialWait;
    var timeout := initialWait;
    var i := 1;
    sleeps := [];
    result := outcome(i);
    while Fails(result) && i < attempts
      invariant i == |sleeps| + 1 && result == outcome(i)
      invariant forall n :: 1 <= n < i ==> Fails(outcome(n))
      invariant i <= Max(1, attempts)
      invariant doubled == Pow2(|sleeps|) * initialWait
      invariant timeout == doubled || (timeout == maxWait && maxWait <= doubled)
      invariant forall k :: 0 <= k < |sleeps| ==> sleeps[k] == SleepMs(initialWait, maxWait, randomize, rnd, k)
      decreases attempts - i
    {
      var factor := Jitter(randomize, rnd, i - 1);
      sleeps := sleeps + [Min(timeout + factor, maxWait)];
      Doubling(|sleeps|, initialWait);
      doubled := 2 * doubled;
      timeout := Min(timeout * 2, maxWait);
      i := i + 1;
      result := outcome(i);
    }
  }

  lemma FirstDouble()
    ensures Pow2(0) == 1
  {
  }

  lemma Doubling(k: nat, w: nat)
    requires k > 0
    ensures Pow2(k) * w == 2 * (Pow2(k - 1) * w)
  {
  }

  /**
   The first sleep is the initial wait, every further one twice the one before, as far as the maximum allows; the random
   part comes on top of all but the first.
   */
  lemma Backoff(initial: nat, maxWait: nat, rnd: nat -> nat, k: nat)
    ensures forall randomize :: SleepMs(initial, maxWait, randomize, rnd, 0) == Min(initial, maxWait)
    ensures var now, next := SleepMs(initial, maxWait, false, rnd, k), SleepMs(initial, maxWait, false, rnd, k + 1);
            && next == Min(2 * now, maxWait)
            && SleepMs(initial, maxWait, true, rnd, k + 1) == Min(next + rnd(k + 1), maxWait)
  {
    FirstDouble();
    Doubling(k + 1, initial);
  }

  function Total(sleeps: seq<nat>): nat {
    if sleeps == [] then 0 else Total(sleeps[..|sleeps| - 1]) + sleeps[|sleeps| - 1]
  }

  /** All sleeps together take at most maxWait each. */
  lemma {:induction false} TotalSleep(initial: nat, maxWait: nat, randomize: bool, rnd: nat -> nat, sleeps: seq<nat>)
    requires forall k :: 0 <= k < |sleeps| ==> sleeps[k] == SleepMs(initial, maxWait, randomize, rnd, k)
    ensures Total(sleeps) <= |sleeps| * maxWait
  {
    if sleeps != [] {
      TotalSleep(initial, maxWait, randomize, rnd, sleeps[..|sleeps| - 1]);
      assert |sleeps| * maxWait == (|sleeps| - 1) * maxWait + maxWait;
    }
  }
}
