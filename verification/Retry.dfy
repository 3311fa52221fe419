/**
 The doubling retry strategy.
 */
module Retry {
  import opened Types

  function Min(a: nat, b: nat): nat { if a < b then a else b }

  /** The wait after the failure that follows `k` others since the last success. */
  function Delay(min: nat, max: nat, k: nat): nat {
    if k == 0 then min else Min(min * Pow2(k), max)
  }

  /** One more failure doubles the wait, up to the maximum. */
  lemma DelayDoubles(min: nat, max: nat, k: nat)
    ensures Min(2 * Delay(min, max, k), max) == Delay(min, max, k + 1)
  {
    assert min * Pow2(k + 1) == 2 * (min * Pow2(k)) by {
      assert Pow2(k + 1) == 2 * Pow2(k);
      Twice(min, Pow2(k));
    }
  }

  lemma Twice(a: nat, b: nat)
    ensures a * (2 * b) == 2 * (a * b)
  {}

  lemma {:induction false} Pow2Positive(k: nat)
    ensures Pow2(k) >= 1
  {
    if k > 0 {
      Pow2Positive(k - 1);
    }
  }

  /** The waits are the minimum doubled k times, capped, exactly when the bounds are in order. */
  lemma CappedDoublingIff(min: nat, max: nat)
    ensures min <= max <==> forall k: nat :: Delay(min, max, k) == Min(min * Pow2(k), max)
  {
    if min <= max {
      forall k: nat
        ensures Delay(min, max, k) == Min(min * Pow2(k), max)
      {
        assert Pow2(0) == 1 && min * 1 == min;
      }
    } else {
      assert Pow2(0) == 1 && min * 1 == min;
      assert Delay(min, max, 0) != Min(min * Pow2(0), max);
    }
  }

  /** With the bounds in order no wait is shorter than the minimum or longer than the maximum. */
  lemma DelayBounds(min: nat, max: nat, k: nat)
    requires min <= max
    ensures min <= Delay(min, max, k) <= max
  {
    Pow2Positive(k);
    Grows(min, Pow2(k));
  }

  lemma Grows(a: nat, b: nat)
    requires b >= 1
    ensures a <= a * b
  {}

  class Doubling {
    const min: nat
    const max: nat
    var current: nat
    ghost var failures: nat

    ghost predicate Valid()
      reads this
    {
      current == Delay(min, max, failures)
    }

    constructor (min: nat, max: nat)
      ensures Valid() && failures == 0 && this.min == min && this.max == max
    {
      this.min, this.max, current, failures := min, max, min, 0;
    }

    method Reset()
      modifies this
      ensures Valid() && failures == 0
    {
      current, failures := min, 0;
    }

    method AfterFailedConnect() returns (delay: nat)
      requires Valid()
      modifies this
      ensures Valid() && failures == old(failures) + 1
      ensures delay == Delay(min, max, old(failures))
    {
      DelayDoubles(min, max, failures);
      delay := current;
      current := Min(2 * current, max);
      failures := failures + 1;
    }

    method AfterDisconnect() returns (delay: nat)
      ensures delay == min
    {
      delay := min;
    }
  }
}
