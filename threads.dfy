/** The intra-op thread count handed to the inference session: the
    largest power of two not above max(1, ceil(cores * speed_control)).
    The torch pipeline, both servers and the plugin compute it the same
    way. */
module Threads {
  import opened Common

  function Pow2(k: nat): (r: nat)
    ensures r >= 1
  {
    if k == 0 then 1 else 2 * Pow2(k - 1)
  }

  ghost predicate IsPowerOfTwo(p: int)
  {
    exists k: nat :: Pow2(k) == p
  }

  /** Powers of two at least double from one exponent to the next. */
  lemma {:induction false} Pow2Grows(i: nat, j: nat)
    requires i < j
    ensures 2 * Pow2(i) <= Pow2(j)
  {
    if i + 1 < j {
      Pow2Grows(i, j - 1);
    }
  }

  /** `math.floor(math.log2(n))` for n >= 1, on exact integers: the
      exponent whose power of two brackets n. */
  function Log2Floor(n: nat): (k: nat)
    requires n >= 1
    ensures Pow2(k) <= n < 2 * Pow2(k)
  {
    if n == 1 then 0 else 1 + Log2Floor(n / 2)
  }

  /** `largest_power_of_two(n)`: `2 ** floor(log2(n))`. `log2` rejects
      n <= 0 (a ValueError), modelled as None. */
  function LargestPowerOfTwo(n: int): (r: Option<nat>)
    ensures r.None? <==> n <= 0
    ensures r.Some? ==> IsPowerOfTwo(r.value) && r.value <= n < 2 * r.value
  {
    if n <= 0 then None else Some(Pow2(Log2Floor(n)))
  }

  /** Only one power of two p has p <= n < 2p. */
  lemma PowerOfTwoUnique(i: nat, j: nat, n: int)
    requires Pow2(i) <= n < 2 * Pow2(i)
    requires Pow2(j) <= n < 2 * Pow2(j)
    ensures i == j
  {
    if i < j {
      Pow2Grows(i, j);
    } else if j < i {
      Pow2Grows(j, i);
    }
  }

  /** The result is the largest power of two not above n. */
  lemma LargestIsLargest(n: int, k: nat)
    requires Pow2(k) <= n
    ensures LargestPowerOfTwo(n).Some? && Pow2(k) <= LargestPowerOfTwo(n).value
  {
    var e := Log2Floor(n);
    if e < k {
      Pow2Grows(e, k);
      assert false;
    } else if k < e {
      Pow2Grows(k, e);
    }
  }

  /** A power of two maps to itself. */
  lemma PowerOfTwoFixed(k: nat)
    ensures LargestPowerOfTwo(Pow2(k)) == Some(Pow2(k))
  {
    PowerOfTwoUnique(Log2Floor(Pow2(k)), k, Pow2(k));
  }

  /** `max(1, math.ceil(cores * speed_control))`. */
  function Candidate(cores: nat, speed: real): (r: int)
    ensures r >= 1
  {
    IMax(1, Ceil(cores as real * speed))
  }

  /** `_thread_calculation`: at least one thread, always a power of two,
      and the largest one not above the candidate. */
  function ThreadCount(cores: nat, speed: real): (r: nat)
    ensures r >= 1 && IsPowerOfTwo(r)
    ensures r <= Candidate(cores, speed) < 2 * r
  {
    LargestPowerOfTwo(Candidate(cores, speed)).value
  }

  /** A speed control of at most 1 never asks for more threads than there
      are cores (given at least one core). */
  lemma ThreadsWithinCores(cores: nat, speed: real)
    requires cores >= 1 && speed <= 1.0
    ensures ThreadCount(cores, speed) <= cores
  {
    var c := Ceil(cores as real * speed);
    if speed >= 0.0 {
      assert cores as real * speed <= cores as real * 1.0;
    } else {
      assert cores as real * speed <= 0.0;
    }
    assert c <= cores;
  }
}
