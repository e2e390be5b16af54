// The exponential backoff that analytics syncs and webhook deliveries share.
module Backoff {
  function Pow2(n: nat): (p: nat)
    ensures p >= 1
  {
    if n == 0 then 1 else 2 * Pow2(n - 1)
  }

  function Least(x: int, y: int): int {
    if y < x then y else x
  }

  function Greatest(x: int, y: int): int {
    if x < y then y else x
  }

  /** Seconds to wait after the given attempt, never less than the provider asked for unless the cap says so. */
  function Delay(base: nat, cap: nat, attempt: nat, asked: int): int {
    Least(cap, Greatest(asked, base * Pow2(if attempt == 0 then 0 else attempt - 1)))
  }

  lemma Pow2Doubles(n: nat)
    ensures Pow2(0) == 1 && Pow2(n + 1) == 2 * Pow2(n)
  {
  }

  /**
   * The delay, step by step: after the first attempt the base, or what was asked if that is more, up to the cap; after
   * a later one, as after the attempt before with twice the base.
   */
  lemma DelayUnrolled(base: nat, cap: nat, attempt: nat, asked: int)
    ensures attempt <= 1 ==>
      var d := Delay(base, cap, attempt, asked);
      d <= cap && (d == cap || (d >= base && d >= asked)) && (d == base || d == asked || d == cap)
      && (base <= cap && asked <= cap ==> d >= base && d >= asked && (d == base || d == asked))
    ensures attempt >= 1 ==> Delay(base, cap, attempt + 1, asked) == Delay(2 * base, cap, attempt, asked)
  {
    if attempt >= 1 {
      Pow2Doubles(attempt - 1);
      assert base * (2 * Pow2(attempt - 1)) == (2 * base) * Pow2(attempt - 1);
    }
  }

  lemma {:induction false} Pow2Monotone(m: nat, n: nat)
    requires m <= n
    ensures Pow2(m) <= Pow2(n)
    decreases n - m
  {
    if m < n {
      Pow2Monotone(m, n - 1);
    }
  }

  /** Delays stay within the cap, never shrink from one attempt to the next, and double until they reach it. */
  lemma DelayGrows(base: nat, cap: nat, attempt: nat, asked: int)
    requires 1 <= base <= cap
    ensures base <= Delay(base, cap, attempt, asked) <= cap
    ensures Delay(base, cap, attempt, asked) <= Delay(base, cap, attempt + 1, asked)
    ensures attempt >= 1 && asked <= 0 ==>
      Delay(base, cap, attempt + 1, asked) == Least(cap, 2 * Delay(base, cap, attempt, asked))
  {
    var n := if attempt == 0 then 0 else attempt - 1;
    var p := Pow2(n);
    assert base * p >= base by {
      assert base * (p - 1) >= 0;
    }
    if attempt >= 1 {
      assert Pow2(attempt) == 2 * p;
      assert base * (2 * p) == 2 * (base * p);
    }
  }
}
