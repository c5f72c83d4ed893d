/** `call1` of `forloop.py`: `x = 0; for i in range(100_000_000): x += i;
    return x`.  Python integers are unbounded; whether a signed 64-bit
    accumulator would have sufficed is stated separately. */
module ForLoop {
  import opened Basics

  /** 0 + 1 + ... + (n - 1), one term at a time. */
  function SumBelow(n: nat): nat {
    if n == 0 then 0 else SumBelow(n - 1) + (n - 1)
  }

  /** The closed form of the sum. */
  lemma {:induction false} SumBelowClosedForm(n: nat)
    ensures SumBelow(n) == n * (n - 1) / 2
  {
    if n > 0 {
      SumBelowClosedForm(n - 1);
      assert (n - 1) * (n - 2) + 2 * (n - 1) == n * (n - 1);
    }
  }

  /** Every added term is non-negative, so the sum never decreases. */
  lemma {:induction false} SumBelowMonotone(m: nat, n: nat)
    requires m <= n
    ensures SumBelow(m) <= SumBelow(n)
    decreases n - m
  {
    if m < n {
      SumBelowMonotone(m, n - 1);
    }
  }

  /** The loop with an explicit bound n: after k iterations x holds
      k * (k - 1) / 2. */
  method Accumulate(n: nat) returns (x: int)
    ensures x == SumBelow(n)
    ensures x == n * (n - 1) / 2
  {
    x := 0;
    var i := 0;
    while i < n
      invariant 0 <= i <= n
      invariant x == SumBelow(i)
      invariant x == i * (i - 1) / 2
    {
      SumBelowClosedForm(i + 1);
      x := x + i;
      i := i + 1;
    }
  }

  const N: nat := 100_000_000

  /** `call1()` returns the value the script prints. */
  method Call1() returns (x: int)
    ensures x == SumBelow(N)
    ensures x == 4_999_999_950_000_000
  {
    x := Accumulate(N);
  }

  /** Every value x takes in `call1`, from 0 to the result, lies in the
      range of a signed 64-bit integer. */
  lemma AccumulatorFitsI64(k: nat)
    requires k <= N
    ensures 0 <= SumBelow(k) <= SumBelow(N) < I64_MAX
  {
    SumBelowMonotone(k, N);
    SumBelowClosedForm(N);
  }

  /** The same loop with a signed 64-bit accumulator and counter: no
      addition overflows, and the result is the same. */
  method Call1I64() returns (x: i64)
    ensures x as int == SumBelow(N)
  {
    x := 0;
    var i: i64 := 0;
    while i < N as i64
      invariant 0 <= i as int <= N
      invariant x as int == SumBelow(i as int)
    {
      AccumulatorFitsI64(i as int + 1);
      x := x + i;
      i := i + 1;
    }
  }
}
