/** `prefix_sum_avg.py`: the prefix-sum pass of `prefix_sum.py` repeated by
    an outer `for i in range(1, 100)` loop, with the per-element time of
    each pass summed into `cum_time` and reported as `cum_time / 100`.

    The inner loop reuses the name `i`, but Python's `for` takes its next
    value from the range iterator, not from the variable, so the outer loop
    still runs 99 times; the model keeps the iterator position separate from
    the inner index for that reason.  The clock is not modelled: the
    per-element time of each pass is a parameter. */
module PrefixSumAvg {
  import opened PrefixSum

  /** The list after k passes. */
  function Passes(a: seq<int>, k: nat): seq<int> {
    if k == 0 then a else PrefixSums(Passes(a, k - 1))
  }

  predicate Positive(s: seq<int>) {
    forall k :: 0 <= k < |s| ==> s[k] > 0
  }

  predicate StrictlyIncreasing(s: seq<int>) {
    forall k, l :: 0 <= k < l < |s| ==> s[k] < s[l]
  }

  /** A pass keeps the length and the first element, so any number of
      passes does. */
  lemma {:induction false} PassesShape(a: seq<int>, k: nat)
    ensures |Passes(a, k)| == |a|
    ensures |a| > 0 ==> Passes(a, k)[0] == a[0]
  {
    if k > 0 {
      PassesShape(a, k - 1);
      var p := Passes(a, k - 1);
      if |a| > 0 {
        TotalSnoc(p, 0);
        assert p[..0] == [];
      }
    }
  }

  /** A non-empty sum of positive numbers is positive. */
  lemma {:induction false} TotalPositive(a: seq<int>)
    requires Positive(a) && |a| > 0
    ensures Total(a) > 0
  {
    if |a| > 1 {
      TotalPositive(a[..|a| - 1]);
    } else {
      assert a[..0] == [];
    }
  }

  /** Consecutive increases give increase between any two positions. */
  lemma {:induction false} StepsIncreasing(s: seq<int>, k: int, l: int)
    requires forall m :: 0 < m < |s| ==> s[m - 1] < s[m]
    requires 0 <= k < l < |s|
    ensures s[k] < s[l]
    decreases l - k
  {
    if k + 1 < l {
      StepsIncreasing(s, k + 1, l);
    }
  }

  /** The running sums of positive numbers are positive and strictly
      increasing: each adds a positive element to its predecessor. */
  lemma PrefixSumsOfPositive(a: seq<int>)
    requires Positive(a)
    ensures Positive(PrefixSums(a)) && StrictlyIncreasing(PrefixSums(a))
  {
    var p := PrefixSums(a);
    forall k | 0 <= k < |a|
      ensures p[k] > 0
    {
      assert forall m :: 0 <= m < k + 1 ==> a[..k + 1][m] == a[m];
      TotalPositive(a[..k + 1]);
    }
    forall m | 0 < m < |p|
      ensures p[m - 1] < p[m]
    {
      TotalSnoc(a, m);
    }
    forall k, l | 0 <= k < l < |p|
      ensures p[k] < p[l]
    {
      StepsIncreasing(p, k, l);
    }
  }

  /** Starting from positive elements, every pass leaves the list positive
      and strictly increasing. */
  lemma {:induction false} PassesPositiveIncreasing(a: seq<int>, k: nat)
    requires Positive(a) && k >= 1
    ensures Positive(Passes(a, k)) && StrictlyIncreasing(Passes(a, k))
  {
    if k == 1 {
      PrefixSumsOfPositive(a);
    } else {
      PassesPositiveIncreasing(a, k - 1);
      PrefixSumsOfPositive(Passes(a, k - 1));
    }
  }

  /** The first pass over n ones gives 1, 2, ..., n. */
  lemma FirstPassOnOnes(n: nat)
    ensures Passes(Ones(n), 1) == seq(n, k => k + 1)
  {
    OnesPrefixSums(n);
  }

  /** The two nested loops: `range(1, 100)` drives `passes` passes, each
      replacing the list by the running sums of its value before the pass. */
  method RepeatedPasses(a: seq<int>) returns (r: seq<int>, passes: nat)
    ensures passes == 99
    ensures r == Passes(a, passes)
  {
    r := a;
    passes := 0;
    var next := 1;  // position of the range(1, 100) iterator
    while next < 100
      invariant 1 <= next <= 100
      invariant passes == next - 1
      invariant r == Passes(a, passes)
    {
      r := PrefixSumPass(r);
      passes := passes + 1;
      next := next + 1;
    }
  }

  // -----------------------------------------------------------------------
  // The reported average.

  function SumReal(t: seq<real>): real {
    if |t| == 0 then 0.0 else SumReal(t[..|t| - 1]) + t[|t| - 1]
  }

  /** `cum_time / 100` as written: the per-pass figures summed and divided
      by 100 whatever their number. */
  function ReportedAverage(perPass: seq<real>): real {
    SumReal(perPass) / 100.0
  }

  /** The mean of the per-pass figures: the sum divided by the number of
      passes that contributed to it. */
  function PassAverage(perPass: seq<real>): real
    requires |perPass| > 0
  {
    SumReal(perPass) / (|perPass| as real)
  }

  lemma {:induction false} SumRealConstant(n: nat, t: real)
    ensures SumReal(seq(n, _ => t)) == (n as real) * t
  {
    if n > 0 {
      assert seq(n, _ => t)[..n - 1] == seq(n - 1, _ => t);
      SumRealConstant(n - 1, t);
    }
  }

  /** If every pass takes the same t, the mean of the passes is t. */
  lemma PassAverageOfConstant(n: nat, t: real)
    requires n > 0
    ensures PassAverage(seq(n, _ => t)) == t
  {
    SumRealConstant(n, t);
  }

  /** The 99 passes each taking t ns per element are reported as 0.99 t:
      the division by 100 under-reports every positive time. */
  lemma ReportedAverageUnderReports(t: real)
    requires t > 0.0
    ensures ReportedAverage(seq(99, _ => t)) == 0.99 * t
    ensures ReportedAverage(seq(99, _ => t)) < PassAverage(seq(99, _ => t))
  {
    SumRealConstant(99, t);
    PassAverageOfConstant(99, t);
  }

  /** The script on 10,000 ones: 99 passes, after which the list still has
      10,000 elements, still starts with 1, and is positive and strictly
      increasing.  The reported average is `cum_time / 100` as written,
      which is 0.99 times the mean over the 99 passes. */
  method PrefixSumAvgScript(perPass: seq<real>) returns (list: seq<int>, passes: nat, average: real)
    requires |perPass| == 99
    ensures passes == 99 && |list| == 10_000 && list[0] == 1
    ensures Positive(list) && StrictlyIncreasing(list)
    ensures average == ReportedAverage(perPass)
    ensures average == 0.99 * PassAverage(perPass)
  {
    list, passes := RepeatedPasses(Ones(10_000));
    PassesShape(Ones(10_000), passes);
    PassesPositiveIncreasing(Ones(10_000), passes);
    average := SumReal(perPass) / 100.0;
  }
}
