/** The in-place prefix sum of `prefix_sum.py`: for i in 1..len-1,
    `list[i] += list[i - 1]`, run over a list of 10,000 ones.

    The list is a value here: the pass takes the list it starts from and
    returns the list it leaves.  Python integers are unbounded, and so are
    the model's. */
module PrefixSum {

  /** The sum of all elements of a. */
  function Total(a: seq<int>): int {
    if |a| == 0 then 0 else Total(a[..|a| - 1]) + a[|a| - 1]
  }

  /** The reference the pass is measured against: element k is the sum of
      the first k + 1 elements of a. */
  function PrefixSums(a: seq<int>): seq<int> {
    seq(|a|, k requires 0 <= k < |a| => Total(a[..k + 1]))
  }

  /** `[1] * n`. */
  function Ones(n: nat): seq<int> {
    seq(n, _ => 1)
  }

  /** The running sum grows by the next element. */
  lemma TotalSnoc(a: seq<int>, i: int)
    requires 0 <= i < |a|
    ensures Total(a[..i + 1]) == Total(a[..i]) + a[i]
  {
    assert a[..i + 1][..i] == a[..i];
  }

  /** The reference starts with the first element and adds one element at
      each step. */
  lemma PrefixSumsSteps(a: seq<int>)
    ensures |a| > 0 ==> PrefixSums(a)[0] == a[0]
    ensures forall i :: 0 < i < |a| ==> PrefixSums(a)[i] == PrefixSums(a)[i - 1] + a[i]
  {
    if |a| > 0 {
      TotalSnoc(a, 0);
      assert a[..0] == [];
    }
    forall i | 0 < i < |a|
      ensures PrefixSums(a)[i] == PrefixSums(a)[i - 1] + a[i]
    {
      TotalSnoc(a, i);
    }
  }

  /** The loop `for i in range(1, len(list)): list[i] += list[i - 1]`.
      Before iteration i the first i elements hold running sums and the rest
      still hold the input. */
  method PrefixSumPass(a: seq<int>) returns (r: seq<int>)
    ensures |r| == |a|
    ensures r == PrefixSums(a)
    // list[0] is never written
    ensures |a| > 0 ==> r[0] == a[0]
    // range(1, len) is empty for lists of length 0 or 1
    ensures |a| <= 1 ==> r == a
    // the last element is the total of the input
    ensures |a| > 0 ==> r[|a| - 1] == Total(a)
  {
    r := a;
    var i := 1;
    while i < |r|
      invariant |r| == |a|
      invariant 1 <= i && (|a| > 0 ==> i <= |a|)
      invariant forall k :: 0 <= k < i && k < |a| ==> r[k] == Total(a[..k + 1])
      invariant forall k :: i <= k < |a| ==> r[k] == a[k]
    {
      TotalSnoc(a, i);
      r := r[i := r[i] + r[i - 1]];
      i := i + 1;
    }
    if |a| > 0 {
      assert a[..|a|] == a;
    }
    if |a| == 1 {
      TotalSnoc(a, 0);
    }
  }

  /** n ones add up to n. */
  lemma {:induction false} TotalOnes(n: nat)
    ensures Total(Ones(n)) == n
  {
    if n > 0 {
      assert Ones(n)[..n - 1] == Ones(n - 1);
      TotalOnes(n - 1);
    }
  }

  /** The running sums of n ones are 1, 2, ..., n. */
  lemma OnesPrefixSums(n: nat)
    ensures PrefixSums(Ones(n)) == seq(n, k => k + 1)
  {
    forall k | 0 <= k < n
      ensures PrefixSums(Ones(n))[k] == k + 1
    {
      assert Ones(n)[..k + 1] == Ones(k + 1);
      TotalOnes(k + 1);
    }
  }

  /** The script: one pass over 10,000 ones leaves list[i] == i + 1, the
      last element being the total 10,000. */
  method PrefixSumScript() returns (list: seq<int>)
    ensures |list| == 10_000
    ensures forall i :: 0 <= i < |list| ==> list[i] == i + 1
    ensures list[9_999] == 10_000
  {
    list := Ones(10_000);
    list := PrefixSumPass(list);
    OnesPrefixSums(10_000);
  }
}
