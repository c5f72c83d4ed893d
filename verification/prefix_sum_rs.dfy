/** `prefix_sum.rs`: `main` pushes 10,000 ones into a `Vec<i64>` and runs
    `for i in 1..list.len() { list[i] += list[i - 1] }` over it.

    Elements are `i64`.  An addition that leaves the `i64` range panics
    ("attempt to add with overflow") in a debug build; the model returns
    None at that point and Some with the finished list otherwise. */
module PrefixSumRs {
  import opened Basics
  import opened PrefixSum

  /** The elements as mathematical integers. */
  function Widen(a: seq<i64>): seq<int> {
    seq(|a|, k requires 0 <= k < |a| => a[k] as int)
  }

  /** `for _ in 0..10_000 { list.push(1) }` from an empty vector. */
  method BuildOnes() returns (list: seq<i64>)
    ensures |list| == 10_000
    ensures forall k :: 0 <= k < |list| ==> list[k] == 1
    ensures Widen(list) == Ones(10_000)
  {
    list := [];
    var n := 0;
    while n < 10_000
      invariant 0 <= n <= 10_000
      invariant |list| == n
      invariant forall k :: 0 <= k < n ==> list[k] == 1
    {
      list := list + [1];
      n := n + 1;
    }
  }

  /** The loop `for i in 1..list.len()` with checked `i64` addition.  It
      panics exactly when some running sum past the first element leaves
      the `i64` range; otherwise every element is the running sum of the
      input up to it. */
  method PrefixSumChecked(a: seq<i64>) returns (r: Option<seq<i64>>)
    ensures r.None? <==> exists k :: 1 <= k < |a| && !InI64(PrefixSums(Widen(a))[k])
    ensures r.Some? ==> |r.value| == |a| && Widen(r.value) == PrefixSums(Widen(a))
    // list[0] is never written
    ensures r.Some? && |a| > 0 ==> r.value[0] == a[0]
    // 1..len is empty for vectors of length 0 or 1
    ensures |a| <= 1 ==> r == Some(a)
  {
    var w := Widen(a);
    PrefixSumsSteps(w);
    var list := a;
    var i := 1;
    while i < |list|
      invariant |list| == |a|
      invariant 1 <= i && (|a| > 0 ==> i <= |a|)
      invariant forall k :: 0 <= k < i && k < |a| ==> list[k] as int == PrefixSums(w)[k]
      invariant forall k :: i <= k < |a| ==> list[k] == a[k]
    {
      var sum := list[i] as int + list[i - 1] as int;
      if !InI64(sum) {
        assert PrefixSums(w)[i] == sum;
        return None;
      }
      list := list[i := sum as i64];
      i := i + 1;
    }
    assert Widen(list) == PrefixSums(w);
    assert forall k :: 0 <= k < |a| ==> InI64(PrefixSums(w)[k]) by {
      forall k | 0 <= k < |a|
        ensures InI64(PrefixSums(w)[k])
      {
        assert PrefixSums(w)[k] == list[k] as int;
      }
    }
    if |a| == 1 {
      assert list == a;
    }
    return Some(list);
  }

  /** `main`: the vector of 10,000 ones never overflows, and afterwards
      element i holds i + 1. */
  method RustMain() returns (list: seq<i64>)
    ensures |list| == 10_000
    ensures forall k :: 0 <= k < |list| ==> list[k] as int == k + 1
  {
    var ones := BuildOnes();
    OnesPrefixSums(10_000);
    assert forall k :: 0 <= k < |ones| ==> InI64(PrefixSums(Widen(ones))[k]);
    var r := PrefixSumChecked(ones);
    list := r.value;
    forall k | 0 <= k < |list|
      ensures list[k] as int == k + 1
    {
      assert Widen(list)[k] == list[k] as int;
    }
  }
}
