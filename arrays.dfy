/**
 * The numpy array operations the core relies on, over `seq<real>` and `seq<bool>`.
 */
module Arrays {
  import opened Numerics

  /** Elementwise `s > bound`. */
  function Greater(s: seq<real>, bound: real): (mask: seq<bool>)
    ensures |mask| == |s|
    ensures forall k :: 0 <= k < |s| ==> mask[k] == (s[k] > bound)
  {
    seq(|s|, k requires 0 <= k < |s| => s[k] > bound)
  }

  /** First index at or after `from` where the mask holds, or |mask| if there is none. */
  function FirstTrueFrom(mask: seq<bool>, from: nat): (r: nat)
    requires from <= |mask|
    ensures from <= r <= |mask|
    ensures forall k :: from <= k < r ==> !mask[k]
    ensures r < |mask| ==> mask[r]
    decreases |mask| - from
  {
    if from == |mask| then from
    else if mask[from] then from
    else FirstTrueFrom(mask, from + 1)
  }

  /**
   * np.argmax of a boolean mask: the first index where the mask holds, or 0 when it holds
   * nowhere (numpy raises on an empty mask; callers rule that out or model it).
   */
  function ArgMax(mask: seq<bool>): (i: nat)
    ensures |mask| > 0 ==> i < |mask|
    ensures |mask| == 0 ==> i == 0
    ensures (exists k :: 0 <= k < |mask| && mask[k]) ==> mask[i] && forall k :: 0 <= k < i ==> !mask[k]
    ensures (forall k :: 0 <= k < |mask| ==> !mask[k]) ==> i == 0
  {
    var r := FirstTrueFrom(mask, 0);
    if r == |mask| then 0 else r
  }

  /** `np.argmax(s > bound)` on a non-empty array: the first index whose value exceeds the bound,
      or 0 when the first value does or none does. */
  function FirstAbove(s: seq<real>, bound: real): (i: nat)
    requires |s| > 0
    ensures i < |s|
    ensures i > 0 ==> s[i] > bound && forall k :: 0 <= k < i ==> s[k] <= bound
    ensures i == 0 ==> s[0] > bound || forall k :: 0 <= k < |s| ==> s[k] <= bound
  {
    ArgMax(Greater(s, bound))
  }

  /** np.min of a non-empty array. */
  function SeqMin(s: seq<real>): (r: real)
    requires |s| > 0
    ensures r in s
    ensures forall k :: 0 <= k < |s| ==> r <= s[k]
  {
    if |s| == 1 then s[0] else Min(SeqMin(s[..|s| - 1]), s[|s| - 1])
  }

  /** np.max of a non-empty array. */
  function SeqMax(s: seq<real>): (r: real)
    requires |s| > 0
    ensures r in s
    ensures forall k :: 0 <= k < |s| ==> s[k] <= r
  {
    if |s| == 1 then s[0] else Max(SeqMax(s[..|s| - 1]), s[|s| - 1])
  }

  /** max - min of a non-empty array: the width of its bounding interval. */
  function Span(s: seq<real>): (r: real)
    requires |s| > 0
    ensures r >= 0.0
  {
    SeqMax(s) - SeqMin(s)
  }

  /** Appending one value widens the interval to include it and changes nothing else. */
  lemma SnocExtremes(p: seq<real>, v: real)
    requires |p| > 0
    ensures SeqMax(p + [v]) == Max(SeqMax(p), v)
    ensures SeqMin(p + [v]) == Min(SeqMin(p), v)
  {
    assert (p + [v])[..|p|] == p;
  }

  /**
   * np.maximum.accumulate(s) - np.minimum.accumulate(s): entry k is the span of s[..k+1].
   */
  function PrefixSpan(s: seq<real>): (r: seq<real>)
    ensures |r| == |s|
    ensures forall k :: 0 <= k < |s| ==> r[k] == Span(s[..k + 1])
  {
    seq(|s|, k requires 0 <= k < |s| => Span(s[..k + 1]))
  }

  /** The running span starts at 0 and never decreases, so its last entry is the largest. */
  lemma PrefixSpanShape(s: seq<real>)
    ensures |s| > 0 ==> PrefixSpan(s)[0] == 0.0
    ensures forall a, b :: 0 <= a <= b < |s| ==> PrefixSpan(s)[a] <= PrefixSpan(s)[b]
  {
    var r := PrefixSpan(s);
    if |s| > 0 {
      assert s[..1] == [s[0]];
    }
    forall k | 0 <= k < |s| - 1
      ensures r[k] <= r[k + 1]
    {
      assert s[..k + 2] == s[..k + 1] + [s[k + 1]];
      SnocExtremes(s[..k + 1], s[k + 1]);
    }
    StepwiseNonDecreasing(r);
  }

  ghost predicate NonDecreasing(s: seq<real>) {
    forall a, b :: 0 <= a <= b < |s| ==> s[a] <= s[b]
  }

  /** A sequence that never steps down is non-decreasing. */
  lemma {:induction false} StepwiseNonDecreasing(s: seq<real>)
    requires forall k :: 0 <= k < |s| - 1 ==> s[k] <= s[k + 1]
    ensures NonDecreasing(s)
  {
    if |s| > 1 {
      var p := s[..|s| - 1];
      assert forall k :: 0 <= k < |p| - 1 ==> p[k] <= p[k + 1];
      StepwiseNonDecreasing(p);
      forall a, b | 0 <= a <= b < |s|
        ensures s[a] <= s[b]
      {
        if b == |s| - 1 && a < b {
          assert p[a] <= p[b - 1];
        }
      }
    }
  }

  /** np.cumsum: entry k is the sum of s[0..k]. */
  function CumSum(s: seq<real>): (r: seq<real>)
    ensures |r| == |s|
    ensures |s| > 0 ==> r[0] == s[0]
    ensures forall k :: 0 < k < |s| ==> r[k] == r[k - 1] + s[k]
  {
    if |s| == 0 then []
    else
      var p := CumSum(s[..|s| - 1]);
      p + [(if |p| == 0 then 0.0 else p[|p| - 1]) + s[|s| - 1]]
  }

  /** A sequence that starts with s[0] and adds s[k] at every step is the running sum of s. */
  lemma {:induction false} CumSumUnique(s: seq<real>, r: seq<real>)
    requires |r| == |s| > 0 && r[0] == s[0]
    requires forall k :: 0 < k < |s| ==> r[k] == r[k - 1] + s[k]
    ensures r == CumSum(s)
  {
    var n := |s|;
    if n > 1 {
      var s', r' := s[..n - 1], r[..n - 1];
      forall k | 0 < k < |s'|
        ensures r'[k] == r'[k - 1] + s'[k]
      {
        assert r'[k] == r[k] && r'[k - 1] == r[k - 1] && s'[k] == s[k];
      }
      CumSumUnique(s', r');
      assert CumSum(s) == r' + [r'[n - 2] + s[n - 1]];
      assert r[n - 1] == r'[n - 2] + s[n - 1];
      assert r == r' + [r[n - 1]];
    }
  }

  /** A running sum of non-negative terms is non-decreasing. */
  lemma CumSumNonDecreasing(s: seq<real>)
    requires forall k :: 0 <= k < |s| ==> s[k] >= 0.0
    ensures NonDecreasing(CumSum(s))
  {
    var r := CumSum(s);
    forall k | 0 <= k < |s| - 1
      ensures r[k] <= r[k + 1]
    {
      assert r[k + 1] == r[k] + s[k + 1];
    }
    StepwiseNonDecreasing(r);
  }
}
