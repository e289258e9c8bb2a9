/**
 * The logical view of a Fenwick tree: a sequence of items, where logical
 * position `p` (1-based) is `s[p - 1]`, with range sums over it and the
 * effect of a point update.
 */
module PrefixSums {

  /** Sum of the items at logical positions `lo + 1 .. hi`, i.e. of `s[lo..hi]`. */
  function RangeSum(s: seq<int>, lo: nat, hi: nat): int
    requires lo <= hi <= |s|
    decreases hi - lo
  {
    if lo == hi then 0 else RangeSum(s, lo, hi - 1) + s[hi - 1]
  }

  /** Adjacent ranges add up: `(lo, mid]` and `(mid, hi]` tile `(lo, hi]`. */
  lemma {:induction false} RangeSumSplit(s: seq<int>, lo: nat, mid: nat, hi: nat)
    requires lo <= mid <= hi <= |s|
    ensures RangeSum(s, lo, mid) + RangeSum(s, mid, hi) == RangeSum(s, lo, hi)
    decreases hi - mid
  {
    if mid < hi {
      RangeSumSplit(s, lo, mid, hi - 1);
    }
  }

  /** `n` items, all equal to the additive identity. */
  function Zeros(n: nat): (s: seq<int>)
    ensures |s| == n
  {
    seq(n, _ => 0)
  }

  /** Every range of an all-zero sequence sums to zero. */
  lemma {:induction false} RangeSumZeros(n: nat, lo: nat, hi: nat)
    requires lo <= hi <= n
    ensures RangeSum(Zeros(n), lo, hi) == 0
    decreases hi - lo
  {
    if lo < hi {
      RangeSumZeros(n, lo, hi - 1);
    }
  }

  /**
   * The logical effect of `add(p, x)`: item `p` grows by `x` when `p` is one
   * of the `|s|` positions; otherwise nothing changes.
   */
  function PointAdd(s: seq<int>, p: int, x: int): (r: seq<int>)
    ensures |r| == |s|
  {
    if 1 <= p <= |s| then s[p - 1 := s[p - 1] + x] else s
  }

  /** After a point update, a range sum grows by `x` exactly when the range holds `p`. */
  lemma {:induction false} RangeSumPointAdd(s: seq<int>, p: int, x: int, lo: nat, hi: nat)
    requires lo <= hi <= |s|
    ensures RangeSum(PointAdd(s, p, x), lo, hi)
         == RangeSum(s, lo, hi) + (if lo < p <= hi then x else 0)
    decreases hi - lo
  {
    if lo < hi {
      RangeSumPointAdd(s, p, x, lo, hi - 1);
    }
  }

  /** Adding `-x` at `p` after adding `x` there restores every prefix sum. */
  lemma PointAddUndo(s: seq<int>, p: int, x: int, j: nat)
    requires j <= |s|
    ensures RangeSum(PointAdd(PointAdd(s, p, x), p, -x), 0, j) == RangeSum(s, 0, j)
  {
    RangeSumPointAdd(s, p, x, 0, j);
    RangeSumPointAdd(PointAdd(s, p, x), p, -x, 0, j);
  }

  /** One `add(idx, delta)` call. */
  datatype Update = Update(idx: int, delta: int)

  /** The logical items after a run of `add` calls, applied in order. */
  function ApplyAll(s: seq<int>, ops: seq<Update>): (r: seq<int>)
    ensures |r| == |s|
    decreases |ops|
  {
    if ops == [] then s
    else ApplyAll(PointAdd(s, ops[0].idx, ops[0].delta), ops[1..])
  }

  /** Total of the deltas in `ops` aimed at logical positions `lo + 1 .. hi`. */
  function DeltaIn(ops: seq<Update>, lo: int, hi: int): int
    decreases |ops|
  {
    if ops == [] then 0
    else (if lo < ops[0].idx <= hi then ops[0].delta else 0) + DeltaIn(ops[1..], lo, hi)
  }

  /**
   * Superposition: after any run of `add` calls, the sum over `(lo, hi]` is
   * the old sum plus every delta aimed inside `(lo, hi]`. With `lo = 0` and
   * `hi = |s|` this says the total is the sum of all in-range deltas; as a
   * difference of two prefix sums it says `query(hi) - query(lo)` counts
   * exactly the deltas applied to `(lo, hi]`.
   */
  lemma {:induction false} RangeSumApplyAll(s: seq<int>, ops: seq<Update>, lo: nat, hi: nat)
    requires lo <= hi <= |s|
    ensures RangeSum(ApplyAll(s, ops), lo, hi) == RangeSum(s, lo, hi) + DeltaIn(ops, lo, hi)
    decreases |ops|
  {
    if ops != [] {
      var s' := PointAdd(s, ops[0].idx, ops[0].delta);
      RangeSumPointAdd(s, ops[0].idx, ops[0].delta, lo, hi);
      RangeSumApplyAll(s', ops[1..], lo, hi);
    }
  }
}
