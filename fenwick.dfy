/**
 * `Ftree`, a Fenwick (binary indexed) tree over integers: a 1-indexed array
 * `a` of `n + 1` slots that answers prefix-sum queries and takes point
 * updates, both by walking O(log n) slots.
 *
 * The ghost field `vals` is the hidden sequence of logical items the tree
 * represents (`vals[p - 1]` is the item at position `p`). `Valid()` ties the
 * array to it: slot 0 holds the identity and slot `j` holds the sum of the
 * items in the range `(j - LowBit(j), j]` that it owns.
 */
module Fenwick {
  import opened LowBits
  import opened PrefixSums

  /**
   * The representation invariant on plain values: `t` is the slot array of
   * a tree over the items `s` when slot 0 holds the identity and every
   * other slot `j` holds the sum of the items in the range it owns.
   */
  ghost predicate Represents(t: seq<int>, s: seq<int>)
  {
    |t| == |s| + 1 && t[0] == 0 &&
    forall j :: 1 <= j < |t| ==> t[j] == RangeSum(s, j - LowBit(j), j)
  }

  /**
   * After adding `x` at logical position `idx`, the sum owned by slot `j`
   * changes (by exactly `x`) if and only if `j` lies on the upward walk
   * from `idx`: the slots `add` writes are exactly the ones it must write.
   */
  lemma SlotAfterPointAdd(s: seq<int>, idx: nat, x: int, j: nat)
    requires idx >= 1 && 1 <= j <= |s|
    ensures j in UpWalk(idx, |s|) <==> Covers(j, idx)
    ensures RangeSum(PointAdd(s, idx, x), j - LowBit(j), j)
         == RangeSum(s, j - LowBit(j), j) + (if j in UpWalk(idx, |s|) then x else 0)
  {
    UpWalkExact(idx, |s|, j);
    RangeSumPointAdd(s, idx, x, j - LowBit(j), j);
  }

  /**
   * Adding `x` to exactly the slots whose range holds `idx` turns a tree
   * over `s` into a tree over `s` with item `idx` grown by `x`.
   */
  lemma AddKeepsRepresentation(t: seq<int>, s: seq<int>, idx: nat, x: int, t': seq<int>)
    requires Represents(t, s) && idx >= 1 && |t'| == |t|
    requires forall j :: 0 <= j < |t| ==> t'[j] == t[j] + (if j >= 1 && Covers(j, idx) then x else 0)
    ensures Represents(t', PointAdd(s, idx, x))
  {
    forall j | 1 <= j < |t'|
      ensures t'[j] == RangeSum(PointAdd(s, idx, x), j - LowBit(j), j)
    {
      SlotAfterPointAdd(s, idx, x, j);
    }
  }

  class Ftree {
    const n: nat
    const a: array<int>
    ghost var vals: seq<int>

    ghost predicate Valid()
      reads this, a
    {
      a.Length == n + 1 && |vals| == n && Represents(a[..], vals)
    }

    /** `new(n)`: every slot holds the identity, so every prefix sum is 0. */
    constructor (n: nat)
      ensures Valid() && fresh(a)
      ensures this.n == n && vals == Zeros(n)
      ensures forall j :: 0 <= j < a.Length ==> a[j] == 0
      ensures forall j :: 0 <= j <= n ==> RangeSum(vals, 0, j) == 0
    {
      this.n := n;
      a := new int[n + 1](_ => 0);
      vals := Zeros(n);
      new;
      forall j | 0 <= j <= n
        ensures RangeSum(vals, 0, j) == 0
        ensures j >= 1 ==> RangeSum(vals, j - LowBit(j), j) == 0
      {
        RangeSumZeros(n, 0, j);
        if j >= 1 {
          RangeSumZeros(n, j - LowBit(j), j);
        }
      }
    }

    /**
     * `add(idx, x)`: adds `x` to logical item `idx`. The loop adds `x` to
     * exactly the slots whose range holds `idx` (the slots of the upward
     * walk, see `SlotAfterPointAdd`) and to no other slot, slot 0 included;
     * every prefix sum that reaches `idx` grows by `x` and every other one is
     * unchanged. With `idx > n` the loop does not run and nothing changes.
     */
    method Add(idx: int, x: int)
      requires Valid()
      requires idx >= 1
      modifies a, this`vals
      ensures Valid()
      ensures vals == PointAdd(old(vals), idx, x)
      ensures forall j :: 1 <= j <= n ==> a[j] == old(a[j]) + (if Covers(j, idx) then x else 0)
      ensures forall j :: 0 <= j <= n && j < idx ==> a[j] == old(a[j])
      ensures forall j :: 0 <= j <= n ==>
        RangeSum(vals, 0, j) == old(RangeSum(vals, 0, j)) + (if idx <= j then x else 0)
    {
      var i: nat := idx;
      while i <= n
        invariant idx <= i && Covers(i, idx) && vals == old(vals)
        invariant forall j :: 0 <= j <= n ==>
          a[j] == old(a[j]) + (if 1 <= j < i && Covers(j, idx) then x else 0)
        decreases n + 1 - i
      {
        StepUpSkips(idx, i);
        a[i] := a[i] + x;
        i := i + LowBit(i);
      }
      AddKeepsRepresentation(old(a[..]), vals, idx, x, a[..]);
      vals := PointAdd(vals, idx, x);
      forall j | 0 <= j <= n
        ensures RangeSum(vals, 0, j) == old(RangeSum(vals, 0, j)) + (if idx <= j then x else 0)
      {
        RangeSumPointAdd(old(vals), idx, x, 0, j);
      }
    }

    /**
     * `query(idx)`: the sum of the logical items at positions `1 ..= idx`,
     * and the identity 0 when `idx <= 0`. The tree is not changed.
     */
    method Query(idx: int) returns (sum: int)
      requires Valid()
      requires idx <= n
      ensures idx <= 0 ==> sum == 0
      ensures idx >= 0 ==> sum == RangeSum(vals, 0, idx)
    {
      sum := 0;
      var i := idx;
      while i > 0
        invariant idx <= 0 ==> i == idx && sum == 0
        invariant idx > 0 ==> 0 <= i <= idx && sum == RangeSum(vals, i, idx)
        decreases i
      {
        RangeSumSplit(vals, i - LowBit(i), i, idx);
        sum := sum + a[i];
        i := i - LowBit(i);
      }
    }
  }
}
