/**
 * The unit tests of the Fenwick tree, stated as client methods whose
 * postconditions are the expected results. They are proved from the
 * contracts of `Ftree` alone.
 */
module Scenarios {
  import opened Fenwick
  import opened PrefixSums

  /** An empty tree answers the identity for the empty prefix. */
  method EmptyTree() returns (q0: int)
    ensures q0 == 0
  {
    var f := new Ftree(0);
    q0 := f.Query(0);
  }

  /** Three items 3, 14 and 5 sum to 22. */
  method ThreeItems() returns (q3: int)
    ensures q3 == 22
  {
    var f := new Ftree(3);
    f.Add(1, 3);
    f.Add(2, 14);
    f.Add(3, 5);
    q3 := f.Query(3);
  }

  /** The tree of the ten-item test: items 1 ..= 10 each set to 1 by `add`. */
  method TenOnesTree() returns (f: Ftree)
    ensures f.Valid() && f.n == 10
    ensures forall j :: 0 <= j <= 10 ==> RangeSum(f.vals, 0, j) == j
  {
    f := new Ftree(10);
    f.Add(1, 1);
    f.Add(2, 1);
    f.Add(3, 1);
    f.Add(4, 1);
    f.Add(5, 1);
    f.Add(6, 1);
    f.Add(7, 1);
    f.Add(8, 1);
    f.Add(9, 1);
    f.Add(10, 1);
  }

  /** Ten items equal to 1: every prefix sum equals its length. */
  method TenOnes() returns (q1: int, q2: int, q3: int, q9: int, q10: int)
    ensures q1 == 1 && q2 == 2 && q3 == 3 && q9 == 9 && q10 == 10
  {
    var f := TenOnesTree();
    q1 := f.Query(1);
    q2 := f.Query(2);
    q3 := f.Query(3);
    q9 := f.Query(9);
    q10 := f.Query(10);
  }

  /** Negative deltas subtract: adding -3 twice at position 1 after adding 3 there. */
  method Subtraction() returns (a1: int, a2: int, b1: int, b2: int, c1: int, c2: int)
    ensures a1 == 3 && a2 == 17
    ensures b1 == 0 && b2 == 14
    ensures c1 == -3 && c2 == 11
  {
    var f := new Ftree(2);
    f.Add(1, 3);
    f.Add(2, 14);
    a1 := f.Query(1);
    a2 := f.Query(2);
    f.Add(1, -3);
    b1 := f.Query(1);
    b2 := f.Query(2);
    f.Add(1, -3);
    c1 := f.Query(1);
    c2 := f.Query(2);
  }

  /** Queries do not change the tree, so asking twice gives the same answer. */
  method RepeatedQuery(f: Ftree, idx: int) returns (first: int, second: int)
    requires f.Valid() && idx <= f.n
    ensures first == second
  {
    first := f.Query(idx);
    second := f.Query(idx);
  }
}
