/**
 * The lowest set bit of a positive index, which the Fenwick tree computes as
 * `idx & (-idx)`, and the range of logical positions that each slot of the
 * tree is responsible for.
 *
 * Slot `j` (for `j >= 1`) owns the half-open range `(j - LowBit(j), j]`.
 * `add` walks upward through the slots whose range contains the updated
 * position; `query` walks downward through slots whose ranges tile `[1, idx]`.
 */
module LowBits {

  /** `r` is a power of two, 2^k for some k >= 0. */
  ghost predicate IsPow2(r: nat)
  {
    r == 1 || (r >= 2 && r % 2 == 0 && IsPow2(r / 2))
  }

  /** Dividing an exact multiple `d * q` by `d` gives back `q`. */
  lemma ExactDivision(d: nat, q: nat)
    requires d >= 1
    ensures (d * q) % d == 0 && (d * q) / d == q
  {
    var m := d * q;
    var k, r := m / d, m % d;
    assert d * (q - k) == r;
    assert q - k >= 1 ==> d * (q - k) >= d * 1;
    assert q - k <= -1 ==> d * (q - k) <= d * -1;
  }

  /** Scaling both sides of an exact division by two keeps it exact. */
  lemma DoubleDivision(m: nat, d: nat)
    requires d >= 1 && m % d == 0
    ensures (2 * m) % (2 * d) == 0 && (2 * m) / (2 * d) == m / d
  {
    var q := m / d;
    assert m == d * q;
    assert 2 * m == (2 * d) * q;
    ExactDivision(2 * d, q);
  }

  /**
   * The lowest set bit of `i`, which is the value of `i & (-i)` in two's
   * complement: 1 for odd `i`, twice the lowest set bit of `i / 2` otherwise.
   */
  function LowBit(i: nat): (r: nat)
    requires i >= 1
    ensures 1 <= r <= i
  {
    if i % 2 == 1 then 1 else 2 * LowBit(i / 2)
  }

  /**
   * `LowBit(i)` is the largest power of two dividing `i`: it is a power of
   * two, it divides `i`, and the quotient is odd.
   */
  lemma {:induction false} LowBitIsLargestPow2Divisor(i: nat)
    requires i >= 1
    ensures IsPow2(LowBit(i))
    ensures i % LowBit(i) == 0 && (i / LowBit(i)) % 2 == 1
    decreases i
  {
    if i % 2 == 0 {
      LowBitIsLargestPow2Divisor(i / 2);
      DoubleDivision(i / 2, LowBit(i / 2));
    }
  }

  /** Slot `j` owns logical position `p`: `p` lies in `(j - LowBit(j), j]`. */
  predicate Covers(j: nat, p: int)
    requires j >= 1
  {
    j - LowBit(j) < p <= j
  }

  /**
   * Above a slot `c`, the first slot whose range contains `c` is
   * `c + LowBit(c)`, and the range of every such slot contains the whole
   * range of `c` (two ranges are either nested or disjoint).
   */
  lemma {:induction false} CoverAbove(c: nat, j: nat)
    requires 1 <= c < j
    ensures Covers(j, c) ==> j >= c + LowBit(c) && j - LowBit(j) <= c - LowBit(c)
    decreases c
  {
    if c % 2 == 0 && j % 2 == 0 {
      CoverAbove(c / 2, j / 2);
    }
  }

  /**
   * One step of the upward walk, `c + LowBit(c)`, lands on a slot whose
   * range contains the whole range of `c`.
   */
  lemma {:induction false} StepUp(c: nat)
    requires c >= 1
    ensures (c + LowBit(c)) - LowBit(c + LowBit(c)) <= c - LowBit(c)
    decreases c
  {
    if c % 2 == 0 {
      StepUp(c / 2);
      assert (c + LowBit(c)) / 2 == c / 2 + LowBit(c / 2);
    }
  }

  /** The slots that `add(i, x)` visits in a tree of `n` slots, in order. */
  function UpWalk(i: nat, n: nat): (w: seq<nat>)
    requires i >= 1
    ensures forall k :: k in w ==> i <= k <= n
    decreases n + 1 - i
  {
    if i > n then [] else [i] + UpWalk(i + LowBit(i), n)
  }

  /**
   * One step of `add`'s walk from a slot `i` that owns position `p` lands
   * on the next slot that owns `p`: the target owns `p`, and no slot
   * strictly between the two does.
   */
  lemma StepUpSkips(p: nat, i: nat)
    requires 1 <= p <= i && Covers(i, p)
    ensures Covers(i + LowBit(i), p)
    ensures forall j :: i < j < i + LowBit(i) ==> !Covers(j, p)
  {
    StepUp(i);
    forall j | i < j < i + LowBit(i)
      ensures !Covers(j, p)
    {
      CoverAbove(i, j);
    }
  }

  /**
   * The upward walk from `i` visits exactly the slots of `[1, n]` whose
   * range contains `i`.
   */
  lemma {:induction false} UpWalkExact(i: nat, n: nat, j: nat)
    requires i >= 1 && 1 <= j <= n
    ensures j in UpWalk(i, n) <==> Covers(j, i)
    decreases n + 1 - i
  {
    if i <= n {
      var next := i + LowBit(i);
      UpWalkExact(next, n, j);
      StepUp(i);
      if j > i {
        CoverAbove(i, j);
      }
      if j > next {
        CoverAbove(next, j);
      }
    }
  }

  /** The slots that `query(i)` visits, in order. */
  function DownWalk(i: nat): (w: seq<nat>)
    ensures forall k :: k in w ==> 1 <= k <= i
    decreases i
  {
    if i == 0 then [] else [i] + DownWalk(i - LowBit(i))
  }

  /** How many slots of `w` own logical position `p`. */
  function CoverCount(w: seq<nat>, p: int): nat
  {
    if w == [] then 0
    else (if w[0] >= 1 && Covers(w[0], p) then 1 else 0) + CoverCount(w[1..], p)
  }

  /**
   * The ranges of the slots on the downward walk from `i` partition
   * `[1, i]`: every position in it is owned by exactly one of them, and no
   * position outside it by any.
   */
  lemma {:induction false} DownWalkPartition(i: nat, p: int)
    ensures CoverCount(DownWalk(i), p) == if 1 <= p <= i then 1 else 0
    decreases i
  {
    if i > 0 {
      DownWalkPartition(i - LowBit(i), p);
      assert DownWalk(i)[1..] == DownWalk(i - LowBit(i));
    }
  }
}
