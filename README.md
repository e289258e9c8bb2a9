# Fenwick tree (binary indexed tree) in Dafny

This project models `Ftree<T>`, a Fenwick tree, and proves it correct.
A Fenwick tree is a 1-indexed array `a` of `n + 1` slots that stands for a
hidden sequence of `n` logical items. It supports two operations, each of
which walks O(log n) slots:

- `add(idx, x)` adds `x` to item `idx`. It walks upward with
  `idx += idx & -idx`, adding `x` to each slot it meets while `idx <= n`.
- `query(idx)` returns the sum of items `1 ..= idx`. It walks downward with
  `idx -= idx & -idx`, summing the slots it meets until `idx` reaches 0.

The model has four modules:

- `LowBits` (`lowbit.dfy`): `LowBit(i)`, the value of `i & -i`, defined
  arithmetically as the largest power of two dividing `i`. It also holds the
  range `(j - LowBit(j), j]` that slot `j` owns (`Covers`), the two walks
  (`UpWalk`, `DownWalk`) and the facts about them that make the structure
  work.
- `PrefixSums` (`prefix_sums.dfy`): the logical view. Item `p` is `s[p - 1]`.
  It defines range sums (`RangeSum`), the effect of one `add` on the items
  (`PointAdd`), and a run of `add` calls (`ApplyAll`).
- `Fenwick` (`fenwick.dfy`): the class `Ftree`. It has the fields `n` and
  `a: array<int>`, plus a ghost field `vals` holding the logical items.
  `Valid()` is the representation invariant: `a[0] == 0`, and every slot
  `j >= 1` holds the sum of the items in the range it owns. `Add` and
  `Query` are `while` loops over the array, with the source's branches and
  bounds. They are proved against `vals`.
- `Scenarios` (`scenarios.dfy`): the repository's unit tests, written as
  client methods. Their postconditions are the asserted results, and they
  are proved from the contracts of `Ftree` alone.

The element type `T` is modelled as `int`. The source only needs a
commutative monoid with identity `Default::default()`, and integers are the
case its tests pin down.

A call `add(idx, x)` with `idx > n` is out of the tree's range, but the code
still defines what happens: the loop guard `idx <= n` fails at once, so
nothing changes. `Ftree.Add` allows this call and models exactly that.

## Model

| member | source | states |
|---|---|---|
| `LowBits.LowBit` | src/main.rs:35 | the step `idx & -idx` of a positive index is at least 1 and at most the index, so the upward walk advances and the downward walk stays at or above 0 |
| `LowBits.LowBitIsLargestPow2Divisor` | src/main.rs:45 | `LowBit(i)` is a power of two that divides `i` with an odd quotient, i.e. the value of the lowest set bit of `i` |
| `LowBits.CoverAbove` | src/main.rs:33-35 | above slot `c`, no slot before `c + LowBit(c)` owns `c`, and the range of any later slot that owns `c` contains all of `c`'s range |
| `LowBits.StepUp` | src/main.rs:35 | the slot `c + LowBit(c)` reached by one upward step owns a range that contains the whole range of `c` |
| `LowBits.StepUpSkips` | src/main.rs:33-36 | from a slot that owns position `p`, one upward step lands on a slot that owns `p`, and every slot it skips over does not own `p` |
| `LowBits.UpWalk` | src/main.rs:32-36 | every slot the `add` loop visits from `i` lies in `[i, n]`, so it is in bounds and never slot 0 |
| `LowBits.UpWalkExact` | src/main.rs:32-36 | the upward walk from `i` visits a slot `j` of `[1, n]` if and only if `j`'s range holds `i` |
| `LowBits.DownWalk` | src/main.rs:42-46 | every slot the `query` loop visits from `i` lies in `[1, i]`; the walk reaches 0 and stops |
| `LowBits.DownWalkPartition` | src/main.rs:39-47 | the ranges of the slots on the downward walk from `i` partition `[1, i]`: each position in it is owned by exactly one of them, and no position outside it by any |
| `PrefixSums.RangeSumSplit` | src/main.rs:43-46 | the sums over `(lo, mid]` and `(mid, hi]` add up to the sum over `(lo, hi]`, which is why summing adjacent slot ranges yields a prefix sum |
| `PrefixSums.RangeSumZeros` | src/main.rs:22-27 | over the all-identity items a fresh tree stands for, every range sums to 0 |
| `PrefixSums.RangeSumPointAdd` | src/main.rs:29-30 | after adding `x` at position `p`, the sum over `(lo, hi]` grows by exactly `x` if `lo < p <= hi` and is unchanged otherwise |
| `PrefixSums.PointAddUndo` | src/main.rs:100-112 | adding `-x` at `p` after adding `x` there restores every prefix sum |
| `PrefixSums.RangeSumApplyAll` | src/main.rs:29-48 | after any run of `add` calls, the sum over `(lo, hi]` is the old sum plus every delta aimed inside `(lo, hi]`; so `query(n)` totals all in-range deltas and `query(k) - query(j)` totals those applied to `(j, k]` |
| `Fenwick.SlotAfterPointAdd` | src/main.rs:32-36 | a slot's owned sum changes under `add(idx, x)`, by exactly `x`, if and only if the slot is on the upward walk from `idx`, which holds exactly when its range holds `idx` |
| `Fenwick.AddKeepsRepresentation` | src/main.rs:30-37 | adding `x` to exactly the slots whose range holds `idx` turns a valid array for the items `s` into a valid array for `s` with item `idx` grown by `x` |
| `Fenwick.Ftree.constructor` | src/main.rs:22-27 | `new(n)` gives `n + 1` slots that all hold 0, a valid tree over `n` zero items, and a prefix sum of 0 for every `0 <= j <= n` |
| `Fenwick.Ftree.Add` | src/main.rs:30-37 | for `idx >= 1`, keeps the tree valid. Item `idx` grows by `x` and no other item changes. Slot `j` grows by `x` exactly when its range holds `idx`, and no slot below `idx` is written. Every prefix sum `query(j)` with `j >= idx` grows by `x`, and every one with `j < idx` is unchanged. When `idx > n`, nothing changes |
| `Fenwick.Ftree.Query` | src/main.rs:40-48 | for `idx <= n`, returns the sum of items `1 ..= idx`, and the identity 0 when `idx <= 0`; it changes nothing |
| `Scenarios.EmptyTree` | src/main.rs:66-69 | `new(0).query(0) == 0` |
| `Scenarios.ThreeItems` | src/main.rs:72-78 | after `add(1, 3)`, `add(2, 14)`, `add(3, 5)` on `new(3)`, `query(3) == 22` |
| `Scenarios.TenOnesTree` | src/main.rs:82-92 | after `add(i, 1)` for `i` in `1 ..= 10` on `new(10)`, the tree is valid and every prefix sum up to `j` equals `j` |
| `Scenarios.TenOnes` | src/main.rs:81-98 | on that tree, `query(1)`, `query(2)`, `query(3)`, `query(9)`, `query(10)` return 1, 2, 3, 9, 10 |
| `Scenarios.Subtraction` | src/main.rs:101-113 | the subtraction test: 3 and 17 are returned, then 0 and 14 after `add(1, -3)`, then -3 and 11 after a second `add(1, -3)` |
| `Scenarios.RepeatedQuery` | src/main.rs:40 | two `query(idx)` calls with no `add` between them return the same value |

## Left out

- `main` (src/main.rs:51-59) and the `Debug` derive are left out. They only print the tree and one query result.
- The `f32` test (src/main.rs:116-122) and the generic element type are left out. `T` is `int`, so floating-point rounding is not modelled.
- `LowBits.LowBit`: it is defined arithmetically, as the largest power of two dividing the index. That `LowBit(i)` equals the two's-complement `i & -i` on `i64` is not proved.
- `Fenwick.Ftree.constructor`: `n` is a `nat`. A negative `n: i64`, which makes `n as usize + 1` wrap or overflow in the source, is not modelled.
- `Fenwick.Ftree.Add`: indices and sums are unbounded integers. The `i64` overflow of `idx += idx & -idx` is not modelled. That overflow can only happen when `n` is within `LowBit(idx)` of `i64::MAX`. Overflow of the summed values is not modelled either.
- `Fenwick.Ftree.Add`: the fatal `assert!(idx > 0)` is modelled as the precondition `idx >= 1`. The panic itself is not modelled.
- `Fenwick.Ftree.Query`: it requires `idx <= n`. In the source a larger `idx` panics on the out-of-bounds read of `a[idx]`, and that panic is not modelled. A negative `idx` is modelled: the loop does not run and the result is 0.
