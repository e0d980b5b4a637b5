/**
 evfs_block_alloc and evfs_block_free: one bit of a group's bitmap and three counts of free
 blocks that have to follow it. Clusters are single blocks and all groups are initialised.
 */
module BlockCounts {

  const EEXIST: int := 17
  const EFSCORRUPTED: int := 117

  /** How many blocks of the bitmap are free. */
  function ClearBits(bits: seq<bool>): nat {
    if bits == [] then 0 else (if bits[0] then 0 else 1) + ClearBits(bits[1..])
  }

  function Sum(counts: seq<int>): int {
    if counts == [] then 0 else counts[0] + Sum(counts[1..])
  }

  lemma {:induction false} ClearBitsUpdate(bits: seq<bool>, i: nat, v: bool)
    requires i < |bits|
    ensures ClearBits(bits[i := v]) + (if bits[i] then 0 else 1) == ClearBits(bits) + (if v then 0 else 1)
  {
    if i == 0 {
      assert bits[i := v][1..] == bits[1..];
    } else {
      assert bits[i := v][1..] == bits[1..][i - 1 := v];
      ClearBitsUpdate(bits[1..], i - 1, v);
    }
  }

  lemma {:induction false} SumUpdate(counts: seq<int>, i: nat, v: int)
    requires i < |counts|
    ensures Sum(counts[i := v]) == Sum(counts) - counts[i] + v
  {
    if i == 0 {
      assert counts[i := v][1..] == counts[1..];
    } else {
      assert counts[i := v][1..] == counts[1..][i - 1 := v];
      SumUpdate(counts[1..], i - 1, v);
    }
  }

  lemma {:induction false} SumBound(counts: seq<int>, i: nat)
    requires i < |counts| && forall k :: 0 <= k < |counts| ==> counts[k] >= 0
    ensures Sum(counts) >= counts[i] >= 0
  {
    if i > 0 {
      SumBound(counts[1..], i - 1);
    } else if |counts| > 1 {
      SumBound(counts[1..], 0);
    }
  }

  lemma {:induction false} Distribute(a: int, b: int, n: int)
    ensures (a - b) * n == a * n - b * n
  {
  }

  lemma {:induction false} AtLeast(d: int, n: int)
    requires d >= 1 && n > 0
    ensures d * n >= n
  {
    Distribute(d, 1, n);
    assert (d - 1) * n >= 0;
  }

  lemma {:induction false} Quotient(g: nat, i: nat, n: nat)
    requires i < n
    ensures (g * n + i) / n == g && (g * n + i) % n == i
  {
    var x := g * n + i;
    var q, r := x / n, x % n;
    assert q * n + r == x;
    Distribute(g, q, n);
    Distribute(q, g, n);
    if q < g {
      AtLeast(g - q, n);
    } else if q > g {
      AtLeast(q - g, n);
    }
  }

  class Volume {
    const firstBlock: int
    const perGroup: nat
    var bitmaps: seq<seq<bool>>
    var groupFree: seq<int>
    var superFree: int
    var cpuFree: int

    /** Each group's count is the number of clear bits, and the two totals are their sum. */
    ghost predicate Valid()
      reads this
    {
      && perGroup > 0 && |groupFree| == |bitmaps|
      && (forall g :: 0 <= g < |bitmaps| ==> |bitmaps[g]| == perGroup)
      && (forall g :: 0 <= g < |bitmaps| ==> groupFree[g] == ClearBits(bitmaps[g]))
      && superFree == cpuFree == Sum(groupFree)
    }

    /** Negative for a block before the first one: in the source the difference wraps around to
        a number beyond the last group. */
    function GroupOf(b: int): int {
      if perGroup == 0 then 0 else (b - firstBlock) / perGroup
    }

    function OffsetOf(b: int): int {
      if perGroup == 0 then 0 else (b - firstBlock) % perGroup
    }

    /** Block `b` is inside the volume and marked as used. */
    predicate Used(b: int)
      reads this
    {
      && 0 <= GroupOf(b) < |bitmaps| && 0 <= OffsetOf(b) < |bitmaps[GroupOf(b)]|
      && bitmaps[GroupOf(b)][OffsetOf(b)]
    }

    /** Groups follow one another from the first block on, one bit a block. */
    lemma {:induction false} UsedIs(g: nat, i: nat)
      requires Valid() && g < |bitmaps| && i < perGroup
      ensures Used(firstBlock + g * perGroup + i) <==> bitmaps[g][i]
    {
      var x := g * perGroup + i;
      assert x / perGroup == g && x % perGroup == i by {
        Quotient(g, i, perGroup);
      }
      assert firstBlock + x - firstBlock == x;
    }

    /** Marks one block of group `g`, moving all three counts by one. */
    method Mark(g: nat, i: nat, used: bool)
      requires Valid() && g < |bitmaps| && i < perGroup && bitmaps[g][i] != used
      modifies this
      ensures Valid() && bitmaps == old(bitmaps)[g := old(bitmaps[g])[i := used]]
      ensures superFree == old(superFree) + (if used then -1 else 1) >= 0
      ensures groupFree == old(groupFree)[g := old(groupFree[g]) + (if used then -1 else 1)] && groupFree[g] >= 0
    {
      var d := if used then -1 else 1;
      ClearBitsUpdate(bitmaps[g], i, used);
      SumUpdate(groupFree, g, groupFree[g] + d);
      bitmaps := bitmaps[g := bitmaps[g][i := used]];
      groupFree := groupFree[g := groupFree[g] + d];
      cpuFree := cpuFree + d;
      superFree := superFree + d;
      SumBound(groupFree, g);
    }

    /** evfs_block_alloc: takes exactly the block asked for, or nothing. */
    method Alloc(b: int) returns (ret: int)
      requires Valid()
      modifies this
      ensures Valid()
      ensures ret == 0 <==> 0 <= GroupOf(b) < |old(bitmaps)| && !old(Used(b))
      ensures ret == 0 || ret == if old(Used(b)) then -EEXIST else -EFSCORRUPTED
      ensures ret == 0 ==> Used(b) && superFree == old(superFree) - 1 >= 0
      ensures ret != 0 ==> bitmaps == old(bitmaps) && groupFree == old(groupFree) && superFree == old(superFree)
      ensures forall c :: c != b ==> Used(c) == old(Used(c))
    {
      var g, i := GroupOf(b), OffsetOf(b);
      if g < 0 || g >= |bitmaps| {
        return -EFSCORRUPTED;
      }
      if bitmaps[g][i] {
        return -EEXIST;
      }
      Mark(g, i, true);
      ret := 0;
    }

    /** evfs_block_free: gives back exactly the block asked for, or nothing. */
    method Free(b: int) returns (ret: int)
      requires Valid()
      modifies this
      ensures Valid()
      ensures ret == 0 <==> old(Used(b))
      ensures ret == 0 || ret == if 0 <= GroupOf(b) < |old(bitmaps)| then -EEXIST else -EFSCORRUPTED
      ensures ret == 0 ==> !Used(b) && superFree == old(superFree) + 1
      ensures ret != 0 ==> bitmaps == old(bitmaps) && groupFree == old(groupFree) && superFree == old(superFree)
      ensures forall c :: c != b ==> Used(c) == old(Used(c))
    {
      var g, i := GroupOf(b), OffsetOf(b);
      if g < 0 || g >= |bitmaps| {
        return -EFSCORRUPTED;
      }
      if !bitmaps[g][i] {
        return -EEXIST;
      }
      Mark(g, i, false);
      ret := 0;
    }
  }
}
