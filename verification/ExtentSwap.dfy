/**
 ext4_swap_extents: exchanges the physical blocks of two files over a range, position by
 position, cutting extents until the two at the cursors cover the same stretch.
 */
module ExtentSwap {
  import opened Extents
  import opened KeyTree
  import opened ExtentTree
  import opened ExtentMerge
  import opened ExtentSplit

  /** The offsets p, ..., p+n-1. */
  function Interval(p: int, n: nat): (s: set<int>)
    ensures forall i :: i in s <==> p <= i < p + n
    ensures |s| == n
  {
    if n == 0 then {} else Interval(p, n - 1) + {p + n - 1}
  }

  // ------------------------------------------------------------ what is promised

  /** What block `x` of the first file maps to once the offsets in `s` have taken over the
      other file's physical blocks, keeping their own state or taking state `u`. */
  function Taken(own: seq<Extent>, l: int, other: seq<Extent>, m: int, s: set<int>, keep: bool, u: bool,
                 x: int): Option<Mapping> {
    var y := m + (x - l);
    if x - l in s && Mapped(own, x) && Mapped(other, y)
    then Some(Mapping(Lookup(other, y).value.pblk, if keep then Lookup(own, x).value.unwritten else u))
    else Lookup(own, x)
  }

  ghost predicate Took(own0: seq<Extent>, own: seq<Extent>, l: int, other0: seq<Extent>, m: int,
                       s: set<int>, keep: bool, u: bool) {
    forall x {:trigger Lookup(own, x)} :: Lookup(own, x) == Taken(own0, l, other0, m, s, keep, u, x)
  }

  /** At offset k both files are mapped. */
  predicate Pair(a: seq<Extent>, b: seq<Extent>, l1: int, l2: int, k: int) {
    Mapped(a, l1 + k) && Mapped(b, l2 + k)
  }

  ghost predicate BothMapped(a: seq<Extent>, b: seq<Extent>, l1: int, l2: int, s: set<int>) {
    forall k :: k in s ==> Pair(a, b, l1, l2, k)
  }

  /** No physical block is lost, gained or shared by the exchange. */
  ghost predicate SameTotal(a0: seq<Extent>, b0: seq<Extent>, a: seq<Extent>, b: seq<Extent>) {
    forall x :: Uses(a, x) + Uses(b, x) == Uses(a0, x) + Uses(b0, x)
  }

  ghost predicate Swapped(a0: seq<Extent>, b0: seq<Extent>, a: seq<Extent>, b: seq<Extent>, l1: int, l2: int,
                          s: set<int>, u: bool) {
    && BothMapped(a0, b0, l1, l2, s)
    && Took(a0, a, l1, b0, l2, s, true, u)
    && Took(b0, b, l2, a0, l1, s, false, u)
    && SameTotal(a0, b0, a, b)
  }

  // -------------------------------------------------------------- composition

  lemma {:induction false} TakenMore(own0: seq<Extent>, own: seq<Extent>, l: int, other0: seq<Extent>,
                                     other: seq<Extent>, m: int, c: int, d: int, s: set<int>, p: nat, n: nat,
                                     keep: bool, u: bool, x: int, y: int)
    requires s <= Interval(0, p) && c == l + p && d == m + p && y == m + (x - l)
    requires Lookup(own, x) == Taken(own0, l, other0, m, s, keep, u, x)
    requires Lookup(other, y) == Taken(other0, m, own0, l, s, !keep, u, y)
    ensures Taken(own, c, other, d, Interval(0, n), keep, u, x)
            == Taken(own0, l, other0, m, s + Interval(p, n), keep, u, x)
  {
    assert d + (x - c) == y && l + (y - m) == x;
    assert x - l in Interval(p, n) <==> x - c in Interval(0, n);
  }

  lemma {:induction false} TookMore(own0: seq<Extent>, own: seq<Extent>, own': seq<Extent>, l: int,
                                    other0: seq<Extent>, other: seq<Extent>, m: int, c: int, d: int, s: set<int>,
                                    p: nat, n: nat, keep: bool, u: bool)
    requires s <= Interval(0, p) && c == l + p && d == m + p
    requires Took(own0, own, l, other0, m, s, keep, u) && Took(other0, other, m, own0, l, s, !keep, u)
    requires Took(own, own', c, other, d, Interval(0, n), keep, u)
    ensures Took(own0, own', l, other0, m, s + Interval(p, n), keep, u)
  {
    forall x ensures Lookup(own', x) == Taken(own0, l, other0, m, s + Interval(p, n), keep, u, x) {
      TakenMore(own0, own, l, other0, other, m, c, d, s, p, n, keep, u, x, m + (x - l));
    }
  }

  lemma {:induction false} BothMappedMore(a0: seq<Extent>, b0: seq<Extent>, a: seq<Extent>, b: seq<Extent>, l1: int,
                                          l2: int, c1: int, c2: int, s: set<int>, p: nat, n: nat)
    requires BothMapped(a0, b0, l1, l2, s) && forall k :: Pair(a, b, l1, l2, k) == Pair(a0, b0, l1, l2, k)
    requires c1 == l1 + p && c2 == l2 + p && BothMapped(a, b, c1, c2, Interval(0, n))
    ensures BothMapped(a0, b0, l1, l2, s + Interval(p, n))
  {
    forall k | k in Interval(p, n) ensures Pair(a0, b0, l1, l2, k) {
      assert k - p in Interval(0, n) && Pair(a, b, c1, c2, k - p);
      assert Pair(a, b, l1, l2, k);
    }
  }

  lemma {:induction false} SwappedMore(a0: seq<Extent>, b0: seq<Extent>, a: seq<Extent>, b: seq<Extent>,
                                       a': seq<Extent>, b': seq<Extent>, l1: int, l2: int, c1: int, c2: int,
                                       s: set<int>, p: nat, n: nat, u: bool)
    requires s <= Interval(0, p) && Swapped(a0, b0, a, b, l1, l2, s, u)
    requires c1 == l1 + p && c2 == l2 + p && Swapped(a, b, a', b', c1, c2, Interval(0, n), u)
    ensures Swapped(a0, b0, a', b', l1, l2, s + Interval(p, n), u)
  {
    assert BothMapped(a0, b0, l1, l2, s + Interval(p, n)) by {
      forall k ensures Pair(a, b, l1, l2, k) == Pair(a0, b0, l1, l2, k) {
        SwappedDomain(a0, b0, a, b, l1, l2, s, u, k);
      }
      BothMappedMore(a0, b0, a, b, l1, l2, c1, c2, s, p, n);
    }
    TookMore(a0, a, a', l1, b0, b, l2, c1, c2, s, p, n, true, u);
    TookMore(b0, b, b', l2, a0, a, l1, c2, c1, s, p, n, false, u);
  }

  /** Cutting extents in between changes nothing. */
  lemma {:induction false} SwappedSame(a0: seq<Extent>, b0: seq<Extent>, a: seq<Extent>, b: seq<Extent>,
                                       a': seq<Extent>, b': seq<Extent>, l1: int, l2: int, s: set<int>, u: bool)
    requires Swapped(a0, b0, a, b, l1, l2, s, u) && Same(a, a') && Same(b, b')
    ensures Swapped(a0, b0, a', b', l1, l2, s, u)
  {
  }

  // ------------------------------------------------------------------ one exchange

  lemma {:induction false} StoreTakes(es: seq<Extent>, i: nat, es2: seq<Extent>, j: nat, f: Extent,
                                      after: seq<Extent>, keep: bool, u: bool)
    requires Sorted(es) && Sorted(es2) && i < |es| && j < |es2| && es[i].len == es2[j].len && es[i].Valid()
    requires f == es[i].(pblk := es2[j].pblk, unwritten := if keep then es[i].unwritten else u)
    requires Stored(es, es[i := f], es[i], f) && SameMap(es[i := f], after)
    ensures Took(es, after, es[i].block, es2, es2[j].block, Interval(0, es[i].len), keep, u)
  {
    var e, l, m := es[i], es[i].block, es2[j].block;
    forall x ensures Lookup(after, x) == Taken(es, l, es2, m, Interval(0, e.len), keep, u, x) {
      if e.Covers(x) {
        LookupHit(es, i, x);
        LookupHit(es2, j, m + (x - l));
      }
    }
  }

  lemma {:induction false} StoreBoth(a: seq<Extent>, i: nat, b: seq<Extent>, j: nat, f: Extent, h: Extent,
                                     a': seq<Extent>, b': seq<Extent>, u: bool)
    requires Sorted(a) && Sorted(b) && i < |a| && j < |b| && a[i].len == b[j].len
    requires f == a[i].(pblk := b[j].pblk) && h == b[j].(pblk := a[i].pblk, unwritten := u) && h.Valid()
    requires Same(a[i := f], a') && Same(b[j := h], b')
    ensures Swapped(a, b, a', b', a[i].block, b[j].block, Interval(0, a[i].len), u)
  {
    assert ValidAt(a, i) && ValidAt(b, j);
    StoreAt(a, i, f);
    StoreAt(b, j, h);
    StoreTakes(a, i, b, j, f, a', true, u);
    StoreTakes(b, j, a, i, h, b', false, u);
    forall k | k in Interval(0, a[i].len) ensures Pair(a, b, a[i].block, b[j].block, k) {
      LookupHit(a, i, a[i].block + k);
      LookupHit(b, j, b[j].block + k);
    }
  }

  // ---------------------------------------------------------------------- cutting

  /** The extent that covers block `b`, if there is one. */
  ghost function Cover(es: seq<Extent>, b: int): Extent {
    if es == [] then Extent(0, 0, 0, false) else if es[0].Covers(b) then es[0] else Cover(es[1..], b)
  }

  lemma {:induction false} CoverHit(es: seq<Extent>, i: nat, x: int)
    requires Sorted(es) && i < |es| && es[i].Covers(x)
    ensures Cover(es, x) == es[i]
  {
    if i > 0 {
      assert Ordered(es, 0, i);
      SortedDrop(es, 1);
      CoverHit(es[1..], i - 1, x);
    }
  }

  /** How far the two extents at the cursors are from covering the same stretch: their left
      ends come first, then their right ends. */
  ghost function Ragged(a: seq<Extent>, l1: int, b: seq<Extent>, l2: int, n: int): nat {
    var e1, e2 := Cover(a, l1), Cover(b, l2);
    if e1.block < l1 || e2.block < l2 then 2
    else if e1.len != e2.len || e1.len > n then 1
    else 0
  }

  // ------------------------------------------------- extents too long to mark unwritten

  /** At offset `k` both files have an extent of the greatest length; only a written one can
      be that long. */
  ghost predicate LongPair(a: seq<Extent>, b: seq<Extent>, l1: int, l2: int, k: int) {
    LongAt(a, l1 + k) && LongAt(b, l2 + k)
  }

  /** From offset `p` on, as far as they end within `n`, the two states have the same long pairs. */
  ghost predicate SameLongPairs(a: seq<Extent>, b: seq<Extent>, a': seq<Extent>, b': seq<Extent>,
                                l1: int, l2: int, p: int, n: int) {
    forall k :: p <= k && k + EXT_INIT_MAX_LEN <= n ==> LongPair(a, b, l1, l2, k) == LongPair(a', b', l1, l2, k)
  }

  lemma {:induction false} LongStart(es: seq<Extent>, i: nat)
    requires Sorted(es) && i < |es|
    ensures LongAt(es, es[i].block) == (es[i].len == EXT_INIT_MAX_LEN)
  {
    SortedAll(es);
  }

  lemma {:induction false} NoStartInside(es: seq<Extent>, i: nat, x: int)
    requires Sorted(es) && i < |es| && es[i].block < x < es[i].End()
    ensures !LongAt(es, x)
  {
    SortedAll(es);
  }

  lemma {:induction false} LongIsMapped(es: seq<Extent>, x: int)
    requires Sorted(es) && LongAt(es, x)
    ensures Mapped(es, x)
  {
    var i :| 0 <= i < |es| && es[i].block == x && es[i].len == EXT_INIT_MAX_LEN;
    LookupHit(es, i, x);
  }

  /** A cut extent is no longer a long one, and neither are its pieces. */
  lemma {:induction false} LongCut(es: seq<Extent>, k: nat, b: int, x: int)
    requires Sorted(es) && k < |es| && es[k].block < b < es[k].End()
    ensures LongAt(Replaced(es, k, [es[k].Head(b), es[k].Tail(b)]), x) == (LongAt(es, x) && x != es[k].block)
  {
    var pre, post, two := es[..k], es[k + 1..], [es[k].Head(b), es[k].Tail(b)];
    assert es == pre + [es[k]] + post;
    SortedAll(es);
    LongConcat(pre + two, post, x);
    LongConcat(pre, two, x);
    LongConcat(pre + [es[k]], post, x);
    LongConcat(pre, [es[k]], x);
    assert !LongAt(two, x);
    assert LongAt([es[k]], x) ==> x == [es[k]][0].block;
    assert !LongAt(pre, es[k].block) && !LongAt(post, es[k].block);
  }

  /** ext4_force_split_extent_at inside the extent the cursor picks. */
  method CutAt(inode: Inode, c: Cursor, b: int)
    requires inode.Valid() && c.Ok() && c.pos >= 0 && |c.path| == inode.depth && inode.root == Fill(c.path, c.leaf)
    requires c.leaf.items[c.pos].block < b < c.leaf.items[c.pos].End()
    modifies inode
    ensures inode.Valid() && Same(old(inode.Extents()), inode.Extents())
    ensures Cover(inode.Extents(), b) == c.leaf.items[c.pos].Tail(b)
    ensures Cover(inode.Extents(), c.leaf.items[c.pos].block) == c.leaf.items[c.pos].Head(b)
    ensures forall x :: LongAt(inode.Extents(), x) <==>
                        LongAt(old(inode.Extents()), x) && x != c.leaf.items[c.pos].block
  {
    ghost var es, k := inode.Extents(), c.Index();
    AtLeaf(c, c.pos);
    SplitKeeps(es, k, b);
    forall x ensures LongAt(Replaced(es, k, [es[k].Head(b), es[k].Tail(b)]), x) == (LongAt(es, x) && x != es[k].block) {
      LongCut(es, k, b, x);
    }
    ForceSplitExtentAt(inode, c, b);
    ghost var s := inode.Extents();
    assert s[k] == es[k].Head(b) && s[k + 1] == es[k].Tail(b);
    CoverHit(s, k + 1, b);
    CoverHit(s, k, es[k].block);
  }

  /** What one round of the loop did. */
  datatype Round = Finish | Bug | Skip(len: int) | Split | Swap(len: int)

  /** Where the first extent after block `x` begins, or EXT_MAX_BLOCKS. */
  ghost function BeginAfter(es: seq<Extent>, x: int): int {
    if es == [] then EXT_MAX_BLOCKS else if es[0].block > x then es[0].block else BeginAfter(es[1..], x)
  }

  lemma {:induction false} BeginAfterNearest(es: seq<Extent>, i: int, x: int)
    requires Sorted(es) && Nearest(es, i, x)
    ensures BeginAfter(es, x) == if es[i].block > x then es[i].block
                                 else if i + 1 < |es| then es[i + 1].block else EXT_MAX_BLOCKS
  {
    assert i > 0 ==> Ordered(es, 0, i) && ValidAt(es, 0);
    if es[0].block <= x {
      SortedDrop(es, 1);
      if i > 0 {
        BeginAfterNearest(es[1..], i - 1, x);
      } else {
        assert |es| > 1 ==> es[1..][0] == es[1] && BeginAfter(es[1..], x) == es[1].block;
      }
    }
  }

  /** A block mapped behind one that is not is where an extent begins. */
  lemma {:induction false} BeginsBy(es: seq<Extent>, x: int, y: int)
    requires Sorted(es) && x < y && Mapped(es, y) && !Mapped(es, y - 1)
    ensures BeginAfter(es, x) <= y < EXT_MAX_BLOCKS
  {
    assert ValidAt(es, 0);
    if es[0].Covers(y) {
      LookupHit(es, 0, y);
      assert !es[0].Covers(y - 1);
    } else {
      SortedDrop(es, 1);
      assert Lookup(es, y) == Lookup(es[1..], y);
      assert !es[0].Covers(y - 1);
      BeginsBy(es[1..], x, y);
      if es[0].block > x {
        SortedAll(es);
      }
    }
  }

  /** One of the cursors is in a hole: both move on to where the later of the two next extents
      begins, if both files have one. */
  ghost predicate JumpOk(a: seq<Extent>, b: seq<Extent>, l1: int, l2: int, n: int, r: Round) {
    var n1, n2 := BeginAfter(a, l1), BeginAfter(b, l2);
    && !(Mapped(a, l1) && Mapped(b, l2))
    && if n1 == EXT_MAX_BLOCKS || n2 == EXT_MAX_BLOCKS then r == Finish
       else r == Skip(Least(n, if n1 - l1 < n2 - l2 then n2 - l2 else n1 - l1))
  }

  function Least(x: int, y: int): int {
    if x < y then x else y
  }

  ghost predicate RoundOk(a: seq<Extent>, b: seq<Extent>, a': seq<Extent>, b': seq<Extent>,
                          l1: int, l2: int, n: int, u: bool, r: Round) {
    match r
    case Finish => a' == a && b' == b && JumpOk(a, b, l1, l2, n, r)
    case Skip(len) => a' == a && b' == b && 0 < len <= n && JumpOk(a, b, l1, l2, n, r)
    case Bug => a' == a && b' == b && Pair(a, b, l1, l2, 0)
    case Split =>
      && Pair(a, b, l1, l2, 0) && Same(a, a') && Same(b, b')
      && Ragged(a', l1, b', l2, n) < Ragged(a, l1, b, l2, n)
    case Swap(len) => 0 < len <= n && Swapped(a, b, a', b', l1, l2, Interval(0, len), u)
  }

  /** A long pair at the cursors stops a round that marks unwritten; a round never passes
      over another, whether by an exchange or by a jump over a hole, and never makes or breaks
      one further on. */
  ghost predicate LongRound(a: seq<Extent>, b: seq<Extent>, a': seq<Extent>, b': seq<Extent>,
                            l1: int, l2: int, n: int, u: bool, r: Round) {
    match r
    case Finish => forall k :: k >= 0 ==> !LongPair(a, b, l1, l2, k)
    case Skip(len) => a' == a && b' == b && forall k :: 0 <= k < len ==> !LongPair(a, b, l1, l2, k)
    case Bug => u && n >= EXT_INIT_MAX_LEN && LongPair(a, b, l1, l2, 0)
    case Split => SameLongPairs(a, b, a', b', l1, l2, 0, n)
    case Swap(len) =>
      && SameLongPairs(a, b, a', b', l1, l2, len, n)
      && (forall k :: (if u then 0 else 1) <= k < len ==> !LongPair(a, b, l1, l2, k))
  }

  ghost predicate At(inode: Inode, c: Cursor, b: int)
    reads inode
  {
    && c.Ok() && c.pos >= 0 && |c.path| == inode.depth && inode.root == Fill(c.path, c.leaf)
    && Nearest(inode.Extents(), c.Index(), b)
    && inode.Extents()[c.Index()] == c.leaf.items[c.pos] && c.leaf.items[c.pos].Valid()
  }

  /** After the block searched for, extents begin with the one found or with the one after it. */
  lemma {:induction false} NoStartBetween(es: seq<Extent>, i: nat, b: int)
    requires Sorted(es) && Nearest(es, i, b)
    ensures forall x :: x > b && LongAt(es, x) ==>
              (es[i].block > b ==> es[i].block <= x)
              && (es[i].block <= b ==> i + 1 < |es| && es[i + 1].block <= x) && x < EXT_MAX_BLOCKS
  {
    SortedAll(es);
  }

  /** Where the next extent begins, for a cursor that may be in front of the extent found. */
  method NextStart(inode: Inode, c: Cursor, b: int) returns (next: int)
    requires inode.Valid() && At(inode, c, b)
    ensures next == BeginAfter(inode.Extents(), b) && (next > b || next == EXT_MAX_BLOCKS)
    ensures forall x :: x > b && LongAt(inode.Extents(), x) ==> next <= x < EXT_MAX_BLOCKS
  {
    NoStartBetween(inode.Extents(), c.Index(), b);
    BeginAfterNearest(inode.Extents(), c.Index(), b);
    next := NextAllocatedBlock(inode.g, inode.root, inode.depth, c);
    if c.leaf.items[c.pos].block > b {
      next := c.leaf.items[c.pos].block;
    }
  }

  lemma {:induction false} HoleHasNone(a: seq<Extent>, b: seq<Extent>, l1: int, l2: int)
    requires Sorted(a) && Sorted(b) && !(Mapped(a, l1) && Mapped(b, l2))
    ensures !LongPair(a, b, l1, l2, 0)
  {
    if LongPair(a, b, l1, l2, 0) {
      LongIsMapped(a, l1);
      LongIsMapped(b, l2);
      assert false;
    }
  }

  /** One of the two cursors is in a hole. */
  method SwapHole(inode1: Inode, inode2: Inode, c1: Cursor, c2: Cursor, l1: int, l2: int, n: int, ghost u: bool)
    returns (r: Round)
    requires inode1.Valid() && inode2.Valid() && At(inode1, c1, l1) && At(inode2, c2, l2) && n > 0
    requires !c1.leaf.items[c1.pos].Covers(l1) || !c2.leaf.items[c2.pos].Covers(l2)
    ensures RoundOk(inode1.Extents(), inode2.Extents(), inode1.Extents(), inode2.Extents(), l1, l2, n, u, r)
    ensures r.Finish? || r.Skip?
    ensures LongRound(inode1.Extents(), inode2.Extents(), inode1.Extents(), inode2.Extents(), l1, l2, n, u, r)
  {
    ghost var a, b := inode1.Extents(), inode2.Extents();
    LookupNearest(a, c1.Index(), l1);
    LookupNearest(b, c2.Index(), l2);
    HoleHasNone(a, b, l1, l2);
    var next1 := NextStart(inode1, c1, l1);
    var next2 := NextStart(inode2, c2, l2);
    if next1 == EXT_MAX_BLOCKS || next2 == EXT_MAX_BLOCKS {
      return Finish;
    }
    var len := next1 - l1;
    if len < next2 - l2 {
      len := next2 - l2;
    }
    if len > n {
      len := n;
    }
    assert JumpOk(a, b, l1, l2, n, Skip(len));
    return Skip(len);
  }

  /** Cuts whichever of the two extents begins before its cursor. */
  method SwapLeft(inode1: Inode, inode2: Inode, c1: Cursor, c2: Cursor, l1: int, l2: int, n: int, ghost u: bool)
    returns (r: Round)
    requires inode1 != inode2 && inode1.Valid() && inode2.Valid() && At(inode1, c1, l1) && At(inode2, c2, l2)
    requires c1.leaf.items[c1.pos].Covers(l1) && c2.leaf.items[c2.pos].Covers(l2)
    requires c1.leaf.items[c1.pos].block < l1 || c2.leaf.items[c2.pos].block < l2
    modifies inode1, inode2
    ensures inode1.Valid() && inode2.Valid()
    ensures r.Split?
    ensures RoundOk(old(inode1.Extents()), old(inode2.Extents()), inode1.Extents(), inode2.Extents(), l1, l2, n, u, r)
    ensures LongRound(old(inode1.Extents()), old(inode2.Extents()), inode1.Extents(), inode2.Extents(), l1, l2, n, u, r)
  {
    CoverHit(inode1.Extents(), c1.Index(), l1);
    CoverHit(inode2.Extents(), c2.Index(), l2);
    LookupHit(inode1.Extents(), c1.Index(), l1);
    LookupHit(inode2.Extents(), c2.Index(), l2);
    if c1.leaf.items[c1.pos].block < l1 {
      CutAt(inode1, c1, l1);
    }
    if c2.leaf.items[c2.pos].block < l2 {
      CutAt(inode2, c2, l2);
    }
    return Split;
  }

  /** Cuts whichever of the two extents goes on beyond the common stretch. */
  method SwapRight(inode1: Inode, inode2: Inode, c1: Cursor, c2: Cursor, l1: int, l2: int, n: int, len: int,
                   ghost u: bool)
    returns (r: Round)
    requires inode1 != inode2 && inode1.Valid() && inode2.Valid() && At(inode1, c1, l1) && At(inode2, c2, l2)
    requires c1.leaf.items[c1.pos].block == l1 && c2.leaf.items[c2.pos].block == l2 && 0 < len <= n
    requires len <= c1.leaf.items[c1.pos].len && len <= c2.leaf.items[c2.pos].len
    requires len == n || len == c1.leaf.items[c1.pos].len || len == c2.leaf.items[c2.pos].len
    requires len != c1.leaf.items[c1.pos].len || len != c2.leaf.items[c2.pos].len
    modifies inode1, inode2
    ensures inode1.Valid() && inode2.Valid()
    ensures r.Split?
    ensures RoundOk(old(inode1.Extents()), old(inode2.Extents()), inode1.Extents(), inode2.Extents(), l1, l2, n, u, r)
    ensures LongRound(old(inode1.Extents()), old(inode2.Extents()), inode1.Extents(), inode2.Extents(), l1, l2, n, u, r)
  {
    CoverHit(inode1.Extents(), c1.Index(), l1);
    CoverHit(inode2.Extents(), c2.Index(), l2);
    LookupHit(inode1.Extents(), c1.Index(), l1);
    LookupHit(inode2.Extents(), c2.Index(), l2);
    LongStart(inode1.Extents(), c1.Index());
    LongStart(inode2.Extents(), c2.Index());
    if len != c1.leaf.items[c1.pos].len {
      CutAt(inode1, c1, l1 + len);
    }
    if len != c2.leaf.items[c2.pos].len {
      CutAt(inode2, c2, l2 + len);
    }
    return Split;
  }

  /** The two extents cover the same stretch: exchange their addresses. */
  method SwapNow(inode1: Inode, inode2: Inode, c1: Cursor, c2: Cursor, l1: int, l2: int, n: int, u: bool,
                 creditsOk: bool)
    returns (r: Round)
    requires inode1 != inode2 && inode1.Valid() && inode2.Valid() && At(inode1, c1, l1) && At(inode2, c2, l2)
    requires c1.leaf.items[c1.pos].block == l1 && c2.leaf.items[c2.pos].block == l2
    requires c1.leaf.items[c1.pos].len == c2.leaf.items[c2.pos].len <= n
    modifies inode1, inode2
    ensures inode1.Valid() && inode2.Valid() && (r.Bug? || r.Swap?)
    ensures RoundOk(old(inode1.Extents()), old(inode2.Extents()), inode1.Extents(), inode2.Extents(), l1, l2, n, u, r)
    ensures LongRound(old(inode1.Extents()), old(inode2.Extents()), inode1.Extents(), inode2.Extents(), l1, l2, n, u, r)
  {
    var e1, e2 := c1.leaf.items[c1.pos], c2.leaf.items[c2.pos];
    ghost var a, b := inode1.Extents(), inode2.Extents();
    LookupHit(a, c1.Index(), l1);
    LookupHit(b, c2.Index(), l2);
    LongStart(a, c1.Index());
    LongStart(b, c2.Index());
    if u && e1.len == EXT_INIT_MAX_LEN {
      return Bug;
    }
    forall k | 0 < k < e1.len ensures !LongPair(a, b, l1, l2, k) {
      NoStartInside(a, c1.Index(), l1 + k);
    }
    var _ := Rewrite(inode2, c2, e2.(pblk := e1.pblk, unwritten := u), creditsOk);
    var _ := Rewrite(inode1, c1, e1.(pblk := e2.pblk), creditsOk);
    StoreBoth(a, c1.Index(), b, c2.Index(), e1.(pblk := e2.pblk), e2.(pblk := e1.pblk, unwritten := u),
              inode1.Extents(), inode2.Extents(), u);
    return Swap(e1.len);
  }

  /** One round of the loop. The two extents exchanged have equal length. */
  method SwapRound(inode1: Inode, inode2: Inode, l1: int, l2: int, n: int, u: bool, creditsOk: bool) returns (r: Round)
    requires inode1 != inode2 && inode1.Valid() && inode2.Valid() && n > 0
    modifies inode1, inode2
    ensures inode1.Valid() && inode2.Valid()
    ensures RoundOk(old(inode1.Extents()), old(inode2.Extents()), inode1.Extents(), inode2.Extents(), l1, l2, n, u, r)
    ensures LongRound(old(inode1.Extents()), old(inode2.Extents()), inode1.Extents(), inode2.Extents(), l1, l2, n, u, r)
  {
    var c1 := Search(inode1, l1);
    var c2 := Search(inode2, l2);
    if c1.pos == -1 || c2.pos == -1 {
      return Finish;
    }
    var e1, e2 := c1.leaf.items[c1.pos], c2.leaf.items[c2.pos];
    if !e1.Covers(l1) || !e2.Covers(l2) {
      r := SwapHole(inode1, inode2, c1, c2, l1, l2, n, u);
      return;
    }
    if e1.block < l1 || e2.block < l2 {
      r := SwapLeft(inode1, inode2, c1, c2, l1, l2, n, u);
      return;
    }
    var len := n;
    if len > e1.End() - l1 {
      len := e1.End() - l1;
    }
    if len > e2.End() - l2 {
      len := e2.End() - l2;
    }
    if len != e1.len || len != e2.len {
      r := SwapRight(inode1, inode2, c1, c2, l1, l2, n, len, u);
      return;
    }
    assert e2.len == e1.len;
    r := SwapNow(inode1, inode2, c1, c2, l1, l2, n, u, creditsOk);
  }

  /** The range begins at offset p, or both files have a hole right before it. */
  ghost predicate Opens(a: seq<Extent>, b: seq<Extent>, l1: int, l2: int, p: int) {
    p == 0 || (!Mapped(a, l1 + p - 1) && !Mapped(b, l2 + p - 1))
  }

  ghost predicate MappedFrom(a: seq<Extent>, b: seq<Extent>, l1: int, l2: int, p: int, q: int) {
    forall k :: p <= k < q ==> Pair(a, b, l1, l2, k)
  }

  /** Up to offset m: where the range begins, and wherever both files come out of a hole
      together, everything is in `s` up to the next hole in either file. */
  ghost predicate NoneMissed(a: seq<Extent>, b: seq<Extent>, l1: int, l2: int, m: nat, s: set<int>) {
    forall p: nat, q: nat :: p <= q <= m && Opens(a, b, l1, l2, p) && MappedFrom(a, b, l1, l2, p, q) ==>
      Interval(p, q - p) <= s
  }

  lemma {:induction false} SwappedDomain(a0: seq<Extent>, b0: seq<Extent>, a: seq<Extent>, b: seq<Extent>, l1: int,
                                         l2: int, s: set<int>, u: bool, k: int)
    requires Swapped(a0, b0, a, b, l1, l2, s, u)
    ensures Pair(a, b, l1, l2, k) == Pair(a0, b0, l1, l2, k)
  {
  }

  /** Exchanging the same positions twice restores the first file, and the second up to state. */
  lemma {:induction false} SwapTwiceRestores(a0: seq<Extent>, b0: seq<Extent>, a: seq<Extent>, b: seq<Extent>,
                                             a2: seq<Extent>, b2: seq<Extent>, l1: int, l2: int, s: set<int>, u: bool,
                                             v: bool, k: int)
    requires Swapped(a0, b0, a, b, l1, l2, s, u) && Swapped(a, b, a2, b2, l1, l2, s, v)
    ensures Lookup(a2, l1 + k) == Lookup(a0, l1 + k)
    ensures Mapped(b2, l2 + k) == Mapped(b0, l2 + k)
    ensures Mapped(b0, l2 + k) ==> Lookup(b2, l2 + k).value.pblk == Lookup(b0, l2 + k).value.pblk
  {
    assert l2 + (l1 + k - l1) == l2 + k && l1 + (l2 + k - l2) == l1 + k;
    assert k in s ==> Pair(a0, b0, l1, l2, k);
  }

  /** How far a round moves the cursors. */
  function Advance(r: Round, n: int): int {
    match r
    case Finish => n
    case Bug => 0
    case Skip(len) => len
    case Split => 0
    case Swap(len) => len
  }

  function Gain(r: Round, p: int): set<int> {
    if r.Swap? && r.len >= 0 then Interval(p, r.len) else {}
  }

  /** A jump does not pass over a position where both files come out of a hole. */
  lemma {:induction false} JumpStops(a0: seq<Extent>, b0: seq<Extent>, a: seq<Extent>, b: seq<Extent>, l1: int,
                                     l2: int, c1: int, c2: int, s: set<int>, p: nat, n: nat, u: bool, r: Round,
                                     x: nat)
    requires Sorted(a) && Sorted(b) && Swapped(a0, b0, a, b, l1, l2, s, u)
    requires c1 == l1 + p && c2 == l2 + p && JumpOk(a, b, c1, c2, n, r)
    requires p < x && Opens(a0, b0, l1, l2, x) && Pair(a0, b0, l1, l2, x)
    ensures p + Advance(r, n) <= x && r.Skip?
  {
    assert Mapped(a, l1 + x) && !Mapped(a, l1 + x - 1) && Mapped(b, l2 + x) && !Mapped(b, l2 + x - 1);
    BeginsBy(a, c1, l1 + x);
    BeginsBy(b, c2, l2 + x);
  }

  lemma {:induction false} NoneMissedRound(a0: seq<Extent>, b0: seq<Extent>, a: seq<Extent>, b: seq<Extent>, l1: int,
                                           l2: int, c1: int, c2: int, s: set<int>, p: nat, n: nat, u: bool, r: Round)
    requires Sorted(a) && Sorted(b) && Swapped(a0, b0, a, b, l1, l2, s, u)
    requires NoneMissed(a0, b0, l1, l2, p, s) && (r.Swap? ==> 0 <= r.len) && 0 <= Advance(r, n)
    requires c1 == l1 + p && c2 == l2 + p && (r.Finish? || r.Skip? ==> JumpOk(a, b, c1, c2, n, r))
    ensures NoneMissed(a0, b0, l1, l2, p + Advance(r, n), s + Gain(r, p))
  {
    forall x: nat, q: nat | x <= q <= p + Advance(r, n) && Opens(a0, b0, l1, l2, x) && MappedFrom(a0, b0, l1, l2, x, q)
      ensures Interval(x, q - x) <= s + Gain(r, p)
    {
      if q > p && x < q {
        MissedNot(a0, b0, a, b, l1, l2, c1, c2, s, p, n, u, r, x, q);
      } else if q <= p {
        assert Interval(x, q - x) <= s;
      }
    }
  }

  lemma {:induction false} MissedNot(a0: seq<Extent>, b0: seq<Extent>, a: seq<Extent>, b: seq<Extent>, l1: int,
                                     l2: int, c1: int, c2: int, s: set<int>, p: nat, n: nat, u: bool, r: Round,
                                     x: nat, q: nat)
    requires Sorted(a) && Sorted(b) && Swapped(a0, b0, a, b, l1, l2, s, u)
    requires NoneMissed(a0, b0, l1, l2, p, s) && (r.Swap? ==> 0 <= r.len) && 0 <= Advance(r, n)
    requires c1 == l1 + p && c2 == l2 + p && (r.Finish? || r.Skip? ==> JumpOk(a, b, c1, c2, n, r))
    requires x < q && p < q <= p + Advance(r, n) && Opens(a0, b0, l1, l2, x) && MappedFrom(a0, b0, l1, l2, x, q)
    ensures Interval(x, q - x) <= s + Gain(r, p)
  {
    assert Pair(a0, b0, l1, l2, x);
    if r.Finish? || r.Skip? {
      if x <= p {
        SwappedDomain(a0, b0, a, b, l1, l2, s, u, p);
      } else {
        JumpStops(a0, b0, a, b, l1, l2, c1, c2, s, p, n, u, r, x);
      }
      assert false;
    }
    if x <= p {
      assert MappedFrom(a0, b0, l1, l2, x, p);
      assert Interval(x, p - x) <= s;
    }
  }

  lemma {:induction false} SwappedRound(a0: seq<Extent>, b0: seq<Extent>, a: seq<Extent>, b: seq<Extent>,
                                        a': seq<Extent>, b': seq<Extent>, l1: int, l2: int, c1: int, c2: int,
                                        s: set<int>, p: nat, n: nat, u: bool, r: Round)
    requires s <= Interval(0, p) && Swapped(a0, b0, a, b, l1, l2, s, u)
    requires c1 == l1 + p && c2 == l2 + p && RoundOk(a, b, a', b', c1, c2, n, u, r)
    ensures Swapped(a0, b0, a', b', l1, l2, s + Gain(r, p), u)
  {
    if r.Swap? {
      SwappedMore(a0, b0, a, b, a', b', l1, l2, c1, c2, s, p, r.len, u);
      assert Gain(r, p) == Interval(p, r.len);
    } else {
      assert s + Gain(r, p) == s;
      assert Same(a, a') && Same(b, b');
      SwappedSame(a0, b0, a, b, a', b', l1, l2, s, u);
    }
  }

  lemma {:induction false} GainSize(r: Round, p: nat, n: nat, s: set<int>)
    requires s <= Interval(0, p) && 0 <= Advance(r, n) && (r.Swap? ==> 0 <= r.len)
    ensures s + Gain(r, p) <= Interval(0, p + Advance(r, n))
    ensures |s + Gain(r, p)| == |s| + (if r.Swap? then r.len else 0)
  {
    assert s * Gain(r, p) == {};
    assert !r.Swap? ==> s + Gain(r, p) == s;
  }

  /** There is no long pair before offset `p`. */
  ghost predicate NoLongBefore(a: seq<Extent>, b: seq<Extent>, l1: int, l2: int, p: int, count: int) {
    forall k :: 0 <= k < p && k + EXT_INIT_MAX_LEN <= count ==> !LongPair(a, b, l1, l2, k)
  }

  ghost predicate HasLongPair(a: seq<Extent>, b: seq<Extent>, l1: int, l2: int, count: int) {
    exists k :: 0 <= k <= count - EXT_INIT_MAX_LEN && LongPair(a, b, l1, l2, k)
  }

  lemma {:induction false} SameLongRound(a0: seq<Extent>, b0: seq<Extent>, a: seq<Extent>, b: seq<Extent>,
                                         a': seq<Extent>, b': seq<Extent>, l1: int, l2: int, c1: int, c2: int, p: nat,
                                         n: nat, u: bool, r: Round)
    requires SameLongPairs(a0, b0, a, b, l1, l2, p, p + n)
    requires c1 == l1 + p && c2 == l2 + p && LongRound(a, b, a', b', c1, c2, n, u, r) && 0 <= Advance(r, n)
    requires !r.Bug?
    ensures SameLongPairs(a0, b0, a', b', l1, l2, p + Advance(r, n), p + n)
  {
    forall k | p + Advance(r, n) <= k && k + EXT_INIT_MAX_LEN <= p + n
      ensures LongPair(a0, b0, l1, l2, k) == LongPair(a', b', l1, l2, k)
    {
      assert LongPair(a, b, c1, c2, k - p) == LongPair(a, b, l1, l2, k);
      assert LongPair(a', b', c1, c2, k - p) == LongPair(a', b', l1, l2, k);
    }
  }

  lemma {:induction false} LongReached(a0: seq<Extent>, b0: seq<Extent>, a: seq<Extent>, b: seq<Extent>, l1: int,
                                       l2: int, c1: int, c2: int, p: nat, n: nat)
    requires SameLongPairs(a0, b0, a, b, l1, l2, p, p + n) && n >= EXT_INIT_MAX_LEN
    requires c1 == l1 + p && c2 == l2 + p && LongPair(a, b, c1, c2, 0)
    ensures LongPair(a0, b0, l1, l2, p)
  {
    assert LongPair(a, b, l1, l2, p);
  }

  lemma {:induction false} NoLongRound(a0: seq<Extent>, b0: seq<Extent>, a: seq<Extent>, b: seq<Extent>,
                                       a': seq<Extent>, b': seq<Extent>, l1: int, l2: int, c1: int, c2: int, p: nat,
                                       n: nat, r: Round)
    requires NoLongBefore(a0, b0, l1, l2, p, p + n) && !r.Bug?
    requires SameLongPairs(a0, b0, a, b, l1, l2, p, p + n)
    requires c1 == l1 + p && c2 == l2 + p && LongRound(a, b, a', b', c1, c2, n, true, r) && 0 <= Advance(r, n)
    ensures NoLongBefore(a0, b0, l1, l2, p + Advance(r, n), p + n)
  {
    forall k | p <= k < p + Advance(r, n) && k + EXT_INIT_MAX_LEN <= p + n ensures !LongPair(a0, b0, l1, l2, k) {
      assert LongPair(a, b, c1, c2, k - p) == LongPair(a, b, l1, l2, k);
    }
  }

  /** What was asked for: the two files at the beginning, where the ranges start, and the
      state to leave the second one in. */
  datatype Job = Job(a0: seq<Extent>, b0: seq<Extent>, l1: int, l2: int, u: bool)

  /** With the cursors at offset `p` and `n` positions to go, `s` are the offsets exchanged. */
  ghost predicate Progress(job: Job, a: seq<Extent>, b: seq<Extent>, p: nat, n: nat, s: set<int>) {
    match job
    case Job(a0, b0, l1, l2, u) =>
      && Swapped(a0, b0, a, b, l1, l2, s, u) && s <= Interval(0, p) && NoneMissed(a0, b0, l1, l2, p, s)
      && SameLongPairs(a0, b0, a, b, l1, l2, p, p + n) && (u ==> NoLongBefore(a0, b0, l1, l2, p, p + n))
  }

  lemma {:induction false} ProgressStart(job: Job, n: nat)
    ensures Progress(job, job.a0, job.b0, 0, n, {})
  {
  }

  lemma {:induction false} ProgressRound(a0: seq<Extent>, b0: seq<Extent>, a: seq<Extent>, b: seq<Extent>,
                                         a': seq<Extent>, b': seq<Extent>, l1: int, l2: int, c1: int, c2: int, p: nat,
                                         n: nat, u: bool, s: set<int>, r: Round)
    requires Sorted(a) && Sorted(b) && n > 0 && !r.Bug? && Progress(Job(a0, b0, l1, l2, u), a, b, p, n, s)
    requires c1 == l1 + p && c2 == l2 + p && RoundOk(a, b, a', b', c1, c2, n, u, r)
             && LongRound(a, b, a', b', c1, c2, n, u, r)
    ensures 0 <= Advance(r, n) <= n
    ensures Progress(Job(a0, b0, l1, l2, u), a', b', p + Advance(r, n), n - Advance(r, n), s + Gain(r, p))
    ensures |s + Gain(r, p)| == |s| + (if r.Swap? then r.len else 0)
  {
    NoneMissedRound(a0, b0, a, b, l1, l2, c1, c2, s, p, n, u, r);
    SwappedRound(a0, b0, a, b, a', b', l1, l2, c1, c2, s, p, n, u, r);
    GainSize(r, p, n, s);
    SameLongRound(a0, b0, a, b, a', b', l1, l2, c1, c2, p, n, u, r);
    if u {
      NoLongRound(a0, b0, a, b, a', b', l1, l2, c1, c2, p, n, r);
    }
  }

  /** Two files of one extent of the greatest length each: the whole range is mapped, and
      an exchange that marks unwritten stops at once. */
  lemma {:induction false} LongFilesStop(p1: nat, p2: nat)
    ensures var a, b := [Extent(0, EXT_INIT_MAX_LEN, p1, false)], [Extent(0, EXT_INIT_MAX_LEN, p2, false)];
            && Sorted(a) && Sorted(b)
            && MappedFrom(a, b, 0, 0, 0, EXT_INIT_MAX_LEN) && HasLongPair(a, b, 0, 0, EXT_INIT_MAX_LEN)
  {
    var a, b := [Extent(0, EXT_INIT_MAX_LEN, p1, false)], [Extent(0, EXT_INIT_MAX_LEN, p2, false)];
    assert LongPair(a, b, 0, 0, 0) by {
      assert a[0].block == 0 && b[0].block == 0;
    }
  }

  /** One round, seen from the beginning of the run. */
  method SwapOnce(inode1: Inode, inode2: Inode, l1: int, l2: int, n: int, u: bool, creditsOk: bool,
                  ghost job: Job, ghost p: nat, ghost s: set<int>)
    returns (r: Round)
    requires inode1 != inode2 && inode1.Valid() && inode2.Valid() && n > 0
    requires Progress(job, inode1.Extents(), inode2.Extents(), p, n, s)
    requires l1 == job.l1 + p && l2 == job.l2 + p && u == job.u
    modifies inode1, inode2
    ensures inode1.Valid() && inode2.Valid() && 0 <= Advance(r, n) <= n
    ensures Progress(job, inode1.Extents(), inode2.Extents(), p + Advance(r, n), n - Advance(r, n), s + Gain(r, p))
    ensures |s + Gain(r, p)| == |s| + (if r.Swap? then r.len else 0)
    ensures r.Bug? ==> u && n >= EXT_INIT_MAX_LEN && LongPair(job.a0, job.b0, job.l1, job.l2, p)
    ensures r.Skip? || r.Swap? ==> r.len > 0
    ensures r.Split? ==> Ragged(inode1.Extents(), l1, inode2.Extents(), l2, n)
                         < Ragged(old(inode1.Extents()), l1, old(inode2.Extents()), l2, n)
  {
    ghost var a, b := inode1.Extents(), inode2.Extents();
    r := SwapRound(inode1, inode2, l1, l2, n, u, creditsOk);
    if r.Bug? {
      LongReached(job.a0, job.b0, a, b, job.l1, job.l2, l1, l2, p, n);
      assert s + Gain(r, p) == s;
    } else {
      ProgressRound(job.a0, job.b0, a, b, inode1.Extents(), inode2.Extents(), job.l1, job.l2, l1, l2, p, n, u, s, r);
    }
  }

  /** The rounds of the loop. */
  method SwapRounds(inode1: Inode, inode2: Inode, lblk1: int, lblk2: int, count: nat, unwritten: bool, creditsOk: bool)
    returns (replaced: nat, bug: bool, ghost swapped: set<int>, ghost reached: nat)
    requires inode1 != inode2 && inode1.Valid() && inode2.Valid()
    modifies inode1, inode2
    ensures inode1.Valid() && inode2.Valid() && replaced == |swapped| && reached <= count
    ensures Progress(Job(old(inode1.Extents()), old(inode2.Extents()), lblk1, lblk2, unwritten),
                     inode1.Extents(), inode2.Extents(), reached, count - reached, swapped)
    ensures !bug ==> reached == count
    ensures bug ==> unwritten && reached + EXT_INIT_MAX_LEN <= count
                    && LongPair(old(inode1.Extents()), old(inode2.Extents()), lblk1, lblk2, reached)
  {
    ghost var job := Job(inode1.Extents(), inode2.Extents(), lblk1, lblk2, unwritten);
    var l1, l2, n := lblk1, lblk2, count;
    replaced, bug, swapped, reached := 0, false, {}, count;
    ghost var p: nat := 0;
    ghost var ragged := Ragged(inode1.Extents(), l1, inode2.Extents(), l2, n);
    ProgressStart(job, n);
    while n > 0
      invariant inode1.Valid() && inode2.Valid() && !bug && 0 <= n && p + n == count
      invariant l1 == lblk1 + p && l2 == lblk2 + p && replaced == |swapped|
      invariant Progress(job, inode1.Extents(), inode2.Extents(), p, n, swapped)
      invariant ragged == Ragged(inode1.Extents(), l1, inode2.Extents(), l2, n)
      decreases n, ragged
    {
      var r := SwapOnce(inode1, inode2, l1, l2, n, unwritten, creditsOk, job, p, swapped);
      if r.Bug? {
        bug, reached := true, p;
        return;
      }
      swapped, p := swapped + Gain(r, p), p + Advance(r, n);
      replaced := replaced + if r.Swap? then r.len else 0;
      if !r.Split? {
        l1, l2, n := l1 + Advance(r, n), l2 + Advance(r, n), n - Advance(r, n);
      }
      ragged := Ragged(inode1.Extents(), l1, inode2.Extents(), l2, n);
    }
  }

  /** Wherever a stretch mapped in both files begins behind a hole, the hole is in both. */
  ghost predicate HolesMatch(a: seq<Extent>, b: seq<Extent>, l1: int, l2: int, count: int) {
    forall k :: 0 < k < count && Pair(a, b, l1, l2, k) && !Pair(a, b, l1, l2, k - 1) ==> Opens(a, b, l1, l2, k)
  }

  /** Then the stretch around every position mapped in both begins where it is not missed. */
  lemma {:induction false} StretchOpens(a: seq<Extent>, b: seq<Extent>, l1: int, l2: int, count: int, k: nat)
    returns (p: nat)
    requires HolesMatch(a, b, l1, l2, count) && k < count && Pair(a, b, l1, l2, k)
    ensures p <= k && Opens(a, b, l1, l2, p) && MappedFrom(a, b, l1, l2, p, k + 1)
  {
    if k == 0 || !Pair(a, b, l1, l2, k - 1) {
      p := k;
    } else {
      p := StretchOpens(a, b, l1, l2, count, k - 1);
    }
  }

  lemma {:induction false} AllExchanged(a: seq<Extent>, b: seq<Extent>, l1: int, l2: int, count: nat, s: set<int>)
    requires HolesMatch(a, b, l1, l2, count) && NoneMissed(a, b, l1, l2, count, s)
    ensures forall k :: 0 <= k < count && Pair(a, b, l1, l2, k) ==> k in s
  {
    forall k | 0 <= k < count && Pair(a, b, l1, l2, k) ensures k in s {
      var p := StretchOpens(a, b, l1, l2, count, k);
      assert Interval(p, k + 1 - p) <= s;
    }
  }

  lemma {:induction false} HoleMeansJump(a: seq<Extent>, b: seq<Extent>, a': seq<Extent>, b': seq<Extent>, l1: int,
                                         l2: int, n: int, u: bool, r: Round)
    requires RoundOk(a, b, a', b', l1, l2, n, u, r) && !Pair(a, b, l1, l2, 0)
    ensures JumpOk(a, b, l1, l2, n, r)
  {
  }

  /** A hole of one file that faces an extent of the other: the jump goes to where the other file
      has its next extent, past ninety positions mapped in both. */
  lemma {:induction false} JumpPassesPairs(a': seq<Extent>, b': seq<Extent>, u: bool, r: Round)
    requires RoundOk([Extent(10, 100, 500, false)], [Extent(0, 100, 700, false), Extent(100, 10, 900, false)], a', b',
                     0, 0, 110, u, r)
    ensures r == Skip(100)
    ensures MappedFrom([Extent(10, 100, 500, false)], [Extent(0, 100, 700, false), Extent(100, 10, 900, false)],
                       0, 0, 10, 100)
  {
    var a, b := [Extent(10, 100, 500, false)], [Extent(0, 100, 700, false), Extent(100, 10, 900, false)];
    assert !Mapped(a, 0) by {
      assert a[1..] == [];
    }
    HoleMeansJump(a, b, a', b', 0, 0, 110, u, r);
    assert BeginAfter(a, 0) == 10 && BeginAfter(b, 0) == 100 by {
      assert b[1..] == [Extent(100, 10, 900, false)];
    }
    forall k | 10 <= k < 100 ensures Pair(a, b, 0, 0, k) {
      assert a[0].Covers(0 + k) && b[0].Covers(0 + k);
    }
  }

  /** Each position pair either has its two addresses exchanged, the first file keeping its
      state and the second taking state `unwritten`, or is left alone; `swapped` are those
      exchanged, and the result is their number. From the beginning of the range, and from
      wherever both files come out of a hole together, all pairs up to the next hole in either
      file are exchanged, so that none is left out if holes only end together; unless marking an
      extent of 2^15 blocks unwritten trips the BUG in ext4_ext_mark_unwritten: then all goes as
      said up to offset `reached`, where both files began with such an extent. That happens
      exactly when there is such a pair, for no jump over a hole passes over one. */
  method SwapExtents(inode1: Inode, inode2: Inode, lblk1: int, lblk2: int, count: nat, unwritten: bool, creditsOk: bool)
    returns (replaced: nat, bug: bool, ghost swapped: set<int>, ghost reached: nat)
    requires inode1 != inode2 && inode1.Valid() && inode2.Valid()
    requires 0 <= lblk1 && 0 <= lblk2 && lblk1 + count <= U32 && lblk2 + count <= U32
    modifies inode1, inode2
    ensures inode1.Valid() && inode2.Valid()
    ensures Swapped(old(inode1.Extents()), old(inode2.Extents()), inode1.Extents(), inode2.Extents(),
                    lblk1, lblk2, swapped, unwritten)
    ensures swapped <= Interval(0, reached) && replaced == |swapped| && reached <= count
    ensures NoneMissed(old(inode1.Extents()), old(inode2.Extents()), lblk1, lblk2, reached, swapped)
    ensures !bug ==> reached == count
    ensures !bug && HolesMatch(old(inode1.Extents()), old(inode2.Extents()), lblk1, lblk2, count) ==>
              forall k :: 0 <= k < count && Pair(old(inode1.Extents()), old(inode2.Extents()), lblk1, lblk2, k) ==>
                k in swapped
    ensures bug ==> unwritten && reached + EXT_INIT_MAX_LEN <= count
                    && LongPair(old(inode1.Extents()), old(inode2.Extents()), lblk1, lblk2, reached)
    ensures bug <==> unwritten && HasLongPair(old(inode1.Extents()), old(inode2.Extents()), lblk1, lblk2, count)
  {
    ghost var a0, b0 := inode1.Extents(), inode2.Extents();
    replaced, bug, swapped, reached := SwapRounds(inode1, inode2, lblk1, lblk2, count, unwritten, creditsOk);
    if !bug && HolesMatch(a0, b0, lblk1, lblk2, count) {
      AllExchanged(a0, b0, lblk1, lblk2, count, swapped);
    }
  }
}
