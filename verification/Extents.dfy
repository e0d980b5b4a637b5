/**
 Extents and what a sequence of them means: a partial map from logical block to
 physical block and written/unwritten state.
 */
module Extents {

  const U32: int := 0x1_0000_0000
  const EXT_MAX_BLOCKS: int := 0xffff_ffff
  const EXT_INIT_MAX_LEN: int := 0x8000
  const EXT_UNWRITTEN_MAX_LEN: int := 0x7fff

  datatype Option<+T> = None | Some(value: T)

  /** Where a logical block lives, and whether its data counts as zeroes. */
  datatype Mapping = Mapping(pblk: int, unwritten: bool)

  datatype Extent = Extent(block: int, len: int, pblk: int, unwritten: bool) {
    function End(): int {
      block + len
    }

    predicate Covers(b: int) {
      block <= b < End()
    }

    predicate Valid() {
      && 0 <= block && 0 < len && 0 <= pblk
      && len <= (if unwritten then EXT_UNWRITTEN_MAX_LEN else EXT_INIT_MAX_LEN)
      && End() <= EXT_MAX_BLOCKS
    }

    function At(b: int): Mapping {
      Mapping(pblk + (b - block), unwritten)
    }

    /** The part of the extent before block `b`. */
    function Head(b: int): Extent {
      this.(len := b - block)
    }

    /** The part of the extent from block `b` on. */
    function Tail(b: int): Extent {
      Extent(b, End() - b, pblk + (b - block), unwritten)
    }
  }

  // ------------------------------------------------- the 16-bit length field

  /** `ee_len` as stored: unwritten extents carry the top bit. */
  function PackLen(len: int, unwritten: bool): int {
    if unwritten then len + EXT_INIT_MAX_LEN else len
  }

  function ActualLen(raw: int): int {
    if raw <= EXT_INIT_MAX_LEN then raw else raw - EXT_INIT_MAX_LEN
  }

  predicate IsUnwritten(raw: int) {
    raw > EXT_INIT_MAX_LEN
  }

  /** A length field is read back as written exactly when the extent is within its limit;
      one block more and a written extent reads as unwritten, or the field overflows. */
  lemma {:induction false} PackedLenMeansSame(len: int, unwritten: bool)
    requires 0 < len
    ensures (&& ActualLen(PackLen(len, unwritten)) == len
             && IsUnwritten(PackLen(len, unwritten)) == unwritten
             && PackLen(len, unwritten) < 0x1_0000)
            <==> len <= (if unwritten then EXT_UNWRITTEN_MAX_LEN else EXT_INIT_MAX_LEN)
  {
  }

  // ------------------------------------------------------- sorted sequences

  /** The extent at `i` ends before the one at `j` begins. */
  predicate Ordered(es: seq<Extent>, i: int, j: int)
    requires 0 <= i < |es| && 0 <= j < |es|
  {
    es[i].End() <= es[j].block
  }

  predicate ValidAt(es: seq<Extent>, i: int)
    requires 0 <= i < |es|
  {
    es[i].Valid()
  }

  /** In order, disjoint, each within its limits. */
  ghost predicate Sorted(es: seq<Extent>) {
    && (forall i :: 0 <= i < |es| ==> ValidAt(es, i))
    && (forall i, j :: 0 <= i < j < |es| ==> Ordered(es, i, j))
  }

  lemma {:induction false} SortedAll(es: seq<Extent>)
    requires Sorted(es)
    ensures forall i :: 0 <= i < |es| ==> es[i].Valid()
    ensures forall i, j :: 0 <= i < j < |es| ==> es[i].End() <= es[j].block
  {
    forall i | 0 <= i < |es| ensures es[i].Valid() {
      assert ValidAt(es, i);
    }
    forall i, j | 0 <= i < j < |es| ensures es[i].End() <= es[j].block {
      assert Ordered(es, i, j);
    }
  }

  lemma {:induction false} SortedIntro(es: seq<Extent>)
    requires forall i :: 0 <= i < |es| ==> es[i].Valid()
    requires forall i, j :: 0 <= i < j < |es| ==> es[i].End() <= es[j].block
    ensures Sorted(es)
  {
  }

  lemma {:induction false} SortedDrop(es: seq<Extent>, k: nat)
    requires Sorted(es) && k <= |es|
    ensures Sorted(es[k..])
  {
    forall i | 0 <= i < |es| - k ensures ValidAt(es[k..], i) {
      assert ValidAt(es, k + i);
    }
    forall i, j | 0 <= i < j < |es| - k ensures Ordered(es[k..], i, j) {
      assert Ordered(es, k + i, k + j);
    }
  }

  lemma {:induction false} SortedTake(es: seq<Extent>, k: nat)
    requires Sorted(es) && k <= |es|
    ensures Sorted(es[..k])
  {
    forall i | 0 <= i < k ensures ValidAt(es[..k], i) {
      assert ValidAt(es, i);
    }
    forall i, j | 0 <= i < j < k ensures Ordered(es[..k], i, j) {
      assert Ordered(es, i, j);
    }
  }

  /** Index of the extent a search for `b` stops at: the last one starting at or before
      `b`, else the first. */
  ghost predicate Nearest(es: seq<Extent>, i: int, b: int) {
    && 0 <= i < |es|
    && (i == 0 || es[i].block <= b)
    && (i + 1 < |es| ==> b < es[i + 1].block)
  }

  function Lookup(es: seq<Extent>, b: int): Option<Mapping> {
    if es == [] then None
    else if es[0].Covers(b) then Some(es[0].At(b))
    else Lookup(es[1..], b)
  }

  predicate Mapped(es: seq<Extent>, b: int) {
    Lookup(es, b).Some?
  }

  ghost predicate SameMap(a: seq<Extent>, b: seq<Extent>) {
    forall x :: Lookup(a, x) == Lookup(b, x)
  }

  lemma {:induction false} LookupConcat(a: seq<Extent>, b: seq<Extent>, x: int)
    ensures Lookup(a + b, x) == if Lookup(a, x).Some? then Lookup(a, x) else Lookup(b, x)
  {
    if a == [] {
      assert a + b == b;
    } else {
      assert (a + b)[1..] == a[1..] + b;
      LookupConcat(a[1..], b, x);
    }
  }

  lemma {:induction false} LookupMiss(es: seq<Extent>, x: int)
    requires forall i :: 0 <= i < |es| ==> !es[i].Covers(x)
    ensures Lookup(es, x) == None
  {
    if es != [] {
      LookupMiss(es[1..], x);
    }
  }

  lemma {:induction false} LookupHit(es: seq<Extent>, i: nat, x: int)
    requires Sorted(es) && i < |es| && es[i].Covers(x)
    ensures Lookup(es, x) == Some(es[i].At(x))
  {
    if i > 0 {
      assert Ordered(es, 0, i);
      SortedDrop(es, 1);
      LookupHit(es[1..], i - 1, x);
    }
  }

  lemma {:induction false} LookupWitness(es: seq<Extent>, x: int) returns (i: nat)
    requires Mapped(es, x)
    ensures i < |es| && es[i].Covers(x) && Lookup(es, x) == Some(es[i].At(x))
  {
    if es[0].Covers(x) {
      i := 0;
    } else {
      i := LookupWitness(es[1..], x);
      i := i + 1;
    }
  }

  /** A block is mapped exactly when the extent a search stops at covers it. */
  lemma {:induction false} LookupNearest(es: seq<Extent>, i: int, x: int)
    requires Sorted(es) && Nearest(es, i, x)
    ensures Lookup(es, x) == if es[i].Covers(x) then Some(es[i].At(x)) else None
  {
    if es[i].Covers(x) {
      LookupHit(es, i, x);
    } else {
      forall j | 0 <= j < |es| ensures !es[j].Covers(x) {
        if j < i {
          assert Ordered(es, j, i);
        } else if j > i + 1 {
          assert ValidAt(es, i + 1) && Ordered(es, i + 1, j);
        }
      }
      LookupMiss(es, x);
    }
  }

  /** Exchanging a stretch for one with the same meaning changes nothing. */
  lemma {:induction false} LookupReplace(pre: seq<Extent>, a: seq<Extent>, b: seq<Extent>, post: seq<Extent>)
    requires SameMap(a, b)
    ensures SameMap(pre + a + post, pre + b + post)
  {
    forall x ensures Lookup(pre + a + post, x) == Lookup(pre + b + post, x) {
      LookupConcat(pre + a, post, x);
      LookupConcat(pre, a, x);
      LookupConcat(pre + b, post, x);
      LookupConcat(pre, b, x);
    }
  }

  lemma {:induction false} SortedParts(a: seq<Extent>, b: seq<Extent>)
    requires Sorted(a + b)
    ensures Sorted(a) && Sorted(b)
    ensures a != [] && b != [] ==> a[|a| - 1].End() <= b[0].block
  {
    assert (a + b)[..|a|] == a && (a + b)[|a|..] == b;
    SortedTake(a + b, |a|);
    SortedDrop(a + b, |a|);
    if a != [] && b != [] {
      assert Ordered(a + b, |a| - 1, |a|);
    }
  }

  lemma {:induction false} SortedJoin(a: seq<Extent>, b: seq<Extent>)
    requires Sorted(a) && Sorted(b)
    requires a != [] && b != [] ==> a[|a| - 1].End() <= b[0].block
    ensures Sorted(a + b)
  {
    var s := a + b;
    forall i | 0 <= i < |s| ensures ValidAt(s, i) {
      assert if i < |a| then ValidAt(a, i) else ValidAt(b, i - |a|);
    }
    forall i, j | 0 <= i < j < |s| ensures Ordered(s, i, j) {
      if j < |a| {
        assert Ordered(a, i, j);
      } else if |a| <= i {
        assert Ordered(b, i - |a|, j - |a|);
      } else {
        assert i < |a| - 1 ==> Ordered(a, i, |a| - 1);
        assert j > |a| ==> Ordered(b, 0, j - |a|);
        assert ValidAt(a, |a| - 1) && ValidAt(b, 0);
      }
    }
  }

  lemma {:induction false} LastBoundsAll(es: seq<Extent>, b: int)
    requires Sorted(es) && es != [] && es[|es| - 1].block < b
    ensures forall i :: 0 <= i < |es| ==> es[i].block < b
  {
    SortedAll(es);
  }

  lemma {:induction false} FirstNotAboveLast(es: seq<Extent>)
    requires Sorted(es) && es != []
    ensures es[0].block <= es[|es| - 1].block
  {
    if |es| > 1 {
      assert ValidAt(es, 0) && Ordered(es, 0, |es| - 1);
    }
  }

  /** Searching for the start of an extent finds that extent. */
  lemma {:induction false} NearestOfStart(es: seq<Extent>, i: int, k: nat)
    requires Sorted(es) && k < |es| && Nearest(es, i, es[k].block)
    ensures i == k
  {
    SortedAll(es);
  }

  // ------------------------------------------------------------- insertion

  ghost predicate Disjoint(es: seq<Extent>, e: Extent) {
    forall i :: 0 <= i < |es| ==> es[i].End() <= e.block || e.End() <= es[i].block
  }

  /** How many extents start before `b`. */
  function Rank(es: seq<Extent>, b: int): nat
    ensures Rank(es, b) <= |es|
  {
    if es == [] || es[0].block >= b then 0 else 1 + Rank(es[1..], b)
  }

  /** `es` with `e` at its sorted place. */
  function Inserted(es: seq<Extent>, e: Extent): seq<Extent> {
    var k := Rank(es, e.block);
    es[..k] + [e] + es[k..]
  }

  lemma {:induction false} RankIs(es: seq<Extent>, b: int, k: nat)
    requires k <= |es|
    requires forall i :: 0 <= i < k ==> es[i].block < b
    requires k < |es| ==> b <= es[k].block
    ensures Rank(es, b) == k
  {
    if k > 0 {
      RankIs(es[1..], b, k - 1);
    }
  }

  /** The sorted place of `e` is recognised by its two neighbours alone. */
  lemma {:induction false} InsertedAt(es: seq<Extent>, e: Extent, k: nat)
    requires Sorted(es) && e.Valid() && Disjoint(es, e) && k <= |es|
    requires k > 0 ==> es[k - 1].block < e.block
    requires k < |es| ==> e.block < es[k].block
    ensures Inserted(es, e) == es[..k] + [e] + es[k..]
    ensures Sorted(es[..k] + [e] + es[k..])
  {
    SortedTake(es, k);
    SortedDrop(es, k);
    if k > 0 {
      LastBoundsAll(es[..k], e.block);
      assert ValidAt(es, k - 1);
    }
    RankIs(es, e.block, k);
    if k < |es| {
      assert ValidAt(es, k);
    }
    SortedJoin(es[..k], [e]);
    SortedJoin(es[..k] + [e], es[k..]);
  }

  /** Inserting adds exactly the new extent's blocks to the map. */
  lemma {:induction false} LookupInserted(es: seq<Extent>, e: Extent, x: int)
    requires Sorted(es) && e.Valid() && Disjoint(es, e)
    ensures Lookup(Inserted(es, e), x) == if e.Covers(x) then Some(e.At(x)) else Lookup(es, x)
  {
    var k := Rank(es, e.block);
    LookupConcat(es[..k] + [e], es[k..], x);
    LookupConcat(es[..k], [e], x);
    LookupConcat(es[..k], es[k..], x);
    assert es[..k] + es[k..] == es;
    if e.Covers(x) {
      forall i | 0 <= i < |es| ensures !es[i].Covers(x) { }
      LookupMiss(es[..k], x);
    }
  }

  // ------------------------------------------------------- splitting, merging

  /** Cutting an extent in two leaves every block's address and state as they were. */
  lemma {:induction false} SplitSameMap(e: Extent, b: int)
    requires e.block <= b <= e.End()
    ensures SameMap([e], [e.Head(b), e.Tail(b)])
  {
    forall x ensures Lookup([e], x) == Lookup([e.Head(b), e.Tail(b)], x) {
      var s := [e.Head(b), e.Tail(b)];
      assert s[1..] == [e.Tail(b)] && s[1..][1..] == [] && [e][1..] == [];
    }
  }

  predicate CanMerge(a: Extent, b: Extent) {
    && a.unwritten == b.unwritten
    && a.End() == b.block
    && a.len + b.len <= EXT_INIT_MAX_LEN
    && (a.unwritten ==> a.len + b.len <= EXT_UNWRITTEN_MAX_LEN)
    && a.pblk + a.len == b.pblk
  }

  function Merged(a: Extent, b: Extent): Extent {
    a.(len := a.len + b.len)
  }

  /** Two extents can be merged exactly when they are neighbours and one extent within the limits
      says what they say. */
  lemma {:induction false} CanMergeIff(a: Extent, b: Extent)
    requires a.Valid() && b.Valid()
    ensures CanMerge(a, b) <==> a.End() == b.block && Merged(a, b).Valid() && SameMap([a, b], [Merged(a, b)])
  {
    var m := Merged(a, b);
    if CanMerge(a, b) {
      MergeIsInverseOfSplit(a, b);
      SplitSameMap(m, b.block);
    } else if a.End() == b.block && SameMap([a, b], [m]) {
      assert [a, b][1..] == [b];
      assert Lookup([a, b], b.block) == Some(b.At(b.block)) && Lookup([m], b.block) == Some(m.At(b.block));
    }
  }

  lemma {:induction false} MergeIsInverseOfSplit(a: Extent, b: Extent)
    requires CanMerge(a, b)
    ensures Merged(a, b).Head(b.block) == a && Merged(a, b).Tail(b.block) == b
  {
  }

  /** One merge step on a sorted sequence: same map, still sorted, still within limits. */
  lemma {:induction false} MergeStep(es: seq<Extent>, i: nat)
    requires Sorted(es) && i + 1 < |es| && CanMerge(es[i], es[i + 1])
    ensures Sorted(es[..i] + [Merged(es[i], es[i + 1])] + es[i + 2..])
    ensures SameMap(es, es[..i] + [Merged(es[i], es[i + 1])] + es[i + 2..])
  {
    var a, b := es[i], es[i + 1];
    var m := Merged(a, b);
    assert ValidAt(es, i) && ValidAt(es, i + 1);
    assert es == es[..i] + [a, b] + es[i + 2..];
    SplitSameMap(m, b.block);
    LookupReplace(es[..i], [m], [a, b], es[i + 2..]);
    SortedReplace(es[..i], [a, b], [m], es[i + 2..]);
  }

  lemma {:induction false} SortedReplace(pre: seq<Extent>, a: seq<Extent>, b: seq<Extent>, post: seq<Extent>)
    requires Sorted(pre + a + post) && Sorted(b) && a != [] && b != []
    requires a[0].block <= b[0].block && b[|b| - 1].End() <= a[|a| - 1].End()
    ensures Sorted(pre + b + post)
  {
    SortedParts(pre + a, post);
    SortedParts(pre, a);
    SortedJoin(pre, b);
    assert (pre + a)[|pre + a| - 1] == a[|a| - 1];
    SortedJoin(pre + b, post);
  }

  // ---------------------------------------------------------- physical blocks

  /** How often block `x` occurs in the run p, p+1, ..., p+n-1. */
  function InRun(p: int, n: int, x: int): nat {
    if p <= x < p + n then 1 else 0
  }

  /** How often physical block `x` is pointed at. */
  function Uses(es: seq<Extent>, x: int): nat {
    if es == [] then 0 else InRun(es[0].pblk, es[0].len, x) + Uses(es[1..], x)
  }

  /** The same physical blocks, each as often. */
  ghost predicate SameUses(a: seq<Extent>, b: seq<Extent>) {
    forall x :: Uses(a, x) == Uses(b, x)
  }

  lemma {:induction false} UsesConcat(a: seq<Extent>, b: seq<Extent>, x: int)
    ensures Uses(a + b, x) == Uses(a, x) + Uses(b, x)
  {
    if a == [] {
      assert a + b == b;
    } else {
      assert (a + b)[1..] == a[1..] + b;
      UsesConcat(a[1..], b, x);
    }
  }

  lemma {:induction false} UsesReplace(pre: seq<Extent>, a: seq<Extent>, b: seq<Extent>, post: seq<Extent>)
    requires SameUses(a, b)
    ensures SameUses(pre + a + post, pre + b + post)
  {
    forall x ensures Uses(pre + a + post, x) == Uses(pre + b + post, x) {
      UsesConcat(pre + a, post, x);
      UsesConcat(pre, a, x);
      UsesConcat(pre + b, post, x);
      UsesConcat(pre, b, x);
    }
  }

  lemma {:induction false} UsesSplit(e: Extent, b: int)
    requires e.block <= b <= e.End()
    ensures SameUses([e], [e.Head(b), e.Tail(b)])
  {
    forall x ensures Uses([e], x) == Uses([e.Head(b), e.Tail(b)], x) {
      var s := [e.Head(b), e.Tail(b)];
      assert s[1..] == [e.Tail(b)] && s[1..][1..] == [] && [e][1..] == [];
    }
  }

  /** A mapped block is one of the blocks pointed at. */
  lemma {:induction false} MappedIsUsed(es: seq<Extent>, b: int)
    requires Mapped(es, b)
    ensures Uses(es, Lookup(es, b).value.pblk) > 0
  {
    if !es[0].Covers(b) {
      MappedIsUsed(es[1..], b);
    }
  }

  /** `s` is `es` with the extent `e` rewritten as `f`, which covers the same blocks. */
  ghost predicate Stored(es: seq<Extent>, s: seq<Extent>, e: Extent, f: Extent) {
    && (forall x :: Lookup(s, x) == if f.Covers(x) then Some(f.At(x)) else Lookup(es, x))
    && (forall x :: Uses(s, x) + InRun(e.pblk, e.len, x) == Uses(es, x) + InRun(f.pblk, f.len, x))
  }

  lemma {:induction false} StoreAt(es: seq<Extent>, k: nat, f: Extent)
    requires Sorted(es) && k < |es| && f.Valid() && f.block == es[k].block && f.len == es[k].len
    ensures Sorted(es[k := f]) && Stored(es, es[k := f], es[k], f)
  {
    var e, s := es[k], es[k := f];
    assert es == es[..k] + [e] + es[k + 1..];
    assert s == es[..k] + [f] + es[k + 1..];
    SortedReplace(es[..k], [e], [f], es[k + 1..]);
    forall x ensures Uses(s, x) + InRun(e.pblk, e.len, x) == Uses(es, x) + InRun(f.pblk, f.len, x) {
      StoreUses(es[..k], e, f, es[k + 1..], x);
    }
    forall x ensures Lookup(s, x) == if f.Covers(x) then Some(f.At(x)) else Lookup(es, x) {
      if f.Covers(x) {
        LookupHit(s, k, x);
      } else {
        StoreElsewhere(es[..k], e, f, es[k + 1..], x);
      }
    }
  }

  lemma {:induction false} StoreUses(pre: seq<Extent>, e: Extent, f: Extent, post: seq<Extent>, x: int)
    ensures Uses(pre + [f] + post, x) + InRun(e.pblk, e.len, x) == Uses(pre + [e] + post, x) + InRun(f.pblk, f.len, x)
  {
    UsesConcat(pre + [e], post, x);
    UsesConcat(pre, [e], x);
    UsesConcat(pre + [f], post, x);
    UsesConcat(pre, [f], x);
    assert [e][1..] == [] && [f][1..] == [];
  }

  lemma {:induction false} StoreElsewhere(pre: seq<Extent>, e: Extent, f: Extent, post: seq<Extent>, b: int)
    requires !e.Covers(b) && !f.Covers(b)
    ensures Lookup(pre + [f] + post, b) == Lookup(pre + [e] + post, b)
  {
    LookupConcat(pre + [e], post, b);
    LookupConcat(pre, [e], b);
    LookupConcat(pre + [f], post, b);
    LookupConcat(pre, [f], b);
    assert [e][1..] == [] && [f][1..] == [];
  }
}
