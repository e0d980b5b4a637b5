/**
 ext4_ext_remove_space: taking a range of blocks out of a file. The tree is walked from right
 to left; leaves and index blocks that become empty are removed on the way back up.
 */
module ExtentRemove {
  import opened Extents
  import opened KeyTree
  import opened ExtentTree
  import opened ExtentSplit

  // ------------------------------------------------------------ the meaning

  /** What removing blocks start, ..., end leaves of an extent that does not go on beyond
      `end`: nothing, its head, or all of it. */
  function Kept(e: Extent, start: int, end: int): seq<Extent> {
    if e.End() <= start || end < e.block then [e]
    else if start <= e.block then []
    else [e.Head(start)]
  }

  function Removed(es: seq<Extent>, start: int, end: int): seq<Extent> {
    if es == [] then [] else Kept(es[0], start, end) + Removed(es[1..], start, end)
  }

  /** No extent contains both `end` and the block after it. */
  ghost predicate Aligned(es: seq<Extent>, end: int) {
    forall i :: 0 <= i < |es| ==> es[i].End() <= end + 1 || end < es[i].block
  }

  lemma {:induction false} RemovedConcat(a: seq<Extent>, b: seq<Extent>, start: int, end: int)
    ensures Removed(a + b, start, end) == Removed(a, start, end) + Removed(b, start, end)
  {
    if a == [] {
      assert a + b == b;
    } else {
      assert (a + b)[1..] == a[1..] + b;
      RemovedConcat(a[1..], b, start, end);
    }
  }

  ghost predicate Untouched(es: seq<Extent>, start: int, end: int) {
    forall i :: 0 <= i < |es| ==> es[i].End() <= start || end < es[i].block
  }

  lemma {:induction false} RemovedSame(es: seq<Extent>, start: int, end: int)
    requires Untouched(es, start, end)
    ensures Removed(es, start, end) == es
  {
    if es != [] {
      RemovedSame(es[1..], start, end);
      assert es == [es[0]] + es[1..];
    }
  }

  ghost predicate Within(es: seq<Extent>, lo: int, hi: int) {
    forall i :: 0 <= i < |es| ==> es[i].Valid() && lo <= es[i].block && es[i].End() <= hi
  }

  /** What is left starts and ends within what there was. */
  lemma {:induction false} RemovedWithin(es: seq<Extent>, start: int, end: int, lo: int, hi: int)
    requires Within(es, lo, hi)
    ensures Within(Removed(es, start, end), lo, hi)
  {
    if es != [] {
      RemovedWithin(es[1..], start, end, lo, hi);
      var first, rest := Kept(es[0], start, end), Removed(es[1..], start, end);
      assert Within(first, lo, hi);
      WithinConcat(first, rest, lo, hi);
    }
  }

  lemma {:induction false} WithinConcat(a: seq<Extent>, b: seq<Extent>, lo: int, hi: int)
    requires Within(a, lo, hi) && Within(b, lo, hi)
    ensures Within(a + b, lo, hi)
  {
  }

  lemma {:induction false} RemovedSorted(es: seq<Extent>, start: int, end: int)
    requires Sorted(es)
    ensures Sorted(Removed(es, start, end))
  {
    if es != [] {
      var first, rest := Kept(es[0], start, end), Removed(es[1..], start, end);
      SortedDrop(es, 1);
      RemovedSorted(es[1..], start, end);
      SortedAll(es);
      assert Within(es[1..], es[0].End(), EXT_MAX_BLOCKS);
      RemovedWithin(es[1..], start, end, es[0].End(), EXT_MAX_BLOCKS);
      assert Sorted(first) && (first != [] ==> first[|first| - 1].End() <= es[0].End());
      SortedJoin(first, rest);
    }
  }

  lemma {:induction false} KeptLookup(e: Extent, start: int, end: int, b: int)
    requires e.End() <= end + 1 || end < e.block
    ensures Lookup(Kept(e, start, end), b) == if e.Covers(b) && !(start <= b <= end) then Some(e.At(b)) else None
  {
    var k := Kept(e, start, end);
    assert k != [] ==> k[1..] == [];
  }

  /** Exactly the mappings in the range are gone. */
  lemma {:induction false} RemovedLookup(es: seq<Extent>, start: int, end: int, b: int)
    requires Sorted(es) && Aligned(es, end)
    ensures Lookup(Removed(es, start, end), b) == if start <= b <= end then None else Lookup(es, b)
  {
    if es != [] {
      SortedDrop(es, 1);
      RemovedLookup(es[1..], start, end, b);
      KeptLookup(es[0], start, end, b);
      LookupConcat(Kept(es[0], start, end), Removed(es[1..], start, end), b);
    }
  }

  // -------------------------------------------------------------- one leaf

  /** Blocks handed to ext4_free_blocks. */
  datatype Run = Run(pblk: int, len: int)

  function Freed(runs: seq<Run>, x: int): nat {
    if runs == [] then 0 else InRun(runs[0].pblk, runs[0].len, x) + Freed(runs[1..], x)
  }

  lemma {:induction false} FreedConcat(a: seq<Run>, b: seq<Run>, x: int)
    ensures Freed(a + b, x) == Freed(a, x) + Freed(b, x)
  {
    if a == [] {
      assert a + b == b;
    } else {
      assert (a + b)[1..] == a[1..] + b;
      FreedConcat(a[1..], b, x);
    }
  }

  /** Every block the extents pointed at is still pointed at, or was freed, once. */
  ghost predicate Accounted(before: seq<Extent>, after: seq<Extent>, freed: seq<Run>) {
    forall x :: Uses(before, x) == Uses(after, x) + Freed(freed, x)
  }

  lemma {:induction false} AccountedKept(e: Extent, start: int, end: int, num: int)
    requires e.Valid() && !(e.End() <= start || end < e.block) && num == if start <= e.block then 0 else start - e.block
    ensures Accounted([e], Kept(e, start, end), [Run(e.pblk + num, e.len - num)])
  {
    var k, f := Kept(e, start, end), [Run(e.pblk + num, e.len - num)];
    forall x ensures Uses([e], x) == Uses(k, x) + Freed(f, x) {
      assert [e][1..] == [] && f[1..] == [] && (k != [] ==> k[1..] == []);
      assert Freed(f, x) == InRun(e.pblk + num, e.len - num, x);
    }
  }

  lemma {:induction false} AccountedStep(items: seq<Extent>, a: seq<Extent>, e: Extent, b: seq<Extent>,
                                         freed: seq<Run>, start: int, end: int, num: int)
    requires Accounted(items, a + [e] + b, freed) && e.Valid() && !(e.End() <= start || end < e.block)
    requires num == if start <= e.block then 0 else start - e.block
    ensures Accounted(items, a + Kept(e, start, end) + b, freed + [Run(e.pblk + num, e.len - num)])
  {
    var k, f := Kept(e, start, end), [Run(e.pblk + num, e.len - num)];
    AccountedKept(e, start, end, num);
    forall x ensures Uses(items, x) == Uses(a + k + b, x) + Freed(freed + f, x) {
      UsesAround(a, [e], b, x);
      UsesAround(a, k, b, x);
      FreedConcat(freed, f, x);
    }
  }

  lemma {:induction false} UsesAround(a: seq<Extent>, m: seq<Extent>, b: seq<Extent>, x: int)
    ensures Uses(a + m + b, x) == Uses(a, x) + Uses(m, x) + Uses(b, x)
  {
    UsesConcat(a + m, b, x);
    UsesConcat(a, m, x);
  }

  lemma {:induction false} RemovedAt(items: seq<Extent>, i: nat, start: int, end: int)
    requires i < |items|
    ensures Removed(items[i..], start, end) == Kept(items[i], start, end) + Removed(items[i + 1..], start, end)
  {
    assert items[i..][1..] == items[i + 1..];
  }

  /** The leaf as it is once everything right of `i` has been dealt with. */
  ghost predicate LeafDone(items: seq<Extent>, i: int, start: int, end: int, r: seq<Extent>, freed: seq<Run>)
    requires -1 <= i < |items|
  {
    r == items[..i + 1] + Removed(items[i + 1..], start, end) && Accounted(items, r, freed)
  }

  lemma {:induction false} LeafStart(items: seq<Extent>, from: int, start: int, end: int)
    requires -1 <= from < |items| && forall k :: from < k < |items| ==> end < items[k].block
    ensures LeafDone(items, from, start, end, items, [])
  {
    RemovedSame(items[from + 1..], start, end);
    assert items == items[..from + 1] + items[from + 1..];
  }

  lemma {:induction false} LeafSkip(items: seq<Extent>, i: nat, start: int, end: int, r: seq<Extent>, freed: seq<Run>)
    requires i < |items| && LeafDone(items, i, start, end, r, freed) && end < items[i].block
    ensures LeafDone(items, i - 1, start, end, r, freed)
  {
    RemovedAt(items, i, start, end);
    LeafStep(items, i, Removed(items[i + 1..], start, end));
    Regroup(items[..i], [items[i]], Removed(items[i + 1..], start, end));
  }

  lemma {:induction false} Regroup<T>(a: seq<T>, b: seq<T>, c: seq<T>)
    ensures a + b + c == a + (b + c)
  {
  }

  lemma {:induction false} LeafStep(items: seq<Extent>, i: nat, rest: seq<Extent>)
    requires i < |items|
    ensures items[..i + 1] + rest == items[..i] + [items[i]] + rest
  {
  }

  /** The slot at `i` after its extent was cut or taken out. */
  function CutSlot(r: seq<Extent>, i: nat, num: int, start: int): seq<Extent>
    requires i < |r|
  {
    if num == 0 then r[..i] + r[i + 1..] else r[i := r[i].Head(start)]
  }

  lemma {:induction false} CutSlotIs(a: seq<Extent>, e: Extent, b: seq<Extent>, start: int, end: int, num: int)
    requires !(e.End() <= start || end < e.block) && num == if start <= e.block then 0 else start - e.block
    ensures CutSlot(a + [e] + b, |a|, num, start) == a + Kept(e, start, end) + b
  {
    var r := a + [e] + b;
    assert r[|a|] == e && r[..|a|] == a && r[|a| + 1..] == b;
  }

  lemma {:induction false} LeafCut(items: seq<Extent>, i: nat, start: int, end: int, r: seq<Extent>, freed: seq<Run>,
                                   num: int)
    requires i < |items| && LeafDone(items, i, start, end, r, freed) && items[i].Valid()
    requires !(items[i].End() <= start || end < items[i].block)
    requires num == if start <= items[i].block then 0 else start - items[i].block
    ensures i < |r| && r[i] == items[i]
    ensures LeafDone(items, i - 1, start, end, CutSlot(r, i, num, start),
                     freed + [Run(items[i].pblk + num, items[i].len - num)])
  {
    var a, e, rest := items[..i], items[i], Removed(items[i + 1..], start, end);
    RemovedAt(items, i, start, end);
    LeafStep(items, i, rest);
    CutSlotIs(a, e, rest, start, end, num);
    Regroup(a, Kept(e, start, end), rest);
    AccountedStep(items, a, e, rest, freed, start, end, num);
  }

  lemma {:induction false} LeafEnd(items: seq<Extent>, i: int, start: int, end: int, r: seq<Extent>, freed: seq<Run>)
    requires -1 <= i < |items| && LeafDone(items, i, start, end, r, freed) && Sorted(items)
    requires i >= 0 ==> items[i].End() <= start
    ensures r == Removed(items, start, end)
  {
    SortedAll(items);
    RemovedSame(items[..i + 1], start, end);
    RemovedConcat(items[..i + 1], items[i + 1..], start, end);
    assert items == items[..i + 1] + items[i + 1..];
  }

  /** The first extent of the leaf reaches into the range, so that it is cut or taken out. */
  predicate FirstHit(items: seq<Extent>, start: int, end: int) {
    items != [] && items[0].End() > start && items[0].block <= end
  }

  /** The walk along a leaf has come to the extent at `i`. */
  ghost predicate InLeaf(items: seq<Extent>, i: int, start: int, end: int, r: seq<Extent>, freed: seq<Run>, hit: bool) {
    && -1 <= i < |items| && LeafDone(items, i, start, end, r, freed)
    && (hit <==> i < 0 && FirstHit(items, start, end))
  }

  lemma {:induction false} LeafBegins(items: seq<Extent>, from: int, start: int, end: int)
    requires -1 <= from < |items| && forall k :: from < k < |items| ==> end < items[k].block
    ensures InLeaf(items, from, start, end, items, [], false)
  {
    LeafStart(items, from, start, end);
    assert from < 0 && items != [] ==> end < items[0].block;
  }

  /** One extent of the leaf that reaches beyond the beginning of the range. */
  method TakeExtent(items: seq<Extent>, i: nat, start: int, end: int, r: seq<Extent>, freed: seq<Run>)
    returns (r': seq<Extent>, freed': seq<Run>, hit: bool)
    requires Sorted(items) && InLeaf(items, i, start, end, r, freed, false) && items[i].End() > start
    ensures InLeaf(items, i - 1, start, end, r', freed', hit)
  {
    var e := items[i];
    if end < e.block {
      LeafSkip(items, i, start, end, r, freed);
      r', freed', hit := r, freed, false;
    } else {
      var first := if e.block < start then start else e.block;
      var num := first - e.block;
      assert ValidAt(items, i);
      LeafCut(items, i, start, end, r, freed, num);
      r', freed', hit := CutSlot(r, i, num, start), freed + [Run(e.pblk + num, e.len - num)], i == 0;
    }
  }

  lemma {:induction false} LeafEnds(items: seq<Extent>, i: int, start: int, end: int, r: seq<Extent>, freed: seq<Run>,
                                    hit: bool)
    requires Sorted(items) && InLeaf(items, i, start, end, r, freed, hit) && (i >= 0 ==> items[i].End() <= start)
    ensures r == Removed(items, start, end) && Accounted(items, r, freed)
    ensures hit <==> FirstHit(items, start, end)
  {
    LeafEnd(items, i, start, end, r, freed);
    if i >= 0 {
      SortedAll(items);
    }
  }

  /** ext4_ext_rm_leaf, from the extent at `from` leftwards. `hit` says that the first extent
      of the leaf was cut or taken out. */
  method RmLeaf(items: seq<Extent>, from: int, start: int, end: int)
    returns (r: seq<Extent>, freed: seq<Run>, hit: bool)
    requires Sorted(items) && Aligned(items, end) && -1 <= from < |items|
    requires forall k :: from < k < |items| ==> end < items[k].block
    ensures r == Removed(items, start, end) && Accounted(items, r, freed)
    ensures hit <==> FirstHit(items, start, end)
  {
    LeafBegins(items, from, start, end);
    var i := from;
    r, freed, hit := items, [], false;
    while i >= 0 && items[i].End() > start
      invariant InLeaf(items, i, start, end, r, freed, hit)
    {
      r, freed, hit := TakeExtent(items, i, start, end, r, freed);
      i := i - 1;
    }
    LeafEnds(items, i, start, end, r, freed, hit);
  }

  // ------------------------------------------------------- index blocks

  /** In order, cut at the end of the range, and nothing beginning beyond it. */
  ghost predicate UpTo(es: seq<Extent>, end: int) {
    Sorted(es) && Aligned(es, end) && forall i :: 0 <= i < |es| ==> es[i].block <= end
  }

  lemma {:induction false} UpToParts(a: seq<Extent>, b: seq<Extent>, end: int)
    requires UpTo(a + b, end)
    ensures UpTo(a, end) && UpTo(b, end)
  {
    SortedParts(a, b);
    assert forall i :: 0 <= i < |a| ==> a[i] == (a + b)[i];
    assert forall i :: 0 <= i < |b| ==> b[i] == (a + b)[|a| + i];
  }

  lemma {:induction false} SomethingLeft(es: seq<Extent>, start: int, end: int) returns (i: nat)
    requires Removed(es, start, end) != [] && forall i :: 0 <= i < |es| ==> es[i].Valid() && es[i].block <= end
    ensures i < |es| && es[i].block < start
  {
    if Kept(es[0], start, end) != [] {
      i := 0;
    } else {
      i := SomethingLeft(es[1..], start, end);
      i := i + 1;
    }
  }

  /** If anything is left of a stretch, whatever comes before it is out of range. */
  lemma {:induction false} LeftUntouched(a: seq<Extent>, c: seq<Extent>, start: int, end: int)
    requires UpTo(a + c, end) && Removed(c, start, end) != []
    ensures Untouched(a, start, end)
  {
    SortedAll(a + c);
    UpToParts(a, c, end);
    SortedAll(c);
    var k := SomethingLeft(c, start, end);
    forall i | 0 <= i < |a| ensures a[i].End() <= start {
      assert (a + c)[i] == a[i] && (a + c)[|a| + k] == c[k];
    }
  }

  ghost predicate EntriesOk(g: Geometry, es: seq<Entry<Extent>>, d: nat)
    requires d > 0
  {
    forall i :: 0 <= i < |es| ==> EntryOk(g, es[i], d)
  }

  /** The key of an index entry once `w`, if anything, has been written over it. */
  function Rekeyed(key: int, w: Option<int>): int {
    if w.Some? then w.value else key
  }

  /** What becomes of an index entry with that key once its child has shrunk to `c`, and `w`, if
      anything, has been written over the key. */
  function Shrunk(key: int, c: ENode, w: Option<int>): seq<Entry<Extent>> {
    if Size(c) == 0 then [] else [Entry(Rekeyed(key, w), c)]
  }

  /** The keys written are enough: with `w`, if anything, written over it, the key that led to
      `n` is the one that leads to `c`. */
  ghost predicate KeyKept(n: ENode, c: ENode, w: Option<int>) {
    Size(n) > 0 && Size(c) > 0 ==> FirstKey(c) == Rekeyed(FirstKey(n), w)
  }

  /** What is written over the key of an index block when the child at `pos` has shrunk to `c`,
      with `w` written over that child's own key. Only what happens at the first entry is carried
      up: the key written there, or, when ext4_ext_rm_idx takes that entry out, the key that is in
      its place then; in a block that has lost its last entry that is still the old one. */
  function CarriedUp(es: seq<Entry<Extent>>, pos: nat, c: ENode, w: Option<int>): Option<int>
    requires pos < |es|
  {
    if pos != 0 then None
    else if Size(c) > 0 then w
    else Some(if |es| > 1 then es[1].key else Rekeyed(es[0].key, w))
  }

  /** A block at distance `d` from the leaves that may have lost all its entries. */
  ghost predicate BlockOk(g: Geometry, n: ENode, d: nat) {
    match n
    case Leaf(_, _) => d == 0
    case Index(_, es) => d > 0 && EntriesOk(g, es, d)
  }

  lemma {:induction false} BlockKids(g: Geometry, n: ENode, d: nat)
    ensures Kids(g, n, d) <==> BlockOk(g, n, d) && (n.Index? ==> n.es != [])
  {
  }

  /** `c` is what is left of the node `n`. */
  ghost predicate LeftOf(g: Geometry, n: ENode, c: ENode, d: nat, start: int, end: int, freed: seq<Run>) {
    && c.max == n.max && Size(c) <= Size(n) && BlockOk(g, c, d)
    && Flat(c) == Removed(Flat(n), start, end) && (Size(c) == 0 <==> Flat(c) == [])
    && Accounted(Flat(n), Flat(c), freed)
  }

  lemma {:induction false} ShrunkOk(g: Geometry, e: Entry<Extent>, c: ENode, d: nat, start: int, end: int,
                                    freed: seq<Run>, w: Option<int>)
    requires d > 0 && EntryOk(g, e, d) && LeftOf(g, e.child, c, d - 1, start, end, freed) && KeyKept(e.child, c, w)
    ensures EntriesOk(g, Shrunk(e.key, c, w), d) && FlatEs(Shrunk(e.key, c, w)) == Flat(c)
  {
    if Size(c) > 0 {
      BlockKids(g, c, d - 1);
      assert Sub(g, c, d - 1);
      assert Shrunk(e.key, c, w)[1..] == [];
    }
  }

  /** Entries right of `pos`, up to `top`, have been dealt with; `tail` is what they became,
      together with those beyond. */
  ghost predicate Swept(g: Geometry, es: seq<Entry<Extent>>, pos: int, top: int, tail: seq<Entry<Extent>>, d: nat,
                        start: int, end: int, freed: seq<Run>)
    requires d > 0 && -1 <= pos <= top < |es|
  {
    && EntriesOk(g, tail, d) && |tail| <= |es| - pos - 1
    && FlatEs(tail) == Removed(FlatEs(es[pos + 1..top + 1]), start, end) + FlatEs(es[top + 1..])
    && Accounted(FlatEs(es[pos + 1..]), FlatEs(tail), freed)
  }

  lemma {:induction false} SweptStart(g: Geometry, es: seq<Entry<Extent>>, top: int, d: nat, start: int, end: int)
    requires d > 0 && -1 <= top < |es| && EntriesOk(g, es, d)
    ensures Swept(g, es, top, top, es[top + 1..], d, start, end, [])
  {
    assert es[top + 1..top + 1] == [];
  }

  lemma {:induction false} AccountedConcat(a: seq<Extent>, a': seq<Extent>, f: seq<Run>, b: seq<Extent>,
                                           b': seq<Extent>, h: seq<Run>)
    requires Accounted(a, a', f) && Accounted(b, b', h)
    ensures Accounted(a + b, a' + b', h + f)
  {
    forall x ensures Uses(a + b, x) == Uses(a' + b', x) + Freed(h + f, x) {
      UsesConcat(a, b, x);
      UsesConcat(a', b', x);
      FreedConcat(h, f, x);
    }
  }

  /** The flat side of one step to the left. */
  lemma {:induction false} SweptFlat(c: seq<Extent>, c': seq<Extent>, mid: seq<Extent>, right: seq<Extent>,
                                     start: int, end: int)
    requires c' == Removed(c, start, end)
    ensures c' + (Removed(mid, start, end) + right) == Removed(c + mid, start, end) + right
  {
    RemovedConcat(c, mid, start, end);
  }

  lemma {:induction false} SweptStep(g: Geometry, es: seq<Entry<Extent>>, pos: nat, top: int,
                                     tail: seq<Entry<Extent>>, d: nat, start: int, end: int, freed: seq<Run>,
                                     c: ENode, more: seq<Run>, w: Option<int>)
    requires d > 0 && pos <= top < |es| && EntriesOk(g, es, d) && Swept(g, es, pos, top, tail, d, start, end, freed)
    requires LeftOf(g, es[pos].child, c, d - 1, start, end, more) && KeyKept(es[pos].child, c, w)
    ensures Swept(g, es, pos - 1, top, Shrunk(es[pos].key, c, w) + tail, d, start, end, freed + more)
  {
    var x := es[pos];
    ShrunkOk(g, x, c, d, start, end, more, w);
    FlatEsConcat(Shrunk(x.key, c, w), tail);
    NextSlices(es, pos, top);
    SweptFlat(Flat(x.child), Flat(c), FlatEs(es[pos + 1..top + 1]), FlatEs(es[top + 1..]), start, end);
    AccountedConcat(Flat(x.child), Flat(c), more, FlatEs(es[pos + 1..]), FlatEs(tail), freed);
  }

  lemma {:induction false} NextSlices(es: seq<Entry<Extent>>, pos: nat, top: int)
    requires pos <= top < |es|
    ensures FlatEs(es[pos..top + 1]) == Flat(es[pos].child) + FlatEs(es[pos + 1..top + 1])
    ensures FlatEs(es[pos..]) == Flat(es[pos].child) + FlatEs(es[pos + 1..])
  {
    assert es[pos..top + 1][1..] == es[pos + 1..top + 1] && es[pos..][1..] == es[pos + 1..];
  }

  lemma {:induction false} ChildUpTo(es: seq<Entry<Extent>>, pos: nat, top: int, end: int)
    requires pos <= top < |es| && UpTo(FlatEs(es[..top + 1]), end)
    ensures UpTo(FlatEs(es[..pos]) + Flat(es[pos].child), end) && UpTo(Flat(es[pos].child), end)
  {
    var s := es[..top + 1];
    FlatEsAt(s, pos);
    assert s[..pos] == es[..pos] && s[pos] == es[pos];
    UpToParts(FlatEs(es[..pos]) + Flat(es[pos].child), FlatEs(s[pos + 1..]), end);
    UpToParts(FlatEs(es[..pos]), Flat(es[pos].child), end);
  }

  lemma {:induction false} SweptEnd(g: Geometry, es: seq<Entry<Extent>>, pos: int, top: int, tail: seq<Entry<Extent>>,
                                    d: nat, start: int, end: int, freed: seq<Run>)
    requires d > 0 && -1 <= pos <= top < |es| && EntriesOk(g, es, d)
             && Swept(g, es, pos, top, tail, d, start, end, freed)
    requires Untouched(FlatEs(es[..pos + 1]), start, end)
    ensures var r := es[..pos + 1] + tail;
            && EntriesOk(g, r, d) && Accounted(FlatEs(es), FlatEs(r), freed)
            && FlatEs(r) == Removed(FlatEs(es[..top + 1]), start, end) + FlatEs(es[top + 1..])
  {
    var a, m, b, c := es[..pos + 1], es[pos + 1..top + 1], es[top + 1..], es[pos + 1..];
    assert es[..top + 1] == a + m && es == a + c;
    SweptFlatEs(a, m, b, tail, start, end);
    SweptFreed(a, c, tail, freed);
  }

  lemma {:induction false} SweptFlatEs(a: seq<Entry<Extent>>, m: seq<Entry<Extent>>, b: seq<Entry<Extent>>,
                                       tail: seq<Entry<Extent>>, start: int, end: int)
    requires Untouched(FlatEs(a), start, end) && FlatEs(tail) == Removed(FlatEs(m), start, end) + FlatEs(b)
    ensures FlatEs(a + tail) == Removed(FlatEs(a + m), start, end) + FlatEs(b)
  {
    FlatEsConcat(a, tail);
    FlatEsConcat(a, m);
    RemovedSame(FlatEs(a), start, end);
    RemovedConcat(FlatEs(a), FlatEs(m), start, end);
    Regroup(FlatEs(a), Removed(FlatEs(m), start, end), FlatEs(b));
  }

  lemma {:induction false} SweptFreed(a: seq<Entry<Extent>>, c: seq<Entry<Extent>>, tail: seq<Entry<Extent>>,
                                      freed: seq<Run>)
    requires Accounted(FlatEs(c), FlatEs(tail), freed)
    ensures Accounted(FlatEs(a + c), FlatEs(a + tail), freed)
  {
    FlatEsConcat(a, c);
    FlatEsConcat(a, tail);
    AccountedSelf(FlatEs(a));
    AccountedConcat(FlatEs(a), FlatEs(a), [], FlatEs(c), FlatEs(tail), freed);
    assert freed + [] == freed;
  }

  lemma {:induction false} AccountedSelf(a: seq<Extent>)
    ensures Accounted(a, a, [])
  {
  }

  lemma {:induction false} ChildKids(g: Geometry, es: seq<Entry<Extent>>, pos: nat, d: nat)
    requires d > 0 && EntriesOk(g, es, d) && pos < |es|
    ensures BlockOk(g, es[pos].child, d - 1)
  {
    assert EntryOk(g, es[pos], d);
    assert Sub(g, es[pos].child, d - 1);
    BlockKids(g, es[pos].child, d - 1);
  }

  /** The child at `pos`: if anything of it is left, nothing before it is in range. */
  method ShrinkChild(g: Geometry, es: seq<Entry<Extent>>, pos: nat, top: int, ghost tail: seq<Entry<Extent>>, d: nat,
                     start: int, end: int, ghost freed: seq<Run>)
    returns (c: ENode, more: seq<Run>, w: Option<int>)
    requires d > 0 && pos <= top < |es| && EntriesOk(g, es, d) && UpTo(FlatEs(es[..top + 1]), end)
    requires Swept(g, es, pos, top, tail, d, start, end, freed)
    ensures Swept(g, es, pos - 1, top, Shrunk(es[pos].key, c, w) + tail, d, start, end, freed + more)
    ensures Size(c) > 0 ==> Untouched(FlatEs(es[..pos]), start, end)
    decreases d - 1, 2
  {
    ChildKids(g, es, pos, d);
    ChildUpTo(es, pos, top, end);
    c, more, w := RemoveBelow(g, es[pos].child, d - 1, start, end);
    SweptStep(g, es, pos, top, tail, d, start, end, freed, c, more, w);
    if Size(c) > 0 {
      LeftUntouched(FlatEs(es[..pos]), Flat(es[pos].child), start, end);
    }
  }

  /** `up` is what had to be written over the key that leads to this block. */
  ghost predicate FirstKept(es: seq<Entry<Extent>>, r: seq<Entry<Extent>>, up: Option<int>) {
    es != [] && r != [] ==> r[0].key == Rekeyed(es[0].key, up)
  }

  /** The walk along one index block has come to `pos`; the entries are now `r`, and were
      `count` before its last step. */
  ghost predicate Sweeping(g: Geometry, es: seq<Entry<Extent>>, pos: int, top: int, r: seq<Entry<Extent>>, count: int,
                           d: nat, start: int, end: int, freed: seq<Run>, up: Option<int>)
    requires d > 0
  {
    && -1 <= pos <= top < |es| && pos < |r| <= |es| && r[..pos + 1] == es[..pos + 1]
    && (pos >= 0 ==> up == None) && FirstKept(es, r, up) && (top < 0 ==> r == es)
    && Swept(g, es, pos, top, r[pos + 1..], d, start, end, freed)
    && (|r| == count ==> Untouched(FlatEs(es[..pos + 1]), start, end))
  }

  lemma {:induction false} SweepStarts(g: Geometry, es: seq<Entry<Extent>>, top: int, saved: int, d: nat, start: int,
                                       end: int)
    requires d > 0 && -1 <= top < |es| && EntriesOk(g, es, d) && saved != |es|
    ensures Sweeping(g, es, top, top, es, saved, d, start, end, [], None)
  {
    SweptStart(g, es, top, d, start, end);
  }

  lemma {:induction false} SweepGoesOn(g: Geometry, es: seq<Entry<Extent>>, pos: nat, top: int, r: seq<Entry<Extent>>,
                                       count: int, d: nat, start: int, end: int, freed: seq<Run>, c: ENode,
                                       more: seq<Run>, w: Option<int>)
    requires d > 0 && Sweeping(g, es, pos, top, r, count, d, start, end, freed, None)
    requires Swept(g, es, pos - 1, top, Shrunk(r[pos].key, c, w) + r[pos + 1..], d, start, end, freed + more)
    requires Size(c) > 0 ==> Untouched(FlatEs(es[..pos]), start, end)
    ensures Sweeping(g, es, pos - 1, top, r[..pos] + Shrunk(r[pos].key, c, w) + r[pos + 1..], |r|, d, start, end,
                     freed + more, CarriedUp(r, pos, c, w))
  {
    SlotFacts(r, es, pos, Shrunk(r[pos].key, c, w));
    FirstAfter(r, pos, c, w);
    assert r[..pos + 1][0] == es[..pos + 1][0];
  }

  /** After one step the first key is the one carried up, or, if none was, the one there was. */
  lemma {:induction false} FirstAfter(r: seq<Entry<Extent>>, pos: nat, c: ENode, w: Option<int>)
    requires pos < |r|
    ensures FirstKept(r, r[..pos] + Shrunk(r[pos].key, c, w) + r[pos + 1..], CarriedUp(r, pos, c, w))
  {
  }

  lemma {:induction false} SlotFacts<T>(r: seq<T>, es: seq<T>, pos: nat, s: seq<T>)
    requires pos < |r| && pos < |es| && r[..pos + 1] == es[..pos + 1]
    ensures var t := r[..pos] + s + r[pos + 1..];
            t[..pos - 1 + 1] == es[..pos - 1 + 1] && t[pos - 1 + 1..] == s + r[pos + 1..] && |t| == |r| - 1 + |s|
  {
    assert r[..pos] == r[..pos + 1][..pos] && es[..pos] == es[..pos + 1][..pos];
  }

  lemma {:induction false} SweepEnds(g: Geometry, es: seq<Entry<Extent>>, pos: int, top: int, r: seq<Entry<Extent>>,
                                     count: int, d: nat, start: int, end: int, freed: seq<Run>, up: Option<int>)
    requires d > 0 && EntriesOk(g, es, d) && Sweeping(g, es, pos, top, r, count, d, start, end, freed, up)
    requires pos < 0 || |r| == count
    ensures EntriesOk(g, r, d) && Accounted(FlatEs(es), FlatEs(r), freed)
    ensures FlatEs(r) == Removed(FlatEs(es[..top + 1]), start, end) + FlatEs(es[top + 1..])
  {
    assert r == es[..pos + 1] + r[pos + 1..] by {
      assert r == r[..pos + 1] + r[pos + 1..];
    }
    assert pos < 0 ==> es[..pos + 1] == [];
    SweptEnd(g, es, pos, top, r[pos + 1..], d, start, end, freed);
  }

  /** One step of the walk along an index block. */
  method SweepOne(g: Geometry, es: seq<Entry<Extent>>, pos: nat, top: int, r: seq<Entry<Extent>>, ghost count: int,
                  d: nat, start: int, end: int, ghost freed: seq<Run>)
    returns (r': seq<Entry<Extent>>, more: seq<Run>, up: Option<int>)
    requires d > 0 && EntriesOk(g, es, d) && pos <= top < |es| && UpTo(FlatEs(es[..top + 1]), end)
    requires Sweeping(g, es, pos, top, r, count, d, start, end, freed, None)
    ensures Sweeping(g, es, pos - 1, top, r', |r|, d, start, end, freed + more, up)
    decreases d - 1, 3
  {
    assert r[pos] == es[pos] by {
      assert r[pos] == r[..pos + 1][pos] == es[..pos + 1][pos];
    }
    var c, w;
    c, more, w := ShrinkChild(g, es, pos, top, r[pos + 1..], d, start, end, freed);
    SweepGoesOn(g, es, pos, top, r, count, d, start, end, freed, c, more, w);
    r', up := r[..pos] + Shrunk(r[pos].key, c, w) + r[pos + 1..], CarriedUp(r, pos, c, w);
  }

  /** An index block from the entry at `top` leftwards. The walk goes on only as long as the
      number of entries changes, that is, as long as whole children go; `saved` is the number
      it is first compared with. Keys change only where the code writes one; `up` is what it
      has written over the key of this block, if anything. */
  method Sweep(g: Geometry, es: seq<Entry<Extent>>, top: int, saved: nat, d: nat, start: int, end: int)
    returns (r: seq<Entry<Extent>>, freed: seq<Run>, up: Option<int>)
    requires d > 0 && -1 <= top < |es| && EntriesOk(g, es, d) && UpTo(FlatEs(es[..top + 1]), end) && saved != |es|
    ensures |r| <= |es| && EntriesOk(g, r, d) && Accounted(FlatEs(es), FlatEs(r), freed)
    ensures FlatEs(r) == Removed(FlatEs(es[..top + 1]), start, end) + FlatEs(es[top + 1..])
    ensures FirstKept(es, r, up) && (top < 0 ==> r == es)
    decreases d, 0
  {
    var pos, count := top, saved;
    r, freed, up := es, [], None;
    SweepStarts(g, es, top, saved, d, start, end);
    while pos >= 0 && |r| != count
      invariant Sweeping(g, es, pos, top, r, count, d, start, end, freed, up)
      decreases pos
    {
      var r', more, w := SweepOne(g, es, pos, top, r, count, d, start, end, freed);
      count, r, up := |r|, r', w;
      freed := freed + more;
      pos := pos - 1;
    }
    SweepEnds(g, es, pos, top, r, count, d, start, end, freed, up);
  }

  /** The key ext4_ext_correct_indexes writes after a leaf has shrunk to `items`. */
  function Border(items: seq<Extent>, hit: bool): Option<int> {
    if hit && items != [] then Some(items[0].block) else None
  }

  /** It is the first block of what is left, and where none is written that has not changed. */
  lemma {:induction false} LeafKey(items: seq<Extent>, start: int, end: int)
    ensures var r := Removed(items, start, end);
            items != [] && r != [] ==> r[0].block == Rekeyed(items[0].block, Border(r, FirstHit(items, start, end)))
  {
    assert items != [] && !FirstHit(items, start, end) ==> Removed(items, start, end)[0] == items[0];
  }

  lemma {:induction false} LeafLeft(g: Geometry, n: ENode, start: int, end: int, freed: seq<Run>)
    requires n.Leaf? && BlockOk(g, n, 0) && Accounted(n.items, Removed(n.items, start, end), freed)
    ensures var items := Removed(n.items, start, end);
            && LeftOf(g, n, Leaf(n.max, items), 0, start, end, freed)
            && KeyKept(n, Leaf(n.max, items), Border(items, FirstHit(n.items, start, end)))
  {
    RemovedShorter(n.items, start, end);
    LeafKey(n.items, start, end);
  }

  /** Everything below one block. `up` is what the code has written over the key that leads to
      it, if anything: ext4_ext_correct_indexes does when the first extent of a leaf was cut or
      taken out and the leaf is not empty. */
  method RemoveBelow(g: Geometry, n: ENode, d: nat, start: int, end: int)
    returns (r: ENode, freed: seq<Run>, up: Option<int>)
    requires BlockOk(g, n, d) && UpTo(Flat(n), end)
    ensures LeftOf(g, n, r, d, start, end, freed) && KeyKept(n, r, up)
    decreases d, 1
  {
    if d == 0 {
      var items;
      var hit;
      items, freed, hit := RmLeaf(n.items, |n.items| - 1, start, end);
      LeafLeft(g, n, start, end, freed);
      r, up := Leaf(n.max, items), Border(items, hit);
    } else {
      var es;
      assert n.es[..|n.es| - 1 + 1] == n.es && n.es[|n.es|..] == [];
      es, freed, up := Sweep(g, n.es, |n.es| - 1, |n.es| + 1, d, start, end);
      r := Index(n.max, es);
      NotEmpty(g, es, d);
    }
  }

  lemma {:induction false} RemovedShorter(es: seq<Extent>, start: int, end: int)
    ensures |Removed(es, start, end)| <= |es|
  {
    if es != [] {
      RemovedShorter(es[1..], start, end);
    }
  }

  lemma {:induction false} NotEmpty(g: Geometry, es: seq<Entry<Extent>>, d: nat)
    requires d > 0 && EntriesOk(g, es, d)
    ensures es == [] <==> FlatEs(es) == []
  {
    if es != [] {
      assert EntryOk(g, es[0], d);
      SubFlat(g, es[0].child, d - 1);
    }
  }

  // -------------------------------------------------------- from the middle

  ghost predicate Beyond(es: seq<Extent>, end: int) {
    forall i :: 0 <= i < |es| ==> end < es[i].block
  }

  lemma {:induction false} BeyondParts(a: seq<Extent>, b: seq<Extent>, end: int)
    requires Beyond(a + b, end)
    ensures Beyond(a, end) && Beyond(b, end)
  {
    assert forall i :: 0 <= i < |a| ==> a[i] == (a + b)[i];
    assert forall i :: 0 <= i < |b| ==> b[i] == (a + b)[|a| + i];
  }

  /** One level back up: the entry gone through shrinks to `c`, then the walk goes on to the
      left of it. */
  method LevelBack(g: Geometry, l: Level<Extent>, ghost n: ENode, c: ENode, d: nat, start: int, end: int,
                   freed: seq<Run>, w: Option<int>, ghost root: bool)
    returns (r: ENode, all: seq<Run>, up: Option<int>)
    requires d > 0 && LevelOk(g, l, d, root) && EntryOk(g, Entry(l.es[l.pos].key, n), d)
    requires LeftOf(g, n, c, d - 1, start, end, freed) && KeyKept(n, c, w)
    requires UpTo(FlatEs(l.es[..l.pos]), end) && Beyond(FlatEs(l.es[l.pos + 1..]), end)
    ensures LeftOf(g, l.Put(n), r, d, start, end, all) && KeyKept(l.Put(n), r, up)
  {
    BackEntries(g, l, n, c, d, start, end, freed, w, root);
    var es, more, left := SweepLeft(g, l, Shrunk(l.es[l.pos].key, c, w), d, start, end);
    r, all := Index(l.max, es), freed + more;
    up := if l.pos == 0 then CarriedUp(l.es, 0, c, w) else left;
    BackKey(l, c, w, es, left);
    BackResult(g, l, n, c, d, start, end, freed, w, es, more);
  }

  /** The entry gone through has become `s`; the entries to the left of it are next. */
  method SweepLeft(g: Geometry, l: Level<Extent>, s: seq<Entry<Extent>>, d: nat, start: int, end: int)
    returns (r: seq<Entry<Extent>>, freed: seq<Run>, up: Option<int>)
    requires d > 0 && l.Ok() && |s| <= 1 && EntriesOk(g, l.es[..l.pos] + s + l.es[l.pos + 1..], d)
    requires UpTo(FlatEs(l.es[..l.pos]), end)
    ensures |r| <= |l.es| && EntriesOk(g, r, d)
    ensures Accounted(FlatEs(l.es[..l.pos] + s + l.es[l.pos + 1..]), FlatEs(r), freed)
    ensures FlatEs(r) == Removed(FlatEs(l.es[..l.pos]), start, end) + FlatEs(s + l.es[l.pos + 1..])
    ensures FirstKept(l.es[..l.pos] + s + l.es[l.pos + 1..], r, up)
    ensures l.pos == 0 ==> r == l.es[..l.pos] + s + l.es[l.pos + 1..]
  {
    var es := l.es[..l.pos] + s + l.es[l.pos + 1..];
    assert es[..l.pos - 1 + 1] == l.es[..l.pos] && es[l.pos - 1 + 1..] == s + l.es[l.pos + 1..];
    r, freed, up := Sweep(g, es, l.pos - 1, |l.es| + 1, d, start, end);
  }

  lemma {:induction false} BackResult(g: Geometry, l: Level<Extent>, n: ENode, c: ENode, d: nat, start: int, end: int,
                                      freed: seq<Run>, w: Option<int>, es: seq<Entry<Extent>>, more: seq<Run>)
    requires d > 0 && l.Ok() && EntryOk(g, Entry(l.es[l.pos].key, n), d)
    requires LeftOf(g, n, c, d - 1, start, end, freed) && KeyKept(n, c, w) && Beyond(FlatEs(l.es[l.pos + 1..]), end)
    requires |es| <= |l.es| <= l.max && EntriesOk(g, es, d)
    requires var s := Shrunk(l.es[l.pos].key, c, w);
             && Accounted(FlatEs(l.es[..l.pos] + s + l.es[l.pos + 1..]), FlatEs(es), more)
             && FlatEs(es) == Removed(FlatEs(l.es[..l.pos]), start, end) + FlatEs(s + l.es[l.pos + 1..])
    ensures LeftOf(g, l.Put(n), Index(l.max, es), d, start, end, freed + more)
  {
    BackFlat(g, l, n, c, d, start, end, freed, w);
    AccountedTrans(Flat(l.Put(n)), FlatEs(l.es[..l.pos] + Shrunk(l.es[l.pos].key, c, w) + l.es[l.pos + 1..]),
                   FlatEs(es), freed, more);
    NotEmpty(g, es, d);
  }

  lemma {:induction false} BackKey(l: Level<Extent>, c: ENode, w: Option<int>, r: seq<Entry<Extent>>,
                                   left: Option<int>)
    requires l.Ok()
    requires var es := l.es[..l.pos] + Shrunk(l.es[l.pos].key, c, w) + l.es[l.pos + 1..];
             FirstKept(es, r, left) && (l.pos == 0 ==> r == es)
    ensures FirstKept(l.es, r, if l.pos == 0 then CarriedUp(l.es, 0, c, w) else left)
  {
    FirstAfter(l.es, l.pos, c, w);
  }

  lemma {:induction false} BackEntries(g: Geometry, l: Level<Extent>, n: ENode, c: ENode, d: nat, start: int,
                                       end: int, freed: seq<Run>, w: Option<int>, root: bool)
    requires d > 0 && LevelOk(g, l, d, root) && EntryOk(g, Entry(l.es[l.pos].key, n), d)
    requires LeftOf(g, n, c, d - 1, start, end, freed) && KeyKept(n, c, w)
    ensures EntriesOk(g, l.es[..l.pos] + Shrunk(l.es[l.pos].key, c, w) + l.es[l.pos + 1..], d)
  {
    var s := Shrunk(l.es[l.pos].key, c, w);
    var es := l.es[..l.pos] + s + l.es[l.pos + 1..];
    ShrunkOk(g, Entry(l.es[l.pos].key, n), c, d, start, end, freed, w);
    forall i | 0 <= i < |es| ensures EntryOk(g, es[i], d) {
      if i < l.pos {
        assert es[i] == l.es[i];
      } else if i >= l.pos + |s| {
        assert es[i] == l.es[i - |s| + 1];
      }
    }
  }

  /** What the level holds before and after its entry shrank. */
  lemma {:induction false} BackFlat(g: Geometry, l: Level<Extent>, n: ENode, c: ENode, d: nat, start: int, end: int,
                                    freed: seq<Run>, w: Option<int>)
    requires d > 0 && l.Ok() && EntryOk(g, Entry(l.es[l.pos].key, n), d)
    requires LeftOf(g, n, c, d - 1, start, end, freed) && KeyKept(n, c, w) && Beyond(FlatEs(l.es[l.pos + 1..]), end)
    ensures Accounted(Flat(l.Put(n)), FlatEs(l.es[..l.pos] + Shrunk(l.es[l.pos].key, c, w) + l.es[l.pos + 1..]), freed)
    ensures FlatEs(Shrunk(l.es[l.pos].key, c, w) + l.es[l.pos + 1..]) == Flat(c) + FlatEs(l.es[l.pos + 1..])
    ensures Removed(Flat(l.Put(n)), start, end)
            == Removed(FlatEs(l.es[..l.pos]), start, end) + (Flat(c) + FlatEs(l.es[l.pos + 1..]))
  {
    var a, s, b := l.es[..l.pos], Shrunk(l.es[l.pos].key, c, w), l.es[l.pos + 1..];
    ShrunkOk(g, Entry(l.es[l.pos].key, n), c, d, start, end, freed, w);
    FlatPut(l, n);
    FlatEsConcat(a + s, b);
    FlatEsConcat(a, s);
    FlatEsConcat(s, b);
    BackParts(FlatEs(a), Flat(n), Flat(c), FlatEs(b), start, end, freed);
  }

  lemma {:induction false} BackParts(a: seq<Extent>, n: seq<Extent>, c: seq<Extent>, b: seq<Extent>, start: int,
                                     end: int, freed: seq<Run>)
    requires c == Removed(n, start, end) && Accounted(n, c, freed) && Beyond(b, end)
    ensures Accounted(a + n + b, a + c + b, freed)
    ensures Removed(a + n + b, start, end) == Removed(a, start, end) + (c + b)
  {
    RemovedConcat(a + n, b, start, end);
    RemovedConcat(a, n, start, end);
    RemovedSame(b, start, end);
    Regroup(Removed(a, start, end), c, b);
    forall x ensures Uses(a + n + b, x) == Uses(a + c + b, x) + Freed(freed, x) {
      UsesAround(a, n, b, x);
      UsesAround(a, c, b, x);
    }
  }

  lemma {:induction false} AccountedTrans(a: seq<Extent>, b: seq<Extent>, c: seq<Extent>, f: seq<Run>, h: seq<Run>)
    requires Accounted(a, b, f) && Accounted(b, c, h)
    ensures Accounted(a, c, f + h)
  {
    forall x ensures Uses(a, x) == Uses(c, x) + Freed(f + h, x) {
      FreedConcat(f, h, x);
    }
  }

  /** `n` is the block the path goes through after its first `k` levels. */
  ghost predicate Through(g: Geometry, path: EPath, leaf: ENode, k: nat, n: ENode, end: int)
    requires PathOk(path) && k <= |path|
  {
    Surrounded(g, path[..k], n, |path| - k, end) && Fill(path[..k], n) == Fill(path, leaf)
  }

  ghost predicate Surrounded(g: Geometry, path: EPath, n: ENode, d: nat, end: int) {
    Sits(g, path, n, d) && UpTo(Pre(path), end) && Beyond(Post(path), end)
  }

  lemma {:induction false} ThroughStep(g: Geometry, path: EPath, leaf: ENode, k: nat, n: ENode, end: int)
    requires PathOk(path) && 0 < k <= |path| && Through(g, path, leaf, k, n, end)
    ensures var l, d := path[k - 1], |path| - k;
            && LevelOk(g, l, d + 1, k == 1) && EntryOk(g, Entry(l.es[l.pos].key, n), d + 1)
            && UpTo(FlatEs(l.es[..l.pos]), end) && Beyond(FlatEs(l.es[l.pos + 1..]), end)
            && Through(g, path, leaf, k - 1, l.Put(n), end)
  {
    assert path[..k] == path[..k - 1] + [path[k - 1]];
    LevelFacts(g, path[..k - 1], path[k - 1], n, |path| - k, end);
  }

  /** The way from the root to the leaf where the removal begins, and the range. */
  datatype Way = Way(g: Geometry, path: EPath, leaf: ENode, start: int, end: int)

  /** Coming back on that way, `n` is reached and has shrunk to `c`. */
  ghost predicate Climbing(way: Way, k: int, n: ENode, c: ENode, freed: seq<Run>, w: Option<int>) {
    match way
    case Way(g, path, leaf, start, end) =>
      && 0 <= k <= |path| && PathOk(path) && Through(g, path, leaf, k, n, end)
      && LeftOf(g, n, c, |path| - k, start, end, freed) && KeyKept(n, c, w)
  }

  lemma {:induction false} ClimbStarts(way: Way, c: ENode, freed: seq<Run>, w: Option<int>)
    requires PathOk(way.path) && Surrounded(way.g, way.path, way.leaf, 0, way.end)
    requires LeftOf(way.g, way.leaf, c, 0, way.start, way.end, freed) && KeyKept(way.leaf, c, w)
    ensures Climbing(way, |way.path|, way.leaf, c, freed, w)
  {
    assert way.path[..|way.path|] == way.path;
  }

  lemma {:induction false} ClimbEnds(way: Way, n: ENode, c: ENode, freed: seq<Run>, w: Option<int>)
    requires PathOk(way.path) && Climbing(way, 0, n, c, freed, w)
    ensures LeftOf(way.g, Fill(way.path, way.leaf), c, |way.path|, way.start, way.end, freed)
  {
    assert way.path[..0] == [];
  }

  method ClimbOne(way: Way, k: nat, ghost n: ENode, c: ENode, freed: seq<Run>, w: Option<int>)
    returns (r: ENode, all: seq<Run>, up: Option<int>, ghost n': ENode)
    requires 0 < k <= |way.path| && Climbing(way, k, n, c, freed, w)
    ensures Climbing(way, k - 1, n', r, all, up)
  {
    ThroughStep(way.g, way.path, way.leaf, k, n, way.end);
    r, all, up := LevelBack(way.g, way.path[k - 1], n, c, |way.path| - (k - 1), way.start, way.end, freed, w, k == 1);
    n' := way.path[k - 1].Put(n);
  }

  /** Back up along the path, from the leaf that has shrunk to `leaf'`, with `w`, if anything,
      written over its key. */
  method ClimbBack(way: Way, leaf': ENode, freed: seq<Run>, w: Option<int>) returns (r: ENode, all: seq<Run>)
    requires PathOk(way.path) && Climbing(way, |way.path|, way.leaf, leaf', freed, w)
    ensures LeftOf(way.g, Fill(way.path, way.leaf), r, |way.path|, way.start, way.end, all)
  {
    r, all := leaf', freed;
    var k, up := |way.path|, w;
    ghost var n := way.leaf;
    while k > 0
      invariant 0 <= k <= |way.path| && Climbing(way, k, n, r, all, up)
    {
      r, all, up, n := ClimbOne(way, k, n, r, all, up);
      k := k - 1;
    }
    ClimbEnds(way, n, r, all, up);
  }

  lemma {:induction false} LevelFacts(g: Geometry, up: EPath, l: Level<Extent>, n: ENode, d: nat, end: int)
    requires Sits(g, up + [l], n, d) && UpTo(Pre(up + [l]), end) && Beyond(Post(up + [l]), end)
    ensures LevelOk(g, l, d + 1, up == []) && EntryOk(g, Entry(l.es[l.pos].key, n), d + 1)
    ensures PathOk(up) && Sits(g, up, l.Put(n), d + 1) && Fill(up, l.Put(n)) == Fill(up + [l], n)
    ensures UpTo(FlatEs(l.es[..l.pos]), end) && Beyond(FlatEs(l.es[l.pos + 1..]), end)
    ensures UpTo(Pre(up), end) && Beyond(Post(up), end)
  {
    var path := up + [l];
    assert path[|up|] == l && path[..|up|] == up;
    FillShape(g, path, n, d);
    FillShape(g, up, l.Put(n), d + 1);
    UpToParts(Pre(up), FlatEs(l.es[..l.pos]), end);
    BeyondParts(FlatEs(l.es[l.pos + 1..]), Post(up), end);
    assert LevelOk(g, path[|up|], d + |path| - |up|, |up| == 0);
  }

  // ---------------------------------------------------------- the whole call

  /** How often block `x` is pointed at from within the range. */
  function PointsIn(es: seq<Extent>, start: int, end: int, x: int): nat {
    if es == [] then 0 else
      (if es[0].pblk <= x < es[0].pblk + es[0].len && start <= es[0].block + (x - es[0].pblk) <= end then 1 else 0)
      + PointsIn(es[1..], start, end, x)
  }

  lemma {:induction false} PointsInConcat(a: seq<Extent>, b: seq<Extent>, start: int, end: int, x: int)
    ensures PointsIn(a + b, start, end, x) == PointsIn(a, start, end, x) + PointsIn(b, start, end, x)
  {
    if a == [] {
      assert a + b == b;
    } else {
      assert (a + b)[1..] == a[1..] + b;
      PointsInConcat(a[1..], b, start, end, x);
    }
  }

  /** Removing takes away exactly the pointers from within the range. */
  lemma {:induction false} RemovedPoints(es: seq<Extent>, start: int, end: int, x: int)
    requires Aligned(es, end) && forall i :: 0 <= i < |es| ==> es[i].Valid()
    ensures Uses(es, x) == Uses(Removed(es, start, end), x) + PointsIn(es, start, end, x)
  {
    if es != [] {
      var k := Kept(es[0], start, end);
      RemovedPoints(es[1..], start, end, x);
      UsesConcat(k, Removed(es[1..], start, end), x);
      assert k != [] ==> k[1..] == [];
    }
  }

  lemma {:induction false} CutPoints(es: seq<Extent>, k: nat, b: int, start: int, end: int, x: int)
    requires k < |es| && es[k].block < b < es[k].End()
    ensures PointsIn(Replaced(es, k, [es[k].Head(b), es[k].Tail(b)]), start, end, x) == PointsIn(es, start, end, x)
  {
    var e, h, t := es[k], es[k].Head(b), es[k].Tail(b);
    assert es == es[..k] + [e] + es[k + 1..];
    PointsInConcat(es[..k] + [e], es[k + 1..], start, end, x);
    PointsInConcat(es[..k], [e], start, end, x);
    PointsInConcat(es[..k] + [h, t], es[k + 1..], start, end, x);
    PointsInConcat(es[..k], [h, t], start, end, x);
    CutPointsOne(e, b, start, end, x);
  }

  lemma {:induction false} CutPointsOne(e: Extent, b: int, start: int, end: int, x: int)
    requires e.block < b < e.End()
    ensures PointsIn([e.Head(b), e.Tail(b)], start, end, x) == PointsIn([e], start, end, x)
  {
    var s := [e.Head(b), e.Tail(b)];
    assert s[1..] == [e.Tail(b)] && s[1..][1..] == [] && [e][1..] == [];
  }

  /** What the whole call promises, on the extents before and after it. */
  ghost predicate Cleared(before: seq<Extent>, after: seq<Extent>, start: int, end: int, freed: seq<Run>) {
    && (forall b :: Lookup(after, b) == if start <= b <= end then None else Lookup(before, b))
    && (forall x :: Freed(freed, x) == PointsIn(before, start, end, x))
    && (forall x :: Uses(before, x) == Uses(after, x) + Freed(freed, x))
  }

  lemma {:induction false} RemovedClears(es: seq<Extent>, start: int, end: int, freed: seq<Run>)
    requires Sorted(es) && Aligned(es, end) && Accounted(es, Removed(es, start, end), freed)
    ensures Cleared(es, Removed(es, start, end), start, end, freed)
  {
    SortedAll(es);
    forall b ensures Lookup(Removed(es, start, end), b) == if start <= b <= end then None else Lookup(es, b) {
      RemovedLookup(es, start, end, b);
    }
    forall x ensures Freed(freed, x) == PointsIn(es, start, end, x) {
      RemovedPoints(es, start, end, x);
    }
  }

  /** The tree after the walk: an inode with nothing left goes back to an empty leaf. */
  method SetRoot(inode: Inode, r: ENode, start: int, end: int, ghost freed: seq<Run>)
    requires inode.Valid() && LeftOf(inode.g, inode.root, r, inode.depth, start, end, freed)
    modifies inode
    ensures inode.Valid() && inode.Extents() == Removed(old(inode.Extents()), start, end)
    ensures inode.Extents() == [] ==> inode.depth == 0
  {
    RemovedSorted(inode.Extents(), start, end);
    BlockKids(inode.g, r, inode.depth);
    if Size(r) == 0 {
      inode.root := Leaf(inode.g.rootLeaf, []);
      inode.depth := 0;
    } else {
      inode.root := r;
    }
  }

  /** Truncation: everything from `start` on. */
  method RemoveTail(inode: Inode, start: int) returns (freed: seq<Run>)
    requires inode.Valid() && 0 <= start
    modifies inode
    ensures inode.Valid() && (inode.Extents() == [] ==> inode.depth == 0)
    ensures Cleared(old(inode.Extents()), inode.Extents(), start, EXT_MAX_BLOCKS - 1, freed)
  {
    ghost var es := inode.Extents();
    var end := EXT_MAX_BLOCKS - 1;
    SortedAll(es);
    assert UpTo(es, end);
    BlockKids(inode.g, inode.root, inode.depth);
    var r;
    var up;
    r, freed, up := RemoveBelow(inode.g, inode.root, inode.depth, start, end);
    RemovedClears(es, start, end, freed);
    SetRoot(inode, r, start, end, freed);
  }

  lemma {:induction false} BeforeEnd(s: seq<Extent>, a: seq<Extent>, b: seq<Extent>, i: int, end: int)
    requires s == a + b && Sorted(s) && Aligned(s, end) && Nearest(s, i, end) && |a| <= i
    ensures UpTo(a, end)
  {
    SortedParts(a, b);
    forall k | 0 <= k < |a| ensures a[k].block <= end && (a[k].End() <= end + 1 || end < a[k].block) {
      assert s[k] == a[k] && ValidAt(s, k) && Ordered(s, k, i);
    }
  }

  lemma {:induction false} AfterEnd(s: seq<Extent>, a: seq<Extent>, b: seq<Extent>, i: int, end: int)
    requires s == a + b && Sorted(s) && Nearest(s, i, end) && i < |a|
    ensures Beyond(b, end)
  {
    forall k | 0 <= k < |b| ensures end < b[k].block {
      assert s[|a| + k] == b[k];
      if |a| + k > i + 1 {
        assert ValidAt(s, i + 1) && Ordered(s, i + 1, |a| + k);
      }
    }
  }

  /** The sides of the leaf a search for `end` stops in, and the leaf itself. */
  lemma {:induction false} AroundEnd(es: seq<Extent>, pre: seq<Extent>, items: seq<Extent>, post: seq<Extent>,
                                     pos: nat, end: int)
    requires es == pre + items + post && Sorted(es) && Aligned(es, end) && pos < |items|
             && Nearest(es, |pre| + pos, end)
    ensures UpTo(pre, end) && Beyond(post, end)
  {
    Regroup(pre, items, post);
    BeforeEnd(es, pre, items + post, |pre| + pos, end);
    AfterEnd(es, pre + items, post, |pre| + pos, end);
  }

  lemma {:induction false} ItemAfter(es: seq<Extent>, pre: seq<Extent>, items: seq<Extent>, post: seq<Extent>,
                                     pos: nat, end: int, k: nat)
    requires es == pre + items + post && Sorted(es) && pos < k < |items| && Nearest(es, |pre| + pos, end)
    ensures end < items[k].block
  {
    var i := |pre| + pos;
    assert es[|pre| + k] == items[k];
    if k > pos + 1 {
      assert ValidAt(es, i + 1) && Ordered(es, i + 1, |pre| + k);
    }
  }

  lemma {:induction false} ItemsAtEnd(es: seq<Extent>, pre: seq<Extent>, items: seq<Extent>, post: seq<Extent>,
                                      pos: nat, end: int)
    requires es == pre + items + post && Sorted(es) && Aligned(es, end) && pos < |items|
             && Nearest(es, |pre| + pos, end)
    ensures Aligned(items, end) && forall k :: pos < k < |items| ==> end < items[k].block
  {
    forall k | pos < k < |items| ensures end < items[k].block {
      ItemAfter(es, pre, items, post, pos, end, k);
    }
    AlignedMiddle(pre, items, post, end);
  }

  lemma {:induction false} AlignedMiddle(pre: seq<Extent>, items: seq<Extent>, post: seq<Extent>, end: int)
    requires Aligned(pre + items + post, end)
    ensures Aligned(items, end)
  {
    assert forall k :: 0 <= k < |items| ==> items[k] == (pre + items + post)[|pre| + k];
  }

  lemma {:induction false} EndLeaf(g: Geometry, root: ENode, d: nat, c: Cursor)
    requires RootOk(g, root, d) && Sorted(Flat(root)) && c.Ok() && |c.path| == d && root == Fill(c.path, c.leaf)
    ensures Sits(g, c.path, c.leaf, 0)
    ensures Flat(root) == Pre(c.path) + c.leaf.items + Post(c.path) && Sorted(c.leaf.items)
  {
    FillShape(g, c.path, c.leaf, 0);
    FlatFill(c.path, c.leaf);
    SortedMiddle(c.path, c.leaf);
  }

  /** Cuts the extent that contains both `end` and the block after it, if there is one. */
  method CutAtEnd(inode: Inode, start: int, end: int)
    requires inode.Valid() && inode.Extents() != [] && 0 <= end < EXT_MAX_BLOCKS - 1
    modifies inode
    ensures inode.Valid() && CutTo(old(inode.Extents()), inode.Extents(), start, end)
  {
    ghost var es := inode.Extents();
    var c := Search(inode, end);
    var e := c.leaf.items[c.pos];
    if e.block <= end < e.End() - 1 {
      AtLeaf(c, c.pos);
      CutsAtEnd(es, c.Index(), start, end);
      ForceSplitExtentAt(inode, c, end + 1);
    } else {
      FoundIsAligned(es, c.Index(), end);
    }
  }

  /** No extent reaches across the end of the range any more, and that is all that has changed. */
  ghost predicate CutTo(es: seq<Extent>, s: seq<Extent>, start: int, end: int) {
    && s != [] && Same(es, s) && Aligned(s, end)
    && forall x :: PointsIn(s, start, end, x) == PointsIn(es, start, end, x)
  }

  /** Cutting the extent that reaches beyond `end` changes nothing but where extents end. */
  lemma {:induction false} CutsAtEnd(es: seq<Extent>, k: nat, start: int, end: int)
    requires Sorted(es) && k < |es| && es[k].block <= end < es[k].End() - 1
    ensures var s := Replaced(es, k, [es[k].Head(end + 1), es[k].Tail(end + 1)]);
            Sorted(s) ==> CutTo(es, s, start, end)
  {
    var s := Replaced(es, k, [es[k].Head(end + 1), es[k].Tail(end + 1)]);
    SplitKeeps(es, k, end + 1);
    forall x ensures PointsIn(s, start, end, x) == PointsIn(es, start, end, x) {
      CutPoints(es, k, end + 1, start, end, x);
    }
    if Sorted(s) {
      CutIsAligned(s, k, end);
    }
  }

  lemma {:induction false} CutIsAligned(es: seq<Extent>, k: nat, end: int)
    requires Sorted(es) && k + 1 < |es| && es[k].End() == end + 1 == es[k + 1].block
    ensures Aligned(es, end)
  {
    SortedAll(es);
  }

  lemma {:induction false} FoundIsAligned(es: seq<Extent>, i: int, end: int)
    requires Sorted(es) && Nearest(es, i, end) && !(es[i].block <= end < es[i].End() - 1)
    ensures Aligned(es, end)
  {
    SortedAll(es);
  }

  /** Everything in range from the extent found leftwards. */
  method RemoveFrom(g: Geometry, c: Cursor, ghost es: seq<Extent>, start: int, end: int)
    returns (r: ENode, freed: seq<Run>)
    requires c.Ok() && c.pos >= 0 && Sits(g, c.path, c.leaf, 0) && es == Pre(c.path) + c.leaf.items + Post(c.path)
    requires Sorted(es) && Sorted(c.leaf.items) && Aligned(es, end) && Nearest(es, c.Index(), end)
    ensures LeftOf(g, Fill(c.path, c.leaf), r, |c.path|, start, end, freed)
  {
    AroundEnd(es, Pre(c.path), c.leaf.items, Post(c.path), c.pos, end);
    ItemsAtEnd(es, Pre(c.path), c.leaf.items, Post(c.path), c.pos, end);
    var items, runs, hit := RmLeaf(c.leaf.items, c.pos, start, end);
    LeafLeft(g, c.leaf, start, end, runs);
    var way, left, w := Way(g, c.path, c.leaf, start, end), Leaf(c.leaf.max, items), Border(items, hit);
    ClimbStarts(way, left, runs, w);
    r, freed := ClimbBack(way, left, runs, w);
  }

  /** Punching a hole: blocks start, ..., end. */
  method RemoveRange(inode: Inode, start: int, end: int) returns (freed: seq<Run>)
    requires inode.Valid() && inode.Extents() != [] && Aligned(inode.Extents(), end)
    modifies inode
    ensures inode.Valid() && (inode.Extents() == [] ==> inode.depth == 0)
    ensures Cleared(old(inode.Extents()), inode.Extents(), start, end, freed)
  {
    ghost var es := inode.Extents();
    var c := Search(inode, end);
    EndLeaf(inode.g, inode.root, inode.depth, c);
    var r;
    r, freed := RemoveFrom(inode.g, c, es, start, end);
    RemovedClears(es, start, end, freed);
    SetRoot(inode, r, start, end, freed);
  }

  /** ext4_ext_remove_space: exactly the mappings of blocks start, ..., end go, every block
      they pointed at is freed once for each of them and no other block is, and the tree
      stays well-formed, its keys the first blocks of what they lead to. */
  method RemoveSpace(inode: Inode, start: int, end: int) returns (freed: seq<Run>)
    requires inode.Valid() && 0 <= start && 0 <= end < EXT_MAX_BLOCKS
    modifies inode
    ensures inode.Valid() && (inode.Extents() == [] ==> inode.depth == 0)
    ensures Cleared(old(inode.Extents()), inode.Extents(), start, end, freed)
  {
    if end == EXT_MAX_BLOCKS - 1 {
      freed := RemoveTail(inode, start);
      return;
    }
    var c := Search(inode, end);
    if c.pos == -1 {
      EmptyTree(inode.g, inode.root, inode.depth);
      return [];
    }
    ghost var es := inode.Extents();
    CutAtEnd(inode, start, end);
    ghost var cut := inode.Extents();
    freed := RemoveRange(inode, start, end);
    ClearedThroughCut(es, cut, inode.Extents(), start, end, freed);
  }

  lemma {:induction false} EmptyTree(g: Geometry, root: ENode, d: nat)
    requires RootOk(g, root, d) && Flat(root) == []
    ensures d == 0
  {
    if d > 0 {
      assert EntryOk(g, root.es[0], d);
      SubFlat(g, root.es[0].child, d - 1);
    }
  }

  lemma {:induction false} ClearedThroughCut(es: seq<Extent>, cut: seq<Extent>, after: seq<Extent>, start: int,
                                             end: int, freed: seq<Run>)
    requires Same(es, cut) && Cleared(cut, after, start, end, freed)
    requires forall x :: PointsIn(cut, start, end, x) == PointsIn(es, start, end, x)
    ensures Cleared(es, after, start, end, freed)
  {
  }
}
