/**
 Inserting with merging, and cutting an extent in two (ext4_split_extent_at).
 */
module ExtentSplit {
  import opened Extents
  import opened KeyTree
  import opened ExtentTree
  import opened ExtentInsert
  import opened ExtentMerge

  lemma {:induction false} CoalescesTrans(a: seq<Extent>, b: seq<Extent>, c: seq<Extent>)
    requires Coalesces(a, b) && Coalesces(b, c)
    ensures Coalesces(a, c)
  {
  }

  lemma {:induction false} CoalescesSelf(a: seq<Extent>)
    requires Sorted(a)
    ensures Coalesces(a, a)
  {
  }

  /** Joining the new extent to the one at `k`, on either side, is inserting it and merging. */
  lemma {:induction false} JoinIsInsertAndMerge(es: seq<Extent>, e: Extent, k: nat, append: bool)
    requires Sorted(es) && e.Valid() && Disjoint(es, e) && k < |es|
    requires if append then CanMerge(es[k], e) && (k + 1 < |es| ==> e.block < es[k + 1].block)
             else CanMerge(e, es[k]) && (k > 0 ==> es[k - 1].block < e.block)
    ensures Coalesces(Inserted(es, e), es[k := if append then Merged(es[k], e) else Merged(e, es[k])])
  {
    var i := if append then k + 1 else k;
    assert ValidAt(es, k);
    InsertedAt(es, e, i);
    var ins := Inserted(es, e);
    CoalescesSelf(ins);
    CoalesceStep(ins, ins, k);
    MergedInPlace(es, ins, e, k, append);
  }

  lemma {:induction false} MergedInPlace(es: seq<Extent>, ins: seq<Extent>, e: Extent, k: nat, append: bool)
    requires k < |es|
    requires ins == if append then es[..k + 1] + [e] + es[k + 1..] else es[..k] + [e] + es[k..]
    ensures ins[..k] + [Merged(ins[k], ins[k + 1])] + ins[k + 2..]
            == es[k := if append then Merged(es[k], e) else Merged(e, es[k])]
  {
    assert ins[..k] == es[..k];
    assert ins[k + 2..] == es[k + 1..];
  }

  /** Rewrites one extent of the leaf reached; if the leaf then starts elsewhere, repairs
      the index above it. */
  method WriteExtent(g: Geometry, root: ENode, d: nat, c: Cursor, j: nat, e: Extent) returns (r: Cursor)
    requires RootOk(g, root, d) && c.Ok() && |c.path| == d && root == Fill(c.path, c.leaf)
    requires j < |c.leaf.items|
    ensures r.Ok() && |r.path| == d && r.pos == j && Pre(r.path) == Pre(c.path) && Post(r.path) == Post(c.path)
    ensures r.leaf == Leaf(c.leaf.max, c.leaf.items[j := e])
    ensures RootOk(g, Fill(r.path, r.leaf), d)
    ensures |Pre(c.path)| + j < |Flat(root)|
    ensures Flat(Fill(r.path, r.leaf)) == Flat(root)[|Pre(c.path)| + j := e]
  {
    FillShape(g, c.path, c.leaf, 0);
    FlatFill(c.path, c.leaf);
    var leaf := Leaf(c.leaf.max, c.leaf.items[j := e]);
    var path := c.path;
    if j == 0 && path != [] {
      path := CorrectIndexes(g, path, e.block);
    }
    r := Cursor(path, leaf, j);
    FillShape(g, path, leaf, 0);
    FlatFill(path, leaf);
    UpdateInMiddle(Pre(path), c.leaf.items, Post(path), e, j);
  }

  lemma {:induction false} UpdateInMiddle<T>(pre: seq<T>, mid: seq<T>, post: seq<T>, e: T, j: nat)
    requires j < |mid|
    ensures pre + mid[j := e] + post == (pre + mid + post)[|pre| + j := e]
  {
  }

  /** In its leaf, the extent that contains block `x` cannot be merged any further. */
  ghost predicate SettledInLeaf(inode: Inode, x: int)
    reads inode
  {
    SettledIn(inode.root, inode.depth, x)
  }

  ghost predicate SettledIn(root: ENode, d: nat, x: int) {
    exists lo: nat, hi: nat :: SettledSpan(root, d, lo, hi, x)
  }

  ghost predicate SettledSpan(root: ENode, d: nat, lo: nat, hi: nat, x: int) {
    LeafSpan(root, d, lo, hi) && Settled(Flat(root), lo, hi, x)
  }

  lemma {:induction false} SettledBetween(pre: seq<Extent>, items: seq<Extent>, post: seq<Extent>, x: int)
    requires Settled(items, 0, |items|, x)
    ensures Settled(pre + items + post, |pre|, |pre| + |items|, x)
  {
    var k :| SettledAt(items, 0, |items|, x, k);
    var es := pre + items + post;
    assert es[|pre| + k] == items[k];
    assert k + 1 < |items| ==> es[|pre| + k + 1] == items[k + 1];
    assert k > 0 ==> es[|pre| + k - 1] == items[k - 1];
    assert SettledAt(es, |pre|, |pre| + |items|, x, |pre| + k);
  }

  /** A block further on in the extent merged is settled as well. */
  lemma {:induction false} SettledInside(items: seq<Extent>, i: nat, r: seq<Extent>, x: int)
    requires Sorted(items) && i < |items| && MergedAround(items, i, r) && items[i].Covers(x)
    ensures Settled(r, 0, |r|, x)
  {
    MergingSettles(items, i, r);
    var k :| SettledAt(r, 0, |r|, items[i].block, k);
    SortedAll(items);
    assert SettledAt(r, 0, |r|, x, k) by {
      MergedCovers(items, i, r, k);
    }
  }

  lemma {:induction false} MergedCovers(items: seq<Extent>, i: nat, r: seq<Extent>, k: nat)
    requires Sorted(items) && i < |items| && MergedAround(items, i, r) && k < |r| && r[k].Covers(items[i].block)
    ensures r[k].End() >= items[i].End()
  {
    SortedAll(items);
    var j := if i > 0 && CanMerge(items[i - 1], items[i]) then i - 1 else i;
    forall q | 0 <= q < j ensures r[q] == items[q] {
      assert r[q] == r[..j][q] == items[..j][q];
    }
    if k > j {
      assert r[k] == r[j + 1..][k - j - 1] == items[j + 1 + (|items| - |r|)..][k - j - 1];
    }
  }

  /** The new extent can be joined to the one the search ends at, or, where that one ends before it
      without touching it, to the next one in the leaf. */
  ghost predicate Joins(c: Cursor, e: Extent) {
    && c.Ok() && c.pos >= 0
    && var items, j := c.leaf.items, c.pos;
       if j + 1 < |items| && items[j].End() < e.block then CanMerge(e, items[j + 1])
       else CanMerge(items[j], e) || CanMerge(e, items[j])
  }

  /** Between `pre` and `post` there are at most n extents. */
  ghost predicate Within(es: seq<Extent>, pre: seq<Extent>, post: seq<Extent>, n: nat) {
    exists items: seq<Extent> :: |items| <= n && es == pre + items + post
  }

  /** ext4_ext_insert_extent with merging: the file says what it said before plus `e`, and the new
      extent has been merged with its neighbours in the leaf as far as it can be. If it can be
      joined to an extent where the search ends, at `c0`, that leaf is all that changes, and no
      extent is added to it. */
  method InsertExtentMerging(inode: Inode, e: Extent, creditsOk: bool) returns (ghost c0: Cursor)
    requires inode.Valid() && e.Valid() && Disjoint(inode.Extents(), e)
    modifies inode
    ensures inode.Valid() && Coalesces(Inserted(old(inode.Extents()), e), inode.Extents())
    ensures SettledInLeaf(inode, e.block) && c0.Found(old(inode.root), old(inode.depth), e.block)
    ensures inode.depth <= old(inode.depth) || (inode.depth == old(inode.depth) + 1 && PathFull(c0) && !Joins(c0, e))
    ensures Joins(c0, e) ==> Within(inode.Extents(), Pre(c0.path), Post(c0.path), |c0.leaf.items|)
  {
    var g := inode.g;
    WellFormedIsSearchable(g, inode.root, inode.depth);
    var c := FindExtent(inode.root, inode.depth, e.block);
    c0 := c;
    FoundIsNearest(g, inode.root, inode.depth, e.block, c);
    if c.pos >= 0 {
      var joined := TryToJoin(inode, c, e, creditsOk);
      if joined {
        return;
      }
    }
    InsertAt(inode, c, e);
    ghost var ins := inode.Extents();
    WellFormedIsSearchable(g, inode.root, inode.depth);
    c := FindExtent(inode.root, inode.depth, e.block);
    FoundIsNearest(g, inode.root, inode.depth, e.block, c);
    FoundNew(old(inode.Extents()), e, ins, c);
    MergeHere(inode, c, e.block, creditsOk);
  }

  /** Joins the new extent to one where the search ended, if it can be. */
  method TryToJoin(inode: Inode, c: Cursor, e: Extent, creditsOk: bool) returns (joined: bool)
    requires inode.Valid() && e.Valid() && Disjoint(inode.Extents(), e)
    requires c.Found(inode.root, inode.depth, e.block) && c.pos >= 0
    modifies inode
    ensures joined <==> Joins(c, e)
    ensures inode.Valid()
    ensures if joined then Coalesces(Inserted(old(inode.Extents()), e), inode.Extents())
                           && SettledInLeaf(inode, e.block) && inode.depth <= old(inode.depth)
                           && Within(inode.Extents(), Pre(c.path), Post(c.path), |c.leaf.items|)
            else inode.root == old(inode.root) && inode.depth == old(inode.depth)
  {
    var items, j := c.leaf.items, c.pos;
    var prependOnly := false;
    if j + 1 < |items| && items[j].End() < e.block {
      j, prependOnly := j + 1, true;
    }
    joined := true;
    if !prependOnly && CanMerge(items[j], e) {
      JoinAndMerge(inode, c, j, e, true, creditsOk);
    } else if CanMerge(e, items[j]) {
      JoinAndMerge(inode, c, j, e, false, creditsOk);
    } else {
      joined := false;
    }
  }

  /** A search for the block of the new extent finds it. */
  lemma {:induction false} FoundNew(es: seq<Extent>, e: Extent, ins: seq<Extent>, c: Cursor)
    requires Sorted(ins) && ins == Inserted(es, e) && e.Valid()
    requires c.Ok() && c.pos >= 0 && Nearest(ins, c.Index(), e.block) && ins[c.Index()] == c.leaf.items[c.pos]
    ensures c.leaf.items[c.pos] == e
  {
    var k := Rank(es, e.block);
    assert ins[k] == e;
    NearestOfStart(ins, c.Index(), k);
  }

  /** Merges around the extent the cursor picks, which contains block `x`. */
  method MergeHere(inode: Inode, c: Cursor, x: int, creditsOk: bool)
    requires inode.Valid() && c.Ok() && c.pos >= 0 && c.leaf.items[c.pos].Covers(x)
    requires |c.path| == inode.depth && inode.root == Fill(c.path, c.leaf)
    modifies inode
    ensures inode.Valid() && Coalesces(old(inode.Extents()), inode.Extents()) && SettledInLeaf(inode, x)
    ensures inode.depth <= old(inode.depth)
    ensures Within(inode.Extents(), Pre(c.path), Post(c.path), |c.leaf.items|)
  {
    SortedMiddle(c.path, c.leaf);
    var items := TryToMerge(inode, c, creditsOk);
    MergedLeaf(inode.root, inode.depth, Pre(c.path), c.leaf.items, c.pos, items, Post(c.path), x);
  }

  lemma {:induction false} MergedLeaf(root: ENode, d: nat, pre: seq<Extent>, items: seq<Extent>, i: nat,
                                      r: seq<Extent>, post: seq<Extent>, x: int)
    requires Sorted(items) && i < |items| && MergedAround(items, i, r) && items[i].Covers(x)
    requires Flat(root) == pre + r + post && LeafSpan(root, d, |pre|, |pre| + |r|)
    ensures SettledIn(root, d, x) && Within(Flat(root), pre, post, |items|)
  {
    SettledInside(items, i, r, x);
    SettledBetween(pre, r, post, x);
    assert SettledSpan(root, d, |pre|, |pre| + |r|, x);
  }

  lemma {:induction false} JoinNeighbours(es: seq<Extent>, i: int, k: nat, e: Extent, append: bool)
    requires Sorted(es) && e.Valid() && Disjoint(es, e) && Nearest(es, i, e.block) && i <= k <= i + 1 && k < |es|
    requires if append then k == i && CanMerge(es[k], e) else CanMerge(e, es[k])
    ensures append ==> (k + 1 < |es| ==> e.block < es[k + 1].block)
    ensures !append ==> (k > 0 ==> es[k - 1].block < e.block)
  {
    if !append && k > 0 {
      assert ValidAt(es, k) && ValidAt(es, k - 1) && Ordered(es, k - 1, k);
    }
  }

  /** Lengthens the extent at `j` of the leaf by `e`, then merges on. */
  method JoinAndMerge(inode: Inode, c: Cursor, j: nat, e: Extent, append: bool, creditsOk: bool)
    requires inode.Valid() && e.Valid() && Disjoint(inode.Extents(), e)
    requires c.Found(inode.root, inode.depth, e.block) && 0 <= c.pos <= j <= c.pos + 1 && j < |c.leaf.items|
    requires if append then j == c.pos && CanMerge(c.leaf.items[j], e) else CanMerge(e, c.leaf.items[j])
    modifies inode
    ensures inode.Valid() && Coalesces(Inserted(old(inode.Extents()), e), inode.Extents())
    ensures SettledInLeaf(inode, e.block) && inode.depth <= old(inode.depth)
    ensures Within(inode.Extents(), Pre(c.path), Post(c.path), |c.leaf.items|)
  {
    var g, ex := inode.g, c.leaf.items[j];
    var joined := if append then Merged(ex, e) else Merged(e, ex);
    ghost var es, k := inode.Extents(), |Pre(c.path)| + j;
    JoinFacts(g, inode.root, inode.depth, c, j, e, append);
    assert joined.Covers(e.block);
    StoreAndMerge(inode, c, j, joined, e.block, creditsOk);
    CoalescesTrans(Inserted(es, e), es[k := joined], inode.Extents());
  }

  /** Writes the extent at `j` of the leaf anew and merges it with its neighbours. */
  method StoreAndMerge(inode: Inode, c: Cursor, j: nat, f: Extent, x: int, creditsOk: bool)
    requires inode.Valid() && c.Ok() && |c.path| == inode.depth && inode.root == Fill(c.path, c.leaf)
    requires j < |c.leaf.items| && |Pre(c.path)| + j < |inode.Extents()|
    requires Sorted(inode.Extents()[|Pre(c.path)| + j := f]) && f.Covers(x)
    modifies inode
    ensures inode.Valid() && SettledInLeaf(inode, x)
    ensures Coalesces(old(inode.Extents())[|Pre(c.path)| + j := f], inode.Extents())
    ensures inode.depth <= old(inode.depth)
    ensures Within(inode.Extents(), Pre(c.path), Post(c.path), |c.leaf.items|)
  {
    var r := WriteExtent(inode.g, inode.root, inode.depth, c, j, f);
    inode.root := Fill(r.path, r.leaf);
    MergeHere(inode, r, x, creditsOk);
  }

  lemma {:induction false} JoinFacts(g: Geometry, root: ENode, d: nat, c: Cursor, j: nat, e: Extent, append: bool)
    requires RootOk(g, root, d) && Sorted(Flat(root)) && e.Valid() && Disjoint(Flat(root), e)
    requires c.Found(root, d, e.block) && 0 <= c.pos <= j <= c.pos + 1 && j < |c.leaf.items|
    requires if append then j == c.pos && CanMerge(c.leaf.items[j], e) else CanMerge(e, c.leaf.items[j])
    ensures |Pre(c.path)| + j < |Flat(root)|
    ensures c.leaf.items[j].Valid()
    ensures Coalesces(Inserted(Flat(root), e),
                      Flat(root)[|Pre(c.path)| + j := if append then Merged(c.leaf.items[j], e)
                              else Merged(e, c.leaf.items[j])])
  {
    JoinPlace(g, root, d, c, j, e.block);
    JoinFlat(Flat(root), c.Index(), |Pre(c.path)| + j, c.leaf.items[j], e, append);
  }

  lemma {:induction false} JoinPlace(g: Geometry, root: ENode, d: nat, c: Cursor, j: nat, b: int)
    requires RootOk(g, root, d) && Sorted(Flat(root)) && c.Found(root, d, b) && 0 <= c.pos && j < |c.leaf.items|
    ensures Nearest(Flat(root), c.Index(), b)
    ensures |Pre(c.path)| + j < |Flat(root)| && Flat(root)[|Pre(c.path)| + j] == c.leaf.items[j]
  {
    FoundIsNearest(g, root, d, b, c);
    AtLeaf(c, j);
  }

  lemma {:induction false} JoinFlat(es: seq<Extent>, i: int, k: nat, ex: Extent, e: Extent, append: bool)
    requires Sorted(es) && e.Valid() && Disjoint(es, e) && Nearest(es, i, e.block) && i <= k <= i + 1 && k < |es|
    requires ex == es[k] && if append then k == i && CanMerge(ex, e) else CanMerge(e, ex)
    ensures ex.Valid() && Coalesces(Inserted(es, e), es[k := if append then Merged(ex, e) else Merged(e, ex)])
  {
    assert ValidAt(es, k);
    JoinNeighbours(es, i, k, e, append);
    JoinIsInsertAndMerge(es, e, k, append);
  }

  /** The pieces of `e` cut at block `b`, with the states the caller asks for. */
  function Pieces(e: Extent, b: int, unwritten1: bool, unwritten2: bool): seq<Extent> {
    if b == e.block then [e.(unwritten := unwritten2)]
    else [e.Head(b).(unwritten := unwritten1), e.Tail(b).(unwritten := unwritten2)]
  }

  ghost function Replaced(es: seq<Extent>, k: nat, with: seq<Extent>): seq<Extent>
    requires k < |es|
  {
    es[..k] + with + es[k + 1..]
  }

  lemma {:induction false} HeadIn(pre: seq<Extent>, e: Extent, h: Extent, t: Extent, post: seq<Extent>)
    requires Sorted(pre + [e] + post) && h.Valid() && t.Valid()
    requires e.block == h.block && h.End() == t.block && t.End() == e.End()
    ensures Sorted(pre + [h] + post) && Disjoint(pre + [h] + post, t)
  {
    var s, r := pre + [e] + post, pre + [h] + post;
    SortedReplace(pre, [e], [h], post);
    forall i | 0 <= i < |r| ensures r[i].End() <= t.block || t.End() <= r[i].block {
      if i < |pre| {
        assert Ordered(s, i, |pre|) && s[i] == r[i];
      } else if i > |pre| {
        assert Ordered(s, |pre|, i) && s[i] == r[i];
      }
    }
  }

  lemma {:induction false} TailBehind(pre: seq<Extent>, h: Extent, t: Extent, post: seq<Extent>)
    requires Sorted(pre + [h] + post) && t.Valid() && Disjoint(pre + [h] + post, t)
    requires h.Valid() && h.End() == t.block
    ensures Inserted(pre + [h] + post, t) == pre + [h, t] + post
  {
    var s, k := pre + [h] + post, |pre| + 1;
    assert s[k - 1] == h;
    if k < |s| {
      assert Ordered(s, k - 1, k) && ValidAt(s, k);
    }
    InsertedAt(s, t, k);
    assert s[..k] == pre + [h] && s[k..] == post;
  }

  lemma {:induction false} HeadThenTail(es: seq<Extent>, k: nat, b: int, u1: bool, u2: bool)
    requires Sorted(es) && k < |es| && es[k].block < b < es[k].End()
    requires !es[k].unwritten ==> !u1 && !u2
    ensures var s := es[k := es[k].Head(b).(unwritten := u1)];
            var t := es[k].Tail(b).(unwritten := u2);
            Sorted(s) && t.Valid() && Disjoint(s, t) && Inserted(s, t) == Replaced(es, k, Pieces(es[k], b, u1, u2))
  {
    var e := es[k];
    var h, t := e.Head(b).(unwritten := u1), e.Tail(b).(unwritten := u2);
    var pre, post := es[..k], es[k + 1..];
    assert ValidAt(es, k);
    assert es == pre + [e] + post;
    HeadIn(pre, e, h, t, post);
    TailBehind(pre, h, t, post);
    assert pre + [h] + post == es[k := h];
    assert pre + [h, t] + post == Replaced(es, k, Pieces(e, b, u1, u2));
  }

  /** Shortens the extent the cursor picks to what lies before block `b` and inserts the rest. */
  method CutInTwo(inode: Inode, c: Cursor, b: int, u1: bool, u2: bool, preIo: bool, creditsOk: bool)
    requires inode.Valid() && c.Ok() && c.pos >= 0 && c.leaf.items[c.pos].block < b < c.leaf.items[c.pos].End()
    requires |c.path| == inode.depth && inode.root == Fill(c.path, c.leaf)
    requires !c.leaf.items[c.pos].unwritten ==> !u1 && !u2
    modifies inode
    ensures inode.Valid() && c.Index() < |old(inode.Extents())|
    ensures preIo ==> inode.Extents()
                      == Replaced(old(inode.Extents()), c.Index(), Pieces(c.leaf.items[c.pos], b, u1, u2))
    ensures Coalesces(Replaced(old(inode.Extents()), c.Index(), Pieces(c.leaf.items[c.pos], b, u1, u2)),
                      inode.Extents())
    ensures !preIo ==> SettledInLeaf(inode, b)
  {
    var e := c.leaf.items[c.pos];
    AtLeaf(c, c.pos);
    HeadThenTail(inode.Extents(), c.Index(), b, u1, u2);
    var r := WriteExtent(inode.g, inode.root, inode.depth, c, c.pos, e.Head(b).(unwritten := u1));
    inode.root := Fill(r.path, r.leaf);
    if preIo {
      var _ := InsertExtent(inode, e.Tail(b).(unwritten := u2));
      CoalescesSelf(inode.Extents());
    } else {
      var _ := InsertExtentMerging(inode, e.Tail(b).(unwritten := u2), creditsOk);
    }
  }

  /** Cuts the extent the cursor picks at block `b`, or, when it starts there, only sets
      its state. With `preIo` nothing is merged afterwards. */
  method SplitExtentAt(inode: Inode, c: Cursor, b: int, u1: bool, u2: bool, preIo: bool, creditsOk: bool)
    requires inode.Valid() && c.Ok() && c.pos >= 0 && c.leaf.items[c.pos].Covers(b)
    requires |c.path| == inode.depth && inode.root == Fill(c.path, c.leaf)
    requires !c.leaf.items[c.pos].unwritten ==> !u1 && !u2
    modifies inode
    ensures inode.Valid() && c.Index() < |old(inode.Extents())|
    ensures preIo ==> inode.Extents()
                      == Replaced(old(inode.Extents()), c.Index(), Pieces(c.leaf.items[c.pos], b, u1, u2))
    ensures Coalesces(Replaced(old(inode.Extents()), c.Index(), Pieces(c.leaf.items[c.pos], b, u1, u2)),
                      inode.Extents())
    ensures !preIo ==> SettledInLeaf(inode, b)
  {
    var e := c.leaf.items[c.pos];
    ghost var es, k := inode.Extents(), c.Index();
    AtLeaf(c, c.pos);
    if b == e.block {
      SetState(es, k, u2);
      if preIo {
        var r := WriteExtent(inode.g, inode.root, inode.depth, c, c.pos, e.(unwritten := u2));
        inode.root := Fill(r.path, r.leaf);
      } else {
        StoreAndMerge(inode, c, c.pos, e.(unwritten := u2), b, creditsOk);
      }
    } else {
      CutInTwo(inode, c, b, u1, u2, preIo, creditsOk);
    }
  }

  lemma {:induction false} SetState(es: seq<Extent>, k: nat, u: bool)
    requires Sorted(es) && k < |es| && (!es[k].unwritten ==> !u)
    ensures Replaced(es, k, [es[k].(unwritten := u)]) == es[k := es[k].(unwritten := u)]
    ensures Sorted(es[k := es[k].(unwritten := u)])
    ensures Coalesces(es[k := es[k].(unwritten := u)], es[k := es[k].(unwritten := u)])
  {
    assert ValidAt(es, k);
    assert es == es[..k] + [es[k]] + es[k + 1..];
    SortedReplace(es[..k], [es[k]], [es[k].(unwritten := u)], es[k + 1..]);
    assert es[..k] + [es[k].(unwritten := u)] + es[k + 1..] == es[k := es[k].(unwritten := u)];
  }

  lemma {:induction false} ForcedPieces(es: seq<Extent>, k: nat, b: int)
    requires k < |es|
    ensures Replaced(es, k, Pieces(es[k], b, es[k].unwritten, es[k].unwritten))
            == if b == es[k].block then es else Replaced(es, k, [es[k].Head(b), es[k].Tail(b)])
  {
    if b == es[k].block {
      assert es[..k] + [es[k]] + es[k + 1..] == es;
    }
  }

  /** ext4_force_split_extent_at: a cut that keeps the state and merges nothing. */
  method ForceSplitExtentAt(inode: Inode, c: Cursor, b: int)
    requires inode.Valid() && c.Ok() && c.pos >= 0 && c.leaf.items[c.pos].Covers(b)
    requires |c.path| == inode.depth && inode.root == Fill(c.path, c.leaf)
    modifies inode
    ensures inode.Valid() && c.Index() < |old(inode.Extents())|
    ensures var e := c.leaf.items[c.pos];
            inode.Extents() == if b == e.block then old(inode.Extents())
                               else Replaced(old(inode.Extents()), c.Index(), [e.Head(b), e.Tail(b)])
  {
    var u := c.leaf.items[c.pos].unwritten;
    AtLeaf(c, c.pos);
    ForcedPieces(inode.Extents(), c.Index(), b);
    SplitExtentAt(inode, c, b, u, u, true, false);
  }

  /** The same map and the same physical blocks. */
  ghost predicate Same(es: seq<Extent>, cur: seq<Extent>) {
    SameMap(es, cur) && SameUses(es, cur)
  }

  /** A cut inside the extent at `k` keeps the map and the blocks. */
  lemma {:induction false} SplitKeeps(es: seq<Extent>, k: nat, b: int)
    requires Sorted(es) && k < |es| && es[k].block < b < es[k].End()
    ensures var s := Replaced(es, k, [es[k].Head(b), es[k].Tail(b)]);
            && Same(es, s)
            && |s| == |es| + 1 && s[k].block == es[k].block && s[k].End() == b && s[k + 1].block == b
  {
    var e := es[k];
    var h, t := e.Head(b), e.Tail(b);
    assert es == es[..k] + [e] + es[k + 1..];
    SplitSameMap(e, b);
    LookupReplace(es[..k], [e], [h, t], es[k + 1..]);
    UsesSplit(e, b);
    UsesReplace(es[..k], [e], [h, t], es[k + 1..]);
  }

  /** ext4_find_extent on a well-formed tree: stops at the nearest extent, if there is any. */
  method Search(inode: Inode, b: int) returns (c: Cursor)
    requires inode.Valid()
    ensures c.Ok() && |c.path| == inode.depth && inode.root == Fill(c.path, c.leaf)
    ensures c.pos == -1 <==> inode.Extents() == []
    ensures c.pos >= 0 ==> Nearest(inode.Extents(), c.Index(), b)
                           && inode.Extents()[c.Index()] == c.leaf.items[c.pos] && c.leaf.items[c.pos].Valid()
    ensures forall k :: 0 <= k < |c.path| ==> KeysRise(c.path[k].es)
  {
    WellFormedIsSearchable(inode.g, inode.root, inode.depth);
    c := FindExtent(inode.root, inode.depth, b);
    FoundIsNearest(inode.g, inode.root, inode.depth, b, c);
    if c.pos >= 0 {
      assert ValidAt(inode.Extents(), c.Index());
    }
  }

  lemma {:induction false} LongStore(es: seq<Extent>, k: nat, f: Extent)
    requires k < |es| && f.block == es[k].block
    ensures SameLong(es, es[k := f], f.block)
  {
    assert es == es[..k] + [es[k]] + es[k + 1..] && es[k := f] == es[..k] + [f] + es[k + 1..];
    LongInside(es[..k], [es[k]], [f], es[k + 1..], f.block);
  }

  /** Rewrites the extent the cursor picks as `f`, covering the same blocks, and merges it. The leaf
      then holds `items`. */
  method Rewrite(inode: Inode, c: Cursor, f: Extent, creditsOk: bool) returns (ghost items: seq<Extent>)
    requires inode.Valid() && f.Valid()
    requires c.Ok() && c.pos >= 0 && |c.path| == inode.depth && inode.root == Fill(c.path, c.leaf)
    requires f.block == c.leaf.items[c.pos].block && f.len == c.leaf.items[c.pos].len
    modifies inode
    ensures inode.Valid() && c.Index() < |old(inode.Extents())|
    ensures Coalesces(old(inode.Extents())[c.Index() := f], inode.Extents())
    ensures SameLong(old(inode.Extents()), inode.Extents(), f.block)
    ensures inode.Extents() == Pre(c.path) + items + Post(c.path)
            && MergedAround(c.leaf.items[c.pos := f], c.pos, items)
  {
    AtLeaf(c, c.pos);
    StoreFacts(inode.Extents(), c.Index(), f);
    ghost var es, k := inode.Extents(), c.Index();
    var r := WriteExtent(inode.g, inode.root, inode.depth, c, c.pos, f);
    inode.root := Fill(r.path, r.leaf);
    items := TryToMerge(inode, r, creditsOk);
    LongTrans(es, es[k := f], inode.Extents(), f.block);
  }

  lemma {:induction false} StoreFacts(es: seq<Extent>, k: nat, f: Extent)
    requires Sorted(es) && k < |es| && f.Valid() && f.block == es[k].block && f.len == es[k].len
    ensures Sorted(es[k := f]) && SameLong(es, es[k := f], f.block)
  {
    LongStore(es, k, f);
    StoreAt(es, k, f);
  }

  lemma {:induction false} LongTrans(a: seq<Extent>, b: seq<Extent>, c: seq<Extent>, at: int)
    requires SameLong(a, b, at) && SameLong(b, c, at)
    ensures SameLong(a, c, at)
  {
  }
}
