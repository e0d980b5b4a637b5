/**
 Merging neighbouring extents of a leaf, and collapsing a one-leaf tree into the inode.
 Neither changes where any block lives.
 */
module ExtentMerge {
  import opened Extents
  import opened KeyTree
  import opened ExtentTree

  /** `b` says the same as `a` with no more extents: same map, same physical blocks, same
      first and last block. */
  ghost predicate Coalesces(a: seq<Extent>, b: seq<Extent>) {
    && Sorted(b) && SameMap(a, b) && SameUses(a, b) && |b| <= |a|
    && (a == [] <==> b == [])
    && (a != [] ==> a[0].block == b[0].block && a[|a| - 1].End() == b[|b| - 1].End())
  }

  lemma {:induction false} MergeKeepsUses(es: seq<Extent>, i: nat)
    requires i + 1 < |es| && CanMerge(es[i], es[i + 1]) && 0 <= es[i].len && 0 <= es[i + 1].len
    ensures SameUses(es, es[..i] + [Merged(es[i], es[i + 1])] + es[i + 2..])
  {
    var a, b := es[i], es[i + 1];
    assert es == es[..i] + [a, b] + es[i + 2..];
    MergeIsInverseOfSplit(a, b);
    UsesSplit(Merged(a, b), b.block);
    UsesReplace(es[..i], [Merged(a, b)], [a, b], es[i + 2..]);
  }

  lemma {:induction false} CoalesceStep(items: seq<Extent>, r: seq<Extent>, i: nat)
    requires Coalesces(items, r) && i + 1 < |r| && CanMerge(r[i], r[i + 1])
    ensures Coalesces(items, r[..i] + [Merged(r[i], r[i + 1])] + r[i + 2..])
  {
    assert ValidAt(r, i) && ValidAt(r, i + 1);
    MergeStep(r, i);
    MergeKeepsUses(r, i);
  }

  /** An extent of the greatest length there is begins at block `x`. */
  ghost predicate LongAt(es: seq<Extent>, x: int) {
    exists i :: 0 <= i < |es| && es[i].block == x && es[i].len == EXT_INIT_MAX_LEN
  }

  /** Behind block `at` the two have the same extents of the greatest length. */
  ghost predicate SameLong(a: seq<Extent>, b: seq<Extent>, at: int) {
    forall x :: x > at ==> LongAt(a, x) == LongAt(b, x)
  }

  lemma {:induction false} LongConcat(a: seq<Extent>, b: seq<Extent>, x: int)
    ensures LongAt(a + b, x) == (LongAt(a, x) || LongAt(b, x))
  {
    var s := a + b;
    if LongAt(a, x) {
      var i :| 0 <= i < |a| && a[i].block == x && a[i].len == EXT_INIT_MAX_LEN;
      assert s[i] == a[i];
    }
    if LongAt(b, x) {
      var i :| 0 <= i < |b| && b[i].block == x && b[i].len == EXT_INIT_MAX_LEN;
      assert s[|a| + i] == b[i];
    }
  }

  lemma {:induction false} LongInside(pre: seq<Extent>, a: seq<Extent>, b: seq<Extent>, post: seq<Extent>, at: int)
    requires SameLong(a, b, at)
    ensures SameLong(pre + a + post, pre + b + post, at)
  {
    forall x | x > at ensures LongAt(pre + a + post, x) == LongAt(pre + b + post, x) {
      LongConcat(pre + a, post, x);
      LongConcat(pre, a, x);
      LongConcat(pre + b, post, x);
      LongConcat(pre, b, x);
    }
  }

  /** Neither of two extents that merge has the greatest length, and what they merge into
      begins where the first did. */
  lemma {:induction false} LongMerge(es: seq<Extent>, i: nat, at: int)
    requires Sorted(es) && i + 1 < |es| && CanMerge(es[i], es[i + 1]) && es[i].block <= at
    ensures SameLong(es, es[..i] + [Merged(es[i], es[i + 1])] + es[i + 2..], at)
  {
    var a, m := [es[i], es[i + 1]], [Merged(es[i], es[i + 1])];
    assert ValidAt(es, i) && ValidAt(es, i + 1);
    assert es == es[..i] + a + es[i + 2..];
    LongInside(es[..i], a, m, es[i + 2..], at);
  }

  lemma {:induction false} MergeTail(items: seq<Extent>, r: seq<Extent>, i: nat)
    requires i + 1 < |r| <= |items| && r[i + 1..] == items[i + 1 + (|items| - |r|)..]
    ensures r[i + 1] == items[i + 1 + (|items| - |r|)]
    ensures r[i + 2..] == items[i + 2 + (|items| - |r|)..]
  {
    assert r[i + 1] == r[i + 1..][0];
    assert r[i + 2..] == r[i + 1..][1..] && items[i + 2 + (|items| - |r|)..] == items[i + 1 + (|items| - |r|)..][1..];
  }

  /** `r` is `items` with the extent at `i` grown over those after it, as far as it can be merged
      with them, and nothing else changed. */
  ghost predicate MergedFrom(items: seq<Extent>, i: int, r: seq<Extent>) {
    var m := |items| - |r|;
    && 0 <= i < |r| <= |items|
    && r[..i] == items[..i] && r[i + 1..] == items[i + 1 + m..]
    && r[i] == items[i].(len := items[i + m].End() - items[i].block)
    && (i + 1 < |r| ==> !CanMerge(r[i], r[i + 1]))
  }

  /** `r` is `items` after some merges of the extent at `i` to the right. */
  ghost predicate Merging(items: seq<Extent>, i: nat, r: seq<Extent>) {
    var m := |items| - |r|;
    && i < |r| <= |items| && r[..i] == items[..i] && r[i + 1..] == items[i + 1 + m..]
    && r[i] == items[i].(len := items[i + m].End() - items[i].block)
    && (if m == 0 then r == items else CanMerge(items[i], items[i + 1]))
    && (m >= 2 ==> items[i + 1].End() == items[i + 2].block)
    && Coalesces(items, r) && SameLong(items, r, items[i].block)
  }

  lemma {:induction false} MergingStep(items: seq<Extent>, i: nat, r: seq<Extent>)
    requires Merging(items, i, r) && i + 1 < |r| && CanMerge(r[i], r[i + 1])
    ensures Merging(items, i, r[..i] + [Merged(r[i], r[i + 1])] + r[i + 2..])
  {
    MergeTail(items, r, i);
    LongMerge(r, i, items[i].block);
    CoalesceStep(items, r, i);
    MergedPart(r, i, Merged(r[i], r[i + 1]));
  }

  lemma {:induction false} MergedPart(r: seq<Extent>, i: nat, m: Extent)
    requires i + 1 < |r|
    ensures var s := r[..i] + [m] + r[i + 2..]; s[..i] == r[..i] && s[i] == m && s[i + 1..] == r[i + 2..]
  {
  }

  /** Merges the extent at `i` with its right neighbour for as long as they fit together. */
  method TryToMergeRight(items: seq<Extent>, i: nat) returns (r: seq<Extent>, done: bool)
    requires Sorted(items) && i < |items|
    ensures Coalesces(items, r) && MergedFrom(items, i, r)
    ensures done <==> |r| < |items|
    ensures done <==> i + 1 < |items| && CanMerge(items[i], items[i + 1])
    ensures |items| - |r| >= 2 ==> items[i + 1].End() == items[i + 2].block
    ensures SameLong(items, r, items[i].block)
  {
    r, done := items, false;
    while i + 1 < |r| && CanMerge(r[i], r[i + 1])
      invariant Merging(items, i, r) && (done <==> |r| < |items|)
      decreases |r|
    {
      MergingStep(items, i, r);
      r := r[..i] + [Merged(r[i], r[i + 1])] + r[i + 2..];
      done := true;
    }
  }

  lemma {:induction false} CoalesceInside(pre: seq<Extent>, a: seq<Extent>, b: seq<Extent>, post: seq<Extent>)
    requires Sorted(pre + a + post) && Coalesces(a, b) && a != []
    ensures Coalesces(pre + a + post, pre + b + post)
  {
    LookupReplace(pre, a, b, post);
    UsesReplace(pre, a, b, post);
    SortedReplace(pre, a, b, post);
    EndsInside(pre, a, b, post);
  }

  lemma {:induction false} EndsInside(pre: seq<Extent>, a: seq<Extent>, b: seq<Extent>, post: seq<Extent>)
    requires a != [] && b != [] && a[0].block == b[0].block && a[|a| - 1].End() == b[|b| - 1].End()
    ensures var s, t := pre + a + post, pre + b + post;
            s[0].block == t[0].block && s[|s| - 1].End() == t[|t| - 1].End()
  {
    var s, t := pre + a + post, pre + b + post;
    if pre == [] {
      assert s[0] == a[0] && t[0] == b[0];
    }
    if post == [] {
      assert s[|s| - 1] == a[|a| - 1] && t[|t| - 1] == b[|b| - 1];
    }
  }

  /** Rewriting a leaf without moving its first block leaves the index as it is. */
  lemma {:induction false} LeafRewrite(g: Geometry, root: ENode, d: nat, c: Cursor, items: seq<Extent>)
    requires RootOk(g, root, d) && c.Ok() && |c.path| == d && root == Fill(c.path, c.leaf)
    requires c.leaf.items != [] && 0 < |items| <= |c.leaf.items| && items[0].block == c.leaf.items[0].block
    ensures RootOk(g, Fill(c.path, Leaf(c.leaf.max, items)), d)
    ensures Flat(Fill(c.path, Leaf(c.leaf.max, items))) == Pre(c.path) + items + Post(c.path)
    ensures Flat(root) == Pre(c.path) + c.leaf.items + Post(c.path)
  {
    FillShape(g, c.path, c.leaf, 0);
    FillShape(g, c.path, Leaf(c.leaf.max, items), 0);
    FlatFill(c.path, c.leaf);
    FlatFill(c.path, Leaf(c.leaf.max, items));
  }

  /** The extents lo, ..., hi-1 are those of one leaf. */
  ghost predicate LeafSpan(root: ENode, d: nat, lo: nat, hi: nat) {
    exists path: EPath, leaf: ENode :: LeafIs(root, d, path, leaf, lo, hi)
  }

  ghost predicate LeafIs(root: ENode, d: nat, path: EPath, leaf: ENode, lo: nat, hi: nat) {
    && |path| == d && PathOk(path) && leaf.Leaf? && root == Fill(path, leaf)
    && lo == |Pre(path)| && hi == lo + |leaf.items|
  }

  /** A tree of one leaf whose extents fit into the inode moves back into the inode. */
  method TryToMergeUp(inode: Inode, creditsOk: bool)
    requires inode.Valid()
    modifies inode
    ensures inode.Valid() && inode.Extents() == old(inode.Extents())
    ensures if old(inode.depth) == 1 && |old(inode.root).es| == 1
               && |old(inode.Extents())| <= inode.g.rootLeaf && creditsOk
            then inode.depth == 0
            else inode.depth == old(inode.depth) && inode.root == old(inode.root)
  {
    if inode.depth != 1 || |inode.root.es| != 1 || !creditsOk {
      return;
    }
    var child := inode.root.es[0].child;
    assert EntryOk(inode.g, inode.root.es[0], 1);
    assert inode.root.es[1..] == [];
    assert FlatEs(inode.root.es) == child.items;
    if |child.items| > inode.g.rootLeaf {
      return;
    }
    inode.root := Leaf(inode.g.rootLeaf, child.items);
    inode.depth := 0;
  }

  /** Merging around the extent at `i`: from the one before it, if the two can be merged, and
      otherwise from that extent on. */
  ghost predicate MergedAround(items: seq<Extent>, i: nat, r: seq<Extent>)
    requires i < |items|
  {
    if i > 0 && CanMerge(items[i - 1], items[i]) then MergedFrom(items, i - 1, r) else MergedFrom(items, i, r)
  }

  /** Among the extents lo, ..., hi-1, the one that contains block `x` cannot be merged with the one
      after it, nor, where it begins with that block, with the one before it. */
  ghost predicate Settled(es: seq<Extent>, lo: nat, hi: nat, x: int) {
    hi <= |es| && exists k :: SettledAt(es, lo, hi, x, k)
  }

  ghost predicate SettledAt(es: seq<Extent>, lo: nat, hi: nat, x: int, k: int) {
    && lo <= k < hi <= |es| && es[k].Covers(x)
    && (k + 1 < hi ==> !CanMerge(es[k], es[k + 1]))
    && (lo < k && es[k].block == x ==> !CanMerge(es[k - 1], es[k]))
  }

  lemma {:induction false} MergingSettles(items: seq<Extent>, i: nat, r: seq<Extent>)
    requires Sorted(items) && i < |items| && MergedAround(items, i, r)
    ensures Settled(r, 0, |r|, items[i].block)
  {
    var m := |items| - |r|;
    SortedAll(items);
    if i > 0 && CanMerge(items[i - 1], items[i]) {
      assert m > 0;
      assert SettledAt(r, 0, |r|, items[i].block, i - 1);
    } else {
      if i > 0 {
        assert r[i - 1] == r[..i][i - 1] == items[..i][i - 1];
      }
      assert SettledAt(r, 0, |r|, items[i].block, i);
    }
  }

  method MergeAround(items: seq<Extent>, i: nat) returns (r: seq<Extent>)
    requires Sorted(items) && i < |items|
    ensures Coalesces(items, r) && SameLong(items, r, items[i].block)
    ensures MergedAround(items, i, r)
  {
    var done := false;
    if i > 0 {
      assert Ordered(items, i - 1, i) && ValidAt(items, i - 1);
      r, done := TryToMergeRight(items, i - 1);
    }
    if !done {
      r, done := TryToMergeRight(items, i);
    }
  }

  /** What becomes of the tree when the leaf reached holds `items`: it moves into the inode if it
      is the only leaf, its extents fit and the credits are there. */
  ghost predicate MergedUp(g: Geometry, c: Cursor, items: seq<Extent>, creditsOk: bool, root: ENode, d: nat) {
    && c.Ok()
    && if |c.path| == 1 && |c.path[0].es| == 1 && |items| <= g.rootLeaf && creditsOk then d == 0
       else d == |c.path| && root == Fill(c.path, Leaf(c.leaf.max, items))
  }

  /** Merges the extent the cursor picks with its neighbours in the leaf: leftwards if that
      works, else rightwards. The leaf then holds `items`. */
  method TryToMerge(inode: Inode, c: Cursor, creditsOk: bool) returns (ghost items: seq<Extent>)
    requires inode.Valid() && c.Ok() && c.pos >= 0
    requires |c.path| == inode.depth && inode.root == Fill(c.path, c.leaf)
    modifies inode
    ensures inode.Valid() && Coalesces(old(inode.Extents()), inode.Extents())
    ensures SameLong(old(inode.Extents()), inode.Extents(), c.leaf.items[c.pos].block)
    ensures inode.Extents() == Pre(c.path) + items + Post(c.path) && MergedAround(c.leaf.items, c.pos, items)
    ensures LeafSpan(inode.root, inode.depth, |Pre(c.path)|, |Pre(c.path)| + |items|)
    ensures MergedUp(inode.g, c, items, creditsOk, inode.root, inode.depth)
  {
    var r := MergeInLeaf(inode, c);
    items := r;
    ghost var root := inode.root;
    if |c.path| == 1 {
      OneLevel(c.path, Leaf(c.leaf.max, r));
    }
    TryToMergeUp(inode, creditsOk);
    LeafStays(c.path, Leaf(c.leaf.max, r), root, inode.root, inode.depth);
  }

  lemma {:induction false} OneLevel(path: EPath, leaf: ENode)
    requires PathOk(path) && |path| == 1 && leaf.Leaf?
    ensures Fill(path, leaf).Index? && |Fill(path, leaf).es| == |path[0].es|
    ensures |path[0].es| == 1 ==> Flat(Fill(path, leaf)) == leaf.items
  {
    FlatFill(path, leaf);
    assert path[..0] == [];
    if |path[0].es| == 1 {
      assert path[0].pos == 0 && Pre(path) == [] && Post(path) == [];
    }
  }

  method MergeInLeaf(inode: Inode, c: Cursor) returns (items: seq<Extent>)
    requires inode.Valid() && c.Ok() && c.pos >= 0
    requires |c.path| == inode.depth && inode.root == Fill(c.path, c.leaf)
    modifies inode
    ensures inode.Valid() && Coalesces(old(inode.Extents()), inode.Extents()) && inode.depth == old(inode.depth)
    ensures SameLong(old(inode.Extents()), inode.Extents(), c.leaf.items[c.pos].block)
    ensures inode.root == Fill(c.path, Leaf(c.leaf.max, items)) && MergedAround(c.leaf.items, c.pos, items)
    ensures inode.Extents() == Pre(c.path) + items + Post(c.path)
  {
    SortedMiddle(c.path, c.leaf);
    items := MergeAround(c.leaf.items, c.pos);
    LeafCoalesce(inode.g, inode.root, inode.depth, c, items, c.leaf.items[c.pos].block);
    inode.root := Fill(c.path, Leaf(c.leaf.max, items));
  }

  /** The leaf of a tree that is collapsed, or not, into the inode. */
  lemma {:induction false} LeafStays(path: EPath, leaf: ENode, root: ENode, root': ENode, d: nat)
    requires PathOk(path) && leaf.Leaf? && root == Fill(path, leaf)
    requires if d == |path| then root' == root else d == 0 && |path| == 1 && root.Index? && |root.es| == 1
    requires d != |path| ==> root'.Leaf? && root'.items == Flat(root)
    ensures LeafSpan(root', d, |Pre(path)|, |Pre(path)| + |leaf.items|)
  {
    if d == |path| {
      assert LeafIs(root', d, path, leaf, |Pre(path)|, |Pre(path)| + |leaf.items|);
    } else {
      FlatFill(path, leaf);
      assert path[..0] == [] && path[0].pos == 0;
      assert Pre(path) == [] && Post(path) == [];
      assert LeafIs(root', 0, [], root', 0, |leaf.items|);
    }
  }

  lemma {:induction false} LeafCoalesce(g: Geometry, root: ENode, d: nat, c: Cursor, items: seq<Extent>, at: int)
    requires RootOk(g, root, d) && c.Ok() && |c.path| == d && root == Fill(c.path, c.leaf)
    requires c.leaf.items != [] && Sorted(Flat(root)) && Coalesces(c.leaf.items, items)
             && SameLong(c.leaf.items, items, at)
    ensures RootOk(g, Fill(c.path, Leaf(c.leaf.max, items)), d)
    ensures Coalesces(Flat(root), Flat(Fill(c.path, Leaf(c.leaf.max, items))))
    ensures SameLong(Flat(root), Flat(Fill(c.path, Leaf(c.leaf.max, items))), at)
    ensures Flat(Fill(c.path, Leaf(c.leaf.max, items))) == Pre(c.path) + items + Post(c.path)
  {
    LeafRewrite(g, root, d, c, items);
    LongInside(Pre(c.path), c.leaf.items, items, Post(c.path), at);
    CoalesceInside(Pre(c.path), c.leaf.items, items, Post(c.path));
  }
}
