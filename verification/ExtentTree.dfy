/**
 The extent tree: what a well-formed one looks like, and how a block is looked up in it.
 */
module ExtentTree {
  import opened Extents
  import opened KeyTree

  type ENode = Node<Extent>
  type EPath = Path<Extent>

  /** How many entries fit in the inode body and in a block, for leaves and for index blocks. */
  datatype Geometry = Geometry(rootLeaf: nat, rootIndex: nat, leaf: nat, index: nat) {
    predicate Valid() {
      && 2 <= rootLeaf <= leaf
      && 2 <= rootIndex <= index
    }

    function Max(root: bool, depth: nat): nat {
      if root then (if depth == 0 then rootLeaf else rootIndex)
      else (if depth == 0 then leaf else index)
    }
  }

  function Size(n: ENode): nat {
    if n.Leaf? then |n.items| else |n.es|
  }

  /** The first block a non-empty node accounts for. */
  function FirstKey(n: ENode): int
    requires Size(n) > 0
  {
    if n.Leaf? then n.items[0].block else n.es[0].key
  }

  // ---------------------------------------------------------------- shape

  /** A non-root block at distance `d` from the leaves: all leaves at the same depth, no
      block empty or over its capacity, every key the first block of the child it leads to. */
  ghost predicate Sub(g: Geometry, n: ENode, d: nat)
    decreases d, 1
  {
    n.max == g.Max(false, d) && 0 < Size(n) <= n.max && Kids(g, n, d)
  }

  ghost predicate Kids(g: Geometry, n: ENode, d: nat)
    decreases d, 0
  {
    if d == 0 then n.Leaf? else
      && n.Index?
      && n.es != []
      && (forall i :: 0 <= i < |n.es| ==> EntryOk(g, n.es[i], d))
  }

  ghost predicate EntryOk(g: Geometry, e: Entry<Extent>, d: nat)
    requires d > 0
    decreases d - 1, 2
  {
    Sub(g, e.child, d - 1) && e.key == FirstKey(e.child)
  }

  /** The node in the inode body; only here may a leaf be empty. */
  ghost predicate RootOk(g: Geometry, n: ENode, d: nat) {
    n.max == g.Max(true, d) && Size(n) <= n.max && Kids(g, n, d)
  }

  lemma {:induction false} SubFlat(g: Geometry, n: ENode, d: nat)
    requires Sub(g, n, d)
    ensures Flat(n) != [] && Flat(n)[0].block == FirstKey(n)
    decreases d
  {
    if d > 0 {
      assert EntryOk(g, n.es[0], d);
      SubFlat(g, n.es[0].child, d - 1);
    }
  }

  // ------------------------------------------------------------- contexts

  function HoleKey(path: EPath): int
    requires path != [] && PathOk(path)
  {
    var l := path[|path| - 1];
    l.es[l.pos].key
  }

  /** An index block at distance `d` from the leaves in which only the child the path goes
      through is left open. */
  ghost predicate LevelOk(g: Geometry, l: Level<Extent>, d: nat, root: bool)
    requires d > 0
  {
    && l.Ok()
    && l.max == g.Max(root, d)
    && |l.es| <= l.max
    && (forall i :: 0 <= i < |l.es| && i != l.pos ==> EntryOk(g, l.es[i], d))
  }

  /** The key a level goes through is the first key of the level below. */
  ghost predicate Linked(path: EPath, k: nat)
    requires PathOk(path) && k + 1 < |path|
  {
    path[k + 1].es[0].key == path[k].es[path[k].pos].key
  }

  /** A path that ends at distance `d` from the leaves is sound around the place it ends. */
  ghost predicate Ctx(g: Geometry, path: EPath, d: nat) {
    && (forall k :: 0 <= k < |path| ==> LevelOk(g, path[k], d + |path| - k, k == 0))
    && PathOk(path)
    && (forall k :: 0 <= k < |path| - 1 ==> Linked(path, k))
  }

  /** `n` sits well-formed at the end of `path`. */
  ghost predicate Sits(g: Geometry, path: EPath, n: ENode, d: nat) {
    && Ctx(g, path, d)
    && if path == [] then RootOk(g, n, d) else Sub(g, n, d) && FirstKey(n) == HoleKey(path)
  }

  lemma {:induction false} CtxUp(g: Geometry, path: EPath, d: nat)
    requires path != [] && Ctx(g, path, d)
    ensures Ctx(g, path[..|path| - 1], d + 1)
  {
    var up := path[..|path| - 1];
    forall k | 0 <= k < |up| ensures LevelOk(g, up[k], d + 1 + |up| - k, k == 0) {
      assert LevelOk(g, path[k], d + |path| - k, k == 0);
    }
    forall k | 0 <= k < |up| - 1 ensures Linked(up, k) {
      assert Linked(path, k);
    }
  }

  lemma {:induction false} CtxDown(g: Geometry, up: EPath, l: Level<Extent>, d: nat)
    requires Ctx(g, up, d + 1) && LevelOk(g, l, d + 1, up == [])
    requires up != [] ==> l.es[0].key == HoleKey(up)
    ensures Ctx(g, up + [l], d)
  {
    var path := up + [l];
    forall k | 0 <= k < |path| ensures LevelOk(g, path[k], d + |path| - k, k == 0) {
      if k < |up| {
        assert LevelOk(g, up[k], d + 1 + |up| - k, k == 0);
      }
    }
    forall k | 0 <= k < |path| - 1 ensures Linked(path, k) {
      if k < |up| - 1 {
        assert Linked(up, k);
      }
    }
  }

  lemma {:induction false} PutShape(g: Geometry, l: Level<Extent>, n: ENode, d: nat, root: bool)
    requires l.Ok()
    ensures LevelOk(g, l, d + 1, root) && EntryOk(g, Entry(l.es[l.pos].key, n), d + 1)
            <==> if root then RootOk(g, l.Put(n), d + 1) else Sub(g, l.Put(n), d + 1)
    ensures FirstKey(l.Put(n)) == l.es[0].key
  {
    var es := l.Put(n).es;
    assert es[l.pos] == Entry(l.es[l.pos].key, n);
    assert forall i :: 0 <= i < |es| && i != l.pos ==> es[i] == l.es[i];
  }

  /** A tree is well-formed exactly when the path is sound and what sits at its end is. */
  lemma {:induction false} FillShape(g: Geometry, path: EPath, n: ENode, d: nat)
    requires PathOk(path)
    ensures Sits(g, path, n, d) <==> RootOk(g, Fill(path, n), d + |path|)
    decreases |path|
  {
    if path != [] {
      var l := path[|path| - 1];
      var up := path[..|path| - 1];
      FillShape(g, up, l.Put(n), d + 1);
      PutShape(g, l, n, d, up == []);
      assert up + [l] == path;
      if Sits(g, path, n, d) {
        CtxUp(g, path, d);
        assert LevelOk(g, path[|path| - 1], d + 1, |path| == 1);
        if up != [] {
          assert Linked(path, |path| - 2);
        }
      }
      if Sits(g, up, l.Put(n), d + 1) {
        CtxDown(g, up, l, d);
      }
    }
  }

  // ------------------------------------------------------------- searching

  /** Keys strictly increase in every index block and all leaves are at depth `d`. */
  ghost predicate Searchable(n: ENode, d: nat)
    decreases d
  {
    if d == 0 then n.Leaf? else
      && n.Index? && n.es != [] && KeysSorted(n.es)
      && (forall i :: 0 <= i < |n.es| ==> Searchable(n.es[i].child, d - 1))
  }

  lemma {:induction false} KeysFromFlat(g: Geometry, es: seq<Entry<Extent>>, d: nat)
    requires d > 0 && Sorted(FlatEs(es))
    requires forall i :: 0 <= i < |es| ==> EntryOk(g, es[i], d)
    ensures KeysSorted(es)
    ensures forall i :: 0 <= i < |es| ==> Sorted(Flat(es[i].child))
    decreases |es|
  {
    if es != [] {
      var first, rest := Flat(es[0].child), es[1..];
      SortedParts(first, FlatEs(rest));
      KeysFromFlat(g, rest, d);
      assert EntryOk(g, es[0], d);
      SubFlat(g, es[0].child, d - 1);
      if rest != [] {
        assert EntryOk(g, es[1], d);
        SubFlat(g, es[1].child, d - 1);
        FirstNotAboveLast(first);
        assert ValidAt(first, |first| - 1);
      }
      forall i, j | 0 <= i < j < |es| ensures es[i].key < es[j].key {
        assert es[j] == rest[j - 1];
        assert rest[0].key <= rest[j - 1].key;
        if i > 0 {
          assert es[i] == rest[i - 1];
        }
      }
    }
  }

  lemma {:induction false} WellFormedIsSearchable(g: Geometry, n: ENode, d: nat)
    requires Kids(g, n, d) && Sorted(Flat(n))
    ensures Searchable(n, d)
    decreases d
  {
    if d > 0 {
      KeysFromFlat(g, n.es, d);
      forall i | 0 <= i < |n.es| ensures Searchable(n.es[i].child, d - 1) {
        assert EntryOk(g, n.es[i], d);
        WellFormedIsSearchable(g, n.es[i].child, d - 1);
      }
    }
  }

  /** What lies left of a searched path is not above the key, what lies right of it is. */
  lemma {:induction false} PathBounds(g: Geometry, path: EPath, n: ENode, d: nat, b: int)
    requires Sits(g, path, n, d) && OnPath(path, b)
    ensures Pre(path) != [] ==> Size(n) > 0 && FirstKey(n) <= b
    ensures Post(path) != [] ==> b < Post(path)[0].block
    decreases |path|
  {
    if path != [] {
      var l := path[|path| - 1];
      var up := path[..|path| - 1];
      FillShape(g, path, n, d);
      FillShape(g, up, l.Put(n), d + 1);
      PathBounds(g, up, l.Put(n), d + 1, b);
      assert LevelOk(g, path[|path| - 1], d + 1, |path| == 1);
      assert Chosen(path[|path| - 1].es, l.pos, b);
      if l.pos + 1 < |l.es| {
        assert EntryOk(g, l.es[l.pos + 1], d + 1);
        SubFlat(g, l.es[l.pos + 1].child, d);
      }
    }
  }

  /** A search result: the levels gone through, the leaf reached, and the extent picked in
      it, or -1 when the leaf holds none. */
  datatype Cursor = Cursor(path: EPath, leaf: ENode, pos: int) {
    predicate Ok() {
      && leaf.Leaf? && PathOk(path)
      && -1 <= pos < |leaf.items|
      && (pos == -1 <==> leaf.items == [])
    }

    /** Position of the picked extent in the whole file. */
    ghost function Index(): int
      requires Ok()
    {
      |Pre(path)| + pos
    }

    /** The cursor is what a search for `b` in the tree `root` ends with. */
    ghost predicate Found(root: ENode, d: nat, b: int) {
      && Ok()
      && |path| == d
      && root == Fill(path, leaf)
      && OnPath(path, b)
      && (forall k :: 0 <= k < |path| ==> KeysSorted(path[k].es))
      && (leaf.items != [] ==> Nearest(leaf.items, pos, b))
    }
  }

  /** The extent picked by binary search agrees with a linear scan of the whole file. */
  lemma {:induction false} FoundIsNearest(g: Geometry, root: ENode, d: nat, b: int, c: Cursor)
    requires RootOk(g, root, d) && c.Found(root, d, b)
    ensures Sits(g, c.path, c.leaf, 0)
    ensures Flat(root) == Pre(c.path) + c.leaf.items + Post(c.path)
    ensures c.pos == -1 <==> Flat(root) == []
    ensures c.pos >= 0 ==> Nearest(Flat(root), c.Index(), b) && Flat(root)[c.Index()] == c.leaf.items[c.pos]
  {
    FillShape(g, c.path, c.leaf, 0);
    FlatFill(c.path, c.leaf);
    if c.pos >= 0 {
      PathBounds(g, c.path, c.leaf, 0, b);
      NearestInMiddle(Pre(c.path), c.leaf.items, Post(c.path), c.pos, b);
      assert Flat(root) != [];
    } else {
      assert c.path == [] && Size(c.leaf) == 0;
    }
  }

  /** Extent `j` of the leaf reached, seen in the whole file. */
  lemma {:induction false} AtLeaf(c: Cursor, j: nat)
    requires c.Ok() && j < |c.leaf.items|
    ensures |Pre(c.path)| + j < |Flat(Fill(c.path, c.leaf))|
    ensures Flat(Fill(c.path, c.leaf))[|Pre(c.path)| + j] == c.leaf.items[j]
  {
    FlatFill(c.path, c.leaf);
  }

  lemma {:induction false} NearestInMiddle(pre: seq<Extent>, mid: seq<Extent>, post: seq<Extent>, pos: int, b: int)
    requires Nearest(mid, pos, b)
    requires pre != [] ==> mid[0].block <= b
    requires post != [] ==> b < post[0].block
    ensures Nearest(pre + mid + post, |pre| + pos, b)
    ensures (pre + mid + post)[|pre| + pos] == mid[pos]
  {
    var s, i := pre + mid + post, |pre| + pos;
    assert s[i] == mid[pos];
    if pos + 1 < |mid| {
      assert s[i + 1] == mid[pos + 1];
    } else if post != [] {
      assert s[i + 1] == post[0];
    }
  }

  method SearchLeaf(items: seq<Extent>, b: int) returns (pos: int)
    requires Sorted(items)
    ensures if items == [] then pos == -1 else Nearest(items, pos, b)
  {
    if items == [] {
      return -1;
    }
    SortedAll(items);
    var l, r := 1, |items| - 1;
    while l <= r
      invariant 1 <= l <= r + 1 <= |items|
      invariant forall i :: 1 <= i < l ==> items[i].block <= b
      invariant forall i :: r < i < |items| ==> b < items[i].block
    {
      var m := l + (r - l) / 2;
      if b < items[m].block {
        r := m - 1;
      } else {
        l := m + 1;
      }
    }
    pos := l - 1;
  }

  lemma {:induction false} SortedMiddle(path: EPath, n: ENode)
    requires PathOk(path) && Sorted(Flat(Fill(path, n)))
    ensures Sorted(Flat(n))
  {
    FlatFill(path, n);
    SortedParts(Pre(path) + Flat(n), Post(path));
    SortedParts(Pre(path), Flat(n));
  }

  /** Walks down from the root, one binary search per level. */
  method FindExtent(root: ENode, d: nat, b: int) returns (c: Cursor)
    requires Searchable(root, d) && Sorted(Flat(root))
    ensures c.Found(root, d, b)
  {
    var path: EPath := [];
    var cur := root;
    var i := d;
    while i > 0
      invariant 0 <= i <= d
      invariant |path| == d - i && PathOk(path) && root == Fill(path, cur)
      invariant Searchable(cur, i) && OnPath(path, b)
      invariant forall k :: 0 <= k < |path| ==> KeysSorted(path[k].es)
    {
      var pos := SearchEntries(cur.es, b);
      var l := Level(cur.max, cur.es, pos);
      assert l.Put(cur.es[pos].child) == cur;
      assert (path + [l])[..|path|] == path;
      path := path + [l];
      cur := cur.es[pos].child;
      i := i - 1;
    }
    SortedMiddle(path, cur);
    var p := SearchLeaf(cur.items, b);
    c := Cursor(path, cur, p);
  }

  /** First block of the leaf after the one reached, or EXT_MAX_BLOCKS. */
  method NextLeafBlock(g: Geometry, path: EPath, n: ENode) returns (b: int)
    requires Sits(g, path, n, 0)
    ensures b == if Post(path) == [] then EXT_MAX_BLOCKS else Post(path)[0].block
  {
    var k := |path|;
    assert path[..k] == path;
    while k > 0
      invariant 0 <= k <= |path|
      invariant PathOk(path[..k]) && Post(path) == Post(path[..k])
    {
      var l := path[k - 1];
      assert path[..k][..k - 1] == path[..k - 1];
      if l.pos + 1 < |l.es| {
        assert LevelOk(g, path[k - 1], |path| - (k - 1), k - 1 == 0);
        assert EntryOk(g, l.es[l.pos + 1], |path| - k + 1);
        SubFlat(g, l.es[l.pos + 1].child, |path| - k);
        return l.es[l.pos + 1].key;
      }
      k := k - 1;
    }
    return EXT_MAX_BLOCKS;
  }

  /** Start of the extent after the one picked, or EXT_MAX_BLOCKS. */
  method NextAllocatedBlock(g: Geometry, root: ENode, d: nat, c: Cursor) returns (b: int)
    requires RootOk(g, root, d) && c.Ok() && |c.path| == d && root == Fill(c.path, c.leaf)
    ensures b == if c.Index() + 1 < |Flat(root)| then Flat(root)[c.Index() + 1].block else EXT_MAX_BLOCKS
  {
    FillShape(g, c.path, c.leaf, 0);
    FlatFill(c.path, c.leaf);
    if d == 0 && c.pos == -1 {
      return EXT_MAX_BLOCKS;
    }
    if c.pos + 1 < |c.leaf.items| {
      return c.leaf.items[c.pos + 1].block;
    }
    b := NextLeafBlock(g, c.path, c.leaf);
  }

  /** The extent tree of one inode. */
  class Inode {
    const g: Geometry
    var root: ENode
    var depth: nat

    /** A new inode: an empty leaf in the inode body. */
    constructor (g: Geometry)
      requires g.Valid()
      ensures Valid() && Extents() == [] && this.g == g
    {
      this.g := g;
      root := Leaf(g.rootLeaf, []);
      depth := 0;
    }

    ghost predicate Valid()
      reads this
    {
      g.Valid() && RootOk(g, root, depth) && Sorted(Extents())
    }

    /** All extents of the file in logical order. */
    ghost function Extents(): seq<Extent>
      reads this
    {
      Flat(root)
    }
  }

  lemma {:induction false} CtxPrefix(g: Geometry, path: EPath, d: nat, k: nat)
    requires Ctx(g, path, d) && k <= |path|
    ensures Ctx(g, path[..k], d + |path| - k)
    decreases |path| - k
  {
    if k == |path| {
      assert path[..k] == path;
    } else {
      CtxPrefix(g, path, d, k + 1);
      CtxUp(g, path[..k + 1], d + |path| - k - 1);
      assert path[..k + 1][..k] == path[..k];
    }
  }

  /** Every sibling along the path can be searched, and so can what sits at its end. */
  ghost predicate SearchCtx(path: EPath, d: nat) {
    forall k :: 0 <= k < |path| ==> SearchLevel(path[k], d + |path| - k)
  }

  ghost predicate SearchLevel(l: Level<Extent>, d: nat)
    requires d > 0
  {
    && l.Ok() && KeysSorted(l.es)
    && (forall i :: 0 <= i < |l.es| && i != l.pos ==> Searchable(l.es[i].child, d - 1))
  }

  lemma {:induction false} PutSearch(l: Level<Extent>, n: ENode, d: nat)
    requires l.Ok()
    ensures Searchable(l.Put(n), d + 1) <==> SearchLevel(l, d + 1) && Searchable(n, d)
  {
    var es := l.Put(n).es;
    assert es[l.pos].child == n;
    assert forall i :: 0 <= i < |es| ==> es[i].key == l.es[i].key;
    assert forall i :: 0 <= i < |es| && i != l.pos ==> es[i] == l.es[i];
  }

  lemma {:induction false} SearchCtxDown(up: EPath, l: Level<Extent>, d: nat)
    ensures SearchCtx(up + [l], d) <==> SearchCtx(up, d + 1) && SearchLevel(l, d + 1)
  {
    var path := up + [l];
    assert path[|up|] == l;
    assert forall k :: 0 <= k < |up| ==> path[k] == up[k];
    if SearchCtx(path, d) {
      assert SearchLevel(path[|up|], d + 1);
      forall k | 0 <= k < |up| ensures SearchLevel(up[k], d + 1 + |up| - k) {
        assert SearchLevel(path[k], d + |path| - k);
      }
    }
  }

  lemma {:induction false} SearchFill(path: EPath, n: ENode, d: nat)
    requires PathOk(path)
    ensures Searchable(Fill(path, n), d + |path|) <==> SearchCtx(path, d) && Searchable(n, d)
    decreases |path|
  {
    if path != [] {
      var l, up := path[|path| - 1], path[..|path| - 1];
      SearchFill(up, l.Put(n), d + 1);
      PutSearch(l, n, d);
      SearchCtxDown(up, l, d);
      assert up + [l] == path;
    }
  }
}
