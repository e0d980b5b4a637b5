/**
 Inserting an extent: into the leaf found, into the next leaf, into a subtree split off
 along the path, or after the tree has grown by a level.
 */
module ExtentInsert {
  import opened Sequences
  import opened Extents
  import opened KeyTree
  import opened ExtentTree

  /** Slot of the leaf that `e` takes, next to the extent picked. */
  function Slot(c: Cursor, e: Extent): nat
    requires c.Ok()
  {
    if c.pos == -1 then 0
    else if e.block > c.leaf.items[c.pos].block then c.pos + 1
    else c.pos
  }

  ghost function Around(c: Cursor): seq<Extent>
    requires c.Ok()
  {
    Pre(c.path) + c.leaf.items + Post(c.path)
  }

  /** The leaf reached has room for `e`, and next to the extent picked is its sorted place.
      A leaf freshly added for `e` is empty and already indexed under the start of `e`. */
  ghost predicate Ready(g: Geometry, c: Cursor, e: Extent) {
    && c.Ok() && Ctx(g, c.path, 0)
    && c.leaf.max == g.Max(c.path == [], 0) && |c.leaf.items| < c.leaf.max
    && (c.path != [] ==>
          HoleKey(c.path) == if c.leaf.items == [] then e.block else c.leaf.items[0].block)
    && Sorted(Around(c)) && e.Valid() && Disjoint(Around(c), e)
    && PlaceOk(Around(c), |Pre(c.path)| + Slot(c, e), e.block)
  }

  ghost predicate PlaceOk(es: seq<Extent>, k: nat, b: int) {
    && k <= |es|
    && (k > 0 ==> es[k - 1].block < b)
    && (k < |es| ==> b < es[k].block)
  }

  lemma {:induction false} ReadyIfRoom(g: Geometry, root: ENode, d: nat, c: Cursor, e: Extent)
    requires RootOk(g, root, d) && Sorted(Flat(root)) && c.Found(root, d, e.block)
    requires e.Valid() && Disjoint(Flat(root), e) && |c.leaf.items| < c.leaf.max
    ensures Ready(g, c, e)
  {
    FoundIsNearest(g, root, d, e.block, c);
    NearestPlace(Flat(root), c, e);
  }

  lemma {:induction false} NearestPlace(es: seq<Extent>, c: Cursor, e: Extent)
    requires c.Ok() && Sorted(es) && e.Valid() && Disjoint(es, e)
    requires c.pos == -1 ==> es == [] && c.path == []
    requires c.pos >= 0 ==> Nearest(es, c.Index(), e.block) && es[c.Index()] == c.leaf.items[c.pos]
    ensures PlaceOk(es, |Pre(c.path)| + Slot(c, e), e.block)
  {
    if c.pos >= 0 {
      var i := c.Index();
      assert ValidAt(es, i);
      assert es[i].End() <= e.block || e.End() <= es[i].block;
    }
  }

  function SetKey(l: Level<Extent>, key: int): Level<Extent>
    requires l.Ok()
  {
    l.(es := l.es[l.pos := Entry(key, l.es[l.pos].child)])
  }

  /** Keys are right from level `k` down; above it, only the key leading to a first entry
      may still be stale. */
  ghost predicate Repairing(p: EPath, k: nat, border: int) {
    && PathOk(p) && k < |p|
    && p[k].es[p[k].pos].key == border && HoleKey(p) == border
    && (forall j :: 0 <= j < |p| - 1 && (j + 1 == k ==> p[k].pos != 0) ==> Linked(p, j))
  }

  lemma {:induction false} RepairStep(p: EPath, k: nat, border: int)
    requires Repairing(p, k, border) && k > 0 && p[k].pos == 0
    ensures Repairing(p[k - 1 := SetKey(p[k - 1], border)], k - 1, border)
  {
    var q := p[k - 1 := SetKey(p[k - 1], border)];
    forall j | 0 <= j < |q| - 1 && (j + 1 == k - 1 ==> q[k - 1].pos != 0) ensures Linked(q, j) {
      if j + 1 != k {
        assert Linked(p, j);
      }
    }
  }

  lemma {:induction false} RepairStart(p: EPath, border: int)
    requires p != [] && PathOk(p) && forall j :: 0 <= j < |p| - 1 ==> Linked(p, j)
    ensures var k := |p| - 1; Repairing(p[k := SetKey(p[k], border)], k, border)
  {
    var k := |p| - 1;
    var q := p[k := SetKey(p[k], border)];
    forall j | 0 <= j < |q| - 1 && (j + 1 == k ==> q[k].pos != 0) ensures Linked(q, j) {
      assert Linked(p, j);
    }
  }

  lemma {:induction false} SameAroundStep(p: EPath, path: EPath, k: nat, border: int)
    requires SameAround(p, path) && k < |p|
    ensures SameAround(p[k := SetKey(p[k], border)], path)
  {
    var q := p[k := SetKey(p[k], border)];
    forall j | 0 <= j < |q| ensures SameSides(q[j], path[j]) {
      assert SameSides(p[j], path[j]);
    }
  }

  lemma {:induction false} SameAroundCtx(g: Geometry, path: EPath, p: EPath)
    requires Ctx(g, path, 0) && SameAround(p, path)
    requires PathOk(p) && forall j :: 0 <= j < |p| - 1 ==> Linked(p, j)
    ensures Ctx(g, p, 0)
  {
    forall j | 0 <= j < |p| ensures LevelOk(g, p[j], |p| - j, j == 0) {
      assert LevelOk(g, path[j], |path| - j, j == 0);
      assert SameSides(p[j], path[j]);
    }
  }

  /** After the first extent of a leaf has changed: repair the keys above it, going up as
      long as the path goes through first entries. */
  method CorrectIndexes(g: Geometry, path: EPath, border: int) returns (p: EPath)
    requires path != [] && Ctx(g, path, 0)
    ensures |p| == |path| && Ctx(g, p, 0) && HoleKey(p) == border
    ensures Pre(p) == Pre(path) && Post(p) == Post(path)
  {
    var k := |path| - 1;
    p := path[k := SetKey(path[k], border)];
    RepairStart(path, border);
    SameAroundStep(path, path, k, border);
    while k > 0 && p[k].pos == 0
      invariant 0 <= k < |path| && SameAround(p, path) && Repairing(p, k, border)
    {
      RepairStep(p, k, border);
      SameAroundStep(p, path, k - 1, border);
      k := k - 1;
      p := p[k := SetKey(p[k], border)];
    }
    SameAroundSameSides(p, path);
    SameAroundCtx(g, path, p);
  }

  lemma {:induction false} InsertMiddle(pre: seq<Extent>, mid: seq<Extent>, post: seq<Extent>, e: Extent, q: nat)
    requires q <= |mid| && Sorted(pre + mid + post) && e.Valid() && Disjoint(pre + mid + post, e)
    requires PlaceOk(pre + mid + post, |pre| + q, e.block)
    ensures Inserted(pre + mid + post, e) == pre + (mid[..q] + [e] + mid[q..]) + post
    ensures Sorted(Inserted(pre + mid + post, e))
  {
    var es := pre + mid + post;
    InsertedAt(es, e, |pre| + q);
    InsertInMiddle(pre, mid, post, [e], q);
  }

  /** Puts `e` into the leaf reached and repairs the index above it. */
  method InsertInLeaf(g: Geometry, c: Cursor, e: Extent) returns (root: ENode)
    requires Ready(g, c, e)
    ensures RootOk(g, root, |c.path|)
    ensures Flat(root) == Inserted(Around(c), e) && Sorted(Flat(root))
  {
    var q := Slot(c, e);
    InsertMiddle(Pre(c.path), c.leaf.items, Post(c.path), e, q);
    var leaf := Leaf(c.leaf.max, c.leaf.items[..q] + [e] + c.leaf.items[q..]);
    var path := c.path;
    if q == 0 && path != [] {
      path := CorrectIndexes(g, path, e.block);
    }
    root := Fill(path, leaf);
    FillShape(g, path, leaf, 0);
    FlatFill(path, leaf);
  }

  // ------------------------------------------------------------ splitting

  /** The entries of a level up to and including the one taken. */
  function CutLeft(l: Level<Extent>): Level<Extent>
    requires l.Ok()
  {
    l.(es := l.es[..l.pos + 1])
  }

  /** A new index block: the entry for the new child, then what followed the one taken. */
  function CutRight(l: Level<Extent>, max: nat, border: int, n: ENode): Level<Extent>
    requires l.Ok()
  {
    Level(max, [Entry(border, n)] + l.es[l.pos + 1..], 0)
  }

  /** `l` is what stays of the subtree below `s` left of the split: well-formed, and `b` is
      searched for at its right edge. */
  ghost predicate LeftHalf(g: Geometry, s: EPath, l: ENode, lp: EPath, leaf: ENode, key: int, b: int) {
    && PathOk(s) && PathOk(lp) && |lp| == |s|
    && l == Fill(lp, leaf) && OnPath(lp, b)
    && Sub(g, l, |s|) && FirstKey(l) == key
    && Pre(lp) == Pre(s) && Post(lp) == []
  }

  /** `r` is the new subtree right of the split; it is well-formed once its first leaf is
      `full` instead of `leaf`. */
  ghost predicate RightHalf(g: Geometry, s: EPath, r: ENode, rp: EPath, leaf: ENode, full: ENode, border: int, b: int) {
    && PathOk(s) && PathOk(rp) && |rp| == |s|
    && r == Fill(rp, leaf) && OnPath(rp, b)
    && Sub(g, Fill(rp, full), |s|) && FirstKey(Fill(rp, full)) == border
    && Pre(rp) == [] && Post(rp) == Post(s)
  }

  lemma {:induction false} LeftSides(lv: Level<Extent>, s: EPath, lp: EPath)
    requires lv.Ok() && PathOk(s) && PathOk(lp) && Pre(lp) == Pre(s) && Post(lp) == []
    ensures PathOk([CutLeft(lv)] + lp) && PathOk([lv] + s)
    ensures Pre([CutLeft(lv)] + lp) == Pre([lv] + s) && Post([CutLeft(lv)] + lp) == []
  {
    var cut := CutLeft(lv);
    SidesFront(cut, lp);
    SidesFront(lv, s);
    assert cut.es[..cut.pos] == lv.es[..lv.pos];
    assert cut.es[cut.pos + 1..] == [];
  }

  lemma {:induction false} LeftUp(g: Geometry, lv: Level<Extent>, s: EPath, l: ENode, lp: EPath, leaf: ENode, b: int)
    requires LevelOk(g, lv, |s| + 1, false) && Chosen(lv.es, lv.pos, b)
    requires LeftHalf(g, s, l, lp, leaf, lv.es[lv.pos].key, b)
    ensures LeftHalf(g, [lv] + s, CutLeft(lv).Put(l), [CutLeft(lv)] + lp, leaf, lv.es[0].key, b)
  {
    var cut := CutLeft(lv);
    FillFront(cut, lp, leaf);
    LeftSides(lv, s, lp);
    PutShape(g, cut, l, |s|, false);
  }

  lemma {:induction false} RightSides(lv: Level<Extent>, s: EPath, rp: EPath, max: nat, border: int, r: ENode)
    requires lv.Ok() && PathOk(s) && PathOk(rp) && Pre(rp) == [] && Post(rp) == Post(s)
    ensures PathOk([CutRight(lv, max, border, r)] + rp) && PathOk([lv] + s)
    ensures Pre([CutRight(lv, max, border, r)] + rp) == []
    ensures Post([CutRight(lv, max, border, r)] + rp) == Post([lv] + s)
  {
    var cut := CutRight(lv, max, border, r);
    SidesFront(cut, rp);
    SidesFront(lv, s);
    assert cut.es[..0] == [];
    assert cut.es[1..] == lv.es[lv.pos + 1..];
  }

  lemma {:induction false} RightLevel(g: Geometry, lv: Level<Extent>, d: nat, border: int, r: ENode)
    requires d > 0 && LevelOk(g, lv, d, false)
    ensures LevelOk(g, CutRight(lv, g.index, border, r), d, false)
  {
    var cut := CutRight(lv, g.index, border, r);
    forall i | 0 <= i < |cut.es| && i != cut.pos ensures EntryOk(g, cut.es[i], d) {
      assert cut.es[i] == lv.es[lv.pos + i];
    }
  }

  lemma {:induction false} RightUp(g: Geometry, lv: Level<Extent>, s: EPath, r: ENode, rp: EPath, leaf: ENode,
                                   full: ENode, border: int, b: int)
    requires LevelOk(g, lv, |s| + 1, false) && Chosen(lv.es, lv.pos, b)
    requires RightHalf(g, s, r, rp, leaf, full, border, b)
    ensures var cut := CutRight(lv, g.index, border, r);
            RightHalf(g, [lv] + s, Index(g.index, cut.es), [cut] + rp, leaf, full, border, b)
  {
    var cut := CutRight(lv, g.index, border, r);
    assert cut.Put(r) == Index(g.index, cut.es);
    FillFront(cut, rp, leaf);
    FillFront(cut, rp, full);
    RightSides(lv, s, rp, g.index, border, r);
    RightLevel(g, lv, |s| + 1, border, r);
    PutShape(g, cut, Fill(rp, full), |s|, false);
  }

  /** The entries of level `lv` after the split: the shortened child, then the new one. */
  function TopEntries(lv: Level<Extent>, l: ENode, r: ENode, border: int): seq<Entry<Extent>>
    requires lv.Ok()
  {
    lv.es[..lv.pos] + [Entry(lv.es[lv.pos].key, l), Entry(border, r)] + lv.es[lv.pos + 1..]
  }

  lemma {:induction false} TopUpdate(lv: Level<Extent>, l: ENode, r: ENode, n: ENode, border: int)
    requires lv.Ok()
    ensures TopEntries(lv, l, r, border)[lv.pos + 1 := Entry(border, n)] == TopEntries(lv, l, n, border)
  {
  }

  lemma {:induction false} TopShape(g: Geometry, path: EPath, at: nat, l: ENode, r: ENode, border: int)
    requires Ctx(g, path, 0) && at < |path| && |path[at].es| < path[at].max
    requires var d := |path| - at - 1;
             && Sub(g, l, d) && FirstKey(l) == path[at].es[path[at].pos].key
             && Sub(g, r, d) && FirstKey(r) == border
    ensures RootOk(g, Fill(path[..at], Index(path[at].max, TopEntries(path[at], l, r, border))), |path|)
  {
    var lv, d := path[at], |path| - at;
    var es := TopEntries(lv, l, r, border);
    var n := Index(lv.max, es);
    assert LevelOk(g, path[at], d, at == 0);
    forall i | 0 <= i < |es| ensures EntryOk(g, es[i], d) {
      if i < lv.pos {
        assert EntryOk(g, lv.es[i], d);
      } else if i > lv.pos + 1 {
        assert es[i] == lv.es[i - 1] && EntryOk(g, lv.es[i - 1], d);
      }
    }
    CtxPrefix(g, path, 0, at);
    assert es[0].key == lv.es[0].key;
    if at > 0 {
      assert Linked(path, at - 1);
      assert FirstKey(n) == HoleKey(path[..at]);
      assert Sub(g, n, d);
    } else {
      assert RootOk(g, n, d);
    }
    assert Ctx(g, path[..at], d);
    FillShape(g, path[..at], n, d);
  }

  lemma {:induction false} TopFlat(up: EPath, lv: Level<Extent>, s: EPath, l: ENode, r: ENode, border: int,
                                   a: seq<Extent>, b: seq<Extent>)
    requires PathOk(up) && lv.Ok() && PathOk(s)
    requires Flat(l) == Pre(s) + a && Flat(r) == b + Post(s)
    ensures PathOk(up + ([lv] + s))
    ensures Flat(Fill(up, Index(lv.max, TopEntries(lv, l, r, border))))
            == Pre(up + ([lv] + s)) + (a + b) + Post(up + ([lv] + s))
    ensures FlatEs(TopEntries(lv, l, r, border)[..lv.pos + 1]) == FlatEs(lv.es[..lv.pos]) + Flat(l)
  {
    var es := TopEntries(lv, l, r, border);
    var n := Index(lv.max, es);
    FlatEsAt(es, lv.pos);
    FlatEsAt(es[lv.pos + 1..], 0);
    assert es[..lv.pos] == lv.es[..lv.pos];
    assert es[lv.pos + 1..][1..] == lv.es[lv.pos + 1..];
    assert es[lv.pos + 1..][..0] == [];
    FlatFill(up, n);
    SidesFront(lv, s);
    SidesConcat(up, [lv] + s);
    Regroup(Pre(up), FlatEs(lv.es[..lv.pos]), Pre(s), a, b, Post(s), FlatEs(lv.es[lv.pos + 1..]), Post(up));
    FlatEsConcat(es[..lv.pos], [es[lv.pos]]);
    assert es[..lv.pos + 1] == es[..lv.pos] + [es[lv.pos]];
    assert [es[lv.pos]][1..] == [];
  }

  lemma {:induction false} Regroup(u: seq<Extent>, v: seq<Extent>, w: seq<Extent>, a: seq<Extent>, b: seq<Extent>,
                                   x: seq<Extent>, y: seq<Extent>, z: seq<Extent>)
    ensures u + (v + (w + a) + ((b + x) + y)) + z == (u + (v + w)) + (a + b) + ((x + y) + z)
  {
  }

  /** What a split leaves for `e`: searching for `e` leads to `leaf`, which has room. Either
      the tree is well-formed as it stands, or `leaf` is new and empty and the tree is
      well-formed as soon as `e` is in it. */
  ghost predicate Landing(g: Geometry, root: ENode, path: EPath, leaf: ENode, e: Extent) {
    && PathOk(path) && OnPath(path, e.block)
    && leaf.Leaf? && |leaf.items| < leaf.max
    && root == Fill(path, leaf)
    && RootOk(g, Fill(path, FullLeaf(leaf, e)), |path|)
    && (leaf.items == [] ==> PlaceOk(Flat(root), |Pre(path)|, e.block))
  }

  function FullLeaf(leaf: ENode, e: Extent): ENode
    requires leaf.Leaf?
  {
    if leaf.items == [] then Leaf(leaf.max, [e]) else leaf
  }

  method InsertIndex(lv: Level<Extent>, key: int, n: ENode) returns (es: seq<Entry<Extent>>)
    requires lv.Ok() && |lv.es| < lv.max && key != lv.es[lv.pos].key
    ensures key > lv.es[lv.pos].key ==> es == lv.es[..lv.pos + 1] + [Entry(key, n)] + lv.es[lv.pos + 1..]
    ensures key < lv.es[lv.pos].key ==> es == lv.es[..lv.pos] + [Entry(key, n)] + lv.es[lv.pos..]
  {
    var ix := lv.pos;
    if key > lv.es[lv.pos].key {
      ix := lv.pos + 1;
    }
    es := lv.es[..ix] + [Entry(key, n)] + lv.es[ix..];
  }

  lemma {:induction false} LandsLeft(g: Geometry, path: EPath, at: nat, l: ENode, lp: EPath, leaf: ENode, r: ENode,
                                     border: int, e: Extent)
    requires Ctx(g, path, 0) && at < |path| && |path[at].es| < path[at].max && OnPath(path, e.block)
    requires LeftHalf(g, path[at + 1..], l, lp, leaf, path[at].es[path[at].pos].key, e.block)
    requires Sub(g, r, |path| - at - 1) && FirstKey(r) == border && e.block < border
    requires leaf.Leaf? && 0 < |leaf.items| < leaf.max
    ensures var lv := path[at];
            var es := TopEntries(lv, l, r, border);
            Landing(g, Fill(path[..at], Index(lv.max, es)), path[..at] + ([Level(lv.max, es, lv.pos)] + lp), leaf, e)
  {
    var lv := path[at];
    var es := TopEntries(lv, l, r, border);
    var x := Level(lv.max, es, lv.pos);
    assert Chosen(path[at].es, lv.pos, e.block);
    var q := path[..at] + ([x] + lp);
    Route(path[..at], x, lp, leaf, e.block);
    TopShape(g, path, at, l, r, border);
    assert |q| == |path|;
    assert RootOk(g, Fill(q, leaf), |q|);
  }

  lemma {:induction false} RightFill(path: EPath, at: nat, l: ENode, r: ENode, rp: EPath, full: ENode, border: int,
                                     x: Level<Extent>, q: EPath)
    requires PathOk(path) && at < |path| && PathOk(rp) && |rp| == |path| - at - 1
    requires x == Level(path[at].max, TopEntries(path[at], l, r, border), path[at].pos + 1)
    requires q == path[..at] + ([x] + rp)
    ensures PathOk(q) && |q| == |path|
    ensures Fill(q, full) == Fill(path[..at], Index(path[at].max, TopEntries(path[at], l, Fill(rp, full), border)))
  {
    assert x.Put(Fill(rp, full)).es == TopEntries(path[at], l, Fill(rp, full), border) by {
      TopUpdate(path[at], l, r, Fill(rp, full), border);
    }
    FillFront(x, rp, full);
    FillConcat(path[..at], [x] + rp, full);
  }

  lemma {:induction false} RightRoute(path: EPath, at: nat, l: ENode, rp: EPath, leaf: ENode, b: int,
                                      x: Level<Extent>, q: EPath)
    requires PathOk(path) && at < |path| && OnPath(path, b) && PathOk(rp) && OnPath(rp, b)
    requires x == Level(path[at].max, TopEntries(path[at], l, Fill(rp, leaf), b), path[at].pos + 1)
    requires q == path[..at] + ([x] + rp)
    ensures PathOk(q) && OnPath(q, b) && Fill(q, leaf) == Fill(path[..at], Index(x.max, x.es))
    ensures |Pre(rp)| == 0 ==> |Pre(q)| == |Pre(path[..at])| + |FlatEs(x.es[..x.pos])|
  {
    assert Chosen(path[at].es, path[at].pos, b);
    Route(path[..at], x, rp, leaf, b);
  }

  lemma {:induction false} LandsRight(g: Geometry, path: EPath, at: nat, l: ENode, r: ENode, rp: EPath, leaf: ENode,
                                      full: ENode, e: Extent, x: Level<Extent>, root: ENode, q: EPath, n: nat)
    requires Ctx(g, path, 0) && at < |path| && |path[at].es| < path[at].max && OnPath(path, e.block)
    requires PathOk(rp) && |rp| == |path| - at - 1 && OnPath(rp, e.block) && |Pre(rp)| == 0
    requires Sub(g, l, |rp|) && FirstKey(l) == path[at].es[path[at].pos].key
    requires leaf.Leaf? && leaf.items == [] && 0 < leaf.max && full == FullLeaf(leaf, e)
    requires r == Fill(rp, leaf) && Sub(g, Fill(rp, full), |rp|) && FirstKey(Fill(rp, full)) == e.block
    requires x == Level(path[at].max, TopEntries(path[at], l, r, e.block), path[at].pos + 1)
    requires root == Fill(path[..at], Index(x.max, x.es)) && q == path[..at] + ([x] + rp)
    requires n == |Pre(path[..at])| + |FlatEs(x.es[..x.pos])| && PlaceOk(Flat(root), n, e.block)
    ensures |q| == |path| && Landing(g, root, q, leaf, e)
  {
    assert PathOk(q) && |q| == |path| && RootOk(g, Fill(q, full), |q|) by {
      RightFill(path, at, l, r, rp, full, e.block, x, q);
      TopShape(g, path, at, l, Fill(rp, full), e.block);
    }
    RightRoute(path, at, l, rp, leaf, e.block, x, q);
  }

  /** The split point lies above everything that stays on the left. */
  lemma {:induction false} BorderAbove(g: Geometry, c: Cursor, s: EPath, e: Extent, border: int, l: ENode, lp: EPath,
                                       ll: ENode, key: int)
    requires c.Ok() && Sorted(c.leaf.items) && 0 <= c.pos && c.leaf.items[c.pos].block < border
    requires ll == Leaf(c.leaf.max, c.leaf.items[..c.pos + 1])
    requires LeftHalf(g, s, l, lp, ll, key, e.block) && Sorted(Pre(s) + c.leaf.items)
    ensures Flat(l) == Pre(s) + c.leaf.items[..c.pos + 1]
    ensures key < border
  {
    FlatFill(lp, ll);
    SubFlat(g, l, |s|);
    var all := Pre(s) + c.leaf.items;
    var k := |Pre(s)| + c.pos + 1;
    assert Flat(l) == all[..k];
    assert all == all[..k] + all[k..];
    SortedParts(all[..k], all[k..]);
    FirstNotAboveLast(all[..k]);
  }

  /** Where the leaf reached is cut: before the extent after the one picked, or, when the
      one picked is the last, at the new extent itself. */
  function Border(c: Cursor, e: Extent): int
    requires c.Ok()
  {
    if c.pos + 1 < |c.leaf.items| then c.leaf.items[c.pos + 1].block else e.block
  }

  function LeftLeaf(c: Cursor): ENode
    requires c.Ok()
  {
    Leaf(c.leaf.max, c.leaf.items[..c.pos + 1])
  }

  function RightLeaf(g: Geometry, c: Cursor): ENode
    requires c.Ok()
  {
    Leaf(g.leaf, c.leaf.items[c.pos + 1..])
  }

  /** The two subtrees left and right of the cut, below level `at`. */
  ghost predicate Halves(g: Geometry, c: Cursor, e: Extent, at: nat, left: ENode, lp: EPath, right: ENode, rp: EPath) {
    && c.Ok() && at < |c.path|
    && LeftHalf(g, c.path[at + 1..], left, lp, LeftLeaf(c), c.path[at].es[c.path[at].pos].key, e.block)
    && RightHalf(g, c.path[at + 1..], right, rp, RightLeaf(g, c), FullLeaf(RightLeaf(g, c), e), Border(c, e), e.block)
  }

  lemma {:induction false} HalvesStart(g: Geometry, c: Cursor, e: Extent)
    requires g.Valid() && c.Ok() && 0 <= c.pos && c.path != [] && Sits(g, c.path, c.leaf, 0)
    ensures Halves(g, c, e, |c.path| - 1, LeftLeaf(c), [], RightLeaf(g, c), [])
  {
    assert c.path[|c.path|..] == [];
  }

  lemma {:induction false} HalvesUp(g: Geometry, c: Cursor, e: Extent, i: nat, left: ENode, lp: EPath, right: ENode,
                                    rp: EPath)
    requires 0 < i && Halves(g, c, e, i, left, lp, right, rp) && Sits(g, c.path, c.leaf, 0) && OnPath(c.path, e.block)
    ensures var lv := c.path[i];
            var cut := CutRight(lv, g.index, Border(c, e), right);
            Halves(g, c, e, i - 1, CutLeft(lv).Put(left), [CutLeft(lv)] + lp, Index(g.index, cut.es), [cut] + rp)
  {
    var path, lv := c.path, c.path[i];
    assert LevelOk(g, path[i], |path| - i, i == 0) && Linked(path, i - 1);
    assert Chosen(path[i].es, lv.pos, e.block);
    assert [lv] + path[i + 1..] == path[i..];
    LeftUp(g, lv, path[i + 1..], left, lp, LeftLeaf(c), e.block);
    RightUp(g, lv, path[i + 1..], right, rp, RightLeaf(g, c), FullLeaf(RightLeaf(g, c), e), Border(c, e), e.block);
  }

  /** Cuts the index block below level `i` in two, the blocks below that having been cut. */
  method HalveLevel(g: Geometry, c: Cursor, e: Extent, i: nat, left: ENode, ghost lp: EPath, right: ENode,
                    ghost rp: EPath)
    returns (left': ENode, right': ENode, ghost lp': EPath, ghost rp': EPath)
    requires Halves(g, c, e, i + 1, left, lp, right, rp) && Sits(g, c.path, c.leaf, 0) && OnPath(c.path, e.block)
    ensures Halves(g, c, e, i, left', lp', right', rp')
  {
    var lv, border := c.path[i + 1], Border(c, e);
    assert lv.Ok();
    HalvesUp(g, c, e, i + 1, left, lp, right, rp);
    lp', rp' := [CutLeft(lv)] + lp, [CutRight(lv, g.index, border, right)] + rp;
    left' := CutLeft(lv).Put(left);
    right' := Index(g.index, CutRight(lv, g.index, border, right).es);
  }

  /** Cuts the leaf and every index block below level `at` in two. */
  method SplitHalves(g: Geometry, c: Cursor, e: Extent, at: nat)
    returns (left: ENode, right: ENode, ghost lp: EPath, ghost rp: EPath)
    requires g.Valid() && c.Ok() && at < |c.path| && 0 <= c.pos
    requires Sits(g, c.path, c.leaf, 0) && OnPath(c.path, e.block)
    ensures Halves(g, c, e, at, left, lp, right, rp)
  {
    left, right := LeftLeaf(c), RightLeaf(g, c);
    lp, rp := [], [];
    var i := |c.path| - 1;
    HalvesStart(g, c, e);
    while i > at
      invariant at <= i < |c.path| && Halves(g, c, e, i, left, lp, right, rp)
    {
      i := i - 1;
      left, right, lp, rp := HalveLevel(g, c, e, i, left, lp, right, rp);
    }
  }

  lemma {:induction false} SliceSorted(a: seq<Extent>, b: seq<Extent>, m: seq<Extent>, z: seq<Extent>, all: seq<Extent>)
    requires Sorted(all) && all == (a + b) + m + z
    ensures Sorted(b + m) && Sorted(m)
  {
    assert all == a + (b + m) + z;
    SortedParts(a + (b + m), z);
    SortedParts(a, b + m);
    SortedParts(b, m);
  }

  lemma {:induction false} SplitKey(g: Geometry, c: Cursor, e: Extent, at: nat, left: ENode, lp: EPath)
    requires c.Ok() && at < |c.path| && 0 <= c.pos && Sorted(Around(c)) && c.leaf.items[c.pos].block < Border(c, e)
    requires LeftHalf(g, c.path[at + 1..], left, lp, LeftLeaf(c), c.path[at].es[c.path[at].pos].key, e.block)
    ensures c.path[at].es[c.path[at].pos].key < Border(c, e)
  {
    var up, s := c.path[..at + 1], c.path[at + 1..];
    assert c.path == up + s;
    SidesConcat(up, s);
    SliceSorted(Pre(up), Pre(s), c.leaf.items, Post(c.path), Around(c));
    BorderAbove(g, c, s, e, Border(c, e), left, lp, LeftLeaf(c), c.path[at].es[c.path[at].pos].key);
  }

  /** Shortening the subtree left of the cut and adding the one right of it moves nothing. */
  lemma {:induction false} HalvesFlat(up: EPath, lv: Level<Extent>, s: EPath, lp: EPath, ll: ENode, rp: EPath,
                                      rl: ENode, border: int, es: seq<Entry<Extent>>)
    requires PathOk(up) && lv.Ok() && PathOk(s) && PathOk(lp) && PathOk(rp)
    requires Pre(lp) == Pre(s) && |Post(lp)| == 0
    requires |Pre(rp)| == 0 && Post(rp) == Post(s)
    requires es == TopEntries(lv, Fill(lp, ll), Fill(rp, rl), border)
    ensures PathOk(up + ([lv] + s))
    ensures Flat(Fill(up, Index(lv.max, es))) == Pre(up + ([lv] + s)) + (Flat(ll) + Flat(rl)) + Post(up + ([lv] + s))
    ensures |Pre(up)| + |FlatEs(es[..lv.pos + 1])| == |Pre(up + ([lv] + s))| + |Flat(ll)|
  {
    FlatFill(lp, ll);
    FlatFill(rp, rl);
    TopFlat(up, lv, s, Fill(lp, ll), Fill(rp, rl), border, Flat(ll), Flat(rl));
    SidesFront(lv, s);
    PreConcat(up, [lv] + s);
  }

  lemma {:induction false} CutLeaf(g: Geometry, c: Cursor)
    requires c.Ok()
    ensures Flat(LeftLeaf(c)) + Flat(RightLeaf(g, c)) == c.leaf.items && |Flat(LeftLeaf(c))| == c.pos + 1
  {
  }

  lemma {:induction false} SplitFlat(g: Geometry, c: Cursor, e: Extent, at: nat, left: ENode, lp: EPath, right: ENode,
                                     rp: EPath, x: Level<Extent>, root: ENode)
    requires c.Ok() && at < |c.path| && 0 <= c.pos
    requires Halves(g, c, e, at, left, lp, right, rp)
    requires x == Level(c.path[at].max, TopEntries(c.path[at], left, right, Border(c, e)), c.path[at].pos + 1)
    requires root == Fill(c.path[..at], Index(x.max, x.es))
    ensures Flat(root) == Around(c)
    ensures |Pre(c.path)| + c.pos + 1 == |Pre(c.path[..at])| + |FlatEs(x.es[..x.pos])|
  {
    assert c.path[..at] + ([c.path[at]] + c.path[at + 1..]) == c.path;
    CutLeaf(g, c);
    HalvesFlat(c.path[..at], c.path[at], c.path[at + 1..], lp, LeftLeaf(c), rp, RightLeaf(g, c), Border(c, e), x.es);
  }

  lemma {:induction false} SplitLandsLeft(g: Geometry, c: Cursor, e: Extent, at: nat, left: ENode, lp: EPath,
                                          right: ENode, rp: EPath, es: seq<Entry<Extent>>,
                                          root: ENode) returns (q: EPath)
    requires c.Ok() && at < |c.path| && 0 <= c.pos && |c.path[at].es| < c.path[at].max
    requires |c.leaf.items| == c.leaf.max && g.Valid()
    requires Ctx(g, c.path, 0) && OnPath(c.path, e.block)
    requires Halves(g, c, e, at, left, lp, right, rp)
    requires es == TopEntries(c.path[at], left, right, Border(c, e))
    requires root == Fill(c.path[..at], Index(c.path[at].max, es))
    requires c.pos + 1 < |c.leaf.items| && e.block < Border(c, e)
    ensures |q| == |c.path| && Landing(g, root, q, LeftLeaf(c), e)
  {
    assert RightLeaf(g, c) == FullLeaf(RightLeaf(g, c), e);
    LandsLeft(g, c.path, at, left, lp, LeftLeaf(c), right, Border(c, e), e);
    q := c.path[..at] + ([Level(c.path[at].max, es, c.path[at].pos)] + lp);
  }

  lemma {:induction false} LeftHalfMeans(g: Geometry, s: EPath, l: ENode, lp: EPath, leaf: ENode, key: int, b: int,
                                         d: nat)
    requires LeftHalf(g, s, l, lp, leaf, key, b) && |s| == d
    ensures Sub(g, l, d) && FirstKey(l) == key
  {
  }

  lemma {:induction false} RightHalfMeans(g: Geometry, s: EPath, r: ENode, rp: EPath, leaf: ENode, full: ENode, b: int,
                                          d: nat)
    requires RightHalf(g, s, r, rp, leaf, full, b, b) && |s| == d
    ensures PathOk(rp) && |rp| == d && OnPath(rp, b) && |Pre(rp)| == 0
    ensures r == Fill(rp, leaf) && Sub(g, Fill(rp, full), |rp|) && FirstKey(Fill(rp, full)) == b
  {
  }

  /** With the new extent behind the leaf, the subtree on the right is only there for it. */
  lemma {:induction false} HalvesMean(g: Geometry, c: Cursor, e: Extent, at: nat, left: ENode, lp: EPath, right: ENode,
                                      rp: EPath)
    requires Halves(g, c, e, at, left, lp, right, rp) && c.pos + 1 == |c.leaf.items|
    ensures var leaf, full := RightLeaf(g, c), FullLeaf(RightLeaf(g, c), e);
            && leaf.Leaf? && leaf.items == [] && Border(c, e) == e.block
            && PathOk(rp) && |rp| == |c.path| - at - 1 && OnPath(rp, e.block) && |Pre(rp)| == 0
            && right == Fill(rp, leaf) && Sub(g, Fill(rp, full), |rp|) && FirstKey(Fill(rp, full)) == e.block
            && Sub(g, left, |rp|) && FirstKey(left) == c.path[at].es[c.path[at].pos].key
  {
    RightHalfMeans(g, c.path[at + 1..], right, rp, RightLeaf(g, c), FullLeaf(RightLeaf(g, c), e), e.block, |rp|);
    LeftHalfMeans(g, c.path[at + 1..], left, lp, LeftLeaf(c), c.path[at].es[c.path[at].pos].key, e.block, |rp|);
  }

  lemma {:induction false} SplitLandsRight(g: Geometry, c: Cursor, e: Extent, at: nat, left: ENode, lp: EPath,
                                           right: ENode, rp: EPath, x: Level<Extent>, root: ENode,
                                           n: nat) returns (q: EPath)
    requires c.Ok() && at < |c.path| && 0 <= c.pos && |c.path[at].es| < c.path[at].max && g.Valid()
    requires Ctx(g, c.path, 0) && OnPath(c.path, e.block)
    requires Halves(g, c, e, at, left, lp, right, rp)
    requires x == Level(c.path[at].max, TopEntries(c.path[at], left, right, e.block), c.path[at].pos + 1)
    requires root == Fill(c.path[..at], Index(x.max, x.es)) && c.pos + 1 == |c.leaf.items|
    requires n == |Pre(c.path[..at])| + |FlatEs(x.es[..x.pos])| && PlaceOk(Flat(root), n, e.block)
    ensures |q| == |c.path| && Landing(g, root, q, RightLeaf(g, c), e)
  {
    var leaf, full := RightLeaf(g, c), FullLeaf(RightLeaf(g, c), e);
    HalvesMean(g, c, e, at, left, lp, right, rp);
    q := c.path[..at] + ([x] + rp);
    LandsRight(g, c.path, at, left, right, rp, leaf, full, e, x, root, q, n);
  }

  lemma {:induction false} SplitLands(g: Geometry, c: Cursor, e: Extent, at: nat, left: ENode, lp: EPath,
                                      right: ENode, rp: EPath, x: Level<Extent>, root: ENode) returns (q: EPath)
    requires c.Ok() && at < |c.path| && 0 <= c.pos && |c.path[at].es| < c.path[at].max
    requires |c.leaf.items| == c.leaf.max && g.Valid()
    requires Ctx(g, c.path, 0) && OnPath(c.path, e.block)
    requires Halves(g, c, e, at, left, lp, right, rp)
    requires x == Level(c.path[at].max, TopEntries(c.path[at], left, right, Border(c, e)), c.path[at].pos + 1)
    requires root == Fill(c.path[..at], Index(x.max, x.es))
    requires c.pos + 1 < |c.leaf.items| ==> e.block < Border(c, e)
    requires c.pos + 1 == |c.leaf.items| ==> PlaceOk(Around(c), |Pre(c.path)| + c.pos + 1, e.block)
    ensures |q| == |c.path| && Flat(root) == Around(c)
    ensures Landing(g, root, q, if c.pos + 1 < |c.leaf.items| then LeftLeaf(c) else RightLeaf(g, c), e)
  {
    SplitFlat(g, c, e, at, left, lp, right, rp, x, root);
    if c.pos + 1 < |c.leaf.items| {
      q := SplitLandsLeft(g, c, e, at, left, lp, right, rp, x.es, root);
    } else {
      q := SplitLandsRight(g, c, e, at, left, lp, right, rp, x, root, |Pre(c.path)| + c.pos + 1);
    }
  }

  lemma {:induction false} PickedBelow(es: seq<Extent>, i: int, e: Extent)
    requires Sorted(es) && e.Valid() && Disjoint(es, e) && 0 < i < |es| && Nearest(es, i, e.block)
    ensures es[i].block < e.block
  {
    assert ValidAt(es, i);
  }

  /** Where the leaf will be cut, for an extent that overlaps no other. */
  lemma {:induction false} CutPlace(c: Cursor, e: Extent, all: seq<Extent>)
    requires c.Ok() && 2 <= |c.leaf.items| && Sorted(c.leaf.items) && Nearest(c.leaf.items, c.pos, e.block)
    requires Sorted(all) && e.Valid() && Disjoint(all, e)
    requires Nearest(all, c.Index(), e.block) && all[c.Index()] == c.leaf.items[c.pos]
    ensures c.leaf.items[c.pos].block < Border(c, e)
    ensures c.pos + 1 < |c.leaf.items| ==> e.block < Border(c, e)
    ensures c.pos + 1 == |c.leaf.items| ==> PlaceOk(all, |Pre(c.path)| + c.pos + 1, e.block)
  {
    if c.pos + 1 < |c.leaf.items| {
      assert ValidAt(c.leaf.items, c.pos) && Ordered(c.leaf.items, c.pos, c.pos + 1);
    } else {
      NearestPlace(all, c, e);
      PickedBelow(all, c.Index(), e);
    }
  }

  /** What a search that ended in a full leaf knows about where the leaf will be cut. */
  lemma {:induction false} CutFacts(g: Geometry, root: ENode, c: Cursor, e: Extent)
    requires g.Valid() && RootOk(g, root, |c.path|) && Sorted(Flat(root))
    requires c.Found(root, |c.path|, e.block) && e.Valid() && Disjoint(Flat(root), e)
    requires |c.leaf.items| == c.leaf.max
    ensures Sits(g, c.path, c.leaf, 0) && Flat(root) == Around(c)
    ensures 0 <= c.pos && c.leaf.items[c.pos].block < Border(c, e)
    ensures c.pos + 1 < |c.leaf.items| ==> e.block < Border(c, e)
    ensures c.pos + 1 == |c.leaf.items| ==> PlaceOk(Flat(root), |Pre(c.path)| + c.pos + 1, e.block)
  {
    FoundIsNearest(g, root, |c.path|, e.block, c);
    assert c.leaf.max == g.Max(c.path == [], 0);
    SortedMiddle(c.path, c.leaf);
    CutPlace(c, e, Flat(root));
  }

  /** Splits the tree along the path, from the leaf up to level `at`, which has a free entry. */
  method ExtSplit(g: Geometry, root: ENode, c: Cursor, e: Extent, at: nat)
    returns (r: ENode, ghost q: EPath)
    requires g.Valid() && RootOk(g, root, |c.path|) && Sorted(Flat(root))
    requires c.Found(root, |c.path|, e.block) && e.Valid() && Disjoint(Flat(root), e)
    requires at < |c.path| && |c.path[at].es| < c.path[at].max && |c.leaf.items| == c.leaf.max
    ensures |q| == |c.path| && Flat(r) == Flat(root)
    ensures Landing(g, r, q, if c.pos + 1 < |c.leaf.items| then LeftLeaf(c) else RightLeaf(g, c), e)
  {
    CutFacts(g, root, c, e);
    var path, lv := c.path, c.path[at];
    var left, right, lp, rp := SplitHalves(g, c, e, at);
    SplitKey(g, c, e, at, left, lp);
    var es := InsertIndex(lv.(es := lv.es[lv.pos := Entry(lv.es[lv.pos].key, left)]), Border(c, e), right);
    assert es == TopEntries(lv, left, right, Border(c, e));
    r := Fill(path[..at], Index(lv.max, es));
    q := SplitLands(g, c, e, at, left, lp, right, rp, Level(lv.max, es, lv.pos + 1), r);
  }

  lemma {:induction false} SameLevelOk(g: Geometry, p: EPath, q: EPath, k: nat)
    requires SamePath(p, q) && Ctx(g, p, 0) && k < |p|
    ensures LevelOk(g, q[k], |q| - k, k == 0)
  {
    assert LevelOk(g, p[k], |p| - k, k == 0) && SameLevel(p[k], q[k]);
  }

  lemma {:induction false} SameLinked(p: EPath, q: EPath, k: nat)
    requires SamePath(p, q) && k + 1 < |p| && Linked(p, k)
    ensures Linked(q, k)
  {
    assert SameLevel(p[k], q[k]) && SameLevel(p[k + 1], q[k + 1]);
  }

  lemma {:induction false} SamePathCtx(g: Geometry, p: EPath, q: EPath)
    requires SamePath(p, q) && Ctx(g, p, 0)
    ensures Ctx(g, q, 0) && Pre(q) == Pre(p) && Post(q) == Post(p)
    ensures p != [] ==> HoleKey(q) == HoleKey(p)
  {
    forall k | 0 <= k < |p| ensures SameSides(p[k], q[k]) {
      assert SameLevel(p[k], q[k]);
    }
    SameAroundSameSides(p, q);
    forall k | 0 <= k < |q| ensures LevelOk(g, q[k], |q| - k, k == 0) {
      SameLevelOk(g, p, q, k);
    }
    forall k | 0 <= k < |q| - 1 ensures Linked(q, k) {
      SameLinked(p, q, k);
    }
    if p != [] {
      assert SameLevel(p[|p| - 1], q[|q| - 1]);
    }
  }

  lemma {:induction false} LandingSorted(g: Geometry, root: ENode, q: EPath, leaf: ENode, e: Extent)
    requires Landing(g, root, q, leaf, e)
    requires Sorted(Flat(root)) && e.Valid() && Disjoint(Flat(root), e)
    ensures Sorted(Flat(Fill(q, FullLeaf(leaf, e))))
  {
    if leaf.items == [] {
      FlatFill(q, leaf);
      FlatFill(q, FullLeaf(leaf, e));
      assert Flat(root) == Pre(q) + [] + Post(q);
      InsertMiddle(Pre(q), [], Post(q), e, 0);
      assert [][..0] + [e] + [][0..] == [e];
    }
  }

  /** The tree a split leaves can be searched, empty leaf or not. */
  lemma {:induction false} LandingSearchable(g: Geometry, root: ENode, q: EPath, leaf: ENode, e: Extent)
    requires Landing(g, root, q, leaf, e)
    requires Sorted(Flat(root)) && e.Valid() && Disjoint(Flat(root), e)
    ensures Searchable(root, |q|)
  {
    LandingSorted(g, root, q, leaf, e);
    var full := FullLeaf(leaf, e);
    WellFormedIsSearchable(g, Fill(q, full), |q|);
    SearchFill(q, full, 0);
    SearchFill(q, leaf, 0);
  }

  /** Searching again after a split ends in the leaf made ready for `e`. */
  lemma {:induction false} LandingReady(g: Geometry, root: ENode, q: EPath, leaf: ENode, e: Extent, c: Cursor)
    requires Landing(g, root, q, leaf, e) && c.Found(root, |q|, e.block)
    requires q != [] && Sorted(Flat(root)) && e.Valid() && Disjoint(Flat(root), e)
    ensures Ready(g, c, e) && Around(c) == Flat(root)
  {
    PathUnique(q, leaf, c.path, c.leaf, e.block);
    if leaf.items == [] {
      LandingReadyEmpty(g, root, q, leaf, e, c);
    } else {
      ReadyIfRoom(g, root, |q|, c, e);
      FlatFill(c.path, c.leaf);
    }
  }

  lemma {:induction false} LandingReadyEmpty(g: Geometry, root: ENode, q: EPath, leaf: ENode, e: Extent, c: Cursor)
    requires Landing(g, root, q, leaf, e) && leaf.items == [] && q != []
    requires c.Ok() && SamePath(q, c.path) && c.leaf == leaf && root == Fill(c.path, leaf)
    requires Sorted(Flat(root)) && e.Valid() && Disjoint(Flat(root), e)
    ensures Ready(g, c, e) && Around(c) == Flat(root)
  {
    assert Ctx(g, q, 0) && HoleKey(q) == e.block && leaf.max == g.Max(false, 0) by {
      FillShape(g, q, FullLeaf(leaf, e), 0);
    }
    SamePathCtx(g, q, c.path);
    FlatFill(c.path, c.leaf);
    assert Slot(c, e) == 0;
  }

  lemma {:induction false} GrowShape(g: Geometry, root: ENode, d: nat, moved: ENode)
    requires g.Valid() && RootOk(g, root, d) && Size(root) > 0
    requires moved == if d == 0 then Leaf(g.leaf, root.items) else Index(g.index, root.es)
    ensures RootOk(g, Index(g.rootIndex, [Entry(FirstKey(root), moved)]), d + 1)
    ensures Flat(Index(g.rootIndex, [Entry(FirstKey(root), moved)])) == Flat(root)
  {
    var es := [Entry(FirstKey(root), moved)];
    assert root.Leaf? <==> d == 0;
    assert moved.Leaf? <==> d == 0;
    assert Size(moved) == Size(root) && FirstKey(moved) == FirstKey(root);
    assert Kids(g, moved, d);
    assert EntryOk(g, es[0], d + 1);
    assert es[1..] == [];
    assert FlatEs(es) == Flat(moved) + FlatEs(es[1..]);
    assert Flat(moved) == Flat(root);
  }

  /** Moves the contents of the inode body into a new block and makes the inode body an
      index with one entry for it. */
  method GrowInDepth(inode: Inode)
    requires inode.Valid() && Size(inode.root) > 0
    modifies inode
    ensures inode.Valid() && inode.Extents() == old(inode.Extents())
    ensures inode.depth == old(inode.depth) + 1 && Size(inode.root) == 1
  {
    var root, g, d := inode.root, inode.g, inode.depth;
    var moved := if d == 0 then Leaf(g.leaf, root.items) else Index(g.index, root.es);
    GrowShape(g, root, d, moved);
    inode.root := Index(g.rootIndex, [Entry(FirstKey(root), moved)]);
    inode.depth := d + 1;
  }

  /** Whether the block at level `i` of the cursor has a free entry. */
  predicate HasFree(c: Cursor, i: nat)
    requires c.Ok() && i <= |c.path|
  {
    if i == |c.path| then |c.leaf.items| < c.leaf.max else |c.path[i].es| < c.path[i].max
  }

  /** No block on the way to the cursor has a free entry, the leaf included. */
  ghost predicate PathFull(c: Cursor) {
    c.Ok() && forall i :: 0 <= i <= |c.path| ==> !HasFree(c, i)
  }

  /** Splits below level `at` and searches for `e` again. */
  method SplitAndFind(inode: Inode, c0: Cursor, e: Extent, at: nat) returns (c: Cursor)
    requires inode.Valid() && e.Valid() && Disjoint(inode.Extents(), e)
    requires c0.Found(inode.root, inode.depth, e.block) && |c0.leaf.items| == c0.leaf.max
    requires at < inode.depth && HasFree(c0, at)
    modifies inode
    ensures Ready(inode.g, c, e) && Around(c) == old(inode.Extents())
    ensures |c.path| == inode.depth == old(inode.depth)
  {
    var g := inode.g;
    var root, q := ExtSplit(g, inode.root, c0, e, at);
    ghost var leaf := if c0.pos + 1 < |c0.leaf.items| then LeftLeaf(c0) else RightLeaf(g, c0);
    LandingSearchable(g, root, q, leaf, e);
    inode.root := root;
    c := FindExtent(root, inode.depth, e.block);
    LandingReady(g, root, q, leaf, e, c);
  }

  /** Makes room for `e`: splits below the lowest index block with a free entry, or lets
      the tree grow first when there is none. */
  method CreateNewLeaf(inode: Inode, c0: Cursor, e: Extent) returns (c: Cursor)
    requires inode.Valid() && e.Valid() && Disjoint(inode.Extents(), e)
    requires c0.Found(inode.root, inode.depth, e.block) && |c0.leaf.items| == c0.leaf.max
    modifies inode
    ensures Ready(inode.g, c, e) && Around(c) == old(inode.Extents())
    ensures |c.path| == inode.depth == old(inode.depth) + (if PathFull(c0) then 1 else 0)
  {
    c := c0;
    while true
      invariant inode.Valid() && inode.Extents() == old(inode.Extents())
      invariant if inode.depth == old(inode.depth) then c == c0
                else PathFull(c0) && inode.depth == old(inode.depth) + 1 && Size(inode.root) < inode.root.max
      invariant c.Found(inode.root, inode.depth, e.block) && |c.leaf.items| == c.leaf.max
      decreases if Size(inode.root) < inode.root.max then 0 else 1
    {
      var i := LowestFree(c);
      if HasFree(c, i) {
        c := SplitAndFind(inode, c, e, i);
        return;
      }
      RootIsFull(c);
      c := GrowAndFind(inode, e);
      if |c.leaf.items| < c.leaf.max {
        return;
      }
    }
  }

  /** The lowest block on the way that has a free entry, or the root. */
  method LowestFree(c: Cursor) returns (i: nat)
    requires c.Ok()
    ensures i <= |c.path| && (HasFree(c, i) || PathFull(c))
    ensures HasFree(c, i) ==> !PathFull(c)
  {
    i := |c.path|;
    while i > 0 && !HasFree(c, i)
      invariant 0 <= i <= |c.path| && forall j :: i < j <= |c.path| ==> !HasFree(c, j)
    {
      i := i - 1;
    }
  }

  lemma {:induction false} RootIsFull(c: Cursor)
    requires PathFull(c)
    ensures Size(Fill(c.path, c.leaf)) >= Fill(c.path, c.leaf).max
  {
    assert !HasFree(c, 0);
    if c.path != [] {
      FillTop(c.path, c.leaf);
    }
  }

  /** Lets the tree grow and searches for `e` again. */
  method GrowAndFind(inode: Inode, e: Extent) returns (c: Cursor)
    requires inode.Valid() && e.Valid() && Disjoint(inode.Extents(), e) && Size(inode.root) > 0
    modifies inode
    ensures inode.Valid() && inode.Extents() == old(inode.Extents()) && inode.depth == old(inode.depth) + 1
    ensures Size(inode.root) < inode.root.max && c.Found(inode.root, inode.depth, e.block)
    ensures |c.leaf.items| <= c.leaf.max
    ensures |c.leaf.items| < c.leaf.max ==> Ready(inode.g, c, e) && Around(c) == inode.Extents()
  {
    GrowInDepth(inode);
    WellFormedIsSearchable(inode.g, inode.root, inode.depth);
    c := FindExtent(inode.root, inode.depth, e.block);
    FoundIsNearest(inode.g, inode.root, inode.depth, e.block, c);
    if |c.leaf.items| < c.leaf.max {
      ReadyIfRoom(inode.g, inode.root, inode.depth, c, e);
    }
  }

  /** ext4_ext_insert_extent without merging (PRE_IO): the file's extents gain `e` at its
      sorted place, whatever the tree has to go through. It gets a level more only if every block
      on the way to that place, where the search ends at `c0`, is full. */
  method InsertExtent(inode: Inode, e: Extent) returns (ghost c0: Cursor)
    requires inode.Valid() && e.Valid() && Disjoint(inode.Extents(), e)
    modifies inode
    ensures inode.Valid() && inode.Extents() == Inserted(old(inode.Extents()), e)
    ensures c0.Found(old(inode.root), old(inode.depth), e.block)
    ensures inode.depth == old(inode.depth) || (inode.depth == old(inode.depth) + 1 && PathFull(c0))
  {
    WellFormedIsSearchable(inode.g, inode.root, inode.depth);
    var c := FindExtent(inode.root, inode.depth, e.block);
    c0 := c;
    InsertAt(inode, c, e);
  }

  /** The same from where the search has ended. */
  method InsertAt(inode: Inode, c0: Cursor, e: Extent)
    requires inode.Valid() && e.Valid() && Disjoint(inode.Extents(), e)
    requires c0.Found(inode.root, inode.depth, e.block)
    modifies inode
    ensures inode.Valid() && inode.Extents() == Inserted(old(inode.Extents()), e)
    ensures inode.depth == old(inode.depth) || (inode.depth == old(inode.depth) + 1 && PathFull(c0))
  {
    var c := PlaceFor(inode, c0, e);
    var root := InsertInLeaf(inode.g, c, e);
    inode.root := root;
  }

  /** A leaf with room for `e` at its sorted place. */
  method PlaceFor(inode: Inode, c0: Cursor, e: Extent) returns (c: Cursor)
    requires inode.Valid() && e.Valid() && Disjoint(inode.Extents(), e)
    requires c0.Found(inode.root, inode.depth, e.block)
    modifies inode
    ensures Ready(inode.g, c, e) && Around(c) == old(inode.Extents()) && |c.path| == inode.depth
    ensures inode.depth == old(inode.depth) || (inode.depth == old(inode.depth) + 1 && PathFull(c0))
  {
    FoundIsNearest(inode.g, inode.root, inode.depth, e.block, c0);
    c := c0;
    if |c.leaf.items| < c.leaf.max {
      ReadyIfRoom(inode.g, inode.root, inode.depth, c, e);
    } else {
      c := FindRoom(inode, c, e);
    }
  }

  /** The leaf reached is full: try the next leaf, else make a new one. */
  method FindRoom(inode: Inode, c0: Cursor, e: Extent) returns (c: Cursor)
    requires inode.Valid() && e.Valid() && Disjoint(inode.Extents(), e)
    requires c0.Found(inode.root, inode.depth, e.block) && |c0.leaf.items| == c0.leaf.max
    modifies inode
    ensures Ready(inode.g, c, e) && Around(c) == old(inode.Extents())
    ensures |c.path| == inode.depth
    ensures inode.depth == old(inode.depth) || (inode.depth == old(inode.depth) + 1 && PathFull(c0))
  {
    var g := inode.g;
    FoundIsNearest(g, inode.root, inode.depth, e.block, c0);
    var next := EXT_MAX_BLOCKS;
    if e.block > c0.leaf.items[|c0.leaf.items| - 1].block {
      next := NextLeafBlock(g, c0.path, c0.leaf);
    }
    if next != EXT_MAX_BLOCKS {
      WellFormedIsSearchable(g, inode.root, inode.depth);
      var nc := FindExtent(inode.root, inode.depth, next);
      if |nc.leaf.items| < nc.leaf.max {
        NextLeafReady(g, inode.root, inode.depth, c0, nc, e);
        return nc;
      }
    }
    c := CreateNewLeaf(inode, c0, e);
  }

  /** Between the last extent of a leaf and the first of the next one. */
  lemma {:induction false} PlaceAfterLeaf(g: Geometry, root: ENode, d: nat, c: Cursor, b: int)
    requires RootOk(g, root, d) && c.Found(root, d, b) && c.leaf.items != []
    requires c.leaf.items[|c.leaf.items| - 1].block < b && Post(c.path) != []
    ensures var k := |Pre(c.path)| + |c.leaf.items|;
            k < |Flat(root)| && Flat(root)[k] == Post(c.path)[0] && PlaceOk(Flat(root), k, b)
  {
    FoundIsNearest(g, root, d, b, c);
    PathBounds(g, c.path, c.leaf, 0, b);
  }

  lemma {:induction false} NextLeafPlace(g: Geometry, root: ENode, d: nat, c: Cursor, nc: Cursor, e: Extent)
    requires RootOk(g, root, d) && Sorted(Flat(root))
    requires c.Found(root, d, e.block) && c.leaf.items != []
    requires c.leaf.items[|c.leaf.items| - 1].block < e.block && Post(c.path) != []
    requires nc.Found(root, d, Post(c.path)[0].block)
    ensures nc.pos >= 0 && Slot(nc, e) == nc.pos
    ensures PlaceOk(Flat(root), nc.Index(), e.block)
  {
    var es, k, b := Flat(root), |Pre(c.path)| + |c.leaf.items|, Post(c.path)[0].block;
    assert k < |es| && es[k].block == b && PlaceOk(es, k, e.block) by {
      PlaceAfterLeaf(g, root, d, c, e.block);
    }
    assert nc.pos >= 0 && Nearest(es, nc.Index(), b) && es[nc.Index()] == nc.leaf.items[nc.pos] by {
      FoundIsNearest(g, root, d, b, nc);
    }
    NearestOfStart(es, nc.Index(), k);
  }

  /** The leaf after a full one, if it has room, takes `e` before its first extent. */
  lemma {:induction false} NextLeafReady(g: Geometry, root: ENode, d: nat, c: Cursor, nc: Cursor, e: Extent)
    requires g.Valid() && RootOk(g, root, d) && Sorted(Flat(root)) && e.Valid() && Disjoint(Flat(root), e)
    requires c.Found(root, d, e.block) && c.leaf.items != []
    requires c.leaf.items[|c.leaf.items| - 1].block < e.block && Post(c.path) != []
    requires nc.Found(root, d, Post(c.path)[0].block) && |nc.leaf.items| < nc.leaf.max
    ensures Ready(g, nc, e) && Around(nc) == Flat(root)
  {
    NextLeafPlace(g, root, d, c, nc, e);
    FillShape(g, nc.path, nc.leaf, 0);
    FlatFill(nc.path, nc.leaf);
  }
}
