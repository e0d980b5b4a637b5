/**
 The hashed directory: an index from hash to directory block. Keys are lower bounds of the
 hashes in a block; an odd key says that the even hash below it continues from the block
 before. The key of the first entry of an index block is never looked at, its place on disk
 holds counts; here it repeats the key that leads to the block.
 */
module Htree {
  import opened Extents
  import opened KeyTree
  import opened DirBlock

  /** A directory block and the key it is filed under. */
  datatype HLeaf = HLeaf(key: int, recs: seq<Rec>)

  type HNode = Node<HLeaf>
  type HPath = Path<HLeaf>

  /** Entries per root and per index block, bytes of records per directory block, bytes per
      block, and the greatest number of index levels. */
  datatype Limits = Limits(root: nat, node: nat, size: nat, block: nat, levels: nat) {
    predicate Valid() {
      2 <= root < node && BlockSizes(size, block)
    }

    function Max(root: bool): nat {
      if root then this.root else node
    }
  }

  function Key(n: HNode): int {
    if n.Leaf? then (if n.items == [] then 0 else n.items[0].key)
    else (if n.es == [] then 0 else n.es[0].key)
  }

  // -------------------------------------------------------------------- shape

  /** A block below the root at distance `d` from the leaves. */
  ghost predicate Sub(g: Limits, n: HNode, d: nat)
    decreases d, 1
  {
    if d == 0 then n.Leaf? && |n.items| == 1 else n.Index? && n.max == g.node && Kids(g, n, d)
  }

  ghost predicate Kids(g: Limits, n: HNode, d: nat)
    requires n.Index? && d > 0
    decreases d, 0
  {
    0 < |n.es| <= n.max && forall i :: 0 <= i < |n.es| ==> EntryOk(g, n.es[i], d)
  }

  ghost predicate EntryOk(g: Limits, e: Entry<HLeaf>, d: nat)
    requires d > 0
    decreases d - 1, 2
  {
    Sub(g, e.child, d - 1) && e.key == Key(e.child)
  }

  ghost predicate RootOk(g: Limits, n: HNode, d: nat) {
    d > 0 && n.Index? && n.max == g.root && Kids(g, n, d)
  }

  lemma {:induction false} SubFlat(g: Limits, n: HNode, d: nat)
    requires Sub(g, n, d)
    ensures Flat(n) != [] && Flat(n)[0].key == Key(n)
    decreases d
  {
    if d > 0 {
      assert EntryOk(g, n.es[0], d);
      SubFlat(g, n.es[0].child, d - 1);
    }
  }

  function HoleKey(path: HPath): int
    requires path != [] && PathOk(path)
  {
    var l := path[|path| - 1];
    l.es[l.pos].key
  }

  ghost predicate LevelOk(g: Limits, l: Level<HLeaf>, d: nat, root: bool)
    requires d > 0
  {
    && l.Ok() && l.max == g.Max(root) && |l.es| <= l.max
    && (forall i :: 0 <= i < |l.es| && i != l.pos ==> EntryOk(g, l.es[i], d))
  }

  /** The path is sound around the place at distance `d` from the leaves where it ends. */
  ghost predicate Ctx(g: Limits, path: HPath, d: nat)
    decreases |path|
  {
    path == [] ||
      var l, up := path[|path| - 1], path[..|path| - 1];
      && LevelOk(g, l, d + 1, up == []) && Ctx(g, up, d + 1) && PathOk(up)
      && (up != [] ==> l.es[0].key == HoleKey(up))
  }

  /** `n` sits well-formed at the end of `path`. */
  ghost predicate Sits(g: Limits, path: HPath, n: HNode, d: nat) {
    && PathOk(path)
    && if path == [] then RootOk(g, n, d) else Ctx(g, path, d) && Sub(g, n, d) && Key(n) == HoleKey(path)
  }

  lemma {:induction false} PutShape(g: Limits, l: Level<HLeaf>, n: HNode, d: nat, root: bool)
    requires l.Ok()
    ensures LevelOk(g, l, d + 1, root) && EntryOk(g, Entry(l.es[l.pos].key, n), d + 1)
            <==> if root then RootOk(g, l.Put(n), d + 1) else Sub(g, l.Put(n), d + 1)
    ensures Key(l.Put(n)) == l.es[0].key
  {
    var es := l.Put(n).es;
    assert es[l.pos] == Entry(l.es[l.pos].key, n);
    assert forall i :: 0 <= i < |es| && i != l.pos ==> es[i] == l.es[i];
    assert Kids(g, l.Put(n), d + 1) <==>
           |l.es| <= l.max && EntryOk(g, es[l.pos], d + 1)
           && (forall i :: 0 <= i < |l.es| && i != l.pos ==> EntryOk(g, l.es[i], d + 1));
  }

  /** A tree is well-formed exactly when the path is sound and what sits at its end is. */
  lemma {:induction false} FillShape(g: Limits, path: HPath, n: HNode, d: nat)
    requires PathOk(path)
    ensures Sits(g, path, n, d) <==> RootOk(g, Fill(path, n), d + |path|)
    decreases |path|
  {
    if path != [] {
      var l, up := path[|path| - 1], path[..|path| - 1];
      FillShape(g, up, l.Put(n), d + 1);
      PutShape(g, l, n, d, up == []);
      assert EntryOk(g, Entry(l.es[l.pos].key, n), d + 1) <==> Sub(g, n, d) && l.es[l.pos].key == Key(n);
      assert Ctx(g, path, d) <==>
             LevelOk(g, l, d + 1, up == []) && Ctx(g, up, d + 1) && (up != [] ==> l.es[0].key == HoleKey(up));
      assert Sits(g, path, n, d) <==> Sits(g, up, l.Put(n), d + 1);
    }
  }

  // -------------------------------------------------------------- the meaning

  function Even(k: int): int {
    k - k % 2
  }

  /** Keys do not decrease from left to right. */
  ghost predicate KeyOrder(fl: seq<HLeaf>) {
    forall i, j :: 0 <= i < j < |fl| ==> fl[i].key <= fl[j].key
  }

  /** The hash belongs between two keys. */
  predicate Between(hash: int, lo: int, hi: Option<int>) {
    hash % 2 == 0 && Even(lo) <= hash && (hi.Some? ==> hash < hi.value)
  }

  function NextKey(fl: seq<HLeaf>, i: nat): Option<int> {
    if i + 1 < |fl| then Some(fl[i + 1].key) else None
  }

  ghost predicate LeafOk(g: Limits, fl: seq<HLeaf>, i: nat)
    requires i < |fl|
  {
    && Tiled(fl[i].recs, g.size)
    && forall k :: 0 <= k < |LiveOf(fl[i].recs)| ==> Between(LiveOf(fl[i].recs)[k].hash, fl[i].key, NextKey(fl, i))
  }

  /** The blocks of the directory, in key order, each holding hashes between its key and
      the next one. */
  ghost predicate Blocks(g: Limits, fl: seq<HLeaf>) {
    && fl != [] && fl[0].key == 0 && KeyOrder(fl)
    && forall i :: 0 <= i < |fl| ==> LeafOk(g, fl, i)
  }

  /** All entries of the directory, block by block. */
  function Entries(fl: seq<HLeaf>): seq<Dirent> {
    if fl == [] then [] else LiveOf(fl[0].recs) + Entries(fl[1..])
  }

  lemma {:induction false} EntriesConcat(a: seq<HLeaf>, b: seq<HLeaf>)
    ensures Entries(a + b) == Entries(a) + Entries(b)
  {
    if a == [] {
      assert a + b == b;
    } else {
      assert (a + b)[1..] == a[1..] + b;
      EntriesConcat(a[1..], b);
    }
  }

  lemma {:induction false} KeyOrderParts(a: seq<HLeaf>, b: seq<HLeaf>)
    requires KeyOrder(a + b)
    ensures KeyOrder(a) && KeyOrder(b)
    ensures a != [] && b != [] ==> a[0].key <= b[0].key
  {
    var s := a + b;
    forall i, j | 0 <= i < j < |a| ensures a[i].key <= a[j].key {
      assert s[i] == a[i] && s[j] == a[j];
    }
    forall i, j | 0 <= i < j < |b| ensures b[i].key <= b[j].key {
      assert s[|a| + i] == b[i] && s[|a| + j] == b[j];
    }
    if a != [] && b != [] {
      assert s[0] == a[0] && s[|a|] == b[0];
    }
  }

  /** Keys of an index block do not decrease either. */
  lemma {:induction false} EntryKeys(g: Limits, es: seq<Entry<HLeaf>>, d: nat)
    requires d > 0 && KeyOrder(FlatEs(es))
    requires forall i :: 0 <= i < |es| ==> EntryOk(g, es[i], d)
    ensures forall i, j :: 0 <= i < j < |es| ==> es[i].key <= es[j].key
    decreases |es|
  {
    if es != [] {
      var rest := es[1..];
      KeyOrderParts(Flat(es[0].child), FlatEs(rest));
      EntryKeys(g, rest, d);
      assert EntryOk(g, es[0], d);
      SubFlat(g, es[0].child, d - 1);
      if rest != [] {
        assert EntryOk(g, es[1], d);
        SubFlat(g, es[1].child, d - 1);
      }
      forall i, j | 0 <= i < j < |es| ensures es[i].key <= es[j].key {
        assert es[j] == rest[j - 1] && rest[0].key <= rest[j - 1].key;
        if i > 0 {
          assert es[i] == rest[i - 1];
        }
      }
    }
  }

  lemma {:induction false} MiddleOrder(path: HPath, n: HNode)
    requires PathOk(path) && KeyOrder(Flat(Fill(path, n)))
    ensures KeyOrder(Flat(n))
  {
    FlatFill(path, n);
    KeyOrderParts(Pre(path) + Flat(n), Post(path));
    KeyOrderParts(Pre(path), Flat(n));
  }

  // ---------------------------------------------------------------- searching

  /** dx_probe: down to the block whose key is the last one not above the hash. */
  method Probe(g: Limits, root: HNode, d: nat, hash: int) returns (path: HPath, leaf: HNode)
    requires RootOk(g, root, d) && KeyOrder(Flat(root))
    ensures |path| == d && Sits(g, path, leaf, 0) && root == Fill(path, leaf) && OnPath(path, hash)
    ensures forall k :: 0 <= k < |path| ==> KeysRise(path[k].es)
  {
    path, leaf := [], root;
    var i := d;
    while i > 0
      invariant 0 <= i <= d && |path| == d - i
      invariant Sits(g, path, leaf, i) && root == Fill(path, leaf) && OnPath(path, hash)
      invariant forall k :: 0 <= k < |path| ==> KeysRise(path[k].es)
    {
      MiddleOrder(path, leaf);
      assert leaf.Index? && Kids(g, leaf, i);
      EntryKeys(g, leaf.es, i);
      var pos := SearchEntries(leaf.es, hash);
      var l := Level(leaf.max, leaf.es, pos);
      Descend(g, path, leaf, i, pos);
      path := path + [l];
      leaf := leaf.es[pos].child;
      i := i - 1;
    }
  }

  lemma {:induction false} Descend(g: Limits, path: HPath, n: HNode, d: nat, pos: nat)
    requires Sits(g, path, n, d) && d > 0 && n.Index? && pos < |n.es|
    ensures var q := path + [Level(n.max, n.es, pos)];
            Sits(g, q, n.es[pos].child, d - 1) && Fill(q, n.es[pos].child) == Fill(path, n)
  {
    var l := Level(n.max, n.es, pos);
    var q := path + [l];
    assert q[..|path|] == path;
    assert l.Put(n.es[pos].child) == n;
    FillShape(g, path, n, d);
    FillShape(g, q, n.es[pos].child, d - 1);
  }

  /** What lies left of a probed path is not above the hash, what lies right of it is. */
  lemma {:induction false} PathBounds(g: Limits, path: HPath, n: HNode, d: nat, hash: int)
    requires Sits(g, path, n, d) && OnPath(path, hash)
    ensures Pre(path) != [] ==> Key(n) <= hash
    ensures Post(path) != [] ==> hash < Post(path)[0].key
    decreases |path|
  {
    if path != [] {
      var l, up := path[|path| - 1], path[..|path| - 1];
      FillShape(g, path, n, d);
      FillShape(g, up, l.Put(n), d + 1);
      PutShape(g, l, n, d, up == []);
      PathBounds(g, up, l.Put(n), d + 1, hash);
      assert Chosen(path[|path| - 1].es, l.pos, hash);
      if l.pos + 1 < |l.es| {
        assert EntryOk(g, l.es[l.pos + 1], d + 1);
        SubFlat(g, l.es[l.pos + 1].child, d);
      }
    }
  }

  lemma {:induction false} DescendFirst(g: Limits, path: HPath, n: HNode, d: nat)
    requires Sits(g, path, n, d) && d > 0 && n.Index? && n.es != []
    ensures var q := path + [Level(n.max, n.es, 0)];
            && Sits(g, q, n.es[0].child, d - 1) && Fill(q, n.es[0].child) == Fill(path, n)
            && Pre(q) == Pre(path) && Key(n.es[0].child) == Key(n)
  {
    var q := path + [Level(n.max, n.es, 0)];
    Descend(g, path, n, d, 0);
    assert q[..|path|] == path && n.es[..0] == [];
    assert EntryOk(g, n.es[0], d);
  }

  lemma {:induction false} SitsIndex(g: Limits, path: HPath, n: HNode, d: nat)
    requires Sits(g, path, n, d) && d > 0
    ensures n.Index? && Kids(g, n, d) && n.es != []
  {
    assert n.Index? && Kids(g, n, d);
  }

  /** One step to the right below the last level of the path. */
  lemma {:induction false} StepRight(g: Limits, up: HPath, l: Level<HLeaf>, cur: HNode, d: nat)
    requires Sits(g, up + [l], cur, d) && l.pos + 1 < |l.es|
    ensures l.Ok() && PathOk(up)
    ensures var n := l.Put(cur);
            var q := up + [Level(n.max, n.es, l.pos + 1)];
            && Sits(g, q, l.es[l.pos + 1].child, d) && Fill(q, l.es[l.pos + 1].child) == Fill(up + [l], cur)
            && Key(l.es[l.pos + 1].child) == l.es[l.pos + 1].key
  {
    assert (up + [l])[|up|] == l && (up + [l])[..|up|] == up;
    var n := l.Put(cur);
    FillShape(g, up + [l], cur, d);
    FillShape(g, up, n, d + 1);
    SitsIndex(g, up, n, d + 1);
    assert n.es[l.pos + 1] == l.es[l.pos + 1];
    Descend(g, up, n, d + 1, l.pos + 1);
    assert EntryOk(g, n.es[l.pos + 1], d + 1);
  }

  lemma {:induction false} StepRightPre(up: HPath, l: Level<HLeaf>, cur: HNode)
    requires PathOk(up) && l.pos + 1 < |l.es|
    ensures var n := l.Put(cur);
            Pre(up + [Level(n.max, n.es, l.pos + 1)]) == Pre(up + [l]) + Flat(cur)
  {
    var n := l.Put(cur);
    var x := Level(n.max, n.es, l.pos + 1);
    assert (up + [x])[..|up|] == up && (up + [l])[..|up|] == up;
    RightSide(l, cur);
    assert Pre(up) + (FlatEs(l.es[..l.pos]) + Flat(cur)) == Pre(up) + FlatEs(l.es[..l.pos]) + Flat(cur);
  }

  lemma {:induction false} RightSide(l: Level<HLeaf>, cur: HNode)
    requires l.pos + 1 < |l.es|
    ensures FlatEs(l.Put(cur).es[..l.pos + 1]) == FlatEs(l.es[..l.pos]) + Flat(cur)
  {
    var es := l.Put(cur).es;
    FlatEsAt(es[..l.pos + 1], l.pos);
    assert es[..l.pos + 1][..l.pos] == l.es[..l.pos];
    assert es[..l.pos + 1][l.pos + 1..] == [];
  }

  /** Going up from `leaf` as long as nothing follows it: `cur` is the block at level `k`. */
  ghost predicate Climbed(g: Limits, path: HPath, leaf: HNode, k: nat, cur: HNode)
    requires k <= |path|
  {
    && PathOk(path) && Sits(g, path[..k], cur, |path| - k) && Fill(path[..k], cur) == Fill(path, leaf)
    && Pre(path[..k]) + Flat(cur) == Pre(path) + Flat(leaf) && Post(path[..k]) == Post(path)
  }

  lemma {:induction false} ClimbStep(g: Limits, path: HPath, leaf: HNode, k: nat, cur: HNode)
    requires 0 < k <= |path| && Climbed(g, path, leaf, k, cur) && path[k - 1].pos + 1 == |path[k - 1].es|
    ensures Climbed(g, path, leaf, k - 1, path[k - 1].Put(cur))
  {
    assert path[..k] == path[..k - 1] + [path[k - 1]];
    Climb(g, path[..k - 1], path[k - 1], cur, |path| - k);
  }

  lemma {:induction false} Climb(g: Limits, up: HPath, l: Level<HLeaf>, cur: HNode, d: nat)
    requires Sits(g, up + [l], cur, d) && l.pos + 1 == |l.es|
    ensures l.Ok() && Sits(g, up, l.Put(cur), d + 1) && Fill(up, l.Put(cur)) == Fill(up + [l], cur)
    ensures Pre(up) + Flat(l.Put(cur)) == Pre(up + [l]) + Flat(cur) && Post(up) == Post(up + [l])
  {
    assert (up + [l])[|up|] == l && (up + [l])[..|up|] == up;
    assert Sits(g, up, l.Put(cur), d + 1) by {
      FillShape(g, up + [l], cur, d);
      FillShape(g, up, l.Put(cur), d + 1);
    }
    assert FlatEs(l.es[l.pos + 1..]) == [];
    assert Flat(l.Put(cur)) == FlatEs(l.es[..l.pos]) + Flat(cur) by {
      FlatPut(l, cur);
    }
    Assoc(Pre(up), FlatEs(l.es[..l.pos]), Flat(cur));
  }

  /** One step to the right at level `k` leads to the block after `leaf`. */
  lemma {:induction false} BlockToTheRight(g: Limits, path: HPath, leaf: HNode, k: nat, cur: HNode, right: HPath,
                                           next: HNode)
    requires 0 < k <= |path| && Climbed(g, path, leaf, k, cur) && path[k - 1].pos + 1 < |path[k - 1].es|
    requires right == path[..k - 1] + [Level(path[k - 1].max, path[k - 1].Put(cur).es, path[k - 1].pos + 1)]
    requires next == path[k - 1].es[path[k - 1].pos + 1].child
    ensures Post(path) != [] && Post(path)[0].key == path[k - 1].es[path[k - 1].pos + 1].key
    ensures Sits(g, right, next, |path| - k) && Fill(right, next) == Fill(path, leaf)
    ensures Pre(right) == Pre(path) + Flat(leaf) && Key(next) == path[k - 1].es[path[k - 1].pos + 1].key
  {
    var up, l := path[..k - 1], path[k - 1];
    assert path[..k] == up + [l];
    StepRight(g, up, l, cur, |path| - k);
    StepRightPre(up, l, cur);
    FirstOnRight(g, up, l, cur, |path| - k);
  }

  /** ext4_htree_next_block: moves on to the next block if its key, without the low bit, is
      the hash looked for. */
  method NextBlock(g: Limits, path: HPath, leaf: HNode, hash: int) returns (more: bool, q: HPath, next: HNode)
    requires path != [] && Sits(g, path, leaf, 0)
    ensures !more ==> Post(path) == [] || Even(Post(path)[0].key) != hash
    ensures more ==> |q| == |path| && Sits(g, q, next, 0) && Fill(q, next) == Fill(path, leaf)
                     && Pre(q) == Pre(path) + Flat(leaf) && Even(Key(next)) == hash
  {
    var k, cur := |path|, leaf;
    assert path[..k] == path;
    more, q, next := false, path, leaf;
    while k > 0 && path[k - 1].pos + 1 >= |path[k - 1].es|
      invariant 0 <= k <= |path| && Climbed(g, path, leaf, k, cur)
    {
      ClimbStep(g, path, leaf, k, cur);
      cur := path[k - 1].Put(cur);
      k := k - 1;
    }
    if k == 0 {
      return;
    }
    var l := path[k - 1];
    assert l.Ok();
    var node := l.Put(cur);
    var right := path[..k - 1] + [Level(node.max, node.es, l.pos + 1)];
    BlockToTheRight(g, path, leaf, k, cur, right, l.es[l.pos + 1].child);
    if Even(l.es[l.pos + 1].key) != hash {
      return;
    }
    q, next := LeftmostBlock(g, right, l.es[l.pos + 1].child, |path| - k);
    more := true;
  }

  /** Down to the first block below a node. */
  method LeftmostBlock(g: Limits, path: HPath, n: HNode, d: nat) returns (q: HPath, leaf: HNode)
    requires Sits(g, path, n, d)
    ensures |q| == |path| + d && Sits(g, q, leaf, 0) && Fill(q, leaf) == Fill(path, n)
    ensures Pre(q) == Pre(path) && Key(leaf) == Key(n)
  {
    q, leaf := path, n;
    var i := d;
    while i > 0
      invariant 0 <= i && |q| == |path| + d - i && Sits(g, q, leaf, i) && Fill(q, leaf) == Fill(path, n)
      invariant Pre(q) == Pre(path) && Key(leaf) == Key(n)
    {
      SitsIndex(g, q, leaf, i);
      DescendFirst(g, q, leaf, i);
      q, leaf := q + [Level(leaf.max, leaf.es, 0)], leaf.es[0].child;
      i := i - 1;
    }
  }

  lemma {:induction false} FirstOnRight(g: Limits, up: HPath, l: Level<HLeaf>, cur: HNode, d: nat)
    requires Sits(g, up + [l], cur, d) && l.pos + 1 < |l.es|
    ensures Post(up + [l]) != [] && Post(up + [l])[0].key == l.es[l.pos + 1].key
  {
    var p := up + [l];
    assert p[|up|] == l && p[..|up|] == up;
    assert LevelOk(g, l, d + 1, up == []);
    assert EntryOk(g, l.es[l.pos + 1], d + 1);
    SubFlat(g, l.es[l.pos + 1].child, d);
  }

  // ------------------------------------------------------------------- lookup

  /** Whatever carries the name carries this hash. */
  ghost predicate Hashed(fl: seq<HLeaf>, name: string, hash: int) {
    forall i, k :: 0 <= i < |fl| && 0 <= k < |LiveOf(fl[i].recs)| && LiveOf(fl[i].recs)[k].name == name ==>
      LiveOf(fl[i].recs)[k].hash == hash
  }

  /** The first n blocks do not hold the name. */
  ghost predicate NotIn(fl: seq<HLeaf>, n: nat, name: string) {
    forall i :: 0 <= i < n && i < |fl| ==> !HasName(LiveOf(fl[i].recs), name)
  }

  lemma {:induction false} NameSomewhere(fl: seq<HLeaf>, name: string)
    ensures HasName(Entries(fl), name) <==> !NotIn(fl, |fl|, name)
  {
    if fl != [] {
      var first, rest := LiveOf(fl[0].recs), Entries(fl[1..]);
      NameSomewhere(fl[1..], name);
      assert NotIn(fl, |fl|, name) <==> !HasName(first, name) && NotIn(fl[1..], |fl[1..]|, name) by {
        if NotIn(fl, |fl|, name) {
          assert forall i :: 0 <= i < |fl[1..]| ==> fl[1..][i] == fl[i + 1];
        }
        if !HasName(first, name) && NotIn(fl[1..], |fl[1..]|, name) {
          assert forall i :: 0 < i < |fl| ==> fl[i] == fl[1..][i - 1];
        }
      }
      NameInConcat(first, rest, name);
    }
  }

  lemma {:induction false} NameInConcat(a: seq<Dirent>, b: seq<Dirent>, name: string)
    ensures HasName(a + b, name) <==> HasName(a, name) || HasName(b, name)
  {
    if HasName(a, name) {
      var i :| 0 <= i < |a| && a[i].name == name;
      assert (a + b)[i].name == name;
    }
    if HasName(b, name) {
      var i :| 0 <= i < |b| && b[i].name == name;
      assert (a + b)[|a| + i].name == name;
    }
  }

  /** A block whose hashes are all different from the name's does not hold it. */
  lemma {:induction false} OtherHashes(fl: seq<HLeaf>, name: string, hash: int, i: nat)
    requires Hashed(fl, name, hash) && i < |fl|
    requires forall k :: 0 <= k < |LiveOf(fl[i].recs)| ==> LiveOf(fl[i].recs)[k].hash != hash
    ensures !HasName(LiveOf(fl[i].recs), name)
  {
  }

  /** Left of the block a probe ends at all hashes are smaller. */
  lemma {:induction false} LeftSmaller(g: Limits, fl: seq<HLeaf>, name: string, hash: int, p: nat)
    requires Blocks(g, fl) && Hashed(fl, name, hash) && p < |fl| && (p > 0 ==> fl[p].key <= hash)
    ensures NotIn(fl, p, name)
  {
    forall i | 0 <= i < p ensures !HasName(LiveOf(fl[i].recs), name) {
      assert LeafOk(g, fl, i) && fl[i + 1].key <= hash;
      OtherHashes(fl, name, hash, i);
    }
  }

  lemma {:induction false} EvenGrows(a: int, b: int)
    requires a <= b
    ensures Even(a) <= Even(b)
  {
  }

  /** Once a key, without its low bit, differs from the hash, all further hashes are greater. */
  lemma {:induction false} RightGreater(g: Limits, fl: seq<HLeaf>, name: string, hash: int, p: nat)
    requires Blocks(g, fl) && Hashed(fl, name, hash) && p < |fl| && NotIn(fl, p + 1, name) && hash % 2 == 0
    requires p + 1 < |fl| ==> hash <= fl[p + 1].key && Even(fl[p + 1].key) != hash
    ensures NotIn(fl, |fl|, name)
  {
    forall i | p < i < |fl| ensures !HasName(LiveOf(fl[i].recs), name) {
      assert LeafOk(g, fl, i);
      EvenGrows(hash, fl[p + 1].key);
      EvenGrows(fl[p + 1].key, fl[i].key);
      OtherHashes(fl, name, hash, i);
    }
  }

  lemma {:induction false} At(g: Limits, path: HPath, leaf: HNode)
    requires path != [] && Sits(g, path, leaf, 0)
    ensures |leaf.items| == 1 && |Pre(path)| < |Flat(Fill(path, leaf))|
    ensures Flat(Fill(path, leaf))[|Pre(path)|] == leaf.items[0] && Key(leaf) == leaf.items[0].key
    ensures |Pre(path)| + 1 + |Post(path)| == |Flat(Fill(path, leaf))|
    ensures Post(path) != [] ==> Flat(Fill(path, leaf))[|Pre(path)| + 1] == Post(path)[0]
  {
    FlatFill(path, leaf);
  }

  /** The scan has come to `leaf` without meeting the name, and may only go on rightwards. */
  ghost predicate Scanning(g: Limits, root: HNode, path: HPath, leaf: HNode, name: string, hash: int) {
    && path != [] && Sits(g, path, leaf, 0) && root == Fill(path, leaf)
    && NotIn(Flat(root), |Pre(path)|, name)
    && (|Pre(path)| + 1 < |Flat(root)| ==> hash <= Flat(root)[|Pre(path)| + 1].key)
  }

  lemma {:induction false} NotInNext(fl: seq<HLeaf>, p: nat, name: string)
    requires NotIn(fl, p, name) && p < |fl| && !HasName(LiveOf(fl[p].recs), name)
    ensures NotIn(fl, p + 1, name)
  {
  }

  lemma {:induction false} KeyAhead(fl: seq<HLeaf>, p: nat, hash: int)
    requires KeyOrder(fl) && p < |fl| && Even(fl[p].key) == hash
    ensures p + 1 < |fl| ==> hash <= fl[p + 1].key
  {
  }

  lemma {:induction false} ScanStarts(g: Limits, root: HNode, path: HPath, leaf: HNode, name: string, hash: int)
    requires path != [] && Sits(g, path, leaf, 0) && root == Fill(path, leaf) && OnPath(path, hash)
    requires Blocks(g, Flat(root)) && Hashed(Flat(root), name, hash)
    ensures Scanning(g, root, path, leaf, name, hash)
  {
    At(g, path, leaf);
    PathBounds(g, path, leaf, 0, hash);
    LeftSmaller(g, Flat(root), name, hash, |Pre(path)|);
  }

  lemma {:induction false} ScanGoesOn(g: Limits, root: HNode, path: HPath, leaf: HNode, q: HPath, next: HNode,
                                      name: string, hash: int)
    requires Scanning(g, root, path, leaf, name, hash) && Blocks(g, Flat(root))
    requires |leaf.items| == 1 && !HasName(LiveOf(leaf.items[0].recs), name)
    requires q != [] && Sits(g, q, next, 0) && Fill(q, next) == root
    requires Pre(q) == Pre(path) + Flat(leaf) && Even(Key(next)) == hash
    ensures Scanning(g, root, q, next, name, hash) && |Pre(path)| < |Pre(q)| <= |Flat(root)|
  {
    At(g, path, leaf);
    At(g, q, next);
    NotInNext(Flat(root), |Pre(path)|, name);
    KeyAhead(Flat(root), |Pre(q)|, hash);
  }

  lemma {:induction false} ScanEnds(g: Limits, root: HNode, path: HPath, leaf: HNode, name: string, hash: int)
    requires Scanning(g, root, path, leaf, name, hash) && Blocks(g, Flat(root)) && Hashed(Flat(root), name, hash)
    requires |leaf.items| == 1 && !HasName(LiveOf(leaf.items[0].recs), name) && hash % 2 == 0
    requires Post(path) == [] || Even(Post(path)[0].key) != hash
    ensures !HasName(Entries(Flat(root)), name)
  {
    At(g, path, leaf);
    NotInNext(Flat(root), |Pre(path)|, name);
    RightGreater(g, Flat(root), name, hash, |Pre(path)|);
    NameSomewhere(Flat(root), name);
  }

  lemma {:induction false} EntryInside(fl: seq<HLeaf>, i: nat, e: Dirent)
    requires i < |fl| && e in LiveOf(fl[i].recs)
    ensures e in Entries(fl)
  {
    if i > 0 {
      EntryInside(fl[1..], i - 1, e);
    }
  }

  /** search_dirblock on the block reached. */
  method SearchBlock(g: Limits, root: HNode, path: HPath, leaf: HNode, name: string) returns (r: Option<Dirent>)
    requires path != [] && Sits(g, path, leaf, 0) && root == Fill(path, leaf) && Blocks(g, Flat(root))
    ensures |leaf.items| == 1 && (r.Some? <==> HasName(LiveOf(leaf.items[0].recs), name))
    ensures r.Some? ==> r.value.name == name && r.value in Entries(Flat(root))
  {
    At(g, path, leaf);
    ghost var p := |Pre(path)|;
    assert LeafOk(g, Flat(root), p);
    var b := new Block(g.size, leaf.items[0].recs);
    var k := b.Search(name);
    if k == -1 {
      return None;
    }
    LiveAround(b.recs, k);
    assert LiveOf(b.recs)[|LiveOf(b.recs[..k])|] == b.recs[k].Ent();
    EntryInside(Flat(root), p, b.recs[k].Ent());
    return Some(b.recs[k].Ent());
  }

  /** ext4_dx_find_entry: a name is found exactly when some block holds it. */
  method FindEntry(g: Limits, root: HNode, d: nat, name: string, hash: int) returns (r: Option<Dirent>)
    requires RootOk(g, root, d) && Blocks(g, Flat(root)) && Hashed(Flat(root), name, hash)
    requires hash % 2 == 0
    ensures r.Some? <==> HasName(Entries(Flat(root)), name)
    ensures r.Some? ==> r.value.name == name && r.value in Entries(Flat(root))
  {
    var path, leaf := Probe(g, root, d, hash);
    ScanStarts(g, root, path, leaf, name, hash);
    while true
      invariant Scanning(g, root, path, leaf, name, hash)
      decreases |Flat(root)| - |Pre(path)|
    {
      r := SearchBlock(g, root, path, leaf, name);
      if r.Some? {
        return;
      }
      var more, q, next := NextBlock(g, path, leaf, hash);
      if !more {
        ScanEnds(g, root, path, leaf, name, hash);
        return;
      }
      ScanGoesOn(g, root, path, leaf, q, next, name, hash);
      path, leaf := q, next;
    }
  }
}
