/**
 Adding to a hashed directory: a full block is split in two, a full index block likewise,
 and when the whole path is full the tree gets one level deeper.
 */
module HtreeInsert {
  import opened Extents
  import opened KeyTree
  import opened DirBlock
  import opened DxSort
  import opened DoSplit
  import opened SplitRoom
  import opened Htree

  // ------------------------------------------------- one block becomes two

  /** What do_split makes of a block. */
  ghost predicate Halves(size: nat, recs: seq<Rec>, a: seq<Rec>, b: seq<Rec>, hash2: int, continued: bool) {
    && Tiled(a, size) && Tiled(b, size) && SameEntries(recs, a, b)
    && AllFrom(LiveOf(b), hash2) && HasHash(LiveOf(b), hash2)
    && LiveOf(a) != [] && AllUpTo(LiveOf(a), hash2, continued)
  }

  /** The key the new block is filed under: odd if its first hash also ends the old one. */
  function NewKey(hash2: int, continued: bool): int {
    hash2 + (if continued then 1 else 0)
  }

  ghost function TwoFor(fl: seq<HLeaf>, p: nat, a: seq<Rec>, b: seq<Rec>, key: int): seq<HLeaf>
    requires p < |fl|
  {
    fl[..p] + [HLeaf(fl[p].key, a), HLeaf(key, b)] + fl[p + 1..]
  }

  lemma {:induction false} OldEntry(size: nat, recs: seq<Rec>, a: seq<Rec>, b: seq<Rec>, hash2: int, continued: bool,
                                    e: Dirent)
    requires Halves(size, recs, a, b, hash2, continued) && (e in LiveOf(a) || e in LiveOf(b))
    ensures e in LiveOf(recs)
  {
    assert e in multiset(LiveOf(a)) + multiset(LiveOf(b));
    assert e in multiset(LiveOf(recs));
  }

  lemma {:induction false} EntryBetween(g: Limits, fl: seq<HLeaf>, p: nat, e: Dirent)
    requires p < |fl| && LeafOk(g, fl, p) && e in LiveOf(fl[p].recs)
    ensures Between(e.hash, fl[p].key, NextKey(fl, p))
  {
  }

  lemma {:induction false} CutBetween(g: Limits, fl: seq<HLeaf>, p: nat, a: seq<Rec>, b: seq<Rec>, hash2: int,
                                      continued: bool)
    requires p < |fl| && LeafOk(g, fl, p) && Halves(g.size, fl[p].recs, a, b, hash2, continued)
    ensures Between(hash2, fl[p].key, NextKey(fl, p))
    ensures Even(fl[p].key) <= LiveOf(a)[0].hash
  {
    var i :| 0 <= i < |LiveOf(b)| && LiveOf(b)[i].hash == hash2;
    OldEntry(g.size, fl[p].recs, a, b, hash2, continued, LiveOf(b)[i]);
    EntryBetween(g, fl, p, LiveOf(b)[i]);
    OldEntry(g.size, fl[p].recs, a, b, hash2, continued, LiveOf(a)[0]);
    EntryBetween(g, fl, p, LiveOf(a)[0]);
  }

  /** The hash at the cut lies between the keys around the block, and so does the new key. */
  lemma {:induction false} NewKeyFits(g: Limits, fl: seq<HLeaf>, p: nat, a: seq<Rec>, b: seq<Rec>, hash2: int,
                                      continued: bool)
    requires p < |fl| && LeafOk(g, fl, p) && Halves(g.size, fl[p].recs, a, b, hash2, continued)
    ensures hash2 % 2 == 0 && fl[p].key <= NewKey(hash2, continued) && Even(NewKey(hash2, continued)) == hash2
    ensures p + 1 < |fl| ==> NewKey(hash2, continued) <= fl[p + 1].key
  {
    CutBetween(g, fl, p, a, b, hash2, continued);
    NewKeyAbove(fl[p].key, hash2, continued, LiveOf(a)[0].hash);
  }

  lemma {:induction false} NewKeyAbove(key: int, hash2: int, continued: bool, first: int)
    requires hash2 % 2 == 0 && Even(key) <= hash2 && Even(key) <= first
    requires first < hash2 || (continued && first == hash2)
    ensures key <= NewKey(hash2, continued) && Even(NewKey(hash2, continued)) == hash2
  {
  }

  lemma {:induction false} LeftOk(g: Limits, fl: seq<HLeaf>, p: nat, a: seq<Rec>, b: seq<Rec>, hash2: int,
                                  continued: bool, k: nat)
    requires p < |fl| && LeafOk(g, fl, p) && Halves(g.size, fl[p].recs, a, b, hash2, continued) && k < |LiveOf(a)|
    ensures Between(LiveOf(a)[k].hash, fl[p].key, Some(NewKey(hash2, continued)))
  {
    OldEntry(g.size, fl[p].recs, a, b, hash2, continued, LiveOf(a)[k]);
    EntryBetween(g, fl, p, LiveOf(a)[k]);
  }

  lemma {:induction false} RightOk(g: Limits, fl: seq<HLeaf>, p: nat, a: seq<Rec>, b: seq<Rec>, hash2: int,
                                   continued: bool, k: nat)
    requires p < |fl| && LeafOk(g, fl, p) && Halves(g.size, fl[p].recs, a, b, hash2, continued) && k < |LiveOf(b)|
    ensures Between(LiveOf(b)[k].hash, NewKey(hash2, continued), NextKey(fl, p))
  {
    NewKeyFits(g, fl, p, a, b, hash2, continued);
    OldEntry(g.size, fl[p].recs, a, b, hash2, continued, LiveOf(b)[k]);
    EntryBetween(g, fl, p, LiveOf(b)[k]);
  }

  lemma {:induction false} TwoForOrder(fl: seq<HLeaf>, p: nat, a: seq<Rec>, b: seq<Rec>, key: int)
    requires KeyOrder(fl) && p < |fl| && fl[p].key <= key && (p + 1 < |fl| ==> key <= fl[p + 1].key)
    ensures KeyOrder(TwoFor(fl, p, a, b, key))
  {
    var s := TwoFor(fl, p, a, b, key);
    forall i | 0 <= i < |s|
      ensures s[i].key == if i <= p then fl[i].key else if i == p + 1 then key else fl[i - 1].key
    {
    }
  }

  /** Splitting a block keeps the directory in order. */
  lemma {:induction false} SplitKeepsBlocks(g: Limits, fl: seq<HLeaf>, p: nat, a: seq<Rec>, b: seq<Rec>, hash2: int,
                                            continued: bool)
    requires Blocks(g, fl) && p < |fl| && Halves(g.size, fl[p].recs, a, b, hash2, continued)
    ensures Blocks(g, TwoFor(fl, p, a, b, NewKey(hash2, continued)))
  {
    var key := NewKey(hash2, continued);
    var s := TwoFor(fl, p, a, b, key);
    assert LeafOk(g, fl, p);
    NewKeyFits(g, fl, p, a, b, hash2, continued);
    TwoForOrder(fl, p, a, b, key);
    forall i | 0 <= i < |s| ensures LeafOk(g, s, i) {
      if i == p {
        forall k | 0 <= k < |LiveOf(a)| ensures Between(LiveOf(a)[k].hash, s[p].key, NextKey(s, p)) {
          LeftOk(g, fl, p, a, b, hash2, continued, k);
        }
      } else if i == p + 1 {
        assert NextKey(s, p + 1) == NextKey(fl, p);
        forall k | 0 <= k < |LiveOf(b)| ensures Between(LiveOf(b)[k].hash, s[p + 1].key, NextKey(s, p + 1)) {
          RightOk(g, fl, p, a, b, hash2, continued, k);
        }
      } else if i < p {
        assert LeafOk(g, fl, i) && s[i] == fl[i] && NextKey(s, i) == NextKey(fl, i);
      } else {
        assert LeafOk(g, fl, i - 1) && s[i] == fl[i - 1] && NextKey(s, i) == NextKey(fl, i - 1);
      }
    }
  }

  lemma {:induction false} EntriesSplice(a: seq<HLeaf>, m: seq<HLeaf>, b: seq<HLeaf>)
    ensures Entries(a + m + b) == Entries(a) + Entries(m) + Entries(b)
  {
    EntriesConcat(a + m, b);
    EntriesConcat(a, m);
  }

  lemma {:induction false} EntriesOne(x: HLeaf)
    ensures Entries([x]) == LiveOf(x.recs)
  {
    assert [x][1..] == [];
  }

  lemma {:induction false} EntriesTwo(x: HLeaf, y: HLeaf)
    ensures Entries([x, y]) == LiveOf(x.recs) + LiveOf(y.recs)
  {
    EntriesOne(x);
    EntriesOne(y);
    EntriesConcat([x], [y]);
    assert [x] + [y] == [x, y];
  }

  lemma {:induction false} EntriesAt(fl: seq<HLeaf>, p: nat)
    requires p < |fl|
    ensures Entries(fl) == Entries(fl[..p]) + LiveOf(fl[p].recs) + Entries(fl[p + 1..])
  {
    Around(fl, p);
    EntriesMid(fl, fl[..p], fl[p], fl[p + 1..]);
  }

  lemma {:induction false} Around<T>(s: seq<T>, p: nat)
    requires p < |s|
    ensures s == s[..p] + [s[p]] + s[p + 1..]
  {
  }

  lemma {:induction false} EntriesMid(fl: seq<HLeaf>, a: seq<HLeaf>, x: HLeaf, b: seq<HLeaf>)
    requires fl == a + [x] + b
    ensures Entries(fl) == Entries(a) + LiveOf(x.recs) + Entries(b)
  {
    EntriesSplice(a, [x], b);
    EntriesOne(x);
  }

  lemma {:induction false} MiddleCounts<T>(a: seq<T>, m: seq<T>, b: seq<T>)
    ensures multiset(a + m + b) == multiset(a) + multiset(m) + multiset(b)
  {
  }

  /** ... and loses or gains no entry. */
  lemma {:induction false} SplitKeepsEntries(fl: seq<HLeaf>, p: nat, a: seq<Rec>, b: seq<Rec>, key: int)
    requires p < |fl| && SameEntries(fl[p].recs, a, b)
    ensures multiset(Entries(TwoFor(fl, p, a, b, key))) == multiset(Entries(fl))
  {
    var l, r := HLeaf(fl[p].key, a), HLeaf(key, b);
    EntriesAt(fl, p);
    EntriesSplice(fl[..p], [l, r], fl[p + 1..]);
    EntriesTwo(l, r);
    MiddleCounts(Entries(fl[..p]), LiveOf(fl[p].recs), Entries(fl[p + 1..]));
    MiddleCounts(Entries(fl[..p]), LiveOf(a) + LiveOf(b), Entries(fl[p + 1..]));
  }

  // --------------------------------------------------- one entry is added

  /** Adding to a block an entry that belongs there. */
  lemma {:induction false} AddKeepsBlocks(g: Limits, fl: seq<HLeaf>, p: nat, recs: seq<Rec>, e: Dirent, j: nat)
    requires Blocks(g, fl) && p < |fl| && Tiled(recs, g.size) && Between(e.hash, fl[p].key, NextKey(fl, p))
    requires var es := LiveOf(fl[p].recs); j <= |es| && LiveOf(recs) == es[..j] + [e] + es[j..]
    ensures Blocks(g, fl[p := HLeaf(fl[p].key, recs)])
  {
    var s, es := fl[p := HLeaf(fl[p].key, recs)], LiveOf(fl[p].recs);
    forall i | 0 <= i < |s| ensures s[i].key == fl[i].key && NextKey(s, i) == NextKey(fl, i) { }
    assert LeafOk(g, fl, p);
    forall k | 0 <= k < |LiveOf(recs)| ensures Between(LiveOf(recs)[k].hash, s[p].key, NextKey(s, p)) {
      assert k < j ==> LiveOf(recs)[k] == es[k];
      assert k > j ==> LiveOf(recs)[k] == es[k - 1];
    }
    forall i | 0 <= i < |s| && i != p ensures LeafOk(g, s, i) {
      assert LeafOk(g, fl, i);
    }
  }

  lemma {:induction false} AddAddsEntry(fl: seq<HLeaf>, p: nat, recs: seq<Rec>, e: Dirent, j: nat)
    requires p < |fl|
    requires var es := LiveOf(fl[p].recs); j <= |es| && LiveOf(recs) == es[..j] + [e] + es[j..]
    ensures multiset(Entries(fl[p := HLeaf(fl[p].key, recs)])) == multiset(Entries(fl)) + multiset{e}
  {
    var es, x := LiveOf(fl[p].recs), HLeaf(fl[p].key, recs);
    Around(fl, p);
    Around(fl[p := x], p);
    ReplaceOne(fl[p := x], fl, fl[..p], fl[p], x, fl[p + 1..], e, j);
  }

  lemma {:induction false} ReplaceOne(t: seq<HLeaf>, fl: seq<HLeaf>, a: seq<HLeaf>, x: HLeaf, y: HLeaf, b: seq<HLeaf>,
                                      e: Dirent, j: nat)
    requires fl == a + [x] + b && t == a + [y] + b
    requires var es := LiveOf(x.recs); j <= |es| && LiveOf(y.recs) == es[..j] + [e] + es[j..]
    ensures multiset(Entries(t)) == multiset(Entries(fl)) + multiset{e}
  {
    var es := LiveOf(x.recs);
    EntriesMid(fl, a, x, b);
    EntriesMid(t, a, y, b);
    MiddleCounts(Entries(a), es, Entries(b));
    MiddleCounts(Entries(a), LiveOf(y.recs), Entries(b));
    PutCounts(es, j, e);
  }

  lemma {:induction false} PutCounts(es: seq<Dirent>, j: nat, e: Dirent)
    requires j <= |es|
    ensures multiset(es[..j] + [e] + es[j..]) == multiset(es) + multiset{e}
  {
    MiddleCounts(es[..j], [e], es[j..]);
    assert es == es[..j] + es[j..];
  }

  // ------------------------------------------------------- the index follows

  /** dx_insert_block: a new entry right after the one the level goes through. */
  function WithEntry(l: Level<HLeaf>, left: HNode, key: int, right: HNode): seq<Entry<HLeaf>>
    requires l.Ok()
  {
    l.es[..l.pos] + [Entry(l.es[l.pos].key, left), Entry(key, right)] + l.es[l.pos + 1..]
  }

  lemma {:induction false} WithEntryOk(g: Limits, l: Level<HLeaf>, left: HNode, key: int, right: HNode, d: nat)
    requires l.Ok() && d > 0 && |l.es| < l.max
    requires forall i :: 0 <= i < |l.es| && i != l.pos ==> EntryOk(g, l.es[i], d)
    requires Sub(g, left, d - 1) && Key(left) == l.es[l.pos].key && Sub(g, right, d - 1) && Key(right) == key
    ensures Kids(g, Index(l.max, WithEntry(l, left, key, right)), d)
    ensures WithEntry(l, left, key, right)[0].key == l.es[0].key
  {
    var es := WithEntry(l, left, key, right);
    forall i | 0 <= i < |es| ensures EntryOk(g, es[i], d) {
      if i < l.pos {
        assert es[i] == l.es[i];
      } else if i > l.pos + 1 {
        assert es[i] == l.es[i - 1];
      }
    }
  }

  lemma {:induction false} WithEntryFlat(l: Level<HLeaf>, left: HNode, key: int, right: HNode)
    requires l.Ok()
    ensures FlatEs(WithEntry(l, left, key, right))
            == FlatEs(l.es[..l.pos]) + (Flat(left) + Flat(right)) + FlatEs(l.es[l.pos + 1..])
  {
    var x, y := Entry(l.es[l.pos].key, left), Entry(key, right);
    FlatEsConcat(l.es[..l.pos] + [x, y], l.es[l.pos + 1..]);
    FlatEsConcat(l.es[..l.pos], [x, y]);
    FlatTwo(x, y);
  }

  lemma {:induction false} FlatTwo(x: Entry<HLeaf>, y: Entry<HLeaf>)
    ensures FlatEs([x, y]) == Flat(x.child) + Flat(y.child)
  {
    FlatEsConcat([x], [y]);
    assert [x] + [y] == [x, y] && [x][1..] == [] && [y][1..] == [];
  }

  /** What a sound path says about its last level. */
  ghost predicate LastLevel(g: Limits, up: HPath, l: Level<HLeaf>, d: nat) {
    && PathOk(up) && LevelOk(g, l, d + 1, up == [])
    && (up != [] ==> Ctx(g, up, d + 1) && l.es[0].key == HoleKey(up))
  }

  lemma {:induction false} LastLevelOk(g: Limits, up: HPath, l: Level<HLeaf>, cur: HNode, d: nat)
    requires Sits(g, up + [l], cur, d)
    ensures LastLevel(g, up, l, d) && Sub(g, cur, d) && Key(cur) == l.es[l.pos].key
  {
    var path := up + [l];
    assert path[|up|] == l && path[..|up|] == up;
  }

  /** An index block that fits in where the path ends. */
  ghost predicate Fits(g: Limits, up: HPath, n: HNode, d: nat) {
    && PathOk(up) && d > 0 && n.Index? && n.max == g.Max(up == []) && Kids(g, n, d)
    && (up != [] ==> Ctx(g, up, d) && Key(n) == HoleKey(up))
  }

  lemma {:induction false} FitsIsSound(g: Limits, up: HPath, n: HNode, d: nat)
    requires Fits(g, up, n, d)
    ensures RootOk(g, Fill(up, n), d + |up|)
  {
    FillShape(g, up, n, d);
  }

  /** Two nodes in place of one, below a level with room for another entry. */
  lemma {:induction false} InsertShape(g: Limits, up: HPath, l: Level<HLeaf>, left: HNode, key: int, right: HNode,
                                       d: nat)
    requires LastLevel(g, up, l, d) && |l.es| < l.max
    requires Sub(g, left, d) && Key(left) == l.es[l.pos].key && Sub(g, right, d) && Key(right) == key
    ensures Fits(g, up, Index(l.max, WithEntry(l, left, key, right)), d + 1)
  {
    WithEntryOk(g, l, left, key, right, d + 1);
  }

  lemma {:induction false} InsertFlat(up: HPath, l: Level<HLeaf>, left: HNode, key: int, right: HNode)
    requires PathOk(up) && l.Ok()
    ensures Flat(Fill(up, Index(l.max, WithEntry(l, left, key, right))))
            == Pre(up + [l]) + (Flat(left) + Flat(right)) + Post(up + [l])
  {
    var path := up + [l];
    assert path[|up|] == l && path[..|up|] == up;
    WithEntryFlat(l, left, key, right);
    FlatFill(up, Index(l.max, WithEntry(l, left, key, right)));
  }

  function LeafNode(key: int, recs: seq<Rec>): HNode {
    Leaf(1, [HLeaf(key, recs)])
  }

  lemma {:induction false} InsertSound(g: Limits, up: HPath, l: Level<HLeaf>, left: HNode, key: int, right: HNode,
                                       d: nat)
    requires LastLevel(g, up, l, d) && |l.es| < l.max
    requires Sub(g, left, d) && Key(left) == l.es[l.pos].key && Sub(g, right, d) && Key(right) == key
    ensures RootOk(g, Fill(up, Index(l.max, WithEntry(l, left, key, right))), d + 1 + |up|)
  {
    InsertShape(g, up, l, left, key, right, d);
    FitsIsSound(g, up, Index(l.max, WithEntry(l, left, key, right)), d + 1);
  }

  lemma {:induction false} LeafNodeOk(g: Limits, key: int, recs: seq<Rec>)
    ensures Sub(g, LeafNode(key, recs), 0) && Key(LeafNode(key, recs)) == key
  {
  }

  /** The directory once the block the path leads to is split in two. */
  lemma {:induction false} SplitTree(g: Limits, up: HPath, l: Level<HLeaf>, first: int, a: seq<Rec>, b: seq<Rec>,
                                     key: int)
    requires LastLevel(g, up, l, 0) && first == l.es[l.pos].key && |l.es| < l.max
    ensures RootOk(g, Fill(up, Index(l.max, WithEntry(l, LeafNode(first, a), key, LeafNode(key, b)))), |up| + 1)
  {
    LeafNodeOk(g, first, a);
    LeafNodeOk(g, key, b);
    InsertSound(g, up, l, LeafNode(first, a), key, LeafNode(key, b), 0);
  }

  lemma {:induction false} SplitTreeFlat(g: Limits, up: HPath, l: Level<HLeaf>, leaf: HNode, a: seq<Rec>, b: seq<Rec>,
                                         key: int)
    requires Sits(g, up + [l], leaf, 0)
    ensures l.Ok() && PathOk(up) && |leaf.items| == 1 && |Pre(up + [l])| < |Flat(Fill(up + [l], leaf))|
    ensures Flat(Fill(up, Index(l.max, WithEntry(l, LeafNode(Key(leaf), a), key, LeafNode(key, b)))))
            == TwoFor(Flat(Fill(up + [l], leaf)), |Pre(up + [l])|, a, b, key)
  {
    var path := up + [l];
    assert path[|up|] == l && path[..|up|] == up;
    At(g, path, leaf);
    var left, right := LeafNode(Key(leaf), a), LeafNode(key, b);
    InsertFlat(up, l, left, key, right);
    FlatFill(path, leaf);
    assert leaf.items == [leaf.items[0]];
    TwoForParts(Flat(Fill(path, leaf)), Pre(path), leaf.items[0], Post(path), a, b, key);
    assert Flat(left) + Flat(right) == [HLeaf(Key(leaf), a), HLeaf(key, b)];
  }

  lemma {:induction false} TwoForParts(fl: seq<HLeaf>, pre: seq<HLeaf>, x: HLeaf, post: seq<HLeaf>, a: seq<Rec>,
                                       b: seq<Rec>, key: int)
    requires fl == pre + [x] + post
    ensures TwoFor(fl, |pre|, a, b, key) == pre + [HLeaf(x.key, a), HLeaf(key, b)] + post
  {
    assert fl[..|pre|] == pre && fl[|pre| + 1..] == post;
  }

  // ------------------------------------------------- splitting index blocks

  function LowHalf(n: HNode): HNode
    requires n.Index?
  {
    Index(n.max, n.es[..|n.es| / 2])
  }

  function HighHalf(n: HNode): HNode
    requires n.Index?
  {
    Index(n.max, n.es[|n.es| / 2..])
  }

  lemma {:induction false} HalvesOk(g: Limits, n: HNode, d: nat)
    requires d > 0 && Sub(g, n, d) && |n.es| >= 2
    ensures Sub(g, LowHalf(n), d) && Key(LowHalf(n)) == Key(n)
    ensures Sub(g, HighHalf(n), d) && Key(HighHalf(n)) == n.es[|n.es| / 2].key
  {
    var h := |n.es| / 2;
    assert Kids(g, n, d);
    assert forall i :: 0 <= i < h ==> LowHalf(n).es[i] == n.es[i];
    assert forall i :: 0 <= i < |n.es| - h ==> HighHalf(n).es[i] == n.es[h + i];
    assert Kids(g, LowHalf(n), d) && Kids(g, HighHalf(n), d);
  }

  lemma {:induction false} HalvesFlat(n: HNode)
    requires n.Index?
    ensures Flat(LowHalf(n)) + Flat(HighHalf(n)) == Flat(n)
  {
    var h := |n.es| / 2;
    FlatEsConcat(n.es[..h], n.es[h..]);
    assert n.es[..h] + n.es[h..] == n.es;
  }

  /** The parent's entries once the full block `n` below it is split. */
  function ParentEntries(lp: Level<HLeaf>, n: HNode): seq<Entry<HLeaf>>
    requires lp.Ok() && n.Index? && n.es != []
  {
    WithEntry(lp, LowHalf(n), n.es[|n.es| / 2].key, HighHalf(n))
  }

  lemma {:induction false} SplitIndexOk(g: Limits, up: HPath, lp: Level<HLeaf>, n: HNode, d: nat)
    requires LastLevel(g, up, lp, d) && Sub(g, n, d) && Key(n) == lp.es[lp.pos].key
    requires d > 0 && |lp.es| < lp.max && n.Index? && |n.es| >= 2
    ensures RootOk(g, Fill(up, Index(lp.max, ParentEntries(lp, n))), d + 1 + |up|)
  {
    HalvesOk(g, n, d);
    InsertSound(g, up, lp, LowHalf(n), n.es[|n.es| / 2].key, HighHalf(n), d);
  }

  lemma {:induction false} SplitIndexFlat(up: HPath, lp: Level<HLeaf>, n: HNode)
    requires PathOk(up) && lp.Ok() && n.Index? && n.es != []
    ensures PathOk(up + [lp])
    ensures Flat(Fill(up, Index(lp.max, ParentEntries(lp, n)))) == Flat(Fill(up + [lp], n))
  {
    InsertFlat(up, lp, LowHalf(n), n.es[|n.es| / 2].key, HighHalf(n));
    HalvesFlat(n);
    FlatFill(up + [lp], n);
  }

  /** Where the two levels of the path go through afterwards. */
  function ParentLevel(lp: Level<HLeaf>, lf: Level<HLeaf>, n: HNode): Level<HLeaf>
    requires lp.Ok() && n.Index? && n.es != []
  {
    Level(lp.max, ParentEntries(lp, n), if lf.pos < |n.es| / 2 then lp.pos else lp.pos + 1)
  }

  function HalfLevel(lf: Level<HLeaf>): Level<HLeaf> {
    var h := |lf.es| / 2;
    if lf.pos < h then Level(lf.max, lf.es[..h], lf.pos)
    else Level(lf.max, lf.es[h..], lf.pos - h)
  }

  /** An index block is cut in two by count; the way goes on in the half that has its entry, and the
      block above has one entry more. */
  ghost predicate Halved(lp: Level<HLeaf>, lf: Level<HLeaf>, x: Level<HLeaf>, y: Level<HLeaf>) {
    var h := |lf.es| / 2;
    && |x.es| == |lp.es| + 1
    && y.es == (if lf.pos < h then lf.es[..h] else lf.es[h..])
  }

  lemma {:induction false} SamePlace(lp: Level<HLeaf>, lf: Level<HLeaf>, sub: HNode)
    requires lp.Ok() && lf.Ok()
    ensures var n := lf.Put(sub);
            var x, y := ParentLevel(lp, lf, n), HalfLevel(lf);
            x.Ok() && y.Ok() && x.Put(y.Put(sub)) == Index(lp.max, ParentEntries(lp, n))
  {
    var n := lf.Put(sub);
    var h := |lf.es| / 2;
    var x, y := ParentLevel(lp, lf, n), HalfLevel(lf);
    if lf.pos < h {
      assert y.Put(sub) == LowHalf(n);
    } else {
      assert y.Put(sub) == HighHalf(n);
    }
  }

  lemma {:induction false} SplitIndexPath(up: HPath, lp: Level<HLeaf>, lf: Level<HLeaf>, rest: HPath, leaf: HNode)
    requires PathOk(up) && lp.Ok() && lf.Ok() && PathOk(rest)
    ensures var n := lf.Put(Fill(rest, leaf));
            var q := up + ([ParentLevel(lp, lf, n)] + ([HalfLevel(lf)] + rest));
            PathOk(q) && Fill(q, leaf) == Fill(up, Index(lp.max, ParentEntries(lp, n)))
  {
    var sub := Fill(rest, leaf);
    var n := lf.Put(sub);
    var x, y := ParentLevel(lp, lf, n), HalfLevel(lf);
    SamePlace(lp, lf, sub);
    FillFront(y, rest, leaf);
    FillFront(x, [y] + rest, leaf);
    FillConcat(up, [x] + ([y] + rest), leaf);
  }

  /** The hash leads the same way through the two new levels. */
  lemma {:induction false} SplitIndexChosen(lp: Level<HLeaf>, lf: Level<HLeaf>, n: HNode, hash: int)
    requires Chosen(lp.es, lp.pos, hash) && Chosen(lf.es, lf.pos, hash) && KeysRise(lf.es) && |lf.es| >= 2
    requires n.Index? && |n.es| == |lf.es| && n.es[|n.es| / 2].key == lf.es[|n.es| / 2].key
    ensures Chosen(ParentLevel(lp, lf, n).es, ParentLevel(lp, lf, n).pos, hash)
    ensures Chosen(HalfLevel(lf).es, HalfLevel(lf).pos, hash)
  {
    var h := |lf.es| / 2;
    var es := ParentEntries(lp, n);
    assert es[lp.pos].key == lp.es[lp.pos].key && es[lp.pos + 1].key == lf.es[h].key;
    assert lp.pos + 1 < |lp.es| ==> es[lp.pos + 2] == lp.es[lp.pos + 1];
    if lf.pos < h {
      assert hash < lf.es[lf.pos + 1].key <= lf.es[h].key;
    } else {
      assert lf.es[h].key <= lf.es[lf.pos].key <= hash;
    }
  }

  // -------------------------------------------------------------- the calls

  predicate Full(l: Level<HLeaf>) {
    |l.es| == l.max
  }

  /** How many levels at the end of the path are full, one right above the other. */
  function FullRun(path: HPath): nat {
    if path == [] || !Full(path[|path| - 1]) then 0 else 1 + FullRun(path[..|path| - 1])
  }

  lemma {:induction false} FullRunIs(path: HPath, k: nat)
    requires k <= |path| && (forall j :: k <= j < |path| ==> Full(path[j])) && (k > 0 ==> !Full(path[k - 1]))
    ensures FullRun(path) == |path| - k
    decreases |path|
  {
    if k < |path| {
      FullRunIs(path[..|path| - 1], k);
    }
  }

  lemma {:induction false} SameFullRun(p: HPath, q: HPath)
    requires SamePath(p, q)
    ensures FullRun(p) == FullRun(q)
  {
    if p != [] {
      var pu, qu := p[..|p| - 1], q[..|q| - 1];
      assert SameLevel(p[|p| - 1], q[|q| - 1]);
      forall k | 0 <= k < |pu| ensures SameLevel(pu[k], qu[k]) {
        assert SameLevel(p[k], q[k]);
      }
      SameFullRun(pu, qu);
    }
  }

  class HashedDir {
    const g: Limits
    var root: HNode
    var depth: nat

    ghost predicate Valid()
      reads this
    {
      g.Valid() && RootOk(g, root, depth) && Blocks(g, Flat(root))
    }

    ghost function Contents(): multiset<Dirent>
      reads this
    {
      multiset(Entries(Flat(root)))
    }

    constructor (g: Limits, root: HNode, depth: nat)
      requires g.Valid() && RootOk(g, root, depth) && Blocks(g, Flat(root))
      ensures Valid() && this.g == g && this.root == root && this.depth == depth
    {
      this.g, this.root, this.depth := g, root, depth;
    }
  }

  /** The path a hash leads along. */
  ghost predicate Leads(dir: HashedDir, path: HPath, leaf: HNode, hash: int)
    reads dir
  {
    |path| == dir.depth && Sits(dir.g, path, leaf, 0) && dir.root == Fill(path, leaf) && OnPath(path, hash)
  }

  lemma {:induction false} LeadsBetween(g: Limits, path: HPath, leaf: HNode, hash: int)
    requires path != [] && Sits(g, path, leaf, 0) && OnPath(path, hash)
    ensures var fl, p := Flat(Fill(path, leaf)), |Pre(path)|;
            && p < |fl| && Key(leaf) == fl[p].key
            && (p > 0 ==> fl[p].key <= hash) && (p + 1 < |fl| ==> hash < fl[p + 1].key)
  {
    At(g, path, leaf);
    PathBounds(g, path, leaf, 0, hash);
  }

  lemma {:induction false} KeysAround(g: Limits, fl: seq<HLeaf>, p: nat, hash: int)
    requires Blocks(g, fl) && p < |fl| && 0 <= hash && hash % 2 == 0
    requires (p > 0 ==> fl[p].key <= hash) && (p + 1 < |fl| ==> hash < fl[p + 1].key)
    ensures Between(hash, fl[p].key, NextKey(fl, p))
  {
  }

  /** The block the hash leads to is where the hash belongs. */
  lemma {:induction false} BelongsThere(g: Limits, path: HPath, leaf: HNode, hash: int)
    requires path != [] && Sits(g, path, leaf, 0) && OnPath(path, hash) && Blocks(g, Flat(Fill(path, leaf)))
    requires 0 <= hash && hash % 2 == 0
    ensures |Pre(path)| < |Flat(Fill(path, leaf))|
    ensures Between(hash, Key(leaf), NextKey(Flat(Fill(path, leaf)), |Pre(path)|))
  {
    LeadsBetween(g, path, leaf, hash);
    KeysAround(g, Flat(Fill(path, leaf)), |Pre(path)|, hash);
  }

  lemma {:induction false} OnPathConcat(a: HPath, b: HPath, hash: int)
    ensures OnPath(a + b, hash) <==> OnPath(a, hash) && OnPath(b, hash)
  {
    var s := a + b;
    if OnPath(s, hash) {
      forall k | 0 <= k < |a| ensures Chosen(a[k].es, a[k].pos, hash) {
        assert s[k] == a[k];
      }
      forall k | 0 <= k < |b| ensures Chosen(b[k].es, b[k].pos, hash) {
        assert s[|a| + k] == b[k];
      }
    }
  }

  lemma {:induction false} OnPathTwo(up: HPath, x: Level<HLeaf>, y: Level<HLeaf>, rest: HPath, hash: int)
    ensures OnPath(up + ([x] + ([y] + rest)), hash)
            <==> OnPath(up, hash) && Chosen(x.es, x.pos, hash) && Chosen(y.es, y.pos, hash) && OnPath(rest, hash)
  {
    OnPathConcat(up, [x] + ([y] + rest), hash);
    OnPathConcat([x], [y] + rest, hash);
    OnPathConcat([y], rest, hash);
    assert [x][0] == x && [y][0] == y;
  }

  /** The node at some level, and what is above it. */
  lemma {:induction false} NodeAt(g: Limits, up: HPath, lp: Level<HLeaf>, lf: Level<HLeaf>, rest: HPath, leaf: HNode)
    requires Sits(g, up + ([lp] + ([lf] + rest)), leaf, 0)
    ensures PathOk(up) && lp.Ok() && lf.Ok() && PathOk(rest)
    ensures var n := lf.Put(Fill(rest, leaf));
            && Sits(g, up + [lp], n, |rest| + 1)
            && Fill(up + [lp], n) == Fill(up + ([lp] + ([lf] + rest)), leaf)
  {
    var path, tail := up + ([lp] + ([lf] + rest)), [lf] + rest;
    assert path == (up + [lp]) + tail;
    LevelsOk(up, lp, lf, rest);
    FillFront(lf, rest, leaf);
    FillConcat(up + [lp], tail, leaf);
    FillShape(g, path, leaf, 0);
    FillShape(g, up + [lp], lf.Put(Fill(rest, leaf)), |rest| + 1);
  }

  lemma {:induction false} LevelsOk(up: HPath, lp: Level<HLeaf>, lf: Level<HLeaf>, rest: HPath)
    requires PathOk(up + ([lp] + ([lf] + rest)))
    ensures PathOk(up) && lp.Ok() && lf.Ok() && PathOk(rest)
  {
    var path := up + ([lp] + ([lf] + rest));
    assert path[|up|] == lp && path[|up| + 1] == lf;
    assert forall k :: 0 <= k < |up| ==> up[k] == path[k];
    assert forall k :: 0 <= k < |rest| ==> rest[k] == path[|up| + 2 + k];
  }

  /** Splitting a full index block below one that is not: the same blocks in the same order. */
  lemma {:induction false} IndexSplitTree(g: Limits, up: HPath, lp: Level<HLeaf>, lf: Level<HLeaf>, rest: HPath,
                                          leaf: HNode)
    requires g.Valid() && Sits(g, up + ([lp] + ([lf] + rest)), leaf, 0) && Full(lf) && !Full(lp)
    ensures PathOk(up) && lp.Ok() && lf.Ok() && PathOk(rest) && |lf.es| >= 2
    ensures var root := Fill(up, Index(lp.max, ParentEntries(lp, lf.Put(Fill(rest, leaf)))));
            && RootOk(g, root, |rest| + 1 + 1 + |up|)
            && Flat(root) == Flat(Fill(up + ([lp] + ([lf] + rest)), leaf))
  {
    NodeAt(g, up, lp, lf, rest, leaf);
    var n := lf.Put(Fill(rest, leaf));
    FullLevel(g, up, lp, n, |rest| + 1);
    LastLevelOk(g, up, lp, n, |rest| + 1);
    SplitIndexOk(g, up, lp, n, |rest| + 1);
    SplitIndexFlat(up, lp, n);
  }

  /** ... and the hash leads to the same one of them. */
  lemma {:induction false} IndexSplitPath(up: HPath, lp: Level<HLeaf>, lf: Level<HLeaf>, rest: HPath, leaf: HNode,
                                          hash: int)
    requires PathOk(up) && lp.Ok() && lf.Ok() && PathOk(rest) && OnPath(up + ([lp] + ([lf] + rest)), hash)
    requires KeysRise(lf.es) && |lf.es| >= 2
    ensures var n := lf.Put(Fill(rest, leaf));
            var q := up + ([ParentLevel(lp, lf, n)] + ([HalfLevel(lf)] + rest));
            PathOk(q) && Fill(q, leaf) == Fill(up, Index(lp.max, ParentEntries(lp, n))) && OnPath(q, hash)
  {
    var n := lf.Put(Fill(rest, leaf));
    SplitIndexPath(up, lp, lf, rest, leaf);
    OnPathTwo(up, lp, lf, rest, hash);
    SplitIndexChosen(lp, lf, n, hash);
    OnPathTwo(up, ParentLevel(lp, lf, n), HalfLevel(lf), rest, hash);
  }

  /** Index split: the full block at level `f` gives up its upper half to a new block, whose
      key goes to the level above. */
  method SplitIndexBlock(g: Limits, path: HPath, leaf: HNode, f: nat, hash: int) returns (root: HNode, q: HPath)
    requires g.Valid() && Sits(g, path, leaf, 0) && OnPath(path, hash) && 0 < f < |path|
    requires KeysRise(path[f].es) && Full(path[f]) && !Full(path[f - 1])
    ensures RootOk(g, root, |path|) && Flat(root) == Flat(Fill(path, leaf))
    ensures |q| == |path| && PathOk(q) && root == Fill(q, leaf) && OnPath(q, hash)
    ensures !Full(q[f]) && q[f + 1..] == path[f + 1..]
    ensures Halved(path[f - 1], path[f], q[f - 1], q[f])
  {
    var up, lp, lf, rest := path[..f - 1], path[f - 1], path[f], path[f + 1..];
    FourParts(path, f);
    root, q := SplitBetween(g, up, lp, lf, rest, leaf, hash, |path|, f);
  }

  method SplitBetween(g: Limits, up: HPath, lp: Level<HLeaf>, lf: Level<HLeaf>, rest: HPath, leaf: HNode, hash: int,
                      ghost d: nat, ghost f: nat)
    returns (root: HNode, q: HPath)
    requires d == |up| + 2 + |rest| && f == |up| + 1
    requires g.Valid() && Sits(g, up + ([lp] + ([lf] + rest)), leaf, 0) && OnPath(up + ([lp] + ([lf] + rest)), hash)
    requires KeysRise(lf.es) && Full(lf) && !Full(lp)
    ensures RootOk(g, root, d) && Flat(root) == Flat(Fill(up + ([lp] + ([lf] + rest)), leaf))
    ensures |q| == d && PathOk(q) && root == Fill(q, leaf) && OnPath(q, hash)
    ensures !Full(q[f]) && q[f + 1..] == rest && Halved(lp, lf, q[f - 1], q[f])
  {
    IndexSplitTree(g, up, lp, lf, rest, leaf);
    IndexSplitPath(up, lp, lf, rest, leaf, hash);
    var x, y := ParentLevel(lp, lf, lf.Put(Fill(rest, leaf))), HalfLevel(lf);
    root := Fill(up, Index(lp.max, x.es));
    q := up + ([x] + ([y] + rest));
    SecondPart(up, x, y, rest);
  }

  lemma {:induction false} FourParts(path: HPath, f: nat)
    requires 0 < f < |path|
    ensures path == path[..f - 1] + ([path[f - 1]] + ([path[f]] + path[f + 1..]))
  {
  }

  lemma {:induction false} SecondPart(up: HPath, x: Level<HLeaf>, y: Level<HLeaf>, rest: HPath)
    ensures var q := up + ([x] + ([y] + rest)); q[|up|] == x && q[|up| + 1] == y && q[|up| + 2..] == rest
  {
  }

  lemma {:induction false} FullLevel(g: Limits, up: HPath, lp: Level<HLeaf>, n: HNode, d: nat)
    requires g.Valid() && Sits(g, up + [lp], n, d) && d > 0 && n.Index? && |n.es| == n.max
    ensures lp.Ok() && |lp.es| <= lp.max && |n.es| >= 2
  {
    LastLevelOk(g, up, lp, n, d);
    assert n.max == g.node;
  }

  // ------------------------------------------------------------ one level more

  function Deeper(g: Limits, root: HNode): HNode
    requires root.Index? && root.es != []
  {
    Index(g.root, [Entry(root.es[0].key, Index(g.node, root.es))])
  }

  lemma {:induction false} DeeperOk(g: Limits, root: HNode, d: nat)
    requires g.Valid() && RootOk(g, root, d)
    ensures root.es != [] && RootOk(g, Deeper(g, root), d + 1) && Flat(Deeper(g, root)) == Flat(root)
  {
    assert Kids(g, root, d);
    var child := Index(g.node, root.es);
    assert Kids(g, child, d) && Key(child) == root.es[0].key;
    assert EntryOk(g, Entry(root.es[0].key, child), d + 1);
    var top := Deeper(g, root);
    assert top.es[1..] == [] && FlatEs(top.es) == Flat(child);
  }

  /** Added level: the old root's entries go to a new block, the root keeps one entry. */
  method AddLevel(g: Limits, path: HPath, leaf: HNode, hash: int) returns (root: HNode, q: HPath)
    requires g.Valid() && path != [] && Sits(g, path, leaf, 0) && OnPath(path, hash)
    ensures RootOk(g, root, |path| + 1) && Flat(root) == Flat(Fill(path, leaf))
    ensures |q| == |path| + 1 && PathOk(q) && root == Fill(q, leaf) && OnPath(q, hash)
    ensures !Full(q[1]) && q[2..] == path[1..]
  {
    var l, rest := path[0], path[1..];
    assert path == [l] + rest;
    FillShape(g, path, leaf, 0);
    FillFront(l, rest, leaf);
    var was := l.Put(Fill(rest, leaf));
    DeeperOk(g, was, |path|);
    root := Deeper(g, was);
    var x, y := Level(g.root, root.es, 0), Level(g.node, l.es, l.pos);
    q := [] + ([x] + ([y] + rest));
    SecondPart([], x, y, rest);
    DeeperPath(g, l, rest, leaf, hash);
  }

  lemma {:induction false} DeeperPath(g: Limits, l: Level<HLeaf>, rest: HPath, leaf: HNode, hash: int)
    requires PathOk([l] + rest) && OnPath([l] + rest, hash) && l.Ok() && PathOk(rest)
    ensures var root := Deeper(g, l.Put(Fill(rest, leaf)));
            var x, y := Level(g.root, root.es, 0), Level(g.node, l.es, l.pos);
            var q := [] + ([x] + ([y] + rest));
            PathOk(q) && root == Fill(q, leaf) && OnPath(q, hash)
  {
    var was := l.Put(Fill(rest, leaf));
    var root := Deeper(g, was);
    var x, y := Level(g.root, root.es, 0), Level(g.node, l.es, l.pos);
    assert y.Put(Fill(rest, leaf)) == Index(g.node, was.es);
    FillFront(y, rest, leaf);
    FillFront(x, [y] + rest, leaf);
    assert x.Put(Index(g.node, was.es)) == root;
    OnPathConcat([l], rest, hash);
    assert [l][0] == l;
    OnPathTwo([], x, y, rest, hash);
    assert [] + ([x] + ([y] + rest)) == [x] + ([y] + rest);
  }

  // ------------------------------------------------------ splitting and adding

  /** Puts an entry behind the last one of a block, where do_split has left the free space. */
  method PutLast(b: Block, e: Dirent) returns (ok: bool, ghost j: nat)
    requires b.Valid() && e.Valid()
    modifies b
    ensures b.Valid() && j <= |old(b.Entries())|
    ensures ok <==> MinLen(|e.name|) <= LastSpare(old(b.recs))
    ensures if ok then b.Entries() == old(b.Entries())[..j] + [e] + old(b.Entries())[j..] else b.recs == old(b.recs)
    ensures Compact(old(b.recs)) ==> Compact(b.recs)
  {
    var k := |b.recs| - 1;
    ok := MinLen(|e.name|) <= b.recs[k].Spare();
    j := 0;
    if ok {
      ghost var was := b.recs;
      if Compact(b.recs) {
        assert b.recs[k].Valid();
        InsertStaysCompact(b.recs, k, e);
      }
      b.Insert(k, e);
      j := |LiveOf(was[..k + 1])|;
      assert old(b.Entries())[..j] == LiveOf(was[..k + 1]) && old(b.Entries())[j..] == LiveOf(was[k + 1..]);
    }
  }

  /** Adding to one of the two halves of a block. */
  lemma {:induction false} AddToHalf(g: Limits, fl: seq<HLeaf>, p: nat, a: seq<Rec>, b: seq<Rec>, key: int,
                                     second: bool, recs: seq<Rec>, e: Dirent, j: nat)
    requires p < |fl| && Blocks(g, TwoFor(fl, p, a, b, key)) && Tiled(recs, g.size)
    requires var es := LiveOf(if second then b else a); j <= |es| && LiveOf(recs) == es[..j] + [e] + es[j..]
    requires Between(e.hash, fl[p].key, NextKey(fl, p))
    requires if second then Even(key) <= e.hash else e.hash < key
    ensures var t := if second then TwoFor(fl, p, a, recs, key) else TwoFor(fl, p, recs, b, key);
            Blocks(g, t) && multiset(Entries(t)) == multiset(Entries(TwoFor(fl, p, a, b, key))) + multiset{e}
  {
    var s := TwoFor(fl, p, a, b, key);
    var i := if second then p + 1 else p;
    assert s[p] == HLeaf(fl[p].key, a) && s[p + 1] == HLeaf(key, b);
    assert second ==> NextKey(s, p + 1) == NextKey(fl, p);
    assert s[i := HLeaf(s[i].key, recs)] == if second then TwoFor(fl, p, a, recs, key) else TwoFor(fl, p, recs, b, key);
    AddKeepsBlocks(g, s, i, recs, e, j);
    AddAddsEntry(s, i, recs, e, j);
  }

  /** Where the new entry goes after a split, it belongs. */
  lemma {:induction false} GoesToHalf(g: Limits, fl: seq<HLeaf>, p: nat, a: seq<Rec>, b: seq<Rec>, hash2: int,
                                      continued: bool, hash: int)
    requires p < |fl| && LeafOk(g, fl, p) && Halves(g.size, fl[p].recs, a, b, hash2, continued)
    ensures if hash >= hash2 then Even(NewKey(hash2, continued)) <= hash else hash < NewKey(hash2, continued)
  {
    NewKeyFits(g, fl, p, a, b, hash2, continued);
  }

  /** A block split into `a` and `b`, of which the half `e` belongs to then got it, if ok. */
  ghost predicate SplitAndPut(size: nat, recs: seq<Rec>, a: seq<Rec>, b: seq<Rec>, hash2: int, continued: bool,
                              e: Dirent, j: nat, ok: bool, ra: seq<Rec>, rb: seq<Rec>) {
    && Halves(size, recs, a, b, hash2, continued) && Tiled(ra, size) && Tiled(rb, size) && Compact(ra) && Compact(rb)
    && (if ok && e.hash >= hash2 then ra == a else if ok then rb == b else ra == a && rb == b)
    && (ok ==> var es := LiveOf(if e.hash >= hash2 then b else a);
               j <= |es| && LiveOf(if e.hash >= hash2 then rb else ra) == es[..j] + [e] + es[j..])
  }

  /** The sorted map of the block that is split. */
  ghost predicate SortedMapOf(recs: seq<Rec>, ms: seq<MapEntry>) {
    MapOk(recs, ms) && SortedByHash(ms)
  }

  /** A block with these records, split in two. */
  method SplitInTwo(size: nat, recs: seq<Rec>, e: Dirent, blocksize: nat, junk: MapEntry)
    returns (first: Block, second: Block, hash2: int, continued: bool, toSecond: bool, ghost ms: seq<MapEntry>)
    requires Tiled(recs, size) && BlockSizes(size, blocksize) && |LiveOf(recs)| >= 2 && e.Valid()
    ensures fresh(first) && fresh(second) && first != second && first.Valid() && second.Valid()
    ensures first.size == second.size == size && Halves(size, recs, first.recs, second.recs, hash2, continued)
    ensures Compact(first.recs) && Compact(second.recs) && toSecond == (e.hash >= hash2) && SortedMapOf(recs, ms)
    ensures MinLen(|e.name|) <= LastSpare(if toSecond then second.recs else first.recs)
            <==> !TooTight(recs, ms, size, blocksize, e)
  {
    first := new Block(size, recs);
    ghost var stop, split;
    second, hash2, continued, toSecond, ms, stop, split := Split(first, blocksize, e.hash, junk);
    FitsUnlessTight(recs, first.recs, second.recs, size, blocksize, ms, stop, split, e);
  }

  method SplitAndAdd(size: nat, recs: seq<Rec>, e: Dirent, blocksize: nat, junk: MapEntry)
    returns (ok: bool, ra: seq<Rec>, rb: seq<Rec>, hash2: int, continued: bool,
             ghost a: seq<Rec>, ghost b: seq<Rec>, ghost j: nat, ghost ms: seq<MapEntry>)
    requires Tiled(recs, size) && BlockSizes(size, blocksize) && |LiveOf(recs)| >= 2 && e.Valid()
    ensures SplitAndPut(size, recs, a, b, hash2, continued, e, j, ok, ra, rb)
    ensures SortedMapOf(recs, ms) && (ok <==> !TooTight(recs, ms, size, blocksize, e))
  {
    var first, second, toSecond;
    first, second, hash2, continued, toSecond, ms := SplitInTwo(size, recs, e, blocksize, junk);
    a, b := first.recs, second.recs;
    if toSecond {
      ok, j := PutLast(second, e);
      assert PutInto(size, b, second.recs, e, j, ok);
    } else {
      ok, j := PutLast(first, e);
      assert PutInto(size, a, first.recs, e, j, ok);
    }
    ra, rb := first.recs, second.recs;
    PutInHalf(size, recs, a, b, hash2, continued, e, j, ok, ra, rb);
  }

  /** The block with records `x` has got `e`, if ok, and now has records `y`. */
  ghost predicate PutInto(size: nat, x: seq<Rec>, y: seq<Rec>, e: Dirent, j: nat, ok: bool) {
    && Tiled(y, size) && Compact(y)
    && if ok then j <= |LiveOf(x)| && LiveOf(y) == LiveOf(x)[..j] + [e] + LiveOf(x)[j..] else y == x
  }

  lemma {:induction false} PutInHalf(size: nat, recs: seq<Rec>, a: seq<Rec>, b: seq<Rec>, hash2: int, continued: bool,
                                     e: Dirent, j: nat, ok: bool, ra: seq<Rec>, rb: seq<Rec>)
    requires Halves(size, recs, a, b, hash2, continued) && Compact(a) && Compact(b)
    requires if e.hash >= hash2 then ra == a && PutInto(size, b, rb, e, j, ok)
             else rb == b && PutInto(size, a, ra, e, j, ok)
    ensures SplitAndPut(size, recs, a, b, hash2, continued, e, j, ok, ra, rb)
  {
  }

  lemma {:induction false} SplitTreeAll(g: Limits, path: HPath, up: HPath, l: Level<HLeaf>, leaf: HNode, ra: seq<Rec>,
                                        rb: seq<Rec>, key: int, root: HNode)
    requires path == up + [l] && Sits(g, path, leaf, 0) && !Full(l)
    requires l.Ok() && PathOk(up)
    requires root == Fill(up, Index(l.max, WithEntry(l, LeafNode(Key(leaf), ra), key, LeafNode(key, rb))))
    ensures RootOk(g, root, |path|) && |Pre(path)| < |Flat(Fill(path, leaf))|
    ensures Flat(root) == TwoFor(Flat(Fill(path, leaf)), |Pre(path)|, ra, rb, key)
  {
    NotFull(g, up, l, leaf);
    LastLevelOk(g, up, l, leaf, 0);
    SplitTree(g, up, l, Key(leaf), ra, rb, key);
    SplitTreeFlat(g, up, l, leaf, ra, rb, key);
  }

  /** What a split made of a block: the two halves, the hash at the cut and whether it occurs
      on both sides, the sorted map, and the two blocks once the new entry is in, if it is. */
  datatype Cut = Cut(a: seq<Rec>, b: seq<Rec>, hash2: int, continued: bool, ms: seq<MapEntry>, ra: seq<Rec>,
                     rb: seq<Rec>)

  /** The leaf at `p` has been cut into two, and the new entry put into its half, if ok. */
  ghost predicate CutTo(g: Limits, fl: seq<HLeaf>, p: nat, cut: Cut, e: Dirent, ok: bool, after: seq<HLeaf>) {
    && p < |fl| && after == TwoFor(fl, p, cut.ra, cut.rb, NewKey(cut.hash2, cut.continued))
    && (exists j :: SplitAndPut(g.size, fl[p].recs, cut.a, cut.b, cut.hash2, cut.continued, e, j, ok, cut.ra, cut.rb))
    && SortedMapOf(fl[p].recs, cut.ms) && (ok <==> !TooTight(fl[p].recs, cut.ms, g.size, g.block, e))
  }

  /** do_split on the block the path leads to, and the new entry put into the half it
      belongs to if there is room behind the last record of that half. */
  method SplitBlock(g: Limits, path: HPath, leaf: HNode, e: Dirent, junk: MapEntry)
    returns (ok: bool, root: HNode, ghost cut: Cut)
    requires g.Valid() && path != [] && Sits(g, path, leaf, 0) && OnPath(path, e.hash)
    requires !Full(path[|path| - 1]) && Blocks(g, Flat(Fill(path, leaf)))
    requires e.Valid() && 0 <= e.hash && e.hash % 2 == 0
    requires |leaf.items| == 1 && |LiveOf(leaf.items[0].recs)| >= 2
    ensures RootOk(g, root, |path|) && Blocks(g, Flat(root))
    ensures CutTo(g, Flat(Fill(path, leaf)), |Pre(path)|, cut, e, ok, Flat(root))
    ensures |Pre(path)| < |Flat(Fill(path, leaf))| && Flat(Fill(path, leaf))[|Pre(path)|] == leaf.items[0]
    ensures multiset(Entries(Flat(root)))
            == multiset(Entries(Flat(Fill(path, leaf)))) + (if ok then multiset{e} else multiset{})
  {
    LeafTiled(g, path, leaf);
    var ra, rb, hash2, continued;
    ghost var a, b, j, ms;
    ok, ra, rb, hash2, continued, a, b, j, ms := SplitAndAdd(g.size, leaf.items[0].recs, e, g.block, junk);
    root := TwoLeaves(path, leaf, ra, rb, NewKey(hash2, continued));
    SplitResult(g, path, leaf, e, ok, a, b, hash2, continued, j, ra, rb);
    cut := Cut(a, b, hash2, continued, ms, ra, rb);
  }

  /** The tree with the leaf replaced by two, the second filed under `key`. */
  function TwoLeaves(path: HPath, leaf: HNode, ra: seq<Rec>, rb: seq<Rec>, key: int): HNode
    requires path != [] && PathOk(path)
  {
    var up, l := path[..|path| - 1], path[|path| - 1];
    Fill(up, Index(l.max, WithEntry(l, LeafNode(Key(leaf), ra), key, LeafNode(key, rb))))
  }

  lemma {:induction false} SplitResult(g: Limits, path: HPath, leaf: HNode, e: Dirent, ok: bool, a: seq<Rec>,
                                       b: seq<Rec>, hash2: int, continued: bool, j: nat, ra: seq<Rec>, rb: seq<Rec>)
    requires path != [] && Sits(g, path, leaf, 0) && OnPath(path, e.hash)
    requires !Full(path[|path| - 1]) && Blocks(g, Flat(Fill(path, leaf)))
    requires 0 <= e.hash && e.hash % 2 == 0 && |leaf.items| == 1
    requires SplitAndPut(g.size, leaf.items[0].recs, a, b, hash2, continued, e, j, ok, ra, rb)
    ensures var fl, key := Flat(Fill(path, leaf)), NewKey(hash2, continued);
            var t := Flat(TwoLeaves(path, leaf, ra, rb, key));
            && RootOk(g, TwoLeaves(path, leaf, ra, rb, key), |path|) && Blocks(g, t)
            && |Pre(path)| < |fl| && fl[|Pre(path)|] == leaf.items[0] && t == TwoFor(fl, |Pre(path)|, ra, rb, key)
            && multiset(Entries(t)) == multiset(Entries(fl)) + (if ok then multiset{e} else multiset{})
  {
    var up, l, key := path[..|path| - 1], path[|path| - 1], NewKey(hash2, continued);
    assert path == up + [l];
    LeafTiled(g, path, leaf);
    SplitTreeAll(g, path, up, l, leaf, ra, rb, key, TwoLeaves(path, leaf, ra, rb, key));
    BelongsThere(g, path, leaf, e.hash);
    SplitAdded(g, Flat(Fill(path, leaf)), |Pre(path)|, a, b, hash2, continued, ok, ra, rb, e, j);
  }

  lemma {:induction false} NotFull(g: Limits, up: HPath, l: Level<HLeaf>, leaf: HNode)
    requires Sits(g, up + [l], leaf, 0) && !Full(l)
    ensures |l.es| < l.max
  {
    LastLevelOk(g, up, l, leaf, 0);
  }

  lemma {:induction false} LeafTiled(g: Limits, path: HPath, leaf: HNode)
    requires path != [] && Sits(g, path, leaf, 0) && Blocks(g, Flat(Fill(path, leaf)))
    ensures |leaf.items| == 1 && Tiled(leaf.items[0].recs, g.size)
    ensures |Pre(path)| < |Flat(Fill(path, leaf))| && Flat(Fill(path, leaf))[|Pre(path)|] == leaf.items[0]
    ensures Key(leaf) == leaf.items[0].key
  {
    At(g, path, leaf);
    assert LeafOk(g, Flat(Fill(path, leaf)), |Pre(path)|);
  }

  lemma {:induction false} SplitAdded(g: Limits, fl: seq<HLeaf>, p: nat, a: seq<Rec>, b: seq<Rec>, hash2: int,
                                      continued: bool, ok: bool, ra: seq<Rec>, rb: seq<Rec>, e: Dirent, j: nat)
    requires Blocks(g, fl) && p < |fl| && Between(e.hash, fl[p].key, NextKey(fl, p))
    requires SplitAndPut(g.size, fl[p].recs, a, b, hash2, continued, e, j, ok, ra, rb)
    ensures var t := TwoFor(fl, p, ra, rb, NewKey(hash2, continued));
            Blocks(g, t) && multiset(Entries(t)) == multiset(Entries(fl)) + (if ok then multiset{e} else multiset{})
  {
    var key := NewKey(hash2, continued);
    SplitKeepsBlocks(g, fl, p, a, b, hash2, continued);
    SplitKeepsEntries(fl, p, a, b, key);
    if ok {
      assert LeafOk(g, fl, p);
      GoesToHalf(g, fl, p, a, b, hash2, continued, e.hash);
      AddToHalf(g, fl, p, a, b, key, e.hash >= hash2, if e.hash >= hash2 then rb else ra, e, j);
    }
  }

  // ------------------------------------------------------------ adding an entry

  /** Every block is as adding, deleting and splitting leave blocks. */
  ghost predicate AllCompact(fl: seq<HLeaf>) {
    forall i :: 0 <= i < |fl| ==> Compact(fl[i].recs)
  }

  /** add_dirent_to_buf on the block the path leads to. */
  method TryBlock(g: Limits, path: HPath, leaf: HNode, e: Dirent) returns (err: int, root: HNode)
    requires path != [] && Sits(g, path, leaf, 0) && OnPath(path, e.hash) && Blocks(g, Flat(Fill(path, leaf)))
    requires e.Valid() && 0 <= e.hash && e.hash % 2 == 0
    ensures err == 0 || err == -EEXIST || err == -ENOSPC
    ensures err == 0 ==> RootOk(g, root, |path|) && Blocks(g, Flat(root))
                         && multiset(Entries(Flat(root))) == multiset(Entries(Flat(Fill(path, leaf)))) + multiset{e}
                         && (AllCompact(Flat(Fill(path, leaf))) ==> AllCompact(Flat(root)))
    ensures |leaf.items| == 1
    ensures err == -EEXIST <==> Dup(leaf.items[0].recs, e.name)
    ensures err == -ENOSPC <==> Blocked(leaf.items[0].recs, e.name)
  {
    LeafTiled(g, path, leaf);
    ghost var fl, p := Flat(Fill(path, leaf)), |Pre(path)|;
    var b := new Block(g.size, leaf.items[0].recs);
    ghost var es := b.Entries();
    err := b.Add(e);
    root := leaf;
    if err == 0 {
      root := Fill(path, LeafNode(Key(leaf), b.recs));
      ghost var j :| 0 <= j <= |es| && b.Entries() == es[..j] + [e] + es[j..];
      ReplaceLeaf(g, path, leaf, b.recs);
      BelongsThere(g, path, leaf, e.hash);
      AddKeepsBlocks(g, fl, p, b.recs, e, j);
      AddAddsEntry(fl, p, b.recs, e, j);
    }
  }

  lemma {:induction false} ReplaceLeaf(g: Limits, path: HPath, leaf: HNode, recs: seq<Rec>)
    requires path != [] && Sits(g, path, leaf, 0)
    ensures RootOk(g, Fill(path, LeafNode(Key(leaf), recs)), |path|)
    ensures |Pre(path)| < |Flat(Fill(path, leaf))|
    ensures Flat(Fill(path, LeafNode(Key(leaf), recs))) == Flat(Fill(path, leaf))[|Pre(path)| := HLeaf(Key(leaf), recs)]
  {
    At(g, path, leaf);
    LeafNodeOk(g, Key(leaf), recs);
    FillShape(g, path, LeafNode(Key(leaf), recs), 0);
    ReplacedFlat(path, leaf, LeafNode(Key(leaf), recs));
  }

  lemma {:induction false} ReplacedFlat(path: HPath, leaf: HNode, with: HNode)
    requires PathOk(path) && leaf.Leaf? && |leaf.items| == 1 && with.Leaf? && |with.items| == 1
    ensures |Pre(path)| < |Flat(Fill(path, leaf))|
    ensures Flat(Fill(path, with)) == Flat(Fill(path, leaf))[|Pre(path)| := with.items[0]]
  {
    FlatFill(path, leaf);
    FlatFill(path, with);
    UpdateMiddle(Pre(path), leaf.items, Post(path), with.items[0]);
  }

  lemma {:induction false} UpdateMiddle<T>(a: seq<T>, m: seq<T>, b: seq<T>, x: T)
    requires |m| == 1
    ensures (a + m + b)[|a| := x] == a + [x] + b
  {
  }

  /** The highest index block that has to be split, or none with room above it. */
  method LevelToSplit(path: HPath) returns (f: nat, addLevel: bool)
    requires path != [] && Full(path[|path| - 1])
    ensures f < |path| && (forall j :: f <= j < |path| ==> Full(path[j]))
    ensures if addLevel then f == 0 else 0 < f && !Full(path[f - 1])
  {
    f, addLevel := |path| - 1, true;
    while f > 0
      invariant 0 <= f < |path| && addLevel && forall j :: f <= j < |path| ==> Full(path[j])
    {
      if !Full(path[f - 1]) {
        addLevel := false;
        return;
      }
      f := f - 1;
    }
  }

  datatype Room = Ready | Again | IndexFull

  /** Every index block on the path is full and the tree may not get deeper. */
  predicate Jammed(path: HPath, levels: nat) {
    FullRun(path) == |path| && |path| == levels
  }

  /** Makes room for one more entry in the lowest index block. */
  method MakeRoom(dir: HashedDir, path: HPath, leaf: HNode, hash: int) returns (r: Room, q: HPath)
    requires dir.Valid() && path != [] && Leads(dir, path, leaf, hash)
    requires forall k :: 0 <= k < |path| ==> KeysRise(path[k].es)
    modifies dir
    ensures dir.Valid() && Flat(dir.root) == old(Flat(dir.root))
    ensures !r.IndexFull? ==> q != [] && Leads(dir, q, leaf, hash)
    ensures r.Ready? ==> !Full(q[|q| - 1])
    ensures r.Ready? <==> FullRun(path) == 0 || FullRun(path) == 1 < |path|
    ensures r.Again? ==> FullRun(q) < FullRun(path)
    ensures r.IndexFull? <==> Jammed(path, dir.g.levels)
    ensures r.IndexFull? ==> dir.root == old(dir.root)
    ensures dir.depth >= old(dir.depth)
  {
    q := path;
    if !Full(path[|path| - 1]) {
      return Ready, q;
    }
    var f, addLevel := LevelToSplit(path);
    FullRunIs(path, f);
    if addLevel {
      if |path| == dir.g.levels {
        return IndexFull, q;
      }
      q := GrowIndex(dir, path, leaf, hash);
      r := Again;
    } else {
      q := SplitAtLevel(dir, path, leaf, hash, f);
      r := if f < |path| - 1 then Again else Ready;
    }
  }

  /** Adds a level to an index that is full up to the root. */
  method GrowIndex(dir: HashedDir, path: HPath, leaf: HNode, hash: int) returns (q: HPath)
    requires dir.Valid() && path != [] && Leads(dir, path, leaf, hash)
    requires forall j :: 0 <= j < |path| ==> Full(path[j])
    modifies dir
    ensures dir.Valid() && Flat(dir.root) == old(Flat(dir.root)) && dir.depth >= old(dir.depth)
    ensures q != [] && Leads(dir, q, leaf, hash) && FullRun(q) == |path| - 1
  {
    dir.root, q := AddLevel(dir.g, path, leaf, hash);
    dir.depth := dir.depth + 1;
    StillFull(path, q, 1, 2);
    FillShape(dir.g, q, leaf, 0);
  }

  /** Splits the highest full index block below one with room. */
  method SplitAtLevel(dir: HashedDir, path: HPath, leaf: HNode, hash: int, f: nat) returns (q: HPath)
    requires dir.Valid() && 0 < f < |path| && Leads(dir, path, leaf, hash) && KeysRise(path[f].es)
    requires !Full(path[f - 1]) && forall j :: f <= j < |path| ==> Full(path[j])
    modifies dir
    ensures dir.Valid() && Flat(dir.root) == old(Flat(dir.root)) && dir.depth == old(dir.depth)
    ensures q != [] && Leads(dir, q, leaf, hash) && FullRun(q) == |path| - f - 1
  {
    dir.root, q := SplitIndexBlock(dir.g, path, leaf, f, hash);
    StillFull(path, q, f + 1, f + 1);
    FillShape(dir.g, q, leaf, 0);
  }

  lemma {:induction false} StillFull(path: HPath, q: HPath, i: nat, j: nat)
    requires 0 < j && i <= |path| && j <= |q| && q[j..] == path[i..] && !Full(q[j - 1])
    requires forall k :: i <= k < |path| ==> Full(path[k])
    ensures FullRun(q) == |path| - i
  {
    forall k | j <= k < |q| ensures Full(q[k]) {
      assert q[k] == q[j..][k - j] && path[i + (k - j)] == path[i..][k - j];
    }
    FullRunIs(q, j);
  }

  /** Two results that stand for what the code does not check: there are too few entries in
      the block to split it, or the half the new entry belongs to has no room behind its last
      record. */
  const TOO_FEW: int := 1
  const NO_PLACE: int := 2

  lemma {:induction false} CompactCut(g: Limits, fl: seq<HLeaf>, p: nat, cut: Cut, e: Dirent, ok: bool,
                                      after: seq<HLeaf>)
    requires CutTo(g, fl, p, cut, e, ok, after) && AllCompact(fl)
    ensures AllCompact(after)
  {
    forall i | 0 <= i < |after| ensures Compact(after[i].recs) {
      assert i < p ==> after[i] == fl[i];
      assert i > p + 1 ==> after[i] == fl[i - 1];
    }
  }

  /** In a block left by adding, deleting and splitting there are never too few. */
  lemma {:induction false} EnoughToSplit(g: Limits, recs: seq<Rec>, e: Dirent)
    requires g.Valid() && Tiled(recs, g.size) && Compact(recs) && e.Valid() && Blocked(recs, e.name)
    ensures |LiveOf(recs)| >= 2
  {
    ShortEnough(e);
    NoRoomMeansTwo(recs, g.size, MinLen(|e.name|));
  }

  /** How adding `e` to the block with records `recs` turns out, once its index entry has room
      beside it: `ms` is the map the split sorted. */
  ghost predicate Outcome(g: Limits, recs: seq<Rec>, e: Dirent, jammed: bool, ms: seq<MapEntry>, err: int) {
    && (err == 0 || err == -EEXIST || err == -ENOSPC || err == TOO_FEW || err == NO_PLACE)
    && (err == -EEXIST <==> Dup(recs, e.name))
    && (err == -ENOSPC <==> Blocked(recs, e.name) && jammed)
    && (err == TOO_FEW <==> Blocked(recs, e.name) && !jammed && |LiveOf(recs)| < 2)
    && (err == NO_PLACE <==>
        Blocked(recs, e.name) && !jammed && |LiveOf(recs)| >= 2 && TooTight(recs, ms, g.size, g.block, e))
    && (Blocked(recs, e.name) && !jammed && |LiveOf(recs)| >= 2 ==> SortedMapOf(recs, ms))
  }

  /** The second case does occur: in a block of three long names and three short ones, for
      another long name that hashes low. */
  lemma {:induction false} NoPlaceReached(g: Limits, recs: seq<Rec>, e: Dirent, ms: seq<MapEntry>, err: int)
    requires g.size == 1024 && g.block == 1024 && Tight(recs) && |e.name| == NAME_LEN && e.hash < 6
    requires !HasName(LiveOf(recs), e.name) && Outcome(g, recs, e, false, ms, err)
    ensures err == NO_PLACE
  {
    TightIsFull(recs);
    NoPlaceInTight(recs, ms, e);
  }

  lemma {:induction false} NotBoth(recs: seq<Rec>, name: string)
    ensures !(Dup(recs, name) && Blocked(recs, name))
  {
    if Dup(recs, name) {
      var k :| 0 <= k < |recs| && NoRoom(recs, k, MinLen(|name|)) && recs[k].Live() && recs[k].name == name;
      NamePresent(recs, k);
    }
  }

  /** do_split and add_dirent_to_buf, once the lowest index block has room for one more entry. */
  method SplitAndInsert(dir: HashedDir, path: HPath, leaf: HNode, e: Dirent, junk: MapEntry)
    returns (err: int, ghost ms: seq<MapEntry>)
    requires dir.Valid() && path != [] && Leads(dir, path, leaf, e.hash) && !Full(path[|path| - 1])
    requires e.Valid() && 0 <= e.hash && e.hash % 2 == 0 && |leaf.items| == 1 && Blocked(leaf.items[0].recs, e.name)
    modifies dir
    ensures dir.Valid()
    ensures dir.Contents() == old(dir.Contents()) + (if err == 0 then multiset{e} else multiset{})
    ensures Outcome(dir.g, leaf.items[0].recs, e, false, ms, err)
    ensures AllCompact(old(Flat(dir.root))) ==> AllCompact(Flat(dir.root))
    ensures Compact(leaf.items[0].recs) ==> err != TOO_FEW
  {
    LeafTiled(dir.g, path, leaf);
    ghost var recs := leaf.items[0].recs;
    NotBoth(recs, e.name);
    ms := [];
    if |LiveOf(leaf.items[0].recs)| < 2 {
      if Compact(recs) {
        EnoughToSplit(dir.g, recs, e);
      }
      return TOO_FEW, ms;
    }
    var ok, root;
    ghost var cut, fl := *, Flat(dir.root);
    ok, root, cut := SplitBlock(dir.g, path, leaf, e, junk);
    ms := cut.ms;
    if AllCompact(fl) {
      CompactCut(dir.g, fl, |Pre(path)|, cut, e, ok, Flat(root));
    }
    dir.root := root;
    err := if ok then 0 else NO_PLACE;
  }

  /** ext4_dx_add_entry. `way` and `leaf` are where the hash leads. The entry is refused when
      its name stands before any room for it, or when there is no room and the index is full
      to its last level; else it is added, except in the two cases the code does not check
      for. The first of these does not occur in directories that were only ever added to,
      deleted from and split; the second has its exact condition, and it takes a split that
      halved the block by count. Whatever the result, the directory stays in order, and its
      entries are what they were but for the new one. Starting over ends, because each time
      one full level less is in the way. */
  method AddEntry(dir: HashedDir, e: Dirent, junk: MapEntry)
    returns (err: int, ghost way: HPath, ghost leaf: HNode, ghost ms: seq<MapEntry>)
    requires dir.Valid() && e.Valid() && 0 <= e.hash && e.hash % 2 == 0
    modifies dir
    ensures dir.Valid()
    ensures dir.Contents() == old(dir.Contents()) + (if err == 0 then multiset{e} else multiset{})
    ensures way != [] && |way| == old(dir.depth) && Sits(dir.g, way, leaf, 0) && OnPath(way, e.hash)
    ensures old(dir.root) == Fill(way, leaf) && |leaf.items| == 1
    ensures Outcome(dir.g, leaf.items[0].recs, e, Jammed(way, dir.g.levels), ms, err)
    ensures err == -EEXIST || err == -ENOSPC ==> dir.root == old(dir.root)
    ensures Compact(leaf.items[0].recs) ==> err != TOO_FEW
    ensures AllCompact(old(Flat(dir.root))) ==> AllCompact(Flat(dir.root))
  {
    var path, at := Probe(dir.g, dir.root, dir.depth, e.hash);
    way, leaf, ms := path, at, [];
    while true
      invariant dir.Valid() && Flat(dir.root) == old(Flat(dir.root)) && at == leaf
      invariant path != [] && Leads(dir, path, at, e.hash) && forall k :: 0 <= k < |path| ==> KeysRise(path[k].es)
      invariant FirstOrLater(dir.g, way, path, leaf, e, dir.root == old(dir.root))
      decreases FullRun(path)
    {
      var root, r, q;
      err, root := TryBlock(dir.g, path, at, e);
      NotBoth(leaf.items[0].recs, e.name);
      if err == 0 {
        dir.root := root;
        return;
      }
      if err != -ENOSPC {
        return;
      }
      r, q := MakeRoom(dir, path, at, e.hash);
      if r.IndexFull? {
        return;
      }
      if r.Ready? {
        err, ms := SplitAndInsert(dir, q, at, e, junk);
        return;
      }
      FullRunBound(path);
      path, at := Probe(dir.g, dir.root, dir.depth, e.hash);
      PathUnique(q, leaf, path, at, e.hash);
      SameFullRun(q, path);
    }
  }

  /** Either this is the first round and nothing has changed, or there is no room in the block
      but the index is not full any more. */
  ghost predicate FirstOrLater(g: Limits, way: HPath, path: HPath, leaf: HNode, e: Dirent, same: bool) {
    || (path == way && same)
    || (&& leaf.Leaf? && |leaf.items| == 1 && Blocked(leaf.items[0].recs, e.name)
        && !Jammed(way, g.levels) && FullRun(path) < |path|)
  }

  lemma {:induction false} FullRunBound(path: HPath)
    ensures FullRun(path) <= |path|
  {
    if path != [] {
      FullRunBound(path[..|path| - 1]);
    }
  }
}
