/**
 ext4_ext_convert_to_initialized: marking a range of unwritten blocks as written, by handing
 them to a written neighbour or by splitting, possibly zeroing what surrounds them first.
 */
module ExtentConvert {
  import opened Extents
  import opened KeyTree
  import opened ExtentTree
  import opened ExtentMerge
  import opened ExtentSplit

  /** Blocks lo, ..., hi-1 have become written; nothing else has changed. */
  ghost predicate Converted(before: seq<Extent>, after: seq<Extent>, lo: int, hi: int) {
    forall b :: Lookup(after, b) == Written(before, lo, hi, b)
  }

  /** What block `b` maps to once lo, ..., hi-1 are written. */
  function Written(es: seq<Extent>, lo: int, hi: int, b: int): Option<Mapping> {
    if lo <= b < hi && Mapped(es, b) then Some(Lookup(es, b).value.(unwritten := false)) else Lookup(es, b)
  }

  /** A run of blocks zeroed on disk, as handed to ext4_ext_zeroout: the physical run is what
      is written to, the logical one only names it. */
  datatype Zero = Zero(block: int, len: int, pblk: int)

  /** Physical block `x` was zeroed. */
  predicate IsZeroed(zs: seq<Zero>, x: int) {
    exists i :: 0 <= i < |zs| && zs[i].pblk <= x < zs[i].pblk + zs[i].len
  }

  /** Where lo, ..., hi-1 go beyond the request, the block mapped there was zeroed. */
  ghost predicate SpareZeroed(es: seq<Extent>, zs: seq<Zero>, lo: int, hi: int, lblk: int, len: int) {
    forall b :: lo <= b < hi && !(lblk <= b < lblk + len) ==> Mapped(es, b) && IsZeroed(zs, Lookup(es, b).value.pblk)
  }

  /** Whatever was zeroed was unwritten, and lies where lo, ..., hi-1 go beyond the request. */
  ghost predicate OnlySpareZeroed(es: seq<Extent>, zs: seq<Zero>, lo: int, hi: int, lblk: int, len: int) {
    forall x :: IsZeroed(zs, x) ==>
      exists b :: lo <= b < hi && !(lblk <= b < lblk + len) && Lookup(es, b) == Some(Mapping(x, true))
  }

  /** The logical block that names a run zeroed is the unwritten block mapped to its beginning. */
  ghost predicate ZeroesNamed(es: seq<Extent>, zs: seq<Zero>) {
    forall i :: 0 <= i < |zs| ==> Lookup(es, zs[i].block) == Some(Mapping(zs[i].pblk, true))
  }

  // --------------------------------------------------------------- flat facts

  /** A search for a covered block stops at the extent that covers it. */
  lemma {:induction false} NearestCovers(es: seq<Extent>, i: int, k: nat, b: int)
    requires Sorted(es) && Nearest(es, i, b) && k < |es| && es[k].Covers(b)
    ensures i == k
  {
    SortedAll(es);
  }

  lemma {:induction false} LookupPieces(e: Extent, b: int, x: int)
    requires e.block <= b < e.End()
    ensures Lookup(Pieces(e, b, true, false), x)
            == if e.Covers(x) then Some(Mapping(e.pblk + (x - e.block), if x < b then true else false)) else None
  {
    var s := Pieces(e, b, true, false);
    if b == e.block {
      assert s[1..] == [];
    } else {
      assert s[1..] == [s[1]] && [s[1]][1..] == [];
      assert Lookup([s[1]], x) == if s[1].Covers(x) then Some(s[1].At(x)) else None;
    }
  }

  /** Cutting the unwritten extent at `k` at block b and marking the second part written
      converts the blocks from b on. */
  lemma {:induction false} PiecesConvert(es: seq<Extent>, k: nat, b: int)
    requires Sorted(es) && k < |es| && es[k].block <= b < es[k].End() && es[k].unwritten
    ensures Converted(es, Replaced(es, k, Pieces(es[k], b, true, false)), b, es[k].End())
  {
    var e, p := es[k], Pieces(es[k], b, true, false);
    var s := Replaced(es, k, p);
    forall x ensures Lookup(s, x) == Written(es, b, e.End(), x) {
      LookupPieces(e, b, x);
      SplicedLookup(es, k, p, x);
    }
  }

  lemma {:induction false} SplicedLookup(es: seq<Extent>, k: nat, p: seq<Extent>, x: int)
    requires Sorted(es) && k < |es| && (Lookup(p, x).Some? <==> es[k].Covers(x))
    ensures Lookup(Replaced(es, k, p), x) == if es[k].Covers(x) then Lookup(p, x) else Lookup(es, x)
    ensures es[k].Covers(x) ==> Lookup(es, x) == Some(es[k].At(x))
  {
    var a, e, b := es[..k], es[k], es[k + 1..];
    assert es == a + [e] + b;
    LookupAround(a, [e], b, x);
    LookupAround(a, p, b, x);
    assert [e][1..] == [];
    if e.Covers(x) {
      LookupHit(es, k, x);
      SortedAll(es);
      LookupMiss(a, x);
    }
  }

  lemma {:induction false} LookupAround(a: seq<Extent>, m: seq<Extent>, b: seq<Extent>, x: int)
    ensures Lookup(a + m + b, x)
            == if Lookup(a, x).Some? then Lookup(a, x) else if Lookup(m, x).Some? then Lookup(m, x) else Lookup(b, x)
  {
    LookupConcat(a + m, b, x);
    LookupConcat(a, m, x);
  }

  lemma {:induction false} ConvertedSame(a: seq<Extent>, b: seq<Extent>, c: seq<Extent>, d: seq<Extent>, lo: int,
                                         hi: int)
    requires SameMap(a, b) && Converted(b, c, lo, hi) && SameMap(c, d)
    ensures Converted(a, d, lo, hi)
  {
  }

  // -------------------------------------------------------------- splitting

  /** The extent the cursor picks is the one at its index. */
  ghost predicate Picks(inode: Inode, c: Cursor)
    reads inode
  {
    c.Ok() && c.pos >= 0 && |c.path| == inode.depth && inode.root == Fill(c.path, c.leaf)
  }

  /** The first cut, behind the range, which leaves both parts unwritten. */
  method CutBehind(inode: Inode, c: Cursor, b: int, creditsOk: bool)
    requires inode.Valid() && Picks(inode, c) && c.leaf.items[c.pos].unwritten
    requires c.leaf.items[c.pos].block < b <= c.leaf.items[c.pos].End()
    modifies inode
    ensures inode.Valid() && Same(old(inode.Extents()), inode.Extents())
    ensures c.Index() < |old(inode.Extents())| && old(inode.Extents())[c.Index()] == c.leaf.items[c.pos]
    ensures var e := c.leaf.items[c.pos];
            inode.Extents() == Replaced(old(inode.Extents()), c.Index(),
                                        [e.Head(b)] + if b < e.End() then [e.Tail(b)] else [])
  {
    ghost var es, k := inode.Extents(), c.Index();
    AtLeaf(c, c.pos);
    if b < c.leaf.items[c.pos].End() {
      SplitKeeps(es, k, b);
      SplitExtentAt(inode, c, b, true, true, true, creditsOk);
      assert Pieces(es[k], b, true, true) == [es[k].Head(b)] + [es[k].Tail(b)];
    } else {
      assert es == es[..k] + ([es[k]] + []) + es[k + 1..] && es[k].Head(b) == es[k];
    }
  }

  /** The second cut, before the range, which marks the second part written. */
  method CutBefore(inode: Inode, ghost k: nat, b: int, preIo: bool, creditsOk: bool)
    requires inode.Valid() && k < |inode.Extents()| && inode.Extents()[k].Covers(b) && inode.Extents()[k].unwritten
    modifies inode
    ensures inode.Valid() && Converted(old(inode.Extents()), inode.Extents(), b, old(inode.Extents()[k].End()))
    ensures SameUses(old(inode.Extents()), inode.Extents())
    ensures var s := Replaced(old(inode.Extents()), k, Pieces(old(inode.Extents())[k], b, true, false));
            Coalesces(s, inode.Extents()) && (preIo ==> inode.Extents() == s)
    ensures !preIo ==> SettledInLeaf(inode, b)
  {
    ghost var es := inode.Extents();
    var c := Search(inode, b);
    NearestCovers(es, c.Index(), k, b);
    PiecesConvert(es, k, b);
    PiecesUses(es, k, b);
    SplitExtentAt(inode, c, b, true, false, preIo, creditsOk);
    ConvertedSame(es, es, Replaced(es, k, Pieces(es[k], b, true, false)), inode.Extents(), b, es[k].End());
  }

  /** An unwritten extent of which the blocks lo, ..., hi-1 have become a written one. */
  function Middle(e: Extent, lo: int, hi: int): seq<Extent> {
    (if e.block < lo then [e.Head(lo)] else [])
    + [Extent(lo, hi - lo, e.pblk + (lo - e.block), false)]
    + (if hi < e.End() then [e.Tail(hi)] else [])
  }

  lemma {:induction false} TwoCuts(es: seq<Extent>, k: nat, lo: int, hi: int)
    requires k < |es| && es[k].unwritten && es[k].block <= lo < hi <= es[k].End()
    ensures var cut := Replaced(es, k, [es[k].Head(hi)] + if hi < es[k].End() then [es[k].Tail(hi)] else []);
            && k < |cut| && cut[k] == es[k].Head(hi)
            && Replaced(cut, k, Pieces(cut[k], lo, true, false)) == Replaced(es, k, Middle(es[k], lo, hi))
  {
    var e := es[k];
    var t := if hi < e.End() then [e.Tail(hi)] else [];
    var cut := Replaced(es, k, [e.Head(hi)] + t);
    assert cut[..k] == es[..k] && cut[k + 1..] == t + es[k + 1..];
    assert Middle(e, lo, hi) == Pieces(e.Head(hi), lo, true, false) + t;
  }

  /** ext4_split_extent on an unwritten extent, the part of which in lblk, ..., lblk+len-1 is
      to be marked written: it becomes up to three extents, of which the written one is then
      merged with its neighbours unless `preIo`. */
  method SplitExtent(inode: Inode, c: Cursor, lblk: int, len: int, preIo: bool, creditsOk: bool)
    requires inode.Valid() && Picks(inode, c) && c.leaf.items[c.pos].unwritten
    requires c.leaf.items[c.pos].block <= lblk && 0 < len && lblk + len <= c.leaf.items[c.pos].End()
    modifies inode
    ensures inode.Valid() && Converted(old(inode.Extents()), inode.Extents(), lblk, lblk + len)
    ensures SameUses(old(inode.Extents()), inode.Extents()) && c.Index() < |old(inode.Extents())|
    ensures var s := Replaced(old(inode.Extents()), c.Index(), Middle(c.leaf.items[c.pos], lblk, lblk + len));
            Coalesces(s, inode.Extents()) && (preIo ==> inode.Extents() == s)
    ensures !preIo ==> SettledInLeaf(inode, lblk)
  {
    ghost var es := inode.Extents();
    AtLeaf(c, c.pos);
    TwoCuts(es, c.Index(), lblk, lblk + len);
    CutBehind(inode, c, lblk + len, creditsOk);
    ghost var cut := inode.Extents();
    CutBefore(inode, c.Index(), lblk, preIo, creditsOk);
    ConvertedSame(es, cut, inode.Extents(), inode.Extents(), lblk, lblk + len);
  }

  lemma {:induction false} PiecesUses(es: seq<Extent>, k: nat, b: int)
    requires k < |es| && es[k].block <= b < es[k].End()
    ensures SameUses(es, Replaced(es, k, Pieces(es[k], b, true, false)))
  {
    var e, p := es[k], Pieces(es[k], b, true, false);
    assert es == es[..k] + [e] + es[k + 1..];
    forall x ensures Uses([e], x) == Uses(p, x) {
      assert [e][1..] == [] && if b == e.block then p[1..] == [] else p[1..] == [p[1]] && p[1..][1..] == [];
    }
    UsesReplace(es[..k], [e], p, es[k + 1..]);
  }

  // ------------------------------------------- handing over to a neighbour

  lemma {:induction false} LookupPair(x: Extent, y: Extent, b: int)
    ensures Lookup([x, y], b) == if x.Covers(b) then Some(x.At(b)) else if y.Covers(b) then Some(y.At(b)) else None
  {
    var s := [x, y];
    assert s[1..] == [y] && [y][1..] == [];
    assert Lookup([y], b) == if y.Covers(b) then Some(y.At(b)) else None;
  }

  lemma {:induction false} UsesPair(x: Extent, y: Extent, b: int)
    ensures Uses([x, y], b) == InRun(x.pblk, x.len, b) + InRun(y.pblk, y.len, b)
  {
    var s := [x, y];
    assert s[1..] == [y] && [y][1..] == [] && Uses([y], b) == InRun(y.pblk, y.len, b);
  }

  /** Moving the border between an extent and a physically adjacent one. */
  ghost predicate BorderMoved(x: Extent, y: Extent, x': Extent, y': Extent) {
    && x.End() == y.block && x.pblk + x.len == y.pblk
    && x'.End() == y'.block && x'.pblk + x'.len == y'.pblk
    && x'.block == x.block && x'.pblk == x.pblk && y'.End() == y.End()
    && x'.unwritten == x.unwritten && y'.unwritten == y.unwritten
    && x.Valid() && y.Valid() && x'.Valid() && y'.Valid()
  }

  /** Exactly one side is written; its part grows by lo, ..., hi-1. */
  lemma {:induction false} BorderConverts(x: Extent, y: Extent, x': Extent, y': Extent, lo: int, hi: int, b: int)
    requires BorderMoved(x, y, x', y') && x.unwritten != y.unwritten
    requires if x.unwritten then lo == x'.End() && hi == x.End() else lo == x.End() && hi == x'.End()
    requires lo < hi
    ensures lo <= b < hi ==> Mapped([x, y], b)
    ensures Lookup([x', y'], b) ==
            if lo <= b < hi then Some(Lookup([x, y], b).value.(unwritten := false)) else Lookup([x, y], b)
  {
    LookupPair(x, y, b);
    LookupPair(x', y', b);
  }

  lemma {:induction false} BorderUses(x: Extent, y: Extent, x': Extent, y': Extent)
    requires BorderMoved(x, y, x', y')
    ensures SameUses([x, y], [x', y'])
  {
    forall b ensures Uses([x, y], b) == Uses([x', y'], b) {
      UsesPair(x, y, b);
      UsesPair(x', y', b);
    }
  }

  lemma {:induction false} NotBefore(a: seq<Extent>, m: seq<Extent>, c: seq<Extent>, b: int)
    requires Sorted(a + m + c) && Mapped(m, b)
    ensures Lookup(a, b) == None
  {
    var i := LookupWitness(m, b);
    SortedAll(a + m + c);
    forall j | 0 <= j < |a| ensures !a[j].Covers(b) {
      assert (a + m + c)[j] == a[j] && (a + m + c)[|a| + i] == m[i];
    }
    LookupMiss(a, b);
  }

  lemma {:induction false} PairConverts(a: seq<Extent>, x: Extent, y: Extent, c: seq<Extent>, x': Extent, y': Extent,
                                        lo: int, hi: int)
    requires Sorted(a + [x, y] + c) && BorderMoved(x, y, x', y') && x.unwritten != y.unwritten
    requires if x.unwritten then lo == x'.End() && hi == x.End() else lo == x.End() && hi == x'.End()
    requires lo < hi
    ensures Sorted(a + [x', y'] + c) && Converted(a + [x, y] + c, a + [x', y'] + c, lo, hi)
    ensures SameUses(a + [x, y] + c, a + [x', y'] + c)
  {
    BorderUses(x, y, x', y');
    UsesReplace(a, [x, y], [x', y'], c);
    SortedReplace(a, [x, y], [x', y'], c);
    forall b ensures Lookup(a + [x', y'] + c, b) == Written(a + [x, y] + c, lo, hi, b) {
      BorderConverts(x, y, x', y', lo, hi, b);
      LookupAround(a, [x, y], c, b);
      LookupAround(a, [x', y'], c, b);
      if lo <= b < hi {
        NotBefore(a, [x, y], c, b);
      }
    }
  }

  /** Writes two neighbouring extents of the leaf reached, the border between them moved. */
  method MoveBorder(inode: Inode, c: Cursor, i: nat, x: Extent, y: Extent, ghost lo: int, ghost hi: int)
    requires inode.Valid() && Picks(inode, c) && i + 1 < |c.leaf.items|
    requires BorderMoved(c.leaf.items[i], c.leaf.items[i + 1], x, y)
    requires c.leaf.items[i].unwritten != c.leaf.items[i + 1].unwritten && lo < hi
    requires if c.leaf.items[i].unwritten then lo == x.End() && hi == c.leaf.items[i].End()
             else lo == c.leaf.items[i].End() && hi == x.End()
    modifies inode
    ensures inode.Valid() && Converted(old(inode.Extents()), inode.Extents(), lo, hi)
    ensures SameUses(old(inode.Extents()), inode.Extents())
  {
    var items := c.leaf.items;
    var items' := items[..i] + [x, y] + items[i + 2..];
    LeafRewrite(inode.g, inode.root, inode.depth, c, items');
    ghost var a, b := Pre(c.path) + items[..i], items[i + 2..] + Post(c.path);
    PairInLeaf(Pre(c.path), items, Post(c.path), i, items[i], items[i + 1]);
    PairInLeaf(Pre(c.path), items, Post(c.path), i, x, y);
    assert items[..i] + [items[i], items[i + 1]] + items[i + 2..] == items;
    PairConverts(a, items[i], items[i + 1], b, x, y, lo, hi);
    inode.root := Fill(c.path, Leaf(c.leaf.max, items'));
  }

  lemma {:induction false} PairInLeaf(pre: seq<Extent>, items: seq<Extent>, post: seq<Extent>, i: nat, x: Extent,
                                      y: Extent)
    requires i + 1 < |items|
    ensures pre + (items[..i] + [x, y] + items[i + 2..]) + post == (pre + items[..i]) + [x, y] + (items[i + 2..] + post)
  {
  }

  /** The written extent `n`, next to an unwritten one, can have `len` of its blocks; `a` is the
      first of the two and `b` the second. */
  predicate CanTake(a: Extent, b: Extent, n: Extent, len: int) {
    !n.unwritten && a.End() == b.block && a.pblk + a.len == b.pblk && n.len < EXT_INIT_MAX_LEN - len
  }

  /** The blocks asked for can go to a neighbour in the same leaf: they begin the extent and the
      one before can have them, or they end it and the one after can. */
  predicate Transfers(items: seq<Extent>, pos: nat, lblk: int, len: int)
    requires pos < |items|
  {
    var e := items[pos];
    && len < e.len
    && if lblk == e.block && pos > 0 then CanTake(items[pos - 1], e, items[pos - 1], len)
       else lblk + len == e.End() && pos + 1 < |items| && CanTake(e, items[pos + 1], items[pos + 1], len)
  }

  /** Giving `len` blocks away is possible exactly if one block more could be merged. */
  lemma {:induction false} TakesOneShort(a: Extent, b: Extent, len: int)
    requires a.Valid() && b.Valid() && 0 < len
    ensures len < b.len ==>
              (CanTake(a, b, a, len) <==> !a.unwritten && CanMerge(a, b.(len := len + 1, unwritten := false)))
    ensures len < a.len ==>
              (CanTake(a, b, b, len) <==> !b.unwritten && CanMerge(a.Tail(a.End() - len - 1).(unwritten := false), b))
  {
  }

  /** The range goes to the written extent before it, if the two fit together. */
  method TransferLeft(inode: Inode, c: Cursor, len: int) returns (done: bool)
    requires inode.Valid() && Picks(inode, c) && c.pos > 0 && c.leaf.items[c.pos].unwritten
    requires 0 < len < c.leaf.items[c.pos].len
    modifies inode
    ensures inode.Valid() && SameUses(old(inode.Extents()), inode.Extents())
    ensures done <==> CanTake(c.leaf.items[c.pos - 1], c.leaf.items[c.pos], c.leaf.items[c.pos - 1], len)
    ensures if done then Converted(old(inode.Extents()), inode.Extents(), c.leaf.items[c.pos].block,
                                   c.leaf.items[c.pos].block + len)
            else inode.root == old(inode.root) && inode.depth == old(inode.depth)
  {
    var e, p := c.leaf.items[c.pos], c.leaf.items[c.pos - 1];
    done := CanTake(p, e, p, len);
    if done {
      ItemsValid(inode.root, c, c.pos);
      ItemsValid(inode.root, c, c.pos - 1);
      MoveBorder(inode, c, c.pos - 1, p.(len := p.len + len), e.Tail(e.block + len), e.block, e.block + len);
    }
  }

  /** The range goes to the written extent after it, if the two fit together. */
  method TransferRight(inode: Inode, c: Cursor, len: int) returns (done: bool)
    requires inode.Valid() && Picks(inode, c) && c.pos + 1 < |c.leaf.items| && c.leaf.items[c.pos].unwritten
    requires 0 < len < c.leaf.items[c.pos].len
    modifies inode
    ensures inode.Valid() && SameUses(old(inode.Extents()), inode.Extents())
    ensures done <==> CanTake(c.leaf.items[c.pos], c.leaf.items[c.pos + 1], c.leaf.items[c.pos + 1], len)
    ensures if done then Converted(old(inode.Extents()), inode.Extents(), c.leaf.items[c.pos].End() - len,
                                   c.leaf.items[c.pos].End())
            else inode.root == old(inode.root) && inode.depth == old(inode.depth)
  {
    var e, n := c.leaf.items[c.pos], c.leaf.items[c.pos + 1];
    done := CanTake(e, n, n, len);
    if done {
      ItemsValid(inode.root, c, c.pos);
      ItemsValid(inode.root, c, c.pos + 1);
      MoveBorder(inode, c, c.pos, e.(len := e.len - len),
                 Extent(n.block - len, n.len + len, n.pblk - len, false), e.End() - len, e.End());
    }
  }

  /** Gives the blocks asked for to a neighbour in the same leaf, if that is possible. */
  method Transfer(inode: Inode, c: Cursor, lblk: int, len: int) returns (done: bool)
    requires inode.Valid() && Picks(inode, c) && c.leaf.items[c.pos].unwritten
    requires c.leaf.items[c.pos].block <= lblk && 0 < len && lblk + len <= c.leaf.items[c.pos].End()
    modifies inode
    ensures inode.Valid() && SameUses(old(inode.Extents()), inode.Extents())
    ensures done <==> Transfers(c.leaf.items, c.pos, lblk, len)
    ensures if done then Converted(old(inode.Extents()), inode.Extents(), lblk, lblk + len)
            else inode.root == old(inode.root) && inode.depth == old(inode.depth)
  {
    var e := c.leaf.items[c.pos];
    done := false;
    if lblk == e.block && len < e.len && c.pos > 0 {
      done := TransferLeft(inode, c, len);
    } else if lblk + len == e.End() && len < e.len && c.pos + 1 < |c.leaf.items| {
      done := TransferRight(inode, c, len);
    }
  }

  lemma {:induction false} ItemsValid(root: ENode, c: Cursor, j: nat)
    requires c.Ok() && root == Fill(c.path, c.leaf) && Sorted(Flat(root)) && j < |c.leaf.items|
    ensures c.leaf.items[j].Valid()
  {
    AtLeaf(c, j);
    assert ValidAt(Flat(root), |Pre(c.path)| + j);
  }

  /** Block `b` is among lo, ..., hi-1 but not asked for. */
  predicate Spare(lo: int, hi: int, lblk: int, len: int, b: int) {
    lo <= b < hi && !(lblk <= b < lblk + len)
  }

  lemma {:induction false} ZeroedOne(z: Zero)
    ensures forall x :: IsZeroed([z], x) <==> z.pblk <= x < z.pblk + z.len
  {
    assert [z][0] == z;
  }

  lemma {:induction false} ZeroedMore(zs: seq<Zero>, z: Zero)
    ensures forall x :: IsZeroed(zs + [z], x) <==> IsZeroed(zs, x) || z.pblk <= x < z.pblk + z.len
  {
    assert (zs + [z])[|zs|] == z;
    assert forall i :: 0 <= i < |zs| ==> (zs + [z])[i] == zs[i];
  }

  lemma {:induction false} NamedInMap(es: seq<Extent>, k: nat, zs: seq<Zero>)
    requires Sorted(es) && k < |es| && es[k].unwritten
    requires forall i :: 0 <= i < |zs| ==> es[k].Covers(zs[i].block) && zs[i].pblk == es[k].At(zs[i].block).pblk
    ensures ZeroesNamed(es, zs)
  {
    forall i | 0 <= i < |zs| ensures Lookup(es, zs[i].block) == Some(Mapping(zs[i].pblk, true)) {
      LookupHit(es, k, zs[i].block);
    }
  }

  /** What was zeroed, seen through the map. */
  lemma {:induction false} ZeroedInMap(es: seq<Extent>, k: nat, zs: seq<Zero>, lo: int, hi: int, lblk: int, len: int)
    requires Sorted(es) && k < |es| && es[k].unwritten && es[k].block <= lo && hi <= es[k].End()
    requires forall x :: IsZeroed(zs, x) <==>
                         es[k].pblk <= x < es[k].pblk + es[k].len
                             && Spare(lo, hi, lblk, len, es[k].block + (x - es[k].pblk))
    ensures SpareZeroed(es, zs, lo, hi, lblk, len) && OnlySpareZeroed(es, zs, lo, hi, lblk, len)
  {
    var e := es[k];
    forall b | Spare(lo, hi, lblk, len, b) ensures Mapped(es, b) && IsZeroed(zs, Lookup(es, b).value.pblk) {
      LookupHit(es, k, b);
      assert e.block + (e.At(b).pblk - e.pblk) == b;
    }
    forall x | IsZeroed(zs, x)
      ensures exists b :: lo <= b < hi && !(lblk <= b < lblk + len) && Lookup(es, b) == Some(Mapping(x, true))
    {
      LookupHit(es, k, e.block + (x - e.pblk));
    }
  }

  /** What the extent holds before the request is marked written with it. */
  predicate JoinsFront(e: Extent, lblk: int, len: int, maxZero: int, zero1: bool, zero2: bool) {
    var rest := e.End() - lblk;
    && len < rest && (rest <= maxZero ==> zero1)
    && lblk - e.block + (if rest <= maxZero then rest else len) < maxZero && (lblk == e.block || zero2)
  }

  /** When the code, having moved no border, returns more blocks than it marks written: there is
      more of the extent behind the request, that was not zeroed, and neither was what there is
      before it. */
  predicate Overstates(e: Extent, lblk: int, len: int, maxZero: int, zero1: bool, zero2: bool) {
    && len < e.End() - lblk
    && if e.End() - lblk <= maxZero then !zero1
       else !(lblk - e.block + len < maxZero && (lblk == e.block || zero2))
  }

  /** Five blocks in the middle of a hundred, with nothing zeroed: five are marked written, and
      ninety are returned. */
  method OverstatesNinety(zero1: bool, zero2: bool) returns (lo: int, hi: int, ret: int, zs: seq<Zero>)
    ensures lo == 10 && hi == 15 && ret == 90 && zs == []
    ensures Overstates(Extent(0, 100, 1000, true), 10, 5, 0, zero1, zero2)
  {
    lo, hi, ret, zs := ChooseRange(Extent(0, 100, 1000, true), 10, 5, 0, zero1, zero2);
  }

  /** Which part of the extent is marked written, and what is zeroed before: the request,
      with the rest of the extent after it, or with all of it before it, added if short
      enough. `zero1` and `zero2` say whether zeroing succeeds. */
  method ChooseRange(e: Extent, lblk: int, len: int, maxZero: int, zero1: bool, zero2: bool)
    returns (lo: int, hi: int, ret: int, zs: seq<Zero>)
    requires e.block <= lblk && 0 < len && lblk + len <= e.End()
    ensures lo == if JoinsFront(e, lblk, len, maxZero, zero1, zero2) then e.block else lblk
    ensures hi == if len < e.End() - lblk <= maxZero && zero1 then e.End() else lblk + len
    ensures ret == if JoinsFront(e, lblk, len, maxZero, zero1, zero2) then len else e.End() - lblk
    ensures ret > hi - lblk <==> Overstates(e, lblk, len, maxZero, zero1, zero2)
    ensures forall x :: IsZeroed(zs, x) <==>
                        e.pblk <= x < e.pblk + e.len && Spare(lo, hi, lblk, len, e.block + (x - e.pblk))
    ensures maxZero == 0 || len == e.End() - lblk ==> lo == lblk && hi == lblk + len && zs == []
    ensures forall i :: 0 <= i < |zs| ==> e.Covers(zs[i].block) && zs[i].pblk == e.At(zs[i].block).pblk
  {
    lo, hi, zs := lblk, lblk + len, [];
    ret := e.len - (lblk - e.block);
    if maxZero != 0 && ret > len {
      if ret <= maxZero {
        if !zero1 {
          return;
        }
        zs := [Zero(lblk + len, ret - len, e.pblk + lblk + len - e.block)];
        hi := lblk + ret;
        ZeroedOne(zs[0]);
      }
      if lblk - e.block + (hi - lo) < maxZero {
        if lblk != e.block {
          if !zero2 {
            return;
          }
          ZeroedMore(zs, Zero(e.block, lblk - e.block, e.pblk));
          zs := zs + [Zero(e.block, lblk - e.block, e.pblk)];
        }
        lo := e.block;
        ret := len;
      }
    }
  }

  /** Zeroing is for an extent that lies inside the file, or inside what the request makes of it. */
  function ZeroLimit(e: Extent, lblk: int, len: int, eof: int, maxZeroout: int): int {
    var end := if eof < lblk + len then lblk + len else eof;
    if e.End() <= end then maxZeroout else 0
  }

  /** Exactly what becomes written and what is returned, without a transfer. Nothing is added to the
      request unless the whole extent lies inside the file. What follows the request is added if it
      is, together with the request, no longer than the limit and can be zeroed; then what precedes
      it, if all of that is shorter than the limit and it can be zeroed, or there is none of it. If
      the first fails, the second is not tried. */
  ghost predicate ConvertedRange(e: Extent, lblk: int, len: int, eof: int, maxZeroout: int, zero1: bool, zero2: bool,
                                 lo: int, hi: int, ret: int) {
    var rest := e.End() - lblk;
    var after := e.End() <= eof && len < rest <= maxZeroout;
    var before := e.End() <= eof && len < rest && !(after && !zero1)
                  && lblk - e.block + (if after then rest else len) < maxZeroout && (lblk == e.block || zero2);
    && hi == (if after && zero1 then e.End() else lblk + len)
    && lo == (if before then e.block else lblk)
    && ret == (if before then len else rest)
  }

  /** The limit the code works with comes to the same. */
  lemma {:induction false} LimitInside(e: Extent, lblk: int, len: int, eof: int, maxZeroout: int, zero1: bool,
                                       zero2: bool)
    requires 0 < len && lblk + len <= e.End()
    ensures var z, lim := ZeroLimit(e, lblk, len, eof, maxZeroout), if e.End() <= eof then maxZeroout else 0;
            && (z == lim || len == e.End() - lblk)
            && Overstates(e, lblk, len, z, zero1, zero2) == Overstates(e, lblk, len, lim, zero1, zero2)
            && JoinsFront(e, lblk, len, z, zero1, zero2) == JoinsFront(e, lblk, len, lim, zero1, zero2)
  {
  }

  ghost predicate AllWritten(es: seq<Extent>, lo: int, hi: int) {
    forall b :: lo <= b < hi ==> Mapped(es, b) && !Lookup(es, b).value.unwritten
  }

  lemma {:induction false} WrittenUpTo(es: seq<Extent>, s: seq<Extent>, k: nat, lo: int, hi: int, lblk: int, ret: int)
    requires Sorted(es) && k < |es| && es[k].unwritten && Converted(es, s, lo, hi)
    requires es[k].block <= lo <= lblk < hi <= es[k].End() && 0 < ret <= es[k].End() - lblk
    ensures AllWritten(s, lblk, lblk + ret) <==> ret <= hi - lblk
  {
    if ret <= hi - lblk {
      forall b | lblk <= b < lblk + ret ensures Mapped(s, b) && !Lookup(s, b).value.unwritten {
        LookupHit(es, k, b);
      }
    } else {
      LookupHit(es, k, hi);
      assert Lookup(s, hi) == Lookup(es, hi);
    }
  }

  /** The request is not handed to a neighbour: zeroing, if any, and the cuts. */
  method ConvertInPlace(inode: Inode, c: Cursor, lblk: int, len: int, eof: int, maxZeroout: int,
                        zero1: bool, zero2: bool, preIo: bool, creditsOk: bool)
    returns (ret: int, zs: seq<Zero>, ghost lo: int, ghost hi: int)
    requires inode.Valid() && Picks(inode, c) && c.leaf.items[c.pos].unwritten && maxZeroout >= 0
    requires c.leaf.items[c.pos].block <= lblk && 0 < len && lblk + len <= c.leaf.items[c.pos].End()
    modifies inode
    ensures inode.Valid() && Converted(old(inode.Extents()), inode.Extents(), lo, hi)
    ensures SameUses(old(inode.Extents()), inode.Extents()) && c.Index() < |old(inode.Extents())|
    ensures ConvertedRange(c.leaf.items[c.pos], lblk, len, eof, maxZeroout, zero1, zero2, lo, hi, ret)
    ensures var s := Replaced(old(inode.Extents()), c.Index(), Middle(c.leaf.items[c.pos], lo, hi));
            Coalesces(s, inode.Extents()) && if preIo then inode.Extents() == s else SettledInLeaf(inode, lo)
    ensures SpareZeroed(old(inode.Extents()), zs, lo, hi, lblk, len)
    ensures OnlySpareZeroed(old(inode.Extents()), zs, lo, hi, lblk, len) && ZeroesNamed(old(inode.Extents()), zs)
    ensures zs != [] ==> c.leaf.items[c.pos].End() <= eof
  {
    var e := c.leaf.items[c.pos];
    AtLeaf(c, c.pos);
    var from, to;
    from, to, ret, zs := ChooseRange(e, lblk, len, ZeroLimit(e, lblk, len, eof, maxZeroout), zero1, zero2);
    LimitInside(e, lblk, len, eof, maxZeroout, zero1, zero2);
    ZeroedInMap(inode.Extents(), c.Index(), zs, from, to, lblk, len);
    NamedInMap(inode.Extents(), c.Index(), zs);
    SplitExtent(inode, c, from, to - from, preIo, creditsOk);
    lo, hi := from, to;
  }

  /** More is returned than becomes written exactly when the code overstates. */
  lemma {:induction false} RangeOverstates(e: Extent, lblk: int, len: int, eof: int, maxZeroout: int, zero1: bool,
                                           zero2: bool, lo: int, hi: int, ret: int)
    requires e.block <= lblk && 0 < len && lblk + len <= e.End()
    requires ConvertedRange(e, lblk, len, eof, maxZeroout, zero1, zero2, lo, hi, ret)
    ensures e.block <= lo <= lblk && lblk + len <= hi <= e.End() && len <= ret <= e.End() - lblk
    ensures ret > hi - lblk <==> Overstates(e, lblk, len, if e.End() <= eof then maxZeroout else 0, zero1, zero2)
  {
  }

  /** ext4_ext_convert_to_initialized. Blocks lo, ..., hi-1 become written: all that was asked
      for, and beyond it only blocks zeroed before. No block moves. Of the blocks from `lblk` on
      it returns the number of, all are written unless it overstates. */
  method ConvertToInitialized(inode: Inode, c: Cursor, lblk: int, len: int, eof: int, maxZeroout: int,
                              zero1: bool, zero2: bool, preIo: bool, creditsOk: bool)
    returns (ret: int, zs: seq<Zero>, ghost lo: int, ghost hi: int)
    requires inode.Valid() && Picks(inode, c) && c.leaf.items[c.pos].unwritten && maxZeroout >= 0
    requires c.leaf.items[c.pos].block <= lblk && 0 < len && lblk + len <= c.leaf.items[c.pos].End()
    modifies inode
    ensures inode.Valid() && Converted(old(inode.Extents()), inode.Extents(), lo, hi)
    ensures SameUses(old(inode.Extents()), inode.Extents())
    ensures c.leaf.items[c.pos].block <= lo <= lblk && lblk + len <= hi <= c.leaf.items[c.pos].End()
    ensures ret >= len && (ret == len || ret == c.leaf.items[c.pos].End() - lblk)
    ensures if Transfers(c.leaf.items, c.pos, lblk, len) then lo == lblk && hi == lblk + len && ret == len && zs == []
            else ConvertedRange(c.leaf.items[c.pos], lblk, len, eof, maxZeroout, zero1, zero2, lo, hi, ret)
    ensures c.Index() < |old(inode.Extents())|
    ensures !Transfers(c.leaf.items, c.pos, lblk, len) ==>
              var s := Replaced(old(inode.Extents()), c.Index(), Middle(c.leaf.items[c.pos], lo, hi));
              Coalesces(s, inode.Extents()) && if preIo then inode.Extents() == s else SettledInLeaf(inode, lo)
    ensures AllWritten(inode.Extents(), lblk, lblk + ret) <==>
            !(!Transfers(c.leaf.items, c.pos, lblk, len)
              && Overstates(c.leaf.items[c.pos], lblk, len,
                            if c.leaf.items[c.pos].End() <= eof then maxZeroout else 0, zero1, zero2))
    ensures zs != [] ==> c.leaf.items[c.pos].End() <= eof
    ensures SpareZeroed(old(inode.Extents()), zs, lo, hi, lblk, len)
    ensures OnlySpareZeroed(old(inode.Extents()), zs, lo, hi, lblk, len) && ZeroesNamed(old(inode.Extents()), zs)
  {
    var e := c.leaf.items[c.pos];
    ghost var es := inode.Extents();
    AtLeaf(c, c.pos);
    lo, hi, zs, ret := lblk, lblk + len, [], len;
    var done := Transfer(inode, c, lblk, len);
    if done {
      WrittenUpTo(es, inode.Extents(), c.Index(), lo, hi, lblk, ret);
      return;
    }
    ret, zs, lo, hi := ConvertInPlace(inode, c, lblk, len, eof, maxZeroout, zero1, zero2, preIo, creditsOk);
    RangeOverstates(e, lblk, len, eof, maxZeroout, zero1, zero2, lo, hi, ret);
    WrittenUpTo(es, inode.Extents(), c.Index(), lo, hi, lblk, ret);
  }
}
