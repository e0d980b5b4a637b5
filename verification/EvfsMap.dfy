/**
 eVFS extent move, one step: `__evfs_extent_map` handles the piece of the request at the
 cursor, which is a hole, a run of mapped blocks inside one extent, or the end of the file.
 */
module EvfsMap {
  import opened Extents
  import opened KeyTree
  import opened ExtentTree
  import opened ExtentMerge
  import opened ExtentSplit

  /** Unsigned 32-bit arithmetic. */
  function Wrap(x: int): int {
    x % U32
  }

  datatype EvfsExt = EvfsExt(logStart: int, phyStart: int, len: int) {
    predicate Ok() {
      0 <= logStart < U32 && 0 <= phyStart && 0 <= len < U32
    }

    /** How often the record names block `x`. */
    function Names(x: int): nat {
      InRun(phyStart, len, x)
    }
  }

  const Nothing := EvfsExt(0, 0, 0)

  /** What one step found at the cursor. */
  datatype Step = Eof | Hole(next: int) | Piece

  ghost predicate NoneBefore(es: seq<Extent>, b: int) {
    forall x :: x < b ==> !Mapped(es, x)
  }

  ghost predicate NoneFrom(es: seq<Extent>, b: int) {
    forall x :: b <= x ==> !Mapped(es, x)
  }

  /** The cursor is not in the middle of a hole that follows some extent. */
  ghost predicate AtEdge(es: seq<Extent>, b: int) {
    Mapped(es, b) || NoneBefore(es, b) || Mapped(es, b - 1)
  }

  ghost predicate StartsAt(es: seq<Extent>, b: int) {
    exists i :: 0 <= i < |es| && es[i].block == b
  }

  ghost predicate EndsAt(es: seq<Extent>, b: int) {
    exists i :: 0 <= i < |es| && es[i].End() == b
  }

  /** Blocks c, ..., c+n-1 are mapped in one run starting at physical block p. */
  ghost predicate MappedRun(es: seq<Extent>, c: int, n: int, p: int, u: bool) {
    forall b :: c <= b < c + n ==> Lookup(es, b) == Some(Mapping(p + (b - c), u))
  }

  /** `after` is `before` with blocks c, ..., c+n-1 moved to the run starting at p. */
  ghost predicate MovedRun(before: seq<Extent>, after: seq<Extent>, c: int, n: int, p: int) {
    forall b :: Lookup(after, b) ==
                if c <= b < c + n && Mapped(before, b)
                then Some(Lookup(before, b).value.(pblk := p + (b - c)))
                else Lookup(before, b)
  }

  /** The blocks of `rec` went out of the file, those of the run at `p` came in. */
  ghost predicate Exchanged(before: seq<Extent>, after: seq<Extent>, rec: EvfsExt, p: int) {
    forall x :: Uses(after, x) + rec.Names(x) == Uses(before, x) + InRun(p, rec.len, x)
  }

  // ----------------------------------------------------------- flat facts

  /** Redirecting the extent at `k` to the run at `p` moves exactly its blocks. */
  lemma {:induction false} StoreMoves(es: seq<Extent>, k: nat, p: int)
    requires Sorted(es) && k < |es| && 0 <= p
    ensures var e := es[k];
            var s := es[k := e.(pblk := p)];
            && MovedRun(es, s, e.block, e.len, p)
            && Exchanged(es, s, EvfsExt(e.block, e.pblk, e.len), p)
  {
    var e := es[k];
    var f := e.(pblk := p);
    var s := es[k := f];
    assert ValidAt(es, k);
    StoreAt(es, k, f);
    forall b ensures Lookup(s, b) == if e.block <= b < e.block + e.len && Mapped(es, b)
                                     then Some(Lookup(es, b).value.(pblk := p + (b - e.block)))
                                     else Lookup(es, b)
    {
      if e.Covers(b) {
        LookupHit(es, k, b);
      }
    }
  }

  /** The cursor is before the first extent. */
  lemma {:induction false} HoleBefore(es: seq<Extent>, c: int)
    requires Sorted(es) && es != [] && c < es[0].block
    ensures Mapped(es, es[0].block) && NoneBefore(es, c)
    ensures forall b :: c <= b < es[0].block ==> !Mapped(es, b)
  {
    SortedAll(es);
    LookupHit(es, 0, es[0].block);
    forall b | b < es[0].block ensures !Mapped(es, b) {
      LookupMiss(es, b);
    }
  }

  /** The cursor is past the extent found: what follows is a hole up to the next extent. */
  lemma {:induction false} HoleAfter(es: seq<Extent>, i: int, c: int)
    requires Sorted(es) && Nearest(es, i, c) && es[i].End() <= c
    ensures !Mapped(es, c) && !NoneBefore(es, c)
    ensures Mapped(es, c - 1) <==> es[i].End() == c
    ensures i + 1 == |es| ==> NoneFrom(es, c)
    ensures i + 1 < |es| ==> es[i + 1].block < EXT_MAX_BLOCKS
    ensures i + 1 < |es| ==> Mapped(es, es[i + 1].block) && forall b :: c <= b < es[i + 1].block ==> !Mapped(es, b)
  {
    SortedAll(es);
    LookupHit(es, i, es[i].End() - 1);
    assert Mapped(es, es[i].End() - 1);
    LookupNearest(es, i, c - 1);
    forall b | c <= b && (i + 1 < |es| ==> b < es[i + 1].block) ensures !Mapped(es, b) {
      LookupNearest(es, i, b);
    }
    if i + 1 < |es| {
      LookupHit(es, i + 1, es[i + 1].block);
    }
  }

  lemma {:induction false} CoverRun(es: seq<Extent>, k: nat)
    requires Sorted(es) && k < |es|
    ensures MappedRun(es, es[k].block, es[k].len, es[k].pblk, es[k].unwritten)
  {
    forall b | es[k].block <= b < es[k].block + es[k].len
      ensures Lookup(es, b) == Some(Mapping(es[k].pblk + (b - es[k].block), es[k].unwritten))
    {
      LookupHit(es, k, b);
    }
  }

  /** Blocks from, ..., to-1 are the whole hole between two mapped blocks. */
  ghost predicate Gap(es: seq<Extent>, from: int, to: int) {
    Mapped(es, from - 1) && Mapped(es, to) && forall b :: from <= b < to ==> !Mapped(es, b)
  }

  lemma {:induction false} GapAfter(es: seq<Extent>, i: nat)
    requires Sorted(es) && i + 1 < |es|
    ensures Gap(es, es[i].End(), es[i + 1].block)
  {
    SortedAll(es);
    LookupHit(es, i, es[i].End() - 1);
    LookupHit(es, i + 1, es[i + 1].block);
    forall b | es[i].End() <= b < es[i + 1].block ensures !Mapped(es, b) {
      LookupNearest(es, i, b);
    }
  }

  // ------------------------------------------------------- where extents end

  lemma {:induction false} EndsConcat(a: seq<Extent>, b: seq<Extent>, x: int)
    ensures EndsAt(a + b, x) <==> EndsAt(a, x) || EndsAt(b, x)
  {
    var s := a + b;
    if EndsAt(a, x) {
      var i :| 0 <= i < |a| && a[i].End() == x;
      assert s[i] == a[i];
    }
    if EndsAt(b, x) {
      var i :| 0 <= i < |b| && b[i].End() == x;
      assert s[|a| + i] == b[i];
    }
  }

  lemma {:induction false} EndsBetween(pre: seq<Extent>, a: seq<Extent>, post: seq<Extent>, x: int)
    ensures EndsAt(pre + a + post, x) <==> EndsAt(pre, x) || EndsAt(a, x) || EndsAt(post, x)
  {
    EndsConcat(pre + a, post, x);
    EndsConcat(pre, a, x);
  }

  /** Merging makes no new end. */
  lemma {:induction false} MergedEnds(items: seq<Extent>, j: nat, r: seq<Extent>, x: int)
    requires MergedFrom(items, j, r) && EndsAt(r, x)
    ensures EndsAt(items, x)
  {
    var m := |items| - |r|;
    var i :| 0 <= i < |r| && r[i].End() == x;
    if i < j {
      assert items[i] == items[..j][i] == r[..j][i];
    } else if i == j {
      assert items[j + m].End() == x;
    } else {
      assert items[i + m] == items[j + 1 + m..][i - j - 1] == r[j + 1..][i - j - 1];
    }
  }

  /** An end that merging has taken away lies inside the extent grown. */
  lemma {:induction false} LostEnd(items: seq<Extent>, j: nat, r: seq<Extent>, x: int)
    requires Sorted(items) && MergedFrom(items, j, r) && EndsAt(items, x)
    ensures EndsAt(r, x) || items[j].End() <= x < r[j].End()
  {
    var m := |items| - |r|;
    var i :| 0 <= i < |items| && items[i].End() == x;
    SortedAll(items);
    if i < j {
      assert r[i] == r[..j][i] == items[..j][i];
    } else if i > j + m {
      assert r[i - m] == r[j + 1..][i - m - j - 1] == items[j + 1 + m..][i - m - j - 1];
    } else if i == j + m {
      assert r[j].End() == x;
    }
  }

  /** The block behind `f` continues its run. */
  ghost predicate Continued(es: seq<Extent>, f: Extent) {
    Lookup(es, f.End()) == Some(f.At(f.End()))
  }

  /** After merging around the extent at `i`, ends behind it are gone only if what follows it
      continues its run. */
  lemma {:induction false} EndsStay(pre: seq<Extent>, items: seq<Extent>, i: nat, r: seq<Extent>, post: seq<Extent>,
                                    x: int)
    requires i < |items| && MergedAround(items, i, r) && Sorted(items)
    requires Sorted(pre + r + post) && SameMap(pre + items + post, pre + r + post)
    ensures EndsAt(pre + r + post, x) ==> EndsAt(pre + items + post, x)
    ensures x > items[i].End() && !Continued(pre + items + post, items[i]) && EndsAt(pre + items + post, x) ==>
              EndsAt(pre + r + post, x)
  {
    var j := if i > 0 && CanMerge(items[i - 1], items[i]) then i - 1 else i;
    EndsBetween(pre, items, post, x);
    EndsBetween(pre, r, post, x);
    if EndsAt(r, x) {
      MergedEnds(items, j, r, x);
    } else if EndsAt(items, x) && x > items[i].End() {
      LostEnd(items, j, r, x);
      GrownOver(pre, items, i, j, r, post);
    }
  }

  /** An extent that has grown beyond the one at `i` has taken in what continues it. */
  lemma {:induction false} GrownOver(pre: seq<Extent>, items: seq<Extent>, i: nat, j: nat, r: seq<Extent>,
                                     post: seq<Extent>)
    requires i < |items| && Sorted(items) && MergedFrom(items, j, r)
    requires j == i || (j == i - 1 && CanMerge(items[j], items[i]))
    requires Sorted(pre + r + post) && SameMap(pre + items + post, pre + r + post) && r[j].End() > items[i].End()
    ensures Continued(pre + items + post, items[i])
  {
    assert ValidAt(items, i) && ValidAt(items, j);
    assert (pre + r + post)[|pre| + j] == r[j];
    LookupHit(pre + r + post, |pre| + j, items[i].End());
  }

  // ------------------------------------------------------------- the step

  /** Of the n blocks at `c`, the first m are taken: all of them, or up to the first end of an
      extent. */
  ghost predicate TakesAll(es: seq<Extent>, c: int, n: int, m: int) {
    && (m == n || EndsAt(es, c + m))
    && (forall b :: c < b < c + m ==> !EndsAt(es, b))
  }

  /** Behind block `c` extents still end where they did, except that there may be a cut at `end`,
      and that what is behind `c` may have been merged if it continues the run up to `p`. */
  ghost predicate EndsKept(es: seq<Extent>, after: seq<Extent>, c: int, end: int, p: int) {
    && (forall b :: b > c && b != end && EndsAt(after, b) ==> EndsAt(es, b))
    && (!(Mapped(es, c) && Lookup(es, c).value.pblk == p) ==>
          forall b :: b > c && EndsAt(es, b) ==> EndsAt(after, b))
  }

  /** The contract of a step, on the extents before and after it. */
  ghost predicate StepOk(es: seq<Extent>, after: seq<Extent>, curr: EvfsExt, rec: EvfsExt, next: EvfsExt, step: Step) {
    match step
    case Eof => after == es && rec == curr && next == Nothing && AtEof(es, curr.logStart, curr.len)
    case Hole(nb) => after == es && HoleStep(es, curr, rec, next, nb)
    case Piece => PieceStep(es, after, curr, rec, next)
  }

  /** Nothing follows, or the request goes beyond the last block number. */
  ghost predicate AtEof(es: seq<Extent>, c: int, n: int) {
    NoneFrom(es, c) || (Mapped(es, c) && c + n >= U32)
  }

  /** The hole at the cursor ends at block `nb`. */
  ghost predicate HoleStep(es: seq<Extent>, curr: EvfsExt, rec: EvfsExt, next: EvfsExt, nb: int) {
    var c, n := curr.logStart, curr.len;
    && rec == curr.(len := rec.len) && 0 < rec.len < U32
    && next == EvfsExt(Wrap(c + rec.len), curr.phyStart + rec.len, Wrap(n - rec.len))
    && c < nb < U32 && Mapped(es, nb) && (forall b :: c <= b < nb ==> !Mapped(es, b))
    && (if AtEdge(es, c) then rec.len == nb - c else nb - c < rec.len)
    && (NoneBefore(es, c) || Gap(es, nb - rec.len, nb))
  }

  /** The piece at the cursor, up to the end of the request or of the extent there, has moved. */
  ghost predicate PieceStep(es: seq<Extent>, after: seq<Extent>, curr: EvfsExt, rec: EvfsExt, next: EvfsExt) {
    var c, n := curr.logStart, curr.len;
    && c + n < U32 && 0 < rec.len <= n && rec.logStart == c
    && (exists u :: MappedRun(es, c, rec.len, rec.phyStart, u))
    && next == (if rec.len < n then EvfsExt(c + rec.len, curr.phyStart + rec.len, n - rec.len) else Nothing)
    && TakesAll(es, c, n, rec.len)
    && MovedRun(es, after, c, rec.len, curr.phyStart)
    && Exchanged(es, after, rec, curr.phyStart)
    && EndsKept(es, after, c + rec.len, c + n, curr.phyStart + rec.len)
  }

  /** `cur` is `es` with cuts, if any, at blocks b and d. */
  ghost predicate CutAt(es: seq<Extent>, cur: seq<Extent>, b: int, d: int) {
    && (forall x :: EndsAt(es, x) ==> EndsAt(cur, x))
    && (forall x :: EndsAt(cur, x) && x != b && x != d ==> EndsAt(es, x))
  }

  /** The piece is the extent at `k`, cut out of `es` at its ends where need be. */
  lemma {:induction false} PieceEnds(es: seq<Extent>, cur: seq<Extent>, k: nat, c: int, n: int)
    requires Sorted(cur) && k < |cur| && CutAt(es, cur, c, c + n) && cur[k].block == c && cur[k].len <= n
    ensures TakesAll(es, c, n, cur[k].len)
  {
    SortedAll(cur);
    assert EndsAt(cur, cur[k].End());
    forall b | c < b < cur[k].End() ensures !EndsAt(es, b) {
      NotEnding(cur, k, b);
    }
  }

  /** What the redirected extent, once merged, has done to the ends behind it. */
  lemma {:induction false} PieceEndsKept(es: seq<Extent>, cur: seq<Extent>, k: nat, c: int, n: int, p: int,
                                         after: seq<Extent>)
    requires k < |cur| && Same(es, cur) && Sorted(cur) && cur[k].block == c && cur[k].len <= n
    requires CutAt(es, cur, c, c + n)
    requires forall x :: EndsAt(after, x) ==> EndsAt(cur, x)
    requires var f := cur[k].(pblk := p);
             !Continued(cur[k := f], f) ==> forall x :: x > f.End() && EndsAt(cur, x) ==> EndsAt(after, x)
    ensures EndsKept(es, after, c + cur[k].len, c + n, p + cur[k].len)
  {
    var f, end := cur[k].(pblk := p), c + cur[k].len;
    assert ValidAt(cur, k);
    if !(Mapped(es, end) && Lookup(es, end).value.pblk == p + cur[k].len) {
      StoreElsewhere(cur[..k], cur[k], f, cur[k + 1..], end);
      assert cur == cur[..k] + [cur[k]] + cur[k + 1..] && cur[k := f] == cur[..k] + [f] + cur[k + 1..];
      assert !Continued(cur[k := f], f);
    }
  }

  lemma {:induction false} HoleBeforeOk(es: seq<Extent>, curr: EvfsExt, rec: EvfsExt, next: EvfsExt)
    requires Sorted(es) && es != [] && curr.Ok() && curr.logStart < es[0].block
    requires var jump := es[0].block - curr.logStart;
             && rec == curr.(len := jump)
             && next == EvfsExt(Wrap(curr.logStart + jump), curr.phyStart + jump, Wrap(curr.len - jump))
    ensures StepOk(es, es, curr, rec, next, Hole(es[0].block))
  {
    assert ValidAt(es, 0);
    HoleBefore(es, curr.logStart);
  }

  lemma {:induction false} HoleAfterOk(es: seq<Extent>, i: int, curr: EvfsExt, rec: EvfsExt, next: EvfsExt)
    requires Sorted(es) && curr.Ok() && Nearest(es, i, curr.logStart) && es[i].End() <= curr.logStart && i + 1 < |es|
    requires var jump := es[i + 1].block - es[i].End();
             && rec == curr.(len := jump)
             && next == EvfsExt(Wrap(curr.logStart + jump), curr.phyStart + jump, Wrap(curr.len - jump))
    ensures StepOk(es, es, curr, rec, next, Hole(es[i + 1].block))
  {
    assert ValidAt(es, i) && ValidAt(es, i + 1);
    HoleAfter(es, i, curr.logStart);
    GapAfter(es, i);
  }

  lemma {:induction false} MovedThrough(es: seq<Extent>, cur: seq<Extent>, s: seq<Extent>, after: seq<Extent>, c: int,
                                        n: int, p: int)
    requires SameMap(es, cur) && MovedRun(cur, s, c, n, p) && SameMap(s, after)
    ensures MovedRun(es, after, c, n, p)
  {
  }

  lemma {:induction false} PieceOk(es: seq<Extent>, cur: seq<Extent>, k: nat, after: seq<Extent>, curr: EvfsExt,
                                   rec: EvfsExt, next: EvfsExt)
    requires Sorted(cur) && Same(es, cur) && k < |cur| && curr.Ok()
    requires Coalesces(cur[k := cur[k].(pblk := curr.phyStart)], after)
    requires TakesAll(es, curr.logStart, curr.len, cur[k].len)
    requires EndsKept(es, after, cur[k].End(), curr.logStart + curr.len, curr.phyStart + cur[k].len)
    requires cur[k].block == curr.logStart && 0 < cur[k].len <= curr.len && curr.logStart + curr.len < U32
    requires rec == EvfsExt(curr.logStart, cur[k].pblk, cur[k].len)
    requires next == if cur[k].len < curr.len
                     then EvfsExt(cur[k].End(), curr.phyStart + cur[k].len, curr.len - cur[k].len) else Nothing
    ensures StepOk(es, after, curr, rec, next, Piece)
  {
    var c, n, p := curr.logStart, rec.len, curr.phyStart;
    var s := cur[k := cur[k].(pblk := p)];
    assert MovedRun(es, after, c, n, p) && Exchanged(es, after, rec, p) by {
      StoreMoves(cur, k, p);
      MovedThrough(es, cur, s, after, c, n, p);
    }
    assert MappedRun(es, c, n, rec.phyStart, cur[k].unwritten) by {
      CoverRun(cur, k);
    }
  }

  lemma {:induction false} CutKeepsBounds(es: seq<Extent>, k: nat, b: int, x: int)
    requires k < |es|
    ensures var s := Replaced(es, k, [es[k].Head(b), es[k].Tail(b)]);
            (StartsAt(es, x) ==> StartsAt(s, x)) && (EndsAt(es, x) ==> EndsAt(s, x))
            && (EndsAt(s, x) ==> EndsAt(es, x) || x == b)
  {
    var s := Replaced(es, k, [es[k].Head(b), es[k].Tail(b)]);
    if StartsAt(es, x) {
      var i :| 0 <= i < |es| && es[i].block == x;
      var j := if i <= k then i else i + 1;
      assert s[j].block == x;
    }
    if EndsAt(es, x) {
      var i :| 0 <= i < |es| && es[i].End() == x;
      var j := if i < k then i else i + 1;
      assert s[j].End() == x;
    }
    if EndsAt(s, x) && x != b {
      var j :| 0 <= j < |s| && s[j].End() == x;
      var i := if j < k then j else j - 1;
      assert es[i].End() == x;
    }
  }

  lemma {:induction false} CutOnlyThere(es: seq<Extent>, k: nat, b: int)
    requires k < |es|
    ensures CutAt(es, Replaced(es, k, [es[k].Head(b), es[k].Tail(b)]), b, b)
  {
    var s := Replaced(es, k, [es[k].Head(b), es[k].Tail(b)]);
    forall x ensures (EndsAt(es, x) ==> EndsAt(s, x)) && (EndsAt(s, x) && x != b ==> EndsAt(es, x)) {
      CutKeepsBounds(es, k, b, x);
    }
  }

  /** How many of the two ends of the piece are not yet extent boundaries. */
  ghost function Unaligned(es: seq<Extent>, c: int, end: int): nat {
    (if StartsAt(es, c) then 0 else 1) + (if EndsAt(es, end) then 0 else 1)
  }

  /** Cuts the extent the cursor picks at block `b`, inside it. */
  method Cut(inode: Inode, c: Cursor, b: int, ghost x: int)
    requires inode.Valid() && c.Ok() && c.pos >= 0 && |c.path| == inode.depth && inode.root == Fill(c.path, c.leaf)
    requires c.leaf.items[c.pos].block < b < c.leaf.items[c.pos].End()
    modifies inode
    ensures inode.Valid() && Same(old(inode.Extents()), inode.Extents())
    ensures StartsAt(inode.Extents(), b) && EndsAt(inode.Extents(), b)
    ensures old(StartsAt(inode.Extents(), x)) ==> StartsAt(inode.Extents(), x)
    ensures CutAt(old(inode.Extents()), inode.Extents(), b, b)
  {
    ghost var es, k := inode.Extents(), c.Index();
    AtLeaf(c, c.pos);
    SplitKeeps(es, k, b);
    CutKeepsBounds(es, k, b, x);
    CutOnlyThere(es, k, b);
    ForceSplitExtentAt(inode, c, b);
    ghost var s := inode.Extents();
    assert s[k + 1].block == b && s[k].End() == b;
  }

  /** Points the extent picked at the run at `p` and merges it. */
  method Redirect(inode: Inode, c: Cursor, p: int, creditsOk: bool)
    requires inode.Valid() && 0 <= p
    requires c.Ok() && c.pos >= 0 && |c.path| == inode.depth && inode.root == Fill(c.path, c.leaf)
    modifies inode
    ensures inode.Valid() && c.Index() < |old(inode.Extents())|
    ensures old(inode.Extents())[c.Index()] == c.leaf.items[c.pos]
    ensures Coalesces(old(inode.Extents())[c.Index() := c.leaf.items[c.pos].(pblk := p)], inode.Extents())
    ensures forall x :: EndsAt(inode.Extents(), x) ==> EndsAt(old(inode.Extents()), x)
    ensures var f := c.leaf.items[c.pos].(pblk := p);
            !Continued(old(inode.Extents())[c.Index() := f], f) ==>
              forall x :: x > f.End() && EndsAt(old(inode.Extents()), x) ==> EndsAt(inode.Extents(), x)
  {
    ghost var es, k := inode.Extents(), c.Index();
    var f := c.leaf.items[c.pos].(pblk := p);
    AtLeaf(c, c.pos);
    FlatFill(c.path, c.leaf);
    assert ValidAt(es, k);
    StoreAt(es, k, f);
    var items := Rewrite(inode, c, f, creditsOk);
    RedirectEnds(Pre(c.path), c.leaf.items, c.pos, f, items, Post(c.path), es, k, inode.Extents());
  }

  lemma {:induction false} RedirectEnds(pre: seq<Extent>, items: seq<Extent>, i: nat, f: Extent, r: seq<Extent>,
                                        post: seq<Extent>, es: seq<Extent>, k: nat, after: seq<Extent>)
    requires i < |items| && es == pre + items + post && k == |pre| + i && Sorted(es[k := f])
    requires f == items[i].(pblk := f.pblk) && MergedAround(items[i := f], i, r) && after == pre + r + post
    requires Coalesces(es[k := f], after)
    ensures forall x :: EndsAt(after, x) ==> EndsAt(es, x)
    ensures !Continued(es[k := f], f) ==> forall x :: x > f.End() && EndsAt(es, x) ==> EndsAt(after, x)
  {
    var items1 := items[i := f];
    UpdateInMiddle(pre, items, post, f, i);
    assert es[k := f] == pre + items1 + post;
    SortedParts(pre + items1, post);
    SortedParts(pre, items1);
    forall x
      ensures EndsAt(after, x) ==> EndsAt(es, x)
      ensures !Continued(es[k := f], f) && x > f.End() && EndsAt(es, x) ==> EndsAt(after, x)
    {
      EndsStay(pre, items1, i, r, post, x);
      SameEnds(es, k, f, x);
    }
  }

  lemma {:induction false} SameEnds(es: seq<Extent>, k: nat, f: Extent, x: int)
    requires k < |es| && f.block == es[k].block && f.len == es[k].len
    ensures EndsAt(es[k := f], x) <==> EndsAt(es, x)
  {
    var s := es[k := f];
    if EndsAt(es, x) {
      var i :| 0 <= i < |es| && es[i].End() == x;
      assert s[i].End() == x;
    }
    if EndsAt(s, x) {
      var i :| 0 <= i < |s| && s[i].End() == x;
      assert es[i].End() == x;
    }
  }

  /** The tree has been cut at the ends of the piece, if at all, and nothing has moved yet. */
  ghost predicate Preparing(es: seq<Extent>, cur: seq<Extent>, curr: EvfsExt) {
    var c, n := curr.logStart, curr.len;
    && Same(es, cur) && CutAt(es, cur, c, c + n)
    && (cur == es || (Mapped(es, c) && c + n < U32))
  }

  /** The extent picked is the piece at the cursor: redirect it. */
  method MovePiece(inode: Inode, curr: EvfsExt, c: Cursor, len: int, creditsOk: bool, ghost es: seq<Extent>)
    returns (rec: EvfsExt, next: EvfsExt)
    requires inode.Valid() && curr.Ok() && curr.logStart + curr.len < U32 && Preparing(es, inode.Extents(), curr)
    requires c.Ok() && c.pos >= 0 && |c.path| == inode.depth && inode.root == Fill(c.path, c.leaf)
    requires c.leaf.items[c.pos].Valid() && c.leaf.items[c.pos].block == curr.logStart
    requires c.leaf.items[c.pos].len == len <= curr.len
    modifies inode
    ensures inode.Valid() && rec.Ok() && next.Ok()
    ensures StepOk(es, inode.Extents(), curr, rec, next, Piece)
  {
    var e := c.leaf.items[c.pos];
    ghost var cur := inode.Extents();
    Redirect(inode, c, curr.phyStart, creditsOk);
    PieceEnds(es, cur, c.Index(), curr.logStart, curr.len);
    PieceEndsKept(es, cur, c.Index(), curr.logStart, curr.len, curr.phyStart, inode.Extents());
    next := Nothing;
    if curr.logStart + curr.len > e.End() {
      next := EvfsExt(e.End(), curr.phyStart + e.len, curr.logStart + curr.len - e.End());
    }
    rec := EvfsExt(curr.logStart, e.pblk, len);
    PieceOk(es, cur, c.Index(), inode.Extents(), curr, rec, next);
  }

  /** The cursor is inside the extent picked: cut it where it sticks out of the piece, or
      redirect it when it does not. */
  method MapInside(inode: Inode, curr: EvfsExt, c: Cursor, creditsOk: bool, ghost es: seq<Extent>)
    returns (done: bool, rec: EvfsExt, next: EvfsExt)
    requires inode.Valid() && curr.Ok() && 0 < curr.len && curr.logStart + curr.len < U32
    requires Preparing(es, inode.Extents(), curr) && Mapped(es, curr.logStart)
    requires c.Ok() && c.pos >= 0 && |c.path| == inode.depth && inode.root == Fill(c.path, c.leaf)
    requires Nearest(inode.Extents(), c.Index(), curr.logStart) && c.leaf.items[c.pos].Covers(curr.logStart)
    requires inode.Extents()[c.Index()] == c.leaf.items[c.pos] && c.leaf.items[c.pos].Valid()
    modifies inode
    ensures inode.Valid() && rec.Ok() && next.Ok()
    ensures done ==> StepOk(es, inode.Extents(), curr, rec, next, Piece)
    ensures !done ==> Preparing(es, inode.Extents(), curr)
                      && Unaligned(inode.Extents(), curr.logStart, curr.logStart + curr.len)
                         < old(Unaligned(inode.Extents(), curr.logStart, curr.logStart + curr.len))
  {
    var lblk, len, e := curr.logStart, curr.len, c.leaf.items[c.pos];
    ghost var cur := inode.Extents();
    done, rec, next := false, curr, Nothing;
    if e.block < lblk {
      NotStarting(cur, c.Index(), lblk);
      Cut(inode, c, lblk, lblk);
      StillPreparing(es, cur, inode.Extents(), curr, lblk);
      return;
    }
    if e.End() < lblk + len {
      len := e.End() - lblk;
    }
    if e.End() > lblk + len {
      NotEnding(cur, c.Index(), lblk + len);
      Cut(inode, c, lblk + len, lblk);
      StillPreparing(es, cur, inode.Extents(), curr, lblk + len);
      return;
    }
    rec, next := MovePiece(inode, curr, c, len, creditsOk, es);
    done := true;
  }

  lemma {:induction false} StillPreparing(es: seq<Extent>, cur: seq<Extent>, cur': seq<Extent>, curr: EvfsExt, b: int)
    requires Preparing(es, cur, curr) && Same(cur, cur') && CutAt(cur, cur', b, b)
    requires b == curr.logStart || b == curr.logStart + curr.len
    requires Mapped(es, curr.logStart) && curr.logStart + curr.len < U32
    ensures Preparing(es, cur', curr)
  {
  }

  lemma {:induction false} NotStarting(es: seq<Extent>, i: int, b: int)
    requires Sorted(es) && Nearest(es, i, b) && es[i].block < b
    ensures !StartsAt(es, b)
  {
    if StartsAt(es, b) {
      var k :| 0 <= k < |es| && es[k].block == b;
      NearestOfStart(es, i, k);
    }
  }

  lemma {:induction false} NotEnding(es: seq<Extent>, k: nat, b: int)
    requires Sorted(es) && k < |es| && es[k].block < b < es[k].End()
    ensures !EndsAt(es, b)
  {
    SortedAll(es);
  }

  /** The cursor is in a hole: jump to the extent that ends it, if there is one. */
  method MapHole(inode: Inode, curr: EvfsExt, c: Cursor) returns (rec: EvfsExt, next: EvfsExt, ghost step: Step)
    requires inode.Valid() && curr.Ok() && 0 < curr.len
    requires c.Ok() && c.pos >= 0 && |c.path| == inode.depth && inode.root == Fill(c.path, c.leaf)
    requires Nearest(inode.Extents(), c.Index(), curr.logStart) && !c.leaf.items[c.pos].Covers(curr.logStart)
    requires inode.Extents()[c.Index()] == c.leaf.items[c.pos] && c.leaf.items[c.pos].Valid()
    ensures rec.Ok() && next.Ok() && !Mapped(inode.Extents(), curr.logStart)
    ensures StepOk(inode.Extents(), inode.Extents(), curr, rec, next, step)
  {
    ghost var es := inode.Extents();
    var lblk, e := curr.logStart, c.leaf.items[c.pos];
    var jump: int;
    if lblk < e.block {
      HoleBefore(es, lblk);
      jump := e.block - lblk;
      step := Hole(e.block);
    } else {
      HoleAfter(es, c.Index(), lblk);
      var nb := NextAllocatedBlock(inode.g, inode.root, inode.depth, c);
      if nb >= EXT_MAX_BLOCKS {
        rec, next, step := curr, Nothing, Eof;
        return;
      }
      jump := nb - e.End();
      step := Hole(nb);
    }
    next := EvfsExt(Wrap(curr.logStart + jump), curr.phyStart + jump, Wrap(curr.len - jump));
    rec := curr.(len := jump);
    if lblk < e.block {
      HoleBeforeOk(es, curr, rec, next);
    } else {
      HoleAfterOk(es, c.Index(), curr, rec, next);
    }
  }

  /** One look at the cursor: a hole, the end of the file, a cut, or the piece itself. */
  method MapOnce(inode: Inode, curr: EvfsExt, creditsOk: bool, ghost es: seq<Extent>)
    returns (done: bool, rec: EvfsExt, next: EvfsExt, ghost step: Step)
    requires inode.Valid() && curr.Ok() && 0 < curr.len && Preparing(es, inode.Extents(), curr)
    modifies inode
    ensures inode.Valid() && rec.Ok() && next.Ok()
    ensures done ==> StepOk(es, inode.Extents(), curr, rec, next, step)
    ensures !done ==> Preparing(es, inode.Extents(), curr)
                      && Unaligned(inode.Extents(), curr.logStart, curr.logStart + curr.len)
                         < old(Unaligned(inode.Extents(), curr.logStart, curr.logStart + curr.len))
  {
    var c := Search(inode, curr.logStart);
    done, rec, next, step := true, curr, Nothing, Eof;
    if c.pos == -1 {
      assert !Mapped(inode.Extents(), curr.logStart);
    } else if !c.leaf.items[c.pos].Covers(curr.logStart) {
      rec, next, step := MapHole(inode, curr, c);
    } else {
      LookupNearest(inode.Extents(), c.Index(), curr.logStart);
      if Wrap(curr.logStart + curr.len) > curr.logStart {
        done, rec, next := MapInside(inode, curr, c, creditsOk, es);
        step := Piece;
      }
    }
  }

  /** Both ends of the piece at the cursor coincide with extent boundaries after at most
      two cuts; then its extent is redirected and merged with its neighbours. */
  method ExtentMap(inode: Inode, curr: EvfsExt, creditsOk: bool)
    returns (rec: EvfsExt, next: EvfsExt, ghost step: Step, ghost splits: nat)
    requires inode.Valid() && curr.Ok() && curr.len > 0
    modifies inode
    ensures inode.Valid() && rec.Ok() && next.Ok() && splits <= 2
    ensures StepOk(old(inode.Extents()), inode.Extents(), curr, rec, next, step)
  {
    ghost var es, lblk, end := inode.Extents(), curr.logStart, curr.logStart + curr.len;
    rec, next, step, splits := curr, Nothing, Eof, 0;
    var done := false;
    while !done
      invariant inode.Valid() && rec.Ok() && next.Ok() && splits <= 2
      invariant done ==> StepOk(es, inode.Extents(), curr, rec, next, step)
      invariant !done ==> Preparing(es, inode.Extents(), curr)
                          && splits + Unaligned(inode.Extents(), lblk, end) <= 2
      decreases !done, Unaligned(inode.Extents(), lblk, end)
    {
      done, rec, next, step := MapOnce(inode, curr, creditsOk, es);
      splits := if done then splits else splits + 1;
    }
  }
}
