/**
 eVFS extent move: the whole request. Steps are taken until the cursor has gone through the
 requested range; each reports one record.
 */
module EvfsMove {
  import opened Extents
  import opened ExtentTree
  import opened EvfsMap

  const EAGAIN: int := 11

  // -------------------------------------------------------------- records

  /** The records cover blocks log, ..., log+n-1 in order, without gap or overlap. */
  predicate Tiles(recs: seq<EvfsExt>, log: int, n: int) {
    if recs == [] then n == 0 else
      var r := recs[|recs| - 1];
      r.len > 0 && r.logStart == log + n - r.len && Tiles(recs[..|recs| - 1], log, n - r.len)
  }

  /** How often the records name block `x`. */
  function Named(recs: seq<EvfsExt>, x: int): nat {
    if recs == [] then 0 else Named(recs[..|recs| - 1], x) + recs[|recs| - 1].Names(x)
  }

  /** A record names either the old blocks of a mapped run or, for a hole, the part of the
      new run that found no use. */
  ghost predicate RecordOk(es: seq<Extent>, r: EvfsExt, log: int, phy: int) {
    || (exists u :: MappedRun(es, r.logStart, r.len, r.phyStart, u))
    || ((forall b :: r.logStart <= b < r.logStart + r.len ==> !Mapped(es, b))
        && r.phyStart == phy + (r.logStart - log))
  }

  ghost predicate AllRecordsOk(es: seq<Extent>, recs: seq<EvfsExt>, log: int, phy: int) {
    forall k :: 0 <= k < |recs| ==> RecordOk(es, recs[k], log, phy)
  }

  lemma {:induction false} TilesBound(recs: seq<EvfsExt>, log: int, n: int, k: nat)
    requires Tiles(recs, log, n) && k < |recs|
    ensures log <= recs[k].logStart && recs[k].logStart + recs[k].len <= log + n && |recs| <= n
  {
    var last := |recs| - 1;
    if last > 0 {
      TilesBound(recs[..last], log, n - recs[last].len, if k < last then k else 0);
    }
  }

  // ---------------------------------------------------- the exact condition

  /** The requests the algorithm carries out correctly. Either there is nothing to move,
      or the range starts at an extent, right after one or before all of them, and ends in
      an extent, right before one or after all of them. */
  ghost predicate Good(es: seq<Extent>, log: int, len: int) {
    || len == 0
    || NoneFrom(es, log)
    || (&& log + len < U32
        && AtEdge(es, log)
        && (Mapped(es, log + len - 1) || Mapped(es, log + len) || NoneFrom(es, log + len)))
  }

  /** What the request promises, once its first n blocks are dealt with. */
  ghost predicate Done(es0: seq<Extent>, es: seq<Extent>, recs: seq<EvfsExt>, log: int, phy: int, n: int) {
    && Tiles(recs, log, n)
    && AllRecordsOk(es0, recs, log, phy)
    && MovedRun(es0, es, log, n, phy)
    && Conserved(es0, es, recs, phy, n)
  }

  /** Blocks owned plus blocks reported are the blocks owned before plus the new ones,
      each counted as often as it occurs. */
  ghost predicate Conserved(es0: seq<Extent>, es: seq<Extent>, recs: seq<EvfsExt>, phy: int, n: int) {
    forall x :: Uses(es, x) + Named(recs, x) == Uses(es0, x) + InRun(phy, n, x)
  }

  /** The new blocks are nobody's yet. */
  ghost predicate Fresh(es: seq<Extent>, phy: int, len: int) {
    forall x :: phy <= x < phy + len ==> Uses(es, x) == 0
  }

  // ------------------------------------------------------ how far records go

  /** A record goes up to the end of the request, or up to where the extent or the hole at its
      beginning ends. */
  ghost predicate RecordFits(es: seq<Extent>, r: EvfsExt, log: int, len: int) {
    var end := r.logStart + r.len;
    end == log + len || if Mapped(es, r.logStart) then EndsAt(es, end) else Mapped(es, end)
  }

  /** No extent ends inside the record. */
  ghost predicate Undivided(es: seq<Extent>, r: EvfsExt) {
    forall b :: r.logStart < b < r.logStart + r.len ==> !EndsAt(es, b)
  }

  /** Every record goes as far as it can, without passing the end of an extent if the new blocks
      are nobody's yet. */
  ghost predicate RecordsFit(es: seq<Extent>, recs: seq<EvfsExt>, log: int, phy: int, len: int) {
    && (forall k :: 0 <= k < |recs| ==> RecordFits(es, recs[k], log, len))
    && (Fresh(es, phy, len) ==> forall k :: 0 <= k < |recs| ==> Undivided(es, recs[k]))
  }

  /** Behind the first n blocks extents end where they did. */
  ghost predicate EndsAhead(es0: seq<Extent>, es: seq<Extent>, log: int, phy: int, len: int, n: int) {
    && (forall b :: b > log + n && b != log + len && EndsAt(es, b) ==> EndsAt(es0, b))
    && (Fresh(es0, phy, len) ==> forall b :: log + n < b < log + len && EndsAt(es0, b) ==> EndsAt(es, b))
  }

  lemma {:induction false} FitAppend(es: seq<Extent>, recs: seq<EvfsExt>, log: int, phy: int, len: int, r: EvfsExt)
    requires RecordsFit(es, recs, log, phy, len) && RecordFits(es, r, log, len)
    requires Fresh(es, phy, len) ==> Undivided(es, r)
    ensures RecordsFit(es, recs + [r], log, phy, len)
  {
  }

  /** New blocks that are nobody's are not what follows in the file. */
  lemma {:induction false} FreshAhead(es0: seq<Extent>, es: seq<Extent>, log: int, phy: int, len: int, n: int, m: int)
    requires Fresh(es0, phy, len) && MovedRun(es0, es, log, n, phy) && 0 <= n <= m < len
    ensures !(Mapped(es, log + m) && Lookup(es, log + m).value.pblk == phy + m)
  {
    if Mapped(es, log + m) {
      assert Lookup(es, log + m) == Lookup(es0, log + m);
      MappedIsUsed(es0, log + m);
    }
  }

  lemma {:induction false} PieceFits(es0: seq<Extent>, es: seq<Extent>, after: seq<Extent>, log: int, phy: int,
                                     len: int, n: nat, curr: EvfsExt, r: EvfsExt, next: EvfsExt)
    requires EndsAhead(es0, es, log, phy, len, n) && MovedRun(es0, es, log, n, phy) && n < len
    requires curr == EvfsExt(log + n, phy + n, len - n) && PieceStep(es, after, curr, r, next) && Mapped(es0, log + n)
    ensures RecordFits(es0, r, log, len) && (Fresh(es0, phy, len) ==> Undivided(es0, r))
    ensures EndsAhead(es0, after, log, phy, len, n + r.len)
  {
    assert RecordFits(es0, r, log, len);
    if Fresh(es0, phy, len) && n + r.len < len {
      FreshAhead(es0, es, log, phy, len, n, n + r.len);
      assert curr.logStart + r.len == log + (n + r.len) && curr.phyStart + r.len == phy + (n + r.len);
    }
  }

  lemma {:induction false} HoleUndivided(es: seq<Extent>, r: EvfsExt)
    requires Sorted(es) && forall b :: r.logStart <= b < r.logStart + r.len ==> !Mapped(es, b)
    ensures Undivided(es, r)
  {
    forall b | r.logStart < b < r.logStart + r.len ensures !EndsAt(es, b) {
      assert !Mapped(es, b - 1);
      if EndsAt(es, b) {
        var i :| 0 <= i < |es| && es[i].End() == b;
        assert ValidAt(es, i);
        LookupHit(es, i, b - 1);
      }
    }
  }

  /** How many extents end in (lo, hi]. */
  ghost function EndsWithin(es: seq<Extent>, lo: int, hi: int): nat {
    if es == [] then 0 else (if lo < es[0].End() <= hi then 1 else 0) + EndsWithin(es[1..], lo, hi)
  }

  lemma {:induction false} EndsGrow(es: seq<Extent>, lo: int, x: int, hi: int)
    requires lo <= x <= hi
    ensures EndsWithin(es, lo, x) <= EndsWithin(es, lo, hi)
    ensures x < hi && EndsAt(es, hi) ==> EndsWithin(es, lo, x) < EndsWithin(es, lo, hi)
  {
    if es != [] {
      EndsGrow(es[1..], lo, x, hi);
      if EndsAt(es, hi) && es[0].End() != hi {
        var i :| 0 <= i < |es| && es[i].End() == hi;
        assert es[1..][i - 1].End() == hi;
      }
    }
  }

  /** The records of the first n blocks: at most two for every extent that ends there, and one
      more only if the last of them is a hole. */
  lemma {:induction false} RecordCount(es: seq<Extent>, recs: seq<EvfsExt>, log: int, phy: int, len: int, n: int)
    requires Tiles(recs, log, n) && n < len && AllRecordsOk(es, recs, log, phy)
    requires forall k :: 0 <= k < |recs| ==> RecordFits(es, recs[k], log, len)
    ensures n >= 0 && |recs| <= 2 * EndsWithin(es, log, log + n) + (if n > 0 && !Mapped(es, log + n - 1) then 1 else 0)
  {
    if recs != [] {
      var r, front := recs[|recs| - 1], recs[..|recs| - 1];
      RecordCount(es, front, log, phy, len, n - r.len);
      EndsGrow(es, log, log + n - r.len, log + n);
      assert RecordFits(es, r, log, len) && RecordOk(es, r, log, phy);
      LastOfRecord(es, r, log, phy);
      if front != [] {
        var q := front[|front| - 1];
        assert RecordFits(es, recs[|recs| - 2], log, len) && RecordOk(es, recs[|recs| - 2], log, phy);
        LastOfRecord(es, q, log, phy);
      }
    }
  }

  lemma {:induction false} LastOfRecord(es: seq<Extent>, r: EvfsExt, log: int, phy: int)
    requires RecordOk(es, r, log, phy) && r.len > 0
    ensures Mapped(es, r.logStart) == Mapped(es, r.logStart + r.len - 1)
  {
    if u :| MappedRun(es, r.logStart, r.len, r.phyStart, u) {
      assert Lookup(es, r.logStart) == Some(Mapping(r.phyStart + (r.logStart - r.logStart), u));
      assert Lookup(es, r.logStart + r.len - 1) == Some(Mapping(r.phyStart + (r.len - 1), u));
    }
  }

  /** A whole request: at most two records for every extent that ends inside it, and two more. */
  lemma {:induction false} FewRecords(es: seq<Extent>, recs: seq<EvfsExt>, log: int, phy: int, len: int)
    requires Tiles(recs, log, len) && AllRecordsOk(es, recs, log, phy) && RecordsFit(es, recs, log, phy, len)
    ensures |recs| <= 2 * EndsWithin(es, log, log + len - 1) + 2
  {
    if recs != [] {
      var r, front := recs[|recs| - 1], recs[..|recs| - 1];
      assert forall k :: 0 <= k < |front| ==> front[k] == recs[k];
      RecordCount(es, front, log, phy, len, len - r.len);
      EndsGrow(es, log, log + len - r.len, log + len - 1);
    }
  }

  // ------------------------------------------------------ keeping on track

  ghost predicate EdgeAt(es0: seq<Extent>, b: int) {
    Mapped(es0, b - 1) || Mapped(es0, b) || NoneFrom(es0, b)
  }

  ghost predicate OnTrack(es0: seq<Extent>, es: seq<Extent>, recs: seq<EvfsExt>, log: int, phy: int, len: int,
                          n: int, curr: EvfsExt) {
    && 0 <= n <= len && Done(es0, es, recs, log, phy, n) && |recs| <= n
    && (if n < len then curr == EvfsExt(log + n, phy + n, len - n) else curr.len == 0)
    && (n > 0 ==> Edges(es0, log, len, log + n))
    && Sorted(es0) && RecordsFit(es0, recs, log, phy, len) && EndsAhead(es0, es, log, phy, len, n)
  }

  /** What a run that has got to block `b` has learnt about the request. */
  ghost predicate Edges(es0: seq<Extent>, log: int, len: int, b: int) {
    && EdgeAt(es0, b)
    && (NoneFrom(es0, log) || AtEdge(es0, log))
    && (log + len >= U32 ==> NoneFrom(es0, log) || (b < log + len && Mapped(es0, b)))
  }

  lemma {:induction false} AppendRecord(recs: seq<EvfsExt>, r: EvfsExt, log: int, n: int)
    requires Tiles(recs, log, n) && r.len > 0 && r.logStart == log + n
    ensures Tiles(recs + [r], log, n + r.len)
    ensures forall x :: Named(recs + [r], x) == Named(recs, x) + r.Names(x)
  {
    assert (recs + [r])[..|recs|] == recs;
  }

  lemma {:induction false} ConservedAppend(es0: seq<Extent>, es: seq<Extent>, after: seq<Extent>, recs: seq<EvfsExt>,
                                           phy: int, n: nat, r: EvfsExt, p: int)
    requires Conserved(es0, es, recs, phy, n) && r.len > 0
    requires p == phy + n && Exchanged(es, after, r, p)
    requires forall x :: Named(recs + [r], x) == Named(recs, x) + r.Names(x)
    ensures Conserved(es0, after, recs + [r], phy, n + r.len)
  {
  }

  lemma {:induction false} MovedOn(es0: seq<Extent>, es: seq<Extent>, after: seq<Extent>, log: int, n: nat, m: nat,
                                   phy: int, c: int, p: int)
    requires c == log + n && p == phy + n && MovedRun(es0, es, log, n, phy) && MovedRun(es, after, c, m, p)
    ensures MovedRun(es0, after, log, n + m, phy)
  {
  }

  lemma {:induction false} MovedAhead(es0: seq<Extent>, es: seq<Extent>, log: int, n: nat, phy: int, c: int, m: nat,
                                      p: int, u: bool)
    requires MovedRun(es0, es, log, n, phy) && log + n <= c && MappedRun(es, c, m, p, u)
    ensures MappedRun(es0, c, m, p, u)
    ensures m > 0 ==> Mapped(es0, c) && Mapped(es0, c + m - 1)
  {
    if m > 0 {
      assert Lookup(es, c) == Some(Mapping(p + (c - c), u));
      assert Lookup(es, c + m - 1) == Some(Mapping(p + (c + m - 1 - c), u));
    }
  }

  lemma {:induction false} PieceRecord(es0: seq<Extent>, es: seq<Extent>, log: int, n: nat, phy: int, r: EvfsExt,
                                       u: bool)
    requires MovedRun(es0, es, log, n, phy) && log + n <= r.logStart && r.len > 0
    requires MappedRun(es, r.logStart, r.len, r.phyStart, u)
    ensures RecordOk(es0, r, log, phy)
    ensures Mapped(es0, r.logStart) && Mapped(es0, r.logStart + r.len - 1)
  {
    MovedAhead(es0, es, log, n, phy, r.logStart, r.len, r.phyStart, u);
  }

  lemma {:induction false} DonePiece(es0: seq<Extent>, es: seq<Extent>, after: seq<Extent>, recs: seq<EvfsExt>,
                                     log: int, phy: int, n: nat, curr: EvfsExt, r: EvfsExt)
    requires Done(es0, es, recs, log, phy, n) && curr.logStart == log + n && curr.phyStart == phy + n
    requires r.len > 0 && r.logStart == curr.logStart
    requires RecordOk(es0, r, log, phy) && MovedRun(es, after, curr.logStart, r.len, curr.phyStart)
    requires Exchanged(es, after, r, curr.phyStart)
    ensures Done(es0, after, recs + [r], log, phy, n + r.len)
  {
    AppendRecord(recs, r, log, n);
    ConservedAppend(es0, es, after, recs, phy, n, r, curr.phyStart);
    MovedOn(es0, es, after, log, n, r.len, phy, curr.logStart, curr.phyStart);
  }

  lemma {:induction false} DoneHole(es0: seq<Extent>, es: seq<Extent>, recs: seq<EvfsExt>, log: int, phy: int, n: nat,
                                    r: EvfsExt)
    requires Done(es0, es, recs, log, phy, n) && r.len > 0 && r.logStart == log + n && r.phyStart == phy + n
    requires forall b :: log + n <= b < log + n + r.len ==> !Mapped(es, b)
    ensures Done(es0, es, recs + [r], log, phy, n + r.len)
  {
    AppendRecord(recs, r, log, n);
    ConservedAppend(es0, es, es, recs, phy, n, r, r.phyStart);
    MovedHole(es0, es, log, n, phy, r.len);
    assert RecordOk(es0, r, log, phy);
  }

  lemma {:induction false} MovedHole(es0: seq<Extent>, es: seq<Extent>, log: int, n: nat, phy: int, m: nat)
    requires MovedRun(es0, es, log, n, phy) && forall b :: log + n <= b < log + n + m ==> !Mapped(es, b)
    ensures MovedRun(es0, es, log, n + m, phy)
    ensures forall b :: log + n <= b < log + n + m ==> !Mapped(es0, b)
  {
    forall b | log + n <= b < log + n + m ensures !Mapped(es0, b) {
      assert !Mapped(es, b);
    }
  }

  lemma {:induction false} MovedSameDomain(es0: seq<Extent>, es: seq<Extent>, log: int, n: int, phy: int, b: int)
    requires MovedRun(es0, es, log, n, phy)
    ensures Mapped(es0, b) == Mapped(es, b)
    ensures NoneFrom(es0, b) == NoneFrom(es, b) && NoneBefore(es0, b) == NoneBefore(es, b)
  {
    assert forall x :: Mapped(es0, x) == Mapped(es, x);
  }

  // ---------------------------------------------------------- going astray

  /** Some record leaves the requested range. */
  ghost predicate Outside(recs: seq<EvfsExt>, log: int, len: int) {
    exists k :: 0 <= k < |recs| && !(log <= recs[k].logStart && recs[k].logStart + recs[k].len <= log + len)
  }

  /** Block x of the request is mapped, has not been moved, and the cursor is past it or
      has wrapped around to before the range. */
  ghost predicate Skipped(es0: seq<Extent>, es: seq<Extent>, log: int, len: int, curr: EvfsExt, x: int) {
    && log <= x < log + len && Mapped(es0, x) && Lookup(es, x) == Lookup(es0, x)
    && (curr.len == 0 || curr.logStart < log || (x < curr.logStart && curr.logStart + curr.len == log + len))
  }

  ghost predicate Astray(es0: seq<Extent>, es: seq<Extent>, recs: seq<EvfsExt>, log: int, len: int, curr: EvfsExt) {
    && !Good(es0, log, len)
    && (Outside(recs, log, len) || exists x :: Skipped(es0, es, log, len, curr, x))
  }

  lemma {:induction false} OutsideAppend(recs: seq<EvfsExt>, r: EvfsExt, log: int, len: int)
    requires Outside(recs, log, len) || !(log <= r.logStart && r.logStart + r.len <= log + len)
    ensures Outside(recs + [r], log, len)
  {
    var s := recs + [r];
    if Outside(recs, log, len) {
      var k :| 0 <= k < |recs| && !(log <= recs[k].logStart && recs[k].logStart + recs[k].len <= log + len);
      assert s[k] == recs[k];
    } else {
      assert s[|recs|] == r;
    }
  }

  lemma {:induction false} PieceEdges(es0: seq<Extent>, log: int, len: int, n: nat, c: int, m: nat)
    requires c == log + n && m > 0 && log + len < U32 && (n > 0 ==> Edges(es0, log, len, c))
    requires Mapped(es0, c) && Mapped(es0, c + m - 1)
    ensures Edges(es0, log, len, c + m)
  {
  }

  lemma {:induction false} PieceFacts(es0: seq<Extent>, es: seq<Extent>, after: seq<Extent>, log: int, phy: int,
                                      len: int, n: nat, curr: EvfsExt, r: EvfsExt, next: EvfsExt)
    requires MovedRun(es0, es, log, n, phy) && n < len && curr == EvfsExt(log + n, phy + n, len - n)
    requires n > 0 ==> Edges(es0, log, len, log + n)
    requires StepOk(es, after, curr, r, next, Piece)
    ensures RecordOk(es0, r, log, phy) && Edges(es0, log, len, log + (n + r.len)) && Mapped(es0, log + n)
  {
    var u :| MappedRun(es, curr.logStart, r.len, r.phyStart, u);
    PieceRecord(es0, es, log, n, phy, r, u);
    PieceEdges(es0, log, len, n, curr.logStart, r.len);
  }

  lemma {:induction false} TrackPiece(es0: seq<Extent>, es: seq<Extent>, after: seq<Extent>, recs: seq<EvfsExt>,
                                      log: int, phy: int, len: int, n: nat, curr: EvfsExt, r: EvfsExt, next: EvfsExt)
    requires OnTrack(es0, es, recs, log, phy, len, n, curr) && n < len
    requires StepOk(es, after, curr, r, next, Piece)
    ensures OnTrack(es0, after, recs + [r], log, phy, len, n + r.len, next)
  {
    PieceFacts(es0, es, after, log, phy, len, n, curr, r, next);
    DonePiece(es0, es, after, recs, log, phy, n, curr, r);
    PieceFits(es0, es, after, log, phy, len, n, curr, r, next);
    FitAppend(es0, recs, log, phy, len, r);
  }

  lemma {:induction false} TrackHole(es0: seq<Extent>, es: seq<Extent>, recs: seq<EvfsExt>, log: int, phy: int,
                                     len: int, n: nat, curr: EvfsExt, r: EvfsExt, next: EvfsExt, nb: int)
    requires OnTrack(es0, es, recs, log, phy, len, n, curr) && n < len && 0 <= log
    requires StepOk(es, es, curr, r, next, Hole(nb)) && AtEdge(es, curr.logStart) && r.len <= len - n && len < U32
    ensures OnTrack(es0, es, recs + [r], log, phy, len, n + r.len, next)
  {
    HoleEdges(es0, es, log, phy, len, n, curr, nb);
    DoneHole(es0, es, recs, log, phy, n, r);
    assert nb == log + (n + r.len);
    WrapDown(curr.logStart + r.len);
    HoleFits(es0, es, log, phy, len, n, r, nb);
    FitAppend(es0, recs, log, phy, len, r);
  }

  lemma {:induction false} HoleFits(es0: seq<Extent>, es: seq<Extent>, log: int, phy: int, len: int, n: nat, r: EvfsExt,
                                    end: int)
    requires Sorted(es0) && MovedRun(es0, es, log, n, phy) && EndsAhead(es0, es, log, phy, len, n)
    requires r.logStart == log + n && r.len > 0 && end == r.logStart + r.len && (Mapped(es, end) || end == log + len)
    requires forall b :: r.logStart <= b < end ==> !Mapped(es, b)
    ensures RecordFits(es0, r, log, len) && Undivided(es0, r) && EndsAhead(es0, es, log, phy, len, n + r.len)
  {
    forall b | r.logStart <= b < end ensures !Mapped(es0, b) {
      MovedSameDomain(es0, es, log, n, phy, b);
    }
    MovedSameDomain(es0, es, log, n, phy, end);
    HoleUndivided(es0, r);
  }

  lemma {:induction false} HoleEdges(es0: seq<Extent>, es: seq<Extent>, log: int, phy: int, len: int, n: nat,
                                     curr: EvfsExt, nb: int)
    requires MovedRun(es0, es, log, n, phy) && n < len && curr.logStart == log + n
    requires n > 0 ==> Edges(es0, log, len, log + n)
    requires Mapped(es, nb) && nb < U32 && AtEdge(es, curr.logStart) && curr.logStart < nb <= log + len
    ensures Edges(es0, log, len, nb)
  {
    MovedSameDomain(es0, es, log, n, phy, nb);
    MovedSameDomain(es0, es, log, n, phy, curr.logStart);
    MovedSameDomain(es0, es, log, n, phy, curr.logStart - 1);
  }

  lemma {:induction false} TrackEof(es0: seq<Extent>, es: seq<Extent>, recs: seq<EvfsExt>, log: int, phy: int,
                                    len: int, n: nat, curr: EvfsExt, r: EvfsExt, next: EvfsExt)
    requires OnTrack(es0, es, recs, log, phy, len, n, curr) && n < len
    requires StepOk(es, es, curr, r, next, Eof) && NoneFrom(es, curr.logStart)
    ensures OnTrack(es0, es, recs + [r], log, phy, len, n + r.len, next)
  {
    assert NoneFrom(es0, curr.logStart) by {
      MovedSameDomain(es0, es, log, n, phy, curr.logStart);
    }
    assert NoneFrom(es0, log + (n + r.len));
    DoneHole(es0, es, recs, log, phy, n, r);
    HoleFits(es0, es, log, phy, len, n, r, log + len);
    FitAppend(es0, recs, log, phy, len, r);
  }

  /** Range past the end of the address space: the mapped block at the cursor is left alone. */
  lemma {:induction false} LostAtEof(es0: seq<Extent>, es: seq<Extent>, recs: seq<EvfsExt>, log: int, phy: int,
                                     len: int, n: nat, curr: EvfsExt, r: EvfsExt, next: EvfsExt)
    requires OnTrack(es0, es, recs, log, phy, len, n, curr) && n < len && 0 <= log
    requires StepOk(es, es, curr, r, next, Eof) && !NoneFrom(es, curr.logStart)
    ensures Astray(es0, es, recs + [r], log, len, next)
  {
    MovedSameDomain(es0, es, log, n, phy, curr.logStart);
    assert Skipped(es0, es, log, len, next, curr.logStart);
  }

  /** Hole that reaches past the range: its record is longer than what is left of it. */
  lemma {:induction false} LostInLongHole(es0: seq<Extent>, es: seq<Extent>, recs: seq<EvfsExt>, log: int, phy: int,
                                          len: int, n: nat, curr: EvfsExt, r: EvfsExt, next: EvfsExt, nb: int)
    requires OnTrack(es0, es, recs, log, phy, len, n, curr) && n < len && 0 <= log
    requires StepOk(es, es, curr, r, next, Hole(nb)) && AtEdge(es, curr.logStart) && r.len > len - n
    ensures Astray(es0, es, recs + [r], log, len, next)
  {
    MovedSameDomain(es0, es, log, n, phy, nb);
    MovedSameDomain(es0, es, log, n, phy, log + len);
    MovedSameDomain(es0, es, log, n, phy, log + len - 1);
    OutsideAppend(recs, r, log, len);
  }

  /** Range that starts inside a hole after some extent: the jump, measured from the end of
      that extent, either leaves the range or skips the extent the hole ends at. */
  lemma {:induction false} LostAtStart(es0: seq<Extent>, es: seq<Extent>, recs: seq<EvfsExt>, log: int, phy: int,
                                       len: int, n: nat, curr: EvfsExt, r: EvfsExt, next: EvfsExt, nb: int)
    requires OnTrack(es0, es, recs, log, phy, len, n, curr) && n < len < U32 && 0 <= log < U32
    requires StepOk(es, es, curr, r, next, Hole(nb)) && !AtEdge(es, curr.logStart)
    ensures Astray(es0, es, recs + [r], log, len, next)
  {
    assert Mapped(es0, nb) && !AtEdge(es0, curr.logStart) by {
      MovedSameDomain(es0, es, log, n, phy, nb);
      MovedSameDomain(es0, es, log, n, phy, curr.logStart);
      MovedSameDomain(es0, es, log, n, phy, curr.logStart - 1);
    }
    assert n == 0;
    if r.len > len {
      OutsideAppend(recs, r, log, len);
    } else {
      WrapDown(log + r.len);
      assert Skipped(es0, es, log, len, next, nb);
    }
  }

  lemma {:induction false} LostInHole(es0: seq<Extent>, es: seq<Extent>, recs: seq<EvfsExt>, log: int, phy: int,
                                      len: int, n: nat, curr: EvfsExt, r: EvfsExt, next: EvfsExt, nb: int)
    requires OnTrack(es0, es, recs, log, phy, len, n, curr) && n < len < U32 && 0 <= log < U32
    requires StepOk(es, es, curr, r, next, Hole(nb)) && (!AtEdge(es, curr.logStart) || r.len > len - n)
    ensures Astray(es0, es, recs + [r], log, len, next)
  {
    if !AtEdge(es, curr.logStart) {
      LostAtStart(es0, es, recs, log, phy, len, n, curr, r, next, nb);
    } else {
      LostInLongHole(es0, es, recs, log, phy, len, n, curr, r, next, nb);
    }
  }

  lemma {:induction false} WrapDown(x: int)
    requires 0 <= x < 2 * U32
    ensures Wrap(x) == if x < U32 then x else x - U32
  {
  }

  /** Once astray, a run stays astray. */
  lemma {:induction false} AstrayStep(es0: seq<Extent>, es: seq<Extent>, after: seq<Extent>, recs: seq<EvfsExt>,
                                      log: int, len: int, curr: EvfsExt, r: EvfsExt, next: EvfsExt, step: Step)
    requires Astray(es0, es, recs, log, len, curr) && curr.Ok() && r.Ok() && 0 < curr.len && 0 <= log && 0 <= len < U32
    requires StepOk(es, after, curr, r, next, step)
    ensures Astray(es0, after, recs + [r], log, len, next)
  {
    if Outside(recs, log, len) || !(log <= r.logStart && r.logStart + r.len <= log + len) {
      OutsideAppend(recs, r, log, len);
    } else {
      var x :| Skipped(es0, es, log, len, curr, x);
      if step.Hole? {
        WrapDown(curr.logStart + r.len);
      }
      assert Skipped(es0, after, log, len, next, x);
    }
  }

  /** A run that went astray has not done what was asked. */
  lemma {:induction false} AstrayFails(es0: seq<Extent>, es: seq<Extent>, recs: seq<EvfsExt>, log: int, phy: int,
                                       len: int, curr: EvfsExt)
    requires Astray(es0, es, recs, log, len, curr) && Fresh(es0, phy, len)
    ensures !(Tiles(recs, log, len) && MovedRun(es0, es, log, len, phy))
  {
    if Tiles(recs, log, len) && MovedRun(es0, es, log, len, phy) {
      if Outside(recs, log, len) {
        var k :| 0 <= k < |recs| && !(log <= recs[k].logStart && recs[k].logStart + recs[k].len <= log + len);
        TilesBound(recs, log, len, k);
      } else {
        var x :| Skipped(es0, es, log, len, curr, x);
        MappedIsUsed(es0, x);
      }
    }
  }

  /** A run that stays on track to the end was asked something good. */
  lemma {:induction false} OnTrackIsGood(es0: seq<Extent>, es: seq<Extent>, recs: seq<EvfsExt>, log: int, phy: int,
                                         len: int, curr: EvfsExt)
    requires OnTrack(es0, es, recs, log, phy, len, len, curr)
    ensures Good(es0, log, len)
  {
  }

  /** How a run stands: its first n blocks are done, or it has gone astray. */
  datatype Standing = Reached(n: nat) | Lost

  ghost predicate Run(es0: seq<Extent>, es: seq<Extent>, recs: seq<EvfsExt>, log: int, phy: int, len: int,
                      at: Standing, curr: EvfsExt) {
    match at
    case Reached(n) => OnTrack(es0, es, recs, log, phy, len, n, curr)
    case Lost => Astray(es0, es, recs, log, len, curr)
  }

  lemma {:induction false} RunHole(es0: seq<Extent>, es: seq<Extent>, recs: seq<EvfsExt>, log: int, phy: int,
                                   len: int, n: nat, curr: EvfsExt, r: EvfsExt, next: EvfsExt,
                                   nb: int) returns (to: Standing)
    requires OnTrack(es0, es, recs, log, phy, len, n, curr) && n < len < U32 && 0 <= log < U32
    requires StepOk(es, es, curr, r, next, Hole(nb))
    ensures Run(es0, es, recs + [r], log, phy, len, to, next)
  {
    if !AtEdge(es, curr.logStart) || r.len > len - n {
      LostInHole(es0, es, recs, log, phy, len, n, curr, r, next, nb);
      to := Lost;
    } else {
      TrackHole(es0, es, recs, log, phy, len, n, curr, r, next, nb);
      to := Reached(n + r.len);
    }
  }

  lemma {:induction false} RunEof(es0: seq<Extent>, es: seq<Extent>, recs: seq<EvfsExt>, log: int, phy: int, len: int,
                                  n: nat, curr: EvfsExt, r: EvfsExt, next: EvfsExt) returns (to: Standing)
    requires OnTrack(es0, es, recs, log, phy, len, n, curr) && n < len < U32 && 0 <= log < U32
    requires StepOk(es, es, curr, r, next, Eof)
    ensures Run(es0, es, recs + [r], log, phy, len, to, next)
  {
    if NoneFrom(es, curr.logStart) {
      TrackEof(es0, es, recs, log, phy, len, n, curr, r, next);
      to := Reached(n + r.len);
    } else {
      LostAtEof(es0, es, recs, log, phy, len, n, curr, r, next);
      to := Lost;
    }
  }

  lemma {:induction false} RunStep(es0: seq<Extent>, es: seq<Extent>, after: seq<Extent>, recs: seq<EvfsExt>,
                                   log: int, phy: int, len: int, at: Standing, curr: EvfsExt, r: EvfsExt,
                                   next: EvfsExt, step: Step) returns (to: Standing)
    requires Run(es0, es, recs, log, phy, len, at, curr) && curr.Ok() && curr.len > 0 && r.Ok()
    requires 0 <= len < U32 && 0 <= log < U32
    requires StepOk(es, after, curr, r, next, step)
    ensures Run(es0, after, recs + [r], log, phy, len, to, next)
  {
    if at.Lost? {
      AstrayStep(es0, es, after, recs, log, len, curr, r, next, step);
      to := Lost;
    } else {
      match step
      case Piece =>
        TrackPiece(es0, es, after, recs, log, phy, len, at.n, curr, r, next);
        to := Reached(at.n + r.len);
      case Eof =>
        to := RunEof(es0, es, recs, log, phy, len, at.n, curr, r, next);
      case Hole(nb) =>
        to := RunHole(es0, es, recs, log, phy, len, at.n, curr, r, next, nb);
    }
  }

  /** A run that stays on track to the end was asked something good, and has done it; one
      that went astray was not, and has not. */
  lemma {:induction false} RunEnds(es0: seq<Extent>, es: seq<Extent>, recs: seq<EvfsExt>, log: int, phy: int,
                                   len: int, at: Standing, curr: EvfsExt)
    requires Run(es0, es, recs, log, phy, len, at, curr) && (curr.len == 0 || |recs| >= len)
    ensures Good(es0, log, len) ==> Done(es0, es, recs, log, phy, len) && RecordsFit(es0, recs, log, phy, len)
    ensures !Good(es0, log, len) && Fresh(es0, phy, len) ==>
              !(Tiles(recs, log, len) && MovedRun(es0, es, log, len, phy))
  {
    match at
    case Lost =>
      if Fresh(es0, phy, len) {
        AstrayFails(es0, es, recs, log, phy, len, curr);
      }
    case Reached(n) =>
      OnTrackIsGood(es0, es, recs, log, phy, len, curr);
  }

  // ------------------------------------------------- requests that go wrong

  /** Blocks 1 to 9 of this file are a hole. Asked to move blocks 1 to 4, the first step
      reports nine blocks. */
  lemma {:induction false} HoleOverrunsRequest(after: seq<Extent>, rec: EvfsExt, next: EvfsExt, step: Step)
    requires StepOk([Extent(0, 1, 100, false), Extent(10, 1, 200, false)], after, EvfsExt(1, 500, 4), rec, next, step)
    ensures rec == EvfsExt(1, 500, 9) && next == EvfsExt(10, 509, U32 - 5)
    ensures !Good([Extent(0, 1, 100, false), Extent(10, 1, 200, false)], 1, 4)
  {
    var es := [Extent(0, 1, 100, false), Extent(10, 1, 200, false)];
    forall b | 1 <= b < 10 ensures !Mapped(es, b) {
      LookupMiss(es, b);
    }
    assert Mapped(es, 10) && Mapped(es, 0) && !Mapped(es, 1);
    assert step.Hole? && step.next == 10;
  }

  /** Blocks 1 to 3 of this file are a hole. Asked to move blocks 2 to 5, the first step
      jumps by three, past block 4, which is mapped and stays where it was. */
  lemma {:induction false} HoleSkipsMappedBlock(after: seq<Extent>, rec: EvfsExt, next: EvfsExt, step: Step)
    requires StepOk([Extent(0, 1, 100, false), Extent(4, 2, 200, false)], after, EvfsExt(2, 500, 4), rec, next, step)
    ensures rec == EvfsExt(2, 500, 3) && next == EvfsExt(5, 503, 1)
    ensures Lookup(after, 4) == Some(Mapping(200, false))
    ensures !Good([Extent(0, 1, 100, false), Extent(4, 2, 200, false)], 2, 4)
  {
    var es := [Extent(0, 1, 100, false), Extent(4, 2, 200, false)];
    assert Mapped(es, 0) && Mapped(es, 4) && !Mapped(es, 1) && !Mapped(es, 2) && !Mapped(es, 3);
  }

  /** evfs_extent_move. A request is carried out exactly when it is good: then the records
      tile the range, each names the old blocks of a run or the unused new blocks of a hole and
      goes as far as the extent, the hole or the request does, which bounds their number,
      every mapped block of the range has moved to its place in the new run with its state
      kept, no other block has changed, and no block is lost or gained. Otherwise, the new
      blocks being nobody's, either the records do not tile or some block has not moved. */
  method ExtentMove(inode: Inode, iversion: int, expected: int, log: int, phy: int, len: int, creditsOk: bool)
    returns (ret: int, recs: seq<EvfsExt>)
    requires inode.Valid() && 0 <= log < U32 && 0 <= len < U32 && 0 <= phy
    modifies inode
    ensures inode.Valid() && |recs| <= len
    ensures iversion != expected ==> ret == -EAGAIN && recs == [] && inode.Extents() == old(inode.Extents())
    ensures iversion == expected && Good(old(inode.Extents()), log, len) ==>
              && ret == 0 && Done(old(inode.Extents()), inode.Extents(), recs, log, phy, len)
              && RecordsFit(old(inode.Extents()), recs, log, phy, len)
              && |recs| <= 2 * EndsWithin(old(inode.Extents()), log, log + len - 1) + 2
    ensures iversion == expected && !Good(old(inode.Extents()), log, len) && Fresh(old(inode.Extents()), phy, len) ==>
              !(Tiles(recs, log, len) && MovedRun(old(inode.Extents()), inode.Extents(), log, len, phy))
  {
    recs := [];
    if iversion != expected {
      return -EAGAIN, recs;
    }
    ret := 0;
    var curr := EvfsExt(log, phy, len);
    ghost var es0, at := inode.Extents(), Reached(0);
    while curr.len != 0 && |recs| < len
      invariant inode.Valid() && curr.Ok() && |recs| <= len
      invariant Run(es0, inode.Extents(), recs, log, phy, len, at, curr)
      decreases len - |recs|
    {
      ghost var es := inode.Extents();
      var rec, next, step, splits := ExtentMap(inode, curr, creditsOk);
      at := RunStep(es0, es, inode.Extents(), recs, log, phy, len, at, curr, rec, next, step);
      recs := recs + [rec];
      curr := next;
    }
    RunEnds(es0, inode.Extents(), recs, log, phy, len, at, curr);
    if Good(es0, log, len) {
      FewRecords(es0, recs, log, phy, len);
    }
  }
}
