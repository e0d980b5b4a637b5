/**
 ext4_ext_shift_extents: moving all extents from some block on by a fixed distance, leaf by
 leaf, from left to right when moving left and from right to left when moving right.
 */
module ExtentShift {
  import opened Extents
  import opened KeyTree
  import opened ExtentTree
  import opened ExtentInsert
  import opened ExtentMerge
  import opened ExtentSplit

  const EINVAL: int := 22

  // ------------------------------------------------------------- the meaning

  function Moved(e: Extent, k: int): Extent {
    e.(block := e.block + k)
  }

  function MovedAll(es: seq<Extent>, k: int): (r: seq<Extent>)
    ensures |r| == |es| && forall i :: 0 <= i < |es| ==> r[i] == Moved(es[i], k)
  {
    seq(|es|, i requires 0 <= i < |es| => Moved(es[i], k))
  }

  lemma {:induction false} MovedConcat(a: seq<Extent>, b: seq<Extent>, k: int)
    ensures MovedAll(a + b, k) == MovedAll(a, k) + MovedAll(b, k)
  {
  }

  lemma {:induction false} MovedLookup(es: seq<Extent>, k: int, b: int)
    ensures Lookup(MovedAll(es, k), b) == Lookup(es, b - k)
  {
    if es != [] {
      assert MovedAll(es, k)[1..] == MovedAll(es[1..], k);
      MovedLookup(es[1..], k, b);
    }
  }

  lemma {:induction false} MovedUses(es: seq<Extent>, k: int, x: int)
    ensures Uses(MovedAll(es, k), x) == Uses(es, x)
  {
    if es != [] {
      assert MovedAll(es, k)[1..] == MovedAll(es[1..], k);
      MovedUses(es[1..], k, x);
    }
  }

  lemma {:induction false} MovedSorted(es: seq<Extent>, k: int)
    requires Sorted(es) && (es != [] ==> 0 <= es[0].block + k && es[|es| - 1].End() + k <= EXT_MAX_BLOCKS)
    ensures Sorted(MovedAll(es, k))
  {
    var r := MovedAll(es, k);
    SortedAll(es);
    forall i | 0 <= i < |r| ensures r[i].Valid() {
      assert i > 0 ==> es[0].End() <= es[i].block;
      assert i < |es| - 1 ==> es[i].End() <= es[|es| - 1].block;
    }
    SortedIntro(r);
  }

  // ---------------------------------------------- same meaning, fewer extents

  /** `b` says the same as `a`, in order, with no more extents. */
  ghost predicate Compacts(a: seq<Extent>, b: seq<Extent>) {
    Sorted(b) && Same(a, b) && |b| <= |a|
  }

  /** Same meaning, so same first and last block. */
  lemma {:induction false} CompactsBounds(a: seq<Extent>, b: seq<Extent>)
    requires Sorted(a) && Compacts(a, b)
    ensures a == [] <==> b == []
    ensures a != [] ==> a[0].block == b[0].block && a[|a| - 1].End() == b[|b| - 1].End()
  {
    if a != [] {
      MapBounds(a, b);
    }
    if b != [] {
      MapBounds(b, a);
    }
  }

  lemma {:induction false} MapBounds(a: seq<Extent>, b: seq<Extent>)
    requires Sorted(a) && Sorted(b) && SameMap(a, b) && a != []
    ensures b != [] && b[0].block <= a[0].block && a[|a| - 1].End() <= b[|b| - 1].End()
  {
    SortedAll(a);
    SortedAll(b);
    LookupHit(a, 0, a[0].block);
    LookupHit(a, |a| - 1, a[|a| - 1].End() - 1);
    var i := LookupWitness(b, a[0].block);
    var j := LookupWitness(b, a[|a| - 1].End() - 1);
  }

  lemma {:induction false} CompactsTrans(a: seq<Extent>, b: seq<Extent>, c: seq<Extent>)
    requires Compacts(a, b) && Compacts(b, c)
    ensures Compacts(a, c)
  {
  }

  /** What two sorted sequences have in common at the end can be left out. */
  lemma {:induction false} CancelSuffix(p: seq<Extent>, q: seq<Extent>, s: seq<Extent>)
    requires Sorted(p + s) && Compacts(p + s, q + s)
    ensures Compacts(p, q)
  {
    SortedParts(p, s);
    SortedParts(q, s);
    forall b ensures Lookup(p, b) == Lookup(q, b) {
      LookupConcat(p, s, b);
      LookupConcat(q, s, b);
      NotBoth(p, s, b);
      NotBoth(q, s, b);
    }
    forall x ensures Uses(p, x) == Uses(q, x) {
      UsesConcat(p, s, x);
      UsesConcat(q, s, x);
    }
  }

  lemma {:induction false} CancelPrefix(s: seq<Extent>, p: seq<Extent>, q: seq<Extent>)
    requires Sorted(s + p) && Compacts(s + p, s + q)
    ensures Compacts(p, q)
  {
    SortedParts(s, p);
    SortedParts(s, q);
    forall b ensures Lookup(p, b) == Lookup(q, b) {
      LookupConcat(s, p, b);
      LookupConcat(s, q, b);
      NotBoth(s, p, b);
      NotBoth(s, q, b);
    }
    forall x ensures Uses(p, x) == Uses(q, x) {
      UsesConcat(s, p, x);
      UsesConcat(s, q, x);
    }
  }

  lemma {:induction false} NotBoth(a: seq<Extent>, b: seq<Extent>, x: int)
    requires Sorted(a + b)
    ensures !(Mapped(a, x) && Mapped(b, x))
  {
    if Mapped(a, x) {
      var i := LookupWitness(a, x);
      forall j | 0 <= j < |b| ensures !b[j].Covers(x) {
        assert Ordered(a + b, i, |a| + j);
      }
      LookupMiss(b, x);
    }
  }

  /** Among r[from], ..., r[to-1] no two neighbours can be merged. */
  ghost predicate NoneToMerge(r: seq<Extent>, from: int, to: int) {
    forall k :: 0 <= k < |r| - 1 && from <= k && k + 1 < to ==> !CanMerge(r[k], r[k + 1])
  }

  // -------------------------------------------------------- one leaf to the left

  /** There is room to move the extents from `j` on left. */
  ghost predicate RoomLeft(items: seq<Extent>, j: nat, shift: int)
    requires j < |items|
  {
    Sorted(items) && 0 < shift <= items[j].block && (j > 0 ==> items[j - 1].End() <= items[j].block - shift)
  }

  /** The leaf with extents j, ..., m-1 moved, without those after them. */
  function Front(items: seq<Extent>, j: nat, shift: int, m: nat): seq<Extent>
    requires j <= m <= |items|
  {
    items[..j] + MovedAll(items[j..m], -shift)
  }

  lemma {:induction false} FrontNext(items: seq<Extent>, j: nat, shift: int, m: nat)
    requires j <= m < |items|
    ensures Front(items, j, shift, m + 1) == Front(items, j, shift, m) + [Moved(items[m], -shift)]
  {
    assert items[j..m + 1] == items[j..m] + [items[m]];
    MovedConcat(items[j..m], [items[m]], -shift);
  }

  lemma {:induction false} FrontSorted(items: seq<Extent>, j: nat, shift: int, m: nat)
    requires j < |items| && RoomLeft(items, j, shift) && j <= m <= |items|
    ensures Sorted(Front(items, j, shift, m))
    ensures m < |items| ==> Moved(items[m], -shift).Valid()
    ensures m < |items| && Front(items, j, shift, m) != [] ==>
              Front(items, j, shift, m)[|Front(items, j, shift, m)| - 1].End() <= items[m].block - shift
  {
    var mid := items[j..m];
    SortedTake(items, m);
    SortedDrop(items[..m], j);
    assert items[..m][j..] == mid;
    SortedTake(items, j);
    assert ValidAt(items, |items| - 1);
    if m < |items| {
      assert ValidAt(items, m) && (m > j ==> ValidAt(items, j) && Ordered(items, j, m) && Ordered(items, m - 1, m));
    }
    if mid != [] {
      assert ValidAt(items, m - 1) && mid[|mid| - 1] == items[m - 1];
    }
    MovedSorted(mid, -shift);
    SortedJoin(items[..j], MovedAll(mid, -shift));
  }

  /** Extents j, ..., m-1 have been moved and merged; `start` entries hold what became of the
      first m. */
  ghost predicate GoingLeft(items: seq<Extent>, j: nat, shift: int, m: nat, r: seq<Extent>, start: nat)
    requires j <= m <= |items|
  {
    && start <= |r| && r[start..] == items[m..]
    && Compacts(Front(items, j, shift, m), r[..start])
  }

  lemma {:induction false} LeftMove(items: seq<Extent>, j: nat, shift: int, m: nat, r: seq<Extent>, start: nat)
    requires j <= m < |items| && RoomLeft(items, j, shift) && GoingLeft(items, j, shift, m, r, start)
    ensures start < |r| && r[start] == items[m]
    ensures var s := r[start := Moved(r[start], -shift)];
            && s == r[..start] + [Moved(items[m], -shift)] + items[m + 1..] && Sorted(s)
            && Compacts(Front(items, j, shift, m + 1), r[..start] + [Moved(items[m], -shift)])
  {
    var x, a, tail := Moved(items[m], -shift), r[..start], items[m + 1..];
    assert r[start..][0] == items[m] && r[start + 1..] == r[start..][1..] && tail == items[m..][1..];
    assert r[start := x] == a + [x] + tail;
    FrontSorted(items, j, shift, m);
    FrontNext(items, j, shift, m);
    CompactsBounds(Front(items, j, shift, m), a);
    SortedJoin(a, [x]);
    SortedDrop(items, m + 1);
    assert tail != [] ==> Ordered(items, m, m + 1);
    SortedJoin(a + [x], tail);
    FrontSorted(items, j, shift, m + 1);
    CompactsAppend(Front(items, j, shift, m), a, x);
  }

  lemma {:induction false} CompactsAppend(a: seq<Extent>, b: seq<Extent>, x: Extent)
    requires Compacts(a, b) && Sorted(b + [x])
    ensures Compacts(a + [x], b + [x])
  {
    LookupReplace([], a, b, [x]);
    UsesReplace([], a, b, [x]);
    assert [] + a + [x] == a + [x] && [] + b + [x] == b + [x];
  }

  lemma {:induction false} LeftMerge(items: seq<Extent>, j: nat, shift: int, m: nat, a: seq<Extent>, s: seq<Extent>,
                                     start: nat, t: seq<Extent>)
    requires j <= m < |items| && |a| == start > 0 && 0 < shift
    requires s == a + [Moved(items[m], -shift)] + items[m + 1..] && Sorted(s) && Sorted(items)
    requires Compacts(Front(items, j, shift, m + 1), a + [Moved(items[m], -shift)])
    requires Coalesces(s, t) && start <= |t| && t[start..] == s[start + (|s| - |t|)..]
    requires |s| - |t| >= 2 ==> s[start].End() == s[start + 1].block
    ensures GoingLeft(items, j, shift, m + 1, t, if |t| < |s| then start else start + 1)
  {
    var b, tail := a + [Moved(items[m], -shift)], items[m + 1..];
    if start + 1 < |s| {
      assert s[start] == Moved(items[m], -shift) && s[start + 1] == items[m + 1] && Ordered(items, m, m + 1);
      assert s[start].End() < s[start + 1].block;
    }
    var n := if |t| < |s| then start else start + 1;
    TailOf(s, t, b, tail, start, n);
    CancelSuffix(b, t[..n], tail);
    CompactsTrans(Front(items, j, shift, m + 1), b, t[..n]);
  }

  lemma {:induction false} TailOf<T>(s: seq<T>, t: seq<T>, b: seq<T>, tail: seq<T>, start: nat, n: nat)
    requires s == b + tail && |b| == start + 1 && start <= |t| <= |s| && |s| - |t| <= 1
    requires t[start..] == s[start + (|s| - |t|)..] && n == if |t| < |s| then start else start + 1
    ensures n <= |t| && t[n..] == tail && t == t[..n] + tail
  {
    if |t| == |s| {
      assert t[n..] == t[start..][1..] && s[n..] == s[start..][1..];
    }
    assert s[start + 1..] == tail;
  }

  /** Moves one extent and tries to merge it into the one before it. */
  method LeftOne(items: seq<Extent>, j: nat, shift: int, ghost m: nat, r: seq<Extent>, start: nat)
    returns (t: seq<Extent>, done: bool)
    requires j <= m < |items| && RoomLeft(items, j, shift) && GoingLeft(items, j, shift, m, r, start)
    requires NoneToMerge(r, j - 1, start)
    ensures GoingLeft(items, j, shift, m + 1, t, if done then start else start + 1)
    ensures |t| == if done then |r| - 1 else |r|
    ensures NoneToMerge(t, j - 1, if done then start else start + 1)
  {
    LeftMove(items, j, shift, m, r, start);
    ghost var a := r[..start];
    t, done := r[start := Moved(r[start], -shift)], false;
    if start > 0 {
      ghost var s := t;
      t, done := TryToMergeRight(t, start - 1);
      LeftMerge(items, j, shift, m, a, s, start, t);
      LeftNoneToMerge(r, s, start, t, j - 1);
    } else {
      LeftAlone(items, j, shift, m, a, t);
    }
  }

  /** What has grown on the right can still not be merged with what is on its left. */
  lemma {:induction false} LeftNoneToMerge(r: seq<Extent>, s: seq<Extent>, start: nat, t: seq<Extent>, from: int)
    requires 0 < start < |r| == |s| && s[..start] == r[..start] && MergedFrom(s, start - 1, t) && Sorted(s) && Sorted(t)
    requires NoneToMerge(r, from, start)
    ensures NoneToMerge(t, from, if |t| < |s| then start else start + 1)
  {
    var n := if |t| < |s| then start else start + 1;
    forall k | 0 <= k < |t| - 1 && from <= k && k + 1 < n ensures !CanMerge(t[k], t[k + 1]) {
      if k + 1 < start {
        assert t[k] == t[..start - 1][k] == s[..start - 1][k] && s[k] == r[k] by {
          assert s[..start][k] == r[..start][k];
        }
        assert s[k + 1] == s[..start][k + 1] == r[..start][k + 1] == r[k + 1];
        if k + 1 < start - 1 {
          assert t[k + 1] == t[..start - 1][k + 1] == s[..start - 1][k + 1];
        } else {
          GrownEnd(s, start - 1, t);
        }
      }
    }
  }

  lemma {:induction false} GrownEnd(s: seq<Extent>, i: nat, t: seq<Extent>)
    requires i < |s| && MergedFrom(s, i, t) && Sorted(s)
    ensures t[i] == s[i].(len := t[i].len) && t[i].len >= s[i].len
  {
    SortedAll(s);
  }

  lemma {:induction false} LeftAlone(items: seq<Extent>, j: nat, shift: int, m: nat, a: seq<Extent>, t: seq<Extent>)
    requires j <= m < |items| && a == []
    requires t == a + [Moved(items[m], -shift)] + items[m + 1..]
    requires Compacts(Front(items, j, shift, m + 1), a + [Moved(items[m], -shift)])
    ensures GoingLeft(items, j, shift, m + 1, t, 1)
  {
    assert t[..1] == a + [Moved(items[m], -shift)] && t[1..] == items[m + 1..];
  }

  /** ext4_ext_shift_path_extents to the left, within the leaf. */
  method ShiftLeafLeft(items: seq<Extent>, j: nat, shift: int) returns (r: seq<Extent>)
    requires j < |items| && RoomLeft(items, j, shift)
    ensures Compacts(Front(items, j, shift, |items|), r) && NoneToMerge(r, j - 1, |r|)
  {
    r := items;
    var start: nat := j;
    var last := |items| - 1;
    ghost var m := j;
    LeftStart(items, j, shift);
    while start <= last
      invariant j <= m <= |items| && start <= last + 1 == |r| && GoingLeft(items, j, shift, m, r, start)
      invariant NoneToMerge(r, j - 1, start)
      decreases |items| - m
    {
      StillToMove(items, j, shift, m, r, start);
      var t, done := LeftOne(items, j, shift, m, r, start);
      r, m := t, m + 1;
      if done {
        last := last - 1;
      } else {
        start := start + 1;
      }
    }
    AllMoved(items, j, shift, m, r, start);
  }

  lemma {:induction false} LeftStart(items: seq<Extent>, j: nat, shift: int)
    requires j < |items| && RoomLeft(items, j, shift)
    ensures GoingLeft(items, j, shift, j, items, j)
  {
    SortedTake(items, j);
    assert items[j..j] == [] && Front(items, j, shift, j) == items[..j];
  }

  lemma {:induction false} StillToMove(items: seq<Extent>, j: nat, shift: int, m: nat, r: seq<Extent>, start: nat)
    requires j <= m <= |items| && GoingLeft(items, j, shift, m, r, start) && start < |r|
    ensures m < |items|
  {
    assert |r[start..]| == |items[m..]|;
  }

  lemma {:induction false} AllMoved(items: seq<Extent>, j: nat, shift: int, m: nat, r: seq<Extent>, start: nat)
    requires j <= m <= |items| && GoingLeft(items, j, shift, m, r, start) && start == |r|
    ensures m == |items| && Compacts(Front(items, j, shift, |items|), r)
  {
    assert |r[start..]| == |items[m..]| && r[..start] == r;
  }

  // ------------------------------------------------------- one leaf to the right

  ghost predicate RoomRight(items: seq<Extent>, shift: int) {
    Sorted(items) && 0 < shift && (items != [] ==> items[|items| - 1].End() + shift <= EXT_MAX_BLOCKS)
  }

  /** The extents from `m` on have been moved and merged. */
  ghost predicate GoingRight(items: seq<Extent>, shift: int, m: nat, r: seq<Extent>)
    requires m <= |items|
  {
    && |r| >= m && r[..m] == items[..m] && Sorted(r)
    && Compacts(MovedAll(items[m..], shift), r[m..])
  }

  lemma {:induction false} RightMove(items: seq<Extent>, shift: int, m: nat, r: seq<Extent>)
    requires 0 < m <= |items| && RoomRight(items, shift) && GoingRight(items, shift, m, r)
    ensures var x := Moved(items[m - 1], shift);
            && r[m - 1 := x] == items[..m - 1] + ([x] + r[m..]) && Sorted(r[m - 1 := x])
            && Compacts(MovedAll(items[m - 1..], shift), [x] + r[m..])
  {
    var x, a, b := Moved(items[m - 1], shift), items[..m - 1], r[m..];
    assert r == r[..m] + b && items[..m] == a + [items[m - 1]];
    assert r[m - 1 := x] == a + ([x] + b);
    RightTail(items, shift, m, b);
    SortedTake(items, m - 1);
    assert a != [] ==> Ordered(items, m - 2, m - 1);
    SortedJoin(a, [x] + b);
  }

  lemma {:induction false} RightTail(items: seq<Extent>, shift: int, m: nat, b: seq<Extent>)
    requires 0 < m <= |items| && RoomRight(items, shift) && Compacts(MovedAll(items[m..], shift), b)
    ensures Sorted([Moved(items[m - 1], shift)] + b)
    ensures Compacts(MovedAll(items[m - 1..], shift), [Moved(items[m - 1], shift)] + b)
  {
    var x, tail := Moved(items[m - 1], shift), MovedAll(items[m..], shift);
    assert ValidAt(items, m - 1) && ValidAt(items, |items| - 1);
    if m < |items| {
      assert ValidAt(items, m) && Ordered(items, m - 1, m) && Ordered(items, m - 1, |items| - 1);
    }
    SortedDrop(items, m);
    MovedSorted(items[m..], shift);
    CompactsBounds(tail, b);
    SortedJoin([x], b);
    CompactsPrepend(x, tail, b);
    assert MovedAll(items[m - 1..], shift) == [x] + tail;
  }

  lemma {:induction false} CompactsPrepend(x: Extent, a: seq<Extent>, b: seq<Extent>)
    requires Compacts(a, b) && Sorted([x] + b)
    ensures Compacts([x] + a, [x] + b)
  {
    LookupReplace([x], a, b, []);
    UsesReplace([x], a, b, []);
    assert [x] + a + [] == [x] + a && [x] + b + [] == [x] + b;
  }

  lemma {:induction false} RightMerge(items: seq<Extent>, shift: int, m: nat, s: seq<Extent>, b: seq<Extent>,
                                      t: seq<Extent>)
    requires 0 < m <= |items| && s == items[..m - 1] + b && Sorted(s) && Compacts(MovedAll(items[m - 1..], shift), b)
    requires Coalesces(s, t) && m - 1 <= |t| && t[..m - 1] == s[..m - 1]
    ensures GoingRight(items, shift, m - 1, t)
  {
    var a := items[..m - 1];
    assert s[..m - 1] == a && t == a + t[m - 1..];
    CancelPrefix(a, b, t[m - 1..]);
    CompactsTrans(MovedAll(items[m - 1..], shift), b, t[m - 1..]);
  }

  /** ext4_ext_shift_path_extents to the right, within the leaf. */
  method ShiftLeafRight(items: seq<Extent>, j: nat, shift: int) returns (r: seq<Extent>)
    requires j < |items| && RoomRight(items, shift)
    ensures GoingRight(items, shift, j, r) && NoneToMerge(r, j, |r|)
  {
    r := items;
    var last := |items| - 1;
    assert items[|items|..] == [] && MovedAll(items[|items|..], shift) == [];
    while last >= j
      invariant j - 1 <= last < |items| && GoingRight(items, shift, last + 1, r)
      invariant NoneToMerge(r, last + 1, |r|)
    {
      r := RightOne(items, shift, last, r);
      last := last - 1;
    }
  }

  /** Moves one extent and tries to merge the one after it into it. */
  method RightOne(items: seq<Extent>, shift: int, last: nat, r: seq<Extent>) returns (t: seq<Extent>)
    requires last < |items| && RoomRight(items, shift) && GoingRight(items, shift, last + 1, r)
    requires NoneToMerge(r, last + 1, |r|)
    ensures GoingRight(items, shift, last, t) && NoneToMerge(t, last, |t|)
  {
    RightMove(items, shift, last + 1, r);
    ghost var b := [Moved(items[last], shift)] + r[last + 1..];
    var s := r[last := Moved(items[last], shift)];
    assert NoneToMerge(s, last + 1, |s|);
    var done;
    t, done := TryToMergeRight(s, last);
    RightMerge(items, shift, last + 1, s, b, t);
    RightNoneToMerge(s, last, t);
  }

  lemma {:induction false} RightNoneToMerge(s: seq<Extent>, i: nat, t: seq<Extent>)
    requires i < |s| && MergedFrom(s, i, t) && NoneToMerge(s, i + 1, |s|)
    ensures NoneToMerge(t, i, |t|)
  {
    var m := |s| - |t|;
    forall k | 0 <= k < |t| - 1 && i < k ensures !CanMerge(t[k], t[k + 1]) {
      assert t[k] == t[i + 1..][k - i - 1] == s[i + 1 + m..][k - i - 1] == s[k + m];
      assert t[k + 1] == t[i + 1..][k - i] == s[i + 1 + m..][k - i] == s[k + 1 + m];
    }
  }

  // ------------------------------------------------------------ in the tree

  /** The levels above `k` are as they were, and the key at `k` was the one of the leaf. */
  ghost predicate SameKeyUpTo(path: EPath, p: EPath, k: nat) {
    && PathOk(path) && k < |p| == |path| && path[k].es[path[k].pos].key == HoleKey(path)
    && forall i :: 0 <= i < k ==> p[i] == path[i]
  }

  lemma {:induction false} SameKeyAbove(path: EPath, p: EPath, k: nat, key: int)
    requires SameKeyUpTo(path, p, k) && k > 0 && path[k].pos == 0 && Linked(path, k - 1)
    ensures p[k - 1] == path[k - 1] && p[k - 1].es[p[k - 1].pos].key == HoleKey(path)
    ensures SameKeyUpTo(path, p[k - 1 := SetKey(p[k - 1], key)], k - 1)
  {
  }

  /** After the extents of a leaf have moved by `delta` from its first one on: the same is added
      to the keys above it, going up as long as the path goes through first entries. As these
      keys all were the first block of the leaf, they all become its new one. */
  method ShiftIndexes(g: Geometry, path: EPath, delta: int) returns (p: EPath)
    requires path != [] && Ctx(g, path, 0)
    ensures |p| == |path| && Ctx(g, p, 0) && HoleKey(p) == HoleKey(path) + delta
    ensures Pre(p) == Pre(path) && Post(p) == Post(path)
  {
    ghost var border := HoleKey(path) + delta;
    var k := |path| - 1;
    p := path[k := SetKey(path[k], path[k].es[path[k].pos].key + delta)];
    RepairStart(path, border);
    SameAroundStep(path, path, k, border);
    while k > 0 && p[k].pos == 0
      invariant 0 <= k < |path| && SameAround(p, path) && Repairing(p, k, border) && SameKeyUpTo(path, p, k)
    {
      assert SameSides(p[k], path[k]);
      SameKeyAbove(path, p, k, border);
      RepairStep(p, k, border);
      SameAroundStep(p, path, k - 1, border);
      k := k - 1;
      p := p[k := SetKey(p[k], p[k].es[p[k].pos].key + delta)];
    }
    SameAroundSameSides(p, path);
    SameAroundCtx(g, path, p);
  }

  /** Writes a leaf anew. `first` says that its first extent was among those moved by `delta`;
      then, and only then, the index above it is changed. */
  method WriteLeaf(g: Geometry, root: ENode, d: nat, c: Cursor, items: seq<Extent>, first: bool, delta: int)
    returns (path: EPath)
    requires RootOk(g, root, d) && c.Ok() && c.pos >= 0 && |c.path| == d && root == Fill(c.path, c.leaf)
    requires 0 < |items| <= |c.leaf.items|
    requires items[0].block == c.leaf.items[0].block + if first then delta else 0
    ensures |path| == d && PathOk(path) && Pre(path) == Pre(c.path)
    ensures RootOk(g, Fill(path, Leaf(c.leaf.max, items)), d)
    ensures Flat(Fill(path, Leaf(c.leaf.max, items))) == Pre(c.path) + items + Post(c.path)
  {
    FillShape(g, c.path, c.leaf, 0);
    path := c.path;
    if first && path != [] {
      path := ShiftIndexes(g, path, delta);
    }
    FillShape(g, path, Leaf(c.leaf.max, items), 0);
    FlatFill(path, Leaf(c.leaf.max, items));
  }

  lemma {:induction false} CompactsJoin(a: seq<Extent>, b: seq<Extent>, s: seq<Extent>)
    requires Compacts(a, b) && Sorted(b + s)
    ensures Compacts(a + s, b + s)
  {
    LookupReplace([], a, b, s);
    UsesReplace([], a, b, s);
    assert [] + a + s == a + s && [] + b + s == b + s;
  }

  lemma {:induction false} FrontInTree(pre: seq<Extent>, items: seq<Extent>, post: seq<Extent>, j: nat, shift: int)
    requires j <= |items|
    ensures Front(pre + items + post, |pre| + j, shift, |pre| + |items|) == pre + Front(items, j, shift, |items|)
  {
    var cur := pre + items + post;
    assert cur[..|pre| + j] == pre + items[..j];
    assert cur[|pre| + j..|pre| + |items|] == items[j..] && items[j..|items|] == items[j..];
  }

  /** Moving the extents of one leaf, from its extent `j` on, seen in the whole file. */
  lemma {:induction false} CompactsBehind(pre: seq<Extent>, f: seq<Extent>, r: seq<Extent>)
    requires Sorted(pre + f) && Compacts(f, r)
    ensures Sorted(pre + r) && Compacts(pre + f, pre + r) && (r == [] <==> f == [])
    ensures f != [] ==> (pre + r)[|pre + r| - 1].End() == (pre + f)[|pre + f| - 1].End()
  {
    SortedParts(pre, f);
    CompactsBounds(f, r);
    SortedJoin(pre, r);
    CompactsAfter(pre, f, r);
  }

  lemma {:induction false} FrontStart(items: seq<Extent>, j: nat, shift: int, r: seq<Extent>)
    requires j < |items| && Sorted(Front(items, j, shift, |items|)) && Compacts(Front(items, j, shift, |items|), r)
    ensures r != [] && r[0].block == items[0].block + if j == 0 then -shift else 0
  {
    var f := Front(items, j, shift, |items|);
    CompactsBounds(f, r);
    assert f[0] == if j == 0 then Moved(items[0], -shift) else items[0];
  }

  lemma {:induction false} LeafShifted(cur: seq<Extent>, pre: seq<Extent>, items: seq<Extent>, post: seq<Extent>,
                                       j: nat, shift: int, r: seq<Extent>)
    requires cur == pre + items + post && j < |items| && RoomLeft(cur, |pre| + j, shift)
    requires Compacts(Front(items, j, shift, |items|), r)
    ensures Sorted(pre + r + post) && Compacts(Front(cur, |pre| + j, shift, |pre| + |items|), pre + r) && r != []
    ensures r[0].block == items[0].block + if j == 0 then -shift else 0
  {
    var f, m := Front(items, j, shift, |items|), |pre| + |items|;
    FrontInTree(pre, items, post, j, shift);
    FrontSorted(cur, |pre| + j, shift, m);
    CompactsBehind(pre, f, r);
    SortedParts(pre, f);
    FrontStart(items, j, shift, r);
    assert cur[m..] == post && (post != [] ==> cur[m] == post[0]);
    SortedDrop(cur, m);
    SortedJoin(pre + r, post);
  }

  lemma {:induction false} CompactsAfter(pre: seq<Extent>, a: seq<Extent>, b: seq<Extent>)
    requires Compacts(a, b) && Sorted(pre + b)
    ensures Compacts(pre + a, pre + b)
  {
    LookupReplace(pre, a, b, []);
    UsesReplace(pre, a, b, []);
    assert pre + a + [] == pre + a && pre + b + [] == pre + b;
  }

  lemma {:induction false} FrontGrows(es: seq<Extent>, p0: nat, shift: int, p: nat, m: nat)
    requires p0 <= p <= p + m <= |es|
    ensures Front(es, p0, shift, p + m) == Front(es, p0, shift, p) + MovedAll(es[p..p + m], -shift)
  {
    assert es[p0..p + m] == es[p0..p] + es[p..p + m];
    MovedConcat(es[p0..p], es[p..p + m], -shift);
    Assoc(es[..p0], MovedAll(es[p0..p], -shift), MovedAll(es[p..p + m], -shift));
  }

  lemma {:induction false} SameSlice<T>(a: seq<T>, i: nat, b: seq<T>, j: nat, m: nat)
    requires i + m <= |a| && j + m <= |b| && a[i..] == b[j..]
    ensures a[i..i + m] == b[j..j + m]
  {
    assert a[i..i + m] == a[i..][..m] && b[j..j + m] == b[j..][..m];
  }

  lemma {:induction false} GoingOn(es: seq<Extent>, p0: nat, shift: int, p: nat, cur: seq<Extent>, n: nat, m: nat,
                                   next: seq<Extent>)
    requires p0 <= p <= p + m <= |es| && GoingLeft(es, p0, shift, p, cur, n)
    requires n + m <= |cur| && Sorted(Front(cur, n, shift, n + m)) && Compacts(Front(cur, n, shift, n + m), next)
    ensures Compacts(Front(es, p0, shift, p + m), next)
  {
    SameSlice(cur, n, es, p, m);
    FrontGrows(es, p0, shift, p, m);
    CompactsJoin(Front(es, p0, shift, p), cur[..n], MovedAll(es[p..p + m], -shift));
    CompactsTrans(Front(es, p0, shift, p + m), Front(cur, n, shift, n + m), next);
  }

  // ------------------------------------------------------------ moving left

  /** A run of left moves has come to block `it`: extents p0, ..., p-1 of the file as it was
      have moved, and make up the first `n` extents now together with those before them. */
  ghost predicate LeftState(es: seq<Extent>, p0: nat, shift: int, p: nat, it: int, cur: seq<Extent>, n: nat) {
    && p0 <= p <= |es| && es != [] && 0 < shift <= it && Sorted(cur)
    && GoingLeft(es, p0, shift, p, cur, n)
    && (p < |es| ==> it <= es[p].block) && (p == |es| ==> es[|es| - 1].block < it)
    && (n > 0 ==> cur[n - 1].End() <= it - shift)
  }

  lemma {:induction false} NextToMove(es: seq<Extent>, p0: nat, shift: int, p: nat, it: int, cur: seq<Extent>, n: nat)
    requires LeftState(es, p0, shift, p, it, cur, n) && it <= es[|es| - 1].block
    ensures p < |es| && n < |cur| && cur[n] == es[p] && RoomLeft(cur, n, shift) && |cur| - n == |es| - p
  {
    assert |cur[n..]| == |es[p..]| && cur[n..][0] == es[p..][0];
  }

  /** A search for the cursor stops at the next extent to move, or right before it. */
  lemma {:induction false} StopsThere(cur: seq<Extent>, n: nat, it: int, i: int)
    requires Sorted(cur) && n < |cur| && it <= cur[n].block && (n > 0 ==> cur[n - 1].End() <= it) && Nearest(cur, i, it)
    ensures if it > cur[i].block then i == n - 1 else i == n
  {
    SortedAll(cur);
  }

  /** Extents n, ..., k-1 have moved left and merged; those from k on are as they were. */
  ghost predicate SliceMoved(cur: seq<Extent>, n: nat, k: nat, shift: int, next: seq<Extent>) {
    var rest := |cur| - k;
    && n < k <= |cur| && rest <= |next| && next[|next| - rest..] == cur[k..]
    && Compacts(Front(cur, n, shift, k), next[..|next| - rest])
  }

  /** Moves the rest of the leaf from its extent `j` on. */
  method MoveLeafLeft(inode: Inode, c: Cursor, j: nat, shift: int, ghost n: nat, ghost k: nat)
    requires inode.Valid() && c.Ok() && c.pos >= 0 && |c.path| == inode.depth && inode.root == Fill(c.path, c.leaf)
    requires j < |c.leaf.items| && n == |Pre(c.path)| + j && k == |Pre(c.path)| + |c.leaf.items|
    requires n < |inode.Extents()| && RoomLeft(inode.Extents(), n, shift)
    modifies inode
    ensures inode.Valid() && SliceMoved(old(inode.Extents()), n, k, shift, inode.Extents())
  {
    ghost var cur, pre, post := inode.Extents(), Pre(c.path), Post(c.path);
    FlatFill(c.path, c.leaf);
    SortedMiddle(c.path, c.leaf);
    var r, next := ShiftItemsLeft(c.leaf.items, j, shift, cur, pre, post, n, k);
    var path := WriteLeaf(inode.g, inode.root, inode.depth, c, r, j == 0, -shift);
    inode.root := Fill(path, Leaf(c.leaf.max, r));
    assert inode.Extents() == next;
  }

  method ShiftItemsLeft(items: seq<Extent>, j: nat, shift: int, ghost cur: seq<Extent>, ghost pre: seq<Extent>,
                        ghost post: seq<Extent>, ghost n: nat, ghost k: nat)
    returns (r: seq<Extent>, ghost next: seq<Extent>)
    requires cur == pre + items + post && j < |items| && n == |pre| + j && k == |pre| + |items|
    requires RoomLeft(cur, n, shift) && Sorted(items)
    ensures 0 < |r| <= |items| && next == pre + r + post && Sorted(next) && SliceMoved(cur, n, k, shift, next)
    ensures r[0].block == items[0].block + if j == 0 then -shift else 0
  {
    RoomInLeaf(cur, pre, items, post, j, shift);
    r := ShiftLeafLeft(items, j, shift);
    LeafShifted(cur, pre, items, post, j, shift, r);
    next := pre + r + post;
    assert next[|pre + r|..] == post && next[..|pre + r|] == pre + r && cur[|pre| + |items|..] == post;
  }

  lemma {:induction false} RoomInLeaf(cur: seq<Extent>, pre: seq<Extent>, items: seq<Extent>, post: seq<Extent>,
                                      j: nat, shift: int)
    requires cur == pre + items + post && j < |items| && RoomLeft(cur, |pre| + j, shift) && Sorted(items)
    ensures RoomLeft(items, j, shift)
  {
    assert cur[|pre| + j] == items[j];
    if j > 0 {
      assert cur[|pre| + j - 1] == items[j - 1];
    }
  }

  lemma {:induction false} SliceGoesOn(es: seq<Extent>, p0: nat, shift: int, p: nat, cur: seq<Extent>, n: nat, k: nat,
                                       next: seq<Extent>)
    requires p0 <= p <= |es| && GoingLeft(es, p0, shift, p, cur, n) && |cur| - n == |es| - p
    requires n < |cur| && RoomLeft(cur, n, shift) && SliceMoved(cur, n, k, shift, next)
    ensures GoingLeft(es, p0, shift, p + (k - n), next, |next| - (|cur| - k))
  {
    var m, n' := k - n, |next| - (|cur| - k);
    FrontSorted(cur, n, shift, k);
    GoingOn(es, p0, shift, p, cur, n, m, next[..n']);
    assert es[p + m..] == es[p..][m..] && cur[k..] == cur[n..][m..];
  }

  lemma {:induction false} SliceEnd(cur: seq<Extent>, n: nat, k: nat, shift: int, next: seq<Extent>)
    requires n < |cur| && RoomLeft(cur, n, shift) && SliceMoved(cur, n, k, shift, next)
    ensures var n' := |next| - (|cur| - k); n' > 0 && next[n' - 1].End() == cur[k - 1].End() - shift
  {
    var n' := |next| - (|cur| - k);
    FrontSorted(cur, n, shift, k);
    CompactsBounds(Front(cur, n, shift, k), next[..n']);
    FrontEnds(cur, n, shift, k);
  }

  lemma {:induction false} SliceInFile(es: seq<Extent>, p: nat, cur: seq<Extent>, n: nat, k: nat, it: int)
    requires Sorted(es) && n < k <= |cur| && |cur| - n == |es| - p && cur[n..] == es[p..] && it <= es[p].block
    ensures var q := p + (k - n);
            && cur[k - 1] == es[q - 1] && it < es[q - 1].End()
            && (q < |es| ==> es[q - 1].End() <= es[q].block) && (q == |es| ==> es[|es| - 1].block < es[q - 1].End())
  {
    var q := p + (k - n);
    assert cur[k - 1] == cur[n..][k - n - 1] && es[q - 1] == es[p..][k - n - 1];
    assert ValidAt(es, q - 1) && (q < |es| ==> Ordered(es, q - 1, q)) && ValidAt(es, p)
           && (q - 1 > p ==> Ordered(es, p, q - 1));
  }

  lemma {:induction false} MovedOneLeaf(es: seq<Extent>, p0: nat, shift: int, p: nat, it: int, cur: seq<Extent>,
                                        n: nat, k: nat, next: seq<Extent>, it': int, p': nat, n': nat)
    requires LeftState(es, p0, shift, p, it, cur, n) && it <= es[|es| - 1].block && Sorted(es)
    requires Sorted(next) && SliceMoved(cur, n, k, shift, next)
    requires it' == cur[k - 1].End() && p' == p + (k - n) && n' == |next| - (|cur| - k)
    ensures LeftState(es, p0, shift, p', it', next, n')
  {
    NextToMove(es, p0, shift, p, it, cur, n);
    SliceGoesOn(es, p0, shift, p, cur, n, k, next);
    SliceEnd(cur, n, k, shift, next);
    SliceInFile(es, p, cur, n, k, it);
  }

  lemma {:induction false} FrontEnds(cur: seq<Extent>, n: nat, shift: int, k: nat)
    requires n < k <= |cur|
    ensures var f := Front(cur, n, shift, k); f != [] && f[|f| - 1].End() == cur[k - 1].End() - shift
  {
    var f := Front(cur, n, shift, k);
    assert f[|f| - 1] == MovedAll(cur[n..k], -shift)[k - n - 1];
  }

  method MoveRest(inode: Inode, c: Cursor, j: nat, it: int, shift: int, ghost es: seq<Extent>, ghost p0: nat,
                  ghost p: nat, ghost n: nat)
    returns (it': int, ghost p': nat, ghost n': nat)
    requires inode.Valid() && Sorted(es) && LeftState(es, p0, shift, p, it, inode.Extents(), n)
             && it <= es[|es| - 1].block
    requires c.Ok() && c.pos >= 0 && |c.path| == inode.depth && inode.root == Fill(c.path, c.leaf)
    requires j < |c.leaf.items| && |Pre(c.path)| + j == n
    modifies inode
    ensures inode.Valid() && p < p' && LeftState(es, p0, shift, p', it', inode.Extents(), n')
  {
    ghost var cur, k := inode.Extents(), |Pre(c.path)| + |c.leaf.items|;
    NextToMove(es, p0, shift, p, it, cur, n);
    AtLeaf(c, |c.leaf.items| - 1);
    it' := c.leaf.items[|c.leaf.items| - 1].End();
    assert it' == cur[k - 1].End();
    MoveLeafLeft(inode, c, j, shift, n, k);
    p', n' := p + (k - n), |inode.Extents()| - (|cur| - k);
    MovedOneLeaf(es, p0, shift, p, it, cur, n, k, inode.Extents(), it', p', n');
  }

  /** One round of the loop: the rest of some leaf is moved, or the cursor jumps to the next
      leaf. */
  method StepLeft(inode: Inode, it: int, shift: int, ghost es: seq<Extent>, ghost p0: nat, ghost p: nat, ghost n: nat)
    returns (it': int, ghost p': nat, ghost n': nat)
    requires inode.Valid() && Sorted(es) && LeftState(es, p0, shift, p, it, inode.Extents(), n)
             && it <= es[|es| - 1].block
    modifies inode
    ensures inode.Valid() && p < |es| && LeftState(es, p0, shift, p', it', inode.Extents(), n')
    ensures p' > p || (p' == p && it < it' <= es[p].block)
  {
    ghost var cur := inode.Extents();
    NextToMove(es, p0, shift, p, it, cur, n);
    var c := Search(inode, it);
    StopsThere(cur, n, it, c.Index());
    var j: nat := c.pos;
    if it > c.leaf.items[c.pos].block {
      if c.pos == |c.leaf.items| - 1 {
        it' := NextAllocatedBlock(inode.g, inode.root, inode.depth, c);
        p', n' := p, n;
        return;
      }
      j := c.pos + 1;
    }
    it', p', n' := MoveRest(inode, c, j, it, shift, es, p0, p, n);
  }

  /** No extent begins before `start` and ends after it. */
  ghost predicate Boundary(es: seq<Extent>, start: int) {
    forall i :: 0 <= i < |es| ==> es[i].End() <= start || start <= es[i].block
  }

  ghost predicate HoleAt(es: seq<Extent>, from: int, to: int) {
    forall b :: from <= b < to ==> !Mapped(es, b)
  }

  /** Every mapping from `start` on has moved left by `shift`; the others are as before. */
  ghost predicate ShiftedLeft(before: seq<Extent>, after: seq<Extent>, start: int, shift: int) {
    forall b :: Lookup(after, b) == Lookup(before, if b >= start - shift then b + shift else b)
  }

  ghost predicate SplitAt(es: seq<Extent>, p: nat, lo: int, hi: int) {
    && p <= |es|
    && (forall i :: 0 <= i < p ==> es[i].End() <= lo)
    && (forall i :: p <= i < |es| ==> hi <= es[i].block)
  }

  lemma {:induction false} RankSplits(es: seq<Extent>, start: int)
    requires Sorted(es) && Boundary(es, start)
    ensures SplitAt(es, Rank(es, start), start, start)
    ensures forall i :: 0 <= i < Rank(es, start) ==> es[i].block < start
  {
    if es != [] && es[0].block < start {
      SortedDrop(es, 1);
      RankSplits(es[1..], start);
    } else {
      SortedAll(es);
    }
  }

  lemma {:induction false} FrontLookup(es: seq<Extent>, p: nat, start: int, shift: int, b: int)
    requires SplitAt(es, p, start - shift, start) && 0 < shift
    ensures Lookup(Front(es, p, shift, |es|), b) == Lookup(es, if b >= start - shift then b + shift else b)
  {
    var lo, hi := es[..p], es[p..];
    assert es == lo + hi && es[p..|es|] == hi;
    LookupConcat(lo, MovedAll(hi, -shift), b);
    MovedLookup(hi, -shift, b);
    LookupConcat(lo, hi, b);
    LookupConcat(lo, hi, b + shift);
    if b >= start - shift {
      LookupMiss(lo, b);
      LookupMiss(lo, b + shift);
    } else {
      LookupMiss(hi, b + shift);
      LookupMiss(hi, b);
    }
  }

  lemma {:induction false} FrontUses(es: seq<Extent>, p: nat, shift: int)
    requires p <= |es|
    ensures SameUses(es, Front(es, p, shift, |es|))
  {
    forall x ensures Uses(es, x) == Uses(Front(es, p, shift, |es|), x) {
      assert es == es[..p] + es[p..] && es[p..|es|] == es[p..];
      UsesConcat(es[..p], es[p..], x);
      UsesConcat(es[..p], MovedAll(es[p..], -shift), x);
      MovedUses(es[p..], -shift, x);
    }
  }

  /** The code's test for too little room, in unsigned arithmetic, on the extent a search for
      the block before `start` stops at. */
  predicate TooFar(e: Extent, start: int, shift: int) {
    (start == e.block && shift > e.block) || shift > (start - e.End()) % U32
  }

  lemma {:induction false} TooFarMeansNoHole(es: seq<Extent>, i: int, start: int, shift: int)
    requires Sorted(es) && Boundary(es, start) && Nearest(es, i, start - 1) && 0 < shift <= start < U32
    ensures TooFar(es[i], start, shift) <==> !HoleAt(es, start - shift, start)
    ensures !TooFar(es[i], start, shift) ==> SplitAt(es, Rank(es, start), start - shift, start)
  {
    var e := es[i];
    SortedAll(es);
    RankSplits(es, start);
    if e.block < start {
      assert (start - e.End()) % U32 == start - e.End();
      if TooFar(e, start, shift) {
        LookupHit(es, i, e.End() - 1);
        assert Mapped(es, e.End() - 1);
      } else {
        forall b | start - shift <= b < start ensures !Mapped(es, b) {
          LookupMiss(es, b);
        }
      }
    } else {
      assert (start - e.End()) % U32 == start - e.End() + U32;
      forall b | start - shift <= b < start ensures !Mapped(es, b) {
        LookupMiss(es, b);
      }
    }
  }

  lemma {:induction false} LeftBegins(es: seq<Extent>, p0: nat, start: int, shift: int)
    requires Sorted(es) && es != [] && SplitAt(es, p0, start - shift, start) && 0 < shift <= start
    requires forall i :: 0 <= i < p0 ==> es[i].block < start
    ensures LeftState(es, p0, shift, p0, start, es, p0)
  {
    SortedTake(es, p0);
    assert es[p0..p0] == [] && Front(es, p0, shift, p0) == es[..p0];
  }

  lemma {:induction false} LeftFinished(es: seq<Extent>, p0: nat, shift: int, p: nat, it: int, cur: seq<Extent>,
                                        n: nat, start: int)
    requires Sorted(es) && LeftState(es, p0, shift, p, it, cur, n) && it > es[|es| - 1].block
    requires SplitAt(es, p0, start - shift, start)
    ensures ShiftedLeft(es, cur, start, shift) && SameUses(es, cur)
  {
    SortedAll(es);
    assert |cur[n..]| == |es[p..]| && cur[..n] == cur;
    FrontUses(es, p0, shift);
    forall b ensures Lookup(cur, b) == Lookup(es, if b >= start - shift then b + shift else b) {
      FrontLookup(es, p0, start, shift, b);
    }
  }

  lemma {:induction false} LastIsNearest(es: seq<Extent>, i: int)
    requires Sorted(es) && Nearest(es, i, EXT_MAX_BLOCKS - 1)
    ensures i == |es| - 1
  {
    SortedAll(es);
  }

  /** The rounds of the loop, one leaf each. */
  method MoveAllLeft(inode: Inode, start: int, shift: int, stop: int)
    requires inode.Valid() && inode.Extents() != [] && 0 < shift <= start
    requires stop == inode.Extents()[|inode.Extents()| - 1].block
    requires SplitAt(inode.Extents(), Rank(inode.Extents(), start), start - shift, start)
    requires forall i :: 0 <= i < Rank(inode.Extents(), start) ==> inode.Extents()[i].block < start
    modifies inode
    ensures inode.Valid() && ShiftedLeft(old(inode.Extents()), inode.Extents(), start, shift)
    ensures SameUses(old(inode.Extents()), inode.Extents())
  {
    ghost var es := inode.Extents();
    var it := start;
    ghost var p0 := Rank(es, start);
    ghost var p, n := p0, p0;
    LeftBegins(es, p0, start, shift);
    while it <= stop
      invariant inode.Valid() && LeftState(es, p0, shift, p, it, inode.Extents(), n)
      decreases |es| - p, if p < |es| then es[p].block - it else 0
    {
      it, p, n := StepLeft(inode, it, shift, es, p0, p, n);
    }
    LeftFinished(es, p0, shift, p, it, inode.Extents(), n, start);
  }

  /** ext4_ext_shift_extents to the left. It refuses exactly when the hole before `start` is
      too short; otherwise every mapping from `start` on moves left by `shift`, keeping its
      address and state, and nothing else changes. */
  method ShiftLeft(inode: Inode, start: int, shift: int) returns (ret: int)
    requires inode.Valid() && 0 < shift <= start < U32 && Boundary(inode.Extents(), start)
    modifies inode
    ensures inode.Valid()
    ensures ret == 0 <==> old(inode.Extents()) == [] || HoleAt(old(inode.Extents()), start - shift, start)
    ensures ret == 0 || ret == -EINVAL
    ensures ret == 0 ==> ShiftedLeft(old(inode.Extents()), inode.Extents(), start, shift)
    ensures ret != 0 ==> inode.Extents() == old(inode.Extents())
    ensures SameUses(old(inode.Extents()), inode.Extents())
  {
    ghost var es := inode.Extents();
    var c := Search(inode, EXT_MAX_BLOCKS - 1);
    if c.pos == -1 {
      return 0;
    }
    LastIsNearest(es, c.Index());
    var stop := c.leaf.items[c.pos].block;
    c := Search(inode, start - 1);
    TooFarMeansNoHole(es, c.Index(), start, shift);
    if TooFar(c.leaf.items[c.pos], start, shift) {
      return -EINVAL;
    }
    RankSplits(es, start);
    MoveAllLeft(inode, start, shift, stop);
    return 0;
  }

  // ------------------------------------------------------------ moving right

  /** Any block of a subtree leads to that subtree. */
  lemma {:induction false} PathCovers(g: Geometry, path: EPath, n: ENode, d: nat, j: nat)
    requires Sits(g, path, n, d) && Sorted(Flat(Fill(path, n))) && j < |Flat(n)|
    ensures OnPath(path, Flat(n)[j].block)
    decreases |path|
  {
    if path != [] {
      var l, up := path[|path| - 1], path[..|path| - 1];
      var m, i := l.Put(n), |FlatEs(l.es[..l.pos])| + j;
      assert Sits(g, up, m, d + 1) by {
        FillShape(g, path, n, d);
        FillShape(g, up, m, d + 1);
      }
      assert i < |Flat(m)| && Flat(m)[i] == Flat(n)[j] by {
        FlatPut(l, n);
      }
      PathCovers(g, up, m, d + 1, i);
      assert Chosen(l.es, l.pos, Flat(n)[j].block) by {
        SortedMiddle(up, m);
        LevelCovers(g, l, n, d, j, up == []);
      }
      assert path == up + [l];
    }
  }

  lemma {:induction false} LevelCovers(g: Geometry, l: Level<Extent>, n: ENode, d: nat, j: nat, root: bool)
    requires l.Ok() && Sorted(Flat(l.Put(n))) && j < |Flat(n)|
    requires if root then RootOk(g, l.Put(n), d + 1) else Sub(g, l.Put(n), d + 1)
    ensures Chosen(l.es, l.pos, Flat(n)[j].block)
  {
    var a, m, c := FlatEs(l.es[..l.pos]), Flat(n), FlatEs(l.es[l.pos + 1..]);
    PutShape(g, l, n, d, root);
    FlatPut(l, n);
    SubFlat(g, n, d);
    SortedParts(a + m, c);
    SortedParts(a, m);
    assert j > 0 ==> ValidAt(m, 0) && Ordered(m, 0, j);
    if l.pos + 1 < |l.es| {
      assert EntryOk(g, l.es[l.pos + 1], d + 1);
      SubFlat(g, l.es[l.pos + 1].child, d);
      assert Ordered(a + m + c, |a| + j, |a| + |m|) && ValidAt(m, j);
      assert c[0] == (a + m + c)[|a| + |m|] && m[j] == (a + m + c)[|a| + j];
    }
  }

  /** A leaf begins at index `p` of the file. */
  ghost predicate LeafAt(g: Geometry, root: ENode, d: nat, path: EPath, leaf: ENode, p: nat) {
    && |path| == d && PathOk(path) && leaf.Leaf? && leaf.items != [] && root == Fill(path, leaf) && |Pre(path)| == p
  }

  /** The extent before the beginning of a leaf is the last one of its own leaf. */
  lemma {:induction false} LastOfItsLeaf(g: Geometry, root: ENode, d: nat, path: EPath, leaf: ENode, c: Cursor)
    requires RootOk(g, root, d) && Sorted(Flat(root)) && c.Ok() && c.pos >= 0 && |c.path| == d
             && root == Fill(c.path, c.leaf)
    requires forall k :: 0 <= k < |c.path| ==> KeysRise(c.path[k].es)
    requires LeafAt(g, root, d, path, leaf, c.Index() + 1)
    ensures c.pos == |c.leaf.items| - 1
  {
    FillShape(g, path, leaf, 0);
    FillShape(g, c.path, c.leaf, 0);
    AtLeaf(Cursor(path, leaf, 0), 0);
    if c.pos + 1 < |c.leaf.items| {
      AtLeaf(c, c.pos + 1);
      PathCovers(g, path, leaf, 0, 0);
      PathCovers(g, c.path, c.leaf, 0, c.pos + 1);
      PathUnique(path, leaf, c.path, c.leaf, leaf.items[0].block);
      SamePathSides(path, c.path);
      assert false;
    }
  }

  lemma {:induction false} SamePathSides(p: EPath, q: EPath)
    requires SamePath(p, q)
    ensures PathOk(p) && PathOk(q) && Pre(p) == Pre(q)
  {
    forall k | 0 <= k < |p| ensures SameSides(p[k], q[k]) {
      assert SameLevel(p[k], q[k]);
    }
    SameAroundSameSides(p, q);
  }

  /** A run of right moves has come down to block `st`: extents from `p` on have moved. */
  ghost predicate RightState(es: seq<Extent>, shift: int, p: nat, st: int, cur: seq<Extent>) {
    && p <= |es| && RoomRight(es, shift) && GoingRight(es, shift, p, cur)
    && (p > 0 ==> es[p - 1].block <= st) && (p < |es| ==> st < es[p].block)
  }

  /** Where the moved extents begin. */
  lemma {:induction false} FirstMoved(es: seq<Extent>, shift: int, p: nat, cur: seq<Extent>)
    requires p <= |es| && RoomRight(es, shift) && GoingRight(es, shift, p, cur)
    ensures |cur| > p <==> |es| > p
    ensures |cur| > p ==> cur[p].block == es[p].block + shift
  {
    SortedDrop(es, p);
    if p < |es| {
      assert ValidAt(es, p);
    }
    MovedSorted(es[p..], shift);
    CompactsBounds(MovedAll(es[p..], shift), cur[p..]);
  }

  lemma {:induction false} StopsBefore(es: seq<Extent>, shift: int, p: nat, st: int, cur: seq<Extent>, i: int)
    requires 0 < p && RightState(es, shift, p, st, cur) && Nearest(cur, i, st)
    ensures i == p - 1
  {
    FirstMoved(es, shift, p, cur);
    assert cur[p - 1] == cur[..p][p - 1] == es[..p][p - 1];
    SortedAll(cur);
  }

  lemma {:induction false} CompactsBoth(a: seq<Extent>, b: seq<Extent>, c: seq<Extent>, d: seq<Extent>)
    requires Compacts(a, b) && Compacts(c, d) && Sorted(b + d)
    ensures Compacts(a + c, b + d)
  {
    forall x ensures Lookup(a + c, x) == Lookup(b + d, x) {
      LookupConcat(a, c, x);
      LookupConcat(b, d, x);
    }
    forall x ensures Uses(a + c, x) == Uses(b + d, x) {
      UsesConcat(a, c, x);
      UsesConcat(b, d, x);
    }
  }

  /** Moving the extents of the leaf that ends at index `p`, from its extent `j` on. */
  lemma {:induction false} LeafShiftedRight(es: seq<Extent>, shift: int, p: nat, cur: seq<Extent>, pre: seq<Extent>,
                                            items: seq<Extent>, post: seq<Extent>, j: nat, r: seq<Extent>)
    requires p <= |es| && RoomRight(es, shift) && GoingRight(es, shift, p, cur)
    requires cur == pre + items + post && |pre| + |items| == p && j < |items| && GoingRight(items, shift, j, r)
    ensures GoingRight(es, shift, |pre| + j, pre + r + post)
  {
    var next, q := pre + r + post, |pre| + j;
    assert post == cur[p..] && pre + items == cur[..p] && es[..p] == pre + items;
    assert es == pre + items + es[p..];
    assert next[..q] == es[..q] && next[q..] == r[j..] + post;
    LeafShiftedSorted(es, shift, p, cur, pre, items, post, j, r);
    SortedDrop(next, q);
    assert es[q..] == items[j..] + es[p..];
    MovedConcat(items[j..], es[p..], shift);
    CompactsBoth(MovedAll(items[j..], shift), r[j..], MovedAll(es[p..], shift), post);
  }

  lemma {:induction false} LeafShiftedSorted(es: seq<Extent>, shift: int, p: nat, cur: seq<Extent>, pre: seq<Extent>,
                                             items: seq<Extent>, post: seq<Extent>, j: nat, r: seq<Extent>)
    requires p <= |es| && RoomRight(es, shift) && GoingRight(es, shift, p, cur)
    requires cur == pre + items + post && |pre| + |items| == p && j < |items| && GoingRight(items, shift, j, r)
    requires es == pre + items + es[p..]
    ensures Sorted(pre + r + post)
  {
    SortedParts(pre + items, post);
    SortedParts(pre, items);
    assert RoomRight(items, shift) by {
      assert ValidAt(es, |es| - 1) && es[p - 1] == items[|items| - 1] && (p < |es| ==> Ordered(es, p - 1, |es| - 1));
    }
    LeafBounds(items, shift, j, r);
    SortedJoin(pre, r);
    FirstMoved(es, shift, p, cur);
    if post != [] {
      assert post[0] == cur[p] && es[p - 1] == items[|items| - 1] && Ordered(es, p - 1, p);
    }
    SortedJoin(pre + r, post);
  }

  lemma {:induction false} LeafBounds(items: seq<Extent>, shift: int, j: nat, r: seq<Extent>)
    requires j < |items| && RoomRight(items, shift) && GoingRight(items, shift, j, r)
    ensures r != [] && r[|r| - 1].End() == items[|items| - 1].End() + shift && |r| <= |items|
    ensures r[0].block == items[0].block + if j == 0 then shift else 0
  {
    var tail := MovedAll(items[j..], shift);
    assert ValidAt(items, j);
    SortedDrop(items, j);
    MovedSorted(items[j..], shift);
    CompactsBounds(tail, r[j..]);
    assert tail[|tail| - 1] == Moved(items[|items| - 1], shift) && r[j..][|r| - j - 1] == r[|r| - 1];
    assert j > 0 ==> r[0] == r[..j][0] == items[..j][0];
    assert j == 0 ==> r[j..] == r;
  }

  /** The leaf the cursor is in ends where the moved extents begin. */
  lemma {:induction false} LeafEndsAt(g: Geometry, root: ENode, d: nat, es: seq<Extent>, shift: int, p: nat,
                                      path: EPath, leaf: ENode, c: Cursor)
    requires RootOk(g, root, d) && RoomRight(es, shift) && p <= |es| && GoingRight(es, shift, p, Flat(root))
    requires c.Ok() && c.pos >= 0 && |c.path| == d && root == Fill(c.path, c.leaf) && c.Index() == p - 1
    requires forall k :: 0 <= k < |c.path| ==> KeysRise(c.path[k].es)
    requires p < |es| ==> LeafAt(g, root, d, path, leaf, p)
    ensures |Pre(c.path)| + |c.leaf.items| == p
    ensures Flat(root) == Pre(c.path) + c.leaf.items + Post(c.path) && Sorted(c.leaf.items)
  {
    FlatFill(c.path, c.leaf);
    SortedMiddle(c.path, c.leaf);
    if p < |es| {
      LastOfItsLeaf(g, root, d, path, leaf, c);
    } else {
      FirstMoved(es, shift, p, Flat(root));
    }
  }

  /** Index of the first extent of the leaf at or after `start`, if any. */
  method FirstFrom(items: seq<Extent>, start: int) returns (j: nat)
    requires Sorted(items) && items != []
    ensures j <= |items| && (j > 0 ==> items[j - 1].block < start) && (j < |items| ==> start <= items[j].block)
    ensures items[0].block >= start <==> j == 0
  {
    if items[0].block >= start {
      return 0;
    }
    j := |items|;
    while items[j - 1].block >= start
      invariant 0 < j <= |items| && (j < |items| ==> start <= items[j].block)
      decreases j
    {
      j := j - 1;
    }
  }

  method ShiftItems(items: seq<Extent>, j: nat, shift: int, ghost es: seq<Extent>, ghost p: nat, ghost cur: seq<Extent>,
                    ghost pre: seq<Extent>, ghost post: seq<Extent>, ghost q: nat) returns (r: seq<Extent>)
    requires RoomRight(es, shift) && p <= |es| && GoingRight(es, shift, p, cur) && cur == pre + items + post
    requires |pre| + |items| == p && j < |items| && Sorted(items) && q == |pre| + j
    ensures 0 < |r| <= |items| && GoingRight(es, shift, q, pre + r + post)
    ensures r[0].block == items[0].block + if j == 0 then shift else 0
  {
    ItemsRoom(es, shift, p, cur, pre, items, post);
    r := ShiftLeafRight(items, j, shift);
    LeafBounds(items, shift, j, r);
    LeafShiftedRight(es, shift, p, cur, pre, items, post, j, r);
  }

  /** Moves the extents of the leaf from `j` on. */
  method MoveLeafRight(inode: Inode, c: Cursor, j: nat, shift: int, ghost es: seq<Extent>, ghost p: nat, ghost q: nat)
    returns (ghost path: EPath, ghost leaf: ENode)
    requires inode.Valid() && c.Ok() && c.pos >= 0 && |c.path| == inode.depth && inode.root == Fill(c.path, c.leaf)
    requires RoomRight(es, shift) && p <= |es| && GoingRight(es, shift, p, inode.Extents())
    requires |Pre(c.path)| + |c.leaf.items| == p && j < |c.leaf.items| && Sorted(c.leaf.items) && q == |Pre(c.path)| + j
    requires inode.Extents() == Pre(c.path) + c.leaf.items + Post(c.path)
    modifies inode
    ensures inode.Valid() && inode.depth == old(inode.depth) && GoingRight(es, shift, q, inode.Extents())
    ensures LeafAt(inode.g, inode.root, inode.depth, path, leaf, |Pre(c.path)|)
  {
    ghost var cur := inode.Extents();
    var r := ShiftItems(c.leaf.items, j, shift, es, p, cur, Pre(c.path), Post(c.path), q);
    var way := WriteLeaf(inode.g, inode.root, inode.depth, c, r, j == 0, shift);
    inode.root := Fill(way, Leaf(c.leaf.max, r));
    path, leaf := way, Leaf(c.leaf.max, r);
  }

  lemma {:induction false} ItemsRoom(es: seq<Extent>, shift: int, p: nat, cur: seq<Extent>, pre: seq<Extent>,
                                     items: seq<Extent>, post: seq<Extent>)
    requires p <= |es| && RoomRight(es, shift) && GoingRight(es, shift, p, cur) && items != [] && Sorted(items)
    requires cur == pre + items + post && |pre| + |items| == p
    ensures RoomRight(items, shift)
  {
    assert cur[p - 1] == items[|items| - 1] && cur[..p][p - 1] == es[..p][p - 1];
    assert ValidAt(es, |es| - 1) && (p < |es| ==> Ordered(es, p - 1, |es| - 1));
  }

  lemma {:induction false} LeafItems(es: seq<Extent>, shift: int, p: nat, cur: seq<Extent>, pre: seq<Extent>,
                                     items: seq<Extent>, post: seq<Extent>, j: nat)
    requires p <= |es| && GoingRight(es, shift, p, cur) && cur == pre + items + post && |pre| + |items| == p
             && j <= |items|
    ensures j > 0 ==> es[|pre| + j - 1] == items[j - 1]
    ensures j < |items| ==> es[|pre| + j] == items[j]
  {
    if j > 0 {
      assert cur[|pre| + j - 1] == items[j - 1] && cur[..p][|pre| + j - 1] == es[..p][|pre| + j - 1];
    }
    if j < |items| {
      assert cur[|pre| + j] == items[j] && cur[..p][|pre| + j] == es[..p][|pre| + j];
    }
  }

  /** Everything from `start` on, and only that, has moved. */
  ghost predicate RightDone(es: seq<Extent>, start: int, shift: int, p: nat, cur: seq<Extent>) {
    && p <= |es| && RoomRight(es, shift) && GoingRight(es, shift, p, cur)
    && (p > 0 ==> es[p - 1].block < start) && (p < |es| ==> start <= es[p].block)
  }

  lemma {:induction false} Continue(es: seq<Extent>, start: int, shift: int, p: nat, st: int, cur: seq<Extent>)
    requires RoomRight(es, shift) && p < |es| && GoingRight(es, shift, p, cur) && start < es[p].block
             && es[0].block <= start
    requires st == es[p].block - 1
    ensures p > 0 && start <= st && RightState(es, shift, p, st, cur)
  {
    assert p > 0 ==> ValidAt(es, p - 1) && Ordered(es, p - 1, p);
  }

  lemma {:induction false} StopHere(es: seq<Extent>, start: int, shift: int, p: nat, cur: seq<Extent>)
    requires RoomRight(es, shift) && p < |es| && GoingRight(es, shift, p, cur) && start <= es[p].block
    requires p > 0 ==> es[p - 1].block < start || es[p].block == start
    ensures RightDone(es, start, shift, p, cur)
  {
    assert p > 0 ==> ValidAt(es, p - 1) && Ordered(es, p - 1, p);
  }

  method MoveOn(inode: Inode, c: Cursor, j: nat, start: int, shift: int, ghost es: seq<Extent>, ghost p: nat)
    returns (more: bool, st': int, ghost p': nat, ghost path: EPath, ghost leaf: ENode)
    requires inode.Valid() && c.Ok() && c.pos >= 0 && |c.path| == inode.depth && inode.root == Fill(c.path, c.leaf)
    requires RoomRight(es, shift) && p <= |es| && GoingRight(es, shift, p, inode.Extents()) && es != []
             && es[0].block <= start
    requires |Pre(c.path)| + |c.leaf.items| == p && j < |c.leaf.items| && Sorted(c.leaf.items)
    requires inode.Extents() == Pre(c.path) + c.leaf.items + Post(c.path)
    requires (j > 0 ==> c.leaf.items[j - 1].block < start) && start <= c.leaf.items[j].block
    requires c.leaf.items[0].block >= start <==> j == 0
    modifies inode
    ensures inode.Valid() && p' < p
    ensures more ==> 0 < p' && start <= st' && RightState(es, shift, p', st', inode.Extents())
                     && LeafAt(inode.g, inode.root, inode.depth, path, leaf, p')
    ensures !more ==> RightDone(es, start, shift, p', inode.Extents())
  {
    ghost var cur, pre := inode.Extents(), Pre(c.path);
    var items := c.leaf.items;
    LeafItems(es, shift, p, cur, pre, items, Post(c.path), j);
    p' := |pre| + j;
    path, leaf := MoveLeafRight(inode, c, j, shift, es, p, p');
    more, st' := items[0].block > start, items[0].block - 1;
    if more {
      Continue(es, start, shift, p', st', inode.Extents());
    } else {
      StopHere(es, start, shift, p', inode.Extents());
    }
  }

  /** The search for the block before the moved extents ends in the leaf of the last one not
      yet moved, which is the last one of its leaf. */
  method LastUnmoved(inode: Inode, shift: int, st: int, ghost es: seq<Extent>, ghost p: nat, ghost path: EPath,
                     ghost leaf: ENode)
    returns (c: Cursor)
    requires inode.Valid() && p > 0 && RightState(es, shift, p, st, inode.Extents())
    requires p < |es| ==> LeafAt(inode.g, inode.root, inode.depth, path, leaf, p)
    ensures c.Ok() && c.pos >= 0 && |c.path| == inode.depth && inode.root == Fill(c.path, c.leaf)
    ensures |Pre(c.path)| + |c.leaf.items| == p && Sorted(c.leaf.items)
    ensures inode.Extents() == Pre(c.path) + c.leaf.items + Post(c.path)
  {
    c := Search(inode, st);
    StopsBefore(es, shift, p, st, inode.Extents(), c.Index());
    LeafEndsAt(inode.g, inode.root, inode.depth, es, shift, p, path, leaf, c);
  }

  /** One round: the leaf that holds the last extent not yet moved. */
  method StepRight(inode: Inode, start: int, shift: int, st: int, ghost es: seq<Extent>, ghost p: nat,
                   ghost path: EPath, ghost leaf: ENode)
    returns (more: bool, st': int, ghost p': nat, ghost path': EPath, ghost leaf': ENode)
    requires inode.Valid() && p > 0 && start <= st && RightState(es, shift, p, st, inode.Extents())
             && es[0].block <= start
    requires p < |es| ==> LeafAt(inode.g, inode.root, inode.depth, path, leaf, p)
    modifies inode
    ensures inode.Valid() && p' <= p
    ensures more ==> 0 < p' < p && start <= st' && RightState(es, shift, p', st', inode.Extents())
                     && LeafAt(inode.g, inode.root, inode.depth, path', leaf', p')
    ensures !more ==> RightDone(es, start, shift, p', inode.Extents())
  {
    var c := LastUnmoved(inode, shift, st, es, p, path, leaf);
    var j := FirstFrom(c.leaf.items, start);
    if j < |c.leaf.items| {
      more, st', p', path', leaf' := MoveOn(inode, c, j, start, shift, es, p);
    } else {
      NothingToMove(es, start, shift, p, st, inode.Extents(), Pre(c.path), c.leaf.items, Post(c.path));
      more, st', p', path', leaf' := false, st, p, path, leaf;
    }
  }

  lemma {:induction false} NothingToMove(es: seq<Extent>, start: int, shift: int, p: nat, st: int, cur: seq<Extent>,
                                         pre: seq<Extent>, items: seq<Extent>, post: seq<Extent>)
    requires p > 0 && start <= st && RightState(es, shift, p, st, cur)
    requires cur == pre + items + post && |pre| + |items| == p && items != [] && items[|items| - 1].block < start
    ensures RightDone(es, start, shift, p, cur)
  {
    LeafItems(es, shift, p, cur, pre, items, post, |items|);
  }

  /** Every mapping from `start` on has moved right by `shift`, leaving a hole; the others are
      as before. */
  ghost predicate ShiftedRight(before: seq<Extent>, after: seq<Extent>, start: int, shift: int) {
    forall b :: Lookup(after, b) == MovedRight(before, start, shift, b)
  }

  function MovedRight(es: seq<Extent>, start: int, shift: int, b: int): Option<Mapping> {
    if b >= start + shift then Lookup(es, b - shift) else if b >= start then None else Lookup(es, b)
  }

  ghost predicate Below(es: seq<Extent>, b: int) {
    forall i :: 0 <= i < |es| ==> es[i].End() <= b
  }

  ghost predicate From(es: seq<Extent>, b: int) {
    forall i :: 0 <= i < |es| ==> b <= es[i].block
  }

  lemma {:induction false} RightLookup(lo: seq<Extent>, hi: seq<Extent>, m: seq<Extent>, start: int, shift: int, b: int)
    requires 0 < shift && SameMap(MovedAll(hi, shift), m) && Below(lo, start) && From(hi, start)
    ensures Lookup(lo + m, b) == MovedRight(lo + hi, start, shift, b)
  {
    LookupConcat(lo, m, b);
    MovedLookup(hi, shift, b);
    LookupConcat(lo, hi, b);
    LookupConcat(lo, hi, b - shift);
    if b >= start {
      LookupMiss(lo, b);
    } else {
      LookupMiss(hi, b);
    }
    if b >= start + shift {
      LookupMiss(lo, b - shift);
    } else {
      LookupMiss(hi, b - shift);
    }
  }

  lemma {:induction false} RightFinished(es: seq<Extent>, start: int, shift: int, p: nat, cur: seq<Extent>)
    requires RightDone(es, start, shift, p, cur) && Boundary(es, start)
    ensures ShiftedRight(es, cur, start, shift) && SameUses(es, cur)
  {
    DoneSplits(es, start, p, es[..p], es[p..]);
    RightParts(es[..p], es[p..], cur[p..], start, shift);
    assert es[..p] + es[p..] == es;
    assert es[..p] + cur[p..] == cur;
  }

  lemma {:induction false} DoneSplits(es: seq<Extent>, start: int, p: nat, lo: seq<Extent>, hi: seq<Extent>)
    requires Sorted(es) && Boundary(es, start) && p <= |es| && lo == es[..p] && hi == es[p..]
    requires (p > 0 ==> es[p - 1].block < start) && (p < |es| ==> start <= es[p].block)
    ensures Below(lo, start) && From(hi, start)
  {
    SortedAll(es);
  }

  lemma {:induction false} RightParts(lo: seq<Extent>, hi: seq<Extent>, m: seq<Extent>, start: int, shift: int)
    requires 0 < shift && Same(MovedAll(hi, shift), m) && Below(lo, start) && From(hi, start)
    ensures ShiftedRight(lo + hi, lo + m, start, shift) && SameUses(lo + hi, lo + m)
  {
    RightUses(lo, hi, m, shift);
    forall b ensures Lookup(lo + m, b) == MovedRight(lo + hi, start, shift, b) {
      RightLookup(lo, hi, m, start, shift, b);
    }
  }

  lemma {:induction false} RightUses(lo: seq<Extent>, hi: seq<Extent>, m: seq<Extent>, shift: int)
    requires SameUses(MovedAll(hi, shift), m)
    ensures SameUses(lo + hi, lo + m)
  {
    forall x ensures Uses(lo + hi, x) == Uses(lo + m, x) {
      UsesConcat(lo, hi, x);
      UsesConcat(lo, m, x);
      MovedUses(hi, shift, x);
    }
  }

  lemma {:induction false} RightBegins(es: seq<Extent>, shift: int)
    requires RoomRight(es, shift) && es != []
    ensures RightState(es, shift, |es|, es[|es| - 1].block, es)
  {
    assert es[..|es|] == es && es[|es|..] == [] && MovedAll(es[|es|..], shift) == [];
  }

  /** Moved right by `shift`, the last extent would leave the address space. */
  predicate LeavesSpace(es: seq<Extent>, shift: int) {
    es != [] && shift > EXT_MAX_BLOCKS - es[|es| - 1].End()
  }

  /** ext4_ext_shift_extents to the right, for a file that begins at or before `start`. It
      refuses exactly when the last extent would leave the address space; otherwise every
      mapping from `start` on moves right by `shift`, keeping its address and state, leaving
      a hole behind, and nothing else changes. */
  method ShiftRight(inode: Inode, start: int, shift: int) returns (ret: int)
    requires inode.Valid() && 0 < shift && Boundary(inode.Extents(), start)
    requires inode.Extents() != [] ==> inode.Extents()[0].block <= start
    modifies inode
    ensures inode.Valid()
    ensures ret == if LeavesSpace(old(inode.Extents()), shift) then -EINVAL else 0
    ensures ret == 0 ==> ShiftedRight(old(inode.Extents()), inode.Extents(), start, shift)
    ensures ret != 0 ==> inode.Extents() == old(inode.Extents())
    ensures SameUses(old(inode.Extents()), inode.Extents())
  {
    ghost var es := inode.Extents();
    var c := Search(inode, EXT_MAX_BLOCKS - 1);
    if c.pos == -1 {
      return 0;
    }
    LastIsNearest(es, c.Index());
    var last := c.leaf.items[c.pos];
    if shift > EXT_MAX_BLOCKS - last.End() {
      return -EINVAL;
    }
    var st, more := last.block, true;
    ghost var p: nat, path: EPath, leaf: ENode := |es|, c.path, c.leaf;
    RightBegins(es, shift);
    while more && start <= st
      invariant inode.Valid() && p <= |es|
      invariant more ==> 0 < p && RightState(es, shift, p, st, inode.Extents()) && (p < |es| ==> start <= st)
      invariant more && p < |es| ==> LeafAt(inode.g, inode.root, inode.depth, path, leaf, p)
      invariant !more ==> RightDone(es, start, shift, p, inode.Extents())
      decreases more, p
    {
      more, st, p, path, leaf := StepRight(inode, start, shift, st, es, p, path, leaf);
    }
    RightFinished(es, start, shift, p, inode.Extents());
    return 0;
  }

  // ---------------------------------------- a file that begins after `start`

  /** The loop body on a file of one leaf that begins after `start`: all of it moves, and the
      cursor goes to the block before its old beginning, which is not before `start`. */
  method RoundFromHole(inode: Inode, start: int, shift: int, st: int) returns (st': int)
    requires inode.Valid() && inode.depth == 0 && inode.Extents() != [] && start < inode.Extents()[0].block
    requires RoomRight(inode.Extents(), shift)
    modifies inode
    ensures inode.Valid() && inode.depth == 0 && Compacts(MovedAll(old(inode.Extents()), shift), inode.Extents())
    ensures start <= st' == old(inode.Extents())[0].block - 1
  {
    ghost var es := inode.Extents();
    RightBegins(es, shift);
    var c := Search(inode, st);
    assert c.path == [] && c.leaf.items == es;
    var j := FirstFrom(c.leaf.items, start);
    ghost var path, leaf := MoveLeafRight(inode, c, j, shift, es, |es|, 0);
    assert es[0..] == es && inode.Extents()[0..] == inode.Extents();
    st' := c.leaf.items[j].block - 1;
  }

  lemma {:induction false} RoundsMove(es: seq<Extent>, k: int, cur: seq<Extent>, shift: int, next: seq<Extent>)
    requires SameMap(MovedAll(es, k), cur) && SameMap(MovedAll(cur, shift), next)
    ensures SameMap(MovedAll(es, k + shift), next)
  {
    forall x ensures Lookup(MovedAll(es, k + shift), x) == Lookup(next, x) {
      MovedLookup(es, k + shift, x);
      MovedLookup(cur, shift, x);
      MovedLookup(es, k, x - shift);
    }
  }

  /** Moving the whole file by k is moving it right by `shift` from before its beginning on
      exactly when k is `shift`. */
  lemma {:induction false} OnlyOnceIsRight(es: seq<Extent>, k: int, cur: seq<Extent>, start: int, shift: int)
    requires Sorted(es) && es != [] && start < es[0].block && 0 < shift && SameMap(MovedAll(es, k), cur)
    ensures ShiftedRight(es, cur, start, shift) <==> k == shift
  {
    SortedAll(es);
    var first := es[0].block;
    if k == shift {
      forall b ensures Lookup(cur, b) == MovedRight(es, start, shift, b) {
        MovedLookup(es, k, b);
        if b < start + shift {
          LookupMiss(es, b - shift);
          LookupMiss(es, if b < start then b else b - shift);
        }
      }
    } else if k > shift {
      MovedLookup(es, k, first + shift);
      LookupMiss(es, first + shift - k);
      LookupHit(es, 0, first);
      assert MovedRight(es, start, shift, first + shift) != Lookup(cur, first + shift);
    } else {
      MovedLookup(es, k, first + k);
      LookupHit(es, 0, first);
      LookupMiss(es, first + k - shift);
      LookupMiss(es, first + k - shift);
      assert first + k < start ==> MovedRight(es, start, shift, first + k) == Lookup(es, first + k);
      if first + k < start {
        LookupMiss(es, first + k);
      }
      assert MovedRight(es, start, shift, first + k) != Lookup(cur, first + k);
    }
  }

  /** Any number of rounds, as far as there is room: after each of them the loop goes on, and
      only after the first is the file shifted as asked. So a caller has to start at or after
      the first extent, and callers do. */
  method RoundsFromHole(inode: Inode, start: int, shift: int, rounds: nat) returns (st: int)
    requires inode.Valid() && inode.depth == 0 && inode.Extents() != [] && start < inode.Extents()[0].block && 0 < shift
    requires inode.Extents()[|inode.Extents()| - 1].End() + rounds * shift <= EXT_MAX_BLOCKS
    modifies inode
    ensures inode.Valid() && SameMap(MovedAll(old(inode.Extents()), rounds * shift), inode.Extents())
    ensures start <= st
    ensures ShiftedRight(old(inode.Extents()), inode.Extents(), start, shift) <==> rounds == 1
  {
    ghost var es := inode.Extents();
    SortedAll(es);
    st := EXT_MAX_BLOCKS;
    var i := 0;
    assert MovedAll(es, 0) == es;
    while i < rounds
      invariant 0 <= i <= rounds && inode.Valid() && inode.depth == 0 && start <= st
      invariant Standing(es, i, shift, inode.Extents())
    {
      ghost var cur := inode.Extents();
      StandingRoom(es, i, rounds, shift, cur);
      st := RoundFromHole(inode, start, shift, st);
      StandingNext(es, i, shift, cur, inode.Extents());
      i := i + 1;
    }
    OnlyOnceIsRight(es, rounds * shift, inode.Extents(), start, shift);
    assert rounds * shift == shift <==> rounds == 1 by {
      Times(rounds, shift);
    }
  }

  lemma {:induction false} Times(n: nat, k: int)
    requires 0 < k
    ensures n * k == k <==> n == 1
    ensures n >= 2 ==> n * k >= 2 * k
  {
    if n >= 2 {
      assert n * k == 2 * k + (n - 2) * k;
    }
  }

  /** After `i` rounds the whole file has moved by i times `shift`. */
  ghost predicate Standing(es: seq<Extent>, i: int, shift: int, cur: seq<Extent>) {
    && Sorted(cur) && SameMap(MovedAll(es, i * shift), cur) && cur != [] && es != []
    && cur[0].block == es[0].block + i * shift && cur[|cur| - 1].End() == es[|es| - 1].End() + i * shift
  }

  lemma {:induction false} StandingRoom(es: seq<Extent>, i: nat, rounds: nat, shift: int, cur: seq<Extent>)
    requires Standing(es, i, shift, cur) && i < rounds && 0 < shift
    requires es[|es| - 1].End() + rounds * shift <= EXT_MAX_BLOCKS
    ensures RoomRight(cur, shift) && es[0].block <= cur[0].block
  {
    MoreRounds(i, rounds, shift);
  }

  lemma {:induction false} MoreRounds(i: nat, rounds: nat, shift: int)
    requires i < rounds && 0 < shift
    ensures 0 <= i * shift && i * shift + shift <= rounds * shift
    decreases rounds
  {
    if i + 1 < rounds {
      MoreRounds(i, rounds - 1, shift);
      assert rounds * shift == (rounds - 1) * shift + shift;
    } else {
      assert rounds * shift == i * shift + shift;
    }
  }

  lemma {:induction false} StandingNext(es: seq<Extent>, i: nat, shift: int, cur: seq<Extent>, next: seq<Extent>)
    requires Standing(es, i, shift, cur) && RoomRight(cur, shift) && Compacts(MovedAll(cur, shift), next)
    ensures Standing(es, i + 1, shift, next)
  {
    assert (i + 1) * shift == i * shift + shift;
    assert ValidAt(cur, 0);
    MovedSorted(cur, shift);
    CompactsBounds(MovedAll(cur, shift), next);
    RoundsMove(es, i * shift, cur, shift, next);
  }

  /** Where the only extent of a file, now at block `b`, is when the loop of the right shift ends,
      if it does within `n` moves. Block numbers have 32 bits; the loop goes on as long as the
      extent is found beyond `start`, and ends after one more move if it is found there. */
  function LoopEnd(b: int, start: int, shift: int, n: nat): Option<int>
    decreases n
  {
    if b < start then Some(b)
    else if n == 0 then None
    else if b == start then Some((b + shift) % U32)
    else LoopEnd((b + shift) % U32, start, shift, n - 1)
  }

  lemma {:induction false} LoopEnds(b: int, start: int, shift: int, n: nat)
    requires 0 <= start && start + shift < U32 && 0 < shift && LoopEnd(b, start, shift, n).Some?
    ensures var end := LoopEnd(b, start, shift, n).value; end < start || end == start + shift
    decreases n
  {
    if b > start {
      LoopEnds((b + shift) % U32, start, shift, n - 1);
    }
  }

  /** Going on past the end of the address space does not help: wherever the loop ends, that is
      not where the extent was to go. */
  lemma {:induction false} AroundIsWrong(e: Extent, n: nat, start: int, shift: int)
    requires e.Valid() && 0 <= start < e.block && 0 < shift && start + shift < U32
    requires LoopEnd(e.block, start, shift, n).Some?
    ensures !ShiftedRight([e], [e.(block := LoopEnd(e.block, start, shift, n).value)], start, shift)
  {
    var end := LoopEnd(e.block, start, shift, n).value;
    LoopEnds(e.block, start, shift, n);
    var f := e.(block := end);
    assert [e][1..] == [] && [f][1..] == [];
    assert Lookup([f], end) == Some(f.At(end));
    if end >= start {
      assert MovedRight([e], start, shift, end) == Lookup([e], start) == None;
    } else {
      assert MovedRight([e], start, shift, end) == Lookup([e], end) == None;
    }
  }

  /** ... and it need not end: an extent at block 5 that moves by 2^31 comes back to block 5. */
  lemma {:induction false} NeverAround(n: nat)
    ensures LoopEnd(5, 0, 0x8000_0000, n) == None && LoopEnd(5 + 0x8000_0000, 0, 0x8000_0000, n) == None
  {
    if n > 0 {
      NeverAround(n - 1);
      assert (5 + 0x8000_0000) % U32 == 5 + 0x8000_0000 && (5 + 0x8000_0000 + 0x8000_0000) % U32 == 5;
    }
  }

  /** Moving right and then left by the same distance is the identity. */
  lemma {:induction false} RightThenLeft(es: seq<Extent>, a: seq<Extent>, b: seq<Extent>, start: int, shift: int)
    requires ShiftedRight(es, a, start, shift) && ShiftedLeft(a, b, start + shift, shift) && 0 < shift
    ensures SameMap(es, b)
  {
    forall x ensures Lookup(es, x) == Lookup(b, x) {
      assert Lookup(b, x) == Lookup(a, if x >= start then x + shift else x);
      var y := if x >= start then x + shift else x;
      assert Lookup(a, y) == MovedRight(es, start, shift, y);
    }
  }

  /** ... and after moving right, moving left is not refused. */
  lemma {:induction false} RightAllowsLeft(es: seq<Extent>, a: seq<Extent>, start: int, shift: int)
    requires ShiftedRight(es, a, start, shift) && Sorted(a) && 0 < shift
    ensures Boundary(a, start + shift) && HoleAt(a, start, start + shift)
  {
    forall b | start <= b < start + shift ensures !Mapped(a, b) {
      assert Lookup(a, b) == MovedRight(es, start, shift, b);
    }
    forall i | 0 <= i < |a| ensures a[i].End() <= start + shift || start + shift <= a[i].block {
      if a[i].Covers(start + shift - 1) {
        LookupHit(a, i, start + shift - 1);
      }
    }
  }

  lemma {:induction false} SameUsesTrans(a: seq<Extent>, b: seq<Extent>, c: seq<Extent>)
    requires SameUses(a, b) && SameUses(b, c)
    ensures SameUses(a, c)
  {
  }

  /** Shifting right and back left leaves the file as it was. */
  method ShiftRightAndBack(inode: Inode, start: int, shift: int) returns (ret: int)
    requires inode.Valid() && 0 < shift && 0 <= start && start + shift < U32 && Boundary(inode.Extents(), start)
    requires inode.Extents() != [] ==> inode.Extents()[0].block <= start
    modifies inode
    ensures inode.Valid() && Same(old(inode.Extents()), inode.Extents())
    ensures ret == if LeavesSpace(old(inode.Extents()), shift) then -EINVAL else 0
  {
    ghost var es := inode.Extents();
    ret := ShiftRight(inode, start, shift);
    if ret != 0 {
      return;
    }
    ghost var a := inode.Extents();
    RightAllowsLeft(es, a, start, shift);
    assert HoleAt(a, start + shift - shift, start + shift);
    ret := ShiftLeft(inode, start + shift, shift);
    RightThenLeft(es, a, inode.Extents(), start, shift);
    SameUsesTrans(es, a, inode.Extents());
  }
}
