/**
 do_split on one directory block: its live entries, ordered by hash, are dealt out to two
 blocks. The hash map is kept at the end of the second block while that block is being
 filled from its start.
 */
module DoSplit {
  import opened DirBlock
  import opened DxSort

  const MAP_BYTES: nat := 8

  // ---------------------------------------------------------------- the map

  ghost predicate MapsRecord(recs: seq<Rec>, m: MapEntry) {
    m.at < |recs| && recs[m.at].Live() && m.hash == recs[m.at].hash && m.size == recs[m.at].recLen
  }

  ghost predicate Distinct(ms: seq<MapEntry>) {
    forall i, j :: 0 <= i < j < |ms| ==> ms[i].at != ms[j].at
  }

  ghost predicate Listed(ms: seq<MapEntry>, k: nat) {
    exists j :: 0 <= j < |ms| && ms[j].at == k
  }

  /** The map lists every live record once, with its hash and length. */
  ghost predicate MapLists(recs: seq<Rec>, ms: seq<MapEntry>) {
    && (forall j :: 0 <= j < |ms| ==> MapsRecord(recs, ms[j]))
    && Distinct(ms)
    && (forall k :: 0 <= k < |recs| && recs[k].Live() ==> Listed(ms, k))
  }

  ghost predicate MapOk(recs: seq<Rec>, ms: seq<MapEntry>) {
    MapLists(recs, ms) && |ms| == |LiveOf(recs)|
  }

  /** A map of the first `k` records. */
  ghost predicate MapTo(recs: seq<Rec>, k: nat, ms: seq<MapEntry>)
    requires k <= |recs|
  {
    && (forall j :: 0 <= j < |ms| ==> MapsRecord(recs, ms[j]) && ms[j].at < k)
    && Distinct(ms)
    && (forall i :: 0 <= i < k && recs[i].Live() ==> Listed(ms, i))
    && |ms| == |LiveOf(recs[..k])|
  }

  lemma {:induction false} StillListed(m: MapEntry, ms: seq<MapEntry>, i: nat)
    requires Listed(ms, i)
    ensures Listed([m] + ms, i)
  {
    var j :| 0 <= j < |ms| && ms[j].at == i;
    assert ([m] + ms)[j + 1].at == i;
  }

  lemma {:induction false} MapAdd(recs: seq<Rec>, k: nat, ms: seq<MapEntry>)
    requires k < |recs| && MapTo(recs, k, ms)
    ensures MapTo(recs, k + 1, if recs[k].Live() then [MapEntry(recs[k].hash, k, recs[k].recLen)] + ms else ms)
  {
    assert |LiveOf(recs[..k + 1])| == |LiveOf(recs[..k])| + |One(recs[k])| by {
      LiveAround(recs, k);
    }
    if recs[k].Live() {
      var m := MapEntry(recs[k].hash, k, recs[k].recLen);
      assert ([m] + ms)[0] == m;
      forall i | 0 <= i < k + 1 && recs[i].Live() ensures Listed([m] + ms, i) {
        if i < k {
          StillListed(m, ms, i);
        }
      }
    }
  }

  /** dx_make_map: walks the block and writes the map downwards from its end. */
  method MakeMap(recs: seq<Rec>) returns (ms: seq<MapEntry>)
    ensures MapOk(recs, ms)
  {
    ms := [];
    assert recs[..0] == [];
    for k := 0 to |recs|
      invariant MapTo(recs, k, ms)
    {
      MapAdd(recs, k, ms);
      if recs[k].Live() {
        ms := [MapEntry(recs[k].hash, k, recs[k].recLen)] + ms;
      }
    }
    assert recs[..|recs|] == recs;
  }

  lemma {:induction false} CountOnce(ms: seq<MapEntry>, i: nat)
    requires Distinct(ms) && i < |ms|
    ensures multiset(ms)[ms[i]] == 1
  {
    assert ms == ms[..i] + [ms[i]] + ms[i + 1..];
    assert ms[i] !in ms[..i] && ms[i] !in ms[i + 1..];
  }

  lemma {:induction false} CountTwice(ms: seq<MapEntry>, i: nat, j: nat)
    requires i < j < |ms| && ms[i] == ms[j]
    ensures multiset(ms)[ms[i]] >= 2
  {
    assert ms == ms[..j] + [ms[j]] + ms[j + 1..];
    assert ms[..j][i] == ms[i];
  }

  /** Sorting keeps the map a map of the block. */
  lemma {:induction false} PermutedMap(recs: seq<Rec>, a: seq<MapEntry>, b: seq<MapEntry>)
    requires MapOk(recs, a) && Permutes(a, b)
    ensures MapOk(recs, b)
  {
    forall j | 0 <= j < |b| ensures MapsRecord(recs, b[j]) {
      assert b[j] in multiset(b);
    }
    forall i, j | 0 <= i < j < |b| ensures b[i].at != b[j].at {
      if b[i].at == b[j].at {
        assert b[i] in multiset(b) && b[j] in multiset(b);
        var p :| 0 <= p < |a| && a[p] == b[i];
        var q :| 0 <= q < |a| && a[q] == b[j];
        assert p == q;
        CountOnce(a, p);
        CountTwice(b, i, j);
      }
    }
    forall k | 0 <= k < |recs| && recs[k].Live() ensures Listed(b, k) {
      var j :| 0 <= j < |a| && a[j].at == k;
      assert a[j] in multiset(a);
      var i :| 0 <= i < |b| && b[i] == a[j];
    }
    assert |multiset(a)| == |a| && |multiset(b)| == |b|;
  }

  // ------------------------------------------------------------ where to cut

  /** Bytes of the records listed. */
  function SizeSum(ms: seq<MapEntry>): nat {
    if ms == [] then 0 else ms[0].size + SizeSum(ms[1..])
  }

  /** Not more than half of record `i` would be in the upper half of a block that holds the
      records listed after it. */
  ghost predicate Passes(ms: seq<MapEntry>, i: int, blocksize: nat)
    requires 0 <= i < |ms|
  {
    SizeSum(ms[i + 1..]) + ms[i].size / 2 <= blocksize / 2
  }

  /** Going down the map, the first record that does not pass, or -1. */
  ghost predicate StopsAt(ms: seq<MapEntry>, stop: int, blocksize: nat) {
    && -1 <= stop < |ms|
    && (forall j :: stop < j < |ms| ==> Passes(ms, j, blocksize))
    && (stop >= 0 ==> !Passes(ms, stop, blocksize))
  }

  /** Goes down the map and counts how many entries may move. */
  method CountMoves(m: array<MapEntry>, blocksize: nat) returns (i: int, move: nat)
    ensures StopsAt(m[..], i, blocksize) && move == m.Length - 1 - i
  {
    ghost var ms := m[..];
    var size := 0;
    move, i := 0, m.Length - 1;
    while i >= 0 && size + m[i].size / 2 <= blocksize / 2
      invariant -1 <= i < m.Length && move == m.Length - 1 - i
      invariant size == SizeSum(ms[i + 1..]) && AllPass(ms, i, blocksize)
    {
      PassOne(ms, i, blocksize);
      size := size + m[i].size;
      move := move + 1;
      i := i - 1;
    }
  }

  /** The first entry that moves to the new block: never the first of all, never none. */
  method SplitIndex(m: array<MapEntry>, blocksize: nat) returns (split: nat, ghost stop: int)
    requires m.Length >= 2 && forall j :: 0 <= j < m.Length ==> m[j].size <= blocksize
    ensures 1 <= split < m.Length
    ensures StopsAt(m[..], stop, blocksize) && split == if stop > 0 then stop + 1 else m.Length / 2
    ensures forall j :: stop < j < m.Length ==> SizeSum(m[..][j + 1..]) + m[..][j].size / 2 <= blocksize / 2
    ensures stop >= 0 ==> SizeSum(m[..][stop + 1..]) + m[..][stop].size / 2 > blocksize / 2
  {
    var i, move := CountMoves(m, blocksize);
    stop := i;
    StopBytes(m[..], i, blocksize);
    LastPasses(m[..], blocksize);
    if i > 0 {
      split := m.Length - move;
    } else {
      split := m.Length / 2;
    }
  }

  /** The cut in bytes: down to where it stops, half of each record still fits into half the block
      with those above it, and there it does not. */
  lemma {:induction false} StopBytes(ms: seq<MapEntry>, stop: int, blocksize: nat)
    requires StopsAt(ms, stop, blocksize)
    ensures forall j :: stop < j < |ms| ==> SizeSum(ms[j + 1..]) + ms[j].size / 2 <= blocksize / 2
    ensures stop >= 0 ==> SizeSum(ms[stop + 1..]) + ms[stop].size / 2 > blocksize / 2
  {
    forall j | stop < j < |ms| ensures SizeSum(ms[j + 1..]) + ms[j].size / 2 <= blocksize / 2 {
      assert Passes(ms, j, blocksize);
    }
  }

  ghost predicate AllPass(ms: seq<MapEntry>, i: int, blocksize: nat) {
    forall j :: 0 <= j < |ms| && i < j ==> Passes(ms, j, blocksize)
  }

  lemma {:induction false} PassOne(ms: seq<MapEntry>, i: nat, blocksize: nat)
    requires i < |ms| && AllPass(ms, i, blocksize) && Passes(ms, i, blocksize)
    ensures SizeSum(ms[i..]) == ms[i].size + SizeSum(ms[i + 1..]) && AllPass(ms, i - 1, blocksize)
  {
    assert ms[i..][1..] == ms[i + 1..];
  }

  lemma {:induction false} LastPasses(ms: seq<MapEntry>, blocksize: nat)
    requires ms != [] && ms[|ms| - 1].size <= blocksize
    ensures Passes(ms, |ms| - 1, blocksize)
  {
    assert ms[|ms|..] == [];
  }

  // ---------------------------------------------------------- moving entries

  /** Bytes the live entries need at least. */
  function Need(recs: seq<Rec>): nat {
    if recs == [] then 0 else (if recs[0].Live() then MinLen(|recs[0].name|) else 0) + Need(recs[1..])
  }

  lemma {:induction false} NeedConcat(a: seq<Rec>, b: seq<Rec>)
    ensures Need(a + b) == Need(a) + Need(b)
  {
    if a == [] {
      assert a + b == b;
    } else {
      assert (a + b)[1..] == a[1..] + b;
      NeedConcat(a[1..], b);
    }
  }

  lemma {:induction false} NeedBounds(recs: seq<Rec>)
    requires AllValid(recs)
    ensures 12 * |LiveOf(recs)| <= Need(recs) <= Total(recs)
  {
    if recs != [] {
      assert recs[0].Valid();
      NeedBounds(recs[1..]);
    }
  }

  /** dx_move_dirents leaves the length of a record it has copied and wipes the rest. */
  function Wiped(r: Rec): Rec {
    Rec(0, r.recLen, "", 0)
  }

  lemma {:induction false} WipeNeed(recs: seq<Rec>, k: nat)
    requires k < |recs| && recs[k].Live()
    ensures Need(recs[k := Wiped(recs[k])]) == Need(recs) - MinLen(|recs[k].name|)
  {
    var r, w := recs[k], Wiped(recs[k]);
    var a, b := recs[..k], recs[k + 1..];
    assert recs == a + [r] + b && recs[k := w] == a + [w] + b;
    NeedConcat(a + [r], b);
    NeedConcat(a, [r]);
    NeedConcat(a + [w], b);
    NeedConcat(a, [w]);
    assert [r][1..] == [] && [w][1..] == [];
  }

  lemma {:induction false} MiddleOut<T>(a: seq<T>, x: T, b: seq<T>)
    ensures multiset(a + [x] + b) == multiset(a + b) + multiset{x}
  {
  }

  lemma {:induction false} WipeTotal(recs: seq<Rec>, k: nat)
    requires k < |recs|
    ensures Total(recs[k := Wiped(recs[k])]) == Total(recs)
  {
    assert recs[k := Wiped(recs[k])] == Spliced(recs, k, [Wiped(recs[k])]);
    SpliceTotals(recs, k, [Wiped(recs[k])]);
    Single(Wiped(recs[k]));
  }

  lemma {:induction false} WipeLive(recs: seq<Rec>, k: nat)
    requires k < |recs| && recs[k].Live()
    ensures multiset(LiveOf(recs)) == multiset(LiveOf(recs[k := Wiped(recs[k])])) + multiset{recs[k].Ent()}
  {
    var a, w, b := recs[..k], [Wiped(recs[k])], recs[k + 1..];
    assert recs[k := Wiped(recs[k])] == Spliced(recs, k, w);
    assert LiveOf(Spliced(recs, k, w)) == LiveOf(a) + LiveOf(b) by {
      SpliceTotals(recs, k, w);
      Single(Wiped(recs[k]));
      assert LiveOf(a) + [] == LiveOf(a);
    }
    LiveAround(recs, k);
    MiddleOut(LiveOf(a), recs[k].Ent(), LiveOf(b));
  }

  /** Byte where entry `j` of a map of `count` entries lies in the second block. */
  function MapByte(blocksize: int, count: nat, j: int): int {
    blocksize - MAP_BYTES * (count - j)
  }

  predicate Overlaps(blocksize: int, count: nat, j: int, to: int, len: int) {
    MapByte(blocksize, count, j) < to + len && to < MapByte(blocksize, count, j) + MAP_BYTES
  }

  /** Copying a record to bytes to, ..., to+len-1 of the second block overwrites whatever
      part of the map lies there with `junk`. */
  method CopyOver(m: array<MapEntry>, blocksize: nat, to: int, len: nat, junk: MapEntry)
    modifies m
    ensures forall j :: 0 <= j < m.Length ==>
              m[j] == if Overlaps(blocksize, m.Length, j, to, len) then junk else old(m[j])
  {
    for j := 0 to m.Length
      invariant forall i :: 0 <= i < m.Length ==>
                  m[i] == if i < j && Overlaps(blocksize, m.Length, i, to, len) then junk else old(m[i])
    {
      if Overlaps(blocksize, m.Length, j, to, len) {
        m[j] := junk;
      }
    }
  }

  /** Entries j, ... of the map have not been read yet. What is already in the second
      block ends at `to`; the records left behind are `recs`, those copied are `out`. */
  ghost predicate Moving(recs0: seq<Rec>, ms: seq<MapEntry>, recs: seq<Rec>, out: seq<Rec>, to: int, j: nat,
                         split: nat) {
    && |recs| == |recs0| && split <= j <= |ms| && |out| == j - split
    && Room(recs0, recs, out, to) && SameEntries(recs0, recs, out)
    && Kept(recs0, ms, recs, j, split) && Dealt(recs0, ms, out, split)
  }

  ghost predicate Room(recs0: seq<Rec>, recs: seq<Rec>, out: seq<Rec>, to: int) {
    && AllValid(recs) && Packed(out)
    && to == Total(out) && Total(recs) == Total(recs0) && to + Need(recs) <= Total(recs0)
  }

  /** The entries of the two blocks are those of the block split. */
  ghost predicate SameEntries(recs0: seq<Rec>, a: seq<Rec>, b: seq<Rec>) {
    multiset(LiveOf(a)) + multiset(LiveOf(b)) == multiset(LiveOf(recs0))
  }

  /** Live records as short as they can be. */
  ghost predicate Packed(recs: seq<Rec>) {
    forall i :: 0 <= i < |recs| ==> recs[i].Valid() && recs[i].Live() && recs[i].recLen == MinLen(|recs[i].name|)
  }

  /** Exactly the records listed at split, ..., j-1 have been wiped. */
  ghost predicate Kept(recs0: seq<Rec>, ms: seq<MapEntry>, recs: seq<Rec>, j: nat, split: nat)
    requires |recs| == |recs0|
  {
    && (forall i :: 0 <= i < |ms| && ms[i].at < |recs| ==>
          recs[ms[i].at] == if split <= i < j then Wiped(recs0[ms[i].at]) else recs0[ms[i].at])
    && (forall k :: 0 <= k < |recs| ==> recs[k] == recs0[k] || !recs[k].Live())
  }

  ghost predicate Dealt(recs0: seq<Rec>, ms: seq<MapEntry>, out: seq<Rec>, split: nat) {
    forall i :: 0 <= i < |out| && split + i < |ms| && ms[split + i].at < |recs0| ==>
      out[i].Ent() == recs0[ms[split + i].at].Ent()
  }

  lemma {:induction false} KeptStep(recs0: seq<Rec>, ms: seq<MapEntry>, recs: seq<Rec>, j: nat, split: nat)
    requires |recs| == |recs0| && MapOk(recs0, ms) && split <= j < |ms| && Kept(recs0, ms, recs, j, split)
    ensures ms[j].at < |recs| && recs[ms[j].at] == recs0[ms[j].at] && recs0[ms[j].at].Live()
    ensures Kept(recs0, ms, recs[ms[j].at := Wiped(recs[ms[j].at])], j + 1, split)
  {
    assert MapsRecord(recs0, ms[j]);
    var s := recs[ms[j].at := Wiped(recs[ms[j].at])];
    forall i | 0 <= i < |ms| && ms[i].at < |s|
      ensures s[ms[i].at] == if split <= i < j + 1 then Wiped(recs0[ms[i].at]) else recs0[ms[i].at]
    {
      assert i != j ==> ms[i].at != ms[j].at;
    }
  }

  /** A record cut down to what its name needs. */
  function Short(r: Rec): Rec {
    r.(recLen := MinLen(|r.name|))
  }

  lemma {:induction false} ShortValid(r: Rec)
    requires r.Valid() && r.Live()
    ensures Short(r).Valid() && Wiped(r).Valid()
  {
  }

  lemma {:induction false} RoomStep(recs0: seq<Rec>, recs: seq<Rec>, out: seq<Rec>, to: int, k: nat)
    requires Room(recs0, recs, out, to) && k < |recs| && recs[k].Live()
    ensures Room(recs0, recs[k := Wiped(recs[k])], out + [Short(recs[k])], to + Short(recs[k]).recLen)
  {
    ShortValid(recs[k]);
    WipeNeed(recs, k);
    assert Total(recs[k := Wiped(recs[k])]) == Total(recs) by {
      WipeTotal(recs, k);
    }
    assert Total(out + [Short(recs[k])]) == Total(out) + Short(recs[k]).recLen by {
      Single(Short(recs[k]));
      TotalConcat(out, [Short(recs[k])]);
    }
  }

  lemma {:induction false} SameEntriesStep(recs0: seq<Rec>, recs: seq<Rec>, out: seq<Rec>, k: nat)
    requires SameEntries(recs0, recs, out) && k < |recs| && recs[k].Live()
    ensures SameEntries(recs0, recs[k := Wiped(recs[k])], out + [Short(recs[k])])
  {
    WipeLive(recs, k);
    Single(Short(recs[k]));
    LiveConcat(out, [Short(recs[k])]);
    assert One(Short(recs[k])) == [recs[k].Ent()];
  }

  lemma {:induction false} MoveStep(recs0: seq<Rec>, ms: seq<MapEntry>, recs: seq<Rec>, out: seq<Rec>, to: int,
                                    j: nat, split: nat)
    requires MapOk(recs0, ms) && j < |ms| && Moving(recs0, ms, recs, out, to, j, split)
    ensures ms[j].at < |recs|
    ensures var r := recs[ms[j].at];
            Moving(recs0, ms, recs[ms[j].at := Wiped(r)], out + [Short(r)], to + Short(r).recLen, j + 1, split)
  {
    KeptStep(recs0, ms, recs, j, split);
    var k := ms[j].at;
    RoomStep(recs0, recs, out, to, k);
    SameEntriesStep(recs0, recs, out, k);
  }

  /** The copies never reach a map entry that is still to be read. */
  lemma {:induction false} NoClobber(recs0: seq<Rec>, ms: seq<MapEntry>, recs: seq<Rec>, out: seq<Rec>, to: int,
                                     len: int, j: nat, split: nat, blocksize: int)
    requires MapOk(recs0, ms) && Moving(recs0, ms, recs, out, to + len, j, split) && Total(recs0) <= blocksize
    ensures forall i :: j <= i < |ms| ==> !Overlaps(blocksize, |ms|, i, to, len)
  {
    NeedBounds(recs);
    assert |multiset(LiveOf(recs))| + |multiset(LiveOf(out))| == |multiset(LiveOf(recs0))|;
    PackedSize(out);
  }

  lemma {:induction false} PackedSize(out: seq<Rec>)
    requires Packed(out)
    ensures |LiveOf(out)| == |out|
  {
    if out != [] {
      PackedSize(out[1..]);
    }
  }

  /** dx_move_dirents: copies the entries listed from `split` on to the second block, whose
      end holds the map `m`, and wipes them in the first. */
  method MoveDirents(recs0: seq<Rec>, m: array<MapEntry>, split: nat, blocksize: nat, junk: MapEntry)
    returns (recs: seq<Rec>, out: seq<Rec>)
    requires MapOk(recs0, m[..]) && AllValid(recs0) && Total(recs0) <= blocksize && split <= m.Length
    modifies m
    ensures Moving(recs0, old(m[..]), recs, out, Total(out), m.Length, split)
  {
    ghost var ms := m[..];
    var to, j := 0, split;
    recs, out := recs0, [];
    NeedBounds(recs0);
    while j < m.Length
      invariant split <= j <= m.Length && Moving(recs0, ms, recs, out, to, j, split)
      invariant Unread(m, ms, j)
    {
      MoveStep(recs0, ms, recs, out, to, j, split);
      var r := recs[m[j].at];
      recs, out := recs[m[j].at := Wiped(r)], out + [Short(r)];
      CopyRecord(recs0, ms, recs, out, m, split, j, blocksize, to, Short(r).recLen, junk);
      to, j := to + Short(r).recLen, j + 1;
    }
  }

  /** Entries from `j` on are still as they were. */
  ghost predicate Unread(m: array<MapEntry>, ms: seq<MapEntry>, j: nat)
    reads m
  {
    m.Length == |ms| && forall i :: j <= i < |ms| ==> m[i] == ms[i]
  }

  method CopyRecord(ghost recs0: seq<Rec>, ghost ms: seq<MapEntry>, ghost recs: seq<Rec>, ghost out: seq<Rec>,
                    m: array<MapEntry>, split: nat, j: nat, blocksize: nat, to: int, len: nat, junk: MapEntry)
    requires MapOk(recs0, ms) && Total(recs0) <= blocksize && Unread(m, ms, j)
    requires Moving(recs0, ms, recs, out, to + len, j + 1, split)
    modifies m
    ensures Unread(m, ms, j + 1)
  {
    NoClobber(recs0, ms, recs, out, to, len, j + 1, split, blocksize);
    CopyOver(m, blocksize, to, len, junk);
  }

  // ---------------------------------------------------------------- packing

  /** dx_pack_dirents: the live records, as short as they can be, moved to the front. */
  method Pack(recs: seq<Rec>) returns (p: seq<Rec>)
    requires AllValid(recs)
    ensures Packed(p) && LiveOf(p) == LiveOf(recs) && Total(p) == Need(recs)
  {
    p := [];
    assert recs[..0] == [];
    for k := 0 to |recs|
      invariant Packed(p) && LiveOf(p) == LiveOf(recs[..k]) && Total(p) == Need(recs[..k])
    {
      PackStep(recs, k, p);
      if recs[k].Live() {
        p := p + [Short(recs[k])];
      }
    }
    assert recs[..|recs|] == recs;
  }

  lemma {:induction false} PackStep(recs: seq<Rec>, k: nat, p: seq<Rec>)
    requires AllValid(recs) && k < |recs| && Packed(p) && LiveOf(p) == LiveOf(recs[..k]) && Total(p) == Need(recs[..k])
    ensures var q := if recs[k].Live() then p + [Short(recs[k])] else p;
            Packed(q) && LiveOf(q) == LiveOf(recs[..k + 1]) && Total(q) == Need(recs[..k + 1])
  {
    var r := recs[k];
    NeedNext(recs, k);
    assert LiveOf(recs[..k + 1]) == LiveOf(recs[..k]) + One(r) by {
      LiveAround(recs, k);
    }
    if r.Live() {
      PackOne(p, r);
    }
  }

  lemma {:induction false} NeedNext(recs: seq<Rec>, k: nat)
    requires k < |recs|
    ensures Need(recs[..k + 1]) == Need(recs[..k]) + (if recs[k].Live() then MinLen(|recs[k].name|) else 0)
  {
    assert recs[..k + 1] == recs[..k] + [recs[k]] && [recs[k]][1..] == [];
    NeedConcat(recs[..k], [recs[k]]);
  }

  lemma {:induction false} PackOne(p: seq<Rec>, r: Rec)
    requires Packed(p) && r.Valid() && r.Live()
    ensures Packed(p + [Short(r)])
    ensures LiveOf(p + [Short(r)]) == LiveOf(p) + One(r) && Total(p + [Short(r)]) == Total(p) + MinLen(|r.name|)
  {
    ShortValid(r);
    Single(Short(r));
    LiveConcat(p, [Short(r)]);
    TotalConcat(p, [Short(r)]);
  }

  /** The last record takes what is left of the block. */
  function Stretch(recs: seq<Rec>, size: nat): seq<Rec>
    requires recs != [] && Total(recs) <= size
  {
    var last := |recs| - 1;
    recs[last := recs[last].(recLen := recs[last].recLen + (size - Total(recs)))]
  }

  lemma {:induction false} StretchTiles(recs: seq<Rec>, size: nat)
    requires recs != [] && Packed(recs) && Total(recs) <= size && size % 4 == 0
    ensures Tiled(Stretch(recs, size), size) && LiveOf(Stretch(recs, size)) == LiveOf(recs)
    ensures Compact(Stretch(recs, size))
  {
    var last := |recs| - 1;
    var f := recs[last].(recLen := recs[last].recLen + (size - Total(recs)));
    assert recs == recs[..last] + [recs[last]] && Stretch(recs, size) == recs[..last] + [f];
    LongerLast(recs[..last], recs[last], f);
    StretchValid(recs, size);
  }

  lemma {:induction false} StretchValid(recs: seq<Rec>, size: nat)
    requires recs != [] && Packed(recs) && Total(recs) <= size && size % 4 == 0
    ensures AllValid(Stretch(recs, size)) && Compact(Stretch(recs, size))
  {
    var s, last := Stretch(recs, size), |recs| - 1;
    PackedMod(recs);
    assert recs[last].Valid() && recs[last].Live();
    LongerValid(recs[last], size - Total(recs));
    assert forall i :: 0 <= i < last ==> s[i] == recs[i];
  }

  lemma {:induction false} LongerValid(r: Rec, n: nat)
    requires r.Valid() && n % 4 == 0
    ensures r.(recLen := r.recLen + n).Valid()
  {
  }

  lemma {:induction false} LongerLast(front: seq<Rec>, r: Rec, f: Rec)
    requires f == r.(recLen := f.recLen)
    ensures Total(front + [f]) == Total(front + [r]) - r.recLen + f.recLen
    ensures LiveOf(front + [f]) == LiveOf(front + [r])
  {
    Single(r);
    Single(f);
    TotalConcat(front, [r]);
    TotalConcat(front, [f]);
    LiveConcat(front, [r]);
    LiveConcat(front, [f]);
  }

  lemma {:induction false} PackedMod(recs: seq<Rec>)
    requires AllValid(recs)
    ensures Total(recs) % 4 == 0
  {
    if recs != [] {
      assert recs[0].Valid();
      PackedMod(recs[1..]);
    }
  }

  // -------------------------------------------------------------- the result

  ghost predicate AllFrom(es: seq<Dirent>, hash2: int) {
    forall i :: 0 <= i < |es| ==> hash2 <= es[i].hash
  }

  ghost predicate AllUpTo(es: seq<Dirent>, hash2: int, continued: bool) {
    forall i :: 0 <= i < |es| ==> es[i].hash < hash2 || (continued && es[i].hash == hash2)
  }

  ghost predicate HasHash(es: seq<Dirent>, hash2: int) {
    exists i :: 0 <= i < |es| && es[i].hash == hash2
  }

  lemma {:induction false} LiveWitness(recs: seq<Rec>, i: nat) returns (k: nat)
    requires i < |LiveOf(recs)|
    ensures k < |recs| && recs[k].Live() && recs[k].Ent() == LiveOf(recs)[i]
  {
    if recs[0].Live() && i == 0 {
      k := 0;
    } else {
      k := LiveWitness(recs[1..], i - |One(recs[0])|);
      k := k + 1;
    }
  }

  lemma {:induction false} PackedEnt(out: seq<Rec>, i: nat)
    requires Packed(out) && i < |out|
    ensures |LiveOf(out)| == |out| && LiveOf(out)[i] == out[i].Ent()
  {
    PackedSize(out);
    if i > 0 {
      PackedEnt(out[1..], i - 1);
    }
  }

  /** What moves is not below the cut. */
  lemma {:induction false} MovedAbove(recs0: seq<Rec>, ms: seq<MapEntry>, out: seq<Rec>, split: nat)
    requires MapOk(recs0, ms) && SortedByHash(ms) && split < |ms|
    requires Packed(out) && |out| == |ms| - split && Dealt(recs0, ms, out, split)
    ensures AllFrom(LiveOf(out), ms[split].hash) && HasHash(LiveOf(out), ms[split].hash)
  {
    PackedSize(out);
    forall i | 0 <= i < |LiveOf(out)| ensures LiveOf(out)[i].hash == ms[split + i].hash {
      PackedEnt(out, i);
      assert MapsRecord(recs0, ms[split + i]);
    }
    assert LiveOf(out)[0].hash == ms[split].hash;
  }

  /** What stays is not above the cut. */
  lemma {:induction false} KeptBelow(recs0: seq<Rec>, ms: seq<MapEntry>, recs: seq<Rec>, split: nat)
    requires MapOk(recs0, ms) && SortedByHash(ms) && 0 < split < |ms| && |recs| == |recs0|
    requires Kept(recs0, ms, recs, |ms|, split)
    ensures AllUpTo(LiveOf(recs), ms[split].hash, ms[split - 1].hash == ms[split].hash)
    ensures HasHash(LiveOf(recs), ms[split - 1].hash)
  {
    forall i | 0 <= i < |LiveOf(recs)| ensures LiveOf(recs)[i].hash <= ms[split - 1].hash <= ms[split].hash {
      var k := LiveWitness(recs, i);
      StaysBelow(recs0, ms, recs, split, k);
    }
    var k := ms[split - 1].at;
    assert MapsRecord(recs0, ms[split - 1]);
    LiveAround(recs, k);
    assert LiveOf(recs)[|LiveOf(recs[..k])|] == recs[k].Ent();
  }

  lemma {:induction false} StaysBelow(recs0: seq<Rec>, ms: seq<MapEntry>, recs: seq<Rec>, split: nat, k: nat)
    requires MapOk(recs0, ms) && SortedByHash(ms) && 0 < split < |ms| && |recs| == |recs0|
    requires Kept(recs0, ms, recs, |ms|, split) && k < |recs| && recs[k].Live()
    ensures recs[k].hash <= ms[split - 1].hash <= ms[split].hash
  {
    assert Listed(ms, k);
    var j :| 0 <= j < |ms| && ms[j].at == k;
    assert MapsRecord(recs0, ms[j]);
    assert j < split;
  }

  /** What the last record of a block could spare for a new one. */
  function LastSpare(recs: seq<Rec>): int
    requires recs != []
  {
    recs[|recs| - 1].Spare()
  }

  lemma {:induction false} StretchSpare(recs: seq<Rec>, size: nat)
    requires recs != [] && Packed(recs) && Total(recs) <= size
    ensures LastSpare(Stretch(recs, size)) == size - Total(recs)
  {
  }

  /** Bytes needed for the entries listed. */
  function NeedOf(recs: seq<Rec>, ms: seq<MapEntry>): nat {
    if ms == [] then 0
    else (if ms[0].at < |recs| then MinLen(|recs[ms[0].at].name|) else 0) + NeedOf(recs, ms[1..])
  }

  lemma {:induction false} NeedOfConcat(recs: seq<Rec>, a: seq<MapEntry>, b: seq<MapEntry>)
    ensures NeedOf(recs, a + b) == NeedOf(recs, a) + NeedOf(recs, b)
  {
    if a == [] {
      assert a + b == b;
    } else {
      assert (a + b)[1..] == a[1..] + b;
      NeedOfConcat(recs, a[1..], b);
    }
  }

  lemma {:induction false} SizeSumConcat(a: seq<MapEntry>, b: seq<MapEntry>)
    ensures SizeSum(a + b) == SizeSum(a) + SizeSum(b)
  {
    if a == [] {
      assert a + b == b;
    } else {
      assert (a + b)[1..] == a[1..] + b;
      SizeSumConcat(a[1..], b);
    }
  }

  lemma {:induction false} NeedOfSame(recs: seq<Rec>, s: seq<Rec>, ms: seq<MapEntry>)
    requires |recs| == |s| && forall i :: 0 <= i < |ms| && ms[i].at < |recs| ==> recs[ms[i].at] == s[ms[i].at]
    ensures NeedOf(recs, ms) == NeedOf(s, ms)
  {
    if ms != [] {
      NeedOfSame(recs, s, ms[1..]);
    }
  }

  /** A block with nothing live needs nothing. */
  lemma {:induction false} NothingLive(recs: seq<Rec>)
    requires forall k :: 0 <= k < |recs| ==> !recs[k].Live()
    ensures Need(recs) == 0
  {
    if recs != [] {
      NothingLive(recs[1..]);
    }
  }

  lemma {:induction false} ListsWithoutLast(recs: seq<Rec>, ms: seq<MapEntry>)
    requires MapLists(recs, ms) && ms != []
    ensures var m := ms[|ms| - 1];
            m.at < |recs| && recs[m.at].Live() && MapLists(recs[m.at := Wiped(recs[m.at])], ms[..|ms| - 1])
  {
    var n := |ms| - 1;
    var m, front := ms[n], ms[..n];
    assert MapsRecord(recs, m);
    var s := recs[m.at := Wiped(recs[m.at])];
    forall j | 0 <= j < n ensures MapsRecord(s, front[j]) {
      assert MapsRecord(recs, ms[j]) && ms[j].at != ms[n].at;
    }
    forall k | 0 <= k < |s| && s[k].Live() ensures Listed(front, k) {
      assert Listed(ms, k);
      var j :| 0 <= j < |ms| && ms[j].at == k;
      assert front[j].at == k;
    }
  }

  /** The records listed fit into the block, and their names are what the block needs. */
  lemma {:induction false} MapSums(recs: seq<Rec>, ms: seq<MapEntry>)
    requires MapLists(recs, ms)
    ensures Need(recs) == NeedOf(recs, ms) && SizeSum(ms) + DeadTotal(recs) == Total(recs)
    decreases |ms|
  {
    if ms == [] {
      forall k | 0 <= k < |recs| ensures !recs[k].Live() {
        assert !Listed(ms, k);
      }
      NothingLive(recs);
      AllDead(recs);
    } else {
      var n := |ms| - 1;
      var m := ms[n];
      ListsWithoutLast(recs, ms);
      MapSums(recs[m.at := Wiped(recs[m.at])], ms[..n]);
      WipeNeed(recs, m.at);
      WipeTotal(recs, m.at);
      WipeDead(recs, m.at);
      assert MapsRecord(recs, m);
      SumsOfLast(recs, ms);
    }
  }

  /** The last entry of the map adds its own record to both sums. */
  lemma {:induction false} SumsOfLast(recs: seq<Rec>, ms: seq<MapEntry>)
    requires MapLists(recs, ms) && ms != [] && ms[|ms| - 1].at < |recs|
    ensures var front, m := ms[..|ms| - 1], ms[|ms| - 1];
            && NeedOf(recs, ms) == NeedOf(recs[m.at := Wiped(recs[m.at])], front) + MinLen(|recs[m.at].name|)
            && SizeSum(ms) == SizeSum(front) + m.size
  {
    var n := |ms| - 1;
    var m, front := ms[n], ms[..n];
    var s := recs[m.at := Wiped(recs[m.at])];
    forall i | 0 <= i < |front| && front[i].at < |recs| ensures recs[front[i].at] == s[front[i].at] {
      assert ms[i].at != ms[n].at;
    }
    NeedOfSame(recs, s, front);
    assert ms == front + [m] && [m][1..] == [];
    NeedOfConcat(recs, front, [m]);
    SizeSumConcat(front, [m]);
  }

  /** Bytes of the records that hold no entry. */
  function DeadTotal(recs: seq<Rec>): nat {
    if recs == [] then 0 else (if recs[0].Live() then 0 else recs[0].recLen) + DeadTotal(recs[1..])
  }

  lemma {:induction false} DeadConcat(a: seq<Rec>, b: seq<Rec>)
    ensures DeadTotal(a + b) == DeadTotal(a) + DeadTotal(b)
  {
    if a == [] {
      assert a + b == b;
    } else {
      assert (a + b)[1..] == a[1..] + b;
      DeadConcat(a[1..], b);
    }
  }

  lemma {:induction false} AllDead(recs: seq<Rec>)
    requires forall k :: 0 <= k < |recs| ==> !recs[k].Live()
    ensures DeadTotal(recs) == Total(recs)
  {
    if recs != [] {
      AllDead(recs[1..]);
    }
  }

  lemma {:induction false} WipeDead(recs: seq<Rec>, k: nat)
    requires k < |recs| && recs[k].Live()
    ensures DeadTotal(recs[k := Wiped(recs[k])]) == DeadTotal(recs) + recs[k].recLen
  {
    var r, w := recs[k], Wiped(recs[k]);
    var a, b := recs[..k], recs[k + 1..];
    assert recs == a + [r] + b && recs[k := w] == a + [w] + b;
    DeadConcat(a + [r], b);
    DeadConcat(a, [r]);
    DeadConcat(a + [w], b);
    DeadConcat(a, [w]);
    assert [r][1..] == [] && [w][1..] == [];
  }

  /** What stays is listed by the lower part of the map. */
  lemma {:induction false} KeptLists(recs0: seq<Rec>, ms: seq<MapEntry>, recs: seq<Rec>, split: nat)
    requires MapLists(recs0, ms) && split <= |ms| && |recs| == |recs0| && Kept(recs0, ms, recs, |ms|, split)
    ensures MapLists(recs, ms[..split]) && NeedOf(recs, ms[..split]) == NeedOf(recs0, ms[..split])
  {
    var low := ms[..split];
    forall j | 0 <= j < |low| ensures MapsRecord(recs, low[j]) {
      assert MapsRecord(recs0, ms[j]);
    }
    forall k | 0 <= k < |recs| && recs[k].Live() ensures Listed(low, k) {
      assert Listed(ms, k);
      var j :| 0 <= j < |ms| && ms[j].at == k;
      assert j < split && low[j].at == k;
    }
    NeedOfSame(recs, recs0, low);
  }

  /** What moves takes up what its names need. */
  lemma {:induction false} MovedNeed(recs0: seq<Rec>, ms: seq<MapEntry>, out: seq<Rec>)
    requires |out| == |ms| && Packed(out) && forall i :: 0 <= i < |ms| ==> ms[i].at < |recs0|
    requires forall i :: 0 <= i < |ms| ==> out[i].Ent() == recs0[ms[i].at].Ent()
    ensures Total(out) == NeedOf(recs0, ms)
  {
    if ms != [] {
      assert out[0].Ent() == recs0[ms[0].at].Ent();
      MovedNeed(recs0, ms[1..], out[1..]);
    }
  }

  lemma {:induction false} KeptNeed(recs0: seq<Rec>, ms: seq<MapEntry>, recs: seq<Rec>, split: nat)
    requires MapLists(recs0, ms) && split <= |ms| && |recs| == |recs0| && Kept(recs0, ms, recs, |ms|, split)
    ensures Need(recs) == NeedOf(recs0, ms[..split])
  {
    KeptLists(recs0, ms, recs, split);
    MapSums(recs, ms[..split]);
  }

  lemma {:induction false} DealtNeed(recs0: seq<Rec>, ms: seq<MapEntry>, out: seq<Rec>, split: nat)
    requires MapLists(recs0, ms) && split <= |ms| && Packed(out) && |out| == |ms| - split
             && Dealt(recs0, ms, out, split)
    ensures Total(out) == NeedOf(recs0, ms[split..])
  {
    var high := ms[split..];
    forall i | 0 <= i < |high| ensures high[i].at < |recs0| && out[i].Ent() == recs0[high[i].at].Ent() {
      assert MapsRecord(recs0, ms[split + i]);
    }
    MovedNeed(recs0, high, out);
  }

  /** What the records left behind and the records copied hold, and how much they take. */
  lemma {:induction false} Parted(recs0: seq<Rec>, ms: seq<MapEntry>, recs: seq<Rec>, out: seq<Rec>, split: nat)
    requires MapOk(recs0, ms) && SortedByHash(ms) && AllValid(recs0) && 0 < split < |ms|
    requires Moving(recs0, ms, recs, out, Total(out), |ms|, split)
    ensures AllFrom(LiveOf(out), ms[split].hash) && HasHash(LiveOf(out), ms[split].hash)
    ensures AllUpTo(LiveOf(recs), ms[split].hash, ms[split].hash == ms[split - 1].hash)
    ensures HasHash(LiveOf(recs), ms[split - 1].hash)
    ensures out != [] && LiveOf(recs) != [] && AllValid(recs) && Packed(out) && SameEntries(recs0, recs, out)
    ensures Need(recs) == NeedOf(recs0, ms[..split]) <= Total(recs0)
    ensures Total(out) == NeedOf(recs0, ms[split..]) <= Total(recs0) && Total(recs0) % 4 == 0
  {
    MovedAbove(recs0, ms, out, split);
    KeptBelow(recs0, ms, recs, split);
    Leftovers(recs0, ms, recs, out, split);
    KeptNeed(recs0, ms, recs, split);
    DealtNeed(recs0, ms, out, split);
  }

  lemma {:induction false} Stretched(recs: seq<Rec>, size: nat)
    requires recs != [] && Packed(recs) && Total(recs) <= size && size % 4 == 0
    ensures Tiled(Stretch(recs, size), size) && LiveOf(Stretch(recs, size)) == LiveOf(recs)
    ensures Compact(Stretch(recs, size)) && LastSpare(Stretch(recs, size)) == size - Total(recs)
  {
    StretchTiles(recs, size);
    StretchSpare(recs, size);
  }

  /** The map of a block, sorted. */
  method SortedMap(recs: seq<Rec>) returns (m: array<MapEntry>)
    requires AllValid(recs)
    ensures fresh(m) && MapOk(recs, m[..]) && SortedByHash(m[..])
    ensures forall j :: 0 <= j < m.Length ==> m[j].size <= Total(recs)
  {
    var list := MakeMap(recs);
    m := new MapEntry[|list|](i requires 0 <= i < |list| => list[i]);
    assert m[..] == list;
    SortMap(m);
    PermutedMap(recs, list, m[..]);
    SizesFit(recs, m[..]);
  }

  /** A block's records dealt out to two blocks: what each holds, where the map was cut, and
      that the free space of each is behind its last entry. */
  ghost predicate DealtOut(recs: seq<Rec>, a: seq<Rec>, b: seq<Rec>, size: nat, blocksize: nat,
                           ms: seq<MapEntry>, stop: int, split: nat) {
    && MapOk(recs, ms) && SortedByHash(ms) && StopsAt(ms, stop, blocksize)
    && split == (if stop > 0 then stop + 1 else |ms| / 2) && 1 <= split < |ms|
    && Tiled(a, size) && Tiled(b, size) && Compact(a) && Compact(b)
    && LastSpare(a) == size - NeedOf(recs, ms[..split]) && LastSpare(b) == size - NeedOf(recs, ms[split..])
  }

  /** The two halves of the records of a block, the upper one going to the new block. */
  method DealOut(recs: seq<Rec>, size: nat, blocksize: nat, junk: MapEntry)
    returns (a: seq<Rec>, b: seq<Rec>, hash2: int, continued: bool, ghost ms: seq<MapEntry>, ghost stop: int,
             ghost split: nat)
    requires Tiled(recs, size) && size <= blocksize && |LiveOf(recs)| >= 2
    ensures SameEntries(recs, a, b) && AllFrom(LiveOf(b), hash2) && HasHash(LiveOf(b), hash2)
    ensures LiveOf(a) != [] && AllUpTo(LiveOf(a), hash2, continued) && (continued ==> HasHash(LiveOf(a), hash2))
    ensures DealtOut(recs, a, b, size, blocksize, ms, stop, split) && hash2 == ms[split].hash
  {
    var m := SortedMap(recs);
    var at;
    at, stop := SplitIndex(m, blocksize);
    ms, split := m[..], at;
    hash2 := m[at].hash;
    continued := hash2 == m[at - 1].hash;
    var left, out := MoveDirents(recs, m, at, blocksize, junk);
    Parted(recs, ms, left, out, split);
    var packed := Pack(left);
    Stretched(packed, size);
    Stretched(out, size);
    a, b := Stretch(packed, size), Stretch(out, size);
  }

  /** do_split. The live entries are dealt out to the old block and a new one around
      `hash2`; `continued` says that the hash at the cut occurs on both sides, `second` which
      block is to get an entry with that hash. `ms` is the sorted map, `split` where it was cut. */
  method Split(b: Block, blocksize: nat, hash: int, junk: MapEntry)
    returns (b2: Block, hash2: int, continued: bool, second: bool, ghost ms: seq<MapEntry>, ghost stop: int,
             ghost split: nat)
    requires b.Valid() && b.size <= blocksize && |b.Entries()| >= 2
    modifies b
    ensures b.Valid() && b2.Valid() && b2.size == b.size && fresh(b2)
    ensures SameEntries(old(b.recs), b.recs, b2.recs)
    ensures AllFrom(b2.Entries(), hash2) && HasHash(b2.Entries(), hash2)
    ensures b.Entries() != [] && AllUpTo(b.Entries(), hash2, continued) && (continued ==> HasHash(b.Entries(), hash2))
    ensures second == (hash >= hash2)
    ensures DealtOut(old(b.recs), b.recs, b2.recs, b.size, blocksize, ms, stop, split) && hash2 == ms[split].hash
  {
    var low, high;
    low, high, hash2, continued, ms, stop, split := DealOut(b.recs, b.size, blocksize, junk);
    b.recs := low;
    b2 := new Block(b.size, high);
    second := hash >= hash2;
  }

  lemma {:induction false} SizesFit(recs: seq<Rec>, ms: seq<MapEntry>)
    requires MapOk(recs, ms) && AllValid(recs)
    ensures forall j :: 0 <= j < |ms| ==> ms[j].size <= Total(recs)
  {
    forall j | 0 <= j < |ms| ensures ms[j].size <= Total(recs) {
      assert MapsRecord(recs, ms[j]);
      TotalBound(recs, ms[j].at);
    }
  }

  lemma {:induction false} Leftovers(recs0: seq<Rec>, ms: seq<MapEntry>, recs: seq<Rec>, out: seq<Rec>, split: nat)
    requires MapOk(recs0, ms) && AllValid(recs0) && 0 < split < |ms|
    requires Moving(recs0, ms, recs, out, Total(out), |ms|, split)
    ensures out != [] && LiveOf(recs) != [] && AllValid(recs) && Need(recs) <= Total(recs0)
            && Total(out) <= Total(recs0)
    ensures Total(recs0) % 4 == 0
  {
    assert MapsRecord(recs0, ms[split - 1]);
    LiveAround(recs, ms[split - 1].at);
    PackedMod(recs0);
  }
}
