/**
 Whether an entry for which a block had no room fits after do_split has halved the block.
 Where the code stops looking for the middle before it has come down to the first record of
 the map, or never stops, it does. When it stops exactly there it halves by count, and the
 lower half may have no room.
 */
module SplitRoom {
  import opened DirBlock
  import opened DxSort
  import opened DoSplit

  /** The map has been gone through down to its first record, which did not pass, and the
      lower half of the entries leaves no room for `e`, which belongs there. */
  ghost predicate TooTight(recs: seq<Rec>, ms: seq<MapEntry>, size: nat, blocksize: nat, e: Dirent) {
    && |ms| >= 2 && StopsAt(ms, 0, blocksize) && e.hash < ms[|ms| / 2].hash
    && NeedOf(recs, ms[..|ms| / 2]) + MinLen(|e.name|) > size
  }

  /** Every record listed is there, and long enough for its name. */
  ghost predicate Sound(recs: seq<Rec>, ms: seq<MapEntry>) {
    forall i :: 0 <= i < |ms| ==>
      && ms[i].at < |recs| && MinLen(|recs[ms[i].at].name|) <= ms[i].size
      && MinLen(|recs[ms[i].at].name|) <= MinLen(NAME_LEN)
  }

  lemma {:induction false} MapIsSound(recs: seq<Rec>, ms: seq<MapEntry>)
    requires MapLists(recs, ms) && AllValid(recs)
    ensures Sound(recs, ms)
  {
    forall i | 0 <= i < |ms|
      ensures ms[i].at < |recs| && MinLen(|recs[ms[i].at].name|) <= ms[i].size
              && MinLen(|recs[ms[i].at].name|) <= MinLen(NAME_LEN)
    {
      assert MapsRecord(recs, ms[i]);
      assert recs[ms[i].at].Valid();
    }
  }

  lemma {:induction false} NeedBelowSize(recs: seq<Rec>, ms: seq<MapEntry>)
    requires Sound(recs, ms)
    ensures NeedOf(recs, ms) <= SizeSum(ms)
  {
    if ms != [] {
      NeedBelowSize(recs, ms[1..]);
    }
  }

  lemma {:induction false} NeedFrom(recs: seq<Rec>, ms: seq<MapEntry>, k: nat)
    requires Sound(recs, ms) && k < |ms|
    ensures NeedOf(recs, ms[k..]) == MinLen(|recs[ms[k].at].name|) + NeedOf(recs, ms[k + 1..])
    ensures NeedOf(recs, ms[k + 1..]) <= SizeSum(ms[k + 1..])
  {
    assert ms[k..][1..] == ms[k + 1..] && ms[k..][0] == ms[k];
    NeedBelowSize(recs, ms[k + 1..]);
  }

  /** The part of the map that moves up needs little more than half a block. */
  lemma {:induction false} HighFits(recs: seq<Rec>, ms: seq<MapEntry>, k: nat, blocksize: nat)
    requires Sound(recs, ms) && k < |ms| && Passes(ms, k, blocksize)
    ensures NeedOf(recs, ms[k..]) <= blocksize / 2 + 132
  {
    NeedFrom(recs, ms, k);
  }

  lemma {:induction false} NeedUpTo(recs: seq<Rec>, ms: seq<MapEntry>, i: nat)
    requires Sound(recs, ms) && i < |ms|
    ensures NeedOf(recs, ms[..i + 1]) <= SizeSum(ms[..i]) + MinLen(|recs[ms[i].at].name|)
    ensures SizeSum(ms) == SizeSum(ms[..i]) + ms[i].size + SizeSum(ms[i + 1..])
  {
    var a, m, b := ms[..i], [ms[i]], ms[i + 1..];
    assert ms[..i + 1] == a + m && ms == a + m + b && m[1..] == [];
    NeedOfConcat(recs, a, m);
    NeedBelowSize(recs, a);
    SizeSumConcat(a + m, b);
    SizeSumConcat(a, m);
  }

  /** What stays below a record that did not pass leaves almost half a block. */
  lemma {:induction false} LowFits(recs: seq<Rec>, ms: seq<MapEntry>, i: nat, size: nat, blocksize: nat)
    requires Sound(recs, ms) && i < |ms| && !Passes(ms, i, blocksize) && SizeSum(ms) <= size
    ensures NeedOf(recs, ms[..i + 1]) <= size - blocksize / 2 + 132
  {
    NeedUpTo(recs, ms, i);
  }

  lemma {:induction false} PartNeed(recs: seq<Rec>, ms: seq<MapEntry>, k: nat)
    requires k <= |ms|
    ensures NeedOf(recs, ms[..k]) <= NeedOf(recs, ms)
  {
    assert ms == ms[..k] + ms[k..];
    NeedOfConcat(recs, ms[..k], ms[k..]);
  }

  lemma {:induction false} LowHalfFits(recs: seq<Rec>, ms: seq<MapEntry>, stop: int, split: nat, size: nat,
                                       blocksize: nat)
    requires Sound(recs, ms) && SizeSum(ms) <= size && BlockSizes(size, blocksize) && StopsAt(ms, stop, blocksize)
    requires split == (if stop > 0 then stop + 1 else |ms| / 2) && 1 <= split < |ms| && stop != 0
    ensures NeedOf(recs, ms[..split]) + MinLen(NAME_LEN) <= size
  {
    if stop > 0 {
      LowFits(recs, ms, stop, size, blocksize);
    } else {
      HighFits(recs, ms, 0, blocksize);
      PartNeed(recs, ms, split);
      assert ms[0..] == ms;
    }
  }

  lemma {:induction false} StopsOnce(ms: seq<MapEntry>, i: int, j: int, blocksize: nat)
    requires StopsAt(ms, i, blocksize) && StopsAt(ms, j, blocksize)
    ensures i == j
  {
  }

  /** The entry fits behind the last record of the half it belongs to, unless it is too tight. */
  lemma {:induction false} FitsUnlessTight(recs: seq<Rec>, a: seq<Rec>, b: seq<Rec>, size: nat, blocksize: nat,
                                           ms: seq<MapEntry>, stop: int, split: nat, e: Dirent)
    requires Tiled(recs, size) && BlockSizes(size, blocksize) && e.Valid()
    requires DealtOut(recs, a, b, size, blocksize, ms, stop, split)
    ensures MinLen(|e.name|) <= LastSpare(if e.hash >= ms[split].hash then b else a)
            <==> !TooTight(recs, ms, size, blocksize, e)
  {
    MapIsSound(recs, ms);
    ShortEnough(e);
    if e.hash >= ms[split].hash {
      HighHalfFits(recs, ms, stop, split, size, blocksize);
    } else if stop != 0 {
      assert SizeSum(ms) <= size by {
        MapSums(recs, ms);
      }
      LowHalfFits(recs, ms, stop, split, size, blocksize);
    }
    if StopsAt(ms, 0, blocksize) {
      StopsOnce(ms, stop, 0, blocksize);
    }
  }

  lemma {:induction false} ShortEnough(e: Dirent)
    requires e.Valid()
    ensures MinLen(|e.name|) <= MinLen(NAME_LEN)
  {
  }

  lemma {:induction false} HighHalfFits(recs: seq<Rec>, ms: seq<MapEntry>, stop: int, split: nat, size: nat,
                                        blocksize: nat)
    requires Sound(recs, ms) && BlockSizes(size, blocksize) && StopsAt(ms, stop, blocksize)
    requires split == (if stop > 0 then stop + 1 else |ms| / 2) && 1 <= split < |ms|
    ensures NeedOf(recs, ms[split..]) + MinLen(NAME_LEN) <= size
  {
    assert Passes(ms, split, blocksize);
    HighFits(recs, ms, split, blocksize);
  }

  // ------------------------------------------------------ a block that is too tight

  /** Three long names, the first with some bytes to spare, and three short ones: a block of
      1024 bytes without room for another long name. */
  function TightRec(k: nat, name: string): Rec {
    Rec(1, if k == 0 then 460 else if k <= 2 then 264 else 12, name, 2 * k)
  }

  predicate Tight(recs: seq<Rec>) {
    && |recs| == 6
    && (forall k :: 0 <= k < 6 ==> recs[k] == TightRec(k, recs[k].name))
    && (forall k :: 0 <= k < 6 ==> |recs[k].name| == if k <= 2 then NAME_LEN else 1)
  }

  lemma {:induction false} TotalFrom(recs: seq<Rec>, k: nat)
    requires k < |recs|
    ensures Total(recs[k..]) == recs[k].recLen + Total(recs[k + 1..])
    ensures LiveOf(recs[k..]) == One(recs[k]) + LiveOf(recs[k + 1..])
  {
    assert recs[k..][1..] == recs[k + 1..];
  }

  lemma {:induction false} TightIsFull(recs: seq<Rec>)
    requires Tight(recs)
    ensures Tiled(recs, 1024) && NoRoom(recs, 6, MinLen(NAME_LEN)) && |LiveOf(recs)| == 6 && Compact(recs)
  {
    assert recs[0..] == recs && recs[6..] == [];
    TotalFrom(recs, 0);
    TotalFrom(recs, 1);
    TotalFrom(recs, 2);
    TotalFrom(recs, 3);
    TotalFrom(recs, 4);
    TotalFrom(recs, 5);
  }

  lemma {:induction false} TightEntry(recs: seq<Rec>, ms: seq<MapEntry>, i: nat)
    requires Tight(recs) && MapLists(recs, ms) && i < |ms|
    ensures 0 <= ms[i].at < 6 && ms[i].hash == 2 * ms[i].at && ms[i].size == recs[ms[i].at].recLen
  {
    assert MapsRecord(recs, ms[i]);
  }

  lemma {:induction false} TightRises(recs: seq<Rec>, ms: seq<MapEntry>, i: nat)
    requires Tight(recs) && MapLists(recs, ms) && SortedByHash(ms) && i + 1 < |ms|
    ensures 0 <= ms[i].at < ms[i + 1].at < 6
  {
    TightEntry(recs, ms, i);
    TightEntry(recs, ms, i + 1);
    assert ms[i].hash <= ms[i + 1].hash && ms[i].at != ms[i + 1].at;
  }

  /** Sorted by hash, the map of the block lists it in order. */
  lemma {:induction false} TightOrder(recs: seq<Rec>, ms: seq<MapEntry>, i: nat)
    requires Tight(recs) && MapLists(recs, ms) && |ms| == 6 && SortedByHash(ms) && i < 6
    ensures ms[i].at == i && ms[i].hash == 2 * i && ms[i].size == recs[i].recLen
  {
    AtLeast(recs, ms, i);
    AtMost(recs, ms, i);
    TightEntry(recs, ms, i);
  }

  lemma {:induction false} AtLeast(recs: seq<Rec>, ms: seq<MapEntry>, i: nat)
    requires Tight(recs) && MapLists(recs, ms) && |ms| == 6 && SortedByHash(ms) && i < 6
    ensures i <= ms[i].at
  {
    if i > 0 {
      AtLeast(recs, ms, i - 1);
      TightRises(recs, ms, i - 1);
    }
  }

  lemma {:induction false} AtMost(recs: seq<Rec>, ms: seq<MapEntry>, i: nat)
    requires Tight(recs) && MapLists(recs, ms) && |ms| == 6 && SortedByHash(ms) && i < 6
    ensures ms[i].at <= i
    decreases 6 - i
  {
    if i < 5 {
      AtMost(recs, ms, i + 1);
      TightRises(recs, ms, i);
    } else {
      TightEntry(recs, ms, i);
    }
  }

  lemma {:induction false} SizeFrom(ms: seq<MapEntry>, k: nat)
    requires k < |ms|
    ensures SizeSum(ms[k..]) == ms[k].size + SizeSum(ms[k + 1..])
  {
    assert ms[k..][1..] == ms[k + 1..];
  }

  lemma {:induction false} NeedNextOf(recs: seq<Rec>, ms: seq<MapEntry>, i: nat)
    requires i < |ms| && ms[i].at < |recs|
    ensures NeedOf(recs, ms[..i + 1]) == NeedOf(recs, ms[..i]) + MinLen(|recs[ms[i].at].name|)
  {
    assert ms[..i + 1] == ms[..i] + [ms[i]] && [ms[i]][1..] == [];
    NeedOfConcat(recs, ms[..i], [ms[i]]);
  }

  lemma {:induction false} TightStops(recs: seq<Rec>, ms: seq<MapEntry>)
    requires Tight(recs) && |ms| == 6 && forall i :: 0 <= i < 6 ==> ms[i].size == recs[i].recLen
    ensures StopsAt(ms, 0, 1024)
  {
    assert ms[6..] == [];
    SizeFrom(ms, 5);
    SizeFrom(ms, 4);
    SizeFrom(ms, 3);
    SizeFrom(ms, 2);
    SizeFrom(ms, 1);
    assert Passes(ms, 5, 1024) && Passes(ms, 4, 1024) && Passes(ms, 3, 1024) && Passes(ms, 2, 1024)
           && Passes(ms, 1, 1024);
    assert !Passes(ms, 0, 1024);
  }

  /** Splitting this block does not make room for another long name that hashes low: however
      the map comes out of the sort, it is too tight. */
  lemma {:induction false} NoPlaceInTight(recs: seq<Rec>, ms: seq<MapEntry>, e: Dirent)
    requires Tight(recs) && MapOk(recs, ms) && SortedByHash(ms) && |e.name| == NAME_LEN && e.hash < 6
    ensures TooTight(recs, ms, 1024, 1024, e)
  {
    TightIsFull(recs);
    forall i | 0 <= i < 6 ensures ms[i].at == i && ms[i].hash == 2 * i && ms[i].size == recs[i].recLen {
      TightOrder(recs, ms, i);
    }
    TightStops(recs, ms);
    assert ms[..0] == [];
    NeedNextOf(recs, ms, 0);
    NeedNextOf(recs, ms, 1);
    NeedNextOf(recs, ms, 2);
    assert NeedOf(recs, ms[..3]) == 792;
  }
}
