/**
 A directory block: records that tile it, some of them live entries. `rec_len` may exceed
 what the name needs; a deleted entry is swallowed by the record before it, or, at the start
 of the block, left behind with inode number 0.
 */
module DirBlock {
  const ENOENT: int := 2
  const EEXIST: int := 17
  const ENOSPC: int := 28
  const BASE_LEN: nat := 8
  const NAME_LEN: nat := 255
  const NUL: char := 0 as char

  /** ext4 blocks have at least 1024 bytes, of which at most 12 hold a checksum. */
  predicate BlockSizes(size: nat, blocksize: nat) {
    1024 <= blocksize && size <= blocksize <= size + 12
  }

  /** A directory entry. `hash` is the hash of its name. */
  datatype Dirent = Dirent(name: string, ino: nat, hash: int) {
    predicate Valid() {
      ino != 0 && 0 < |name| <= NAME_LEN
    }
  }

  datatype Rec = Rec(ino: nat, recLen: nat, name: string, hash: int) {
    predicate Live() {
      ino != 0
    }

    function Ent(): Dirent {
      Dirent(name, ino, hash)
    }

    predicate Valid() {
      && recLen % 4 == 0 && MinLen(1) <= recLen && MinLen(|name|) <= recLen
      && (Live() ==> Ent().Valid())
    }

    /** What the record could spare for a new one. */
    function Spare(): int {
      if Live() then recLen - MinLen(|name|) else recLen
    }
  }

  /** ext4_dir_rec_len: header and name, rounded up to four bytes. */
  function MinLen(n: nat): nat {
    (n + BASE_LEN + 3) / 4 * 4
  }

  /** It is the least multiple of four that holds the header and the name. */
  lemma {:induction false} MinLenHolds(n: nat)
    ensures MinLen(n) % 4 == 0 && n + BASE_LEN <= MinLen(n) < n + BASE_LEN + 4
  {
  }

  function Total(recs: seq<Rec>): nat {
    if recs == [] then 0 else recs[0].recLen + Total(recs[1..])
  }

  /** The entry a record holds, if it is live. */
  function One(r: Rec): seq<Dirent> {
    if r.Live() then [r.Ent()] else []
  }

  function LiveOf(recs: seq<Rec>): seq<Dirent> {
    if recs == [] then [] else One(recs[0]) + LiveOf(recs[1..])
  }

  predicate AllValid(recs: seq<Rec>) {
    forall i :: 0 <= i < |recs| ==> recs[i].Valid()
  }

  predicate NoRoom(recs: seq<Rec>, n: nat, len: int)
    requires n <= |recs|
  {
    forall i :: 0 <= i < n ==> recs[i].Spare() < len
  }

  /** A record with that name, and none before it with room for it. */
  ghost predicate Dup(recs: seq<Rec>, name: string) {
    exists k :: 0 <= k < |recs| && NoRoom(recs, k, MinLen(|name|)) && recs[k].Live() && recs[k].name == name
  }

  /** No record has room for the name, and none has it. */
  ghost predicate Blocked(recs: seq<Rec>, name: string) {
    NoRoom(recs, |recs|, MinLen(|name|)) && !HasName(LiveOf(recs), name)
  }

  predicate Tiled(recs: seq<Rec>, size: nat) {
    recs != [] && AllValid(recs) && Total(recs) == size
  }

  lemma {:induction false} TotalConcat(a: seq<Rec>, b: seq<Rec>)
    ensures Total(a + b) == Total(a) + Total(b)
  {
    if a == [] {
      assert a + b == b;
    } else {
      assert (a + b)[1..] == a[1..] + b;
      TotalConcat(a[1..], b);
    }
  }

  lemma {:induction false} LiveConcat(a: seq<Rec>, b: seq<Rec>)
    ensures LiveOf(a + b) == LiveOf(a) + LiveOf(b)
  {
    if a == [] {
      assert a + b == b;
    } else {
      assert (a + b)[1..] == a[1..] + b;
      LiveConcat(a[1..], b);
    }
  }

  lemma {:induction false} TotalAround(recs: seq<Rec>, k: nat)
    requires k < |recs|
    ensures Total(recs) == Total(recs[..k]) + recs[k].recLen + Total(recs[k + 1..])
    ensures Total(recs[..k + 1]) == Total(recs[..k]) + recs[k].recLen
  {
    var a, m, b := recs[..k], [recs[k]], recs[k + 1..];
    assert recs == a + m + b && recs[..k + 1] == a + m && m[1..] == [];
    TotalConcat(a + m, b);
    TotalConcat(a, m);
  }

  lemma {:induction false} LiveAround(recs: seq<Rec>, k: nat)
    requires k < |recs|
    ensures LiveOf(recs) == LiveOf(recs[..k]) + One(recs[k]) + LiveOf(recs[k + 1..])
    ensures LiveOf(recs[..k + 1]) == LiveOf(recs[..k]) + One(recs[k])
  {
    Pulled(recs, k);
    LiveMid(recs[..k], recs[k], recs[k + 1..]);
  }

  lemma {:induction false} Pulled<T>(s: seq<T>, k: nat)
    requires k < |s|
    ensures s[..k] + [s[k]] + s[k + 1..] == s && s[..k] + [s[k]] == s[..k + 1]
  {
  }

  lemma {:induction false} LiveMid(a: seq<Rec>, r: Rec, b: seq<Rec>)
    ensures LiveOf(a + [r] + b) == LiveOf(a) + One(r) + LiveOf(b) && LiveOf(a + [r]) == LiveOf(a) + One(r)
  {
    LiveConcat(a + [r], b);
    LiveConcat(a, [r]);
    assert [r][1..] == [];
  }

  /** A walk by record lengths visits every record before its end of block. */
  lemma {:induction false} TotalBound(recs: seq<Rec>, k: nat)
    requires AllValid(recs) && k <= |recs|
    ensures Total(recs[..k]) <= Total(recs)
    ensures k < |recs| ==> Total(recs[..k]) + recs[k].recLen <= Total(recs)
    ensures k == |recs| <==> Total(recs[..k]) == Total(recs)
  {
    if k < |recs| {
      TotalAround(recs, k);
      assert recs[k].Valid();
    } else {
      assert recs[..k] == recs;
    }
  }

  /** In a block its records tile, the header and the name of a record end before the next record,
      or the block, does. */
  lemma {:induction false} NamesApart(recs: seq<Rec>, size: nat, i: nat, j: nat)
    requires Tiled(recs, size) && i < j <= |recs|
    ensures Total(recs[..i]) + BASE_LEN + |recs[i].name| <= Total(recs[..j]) <= size
  {
    MinLenHolds(|recs[i].name|);
    assert recs[i].Valid();
    TotalAround(recs, i);
    TotalBound(recs, j);
    assert AllValid(recs[..j]) && recs[..j][..i + 1] == recs[..i + 1];
    TotalBound(recs[..j], i + 1);
  }

  predicate HasName(ents: seq<Dirent>, name: string) {
    exists i :: 0 <= i < |ents| && ents[i].name == name
  }

  lemma {:induction false} NamePresent(recs: seq<Rec>, k: nat)
    requires k < |recs| && recs[k].Live()
    ensures HasName(LiveOf(recs), recs[k].name)
  {
    LiveAround(recs, k);
    assert LiveOf(recs)[|LiveOf(recs[..k])|] == recs[k].Ent();
  }

  lemma {:induction false} NameAbsent(recs: seq<Rec>, k: nat, name: string)
    requires k < |recs| && !HasName(LiveOf(recs[..k]), name) && !(recs[k].Live() && recs[k].name == name)
    ensures !HasName(LiveOf(recs[..k + 1]), name)
  {
    LiveAround(recs, k);
  }

  /** `recs` with record `k` exchanged for `with`. */
  function Spliced(recs: seq<Rec>, k: nat, with: seq<Rec>): seq<Rec>
    requires k < |recs|
  {
    recs[..k] + with + recs[k + 1..]
  }

  lemma {:induction false} SpliceTotals(recs: seq<Rec>, k: nat, with: seq<Rec>)
    requires k < |recs|
    ensures Total(Spliced(recs, k, with)) == Total(recs) - recs[k].recLen + Total(with)
    ensures LiveOf(Spliced(recs, k, with)) == LiveOf(recs[..k]) + LiveOf(with) + LiveOf(recs[k + 1..])
  {
    TotalAround(recs, k);
    TotalConcat(recs[..k] + with, recs[k + 1..]);
    TotalConcat(recs[..k], with);
    LiveConcat(recs[..k] + with, recs[k + 1..]);
    LiveConcat(recs[..k], with);
  }

  /** What ext4_insert_dentry makes of the record it puts an entry into. */
  function Host(r: Rec, e: Dirent): seq<Rec>
    requires MinLen(|r.name|) <= r.recLen
  {
    if r.Live() then
      var n := MinLen(|r.name|);
      [r.(recLen := n), Rec(e.ino, r.recLen - n, e.name, e.hash)]
    else [Rec(e.ino, r.recLen, e.name, e.hash)]
  }

  /** An entry fits into a record exactly if all that is made of the record is then long enough for
      its name. */
  lemma {:induction false} FitsIff(r: Rec, e: Dirent)
    requires r.Valid() && e.Valid()
    ensures MinLen(|e.name|) <= r.Spare() <==> AllValid(Host(r, e))
  {
    var s := Host(r, e);
    assert AllValid(s) ==> s[|s| - 1].Valid();
  }

  /** What reading an entry hands back: the name is an array of NAME_LEN bytes. */
  datatype DentryOut = DentryOut(ino: nat, nameLen: nat, name: string)

  /** The name copied to the front of the array, then a zero written to its last byte. */
  function CopyName(name: string, buf: string): string
    requires |name| <= |buf| == NAME_LEN
  {
    (name + buf[|name|..])[NAME_LEN - 1 := NUL]
  }

  /** The array holds the name, what it held before after that, and a zero at the end. */
  ghost predicate Overlaid(name: string, buf: string, arr: string) {
    && |name| <= |arr| == |buf| == NAME_LEN && arr[NAME_LEN - 1] == NUL
    && forall k :: 0 <= k < NAME_LEN - 1 ==> arr[k] == if k < |name| then name[k] else buf[k]
  }

  /** There is a byte of the array left for the zero, or the name ends in one. */
  predicate FitsArray(name: string) {
    |name| < NAME_LEN || (|name| == NAME_LEN && name[NAME_LEN - 1] == NUL)
  }

  lemma {:induction false} NameCopied(name: string, buf: string)
    requires |name| <= |buf| == NAME_LEN
    ensures Overlaid(name, buf, CopyName(name, buf))
    ensures CopyName(name, buf)[..|name|] == name <==> FitsArray(name)
  {
    var arr := CopyName(name, buf);
    if FitsArray(name) {
      assert forall k :: 0 <= k < |name| ==> arr[k] == name[k];
    } else {
      assert arr[..|name|][NAME_LEN - 1] != name[NAME_LEN - 1];
    }
  }

  function Repeated(x: char, n: nat): string {
    seq(n, _ => x)
  }

  /** A name of 255 letters comes back one letter short, with its length still 255. */
  lemma {:induction false} LongestNameCut(x: char, buf: string)
    requires |buf| == NAME_LEN && x != NUL
    ensures CopyName(Repeated(x, NAME_LEN), buf)[..NAME_LEN] == Repeated(x, NAME_LEN - 1) + [NUL]
            != Repeated(x, NAME_LEN)
  {
    var name := Repeated(x, NAME_LEN);
    NameCopied(name, buf);
    assert name[NAME_LEN - 1] == x;
    assert CopyName(name, buf)[..NAME_LEN] == Repeated(x, NAME_LEN - 1) + [NUL];
  }

  class Block {
    const size: nat
    var recs: seq<Rec>

    ghost predicate Valid()
      reads this
    {
      Tiled(recs, size)
    }

    ghost function Entries(): seq<Dirent>
      reads this
    {
      LiveOf(recs)
    }

    /** A block as read from disk. */
    constructor (size: nat, recs: seq<Rec>)
      requires Tiled(recs, size)
      ensures Valid() && this.recs == recs && this.size == size
    {
      this.size, this.recs := size, recs;
    }

    /** ext4_search_dir: the record of the entry with that name, or -1 exactly when no
        live entry has it. */
    method Search(name: string) returns (k: int)
      requires Valid()
      ensures k == -1 || (0 <= k < |recs| && recs[k].Live() && recs[k].name == name)
      ensures k == -1 <==> !HasName(Entries(), name)
    {
      var i, offset := 0, 0;
      assert recs[..0] == [];
      while offset + BASE_LEN < size
        invariant 0 <= i <= |recs| && offset == Total(recs[..i])
        invariant !HasName(LiveOf(recs[..i]), name)
        decreases |recs| - i
      {
        TotalBound(recs, i);
        TotalAround(recs, i);
        if recs[i].Live() && recs[i].name == name {
          NamePresent(recs, i);
          return i;
        }
        NameAbsent(recs, i, name);
        offset := offset + recs[i].recLen;
        i := i + 1;
      }
      TotalBound(recs, i);
      assert i < |recs| ==> recs[i].Valid();
      assert recs[..i] == recs;
      return -1;
    }

    /** evfs_dentry_read: the n-th live entry, if there are that many; `buf` is what the name
        array of the arguments holds before. The number and the length always are those of the
        entry. Its name is all there unless it takes up the whole array: then its last byte has
        been overwritten with a zero. */
    method Read(n: nat, buf: string) returns (out: DentryOut)
      requires Valid() && |buf| == NAME_LEN
      ensures n >= |Entries()| ==> out == DentryOut(0, 0, buf[0 := NUL])
      ensures out.ino == 0 <==> n >= |Entries()|
      ensures n < |Entries()| ==> out.ino == Entries()[n].ino && out.nameLen == |Entries()[n].name|
      ensures n < |Entries()| ==> Overlaid(Entries()[n].name, buf, out.name)
      ensures n < |Entries()| ==> (out.nameLen <= |out.name| && out.name[..out.nameLen] == Entries()[n].name
                                   <==> FitsArray(Entries()[n].name))
    {
      var i, offset, count := 0, 0, 0;
      assert recs[..0] == [];
      while offset < size
        invariant 0 <= i <= |recs| && offset == Total(recs[..i])
        invariant count == |LiveOf(recs[..i])| <= n
        decreases |recs| - i
      {
        TotalBound(recs, i);
        TotalAround(recs, i);
        LiveAround(recs, i);
        if recs[i].Live() {
          if count == n {
            assert recs[i].Valid();
            NameCopied(recs[i].name, buf);
            return DentryOut(recs[i].ino, |recs[i].name|, CopyName(recs[i].name, buf));
          }
          count := count + 1;
        }
        offset := offset + recs[i].recLen;
        i := i + 1;
      }
      TotalBound(recs, i);
      assert recs[..i] == recs;
      return DentryOut(0, 0, buf[0 := NUL]);
    }

    /** ext4_find_dest_de: the first record with room for the entry. Without one, no record
        has room and the name is new. */
    method FindDest(e: Dirent) returns (ret: int, k: nat)
      requires Valid() && e.Valid()
      ensures ret == 0 || ret == -EEXIST || ret == -ENOSPC
      ensures ret == 0 ==> k < |recs| && MinLen(|e.name|) <= recs[k].Spare() && NoRoom(recs, k, MinLen(|e.name|))
                           && !HasName(LiveOf(recs[..k + 1]), e.name)
      ensures ret == -EEXIST <==> Dup(recs, e.name)
      ensures ret == -EEXIST ==> HasName(Entries(), e.name)
      ensures ret == -ENOSPC <==> Blocked(recs, e.name)
    {
      var len := MinLen(|e.name|);
      var offset := 0;
      k := 0;
      assert recs[..0] == [];
      while offset + len <= size
        invariant 0 <= k <= |recs| && offset == Total(recs[..k])
        invariant !HasName(LiveOf(recs[..k]), e.name)
        invariant NoRoom(recs, k, len)
        decreases |recs| - k
      {
        TotalBound(recs, k);
        TotalAround(recs, k);
        if recs[k].Live() && recs[k].name == e.name {
          NamePresent(recs, k);
          return -EEXIST, k;
        }
        NameAbsent(recs, k, e.name);
        if recs[k].Spare() >= len {
          NotDup(recs, k, e.name);
          return 0, k;
        }
        offset := offset + recs[k].recLen;
        k := k + 1;
      }
      TailTooShort(recs, k, size, e.name);
      NotDupAtAll(recs, e.name);
      return -ENOSPC, k;
    }

    /** ext4_insert_dentry into record `k`: exactly the new entry is added. */
    method Insert(k: nat, e: Dirent)
      requires Valid() && e.Valid() && k < |recs| && MinLen(|e.name|) <= recs[k].Spare()
      modifies this
      ensures Valid() && recs == Spliced(old(recs), k, Host(old(recs)[k], e))
      ensures var r, n := old(recs)[k], MinLen(|old(recs)[k].name|);
              if r.Live()
              then recs[..k + 2] == old(recs)[..k] + [r.(recLen := n), Rec(e.ino, r.recLen - n, e.name, e.hash)]
              else recs[..k + 1] == old(recs)[..k] + [Rec(e.ino, r.recLen, e.name, e.hash)]
      ensures Entries() == LiveOf(old(recs)[..k + 1]) + [e] + LiveOf(old(recs)[k + 1..])
      ensures old(Entries()) == LiveOf(old(recs)[..k + 1]) + LiveOf(old(recs)[k + 1..])
    {
      InsertKeeps(recs, size, k, e);
      recs := Spliced(recs, k, Host(recs[k], e));
    }

    /** add_dirent_to_buf. */
    method Add(e: Dirent) returns (ret: int)
      requires Valid() && e.Valid()
      modifies this
      ensures Valid()
      ensures ret == 0 || ret == -EEXIST || ret == -ENOSPC
      ensures ret == 0 ==> exists j :: 0 <= j <= |old(Entries())|
                                       && Entries() == old(Entries())[..j] + [e] + old(Entries())[j..]
      ensures ret != 0 ==> recs == old(recs)
      ensures ret == -EEXIST <==> Dup(old(recs), e.name)
      ensures ret == -EEXIST ==> HasName(old(Entries()), e.name)
      ensures ret == -ENOSPC <==> Blocked(old(recs), e.name)
      ensures Compact(old(recs)) ==> Compact(recs)
    {
      var k;
      ret, k := FindDest(e);
      if ret == 0 {
        ghost var j := |LiveOf(recs[..k + 1])|;
        if Compact(recs) {
          assert recs[k].Valid();
          InsertStaysCompact(recs, k, e);
        }
        Insert(k, e);
        assert old(Entries())[..j] == LiveOf(old(recs)[..k + 1]);
        assert old(Entries())[j..] == LiveOf(old(recs)[k + 1..]);
      }
    }

    /** ext4_generic_delete_entry of the entry in record `k`: exactly that entry goes. */
    method Delete(k: nat) returns (ret: int)
      requires Valid()
      modifies this
      ensures Valid()
      ensures ret == if k < |old(recs)| then 0 else -ENOENT
      ensures k < |old(recs)| ==> Entries() == LiveOf(old(recs)[..k]) + LiveOf(old(recs)[k + 1..])
      ensures k == 0 < |old(recs)| ==> recs == [Rec(0, old(recs)[0].recLen, "", 0)] + old(recs)[1..]
      ensures 0 < k < |old(recs)| ==>
                recs == old(recs)[..k - 1]
                        + [old(recs)[k - 1].(recLen := old(recs)[k - 1].recLen + old(recs)[k].recLen)]
                        + old(recs)[k + 1..]
      ensures k >= |old(recs)| ==> recs == old(recs)
      ensures Compact(old(recs)) ==> Compact(recs)
    {
      var i, offset := 0, 0;
      assert recs[..0] == [];
      while offset < size
        invariant 0 <= i <= |recs| && offset == Total(recs[..i]) && i <= k && recs == old(recs)
        decreases |recs| - i
      {
        TotalBound(recs, i);
        TotalAround(recs, i);
        if i == k {
          DeleteKeeps(recs, size, k);
          DeleteLeaves(recs, k);
          recs := Deleted(recs, k);
          return 0;
        }
        offset := offset + recs[i].recLen;
        i := i + 1;
      }
      TotalBound(recs, i);
      return -ENOENT;
    }
  }

  /** With room in record `k` and the name not up to there, no record counts as a duplicate. */
  lemma {:induction false} NotDup(recs: seq<Rec>, k: nat, name: string)
    requires k < |recs| && recs[k].Spare() >= MinLen(|name|) && !HasName(LiveOf(recs[..k + 1]), name)
    ensures !Dup(recs, name)
  {
    forall i | 0 <= i < |recs| && NoRoom(recs, i, MinLen(|name|)) ensures !(recs[i].Live() && recs[i].name == name) {
      if recs[i].Live() {
        assert recs[..k + 1][i] == recs[i];
        NamePresent(recs[..k + 1], i);
      }
    }
  }

  lemma {:induction false} NotDupAtAll(recs: seq<Rec>, name: string)
    requires !HasName(LiveOf(recs), name)
    ensures !Dup(recs, name)
  {
    forall i | 0 <= i < |recs| ensures !(recs[i].Live() && recs[i].name == name) {
      if recs[i].Live() {
        NamePresent(recs, i);
      }
    }
  }

  lemma {:induction false} ShortRecord(r: Rec, name: string)
    requires r.Valid() && r.recLen < MinLen(|name|)
    ensures r.Spare() < MinLen(|name|) && r.name != name
  {
  }

  /** Past the point where the entry could start, nothing has room, nor its name. */
  lemma {:induction false} TailTooShort(recs: seq<Rec>, k: nat, size: nat, name: string)
    requires Tiled(recs, size) && k <= |recs| && Total(recs[..k]) + MinLen(|name|) > size
    requires !HasName(LiveOf(recs[..k]), name) && NoRoom(recs, k, MinLen(|name|))
    ensures !HasName(LiveOf(recs), name)
    ensures NoRoom(recs, |recs|, MinLen(|name|))
    decreases |recs| - k
  {
    if k == |recs| {
      assert recs[..k] == recs;
    } else {
      TotalBound(recs, k);
      TotalAround(recs, k);
      ShortRecord(recs[k], name);
      NameAbsent(recs, k, name);
      TailTooShort(recs, k + 1, size, name);
    }
  }

  lemma {:induction false} InsertKeeps(recs: seq<Rec>, size: nat, k: nat, e: Dirent)
    requires Tiled(recs, size) && e.Valid() && k < |recs| && MinLen(|e.name|) <= recs[k].Spare()
    ensures recs[k].Valid() && Tiled(Spliced(recs, k, Host(recs[k], e)), size)
    ensures LiveOf(Spliced(recs, k, Host(recs[k], e))) == LiveOf(recs[..k + 1]) + [e] + LiveOf(recs[k + 1..])
    ensures LiveOf(recs) == LiveOf(recs[..k + 1]) + LiveOf(recs[k + 1..])
  {
    var h := Host(recs[k], e);
    assert recs[k].Valid();
    HostKeeps(recs[k], e);
    SpliceTiled(recs, size, k, h);
    SpliceTotals(recs, k, h);
    LiveAround(recs, k);
    Regroup(LiveOf(recs[..k]), One(recs[k]), [e], LiveOf(recs[k + 1..]));
  }

  lemma {:induction false} Regroup<T>(a: seq<T>, b: seq<T>, c: seq<T>, d: seq<T>)
    ensures a + (b + c) + d == (a + b) + c + d
  {
  }

  lemma {:induction false} HostKeeps(r: Rec, e: Dirent)
    requires r.Valid() && e.Valid() && MinLen(|e.name|) <= r.Spare()
    ensures Total(Host(r, e)) == r.recLen && LiveOf(Host(r, e)) == One(r) + [e] && AllValid(Host(r, e))
    ensures Host(r, e) != []
  {
    var h := Host(r, e);
    if r.Live() {
      Single(h[0]);
      Single(h[1]);
      TotalConcat([h[0]], [h[1]]);
      LiveConcat([h[0]], [h[1]]);
      assert h == [h[0]] + [h[1]];
    } else {
      Single(h[0]);
    }
  }

  lemma {:induction false} Single(r: Rec)
    ensures Total([r]) == r.recLen && LiveOf([r]) == One(r)
  {
    assert [r][1..] == [];
  }

  lemma {:induction false} SpliceTiled(recs: seq<Rec>, size: nat, k: nat, with: seq<Rec>)
    requires Tiled(recs, size) && k < |recs| && with != [] && AllValid(with) && Total(with) == recs[k].recLen
    ensures Tiled(Spliced(recs, k, with), size)
  {
    SpliceTotals(recs, k, with);
    SpliceValid(recs, k, with);
  }

  lemma {:induction false} SpliceValid(recs: seq<Rec>, k: nat, with: seq<Rec>)
    requires AllValid(recs) && k < |recs| && AllValid(with)
    ensures AllValid(Spliced(recs, k, with))
  {
  }

  /** The block without the entry in record `k`. */
  function Deleted(recs: seq<Rec>, k: nat): seq<Rec>
    requires k < |recs|
  {
    if k == 0 then recs[0 := Rec(0, recs[0].recLen, "", 0)]
    else Spliced(recs[..k] + recs[k + 1..], k - 1, [recs[k - 1].(recLen := recs[k - 1].recLen + recs[k].recLen)])
  }

  lemma {:induction false} DeleteKeeps(recs: seq<Rec>, size: nat, k: nat)
    requires Tiled(recs, size) && k < |recs|
    ensures Tiled(Deleted(recs, k), size)
    ensures LiveOf(Deleted(recs, k)) == LiveOf(recs[..k]) + LiveOf(recs[k + 1..])
  {
    TotalAround(recs, k);
    LiveAround(recs, k);
    assert recs[k].Valid();
    if k > 0 {
      MergeKeeps(recs, size, k);
    } else {
      var s := Deleted(recs, 0);
      assert s[1..] == recs[1..];
    }
  }

  lemma {:induction false} MergeKeeps(recs: seq<Rec>, size: nat, k: nat)
    requires Tiled(recs, size) && 0 < k < |recs|
    ensures Tiled(Deleted(recs, k), size)
    ensures LiveOf(Deleted(recs, k)) == LiveOf(recs[..k]) + LiveOf(recs[k + 1..])
  {
    var q, r := recs[k - 1], recs[k];
    var p := q.(recLen := q.recLen + r.recLen);
    assert p.Valid() by {
      assert q.Valid() && r.Valid();
    }
    DeletedIs(recs, k, p);
    MergeTotals(recs[..k - 1], p, q, r, recs[k + 1..]);
    MergeValid(recs, k, p);
  }

  lemma {:induction false} DeletedIs(recs: seq<Rec>, k: nat, p: Rec)
    requires 0 < k < |recs| && p == recs[k - 1].(recLen := recs[k - 1].recLen + recs[k].recLen)
    ensures Deleted(recs, k) == recs[..k - 1] + [p] + recs[k + 1..]
    ensures recs[..k - 1] + [recs[k - 1], recs[k]] + recs[k + 1..] == recs && recs[..k - 1] + [recs[k - 1]] == recs[..k]
  {
    var s := recs[..k] + recs[k + 1..];
    assert s[..k - 1] == recs[..k - 1] && s[k..] == recs[k + 1..];
  }

  /** A record that goes leaves its bytes to the one before it; the first one stays, without its
      entry. */
  lemma {:induction false} DeleteLeaves(recs: seq<Rec>, k: nat)
    requires k < |recs|
    ensures Deleted(recs, k) == if k == 0 then [Rec(0, recs[0].recLen, "", 0)] + recs[1..]
                                else recs[..k - 1] + [recs[k - 1].(recLen := recs[k - 1].recLen + recs[k].recLen)]
                                     + recs[k + 1..]
    ensures Compact(recs) ==> Compact(Deleted(recs, k))
  {
    if k > 0 {
      DeletedIs(recs, k, recs[k - 1].(recLen := recs[k - 1].recLen + recs[k].recLen));
    }
    if Compact(recs) {
      DeleteStaysCompact(recs, k);
    }
  }

  lemma {:induction false} MergeValid(recs: seq<Rec>, k: nat, p: Rec)
    requires AllValid(recs) && 0 < k < |recs| && p.Valid()
    ensures AllValid(recs[..k - 1] + [p] + recs[k + 1..])
  {
  }

  lemma {:induction false} MergeTotals(a: seq<Rec>, p: Rec, q: Rec, r: Rec, b: seq<Rec>)
    requires p == q.(recLen := q.recLen + r.recLen)
    ensures Total(a + [p] + b) == Total(a + [q, r] + b)
    ensures LiveOf(a + [p] + b) == LiveOf(a + [q]) + LiveOf(b)
  {
    Single(p);
    Single(q);
    Single(r);
    TotalConcat([q], [r]);
    assert [q] + [r] == [q, r];
    TotalConcat(a + [p], b);
    TotalConcat(a, [p]);
    TotalConcat(a + [q, r], b);
    TotalConcat(a, [q, r]);
    LiveConcat(a + [p], b);
    LiveConcat(a, [p]);
    LiveConcat(a, [q]);
  }

  /** Deleting what was just put behind a live entry restores the block, byte for byte of
      its records. */
  lemma {:induction false} InsertThenDelete(recs: seq<Rec>, size: nat, k: nat, e: Dirent)
    requires Tiled(recs, size) && k < |recs| && recs[k].Live()
    requires MinLen(|e.name|) <= recs[k].Spare()
    ensures Deleted(Spliced(recs, k, Host(recs[k], e)), k + 1) == recs
  {
    var s := Spliced(recs, k, Host(recs[k], e));
    assert s[..k + 1] + s[k + 2..] == recs[k := s[k]];
  }

  /** Only the first record may be dead: what adding, deleting and splitting leave behind. */
  predicate Compact(recs: seq<Rec>) {
    forall i :: 0 < i < |recs| ==> recs[i].Live()
  }

  lemma {:induction false} InsertStaysCompact(recs: seq<Rec>, k: nat, e: Dirent)
    requires Compact(recs) && k < |recs| && MinLen(|recs[k].name|) <= recs[k].recLen && e.Valid()
    ensures Compact(Spliced(recs, k, Host(recs[k], e)))
  {
    var h := Host(recs[k], e);
    var s := Spliced(recs, k, h);
    forall i | 0 < i < |s| ensures s[i].Live() {
      assert s[i] == if i < k then recs[i] else if i < k + |h| then h[i - k] else recs[i - |h| + 1];
    }
  }

  lemma {:induction false} DeleteStaysCompact(recs: seq<Rec>, k: nat)
    requires Compact(recs) && k < |recs|
    ensures Compact(Deleted(recs, k))
  {
    var s := Deleted(recs, k);
    forall i | 0 < i < |s| ensures s[i].Live() {
      assert k > 0 && i < k ==> s[i].ino == recs[i].ino;
      assert k > 0 && i >= k ==> s[i] == recs[i + 1];
    }
  }

  /** A compact block of at least 792 bytes that has no room for some name holds at least
      two entries, as splitting it requires. */
  lemma {:induction false} NoRoomMeansTwo(recs: seq<Rec>, size: nat, len: int)
    requires Tiled(recs, size) && Compact(recs) && NoRoom(recs, |recs|, len)
    requires len <= MinLen(NAME_LEN) && size >= 3 * MinLen(NAME_LEN)
    ensures |LiveOf(recs)| >= 2
  {
    var first, rest := recs[0], recs[1..];
    ShortSpare(first, len);
    assert Total(recs) == first.recLen + Total(rest) && LiveOf(recs) == One(first) + LiveOf(rest);
    if rest != [] {
      var second, more := recs[1], recs[2..];
      assert rest[0] == second && rest[1..] == more;
      ShortSpare(second, len);
      assert LiveOf(rest) == [second.Ent()] + LiveOf(more);
      if more != [] {
        assert more[0].Live();
      }
    }
  }

  lemma {:induction false} ShortSpare(r: Rec, len: int)
    requires r.Valid() && r.Spare() < len <= MinLen(NAME_LEN)
    ensures r.recLen < (if r.Live() then 2 * MinLen(NAME_LEN) else MinLen(NAME_LEN))
  {
  }
}
