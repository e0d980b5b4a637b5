/**
 dx_sort_map: comb sort, then bubble sort, in place, over the hash map of a directory block.
 */
module DxSort {

  /** One live entry of the block being split: its hash, its place in the block and the
      length of its record. */
  datatype MapEntry = MapEntry(hash: int, at: nat, size: nat)

  /** Hashes do not decrease up to index `n`. */
  ghost predicate SortedTo(s: seq<MapEntry>, n: int) {
    forall i, j :: 0 <= i < j < |s| && i < n ==> s[i].hash <= s[j].hash
  }

  ghost predicate SortedByHash(s: seq<MapEntry>) {
    forall i, j :: 0 <= i < j < |s| ==> s[i].hash <= s[j].hash
  }

  ghost predicate Permutes(a: seq<MapEntry>, b: seq<MapEntry>) {
    multiset(a) == multiset(b)
  }

  method Swap(m: array<MapEntry>, i: nat, j: nat)
    requires i < j < m.Length
    modifies m
    ensures m[..] == old(m[..])[i := old(m[j])][j := old(m[i])]
    ensures Permutes(old(m[..]), m[..])
  {
    m[i], m[j] := m[j], m[i];
  }

  /** The next comb gap. In the code's unsigned arithmetic only 9 and 10 become 11. */
  function NextGap(count: nat): (gap: nat)
    requires count > 2
    ensures 0 < gap < count
  {
    var c := count * 10 / 13;
    if c == 9 || c == 10 then 11 else c
  }

  /** It is ten thirteenths of the last one, rounded down, and never 9 or 10. */
  lemma {:induction false} NextGapIs(count: nat, c: nat)
    requires count > 2 && 13 * c <= 10 * count < 13 * c + 13
    ensures NextGap(count) == if 9 <= c <= 10 then 11 else c
  {
  }

  /** No entry at i, i + gap, i + 2 * gap, ... has a lower hash than `h`. */
  ghost predicate NoneBelow(s: seq<MapEntry>, i: int, gap: nat, h: int)
    requires gap > 0
    decreases |s| - i
  {
    0 <= i < |s| ==> h <= s[i].hash && NoneBelow(s, i + gap, gap, h)
  }

  lemma {:induction false} NoneBelowLess(s: seq<MapEntry>, i: int, gap: nat, h: int, h': int)
    requires gap > 0 && NoneBelow(s, i, gap, h) && h' <= h
    ensures NoneBelow(s, i, gap, h')
    decreases |s| - i
  {
    if 0 <= i < |s| {
      NoneBelowLess(s, i + gap, gap, h, h');
    }
  }

  lemma {:induction false} NoneBelowSame(s: seq<MapEntry>, t: seq<MapEntry>, i: int, gap: nat, h: int)
    requires gap > 0 && |s| == |t| && NoneBelow(s, i, gap, h) && forall k :: i <= k < |s| && 0 <= k ==> s[k] == t[k]
    ensures NoneBelow(t, i, gap, h)
    decreases |s| - i
  {
    if 0 <= i < |s| {
      NoneBelowSame(s, t, i + gap, gap, h);
    }
  }

  /** Each of the entries lo, ..., hi-1 is the lowest of those a multiple of the gap behind it. */
  ghost predicate Combed(s: seq<MapEntry>, lo: int, hi: int, gap: nat)
    requires gap > 0
  {
    forall i :: 0 <= i < |s| && lo <= i < hi ==> NoneBelow(s, i, gap, s[i].hash)
  }

  lemma {:induction false} CombStep(s: seq<MapEntry>, q: nat, p: nat, gap: nat)
    requires gap > 0 && p == q + gap < |s| && Combed(s, q + 1, p + 1, gap)
    ensures Combed(if s[p].hash < s[q].hash then s[q := s[p]][p := s[q]] else s, q, p, gap)
  {
    var t := if s[p].hash < s[q].hash then s[q := s[p]][p := s[q]] else s;
    assert NoneBelow(s, p, gap, s[p].hash);
    forall i | q <= i < p ensures NoneBelow(t, i, gap, t[i].hash) {
      if i == q {
        NoneBelowLess(s, p + gap, gap, s[p].hash, t[q].hash);
        NoneBelowSame(s, t, p + gap, gap, t[q].hash);
      } else {
        CombRest(s, t, i, p, gap);
      }
    }
  }

  /** Exchanging two entries a gap apart leaves what is between them as it was. */
  lemma {:induction false} CombRest(s: seq<MapEntry>, t: seq<MapEntry>, i: nat, p: nat, gap: nat)
    requires gap > 0 && |s| == |t| && i < p < i + gap && p < |s| && NoneBelow(s, i, gap, s[i].hash)
    requires t[i] == s[i] && forall k :: p < k < |s| ==> t[k] == s[k]
    ensures NoneBelow(t, i, gap, t[i].hash)
  {
    NoneBelowSame(s, t, i + gap, gap, s[i].hash);
  }

  /** One pass of the comb, from the top down: in each row of entries a gap apart the lowest
      comes first. */
  method Comb(m: array<MapEntry>, gap: nat)
    requires gap > 0
    modifies m
    ensures Permutes(old(m[..]), m[..]) && Combed(m[..], 0, gap, gap)
  {
    var p := m.Length - 1;
    var q := p - gap;
    while q >= 0
      invariant p == q + gap && q < m.Length - gap && (q < -1 ==> p == m.Length - 1)
      invariant Permutes(old(m[..]), m[..]) && Combed(m[..], q + 1, p + 1, gap)
    {
      CombStep(m[..], q, p, gap);
      if m[p].hash < m[q].hash {
        Swap(m, q, p);
      }
      p, q := p - 1, q - 1;
    }
  }

  ghost predicate LowestFrom(s: seq<MapEntry>, q: int) {
    forall j :: 0 <= q < j < |s| ==> s[q].hash <= s[j].hash
  }

  ghost predicate SortedFrom(s: seq<MapEntry>, q: int) {
    forall i, j :: 0 <= q <= i < j < |s| ==> s[i].hash <= s[j].hash
  }

  /** A pass that has come down to `q` has not touched the sorted front, and carries the
      smallest entry seen; unless it swapped, all it has seen is in order. */
  ghost predicate Passing(s: seq<MapEntry>, q: int, n: nat, more: bool) {
    && SortedTo(s, n) && LowestFrom(s, q)
    && (q <= n ==> SortedTo(s, n + 1))
    && (if more then n < |s| else SortedFrom(s, q))
  }

  lemma {:induction false} PassSwap(s: seq<MapEntry>, q: nat, n: nat, more: bool)
    requires q + 1 < |s| && Passing(s, q + 1, n, more) && s[q + 1].hash < s[q].hash
    ensures Passing(s[q := s[q + 1]][q + 1 := s[q]], q, n, true)
  {
    var t := s[q := s[q + 1]][q + 1 := s[q]];
    assert n <= q;
    forall i, j | 0 <= i < j < |t| && i < n ensures t[i].hash <= t[j].hash {
      assert t[i] == s[i] && s[i].hash <= s[q].hash && s[i].hash <= s[q + 1].hash;
    }
  }

  lemma {:induction false} PassOn(s: seq<MapEntry>, q: nat, n: nat, more: bool)
    requires q + 1 < |s| && Passing(s, q + 1, n, more) && s[q + 1].hash >= s[q].hash
    ensures Passing(s, q, n, more)
  {
  }

  /** One pass of the bubble sort, from the top down, carries the smallest of the entries
      from `n` on to `n`. */
  method Bubble(m: array<MapEntry>, ghost n: nat) returns (more: bool)
    requires SortedTo(m[..], n) && n <= m.Length
    modifies m
    ensures Permutes(old(m[..]), m[..]) && SortedTo(m[..], n + 1)
    ensures n == m.Length ==> !more
    ensures !more ==> SortedByHash(m[..])
  {
    more := false;
    var q := m.Length - 1;
    while q > 0
      invariant -1 <= q < m.Length && (m.Length > 0 ==> q >= 0)
      invariant Permutes(old(m[..]), m[..]) && Passing(m[..], q, n, more)
    {
      q := q - 1;
      var swapped := BubbleOne(m, q, n, more);
      more := more || swapped;
    }
    PassEnds(m[..], q, n, more);
  }

  /** One comparison of the pass. */
  method BubbleOne(m: array<MapEntry>, q: nat, ghost n: nat, ghost more: bool) returns (swapped: bool)
    requires q + 1 < m.Length && Passing(m[..], q + 1, n, more)
    modifies m
    ensures Permutes(old(m[..]), m[..]) && Passing(m[..], q, n, more || swapped)
  {
    ghost var s := m[..];
    swapped := m[q + 1].hash < m[q].hash;
    if swapped {
      Swap(m, q, q + 1);
      PassSwap(s, q, n, more);
    } else {
      PassOn(s, q, n, more);
    }
  }

  lemma {:induction false} PassEnds(s: seq<MapEntry>, q: int, n: nat, more: bool)
    requires n <= |s| && Passing(s, q, n, more) && q == if s == [] then -1 else 0
    ensures SortedTo(s, n + 1) && (n == |s| ==> !more) && (!more ==> SortedByHash(s))
  {
  }

  method SortMap(m: array<MapEntry>)
    modifies m
    ensures Permutes(old(m[..]), m[..]) && SortedByHash(m[..])
  {
    var count := m.Length;
    while count > 2
      invariant Permutes(old(m[..]), m[..])
    {
      count := NextGap(count);
      Comb(m, count);
    }
    ghost var n := 0;
    var more := true;
    while more
      invariant Permutes(old(m[..]), m[..])
      invariant 0 <= n && (more ==> n <= m.Length) && SortedTo(m[..], n)
      invariant !more ==> SortedByHash(m[..])
      decreases more, m.Length - n
    {
      more := Bubble(m, n);
      n := n + 1;
    }
  }
}
