/**
 The shape shared by the two on-disk search trees of ext4: a block is either a leaf
 holding items in order, or an index block whose entries pair a key with a child block.
 A root-to-leaf path is kept as one `Level` per index block, exactly as `ext4_ext_path`
 and `dx_frame` keep one slot per level: the entries of that block and the entry taken.
 */
module KeyTree {

  datatype Node<T> =
    | Leaf(max: nat, items: seq<T>)
    | Index(max: nat, es: seq<Entry<T>>)

  datatype Entry<T> = Entry(key: int, child: Node<T>)

  datatype Level<T> = Level(max: nat, es: seq<Entry<T>>, pos: nat) {
    predicate Ok() {
      pos < |es|
    }

    /** The index block of this level once `n` is the child it points at. */
    function Put(n: Node<T>): Node<T>
      requires Ok()
    {
      Index(max, es[pos := Entry(es[pos].key, n)])
    }
  }

  type Path<T> = seq<Level<T>>

  predicate PathOk<T>(path: Path<T>) {
    forall k :: 0 <= k < |path| ==> path[k].Ok()
  }

  /** The items of a subtree, left to right. */
  function Flat<T>(n: Node<T>): seq<T>
    decreases n, 0
  {
    match n
    case Leaf(_, items) => items
    case Index(_, es) => FlatEs(es)
  }

  function FlatEs<T>(es: seq<Entry<T>>): seq<T>
    decreases es, 0
  {
    if es == [] then [] else
      assert es[0].child < es[0];
      Flat(es[0].child) + FlatEs(es[1..])
  }

  /** The tree obtained by putting `n` where the path ends. */
  function Fill<T>(path: Path<T>, n: Node<T>): Node<T>
    requires PathOk(path)
  {
    if path == [] then n else Fill(path[..|path| - 1], path[|path| - 1].Put(n))
  }

  /** Everything in the tree that lies left of where the path ends. */
  function Pre<T>(path: Path<T>): seq<T>
    requires PathOk(path)
  {
    if path == [] then [] else
      var l := path[|path| - 1];
      Pre(path[..|path| - 1]) + FlatEs(l.es[..l.pos])
  }

  /** Everything in the tree that lies right of where the path ends. */
  function Post<T>(path: Path<T>): seq<T>
    requires PathOk(path)
  {
    if path == [] then [] else
      var l := path[|path| - 1];
      FlatEs(l.es[l.pos + 1..]) + Post(path[..|path| - 1])
  }

  lemma {:induction false} FlatEsConcat<T>(a: seq<Entry<T>>, b: seq<Entry<T>>)
    ensures FlatEs(a + b) == FlatEs(a) + FlatEs(b)
  {
    if a == [] {
      assert a + b == b;
    } else {
      assert (a + b)[1..] == a[1..] + b;
      FlatEsConcat(a[1..], b);
    }
  }

  lemma {:induction false} FlatEsAt<T>(es: seq<Entry<T>>, i: nat)
    requires i < |es|
    ensures FlatEs(es) == FlatEs(es[..i]) + Flat(es[i].child) + FlatEs(es[i + 1..])
  {
    var tail := es[i..];
    assert tail[0] == es[i] && tail[1..] == es[i + 1..];
    FlatEsConcat(es[..i], tail);
    assert es[..i] + tail == es;
  }

  lemma {:induction false} FlatPut<T>(l: Level<T>, n: Node<T>)
    requires l.Ok()
    ensures Flat(l.Put(n)) == FlatEs(l.es[..l.pos]) + Flat(n) + FlatEs(l.es[l.pos + 1..])
  {
    var es := l.es[l.pos := Entry(l.es[l.pos].key, n)];
    FlatEsAt(es, l.pos);
    assert es[..l.pos] == l.es[..l.pos];
    assert es[l.pos + 1..] == l.es[l.pos + 1..];
  }

  /** What a tree holds is what the path leaves behind on each side of the node it reaches. */
  lemma {:induction false} FlatFill<T>(path: Path<T>, n: Node<T>)
    requires PathOk(path)
    ensures Flat(Fill(path, n)) == Pre(path) + Flat(n) + Post(path)
  {
    if path != [] {
      var l := path[|path| - 1];
      var up := path[..|path| - 1];
      FlatFill(up, l.Put(n));
      FlatPut(l, n);
      calc {
        Flat(Fill(path, n));
        Pre(up) + (FlatEs(l.es[..l.pos]) + Flat(n) + FlatEs(l.es[l.pos + 1..])) + Post(up);
        (Pre(up) + FlatEs(l.es[..l.pos])) + Flat(n) + (FlatEs(l.es[l.pos + 1..]) + Post(up));
      }
    }
  }

  lemma {:induction false} FillConcat<T>(a: Path<T>, b: Path<T>, n: Node<T>)
    requires PathOk(a) && PathOk(b)
    ensures Fill(a + b, n) == Fill(a, Fill(b, n))
    decreases |b|
  {
    if b == [] {
      assert a + b == a;
    } else {
      var up := b[..|b| - 1];
      assert (a + b)[..|a + b| - 1] == a + up;
      FillConcat(a, up, b[|b| - 1].Put(n));
    }
  }

  lemma {:induction false} Assoc<T>(a: seq<T>, b: seq<T>, c: seq<T>)
    ensures (a + b) + c == a + (b + c)
  {
  }

  lemma {:induction false} PreConcat<T>(a: Path<T>, b: Path<T>)
    requires PathOk(a) && PathOk(b)
    ensures Pre(a + b) == Pre(a) + Pre(b)
    decreases |b|
  {
    if b == [] {
      assert a + b == a;
    } else {
      var up, l := b[..|b| - 1], b[|b| - 1];
      assert (a + b)[..|a + b| - 1] == a + up;
      PreConcat(a, up);
      Assoc(Pre(a), Pre(up), FlatEs(l.es[..l.pos]));
    }
  }

  lemma {:induction false} PostConcat<T>(a: Path<T>, b: Path<T>)
    requires PathOk(a) && PathOk(b)
    ensures Post(a + b) == Post(b) + Post(a)
    decreases |b|
  {
    if b == [] {
      assert a + b == a;
    } else {
      var up, l := b[..|b| - 1], b[|b| - 1];
      assert (a + b)[..|a + b| - 1] == a + up;
      PostConcat(a, up);
      Assoc(FlatEs(l.es[l.pos + 1..]), Post(up), Post(a));
    }
  }

  lemma {:induction false} SidesConcat<T>(a: Path<T>, b: Path<T>)
    requires PathOk(a) && PathOk(b)
    ensures Pre(a + b) == Pre(a) + Pre(b)
    ensures Post(a + b) == Post(b) + Post(a)
  {
    PreConcat(a, b);
    PostConcat(a, b);
  }

  /** The root block of a filled path is its first level, up to the child taken. */
  lemma {:induction false} FillTop<T>(path: Path<T>, n: Node<T>)
    requires path != [] && PathOk(path)
    ensures var r := Fill(path, n);
            r.Index? && r.max == path[0].max && |r.es| == |path[0].es|
    decreases |path|
  {
    if |path| > 1 {
      FillTop(path[..|path| - 1], path[|path| - 1].Put(n));
    } else {
      assert path[..0] == [];
    }
  }

  lemma {:induction false} FillFront<T>(l: Level<T>, p: Path<T>, n: Node<T>)
    requires l.Ok() && PathOk(p)
    ensures PathOk([l] + p) && Fill([l] + p, n) == l.Put(Fill(p, n))
  {
    FillConcat([l], p, n);
    assert [l][..0] == [];
  }

  lemma {:induction false} SidesFront<T>(l: Level<T>, p: Path<T>)
    requires l.Ok() && PathOk(p)
    ensures PathOk([l] + p)
    ensures Pre([l] + p) == FlatEs(l.es[..l.pos]) + Pre(p)
    ensures Post([l] + p) == Post(p) + FlatEs(l.es[l.pos + 1..])
  {
    SidesConcat([l], p);
    assert [l][..0] == [];
  }

  // ---------------------------------------------------------------- searching

  predicate KeysSorted<T>(es: seq<Entry<T>>) {
    forall i, j :: 0 <= i < j < |es| ==> es[i].key < es[j].key
  }

  predicate KeysRise<T>(es: seq<Entry<T>>) {
    forall i, j :: 0 <= i < j < |es| ==> es[i].key <= es[j].key
  }

  /** `pos` is the entry a search for `key` takes: the last one not above it, else the first. */
  predicate Chosen<T>(es: seq<Entry<T>>, pos: nat, key: int) {
    && pos < |es|
    && (pos == 0 || es[pos].key <= key)
    && (pos + 1 < |es| ==> key < es[pos + 1].key)
  }

  predicate OnPath<T>(path: Path<T>, key: int) {
    forall k :: 0 <= k < |path| ==> Chosen(path[k].es, path[k].pos, key)
  }

  /** Two levels that agree on everything beside the entry the path goes through. */
  ghost predicate SameSides<T>(a: Level<T>, b: Level<T>) {
    && a.Ok() && b.Ok()
    && a.max == b.max && a.pos == b.pos && |a.es| == |b.es|
    && (forall i :: 0 <= i < |a.es| && i != a.pos ==> a.es[i] == b.es[i])
  }

  ghost predicate SameLevel<T>(a: Level<T>, b: Level<T>) {
    SameSides(a, b) && a.es[a.pos].key == b.es[a.pos].key
  }

  ghost predicate SameAround<T>(p: Path<T>, q: Path<T>) {
    |p| == |q| && forall k :: 0 <= k < |p| ==> SameSides(p[k], q[k])
  }

  ghost predicate SamePath<T>(p: Path<T>, q: Path<T>) {
    |p| == |q| && forall k :: 0 <= k < |p| ==> SameLevel(p[k], q[k])
  }

  lemma {:induction false} SameAroundSameSides<T>(p: Path<T>, q: Path<T>)
    requires SameAround(p, q)
    ensures PathOk(p) && PathOk(q)
    ensures Pre(p) == Pre(q) && Post(p) == Post(q)
  {
    if p != [] {
      var a, b := p[|p| - 1], q[|q| - 1];
      assert SameSides(a, b);
      assert a.es[..a.pos] == b.es[..b.pos];
      assert a.es[a.pos + 1..] == b.es[b.pos + 1..];
      var pu, qu := p[..|p| - 1], q[..|q| - 1];
      forall k | 0 <= k < |pu| ensures SameSides(pu[k], qu[k]) {
        assert SameSides(p[k], q[k]);
      }
      SameAroundSameSides(pu, qu);
    }
  }

  /** A search key leads to one place only. */
  lemma {:induction false} PathUnique<T>(p: Path<T>, m: Node<T>, q: Path<T>, n: Node<T>, key: int)
    requires |p| == |q| && OnPath(p, key) && OnPath(q, key)
    requires forall k :: 0 <= k < |q| ==> KeysRise(q[k].es)
    requires Fill(p, m) == Fill(q, n)
    ensures SamePath(p, q) && m == n
  {
    if p != [] {
      var a, b := p[|p| - 1], q[|q| - 1];
      PathUnique(p[..|p| - 1], a.Put(m), q[..|q| - 1], b.Put(n), key);
      var ea, eb := a.Put(m).es, b.Put(n).es;
      assert forall i :: 0 <= i < |ea| ==> ea[i].key == a.es[i].key;
      assert forall i :: 0 <= i < |eb| ==> eb[i].key == b.es[i].key;
      assert a.pos == b.pos;
      assert ea[a.pos] == eb[a.pos];
      assert SameSides(a, b) by {
        assert forall i :: 0 <= i < |ea| && i != a.pos ==> ea[i] == a.es[i] && eb[i] == b.es[i];
      }
      forall k | 0 <= k < |p| ensures SameLevel(p[k], q[k]) {
        if k < |p| - 1 {
          assert SameLevel(p[..|p| - 1][k], q[..|q| - 1][k]);
        }
      }
    }
  }

  /** A path put together from a path down to an index block, the entry taken there, and
      a path below it. */
  lemma {:induction false} Route<T>(up: Path<T>, x: Level<T>, down: Path<T>, n: Node<T>, key: int)
    requires PathOk(up) && OnPath(up, key) && PathOk(down) && OnPath(down, key)
    requires Chosen(x.es, x.pos, key) && x.es[x.pos].child == Fill(down, n)
    ensures var q := up + ([x] + down);
            && PathOk(q) && OnPath(q, key)
            && Fill(q, n) == Fill(up, Index(x.max, x.es))
            && Pre(q) == Pre(up) + (FlatEs(x.es[..x.pos]) + Pre(down))
  {
    FillFront(x, down, n);
    FillConcat(up, [x] + down, n);
    assert x.Put(Fill(down, n)) == Index(x.max, x.es);
    SidesFront(x, down);
    SidesConcat(up, [x] + down);
  }

  /** Binary search among index entries; entry 0 is never compared with. */
  method SearchEntries<T>(es: seq<Entry<T>>, key: int) returns (pos: nat)
    requires es != [] 
    requires forall i, j :: 1 <= i < j < |es| ==> es[i].key <= es[j].key
    ensures Chosen(es, pos, key)
  {
    var l, r := 1, |es| - 1;
    while l <= r
      invariant 1 <= l <= r + 1 <= |es|
      invariant forall i :: 1 <= i < l ==> es[i].key <= key
      invariant forall i :: r < i < |es| ==> key < es[i].key
    {
      var m := l + (r - l) / 2;
      if key < es[m].key {
        r := m - 1;
      } else {
        l := m + 1;
      }
    }
    pos := l - 1;
  }
}
