/**
 The life of an inode number under the eVFS calls: tracked by evfs_inode_alloc, untracked
 by evfs_inode_free and by the directory calls. The facts about traces hold for every
 legal trace, so for every interleaving of the calls.
 */
module InodeLife {
  import opened Tracker

  const ENOENT: int := 2
  const EBUSY: int := 16
  const EEXIST: int := 17
  const EFSCORRUPTED: int := 117

  predicate Tracks(e: Event, nr: nat) {
    e.Point? && e.op == TestAndSet && e.nr == nr && e.ret == 0
  }

  predicate Untracks(e: Event, nr: nat) {
    e.Point? && e.nr == nr && (e.op == Clear || (e.op == TestAndClear && e.ret == 1))
  }

  /** A member of the set was tracked by some event and not untracked since. */
  lemma {:induction false} MemberWasTracked(tr: seq<Event>, bound: nat, nr: nat) returns (q: nat)
    requires Legal(tr, bound) && nr in Replay(tr, bound)
    ensures q < |tr| && Tracks(tr[q], nr) && nr < bound
    ensures forall i :: q < i < |tr| ==> !Untracks(tr[i], nr) && !Tracks(tr[i], nr)
  {
    var n := |tr| - 1;
    if Tracks(tr[n], nr) {
      q := n;
    } else {
      q := MemberWasTracked(tr[..n], bound, nr);
    }
  }

  lemma {:induction false} LegalPrefix(tr: seq<Event>, bound: nat, k: nat)
    requires Legal(tr, bound) && k < |tr|
    ensures Legal(tr[..k], bound)
    ensures tr[k].Point? ==> tr[k].ret == Result(tr[k].op, Replay(tr[..k], bound), tr[k].nr, bound)
  {
    var n := |tr| - 1;
    if k < n {
      LegalPrefix(tr[..n], bound, k);
      assert tr[..n][..k] == tr[..k];
    }
  }

  /** An untracking that finds the number set comes after a tracking of that number, with
      neither a tracking nor an untracking of it in between. */
  lemma {:induction false} FreeNeedsTracking(tr: seq<Event>, bound: nat, p: nat) returns (q: nat)
    requires Legal(tr, bound) && p < |tr| && tr[p].Point? && tr[p].op == TestAndClear && tr[p].ret == 1
    ensures q < p && Tracks(tr[q], tr[p].nr)
    ensures forall i :: q < i < p ==> !Untracks(tr[i], tr[p].nr) && !Tracks(tr[i], tr[p].nr)
  {
    LegalPrefix(tr, bound, p);
    q := MemberWasTracked(tr[..p], bound, tr[p].nr);
  }

  /** A number stays in the set until it is untracked. */
  lemma {:induction false} TrackedStays(tr: seq<Event>, bound: nat, nr: nat, q: nat)
    requires Legal(tr, bound) && q < |tr| && Tracks(tr[q], nr)
    requires forall i :: q < i < |tr| ==> !Untracks(tr[i], nr)
    ensures nr in Replay(tr, bound)
  {
    var n := |tr| - 1;
    LegalPrefix(tr, bound, n);
    if q < n {
      TrackedStays(tr[..n], bound, nr, q);
    }
  }

  /** Between two trackings of one number lies an untracking of it. */
  lemma {:induction false} TrackingsAlternate(tr: seq<Event>, bound: nat, nr: nat, q1: nat, q2: nat) returns (u: nat)
    requires Legal(tr, bound) && q1 < q2 < |tr| && Tracks(tr[q1], nr) && Tracks(tr[q2], nr)
    ensures q1 < u < q2 && Untracks(tr[u], nr)
  {
    LegalPrefix(tr, bound, q2);
    if u' :| q1 < u' < q2 && Untracks(tr[u'], nr) {
      u := u';
    } else {
      TrackedStays(tr[..q2], bound, nr, q1);
      assert false;
    }
  }

  /** So it is under every interleaving of any number of threads. */
  lemma {:induction false} TrackingsAlternateInRuns(numBits: nat, threads: nat, turns: seq<Turn>, st: State, nr: nat,
      q1: nat, q2: nat)
    returns (u: nat)
    requires Run(Init(numBits, threads), turns, st)
    requires q1 < q2 < |st.trace| && Tracks(st.trace[q1], nr) && Tracks(st.trace[q2], nr)
    ensures q1 < u < q2 && Untracks(st.trace[u], nr)
  {
    LinearizableRuns(numBits, threads, turns, st);
    u := TrackingsAlternate(st.trace, Bound(st), nr, q1, q2);
  }

  /** ... and an untracking that finds the number set comes after a tracking of it. */
  lemma {:induction false} FreeNeedsTrackingInRuns(numBits: nat, threads: nat, turns: seq<Turn>, st: State, p: nat)
    returns (q: nat)
    requires Run(Init(numBits, threads), turns, st)
    requires p < |st.trace| && st.trace[p].Point? && st.trace[p].op == TestAndClear && st.trace[p].ret == 1
    ensures q < p && Tracks(st.trace[q], st.trace[p].nr)
    ensures forall i :: q < i < p ==> !Untracks(st.trace[i], st.trace[p].nr) && !Tracks(st.trace[i], st.trace[p].nr)
  {
    LinearizableRuns(numBits, threads, turns, st);
    q := FreeNeedsTracking(st.trace, Bound(st), p);
  }

  class Inodes {
    const count: nat          // inodes of the volume, numbered from 1
    const bound: nat := (count + BITS - 1) / BITS * BITS // first number without a word in the tracker
    var inUse: set<nat>       // the inode bitmap
    var nlink: map<nat, int>  // link counts
    var tracked: set<nat>     // the tracker
    ghost var log: seq<Event>

    ghost predicate Valid()
      reads this
    {
      Legal(log, bound) && tracked == Replay(log, bound)
    }

    constructor (count: nat)
      ensures Valid() && tracked == {} && log == [] && this.count == count
    {
      this.count := count;
      inUse, nlink, tracked, log := {}, map[], {}, [];
    }

    /** One call of evfs_bit_wrapper. */
    method BitOp(op: Op, nr: nat) returns (r: int)
      requires Valid()
      modifies this`tracked, this`log
      ensures Valid() && log == old(log) + [Point(0, op, nr, r)]
      ensures r == Result(op, old(tracked), nr, bound) && tracked == Effect(op, old(tracked), nr, bound)
    {
      r := Result(op, tracked, nr, bound);
      tracked := Effect(op, tracked, nr, bound);
      log := log + [Point(0, op, nr, r)];
      assert log[..|log| - 1] == old(log);
    }

    /** __evfs_inode_track. */
    method Track(nr: nat) returns (ret: int)
      requires Valid()
      modifies this`tracked, this`log
      ensures Valid() && log == old(log) + [Point(0, TestAndSet, nr, Result(TestAndSet, old(tracked), nr, bound))]
      ensures ret == if nr >= bound then -EINVAL else if nr in old(tracked) then -EEXIST else 0
      ensures tracked == if ret == 0 then old(tracked) + {nr} else old(tracked)
    {
      ret := BitOp(TestAndSet, nr);
      if ret == 1 {
        assert old(tracked) + {nr} == old(tracked);
        ret := -EEXIST;
      }
    }

    /** __evfs_inode_untrack. */
    method Untrack(nr: nat) returns (ret: int)
      requires Valid()
      modifies this`tracked, this`log
      ensures Valid() && log == old(log) + [Point(0, TestAndClear, nr, Result(TestAndClear, old(tracked), nr, bound))]
      ensures ret == if nr >= bound then -EINVAL else if nr !in old(tracked) then -ENOENT else 0
      ensures tracked == if ret == 0 then old(tracked) - {nr} else old(tracked)
    {
      ret := BitOp(TestAndClear, nr);
      if ret == 0 {
        assert old(tracked) - {nr} == old(tracked);
        ret := -ENOENT;
      } else if ret == 1 {
        ret := 0;
      }
    }

    /** evfs_inode_alloc. A number outside the volume belongs to no group; a number that is free
        but cannot be tracked stays marked in the bitmap. */
    method Alloc(nr: nat) returns (ret: int)
      requires Valid()
      modifies this
      ensures Valid() && inUse == if 1 <= nr <= count then old(inUse) + {nr} else old(inUse)
      ensures ret == 0 <==> 1 <= nr <= count && nr !in old(inUse) && nr < bound && nr !in old(tracked)
      ensures ret == if !(1 <= nr <= count) then -EFSCORRUPTED
                     else if nr in old(inUse) then -EEXIST
                     else if nr >= bound then -EINVAL
                     else if nr in old(tracked) then -EEXIST else 0
      ensures nr == count && count % BITS == 0 ==> ret != 0
      ensures ret == 0 ==> nlink == old(nlink)[nr := 1] && tracked == old(tracked) + {nr}
      ensures ret != 0 ==> nlink == old(nlink) && tracked == old(tracked)
      ensures log == if nr in old(inUse) || !(1 <= nr <= count) then old(log)
                     else old(log) + [Point(0, TestAndSet, nr, Result(TestAndSet, old(tracked), nr, bound))]
    {
      if !(1 <= nr <= count) {
        return -EFSCORRUPTED;
      }
      if nr in inUse {
        assert inUse + {nr} == inUse;
        return -EEXIST;
      }
      inUse := inUse + {nr};
      ret := Track(nr);
      if ret < 0 {
        return;
      }
      nlink := nlink[nr := 1];
    }

    /** evfs_inode_free; `iget` is what ext4_iget reports. It succeeds only on a number that
        an allocation tracked and nothing untracked since. */
    method Free(nr: nat, iget: int) returns (ret: int, ghost q: nat)
      requires Valid() && iget <= 0 && (iget == 0 ==> nr in nlink)
      modifies this
      ensures Valid() && inUse == old(inUse)
      ensures ret == 0 <==> iget == 0 && nr < bound && nr in old(tracked) && old(nlink)[nr] <= 1
      ensures ret == if iget < 0 then iget
                     else if old(nlink)[nr] > 1 then -EBUSY
                     else if nr >= bound then -EINVAL
                     else if nr !in old(tracked) then -ENOENT else 0
      ensures ret == 0 ==> q < |old(log)| && Tracks(old(log)[q], nr)
                           && (forall i :: q < i < |old(log)| ==> !Untracks(old(log)[i], nr))
      ensures ret == 0 ==> tracked == old(tracked) - {nr} && nlink == old(nlink)[nr := old(nlink)[nr] - 1]
      ensures ret != 0 ==> tracked == old(tracked) && nlink == old(nlink)
    {
      q := 0;
      if iget < 0 {
        return iget, q;
      }
      if nlink[nr] > 1 {
        return -EBUSY, q;
      }
      ret := Untrack(nr);
      if ret < 0 {
        return;
      }
      q := FreeNeedsTracking(log, bound, |log| - 1);
      nlink := nlink[nr := nlink[nr] - 1];
    }

    /** evfs_dentry_delete, as far as the tracker goes. */
    method Unlink(nr: nat) returns (ret: int)
      requires Valid()
      modifies this`tracked, this`log
      ensures Valid() && ret == (if nr < bound then 0 else -EINVAL)
      ensures tracked == if nr < bound then old(tracked) - {nr} else old(tracked)
      ensures log == old(log) + [Point(0, Clear, nr, ret)]
    {
      ret := BitOp(Clear, nr);
    }

    /** evfs_dentry_update of an entry from inode `from` to inode `to`: the link moves, and an
        inode that loses its last link is untracked. */
    method Relink(from: nat, to: nat) returns (ret: int)
      requires Valid() && from in nlink && to in nlink
      modifies this`tracked, this`log, this`nlink
      ensures Valid() && nlink.Keys == old(nlink).Keys
      ensures from != to ==> nlink[to] == old(nlink)[to] + 1 && nlink[from] == old(nlink)[from] - 1
      ensures forall i :: i in nlink && (from == to || (i != from && i != to)) ==> nlink[i] == old(nlink)[i]
      ensures ret == 0 || (ret == -EINVAL && from >= bound)
      ensures if nlink[from] == 0 && from < bound then tracked == old(tracked) - {from} else tracked == old(tracked)
      ensures nlink[from] != 0 ==> log == old(log)
    {
      nlink := nlink[to := nlink[to] + 1];
      nlink := nlink[from := nlink[from] - 1];
      ret := 0;
      if nlink[from] == 0 {
        ret := BitOp(Clear, from);
      }
    }
  }
}
