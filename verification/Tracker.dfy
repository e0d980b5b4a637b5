/**
 The eVFS bitmap tracker: a bitmap whose words are present on first use, shared by any
 number of threads under one read/write lock per word. The model takes one step of one
 thread at a time, in any order.
 */
module Tracker {

  const BITS: nat := 64
  const EINVAL: int := 22

  /** test_and_set_bit, test_and_clear_bit and clear_bit, each atomic on its word. */
  datatype Op = TestAndSet | TestAndClear | Clear

  /** Where a thread is in evfs_bit_wrapper. */
  datatype Pc =
    | Idle                // outside
    | Checking            // compares the word number with the number of words
    | WantRead            // down_read
    | Testing             // first look at the word, under the read lock
    | Upgrading           // up_read
    | WantWrite           // down_write
    | Rechecking          // second look, under the write lock
    | Allocating          // kzalloc
    | Downgrading         // downgrade_write
    | Operating           // the bit operation, under the read lock
    | Releasing(ret: int) // up_read
    | Leaving(val: int)   // return

  datatype Thread = Thread(pc: Pc, op: Op, nr: nat)

  datatype Writer = Free | HeldBy(t: nat)

  /** One word with its lock. `allocs` counts how often it was allocated. */
  datatype Slot = Slot(present: bool, allocs: nat, bits: set<nat>, writer: Writer, readers: set<nat>)

  datatype Event =
    | Call(t: nat, op: Op, nr: nat)
    | Point(t: nat, op: Op, nr: nat, ret: int) // where the operation takes effect
    | Return(t: nat, ret: int)

  datatype State = State(slots: seq<Slot>, threads: seq<Thread>, trace: seq<Event>)

  function SlotOf(nr: nat): nat {
    nr / BITS
  }

  function BitOf(nr: nat): nat {
    nr % BITS
  }

  /** evfs_bm_tracker_init: as many words as it takes, none of them present. */
  function Init(numBits: nat, threads: nat): State {
    State(seq((numBits + BITS - 1) / BITS, _ => Slot(false, 0, {}, Free, {})),
          seq(threads, _ => Thread(Idle, Clear, 0)), [])
  }

  /** Every number below `numBits` has a word, and no two numbers share a bit of one. */
  lemma {:induction false} OwnBit(numBits: nat, threads: nat, a: nat, b: nat)
    ensures a < numBits ==> SlotOf(a) < |Init(numBits, threads).slots| && BitOf(a) < BITS
    ensures SlotOf(a) == SlotOf(b) && BitOf(a) == BitOf(b) ==> a == b
  {
    assert a == SlotOf(a) * BITS + BitOf(a) && b == SlotOf(b) * BITS + BitOf(b);
  }

  /** A tracker made for `count` inodes accepts number `count`, the last inode, exactly when
      `count` is no multiple of the word size. */
  lemma {:induction false} LastInode(count: nat, threads: nat)
    ensures SlotOf(count) < |Init(count, threads).slots| <==> count % BITS != 0
  {
  }

  // ------------------------------------------------------------ one atomic set

  /** The specification: a set of numbers below `bound`, changed by atomic operations. */
  function Result(op: Op, s: set<nat>, nr: nat, bound: nat): int {
    if nr >= bound then -EINVAL
    else if op == Clear then 0
    else if nr in s then 1 else 0
  }

  function Effect(op: Op, s: set<nat>, nr: nat, bound: nat): set<nat> {
    if nr >= bound then s
    else if op == TestAndSet then s + {nr} else s - {nr}
  }

  /** The set after the operations of the trace, in the order of their points. */
  function Replay(tr: seq<Event>, bound: nat): set<nat> {
    if tr == [] then {} else
      var s, e := Replay(tr[..|tr| - 1], bound), tr[|tr| - 1];
      if e.Point? then Effect(e.op, s, e.nr, bound) else s
  }

  /** Every operation returned what the atomic set would have at its point. */
  predicate Legal(tr: seq<Event>, bound: nat) {
    if tr == [] then true else
      var front, e := tr[..|tr| - 1], tr[|tr| - 1];
      Legal(front, bound) && (e.Point? ==> e.ret == Result(e.op, Replay(front, bound), e.nr, bound))
  }

  /** How far a thread's current call has got, from the trace alone. */
  datatype Phase = Out | Called(op: Op, nr: nat) | Done(ret: int)

  function PhaseOf(tr: seq<Event>, t: nat): Phase {
    if tr == [] then Out else
      var e := tr[|tr| - 1];
      if e.t != t then PhaseOf(tr[..|tr| - 1], t)
      else match e
           case Call(_, op, nr) => Called(op, nr)
           case Point(_, _, _, ret) => Done(ret)
           case Return(_, _) => Out
  }

  /** Each thread calls, takes effect once with the arguments of the call, and returns what
      it found there. */
  predicate InOrder(tr: seq<Event>) {
    if tr == [] then true else
      var front, e := tr[..|tr| - 1], tr[|tr| - 1];
      && InOrder(front)
      && match e
         case Call(t, _, _) => PhaseOf(front, t) == Out
         case Point(t, op, nr, _) => PhaseOf(front, t) == Called(op, nr)
         case Return(t, ret) => PhaseOf(front, t) == Done(ret)
  }

  // -------------------------------------------------------------------- steps

  /** What a thread does next: an idle one starts a call, any other goes on with its own. */
  datatype Action = Invoke(op: Op, nr: nat) | Go

  predicate CanStep(st: State, t: nat, a: Action) {
    && t < |st.threads|
    && var th := st.threads[t];
       var k := SlotOf(th.nr);
       match th.pc
       case Idle => a.Invoke?
       case WantRead => a.Go? && k < |st.slots| && st.slots[k].writer == Free
       case WantWrite => a.Go? && k < |st.slots| && st.slots[k].writer == Free && st.slots[k].readers == {}
       case Checking => a.Go?
       case Leaving(_) => a.Go?
       case _ => a.Go? && k < |st.slots|
  }

  function At(st: State, t: nat, pc: Pc): State
    requires t < |st.threads|
  {
    st.(threads := st.threads[t := st.threads[t].(pc := pc)])
  }

  function Put(st: State, k: nat, s: Slot): State
    requires k < |st.slots|
  {
    st.(slots := st.slots[k := s])
  }

  function Emit(st: State, e: Event): State {
    st.(trace := st.trace + [e])
  }

  function Step(st: State, t: nat, a: Action): State
    requires CanStep(st, t, a)
  {
    var th := st.threads[t];
    var k := SlotOf(th.nr);
    match th.pc
    case Idle =>
      Emit(st.(threads := st.threads[t := Thread(Checking, a.op, a.nr)]), Call(t, a.op, a.nr))
    case Checking =>
      if k >= |st.slots| then Emit(At(st, t, Leaving(-EINVAL)), Point(t, th.op, th.nr, -EINVAL))
      else At(st, t, WantRead)
    case WantRead =>
      At(Put(st, k, st.slots[k].(readers := st.slots[k].readers + {t})), t, Testing)
    case Testing =>
      At(st, t, if st.slots[k].present then Operating else Upgrading)
    case Upgrading =>
      At(Put(st, k, st.slots[k].(readers := st.slots[k].readers - {t})), t, WantWrite)
    case WantWrite =>
      At(Put(st, k, st.slots[k].(writer := HeldBy(t))), t, Rechecking)
    case Rechecking =>
      At(st, t, if st.slots[k].present then Downgrading else Allocating)
    case Allocating =>
      At(Put(st, k, st.slots[k].(present := true, allocs := st.slots[k].allocs + 1, bits := {})), t, Downgrading)
    case Downgrading =>
      At(Put(st, k, st.slots[k].(writer := Free, readers := st.slots[k].readers + {t})), t, Operating)
    case Operating =>
      var ret := OpResult(th.op, st.slots[k], BitOf(th.nr));
      Emit(At(Put(st, k, OpEffect(th.op, st.slots[k], BitOf(th.nr))), t, Releasing(ret)), Point(t, th.op, th.nr, ret))
    case Releasing(ret) =>
      At(Put(st, k, st.slots[k].(readers := st.slots[k].readers - {t})), t, Leaving(ret))
    case Leaving(ret) =>
      Emit(At(st, t, Idle), Return(t, ret))
  }

  /** The bit operation on one word. */
  function OpResult(op: Op, s: Slot, bit: nat): int {
    if op != Clear && bit in s.bits then 1 else 0
  }

  function OpEffect(op: Op, s: Slot, bit: nat): Slot {
    s.(bits := if op == TestAndSet then s.bits + {bit} else s.bits - {bit})
  }

  // ---------------------------------------------------------------- invariant

  predicate Reads(pc: Pc) {
    pc.Testing? || pc.Upgrading? || pc.Operating? || pc.Releasing?
  }

  predicate Writes(pc: Pc) {
    pc.Rechecking? || pc.Allocating? || pc.Downgrading?
  }

  predicate Inside(pc: Pc) {
    !pc.Idle? && !pc.Checking? && !pc.Leaving?
  }

  function PhaseAt(th: Thread): Phase {
    match th.pc
    case Idle => Out
    case Releasing(ret) => Done(ret)
    case Leaving(ret) => Done(ret)
    case _ => Called(th.op, th.nr)
  }

  ghost predicate ThreadOk(st: State, t: nat)
    requires t < |st.threads|
  {
    var th := st.threads[t];
    var k := SlotOf(th.nr);
    && PhaseOf(st.trace, t) == PhaseAt(th)
    && (Inside(th.pc) ==>
          && k < |st.slots|
          && (Reads(th.pc) ==> t in st.slots[k].readers)
          && (Writes(th.pc) ==> st.slots[k].writer == HeldBy(t))
          && (th.pc.Operating? || th.pc.Downgrading? ==> st.slots[k].present)
          && (th.pc.Allocating? ==> !st.slots[k].present))
  }

  /** A writer excludes everybody else, and the word was allocated at most once. */
  ghost predicate SlotOk(st: State, k: nat)
    requires k < |st.slots|
  {
    var s := st.slots[k];
    && (forall t :: t in s.readers ==> t < |st.threads| && Reads(st.threads[t].pc) && SlotOf(st.threads[t].nr) == k)
    && (s.writer.HeldBy? ==>
          && s.readers == {} && s.writer.t < |st.threads|
          && Writes(st.threads[s.writer.t].pc) && SlotOf(st.threads[s.writer.t].nr) == k)
    && s.allocs == (if s.present then 1 else 0)
    && (!s.present ==> s.bits == {})
  }

  function Bound(st: State): nat {
    |st.slots| * BITS
  }

  predicate Has(st: State, nr: nat) {
    SlotOf(nr) < |st.slots| && BitOf(nr) in st.slots[SlotOf(nr)].bits
  }

  ghost predicate Shape(st: State) {
    && (forall t :: 0 <= t < |st.threads| ==> ThreadOk(st, t))
    && (forall k :: 0 <= k < |st.slots| ==> SlotOk(st, k))
  }

  /** The bits set are those of the set the trace builds. */
  ghost predicate Agrees(st: State) {
    forall nr: nat :: nr in Replay(st.trace, Bound(st)) <==> Has(st, nr)
  }

  ghost predicate Inv(st: State) {
    Shape(st) && InOrder(st.trace) && Legal(st.trace, Bound(st)) && Agrees(st)
  }

  lemma {:induction false} OtherThread(st: State, t: nat, a: Action, u: nat)
    requires Shape(st) && CanStep(st, t, a) && u < |st.threads| && u != t
    ensures ThreadOk(Step(st, t, a), u)
  {
    var st' := Step(st, t, a);
    assert ThreadOk(st, u) && ThreadOk(st, t);
    assert st'.trace == st.trace || st'.trace[..|st'.trace| - 1] == st.trace;
    var k := SlotOf(st.threads[u].nr);
    if k < |st.slots| {
      assert SlotOk(st, k);
    }
  }

  lemma {:induction false} OwnThread(st: State, t: nat, a: Action)
    requires Shape(st) && CanStep(st, t, a)
    ensures ThreadOk(Step(st, t, a), t)
  {
    assert ThreadOk(st, t);
  }

  lemma {:induction false} StepOwnSlot(st: State, t: nat, a: Action, k: nat)
    requires CanStep(st, t, a) && k < |st.slots| && ThreadOk(st, t) && SlotOk(st, k)
    requires k == SlotOf(st.threads[t].nr) && !st.threads[t].pc.Idle?
    ensures SlotOk(Step(st, t, a), k)
  {
  }

  lemma {:induction false} StepOtherSlot(st: State, t: nat, a: Action, k: nat)
    requires CanStep(st, t, a) && k < |st.slots| && ThreadOk(st, t) && SlotOk(st, k)
    requires k == SlotOf(st.threads[t].nr) ==> st.threads[t].pc.Idle?
    ensures SlotOk(Step(st, t, a), k)
  {
  }

  lemma {:induction false} StepSlot(st: State, t: nat, a: Action, k: nat)
    requires Shape(st) && CanStep(st, t, a) && k < |st.slots|
    ensures SlotOk(Step(st, t, a), k)
  {
    assert ThreadOk(st, t) && SlotOk(st, k);
    if k == SlotOf(st.threads[t].nr) && !st.threads[t].pc.Idle? {
      StepOwnSlot(st, t, a, k);
    } else {
      StepOtherSlot(st, t, a, k);
    }
  }

  lemma {:induction false} StepShape(st: State, t: nat, a: Action)
    requires Shape(st) && CanStep(st, t, a)
    ensures Shape(Step(st, t, a))
  {
    var st' := Step(st, t, a);
    forall u | 0 <= u < |st'.threads| ensures ThreadOk(st', u) {
      if u == t {
        OwnThread(st, t, a);
      } else {
        OtherThread(st, t, a, u);
      }
    }
    forall k | 0 <= k < |st'.slots| ensures SlotOk(st', k) {
      StepSlot(st, t, a, k);
    }
  }

  lemma {:induction false} StepTrace(st: State, t: nat, a: Action)
    requires Inv(st) && CanStep(st, t, a)
    ensures InOrder(Step(st, t, a).trace)
    ensures Legal(Step(st, t, a).trace, Bound(st))
    ensures Agrees(Step(st, t, a))
  {
    var st' := Step(st, t, a);
    assert ThreadOk(st, t);
    assert st'.trace == st.trace || st'.trace[..|st'.trace| - 1] == st.trace;
    var th := st.threads[t];
    InBound(st, th.nr);
    match th.pc
    case Operating => OperateAgrees(st, t);
    case Allocating => AllocateAgrees(st, t);
    case _ =>
      assert forall nr: nat :: Has(st', nr) == Has(st, nr);
  }

  lemma {:induction false} InBound(st: State, nr: nat)
    ensures nr < Bound(st) <==> SlotOf(nr) < |st.slots|
  {
  }

  lemma {:induction false} OperateHas(st: State, t: nat, nr: nat)
    requires Shape(st) && CanStep(st, t, Go) && st.threads[t].pc.Operating?
    ensures Has(Step(st, t, Go), nr) == if nr == st.threads[t].nr then st.threads[t].op == TestAndSet else Has(st, nr)
  {
    OwnBit(0, 0, nr, st.threads[t].nr);
  }

  lemma {:induction false} OperateAgrees(st: State, t: nat)
    requires Inv(st) && CanStep(st, t, Go) && st.threads[t].pc.Operating?
    ensures Agrees(Step(st, t, Go))
  {
    var st', th := Step(st, t, Go), st.threads[t];
    var b := Bound(st);
    assert st'.trace[..|st'.trace| - 1] == st.trace;
    InBound(st, th.nr);
    assert Replay(st'.trace, b) == Effect(th.op, Replay(st.trace, b), th.nr, b);
    forall nr: nat ensures nr in Replay(st'.trace, b) <==> Has(st', nr) {
      OperateHas(st, t, nr);
    }
  }

  lemma {:induction false} AllocateAgrees(st: State, t: nat)
    requires Inv(st) && CanStep(st, t, Go) && st.threads[t].pc.Allocating?
    ensures Agrees(Step(st, t, Go))
  {
    var st' := Step(st, t, Go);
    assert ThreadOk(st, t);
    assert SlotOk(st, SlotOf(st.threads[t].nr));
    assert forall nr: nat :: Has(st', nr) == Has(st, nr);
  }

  lemma {:induction false} InitInv(numBits: nat, threads: nat)
    ensures Inv(Init(numBits, threads))
  {
  }

  lemma {:induction false} StepInv(st: State, t: nat, a: Action)
    requires Inv(st) && CanStep(st, t, a)
    ensures Inv(Step(st, t, a))
  {
    StepShape(st, t, a);
    StepTrace(st, t, a);
  }

  // --------------------------------------------------------------------- runs

  datatype Turn = Turn(t: nat, a: Action)

  /** An interleaving: the turns can be taken one after the other, and end in `end`. */
  predicate Run(from: State, turns: seq<Turn>, end: State)
    decreases turns
  {
    if turns == [] then end == from else
      && CanStep(from, turns[0].t, turns[0].a)
      && Run(Step(from, turns[0].t, turns[0].a), turns[1..], end)
  }

  lemma {:induction false} RunInv(from: State, turns: seq<Turn>, end: State)
    requires Inv(from) && Run(from, turns, end)
    ensures Inv(end) && |end.slots| == |from.slots|
    decreases turns
  {
    if turns != [] {
      StepInv(from, turns[0].t, turns[0].a);
      RunInv(Step(from, turns[0].t, turns[0].a), turns[1..], end);
    }
  }

  /** One writes and the other reads or writes the same word. */
  predicate Clash(a: Thread, b: Thread) {
    SlotOf(a.nr) == SlotOf(b.nr) && Writes(a.pc) && (Reads(b.pc) || Writes(b.pc))
  }

  lemma {:induction false} WriterAlone(st: State, t: nat, u: nat)
    requires Shape(st) && t < |st.threads| && u < |st.threads| && Clash(st.threads[t], st.threads[u])
    ensures t == u
  {
    assert ThreadOk(st, t) && ThreadOk(st, u) && SlotOk(st, SlotOf(st.threads[t].nr));
  }

  /** Under every interleaving of any number of threads: a word is allocated at most once,
      no thread operates on a word that is not there, and a writer is alone. */
  lemma {:induction false} SafeRuns(numBits: nat, threads: nat, turns: seq<Turn>, st: State)
    requires Run(Init(numBits, threads), turns, st)
    ensures forall k :: 0 <= k < |st.slots| ==> st.slots[k].allocs <= 1
    ensures forall t :: 0 <= t < |st.threads| && st.threads[t].pc.Operating? ==>
              SlotOf(st.threads[t].nr) < |st.slots| && st.slots[SlotOf(st.threads[t].nr)].present
    ensures forall t, u :: 0 <= t < |st.threads| && 0 <= u < |st.threads| ==>
                             (Clash(st.threads[t], st.threads[u]) ==> t == u)
  {
    InitInv(numBits, threads);
    RunInv(Init(numBits, threads), turns, st);
    forall k | 0 <= k < |st.slots| ensures st.slots[k].allocs <= 1 {
      assert SlotOk(st, k);
    }
    forall t | 0 <= t < |st.threads| && st.threads[t].pc.Operating?
      ensures SlotOf(st.threads[t].nr) < |st.slots| && st.slots[SlotOf(st.threads[t].nr)].present
    {
      assert ThreadOk(st, t);
    }
    forall t, u | 0 <= t < |st.threads| && 0 <= u < |st.threads| && Clash(st.threads[t], st.threads[u]) ensures t == u {
      WriterAlone(st, t, u);
    }
  }

  /** Under every interleaving the operations behave as on one atomic set: taken in the
      order of their points they return what the set would, each point lies between the
      call and the return of its operation, and the bits set are the members. */
  lemma {:induction false} LinearizableRuns(numBits: nat, threads: nat, turns: seq<Turn>, st: State)
    requires Run(Init(numBits, threads), turns, st)
    ensures Legal(st.trace, Bound(st)) && InOrder(st.trace) && Agrees(st)
  {
    InitInv(numBits, threads);
    RunInv(Init(numBits, threads), turns, st);
  }

  /** What InOrder says of a return: before it the same thread took effect with that result,
      and before that it called, with nothing else of its own in between. */
  lemma {:induction false} ReturnHasPoint(tr: seq<Event>, r: nat) returns (c: nat, p: nat)
    requires InOrder(tr) && r < |tr| && tr[r].Return?
    ensures c < p < r && tr[p].Point? && tr[p].t == tr[r].t && tr[p].ret == tr[r].ret
    ensures tr[c] == Call(tr[r].t, tr[p].op, tr[p].nr)
    ensures forall i :: c < i < r && i != p ==> tr[i].t != tr[r].t
  {
    var n := |tr| - 1;
    if r < n {
      c, p := ReturnHasPoint(tr[..n], r);
    } else {
      p := LastOf(tr[..n], tr[r].t);
      InOrderPrefix(tr, p + 1);
      assert tr[..p + 1][..p] == tr[..p];
      c := LastOf(tr[..p], tr[r].t);
    }
  }

  lemma {:induction false} InOrderPrefix(tr: seq<Event>, k: nat)
    requires InOrder(tr) && k <= |tr|
    ensures InOrder(tr[..k])
  {
    if k < |tr| {
      InOrderPrefix(tr[..|tr| - 1], k);
      assert tr[..|tr| - 1][..k] == tr[..k];
    } else {
      assert tr[..k] == tr;
    }
  }

  /** The last event of a thread that is in the middle of a call. */
  lemma {:induction false} LastOf(tr: seq<Event>, t: nat) returns (i: nat)
    requires PhaseOf(tr, t) != Out
    ensures i < |tr| && tr[i].t == t && !tr[i].Return? && PhaseOf(tr[..i + 1], t) == PhaseOf(tr, t)
    ensures tr[i].Call? ==> PhaseOf(tr, t) == Called(tr[i].op, tr[i].nr)
    ensures tr[i].Point? ==> PhaseOf(tr, t) == Done(tr[i].ret)
    ensures forall j :: i < j < |tr| ==> tr[j].t != t
  {
    var n := |tr| - 1;
    if tr[n].t == t {
      i := n;
      assert tr[..n + 1] == tr;
    } else {
      i := LastOf(tr[..n], t);
      assert tr[..n][..i + 1] == tr[..i + 1];
    }
  }

  /** Real-time order: an operation that returned before another was called takes effect
      before it. */
  lemma {:induction false} RealTimeOrder(tr: seq<Event>, r1: nat, r2: nat) returns (p1: nat, p2: nat, c2: nat)
    requires InOrder(tr) && r1 < |tr| && r2 < |tr| && tr[r1].Return? && tr[r2].Return?
    ensures p1 < r1 && tr[p1].Point? && tr[p1].t == tr[r1].t && tr[p1].ret == tr[r1].ret
    ensures c2 < p2 < r2 && tr[p2].Point? && tr[p2].t == tr[r2].t && tr[p2].ret == tr[r2].ret && tr[c2].Call?
    ensures r1 < c2 ==> p1 < p2
  {
    var c1;
    c1, p1 := ReturnHasPoint(tr, r1);
    c2, p2 := ReturnHasPoint(tr, r2);
  }

  /** The thread waits to read a word that another thread waits to write. */
  ghost predicate BehindWriter(st: State, t: nat)
    requires t < |st.threads|
  {
    && st.threads[t].pc.WantRead?
    && exists v :: 0 <= v < |st.threads| && st.threads[v].pc.WantWrite?
                   && SlotOf(st.threads[v].nr) == SlotOf(st.threads[t].nr)
  }

  /** No deadlock: while any call is under way, some thread inside can go on, even if readers
      queue behind a waiting writer. */
  lemma {:induction false} NoDeadlock(numBits: nat, threads: nat, turns: seq<Turn>, st: State, t: nat) returns (u: nat)
    requires Run(Init(numBits, threads), turns, st) && t < |st.threads| && !st.threads[t].pc.Idle?
    ensures u < |st.threads| && !st.threads[u].pc.Idle? && CanStep(st, u, Go) && !BehindWriter(st, u)
  {
    InitInv(numBits, threads);
    RunInv(Init(numBits, threads), turns, st);
    u := t;
    if BehindWriter(st, t) {
      u :| 0 <= u < |st.threads| && st.threads[u].pc.WantWrite?
           && SlotOf(st.threads[u].nr) == SlotOf(st.threads[t].nr);
    }
    if !CanStep(st, u, Go) {
      u := WhoHoldsIt(st, u);
    }
  }

  /** A thread that waits does so for one that can go on. */
  lemma {:induction false} WhoHoldsIt(st: State, t: nat) returns (u: nat)
    requires Shape(st) && t < |st.threads| && !st.threads[t].pc.Idle? && !CanStep(st, t, Go)
    ensures u < |st.threads| && !st.threads[u].pc.Idle? && !st.threads[u].pc.WantRead? && CanStep(st, u, Go)
  {
    assert ThreadOk(st, t);
    var k := SlotOf(st.threads[t].nr);
    assert SlotOk(st, k);
    if st.slots[k].writer.HeldBy? {
      u := st.slots[k].writer.t;
    } else {
      u :| u in st.slots[k].readers;
    }
  }
}
