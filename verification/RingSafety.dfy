/**
 What holds in every interleaving of any number of pushers, evictors and poppers: exclusive
 slot access, refinement of a bounded FIFO queue, and the exact meaning of a refused call.
 */
module RingSafety {
  import opened RingSteps
  import opened RingInvariant

  lemma {:induction false} RunKeeps<T>(s: Sys<T>, sched: seq<Move<T>>)
    requires Inv(s)
    ensures Inv(Run(s, sched))
    decreases |sched|
  {
    if sched != [] {
      if sched[0].who < |s.ring.threads| {
        StepKeeps(s, sched[0].who, sched[0].op);
        RunKeeps(Next(s, sched[0].who, sched[0].op), sched[1..]);
      } else {
        RunKeeps(s, sched[1..]);
      }
    }
  }

  // ------------------------------------------------------------------------------------------
  // Exclusive access

  /** From winning a cursor until storing the sequence number, a thread may touch its slot. */
  predicate Holds<T>(th: Thread<T>) {
    th.PushWrite? || th.PushStore? || th.EvictStore? || th.PopRead? || th.PopStore?
  }

  lemma HoldersApart<T>(s: Sys<T>, t: nat, u: nat)
    requires Inv(s) && t < |s.ring.threads| && u < |s.ring.threads| && t != u
    requires Holds(s.ring.threads[t]) && Holds(s.ring.threads[u])
    ensures s.ring.threads[t].pos % s.ring.n != s.ring.threads[u].pos % s.ring.n
  {
    assert ThreadOk(s, t) && ThreadOk(s, u);
    ApartFrom(s, s.ring.threads[t].pos, s.ring.threads[u].pos);
  }

  /**
   In every state of every interleaving the depth stays within the capacity, every slot carries
   the sequence number of the phase of its latest position, and no two threads hold one slot.
   */
  lemma EveryRunIsSafe<T>(n: nat, data: seq<T>, workers: nat, sched: seq<Move<T>>)
    requires 2 <= n == |data|
    ensures
      var s := Run(Init(n, data, workers), sched);
      && s.ring.head <= s.ring.tail <= s.ring.head + n
      && |s.ring.seqs| == s.ring.n == n && |s.log.fates| == s.ring.tail
      && (forall p: int | s.ring.tail - n <= p < s.ring.tail ::
            s.ring.seqs[p % n] == SeqOf(n, s.log.fates, p))
      && (forall t, u | 0 <= t < u < |s.ring.threads| ::
            Holds(s.ring.threads[t]) && Holds(s.ring.threads[u]) ==>
            s.ring.threads[t].pos % n != s.ring.threads[u].pos % n)
  {
    InitHolds(n, data, workers);
    RunKeeps(Init(n, data, workers), sched);
    RunFrame(Init(n, data, workers), sched);
    var s := Run(Init(n, data, workers), sched);
    forall p: int | s.ring.tail - n <= p < s.ring.tail
      ensures s.ring.seqs[p % n] == SeqOf(n, s.log.fates, p)
    {
      assert SlotOk(s, p);
    }
    forall t, u | 0 <= t < u < |s.ring.threads| && Holds(s.ring.threads[t]) && Holds(s.ring.threads[u])
      ensures s.ring.threads[t].pos % n != s.ring.threads[u].pos % n
    {
      HoldersApart(s, t, u);
    }
  }

  lemma {:induction false} RunFrame<T>(s: Sys<T>, sched: seq<Move<T>>)
    requires WellFormed(s.ring)
    ensures Run(s, sched).ring.n == s.ring.n && WellFormed(Run(s, sched).ring)
    ensures |Run(s, sched).ring.threads| == |s.ring.threads|
    decreases |sched|
  {
    if sched != [] {
      RunFrame(if sched[0].who < |s.ring.threads| then Next(s, sched[0].who, sched[0].op) else s, sched[1..]);
    }
  }

  lemma {:induction false} RunAppend<T>(s: Sys<T>, a: seq<Move<T>>, b: seq<Move<T>>)
    requires WellFormed(s.ring)
    ensures WellFormed(Run(s, a).ring) && Run(s, a + b) == Run(Run(s, a), b)
    decreases |a|
  {
    if a == [] {
      assert a + b == b;
    } else {
      assert (a + b)[0] == a[0] && (a + b)[1..] == a[1..] + b;
      RunAppend(if a[0].who < |s.ring.threads| then Next(s, a[0].who, a[0].op) else s, a[1..], b);
    }
  }

  // ------------------------------------------------------------------------------------------
  // Refinement of a bounded FIFO queue

  datatype Action<T> = Stutter | Enqueue(claim: Claim<T>) | Dequeue

  /** The queue action at the linearisation points: the successful compare-and-swaps. */
  function ActionOf<T>(s: Sys<T>, t: nat, op: Op<T>): Action<T>
    requires WellFormed(s.ring) && t < |s.ring.threads|
  {
    match s.ring.threads[t]
    case PushCas(c, pos) => if s.ring.tail == pos then Enqueue(Claim(t, c.item)) else Stutter
    case PopCas(pos) => if s.ring.head == pos then Dequeue else Stutter
    case EvictCas(_, pos) => if s.ring.head == pos then Dequeue else Stutter
    case _ => Stutter
  }

  predicate Enabled<T>(n: nat, q: seq<Claim<T>>, a: Action<T>) {
    match a
    case Stutter => true
    case Enqueue(_) => |q| < n
    case Dequeue => 0 < |q|
  }

  function Apply<T>(q: seq<Claim<T>>, a: Action<T>): seq<Claim<T>> {
    match a
    case Stutter => q
    case Enqueue(x) => q + [x]
    case Dequeue => if q == [] then q else q[1..]
  }

  function Queue<T>(s: Sys<T>): seq<Claim<T>>
    requires s.ring.head <= s.ring.tail <= |s.log.claims|
  {
    s.log.claims[s.ring.head..s.ring.tail]
  }

  /** The cursors and the log of claims change at the linearisation points and nowhere else. */
  lemma CursorStep<T>(s: Sys<T>, t: nat, op: Op<T>)
    requires WellFormed(s.ring) && s.ring.arith == Unbounded && t < |s.ring.threads|
    ensures
      var s' := Next(s, t, op);
      match ActionOf(s, t, op)
      case Stutter => s'.ring.head == s.ring.head && s'.ring.tail == s.ring.tail && s'.log.claims == s.log.claims
      case Enqueue(x) =>
        s'.ring.head == s.ring.head && s'.ring.tail == s.ring.tail + 1 && s'.log.claims == s.log.claims + [x]
      case Dequeue =>
        s'.ring.head == s.ring.head + 1 && s'.ring.tail == s.ring.tail && s'.log.claims == s.log.claims
  {
  }

  /** Each atomic action is an enabled action of the bounded queue, or none at all. */
  lemma StepRefines<T>(s: Sys<T>, t: nat, op: Op<T>)
    requires Inv(s) && t < |s.ring.threads|
    ensures Inv(Next(s, t, op))
    ensures Enabled(s.ring.n, Queue(s), ActionOf(s, t, op))
    ensures Queue(Next(s, t, op)) == Apply(Queue(s), ActionOf(s, t, op))
  {
    StepKeeps(s, t, op);
    CursorStep(s, t, op);
    assert ThreadOk(s, t);
    if ActionOf(s, t, op).Enqueue? && s.ring.n <= s.ring.tail {
      assert PosOk(s, s.ring.tail - s.ring.n);
    }
  }

  /** The queue actions of a schedule. */
  function Actions<T>(s: Sys<T>, sched: seq<Move<T>>): seq<Action<T>>
    requires WellFormed(s.ring)
    decreases |sched|
  {
    if sched == [] then []
    else if sched[0].who < |s.ring.threads| then
      [ActionOf(s, sched[0].who, sched[0].op)]
      + Actions(Next(s, sched[0].who, sched[0].op), sched[1..])
    else
      Actions(s, sched[1..])
  }

  /** A sequence of actions is a run of the queue with capacity n from q to q'. */
  ghost predicate QueueRun<T>(n: nat, q: seq<Claim<T>>, acts: seq<Action<T>>, q': seq<Claim<T>>)
    decreases |acts|
  {
    if acts == [] then q == q'
    else Enabled(n, q, acts[0]) && QueueRun(n, Apply(q, acts[0]), acts[1..], q')
  }

  /** Every run of the ring is a run of the bounded FIFO queue. */
  lemma {:induction false} RunRefines<T>(s: Sys<T>, sched: seq<Move<T>>)
    requires Inv(s)
    ensures Inv(Run(s, sched))
    ensures QueueRun(s.ring.n, Queue(s), Actions(s, sched), Queue(Run(s, sched)))
    decreases |sched|
  {
    if sched != [] {
      var m := sched[0];
      if m.who < |s.ring.threads| {
        StepRefines(s, m.who, m.op);
        RunRefines(Next(s, m.who, m.op), sched[1..]);
        assert Actions(s, sched)[1..] == Actions(Next(s, m.who, m.op), sched[1..]);
      } else {
        RunRefines(s, sched[1..]);
      }
    }
  }

  // ------------------------------------------------------------------------------------------
  // What consumers read

  /** How thread t may move a position on: one path for consumers, one for evictors. */
  predicate Follows(t: nat, f: Fate, f': Fate) {
    || (f == Writing(t) && f' == Published)
    || (f == Published && f' == Reading(t)) || (f == Reading(t) && f' == Consumed(t))
    || (f == Published && f' == Evicting(t)) || (f == Evicting(t) && f' == Uncounted(t))
    || (f == Uncounted(t) && f' == Evicted(t))
  }

  /** A step leaves every position alone, except that its thread may move one on its path. */
  lemma LifeCycle<T>(s: Sys<T>, t: nat, op: Op<T>)
    requires Inv(s) && t < |s.ring.threads|
    ensures
      var fates' := Next(s, t, op).log.fates;
      && |s.log.fates| <= |fates'|
      && (forall p: nat | p < |s.log.fates| ::
            fates'[p] == s.log.fates[p] || Follows(t, s.log.fates[p], fates'[p]))
  {
    assert ThreadOk(s, t);
    assert PosOk(s, s.ring.head);
  }

  ghost predicate OutOk<T>(s: Sys<T>, i: nat)
    requires Shape(s)
  {
    i < |s.log.out| ==>
      var o := s.log.out[i];
      && o.pos < s.ring.tail
      && o.item == s.log.claims[o.pos].item
      && (|| s.log.fates[o.pos] == Consumed(o.who)
          || (s.log.fates[o.pos] == Reading(o.who) && o.who < |s.ring.threads|
              && s.ring.threads[o.who].PopStore? && s.ring.threads[o.who].pos == o.pos))
  }

  ghost predicate OutInv<T>(s: Sys<T>)
    requires Shape(s)
  {
    && (forall i: nat :: OutOk(s, i))
    && (forall i, j | 0 <= i < j < |s.log.out| :: s.log.out[i].pos != s.log.out[j].pos)
  }

  /** The log of reads grows only when a popper reads its slot. */
  lemma OutputStep<T>(s: Sys<T>, t: nat, op: Op<T>)
    requires Shape(s) && t < |s.ring.threads|
    ensures
      var s' := Next(s, t, op);
      s'.log.out == match s.ring.threads[t]
                    case PopRead(pos) => s.log.out + [Read(t, pos, s.ring.data[pos % s.ring.n])]
                    case _ => s.log.out
  {
  }

  lemma OutStep<T>(s: Sys<T>, t: nat, op: Op<T>)
    requires Inv(s) && OutInv(s) && t < |s.ring.threads|
    ensures Inv(Next(s, t, op)) && OutInv(Next(s, t, op))
  {
    StepKeeps(s, t, op);
    var s' := Next(s, t, op);
    assert ThreadOk(s, t) && ThreadOk(s', t);
    LifeCycle(s, t, op);
    CursorStep(s, t, op);
    OutputStep(s, t, op);
    var th, th' := s.ring.threads[t], s'.ring.threads[t];
    assert s'.ring.threads == s.ring.threads[t := th'];
    assert th.PopRead? ==> th' == PopStore(th.pos, s.ring.data[th.pos % s.ring.n]) && PosOk(s, th.pos);
    assert th.PopStore? ==> s'.log.fates == s.log.fates[th.pos := Consumed(t)];
    hide Next;
    forall i: nat ensures OutOk(s', i) { assert OutOk(s, i); }
    OutDistinct(s, t, op);
  }

  lemma OutDistinct<T>(s: Sys<T>, t: nat, op: Op<T>)
    requires Inv(s) && OutInv(s) && t < |s.ring.threads|
    ensures
      var out' := Next(s, t, op).log.out;
      forall i, j | 0 <= i < j < |out'| :: out'[i].pos != out'[j].pos
  {
    var s' := Next(s, t, op);
    OutputStep(s, t, op);
    assert ThreadOk(s, t);
    forall i, j | 0 <= i < j < |s'.log.out| ensures s'.log.out[i].pos != s'.log.out[j].pos {
      assert OutOk(s, i);
    }
  }

  lemma {:induction false} RunReadsOnce<T>(s: Sys<T>, sched: seq<Move<T>>)
    requires Inv(s) && OutInv(s)
    ensures Inv(Run(s, sched)) && OutInv(Run(s, sched))
    decreases |sched|
  {
    if sched != [] {
      var m := sched[0];
      if m.who < |s.ring.threads| {
        OutStep(s, m.who, m.op);
        RunReadsOnce(Next(s, m.who, m.op), sched[1..]);
      } else {
        RunReadsOnce(s, sched[1..]);
      }
    }
  }

  /**
   With any number of consumers, each position is read at most once, always with the value its
   producer pushed, and never if it was evicted.
   */
  lemma EachPositionOnce<T>(n: nat, data: seq<T>, workers: nat, sched: seq<Move<T>>)
    requires 2 <= n == |data|
    ensures
      var s := Run(Init(n, data, workers), sched);
      && |s.log.claims| == |s.log.fates|
      && (forall i | 0 <= i < |s.log.out| ::
            var o := s.log.out[i];
            && o.pos < |s.log.claims| && o.item == s.log.claims[o.pos].item
            && (s.log.fates[o.pos] == Consumed(o.who) || s.log.fates[o.pos] == Reading(o.who)))
      && (forall i, j | 0 <= i < j < |s.log.out| :: s.log.out[i].pos != s.log.out[j].pos)
  {
    InitHolds(n, data, workers);
    RunReadsOnce(Init(n, data, workers), sched);
    var s := Run(Init(n, data, workers), sched);
    forall i | 0 <= i < |s.log.out|
      ensures
        var o := s.log.out[i];
        && o.pos < |s.log.claims| && o.item == s.log.claims[o.pos].item
        && (s.log.fates[o.pos] == Consumed(o.who) || s.log.fates[o.pos] == Reading(o.who))
    {
      assert OutOk(s, i);
    }
  }

  // ------------------------------------------------------------------------------------------
  // What a refusal means

  /** Position p of the previous lap still occupies its slot. */
  ghost predicate Occupied<T>(s: Sys<T>, p: int) {
    0 <= p < |s.log.fates| && !Recycled(s.log.fates[p])
  }

  /**
   A push finds `diff < 0` exactly when its position is the tail and the position one lap
   earlier is not recycled: the queue is at capacity, or a thread still holds that position.
   */
  lemma PushRefusedIff<T>(s: Sys<T>, t: nat)
    requires Inv(s) && t < |s.ring.threads| && s.ring.threads[t].PushLoadSeq?
    ensures
      var pos := s.ring.threads[t].pos;
      && (s.ring.seqs[pos % s.ring.n] < pos <==> pos == s.ring.tail && Occupied(s, pos - s.ring.n))
      && (s.ring.seqs[pos % s.ring.n] > pos ==> pos < s.ring.tail)
      && (pos == s.ring.tail && Occupied(s, pos - s.ring.n) ==>
            || |Queue(s)| == s.ring.n
            || exists u: nat :: u < |s.ring.threads| && Holds(s.ring.threads[u])
                                && s.ring.threads[u].pos == pos - s.ring.n)
  {
    var pos := s.ring.threads[t].pos;
    assert ThreadOk(s, t);
    if pos == s.ring.tail {
      LoadAtTail(s, pos);
      if s.ring.n <= pos { assert PosOk(s, pos - s.ring.n); }
    } else {
      LoadBelowTail(s, pos);
    }
  }

  /**
   A pop finds `diff < 0` exactly when its position is the head and nothing is published there:
   the queue is empty or the producer of its first element has not stored yet.
   */
  lemma PopRefusedIff<T>(s: Sys<T>, t: nat)
    requires Inv(s) && t < |s.ring.threads| && s.ring.threads[t].PopLoadSeq?
    ensures
      var pos := s.ring.threads[t].pos;
      && (s.ring.seqs[pos % s.ring.n] < pos + 1 <==>
            pos == s.ring.head && (Queue(s) == [] || s.log.fates[pos].Writing?))
      && (s.ring.seqs[pos % s.ring.n] > pos + 1 ==> pos < s.ring.head)
      && (s.ring.seqs[pos % s.ring.n] < pos + 1
          && (forall u: nat | u < |s.ring.threads| :: !s.ring.threads[u].PushWrite? && !s.ring.threads[u].PushStore?)
          ==> Queue(s) == [])
  {
    var pos := s.ring.threads[t].pos;
    assert ThreadOk(s, t);
    if pos == s.ring.tail {
      LoadAtTail(s, pos);
    } else {
      LoadBelowTail(s, pos);
      assert PosOk(s, pos);
      assert SlotOk(s, pos);
    }
  }
}
