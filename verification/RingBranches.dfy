/**
 Every branch that a thread takes, told by the history alone: which positions are claimed,
 published, taken or recycled, never by the slots. So the exact moments at which a push is refused,
 spends an attempt or evicts, and at which a pop comes back empty-handed.
 */
module RingBranches {
  import opened Laps
  import opened RingSteps
  import opened RingInvariant
  import opened RingSafety
  import opened RingProgress
  import opened RingDrain

  /** A slot that shows `pos + 1`: published, and whoever took it since has not released it. */
  predicate Showing<T>(s: Sys<T>, pos: nat) {
    pos < |s.log.fates| && (s.log.fates[pos].Published? || s.log.fates[pos].Reading? || s.log.fates[pos].Evicting?)
  }

  /** The slot at the tail still belongs to the previous lap. */
  ghost predicate Full<T>(s: Sys<T>) {
    Occupied(s, s.ring.tail - s.ring.n)
  }

  /** Where thread t goes in its next step. */
  ghost function Branch<T>(s: Sys<T>, t: nat, op: Op<T>): Thread<T>
    requires Inv(s) && t < |s.ring.threads|
  {
    var head, tail, fates := s.ring.head, s.ring.tail, s.log.fates;
    match s.ring.threads[t]
    case Idle => Begin(op)
    case PushLoadTail(c) => PushLoadSeq(c, tail)
    case PushLoadSeq(c, pos) =>
      if pos < tail then (if fates[pos].Writing? then PushCas(c, pos) else PushLoadTail(c))
      else if !Full(s) then PushCas(c, pos)
      else if c.policy.DropNewest? then PushFull(c)
      else if c.attempts < 128 then EvictLoadHead(c.(attempts := c.attempts + 1))
      else PushFull(c.(attempts := c.attempts + 1))
    case PushCas(c, pos) => if pos == tail then PushWrite(c, pos) else PushLoadTail(c)
    case PushWrite(c, pos) => PushStore(c, pos)
    case EvictLoadHead(c) => EvictLoadSeq(c, head)
    case EvictLoadSeq(c, pos) => if Showing(s, pos) then EvictCas(c, pos) else PushLoadTail(c)
    case EvictCas(c, pos) => if pos == head then EvictStore(c, pos) else PushLoadTail(c)
    case EvictStore(c, pos) => EvictCount(c, pos)
    case EvictCount(c, _) => PushLoadTail(c)
    case PopLoadHead => PopLoadSeq(head)
    case PopLoadSeq(pos) => if Showing(s, pos) then PopCas(pos) else if pos == head then Idle else PopLoadHead
    case PopCas(pos) => if pos == head then PopRead(pos) else PopLoadHead
    case PopRead(pos) => assert ThreadOk(s, t); PopStore(pos, s.log.claims[pos].item)
    case DepthLoadTail => DepthLoadHead(tail)
    case DepthLoadHead(seen) => DepthReport(seen, head)
    case _ => Idle
  }

  /** What a slot shows about a position below the tail. */
  lemma SlotShows<T>(s: Sys<T>, pos: nat)
    requires Inv(s) && pos < s.ring.tail
    ensures s.ring.seqs[pos % s.ring.n] == pos + 1 <==> Showing(s, pos)
    ensures s.ring.seqs[pos % s.ring.n] == pos <==> s.log.fates[pos].Writing?
  {
    var q := Latest(s.ring.n, s.ring.tail, pos);
    assert SlotOk(s, q) && PosOk(s, q) && PosOk(s, pos);
  }

  lemma PushLoadBranches<T>(s: Sys<T>, t: nat, op: Op<T>)
    requires Inv(s) && t < |s.ring.threads| && s.ring.threads[t].PushLoadSeq?
    ensures Next(s, t, op).ring.threads[t] == Branch(s, t, op)
  {
    var pos := s.ring.threads[t].pos;
    assert ThreadOk(s, t);
    if pos < s.ring.tail {
      LoadBelowTail(s, pos);
      SlotShows(s, pos);
    } else {
      LoadAtTail(s, pos);
    }
    hide Inv;
  }

  lemma EvictLoadBranches<T>(s: Sys<T>, t: nat, op: Op<T>)
    requires Inv(s) && t < |s.ring.threads| && s.ring.threads[t].EvictLoadSeq?
    ensures Next(s, t, op).ring.threads[t] == Branch(s, t, op)
  {
    var pos := s.ring.threads[t].pos;
    assert ThreadOk(s, t);
    if pos < s.ring.tail { SlotShows(s, pos); } else { LoadAtTail(s, pos); }
    hide Inv;
  }

  lemma PopLoadBranches<T>(s: Sys<T>, t: nat, op: Op<T>)
    requires Inv(s) && t < |s.ring.threads| && s.ring.threads[t].PopLoadSeq?
    ensures Next(s, t, op).ring.threads[t] == Branch(s, t, op)
  {
    var pos := s.ring.threads[t].pos;
    assert ThreadOk(s, t);
    PopRefusedIff(s, t);
    if pos < s.ring.tail {
      LoadBelowTail(s, pos);
      SlotShows(s, pos);
    } else {
      LoadAtTail(s, pos);
    }
    hide Inv;
  }

  lemma PopReadBranches<T>(s: Sys<T>, t: nat, op: Op<T>)
    requires Inv(s) && t < |s.ring.threads| && s.ring.threads[t].PopRead?
    ensures Next(s, t, op).ring.threads[t] == Branch(s, t, op)
  {
    var pos := s.ring.threads[t].pos;
    assert ThreadOk(s, t);
    assert PosOk(s, pos);
    hide Inv;
  }

  /** The program's branches are these, in every reachable state. */
  lemma StepBranches<T>(s: Sys<T>, t: nat, op: Op<T>)
    requires Inv(s) && t < |s.ring.threads|
    ensures Next(s, t, op).ring.threads[t] == Branch(s, t, op)
  {
    match s.ring.threads[t]
    case PushLoadSeq(_, pos) => PushLoadBranches(s, t, op);
    case EvictLoadSeq(_, pos) => EvictLoadBranches(s, t, op);
    case PopLoadSeq(pos) => PopLoadBranches(s, t, op);
    case PopRead(pos) => PopReadBranches(s, t, op);
    case _ =>
  }

  /**
   The step that refuses a push: in every reachable state a thread turns to dropping its item if
   and only if it looks at the tail itself, the slot there is still occupied, and the policy is
   DropNewest or 128 attempts are used up. A lost race never refuses.
   */
  lemma RefusedIff<T>(s: Sys<T>, t: nat, op: Op<T>)
    requires Inv(s) && t < |s.ring.threads| && !s.ring.threads[t].PushFull?
    ensures
      var th := s.ring.threads[t];
      Next(s, t, op).ring.threads[t].PushFull? <==>
        && th.PushLoadSeq? && th.pos == s.ring.tail && Occupied(s, s.ring.tail - s.ring.n)
        && (th.call.policy.DropNewest? || 128 <= th.call.attempts)
  {
    StepBranches(s, t, op);
    assert ThreadOk(s, t);
  }

  /** An attempt is spent, and an eviction begun, only while the slot at the tail is occupied. */
  lemma AttemptIff<T>(s: Sys<T>, t: nat, op: Op<T>)
    requires Inv(s) && t < |s.ring.threads| && Undecided(s.ring.threads[t]) && !s.ring.threads[t].PushFull?
    ensures
      var th, th' := s.ring.threads[t], Next(s, t, op).ring.threads[t];
      && (Undecided(th') || th'.PushWrite?)
      && th'.call.item == th.call.item && th'.call.policy == th.call.policy
      && (th'.call.attempts != th.call.attempts <==>
            th.PushLoadSeq? && th.pos == s.ring.tail && Occupied(s, s.ring.tail - s.ring.n) && th.call.policy.DropOldest?)
      && (th'.call.attempts != th.call.attempts ==> th'.call.attempts == th.call.attempts + 1)
      && (th'.EvictLoadHead? <==> th'.call.attempts != th.call.attempts && th.call.attempts < 128)
  {
    StepBranches(s, t, op);
    assert ThreadOk(s, t);
  }

  /**
   The step that lets a pop return: without an item if and only if it looks at the head itself and
   nothing is published there, that is the queue is empty or its first producer has not stored yet.
   */
  lemma PopReturnsIff<T>(s: Sys<T>, t: nat, op: Op<T>)
    requires Inv(s) && t < |s.ring.threads| && Popping(s.ring.threads[t]) && !s.ring.threads[t].PopStore?
    ensures
      var th := s.ring.threads[t];
      && (Next(s, t, op).ring.threads[t] == Idle <==>
            th.PopLoadSeq? && th.pos == s.ring.head && (Queue(s) == [] || s.log.fates[s.ring.head].Writing?))
      && (Next(s, t, op).ring.threads[t] != Idle ==> Popping(Next(s, t, op).ring.threads[t]))
  {
    StepBranches(s, t, op);
    assert ThreadOk(s, t);
    if s.ring.head < s.ring.tail { assert PosOk(s, s.ring.head); }
  }

  /**
   DropNewest with one drainer: a step that refuses a push is taken only at full depth, or one short
   of it while the drainer is marshalling the item just below the head.
   */
  lemma DropNewestRefusals<T>(n: nat, data: seq<T>, workers: nat, d: nat, sched: seq<Move<T>>, t: nat, op: Op<T>)
    requires 2 <= n == |data| && d < workers && t < workers && SoleDrainer(sched, d) && NewestOnly(sched)
    ensures
      var s := Run(Init(n, data, workers), sched);
      && |s.ring.threads| == workers && WellFormed(s.ring) && s.ring.n == n
      && s.ring.head <= s.ring.tail == |s.log.claims|
      && (!s.ring.threads[t].PushFull? && Next(s, t, op).ring.threads[t].PushFull? ==>
            || |Queue(s)| == n
            || (|Queue(s)| == n - 1 && Holds(s.ring.threads[d]) && s.ring.threads[d].pos == s.ring.head - 1))
  {
    var s0 := Init(n, data, workers);
    InitHolds(n, data, workers);
    RunNewest(s0, d, sched);
    RunFrame(s0, sched);
    var s := Run(s0, sched);
    if !s.ring.threads[t].PushFull? && Next(s, t, op).ring.threads[t].PushFull? {
      RefusedIff(s, t, op);
      RefusalDepth(s, d);
    }
  }
}
