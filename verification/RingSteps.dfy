/**
 The lock-free ring of ringbuf.go as an interleaving step system.

 A `Ring` holds the shared memory and the program counter and locals of every thread. `Step`
 lets one thread perform one atomic action: a cursor load, a sequence-number load, a
 compare-and-swap, a data access, a sequence-number store or a counter update. `Arith` selects
 the arithmetic of the cursors: 64-bit words, as the program computes, or unbounded naturals.
 */
module RingSteps {

  datatype Option<+T> = None | Some(value: T)

  datatype Policy = DropNewest | DropOldest

  const MAX_EVICT_RETRIES := 128

  const TWO63: nat := 0x8000_0000_0000_0000
  const TWO64: nat := 0x1_0000_0000_0000_0000

  datatype Arith = Unbounded | Word64

  /** `p + k` on a cursor. */
  function Plus(a: Arith, p: nat, k: nat): nat {
    if a.Word64? then (p + k) % TWO64 else p + k
  }

  /** `int64(x - y)`: the signed distance between two cursors. */
  function Diff(a: Arith, x: nat, y: nat): int {
    if a.Unbounded? then
      x - y
    else
      var d := (x - y) % TWO64;
      if d < TWO63 then d else d - TWO64
  }

  /** What QueueDepth returns for the tail and the head that it has loaded. */
  function DepthOf(seen: nat, at: nat): nat {
    if seen >= at then seen - at else 0
  }

  /** The arguments of a push call and its count of eviction attempts. */
  datatype Call<T> = Call(item: T, policy: Policy, attempts: nat)

  /** Where a thread stands: the atomic action it performs next, with its locals. */
  datatype Thread<T> =
    | Idle
    | PushLoadTail(call: Call<T>)
    | PushLoadSeq(call: Call<T>, pos: nat)
    | PushCas(call: Call<T>, pos: nat)
    | PushWrite(call: Call<T>, pos: nat)
    | PushStore(call: Call<T>, pos: nat)
    | PushFull(call: Call<T>)
    | EvictLoadHead(call: Call<T>)
    | EvictLoadSeq(call: Call<T>, pos: nat)
    | EvictCas(call: Call<T>, pos: nat)
    | EvictStore(call: Call<T>, pos: nat)
    | EvictCount(call: Call<T>, pos: nat)
    | PopLoadHead
    | PopLoadSeq(pos: nat)
    | PopCas(pos: nat)
    | PopRead(pos: nat)
    | PopStore(pos: nat, item: T)
    | DepthLoadTail
    | DepthLoadHead(seen: nat)
    | DepthReport(seen: nat, at: nat)

  datatype Ring<T> = Ring(
    arith: Arith,
    n: nat,
    head: nat,
    tail: nat,
    evicted: nat,
    dropped: nat,
    seqs: seq<nat>,
    data: seq<T>,
    threads: seq<Thread<T>>)

  /** What an idle thread may start. */
  datatype Op<T> = Rest | Push(item: T, policy: Policy) | Pop | Depth

  predicate WellFormed<T>(r: Ring<T>) {
    0 < r.n && |r.seqs| == r.n && |r.data| == r.n
  }

  /** `newRingbuf`: each slot's sequence number starts as its index. */
  function NewRing<T>(arith: Arith, n: nat, data: seq<T>, workers: nat): Ring<T> {
    Ring(arith, n, 0, 0, 0, 0, seq(n, i => i), data, seq(workers, i => Idle))
  }

  function Begin<T>(op: Op<T>): Thread<T> {
    match op
    case Rest => Idle
    case Push(item, policy) => PushLoadTail(Call(item, policy, 0))
    case Pop => PopLoadHead
    case Depth => DepthLoadTail
  }

  function Goto<T>(r: Ring<T>, t: nat, th: Thread<T>): Ring<T>
    requires t < |r.threads|
  {
    r.(threads := r.threads[t := th])
  }

  /** Thread t performs its next atomic action; `op` matters only when t is idle. */
  function Step<T>(r: Ring<T>, t: nat, op: Op<T>): (r': Ring<T>)
    requires WellFormed(r) && t < |r.threads|
    ensures WellFormed(r') && r'.n == r.n && r'.arith == r.arith
    ensures |r'.threads| == |r.threads| && r'.threads == r.threads[t := r'.threads[t]]
  {
    match r.threads[t]
    case Idle => Goto(r, t, Begin(op))

    case PushLoadTail(c) => Goto(r, t, PushLoadSeq(c, r.tail))
    case PushLoadSeq(c, pos) =>
      var diff := Diff(r.arith, r.seqs[pos % r.n], pos);
      if diff == 0 then
        Goto(r, t, PushCas(c, pos))
      else if diff < 0 then
        if c.policy.DropNewest? then
          Goto(r, t, PushFull(c))
        else
          var c' := c.(attempts := c.attempts + 1);
          Goto(r, t, if c'.attempts > MAX_EVICT_RETRIES then PushFull(c') else EvictLoadHead(c'))
      else
        Goto(r, t, PushLoadTail(c))
    case PushCas(c, pos) =>
      if r.tail == pos then
        Goto(r.(tail := Plus(r.arith, pos, 1)), t, PushWrite(c, pos))
      else
        Goto(r, t, PushLoadTail(c))
    case PushWrite(c, pos) =>
      Goto(r.(data := r.data[pos % r.n := c.item]), t, PushStore(c, pos))
    case PushStore(c, pos) =>
      Goto(r.(seqs := r.seqs[pos % r.n := Plus(r.arith, pos, 1)]), t, Idle)
    case PushFull(c) =>
      Goto(r.(dropped := Plus(r.arith, r.dropped, 1)), t, Idle)

    case EvictLoadHead(c) => Goto(r, t, EvictLoadSeq(c, r.head))
    case EvictLoadSeq(c, pos) =>
      if r.seqs[pos % r.n] == Plus(r.arith, pos, 1) then
        Goto(r, t, EvictCas(c, pos))
      else
        Goto(r, t, PushLoadTail(c))
    case EvictCas(c, pos) =>
      if r.head == pos then
        Goto(r.(head := Plus(r.arith, pos, 1)), t, EvictStore(c, pos))
      else
        Goto(r, t, PushLoadTail(c))
    case EvictStore(c, pos) =>
      Goto(r.(seqs := r.seqs[pos % r.n := Plus(r.arith, pos, r.n)]), t, EvictCount(c, pos))
    case EvictCount(c, pos) =>
      Goto(r.(evicted := Plus(r.arith, r.evicted, 1)), t, PushLoadTail(c))

    case PopLoadHead => Goto(r, t, PopLoadSeq(r.head))
    case PopLoadSeq(pos) =>
      var diff := Diff(r.arith, r.seqs[pos % r.n], Plus(r.arith, pos, 1));
      if diff == 0 then
        Goto(r, t, PopCas(pos))
      else if diff < 0 then
        Goto(r, t, Idle)
      else
        Goto(r, t, PopLoadHead)
    case PopCas(pos) =>
      if r.head == pos then
        Goto(r.(head := Plus(r.arith, pos, 1)), t, PopRead(pos))
      else
        Goto(r, t, PopLoadHead)
    case PopRead(pos) => Goto(r, t, PopStore(pos, r.data[pos % r.n]))
    case PopStore(pos, item) =>
      Goto(r.(seqs := r.seqs[pos % r.n := Plus(r.arith, pos, r.n)]), t, Idle)

    case DepthLoadTail => Goto(r, t, DepthLoadHead(r.tail))
    case DepthLoadHead(seen) => Goto(r, t, DepthReport(seen, r.head))
    case DepthReport(_, _) => Goto(r, t, Idle)
  }

  // ------------------------------------------------------------------------------------------
  // History. The log observes the transitions of the threads; no step reads it.

  /** The life of a position from the claim of its producer on. */
  datatype Fate =
    | Writing(who: nat)
    | Published
    | Reading(who: nat)
    | Consumed(who: nat)
    | Evicting(who: nat)
    | Uncounted(who: nat)
    | Evicted(who: nat)

  datatype Claim<T> = Claim(who: nat, item: T)

  datatype Read<T> = Read(who: nat, pos: nat, item: T)

  /**
   Per thread, about its current call: the cursor when it began, its loop rounds and its evictions.
   For QueueDepth, `start` is the depth and `head` the head at its first load.
   */
  datatype Mark = Mark(start: nat, head: nat, rounds: nat, evictions: nat)

  datatype Log<T> = Log(
    calls: nat,
    claims: seq<Claim<T>>,
    fates: seq<Fate>,
    out: seq<Read<T>>,
    marks: seq<Mark>)

  datatype Sys<T> = Sys(ring: Ring<T>, log: Log<T>)

  function SetAt<A>(s: seq<A>, i: nat, x: A): (s': seq<A>)
    ensures |s'| == |s|
  {
    if i < |s| then s[i := x] else s
  }

  /** A cursor load opens the next round of the retry loop. */
  function NextRound(marks: seq<Mark>, t: nat): (s: seq<Mark>)
    ensures |s| == |marks|
  {
    if t < |marks| then marks[t := marks[t].(rounds := marks[t].rounds + 1)] else marks
  }

  function OneEviction(marks: seq<Mark>, t: nat): (s: seq<Mark>)
    ensures |s| == |marks|
  {
    if t < |marks| then marks[t := marks[t].(evictions := marks[t].evictions + 1)] else marks
  }

  function Record<T>(g: Log<T>, r: Ring<T>, t: nat, after: Thread<T>): Log<T>
    requires t < |r.threads|
  {
    match (r.threads[t], after)
    case (Idle, PushLoadTail(_)) =>
      g.(calls := g.calls + 1, marks := SetAt(g.marks, t, Mark(r.tail, 0, 0, 0)))
    case (Idle, PopLoadHead) => g.(marks := SetAt(g.marks, t, Mark(r.head, 0, 0, 0)))
    case (PushLoadTail(_), _) => g.(marks := NextRound(g.marks, t))
    case (PopLoadHead, _) => g.(marks := NextRound(g.marks, t))
    case (PushCas(c, _), PushWrite(_, _)) =>
      g.(claims := g.claims + [Claim(t, c.item)], fates := g.fates + [Writing(t)])
    case (PushStore(_, pos), _) => g.(fates := SetAt(g.fates, pos, Published))
    case (EvictCas(_, pos), EvictStore(_, _)) =>
      g.(fates := SetAt(g.fates, pos, Evicting(t)), marks := OneEviction(g.marks, t))
    case (EvictStore(_, pos), _) => g.(fates := SetAt(g.fates, pos, Uncounted(t)))
    case (EvictCount(_, pos), _) => g.(fates := SetAt(g.fates, pos, Evicted(t)))
    case (PopCas(pos), PopRead(_)) => g.(fates := SetAt(g.fates, pos, Reading(t)))
    case (PopRead(pos), PopStore(_, item)) => g.(out := g.out + [Read(t, pos, item)])
    case (PopStore(pos, _), _) => g.(fates := SetAt(g.fates, pos, Consumed(t)))
    case (DepthLoadTail, _) => g.(marks := SetAt(g.marks, t, Mark(DepthOf(r.tail, r.head), r.head, 0, 0)))
    case _ => g
  }

  function Next<T>(s: Sys<T>, t: nat, op: Op<T>): Sys<T>
    requires WellFormed(s.ring) && t < |s.ring.threads|
  {
    var r' := Step(s.ring, t, op);
    Sys(r', Record(s.log, s.ring, t, r'.threads[t]))
  }

  function Init<T>(n: nat, data: seq<T>, workers: nat): Sys<T> {
    Sys(NewRing(Unbounded, n, data, workers), Log(0, [], [], [], seq(workers, i => Mark(0, 0, 0, 0))))
  }

  /** One entry of a schedule: who moves, and what it starts if it is idle. */
  datatype Move<T> = Move(who: nat, op: Op<T>)

  /** The state after a schedule; moves of unknown threads are ignored. */
  function Run<T>(s: Sys<T>, sched: seq<Move<T>>): Sys<T>
    requires WellFormed(s.ring)
    decreases |sched|
  {
    if sched == [] then
      s
    else
      Run(if sched[0].who < |s.ring.threads| then Next(s, sched[0].who, sched[0].op) else s, sched[1..])
  }
}
