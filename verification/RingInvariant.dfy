/**
 The inductive invariant of the ring: the sequence number of every slot matches the one phase
 of its latest position, and every position in transit is owned by exactly one thread.
 */
module RingInvariant {
  import opened Laps
  import opened RingSteps

  // ------------------------------------------------------------------------------------------
  // The invariant

  predicate Recycled(f: Fate) {
    f.Consumed? || f.Uncounted? || f.Evicted?
  }

  /** Past the head: claimed by a consumer or an evictor. */
  predicate Taken(f: Fate) {
    !f.Writing? && !f.Published?
  }

  /** The sequence number that position p leaves in its slot; negative positions are lap zero. */
  function SeqOf(n: nat, fates: seq<Fate>, p: int): int
    requires p < |fates|
  {
    if p < 0 then p + n
    else match fates[p]
      case Writing(_) => p
      case Published => p + 1
      case Reading(_) => p + 1
      case Evicting(_) => p + 1
      case _ => p + n
  }

  ghost predicate Shape<T>(s: Sys<T>) {
    && WellFormed(s.ring)
    && s.ring.arith == Unbounded
    && 2 <= s.ring.n
    && s.ring.head <= s.ring.tail <= s.ring.head + s.ring.n
    && |s.log.fates| == |s.log.claims| == s.ring.tail
    && |s.log.marks| == |s.ring.threads|
  }

  ghost predicate SlotOk<T>(s: Sys<T>, p: int)
    requires Shape(s)
  {
    s.ring.tail - s.ring.n <= p < s.ring.tail ==>
      s.ring.seqs[p % s.ring.n] == SeqOf(s.ring.n, s.log.fates, p)
  }

  /** The thread that a position in transit belongs to stands at that position. */
  ghost predicate OwnerOk<T>(s: Sys<T>, p: nat)
    requires Shape(s) && p < s.ring.tail
  {
    var ths := s.ring.threads;
    match s.log.fates[p]
    case Writing(t) => t < |ths| && (ths[t].PushWrite? || ths[t].PushStore?) && ths[t].pos == p
    case Reading(t) => t < |ths| && (ths[t].PopRead? || ths[t].PopStore?) && ths[t].pos == p
    case Evicting(t) => t < |ths| && ths[t].EvictStore? && ths[t].pos == p
    case Uncounted(t) => t < |ths| && ths[t].EvictCount? && ths[t].pos == p
    case _ => true
  }

  ghost predicate PosOk<T>(s: Sys<T>, p: nat)
    requires Shape(s)
  {
    p < s.ring.tail ==>
      var f := s.log.fates[p];
      && (p < s.ring.head <==> Taken(f))
      && (p < s.ring.tail - s.ring.n ==> Recycled(f))
      && OwnerOk(s, p)
      && (f.Published? || f.Reading? ==> s.ring.data[p % s.ring.n] == s.log.claims[p].item)
  }

  ghost predicate Has<T>(s: Sys<T>, pos: nat, f: Fate) {
    pos < |s.log.fates| && s.log.fates[pos] == f
  }

  /** Position pos is claimed and its producer is done with it. */
  ghost predicate Ready<T>(s: Sys<T>, pos: nat) {
    pos < |s.log.fates| && !s.log.fates[pos].Writing?
  }

  ghost predicate ThreadOk<T>(s: Sys<T>, t: nat)
    requires Shape(s)
  {
    t < |s.ring.threads| ==>
      match s.ring.threads[t]
      case PushLoadSeq(c, pos) => pos <= s.ring.tail
      case PushCas(c, pos) =>
        && pos <= s.ring.tail
        && (s.ring.n <= pos ==> Recycled(s.log.fates[pos - s.ring.n]))
      case PushWrite(c, pos) => Has(s, pos, Writing(t)) && s.log.claims[pos] == Claim(t, c.item)
      case PushStore(c, pos) =>
        && Has(s, pos, Writing(t)) && s.log.claims[pos] == Claim(t, c.item)
        && s.ring.data[pos % s.ring.n] == c.item
      case EvictLoadSeq(c, pos) => pos <= s.ring.head
      case EvictCas(c, pos) => pos <= s.ring.head && Ready(s, pos)
      case EvictStore(c, pos) => Has(s, pos, Evicting(t))
      case EvictCount(c, pos) => Has(s, pos, Uncounted(t))
      case PopLoadSeq(pos) => pos <= s.ring.head
      case PopCas(pos) => pos <= s.ring.head && Ready(s, pos)
      case PopRead(pos) => Has(s, pos, Reading(t))
      case PopStore(pos, item) => Has(s, pos, Reading(t)) && item == s.log.claims[pos].item
      case DepthLoadHead(seen) => seen <= s.ring.tail
      case _ => true
  }

  ghost predicate Inv<T>(s: Sys<T>) {
    && Shape(s)
    && (forall p: int :: SlotOk(s, p))
    && (forall p: nat :: PosOk(s, p))
    && (forall t: nat :: ThreadOk(s, t))
  }

  // ------------------------------------------------------------------------------------------
  // What a sequence-number load tells

  /** Every slot's number is at least the position asked for, unless that position is the tail. */
  lemma LoadBelowTail<T>(s: Sys<T>, pos: nat)
    requires Inv(s) && pos < s.ring.tail
    ensures s.ring.seqs[pos % s.ring.n] >= pos
    ensures pos < s.ring.head ==> s.ring.seqs[pos % s.ring.n] >= pos + 1
    ensures pos == s.ring.head ==> s.ring.seqs[pos % s.ring.n] <= pos + 1
    ensures Has(s, pos, Published) ==> s.ring.seqs[pos % s.ring.n] == pos + 1
    ensures s.ring.seqs[pos % s.ring.n] <= s.ring.head + s.ring.n
  {
    var q := Latest(s.ring.n, s.ring.tail, pos);
    assert SlotOk(s, q);
    assert PosOk(s, q);
    assert PosOk(s, pos);
  }

  /** The slot of the tail still carries the previous lap. */
  lemma LoadAtTail<T>(s: Sys<T>, pos: nat)
    requires Inv(s) && pos == s.ring.tail
    ensures s.ring.seqs[pos % s.ring.n] == SeqOf(s.ring.n, s.log.fates, pos - s.ring.n)
  {
    SlotsAgree(s.ring.n, pos - s.ring.n);
    assert SlotOk(s, pos - s.ring.n);
  }

  // ------------------------------------------------------------------------------------------
  // Preservation

  predicate Owns<T>(th: Thread<T>) {
    || th.PushWrite? || th.PushStore? || th.EvictStore? || th.EvictCount?
    || th.PopRead? || th.PopStore?
  }

  /** A thread that owns no position moves on, and neither the cursors nor the slots change. */
  lemma QuietKeeps<T>(s: Sys<T>, s': Sys<T>, t: nat)
    requires Inv(s) && t < |s.ring.threads| && !Owns(s.ring.threads[t])
    requires s'.ring == s.ring.(threads := s'.ring.threads, dropped := s'.ring.dropped)
    requires |s'.ring.threads| == |s.ring.threads|
    requires s'.ring.threads == s.ring.threads[t := s'.ring.threads[t]]
    requires s'.log == s.log.(marks := s'.log.marks, calls := s'.log.calls)
    requires |s'.log.marks| == |s.log.marks|
    requires ThreadOk(s', t)
    ensures Inv(s')
  {
    forall p: int ensures SlotOk(s', p) { assert SlotOk(s, p); }
    forall p: nat ensures PosOk(s', p) { assert PosOk(s, p); }
    forall u: nat ensures ThreadOk(s', u) { assert ThreadOk(s, u); }
  }

  /** A producer claims the position at the tail. */
  lemma ClaimKeeps<T>(s: Sys<T>, t: nat, op: Op<T>)
    requires Inv(s) && t < |s.ring.threads|
    requires s.ring.threads[t].PushCas? && s.ring.threads[t].pos == s.ring.tail
    ensures Inv(Next(s, t, op))
  {
    var s' := Next(s, t, op);
    var n, pos := s.ring.n, s.ring.tail;
    assert ThreadOk(s, t);
    LoadAtTail(s, pos);
    assert pos >= n ==> PosOk(s, pos - n);
    forall p: int ensures SlotOk(s', p) {
      assert SlotOk(s, p);
    }
    forall p: nat ensures PosOk(s', p) { assert PosOk(s, p); }
    forall u: nat ensures ThreadOk(s', u) { assert ThreadOk(s, u); }
  }

  /** Thread t changes the fate of a position that no other thread owns. */
  ghost predicate Refated<T>(s: Sys<T>, s': Sys<T>, t: nat, pos: nat) {
    && Shape(s) && Shape(s')
    && t < |s.ring.threads| == |s'.ring.threads|
    && pos < s.ring.tail
    && s'.ring == s.ring.(threads := s'.ring.threads, head := s'.ring.head,
                          seqs := s'.ring.seqs, evicted := s'.ring.evicted)
    && s'.ring.threads == s.ring.threads[t := s'.ring.threads[t]]
    && s'.log == s.log.(fates := s'.log.fates, marks := s'.log.marks)
    && s'.log.fates == s.log.fates[pos := s'.log.fates[pos]]
    && (s.log.fates[pos].Published? || (!Recycled(s.log.fates[pos]) && s.log.fates[pos].who == t)
        || s.log.fates[pos] == Uncounted(t))
    && !s'.log.fates[pos].Writing?
    && (Recycled(s.log.fates[pos]) ==> Recycled(s'.log.fates[pos]))
    && (if s'.ring.head == s.ring.head
        then Taken(s'.log.fates[pos]) == Taken(s.log.fates[pos])
        else s'.ring.head == s.ring.head + 1 && pos == s.ring.head && Taken(s'.log.fates[pos]))
  }

  lemma RefatedThreads<T>(s: Sys<T>, s': Sys<T>, t: nat, pos: nat)
    requires Inv(s) && Refated(s, s', t, pos)
    ensures forall u: nat | u != t :: ThreadOk(s', u)
  {
    forall u: nat | u != t ensures ThreadOk(s', u) { assert ThreadOk(s, u); }
  }

  lemma RefatedPositions<T>(s: Sys<T>, s': Sys<T>, t: nat, pos: nat)
    requires Inv(s) && Refated(s, s', t, pos)
    requires Owns(s.ring.threads[t]) ==> s.ring.threads[t].pos == pos
    ensures forall p: nat | p != pos :: PosOk(s', p)
  {
    forall p: nat | p != pos ensures PosOk(s', p) { assert PosOk(s, p); }
  }

  /** A consumer or an evictor takes the position at the head. */
  lemma TakeKeeps<T>(s: Sys<T>, t: nat, op: Op<T>)
    requires Inv(s) && t < |s.ring.threads|
    requires s.ring.threads[t].PopCas? || s.ring.threads[t].EvictCas?
    requires s.ring.threads[t].pos == s.ring.head
    ensures Inv(Next(s, t, op))
  {
    var s' := Next(s, t, op);
    var pos := s.ring.head;
    assert ThreadOk(s, t);
    assert PosOk(s, pos);
    assert s.log.fates[pos] == Published;
    RefatedThreads(s, s', t, pos);
    RefatedPositions(s, s', t, pos);
    assert PosOk(s', pos);
    forall p: int ensures SlotOk(s', p) { assert SlotOk(s, p); }
    assert ThreadOk(s', t);
  }

  /** The producer writes the item into the slot it has claimed. */
  lemma WriteKeeps<T>(s: Sys<T>, t: nat, op: Op<T>)
    requires Inv(s) && t < |s.ring.threads| && s.ring.threads[t].PushWrite?
    ensures Inv(Next(s, t, op))
  {
    var s' := Next(s, t, op);
    var n, pos := s.ring.n, s.ring.threads[t].pos;
    assert ThreadOk(s, t);
    assert PosOk(s, pos);
    forall p: int ensures SlotOk(s', p) { assert SlotOk(s, p); }
    forall p: nat ensures PosOk(s', p) {
      assert PosOk(s, p);
      ApartFrom(s, pos, p);
    }
    forall u: nat ensures ThreadOk(s', u) {
      assert ThreadOk(s, u);
      if u < |s.ring.threads| && s.ring.threads[u].PushStore? {
        assert PosOk(s, s.ring.threads[u].pos);
        ApartFrom(s, pos, s.ring.threads[u].pos);
      }
    }
  }

  /** Two different positions that have not been recycled lie in different slots. */
  lemma ApartFrom<T>(s: Sys<T>, p: nat, q: nat)
    requires Inv(s)
    ensures p < s.ring.tail && q < s.ring.tail && p != q
            && !Recycled(s.log.fates[p]) && !Recycled(s.log.fates[q])
            ==> p % s.ring.n != q % s.ring.n
  {
    assert PosOk(s, p) && PosOk(s, q);
    if p < q < p + s.ring.n {
      SlotsDiffer(s.ring.n, p, q);
    } else if q < p < q + s.ring.n {
      SlotsDiffer(s.ring.n, q, p);
    }
  }

  /** The consumer reads the item out of the slot it has taken. */
  lemma ReadKeeps<T>(s: Sys<T>, t: nat, op: Op<T>)
    requires Inv(s) && t < |s.ring.threads| && s.ring.threads[t].PopRead?
    ensures Inv(Next(s, t, op))
  {
    var s' := Next(s, t, op);
    assert ThreadOk(s, t);
    assert PosOk(s, s.ring.threads[t].pos);
    forall p: int ensures SlotOk(s', p) { assert SlotOk(s, p); }
    forall p: nat ensures PosOk(s', p) { assert PosOk(s, p); }
    forall u: nat ensures ThreadOk(s', u) { assert ThreadOk(s, u); }
  }

  /** Storing a position's next sequence number touches the slot of no other live position. */
  lemma StoreSlots<T>(s: Sys<T>, t: nat, op: Op<T>)
    requires Inv(s) && t < |s.ring.threads|
    requires s.ring.threads[t].PushStore? || s.ring.threads[t].PopStore? || s.ring.threads[t].EvictStore?
    ensures Shape(Next(s, t, op)) && forall p: int :: SlotOk(Next(s, t, op), p)
  {
    var s' := Next(s, t, op);
    var n, pos := s.ring.n, s.ring.threads[t].pos;
    assert ThreadOk(s, t);
    assert PosOk(s, pos);
    forall p: int ensures SlotOk(s', p) {
      assert SlotOk(s, p);
      if pos < p < pos + n { SlotsDiffer(n, pos, p); }
      if p < pos < p + n { SlotsDiffer(n, p, pos); }
    }
  }

  /** The owner of a position stores the position's next sequence number. */
  lemma StoreKeeps<T>(s: Sys<T>, t: nat, op: Op<T>)
    requires Inv(s) && t < |s.ring.threads|
    requires s.ring.threads[t].PushStore? || s.ring.threads[t].PopStore? || s.ring.threads[t].EvictStore?
    ensures Inv(Next(s, t, op))
  {
    var s' := Next(s, t, op);
    assert ThreadOk(s, t);
    assert PosOk(s, s.ring.threads[t].pos);
    StoreSlots(s, t, op);
    RefatedThreads(s, s', t, s.ring.threads[t].pos);
    RefatedPositions(s, s', t, s.ring.threads[t].pos);
    assert PosOk(s', s.ring.threads[t].pos);
    assert ThreadOk(s', t);
  }

  lemma CountKeeps<T>(s: Sys<T>, t: nat, op: Op<T>)
    requires Inv(s) && t < |s.ring.threads| && s.ring.threads[t].EvictCount?
    ensures Inv(Next(s, t, op))
  {
    var s' := Next(s, t, op);
    assert ThreadOk(s, t);
    assert PosOk(s, s.ring.threads[t].pos);
    forall p: int ensures SlotOk(s', p) { assert SlotOk(s, p); }
    RefatedThreads(s, s', t, s.ring.threads[t].pos);
    RefatedPositions(s, s', t, s.ring.threads[t].pos);
    assert PosOk(s', s.ring.threads[t].pos);
    assert ThreadOk(s', t);
  }

  /** A push that finds `diff == 0` knows that the previous lap of its slot is over. */
  lemma PushLoadKeeps<T>(s: Sys<T>, t: nat, op: Op<T>)
    requires Inv(s) && t < |s.ring.threads| && s.ring.threads[t].PushLoadSeq?
    ensures Inv(Next(s, t, op))
  {
    var n, pos := s.ring.n, s.ring.threads[t].pos;
    assert ThreadOk(s, t);
    if pos == s.ring.tail { LoadAtTail(s, pos); }
    if n <= pos { assert PosOk(s, pos - n); }
    QuietKeeps(s, Next(s, t, op), t);
  }

  /** A pop or an eviction that finds `pos + 1` knows that the producer at pos is done. */
  lemma TakeLoadKeeps<T>(s: Sys<T>, t: nat, op: Op<T>)
    requires Inv(s) && t < |s.ring.threads|
    requires s.ring.threads[t].PopLoadSeq? || s.ring.threads[t].EvictLoadSeq?
    ensures Inv(Next(s, t, op))
  {
    var pos := s.ring.threads[t].pos;
    assert ThreadOk(s, t);
    if pos == s.ring.tail {
      LoadAtTail(s, pos);
    } else {
      assert PosOk(s, pos);
      assert SlotOk(s, pos);
    }
    QuietKeeps(s, Next(s, t, op), t);
  }

  /** Cursor loads, starts, returns, drops and lost races. */
  lemma QuietStep<T>(s: Sys<T>, t: nat, op: Op<T>)
    requires Inv(s) && t < |s.ring.threads|
    requires
      var th := s.ring.threads[t];
      || th.Idle? || th.PushLoadTail? || th.PushFull? || th.EvictLoadHead? || th.PopLoadHead?
      || th.DepthLoadTail? || th.DepthLoadHead? || th.DepthReport?
      || (th.PushCas? && th.pos != s.ring.tail) || ((th.EvictCas? || th.PopCas?) && th.pos != s.ring.head)
    ensures Inv(Next(s, t, op))
  {
    QuietKeeps(s, Next(s, t, op), t);
  }

  /** Every atomic action of every thread keeps the invariant. */
  lemma StepKeeps<T>(s: Sys<T>, t: nat, op: Op<T>)
    requires Inv(s) && t < |s.ring.threads|
    ensures Inv(Next(s, t, op))
  {
    assert WellFormed(s.ring);
    hide Next, Inv;
    match s.ring.threads[t]
    case PushLoadSeq(_, _) => PushLoadKeeps(s, t, op);
    case PopLoadSeq(_) => TakeLoadKeeps(s, t, op);
    case EvictLoadSeq(_, _) => TakeLoadKeeps(s, t, op);
    case PushCas(_, pos) => if s.ring.tail == pos { ClaimKeeps(s, t, op); } else { QuietStep(s, t, op); }
    case PopCas(pos) => if s.ring.head == pos { TakeKeeps(s, t, op); } else { QuietStep(s, t, op); }
    case EvictCas(_, pos) => if s.ring.head == pos { TakeKeeps(s, t, op); } else { QuietStep(s, t, op); }
    case PushWrite(_, _) => WriteKeeps(s, t, op);
    case PopRead(_) => ReadKeeps(s, t, op);
    case PushStore(_, _) => StoreKeeps(s, t, op);
    case PopStore(_, _) => StoreKeeps(s, t, op);
    case EvictStore(_, _) => StoreKeeps(s, t, op);
    case EvictCount(_, _) => CountKeeps(s, t, op);
    case _ => QuietStep(s, t, op);
  }

  /** A new ring satisfies the invariant if and only if its capacity is at least two. */
  lemma InitHolds<T>(n: nat, data: seq<T>, workers: nat)
    requires 0 < n == |data|
    ensures Inv(Init(n, data, workers)) <==> 2 <= n
  {
    var s := Init(n, data, workers);
    if 2 <= n {
      forall p: int ensures SlotOk(s, p) {
        if -(n as int) <= p < 0 { BeforeZero(n, p); }
      }
    }
  }
}
