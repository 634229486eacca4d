/**
 The ring as the batcher uses it: many producers, one drainer. The drainer's output is the
 order of the claims minus the evicted positions.
 */
module RingDrain {
  import opened RingSteps
  import opened RingInvariant
  import opened RingSafety
  import opened RingProgress

  /** The reads a perfect drainer would have made below k: consumed positions, in claim order. */
  function Kept<T>(claims: seq<Claim<T>>, fates: seq<Fate>, k: nat): seq<Read<T>>
    requires k <= |claims| && k <= |fates|
  {
    if k == 0 then []
    else
      Kept(claims, fates, k - 1)
      + (if fates[k - 1].Consumed? then [Read(fates[k - 1].who, k - 1, claims[k - 1].item)] else [])
  }

  lemma {:induction false} KeptAgree<T>(claims: seq<Claim<T>>, fates: seq<Fate>,
                                        claims': seq<Claim<T>>, fates': seq<Fate>, k: nat)
    requires k <= |claims| && k <= |fates| && k <= |claims'| && k <= |fates'|
    requires forall p: nat | p < k :: claims'[p] == claims[p]
    requires forall p: nat | p < k && (fates[p].Consumed? || fates'[p].Consumed?) :: fates'[p] == fates[p]
    ensures Kept(claims', fates', k) == Kept(claims, fates, k)
  {
    if k > 0 { KeptAgree(claims, fates, claims', fates', k - 1); }
  }

  lemma {:induction false} KeptNone<T>(claims: seq<Claim<T>>, fates: seq<Fate>, k: nat, m: nat)
    requires k <= m <= |claims| && m <= |fates|
    requires forall p: nat | k <= p < m :: !fates[p].Consumed?
    ensures Kept(claims, fates, m) == Kept(claims, fates, k)
  {
    if k < m { KeptNone(claims, fates, k, m - 1); }
  }

  /** Consuming the last of the consumed positions appends its read. */
  lemma KeptGrows<T>(claims: seq<Claim<T>>, fates: seq<Fate>, pos: nat, d: nat)
    requires pos < |fates| == |claims| && !fates[pos].Consumed?
    requires forall p: nat | pos < p < |fates| :: !fates[p].Consumed?
    ensures Kept(claims, fates[pos := Consumed(d)], |fates|)
            == Kept(claims, fates, |fates|) + [Read(d, pos, claims[pos].item)]
  {
    var fates' := fates[pos := Consumed(d)];
    KeptNone(claims, fates, pos, |fates|);
    KeptNone(claims, fates', pos + 1, |fates|);
    KeptAgree(claims, fates, claims, fates', pos);
  }

  ghost predicate Ascending<T>(out: seq<Read<T>>) {
    forall i, j | 0 <= i < j < |out| :: out[i].pos < out[j].pos
  }

  ghost predicate AllConsumed<T>(out: seq<Read<T>>, fates: seq<Fate>, k: nat) {
    forall i | 0 <= i < |out| :: out[i].pos < k <= |fates| && fates[out[i].pos].Consumed?
  }

  /** Positions in the reference output ascend. */
  lemma {:induction false} KeptSorted<T>(claims: seq<Claim<T>>, fates: seq<Fate>, k: nat)
    requires k <= |claims| && k <= |fates|
    ensures Ascending(Kept(claims, fates, k)) && AllConsumed(Kept(claims, fates, k), fates, k)
  {
    if k > 0 {
      KeptSorted(claims, fates, k - 1);
      var before, out := Kept(claims, fates, k - 1), Kept(claims, fates, k);
      hide Kept;
      forall i | 0 <= i < |out| ensures out[i].pos < k && fates[out[i].pos].Consumed? {
        if i < |before| { assert out[i] == before[i]; }
      }
      forall i, j | 0 <= i < j < |out| ensures out[i].pos < out[j].pos {
        assert out[i] == before[i];
        if j < |before| { assert out[j] == before[j]; }
      }
    }
  }

  /** Every consumed position is in the reference output. */
  lemma {:induction false} KeptHas<T>(claims: seq<Claim<T>>, fates: seq<Fate>, k: nat, p: nat) returns (i: nat)
    requires k <= |claims| && k <= |fates| && p < k && fates[p].Consumed?
    ensures i < |Kept(claims, fates, k)| && Kept(claims, fates, k)[i].pos == p
  {
    if p == k - 1 {
      i := |Kept(claims, fates, k - 1)|;
    } else {
      i := KeptHas(claims, fates, k - 1, p);
    }
  }

  // ------------------------------------------------------------------------------------------

  ghost predicate NoneAfter(fates: seq<Fate>, pos: nat) {
    forall p: nat | pos < p < |fates| :: !fates[p].Consumed?
  }

  ghost predicate DrainInv<T>(s: Sys<T>, d: nat)
    requires Shape(s) && d < |s.ring.threads|
  {
    var kept := Kept(s.log.claims, s.log.fates, s.ring.tail);
    && (forall u: nat | u < |s.ring.threads| && u != d :: !Popping(s.ring.threads[u]))
    && match s.ring.threads[d]
       case PopRead(pos) => s.log.out == kept && NoneAfter(s.log.fates, pos)
       case PopStore(pos, item) => s.log.out == kept + [Read(d, pos, item)] && NoneAfter(s.log.fates, pos)
       case _ => s.log.out == kept
  }

  /** Another thread never completes a read, so the reference output does not move. */
  lemma KeptStep<T>(s: Sys<T>, d: nat, t: nat, op: Op<T>)
    requires Inv(s) && d < |s.ring.threads| && DrainInv(s, d) && t < |s.ring.threads|
    requires t == d ==> !s.ring.threads[d].PopStore?
    ensures Inv(Next(s, t, op))
    ensures
      var s' := Next(s, t, op);
      && Kept(s'.log.claims, s'.log.fates, s'.ring.tail) == Kept(s.log.claims, s.log.fates, s.ring.tail)
      && |s'.log.fates| == s'.ring.tail >= s.ring.tail
      && (forall p: nat | p < s'.ring.tail ::
            s'.log.fates[p].Consumed? <==> p < s.ring.tail && s.log.fates[p].Consumed?)
  {
    var s' := Next(s, t, op);
    StepKeeps(s, t, op);
    LifeCycle(s, t, op);
    CursorStep(s, t, op);
    assert ThreadOk(s, t);
    forall p: nat | p < s.ring.tail && (s.log.fates[p].Consumed? || s'.log.fates[p].Consumed?)
      ensures s'.log.fates[p] == s.log.fates[p]
    {
      assert PosOk(s, p);
    }
    KeptAgree(s.log.claims, s.log.fates, s'.log.claims, s'.log.fates, s.ring.tail);
    if s'.ring.tail > s.ring.tail { assert s'.log.fates[s.ring.tail] == Writing(t); }
    KeptNone(s'.log.claims, s'.log.fates, s.ring.tail, s'.ring.tail);
  }

  /** The drainer takes the head: nothing beyond it can have been consumed. */
  lemma NothingBeyondHead<T>(s: Sys<T>)
    requires Inv(s)
    ensures forall p: nat | s.ring.head <= p < s.ring.tail :: !s.log.fates[p].Consumed?
  {
    forall p: nat | s.ring.head <= p < s.ring.tail ensures !s.log.fates[p].Consumed? { assert PosOk(s, p); }
  }

  /** Storing the sequence number completes a read. */
  lemma DrainerStores<T>(s: Sys<T>, d: nat, op: Op<T>)
    requires Inv(s) && d < |s.ring.threads| && DrainInv(s, d) && s.ring.threads[d].PopStore?
    ensures Inv(Next(s, d, op)) && DrainInv(Next(s, d, op), d)
  {
    assert ThreadOk(s, d);
    StepKeeps(s, d, op);
    KeptGrows(s.log.claims, s.log.fates, s.ring.threads[d].pos, d);
  }

  lemma DrainerStep<T>(s: Sys<T>, d: nat, op: Op<T>)
    requires Inv(s) && d < |s.ring.threads| && DrainInv(s, d)
    ensures Inv(Next(s, d, op)) && DrainInv(Next(s, d, op), d)
  {
    if s.ring.threads[d].PopStore? {
      DrainerStores(s, d, op);
    } else {
      hide Kept;
      assert ThreadOk(s, d);
      KeptStep(s, d, d, op);
      OutputStep(s, d, op);
      NothingBeyondHead(s);
      if s.ring.threads[d].PopRead? { assert PosOk(s, s.ring.threads[d].pos); }
    }
  }

  lemma OtherStep<T>(s: Sys<T>, d: nat, t: nat, op: Op<T>)
    requires Inv(s) && d < |s.ring.threads| && DrainInv(s, d) && t < |s.ring.threads| && t != d
    requires !op.Pop?
    ensures Inv(Next(s, t, op)) && DrainInv(Next(s, t, op), d)
  {
    hide Kept;
    KeptStep(s, d, t, op);
    OutputStep(s, t, op);
  }

  /** No thread but d ever starts a pop. */
  predicate SoleDrainer<T>(sched: seq<Move<T>>, d: nat) {
    forall i | 0 <= i < |sched| :: sched[i].op.Pop? ==> sched[i].who == d
  }

  lemma {:induction false} RunDrains<T>(s: Sys<T>, d: nat, sched: seq<Move<T>>)
    requires Inv(s) && d < |s.ring.threads| && DrainInv(s, d) && SoleDrainer(sched, d)
    ensures Inv(Run(s, sched)) && |Run(s, sched).ring.threads| == |s.ring.threads|
    ensures DrainInv(Run(s, sched), d)
    decreases |sched|
  {
    if sched != [] {
      var m := sched[0];
      if m.who < |s.ring.threads| {
        if m.who == d { DrainerStep(s, d, m.op); } else { OtherStep(s, d, m.who, m.op); }
        RunDrains(Next(s, m.who, m.op), d, sched[1..]);
      } else {
        RunDrains(s, d, sched[1..]);
      }
    }
  }

  /** Position p is accounted for: read, taken away by an evictor, or about to be read. */
  ghost predicate Served<T>(s: Sys<T>, d: nat, p: nat)
    requires p < |s.log.fates|
  {
    || (exists i :: 0 <= i < |s.log.out| && s.log.out[i].pos == p)
    || s.log.fates[p].Evicting? || s.log.fates[p].Uncounted? || s.log.fates[p].Evicted?
    || (d < |s.ring.threads| && s.ring.threads[d] == PopRead(p))
  }

  lemma HeadIsServed<T>(s: Sys<T>, d: nat, p: nat)
    requires Inv(s) && d < |s.ring.threads| && DrainInv(s, d) && p < s.ring.head
    ensures Served(s, d, p)
  {
    assert PosOk(s, p);
    if s.log.fates[p].Consumed? {
      var i := KeptHas(s.log.claims, s.log.fates, s.ring.tail, p);
      assert s.log.out[i].pos == p;
    } else if s.log.fates[p].Reading? && s.ring.threads[d].PopStore? {
      assert s.log.out[|s.log.out| - 1].pos == p;
    }
  }

  lemma OutputAscends<T>(s: Sys<T>, d: nat)
    requires Inv(s) && d < |s.ring.threads| && DrainInv(s, d)
    ensures Ascending(s.log.out)
  {
    assert ThreadOk(s, d);
    KeptSorted(s.log.claims, s.log.fates, s.ring.tail);
  }

  /**
   With one drainer, whatever the producers and evictors do, the items read so far are the
   claimed items in claim order without the evicted positions (and without the position the
   drainer is about to read): every position below the head is read exactly once, in order, or
   evicted.
   */
  lemma SoleDrainerIsFifo<T>(n: nat, data: seq<T>, workers: nat, d: nat, sched: seq<Move<T>>)
    requires 2 <= n == |data| && d < workers && SoleDrainer(sched, d)
    ensures
      var s := Run(Init(n, data, workers), sched);
      var out := s.log.out;
      && |s.log.claims| == |s.log.fates| == s.ring.tail && s.ring.head <= s.ring.tail
      && (forall i | 0 <= i < |out| :: out[i].pos < s.ring.head && out[i].item == s.log.claims[out[i].pos].item)
      && Ascending(out)
      && (forall p: nat | p < s.ring.head :: Served(s, d, p))
  {
    var s0 := Init(n, data, workers);
    InitHolds(n, data, workers);
    RunDrains(s0, d, sched);
    RunReadsOnce(s0, sched);
    var s := Run(s0, sched);
    OutputAscends(s, d);
    forall i | 0 <= i < |s.log.out|
      ensures s.log.out[i].pos < s.ring.head && s.log.out[i].item == s.log.claims[s.log.out[i].pos].item
    {
      assert OutOk(s, i);
      assert PosOk(s, s.log.out[i].pos);
    }
    forall p: nat | p < s.ring.head ensures Served(s, d, p) { HeadIsServed(s, d, p); }
  }

  // ------------------------------------------------------------------------------------------
  // DropNewest only: no position is ever evicted

  predicate Evictish(f: Fate) {
    f.Evicting? || f.Uncounted? || f.Evicted?
  }

  ghost predicate NewestInv<T>(s: Sys<T>) {
    && (forall u | 0 <= u < |s.ring.threads| :: Newest(s.ring.threads[u]))
    && NoneEvicted(s.log.fates)
  }

  /** A thread that never evicts. */
  predicate Newest<T>(th: Thread<T>) {
    Undecided(th) ==>
      && th.call.policy == DropNewest && !th.EvictLoadHead? && !th.EvictLoadSeq? && !th.EvictCas?
      && !th.EvictStore? && !th.EvictCount?
  }

  ghost predicate NoneEvicted(fates: seq<Fate>) {
    forall p | 0 <= p < |fates| :: !Evictish(fates[p])
  }

  predicate NewestOnly<T>(sched: seq<Move<T>>) {
    forall i | 0 <= i < |sched| :: sched[i].op.Push? ==> sched[i].op.policy == DropNewest
  }

  lemma NewestStep<T>(s: Sys<T>, t: nat, op: Op<T>)
    requires Shape(s) && NewestInv(s) && t < |s.ring.threads| && (op.Push? ==> op.policy == DropNewest)
    ensures NewestInv(Next(s, t, op))
  {
    hide NoneEvicted, Newest;
    assert Newest(s.ring.threads[t]);
    NewestThread(s.ring, t, op);
    NewestFates(s, t, op);
    assert Next(s, t, op).ring.threads == s.ring.threads[t := Next(s, t, op).ring.threads[t]];
  }

  lemma NewestThread<T>(r: Ring<T>, t: nat, op: Op<T>)
    requires WellFormed(r) && t < |r.threads| && Newest(r.threads[t]) && (op.Push? ==> op.policy == DropNewest)
    ensures Newest(Step(r, t, op).threads[t])
    ensures var th := r.threads[t]; !th.EvictCas? && !th.EvictStore? && !th.EvictCount?
  {
  }

  lemma NewestFates<T>(s: Sys<T>, t: nat, op: Op<T>)
    requires Shape(s) && t < |s.ring.threads| && NoneEvicted(s.log.fates)
    requires var th := s.ring.threads[t]; !th.EvictCas? && !th.EvictStore? && !th.EvictCount?
    ensures NoneEvicted(Next(s, t, op).log.fates)
  {
  }

  lemma {:induction false} RunNewest<T>(s: Sys<T>, d: nat, sched: seq<Move<T>>)
    requires Inv(s) && d < |s.ring.threads| && DrainInv(s, d) && NewestInv(s)
    requires SoleDrainer(sched, d) && NewestOnly(sched)
    ensures Inv(Run(s, sched)) && |Run(s, sched).ring.threads| == |s.ring.threads|
    ensures DrainInv(Run(s, sched), d) && NewestInv(Run(s, sched))
    decreases |sched|
  {
    if sched != [] {
      var m := sched[0];
      if m.who < |s.ring.threads| {
        if m.who == d { DrainerStep(s, d, m.op); } else { OtherStep(s, d, m.who, m.op); }
        NewestStep(s, m.who, m.op);
        RunNewest(Next(s, m.who, m.op), d, sched[1..]);
      } else {
        RunNewest(s, d, sched[1..]);
      }
    }
  }

  lemma RefusalDepth<T>(s: Sys<T>, d: nat)
    requires Inv(s) && d < |s.ring.threads| && DrainInv(s, d) && NewestInv(s)
    requires Occupied(s, s.ring.tail - s.ring.n)
    ensures || |Queue(s)| == s.ring.n
            || (|Queue(s)| == s.ring.n - 1 && Holds(s.ring.threads[d]) && s.ring.threads[d].pos == s.ring.head - 1)
  {
    var q := s.ring.tail - s.ring.n;
    assert PosOk(s, q);
    if q + 1 < s.ring.head { assert PosOk(s, q + 1); }
  }
}
