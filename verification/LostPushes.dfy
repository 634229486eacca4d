/**
 DropOldest is documented to succeed unless a stalled producer holds the head slot. Two families
 of runs, one for every capacity, in which it drops its item although no producer is stalled:
 against a drainer in the middle of a Marshal, and against another producer that wins 128 races.
 The exact condition is RingSolo.PushOutcome.
 */
module LostPushes {
  import opened RingSteps
  import opened RingInvariant
  import opened RingSafety
  import opened RingSolo

  /** Steps of one thread are a schedule. */
  lemma {:induction false} SoloIsRun<T>(s: Sys<T>, t: nat, op: Op<T>, k: nat) returns (sched: seq<Move<T>>)
    requires WellFormed(s.ring) && t < |s.ring.threads|
    ensures Run(s, sched) == Solo(s, t, op, k)
  {
    if k == 0 {
      sched := [];
    } else {
      var before := SoloIsRun(s, t, op, k - 1);
      RunAppend(s, before, [Move(t, op)]);
      sched := before + [Move(t, op)];
      assert [Move(t, op)][1..] == [];
    }
  }

  /** A schedule, and steps of one thread after it, are a schedule. */
  lemma Extend<T>(s: Sys<T>, sched: seq<Move<T>>, t: nat, op: Op<T>, k: nat) returns (sched': seq<Move<T>>)
    requires WellFormed(s.ring) && WellFormed(Run(s, sched).ring) && t < |Run(s, sched).ring.threads|
    ensures Run(s, sched') == Solo(Run(s, sched), t, op, k)
  {
    var more := SoloIsRun(Run(s, sched), t, op, k);
    RunAppend(s, sched, more);
    sched' := sched + more;
  }

  // ------------------------------------------------------------------------------------------
  // A full ring

  predicate AllPublished(fates: seq<Fate>, h: nat) {
    forall p | h <= p < |fates| :: fates[p].Published?
  }

  predicate AllIdle<T>(threads: seq<Thread<T>>, workers: nat) {
    |threads| == workers && forall u | 0 <= u < workers :: threads[u] == Idle
  }

  /** m items pushed by thread 0 onto a new ring, nothing taken. */
  ghost predicate Filled<T>(s: Sys<T>, n: nat, workers: nat, m: nat) {
    && Inv(s) && s.ring.n == n && s.ring.head == s.ring.evicted == s.ring.dropped == 0
    && s.ring.tail == s.log.calls == m && AllPublished(s.log.fates, 0) && AllIdle(s.ring.threads, workers)
  }

  lemma {:induction false} FillRing<T>(n: nat, data: seq<T>, workers: nat, item: T, m: nat) returns (sched: seq<Move<T>>)
    requires 2 <= n == |data| && 1 <= workers && m <= n
    ensures Filled(Run(Init(n, data, workers), sched), n, workers, m)
  {
    if m == 0 {
      sched := [];
      InitHolds(n, data, workers);
    } else {
      var before := FillRing(n, data, workers, item, m - 1);
      var s := Run(Init(n, data, workers), before);
      var k := SoloPush(s, 0, item, DropOldest);
      sched := Extend(Init(n, data, workers), before, 0, Push(item, DropOldest), k);
    }
  }

  // ------------------------------------------------------------------------------------------
  // A drainer in the middle of a Marshal

  lemma {:induction false} RipeAll(fates: seq<Fate>, h: nat)
    requires h <= |fates| && AllPublished(fates, h)
    ensures RipeRun(fates, h) == |fates| - h
    decreases |fates| - h
  {
    if h < |fates| { RipeAll(fates, h + 1); }
  }

  /** Thread 1 pops up to the point where it reads, that is marshals, the oldest item. */
  lemma Marshalling<T>(s: Sys<T>, n: nat, workers: nat)
    requires 2 <= n && 2 <= workers && Filled(s, n, workers, n)
    ensures
      var s' := Solo(s, 1, Pop, 4);
      && Inv(s') && s'.ring.n == n && s'.ring.threads == s.ring.threads[1 := PopRead(0)]
      && s'.ring.head == 1 && s'.ring.tail == s'.log.calls == n && s'.ring.evicted == s'.ring.dropped == 0
      && s'.log.fates == s.log.fates[0 := Reading(1)]
  {
    hide Next;
    FourSteps(s, n, EffectOf(s), 0);
  }

  lemma FourSteps<T>(s: Sys<T>, n: nat, e: Effect<T>, k: nat)
    requires WellFormed(s.ring) && 1 < |s.ring.threads| && Ripe(e)
    requires Stands(Solo(s, 1, Pop, k), n, 1, Idle, e)
    ensures Stands(Solo(s, 1, Pop, k + 4), n, 1, PopRead(e.head),
                   e.(head := e.head + 1, fates := SetAt(e.fates, e.head, Reading(1))))
  {
    hide Stands, Next;
    var op := Op<T>.Pop;
    Begins(Solo(s, 1, op, k), n, 1, op, e);
    PlainStep(Solo(s, 1, op, k + 1), n, 1, op, PopLoadHead, e);
    PopLoads(Solo(s, 1, op, k + 2), n, 1, op, e);
    PopTakes(Solo(s, 1, op, k + 3), n, 1, op, e);
  }

  /**
   For every capacity N there is a run in which a DropOldest push, with no producer stalled and no
   race lost, drops its own item and evicts min(N - 1, 128) others: the drainer holds the oldest
   position while it marshals, and no eviction can free that slot.
   */
  lemma DropsDuringMarshal<T>(n: nat, data: seq<T>, workers: nat, item: T) returns (sched: seq<Move<T>>)
    requires 2 <= n == |data| && 2 <= workers
    ensures
      var s := Run(Init(n, data, workers), sched);
      && |s.ring.threads| == workers && s.ring.threads[1] == PopRead(0)
      && (forall u | 0 <= u < workers && u != 1 :: s.ring.threads[u] == Idle)
      && s.log.calls == n + 1 && s.ring.tail == n
      && s.ring.dropped == 1 && s.ring.evicted == Min(n - 1, 128)
  {
    var s0 := Init(n, data, workers);
    hide Run, Solo, Next;
    var fill := FillRing(n, data, workers, item, n);
    var full := Run(s0, fill);
    Marshalling(full, n, workers);
    var held := Extend(s0, fill, 1, Pop, 4);
    var s := Run(s0, held);
    var k := SoloPush(s, 0, item, DropOldest);
    PushOutcome(s, 0, item, DropOldest);
    RipeAll(s.log.fates, 1);
    sched := Extend(s0, held, 0, Push(item, DropOldest), k);
  }

  // ------------------------------------------------------------------------------------------
  // A producer that wins every race

  /**
   Thread 0 is about to evict the head in its a-th attempt; thread 1 is between two calls; nothing
   else is going on.
   */
  ghost predicate Racing<T>(s: Sys<T>, n: nat, workers: nat, item: T, a: nat) {
    && 1 <= a <= MAX_EVICT_RETRIES && 2 <= workers && Inv(s) && s.ring.n == n
    && |s.ring.threads| == workers && s.ring.threads[0] == EvictCas(Call(item, DropOldest, a), s.ring.head)
    && (forall u | 1 <= u < workers :: s.ring.threads[u] == Idle)
    && s.ring.head == s.ring.evicted == a - 1 && s.ring.tail == n + a - 1 && s.log.calls == n + a
    && s.ring.dropped == 0 && AllPublished(s.log.fates, s.ring.head)
    && (forall p | 0 <= p < s.ring.head :: s.log.fates[p] == Evicted(1))
  }

  /** From a load of a stuck tail in attempt a to the compare-and-swap of that attempt. */
  lemma NextAttempt<T>(s: Sys<T>, n: nat, op: Op<T>, c: Call<T>, e: Effect<T>, k: nat) returns (k': nat)
    requires WellFormed(s.ring) && 0 < |s.ring.threads| && c.policy.DropOldest?
    requires Stands(Solo(s, 0, op, k), n, 0, PushLoadTail(c), e) && Stuck(e, n) && Ripe(e)
    ensures
      var c' := c.(attempts := c.attempts + 1);
      if c.attempts < MAX_EVICT_RETRIES then Stands(Solo(s, 0, op, k'), n, 0, EvictCas(c', e.head), e)
      else Stands(Solo(s, 0, op, k'), n, 0, Idle, Dropped(e))
  {
    hide Stands, Next;
    var c' := c.(attempts := c.attempts + 1);
    k' := TwoLoads(s, n, 0, op, c, e, k);
    if c.attempts < MAX_EVICT_RETRIES {
      PlainStep(Solo(s, 0, op, k'), n, 0, op, EvictLoadHead(c'), e);
      EvictLoads(Solo(s, 0, op, k' + 1), n, 0, op, c', e);
      k' := k' + 2;
    } else {
      k' := LastDrop(s, n, 0, op, c', e, k');
    }
  }

  lemma LosesRace<T>(s: Sys<T>, n: nat, op: Op<T>, c: Call<T>, pos: nat, e: Effect<T>, k: nat) returns (k': nat)
    requires WellFormed(s.ring) && 0 < |s.ring.threads| && c.policy.DropOldest? && pos != e.head
    requires Stands(Solo(s, 0, op, k), n, 0, EvictCas(c, pos), e) && Stuck(e, n) && Ripe(e)
    ensures
      var c' := c.(attempts := c.attempts + 1);
      if c.attempts < MAX_EVICT_RETRIES then Stands(Solo(s, 0, op, k'), n, 0, EvictCas(c', e.head), e)
      else Stands(Solo(s, 0, op, k'), n, 0, Idle, Dropped(e))
  {
    hide Stands, Next;
    EvictTakes(Solo(s, 0, op, k), n, 0, op, c, pos, e);
    k' := NextAttempt(s, n, op, c, e, k + 1);
  }

  /** Thread 1 has just pushed once more and thereby moved the head away from thread 0. */
  ghost predicate Beaten<T>(s: Sys<T>, n: nat, workers: nat, item: T, a: nat) {
    && 1 <= a <= MAX_EVICT_RETRIES && 2 <= workers && Inv(s) && s.ring.n == n
    && |s.ring.threads| == workers && s.ring.threads[0] == EvictCas(Call(item, DropOldest, a), a - 1)
    && (forall u | 1 <= u < workers :: s.ring.threads[u] == Idle)
    && s.ring.head == s.ring.evicted == a && s.ring.tail == n + a && s.log.calls == n + a + 1
    && s.ring.dropped == 0 && AllPublished(s.log.fates, a) && (forall p | 0 <= p < a :: s.log.fates[p] == Evicted(1))
  }

  lemma OtherPushes<T>(s: Sys<T>, n: nat, workers: nat, item: T, a: nat) returns (k: nat)
    requires Racing(s, n, workers, item, a)
    ensures Beaten(Solo(s, 1, Push(item, DropOldest), k), n, workers, item, a)
  {
    hide Next, Solo, EvictedMany, RipeRun;
    k := SoloPush(s, 1, item, DropOldest);
    var e := EffectOf(Solo(s, 1, Push(item, DropOldest), k));
    assert e == Enqueued(EvictedOne(EffectOf(s).(calls := n + a + 1), 1), Claim(1, item));
  }

  /** The run is over: thread 0's item is dropped, thread 1 has pushed 128 times. */
  ghost predicate Lost<T>(s: Sys<T>, n: nat, workers: nat) {
    && AllIdle(s.ring.threads, workers) && s.ring.dropped == 1 && s.ring.tail == n + 128
    && s.ring.head == s.ring.evicted == 128 && s.log.calls == n + 129 && |s.log.fates| == n + 128
    && (forall p | 0 <= p < 128 :: s.log.fates[p] == Evicted(1)) && AllPublished(s.log.fates, 128)
  }

  lemma TriesAgain<T>(s: Sys<T>, n: nat, workers: nat, item: T, a: nat) returns (k: nat)
    requires Beaten(s, n, workers, item, a)
    ensures
      var s' := Solo(s, 0, Push(item, DropOldest), k);
      if a < MAX_EVICT_RETRIES then Racing(s', n, workers, item, a + 1) else Lost(s', n, workers)
  {
    var op, c, e := Push(item, DropOldest), Call(item, DropOldest, a), EffectOf(s);
    assert Stands(Solo(s, 0, op, 0), n, 0, EvictCas(c, a - 1), e);
    k := LosesRace(s, n, op, c, a - 1, e, 0);
  }

  /** Thread 1 pushes once, which moves the head; thread 0 loses its race and tries again. */
  lemma Race<T>(s0: Sys<T>, sched: seq<Move<T>>, n: nat, workers: nat, item: T, a: nat) returns (sched': seq<Move<T>>)
    requires WellFormed(s0.ring) && Racing(Run(s0, sched), n, workers, item, a)
    ensures
      var s' := Run(s0, sched');
      if a < MAX_EVICT_RETRIES then Racing(s', n, workers, item, a + 1) else Lost(s', n, workers)
  {
    hide Run, Solo, Next;
    var s, op := Run(s0, sched), Push(item, DropOldest);
    var k := OtherPushes(s, n, workers, item, a);
    var mid := Extend(s0, sched, 1, op, k);
    var k' := TriesAgain(Run(s0, mid), n, workers, item, a);
    sched' := Extend(s0, mid, 0, op, k');
  }

  /** Thread 0 begins a push on the full ring and gets as far as its first compare-and-swap. */
  lemma Enters<T>(s: Sys<T>, n: nat, item: T, e: Effect<T>, k: nat) returns (k': nat)
    requires WellFormed(s.ring) && 0 < |s.ring.threads|
    requires Stands(Solo(s, 0, Push(item, DropOldest), k), n, 0, Idle, e) && Stuck(e, n) && Ripe(e)
    ensures Stands(Solo(s, 0, Push(item, DropOldest), k'), n, 0, EvictCas(Call(item, DropOldest, 1), e.head),
                   e.(calls := e.calls + 1))
  {
    hide Stands, Next;
    var op := Push(item, DropOldest);
    Begins(Solo(s, 0, op, k), n, 0, op, e);
    k' := NextAttempt(s, n, op, Call(item, DropOldest, 0), e.(calls := e.calls + 1), k + 1);
  }

  lemma {:induction false} Races<T>(n: nat, data: seq<T>, workers: nat, item: T, a: nat) returns (sched: seq<Move<T>>)
    requires 2 <= n == |data| && 2 <= workers && 1 <= a <= MAX_EVICT_RETRIES
    ensures Racing(Run(Init(n, data, workers), sched), n, workers, item, a)
    decreases a
  {
    hide Run, Next;
    var s0 := Init(n, data, workers);
    if a == 1 {
      var fill := FillRing(n, data, workers, item, n);
      var s := Run(s0, fill);
      var k := Enters(s, n, item, EffectOf(s), 0);
      sched := Extend(s0, fill, 0, Push(item, DropOldest), k);
    } else {
      var before := Races(n, data, workers, item, a - 1);
      sched := Race(s0, before, n, workers, item, a - 1);
    }
  }

  /**
   For every capacity there is a run, ending with every thread idle, in which one DropOldest push
   is dropped while 128 pushes of another producer complete: each wins the race for the head and
   uses up one of the 128 attempts.
   */
  lemma DropsAfterLostRaces<T>(n: nat, data: seq<T>, workers: nat, item: T) returns (sched: seq<Move<T>>)
    requires 2 <= n == |data| && 2 <= workers
    ensures
      var s := Run(Init(n, data, workers), sched);
      Lost(s, n, workers)
  {
    var s0 := Init(n, data, workers);
    var before := Races(n, data, workers, item, MAX_EVICT_RETRIES);
    sched := Race(s0, before, n, workers, item, MAX_EVICT_RETRIES);
  }
}
