/**
 One call of the step system that runs while every other thread stands still, wherever that is:
 in the middle of a Marshal, between claim and publication, or idle. Its complete effect, from
 every reachable state, and so the exact conditions under which a push enqueues its item.
 */
module RingSolo {
  import opened RingSteps
  import opened RingInvariant
  import opened RingSafety

  /** k steps of thread t in a row. */
  function Solo<T>(s: Sys<T>, t: nat, op: Op<T>, k: nat): (s': Sys<T>)
    requires WellFormed(s.ring) && t < |s.ring.threads|
    ensures WellFormed(s'.ring) && |s'.ring.threads| == |s.ring.threads|
  {
    if k == 0 then s else Next(Solo(s, t, op, k - 1), t, op)
  }

  /** Everything observable about a state except the slots, which the invariant determines. */
  datatype Effect<T> = Effect(head: nat, tail: nat, evicted: nat, dropped: nat, calls: nat,
                              claims: seq<Claim<T>>, fates: seq<Fate>, out: seq<Read<T>>, threads: seq<Thread<T>>)

  function EffectOf<T>(s: Sys<T>): Effect<T> {
    Effect(s.ring.head, s.ring.tail, s.ring.evicted, s.ring.dropped, s.log.calls,
           s.log.claims, s.log.fates, s.log.out, s.ring.threads)
  }

  /** The state s shows the effect e with thread t at th. */
  ghost predicate Stands<T>(s: Sys<T>, n: nat, t: nat, th: Thread<T>, e: Effect<T>) {
    Inv(s) && s.ring.n == n && t < |e.threads| && EffectOf(s) == e.(threads := e.threads[t := th])
  }

  lemma StepStands<T>(s: Sys<T>, n: nat, t: nat, op: Op<T>, th: Thread<T>, e: Effect<T>)
    requires Stands(s, n, t, th, e)
    ensures
      var s' := Next(s, t, op);
      Stands(s', n, t, s'.ring.threads[t], EffectOf(s').(threads := e.threads))
  {
    StepKeeps(s, t, op);
    assert Next(s, t, op).ring.threads == s.ring.threads[t := Next(s, t, op).ring.threads[t]];
  }

  // ------------------------------------------------------------------------------------------
  // The single steps

  /** The slot at the tail still belongs to the position one lap earlier. */
  predicate Stuck<T>(e: Effect<T>, n: nat) {
    n <= e.tail && e.tail - n < |e.fates| && !Recycled(e.fates[e.tail - n])
  }

  /** The oldest queued position can be taken. */
  predicate Ripe<T>(e: Effect<T>) {
    e.head < |e.fates| && e.fates[e.head].Published?
  }

  lemma Loads<T>(s: Sys<T>, n: nat, t: nat, op: Op<T>, c: Call<T>, e: Effect<T>)
    requires Stands(s, n, t, PushLoadSeq(c, e.tail), e)
    ensures
      var c' := c.(attempts := c.attempts + 1);
      Stands(Next(s, t, op), n, t,
             if !Stuck(e, n) then PushCas(c, e.tail)
             else if c.policy.DropNewest? then PushFull(c)
             else if c'.attempts > MAX_EVICT_RETRIES then PushFull(c')
             else EvictLoadHead(c'), e)
  {
    LoadAtTail(s, e.tail);
    if n <= e.tail { assert PosOk(s, e.tail - n); }
    StepStands(s, n, t, op, PushLoadSeq(c, e.tail), e);
  }

  lemma Claims<T>(s: Sys<T>, n: nat, t: nat, op: Op<T>, c: Call<T>, e: Effect<T>)
    requires Stands(s, n, t, PushCas(c, e.tail), e)
    ensures Stands(Next(s, t, op), n, t, PushWrite(c, e.tail),
                   e.(tail := e.tail + 1, claims := e.claims + [Claim(t, c.item)], fates := e.fates + [Writing(t)]))
  {
    StepStands(s, n, t, op, PushCas(c, e.tail), e);
  }

  lemma Publishes<T>(s: Sys<T>, n: nat, t: nat, op: Op<T>, c: Call<T>, pos: nat, e: Effect<T>)
    requires Stands(s, n, t, PushStore(c, pos), e)
    ensures Stands(Next(s, t, op), n, t, Idle, e.(fates := SetAt(e.fates, pos, Published)))
  {
    StepStands(s, n, t, op, PushStore(c, pos), e);
  }

  lemma EvictLoads<T>(s: Sys<T>, n: nat, t: nat, op: Op<T>, c: Call<T>, e: Effect<T>)
    requires Stands(s, n, t, EvictLoadSeq(c, e.head), e)
    ensures Stands(Next(s, t, op), n, t, if Ripe(e) then EvictCas(c, e.head) else PushLoadTail(c), e)
  {
    HeadLoad(s);
    StepStands(s, n, t, op, EvictLoadSeq(c, e.head), e);
  }

  /** The slot at the head carries head + 1 exactly when the head is published, and less otherwise. */
  lemma HeadLoad<T>(s: Sys<T>)
    requires Inv(s)
    ensures Ripe(EffectOf(s)) ==> s.ring.seqs[s.ring.head % s.ring.n] == s.ring.head + 1
    ensures !Ripe(EffectOf(s)) ==> s.ring.seqs[s.ring.head % s.ring.n] < s.ring.head + 1
  {
    if s.ring.head < s.ring.tail {
      assert PosOk(s, s.ring.head) && SlotOk(s, s.ring.head);
    } else {
      LoadAtTail(s, s.ring.tail);
    }
  }

  /** The compare-and-swap of an eviction, won or lost. */
  lemma EvictTakes<T>(s: Sys<T>, n: nat, t: nat, op: Op<T>, c: Call<T>, pos: nat, e: Effect<T>)
    requires Stands(s, n, t, EvictCas(c, pos), e)
    ensures if pos == e.head
            then Stands(Next(s, t, op), n, t, EvictStore(c, pos), e.(head := pos + 1, fates := SetAt(e.fates, pos, Evicting(t))))
            else Stands(Next(s, t, op), n, t, PushLoadTail(c), e)
  {
    StepStands(s, n, t, op, EvictCas(c, pos), e);
  }

  lemma EvictStores<T>(s: Sys<T>, n: nat, t: nat, op: Op<T>, c: Call<T>, pos: nat, e: Effect<T>)
    requires Stands(s, n, t, EvictStore(c, pos), e)
    ensures Stands(Next(s, t, op), n, t, EvictCount(c, pos), e.(fates := SetAt(e.fates, pos, Uncounted(t))))
  {
    StepStands(s, n, t, op, EvictStore(c, pos), e);
  }

  lemma EvictCounts<T>(s: Sys<T>, n: nat, t: nat, op: Op<T>, c: Call<T>, pos: nat, e: Effect<T>)
    requires Stands(s, n, t, EvictCount(c, pos), e)
    ensures Stands(Next(s, t, op), n, t, PushLoadTail(c),
                   e.(evicted := e.evicted + 1, fates := SetAt(e.fates, pos, Evicted(t))))
  {
    StepStands(s, n, t, op, EvictCount(c, pos), e);
  }

  lemma PopLoads<T>(s: Sys<T>, n: nat, t: nat, op: Op<T>, e: Effect<T>)
    requires Stands(s, n, t, PopLoadSeq(e.head), e)
    ensures Stands(Next(s, t, op), n, t, if Ripe(e) then PopCas(e.head) else Idle, e)
  {
    HeadLoad(s);
    StepStands(s, n, t, op, PopLoadSeq(e.head), e);
  }

  lemma PopTakes<T>(s: Sys<T>, n: nat, t: nat, op: Op<T>, e: Effect<T>)
    requires Stands(s, n, t, PopCas(e.head), e)
    ensures Stands(Next(s, t, op), n, t, PopRead(e.head), e.(head := e.head + 1, fates := SetAt(e.fates, e.head, Reading(t))))
  {
    StepStands(s, n, t, op, PopCas(e.head), e);
  }

  lemma PopReads<T>(s: Sys<T>, n: nat, t: nat, op: Op<T>, pos: nat, e: Effect<T>)
    requires Stands(s, n, t, PopRead(pos), e)
    ensures pos < |e.claims|
    ensures
      var item := e.claims[pos].item;
      Stands(Next(s, t, op), n, t, PopStore(pos, item), e.(out := e.out + [Read(t, pos, item)]))
  {
    assert ThreadOk(s, t) && PosOk(s, pos);
    StepStands(s, n, t, op, PopRead(pos), e);
  }

  lemma PopStores<T>(s: Sys<T>, n: nat, t: nat, op: Op<T>, pos: nat, item: T, e: Effect<T>)
    requires Stands(s, n, t, PopStore(pos, item), e)
    ensures Stands(Next(s, t, op), n, t, Idle, e.(fates := SetAt(e.fates, pos, Consumed(t))))
  {
    StepStands(s, n, t, op, PopStore(pos, item), e);
  }

  lemma Begins<T>(s: Sys<T>, n: nat, t: nat, op: Op<T>, e: Effect<T>)
    requires Stands(s, n, t, Idle, e)
    ensures Stands(Next(s, t, op), n, t, Begin(op), if op.Push? then e.(calls := e.calls + 1) else e)
  {
    StepStands(s, n, t, op, Idle, e);
  }

  /** The steps that only move the thread on, and the drop. */
  lemma PlainStep<T>(s: Sys<T>, n: nat, t: nat, op: Op<T>, th: Thread<T>, e: Effect<T>)
    requires Stands(s, n, t, th, e) && th != Idle
    ensures
      var s' := Next(s, t, op);
      match th
      case PushLoadTail(c) => Stands(s', n, t, PushLoadSeq(c, e.tail), e)
      case PushWrite(c, pos) => Stands(s', n, t, PushStore(c, pos), e)
      case PushFull(c) => Stands(s', n, t, Idle, e.(dropped := e.dropped + 1))
      case EvictLoadHead(c) => Stands(s', n, t, EvictLoadSeq(c, e.head), e)
      case PopLoadHead => Stands(s', n, t, PopLoadSeq(e.head), e)
      case _ => true
  {
    StepStands(s, n, t, op, th, e);
  }

  // ------------------------------------------------------------------------------------------
  // Effects of whole calls

  function Enqueued<T>(e: Effect<T>, x: Claim<T>): Effect<T> {
    e.(tail := e.tail + 1, claims := e.claims + [x], fates := e.fates + [Published])
  }

  function Dropped<T>(e: Effect<T>): Effect<T> {
    e.(dropped := e.dropped + 1)
  }

  function EvictedOne<T>(e: Effect<T>, t: nat): Effect<T> {
    e.(head := e.head + 1, evicted := e.evicted + 1, fates := SetAt(e.fates, e.head, RingSteps.Evicted(t)))
  }

  function EvictedMany<T>(e: Effect<T>, t: nat, m: nat): Effect<T>
    decreases m
  {
    if m == 0 then e else EvictedMany(EvictedOne(e, t), t, m - 1)
  }

  /** How many positions from h on are published without a gap. */
  function RipeRun(fates: seq<Fate>, h: nat): nat
    decreases |fates| - h
  {
    if h < |fates| && fates[h].Published? then 1 + RipeRun(fates, h + 1) else 0
  }

  function Min(a: nat, b: nat): nat {
    if a <= b then a else b
  }

  /** Stuck on a position that no eviction can free: it is not the head, or the head is unpublished. */
  predicate Losing<T>(e: Effect<T>, n: nat) {
    Stuck(e, n) && !(e.head == e.tail - n && Ripe(e))
  }

  /** What a push does, run alone. */
  function Pushed<T>(e: Effect<T>, n: nat, x: Claim<T>, policy: Policy): Effect<T> {
    var e1 := e.(calls := e.calls + 1);
    if !Stuck(e, n) then Enqueued(e1, x)
    else if policy.DropNewest? then Dropped(e1)
    else if !Losing(e, n) then Enqueued(EvictedOne(e1, x.who), x)
    else Dropped(EvictedMany(e1, x.who, Min(MAX_EVICT_RETRIES, RipeRun(e.fates, e.head))))
  }

  /** What a pop does, run alone. */
  function Popped<T>(e: Effect<T>, t: nat): Effect<T>
    requires e.tail <= |e.claims|
  {
    if Ripe(e) && e.head < e.tail then
      e.(head := e.head + 1, out := e.out + [Read(t, e.head, e.claims[e.head].item)],
         fates := SetAt(e.fates, e.head, Consumed(t)))
    else e
  }

  // ------------------------------------------------------------------------------------------
  // Whole calls

  /** From a free slot at the tail to the return: load, load, claim, write, publish. */
  lemma FinishPush<T>(s: Sys<T>, n: nat, t: nat, op: Op<T>, c: Call<T>, e: Effect<T>, k: nat)
    requires WellFormed(s.ring) && t < |s.ring.threads| && |e.fates| == e.tail
    requires Stands(Solo(s, t, op, k), n, t, PushLoadTail(c), e) && !Stuck(e, n)
    ensures Stands(Solo(s, t, op, k + 5), n, t, Idle, Enqueued(e, Claim(t, c.item)))
  {
    hide Stands, Next;
    var e' := e.(tail := e.tail + 1, claims := e.claims + [Claim(t, c.item)], fates := e.fates + [Writing(t)]);
    PlainStep(Solo(s, t, op, k), n, t, op, PushLoadTail(c), e);
    Loads(Solo(s, t, op, k + 1), n, t, op, c, e);
    Claims(Solo(s, t, op, k + 2), n, t, op, c, e);
    PlainStep(Solo(s, t, op, k + 3), n, t, op, PushWrite(c, e.tail), e');
    Publishes(Solo(s, t, op, k + 4), n, t, op, c, e.tail, e');
    assert SetAt(e'.fates, e.tail, Published) == e.fates + [Published];
  }

  /** From the head load of an eviction back to the loop: the ripe head is taken, or nothing happens. */
  lemma EvictOne<T>(s: Sys<T>, n: nat, t: nat, op: Op<T>, c: Call<T>, e: Effect<T>, k: nat) returns (k': nat)
    requires WellFormed(s.ring) && t < |s.ring.threads|
    requires Stands(Solo(s, t, op, k), n, t, EvictLoadHead(c), e)
    ensures k < k' <= k + 5
    ensures Stands(Solo(s, t, op, k'), n, t, PushLoadTail(c), if Ripe(e) then EvictedOne(e, t) else e)
  {
    hide Stands, Next;
    PlainStep(Solo(s, t, op, k), n, t, op, EvictLoadHead(c), e);
    EvictLoads(Solo(s, t, op, k + 1), n, t, op, c, e);
    k' := k + 2;
    if Ripe(e) {
      EvictTaken(s, n, t, op, c, e, k + 2);
      k' := k + 5;
    }
  }

  lemma EvictTaken<T>(s: Sys<T>, n: nat, t: nat, op: Op<T>, c: Call<T>, e: Effect<T>, k: nat)
    requires WellFormed(s.ring) && t < |s.ring.threads| && e.head < |e.fates|
    requires Stands(Solo(s, t, op, k), n, t, EvictCas(c, e.head), e)
    ensures Stands(Solo(s, t, op, k + 3), n, t, PushLoadTail(c), EvictedOne(e, t))
  {
    hide Stands, Next;
    var e1 := e.(head := e.head + 1, fates := SetAt(e.fates, e.head, Evicting(t)));
    var e2 := e1.(fates := SetAt(e1.fates, e.head, Uncounted(t)));
    EvictTakes(Solo(s, t, op, k), n, t, op, c, e.head, e);
    EvictStores(Solo(s, t, op, k + 1), n, t, op, c, e.head, e1);
    EvictCounts(Solo(s, t, op, k + 2), n, t, op, c, e.head, e2);
    assert SetAt(e2.fates, e.head, RingSteps.Evicted(t)) == SetAt(e.fates, e.head, RingSteps.Evicted(t));
  }

  /** An eviction elsewhere does not shorten what is ripe behind it. */
  lemma {:induction false} RipeBehind(fates: seq<Fate>, i: nat, f: Fate, h: nat)
    requires i < h
    ensures RipeRun(SetAt(fates, i, f), h) == RipeRun(fates, h)
    decreases |fates| - h
  {
    if h < |fates| { RipeBehind(fates, i, f, h + 1); }
  }

  /** A losing push evicts whatever is ripe, up to its 128 attempts, and then drops its item. */
  lemma {:induction false} GivesUp<T>(s: Sys<T>, n: nat, t: nat, op: Op<T>, c: Call<T>, e: Effect<T>, k: nat) returns (k': nat)
    requires WellFormed(s.ring) && t < |s.ring.threads| && e.tail - n <= e.head
    requires Stands(Solo(s, t, op, k), n, t, PushLoadTail(c), e) && Losing(e, n)
    requires c.policy.DropOldest? && c.attempts <= MAX_EVICT_RETRIES
    ensures k <= k' <= k + 7 * (MAX_EVICT_RETRIES - c.attempts) + 3
    ensures Stands(Solo(s, t, op, k'), n, t, Idle,
                   Dropped(EvictedMany(e, t, Min(MAX_EVICT_RETRIES - c.attempts, RipeRun(e.fates, e.head)))))
    decreases MAX_EVICT_RETRIES - c.attempts
  {
    hide Stands, Next, Solo;
    var c' := c.(attempts := c.attempts + 1);
    var k2 := TwoLoads(s, n, t, op, c, e, k);
    if c'.attempts > MAX_EVICT_RETRIES {
      k' := LastDrop(s, n, t, op, c', e, k2);
    } else {
      var k3 := EvictOne(s, n, t, op, c', e, k2);
      if Ripe(e) { RipeBehind(e.fates, e.head, RingSteps.Evicted(t), e.head + 1); }
      k' := GivesUp(s, n, t, op, c', if Ripe(e) then EvictedOne(e, t) else e, k3);
    }
  }

  /** The tail load and the sequence-number load of a stuck push. */
  lemma TwoLoads<T>(s: Sys<T>, n: nat, t: nat, op: Op<T>, c: Call<T>, e: Effect<T>, k: nat) returns (k': nat)
    requires WellFormed(s.ring) && t < |s.ring.threads|
    requires Stands(Solo(s, t, op, k), n, t, PushLoadTail(c), e) && Stuck(e, n)
    ensures k' == k + 2
    ensures
      var c' := c.(attempts := c.attempts + 1);
      Stands(Solo(s, t, op, k'), n, t,
             if c.policy.DropNewest? then PushFull(c)
             else if c'.attempts > MAX_EVICT_RETRIES then PushFull(c')
             else EvictLoadHead(c'), e)
  {
    hide Stands, Next;
    PlainStep(Solo(s, t, op, k), n, t, op, PushLoadTail(c), e);
    Loads(Solo(s, t, op, k + 1), n, t, op, c, e);
    k' := k + 2;
  }

  lemma LastDrop<T>(s: Sys<T>, n: nat, t: nat, op: Op<T>, c: Call<T>, e: Effect<T>, k: nat) returns (k': nat)
    requires WellFormed(s.ring) && t < |s.ring.threads|
    requires Stands(Solo(s, t, op, k), n, t, PushFull(c), e)
    ensures k' == k + 1 && Stands(Solo(s, t, op, k'), n, t, Idle, Dropped(e))
  {
    hide Stands, Next;
    PlainStep(Solo(s, t, op, k), n, t, op, PushFull(c), e);
    k' := k + 1;
  }

  lemma PushFrom<T>(s: Sys<T>, n: nat, t: nat, item: T, policy: Policy, e: Effect<T>, k: nat) returns (k': nat)
    requires WellFormed(s.ring) && t < |s.ring.threads| && e.tail - n <= e.head && |e.fates| == e.tail
    requires Stands(Solo(s, t, Push(item, policy), k), n, t, Idle, e)
    ensures k <= k' <= k + 900
    ensures Stands(Solo(s, t, Push(item, policy), k'), n, t, Idle, Pushed(e, n, Claim(t, item), policy))
  {
    hide Stands, Next, EvictedMany, RipeRun;
    var op, c, e1 := Push(item, policy), Call(item, policy, 0), e.(calls := e.calls + 1);
    Begins(Solo(s, t, op, k), n, t, op, e);
    if !Stuck(e, n) {
      FinishPush(s, n, t, op, c, e1, k + 1);
      k' := k + 6;
    } else if policy.DropOldest? && Losing(e, n) {
      k' := GivesUp(s, n, t, op, c, e1, k + 1);
    } else {
      k' := TwoLoads(s, n, t, op, c, e1, k + 1);
      if policy.DropNewest? {
        k' := LastDrop(s, n, t, op, c, e1, k');
      } else {
        k' := EvictOne(s, n, t, op, c.(attempts := 1), e1, k');
        FinishPush(s, n, t, op, c.(attempts := 1), EvictedOne(e1, t), k');
        k' := k' + 5;
      }
    }
  }

  lemma PopFrom<T>(s: Sys<T>, n: nat, t: nat, e: Effect<T>, k: nat) returns (k': nat)
    requires WellFormed(s.ring) && t < |s.ring.threads| && e.tail == |e.claims| == |e.fates|
    requires Stands(Solo(s, t, Pop, k), n, t, Idle, e)
    ensures k <= k' <= k + 6 && Stands(Solo(s, t, Pop, k'), n, t, Idle, Popped(e, t))
  {
    hide Stands, Next;
    var op := Op<T>.Pop;
    Begins(Solo(s, t, op, k), n, t, op, e);
    PlainStep(Solo(s, t, op, k + 1), n, t, op, PopLoadHead, e);
    PopLoads(Solo(s, t, op, k + 2), n, t, op, e);
    k' := k + 3;
    if Ripe(e) {
      PopTaken(s, n, t, e, k + 3);
      k' := k + 6;
    }
  }

  lemma PopTaken<T>(s: Sys<T>, n: nat, t: nat, e: Effect<T>, k: nat)
    requires WellFormed(s.ring) && t < |s.ring.threads| && Ripe(e) && e.tail == |e.claims| == |e.fates|
    requires Stands(Solo(s, t, Pop, k), n, t, PopCas(e.head), e)
    ensures Stands(Solo(s, t, Pop, k + 3), n, t, Idle, Popped(e, t))
  {
    hide Stands, Next;
    var op, item := Op<T>.Pop, e.claims[e.head].item;
    var e1 := e.(head := e.head + 1, fates := SetAt(e.fates, e.head, Reading(t)));
    var e2 := e1.(out := e.out + [Read(t, e.head, item)]);
    PopTakes(Solo(s, t, op, k), n, t, op, e);
    PopReads(Solo(s, t, op, k + 1), n, t, op, e.head, e1);
    PopStores(Solo(s, t, op, k + 2), n, t, op, e.head, item, e2);
    assert SetAt(e2.fates, e.head, Consumed(t)) == SetAt(e.fates, e.head, Consumed(t));
  }

  /**
   A push that runs while the others stand still, wherever they are: it returns within 900 steps
   and its complete effect is `Pushed`.
   */
  lemma SoloPush<T>(s: Sys<T>, t: nat, item: T, policy: Policy) returns (k: nat)
    requires Inv(s) && t < |s.ring.threads| && s.ring.threads[t] == Idle
    ensures k <= 900
    ensures
      var s' := Solo(s, t, Push(item, policy), k);
      Inv(s') && s'.ring.n == s.ring.n && EffectOf(s') == Pushed(EffectOf(s), s.ring.n, Claim(t, item), policy)
  {
    hide Next, Pushed;
    k := PushFrom(s, s.ring.n, t, item, policy, EffectOf(s), 0);
    PushedThreads(EffectOf(s), s.ring.n, Claim(t, item), policy);
  }

  /** A pop under the same condition takes the oldest item if and only if it is published. */
  lemma SoloPop<T>(s: Sys<T>, t: nat) returns (k: nat)
    requires Inv(s) && t < |s.ring.threads| && s.ring.threads[t] == Idle
    ensures k <= 6
    ensures
      var s' := Solo(s, t, Pop, k);
      Inv(s') && s'.ring.n == s.ring.n && EffectOf(s') == Popped(EffectOf(s), t)
  {
    hide Next;
    k := PopFrom(s, s.ring.n, t, EffectOf(s), 0);
  }

  // ------------------------------------------------------------------------------------------
  // What the effect of a push amounts to

  lemma {:induction false} EvictedManyIs<T>(e: Effect<T>, t: nat, m: nat)
    ensures EvictedMany(e, t, m) ==
            e.(head := e.head + m, evicted := e.evicted + m, fates := EvictedMany(e, t, m).fates)
    ensures |EvictedMany(e, t, m).fates| == |e.fates|
    decreases m
  {
    if m > 0 { EvictedManyIs(EvictedOne(e, t), t, m - 1); }
  }

  lemma PushedThreads<T>(e: Effect<T>, n: nat, x: Claim<T>, policy: Policy)
    ensures Pushed(e, n, x, policy).threads == e.threads
  {
    EvictedManyIs(e.(calls := e.calls + 1), x.who, Min(MAX_EVICT_RETRIES, RipeRun(e.fates, e.head)));
  }

  lemma {:induction false} RipeRunFits(fates: seq<Fate>, h: nat)
    requires h <= |fates|
    ensures h + RipeRun(fates, h) <= |fates|
    ensures forall p | h <= p < h + RipeRun(fates, h) :: fates[p].Published?
    ensures h + RipeRun(fates, h) < |fates| ==> !fates[h + RipeRun(fates, h)].Published?
    decreases |fates| - h
  {
    if h < |fates| && fates[h].Published? { RipeRunFits(fates, h + 1); }
  }

  /**
   When a push run alone enqueues its item, and at what price. DropNewest enqueues if and only if
   the position one lap before the tail is recycled. DropOldest also enqueues if that position is
   the head and published, at the price of that one item. In every other case DropOldest drops its
   own item and loses the published items at the head as well, up to 128 of them.
   */
  lemma PushOutcome<T>(s: Sys<T>, t: nat, item: T, policy: Policy)
    requires Inv(s)
    ensures
      var n, head, tail := s.ring.n, s.ring.head, s.ring.tail;
      var e := Pushed(EffectOf(s), n, Claim(t, item), policy);
      var free := !Occupied(s, tail - n);
      var oldest := head == tail - n && s.log.fates[head].Published?;
      var enqueues := free || (policy.DropOldest? && oldest);
      && e.calls == s.log.calls + 1 && e.threads == s.ring.threads && e.out == s.log.out
      && e.tail == tail + (if enqueues then 1 else 0)
      && e.dropped == s.ring.dropped + (if enqueues then 0 else 1)
      && e.claims == s.log.claims + (if enqueues then [Claim(t, item)] else [])
      && e.head - head == e.evicted - s.ring.evicted ==
         (if free || policy.DropNewest? then 0 else if oldest then 1 else Min(128, RipeRun(s.log.fates, head)))
  {
    hide RipeRun;
    EvictedManyIs(EffectOf(s).(calls := s.log.calls + 1), t, Min(MAX_EVICT_RETRIES, RipeRun(s.log.fates, s.ring.head)));
  }
}
