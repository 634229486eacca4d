/**
 Lock-free progress and accounting of the ring: how long a call can loop, how the counters add
 up when no call is in flight, and what QueueDepth reports.
 */
module RingProgress {
  import opened RingSteps
  import opened RingInvariant
  import opened RingSafety

  // ------------------------------------------------------------------------------------------
  // Retry bounds

  /** The claims from `start` to `end`, the tail advances of that stretch, are not thread t's. */
  ghost predicate OthersClaimed<T>(claims: seq<Claim<T>>, t: nat, start: nat, end: nat) {
    start <= end <= |claims| && forall p: nat | start <= p < end :: claims[p].who != t
  }

  /** The head advances from `start` to `end` are not thread t's. */
  ghost predicate OthersTook(fates: seq<Fate>, t: nat, start: nat, end: nat) {
    start <= end <= |fates| && forall p: nat | start <= p < end :: Taken(fates[p]) && fates[p].who != t
  }

  /** A push call that has claimed no position yet. */
  predicate Undecided<T>(th: Thread<T>) {
    || th.PushLoadTail? || th.PushLoadSeq? || th.PushCas? || th.PushFull? || th.EvictLoadHead?
    || th.EvictLoadSeq? || th.EvictCas? || th.EvictStore? || th.EvictCount?
  }

  predicate Popping<T>(th: Thread<T>) {
    th.PopLoadHead? || th.PopLoadSeq? || th.PopCas? || th.PopRead? || th.PopStore?
  }

  /** The rounds that the thread's own eviction attempts and its current round account for. */
  function Budget<T>(th: Thread<T>): nat
    requires Undecided(th)
  {
    if th.PushFull? then 1 + MAX_EVICT_RETRIES
    else if th.PushLoadSeq? || th.PushCas? then 1 + th.call.attempts
    else th.call.attempts
  }

  /** Evictions done so far, against the attempts made. */
  predicate EvictionsOk<T>(th: Thread<T>, evictions: nat)
    requires Undecided(th)
  {
    if th.PushFull? then evictions <= MAX_EVICT_RETRIES
    else if th.EvictLoadHead? || th.EvictLoadSeq? || th.EvictCas? then
      evictions < th.call.attempts <= MAX_EVICT_RETRIES
    else evictions <= th.call.attempts <= MAX_EVICT_RETRIES
  }

  ghost predicate PushMark<T>(th: Thread<T>, m: Mark, t: nat, tail: nat, claims: seq<Claim<T>>)
    requires Undecided(th)
  {
    var at := if th.PushLoadSeq? || th.PushCas? then th.pos else tail;
    && OthersClaimed(claims, t, m.start, tail) && m.start <= at <= tail
    && m.rounds <= Budget(th) + (at - m.start) && EvictionsOk(th, m.evictions)
    && th.call.attempts + (if th.PushLoadSeq? || th.PushCas? then 1 else 0) <= m.rounds
    && (th.PushFull? && th.call.policy.DropOldest? ==> th.call.attempts == 1 + MAX_EVICT_RETRIES)
  }

  ghost predicate PopMark<T>(th: Thread<T>, m: Mark, t: nat, head: nat, fates: seq<Fate>)
    requires th.PopLoadHead? || th.PopLoadSeq? || th.PopCas?
  {
    var at := if th.PopLoadHead? then head else th.pos;
    && OthersTook(fates, t, m.start, head) && m.start <= at <= head
    && m.rounds <= (if th.PopLoadHead? then 0 else 1) + (at - m.start)
  }

  ghost predicate MarkOf<T>(th: Thread<T>, m: Mark, t: nat, n: nat, head: nat, tail: nat,
                            claims: seq<Claim<T>>, fates: seq<Fate>) {
    if Undecided(th) then PushMark(th, m, t, tail, claims)
    else if th.PushWrite? || th.PushStore? then
      && OthersClaimed(claims, t, m.start, th.pos) && m.evictions <= MAX_EVICT_RETRIES
      && m.rounds <= 1 + MAX_EVICT_RETRIES + (th.pos - m.start)
    else if th.PopLoadHead? || th.PopLoadSeq? || th.PopCas? then PopMark(th, m, t, head, fates)
    else if th.PopRead? || th.PopStore? then
      OthersTook(fates, t, m.start, th.pos) && m.rounds <= 1 + (th.pos - m.start)
    else if th.DepthLoadHead? then th.seen == m.start + m.head && m.head <= head && m.start <= n
    else if th.DepthReport? then th.seen == m.start + m.head && m.head <= th.at && m.start <= n
    else true
  }

  ghost predicate MarkOk<T>(s: Sys<T>, t: nat)
    requires Shape(s)
  {
    t < |s.ring.threads| ==>
      MarkOf(s.ring.threads[t], s.log.marks[t], t, s.ring.n, s.ring.head, s.ring.tail, s.log.claims, s.log.fates)
  }

  ghost predicate MarkInv<T>(s: Sys<T>)
    requires Shape(s)
  {
    forall t: nat :: MarkOk(s, t)
  }

  /** The bound of thread u survives claims and takings by others. */
  lemma MarkMonotone<T>(th: Thread<T>, m: Mark, u: nat, n: nat, head: nat, tail: nat,
                        claims: seq<Claim<T>>, fates: seq<Fate>, head': nat, tail': nat,
                        claims': seq<Claim<T>>, fates': seq<Fate>)
    requires MarkOf(th, m, u, n, head, tail, claims, fates)
    requires |claims| == tail && |claims'| == tail' && |fates| <= |fates'| && tail <= tail' && head <= head'
    requires claims <= claims' && OthersClaimed(claims', u, tail, tail')
    requires forall p: nat | p < |fates| && Taken(fates[p]) :: Taken(fates'[p]) && fates'[p].who == fates[p].who
    requires OthersTook(fates', u, head, head')
    ensures MarkOf(th, m, u, n, head', tail', claims', fates')
  {
  }

  lemma MarkOthers<T>(s: Sys<T>, t: nat, op: Op<T>, u: nat)
    requires Inv(s) && t < |s.ring.threads| && u < |s.ring.threads| && u != t && MarkOk(s, u)
    requires Inv(Next(s, t, op))
    ensures MarkOk(Next(s, t, op), u)
  {
    var s' := Next(s, t, op);
    LifeCycle(s, t, op);
    CursorStep(s, t, op);
    assert PosOk(s, s.ring.head);
    assert PosOk(s', s.ring.head);
    RemarkOnlyMover(s, t, op);
    MarkMonotone(s.ring.threads[u], s.log.marks[u], u, s.ring.n, s.ring.head, s.ring.tail,
                 s.log.claims, s.log.fates, s'.ring.head, s'.ring.tail, s'.log.claims, s'.log.fates);
  }

  lemma RemarkOnlyMover<T>(s: Sys<T>, t: nat, op: Op<T>)
    requires Shape(s) && t < |s.ring.threads|
    ensures
      var marks' := Next(s, t, op).log.marks;
      |marks'| == |s.log.marks| && forall u: nat | u < |marks'| && u != t :: marks'[u] == s.log.marks[u]
  {
  }

  /** A retry of a push was caused by an advance of the tail after the load. */
  lemma MarkPusher<T>(s: Sys<T>, t: nat, op: Op<T>)
    requires Shape(s) && t < |s.ring.threads| && ThreadOk(s, t) && MarkOk(s, t)
    requires Undecided(s.ring.threads[t]) && Shape(Next(s, t, op))
    requires s.ring.threads[t].PushLoadSeq? && s.ring.seqs[s.ring.threads[t].pos % s.ring.n] > s.ring.threads[t].pos
             ==> s.ring.threads[t].pos < s.ring.tail
    ensures MarkOk(Next(s, t, op), t)
  {
    var th := s.ring.threads[t];
    if th.EvictLoadHead? || th.EvictLoadSeq? || th.EvictCas? || th.EvictStore? || th.EvictCount? {
      MarkEvictor(s, t, op);
    }
  }

  lemma MarkEvictor<T>(s: Sys<T>, t: nat, op: Op<T>)
    requires Shape(s) && t < |s.ring.threads| && ThreadOk(s, t) && MarkOk(s, t) && Shape(Next(s, t, op))
    requires var th := s.ring.threads[t];
             th.EvictLoadHead? || th.EvictLoadSeq? || th.EvictCas? || th.EvictStore? || th.EvictCount?
    ensures MarkOk(Next(s, t, op), t)
  {
  }

  /** A retry of a pop was caused by an advance of the head after the load. */
  lemma MarkPopper<T>(s: Sys<T>, t: nat, op: Op<T>)
    requires Shape(s) && t < |s.ring.threads| && ThreadOk(s, t) && MarkOk(s, t)
    requires Popping(s.ring.threads[t]) && Shape(Next(s, t, op))
    requires s.ring.threads[t].PopLoadSeq? && s.ring.seqs[s.ring.threads[t].pos % s.ring.n] > s.ring.threads[t].pos + 1
             ==> s.ring.threads[t].pos < s.ring.head
    ensures MarkOk(Next(s, t, op), t)
  {
  }

  lemma MarkRest<T>(s: Sys<T>, t: nat, op: Op<T>)
    requires Shape(s) && t < |s.ring.threads| && MarkOk(s, t)
    requires !Undecided(s.ring.threads[t]) && !Popping(s.ring.threads[t]) && Shape(Next(s, t, op))
    ensures MarkOk(Next(s, t, op), t)
  {
    if s.ring.threads[t].Idle? { MarkIdle(s, t, op); }
  }

  lemma MarkIdle<T>(s: Sys<T>, t: nat, op: Op<T>)
    requires Shape(s) && t < |s.ring.threads| && s.ring.threads[t].Idle? && Shape(Next(s, t, op))
    ensures MarkOk(Next(s, t, op), t)
  {
  }

  lemma MarkStep<T>(s: Sys<T>, t: nat, op: Op<T>)
    requires Inv(s) && MarkInv(s) && t < |s.ring.threads|
    ensures Inv(Next(s, t, op)) && MarkInv(Next(s, t, op))
  {
    StepKeeps(s, t, op);
    forall u: nat ensures MarkOk(Next(s, t, op), u) {
      assert MarkOk(s, u);
      if u != t {
        if u < |s.ring.threads| { MarkOthers(s, t, op, u); }
      } else if Undecided(s.ring.threads[t]) {
        assert ThreadOk(s, t);
        if s.ring.threads[t].PushLoadSeq? { PushRefusedIff(s, t); }
        MarkPusher(s, t, op);
      } else if !Popping(s.ring.threads[t]) {
        MarkRest(s, t, op);
      } else {
        assert ThreadOk(s, t);
        if s.ring.threads[t].PopLoadSeq? { PopRefusedIff(s, t); }
        MarkPopper(s, t, op);
      }
    }
  }

  lemma {:induction false} RunMarks<T>(s: Sys<T>, sched: seq<Move<T>>)
    requires Inv(s) && MarkInv(s)
    ensures Inv(Run(s, sched)) && MarkInv(Run(s, sched))
    decreases |sched|
  {
    if sched != [] {
      var m := sched[0];
      if m.who < |s.ring.threads| {
        MarkStep(s, m.who, m.op);
        RunMarks(Next(s, m.who, m.op), sched[1..]);
      } else {
        RunMarks(s, sched[1..]);
      }
    }
  }

  lemma InitMarks<T>(n: nat, data: seq<T>, workers: nat)
    requires 2 <= n == |data|
    ensures Inv(Init(n, data, workers)) && MarkInv(Init(n, data, workers))
  {
    InitHolds(n, data, workers);
  }

  /**
   A push loops at most 129 times plus once for every tail advance by another thread since it
   began, and evicts at most 128 items; a pop loops once plus once for every head advance by
   another thread since it began. A round takes a bounded number of steps. A DropOldest push is
   refused only after 129 attempts.
   */
  lemma CallsAreBounded<T>(n: nat, data: seq<T>, workers: nat, sched: seq<Move<T>>, t: nat)
    requires 2 <= n == |data| && t < workers
    ensures
      var s := Run(Init(n, data, workers), sched);
      && |s.ring.threads| == workers == |s.log.marks|
      && var th, m := s.ring.threads[t], s.log.marks[t];
      && (Undecided(th) ==>
            && OthersClaimed(s.log.claims, t, m.start, s.ring.tail)
            && m.rounds <= 129 + (s.ring.tail - m.start) && m.evictions <= 128)
      && (th.PushFull? && th.call.policy.DropOldest? ==> th.call.attempts == 129 <= m.rounds)
      && (th.PushWrite? || th.PushStore? ==>
            && OthersClaimed(s.log.claims, t, m.start, th.pos)
            && m.rounds <= 129 + (th.pos - m.start) && m.evictions <= 128)
      && (th.PopLoadHead? || th.PopLoadSeq? || th.PopCas? ==>
            && OthersTook(s.log.fates, t, m.start, s.ring.head)
            && m.rounds <= 1 + (s.ring.head - m.start))
      && (th.PopRead? || th.PopStore? ==>
            OthersTook(s.log.fates, t, m.start, th.pos) && m.rounds <= 1 + (th.pos - m.start))
      && var steps := StepsIn(Init(n, data, workers), sched, t, 0);
      && (Undecided(th) || th.PushWrite? || th.PushStore? ==> steps <= 7 * m.rounds)
      && (Popping(th) ==> steps <= 3 * m.rounds + 1)
  {
    InitHolds(n, data, workers);
    RunSteps(Init(n, data, workers), sched, t, 0);
    InitMarks(n, data, workers);
    RunMarks(Init(n, data, workers), sched);
    RunFrame(Init(n, data, workers), sched);
    assert MarkOk(Run(Init(n, data, workers), sched), t);
  }

  /** What a QueueDepth call computes at its second load, against the depth at either load. */
  lemma DepthAtLoads<T>(s: Sys<T>, t: nat, op: Op<T>)
    requires Inv(s) && MarkInv(s) && t < |s.ring.threads| && s.ring.threads[t].DepthLoadHead?
    ensures
      var m, th' := s.log.marks[t], Next(s, t, op).ring.threads[t];
      && th'.DepthReport? && m.head <= s.ring.head
      && DepthOf(th'.seen, th'.at) == DepthOf(m.start, s.ring.head - m.head)
      && DepthOf(th'.seen, th'.at) <= |Queue(s)| <= s.ring.n
  {
    assert ThreadOk(s, t) && MarkOk(s, t);
  }

  /** The mark of a QueueDepth call is the depth, and the head, at its first load. */
  lemma DepthMark<T>(s: Sys<T>, t: nat, op: Op<T>)
    requires Inv(s) && t < |s.ring.threads| && s.ring.threads[t].DepthLoadTail?
    ensures
      var m := Next(s, t, op).log.marks[t];
      m.start == |Queue(s)| && m.head == s.ring.head
  {
  }

  /**
   What QueueDepth returns, in every interleaving: the depth at its first load minus the head
   advances between its two loads, or zero if those are more. So it is the depth when the head does
   not move, and never more than the depth at either load or the capacity.
   */
  lemma DepthIsExact<T>(n: nat, data: seq<T>, workers: nat, sched: seq<Move<T>>, t: nat, op: Op<T>)
    requires 2 <= n == |data| && t < workers
    ensures
      var s := Run(Init(n, data, workers), sched);
      && WellFormed(s.ring) && s.ring.n == n && s.ring.head <= s.ring.tail == |s.log.claims|
      && |s.ring.threads| == workers == |s.log.marks|
      && (s.ring.threads[t].DepthLoadTail? ==>
            var m := Next(s, t, op).log.marks[t];
            m.start == |Queue(s)| && m.head == s.ring.head)
      && (s.ring.threads[t].DepthLoadHead? ==>
            var m, th' := s.log.marks[t], Next(s, t, op).ring.threads[t];
            && th'.DepthReport? && m.head <= s.ring.head
            && DepthOf(th'.seen, th'.at) == (if s.ring.head - m.head <= m.start then m.start - (s.ring.head - m.head) else 0)
            && DepthOf(th'.seen, th'.at) <= |Queue(s)| <= n)
  {
    InitMarks(n, data, workers);
    RunMarks(Init(n, data, workers), sched);
    RunFrame(Init(n, data, workers), sched);
    var s := Run(Init(n, data, workers), sched);
    if s.ring.threads[t].DepthLoadTail? { DepthMark(s, t, op); }
    if s.ring.threads[t].DepthLoadHead? { DepthAtLoads(s, t, op); }
  }

  /** Steps of the others leave a thread where it stands, and the head only advances. */
  lemma {:induction false} OthersRun<T>(s: Sys<T>, sched: seq<Move<T>>, t: nat)
    requires Inv(s) && t < |s.ring.threads| && forall i | 0 <= i < |sched| :: sched[i].who != t
    ensures
      var s' := Run(s, sched);
      && Inv(s') && |s'.ring.threads| == |s.ring.threads| && s'.ring.threads[t] == s.ring.threads[t]
      && s.ring.head <= s'.ring.head
    decreases |sched|
  {
    if sched != [] {
      var m := sched[0];
      if m.who < |s.ring.threads| {
        StepKeeps(s, m.who, m.op);
        CursorStep(s, m.who, m.op);
        OthersRun(Next(s, m.who, m.op), sched[1..], t);
      } else {
        OthersRun(s, sched[1..], t);
      }
    }
  }

  /**
   One QueueDepth call, with anything at all happening between its two loads: it returns the depth
   at the first load minus the head advances since, or zero if those are more; so exactly the depth
   when the head has not moved.
   */
  lemma DepthCall<T>(s: Sys<T>, t: nat, op: Op<T>, sched: seq<Move<T>>)
    requires Inv(s) && t < |s.ring.threads| && s.ring.threads[t].DepthLoadTail?
    requires forall i | 0 <= i < |sched| :: sched[i].who != t
    ensures
      var s1 := Run(Next(s, t, op), sched);
      && WellFormed(s1.ring) && |s1.ring.threads| == |s.ring.threads| && s.ring.head <= s1.ring.head
      && var th := Next(s1, t, op).ring.threads[t];
      && th.DepthReport?
      && var advances := s1.ring.head - s.ring.head;
      && DepthOf(th.seen, th.at) == (if advances <= |Queue(s)| then |Queue(s)| - advances else 0)
  {
    StepKeeps(s, t, op);
    OthersRun(Next(s, t, op), sched, t);
  }

  // ------------------------------------------------------------------------------------------
  // Steps

  /** How far into a round of its loop a thread is. */
  function Phase<T>(th: Thread<T>): nat {
    match th
    case PushLoadSeq(_, _) => 1
    case PushCas(_, _) => 2
    case PushWrite(_, _) => 3
    case PushStore(_, _) => 4
    case PushFull(_) => 2
    case EvictLoadHead(_) => 2
    case EvictLoadSeq(_, _) => 3
    case EvictCas(_, _) => 4
    case EvictStore(_, _) => 5
    case EvictCount(_, _) => 6
    case PopLoadSeq(_) => 1
    case PopCas(_) => 2
    case PopRead(_) => 3
    case PopStore(_, _) => 4
    case _ => 0
  }

  /** A round of a push takes at most seven steps, one of a pop at most three before it succeeds. */
  predicate StepsOf<T>(th: Thread<T>, rounds: nat, steps: nat) {
    if th.PushLoadTail? then steps <= 7 * rounds
    else if th.PopLoadHead? then steps <= 3 * rounds
    else if Popping(th) then 1 <= rounds && steps <= 3 * (rounds - 1) + Phase(th)
    else if Phase(th) > 0 then 1 <= rounds && steps <= 7 * (rounds - 1) + Phase(th)
    else true
  }

  /** The steps of thread t in its current call after a run, if there were k at its beginning. */
  function StepsIn<T>(s: Sys<T>, sched: seq<Move<T>>, t: nat, k: nat): nat
    requires WellFormed(s.ring)
    decreases |sched|
  {
    if sched == [] then k
    else
      var m := sched[0];
      if m.who >= |s.ring.threads| then StepsIn(s, sched[1..], t, k)
      else
        var k' := if m.who != t then k else if s.ring.threads[t].Idle? then 0 else k + 1;
        StepsIn(Next(s, m.who, m.op), sched[1..], t, k')
  }

  lemma StepsMove<T>(s: Sys<T>, t: nat, op: Op<T>, k: nat)
    requires WellFormed(s.ring) && t < |s.ring.threads| == |s.log.marks|
    requires StepsOf(s.ring.threads[t], s.log.marks[t].rounds, k)
    ensures
      var s' := Next(s, t, op);
      && |s'.log.marks| == |s.log.marks|
      && StepsOf(s'.ring.threads[t], s'.log.marks[t].rounds, if s.ring.threads[t].Idle? then 0 else k + 1)
  {
    StepsRounds(s, t, op);
    StepsPhase(s.ring, t, op);
    hide Next;
  }

  /** Rounds are counted at the cursor loads, from the start of the call. */
  lemma StepsRounds<T>(s: Sys<T>, t: nat, op: Op<T>)
    requires WellFormed(s.ring) && t < |s.ring.threads| == |s.log.marks|
    ensures
      var th, s' := s.ring.threads[t], Next(s, t, op);
      && |s'.log.marks| == |s.log.marks| && s'.ring.threads[t] == Step(s.ring, t, op).threads[t]
      && (th.PushLoadTail? || th.PopLoadHead? ==> s'.log.marks[t].rounds == s.log.marks[t].rounds + 1)
      && (Phase(th) > 0 ==> s'.log.marks[t].rounds == s.log.marks[t].rounds)
  {
  }

  /** A step goes one phase on within the call, or back to the loop, or out of the call. */
  lemma StepsPhase<T>(r: Ring<T>, t: nat, op: Op<T>)
    requires WellFormed(r) && t < |r.threads|
    ensures
      var th, th' := r.threads[t], Step(r, t, op).threads[t];
      && (th.Idle? ==> th'.PushLoadTail? || th'.PopLoadHead? || (Phase(th') == 0 && !Popping(th')))
      && (!th.Idle? && Phase(th') > 0 ==> Phase(th') == Phase(th) + 1 && (Popping(th') <==> Popping(th)))
      && (Phase(th') == 1 ==> th.PushLoadTail? || th.PopLoadHead?)
      && (th'.PushLoadTail? && !th.Idle? ==> 2 <= Phase(th) + 1 <= 7 && !Popping(th))
      && (th'.PopLoadHead? && !th.Idle? ==> 2 <= Phase(th) + 1 <= 3 && Popping(th))
  {
  }

  lemma {:induction false} RunSteps<T>(s: Sys<T>, sched: seq<Move<T>>, t: nat, k: nat)
    requires Shape(s) && Inv(s) && t < |s.ring.threads|
    requires StepsOf(s.ring.threads[t], s.log.marks[t].rounds, k)
    ensures
      var s' := Run(s, sched);
      t < |s'.ring.threads| == |s'.log.marks| && StepsOf(s'.ring.threads[t], s'.log.marks[t].rounds, StepsIn(s, sched, t, k))
    decreases |sched|
  {
    if sched != [] {
      var m := sched[0];
      if m.who < |s.ring.threads| {
        StepKeeps(s, m.who, m.op);
        var s' := Next(s, m.who, m.op);
        if m.who == t {
          StepsMove(s, t, m.op, k);
          RunSteps(s', sched[1..], t, if s.ring.threads[t].Idle? then 0 else k + 1);
        } else {
          RemarkOnlyMover(s, m.who, m.op);
          RunSteps(s', sched[1..], t, k);
        }
      } else {
        RunSteps(s, sched[1..], t, k);
      }
    }
  }

  // ------------------------------------------------------------------------------------------
  // Accounting

  function Tally<A>(s: seq<A>, f: A -> bool): nat {
    if s == [] then 0 else Tally(s[..|s| - 1], f) + (if f(s[|s| - 1]) then 1 else 0)
  }

  lemma {:induction false} TallyUpdate<A>(s: seq<A>, i: nat, x: A, f: A -> bool)
    requires i < |s|
    ensures Tally(s[i := x], f) + (if f(s[i]) then 1 else 0) == Tally(s, f) + (if f(x) then 1 else 0)
  {
    var k := |s| - 1;
    if i == k {
      assert s[i := x][..k] == s[..k];
    } else {
      TallyUpdate(s[..k], i, x, f);
      assert s[i := x][..k] == s[..k][i := x];
    }
  }

  lemma {:induction false} TallyNone<A>(s: seq<A>, f: A -> bool)
    requires forall i | 0 <= i < |s| :: !f(s[i])
    ensures Tally(s, f) == 0
  {
    if s != [] { TallyNone(s[..|s| - 1], f); }
  }

  /** Every entry below h is one of two exclusive kinds, and no entry from h on is of either. */
  lemma {:induction false} TallySplit<A>(s: seq<A>, h: nat, f: A -> bool, g: A -> bool)
    requires h <= |s|
    requires forall i | 0 <= i < |s| :: !(f(s[i]) && g(s[i])) && (i < h <==> f(s[i]) || g(s[i]))
    ensures Tally(s, f) + Tally(s, g) == h
  {
    if |s| > 0 {
      TallySplit(s[..|s| - 1], if h == |s| then h - 1 else h, f, g);
    }
  }

  predicate IsEvicted(f: Fate) { f.Evicted? }

  predicate IsConsumed(f: Fate) { f.Consumed? }

  ghost predicate CountInv<T>(s: Sys<T>) {
    && s.ring.evicted == Tally(s.log.fates, IsEvicted)
    && s.log.calls == s.ring.dropped + s.ring.tail + Tally(s.ring.threads, Undecided<T>)
  }

  /** A step keeps calls = dropped + claimed + undecided, seen from the thread that moves. */
  lemma CallStep<T>(s: Sys<T>, t: nat, op: Op<T>)
    requires Shape(s) && t < |s.ring.threads|
    ensures
      var s' := Next(s, t, op);
      s'.log.calls - s'.ring.dropped - s'.ring.tail - (if Undecided(s'.ring.threads[t]) then 1 else 0)
      == s.log.calls - s.ring.dropped - s.ring.tail - (if Undecided(s.ring.threads[t]) then 1 else 0)
  {
  }

  lemma CountCalls<T>(s: Sys<T>, t: nat, op: Op<T>)
    requires Shape(s) && t < |s.ring.threads|
    requires s.log.calls == s.ring.dropped + s.ring.tail + Tally(s.ring.threads, Undecided<T>)
    ensures
      var s' := Next(s, t, op);
      s'.log.calls == s'.ring.dropped + s'.ring.tail + Tally(s'.ring.threads, Undecided<T>)
  {
    var s' := Next(s, t, op);
    CallStep(s, t, op);
    assert s'.ring.threads == s.ring.threads[t := s'.ring.threads[t]];
    TallyUpdate(s.ring.threads, t, s'.ring.threads[t], Undecided<T>);
  }

  lemma CountEvictions<T>(s: Sys<T>, t: nat, op: Op<T>)
    requires Inv(s) && t < |s.ring.threads| && s.ring.evicted == Tally(s.log.fates, IsEvicted)
    ensures Next(s, t, op).ring.evicted == Tally(Next(s, t, op).log.fates, IsEvicted)
  {
    var th, fates := s.ring.threads[t], s.log.fates;
    FateStep(s, t, op);
    assert ThreadOk(s, t);
    assert PosOk(s, s.ring.head);
    hide Next;
    if th.PushCas? && s.ring.tail == th.pos {
      assert (fates + [Writing(t)])[..|fates|] == fates;
    } else if FateOf(s, t).Some? {
      TallyUpdate(fates, th.pos, FateOf(s, t).value, IsEvicted);
    }
  }

  /** The new fate of its position when thread t moves. */
  function FateOf<T>(s: Sys<T>, t: nat): Option<Fate>
    requires t < |s.ring.threads|
  {
    match s.ring.threads[t]
    case PushStore(_, _) => Some(Published)
    case EvictCas(_, pos) => if s.ring.head == pos then Some(Evicting(t)) else None
    case EvictStore(_, _) => Some(Uncounted(t))
    case EvictCount(_, _) => Some(Evicted(t))
    case PopCas(pos) => if s.ring.head == pos then Some(Reading(t)) else None
    case PopStore(_, _) => Some(Consumed(t))
    case _ => None
  }

  lemma FateStep<T>(s: Sys<T>, t: nat, op: Op<T>)
    requires WellFormed(s.ring) && s.ring.arith == Unbounded && t < |s.ring.threads|
    ensures
      var th, s' := s.ring.threads[t], Next(s, t, op);
      && s'.ring.evicted == s.ring.evicted + (if th.EvictCount? then 1 else 0)
      && s'.log.fates == if th.PushCas? && s.ring.tail == th.pos then s.log.fates + [Writing(t)]
                         else if FateOf(s, t).Some? then SetAt(s.log.fates, th.pos, FateOf(s, t).value)
                         else s.log.fates
  {
  }

  lemma {:induction false} RunCounts<T>(s: Sys<T>, sched: seq<Move<T>>)
    requires Inv(s) && CountInv(s)
    ensures Inv(Run(s, sched)) && CountInv(Run(s, sched))
    decreases |sched|
  {
    if sched != [] {
      var m := sched[0];
      if m.who < |s.ring.threads| {
        StepKeeps(s, m.who, m.op);
        CountCalls(s, m.who, m.op);
        CountEvictions(s, m.who, m.op);
        RunCounts(Next(s, m.who, m.op), sched[1..]);
      } else {
        RunCounts(s, sched[1..]);
      }
    }
  }

  /**
   Conservation: whenever no call is in flight, every push was either dropped or claimed a
   position, and every position past the head was either popped or counted as evicted.
   */
  lemma Conservation<T>(n: nat, data: seq<T>, workers: nat, sched: seq<Move<T>>)
    requires 2 <= n == |data|
    ensures
      var s := Run(Init(n, data, workers), sched);
      (forall t | 0 <= t < |s.ring.threads| :: s.ring.threads[t].Idle?) ==>
        && s.log.calls == s.ring.dropped + s.ring.tail
        && s.ring.head == s.ring.evicted + Tally(s.log.fates, IsConsumed)
  {
    var s0 := Init(n, data, workers);
    InitHolds(n, data, workers);
    TallyNone(s0.ring.threads, Undecided<T>);
    RunCounts(s0, sched);
    var s := Run(s0, sched);
    if forall t | 0 <= t < |s.ring.threads| :: s.ring.threads[t].Idle? {
      TallyNone(s.ring.threads, Undecided<T>);
      forall p: nat | p < s.ring.tail
        ensures p < s.ring.head <==> IsEvicted(s.log.fates[p]) || IsConsumed(s.log.fates[p])
      {
        assert PosOk(s, p);
      }
      TallySplit(s.log.fates, s.ring.head, IsEvicted, IsConsumed);
    }
  }
}
