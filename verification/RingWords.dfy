/**
 The program's cursors are 64-bit words that wrap. Here the word form of the step system is
 shown to be the image of the unbounded one, through any number of wraps, exactly as long as the
 comparisons agree; they do while no mover's loaded position has fallen 2^63 - N advances behind
 its cursor.
 */
module RingWords {
  import opened Laps
  import opened RingSteps
  import opened RingInvariant
  import opened RingSafety
  import opened RingProgress

  function W(p: nat): nat {
    p % TWO64
  }

  function WordSeqs(s: seq<nat>): (w: seq<nat>)
    ensures |w| == |s| && forall i | 0 <= i < |s| :: w[i] == W(s[i])
  {
    seq(|s|, i requires 0 <= i < |s| => W(s[i]))
  }

  function WordThread<T>(th: Thread<T>): Thread<T> {
    match th
    case PushLoadSeq(c, pos) => PushLoadSeq(c, W(pos))
    case PushCas(c, pos) => PushCas(c, W(pos))
    case PushWrite(c, pos) => PushWrite(c, W(pos))
    case PushStore(c, pos) => PushStore(c, W(pos))
    case EvictLoadSeq(c, pos) => EvictLoadSeq(c, W(pos))
    case EvictCas(c, pos) => EvictCas(c, W(pos))
    case EvictStore(c, pos) => EvictStore(c, W(pos))
    case EvictCount(c, pos) => EvictCount(c, W(pos))
    case PopLoadSeq(pos) => PopLoadSeq(W(pos))
    case PopCas(pos) => PopCas(W(pos))
    case PopRead(pos) => PopRead(W(pos))
    case PopStore(pos, item) => PopStore(W(pos), item)
    case DepthLoadHead(seen) => DepthLoadHead(W(seen))
    case DepthReport(seen, at) => DepthReport(W(seen), W(at))
    case _ => th
  }

  function WordThreads<T>(ths: seq<Thread<T>>): (w: seq<Thread<T>>)
    ensures |w| == |ths| && forall i | 0 <= i < |ths| :: w[i] == WordThread(ths[i])
  {
    seq(|ths|, i requires 0 <= i < |ths| => WordThread(ths[i]))
  }

  /** The memory image: every cursor and counter modulo 2^64. */
  function Words<T>(r: Ring<T>): Ring<T> {
    Ring(Word64, r.n, W(r.head), W(r.tail), W(r.evicted), W(r.dropped),
         WordSeqs(r.seqs), r.data, WordThreads(r.threads))
  }

  // ------------------------------------------------------------------------------------------
  // Word arithmetic

  lemma PlusWords(p: nat, k: nat)
    ensures Plus(Word64, W(p), k) == W(Plus(Unbounded, p, k))
  {
  }

  /** The signed word difference is the true difference exactly within [-2^63, 2^63). */
  lemma DiffWordsIff(x: nat, y: nat)
    ensures Diff(Word64, W(x), W(y)) == x - y <==> -0x8000_0000_0000_0000 <= x - y < TWO63
  {
    assert (W(x) - W(y)) % TWO64 == (x - y) % TWO64;
  }

  /** Index masking is consistent across the wrap because the capacity divides 2^64. */
  lemma SlotWords(n: nat, p: nat)
    requires 0 < n && TWO64 % n == 0
    ensures W(p) % n == p % n
  {
    var k := TWO64 / n;
    assert TWO64 == n * k;
    var q := p / TWO64;
    assert p == W(p) + TWO64 * q;
    assert TWO64 * q == n * (k * q);
    LapsAgree(n, W(p), k * q);
  }

  /** QueueDepth on words is exact if and only if no wrap lies between its two loads. */
  lemma DepthWordsIff(seen: nat, at: nat)
    requires -0x1_0000_0000_0000_0000 < seen - at < TWO64
    ensures DepthOf(W(seen), W(at)) == DepthOf(seen, at) <==> seen / TWO64 == at / TWO64
  {
  }

  /**
   QueueDepth on words is still a lower bound if and only if the head, loaded second, has not
   wrapped past a tail that had not; the tail is never ahead by 2^64.
   */
  lemma DepthWordsAtMostIff(seen: nat, at: nat)
    requires -0x1_0000_0000_0000_0000 < seen - at < TWO64
    ensures DepthOf(W(seen), W(at)) <= DepthOf(seen, at) <==> !(seen / TWO64 < at / TWO64)
    ensures seen / TWO64 < at / TWO64 ==> DepthOf(W(seen), W(at)) == TWO64 - (at - seen)
  {
  }

  /** A head that wraps past the loaded tail: an empty queue is reported as 2^64 - 6 items. */
  lemma DepthWordsTooLarge()
    ensures DepthOf(W(TWO64 - 1), W(TWO64 + 5)) == TWO64 - 6
    ensures DepthOf(TWO64 - 1, TWO64 + 5) == 0
  {
  }

  // ------------------------------------------------------------------------------------------
  // Simulation

  /** A distance and the same distance modulo 2^64, read as signed, have the same sign. */
  predicate SameSign(x: int) {
    if x < 0 then x % TWO64 >= TWO63 else x == 0 || 0 < x % TWO64 < TWO63
  }

  /** A distance is zero if it is zero modulo 2^64. */
  predicate SameZero(x: int) {
    x % TWO64 == 0 ==> x == 0
  }

  /** The comparison that thread t is about to make comes out on words as it does on numbers. */
  predicate Agrees<T>(r: Ring<T>, t: nat)
    requires WellFormed(r)
  {
    t < |r.threads| ==>
      match r.threads[t]
      case PushLoadSeq(_, pos) => SameSign(r.seqs[pos % r.n] - pos)
      case PopLoadSeq(pos) => SameSign(r.seqs[pos % r.n] - (pos + 1))
      case EvictLoadSeq(_, pos) => SameZero(r.seqs[pos % r.n] - (pos + 1))
      case PushCas(_, pos) => SameZero(r.tail - pos)
      case EvictCas(_, pos) => SameZero(r.head - pos)
      case PopCas(pos) => SameZero(r.head - pos)
      case _ => true
  }

  /** Thread t's loaded position is less than 2^63 - N advances behind its cursor. */
  predicate Fresh<T>(r: Ring<T>, t: nat) {
    t < |r.threads| ==>
      match r.threads[t]
      case PushLoadSeq(_, pos) => r.tail - pos < TWO63 - r.n
      case PushCas(_, pos) => r.tail - pos < TWO63 - r.n
      case EvictLoadSeq(_, pos) => r.head - pos < TWO63 - r.n
      case EvictCas(_, pos) => r.head - pos < TWO63 - r.n
      case PopLoadSeq(pos) => r.head - pos < TWO63 - r.n
      case PopCas(pos) => r.head - pos < TWO63 - r.n
      case _ => true
  }

  lemma SmallDistance(x: int)
    requires -0x8000_0000_0000_0000 <= x < TWO63
    ensures SameSign(x) && SameZero(x)
  {
  }

  /** The first distances that do not compare alike. */
  lemma StaleDistance()
    ensures !SameSign(0x8000_0000_0000_0000) && !SameZero(0x1_0000_0000_0000_0000)
  {
  }

  lemma FreshLoad<T>(s: Sys<T>, pos: nat)
    requires Inv(s) && pos <= s.ring.tail
    requires s.ring.tail - pos < TWO63 - s.ring.n || (pos <= s.ring.head && s.ring.head - pos < TWO63 - s.ring.n)
    ensures SameSign(s.ring.seqs[pos % s.ring.n] - pos)
    ensures SameSign(s.ring.seqs[pos % s.ring.n] - (pos + 1)) && SameZero(s.ring.seqs[pos % s.ring.n] - (pos + 1))
  {
    SeqRange(s, pos);
    hide SameSign, SameZero, Inv;
    SmallDistance(s.ring.seqs[pos % s.ring.n] - pos);
    SmallDistance(s.ring.seqs[pos % s.ring.n] - (pos + 1));
  }

  /** A position that is recent enough compares alike. */
  lemma FreshAgrees<T>(s: Sys<T>, t: nat)
    requires Inv(s) && t < |s.ring.threads| && Fresh(s.ring, t)
    ensures Agrees(s.ring, t)
  {
    var r := s.ring;
    assert ThreadOk(s, t);
    assert WellFormed(r) && r.head <= r.tail;
    hide SameSign, SameZero, Inv;
    match r.threads[t]
    case PushLoadSeq(_, pos) => FreshLoad(s, pos);
    case PopLoadSeq(pos) => FreshLoad(s, pos);
    case EvictLoadSeq(_, pos) => FreshLoad(s, pos);
    case PushCas(_, pos) => SmallDistance(r.tail - pos);
    case EvictCas(_, pos) => SmallDistance(r.head - pos);
    case PopCas(pos) => SmallDistance(r.head - pos);
    case _ =>
  }

  /** The signed word difference has the sign of the difference if and only if SameSign. */
  lemma DiffSign(x: nat, y: nat)
    ensures
      var d := Diff(Word64, W(x), W(y));
      (if x < y then d < 0 else if x == y then d == 0 else d > 0) <==> SameSign(x - y)
  {
    assert (W(x) - W(y)) % TWO64 == (x - y) % TWO64;
  }

  lemma EqualIff(x: nat, y: nat)
    ensures (W(x) == W(y) <==> x == y) <==> SameZero(x - y)
  {
    assert (W(x) - W(y)) % TWO64 == (x - y) % TWO64;
  }

  lemma SeqRange<T>(s: Sys<T>, pos: nat)
    requires Inv(s) && pos <= s.ring.tail
    ensures pos - s.ring.n <= s.ring.seqs[pos % s.ring.n] <= s.ring.head + s.ring.n
  {
    if pos == s.ring.tail { LoadAtTail(s, pos); } else { LoadBelowTail(s, pos); }
  }

  /** Moving one thread commutes with taking the memory image. */
  lemma GotoWords<T>(r: Ring<T>, t: nat, th: Thread<T>)
    requires t < |r.threads|
    ensures Words(Goto(r, t, th)) == Goto(Words(r), t, WordThread(th))
  {
    assert WordThreads(r.threads[t := th]) == WordThreads(r.threads)[t := WordThread(th)];
  }

  lemma SeqsWords(s: seq<nat>, i: nat, x: nat)
    requires i < |s|
    ensures WordSeqs(s[i := x]) == WordSeqs(s)[i := W(x)]
  {
  }

  /** The sequence-number load of a push takes the same branch. */
  lemma PushLoadWords<T>(s: Sys<T>, t: nat, op: Op<T>)
    requires Inv(s) && t < |s.ring.threads| && TWO64 % s.ring.n == 0
    requires s.ring.threads[t].PushLoadSeq?
    ensures Step(Words(s.ring), t, op) == Words(Step(s.ring, t, op)) <==> Agrees(s.ring, t)
  {
    var r := s.ring;
    assert ThreadOk(s, t);
    hide Inv, ThreadOk;
    var pos := r.threads[t].pos;
    SlotWords(r.n, pos);
    PlusWords(pos, 1);
    DiffSign(r.seqs[pos % r.n], pos);
    GotoWords(r, t, Step(r, t, op).threads[t]);
  }

  /** So does the load of a pop. */
  lemma PopLoadWords<T>(s: Sys<T>, t: nat, op: Op<T>)
    requires Inv(s) && t < |s.ring.threads| && TWO64 % s.ring.n == 0
    requires s.ring.threads[t].PopLoadSeq?
    ensures Step(Words(s.ring), t, op) == Words(Step(s.ring, t, op)) <==> Agrees(s.ring, t)
  {
    var r := s.ring;
    assert ThreadOk(s, t);
    hide Inv, ThreadOk;
    var pos := r.threads[t].pos;
    SlotWords(r.n, pos);
    PlusWords(pos, 1);
    DiffSign(r.seqs[pos % r.n], pos + 1);
    GotoWords(r, t, Step(r, t, op).threads[t]);
  }

  /** And the guard of an eviction. */
  lemma EvictLoadWords<T>(s: Sys<T>, t: nat, op: Op<T>)
    requires Inv(s) && t < |s.ring.threads| && TWO64 % s.ring.n == 0
    requires s.ring.threads[t].EvictLoadSeq?
    ensures Step(Words(s.ring), t, op) == Words(Step(s.ring, t, op)) <==> Agrees(s.ring, t)
  {
    var r := s.ring;
    assert ThreadOk(s, t);
    hide Inv, ThreadOk;
    var pos := r.threads[t].pos;
    SlotWords(r.n, pos);
    PlusWords(pos, 1);
    EqualIff(r.seqs[pos % r.n], pos + 1);
    GotoWords(r, t, Step(r, t, op).threads[t]);
  }

  /** The compare-and-swap on the tail. */
  lemma PushCasWords<T>(s: Sys<T>, t: nat, op: Op<T>)
    requires Inv(s) && t < |s.ring.threads|
    requires s.ring.threads[t].PushCas?
    ensures Step(Words(s.ring), t, op) == Words(Step(s.ring, t, op)) <==> Agrees(s.ring, t)
  {
    var r := s.ring;
    assert WellFormed(r) && r.arith == Unbounded;
    hide Inv;
    var pos := r.threads[t].pos;
    PlusWords(pos, 1);
    EqualIff(r.tail, pos);
    var r' := Step(r, t, op);
    GotoWords(r.(head := r'.head, tail := r'.tail), t, r'.threads[t]);
  }

  /** The two compare-and-swaps on the head. */
  lemma TakeCasWords<T>(s: Sys<T>, t: nat, op: Op<T>)
    requires Inv(s) && t < |s.ring.threads|
    requires s.ring.threads[t].PopCas? || s.ring.threads[t].EvictCas?
    ensures Step(Words(s.ring), t, op) == Words(Step(s.ring, t, op)) <==> Agrees(s.ring, t)
  {
    var r := s.ring;
    assert WellFormed(r) && r.arith == Unbounded;
    hide Inv;
    var pos := r.threads[t].pos;
    PlusWords(pos, 1);
    EqualIff(r.head, pos);
    var r' := Step(r, t, op);
    GotoWords(r.(head := r'.head, tail := r'.tail), t, r'.threads[t]);
  }

  /** Data accesses and sequence-number stores go to the same slot. */
  lemma StoreWords<T>(s: Sys<T>, t: nat, op: Op<T>)
    requires Inv(s) && t < |s.ring.threads| && TWO64 % s.ring.n == 0
    requires var th := s.ring.threads[t];
             th.PushWrite? || th.PushStore? || th.PopRead? || th.PopStore? || th.EvictStore?
    ensures Step(Words(s.ring), t, op) == Words(Step(s.ring, t, op))
  {
    var r := s.ring;
    var pos := r.threads[t].pos;
    SlotWords(r.n, pos);
    var k := if r.threads[t].PushStore? then 1 else r.n;
    PlusWords(pos, k);
    SeqsWords(r.seqs, pos % r.n, pos + k);
    var r' := Step(r, t, op);
    GotoWords(r.(seqs := r'.seqs, data := r'.data), t, r'.threads[t]);
  }

  /** Every other action: cursor loads, counters, starts and returns. */
  lemma OtherWords<T>(s: Sys<T>, t: nat, op: Op<T>)
    requires Inv(s) && t < |s.ring.threads|
    requires var th := s.ring.threads[t];
             || th.Idle? || th.PushLoadTail? || th.PushFull? || th.EvictLoadHead? || th.EvictCount?
             || th.PopLoadHead? || th.DepthLoadTail? || th.DepthLoadHead? || th.DepthReport?
    ensures Step(Words(s.ring), t, op) == Words(Step(s.ring, t, op))
  {
    var r := s.ring;
    assert ThreadOk(s, t);
    PlusWords(r.dropped, 1);
    PlusWords(r.evicted, 1);
    var r' := Step(r, t, op);
    GotoWords(r.(dropped := r'.dropped, evicted := r'.evicted), t, r'.threads[t]);
  }

  /** One step on words is the image of the step on naturals if and only if its comparison agrees. */
  lemma StepWordsIff<T>(s: Sys<T>, t: nat, op: Op<T>)
    requires Inv(s) && t < |s.ring.threads| && TWO64 % s.ring.n == 0
    ensures Step(Words(s.ring), t, op) == Words(Step(s.ring, t, op)) <==> Agrees(s.ring, t)
  {
    hide Step, Words, Inv, SameSign, SameZero;
    var th := s.ring.threads[t];
    if th.PushLoadSeq? {
      PushLoadWords(s, t, op);
    } else if th.PopLoadSeq? {
      PopLoadWords(s, t, op);
    } else if th.EvictLoadSeq? {
      EvictLoadWords(s, t, op);
    } else if th.PushCas? {
      PushCasWords(s, t, op);
    } else if th.PopCas? || th.EvictCas? {
      TakeCasWords(s, t, op);
    } else if th.PushWrite? || th.PushStore? || th.PopRead? || th.PopStore? || th.EvictStore? {
      StoreWords(s, t, op);
    } else {
      OtherWords(s, t, op);
    }
  }

  /** Every mover of the schedule compares alike when it moves. */
  ghost predicate AgreeingRun<T>(s: Sys<T>, sched: seq<Move<T>>)
    requires WellFormed(s.ring)
    decreases |sched|
  {
    sched == [] ||
    if sched[0].who < |s.ring.threads| then
      Agrees(s.ring, sched[0].who) && AgreeingRun(Next(s, sched[0].who, sched[0].op), sched[1..])
    else
      AgreeingRun(s, sched[1..])
  }

  /** Every mover of the schedule is fresh when it moves. */
  ghost predicate FreshRun<T>(s: Sys<T>, sched: seq<Move<T>>)
    requires WellFormed(s.ring)
    decreases |sched|
  {
    sched == [] ||
    if sched[0].who < |s.ring.threads| then
      Fresh(s.ring, sched[0].who) && FreshRun(Next(s, sched[0].who, sched[0].op), sched[1..])
    else
      FreshRun(s, sched[1..])
  }

  lemma {:induction false} FreshRunAgrees<T>(s: Sys<T>, sched: seq<Move<T>>)
    requires Inv(s) && FreshRun(s, sched)
    ensures AgreeingRun(s, sched)
    decreases |sched|
  {
    hide Fresh, Agrees;
    if sched != [] {
      var m := sched[0];
      if m.who < |s.ring.threads| {
        FreshAgrees(s, m.who);
        StepKeeps(s, m.who, m.op);
        FreshRunAgrees(Next(s, m.who, m.op), sched[1..]);
      } else {
        FreshRunAgrees(s, sched[1..]);
      }
    }
  }

  /** The run of the program: the steps alone, without history. */
  function RunRing<T>(r: Ring<T>, sched: seq<Move<T>>): Ring<T>
    requires WellFormed(r)
    decreases |sched|
  {
    if sched == [] then r
    else RunRing(if sched[0].who < |r.threads| then Step(r, sched[0].who, sched[0].op) else r, sched[1..])
  }

  /** The 64-bit program takes exactly the branches of the unbounded one, run for run. */
  lemma {:induction false} RunOnWords<T>(s: Sys<T>, sched: seq<Move<T>>)
    requires Inv(s) && TWO64 % s.ring.n == 0 && AgreeingRun(s, sched)
    ensures RunRing(Words(s.ring), sched) == Words(Run(s, sched).ring)
    decreases |sched|
  {
    if sched != [] {
      var m := sched[0];
      if m.who < |s.ring.threads| {
        StepWordsIff(s, m.who, m.op);
        StepKeeps(s, m.who, m.op);
        RunOnWords(Next(s, m.who, m.op), sched[1..]);
      } else {
        RunOnWords(s, sched[1..]);
      }
    }
  }

  /** ... from the ring that newRingbuf makes. */
  lemma ProgramRuns<T>(n: nat, data: seq<T>, workers: nat, sched: seq<Move<T>>)
    requires 2 <= n == |data| && TWO64 % n == 0 && FreshRun(Init(n, data, workers), sched)
    ensures RunRing(NewRing(Word64, n, data, workers), sched) == Words(Run(Init(n, data, workers), sched).ring)
  {
    hide Inv, Run, RunRing, FreshRun, AgreeingRun;
    InitHolds(n, data, workers);
    FreshRunAgrees(Init(n, data, workers), sched);
    RunOnWords(Init(n, data, workers), sched);
    DividesIsSmaller(n, TWO64);
    var a, b := NewRing(Word64, n, data, workers), Words(NewRing(Unbounded, n, data, workers));
    assert a.seqs == b.seqs && a.threads == b.threads;
  }

  lemma DividesIsSmaller(n: nat, m: nat)
    requires 0 < n && 0 < m && m % n == 0
    ensures n <= m
  {
  }

  /**
   What QueueDepth of the 64-bit program returns, in every run: with no wrap between the loaded
   cursors the depth at its first load minus the head advances since, or zero if those are more;
   zero if the tail had wrapped and the head not; and the wrapped distance if the head has wrapped
   past the loaded tail.
   */
  lemma ProgramDepth<T>(n: nat, data: seq<T>, workers: nat, sched: seq<Move<T>>, t: nat)
    requires 2 <= n == |data| && n < TWO64 && TWO64 % n == 0 && t < workers
    requires FreshRun(Init(n, data, workers), sched)
    requires
      var s := Run(Init(n, data, workers), sched);
      && |s.ring.threads| == workers && s.ring.threads[t].DepthReport?
      && s.ring.threads[t].at - s.ring.threads[t].seen < TWO64
    ensures
      var s, r := Run(Init(n, data, workers), sched), RunRing(NewRing(Word64, n, data, workers), sched);
      && |s.log.marks| == |r.threads| == workers && r.threads[t].DepthReport?
      && var seen, at := s.ring.threads[t].seen, s.ring.threads[t].at;
      var depth := DepthOf(r.threads[t].seen, r.threads[t].at);
      var m := s.log.marks[t];
      && m.head <= at && seen == m.start + m.head && m.start <= n
      && depth == if seen / TWO64 < at / TWO64 then TWO64 - (at - seen)
                  else if seen / TWO64 > at / TWO64 then 0
                  else DepthOf(m.start, at - m.head)
  {
    hide Run, RunRing, FreshRun;
    ProgramRuns(n, data, workers, sched);
    InitMarks(n, data, workers);
    RunMarks(Init(n, data, workers), sched);
    RunFrame(Init(n, data, workers), sched);
    var s := Run(Init(n, data, workers), sched);
    assert MarkOk(s, t);
    DepthWordsAtMostIff(s.ring.threads[t].seen, s.ring.threads[t].at);
    DepthWordsIff(s.ring.threads[t].seen, s.ring.threads[t].at);
  }
}
