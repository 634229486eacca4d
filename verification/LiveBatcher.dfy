/**
 The drain engine on top of the concurrent ring: while producers and evictors take their atomic
 steps, the drain goroutine interleaves its own, one pop after another, marshals each item between
 the data access and the release of the slot, and flushes what it has packed. Every such run is at
 once a run of the ring and a run of the engine.
 */
module LiveBatcher {
  import opened Codec
  import opened Packing
  import opened RingSteps
  import opened RingInvariant
  import opened RingSafety
  import opened RingProgress
  import opened RingDrain
  import opened RingBranches
  import opened EngineRuns
  import opened EngineBooks
  import E = Engine

  /**
   The loop of drainAndFlush: the byte buffer, the offset, the accepted parts, and Marshal's return
   value while a slot is held. `base` is the buffer before that Marshal and `taken` are the items
   dequeued by this drain; both are history.
   */
  datatype Work =
    | Resting
    | Filling(buf: seq<bv8>, offset: nat, parts: seq<seq<bv8>>, written: int, truncated: nat, stopped: bool,
              base: seq<bv8>, taken: seq<Item>)

  /** `sched` and `inputs` are the history of the ring's steps and of the finished drains. */
  datatype Live = Live(sys: Sys<Item>, engine: E.Engine, work: Work, sched: seq<Move<Item>>, inputs: seq<Input>)

  datatype Act =
    | Other(who: nat, op: Op<Item>)
    | BeginDrain
    | Advance
    | Finish(env: E.Env, delivered: bool)

  function Start(c: E.Config, n: nat, data: seq<Item>, workers: nat): Live {
    Live(Init(n, data, workers), E.Start(c), Resting, [], [])
  }

  /** A step of thread t on the ring. */
  function Moved(l: Live, t: nat, op: Op<Item>): Live
    requires WellFormed(l.sys.ring) && t < |l.sys.ring.threads|
  {
    l.(sys := Next(l.sys, t, op), sched := l.sched + [Move(t, op)])
  }

  /** Marshal has written; the slot is still held. */
  function Marshalled(w: Work, item: Item): Work
    requires w.Filling? && w.offset <= |w.buf|
  {
    w.(buf := MarshalAt(item, w.buf, w.offset), written := Written(item, w.buf[w.offset..]))
  }

  /** The slot is released: the item is accepted, or counted as truncated. */
  function Settled(w: Work, item: Item): Work
    requires w.Filling? && w.offset <= |w.buf|
  {
    var w1 := w.(base := w.buf, taken := w.taken + [item]);
    if w.written <= 0 || w.written > |w.buf| - w.offset then w1.(truncated := 1, stopped := true)
    else w1.(offset := w.offset + w.written, parts := w.parts + [w.buf[w.offset..w.offset + w.written]])
  }

  /** One step of the drain goroutine, d, inside its packing loop. */
  function Advanced(c: E.Config, l: Live, d: nat): Live
    requires WellFormed(l.sys.ring) && d < |l.sys.ring.threads|
    requires l.work.Filling? && l.work.offset <= |l.work.buf|
  {
    var l' := Moved(l, d, Pop);
    match l.sys.ring.threads[d]
    case Idle =>
      if |l.work.parts| >= MAX_COUNT || |l.work.buf| - l.work.offset < c.maxItem then l.(work := l.work.(stopped := true))
      else l'
    case PopLoadSeq(_) => if l'.sys.ring.threads[d] == Idle then l'.(work := l.work.(stopped := true)) else l'
    case PopRead(pos) => l'.(work := Marshalled(l.work, l.sys.ring.data[pos % l.sys.ring.n]))
    case PopStore(_, item) => l'.(work := Settled(l.work, item))
    case _ => l'
  }

  function PackedOf(w: Work): Packed
    requires w.Filling?
  {
    Packed(w.buf, w.offset, w.parts, [], w.truncated)
  }

  predicate Enabled(c: E.Config, l: Live, d: nat, a: Act) {
    match a
    case Other(who, op) => WellFormed(l.sys.ring) && who < |l.sys.ring.threads| && who != d && !op.Pop?
    case BeginDrain => l.work.Resting?
    case Advance =>
      && WellFormed(l.sys.ring) && d < |l.sys.ring.threads|
      && l.work.Filling? && !l.work.stopped && l.work.offset <= |l.work.buf|
    case Finish(_, _) =>
      && l.work.Filling? && l.work.stopped && E.WellFormed(c, l.engine)
      && HEADER_SIZE <= l.work.offset <= |l.work.buf| == c.maxBatch
  }

  /** An act that cannot happen changes nothing. */
  function Do(c: E.Config, l: Live, d: nat, a: Act): Live {
    if !Enabled(c, l, d, a) then l
    else
      match a
      case Other(who, op) => Moved(l, who, op)
      case BeginDrain => l.(work := Filling(l.engine.buf, HEADER_SIZE, [], 0, 0, false, l.engine.buf, []))
      case Advance => Advanced(c, l, d)
      case Finish(env, delivered) =>
        l.(engine := E.Conclude(c, l.engine, PackedOf(l.work), env).engine, work := Resting,
           inputs := l.inputs + [Input(l.work.taken, env, delivered)])
  }

  function After(c: E.Config, l: Live, d: nat, acts: seq<Act>): Live {
    if acts == [] then l else Do(c, After(c, l, d, acts[..|acts| - 1]), d, acts[|acts| - 1])
  }

  // ------------------------------------------------------------------------------------------
  // Packing and engine runs, one item and one drain at a time

  /** A fill that took all of q goes on with the next item. */
  lemma {:induction false} FillGrows(maxItem: nat, q: seq<Item>, x: Item, buf: seq<bv8>, offset: nat, parts: seq<seq<bv8>>, p: Packed)
    requires offset <= |buf| && p.offset <= |p.buf|
    requires Fill(maxItem, q, buf, offset, parts) == p && p.rest == [] && p.truncated == 0
    requires |p.parts| < MAX_COUNT && maxItem <= |p.buf| - p.offset
    ensures Fill(maxItem, q + [x], buf, offset, parts) == Fill(maxItem, [x], p.buf, p.offset, p.parts)
    decreases |q|
  {
    hide MarshalAt, Written;
    if q == [] {
      assert q + [x] == [x];
    } else {
      assert (q + [x])[0] == q[0] && (q + [x])[1..] == q[1..] + [x];
      FillRound(maxItem, q, buf, offset, parts);
      var buf' := MarshalAt(q[0], buf, offset);
      var offset' := offset + Written(q[0], buf[offset..]);
      FillGrows(maxItem, q[1..], x, buf', offset', parts + [buf'[offset..offset']], p);
    }
  }

  /** The run with one more drain. */
  lemma {:induction false} RunsGrow(c: E.Config, e: E.Engine, last: seq<bv8>, inputs: seq<Input>, i: Input)
    requires E.Inv(c, e, last)
    ensures
      var t := Runs(c, e, last, inputs);
      && E.WellFormed(c, t.engine)
      && Runs(c, e, last, inputs + [i]).engine == DrainOn(c, t.engine, i).engine
    decreases |inputs|
  {
    hide E.Drain, E.Inv;
    RunsKeep(c, e, last, inputs);
    InvQueue(c, Runs(c, e, last, inputs).engine, Runs(c, e, last, inputs).last, []);
    if inputs == [] {
      assert inputs + [i] == [i] && [i][1..] == [];
      InvQueue(c, e, last, i.queue);
      E.DrainKeeps(c, e.(queue := i.queue), i.env, last);
    } else {
      var j := inputs[0];
      assert (inputs + [i])[0] == j && (inputs + [i])[1..] == inputs[1..] + [i];
      InvQueue(c, e, last, j.queue);
      E.DrainKeeps(c, e.(queue := j.queue), j.env, last);
      var d := DrainOn(c, e, j);
      RunsGrow(c, d.engine, E.LastAfter(c, last, d.event), inputs[1..], i);
    }
  }

  function ItemsOf(out: seq<Read<Item>>): (items: seq<Item>)
    ensures |items| == |out|
  {
    seq(|out|, i requires 0 <= i < |out| => out[i].item)
  }

  /** The items of the finished drains. */
  function Drained(inputs: seq<Input>): seq<Item> {
    if inputs == [] then [] else Drained(inputs[..|inputs| - 1]) + inputs[|inputs| - 1].queue
  }

  // ------------------------------------------------------------------------------------------
  // The invariant

  ghost predicate RingOk(n: nat, data: seq<Item>, workers: nat, d: nat, s: Sys<Item>, sched: seq<Move<Item>>) {
    && 2 <= n == |data| && d < workers == |s.ring.threads|
    && s == Run(Init(n, data, workers), sched) && SoleDrainer(sched, d)
    && Inv(s) && DrainInv(s, d)
  }

  /** The engine is where its run over the finished drains has taken it. */
  ghost predicate EngineOk(c: E.Config, e: E.Engine, inputs: seq<Input>) {
    && E.Inv(c, E.Start(c), []) && e == Runs(c, E.Start(c), [], inputs).engine
    && E.WellFormed(c, e) && e.queue == [] && e.popped == |Drained(inputs)|
  }

  /** The buffers are those of `Pack` on the items taken, and those are the items read. */
  ghost predicate WorkOk(c: E.Config, l: Live, th: Thread<Item>) {
    var items := ItemsOf(l.sys.log.out);
    match l.work
    case Resting => th == Idle && items == Drained(l.inputs)
    case Filling(buf, offset, parts, written, truncated, stopped, base, taken) =>
      && (th == Idle || (Popping(th) && !stopped && |parts| < MAX_COUNT && c.maxItem <= |base| - offset))
      && |l.engine.buf| == |base| == |buf| == c.maxBatch && HEADER_SIZE <= offset <= c.maxBatch
      && Fill(c.maxItem, taken, l.engine.buf, HEADER_SIZE, []) == Packed(base, offset, parts, [], truncated)
      && (!stopped ==> truncated == 0)
      && if th.PopStore?
         then
           && buf == MarshalAt(th.item, base, offset) && written == Written(th.item, base[offset..])
           && items == Drained(l.inputs) + taken + [th.item]
         else buf == base && items == Drained(l.inputs) + taken
  }

  ghost predicate LiveInv(c: E.Config, n: nat, data: seq<Item>, workers: nat, d: nat, l: Live) {
    && d < |l.sys.ring.threads| && RingOk(n, data, workers, d, l.sys, l.sched)
    && EngineOk(c, l.engine, l.inputs) && WorkOk(c, l, l.sys.ring.threads[d])
  }

  /** The ring's part of a step. */
  lemma MovedKeeps(n: nat, data: seq<Item>, workers: nat, d: nat, l: Live, t: nat, op: Op<Item>)
    requires RingOk(n, data, workers, d, l.sys, l.sched) && t < workers && (t != d ==> !op.Pop?)
    ensures RingOk(n, data, workers, d, Moved(l, t, op).sys, Moved(l, t, op).sched)
    ensures
      var s, s' := l.sys, Next(l.sys, t, op);
      && s'.ring.threads == s.ring.threads[t := s'.ring.threads[t]]
      && s'.log.out == match s.ring.threads[t]
                       case PopRead(pos) => s.log.out + [Read(t, pos, s.ring.data[pos % s.ring.n])]
                       case _ => s.log.out
  {
    var m := [Move(t, op)];
    assert m[1..] == [];
    RunAppend(Init(n, data, workers), l.sched, m);
    if t == d { DrainerStep(l.sys, d, op); } else { OtherStep(l.sys, d, t, op); }
    OutputStep(l.sys, t, op);
  }

  lemma OtherKeeps(c: E.Config, n: nat, data: seq<Item>, workers: nat, d: nat, l: Live, who: nat, op: Op<Item>)
    requires LiveInv(c, n, data, workers, d, l) && Enabled(c, l, d, Other(who, op))
    ensures LiveInv(c, n, data, workers, d, Moved(l, who, op))
  {
    MovedKeeps(n, data, workers, d, l, who, op);
    assert !Popping(l.sys.ring.threads[who]);
  }

  lemma ItemsGrow(out: seq<Read<Item>>, r: Read<Item>)
    ensures ItemsOf(out + [r]) == ItemsOf(out) + [r.item]
  {
  }

  /** Where the drain goroutine goes from each of its program counters. */
  lemma DrainerGoes(s: Sys<Item>, d: nat)
    requires WellFormed(s.ring) && d < |s.ring.threads|
    ensures
      var th, th' := s.ring.threads[d], Next(s, d, Pop).ring.threads[d];
      match th
      case Idle => th' == PopLoadHead
      case PopLoadHead => th'.PopLoadSeq?
      case PopLoadSeq(_) => th' == Idle || th'.PopCas? || th' == PopLoadHead
      case PopCas(_) => th'.PopRead? || th' == PopLoadHead
      case PopRead(pos) => th' == PopStore(pos, s.ring.data[pos % s.ring.n])
      case PopStore(_, _) => th' == Idle
      case _ => true
  {
  }

  /** Releasing the slot: the fill goes on with the item just marshalled. */
  lemma SettledKeeps(c: E.Config, l: Live, item: Item)
    requires l.work.Filling? && !l.work.stopped && WorkOk(c, l, PopStore(0, item))
    ensures
      var w := Settled(l.work, item);
      && |w.base| == |w.buf| == c.maxBatch && HEADER_SIZE <= w.offset <= c.maxBatch && w.buf == w.base
      && Fill(c.maxItem, w.taken, l.engine.buf, HEADER_SIZE, []) == Packed(w.base, w.offset, w.parts, [], w.truncated)
      && (!w.stopped ==> w.truncated == 0)
  {
    hide MarshalAt, Written, Fill;
    var w := l.work;
    var p := Packed(w.base, w.offset, w.parts, [], 0);
    FillGrows(c.maxItem, w.taken, item, l.engine.buf, HEADER_SIZE, [], p);
    FillRound(c.maxItem, [item], w.base, w.offset, w.parts);
    assert [item][1..] == [];
    if 0 < w.written <= |w.buf| - w.offset {
      var end := w.offset + w.written;
      FillRound(c.maxItem, [], w.buf, end, w.parts + [w.buf[w.offset..end]]);
    }
  }

  /** The buffers through one step of the drain goroutine, given what the ring does in it. */
  lemma AdvanceWork(c: E.Config, l: Live, d: nat)
    requires WellFormed(l.sys.ring) && d < |l.sys.ring.threads| && Enabled(c, l, d, Advance)
    requires WorkOk(c, l, l.sys.ring.threads[d])
    requires Next(l.sys, d, Pop).log.out == match l.sys.ring.threads[d]
             case PopRead(pos) => l.sys.log.out + [Read(d, pos, l.sys.ring.data[pos % l.sys.ring.n])]
             case _ => l.sys.log.out
    ensures
      var l' := Advanced(c, l, d);
      d < |l'.sys.ring.threads| && WorkOk(c, l', l'.sys.ring.threads[d])
  {
    DrainerGoes(l.sys, d);
    hide Next, Fill, MarshalAt, Written, ItemsOf, Drained;
    match l.sys.ring.threads[d]
    case PopRead(pos) => ReadsWork(c, l, d, pos);
    case PopStore(_, item) => StoresWork(c, l, d, item);
    case _ =>
  }

  lemma ReadsWork(c: E.Config, l: Live, d: nat, pos: nat)
    requires WellFormed(l.sys.ring) && d < |l.sys.ring.threads| && l.sys.ring.threads[d] == PopRead(pos)
    requires Enabled(c, l, d, Advance) && WorkOk(c, l, PopRead(pos))
    requires Next(l.sys, d, Pop).log.out == l.sys.log.out + [Read(d, pos, l.sys.ring.data[pos % l.sys.ring.n])]
    ensures
      var l' := Advanced(c, l, d);
      d < |l'.sys.ring.threads| && WorkOk(c, l', l'.sys.ring.threads[d])
  {
    DrainerGoes(l.sys, d);
    hide Next, Fill, Written, ItemsOf, Drained;
    ItemsGrow(l.sys.log.out, Read(d, pos, l.sys.ring.data[pos % l.sys.ring.n]));
  }

  lemma StoresWork(c: E.Config, l: Live, d: nat, item: Item)
    requires WellFormed(l.sys.ring) && d < |l.sys.ring.threads|
    requires l.sys.ring.threads[d].PopStore? && l.sys.ring.threads[d].item == item
    requires Enabled(c, l, d, Advance) && WorkOk(c, l, l.sys.ring.threads[d])
    requires Next(l.sys, d, Pop).log.out == l.sys.log.out
    ensures
      var l' := Advanced(c, l, d);
      d < |l'.sys.ring.threads| && WorkOk(c, l', l'.sys.ring.threads[d])
  {
    DrainerGoes(l.sys, d);
    hide Next, Fill, MarshalAt, Written, ItemsOf, Drained;
    SettledKeeps(c, l, item);
    assert Drained(l.inputs) + l.work.taken + [item] == Drained(l.inputs) + (l.work.taken + [item]);
  }

  lemma AdvanceKeeps(c: E.Config, n: nat, data: seq<Item>, workers: nat, d: nat, l: Live)
    requires LiveInv(c, n, data, workers, d, l) && Enabled(c, l, d, Advance)
    ensures LiveInv(c, n, data, workers, d, Advanced(c, l, d))
  {
    hide EngineOk, WorkOk, Next, Run;
    MovedKeeps(n, data, workers, d, l, d, Pop);
    AdvanceWork(c, l, d);
  }

  /** A finished drain is one more drain of the engine's run. */
  lemma EngineFinishes(c: E.Config, e: E.Engine, inputs: seq<Input>, i: Input, p: Packed)
    requires EngineOk(c, e, inputs) && HEADER_SIZE <= p.offset <= |p.buf| == c.maxBatch
    requires p == Pack(c.maxItem, i.queue, e.buf) && p.rest == []
    ensures EngineOk(c, E.Conclude(c, e, p, i.env).engine, inputs + [i])
    ensures Drained(inputs + [i]) == Drained(inputs) + i.queue
  {
    assert (inputs + [i])[..|inputs|] == inputs;
    hide Pack, E.Drain, E.Conclude, E.Inv, Runs;
    RunsGrow(c, E.Start(c), [], inputs, i);
    DrainShape(c, e.(queue := i.queue), i.env);
    DrainConcludes(c, e, i.queue, p, i.env);
  }

  lemma FinishKeeps(c: E.Config, n: nat, data: seq<Item>, workers: nat, d: nat, l: Live, env: E.Env, delivered: bool)
    requires LiveInv(c, n, data, workers, d, l) && Enabled(c, l, d, Finish(env, delivered))
    ensures LiveInv(c, n, data, workers, d, Do(c, l, d, Finish(env, delivered)))
  {
    hide RingOk, EngineOk, Fill, E.Conclude, ItemsOf, Drained;
    EngineFinishes(c, l.engine, l.inputs, Input(l.work.taken, env, delivered), PackedOf(l.work));
  }

  lemma EngineShape(c: E.Config, e: E.Engine, inputs: seq<Input>)
    requires EngineOk(c, e, inputs)
    ensures |e.buf| == c.maxBatch && HEADER_SIZE <= c.maxBatch
  {
  }

  lemma BeginKeeps(c: E.Config, n: nat, data: seq<Item>, workers: nat, d: nat, l: Live)
    requires LiveInv(c, n, data, workers, d, l) && l.work.Resting?
    ensures LiveInv(c, n, data, workers, d, Do(c, l, d, BeginDrain))
  {
    hide RingOk, EngineOk, Fill, ItemsOf, Drained;
    assert |l.engine.buf| == c.maxBatch && HEADER_SIZE <= c.maxBatch by { EngineShape(c, l.engine, l.inputs); }
    FillRound(c.maxItem, [], l.engine.buf, HEADER_SIZE, []);
  }

  lemma StartLives(c: E.Config, n: nat, data: seq<Item>, workers: nat, d: nat)
    requires E.ValidConfig(c) && 2 <= n == |data| && d < workers
    ensures LiveInv(c, n, data, workers, d, Start(c, n, data, workers))
  {
    E.StartHolds(c);
    InitHolds(n, data, workers);
    assert ItemsOf([]) == [];
  }

  lemma {:induction false} RunLives(c: E.Config, n: nat, data: seq<Item>, workers: nat, d: nat, acts: seq<Act>)
    requires E.ValidConfig(c) && 2 <= n == |data| && d < workers
    ensures LiveInv(c, n, data, workers, d, After(c, Start(c, n, data, workers), d, acts))
  {
    hide LiveInv, Advanced, Moved, E.Conclude;
    if acts == [] {
      StartLives(c, n, data, workers, d);
    } else {
      var before, a := acts[..|acts| - 1], acts[|acts| - 1];
      RunLives(c, n, data, workers, d, before);
      var l := After(c, Start(c, n, data, workers), d, before);
      if Enabled(c, l, d, a) {
        match a
        case Other(who, op) => OtherKeeps(c, n, data, workers, d, l, who, op);
        case BeginDrain => BeginKeeps(c, n, data, workers, d, l);
        case Advance => AdvanceKeeps(c, n, data, workers, d, l);
        case Finish(env, delivered) => FinishKeeps(c, n, data, workers, d, l, env, delivered);
      }
    }
  }

  // ------------------------------------------------------------------------------------------
  // What every concurrent run guarantees

  /** The items of the drain under way, and of the pop that holds a slot. */
  function Current(l: Live, d: nat): seq<Item> {
    (if l.work.Filling? then l.work.taken else [])
    + (if d < |l.sys.ring.threads| && l.sys.ring.threads[d].PopStore? then [l.sys.ring.threads[d].item] else [])
  }

  /**
   Under every interleaving of producers, evictors and the drain goroutine: the ring goes through a
   run of the ring, the engine through a run of the engine, and the queues that the engine's
   drains consume are, end to end, the items read from the ring in claim order without the evicted
   ones.
   */
  lemma EveryRunIsBoth(c: E.Config, n: nat, data: seq<Item>, workers: nat, d: nat, acts: seq<Act>)
    requires E.ValidConfig(c) && 2 <= n == |data| && d < workers
    ensures E.Inv(c, E.Start(c), [])
    ensures
      var l := After(c, Start(c, n, data, workers), d, acts);
      var s := Run(Init(n, data, workers), l.sched);
      && l.sys == s && SoleDrainer(l.sched, d) && l.engine == Runs(c, E.Start(c), [], l.inputs).engine
      && ItemsOf(s.log.out) == Drained(l.inputs) + Current(l, d)
      && Ascending(s.log.out)
      && |s.log.claims| == |s.log.fates| == s.ring.tail && s.ring.head <= s.ring.tail
      && (forall i | 0 <= i < |s.log.out| ::
            s.log.out[i].pos < s.ring.head && s.log.out[i].item == s.log.claims[s.log.out[i].pos].item)
      && (forall p: nat | p < s.ring.head :: Served(s, d, p))
  {
    hide Run, Runs, E.Inv;
    RunLives(c, n, data, workers, d, acts);
    var l := After(c, Start(c, n, data, workers), d, acts);
    SoleDrainerIsFifo(n, data, workers, d, l.sched);
    var items, taken := Drained(l.inputs), if l.work.Filling? then l.work.taken else [];
    assert Current(l, d) == taken + (Current(l, d)[|taken|..]);
  }

  lemma {:induction false} KeptCounts<T>(claims: seq<Claim<T>>, fates: seq<Fate>, k: nat)
    requires k <= |claims| && k <= |fates|
    ensures |Kept(claims, fates, k)| == Tally(fates[..k], IsConsumed)
  {
    if k > 0 {
      KeptCounts(claims, fates, k - 1);
      assert fates[..k][..k - 1] == fates[..k - 1];
    }
  }

  /**
   All three accounts at once: whenever no call is in flight and no drain is under way, every push
   was dropped or claimed a position, every position past the head was evicted or dequeued by a
   drain, and every item so dequeued was flushed, truncated or lost with its batch. At any time
   the flushed items are the counts in the frames reported delivered, the truncated ones the
   truncating items, and the lost ones the parts of the other drains.
   */
  lemma Conservation(c: E.Config, n: nat, data: seq<Item>, workers: nat, d: nat, acts: seq<Act>)
    requires E.ValidConfig(c) && 2 <= n == |data| && d < workers
    ensures E.Inv(c, E.Start(c), [])
    ensures
      var l := After(c, Start(c, n, data, workers), d, acts);
      var t := Runs(c, E.Start(c), [], l.inputs);
      && l.engine.stats.items == TrafficOf(t.hops).items
      && l.engine.stats.truncated == GoneOf(t.drains).truncated && l.engine.lost == GoneOf(t.drains).lost
    ensures
      var l := After(c, Start(c, n, data, workers), d, acts);
      l.work.Resting? && (forall t | 0 <= t < |l.sys.ring.threads| :: l.sys.ring.threads[t].Idle?) ==>
        && l.sys.log.calls == l.sys.ring.dropped + l.sys.ring.tail
        && l.sys.ring.head == l.sys.ring.evicted + l.engine.popped
        && l.engine.popped == l.engine.stats.items + l.engine.stats.truncated + l.engine.lost
  {
    hide Run, Runs;
    RunLives(c, n, data, workers, d, acts);
    var l := After(c, Start(c, n, data, workers), d, acts);
    RingProgress.Conservation(n, data, workers, l.sched);
    RunsKeep(c, E.Start(c), [], l.inputs);
    RunsCount(c, E.Start(c), [], l.inputs);
    KeptCounts(l.sys.log.claims, l.sys.log.fates, l.sys.ring.tail);
    assert l.sys.log.fates[..l.sys.ring.tail] == l.sys.log.fates;
  }

  /** A packed batch p of the items q: its parts are theirs, and its frame decodes to the parts. */
  ghost predicate HoldsItems(c: E.Config, e: E.Engine, q: seq<Item>, p: Packed, env: E.Env) {
    && E.WellFormed(c, e) && HEADER_SIZE <= p.offset <= |p.buf| == c.maxBatch
    && |p.parts| + p.truncated == |q|
    && (forall i | 0 <= i < |p.parts| :: PartOk(q, e.buf[HEADER_SIZE..], i, p.parts[i]))
    && var ev := E.Conclude(c, e, p, env).event;
    !ev.Quiet? ==> Decode(ev.raw).Ok? && Decode(ev.raw).value.body == Concat(p.parts)
  }

  lemma BatchHoldsItems(c: E.Config, e: E.Engine, inputs: seq<Input>, q: seq<Item>, p: Packed, env: E.Env)
    requires EngineOk(c, e, inputs) && p == Pack(c.maxItem, q, e.buf) && p.rest == []
    ensures HoldsItems(c, e, q, p, env)
  {
    var e1, last := e.(queue := q), Runs(c, E.Start(c), [], inputs).last;
    RunsKeep(c, E.Start(c), [], inputs);
    hide E.Inv, Runs, Pack, E.Drain, E.Conclude, Decode, Sound, PartOk;
    InvQueue(c, e, last, q);
    PackIsSafe(c.maxItem, q, e.buf);
    PackHoldsItems(c.maxItem, q, e.buf);
    E.DrainEmits(c, e1, env, last);
    DrainConcludes(c, e, q, p, env);
  }

  /** The queue matters to a drain only through what is packed. */
  lemma DrainConcludes(c: E.Config, e: E.Engine, q: seq<Item>, p: Packed, env: E.Env)
    requires E.WellFormed(c, e) && p == Pack(c.maxItem, q, e.buf)
    ensures HEADER_SIZE <= p.offset <= |p.buf| == c.maxBatch
    ensures E.Drain(c, e.(queue := q), env) == E.Conclude(c, e, p, env)
  {
    hide Pack, E.Flush;
    PackIsSafe(c.maxItem, q, e.buf);
    assert E.AfterPack(e.(queue := q), p) == E.AfterPack(e, p);
  }

  /**
   The frame of a drain, under every interleaving: it decodes to the parts in order, and the i-th
   part is what the i-th of the items that this drain read from the ring marshalled.
   */
  lemma FrameInClaimOrder(c: E.Config, n: nat, data: seq<Item>, workers: nat, d: nat, acts: seq<Act>, env: E.Env)
    requires E.ValidConfig(c) && 2 <= n == |data| && d < workers
    requires var l := After(c, Start(c, n, data, workers), d, acts); l.work.Filling? && l.work.stopped
    ensures
      var l := After(c, Start(c, n, data, workers), d, acts);
      && |l.sys.log.out| == |Drained(l.inputs)| + |l.work.taken|
      && l.work.taken == ItemsOf(l.sys.log.out)[|Drained(l.inputs)|..]
      && HoldsItems(c, l.engine, l.work.taken, PackedOf(l.work), env)
  {
    hide RingOk, EngineOk, HoldsItems, Fill, MarshalAt, Written, Do, After;
    RunLives(c, n, data, workers, d, acts);
    var l := After(c, Start(c, n, data, workers), d, acts);
    BatchHoldsItems(c, l.engine, l.inputs, l.work.taken, PackedOf(l.work), env);
  }

  /** A reason for a filling drain to stop in this state. */
  ghost predicate Reason(c: E.Config, l: Live, d: nat)
    requires d < |l.sys.ring.threads| && l.work.Filling?
    requires l.sys.ring.head <= l.sys.ring.tail == |l.sys.log.claims| == |l.sys.log.fates|
  {
    var th := l.sys.ring.threads[d];
    || |l.work.parts| == 65535
    || c.maxBatch - l.work.offset < c.maxItem
    || (th.PopStore? && l.work.offset <= |l.work.base| && Truncates(th.item, l.work.base[l.work.offset..]))
    || (th.PopLoadSeq? && (Queue(l.sys) == [] || l.sys.log.fates[l.sys.ring.head].Writing?))
  }

  /**
   Why a drain stops taking items, under every interleaving: its batch holds 65535, too little space
   is left, the last item was truncated, or nothing was published at the head when it looked.
   */
  lemma StopsBecause(c: E.Config, n: nat, data: seq<Item>, workers: nat, d: nat, acts: seq<Act>)
    requires E.ValidConfig(c) && 2 <= n == |data| && d < workers
    ensures
      var l := After(c, Start(c, n, data, workers), d, acts);
      var l' := Do(c, l, d, Advance);
      && d < |l.sys.ring.threads| && l.sys.ring.head <= l.sys.ring.tail == |l.sys.log.claims| == |l.sys.log.fates|
      && (l.work.Filling? && !l.work.stopped && l'.work.Filling? && l'.work.stopped ==> Reason(c, l, d))
  {
    hide Run, Runs, EngineOk, Do, After;
    RunLives(c, n, data, workers, d, acts);
    var l := After(c, Start(c, n, data, workers), d, acts);
    StopReason(c, l, d);
  }

  lemma StopReason(c: E.Config, l: Live, d: nat)
    requires Inv(l.sys) && d < |l.sys.ring.threads| && WorkOk(c, l, l.sys.ring.threads[d])
    ensures
      var l' := Do(c, l, d, Advance);
      l.work.Filling? && !l.work.stopped && l'.work.Filling? && l'.work.stopped ==> Reason(c, l, d)
  {
    var th := l.sys.ring.threads[d];
    if l.work.Filling? && Popping(th) && !th.PopStore? { PopReturnsIff(l.sys, d, Pop); }
    hide Next, Fill, ItemsOf, Drained, MarshalAt;
    if l.work.Filling? { assert |l.work.parts| <= MAX_COUNT by { FillCount(c, l); } }
  }

  lemma FillCount(c: E.Config, l: Live)
    requires l.work.Filling? && exists th :: WorkOk(c, l, th)
    ensures |l.work.parts| <= MAX_COUNT
  {
    hide Fill, ItemsOf, Drained, MarshalAt;
    PackIsSafe(c.maxItem, l.work.taken, l.engine.buf);
  }

  function Others(sched: seq<Move<Item>>): (acts: seq<Act>)
    ensures |acts| == |sched| && forall i | 0 <= i < |sched| :: acts[i] == Other(sched[i].who, sched[i].op)
  {
    seq(|sched|, i requires 0 <= i < |sched| => Other(sched[i].who, sched[i].op))
  }

  /** Whatever the drain goroutine is doing, the other threads can take any steps at all. */
  lemma {:induction false} OthersAreFree(c: E.Config, l: Live, d: nat, sched: seq<Move<Item>>)
    requires WellFormed(l.sys.ring)
    requires forall i | 0 <= i < |sched| :: sched[i].who < |l.sys.ring.threads| && sched[i].who != d && !sched[i].op.Pop?
    ensures
      var l' := After(c, l, d, Others(sched));
      l'.sys == Run(l.sys, sched) && l'.work == l.work && l'.engine == l.engine && l'.inputs == l.inputs
  {
    if sched != [] {
      var k := |sched| - 1;
      var before, m := sched[..k], sched[k];
      OthersAreFree(c, l, d, before);
      RunFrame(l.sys, before);
      RunAppend(l.sys, before, [m]);
      assert sched == before + [m] && [m][1..] == [];
      assert Run(Run(l.sys, before), [m]) == Next(Run(l.sys, before), m.who, m.op);
      assert Others(sched)[..k] == Others(before);
      hide Next, Run;
    }
  }
}
