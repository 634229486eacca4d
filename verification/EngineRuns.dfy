/**
 Every run of drains: the queue may be anything at each drain (producers and evictors run in
 between), and the environment decides compression, the sink's answer and, separately, whether
 the payload reaches the receiver.
 */
module EngineRuns {
  import opened Bytes
  import opened Words
  import opened Codec
  import opened DeltaStream
  import opened Packing
  import opened Engine

  datatype Input = Input(queue: seq<Item>, env: Env, delivered: bool)

  function DrainOn(c: Config, e: Engine, i: Input): Drained
    requires WellFormed(c, e)
  {
    Drain(c, e.(queue := i.queue), i.env)
  }

  /** Facts of one attempted flush. */
  datatype Hop = Hop(raw: seq<bv8>, payload: seq<bv8>, delivered: bool, ok: bool)

  function HopOf(ev: Event, i: Input): seq<Hop> {
    if ev.Sent? then [Hop(ev.raw, ev.payload, i.delivered, ev.ok)] else []
  }

  /** Facts of one drain: what it packed and what became of it. */
  datatype Fact = Fact(packed: Packed, event: Event)

  datatype Trace = Trace(engine: Engine, last: seq<bv8>, hops: seq<Hop>, drains: seq<Fact>)

  /** A run of drains from an engine whose last delivered frame is `last`. */
  ghost function Runs(c: Config, e: Engine, last: seq<bv8>, inputs: seq<Input>): Trace
    requires Inv(c, e, last)
    decreases |inputs|
  {
    if inputs == [] then Trace(e, last, [], [])
    else
      var d := DrainOn(c, e, inputs[0]);
      DrainKeeps(c, e.(queue := inputs[0].queue), inputs[0].env, last);
      var t := Runs(c, d.engine, LastAfter(c, last, d.event), inputs[1..]);
      t.(hops := HopOf(d.event, inputs[0]) + t.hops,
         drains := [Fact(Pack(c.maxItem, inputs[0].queue, e.buf), d.event)] + t.drains)
  }

  /**
   After every run: the baseline is the last successfully flushed raw frame, zero-extended; the
   items dequeued are the items flushed, truncated or lost; and the keyframe counter is the
   number of successful flushes modulo the interval.
   */
  lemma {:induction false} RunsKeep(c: Config, e: Engine, last: seq<bv8>, inputs: seq<Input>)
    requires Inv(c, e, last)
    ensures
      var t := Runs(c, e, last, inputs);
      && |t.last| <= c.maxBatch && t.engine.prev == Fit(t.last, c.maxBatch)
      && t.engine.popped == t.engine.stats.items + t.engine.stats.truncated + t.engine.lost
      && (c.delta && c.interval > 0 ==> t.engine.keyN == t.engine.stats.batches % c.interval)
      && Inv(c, t.engine, t.last)
    decreases |inputs|
  {
    if inputs != [] {
      var d := DrainOn(c, e, inputs[0]);
      DrainKeeps(c, e.(queue := inputs[0].queue), inputs[0].env, last);
      RunsKeep(c, d.engine, LastAfter(c, last, d.event), inputs[1..]);
    }
  }

  lemma FlushCounts(c: Config, e: Engine, p: Packed, env: Env)
    requires WellFormed(c, e) && HEADER_SIZE <= p.offset <= |p.buf| == c.maxBatch
    ensures
      var d := Flush(c, e, p, env);
      var ok, sent := d.event.Sent? && d.event.ok, d.event.Sent?;
      && d.engine.stats.batches == e.stats.batches + (if ok then 1 else 0)
      && d.engine.stats.bytes == e.stats.bytes + (if ok then |d.event.payload| else 0)
      && d.engine.stats.errors == e.stats.errors + (if sent && !ok then 1 else 0)
      && d.engine.stats.items == e.stats.items + (if ok then |p.parts| else 0)
      && d.engine.lost == e.lost + (if ok then 0 else |p.parts|) && d.engine.stats.truncated == e.stats.truncated
      && d.engine.queue == e.queue && d.engine.popped == e.popped && WellFormed(c, d.engine)
      && d.engine.id == NextId(e.id) && !d.event.Quiet?
  {
    hide RawOf, PayloadOf, NextId, Hand;
    var raw := RawOf(c, e, p);
    var e1 := e.(id := NextId(e.id), buf := raw + p.buf[p.offset..]);
    match env.comp
    case Failed =>
    case Off => HandCounts(c, e1, |p.parts|, raw, PayloadOf(c, e, raw), env.ok);
    case Compressed(bytes) => HandCounts(c, e1, |p.parts|, raw, bytes, env.ok);
  }

  lemma HandCounts(c: Config, e: Engine, n: nat, raw: seq<bv8>, payload: seq<bv8>, ok: bool)
    requires WellFormed(c, e) && |raw| <= c.maxBatch
    ensures
      var d := Hand(c, e, n, raw, payload, ok);
      && d.event == Sent(raw, payload, ok)
      && d.engine.stats.batches == e.stats.batches + (if ok then 1 else 0)
      && d.engine.stats.bytes == e.stats.bytes + (if ok then |payload| else 0)
      && d.engine.stats.errors == e.stats.errors + (if ok then 0 else 1)
      && d.engine.stats.items == e.stats.items + (if ok then n else 0)
      && d.engine.lost == e.lost + (if ok then 0 else n) && d.engine.stats.truncated == e.stats.truncated
      && d.engine.queue == e.queue && d.engine.popped == e.popped && WellFormed(c, d.engine)
      && d.engine.id == e.id
  {
    hide Rebase;
  }

  // ------------------------------------------------------------------------------------------
  // The delta stream of a run

  /** Each payload is the frame encoded against the last frame reported as flushed. */
  ghost predicate Chained(hops: seq<Hop>, last: seq<bv8>)
    decreases |hops|
  {
    hops == [] ||
    (&& Sound(hops[0].raw)
     && hops[0].payload == Encode(hops[0].raw, last)
     && Chained(hops[1..], if hops[0].ok then hops[0].raw else last))
  }

  predicate Uncompressed(inputs: seq<Input>) {
    forall i | 0 <= i < |inputs| :: inputs[i].env.comp.Off?
  }

  lemma InvQueue(c: Config, e: Engine, last: seq<bv8>, queue: seq<Item>)
    requires Inv(c, e, last)
    ensures WellFormed(c, e) && Inv(c, e.(queue := queue), last)
  {
    hide Sound, Fit;
  }

  lemma {:induction false} RunsChain(c: Config, e: Engine, last: seq<bv8>, inputs: seq<Input>)
    requires Inv(c, e, last) && c.delta && Uncompressed(inputs)
    ensures Chained(Runs(c, e, last, inputs).hops, last)
    decreases |inputs|
  {
    hide Inv, Drain, Encode, Sound, FrameOk;
    if inputs != [] {
      var i := inputs[0];
      var e1 := e.(queue := i.queue);
      InvQueue(c, e, last, i.queue);
      DrainEmits(c, e1, i.env, last);
      DrainIsSound(c, e1, i.env, last);
      DrainKeeps(c, e1, i.env, last);
      var d := Drain(c, e1, i.env);
      var last' := LastAfter(c, last, d.event);
      RunsChain(c, d.engine, last', inputs[1..]);
      var t := Runs(c, d.engine, last', inputs[1..]);
      assert Runs(c, e, last, inputs).hops == HopOf(d.event, i) + t.hops;
      if d.event.Sent? {
        assert (HopOf(d.event, i) + t.hops)[1..] == t.hops;
      } else {
        assert HopOf(d.event, i) + t.hops == t.hops;
      }
    }
  }

  lemma DrainIsSound(c: Config, e: Engine, env: Env, last: seq<bv8>)
    requires Inv(c, e, last)
    ensures
      var ev := Drain(c, e, env).event;
      ev.Sent? ==> Sound(ev.raw) && (c.interval == 0 ==> !TagFlag(TagOf(ev.raw)))
  {
    hide Inv, Drain, Sound, TagFlag, TagOf, Decode;
    DrainEmits(c, e, env, last);
  }

  ghost predicate Plain(hops: seq<Hop>) {
    forall i | 0 <= i < |hops| :: Sound(hops[i].raw) && !TagFlag(TagOf(hops[i].raw))
  }

  lemma {:induction false} RunsPlain(c: Config, e: Engine, last: seq<bv8>, inputs: seq<Input>)
    requires Inv(c, e, last) && c.interval == 0
    ensures Plain(Runs(c, e, last, inputs).hops)
    decreases |inputs|
  {
    hide Inv, Drain, Sound, TagFlag, TagOf;
    if inputs != [] {
      var i := inputs[0];
      var e1 := e.(queue := i.queue);
      InvQueue(c, e, last, i.queue);
      DrainIsSound(c, e1, i.env, last);
      DrainKeeps(c, e1, i.env, last);
      var d := Drain(c, e1, i.env);
      RunsPlain(c, d.engine, LastAfter(c, last, d.event), inputs[1..]);
    }
  }

  function AttemptsOf(hops: seq<Hop>): (atts: seq<Attempt>)
    ensures |atts| == |hops|
    ensures forall i | 0 <= i < |hops| :: atts[i] == Attempt(hops[i].raw, hops[i].delivered, hops[i].ok)
  {
    seq(|hops|, i requires 0 <= i < |hops| => Attempt(hops[i].raw, hops[i].delivered, hops[i].ok))
  }

  /** The receiver fed with the payloads that arrive. */
  function ReceivedAll(hops: seq<Hop>, prev: seq<bv8>): seq<Result<Codec.Received>>
    decreases |hops|
  {
    if hops == [] then []
    else if hops[0].delivered then
      var r := Receive(prev, hops[0].payload);
      [r.result] + ReceivedAll(hops[1..], r.prev)
    else
      ReceivedAll(hops[1..], prev)
  }

  lemma {:induction false} ChainedIsSound(hops: seq<Hop>, last: seq<bv8>)
    requires Chained(hops, last)
    ensures AllSound(AttemptsOf(hops))
    decreases |hops|
  {
    hide Sound, Encode;
    if hops != [] {
      var last' := if hops[0].ok then hops[0].raw else last;
      ChainedIsSound(hops[1..], last');
      var atts, rest := AttemptsOf(hops), AttemptsOf(hops[1..]);
      forall i | 0 <= i < |atts| ensures Sound(atts[i].raw) {
        if i > 0 { assert atts[i] == rest[i - 1]; }
      }
    }
  }

  /** What arrives is what the stream model says arrives. */
  lemma {:induction false} ReceivedIsOutputs(hops: seq<Hop>, last: seq<bv8>, prev: seq<bv8>)
    requires Chained(hops, last)
    ensures AllSound(AttemptsOf(hops))
    ensures ReceivedAll(hops, prev) == Outputs(AttemptsOf(hops), last, prev)
    decreases |hops|
  {
    hide Sound, Encode, Receive;
    ChainedIsSound(hops, last);
    if hops != [] {
      var atts := AttemptsOf(hops);
      var last' := if hops[0].ok then hops[0].raw else last;
      assert atts[1..] == AttemptsOf(hops[1..]);
      ReceivedIsOutputs(hops[1..], last', if hops[0].delivered then Receive(prev, hops[0].payload).prev else prev);
    }
  }

  /** A frame reaches the receiver exactly when the sink reported success. */
  predicate Reliable(inputs: seq<Input>) {
    forall i | 0 <= i < |inputs| :: inputs[i].delivered == inputs[i].env.ok
  }

  ghost predicate FaithfulHops(hops: seq<Hop>) {
    forall i | 0 <= i < |hops| :: hops[i].delivered == hops[i].ok
  }

  lemma {:induction false} ReliableIsFaithful(c: Config, e: Engine, last: seq<bv8>, inputs: seq<Input>)
    requires Inv(c, e, last) && Reliable(inputs)
    ensures FaithfulHops(Runs(c, e, last, inputs).hops)
    decreases |inputs|
  {
    hide Inv, Drain, FrameOk, Encode;
    if inputs != [] {
      var i := inputs[0];
      var e1 := e.(queue := i.queue);
      InvQueue(c, e, last, i.queue);
      DrainEmits(c, e1, i.env, last);
      DrainKeeps(c, e1, i.env, last);
      var d := Drain(c, e1, i.env);
      ReliableIsFaithful(c, d.engine, LastAfter(c, last, d.event), inputs[1..]);
    }
  }

  /**
   The stream of the whole engine, with nothing assumed about the sink: over every run of drains,
   from any state and any receiver baseline, the receiver returns exactly the raw frames of the
   payloads that arrive, in order, if and only if the two sides stay in step.
   */
  lemma EngineStreamIff(c: Config, e: Engine, last: seq<bv8>, prev: seq<bv8>, inputs: seq<Input>)
    requires Inv(c, e, last) && c.delta && Uncompressed(inputs)
    ensures
      var hops := Runs(c, e, last, inputs).hops;
      AllSound(AttemptsOf(hops)) &&
      (ReceivedAll(hops, prev) == RawFrames(AttemptsOf(hops)) <==> InStep(AttemptsOf(hops), last, prev))
  {
    hide Inv, Runs, ReceivedAll, RawFrames, InStep, Sound, Chained;
    var hops := Runs(c, e, last, inputs).hops;
    RunsChain(c, e, last, inputs);
    ReceivedIsOutputs(hops, last, prev);
    AnyStreamExactIff(AttemptsOf(hops), last, prev);
  }

  /** Over every run whose attempts arrive exactly when they were reported successful. */
  lemma FaithfulRoundTrip(c: Config, inputs: seq<Input>)
    requires ValidConfig(c) && c.delta && Uncompressed(inputs)
    requires Inv(c, Start(c), []) && FaithfulHops(Runs(c, Start(c), [], inputs).hops)
    ensures
      var hops := Runs(c, Start(c), [], inputs).hops;
      AllSound(AttemptsOf(hops)) &&
      (ReceivedAll(hops, []) == RawFrames(AttemptsOf(hops)) <==> NoMisread(AttemptsOf(hops), []))
  {
    hide Inv, Runs, ReceivedAll, RawFrames, NoMisread, InStep, Sound;
    EngineStreamIff(c, Start(c), [], [], inputs);
    FaithfulInStep(AttemptsOf(Runs(c, Start(c), [], inputs).hops), []);
  }

  /**
   The round trip of the whole engine: over every run of drains with any queues, any Marshal and
   any mix of failed and successful flushes, if a frame arrives exactly when Flush returns nil,
   the receiver returns exactly the sender's raw frames in order if and only if no delivered
   delta frame meets the misread condition.
   */
  lemma EngineRoundTrip(c: Config, inputs: seq<Input>)
    requires ValidConfig(c) && c.delta && Uncompressed(inputs) && Reliable(inputs)
    ensures Inv(c, Start(c), [])
    ensures
      var hops := Runs(c, Start(c), [], inputs).hops;
      AllSound(AttemptsOf(hops)) &&
      (ReceivedAll(hops, []) == RawFrames(AttemptsOf(hops)) <==> NoMisread(AttemptsOf(hops), []))
  {
    hide Inv, Runs, ReceivedAll, RawFrames, NoMisread, Sound;
    StartHolds(c);
    ReliableIsFaithful(c, Start(c), [], inputs);
    FaithfulRoundTrip(c, inputs);
  }

  /** With KeyframeInterval 0 the round trip holds without any condition. */
  lemma EngineRoundTripPlain(c: Config, inputs: seq<Input>)
    requires ValidConfig(c) && c.delta && c.interval == 0 && Uncompressed(inputs) && Reliable(inputs)
    ensures Inv(c, Start(c), [])
    ensures
      var hops := Runs(c, Start(c), [], inputs).hops;
      AllSound(AttemptsOf(hops)) && ReceivedAll(hops, []) == RawFrames(AttemptsOf(hops))
  {
    hide Inv, Runs, ReceivedAll, RawFrames, NoMisread, Sound, TagFlag, TagOf;
    EngineRoundTrip(c, inputs);
    RunsPlain(c, Start(c), [], inputs);
    NoKeyframesNoMisread(AttemptsOf(Runs(c, Start(c), [], inputs).hops), []);
  }

  /**
   Resynchronisation of the engine: whatever baseline the receiver holds, a keyframe drain that is
   delivered and reported successful is received as it is, and from there on every reliable run
   is returned exactly if and only if it has no misread frame.
   */
  lemma EngineResynchronises(c: Config, e: Engine, last: seq<bv8>, prev: seq<bv8>, i: Input, inputs: seq<Input>)
    requires Inv(c, e, last) && c.delta && c.interval > 0 && e.keyN == 0
    requires i.env == Env(Off, true) && DrainOn(c, e, i).event.Sent?
    requires Uncompressed(inputs) && Reliable(inputs)
    ensures
      var d := DrainOn(c, e, i);
      && Sound(d.event.raw) && Receive(prev, d.event.payload) == Perfect(d.event.raw)
      && Inv(c, d.engine, d.event.raw)
      && var hops := Runs(c, d.engine, d.event.raw, inputs).hops;
         AllSound(AttemptsOf(hops)) &&
         (ReceivedAll(hops, d.event.raw) == RawFrames(AttemptsOf(hops)) <==> NoMisread(AttemptsOf(hops), d.event.raw))
  {
    hide Drain, Runs, ReceivedAll, RawFrames, NoMisread, Sound, Chained, Receive, TagFlag, TagOf, Encode, Decode, Fit;
    var e1 := e.(queue := i.queue);
    InvQueue(c, e, last, i.queue);
    var d := Drain(c, e1, i.env);
    DrainEmits(c, e1, i.env, last);
    DrainKeeps(c, e1, i.env, last);
    KeyframeArrives(d.event.raw, last, prev);
    var hops := Runs(c, d.engine, d.event.raw, inputs).hops;
    RunsChain(c, d.engine, d.event.raw, inputs);
    ReceivedIsOutputs(hops, d.event.raw, d.event.raw);
    ReliableIsFaithful(c, d.engine, d.event.raw, inputs);
    StreamExactIff(AttemptsOf(hops), d.event.raw);
  }

  // ------------------------------------------------------------------------------------------
  // Draining with the producers stopped

  /** The queue after k drains with no pushes in between. */
  function QueueAfter(c: Config, e: Engine, envs: seq<Env>): seq<Item>
    requires WellFormed(c, e)
    decreases |envs|
  {
    if envs == [] then e.queue
    else
      var e' := Drain(c, e, envs[0]).engine;
      DrainShape(c, e, envs[0]);
      QueueAfter(c, e', envs[1..])
  }

  lemma DrainShape(c: Config, e: Engine, env: Env)
    requires WellFormed(c, e)
    ensures WellFormed(c, Drain(c, e, env).engine)
    ensures Drain(c, e, env).engine.queue == Pack(c.maxItem, e.queue, e.buf).rest
    ensures Drain(c, e, env).engine.popped == e.popped + |e.queue| - |Pack(c.maxItem, e.queue, e.buf).rest|
  {
    hide Pack, Flush;
    var p := Pack(c.maxItem, e.queue, e.buf);
    PackIsSafe(c.maxItem, e.queue, e.buf);
    if p.parts != [] && c.sink { FlushCounts(c, AfterPack(e, p), p, env); }
  }

  /** Each drain takes a non-empty prefix in order, so at most |queue| drains empty the ring. */
  lemma {:induction false} DrainsEmptyTheQueue(c: Config, e: Engine, envs: seq<Env>)
    requires WellFormed(c, e)
    ensures |QueueAfter(c, e, envs)| <= |e.queue|
    ensures QueueAfter(c, e, envs) == e.queue[|e.queue| - |QueueAfter(c, e, envs)|..]
    ensures |QueueAfter(c, e, envs)| == 0 || |QueueAfter(c, e, envs)| + |envs| <= |e.queue|
    decreases |envs|
  {
    hide Drain, Pack;
    if envs != [] {
      var e' := Drain(c, e, envs[0]).engine;
      DrainShape(c, e, envs[0]);
      PackIsSafe(c.maxItem, e.queue, e.buf);
      if e.queue != [] { PackMakesProgress(c.maxItem, e.queue, e.buf); }
      DrainsEmptyTheQueue(c, e', envs[1..]);
    }
  }

  /** finalDrain is one drain: it empties the ring if and only if the queue fits one batch. */
  lemma FinalDrainIff(c: Config, e: Engine, env: Env)
    requires WellFormed(c, e)
    ensures Drain(c, e, env).engine.queue == [] <==> Fits(c.maxItem, e.queue, e.buf[HEADER_SIZE..], 65535)
  {
    hide Drain, Pack;
    DrainShape(c, e, env);
    DrainEmptiesIff(c.maxItem, e.queue, e.buf);
  }
}
