/**
 The books of every run of drains: each counter against what the frames and the drains of the run
 say, and the sequence ids of all attempts.
 */
module EngineBooks {
  import opened Words
  import opened Crc32
  import opened Codec
  import opened Packing
  import opened Engine
  import opened EngineRuns

  // ------------------------------------------------------------------------------------------
  // Counters

  /** The item count that a frame carries. */
  function CountIn(raw: seq<bv8>): nat {
    if |raw| < HEADER_SIZE then 0 else Value16(HeaderOf(raw).count)
  }

  datatype Traffic = Traffic(batches: nat, items: nat, bytes: nat, errors: nat)

  /** What the attempts of a run amount to: successful ones by frame and payload, failed ones by number. */
  function TrafficOf(hops: seq<Hop>): Traffic
    decreases |hops|
  {
    if hops == [] then Traffic(0, 0, 0, 0)
    else
      var s := TrafficOf(hops[1..]);
      if hops[0].ok then
        s.(batches := s.batches + 1, items := s.items + CountIn(hops[0].raw), bytes := s.bytes + |hops[0].payload|)
      else s.(errors := s.errors + 1)
  }

  datatype Gone = Gone(truncated: nat, lost: nat)

  predicate Delivered(ev: Event) {
    ev.Sent? && ev.ok
  }

  /** What the drains of a run threw away: the truncating items, and the batches not delivered. */
  function GoneOf(drains: seq<Fact>): Gone
    decreases |drains|
  {
    if drains == [] then Gone(0, 0)
    else
      var g := GoneOf(drains[1..]);
      g.(truncated := g.truncated + drains[0].packed.truncated,
         lost := g.lost + if Delivered(drains[0].event) then 0 else |drains[0].packed.parts|)
  }

  lemma DrainCounts(c: Config, e: Engine, env: Env)
    requires WellFormed(c, e)
    ensures
      var d, p := Drain(c, e, env), Pack(c.maxItem, e.queue, e.buf);
      var ok, sent := Delivered(d.event), d.event.Sent?;
      && d.engine.stats.batches == e.stats.batches + (if ok then 1 else 0)
      && d.engine.stats.items == e.stats.items + (if ok then |p.parts| else 0)
      && d.engine.stats.bytes == e.stats.bytes + (if ok then |d.event.payload| else 0)
      && d.engine.stats.errors == e.stats.errors + (if sent && !ok then 1 else 0)
      && d.engine.stats.truncated == e.stats.truncated + p.truncated
      && d.engine.lost == e.lost + (if ok then 0 else |p.parts|)
  {
    hide Pack, Flush;
    var p := Pack(c.maxItem, e.queue, e.buf);
    PackIsSafe(c.maxItem, e.queue, e.buf);
    if p.parts != [] && c.sink { FlushCounts(c, AfterPack(e, p), p, env); }
  }

  /** The count in a frame is the number of parts packed. */
  lemma FrameCounts(c: Config, e: Engine, env: Env, last: seq<bv8>)
    requires Inv(c, e, last)
    ensures
      var ev := Drain(c, e, env).event;
      !ev.Quiet? ==> CountIn(ev.raw) == |Pack(c.maxItem, e.queue, e.buf).parts|
  {
    hide Inv, Drain, Pack, Sound, Checksum, Value16;
    DrainEmits(c, e, env, last);
  }

  /**
   Every counter over every run: batches, items, bytes and errors are those of the attempts, items
   by the counts in the frames that were reported delivered; truncated is the number of truncating
   items; lost is every part of every drain that was not delivered.
   */
  lemma {:induction false} RunsCount(c: Config, e: Engine, last: seq<bv8>, inputs: seq<Input>)
    requires Inv(c, e, last)
    ensures
      var t := Runs(c, e, last, inputs);
      var s, g := TrafficOf(t.hops), GoneOf(t.drains);
      && t.engine.stats.batches == e.stats.batches + s.batches
      && t.engine.stats.items == e.stats.items + s.items
      && t.engine.stats.bytes == e.stats.bytes + s.bytes
      && t.engine.stats.errors == e.stats.errors + s.errors
      && t.engine.stats.truncated == e.stats.truncated + g.truncated
      && t.engine.lost == e.lost + g.lost
      && s.batches + s.errors == |t.hops| && |t.drains| == |inputs|
    decreases |inputs|
  {
    hide Inv, Drain, Pack, CountIn;
    if inputs != [] {
      var i := inputs[0];
      var e1 := e.(queue := i.queue);
      InvQueue(c, e, last, i.queue);
      DrainKeeps(c, e1, i.env, last);
      DrainCounts(c, e1, i.env);
      FrameCounts(c, e1, i.env, last);
      var d := Drain(c, e1, i.env);
      var last' := LastAfter(c, last, d.event);
      RunsCount(c, d.engine, last', inputs[1..]);
      var t, t' := Runs(c, d.engine, last', inputs[1..]), Runs(c, e, last, inputs);
      assert t'.hops == HopOf(d.event, i) + t.hops;
      assert t'.drains[0].event == d.event && t'.drains[1..] == t.drains;
      if d.event.Sent? {
        assert t'.hops[1..] == t.hops;
      } else {
        assert t'.hops == t.hops;
      }
    }
  }

  // ------------------------------------------------------------------------------------------
  // Sequence ids

  /** One more, modulo 2^32. */
  function Up(id: bv32): bv32 {
    if id == 0xFFFF_FFFF then 0 else id + 1
  }

  lemma NextIsUp(id: bv32)
    ensures NextId(id) == Up(id)
  {
  }

  /** The id k attempts later. */
  function Later(id: bv32, k: nat): bv32 {
    if k == 0 then id else Up(Later(id, k - 1))
  }

  lemma {:induction false} LaterShift(id: bv32, k: nat)
    ensures Later(Up(id), k) == Later(id, k + 1)
  {
    hide Up;
    if k > 0 { LaterShift(id, k - 1); }
  }

  /** The ids in the frames of all attempts of a run, those that failed or were not sent included. */
  function IdsOf(drains: seq<Fact>): seq<bv32>
    decreases |drains|
  {
    if drains == [] then []
    else
      (if drains[0].event.Quiet? || |drains[0].event.raw| < HEADER_SIZE then [] else [HeaderOf(drains[0].event.raw).id])
      + IdsOf(drains[1..])
  }

  lemma DrainId(c: Config, e: Engine, env: Env, last: seq<bv8>)
    requires Inv(c, e, last)
    ensures
      var d := Drain(c, e, env);
      if d.event.Quiet? then d.engine.id == e.id
      else d.engine.id == Up(e.id) && HEADER_SIZE <= |d.event.raw| && HeaderOf(d.event.raw).id == Up(e.id)
  {
    FrameId(c, e, env, last);
    NextIsUp(e.id);
    hide Up, NextId, Inv, Pack, Flush, HeaderOf;
    var p := Pack(c.maxItem, e.queue, e.buf);
    PackIsSafe(c.maxItem, e.queue, e.buf);
    if p.parts != [] && c.sink { FlushCounts(c, AfterPack(e, p), p, env); }
  }

  lemma FrameId(c: Config, e: Engine, env: Env, last: seq<bv8>)
    requires Inv(c, e, last)
    ensures
      var ev := Drain(c, e, env).event;
      !ev.Quiet? ==> HEADER_SIZE <= |ev.raw| && HeaderOf(ev.raw).id == NextId(e.id)
  {
    hide Inv, Drain, Pack, Sound, Checksum, Value16, NextId;
    DrainEmits(c, e, env, last);
  }

  /** The attempts of a run carry the ids start + 1, start + 2 and so on, whatever becomes of them. */
  lemma {:induction false} RunsIds(c: Config, e: Engine, last: seq<bv8>, inputs: seq<Input>)
    requires Inv(c, e, last)
    ensures
      var t := Runs(c, e, last, inputs);
      var ids := IdsOf(t.drains);
      && t.engine.id == Later(e.id, |ids|)
      && forall k | 0 <= k < |ids| :: ids[k] == Later(e.id, k + 1)
    decreases |inputs|
  {
    hide Inv, Drain, Pack, HeaderOf, Up;
    if inputs != [] {
      var i := inputs[0];
      var e1 := e.(queue := i.queue);
      InvQueue(c, e, last, i.queue);
      DrainKeeps(c, e1, i.env, last);
      DrainId(c, e1, i.env, last);
      var d := Drain(c, e1, i.env);
      var last' := LastAfter(c, last, d.event);
      RunsIds(c, d.engine, last', inputs[1..]);
      var t, t' := Runs(c, d.engine, last', inputs[1..]), Runs(c, e, last, inputs);
      assert t'.drains[0].event == d.event && t'.drains[1..] == t.drains;
      var rest, ids := IdsOf(t.drains), IdsOf(t'.drains);
      if !d.event.Quiet? {
        assert ids == [Up(e.id)] + rest;
        LaterShift(e.id, |rest|);
        forall k | 0 <= k < |ids| ensures ids[k] == Later(e.id, k + 1) {
          if k == 0 { assert Later(e.id, 1) == Up(Later(e.id, 0)); } else { LaterShift(e.id, k); }
        }
      } else {
        assert ids == rest;
      }
    }
  }

  /**
   A new batcher: its attempts carry the ids 1, 2, 3 and so on, and its counters are those of its
   own attempts and drains.
   */
  lemma FromStart(c: Config, inputs: seq<Input>)
    requires ValidConfig(c)
    ensures Inv(c, Start(c), [])
    ensures
      var t := Runs(c, Start(c), [], inputs);
      var ids, s, g := IdsOf(t.drains), TrafficOf(t.hops), GoneOf(t.drains);
      && (forall k | 0 <= k < |ids| :: ids[k] == Later(0, k + 1))
      && t.engine.stats == Stats(g.truncated, s.batches, s.items, s.errors, s.bytes) && t.engine.lost == g.lost
  {
    StartHolds(c);
    hide Inv, Runs, IdsOf, TrafficOf, GoneOf, Later;
    RunsIds(c, Start(c), [], inputs);
    RunsCount(c, Start(c), [], inputs);
  }
}
