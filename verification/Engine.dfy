/**
 The drain and flush engine of batcher.go as a state machine on values: what one drainAndFlush
 does to the queue, the buffers, the delta baseline and the counters, and what holds over every
 run of drains.
 */
module Engine {
  import opened Laps
  import opened Bytes
  import opened Words
  import opened Codec
  import opened DeltaStream
  import opened Packing

  /** The settings that matter here; New guarantees ValidConfig. */
  datatype Config = Config(maxBatch: nat, maxItem: nat, delta: bool, interval: nat, sink: bool)

  predicate ValidConfig(c: Config) {
    0 < c.maxItem && HEADER_SIZE + c.maxItem <= c.maxBatch
  }

  /** The compressor's part in one drain: none, a failure, or the bytes it produced. */
  datatype Compression = Off | Failed | Compressed(bytes: seq<bv8>)

  /** The environment's choices during one drain. */
  datatype Env = Env(comp: Compression, ok: bool)

  datatype Stats = Stats(truncated: nat, batches: nat, items: nat, errors: nat, bytes: nat)

  /** `popped` and `lost` are history: items dequeued, and items of batches that were not delivered. */
  datatype Engine = Engine(
    queue: seq<Item>,
    buf: seq<bv8>,
    prev: seq<bv8>,
    prevOffset: nat,
    keyN: nat,
    id: bv32,
    stats: Stats,
    popped: nat,
    lost: nat)

  datatype Event = Quiet | Unsent(raw: seq<bv8>) | Sent(raw: seq<bv8>, payload: seq<bv8>, ok: bool)

  datatype Drained = Drained(engine: Engine, event: Event)

  function Start(c: Config): Engine {
    Engine([], Zeros(c.maxBatch), Zeros(c.maxBatch), 0, 0, 0, Stats(0, 0, 0, 0, 0), 0, 0)
  }

  predicate IsKeyframe(c: Config, e: Engine) {
    c.delta && c.interval > 0 && e.keyN == 0
  }

  /** The sequence id is a uint32 that wraps. */
  function NextId(id: bv32): bv32 {
    id + 1
  }

  /** The raw frame of a packed batch. */
  function RawOf(c: Config, e: Engine, p: Packed): (raw: seq<bv8>)
    requires HEADER_SIZE <= p.offset <= |p.buf|
    ensures |raw| == p.offset
  {
    RawFrame(NextId(e.id), Count16(|p.parts|), IsKeyframe(c, e), p.buf[HEADER_SIZE..p.offset])
  }

  /** What goes to the compressor or the sink. */
  function PayloadOf(c: Config, e: Engine, raw: seq<bv8>): seq<bv8>
    requires c.delta ==> |raw| <= |e.prev|
  {
    if !c.delta || IsKeyframe(c, e) then raw else Xor(raw, e.prev[..|raw|])
  }

  /** The baseline after a successful flush: copy the frame, clear only up to the previous offset. */
  function Rebase(prev: seq<bv8>, raw: seq<bv8>, prevOffset: nat): (p: seq<bv8>)
    requires |raw| <= |prev| && prevOffset <= |prev|
    ensures |p| == |prev|
  {
    if prevOffset > |raw| then raw + Zeros(prevOffset - |raw|) + prev[prevOffset..] else raw + prev[|raw|..]
  }

  function NextKey(c: Config, keyN: nat): nat {
    if c.interval == 0 then keyN else if keyN + 1 >= c.interval then 0 else keyN + 1
  }

  predicate WellFormed(c: Config, e: Engine) {
    |e.buf| == |e.prev| == c.maxBatch && e.prevOffset <= c.maxBatch && ValidConfig(c)
  }

  /** The state after packing: items are off the queue whatever happens next. */
  function AfterPack(e: Engine, p: Packed): Engine {
    e.(queue := p.rest, buf := p.buf, popped := e.popped + |p.parts| + p.truncated,
       stats := e.stats.(truncated := e.stats.truncated + p.truncated))
  }

  /** The batch is gone without delivery. */
  function Lose(e: Engine, n: nat): Engine {
    e.(lost := e.lost + n)
  }

  function Deliver(c: Config, e: Engine, n: nat, raw: seq<bv8>, size: nat): Engine
    requires c.delta ==> |raw| <= |e.prev| && e.prevOffset <= |e.prev|
  {
    var stats := e.stats.(batches := e.stats.batches + 1, items := e.stats.items + n, bytes := e.stats.bytes + size);
    if c.delta then
      e.(stats := stats, prev := Rebase(e.prev, raw, e.prevOffset), prevOffset := |raw|, keyN := NextKey(c, e.keyN))
    else
      e.(stats := stats)
  }

  /** The sink's answer to a payload. */
  function Hand(c: Config, e: Engine, n: nat, raw: seq<bv8>, payload: seq<bv8>, ok: bool): Drained
    requires c.delta ==> |raw| <= |e.prev| && e.prevOffset <= |e.prev|
  {
    Drained(if ok then Deliver(c, e, n, raw, |payload|)
            else Lose(e.(stats := e.stats.(errors := e.stats.errors + 1)), n),
            Sent(raw, payload, ok))
  }

  /** The flush of a packed batch: header, delta, compression, sink. */
  function Flush(c: Config, e: Engine, p: Packed, env: Env): Drained
    requires WellFormed(c, e) && HEADER_SIZE <= p.offset <= |p.buf| == c.maxBatch
  {
    var raw := RawOf(c, e, p);
    var payload := PayloadOf(c, e, raw);
    var e1 := e.(id := NextId(e.id), buf := raw + p.buf[p.offset..]);
    match env.comp
    case Failed => Drained(Lose(e1, |p.parts|), Unsent(raw))
    case Off => Hand(c, e1, |p.parts|, raw, payload, env.ok)
    case Compressed(bytes) => Hand(c, e1, |p.parts|, raw, bytes, env.ok)
  }

  /** What drainAndFlush does with the batch that its loop has packed. */
  function Conclude(c: Config, e: Engine, p: Packed, env: Env): Drained
    requires WellFormed(c, e) && HEADER_SIZE <= p.offset <= |p.buf| == c.maxBatch
  {
    var e1 := AfterPack(e, p);
    if p.parts == [] then Drained(e1, Quiet)
    else if !c.sink then Drained(Lose(e1, |p.parts|), Quiet)
    else Flush(c, e1, p, env)
  }

  /** drainAndFlush */
  function Drain(c: Config, e: Engine, env: Env): Drained
    requires WellFormed(c, e)
  {
    PackIsSafe(c.maxItem, e.queue, e.buf);
    Conclude(c, e, Pack(c.maxItem, e.queue, e.buf), env)
  }

  // ------------------------------------------------------------------------------------------
  // Invariants of one drain

  /**
   `last` is the last successfully flushed raw frame, or empty before the first; n items are in
   a batch under way.
   */
  ghost predicate InvWith(c: Config, e: Engine, last: seq<bv8>, n: nat) {
    && WellFormed(c, e)
    && |last| <= c.maxBatch && (last == [] || Sound(last))
    && e.prev == Fit(last, c.maxBatch) && (c.delta ==> e.prevOffset == |last|)
    && e.popped == e.stats.items + e.stats.truncated + e.lost + n
    && (if c.delta && c.interval > 0 then e.keyN == e.stats.batches % c.interval else e.keyN == 0)
  }

  ghost predicate Inv(c: Config, e: Engine, last: seq<bv8>) {
    InvWith(c, e, last, 0)
  }

  /** The last delivered frame after an event; only delta streams keep one. */
  function LastAfter(c: Config, last: seq<bv8>, ev: Event): seq<bv8> {
    if c.delta && ev.Sent? && ev.ok then ev.raw else last
  }

  lemma StartHolds(c: Config)
    requires ValidConfig(c)
    ensures Inv(c, Start(c), [])
  {
    assert Fit([], c.maxBatch) == Zeros(c.maxBatch);
  }

  /** Clearing up to the previous offset is enough: beyond it the baseline is zero already. */
  lemma RebaseIsFit(last: seq<bv8>, raw: seq<bv8>, n: nat)
    requires |last| <= n && |raw| <= n
    ensures Rebase(Fit(last, n), raw, |last|) == Fit(raw, n)
  {
  }

  lemma SuccessorMod(n: nat, r: nat, q: nat)
    requires r < n
    ensures (r + n * q + 1) % n == if r + 1 >= n then 0 else r + 1
  {
    LapsAgree(n, r + 1, q);
    assert r + 1 + n * q == r + n * q + 1;
    if r + 1 == n { SlotsAgree(n, 0); }
  }

  lemma {:induction false} NextKeyIsMod(interval: nat, batches: nat)
    requires 0 < interval
    ensures (if batches % interval + 1 >= interval then 0 else batches % interval + 1) == (batches + 1) % interval
  {
    SuccessorMod(interval, batches % interval, batches / interval);
    assert batches == batches % interval + interval * (batches / interval);
  }

  lemma DeliverKeeps(c: Config, e: Engine, n: nat, raw: seq<bv8>, size: nat, last: seq<bv8>)
    requires InvWith(c, e, last, n) && Sound(raw) && |raw| <= c.maxBatch
    ensures Inv(c, Deliver(c, e, n, raw, size), if c.delta then raw else last)
  {
    hide Sound, Rebase, Fit;
    RebaseIsFit(last, raw, c.maxBatch);
    if c.interval > 0 { NextKeyIsMod(c.interval, e.stats.batches); }
  }

  lemma HandKeeps(c: Config, e: Engine, n: nat, raw: seq<bv8>, payload: seq<bv8>, ok: bool, last: seq<bv8>)
    requires InvWith(c, e, last, n) && Sound(raw) && |raw| <= c.maxBatch
    ensures
      var d := Hand(c, e, n, raw, payload, ok);
      Inv(c, d.engine, LastAfter(c, last, d.event))
  {
    hide Sound, Deliver;
    if ok { DeliverKeeps(c, e, n, raw, |payload|, last); }
  }

  /** The frame that a packed batch becomes. */
  lemma RawOfParts(c: Config, e: Engine, p: Packed)
    requires HEADER_SIZE <= p.offset <= |p.buf|
    ensures
      var raw, body := RawOf(c, e, p), p.buf[HEADER_SIZE..p.offset];
      && Sound(raw) && (TagFlag(TagOf(raw)) <==> IsKeyframe(c, e))
      && Decode(raw) == Ok(Decoded(Header(NextId(e.id), Count16(|p.parts|), TagCrc(TagOf(raw)), IsKeyframe(c, e)), body))
  {
    hide NextId, Count16, RawFrame, TagFlag, TagOf, TagCrc, Sound;
    RawFrameParts(NextId(e.id), Count16(|p.parts|), IsKeyframe(c, e), p.buf[HEADER_SIZE..p.offset]);
    DecodeRawFrame(NextId(e.id), Count16(|p.parts|), IsKeyframe(c, e), p.buf[HEADER_SIZE..p.offset]);
  }

  lemma FlushKeeps(c: Config, e: Engine, p: Packed, env: Env, last: seq<bv8>)
    requires InvWith(c, e, last, |p.parts|) && HEADER_SIZE <= p.offset <= |p.buf| == c.maxBatch
    ensures
      var d := Flush(c, e, p, env);
      Inv(c, d.engine, LastAfter(c, last, d.event))
  {
    hide Sound, Hand, RawOf, PayloadOf, Fit, Decode, TagFlag, TagOf, TagCrc, NextId, Count16;
    var raw := RawOf(c, e, p);
    var e1 := e.(id := NextId(e.id), buf := raw + p.buf[p.offset..]);
    RawOfParts(c, e, p);
    match env.comp
    case Failed =>
    case Off => HandKeeps(c, e1, |p.parts|, raw, PayloadOf(c, e, raw), env.ok, last);
    case Compressed(bytes) => HandKeeps(c, e1, |p.parts|, raw, bytes, env.ok, last);
  }

  /** A drain keeps the invariant: exact baseline, conservation of items, keyframe cadence. */
  lemma DrainKeeps(c: Config, e: Engine, env: Env, last: seq<bv8>)
    requires Inv(c, e, last)
    ensures Inv(c, Drain(c, e, env).engine, LastAfter(c, last, Drain(c, e, env).event))
  {
    hide Sound, Flush, Pack, Fit;
    var p := Pack(c.maxItem, e.queue, e.buf);
    PackIsSafe(c.maxItem, e.queue, e.buf);
    if p.parts != [] && c.sink { FlushKeeps(c, AfterPack(e, p), p, env, last); }
  }

  lemma FitPrefix(s: seq<bv8>, n: nat, k: nat)
    requires k <= n
    ensures Fit(s, n)[..k] == Fit(s, k)
  {
  }

  /** The payload is the frame itself, or its delta against the last delivered frame. */
  lemma PayloadIsEncoded(c: Config, e: Engine, raw: seq<bv8>, last: seq<bv8>)
    requires HEADER_SIZE <= |raw| <= c.maxBatch == |e.prev| && e.prev == Fit(last, c.maxBatch)
    requires TagFlag(TagOf(raw)) <==> IsKeyframe(c, e)
    ensures PayloadOf(c, e, raw) == if c.delta then Encode(raw, last) else raw
  {
    hide TagFlag, TagOf, Fit, Xor;
    FitPrefix(last, c.maxBatch, |raw|);
  }

  /**
   A frame that a drain attempts: sound, flagged as a keyframe exactly when the number of
   successful flushes is a multiple of the interval, carrying between 1 and 65535 items and at
   least as many body bytes, and decoding to its sequence id, its count and the items' bytes.
   */
  ghost predicate FrameOk(c: Config, e: Engine, raw: seq<bv8>)
    requires WellFormed(c, e)
  {
    var p := Pack(c.maxItem, e.queue, e.buf);
    && HEADER_SIZE < |raw| <= c.maxBatch && Sound(raw)
    && (TagFlag(TagOf(raw)) <==> c.delta && c.interval > 0 && e.stats.batches % c.interval == 0)
    && 1 <= |p.parts| <= 65535 && |p.parts| <= |raw| - HEADER_SIZE
    && Decode(raw).Ok?
    && var d := Decode(raw).value;
       && d.header.id == NextId(e.id) && Value16(d.header.count) == |p.parts|
       && d.header.keyframe == TagFlag(TagOf(raw)) && d.body == Concat(p.parts)
  }

  /** What a drain emits, in every case. */
  lemma DrainEmits(c: Config, e: Engine, env: Env, last: seq<bv8>)
    requires Inv(c, e, last)
    ensures
      match Drain(c, e, env).event
      case Quiet => !c.sink || Pack(c.maxItem, e.queue, e.buf).parts == []
      case Unsent(raw) => env.comp.Failed? && FrameOk(c, e, raw)
      case Sent(raw, payload, ok) =>
        && !env.comp.Failed? && ok == env.ok && FrameOk(c, e, raw)
        && (env.comp.Off? ==> payload == if c.delta then Encode(raw, last) else raw)
        && (env.comp.Compressed? ==> payload == env.comp.bytes)
  {
    hide NextId, Count16, Value16, TagFlag, TagOf, TagCrc, Sound, Decode, Xor, Pack, RawOf, PayloadOf, Deliver, Lose, Fit, Encode;
    var p := Pack(c.maxItem, e.queue, e.buf);
    PackIsSafe(c.maxItem, e.queue, e.buf);
    if p.parts != [] && c.sink {
      var e1 := AfterPack(e, p);
      RawOfParts(c, e1, p);
      Count16Iff(|p.parts|);
      PayloadIsEncoded(c, e1, RawOf(c, e1, p), last);
    }
  }
}
