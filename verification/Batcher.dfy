/**
 The batcher in its own form: an object that owns the ring and the pre-allocated buffers and
 updates them in place. Each drain is proved to do exactly what the state machine of module
 Engine does to the object's view.
 */
module Batcher {
  import opened Bytes
  import opened Words
  import opened Crc32
  import opened Codec
  import opened RingSteps
  import opened Ringbuf
  import opened Packing
  import opened XorBytes
  import E = Engine

  /** Marshal writes at most its own window buffer[offset:]. */
  method MarshalInto(item: Item, buffer: array<bv8>, offset: nat) returns (written: int)
    requires offset <= buffer.Length
    modifies buffer
    ensures written == Written(item, old(buffer[offset..]))
    ensures buffer[..] == MarshalAt(item, old(buffer[..]), offset)
  {
    var m := item.marshal(buffer[offset..]);
    var k := if |m.image| <= buffer.Length - offset then |m.image| else buffer.Length - offset;
    CopyInto(buffer, offset, m.image, k);
    written := m.ret;
  }

  /** copy(dst[offset:], src[:k]) */
  method CopyInto(dst: array<bv8>, offset: nat, src: seq<bv8>, k: nat)
    requires k <= |src| && offset + k <= dst.Length
    modifies dst
    ensures dst[..] == old(dst[..])[..offset] + src[..k] + old(dst[..])[offset + k..]
  {
    for i := 0 to k
      invariant forall j | 0 <= j < i :: dst[offset + j] == src[j]
      invariant forall j | 0 <= j < dst.Length && !(offset <= j < offset + i) :: dst[j] == old(dst[j])
    {
      dst[offset + i] := src[i];
    }
    ghost var want := old(dst[..])[..offset] + src[..k] + old(dst[..])[offset + k..];
    forall j | 0 <= j < dst.Length ensures dst[j] == want[j] {
      if offset <= j < offset + k { assert dst[offset + (j - offset)] == src[j - offset]; }
    }
  }

  class Batcher {
    const cfg: E.Config
    const policy: Policy
    const endian: Endian
    const ring: Ringbuf<Item>
    const byteBuffer: array<bv8>
    const previousState: array<bv8>
    const deltaBuffer: array<bv8>

    var dropped: nat
    var sequenceID: bv32
    var truncated: nat
    var flushedBatches: nat
    var flushedItems: nat
    var flushErrs: nat
    var bytesFlushed: nat
    var prevOffset: nat
    var keyframeN: nat

    // History: calls of Push, items dequeued by drains, items of batches that were not delivered.
    ghost var pushes: nat
    ghost var popped: nat
    ghost var lost: nat

    ghost predicate Valid()
      reads this, ring`head, ring`tail, ring`evicted, ring.seqs, ring.data, byteBuffer, previousState, deltaBuffer
    {
      && E.ValidConfig(cfg)
      && byteBuffer.Length == previousState.Length == deltaBuffer.Length == cfg.maxBatch
      && prevOffset <= cfg.maxBatch
      && byteBuffer != previousState && byteBuffer != deltaBuffer && previousState != deltaBuffer
      && ring.Valid() && ring as object != this
      && Apart(ring.seqs) && Apart(ring.data)
      && pushes == dropped + ring.tail && ring.head == ring.evicted + popped
    }

    /** The ring's arrays are none of the buffers. */
    ghost predicate Apart(o: object) {
      o != byteBuffer && o != previousState && o != deltaBuffer && o != this
    }

    ghost function View(): E.Engine
      requires Valid()
      reads this, ring`head, ring`tail, ring`evicted, ring.seqs, ring.data, byteBuffer, previousState, deltaBuffer
    {
      E.Engine(ring.Contents(), byteBuffer[..], previousState[..], prevOffset, keyframeN, sequenceID,
               E.Stats(truncated, flushedBatches, flushedItems, flushErrs, bytesFlushed), popped, lost)
    }

    /** New, for a valid configuration. */
    constructor (cfg: E.Config, policy: Policy, endian: Endian, queueSize: nat, zero: Item)
      requires E.ValidConfig(cfg) && 0 < queueSize
      ensures this.cfg == cfg && this.policy == policy && dropped == pushes == 0 && ring.seqs.Length == queueSize
      ensures Valid() <==> 2 <= queueSize
      ensures Valid() ==> View() == E.Start(cfg) && E.Inv(cfg, View(), [])
    {
      this.cfg, this.policy, this.endian := cfg, policy, endian;
      ring := new Ringbuf<Item>(queueSize, zero);
      byteBuffer := new bv8[cfg.maxBatch](i => 0);
      previousState := new bv8[cfg.maxBatch](i => 0);
      deltaBuffer := new bv8[cfg.maxBatch](i => 0);
      dropped, sequenceID, truncated, flushedBatches := 0, 0, 0, 0;
      flushedItems, flushErrs, bytesFlushed, prevOffset, keyframeN := 0, 0, 0, 0, 0;
      pushes, popped, lost := 0, 0, 0;
      new;
      E.StartHolds(cfg);
      assert byteBuffer[..] == Zeros(cfg.maxBatch) && previousState[..] == Zeros(cfg.maxBatch);
    }

    /** Push: the policy decides on a full ring, and a refused item is counted as dropped. */
    method Push(item: Item)
      requires Valid()
      modifies this`dropped, this`pushes, ring, ring.seqs, ring.data
      ensures Valid() && pushes == old(pushes) + 1
      ensures
        var q := old(View().queue);
        if |q| < ring.seqs.Length then
          View() == old(View()).(queue := q + [item]) && dropped == old(dropped)
        else if policy.DropNewest? then
          View() == old(View()) && dropped == old(dropped) + 1
        else
          View() == old(View()).(queue := q[1..] + [item]) && dropped == old(dropped)
    {
      pushes := pushes + 1;
      var ok := ring.Push(item, policy);
      if !ok {
        dropped := dropped + 1;
      }
    }

    /** popMarshal: dequeue the oldest item and marshal it at the offset. */
    method PopMarshal(offset: nat) returns (written: int, ok: bool)
      requires Valid() && offset <= byteBuffer.Length
      modifies this`popped, ring, ring.seqs, byteBuffer
      ensures Valid() && ok == (old(ring.Contents()) != []) && popped == old(popped) + (if ok then 1 else 0)
      ensures ok ==>
                && ring.Contents() == old(ring.Contents())[1..]
                && byteBuffer[..] == MarshalAt(old(ring.Contents())[0], old(byteBuffer[..]), offset)
                && written == Written(old(ring.Contents())[0], old(byteBuffer[offset..]))
      ensures !ok ==> ring.Contents() == [] && byteBuffer[..] == old(byteBuffer[..])
    {
      hide MarshalAt, Written;
      var got := ring.Pop();
      if got.None? {
        return 0, false;
      }
      popped := popped + 1;
      assert byteBuffer[..] == old(byteBuffer[..]);
      written := MarshalInto(got.value, byteBuffer, offset);
      ok := true;
    }

    /** The packing loop of drainAndFlush. */
    method FillBatch() returns (n: nat, offset: nat, ghost p: Packed)
      requires Valid()
      modifies this`truncated, this`popped, ring, ring.seqs, byteBuffer
      ensures Valid()
      ensures p == Pack(cfg.maxItem, old(ring.Contents()), old(byteBuffer[..]))
      ensures n == |p.parts| && offset == p.offset
      ensures View() == E.AfterPack(old(View()), p)
    {
      hide MarshalAt, Written, Fill;
      offset := HEADER_SIZE;
      n := 0;
      ghost var parts: seq<seq<bv8>> := [];
      p := Pack(cfg.maxItem, ring.Contents(), byteBuffer[..]);
      while n < MAX_COUNT
        invariant Valid() && HEADER_SIZE <= offset <= byteBuffer.Length && n == |parts| <= MAX_COUNT
        invariant p == Fill(cfg.maxItem, ring.Contents(), byteBuffer[..], offset, parts)
        invariant truncated == old(truncated) && popped == old(popped) + n
        decreases MAX_COUNT - n
      {
        FillRound(cfg.maxItem, ring.Contents(), byteBuffer[..], offset, parts);
        var avail := byteBuffer.Length - offset;
        if avail < cfg.maxItem {
          return;
        }
        var written, ok := PopMarshal(offset);
        if !ok {
          return;
        }
        if written <= 0 || written > avail {
          truncated := truncated + 1;
          return;
        }
        parts := parts + [byteBuffer[offset..offset + written]];
        offset := offset + written;
        n := n + 1;
      }
      FillRound(cfg.maxItem, ring.Contents(), byteBuffer[..], offset, parts);
    }

    /** The header of a batch of n items, in place in front of the body. */
    method WriteHeader(n: nat, offset: nat, key: bool)
      requires Valid() && HEADER_SIZE <= offset <= byteBuffer.Length
      modifies this`sequenceID, byteBuffer
      ensures Valid() && sequenceID == E.NextId(old(sequenceID))
      ensures byteBuffer[..offset] == RawFrame(sequenceID, Count16(n), key, old(byteBuffer[..])[HEADER_SIZE..offset])
      ensures byteBuffer[offset..] == old(byteBuffer[offset..])
    {
      hide Checksum, Low15, MakeTag, Byte0, Byte1, Byte32, Count16;
      sequenceID := sequenceID + 1;
      var crc := Low15(Checksum(byteBuffer[HEADER_SIZE..offset]));
      var header := HeaderBytes(sequenceID, Count16(n), MakeTag(crc, key));
      CopyInto(byteBuffer, 0, header, HEADER_SIZE);
      assert old(byteBuffer[..])[HEADER_SIZE..][..offset - HEADER_SIZE] == old(byteBuffer[..])[HEADER_SIZE..offset];
    }

    /** The baseline after a successful flush: copy the frame, clear the stale bytes behind it. */
    method AdvanceBaseline(offset: nat)
      requires Valid() && offset <= cfg.maxBatch
      modifies this`prevOffset, previousState
      ensures Valid() && prevOffset == offset
      ensures previousState[..] == E.Rebase(old(previousState[..]), byteBuffer[..offset], old(prevOffset))
    {
      hide E.Rebase, Zeros;
      RebaseByParts(previousState[..], byteBuffer[..offset], prevOffset);
      CopyInto(previousState, 0, byteBuffer[..offset], offset);
      if prevOffset > offset {
        ClearRange(previousState, offset, prevOffset);
      }
      prevOffset := offset;
    }

    /** What goes to the compressor or the sink: the raw frame, or its delta in deltaBuffer. */
    method MakePayload(offset: nat, key: bool) returns (payload: seq<bv8>)
      requires Valid() && HEADER_SIZE <= offset <= cfg.maxBatch
      requires key == E.IsKeyframe(cfg, View())
      modifies deltaBuffer
      ensures Valid() && View() == old(View())
      ensures payload == E.PayloadOf(cfg, View(), byteBuffer[..offset])
    {
      hide Xor;
      if !cfg.delta || key {
        return byteBuffer[..offset];
      }
      var panicked := XorInto(endian, deltaBuffer, offset, byteBuffer, offset, previousState, offset);
      assert !panicked && View().prev[..offset] == previousState[..offset];
      payload := deltaBuffer[..offset];
    }

    /** Where the keyframe cycle stands after a successful flush. */
    method AdvanceCadence()
      requires Valid()
      modifies this`keyframeN
      ensures Valid() && keyframeN == E.NextKey(cfg, old(keyframeN))
    {
      if cfg.interval > 0 {
        keyframeN := keyframeN + 1;
        if keyframeN >= cfg.interval {
          keyframeN := 0;
        }
      }
    }

    /** The sink's answer: an error costs the batch, a success advances baseline and counters. */
    method Settle(n: nat, offset: nat, size: nat, ok: bool)
      requires Valid() && HEADER_SIZE <= offset <= cfg.maxBatch
      modifies this, previousState
      ensures Valid() && pushes == old(pushes)
      ensures var raw := old(byteBuffer[..offset]);
              View() == if ok then E.Deliver(cfg, old(View()), n, raw, size)
                        else E.Lose(old(View()).(stats := old(View().stats).(errors := old(flushErrs) + 1)), n)
    {
      hide E.Rebase, E.NextKey;
      if !ok {
        flushErrs := flushErrs + 1;
        lost := lost + n;
        return;
      }
      if cfg.delta {
        AdvanceBaseline(offset);
        AdvanceCadence();
      }
      flushedBatches := flushedBatches + 1;
      flushedItems := flushedItems + n;
      bytesFlushed := bytesFlushed + size;
    }

    /** The raw frame of a packed batch, in the byte buffer. */
    method BuildFrame(n: nat, offset: nat, key: bool, ghost p: Packed)
      requires Valid() && HEADER_SIZE <= offset == p.offset <= cfg.maxBatch
      requires n == |p.parts| && byteBuffer[..] == p.buf && key == E.IsKeyframe(cfg, View())
      modifies this`sequenceID, byteBuffer
      ensures Valid() && byteBuffer[..offset] == E.RawOf(cfg, old(View()), p)
      ensures View() == old(View()).(id := E.NextId(old(sequenceID)), buf := byteBuffer[..offset] + p.buf[offset..])
    {
      hide RawFrame, Count16, E.NextId;
      WriteHeader(n, offset, key);
      assert byteBuffer[..] == byteBuffer[..offset] + byteBuffer[offset..];
    }

    /** The second half of drainAndFlush: header, payload, compressor, sink. */
    method FlushBatch(n: nat, offset: nat, env: E.Env, ghost p: Packed) returns (event: E.Event)
      requires Valid() && HEADER_SIZE <= offset == p.offset <= cfg.maxBatch
      requires n == |p.parts| && byteBuffer[..] == p.buf
      modifies this, byteBuffer, previousState, deltaBuffer
      ensures Valid() && pushes == old(pushes)
      ensures E.Drained(View(), event) == E.Flush(cfg, old(View()), p, env)
    {
      hide E.RawOf, E.NextId, E.PayloadOf, E.Deliver;
      ghost var e0 := View();
      var key := cfg.delta && cfg.interval > 0 && keyframeN == 0;
      BuildFrame(n, offset, key, p);
      var raw := byteBuffer[..offset];
      ghost var e1 := View();
      var payload := MakePayload(offset, key);
      assert payload == E.PayloadOf(cfg, e0, raw) by { PayloadIgnores(cfg, e0, e1, raw); }
      match env.comp {
        case Failed =>
          lost := lost + n;
          return E.Unsent(raw);
        case Off =>
        case Compressed(bytes) =>
          payload := bytes;
      }
      Settle(n, offset, |payload|, env.ok);
      event := E.Sent(raw, payload, env.ok);
    }

    /**
     drainAndFlush: one step of the engine, on the object's buffers; so the baseline stays exact,
     items are conserved and the keyframe cadence is kept.
     */
    method DrainAndFlush(env: E.Env) returns (event: E.Event)
      requires Valid()
      modifies this, ring, ring.seqs, byteBuffer, previousState, deltaBuffer
      ensures Valid() && pushes == old(pushes)
      ensures E.Drained(View(), event) == E.Drain(cfg, old(View()), env)
      ensures forall last | E.Inv(cfg, old(View()), last) :: E.Inv(cfg, View(), E.LastAfter(cfg, last, event))
    {
      hide Pack, E.Flush;
      ghost var e0 := View();
      forall last | E.Inv(cfg, e0, last)
        ensures E.Inv(cfg, E.Drain(cfg, e0, env).engine, E.LastAfter(cfg, last, E.Drain(cfg, e0, env).event))
      {
        E.DrainKeeps(cfg, e0, env, last);
      }
      PackIsSafe(cfg.maxItem, e0.queue, e0.buf);
      var n, offset, p := FillBatch();
      if n == 0 {
        return E.Quiet;
      }
      if !cfg.sink {
        lost := lost + n;
        return E.Quiet;
      }
      event := FlushBatch(n, offset, env, p);
    }
  }

  /** Copying the frame and then clearing the bytes up to the previous offset. */
  lemma RebaseByParts(prev: seq<bv8>, raw: seq<bv8>, prevOffset: nat)
    requires |raw| <= |prev| && prevOffset <= |prev|
    ensures
      var copied := prev[..0] + raw[..|raw|] + prev[0 + |raw|..];
      && |copied| == |prev|
      && E.Rebase(prev, raw, prevOffset) ==
         if prevOffset > |raw| then copied[..|raw|] + Zeros(prevOffset - |raw|) + copied[prevOffset..] else copied
  {
    hide Zeros;
    var copied := prev[..0] + raw[..|raw|] + prev[0 + |raw|..];
    assert copied == raw + prev[|raw|..];
    if prevOffset > |raw| { assert copied[prevOffset..] == prev[prevOffset..]; }
  }

  /** The payload depends on baseline and cadence only. */
  lemma PayloadIgnores(c: E.Config, e: E.Engine, e': E.Engine, raw: seq<bv8>)
    requires |raw| <= |e.prev| && e'.prev == e.prev && e'.keyN == e.keyN
    ensures E.PayloadOf(c, e', raw) == E.PayloadOf(c, e, raw)
  {
  }

  /** clear(dst[from:to]) */
  method ClearRange(dst: array<bv8>, from: nat, to: nat)
    requires from <= to <= dst.Length
    modifies dst
    ensures dst[..] == old(dst[..])[..from] + Zeros(to - from) + old(dst[..])[to..]
  {
    for i := from to to
      invariant forall j | from <= j < i :: dst[j] == 0
      invariant forall j | 0 <= j < dst.Length && !(from <= j < i) :: dst[j] == old(dst[j])
    {
      dst[i] := 0;
    }
    assert dst[..] == old(dst[..])[..from] + Zeros(to - from) + old(dst[..])[to..];
  }
}
