/**
 Batch packing: how drainAndFlush fills its byte buffer from the queue under an arbitrary,
 possibly misbehaving Marshal.
 */
module Packing {
  import opened Words
  import opened Codec

  const MAX_COUNT: nat := 65535

  /** What one Marshal call does: the bytes it writes at the start of its buffer, and its return value. */
  datatype Marshalled = Marshalled(ret: int, image: seq<bv8>)

  /** An item is what its Marshal does with a buffer, whatever that buffer still holds. */
  datatype Item = Item(marshal: seq<bv8> -> Marshalled)

  /** The buffer after Marshal, which cannot write outside it. */
  function Stamp(item: Item, w: seq<bv8>): (w': seq<bv8>)
    ensures |w'| == |w|
    ensures forall k | 0 <= k < |w| ::
              w'[k] == if k < |item.marshal(w).image| then item.marshal(w).image[k] else w[k]
  {
    var image := item.marshal(w).image;
    var k := if |image| <= |w| then |image| else |w|;
    image[..k] + w[k..]
  }

  /** Marshal on buf[offset:]. */
  function MarshalAt(item: Item, buf: seq<bv8>, offset: nat): (buf': seq<bv8>)
    requires offset <= |buf|
    ensures |buf'| == |buf| && buf'[..offset] == buf[..offset] && buf'[offset..] == Stamp(item, buf[offset..])
  {
    buf[..offset] + Stamp(item, buf[offset..])
  }

  function Written(item: Item, w: seq<bv8>): int {
    item.marshal(w).ret
  }

  /** A return value that the drain loop discards the item for. */
  predicate Truncates(item: Item, w: seq<bv8>) {
    Written(item, w) <= 0 || Written(item, w) > |w|
  }

  /** The state of the loop when it stops; `parts` are the bytes each accepted item left. */
  datatype Packed = Packed(buf: seq<bv8>, offset: nat, parts: seq<seq<bv8>>, rest: seq<Item>, truncated: nat)

  function Concat(parts: seq<seq<bv8>>): seq<bv8> {
    if parts == [] then [] else Concat(parts[..|parts| - 1]) + parts[|parts| - 1]
  }

  /** The loop of drainAndFlush from a given offset and the parts accepted so far. */
  function Fill(maxItem: nat, q: seq<Item>, buf: seq<bv8>, offset: nat, parts: seq<seq<bv8>>): Packed
    requires offset <= |buf|
    decreases |q|
  {
    if |parts| >= MAX_COUNT || |buf| - offset < maxItem || q == [] then
      Packed(buf, offset, parts, q, 0)
    else
      var buf' := MarshalAt(q[0], buf, offset);
      if Truncates(q[0], buf[offset..]) then
        Packed(buf', offset, parts, q[1..], 1)
      else
        var offset' := offset + Written(q[0], buf[offset..]);
        Fill(maxItem, q[1..], buf', offset', parts + [buf'[offset..offset']])
  }

  /** One round of the loop, by case. */
  lemma FillRound(maxItem: nat, q: seq<Item>, buf: seq<bv8>, offset: nat, parts: seq<seq<bv8>>)
    requires offset <= |buf|
    ensures
      var p := Fill(maxItem, q, buf, offset, parts);
      if |parts| >= MAX_COUNT || |buf| - offset < maxItem || q == [] then
        p == Packed(buf, offset, parts, q, 0)
      else
        var buf', w := MarshalAt(q[0], buf, offset), Written(q[0], buf[offset..]);
        if w <= 0 || w > |buf| - offset then p == Packed(buf', offset, parts, q[1..], 1)
        else p == Fill(maxItem, q[1..], buf', offset + w, parts + [buf'[offset..offset + w]])
  {
  }

  function Pack(maxItem: nat, q: seq<Item>, buf: seq<bv8>): Packed
    requires HEADER_SIZE <= |buf|
  {
    Fill(maxItem, q, buf, HEADER_SIZE, [])
  }

  // ------------------------------------------------------------------------------------------

  /** Every part is non-empty. */
  ghost predicate Proper(parts: seq<seq<bv8>>) {
    forall i | 0 <= i < |parts| :: parts[i] != []
  }

  lemma {:induction false} ConcatLength(parts: seq<seq<bv8>>)
    requires Proper(parts)
    ensures |parts| <= |Concat(parts)|
  {
    if parts != [] { ConcatLength(parts[..|parts| - 1]); }
  }

  /** For any Marshal whatsoever the loop stays inside its buffer and keeps what precedes it. */
  lemma {:induction false} FillStaysInside(maxItem: nat, q: seq<Item>, buf: seq<bv8>, offset: nat, parts: seq<seq<bv8>>)
    requires offset <= |buf|
    ensures
      var p := Fill(maxItem, q, buf, offset, parts);
      |p.buf| == |buf| && offset <= p.offset <= |buf| && p.buf[..offset] == buf[..offset]
    decreases |q|
  {
    if |parts| < MAX_COUNT && maxItem <= |buf| - offset && q != [] && !Truncates(q[0], buf[offset..]) {
      var buf' := MarshalAt(q[0], buf, offset);
      var offset' := offset + Written(q[0], buf[offset..]);
      FillStaysInside(maxItem, q[1..], buf', offset', parts + [buf'[offset..offset']]);
      var p := Fill(maxItem, q, buf, offset, parts);
      assert p.buf[..offset] == p.buf[..offset'][..offset];
      assert buf'[..offset'][..offset] == buf'[..offset];
    }
  }

  /** The bytes between header and offset are the accepted parts in order, none of them empty. */
  lemma {:induction false} FillKeepsParts(maxItem: nat, q: seq<Item>, buf: seq<bv8>, offset: nat, parts: seq<seq<bv8>>)
    requires HEADER_SIZE <= offset <= |buf| && Proper(parts) && |parts| <= MAX_COUNT
    requires buf[HEADER_SIZE..offset] == Concat(parts)
    ensures
      var p := Fill(maxItem, q, buf, offset, parts);
      && HEADER_SIZE <= p.offset <= |p.buf| && p.buf[HEADER_SIZE..p.offset] == Concat(p.parts)
      && Proper(p.parts) && |p.parts| <= MAX_COUNT
    decreases |q|
  {
    hide MarshalAt;
    if |parts| < MAX_COUNT && maxItem <= |buf| - offset && q != [] {
      var buf' := MarshalAt(q[0], buf, offset);
      assert buf'[HEADER_SIZE..offset] == buf[HEADER_SIZE..offset] by {
        assert buf'[HEADER_SIZE..offset] == buf'[..offset][HEADER_SIZE..];
        assert buf[..offset][HEADER_SIZE..] == buf[HEADER_SIZE..offset];
      }
      if !Truncates(q[0], buf[offset..]) {
        var offset' := offset + Written(q[0], buf[offset..]);
        var part := buf'[offset..offset'];
        assert buf'[HEADER_SIZE..offset'] == buf'[HEADER_SIZE..offset] + part;
        assert (parts + [part])[..|parts|] == parts;
        FillKeepsParts(maxItem, q[1..], buf', offset', parts + [part]);
      }
    }
  }

  /** Exactly one queued item is taken per part, plus one per truncation, from the front. */
  lemma {:induction false} FillTakesPrefix(maxItem: nat, q: seq<Item>, buf: seq<bv8>, offset: nat, parts: seq<seq<bv8>>)
    requires offset <= |buf|
    ensures
      var p := Fill(maxItem, q, buf, offset, parts);
      && |parts| <= |p.parts| && p.truncated <= 1
      && |q| == (|p.parts| - |parts|) + p.truncated + |p.rest|
      && p.rest == q[|q| - |p.rest|..]
    decreases |q|
  {
    hide MarshalAt;
    if |parts| < MAX_COUNT && maxItem <= |buf| - offset && q != [] && !Truncates(q[0], buf[offset..]) {
      var buf' := MarshalAt(q[0], buf, offset);
      var offset' := offset + Written(q[0], buf[offset..]);
      FillTakesPrefix(maxItem, q[1..], buf', offset', parts + [buf'[offset..offset']]);
    }
  }

  /**
   Packing a batch under an arbitrary Marshal: the buffer is never left, the body is the
   concatenation of the accepted parts, there are at most 65535 of them and never more than body
   bytes, and what remains queued is the queue without a prefix.
   */
  lemma PackIsSafe(maxItem: nat, q: seq<Item>, buf: seq<bv8>)
    requires HEADER_SIZE <= |buf|
    ensures
      var p := Pack(maxItem, q, buf);
      && |p.buf| == |buf| && HEADER_SIZE <= p.offset <= |buf|
      && p.buf[HEADER_SIZE..p.offset] == Concat(p.parts)
      && |p.parts| <= MAX_COUNT && |p.parts| <= p.offset - HEADER_SIZE && p.truncated <= 1
      && |q| == |p.parts| + p.truncated + |p.rest|
      && p.rest == q[|q| - |p.rest|..]
  {
    FillStaysInside(maxItem, q, buf, HEADER_SIZE, []);
    FillKeepsParts(maxItem, q, buf, HEADER_SIZE, []);
    FillTakesPrefix(maxItem, q, buf, HEADER_SIZE, []);
    ConcatLength(Pack(maxItem, q, buf).parts);
  }

  /** A drain of a non-empty queue takes an item off it if and only if the buffer has room for one. */
  lemma PackMakesProgress(maxItem: nat, q: seq<Item>, buf: seq<bv8>)
    requires 8 <= |buf| && q != []
    ensures |Pack(maxItem, q, buf).rest| < |q| <==> 8 + maxItem <= |buf|
  {
    hide MarshalAt;
    if 8 + maxItem <= |buf| && !Truncates(q[0], buf[HEADER_SIZE..]) {
      var buf' := MarshalAt(q[0], buf, HEADER_SIZE);
      var offset' := HEADER_SIZE + Written(q[0], buf[HEADER_SIZE..]);
      FillTakesPrefix(maxItem, q[1..], buf', offset', [] + [buf'[HEADER_SIZE..offset']]);
    }
  }

  // ------------------------------------------------------------------------------------------
  // What a batch holds, and when one drain is enough

  /** What an accepted item leaves for the next one: the stamped buffer behind its bytes. */
  function Rest(item: Item, w: seq<bv8>): seq<bv8>
    requires !Truncates(item, w)
  {
    Stamp(item, w)[Written(item, w)..]
  }

  /** The buffer that item i is given when every earlier item was accepted. */
  function Window(q: seq<Item>, w: seq<bv8>, i: nat): seq<bv8>
    requires i <= |q|
    decreases i
  {
    if i == 0 then w
    else
      var v := Window(q, w, i - 1);
      if Truncates(q[i - 1], v) then v else Rest(q[i - 1], v)
  }

  /** What the first item leaves is where the others begin. */
  lemma {:induction false} WindowTail(q: seq<Item>, w: seq<bv8>, i: nat)
    requires q != [] && i < |q| && !Truncates(q[0], w)
    ensures Window(q, w, i + 1) == Window(q[1..], Rest(q[0], w), i)
    decreases i
  {
    hide Truncates, Rest;
    if i == 0 {
      assert Window(q, w, 0) == w;
    } else {
      WindowTail(q, w, i - 1);
    }
  }

  lemma RestOf(q: seq<Item>, buf: seq<bv8>, offset: nat)
    requires offset <= |buf| && q != [] && !Truncates(q[0], buf[offset..])
    ensures
      var w := Written(q[0], buf[offset..]);
      && MarshalAt(q[0], buf, offset)[offset + w..] == Rest(q[0], buf[offset..])
      && MarshalAt(q[0], buf, offset)[offset..offset + w] == Stamp(q[0], buf[offset..])[..w]
  {
    hide Stamp;
    var w, buf' := Written(q[0], buf[offset..]), MarshalAt(q[0], buf, offset);
    assert buf'[offset + w..] == buf'[offset..][w..];
    assert buf'[offset..offset + w] == buf'[offset..][..w];
  }

  /** `part` is what item i left in the batch: the bytes it claimed of the buffer it was given. */
  ghost predicate PartOk(q: seq<Item>, w: seq<bv8>, i: nat, part: seq<bv8>) {
    && i < |q| && var v := Window(q, w, i);
    && 0 < q[i].marshal(v).ret == |part| <= |v|
    && forall k | 0 <= k < |part| ::
         part[k] == if k < |q[i].marshal(v).image| then q[i].marshal(v).image[k] else v[k]
  }

  /** Why packing stopped after k accepted items. */
  ghost predicate StopOk(maxItem: nat, q: seq<Item>, w: seq<bv8>, room: nat, k: nat, truncated: nat) {
    && k <= |q| && var v := Window(q, w, k);
    if k == |q| || k >= room || |v| < maxItem then truncated == 0
    else truncated == 1 && (q[k].marshal(v).ret <= 0 || q[k].marshal(v).ret > |v|)
  }

  lemma PartTail(q: seq<Item>, w: seq<bv8>, i: nat, part: seq<bv8>)
    requires q != [] && !Truncates(q[0], w) && PartOk(q[1..], Rest(q[0], w), i, part)
    ensures PartOk(q, w, i + 1, part)
  {
    WindowTail(q, w, i);
  }

  lemma StopTail(maxItem: nat, q: seq<Item>, w: seq<bv8>, room: nat, k: nat, truncated: nat)
    requires q != [] && !Truncates(q[0], w) && 0 < room
    requires StopOk(maxItem, q[1..], Rest(q[0], w), room - 1, k, truncated)
    ensures StopOk(maxItem, q, w, room, k + 1, truncated)
  {
    WindowTail(q, w, k);
  }

  lemma {:induction false} FillHoldsItems(maxItem: nat, q: seq<Item>, buf: seq<bv8>, offset: nat, parts: seq<seq<bv8>>)
    requires offset <= |buf| && |parts| <= MAX_COUNT
    ensures
      var p := Fill(maxItem, q, buf, offset, parts);
      var k, w := |p.parts| - |parts|, buf[offset..];
      && 0 <= k <= |q| && p.parts[..|parts|] == parts
      && p.offset == |buf| - |Window(q, w, k)|
      && (forall j | |parts| <= j < |p.parts| :: PartOk(q, w, j - |parts|, p.parts[j]))
      && StopOk(maxItem, q, w, MAX_COUNT - |parts|, k, p.truncated)
    decreases |q|
  {
    hide MarshalAt, PartOk, Fill, Rest;
    var w := buf[offset..];
    FillRound(maxItem, q, buf, offset, parts);
    if |parts| < MAX_COUNT && maxItem <= |w| && q != [] && !Truncates(q[0], w) {
      var buf' := MarshalAt(q[0], buf, offset);
      var offset' := offset + Written(q[0], w);
      var part := buf'[offset..offset'];
      RestOf(q, buf, offset);
      FirstPart(q, w, part);
      var p := Fill(maxItem, q[1..], buf', offset', parts + [part]);
      FillHoldsItems(maxItem, q[1..], buf', offset', parts + [part]);
      assert p.parts[..|parts| + 1][..|parts|] == parts && p.parts[..|parts| + 1][|parts|] == part;
      forall j | |parts| <= j < |p.parts| ensures PartOk(q, w, j - |parts|, p.parts[j]) {
        if j > |parts| {
          assert PartOk(q[1..], buf'[offset'..], j - |parts| - 1, p.parts[j]);
          PartTail(q, w, j - |parts| - 1, p.parts[j]);
        }
      }
      WindowTail(q, w, |p.parts| - |parts| - 1);
      StopTail(maxItem, q, w, MAX_COUNT - |parts|, |p.parts| - |parts| - 1, p.truncated);
    }
  }

  lemma FirstPart(q: seq<Item>, w: seq<bv8>, part: seq<bv8>)
    requires q != [] && !Truncates(q[0], w) && part == Stamp(q[0], w)[..Written(q[0], w)]
    ensures PartOk(q, w, 0, part)
  {
  }

  /**
   The i-th part of a batch is what the i-th queued item marshalled into the buffer that the
   earlier ones left, and packing goes on until the queue is empty, the count or the space is used
   up, or an item is truncated.
   */
  lemma PackHoldsItems(maxItem: nat, q: seq<Item>, buf: seq<bv8>)
    requires HEADER_SIZE <= |buf|
    ensures
      var p, w := Pack(maxItem, q, buf), buf[HEADER_SIZE..];
      && |p.parts| <= |q| && p.offset == |buf| - |Window(q, w, |p.parts|)|
      && (forall i | 0 <= i < |p.parts| :: PartOk(q, w, i, p.parts[i]))
      && StopOk(maxItem, q, w, 65535, |p.parts|, p.truncated)
  {
    FillHoldsItems(maxItem, q, buf, HEADER_SIZE, []);
  }

  /**
   A batch leaves items queued, and none of them truncated, only if fewer than MaxItemSize bytes
   are left or the count field could not hold one more item.
   */
  lemma PackStopsBecause(maxItem: nat, q: seq<Item>, buf: seq<bv8>)
    requires HEADER_SIZE <= |buf|
    ensures
      var p := Pack(maxItem, q, buf);
      && Value16(Count16(|p.parts|)) == |p.parts|
      && (p.rest != [] && p.truncated == 0 ==>
            |buf| - p.offset < maxItem || Value16(Count16(|p.parts| + 1)) != |p.parts| + 1)
  {
    hide Pack, Window, PartOk;
    var p := Pack(maxItem, q, buf);
    PackIsSafe(maxItem, q, buf);
    PackHoldsItems(maxItem, q, buf);
    Count16Iff(|p.parts|);
    Count16Iff(|p.parts| + 1);
  }

  /** The whole queue fits one batch: room and count for each item, and no truncation before the last. */
  ghost predicate Fits(maxItem: nat, q: seq<Item>, w: seq<bv8>, room: nat) {
    forall i | 0 <= i < |q| :: FitsAt(maxItem, q, w, room, i)
  }

  ghost predicate FitsAt(maxItem: nat, q: seq<Item>, w: seq<bv8>, room: nat, i: nat)
    requires i < |q|
  {
    && i < room && maxItem <= |Window(q, w, i)|
    && (i < |q| - 1 ==> 0 < q[i].marshal(Window(q, w, i)).ret <= |Window(q, w, i)|)
  }

  lemma FitsTail(maxItem: nat, q: seq<Item>, w: seq<bv8>, room: nat)
    requires 1 <= room && q != [] && FitsAt(maxItem, q, w, room, 0) && !Truncates(q[0], w)
    ensures Fits(maxItem, q, w, room) <==> Fits(maxItem, q[1..], Rest(q[0], w), room - 1)
  {
    hide Truncates, Rest;
    var t, w', room' := q[1..], Rest(q[0], w), room - 1;
    if Fits(maxItem, t, w', room') {
      forall i | 0 <= i < |q| ensures FitsAt(maxItem, q, w, room, i) {
        if i > 0 {
          WindowTail(q, w, i - 1);
          assert FitsAt(maxItem, t, w', room', i - 1);
        }
      }
    }
    if Fits(maxItem, q, w, room) {
      forall i | 0 <= i < |t| ensures FitsAt(maxItem, t, w', room', i) {
        WindowTail(q, w, i);
        assert FitsAt(maxItem, q, w, room, i + 1);
      }
    }
  }

  lemma {:induction false} FillEmptiesIff(maxItem: nat, q: seq<Item>, buf: seq<bv8>, offset: nat, parts: seq<seq<bv8>>)
    requires offset <= |buf| && |parts| <= MAX_COUNT
    ensures Fill(maxItem, q, buf, offset, parts).rest == [] <==>
            Fits(maxItem, q, buf[offset..], MAX_COUNT - |parts|)
    decreases |q|
  {
    hide MarshalAt, Fill, Rest;
    var w, room := buf[offset..], MAX_COUNT - |parts|;
    FillRound(maxItem, q, buf, offset, parts);
    if q != [] {
      if room == 0 || |w| < maxItem {
        assert !FitsAt(maxItem, q, w, room, 0);
      } else if Truncates(q[0], w) {
        if |q| > 1 {
          assert !FitsAt(maxItem, q, w, room, 0);
        }
      } else {
        var buf' := MarshalAt(q[0], buf, offset);
        var offset' := offset + Written(q[0], w);
        RestOf(q, buf, offset);
        FillEmptiesIff(maxItem, q[1..], buf', offset', parts + [buf'[offset..offset']]);
        assert FitsAt(maxItem, q, w, room, 0);
        FitsTail(maxItem, q, w, room);
      }
    }
  }

  /**
   One drain empties the queue if and only if every item finds room for MaxItemSize and a count
   below 65535, and no item but the last is truncated; otherwise the rest stays queued.
   */
  lemma DrainEmptiesIff(maxItem: nat, q: seq<Item>, buf: seq<bv8>)
    requires HEADER_SIZE <= |buf|
    ensures Pack(maxItem, q, buf).rest == [] <==> Fits(maxItem, q, buf[HEADER_SIZE..], 65535)
  {
    FillEmptiesIff(maxItem, q, buf, HEADER_SIZE, []);
  }
}
