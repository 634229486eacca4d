/**
 Two statements of the wire format document about the checksum that the code does not meet,
 each with an input that shows it: a delta frame can read as a keyframe, and a wrong baseline can
 be accepted.
 The exact conditions are MisreadIff, DeltaAcceptsIff and FreshJoinIff.
 */
module SpecGaps {
  import opened Bytes
  import opened Words
  import opened Crc32
  import opened Codec
  import opened DeltaStream

  /** Registers after one byte. */
  lemma Registers()
    ensures Feed(0xFFFF_FFFF, 0xff) == 0x00FF_FFFF
    ensures Feed(0xFFFF_FFFF, 0x00) == 0x2DFD_1072
    ensures Feed(0x00FF_FFFF, 0x00) == 0x2D02_1072
  {
  }

  /** The three checksums of the counterexample. */
  lemma Checksums()
    ensures Checksum([0xff]) == 0xFF00_0000
    ensures Checksum([0x00]) == 0xD202_EF8D
    ensures Checksum([0xff, 0x00]) == 0xD2FD_EF8D
  {
    Registers();
    hide Feed, FeedAll;
    var o: bv32 := 0xFFFF_FFFF;
    FeedOne(o, 0xff);
    FeedOne(o, 0x00);
    var x: seq<bv8>, y: seq<bv8> := [0xff], [0x00];
    assert x + y == [0xff, 0x00];
    FeedAllAppend(o, x, y);
    FeedOne(0x00FF_FFFF, 0x00);
  }

  /**
   The wire format document expects that a delta frame whose flag bit happens to read as one fails
   the direct checksum test. After a keyframe with the two-byte body FF 00, every one-byte delta frame
   passes it: the receiver reports success and hands out the wrong frame.
   */
  lemma DeltaReadAsKeyframe(id: bv32, nextId: bv32, count: bv16, x: bv8)
    ensures
      var key := RawFrame(id, 2, true, [0xff, 0x00]);
      var next := RawFrame(nextId, count, false, [x]);
      var got := Receive(key, Encode(next, key)).result;
      got.Ok? && got.value.raw != next
  {
    hide Xor8, Xor16, Xor32, Low15, TagCrc, TagFlag, Get16, Checksum, Misread, Encode, MakeTag;
    var key := RawFrame(id, 2, true, [0xff, 0x00]);
    var next := RawFrame(nextId, count, false, [x]);
    RawFrameParts(id, 2, true, [0xff, 0x00]);
    RawFrameParts(nextId, count, false, [x]);
    KeyCollides(key);
    DeltaArrivesIff(next, key);
  }

  lemma KeyCollides(key: seq<bv8>)
    requires Sound(key) && Body(key) == [0xff, 0x00] && TagFlag(TagOf(key))
    ensures Misread(key, 9)
  {
    var b := Fit(key, 9);
    assert TagOf(b) == TagOf(key);
    assert b[8] == Body(key)[0];
    assert Body(b) == [0xff] && Zeros(1) == [0x00];
    Checksums();
    assert Xor32(0xFF00_0000, 0xD202_EF8D) == 0x2D02_EF8D;
    assert Low15(0x2D02_EF8D) == 0x6F8D && Low15(0xD2FD_EF8D) == 0x6F8D;
  }

  /**
   The wire format document expects that against a wrong baseline the reconstructed body fails its
   checksum. After a flush that was delivered but reported as failed, the next delta frame of the same length is
   accepted with the wrong content, for every choice of frames without a misread.
   */
  lemma LateDeliveryCorrupts(key: seq<bv8>, lost: seq<bv8>, next: seq<bv8>)
    requires Sound(key) && Sound(lost) && Sound(next) && |key| == |lost| == |next| && lost != key
    requires TagFlag(TagOf(key)) && !TagFlag(TagOf(lost)) && !TagFlag(TagOf(next))
    requires !Misread(key, |key|)
    ensures
      var atts := [Attempt(key, true, true), Attempt(lost, true, false), Attempt(next, true, true)];
      AllSound(atts) && var out := Outputs(atts, [], []);
      && |out| == 3 && out[0] == Perfect(key).result && out[1] == Perfect(lost).result
      && out[2].Ok? && out[2].value.raw != next
  {
    hide Receive, Encode, Misread, TagFlag, TagOf, HeaderOf, CrcOK, Body;
    var a0, a1, a2 := Attempt(key, true, true), Attempt(lost, true, false), Attempt(next, true, true);
    var atts := [a0, a1, a2];
    assert atts[1..] == [a1, a2] && [a1, a2][1..] == [a2] && [a2][1..] == [];
    KeyframeArrives(key, [], []);
    DeltaArrivesIff(lost, key);
    StaleReceiverIsFooled(next, key, lost);
    assert Outputs([a2], key, lost) == [Receive(lost, Encode(next, key)).result] + Outputs([], next, NextPrev(a2, key, lost));
    assert Outputs([a1, a2], key, key) == [Perfect(lost).result] + Outputs([a2], key, lost);
    assert Outputs(atts, [], []) == [Perfect(key).result] + Outputs([a1, a2], key, key);
  }
}
