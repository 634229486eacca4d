/**
 The wire frame and its reference decoder (codec/codec.go): header parsing, the truncated
 checksum test, Decode, and the delta reconstructor.
 */
module Codec {
  import opened Bytes
  import opened Words
  import opened Crc32

  const HEADER_SIZE: nat := 8

  datatype Error = ErrShortFrame | ErrCRCMismatch

  datatype Result<T> = Ok(value: T) | Err(error: Error)

  datatype Header = Header(id: bv32, count: bv16, crc: bv16, keyframe: bool)

  function TagOf(frame: seq<bv8>): bv16
    requires HEADER_SIZE <= |frame|
  {
    Get16(frame[6], frame[7])
  }

  function Body(frame: seq<bv8>): seq<bv8>
    requires HEADER_SIZE <= |frame|
  {
    frame[HEADER_SIZE..]
  }

  function HeaderOf(frame: seq<bv8>): Header
    requires HEADER_SIZE <= |frame|
  {
    Header(Get32(frame[0], frame[1], frame[2], frame[3]), Get16(frame[4], frame[5]),
           TagCrc(TagOf(frame)), TagFlag(TagOf(frame)))
  }

  function ParseHeader(frame: seq<bv8>): Result<Header> {
    if |frame| < HEADER_SIZE then Err(ErrShortFrame) else Ok(HeaderOf(frame))
  }

  predicate CrcOK(body: seq<bv8>, want: bv16) {
    Low15(Checksum(body)) == want
  }

  datatype Decoded = Decoded(header: Header, body: seq<bv8>)

  function Decode(frame: seq<bv8>): Result<Decoded> {
    match ParseHeader(frame)
    case Err(e) => Err(e)
    case Ok(h) =>
      var body := Body(frame);
      if CrcOK(body, h.crc) then Ok(Decoded(h, body)) else Err(ErrCRCMismatch)
  }

  /**
   The header fields as numbers, least significant byte first: sequence id, count, and the tag,
   whose top bit is the keyframe flag and whose other fifteen bits are the checksum.
   */
  lemma HeaderNumbers(f: seq<bv8>)
    requires HEADER_SIZE <= |f|
    ensures
      var h := HeaderOf(f);
      && h.id == Number32(f[0], f[1], f[2], f[3]) && h.count == Number16(f[4], f[5])
      && h.crc == Number16(f[6], Low7(f[7])) && (h.keyframe <==> f[7] >= 0x80)
  {
    Get32Number(f[0], f[1], f[2], f[3]);
    Get16Number(f[4], f[5]);
    TagNumber(f[6], f[7]);
    hide Get16, Get32, TagCrc, TagFlag, Number16, Number32, Low7;
  }

  /** The checksum test compares the low fifteen bits of the body's CRC-32, in whatever bytes it has. */
  lemma CrcNumbers(body: seq<bv8>, want: bv16, b0: bv8, b1: bv8, b2: bv8, b3: bv8)
    requires Checksum(body) == Number32(b0, b1, b2, b3)
    ensures CrcOK(body, want) <==> want == Number16(b0, Low7(b1))
  {
    hide Low15, Checksum, Number16, Number32, Low7;
    Low15Number(b0, b1, b2, b3);
  }

  // ------------------------------------------------------------------------------------------
  // The producer's layout (batcher.go, drainAndFlush)

  function HeaderBytes(id: bv32, count: bv16, tag: bv16): seq<bv8> {
    [Byte32(id, 0), Byte32(id, 1), Byte32(id, 2), Byte32(id, 3),
     Byte0(count), Byte1(count), Byte0(tag), Byte1(tag)]
  }

  /** The raw frame: little-endian header with the tag over the raw body, then the body. */
  function RawFrame(id: bv32, count: bv16, key: bool, body: seq<bv8>): seq<bv8> {
    HeaderBytes(id, count, MakeTag(Low15(Checksum(body)), key)) + body
  }

  /** The header's checksum matches the body. */
  predicate Sound(frame: seq<bv8>) {
    HEADER_SIZE <= |frame| && CrcOK(Body(frame), TagCrc(TagOf(frame)))
  }

  lemma RawFrameParts(id: bv32, count: bv16, key: bool, body: seq<bv8>)
    ensures
      var f := RawFrame(id, count, key, body);
      && Sound(f) && Body(f) == body && (TagFlag(TagOf(f)) <==> key)
      && HeaderOf(f) == Header(id, count, Low15(Checksum(body)), key)
  {
    var f, tag := RawFrame(id, count, key, body), MakeTag(Low15(Checksum(body)), key);
    assert f[0..8] == HeaderBytes(id, count, tag);
    Put32(id);
    Put16(count);
    Put16(tag);
    MakeTagParts(Checksum(body), key);
    assert Body(f) == body;
  }

  /** Decode undoes the producer's layout. */
  lemma DecodeRawFrame(id: bv32, count: bv16, key: bool, body: seq<bv8>)
    ensures Decode(RawFrame(id, count, key, body))
            == Ok(Decoded(Header(id, count, Low15(Checksum(body)), key), body))
  {
    RawFrameParts(id, count, key, body);
  }

  lemma HeaderBytesBack(frame: seq<bv8>)
    requires HEADER_SIZE <= |frame|
    ensures HeaderBytes(HeaderOf(frame).id, HeaderOf(frame).count, TagOf(frame)) == frame[..8]
  {
    Bytes32(frame[0], frame[1], frame[2], frame[3]);
    Bytes16(frame[4], frame[5]);
    Bytes16(frame[6], frame[7]);
  }

  /** Decode accepts nothing but the producer's layout of what it returns. */
  lemma DecodeAccepts(frame: seq<bv8>)
    ensures match Decode(frame)
            case Ok(d) => frame == RawFrame(d.header.id, d.header.count, d.header.keyframe, d.body)
            case Err(ErrShortFrame) => |frame| < HEADER_SIZE
            case Err(ErrCRCMismatch) => HEADER_SIZE <= |frame| && !Sound(frame)
  {
    if Decode(frame).Ok? {
      HeaderBytesBack(frame);
      SplitTag(TagOf(frame));
      assert frame == frame[..8] + Body(frame);
    }
  }

  // ------------------------------------------------------------------------------------------
  // The receiver

  datatype Received = Received(raw: seq<bv8>, header: Header)

  datatype Receipt = Receipt(result: Result<Received>, prev: seq<bv8>)

  /** Reads as a keyframe as it stands: flag set and checksum valid. */
  predicate ReadsAsKeyframe(frame: seq<bv8>) {
    Sound(frame) && TagFlag(TagOf(frame))
  }

  /** What Reconstruct returns for a frame against a baseline, and the baseline it leaves. */
  function Receive(prev: seq<bv8>, frame: seq<bv8>): Receipt {
    if |frame| < HEADER_SIZE then
      Receipt(Err(ErrShortFrame), prev)
    else if ReadsAsKeyframe(frame) then
      Receipt(Ok(Received(frame, HeaderOf(frame))), frame)
    else
      var raw := Xor(frame, Fit(prev, |frame|));
      if Sound(raw) then Receipt(Ok(Received(raw, HeaderOf(raw))), raw) else Receipt(Err(ErrCRCMismatch), prev)
  }

  /**
   Whatever bytes arrive: a frame shorter than a header is ErrShortFrame, every other error is a
   checksum mismatch, and every error keeps the baseline; a success returns a sound frame of the
   same length, the frame itself or its XOR with the baseline, and makes it the baseline.
   */
  lemma ReceiveAny(prev: seq<bv8>, frame: seq<bv8>)
    ensures
      var got := Receive(prev, frame);
      match got.result
      case Err(ErrShortFrame) => |frame| < 8 && got.prev == prev
      case Err(ErrCRCMismatch) =>
        8 <= |frame| && got.prev == prev && !ReadsAsKeyframe(frame) && !Sound(Xor(frame, Fit(prev, |frame|)))
      case Ok(r) =>
        && Sound(r.raw) && |r.raw| == |frame| && got.prev == r.raw && r.header == HeaderOf(r.raw)
        && r.raw == if ReadsAsKeyframe(frame) then frame else Xor(frame, Fit(prev, |frame|))
  {
    hide Sound, ReadsAsKeyframe, HeaderOf, Xor, Fit;
    if 8 <= |frame| && ReadsAsKeyframe(frame) { KeyframeIsSound(frame); }
  }

  lemma KeyframeIsSound(frame: seq<bv8>)
    requires ReadsAsKeyframe(frame)
    ensures Sound(frame)
  {
  }

  class DeltaReconstructor {
    var prev: seq<bv8>

    constructor ()
      ensures prev == []
    {
      prev := [];
    }

    method Reconstruct(frame: seq<bv8>) returns (result: Result<Received>)
      modifies this
      ensures Receipt(result, prev) == Receive(old(prev), frame)
    {
      if |frame| < HEADER_SIZE {
        return Err(ErrShortFrame);
      }
      var hk := ParseHeader(frame);
      if hk.Ok? && hk.value.keyframe && CrcOK(frame[HEADER_SIZE..], hk.value.crc) {
        prev := frame;
        return Ok(Received(frame, hk.value));
      }
      var raw: seq<bv8> := [];
      for i := 0 to |frame|
        invariant prev == old(prev)
        invariant raw == Xor(frame, Fit(prev, |frame|))[..i]
      {
        var p: bv8 := 0;
        if i < |prev| {
          p := prev[i];
        }
        raw := raw + [Xor8(frame[i], p)];
      }
      assert !ReadsAsKeyframe(frame) && raw == Xor(frame, Fit(prev, |frame|));
      var h := ParseHeader(raw);
      if h.Err? {
        // ErrShortFrame: ruled out by the length test above.
        assert false;
      }
      if !CrcOK(raw[HEADER_SIZE..], h.value.crc) {
        return Err(ErrCRCMismatch);
      }
      prev := raw;
      return Ok(Received(raw, h.value));
    }
  }
}
