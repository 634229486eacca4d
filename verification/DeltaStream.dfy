/**
 The delta/keyframe stream between the sender's baseline and the receiver's. The checksum is
 affine over XOR, so whether the receiver accepts a frame, and how it reads it, is decided by
 the two baselines and the length alone, never by the items.
 */
module DeltaStream {
  import opened Bytes
  import opened Words
  import opened Crc32
  import opened Codec

  /** What the sender transmits: a keyframe as it is, any other frame XORed with its baseline. */
  function Encode(raw: seq<bv8>, base: seq<bv8>): seq<bv8>
    requires HEADER_SIZE <= |raw|
  {
    if TagFlag(TagOf(raw)) then raw else Xor(raw, Fit(base, |raw|))
  }

  // ------------------------------------------------------------------------------------------
  // The two checksum tests

  lemma XorParts(f: seq<bv8>, g: seq<bv8>)
    requires HEADER_SIZE <= |f| == |g|
    ensures TagOf(Xor(f, g)) == Xor16(TagOf(f), TagOf(g))
    ensures Body(Xor(f, g)) == Xor(Body(f), Body(g))
  {
    Get16Linear(f[6], f[7], g[6], g[7]);
  }

  /** The checksum bits that the body of f carries beyond its tag. */
  function Excess(f: seq<bv8>): bv16
    requires HEADER_SIZE <= |f|
  {
    Xor16(Low15(Checksum(Body(f))), TagCrc(TagOf(f)))
  }

  lemma EqualIffZero(a: bv16, b: bv16)
    ensures a == b <==> Xor16(a, b) == 0
  {
    Cancel16(b, a, b);
    Comm16(a, b);
    Self16(b);
  }

  lemma SoundIff(f: seq<bv8>)
    requires HEADER_SIZE <= |f|
    ensures Sound(f) <==> Excess(f) == 0
  {
    EqualIffZero(Low15(Checksum(Body(f))), TagCrc(TagOf(f)));
  }

  lemma Swap16(a: bv16, b: bv16, c: bv16, d: bv16)
    ensures Xor16(Xor16(a, b), Xor16(c, d)) == Xor16(Xor16(a, c), Xor16(b, d))
  {
    Assoc16(a, b, Xor16(c, d));
    Assoc16(b, c, d);
    Comm16(b, c);
    Assoc16(c, b, d);
    Assoc16(a, c, Xor16(b, d));
  }

  lemma Low15Three(a: bv32, b: bv32, c: bv32)
    ensures Low15(Xor32(Xor32(a, b), c)) == Xor16(Xor16(Low15(a), Low15(b)), Low15(c))
  {
    Low15Linear(Xor32(a, b), c);
    Low15Linear(a, b);
  }

  /** The excess of a threefold XOR is the XOR of the excesses. */
  lemma ExcessThree(f: seq<bv8>, g: seq<bv8>, h: seq<bv8>)
    requires HEADER_SIZE <= |f| == |g| == |h|
    ensures Excess(Xor(Xor(f, g), h)) == Xor16(Xor16(Excess(f), Excess(g)), Excess(h))
  {
    hide Xor8, Xor16, Xor32, Low15, TagCrc, TagFlag, Get16, Checksum;
    var fg := Xor(f, g);
    XorParts(f, g);
    XorParts(fg, h);
    Affine(Body(f), Body(g), Body(h));
    Low15Three(Checksum(Body(f)), Checksum(Body(g)), Checksum(Body(h)));
    CrcLinear(TagOf(f), TagOf(g));
    CrcLinear(TagOf(fg), TagOf(h));
    Swap16(Low15(Checksum(Body(f))), TagCrc(TagOf(f)), Low15(Checksum(Body(g))), TagCrc(TagOf(g)));
    Swap16(Xor16(Low15(Checksum(Body(f))), Low15(Checksum(Body(g)))), Xor16(TagCrc(TagOf(f)), TagCrc(TagOf(g))),
           Low15(Checksum(Body(h))), TagCrc(TagOf(h)));
  }

  /**
   The delta path, exactly: a frame sent against baseline b and reconstructed against baseline w
   passes the checksum test if and only if the truncated checksums of the two baselines (cut or
   zero-extended to the frame) differ by exactly as much as their tags.
   */
  lemma DeltaAcceptsIff(raw: seq<bv8>, b: seq<bv8>, w: seq<bv8>)
    requires Sound(raw) && |b| == |w| == |raw|
    ensures Sound(Xor(Xor(raw, b), w)) <==>
            Low15(Xor32(Checksum(Body(b)), Checksum(Body(w)))) == TagCrc(Xor16(TagOf(b), TagOf(w)))
  {
    hide Xor8, Xor16, Xor32, Low15, TagCrc, TagFlag, Get16, Checksum;
    SoundIff(raw);
    SoundIff(Xor(Xor(raw, b), w));
    ExcessThree(raw, b, w);
    Comm16(0, Excess(b));
    Self16(Excess(b));
    Swap16(Low15(Checksum(Body(b))), TagCrc(TagOf(b)), Low15(Checksum(Body(w))), TagCrc(TagOf(w)));
    Low15Linear(Checksum(Body(b)), Checksum(Body(w)));
    CrcLinear(TagOf(b), TagOf(w));
    EqualIffZero(Low15(Xor32(Checksum(Body(b)), Checksum(Body(w)))), TagCrc(Xor16(TagOf(b), TagOf(w))));
  }

  /**
   Against any two sound baselines of the frame's own length the test passes, and the result is
   the sender's frame if and only if the baselines are equal.
   */
  lemma WrongBaselineIsAccepted(raw: seq<bv8>, b: seq<bv8>, w: seq<bv8>)
    requires Sound(raw) && Sound(b) && Sound(w) && |b| == |w| == |raw|
    ensures Sound(Xor(Xor(raw, b), w))
    ensures Xor(Xor(raw, b), w) == raw <==> b == w
  {
    hide Xor8, Xor16, Xor32, Low15, TagCrc, TagFlag, Get16, Checksum;
    SoundIff(raw);
    SoundIff(b);
    SoundIff(w);
    ExcessThree(raw, b, w);
    Self16(0);
    SoundIff(Xor(Xor(raw, b), w));
    XorBackIff(raw, b, w);
  }

  /** The misread condition of a delta frame of n bytes sent against the baseline. */
  predicate Misread(base: seq<bv8>, n: nat)
    requires HEADER_SIZE <= n
  {
    var b := Fit(base, n);
    && TagFlag(TagOf(b))
    && Low15(Xor32(Checksum(Body(b)), Checksum(Zeros(n - HEADER_SIZE)))) == TagCrc(TagOf(b))
  }

  lemma ZerosParts(n: nat)
    requires HEADER_SIZE <= n
    ensures TagOf(Zeros(n)) == 0 && Body(Zeros(n)) == Zeros(n - HEADER_SIZE)
  {
    ZeroTag();
  }

  /** A delta frame reads as a keyframe exactly under the misread condition, whatever its items. */
  lemma MisreadIff(raw: seq<bv8>, base: seq<bv8>)
    requires Sound(raw) && !TagFlag(TagOf(raw))
    ensures ReadsAsKeyframe(Encode(raw, base)) <==> Misread(base, |raw|)
  {
    hide Xor8, Xor16, Xor32, Low15, TagCrc, TagFlag, Get16, Checksum;
    var n := |raw|;
    var b, z := Fit(base, n), Zeros(n);
    var wire := Xor(raw, b);
    assert Encode(raw, base) == wire;
    assert TagFlag(TagOf(wire)) <==> TagFlag(TagOf(b)) by {
      XorParts(raw, b);
      FlagLinear(TagOf(raw), TagOf(b));
    }
    assert Sound(wire) <==> Low15(Xor32(Checksum(Body(b)), Checksum(Body(z)))) == TagCrc(Xor16(TagOf(b), TagOf(z))) by {
      DeltaAcceptsIff(raw, b, z);
      XorZeros(wire);
    }
    ZerosParts(n);
    Self16(TagOf(b));
  }

  /**
   The misread condition for the frame that follows: it needs a keyframe as the baseline, and for
   a sound baseline of the same length it is a fact about the length only.
   */
  lemma MisreadNeedsKeyframe(base: seq<bv8>, n: nat)
    requires HEADER_SIZE <= n && (base == [] || Sound(base))
    ensures Misread(base, n) ==> base != [] && TagFlag(TagOf(base))
    ensures base != [] && |base| == n ==>
              (Misread(base, n) <==> TagFlag(TagOf(base)) && Low15(Checksum(Zeros(n - HEADER_SIZE))) == 0)
  {
    hide Xor8, Xor16, Xor32, Low15, TagCrc, TagFlag, Get16, Checksum;
    if base == [] {
      assert Fit(base, n) == Zeros(n);
      ZerosParts(n);
      ZeroTag();
    } else {
      assert TagOf(Fit(base, n)) == TagOf(base);
      if |base| == n {
        FitSelf(base);
        var c, z := Checksum(Body(base)), Checksum(Zeros(n - HEADER_SIZE));
        Low15Linear(c, z);
        Cancel16(Low15(c), Low15(z), 0);
        Self16(Low15(c));
      }
    }
  }

  // ------------------------------------------------------------------------------------------
  // One frame

  /** What the receiver should hand out for a frame. */
  function Perfect(raw: seq<bv8>): Receipt
    requires HEADER_SIZE <= |raw|
  {
    Receipt(Ok(Received(raw, HeaderOf(raw))), raw)
  }

  lemma KeyframeArrives(raw: seq<bv8>, base: seq<bv8>, prev: seq<bv8>)
    requires Sound(raw) && TagFlag(TagOf(raw))
    ensures Receive(prev, Encode(raw, base)) == Perfect(raw)
  {
  }

  /** A frame is rebuilt against w if and only if w is what it was encoded against. */
  lemma XorBackIff(raw: seq<bv8>, b: seq<bv8>, w: seq<bv8>)
    requires |b| == |w| == |raw|
    ensures Xor(Xor(raw, b), w) == raw <==> b == w
  {
    hide Xor8;
    XorTwice(raw, b);
    if Xor(Xor(raw, b), w) == raw {
      forall i | 0 <= i < |raw| ensures b[i] == w[i] {
        assert Xor(Xor(raw, b), w)[i] == raw[i];
        Cancel8(raw[i], b[i], w[i]);
      }
    }
  }

  /** What the receiver does with a delta frame, whatever the two baselines are. */
  lemma ReceiveByCases(raw: seq<bv8>, base: seq<bv8>, prev: seq<bv8>)
    requires Sound(raw) && !TagFlag(TagOf(raw))
    ensures
      var n, wire := |raw|, Encode(raw, base);
      var got := Receive(prev, wire);
      var back := Xor(Xor(raw, Fit(base, n)), Fit(prev, n));
      if Misread(base, n) then got == Perfect(wire) && wire != raw
      else if Sound(back) then got == Perfect(back)
      else got == Receipt(Err(ErrCRCMismatch), prev)
  {
    hide Xor8, Xor16, Xor32, Low15, TagCrc, TagFlag, Get16, Checksum;
    var b := Fit(base, |raw|);
    MisreadIff(raw, base);
    if Misread(base, |raw|) {
      XorParts(raw, b);
      FlagLinear(TagOf(raw), TagOf(b));
      assert TagFlag(TagOf(Encode(raw, base)));
    }
  }

  /**
   A delta frame is reconstructed, from any baseline of the receiver and any of the sender, if and
   only if it is not misread and the two baselines agree over the length of the frame.
   */
  lemma ReceiveExactIff(raw: seq<bv8>, base: seq<bv8>, prev: seq<bv8>)
    requires Sound(raw) && !TagFlag(TagOf(raw))
    ensures Receive(prev, Encode(raw, base)) == Perfect(raw) <==>
            !Misread(base, |raw|) && Fit(base, |raw|) == Fit(prev, |raw|)
    ensures Receive(prev, Encode(raw, base)).result == Perfect(raw).result ==>
              Receive(prev, Encode(raw, base)) == Perfect(raw)
  {
    hide Receive, Encode, Misread, TagFlag, TagOf, HeaderOf, Sound, Xor, Fit;
    ReceiveByCases(raw, base, prev);
    XorBackIff(raw, Fit(base, |raw|), Fit(prev, |raw|));
  }

  /**
   The receiver reports success for a delta frame if and only if the frame is misread or the
   truncated checksums of the two baselines, over the frame's length, differ by as much as their
   tags; every failure is a checksum mismatch and keeps the baseline.
   */
  lemma ReceiveAcceptsIff(raw: seq<bv8>, base: seq<bv8>, prev: seq<bv8>)
    requires Sound(raw) && !TagFlag(TagOf(raw))
    ensures
      var b, w := Fit(base, |raw|), Fit(prev, |raw|);
      var got := Receive(prev, Encode(raw, base));
      && (got.result.Ok? <==>
            || Misread(base, |raw|)
            || Low15(Xor32(Checksum(Body(b)), Checksum(Body(w)))) == TagCrc(Xor16(TagOf(b), TagOf(w))))
      && (got.result.Err? ==> got == Receipt(Err(ErrCRCMismatch), prev))
  {
    hide Receive, Encode, Misread, TagFlag, TagOf, HeaderOf, Sound, Xor, Checksum, Low15, TagCrc, Xor32, Xor16;
    ReceiveByCases(raw, base, prev);
    DeltaAcceptsIff(raw, Fit(base, |raw|), Fit(prev, |raw|));
  }

  /** With equal baselines a delta frame is reconstructed if and only if it is not misread. */
  lemma DeltaArrivesIff(raw: seq<bv8>, base: seq<bv8>)
    requires Sound(raw) && !TagFlag(TagOf(raw))
    ensures Receive(base, Encode(raw, base)) == Perfect(raw) <==> !Misread(base, |raw|)
    ensures Misread(base, |raw|) ==> Receive(base, Encode(raw, base)).result.Ok?
    ensures Receive(base, Encode(raw, base)).result == Ok(Received(raw, HeaderOf(raw))) ==> !Misread(base, |raw|)
  {
    hide Receive, Encode, Misread, TagFlag, TagOf, HeaderOf, Sound, Xor, Fit;
    ReceiveExactIff(raw, base, base);
    ReceiveByCases(raw, base, base);
  }

  /**
   A receiver without a baseline (mid-stream join) accepts a delta frame, and then hands out the
   bytes on the wire, exactly when the sender's baseline collides with the zero frame.
   */
  lemma FreshJoinIff(raw: seq<bv8>, base: seq<bv8>)
    requires Sound(raw) && !TagFlag(TagOf(raw))
    ensures
      var b, n := Fit(base, |raw|), |raw| - HEADER_SIZE;
      var got := Receive([], Encode(raw, base)).result;
      && (got.Ok? <==> Low15(Xor32(Checksum(Body(b)), Checksum(Zeros(n)))) == TagCrc(TagOf(b)))
      && (got.Ok? ==> got.value.raw == Encode(raw, base))
      && (got.Err? ==> got.error == ErrCRCMismatch)
  {
    hide Xor8, Xor16, Xor32, Low15, TagCrc, TagFlag, Get16, Checksum;
    var n := |raw|;
    var b, z := Fit(base, n), Zeros(n);
    var wire := Xor(raw, b);
    assert Encode(raw, base) == wire;
    assert Fit([], n) == z;
    XorZeros(wire);
    DeltaAcceptsIff(raw, b, z);
    ZerosParts(n);
    Self16(TagOf(b));
  }

  /** Against a sound but different baseline of the same length the receiver reports no error. */
  lemma StaleReceiverIsFooled(raw: seq<bv8>, base: seq<bv8>, prev: seq<bv8>)
    requires Sound(raw) && !TagFlag(TagOf(raw)) && Sound(base) && Sound(prev) && |base| == |prev| == |raw|
    ensures
      var got := Receive(prev, Encode(raw, base)).result;
      got.Ok? && (!Misread(base, |raw|) ==> got.value.raw == Xor(Xor(raw, base), prev)
                                            && (got.value.raw == raw <==> base == prev))
  {
    hide Xor8, Xor16, Xor32, Low15, TagCrc, TagFlag, Get16, Checksum;
    FitSelf(base);
    FitSelf(prev);
    MisreadIff(raw, base);
    WrongBaselineIsAccepted(raw, base, prev);
  }

  // ------------------------------------------------------------------------------------------
  // Whole streams

  /** One attempted flush: the raw frame, whether it arrived, and whether Flush returned nil. */
  datatype Attempt = Attempt(raw: seq<bv8>, delivered: bool, ok: bool)

  predicate AllSound(atts: seq<Attempt>) {
    forall i | 0 <= i < |atts| :: Sound(atts[i].raw)
  }

  /** A frame reaches the receiver exactly when Flush returns nil. */
  predicate Faithful(atts: seq<Attempt>) {
    forall i | 0 <= i < |atts| :: atts[i].delivered == atts[i].ok
  }

  /** The sender's baseline moves on nil only. */
  function NextBase(a: Attempt, base: seq<bv8>): seq<bv8> {
    if a.ok then a.raw else base
  }

  function BaseAfter(atts: seq<Attempt>, base: seq<bv8>): seq<bv8>
    decreases |atts|
  {
    if atts == [] then base else BaseAfter(atts[1..], NextBase(atts[0], base))
  }

  function NextPrev(a: Attempt, base: seq<bv8>, prev: seq<bv8>): seq<bv8>
    requires HEADER_SIZE <= |a.raw|
  {
    if a.delivered then Receive(prev, Encode(a.raw, base)).prev else prev
  }

  function PrevAfter(atts: seq<Attempt>, base: seq<bv8>, prev: seq<bv8>): seq<bv8>
    requires AllSound(atts)
    decreases |atts|
  {
    if atts == [] then prev
    else
      assert Sound(atts[0].raw);
      PrevAfter(atts[1..], NextBase(atts[0], base), NextPrev(atts[0], base, prev))
  }

  /** Everything the receiver returns over the stream. */
  function Outputs(atts: seq<Attempt>, base: seq<bv8>, prev: seq<bv8>): seq<Result<Received>>
    requires AllSound(atts)
    decreases |atts|
  {
    if atts == [] then []
    else
      assert Sound(atts[0].raw);
      (if atts[0].delivered then [Receive(prev, Encode(atts[0].raw, base)).result] else [])
      + Outputs(atts[1..], NextBase(atts[0], base), NextPrev(atts[0], base, prev))
  }

  /** What a perfect channel would return: the delivered raw frames in order. */
  function RawFrames(atts: seq<Attempt>): seq<Result<Received>>
    requires AllSound(atts)
    decreases |atts|
  {
    if atts == [] then []
    else
      assert Sound(atts[0].raw);
      (if atts[0].delivered then [Perfect(atts[0].raw).result] else []) + RawFrames(atts[1..])
  }

  /** No delivered delta frame meets the misread condition against the sender's own baseline. */
  predicate NoMisread(atts: seq<Attempt>, base: seq<bv8>)
    requires AllSound(atts)
    decreases |atts|
  {
    atts == [] ||
    (assert Sound(atts[0].raw);
     && (atts[0].delivered && !TagFlag(TagOf(atts[0].raw)) ==> !Misread(base, |atts[0].raw|))
     && NoMisread(atts[1..], NextBase(atts[0], base)))
  }

  /**
   Sender and receiver stay in step: whenever a delta frame arrives it is not misread, and the last
   frame reported as flushed agrees over its length with the last frame that arrived.
   */
  predicate InStep(atts: seq<Attempt>, base: seq<bv8>, prev: seq<bv8>)
    requires AllSound(atts)
    decreases |atts|
  {
    atts == [] ||
    (assert Sound(atts[0].raw);
     var a := atts[0];
     && (a.delivered && !TagFlag(TagOf(a.raw)) ==>
           !Misread(base, |a.raw|) && Fit(base, |a.raw|) == Fit(prev, |a.raw|))
     && InStep(atts[1..], NextBase(a, base), if a.delivered then a.raw else prev))
  }

  /** One frame, of either kind. */
  lemma ArrivesIff(raw: seq<bv8>, base: seq<bv8>, prev: seq<bv8>)
    requires Sound(raw)
    ensures
      var got := Receive(prev, Encode(raw, base));
      && (got == Perfect(raw) <==>
            TagFlag(TagOf(raw)) || (!Misread(base, |raw|) && Fit(base, |raw|) == Fit(prev, |raw|)))
      && (got.result == Perfect(raw).result ==> got == Perfect(raw))
  {
    hide Receive, Encode, Misread, TagFlag, TagOf, HeaderOf, CrcOK, Body, Fit;
    if TagFlag(TagOf(raw)) { KeyframeArrives(raw, base, prev); } else { ReceiveExactIff(raw, base, prev); }
  }

  /** The stream, one attempt at a time. */
  lemma StreamStep(atts: seq<Attempt>, base: seq<bv8>, prev: seq<bv8>)
    requires AllSound(atts) && atts != []
    ensures AllSound(atts[1..]) && Sound(atts[0].raw)
    ensures
      var a, rest := atts[0], atts[1..];
      var later := Outputs(rest, NextBase(a, base), NextPrev(a, base, prev));
      if a.delivered then
        && Outputs(atts, base, prev) == [Receive(prev, Encode(a.raw, base)).result] + later
        && RawFrames(atts) == [Perfect(a.raw).result] + RawFrames(rest)
      else
        Outputs(atts, base, prev) == later && RawFrames(atts) == RawFrames(rest)
  {
    hide Receive, Encode, Misread, TagFlag, TagOf, HeaderOf, CrcOK, Body;
    assert Sound(atts[0].raw);
  }

  /**
   Over every stream of attempts, whatever is lost, delivered late or wrongly reported, frames of
   any lengths and any two baselines to begin with: the receiver returns exactly the raw frames
   that arrive, in order, if and only if the two sides stay in step.
   */
  lemma {:induction false} AnyStreamExactIff(atts: seq<Attempt>, base: seq<bv8>, prev: seq<bv8>)
    requires AllSound(atts)
    ensures Outputs(atts, base, prev) == RawFrames(atts) <==> InStep(atts, base, prev)
    decreases |atts|
  {
    hide Receive, Encode, Misread, TagFlag, TagOf, HeaderOf, CrcOK, Body, Fit, Outputs, RawFrames;
    if atts == [] {
      NothingArrives(base, prev);
    } else {
      var a, rest := atts[0], atts[1..];
      StreamStep(atts, base, prev);
      AnyStreamExactIff(rest, NextBase(a, base), NextPrev(a, base, prev));
      if a.delivered {
        ArrivesIff(a.raw, base, prev);
        SameLists(Receive(prev, Encode(a.raw, base)).result, Outputs(rest, NextBase(a, base), NextPrev(a, base, prev)),
                  Perfect(a.raw).result, RawFrames(rest));
      }
    }
  }

  lemma NothingArrives(base: seq<bv8>, prev: seq<bv8>)
    ensures Outputs([], base, prev) == RawFrames([])
  {
  }

  lemma SameLists<T>(x: T, a: seq<T>, y: T, b: seq<T>)
    ensures [x] + a == [y] + b <==> x == y && a == b
  {
    assert ([x] + a)[1..] == a && ([y] + b)[1..] == b && ([x] + a)[0] == x && ([y] + b)[0] == y;
  }

  /** If frames arrive exactly when Flush returns nil, staying in step is not being misread. */
  lemma {:induction false} FaithfulInStep(atts: seq<Attempt>, base: seq<bv8>)
    requires AllSound(atts) && Faithful(atts)
    ensures InStep(atts, base, base) <==> NoMisread(atts, base)
    decreases |atts|
  {
    hide Misread, TagFlag, TagOf, HeaderOf, CrcOK, Body, Fit;
    if atts != [] {
      assert Sound(atts[0].raw);
      FaithfulInStep(atts[1..], NextBase(atts[0], base));
    }
  }

  /**
   Over every run of failed and successful flushes, with frames of any lengths: from equal
   baselines the receiver returns exactly the sender's raw frames in order if and only if no
   delivered delta frame meets the misread condition.
   */
  lemma StreamExactIff(atts: seq<Attempt>, base: seq<bv8>)
    requires AllSound(atts) && Faithful(atts)
    ensures Outputs(atts, base, base) == RawFrames(atts) <==> NoMisread(atts, base)
  {
    hide Outputs, RawFrames, InStep, NoMisread, Sound;
    AnyStreamExactIff(atts, base, base);
    FaithfulInStep(atts, base);
  }

  predicate NoKeyframes(atts: seq<Attempt>)
    requires AllSound(atts)
  {
    forall i | 0 <= i < |atts| :: Sound(atts[i].raw) && !TagFlag(TagOf(atts[i].raw))
  }

  /** Without keyframes (KeyframeInterval 0) nothing is ever misread. */
  lemma {:induction false} NoKeyframesNoMisread(atts: seq<Attempt>, base: seq<bv8>)
    requires AllSound(atts) && NoKeyframes(atts)
    requires base == [] || (Sound(base) && !TagFlag(TagOf(base)))
    ensures NoMisread(atts, base)
    decreases |atts|
  {
    hide Receive, Encode, Misread, TagFlag, TagOf, HeaderOf, CrcOK, Body;
    if atts != [] {
      assert Sound(atts[0].raw);
      MisreadNeedsKeyframe(base, |atts[0].raw|);
      NoKeyframesNoMisread(atts[1..], NextBase(atts[0], base));
    }
  }

  /** From the first frame on, a stream without keyframes is reconstructed unconditionally. */
  lemma PlainStreamIsExact(atts: seq<Attempt>)
    requires AllSound(atts) && Faithful(atts) && NoKeyframes(atts)
    ensures Outputs(atts, [], []) == RawFrames(atts)
  {
    hide Receive, Encode, Misread, TagFlag, TagOf, HeaderOf, CrcOK, Body;
    NoKeyframesNoMisread(atts, []);
    StreamExactIff(atts, []);
  }

  // ------------------------------------------------------------------------------------------
  // Resynchronisation

  lemma {:induction false} SplitStream(before: seq<Attempt>, after: seq<Attempt>, base: seq<bv8>, prev: seq<bv8>)
    requires AllSound(before) && AllSound(after)
    ensures AllSound(before + after)
    ensures Outputs(before + after, base, prev)
            == Outputs(before, base, prev) + Outputs(after, BaseAfter(before, base), PrevAfter(before, base, prev))
    decreases |before|
  {
    hide Receive, Encode, Misread, TagFlag, TagOf, HeaderOf, CrcOK, Body;
    if before == [] {
      assert before + after == after;
    } else {
      assert Sound(before[0].raw);
      assert (before + after)[0] == before[0] && (before + after)[1..] == before[1..] + after;
      SplitStream(before[1..], after, NextBase(before[0], base), NextPrev(before[0], base, prev));
    }
  }

  /**
   Resynchronisation: whatever happened before, and whatever the two baselines were, after one
   keyframe that is delivered and reported successful the receiver's output is exact if and only
   if the continuation stays in step, which for a faithful one means that nothing is misread.
   */
  lemma KeyframeResynchronises(before: seq<Attempt>, key: Attempt, after: seq<Attempt>, base: seq<bv8>, prev: seq<bv8>)
    requires AllSound(before) && AllSound(after)
    requires Sound(key.raw) && TagFlag(TagOf(key.raw)) && key.delivered && key.ok
    ensures AllSound(before + ([key] + after))
    ensures
      var out := Outputs(before + ([key] + after), base, prev);
      var k := |Outputs(before, base, prev)|;
      && k < |out| && out[k] == Perfect(key.raw).result
      && (out[k + 1..] == RawFrames(after) <==> InStep(after, key.raw, key.raw))
      && (Faithful(after) ==> (out[k + 1..] == RawFrames(after) <==> NoMisread(after, key.raw)))
  {
    hide Receive, Encode, Misread, TagFlag, TagOf, HeaderOf, CrcOK, Body, Outputs, RawFrames, InStep, NoMisread;
    var b, p := BaseAfter(before, base), PrevAfter(before, base, prev);
    var tail := [key] + after;
    assert AllSound(tail);
    SplitStream(before, tail, base, prev);
    KeyframeArrives(key.raw, b, p);
    assert tail[1..] == after;
    StreamStep(tail, b, p);
    AnyStreamExactIff(after, key.raw, key.raw);
    if Faithful(after) { StreamExactIff(after, key.raw); }
    assert Outputs(tail, b, p) == [Perfect(key.raw).result] + Outputs(after, key.raw, key.raw);
  }
}
