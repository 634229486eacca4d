/**
 The drain engine on top of the flush protocol: a receiver that is fed with what the sink really
 received, in the order in which it received it, under deadlines and abandoned flushes.
 */
module EndToEnd {
  import opened Codec
  import opened DeltaStream
  import opened Engine
  import opened EngineRuns
  import F = FlushProtocol

  /** The receiver fed with a sequence of deliveries. */
  function ReceiveLog(log: seq<F.Delivery>, prev: seq<bv8>): seq<Result<Codec.Received>>
    decreases |log|
  {
    if log == [] then []
    else
      var r := Receive(prev, log[0].bytes);
      [r.result] + ReceiveLog(log[1..], r.prev)
  }

  /** The calls of a protocol run are the attempted flushes of an engine run. */
  ghost predicate Matches(hops: seq<Hop>, calls: seq<F.Call>) {
    |hops| == |calls| && forall i | 0 <= i < |hops| :: HopMatches(hops[i], calls[i])
  }

  predicate HopMatches(h: Hop, c: F.Call) {
    h.payload == c.payload && h.delivered == c.delivered && h.ok == c.outcome.Nil?
  }

  function PrevAfterHops(hops: seq<Hop>, prev: seq<bv8>): seq<bv8>
    decreases |hops|
  {
    if hops == [] then prev
    else PrevAfterHops(hops[1..], if hops[0].delivered then Receive(prev, hops[0].payload).prev else prev)
  }

  function PrevAfterLog(log: seq<F.Delivery>, prev: seq<bv8>): seq<bv8>
    decreases |log|
  {
    if log == [] then prev else PrevAfterLog(log[1..], Receive(prev, log[0].bytes).prev)
  }

  lemma {:induction false} ReceivedGrows(hops: seq<Hop>, h: Hop, prev: seq<bv8>)
    ensures
      var p := PrevAfterHops(hops, prev);
      && ReceivedAll(hops + [h], prev) == ReceivedAll(hops, prev) + (if h.delivered then [Receive(p, h.payload).result] else [])
      && PrevAfterHops(hops + [h], prev) == if h.delivered then Receive(p, h.payload).prev else p
    decreases |hops|
  {
    hide Receive;
    var all := hops + [h];
    if hops == [] {
      assert all == [h] && all[1..] == [];
    } else {
      assert all[0] == hops[0] && all[1..] == hops[1..] + [h];
      ReceivedGrows(hops[1..], h, if hops[0].delivered then Receive(prev, hops[0].payload).prev else prev);
    }
  }

  lemma {:induction false} LogGrows(log: seq<F.Delivery>, d: F.Delivery, prev: seq<bv8>)
    ensures
      var p := PrevAfterLog(log, prev);
      && ReceiveLog(log + [d], prev) == ReceiveLog(log, prev) + [Receive(p, d.bytes).result]
      && PrevAfterLog(log + [d], prev) == Receive(p, d.bytes).prev
    decreases |log|
  {
    hide Receive;
    var all := log + [d];
    if log == [] {
      assert all == [d] && all[1..] == [];
    } else {
      assert all[0] == log[0] && all[1..] == log[1..] + [d];
      LogGrows(log[1..], d, Receive(prev, log[0].bytes).prev);
    }
  }

  /** What the receiver gets from the sink's log is what it gets from the delivered attempts. */
  lemma {:induction false} LogIsHops(hops: seq<Hop>, calls: seq<F.Call>, prev: seq<bv8>)
    requires Matches(hops, calls)
    ensures ReceiveLog(F.Delivered(calls), prev) == ReceivedAll(hops, prev)
    ensures PrevAfterLog(F.Delivered(calls), prev) == PrevAfterHops(hops, prev)
    decreases |hops|
  {
    hide Receive;
    if hops != [] {
      var n := |hops| - 1;
      LogIsHops(hops[..n], calls[..n], prev);
      assert HopMatches(hops[n], calls[n]);
      assert hops == hops[..n] + [hops[n]];
      ReceivedGrows(hops[..n], hops[n], prev);
      if calls[n].delivered {
        LogGrows(F.Delivered(calls[..n]), F.Delivery(n, calls[n].payload), prev);
      } else {
        assert F.Delivered(calls) == F.Delivered(calls[..n]);
      }
    }
  }

  /**
   The stream through the flush protocol, with nothing assumed about deadlines and abandoned
   flushes: the receiver of the sink's log returns exactly the raw frames that were delivered, in
   order, if and only if the last frame reported nil and the last frame delivered stay in step.
   */
  lemma StreamThroughFlush(c: Config, inputs: seq<Input>, size: nat, moves: seq<F.Move>)
    requires ValidConfig(c) && c.delta && Uncompressed(inputs) && Inv(c, Start(c), [])
    requires Matches(Runs(c, Start(c), [], inputs).hops, F.After(F.Init(size), moves).calls)
    ensures
      var hops, log := Runs(c, Start(c), [], inputs).hops, F.After(F.Init(size), moves).log;
      && AllSound(AttemptsOf(hops))
      && (ReceiveLog(log, []) == RawFrames(AttemptsOf(hops)) <==> InStep(AttemptsOf(hops), [], []))
  {
    hide Inv, Runs, ReceivedAll, RawFrames, InStep, Sound, F.After, ReceiveLog;
    F.RunKeeps(size, moves);
    EngineStreamIff(c, Start(c), [], [], inputs);
    LogIsHops(Runs(c, Start(c), [], inputs).hops, F.After(F.Init(size), moves).calls, []);
  }

  /**
   The round trip through the flush protocol: for every interleaving of the drain goroutine with
   its flush goroutines, if no flush has delivered a payload that its call did not report as nil,
   the receiver of the sink's log returns exactly the raw frames of the calls that returned nil,
   in order, if and only if none of their delta frames meets the misread condition.
   */
  lemma RoundTripThroughFlush(c: Config, inputs: seq<Input>, size: nat, moves: seq<F.Move>)
    requires ValidConfig(c) && c.delta && Uncompressed(inputs) && Inv(c, Start(c), [])
    requires Matches(Runs(c, Start(c), [], inputs).hops, F.After(F.Init(size), moves).calls)
    requires
      var s := F.After(F.Init(size), moves);
      forall i | 0 <= i < |s.calls| :: !F.Late(s.calls[i])
    ensures
      var hops, log := Runs(c, Start(c), [], inputs).hops, F.After(F.Init(size), moves).log;
      && AllSound(AttemptsOf(hops))
      && log == F.Believed(F.After(F.Init(size), moves).calls)
      && (ReceiveLog(log, []) == RawFrames(AttemptsOf(hops)) <==> NoMisread(AttemptsOf(hops), []))
  {
    hide Inv, Runs, ReceivedAll, RawFrames, NoMisread, Sound, F.After, ReceiveLog;
    var hops, s := Runs(c, Start(c), [], inputs).hops, F.After(F.Init(size), moves);
    F.RunKeeps(size, moves);
    F.BeliefIsExactIff(size, moves);
    forall i | 0 <= i < |hops| ensures hops[i].delivered == hops[i].ok {
      assert F.CallOk(s, i) && HopMatches(hops[i], s.calls[i]) && !F.Late(s.calls[i]);
    }
    FaithfulRoundTrip(c, inputs);
    LogIsHops(hops, s.calls, []);
  }
}
