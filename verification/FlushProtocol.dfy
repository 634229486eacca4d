/**
 flushWithTimeout of batcher.go as an interleaving step system: the drain goroutine, which makes
 one call after another, against the flush goroutines it starts and may abandon at a deadline.
 They share the flag flushInFlight, the snapshot buffer timeoutBuf and one result channel per
 call. Reading, delivering and reporting are separate steps.
 */
module FlushProtocol {

  /** What a call returned. Deadline and Refused are both ErrFlushTimeout. */
  datatype Outcome = Pending | Nil | SinkError | Deadline | Refused

  /**
   The goroutine of a call: inside Sink.Flush with the bytes it has read so far, back from it, its
   result in the channel, or gone with flushInFlight cleared.
   */
  datatype Worker = NotStarted | Flushing(seen: seq<bv8>) | Returned(ok: bool) | Reported(ok: bool) | Finished(ok: bool)

  datatype Call = Call(payload: seq<bv8>, outcome: Outcome, worker: Worker, delivered: bool)

  /** Where the drain goroutine is in its latest call. */
  datatype Caller = Idle | Trying | Copying(copied: nat) | Waiting

  datatype Delivery = Delivery(id: nat, bytes: seq<bv8>)

  datatype Sys = Sys(calls: seq<Call>, caller: Caller, inFlight: bool, buf: seq<bv8>, log: seq<Delivery>)

  datatype Move =
    | Enter(payload: seq<bv8>)
    | TryClaim
    | CopyByte
    | Launch
    | ReadByte(id: nat)
    | DeliverAll(id: nat)
    | Return(id: nat, ok: bool)
    | Report(id: nat)
    | Clear(id: nat)
    | Receive
    | Expire

  function Init(size: nat): Sys {
    Sys([], Idle, false, seq(size, i => 0), [])
  }

  function Last(s: Sys): (i: int)
    ensures i == |s.calls| - 1
  {
    |s.calls| - 1
  }

  /**
   When a move can happen. Payloads fit the snapshot buffer, as every payload of a drain does; a
   sink delivers a payload at most once, after reading all of it, and reports success only then.
   */
  predicate Enabled(s: Sys, m: Move) {
    match m
    case Enter(p) => s.caller.Idle? && |p| <= |s.buf|
    case TryClaim => s.caller.Trying? && s.calls != []
    case CopyByte =>
      s.caller.Copying? && s.calls != [] && s.caller.copied < |s.calls[Last(s)].payload| && s.caller.copied < |s.buf|
    case Launch => s.caller.Copying? && s.calls != [] && s.caller.copied >= |s.calls[Last(s)].payload|
    case ReadByte(id) =>
      && id < |s.calls| && s.calls[id].worker.Flushing?
      && |s.calls[id].worker.seen| < |s.calls[id].payload| && |s.calls[id].worker.seen| < |s.buf|
    case DeliverAll(id) =>
      && id < |s.calls| && s.calls[id].worker.Flushing? && !s.calls[id].delivered
      && |s.calls[id].worker.seen| == |s.calls[id].payload|
    case Return(id, ok) => id < |s.calls| && s.calls[id].worker.Flushing? && (ok ==> s.calls[id].delivered)
    case Report(id) => id < |s.calls| && s.calls[id].worker.Returned?
    case Clear(id) => id < |s.calls| && s.calls[id].worker.Reported?
    case Receive =>
      s.caller.Waiting? && s.calls != [] && (s.calls[Last(s)].worker.Reported? || s.calls[Last(s)].worker.Finished?)
    case Expire => s.caller.Waiting? && s.calls != []
  }

  function SetWorker(s: Sys, id: nat, w: Worker): Sys
    requires id < |s.calls|
  {
    s.(calls := s.calls[id := s.calls[id].(worker := w)])
  }

  /** The latest call returns. */
  function Finish(s: Sys, o: Outcome): Sys
    requires s.calls != []
  {
    s.(calls := s.calls[Last(s) := s.calls[Last(s)].(outcome := o)], caller := Idle)
  }

  function Apply(s: Sys, m: Move): Sys
    requires Enabled(s, m)
  {
    match m
    case Enter(p) => s.(calls := s.calls + [Call(p, Pending, NotStarted, false)], caller := Trying)
    case TryClaim => if s.inFlight then Finish(s, Refused) else s.(inFlight := true, caller := Copying(0))
    case CopyByte =>
      var k := s.caller.copied;
      s.(buf := s.buf[k := s.calls[Last(s)].payload[k]], caller := Copying(k + 1))
    case Launch => SetWorker(s, Last(s), Flushing([])).(caller := Waiting)
    case ReadByte(id) =>
      var seen := s.calls[id].worker.seen;
      SetWorker(s, id, Flushing(seen + [s.buf[|seen|]]))
    case DeliverAll(id) =>
      s.(calls := s.calls[id := s.calls[id].(delivered := true)], log := s.log + [Delivery(id, s.calls[id].worker.seen)])
    case Return(id, ok) => SetWorker(s, id, Returned(ok))
    case Report(id) => SetWorker(s, id, Reported(s.calls[id].worker.ok))
    case Clear(id) => SetWorker(s, id, Finished(s.calls[id].worker.ok)).(inFlight := false)
    case Receive => Finish(s, if s.calls[Last(s)].worker.ok then Nil else SinkError)
    case Expire => Finish(s, Deadline)
  }

  /** A move that cannot happen changes nothing. */
  function Next(s: Sys, m: Move): Sys {
    if Enabled(s, m) then Apply(s, m) else s
  }

  function After(s: Sys, moves: seq<Move>): Sys {
    if moves == [] then s else Next(After(s, moves[..|moves| - 1]), moves[|moves| - 1])
  }

  // ------------------------------------------------------------------------------------------
  // The invariant

  /** Between the launch and the clearing of the flag. */
  predicate Unfinished(c: Call) {
    c.worker.Flushing? || c.worker.Returned? || c.worker.Reported?
  }

  ghost predicate CallOk(s: Sys, i: nat)
    requires i < |s.calls|
  {
    var c := s.calls[i];
    && |c.payload| <= |s.buf|
    && (c.outcome.Pending? <==> i == Last(s) && !s.caller.Idle?)
    && (c.worker.NotStarted? <==> c.outcome.Refused? || (i == Last(s) && (s.caller.Trying? || s.caller.Copying?)))
    && (Unfinished(c) ==> s.inFlight && !s.caller.Copying? && s.buf[..|c.payload|] == c.payload)
    && (c.worker.Flushing? ==> |c.worker.seen| <= |c.payload| && c.worker.seen == c.payload[..|c.worker.seen|])
    && (c.worker.NotStarted? ==> !c.delivered)
    && (c.worker.Returned? || c.worker.Reported? || c.worker.Finished? ==> c.worker.ok ==> c.delivered)
    && (c.outcome.Nil? || c.outcome.SinkError? ==>
          (c.worker.Reported? || c.worker.Finished?) && (c.outcome.Nil? <==> c.worker.ok))
  }

  /** While a flush is unfinished no later call has started one. */
  ghost predicate PairOk(s: Sys, i: nat, j: nat)
    requires i < |s.calls| && j < |s.calls|
  {
    i < j && Unfinished(s.calls[i]) ==> s.calls[j].worker.NotStarted?
  }

  /** The payloads that were delivered, in the order of the calls. */
  function Delivered(calls: seq<Call>): seq<Delivery> {
    if calls == [] then []
    else
      var n := |calls| - 1;
      Delivered(calls[..n]) + if calls[n].delivered then [Delivery(n, calls[n].payload)] else []
  }

  ghost predicate CallerOk(s: Sys) {
    && (!s.caller.Idle? ==> s.calls != [])
    && (s.caller.Copying? ==>
          && s.inFlight && s.caller.copied <= |s.calls[Last(s)].payload| <= |s.buf|
          && s.buf[..s.caller.copied] == s.calls[Last(s)].payload[..s.caller.copied])
    && (s.inFlight ==> s.caller.Copying? || exists i :: 0 <= i < |s.calls| && Unfinished(s.calls[i]))
  }

  ghost predicate Inv(s: Sys) {
    && (forall i | 0 <= i < |s.calls| :: CallOk(s, i))
    && (forall i, j | 0 <= i < |s.calls| && 0 <= j < |s.calls| :: PairOk(s, i, j))
    && CallerOk(s)
    && s.log == Delivered(s.calls)
  }

  /** Deliveries depend on the payloads and the delivered marks alone. */
  lemma {:induction false} DeliveredSame(calls: seq<Call>, calls': seq<Call>)
    requires |calls| == |calls'|
    requires forall i | 0 <= i < |calls| :: calls[i].payload == calls'[i].payload && calls[i].delivered == calls'[i].delivered
    ensures Delivered(calls) == Delivered(calls')
  {
    if calls != [] {
      var n := |calls| - 1;
      DeliveredSame(calls[..n], calls'[..n]);
    }
  }

  /** A delivery by the latest call that has one goes to the end. */
  lemma {:induction false} DeliveredAppends(calls: seq<Call>, id: nat)
    requires id < |calls| && forall j | id <= j < |calls| :: !calls[j].delivered
    ensures Delivered(calls[id := calls[id].(delivered := true)]) == Delivered(calls) + [Delivery(id, calls[id].payload)]
  {
    var n := |calls| - 1;
    var calls' := calls[id := calls[id].(delivered := true)];
    if id == n {
      assert calls'[..n] == calls[..n];
    } else {
      assert calls'[..n] == calls[..n][id := calls[id].(delivered := true)];
      DeliveredAppends(calls[..n], id);
    }
  }

  lemma EnterKeeps(s: Sys, p: seq<bv8>)
    requires Inv(s) && Enabled(s, Enter(p))
    ensures Inv(Apply(s, Enter(p)))
  {
    var s' := Apply(s, Enter(p));
    forall i | 0 <= i < |s'.calls| ensures CallOk(s', i) {
      if i < |s.calls| { assert CallOk(s, i); }
    }
    forall i, j | 0 <= i < |s'.calls| && 0 <= j < |s'.calls| ensures PairOk(s', i, j) {
      if i < |s.calls| && j < |s.calls| { assert PairOk(s, i, j); }
    }
    assert s'.calls[..|s.calls|] == s.calls;
    if s.inFlight {
      var i :| 0 <= i < |s.calls| && Unfinished(s.calls[i]);
      assert Unfinished(s'.calls[i]);
    }
  }

  /** Moves of the drain goroutine inside a call. */
  lemma CallerKeeps(s: Sys, m: Move)
    requires Inv(s) && Enabled(s, m) && (m.TryClaim? || m.CopyByte? || m.Launch? || m.Receive? || m.Expire?)
    ensures Inv(Apply(s, m))
  {
    var s' := Apply(s, m);
    assert CallOk(s, Last(s));
    forall i | 0 <= i < |s'.calls| ensures CallOk(s', i) {
      assert CallOk(s, i);
    }
    forall i, j | 0 <= i < |s'.calls| && 0 <= j < |s'.calls| ensures PairOk(s', i, j) {
      assert PairOk(s, i, j) && CallOk(s, i);
    }
    DeliveredSame(s.calls, s'.calls);
    if m.Launch? {
      assert Unfinished(s'.calls[Last(s)]);
    } else if s.inFlight && !s.caller.Copying? {
      var i :| 0 <= i < |s.calls| && Unfinished(s.calls[i]);
      assert Unfinished(s'.calls[i]);
    }
  }

  /** Moves of a flush goroutine. */
  lemma WorkerKeeps(s: Sys, m: Move)
    requires Inv(s) && Enabled(s, m) && (m.ReadByte? || m.Return? || m.Report? || m.Clear?)
    ensures Inv(Apply(s, m))
  {
    var s' := Apply(s, m);
    assert CallOk(s, m.id) && Unfinished(s.calls[m.id]);
    forall i | 0 <= i < |s'.calls| ensures CallOk(s', i) {
      assert CallOk(s, i) && PairOk(s, i, m.id) && PairOk(s, m.id, i);
    }
    forall i, j | 0 <= i < |s'.calls| && 0 <= j < |s'.calls| ensures PairOk(s', i, j) {
      assert PairOk(s, i, j);
    }
    DeliveredSame(s.calls, s'.calls);
    if !m.Clear? { assert Unfinished(s'.calls[m.id]); }
  }

  lemma DeliverKeeps(s: Sys, id: nat)
    requires Inv(s) && Enabled(s, DeliverAll(id))
    ensures Inv(Apply(s, DeliverAll(id)))
  {
    var s' := Apply(s, DeliverAll(id));
    assert CallOk(s, id);
    assert s.calls[id].worker.seen == s.calls[id].payload;
    forall i | 0 <= i < |s'.calls| ensures CallOk(s', i) {
      assert CallOk(s, i);
    }
    forall i, j | 0 <= i < |s'.calls| && 0 <= j < |s'.calls| ensures PairOk(s', i, j) {
      assert PairOk(s, i, j);
    }
    forall j | id <= j < |s.calls| ensures !s.calls[j].delivered { assert PairOk(s, id, j) && CallOk(s, j); }
    DeliveredAppends(s.calls, id);
    assert Unfinished(s'.calls[id]);
  }

  lemma NextKeeps(s: Sys, m: Move)
    requires Inv(s)
    ensures Inv(Next(s, m)) && |Next(s, m).buf| == |s.buf|
  {
    hide Inv;
    if Enabled(s, m) {
      match m
      case Enter(p) => EnterKeeps(s, p);
      case TryClaim => CallerKeeps(s, m);
      case CopyByte => CallerKeeps(s, m);
      case Launch => CallerKeeps(s, m);
      case Receive => CallerKeeps(s, m);
      case Expire => CallerKeeps(s, m);
      case DeliverAll(id) => DeliverKeeps(s, id);
      case _ => WorkerKeeps(s, m);
    }
  }

  lemma {:induction false} RunKeeps(size: nat, moves: seq<Move>)
    ensures Inv(After(Init(size), moves)) && |After(Init(size), moves).buf| == size
  {
    if moves != [] {
      var before, m := moves[..|moves| - 1], moves[|moves| - 1];
      RunKeeps(size, before);
      NextKeeps(After(Init(size), before), m);
    }
  }

  // ------------------------------------------------------------------------------------------
  // What every run guarantees

  /** At most one Sink.Flush runs. */
  ghost predicate OneFlush(s: Sys) {
    forall i, j | 0 <= i < |s.calls| && 0 <= j < |s.calls| ::
      s.calls[i].worker.Flushing? && s.calls[j].worker.Flushing? ==> i == j
  }

  /** While a Sink.Flush runs, timeoutBuf is not being written and holds exactly that flush's payload. */
  ghost predicate SnapshotHeld(s: Sys) {
    forall i | 0 <= i < |s.calls| && s.calls[i].worker.Flushing? ::
      && !s.caller.Copying? && |s.calls[i].payload| <= |s.buf|
      && s.buf[..|s.calls[i].payload|] == s.calls[i].payload
  }

  /** A call that returned nil delivered its own payload; a refused one delivered nothing. */
  ghost predicate ResultsTrue(s: Sys) {
    forall i | 0 <= i < |s.calls| ::
      && (s.calls[i].outcome.Nil? ==> Delivery(i, s.calls[i].payload) in s.log)
      && (s.calls[i].outcome.Refused? ==> !s.calls[i].delivered)
  }

  /**
   Over every interleaving at most one Sink.Flush runs, its snapshot is never written meanwhile,
   results are true, and what has been delivered is the calls' own payloads, in the order of the
   calls and at most once each.
   */
  lemma EveryRunIsSafe(size: nat, moves: seq<Move>)
    ensures
      var s := After(Init(size), moves);
      OneFlush(s) && SnapshotHeld(s) && ResultsTrue(s) && s.log == Delivered(s.calls)
  {
    RunKeeps(size, moves);
    InvIsSafe(After(Init(size), moves));
  }

  lemma InvIsSafe(s: Sys)
    requires Inv(s)
    ensures OneFlush(s) && SnapshotHeld(s) && ResultsTrue(s)
  {
    forall i, j | 0 <= i < |s.calls| && 0 <= j < |s.calls| && s.calls[i].worker.Flushing? && s.calls[j].worker.Flushing?
      ensures i == j
    {
      assert PairOk(s, i, j) && PairOk(s, j, i);
    }
    forall i | 0 <= i < |s.calls|
      ensures s.calls[i].outcome.Nil? ==> Delivery(i, s.calls[i].payload) in s.log
      ensures s.calls[i].outcome.Refused? ==> !s.calls[i].delivered
    {
      assert CallOk(s, i);
      if s.calls[i].outcome.Nil? { DeliveredHas(s.calls, i); }
    }
    forall i | 0 <= i < |s.calls| && s.calls[i].worker.Flushing?
      ensures !s.caller.Copying? && |s.calls[i].payload| <= |s.buf| && s.buf[..|s.calls[i].payload|] == s.calls[i].payload
    {
      assert CallOk(s, i);
    }
  }

  lemma {:induction false} DeliveredHas(calls: seq<Call>, i: nat)
    requires i < |calls| && calls[i].delivered
    ensures Delivery(i, calls[i].payload) in Delivered(calls)
  {
    if i < |calls| - 1 { DeliveredHas(calls[..|calls| - 1], i); }
  }

  /** The deliveries name calls in strictly increasing order. */
  lemma {:induction false} DeliveriesAscend(calls: seq<Call>)
    ensures forall a | 0 <= a < |Delivered(calls)| :: DeliveryOf(calls, Delivered(calls)[a])
    ensures forall a, b | 0 <= a < b < |Delivered(calls)| :: Delivered(calls)[a].id < Delivered(calls)[b].id
  {
    if calls != [] {
      var n := |calls| - 1;
      var log, log' := Delivered(calls[..n]), Delivered(calls);
      DeliveriesAscend(calls[..n]);
      forall a | 0 <= a < |log'| ensures DeliveryOf(calls, log'[a]) {
        if a < |log| { assert DeliveryOf(calls[..n], log[a]); }
      }
      forall a, b | 0 <= a < b < |log'| ensures log'[a].id < log'[b].id {
        assert DeliveryOf(calls[..n], log[a]);
        if b < |log| { assert log[a].id < log[b].id; }
      }
    }
  }

  predicate DeliveryOf(calls: seq<Call>, d: Delivery) {
    d.id < |calls| && calls[d.id].delivered && d.bytes == calls[d.id].payload
  }

  /** What the drain loop believes was delivered: the payloads of the calls that returned nil. */
  function Believed(calls: seq<Call>): seq<Delivery> {
    if calls == [] then []
    else
      var n := |calls| - 1;
      Believed(calls[..n]) + if calls[n].outcome.Nil? then [Delivery(n, calls[n].payload)] else []
  }

  /** A payload was delivered although its call did not return nil. */
  predicate Late(c: Call) {
    c.delivered && !c.outcome.Nil?
  }

  lemma {:induction false} NotLateSame(calls: seq<Call>)
    requires forall i | 0 <= i < |calls| :: calls[i].outcome.Nil? ==> calls[i].delivered
    ensures |Believed(calls)| <= |Delivered(calls)|
    ensures Delivered(calls) == Believed(calls) <==> forall i | 0 <= i < |calls| :: !Late(calls[i])
  {
    if calls != [] {
      var n := |calls| - 1;
      NotLateSame(calls[..n]);
      if Late(calls[n]) {
        assert |Delivered(calls)| > |Believed(calls)|;
      } else if forall i | 0 <= i < n :: !Late(calls[..n][i]) {
        assert forall i | 0 <= i < n :: !Late(calls[i]) by {
          forall i | 0 <= i < n ensures !Late(calls[i]) { assert calls[..n][i] == calls[i]; }
        }
      } else {
        var i :| 0 <= i < n && Late(calls[..n][i]);
        assert Late(calls[i]);
        if Delivered(calls) == Believed(calls) {
          SameSuffix(Delivered(calls[..n]), Believed(calls[..n]), if calls[n].delivered then [Delivery(n, calls[n].payload)] else []);
        }
      }
    }
  }

  lemma SameSuffix<T>(a: seq<T>, b: seq<T>, t: seq<T>)
    requires a + t == b + t
    ensures a == b
  {
    assert |a| == |b|;
    assert a == (a + t)[..|a|] && b == (b + t)[..|b|];
  }

  /**
   The sink has received exactly what the drain loop believes it has, in order, if and only if no
   flush whose call ended in an error or at its deadline has delivered.
   */
  lemma BeliefIsExactIff(size: nat, moves: seq<Move>)
    ensures
      var s := After(Init(size), moves);
      s.log == Believed(s.calls) <==> forall i | 0 <= i < |s.calls| :: !Late(s.calls[i])
  {
    RunKeeps(size, moves);
    var s := After(Init(size), moves);
    forall i | 0 <= i < |s.calls| ensures s.calls[i].outcome.Nil? ==> s.calls[i].delivered { assert CallOk(s, i); }
    NotLateSame(s.calls);
  }

  /** A call is refused if and only if the goroutine of an earlier call has yet to clear the flag. */
  lemma RefusedIff(size: nat, moves: seq<Move>)
    requires After(Init(size), moves).caller.Trying?
    ensures
      var s := After(Init(size), moves);
      var s' := Next(s, TryClaim);
      && s.calls != [] && |s'.calls| == |s.calls|
      && (s'.calls[Last(s)].outcome.Refused? <==> exists i :: 0 <= i < Last(s) && Unfinished(s.calls[i]))
  {
    RunKeeps(size, moves);
    var s := After(Init(size), moves);
    assert CallOk(s, Last(s));
    if s.inFlight {
      var i :| 0 <= i < |s.calls| && Unfinished(s.calls[i]);
      assert i < Last(s);
    } else {
      forall i | 0 <= i < Last(s) ensures !Unfinished(s.calls[i]) { assert CallOk(s, i); }
    }
  }

  /** An abandoned goroutine always finishes once its sink returns, and the next call can claim. */
  lemma AbandonedFlushFinishes(size: nat, moves: seq<Move>, id: nat)
    requires
      var s := After(Init(size), moves);
      id < |s.calls| && s.calls[id].worker.Returned?
    ensures
      var s := After(Init(size), moves + [Report(id)] + [Clear(id)]);
      && !s.inFlight && id < |s.calls| && s.calls[id].worker.Finished?
      && (forall i | 0 <= i < |s.calls| :: !Unfinished(s.calls[i]))
  {
    var more := moves + [Report(id)];
    assert more[..|moves|] == moves;
    var all := more + [Clear(id)];
    assert all[..|more|] == more;
    RunKeeps(size, all);
    var s := After(Init(size), all);
    forall i | 0 <= i < |s.calls| ensures !Unfinished(s.calls[i]) { assert CallOk(s, i); }
  }

  lemma OutcomeStays(s: Sys, m: Move, i: nat)
    requires Inv(s) && i < |s.calls| && !s.calls[i].outcome.Pending?
    ensures
      var s' := Next(s, m);
      i < |s'.calls| && s'.calls[i].payload == s.calls[i].payload && s'.calls[i].outcome == s.calls[i].outcome
  {
    assert CallOk(s, i);
    hide Inv;
  }

  /** A returned call keeps its result, whatever its goroutine does later. */
  lemma {:induction false} OutcomesAreFinal(s: Sys, moves: seq<Move>, i: nat)
    requires Inv(s) && i < |s.calls| && !s.calls[i].outcome.Pending?
    ensures
      var t := After(s, moves);
      Inv(t) && i < |t.calls| && t.calls[i].payload == s.calls[i].payload && t.calls[i].outcome == s.calls[i].outcome
  {
    hide Next, Inv;
    if moves != [] {
      var before, m := moves[..|moves| - 1], moves[|moves| - 1];
      OutcomesAreFinal(s, before, i);
      var t := After(s, before);
      OutcomeStays(t, m, i);
      NextKeeps(t, m);
    }
  }

  // ------------------------------------------------------------------------------------------
  // Results

  datatype Answer = Unanswered | Answered(ok: bool)

  /** What the Sink.Flush of call i returned during a run. */
  function AnswerOf(s: Sys, moves: seq<Move>, i: nat): Answer {
    if moves == [] then Unanswered
    else
      var before, m := moves[..|moves| - 1], moves[|moves| - 1];
      if m.Return? && m.id == i && Enabled(After(s, before), m) then Answered(m.ok) else AnswerOf(s, before, i)
  }

  /** A goroutine carries what its sink returned, from the return on. */
  predicate Carries(c: Call, a: Answer) {
    match a
    case Unanswered => c.worker.NotStarted? || c.worker.Flushing?
    case Answered(ok) => (c.worker.Returned? || c.worker.Reported? || c.worker.Finished?) && c.worker.ok == ok
  }

  lemma {:induction false} AnswersCarried(size: nat, moves: seq<Move>, i: nat)
    ensures
      var s := After(Init(size), moves);
      if i < |s.calls| then Carries(s.calls[i], AnswerOf(Init(size), moves, i))
      else AnswerOf(Init(size), moves, i) == Unanswered
  {
    if moves != [] {
      var before, m := moves[..|moves| - 1], moves[|moves| - 1];
      AnswersCarried(size, before, i);
      RunKeeps(size, before);
      hide Next, Enabled, Inv, Carries;
      CarriedOn(After(Init(size), before), m, i, AnswerOf(Init(size), before, i));
    }
  }

  lemma CarriedOn(s: Sys, m: Move, i: nat, a: Answer)
    requires Inv(s) && if i < |s.calls| then Carries(s.calls[i], a) else a == Unanswered
    ensures
      var s' := Next(s, m);
      var a' := if m.Return? && m.id == i && Enabled(s, m) then Answered(m.ok) else a;
      if i < |s'.calls| then Carries(s'.calls[i], a') else a' == Unanswered
  {
    if i < |s.calls| { assert CallOk(s, i); }
    hide Inv;
  }

  /**
   A call that received a result received its own sink's: nil if its Sink.Flush had returned nil,
   and an error if that had returned an error.
   */
  lemma ResultIsAnswer(size: nat, moves: seq<Move>, i: nat)
    requires i < |After(Init(size), moves).calls|
    ensures
      var c, a := After(Init(size), moves).calls[i], AnswerOf(Init(size), moves, i);
      c.outcome.Nil? || c.outcome.SinkError? ==> a == Answered(c.outcome.Nil?)
  {
    AnswersCarried(size, moves, i);
    RunKeeps(size, moves);
    assert CallOk(After(Init(size), moves), i);
  }

  // ------------------------------------------------------------------------------------------
  // What the protocol does not guarantee

  lemma AfterOne(s: Sys, moves: seq<Move>, m: Move)
    ensures After(s, moves + [m]) == Next(After(s, moves), m)
  {
    assert (moves + [m])[..|moves|] == moves;
  }

  /** The first call, of a one-byte payload, has entered its select. */
  lemma FirstCallWaits(size: nat, b: bv8) returns (moves: seq<Move>)
    requires 0 < size
    ensures After(Init(size), moves) ==
            Sys([Call([b], Pending, Flushing([]), false)], Waiting, true, Init(size).buf[0 := b], [])
  {
    hide After;
    var s := Init(size);
    var calls := [Call([b], Pending, NotStarted, false)];
    AfterNone(s);
    AfterOne(s, [], Enter([b]));
    moves := [] + [Enter([b])];
    assert After(s, moves) == s.(calls := calls, caller := Trying);
    AfterOne(s, moves, TryClaim);
    moves := moves + [TryClaim];
    assert After(s, moves) == s.(calls := calls, caller := Copying(0), inFlight := true);
    AfterOne(s, moves, CopyByte);
    moves := moves + [CopyByte];
    assert After(s, moves) == s.(calls := calls, caller := Copying(1), inFlight := true, buf := s.buf[0 := b]);
    AfterOne(s, moves, Launch);
    moves := moves + [Launch];
  }

  lemma AfterNone(s: Sys)
    ensures After(s, []) == s
  {
  }

  /** ... and then its Sink.Flush has delivered the byte and reported success. */
  lemma FirstCallServed(size: nat, b: bv8) returns (moves: seq<Move>)
    requires 0 < size
    ensures After(Init(size), moves) ==
            Sys([Call([b], Pending, Reported(true), true)], Waiting, true, Init(size).buf[0 := b], [Delivery(0, [b])])
  {
    hide After;
    var s := Init(size);
    moves := FirstCallWaits(size, b);
    AfterOne(s, moves, ReadByte(0));
    moves := moves + [ReadByte(0)];
    assert After(s, moves).calls[0].worker.seen == [b];
    AfterOne(s, moves, DeliverAll(0));
    moves := moves + [DeliverAll(0)];
    AfterOne(s, moves, Return(0, true));
    moves := moves + [Return(0, true)];
    AfterOne(s, moves, Report(0));
    moves := moves + [Report(0)];
  }

  /** A flush that delivered its payload and succeeded can still be reported as a timeout. */
  lemma DeliveredButTimedOut(size: nat, b: bv8) returns (moves: seq<Move>)
    requires 0 < size
    ensures
      var s := After(Init(size), moves);
      s.calls == [Call([b], Deadline, Reported(true), true)] && s.log == [Delivery(0, [b])] && Believed(s.calls) == []
  {
    moves := FirstCallServed(size, b);
    AfterOne(Init(size), moves, Expire);
    moves := moves + [Expire];
    var s := After(Init(size), moves);
    assert s.calls[..0] == [];
  }

  /**
   A call can be refused although no Sink.Flush is running and the only earlier call returned
   nil: its goroutine has sent its result but not yet cleared the flag.
   */
  lemma RefusedAfterSuccess(size: nat, b: bv8, p: seq<bv8>) returns (moves: seq<Move>)
    requires 0 < size && |p| <= size
    ensures
      var s := After(Init(size), moves);
      s.calls == [Call([b], Nil, Reported(true), true), Call(p, Refused, NotStarted, false)]
  {
    var s := Init(size);
    moves := FirstCallServed(size, b);
    AfterOne(s, moves, Receive);
    moves := moves + [Receive];
    AfterOne(s, moves, Enter(p));
    moves := moves + [Enter(p)];
    AfterOne(s, moves, TryClaim);
    moves := moves + [TryClaim];
  }

  /** A run in which the sink returns an error without having delivered, and the call reports it. */
  lemma ErrorsAreReported(size: nat, b: bv8) returns (moves: seq<Move>)
    requires 0 < size
    ensures After(Init(size), moves).calls == [Call([b], SinkError, Reported(false), false)]
  {
    var s := Init(size);
    moves := FirstCallWaits(size, b);
    AfterOne(s, moves, Return(0, false));
    moves := moves + [Return(0, false)];
    AfterOne(s, moves, Report(0));
    moves := moves + [Report(0)];
    AfterOne(s, moves, Receive);
    moves := moves + [Receive];
  }
}
