/**
 The order of each producer: its claims are its accepted pushes, in the order in which those
 returned, and the drainer reads them in that order.
 */
module RingOrder {
  import opened RingSteps
  import opened RingInvariant
  import opened RingSafety
  import opened RingDrain

  /** The items that thread u claimed positions for, in claim order. */
  function ClaimsOf<T>(claims: seq<Claim<T>>, u: nat): seq<T> {
    if claims == [] then []
    else
      var k := |claims| - 1;
      ClaimsOf(claims[..k], u) + if claims[k].who == u then [claims[k].item] else []
  }

  /** The push that a thread has claimed a position for and not yet returned from. */
  function InProgress<T>(th: Thread<T>): seq<T> {
    if th.PushWrite? || th.PushStore? then [th.call.item] else []
  }

  /** What a step of thread t lets thread u return from with success. */
  function ReturnedBy<T>(s: Sys<T>, t: nat, u: nat): seq<T>
    requires t < |s.ring.threads|
  {
    if t == u && s.ring.threads[t].PushStore? then [s.ring.threads[t].call.item] else []
  }

  /** The items of thread u's pushes that returned true during a run, in the order of the returns. */
  function Accepted<T>(s: Sys<T>, sched: seq<Move<T>>, u: nat): seq<T>
    requires WellFormed(s.ring)
    decreases |sched|
  {
    if sched == [] then []
    else if sched[0].who < |s.ring.threads| then
      ReturnedBy(s, sched[0].who, u) + Accepted(Next(s, sched[0].who, sched[0].op), sched[1..], u)
    else
      Accepted(s, sched[1..], u)
  }

  lemma ClaimsOfStep<T>(s: Sys<T>, t: nat, op: Op<T>, u: nat, before: seq<T>)
    requires Inv(s) && t < |s.ring.threads| && u < |s.ring.threads|
    requires ClaimsOf(s.log.claims, u) == before + InProgress(s.ring.threads[u])
    ensures
      var s' := Next(s, t, op);
      ClaimsOf(s'.log.claims, u) == before + ReturnedBy(s, t, u) + InProgress(s'.ring.threads[u])
  {
    var s' := Next(s, t, op);
    CursorStep(s, t, op);
    ProgressStep(s, t, op);
    hide Next, Inv, ClaimsOf, InProgress;
    var a := ActionOf(s, t, op);
    if a.Enqueue? { ClaimsGrow(s.log.claims, a.claim, u); }
    var add := if a.Enqueue? && a.claim.who == u then [a.claim.item] else [];
    assert ClaimsOf(s'.log.claims, u) == ClaimsOf(s.log.claims, u) + add;
    Regroup(before, InProgress(s.ring.threads[u]), add, ReturnedBy(s, t, u), InProgress(s'.ring.threads[u]));
  }

  lemma Regroup<T>(before: seq<T>, was: seq<T>, add: seq<T>, r: seq<T>, now: seq<T>)
    requires was + add == r + now
    ensures before + was + add == before + r + now
  {
    assert before + was + add == before + (was + add);
    assert before + r + now == before + (r + now);
  }

  lemma ClaimsGrow<T>(claims: seq<Claim<T>>, x: Claim<T>, u: nat)
    ensures ClaimsOf(claims + [x], u) == ClaimsOf(claims, u) + (if x.who == u then [x.item] else [])
  {
    assert (claims + [x])[..|claims|] == claims;
  }

  /** A push is in progress from its claim to its return. */
  lemma ProgressStep<T>(s: Sys<T>, t: nat, op: Op<T>)
    requires WellFormed(s.ring) && s.ring.arith == Unbounded && t < |s.ring.threads|
    ensures
      var th, ths' := s.ring.threads[t], Next(s, t, op).ring.threads;
      && ths' == s.ring.threads[t := ths'[t]]
      && match ActionOf(s, t, op)
         case Enqueue(x) =>
           x.who == t && InProgress(th) == [] == ReturnedBy(s, t, t) && InProgress(ths'[t]) == [x.item]
         case _ => InProgress(th) == ReturnedBy(s, t, t) + InProgress(ths'[t])
  {
  }

  lemma {:induction false} RunClaims<T>(s: Sys<T>, sched: seq<Move<T>>, u: nat, before: seq<T>)
    requires Inv(s) && u < |s.ring.threads|
    requires ClaimsOf(s.log.claims, u) == before + InProgress(s.ring.threads[u])
    ensures
      var s' := Run(s, sched);
      && |s'.ring.threads| == |s.ring.threads|
      && ClaimsOf(s'.log.claims, u) == before + Accepted(s, sched, u) + InProgress(s'.ring.threads[u])
    decreases |sched|
  {
    hide ClaimsOf, InProgress, ReturnedBy;
    if sched != [] {
      var m := sched[0];
      if m.who < |s.ring.threads| {
        var s1 := Next(s, m.who, m.op);
        assert |s1.ring.threads| == |s.ring.threads|;
        hide Next;
        StepKeeps(s, m.who, m.op);
        ClaimsOfStep(s, m.who, m.op, u, before);
        RunClaims(s1, sched[1..], u, before + ReturnedBy(s, m.who, u));
        var rest := Accepted(s1, sched[1..], u);
        assert before + ReturnedBy(s, m.who, u) + rest == before + (ReturnedBy(s, m.who, u) + rest);
      } else {
        RunClaims(s, sched[1..], u, before);
      }
    }
  }

  /** How many positions below p thread u claimed. */
  function Rank<T>(claims: seq<Claim<T>>, u: nat, p: nat): nat
    requires p <= |claims|
  {
    |ClaimsOf(claims[..p], u)|
  }

  lemma {:induction false} ClaimsOfPrefix<T>(claims: seq<Claim<T>>, u: nat, p: nat)
    requires p <= |claims|
    ensures ClaimsOf(claims[..p], u) <= ClaimsOf(claims, u)
  {
    if p < |claims| {
      var k := |claims| - 1;
      ClaimsOfPrefix(claims[..k], u, p);
      assert claims[..k][..p] == claims[..p];
    } else {
      assert claims[..p] == claims;
    }
  }

  /** The claim at p is the claim of that rank of its thread, and later claims rank higher. */
  lemma RankIs<T>(claims: seq<Claim<T>>, p: nat)
    requires p < |claims|
    ensures
      var u := claims[p].who;
      && Rank(claims, u, p) < |ClaimsOf(claims, u)|
      && ClaimsOf(claims, u)[Rank(claims, u, p)] == claims[p].item
      && forall q | p < q <= |claims| :: Rank(claims, u, p) < Rank(claims, u, q)
  {
    var u := claims[p].who;
    assert claims[..p + 1][..p] == claims[..p];
    ClaimsOfPrefix(claims, u, p + 1);
    forall q | p < q <= |claims| ensures Rank(claims, u, p) < Rank(claims, u, q) {
      ClaimsOfPrefix(claims[..q], u, p + 1);
      assert claims[..q][..p + 1] == claims[..p + 1];
    }
  }

  /** An item that the drainer has read is this one of its producer's accepted or current pushes. */
  ghost predicate ReadInOrder<T>(s: Sys<T>, pushes: seq<T>, u: nat, i: nat)
    requires i < |s.log.out|
  {
    var p := s.log.out[i].pos;
    p < |s.log.claims| && (s.log.claims[p].who == u ==>
      Rank(s.log.claims, u, p) < |pushes| && s.log.out[i].item == pushes[Rank(s.log.claims, u, p)])
  }

  /**
   Each producer's order is kept, under every interleaving: its claims are its accepted pushes in
   the order of their returns, followed by the one in progress; and with one drainer, of two items
   of one producer the one pushed first is read first.
   */
  lemma ProducerOrder<T>(n: nat, data: seq<T>, workers: nat, d: nat, sched: seq<Move<T>>, u: nat)
    requires 2 <= n == |data| && d < workers && u < workers && SoleDrainer(sched, d)
    ensures
      var s := Run(Init(n, data, workers), sched);
      && |s.ring.threads| == workers
      && (forall i | 0 <= i < |s.log.out| :: s.log.out[i].pos < |s.log.claims|)
      && var pushes := Accepted(Init(n, data, workers), sched, u) + InProgress(s.ring.threads[u]);
      && ClaimsOf(s.log.claims, u) == pushes
      && (forall i | 0 <= i < |s.log.out| :: ReadInOrder(s, pushes, u, i))
      && (forall i, j | 0 <= i < j < |s.log.out| ::
            s.log.claims[s.log.out[i].pos].who == u ==>
              Rank(s.log.claims, u, s.log.out[i].pos) < Rank(s.log.claims, u, s.log.out[j].pos))
  {
    var s0 := Init(n, data, workers);
    InitHolds(n, data, workers);
    RunClaims(s0, sched, u, []);
    SoleDrainerIsFifo(n, data, workers, d, sched);
    var s := Run(s0, sched);
    var pushes := Accepted(s0, sched, u) + InProgress(s.ring.threads[u]);
    forall i | 0 <= i < |s.log.out| ensures ReadInOrder(s, pushes, u, i) {
      RankIs(s.log.claims, s.log.out[i].pos);
    }
    forall i, j | 0 <= i < j < |s.log.out| && s.log.claims[s.log.out[i].pos].who == u
      ensures Rank(s.log.claims, u, s.log.out[i].pos) < Rank(s.log.claims, u, s.log.out[j].pos)
    {
      RankIs(s.log.claims, s.log.out[i].pos);
    }
  }
}
