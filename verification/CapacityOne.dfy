/**
 A ring of capacity one, which newRingbuf and New accept, breaks the protocol: "published"
 (pos + 1) and "recycled" (pos + mask + 1) are the same number. Pushes never report full and
 overwrite each other, and from the second push on a pop never returns.
 */
module CapacityOne {
  import opened RingSteps

  /** Between the states rs[i] and rs[i + 1] thread 0 performs one action. */
  ghost predicate ActsAt<T>(rs: seq<Ring<T>>, i: nat, op: Op<T>) {
    i + 1 < |rs| && WellFormed(rs[i]) && 0 < |rs[i].threads| && rs[i + 1] == Step(rs[i], 0, op)
  }

  ghost predicate SixActs<T>(rs: seq<Ring<T>>, b: nat, op: Op<T>) {
    && ActsAt(rs, b, op) && ActsAt(rs, b + 1, op) && ActsAt(rs, b + 2, op)
    && ActsAt(rs, b + 3, op) && ActsAt(rs, b + 4, op) && ActsAt(rs, b + 5, op)
  }

  /** A run of uncontended pushes by thread 0: six actions take a push from its call to its return. */
  ghost predicate Pushes<T>(rs: seq<Ring<T>>, items: seq<T>, policy: Policy) {
    && |rs| == 6 * |items| + 1
    && forall j: nat :: PushAt(rs, items, policy, j)
  }

  ghost predicate PushAt<T>(rs: seq<Ring<T>>, items: seq<T>, policy: Policy, j: nat) {
    j < |items| ==> SixActs(rs, 6 * j, Push(items[j], policy))
  }

  lemma PushOnce<T>(rs: seq<Ring<T>>, items: seq<T>, policy: Policy, j: nat)
    requires Pushes(rs, items, policy) && j < |items|
    requires var r := rs[6 * j];
             WellFormed(r) && r.n == 1 && r.arith == Unbounded && r.seqs == [r.tail]
             && 0 < |r.threads| && r.threads[0] == Idle
    ensures var r := rs[6 * j];
            rs[6 * j + 6] == r.(tail := r.tail + 1, seqs := [r.tail + 1], data := [items[j]])
  {
    var b := 6 * j;
    var op, c := Push(items[j], policy), Call(items[j], policy, 0);
    assert PushAt(rs, items, policy, j);
    assert rs[b + 2] == Goto(rs[b], 0, PushLoadSeq(c, rs[b].tail));
    assert rs[b + 4] == Goto(rs[b].(tail := rs[b].tail + 1), 0, PushWrite(c, rs[b].tail));
    assert rs[b + 6].threads == rs[b].threads && rs[b + 6].data == [items[j]];
  }

  /** The state after k of the pushes. */
  function After<T>(r: Ring<T>, items: seq<T>, k: nat): Ring<T>
    requires k <= |items|
  {
    r.(tail := r.tail + k, seqs := [r.tail + k], data := if k == 0 then r.data else [items[k - 1]])
  }

  /** Every push is accepted, whatever the policy, and the slot keeps the last item only. */
  lemma {:induction false} PushesNeverFull<T>(rs: seq<Ring<T>>, items: seq<T>, policy: Policy, k: nat)
    requires Pushes(rs, items, policy) && k <= |items|
    requires WellFormed(rs[0]) && rs[0].n == 1 && rs[0].arith == Unbounded && rs[0].seqs == [rs[0].tail]
    requires 0 < |rs[0].threads| && rs[0].threads[0] == Idle
    ensures rs[6 * k] == After(rs[0], items, k)
  {
    if k > 0 {
      PushesNeverFull(rs, items, policy, k - 1);
      PushOnce(rs, items, policy, k - 1);
    }
  }

  /** Thread t performs k actions with no interference. */
  function Alone<T>(r: Ring<T>, t: nat, op: Op<T>, k: nat): (r': Ring<T>)
    requires WellFormed(r) && t < |r.threads|
    ensures WellFormed(r') && |r'.threads| == |r.threads|
    decreases k
  {
    if k == 0 then r else Alone(Step(r, t, op), t, op, k - 1)
  }

  /** A pop that reads a sequence number two or more ahead goes round its loop for ever. */
  lemma {:induction false} PopSpins<T>(r: Ring<T>, t: nat, m: nat)
    requires WellFormed(r) && r.n == 1 && r.arith == Unbounded && r.head == 0 && r.seqs[0] >= 2
    requires t < |r.threads| && (r.threads[t] == PopLoadHead || r.threads[t] == PopLoadSeq(0))
    ensures
      var r' := Alone(r, t, Pop, m);
      r' == Goto(r, t, r'.threads[t]) && (r'.threads[t] == PopLoadHead || r'.threads[t] == PopLoadSeq(0))
    decreases m
  {
    if m == 0 {
      assert r.threads == r.threads[t := r.threads[t]];
    } else {
      PopSpins(Step(r, t, Pop), t, m - 1);
    }
  }

  /**
   On a fresh ring of capacity one, any two or more pushes leave nothing dropped and nothing
   evicted although the ring holds one item, and a pop started then is still running after any
   number of its own steps.
   */
  lemma CapacityOneIsBroken<T>(zero: T, rs: seq<Ring<T>>, items: seq<T>, policy: Policy, m: nat)
    requires Pushes(rs, items, policy) && 2 <= |items| && 1 <= m
    requires 2 <= |rs[0].threads| && rs[0] == NewRing(Unbounded, 1, [zero], |rs[0].threads|)
    ensures
      var full := rs[6 * |items|];
      && full.dropped == 0 && full.evicted == 0 && full.tail - full.head == |items| > full.n
      && full.data == [items[|items| - 1]] && WellFormed(full) && 2 <= |full.threads|
      && !Alone(full, 1, Pop, m).threads[1].Idle? && !Alone(full, 1, Pop, m).threads[1].PopCas?
  {
    PushesNeverFull(rs, items, policy, |items|);
    PopSpins(Step(rs[6 * |items|], 1, Pop), 1, m - 1);
  }
}
