/** Positions modulo a period: which ones meet in one residue. */
module Laps {

  lemma SlotsDiffer(n: nat, p: int, q: int)
    requires 0 < n && p < q < p + n
    ensures p % n != q % n
  {
    var k := q / n - p / n;
    assert q - p == n * k + q % n - p % n;
    assert k <= 0 ==> n * k <= 0;
    assert k >= 1 ==> n * k >= n;
  }

  lemma SlotsAgree(n: nat, p: int)
    requires 0 < n
    ensures (p + n) % n == p % n
  {
    var r := (p + n) % n - p % n;
    var k := 1 + p / n - (p + n) / n;
    assert r == n * k;
    assert k <= -1 ==> n * k + n <= 0;
    assert k >= 1 ==> n * k >= n;
  }

  /** Positions of lap -1. */
  lemma BeforeZero(n: nat, p: int)
    requires -(n as int) <= p < 0
    ensures p % n == p + n
  {
    SlotsAgree(n, p);
  }

  lemma {:induction false} LapsAgree(n: nat, p: int, k: nat)
    requires 0 < n
    ensures (p + n * k) % n == p % n
  {
    if k > 0 {
      LapsAgree(n, p, k - 1);
      SlotsAgree(n, p + n * (k - 1));
      assert p + n * (k - 1) + n == p + n * k;
    }
  }

  /** The latest position below `tail` that shares p's slot. */
  lemma Latest(n: nat, tail: int, p: int) returns (q: int)
    requires 0 < n && p < tail
    ensures tail - n <= q < tail && q >= p && q % n == p % n
    ensures q == p || q >= p + n
  {
    var k := (tail - 1 - p) / n;
    assert 0 <= k && n * k <= tail - 1 - p < n * k + n;
    LapsAgree(n, p, k);
    q := p + n * k;
    assert k >= 1 ==> n * k >= n;
  }
}
