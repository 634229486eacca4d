/** Byte strings: XOR, zero runs and zero-extension. */
module Bytes {
  import opened Words

  function Xor(s: seq<bv8>, t: seq<bv8>): (u: seq<bv8>)
    requires |s| == |t|
    ensures |u| == |s| && forall i | 0 <= i < |s| :: u[i] == Xor8(s[i], t[i])
  {
    seq(|s|, i requires 0 <= i < |s| => Xor8(s[i], t[i]))
  }

  function Zeros(n: nat): (z: seq<bv8>)
    ensures |z| == n && forall i | 0 <= i < n :: z[i] == 0
  {
    seq(n, i => 0)
  }

  /** s cut to n bytes, or extended with zeros. */
  function Fit(s: seq<bv8>, n: nat): (t: seq<bv8>)
    ensures |t| == n
    ensures forall i | 0 <= i < n :: t[i] == if i < |s| then s[i] else 0
  {
    if n <= |s| then s[..n] else s + Zeros(n - |s|)
  }

  lemma XorTwice(s: seq<bv8>, t: seq<bv8>)
    requires |s| == |t|
    ensures Xor(Xor(s, t), t) == s
  {
    forall i | 0 <= i < |s| ensures Xor(Xor(s, t), t)[i] == s[i] { Cancel8(s[i], t[i], t[i]); }
  }

  lemma XorZeros(s: seq<bv8>)
    ensures Xor(s, Zeros(|s|)) == s
  {
    forall i | 0 <= i < |s| ensures Xor(s, Zeros(|s|))[i] == s[i] { Self8(s[i]); }
  }

  lemma FitSelf(s: seq<bv8>)
    ensures Fit(s, |s|) == s
  {
  }
}
