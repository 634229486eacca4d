/**
 The delta primitive of encode.go: XOR of byte slices through 64-bit words, four words per
 round, then single words, then a byte tail. It writes the bytewise XOR on either byte order.
 */
module XorBytes {
  import opened Bytes
  import opened Words

  /** The byte order in which the host lays a word out in memory. */
  datatype Endian = Little | Big

  function Xor64(a: bv64, b: bv64): bv64 {
    a ^ b
  }

  /** The word whose k-th least significant byte is s[k]. */
  function JoinWord(s: seq<bv8>): bv64
    requires |s| == 8
  {
    (s[0] as bv64) | ((s[1] as bv64) << 8) | ((s[2] as bv64) << 16) | ((s[3] as bv64) << 24)
    | ((s[4] as bv64) << 32) | ((s[5] as bv64) << 40) | ((s[6] as bv64) << 48) | ((s[7] as bv64) << 56)
  }

  function LowByte(w: bv64): bv8 {
    (w & 0xff) as bv8
  }

  function Drop1(w: bv64): bv64 {
    w >> 8
  }

  function Drop2(w: bv64): bv64 {
    w >> 16
  }

  function Drop4(w: bv64): bv64 {
    w >> 32
  }

  /** The word without its k least significant bytes. */
  function Drop(w: bv64, k: nat): bv64
    requires k < 8
  {
    var w1 := if k % 2 == 1 then Drop1(w) else w;
    var w2 := if k / 2 % 2 == 1 then Drop2(w1) else w1;
    if k / 4 == 1 then Drop4(w2) else w2
  }

  function ByteAt(w: bv64, k: nat): bv8
    requires k < 8
  {
    LowByte(Drop(w, k))
  }

  /** The bytes of w, least significant first. */
  function SplitWord(w: bv64): (s: seq<bv8>)
    ensures |s| == 8 && forall k | 0 <= k < 8 :: s[k] == ByteAt(w, k)
  {
    seq(8, k requires 0 <= k < 8 => ByteAt(w, k))
  }

  /** Memory order to significance order, and back. */
  function Order(e: Endian, s: seq<bv8>): (t: seq<bv8>)
    requires |s| == 8
    ensures |t| == 8
  {
    if e.Little? then s else [s[7], s[6], s[5], s[4], s[3], s[2], s[1], s[0]]
  }

  /** Reading eight bytes of memory as a word, and writing a word back. */
  function LoadWord(e: Endian, s: seq<bv8>): bv64
    requires |s| == 8
  {
    JoinWord(Order(e, s))
  }

  function StoreWord(e: Endian, w: bv64): (s: seq<bv8>)
    ensures |s| == 8
  {
    Order(e, SplitWord(w))
  }

  lemma JoinedBytes(b0: bv8, b1: bv8, b2: bv8, b3: bv8, b4: bv8, b5: bv8, b6: bv8, b7: bv8)
    ensures
      var w := JoinWord([b0, b1, b2, b3, b4, b5, b6, b7]);
      && ByteAt(w, 0) == b0 && ByteAt(w, 1) == b1 && ByteAt(w, 2) == b2 && ByteAt(w, 3) == b3
      && ByteAt(w, 4) == b4 && ByteAt(w, 5) == b5 && ByteAt(w, 6) == b6 && ByteAt(w, 7) == b7
  {
  }

  lemma SplitJoin(s: seq<bv8>)
    requires |s| == 8
    ensures SplitWord(JoinWord(s)) == s
  {
    hide JoinWord, ByteAt;
    JoinedBytes(s[0], s[1], s[2], s[3], s[4], s[5], s[6], s[7]);
    assert s == [s[0], s[1], s[2], s[3], s[4], s[5], s[6], s[7]];
  }

  lemma Drop1Linear(w: bv64, v: bv64)
    ensures Drop1(Xor64(w, v)) == Xor64(Drop1(w), Drop1(v))
  {
  }

  lemma Drop2Linear(w: bv64, v: bv64)
    ensures Drop2(Xor64(w, v)) == Xor64(Drop2(w), Drop2(v))
  {
  }

  lemma Drop4Linear(w: bv64, v: bv64)
    ensures Drop4(Xor64(w, v)) == Xor64(Drop4(w), Drop4(v))
  {
  }

  lemma LowLinear(w: bv64, v: bv64)
    ensures LowByte(Xor64(w, v)) == Xor8(LowByte(w), LowByte(v))
  {
  }

  lemma DropLinear(w: bv64, v: bv64, k: nat)
    requires k < 8
    ensures Drop(Xor64(w, v), k) == Xor64(Drop(w, k), Drop(v, k))
  {
    hide Drop1, Drop2, Drop4, Xor64;
    var b1, b2 := k % 2 == 1, k / 2 % 2 == 1;
    var w1, v1 := if b1 then Drop1(w) else w, if b1 then Drop1(v) else v;
    var w2, v2 := if b2 then Drop2(w1) else w1, if b2 then Drop2(v1) else v1;
    Drop1Linear(w, v);
    Drop2Linear(w1, v1);
    Drop4Linear(w2, v2);
  }

  /** XOR of words is XOR of their k-th bytes. */
  lemma ByteLinear(w: bv64, v: bv64, k: nat)
    requires k < 8
    ensures ByteAt(Xor64(w, v), k) == Xor8(ByteAt(w, k), ByteAt(v, k))
  {
    hide Drop, LowByte, Xor64, Xor8;
    DropLinear(w, v, k);
    LowLinear(Drop(w, k), Drop(v, k));
  }

  lemma SplitLinear(w: bv64, v: bv64)
    ensures SplitWord(Xor64(w, v)) == Xor(SplitWord(w), SplitWord(v))
  {
    hide ByteAt, Xor64, Xor8, SplitWord;
    forall k | 0 <= k < 8 ensures SplitWord(Xor64(w, v))[k] == Xor(SplitWord(w), SplitWord(v))[k] {
      ByteLinear(w, v, k);
    }
  }

  lemma OrderXor(e: Endian, s: seq<bv8>, t: seq<bv8>)
    requires |s| == |t| == 8
    ensures Order(e, Xor(Order(e, s), Order(e, t))) == Xor(s, t)
  {
    hide Xor8;
  }

  /** A word XOR is eight byte XORs in memory, on either byte order. */
  lemma WordIsBytes(e: Endian, s: seq<bv8>, t: seq<bv8>)
    requires |s| == |t| == 8
    ensures StoreWord(e, Xor64(LoadWord(e, s), LoadWord(e, t))) == Xor(s, t)
  {
    hide JoinWord, SplitWord, Xor64, Xor8, Order;
    SplitLinear(LoadWord(e, s), LoadWord(e, t));
    SplitJoin(Order(e, s));
    SplitJoin(Order(e, t));
    OrderXor(e, s, t);
  }

  /** The bytes below `done` hold the XOR of the original slices; the rest is as it was. */
  ghost predicate XoredTo(d: seq<bv8>, a: seq<bv8>, b: seq<bv8>,
                          d0: seq<bv8>, a0: seq<bv8>, b0: seq<bv8>, n: nat, done: nat) {
    && |d| == |d0| && |a| == |a0| && |b| == |b0|
    && done <= n <= |d| && n <= |a| && n <= |b|
    && (forall k | 0 <= k < done :: d[k] == Xor8(a0[k], b0[k]))
    && (forall k | done <= k < n :: a[k] == a0[k] && b[k] == b0[k])
    && (forall k | done <= k < |d| :: d[k] == d0[k])
  }

  /** `dw[o/8] = aw[o/8] ^ bw[o/8]` on the memory behind the word views. */
  method XorWord(e: Endian, dst: array<bv8>, a: array<bv8>, b: array<bv8>, n: nat, o: nat,
                 ghost d0: seq<bv8>, ghost a0: seq<bv8>, ghost b0: seq<bv8>)
    requires o + 8 <= n && XoredTo(dst[..], a[..], b[..], d0, a0, b0, n, o)
    modifies dst
    ensures XoredTo(dst[..], a[..], b[..], d0, a0, b0, n, o + 8)
  {
    hide JoinWord, SplitWord, Xor64, Xor8, LoadWord, StoreWord;
    var w := Xor64(LoadWord(e, a[o..o + 8]), LoadWord(e, b[o..o + 8]));
    var bytes := StoreWord(e, w);
    WordIsBytes(e, a[o..o + 8], b[o..o + 8]);
    assert forall k | o <= k < o + 8 :: bytes[k - o] == Xor8(a0[k], b0[k]);
    forall i | o <= i < o + 8 {
      dst[i] := bytes[i - o];
    }
  }

  /**
   xorBytes on the slices dst[:dn], a[:n], b[:bn]; dst may be a or b. A panic happens before
   anything is written.
   */
  method XorInto(e: Endian, dst: array<bv8>, dn: nat, a: array<bv8>, n: nat, b: array<bv8>, bn: nat)
    returns (panicked: bool)
    requires dn <= dst.Length && n <= a.Length && bn <= b.Length
    modifies dst
    ensures panicked <==> 0 < n && (dn < n || bn < n)
    ensures panicked || n == 0 ==> dst[..] == old(dst[..])
    ensures !panicked && 0 < n ==> dst[..] == Xor(old(a[..n]), old(b[..n])) + old(dst[n..])
  {
    hide Xor8;
    if n == 0 {
      return false;
    }
    if dn < n || bn < n {
      return true;
    }
    panicked := false;
    ghost var d0, a0, b0 := dst[..], a[..], b[..];
    var words := n / 8;
    var i := 0;
    while i + 4 <= words
      invariant 0 <= i <= words && XoredTo(dst[..], a[..], b[..], d0, a0, b0, n, 8 * i)
    {
      XorWord(e, dst, a, b, n, 8 * i, d0, a0, b0);
      XorWord(e, dst, a, b, n, 8 * i + 8, d0, a0, b0);
      XorWord(e, dst, a, b, n, 8 * i + 16, d0, a0, b0);
      XorWord(e, dst, a, b, n, 8 * i + 24, d0, a0, b0);
      i := i + 4;
    }
    while i < words
      invariant 0 <= i <= words && XoredTo(dst[..], a[..], b[..], d0, a0, b0, n, 8 * i)
    {
      XorWord(e, dst, a, b, n, 8 * i, d0, a0, b0);
      i := i + 1;
    }
    XorTail(dst, a, b, n, words * 8, d0, a0, b0);
    assert dst[..] == Xor(old(a[..n]), old(b[..n])) + old(dst[n..]);
  }

  /** The final len(a) % 8 bytes, one at a time. */
  method XorTail(dst: array<bv8>, a: array<bv8>, b: array<bv8>, n: nat, wordEnd: nat,
                 ghost d0: seq<bv8>, ghost a0: seq<bv8>, ghost b0: seq<bv8>)
    requires wordEnd <= n && XoredTo(dst[..], a[..], b[..], d0, a0, b0, n, wordEnd)
    modifies dst
    ensures XoredTo(dst[..], a[..], b[..], d0, a0, b0, n, n)
  {
    hide Xor8;
    var i := 0;
    while i < n - wordEnd
      invariant 0 <= i <= n - wordEnd && XoredTo(dst[..], a[..], b[..], d0, a0, b0, n, wordEnd + i)
    {
      dst[wordEnd + i] := Xor8(a[wordEnd + i], b[wordEnd + i]);
      i := i + 1;
    }
  }

  /** Applied twice with the same second operand it gives the first one back. */
  method XorTwiceInPlace(e: Endian, a: array<bv8>, b: array<bv8>, n: nat)
    requires n <= a.Length && n <= b.Length && a != b
    modifies a
    ensures a[..] == old(a[..])
  {
    hide Xor8;
    var p := XorInto(e, a, n, a, n, b, n);
    ghost var once := a[..n];
    if 0 < n {
      assert once == Xor(old(a[..n]), b[..n]);
      XorTwice(old(a[..n]), b[..n]);
    }
    p := XorInto(e, a, n, a, n, b, n);
    assert old(a[..]) == old(a[..n]) + old(a[n..]);
  }
}
