/**
 Machine words: XOR as a named function with its algebra, the little-endian layout of the wire
 header's fields, and the integrity tag (15 checksum bits and the keyframe flag).
 */
module Words {

  // ------------------------------------------------------------------------------------------
  // XOR

  function Xor8(a: bv8, b: bv8): bv8 {
    a ^ b
  }

  lemma Assoc8(a: bv8, b: bv8, c: bv8)
    ensures Xor8(Xor8(a, b), c) == Xor8(a, Xor8(b, c))
  {
  }

  lemma Self8(a: bv8)
    ensures Xor8(a, a) == 0 && Xor8(a, 0) == a
  {
  }

  lemma Comm8(a: bv8, b: bv8)
    ensures Xor8(a, b) == Xor8(b, a)
  {
  }

  lemma Left8(a: bv8, b: bv8, c: bv8)
    ensures Xor8(a, b) == Xor8(a, c) <==> b == c
  {
    Assoc8(a, a, b);
    Assoc8(a, a, c);
    Self8(a);
    Comm8(0, b);
    Comm8(0, c);
    Self8(b);
    Self8(c);
  }

  /** Undoing one XOR with another returns the byte exactly if they are the same. */
  lemma Cancel8(a: bv8, b: bv8, c: bv8)
    ensures Xor8(Xor8(a, b), c) == a <==> b == c
  {
    Left8(a, Xor8(b, c), 0);
    Left8(b, c, b);
    Assoc8(a, b, c);
    Self8(a);
    Self8(b);
  }

  function Xor32(a: bv32, b: bv32): bv32 {
    a ^ b
  }

  lemma Comm32(a: bv32, b: bv32)
    ensures Xor32(a, b) == Xor32(b, a)
  {
  }

  lemma Assoc32(a: bv32, b: bv32, c: bv32)
    ensures Xor32(Xor32(a, b), c) == Xor32(a, Xor32(b, c))
  {
  }

  lemma Self32(a: bv32)
    ensures Xor32(a, a) == 0 && Xor32(a, 0) == a
  {
  }

  lemma Swap32(a: bv32, b: bv32, c: bv32, d: bv32)
    ensures Xor32(Xor32(a, b), Xor32(c, d)) == Xor32(Xor32(a, c), Xor32(b, d))
  {
    Assoc32(a, b, Xor32(c, d));
    Assoc32(b, c, d);
    Comm32(b, c);
    Assoc32(c, b, d);
    Assoc32(a, c, Xor32(b, d));
  }

  lemma Widen32(a: bv8, b: bv8)
    ensures Xor8(a, b) as bv32 == Xor32(a as bv32, b as bv32)
  {
  }

  function Xor16(a: bv16, b: bv16): bv16 {
    a ^ b
  }

  lemma Comm16(a: bv16, b: bv16)
    ensures Xor16(a, b) == Xor16(b, a)
  {
  }

  lemma Assoc16(a: bv16, b: bv16, c: bv16)
    ensures Xor16(Xor16(a, b), c) == Xor16(a, Xor16(b, c))
  {
  }

  lemma Self16(a: bv16)
    ensures Xor16(a, a) == 0 && Xor16(a, 0) == a
  {
  }

  /** A common summand cancels. */
  lemma Cancel16(a: bv16, b: bv16, c: bv16)
    ensures Xor16(a, b) == Xor16(a, c) <==> b == c
  {
    Assoc16(a, a, b);
    Assoc16(a, a, c);
    Self16(a);
    Comm16(0, b);
    Comm16(0, c);
    Self16(b);
    Self16(c);
  }

  // ------------------------------------------------------------------------------------------
  // Header fields, little-endian

  function Get16(lo: bv8, hi: bv8): bv16 {
    (lo as bv16) | ((hi as bv16) << 8)
  }

  function Byte0(w: bv16): bv8 {
    (w & 0xff) as bv8
  }

  function Byte1(w: bv16): bv8 {
    (w >> 8) as bv8
  }

  lemma Put16(w: bv16)
    ensures Get16(Byte0(w), Byte1(w)) == w
  {
  }

  lemma Bytes16(lo: bv8, hi: bv8)
    ensures Byte0(Get16(lo, hi)) == lo && Byte1(Get16(lo, hi)) == hi
  {
  }

  lemma Get16Linear(a: bv8, b: bv8, c: bv8, d: bv8)
    ensures Get16(Xor8(a, c), Xor8(b, d)) == Xor16(Get16(a, b), Get16(c, d))
  {
  }

  function Get32(b0: bv8, b1: bv8, b2: bv8, b3: bv8): bv32 {
    (b0 as bv32) | ((b1 as bv32) << 8) | ((b2 as bv32) << 16) | ((b3 as bv32) << 24)
  }

  /** The k-th byte of w, as `byte(w >> 8*k)`. */
  function Byte32(w: bv32, k: nat): bv8
    requires k < 4
  {
    match k
    case 0 => (w & 0xff) as bv8
    case 1 => ((w >> 8) & 0xff) as bv8
    case 2 => ((w >> 16) & 0xff) as bv8
    case _ => ((w >> 24) & 0xff) as bv8
  }

  lemma Put32(w: bv32)
    ensures Get32(Byte32(w, 0), Byte32(w, 1), Byte32(w, 2), Byte32(w, 3)) == w
  {
  }

  lemma Bytes32(b0: bv8, b1: bv8, b2: bv8, b3: bv8)
    ensures
      var w := Get32(b0, b1, b2, b3);
      Byte32(w, 0) == b0 && Byte32(w, 1) == b1 && Byte32(w, 2) == b2 && Byte32(w, 3) == b3
  {
  }

  // ------------------------------------------------------------------------------------------
  // The integrity tag

  /** The truncated checksum: the low 15 bits. */
  function Low15(c: bv32): bv16 {
    (c & 0x7fff) as bv16
  }

  function TagCrc(tag: bv16): bv16 {
    tag & 0x7fff
  }

  predicate TagFlag(tag: bv16) {
    tag & 0x8000 != 0
  }

  function MakeTag(crc: bv16, key: bool): bv16 {
    if key then crc | 0x8000 else crc
  }

  lemma Low15Linear(a: bv32, b: bv32)
    ensures Low15(Xor32(a, b)) == Xor16(Low15(a), Low15(b))
  {
  }

  lemma CrcLinear(a: bv16, b: bv16)
    ensures TagCrc(Xor16(a, b)) == Xor16(TagCrc(a), TagCrc(b))
  {
  }

  lemma FlagLinear(a: bv16, b: bv16)
    ensures TagFlag(Xor16(a, b)) <==> TagFlag(a) != TagFlag(b)
  {
  }

  lemma MakeTagParts(c: bv32, key: bool)
    ensures TagCrc(MakeTag(Low15(c), key)) == Low15(c)
    ensures TagFlag(MakeTag(Low15(c), key)) <==> key
  {
  }

  lemma FlaggedTag(tag: bv16)
    ensures tag & 0x8000 != 0 ==> (tag & 0x7fff) | 0x8000 == tag
  {
  }

  lemma PlainTag(tag: bv16)
    ensures tag & 0x8000 == 0 ==> tag & 0x7fff == tag
  {
  }

  lemma SplitTag(tag: bv16)
    ensures MakeTag(TagCrc(tag), TagFlag(tag)) == tag
  {
    if TagFlag(tag) { FlaggedTag(tag); } else { PlainTag(tag); }
  }

  lemma ZeroTag()
    ensures TagCrc(0) == 0 && !TagFlag(0) && Get16(0, 0) == 0
  {
  }

  // ------------------------------------------------------------------------------------------
  // The same as numbers: arithmetic modulo the width, in which nothing here overflows

  function Number16(lo: bv8, hi: bv8): bv16 {
    (lo as bv16) + 256 * (hi as bv16)
  }

  function Number32(b0: bv8, b1: bv8, b2: bv8, b3: bv8): bv32 {
    (b0 as bv32) + 0x100 * (b1 as bv32) + 0x1_0000 * (b2 as bv32) + 0x100_0000 * (b3 as bv32)
  }

  lemma Get16Number(lo: bv8, hi: bv8)
    ensures Get16(lo, hi) == Number16(lo, hi)
  {
  }

  lemma Get32Number(b0: bv8, b1: bv8, b2: bv8, b3: bv8)
    ensures Get32(b0, b1, b2, b3) == Number32(b0, b1, b2, b3)
  {
  }

  /** A byte without its top bit. */
  function Low7(b: bv8): bv8 {
    if b >= 0x80 then b - 0x80 else b
  }

  lemma TagNumber(lo: bv8, hi: bv8)
    ensures TagCrc(Get16(lo, hi)) == Number16(lo, Low7(hi))
    ensures TagFlag(Get16(lo, hi)) <==> hi >= 0x80
  {
  }

  lemma Low15Number(b0: bv8, b1: bv8, b2: bv8, b3: bv8)
    ensures Low15(Number32(b0, b1, b2, b3)) == Number16(b0, Low7(b1))
  {
  }

  // ------------------------------------------------------------------------------------------
  // Counts

  /** uint16(n) */
  function Count16(n: nat): bv16 {
    (n % 65536) as bv16
  }

  function Value16(w: bv16): nat {
    w as nat
  }

  /** The 16-bit count is the count exactly up to 65535. */
  lemma Count16Iff(n: nat)
    ensures Value16(Count16(n)) == n <==> n <= 65535
  {
  }

  lemma Count16Number(n: nat)
    requires n <= 65535
    ensures Count16(n) == n as bv16
  {
  }
}
