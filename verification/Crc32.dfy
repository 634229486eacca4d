/**
 CRC-32/IEEE, bit by bit: reflected polynomial 0xEDB88320, initial value and final complement
 all ones, as in section 8 of RFC 1952. Over XOR of equally long messages it is affine.
 */
module Crc32 {
  import opened Bytes
  import opened Words

  function Half(c: bv32): bv32 {
    c >> 1
  }

  function Poly(c: bv32): bv32 {
    if c & 1 == 1 then 0xEDB8_8320 else 0
  }

  /** One bit of polynomial division. */
  function Shift(c: bv32): bv32 {
    Xor32(Half(c), Poly(c))
  }

  function Shift2(c: bv32): bv32 {
    Shift(Shift(c))
  }

  function Shift4(c: bv32): bv32 {
    Shift2(Shift2(c))
  }

  function Shift8(c: bv32): bv32 {
    Shift4(Shift4(c))
  }

  /** One message byte. */
  function Feed(c: bv32, b: bv8): bv32 {
    Shift8(Xor32(c, b as bv32))
  }

  function FeedAll(c: bv32, s: seq<bv8>): bv32
    decreases |s|
  {
    if s == [] then c else FeedAll(Feed(c, s[0]), s[1..])
  }

  /** crc32.ChecksumIEEE */
  function Checksum(s: seq<bv8>): bv32 {
    Xor32(FeedAll(0xFFFF_FFFF, s), 0xFFFF_FFFF)
  }

  // ------------------------------------------------------------------------------------------
  // Linearity

  lemma HalfLinear(x: bv32, y: bv32)
    ensures Half(Xor32(x, y)) == Xor32(Half(x), Half(y))
  {
  }

  lemma Parity(x: bv32, y: bv32)
    ensures (x ^ y) & 1 == 1 <==> (x & 1 == 1) != (y & 1 == 1)
  {
  }

  lemma PolyLinear(x: bv32, y: bv32)
    ensures Poly(Xor32(x, y)) == Xor32(Poly(x), Poly(y))
  {
    Parity(x, y);
  }

  lemma ShiftLinear(x: bv32, y: bv32)
    ensures Shift(Xor32(x, y)) == Xor32(Shift(x), Shift(y))
  {
    HalfLinear(x, y);
    PolyLinear(x, y);
    Swap32(Half(x), Half(y), Poly(x), Poly(y));
  }

  lemma Shift2Linear(x: bv32, y: bv32)
    ensures Shift2(Xor32(x, y)) == Xor32(Shift2(x), Shift2(y))
  {
    ShiftLinear(x, y);
    ShiftLinear(Shift(x), Shift(y));
  }

  lemma Shift4Linear(x: bv32, y: bv32)
    ensures Shift4(Xor32(x, y)) == Xor32(Shift4(x), Shift4(y))
  {
    Shift2Linear(x, y);
    Shift2Linear(Shift2(x), Shift2(y));
  }

  lemma Shift8Linear(x: bv32, y: bv32)
    ensures Shift8(Xor32(x, y)) == Xor32(Shift8(x), Shift8(y))
  {
    Shift4Linear(x, y);
    Shift4Linear(Shift4(x), Shift4(y));
  }

  lemma FeedLinear(x: bv32, y: bv32, a: bv8, b: bv8)
    ensures Feed(Xor32(x, y), Xor8(a, b)) == Xor32(Feed(x, a), Feed(y, b))
  {
    Widen32(a, b);
    Swap32(x, y, a as bv32, b as bv32);
    Shift8Linear(Xor32(x, a as bv32), Xor32(y, b as bv32));
  }

  /** The register is linear in the initial value and the message together. */
  lemma {:induction false} FeedAllLinear(x: bv32, y: bv32, s: seq<bv8>, t: seq<bv8>)
    requires |s| == |t|
    ensures FeedAll(Xor32(x, y), Xor(s, t)) == Xor32(FeedAll(x, s), FeedAll(y, t))
    decreases |s|
  {
    if s != [] {
      FeedLinear(x, y, s[0], t[0]);
      assert Xor(s, t)[1..] == Xor(s[1..], t[1..]);
      FeedAllLinear(Feed(x, s[0]), Feed(y, t[0]), s[1..], t[1..]);
    }
  }

  /** The checksum of a threefold XOR is the XOR of the three checksums. */
  lemma Affine(r: seq<bv8>, s: seq<bv8>, t: seq<bv8>)
    requires |r| == |s| == |t|
    ensures Checksum(Xor(Xor(r, s), t)) == Xor32(Xor32(Checksum(r), Checksum(s)), Checksum(t))
  {
    var o: bv32 := 0xFFFF_FFFF;
    var a, b, c := FeedAll(o, r), FeedAll(o, s), FeedAll(o, t);
    FeedAllLinear(o, o, r, s);
    FeedAllLinear(Xor32(o, o), o, Xor(r, s), t);
    Self32(o);
    Comm32(0, o);
    Swap32(a, o, b, o);
    Self32(Xor32(a, b));
    Assoc32(Xor32(a, b), c, o);
  }

  // ------------------------------------------------------------------------------------------
  // What the checksum covers

  /** A message is fed byte by byte, all of it. */
  lemma {:induction false} FeedAllAppend(c: bv32, s: seq<bv8>, t: seq<bv8>)
    ensures FeedAll(c, s + t) == FeedAll(FeedAll(c, s), t)
    decreases |s|
  {
    hide Feed;
    if s == [] {
      assert s + t == t;
    } else {
      assert (s + t)[0] == s[0] && (s + t)[1..] == s[1..] + t;
      FeedAllAppend(Feed(c, s[0]), s[1..], t);
    }
  }

  lemma FeedOne(c: bv32, b: bv8)
    ensures FeedAll(c, [b]) == Feed(c, b)
  {
    hide Feed;
    assert [b][1..] == [] && FeedAll(Feed(c, b), []) == Feed(c, b);
  }

  lemma ShiftInjective(x: bv32, y: bv32)
    ensures Shift(x) == Shift(y) ==> x == y
  {
  }

  lemma Shift8Injective(x: bv32, y: bv32)
    ensures Shift8(x) == Shift8(y) ==> x == y
  {
    hide Shift;
    var x1, y1 := Shift(x), Shift(y);
    var x3, y3 := Shift(Shift2(x)), Shift(Shift2(y));
    var x5, y5 := Shift(Shift4(x)), Shift(Shift4(y));
    var x6, y6 := Shift2(Shift4(x)), Shift2(Shift4(y));
    ShiftInjective(x, y);
    ShiftInjective(x1, y1);
    ShiftInjective(Shift2(x), Shift2(y));
    ShiftInjective(x3, y3);
    ShiftInjective(Shift4(x), Shift4(y));
    ShiftInjective(x5, y5);
    ShiftInjective(x6, y6);
    ShiftInjective(Shift(x6), Shift(y6));
  }

  lemma XorByte(c: bv32, d: bv32, a: bv8, b: bv8)
    ensures Xor32(c, a as bv32) == Xor32(d, a as bv32) ==> c == d
    ensures Xor32(c, a as bv32) == Xor32(c, b as bv32) ==> a == b
  {
  }

  /** Different registers stay different, and different bytes make different registers. */
  lemma FeedInjective(c: bv32, d: bv32, a: bv8, b: bv8)
    ensures Feed(c, a) == Feed(d, a) ==> c == d
    ensures Feed(c, a) == Feed(c, b) ==> a == b
  {
    hide Shift8, Xor32;
    XorByte(c, d, a, b);
    Shift8Injective(Xor32(c, a as bv32), Xor32(d, a as bv32));
    Shift8Injective(Xor32(c, a as bv32), Xor32(c, b as bv32));
  }

  lemma {:induction false} FeedAllInjective(c: bv32, d: bv32, s: seq<bv8>)
    ensures FeedAll(c, s) == FeedAll(d, s) ==> c == d
    decreases |s|
  {
    hide Feed;
    if s != [] {
      FeedInjective(c, d, s[0], s[0]);
      FeedAllInjective(Feed(c, s[0]), Feed(d, s[0]), s[1..]);
    }
  }

  /** Every change of one byte, anywhere in the message, changes the checksum. */
  lemma DetectsByteError(s: seq<bv8>, i: nat, b: bv8)
    requires i < |s| && b != s[i]
    ensures Checksum(s[i := b]) != Checksum(s)
  {
    hide FeedAll, Feed;
    var o: bv32 := 0xFFFF_FFFF;
    var t := s[i := b];
    var pre, post := s[..i], s[i + 1..];
    var c := FeedAll(o, pre);
    assert s == pre + ([s[i]] + post) && t == pre + ([b] + post);
    FeedAllAppend(o, pre, [s[i]] + post);
    FeedAllAppend(o, pre, [b] + post);
    FeedAllAppend(c, [s[i]], post);
    FeedAllAppend(c, [b], post);
    FeedOne(c, s[i]);
    FeedOne(c, b);
    FeedInjective(c, c, s[i], b);
    FeedAllInjective(Feed(c, s[i]), Feed(c, b), post);
    FinalInjective(FeedAll(o, s), FeedAll(o, t));
  }

  lemma FinalInjective(x: bv32, y: bv32)
    ensures Xor32(x, 0xFFFF_FFFF) == Xor32(y, 0xFFFF_FFFF) ==> x == y
  {
  }

  // ------------------------------------------------------------------------------------------
  // Reference values

  function LowPart(c: bv32): bv8 {
    (c & 0xff) as bv8
  }

  function HighPart(c: bv32): bv32 {
    c & 0xFFFF_FF00
  }

  /** The register with its low byte shifted out. */
  function Out8(c: bv32): bv32 {
    c >> 8
  }

  lemma SplitRegister(c: bv32, b: bv8)
    ensures Xor32(c, b as bv32) == Xor32(HighPart(c), Xor32(0, Xor8(LowPart(c), b) as bv32))
  {
  }

  lemma ShiftOut(c: bv32)
    ensures Shift8(HighPart(c)) == Out8(c)
  {
  }

  /** The table-driven form: shift a byte out and add what the table holds for it. */
  lemma FeedByTable(c: bv32, b: bv8)
    ensures Feed(c, b) == Xor32(Out8(c), Feed(0, Xor8(LowPart(c), b)))
  {
    hide Shift8, Xor32, Xor8, LowPart, HighPart, Out8;
    SplitRegister(c, b);
    ShiftOut(c);
    Shift8Linear(HighPart(c), Xor32(0, Xor8(LowPart(c), b) as bv32));
  }

  /** The eight table entries from which linearity gives the other 248. */
  lemma TablePowers()
    ensures Feed(0, 0x01) == 0x7707_3096
    ensures Feed(0, 0x02) == 0xEE0E_612C
    ensures Feed(0, 0x04) == 0x076D_C419
    ensures Feed(0, 0x08) == 0x0EDB_8832
    ensures Feed(0, 0x10) == 0x1DB7_1064
    ensures Feed(0, 0x20) == 0x3B6E_20C8
    ensures Feed(0, 0x40) == 0x76DC_4190
    ensures Feed(0, 0x80) == 0xEDB8_8320
  {
  }

  lemma FeedThree(c: bv32, x: bv8, y: bv8, z: bv8)
    ensures FeedAll(c, [x, y, z]) == Feed(Feed(Feed(c, x), y), z)
  {
    hide Feed;
    assert [x, y, z] == [x] + [y] + [z];
    FeedAllAppend(c, [x] + [y], [z]);
    FeedAllAppend(c, [x], [y]);
    FeedOne(c, x);
    FeedOne(Feed(c, x), y);
    FeedOne(Feed(Feed(c, x), y), z);
  }

  /** The register along the digits 1 to 9. */
  lemma DigitRegisters()
    ensures Feed(0xFFFF_FFFF, 0x31) == 0x7C23_1048
    ensures Feed(0x7C23_1048, 0x32) == 0xB0AC_BB32
    ensures Feed(0xB0AC_BB32, 0x33) == 0x77B7_9C2D
    ensures Feed(0x77B7_9C2D, 0x34) == 0x641C_1F5C
    ensures Feed(0x641C_1F5C, 0x35) == 0x340A_C5E3
    ensures Feed(0x340A_C5E3, 0x36) == 0xF68D_2C9E
    ensures Feed(0xF68D_2C9E, 0x37) == 0xAFFC_9660
    ensures Feed(0xAFFC_9660, 0x38) == 0x651F_2550
    ensures Feed(0x651F_2550, 0x39) == 0x340B_C6D9
  {
  }

  /** The checksum of no message, and the standard check value of the digits 1 to 9. */
  lemma CheckValues()
    ensures Checksum([]) == 0
    ensures Checksum([0x31, 0x32, 0x33, 0x34, 0x35, 0x36, 0x37, 0x38, 0x39]) == 0xCBF4_3926
  {
    DigitRegisters();
    hide Feed, FeedAll;
    var o: bv32 := 0xFFFF_FFFF;
    var x, y, z := [0x31, 0x32, 0x33], [0x34, 0x35, 0x36], [0x37, 0x38, 0x39];
    assert x + y + z == [0x31, 0x32, 0x33, 0x34, 0x35, 0x36, 0x37, 0x38, 0x39];
    FeedAllAppend(o, x + y, z);
    FeedAllAppend(o, x, y);
    FeedThree(o, 0x31, 0x32, 0x33);
    FeedThree(0x77B7_9C2D, 0x34, 0x35, 0x36);
    FeedThree(0xF68D_2C9E, 0x37, 0x38, 0x39);
    FeedNone(o);
  }

  lemma FeedNone(c: bv32)
    ensures FeedAll(c, []) == c
  {
  }
}
