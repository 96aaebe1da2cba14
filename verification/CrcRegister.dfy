/**
 The CRC shift register over bytes, and the machine words crc32.c feeds it from.
 A z_word_t is the sequence of its bytes, the least significant one first.
 */
module CrcRegister {
  import opened CrcField
  import RollingHash

  type Byte = RollingHash.Byte

  function Wide(b: Byte): bv32 {
    b as bv32
  }

  /** The place of a byte in a table of 256. */
  function Index(b: Byte): (i: nat)
    ensures i < 256
  {
    b as nat
  }

  function Lo(c: bv32): Byte {
    (c & 0xff) as bv8
  }

  function Shr8(c: bv32): bv32 {
    c >> 8
  }

  function Not(c: bv32): bv32 {
    !c
  }

  lemma NotNot(c: bv32)
    ensures Not(Not(c)) == c
  {
  }

  /** Four bytes, the least significant first. */
  function WordOf(a: Byte, b: Byte, c: Byte, d: Byte): bv32 {
    (a as bv32) | ((b as bv32) << 8) | ((c as bv32) << 16) | ((d as bv32) << 24)
  }

  function XorByte(a: Byte, b: Byte): Byte {
    a ^ b
  }

  /** The register c after n zero bytes. */
  function Shift(n: nat, c: bv32): bv32 {
    TimesXn(8 * n, c)
  }

  /** The register after one byte: add x^32 times its bits, one by one, multiplying by x. */
  function ByteStep(c: bv32, b: Byte): bv32 {
    Shift(1, Xor(c, Wide(b)))
  }

  /** The register after the bytes of s. */
  function Reg(c: bv32, s: seq<Byte>): bv32
    decreases |s|, c
  {
    if s == [] then c else ByteStep(Reg(c, s[..|s| - 1]), s[|s| - 1])
  }

  /** The CRC of s, continued from crc: section 8 of RFC 1952. */
  function Crc(crc: bv32, s: seq<Byte>): bv32 {
    Not(Reg(Not(crc), s))
  }

  lemma ShiftAdd(m: nat, n: nat, c: bv32)
    ensures Shift(m + n, c) == Shift(m, Shift(n, c))
  {
    TimesXnAdd(8 * m, 8 * n, c);
  }

  lemma ShiftXor(n: nat, a: bv32, b: bv32)
    ensures Shift(n, Xor(a, b)) == Xor(Shift(n, a), Shift(n, b))
  {
    TimesXnLinear(8 * n, a, b);
  }

  lemma ShiftZero(n: nat, c: bv32)
    ensures Shift(0, c) == c && Shift(n, 0) == 0
  {
    TimesXnZero(8 * n);
    assert TimesXn(0, c) == c;
  }

  /** The register is the sum of what it held, moved along, and what the bytes alone give. */
  lemma {:induction false} RegSplit(c: bv32, s: seq<Byte>)
    ensures Reg(c, s) == Xor(Shift(|s|, c), Reg(0, s))
    decreases |s|
  {
    if s == [] {
      ShiftZero(0, c);
      XorUnit(c);
    } else {
      var t := s[..|s| - 1];
      var b := Wide(s[|s| - 1]);
      RegSplit(c, t);
      XorAssoc(Shift(|t|, c), Reg(0, t), b);
      ShiftXor(1, Shift(|t|, c), Xor(Reg(0, t), b));
      ShiftAdd(1, |t|, c);
    }
  }

  lemma {:induction false} RegConcat(c: bv32, s: seq<Byte>, t: seq<Byte>)
    ensures Reg(c, s + t) == Reg(Reg(c, s), t)
    decreases |t|
  {
    if t == [] {
      assert s + t == s;
    } else {
      RegConcat(c, s, t[..|t| - 1]);
      assert (s + t)[..|s + t| - 1] == s + t[..|t| - 1];
    }
  }

  lemma RegOne(c: bv32, b: Byte)
    ensures Reg(c, [b]) == ByteStep(c, b)
  {
    assert [b][..0] == [];
  }

  // The bytes of a register.

  lemma LoXor(a: bv32, b: bv32)
    ensures Lo(Xor(a, b)) == XorByte(Lo(a), Lo(b))
  {
  }

  lemma Shr8Xor(a: bv32, b: bv32)
    ensures Shr8(Xor(a, b)) == Xor(Shr8(a), Shr8(b))
  {
  }

  lemma WideParts(b: Byte)
    ensures Lo(Wide(b)) == b && Shr8(Wide(b)) == 0
  {
  }

  lemma LoZero()
    ensures Lo(0) == 0 && Shr8(0) == 0
  {
  }

  lemma Shr8Four(c: bv32)
    ensures Shr8(Shr8(Shr8(Shr8(c)))) == 0
  {
  }

  /** All but the low byte. */
  function High(c: bv32): bv32 {
    c & 0xffff_ff00
  }

  lemma HighLow(c: bv32)
    ensures c == Xor(High(c), Wide(Lo(c)))
  {
  }

  /** Eight steps on a register whose low byte is clear only shift it. */
  lemma ShiftHigh(h: bv32)
    requires Lo(h) == 0
    ensures Shift(1, h) == Shr8(h)
  {
    var h1 := Half(h);
    var h2 := Half(h1);
    var h3 := Half(h2);
    var h4 := Half(h3);
    var h5 := Half(h4);
    var h6 := Half(h5);
    var h7 := Half(h6);
    NoLowBits(h);
    assert TimesXn(0, h) == h;
    assert TimesXn(1, h) == h1;
    assert TimesXn(2, h) == h2;
    assert TimesXn(3, h) == h3;
    assert TimesXn(4, h) == h4;
    assert TimesXn(5, h) == h5;
    assert TimesXn(6, h) == h6;
    assert TimesXn(7, h) == h7;
    assert TimesXn(8, h) == Half(h7);
    EightHalves(h);
  }

  lemma NoLowBits(h: bv32)
    requires Lo(h) == 0
    ensures !Low(h) && !Low(Half(h)) && !Low(Half(Half(h))) && !Low(Half(Half(Half(h))))
    ensures !Low(Half(Half(Half(Half(h))))) && !Low(Half(Half(Half(Half(Half(h))))))
    ensures !Low(Half(Half(Half(Half(Half(Half(h)))))))
    ensures !Low(Half(Half(Half(Half(Half(Half(Half(h))))))))
  {
  }

  lemma EightHalves(h: bv32)
    ensures Half(Half(Half(Half(Half(Half(Half(Half(h)))))))) == Shr8(h)
  {
  }

  /** One byte step as the source takes it: shift by a byte and look the low byte up. */
  lemma TableStep(c: bv32, b: Byte)
    ensures ByteStep(c, b) == Xor(Shr8(c), Shift(1, Wide(XorByte(Lo(c), b))))
  {
    var d := Xor(c, Wide(b));
    HighLow(d);
    HighPart(d);
    ShiftXor(1, High(d), Wide(Lo(d)));
    ShiftHigh(High(d));
    LoXor(c, Wide(b));
    Shr8Xor(c, Wide(b));
    WideParts(b);
    XorUnit(Shr8(c));
  }

  lemma HighPart(d: bv32)
    ensures Lo(High(d)) == 0 && Shr8(High(d)) == Shr8(d)
  {
  }

  /** Shifting a byte down from the top of the register loses nothing. */
  lemma TopByte(b: Byte)
    ensures TimesXn(24, AtTop(b)) == Wide(b)
  {
    var c := AtTop(b);
    TopByteParts(b);
    ShiftHigh(c);
    ShiftHigh(Shr8(c));
    ShiftHigh(Shr8(Shr8(c)));
    ShiftAdd(1, 1, c);
    ShiftAdd(1, 2, c);
  }

  function AtTop(b: Byte): bv32 {
    (b as bv32) << 24
  }

  lemma TopByteParts(b: Byte)
    ensures Lo(AtTop(b)) == 0 && Lo(Shr8(AtTop(b))) == 0 && Lo(Shr8(Shr8(AtTop(b)))) == 0
    ensures Shr8(Shr8(Shr8(AtTop(b)))) == Wide(b)
  {
  }
}
