/**
 The rolling hash of the string matcher (UPDATE_HASH in deflate.c): after three
 updates the key depends on the last three bytes only, and two strings that agree
 on two bytes and on the table index agree on the third.
 */
module RollingHash {

  type Byte = bv8

  /** The hash parameters that deflateInit2_ derives from memLevel. */
  datatype HashConfig = HashConfig(bits: nat, shift: nat, mask: bv16) {
    /** memLevel 1..9 gives 8..16 bits; shift is ceil(bits / 3) and mask is 2^bits - 1. */
    predicate Valid() {
      || (shift == 3 && ((bits == 8 && mask == 0xff) || (bits == 9 && mask == 0x1ff)))
      || (shift == 4 && ((bits == 10 && mask == 0x3ff) || (bits == 11 && mask == 0x7ff) || (bits == 12 && mask == 0xfff)))
      || (shift == 5 && ((bits == 13 && mask == 0x1fff) || (bits == 14 && mask == 0x3fff) || (bits == 15 && mask == 0x7fff)))
      || (shift == 6 && bits == 16 && mask == 0xffff)
    }

    /** hash_size, that is 2^bits. */
    function Size(): nat {
      match bits
      case 8 => 256
      case 9 => 512
      case 10 => 1024
      case 11 => 2048
      case 12 => 4096
      case 13 => 8192
      case 14 => 16384
      case 15 => 32768
      case _ => 65536
    }
  }

  function ForBits(bits: nat): (c: HashConfig)
    requires 8 <= bits <= 16
    ensures c.Valid() && c.bits == bits
  {
    match bits
    case 8 => HashConfig(8, 3, 0xff)
    case 9 => HashConfig(9, 3, 0x1ff)
    case 10 => HashConfig(10, 4, 0x3ff)
    case 11 => HashConfig(11, 4, 0x7ff)
    case 12 => HashConfig(12, 4, 0xfff)
    case 13 => HashConfig(13, 5, 0x1fff)
    case 14 => HashConfig(14, 5, 0x3fff)
    case 15 => HashConfig(15, 5, 0x7fff)
    case _ => HashConfig(16, 6, 0xffff)
  }

  /** A left shift by one of the hash_shift values 3..6. */
  function Shl(h: bv16, s: nat): bv16 {
    match s
    case 3 => h << 3
    case 4 => h << 4
    case 5 => h << 5
    case _ => h << 6
  }

  /** Add b into x and cut off to the hash bits. */
  function Mix(m: bv16, x: bv16, b: bv16): bv16 {
    (x ^ b) & m
  }

  /** UPDATE_HASH. The mask has at most 16 bits, so nothing is lost by shifting in 16 bits. */
  function Update(c: HashConfig, h: bv16, b: Byte): bv16 {
    Mix(c.mask, Shl(h, c.shift), b as bv16)
  }

  function LowByte(h: bv16): Byte {
    (h & 0xff) as Byte
  }

  function HighByte(h: bv16): Byte {
    LowByte(h >> 8)
  }

  function FromBytes(lo: Byte, hi: Byte): nat {
    lo as nat + 256 * (hi as nat)
  }

  /** The table index of a key: its value as a 16-bit number, read by bytes. */
  function Index(h: bv16): nat {
    FromBytes(LowByte(h), HighByte(h))
  }

  /** The running hash over the two bytes b0, b1 (fill_window, deflate_fast). */
  function Start(c: HashConfig, b0: Byte, b1: Byte): bv16 {
    Update(c, b0 as bv16, b1)
  }

  /** The table index under which the string b0, b1, b2 is filed. */
  function Slot(c: HashConfig, b0: Byte, b1: Byte, b2: Byte): nat {
    Index(Update(c, Start(c, b0, b1), b2))
  }

  /** h is a running hash whose next update with any b2 yields the key of b0, b1, b2. */
  predicate Ready(c: HashConfig, h: bv16, b0: Byte, b1: Byte) {
    Mix(c.mask, Shl(h, c.shift), 0) == Mix(c.mask, Shl(Start(c, b0, b1), c.shift), 0)
  }

  /** Every update is an index of the hash table. */
  lemma IndexInRange(c: HashConfig, h: bv16, b: Byte)
    requires c.Valid()
    ensures Index(Update(c, h, b)) < c.Size()
  {
    MaskedIndex(c.mask, Shl(h, c.shift), b as bv16);
  }

  lemma MaskedIndex(m: bv16, x: bv16, b: bv16)
    ensures m == 0xff ==> Index(Mix(m, x, b)) < 256
    ensures m == 0x1ff ==> Index(Mix(m, x, b)) < 512
    ensures m == 0x3ff ==> Index(Mix(m, x, b)) < 1024
    ensures m == 0x7ff ==> Index(Mix(m, x, b)) < 2048
    ensures m == 0xfff ==> Index(Mix(m, x, b)) < 4096
    ensures m == 0x1fff ==> Index(Mix(m, x, b)) < 8192
    ensures m == 0x3fff ==> Index(Mix(m, x, b)) < 16384
    ensures m == 0x7fff ==> Index(Mix(m, x, b)) < 32768
    ensures Index(Mix(m, x, b)) < 65536
  {
    HighByteBound(m, x, b);
    FromBytesBound(LowByte(Mix(m, x, b)), HighByte(Mix(m, x, b)));
  }

  lemma HighByteBound(m: bv16, x: bv16, b: bv16)
    ensures m == 0xff ==> HighByte(Mix(m, x, b)) <= 0
    ensures m == 0x1ff ==> HighByte(Mix(m, x, b)) <= 1
    ensures m == 0x3ff ==> HighByte(Mix(m, x, b)) <= 3
    ensures m == 0x7ff ==> HighByte(Mix(m, x, b)) <= 7
    ensures m == 0xfff ==> HighByte(Mix(m, x, b)) <= 15
    ensures m == 0x1fff ==> HighByte(Mix(m, x, b)) <= 31
    ensures m == 0x3fff ==> HighByte(Mix(m, x, b)) <= 63
    ensures m == 0x7fff ==> HighByte(Mix(m, x, b)) <= 127
  {
  }

  lemma FromBytesBound(lo: Byte, hi: Byte)
    ensures hi <= 0 ==> FromBytes(lo, hi) < 256
    ensures hi <= 1 ==> FromBytes(lo, hi) < 512
    ensures hi <= 3 ==> FromBytes(lo, hi) < 1024
    ensures hi <= 7 ==> FromBytes(lo, hi) < 2048
    ensures hi <= 15 ==> FromBytes(lo, hi) < 4096
    ensures hi <= 31 ==> FromBytes(lo, hi) < 8192
    ensures hi <= 63 ==> FromBytes(lo, hi) < 16384
    ensures hi <= 127 ==> FromBytes(lo, hi) < 32768
    ensures FromBytes(lo, hi) < 65536
  {
  }

  /** hash_shift * MIN_MATCH >= hash_bits: once b0 and b1 have been shifted in, the
      bytes before them no longer take part in the key. */
  lemma TwoUpdatesForgetThePast(c: HashConfig, h: bv16, b0: Byte, b1: Byte)
    requires c.Valid()
    ensures Ready(c, Update(c, Update(c, h, b0), b1), b0, b1)
  {
    Forget(c.shift, c.mask, h, b0 as bv16, b1 as bv16);
  }

  lemma Forget(s: nat, m: bv16, h: bv16, b0: bv16, b1: bv16)
    requires
      || (s == 3 && (m == 0xff || m == 0x1ff))
      || (s == 4 && (m == 0x3ff || m == 0x7ff || m == 0xfff))
      || (s == 5 && (m == 0x1fff || m == 0x3fff || m == 0x7fff))
      || (s == 6 && m == 0xffff)
    ensures Mix(m, Shl(Mix(m, Shl(Mix(m, Shl(h, s), b0), s), b1), s), 0) == Mix(m, Shl(Mix(m, Shl(b0, s), b1), s), 0)
  {
    if m == 0xff {} else if m == 0x1ff {} else if m == 0x3ff {} else if m == 0x7ff {} else if m == 0xfff {
    } else if m == 0x1fff {} else if m == 0x3fff {} else if m == 0x7fff {} else {}
  }

  /** A ready hash yields the slot of the string on update, and is then ready for the next one. */
  lemma RollOn(c: HashConfig, h: bv16, b0: Byte, b1: Byte, b2: Byte)
    requires c.Valid() && Ready(c, h, b0, b1)
    ensures Index(Update(c, h, b2)) == Slot(c, b0, b1, b2)
    ensures Ready(c, Update(c, h, b2), b1, b2)
  {
    SameKey(c, h, b0, b1, b2);
    TwoUpdatesForgetThePast(c, b0 as bv16, b1, b2);
  }

  lemma SameKey(c: HashConfig, h: bv16, b0: Byte, b1: Byte, b2: Byte)
    requires Ready(c, h, b0, b1)
    ensures Update(c, h, b2) == Update(c, Start(c, b0, b1), b2)
  {
    SameUpdate(c.mask, Shl(h, c.shift), Shl(Start(c, b0, b1), c.shift), b2 as bv16);
  }

  lemma SameUpdate(m: bv16, x: bv16, y: bv16, b: bv16)
    requires Mix(m, x, 0) == Mix(m, y, 0)
    ensures Mix(m, x, b) == Mix(m, y, b)
  {
  }

  /** The byte comparison that longest_match leaves out: equal slots and equal first
      two bytes force equal third bytes, because the mask keeps at least 8 bits. */
  lemma SkippedByteAgrees(c: HashConfig, b0: Byte, b1: Byte, b2: Byte, d2: Byte)
    requires c.Valid() && Slot(c, b0, b1, b2) == Slot(c, b0, b1, d2)
    ensures b2 == d2
  {
    var x := Shl(Start(c, b0, b1), c.shift);
    SameLowByte(Update(c, Start(c, b0, b1), b2), Update(c, Start(c, b0, b1), d2));
    ThirdByte(c.mask, x, b2, d2);
  }

  lemma SameLowByte(k: bv16, l: bv16)
    requires Index(k) == Index(l)
    ensures LowByte(k) == LowByte(l)
  {
    SameDigits(LowByte(k) as nat, HighByte(k) as nat, LowByte(l) as nat, HighByte(l) as nat);
    ByteValue(LowByte(k), LowByte(l));
  }

  lemma ByteValue(b: Byte, d: Byte)
    requires b as nat == d as nat
    ensures b == d
  {
    assert b as nat as Byte == b;
    assert d as nat as Byte == d;
  }

  lemma SameDigits(a: nat, b: nat, d: nat, e: nat)
    requires a < 256 && d < 256 && a + 256 * b == d + 256 * e
    ensures a == d
  {
  }

  lemma ThirdByte(m: bv16, x: bv16, b2: Byte, d2: Byte)
    requires m & 0xff == 0xff
    requires LowByte(Mix(m, x, b2 as bv16)) == LowByte(Mix(m, x, d2 as bv16))
    ensures b2 == d2
  {
  }
}
