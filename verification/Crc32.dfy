/**
 crc32_z and crc32_combine64: whatever the alignment, the byte order, the number of braids
 and the size of a word, the result is the byte-wise CRC, and the CRC of a concatenation
 follows from the CRCs of its parts.
 */
module Crc32 {
  import opened Arith
  import opened CrcField
  import opened CrcPowers
  import opened CrcRegister
  import opened CrcWords
  import opened CrcTables
  import opened CrcBlocks

  /** The input: a null pointer, or bytes at an address. */
  datatype Input = Null | At(address: nat, bytes: seq<Byte>)

  /** One step of the byte-wise computation: (crc >> 8) ^ crc_table[(crc ^ b) & 0xff]. */
  method TakeByte(table: seq<bv32>, c: bv32, b: Byte) returns (r: bv32)
    requires ByteTable(table)
    ensures r == ByteStep(c, b)
  {
    TableStep(c, b);
    r := Xor(Shr8(c), table[Index(XorByte(Lo(c), b))]);
  }

  /** Bytes p to q of s, one at a time. */
  method TakeBytes(table: seq<bv32>, c: bv32, s: seq<Byte>, p: nat, q: nat, ghost c0: bv32) returns (r: bv32)
    requires ByteTable(table) && p <= q <= |s| && c == Reg(c0, s[..p])
    ensures r == Reg(c0, s[..q])
  {
    r := c;
    for i := p to q
      invariant r == Reg(c0, s[..i])
    {
      RegTake(c0, s, i + 1);
      r := TakeByte(table, r, s[i]);
    }
  }

  /** Fewer than w bytes are passed before the address is a multiple of w. */
  lemma AlignedSoon(address: nat, p: nat, w: nat)
    requires w >= 1 && address % w + p <= w && (p == 0 || address % w > 0) && (address + p) % w != 0
    ensures address % w + p + 1 <= w && address % w > 0
  {
    var q, r := address / w, address % w;
    assert address == q * w + r;
    if p == 0 {
    } else if r + p == w {
      assert address + p == (q + 1) * w;
      DivModUnique(address + p, w, q + 1, 0);
    }
  }

  /** The bytes before the first word boundary. */
  method Align(table: seq<bv32>, c: bv32, address: nat, s: seq<Byte>, w: nat) returns (r: bv32, p: nat)
    requires ByteTable(table) && w >= 1
    ensures p <= |s| && p < w && r == Reg(c, s[..p])
    ensures p == |s| || (address + p) % w == 0
  {
    r, p := c, 0;
    assert s[..0] == [];
    while p < |s| && (address + p) % w != 0
      invariant p <= |s| && address % w + p <= w && (p == 0 || address % w > 0)
      invariant r == Reg(c, s[..p])
    {
      AlignedSoon(address, p, w);
      RegTake(c, s, p + 1);
      r := TakeByte(table, r, s[p]);
      p := p + 1;
    }
  }

  /** What is left after the words: eight bytes at a time, then one at a time. */
  method Complete(table: seq<bv32>, c: bv32, s: seq<Byte>, start: nat, ghost c0: bv32) returns (r: bv32)
    requires ByteTable(table) && start <= |s| && c == Reg(c0, s[..start])
    ensures r == Reg(c0, s)
  {
    r := c;
    var p := start;
    while |s| - p >= 8
      invariant p <= |s| && r == Reg(c0, s[..p])
    {
      r := TakeBytes(table, r, s, p, p + 8, c0);
      p := p + 8;
    }
    r := TakeBytes(table, r, s, p, |s|, c0);
    assert s[..|s|] == s;
  }

  lemma WholeBlocks(len: nat, m: nat)
    requires 1 <= m <= len
    ensures 1 <= len / m && (len / m) * m <= len
  {
    assert len == (len / m) * m + len % m;
  }

  /** The braided part of crc32_z: as many whole blocks as there are from p on. */
  method TakeBlocks(t: Tables, n: nat, w: nat, little: bool, c: bv32, s: seq<Byte>, p: nat, ghost c0: bv32)
    returns (r: bv32, q: nat)
    requires Made(t, n, w) && p + n * w <= |s| && c == Reg(c0, s[..p])
    ensures p < q <= |s| && r == Reg(c0, s[..q])
  {
    var m := n * w;
    ProductAtLeast(n, w);
    WholeBlocks(|s| - p, m);
    var blks := (|s| - p) / m;
    q := p + blks * m;
    ProductAtLeast(blks, m);
    RegBlock(c0, s, p, blks * m);
    if little {
      r := BraidsLittle(t, n, w, c, s[p..q], blks);
    } else {
      r := BraidsBig(t, n, w, c, s[p..q], blks);
    }
  }

  /** crc32_z. */
  method Crc32Z(t: Tables, n: nat, w: nat, little: bool, crc: bv32, buf: Input) returns (r: bv32)
    requires Made(t, n, w)
    ensures r == if buf.Null? then 0 else Crc(crc, buf.bytes)
  {
    if buf.Null? {
      return 0;
    }
    var s := buf.bytes;
    var c, p := Not(crc), 0;
    assert s[..0] == [];
    if |s| >= n * w + w - 1 {
      c, p := Align(t.crcTable, c, buf.address, s, w);
      c, p := TakeBlocks(t, n, w, little, c, s, p, Not(crc));
    }
    c := Complete(t.crcTable, c, s, p, Not(crc));
    r := Not(c);
  }

  // crc32_combine64.

  const ONES: bv32 := 0xffff_ffff

  lemma NotIsXor(c: bv32)
    ensures Not(c) == Xor(c, ONES) && Not(Not(c)) == c
  {
  }

  /** The CRC of a concatenation from the CRCs of its parts. */
  lemma CombineIsConcat(crc: bv32, a: seq<Byte>, b: seq<Byte>)
    ensures Xor(Shift(|b|, Crc(crc, a)), Crc(0, b)) == Crc(crc, a + b)
  {
    var r, z := Reg(Not(crc), a), Reg(0, b);
    RegConcat(Not(crc), a, b);
    RegSplit(r, b);
    RegSplit(ONES, b);
    NotIsXor(0);
    XorUnit(ONES);
    ShiftXor(|b|, r, ONES);
    NotIsXor(r);
    NotIsXor(Reg(ONES, b));
    NotIsXor(Reg(r, b));
    ConditioningCancels(Shift(|b|, r), Shift(|b|, ONES), z);
  }

  lemma ConditioningCancels(x: bv32, o: bv32, z: bv32)
    ensures Xor(Xor(x, o), Xor(Xor(o, z), ONES)) == Xor(Xor(x, z), ONES)
  {
    XorAssoc(o, z, ONES);
    XorAssoc(x, o, Xor(o, Xor(z, ONES)));
    XorAssoc(o, o, Xor(z, ONES));
    XorUnit(o);
    XorUnit(Xor(z, ONES));
    XorAssoc(x, z, ONES);
  }

  /** crc32_combine64, for a second string of any length. */
  method Combine64(t: Tables, crc1: bv32, crc2: bv32, len2: nat, ghost crc: bv32, ghost a: seq<Byte>, ghost b: seq<Byte>)
    returns (r: bv32)
    requires |t.x2nTable| == 32 && PowerTable(t.x2nTable) && len2 == |b|
    requires crc1 == Crc(crc, a) && crc2 == Crc(0, b)
    ensures r == Crc(crc, a + b)
  {
    TimesEight(len2);
    var op := X2nmodp(t.x2nTable, len2, 3);
    OneNonzero();
    TimesXnNonzero(8 * len2, ONE);
    var moved := Multmodp(op, crc1);
    r := Xor(moved, crc2);
    MulPower(8 * len2, crc1);
    CombineIsConcat(crc, a, b);
  }

  lemma TimesEight(n: nat)
    ensures Scaled(n, 3) == 8 * n
  {
    assert Scaled(n, 0) == n && Scaled(n, 1) == 2 * n && Scaled(n, 2) == 4 * n;
  }
}
