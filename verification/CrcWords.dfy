/**
 crc_word and crc_word_big: the CRC of the bytes of one machine word, computed inside the
 word itself, and the mirror image that a big-endian machine works on.
 */
module CrcWords {
  import opened CrcField
  import opened CrcRegister

  /** The bytes of a z_word_t, the least significant one first. */
  type Word = seq<Byte>

  function Zeros(n: nat): (z: Word)
    ensures |z| == n && forall j :: 0 <= j < n ==> z[j] == 0
  {
    seq(n, _ => 0)
  }

  /** Exclusive-or of words. */
  function XorWord(a: Word, b: Word): (r: Word)
    requires |a| == |b|
    ensures |r| == |a| && forall j :: 0 <= j < |a| ==> r[j] == XorByte(a[j], b[j])
  {
    seq(|a|, j requires 0 <= j < |a| => XorByte(a[j], b[j]))
  }

  /** A register converted to a word. */
  function Pad(c: bv32, w: nat): (r: Word)
    requires w >= 4
    ensures |r| == w && r[0] == Lo(c) && r[1] == Lo(Shr8(c)) && r[2] == Lo(Shr8(Shr8(c)))
    ensures r[3] == Lo(Shr8(Shr8(Shr8(c)))) && forall j :: 4 <= j < w ==> r[j] == 0
  {
    [Lo(c), Lo(Shr8(c)), Lo(Shr8(Shr8(c))), Lo(Shr8(Shr8(Shr8(c))))] + Zeros(w - 4)
  }

  /** The word converted to a register: its low 32 bits. */
  function Truncate(d: Word): bv32
    requires |d| >= 4
  {
    WordOf(d[0], d[1], d[2], d[3])
  }

  lemma JoinBytes(c: bv32)
    ensures WordOf(Lo(c), Lo(Shr8(c)), Lo(Shr8(Shr8(c))), Lo(Shr8(Shr8(Shr8(c))))) == c
  {
  }

  lemma TruncatePad(c: bv32, w: nat)
    requires w >= 4
    ensures Truncate(Pad(c, w)) == c
  {
    JoinBytes(c);
  }

  /** byte_swap. */
  function Swap(d: Word): (r: Word)
    ensures |r| == |d| && forall j :: 0 <= j < |d| ==> r[j] == d[|d| - 1 - j]
  {
    seq(|d|, j requires 0 <= j < |d| => d[|d| - 1 - j])
  }

  lemma SwapSwap(d: Word)
    ensures Swap(Swap(d)) == d
  {
  }

  lemma SwapXor(a: Word, b: Word)
    requires |a| == |b|
    ensures Swap(XorWord(a, b)) == XorWord(Swap(a), Swap(b))
  {
  }

  lemma XorByteAssoc(a: Byte, b: Byte, c: Byte)
    ensures XorByte(XorByte(a, b), c) == XorByte(a, XorByte(b, c)) == XorByte(XorByte(a, c), b)
  {
  }

  lemma PadXor(a: bv32, b: bv32, w: nat)
    requires w >= 4
    ensures Pad(Xor(a, b), w) == XorWord(Pad(a, w), Pad(b, w))
  {
    LoXor(a, b);
    Shr8Xor(a, b);
    LoXor(Shr8(a), Shr8(b));
    Shr8Xor(Shr8(a), Shr8(b));
    LoXor(Shr8(Shr8(a)), Shr8(Shr8(b)));
    Shr8Xor(Shr8(Shr8(a)), Shr8(Shr8(b)));
    LoXor(Shr8(Shr8(Shr8(a))), Shr8(Shr8(Shr8(b))));
    ZeroXorZero();
    var p, q := Pad(Xor(a, b), w), XorWord(Pad(a, w), Pad(b, w));
    assert p[0] == q[0] && p[1] == q[1] && p[2] == q[2] && p[3] == q[3];
    assert forall j :: 4 <= j < w ==> p[j] == q[j];
  }

  lemma ZeroXorZero()
    ensures XorByte(0, 0) == 0
  {
  }

  lemma XorByteZero(a: Byte)
    ensures XorByte(a, 0) == a && XorByte(0, a) == a
  {
  }

  lemma XorWordAssoc(a: Word, b: Word, c: Word)
    requires |a| == |b| == |c|
    ensures XorWord(XorWord(a, b), c) == XorWord(XorWord(a, c), b)
  {
    forall j | 0 <= j < |a|
      ensures XorWord(XorWord(a, b), c)[j] == XorWord(XorWord(a, c), b)[j]
    {
      XorByteAssoc(a[j], b[j], c[j]);
    }
  }

  lemma XorWordZero(d: Word)
    requires |d| >= 4
    ensures XorWord(Pad(0, |d|), d) == d && XorWord(d, Zeros(|d|)) == d && Pad(0, |d|) == Zeros(|d|)
  {
    LoZero();
    assert forall j :: 0 <= j < |d| ==> Pad(0, |d|)[j] == 0;
    forall j | 0 <= j < |d|
      ensures XorWord(Pad(0, |d|), d)[j] == d[j] && XorWord(d, Zeros(|d|))[j] == d[j]
    {
      XorByteZero(d[j]);
    }
  }

  /** The word shifted down by a byte. */
  function Drop(d: Word): (r: Word)
    requires |d| > 0
    ensures |r| == |d|
  {
    d[1..] + [0]
  }

  /** One pass of the loop in crc_word. */
  function WordStep(d: Word): (r: Word)
    requires |d| >= 4
    ensures |r| == |d|
  {
    XorWord(Drop(d), Pad(Shift(1, Wide(d[0])), |d|))
  }

  /** k passes of it. */
  function WordSteps(k: nat, d: Word): (r: Word)
    requires |d| >= 4
    ensures |r| == |d|
    decreases k, d
  {
    if k == 0 then d else WordStep(WordSteps(k - 1, d))
  }

  lemma DropPad(c: bv32, w: nat)
    requires w >= 4
    ensures Drop(Pad(c, w)) == Pad(Shr8(c), w)
  {
    Shr8Four(c);
    LoZero();
    var p, q := Drop(Pad(c, w)), Pad(Shr8(c), w);
    assert p[0] == q[0] && p[1] == q[1] && p[2] == q[2];
    assert p[3] == 0 == q[3];
    assert forall j :: 4 <= j < w ==> p[j] == q[j];
  }

  lemma DropXor(a: Word, b: Word)
    requires |a| == |b| > 0
    ensures Drop(XorWord(a, b)) == XorWord(Drop(a), Drop(b))
  {
    ZeroXorZero();
  }

  /** A register laid over the bytes still to come steps as the register does. */
  lemma WordStepOnRegister(c: bv32, e: Word)
    requires |e| >= 4
    ensures WordStep(XorWord(Pad(c, |e|), e)) == XorWord(Pad(ByteStep(c, e[0]), |e|), Drop(e))
  {
    var w := |e|;
    var t := Shift(1, Wide(XorByte(Lo(c), e[0])));
    DropXor(Pad(c, w), e);
    DropPad(c, w);
    XorWordAssoc(Pad(Shr8(c), w), Drop(e), Pad(t, w));
    PadXor(Shr8(c), t, w);
    TableStep(c, e[0]);
  }

  /** What is left of d after k bytes. */
  function Rest(d: Word, k: nat): (r: Word)
    requires k <= |d|
    ensures |r| == |d|
  {
    d[k..] + Zeros(k)
  }

  lemma RegTake(c: bv32, d: Word, k: nat)
    requires 0 < k <= |d|
    ensures Reg(c, d[..k]) == ByteStep(Reg(c, d[..k - 1]), d[k - 1])
  {
    assert d[..k][..k - 1] == d[..k - 1];
  }

  lemma RestStep(d: Word, k: nat)
    requires 0 < k <= |d|
    ensures Rest(d, k - 1)[0] == d[k - 1] && Drop(Rest(d, k - 1)) == Rest(d, k)
  {
  }

  lemma {:induction false} WordStepsOnRegister(c: bv32, d: Word, k: nat)
    requires |d| >= 4 && k <= |d|
    ensures WordSteps(k, XorWord(Pad(c, |d|), d)) == XorWord(Pad(Reg(c, d[..k]), |d|), Rest(d, k))
  {
    if k == 0 {
      assert Rest(d, 0) == d && d[..0] == [];
    } else {
      var was, rest := Reg(c, d[..k - 1]), Rest(d, k - 1);
      WordStepsOnRegister(c, d, k - 1);
      WordStepOnRegister(was, rest);
      RegTake(c, d, k);
      RestStep(d, k);
    }
  }

  /** After as many passes as the word has bytes, the register is all that is left. */
  lemma WholeWord(c: bv32, d: Word)
    requires |d| >= 4
    ensures WordSteps(|d|, XorWord(Pad(c, |d|), d)) == Pad(Reg(c, d), |d|)
  {
    WordStepsOnRegister(c, d, |d|);
    assert d[..|d|] == d && Rest(d, |d|) == Zeros(|d|);
    XorWordZero(Pad(Reg(c, d), |d|));
  }

  /** Adding a register to a word is continuing from that register. */
  lemma RegOfXor(c: bv32, d: Word)
    requires |d| >= 4
    ensures Reg(0, XorWord(Pad(c, |d|), d)) == Reg(c, d)
  {
    var e := XorWord(Pad(c, |d|), d);
    WholeWord(c, d);
    WholeWord(0, e);
    XorWordZero(e);
    TruncatePad(Reg(c, d), |d|);
    TruncatePad(Reg(0, e), |d|);
  }

  /** crc_table. */
  ghost predicate ByteTable(table: seq<bv32>) {
    |table| == 256 && forall b: Byte :: table[Index(b)] == Shift(1, Wide(b))
  }

  /** crc_big_table. */
  ghost predicate BigTable(table: seq<Word>, w: nat) {
    w >= 4 && |table| == 256 && forall b: Byte :: table[Index(b)] == Swap(Pad(Shift(1, Wide(b)), w))
  }

  lemma WordResult(data: Word)
    requires |data| >= 4
    ensures WordSteps(|data|, data) == Pad(Reg(0, data), |data|)
    ensures Truncate(WordSteps(|data|, data)) == Reg(0, data)
  {
    WholeWord(0, data);
    XorWordZero(data);
    TruncatePad(Reg(0, data), |data|);
  }

  method WordPass(table: seq<bv32>, d: Word) returns (r: Word)
    requires ByteTable(table) && |d| >= 4
    ensures |r| == |d| && r == WordStep(d)
  {
    r := XorWord(d[1..] + [0], Pad(table[Index(d[0])], |d|));
  }

  /** crc_word. */
  method CrcWord(table: seq<bv32>, data: Word) returns (r: bv32)
    requires ByteTable(table) && |data| >= 4
    ensures r == Reg(0, data)
  {
    var d := data;
    for k := 0 to |data|
      invariant |d| == |data| && d == WordSteps(k, data)
    {
      d := WordPass(table, d);
    }
    r := Truncate(d);
    WordResult(data);
  }

  lemma MirrorStep(d: Word)
    requires |d| >= 4
    ensures XorWord([0] + Swap(d)[..|d| - 1], Swap(Pad(Shift(1, Wide(Swap(d)[|d| - 1])), |d|))) == Swap(WordStep(d))
  {
    assert [0] + Swap(d)[..|d| - 1] == Swap(Drop(d));
    SwapXor(Drop(d), Pad(Shift(1, Wide(d[0])), |d|));
  }

  method WordPassBig(table: seq<Word>, d: Word, ghost little: Word) returns (r: Word)
    requires BigTable(table, |d|) && d == Swap(little)
    ensures |r| == |d| && r == Swap(WordStep(little))
  {
    MirrorStep(little);
    r := XorWord([0] + d[..|d| - 1], table[Index(d[|d| - 1])]);
  }

  /** crc_word_big: the same computation on byte-swapped words. */
  method CrcWordBig(table: seq<Word>, data: Word) returns (r: Word)
    requires BigTable(table, |data|)
    ensures r == Swap(Pad(Reg(0, Swap(data)), |data|))
  {
    SwapSwap(data);
    r := data;
    for k := 0 to |data|
      invariant |r| == |data| && r == Swap(WordSteps(k, Swap(data)))
    {
      r := WordPassBig(table, r, WordSteps(k, Swap(data)));
    }
    WordResult(Swap(data));
  }
}
