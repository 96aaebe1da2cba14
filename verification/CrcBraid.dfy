/**
 The braided CRC of crc32.c: n registers that each take every n-th word of the input, kept
 so that one step of all of them moves a whole block of n words along, and a last block that
 brings them together. The block is a whole number of words of w bytes.
 */
module CrcBraid {
  import opened CrcField
  import opened CrcRegister
  import opened CrcWords

  /** What the registers of the braids stand for, together: the j-th of m is still m - j words
      from the end of a block. */
  function Sum(cs: seq<bv32>, w: nat): bv32
    decreases |cs|, w
  {
    if cs == [] then 0 else Xor(Shift(|cs| * w, cs[0]), Sum(cs[1..], w))
  }

  /** One word taken into one braid, which then skips the other n - 1 words of the block. */
  function Thread(c: bv32, word: Word, skip: nat): bv32 {
    Shift(skip, Reg(c, word))
  }

  /** A block taken into all braids. */
  function Step(cs: seq<bv32>, block: seq<Byte>, w: nat, skip: nat): (r: seq<bv32>)
    requires |block| == |cs| * w
    ensures |r| == |cs|
    decreases |cs|, w
  {
    if cs == [] then []
    else
      BlockParts(cs, block, w);
      [Thread(cs[0], block[..w], skip)] + Step(cs[1..], block[w..], w, skip)
  }

  /** The last block: every braid's register joins the CRC of the words before it. */
  function Chain(cs: seq<bv32>, block: seq<Byte>, w: nat, c: bv32): bv32
    requires |block| == |cs| * w
    decreases |cs|, w
  {
    if cs == [] then c
    else
      BlockParts(cs, block, w);
      Chain(cs[1..], block[w..], w, Reg(Xor(cs[0], c), block[..w]))
  }

  lemma BlockParts(cs: seq<bv32>, block: seq<Byte>, w: nat)
    requires |block| == |cs| * w && cs != []
    ensures w <= |block| && |block[w..]| == |cs[1..]| * w && |block| == w + |cs[1..]| * w
  {
    assert |cs| * w == w + (|cs| - 1) * w;
  }

  lemma RegTwo(a: seq<Byte>, b: seq<Byte>)
    ensures Reg(0, a + b) == Xor(Shift(|b|, Reg(0, a)), Reg(0, b))
  {
    RegConcat(0, a, b);
    RegSplit(Reg(0, a), b);
  }

  /** The first word of a block, and the rest. */
  lemma RegFirst(block: seq<Byte>, w: nat)
    requires w <= |block|
    ensures Reg(0, block) == Xor(Shift(|block| - w, Reg(0, block[..w])), Reg(0, block[w..]))
  {
    RegTwo(block[..w], block[w..]);
    assert block == block[..w] + block[w..];
  }

  /** The last block brings the braids together into one register. */
  lemma {:induction false} ChainIsSum(cs: seq<bv32>, block: seq<Byte>, w: nat, c: bv32)
    requires |block| == |cs| * w
    ensures Chain(cs, block, w, c) == Xor(Xor(Shift(|block|, c), Sum(cs, w)), Reg(0, block))
    decreases |cs|
  {
    if cs == [] {
      ShiftZero(0, c);
      XorUnit(c);
    } else {
      BlockParts(cs, block, w);
      var rest := block[w..];
      ChainIsSum(cs[1..], rest, w, Reg(Xor(cs[0], c), block[..w]));
      RegFirst(block, w);
      ChainStep(cs[0], c, block[..w], |rest|);
      Shuffle(Shift(|block|, c), Shift(|block|, cs[0]), Shift(|rest|, Reg(0, block[..w])), Sum(cs[1..], w), Reg(0, rest));
    }
  }

  lemma ChainStep(d: bv32, c: bv32, word: Word, m: nat)
    ensures Shift(m, Reg(Xor(d, c), word))
         == Xor(Xor(Shift(m + |word|, c), Shift(m + |word|, d)), Shift(m, Reg(0, word)))
  {
    RegSplit(Xor(d, c), word);
    ShiftXor(|word|, d, c);
    ShiftXor(m, Xor(Shift(|word|, d), Shift(|word|, c)), Reg(0, word));
    ShiftXor(m, Shift(|word|, d), Shift(|word|, c));
    ShiftAdd(m, |word|, d);
    ShiftAdd(m, |word|, c);
    XorComm(Shift(m + |word|, d), Shift(m + |word|, c));
  }

  /** Exclusive-or of five terms in another order. */
  lemma Shuffle(a: bv32, b: bv32, d: bv32, e: bv32, f: bv32)
    ensures Xor(Xor(Xor(Xor(a, b), d), e), f) == Xor(Xor(a, Xor(b, e)), Xor(d, f))
  {
    var ab := Xor(a, b);
    XorAssoc(ab, d, e);
    XorComm(d, e);
    XorAssoc(ab, e, d);
    XorAssoc(Xor(ab, e), d, f);
    XorAssoc(a, b, e);
  }

  /** A block moves what the braids stand for along by the block. */
  lemma {:induction false} StepIsSum(cs: seq<bv32>, block: seq<Byte>, w: nat, skip: nat)
    requires |block| == |cs| * w
    ensures Sum(Step(cs, block, w, skip), w) == Shift(skip + w, Xor(Sum(cs, w), Reg(0, block)))
    decreases |cs|
  {
    if cs == [] {
      XorUnit(0);
      ShiftZero(skip + w, 0);
    } else {
      BlockParts(cs, block, w);
      var first, rest := block[..w], block[w..];
      StepIsSum(cs[1..], rest, w, skip);
      assert Step(cs, block, w, skip)[1..] == Step(cs[1..], rest, w, skip);
      RegFirst(block, w);
      ThreadMoves(cs[0], first, skip, |rest|);
      SumsMove(skip + w, Shift(|block|, cs[0]), Sum(cs[1..], w), Shift(|rest|, Reg(0, first)), Reg(0, rest));
    }
  }

  lemma SumsMove(n: nat, a: bv32, b: bv32, d: bv32, e: bv32)
    ensures Xor(Shift(n, Xor(a, d)), Shift(n, Xor(b, e))) == Shift(n, Xor(Xor(a, b), Xor(d, e)))
  {
    Regroup(a, b, d, e);
    ShiftXor(n, Xor(a, d), Xor(b, e));
  }

  lemma ThreadMoves(c: bv32, word: Word, skip: nat, m: nat)
    ensures Shift(m + |word|, Thread(c, word, skip))
         == Shift(skip + |word|, Xor(Shift(m + |word|, c), Shift(m, Reg(0, word))))
  {
    var w := |word|;
    ChainStep(c, 0, word, m);
    XorUnit(c);
    ShiftZero(m + w, 0);
    XorUnit(Shift(m + w, c));
    ShiftAdd(m + w, skip, Reg(c, word));
    ShiftAdd(skip + w, m, Reg(c, word));
  }

  /** What the n braids stand for when the whole input so far left the register at c. */
  ghost predicate Braided(cs: seq<bv32>, w: nat, c: bv32) {
    Sum(cs, w) == Shift(|cs| * w, c)
  }

  /** The braids at the start: the first holds the register, the others nothing. */
  lemma {:induction false} SumOfNone(n: nat, w: nat, cs: seq<bv32>)
    requires |cs| == n && forall j :: 0 <= j < n ==> cs[j] == 0
    ensures Sum(cs, w) == 0
  {
    if n > 0 {
      SumOfNone(n - 1, w, cs[1..]);
      ShiftZero(n * w, 0);
      XorUnit(0);
    }
  }

  lemma StartBraided(cs: seq<bv32>, w: nat, c: bv32)
    requires cs != [] && cs[0] == c && forall j :: 1 <= j < |cs| ==> cs[j] == 0
    ensures Braided(cs, w, c)
  {
    SumOfNone(|cs| - 1, w, cs[1..]);
    XorUnit(Shift(|cs| * w, c));
  }

  lemma StepBraided(cs: seq<bv32>, block: seq<Byte>, w: nat, c: bv32)
    requires cs != [] && |block| == |cs| * w && Braided(cs, w, c)
    ensures (|cs| - 1) * w >= 0 && Braided(Step(cs, block, w, (|cs| - 1) * w), w, Reg(c, block))
  {
    BlockParts(cs, block, w);
    StepIsSum(cs, block, w, (|cs| - 1) * w);
    RegSplit(c, block);
  }

  lemma ChainBraided(cs: seq<bv32>, block: seq<Byte>, w: nat, c: bv32)
    requires |block| == |cs| * w && Braided(cs, w, c)
    ensures Chain(cs, block, w, 0) == Reg(c, block)
  {
    ChainIsSum(cs, block, w, 0);
    ShiftZero(|block|, 0);
    XorUnit(Sum(cs, w));
    RegSplit(c, block);
  }
}
