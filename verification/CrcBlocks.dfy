/**
 The two branches of crc32_z that run all braids over whole blocks, little-endian and
 big-endian.
 */
module CrcBlocks {
  import opened CrcField
  import opened CrcRegister
  import opened CrcWords
  import opened CrcBraid
  import opened CrcTables
  import opened CrcThreads

  lemma WordOfBlock(cs: seq<bv32>, block: seq<Byte>, w: nat, j: nat)
    requires |block| == |cs| * w && j < |cs|
    ensures 0 <= j * w && j * w + w <= |block| && (j + 1) * w == j * w + w
    ensures |block[j * w..]| == |cs[j..]| * w
    ensures block[j * w..][..w] == block[j * w..j * w + w] && block[j * w..][w..] == block[(j + 1) * w..]
    ensures cs[j..][1..] == cs[j + 1..]
  {
    ProductUpTo(j, |cs|, w);
  }

  lemma ProductUpTo(j: nat, n: nat, w: nat)
    requires j < n
    ensures 0 <= j * w && j * w + w <= n * w && (j + 1) * w == j * w + w
    ensures n * w - j * w == (n - j) * w
  {
    assert (n - j) * w == w + (n - j - 1) * w;
    assert (n - j - 1) * w >= 0;
  }

  /** The braids before j have taken their word of the block. */
  ghost predicate Stepped(out: seq<bv32>, j: nat, cs: seq<bv32>, block: seq<Byte>, w: nat, skip: nat) {
    && j <= |cs| && |block| == |cs| * w && j * w <= |block| && |block[j * w..]| == |cs[j..]| * w
    && out + Step(cs[j..], block[j * w..], w, skip) == Step(cs, block, w, skip)
  }

  lemma SteppedOne(out: seq<bv32>, j: nat, cs: seq<bv32>, block: seq<Byte>, w: nat, skip: nat)
    requires Stepped(out, j, cs, block, w, skip) && j < |cs|
    ensures 0 <= j * w && j * w + w <= |block|
    ensures Stepped(out + [Thread(cs[j], block[j * w..j * w + w], skip)], j + 1, cs, block, w, skip)
  {
    WordOfBlock(cs, block, w, j);
    if j + 1 < |cs| {
      WordOfBlock(cs, block, w, j + 1);
    }
    StepCons(cs[j..], block[j * w..], w, skip);
    AppendOne(out, Thread(cs[j], block[j * w..j * w + w], skip), Step(cs[j + 1..], block[(j + 1) * w..], w, skip));
  }

  lemma StepCons(cs: seq<bv32>, block: seq<Byte>, w: nat, skip: nat)
    requires |block| == |cs| * w && cs != []
    ensures w <= |block| && |block[w..]| == |cs[1..]| * w
    ensures Step(cs, block, w, skip) == [Thread(cs[0], block[..w], skip)] + Step(cs[1..], block[w..], w, skip)
  {
    BlockParts(cs, block, w);
  }

  lemma AppendOne(a: seq<bv32>, x: bv32, b: seq<bv32>)
    ensures a + ([x] + b) == a + [x] + b
  {
  }

  lemma SteppedAll(out: seq<bv32>, cs: seq<bv32>, block: seq<Byte>, w: nat, skip: nat)
    requires Stepped(out, |cs|, cs, block, w, skip)
    ensures out == Step(cs, block, w, skip)
  {
    assert cs[|cs|..] == [];
    assert out + [] == out;
  }

  method SteppedMore(ltl: seq<seq<bv32>>, out: seq<bv32>, j: nat, cs: seq<bv32>, block: seq<Byte>, w: nat, ghost m: nat)
    returns (out': seq<bv32>)
    requires w <= m && LittleTables(ltl, m, w) && Stepped(out, j, cs, block, w, m - w) && j < |cs|
    ensures Stepped(out', j + 1, cs, block, w, m - w)
  {
    SteppedOne(out, j, cs, block, w, m - w);
    var c := ThreadLittle(ltl, cs[j], Load(block, j * w, w, true), m);
    out' := out + [c];
  }

  /** One pass of the little-endian loop over blocks. */
  method BlockLittle(ltl: seq<seq<bv32>>, cs: seq<bv32>, block: seq<Byte>, w: nat, ghost m: nat) returns (out: seq<bv32>)
    requires |block| == |cs| * w && w <= m && LittleTables(ltl, m, w)
    ensures out == Step(cs, block, w, m - w)
  {
    ghost var skip: nat := m - w;
    out := [];
    StartStepped(cs, block, w, skip);
    for j := 0 to |cs|
      invariant Stepped(out, j, cs, block, w, skip)
    {
      out := SteppedMore(ltl, out, j, cs, block, w, m);
    }
    SteppedAll(out, cs, block, w, skip);
  }

  lemma StartStepped(cs: seq<bv32>, block: seq<Byte>, w: nat, skip: nat)
    requires |block| == |cs| * w
    ensures Stepped([], 0, cs, block, w, skip)
  {
    assert cs[0..] == cs && block[0..] == block;
    assert [] + Step(cs, block, w, skip) == Step(cs, block, w, skip);
  }

  /** The registers of a big-endian machine hold those of a little-endian one, byte-swapped. */
  ghost predicate Mirrors(rs: seq<Word>, cs: seq<bv32>, w: nat) {
    w >= 4 && |rs| == |cs| && forall j :: 0 <= j < |cs| ==> rs[j] == Mirror(cs[j], w)
  }

  /** The braids before j have taken their word of the block, on both machines. */
  ghost predicate SteppedBig(out: seq<Word>, j: nat, cs: seq<bv32>, block: seq<Byte>, w: nat, skip: nat) {
    exists little :: Stepped(little, j, cs, block, w, skip) && Mirrors(out, little, w)
  }

  method ThreadAt(big: seq<seq<Word>>, r: Word, ghost c: bv32, block: seq<Byte>, p: nat, w: nat, ghost m: nat) returns (r': Word)
    requires p + w <= |block| && w <= m && BigTables(big, m, w) && r == Mirror(c, w)
    ensures r' == Mirror(Thread(c, block[p..p + w], m - w), w)
  {
    LoadBig(block, p, w);
    r' := ThreadBig(big, r, Load(block, p, w, false), c, m);
  }

  lemma SteppedBigOne(out: seq<Word>, r: Word, j: nat, cs: seq<bv32>, block: seq<Byte>, w: nat, skip: nat)
    requires SteppedBig(out, j, cs, block, w, skip) && j < |cs|
    requires 0 <= j * w && j * w + w <= |block| && w >= 4
    requires r == Mirror(Thread(cs[j], block[j * w..j * w + w], skip), w)
    ensures SteppedBig(out + [r], j + 1, cs, block, w, skip)
  {
    var little :| Stepped(little, j, cs, block, w, skip) && Mirrors(out, little, w);
    SteppedOne(little, j, cs, block, w, skip);
    assert Mirrors(out + [r], little + [Thread(cs[j], block[j * w..j * w + w], skip)], w);
  }

  lemma SteppedBigAll(out: seq<Word>, cs: seq<bv32>, block: seq<Byte>, w: nat, skip: nat)
    requires SteppedBig(out, |cs|, cs, block, w, skip)
    ensures |block| == |cs| * w && Mirrors(out, Step(cs, block, w, skip), w)
  {
    var little :| Stepped(little, |cs|, cs, block, w, skip) && Mirrors(out, little, w);
    SteppedAll(little, cs, block, w, skip);
  }

  lemma StartSteppedBig(cs: seq<bv32>, block: seq<Byte>, w: nat, skip: nat)
    requires |block| == |cs| * w && w >= 4
    ensures SteppedBig([], 0, cs, block, w, skip)
  {
    StartStepped(cs, block, w, skip);
    assert Mirrors([], [], w);
  }

  /** One pass of the big-endian loop over blocks. */
  method BlockBig(big: seq<seq<Word>>, rs: seq<Word>, ghost cs: seq<bv32>, block: seq<Byte>, w: nat, ghost m: nat)
    returns (out: seq<Word>)
    requires |block| == |cs| * w && Mirrors(rs, cs, w) && w <= m && BigTables(big, m, w)
    ensures Mirrors(out, Step(cs, block, w, m - w), w)
  {
    ghost var skip: nat := m - w;
    out := [];
    StartSteppedBig(cs, block, w, skip);
    for j := 0 to |rs|
      invariant SteppedBig(out, j, cs, block, w, skip)
    {
      ProductUpTo(j, |rs|, w);
      var r := ThreadAt(big, rs[j], cs[j], block, j * w, w, m);
      SteppedBigOne(out, r, j, cs, block, w, skip);
      out := out + [r];
    }
    SteppedBigAll(out, cs, block, w, skip);
  }

  /** The braids before j are in comb. */
  ghost predicate Chained(comb: bv32, j: nat, cs: seq<bv32>, block: seq<Byte>, w: nat) {
    && j <= |cs| && |block| == |cs| * w && j * w <= |block| && |block[j * w..]| == |cs[j..]| * w
    && Chain(cs[j..], block[j * w..], w, comb) == Chain(cs, block, w, 0)
  }

  lemma ChainedOne(comb: bv32, j: nat, cs: seq<bv32>, block: seq<Byte>, w: nat)
    requires Chained(comb, j, cs, block, w) && j < |cs|
    ensures 0 <= j * w && j * w + w <= |block|
    ensures Chained(Reg(Xor(cs[j], comb), block[j * w..j * w + w]), j + 1, cs, block, w)
  {
    WordOfBlock(cs, block, w, j);
    if j + 1 < |cs| {
      WordOfBlock(cs, block, w, j + 1);
    }
    ChainCons(cs[j..], block[j * w..], w, comb);
  }

  lemma ChainCons(cs: seq<bv32>, block: seq<Byte>, w: nat, c: bv32)
    requires |block| == |cs| * w && cs != []
    ensures w <= |block| && |block[w..]| == |cs[1..]| * w
    ensures Chain(cs, block, w, c) == Chain(cs[1..], block[w..], w, Reg(Xor(cs[0], c), block[..w]))
  {
    BlockParts(cs, block, w);
  }

  lemma StartChained(cs: seq<bv32>, block: seq<Byte>, w: nat)
    requires |block| == |cs| * w
    ensures Chained(0, 0, cs, block, w)
  {
    assert cs[0..] == cs && block[0..] == block;
  }

  lemma ChainedAll(comb: bv32, cs: seq<bv32>, block: seq<Byte>, w: nat)
    requires Chained(comb, |cs|, cs, block, w)
    ensures comb == Chain(cs, block, w, 0)
  {
    assert cs[|cs|..] == [];
  }

  lemma ThreeWay(c: bv32, comb: bv32, word: Word)
    requires |word| >= 4
    ensures Reg(0, XorWord(XorWord(Pad(c, |word|), word), Pad(comb, |word|))) == Reg(Xor(c, comb), word)
  {
    XorWordAssoc(Pad(c, |word|), word, Pad(comb, |word|));
    PadXor(c, comb, |word|);
    RegOfXor(Xor(c, comb), word);
  }

  /** One braid joins the CRC of the words before it. */
  method JoinLittleAt(table: seq<bv32>, c: bv32, comb: bv32, block: seq<Byte>, p: nat, w: nat) returns (r: bv32)
    requires p + w <= |block| && 4 <= w && ByteTable(table)
    ensures r == Reg(Xor(c, comb), block[p..p + w])
  {
    var word := Load(block, p, w, true);
    ThreeWay(c, comb, word);
    r := CrcWord(table, XorWord(XorWord(Pad(c, w), word), Pad(comb, w)));
  }

  /** The last block, little-endian. */
  method JoinLittle(table: seq<bv32>, cs: seq<bv32>, block: seq<Byte>, w: nat) returns (comb: bv32)
    requires |block| == |cs| * w && 4 <= w && ByteTable(table)
    ensures comb == Chain(cs, block, w, 0)
  {
    comb := 0;
    StartChained(cs, block, w);
    for j := 0 to |cs|
      invariant Chained(comb, j, cs, block, w)
    {
      ChainedOne(comb, j, cs, block, w);
      comb := JoinLittleAt(table, cs[j], comb, block, j * w, w);
    }
    ChainedAll(comb, cs, block, w);
  }

  lemma MirrorThreeWay(c: bv32, comb: bv32, word: Word)
    requires |word| >= 4
    ensures Swap(XorWord(XorWord(Mirror(c, |word|), Swap(word)), Mirror(comb, |word|)))
         == XorWord(XorWord(Pad(c, |word|), word), Pad(comb, |word|))
  {
    SwapXor(Pad(c, |word|), word);
    SwapXor(XorWord(Pad(c, |word|), word), Pad(comb, |word|));
    SwapSwap(XorWord(XorWord(Pad(c, |word|), word), Pad(comb, |word|)));
  }

  /** One braid joins the CRC of the words before it, big-endian. */
  method JoinAt(table: seq<Word>, r: Word, comb: Word, ghost c: bv32, ghost before: bv32, block: seq<Byte>, p: nat, w: nat) returns (r': Word)
    requires p + w <= |block| && BigTable(table, w) && r == Mirror(c, w) && comb == Mirror(before, w)
    ensures r' == Mirror(Reg(Xor(c, before), block[p..p + w]), w)
  {
    ThreeWay(c, before, block[p..p + w]);
    MirrorThreeWay(c, before, block[p..p + w]);
    r' := CrcWordBig(table, XorWord(XorWord(r, Load(block, p, w, false)), comb));
  }

  ghost predicate ChainedBig(comb: Word, j: nat, cs: seq<bv32>, block: seq<Byte>, w: nat) {
    w >= 4 && exists little :: Chained(little, j, cs, block, w) && comb == Mirror(little, w)
  }

  lemma ChainedMirror(comb: Word, little: bv32, j: nat, cs: seq<bv32>, block: seq<Byte>, w: nat)
    requires w >= 4 && Chained(little, j, cs, block, w) && comb == Mirror(little, w)
    ensures ChainedBig(comb, j, cs, block, w)
  {
  }

  lemma LittleOf(comb: Word, j: nat, cs: seq<bv32>, block: seq<Byte>, w: nat) returns (little: bv32)
    requires ChainedBig(comb, j, cs, block, w) && j < |cs|
    ensures comb == Mirror(little, w) && 0 <= j * w && j * w + w <= |block|
    ensures Chained(Reg(Xor(cs[j], little), block[j * w..j * w + w]), j + 1, cs, block, w)
  {
    little :| Chained(little, j, cs, block, w) && comb == Mirror(little, w);
    ChainedOne(little, j, cs, block, w);
  }

  method ChainedBigOne(table: seq<Word>, r: Word, comb: Word, ghost cs: seq<bv32>, block: seq<Byte>, j: nat, w: nat) returns (comb': Word)
    requires BigTable(table, w) && ChainedBig(comb, j, cs, block, w) && j < |cs| && r == Mirror(cs[j], w)
    ensures ChainedBig(comb', j + 1, cs, block, w)
  {
    ghost var little := LittleOf(comb, j, cs, block, w);
    comb' := JoinAt(table, r, comb, cs[j], little, block, j * w, w);
    ChainedMirror(comb', Reg(Xor(cs[j], little), block[j * w..j * w + w]), j + 1, cs, block, w);
  }

  lemma StartChainedBig(cs: seq<bv32>, block: seq<Byte>, w: nat)
    requires |block| == |cs| * w && w >= 4
    ensures ChainedBig(Zeros(w), 0, cs, block, w)
  {
    StartChained(cs, block, w);
    FirstEntry(0, w);
  }

  /** The last block, big-endian. */
  method JoinBig(table: seq<Word>, rs: seq<Word>, ghost cs: seq<bv32>, block: seq<Byte>, w: nat) returns (comb: Word)
    requires |block| == |cs| * w && Mirrors(rs, cs, w) && BigTable(table, w)
    ensures comb == Mirror(Chain(cs, block, w, 0), w)
  {
    comb := Zeros(w);
    StartChainedBig(cs, block, w);
    for j := 0 to |rs|
      invariant ChainedBig(comb, j, cs, block, w)
    {
      comb := ChainedBigOne(table, rs[j], comb, cs, block, j, w);
    }
    ghost var little :| Chained(little, |cs|, cs, block, w) && comb == Mirror(little, w);
    ChainedAll(little, cs, block, w);
  }

  lemma RegBlock(c: bv32, s: seq<Byte>, p: nat, m: nat)
    requires p + m <= |s|
    ensures Reg(c, s[..p + m]) == Reg(Reg(c, s[..p]), s[p..p + m])
  {
    RegConcat(c, s[..p], s[p..p + m]);
    assert s[..p] + s[p..p + m] == s[..p + m];
  }

  /** One more of the blocks that are left, apart from the last. */
  lemma MoreBlocks(blks: nat, p: nat, m: nat, len: nat)
    requires p + (blks + 1) * m == len
    ensures p + m <= len
    ensures blks > 0 ==> (p + m) + blks * m == len && p + m + m <= len
  {
    assert (blks + 1) * m == blks * m + m;
    if blks > 0 {
      assert blks * m == (blks - 1) * m + m;
      assert (blks - 1) * m >= 0;
    }
  }

  /** The braids when p bytes of s are in them and blks blocks of m bytes are left besides
      the last. */
  ghost predicate Running(cs: seq<bv32>, w: nat, m: nat, c: bv32, s: seq<Byte>, p: nat, blks: nat) {
    cs != [] && m == |cs| * w && p <= |s| && p + (blks + 1) * m == |s| && Braided(cs, w, Reg(c, s[..p]))
  }

  lemma RunningStart(cs: seq<bv32>, w: nat, m: nat, c: bv32, s: seq<Byte>, blks: nat)
    requires cs != [] && m == |cs| * w && cs[0] == c && forall j :: 1 <= j < |cs| ==> cs[j] == 0
    requires (blks + 1) * m == |s|
    ensures Running(cs, w, m, c, s, 0, blks)
  {
    assert s[..0] == [];
    StartBraided(cs, w, c);
  }

  lemma RunningStep(cs: seq<bv32>, w: nat, m: nat, c: bv32, s: seq<Byte>, p: nat, blks: nat)
    requires Running(cs, w, m, c, s, p, blks) && blks > 0
    ensures p + m <= |s| && w <= m && |s[p..p + m]| == |cs| * w
    ensures Running(Step(cs, s[p..p + m], w, m - w), w, m, c, s, p + m, blks - 1)
  {
    MoreBlocks(blks, p, m, |s|);
    assert m == (|cs| - 1) * w + w;
    StepBraided(cs, s[p..p + m], w, Reg(c, s[..p]));
    RegBlock(c, s, p, m);
  }

  lemma RunningEnd(cs: seq<bv32>, w: nat, m: nat, c: bv32, s: seq<Byte>, p: nat)
    requires Running(cs, w, m, c, s, p, 0)
    ensures |s[p..]| == |cs| * w && Chain(cs, s[p..], w, 0) == Reg(c, s)
  {
    RegBlock(c, s, p, m);
    assert s[p..p + m] == s[p..] && s[..p + m] == s;
    ChainBraided(cs, s[p..], w, Reg(c, s[..p]));
  }

  method PassLittle(ltl: seq<seq<bv32>>, cs: seq<bv32>, w: nat, m: nat, ghost c: bv32, s: seq<Byte>, p: nat, blks: nat)
    returns (out: seq<bv32>)
    requires Running(cs, w, m, c, s, p, blks) && blks > 0 && LittleTables(ltl, m, w)
    ensures Running(out, w, m, c, s, p + m, blks - 1)
  {
    RunningStep(cs, w, m, c, s, p, blks);
    out := BlockLittle(ltl, cs, s[p..p + m], w, m);
  }

  /** The little-endian branch of crc32_z, over a whole number of blocks of n words. */
  method BraidsLittle(t: Tables, n: nat, w: nat, c: bv32, s: seq<Byte>, blocks: nat) returns (r: bv32)
    requires Made(t, n, w) && blocks >= 1 && blocks * (n * w) == |s|
    ensures r == Reg(c, s)
  {
    var m := n * w;
    var cs := [c] + seq(n - 1, _ => 0);
    var p: nat, blks: nat := 0, blocks - 1;
    RunningStart(cs, w, m, c, s, blks);
    while blks != 0
      invariant Running(cs, w, m, c, s, p, blks)
      decreases blks
    {
      cs := PassLittle(t.braidTable, cs, w, m, c, s, p, blks);
      p, blks := p + m, blks - 1;
    }
    RunningEnd(cs, w, m, c, s, p);
    r := JoinLittle(t.crcTable, cs, s[p..], w);
  }

  /** The registers of a big-endian machine, running. */
  ghost predicate RunningBig(rs: seq<Word>, w: nat, m: nat, c: bv32, s: seq<Byte>, p: nat, blks: nat) {
    exists cs :: Running(cs, w, m, c, s, p, blks) && Mirrors(rs, cs, w)
  }

  lemma RunningBigStart(n: nat, w: nat, m: nat, c: bv32, s: seq<Byte>, blks: nat)
    requires n >= 1 && w >= 4 && m == n * w && (blks + 1) * m == |s|
    ensures RunningBig([Mirror(c, w)] + seq(n - 1, _ => Zeros(w)), w, m, c, s, 0, blks)
  {
    FirstEntry(0, w);
    var cs := [c] + seq(n - 1, _ => 0);
    RunningStart(cs, w, m, c, s, blks);
    assert Mirrors([Mirror(c, w)] + seq(n - 1, _ => Zeros(w)), cs, w);
  }

  lemma RunningBlock(rs: seq<Word>, w: nat, m: nat, c: bv32, s: seq<Byte>, p: nat, blks: nat) returns (cs: seq<bv32>)
    requires RunningBig(rs, w, m, c, s, p, blks) && blks > 0
    ensures Running(cs, w, m, c, s, p, blks) && Mirrors(rs, cs, w)
    ensures p + m <= |s| && w <= m && |s[p..p + m]| == |cs| * w
  {
    cs :| Running(cs, w, m, c, s, p, blks) && Mirrors(rs, cs, w);
    RunningStep(cs, w, m, c, s, p, blks);
  }

  lemma RunningBigNext(cs: seq<bv32>, out: seq<Word>, w: nat, m: nat, c: bv32, s: seq<Byte>, p: nat, blks: nat)
    requires Running(cs, w, m, c, s, p, blks) && blks > 0
    requires p + m <= |s| && w <= m && |s[p..p + m]| == |cs| * w && Mirrors(out, Step(cs, s[p..p + m], w, m - w), w)
    ensures RunningBig(out, w, m, c, s, p + m, blks - 1)
  {
    RunningStep(cs, w, m, c, s, p, blks);
  }

  method PassBig(big: seq<seq<Word>>, rs: seq<Word>, w: nat, m: nat, ghost c: bv32, s: seq<Byte>, p: nat, blks: nat)
    returns (out: seq<Word>)
    requires RunningBig(rs, w, m, c, s, p, blks) && blks > 0 && BigTables(big, m, w)
    ensures RunningBig(out, w, m, c, s, p + m, blks - 1)
  {
    ghost var cs := RunningBlock(rs, w, m, c, s, p, blks);
    out := BlockBig(big, rs, cs, s[p..p + m], w, m);
    RunningBigNext(cs, out, w, m, c, s, p, blks);
  }

  method LastBig(table: seq<Word>, rs: seq<Word>, w: nat, ghost m: nat, ghost c: bv32, s: seq<Byte>, p: nat) returns (comb: Word)
    requires RunningBig(rs, w, m, c, s, p, 0) && BigTable(table, w)
    ensures comb == Mirror(Reg(c, s), w)
  {
    ghost var cs :| Running(cs, w, m, c, s, p, 0) && Mirrors(rs, cs, w);
    RunningEnd(cs, w, m, c, s, p);
    comb := JoinBig(table, rs, cs, s[p..], w);
  }

  lemma TruncateMirror(c: bv32, w: nat)
    requires w >= 4
    ensures Truncate(Swap(Mirror(c, w))) == c
  {
    SwapSwap(Pad(c, w));
    TruncatePad(c, w);
  }

  /** The big-endian branch of crc32_z, over a whole number of blocks of n words. */
  method BraidsBig(t: Tables, n: nat, w: nat, c: bv32, s: seq<Byte>, blocks: nat) returns (r: bv32)
    requires Made(t, n, w) && blocks >= 1 && blocks * (n * w) == |s|
    ensures r == Reg(c, s)
  {
    var m := n * w;
    var rs := [Mirror(c, w)] + seq(n - 1, _ => Zeros(w));
    var p: nat, blks: nat := 0, blocks - 1;
    RunningBigStart(n, w, m, c, s, blks);
    while blks != 0
      invariant RunningBig(rs, w, m, c, s, p, blks)
      decreases blks
    {
      rs := PassBig(t.braidBigTable, rs, w, m, c, s, p, blks);
      p, blks := p + m, blks - 1;
    }
    var comb := LastBig(t.crcBigTable, rs, w, m, c, s, p);
    r := Truncate(Swap(comb));
    TruncateMirror(Reg(c, s), w);
  }
}
