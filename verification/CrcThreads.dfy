/**
 One word of the input taken into one braid by table lookups, on little-endian and on
 big-endian machines.
 */
module CrcThreads {
  import opened CrcField
  import opened CrcRegister
  import opened CrcWords
  import opened CrcBraid
  import opened CrcTables

  /** The first k lookups for a word, added up. */
  ghost function Head(d: Word, k: nat, m: nat): bv32
    requires k <= |d| <= m
    decreases k, m
  {
    if k == 0 then 0 else Xor(Head(d, k - 1, m), Shift(m - (k - 1), Wide(d[k - 1])))
  }

  lemma {:induction false} HeadIsReg(d: Word, k: nat, m: nat)
    requires k <= |d| <= m
    ensures Head(d, k, m) == Shift(m - k, Reg(0, d[..k]))
    decreases k
  {
    if k == 0 {
      assert d[..0] == [];
      ShiftZero(m, 0);
    } else {
      HeadIsReg(d, k - 1, m);
      RegTake(0, d, k);
      HeadStep(Reg(0, d[..k - 1]), Wide(d[k - 1]), m - k);
    }
  }

  lemma HeadStep(r: bv32, b: bv32, e: nat)
    ensures Shift(e, Shift(1, Xor(r, b))) == Xor(Shift(e + 1, r), Shift(e + 1, b))
  {
    ShiftAdd(e, 1, Xor(r, b));
    ShiftXor(e + 1, r, b);
  }

  lemma WholeHead(d: Word, m: nat)
    requires |d| <= m
    ensures Head(d, |d|, m) == Shift(m - |d|, Reg(0, d))
  {
    HeadIsReg(d, |d|, m);
    assert d[..|d|] == d;
  }

  /** The lookups for one word, little-endian. */
  method LookUp(ltl: seq<seq<bv32>>, d: Word, ghost m: nat) returns (c: bv32)
    requires 4 <= |d| && LittleTables(ltl, m, |d|)
    ensures c == Shift(m - |d|, Reg(0, d))
  {
    c := ltl[0][Index(d[0])];
    FirstHead(d, m);
    for k := 1 to |d|
      invariant c == Head(d, k, m)
    {
      var row := ltl[k];
      assert Row(row, m - k);
      c := Xor(c, row[Index(d[k])]);
    }
    WholeHead(d, m);
  }

  lemma FirstHead(d: Word, m: nat)
    requires 1 <= |d| <= m
    ensures Head(d, 1, m) == Shift(m, Wide(d[0]))
  {
    assert Head(d, 0, m) == 0;
    XorUnit(Shift(m, Wide(d[0])));
  }

  /** A register in the byte order of a big-endian machine. */
  function Mirror(c: bv32, w: nat): (r: Word)
    requires w >= 4
    ensures |r| == w
  {
    Swap(Pad(c, w))
  }

  lemma MirrorXor(a: bv32, b: bv32, w: nat)
    requires w >= 4
    ensures Mirror(Xor(a, b), w) == XorWord(Mirror(a, w), Mirror(b, w))
  {
    PadXor(a, b, w);
    SwapXor(Pad(a, w), Pad(b, w));
  }

  /** The lookups still to be made complete what has been added up. */
  ghost predicate LookedUp(a: bv32, d: Word, left: nat, m: nat) {
    left <= |d| <= m && Xor(a, Head(d, left, m)) == Head(d, |d|, m)
  }

  lemma LookedUpMore(a: bv32, d: Word, left: nat, m: nat)
    requires LookedUp(a, d, left + 1, m)
    ensures LookedUp(Xor(a, Shift(m - left, Wide(d[left]))), d, left, m)
  {
    var e := Shift(m - left, Wide(d[left]));
    XorComm(Head(d, left, m), e);
    XorAssoc(a, e, Head(d, left, m));
  }

  method BigEntry(big: seq<seq<Word>>, k: nat, b: Byte, ghost left: nat, ghost m: nat, ghost w: nat) returns (r: Word)
    requires BigTables(big, m, w) && k + left == w - 1
    ensures left <= m && r == Mirror(Shift(m - left, Wide(b)), w)
  {
    var row := big[k];
    assert BigRow(row, m - (w - 1 - k), w);
    r := row[Index(b)];
  }

  /** One lookup more in a big-endian word. */
  method LookUpMore(big: seq<seq<Word>>, data: Word, k: nat, ghost left: nat, r: Word, ghost a: bv32, ghost m: nat)
    returns (r': Word, ghost a': bv32)
    requires BigTables(big, m, |data|) && k + left == |data| - 1
    requires r == Mirror(a, |data|) && LookedUp(a, Swap(data), left + 1, m)
    ensures r' == Mirror(a', |data|) && LookedUp(a', Swap(data), left, m)
  {
    ghost var e := Shift(m - left, Wide(data[k]));
    LookedUpMore(a, Swap(data), left, m);
    MirrorXor(a, e, |data|);
    a' := Xor(a, e);
    var entry := BigEntry(big, k, data[k], left, m, |data|);
    r' := XorWord(r, entry);
  }

  /** The lookups for one word, big-endian. */
  method LookUpBig(big: seq<seq<Word>>, data: Word, ghost m: nat) returns (r: Word)
    requires BigTables(big, m, |data|)
    ensures r == Mirror(Shift(m - |data|, Reg(0, Swap(data))), |data|)
  {
    ghost var a: bv32 := Shift(m - (|data| - 1), Wide(data[0]));
    r := BigEntry(big, 0, data[0], |data| - 1, m, |data|);
    FirstLookedUp(data, m);
    for k := 1 to |data|
      invariant r == Mirror(a, |data|) && LookedUp(a, Swap(data), |data| - k, m)
    {
      r, a := LookUpMore(big, data, k, |data| - 1 - k, r, a, m);
    }
    XorUnit(a);
    WholeHead(Swap(data), m);
  }

  lemma FirstLookedUp(data: Word, m: nat)
    requires 1 <= |data| <= m
    ensures LookedUp(Shift(m - (|data| - 1), Wide(data[0])), Swap(data), |data| - 1, m)
  {
    XorComm(Shift(m - (|data| - 1), Wide(data[0])), Head(Swap(data), |data| - 1, m));
  }

  /** The word at p of the memory s as the machine loads it. */
  function Load(s: seq<Byte>, p: nat, w: nat, little: bool): (d: Word)
    requires p + w <= |s|
    ensures |d| == w
  {
    if little then s[p..p + w] else Swap(s[p..p + w])
  }

  lemma LoadBig(s: seq<Byte>, p: nat, w: nat)
    requires p + w <= |s|
    ensures Swap(Load(s, p, w, false)) == s[p..p + w]
  {
    SwapSwap(s[p..p + w]);
  }

  /** One word into one braid, little-endian. */
  method ThreadLittle(ltl: seq<seq<bv32>>, c: bv32, word: Word, ghost m: nat) returns (c': bv32)
    requires 4 <= |word| && LittleTables(ltl, m, |word|)
    ensures c' == Thread(c, word, m - |word|)
  {
    RegOfXor(c, word);
    c' := LookUp(ltl, XorWord(Pad(c, |word|), word), m);
  }

  lemma ThreadMirror(c: bv32, data: Word)
    requires |data| >= 4
    ensures Reg(0, Swap(XorWord(Mirror(c, |data|), data))) == Reg(c, Swap(data))
  {
    SwapXor(Mirror(c, |data|), data);
    SwapSwap(Pad(c, |data|));
    RegOfXor(c, Swap(data));
  }

  /** One word into one braid, big-endian. */
  method ThreadBig(big: seq<seq<Word>>, r: Word, data: Word, ghost c: bv32, ghost m: nat) returns (r': Word)
    requires BigTables(big, m, |data|) && r == Mirror(c, |data|)
    ensures r' == Mirror(Thread(c, Swap(data), m - |data|), |data|)
  {
    ThreadMirror(c, data);
    r' := LookUpBig(big, XorWord(r, data), m);
  }
}
