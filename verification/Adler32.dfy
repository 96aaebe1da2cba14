/**
 adler32.c: the Adler-32 checksum with its reductions put off as long as 32 bits allow.
 The value of a checksum is its two sums in the low and the high 16 bits.
 */
module Adler32 {
  import opened Arith
  import opened Bits

  /** The largest prime below 65536, and the most bytes that may be added between reductions. */
  const BASE := 65521
  const NMAX := 5552

  /** An unsigned long of the smallest width the source allows for. */
  type U32 = x: nat | x < 0x1_0000_0000

  // The reductions for processors without division.

  /** CHOP: 65536 is 15 more than BASE. */
  function Chop(a: nat): (r: nat)
    ensures r % BASE == a % BASE && r <= 65535 + 15 * (a / 65536)
  {
    ChopFact(a);
    a % 65536 + ((a / 65536) * 16 - a / 65536)
  }

  lemma ChopFact(a: nat)
    ensures (a % 65536 + 15 * (a / 65536)) % BASE == a % BASE
  {
    var t := a / 65536;
    assert a == (a % 65536 + 15 * t) + t * BASE;
    ModAddMultiple(a % 65536 + 15 * t, t, BASE);
  }

  function SubtractOnce(a: nat): nat {
    if a >= BASE then a - BASE else a
  }

  lemma SubtractOnceReduces(a: nat)
    requires a < 2 * BASE
    ensures SubtractOnce(a) == a % BASE
  {
  }

  /** MOD28 reduces anything below 2^28. */
  function Mod28(a: nat): (r: nat)
    ensures a < 0x1000_0000 ==> r == a % BASE
  {
    if a < 0x1000_0000 then
      SubtractOnceReduces(Chop(a));
      SubtractOnce(Chop(a))
    else
      SubtractOnce(Chop(a))
  }

  /** MOD reduces anything that fits in 32 bits. */
  function Mod(a: U32): (r: nat)
    ensures r == a % BASE
  {
    Mod28(Chop(a))
  }

  /** MOD63 reduces any length that is not negative: 2^32 is 225 more than a multiple of BASE. */
  function Mod63(a: nat): (r: nat)
    requires a < 0x8000_0000_0000_0000
    ensures r == a % BASE
  {
    var t := a / 0x1_0000_0000;
    var b := a % 0x1_0000_0000 + (t * 256 - t * 32 + t);
    FoldHigh(a);
    SubtractOnceReduces(Chop(Chop(b)));
    SubtractOnce(Chop(Chop(b)))
  }

  lemma FoldHigh(a: nat)
    ensures (a % 0x1_0000_0000 + 225 * (a / 0x1_0000_0000)) % BASE == a % BASE
  {
    var t := a / 0x1_0000_0000;
    assert 0x1_0000_0000 == 225 + 65551 * BASE;
    assert a == (a % 0x1_0000_0000 + 225 * t) + (t * 65551) * BASE;
    ModAddMultiple(a % 0x1_0000_0000 + 225 * t, t * 65551, BASE);
  }

  // The definition of section 9 of RFC 1950.

  datatype Sums = Sums(s1: nat, s2: nat)

  function PerByte(p: Sums, s: seq<Octet>): Sums {
    if s == [] then p
    else
      var q := PerByte(p, s[..|s| - 1]);
      var s1 := (q.s1 + s[|s| - 1]) % BASE;
      Sums(s1, (q.s2 + s1) % BASE)
  }

  /** The first sum without reductions. */
  function S1(a: nat, s: seq<Octet>): nat {
    if s == [] then a else S1(a, s[..|s| - 1]) + s[|s| - 1]
  }

  /** The second sum without reductions. */
  function S2(a: nat, b: nat, s: seq<Octet>): nat {
    if s == [] then b else S2(a, b, s[..|s| - 1]) + S1(a, s)
  }

  function LowSum(adler: U32): (r: nat)
    ensures r < 65536
  {
    adler % 65536
  }

  function HighSum(adler: U32): (r: nat)
    ensures r < 65536
  {
    adler / 65536
  }

  function Pack(s1: nat, s2: nat): (r: U32)
    requires s1 < 65536 && s2 < 65536
    ensures LowSum(r) == s1 && HighSum(r) == s2
  {
    s1 + s2 * 65536
  }

  lemma AddMod(x: nat, y: nat, z: nat)
    requires x % BASE == y % BASE
    ensures (x + z) % BASE == (y + z) % BASE
  {
  }

  lemma AddModBoth(x: nat, y: nat, z: nat, w: nat)
    requires x % BASE == y % BASE && z % BASE == w % BASE
    ensures (x + z) % BASE == (y + w) % BASE
  {
    AddMod(x, y, z);
    AddMod(z, w, y);
  }

  lemma ModMod(x: nat)
    ensures (x % BASE) % BASE == x % BASE
  {
  }

  /** Putting the reductions off to the end gives the sums of the definition. */
  lemma {:induction false} PerByteIsDeferred(p: Sums, s: seq<Octet>)
    requires p.s1 < BASE && p.s2 < BASE
    ensures PerByte(p, s) == Sums(S1(p.s1, s) % BASE, S2(p.s1, p.s2, s) % BASE)
  {
    if s != [] {
      var t, b := s[..|s| - 1], s[|s| - 1];
      PerByteIsDeferred(p, t);
      ModMod(S1(p.s1, t));
      AddMod(S1(p.s1, t) % BASE, S1(p.s1, t), b);
      ModMod(S2(p.s1, p.s2, t));
      ModMod(S1(p.s1, s));
      AddModBoth(S2(p.s1, p.s2, t) % BASE, S2(p.s1, p.s2, t), S1(p.s1, s) % BASE, S1(p.s1, s));
    }
  }

  // adler32_z.

  /** The loop sums agree with the plain ones modulo BASE. */
  ghost predicate Summed(adler: nat, sum2: nat, a0: nat, b0: nat, s: seq<Octet>, p: nat) {
    && p <= |s|
    && adler % BASE == S1(a0, s[..p]) % BASE
    && sum2 % BASE == S2(a0, b0, s[..p]) % BASE
  }

  /** What k bytes can make of sums that started below 65536. */
  ghost predicate Bounded(adler: nat, sum2: nat, k: nat) {
    && adler <= 65535 + 255 * k
    && 2 * sum2 <= 131070 * (k + 1) + 255 * (k * (k + 1))
  }

  /** NMAX bytes at most between reductions keep both sums within 32 bits. */
  lemma BoundedFits(adler: nat, sum2: nat, k: nat)
    requires Bounded(adler, sum2, k) && k <= NMAX
    ensures adler < 0x1_0000_0000 && sum2 < 0x1_0000_0000
  {
    Square(k, NMAX);
  }

  lemma Square(k: nat, n: nat)
    requires k <= n
    ensures k * (k + 1) <= n * (n + 1)
  {
  }

  /** NMAX is the largest number of bytes for which reduced sums stay within 32 bits. */
  lemma NmaxIsLargest(n: nat)
    ensures 255 * (n * (n + 1) / 2) + (n + 1) * (BASE - 1) <= 0xffff_ffff <==> n <= NMAX
  {
    if n <= NMAX {
      Square(n, NMAX);
    } else {
      Square(NMAX + 1, n);
    }
  }

  lemma BoundedStep(adler: nat, sum2: nat, k: nat, b: Octet)
    requires Bounded(adler, sum2, k)
    ensures Bounded(adler + b, sum2 + (adler + b), k + 1)
  {
    assert (k + 1) * (k + 2) == k * (k + 1) + 2 * (k + 1);
  }

  lemma SummedStep(adler: nat, sum2: nat, a0: nat, b0: nat, s: seq<Octet>, p: nat)
    requires Summed(adler, sum2, a0, b0, s, p) && p < |s|
    ensures Summed(adler + s[p], sum2 + (adler + s[p]), a0, b0, s, p + 1)
  {
    assert s[..p + 1][..p] == s[..p];
    AddMod(adler, S1(a0, s[..p]), s[p]);
    AddModBoth(sum2, S2(a0, b0, s[..p]), adler + s[p], S1(a0, s[..p + 1]));
  }

  /** DO16, and the loops that add one byte at a time: bytes p to q, of which k have been added
      since the last reduction. */
  method AddBytes(adler0: U32, sum0: U32, s: seq<Octet>, p: nat, q: nat, ghost k: nat, ghost a0: nat, ghost b0: nat)
    returns (adler: U32, sum2: U32)
    requires Summed(adler0, sum0, a0, b0, s, p) && p <= q <= |s|
    requires Bounded(adler0, sum0, k) && k + (q - p) <= NMAX
    ensures Summed(adler, sum2, a0, b0, s, q) && Bounded(adler, sum2, k + (q - p))
  {
    adler, sum2 := adler0, sum0;
    for i := p to q
      invariant Summed(adler, sum2, a0, b0, s, i) && Bounded(adler, sum2, k + (i - p))
    {
      SummedStep(adler, sum2, a0, b0, s, i);
      BoundedStep(adler, sum2, k + (i - p), s[i]);
      BoundedFits(adler + s[i], sum2 + (adler + s[i]), k + (i - p) + 1);
      adler := adler + s[i];
      sum2 := sum2 + adler;
    }
  }

  /** The MOD macro, with or without a division. */
  method Reduce(noDivide: bool, a: U32) returns (r: U32)
    ensures r == a % BASE
  {
    r := if noDivide then Mod(a) else a % BASE;
  }

  /** One block of NMAX bytes, sixteen at a time. */
  method Block(adler0: U32, sum0: U32, s: seq<Octet>, p: nat, ghost a0: nat, ghost b0: nat) returns (adler: U32, sum2: U32)
    requires Summed(adler0, sum0, a0, b0, s, p) && Bounded(adler0, sum0, 0) && p + NMAX <= |s|
    ensures Summed(adler, sum2, a0, b0, s, p + NMAX)
  {
    adler, sum2 := adler0, sum0;
    for n := 0 to NMAX / 16
      invariant Summed(adler, sum2, a0, b0, s, p + 16 * n) && Bounded(adler, sum2, 16 * n)
    {
      adler, sum2 := AddBytes(adler, sum2, s, p + 16 * n, p + 16 * n + 16, 16 * n, a0, b0);
    }
  }

  /** Sixteen bytes at a time as long as there are that many. */
  method Sixteens(adler0: U32, sum0: U32, s: seq<Octet>, p: nat, ghost a0: nat, ghost b0: nat)
    returns (adler: U32, sum2: U32, q: nat)
    requires Summed(adler0, sum0, a0, b0, s, p) && Bounded(adler0, sum0, 0) && |s| - p <= NMAX
    ensures p <= q <= |s| < q + 16
    ensures Summed(adler, sum2, a0, b0, s, q) && Bounded(adler, sum2, q - p)
  {
    adler, sum2, q := adler0, sum0, p;
    while |s| - q >= 16
      invariant p <= q <= |s|
      invariant Summed(adler, sum2, a0, b0, s, q) && Bounded(adler, sum2, q - p)
    {
      adler, sum2 := AddBytes(adler, sum2, s, q, q + 16, q - p, a0, b0);
      q := q + 16;
    }
  }

  lemma Restart(adler: nat, sum2: nat, a0: nat, b0: nat, s: seq<Octet>, p: nat)
    requires Summed(adler, sum2, a0, b0, s, p)
    ensures Summed(adler % BASE, sum2 % BASE, a0, b0, s, p) && Bounded(adler % BASE, sum2 % BASE, 0)
  {
    ModMod(adler);
    ModMod(sum2);
  }

  /** The blocks of NMAX bytes, each with one reduction. */
  method Blocks(noDivide: bool, adler0: U32, sum0: U32, s: seq<Octet>) returns (adler: U32, sum2: U32, p: nat)
    requires adler0 < 65536 && sum0 < 65536
    ensures p <= |s| < p + NMAX && adler < 65536 && sum2 < 65536 && Summed(adler, sum2, adler0, sum0, s, p)
    ensures p > 0 ==> adler < BASE && sum2 < BASE
  {
    adler, sum2, p := adler0, sum0, 0;
    assert s[..0] == [];
    while |s| - p >= NMAX
      invariant p <= |s| && adler < 65536 && sum2 < 65536 && Summed(adler, sum2, adler0, sum0, s, p)
      invariant p > 0 ==> adler < BASE && sum2 < BASE
    {
      adler, sum2 := Block(adler, sum2, s, p, adler0, sum0);
      p := p + NMAX;
      Restart(adler, sum2, adler0, sum0, s, p);
      adler := Reduce(noDivide, adler);
      sum2 := Reduce(noDivide, sum2);
    }
  }

  /** The bytes after the last whole block. */
  method Remaining(noDivide: bool, adler0: U32, sum0: U32, s: seq<Octet>, p: nat, ghost a0: nat, ghost b0: nat)
    returns (adler: U32, sum2: U32)
    requires adler0 < 65536 && sum0 < 65536 && p < |s| < p + NMAX && Summed(adler0, sum0, a0, b0, s, p)
    ensures adler < BASE && sum2 < BASE && Summed(adler, sum2, a0, b0, s, |s|)
  {
    var q;
    adler, sum2, q := Sixteens(adler0, sum0, s, p, a0, b0);
    adler, sum2 := AddBytes(adler, sum2, s, q, |s|, q - p, a0, b0);
    Restart(adler, sum2, a0, b0, s, |s|);
    adler := Reduce(noDivide, adler);
    sum2 := Reduce(noDivide, sum2);
  }

  /** The single-byte path has one conditional subtraction for each sum. It gives the value of
      the definition exactly when one is enough for the second sum. */
  ghost predicate OneSubtractionIsEnough(a: nat, b: nat, s: seq<Octet>) {
    |s| == 1 ==> b + (a + s[0]) % BASE < 2 * BASE
  }

  lemma ReducedStartIsEnough(a: nat, b: nat, s: seq<Octet>)
    requires b <= BASE
    ensures OneSubtractionIsEnough(a, b, s)
  {
  }

  lemma SingleByteSums(a: nat, b: nat, s: seq<Octet>)
    requires |s| == 1
    ensures S1(a, s) == a + s[0] && S2(a, b, s) % BASE == (b + (a + s[0]) % BASE) % BASE
  {
    assert s[..0] == [];
    ModMod(a + s[0]);
    AddModBoth(b, b, a + s[0], (a + s[0]) % BASE);
  }

  /** The sums of the definition, from any halves. */
  ghost predicate Correct(s1: nat, s2: nat, a: nat, b: nat, s: seq<Octet>) {
    s1 == S1(a, s) % BASE && s2 == S2(a, b, s) % BASE
  }

  lemma SubtractOnceIffBelow(a: nat)
    requires a < 3 * BASE
    ensures SubtractOnce(a) == a % BASE <==> a < 2 * BASE
  {
  }

  method SingleByte(a: nat, b: nat, s: seq<Octet>) returns (adler: U32, sum2: U32)
    requires |s| == 1 && a < 65536 && b < 65536
    ensures adler < 65536 && sum2 < 65536
    ensures Correct(adler, sum2, a, b, s) <==> OneSubtractionIsEnough(a, b, s)
  {
    SingleByteSums(a, b, s);
    SubtractOnceReduces(a + s[0]);
    adler := SubtractOnce(a + s[0]);
    SubtractOnceIffBelow(b + adler);
    sum2 := SubtractOnce(b + adler);
  }

  lemma ShortBound(adler: nat, sum2: nat, k: nat)
    requires Bounded(adler, sum2, k) && k < 16
    ensures adler < 2 * BASE && sum2 < 0x1000_0000
  {
    Square(k, 15);
  }

  lemma WholeInput(adler: nat, sum2: nat, a: nat, b: nat, s: seq<Octet>)
    requires Summed(adler, sum2, a, b, s, |s|)
    ensures Correct(adler % BASE, sum2 % BASE, a, b, s)
  {
    assert s[..|s|] == s;
  }

  method Reduce28(noDivide: bool, a: U32) returns (r: U32)
    requires a < 0x1000_0000
    ensures r == a % BASE
  {
    r := if noDivide then Mod28(a) else a % BASE;
  }

  /** Fewer than sixteen bytes. */
  method ShortInput(noDivide: bool, a: nat, b: nat, s: seq<Octet>) returns (adler: U32, sum2: U32)
    requires |s| < 16 && a < 65536 && b < 65536
    ensures Correct(adler, sum2, a, b, s)
  {
    assert s[..0] == [];
    adler, sum2 := AddBytes(a, b, s, 0, |s|, 0, a, b);
    ShortBound(adler, sum2, |s|);
    WholeInput(adler, sum2, a, b, s);
    SubtractOnceReduces(adler);
    adler := SubtractOnce(adler);
    sum2 := Reduce28(noDivide, sum2);
  }

  lemma AlreadyReduced(x: nat)
    requires x < BASE
    ensures x % BASE == x
  {
  }

  method LongInput(noDivide: bool, a: nat, b: nat, s: seq<Octet>) returns (adler: U32, sum2: U32)
    requires |s| >= 16 && a < 65536 && b < 65536
    ensures Correct(adler, sum2, a, b, s)
  {
    var p;
    adler, sum2, p := Blocks(noDivide, a, b, s);
    if p < |s| {
      adler, sum2 := Remaining(noDivide, adler, sum2, s, p, a, b);
    }
    WholeInput(adler, sum2, a, b, s);
    AlreadyReduced(adler);
    AlreadyReduced(sum2);
  }

  method Update(noDivide: bool, a: nat, b: nat, s: seq<Octet>) returns (adler: U32, sum2: U32)
    requires a < 65536 && b < 65536
    ensures adler < 65536 && sum2 < 65536
    ensures Correct(adler, sum2, a, b, s) <==> OneSubtractionIsEnough(a, b, s)
  {
    if |s| == 1 {
      adler, sum2 := SingleByte(a, b, s);
    } else if |s| < 16 {
      adler, sum2 := ShortInput(noDivide, a, b, s);
    } else {
      adler, sum2 := LongInput(noDivide, a, b, s);
    }
  }

  /** The input: a null pointer with a length, or bytes. */
  datatype Input = Null(len: nat) | Bytes(bytes: seq<Octet>)

  /** adler32_z. A null pointer must not come with a length of one, which the source reads
      before it looks for one. */
  method Adler32Z(noDivide: bool, adler: U32, buf: Input) returns (r: U32)
    requires buf.Null? ==> buf.len != 1
    ensures buf.Null? ==> r == 1
    ensures buf.Bytes? ==> (Correct(LowSum(r), HighSum(r), LowSum(adler), HighSum(adler), buf.bytes)
                            <==> OneSubtractionIsEnough(LowSum(adler), HighSum(adler), buf.bytes))
  {
    if buf.Null? {
      return 1;
    }
    var s1, s2 := Update(noDivide, LowSum(adler), HighSum(adler), buf.bytes);
    r := Pack(s1, s2);
  }

  /** From sums that are reduced the checksum is that of section 9 of RFC 1950. */
  lemma AdlerIsPerByte(a: nat, b: nat, s: seq<Octet>, s1: nat, s2: nat)
    requires a < BASE && b < BASE
    ensures OneSubtractionIsEnough(a, b, s)
    ensures Correct(s1, s2, a, b, s) <==> Sums(s1, s2) == PerByte(Sums(a, b), s)
  {
    ReducedStartIsEnough(a, b, s);
    PerByteIsDeferred(Sums(a, b), s);
  }

  /** A start that is not reduced can make the single-byte path miss the definition's value. */
  lemma UnreducedStart()
    ensures !OneSubtractionIsEnough(65520, 65535, [0])
  {
    assert (65520 + [0][0]) % BASE == 65520;
  }

  // adler32_combine_.

  lemma {:induction false} SumsOfConcat(a: nat, b: nat, s: seq<Octet>, t: seq<Octet>)
    ensures S1(a, s + t) == S1(S1(a, s), t)
    ensures S2(a, b, s + t) == S2(S1(a, s), S2(a, b, s), t)
    decreases |t|
  {
    if t == [] {
      assert s + t == s;
    } else {
      SumsOfConcat(a, b, s, t[..|t| - 1]);
      assert (s + t)[..|s + t| - 1] == s + t[..|t| - 1];
    }
  }

  /** How the sums depend on their start. */
  lemma {:induction false} SumsFromStart(a: nat, b: nat, t: seq<Octet>)
    ensures S1(a, t) + 1 == a + S1(1, t)
    ensures S2(a, b, t) + |t| == b + a * |t| + S2(1, 0, t)
  {
    if t != [] {
      var u := t[..|t| - 1];
      SumsFromStart(a, b, u);
      assert a * |t| == a * |u| + a;
    }
  }

  /** The sums of a concatenation, apart from multiples of BASE. */
  lemma ConcatSums(a: nat, b: nat, s: seq<Octet>, t: seq<Octet>)
    ensures S1(a, s + t) + 1 == S1(a, s) + S1(1, t)
    ensures S2(a, b, s + t) + |t| == S2(a, b, s) + S1(a, s) * |t| + S2(1, 0, t)
  {
    SumsOfConcat(a, b, s, t);
    SumsFromStart(S1(a, s), S2(a, b, s), t);
  }

  lemma ModProduct(x: nat, y: nat)
    ensures ((y % BASE) * (x % BASE)) % BASE == (x * y) % BASE
  {
    var i, j := x / BASE, y / BASE;
    var r, t := x % BASE, y % BASE;
    assert x == i * BASE + r && y == j * BASE + t;
    assert x * y == t * r + (i * j * BASE + i * t + r * j) * BASE;
    ModAddMultiple(t * r, i * j * BASE + i * t + r * j, BASE);
  }

  /** The second sum of the combination is congruent to that of the concatenation. */
  lemma CombinedSecond(b1: nat, m: nat, b2: nat, n: nat, total: nat)
    requires total + n == b1 + m + b2
    ensures (m % BASE + (b1 % BASE + b2 % BASE + BASE - n % BASE)) % BASE == total % BASE
  {
  }

  lemma CombinedFirst(a1: nat, a2: nat, total: nat)
    requires total + 1 == a1 + a2
    ensures (a1 % BASE + (a2 % BASE + BASE - 1)) % BASE == total % BASE
  {
  }

  lemma ProductFits(x: nat, y: nat)
    requires x < BASE && y < BASE
    ensures x * y < 0x1_0000_0000
  {
    ProductUpTo(BASE - 1 - x, y);
    assert (BASE - 1 - x) * y == (BASE - 1) * y - x * y;
  }

  lemma ProductUpTo(x: nat, y: nat)
    ensures x * y >= 0
  {
  }

  lemma SubtractTwice(a: nat)
    requires a < 3 * BASE
    ensures SubtractOnce(SubtractOnce(a)) == a % BASE
  {
  }

  function SubtractDouble(a: nat): nat {
    if a >= 2 * BASE then a - 2 * BASE else a
  }

  lemma SubtractDoubleReduces(a: nat)
    requires a < 4 * BASE
    ensures SubtractOnce(SubtractDouble(a)) == a % BASE
  {
  }

  method Reduce63(noDivide: bool, len2: nat) returns (r: U32)
    requires len2 < 0x8000_0000_0000_0000
    ensures r < BASE && r == len2 % BASE
  {
    r := if noDivide then Mod63(len2) else len2 % BASE;
  }

  method ReducedProduct(noDivide: bool, rem: nat, sum1: nat) returns (r: U32)
    requires rem < BASE && sum1 < BASE
    ensures r < BASE && r == (rem * sum1) % BASE
  {
    ProductFits(rem, sum1);
    r := Reduce(noDivide, rem * sum1);
  }

  method CombineSums(noDivide: bool, a1: nat, b1: nat, a2: nat, b2: nat, len2: nat) returns (s1: U32, s2: U32)
    requires a1 < BASE && b1 < BASE && a2 < BASE && b2 < BASE && len2 < 0x8000_0000_0000_0000
    ensures s1 == (a1 + (a2 + BASE - 1)) % BASE
    ensures s2 == ((len2 % BASE * a1) % BASE + (b1 + b2 + BASE - len2 % BASE)) % BASE
  {
    var rem := Reduce63(noDivide, len2);
    s1 := a1;
    s2 := ReducedProduct(noDivide, rem, s1);
    s1 := s1 + (a2 + BASE - 1);
    s2 := s2 + (b1 + b2 + BASE - rem);
    SubtractTwice(s1);
    SubtractDoubleReduces(s2);
    s1 := SubtractOnce(s1);
    s1 := SubtractOnce(s1);
    s2 := SubtractDouble(s2);
    s2 := SubtractOnce(s2);
  }

  method CombineHalves(noDivide: bool, a1: nat, b1: nat, a2: nat, b2: nat, len2: nat,
                       ghost a: nat, ghost b: nat, ghost s: seq<Octet>, ghost t: seq<Octet>)
    returns (s1: U32, s2: U32)
    requires Correct(a1, b1, a, b, s) && Correct(a2, b2, 1, 0, t) && len2 == |t| < 0x8000_0000_0000_0000
    ensures s1 < BASE && s2 < BASE && Correct(s1, s2, a, b, s + t)
  {
    CombinedLow(a, s, t);
    CombinedHigh(a, b, s, t);
    s1, s2 := CombineSums(noDivide, a1, b1, a2, b2, len2);
  }

  /** adler32_combine_: a negative length gives an impossible checksum. */
  method Combine(noDivide: bool, adler1: U32, adler2: U32, len2: int,
                 ghost a: nat, ghost b: nat, ghost s: seq<Octet>, ghost t: seq<Octet>)
    returns (r: U32)
    requires len2 < 0x8000_0000_0000_0000
    requires len2 >= 0 ==> len2 == |t| && Correct(LowSum(adler1), HighSum(adler1), a, b, s) && Correct(LowSum(adler2), HighSum(adler2), 1, 0, t)
    ensures if len2 < 0 then r == 0xffff_ffff else Correct(LowSum(r), HighSum(r), a, b, s + t)
  {
    if len2 < 0 {
      return 0xffff_ffff;
    }
    var s1, s2 := CombineHalves(noDivide, LowSum(adler1), HighSum(adler1), LowSum(adler2), HighSum(adler2), len2, a, b, s, t);
    r := Pack(s1, s2);
  }

  lemma CombinedLow(a: nat, s: seq<Octet>, t: seq<Octet>)
    ensures (S1(a, s) % BASE + (S1(1, t) % BASE + BASE - 1)) % BASE == S1(a, s + t) % BASE
  {
    ConcatSums(a, 0, s, t);
    CombinedFirst(S1(a, s), S1(1, t), S1(a, s + t));
  }

  /** The second sum of the concatenation from those of its parts. */
  lemma CombinedHigh(a: nat, b: nat, s: seq<Octet>, t: seq<Octet>)
    ensures ((|t| % BASE * (S1(a, s) % BASE)) % BASE + (S2(a, b, s) % BASE + S2(1, 0, t) % BASE + BASE - |t| % BASE)) % BASE
         == S2(a, b, s + t) % BASE
  {
    ConcatSums(a, b, s, t);
    ModProduct(S1(a, s), |t|);
    CombinedSecond(S2(a, b, s), S1(a, s) * |t|, S2(1, 0, t), |t|, S2(a, b, s + t));
  }
}
