/**
 The CRC of section 8 of RFC 1952 as a remainder of polynomials over GF(2). A polynomial is
 the set of exponents it has; the remainder is taken by long division, and no machine word
 occurs in its definition.
 */
module CrcPolynomial {
  import opened CrcField
  import opened CrcRegister

  type Poly = iset<nat>

  /** x^32 + x^26 + x^23 + x^22 + x^16 + x^12 + x^11 + x^10 + x^8 + x^7 + x^5 + x^4 + x^2 + x + 1 */
  const P: Poly := iset{32, 26, 23, 22, 16, 12, 11, 10, 8, 7, 5, 4, 2, 1, 0}

  ghost function Add(a: Poly, b: Poly): Poly {
    (a - b) + (b - a)
  }

  ghost predicate Moved(a: Poly, n: nat, k: nat) {
    k >= n && k - n in a
  }

  /** a times x^n. */
  ghost function MoveUp(a: Poly, n: nat): Poly {
    iset k: nat | Moved(a, n, k)
  }

  ghost predicate DegreeBelow(a: Poly, n: nat) {
    forall k :: k in a ==> k < n
  }

  /** Long division of a polynomial of degree below n by P: the remainder. */
  ghost function Rem(a: Poly, n: nat): (r: Poly)
    requires DegreeBelow(a, n)
    ensures DegreeBelow(r, 32)
    decreases n, a
  {
    if n <= 32 then a
    else if n - 1 in a then
      Cancelled(a, n);
      Rem(Add(a, MoveUp(P, n - 33)), n - 1)
    else Rem(a, n - 1)
  }

  lemma Cancelled(a: Poly, n: nat)
    requires DegreeBelow(a, n) && n > 32 && n - 1 in a
    ensures DegreeBelow(Add(a, MoveUp(P, n - 33)), n - 1)
  {
    assert 32 in P && DegreeBelow(P, 33);
    assert n - 1 in MoveUp(P, n - 33);
  }

  /** The multiple of P with the quotient that has the exponents q. */
  ghost function Times(q: seq<nat>): Poly {
    if q == [] then iset{} else Add(MoveUp(P, q[0]), Times(q[1..]))
  }

  /** Long division leaves a multiple of P. */
  lemma {:induction false} RemDivides(a: Poly, n: nat) returns (q: seq<nat>)
    requires DegreeBelow(a, n)
    ensures a == Add(Times(q), Rem(a, n))
    decreases n
  {
    if n <= 32 {
      q := [];
      AddNone(a);
    } else if n - 1 in a {
      RemStep(a, n);
      q := RemDivides(Add(a, MoveUp(P, n - 33)), n - 1);
      AddRotate(a, MoveUp(P, n - 33), Times(q), Rem(a, n));
      TimesMore(n - 33, q);
      q := [n - 33] + q;
    } else {
      q := RemDivides(a, n - 1);
    }
  }

  lemma AddNone(a: Poly)
    ensures Add(Times([]), a) == a
  {
  }

  lemma TimesMore(e: nat, q: seq<nat>)
    ensures Times([e] + q) == Add(MoveUp(P, e), Times(q))
  {
    assert ([e] + q)[1..] == q;
  }

  lemma AddRotate(a: Poly, p: Poly, t: Poly, r: Poly)
    requires Add(a, p) == Add(t, r)
    ensures a == Add(Add(p, t), r)
  {
    forall k: nat
      ensures k in a <==> k in Add(Add(p, t), r)
    {
      assert k in Add(a, p) <==> k in Add(t, r);
    }
  }

  /** The remainder of a sum is the sum of the remainders. */
  lemma {:induction false} RemAdd(a: Poly, b: Poly, n: nat)
    requires DegreeBelow(a, n) && DegreeBelow(b, n)
    ensures DegreeBelow(Add(a, b), n) && Rem(Add(a, b), n) == Add(Rem(a, n), Rem(b, n))
    decreases n
  {
    if n > 32 {
      var p := MoveUp(P, n - 33);
      var a' := if n - 1 in a then Add(a, p) else a;
      var b' := if n - 1 in b then Add(b, p) else b;
      var both := Add(a, b);
      if n - 1 in a { Cancelled(a, n); }
      if n - 1 in b { Cancelled(b, n); }
      RemAdd(a', b', n - 1);
      if n - 1 in both {
        Cancelled(both, n);
        AddOne(a, b, p);
      } else {
        AddBoth(a, b, p);
      }
    }
  }

  lemma AddOne(a: Poly, b: Poly, p: Poly)
    ensures Add(Add(a, b), p) == Add(Add(a, p), b) == Add(a, Add(b, p))
  {
  }

  lemma AddBoth(a: Poly, b: Poly, p: Poly)
    ensures Add(Add(a, p), Add(b, p)) == Add(a, b)
  {
  }

  /** A higher bound on the degree makes no difference. */
  lemma {:induction false} RemBound(a: Poly, n: nat, m: nat)
    requires DegreeBelow(a, n) && n <= m
    ensures DegreeBelow(a, m) && Rem(a, m) == Rem(a, n)
    decreases m
  {
    if n < m {
      RemBound(a, n, m - 1);
    }
  }

  lemma MoveAdd(a: Poly, b: Poly, n: nat)
    ensures MoveUp(Add(a, b), n) == Add(MoveUp(a, n), MoveUp(b, n))
  {
  }

  lemma MoveMove(a: Poly, m: nat, n: nat)
    ensures MoveUp(MoveUp(a, m), n) == MoveUp(a, m + n)
  {
  }

  lemma MoveBelow(a: Poly, n: nat, m: nat)
    requires DegreeBelow(a, n)
    ensures DegreeBelow(MoveUp(a, m), n + m)
  {
  }

  /** Taking the remainder first and then multiplying by x gives the same remainder. */
  lemma {:induction false} RemMove(a: Poly, n: nat)
    requires DegreeBelow(a, n)
    ensures DegreeBelow(MoveUp(a, 1), n + 1) && DegreeBelow(MoveUp(Rem(a, n), 1), 33)
    ensures Rem(MoveUp(a, 1), n + 1) == Rem(MoveUp(Rem(a, n), 1), 33)
    decreases n
  {
    MoveBelow(a, n, 1);
    MoveBelow(Rem(a, n), 32, 1);
    if n <= 32 {
      RemBound(MoveUp(a, 1), n + 1, 33);
    } else if n - 1 in a {
      RemStep(a, n);
      MovedStep(a, n);
      RemMove(Add(a, MoveUp(P, n - 33)), n - 1);
    } else {
      RemMove(a, n - 1);
      assert n !in MoveUp(a, 1);
    }
  }

  lemma RemStep(a: Poly, n: nat)
    requires DegreeBelow(a, n) && n > 32 && n - 1 in a
    ensures DegreeBelow(Add(a, MoveUp(P, n - 33)), n - 1)
    ensures Rem(a, n) == Rem(Add(a, MoveUp(P, n - 33)), n - 1)
  {
    Cancelled(a, n);
  }

  /** A step of the division of x times a is x times a step of the division of a. */
  lemma MovedStep(a: Poly, n: nat)
    requires DegreeBelow(a, n) && n > 32 && n - 1 in a
    ensures DegreeBelow(MoveUp(a, 1), n + 1) && DegreeBelow(MoveUp(Add(a, MoveUp(P, n - 33)), 1), n)
    ensures Rem(MoveUp(a, 1), n + 1) == Rem(MoveUp(Add(a, MoveUp(P, n - 33)), 1), n)
  {
    MoveBelow(a, n, 1);
    Cancelled(a, n);
    MoveAdd(a, MoveUp(P, n - 33), 1);
    MoveMove(P, n - 33, 1);
    Cancelled(MoveUp(a, 1), n + 1);
  }

  ghost predicate SameRem(a: Poly, n: nat, b: Poly, m: nat) {
    DegreeBelow(a, n) && DegreeBelow(b, m) && Rem(a, n) == Rem(b, m)
  }

  lemma SameRemMove(a: Poly, n: nat, b: Poly, m: nat)
    requires SameRem(a, n, b, m)
    ensures SameRem(MoveUp(a, 1), n + 1, MoveUp(b, 1), m + 1)
  {
    RemMove(a, n);
    RemMove(b, m);
  }

  /** Polynomials with the same remainder still have it after multiplication by x^k. */
  lemma {:induction false} RemMoves(a: Poly, n: nat, b: Poly, m: nat, k: nat)
    requires SameRem(a, n, b, m)
    ensures SameRem(MoveUp(a, k), n + k, MoveUp(b, k), m + k)
    decreases k
  {
    if k == 0 {
      assert MoveUp(a, 0) == a && MoveUp(b, 0) == b;
    } else {
      var j: nat := k - 1;
      RemMoves(a, n, b, m, j);
      MoveMove(a, j, 1);
      MoveMove(b, j, 1);
      SameRemMove(MoveUp(a, j), n + j, MoveUp(b, j), m + j);
      assert n + j + 1 == n + k && m + j + 1 == m + k;
    }
  }

  // The polynomial a register holds: the lowest power is in the most significant bit.

  function Mask(k: nat): bv32 {
    if k == 0 then ONE else Half(Mask(k - 1))
  }

  predicate Coef(c: bv32, k: nat) {
    k < 32 && Has(c, Mask(k))
  }

  ghost function Of(c: bv32): (r: Poly)
    ensures DegreeBelow(r, 32)
  {
    iset k: nat | k < 32 && Coef(c, k)
  }

  lemma {:induction false} MaskSingle(k: nat)
    requires k < 32
    ensures Single(Mask(k)) && Log(Mask(k)) == 31 - k
  {
    if k == 0 {
      TopIsSingle();
      LogTop();
    } else {
      MaskSingle(k - 1);
      SingleHalf(Mask(k - 1));
    }
  }

  lemma OfXor(a: bv32, b: bv32)
    ensures Of(Xor(a, b)) == Add(Of(a), Of(b))
  {
    forall k: nat | k < 32
      ensures Coef(Xor(a, b), k) == (Coef(a, k) != Coef(b, k))
    {
      MaskSingle(k);
      HasXor(a, b, Mask(k));
    }
  }

  lemma HalfCoef(c: bv32, k: nat)
    requires k < 32
    ensures Coef(Half(c), k) <==> k > 0 && Coef(c, k - 1)
  {
    if k == 0 {
      TopBitGone(c);
    } else {
      MaskSingle(k - 1);
      NotLast(Mask(k - 1));
      HasHalf(c, Mask(k - 1));
    }
  }

  lemma NotLast(m: bv32)
    ensures Log(m) >= 1 ==> m != 1
  {
  }

  /** The 32 masks. */
  lemma Masks()
    ensures Mask(0) == 0x8000_0000 && Mask(1) == 0x4000_0000 && Mask(2) == 0x2000_0000 && Mask(3) == 0x1000_0000
    ensures Mask(4) == 0x800_0000 && Mask(5) == 0x400_0000 && Mask(6) == 0x200_0000 && Mask(7) == 0x100_0000
    ensures Mask(8) == 0x80_0000 && Mask(9) == 0x40_0000 && Mask(10) == 0x20_0000 && Mask(11) == 0x10_0000
    ensures Mask(12) == 0x8_0000 && Mask(13) == 0x4_0000 && Mask(14) == 0x2_0000 && Mask(15) == 0x1_0000
    ensures Mask(16) == 0x8000 && Mask(17) == 0x4000 && Mask(18) == 0x2000 && Mask(19) == 0x1000
    ensures Mask(20) == 0x800 && Mask(21) == 0x400 && Mask(22) == 0x200 && Mask(23) == 0x100
    ensures Mask(24) == 0x80 && Mask(25) == 0x40 && Mask(26) == 0x20 && Mask(27) == 0x10
    ensures Mask(28) == 8 && Mask(29) == 4 && Mask(30) == 2 && Mask(31) == 1
  {
  }

  lemma LowIsLast(c: bv32)
    ensures Low(c) <==> Coef(c, 31)
  {
    Masks();
    LowHas(c);
  }

  lemma LowHas(c: bv32)
    ensures Low(c) <==> Has(c, 1)
  {
  }

  /** POLY is P without its leading term. */
  lemma PolyIsP()
    ensures Of(POLY) == P - iset{32}
  {
    Masks();
    assert Has(POLY, 0x8000_0000) && Has(POLY, 0x4000_0000) && Has(POLY, 0x2000_0000) && !Has(POLY, 0x1000_0000);
    assert Has(POLY, 0x800_0000) && Has(POLY, 0x400_0000) && !Has(POLY, 0x200_0000) && Has(POLY, 0x100_0000);
    assert Has(POLY, 0x80_0000) && !Has(POLY, 0x40_0000) && Has(POLY, 0x20_0000) && Has(POLY, 0x10_0000);
    assert Has(POLY, 0x8_0000) && !Has(POLY, 0x4_0000) && !Has(POLY, 0x2_0000) && !Has(POLY, 0x1_0000);
    assert Has(POLY, 0x8000) && !Has(POLY, 0x4000) && !Has(POLY, 0x2000) && !Has(POLY, 0x1000);
    assert !Has(POLY, 0x800) && !Has(POLY, 0x400) && Has(POLY, 0x200) && Has(POLY, 0x100);
    assert !Has(POLY, 0x80) && !Has(POLY, 0x40) && Has(POLY, 0x20) && !Has(POLY, 0x10);
    assert !Has(POLY, 8) && !Has(POLY, 4) && !Has(POLY, 2) && !Has(POLY, 1);
    forall k: nat | k < 32
      ensures Coef(POLY, k) <==> k in P
    {
    }
  }

  lemma HalfIsMoved(c: bv32)
    ensures Of(Half(c)) == MoveUp(Of(c), 1) - iset{32}
    ensures 32 in MoveUp(Of(c), 1) <==> Low(c)
  {
    forall k: nat
      ensures k in Of(Half(c)) <==> k in MoveUp(Of(c), 1) && k != 32
    {
      if k < 32 {
        HalfCoef(c, k);
      }
    }
    LowIsLast(c);
  }

  lemma WithoutTop(up: Poly)
    requires 32 in up
    ensures Add(up, MoveUp(P, 0)) == Add(up - iset{32}, P - iset{32})
  {
    assert 32 in P && MoveUp(P, 0) == P;
  }

  lemma RemOnce(up: Poly)
    requires DegreeBelow(up, 33)
    ensures 32 in up ==> Rem(up, 33) == Add(up, MoveUp(P, 0))
    ensures 32 !in up ==> Rem(up, 33) == up
  {
    if 32 in up {
      Cancelled(up, 33);
    }
  }

  /** One step of the shift register is multiplication by x modulo P. */
  lemma StepIsRem(c: bv32)
    ensures DegreeBelow(MoveUp(Of(c), 1), 33) && Of(TimesX(c)) == Rem(MoveUp(Of(c), 1), 33)
  {
    MoveBelow(Of(c), 32, 1);
    RemOnce(MoveUp(Of(c), 1));
    HalfIsMoved(c);
    if Low(c) {
      WithoutTop(MoveUp(Of(c), 1));
      OfXor(Half(c), POLY);
      PolyIsP();
    }
  }

  lemma StepAfter(r: bv32, a: Poly, n: nat)
    requires DegreeBelow(a, n) && Of(r) == Rem(a, n)
    ensures DegreeBelow(MoveUp(a, 1), n + 1) && Of(TimesX(r)) == Rem(MoveUp(a, 1), n + 1)
  {
    StepIsRem(r);
    RemMove(a, n);
  }

  lemma {:induction false} StepsAreRem(n: nat, c: bv32)
    ensures DegreeBelow(MoveUp(Of(c), n), 32 + n) && Of(TimesXn(n, c)) == Rem(MoveUp(Of(c), n), 32 + n)
  {
    if n == 0 {
      assert MoveUp(Of(c), 0) == Of(c);
    } else {
      StepsAreRem(n - 1, c);
      StepAfter(TimesXn(n - 1, c), MoveUp(Of(c), n - 1), 32 + (n - 1));
      MoveMove(Of(c), n - 1, 1);
      assert 32 + (n - 1) + 1 == 32 + n;
    }
  }

  // Products.

  /** The ways to get x^k by multiplying a term of a with exponent from i up to n and a term of b. */
  ghost function Pairs(a: Poly, b: Poly, i: nat, n: nat, k: nat): set<nat> {
    set j: nat | i <= j < n && Pair(a, b, j, k)
  }

  ghost predicate Pair(a: Poly, b: Poly, j: nat, k: nat) {
    j in a && Moved(b, j, k)
  }

  /** The product of polynomials, the first of degree below n: a power of x is in it if there is an odd
      number of ways to get it. */
  ghost function Product(a: Poly, b: Poly, n: nat): Poly {
    ProductFrom(a, b, 0, n)
  }

  ghost function ProductFrom(a: Poly, b: Poly, i: nat, n: nat): Poly {
    iset k: nat | |Pairs(a, b, i, n, k)| % 2 == 1
  }

  /** What the term of a with exponent i counts. */
  ghost function Multiple(a: Poly, b: Poly, i: nat): Poly {
    if i in a then MoveUp(b, i) else iset{}
  }

  lemma ProductTerm(a: Poly, b: Poly, i: nat, n: nat)
    requires i < n
    ensures ProductFrom(a, b, i, n) == Add(Multiple(a, b, i), ProductFrom(a, b, i + 1, n))
  {
    forall k: nat
      ensures k in ProductFrom(a, b, i, n) <==> k in Add(Multiple(a, b, i), ProductFrom(a, b, i + 1, n))
    {
      var rest := Pairs(a, b, i + 1, n, k);
      if i in a && Moved(b, i, k) {
        assert Pairs(a, b, i, n, k) == rest + {i};
      } else {
        assert Pairs(a, b, i, n, k) == rest;
      }
    }
  }

  lemma ProductEnds(a: Poly, b: Poly, n: nat)
    ensures ProductFrom(a, b, n, n) == iset{}
  {
    forall k: nat
      ensures k !in ProductFrom(a, b, n, n)
    {
      assert Pairs(a, b, n, n, k) == {};
    }
  }

  lemma OfZero()
    ensures Of(0) == iset{}
  {
    forall k: nat | k < 32
      ensures !Coef(0, k)
    {
      HasNone(Mask(k));
    }
  }

  lemma MultipleIsTerm(a: bv32, b: bv32, k: nat)
    requires k < 32
    ensures var p := Multiple(Of(a), Of(b), k);
            DegreeBelow(p, 64) && Of(Term(a, Mask(k), TimesXn(k, b))) == Rem(p, 64)
  {
    assert k in Of(a) <==> Has(a, Mask(k));
    if k in Of(a) {
      StepsAreRem(k, b);
      RemBound(MoveUp(Of(b), k), 32 + k, 64);
    } else {
      OfZero();
      RemBound(iset{}, 0, 64);
    }
  }

  /** The terms of a product from the k-th on make the remainder of their sum. */
  ghost predicate SumIsRem(a: bv32, b: bv32, k: nat) {
    var p := ProductFrom(Of(a), Of(b), k, 32);
    DegreeBelow(p, 64) && Of(MulFrom(a, TimesXn(k, b), Mask(k))) == Rem(p, 64)
  }

  lemma NoTermLeft(a: bv32, b: bv32, k: nat)
    requires k == 32
    ensures SumIsRem(a, b, k)
  {
    Masks();
    LastMask();
    ProductEnds(Of(a), Of(b), 32);
    OfZero();
    RemBound(iset{}, 0, 64);
  }

  lemma MulFromTerm(a: bv32, b: bv32, k: nat)
    requires k < 32
    ensures MulFrom(a, TimesXn(k, b), Mask(k))
         == Xor(Term(a, Mask(k), TimesXn(k, b)), MulFrom(a, TimesXn(k + 1, b), Mask(k + 1)))
  {
    MaskSingle(k);
  }

  lemma {:induction false} MulFromIsRem(a: bv32, b: bv32, k: nat)
    requires k <= 32
    ensures SumIsRem(a, b, k)
    decreases 32 - k
  {
    if k == 32 {
      NoTermLeft(a, b, k);
    } else {
      MulFromIsRem(a, b, k + 1);
      ProductTerm(Of(a), Of(b), k, 32);
      MultipleIsTerm(a, b, k);
      MulFromTerm(a, b, k);
      OfXor(Term(a, Mask(k), TimesXn(k, b)), MulFrom(a, TimesXn(k + 1, b), Mask(k + 1)));
      RemAdd(Multiple(Of(a), Of(b), k), ProductFrom(Of(a), Of(b), k + 1, 32), 64);
    }
  }

  lemma LastMask()
    ensures Half(1) == 0
  {
  }

  /** The product of registers is the remainder of the product of their polynomials. */
  lemma MulIsRemainder(a: bv32, b: bv32)
    ensures DegreeBelow(Product(Of(a), Of(b), 32), 64)
    ensures Of(Mul(a, b)) == Rem(Product(Of(a), Of(b), 32), 64)
  {
    MulFromIsRem(a, b, 0);
    assert TimesXn(0, b) == b && Mask(0) == ONE;
  }

  // The message.

  function Mask8(k: nat): Byte {
    if k == 0 then 0x80 else Mask8(k - 1) >> 1
  }

  predicate HasBit(b: Byte, m: Byte) {
    b & m != 0
  }

  /** The polynomial of a byte, its most significant bit counting x^0. */
  ghost function OfByte(b: Byte): (r: Poly)
    ensures DegreeBelow(r, 8)
  {
    iset k: nat | k < 8 && HasBit(b, Mask8(k))
  }

  /** The polynomial of a message, its first bytes having the highest powers. */
  ghost function Message(s: seq<Byte>): (r: Poly)
    ensures DegreeBelow(r, 8 * |s|)
    decreases |s|
  {
    if s == [] then iset{}
    else
      MoveBelow(Message(s[..|s| - 1]), 8 * (|s| - 1), 8);
      Add(MoveUp(Message(s[..|s| - 1]), 8), OfByte(s[|s| - 1]))
  }

  lemma WideHas(b: Byte, m: Byte)
    ensures Has(Wide(b), Wide(m)) == HasBit(b, m)
  {
  }

  lemma HalfWide(m: Byte)
    ensures Half(Wide(m)) == Wide(m >> 1)
  {
  }

  lemma {:induction false} LowMasks(k: nat)
    requires k < 8
    ensures Mask(24 + k) == Wide(Mask8(k))
  {
    if k == 0 {
      Masks();
      WideTop();
    } else {
      LowMasks(k - 1);
      HalfWide(Mask8(k - 1));
    }
  }

  lemma WideTop()
    ensures Wide(0x80) == 0x80
  {
  }

  lemma HighMask(b: Byte, m: bv32)
    requires Single(m) && Log(m) >= 8
    ensures !Has(Wide(b), m)
  {
    if LowByte(m) != 0 {
      SmallLog(m);
    }
    WideMisses(b, m);
  }

  lemma SmallLog(m: bv32)
    requires Single(m) && LowByte(m) != 0
    ensures Log(m) < 8
  {
    SmallSingle(m);
    assert Log(1) == 0 && Log(2) == 1 && Log(4) == 2 && Log(8) == 3 && Log(16) == 4 && Log(32) == 5 && Log(64) == 6 && Log(128) == 7;
  }

  function LowByte(m: bv32): bv32 {
    m & 0xff
  }

  lemma SmallSingle(m: bv32)
    requires Single(m) && LowByte(m) != 0
    ensures m == 1 || m == 2 || m == 4 || m == 8 || m == 16 || m == 32 || m == 64 || m == 128
  {
  }

  lemma WideMisses(b: Byte, m: bv32)
    requires LowByte(m) == 0
    ensures !Has(Wide(b), m)
  {
  }

  /** A byte in the low bits of a register is its polynomial times x^24. */
  lemma OfWide(b: Byte)
    ensures Of(Wide(b)) == MoveUp(OfByte(b), 24)
  {
    forall k: nat | k < 32
      ensures Coef(Wide(b), k) <==> k in MoveUp(OfByte(b), 24)
    {
      if k < 24 {
        MaskSingle(k);
        HighMask(b, Mask(k));
      } else {
        LowMasks(k - 24);
        WideHas(b, Mask8(k - 24));
      }
    }
  }

  /** What the register holds after s: x^(8n) times what it held, and x^32 times the message. */
  ghost function Dividend(c: bv32, s: seq<Byte>): (r: Poly)
    ensures DegreeBelow(r, 8 * |s| + 32)
  {
    MoveBelow(Of(c), 32, 8 * |s|);
    MoveBelow(Message(s), 8 * |s|, 32);
    Add(MoveUp(Of(c), 8 * |s|), MoveUp(Message(s), 32))
  }

  lemma DividendStep(c: bv32, t: seq<Byte>, b: Byte)
    ensures Dividend(c, t + [b]) == Add(MoveUp(Dividend(c, t), 8), MoveUp(OfByte(b), 32))
  {
    var m, q := Message(t), OfByte(b);
    var d := MoveUp(Of(c), 8 * |t|);
    assert (t + [b])[..|t + [b]| - 1] == t;
    MoveAdd(MoveUp(m, 8), q, 32);
    MoveMove(m, 8, 32);
    MoveMove(m, 32, 8);
    MoveAdd(d, MoveUp(m, 32), 8);
    MoveMove(Of(c), 8 * |t|, 8);
    AddRegroup(MoveUp(d, 8), MoveUp(m, 40), MoveUp(q, 32));
  }

  lemma AddRegroup(a: Poly, b: Poly, d: Poly)
    ensures Add(a, Add(b, d)) == Add(Add(a, b), d)
  {
  }

  /** The register after the bytes of s is a remainder modulo P. */
  lemma {:induction false} RegIsRem(c: bv32, s: seq<Byte>)
    ensures Of(Reg(c, s)) == Rem(Dividend(c, s), 8 * |s| + 32)
    decreases |s|
  {
    if s == [] {
      NothingDivided(c);
    } else {
      var t, b := s[..|s| - 1], s[|s| - 1];
      RegIsRem(c, t);
      OneMoreByte(c, t, b);
      assert t + [b] == s;
    }
  }

  lemma OneMoreByte(c: bv32, t: seq<Byte>, b: Byte)
    requires Of(Reg(c, t)) == Rem(Dividend(c, t), 8 * |t| + 32)
    ensures Of(Reg(c, t + [b])) == Rem(Dividend(c, t + [b]), 8 * |t + [b]| + 32)
  {
    var n := 8 * |t| + 32;
    DividendStep(c, t, b);
    RemOfByte(Reg(c, t), Dividend(c, t), n, b);
    RegConcat(c, t, [b]);
    RegOne(Reg(c, t), b);
    assert 8 * |t + [b]| + 32 == n + 8;
  }

  lemma NothingDivided(c: bv32)
    ensures Rem(Dividend(c, []), 32) == Of(c)
  {
    assert MoveUp(Of(c), 0) == Of(c) && MoveUp(Message([]), 32) == iset{};
  }

  lemma RemOfByte(r: bv32, d: Poly, n: nat, b: Byte)
    requires DegreeBelow(d, n) && n >= 32 && Of(r) == Rem(d, n)
    ensures DegreeBelow(Add(MoveUp(d, 8), MoveUp(OfByte(b), 32)), n + 8)
    ensures Of(ByteStep(r, b)) == Rem(Add(MoveUp(d, 8), MoveUp(OfByte(b), 32)), n + 8)
  {
    ByteStepIsRem(r, b);
    ByteAdded(d, n, OfByte(b));
  }

  lemma ByteStepIsRem(c: bv32, b: Byte)
    ensures DegreeBelow(MoveUp(Add(Of(c), MoveUp(OfByte(b), 24)), 8), 40)
    ensures Of(ByteStep(c, b)) == Rem(MoveUp(Add(Of(c), MoveUp(OfByte(b), 24)), 8), 40)
  {
    StepsAreRem(8, Xor(c, Wide(b)));
    OfXor(c, Wide(b));
    OfWide(b);
  }

  /** Adding a byte to the remainder and moving it along is the remainder with the byte added. */
  lemma ByteAdded(d: Poly, n: nat, q: Poly)
    requires DegreeBelow(d, n) && n >= 32 && DegreeBelow(q, 8)
    ensures DegreeBelow(MoveUp(Add(Rem(d, n), MoveUp(q, 24)), 8), 40)
    ensures DegreeBelow(Add(MoveUp(d, 8), MoveUp(q, 32)), n + 8)
    ensures Rem(MoveUp(Add(Rem(d, n), MoveUp(q, 24)), 8), 40) == Rem(Add(MoveUp(d, 8), MoveUp(q, 32)), n + 8)
  {
    var r := Rem(d, n);
    MoveBelow(q, 8, 24);
    MoveBelow(q, 8, 32);
    MoveBelow(d, n, 8);
    MoveBelow(r, 32, 8);
    MoveAdd(r, MoveUp(q, 24), 8);
    MoveMove(q, 24, 8);
    RemAdd(MoveUp(r, 8), MoveUp(q, 32), 40);
    RemBound(r, 32, 32);
    RemMoves(d, n, r, 32, 8);
    RemBound(MoveUp(q, 32), 40, n + 8);
    RemAdd(MoveUp(d, 8), MoveUp(q, 32), n + 8);
  }

  lemma {:induction false} NoBits(d: bv32, k: nat)
    requires k < 32 && forall j: nat :: k <= j ==> !Coef(d, j)
    ensures UpTo(d, Mask(k)) == 0
    decreases 32 - k
  {
    var m := Mask(k);
    MaskSingle(k);
    BelowHalf(d, m);
    UpToSplit(d, m);
    XorUnit(0);
    assert !Coef(d, k);
    if k == 31 {
      Masks();
    } else {
      NoBits(d, k + 1);
      MaskSingle(k + 1);
      NotLast(m);
    }
  }

  /** A register is determined by its polynomial. */
  lemma OfInjective(a: bv32, b: bv32)
    requires Of(a) == Of(b)
    ensures a == b
  {
    OfXor(a, b);
    forall j: nat
      ensures !Coef(Xor(a, b), j)
    {
      assert j !in Of(Xor(a, b));
    }
    NoBits(Xor(a, b), 0);
    UpToTop(Xor(a, b));
    XorAssoc(a, b, b);
    XorUnit(a);
    XorUnit(b);
  }

  /** The CRC of section 8 of RFC 1952: the complement of the remainder, started from the
      complement of the CRC so far. */
  lemma CrcIsRemainder(crc: bv32, s: seq<Byte>, r: bv32)
    ensures r == Crc(crc, s) <==> Of(Not(r)) == Rem(Dividend(Not(crc), s), 8 * |s| + 32)
  {
    RegIsRem(Not(crc), s);
    NotNot(Reg(Not(crc), s));
    NotNot(r);
    if Of(Not(r)) == Of(Reg(Not(crc), s)) {
      OfInjective(Not(r), Reg(Not(crc), s));
    }
  }
}
