/**
 Polynomials over GF(2) modulo the CRC polynomial, as crc32.c keeps them: 32-bit words
 with the lowest power in the most significant bit. Adding is exclusive-or, multiplying
 by x is a shift, and multmodp multiplies two such polynomials.
 */
module CrcField {
  import opened Arith

  /** p(x) reflected, with x^32 implied. */
  const POLY: bv32 := 0xedb88320

  /** x^0 and x^1. */
  const ONE: bv32 := 0x8000_0000
  const X: bv32 := 0x4000_0000

  function Xor(a: bv32, b: bv32): bv32 {
    a ^ b
  }

  function Half(a: bv32): bv32 {
    a >> 1
  }

  predicate Low(a: bv32) {
    a & 1 == 1
  }

  function And(a: bv32, m: bv32): bv32 {
    a & m
  }

  /** a has a bit of m. */
  predicate Has(a: bv32, m: bv32) {
    And(a, m) != 0
  }

  /** Multiplication by x: the shift-register step. */
  function TimesX(c: bv32): bv32 {
    if Low(c) then Xor(Half(c), POLY) else Half(c)
  }

  /** Multiplication by x^n. */
  function TimesXn(n: nat, c: bv32): bv32
    decreases n, c
  {
    if n == 0 then c else TimesX(TimesXn(n - 1, c))
  }

  lemma XorAssoc(a: bv32, b: bv32, d: bv32)
    ensures Xor(Xor(a, b), d) == Xor(a, Xor(b, d))
  {
  }

  lemma XorComm(a: bv32, b: bv32)
    ensures Xor(a, b) == Xor(b, a)
  {
  }

  lemma XorUnit(a: bv32)
    ensures Xor(a, 0) == a && Xor(0, a) == a && Xor(a, a) == 0
  {
  }

  /** Exclusive-or of two sums, sorted by their parts. */
  lemma Regroup(a: bv32, b: bv32, d: bv32, e: bv32)
    ensures Xor(Xor(a, b), Xor(d, e)) == Xor(Xor(a, d), Xor(b, e))
  {
    XorAssoc(a, b, Xor(d, e));
    XorAssoc(b, d, e);
    XorComm(b, d);
    XorAssoc(d, b, e);
    XorAssoc(a, d, Xor(b, e));
  }

  lemma LowXor(a: bv32, b: bv32)
    ensures Low(Xor(a, b)) == (Low(a) != Low(b))
  {
  }

  lemma HalfXor(a: bv32, b: bv32)
    ensures Half(Xor(a, b)) == Xor(Half(a), Half(b))
  {
  }

  /** What the bit shifted out adds. */
  function Fold(c: bv32): bv32 {
    if Low(c) then POLY else 0
  }

  lemma TimesXParts(c: bv32)
    ensures TimesX(c) == Xor(Half(c), Fold(c))
  {
    XorUnit(Half(c));
  }

  lemma FoldXor(a: bv32, b: bv32)
    ensures Fold(Xor(a, b)) == Xor(Fold(a), Fold(b))
  {
    LowXor(a, b);
    XorUnit(POLY);
    XorUnit(0);
  }

  lemma TimesXLinear(a: bv32, b: bv32)
    ensures TimesX(Xor(a, b)) == Xor(TimesX(a), TimesX(b))
  {
    TimesXParts(a);
    TimesXParts(b);
    TimesXParts(Xor(a, b));
    HalfXor(a, b);
    FoldXor(a, b);
    Regroup(Half(a), Half(b), Fold(a), Fold(b));
  }

  lemma {:induction false} TimesXnLinear(n: nat, a: bv32, b: bv32)
    ensures TimesXn(n, Xor(a, b)) == Xor(TimesXn(n, a), TimesXn(n, b))
  {
    if n > 0 {
      TimesXnLinear(n - 1, a, b);
      TimesXLinear(TimesXn(n - 1, a), TimesXn(n - 1, b));
    }
  }

  lemma {:induction false} TimesXnZero(n: nat)
    ensures TimesXn(n, 0) == 0
  {
    if n > 0 {
      TimesXnZero(n - 1);
      XZero();
    }
  }

  lemma XZero()
    ensures TimesX(0) == 0
  {
  }

  lemma {:induction false} TimesXnAdd(m: nat, n: nat, c: bv32)
    ensures TimesXn(m + n, c) == TimesXn(m, TimesXn(n, c))
  {
    if m > 0 {
      TimesXnAdd(m - 1, n, c);
    }
  }

  /** No power of x is a multiple of p(x). */
  lemma {:induction false} TimesXnNonzero(n: nat, c: bv32)
    requires c != 0
    ensures TimesXn(n, c) != 0
  {
    if n > 0 {
      TimesXnNonzero(n - 1, c);
      TimesXNonzero(TimesXn(n - 1, c));
    }
  }

  lemma TimesXNonzero(c: bv32)
    requires c != 0
    ensures TimesX(c) != 0
  {
  }

  /** m has a single bit. */
  predicate Single(m: bv32) {
    m != 0 && m & (m - 1) == 0
  }

  function Pred(m: bv32): bv32 {
    m - 1
  }

  /** All bits at m and below. */
  function Ones(m: bv32): bv32 {
    m | (m - 1)
  }

  /** The bits of a at m and below. */
  function UpTo(a: bv32, m: bv32): bv32 {
    And(a, Ones(m))
  }

  /** The bits of a below m. */
  function Below(a: bv32, m: bv32): bv32 {
    And(a, Pred(m))
  }

  lemma SingleHalf(m: bv32)
    requires Single(m)
    ensures if m == 1 then Half(m) == 0 else Single(Half(m)) && !Low(m) && Half(m) < m
  {
  }

  lemma HasXor(a: bv32, b: bv32, m: bv32)
    requires Single(m)
    ensures Has(Xor(a, b), m) == (Has(a, m) != Has(b, m))
  {
    OneBitXor(a, b, m);
  }

  lemma OneBitXor(a: bv32, b: bv32, m: bv32)
    requires m != 0 && m & (m - 1) == 0
    ensures ((a ^ b) & m != 0) == ((a & m != 0) != (b & m != 0))
  {
  }

  lemma HasHalf(a: bv32, m: bv32)
    requires Single(m) && m != 1
    ensures Has(Half(a), Half(m)) == Has(a, m)
  {
  }

  lemma BelowHalf(a: bv32, m: bv32)
    requires Single(m)
    ensures m != 1 ==> Below(a, m) == UpTo(a, Half(m))
    ensures m == 1 ==> Below(a, m) == 0
  {
    if m != 1 {
      HalfMask(m);
    }
  }

  lemma HalfMask(m: bv32)
    requires m != 0 && m & (m - 1) == 0 && m != 1
    ensures m - 1 == (m >> 1) | ((m >> 1) - 1)
  {
  }

  lemma UpToSplit(a: bv32, m: bv32)
    requires Single(m)
    ensures UpTo(a, m) == Xor(Term(a, m, m), Below(a, m))
  {
    OnesSplit(m);
    AndXor(a, m, Pred(m));
    OneBit(a, m);
  }

  lemma OnesSplit(m: bv32)
    requires Single(m)
    ensures Ones(m) == Xor(m, Pred(m))
  {
  }

  lemma AndXor(a: bv32, x: bv32, y: bv32)
    ensures And(a, Xor(x, y)) == Xor(And(a, x), And(a, y))
  {
  }

  lemma OneBit(a: bv32, m: bv32)
    requires Single(m)
    ensures And(a, m) == 0 || And(a, m) == m
  {
  }

  /** What the bit of a at m counts. */
  function Term(a: bv32, m: bv32, b: bv32): bv32 {
    if Has(a, m) then b else 0
  }

  lemma TermLeft(a: bv32, d: bv32, m: bv32, b: bv32)
    requires Single(m)
    ensures Term(Xor(a, d), m, b) == Xor(Term(a, m, b), Term(d, m, b))
  {
    HasXor(a, d, m);
    PickXor(Has(a, m), Has(d, m), b);
  }

  lemma PickXor(p: bool, q: bool, b: bv32)
    ensures (if p != q then b else 0) == Xor(if p then b else 0, if q then b else 0)
  {
    XorUnit(b);
    XorUnit(0);
  }

  lemma TermRight(a: bv32, m: bv32, b: bv32, d: bv32)
    ensures Term(a, m, Xor(b, d)) == Xor(Term(a, m, b), Term(a, m, d))
  {
    XorUnit(0);
  }

  /** The product of b and the bits of a at m and below, as multmodp sums it: the bit at m
      counts b, the next lower one b * x, and so on. */
  function MulFrom(a: bv32, b: bv32, m: bv32): bv32
    decreases m, a, b
  {
    if m == 0 then 0
    else Xor(Term(a, m, b), MulFrom(a, TimesX(b), Half(m)))
  }

  /** The product of a and b modulo p(x). */
  function Mul(a: bv32, b: bv32): bv32 {
    MulFrom(a, b, ONE)
  }

  lemma {:induction false} MulFromLeft(a: bv32, d: bv32, b: bv32, m: bv32)
    requires m == 0 || Single(m)
    ensures MulFrom(Xor(a, d), b, m) == Xor(MulFrom(a, b, m), MulFrom(d, b, m))
    decreases m
  {
    XorUnit(0);
    if m != 0 {
      SingleHalf(m);
      MulFromLeft(a, d, TimesX(b), Half(m));
      TermLeft(a, d, m, b);
      Regroup(Term(a, m, b), Term(d, m, b), MulFrom(a, TimesX(b), Half(m)), MulFrom(d, TimesX(b), Half(m)));
    }
  }

  lemma {:induction false} MulFromRight(a: bv32, b: bv32, d: bv32, m: bv32)
    ensures MulFrom(a, Xor(b, d), m) == Xor(MulFrom(a, b, m), MulFrom(a, d, m))
    decreases m
  {
    XorUnit(0);
    if m != 0 {
      HalfSmaller(m);
      MulFromRight(a, TimesX(b), TimesX(d), Half(m));
      TimesXLinear(b, d);
      TermRight(a, m, b, d);
      Regroup(Term(a, m, b), Term(a, m, d), MulFrom(a, TimesX(b), Half(m)), MulFrom(a, TimesX(d), Half(m)));
    }
  }

  lemma HalfSmaller(m: bv32)
    requires m != 0
    ensures Half(m) < m
  {
  }

  lemma {:induction false} MulFromTimesX(a: bv32, b: bv32, m: bv32)
    ensures MulFrom(a, TimesX(b), m) == TimesX(MulFrom(a, b, m))
    decreases m
  {
    XZero();
    if m != 0 {
      HalfSmaller(m);
      MulFromTimesX(a, TimesX(b), Half(m));
      TimesXLinear(Term(a, m, b), MulFrom(a, TimesX(b), Half(m)));
    }
  }

  lemma {:induction false} MulFromZero(b: bv32, m: bv32)
    ensures MulFrom(0, b, m) == 0
    decreases m
  {
    XorUnit(0);
    if m != 0 {
      HalfSmaller(m);
      MulFromZero(TimesX(b), Half(m));
      HasNone(m);
    }
  }

  lemma HasNone(m: bv32)
    ensures !Has(0, m)
  {
  }

  /** The multiple of b that the lowest bit counts. */
  function LastTerm(b: bv32, m: bv32): bv32
    decreases m, b
  {
    if m <= 1 then b else LastTerm(TimesX(b), Half(m))
  }

  function Log(m: bv32): nat
    decreases m
  {
    if m <= 1 then 0 else 1 + Log(Half(m))
  }

  lemma {:induction false} LastTermIsPower(b: bv32, m: bv32)
    ensures LastTerm(b, m) == TimesXn(Log(m), b)
    decreases m
  {
    if m > 1 {
      HalfSmaller(m);
      LastTermIsPower(TimesX(b), Half(m));
      TimesXnAdd(Log(Half(m)), 1, b);
      OneX(b);
    }
  }

  lemma OneX(b: bv32)
    ensures TimesXn(1, b) == TimesX(b)
  {
    assert TimesXn(0, b) == b;
  }

  /** Halving a multiplies the product by x, apart from the bit that falls out. */
  lemma {:induction false} MulFromHalf(a: bv32, b: bv32, m: bv32)
    requires Single(m)
    ensures MulFrom(Half(a), TimesX(b), Half(m))
         == Xor(TimesX(MulFrom(a, b, m)), Term(a, 1, TimesX(LastTerm(b, m))))
    decreases m
  {
    SingleHalf(m);
    XZero();
    var rest := MulFrom(a, TimesX(b), Half(m));
    var first := Term(a, m, b);
    TimesXLinear(first, rest);
    if m == 1 {
      XorUnit(b);
      XorUnit(0);
      XorUnit(TimesX(b));
    } else {
      MulFromHalf(a, TimesX(b), Half(m));
      HasHalf(a, m);
      XorAssoc(TimesX(first), TimesX(rest), Term(a, 1, TimesX(LastTerm(b, m))));
    }
  }

  /** x^0 is the unit: the bits of a are the powers of x that it sums. */
  lemma {:induction false} MulFromUnit(a: bv32, m: bv32)
    requires Single(m)
    ensures MulFrom(a, m, m) == UpTo(a, m)
    decreases m
  {
    SingleHalf(m);
    BelowHalf(a, m);
    UpToSplit(a, m);
    if m != 1 {
      MulFromUnit(a, Half(m));
    }
  }

  lemma MulUnit(a: bv32)
    ensures Mul(a, ONE) == a
  {
    TopIsSingle();
    MulFromUnit(a, ONE);
    UpToTop(a);
  }

  lemma TopIsSingle()
    ensures Single(ONE)
  {
  }

  lemma UpToTop(a: bv32)
    ensures UpTo(a, ONE) == a
  {
  }

  /** Multiplying by p(x) - x^32 and multiplying by x^32 have the same effect on d. */
  ghost predicate Agree(d: bv32) {
    Mul(POLY, d) == TimesXn(32, d)
  }

  lemma AgreeZero()
    ensures Agree(0)
  {
    MulOfZero(POLY);
    TimesXnZero(32);
  }

  lemma AgreeXor(d: bv32, e: bv32)
    requires Agree(d) && Agree(e)
    ensures Agree(Xor(d, e))
  {
    MulFromRight(POLY, d, e, ONE);
    TimesXnLinear(32, d, e);
  }

  lemma AgreeTimesX(d: bv32)
    requires Agree(d)
    ensures Agree(TimesX(d))
  {
    MulFromTimesX(POLY, d, ONE);
    TimesXCommutes(32, d);
  }

  /** If they agree on one element they agree on every sum of multiples of it by powers of x. */
  lemma {:induction false} AgreeOnSums(b: bv32, d: bv32, m: bv32)
    requires Agree(d)
    ensures Agree(MulFrom(b, d, m))
    decreases m
  {
    AgreeZero();
    if m != 0 {
      HalfSmaller(m);
      AgreeTimesX(d);
      AgreeOnSums(b, TimesX(d), Half(m));
      AgreeXor(Term(b, m, d), MulFrom(b, TimesX(d), Half(m)));
    }
  }

  lemma {:induction false} MulFromOfZero(a: bv32, m: bv32)
    ensures MulFrom(a, 0, m) == 0
    decreases m
  {
    XorUnit(0);
    XZero();
    if m != 0 {
      HalfSmaller(m);
      MulFromOfZero(a, Half(m));
    }
  }

  lemma MulOfZero(a: bv32)
    ensures Mul(a, 0) == 0
  {
    MulFromOfZero(a, ONE);
  }

  lemma {:induction false} TimesXCommutes(n: nat, c: bv32)
    ensures TimesXn(n, TimesX(c)) == TimesX(TimesXn(n, c))
  {
    if n > 0 {
      TimesXCommutes(n - 1, c);
    }
  }

  /** A single bit moves down to the lowest without folding. */
  lemma {:induction false} SingleToOne(m: bv32)
    requires Single(m)
    ensures TimesXn(Log(m), m) == 1
    decreases m
  {
    SingleHalf(m);
    if m != 1 {
      SingleToOne(Half(m));
      TimesXnAdd(Log(Half(m)), 1, m);
      OneX(m);
    }
  }

  /** x^32 mod p(x) is the polynomial itself without its leading term. */
  lemma LeadingTerm()
    ensures TimesXn(32, ONE) == POLY
  {
    TopIsSingle();
    SingleToOne(ONE);
    LogTop();
    FoldOne();
    assert TimesXn(32, ONE) == TimesX(TimesXn(31, ONE));
  }

  lemma FoldOne()
    ensures TimesX(1) == POLY
  {
  }

  lemma PolyIsX32(b: bv32)
    ensures Mul(POLY, b) == TimesXn(32, b)
  {
    MulUnit(POLY);
    LeadingTerm();
    AgreeOnSums(b, ONE, ONE);
    MulUnit(b);
  }

  lemma TopBitGone(a: bv32)
    ensures !Has(Half(a), ONE)
  {
  }

  lemma LogTop()
    ensures Log(ONE) == 31 && Half(ONE) == X
  {
    assert Log(0x1) == 0 && Log(0x2) == 1 && Log(0x4) == 2 && Log(0x8) == 3;
    assert Log(0x10) == 4 && Log(0x20) == 5 && Log(0x40) == 6 && Log(0x80) == 7;
    assert Log(0x100) == 8 && Log(0x200) == 9 && Log(0x400) == 10 && Log(0x800) == 11;
    assert Log(0x1000) == 12 && Log(0x2000) == 13 && Log(0x4000) == 14 && Log(0x8000) == 15;
    assert Log(0x10000) == 16 && Log(0x20000) == 17 && Log(0x40000) == 18 && Log(0x80000) == 19;
    assert Log(0x100000) == 20 && Log(0x200000) == 21 && Log(0x400000) == 22 && Log(0x800000) == 23;
    assert Log(0x1000000) == 24 && Log(0x2000000) == 25 && Log(0x4000000) == 26 && Log(0x8000000) == 27;
    assert Log(0x10000000) == 28 && Log(0x20000000) == 29 && Log(0x40000000) == 30 && Log(0x80000000) == 31;
  }

  /** The product is multiplied by x when either factor is. */
  lemma MulTimesX(a: bv32, b: bv32)
    ensures Mul(TimesX(a), b) == TimesX(Mul(a, b))
    ensures Mul(a, TimesX(b)) == TimesX(Mul(a, b))
  {
    MulFromTimesX(a, b, ONE);
    TopIsSingle();
    TimesXParts(a);
    MulFromLeft(Half(a), Fold(a), b, ONE);
    MulHalf(a, b);
    MulFold(a, b);
    XorAssoc(TimesX(Mul(a, b)), Term(a, 1, TimesXn(32, b)), Term(a, 1, TimesXn(32, b)));
    XorUnit(Term(a, 1, TimesXn(32, b)));
    XorUnit(TimesX(Mul(a, b)));
  }

  lemma MulHalf(a: bv32, b: bv32)
    ensures Mul(Half(a), b) == Xor(TimesX(Mul(a, b)), Term(a, 1, TimesXn(32, b)))
  {
    TopIsSingle();
    TopBitGone(a);
    MulFromHalf(a, b, ONE);
    XorUnit(MulFrom(Half(a), TimesX(b), Half(ONE)));
    LastTermIsPower(b, ONE);
    LogTop();
    assert TimesXn(32, b) == TimesX(TimesXn(31, b));
  }

  lemma MulFold(a: bv32, b: bv32)
    ensures Mul(Fold(a), b) == Term(a, 1, TimesXn(32, b))
  {
    PolyIsX32(b);
    MulFromZero(b, ONE);
  }

  /** Multiplying by the residue of x^n multiplies by x^n, on either side. */
  lemma {:induction false} MulPower(n: nat, b: bv32)
    ensures Mul(TimesXn(n, ONE), b) == TimesXn(n, b) && Mul(b, TimesXn(n, ONE)) == TimesXn(n, b)
  {
    if n == 0 {
      MulUnit(b);
      MulOne(b);
    } else {
      MulPower(n - 1, b);
      MulTimesX(TimesXn(n - 1, ONE), b);
      MulTimesX(b, TimesXn(n - 1, ONE));
    }
  }

  lemma MulOne(b: bv32)
    ensures Mul(ONE, b) == b
  {
    HasAll();
    MulFromNone(ONE, TimesX(b), X);
    LogTop();
    XorUnit(b);
  }

  lemma HasAll()
    ensures Has(ONE, ONE) && Single(X) && UpTo(ONE, X) == 0
  {
  }

  /** Bits that are not there count nothing. */
  lemma {:induction false} MulFromNone(a: bv32, b: bv32, m: bv32)
    requires m == 0 || (Single(m) && UpTo(a, m) == 0)
    ensures MulFrom(a, b, m) == 0
    decreases m
  {
    XorUnit(0);
    if m != 0 {
      SingleHalf(m);
      BelowHalf(a, m);
      NothingUpTo(a, m);
      MulFromNone(a, TimesX(b), Half(m));
    }
  }

  lemma NothingUpTo(a: bv32, m: bv32)
    requires Single(m) && UpTo(a, m) == 0
    ensures !Has(a, m) && Below(a, m) == 0
  {
  }

  /** What has been summed in p and what is still to be summed make up the product. */
  ghost predicate Partial(a: bv32, b: bv32, p: bv32, b': bv32, m: bv32) {
    Single(m) && UpTo(a, m) != 0 && Xor(p, MulFrom(a, b', m)) == Mul(a, b)
  }

  /** One pass of the loop in multmodp. */
  method MulPass(a: bv32, ghost b: bv32, p: bv32, b': bv32, m: bv32) returns (p': bv32, done: bool)
    requires Partial(a, b, p, b', m)
    ensures if done then p' == Mul(a, b) else Partial(a, b, p', TimesX(b'), Half(m)) && Half(m) < m
  {
    SumStep(p, a, b', m);
    p', done := p, false;
    if Has(a, m) {
      p' := Xor(p, b');
      done := Below(a, m) == 0;
    }
    if done {
      NothingBelow(p', a, TimesX(b'), m);
    } else {
      StepDown(a, m);
    }
  }

  /** multmodp. It stops only at the lowest bit of a, so a must not be zero. */
  method Multmodp(a: bv32, b: bv32) returns (p: bv32)
    requires a != 0
    ensures p == Mul(a, b)
  {
    var m: bv32, b', done := ONE, b, false;
    p := 0;
    TopIsSingle();
    UpToTop(a);
    XorUnit(Mul(a, b));
    while true
      invariant Partial(a, b, p, b', m)
      decreases m
    {
      p, done := MulPass(a, b, p, b', m);
      if done {
        break;
      }
      m, b' := Half(m), TimesX(b');
    }
  }

  lemma SumStep(p: bv32, a: bv32, b: bv32, m: bv32)
    requires Single(m)
    ensures Xor(p, MulFrom(a, b, m)) == Xor(if Has(a, m) then Xor(p, b) else p, MulFrom(a, TimesX(b), Half(m)))
  {
    XorAssoc(p, Term(a, m, b), MulFrom(a, TimesX(b), Half(m)));
    XorUnit(p);
  }

  lemma NothingBelow(p: bv32, a: bv32, b: bv32, m: bv32)
    requires Single(m) && Below(a, m) == 0
    ensures Xor(p, MulFrom(a, b, Half(m))) == p
  {
    SingleHalf(m);
    BelowHalf(a, m);
    MulFromNone(a, b, Half(m));
    XorUnit(p);
  }

  lemma StepDown(a: bv32, m: bv32)
    requires Single(m) && UpTo(a, m) != 0 && (Has(a, m) ==> Below(a, m) != 0)
    ensures Single(Half(m)) && UpTo(a, Half(m)) != 0 && Half(m) < m
  {
    SomethingUpTo(a, m);
    SingleHalf(m);
    BelowHalf(a, m);
  }

  lemma SomethingUpTo(a: bv32, m: bv32)
    requires Single(m) && UpTo(a, m) != 0
    ensures !Has(a, m) ==> Below(a, m) != 0
  {
    UpToSplit(a, m);
    XorUnit(Below(a, m));
  }

  /** The k-th entry is x^(2^k). */
  ghost predicate PowerTable(table: seq<bv32>) {
    forall k :: 0 <= k < |table| ==> table[k] == TimesXn(Pow2(k), ONE)
  }

  lemma SquareOfPower(k: nat, p: bv32)
    requires p == TimesXn(Pow2(k), ONE)
    ensures Mul(p, p) == TimesXn(Pow2(k + 1), ONE) && p != 0
  {
    MulPower(Pow2(k), p);
    TimesXnAdd(Pow2(k), Pow2(k), ONE);
    OneNonzero();
    TimesXnNonzero(Pow2(k), ONE);
  }

  lemma OneNonzero()
    ensures ONE != 0 && TimesX(ONE) == X
  {
  }

  /** The loop of make_crc_table that fills x2n_table: each entry is the square of the one
      before. */
  method MakePowerTable() returns (table: seq<bv32>)
    ensures |table| == 32 && PowerTable(table)
  {
    var p := X;
    OneNonzero();
    OneX(ONE);
    assert Pow2(0) == 1;
    table := [p];
    for n := 1 to 32
      invariant |table| == n && PowerTable(table) && p == TimesXn(Pow2(n - 1), ONE)
    {
      p := Squared(n - 1, p);
      table := table + [p];
    }
  }

  method Squared(ghost k: nat, p: bv32) returns (q: bv32)
    requires p == TimesXn(Pow2(k), ONE)
    ensures q == TimesXn(Pow2(k + 1), ONE)
  {
    SquareOfPower(k, p);
    q := Multmodp(p, p);
  }
}
