/**
 Base32Encoding.cpp: bytes as base32 digits without padding, in the grouping of section 6 of
 RFC 4648 with an alphabet of its own.
 */
module Base32 {
  import opened Sequences

  type Byte = bv8

  const MAX_VALUE := 0xffff_ffff

  const ALPHABET := "0123456789abcdefghjkmnpqrstvwxyz"

  // The bits that digits and bytes stand for, the most significant first.

  predicate Bit(b: Byte, m: Byte) {
    b & m != 0
  }

  function ByteBits(b: Byte): (r: seq<bool>)
    ensures |r| == 8
  {
    [Bit(b, 0x80), Bit(b, 0x40), Bit(b, 0x20), Bit(b, 0x10), Bit(b, 8), Bit(b, 4), Bit(b, 2), Bit(b, 1)]
  }

  function DigitBits(v: Byte): (r: seq<bool>)
    ensures |r| == 5
  {
    [Bit(v, 0x10), Bit(v, 8), Bit(v, 4), Bit(v, 2), Bit(v, 1)]
  }

  function Bits(bytes: seq<Byte>): (r: seq<bool>)
    ensures |r| == 8 * |bytes|
  {
    if bytes == [] then [] else ByteBits(bytes[0]) + Bits(bytes[1..])
  }

  function AllDigitBits(values: seq<Byte>): (r: seq<bool>)
    ensures |r| == 5 * |values|
  {
    if values == [] then [] else DigitBits(values[0]) + AllDigitBits(values[1..])
  }

  function ZeroBits(n: nat): (r: seq<bool>)
    ensures |r| == n
  {
    seq(n, _ => false)
  }

  // The eight digits of five bytes, as the source shifts and masks them.

  function V0(a: Byte): Byte { (a & 0xf8) >> 3 }
  function V1(a: Byte, b: Byte): Byte { ((a & 0x07) << 2) | ((b & 0xc0) >> 6) }
  function V2(b: Byte): Byte { (b & 0x3e) >> 1 }
  function V3(b: Byte, c: Byte): Byte { ((b & 0x01) << 4) | ((c & 0xf0) >> 4) }
  function V4(c: Byte, d: Byte): Byte { ((c & 0x0f) << 1) | ((d & 0x80) >> 7) }
  function V5(d: Byte): Byte { (d & 0x7c) >> 2 }
  function V6(d: Byte, e: Byte): Byte { ((d & 0x03) << 3) | ((e & 0xe0) >> 5) }
  function V7(e: Byte): Byte { e & 0x1f }

  predicate IsValue(v: Byte) {
    v < 0x20
  }

  lemma ValuesFit(a: Byte, b: Byte)
    ensures IsValue(V0(a)) && IsValue(V1(a, b)) && IsValue(V2(a)) && IsValue(V3(a, b))
    ensures IsValue(V4(a, b)) && IsValue(V5(a)) && IsValue(V6(a, b)) && IsValue(V7(a))
  {
  }

  /** The stretches of a byte's bits that go into digits. */
  lemma Stretches(x: seq<bool>)
    requires |x| == 8
    ensures x[..5] == [x[0], x[1], x[2], x[3], x[4]] && x[5..] == [x[5], x[6], x[7]] && x[..2] == [x[0], x[1]]
    ensures x[2..7] == [x[2], x[3], x[4], x[5], x[6]] && x[7..] == [x[7]] && x[..4] == [x[0], x[1], x[2], x[3]]
    ensures x[4..] == [x[4], x[5], x[6], x[7]] && x[..1] == [x[0]] && x[1..6] == [x[1], x[2], x[3], x[4], x[5]]
    ensures x[6..] == [x[6], x[7]] && x[..3] == [x[0], x[1], x[2]] && x[3..] == [x[3], x[4], x[5], x[6], x[7]]
  {
  }

  lemma V0Bits(a: Byte)
    ensures Bit(V0(a), 0x10) == Bit(a, 0x80) && Bit(V0(a), 8) == Bit(a, 0x40) && Bit(V0(a), 4) == Bit(a, 0x20)
    ensures Bit(V0(a), 2) == Bit(a, 0x10) && Bit(V0(a), 1) == Bit(a, 8)
  {
  }

  lemma V1Bits(a: Byte, b: Byte)
    ensures Bit(V1(a, b), 0x10) == Bit(a, 4) && Bit(V1(a, b), 8) == Bit(a, 2) && Bit(V1(a, b), 4) == Bit(a, 1)
    ensures Bit(V1(a, b), 2) == Bit(b, 0x80) && Bit(V1(a, b), 1) == Bit(b, 0x40)
  {
  }

  lemma V2Bits(b: Byte)
    ensures Bit(V2(b), 0x10) == Bit(b, 0x20) && Bit(V2(b), 8) == Bit(b, 0x10) && Bit(V2(b), 4) == Bit(b, 8)
    ensures Bit(V2(b), 2) == Bit(b, 4) && Bit(V2(b), 1) == Bit(b, 2)
  {
  }

  lemma V3Bits(b: Byte, c: Byte)
    ensures Bit(V3(b, c), 0x10) == Bit(b, 1) && Bit(V3(b, c), 8) == Bit(c, 0x80) && Bit(V3(b, c), 4) == Bit(c, 0x40)
    ensures Bit(V3(b, c), 2) == Bit(c, 0x20) && Bit(V3(b, c), 1) == Bit(c, 0x10)
  {
  }

  lemma V4Bits(c: Byte, d: Byte)
    ensures Bit(V4(c, d), 0x10) == Bit(c, 8) && Bit(V4(c, d), 8) == Bit(c, 4) && Bit(V4(c, d), 4) == Bit(c, 2)
    ensures Bit(V4(c, d), 2) == Bit(c, 1) && Bit(V4(c, d), 1) == Bit(d, 0x80)
  {
  }

  lemma V5Bits(d: Byte)
    ensures Bit(V5(d), 0x10) == Bit(d, 0x40) && Bit(V5(d), 8) == Bit(d, 0x20) && Bit(V5(d), 4) == Bit(d, 0x10)
    ensures Bit(V5(d), 2) == Bit(d, 8) && Bit(V5(d), 1) == Bit(d, 4)
  {
  }

  lemma V6Bits(d: Byte, e: Byte)
    ensures Bit(V6(d, e), 0x10) == Bit(d, 2) && Bit(V6(d, e), 8) == Bit(d, 1) && Bit(V6(d, e), 4) == Bit(e, 0x80)
    ensures Bit(V6(d, e), 2) == Bit(e, 0x40) && Bit(V6(d, e), 1) == Bit(e, 0x20)
  {
  }

  lemma V7Bits(e: Byte)
    ensures Bit(V7(e), 0x10) == Bit(e, 0x10) && Bit(V7(e), 8) == Bit(e, 8) && Bit(V7(e), 4) == Bit(e, 4)
    ensures Bit(V7(e), 2) == Bit(e, 2) && Bit(V7(e), 1) == Bit(e, 1)
  {
  }

  // Each digit has the next five bits of the bytes.

  lemma Glue(p: bool, q: bool, r: bool, s: bool, t: bool)
    ensures [p, q, r] + [s, t] == [p, q, r, s, t] && [p] + [q, r, s, t] == [p, q, r, s, t]
    ensures [p, q, r, s] + [t] == [p, q, r, s, t] && [p, q] + [r, s, t] == [p, q, r, s, t]
  {
  }

  /** Bits of two bytes side by side, wherever the cut is. */
  lemma Joins(x: seq<bool>, y: seq<bool>)
    requires |x| == 8 && |y| == 8
    ensures x[5..] + y[..2] == [x[5], x[6], x[7], y[0], y[1]]
    ensures x[7..] + y[..4] == [x[7], y[0], y[1], y[2], y[3]]
    ensures x[4..] + y[..1] == [x[4], x[5], x[6], x[7], y[0]]
    ensures x[6..] + y[..3] == [x[6], x[7], y[0], y[1], y[2]]
  {
    Stretches(x);
    Stretches(y);
    Glue(x[5], x[6], x[7], y[0], y[1]);
    Glue(x[7], y[0], y[1], y[2], y[3]);
    Glue(x[4], x[5], x[6], x[7], y[0]);
    Glue(x[6], x[7], y[0], y[1], y[2]);
  }

  lemma BitAt(a: Byte)
    ensures var x := ByteBits(a);
            && x[0] == Bit(a, 0x80) && x[1] == Bit(a, 0x40) && x[2] == Bit(a, 0x20) && x[3] == Bit(a, 0x10)
            && x[4] == Bit(a, 8) && x[5] == Bit(a, 4) && x[6] == Bit(a, 2) && x[7] == Bit(a, 1)
  {
  }

  lemma JoinsOf(a: Byte, b: Byte)
    ensures var x, y := ByteBits(a), ByteBits(b);
            && x[5..] + y[..2] == [Bit(a, 4), Bit(a, 2), Bit(a, 1), Bit(b, 0x80), Bit(b, 0x40)]
            && x[7..] + y[..4] == [Bit(a, 1), Bit(b, 0x80), Bit(b, 0x40), Bit(b, 0x20), Bit(b, 0x10)]
            && x[4..] + y[..1] == [Bit(a, 8), Bit(a, 4), Bit(a, 2), Bit(a, 1), Bit(b, 0x80)]
            && x[6..] + y[..3] == [Bit(a, 2), Bit(a, 1), Bit(b, 0x80), Bit(b, 0x40), Bit(b, 0x20)]
  {
    Joins(ByteBits(a), ByteBits(b));
    BitAt(a);
    BitAt(b);
  }

  lemma Digit0(a: Byte)
    ensures DigitBits(V0(a)) == ByteBits(a)[..5]
  {
    Stretches(ByteBits(a));
    V0Bits(a);
  }

  lemma Digit1(a: Byte, b: Byte)
    ensures DigitBits(V1(a, b)) == ByteBits(a)[5..] + ByteBits(b)[..2]
  {
    V1Bits(a, b);
    JoinsOf(a, b);
  }

  lemma Digit2(b: Byte)
    ensures DigitBits(V2(b)) == ByteBits(b)[2..7]
  {
    Stretches(ByteBits(b));
    V2Bits(b);
  }

  lemma Digit3(b: Byte, c: Byte)
    ensures DigitBits(V3(b, c)) == ByteBits(b)[7..] + ByteBits(c)[..4]
  {
    V3Bits(b, c);
    JoinsOf(b, c);
  }

  lemma Digit4(c: Byte, d: Byte)
    ensures DigitBits(V4(c, d)) == ByteBits(c)[4..] + ByteBits(d)[..1]
  {
    V4Bits(c, d);
    JoinsOf(c, d);
  }

  lemma Digit5(d: Byte)
    ensures DigitBits(V5(d)) == ByteBits(d)[1..6]
  {
    Stretches(ByteBits(d));
    V5Bits(d);
  }

  lemma Digit6(d: Byte, e: Byte)
    ensures DigitBits(V6(d, e)) == ByteBits(d)[6..] + ByteBits(e)[..3]
  {
    V6Bits(d, e);
    JoinsOf(d, e);
  }

  lemma Digit7(e: Byte)
    ensures DigitBits(V7(e)) == ByteBits(e)[3..]
  {
    Stretches(ByteBits(e));
    V7Bits(e);
  }

  /** The digit values of a group of five bytes. */
  function Eight(a: Byte, b: Byte, c: Byte, d: Byte, e: Byte): (v: seq<Byte>)
    ensures |v| == 8
  {
    [V0(a), V1(a, b), V2(b), V3(b, c), V4(c, d), V5(d), V6(d, e), V7(e)]
  }

  lemma Cut(x: seq<bool>, i: nat, rest: seq<bool>)
    requires i <= |x|
    ensures x[..i] + (x[i..] + rest) == x + rest
  {
  }

  lemma Cut3(x: seq<bool>, i: nat, j: nat, rest: seq<bool>)
    requires i <= j <= |x|
    ensures x[..i] + (x[i..j] + (x[j..] + rest)) == x + rest
  {
  }

  lemma Zeros(m: nat, n: nat)
    ensures ZeroBits(m) + ZeroBits(n) == ZeroBits(m + n)
  {
  }

  /** Two bytes' worth of digits, bits regrouped at the seam. */
  lemma FirstHalf(a: Byte, b: Byte, c: Byte, rest: seq<bool>)
    ensures DigitBits(V0(a)) + (DigitBits(V1(a, b)) + (DigitBits(V2(b)) + (DigitBits(V3(b, c)) + rest)))
            == ByteBits(a) + (ByteBits(b) + (ByteBits(c)[..4] + rest))
  {
    var x, y, z := ByteBits(a), ByteBits(b), ByteBits(c);
    Digit0(a);
    Digit1(a, b);
    Digit2(b);
    Digit3(b, c);
    Regroup(y[7..], z[..4], rest);
    Regroup(x[5..], y[..2], y[2..7] + (y[7..] + (z[..4] + rest)));
    Cut3(y, 2, 7, z[..4] + rest);
    Cut(x, 5, y + (z[..4] + rest));
  }

  lemma SecondHalf(c: Byte, d: Byte, e: Byte)
    ensures DigitBits(V4(c, d)) + (DigitBits(V5(d)) + (DigitBits(V6(d, e)) + (DigitBits(V7(e)) + [])))
            == ByteBits(c)[4..] + (ByteBits(d) + (ByteBits(e) + []))
  {
    var x, y, z := ByteBits(c), ByteBits(d), ByteBits(e);
    Digit4(c, d);
    Digit5(d);
    Digit6(d, e);
    Digit7(e);
    Regroup(y[6..], z[..3], z[3..] + []);
    Cut(z, 3, []);
    Regroup(x[4..], y[..1], y[1..6] + (y[6..] + (z + [])));
    Cut3(y, 1, 6, z + []);
  }

  lemma AllDigitBitsOf(v: seq<Byte>)
    requires v != []
    ensures AllDigitBits(v) == DigitBits(v[0]) + AllDigitBits(v[1..])
  {
  }

  lemma FourDigits(p: Byte, q: Byte, r: Byte, s: Byte, rest: seq<Byte>)
    ensures AllDigitBits([p, q, r, s] + rest)
            == DigitBits(p) + (DigitBits(q) + (DigitBits(r) + (DigitBits(s) + AllDigitBits(rest))))
  {
    assert ([p, q, r, s] + rest)[1..] == [q, r, s] + rest;
    assert ([q, r, s] + rest)[1..] == [r, s] + rest;
    assert ([r, s] + rest)[1..] == [s] + rest;
    assert ([s] + rest)[1..] == rest;
    AllDigitBitsOf([p, q, r, s] + rest);
    AllDigitBitsOf([q, r, s] + rest);
    AllDigitBitsOf([r, s] + rest);
    AllDigitBitsOf([s] + rest);
  }

  /** The eight digits of five bytes hold the bytes' forty bits in order. */
  lemma EightBits(a: Byte, b: Byte, c: Byte, d: Byte, e: Byte)
    ensures AllDigitBits(Eight(a, b, c, d, e))
            == ByteBits(a) + (ByteBits(b) + (ByteBits(c) + (ByteBits(d) + (ByteBits(e) + []))))
  {
    var high := [V0(a), V1(a, b), V2(b), V3(b, c)];
    var low := [V4(c, d), V5(d), V6(d, e), V7(e)];
    assert Eight(a, b, c, d, e) == high + low;
    assert low + [] == low;
    FourDigits(V0(a), V1(a, b), V2(b), V3(b, c), low);
    FourDigits(V4(c, d), V5(d), V6(d, e), V7(e), []);
    SecondHalf(c, d, e);
    FirstHalf(a, b, c, AllDigitBits(low));
    Cut(ByteBits(c), 4, ByteBits(d) + (ByteBits(e) + []));
  }

  lemma {:induction false} BitsAppend(x: seq<Byte>, y: seq<Byte>)
    ensures Bits(x + y) == Bits(x) + Bits(y)
  {
    if x == [] {
      assert x + y == y;
    } else {
      assert (x + y)[1..] == x[1..] + y;
      BitsAppend(x[1..], y);
      Regroup(ByteBits(x[0]), Bits(x[1..]), Bits(y));
    }
  }

  lemma ZeroByte()
    ensures ByteBits(0) == ZeroBits(8)
  {
  }

  function ZeroBytes(n: nat): (r: seq<Byte>)
    ensures |r| == n
    ensures forall i :: 0 <= i < n ==> r[i] == 0
  {
    if n == 0 then [] else [0] + ZeroBytes(n - 1)
  }

  lemma {:induction false} BitsOfZeros(n: nat)
    ensures Bits(ZeroBytes(n)) == ZeroBits(8 * n)
  {
    if n != 0 {
      assert ZeroBytes(n)[1..] == ZeroBytes(n - 1);
      BitsOfZeros(n - 1);
      ZeroByte();
      Zeros(8, 8 * (n - 1));
    }
  }

  lemma {:induction false} DigitBitsPrefix(v: seq<Byte>, k: nat)
    requires k <= |v|
    ensures AllDigitBits(v[..k]) == AllDigitBits(v)[..5 * k]
  {
    if k == 0 {
    } else {
      assert v[..k][1..] == v[1..][..k - 1];
      AllDigitBitsOf(v);
      AllDigitBitsOf(v[..k]);
      DigitBitsPrefix(v[1..], k - 1);
      var x, y := DigitBits(v[0]), AllDigitBits(v[1..]);
      assert (x + y)[..5 * k] == x + y[..5 * (k - 1)];
    }
  }

  lemma {:induction false} DigitBitsAppend(x: seq<Byte>, y: seq<Byte>)
    ensures AllDigitBits(x + y) == AllDigitBits(x) + AllDigitBits(y)
  {
    if x == [] {
      assert x + y == y;
    } else {
      assert (x + y)[1..] == x[1..] + y;
      AllDigitBitsOf(x + y);
      AllDigitBitsOf(x);
      DigitBitsAppend(x[1..], y);
      Regroup(DigitBits(x[0]), AllDigitBits(x[1..]), AllDigitBits(y));
    }
  }

  /** How many digits it takes to hold the bits of n bytes. */
  function DigitCount(n: nat): (k: nat)
    ensures 5 * k - 4 <= 8 * n <= 5 * k
  {
    (8 * n + 4) / 5
  }

  function FullGroup(g: seq<Byte>): (v: seq<Byte>)
    requires |g| == 5
    ensures |v| == 8
  {
    Eight(g[0], g[1], g[2], g[3], g[4])
  }

  lemma FullGroupBits(g: seq<Byte>)
    requires |g| == 5
    ensures AllDigitBits(FullGroup(g)) == Bits(g)
  {
    EightBits(g[0], g[1], g[2], g[3], g[4]);
    assert g[1..][1..] == g[2..] && g[2..][1..] == g[3..] && g[3..][1..] == g[4..] && g[4..][1..] == [];
    BitsOf(g);
    BitsOf(g[1..]);
    BitsOf(g[2..]);
    BitsOf(g[3..]);
    BitsOf(g[4..]);
  }

  lemma BitsOf(x: seq<Byte>)
    requires x != []
    ensures Bits(x) == ByteBits(x[0]) + Bits(x[1..])
  {
  }

  /** The digit values of a group of up to five bytes; missing bits are zeros. */
  function Group(g: seq<Byte>): (v: seq<Byte>)
    requires |g| <= 5
    ensures |v| == DigitCount(|g|)
  {
    FullGroup(g + ZeroBytes(5 - |g|))[..DigitCount(|g|)]
  }

  /** These digits hold the bits of these bytes and `pad` zeros. */
  predicate Holds(values: seq<Byte>, bytes: seq<Byte>, pad: nat) {
    AllDigitBits(values) == Bits(bytes) + ZeroBits(pad)
  }

  /** What the last digit has too many. */
  function Padding(n: nat): (pad: nat)
    ensures pad < 5 && 8 * n + pad == 5 * DigitCount(n)
  {
    5 * DigitCount(n) - 8 * n
  }

  lemma PaddedPrefix(x: seq<bool>, m: nat, n: nat)
    requires n <= m
    ensures (x + ZeroBits(m))[..|x| + n] == x + ZeroBits(n)
  {
  }

  lemma PaddedGroup(g: seq<Byte>, m: nat)
    requires |g| + m == 5
    ensures AllDigitBits(FullGroup(g + ZeroBytes(m))) == Bits(g) + ZeroBits(8 * m)
  {
    FullGroupBits(g + ZeroBytes(m));
    BitsAppend(g, ZeroBytes(m));
    BitsOfZeros(m);
  }

  lemma FirstDigits(v: seq<Byte>, k: nat, x: seq<bool>, m: nat, n: nat)
    requires k <= |v| && AllDigitBits(v) == x + ZeroBits(m)
    requires |x| + n == 5 * k && n <= m
    ensures AllDigitBits(v[..k]) == x + ZeroBits(n)
  {
    DigitBitsPrefix(v, k);
    PaddedPrefix(x, m, n);
  }

  lemma GroupBitsOf(g: seq<Byte>, k: nat, m: nat, n: nat)
    requires |g| + m == 5 && k <= 8 && 8 * |g| + n == 5 * k
    ensures AllDigitBits(FullGroup(g + ZeroBytes(m))[..k]) == Bits(g) + ZeroBits(n)
  {
    PaddedGroup(g, m);
    FirstDigits(FullGroup(g + ZeroBytes(m)), k, Bits(g), 8 * m, n);
  }

  lemma GroupBits(g: seq<Byte>)
    requires |g| <= 5
    ensures Holds(Group(g), g, Padding(|g|))
  {
    GroupBitsOf(g, DigitCount(|g|), 5 - |g|, Padding(|g|));
  }

  /** The digit values of any bytes, group by group. */
  function Values(bytes: seq<Byte>): (v: seq<Byte>)
    ensures |v| == DigitCount(|bytes|)
  {
    if |bytes| <= 5 then Group(bytes) else Group(bytes[..5]) + Values(bytes[5..])
  }

  lemma PutTogether(gv: seq<Byte>, rv: seq<Byte>, g: seq<Byte>, rest: seq<Byte>, pad: nat)
    requires Holds(gv, g, 0) && Holds(rv, rest, pad)
    ensures Holds(gv + rv, g + rest, pad)
  {
    DigitBitsAppend(gv, rv);
    BitsAppend(g, rest);
    assert Bits(g) + ZeroBits(0) == Bits(g);
    Regroup(Bits(g), Bits(rest), ZeroBits(pad));
  }

  lemma WholeGroup(g: seq<Byte>)
    requires |g| == 5
    ensures Holds(Group(g), g, 0)
  {
    GroupBits(g);
  }

  lemma PaddingOfRest(n: nat)
    requires n > 5
    ensures Padding(n) == Padding(n - 5)
  {
  }

  /** The digits' bits are the input's bits, padded with fewer than five zeros. */
  lemma {:induction false} ValuesHoldBits(bytes: seq<Byte>)
    ensures Holds(Values(bytes), bytes, Padding(|bytes|))
    decreases |bytes|
  {
    if |bytes| <= 5 {
      GroupBits(bytes);
    } else {
      var g, rest := bytes[..5], bytes[5..];
      WholeGroup(g);
      ValuesHoldBits(rest);
      PaddingOfRest(|bytes|);
      PutTogether(Group(g), Values(rest), g, rest, Padding(|rest|));
      assert bytes == g + rest;
    }
  }

  // Back from digits to bytes.

  function Where(isSet: bool, m: Byte): Byte {
    if isSet then m else 0
  }

  function ByteOf(b: seq<bool>): Byte
    requires |b| == 8
  {
    Where(b[0], 0x80) | Where(b[1], 0x40) | Where(b[2], 0x20) | Where(b[3], 0x10)
    | Where(b[4], 8) | Where(b[5], 4) | Where(b[6], 2) | Where(b[7], 1)
  }

  lemma FromBits(b: Byte)
    ensures Where(Bit(b, 0x80), 0x80) | Where(Bit(b, 0x40), 0x40) | Where(Bit(b, 0x20), 0x20)
            | Where(Bit(b, 0x10), 0x10) | Where(Bit(b, 8), 8) | Where(Bit(b, 4), 4) | Where(Bit(b, 2), 2)
            | Where(Bit(b, 1), 1) == b
  {
  }

  lemma ByteOfBits(b: Byte)
    ensures ByteOf(ByteBits(b)) == b
  {
    BitAt(b);
    FromBits(b);
  }

  function BytesOf(n: nat, bits: seq<bool>): (r: seq<Byte>)
    requires 8 * n <= |bits|
    ensures |r| == n
  {
    if n == 0 then [] else [ByteOf(bits[..8])] + BytesOf(n - 1, bits[8..])
  }

  lemma {:induction false} BytesOfBits(bytes: seq<Byte>, more: seq<bool>)
    ensures BytesOf(|bytes|, Bits(bytes) + more) == bytes
  {
    if bytes != [] {
      var x, rest := ByteBits(bytes[0]), Bits(bytes[1..]) + more;
      BitsOf(bytes);
      Regroup(x, Bits(bytes[1..]), more);
      assert (x + rest)[..8] == x && (x + rest)[8..] == rest;
      ByteOfBits(bytes[0]);
      BytesOfBits(bytes[1..], more);
    }
  }

  // The digits themselves.

  predicate InRange(values: seq<Byte>) {
    forall i :: 0 <= i < |values| ==> IsValue(values[i])
  }

  lemma EightInRange(a: Byte, b: Byte, c: Byte, d: Byte, e: Byte)
    ensures InRange(Eight(a, b, c, d, e))
  {
    ValuesFit(a, b);
    ValuesFit(b, c);
    ValuesFit(c, d);
    ValuesFit(d, e);
    ValuesFit(e, 0);
  }

  lemma GroupInRange(g: seq<Byte>)
    requires |g| <= 5
    ensures InRange(Group(g))
  {
    var f := g + ZeroBytes(5 - |g|);
    EightInRange(f[0], f[1], f[2], f[3], f[4]);
  }

  /** Every value may be looked up in the alphabet. */
  lemma {:induction false} ValuesInRange(bytes: seq<Byte>)
    ensures InRange(Values(bytes))
    decreases |bytes|
  {
    if |bytes| <= 5 {
      GroupInRange(bytes);
    } else {
      GroupInRange(bytes[..5]);
      ValuesInRange(bytes[5..]);
    }
  }

  function ValueToDigit(value: Byte): (c: char)
    requires IsValue(value)
  {
    ALPHABET[value as int]
  }

  function Digits(values: seq<Byte>): (r: seq<char>)
    requires InRange(values)
    ensures |r| == |values|
    ensures forall i :: 0 <= i < |r| ==> r[i] == ValueToDigit(values[i])
  {
    seq(|values|, i requires 0 <= i < |values| => ValueToDigit(values[i]))
  }

  function Encode(bytes: seq<Byte>): (r: seq<char>)
    ensures |r| == DigitCount(|bytes|)
  {
    ValuesInRange(bytes);
    Digits(Values(bytes))
  }

  /** Digits and lower-case letters, without the four easily misread ones. */
  predicate IsDigit(c: char) {
    ('0' <= c <= '9' || 'a' <= c <= 'z') && c != 'i' && c != 'l' && c != 'o' && c != 'u'
  }

  /** The rank of a character among the digits: how many of the digits come before it. */
  function Rank(c: char): (r: nat)
    requires IsDigit(c)
    ensures r < 0x20
  {
    if c <= '9' then c as int - '0' as int
    else 10 + (c as int - 'a' as int)
         - (if c > 'i' then 1 else 0) - (if c > 'l' then 1 else 0)
         - (if c > 'o' then 1 else 0) - (if c > 'u' then 1 else 0)
  }

  /** The list of digits is exactly the alphabet in order, each digit once. */
  lemma DigitOfRank(k: nat)
    requires k < 0x20
    ensures IsDigit(ALPHABET[k]) && Rank(ALPHABET[k]) == k
  {
  }

  lemma RankOfDigit(c: char)
    requires IsDigit(c)
    ensures ALPHABET[Rank(c)] == c
  {
  }

  /** Nothing but digits is in the alphabet, and every digit is. */
  lemma AlphabetIsDigits(c: char)
    ensures c in ALPHABET <==> IsDigit(c)
  {
    if IsDigit(c) {
      RankOfDigit(c);
    } else if c in ALPHABET {
      var k :| 0 <= k < |ALPHABET| && ALPHABET[k] == c;
      DigitOfRank(k);
    }
  }

  function DigitToValue(c: char): (v: Byte)
    requires IsDigit(c)
  {
    Rank(c) as Byte
  }

  lemma DigitRoundTrip(v: Byte)
    requires IsValue(v)
    ensures IsDigit(ValueToDigit(v)) && DigitToValue(ValueToDigit(v)) == v
  {
    DigitOfRank(v as int);
  }

  predicate AllDigits(s: seq<char>) {
    forall i :: 0 <= i < |s| ==> IsDigit(s[i])
  }

  function DigitValues(s: seq<char>): (r: seq<Byte>)
    requires AllDigits(s)
    ensures |r| == |s|
    ensures forall i :: 0 <= i < |r| ==> r[i] == DigitToValue(s[i])
  {
    seq(|s|, i requires 0 <= i < |s| => DigitToValue(s[i]))
  }

  /** A decoder that is told how many bytes there are. */
  function Decode(n: nat, s: seq<char>): (bytes: seq<Byte>)
    requires AllDigits(s) && |s| == DigitCount(n)
    ensures |bytes| == n
  {
    BytesOf(n, AllDigitBits(DigitValues(s)))
  }

  lemma DigitsBack(values: seq<Byte>)
    requires InRange(values)
    ensures AllDigits(Digits(values)) && DigitValues(Digits(values)) == values
  {
    forall i | 0 <= i < |values| ensures IsDigit(Digits(values)[i]) && DigitToValue(Digits(values)[i]) == values[i] {
      DigitRoundTrip(values[i]);
    }
  }

  /** Decoding the digits gives the bytes back. */
  lemma DecodeEncode(bytes: seq<Byte>)
    ensures AllDigits(Encode(bytes))
    ensures Decode(|bytes|, Encode(bytes)) == bytes
  {
    ValuesInRange(bytes);
    DigitsBack(Values(bytes));
    ValuesHoldBits(bytes);
    BytesOfBits(bytes, ZeroBits(Padding(|bytes|)));
  }

  /** Different bytes, of the same length or not, have different digits. */
  lemma EncodeInjective(x: seq<Byte>, y: seq<Byte>)
    requires Encode(x) == Encode(y)
    ensures x == y
  {
    assert DigitCount(|x|) == DigitCount(|y|);
    assert |x| == |y|;
    DecodeEncode(x);
    DecodeEncode(y);
  }

  // The calls.

  datatype HResult = Ok | InvalidArg | ArithmeticOverflow

  lemma DivideCancels(d1: nat, d2: nat, max: nat)
    requires d2 != 0
    ensures d1 <= max / d2 <==> d1 * d2 <= max
  {
    var q, r := max / d2, max % d2;
    assert max == q * d2 + r;
    if d1 <= q {
      assert d1 * d2 <= q * d2;
    } else {
      assert d1 * d2 >= (q + 1) * d2;
    }
  }

  /** The product wraps at 32 bits; the call fails exactly when it did. */
  method Multiply(d1: nat, d2: nat) returns (hr: HResult, result: nat)
    requires d1 <= MAX_VALUE && d2 <= MAX_VALUE
    ensures result == (d1 * d2) % (MAX_VALUE + 1)
    ensures hr == if d1 * d2 <= MAX_VALUE then Ok else ArithmeticOverflow
  {
    result := (d1 * d2) % (MAX_VALUE + 1);
    if d2 == 0 {
      return Ok, result;
    }
    DivideCancels(d1, d2, MAX_VALUE);
    if d1 <= MAX_VALUE / d2 {
      return Ok, result;
    }
    return ArithmeticOverflow, result;
  }

  /** The number of digits, unless the number of bits does not fit in 32 bits. */
  method GetCharCount(byteCount: nat) returns (hr: HResult, wcharCount: nat)
    requires byteCount <= MAX_VALUE
    ensures hr == if 8 * byteCount <= MAX_VALUE then Ok else ArithmeticOverflow
    ensures hr.Ok? ==> wcharCount == DigitCount(byteCount)
  {
    hr, wcharCount := Ok, 0;
    if byteCount != 0 {
      var bitCount;
      hr, bitCount := Multiply(byteCount, 8);
      if !hr.Ok? {
        return;
      }
      wcharCount := bitCount / 5;
      if bitCount % 5 > 0 {
        wcharCount := wcharCount + 1;
      }
    }
  }

  function ByteAt(bytes: seq<Byte>, i: nat): Byte {
    if i < |bytes| then bytes[i] else 0
  }

  lemma GroupFilled(g: seq<Byte>)
    requires 1 <= |g| <= 5
    ensures Group(g) == Eight(g[0], ByteAt(g, 1), ByteAt(g, 2), ByteAt(g, 3), ByteAt(g, 4))[..DigitCount(|g|)]
  {
    var f := g + ZeroBytes(5 - |g|);
    assert f[1] == ByteAt(g, 1) && f[2] == ByteAt(g, 2) && f[3] == ByteAt(g, 3) && f[4] == ByteAt(g, 4);
  }

  /** The digits of a group, one by one: two, four, five, seven or eight of them. */
  lemma GroupDigits(g: seq<Byte>)
    requires 1 <= |g| <= 5
    ensures |Group(g)| == if |g| == 1 then 2 else if |g| == 2 then 4 else if |g| == 3 then 5 else if |g| == 4 then 7 else 8
    ensures Group(g)[0] == V0(g[0]) && Group(g)[1] == V1(g[0], ByteAt(g, 1))
    ensures 1 < |g| ==> Group(g)[2] == V2(g[1]) && Group(g)[3] == V3(g[1], ByteAt(g, 2))
    ensures 2 < |g| ==> Group(g)[4] == V4(g[2], ByteAt(g, 3))
    ensures 3 < |g| ==> Group(g)[5] == V5(g[3]) && Group(g)[6] == V6(g[3], ByteAt(g, 4))
    ensures 4 < |g| ==> Group(g)[7] == V7(g[4])
  {
    GroupFilled(g);
  }

  /** Writes the next of the digits to be written. */
  method Put(wchars: array<char>, wcharsIdx: nat, value: Byte, ghost all: seq<char>) returns (next: nat)
    requires wcharsIdx < |all| <= wchars.Length && wchars[..wcharsIdx] == all[..wcharsIdx]
    requires IsValue(value) && all[wcharsIdx] == ValueToDigit(value)
    modifies wchars
    ensures next == wcharsIdx + 1 && wchars[..next] == all[..next]
    ensures wchars[|all|..] == old(wchars[|all|..])
  {
    wchars[wcharsIdx] := ValueToDigit(value);
    next := wcharsIdx + 1;
  }

  /** These values' digits come next. */
  predicate Next(all: seq<char>, start: nat, values: seq<Byte>) {
    && InRange(values)
    && start + |values| <= |all|
    && forall i :: 0 <= i < |values| ==> all[start + i] == ValueToDigit(values[i])
  }

  lemma NextSplit(all: seq<char>, start: nat, x: seq<Byte>, y: seq<Byte>)
    requires Next(all, start, x + y)
    ensures Next(all, start, x) && Next(all, start + |x|, y)
  {
    var v := x + y;
    forall i | 0 <= i < |x| ensures IsValue(x[i]) && all[start + i] == ValueToDigit(x[i]) {
      assert v[i] == x[i];
    }
    forall i | 0 <= i < |y| ensures IsValue(y[i]) && all[start + |x| + i] == ValueToDigit(y[i]) {
      assert v[|x| + i] == y[i];
    }
  }

  /** From here to the end come the digits of the rest of the bytes. */
  predicate Remaining(all: seq<char>, start: nat, rest: seq<Byte>) {
    Next(all, start, Values(rest)) && start + |Values(rest)| == |all|
  }

  lemma AllRemain(bytes: seq<Byte>)
    ensures Remaining(Encode(bytes), 0, bytes)
  {
    ValuesInRange(bytes);
  }

  function FirstGroup(rest: seq<Byte>): (g: seq<Byte>)
    ensures |g| <= 5 && (rest != [] ==> g != [])
  {
    if |rest| <= 5 then rest else rest[..5]
  }

  function AfterGroup(rest: seq<Byte>): (more: seq<Byte>) {
    if |rest| <= 5 then [] else rest[5..]
  }

  lemma ValuesSplit(rest: seq<Byte>)
    ensures Values(rest) == Group(FirstGroup(rest)) + Values(AfterGroup(rest))
  {
  }

  lemma GroupNext(all: seq<char>, start: nat, rest: seq<Byte>)
    requires Remaining(all, start, rest)
    ensures Next(all, start, Group(FirstGroup(rest)))
    ensures Remaining(all, start + |Group(FirstGroup(rest))|, AfterGroup(rest))
  {
    ValuesSplit(rest);
    NextSplit(all, start, Group(FirstGroup(rest)), Values(AfterGroup(rest)));
  }

  lemma NextOne(all: seq<char>, start: nat, values: seq<Byte>, i: nat)
    requires Next(all, start, values) && i < |values|
    ensures IsValue(values[i]) && start + i < |all| && all[start + i] == ValueToDigit(values[i])
  {
  }

  /** One turn of the loop: the digits of one group. */
  method PutGroup(g: seq<Byte>, wchars: array<char>, start: nat, ghost all: seq<char>) returns (wcharsIdx: nat)
    requires 1 <= |g| <= 5 && |all| <= wchars.Length && Next(all, start, Group(g))
    requires wchars[..start] == all[..start]
    modifies wchars
    ensures wcharsIdx == start + DigitCount(|g|)
    ensures wchars[..wcharsIdx] == all[..wcharsIdx]
    ensures wchars[|all|..] == old(wchars[|all|..])
  {
    var v := Group(g);
    GroupDigits(g);
    NextOne(all, start, v, 0);
    NextOne(all, start, v, 1);
    var secondByte := ByteAt(g, 1);
    wcharsIdx := Put(wchars, start, V0(g[0]), all);
    wcharsIdx := Put(wchars, wcharsIdx, V1(g[0], secondByte), all);
    if 1 < |g| {
      NextOne(all, start, v, 2);
      NextOne(all, start, v, 3);
      var thirdByte := ByteAt(g, 2);
      wcharsIdx := Put(wchars, wcharsIdx, V2(secondByte), all);
      wcharsIdx := Put(wchars, wcharsIdx, V3(secondByte, thirdByte), all);
      if 2 < |g| {
        NextOne(all, start, v, 4);
        var fourthByte := ByteAt(g, 3);
        wcharsIdx := Put(wchars, wcharsIdx, V4(thirdByte, fourthByte), all);
        if 3 < |g| {
          NextOne(all, start, v, 5);
          NextOne(all, start, v, 6);
          var fifthByte := ByteAt(g, 4);
          wcharsIdx := Put(wchars, wcharsIdx, V5(fourthByte), all);
          wcharsIdx := Put(wchars, wcharsIdx, V6(fourthByte, fifthByte), all);
          if 4 < |g| {
            NextOne(all, start, v, 7);
            wcharsIdx := Put(wchars, wcharsIdx, V7(fifthByte), all);
          }
        }
      }
    }
  }

  /** The bytes from `byteIdx` on; the last step may go past the end. */
  function From(bytes: seq<Byte>, byteIdx: nat): (rest: seq<Byte>) {
    if byteIdx < |bytes| then bytes[byteIdx..] else []
  }

  lemma FromNext(bytes: seq<Byte>, byteIdx: nat)
    requires byteIdx < |bytes|
    ensures From(bytes, byteIdx + 5) == AfterGroup(From(bytes, byteIdx))
  {
  }

  /** The loop over groups of five bytes. */
  method PutAll(bytes: seq<Byte>, wcharCount: nat, wchars: array<char>)
    requires wcharCount == DigitCount(|bytes|) <= wchars.Length
    modifies wchars
    ensures wchars[..wcharCount] == Encode(bytes)
    ensures wchars[wcharCount..] == old(wchars[wcharCount..])
  {
    ghost var all := Encode(bytes);
    AllRemain(bytes);
    var wcharsIdx: nat, byteIdx: nat := 0, 0;
    while byteIdx < |bytes|
      invariant wcharsIdx <= wcharCount && wchars[..wcharsIdx] == all[..wcharsIdx]
      invariant Remaining(all, wcharsIdx, From(bytes, byteIdx))
      invariant wchars[wcharCount..] == old(wchars[wcharCount..])
    {
      GroupNext(all, wcharsIdx, bytes[byteIdx..]);
      FromNext(bytes, byteIdx);
      var g := FirstGroup(bytes[byteIdx..]);
      wcharsIdx := PutGroup(g, wchars, wcharsIdx, all);
      byteIdx := byteIdx + 5;
    }
    assert wcharsIdx == |all|;
  }

  /**
   * On success the first `wcharCount` places have the digits of the bytes and the others are as
   * they were; on failure nothing is written.
   */
  method GetChars(bytes: seq<Byte>, maxWCharCount: nat, wchars: array<char>) returns (hr: HResult, wcharCount: nat)
    requires |bytes| <= MAX_VALUE && maxWCharCount <= MAX_VALUE && maxWCharCount <= wchars.Length
    modifies wchars
    ensures hr == if 8 * |bytes| > MAX_VALUE then ArithmeticOverflow
                  else if DigitCount(|bytes|) > maxWCharCount || 2 * maxWCharCount > MAX_VALUE then InvalidArg
                  else Ok
    ensures hr.Ok? ==> wcharCount == DigitCount(|bytes|) && wchars[..wcharCount] == Encode(bytes)
    ensures hr.Ok? ==> wchars[wcharCount..] == old(wchars[wcharCount..])
    ensures !hr.Ok? ==> wchars[..] == old(wchars[..])
  {
    hr, wcharCount := GetCharCount(|bytes|);
    if !hr.Ok? {
      return;
    }
    if wcharCount > maxWCharCount {
      return InvalidArg, wcharCount;
    }
    if maxWCharCount > MAX_VALUE / 2 {
      return InvalidArg, wcharCount;
    }
    PutAll(bytes, wcharCount, wchars);
  }
}
