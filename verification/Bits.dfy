/** Bytes as numbers, and the order in which deflate packs bits into them. */
module Bits {
  import opened Arith

  type Octet = b: nat | b < 256

  /** The low n bits of a number, the least significant first: section 3.1.1 of RFC 1951. */
  function NumberBits(x: nat, n: nat): (r: seq<bool>)
    ensures |r| == n
    decreases n, x
  {
    if n == 0 then [] else [x % 2 == 1] + NumberBits(x / 2, n - 1)
  }

  function Number(r: seq<bool>): (x: nat)
    ensures x < Pow2(|r|)
  {
    if r == [] then 0 else (if r[0] then 1 else 0) + 2 * Number(r[1..])
  }

  lemma {:induction false} NumberOfBits(x: nat, n: nat)
    requires x < Pow2(n)
    ensures Number(NumberBits(x, n)) == x
    decreases n
  {
    if n > 0 {
      NumberOfBits(x / 2, n - 1);
      assert NumberBits(x, n)[1..] == NumberBits(x / 2, n - 1);
    }
  }

  lemma {:induction false} BitsOfNumber(r: seq<bool>)
    ensures NumberBits(Number(r), |r|) == r
  {
    if r != [] {
      BitsOfNumber(r[1..]);
      assert [r[0]] + r[1..] == r;
    }
  }

  lemma PowerEight()
    ensures Pow2(8) == 256
  {
    assert Pow2(4) == 16;
  }

  function ByteBits(b: Octet): (r: seq<bool>)
    ensures |r| == 8
  {
    NumberBits(b, 8)
  }

  function ByteOf(r: seq<bool>): Octet
    requires |r| == 8
  {
    PowerEight();
    Number(r)
  }

  lemma ByteOfBits(b: Octet)
    ensures ByteOf(ByteBits(b)) == b
  {
    PowerEight();
    NumberOfBits(b, 8);
  }

  lemma BitsOfByte(r: seq<bool>)
    requires |r| == 8
    ensures ByteBits(ByteOf(r)) == r
  {
    BitsOfNumber(r);
  }

  /** The bits of a sequence of bytes. */
  function AllBits(s: seq<Octet>): (r: seq<bool>)
    ensures |r| == 8 * |s|
  {
    if s == [] then [] else AllBits(s[..|s| - 1]) + ByteBits(s[|s| - 1])
  }

  lemma {:induction false} AllBitsConcat(s: seq<Octet>, t: seq<Octet>)
    ensures AllBits(s + t) == AllBits(s) + AllBits(t)
    decreases |t|
  {
    if t == [] {
      assert s + t == s;
    } else {
      AllBitsConcat(s, t[..|t| - 1]);
      assert (s + t)[..|s + t| - 1] == s + t[..|t| - 1];
    }
  }

  /** The bytes that whole groups of eight bits make. */
  function Pack(r: seq<bool>): (s: seq<Octet>)
    requires |r| % 8 == 0
    ensures 8 * |s| == |r|
  {
    if r == [] then [] else Pack(r[..|r| - 8]) + [ByteOf(r[|r| - 8..])]
  }

  lemma {:induction false} PackBits(r: seq<bool>)
    requires |r| % 8 == 0
    ensures AllBits(Pack(r)) == r
    decreases |r|
  {
    if r != [] {
      var s := Pack(r);
      PackBits(r[..|r| - 8]);
      BitsOfByte(r[|r| - 8..]);
      assert s[..|s| - 1] == Pack(r[..|r| - 8]);
      assert r[..|r| - 8] + r[|r| - 8..] == r;
    }
  }

  lemma {:induction false} BitsPack(s: seq<Octet>)
    ensures |AllBits(s)| % 8 == 0 && Pack(AllBits(s)) == s
    decreases |s|
  {
    if s != [] {
      var t, b := s[..|s| - 1], s[|s| - 1];
      var r := AllBits(s);
      BitsPack(t);
      ByteOfBits(b);
      assert r[..|r| - 8] == AllBits(t) && r[|r| - 8..] == ByteBits(b);
      assert t + [b] == s;
    }
  }

  function ZeroBits(n: nat): (r: seq<bool>)
    ensures |r| == n
  {
    seq(n, _ => false)
  }
}
