/**
 gzip and zlib streams: deflate() with the checksums of crc32.c and adler32.c, and what a reader of
 the complete output finds around the compressed body.
 */
module WrappedStreams {
  import opened Arith
  import opened Wrappers
  import opened DeflateCalls
  import opened CrcRegister
  import opened GzipHeader
  import opened DeflateStream
  import opened Bits
  import opened Adler32

  /** Unix, the default of zutil.h. */
  const OS_CODE: Byte := 3

  // gzip.

  /** A gzip stream for which a header was given. */
  function GzipSetup(wBits: bv32, level: nat, strategy: Strategy, head: GzHeader): (c: Setup)
    requires 8 <= wBits <= 15 && Valid(head)
    ensures Proper(c) && c.kind.GzipWrapped? && c.head == Some(head)
    ensures forall s :: c.Check(s) == Crc(0, s)
  {
    var c := Setup(GzipWrapped, wBits, level, strategy, None, Some(head), OS_CODE, 0, (v, s) => Crc(v, s));
    CrcInPieces(c);
    c
  }

  lemma CrcInPieces(c: Setup)
    requires c.start == 0 && forall v, s :: c.update(v, s) == Crc(v, s)
    ensures c.Check([]) == 0 && InPieces(c)
  {
    NotNot(0);
    forall x, y ensures OnePiece(c, x, y) {
      CrcConcat(x, y);
    }
  }

  /** A number from its bytes, the least significant first. */
  function NatOfLsb(s: seq<Byte>): nat {
    if s == [] then 0 else NatOf(s[0]) + 256 * NatOfLsb(s[1..])
  }

  function Power256(k: nat): (r: nat)
    ensures r >= 1
  {
    if k == 0 then 1 else 256 * Power256(k - 1)
  }

  lemma {:induction false} LsbBack(n: nat, k: nat)
    ensures NatOfLsb(LsbOf(n, k)) == n % Power256(k)
    decreases k, n
  {
    if k > 0 {
      LsbBack(n / 256, k - 1);
      NatBack(n % 256);
      assert LsbOf(n, k)[1..] == LsbOf(n / 256, k - 1);
      RemainderInPieces(n, Power256(k - 1));
    }
  }

  lemma RemainderInPieces(n: nat, m: nat)
    requires m >= 1
    ensures n % 256 + 256 * ((n / 256) % m) == n % (256 * m)
  {
    var q, r := (n / 256) / m, (n / 256) % m;
    assert n / 256 == q * m + r;
    assert n == q * (256 * m) + (256 * r + n % 256);
    DivModUnique(n, 256 * m, q, 256 * r + n % 256);
  }

  lemma SizeBack(n: nat)
    ensures NatOfLsb(LsbOf(n, 4)) == n % 0x1_0000_0000
  {
    LsbBack(n, 4);
    assert Power256(4) == 256 * Power256(3) && Power256(3) == 256 * Power256(2) && Power256(2) == 65536;
  }

  /** What section 2.3 of RFC 1952 says of a member with this header, body and input. */
  predicate IsGzip(out: seq<Byte>, h: GzHeader, body: seq<Byte>, input: seq<Byte>) {
    var p := Read(out);
    && p.Some? && p.value.value == h && |p.value.rest| == |body| + 8 && p.value.rest[..|body|] == body
    && var t := p.value.rest[|body|..];
       WordOf(t[0], t[1], t[2], t[3]) == Crc(0, input) && NatOfLsb(t[4..]) == |input| % 0x1_0000_0000
  }

  lemma TrailerCut(body: seq<Byte>, x: seq<Byte>, y: seq<Byte>)
    requires |x| == 4
    ensures var s := body + (x + y);
            s[..|body|] == body && s[|body|..] == x + y && (x + y)[4..] == y && forall i :: 0 <= i < 4 ==> (x + y)[i] == x[i]
  {
  }

  /** A complete gzip stream can be read back from both ends. */
  lemma GzipIsRead(c: Setup, body: seq<Byte>, input: seq<Byte>)
    requires Proper(c) && c.kind.GzipWrapped? && c.head.Some? && c.Check(input) == Crc(0, input)
    ensures IsGzip(HeaderBytes(c) + body + Trailer(c, input), c.head.value, body, input)
  {
    var crc, size := Lsb(Crc(0, input)), LsbOf(|input|, 4);
    HeaderIsRead(c, body, crc + size);
    TrailerCut(body, crc, size);
    WordBack(Crc(0, input));
    SizeBack(|input|);
  }

  /** Any calls of deflate() on a gzip stream: once the last one says that it is the end, the output is a
      gzip member with the header given, and with the CRC and the size of all the input. */
  method RunGzip(wBits: bv32, level: nat, strategy: Strategy, head: GzHeader, size: nat, calls: seq<Call<Byte>>)
    returns (out: seq<Byte>, ghost body: seq<Byte>, code: Code)
    requires 8 <= wBits <= 15 && Valid(head) && 512 <= size
    ensures |out| <= AllRoom(calls)
    ensures calls != [] && code.StreamEnd? ==> IsGzip(out, head, body, AllInput(calls))
  {
    var c := GzipSetup(wBits, level, strategy, head);
    var s;
    s, code := Run(c, size, calls);
    out, body := s.out, s.body;
    GzipIsRead(c, body, AllInput(calls));
  }

  // zlib.

  function Octets(s: seq<Byte>): (r: seq<Octet>)
    ensures |r| == |s|
  {
    seq(|s|, i requires 0 <= i < |s| => s[i] as nat)
  }

  /** The two sums of section 8.2 of RFC 1950. */
  predicate Reduced(p: Sums) {
    p.s1 < BASE && p.s2 < BASE
  }

  function WordOfSums(p: Sums): bv32
    requires Reduced(p)
  {
    WordOf((p.s1 % 256) as Byte, (p.s1 / 256) as Byte, (p.s2 % 256) as Byte, (p.s2 / 256) as Byte)
  }

  function HalfOf(low: Byte, high: Byte): nat {
    NatOf(low) + 256 * NatOf(high)
  }

  function SumsOf(v: bv32): Sums {
    Sums(HalfOf(Lo(v), Byte1(v)), HalfOf(Byte2(v), Byte3(v)))
  }

  lemma BytesBack(a: Byte, b: Byte, c: Byte, d: Byte)
    ensures var v := WordOf(a, b, c, d); Lo(v) == a && Byte1(v) == b && Byte2(v) == c && Byte3(v) == d
  {
  }

  lemma HalfBack(n: nat)
    requires n < 65536
    ensures HalfOf((n % 256) as Byte, (n / 256) as Byte) == n
  {
    NatBack(n % 256);
    NatBack(n / 256);
  }

  lemma SumsBack(p: Sums)
    requires Reduced(p)
    ensures SumsOf(WordOfSums(p)) == p
  {
    BytesBack((p.s1 % 256) as Byte, (p.s1 / 256) as Byte, (p.s2 % 256) as Byte, (p.s2 / 256) as Byte);
    HalfBack(p.s1);
    HalfBack(p.s2);
  }

  lemma {:induction false} StaysReduced(p: Sums, s: seq<Octet>)
    requires Reduced(p)
    ensures Reduced(PerByte(p, s))
  {
    if s != [] {
      StaysReduced(p, s[..|s| - 1]);
    }
  }

  lemma {:induction false} PerByteConcat(p: Sums, x: seq<Octet>, y: seq<Octet>)
    ensures PerByte(PerByte(p, x), y) == PerByte(p, x + y)
    decreases |y|
  {
    if y == [] {
      assert x + y == x;
    } else {
      assert (x + y)[..|x + y| - 1] == x + y[..|y| - 1];
      PerByteConcat(p, x, y[..|y| - 1]);
    }
  }

  /** The Adler-32 checksum of the bytes. */
  function AdlerOf(s: seq<Byte>): (p: Sums)
    ensures Reduced(p)
  {
    StaysReduced(Sums(1, 0), Octets(s));
    PerByte(Sums(1, 0), Octets(s))
  }

  /** adler32() on a checksum as a word. */
  function AdlerOn(v: bv32, s: seq<Byte>): bv32 {
    if Reduced(SumsOf(v)) then
      StaysReduced(SumsOf(v), Octets(s));
      WordOfSums(PerByte(SumsOf(v), Octets(s)))
    else v
  }

  lemma AdlerPiece(x: seq<Byte>, y: seq<Byte>)
    ensures AdlerOn(WordOfSums(AdlerOf(x)), y) == WordOfSums(AdlerOf(x + y))
  {
    SumsBack(AdlerOf(x));
    PerByteConcat(Sums(1, 0), Octets(x), Octets(y));
    assert Octets(x + y) == Octets(x) + Octets(y);
  }

  lemma AdlerStart(s: seq<Byte>)
    ensures AdlerOn(WordOfSums(Sums(1, 0)), s) == WordOfSums(AdlerOf(s))
  {
    AdlerPiece([], s);
    assert [] + s == s && AdlerOf([]) == Sums(1, 0);
  }

  /** A zlib stream, perhaps with a dictionary. */
  function ZlibSetup(wBits: bv32, level: nat, strategy: Strategy, dictionary: Option<bv32>): (c: Setup)
    requires 8 <= wBits <= 15
    ensures Proper(c) && c.kind.ZlibWrapped? && c.wBits == wBits && c.dictionary == dictionary
    ensures c.level == level && c.strategy == strategy && forall s :: c.Check(s) == WordOfSums(AdlerOf(s))
  {
    var c := Setup(ZlibWrapped, wBits, level, strategy, dictionary, None, OS_CODE, WordOfSums(Sums(1, 0)),
                   (v, s) => AdlerOn(v, s));
    AdlerInPieces(c);
    c
  }

  lemma AdlerInPieces(c: Setup)
    requires c.start == WordOfSums(Sums(1, 0)) && forall v, s :: c.update(v, s) == AdlerOn(v, s)
    ensures c.Check([]) == c.start && InPieces(c) && forall s :: c.Check(s) == WordOfSums(AdlerOf(s))
  {
    forall s ensures c.Check(s) == WordOfSums(AdlerOf(s)) {
      AdlerStart(s);
    }
    forall x, y ensures OnePiece(c, x, y) {
      AdlerPiece(x, y);
    }
  }

  /** What section 2.2 of RFC 1950 says of a stream with this body and input. */
  predicate IsZlib(out: seq<Byte>, wBits: bv32, levelFlags: bv32, dictionary: Option<bv32>, body: seq<Byte>, input: seq<Byte>) {
    var start := if dictionary.Some? then 6 else 2;
    && |out| == start + |body| + 4 && out[start..start + |body|] == body
    && IsZlibWord(WordOf(out[1], out[0], 0, 0), wBits, levelFlags, dictionary.Some?)
    && (dictionary.Some? ==> WordOf(out[5], out[4], out[3], out[2]) == dictionary.value)
    && var t := out[start + |body|..];
       HalfOf(t[1], t[0]) == AdlerOf(input).s2 && HalfOf(t[3], t[2]) == AdlerOf(input).s1
  }

  /** CMF and FLG: the method, the window size, the level and the check bits. */
  predicate IsZlibWord(w: bv32, wBits: bv32, levelFlags: bv32, dictionary: bool) {
    && w % 31 == 0 && (w >> 8) & 0xf == 8 && w >> 12 == wBits - 8
    && (w >> 6) & 3 == levelFlags && (w & 0x20 != 0) == dictionary
  }

  lemma TwoBytes(w: bv32)
    requires w < 0x1_0000
    ensures WordOf(Lo(w), Byte1(w), 0, 0) == w
  {
  }

  lemma ZlibHeaderIsRead(wBits: bv32, levelFlags: bv32, dictionary: Option<bv32>)
    requires 8 <= wBits <= 15 && levelFlags < 4
    ensures var s := ZlibHeader(wBits, levelFlags, dictionary);
            && |s| == (if dictionary.Some? then 6 else 2)
            && IsZlibWord(WordOf(s[1], s[0], 0, 0), wBits, levelFlags, dictionary.Some?)
            && (dictionary.Some? ==> WordOf(s[5], s[4], s[3], s[2]) == dictionary.value)
  {
    ZlibWordReads(wBits, levelFlags, dictionary.Some?);
    TwoBytes(ZlibWord(wBits, levelFlags, dictionary.Some?));
    if dictionary.Some? {
      WordBack(dictionary.value);
    }
  }

  lemma TrailerAtEnd(head: seq<Byte>, body: seq<Byte>, t: seq<Byte>)
    ensures var s := head + body + t;
            s[|head|..|head| + |body|] == body && s[|head| + |body|..] == t
            && forall i :: 0 <= i < |head| ==> s[i] == head[i]
  {
  }

  lemma AdlerBack(p: Sums)
    requires Reduced(p)
    ensures var t := Msb(WordOfSums(p)); HalfOf(t[1], t[0]) == p.s2 && HalfOf(t[3], t[2]) == p.s1
  {
    SumsBack(p);
  }

  /** A complete zlib stream can be read back from both ends. */
  lemma ZlibIsRead(c: Setup, body: seq<Byte>, input: seq<Byte>)
    requires Proper(c) && c.kind.ZlibWrapped? && c.Check(input) == WordOfSums(AdlerOf(input))
    ensures IsZlib(HeaderBytes(c) + body + Trailer(c, input), c.wBits, LevelFlags(c.level, c.strategy), c.dictionary, body, input)
  {
    ZlibHeaderIsRead(c.wBits, LevelFlags(c.level, c.strategy), c.dictionary);
    AdlerBack(AdlerOf(input));
    TrailerAtEnd(HeaderBytes(c), body, Trailer(c, input));
  }

  /** Any calls of deflate() on a zlib stream: once the last one says that it is the end, the output has
      the header asked for, and the Adler-32 checksum of all the input at its end. */
  method RunZlib(wBits: bv32, level: nat, strategy: Strategy, dictionary: Option<bv32>, size: nat, calls: seq<Call<Byte>>)
    returns (out: seq<Byte>, ghost body: seq<Byte>, code: Code)
    requires 8 <= wBits <= 15 && 512 <= size
    ensures |out| <= AllRoom(calls)
    ensures calls != [] && code.StreamEnd? ==> IsZlib(out, wBits, LevelFlags(level, strategy), dictionary, body, AllInput(calls))
  {
    var c := ZlibSetup(wBits, level, strategy, dictionary);
    var s;
    s, code := Run(c, size, calls);
    out, body := s.out, s.body;
    ZlibIsRead(c, body, AllInput(calls));
  }
}
