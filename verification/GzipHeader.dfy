/**
 The wrappers that deflate() puts around its output, each written in one go: the zlib header of
 section 2.2 of RFC 1950, the gzip header of section 2.3 of RFC 1952, and their trailers. The gzip
 header can be read back.
 */
module GzipHeader {
  import opened Sequences
  import opened Wrappers
  import opened CrcRegister

  // Numbers as bytes.

  function Byte1(w: bv32): Byte { ((w >> 8) & 0xff) as Byte }
  function Byte2(w: bv32): Byte { ((w >> 16) & 0xff) as Byte }
  function Byte3(w: bv32): Byte { ((w >> 24) & 0xff) as Byte }

  /** Four bytes, the least significant first. */
  function Lsb(w: bv32): (r: seq<Byte>)
    ensures |r| == 4
  {
    [Lo(w), Byte1(w), Byte2(w), Byte3(w)]
  }

  function Low16(w: bv32): (r: seq<Byte>)
    ensures |r| == 2
  {
    [Lo(w), Byte1(w)]
  }

  /** Four bytes, the most significant first. */
  function Msb(w: bv32): (r: seq<Byte>)
    ensures |r| == 4
  {
    [Byte3(w), Byte2(w), Byte1(w), Lo(w)]
  }

  lemma WordBack(w: bv32)
    ensures WordOf(Lo(w), Byte1(w), Byte2(w), Byte3(w)) == w
  {
  }

  /** The low and the high byte of a number below 65536. */
  function Length16(n: nat): (r: seq<Byte>)
    requires n < 65536
    ensures |r| == 2
  {
    [(n % 256) as Byte, (n / 256) as Byte]
  }

  function NatOf(b: Byte): nat {
    b as nat
  }

  lemma NatBack(n: nat)
    requires n < 256
    ensures NatOf(n as Byte) == n
  {
  }

  lemma LengthBack(n: nat)
    requires n < 65536
    ensures NatOf(Length16(n)[0]) + 256 * NatOf(Length16(n)[1]) == n
  {
    NatBack(n % 256);
    NatBack(n / 256);
  }

  // The zlib header.

  datatype Strategy = Default | Filtered | HuffmanOnly | Rle | Fixed

  /** The compression level in the header, 0 to 3. */
  function LevelFlags(level: nat, strategy: Strategy): (f: bv32)
    ensures f < 4 && (f == 0 <==> level < 2 || !(strategy.Default? || strategy.Filtered?))
    ensures f == 2 <==> level == 6 && (strategy.Default? || strategy.Filtered?)
    ensures f == 3 <==> level > 6 && (strategy.Default? || strategy.Filtered?)
  {
    if strategy.HuffmanOnly? || strategy.Rle? || strategy.Fixed? || level < 2 then 0
    else if level < 6 then 1
    else if level == 6 then 2
    else 3
  }

  function ZlibWord(wBits: bv32, levelFlags: bv32, dictionary: bool): bv32 {
    var header := ((8 + ((wBits - 8) << 4)) << 8) | (levelFlags << 6) | (if dictionary then 0x20 else 0);
    header + (31 - header % 31)
  }

  /** The header is a multiple of 31, as section 2.2 of RFC 1950 wants, and its fields can be read. */
  lemma ZlibWordReads(wBits: bv32, levelFlags: bv32, dictionary: bool)
    requires 8 <= wBits <= 15 && levelFlags < 4
    ensures var w := ZlibWord(wBits, levelFlags, dictionary);
            && w % 31 == 0 && w < 0x1_0000
            && (w >> 8) & 0xf == 8 && w >> 12 == wBits - 8
            && (w >> 6) & 3 == levelFlags && (w & 0x20 != 0) == dictionary
  {
  }

  /** putShortMSB. */
  function Msb16(w: bv32): (r: seq<Byte>)
    ensures |r| == 2
  {
    [Byte1(w), Lo(w)]
  }

  function ZlibHeader(wBits: bv32, levelFlags: bv32, dictionary: Option<bv32>): seq<Byte> {
    Msb16(ZlibWord(wBits, levelFlags, dictionary.Some?)) + (if dictionary.Some? then Msb(dictionary.value) else [])
  }

  // The gzip header.

  /** What deflateSetHeader was given; the extra field is cut to the 16 bits of its length. */
  datatype GzHeader = GzHeader(text: bool, time: bv32, os: Byte, extra: Option<seq<Byte>>,
                               name: Option<seq<Byte>>, comment: Option<seq<Byte>>, hcrc: bool)

  /** The strings end at their first zero byte. */
  predicate IsText(s: Option<seq<Byte>>) {
    s.Some? ==> 0 !in s.value
  }

  predicate Valid(h: GzHeader) {
    (h.extra.Some? ==> |h.extra.value| < 65536) && IsText(h.name) && IsText(h.comment)
  }

  function Flags(h: GzHeader): Byte {
    (if h.text then 1 else 0) + (if h.hcrc then 2 else 0) + (if h.extra.None? then 0 else 4)
    + (if h.name.None? then 0 else 8) + (if h.comment.None? then 0 else 16)
  }

  lemma FlagsRead(h: GzHeader)
    ensures var f := Flags(h);
            && (f & 1 != 0) == h.text && (f & 2 != 0) == h.hcrc && (f & 4 != 0) == h.extra.Some?
            && (f & 8 != 0) == h.name.Some? && (f & 16 != 0) == h.comment.Some? && f & 0xe0 == 0
  {
  }

  /** Ten bytes, and the length of the extra field. */
  function FixedPart(h: GzHeader, xfl: Byte): (r: seq<Byte>)
    requires Valid(h)
    ensures |r| <= 12
  {
    Ten(h, xfl) + LengthPart(h)
  }

  function Ten(h: GzHeader, xfl: Byte): (r: seq<Byte>)
    ensures |r| == 10
  {
    [31, 139, 8, Flags(h)] + Lsb(h.time) + [xfl, h.os]
  }

  function ExtraPart(h: GzHeader): seq<Byte> {
    if h.extra.Some? then h.extra.value else []
  }

  function TextPart(s: Option<seq<Byte>>): seq<Byte> {
    if s.Some? then s.value + [0] else []
  }

  /** Everything that the header's own check value covers. */
  function Covered(h: GzHeader, xfl: Byte): seq<Byte>
    requires Valid(h)
  {
    FixedPart(h, xfl) + ExtraPart(h) + TextPart(h.name) + TextPart(h.comment)
  }

  function CheckPart(h: GzHeader, covered: seq<Byte>): seq<Byte> {
    if h.hcrc then Low16(Crc(0, covered)) else []
  }

  /** The header in one go. */
  function Header(h: GzHeader, xfl: Byte): seq<Byte>
    requires Valid(h)
  {
    Covered(h, xfl) + CheckPart(h, Covered(h, xfl))
  }

  /** The header when none was given. */
  function PlainHeader(xfl: Byte, os: Byte): (r: seq<Byte>)
    ensures |r| == 10
  {
    [31, 139, 8, 0, 0, 0, 0, 0, xfl, os]
  }

  // Reading a header.

  datatype Parsed<T> = Parsed(value: T, rest: seq<Byte>)

  function ReadText(s: seq<Byte>): (r: Option<Parsed<seq<Byte>>>)
    ensures r.Some? ==> |r.value.rest| < |s|
  {
    if s == [] then None
    else if s[0] == 0 then Some(Parsed([], s[1..]))
    else
      var more := ReadText(s[1..]);
      if more.None? then None else Some(Parsed([s[0]] + more.value.value, more.value.rest))
  }

  lemma {:induction false} ReadTextBack(s: seq<Byte>, rest: seq<Byte>)
    requires 0 !in s
    ensures ReadText(s + [0] + rest) == Some(Parsed(s, rest))
  {
    if s == [] {
      assert (s + [0] + rest)[1..] == rest;
    } else {
      assert (s + [0] + rest)[1..] == s[1..] + [0] + rest;
      ReadTextBack(s[1..], rest);
      assert [s[0]] + s[1..] == s;
    }
  }

  function ReadOptionalText(present: bool, s: seq<Byte>): (r: Option<Parsed<Option<seq<Byte>>>>)
    ensures r.Some? ==> |r.value.rest| <= |s|
  {
    if !present then Some(Parsed(None, s))
    else
      var t := ReadText(s);
      if t.None? then None else Some(Parsed(Some(t.value.value), t.value.rest))
  }

  lemma OptionalTextBack(t: Option<seq<Byte>>, rest: seq<Byte>)
    requires IsText(t)
    ensures ReadOptionalText(t.Some?, TextPart(t) + rest) == Some(Parsed(t, rest))
  {
    if t.Some? {
      ReadTextBack(t.value, rest);
    } else {
      assert TextPart(t) + rest == rest;
    }
  }

  function ReadExtra(present: bool, s: seq<Byte>): (r: Option<Parsed<Option<seq<Byte>>>>)
    ensures r.Some? ==> |r.value.rest| <= |s|
  {
    if !present then Some(Parsed(None, s))
    else if |s| < 2 then None
    else
      var n := NatOf(s[0]) + 256 * NatOf(s[1]);
      if |s| < 2 + n then None else Some(Parsed(Some(s[2..2 + n]), s[2 + n..]))
  }

  function LengthPart(h: GzHeader): (r: seq<Byte>)
    requires Valid(h)
    ensures |r| <= 2
  {
    if h.extra.Some? then Length16(|h.extra.value|) else []
  }

  lemma Cut(l: seq<Byte>, x: seq<Byte>, rest: seq<Byte>)
    requires |l| == 2
    ensures var s := l + (x + rest);
            s[0] == l[0] && s[1] == l[1] && s[2..2 + |x|] == x && s[2 + |x|..] == rest
  {
  }

  lemma ExtraFieldBack(x: seq<Byte>, rest: seq<Byte>)
    requires |x| < 65536
    ensures ReadExtra(true, Length16(|x|) + (x + rest)) == Some(Parsed(Some(x), rest))
  {
    var l := Length16(|x|);
    LengthBack(|x|);
    Cut(l, x, rest);
  }

  lemma ExtraBack(h: GzHeader, rest: seq<Byte>)
    requires Valid(h)
    ensures ReadExtra(h.extra.Some?, LengthPart(h) + (ExtraPart(h) + rest)) == Some(Parsed(h.extra, rest))
  {
    if h.extra.Some? {
      ExtraFieldBack(h.extra.value, rest);
    } else {
      assert LengthPart(h) + (ExtraPart(h) + rest) == rest;
    }
  }

  /** The check value, if there is one, must be that of the bytes before it. */
  function ReadCheck(present: bool, covered: seq<Byte>, s: seq<Byte>): Option<seq<Byte>> {
    if !present then Some(s)
    else if |s| < 2 || s[..2] != Low16(Crc(0, covered)) then None
    else Some(s[2..])
  }

  function ReadFixed(s: seq<Byte>): Option<Parsed<GzHeader>> {
    if |s| < 10 || s[0] != 31 || s[1] != 139 || s[2] != 8 || s[3] & 0xe0 != 0 then None
    else
      Some(Parsed(GzHeader(s[3] & 1 != 0, WordOf(s[4], s[5], s[6], s[7]), s[9], None, None, None, s[3] & 2 != 0), s[10..]))
  }

  // What has been read so far is in h; `rest` is what follows it in s.

  function ReadEnd(s: seq<Byte>, h: GzHeader, rest: seq<Byte>): Option<Parsed<GzHeader>>
    requires |rest| <= |s|
  {
    var more := ReadCheck(h.hcrc, s[..|s| - |rest|], rest);
    if more.None? then None else Some(Parsed(h, more.value))
  }

  function ReadComment(s: seq<Byte>, flags: Byte, h: GzHeader, rest: seq<Byte>): Option<Parsed<GzHeader>>
    requires |rest| <= |s|
  {
    var comment := ReadOptionalText(flags & 16 != 0, rest);
    if comment.None? then None else ReadEnd(s, h.(comment := comment.value.value), comment.value.rest)
  }

  function ReadName(s: seq<Byte>, flags: Byte, h: GzHeader, rest: seq<Byte>): Option<Parsed<GzHeader>>
    requires |rest| <= |s|
  {
    var name := ReadOptionalText(flags & 8 != 0, rest);
    if name.None? then None else ReadComment(s, flags, h.(name := name.value.value), name.value.rest)
  }

  /** The header at the start of the bytes, and what follows it. */
  function Read(s: seq<Byte>): Option<Parsed<GzHeader>> {
    var fixed := ReadFixed(s);
    if fixed.None? then None
    else
      var extra := ReadExtra(s[3] & 4 != 0, fixed.value.rest);
      if extra.None? then None
      else ReadName(s, s[3], fixed.value.value.(extra := extra.value.value), extra.value.rest)
  }

  lemma FixedBack(h: GzHeader, xfl: Byte, more: seq<Byte>)
    ensures var s := Ten(h, xfl) + more;
            && |s| >= 10 && s[3] == Flags(h)
            && ReadFixed(s) == Some(Parsed(h.(extra := None, name := None, comment := None), more))
  {
    var ten := Ten(h, xfl);
    var s := ten + more;
    assert ten[..4] == [31, 139, 8, Flags(h)] && ten[4..8] == Lsb(h.time) && ten[9] == h.os;
    assert ten[4] == Lo(h.time) && ten[5] == Byte1(h.time) && ten[6] == Byte2(h.time) && ten[7] == Byte3(h.time);
    assert forall i :: 0 <= i < 10 ==> s[i] == ten[i];
    assert s[10..] == more;
    FlagsRead(h);
    WordBack(h.time);
  }

  lemma CheckBack(h: GzHeader, covered: seq<Byte>, rest: seq<Byte>)
    ensures ReadCheck(h.hcrc, covered, CheckPart(h, covered) + rest) == Some(rest)
  {
    var c := CheckPart(h, covered);
    if h.hcrc {
      assert (c + rest)[..2] == c && (c + rest)[2..] == rest;
    } else {
      assert c + rest == rest;
    }
  }

  lemma SixParts(a: seq<Byte>, b: seq<Byte>, c: seq<Byte>, d: seq<Byte>, e: seq<Byte>, f: seq<Byte>)
    ensures a + b + c + d + e + f == a + (b + (c + (d + (e + f))))
  {
  }

  lemma EndBack(h: GzHeader, covered: seq<Byte>, rest: seq<Byte>)
    ensures ReadEnd(covered + (CheckPart(h, covered) + rest), h, CheckPart(h, covered) + rest) == Some(Parsed(h, rest))
  {
    var after := CheckPart(h, covered) + rest;
    assert (covered + after)[..|covered|] == covered;
    CheckBack(h, covered, rest);
  }

  lemma CommentBack(h: GzHeader, covered: seq<Byte>, rest: seq<Byte>)
    requires Valid(h)
    ensures var after := CheckPart(h, covered) + rest;
            |TextPart(h.comment)| <= |covered| ==>
              ReadComment(covered + after, Flags(h), h.(comment := None), TextPart(h.comment) + after) == Some(Parsed(h, rest))
  {
    FlagsRead(h);
    OptionalTextBack(h.comment, CheckPart(h, covered) + rest);
    EndBack(h, covered, rest);
  }

  lemma NameBack(h: GzHeader, covered: seq<Byte>, rest: seq<Byte>)
    requires Valid(h) && |TextPart(h.name)| + |TextPart(h.comment)| <= |covered|
    ensures var after := CheckPart(h, covered) + rest;
            ReadName(covered + after, Flags(h), h.(name := None, comment := None), TextPart(h.name) + (TextPart(h.comment) + after))
            == Some(Parsed(h, rest))
  {
    FlagsRead(h);
    OptionalTextBack(h.name, TextPart(h.comment) + (CheckPart(h, covered) + rest));
    CommentBack(h, covered, rest);
  }

  /** Reading the header gives back everything that was put into it. */
  lemma ReadHeader(h: GzHeader, xfl: Byte, rest: seq<Byte>)
    requires Valid(h)
    ensures Read(Header(h, xfl) + rest) == Some(Parsed(h, rest))
  {
    var covered := Covered(h, xfl);
    var after := CheckPart(h, covered) + rest;
    var afterExtra := TextPart(h.name) + (TextPart(h.comment) + after);
    var afterTen := LengthPart(h) + (ExtraPart(h) + afterExtra);
    Regroup(covered, CheckPart(h, covered), rest);
    SixParts(Ten(h, xfl), LengthPart(h), ExtraPart(h), TextPart(h.name), TextPart(h.comment), after);
    FixedBack(h, xfl, afterTen);
    FlagsRead(h);
    ExtraBack(h, afterExtra);
    NameBack(h, covered, rest);
  }
}
