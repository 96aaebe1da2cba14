/**
 The meaning of the matcher's output: a sequence of literals and back references
 (section 3.2.5 of RFC 1951), expanded from left to right.
 */
module Lz77 {
  import opened RollingHash
  import opened Wrappers

  const MIN_MATCH := 3
  const MAX_MATCH := 258

  datatype Token = Literal(byte: Byte) | Match(length: nat, distance: nat)

  /** The lengths and distances a match may have when distances are limited to maxDist. */
  predicate InRange(t: Token, maxDist: int) {
    t.Match? ==> MIN_MATCH <= t.length <= MAX_MATCH && 1 <= t.distance <= maxDist
  }

  ghost predicate AllInRange(ts: seq<Token>, maxDist: int) {
    forall i :: 0 <= i < |ts| ==> InRange(ts[i], maxDist)
  }

  /** Copy n bytes from distance d back, one at a time, so that the copy may overlap itself. */
  function Copy(out: seq<Byte>, n: nat, d: nat): (r: seq<Byte>)
    requires 1 <= d <= |out|
    ensures |r| == |out| + n
    ensures r[..|out|] == out
    ensures forall i :: |out| <= i < |r| ==> r[i] == r[i - d]
    decreases n
  {
    if n == 0 then out else Copy(out + [out[|out| - d]], n - 1, d)
  }

  /** One decoding step; None when a reference reaches before the start of the output. */
  function Step(out: seq<Byte>, t: Token): Option<seq<Byte>> {
    match t
    case Literal(b) => Some(out + [b])
    case Match(n, d) => if 1 <= d <= |out| then Some(Copy(out, n, d)) else None
  }

  /** What a decoder makes of a token sequence. */
  function Expand(ts: seq<Token>): Option<seq<Byte>> {
    if ts == [] then Some([])
    else
      match Expand(ts[..|ts| - 1])
      case None => None
      case Some(out) => Step(out, ts[|ts| - 1])
  }

  lemma ExpandAppend(ts: seq<Token>, t: Token)
    requires Expand(ts).Some?
    ensures Expand(ts + [t]) == Step(Expand(ts).value, t)
  {
    assert (ts + [t])[..|ts|] == ts;
  }

  /** The n bytes of s at c repeat the bytes at distance d back. */
  ghost predicate Repeats(s: seq<Byte>, c: nat, n: nat, d: nat)
    requires d <= c && c + n <= |s|
  {
    forall i :: c <= i < c + n ==> s[i] == s[i - d]
  }

  /** A back reference that agrees with the data extends the decoded prefix of the data. */
  lemma {:induction false} CopyExtends(s: seq<Byte>, c: nat, n: nat, d: nat)
    requires 1 <= d <= c && c + n <= |s| && Repeats(s, c, n, d)
    ensures Copy(s[..c], n, d) == s[..c + n]
    decreases n
  {
    if n > 0 {
      assert s[..c] + [s[c - d]] == s[..c + 1];
      CopyExtends(s, c + 1, n - 1, d);
    }
  }

  /** An unsigned char of sym_buf, by its value. */
  type Uchar = x: int | 0 <= x < 256

  /** The three bytes in sym_buf for a token (_tr_tally_lit and _tr_tally_dist): the
      distance cast to ush, low byte first, and the literal or the length less MIN_MATCH cast to uch. */
  function Pack(t: Token): (p: seq<Uchar>)
    ensures |p| == 3
  {
    match t
    case Literal(b) => [0, 0, b as int]
    case Match(n, d) => [d % 256, d / 256 % 256, (n - MIN_MATCH) % 256]
  }

  /** How the block writer reads a symbol back: distance zero marks a literal. */
  function Unpack(lo: Uchar, hi: Uchar, c: Uchar): Token {
    var d := lo + 256 * hi;
    if d == 0 then Literal(c as Byte) else Match(c + MIN_MATCH, d)
  }

  function UnpackAll(buf: seq<Uchar>): (ts: seq<Token>)
    requires |buf| % 3 == 0
    ensures 3 * |ts| == |buf|
  {
    if buf == [] then []
    else UnpackAll(buf[..|buf| - 3]) + [Unpack(buf[|buf| - 3], buf[|buf| - 2], buf[|buf| - 1])]
  }

  /** The casts to uch and ush lose nothing for tokens in the range of RFC 1951. */
  lemma PackUnpack(t: Token)
    requires InRange(t, 32768)
    ensures var p := Pack(t); Unpack(p[0], p[1], p[2]) == t
  {
    match t
    case Literal(b) =>
      assert b as int as Byte == b;
    case Match(n, d) =>
      assert d / 256 % 256 == d / 256;
  }

  lemma UnpackAppend(buf: seq<Uchar>, t: Token)
    requires |buf| % 3 == 0 && InRange(t, 32768)
    ensures UnpackAll(buf + Pack(t)) == UnpackAll(buf) + [t]
  {
    PackUnpack(t);
    var b := buf + Pack(t);
    assert b[..|b| - 3] == buf;
  }
}
