/**
 deflate() around the compression functions: the pending buffer, the headers that can be interrupted
 at any byte, and the trailer, over any sequence of calls with any room for output.
 */
module DeflateStream {
  import opened Sequences
  import opened Wrappers
  import opened DeflateCalls
  import opened CrcRegister
  import opened GzipHeader

  datatype Status = Init | Gzip | Extra | Name | Comment | Hcrc | Busy | Finished

  datatype Kind = Raw | ZlibWrapped | GzipWrapped

  /** What is fixed per stream. The dictionary's check value is there if one was set. The check value of
      the input has a start and is moved over the input in pieces: a CRC for gzip, an Adler-32 checksum as
      a word for zlib, and constant for a raw stream. */
  datatype Setup = Setup(kind: Kind, wBits: bv32, level: nat, strategy: Strategy, dictionary: Option<bv32>,
                         head: Option<GzHeader>, osCode: Byte,
                         start: bv32, update: (bv32, seq<Byte>) -> bv32)
  {
    function Check(s: seq<Byte>): bv32 {
      update(start, s)
    }
  }

  /** A check value taken in pieces is that of the whole. */
  ghost predicate InPieces(c: Setup) {
    forall x, y :: OnePiece(c, x, y)
  }

  ghost predicate OnePiece(c: Setup, x: seq<Byte>, y: seq<Byte>) {
    c.update(c.Check(x), y) == c.Check(x + y)
  }

  /** XFL: slowest, fastest, or neither. */
  function Xfl(c: Setup): Byte {
    if c.level == 9 then 2
    else if c.strategy.HuffmanOnly? || c.strategy.Rle? || c.strategy.Fixed? || c.level < 2 then 4
    else 0
  }

  /** 0, 1 and 2, and negative once the trailer is written. */
  function KindOf(wrap: int): Kind {
    if wrap == 0 then Raw else if wrap == 1 || wrap == -1 then ZlibWrapped else GzipWrapped
  }

  ghost predicate Proper(c: Setup) {
    && 8 <= c.wBits <= 15 && (c.head.Some? ==> Valid(c.head.value))
    && (c.kind.GzipWrapped? ==> c.dictionary.None? && c.start == 0)
    && c.Check([]) == c.start && InPieces(c)
  }

  /** One piece more. */
  lemma CheckOn(c: Setup, x: seq<Byte>, y: seq<Byte>)
    requires Proper(c)
    ensures c.update(c.Check(x), y) == c.Check(x + y)
  {
    assert OnePiece(c, x, y);
  }

  /** A number modulo 256^k, the least significant byte first. */
  function LsbOf(n: nat, k: nat): (r: seq<Byte>)
    ensures |r| == k
    decreases k, n
  {
    if k == 0 then [] else [(n % 256) as Byte] + LsbOf(n / 256, k - 1)
  }

  function HeaderBytes(c: Setup): seq<Byte>
    requires Proper(c)
  {
    match c.kind
    case Raw => []
    case ZlibWrapped => ZlibHeader(c.wBits, LevelFlags(c.level, c.strategy), c.dictionary)
    case GzipWrapped => if c.head.Some? then Header(c.head.value, Xfl(c)) else PlainHeader(Xfl(c), c.osCode)
  }

  /** Section 2.2 of RFC 1950, and section 2.3.1 of RFC 1952 with the size modulo 2^32. */
  function Trailer(c: Setup, input: seq<Byte>): seq<Byte> {
    match c.kind
    case Raw => []
    case ZlibWrapped => Msb(c.Check(input))
    case GzipWrapped => Lsb(c.Check(input)) + LsbOf(|input|, 4)
  }

  lemma PlainPieces(xfl: Byte, os: Byte)
    ensures [31, 139, 8] + [0, 0, 0, 0, 0, xfl, os] == PlainHeader(xfl, os)
  {
  }

  lemma FixedPieces(h: GzHeader, xfl: Byte)
    requires Valid(h)
    ensures [31, 139, 8] + [Flags(h)] + Lsb(h.time) + [xfl, h.os] + LengthPart(h) == FixedPart(h, xfl)
  {
    assert [31, 139, 8] + [Flags(h)] == [31, 139, 8, Flags(h)];
  }

  lemma CrcConcat(x: seq<Byte>, y: seq<Byte>)
    ensures Crc(Crc(0, x), y) == Crc(0, x + y)
  {
    RegConcat(Not(0), x, y);
    NotNot(Reg(Not(0), x));
  }

  function Taken(s: seq<Byte>, n: nat): seq<Byte> {
    if n <= |s| then s[..n] else s
  }

  /** What must have been put out, in the middle of a gzip header. */
  function HeaderSoFar(h: GzHeader, xfl: Byte, status: Status, gzindex: nat): seq<Byte>
    requires Valid(h)
  {
    match status
    case Extra => FixedPart(h, xfl) + Taken(ExtraPart(h), gzindex)
    case Name => FixedPart(h, xfl) + ExtraPart(h) + Taken(TextPart(h.name), gzindex)
    case Comment => FixedPart(h, xfl) + ExtraPart(h) + TextPart(h.name) + Taken(TextPart(h.comment), gzindex)
    case _ => Covered(h, xfl)
  }

  /** How far gzindex may have come. */
  predicate IndexFits(h: GzHeader, status: Status, gzindex: nat) {
    match status
    case Extra => gzindex <= |ExtraPart(h)|
    case Name => TextIndexFits(h.name, gzindex)
    case Comment => TextIndexFits(h.comment, gzindex)
    case _ => true
  }

  predicate TextIndexFits(s: Option<seq<Byte>>, gzindex: nat) {
    gzindex < |TextPart(s)| || (gzindex == 0 && s.None?)
  }

  /** Where each piece starts, and where the one before it is done. */
  lemma PieceStarts(h: GzHeader, xfl: Byte)
    requires Valid(h)
    ensures HeaderSoFar(h, xfl, Extra, 0) == FixedPart(h, xfl)
    ensures HeaderSoFar(h, xfl, Name, 0) == FixedPart(h, xfl) + ExtraPart(h)
    ensures HeaderSoFar(h, xfl, Comment, 0) == FixedPart(h, xfl) + ExtraPart(h) + TextPart(h.name)
    ensures h.extra.None? ==> HeaderSoFar(h, xfl, Name, 0) == HeaderSoFar(h, xfl, Extra, 0)
    ensures h.name.None? ==> HeaderSoFar(h, xfl, Comment, 0) == HeaderSoFar(h, xfl, Name, 0)
    ensures h.comment.None? ==> Covered(h, xfl) == HeaderSoFar(h, xfl, Comment, 0)
    ensures IndexFits(h, Extra, 0) && IndexFits(h, Name, 0) && IndexFits(h, Comment, 0)
  {
  }

  /** Where a stream is, with all the input it has read and all the compressed bytes it has made. */
  datatype Progress = Progress(status: Status, wrap: int, gzindex: nat, adler: bv32, totalIn: nat, lookahead: nat,
                               consumed: seq<Byte>, body: seq<Byte>)

  predicate NothingYet(p: Progress) {
    p.body == [] && p.consumed == [] && p.totalIn == 0 && p.wrap >= 0
  }

  /** Before the header of a raw or a zlib stream. */
  predicate StartIs(c: Setup, p: Progress, all: seq<Byte>) {
    && !c.kind.GzipWrapped? && NothingYet(p) && all == []
    && if c.kind.Raw? then p.adler == c.Check([]) else c.dictionary.Some? ==> p.adler == c.dictionary.value
  }

  /** The gzip header is put out as far as this, and checked if it is to be. */
  predicate HeaderIs(c: Setup, status: Status, gzindex: nat, adler: bv32, all: seq<Byte>) {
    && c.kind.GzipWrapped? && c.head.Some? && Valid(c.head.value)
    && IndexFits(c.head.value, status, gzindex)
    && all == HeaderSoFar(c.head.value, Xfl(c), status, gzindex)
    && adler == if c.head.value.hcrc then Crc(0, all) else 0
  }

  /** What must have been put out once the header is done. */
  function Due(c: Setup, header: seq<Byte>, p: Progress): seq<Byte> {
    header + p.body + (if p.wrap < 0 then Trailer(c, p.consumed) else [])
  }

  predicate BodyIs(c: Setup, header: seq<Byte>, p: Progress, all: seq<Byte>) {
    && all == Due(c, header, p)
    && -2 <= p.wrap <= 2 && c.kind == KindOf(p.wrap)
    && p.totalIn == |p.consumed| && p.adler == c.Check(p.consumed)
    && (p.status.Busy? ==> p.wrap >= 0) && (p.status.Finished? ==> p.lookahead == 0)
  }

  /** What was put out is right for the state that the stream is in. */
  ghost predicate Fits(c: Setup, header: seq<Byte>, p: Progress, all: seq<Byte>) {
    && Proper(c) && header == HeaderBytes(c)
    && -2 <= p.wrap <= 2 && c.kind == KindOf(p.wrap)
    && match p.status
       case Init => StartIs(c, p, all)
       case Gzip => c.kind.GzipWrapped? && NothingYet(p) && all == []
       case Busy => BodyIs(c, header, p, all)
       case Finished => BodyIs(c, header, p, all)
       case _ => NothingYet(p) && HeaderIs(c, p.status, p.gzindex, p.adler, all)
  }

  lemma BodyBegins(c: Setup, header: seq<Byte>, p: Progress)
    requires Proper(c) && header == HeaderBytes(c) && NothingYet(p) && p.status.Busy?
    requires p.wrap <= 2 && c.kind == KindOf(p.wrap) && p.adler == c.Check(p.consumed)
    ensures Fits(c, header, p, header)
  {
    assert header + [] + [] == header;
  }

  /** All but the last n bytes. */
  function Without(s: seq<Byte>, n: nat): seq<Byte>
    requires n <= |s|
  {
    if n == 0 then s else s[..|s| - n]
  }

  /** With a check value wanted, adler is that of all but the last n bytes; otherwise it is 0. */
  predicate Counted(hcrc: bool, adler: bv32, all: seq<Byte>, n: nat) {
    if hcrc then n <= |all| && adler == Crc(0, Without(all, n)) else adler == 0
  }

  /** The first i bytes of a string are put out, and all but the last n bytes of everything counted. */
  predicate PutUpTo(hcrc: bool, adler: bv32, all: seq<Byte>, n: nat, before: seq<Byte>, s: seq<Byte>, i: nat) {
    i <= |s| && all == before + s[..i] && Counted(hcrc, adler, all, n)
  }

  /** One more byte of a string, put out but not counted. */
  lemma OneMore(hcrc: bool, adler: bv32, was: seq<Byte>, all: seq<Byte>, n: nat, before: seq<Byte>, s: seq<Byte>, i: nat)
    requires i < |s| && PutUpTo(hcrc, adler, was, n, before, s, i) && all == was + [s[i]]
    ensures PutUpTo(hcrc, adler, all, n + 1, before, s, i + 1)
  {
    if hcrc {
      SameCounted(was, s[i], n);
    }
  }

  class Stream {
    const c: Setup
    /** The header that the stream must begin with. */
    ghost const header: seq<Byte>
    const pendingBuf: array<Byte>
    var out: seq<Byte>
    var availOut: nat
    var pendingOut: nat
    var pending: nat
    var status: Status
    /** 0, 1 or 2, and negative once the trailer is written. */
    var wrap: int
    var gzindex: nat
    var adler: bv32
    var lastFlush: Option<FlushMode>
    var nextIn: seq<Byte>
    var totalIn: nat
    var lookahead: nat
    /** All the input read so far, of which adler is the check value. */
    var consumed: seq<Byte>
    ghost var body: seq<Byte>
    /** Everything put out so far: what was delivered and what is pending. */
    ghost var emitted: seq<Byte>

    /** The pending bytes are in the buffer, from its start when there are none. */
    ghost predicate Room()
      reads this`emitted, this`out, this`pendingOut, this`pending, pendingBuf
    {
      && 512 <= pendingBuf.Length && pendingOut + pending <= pendingBuf.Length && (pending == 0 ==> pendingOut == 0)
      && emitted == out + pendingBuf[pendingOut..pendingOut + pending]
    }

    /** put_byte writes at pending from the start of the buffer, so nothing may have been taken off its front. */
    method PutByte(b: Byte)
      requires Room() && pendingOut == 0 && pending < pendingBuf.Length
      modifies this`pending, this`emitted, pendingBuf
      ensures Room() && pending == old(pending) + 1 && emitted == old(emitted) + [b]
    {
      pendingBuf[pending] := b;
      pending := pending + 1;
      emitted := emitted + [b];
    }

    method PutBytes(s: seq<Byte>)
      requires Room() && pendingOut == 0 && pending + |s| <= pendingBuf.Length
      modifies this`pending, this`emitted, pendingBuf
      ensures Room() && pending == old(pending) + |s| && emitted == old(emitted) + s
    {
      var i := 0;
      while i < |s|
        invariant i <= |s| && Room() && pending == old(pending) + i
        invariant emitted == old(emitted) + s[..i]
      {
        PutByte(s[i]);
        i := i + 1;
      }
    }

    method FlushPending()
      requires Room()
      modifies this`out, this`availOut, this`pendingOut, this`pending
      ensures Room() && (pending == 0 || availOut == 0)
      ensures availOut == if old(pending <= availOut) then old(availOut - pending) else 0
      ensures Delivers(old(out), old(availOut))
    {
      var len := if pending > availOut then availOut else pending;
      if len == 0 {
        return;
      }
      CutAt(out, pendingBuf[..], pendingOut, len, pending);
      out := out + pendingBuf[pendingOut..pendingOut + len];
      pendingOut := pendingOut + len;
      availOut := availOut - len;
      pending := pending - len;
      if pending == 0 {
        pendingOut := 0;
      }
    }

    /** Flush, and if that was not enough have the next call of deflate return Z_OK. */
    method Drain() returns (empty: bool)
      requires Room()
      modifies this`out, this`availOut, this`pendingOut, this`pending, this`lastFlush
      ensures Room() && Delivers(old(out), old(availOut))
      ensures if empty then pending == 0 && pendingOut == 0 else availOut == 0 && pending != 0
    {
      FlushPending();
      empty := pending == 0;
      if !empty {
        lastFlush := None;
      }
    }

    /** Output is only ever added to, and only as far as there is room. */
    ghost predicate Delivers(before: seq<Byte>, room: nat)
      reads this`out, this`availOut
    {
      before <= out && |out| + availOut == |before| + room
    }

    /** Input is taken in order: what was read and what is still offered are the same as before. */
    ghost predicate Reads(all: seq<Byte>, offered: nat)
      reads this`consumed, this`nextIn
    {
      consumed + nextIn == all && |nextIn| <= offered
    }

    // The gzip header in pieces.

    /** With a header check value wanted, adler is that of all but the last n bytes put out; otherwise it is 0. */
    ghost predicate Checked(n: nat)
      reads this`emitted, this`adler
    {
      c.head.Some? && Counted(c.head.value.hcrc, adler, emitted, n)
    }

    /** HCRC_UPDATE(beg). */
    method HcrcUpdate(beg: nat)
      requires Room() && pendingOut == 0 && beg <= pending && Checked(pending - beg)
      modifies this`adler
      ensures Checked(0)
    {
      if c.head.value.hcrc && pending > beg {
        CountRest(out, pendingBuf[..], pending, beg);
        adler := Crc(adler, pendingBuf[beg..pending]);
      }
    }

    /** The part of this piece of the header that was put out and counted. */
    ghost predicate SoFar(before: seq<Byte>, s: seq<Byte>)
      reads this`emitted, this`adler, this`gzindex
    {
      gzindex <= |s| && emitted == before + s[..gzindex] && Checked(0)
    }

    /** Bytes that are put but still to be counted in the check value. */
    method PutUncounted(s: seq<Byte>)
      requires Room() && pendingOut == 0 && Checked(0) && pending + |s| <= pendingBuf.Length
      modifies this`pending, this`emitted, pendingBuf
      ensures Room() && pending == old(pending) + |s| && emitted == old(emitted) + s && Checked(|s|)
    {
      ghost var was := emitted;
      PutBytes(s);
      assert Without(was + s, |s|) == was;
    }

    method PutPiece(s: seq<Byte>, n: nat, beg: nat, ghost before: seq<Byte>)
      requires Room() && pendingOut == 0 && beg == pending && pending + n <= pendingBuf.Length
      requires SoFar(before, s) && gzindex + n <= |s|
      modifies this`pending, this`gzindex, this`adler, this`emitted, pendingBuf
      ensures Room() && pending == old(pending) + n && gzindex == old(gzindex) + n && SoFar(before, s)
    {
      Later(before, s, gzindex, n);
      PutUncounted(s[gzindex..gzindex + n]);
      HcrcUpdate(beg);
      assert emitted == before + s[..gzindex + n];
      gzindex := gzindex + n;
    }

    /** The extra field, from gzindex on, in pieces that fill the buffer. */
    method PutExtra(extra: seq<Byte>, ghost before: seq<Byte>) returns (done: bool)
      requires Room() && pendingOut == 0 && SoFar(before, extra)
      modifies this`out, this`availOut, this`pendingOut, this`pending, this`gzindex, this`adler, this`lastFlush, this`emitted, pendingBuf
      ensures Room() && Delivers(old(out), old(availOut))
      ensures done ==> pendingOut == 0 && gzindex == 0 && emitted == before + extra && Checked(0)
      ensures !done ==> SoFar(before, extra) && pending != 0 && availOut == 0
    {
      var beg := pending;
      var left := |extra| - gzindex;
      while pending + left > pendingBuf.Length
        invariant Room() && pendingOut == 0 && beg == pending
        invariant SoFar(before, extra) && left == |extra| - gzindex
        invariant Delivers(old(out), old(availOut))
        decreases left, pending
      {
        var copy := pendingBuf.Length - pending;
        PutPiece(extra, copy, beg, before);
        done := Drain();
        if !done {
          return;
        }
        beg := 0;
        left := left - copy;
      }
      PutPiece(extra, left, beg, before);
      gzindex := 0;
      done := true;
      assert extra[..|extra|] == extra;
    }

    /** While a string is being put: all but the bytes from beg on are counted. */
    ghost predicate Running(before: seq<Byte>, text: seq<Byte>, beg: nat)
      reads this`emitted, this`pendingOut, this`pending, this`adler, this`gzindex
    {
      && pendingOut == 0 && beg <= pending && c.head.Some?
      && PutUpTo(c.head.value.hcrc, adler, emitted, pending - beg, before, text, gzindex)
    }

    /** The next byte of a string; text has the zero byte at its end. */
    method PutNext(text: seq<Byte>, beg: nat, ghost before: seq<Byte>)
      requires Room() && Running(before, text, beg) && gzindex < |text| && pending < pendingBuf.Length
      modifies this`pending, this`gzindex, this`emitted, pendingBuf
      ensures Room() && Running(before, text, beg) && gzindex == old(gzindex) + 1
    {
      ghost var was, n := emitted, pending - beg;
      PutByte(text[gzindex]);
      OneMore(c.head.value.hcrc, adler, was, emitted, n, before, text, gzindex);
      gzindex := gzindex + 1;
    }

    /** Makes room by counting and flushing. */
    method MakeRoom(text: seq<Byte>, beg: nat, ghost before: seq<Byte>) returns (empty: bool)
      requires Room() && Running(before, text, beg)
      modifies this`out, this`availOut, this`pendingOut, this`pending, this`adler, this`lastFlush
      ensures Room() && Delivers(old(out), old(availOut)) && SoFar(before, text)
      ensures empty ==> pending == 0 && Running(before, text, 0)
      ensures !empty ==> pending != 0 && availOut == 0
    {
      HcrcUpdate(beg);
      empty := Drain();
    }

    /** A zero-terminated string, from gzindex on, byte by byte. */
    method PutText(text: seq<Byte>, ghost before: seq<Byte>) returns (done: bool)
      requires Room() && pendingOut == 0 && SoFar(before, text) && gzindex < |text|
      requires text[|text| - 1] == 0 && 0 !in text[..|text| - 1]
      modifies this`out, this`availOut, this`pendingOut, this`pending, this`gzindex, this`adler, this`lastFlush, this`emitted, pendingBuf
      ensures Room() && Delivers(old(out), old(availOut))
      ensures done ==> pendingOut == 0 && gzindex == |text| && emitted == before + text && Checked(0)
      ensures !done ==> SoFar(before, text) && gzindex < |text| && pending != 0 && availOut == 0
    {
      var beg := pending;
      var val: Byte := 1;
      while val != 0
        invariant Room() && Running(before, text, beg)
        invariant if val == 0 then gzindex == |text| else gzindex < |text|
        invariant Delivers(old(out), old(availOut))
        decreases |text| - gzindex
      {
        if pending == pendingBuf.Length {
          done := MakeRoom(text, beg, before);
          if !done {
            return;
          }
          beg := 0;
        }
        val := text[gzindex];
        OnlyLast(text, gzindex);
        PutNext(text, beg, before);
      }
      HcrcUpdate(beg);
      done := true;
      assert text[..|text|] == text;
    }

    /** A string of the header, if there is one. */
    method PutTextIfAny(s: Option<seq<Byte>>, ghost before: seq<Byte>) returns (done: bool)
      requires Room() && pendingOut == 0 && IsText(s) && SoFar(before, TextPart(s)) && TextIndexFits(s, gzindex)
      modifies this`out, this`availOut, this`pendingOut, this`pending, this`gzindex, this`adler, this`lastFlush, this`emitted, pendingBuf
      ensures Room() && Delivers(old(out), old(availOut))
      ensures done ==> pendingOut == 0 && emitted == before + TextPart(s) && Checked(0) && (s.None? ==> gzindex == 0)
      ensures !done ==> SoFar(before, TextPart(s)) && TextIndexFits(s, gzindex) && pending != 0 && availOut == 0
    {
      done := true;
      if s.Some? {
        TextEnds(s.value);
        done := PutText(TextPart(s), before);
      }
    }

    // The states of a stream.

    predicate InHeader()
      reads this`status
    {
      status.Extra? || status.Name? || status.Comment? || status.Hcrc?
    }

    ghost function Now(): Progress
      reads this`adler, this`gzindex, this`status, this`wrap, this`body, this`consumed, this`totalIn, this`lookahead
    {
      Progress(status, wrap, gzindex, adler, totalIn, lookahead, consumed, body)
    }

    ghost predicate HeaderStands()
      reads this`emitted, this`adler, this`gzindex, this`status
    {
      InHeader() && HeaderIs(c, status, gzindex, adler, emitted)
    }

    ghost predicate InBody()
      reads this`emitted, this`adler, this`gzindex, this`status, this`wrap, this`body, this`consumed, this`totalIn, this`lookahead
    {
      (status.Busy? || status.Finished?) && BodyIs(c, header, Now(), emitted)
    }

    ghost predicate Stands()
      reads this`emitted, this`out, this`pendingOut, this`pending, this`adler, this`gzindex, this`status, this`wrap,
            this`body, this`consumed, this`totalIn, this`lookahead, pendingBuf
    {
      Room() && Fits(c, header, Now(), emitted)
    }

    method ExtraState() returns (done: bool)
      requires Room() && HeaderStands() && status.Extra? && pendingOut == 0
      modifies this`out, this`availOut, this`pendingOut, this`pending, this`gzindex, this`adler, this`lastFlush,
               this`status, this`emitted, pendingBuf
      ensures Room() && HeaderStands() && Delivers(old(out), old(availOut))
      ensures if done then status.Name? && pendingOut == 0 else status.Extra? && pending != 0 && availOut == 0
    {
      PieceStarts(c.head.value, Xfl(c));
      done := true;
      if c.head.value.extra.Some? {
        done := PutExtra(c.head.value.extra.value, FixedPart(c.head.value, Xfl(c)));
      }
      if done {
        status := Name;
      }
    }

    method NameState() returns (done: bool)
      requires Room() && HeaderStands() && status.Name? && pendingOut == 0
      modifies this`out, this`availOut, this`pendingOut, this`pending, this`gzindex, this`adler, this`lastFlush,
               this`status, this`emitted, pendingBuf
      ensures Room() && HeaderStands() && Delivers(old(out), old(availOut))
      ensures if done then status.Comment? && pendingOut == 0 else status.Name? && pending != 0 && availOut == 0
    {
      PieceStarts(c.head.value, Xfl(c));
      done := PutTextIfAny(c.head.value.name, HeaderSoFar(c.head.value, Xfl(c), Name, 0));
      if done {
        gzindex := 0;
        status := Comment;
      }
    }

    method CommentState() returns (done: bool)
      requires Room() && HeaderStands() && status.Comment? && pendingOut == 0
      modifies this`out, this`availOut, this`pendingOut, this`pending, this`gzindex, this`adler, this`lastFlush,
               this`status, this`emitted, pendingBuf
      ensures Room() && HeaderStands() && Delivers(old(out), old(availOut))
      ensures if done then status.Hcrc? && pendingOut == 0 else status.Comment? && pending != 0 && availOut == 0
    {
      PieceStarts(c.head.value, Xfl(c));
      done := PutTextIfAny(c.head.value.comment, HeaderSoFar(c.head.value, Xfl(c), Comment, 0));
      if done {
        status := Hcrc;
      }
    }

    /** The check value's two bytes do not fit: what is pending goes out first. */
    method CheckFits() returns (done: bool)
      requires Room() && pendingOut == 0
      modifies this`out, this`availOut, this`pendingOut, this`pending, this`lastFlush
      ensures Room() && Delivers(old(out), old(availOut))
      ensures if done then pendingOut == 0 && pending + 2 <= pendingBuf.Length else pending != 0 && availOut == 0
    {
      done := true;
      if pending + 2 > pendingBuf.Length {
        done := Drain();
      }
    }

    /** The check value, if wanted. */
    method PutCheck() returns (done: bool)
      requires Room() && HeaderStands() && status.Hcrc? && pendingOut == 0
      modifies this`out, this`availOut, this`pendingOut, this`pending, this`adler, this`lastFlush, this`emitted, pendingBuf
      ensures Room() && Delivers(old(out), old(availOut))
      ensures done ==> pendingOut == 0 && adler == 0 && emitted == Header(c.head.value, Xfl(c))
      ensures !done ==> HeaderStands() && pending != 0 && availOut == 0
    {
      done := true;
      if c.head.value.hcrc {
        done := CheckFits();
        if !done {
          return;
        }
        PutBytes(Low16(adler));
        adler := 0;
      }
    }

    /** Compression must start with an empty pending buffer. */
    method HcrcState() returns (done: bool)
      requires Room() && HeaderStands() && status.Hcrc? && pendingOut == 0
      modifies this`out, this`availOut, this`pendingOut, this`pending, this`adler, this`lastFlush, this`status, this`emitted, pendingBuf
      ensures Room() && Delivers(old(out), old(availOut))
      ensures status.Busy? ==> adler == 0 && emitted == Header(c.head.value, Xfl(c))
      ensures status.Busy? || (status.Hcrc? && HeaderStands())
      ensures if done then status.Busy? && pending == 0 else pending != 0 && availOut == 0
    {
      done := PutCheck();
      if done {
        status := Busy;
        done := Drain();
      }
    }

    /** The header of a stream that none was given for. */
    method PlainGzip()
      requires Room() && pending == 0 && emitted == []
      modifies this`pending, this`adler, this`status, this`emitted, pendingBuf
      ensures Room() && pendingOut == 0 && emitted == PlainHeader(Xfl(c), c.osCode) && adler == 0 && status.Busy?
    {
      adler := 0;
      PutBytes([31, 139, 8]);
      PutBytes([0, 0, 0, 0, 0, Xfl(c), c.osCode]);
      PlainPieces(Xfl(c), c.osCode);
      status := Busy;
    }

    /** The fixed part of the header that was given. */
    method PutFixed(h: GzHeader)
      requires Room() && pending == 0 && Valid(h) && emitted == []
      modifies this`pending, this`emitted, pendingBuf
      ensures Room() && pendingOut == 0 && emitted == FixedPart(h, Xfl(c))
    {
      PutBytes([31, 139, 8]);
      PutBytes([Flags(h)]);
      PutBytes(Lsb(h.time));
      PutBytes([Xfl(c), h.os]);
      PutBytes(LengthPart(h));
      FixedPieces(h, Xfl(c));
    }

    method StartGzip()
      requires Room() && pending == 0 && emitted == [] && c.kind.GzipWrapped? && c.head.Some? && Valid(c.head.value)
      modifies this`pending, this`adler, this`status, this`gzindex, this`emitted, pendingBuf
      ensures Room() && pendingOut == 0 && status.Extra? && HeaderStands()
    {
      adler := 0;
      PutFixed(c.head.value);
      if c.head.value.hcrc {
        assert pendingBuf[..pending] == emitted;
        adler := Crc(adler, pendingBuf[..pending]);
      }
      gzindex := 0;
      status := Extra;
      PieceStarts(c.head.value, Xfl(c));
    }

    /** From the comment on, as far as there is room. */
    method CommentOn() returns (done: bool)
      requires Room() && pendingOut == 0 && (status.Comment? || status.Hcrc?) && HeaderStands()
      modifies this`out, this`availOut, this`pendingOut, this`pending, this`gzindex, this`adler, this`lastFlush,
               this`status, this`emitted, pendingBuf
      ensures Room() && Delivers(old(out), old(availOut))
      ensures if status.Busy? then adler == 0 && emitted == Header(c.head.value, Xfl(c)) else InHeader() && HeaderStands()
      ensures if done then status.Busy? && pending == 0 else pending != 0 && availOut == 0
    {
      if status.Comment? {
        done := CommentState();
        if !done {
          return;
        }
      }
      done := HcrcState();
    }

    /** From the name on. */
    method NameOn() returns (done: bool)
      requires Room() && pendingOut == 0 && (status.Name? || status.Comment? || status.Hcrc?) && HeaderStands()
      modifies this`out, this`availOut, this`pendingOut, this`pending, this`gzindex, this`adler, this`lastFlush,
               this`status, this`emitted, pendingBuf
      ensures Room() && Delivers(old(out), old(availOut))
      ensures if status.Busy? then adler == 0 && emitted == Header(c.head.value, Xfl(c)) else InHeader() && HeaderStands()
      ensures if done then status.Busy? && pending == 0 else pending != 0 && availOut == 0
    {
      if status.Name? {
        done := NameState();
        if !done {
          return;
        }
      }
      done := CommentOn();
    }

    /** From whatever state of the gzip header the stream is in. */
    method GzipStates() returns (done: bool)
      requires Room() && pendingOut == 0 && InHeader() && HeaderStands()
      modifies this`out, this`availOut, this`pendingOut, this`pending, this`gzindex, this`adler, this`lastFlush,
               this`status, this`emitted, pendingBuf
      ensures Room() && Delivers(old(out), old(availOut))
      ensures if status.Busy? then adler == 0 && emitted == Header(c.head.value, Xfl(c)) else InHeader() && HeaderStands()
      ensures if done then status.Busy? && pending == 0 else pending != 0 && availOut == 0
    {
      if status.Extra? {
        done := ExtraState();
        if !done {
          return;
        }
      }
      done := NameOn();
    }

    method ZlibStart()
      requires Proper(c) && Room() && pending == 0 && emitted == [] && c.kind.ZlibWrapped? && consumed == []
      requires c.dictionary.Some? ==> adler == c.dictionary.value
      modifies this`pending, this`adler, this`status, this`emitted, pendingBuf
      ensures Room() && pendingOut == 0 && BodyStarts()
    {
      PutBytes(Msb16(ZlibWord(c.wBits, LevelFlags(c.level, c.strategy), c.dictionary.Some?)));
      if c.dictionary.Some? {
        PutBytes(Msb(adler));
      }
      adler := c.start;
      status := Busy;
    }

    /** The header is out or pending, and nothing else. */
    ghost predicate BodyStarts()
      reads this`emitted, this`adler, this`status, this`consumed
    {
      Proper(c) && status.Busy? && emitted == HeaderBytes(c) && adler == c.Check(consumed)
    }

    /** The zlib header, or none for a raw stream. */
    method InitState() returns (done: bool)
      requires Proper(c) && Room() && pending == 0 && emitted == [] && !c.kind.GzipWrapped? && (c.kind.Raw? <==> wrap == 0)
      requires consumed == []
      requires if c.kind.Raw? then adler == c.Check([]) else c.dictionary.Some? ==> adler == c.dictionary.value
      modifies this`out, this`availOut, this`pendingOut, this`pending, this`adler, this`lastFlush, this`status, this`emitted, pendingBuf
      ensures Room() && Delivers(old(out), old(availOut)) && BodyStarts()
      ensures if done then pending == 0 else pending != 0 && availOut == 0
    {
      done := true;
      if wrap == 0 {
        status := Busy;
      } else {
        ZlibStart();
        done := Drain();
      }
    }

    /** The whole gzip header, or as much as there is room for. */
    method GzipState() returns (done: bool)
      requires Proper(c) && Room() && pending == 0 && emitted == [] && c.kind.GzipWrapped? && consumed == []
      modifies this`out, this`availOut, this`pendingOut, this`pending, this`gzindex, this`adler, this`lastFlush,
               this`status, this`emitted, pendingBuf
      ensures Room() && Delivers(old(out), old(availOut))
      ensures if status.Busy? then BodyStarts() else InHeader() && HeaderStands()
      ensures if done then status.Busy? && pending == 0 else pending != 0 && availOut == 0
    {
      if c.head.None? {
        PlainGzip();
        done := Drain();
      } else {
        StartGzip();
        done := GzipStates();
      }
    }

    /** The header, as far as there is room. */
    method HeaderStates() returns (done: bool)
      requires Stands() && pending == 0 && !status.Busy? && !status.Finished?
      modifies this`out, this`availOut, this`pendingOut, this`pending, this`gzindex, this`adler, this`lastFlush,
               this`status, this`emitted, pendingBuf
      ensures Room() && Delivers(old(out), old(availOut))
      ensures if status.Busy? then BodyStarts() else InHeader() && HeaderStands()
      ensures if done then status.Busy? && pending == 0 else pending != 0 && availOut == 0
    {
      if status.Init? {
        done := InitState();
      } else if status.Gzip? {
        done := GzipState();
      } else {
        done := GzipStates();
      }
    }

    method WriteHeader() returns (done: bool)
      requires Stands() && pending == 0
      modifies this`out, this`availOut, this`pendingOut, this`pending, this`gzindex, this`adler, this`lastFlush,
               this`status, this`emitted, pendingBuf
      ensures Stands() && Delivers(old(out), old(availOut))
      ensures if done then pending == 0 && (status.Busy? || status.Finished?) else pending != 0 && availOut == 0
      ensures old(status).Busy? || old(status).Finished? ==> done && status == old(status) && emitted == old(emitted)
      ensures status.Finished? ==> old(status).Finished?
    {
      done := true;
      if !status.Busy? && !status.Finished? {
        done := HeaderStates();
        if status.Busy? {
          BodyBegins(c, header, Now());
        }
      }
    }

    // The body and the trailer.

    /** Some bytes of compressed output, through the pending buffer or straight to next_out. */
    method PutBlock()
      requires Room() && pending == 0 && wrap >= 0 && emitted == Due(c, header, Now())
      modifies this`out, this`availOut, this`pendingOut, this`pending, this`body, this`emitted, pendingBuf
      ensures Room() && emitted == Due(c, header, Now()) && Delivers(old(out), old(availOut)) && (pending == 0 || availOut == 0)
    {
      var chunk: seq<Byte> :| |chunk| <= pendingBuf.Length;
      var direct: bool :| true;
      MoreBody(header, body, chunk);
      body := body + chunk;
      if direct && |chunk| <= availOut {
        out := out + chunk;
        emitted := emitted + chunk;
        availOut := availOut - |chunk|;
      } else {
        PutBytes(chunk);
        FlushPending();
      }
    }

    /** read_buf: the next n bytes of the input, and the check value moved over them. */
    method ReadBuf(n: nat)
      requires Proper(c) && adler == c.Check(consumed) && n <= |nextIn|
      modifies this`nextIn, this`consumed, this`totalIn, this`adler
      ensures consumed == old(consumed) + old(nextIn)[..n] && nextIn == old(nextIn)[n..]
      ensures totalIn == old(totalIn) + n && adler == c.Check(consumed)
    {
      CheckOn(c, consumed, nextIn[..n]);
      adler := c.update(adler, nextIn[..n]);
      consumed := consumed + nextIn[..n];
      nextIn := nextIn[n..];
      totalIn := totalIn + n;
    }

    /** Some of the input. */
    method TakeInput()
      requires Proper(c) && adler == c.Check(consumed)
      modifies this`nextIn, this`consumed, this`totalIn, this`adler
      ensures Reads(old(consumed + nextIn), |old(nextIn)|) && old(consumed) <= consumed
      ensures totalIn == old(totalIn) + |consumed| - |old(consumed)| && adler == c.Check(consumed)
    {
      var n: nat :| n <= |nextIn|;
      MovedOver(consumed, nextIn, n);
      ReadBuf(n);
    }

    /** Filling the window and then putting a block. */
    method TakeAndPut()
      requires Proper(c) && Room() && pending == 0 && status.Busy? && InBody()
      modifies this`out, this`availOut, this`pendingOut, this`pending, this`body, this`nextIn, this`consumed, this`totalIn,
               this`adler, this`emitted, pendingBuf
      ensures Room() && InBody() && Delivers(old(out), old(availOut)) && (pending == 0 || availOut == 0)
      ensures Reads(old(consumed + nextIn), |old(nextIn)|)
    {
      TakeInput();
      PutBlock();
    }

    /** Input taken and blocks put in turn, until one cannot all be delivered or there is nothing to put. */
    method TakeAndPutAll()
      requires Proper(c) && Room() && pending == 0 && status.Busy? && InBody()
      modifies this`out, this`availOut, this`pendingOut, this`pending, this`body, this`nextIn, this`consumed, this`totalIn,
               this`adler, this`emitted, pendingBuf
      ensures Room() && InBody() && Delivers(old(out), old(availOut)) && (pending == 0 || availOut == 0)
      ensures Reads(old(consumed + nextIn), |old(nextIn)|)
    {
      TakeInput();
      var rounds: nat :| rounds >= 0;
      while rounds > 0 && pending == 0
        modifies this`out, this`availOut, this`pendingOut, this`pending, this`body, this`nextIn, this`consumed, this`totalIn,
                 this`adler, this`emitted, pendingBuf
        invariant Room() && InBody() && Delivers(old(out), old(availOut)) && (pending == 0 || availOut == 0)
        invariant Reads(old(consumed + nextIn), |old(nextIn)|)
      {
        TakeAndPut();
        rounds := rounds - 1;
      }
    }

    /**
     The compression functions, as far as their contract is needed here. They finish only when everything
     is read and nothing is left in the window. That every block is put with nothing pending is what
     Matchers.Reports and TokenOutput.Delivered say of deflate_fast and deflate_slow, and
     StoredDeflate.Reports of deflate_stored.
     */
    method Compress(flush: FlushMode) returns (b: BlockState)
      requires Proper(c) && Room() && pending == 0 && status.Busy? && InBody()
      modifies this`out, this`availOut, this`pendingOut, this`pending, this`body, this`nextIn, this`consumed, this`totalIn,
               this`adler, this`lookahead, this`emitted, pendingBuf
      ensures Room() && InBody() && Delivers(old(out), old(availOut)) && (pending == 0 || availOut == 0)
      ensures Reads(old(consumed + nextIn), |old(nextIn)|)
      ensures b.BlockDone? || b.FinishDone? ==> pending == 0
      ensures b.BlockDone? ==> !flush.NoFlush? && !flush.Finish?
      ensures b.FinishStarted? || b.FinishDone? ==> flush.Finish? && nextIn == [] && lookahead == 0
    {
      TakeAndPutAll();
      var left: nat :| left >= 0;
      lookahead := left;
      if flush.Finish? && nextIn == [] && lookahead == 0 {
        b := if pending == 0 then FinishDone else FinishStarted;
      } else {
        b := if pending == 0 && !flush.NoFlush? && !flush.Finish? then BlockDone else NeedMore;
      }
    }

    method PutTrailer()
      requires Room() && pending == 0 && (c.kind.GzipWrapped? <==> wrap == 2) && !c.kind.Raw?
      requires totalIn == |consumed| && adler == c.Check(consumed)
      modifies this`pending, this`emitted, pendingBuf
      ensures Room() && emitted == old(emitted) + Trailer(c, consumed)
    {
      if wrap == 2 {
        PutBytes(Lsb(adler));
        PutBytes(LsbOf(totalIn, 4));
      } else {
        PutBytes(Msb(adler));
      }
    }

    /** The trailer, once: after it the sign of wrap says that it was written. */
    method WriteTrailer()
      requires Room() && pending == 0 && status.Finished? && InBody() && wrap > 0
      modifies this`out, this`availOut, this`pendingOut, this`pending, this`wrap, this`emitted, pendingBuf
      ensures Room() && InBody() && wrap == -old(wrap) && Delivers(old(out), old(availOut))
    {
      WithTrailer(header, body, Trailer(c, consumed));
      PutTrailer();
      FlushPending();
      wrap := -wrap;
    }

    // A call.

    /** All the input is read and everything is delivered: header, body and trailer. */
    ghost predicate Complete()
      reads this`out, this`pending, this`body, this`consumed, this`nextIn, this`status
    {
      status.Finished? && pending == 0 && nextIn == [] && out == header + body + Trailer(c, consumed)
    }

    /** A call with this much input and room returns Z_BUF_ERROR. */
    predicate WouldRefuse(input: nat, room: nat, flush: FlushMode)
      reads this
    {
      Refused(status.Finished?, input, pending, room, if lastFlush.Some? then Rank(lastFlush.value) else -1, flush)
    }

    /** The checks at the start of a call, and what is left from the one before. */
    method Enter(flush: FlushMode) returns (code: Option<Code>)
      requires Room()
      modifies this`out, this`availOut, this`pendingOut, this`pending, this`lastFlush
      ensures Room() && Delivers(old(out), old(availOut))
      ensures code.None? ==> pending == 0 && (status.Finished? ==> flush.Finish? && nextIn == [])
      ensures code.Some? ==> !code.value.StreamEnd?
      ensures code == Some(StreamError) <==> WrongFlush(status.Finished?, flush)
      ensures code == Some(BufError) <==> old(WouldRefuse(|nextIn|, availOut, flush))
    {
      if status.Finished? && !flush.Finish? {
        return Some(StreamError);
      }
      if availOut == 0 {
        return Some(BufError);
      }
      var oldFlush := lastFlush;
      lastFlush := Some(flush);
      if pending != 0 {
        FlushPending();
        if availOut == 0 {
          lastFlush := None;
          return Some(Code.Ok);
        }
      } else if nextIn == [] && oldFlush.Some? && Rank(flush) <= Rank(oldFlush.value) && !flush.Finish? {
        return Some(BufError);
      }
      if status.Finished? && nextIn != [] {
        return Some(BufError);
      }
      code := None;
    }

    /** Marks that this call stopped for want of room, so that the next one is not refused. */
    method NoteFull()
      modifies this`lastFlush
    {
      if availOut == 0 {
        lastFlush := None;
      }
    }

    /** The end of a block that the caller asked for, unless it only wanted the block done. */
    method EndBlock(flush: FlushMode) returns (code: Option<Code>)
      requires Room() && pending == 0 && status.Busy? && InBody()
      modifies this`out, this`availOut, this`pendingOut, this`pending, this`body, this`lastFlush, this`emitted, pendingBuf
      ensures Room() && InBody() && Delivers(old(out), old(availOut))
      ensures code.None? || code == Some(Code.Ok)
    {
      if !flush.Block? {
        PutBlock();
      } else {
        FlushPending();
      }
      code := if availOut == 0 then Some(Code.Ok) else None;
      NoteFull();
    }

    /** What the result of the compression function means for the stream. */
    method Conclude(b: BlockState, flush: FlushMode) returns (code: Option<Code>)
      requires Room() && InBody() && status.Busy? && (b.BlockDone? || b.FinishDone? ==> pending == 0)
      requires b.BlockDone? ==> !flush.Finish?
      requires b.FinishStarted? || b.FinishDone? ==> lookahead == 0 && nextIn == []
      modifies this`out, this`availOut, this`pendingOut, this`pending, this`body, this`status, this`lastFlush, this`emitted,
               pendingBuf
      ensures Room() && InBody() && Delivers(old(out), old(availOut))
      ensures code.None? ==> if status.Busy? then !flush.Finish? else pending == 0 && nextIn == []
      ensures code.Some? ==> code.value.Ok?
    {
      code := None;
      if b.BlockDone? {
        code := EndBlock(flush);
      } else {
        if b.FinishStarted? || b.FinishDone? {
          status := Finished;
        }
        if !b.FinishDone? {
          code := Some(Code.Ok);
          NoteFull();
        }
      }
    }

    /** One run of the compression function, and what its result means for the stream. */
    method WorkOnce(flush: FlushMode) returns (code: Option<Code>)
      requires Proper(c) && Room() && pending == 0 && InBody() && status.Busy?
      modifies this`out, this`availOut, this`pendingOut, this`pending, this`body, this`nextIn, this`consumed, this`totalIn,
               this`adler, this`lookahead, this`status, this`lastFlush, this`emitted, pendingBuf
      ensures Room() && InBody() && Delivers(old(out), old(availOut))
      ensures Reads(old(consumed + nextIn), |old(nextIn)|)
      ensures code.None? ==> if status.Busy? then !flush.Finish? else pending == 0 && nextIn == []
      ensures code.Some? ==> code.value.Ok?
    {
      var b := Compress(flush);
      code := Conclude(b, flush);
    }

    /** Compression, if there is anything to do. */
    method Work(flush: FlushMode) returns (code: Option<Code>)
      requires Proper(c) && Room() && pending == 0 && InBody()
      requires status.Finished? ==> flush.Finish? && nextIn == []
      modifies this`out, this`availOut, this`pendingOut, this`pending, this`body, this`nextIn, this`consumed, this`totalIn,
               this`adler, this`lookahead, this`status, this`lastFlush, this`emitted, pendingBuf
      ensures Room() && InBody() && Delivers(old(out), old(availOut))
      ensures Reads(old(consumed + nextIn), |old(nextIn)|)
      ensures code.None? && flush.Finish? ==> pending == 0 && nextIn == [] && status.Finished?
      ensures code.Some? ==> code.value.Ok?
      ensures old(status).Finished? ==> code.None? && emitted == old(emitted) && consumed == old(consumed)
    {
      code := None;
      if nextIn != [] || lookahead != 0 || (!flush.NoFlush? && !status.Finished?) {
        code := WorkOnce(flush);
      }
    }

    /** The trailer after the last block. */
    method Close() returns (code: Code)
      requires Room() && pending == 0 && status.Finished? && nextIn == [] && InBody()
      modifies this`out, this`availOut, this`pendingOut, this`pending, this`wrap, this`emitted, pendingBuf
      ensures Room() && InBody() && Delivers(old(out), old(availOut))
      ensures code.StreamEnd? ==> Complete()
      ensures old(wrap) <= 0 ==> emitted == old(emitted) && wrap == old(wrap)
      ensures code.Ok? || code.StreamEnd?
    {
      if wrap <= 0 {
        code := StreamEnd;
      } else {
        WriteTrailer();
        code := if pending != 0 then Code.Ok else StreamEnd;
      }
    }

    /** The body and the trailer. */
    method Finish(flush: FlushMode) returns (code: Code)
      requires Proper(c) && Room() && pending == 0 && InBody()
      requires status.Finished? ==> flush.Finish? && nextIn == []
      modifies this`out, this`availOut, this`pendingOut, this`pending, this`body, this`nextIn, this`consumed,
               this`totalIn, this`adler, this`lookahead, this`status, this`wrap, this`lastFlush, this`emitted, pendingBuf
      ensures Room() && InBody() && Delivers(old(out), old(availOut))
      ensures Reads(old(consumed + nextIn), |old(nextIn)|)
      ensures code.StreamEnd? ==> Complete()
      ensures old(wrap) < 0 ==> emitted == old(emitted) && wrap == old(wrap)
      ensures code.Ok? || code.StreamEnd?
    {
      code := Code.Ok;
      var early := Work(flush);
      if early.None? && flush.Finish? {
        code := Close();
      }
    }

    /** The same, for a stream that stands. */
    method FinishStanding(flush: FlushMode) returns (code: Code)
      requires Stands() && pending == 0 && (status.Busy? || status.Finished?)
      requires status.Finished? ==> flush.Finish? && nextIn == []
      modifies this`out, this`availOut, this`pendingOut, this`pending, this`body, this`nextIn, this`consumed,
               this`totalIn, this`adler, this`lookahead, this`status, this`wrap, this`lastFlush, this`emitted, pendingBuf
      ensures Stands() && Delivers(old(out), old(availOut))
      ensures Reads(old(consumed + nextIn), |old(nextIn)|)
      ensures code.StreamEnd? ==> Complete()
      ensures old(wrap) < 0 ==> emitted == old(emitted) && wrap == old(wrap)
      ensures code.Ok? || code.StreamEnd?
    {
      code := Finish(flush);
    }

    /** The header, the body and the trailer, as far as there is room. */
    method Continue(flush: FlushMode) returns (code: Code)
      requires Stands() && pending == 0 && (status.Finished? ==> flush.Finish? && nextIn == [])
      modifies this`out, this`availOut, this`pendingOut, this`pending, this`gzindex, this`body, this`nextIn, this`consumed,
               this`totalIn, this`adler, this`lookahead, this`status, this`wrap, this`lastFlush, this`emitted, pendingBuf
      ensures Stands() && Delivers(old(out), old(availOut))
      ensures Reads(old(consumed + nextIn), |old(nextIn)|)
      ensures code.StreamEnd? ==> Complete()
      ensures old(wrap) < 0 ==> emitted == old(emitted) && wrap == old(wrap)
      ensures code.Ok? || code.StreamEnd?
    {
      code := Code.Ok;
      var done := WriteHeader();
      if done {
        code := FinishStanding(flush);
      }
    }

    /** The caller's input and room, and the start of the call. */
    method Offer(input: seq<Byte>, room: nat, flush: FlushMode) returns (code: Option<Code>)
      requires Stands()
      modifies this`nextIn, this`out, this`availOut, this`pendingOut, this`pending, this`lastFlush
      ensures Stands() && Delivers(old(out), room) && nextIn == input
      ensures code.None? ==> pending == 0 && (status.Finished? ==> flush.Finish? && nextIn == [])
      ensures code.Some? ==> !code.value.StreamEnd?
      ensures code == Some(StreamError) <==> old(WrongFlush(status.Finished?, flush))
      ensures code == Some(BufError) <==> old(WouldRefuse(|input|, room, flush))
    {
      nextIn, availOut := input, room;
      code := Enter(flush);
      StillStands();
    }

    /** What was put out and where the stream is are the same as before. */
    twostate lemma StillStands()
      requires old(Stands()) && Room() && Now() == old(Now()) && emitted == old(emitted)
      ensures Stands()
    {
    }

    /** deflate(), given input and room: the output of all the calls is one sequence in order. */
    method Deflate(input: seq<Byte>, room: nat, flush: FlushMode) returns (code: Code)
      requires Stands()
      modifies this, pendingBuf
      ensures Stands() && Delivers(old(out), room)
      ensures Reads(old(consumed) + input, |input|)
      ensures code.StreamEnd? ==> Complete()
      ensures old(wrap) < 0 ==> emitted == old(emitted) && wrap == old(wrap)
      ensures code.StreamError? <==> old(WrongFlush(status.Finished?, flush))
      ensures code.BufError? <==> old(WouldRefuse(|input|, room, flush))
      ensures code.StreamError? || code.BufError? ==> emitted == old(emitted) && consumed == old(consumed)
    {
      var early := Offer(input, room, flush);
      if early.Some? {
        code := early.value;
      } else {
        code := Continue(flush);
      }
    }

    /** deflateInit2_ and deflateReset, and deflateSetDictionary and deflateSetHeader if they are called. */
    constructor (setup: Setup, size: nat)
      requires Proper(setup) && 512 <= size
      ensures Stands() && fresh(pendingBuf) && c == setup && out == [] && consumed == [] && nextIn == []
      ensures body == [] && lookahead == 0 && wrap >= 0 && pending == 0 && !status.Busy? && !status.Finished?
    {
      c := setup;
      header := HeaderBytes(setup);
      pendingBuf := new Byte[size];
      out, availOut, pendingOut, pending := [], 0, 0, 0;
      status := if setup.kind.GzipWrapped? then Gzip else Init;
      wrap := match setup.kind case Raw => 0 case ZlibWrapped => 1 case GzipWrapped => 2;
      gzindex, lastFlush, nextIn, totalIn, lookahead, consumed, body, emitted := 0, None, [], 0, 0, [], [], [];
      adler := if setup.dictionary.Some? && setup.kind.ZlibWrapped? then setup.dictionary.value else setup.start;
    }
  }

  method Perform(s: Stream, call: Call<Byte>) returns (code: Code)
    requires s.Stands()
    modifies s, s.pendingBuf
    ensures s.Stands() && s.Delivers(old(s.out), call.room) && (code.StreamEnd? ==> s.Complete())
    ensures s.consumed + s.nextIn == old(s.consumed + s.nextIn) + call.more
  {
    Regroup(s.consumed, s.nextIn, call.more);
    code := s.Deflate(s.nextIn + call.more, call.room, call.flush);
  }

  /** The calls one after another, each with the input that the ones before it did not take. The output
      has a header, what was compressed, and a trailer for exactly the input once all of it is there. */
  method Run(c: Setup, size: nat, calls: seq<Call<Byte>>) returns (s: Stream, code: Code)
    requires Proper(c) && 512 <= size
    ensures s.Stands() && s.c == c && s.consumed + s.nextIn == AllInput(calls) && |s.out| <= AllRoom(calls)
    ensures calls != [] && code.StreamEnd? ==> s.out == HeaderBytes(c) + s.body + Trailer(c, AllInput(calls))
  {
    s := new Stream(c, size);
    code := Code.Ok;
    for i := 0 to |calls|
      invariant s.Stands() && s.c == c && fresh(s) && fresh(s.pendingBuf)
      invariant s.consumed + s.nextIn == AllInput(calls[..i]) && |s.out| <= AllRoom(calls[..i])
      invariant i != 0 && code.StreamEnd? ==> s.Complete()
    {
      NextCall(calls, i);
      code := Perform(s, calls[i]);
    }
    Whole(calls);
    assert code.StreamEnd? && calls != [] ==> s.consumed + [] == s.consumed;
  }

  /** A complete gzip stream can be read from its start: the header that was given, then the rest. */
  lemma HeaderIsRead(c: Setup, body: seq<Byte>, trailer: seq<Byte>)
    requires Proper(c) && c.kind.GzipWrapped? && c.head.Some?
    ensures Read(HeaderBytes(c) + body + trailer) == Some(Parsed(c.head.value, body + trailer))
  {
    ReadHeader(c.head.value, Xfl(c), body + trailer);
    Regroup(HeaderBytes(c), body, trailer);
  }

  lemma WithTrailer(header: seq<Byte>, body: seq<Byte>, trailer: seq<Byte>)
    ensures header + body + [] + trailer == header + body + trailer
  {
  }

  lemma CutAt(out: seq<Byte>, buf: seq<Byte>, start: nat, len: nat, n: nat)
    requires len <= n && start + n <= |buf|
    ensures out + buf[start..start + n] == out + buf[start..start + len] + buf[start + len..start + n]
    ensures len == n ==> buf[start + len..start + n] == []
  {
  }

  lemma CountRest(out: seq<Byte>, buf: seq<Byte>, pending: nat, beg: nat)
    requires beg <= pending <= |buf|
    ensures var all := out + buf[0..pending];
            Crc(Crc(0, Without(all, pending - beg)), buf[beg..pending]) == Crc(0, all)
  {
    var all := out + buf[0..pending];
    CrcConcat(Without(all, pending - beg), buf[beg..pending]);
    assert Without(all, pending - beg) + buf[beg..pending] == all;
  }

  lemma MoreBody(header: seq<Byte>, body: seq<Byte>, chunk: seq<Byte>)
    ensures header + body + [] + chunk == header + (body + chunk) + []
  {
  }

  lemma TextEnds(s: seq<Byte>)
    requires 0 !in s
    ensures var t := TextPart(Some(s));
            t != [] && t[|t| - 1] == 0 && 0 !in t[..|t| - 1]
  {
    assert (s + [0])[..|s|] == s;
  }

  lemma SameCounted(was: seq<Byte>, b: Byte, n: nat)
    ensures n <= |was| ==> Without(was + [b], n + 1) == Without(was, n)
  {
  }

  lemma OnlyLast(text: seq<Byte>, i: nat)
    requires i < |text| && text[|text| - 1] == 0 && 0 !in text[..|text| - 1]
    ensures text[i] == 0 <==> i == |text| - 1
  {
    if i < |text| - 1 {
      assert text[..|text| - 1][i] == text[i];
    }
  }

  lemma Later(before: seq<Byte>, s: seq<Byte>, i: nat, n: nat)
    requires i + n <= |s|
    ensures before + s[..i] + s[i..i + n] == before + s[..i + n]
    ensures i + n == |s| ==> s[i..i + n] == s[i..] && s[..i + n] == s
  {
  }
}
