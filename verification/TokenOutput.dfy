/**
 The output side of the matchers: the symbol buffer, the blocks written from it, and
 the counters of pending output. What has been tallied expands to the input covered.
 */
module TokenOutput {
  import opened RollingHash
  import opened Lz77
  import opened Wrappers

  /** The tokens so far: those of the blocks written, those in the symbol buffer, and the
      window index where the block in the buffer starts. */
  datatype Tape = Tape(sym: seq<Uchar>, flushed: seq<Token>, blockStart: int) {

    function Tokens(): seq<Token>
      requires |sym| % 3 == 0
    {
      flushed + UnpackAll(sym)
    }

    /** The tokens are in range and expand to the first n bytes of the input, and those of
        the blocks written to the bytes before window index blockStart. */
    ghost predicate Covers(maxDist: int, stream: seq<Byte>, base: nat, n: nat) {
      && |sym| % 3 == 0 && 0 <= maxDist <= 32768
      && 0 <= base + blockStart <= n <= |stream|
      && Expand(Tokens()) == Some(stream[..n])
      && AllInRange(Tokens(), maxDist)
      && Expand(flushed) == Some(stream[..base + blockStart])
    }
  }

  /** The tape with the counters of output not yet delivered and of room for it. */
  datatype Output = Output(t: Tape, availOut: nat, pending: nat)

  /** One more token in range that takes the covered prefix to a longer one. */
  lemma CoversStep(o: Tape, o': Tape, t: Token, maxDist: int, stream: seq<Byte>, base: nat, n: nat, n': nat)
    requires o.Covers(maxDist, stream, base, n) && InRange(t, maxDist) && n <= n' <= |stream|
    requires Step(stream[..n], t) == Some(stream[..n'])
    requires |o'.sym| % 3 == 0 && o'.Tokens() == o.Tokens() + [t]
    requires o'.flushed == o.flushed && o'.blockStart == o.blockStart
    ensures o'.Covers(maxDist, stream, base, n')
  {
    ExpandAppend(o.Tokens(), t);
  }

  /** The macros _tr_tally_lit and _tr_tally_dist: pack a token into the symbol buffer. */
  method Tally(o: Tape, t: Token) returns (o': Tape)
    requires |o.sym| % 3 == 0 && InRange(t, 32768)
    ensures o' == o.(sym := o'.sym) && |o'.sym| == |o.sym| + 3 && |o'.sym| % 3 == 0
    ensures o'.Tokens() == o.Tokens() + [t]
  {
    UnpackAppend(o.sym, t);
    o' := o.(sym := o.sym + Pack(t));
  }

  /** Tally a literal that is the next byte of the input. */
  method TallyLiteral(o: Tape, b: Byte, ghost maxDist: int, ghost stream: seq<Byte>, ghost base: nat, ghost n: nat)
    returns (o': Tape)
    requires o.Covers(maxDist, stream, base, n) && n < |stream| && b == stream[n]
    ensures o'.Covers(maxDist, stream, base, n + 1) && o'.Tokens() == o.Tokens() + [Literal(b)]
    ensures o' == o.(sym := o'.sym) && |o'.sym| == |o.sym| + 3
  {
    o' := Tally(o, Literal(b));
    assert stream[..n] + [b] == stream[..n + 1];
    CoversStep(o, o', Literal(b), maxDist, stream, base, n, n + 1);
  }

  /** Tally a match that repeats earlier input. */
  method TallyMatch(o: Tape, len: nat, dist: nat, ghost maxDist: int, ghost stream: seq<Byte>, ghost base: nat, ghost n: nat)
    returns (o': Tape)
    requires o.Covers(maxDist, stream, base, n) && InRange(Match(len, dist), maxDist)
    requires dist <= n && n + len <= |stream| && Repeats(stream, n, len, dist)
    ensures o'.Covers(maxDist, stream, base, n + len) && o'.Tokens() == o.Tokens() + [Match(len, dist)]
    ensures o' == o.(sym := o'.sym) && |o'.sym| == |o.sym| + 3
  {
    o' := Tally(o, Match(len, dist));
    CopyExtends(stream, n, len, dist);
    CoversStep(o, o', Match(len, dist), maxDist, stream, base, n, n + len);
  }

  /** More input and a window that has moved down by k change nothing. */
  lemma CoversRefilled(o: Tape, maxDist: int, stream: seq<Byte>, stream': seq<Byte>, base: nat, k: nat, n: nat)
    requires o.Covers(maxDist, stream, base, n) && stream <= stream'
    ensures o.(blockStart := o.blockStart - k).Covers(maxDist, stream', base + k, n)
  {
    assert stream'[..n] == stream[..n];
    assert stream'[..base + o.blockStart] == stream[..base + o.blockStart];
  }

  /** _tr_flush_block, as far as it is known here: it empties the symbol buffer into some
      number of bytes of pending output, written from the start of pending_buf, so nothing
      may be pending. When the bytes of the block are still in the
      window they are handed over as buf, to be stored instead if that is smaller, so
      they must be what the symbols stand for. */
  method TrFlushBlock(o: Output, buf: Option<seq<Byte>>, storedLen: int, last: bool) returns (o': Output)
    requires o.pending == 0 && |o.t.sym| % 3 == 0 && Expand(o.t.flushed).Some? && storedLen >= 0
    requires buf.Some? ==> |buf.value| == storedLen && Expand(o.t.Tokens()) == Some(Expand(o.t.flushed).value + buf.value)
    ensures o' == Output(o.t.(sym := [], flushed := o.t.Tokens()), o.availOut, o'.pending)
  {
    var produced :| produced >= 0;
    o' := Output(o.t.(sym := [], flushed := o.t.Tokens()), o.availOut, produced);
  }

  /** flush_pending: deliver as much pending output as there is room for. */
  function FlushPending(o: Output): Output {
    var len := if o.pending <= o.availOut then o.pending else o.availOut;
    o.(pending := o.pending - len, availOut := o.availOut - len)
  }

  lemma BlockBytes(stream: seq<Byte>, base: nat, bytes: seq<Byte>, a: nat, b: nat)
    requires a <= b <= |bytes| && base + b <= |stream|
    requires forall i :: 0 <= i < b ==> bytes[i] == stream[base + i]
    ensures stream[..base + b] == stream[..base + a] + bytes[a..b]
  {
    var l, r := stream[..base + b], stream[..base + a] + bytes[a..b];
    assert |l| == |r|;
    forall i | 0 <= i < |l|
      ensures l[i] == r[i]
    {
      if i >= base + a {
        assert bytes[i - base] == stream[base + (i - base)];
      }
    }
  }

  /** Everything has been delivered, or there is no room for it. */
  predicate Delivered(o: Output) {
    o.pending == 0 || o.availOut == 0
  }

  /** FLUSH_BLOCK_ONLY for the window bytes with the current string at strStart. */
  method FlushBlockOnly(o: Output, maxDist: int, stream: seq<Byte>, base: nat, strStart: nat, bytes: seq<Byte>, last: bool)
    returns (o': Output)
    requires o.pending == 0 && o.t.Covers(maxDist, stream, base, base + strStart) && strStart <= |bytes|
    requires forall i :: 0 <= i < strStart ==> bytes[i] == stream[base + i]
    ensures o'.t.Covers(maxDist, stream, base, base + strStart)
    ensures o'.t == Tape([], o.t.Tokens(), strStart) && o'.t.Tokens() == o.t.Tokens() && Delivered(o')
  {
    var start := o.t.blockStart;
    var buf := if start >= 0 then Some(bytes[start..strStart]) else None;
    if start >= 0 {
      BlockBytes(stream, base, bytes, start, strStart);
    }
    o' := TrFlushBlock(o, buf, strStart - start, last);
    o' := FlushPending(o'.(t := o'.t.(blockStart := strStart)));
    assert o'.t.Tokens() == o'.t.flushed;
  }
}
