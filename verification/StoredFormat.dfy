/**
 Stored blocks in the deflate format, section 3.2.4 of RFC 1951, as bits: what a sequence of
 blocks looks like and what a decompressor reads from it.
 */
module StoredFormat {
  import opened Sequences
  import opened Bits
  import opened Wrappers

  /** The longest stored block. */
  const MAX_STORED := 65535

  /** A stored block, or the empty static block that marks a partial flush. */
  datatype Block = Stored(last: bool, data: Chunk) | EmptyStatic

  type Chunk = s: seq<Octet> | |s| <= MAX_STORED

  /** LEN and NLEN, its complement. */
  function Lengths(len: nat): (r: seq<Octet>)
    requires len <= MAX_STORED
    ensures |r| == 4
  {
    [len % 256, len / 256, 255 - len % 256, 255 - len / 256]
  }

  function Header(last: bool): (r: seq<bool>)
    ensures |r| == 3
  {
    [last, false, false]
  }

  /** The ten bits of an empty static block. */
  function StaticBits(): (r: seq<bool>)
    ensures |r| == 10
  {
    [false, true, false, false, false, false, false, false, false, false]
  }

  /** How far into a byte the bits written so far reach. */
  type Phase = p: nat | p < 8

  /** From the end of a block header that starts at phase p to the next byte boundary. */
  function Gap(p: Phase): (n: nat)
    ensures p + 3 + n == 8 || p + 3 + n == 16
  {
    if p <= 5 then 5 - p else 13 - p
  }

  /** The bits of a block that starts at phase p: a stored block has three header bits and
      goes on at the next byte boundary. */
  function BlockBits(p: Phase, b: Block): (r: seq<bool>)
    ensures |r| >= 10
  {
    match b
    case Stored(last, data) =>
      Header(last) + (ZeroBits(Gap(p)) + (AllBits(Lengths(|data|)) + AllBits(data)))
    case EmptyStatic => StaticBits()
  }

  /** The phase after a block. */
  function Next(p: Phase, b: Block): Phase {
    if b.Stored? then 0 else if p < 6 then p + 2 else p - 6
  }

  function PhaseAfter(p: Phase, blocks: seq<Block>): Phase
    decreases blocks, p
  {
    if blocks == [] then p else PhaseAfter(Next(p, blocks[0]), blocks[1..])
  }

  /** The bits of a sequence of blocks from phase p on. */
  function Encode(p: Phase, blocks: seq<Block>): seq<bool>
    decreases blocks, p
  {
    if blocks == [] then [] else BlockBits(p, blocks[0]) + Encode(Next(p, blocks[0]), blocks[1..])
  }

  function Data(b: Block): seq<Octet> {
    if b.Stored? then b.data else []
  }

  function Payload(blocks: seq<Block>): seq<Octet> {
    if blocks == [] then [] else Data(blocks[0]) + Payload(blocks[1..])
  }

  lemma {:induction false} PayloadAppend(blocks: seq<Block>, b: Block)
    ensures Payload(blocks + [b]) == Payload(blocks) + Data(b)
  {
    if blocks == [] {
      assert [] + [b] == [b];
    } else {
      var h, t := blocks[0], blocks[1..];
      PayloadAppend(t, b);
      assert (blocks + [b])[1..] == t + [b];
      Regroup(Data(h), Payload(t), Data(b));
    }
  }

  lemma EncodeCons(p: Phase, b: Block, rest: seq<Block>)
    ensures Encode(p, [b] + rest) == BlockBits(p, b) + Encode(Next(p, b), rest)
    ensures PhaseAfter(p, [b] + rest) == PhaseAfter(Next(p, b), rest)
  {
    assert ([b] + rest)[1..] == rest;
  }

  lemma EncodeOne(p: Phase, b: Block)
    ensures Encode(p, [b]) == BlockBits(p, b)
  {
    assert BlockBits(p, b) + [] == BlockBits(p, b);
  }

  lemma {:induction false} EncodeAppend(p: Phase, blocks: seq<Block>, b: Block)
    ensures Encode(p, blocks + [b]) == Encode(p, blocks) + BlockBits(PhaseAfter(p, blocks), b)
    ensures PhaseAfter(p, blocks + [b]) == Next(PhaseAfter(p, blocks), b)
    decreases blocks
  {
    if blocks == [] {
      assert [] + [b] == [b];
      EncodeOne(p, b);
    } else {
      var h, t := blocks[0], blocks[1..];
      EncodeAppend(Next(p, h), t, b);
      assert blocks + [b] == [h] + (t + [b]);
      EncodeCons(p, h, t + [b]);
      Regroup(BlockBits(p, h), Encode(Next(p, h), t), BlockBits(PhaseAfter(p, blocks), b));
    }
  }

  /** Only the last block has the final bit, and it is a stored one. */
  predicate Closed(blocks: seq<Block>) {
    && blocks != [] && blocks[|blocks| - 1].Stored? && blocks[|blocks| - 1].last
    && Open(blocks[..|blocks| - 1])
  }

  predicate Open(blocks: seq<Block>) {
    forall b :: b in blocks ==> b.Stored? ==> !b.last
  }

  function Short(lo: Octet, hi: Octet): nat {
    (lo as nat) + 256 * (hi as nat)
  }

  /** A stored block read from what follows its header and padding, with the bits after it. */
  function ReadStored(t: seq<bool>): (r: Option<(seq<Octet>, seq<bool>)>)
    ensures r.Some? ==> |r.value.1| <= |t|
  {
    if |t| < 32 then None
    else
      var l := Pack(t[..32]);
      var len := Short(l[0], l[1]);
      if Short(l[2], l[3]) != MAX_STORED - len || |t[32..]| < 8 * len then None
      else Some((Pack(t[32..][..8 * len]), t[32..][8 * len..]))
  }

  function Prepend(data: seq<Octet>, rest: Option<seq<Octet>>): Option<seq<Octet>> {
    match rest
    case None => None
    case Some(r) => Some(data + r)
  }

  /** What a decompressor gets from the bits from position p on, if they are stored blocks and
      empty static ones up to one with the final bit. */
  function Inflate(t: seq<bool>, p: Phase): Option<seq<Octet>>
    decreases |t|
  {
    if |t| < 10 then None
    else if t[..10] == StaticBits() then Inflate(t[10..], Next(p, EmptyStatic))
    else if t[1..3] != [false, false] || |t| < 3 + Gap(p) then None
    else
      var body := t[3 + Gap(p)..];
      match ReadStored(body)
      case None => None
      case Some((data, rest)) =>
        if t[0] then Some(data) else Prepend(data, Inflate(rest, 0))
  }

  lemma LengthsRead(len: nat)
    requires len <= MAX_STORED
    ensures var l := Pack(AllBits(Lengths(len))); Short(l[0], l[1]) == len && Short(l[2], l[3]) == MAX_STORED - len
  {
    BitsPack(Lengths(len));
  }

  lemma TakeDrop(a: seq<bool>, b: seq<bool>)
    ensures (a + b)[..|a|] == a && (a + b)[|a|..] == b
  {
  }

  lemma ReadStoredBack(data: Chunk, rest: seq<bool>)
    ensures ReadStored(AllBits(Lengths(|data|)) + (AllBits(data) + rest)) == Some((data, rest))
  {
    var l := AllBits(Lengths(|data|));
    TakeDrop(l, AllBits(data) + rest);
    TakeDrop(AllBits(data), rest);
    LengthsRead(|data|);
    BitsPack(data);
  }

  /** The parts of a stored block and what follows it. */
  lemma StoredParts(p: Phase, last: bool, data: Chunk, rest: seq<bool>)
    ensures var t := BlockBits(p, Stored(last, data)) + rest;
            && |t| >= 10 && t[0] == last && t[1..3] == [false, false] && |t| >= 3 + Gap(p)
            && t[3 + Gap(p)..] == AllBits(Lengths(|data|)) + (AllBits(data) + rest)
  {
    var body := AllBits(Lengths(|data|)) + (AllBits(data) + rest);
    var pad := ZeroBits(Gap(p));
    Associate(Header(last), pad, AllBits(Lengths(|data|)), AllBits(data), rest);
    TakeDrop(Header(last) + pad, body);
  }

  lemma Associate(a: seq<bool>, b: seq<bool>, c: seq<bool>, d: seq<bool>, e: seq<bool>)
    ensures a + (b + (c + d)) + e == a + b + (c + (d + e))
  {
  }

  /** Reading a stored block. */
  lemma InflateStored(p: Phase, last: bool, data: Chunk, rest: seq<bool>)
    ensures var b := BlockBits(p, Stored(last, data));
            Inflate(b + rest, p) == if last then Some(data) else Prepend(data, Inflate(rest, 0))
  {
    var t := BlockBits(p, Stored(last, data)) + rest;
    StoredParts(p, last, data, rest);
    ReadStoredBack(data, rest);
    NotStatic(t);
    InflateBody(t, p, data, rest);
  }

  lemma NotStatic(t: seq<bool>)
    requires |t| >= 10 && t[1..3] == [false, false]
    ensures t[..10] != StaticBits()
  {
    assert t[..10][1] == t[1..3][0];
  }

  lemma InflateBody(t: seq<bool>, p: Phase, data: seq<Octet>, rest: seq<bool>)
    requires |t| >= 10 && t[..10] != StaticBits() && t[1..3] == [false, false] && |t| >= 3 + Gap(p)
    requires ReadStored(t[3 + Gap(p)..]) == Some((data, rest))
    ensures Inflate(t, p) == if t[0] then Some(data) else Prepend(data, Inflate(rest, 0))
  {
  }

  lemma InflateStatic(p: Phase, rest: seq<bool>)
    ensures Inflate(StaticBits() + rest, p) == Inflate(rest, Next(p, EmptyStatic))
  {
    TakeDrop(StaticBits(), rest);
  }

  lemma OpenTail(blocks: seq<Block>)
    requires Closed(blocks) && |blocks| > 1
    ensures Closed(blocks[1..]) && (blocks[0].Stored? ==> !blocks[0].last)
  {
    assert blocks[0] in blocks[..|blocks| - 1];
    assert blocks[1..][..|blocks[1..]| - 1] == blocks[..|blocks| - 1][1..];
  }

  /** Reading a block that is not the last. */
  lemma InflateOpen(p: Phase, b: Block, rest: seq<bool>)
    requires b.Stored? ==> !b.last
    ensures Inflate(BlockBits(p, b) + rest, p) == Prepend(Data(b), Inflate(rest, Next(p, b)))
  {
    if b.Stored? {
      InflateStored(p, b.last, b.data, rest);
    } else {
      InflateStatic(p, rest);
      PrependNothing(Inflate(rest, Next(p, b)));
    }
  }

  lemma PrependNothing(r: Option<seq<Octet>>)
    ensures Prepend([], r) == r
  {
    if r.Some? {
      assert [] + r.value == r.value;
    }
  }

  lemma InflateLast(p: Phase, b: Block)
    requires b.Stored? && b.last
    ensures Inflate(Encode(p, [b]), p) == Some(Payload([b]))
  {
    EncodeOne(p, b);
    InflateStored(p, b.last, b.data, []);
    assert BlockBits(p, b) + [] == BlockBits(p, b);
    assert Payload([b]) == Data(b) + Payload([]) == Data(b);
  }

  /** A decompressor gets the payload back, wherever the blocks start. */
  lemma {:induction false} InflateEncode(p: Phase, blocks: seq<Block>)
    requires Closed(blocks)
    ensures Inflate(Encode(p, blocks), p) == Some(Payload(blocks))
    decreases |blocks|
  {
    if |blocks| == 1 {
      assert blocks == [blocks[0]];
      InflateLast(p, blocks[0]);
    } else {
      var next := Next(p, blocks[0]);
      OpenTail(blocks);
      InflateEncode(next, blocks[1..]);
      InflateOpen(p, blocks[0], Encode(next, blocks[1..]));
    }
  }
}
