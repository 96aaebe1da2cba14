/**
 The output side of deflate_stored: bytes delivered, bytes pending, and the bits that do not
 make a whole byte yet. Together they are the encoding of the blocks written so far.
 */
module StoredOutput {
  import opened Sequences
  import opened Bits
  import opened StoredFormat

  /** The bytes, with fewer than eight bits left over, are the encoding of the blocks. */
  ghost predicate Stands(bytes: seq<Octet>, bits: seq<bool>, blocks: seq<Block>) {
    |bits| < 8 && AllBits(bytes) + bits == Encode(0, blocks) && |bits| == PhaseAfter(0, blocks)
  }

  /** What has gone to next_out, pending_buf, the bits in bi_buf, and the room at next_out. The
      blocks are those that the bits stand for. */
  datatype Sink = Sink(out: seq<Octet>, pending: seq<Octet>, bits: seq<bool>, availOut: nat, blocks: seq<Block>) {

    /** pending_buf has capacity bytes. */
    ghost predicate Ok(capacity: nat) {
      |pending| <= capacity && Stands(out + pending, bits, blocks)
    }
  }

  /** Output is only added to, as far as there is room. */
  predicate Adds(k: Sink, k': Sink) {
    k.out <= k'.out && |k'.out| + k'.availOut == |k.out| + k.availOut
  }

  lemma AddsOn(k: Sink, k1: Sink, k2: Sink)
    requires Adds(k, k1) && Adds(k1, k2)
    ensures Adds(k, k2)
  {
  }

  /** The number of bytes that a stored block has before its data: (bi_valid + 42) >> 3. */
  function HeaderBytes(bits: nat): nat {
    (bits + 42) / 8
  }

  /** The leftover bits and the header of a stored block, up to the byte boundary. */
  function HeaderStart(bits: seq<bool>, last: bool): (r: seq<Octet>)
    requires |bits| < 8
    ensures |r| + 4 == HeaderBytes(|bits|)
  {
    Pack(bits + Header(last) + ZeroBits(Gap(|bits|)))
  }

  /** The bytes of a stored block, with the leftover bits before it. */
  function StoredOctets(bits: seq<bool>, last: bool, data: Chunk): (r: seq<Octet>)
    requires |bits| < 8
    ensures |r| == HeaderBytes(|bits|) + |data|
  {
    HeaderStart(bits, last) + Lengths(|data|) + data
  }

  lemma ThreeConcat(a: seq<Octet>, b: seq<Octet>, c: seq<Octet>)
    ensures AllBits(a + b + c) == AllBits(a) + AllBits(b) + AllBits(c)
  {
    AllBitsConcat(a + b, c);
    AllBitsConcat(a, b);
  }

  lemma FiveParts(a: seq<bool>, b: seq<bool>, c: seq<bool>, d: seq<bool>, e: seq<bool>)
    ensures a + b + c + d + e == a + (b + (c + (d + e)))
  {
  }

  /** Those bytes are what the format wants at that phase. */
  lemma StoredOctetsEncode(bits: seq<bool>, last: bool, data: Chunk)
    requires |bits| < 8
    ensures AllBits(StoredOctets(bits, last, data)) == bits + BlockBits(|bits|, Stored(last, data))
  {
    var h, z := Header(last), ZeroBits(Gap(|bits|));
    PackBits(bits + h + z);
    ThreeConcat(HeaderStart(bits, last), Lengths(|data|), data);
    FiveParts(bits, h, z, AllBits(Lengths(|data|)), AllBits(data));
  }

  /** More bytes that together with what is left over are the bits of one more block. */
  lemma StandsAppend(bytes: seq<Octet>, bits: seq<bool>, blocks: seq<Block>, more: seq<Octet>, bits': seq<bool>, b: Block)
    requires Stands(bytes, bits, blocks) && |bits'| == Next(|bits|, b)
    requires AllBits(more) + bits' == bits + BlockBits(|bits|, b)
    ensures Stands(bytes + more, bits', blocks + [b])
  {
    AllBitsConcat(bytes, more);
    EncodeAppend(0, blocks, b);
    Regroup(AllBits(bytes), AllBits(more), bits');
    Regroup(AllBits(bytes), bits, BlockBits(|bits|, b));
  }

  lemma StandsStored(bytes: seq<Octet>, bits: seq<bool>, blocks: seq<Block>, last: bool, data: Chunk)
    requires Stands(bytes, bits, blocks)
    ensures Stands(bytes + StoredOctets(bits, last, data), [], blocks + [Stored(last, data)])
  {
    var more := StoredOctets(bits, last, data);
    StoredOctetsEncode(bits, last, data);
    assert AllBits(more) + [] == AllBits(more);
    StandsAppend(bytes, bits, blocks, more, [], Stored(last, data));
  }

  /** _tr_stored_block, as far as its contract is known here: a stored block in pending. */
  function TrStoredBlock(k: Sink, data: Chunk, last: bool): Sink
    requires |k.bits| < 8
  {
    k.(pending := k.pending + StoredOctets(k.bits, last, data), bits := [], blocks := k.blocks + [Stored(last, data)])
  }

  lemma TrStoredBlockOk(k: Sink, data: Chunk, last: bool, capacity: nat)
    requires k.Ok(capacity) && |k.pending| + HeaderBytes(|k.bits|) + |data| <= capacity
    ensures TrStoredBlock(k, data, last).Ok(capacity)
  {
    StandsStored(k.out + k.pending, k.bits, k.blocks, last, data);
    Regroup(k.out, k.pending, StoredOctets(k.bits, last, data));
  }

  /** The bytes and the bits left over when ten bits follow fewer than eight. */
  function Aligned(bits: seq<bool>): (r: (seq<Octet>, seq<bool>))
    requires |bits| < 8
    ensures |r.0| <= 2
  {
    var b := bits + StaticBits();
    if |b| < 16 then (Pack(b[..8]), b[8..]) else (Pack(b[..16]), b[16..])
  }

  /** _tr_align: an empty static block. */
  function TrAlign(k: Sink): Sink
    requires |k.bits| < 8
  {
    var a := Aligned(k.bits);
    k.(pending := k.pending + a.0, bits := a.1, blocks := k.blocks + [EmptyStatic])
  }

  lemma AlignedIsEncoded(bits: seq<bool>)
    requires |bits| < 8
    ensures AllBits(Aligned(bits).0) + Aligned(bits).1 == bits + BlockBits(|bits|, EmptyStatic)
    ensures |Aligned(bits).1| == Next(|bits|, EmptyStatic)
  {
    var b := bits + StaticBits();
    PackBits(b[..8]);
    if |b| >= 16 {
      PackBits(b[..16]);
    }
  }

  lemma TrAlignOk(k: Sink, capacity: nat)
    requires k.Ok(capacity) && |k.pending| + 2 <= capacity
    ensures TrAlign(k).Ok(capacity)
  {
    var a := Aligned(k.bits);
    AlignedIsEncoded(k.bits);
    StandsAppend(k.out + k.pending, k.bits, k.blocks, a.0, a.1, EmptyStatic);
    Regroup(k.out, k.pending, a.0);
  }

  /** flush_pending: deliver as many pending bytes as there is room for. Whole bytes never
      stay in bi_buf, so there are none to flush first. */
  method FlushPending(k: Sink, ghost capacity: nat) returns (k': Sink)
    requires k.Ok(capacity)
    ensures k'.Ok(capacity) && k' == k.(out := k'.out, pending := k'.pending, availOut := k'.availOut)
    ensures k'.out + k'.pending == k.out + k.pending && |k'.pending| <= |k.pending|
    ensures Adds(k, k')
    ensures if |k.pending| <= k.availOut then k'.pending == [] && k'.availOut == k.availOut - |k.pending| else k'.availOut == 0
  {
    var len := if |k.pending| <= k.availOut then |k.pending| else k.availOut;
    k' := k.(out := k.out + k.pending[..len], pending := k.pending[len..], availOut := k.availOut - len);
    MovedOver(k.out, k.pending, len);
  }

  /** Replacing the lengths of an empty block's header gives the header of the block. */
  lemma HeaderPatched(bits: seq<bool>, last: bool, len: nat)
    requires |bits| < 8 && len <= MAX_STORED
    ensures var h := StoredOctets(bits, last, []);
            |h| == HeaderBytes(|bits|) >= 4 && h[..|h| - 4] + Lengths(len) == HeaderStart(bits, last) + Lengths(len)
  {
    var start := HeaderStart(bits, last);
    assert (start + Lengths(0) + [])[..|start|] == start;
  }

  lemma DirectStands(out: seq<Octet>, bits: seq<bool>, blocks: seq<Block>, last: bool, data: Chunk)
    requires Stands(out + [], bits, blocks)
    ensures Stands(out + (HeaderStart(bits, last) + Lengths(|data|)) + data, [], blocks + [Stored(last, data)])
  {
    assert out + [] == out;
    StandsStored(out, bits, blocks, last, data);
    Regroup(out, HeaderStart(bits, last) + Lengths(|data|), data);
  }

  /** The header bytes of an empty block, its lengths replaced by len. */
  method PatchHeader(bits: seq<bool>, last: bool, len: nat) returns (header: seq<Octet>)
    requires |bits| < 8 && len <= MAX_STORED
    ensures header == HeaderStart(bits, last) + Lengths(len) && |header| == HeaderBytes(|bits|)
  {
    HeaderPatched(bits, last, len);
    var dummy := StoredOctets(bits, last, []);
    header := dummy[..|dummy| - 4] + Lengths(len);
  }

  /** A stored block on its way to next_out without going through pending: its header is made
      in pending and flushed. Once the data has followed, the output stands for one more block. */
  method DirectHeader(k: Sink, data: Chunk, last: bool, ghost capacity: nat) returns (k': Sink)
    requires k.Ok(capacity) && k.pending == [] && HeaderBytes(|k.bits|) + |data| <= k.availOut
    ensures k' == Sink(k'.out, [], [], k.availOut - HeaderBytes(|k.bits|), k.blocks) && Adds(k, k')
    ensures Stands(k'.out + data, [], k.blocks + [Stored(last, data)])
  {
    var header := PatchHeader(k.bits, last, |data|);
    DirectStands(k.out, k.bits, k.blocks, last, data);
    k' := Sink(k.out + header, [], [], k.availOut - |header|, k.blocks);
  }
}
