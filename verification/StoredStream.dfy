/**
 deflate() at level 0 for a raw stream: whole runs of calls with any split of the input, any
 flush values and any room for output.
 */
module StoredStream {
  import opened Sequences
  import opened Bits
  import opened Wrappers
  import opened DeflateCalls
  import opened StoredFormat
  import opened StoredOutput
  import opened StoredDeflate

  lemma ClosedPhase(blocks: seq<StoredFormat.Block>)
    requires Closed(blocks)
    ensures PhaseAfter(0, blocks) == 0
  {
    var init := blocks[..|blocks| - 1];
    assert init + [blocks[|blocks| - 1]] == blocks;
    EncodeAppend(0, init, blocks[|blocks| - 1]);
  }

  /** Once the last block is closed and delivered, a decompressor reads the payload from the
      bytes delivered. */
  lemma DeliveredInflates(k: Sink, capacity: nat)
    requires k.Ok(capacity) && k.pending == [] && Closed(k.blocks)
    ensures Inflate(AllBits(k.out), 0) == Some(Payload(k.blocks))
  {
    ClosedPhase(k.blocks);
    InflateEncode(0, k.blocks);
    assert k.out + [] == k.out && AllBits(k.out) + [] == AllBits(k.out);
  }

  /** A finished stream of which everything is delivered is read back as the input. */
  lemma FinishedInflates(c: Params, s: State)
    requires s.Ok(c) && Closed(s.k.blocks) && s.w.Left() == 0 && s.k.pending == []
    ensures Inflate(AllBits(s.k.out), 0) == Some(s.consumed)
  {
    DeliveredInflates(s.k, c.capacity);
    AllInBlocks(s.w, s.k, s.consumed);
  }

  lemma AllInBlocks(w: Store, k: Sink, consumed: seq<Octet>)
    requires Covered(w, k, consumed) && w.Left() == 0
    ensures Payload(k.blocks) == consumed
  {
    Whole(consumed);
  }

  /** What deflate() does after a flush has been completed: mark the boundary with an empty
      block, and after Z_FULL_FLUSH start over at window index 0. */
  method AfterBlock(c: Params, s: State, flush: FlushMode) returns (s': State)
    requires s.Ok(c) && s.k.pending == [] && Open(s.k.blocks) && AllWritten(s)
    ensures s'.Ok(c) && Open(s'.k.blocks) && AllWritten(s') && s'.consumed == s.consumed
    ensures s'.k.availOut != 0 ==> s'.k.pending == []
    ensures Adds(s.k, s'.k) && s'.nextIn == s.nextIn
  {
    var k := MarkBoundary(c, s.k, flush);
    var w := s.w;
    if flush.FullFlush? {
      w := w.(strStart := 0, blockStart := 0, insert := 0);
    }
    k := FlushPending(k, c.capacity);
    s' := s.(w := w, k := k);
  }

  method MarkBoundary(c: Params, k: Sink, flush: FlushMode) returns (k': Sink)
    requires c.Valid() && k.Ok(c.capacity) && k.pending == [] && Open(k.blocks)
    ensures k'.Ok(c.capacity) && Open(k'.blocks) && Payload(k'.blocks) == Payload(k.blocks)
    ensures k'.out == k.out && k'.availOut == k.availOut
  {
    k' := k;
    if flush.PartialFlush? {
      TrAlignOk(k, c.capacity);
      PayloadAppend(k.blocks, EmptyStatic);
      k' := TrAlign(k);
    } else if flush != FlushMode.Block {
      TrStoredBlockOk(k, [], false, c.capacity);
      PayloadAppend(k.blocks, Stored(false, []));
      k' := TrStoredBlock(k, [], false);
    }
  }

  /** The output of a stream, the blocks it stands for, what is not in a block yet, and how much of
      the input has been read. */
  datatype Written = Written(out: seq<Octet>, pending: seq<Octet>, bits: seq<bool>, blocks: seq<StoredFormat.Block>,
                             left: seq<Octet>, read: nat)

  /** Delivered, pending and unfinished bytes are the encoding of the blocks; the payloads followed by
      what is left are exactly the input read. */
  ghost predicate Accounts(w: Written, input: seq<Octet>) {
    && Stands(w.out + w.pending, w.bits, w.blocks)
    && w.read <= |input| && Payload(w.blocks) + w.left == input[..w.read]
  }

  /** The state of a stream between the steps of a call. */
  datatype Blocks = Blocks(s: State, lastRank: int, finished: bool) {

    /** The output so far is the encoding of blocks that hold all the input consumed but what
        is left in the window; once finished, all of it. */
    ghost predicate Ok(c: Params) {
      s.Ok(c) && if finished then Closed(s.k.blocks) && s.w.Left() == 0 else Open(s.k.blocks)
    }

    /** The call returns Z_BUF_ERROR. */
    predicate Refuses(flush: FlushMode) {
      Refused(finished, |s.nextIn|, |s.k.pending|, s.k.availOut, lastRank, flush)
    }

    /** With room left, nothing is pending and all input has been read; after a flush it is all in the
        blocks written. */
    predicate Caught(flush: FlushMode) {
      s.k.pending == [] && s.nextIn == [] && (!flush.NoFlush? ==> s.w.Left() == 0)
    }
  }

  /** A stream that has finished stays so, and only Z_FINISH finishes one. */
  predicate Lasting(b: Blocks, b': Blocks, flush: FlushMode) {
    (b'.finished ==> b.finished || flush.Finish?) && (b.finished ==> b'.finished)
  }

  /** Deliver pending output, or refuse a call with nothing to do. */
  method FlushFirst(c: Params, b: Blocks, flush: FlushMode) returns (b': Blocks, early: Option<Code>)
    requires b.Ok(c) && b.s.k.availOut > 0
    ensures b'.Ok(c) && b'.finished == b.finished && b'.s == b.s.(k := b'.s.k) && b'.s.k.blocks == b.s.k.blocks
    ensures Adds(b.s.k, b'.s.k) && (b.s.k.pending == [] ==> b'.s == b.s)
    ensures early == None ==> b'.s.k.pending == [] && (b.finished ==> b.s.nextIn == [])
    ensures early.Some? ==> early.value.Ok? || early.value.BufError?
    ensures early == Some(Code.Ok) ==> b'.s.k.availOut == 0
    ensures !WrongFlush(b.finished, flush) ==> (early == Some(BufError) <==> b.Refuses(flush))
    ensures b'.lastRank <= Rank(flush)
  {
    b' := b.(lastRank := Rank(flush));
    if |b.s.k.pending| != 0 {
      var k := FlushPending(b.s.k, c.capacity);
      b' := b'.(s := b.s.(k := k));
      if k.availOut == 0 {
        return b'.(lastRank := -1), Some(Code.Ok);
      }
    } else if |b.s.nextIn| == 0 && Rank(flush) <= b.lastRank && !flush.Finish? {
      return b', Some(BufError);
    }
    early := if b.finished && |b.s.nextIn| != 0 then Some(BufError) else None;
  }

  /** The part of deflate() that writes blocks; it may end the call. */
  method Compress(c: Params, b: Blocks, flush: FlushMode) returns (b': Blocks, end: bool)
    requires b.Ok(c) && b.s.k.pending == [] && (b.finished ==> b.s.nextIn == [] && flush.Finish?)
    ensures b'.Ok(c) && b'.s.consumed + b'.s.nextIn == b.s.consumed + b.s.nextIn && |b'.s.nextIn| <= |b.s.nextIn|
    ensures !end || b'.s.k.availOut != 0 ==> b'.Caught(flush)
    ensures !end && flush.Finish? ==> b'.finished
    ensures (b'.lastRank == b.lastRank || b'.lastRank == -1) && Lasting(b, b', flush) && Adds(b.s.k, b'.s.k)
  {
    b', end := b, false;
    if |b.s.nextIn| != 0 || (!flush.NoFlush? && !b.finished) {
      var s, r := DeflateStored(c, b.s, flush);
      if r.BlockDone? {
        var k := s.k;
        s := AfterBlock(c, s, flush);
        AddsOn(b.s.k, k, s.k);
      }
      end := r.NeedMore? || r.FinishStarted? || (r.BlockDone? && s.k.availOut == 0);
      b' := Blocks(s, if end && s.k.availOut == 0 then -1 else b.lastRank, b.finished || r.FinishStarted? || r.FinishDone?);
    }
  }

  class Stream {
    const c: Params
    var b: Blocks

    ghost predicate Valid()
      reads this
    {
      b.Ok(c)
    }

    /** All input given so far. */
    ghost function Given(): seq<Octet>
      reads this
    {
      b.s.consumed + b.s.nextIn
    }

    constructor (p: Params)
      requires p.Valid()
      ensures Valid() && Given() == [] && b.s.k.out == [] && b.lastRank == -2 && !b.finished && c == p
    {
      var window := new Octet[2 * p.wSize];
      c := p;
      b := NewBlocks(window[..]);
      new;
      NewBlocksOk(p, window[..]);
    }

    /** The caller sets up next_in, avail_in, next_out and avail_out. */
    method Supply(more: seq<Octet>, room: nat)
      requires Valid()
      modifies this
      ensures Valid() && Given() == old(Given()) + more
      ensures b == old(b).(s := old(b.s).(nextIn := old(b.s.nextIn) + more, k := old(b.s.k).(availOut := room)))
    {
      Regroup(b.s.consumed, b.s.nextIn, more);
      b := b.(s := b.s.(nextIn := b.s.nextIn + more, k := b.s.k.(availOut := room)));
    }

    /** What a code says when a call returns it. */
    ghost predicate Ended(flush: FlushMode, code: Code)
      reads this
    {
      && (code == StreamEnd || (code == Code.Ok && b.s.k.availOut != 0) ==> b.Caught(flush))
      && (code == StreamEnd ==> Inflate(AllBits(b.s.k.out), 0) == Some(Given()))
    }

    /** What has been written, and what is still to be. */
    method Progress() returns (w: Written)
      requires Valid()
      ensures Accounts(w, Given()) && w.out == b.s.k.out && w.pending == b.s.k.pending
      ensures w.read == |b.s.consumed| && |w.left| == b.s.w.Left()
    {
      var s := b.s;
      w := Written(s.k.out, s.k.pending, s.k.bits, s.k.blocks, s.w.window[s.w.blockStart..s.w.strStart], |s.consumed|);
      InputBegins(c, s);
      assert Given()[..w.read] == b.s.consumed;
    }

    /** deflate() for a raw stream at level 0. A call that ends with room left has caught up with the
        input; at Z_STREAM_END a decompressor gets all the input given from the bytes delivered. */
    method Deflate(flush: FlushMode) returns (code: Code)
      requires Valid()
      modifies this
      ensures Valid() && Given() == old(Given())
      ensures Ended(flush, code) && (code == StreamEnd ==> flush.Finish?)
      ensures code == StreamError <==> old(WrongFlush(b.finished, flush))
      ensures code == BufError <==> old(b.Refuses(flush))
      ensures code == StreamError || code == BufError ==> b.s == old(b.s).(k := b.s.k) && b.s.k.blocks == old(b.s.k.blocks)
      ensures Adds(old(b.s.k), b.s.k)
      ensures if code == StreamError || old(b.s.k.availOut) == 0 then b == old(b) else b.lastRank <= Rank(flush)
      ensures Lasting(old(b), b, flush)
    {
      if b.finished && !flush.Finish? {
        return StreamError;
      }
      if b.s.k.availOut == 0 {
        return BufError;
      }
      var b1, early := FlushFirst(c, b, flush);
      b := b1;
      if early.Some? {
        return early.value;
      }
      var end;
      b1, end := Compress(c, b1, flush);
      AddsOn(b.s.k, b.s.k, b1.s.k);
      b := b1;
      if end || !flush.Finish? {
        return Code.Ok;
      }
      FinishedInflates(c, b.s);
      assert b.s.consumed + [] == b.s.consumed;
      return StreamEnd;
    }
  }

  function NewBlocks(window: seq<Octet>): Blocks {
    Blocks(State(Store(window, 0, 0, 0, 0, 0), Sink([], [], [], 0, []), [], []), -2, false)
  }

  lemma NewBlocksOk(p: Params, window: seq<Octet>)
    requires p.Valid() && |window| == 2 * p.wSize
    ensures NewBlocks(window).Ok(p)
  {
  }

  /** One call, set up by its caller. */
  method Perform(d: Stream, call: Call<Octet>) returns (code: Code)
    requires d.Valid()
    modifies d
    ensures d.Valid() && d.Given() == old(d.Given()) + call.more
    ensures d.Ended(call.flush, code) && Lasting(old(d.b), d.b, call.flush)
    ensures |d.b.s.k.out| <= |old(d.b.s.k.out)| + call.room
    ensures code == StreamError <==> old(WrongFlush(d.b.finished, call.flush))
    ensures code == BufError <==>
              old(Refused(d.b.finished, |d.b.s.nextIn + call.more|, |d.b.s.k.pending|, call.room, d.b.lastRank, call.flush))
    ensures if code == StreamError || call.room == 0 then d.b.lastRank == old(d.b.lastRank) else d.b.lastRank <= Rank(call.flush)
  {
    d.Supply(call.more, call.room);
    code := d.Deflate(call.flush);
  }

  /** One call after those before. */
  method PerformNext(d: Stream, ghost before: seq<Call<Octet>>, call: Call<Octet>) returns (code: Code)
    requires d.Valid() && Follows(d.b.lastRank, d.b.finished, before)
    modifies d
    ensures d.Valid() && d.Given() == old(d.Given()) + call.more
    ensures d.Ended(call.flush, code) && |d.b.s.k.out| <= |old(d.b.s.k.out)| + call.room
    ensures Follows(d.b.lastRank, d.b.finished, before + [call])
    ensures Welcome(before, call) ==> code == Code.Ok || code == StreamEnd
  {
    ghost var rank, finished, input, pending := d.b.lastRank, d.b.finished, |d.b.s.nextIn + call.more|, |d.b.s.k.pending|;
    code := Perform(d, call);
    if Welcome(before, call) {
      NotRefused(before, call, rank, finished, input, pending);
    }
    FollowsOn(before, call, rank, finished, d.b.lastRank, d.b.finished);
  }

  /** What a call has come to when it ends with room left, or with Z_STREAM_END: everything is read
      and delivered, and after a flush everything is in blocks. */
  predicate CaughtUp(w: Written, input: seq<Octet>, flush: FlushMode) {
    w.read == |input| && w.pending == [] && (!flush.NoFlush? ==> w.left == [])
  }

  /** The calls one after the other; the code is that of the last. */
  method PerformAll(d: Stream, calls: seq<Call<Octet>>) returns (code: Code)
    requires d.Valid() && d.Given() == [] && d.b.s.k.out == [] && d.b.lastRank == -2 && !d.b.finished
    modifies d
    ensures d.Valid() && d.Given() == AllInput(calls) && |d.b.s.k.out| <= AllRoom(calls)
    ensures calls != [] ==> d.Ended(calls[|calls| - 1].flush, code)
    ensures Follows(d.b.lastRank, d.b.finished, calls)
    ensures calls != [] && Welcome(calls[..|calls| - 1], calls[|calls| - 1]) ==> code == Code.Ok || code == StreamEnd
    decreases |calls|
  {
    code := Code.Ok;
    if calls != [] {
      var before, call := calls[..|calls| - 1], calls[|calls| - 1];
      var _ := PerformAll(d, before);
      code := PerformNext(d, before, call);
      InitAndLast(calls);
    }
  }

  /** Any run of deflate() at level 0 on a new stream. */
  method Run(p: Params, calls: seq<Call<Octet>>) returns (w: Written, code: Code, room: nat)
    requires p.Valid()
    ensures Accounts(w, AllInput(calls)) && |w.out| <= AllRoom(calls)
    ensures calls != [] && (code == StreamEnd || (code == Code.Ok && room != 0)) ==>
              CaughtUp(w, AllInput(calls), calls[|calls| - 1].flush)
    ensures calls != [] && code == StreamEnd ==> Inflate(AllBits(w.out), 0) == Some(AllInput(calls))
    ensures calls != [] && Welcome(calls[..|calls| - 1], calls[|calls| - 1]) ==> code == Code.Ok || code == StreamEnd
  {
    var d := new Stream(p);
    code := PerformAll(d, calls);
    w := d.Progress();
    room := d.b.s.k.availOut;
  }

  /** What has been delivered begins the encoding of the blocks. */
  lemma OutputBegins(w: Written, input: seq<Octet>)
    requires Accounts(w, input)
    ensures AllBits(w.out) <= Encode(0, w.blocks)
    ensures w.pending == [] && w.bits == [] ==> AllBits(w.out) == Encode(0, w.blocks)
  {
    AllBitsConcat(w.out, w.pending);
    Regroup(AllBits(w.out), AllBits(w.pending), w.bits);
    if w.pending == [] && w.bits == [] {
      assert w.out + [] == w.out && AllBits(w.out) + [] == AllBits(w.out);
    }
  }

  /** The payloads, followed by the window from block_start to strstart, are what has been
      consumed. */
  lemma InputBegins(c: Params, s: State)
    requires s.Ok(c)
    ensures Payload(s.k.blocks) + s.w.window[s.w.blockStart..s.w.strStart] == s.consumed
    ensures Payload(s.k.blocks) + s.w.window[s.w.blockStart..s.w.strStart] <= s.consumed + s.nextIn
  {
    var n := |s.consumed| - s.w.Left();
    WindowPart(s.w.window, s.w.strStart, s.consumed, s.w.blockStart, s.w.strStart);
    assert s.consumed[..n] + s.consumed[n..] == s.consumed;
  }
}
