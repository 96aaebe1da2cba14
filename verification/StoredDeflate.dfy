/**
 deflate_stored: the input copied into stored blocks, directly from next_in to next_out when
 there is room, and otherwise through the window and the pending buffer.
 */
module StoredDeflate {
  import opened Sequences
  import opened Arith
  import opened Bits
  import opened StoredFormat
  import opened StoredOutput
  import opened DeflateCalls

  /** w_size and pending_buf_size. */
  datatype Params = Params(wSize: nat, capacity: nat) {
    predicate Valid() {
      256 <= wSize <= 32768 && capacity >= 512
    }
  }

  /** The window with the bytes not yet in a block from blockStart to strStart. matches counts
      the hash table slides that a later change of level would have to make up for, up to two. */
  datatype Store = Store(window: seq<Octet>, strStart: nat, blockStart: nat, insert: nat, matches: nat, highWater: nat) {

    /** How many bytes of the window are not yet in a block. */
    function Left(): int {
      strStart - blockStart
    }
  }

  /** The window before strStart is the end of what has been consumed. */
  ghost predicate Slice(window: seq<Octet>, strStart: nat, consumed: seq<Octet>) {
    strStart <= |window| && strStart <= |consumed| && window[..strStart] == consumed[|consumed| - strStart..]
  }

  ghost predicate WindowOk(c: Params, w: Store, consumed: seq<Octet>) {
    && |w.window| == 2 * c.wSize && w.blockStart <= w.strStart
    && Slice(w.window, w.strStart, consumed)
    && w.insert <= w.strStart && w.insert <= c.wSize && w.matches <= 2
  }

  /** The blocks written hold all that was consumed but what is left in the window. */
  ghost predicate Covered(w: Store, k: Sink, consumed: seq<Octet>) {
    0 <= w.Left() <= |consumed| && Payload(k.blocks) == consumed[..|consumed| - w.Left()]
  }

  datatype State = State(w: Store, k: Sink, nextIn: seq<Octet>, consumed: seq<Octet>) {

    ghost predicate Ok(c: Params) {
      c.Valid() && WindowOk(c, w, consumed) && k.Ok(c.capacity) && Covered(w, k, consumed)
    }
  }

  // Copying directly to next_out.

  /** How much of the stream is in blocks when pos bytes of the input have been copied. */
  function Written(w: Store, before: nat, pos: nat): int {
    before + pos - w.Left()
  }

  ghost predicate HoldsUpTo(k: Sink, stream: seq<Octet>, n: int) {
    0 <= n <= |stream| && Payload(k.blocks) == stream[..n]
  }

  /** In the direct copies: pos bytes of the input have been copied, and none of them is in the
      window yet. */
  ghost predicate Copying(c: Params, w: Store, k: Sink, input: seq<Octet>, pos: nat, before: seq<Octet>) {
    && c.Valid() && WindowOk(c, w, before) && k.Ok(c.capacity) && k.pending == [] && pos <= |input|
    && (pos > 0 ==> w.Left() == 0)
    && HoldsUpTo(k, before + input, Written(w, |before|, pos))
  }

  /** The next len bytes: what is left in the window and then input. */
  function NextData(w: Store, input: seq<Octet>, pos: nat, len: nat): (data: seq<Octet>)
    requires w.blockStart <= w.strStart <= |w.window| && pos <= |input| && len <= w.Left() + |input| - pos
    ensures |data| == len
  {
    var left := Min(w.Left(), len);
    w.window[w.blockStart..w.blockStart + left] + input[pos..pos + (len - left)]
  }

  /** How much input that takes. */
  function Taken(w: Store, len: nat): nat
    requires w.blockStart <= w.strStart
  {
    len - Min(w.Left(), len)
  }

  /** The window after the next len bytes have been put into a block. */
  function Past(w: Store, len: nat): Store
    requires w.blockStart <= w.strStart
  {
    w.(blockStart := w.blockStart + Min(w.Left(), len))
  }

  /** Those bytes are the next ones of the stream. */
  lemma NextDataIsNext(w: Store, before: seq<Octet>, input: seq<Octet>, pos: nat, len: nat)
    requires w.blockStart <= w.strStart && Slice(w.window, w.strStart, before)
    requires pos <= |input| && len <= w.Left() + |input| - pos && (pos > 0 ==> w.Left() == 0)
    ensures var u := Written(w, |before|, pos);
            0 <= u && u + len <= |before + input| && NextData(w, input, pos, len) == (before + input)[u..u + len]
  {
    var left := Min(w.Left(), len);
    var a := w.blockStart;
    var u := Written(w, |before|, pos);
    WindowPart(w.window, w.strStart, before, a, a + left);
    TwoParts(before, input, |before| - w.Left(), left, pos, len - left);
  }

  /** A stretch of the stream that runs from its first part into its second, or lies in one. */
  lemma TwoParts(before: seq<Octet>, input: seq<Octet>, a: nat, left: nat, pos: nat, more: nat)
    requires a + left <= |before| && pos + more <= |input| && (more == 0 || a + left == |before|)
    requires (left == 0 && a == |before|) || pos == 0
    ensures before[a..a + left] + input[pos..pos + more] == (before + input)[a + pos..a + pos + left + more]
  {
  }

  lemma WindowPart(window: seq<Octet>, strStart: nat, before: seq<Octet>, a: nat, b: nat)
    requires Slice(window, strStart, before) && a <= b <= strStart
    ensures window[a..b] == before[|before| - strStart + a..|before| - strStart + b]
  {
    assert window[a..b] == window[..strStart][a..b];
  }

  /** The length of the block that can be copied directly, or that none should be. */
  function DirectLength(c: Params, left: nat, availIn: nat, availOut: nat, bits: nat, flush: FlushMode): (r: int)
    requires c.Valid()
    ensures r >= 0 ==> r <= MAX_STORED && r <= left + availIn && HeaderBytes(bits) + r <= availOut
    ensures r >= 0 && r == 0 ==> left + availIn == 0 && flush.Finish?
  {
    var header := HeaderBytes(bits);
    if availOut < header then -1
    else
      var len := Min(Min(MAX_STORED, left + availIn), availOut - header);
      if len < Min(c.capacity - 5, c.wSize)
         && ((len == 0 && !flush.Finish?) || flush.NoFlush? || len != left + availIn)
      then -1 else len
  }

  /** No block is worth copying directly. */
  predicate NoDirect(c: Params, s: State, flush: FlushMode)
    requires c.Valid() && s.w.blockStart <= s.w.strStart
  {
    DirectLength(c, s.w.Left(), |s.nextIn|, s.k.availOut, |s.k.bits|, flush) < 0
  }

  /** One more block takes what the blocks hold a stretch further in the stream. */
  lemma HoldsMore(k: Sink, k': Sink, stream: seq<Octet>, n: nat, last: bool, data: Chunk)
    requires HoldsUpTo(k, stream, n) && n + |data| <= |stream| && data == stream[n..n + |data|]
    requires k'.blocks == k.blocks + [Stored(last, data)]
    ensures HoldsUpTo(k', stream, n + |data|)
  {
    PayloadAppend(k.blocks, Stored(last, data));
    assert stream[..n] + stream[n..n + |data|] == stream[..n + |data|];
  }

  /** One more stored block with the given final bit. */
  ghost predicate OneMore(k: Sink, k': Sink, last: bool, len: nat) {
    exists data: Chunk :: |data| == len && k'.blocks == k.blocks + [Stored(last, data)]
  }

  /** The header through pending, and then the bytes from the window and from the input. */
  method CopyOut(k: Sink, fromWindow: seq<Octet>, fromInput: seq<Octet>, last: bool, ghost capacity: nat) returns (k': Sink)
    requires k.Ok(capacity) && k.pending == [] && |fromWindow| + |fromInput| <= MAX_STORED
    requires HeaderBytes(|k.bits|) + |fromWindow| + |fromInput| <= k.availOut
    ensures k'.Ok(capacity) && k'.pending == [] && k'.blocks == k.blocks + [Stored(last, fromWindow + fromInput)]
    ensures k'.availOut == k.availOut - HeaderBytes(|k.bits|) - |fromWindow| - |fromInput| && Adds(k, k')
  {
    k' := DirectHeader(k, fromWindow + fromInput, last, capacity);
    Concats(k'.out, fromWindow, fromInput);
    k' := Sink(k'.out + fromWindow + fromInput, [], [], k'.availOut - |fromWindow| - |fromInput|,
               k.blocks + [Stored(last, fromWindow + fromInput)]);
  }

  lemma Concats(a: seq<Octet>, b: seq<Octet>, c: seq<Octet>)
    ensures a + b + c + [] == a + (b + c)
  {
  }

  lemma PastOk(c: Params, w: Store, before: seq<Octet>, input: seq<Octet>, pos: nat, len: nat)
    requires WindowOk(c, w, before) && pos <= |input| && (pos > 0 ==> w.Left() == 0) && len <= w.Left() + (|input| - pos)
    ensures WindowOk(c, Past(w, len), before) && pos + Taken(w, len) <= |input|
    ensures pos + Taken(w, len) > 0 ==> Past(w, len).Left() == 0
    ensures Written(Past(w, len), |before|, pos + Taken(w, len)) == Written(w, |before|, pos) + len
  {
  }

  lemma CopiedOn(c: Params, w: Store, k: Sink, k': Sink, input: seq<Octet>, pos: nat, before: seq<Octet>, len: nat, last: bool)
    requires Copying(c, w, k, input, pos, before) && len <= MAX_STORED && len <= w.Left() + (|input| - pos)
    requires k'.Ok(c.capacity) && k'.pending == []
    requires k'.blocks == k.blocks + [Stored(last, NextData(w, input, pos, len))]
    ensures Copying(c, Past(w, len), k', input, pos + Taken(w, len), before) && OneMore(k, k', last, len)
  {
    NextDataIsNext(w, before, input, pos, len);
    HoldsMore(k, k', before + input, Written(w, |before|, pos), last, NextData(w, input, pos, len));
    PastOk(c, w, before, input, pos, len);
  }

  method TakeParts(w: Store, input: seq<Octet>, pos: nat, len: nat) returns (fromWindow: seq<Octet>, fromInput: seq<Octet>)
    requires w.blockStart <= w.strStart <= |w.window| && pos <= |input| && len <= w.Left() + |input| - pos
    ensures fromWindow + fromInput == NextData(w, input, pos, len)
    ensures |fromWindow| + |fromInput| == len && |fromInput| == Taken(w, len)
  {
    var left := Min(w.Left(), len);
    fromWindow := w.window[w.blockStart..w.blockStart + left];
    fromInput := input[pos..pos + (len - left)];
  }

  /** One block copied directly. */
  method CopyBlock(c: Params, w: Store, k: Sink, input: seq<Octet>, pos: nat, ghost before: seq<Octet>, len: nat, last: bool)
    returns (w': Store, k': Sink, pos': nat)
    requires Copying(c, w, k, input, pos, before)
    requires len <= MAX_STORED && len <= w.Left() + (|input| - pos) && HeaderBytes(|k.bits|) + len <= k.availOut
    ensures Copying(c, w', k', input, pos', before) && OneMore(k, k', last, len)
    ensures w' == Past(w, len) && pos' == pos + Taken(w, len) && Adds(k, k')
  {
    var fromWindow, fromInput := TakeParts(w, input, pos, len);
    k' := CopyOut(k, fromWindow, fromInput, last, c.capacity);
    CopiedOn(c, w, k, k', input, pos, before, len, last);
    w', pos' := Past(w, len), pos + |fromInput|;
  }

  /** The loop of direct copies. It stops after the last block of the stream or when no block
      worth copying directly is left. */
  method CopyBlocks(c: Params, w: Store, k: Sink, input: seq<Octet>, ghost before: seq<Octet>, flush: FlushMode)
    returns (w': Store, k': Sink, pos: nat, last: bool)
    requires Copying(c, w, k, input, 0, before) && Open(k.blocks)
    ensures Copying(c, w', k', input, pos, before) && Adds(k, k')
    ensures if last then flush.Finish? && Closed(k'.blocks) && pos == |input| && w'.Left() == 0 else Open(k'.blocks)
    ensures !last ==> DirectLength(c, w'.Left(), |input| - pos, k'.availOut, |k'.bits|, flush) < 0
  {
    w', k', pos, last := w, k, 0, false;
    while !last
      invariant Copying(c, w', k', input, pos, before) && Adds(k, k')
      invariant if last then flush.Finish? && Closed(k'.blocks) && pos == |input| && w'.Left() == 0 else Open(k'.blocks)
      decreases !last, w'.Left() + |input| - pos
    {
      var len := DirectLength(c, w'.Left(), |input| - pos, k'.availOut, |k'.bits|, flush);
      if len < 0 {
        break;
      }
      last := flush.Finish? && len == w'.Left() + (|input| - pos);
      ghost var k0 := k';
      w', k', pos := CopyBlock(c, w', k', input, pos, before, len, last);
      StillOpen(k0, k', last, len);
      AddsOn(k, k0, k');
    }
  }

  lemma StillOpen(k: Sink, k': Sink, last: bool, len: nat)
    requires Open(k.blocks) && OneMore(k, k', last, len)
    ensures if last then Closed(k'.blocks) else Open(k'.blocks)
  {
    assert k'.blocks[..|k'.blocks| - 1] == k.blocks;
  }

  // Bringing the window up to date.

  /** The upper half of the window moved down; the caller moves blockStart. */
  function Slide(c: Params, w: Store): Store
    requires |w.window| == 2 * c.wSize && w.strStart >= c.wSize
  {
    var n := w.strStart - c.wSize;
    if n > |w.window| - c.wSize then w
    else
      w.(window := w.window[c.wSize..c.wSize + n] + w.window[n..], strStart := n,
         matches := if w.matches < 2 then w.matches + 1 else w.matches, insert := Min(w.insert, n))
  }

  lemma SlideOk(c: Params, w: Store, consumed: seq<Octet>)
    requires |w.window| == 2 * c.wSize && c.wSize <= w.strStart && Slice(w.window, w.strStart, consumed)
    requires w.insert <= c.wSize && w.matches <= 2
    ensures var w' := Slide(c, w);
            && |w'.window| == 2 * c.wSize && w'.strStart == w.strStart - c.wSize && Slice(w'.window, w'.strStart, consumed)
            && w'.insert <= w'.strStart && w'.insert <= c.wSize && w'.matches <= 2 && w'.blockStart == w.blockStart
  {
    var n := w.strStart - c.wSize;
    assert Slide(c, w).window[..n] == w.window[c.wSize..c.wSize + n] == w.window[..w.strStart][c.wSize..];
  }

  /** Input copied to the end of the window. */
  function Append(c: Params, w: Store, data: seq<Octet>): Store
    requires w.strStart + |data| <= |w.window| && w.insert <= c.wSize
  {
    w.(window := w.window[..w.strStart] + data + w.window[w.strStart + |data|..], strStart := w.strStart + |data|,
       insert := w.insert + Min(|data|, c.wSize - w.insert))
  }

  lemma AppendOk(c: Params, w: Store, data: seq<Octet>, consumed: seq<Octet>)
    requires w.strStart + |data| <= |w.window| && Slice(w.window, w.strStart, consumed)
    requires w.insert <= w.strStart && w.insert <= c.wSize
    ensures var w' := Append(c, w, data);
            && |w'.window| == |w.window| && Slice(w'.window, w'.strStart, consumed + data)
            && w'.insert <= w'.strStart && w'.insert <= c.wSize
  {
    var w' := Append(c, w, data);
    assert w'.window[..w'.strStart] == w.window[..w.strStart] + data;
    TailOfConcat(consumed, data, w.strStart);
  }

  lemma TailOfConcat(a: seq<Octet>, b: seq<Octet>, n: nat)
    requires n <= |a|
    ensures (a + b)[|a + b| - (n + |b|)..] == a[|a| - n..] + b
  {
  }

  /** The last w_size bytes copied take the place of the whole history. */
  function Supplant(c: Params, w: Store, data: seq<Octet>): Store
    requires |w.window| == 2 * c.wSize && |data| == c.wSize
  {
    w.(window := data + w.window[c.wSize..], strStart := c.wSize, matches := 2, insert := c.wSize)
  }

  /** The window after the first used bytes of the input have been copied past it. */
  method CatchUp(c: Params, w: Store, input: seq<Octet>, used: nat, ghost before: seq<Octet>) returns (w': Store)
    requires c.Valid() && WindowOk(c, w, before) && used <= |input| && (used > 0 ==> w.Left() == 0)
    ensures WindowOk(c, w', before + input[..used]) && w'.Left() == w.Left()
    ensures w'.highWater >= w'.strStart
  {
    w' := w;
    if used >= c.wSize {
      w' := Supplant(c, w, input[used - c.wSize..used]);
      w' := w'.(blockStart := w'.strStart);
      SupplantOk(c, w, input, used, before);
    } else if used > 0 {
      if |w.window| - w.strStart <= used {
        SlideOk(c, w, before);
        w' := Slide(c, w);
      }
      AppendOk(c, w', input[..used], before);
      w' := Append(c, w', input[..used]);
      w' := w'.(blockStart := w'.strStart);
    } else {
      assert before + input[..0] == before;
    }
    if w'.highWater < w'.strStart {
      w' := w'.(highWater := w'.strStart);
    }
  }

  lemma SupplantOk(c: Params, w: Store, input: seq<Octet>, used: nat, before: seq<Octet>)
    requires |w.window| == 2 * c.wSize && c.wSize <= used <= |input|
    ensures Slice(Supplant(c, w, input[used - c.wSize..used]).window, c.wSize, before + input[..used])
  {
    var data := input[used - c.wSize..used];
    assert (data + w.window[c.wSize..])[..c.wSize] == data;
    assert (before + input[..used])[|before| + used - c.wSize..] == data;
  }

  /** What is left of the input is read into the window: all of it, or until the window is full, and
      then there is at least half a window to write. */
  method Fill(c: Params, w: Store, nextIn: seq<Octet>, ghost consumed: seq<Octet>) returns (w': Store, n: nat)
    requires c.Valid() && WindowOk(c, w, consumed)
    ensures n <= |nextIn| && WindowOk(c, w', consumed + nextIn[..n]) && w'.Left() == w.Left() + n
    ensures n < |nextIn| ==> w'.strStart == |w'.window| && w'.Left() >= c.wSize
    ensures w'.highWater >= w'.strStart
  {
    w' := w;
    if |nextIn| > |w.window| - w.strStart && w.blockStart >= c.wSize {
      SlideOk(c, w, consumed);
      w' := Slide(c, w).(blockStart := w.blockStart - c.wSize);
    }
    n := Min(|w'.window| - w'.strStart, |nextIn|);
    if n > 0 {
      AppendOk(c, w', nextIn[..n], consumed);
      w' := Append(c, w', nextIn[..n]);
    } else {
      assert consumed + nextIn[..0] == consumed;
    }
    if w'.highWater < w'.strStart {
      w' := w'.(highWater := w'.strStart);
    }
  }

  // deflate_stored.

  /** The block that goes through pending: what is left in the window, if it is worth a block or
      if everything that is left fits and must be written. */
  function PendingLength(c: Params, left: nat, availIn: nat, bits: nat, flush: FlushMode): (r: int)
    requires c.Valid() && bits < 8
    ensures r >= 0 ==> r <= MAX_STORED && r <= left && HeaderBytes(bits) + r <= c.capacity
  {
    var have := Min(c.capacity - HeaderBytes(bits), MAX_STORED);
    if left >= Min(have, c.wSize)
       || ((left > 0 || flush.Finish?) && !flush.NoFlush? && availIn == 0 && left <= have)
    then Min(left, have) else -1
  }

  lemma WindowBlock(w: Store, k: Sink, k': Sink, consumed: seq<Octet>, len: nat, last: bool)
    requires w.blockStart <= w.strStart && Slice(w.window, w.strStart, consumed) && Covered(w, k, consumed)
    requires len <= w.Left() && len <= MAX_STORED
    requires k'.blocks == k.blocks + [Stored(last, w.window[w.blockStart..w.blockStart + len])]
    ensures Covered(w.(blockStart := w.blockStart + len), k', consumed)
  {
    WindowPart(w.window, w.strStart, consumed, w.blockStart, w.blockStart + len);
    HoldsMore(k, k', consumed, |consumed| - w.Left(), last, w.window[w.blockStart..w.blockStart + len]);
  }

  /** A block through pending uses up all room, since none could be copied directly; without a flush it
      may also be that there is too little input. */
  lemma PendingFills(c: Params, left: nat, availIn: nat, availOut: nat, bits: nat, flush: FlushMode)
    requires c.Valid() && bits < 8 && (availIn > 0 ==> left >= c.wSize)
    requires DirectLength(c, left, availIn, availOut, bits, flush) < 0
    requires flush.NoFlush? || flush.Finish? || left + availIn > 0
    ensures var len := PendingLength(c, left, availIn, bits, flush);
            (flush.NoFlush? && availIn == 0) || (len >= 0 && HeaderBytes(bits) + len >= availOut)
  {
  }

  /** Nothing is pending and all input is read, but a flush was not asked for. */
  predicate WaitsForInput(s: State, flush: FlushMode) {
    flush.NoFlush? && s.nextIn == [] && s.k.pending == []
  }

  method WriteThroughPending(c: Params, s: State, flush: FlushMode) returns (s': State, last: bool)
    requires s.Ok(c) && s.k.pending == [] && Open(s.k.blocks) && NoDirect(c, s, flush)
    requires s.nextIn != [] ==> s.w.Left() >= c.wSize
    requires flush.NoFlush? || flush.Finish? || s.w.Left() + |s.nextIn| > 0
    ensures s'.Ok(c) && s'.nextIn == s.nextIn && s'.consumed == s.consumed && Adds(s.k, s'.k)
    ensures s'.k.availOut == 0 || WaitsForInput(s', flush)
    ensures if last then flush.Finish? && Closed(s'.k.blocks) && s'.nextIn == [] && s'.w.Left() == 0 else Open(s'.k.blocks)
  {
    s', last := s, false;
    var len := PendingLength(c, s.w.Left(), |s.nextIn|, |s.k.bits|, flush);
    PendingFills(c, s.w.Left(), |s.nextIn|, s.k.availOut, |s.k.bits|, flush);
    if len >= 0 {
      last := flush.Finish? && |s.nextIn| == 0 && len == s.w.Left();
      s' := PutFromWindow(c, s, len, last);
    }
  }

  /** The next len bytes of the window in a block through pending. */
  method PutFromWindow(c: Params, s: State, len: nat, last: bool) returns (s': State)
    requires s.Ok(c) && s.k.pending == [] && Open(s.k.blocks)
    requires len <= s.w.Left() && len <= MAX_STORED && HeaderBytes(|s.k.bits|) + len <= c.capacity
    ensures s'.Ok(c) && s' == s.(k := s'.k, w := s.w.(blockStart := s.w.blockStart + len)) && Adds(s.k, s'.k)
    ensures if HeaderBytes(|s.k.bits|) + len >= s.k.availOut then s'.k.availOut == 0 else s'.k.pending == []
    ensures if last then Closed(s'.k.blocks) else Open(s'.k.blocks)
  {
    var k := PutBlock(c, s.w, s.k, s.consumed, len, last);
    s' := s.(k := k, w := s.w.(blockStart := s.w.blockStart + len));
  }

  method PutBlock(c: Params, w: Store, k: Sink, ghost consumed: seq<Octet>, len: nat, last: bool) returns (k': Sink)
    requires k.Ok(c.capacity) && k.pending == [] && Open(k.blocks)
    requires w.blockStart <= w.strStart && Slice(w.window, w.strStart, consumed) && Covered(w, k, consumed)
    requires len <= w.Left() && len <= MAX_STORED && HeaderBytes(|k.bits|) + len <= c.capacity
    ensures k'.Ok(c.capacity) && Covered(w.(blockStart := w.blockStart + len), k', consumed) && Adds(k, k')
    ensures if HeaderBytes(|k.bits|) + len >= k.availOut then k'.availOut == 0 else k'.pending == []
    ensures if last then Closed(k'.blocks) else Open(k'.blocks)
  {
    var data: Chunk := w.window[w.blockStart..w.blockStart + len];
    TrStoredBlockOk(k, data, last, c.capacity);
    k' := TrStoredBlock(k, data, last);
    WindowBlock(w, k, k', consumed, len, last);
    StillOpen(k, k', last, len);
    k' := FlushPending(k', c.capacity);
  }

  lemma StartCopying(c: Params, s: State)
    requires s.Ok(c) && s.k.pending == []
    ensures Copying(c, s.w, s.k, s.nextIn, 0, s.consumed)
  {
    var n := |s.consumed| - s.w.Left();
    assert (s.consumed + s.nextIn)[..n] == s.consumed[..n];
  }

  lemma EndCopying(c: Params, w: Store, k: Sink, input: seq<Octet>, pos: nat, before: seq<Octet>)
    requires Copying(c, w, k, input, pos, before)
    ensures Covered(w, k, before + input[..pos])
  {
    var n := |before| + pos - w.Left();
    assert (before + input)[..n] == (before + input[..pos])[..n];
  }

  lemma CoveredByLeft(w: Store, w': Store, k: Sink, consumed: seq<Octet>, data: seq<Octet>)
    requires Covered(w, k, consumed) && w'.Left() == w.Left() + |data|
    ensures Covered(w', k, consumed + data)
  {
    var n := |consumed| - w.Left();
    assert (consumed + data)[..n] == consumed[..n];
  }

  /** The direct copies and the window after them. */
  method CopyDirectly(c: Params, s: State, flush: FlushMode) returns (s': State, last: bool)
    requires s.Ok(c) && s.k.pending == [] && Open(s.k.blocks)
    ensures s'.Ok(c) && s'.k.pending == [] && s'.consumed + s'.nextIn == s.consumed + s.nextIn
    ensures Adds(s.k, s'.k) && |s'.nextIn| <= |s.nextIn|
    ensures !last ==> NoDirect(c, s', flush)
    ensures if last then flush.Finish? && Closed(s'.k.blocks) && s'.nextIn == [] && s'.w.Left() == 0 else Open(s'.k.blocks)
  {
    StartCopying(c, s);
    var w, k, pos;
    w, k, pos, last := CopyBlocks(c, s.w, s.k, s.nextIn, s.consumed, flush);
    var w' := CatchUp(c, w, s.nextIn, pos, s.consumed);
    s' := State(w', k, s.nextIn[pos..], s.consumed + s.nextIn[..pos]);
    AfterCopying(c, w, w', k, s.nextIn, pos, s.consumed);
    MovedOver(s.consumed, s.nextIn, pos);
  }

  lemma AfterCopying(c: Params, w: Store, w': Store, k: Sink, input: seq<Octet>, pos: nat, before: seq<Octet>)
    requires Copying(c, w, k, input, pos, before)
    requires WindowOk(c, w', before + input[..pos]) && w'.Left() == w.Left()
    ensures State(w', k, input[pos..], before + input[..pos]).Ok(c)
  {
    EndCopying(c, w, k, input, pos, before);
  }

  method ReadRest(c: Params, s: State) returns (s': State)
    requires s.Ok(c)
    ensures s'.Ok(c) && s'.k == s.k && s'.consumed + s'.nextIn == s.consumed + s.nextIn && |s'.nextIn| <= |s.nextIn|
    ensures s'.w.Left() + |s'.nextIn| == s.w.Left() + |s.nextIn| && (s'.nextIn != [] ==> s'.w.Left() >= c.wSize)
  {
    var w, n := Fill(c, s.w, s.nextIn, s.consumed);
    CoveredByLeft(s.w, w, s.k, s.consumed, s.nextIn[..n]);
    s' := State(w, s.k, s.nextIn[n..], s.consumed + s.nextIn[..n]);
    MovedOver(s.consumed, s.nextIn, n);
  }

  /** Everything consumed is in blocks, and there is no more input. */
  ghost predicate AllWritten(s: State) {
    s.nextIn == [] && s.w.Left() == 0
  }

  /** What the result says about room, output and input: done only with nothing pending, and stopped
      before that only for want of room or, without a flush, of input. */
  predicate Reports(s: State, flush: FlushMode, r: BlockState) {
    match r
    case NeedMore => s.k.availOut == 0 || WaitsForInput(s, flush)
    case BlockDone => s.k.pending == [] && !flush.Finish? && !flush.NoFlush?
    case FinishStarted => s.k.availOut == 0 && flush.Finish?
    case FinishDone => s.k.pending == [] && flush.Finish?
  }

  /** deflate_stored. */
  method DeflateStored(c: Params, s: State, flush: FlushMode) returns (s': State, r: BlockState)
    requires s.Ok(c) && s.k.pending == [] && Open(s.k.blocks)
    ensures s'.Ok(c) && s'.consumed + s'.nextIn == s.consumed + s.nextIn
    ensures Adds(s.k, s'.k) && |s'.nextIn| <= |s.nextIn|
    ensures if r.FinishStarted? || r.FinishDone? then Closed(s'.k.blocks) else Open(s'.k.blocks)
    ensures !r.NeedMore? ==> AllWritten(s')
    ensures Reports(s', flush, r)
  {
    var last;
    s', last := CopyDirectly(c, s, flush);
    if last {
      return s', FinishDone;
    }
    if !flush.NoFlush? && !flush.Finish? && |s'.nextIn| == 0 && s'.w.strStart == s'.w.blockStart {
      return s', BlockDone;
    }
    s' := ReadRest(c, s');
    s', last := WriteThroughPending(c, s', flush);
    r := if last then FinishStarted else NeedMore;
  }
}
