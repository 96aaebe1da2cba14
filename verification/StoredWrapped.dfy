/**
 deflate() at level 0 for a gzip or zlib stream: the headers and the trailer of DeflateStream around
 the stored blocks of StoredStream, sharing the input, the room for output and the order in which
 bytes are delivered. What a decompressor reads from the body is the input that the check value is of.
 */
module StoredWrapped {
  import opened Sequences
  import opened Wrappers
  import opened DeflateCalls
  import opened CrcRegister
  import opened GzipHeader
  import opened Bits
  import opened StoredFormat
  import opened StoredDeflate
  import StoredStream
  import opened DeflateStream
  import opened WrappedStreams

  function Bytes(s: seq<Octet>): (r: seq<Byte>)
    ensures |r| == |s|
  {
    seq(|s|, i requires 0 <= i < |s| => s[i] as Byte)
  }

  lemma OctetsBack(s: seq<Octet>)
    ensures Octets(Bytes(s)) == s
  {
    forall i | 0 <= i < |s|
      ensures Octets(Bytes(s))[i] == s[i]
    {
      NatBack(s[i]);
    }
  }

  lemma BytesConcat(a: seq<Octet>, b: seq<Octet>)
    ensures Bytes(a + b) == Bytes(a) + Bytes(b)
  {
  }

  lemma OctetsTaken(consumed: seq<Byte>, input: seq<Byte>, n: nat)
    requires n <= |input|
    ensures Octets(consumed + input[..n]) == Octets(consumed) + Octets(input)[..n] && Octets(input[n..]) == Octets(input)[n..]
  {
  }

  /** What has been delivered of the header and the trailer, with the delivered blocks in between. */
  function Joined(ends: seq<Byte>, n: nat, blocks: seq<Octet>): seq<Byte> {
    if |ends| < n then ends else ends[..n] + Bytes(blocks) + ends[n..]
  }

  lemma JoinedEnds(ends: seq<Byte>, n: nat, blocks: seq<Octet>, more: seq<Byte>)
    requires blocks == [] || |ends| >= n
    ensures Joined(ends + more, n, blocks) == Joined(ends, n, blocks) + more
  {
    if |ends| >= n {
      assert (ends + more)[..n] == ends[..n] && (ends + more)[n..] == ends[n..] + more;
    } else {
      assert (ends + more)[..if |ends + more| < n then |ends + more| else n] <= ends + more;
    }
  }

  lemma JoinedBlocks(ends: seq<Byte>, n: nat, blocks: seq<Octet>, more: seq<Octet>)
    requires more == [] || |ends| == n
    ensures Joined(ends, n, blocks + more) == Joined(ends, n, blocks) + Bytes(more)
  {
    if more == [] {
      assert blocks + more == blocks && Joined(ends, n, blocks) + [] == Joined(ends, n, blocks);
    } else {
      BytesConcat(blocks, more);
      Ended(ends, Bytes(blocks));
      Ended(ends, Bytes(blocks + more));
      Regroup(ends, Bytes(blocks), Bytes(more));
    }
  }

  lemma Ended(ends: seq<Byte>, s: seq<Byte>)
    ensures ends[..|ends|] + s + ends[|ends|..] == ends + s
  {
  }

  /** What has come behind `was`. */
  function Since<T(==)>(was: seq<T>, now: seq<T>): (more: seq<T>)
    requires was <= now
    ensures was + more == now
  {
    now[|was|..]
  }

  /** The delivered and the pending bytes of blocks, and the input in them, or none of it. */
  predicate Untouched(b: StoredStream.Blocks) {
    b.s.k.out == [] && b.s.k.pending == [] && b.s.consumed == [] && !b.finished
  }

  /** Blocks are made only once the header is delivered, and the trailer only once they are: ends is the
      number of bytes delivered of the two, of which n make the header. */
  predicate Ordered(b: StoredStream.Blocks, status: Status, wrap: int, pending: nat, ends: nat, n: nat) {
    && (b.s.k.pending != [] ==> pending == 0 && wrap >= 0)
    && (wrap < 0 ==> b.finished && ends >= n)
    && (Untouched(b) || ((status.Busy? || status.Finished?) && ends >= n))
    && (b.finished <==> status.Finished?)
  }

  lemma StillOrdered(b: StoredStream.Blocks, b': StoredStream.Blocks, status: Status, wrap: int, pending: nat, ends: nat, n: nat)
    requires Ordered(b, status, wrap, pending, ends, n)
    requires b'.finished == b.finished && (b.s.k.pending == [] ==> b'.s == b.s)
    ensures Ordered(b', status, wrap, pending, ends, n)
  {
  }

  /** FlushFirst of the blocks, and what it delivers. */
  method FlushBlocks(p: Params, b: StoredStream.Blocks, flush: FlushMode)
    returns (b': StoredStream.Blocks, early: Option<Code>, more: seq<Octet>)
    requires b.Ok(p) && b.s.k.availOut > 0
    ensures b'.Ok(p) && b'.finished == b.finished && b'.s == b.s.(k := b'.s.k)
    ensures b'.s.k.out == b.s.k.out + more && |more| + b'.s.k.availOut == b.s.k.availOut
    ensures b.s.k.pending == [] ==> more == [] && b'.s == b.s
    ensures early == None ==> b'.s.k.pending == [] && (b.finished ==> b.s.nextIn == [])
    ensures early.Some? ==> early.value.Ok? || early.value.BufError?
    ensures !WrongFlush(b.finished, flush) ==> (early == Some(BufError) <==> b.Refuses(flush))
  {
    b', early := StoredStream.FlushFirst(p, b, flush);
    more := Since(b.s.k.out, b'.s.k.out);
  }

  /** Blocks, as far as there is room, and how much input was taken for them. */
  method WriteBlocks(p: Params, b: StoredStream.Blocks, flush: FlushMode)
    returns (b': StoredStream.Blocks, end: bool, more: seq<Octet>, taken: nat)
    requires b.Ok(p) && b.s.k.pending == [] && !b.finished
    ensures b'.Ok(p) && b'.s.k.out == b.s.k.out + more && |more| + b'.s.k.availOut == b.s.k.availOut
    ensures taken <= |b.s.nextIn| && b'.s.consumed == b.s.consumed + b.s.nextIn[..taken] && b'.s.nextIn == b.s.nextIn[taken..]
    ensures !end ==> b'.s.k.pending == [] && (flush.Finish? ==> b'.finished)
    ensures !end ==> taken == |b.s.nextIn|
  {
    b', end := StoredStream.Compress(p, b, flush);
    TakenFront(b.s.consumed, b.s.nextIn, b'.s.consumed, b'.s.nextIn);
    more, taken := Since(b.s.k.out, b'.s.k.out), |b'.s.consumed| - |b.s.consumed|;
  }

  /** What is beside the header and the trailer: the blocks, and everything delivered so far in order. */
  datatype Inner = Inner(b: StoredStream.Blocks, out: seq<Byte>) {

    function Room(): nat {
      b.s.k.availOut
    }

    function WithRoom(room: nat): Inner {
      this.(b := b.(s := b.s.(k := b.s.k.(availOut := room))))
    }
  }

  /** Output is only added to, as far as there is room. */
  predicate Grows(v: Inner, v': Inner) {
    v.out <= v'.out && |v'.out| + v'.Room() == |v.out| + v.Room()
  }

  // The header, the check value and the trailer: a stream that puts out no body of its own.

  ghost predicate Ends(h: DeflateStream.Stream)
    reads h`emitted, h`out, h`pendingOut, h`pending, h`adler, h`gzindex, h`status, h`wrap, h`body, h`consumed, h`totalIn,
          h`lookahead, h.pendingBuf
  {
    h.Stands() && h.body == [] && h.lookahead == 0
  }

  predicate InBody(h: DeflateStream.Stream)
    reads h`status
  {
    h.status.Busy? || h.status.Finished?
  }

  /** Delivers what is pending. */
  method FlushEnds(h: DeflateStream.Stream, room: nat) returns (more: seq<Byte>)
    requires Ends(h)
    modifies h`out, h`availOut, h`pendingOut, h`pending
    ensures Ends(h) && h.out == old(h.out) + more && |more| + h.availOut == room
    ensures h.pending == 0 || h.availOut == 0
    ensures h.availOut == if old(h.pending) <= room then room - old(h.pending) else 0
  {
    var was := h.out;
    h.availOut := room;
    h.FlushPending();
    h.StillStands();
    more := Since(was, h.out);
  }

  /** As much of the header as there is room for. */
  method WriteHeader(h: DeflateStream.Stream, room: nat) returns (done: bool, more: seq<Byte>)
    requires Ends(h) && h.pending == 0 && !InBody(h)
    modifies h`out, h`availOut, h`pendingOut, h`pending, h`gzindex, h`adler, h`lastFlush, h`status, h`emitted, h.pendingBuf
    ensures Ends(h) && h.out == old(h.out) + more && |more| + h.availOut == room
    ensures if done then h.status.Busy? && h.pending == 0 else h.pending != 0 && h.availOut == 0
    ensures !h.status.Finished?
  {
    var was := h.out;
    h.availOut := room;
    done := h.WriteHeader();
    more := Since(was, h.out);
  }

  /** When the header is done and nothing is pending, exactly it has been delivered. */
  lemma HeaderIsOut(h: DeflateStream.Stream)
    requires Ends(h) && InBody(h) && h.wrap >= 0 && h.pending == 0
    ensures h.out == h.header
  {
    NoBody(h.header);
  }

  /** Input that went into blocks, and whether they are the last. */
  method TakeInput(h: DeflateStream.Stream, n: nat, last: bool)
    requires Ends(h) && h.status.Busy? && n <= |h.nextIn|
    modifies h`nextIn, h`consumed, h`totalIn, h`adler, h`status
    ensures Ends(h) && h.consumed == old(h.consumed) + old(h.nextIn)[..n] && h.nextIn == old(h.nextIn)[n..]
    ensures h.status == if last then Finished else Busy
  {
    h.ReadBuf(n);
    assert Ends(h);
    MarkLast(h, last);
  }

  method MarkLast(h: DeflateStream.Stream, last: bool)
    requires Ends(h) && h.status.Busy?
    modifies h`status
    ensures Ends(h) && h.status == if last then Finished else Busy
  {
    if last {
      h.status := Finished;
    }
  }

  /** The trailer, if it is still to be put. */
  method WriteTrailer(h: DeflateStream.Stream, room: nat) returns (code: Code, more: seq<Byte>)
    requires Ends(h) && h.pending == 0 && h.status.Finished? && h.nextIn == []
    modifies h`out, h`availOut, h`pendingOut, h`pending, h`wrap, h`emitted, h.pendingBuf
    ensures Ends(h) && h.out == old(h.out) + more && |more| + h.availOut == room
    ensures code.StreamEnd? ==> h.Complete()
    ensures code.Ok? || code.StreamEnd?
  {
    var was := h.out;
    h.availOut := room;
    code := h.Close();
    more := Since(was, h.out);
  }

  // Header, blocks and trailer together.

  /** The blocks fit to the ends, and the output has them in between. */
  ghost predicate Fit(h: DeflateStream.Stream, p: Params, v: Inner)
    reads h`out, h`pending, h`wrap, h`status, h`consumed
  {
    && v.b.Ok(p) && v.b.s.consumed == Octets(h.consumed)
    && Ordered(v.b, h.status, h.wrap, h.pending, |h.out|, |h.header|)
    && v.out == Joined(h.out, |h.header|, v.b.s.k.out)
  }

  /** Header, blocks and trailer stand together, the first n bytes being the header. */
  ghost predicate StandWith(h: DeflateStream.Stream, p: Params, v: Inner, n: nat)
    reads h`emitted, h`out, h`pendingOut, h`pending, h`adler, h`gzindex, h`status, h`wrap, h`body, h`consumed, h`totalIn,
          h`lookahead, h.pendingBuf
  {
    n == |h.header| && Ends(h) && Fit(h, p, v)
  }

  ghost predicate Stand(h: DeflateStream.Stream, p: Params, v: Inner)
    reads h`emitted, h`out, h`pendingOut, h`pending, h`adler, h`gzindex, h`status, h`wrap, h`body, h`consumed, h`totalIn,
          h`lookahead, h.pendingBuf
  {
    exists n: nat :: StandWith(h, p, v, n)
  }

  /** Bytes of the header or the trailer delivered; the blocks get the room that is left. */
  function EndsOut(v: Inner, more: seq<Byte>, room: nat): Inner {
    v.(out := v.out + more).WithRoom(room)
  }

  lemma EndsOutOk(v: Inner, more: seq<Byte>, room: nat, was: seq<Byte>, now: seq<Byte>, n: nat)
    requires now == was + more && (v.b.s.k.out == [] || |was| >= n) && v.out == Joined(was, n, v.b.s.k.out)
    requires |more| + room == v.Room()
    ensures EndsOut(v, more, room).out == Joined(now, n, v.b.s.k.out) && Grows(v, EndsOut(v, more, room))
  {
    JoinedEnds(was, n, v.b.s.k.out, more);
  }

  lemma BlocksOutOk(v: Inner, b: StoredStream.Blocks, more: seq<Octet>, ends: seq<Byte>, n: nat)
    requires b.s.k.out == v.b.s.k.out + more && (more == [] || |ends| == n) && v.out == Joined(ends, n, v.b.s.k.out)
    requires |more| + b.s.k.availOut == v.Room()
    ensures var v' := Inner(b, v.out + Bytes(more)); v'.out == Joined(ends, n, b.s.k.out) && Grows(v, v')
  {
    JoinedBlocks(ends, n, v.b.s.k.out, more);
  }

  /** The start of a call with header or trailer bytes pending. */
  method FlushPendingEnds(h: DeflateStream.Stream, p: Params, v: Inner, flush: FlushMode) returns (v': Inner, early: Option<Code>)
    requires Stand(h, p, v) && v.Room() > 0 && h.pending != 0
    modifies h`out, h`availOut, h`pendingOut, h`pending
    ensures Stand(h, p, v') && Grows(v, v') && v'.b.s.nextIn == v.b.s.nextIn && v'.b.finished == v.b.finished
    ensures early == None ==> h.pending == 0 && v'.b.s.k.pending == [] && (v.b.finished ==> v.b.s.nextIn == [])
    ensures early.Some? ==> early.value.Ok? || early.value.BufError?
    ensures early == Some(BufError) <==> v.b.finished && v.b.s.nextIn != [] && v.Room() > old(h.pending)
  {
    var more := FlushEnds(h, v.Room());
    EndsOutOk(v, more, h.availOut, old(h.out), h.out, |h.header|);
    v' := EndsOut(v, more, h.availOut);
    var full := h.availOut == 0;
    v' := v'.(b := v'.b.(lastRank := if full then -1 else Rank(flush)));
    assert StandWith(h, p, v', |h.header|);
    early := if full then Some(Code.Ok) else if v.b.finished && v.b.s.nextIn != [] then Some(BufError) else None;
  }

  /** The start of a call otherwise. */
  method FlushPendingBlocks(h: DeflateStream.Stream, p: Params, v: Inner, flush: FlushMode)
    returns (v': Inner, early: Option<Code>)
    requires Stand(h, p, v) && v.Room() > 0 && h.pending == 0
    ensures Stand(h, p, v') && Grows(v, v') && v'.b.s.nextIn == v.b.s.nextIn && v'.b.finished == v.b.finished
    ensures early == None ==> v'.b.s.k.pending == [] && (v.b.finished ==> v.b.s.nextIn == [])
    ensures early.Some? ==> early.value.Ok? || early.value.BufError?
    ensures !WrongFlush(v.b.finished, flush) ==> (early == Some(BufError) <==> v.b.Refuses(flush))
  {
    var b, more;
    HeaderBeforeBlocks(h, p, v);
    b, early, more := FlushBlocks(p, v.b, flush);
    StillOrdered(v.b, b, h.status, h.wrap, h.pending, |h.out|, |h.header|);
    BlocksOutOk(v, b, more, h.out, |h.header|);
    v' := Inner(b, v.out + Bytes(more));
    assert StandWith(h, p, v', |h.header|);
  }

  lemma HeaderBeforeBlocks(h: DeflateStream.Stream, p: Params, v: Inner)
    requires Stand(h, p, v)
    ensures v.b.s.k.pending != [] ==> h.out == h.header
  {
    if v.b.s.k.pending != [] {
      HeaderIsOut(h);
    }
  }

  /** The header, as far as there is room. */
  method PutHeader(h: DeflateStream.Stream, p: Params, v: Inner) returns (v': Inner, done: bool)
    requires Stand(h, p, v) && h.pending == 0 && !InBody(h)
    modifies h`out, h`availOut, h`pendingOut, h`pending, h`gzindex, h`adler, h`lastFlush, h`status, h`emitted, h.pendingBuf
    ensures Stand(h, p, v') && Grows(v, v') && v'.b.s.nextIn == v.b.s.nextIn
    ensures done ==> h.status.Busy? && h.pending == 0 && v'.b.s.k.pending == []
    ensures !h.status.Finished?
  {
    var more;
    done, more := WriteHeader(h, v.Room());
    EndsOutOk(v, more, h.availOut, old(h.out), h.out, |h.header|);
    v' := EndsOut(v, more, h.availOut);
    if !done {
      v' := v'.(b := v'.b.(lastRank := -1));
    }
    assert StandWith(h, p, v', |h.header|);
  }

  method DeliverBlocks(h: DeflateStream.Stream, p: Params, v: Inner, flush: FlushMode)
    returns (v': Inner, end: bool, taken: nat)
    requires Fit(h, p, v) && h.out == h.header && v.b.s.k.pending == [] && h.status.Busy?
    ensures v'.b.Ok(p) && v'.out == Joined(h.out, |h.header|, v'.b.s.k.out) && Grows(v, v')
    ensures taken <= |v.b.s.nextIn|
    ensures v'.b.s.consumed == v.b.s.consumed + v.b.s.nextIn[..taken] && v'.b.s.nextIn == v.b.s.nextIn[taken..]
    ensures !end ==> v'.b.s.k.pending == [] && taken == |v.b.s.nextIn| && (flush.Finish? ==> v'.b.finished)
  {
    var b, more;
    b, end, more, taken := WriteBlocks(p, v.b, flush);
    BlocksOutOk(v, b, more, h.out, |h.header|);
    v' := Inner(b, v.out + Bytes(more));
  }

  /** The input that has gone into blocks is taken for the check value too. */
  method TakeForBlocks(h: DeflateStream.Stream, p: Params, v: Inner, n: nat)
    requires Ends(h) && h.status.Busy? && h.wrap >= 0 && h.pending == 0 && h.out == h.header && n <= |h.nextIn|
    requires v.b.Ok(p) && v.out == Joined(h.out, |h.header|, v.b.s.k.out)
    requires v.b.s.consumed == Octets(h.consumed) + Octets(h.nextIn)[..n] && v.b.s.nextIn == Octets(h.nextIn)[n..]
    modifies h`nextIn, h`consumed, h`totalIn, h`adler, h`status
    ensures Stand(h, p, v) && v.b.s.nextIn == Octets(h.nextIn) && h.status == if v.b.finished then Finished else Busy
    ensures h.consumed + h.nextIn == old(h.consumed + h.nextIn)
  {
    OctetsTaken(h.consumed, h.nextIn, n);
    MovedOver(h.consumed, h.nextIn, n);
    TakeInput(h, n, v.b.finished);
    assert StandWith(h, p, v, |h.header|);
  }

  /** The blocks, as far as there is room. */
  method PutBlocks(h: DeflateStream.Stream, p: Params, v: Inner, flush: FlushMode) returns (v': Inner, end: bool)
    requires Stand(h, p, v) && v.b.s.nextIn == Octets(h.nextIn)
    requires h.pending == 0 && v.b.s.k.pending == [] && h.status.Busy?
    modifies h`nextIn, h`consumed, h`totalIn, h`adler, h`status
    ensures Stand(h, p, v') && Grows(v, v') && v'.b.s.nextIn == Octets(h.nextIn)
    ensures h.consumed + h.nextIn == old(h.consumed + h.nextIn)
    ensures !end ==> v'.b.s.k.pending == [] && h.nextIn == [] && (flush.Finish? ==> h.status.Finished?)
  {
    HeaderIsOut(h);
    var taken;
    v', end, taken := DeliverBlocks(h, p, v, flush);
    TakeForBlocks(h, p, v', taken);
  }

  /** The trailer, once. */
  method PutTrailer(h: DeflateStream.Stream, p: Params, v: Inner) returns (v': Inner, code: Code)
    requires Stand(h, p, v) && h.pending == 0 && v.b.s.k.pending == [] && h.status.Finished? && h.nextIn == []
    modifies h`out, h`availOut, h`pendingOut, h`pending, h`wrap, h`emitted, h.pendingBuf
    ensures Stand(h, p, v') && Grows(v, v') && v'.b.s.nextIn == v.b.s.nextIn
    ensures code.StreamEnd? ==> Complete(h, v')
    ensures code.Ok? || code.StreamEnd?
  {
    var more;
    code, more := WriteTrailer(h, v.Room());
    EndsOutOk(v, more, h.availOut, old(h.out), h.out, |h.header|);
    v' := EndsOut(v, more, h.availOut);
    assert StandWith(h, p, v', |h.header|);
    if code.StreamEnd? {
      ItIsComplete(h, p, v');
    }
  }

  /** All the input is read, and header, blocks and trailer are delivered. */
  ghost predicate Complete(h: DeflateStream.Stream, v: Inner)
    reads h`nextIn, h`consumed
  {
    && h.nextIn == [] && v.out == h.header + Bytes(v.b.s.k.out) + Trailer(h.c, h.consumed)
    && Inflate(AllBits(v.b.s.k.out), 0) == Some(Octets(h.consumed))
  }

  lemma ItIsComplete(h: DeflateStream.Stream, p: Params, v: Inner)
    requires h.Complete() && Fit(h, p, v) && v.b.s.k.pending == [] && h.body == []
    ensures Complete(h, v)
  {
    JoinedWhole(h.header, v.b.s.k.out, Trailer(h.c, h.consumed));
    StoredStream.FinishedInflates(p, v.b.s);
  }

  // A call.

  /** What is pending, and the refusals. */
  method FlushFirst(h: DeflateStream.Stream, p: Params, v: Inner, flush: FlushMode) returns (v': Inner, early: Option<Code>)
    requires Stand(h, p, v) && v.Room() > 0
    modifies h`out, h`availOut, h`pendingOut, h`pending
    ensures Stand(h, p, v') && Grows(v, v') && v'.b.s.nextIn == v.b.s.nextIn && v'.b.finished == v.b.finished
    ensures early == None ==> h.pending == 0 && v'.b.s.k.pending == [] && (v.b.finished ==> v.b.s.nextIn == [])
    ensures early.Some? ==> early.value.Ok? || early.value.BufError?
    ensures !WrongFlush(v.b.finished, flush) ==>
              (early == Some(BufError) <==> Refuses(v, old(h.pending), |v.b.s.nextIn|, v.Room(), flush))
  {
    if h.pending != 0 {
      NotBoth(h, p, v);
      v', early := FlushPendingEnds(h, p, v, flush);
    } else {
      v', early := FlushPendingBlocks(h, p, v, flush);
    }
  }

  /** Header or trailer bytes and blocks are never pending together. */
  lemma NotBoth(h: DeflateStream.Stream, p: Params, v: Inner)
    requires Stand(h, p, v) && h.pending != 0
    ensures v.b.s.k.pending == []
  {
  }

  /** A call returns Z_BUF_ERROR, given what is pending of header or trailer, the input and the room. */
  predicate Refuses(v: Inner, pending: nat, input: nat, room: nat, flush: FlushMode) {
    Refused(v.b.finished, input, pending + |v.b.s.k.pending|, room, v.b.lastRank, flush)
  }

  /** The header, if it is not done. */
  method HeaderFirst(h: DeflateStream.Stream, p: Params, v: Inner) returns (v': Inner, done: bool)
    requires Stand(h, p, v) && h.pending == 0 && v.b.s.k.pending == []
    modifies h`out, h`availOut, h`pendingOut, h`pending, h`gzindex, h`adler, h`lastFlush, h`status, h`emitted, h.pendingBuf
    ensures Stand(h, p, v') && Grows(v, v') && v'.b.s.nextIn == v.b.s.nextIn
    ensures done ==> InBody(h) && h.pending == 0 && v'.b.s.k.pending == []
    ensures old(InBody(h)) ==> done && h.status == old(h.status)
    ensures h.status.Finished? ==> old(h.status).Finished?
  {
    v', done := v, true;
    if !InBody(h) {
      v', done := PutHeader(h, p, v);
    }
  }

  /** The blocks, if they are not done, and the trailer. */
  method Body(h: DeflateStream.Stream, p: Params, v: Inner, flush: FlushMode) returns (v': Inner, code: Code)
    requires Stand(h, p, v) && v.b.s.nextIn == Octets(h.nextIn)
    requires InBody(h) && h.pending == 0 && v.b.s.k.pending == []
    requires h.status.Finished? ==> h.nextIn == [] && flush.Finish?
    modifies h, h.pendingBuf
    ensures Stand(h, p, v') && Grows(v, v') && v'.b.s.nextIn == Octets(h.nextIn)
    ensures h.consumed + h.nextIn == old(h.consumed + h.nextIn)
    ensures code.StreamEnd? ==> Complete(h, v')
    ensures code.Ok? || code.StreamEnd?
  {
    code := Code.Ok;
    v' := v;
    var end := false;
    if h.status.Busy? {
      v', end := PutBlocks(h, p, v, flush);
    }
    if !end && flush.Finish? {
      v', code := PutTrailer(h, p, v');
    }
  }

  method Continue(h: DeflateStream.Stream, p: Params, v: Inner, flush: FlushMode) returns (v': Inner, code: Code)
    requires Stand(h, p, v) && v.b.s.nextIn == Octets(h.nextIn)
    requires h.pending == 0 && v.b.s.k.pending == [] && (h.status.Finished? ==> h.nextIn == [] && flush.Finish?)
    modifies h, h.pendingBuf
    ensures Stand(h, p, v') && Grows(v, v')
    ensures h.consumed + h.nextIn == old(h.consumed + h.nextIn)
    ensures code.StreamEnd? ==> Complete(h, v')
    ensures code.Ok? || code.StreamEnd?
  {
    var done;
    v', done := HeaderFirst(h, p, v);
    code := Code.Ok;
    if done {
      v', code := Body(h, p, v', flush);
    }
  }

  /** Whether the stream is finished, both ways. */
  lemma FinishedTogether(h: DeflateStream.Stream, p: Params, v: Inner)
    requires Stand(h, p, v)
    ensures v.b.finished <==> h.status.Finished?
  {
  }

  /** A call that has room and is not out of place. */
  method Work(h: DeflateStream.Stream, p: Params, v: Inner, flush: FlushMode) returns (v': Inner, code: Code)
    requires Stand(h, p, v) && v.b.s.nextIn == Octets(h.nextIn)
    requires v.Room() > 0 && !WrongFlush(v.b.finished, flush)
    modifies h, h.pendingBuf
    ensures Stand(h, p, v') && Grows(v, v')
    ensures h.consumed + h.nextIn == old(h.consumed + h.nextIn)
    ensures code.StreamEnd? ==> Complete(h, v')
    ensures code.BufError? <==> Refuses(v, old(h.pending), |v.b.s.nextIn|, v.Room(), flush)
    ensures !code.StreamError?
  {
    var early;
    v', early := FlushFirst(h, p, v, flush);
    FinishedTogether(h, p, v');
    if early.Some? {
      code := early.value;
    } else {
      v', code := Continue(h, p, v', flush);
    }
  }

  /** A call with the input and the room at hand. */
  method Serve(h: DeflateStream.Stream, p: Params, v: Inner, flush: FlushMode) returns (v': Inner, code: Code)
    requires Stand(h, p, v) && v.b.s.nextIn == Octets(h.nextIn)
    modifies h, h.pendingBuf
    ensures Stand(h, p, v') && Grows(v, v')
    ensures h.consumed + h.nextIn == old(h.consumed + h.nextIn)
    ensures code.StreamEnd? ==> Complete(h, v')
    ensures code.StreamError? <==> WrongFlush(v.b.finished, flush)
    ensures code.BufError? <==> Refuses(v, old(h.pending), |v.b.s.nextIn|, v.Room(), flush)
  {
    v' := v;
    if v.b.finished && !flush.Finish? {
      code := StreamError;
    } else if v.Room() == 0 {
      code := BufError;
    } else {
      v', code := Work(h, p, v, flush);
    }
  }

  class Stream {
    const h: DeflateStream.Stream
    const p: Params
    var v: Inner

    ghost predicate Valid()
      reads this, h, h.pendingBuf
    {
      Stand(h, p, v)
    }

    constructor (setup: Setup, p: Params)
      requires Proper(setup) && p.Valid()
      ensures Valid() && h.c == setup && v.out == [] && h.consumed == [] && h.nextIn == [] && v.b.lastRank == -2
      ensures fresh(h) && fresh(h.pendingBuf) && !v.b.finished
    {
      h := new DeflateStream.Stream(setup, p.capacity);
      var window := new Octet[2 * p.wSize];
      this.p := p;
      v := Inner(StoredStream.NewBlocks(window[..]), []);
      new;
      StoredStream.NewBlocksOk(p, window[..]);
      assert Joined([], |h.header|, []) == [];
      assert StandWith(h, p, v, |h.header|);
    }

    /** deflate() at level 0, with the input that earlier calls did not take and more. */
    method Deflate(more: seq<Byte>, room: nat, flush: FlushMode) returns (code: Code)
      requires Valid()
      modifies this, h, h.pendingBuf
      ensures Valid() && old(v.out) <= v.out && |v.out| <= |old(v.out)| + room
      ensures h.consumed + h.nextIn == old(h.consumed + h.nextIn) + more
      ensures code.StreamEnd? ==> Complete(h, v)
      ensures code.StreamError? <==> old(WrongFlush(v.b.finished, flush))
      ensures code.BufError? <==> old(Refuses(v, h.pending, |h.nextIn + more|, room, flush))
    {
      Regroup(h.consumed, h.nextIn, more);
      h.nextIn := h.nextIn + more;
      OfferedStands(h, p, v, Octets(h.nextIn), room);
      var v';
      v', code := Serve(h, p, Offered(v, Octets(h.nextIn), room), flush);
      v := v';
    }
  }

  /** The caller's input and room. */
  function Offered(v: Inner, input: seq<Octet>, room: nat): Inner {
    v.(b := v.b.(s := v.b.s.(nextIn := input))).WithRoom(room)
  }

  lemma OfferedStands(h: DeflateStream.Stream, p: Params, v: Inner, input: seq<Octet>, room: nat)
    requires Stand(h, p, v)
    ensures Stand(h, p, Offered(v, input, room))
  {
    assert StandWith(h, p, Offered(v, input, room), |h.header|);
  }

  /** Any calls of deflate() at level 0, each with the input that the ones before it did not take. */
  method Run(c: Setup, p: Params, calls: seq<Call<Byte>>) returns (s: Stream, code: Code)
    requires Proper(c) && p.Valid()
    ensures s.Valid() && s.h.c == c && s.h.consumed + s.h.nextIn == AllInput(calls) && |s.v.out| <= AllRoom(calls)
    ensures calls != [] && code.StreamEnd? ==> Complete(s.h, s.v)
  {
    s := new Stream(c, p);
    code := Code.Ok;
    for i := 0 to |calls|
      invariant s.Valid() && s.h.c == c && fresh(s) && fresh(s.h) && fresh(s.h.pendingBuf)
      invariant s.h.consumed + s.h.nextIn == AllInput(calls[..i]) && |s.v.out| <= AllRoom(calls[..i])
      invariant i != 0 && code.StreamEnd? ==> Complete(s.h, s.v)
    {
      NextCall(calls, i);
      code := s.Deflate(calls[i].more, calls[i].room, calls[i].flush);
    }
    Whole(calls);
  }

  /** A gzip stream at level 0: once the last call says that it is the end, the output is a gzip member
      with the header given, the CRC and the size of all the input, and a body that a decompressor reads
      as all the input. */
  method RunGzip(wBits: bv32, strategy: Strategy, head: GzHeader, p: Params, calls: seq<Call<Byte>>)
    returns (out: seq<Byte>, body: seq<Byte>, code: Code)
    requires 8 <= wBits <= 15 && Valid(head) && p.Valid()
    ensures |out| <= AllRoom(calls)
    ensures calls != [] && code.StreamEnd? ==>
              IsGzip(out, head, body, AllInput(calls)) && Inflate(AllBits(Octets(body)), 0) == Some(Octets(AllInput(calls)))
  {
    var c := GzipSetup(wBits, 0, strategy, head);
    var s;
    s, code := Run(c, p, calls);
    out, body := s.v.out, Bytes(s.v.b.s.k.out);
    HeaderStands(s.h, s.p, s.v);
    OctetsBack(s.v.b.s.k.out);
    GzipIsRead(c, body, AllInput(calls));
    assert code.StreamEnd? && calls != [] ==> s.h.consumed + [] == s.h.consumed;
  }

  /** A zlib stream at level 0, likewise. */
  method RunZlib(wBits: bv32, strategy: Strategy, dictionary: Option<bv32>, p: Params, calls: seq<Call<Byte>>)
    returns (out: seq<Byte>, body: seq<Byte>, code: Code)
    requires 8 <= wBits <= 15 && p.Valid()
    ensures |out| <= AllRoom(calls)
    ensures calls != [] && code.StreamEnd? ==>
              && IsZlib(out, wBits, LevelFlags(0, strategy), dictionary, body, AllInput(calls))
              && Inflate(AllBits(Octets(body)), 0) == Some(Octets(AllInput(calls)))
  {
    var c := ZlibSetup(wBits, 0, strategy, dictionary);
    var s;
    s, code := Run(c, p, calls);
    out, body := s.v.out, Bytes(s.v.b.s.k.out);
    HeaderStands(s.h, s.p, s.v);
    OctetsBack(s.v.b.s.k.out);
    ZlibIsRead(c, body, AllInput(calls));
    assert code.StreamEnd? && calls != [] ==> s.h.consumed + [] == s.h.consumed;
  }

  lemma HeaderStands(h: DeflateStream.Stream, p: Params, v: Inner)
    requires Stand(h, p, v)
    ensures Proper(h.c) && h.header == HeaderBytes(h.c)
  {
  }

  lemma JoinedWhole(header: seq<Byte>, blocks: seq<Octet>, trailer: seq<Byte>)
    ensures Joined(header + [] + trailer, |header|, blocks) == header + Bytes(blocks) + trailer
  {
    var ends := header + [] + trailer;
    assert ends[..|header|] == header && ends[|header|..] == trailer;
  }

  lemma NoBody(header: seq<Byte>)
    ensures header + [] + [] == header
  {
  }

  lemma TakenFront(a: seq<Octet>, b: seq<Octet>, a': seq<Octet>, b': seq<Octet>)
    requires a' + b' == a + b && |b'| <= |b|
    ensures var n := |a'| - |a|; 0 <= n <= |b| && a' == a + b[..n] && b' == b[n..]
  {
    var n := |a'| - |a|;
    assert (a + b)[..|a'|] == a + b[..n] && (a + b)[|a'|..] == b[n..];
    assert (a' + b')[..|a'|] == a' && (a' + b')[|a'|..] == b';
  }
}
