/**
 deflate() at a fixed level and strategy, for a raw stream: whole runs of calls with any
 split of the input, any flush values and any room for output.
 */
module Deflater {
  import opened RollingHash
  import opened Lz77
  import opened HashChains
  import opened SlidingWindow
  import opened LongestMatch
  import opened Decisions
  import opened TokenOutput
  import opened Matchers
  import opened Wrappers
  import opened DeflateCalls
  import opened Sequences

  /** configuration_table, levels 1 to 9. */
  function Configuration(level: nat): (t: Tuning)
    requires 1 <= level <= 9
    ensures t.Valid()
  {
    match level
    case 1 => Tuning(4, 4, 8, 4)
    case 2 => Tuning(4, 5, 16, 8)
    case 3 => Tuning(4, 6, 32, 32)
    case 4 => Tuning(4, 4, 16, 16)
    case 5 => Tuning(8, 16, 32, 32)
    case 6 => Tuning(8, 16, 128, 128)
    case 7 => Tuning(8, 32, 128, 256)
    case 8 => Tuning(32, 128, 258, 1024)
    case _ => Tuning(32, 258, 258, 4096)
  }

  /** 1 << bits for the sizes in use. */
  function Shifted(bits: nat): (n: nat)
    requires 7 <= bits <= 15
    ensures 128 <= n <= 32768 && (bits >= 9 ==> n >= 512)
  {
    match bits
    case 7 => 128
    case 8 => 256
    case 9 => 512
    case 10 => 1024
    case 11 => 2048
    case 12 => 4096
    case 13 => 8192
    case 14 => 16384
    case _ => 32768
  }

  /** The parameters that deflateInit2_ accepts for the compressing levels. */
  predicate Accepted(windowBits: nat, memLevel: nat, level: nat) {
    8 <= windowBits <= 15 && 1 <= memLevel <= 9 && 1 <= level <= 9
  }

  /** deflateInit2_: a 256-byte window is raised to 512, and memLevel gives the hash and
      the symbol buffer. */
  function Init(windowBits: nat, memLevel: nat, level: nat, filtered: bool): (c: Config)
    requires Accepted(windowBits, memLevel, level)
    ensures c.Valid()
  {
    var bits := if windowBits == 8 then 9 else windowBits;
    Config(Sizes(Shifted(bits), ForBits(memLevel + 7)), Configuration(level), filtered, Shifted(memLevel + 6))
  }

  /** lm_init on fresh buffers: head is cleared, window and prev hold anything. */
  function Fresh(c: Config, bytes: seq<Byte>, prev: seq<Pos>): State {
    State(
      Window(Buffers(bytes, seq(c.sizes.hash.Size(), _ => NIL), prev, History([], 0, {}, 0)), 0, 0, 0, 0, 0, []),
      Lazy(MIN_MATCH - 1, 0, false, MIN_MATCH - 1, 0),
      Output(Tape([], [], 0), 0, 0))
  }

  lemma FreshOk(c: Config, bytes: seq<Byte>, prev: seq<Pos>)
    requires c.Valid() && |bytes| == 2 * c.sizes.wSize && |prev| == c.sizes.wSize
    ensures Fresh(c, bytes, prev).FastOk(c) && Fresh(c, bytes, prev).SlowOk(c)
    ensures Linked(false, Fresh(c, bytes, prev), START) && Linked(true, Fresh(c, bytes, prev), START)
  {
    var s := Fresh(c, bytes, prev);
    assert s.o.t.Tokens() == [];
    assert s.w.b.hist.stream[..0] == [];
  }

  /** Z_FULL_FLUSH after a finished block: forget the history and start over at window
      index 0. */
  function Forget(c: Config, s: State): State {
    var h := s.w.b.hist;
    var b := s.w.b.(head := seq(|s.w.b.head|, _ => NIL), hist := History(h.stream, |h.stream|, {}, 0));
    s.(w := s.w.(b := b, strStart := 0, insert := 0), o := s.o.(t := s.o.t.(blockStart := 0)))
  }

  lemma ForgetOk(c: Config, s: State)
    requires c.Valid() && s.w.Valid(c.sizes) && s.Covers(c, s.w.Cur()) && Complete(s)
    ensures Forget(c, s).w.Valid(c.sizes) && Forget(c, s).Covers(c, Forget(c, s).w.Cur()) && Complete(Forget(c, s))
  {
    var s' := Forget(c, s);
    assert s.w.b.hist.stream[..s.w.Cur()] == s.w.b.hist.stream;
    assert s'.o.t.Tokens() == s.o.t.flushed == s.o.t.Tokens();
  }

  /** What has happened since the stream was new, and where the machine has come to. */
  datatype Trace = Trace(es: seq<Event>, m: Mach)

  /** The machine has come as far as the state by legal events. */
  ghost predicate Traced(c: Config, slow: bool, s: State, tr: Trace) {
    Linked(slow, s, tr.m) && Leads(c, slow, s.Given(), START, tr.es, tr.m)
  }

  ghost predicate EndsInRestart(tr: Trace) {
    tr.es != [] && tr.es[|tr.es| - 1].Restart?
  }

  /** A full flush is an event of its own, after which the window starts over. */
  lemma ForgetTraced(c: Config, slow: bool, s: State, tr: Trace)
    requires Traced(c, slow, s, tr) && Done(slow, s) && s.w.b.End() == s.w.strStart + s.w.lookahead
    ensures Traced(c, slow, Forget(c, s), Trace(tr.es + [Restart], tr.m.(since := tr.m.pos, filed := {})))
  {
    LeadsOn(c, slow, s.Given(), START, tr.es, tr.m, Restart);
  }

  /** More input offered. */
  lemma MoreTraced(c: Config, slow: bool, s: State, more: seq<Byte>, tr: Trace)
    requires Traced(c, slow, s, tr)
    ensures Traced(c, slow, s.(w := s.w.(nextIn := s.w.nextIn + more)), tr)
  {
    var s' := s.(w := s.w.(nextIn := s.w.nextIn + more));
    MoreInput(c, slow, s.Given(), more, tr.es);
    SameHeld(s, s');
    Regroup(s.w.b.hist.stream, s.w.nextIn, more);
    assert s'.Given() == s.Given() + more && s'.o.t.Tokens() == s.o.t.Tokens();
  }

  /** The invariant of the matcher in use: levels 4 to 9 use deflate_slow, 1 to 3 deflate_fast. */
  ghost predicate MatcherOk(c: Config, slow: bool, s: State) {
    if slow then s.SlowOk(c) else s.FastOk(c)
  }

  /** All input read is in the blocks written. */
  ghost predicate Done(slow: bool, s: State) {
    && s.w.lookahead == 0 && s.o.t.sym == [] && !(slow && s.z.matchAvailable)
    && Expand(s.o.t.flushed) == Some(s.w.b.hist.stream)
  }

  /** The compression function of the level. */
  method Compress(c: Config, slow: bool, s: State, flush: FlushMode, ghost tr: Trace)
    returns (s': State, r: BlockState, ghost tr': Trace)
    requires MatcherOk(c, slow, s) && s.o.pending == 0 && Traced(c, slow, s, tr)
    ensures MatcherOk(c, slow, s') && Consumes(s, s')
    ensures !r.NeedMore? ==> Done(slow, s') && s'.w.nextIn == []
    ensures Reports(s', flush, r)
    ensures Traced(c, slow, s', tr') && GoesOn(tr.es, tr'.es, false)
  {
    ghost var es, m;
    if slow {
      s', r, es, m := DeflateSlow(c, s, flush, tr.m);
    } else {
      s', r, es, m := DeflateFast(c, s, flush, tr.m);
    }
    LeadsJoin(c, slow, s.Given(), START, tr.es, tr.m, es, m);
    tr' := Trace(tr.es + es, m);
  }

  /** A counter of pending output and room changed by bytes that stand for no input: an
      empty block, or output delivered. */
  lemma CountersAside(c: Config, slow: bool, s: State, s': State)
    requires s' == s.(o := s.o.(pending := s'.o.pending, availOut := s'.o.availOut))
    requires MatcherOk(c, slow, s)
    ensures MatcherOk(c, slow, s') && Consumes(s, s') && (Done(slow, s) ==> Done(slow, s'))
  {
    assert s'.o.t.Tokens() == s.o.t.Tokens();
  }

  lemma CountersTraced(c: Config, slow: bool, s: State, s': State, tr: Trace)
    requires s' == s.(o := s.o.(pending := s'.o.pending, availOut := s'.o.availOut)) && Traced(c, slow, s, tr)
    ensures Traced(c, slow, s', tr)
  {
    SameHeld(s, s');
    assert s'.o.t.Tokens() == s.o.t.Tokens();
  }

  lemma SameHeld(s: State, s': State)
    requires s'.z == s.z && s'.w.strStart == s.w.strStart && s'.w.b == s.w.b
    ensures s'.HeldDistance() == s.HeldDistance() && s'.w.Cur() == s.w.Cur()
    ensures s'.w.nextIn == s.w.nextIn ==> s'.Given() == s.Given()
  {
  }

  /** More input offered changes nothing of what is done. */
  lemma InputAside(c: Config, slow: bool, s: State, s': State)
    requires s' == s.(w := s.w.(nextIn := s'.w.nextIn)) && MatcherOk(c, slow, s)
    ensures MatcherOk(c, slow, s') && (Done(slow, s) ==> Done(slow, s'))
  {
    if slow {
      SlowInputAside(c, s, s');
    }
  }

  lemma SlowInputAside(c: Config, s: State, s': State)
    requires s' == s.(w := s.w.(nextIn := s'.w.nextIn)) && s.SlowOk(c)
    ensures s'.SlowOk(c)
  {
    HeldInputAside(c, s, s');
  }

  lemma HeldInputAside(c: Config, s: State, s': State)
    requires s' == s.(w := s.w.(nextIn := s'.w.nextIn))
    ensures s'.HeldOk(c) == s.HeldOk(c)
  {
  }

  /** What deflate() does after a finished block: mark the boundary with an empty block,
      forget the history on Z_FULL_FLUSH, and deliver output. */
  method AfterBlock(c: Config, slow: bool, s: State, flush: FlushMode, ghost tr: Trace) returns (s': State, ghost tr': Trace)
    requires MatcherOk(c, slow, s) && Done(slow, s) && s.w.nextIn == [] && s.o.pending == 0 && Traced(c, slow, s, tr)
    ensures MatcherOk(c, slow, s') && Done(slow, s') && Consumes(s, s') && Delivered(s'.o)
    ensures Traced(c, slow, s', tr') && GoesOn(tr.es, tr'.es, flush.FullFlush?) && (flush.FullFlush? ==> EndsInRestart(tr'))
  {
    s', tr' := s, tr;
    if flush != Block {
      var produced :| produced >= 0;
      s' := s.(o := s.o.(pending := produced));
      CountersAside(c, slow, s, s');
      CountersTraced(c, slow, s, s', tr);
      if flush == FullFlush {
        ForgetOk(c, s');
        ForgetTraced(c, slow, s', tr);
        s', tr' := Forget(c, s'), Trace(tr.es + [Restart], tr.m.(since := tr.m.pos, filed := {}));
      }
    }
    ghost var s1 := s';
    s' := s'.(o := FlushPending(s'.o));
    CountersAside(c, slow, s1, s');
    CountersTraced(c, slow, s1, s', tr');
  }

  /** Tokens, and the input position up to which they go; the input read, the part of it ahead of
      the matcher, and whether the byte before that part is held back. */
  datatype Passage = Passage(tokens: seq<Token>, passed: nat, read: nat, ahead: nat, held: bool)

  /** The tokens are in range and expand to exactly the input read, but for what is ahead and the
      byte held back. */
  ghost predicate Accounts(p: Passage, maxDist: int, input: seq<Byte>) {
    && p.passed + (if p.held then 1 else 0) + p.ahead == p.read <= |input|
    && Expand(p.tokens) == Some(input[..p.passed]) && AllInRange(p.tokens, maxDist)
  }

  /** How far a state has come. */
  method PassageOf(c: Config, slow: bool, s: State, ghost tr: Trace) returns (p: Passage)
    requires MatcherOk(c, slow, s) && Linked(slow, s, tr.m)
    ensures Accounts(p, c.sizes.MaxDist(), s.Given()) && (p.held ==> slow)
    ensures p.read == |s.w.b.hist.stream| && p.ahead == s.w.lookahead && p.held == (slow && s.z.matchAvailable)
    ensures p.tokens == tr.m.tokens && p.passed == tr.m.Covered()
  {
    var held := slow && s.z.matchAvailable;
    var passed := if held then s.w.Cur() - 1 else s.w.Cur();
    assert s.Covers(c, passed);
    PrefixOfSum(s.w.b.hist.stream, s.w.nextIn, passed);
    p := Passage(s.o.t.Tokens(), passed, |s.w.b.hist.stream|, s.w.lookahead, held);
  }

  /** What every call keeps: the tokens so far cover the input that the matcher has passed and are those that
      its decisions make, and a finished stream is complete. */
  ghost predicate RunningOn(c: Config, slow: bool, s: State, finished: bool, tr: Trace, input: seq<Byte>) {
    input == s.Given() && MatcherOk(c, slow, s) && (finished ==> Done(slow, s)) && Traced(c, slow, s, tr)
  }

  ghost predicate Running(c: Config, slow: bool, s: State, finished: bool, tr: Trace) {
    exists input :: RunningOn(c, slow, s, finished, tr, input)
  }

  lemma DeliveryKeeps(c: Config, slow: bool, s: State, s': State, finished: bool, tr: Trace)
    requires Running(c, slow, s, finished, tr) && s' == s.(o := s.o.(pending := s'.o.pending, availOut := s'.o.availOut))
    ensures Running(c, slow, s', finished, tr) && s'.Given() == s.Given()
  {
    CountersAside(c, slow, s, s');
    CountersTraced(c, slow, s, s', tr);
    assert RunningOn(c, slow, s', finished, tr, s.Given());
  }

  lemma SupplyKeeps(c: Config, slow: bool, s: State, finished: bool, tr: Trace, more: seq<Byte>, room: nat)
    requires Running(c, slow, s, finished, tr)
    ensures var s' := State(s.w.(nextIn := s.w.nextIn + more), s.z, s.o.(availOut := room));
            Running(c, slow, s', finished, tr) && s'.Given() == s.Given() + more
  {
    var s1 := s.(o := s.o.(availOut := room));
    CountersAside(c, slow, s, s1);
    CountersTraced(c, slow, s, s1, tr);
    InputAside(c, slow, s1, s1.(w := s1.w.(nextIn := s1.w.nextIn + more)));
    MoreTraced(c, slow, s1, more, tr);
    Regroup(s.w.b.hist.stream, s.w.nextIn, more);
    assert RunningOn(c, slow, s1.(w := s1.w.(nextIn := s1.w.nextIn + more)), finished, tr, s.Given() + more);
  }

  /** With room left, nothing is pending and all input has been read; after a flush it is all in the
      blocks written, and without one less than MIN_LOOKAHEAD bytes of it await a token. */
  ghost predicate Caught(slow: bool, s: State, flush: FlushMode) {
    && s.o.pending == 0 && s.w.nextIn == []
    && if flush.NoFlush? then s.w.lookahead < MIN_LOOKAHEAD
       else Done(slow, s) && Expand(s.o.t.flushed) == Some(s.Given())
  }

  /** What a call has come to: end says that it returns, and rank is the new last_flush. */
  ghost predicate Blocked(c: Config, slow: bool, s: State, finished: bool, tr: Trace, s': State, finished': bool, tr': Trace,
                          flush: FlushMode, end: bool)
  {
    && Running(c, slow, s', finished', tr') && s'.Given() == s.Given() && GoesOn(tr.es, tr'.es, flush.FullFlush?)
    && (flush.FullFlush? && (!end || s'.o.availOut != 0) ==> EndsInRestart(tr'))
    && (!end && flush.Finish? ==> finished' && s'.w.nextIn == [])
    && (!end || s'.o.availOut != 0 ==> Caught(slow, s', flush))
    && (finished' ==> finished || flush.Finish?) && (finished ==> finished')
  }

  /** The compression function and what follows it. */
  method BlockOf(c: Config, slow: bool, s: State, flush: FlushMode, ghost tr: Trace)
    returns (s': State, finished: bool, end: bool, ghost tr': Trace)
    requires Running(c, slow, s, false, tr) && s.o.pending == 0
    ensures Blocked(c, slow, s, false, tr, s', finished, tr', flush, end)
  {
    var r;
    s', r, tr' := Compress(c, slow, s, flush, tr);
    finished, end := r == FinishStarted || r == FinishDone, r == NeedMore || r == FinishStarted;
    if r == BlockDone {
      ghost var s1 := s';
      s', tr' := AfterBlock(c, slow, s', flush, tr');
      ConsumesTransitive(s, s1, s');
      end := s'.o.availOut == 0;
    }
    assert s'.w.b.hist.stream + [] == s'.w.b.hist.stream;
    assert RunningOn(c, slow, s', finished, tr', s'.Given());
  }

  class Stream {
    const c: Config
    const slow: bool
    var s: State
    /** The rank of the last flush value; -1 and -2 rank below all. */
    var lastRank: int
    /** status == FINISH_STATE. */
    var finished: bool
    ghost var tr: Trace

    ghost predicate Valid()
      reads this
    {
      Running(c, slow, s, finished, tr)
    }

    /** All input given so far. */
    ghost function Given(): seq<Byte>
      reads this
    {
      s.Given()
    }

    constructor (windowBits: nat, memLevel: nat, level: nat, filtered: bool)
      requires Accepted(windowBits, memLevel, level)
      ensures Valid() && Given() == [] && !finished && lastRank == -2 && tr == Trace([], START)
      ensures c == Init(windowBits, memLevel, level, filtered) && slow == (level >= 4)
    {
      var cfg := Init(windowBits, memLevel, level, filtered);
      var window := new Byte[2 * cfg.sizes.wSize];
      var prev := new Pos[cfg.sizes.wSize];
      FreshOk(cfg, window[..], prev[..]);
      c, slow := cfg, level >= 4;
      s, lastRank, finished := Fresh(cfg, window[..], prev[..]), -2, false;
      tr := Trace([], START);
      assert RunningOn(cfg, level >= 4, Fresh(cfg, window[..], prev[..]), false, Trace([], START), []);
    }

    /** The caller sets up next_in, avail_in, next_out and avail_out. */
    method Supply(more: seq<Byte>, room: nat)
      requires Valid()
      modifies this
      ensures Valid() && Given() == old(Given()) + more && finished == old(finished) && lastRank == old(lastRank)
      ensures tr == old(tr)
      ensures s.o.availOut == room && s.o.pending == old(s.o.pending) && s.w.nextIn == old(s.w.nextIn) + more
    {
      SupplyKeeps(c, slow, s, finished, tr, more, room);
      s := State(s.w.(nextIn := s.w.nextIn + more), s.z, s.o.(availOut := room));
    }

    /** The tokens so far, how much of the input they cover, how much of it has been read, how much
        of that is still ahead of the matcher, and whether a byte is held back. */
    method Progress() returns (p: Passage)
      requires Valid()
      ensures Accounts(p, c.sizes.MaxDist(), Given()) && (p.held ==> slow)
      ensures p.read == |s.w.b.hist.stream| && p.ahead == s.w.lookahead && p.held == (slow && s.z.matchAvailable)
      ensures p.tokens == tr.m.tokens && p.passed == tr.m.Covered()
    {
      p := PassageOf(c, slow, s, tr);
    }

    /** The part of deflate() that starts or continues a block; it may end the call. */
    method Block(flush: FlushMode) returns (end: bool)
      requires Valid() && s.o.pending == 0 && (finished ==> s.w.nextIn == [])
      requires finished ==> flush.Finish?
      modifies this
      ensures Blocked(c, slow, old(s), old(finished), old(tr), s, finished, tr, flush, end)
      ensures lastRank == old(lastRank) || lastRank == -1
    {
      end := false;
      if s.w.nextIn != [] || s.w.lookahead != 0 || (flush != NoFlush && !finished) {
        s, finished, end, tr := BlockOf(c, slow, s, flush, tr);
        if end && s.o.availOut == 0 {
          lastRank := -1;
        }
      } else {
        assert s.w.b.hist.stream + [] == s.w.b.hist.stream;
      }
    }

    /** The call returns Z_BUF_ERROR. */
    predicate Refuses(flush: FlushMode)
      reads this
    {
      Refused(finished, |s.w.nextIn|, s.o.pending, s.o.availOut, lastRank, flush)
    }

    /** Deliver pending output, or refuse a call with nothing to do. */
    method FlushFirst(flush: FlushMode) returns (early: Option<Code>)
      requires Valid()
      modifies this
      ensures Valid() && Given() == old(Given()) && early != Some(StreamEnd) && finished == old(finished)
      ensures early == None ==> s.o.pending == 0 && (finished ==> s.w.nextIn == [])
      ensures early == Some(Ok) ==> s.o.availOut == 0
      ensures lastRank <= Rank(flush) && s.w == old(s.w) && s.o.t == old(s.o.t) && tr == old(tr)
      ensures old(s.o.availOut) > 0 && !WrongFlush(finished, flush) ==> (early == Some(BufError) <==> old(Refuses(flush)))
      ensures early != Some(StreamError)
    {
      var oldRank := lastRank;
      lastRank := Rank(flush);
      if s.o.pending != 0 {
        DeliveryKeeps(c, slow, s, s.(o := FlushPending(s.o)), finished, tr);
        s := s.(o := FlushPending(s.o));
        if s.o.availOut == 0 {
          lastRank := -1;
          return Some(Ok);
        }
      } else if s.w.nextIn == [] && Rank(flush) <= oldRank && flush != Finish {
        return Some(BufError);
      }
      return if finished && s.w.nextIn != [] then Some(BufError) else None;
    }

    /** deflate() for a raw stream. A call that ends with room left has caught up with the input:
        after a flush, and so at Z_STREAM_END, the blocks written expand to all the input given.
        After a full flush the search starts over. */
    method Deflate(flush: FlushMode) returns (code: Code)
      requires Valid()
      modifies this
      ensures Valid() && Given() == old(Given()) && GoesOn(old(tr.es), tr.es, flush.FullFlush?)
      ensures flush.FullFlush? && code == Ok && s.o.availOut != 0 ==> EndsInRestart(tr)
      ensures code == StreamEnd ==> flush.Finish? && finished && Caught(slow, s, flush)
      ensures code == Ok && s.o.availOut != 0 ==> Caught(slow, s, flush)
      ensures code == StreamError <==> old(WrongFlush(finished, flush))
      ensures code == BufError <==> old(Refuses(flush))
      ensures code == StreamError || code == BufError ==> s.w == old(s.w) && s.o.t == old(s.o.t)
      ensures if code == StreamError || old(s.o.availOut) == 0 then lastRank == old(lastRank) else lastRank <= Rank(flush)
      ensures (finished ==> old(finished) || flush.Finish?) && (old(finished) ==> finished)
    {
      if finished && flush != Finish {
        return StreamError;
      }
      if s.o.availOut == 0 {
        return BufError;
      }
      var early := FlushFirst(flush);
      if early.Some? {
        return early.value;
      }
      var end := Block(flush);
      code := if end || flush != Finish then Ok else StreamEnd;
    }
  }

  /** What a call has come to when it ends with room left, or with Z_STREAM_END: everything is read,
      and after a flush everything is passed. */
  predicate CaughtUp(p: Passage, input: seq<Byte>, flush: FlushMode) {
    p.read == |input| && if flush.NoFlush? then p.ahead < MIN_LOOKAHEAD else p.passed == |input|
  }

  /** One call, set up by its caller. */
  method Perform(d: Stream, call: Call<Byte>) returns (code: Code)
    requires d.Valid()
    modifies d
    ensures d.Valid() && d.Given() == old(d.Given()) + call.more && GoesOn(old(d.tr.es), d.tr.es, call.flush.FullFlush?)
    ensures call.flush.FullFlush? && code == Ok && d.s.o.availOut != 0 ==> EndsInRestart(d.tr)
    ensures code == StreamEnd || (code == Ok && d.s.o.availOut != 0) ==> Caught(d.slow, d.s, call.flush)
    ensures code == StreamError <==> old(WrongFlush(d.finished, call.flush))
    ensures code == BufError <==>
              old(Refused(d.finished, |d.s.w.nextIn + call.more|, d.s.o.pending, call.room, d.lastRank, call.flush))
    ensures if code == StreamError || call.room == 0 then d.lastRank == old(d.lastRank) else d.lastRank <= Rank(call.flush)
    ensures (d.finished ==> old(d.finished) || call.flush.Finish?) && (old(d.finished) ==> d.finished)
  {
    d.Supply(call.more, call.room);
    code := d.Deflate(call.flush);
  }

  /** What a call returns, the room it leaves, and how far the stream has come. */
  datatype Outcome = Outcome(code: Code, room: nat, p: Passage)

  /** The call ended with a full flush done. */
  predicate FullyFlushed(call: Call<Byte>, o: Outcome) {
    call.flush.FullFlush? && o.code == Ok && o.room != 0
  }

  /** What is known after a call, with all the input so far: the tokens account for it; a call that left room, or
      returned Z_STREAM_END, has caught up; and a call that had something to do was not refused. */
  ghost predicate Accounted(maxDist: int, slow: bool, before: seq<Call<Byte>>, call: Call<Byte>, o: Outcome) {
    && Accounts(o.p, maxDist, AllInput(before + [call])) && (o.p.held ==> slow)
    && (o.code == StreamEnd || (o.code == Ok && o.room != 0) ==> CaughtUp(o.p, AllInput(before + [call]), call.flush))
    && (Welcome(before, call) ==> o.code == Ok || o.code == StreamEnd)
  }

  /** One call after those before. */
  method PerformNext(d: Stream, ghost before: seq<Call<Byte>>, call: Call<Byte>) returns (o: Outcome)
    requires d.Valid() && Follows(d.lastRank, d.finished, before) && d.Given() == AllInput(before)
    modifies d
    ensures d.Valid() && d.Given() == old(d.Given()) + call.more == AllInput(before + [call])
    ensures GoesOn(old(d.tr.es), d.tr.es, call.flush.FullFlush?)
    ensures Follows(d.lastRank, d.finished, before + [call])
    ensures Accounted(d.c.sizes.MaxDist(), d.slow, before, call, o)
    ensures o.p.tokens == d.tr.m.tokens && o.p.passed == d.tr.m.Covered()
    ensures FullyFlushed(call, o) ==> EndsInRestart(d.tr) && d.tr.m.pos == |d.Given()|
  {
    ghost var rank, finished, input, pending := d.lastRank, d.finished, |d.s.w.nextIn + call.more|, d.s.o.pending;
    var code := Perform(d, call);
    if Welcome(before, call) {
      NotRefused(before, call, rank, finished, input, pending);
    }
    FollowsOn(before, call, rank, finished, d.lastRank, d.finished);
    assert (before + [call])[..|before|] == before;
    var p := d.Progress();
    o := Outcome(code, d.s.o.availOut, p);
  }

  /** The tokens from the k-th on expand on their own to the input from position at on. */
  ghost predicate Alone(p: Passage, k: nat, input: seq<Byte>, at: nat) {
    k <= |p.tokens| && at <= p.passed <= |input| && Expand(p.tokens[k..]) == Some(input[at..p.passed])
  }

  /** A call changes nothing of what stood on its own before it. */
  lemma CallKeeps(c: Config, slow: bool, input: seq<Byte>, more: seq<Byte>, tr: Trace, tr': Trace)
    requires Leads(c, slow, input, START, tr.es, tr.m) && Leads(c, slow, input + more, START, tr'.es, tr'.m) && tr.es <= tr'.es
    ensures tr.m.tokens <= tr'.m.tokens
    ensures forall k: nat, p: nat :: Sound(c, input, tr.m, k, p) ==> Sound(c, input + more, tr'.m, k, p)
  {
    var rest := tr'.es[|tr.es|..];
    assert tr'.es == tr.es + rest;
    TokensStay(c, slow, input, more, tr.es, rest);
    forall k: nat, p: nat | Sound(c, input, tr.m, k, p)
      ensures Sound(c, input + more, tr'.m, k, p)
    {
      StandsOn(c, slow, input, more, tr.es, rest, k, p);
    }
  }

  /** The log of the first calls, and how far the stream has come after them. */
  ghost predicate LogOk(maxDist: int, slow: bool, calls: seq<Call<Byte>>, log: seq<Outcome>, p: Passage)
    requires |log| <= |calls|
  {
    && (forall i :: 0 <= i < |log| ==> Accounted(maxDist, slow, calls[..i], calls[i], log[i]) && log[i].p.tokens <= p.tokens)
    && (log != [] ==> p == log[|log| - 1].p)
  }

  lemma LogGrows(maxDist: int, slow: bool, calls: seq<Call<Byte>>, log: seq<Outcome>, p: Passage, o: Outcome)
    requires |log| < |calls| && LogOk(maxDist, slow, calls, log, p) && p.tokens <= o.p.tokens
    requires Accounted(maxDist, slow, calls[..|log|], calls[|log|], o)
    ensures LogOk(maxDist, slow, calls, log + [o], o.p)
  {
  }

  /** What has been tallied since each full flush stands on its own. */
  ghost predicate FlushesStand(c: Config, input: seq<Byte>, m: Mach, calls: seq<Call<Byte>>, log: seq<Outcome>)
    requires |log| <= |calls|
  {
    forall i :: 0 <= i < |log| && FullyFlushed(calls[i], log[i]) ==>
      Sound(c, input, m, |log[i].p.tokens|, |AllInput(calls[..i] + [calls[i]])|)
  }

  lemma FlushesKept(c: Config, slow: bool, input: seq<Byte>, more: seq<Byte>, tr: Trace, tr': Trace, calls: seq<Call<Byte>>,
                    log: seq<Outcome>)
    requires |log| <= |calls| && FlushesStand(c, input, tr.m, calls, log) && tr.es <= tr'.es
    requires Leads(c, slow, input, START, tr.es, tr.m) && Leads(c, slow, input + more, START, tr'.es, tr'.m)
    ensures FlushesStand(c, input + more, tr'.m, calls, log) && tr.m.tokens <= tr'.m.tokens
  {
    CallKeeps(c, slow, input, more, tr, tr');
  }

  lemma FlushStands(c: Config, slow: bool, input: seq<Byte>, tr: Trace, tokens: seq<Token>)
    requires Leads(c, slow, input, START, tr.es, tr.m) && EndsInRestart(tr) && tr.m.pos == |input| && tr.m.tokens == tokens
    ensures Sound(c, input, tr.m, |tokens|, |input|)
  {
    RestartStands(c, slow, input, tr.es);
  }

  lemma OneMoreFlush(c: Config, input: seq<Byte>, m: Mach, calls: seq<Call<Byte>>, log: seq<Outcome>, o: Outcome)
    requires |log| < |calls| && FlushesStand(c, input, m, calls, log)
    requires FullyFlushed(calls[|log|], o) ==> Sound(c, input, m, |o.p.tokens|, |AllInput(calls[..|log|] + [calls[|log|]])|)
    ensures FlushesStand(c, input, m, calls, log + [o])
  {
  }

  /** The machine restarts only for a full flush. */
  ghost predicate RestartsForFlush(calls: seq<Call<Byte>>, n: nat, es: seq<Event>)
    requires n <= |calls|
  {
    (forall i :: 0 <= i < n ==> !calls[i].flush.FullFlush?) ==> GoesOn([], es, false)
  }

  lemma RestartsNext(calls: seq<Call<Byte>>, n: nat, es: seq<Event>, es': seq<Event>)
    requires n < |calls| && RestartsForFlush(calls, n, es) && GoesOn(es, es', calls[n].flush.FullFlush?)
    ensures RestartsForFlush(calls, n + 1, es')
  {
  }

  /** The log of the first calls, with all the input of these calls and what has happened. */
  ghost predicate LogStands(c: Config, slow: bool, calls: seq<Call<Byte>>, log: seq<Outcome>, p: Passage, input: seq<Byte>, tr: Trace) {
    exists n: nat :: LogStandsAt(c, slow, calls, n, log, p, input, tr)
  }

  ghost predicate LogStandsAt(c: Config, slow: bool, calls: seq<Call<Byte>>, n: nat, log: seq<Outcome>, p: Passage, input: seq<Byte>,
                              tr: Trace)
  {
    && n == |log| <= |calls| && Leads(c, slow, input, START, tr.es, tr.m) && p.tokens == tr.m.tokens
    && LogOk(c.sizes.MaxDist(), slow, calls, log, p) && FlushesStand(c, input, tr.m, calls, log)
    && RestartsForFlush(calls, |log|, tr.es)
  }

  lemma LogStandsNext(c: Config, slow: bool, calls: seq<Call<Byte>>, log: seq<Outcome>, p: Passage, input: seq<Byte>, tr: Trace,
                      o: Outcome, input': seq<Byte>, tr': Trace)
    requires |log| < |calls| && LogStands(c, slow, calls, log, p, input, tr)
    requires var call := calls[|log|];
             && input' == input + call.more == AllInput(calls[..|log|] + [call]) && GoesOn(tr.es, tr'.es, call.flush.FullFlush?)
             && Accounted(c.sizes.MaxDist(), slow, calls[..|log|], call, o)
             && (FullyFlushed(call, o) ==> EndsInRestart(tr') && tr'.m.pos == |input'|)
    requires Leads(c, slow, input', START, tr'.es, tr'.m) && o.p.tokens == tr'.m.tokens
    ensures LogStands(c, slow, calls, log + [o], o.p, input', tr')
  {
    FlushesKept(c, slow, input, calls[|log|].more, tr, tr', calls, log);
    if FullyFlushed(calls[|log|], o) {
      FlushStands(c, slow, input', tr', o.p.tokens);
    }
    RestartsNext(calls, |log|, tr.es, tr'.es);
    OneMoreFlush(c, input', tr'.m, calls, log, o);
    LogGrows(c.sizes.MaxDist(), slow, calls, log, p, o);
    assert LogStandsAt(c, slow, calls, |log| + 1, log + [o], o.p, input', tr');
  }

  /** The stream has made the first n calls. */
  ghost predicate HasMade(d: Stream, calls: seq<Call<Byte>>, n: nat, log: seq<Outcome>, p: Passage)
    reads d
  {
    && n == |log| <= |calls| && d.Valid() && d.Given() == AllInput(calls[..n]) && Follows(d.lastRank, d.finished, calls[..n])
    && p.passed == d.tr.m.Covered() && Accounts(p, d.c.sizes.MaxDist(), d.Given()) && (p.held ==> d.slow)
    && LogStands(d.c, d.slow, calls, log, p, d.Given(), d.tr)
  }

  ghost predicate Made(d: Stream, calls: seq<Call<Byte>>, log: seq<Outcome>, p: Passage)
    reads d
  {
    exists n: nat :: HasMade(d, calls, n, log, p)
  }

  /** The next call of a run. */
  method MakeNext(d: Stream, calls: seq<Call<Byte>>, log: seq<Outcome>, ghost p: Passage) returns (o: Outcome)
    requires Made(d, calls, log, p) && |log| < |calls|
    modifies d
    ensures Made(d, calls, log + [o], o.p)
  {
    NextPrefix(calls, |log|);
    ghost var given, tr := d.Given(), d.tr;
    o := PerformNext(d, calls[..|log|], calls[|log|]);
    LogStandsNext(d.c, d.slow, calls, log, p, given, tr, o, d.Given(), d.tr);
    assert HasMade(d, calls, |log| + 1, log + [o], o.p);
  }

  /** A new stream has made no call. */
  method Begin(windowBits: nat, memLevel: nat, level: nat, filtered: bool, calls: seq<Call<Byte>>)
    returns (d: Stream, p: Passage)
    requires Accepted(windowBits, memLevel, level)
    ensures fresh(d) && Made(d, calls, [], p)
    ensures d.c == Init(windowBits, memLevel, level, filtered) && d.slow == (level >= 4)
  {
    d := new Stream(windowBits, memLevel, level, filtered);
    p := d.Progress();
    assert LogStandsAt(d.c, d.slow, calls, 0, [], p, d.Given(), d.tr);
    assert HasMade(d, calls, 0, [], p);
  }

  /** What a run comes to. After each call the tokens tallied so far are in range and expand to exactly the input read,
      but for what the matcher has not reached and the byte it may hold back, and a call that left room, or returned
      Z_STREAM_END, has caught up with the input. The tokens tallied after a full flush expand on their own to the
      input that follows it. */
  ghost predicate RunOk(c: Config, slow: bool, calls: seq<Call<Byte>>, p: Passage, log: seq<Outcome>) {
    var input := AllInput(calls);
    && |log| == |calls| && LogOk(c.sizes.MaxDist(), slow, calls, log, p)
    && Accounts(p, c.sizes.MaxDist(), input) && (p.held ==> slow)
    && forall i :: 0 <= i < |calls| && FullyFlushed(calls[i], log[i]) ==>
         Alone(p, |log[i].p.tokens|, input, |AllInput(calls[..i] + [calls[i]])|)
  }

  /** The tokens are those that the decisions at each string make, and the history is forgotten only for a full flush. */
  ghost predicate Decided(c: Config, slow: bool, calls: seq<Call<Byte>>, p: Passage, es: seq<Event>) {
    var input := AllInput(calls);
    && Legal(c, slow, input, START, es) && p.tokens == After(c, slow, input, START, es).tokens
    && p.passed == After(c, slow, input, START, es).Covered() && RestartsForFlush(calls, |calls|, es)
  }

  lemma RunEnds(d: Stream, calls: seq<Call<Byte>>, log: seq<Outcome>, p: Passage)
    requires Made(d, calls, log, p) && |log| == |calls|
    ensures RunOk(d.c, d.slow, calls, p, log) && Decided(d.c, d.slow, calls, p, d.tr.es)
  {
    Whole(calls);
  }

  /** Any run of deflate() on a new stream. */
  method Run(windowBits: nat, memLevel: nat, level: nat, filtered: bool, calls: seq<Call<Byte>>)
    returns (p: Passage, log: seq<Outcome>, ghost es: seq<Event>)
    requires Accepted(windowBits, memLevel, level)
    ensures RunOk(Init(windowBits, memLevel, level, filtered), level >= 4, calls, p, log)
    ensures Decided(Init(windowBits, memLevel, level, filtered), level >= 4, calls, p, es)
  {
    var d;
    d, p := Begin(windowBits, memLevel, level, filtered, calls);
    log := [];
    for i := 0 to |calls|
      invariant Made(d, calls, log, p) && |log| == i
      invariant d.c == Init(windowBits, memLevel, level, filtered) && d.slow == (level >= 4)
    {
      var o := MakeNext(d, calls, log, p);
      log, p := log + [o], o.p;
    }
    RunEnds(d, calls, log, p);
    es := d.tr.es;
  }
}
