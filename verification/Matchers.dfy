/**
 deflate_fast and deflate_slow: the loops that turn the window into tokens, without and
 with lazy evaluation of matches.
 */
module Matchers {
  import opened Arith
  import opened RollingHash
  import opened Lz77
  import opened HashChains
  import opened MatchSearch
  import opened SlidingWindow
  import opened LongestMatch
  import opened Decisions
  import opened TokenOutput
  import opened Wrappers
  import opened DeflateCalls

  /** A value as an unsigned 32-bit integer holds it. */
  function Wrap32(x: int): nat {
    x % 0x1_0000_0000
  }

  /** The match found at the current string and the one at the string before it. */
  datatype Lazy = Lazy(matchLength: nat, matchStart: nat, matchAvailable: bool, prevLength: nat, prevMatch: nat)

  datatype State = State(w: Window, z: Lazy, o: Output) {

    /** The tokens so far cover the input up to position n. */
    ghost predicate Covers(c: Config, n: nat) {
      o.t.Covers(c.sizes.MaxDist(), w.b.hist.stream, w.b.hist.base, n)
    }

    ghost predicate CommonOk(c: Config) {
      c.Valid() && w.Valid(c.sizes) && z.matchStart < 0x1_0000_0000 && |o.t.sym| < c.SymEnd()
    }

    /** Between the steps of deflate_fast everything before the current string is covered. */
    ghost predicate FastOk(c: Config) {
      CommonOk(c) && Covers(c, w.Cur()) && z.matchLength < MIN_MATCH && z.prevLength == MIN_MATCH - 1
    }

    /** The distance that _tr_tally_dist is given for a match held back from the string before. */
    function HeldDistance(): nat {
      Wrap32(w.strStart - 1 - z.matchStart)
    }

    /** A match held back is a true match in the input, even when the window has moved
        under it and its start has become -1. */
    ghost predicate HeldOk(c: Config) {
      HeldDistance() <= w.strStart && TrueMatch(c, w.b.hist.stream, w.Cur() - 1, z.matchLength, HeldDistance())
    }

    /** Between the steps of deflate_slow everything is covered but the byte before the
        current string while match_available is set. */
    ghost predicate SlowOk(c: Config) {
      && CommonOk(c) && z.matchLength >= MIN_MATCH - 1
      && if z.matchAvailable then
           w.strStart >= 1 && Covers(c, w.Cur() - 1) && (z.matchLength >= MIN_MATCH ==> HeldOk(c))
         else
           Covers(c, w.Cur()) && z.matchLength == MIN_MATCH - 1
    }

    /** The input read and the input offered. */
    function Given(): seq<Byte> {
      w.b.hist.stream + w.nextIn
    }

    /** Input not yet passed by the matcher. */
    function Remaining(): int {
      |w.b.hist.stream| + |w.nextIn| - w.Cur()
    }
  }

  /** The machine that has come as far as the state: m has the same tokens, string and held match, and the
      window starts after the last full flush. */
  ghost predicate Linked(slow: bool, s: State, m: Mach) {
    && |s.o.t.sym| % 3 == 0 && m.tokens == s.o.t.Tokens() && m.pos == s.w.Cur() && m.since <= s.w.b.hist.base
    && m.filed <= s.w.b.hist.inserted && m.avail == (slow && s.z.matchAvailable)
    && (if m.avail then m.len == s.z.matchLength && (m.len >= MIN_MATCH ==> m.dist == s.HeldDistance())
        else m.len == MIN_MATCH - 1)
  }

  /** The input seen so far only grows, by what has been taken from the caller's buffer. */
  ghost predicate Consumes(s: State, s': State) {
    s.w.b.hist.stream <= s'.w.b.hist.stream && s'.w.b.hist.stream + s'.w.nextIn == s.w.b.hist.stream + s.w.nextIn
  }

  /** fill_window on the whole state: match_start and block_start move with the window. */
  method Fill(c: Config, s: State) returns (s': State)
    requires c.Valid() && s.w.Valid(c.sizes) && s.w.lookahead < MIN_LOOKAHEAD
    ensures s'.w.Valid(c.sizes) && Refilled(c.sizes, s.w, s'.w)
    ensures s'.w.strStart <= 2 * c.sizes.wSize - MIN_LOOKAHEAD
    ensures s'.w.lookahead >= MIN_LOOKAHEAD || s'.w.nextIn == []
    ensures
      var k := s.w.strStart - s'.w.strStart;
      s' == s.(w := s'.w, z := s.z.(matchStart := Wrap32(s.z.matchStart - k)),
               o := s.o.(t := s.o.t.(blockStart := s.o.t.blockStart - k)))
  {
    var w := FillWindow(c.sizes, s.w);
    var k := s.w.strStart - w.strStart;
    s' := s.(w := w, z := s.z.(matchStart := Wrap32(s.z.matchStart - k)),
             o := s.o.(t := s.o.t.(blockStart := s.o.t.blockStart - k)));
  }

  lemma FillKeepsCovers(c: Config, s: State, s': State, n: nat)
    requires s.Covers(c, n) && Refilled(c.sizes, s.w, s'.w)
    requires s'.o.t == s.o.t.(blockStart := s.o.t.blockStart - (s.w.strStart - s'.w.strStart))
    ensures s'.Covers(c, n)
  {
    CoversRefilled(s.o.t, c.sizes.MaxDist(), s.w.b.hist.stream, s'.w.b.hist.stream, s.w.b.hist.base,
                   s.w.strStart - s'.w.strStart, n);
  }

  /** fill_window between two steps of deflate_fast. */
  method FillFast(c: Config, s: State, ghost m: Mach) returns (s': State)
    requires s.FastOk(c) && s.w.lookahead < MIN_LOOKAHEAD && Linked(false, s, m)
    ensures Linked(false, s', m)
    ensures s'.FastOk(c) && Consumes(s, s') && s'.Remaining() == s.Remaining()
    ensures s'.o.pending == s.o.pending && s'.o.availOut == s.o.availOut
    ensures s'.w.strStart <= 2 * c.sizes.wSize - MIN_LOOKAHEAD
    ensures s'.w.lookahead >= MIN_LOOKAHEAD || s'.w.nextIn == []
  {
    s' := Fill(c, s);
    FillKeepsCovers(c, s, s', s.w.Cur());
    assert |s'.w.b.hist.stream + s'.w.nextIn| == |s.w.b.hist.stream + s.w.nextIn|;
  }

  /** A held match keeps its distance when the window moves under it. */
  lemma FillKeepsHeld(c: Config, s: State, s': State)
    requires s.HeldOk(c) && Refilled(c.sizes, s.w, s'.w)
    requires s'.z == s.z.(matchStart := Wrap32(s.z.matchStart - (s.w.strStart - s'.w.strStart)))
    ensures s'.HeldOk(c) && s'.HeldDistance() == s.HeldDistance()
  {
    DistanceMoves(s.w.strStart, s.z.matchStart, s.w.strStart - s'.w.strStart);
    var n, d := s.w.Cur() - 1, s.HeldDistance();
    forall i | n <= i < n + s.z.matchLength
      ensures s'.w.b.hist.stream[i] == s'.w.b.hist.stream[i - d]
    {
      assert s.w.b.hist.stream[i] == s.w.b.hist.stream[i - d];
    }
  }

  /** Moving both ends by k keeps a distance, also when the lower end wraps around. */
  lemma DistanceMoves(a: int, m: int, k: int)
    ensures Wrap32(a - k - 1 - Wrap32(m - k)) == Wrap32(a - 1 - m)
  {
    var q := (m - k) / 0x1_0000_0000;
    ModAddMultiple(a - 1 - m, q, 0x1_0000_0000);
  }

  /** fill_window between two steps of deflate_slow. */
  method FillSlow(c: Config, s: State, ghost m: Mach) returns (s': State)
    requires s.SlowOk(c) && s.w.lookahead < MIN_LOOKAHEAD && Linked(true, s, m)
    ensures Linked(true, s', m)
    ensures s'.SlowOk(c) && Consumes(s, s') && s'.Remaining() == s.Remaining()
    ensures s'.o.pending == s.o.pending && s'.o.availOut == s.o.availOut
    ensures s'.w.strStart <= 2 * c.sizes.wSize - MIN_LOOKAHEAD
    ensures s'.w.lookahead >= MIN_LOOKAHEAD || s'.w.nextIn == []
  {
    s' := Fill(c, s);
    FillKeepsCovers(c, s, s', if s.z.matchAvailable then s.w.Cur() - 1 else s.w.Cur());
    assert |s'.w.b.hist.stream + s'.w.nextIn| == |s.w.b.hist.stream + s.w.nextIn|;
    if s.z.matchAvailable && s.z.matchLength >= MIN_MATCH {
      FillKeepsHeld(c, s, s');
    }
  }

  /** A symbol buffer that is not full has room for one more symbol. */
  lemma RoomForOne(c: Config, n: nat)
    requires n % 3 == 0 && n < c.SymEnd()
    ensures n + 3 <= c.SymEnd()
  {
  }

  /** FLUSH_BLOCK_ONLY for the current string. */
  method FlushOnly(c: Config, s: State, last: bool) returns (s': State)
    requires s.w.b.HoldsInput(c.sizes) && s.w.strStart <= s.w.b.End() && s.Covers(c, s.w.Cur()) && s.o.pending == 0
    ensures s' == s.(o := s'.o) && s'.Covers(c, s.w.Cur()) && Delivered(s'.o)
    ensures s'.o.t.sym == [] && s'.o.t.flushed == s.o.t.Tokens() == s'.o.t.Tokens() && s'.o.t.blockStart == s.w.strStart
  {
    var o := FlushBlockOnly(s.o, c.sizes.MaxDist(), s.w.b.hist.stream, s.w.b.hist.base, s.w.strStart, s.w.b.bytes, last);
    s' := s.(o := o);
  }

  /** Insert the strings inside a match of length len at the current string. */
  method FastInsert(c: Config, w: Window, len: nat) returns (w': Window)
    requires Passed(c.sizes, w) && w.b.hist.next == w.Cur() + 1 && w.insert == 0
    requires MIN_MATCH <= len && len + MIN_MATCH <= w.lookahead
    ensures w'.Valid(c.sizes) && Skipped(w, w', len)
    ensures RunInserted(w.b, w'.b, w.strStart + 1, len - 1, w.strStart + len)
  {
    var str := w.strStart + len;
    var b, h := InsertRun(c.sizes, w.b, w.insH, w.strStart + 1, len - 1, str);
    w' := w.(b := b, insH := h, strStart := str, lookahead := w.lookahead - len);
  }

  /** Restart the running hash after a match of length len at the current string. */
  method FastRestart(c: Config, w: Window, len: nat) returns (w': Window)
    requires Passed(c.sizes, w) && w.b.hist.next == w.Cur() + 1 && w.insert == 0
    requires MIN_MATCH <= len <= MAX_MATCH && len <= w.lookahead && w.strStart <= 2 * c.sizes.wSize - MIN_LOOKAHEAD
    ensures w'.Valid(c.sizes) && Skipped(w, w', len) && w'.b == w.b
  {
    var str := w.strStart + len;
    w' := w.(strStart := str, lookahead := w.lookahead - len,
             insH := Start(c.sizes.hash, w.b.bytes[str], w.b.bytes[str + 1]));
  }

  /** Pass a match at the current string: the strings inside it are inserted only if it is
      short. */
  method FastSkip(c: Config, w: Window, len: nat) returns (w': Window)
    requires Passed(c.sizes, w) && w.b.hist.next == w.Cur() + 1 && w.insert == 0
    requires MIN_MATCH <= len <= MAX_MATCH && len <= w.lookahead && w.strStart <= 2 * c.sizes.wSize - MIN_LOOKAHEAD
    ensures w'.Valid(c.sizes) && Skipped(w, w', len)
    ensures FastInserts(c, w, len, w')
  {
    if len <= c.tuning.maxLazy && w.lookahead - len >= MIN_MATCH {
      w' := FastInsert(c, w, len);
    } else {
      w' := FastRestart(c, w, len);
    }
  }

  /** Tally a true match for the input from n on. */
  method TakeMatch(c: Config, s: State, n: nat, len: nat, dist: nat) returns (o: Output)
    requires c.Valid() && s.Covers(c, n) && len >= MIN_MATCH && TrueMatch(c, s.w.b.hist.stream, n, len, dist)
    ensures |o.t.sym| == |s.o.t.sym| + 3 && o == s.o.(t := o.t)
    ensures s.(o := o).Covers(c, n + len) && o.t.Tokens() == s.o.t.Tokens() + [Match(len, dist)]
  {
    var t := TallyMatch(s.o.t, len, dist, c.sizes.MaxDist(), s.w.b.hist.stream, s.w.b.hist.base, n);
    o := s.o.(t := t);
  }

  /** A token for the next n bytes, in a window that has moved past them. */
  lemma TakenOk(c: Config, s: State, s': State, n: nat, t: Token)
    requires s'.w.Valid(c.sizes) && Skipped(s.w, s'.w, n) && s.(o := s'.o).Covers(c, s.w.Cur() + n)
    requires s'.z.matchLength < MIN_MATCH && s'.z.matchStart == s.z.matchStart && s'.z.prevLength == s.z.prevLength
    requires |s.o.t.sym| % 3 == 0 && |s'.o.t.sym| == |s.o.t.sym| + 3 && s'.o.pending == s.o.pending
    requires s'.o.t.Tokens() == s.o.t.Tokens() + [t]
    ensures FastTaken(c, s, s', n, t)
  {
    CoversSkipped(c, s.(o := s'.o), s', s.w.Cur() + n, s'.w.Cur());
  }

  /** The byte at window index i, tallied as a literal. */
  method TakeLiteral(c: Config, s: State, i: nat) returns (o: Output)
    requires s.w.b.HoldsInput(c.sizes) && i < s.w.b.End() && s.Covers(c, s.w.b.hist.base + i)
    ensures |o.t.sym| == |s.o.t.sym| + 3 && o == s.o.(t := o.t) && s.(o := o).Covers(c, s.w.b.hist.base + i + 1)
    ensures o.t.Tokens() == s.o.t.Tokens() + [LiteralAt(s.w.b.hist.stream, s.w.b.hist.base + i)]
  {
    var t := TallyLiteral(s.o.t, s.w.b.bytes[i], c.sizes.MaxDist(), s.w.b.hist.stream, s.w.b.hist.base, s.w.b.hist.base + i);
    o := s.o.(t := t);
  }

  /** The current string of deflate_fast becomes a literal. */
  method FastLiteral(c: Config, s: State) returns (s': State)
    requires Passed(c.sizes, s.w) && s.w.lookahead > 0 && s.Covers(c, s.w.Cur())
    requires s.z.matchLength < MIN_MATCH
    ensures FastTaken(c, s, s', 1, LiteralAt(s.w.b.hist.stream, s.w.Cur())) && s'.w == Advance(s.w)
  {
    var o := TakeLiteral(c, s, s.w.strStart);
    AdvanceOk(c.sizes, s.w);
    s' := State(Advance(s.w), s.z, o);
    TakenOk(c, s, s', 1, LiteralAt(s.w.b.hist.stream, s.w.Cur()));
  }

  /** What deflate_fast finds at the current string, with that string inserted. */
  method FastFind(c: Config, s: State) returns (w: Window, len: nat, start: nat, ghost head: Pos)
    requires s.FastOk(c) && s.w.strStart <= 2 * c.sizes.wSize - MIN_LOOKAHEAD && s.w.lookahead > 0
    ensures Stands(c, Turn(w, head, len, start)) && FastFinds(c, Turn(w, head, len, start))
    ensures Passed(c.sizes, w) && SameInput(s.w, w) && start < 0x1_0000_0000 && s.w.b.hist.inserted <= w.b.hist.inserted
    ensures len >= MIN_MATCH ==>
              && w.b.hist.next == w.Cur() + 1 && w.insert == 0 && start < w.strStart && len <= w.lookahead
              && TrueMatch(c, w.b.hist.stream, w.Cur(), len, w.strStart - start)
  {
    var hashHead;
    w, hashHead := InsertCurrent(c.sizes, s.w);
    head := hashHead;
    len, start := s.z.matchLength, s.z.matchStart;
    if hashHead != NIL && w.strStart - hashHead <= c.sizes.MaxDist() {
      HeadIsCandidate(c.sizes, c.tuning, w, hashHead);
      len, start := FindMatch(c.sizes, c.tuning, w, hashHead, s.z.prevLength, start);
    }
  }

  /** What holds after a token of deflate_fast that takes n bytes. */
  ghost predicate FastTaken(c: Config, s: State, s': State, n: nat, t: Token) {
    && s'.w.Valid(c.sizes) && Skipped(s.w, s'.w, n) && s'.Covers(c, s'.w.Cur())
    && s'.z.matchLength < MIN_MATCH && |s'.o.t.sym| == |s.o.t.sym| + 3
    && |s.o.t.sym| % 3 == 0 && s'.o.t.Tokens() == s.o.t.Tokens() + [t]
    && s'.z.matchStart == s.z.matchStart && s'.z.prevLength == s.z.prevLength && s'.o.pending == s.o.pending
  }

  /** The current string of deflate_fast becomes a match. */
  method FastMatch(c: Config, s: State, len: nat, dist: nat) returns (s': State)
    requires c.Valid() && Passed(c.sizes, s.w) && s.w.b.hist.next == s.w.Cur() + 1 && s.w.insert == 0
    requires s.Covers(c, s.w.Cur()) && s.w.strStart <= 2 * c.sizes.wSize - MIN_LOOKAHEAD
    requires MIN_MATCH <= len <= s.w.lookahead && TrueMatch(c, s.w.b.hist.stream, s.w.Cur(), len, dist)
    ensures FastTaken(c, s, s', len, Match(len, dist))
    ensures FastInserts(c, s.w, len, s'.w)
  {
    var o := TakeMatch(c, s, s.w.Cur(), len, dist);
    var w := FastSkip(c, s.w, len);
    s' := State(w, s.z.(matchLength := 0), o);
    TakenOk(c, s, s', len, Match(len, dist));
  }

  /** The strings inside a short match are inserted, and none inside a long one or at the end of the input. */
  ghost predicate FastInserts(c: Config, w: Window, len: nat, w': Window) {
    if 1 <= len <= c.tuning.maxLazy && len + MIN_MATCH <= w.lookahead
    then RunInserted(w.b, w'.b, w.strStart + 1, len - 1, w.strStart + len) else w'.b == w.b
  }

  lemma RunFiled(b: Buffers, b': Buffers, from: nat, n: nat, maxInsert: int)
    requires RunInserted(b, b', from, n, maxInsert)
    ensures b.hist.inserted + Inside(b.hist.base + from, n, b.hist.base + maxInsert) <= b'.hist.inserted
  {
  }

  lemma FastFiled(c: Config, input: seq<Byte>, m: Mach, t: Turn, w': Window)
    requires m.pos == t.w.Cur() && if t.len >= MIN_MATCH then FastInserts(c, t.w, t.len, w') else w'.b == t.w.b
    ensures FastNext(c, input, m, t).filed <= w'.b.hist.inserted
  {
    if t.len >= MIN_MATCH && t.len <= c.tuning.maxLazy && t.len + MIN_MATCH <= t.w.lookahead {
      RunFiled(t.w.b, w'.b, t.w.strStart + 1, t.len - 1, t.w.strStart + t.len);
      assert t.w.b.hist.base + (t.w.strStart + 1) == m.pos + 1;
    }
  }

  /** The machine takes the same token. */
  lemma FastLinks(c: Config, s: State, s1: State, s': State, m: Mach, t: Turn, n: nat)
    requires Linked(false, s, m) && s1.w == t.w && SameInput(s.w, t.w) && s1.o == s.o
    requires n == (if t.len >= MIN_MATCH then t.len else 1) && (t.len >= MIN_MATCH ==> t.start < t.w.strStart)
    requires FastTaken(c, s1, s', n,
                       if t.len >= MIN_MATCH then Match(t.len, t.Distance()) else LiteralAt(s.w.b.hist.stream, s.w.Cur()))
    requires s.w.Cur() < |s.w.b.hist.stream| && FastNext(c, s.Given(), m, t).filed <= s'.w.b.hist.inserted
    ensures Linked(false, s', FastNext(c, s.Given(), m, t))
  {
  }

  lemma FastAllowed(c: Config, s: State, m: Mach, t: Turn)
    requires s.FastOk(c) && Linked(false, s, m) && SameInput(s.w, t.w) && s.w.b.hist.inserted <= t.w.b.hist.inserted
    requires Stands(c, t) && FastFinds(c, t)
    ensures Allowed(c, false, s.Given(), m, Search(t))
  {
  }

  /** One step of deflate_fast up to the flush: a match or a literal. */
  method FastToken(c: Config, s: State, ghost m: Mach) returns (s': State, ghost t: Turn)
    requires Linked(false, s, m)
    requires s.FastOk(c) && s.w.strStart <= 2 * c.sizes.wSize - MIN_LOOKAHEAD && s.w.lookahead > 0
    ensures Allowed(c, false, s.Given(), m, Search(t)) && Linked(false, s', FastNext(c, s.Given(), m, t))
    ensures if t.len >= MIN_MATCH then FastInserts(c, t.w, t.len, s'.w) else s'.w.b == t.w.b
    ensures s'.w.Valid(c.sizes) && s'.Covers(c, s'.w.Cur())
    ensures s'.z.matchStart < 0x1_0000_0000 && s'.z.matchLength < MIN_MATCH && s'.z.prevLength == MIN_MATCH - 1
    ensures |s'.o.t.sym| == |s.o.t.sym| + 3 && s'.o.pending == s.o.pending
    ensures s'.w.b.hist.stream == s.w.b.hist.stream && s'.w.nextIn == s.w.nextIn && s'.w.Cur() > s.w.Cur()
  {
    var w, len, start;
    ghost var head;
    w, len, start, head := FastFind(c, s);
    t := Turn(w, head, len, start);
    FastAllowed(c, s, m, t);
    var s1 := s.(w := w, z := s.z.(matchLength := len, matchStart := start));
    CoversSkipped(c, s, s1, s.w.Cur(), w.Cur());
    if len >= MIN_MATCH {
      s' := FastMatch(c, s1, len, w.strStart - start);
    } else {
      s' := FastLiteral(c, s1);
    }
    FastFiled(c, s.Given(), m, t, s'.w);
    FastLinks(c, s, s1, s', m, t, if len >= MIN_MATCH then len else 1);
  }

  /** A matcher stops between two tokens only when there is no room left for output, and goes
      on only when nothing is pending. */
  predicate Stops(s: State, stop: bool) {
    if stop then s.o.availOut == 0 else s.o.pending == 0
  }

  /** The flush at the end of a step of deflate_fast. */
  method FastFlush(c: Config, s: State, ghost m: Mach) returns (s': State, stop: bool)
    requires Linked(false, s, m)
    requires c.Valid() && s.w.Valid(c.sizes) && s.Covers(c, s.w.Cur())
    requires s.z.matchStart < 0x1_0000_0000 && s.z.matchLength < MIN_MATCH && s.z.prevLength == MIN_MATCH - 1
    requires |s.o.t.sym| <= c.SymEnd() && s.o.pending == 0
    ensures Linked(false, s', m)
    ensures s'.FastOk(c) && s'.w == s.w && Stops(s', stop)
  {
    s', stop := s, false;
    if |s.o.t.sym| == c.SymEnd() {
      s' := FlushOnly(c, s, false);
      stop := s'.o.availOut == 0;
    }
  }

  /** A step that neither reads nor gives back input. */
  lemma ConsumesNothing(s: State, s': State)
    requires s'.w.b.hist.stream == s.w.b.hist.stream && s'.w.nextIn == s.w.nextIn
    ensures Consumes(s, s')
  {
  }

  lemma ConsumesTransitive(s: State, s1: State, s2: State)
    requires Consumes(s, s1) && Consumes(s1, s2)
    ensures Consumes(s, s2)
  {
  }

  /** A step of deflate_fast with enough lookahead. */
  method FastStep(c: Config, s: State, ghost m: Mach) returns (s': State, stop: bool, ghost t: Turn)
    requires Linked(false, s, m)
    requires s.FastOk(c) && s.w.strStart <= 2 * c.sizes.wSize - MIN_LOOKAHEAD && s.w.lookahead > 0 && s.o.pending == 0
    ensures Allowed(c, false, s.Given(), m, Search(t)) && Linked(false, s', FastNext(c, s.Given(), m, t))
    ensures if t.len >= MIN_MATCH then FastInserts(c, t.w, t.len, s'.w) else s'.w.b == t.w.b
    ensures s'.FastOk(c) && Consumes(s, s') && s'.Remaining() < s.Remaining() && Stops(s', stop)
  {
    RoomForOne(c, |s.o.t.sym|);
    s', t := FastToken(c, s, m);
    ConsumesNothing(s, s');
    s', stop := FastFlush(c, s', FastNext(c, s.Given(), m, t));
  }

  /** Without a flush a matcher gives up when it has too little lookahead and has read all there is. */
  predicate WaitsForInput(s: State, flush: FlushMode) {
    flush.NoFlush? && s.w.lookahead < MIN_LOOKAHEAD && s.w.nextIn == [] && s.o.pending == 0
  }

  /** What a pass of a matcher loop says to do next. */
  datatype Verdict = GoOn | AtEnd | Return

  /** The start of a pass: make sure of lookahead, or give up. */
  method FastRefill(c: Config, s: State, flush: FlushMode, ghost m: Mach) returns (s': State, v: Verdict)
    requires s.FastOk(c) && Linked(false, s, m)
    ensures Linked(false, s', m)
    ensures s'.FastOk(c) && Consumes(s, s') && s'.Remaining() == s.Remaining()
    ensures s'.o.pending == s.o.pending && s'.o.availOut == s.o.availOut
    ensures v.Return? && s.o.pending == 0 ==> WaitsForInput(s', flush)
    ensures v.GoOn? ==> s'.w.strStart <= 2 * c.sizes.wSize - MIN_LOOKAHEAD && s'.w.lookahead > 0
    ensures v.AtEnd? ==> s'.w.lookahead == 0 && s'.w.nextIn == []
  {
    s', v := s, GoOn;
    if s.w.lookahead < MIN_LOOKAHEAD {
      s' := FillFast(c, s, m);
      if s'.w.lookahead < MIN_LOOKAHEAD && flush == NoFlush {
        v := Return;
      } else if s'.w.lookahead == 0 {
        v := AtEnd;
      }
    }
  }

  /** deflate_fast up to the end of the available input. */
  method FastLoop(c: Config, s: State, flush: FlushMode, ghost m: Mach)
    returns (s': State, v: Verdict, ghost es: seq<Event>, ghost m': Mach)
    requires s.FastOk(c) && s.o.pending == 0 && Linked(false, s, m)
    ensures Leads(c, false, s.Given(), m, es, m') && Linked(false, s', m') && GoesOn([], es, false)
    ensures s'.FastOk(c) && Consumes(s, s') && !v.GoOn?
    ensures v.AtEnd? ==> s'.w.lookahead == 0 && s'.w.nextIn == [] && s'.o.pending == 0
    ensures v.Return? ==> s'.o.availOut == 0 || WaitsForInput(s', flush)
  {
    s', es, m' := s, [], m;
    LeadsNowhere(c, false, s.Given(), m);
    while true
      invariant Leads(c, false, s.Given(), m, es, m') && Linked(false, s', m') && GoesOn([], es, false)
      invariant s'.FastOk(c) && Consumes(s, s') && s'.o.pending == 0
      decreases s'.Remaining()
    {
      ghost var s0 := s';
      s', v := FastRefill(c, s', flush, m');
      ConsumesTransitive(s, s0, s');
      if !v.GoOn? {
        return;
      }
      ghost var s1 := s';
      var stop;
      ghost var turn;
      s', stop, turn := FastStep(c, s', m');
      LeadsOn(c, false, s.Given(), m, es, m', Search(turn));
      GoesOnSearching(es, turn);
      es, m' := es + [Search(turn)], FastNext(c, s.Given(), m', turn);
      ConsumesTransitive(s, s1, s');
      if stop {
        v := Return;
        return;
      }
    }
  }

  /** The search of deflate_slow, and whether what it finds is kept. */
  method KeepBest(c: Config, w: Window, head: Pos, prevLength: nat, oldStart: nat) returns (len: nat, start: nat)
    requires c.Valid() && CanSearch(c.sizes, c.tuning, w) && OnChain(c.sizes, c.tuning, w, head)
    requires MIN_MATCH - 1 <= prevLength < MAX_MATCH && oldStart < 0x1_0000_0000
    ensures var r := Best(c.sizes, c.tuning, w, head, prevLength);
            if r.length > prevLength && !Discarded(c, r.length, w.strStart - r.start) then Found(len, start) == r
            else MIN_MATCH - 1 <= len <= prevLength
    ensures start < 0x1_0000_0000 && (len > prevLength ==> IsMatch(c.sizes, w, len, start))
  {
    len, start := FindMatch(c.sizes, c.tuning, w, head, prevLength, oldStart);
    if len <= 5 && (c.filtered || (len == MIN_MATCH && Wrap32(w.strStart - start) > TOO_FAR)) {
      len := MIN_MATCH - 1;
    }
  }

  /** What deflate_slow finds at the current string, which has been inserted. */
  method SlowResult(c: Config, w: Window, head: Pos, prevLength: nat, oldStart: nat)
    returns (len: nat, start: nat, ghost t: Turn)
    requires c.Valid() && Passed(c.sizes, w) && HeadsChain(c.sizes, w, head) && w.lookahead > 0
    requires w.strStart <= 2 * c.sizes.wSize - MIN_LOOKAHEAD && prevLength >= MIN_MATCH - 1 && oldStart < 0x1_0000_0000
    ensures t == Turn(w, head, len, start) && Stands(c, t) && SlowFinds(c, prevLength, t)
    ensures len >= MIN_MATCH - 1 && start < 0x1_0000_0000
    ensures len >= MIN_MATCH && len > prevLength ==> IsMatch(c.sizes, w, len, start)
  {
    len, start := MIN_MATCH - 1, oldStart;
    if head != NIL && prevLength < c.tuning.maxLazy && w.strStart - head <= c.sizes.MaxDist() {
      HeadIsCandidate(c.sizes, c.tuning, w, head);
      len, start := KeepBest(c, w, head, prevLength, oldStart);
    }
    t := Turn(w, head, len, start);
  }

  /** The current string inserted and searched; the match found at the string before it becomes the
      previous match. */
  method SlowFind(c: Config, s: State) returns (w: Window, z: Lazy, ghost t: Turn)
    requires s.SlowOk(c) && s.w.strStart <= 2 * c.sizes.wSize - MIN_LOOKAHEAD && s.w.lookahead > 0
    ensures Stands(c, t) && SlowFinds(c, s.z.matchLength, t) && t.w == w && t.len == z.matchLength && t.start == z.matchStart
    ensures Passed(c.sizes, w) && SameInput(s.w, w) && s.w.b.hist.inserted <= w.b.hist.inserted
    ensures z.prevLength == s.z.matchLength && z.prevMatch == s.z.matchStart && z.matchAvailable == s.z.matchAvailable
    ensures z.matchLength >= MIN_MATCH - 1 && z.matchStart < 0x1_0000_0000
    ensures z.matchLength >= MIN_MATCH && z.matchLength > z.prevLength ==>
              IsMatch(c.sizes, w, z.matchLength, z.matchStart)
  {
    var hashHead;
    w, hashHead := InsertCurrent(c.sizes, s.w);
    z := s.z.(prevLength := s.z.matchLength, prevMatch := s.z.matchStart);
    var len, start;
    len, start, t := SlowResult(c, w, hashHead, z.prevLength, z.matchStart);
    z := z.(matchLength := len, matchStart := start);
  }

  /** The strings inside a match that begins before the current string are inserted as far as they have
      three bytes. */
  ghost predicate SlowInserts(w: Window, len: nat, w': Window) {
    len >= 2 && RunInserted(w.b, w'.b, w.strStart + 1, len - 2, w.strStart + w.lookahead - MIN_MATCH)
  }

  /** The rest of a previous match of length len, of which the byte before the current
      string is the first, is inserted and passed. */
  method SlowSkip(c: Config, w: Window, len: nat) returns (w': Window)
    requires Passed(c.sizes, w) && MIN_MATCH <= len <= w.lookahead + 1
    ensures w'.Valid(c.sizes) && Skipped(w, w', len - 1) && SlowInserts(w, len, w')
  {
    var maxInsert := w.strStart + w.lookahead - MIN_MATCH;
    var b, h := InsertRun(c.sizes, w.b, w.insH, w.strStart + 1, len - 2, maxInsert);
    w' := w.(b := b, insH := h, strStart := w.strStart + len - 1, lookahead := w.lookahead - (len - 1));
  }

  /** The previous match of deflate_slow, of length len, is taken, and the window w' has passed it. */
  method SlowMatch(c: Config, s: State, len: nat, dist: nat, w': Window) returns (s': State)
    requires c.Valid() && s.w.Cur() >= 1 && s.Covers(c, s.w.Cur() - 1)
    requires len >= MIN_MATCH && Skipped(s.w, w', len - 1) && TrueMatch(c, s.w.b.hist.stream, s.w.Cur() - 1, len, dist)
    ensures s'.w == w' && s'.Covers(c, w'.Cur()) && |s'.o.t.sym| == |s.o.t.sym| + 3 && s'.o.pending == s.o.pending
    ensures s'.z == s.z.(prevLength := 0, matchLength := MIN_MATCH - 1, matchAvailable := false)
    ensures s'.o.t.Tokens() == s.o.t.Tokens() + [Match(len, dist)]
  {
    var n := s.w.Cur() - 1;
    var o := TakeMatch(c, s, n, len, dist);
    s' := State(w', s.z.(prevLength := 0, matchLength := MIN_MATCH - 1, matchAvailable := false), o);
    CoversSkipped(c, s.(o := o), s', n + len, w'.Cur());
  }

  /** What the tokens cover is about the input, not about the window's place in it. */
  lemma CoversSkipped(c: Config, s: State, s': State, n: nat, n': nat)
    requires s.Covers(c, n) && n' == n && s'.o.t == s.o.t && s'.w.b.hist.stream == s.w.b.hist.stream
    requires s'.w.b.hist.base == s.w.b.hist.base
    ensures s'.Covers(c, n')
  {
  }

  /** The byte before the current string becomes a literal; the match found at the current
      string is held back. */
  method SlowLiteral(c: Config, s: State) returns (s': State)
    requires s.w.b.HoldsInput(c.sizes) && 1 <= s.w.strStart <= s.w.b.End() && s.Covers(c, s.w.Cur() - 1)
    requires |s.o.t.sym| < c.SymEnd() && |s.o.t.sym| + 3 <= c.SymEnd() && s.o.pending == 0
    ensures s' == s.(o := s'.o) && s'.Covers(c, s.w.Cur()) && |s'.o.t.sym| < c.SymEnd() && Delivered(s'.o)
    ensures s'.o.t.Tokens() == s.o.t.Tokens() + [LiteralAt(s.w.b.hist.stream, s.w.Cur() - 1)]
  {
    var o := TakeLiteral(c, s, s.w.strStart - 1);
    s' := s.(o := o);
    if |o.t.sym| == c.SymEnd() {
      s' := FlushOnly(c, s', false);
    }
  }

  /** A match found at the current string is, once that string has been passed, a match
      with the same distance for the string before the current one. */
  lemma HeldAfterAdvance(c: Config, w: Window, len: nat, start: nat)
    requires c.Valid() && IsMatch(c.sizes, w, len, start) && w.lookahead > 0
    ensures
      var d := Wrap32(w.strStart + 1 - 1 - start);
      d <= w.strStart + 1 && TrueMatch(c, w.b.hist.stream, w.Cur(), len, d)
  {
  }

  /** Passing the current string holds back what was found at it. */
  lemma HoldBack(c: Config, s: State)
    requires c.Valid() && Passed(c.sizes, s.w) && s.w.lookahead > 0 && s.Covers(c, s.w.Cur())
    requires s.z.matchLength >= MIN_MATCH - 1 && s.z.matchStart < 0x1_0000_0000 && |s.o.t.sym| < c.SymEnd()
    requires s.z.matchLength >= MIN_MATCH ==> IsMatch(c.sizes, s.w, s.z.matchLength, s.z.matchStart)
    ensures s.(w := Advance(s.w), z := s.z.(matchAvailable := true)).SlowOk(c)
  {
    AdvanceOk(c.sizes, s.w);
    if s.z.matchLength >= MIN_MATCH {
      HeldAfterAdvance(c, s.w, s.z.matchLength, s.z.matchStart);
    }
  }

  /** The machine before the current string, when that string has been searched: what it holds back is
      the previous match. */
  ghost predicate LinkedBefore(s: State, m: Mach) {
    && |s.o.t.sym| % 3 == 0 && m.tokens == s.o.t.Tokens() && m.pos == s.w.Cur() && m.since <= s.w.b.hist.base
    && m.avail == s.z.matchAvailable && m.len == s.z.prevLength
    && (m.len >= MIN_MATCH ==> m.dist == Wrap32(s.w.strStart - 1 - s.z.prevMatch))
  }

  lemma SlowFiled(w: Window, len: nat, w': Window)
    requires SlowInserts(w, len, w')
    ensures w.b.hist.inserted + Inside(w.Cur() + 1, len - 2, w.Cur() + w.lookahead - MIN_MATCH) <= w'.b.hist.inserted
  {
    RunFiled(w.b, w'.b, w.strStart + 1, len - 2, w.strStart + w.lookahead - MIN_MATCH);
    assert w.b.hist.base + (w.strStart + 1) == w.Cur() + 1;
    assert w.b.hist.base + (w.strStart + w.lookahead - MIN_MATCH) == w.Cur() + w.lookahead - MIN_MATCH;
  }

  lemma TakeLinks(c: Config, s: State, s': State, m: Mach, t: Turn)
    requires LinkedBefore(s, m) && t.len <= m.len && m.len >= MIN_MATCH && t.w == s.w
    requires SlowInserts(s.w, m.len, s'.w) && Skipped(s.w, s'.w, m.len - 1) && !s'.z.matchAvailable
    requires |s'.o.t.sym| % 3 == 0 && s'.o.t.Tokens() == s.o.t.Tokens() + [Match(m.len, if m.dist >= 0 then m.dist else 0)]
    ensures Linked(true, s', SlowNext(s.Given(), m, t))
  {
    SlowFiled(s.w, m.len, s'.w);
  }

  /** The end of a pass of deflate_slow in which the previous match is taken. */
  method SlowTake(c: Config, s: State, ghost m: Mach, ghost t: Turn) returns (s': State, stop: bool)
    requires LinkedBefore(s, m) && t.len <= m.len && t.w == s.w
    requires c.Valid() && Passed(c.sizes, s.w) && s.w.Cur() >= 1 && s.Covers(c, s.w.Cur() - 1)
    requires s.z.prevLength >= MIN_MATCH && s.z.matchStart < 0x1_0000_0000
    requires TrueMatch(c, s.w.b.hist.stream, s.w.Cur() - 1, s.z.prevLength, Wrap32(s.w.strStart - 1 - s.z.prevMatch))
    requires |s.o.t.sym| + 3 <= c.SymEnd() && s.o.pending == 0
    ensures Linked(true, s', SlowNext(s.Given(), m, t)) && SlowInserts(s.w, m.len, s'.w)
    ensures s'.SlowOk(c) && Consumes(s, s') && s'.Remaining() < s.Remaining() && Stops(s', stop)
  {
    var w := SlowSkip(c, s.w, s.z.prevLength);
    s' := SlowMatch(c, s, s.z.prevLength, Wrap32(s.w.strStart - 1 - s.z.prevMatch), w);
    ConsumesNothing(s, s');
    stop := false;
    if |s'.o.t.sym| == c.SymEnd() {
      s' := FlushOnly(c, s', false);
      stop := s'.o.availOut == 0;
    }
    TakeLinks(c, s, s', m, t);
  }

  lemma HoldLinks(c: Config, s: State, s': State, m: Mach, t: Turn)
    requires LinkedBefore(s, m) && t.len == s.z.matchLength && t.start == s.z.matchStart && t.w == s.w && s.w.lookahead > 0
    requires m.len < MIN_MATCH || t.len > m.len
    requires t.len >= MIN_MATCH - 1 && (t.len >= MIN_MATCH ==> 0 <= t.Distance() < 0x1_0000_0000)
    requires s' == s.(o := s'.o) && |s'.o.t.sym| % 3 == 0
    requires s.z.matchAvailable ==> 1 <= s.w.Cur() <= |s.w.b.hist.stream|
    requires s'.o.t.Tokens() == s.o.t.Tokens() + if s.z.matchAvailable then [LiteralAt(s.w.b.hist.stream, s.w.Cur() - 1)] else []
    ensures Linked(true, s'.(w := Advance(s'.w), z := s'.z.(matchAvailable := true)), SlowNext(s.Given(), m, t))
  {
  }

  /** The end of a pass of deflate_slow in which the match found is held back. */
  method SlowHold(c: Config, s: State, ghost m: Mach, ghost t: Turn) returns (s': State, stop: bool)
    requires LinkedBefore(s, m) && t.len == s.z.matchLength && t.start == s.z.matchStart && t.w == s.w
    requires m.len < MIN_MATCH || t.len > m.len
    requires c.Valid() && Passed(c.sizes, s.w) && s.w.lookahead > 0
    requires if s.z.matchAvailable then s.w.strStart >= 1 && s.Covers(c, s.w.Cur() - 1) else s.Covers(c, s.w.Cur())
    requires s.z.matchLength >= MIN_MATCH - 1 && s.z.matchStart < 0x1_0000_0000
    requires s.z.matchLength >= MIN_MATCH ==> IsMatch(c.sizes, s.w, s.z.matchLength, s.z.matchStart)
    requires |s.o.t.sym| + 3 <= c.SymEnd() && s.o.pending == 0
    ensures Linked(true, s', SlowNext(s.Given(), m, t)) && s'.w == Advance(s.w)
    ensures s'.SlowOk(c) && Consumes(s, s') && s'.Remaining() < s.Remaining() && Stops(s', stop)
  {
    s', stop := s, false;
    if s.z.matchAvailable {
      s' := SlowLiteral(c, s);
      stop := s'.o.availOut == 0;
    }
    HoldBack(c, s');
    HoldLinks(c, s, s', m, t);
    s' := s'.(w := Advance(s'.w), z := s'.z.(matchAvailable := true));
    ConsumesNothing(s, s');
  }

  /** What holds after the search of a pass of deflate_slow. */
  ghost predicate Searched(c: Config, s: State) {
    && c.Valid() && Passed(c.sizes, s.w) && |s.o.t.sym| + 3 <= c.SymEnd()
    && s.z.matchLength >= MIN_MATCH - 1 && s.z.matchStart < 0x1_0000_0000
    && (s.z.matchLength >= MIN_MATCH && s.z.matchLength > s.z.prevLength ==>
          IsMatch(c.sizes, s.w, s.z.matchLength, s.z.matchStart))
    && (s.z.matchAvailable ==> s.w.strStart >= 1 && s.Covers(c, s.w.Cur() - 1))
    && (!s.z.matchAvailable ==> s.Covers(c, s.w.Cur()))
    && (s.z.prevLength >= MIN_MATCH ==>
          s.z.matchAvailable
          && TrueMatch(c, s.w.b.hist.stream, s.w.Cur() - 1, s.z.prevLength, Wrap32(s.w.strStart - 1 - s.z.prevMatch)))
    && s.z.prevLength >= MIN_MATCH - 1
  }

  lemma SearchAllowed(c: Config, s: State, m: Mach, t: Turn)
    requires s.SlowOk(c) && Linked(true, s, m) && SameInput(s.w, t.w) && s.w.b.hist.inserted <= t.w.b.hist.inserted
    requires Stands(c, t) && SlowFinds(c, s.z.matchLength, t)
    ensures Allowed(c, true, s.Given(), m, Search(t))
  {
    assert m.len == s.z.matchLength;
  }

  lemma PrevIsHeld(s: State, s': State)
    requires s'.w.strStart == s.w.strStart && s'.z.prevMatch == s.z.matchStart
    ensures Wrap32(s'.w.strStart - 1 - s'.z.prevMatch) == s.HeldDistance()
  {
  }

  lemma SearchedOk(c: Config, s: State, s': State, m: Mach)
    requires s.SlowOk(c) && Linked(true, s, m) && |s.o.t.sym| + 3 <= c.SymEnd()
    requires s' == s.(w := s'.w, z := s'.z) && Passed(c.sizes, s'.w) && SameInput(s.w, s'.w)
    requires s'.z.prevLength == s.z.matchLength && s'.z.prevMatch == s.z.matchStart && s'.z.matchAvailable == s.z.matchAvailable
    requires s'.z.matchLength >= MIN_MATCH - 1 && s'.z.matchStart < 0x1_0000_0000
    requires s'.z.matchLength >= MIN_MATCH && s'.z.matchLength > s'.z.prevLength ==>
               IsMatch(c.sizes, s'.w, s'.z.matchLength, s'.z.matchStart)
    ensures Searched(c, s') && LinkedBefore(s', m)
  {
    var n := if s.z.matchAvailable then s.w.Cur() - 1 else s.w.Cur();
    CoversSkipped(c, s, s', n, n);
    PrevIsHeld(s, s');
  }

  /** The first half of a pass of deflate_slow: insert the current string and search. */
  method SlowSearch(c: Config, s: State, ghost m: Mach) returns (s': State, ghost t: Turn)
    requires Linked(true, s, m)
    requires s.SlowOk(c) && s.w.strStart <= 2 * c.sizes.wSize - MIN_LOOKAHEAD && s.w.lookahead > 0
    ensures Allowed(c, true, s.Given(), m, Search(t)) && LinkedBefore(s', m)
    ensures t.w == s'.w && t.len == s'.z.matchLength && t.start == s'.z.matchStart && s'.Given() == s.Given()
    ensures Searched(c, s') && Consumes(s, s') && s'.Remaining() == s.Remaining() && s'.w.lookahead == s.w.lookahead
    ensures s'.o == s.o
  {
    RoomForOne(c, |s.o.t.sym|);
    var w, z;
    w, z, t := SlowFind(c, s);
    s' := s.(w := w, z := z);
    SearchAllowed(c, s, m, t);
    SearchedOk(c, s, s', m);
    ConsumesNothing(s, s');
  }

  /** A step of deflate_slow with enough lookahead. */
  method SlowStep(c: Config, s: State, ghost m: Mach) returns (s': State, stop: bool, ghost t: Turn)
    requires Linked(true, s, m)
    requires s.SlowOk(c) && s.w.strStart <= 2 * c.sizes.wSize - MIN_LOOKAHEAD && s.w.lookahead > 0 && s.o.pending == 0
    ensures Allowed(c, true, s.Given(), m, Search(t)) && Linked(true, s', SlowNext(s.Given(), m, t))
    ensures if m.len >= MIN_MATCH && t.len <= m.len then SlowInserts(t.w, m.len, s'.w) else s'.w == Advance(t.w)
    ensures s'.SlowOk(c) && Consumes(s, s') && s'.Remaining() < s.Remaining() && Stops(s', stop)
  {
    var s1;
    s1, t := SlowSearch(c, s, m);
    if s1.z.prevLength >= MIN_MATCH && s1.z.matchLength <= s1.z.prevLength {
      s', stop := SlowTake(c, s1, m, t);
    } else {
      s', stop := SlowHold(c, s1, m, t);
    }
    ConsumesTransitive(s, s1, s');
  }

  /** The start of a pass of deflate_slow. */
  method SlowRefill(c: Config, s: State, flush: FlushMode, ghost m: Mach) returns (s': State, v: Verdict)
    requires s.SlowOk(c) && Linked(true, s, m)
    ensures Linked(true, s', m)
    ensures s'.SlowOk(c) && Consumes(s, s') && s'.Remaining() == s.Remaining()
    ensures s'.o.pending == s.o.pending && s'.o.availOut == s.o.availOut
    ensures v.Return? && s.o.pending == 0 ==> WaitsForInput(s', flush)
    ensures v.GoOn? ==> s'.w.strStart <= 2 * c.sizes.wSize - MIN_LOOKAHEAD && s'.w.lookahead > 0
    ensures v.AtEnd? ==> s'.w.lookahead == 0 && s'.w.nextIn == []
  {
    s', v := s, GoOn;
    if s.w.lookahead < MIN_LOOKAHEAD {
      s' := FillSlow(c, s, m);
      if s'.w.lookahead < MIN_LOOKAHEAD && flush == NoFlush {
        v := Return;
      } else if s'.w.lookahead == 0 {
        v := AtEnd;
      }
    }
  }

  /** deflate_slow up to the end of the available input. */
  method SlowLoop(c: Config, s: State, flush: FlushMode, ghost m: Mach)
    returns (s': State, v: Verdict, ghost es: seq<Event>, ghost m': Mach)
    requires s.SlowOk(c) && s.o.pending == 0 && Linked(true, s, m)
    ensures Leads(c, true, s.Given(), m, es, m') && Linked(true, s', m') && GoesOn([], es, false)
    ensures s'.SlowOk(c) && Consumes(s, s') && !v.GoOn?
    ensures v.AtEnd? ==> s'.w.lookahead == 0 && s'.w.nextIn == [] && s'.o.pending == 0
    ensures v.Return? ==> s'.o.availOut == 0 || WaitsForInput(s', flush)
  {
    s', es, m' := s, [], m;
    LeadsNowhere(c, true, s.Given(), m);
    while true
      invariant Leads(c, true, s.Given(), m, es, m') && Linked(true, s', m') && GoesOn([], es, false)
      invariant s'.SlowOk(c) && Consumes(s, s') && s'.o.pending == 0
      decreases s'.Remaining()
    {
      ghost var s0 := s';
      s', v := SlowRefill(c, s', flush, m');
      ConsumesTransitive(s, s0, s');
      if !v.GoOn? {
        return;
      }
      ghost var s1 := s';
      var stop;
      ghost var turn;
      s', stop, turn := SlowStep(c, s', m');
      LeadsOn(c, true, s.Given(), m, es, m', Search(turn));
      GoesOnSearching(es, turn);
      es, m' := es + [Search(turn)], SlowNext(s.Given(), m', turn);
      ConsumesTransitive(s, s1, s');
      if stop {
        v := Return;
        return;
      }
    }
  }

  /** What a compression function returns, as far as the tokens go: everything read is
      covered, except the byte held back while match_available is set; and once a block
      is done everything is also in the blocks written. */
  ghost predicate Complete(s: State) {
    && s.w.lookahead == 0 && s.w.nextIn == [] && s.o.t.sym == []
    && Expand(s.o.t.flushed) == Some(s.w.b.hist.stream)
  }

  /** What the result of a compression function says about room, output and input: it is done only
      with nothing pending, and stops before that only for want of room or, without a flush, of input. */
  predicate Reports(s: State, flush: FlushMode, r: BlockState) {
    match r
    case NeedMore => s.o.availOut == 0 || WaitsForInput(s, flush)
    case BlockDone => s.o.pending == 0 && !flush.Finish?
    case FinishStarted => s.o.availOut == 0 && flush.Finish?
    case FinishDone => s.o.pending == 0 && s.o.availOut != 0 && flush.Finish?
  }

  /** The end of deflate_fast and deflate_slow: flush what is left. */
  method FinishBlock(c: Config, s: State, flush: FlushMode) returns (s': State, r: BlockState)
    requires c.Valid() && s.w.Valid(c.sizes) && s.w.lookahead == 0 && s.w.nextIn == []
    requires s.Covers(c, s.w.Cur()) && |s.o.t.sym| <= c.SymEnd() && s.o.pending == 0
    ensures s' == s.(w := s.w.(insert := s'.w.insert), o := s'.o)
    ensures s'.w.Valid(c.sizes) && s'.Covers(c, s'.w.Cur()) && Complete(s') && s'.o.t.Tokens() == s.o.t.Tokens()
    ensures r.FinishDone? || r.FinishStarted? <==> flush.Finish?
    ensures Reports(s', flush, r) && (r.NeedMore? ==> s'.o.availOut == 0)
  {
    s' := s.(w := s.w.(insert := Min(s.w.strStart, MIN_MATCH - 1)));
    assert s.w.b.hist.stream[..s.w.Cur()] == s.w.b.hist.stream;
    assert s.o.t.sym == [] ==> s.o.t.Tokens() == s.o.t.flushed;
    if flush == Finish {
      s' := FlushOnly(c, s', true);
      assert s'.o.t.Tokens() == s'.o.t.flushed;
      r := if s'.o.availOut == 0 then FinishStarted else FinishDone;
    } else if s'.o.t.sym != [] {
      s' := FlushOnly(c, s', false);
      assert s'.o.t.Tokens() == s'.o.t.flushed;
      r := if s'.o.availOut == 0 then NeedMore else BlockDone;
    } else {
      r := BlockDone;
    }
  }

  /** deflate_fast. */
  method DeflateFast(c: Config, s: State, flush: FlushMode, ghost m: Mach)
    returns (s': State, r: BlockState, ghost es: seq<Event>, ghost m': Mach)
    requires s.FastOk(c) && s.o.pending == 0 && Linked(false, s, m)
    ensures Leads(c, false, s.Given(), m, es, m') && Linked(false, s', m') && GoesOn([], es, false)
    ensures s'.FastOk(c) && Consumes(s, s')
    ensures r.NeedMore? || Complete(s')
    ensures Reports(s', flush, r)
  {
    var v;
    s', v, es, m' := FastLoop(c, s, flush, m);
    r := NeedMore;
    if v.AtEnd? {
      ghost var s1 := s';
      s', r := FinishBlock(c, s', flush);
      ConsumesNothing(s1, s');
      ConsumesTransitive(s, s1, s');
    }
  }

  /** No match is held back at the end of the input. */
  lemma NothingHeld(c: Config, s: State)
    requires s.SlowOk(c) && s.w.lookahead == 0
    ensures s.z.matchLength == MIN_MATCH - 1
  {
  }

  /** The literal still held back when deflate_slow has reached the end of the input. */
  method SlowLast(c: Config, s: State) returns (s': State)
    requires s.SlowOk(c) && s.w.lookahead == 0
    ensures c.Valid() && s'.w == s.w && s'.Covers(c, s.w.Cur()) && |s'.o.t.sym| <= c.SymEnd()
    ensures s'.z == s.z.(matchAvailable := false) && s.z.matchLength == MIN_MATCH - 1 && s'.o.pending == s.o.pending
    ensures s'.o.t.Tokens() == s.o.t.Tokens()
             + if s.z.matchAvailable then [LiteralAt(s.w.b.hist.stream, s.w.Cur() - 1)] else []
  {
    NothingHeld(c, s);
    RoomForOne(c, |s.o.t.sym|);
    s' := s;
    if s.z.matchAvailable {
      var o := TakeLiteral(c, s, s.w.strStart - 1);
      s' := s.(o := o, z := s.z.(matchAvailable := false));
    }
  }

  /** The end of deflate_slow: the literal held back, and the rest of the block. */
  method SlowFinish(c: Config, s: State, flush: FlushMode, ghost m: Mach)
    returns (s': State, r: BlockState, ghost es: seq<Event>, ghost m': Mach)
    requires s.SlowOk(c) && s.o.pending == 0 && s.w.lookahead == 0 && s.w.nextIn == [] && Linked(true, s, m)
    ensures Leads(c, true, s.Given(), m, es, m') && Linked(true, s', m') && GoesOn([], es, false)
    ensures s'.SlowOk(c) && Consumes(s, s') && Complete(s') && !s'.z.matchAvailable && Reports(s', flush, r)
    ensures r.NeedMore? ==> s'.o.availOut == 0
  {
    s' := SlowLast(c, s);
    LeadsNowhere(c, true, s.Given(), m);
    es, m' := [], m;
    if s.z.matchAvailable {
      NothingHeld(c, s);
      LeadsOn(c, true, s.Given(), m, [], m, Last);
      es, m' := [] + [Last], Next(c, true, s.Given(), m, Last);
    }
    s', r := FinishBlock(c, s', flush);
    ConsumesNothing(s, s');
  }

  /** deflate_slow. */
  method DeflateSlow(c: Config, s: State, flush: FlushMode, ghost m: Mach)
    returns (s': State, r: BlockState, ghost es: seq<Event>, ghost m': Mach)
    requires s.SlowOk(c) && s.o.pending == 0 && Linked(true, s, m)
    ensures Leads(c, true, s.Given(), m, es, m') && Linked(true, s', m') && GoesOn([], es, false)
    ensures s'.SlowOk(c) && Consumes(s, s')
    ensures r.NeedMore? || (Complete(s') && !s'.z.matchAvailable)
    ensures Reports(s', flush, r)
  {
    var v;
    s', v, es, m' := SlowLoop(c, s, flush, m);
    r := NeedMore;
    if v.AtEnd? {
      ghost var s1, es1, m1 := s', es, m';
      s', r, es, m' := SlowFinish(c, s', flush, m1);
      LeadsJoin(c, true, s.Given(), m, es1, m1, es, m');
      es := es1 + es;
      ConsumesTransitive(s, s1, s');
    }
  }
}
