/**
 longest_match: the search along a hash chain, with its quick rejects, the comparison
 it skips, and its reads past the lookahead.
 */
module LongestMatch {
  import opened Arith
  import opened RollingHash
  import opened Lz77
  import opened HashChains
  import opened MatchSearch
  import opened SlidingWindow

  /** One row of configuration_table. */
  datatype Tuning = Tuning(goodMatch: nat, maxLazy: nat, niceMatch: nat, maxChain: nat) {
    ghost predicate Valid() {
      4 <= maxLazy <= 258 && niceMatch <= 258 && maxChain >= 4
    }
  }

  /** The unrolled comparison loop: the check for the end is made only every eighth byte,
      and no byte past index MAX_MATCH is read. */
  method Compare(s: seq<Byte>, match_: nat, scan: nat) returns (len: nat)
    requires match_ < scan && scan + MAX_MATCH < |s|
    requires s[match_] == s[scan] && s[match_ + 1] == s[scan + 1] && s[match_ + 2] == s[scan + 2]
    ensures len == Lcp(s, match_, scan, MAX_MATCH)
  {
    var i := 2;
    while i < MAX_MATCH
      invariant 2 <= i <= MAX_MATCH && (i - 2) % 8 == 0
      invariant Repeats(s, scan, i + 1, scan - match_)
    {
      var k := 0;
      ghost var i0 := i;
      while k < 8
        invariant 0 <= k <= 8 && i == i0 + k
        invariant Repeats(s, scan, i + 1, scan - match_)
      {
        i := i + 1;
        if s[scan + i] != s[match_ + i] {
          LcpUnique(s, match_, scan, MAX_MATCH, i);
          return i;
        }
        k := k + 1;
      }
    }
    LcpUnique(s, match_, scan, MAX_MATCH, MAX_MATCH);
    return MAX_MATCH;
  }

  /** The walk that longest_match makes for the current string of w. */
  function WalkOf(c: Sizes, t: Tuning, w: Window): Walk
    requires w.strStart + w.lookahead <= |w.b.bytes|
  {
    Walk(w.b.bytes[..w.strStart + w.lookahead], w.strStart, w.b.prev,
         if w.strStart > c.MaxDist() then w.strStart - c.MaxDist() else NIL,
         Min(t.niceMatch, w.lookahead))
  }

  /** The number of candidates it may visit. */
  function ChainLength(t: Tuning, prevLength: nat): nat {
    if prevLength >= t.goodMatch then t.maxChain / 4 else t.maxChain
  }

  /** The current string has just been inserted. */
  ghost predicate CanSearch(c: Sizes, t: Tuning, w: Window) {
    && w.b.Ok(c) && t.Valid() && w.strStart + w.lookahead == w.b.End()
    && MIN_MATCH <= w.lookahead && w.strStart <= 2 * c.wSize - MIN_LOOKAHEAD
    && w.b.hist.next == w.Cur() + 1
  }

  /** cur is a string on the chain of the current string, near enough to be matched. */
  ghost predicate OnChain(c: Sizes, t: Tuning, w: Window, cur: Pos)
    requires CanSearch(c, t, w)
  {
    Candidate(w.b.hist, c.hash, WalkOf(c, t, w), w.b.SlotOf(c, w.strStart), cur)
  }

  /** A candidate that agrees on the first two bytes agrees on the third. */
  lemma SkippedByte(c: Sizes, t: Tuning, w: Window, cur: Pos)
    requires CanSearch(c, t, w) && OnChain(c, t, w, cur)
    requires w.b.bytes[cur] == w.b.bytes[w.strStart] && w.b.bytes[cur + 1] == w.b.bytes[w.strStart + 1]
    ensures w.b.bytes[cur + 2] == w.b.bytes[w.strStart + 2]
  {
    var s, p, q := w.b.hist.stream, w.b.hist.base + cur, w.Cur();
    assert w.b.bytes[cur + 2] == s[p + 2] && w.b.bytes[w.strStart + 2] == s[q + 2];
    SameSlotSameThird(c.hash, s, p, q);
  }

  /** The raw count within the window, cut off at the lookahead, is the match length. */
  lemma RawLength(s: seq<Byte>, at: nat, lookahead: nat, cur: nat)
    requires cur <= at && at + lookahead <= |s| && at + MAX_MATCH <= |s|
    ensures MatchLength(s[..at + lookahead], at, cur) == Min(Lcp(s, cur, at, MAX_MATCH), lookahead)
  {
    var data, n := s[..at + lookahead], Min(lookahead, MAX_MATCH);
    assert |data| - at == lookahead;
    LcpCut(s, at + lookahead, cur, at, n, MAX_MATCH);
  }

  /** Compare one candidate against a best length: the quick rejects only drop candidates
      that are no longer. */
  method TryCandidate(c: Sizes, t: Tuning, w: Window, cur: Pos, bestLen: nat) returns (len: nat)
    requires CanSearch(c, t, w) && OnChain(c, t, w, cur) && 1 <= bestLen < MAX_MATCH
    ensures len <= bestLen || len == Lcp(w.b.bytes, cur, w.strStart, MAX_MATCH)
    ensures Lcp(w.b.bytes, cur, w.strStart, MAX_MATCH) > bestLen ==> len > bestLen
  {
    var scan := w.strStart;
    if w.b.bytes[cur + bestLen] != w.b.bytes[scan + bestLen] || w.b.bytes[cur + bestLen - 1] != w.b.bytes[scan + bestLen - 1]
       || w.b.bytes[cur] != w.b.bytes[scan] || w.b.bytes[cur + 1] != w.b.bytes[scan + 1]
    {
      LcpSound(w.b.bytes, cur, scan, MAX_MATCH);
      return 0;
    }
    SkippedByte(c, t, w, cur);
    len := Compare(w.b.bytes, cur, scan);
  }

  /** A best length that covers the lookahead cannot be improved. */
  lemma {:induction false} NoGain(d: Walk, cur: Pos, count: nat, best: Found)
    requires d.Valid() && best.length >= |d.data| - d.at
    ensures d.Search(cur, count, best) == best
    decreases count
  {
    if cur <= d.at && d.More(cur, count) {
      NoGain(d, d.Next(cur), count - 1, best);
    }
  }

  /** One comparison, seen on the valid bytes: while the best length is below the
      lookahead, it improves exactly when the match length does. */
  lemma CutOff(s: seq<Byte>, at: nat, lookahead: nat, cur: nat, bestLen: nat, len: nat)
    requires cur <= at && at + lookahead <= |s| && at + MAX_MATCH <= |s| && bestLen < lookahead
    requires len <= bestLen || len == Lcp(s, cur, at, MAX_MATCH)
    requires Lcp(s, cur, at, MAX_MATCH) > bestLen ==> len > bestLen
    ensures
      var n := MatchLength(s[..at + lookahead], at, cur);
      if n > bestLen then len > bestLen && n == Min(len, lookahead) else len <= bestLen
  {
    RawLength(s, at, lookahead, cur);
  }

  /** One pass of the search loop. */
  method Visit(c: Sizes, t: Tuning, w: Window, cur: Pos, bestLen: nat) returns (len: nat)
    requires CanSearch(c, t, w) && OnChain(c, t, w, cur) && 1 <= bestLen < MAX_MATCH
    ensures bestLen <= len <= MAX_MATCH
    ensures bestLen < w.lookahead ==>
              var n := MatchLength(w.b.bytes[..w.strStart + w.lookahead], w.strStart, cur);
              if n > bestLen then len > bestLen && n == Min(len, w.lookahead) else len == bestLen
  {
    var n := TryCandidate(c, t, w, cur, bestLen);
    if bestLen < w.lookahead {
      CutOff(w.b.bytes, w.strStart, w.lookahead, cur, bestLen, n);
    }
    len := if n > bestLen then n else bestLen;
  }

  /** longest_match. Whatever lies in the window past the lookahead, the length is the
      best that Search finds on the valid bytes, and so is the start when the length
      exceeds prevLength. */
  method LongestMatch(c: Sizes, t: Tuning, w: Window, hashHead: Pos, prevLength: nat, matchStart: nat)
    returns (len: nat, start: nat)
    requires CanSearch(c, t, w) && OnChain(c, t, w, hashHead) && 1 <= prevLength < MAX_MATCH
    ensures
      var r := WalkOf(c, t, w).Search(hashHead, ChainLength(t, prevLength), Found(prevLength, matchStart));
      len == Min(r.length, w.lookahead) && (len > prevLength ==> start == r.start)
    ensures start == matchStart || start < 0x1_0000
  {
    var count := ChainLength(t, prevLength);
    var nice := Min(t.niceMatch, w.lookahead);
    var limit := if w.strStart > c.MaxDist() then w.strStart - c.MaxDist() else NIL;
    var cur: Pos, bestLen := hashHead, prevLength;
    start := matchStart;
    ghost var d := WalkOf(c, t, w);
    ghost var r := d.Search(hashHead, count, Found(prevLength, matchStart));
    if prevLength >= w.lookahead {
      NoGain(d, hashHead, count, Found(prevLength, matchStart));
    }
    while true
      invariant OnChain(c, t, w, cur) && 1 <= count
      invariant prevLength <= bestLen < MAX_MATCH && (start == matchStart || start < 0x1_0000)
      invariant prevLength < w.lookahead ==>
                  bestLen < w.lookahead && d.Search(cur, count, Found(bestLen, start)) == r
      decreases count
    {
      var n := Visit(c, t, w, cur, bestLen);
      if n > bestLen {
        start, bestLen := cur, n;
        if n >= nice {
          break;
        }
      }
      var next := w.b.prev[cur % c.wSize];
      if next <= limit || count == 1 {
        break;
      }
      NextIsCandidate(w.b.hist, c.hash, d, cur, w.b.SlotOf(c, w.strStart));
      cur, count := next, count - 1;
    }
    len := Min(bestLen, w.lookahead);
  }

  /** A match of length len at window index start is a true match in the input for the
      current string, near enough and within the lookahead. */
  ghost predicate IsMatch(c: Sizes, w: Window, len: nat, start: int) {
    && 1 <= start < w.strStart && w.strStart - start <= c.MaxDist()
    && len <= MAX_MATCH && len <= w.lookahead && w.Cur() + len <= |w.b.hist.stream|
    && Repeats(w.b.hist.stream, w.Cur(), len, w.strStart - start)
  }

  /** What Search finds beyond prevLength is a true match. */
  lemma FoundIsMatch(c: Sizes, t: Tuning, w: Window, hashHead: Pos, prevLength: nat, matchStart: nat)
    requires CanSearch(c, t, w) && OnChain(c, t, w, hashHead)
    ensures
      var r := WalkOf(c, t, w).Search(hashHead, ChainLength(t, prevLength), Found(prevLength, matchStart));
      r.length > prevLength ==> IsMatch(c, w, r.length, r.start)
  {
    var d, count := WalkOf(c, t, w), ChainLength(t, prevLength);
    var r := d.Search(hashHead, count, Found(prevLength, matchStart));
    SearchIsBest(d, hashHead, count, Found(prevLength, matchStart));
    ChainIsFiled(w.b.hist, c.hash, d, hashHead, count, prevLength, w.b.SlotOf(c, w.strStart));
    if r.length > prevLength {
      assert Candidate(w.b.hist, c.hash, d, w.b.SlotOf(c, w.strStart), r.start);
      MatchInInput(c, w, r.start, r.length);
    }
  }

  /** A match counted in the window is a match in the input. */
  lemma MatchInInput(c: Sizes, w: Window, start: nat, n: nat)
    requires w.b.HoldsInput(c) && w.strStart + w.lookahead == w.b.End() && start < w.strStart
    requires n == MatchLength(w.b.bytes[..w.strStart + w.lookahead], w.strStart, start)
    ensures n <= Min(w.lookahead, MAX_MATCH) && Repeats(w.b.hist.stream, w.Cur(), n, w.strStart - start)
  {
    var data := w.b.bytes[..w.strStart + w.lookahead];
    LcpSound(data, start, w.strStart, Min(|data| - w.strStart, MAX_MATCH));
    forall i | w.Cur() <= i < w.Cur() + n
      ensures w.b.hist.stream[i] == w.b.hist.stream[i - (w.strStart - start)]
    {
      var k := i - w.b.hist.base;
      assert data[k] == data[k - (w.strStart - start)];
      assert w.b.bytes[k] == w.b.hist.stream[w.b.hist.base + k];
    }
  }

  /** The head of the current string's chain, when near enough, is a candidate. */
  lemma HeadIsCandidate(c: Sizes, t: Tuning, w: Window, hashHead: Pos)
    requires t.Valid() && Passed(c, w) && HeadsChain(c, w, hashHead)
    requires hashHead != NIL && w.strStart - hashHead <= c.MaxDist()
    requires w.strStart <= 2 * c.wSize - MIN_LOOKAHEAD
    ensures CanSearch(c, t, w) && OnChain(c, t, w, hashHead)
  {
  }

  /** What the walk from the head of the chain finds that is longer than prevLength. */
  ghost function Best(c: Sizes, t: Tuning, w: Window, hashHead: Pos, prevLength: nat): Found
    requires w.strStart + w.lookahead <= |w.b.bytes| && |w.b.prev| > 0
  {
    WalkOf(c, t, w).Search(hashHead, ChainLength(t, prevLength), Found(prevLength, NIL))
  }

  /** The start that is kept when nothing longer is found has no part in the search. */
  lemma {:induction false} StartAside(d: Walk, cur: Pos, count: nat, length: nat, x: int, y: int)
    requires d.Valid()
    ensures var r, q := d.Search(cur, count, Found(length, x)), d.Search(cur, count, Found(length, y));
            r.length == q.length && (r.length > length ==> r == q)
    decreases count
  {
    if cur <= d.at && MatchLength(d.data, d.at, cur) <= length && d.More(cur, count) {
      StartAside(d, d.Next(cur), count - 1, length, x, y);
      SearchIsBest(d, d.Next(cur), count - 1, Found(length, x));
    }
  }

  /** The call of longest_match: its result beyond prevLength is a true match. */
  method FindMatch(c: Sizes, t: Tuning, w: Window, hashHead: Pos, prevLength: nat, matchStart: nat)
    returns (len: nat, start: nat)
    requires CanSearch(c, t, w) && OnChain(c, t, w, hashHead)
    requires MIN_MATCH - 1 <= prevLength < MAX_MATCH && matchStart < 0x1_0000_0000
    ensures MIN_MATCH - 1 <= len && start < 0x1_0000_0000
    ensures len > prevLength ==> IsMatch(c, w, len, start)
    ensures var r := Best(c, t, w, hashHead, prevLength);
            if r.length > prevLength then Found(len, start) == r else len <= prevLength
  {
    len, start := LongestMatch(c, t, w, hashHead, prevLength, matchStart);
    FoundIsMatch(c, t, w, hashHead, prevLength, matchStart);
    ghost var r := WalkOf(c, t, w).Search(hashHead, ChainLength(t, prevLength), Found(prevLength, matchStart));
    SearchIsBest(WalkOf(c, t, w), hashHead, ChainLength(t, prevLength), Found(prevLength, matchStart));
    StartAside(WalkOf(c, t, w), hashHead, ChainLength(t, prevLength), prevLength, matchStart, NIL);
  }
}
