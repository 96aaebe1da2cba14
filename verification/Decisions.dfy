/**
 What the matchers decide at each string of the input, and which tokens that makes: the greedy
 evaluation of deflate_fast and the lazy one of deflate_slow, as machines that read the results of
 the searches. A search is described by the window it was made in.
 */
module Decisions {
  import opened Arith
  import opened RollingHash
  import opened Lz77
  import opened HashChains
  import opened MatchSearch
  import opened SlidingWindow
  import opened LongestMatch
  import opened Wrappers

  /** Matches of length three are discarded beyond this distance. */
  const TOO_FAR: nat := 4096

  datatype Config = Config(sizes: Sizes, tuning: Tuning, filtered: bool, litBufSize: nat) {
    ghost predicate Valid() {
      sizes.Valid() && tuning.Valid() && litBufSize >= 128
    }

    /** sym_end: the symbol buffer is flushed when it reaches this. */
    function SymEnd(): int {
      (litBufSize - 1) * 3
    }
  }

  // One string.

  /** The current string of w, which has been inserted if it is long enough; the head of its chain;
      and the match that is kept for it, if len is at least MIN_MATCH. */
  datatype Turn = Turn(w: Window, head: Pos, len: nat, start: int) {
    function Distance(): int {
      w.strStart - start
    }
  }

  ghost predicate Stands(c: Config, t: Turn) {
    && c.Valid() && Passed(c.sizes, t.w) && HeadsChain(c.sizes, t.w, t.head)
    && t.w.lookahead > 0 && t.w.strStart <= 2 * c.sizes.wSize - MIN_LOOKAHEAD
  }

  /** There is an earlier string of the same hash, and the latest is near enough. */
  predicate Near(c: Config, t: Turn) {
    t.head != NIL && t.w.strStart - t.head <= c.sizes.MaxDist()
  }

  lemma NearCanSearch(c: Config, t: Turn)
    requires Stands(c, t) && Near(c, t)
    ensures CanSearch(c.sizes, c.tuning, t.w) && OnChain(c.sizes, c.tuning, t.w, t.head)
  {
    HeadIsCandidate(c.sizes, c.tuning, t.w, t.head);
  }

  /** A match that deflate_slow does not think worth its distance. */
  predicate Discarded(c: Config, len: nat, distance: int) {
    len <= 5 && (c.filtered || (len == MIN_MATCH && distance > TOO_FAR))
  }

  /** deflate_slow searches if the match held back is shorter than max_lazy, and keeps the best match if
      it is longer than that one and not discarded. */
  ghost predicate SlowFinds(c: Config, prevLength: nat, t: Turn)
    requires Stands(c, t)
  {
    if !Near(c, t) || prevLength >= c.tuning.maxLazy then t.len == MIN_MATCH - 1
    else
      var r := Best(c.sizes, c.tuning, t.w, t.head, prevLength);
      if r.length > prevLength && !Discarded(c, r.length, t.w.strStart - r.start) then Found(t.len, t.start) == r
      else MIN_MATCH - 1 <= t.len <= Max(prevLength, MIN_MATCH - 1)
  }

  /** deflate_fast searches always and keeps the best match. */
  ghost predicate FastFinds(c: Config, t: Turn)
    requires Stands(c, t)
  {
    if !Near(c, t) then t.len < MIN_MATCH
    else
      var r := Best(c.sizes, c.tuning, t.w, t.head, MIN_MATCH - 1);
      if r.length >= MIN_MATCH then Found(t.len, t.start) == r else t.len < MIN_MATCH
  }

  /** A match that is longer than the one before is a true match in the input. */
  lemma BestIsMatch(c: Config, prevLength: nat, t: Turn)
    requires Stands(c, t) && Near(c, t)
    ensures var r := Best(c.sizes, c.tuning, t.w, t.head, prevLength);
            r.length > prevLength ==> IsMatch(c.sizes, t.w, r.length, r.start)
  {
    NearCanSearch(c, t);
    FoundIsMatch(c.sizes, c.tuning, t.w, t.head, prevLength, NIL);
  }

  /** The strings compared with the current one. */
  ghost function Compared(c: Config, prevLength: nat, t: Turn): seq<Pos>
    requires t.w.strStart + t.w.lookahead <= |t.w.b.bytes| && |t.w.b.prev| > 0
  {
    WalkOf(c.sizes, c.tuning, t.w).Visited(t.head, ChainLength(c.tuning, prevLength), prevLength)
  }

  /** They were inserted under the same hash and are within MAX_DIST, and the best match is the longest
      common prefix with one of them. */
  lemma BestOfCompared(c: Config, prevLength: nat, t: Turn)
    requires Stands(c, t) && Near(c, t)
    ensures CanSearch(c.sizes, c.tuning, t.w)
    ensures
      var walk, slot := WalkOf(c.sizes, c.tuning, t.w), t.w.b.SlotOf(c.sizes, t.w.strStart);
      var r, vs := Best(c.sizes, c.tuning, t.w, t.head, prevLength), Compared(c, prevLength, t);
      && (forall x :: x in vs ==> Candidate(t.w.b.hist, c.sizes.hash, walk, slot, x))
      && (forall x :: x in vs ==> x <= walk.at && MatchLength(walk.data, walk.at, x) <= r.length)
      && (r.length > prevLength ==> r.start in vs && 0 <= r.start <= walk.at && MatchLength(walk.data, walk.at, r.start) == r.length)
  {
    NearCanSearch(c, t);
    var walk, slot := WalkOf(c.sizes, c.tuning, t.w), t.w.b.SlotOf(c.sizes, t.w.strStart);
    var count := ChainLength(c.tuning, prevLength);
    SearchIsBest(walk, t.head, count, Found(prevLength, NIL));
    ChainIsFiled(t.w.b.hist, c.sizes.hash, walk, t.head, count, prevLength, slot);
  }

  /** Every string inserted under the same hash and nearer than MAX_DIST is compared, unless there are too
      many or a match of the nice length is found. */
  lemma AllCompared(c: Config, prevLength: nat, t: Turn, q: nat)
    requires Stands(c, t) && Near(c, t)
    requires q in t.w.b.hist.inserted && q < t.w.Cur() && t.w.b.hist.base < q && t.w.Cur() - q < c.sizes.MaxDist()
    requires t.w.strStart + 3 <= t.w.b.End() && t.w.b.hist.OfSlot(c.sizes.hash, q, t.w.b.SlotOf(c.sizes, t.w.strStart))
    ensures
      var vs := Compared(c, prevLength, t);
      || q - t.w.b.hist.base in vs || |vs| == ChainLength(c.tuning, prevLength)
      || Best(c.sizes, c.tuning, t.w, t.head, prevLength).length >= Min(c.tuning.niceMatch, t.w.lookahead)
  {
    NearCanSearch(c, t);
    VisitsAll(t.w.b.hist, c.sizes.hash, WalkOf(c.sizes, c.tuning, t.w), t.head, ChainLength(c.tuning, prevLength),
              Found(prevLength, NIL), t.w.b.SlotOf(c.sizes, t.w.strStart), q);
  }

  // The machines.

  /** Where a matcher stands: the input position of the current string, whether the byte before it is
      held back, with the match held back for it; the tokens so far; the input position after the last full
      flush; and the strings that have been inserted since then. */
  datatype Mach = Mach(pos: nat, avail: bool, len: nat, dist: int, tokens: seq<Token>, since: nat, filed: set<nat>) {
    /** The input that the tokens stand for ends here. */
    function Covered(): int {
      if avail then pos - 1 else pos
    }
  }

  const START: Mach := Mach(0, false, MIN_MATCH - 1, 0, [], 0, {})

  function LiteralAt(input: seq<Byte>, p: int): Token {
    Literal(if 0 <= p < |input| then input[p] else 0)
  }

  /** The strings inside a match: n of them from `from` on, none beyond `most`. */
  function Inside(from: int, n: int, most: int): set<nat> {
    set p: nat | from <= p < from + n && IsInside(p, from, n, most)
  }

  predicate IsInside(p: int, from: int, n: int, most: int) {
    from <= p < from + n && p <= most
  }

  /** Lazy evaluation: the match held back is taken unless the one found at the current string is
      longer; otherwise the byte before becomes a literal and the match found is held back. */
  function SlowNext(input: seq<Byte>, m: Mach, t: Turn): Mach {
    if m.len >= MIN_MATCH && t.len <= m.len then
      Mach(m.pos - 1 + m.len, false, MIN_MATCH - 1, 0, m.tokens + [Match(m.len, if m.dist >= 0 then m.dist else 0)], m.since,
           t.w.b.hist.inserted + Inside(m.pos + 1, m.len - 2, m.pos + t.w.lookahead - MIN_MATCH))
    else
      Mach(m.pos + 1, true, t.len, if t.len >= MIN_MATCH then t.Distance() else 0,
           m.tokens + (if m.avail then [LiteralAt(input, m.pos - 1)] else []), m.since, t.w.b.hist.inserted)
  }

  /** Greedy evaluation: a match that is found is taken. The strings inside it are inserted if it is short. */
  function FastNext(c: Config, input: seq<Byte>, m: Mach, t: Turn): Mach {
    if t.len >= MIN_MATCH then
      m.(pos := m.pos + t.len, tokens := m.tokens + [Match(t.len, if t.Distance() >= 0 then t.Distance() else 0)],
         filed := t.w.b.hist.inserted + if t.len <= c.tuning.maxLazy && t.len + MIN_MATCH <= t.w.lookahead
                                        then Inside(m.pos + 1, t.len - 1, m.pos + t.len) else {})
    else
      m.(pos := m.pos + 1, tokens := m.tokens + [LiteralAt(input, m.pos)], filed := t.w.b.hist.inserted)
  }

  /** A string searched; the literal still held back at the end of the input; a full flush. */
  datatype Event = Search(t: Turn) | Last | Restart

  function Next(c: Config, slow: bool, input: seq<Byte>, m: Mach, e: Event): Mach {
    match e
    case Search(t) => if slow then SlowNext(input, m, t) else FastNext(c, input, m, t)
    case Last => m.(avail := false, tokens := m.tokens + [LiteralAt(input, m.pos - 1)])
    case Restart => m.(since := m.pos, filed := {})
  }

  /** The search is made at the current string, in a window of the input that starts after the last full
      flush and has all the strings inserted since then, and finds what it should. */
  ghost predicate Allowed(c: Config, slow: bool, input: seq<Byte>, m: Mach, e: Event) {
    match e
    case Search(t) =>
      && t.w.Cur() == m.pos && t.w.b.hist.stream <= input && m.since <= t.w.b.hist.base && m.filed <= t.w.b.hist.inserted
      && Stands(c, t) && if slow then SlowFinds(c, m.len, t) else FastFinds(c, t)
    case Last => slow && m.avail && m.len == MIN_MATCH - 1
    case Restart => !m.avail
  }

  function After(c: Config, slow: bool, input: seq<Byte>, m: Mach, es: seq<Event>): Mach {
    if es == [] then m else Next(c, slow, input, After(c, slow, input, m, es[..|es| - 1]), es[|es| - 1])
  }

  ghost predicate Legal(c: Config, slow: bool, input: seq<Byte>, m: Mach, es: seq<Event>) {
    es == []
    || (Legal(c, slow, input, m, es[..|es| - 1])
        && Allowed(c, slow, input, After(c, slow, input, m, es[..|es| - 1]), es[|es| - 1]))
  }

  /** The events are legal from m on and lead to m'. */
  ghost predicate Leads(c: Config, slow: bool, input: seq<Byte>, m: Mach, es: seq<Event>, m': Mach) {
    Legal(c, slow, input, m, es) && After(c, slow, input, m, es) == m'
  }

  /** More events, with a full flush among them only if there was one. */
  predicate GoesOn(es: seq<Event>, es': seq<Event>, full: bool) {
    es <= es' && forall i :: |es| <= i < |es'| && es'[i].Restart? ==> full
  }

  lemma GoesOnSearching(es: seq<Event>, t: Turn)
    requires GoesOn([], es, false)
    ensures GoesOn([], es + [Search(t)], false)
  {
  }

  lemma LeadsNowhere(c: Config, slow: bool, input: seq<Byte>, m: Mach)
    ensures Leads(c, slow, input, m, [], m)
  {
  }

  lemma LeadsOn(c: Config, slow: bool, input: seq<Byte>, m: Mach, es: seq<Event>, m1: Mach, e: Event)
    requires Leads(c, slow, input, m, es, m1) && Allowed(c, slow, input, m1, e)
    ensures Leads(c, slow, input, m, es + [e], Next(c, slow, input, m1, e))
  {
    assert (es + [e])[..|es|] == es;
  }

  lemma {:induction false} LeadsJoin(c: Config, slow: bool, input: seq<Byte>, m: Mach, a: seq<Event>, m1: Mach, b: seq<Event>, m2: Mach)
    requires Leads(c, slow, input, m, a, m1) && Leads(c, slow, input, m1, b, m2)
    ensures Leads(c, slow, input, m, a + b, m2)
    decreases |b|
  {
    if b == [] {
      assert a + b == a;
    } else {
      var init, e := b[..|b| - 1], b[|b| - 1];
      LeadsJoin(c, slow, input, m, a, m1, init, After(c, slow, input, m1, init));
      LeadsOn(c, slow, input, m, a + init, After(c, slow, input, m1, init), e);
      assert a + b == (a + init) + [e];
    }
  }

  // What the tokens stand for.

  /** The tokens from the k-th on expand on their own to the input from p on, and a match held back
      is true and does not reach back beyond the last full flush. */
  ghost predicate Sound(c: Config, input: seq<Byte>, m: Mach, k: nat, p: nat) {
    && p <= m.since <= m.Covered() <= m.pos <= |input| && k <= |m.tokens|
    && Expand(m.tokens[k..]) == Some(input[p..m.Covered()])
    && (m.len >= MIN_MATCH ==> m.avail && TrueMatch(c, input, m.pos - 1, m.len, m.dist) && m.dist <= m.pos - 1 - m.since)
  }

  /** The len bytes of the input at n repeat those at distance d back, within the limits
      on lengths and distances. */
  ghost predicate TrueMatch(c: Config, stream: seq<Byte>, n: int, len: nat, d: int) {
    && 1 <= d <= c.sizes.MaxDist() && d <= n && len <= MAX_MATCH && n + len <= |stream|
    && Repeats(stream, n, len, d)
  }

  lemma OneMore(tokens: seq<Token>, k: nat, t: Token, out: seq<Byte>, out': seq<Byte>)
    requires k <= |tokens| && Expand(tokens[k..]) == Some(out) && Step(out, t) == Some(out')
    ensures Expand((tokens + [t])[k..]) == Some(out')
  {
    ExpandAppend(tokens[k..], t);
    assert (tokens + [t])[k..] == tokens[k..] + [t];
  }

  /** A literal for the next byte. */
  lemma LiteralStep(input: seq<Byte>, p: nat, n: nat)
    requires p <= n < |input|
    ensures Step(input[p..n], LiteralAt(input, n)) == Some(input[p..n + 1])
  {
    assert input[p..n] + [input[n]] == input[p..n + 1];
  }

  /** A match that does not reach back beyond p. */
  lemma MatchStep(c: Config, input: seq<Byte>, p: nat, n: nat, len: nat, d: nat)
    requires TrueMatch(c, input, n, len, d) && d <= n - p && p <= n
    ensures Step(input[p..n], Match(len, d)) == Some(input[p..n + len])
  {
    var s := input[p..];
    forall i | n - p <= i < n - p + len
      ensures s[i] == s[i - d]
    {
      assert input[p + i] == input[p + i - d];
    }
    CopyExtends(s, n - p, len, d);
    assert s[..n - p] == input[p..n] && s[..n - p + len] == input[p..n + len];
  }

  /** What a search finds is true in the whole input and does not reach back beyond the window. */
  lemma FoundIsTrue(c: Config, slow: bool, input: seq<Byte>, m: Mach, t: Turn)
    requires Allowed(c, slow, input, m, Search(t)) && t.len >= MIN_MATCH && (slow ==> t.len > m.len)
    ensures TrueMatch(c, input, m.pos, t.len, t.Distance()) && t.Distance() <= m.pos - m.since
  {
    BestIsMatch(c, if slow then m.len else MIN_MATCH - 1, t);
    var d := t.Distance();
    forall i | m.pos <= i < m.pos + t.len
      ensures input[i] == input[i - d]
    {
      assert t.w.b.hist.stream[i] == t.w.b.hist.stream[i - d];
    }
  }

  lemma InputAhead(c: Config, slow: bool, input: seq<Byte>, m: Mach, t: Turn)
    requires Allowed(c, slow, input, m, Search(t))
    ensures m.pos < |input|
  {
  }

  /** The tokens with one more, which goes on from q to q'. */
  lemma TokenKeepsSound(c: Config, input: seq<Byte>, m: Mach, k: nat, p: nat, t: Token, m': Mach)
    requires Sound(c, input, m, k, p) && m'.tokens == m.tokens + [t] && m'.since == m.since
    requires m.Covered() <= m'.Covered() <= m'.pos <= |input| && Step(input[p..m.Covered()], t) == Some(input[p..m'.Covered()])
    requires m'.len >= MIN_MATCH ==> m'.avail && TrueMatch(c, input, m'.pos - 1, m'.len, m'.dist) && m'.dist <= m'.pos - 1 - m'.since
    ensures Sound(c, input, m', k, p)
  {
    OneMore(m.tokens, k, t, input[p..m.Covered()], input[p..m'.Covered()]);
  }

  /** What a turn finds for the string at p, seen from the input. */
  ghost predicate TrueTurn(c: Config, input: seq<Byte>, m: Mach, t: Turn) {
    m.pos < |input| && (t.len >= MIN_MATCH ==> TrueMatch(c, input, m.pos, t.len, t.Distance()) && t.Distance() <= m.pos - m.since)
  }

  lemma TurnIsTrue(c: Config, slow: bool, input: seq<Byte>, m: Mach, t: Turn)
    requires Allowed(c, slow, input, m, Search(t)) && Fits(slow, m) && (slow && m.len >= MIN_MATCH ==> t.len > m.len)
    ensures TrueTurn(c, input, m, t)
  {
    InputAhead(c, slow, input, m, t);
    if t.len >= MIN_MATCH {
      FoundIsTrue(c, slow, input, m, t);
    }
  }

  lemma FastKeepsSound(c: Config, input: seq<Byte>, m: Mach, t: Turn, k: nat, p: nat)
    requires Sound(c, input, m, k, p) && m.len < MIN_MATCH && !m.avail && TrueTurn(c, input, m, t)
    ensures Sound(c, input, FastNext(c, input, m, t), k, p)
  {
    if t.len >= MIN_MATCH {
      MatchStep(c, input, p, m.pos, t.len, t.Distance());
      TokenKeepsSound(c, input, m, k, p, Match(t.len, t.Distance()), FastNext(c, input, m, t));
    } else {
      LiteralStep(input, p, m.pos);
      TokenKeepsSound(c, input, m, k, p, LiteralAt(input, m.pos), FastNext(c, input, m, t));
    }
  }

  lemma TakeKeepsSound(c: Config, input: seq<Byte>, m: Mach, t: Turn, k: nat, p: nat)
    requires Sound(c, input, m, k, p) && m.len >= MIN_MATCH && t.len <= m.len
    ensures Sound(c, input, SlowNext(input, m, t), k, p)
  {
    var m' := SlowNext(input, m, t);
    MatchStep(c, input, p, m.pos - 1, m.len, m.dist);
    assert m'.tokens == m.tokens + [Match(m.len, m.dist)] && m'.Covered() == m.pos - 1 + m.len;
    TokenKeepsSound(c, input, m, k, p, Match(m.len, m.dist), m');
  }

  lemma HoldKeepsSound(c: Config, input: seq<Byte>, m: Mach, t: Turn, k: nat, p: nat)
    requires Sound(c, input, m, k, p) && TrueTurn(c, input, m, t)
    requires m.len < MIN_MATCH || t.len > m.len
    ensures Sound(c, input, SlowNext(input, m, t), k, p)
  {
    var m' := SlowNext(input, m, t);
    if m.avail {
      LiteralStep(input, p, m.pos - 1);
      TokenKeepsSound(c, input, m, k, p, LiteralAt(input, m.pos - 1), m');
    } else {
      assert m'.tokens == m.tokens;
    }
  }

  lemma LastKeepsSound(c: Config, input: seq<Byte>, m: Mach, k: nat, p: nat)
    requires Sound(c, input, m, k, p) && m.len < MIN_MATCH && m.avail
    ensures Sound(c, input, Next(c, true, input, m, Last), k, p)
  {
    LiteralStep(input, p, m.pos - 1);
    OneMore(m.tokens, k, LiteralAt(input, m.pos - 1), input[p..m.pos - 1], input[p..m.pos]);
  }

  /** The matcher in use: deflate_fast holds nothing back. */
  ghost predicate Fits(slow: bool, m: Mach) {
    if slow then m.len >= MIN_MATCH - 1 else m.len == MIN_MATCH - 1 && !m.avail
  }

  lemma KeepsSound(c: Config, slow: bool, input: seq<Byte>, m: Mach, e: Event, k: nat, p: nat)
    requires Sound(c, input, m, k, p) && Fits(slow, m) && Allowed(c, slow, input, m, e)
    ensures Sound(c, input, Next(c, slow, input, m, e), k, p) && Fits(slow, Next(c, slow, input, m, e))
  {
    match e
    case Search(t) =>
      if slow && m.len >= MIN_MATCH && t.len <= m.len {
        TakeKeepsSound(c, input, m, t, k, p);
      } else {
        TurnIsTrue(c, slow, input, m, t);
        if slow {
          HoldKeepsSound(c, input, m, t, k, p);
        } else {
          FastKeepsSound(c, input, m, t, k, p);
        }
      }
    case Last =>
      LastKeepsSound(c, input, m, k, p);
    case Restart =>
  }

  lemma {:induction false} StaysSound(c: Config, slow: bool, input: seq<Byte>, m: Mach, es: seq<Event>, k: nat, p: nat)
    requires Sound(c, input, m, k, p) && Fits(slow, m) && Legal(c, slow, input, m, es)
    ensures Sound(c, input, After(c, slow, input, m, es), k, p) && Fits(slow, After(c, slow, input, m, es))
  {
    if es != [] {
      StaysSound(c, slow, input, m, es[..|es| - 1], k, p);
      KeepsSound(c, slow, input, After(c, slow, input, m, es[..|es| - 1]), es[|es| - 1], k, p);
    }
  }

  lemma StartIsSound(c: Config, input: seq<Byte>)
    ensures Sound(c, input, START, 0, 0) && Fits(true, START) && Fits(false, START)
  {
  }

  /** After a full flush the tokens that follow stand on their own for the input that follows: none of
      them refers to anything before the flush. */
  lemma StandsAlone(c: Config, slow: bool, input: seq<Byte>, before: seq<Event>, after: seq<Event>)
    requires Legal(c, slow, input, START, before + [Restart] + after)
    ensures
      var m, m' := After(c, slow, input, START, before), After(c, slow, input, START, before + [Restart] + after);
      && |m.tokens| <= |m'.tokens| && m.pos <= m'.Covered() <= |input|
      && Expand(m'.tokens[|m.tokens|..]) == Some(input[m.pos..m'.Covered()])
  {
    var es := before + [Restart];
    LegalSplit(c, slow, input, START, es, after);
    assert es[..|es| - 1] == before;
    var m := After(c, slow, input, START, before);
    StartIsSound(c, input);
    StaysSound(c, slow, input, START, es, 0, 0);
    var m1 := After(c, slow, input, START, es);
    FreshMark(c, input, m1);
    StaysSound(c, slow, input, m1, after, |m1.tokens|, m1.pos);
  }

  lemma FreshMark(c: Config, input: seq<Byte>, m: Mach)
    requires Sound(c, input, m, 0, 0) && m.since == m.pos && !m.avail && m.len < MIN_MATCH
    ensures Sound(c, input, m, |m.tokens|, m.pos)
  {
    assert m.tokens[|m.tokens|..] == [] && input[m.pos..m.pos] == [];
  }

  lemma {:induction false} LegalSplit(c: Config, slow: bool, input: seq<Byte>, m: Mach, a: seq<Event>, b: seq<Event>)
    requires Legal(c, slow, input, m, a + b)
    ensures Legal(c, slow, input, m, a) && Legal(c, slow, input, After(c, slow, input, m, a), b)
    ensures After(c, slow, input, m, a + b) == After(c, slow, input, After(c, slow, input, m, a), b)
    decreases |b|
  {
    if b == [] {
      assert a + b == a;
    } else {
      assert (a + b)[..|a + b| - 1] == a + b[..|b| - 1];
      LegalSplit(c, slow, input, m, a, b[..|b| - 1]);
    }
  }

  /** More input changes nothing of what has happened. */
  lemma {:induction false} MoreInput(c: Config, slow: bool, input: seq<Byte>, more: seq<Byte>, es: seq<Event>)
    requires Legal(c, slow, input, START, es)
    ensures Legal(c, slow, input + more, START, es) && After(c, slow, input + more, START, es) == After(c, slow, input, START, es)
  {
    if es != [] {
      var init := es[..|es| - 1];
      MoreInput(c, slow, input, more, init);
      StartIsSound(c, input);
      StaysSound(c, slow, input, START, init, 0, 0);
      StaysSound(c, slow, input, START, es, 0, 0);
    }
  }

  lemma {:induction false} TokensGrow(c: Config, slow: bool, input: seq<Byte>, m: Mach, es: seq<Event>)
    ensures m.tokens <= After(c, slow, input, m, es).tokens
  {
    if es != [] {
      TokensGrow(c, slow, input, m, es[..|es| - 1]);
    }
  }

  lemma SoundInMore(c: Config, input: seq<Byte>, more: seq<Byte>, m: Mach, k: nat, p: nat)
    requires Sound(c, input, m, k, p)
    ensures Sound(c, input + more, m, k, p)
  {
    assert (input + more)[p..m.Covered()] == input[p..m.Covered()];
    if m.len >= MIN_MATCH {
      forall i | m.pos - 1 <= i < m.pos - 1 + m.len
        ensures (input + more)[i] == (input + more)[i - m.dist]
      {
        assert input[i] == input[i - m.dist];
      }
    }
  }

  /** What stands on its own still does after more events on more input, and the tokens are only added to. */
  lemma StandsOn(c: Config, slow: bool, input: seq<Byte>, more: seq<Byte>, es: seq<Event>, rest: seq<Event>, k: nat, p: nat)
    requires Legal(c, slow, input, START, es) && Legal(c, slow, input + more, START, es + rest)
    requires Sound(c, input, After(c, slow, input, START, es), k, p)
    ensures Sound(c, input + more, After(c, slow, input + more, START, es + rest), k, p)
  {
    var m := After(c, slow, input, START, es);
    MoreInput(c, slow, input, more, es);
    LegalSplit(c, slow, input + more, START, es, rest);
    StartIsSound(c, input);
    StaysSound(c, slow, input, START, es, 0, 0);
    SoundInMore(c, input, more, m, k, p);
    StaysSound(c, slow, input + more, m, rest, k, p);
  }

  lemma TokensStay(c: Config, slow: bool, input: seq<Byte>, more: seq<Byte>, es: seq<Event>, rest: seq<Event>)
    requires Legal(c, slow, input, START, es) && Legal(c, slow, input + more, START, es + rest)
    ensures After(c, slow, input, START, es).tokens <= After(c, slow, input + more, START, es + rest).tokens
  {
    MoreInput(c, slow, input, more, es);
    LegalSplit(c, slow, input + more, START, es, rest);
    TokensGrow(c, slow, input + more, After(c, slow, input + more, START, es), rest);
  }

  /** Right after a full flush nothing has been tallied that would have to stand on its own. */
  lemma RestartStands(c: Config, slow: bool, input: seq<Byte>, es: seq<Event>)
    requires Legal(c, slow, input, START, es) && es != [] && es[|es| - 1].Restart?
    ensures var m := After(c, slow, input, START, es); Sound(c, input, m, |m.tokens|, m.pos)
  {
    StartIsSound(c, input);
    StaysSound(c, slow, input, START, es, 0, 0);
    FreshMark(c, input, After(c, slow, input, START, es));
  }
}
