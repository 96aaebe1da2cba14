/**
 What longest_match computes, stated on the valid bytes of the window alone: walk a
 hash chain and keep the candidate with the longest common prefix.
 */
module MatchSearch {
  import opened Arith
  import opened RollingHash
  import opened Lz77
  import opened HashChains

  /** The length of the longest common prefix, at most n, of the strings at a and b. */
  function Lcp(s: seq<Byte>, a: nat, b: nat, n: nat): (r: nat)
    requires a <= b && b + n <= |s|
    ensures r <= n
    decreases |s| - b, n
  {
    if n == 0 || s[a] != s[b] then 0 else 1 + Lcp(s, a + 1, b + 1, n - 1)
  }

  /** The prefix counted by Lcp agrees, and the byte after it does not. */
  lemma {:induction false} LcpSound(s: seq<Byte>, a: nat, b: nat, n: nat)
    requires a <= b && b + n <= |s|
    ensures var r := Lcp(s, a, b, n); Repeats(s, b, r, b - a) && (r < n ==> s[a + r] != s[b + r])
    decreases n
  {
    if n > 0 && s[a] == s[b] {
      LcpSound(s, a + 1, b + 1, n - 1);
    }
  }

  /** A length with these two properties is the one that Lcp counts. */
  lemma {:induction false} LcpUnique(s: seq<Byte>, a: nat, b: nat, n: nat, k: nat)
    requires a <= b && b + n <= |s| && k <= n
    requires Repeats(s, b, k, b - a) && (k < n ==> s[a + k] != s[b + k])
    ensures Lcp(s, a, b, n) == k
    decreases n
  {
    if k > 0 {
      LcpUnique(s, a + 1, b + 1, n - 1, k - 1);
    }
  }

  /** Counting within the first m bytes only, and at most n of them, cuts the count off at n. */
  lemma LcpCut(s: seq<Byte>, m: nat, a: nat, b: nat, n: nat, n': nat)
    requires a <= b && b + n <= m <= |s| && n <= n' && b + n' <= |s|
    ensures Lcp(s[..m], a, b, n) == Min(Lcp(s, a, b, n'), n)
  {
    LcpSound(s, a, b, n');
    LcpUnique(s[..m], a, b, n, Min(Lcp(s, a, b, n'), n));
  }

  /** The common prefix of the candidate c and the string at `at`, within the valid
      bytes and within the longest match that can be coded. */
  function MatchLength(data: seq<Byte>, at: nat, c: nat): nat
    requires c <= at <= |data|
  {
    Lcp(data, c, at, Min(|data| - at, MAX_MATCH))
  }

  datatype Found = Found(length: nat, start: int)

  /** A walk along the chain that starts at cur: at most count candidates, each above
      limit except perhaps the first, stopping at a match of length nice. */
  datatype Walk = Walk(data: seq<Byte>, at: nat, prev: seq<Pos>, limit: nat, nice: nat) {

    ghost predicate Valid() {
      at <= |data| && |prev| > 0
    }

    ghost function Next(cur: Pos): Pos
      requires Valid()
    {
      prev[cur % |prev|]
    }

    /** The chain goes on after cur. */
    ghost predicate More(cur: Pos, count: nat)
      requires Valid()
    {
      Next(cur) > limit && count > 1
    }

    /** Every link that the walk follows leads to an older string. */
    ghost predicate Descending(cur: Pos, count: nat)
      requires Valid()
      decreases count
    {
      cur < at && (More(cur, count) ==> Next(cur) < cur && Descending(Next(cur), count - 1))
    }

    ghost function Search(cur: Pos, count: nat, best: Found): Found
      requires Valid()
      decreases count
    {
      if cur > at then best
      else
        var n := MatchLength(data, at, cur);
        var best' := if n > best.length then Found(n, cur) else best;
        if (n > best.length && n >= nice) || !More(cur, count) then best'
        else Search(Next(cur), count - 1, best')
    }

    /** The candidates that Search compares. */
    ghost function Visited(cur: Pos, count: nat, best: nat): seq<Pos>
      requires Valid()
      decreases count
    {
      if cur > at then []
      else
        var n := MatchLength(data, at, cur);
        if (n > best && n >= nice) || !More(cur, count) then [cur]
        else [cur] + Visited(Next(cur), count - 1, if n > best then n else best)
    }
  }

  /** Search returns the larger of the initial length and the best common prefix over the
      candidates visited, with a candidate that attains it; and it visits the whole
      chain within count unless it has found a match of length nice. */
  lemma {:induction false} SearchIsBest(w: Walk, cur: Pos, count: nat, best: Found)
    requires w.Valid()
    ensures
      var r := w.Search(cur, count, best);
      var vs := w.Visited(cur, count, best.length);
      && r.length >= best.length
      && (forall x :: x in vs ==> x <= w.at && MatchLength(w.data, w.at, x) <= r.length)
      && (r.length > best.length ==>
            r.start in vs && 0 <= r.start <= w.at && MatchLength(w.data, w.at, r.start) == r.length)
      && (r.length == best.length ==> r == best)
    decreases count
  {
    if cur <= w.at {
      var n := MatchLength(w.data, w.at, cur);
      var best' := if n > best.length then Found(n, cur) else best;
      if !((n > best.length && n >= w.nice) || !w.More(cur, count)) {
        SearchIsBest(w, w.Next(cur), count - 1, best');
        assert w.Search(cur, count, best) == w.Search(w.Next(cur), count - 1, best');
        assert w.Visited(cur, count, best.length) == [cur] + w.Visited(w.Next(cur), count - 1, best'.length);
      }
    }
  }

  /** Without a match of length nice the whole chain is visited: the last candidate
      visited is the end of the chain, or the count is used up. */
  lemma {:induction false} SearchIsComplete(w: Walk, cur: Pos, count: nat, best: Found)
    requires w.Valid() && count >= 1 && w.Descending(cur, count)
    ensures
      var vs := w.Visited(cur, count, best.length);
      && 1 <= |vs| <= count && vs[0] == cur
      && (forall i :: 0 <= i < |vs| - 1 ==> w.Next(vs[i]) == vs[i + 1])
      && (w.Search(cur, count, best).length < w.nice ==> |vs| == count || w.Next(vs[|vs| - 1]) <= w.limit)
    decreases count
  {
    var n := MatchLength(w.data, w.at, cur);
    var best' := if n > best.length then Found(n, cur) else best;
    if !((n > best.length && n >= w.nice) || !w.More(cur, count)) {
      SearchIsComplete(w, w.Next(cur), count - 1, best');
      var vs := w.Visited(w.Next(cur), count - 1, best'.length);
      assert w.Visited(cur, count, best.length) == [cur] + vs;
    }
  }

  /** x is a candidate that longest_match may compare: an inserted string of the slot,
      at most as far back as limit allows. */
  ghost predicate Candidate(v: History, c: HashConfig, w: Walk, slot: nat, x: Pos) {
    x != NIL && w.limit <= x < w.at && v.Filed(c, x, slot)
  }

  /** Every string visited from a candidate is a candidate. */
  lemma {:induction false} ChainIsFiled(v: History, c: HashConfig, w: Walk, cur: Pos, count: nat, best: nat, slot: nat)
    requires w.Valid() && v.Valid() && v.PrevOk(c, w.prev)
    requires v.next <= v.base + w.limit + |w.prev|
    requires Candidate(v, c, w, slot, cur)
    ensures forall x :: x in w.Visited(cur, count, best) ==> Candidate(v, c, w, slot, x)
    decreases count
  {
    var n := MatchLength(w.data, w.at, cur);
    if !((n > best && n >= w.nice) || !w.More(cur, count)) {
      NextIsCandidate(v, c, w, cur, slot);
      ChainIsFiled(v, c, w, w.Next(cur), count - 1, if n > best then n else best, slot);
    }
  }

  lemma NextIsCandidate(v: History, c: HashConfig, w: Walk, cur: Pos, slot: nat)
    requires w.Valid() && v.Valid() && v.PrevOk(c, w.prev)
    requires v.next <= v.base + w.limit + |w.prev|
    requires Candidate(v, c, w, slot, cur) && w.Next(cur) > w.limit
    ensures Candidate(v, c, w, slot, w.Next(cur)) && w.Next(cur) < cur
  {
    assert v.Live(v.base + cur, |w.prev|) && v.LinkOk(c, w.prev, v.base + cur);
  }

  /** Every string of the slot within the limit is visited, unless the count is used up or a match of
      length nice ends the walk. */
  lemma {:induction false} VisitsAll(v: History, c: HashConfig, w: Walk, cur: Pos, count: nat, best: Found, slot: nat, q: nat)
    requires w.Valid() && v.Valid() && v.PrevOk(c, w.prev) && count >= 1
    requires v.next <= v.base + w.limit + |w.prev|
    requires Candidate(v, c, w, slot, cur)
    requires q in v.inserted && v.OfSlot(c, q, slot) && v.base + w.limit < q <= v.base + cur
    ensures var vs := w.Visited(cur, count, best.length);
            q - v.base in vs || |vs| == count || w.Search(cur, count, best).length >= w.nice
    decreases count
  {
    if v.base + cur != q {
      assert v.Live(v.base + cur, |w.prev|) && v.LinkOk(c, w.prev, v.base + cur);
      assert v.Latest(c, w.Next(cur), slot, v.base + cur);
      var n := MatchLength(w.data, w.at, cur);
      var best' := if n > best.length then Found(n, cur) else best;
      if !((n > best.length && n >= w.nice) || !w.More(cur, count)) {
        NextIsCandidate(v, c, w, cur, slot);
        VisitsAll(v, c, w, w.Next(cur), count - 1, best', slot, q);
      }
    }
  }

  /** From a candidate the walk descends. */
  lemma {:induction false} ChainDescends(v: History, c: HashConfig, w: Walk, cur: Pos, count: nat, slot: nat)
    requires w.Valid() && v.Valid() && v.PrevOk(c, w.prev)
    requires v.next <= v.base + w.limit + |w.prev|
    requires Candidate(v, c, w, slot, cur)
    ensures w.Descending(cur, count)
    decreases count
  {
    if w.More(cur, count) {
      NextIsCandidate(v, c, w, cur, slot);
      ChainDescends(v, c, w, w.Next(cur), count - 1, slot);
    }
  }
}
