/**
 The dictionary of deflate.c: head[] holds the most recent string of each hash slot
 and prev[], indexed modulo the window size, links each string to the one before it.
 Entries are window indices. The invariants are stated on absolute positions in the
 input, which do not move when the window slides.
 */
module HashChains {
  import opened Arith
  import opened RollingHash

  /** A window index kept in 16 bits. */
  type Pos = x: int | 0 <= x < 0x1_0000

  const NIL: Pos := 0

  /** The slot of the three bytes at position p of the input. */
  function SlotAt(c: HashConfig, s: seq<Byte>, p: nat): nat
    requires p + 3 <= |s|
  {
    Slot(c, s[p], s[p + 1], s[p + 2])
  }

  /** Strings of the same slot that agree on two bytes agree on the third. */
  lemma SameSlotSameThird(c: HashConfig, s: seq<Byte>, p: nat, q: nat)
    requires c.Valid() && p + 3 <= |s| && q + 3 <= |s| && SlotAt(c, s, p) == SlotAt(c, s, q)
    requires s[p] == s[q] && s[p + 1] == s[q + 1]
    ensures s[p + 2] == s[q + 2]
  {
    SkippedByteAgrees(c, s[p], s[p + 1], s[p + 2], s[q + 2]);
  }

  /** What the dictionary is about: the input so far, the input position of window
      index 0, the positions inserted and a strict upper bound of them. */
  datatype History = History(stream: seq<Byte>, base: nat, inserted: set<nat>, next: nat) {

    ghost predicate Valid() {
      && (next == 0 || next + 2 <= |stream|)
      && forall p :: p in inserted ==> p < next && p + 3 <= |stream|
    }

    /** r is NIL or a window index whose string was inserted and is filed under slot. */
    ghost predicate Filed(c: HashConfig, r: Pos, slot: nat) {
      r == NIL || (base + r in inserted && base + r + 3 <= |stream| && SlotAt(c, stream, base + r) == slot)
    }

    /** No string of the slot inserted before position `below` is later than r; index 0 is as good as none. */
    ghost predicate Latest(c: HashConfig, r: Pos, slot: nat, below: nat) {
      forall q :: q in inserted && base < q < below && OfSlot(c, q, slot) ==> r != NIL && q <= base + r
    }

    ghost predicate OfSlot(c: HashConfig, q: nat, slot: nat) {
      q + 3 <= |stream| && SlotAt(c, stream, q) == slot
    }

    /** Each head is the latest string inserted under its slot, or NIL if there is none. */
    ghost predicate HeadOk(c: HashConfig, head: seq<Pos>) {
      forall h :: 0 <= h < |head| ==> Filed(c, head[h], h) && Latest(c, head[h], h, next)
    }

    /** The link of an inserted string that no later insertion has overwritten is the latest
        string of the same slot before it, or NIL if there is none. */
    ghost predicate PrevOk(c: HashConfig, prev: seq<Pos>) {
      |prev| > 0 && forall p :: Live(p, |prev|) ==> LinkOk(c, prev, p)
    }

    ghost predicate Live(p: nat, size: nat) {
      p in inserted && base <= p && next <= p + size
    }

    ghost predicate LinkOk(c: HashConfig, prev: seq<Pos>, p: nat)
      requires |prev| > 0 && base <= p
    {
      var r := prev[(p - base) % |prev|];
      && (r == NIL || (base + r < p < |stream| - 2 && Filed(c, r, SlotAt(c, stream, p))))
      && (p < |stream| - 2 ==> Latest(c, r, SlotAt(c, stream, p), p))
    }

    ghost predicate ChainsOk(c: HashConfig, head: seq<Pos>, prev: seq<Pos>) {
      Valid() && HeadOk(c, head) && PrevOk(c, prev)
    }

    function Insert(p: nat): History {
      this.(inserted := inserted + {p}, next := p + 1)
    }

    function Slide(n: nat): History {
      this.(base := base + n)
    }

    function Extend(more: seq<Byte>): History {
      this.(stream := stream + more)
    }
  }

  /** INSERT_STRING at input position p keeps the chains: the slot it overwrites in
      prev[] belongs to no live string. */
  lemma InsertKeepsChains(v: History, c: HashConfig, head: seq<Pos>, prev: seq<Pos>, p: nat)
    requires v.ChainsOk(c, head, prev)
    requires v.base <= p && v.next <= p && p + 3 <= |v.stream| && p - v.base < 0x1_0000
    requires SlotAt(c, v.stream, p) < |head|
    ensures
      var h := SlotAt(c, v.stream, p);
      v.Insert(p).ChainsOk(c, head[h := p - v.base], prev[(p - v.base) % |prev| := head[h]])
  {
    InsertKeepsHead(v, c, head, p);
    InsertKeepsPrev(v, c, head, prev, p);
  }

  lemma InsertKeepsHead(v: History, c: HashConfig, head: seq<Pos>, p: nat)
    requires v.Valid() && v.HeadOk(c, head)
    requires v.base <= p && v.next <= p && p + 3 <= |v.stream| && p - v.base < 0x1_0000
    requires SlotAt(c, v.stream, p) < |head|
    ensures v.Insert(p).HeadOk(c, head[SlotAt(c, v.stream, p) := p - v.base])
  {
    var h := SlotAt(c, v.stream, p);
    var head' := head[h := p - v.base];
    forall k | 0 <= k < |head'|
      ensures v.Insert(p).Filed(c, head'[k], k) && v.Insert(p).Latest(c, head'[k], k, p + 1)
    {
      assert v.Filed(c, head[k], k) && v.Latest(c, head[k], k, v.next);
    }
  }

  lemma InsertKeepsPrev(v: History, c: HashConfig, head: seq<Pos>, prev: seq<Pos>, p: nat)
    requires v.ChainsOk(c, head, prev)
    requires v.base <= p && v.next <= p && p + 3 <= |v.stream|
    requires SlotAt(c, v.stream, p) < |head|
    ensures v.Insert(p).PrevOk(c, prev[(p - v.base) % |prev| := head[SlotAt(c, v.stream, p)]])
  {
    var size, slot, r := |prev|, (p - v.base) % |prev|, head[SlotAt(c, v.stream, p)];
    assert v.Filed(c, r, SlotAt(c, v.stream, p));
    forall q: nat | v.Insert(p).Live(q, size)
      ensures v.Insert(p).LinkOk(c, prev[slot := r], q)
    {
      if q != p {
        InsertKeepsLink(v, c, prev, p, q, r);
      }
    }
  }

  lemma InsertKeepsLink(v: History, c: HashConfig, prev: seq<Pos>, p: nat, q: nat, r: Pos)
    requires v.Valid() && v.PrevOk(c, prev)
    requires v.base <= p && v.next <= p && q != p && v.Insert(p).Live(q, |prev|)
    ensures v.Insert(p).LinkOk(c, prev[(p - v.base) % |prev| := r], q)
  {
    assert v.Live(q, |prev|) && v.LinkOk(c, prev, q);
    ModDistinct(p - v.base, q - v.base, |prev|);
  }

  /** slide_hash on one table. */
  function Slid(t: seq<Pos>, n: nat): (r: seq<Pos>)
    ensures |r| == |t|
    ensures forall i :: 0 <= i < |t| ==> r[i] == if t[i] >= n then t[i] - n else NIL
  {
    seq(|t|, i requires 0 <= i < |t| => if t[i] >= n then t[i] - n else NIL)
  }

  /** The loop of slide_hash over one table, in place and downwards. */
  method SlideTable(t: array<Pos>, n: nat)
    modifies t
    ensures t[..] == Slid(old(t[..]), n)
  {
    var k := t.Length;
    while k != 0
      invariant 0 <= k <= t.Length
      invariant forall i :: k <= i < t.Length ==> t[i] == if old(t[i]) >= n then old(t[i]) - n else NIL
      invariant forall i :: 0 <= i < k ==> t[i] == old(t[i])
    {
      k := k - 1;
      var m := t[k];
      t[k] := if m >= n then m - n else NIL;
    }
  }

  /** Sliding the window by its half size keeps the chains of the strings still in it. */
  lemma SlideKeepsChains(v: History, c: HashConfig, head: seq<Pos>, prev: seq<Pos>)
    requires v.ChainsOk(c, head, prev)
    ensures v.Slide(|prev|).ChainsOk(c, Slid(head, |prev|), Slid(prev, |prev|))
  {
    var n := |prev|;
    var w := v.Slide(n);
    forall k | 0 <= k < |head|
      ensures w.Filed(c, Slid(head, n)[k], k)
    {
      assert v.Filed(c, head[k], k);
    }
    forall q: nat | w.Live(q, n)
      ensures w.LinkOk(c, Slid(prev, n), q)
    {
      assert v.Live(q, n) && v.LinkOk(c, prev, q);
      ModAddMultiple(q - w.base, 1, n);
    }
  }

  /** Reading more input changes nothing in the dictionary. */
  lemma ExtendKeepsChains(v: History, c: HashConfig, head: seq<Pos>, prev: seq<Pos>, more: seq<Byte>)
    requires v.ChainsOk(c, head, prev)
    ensures v.Extend(more).ChainsOk(c, head, prev)
  {
    var w := v.Extend(more);
    forall k | 0 <= k < |head|
      ensures w.Filed(c, head[k], k)
    {
      assert v.Filed(c, head[k], k);
    }
    forall q: nat | w.Live(q, |prev|)
      ensures w.LinkOk(c, prev, q)
    {
      assert v.Live(q, |prev|) && v.LinkOk(c, prev, q);
    }
  }
}
