/**
 The sliding window of deflate.c and its dictionary: INSERT_STRING, slide_hash,
 read_buf and fill_window. The window holds a contiguous slice of the input.
 */
module SlidingWindow {
  import opened Arith
  import opened RollingHash
  import opened Lz77
  import opened HashChains
  import opened MatchSearch

  /** Lookahead kept ahead of the matcher except at the end of the input. */
  const MIN_LOOKAHEAD: nat := MAX_MATCH + MIN_MATCH + 1

  /** Bytes after the data that fill_window keeps initialized. */
  const WIN_INIT: nat := MAX_MATCH

  /** The sizes fixed by deflateInit2_: w_size is 2^9..2^15 and the hash has 8..16 bits. */
  datatype Sizes = Sizes(wSize: nat, hash: HashConfig) {
    ghost predicate Valid() {
      512 <= wSize <= 32768 && hash.Valid()
    }

    /** The furthest distance of a match. */
    function MaxDist(): int {
      wSize - MIN_LOOKAHEAD
    }
  }

  /** The buffers window, head and prev with, as bookkeeping, the input read so far and
      where the window lies in it. */
  datatype Buffers = Buffers(bytes: seq<Byte>, head: seq<Pos>, prev: seq<Pos>, hist: History) {

    /** The window index just after the last byte read. */
    function End(): int {
      |hist.stream| - hist.base
    }

    /** The window holds the input from base on. */
    ghost predicate HoldsInput(c: Sizes) {
      && |bytes| == 2 * c.wSize && 0 <= End() <= |bytes|
      && forall i :: 0 <= i < End() ==> bytes[i] == hist.stream[hist.base + i]
    }

    ghost predicate Ok(c: Sizes) {
      && c.Valid() && HoldsInput(c)
      && |head| == c.hash.Size() && |prev| == c.wSize && hist.ChainsOk(c.hash, head, prev)
    }

    /** The slot of the string at window index str. */
    function SlotOf(c: Sizes, str: nat): nat
      requires str + 3 <= End()
    {
      SlotAt(c.hash, hist.stream, hist.base + str)
    }
  }

  /** A running hash h that can take the third byte of the string at str. */
  ghost predicate ReadyAt(c: Sizes, bytes: seq<Byte>, h: bv16, str: nat) {
    str + 2 <= |bytes| && Ready(c.hash, h, bytes[str], bytes[str + 1])
  }

  /** The part of deflate_state that fill_window works on, and the input not yet read. */
  datatype Window = Window(
    b: Buffers, insH: bv16, strStart: nat, lookahead: nat, insert: nat, highWater: nat, nextIn: seq<Byte>)
  {
    /** The input position of the current string. */
    function Cur(): nat {
      b.hist.base + strStart
    }

    /** Nothing after the last insert strings before the current one has been inserted. */
    ghost predicate Behind(c: Sizes) {
      && b.Ok(c) && strStart + lookahead == b.End() && insert <= strStart
      && b.hist.next <= Cur() - insert
    }

    /** What holds between the steps of a matcher. */
    ghost predicate Valid(c: Sizes) {
      Standing(c, b, insH, strStart, lookahead, insert)
    }
  }

  /** The strings before the current one, except the last insert of them, have had their
      turn, and the running hash is ready when there is a string to insert. */
  ghost predicate Standing(c: Sizes, b: Buffers, insH: bv16, strStart: nat, lookahead: nat, insert: nat) {
    && b.Ok(c) && strStart + lookahead == b.End() && insert <= strStart
    && b.hist.next <= b.hist.base + strStart - insert
    && (lookahead >= MIN_MATCH ==> insert == 0 && ReadyAt(c, b.bytes, insH, strStart))
  }

  /** The buffers after filing the string at str under its slot. */
  ghost predicate FiledAt(c: Sizes, b: Buffers, b': Buffers, str: nat)
    requires str + 3 <= b.End()
  {
    var slot := b.SlotOf(c, str);
    && slot < |b.head| && str < 0x1_0000 && 0 < c.wSize == |b.prev|
    && b' == b.(hist := b.hist.Insert(b.hist.base + str),
                head := b.head[slot := str], prev := b.prev[str % c.wSize := b.head[slot]])
  }

  /** UPDATE_HASH with the third byte of the string at str gives the slot of the string. */
  method UpdateHash(c: Sizes, b: Buffers, h: bv16, str: nat) returns (h': bv16, slot: nat)
    requires b.Ok(c) && str + 3 <= b.End() && ReadyAt(c, b.bytes, h, str)
    ensures slot == b.SlotOf(c, str) && slot < |b.head|
    ensures ReadyAt(c, b.bytes, h', str + 1)
  {
    RollOn(c.hash, h, b.bytes[str], b.bytes[str + 1], b.bytes[str + 2]);
    IndexInRange(c.hash, h, b.bytes[str + 2]);
    h' := Update(c.hash, h, b.bytes[str + 2]);
    slot := Index(h');
  }

  lemma FiledOk(c: Sizes, b: Buffers, b': Buffers, str: nat)
    requires b.Ok(c) && str + 3 <= b.End() && b.hist.next <= b.hist.base + str && FiledAt(c, b, b', str)
    ensures b'.Ok(c)
  {
    var p := b.hist.base + str;
    InsertKeepsChains(b.hist, c.hash, b.head, b.prev, p);
    assert p - b.hist.base == str && b'.hist == b.hist.Insert(p);
    assert b'.hist.ChainsOk(c.hash, b'.head, b'.prev);
  }

  /** INSERT_STRING: file the string at str, return the string that headed its chain, and
      leave the running hash ready for the string after it. */
  method InsertString(c: Sizes, b: Buffers, h: bv16, str: nat) returns (b': Buffers, h': bv16, matchHead: Pos)
    requires b.Ok(c) && str + 3 <= b.End() && b.hist.next <= b.hist.base + str && ReadyAt(c, b.bytes, h, str)
    ensures b'.Ok(c) && ReadyAt(c, b'.bytes, h', str + 1)
    ensures FiledAt(c, b, b', str) && b'.hist == b.hist.Insert(b.hist.base + str) && b'.bytes == b.bytes
    ensures matchHead == b.head[b.SlotOf(c, str)]
  {
    var slot;
    h', slot := UpdateHash(c, b, h, str);
    matchHead := b.head[slot];
    b' := b.(prev := b.prev[str % c.wSize := matchHead], head := b.head[slot := str],
             hist := b.hist.Insert(b.hist.base + str));
    FiledOk(c, b, b', str);
  }

  /** The upper half of the window moved down, with both tables (slide_hash). */
  function MovedDown(c: Sizes, b: Buffers): Buffers
    requires |b.bytes| == 2 * c.wSize && c.wSize <= b.End() <= 2 * c.wSize
  {
    var n := b.End() - c.wSize;
    b.(bytes := b.bytes[c.wSize..c.wSize + n] + b.bytes[n..],
       head := Slid(b.head, c.wSize), prev := Slid(b.prev, c.wSize), hist := b.hist.Slide(c.wSize))
  }

  lemma MovedDownOk(c: Sizes, b: Buffers)
    requires b.Ok(c) && c.wSize <= b.End()
    ensures MovedDown(c, b).Ok(c)
    ensures forall i :: 0 <= i < b.End() - c.wSize ==> MovedDown(c, b).bytes[i] == b.bytes[c.wSize + i]
  {
    SlideKeepsChains(b.hist, c.hash, b.head, b.prev);
  }

  /** read_buf: input appended to the window. */
  function Appended(b: Buffers, data: seq<Byte>): Buffers
    requires 0 <= b.End() && b.End() + |data| <= |b.bytes|
  {
    b.(bytes := b.bytes[..b.End()] + data + b.bytes[b.End() + |data|..], hist := b.hist.Extend(data))
  }

  lemma AppendedOk(c: Sizes, b: Buffers, data: seq<Byte>)
    requires b.Ok(c) && b.End() + |data| <= |b.bytes|
    ensures Appended(b, data).Ok(c)
  {
    ExtendKeepsChains(b.hist, c.hash, b.head, b.prev, data);
  }

  /** The two windows stand at the same string of the same input. */
  ghost predicate SameInput(w: Window, w': Window) {
    && w'.b.bytes == w.b.bytes && w'.b.hist.stream == w.b.hist.stream && w'.b.hist.base == w.b.hist.base
    && w'.strStart == w.strStart && w'.lookahead == w.lookahead && w'.nextIn == w.nextIn
  }

  /** The next string left behind can be inserted. */
  ghost predicate CanCatchUp(c: Sizes, w: Window) {
    && w.Behind(c) && w.lookahead + w.insert >= MIN_MATCH
    && ReadyAt(c, w.b.bytes, w.insH, w.strStart - w.insert)
  }

  /** Of the strings at input positions from `from` to `to` each is newly inserted, and no other. */
  ghost predicate Inserts(v: History, v': History, from: int, to: int) {
    && v'.stream == v.stream && v'.base == v.base
    && v'.next == (if from < to then to else v.next)
    && forall p :: p in v'.inserted <==> p in v.inserted || from <= p < to
  }

  lemma InsertsOne(v: History, p: nat)
    ensures Inserts(v, v.Insert(p), p, p + 1)
  {
  }

  lemma InsertsNext(v: History, v1: History, v2: History, from: int, mid: int, to: int)
    requires Inserts(v, v1, from, mid) && Inserts(v1, v2, mid, to) && from <= mid <= to
    ensures Inserts(v, v2, from, to)
  {
  }

  /** Insert the first string left behind. */
  method CatchUp(c: Sizes, w: Window) returns (w': Window)
    requires CanCatchUp(c, w) && w.insert > 0
    ensures SameInput(w, w') && w'.Behind(c) && w'.insert == w.insert - 1
    ensures ReadyAt(c, w'.b.bytes, w'.insH, w'.strStart - w'.insert)
    ensures Inserts(w.b.hist, w'.b.hist, w.Cur() - w.insert, w.Cur() - w'.insert)
  {
    var b, h, _ := InsertString(c, w.b, w.insH, w.strStart - w.insert);
    InsertsOne(w.b.hist, w.Cur() - w.insert);
    w' := w.(b := b, insH := h, insert := w.insert - 1);
  }

  /** How many strings before the current one lack a third byte. */
  function LeftBehind(lookahead: nat): nat {
    if lookahead >= MIN_MATCH - 1 then 0 else MIN_MATCH - 1 - lookahead
  }

  /** Insert the strings left behind, as far as there are bytes for them. */
  method CatchUpAll(c: Sizes, w: Window) returns (w': Window)
    requires CanCatchUp(c, w)
    ensures SameInput(w, w') && w'.Valid(c)
    ensures w'.insert == Min(w.insert, LeftBehind(w.lookahead))
    ensures Inserts(w.b.hist, w'.b.hist, w.Cur() - w.insert, w.Cur() - w'.insert)
  {
    w' := w;
    while w'.insert != 0
      invariant CanCatchUp(c, w') && SameInput(w, w') && w'.insert <= w.insert
      invariant Inserts(w.b.hist, w'.b.hist, w.Cur() - w.insert, w.Cur() - w'.insert)
      decreases w'.insert
    {
      ghost var before := w';
      w' := CatchUp(c, w');
      InsertsNext(w.b.hist, before.b.hist, w'.b.hist, w.Cur() - w.insert, w.Cur() - before.insert, w.Cur() - w'.insert);
      if w'.lookahead + w'.insert < MIN_MATCH {
        break;
      }
    }
  }

  /** Start the running hash over the first string left behind and insert, in order, those that
      have three bytes. */
  method InsertPending(c: Sizes, w: Window) returns (w': Window)
    requires w.Behind(c)
    ensures w'.Valid(c) && SameInput(w, w')
    ensures w'.insert == Min(w.insert, LeftBehind(w.lookahead))
    ensures Inserts(w.b.hist, w'.b.hist, w.Cur() - w.insert, w.Cur() - w'.insert)
  {
    w' := w;
    if w.lookahead + w.insert >= MIN_MATCH {
      var str := w.strStart - w.insert;
      w' := CatchUpAll(c, w.(insH := Start(c.hash, w.b.bytes[str], w.b.bytes[str + 1])));
    }
  }

  /** The window w' is w moved down by 0 or w_size over the same input, with more of it read and no
      string taken out. */
  ghost predicate Refilled(c: Sizes, w: Window, w': Window) {
    && w'.Cur() == w.Cur()
    && (w'.strStart == w.strStart || (w'.strStart == w.strStart - c.wSize && w'.strStart >= c.MaxDist()))
    && w.b.hist.stream <= w'.b.hist.stream
    && w'.b.hist.stream + w'.nextIn == w.b.hist.stream + w.nextIn
    && w.b.hist.inserted <= w'.b.hist.inserted
  }

  lemma RefilledTransitive(c: Sizes, w: Window, w1: Window, w2: Window)
    requires Refilled(c, w, w1) && Refilled(c, w1, w2)
    requires w1.strStart == w.strStart || w2.strStart == w1.strStart
    ensures Refilled(c, w, w2)
  {
  }

  /** Move the window down if it is almost full. */
  method MakeRoom(c: Sizes, w: Window) returns (w': Window)
    requires w.Valid(c) && w.lookahead < MIN_LOOKAHEAD
    ensures w'.Valid(c) && Refilled(c, w, w') && w'.strStart < c.wSize + c.MaxDist()
    ensures w'.lookahead == w.lookahead && w'.nextIn == w.nextIn
    ensures w.strStart < c.wSize + c.MaxDist() ==> w' == w
  {
    w' := w;
    if w.strStart >= c.wSize + c.MaxDist() {
      MovedDownOk(c, w.b);
      var start := w.strStart - c.wSize;
      w' := w.(b := MovedDown(c, w.b), strStart := start, insert := Min(w.insert, start));
    }
  }

  /** The free space at the end of the window. */
  function Free(c: Sizes, w: Window): int {
    2 * c.wSize - w.lookahead - w.strStart
  }

  /** Read into the free space at the end of the window: two bytes of it at least, and all of it
      if there is as much input. */
  method ReadMore(c: Sizes, w: Window) returns (w': Window)
    requires w.Valid(c) && w.nextIn != []
    requires w.lookahead < MIN_LOOKAHEAD && w.strStart < c.wSize + c.MaxDist()
    ensures w'.Valid(c) && Refilled(c, w, w') && w'.strStart == w.strStart
    ensures Free(c, w) >= 2 && |w.nextIn| - |w'.nextIn| == w'.lookahead - w.lookahead == Min(Free(c, w), |w.nextIn|)
  {
    var more := Free(c, w);
    var n := Min(more, |w.nextIn|);
    AppendedOk(c, w.b, w.nextIn[..n]);
    w' := InsertPending(c, w.(b := Appended(w.b, w.nextIn[..n]), lookahead := w.lookahead + n, nextIn := w.nextIn[n..]));
  }

  /** One pass of the loop in fill_window: make room and read. */
  method RefillOnce(c: Sizes, w: Window) returns (w': Window)
    requires w.Valid(c) && w.lookahead < MIN_LOOKAHEAD
    ensures w'.Valid(c) && Refilled(c, w, w') && w'.strStart < c.wSize + c.MaxDist()
    ensures w.strStart < c.wSize + c.MaxDist() ==> w'.strStart == w.strStart
    ensures if w.nextIn == [] then w'.nextIn == [] && w'.lookahead == w.lookahead else |w'.nextIn| < |w.nextIn|
  {
    var roomy := MakeRoom(c, w);
    if |roomy.nextIn| == 0 {
      return roomy;
    }
    w' := ReadMore(c, roomy);
    RefilledTransitive(c, w, roomy, w');
  }

  /** The loop of fill_window. */
  method Refill(c: Sizes, w: Window) returns (w': Window)
    requires w.Valid(c) && w.lookahead < MIN_LOOKAHEAD
    ensures w'.Valid(c) && Refilled(c, w, w')
    ensures w'.strStart < c.wSize + c.MaxDist()
    ensures w'.lookahead >= MIN_LOOKAHEAD || w'.nextIn == []
  {
    w' := RefillOnce(c, w);
    while w'.lookahead < MIN_LOOKAHEAD && |w'.nextIn| != 0
      invariant w'.Valid(c) && Refilled(c, w, w') && w'.strStart < c.wSize + c.MaxDist()
      decreases |w'.nextIn|
    {
      ghost var before := w';
      w' := RefillOnce(c, w');
      RefilledTransitive(c, w, before, w');
    }
  }

  /** Zero n bytes from at on. */
  function Zeroed(b: Buffers, at: nat, n: nat): Buffers
    requires at + n <= |b.bytes|
  {
    b.(bytes := b.bytes[..at] + seq(n, _ => 0) + b.bytes[at + n..])
  }

  /** The bytes from `from` to `to` are zero and the others as they were. */
  ghost predicate ZeroBetween(s: seq<Byte>, s': seq<Byte>, from: int, to: int) {
    |s'| == |s| && forall i :: 0 <= i < |s| ==> s'[i] == if from <= i < to then 0 else s[i]
  }

  lemma ZeroedOk(c: Sizes, b: Buffers, at: nat, n: nat)
    requires b.Ok(c) && b.End() <= at && at + n <= |b.bytes|
    ensures Zeroed(b, at, n).Ok(c)
    ensures ZeroBetween(b.bytes, Zeroed(b, at, n).bytes, at, at + n)
  {
  }

  /** Zero the bytes after the data that were never written, and no others, for the match loops
      that read past the lookahead. */
  method ZeroAhead(c: Sizes, w: Window) returns (w': Window)
    requires w.Valid(c)
    ensures w'.Valid(c) && w' == w.(b := w.b.(bytes := w'.b.bytes), highWater := w'.highWater)
    ensures w'.highWater >= Min(|w.b.bytes|, w.strStart + w.lookahead + WIN_INIT)
    ensures ZeroBetween(w.b.bytes, w'.b.bytes, Max(w.strStart + w.lookahead, w.highWater), w'.highWater)
  {
    w' := w;
    var curr := w.strStart + w.lookahead;
    if w.highWater < |w.b.bytes| {
      var at := Max(curr, w.highWater);
      var init := if w.highWater < curr then Min(|w.b.bytes| - curr, WIN_INIT)
                  else Min(curr + WIN_INIT - w.highWater, |w.b.bytes| - w.highWater);
      if w.highWater < curr + WIN_INIT {
        ZeroedOk(c, w.b, at, init);
        w' := w.(b := Zeroed(w.b, at, init), highWater := at + init);
      }
    }
  }

  /** fill_window. The window moves down by 0 or w_size over the same input and reads on
      until there is enough lookahead or no input; the current string stays the same. */
  method FillWindow(c: Sizes, w: Window) returns (w': Window)
    requires w.Valid(c) && w.lookahead < MIN_LOOKAHEAD
    ensures w'.Valid(c) && Refilled(c, w, w')
    ensures w'.strStart <= 2 * c.wSize - MIN_LOOKAHEAD
    ensures w'.lookahead >= MIN_LOOKAHEAD || w'.nextIn == []
    ensures w'.highWater >= Min(2 * c.wSize, w'.strStart + w'.lookahead + WIN_INIT)
  {
    w' := Refill(c, w);
    w' := ZeroAhead(c, w');
  }

  /** The current string has had its turn: it is inserted if it has three bytes. */
  ghost predicate Passed(c: Sizes, w: Window) {
    && w.b.Ok(c) && w.strStart + w.lookahead == w.b.End() && w.insert <= w.strStart
    && w.b.hist.next <= w.Cur() + 1 - w.insert
    && (w.lookahead >= MIN_MATCH ==> w.insert == 0 && ReadyAt(c, w.b.bytes, w.insH, w.strStart + 1))
  }

  /** hash_head for the current string: the latest earlier string of its slot, or NIL if there is none
      or the current string is too short to have been inserted. */
  ghost predicate HeadsChain(c: Sizes, w: Window, hashHead: Pos) {
    if w.lookahead < MIN_MATCH then hashHead == NIL
    else
      && w.b.hist.next == w.Cur() + 1 && w.Cur() in w.b.hist.inserted && w.strStart + 3 <= w.b.End()
      && (hashHead != NIL ==> hashHead < w.strStart && w.b.hist.Filed(c.hash, hashHead, w.b.SlotOf(c, w.strStart)))
      && w.b.hist.Latest(c.hash, hashHead, w.b.SlotOf(c, w.strStart), w.Cur())
  }

  /** Insert the current string if it has three bytes and find the head of its chain. */
  method InsertCurrent(c: Sizes, w: Window) returns (w': Window, hashHead: Pos)
    requires w.Valid(c)
    ensures Passed(c, w') && SameInput(w, w') && HeadsChain(c, w', hashHead)
    ensures w.lookahead >= MIN_MATCH ==> FiledAt(c, w.b, w'.b, w.strStart)
    ensures w.lookahead < MIN_MATCH ==> w' == w
  {
    w', hashHead := w, NIL;
    if w.lookahead >= MIN_MATCH {
      var b, h;
      b, h, hashHead := InsertString(c, w.b, w.insH, w.strStart);
      w' := w.(b := b, insH := h);
      var slot := w.b.SlotOf(c, w.strStart);
      assert w.b.hist.Filed(c.hash, w.b.head[slot], slot) && w.b.hist.Latest(c.hash, w.b.head[slot], slot, w.b.hist.next);
    }
  }

  function Advance(w: Window): Window
    requires w.lookahead > 0
  {
    w.(strStart := w.strStart + 1, lookahead := w.lookahead - 1)
  }

  lemma AdvanceOk(c: Sizes, w: Window)
    requires Passed(c, w) && w.lookahead > 0
    ensures Advance(w).Valid(c)
  {
  }

  /** The window w' stands n bytes further on in the same input. */
  ghost predicate Skipped(w: Window, w': Window, n: nat) {
    && w'.b.bytes == w.b.bytes && w'.b.hist.stream == w.b.hist.stream && w'.b.hist.base == w.b.hist.base
    && w'.strStart == w.strStart + n && w'.lookahead == w.lookahead - n && w'.nextIn == w.nextIn
  }

  /** The same window bytes and input, whatever has been inserted. */
  ghost predicate SameBytes(b: Buffers, b': Buffers) {
    b'.bytes == b.bytes && b'.hist.stream == b.hist.stream && b'.hist.base == b.hist.base
  }

  /** The strings at from..from + n have had their turn of insertion, as far as maxInsert. */
  ghost predicate RunInserted(b: Buffers, b': Buffers, from: nat, n: nat, maxInsert: int) {
    && SameBytes(b, b') && b'.hist.next <= b.hist.base + from + n
    && (forall p :: p in b'.hist.inserted <==>
         p in b.hist.inserted || (b.hist.base + from <= p < b.hist.base + from + n && p <= b.hist.base + maxInsert))
  }

  lemma RunGrows(b: Buffers, b1: Buffers, b2: Buffers, from: nat, n: nat, maxInsert: int)
    requires RunInserted(b, b1, from, n, maxInsert) && SameBytes(b1, b2)
    requires if from + n <= maxInsert then b2.hist == b1.hist.Insert(b.hist.base + from + n) else b2.hist == b1.hist
    ensures RunInserted(b, b2, from, n + 1, maxInsert)
  {
  }

  lemma RunNone(b: Buffers, from: nat, maxInsert: int)
    requires b.hist.next <= b.hist.base + from
    ensures RunInserted(b, b, from, 0, maxInsert)
  {
  }

  /** INSERT_STRING for the string at str, unless it is beyond maxInsert. */
  method InsertUpTo(c: Sizes, b: Buffers, h: bv16, str: nat, maxInsert: int) returns (b': Buffers, h': bv16)
    requires b.Ok(c) && b.hist.next <= b.hist.base + str && maxInsert + 3 <= b.End()
    requires str <= maxInsert ==> ReadyAt(c, b.bytes, h, str)
    ensures b'.Ok(c) && SameBytes(b, b')
    ensures if str <= maxInsert then b'.hist == b.hist.Insert(b.hist.base + str) && ReadyAt(c, b'.bytes, h', str + 1)
            else b' == b
  {
    b', h' := b, h;
    if str <= maxInsert {
      var older;
      b', h', older := InsertString(c, b, h, str);
    }
  }

  /** INSERT_STRING for n strings from `from` on, none beyond maxInsert. */
  method InsertRun(c: Sizes, b: Buffers, h: bv16, from: nat, n: nat, maxInsert: int) returns (b': Buffers, h': bv16)
    requires b.Ok(c) && b.hist.next <= b.hist.base + from && maxInsert + 3 <= b.End()
    requires from <= maxInsert + 1 ==> ReadyAt(c, b.bytes, h, from)
    ensures b'.Ok(c) && RunInserted(b, b', from, n, maxInsert)
    ensures from + n <= maxInsert + 1 ==> ReadyAt(c, b'.bytes, h', from + n)
    ensures from > maxInsert ==> b' == b
  {
    b', h' := b, h;
    RunNone(b, from, maxInsert);
    for k := 0 to n
      invariant b'.Ok(c) && RunInserted(b, b', from, k, maxInsert)
      invariant from + k <= maxInsert + 1 ==> ReadyAt(c, b'.bytes, h', from + k)
      invariant from > maxInsert ==> b' == b
    {
      ghost var b1 := b';
      b', h' := InsertUpTo(c, b', h', from + k, maxInsert);
      RunGrows(b, b1, b', from, k, maxInsert);
    }
  }
}
