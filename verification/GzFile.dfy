/**
 gzread, gzgetc, gzgets, gzrewind, gzseek64 and gztell64 on a file open for reading. Whatever
 the sequence of calls, they deliver the decoded file at the position that gztell64 reports.
 */
module GzFile {
  import opened Arith
  import opened Bits
  import opened Wrappers
  import opened GzLayout
  import opened GzSeek
  import opened GzRead

  /** Z_OK; Z_BUF_ERROR, which is reported but not serious; or a serious error. */
  datatype Err = NoError | BufferError | Serious

  /** The outcome of a call that asks for len bytes at position t: data is delivered and the
      position moves to t'. Fewer bytes than asked for mean the end of the decoded file, and a
      position beyond that end may be taken back to it. */
  ghost predicate Delivered(l: Layout, t: nat, len: nat, data: seq<Octet>, t': nat) {
    && |data| <= len && t' <= t + |data|
    && (data != [] ==> t' == t + |data| <= |l.Decoded()| && data == l.Decoded()[t..t'])
    && (l.Sound() ==> DeliveredSound(|l.Decoded()|, t, len, |data|, t'))
  }

  /** What more holds when no member of the file is cut off or corrupt. */
  ghost predicate DeliveredSound(end: nat, t: nat, len: nat, n: nat, t': nat) {
    && (n < len ==> t + n >= end)
    && (t <= end ==> t' == t + n)
    && (t > end ==> end <= t' <= t)
  }

  /** The outcome of gzgets: as many bytes, but none after the first newline. */
  ghost predicate GotLine(l: Layout, t: nat, left: nat, data: seq<Octet>, t': nat) {
    && |data| <= left && OneLine(data)
    && Delivered(l, t, if Ended(data) then |data| else left, data, t')
  }

  /** The skip that a pending seek asks for has been made as far as the file goes. */
  ghost predicate SkippedTo(l: Layout, t: nat, g: Gz) {
    && Consistent(l, g) && g.pos <= t && (g.pos < t ==> g.x == [] && g.AtEnd())
  }

  lemma DeliveredFrom(l: Layout, t: nat, g: Gz, len: nat, g': Gz, data: seq<Octet>)
    requires SkippedTo(l, t, g) && Consistent(l, g') && g'.pos == g.pos + |data| && IsNext(l, g.pos, data) && |data| <= len
    requires |data| < len ==> g'.x == [] && g'.AtEnd()
    requires g.x == [] && g.AtEnd() ==> data == []
    ensures Delivered(l, t, len, data, g'.pos)
  {
    if l.Sound() {
      if |data| < len {
        NothingLeft(l, g');
      }
      if g.pos < t {
        NothingLeft(l, g);
      }
    }
  }

  /** gz_read after the skip. */
  method ReadAt(l: Layout, size: nat, g: Gz, ghost t: nat, len: nat) returns (ok: bool, cut: bool, g': Gz, data: seq<Octet>)
    requires SkippedTo(l, t, g) && size >= 8
    ensures l.Fine() ==> ok && !cut
    ensures ok ==> Consistent(l, g') && Delivered(l, t, len, data, g'.pos)
  {
    ok, cut, g', data := ReadLoop(l, size, g, len);
    if ok {
      DeliveredFrom(l, t, g, len, g', data);
    }
  }

  /** gzgets after the skip. */
  method GetsAt(l: Layout, size: nat, g: Gz, ghost t: nat, left: nat) returns (ok: bool, cut: bool, past: bool, g': Gz, data: seq<Octet>)
    requires SkippedTo(l, t, g) && size >= 8
    ensures l.Fine() ==> ok && !cut
    ensures ok ==> Consistent(l, g') && GotLine(l, t, left, data, g'.pos)
  {
    ok, cut, past, g', data := GetsLoop(l, size, g, left);
    if ok {
      DeliveredFrom(l, t, g, if Ended(data) then |data| else left, g', data);
    }
  }

  class GzReader {
    const layout: Layout
    const size: nat
    var g: Gz
    var past: bool
    var seek: bool
    var skip: int
    var err: Err

    /** A pending seek means that the output buffer is empty, so gzgetc need not look for one. */
    ghost predicate Lazy()
      reads this
    {
      seek ==> g.x == [] && skip > 0
    }

    ghost predicate Valid()
      reads this
    {
      size >= 8 && (err.Serious? || (Consistent(layout, g) && Lazy()))
    }

    /** gztell64. */
    function Tell(): int
      reads this
    {
      g.pos + if seek then skip else 0
    }

    constructor (l: Layout, want: nat)
      requires l.Ok() && want >= 8
      ensures Valid() && err.NoError? && layout == l && Tell() == 0
    {
      layout, size := l, want;
      g := Gz(LOOK, 0, [], [], 0, false, true, 0);
      past, seek, skip, err := false, false, 0, NoError;
      new;
      StartOk(l, true);
    }

    /** What a failed or incomplete operation reports. */
    method Report(ok: bool, cut: bool)
      modifies `err
      ensures err == if !ok then Serious else if cut then BufferError else old(err)
    {
      if !ok {
        err := Serious;
      } else if cut {
        err := BufferError;
      }
    }

    /** A pending seek is carried out. */
    method CarryOutSeek() returns (ok: bool)
      requires Valid() && !err.Serious?
      modifies this
      ensures Valid() && (ok <==> !err.Serious?) && (ok ==> err == old(err) || err.BufferError?)
      ensures ok ==> !seek && SkippedTo(layout, old(Tell()), g)
      ensures layout.Fine() ==> ok && err == old(err)
    {
      ok := true;
      if seek {
        seek := false;
        var cut, g1;
        ok, cut, g1 := GzSkip(layout, size, g, skip);
        g := g1;
        Report(ok, cut);
      }
    }

    /** The state after reading. */
    method Finish(ok: bool, cut: bool, p: bool, g1: Gz)
      requires Valid() && !err.Serious? && !seek && (ok ==> Consistent(layout, g1))
      modifies this
      ensures Valid() && (ok <==> !err.Serious?) && (ok ==> err == old(err) || err.BufferError?)
      ensures ok ==> Tell() == g1.pos && (!cut ==> err == old(err))
    {
      g, past := g1, past || p;
      Report(ok, cut);
    }

    /** gzread. A request that does not fit in an int is an error. */
    method Read(len: nat) returns (r: Option<seq<Octet>>)
      requires Valid()
      modifies this
      ensures Valid() && (r.None? <==> err.Serious?) && (old(err).Serious? ==> r.None?)
      ensures layout.Fine() && !old(err).Serious? && len < 0x8000_0000 ==> r.Some? && err == old(err)
      ensures len >= 0x8000_0000 ==> r.None?
      ensures r.Some? ==> (err == old(err) || err.BufferError?) && Delivered(layout, old(Tell()), len, r.value, Tell())
    {
      if err.Serious? {
        return None;
      }
      if len >= 0x8000_0000 {
        err := Serious;
        return None;
      }
      if len == 0 {
        return Some([]);
      }
      ghost var t := Tell();
      var ok := CarryOutSeek();
      if !ok {
        return None;
      }
      var cut, g1, data;
      ok, cut, g1, data := ReadAt(layout, size, g, t, len);
      Finish(ok, cut, ok && |data| < len, g1);
      r := if ok then Some(data) else None;
    }

    /** gzgetc: a byte from the output buffer if there is one. */
    method Getc() returns (r: Option<seq<Octet>>)
      requires Valid()
      modifies this
      ensures Valid() && (r.None? <==> err.Serious?) && (old(err).Serious? ==> r.None?)
      ensures layout.Fine() && !old(err).Serious? ==> r.Some? && err == old(err)
      ensures r.Some? ==> (err == old(err) || err.BufferError?) && Delivered(layout, old(Tell()), 1, r.value, Tell())
    {
      if err.Serious? {
        return None;
      }
      if |g.x| != 0 {
        TakenOk(layout, g, 1);
        r := Some([g.x[0]]);
        assert g.x[..1] == [g.x[0]];
        g := Taken(g, 1);
        return;
      }
      r := Read(1);
    }

    /** gzgets with a buffer of len bytes, one of them for the terminator. */
    method Gets(len: nat) returns (r: Option<seq<Octet>>)
      requires Valid() && len >= 1
      modifies this
      ensures Valid() && (r.None? <==> err.Serious?) && (old(err).Serious? ==> r.None?)
      ensures layout.Fine() && !old(err).Serious? ==> r.Some? && err == old(err)
      ensures r.Some? ==> (err == old(err) || err.BufferError?) && GotLine(layout, old(Tell()), len - 1, r.value, Tell())
    {
      if err.Serious? {
        return None;
      }
      ghost var t := Tell();
      var ok := CarryOutSeek();
      if !ok {
        return None;
      }
      var cut, p, g1, data;
      ok, cut, p, g1, data := GetsAt(layout, size, g, t, len - 1);
      Finish(ok, cut, p, g1);
      r := if ok then Some(data) else None;
    }

    /** gzrewind. lseek may fail. */
    method Rewind() returns (ok: bool)
      requires Valid()
      modifies this
      ensures Valid() && (ok ==> err.NoError? && Tell() == 0 && !seek && g.x == [])
      ensures layout.reliable && !old(err).Serious? ==> ok
      ensures !ok ==> g == old(g) && seek == old(seek) && skip == old(skip) && err == old(err) && past == old(past)
    {
      if err.Serious? {
        return false;
      }
      var fails: bool :| fails ==> !layout.reliable;
      if fails {
        return false;
      }
      StartOk(layout, g.direct);
      g := Gz(LOOK, 0, [], [], 0, false, g.direct, 0);
      past, seek, err := false, false, NoError;
      return true;
    }

    /** gzseek64: the new position, or -1; then a seek that was pending may be forgotten. */
    method Seek(offset: int, whence: Whence) returns (r: int)
      requires Valid()
      modifies this
      ensures Valid() && (r == -1 || r >= 0)
      ensures r >= 0 ==> r == Tell() == Target(offset, whence, old(Tell()))
      ensures r >= 0 ==> r == if whence.SeekCur? then old(Tell()) + offset else offset
      ensures old(err).Serious? || Refuses(offset, whence, old(Tell()), 0) ==> r == -1
      ensures r == -1 && layout.reliable ==> old(err).Serious? || Refuses(offset, whence, old(Tell()), 0)
      ensures r >= 0 ==> !err.Serious? && (err == old(err) || err.NoError?)
      ensures r < 0 ==> err == old(err) && (Tell() == old(Tell()) || Tell() == old(g).pos)
    {
      if err.Serious? || whence.SeekEnd? {
        return -1;
      }
      var move := if whence.SeekSet? then offset - g.pos else if seek then offset + skip else offset;
      seek := false;
      if g.how.COPY? && g.pos + move >= 0 {
        r := SeekCopy(move);
        return;
      }
      if move < 0 {
        move := move + g.pos;
        if move < 0 {
          return -1;
        }
        var ok := Rewind();
        if !ok {
          return -1;
        }
      }
      r := SkipBuffered(move);
    }

    /** Skip what is in the output buffer and leave the rest of the skip pending. */
    method SkipBuffered(move: nat) returns (r: int)
      requires Valid() && !err.Serious? && !seek
      modifies this
      ensures Valid() && err == old(err) && r == Tell() == old(g).pos + move
    {
      var n := Min(|g.x|, move);
      TakenOk(layout, g, n);
      g := Taken(g, n);
      if move - n != 0 {
        seek, skip := true, move - n;
      }
      return g.pos + (move - n);
    }

    /** Seeking in a file that is not compressed: lseek, which may fail. */
    method SeekCopy(move: int) returns (r: int)
      requires Valid() && !err.Serious? && !seek && g.how.COPY? && g.pos + move >= 0
      modifies this
      ensures Valid() && !seek
      ensures r == -1 || (r == Tell() == old(g).pos + move && err.NoError?)
      ensures r == -1 ==> g == old(g) && err == old(err) && !layout.reliable
    {
      var fails: bool :| fails ==> !layout.reliable;
      if fails {
        return -1;
      }
      SeekCopyOk(layout, g, g.pos + move);
      g := g.(off := g.off + move - |g.x|, input := [], x := [], pos := g.pos + move, eof := false);
      past, err := false, NoError;
      return g.pos;
    }
  }

  lemma StartOk(l: Layout, direct: bool)
    requires l.Ok() && (l.Raw? ==> direct)
    ensures Consistent(l, Gz(LOOK, 0, [], [], 0, false, direct, 0))
  {
    StartsAtZero(l);
    assert l.File()[0..0] == [];
  }

  lemma SeekCopyOk(l: Layout, g: Gz, target: nat)
    requires Consistent(l, g) && g.how.COPY?
    ensures g.off - |g.x| == g.pos
    ensures Consistent(l, g.(off := target, input := [], x := [], pos := target, eof := false))
  {
    if target <= |l.File()| {
      assert l.File()[target..target] == [];
    }
  }

  datatype Op = Read(len: nat) | Getc | Gets(len: nat) | Rewind | Seek(offset: int, whence: Whence) | Tell

  /** A call that reported no error: the position before it, what it delivered or returned,
      and the position after it. */
  datatype Event = Event(op: Op, before: nat, data: seq<Octet>, result: int, after: nat)

  /** The call did what it would do on the decoded file with a position. */
  ghost predicate Refines(l: Layout, e: Event) {
    match e.op
    case Read(len) => Delivered(l, e.before, len, e.data, e.after)
    case Getc => Delivered(l, e.before, 1, e.data, e.after)
    case Gets(len) => len >= 1 && GotLine(l, e.before, len - 1, e.data, e.after)
    case Rewind => e.after == 0
    case Seek(offset, whence) => e.result == e.after == if whence.SeekCur? then e.before + offset else offset
    case Tell => e.result == e.before == e.after
  }

  /** Each call starts at the position where the one before it ended, the first at 0. */
  ghost predicate Chained(events: seq<Event>, at: nat) {
    && (events != [] ==> events[0].before == 0 && events[|events| - 1].after == at)
    && (events == [] ==> at == 0)
    && forall i :: 0 < i < |events| ==> events[i].before == events[i - 1].after
  }

  /** At position t the call asks for what cannot be: a length that does not fit in an int, a buffer
      without room for the terminator, or a seek from the end or to before the start. */
  predicate Rejected(op: Op, t: int) {
    match op
    case Read(len) => len >= 0x8000_0000
    case Gets(len) => len < 1
    case Seek(offset, whence) => Refuses(offset, whence, t, 0)
    case _ => false
  }

  /** One call. It reports an error exactly if it is rejected, unless something fails or the file is
      not sound. */
  method Perform(f: GzReader, op: Op) returns (ok: bool, e: Event)
    requires f.Valid() && f.err.NoError?
    modifies f
    ensures f.Valid() && (ok ==> f.err.NoError? && e.op == op && Refines(f.layout, e))
    ensures ok ==> e.before == old(f.Tell()) && e.after == f.Tell()
    ensures ok ==> !Rejected(op, old(f.Tell()))
    ensures !ok && f.layout.Fine() ==> Rejected(op, old(f.Tell()))
  {
    var before := f.Tell();
    var data, result := [], 0;
    ok := true;
    match op {
      case Read(len) =>
        var r := f.Read(len);
        ok, data := r.Some?, if r.Some? then r.value else [];
      case Getc =>
        var r := f.Getc();
        ok, data := r.Some?, if r.Some? then r.value else [];
      case Gets(len) =>
        if len < 1 {
          ok := false;
        } else {
          var r := f.Gets(len);
          ok, data := r.Some?, if r.Some? then r.value else [];
        }
      case Rewind =>
        ok := f.Rewind();
      case Seek(offset, whence) =>
        result := f.Seek(offset, whence);
        ok := result >= 0;
      case Tell =>
        result := before;
    }
    ok := ok && f.err.NoError?;
    e := Event(op, before, data, result, if ok then f.Tell() else 0);
  }

  /** Any run of calls up to the first that reports an error. On a sound file on which nothing fails
      that is the first call that is rejected at the position reached. */
  method Run(l: Layout, want: nat, ops: seq<Op>) returns (events: seq<Event>, at: nat, clean: bool)
    requires l.Ok() && want >= 8
    ensures |events| <= |ops| && (clean <==> |events| == |ops|)
    ensures forall i :: 0 <= i < |events| ==> events[i].op == ops[i] && Refines(l, events[i])
    ensures forall i :: 0 <= i < |events| ==> !Rejected(ops[i], events[i].before)
    ensures Chained(events, at)
    ensures l.Fine() && !clean ==> Rejected(ops[|events|], at)
  {
    var f := new GzReader(l, want);
    events, clean, at := [], true, 0;
    while |events| < |ops|
      invariant f.Valid() && f.layout == l && f.err.NoError? && at == f.Tell() && |events| <= |ops|
      invariant forall i :: 0 <= i < |events| ==> events[i].op == ops[i] && Refines(l, events[i])
      invariant forall i :: 0 <= i < |events| ==> !Rejected(ops[i], events[i].before)
      invariant clean && Chained(events, at)
    {
      var ok, e := Perform(f, ops[|events|]);
      if !ok {
        clean := false;
        return;
      }
      events, at := events + [e], e.after;
    }
  }
}
