/**
 gz_write with the seeks between writes: small writes gather in an input buffer, large ones go
 straight to deflate() (or to write(), for a file that is not compressed), and a pending seek
 becomes zeros. What has been handed on, with what waits in the buffer, is always the
 concatenation of what was asked for.
 */
module GzWrite {
  import opened Sequences
  import opened Arith
  import opened Bits
  import opened GzSeek

  function ZeroBytes(n: nat): (s: seq<Octet>)
    ensures |s| == n
  {
    seq(n, _ => 0)
  }

  /** write(): some of the bytes, or, on a file that is not reliable, an error. */
  method WriteFile(put: nat, reliable: bool) returns (writ: int)
    requires put > 0
    ensures writ == -1 || 0 < writ <= put
    ensures reliable ==> writ > 0
  {
    assert 1 <= put;
    var n: nat :| 0 < n <= put;
    var fails: bool :| fails ==> !reliable;
    writ := if fails then -1 else n;
  }

  /** deflate() with Z_NO_FLUSH, as far as its contract is known here: it stops only when the
      input is used up or the room for output is, so if it makes no output although there is
      room it has used all the input. What it makes without using input it owed before. */
  method CallDeflate(availIn: nat, availOut: nat, owed: nat) returns (used: nat, made: seq<Octet>, owed': nat)
    requires availOut > 0
    ensures used <= availIn && |made| <= availOut
    ensures made == [] ==> used == availIn
    ensures used == 0 ==> |made| + owed' == owed
  {
    var out: seq<Octet> :| |out| <= availOut;
    used :| used <= availIn;
    owed' :| owed' >= 0;
    if |out| == 0 || (used == 0 && |out| > owed) {
      used := availIn;
    }
    made := if used == 0 && |out| > owed then out[..owed] else out;
    if used == 0 {
      owed' := owed - |made|;
    }
  }

  class GzWriter {
    /** Write without compressing. */
    const direct: bool
    const want: nat
    /** write() never fails. */
    const reliable: bool
    /** 0 until the buffers are allocated. */
    var size: nat
    /** The input buffer, and strm.next_in and avail_in: a place in that buffer, or in the
        user's when own is false. */
    var inBuf: array<Octet>
    var own: bool
    var user: seq<Octet>
    var nextIn: nat
    var availIn: nat
    /** x.next up to strm.next_out in the output buffer, and strm.avail_out. */
    var waiting: seq<Octet>
    var availOut: nat
    var pos: nat
    var seek: bool
    var skip: int
    var failed: bool
    /** What deflate() still has to put out. */
    var owed: nat
    /** What has been handed to deflate(), or written in direct mode; what deflate() has made;
        what has been written to the file. */
    ghost var handed: seq<Octet>
    ghost var made: seq<Octet>
    ghost var file: seq<Octet>

    /** The bytes at next_in. */
    ghost function Input(): seq<Octet>
      reads `own, `inBuf, `user, `nextIn, `availIn, inBuf
      requires Pointers()
    {
      if own then inBuf[nextIn..nextIn + availIn] else user[nextIn..nextIn + availIn]
    }

    ghost predicate Pointers()
      reads `own, `inBuf, `user, `nextIn, `availIn
    {
      nextIn + availIn <= if own then inBuf.Length else |user|
    }

    /** The file and the output buffer hold what was made, in order. */
    ghost predicate Packed()
      reads `file, `waiting, `made, `availOut, `size
    {
      file + waiting == made && |waiting| + availOut <= size
    }

    ghost predicate OutputOk()
      reads `file, `handed, `waiting, `made, `availOut, `size
    {
      if direct then file == handed else Packed()
    }

    ghost predicate Buffers()
      reads this
    {
      && want >= 8 && (size == 0 || size == want)
      && (size == want ==> inBuf.Length == 2 * size)
      && (size == 0 ==> availIn == 0 && handed == [] && waiting == [] && made == [] && file == [])
    }

    ghost predicate Core()
      reads this
    {
      Pointers() && Buffers() && OutputOk()
    }

    /** Between calls, unless there was an error. */
    ghost predicate Valid()
      reads this, inBuf
    {
      failed || (Core() && Gathered() && (seek ==> skip > 0) && pos == |Written()|)
    }

    /** Bytes that wait are in the input buffer, from its start, and no more than size of them. */
    ghost predicate Gathered()
      reads `own, `nextIn, `availIn, `size
    {
      availIn > 0 ==> own && nextIn == 0 && availIn <= size
    }

    /** What has been handed on and what waits. */
    ghost function Written(): seq<Octet>
      reads `own, `inBuf, `user, `nextIn, `availIn, `handed, inBuf
      requires Pointers()
    {
      handed + Input()
    }

    constructor (want: nat, direct: bool, reliable: bool)
      requires want >= 8
      ensures Valid() && !failed && pos == 0 && Written() == [] && !seek
      ensures this.want == want && this.direct == direct && this.reliable == reliable
      ensures fresh(inBuf)
    {
      this.want, this.direct, this.reliable := want, direct, reliable;
      size, inBuf, own, user, nextIn, availIn := 0, new Octet[0], true, [], 0, 0;
      waiting, availOut, pos, seek, skip, failed, owed := [], 0, 0, false, 0, false, 0;
      handed, made, file := [], [], [];
    }

    /** gz_init: allocate the buffers. */
    method GzInit()
      requires Core() && size == 0 && !failed
      modifies this
      ensures Core() && size == want && availIn == 0 && own && handed == [] && fresh(inBuf)
      ensures pos == old(pos) && seek == old(seek) && skip == old(skip) && !failed
    {
      inBuf := new Octet[2 * want];
      size, own, nextIn := want, true, 0;
      if !direct {
        availOut := size;
      }
    }

    /** The first n bytes at next_in are handed on. */
    method Consume(n: nat)
      requires Pointers() && n <= availIn
      modifies `nextIn, `availIn, `handed
      ensures Pointers() && availIn == old(availIn) - n && Written() == old(Written())
    {
      ghost var input := Input();
      handed := handed + input[..n];
      nextIn, availIn := nextIn + n, availIn - n;
      assert Input() == input[n..];
      MovedOver(old(handed), input, n);
    }

    /** Write out the compressed bytes in the output buffer. */
    method WriteOut() returns (ok: bool)
      requires Packed()
      modifies `waiting, `file
      ensures Packed() && (ok ==> waiting == []) && (reliable ==> ok)
    {
      while |waiting| > 0
        invariant Packed() && |waiting| <= |old(waiting)|
        decreases |waiting|
      {
        var writ := WriteFile(Min(|waiting|, 0x4000_0000), reliable);
        if writ < 0 {
          return false;
        }
        assert file + waiting[..writ] + waiting[writ..] == file + waiting;
        file, waiting := file + waiting[..writ], waiting[writ..];
      }
      return true;
    }

    method ConsumeDirect(n: nat)
      requires Pointers() && n <= availIn && direct && file == handed
      modifies `nextIn, `availIn, `handed, `file
      ensures Pointers() && availIn == old(availIn) - n && Written() == old(Written()) && file == handed
    {
      Consume(n);
      file := handed;
    }

    /** Everything at next_in written without compressing. */
    method WriteDirect() returns (ok: bool)
      requires Core() && direct
      modifies `nextIn, `availIn, `handed, `file
      ensures Pointers() && OutputOk() && Written() == old(Written()) && (ok ==> availIn == 0) && (reliable ==> ok)
    {
      while availIn > 0
        invariant Pointers() && OutputOk() && Written() == old(Written())
        decreases availIn
      {
        var writ := WriteFile(Min(availIn, 0x4000_0000), reliable);
        if writ < 0 {
          return false;
        }
        ConsumeDirect(writ);
      }
      return true;
    }

    method MakeRoom() returns (ok: bool)
      requires Packed() && size > 0 && Pointers()
      modifies `waiting, `file, `availOut
      ensures Packed() && (ok ==> availOut > 0) && Pointers() && Written() == old(Written()) && (reliable ==> ok)
    {
      ok := true;
      if availOut == 0 {
        ok := WriteOut();
        if ok {
          availOut := size;
        }
      }
    }

    /** Make room in the output buffer, and let deflate() work. */
    method DeflateOnce() returns (ok: bool, have: nat)
      requires Pointers() && Packed() && size > 0
      modifies `nextIn, `availIn, `handed, `waiting, `availOut, `made, `file, `owed
      ensures Pointers() && Packed() && Written() == old(Written())
      ensures reliable ==> ok
      ensures ok && have == 0 ==> availIn == 0
      ensures ok && have > 0 ==> availIn < old(availIn) || (availIn == old(availIn) && owed < old(owed))
    {
      have := 0;
      ok := MakeRoom();
      if !ok {
        return;
      }
      var used, out, later := CallDeflate(availIn, availOut, owed);
      Consume(used);
      TakeOutput(out);
      owed, ok, have := later, true, |out|;
    }

    /** The bytes that deflate() has made. */
    method TakeOutput(out: seq<Octet>)
      requires Packed() && |out| <= availOut && Pointers()
      modifies `waiting, `made, `availOut
      ensures Packed() && Pointers() && Written() == old(Written())
    {
      assert file + (waiting + out) == file + waiting + out;
      waiting, made, availOut := waiting + out, made + out, availOut - |out|;
    }

    /** gz_comp with Z_NO_FLUSH: everything at next_in is handed on. */
    method GzComp() returns (ok: bool)
      requires Core() && size == want && !failed
      modifies `nextIn, `availIn, `handed, `waiting, `availOut, `made, `file, `owed, `failed
      ensures ok ==> Core() && availIn == 0 && handed == old(Written()) && !failed
      ensures !ok ==> failed && !reliable
    {
      if direct {
        ok := WriteDirect();
      } else {
        var have := 1;
        ok := true;
        while ok && have != 0
          invariant Pointers() && Packed() && Written() == old(Written())
          invariant !failed && (ok && have == 0 ==> availIn == 0) && (reliable ==> ok)
          decreases ok && have != 0, availIn, owed
        {
          ok, have := DeflateOnce();
        }
      }
      if !ok {
        failed := true;
      } else {
        assert Input() == [] && handed + [] == handed;
      }
    }

    /** The first n bytes of the input buffer set to zero (memset), or copied from buf. */
    method Fill(at: nat, buf: seq<Octet>)
      requires at + |buf| <= inBuf.Length
      modifies inBuf
      ensures inBuf[..at] == old(inBuf[..at]) && inBuf[at..at + |buf|] == buf
    {
      forall i | 0 <= i < |buf| {
        inBuf[at + i] := buf[i];
      }
    }

    /** The first n bytes of the input buffer handed on. */
    method HandOn(n: nat) returns (ok: bool)
      requires Core() && size == want && !failed && availIn == 0 && n <= size
      modifies `own, `nextIn, `availIn, `pos, `handed, `waiting, `availOut, `made, `file, `owed, `failed
      ensures ok ==> Core() && !failed && availIn == 0 && pos == old(pos) + n && handed == old(handed) + inBuf[..n]
      ensures !ok ==> failed && !reliable
    {
      own, nextIn, availIn, pos := true, 0, n, pos + n;
      ok := GzComp();
    }

    /** What is left in the input buffer handed on. */
    method Drain() returns (ok: bool)
      requires Core() && size == want && !failed
      modifies `nextIn, `availIn, `handed, `waiting, `availOut, `made, `file, `owed, `failed
      ensures ok ==> Core() && !failed && availIn == 0 && handed == old(Written())
      ensures !ok ==> failed && !reliable
    {
      ok := true;
      if availIn > 0 {
        ok := GzComp();
      } else {
        assert Input() == [] && handed + [] == handed;
      }
    }

    /** gz_zero: len zeros. */
    method GzZero(len: nat) returns (ok: bool)
      requires Core() && size == want && !failed
      modifies `own, `nextIn, `availIn, `pos, `handed, `waiting, `availOut, `made, `file, `owed, `failed, inBuf
      ensures ok ==> Core() && !failed && availIn == 0 && handed == old(Written()) + ZeroBytes(len) && pos == old(pos) + len
      ensures !ok ==> failed && !reliable
    {
      ok := Drain();
      if !ok {
        return;
      }
      ghost var start := handed;
      var done, n: nat := 0, Min(size, len);
      Fill(0, ZeroBytes(n));
      ZeroSum(start, 0, 0);
      while done < len
        invariant done <= len && Core() && !failed && availIn == 0
        invariant inBuf[..n] == ZeroBytes(n) && handed == start + ZeroBytes(done) && pos == old(pos) + done
      {
        var k := Min(size, len - done);
        assert inBuf[..k] == inBuf[..n][..k] == ZeroBytes(k);
        ok := HandOn(k);
        if !ok {
          return;
        }
        ZeroSum(start, done, k);
        done := done + k;
      }
    }

    /** Bytes of buf from done on copied behind what waits in the input buffer. */
    method CopyIn(buf: seq<Octet>, done: nat) returns (copy: nat)
      requires Core() && Gathered() && size == want && done <= |buf|
      modifies `own, `nextIn, `availIn, `pos, inBuf
      ensures Core() && Gathered() && done + copy <= |buf| && pos == old(pos) + copy
      ensures Written() == old(Written()) + buf[done..done + copy] && availIn == old(availIn) + copy
      ensures done < |buf| && copy == 0 ==> availIn > 0
    {
      if availIn == 0 {
        own, nextIn := true, 0;
      }
      var have := nextIn + availIn;
      copy := Min(size - have, |buf| - done);
      Append(buf[done..done + copy]);
    }

    /** memcpy behind what waits in the input buffer. */
    method Append(data: seq<Octet>)
      requires Pointers() && own && nextIn == 0 && availIn + |data| <= inBuf.Length
      modifies `availIn, `pos, inBuf
      ensures Pointers() && availIn == old(availIn) + |data| && pos == old(pos) + |data|
      ensures Written() == old(Written()) + data
    {
      ghost var was, have := inBuf[..availIn], availIn;
      Fill(availIn, data);
      availIn, pos := availIn + |data|, pos + |data|;
      Behind(inBuf[..], have, |data|, was, data, handed);
    }

    /** A write of fewer than size bytes gathers in the input buffer. */
    method Gather(buf: seq<Octet>) returns (ok: bool)
      requires Core() && Gathered() && size == want && !failed && |buf| > 0
      modifies `own, `nextIn, `availIn, `pos, `handed, `waiting, `availOut, `made, `file, `owed, `failed, inBuf
      ensures ok ==> Core() && Gathered() && !failed && Written() == old(Written()) + buf && pos == old(pos) + |buf|
      ensures !ok ==> failed && !reliable
    {
      var done: nat := 0;
      ok := true;
      assert Written() + buf[..0] == Written();
      while done < |buf|
        invariant ok && Core() && Gathered() && !failed && done <= |buf|
        invariant Written() == old(Written()) + buf[..done] && pos == old(pos) + done
        decreases |buf| - done, availIn
      {
        var copy := CopyIn(buf, done);
        NextPart(old(Written()), buf, done, copy);
        done := done + copy;
        if done < |buf| {
          ok := GzComp();
          if !ok {
            return;
          }
          assert Input() == [] && handed + [] == handed;
        }
      }
      assert buf[..|buf|] == buf;
    }

    /** n bytes of the user's buffer handed on. */
    method PassPart(buf: seq<Octet>, done: nat, n: nat) returns (ok: bool)
      requires Core() && size == want && !failed && availIn == 0 && done + n <= |buf|
      modifies `own, `user, `nextIn, `availIn, `pos, `handed, `waiting, `availOut, `made, `file, `owed, `failed
      ensures ok ==> Core() && !failed && availIn == 0 && pos == old(pos) + n && handed == old(handed) + buf[done..done + n]
      ensures !ok ==> failed && !reliable
    {
      own, user, nextIn, availIn, pos := false, buf, done, n, pos + n;
      ok := GzComp();
    }

    /** A large write is handed on from the user's buffer. */
    method PassOn(buf: seq<Octet>) returns (ok: bool)
      requires Core() && size == want && !failed && |buf| > 0
      modifies `own, `user, `nextIn, `availIn, `pos, `handed, `waiting, `availOut, `made, `file, `owed, `failed
      ensures ok ==> Core() && availIn == 0 && !failed && handed == old(Written()) + buf && pos == old(pos) + |buf|
      ensures !ok ==> failed && !reliable
    {
      ok := Drain();
      if !ok {
        return;
      }
      ghost var start := handed;
      var done: nat := 0;
      assert start + buf[..0] == start;
      while done < |buf|
        invariant ok && Core() && !failed && availIn == 0 && done <= |buf|
        invariant handed == start + buf[..done] && pos == old(pos) + done
      {
        var n := Min(|buf| - done, 0xffff_ffff);
        ok := PassPart(buf, done, n);
        if !ok {
          return;
        }
        NextPart(start, buf, done, n);
        done := done + n;
      }
      assert buf[..|buf|] == buf;
    }

    /** How many zeros a pending seek asks for. */
    function Gap(): int
      reads `seek, `skip
    {
      if seek then skip else 0
    }

    /** gz_write: what is written is what was before, a gap of zeros if a seek was pending, and
        then buf. */
    method Write(buf: seq<Octet>) returns (ok: bool)
      requires Valid()
      modifies this, inBuf
      ensures Valid() && (ok <==> !failed) && (old(failed) ==> !ok) && (reliable && !old(failed) ==> ok) && (inBuf == old(inBuf) || fresh(inBuf))
      ensures ok && |buf| > 0 ==> !seek && Written() == old(Written()) + ZeroBytes(old(Gap())) + buf
      ensures ok && |buf| == 0 ==> Written() == old(Written()) && Gap() == old(Gap())
    {
      if failed {
        return false;
      }
      if |buf| == 0 {
        return true;
      }
      if size == 0 {
        GzInit();
      }
      ok := FillGap();
      if !ok {
        return;
      }
      if |buf| < size {
        ok := Gather(buf);
      } else {
        ok := PassOn(buf);
        assert ok ==> Input() == [] && handed + [] == handed;
      }
    }

    /** A pending seek becomes zeros. */
    method FillGap() returns (ok: bool)
      requires Valid() && !failed && size == want
      modifies this, inBuf
      ensures inBuf == old(inBuf) && size == old(size) && (ok <==> !failed) && (reliable ==> ok)
      ensures ok ==> Valid() && !seek && Written() == old(Written()) + ZeroBytes(old(Gap()))
    {
      ok := true;
      if seek {
        seek := false;
        ok := GzZero(skip);
        assert ok ==> Input() == [] && handed + [] == handed;
      } else {
        assert Written() + ZeroBytes(0) == Written();
      }
    }

    /** gztell64. */
    function Tell(): int
      reads `pos, `seek, `skip
    {
      pos + Gap()
    }

    /** gzseek64 for a file open for writing: only forward, and nothing is written yet. A seek
        that is refused forgets the one that was pending. */
    method Seek(offset: int, whence: Whence) returns (r: int)
      requires Valid()
      modifies `seek, `skip
      ensures Valid() && (r == -1 <==> failed || Refuses(offset, whence, old(Tell()), pos))
      ensures r != -1 ==> r == Tell() == Target(offset, whence, old(Tell())) && r >= pos
      ensures r != -1 ==> r == if whence.SeekCur? then old(Tell()) + offset else offset
    {
      if failed || whence.SeekEnd? {
        return -1;
      }
      var move := if whence.SeekSet? then offset - pos else if seek then offset + skip else offset;
      seek := false;
      if move < 0 {
        return -1;
      }
      if move != 0 {
        seek, skip := true, move;
      }
      return pos + move;
    }
  }

  datatype Op = Put(buf: seq<Octet>) | Skip(offset: int, whence: Whence)

  /** What a run of calls asks to be written, and the gap that is pending after it. */
  datatype Asked = Asked(bytes: seq<Octet>, gap: nat)

  function Ask(a: Asked, op: Op): Asked {
    match op
    case Put(buf) => if |buf| == 0 then a else Asked(a.bytes + ZeroBytes(a.gap) + buf, 0)
    case Skip(offset, whence) =>
      var target := Target(offset, whence, |a.bytes| + a.gap);
      Asked(a.bytes, if target >= |a.bytes| then target - |a.bytes| else 0)
  }

  function AskAll(ops: seq<Op>): Asked {
    if ops == [] then Asked([], 0) else Ask(AskAll(ops[..|ops| - 1]), ops[|ops| - 1])
  }

  /** The call is a seek from the end, or to before what is written. */
  predicate Rejected(op: Op, a: Asked) {
    match op
    case Put(buf) => false
    case Skip(offset, whence) => Refuses(offset, whence, |a.bytes| + a.gap, |a.bytes|)
  }

  /** One call. It reports an error exactly if it is rejected, unless write() fails. */
  method Perform(f: GzWriter, op: Op) returns (ok: bool)
    requires f.Valid() && !f.failed
    modifies f, f.inBuf
    ensures f.Valid() && (f.inBuf == old(f.inBuf) || fresh(f.inBuf))
    ensures ok ==> !f.failed && Asked(f.Written(), f.Gap()) == Ask(old(Asked(f.Written(), f.Gap())), op)
    ensures ok ==> !Rejected(op, old(Asked(f.Written(), f.Gap())))
    ensures !ok && f.reliable ==> Rejected(op, old(Asked(f.Written(), f.Gap())))
  {
    match op
    case Put(buf) =>
      ok := f.Write(buf);
    case Skip(offset, whence) =>
      var r := f.Seek(offset, whence);
      ok := r != -1;
  }

  /** No call of a run is rejected. */
  predicate Accepted(ops: seq<Op>) {
    ops == [] || (Accepted(ops[..|ops| - 1]) && !Rejected(ops[|ops| - 1], AskAll(ops[..|ops| - 1])))
  }

  lemma {:induction false} AcceptedBefore(ops: seq<Op>, i: nat)
    requires i <= |ops| && Accepted(ops)
    ensures Accepted(ops[..i])
    decreases |ops|
  {
    if i == |ops| {
      Whole(ops);
    } else {
      AcceptedBefore(ops[..|ops| - 1], i);
      assert ops[..|ops| - 1][..i] == ops[..i];
    }
  }

  /** Any run of writes and seeks up to the first error: the bytes handed to deflate(), or written in
      direct mode, with those that wait in the input buffer, are what was asked for; and the file with
      the output buffer is what deflate() made. There is no error but for a seek that is rejected or,
      on a file that is not reliable, a write() that fails. */
  method Run(want: nat, direct: bool, reliable: bool, ops: seq<Op>) returns (f: GzWriter, clean: bool)
    requires want >= 8
    ensures f.Valid() && (clean ==> !f.failed && f.Written() == AskAll(ops).bytes && f.Gap() == AskAll(ops).gap)
    ensures clean ==> Accepted(ops)
    ensures reliable && !clean ==> !Accepted(ops)
  {
    f := new GzWriter(want, direct, reliable);
    clean := true;
    var i := 0;
    while i < |ops|
      invariant i <= |ops| && f.Valid() && !f.failed && Asked(f.Written(), f.Gap()) == AskAll(ops[..i])
      invariant fresh(f) && fresh(f.inBuf) && f.reliable == reliable
      invariant Accepted(ops[..i])
    {
      AskNext(ops, i);
      clean := Perform(f, ops[i]);
      if !clean {
        if Accepted(ops) {
          AcceptedBefore(ops, i + 1);
        }
        return;
      }
      i := i + 1;
    }
    Whole(ops);
  }

  lemma AskNext(ops: seq<Op>, i: nat)
    requires i < |ops|
    ensures AskAll(ops[..i + 1]) == Ask(AskAll(ops[..i]), ops[i])
    ensures Accepted(ops[..i + 1]) <==> Accepted(ops[..i]) && !Rejected(ops[i], AskAll(ops[..i]))
  {
    assert ops[..i + 1][..i] == ops[..i];
  }

  lemma NextPart(start: seq<Octet>, buf: seq<Octet>, done: nat, n: nat)
    requires done + n <= |buf|
    ensures start + buf[..done] + buf[done..done + n] == start + buf[..done + n]
  {
  }

  lemma Behind(a: seq<Octet>, have: nat, copy: nat, was: seq<Octet>, more: seq<Octet>, handed: seq<Octet>)
    requires have + copy <= |a| && |more| == copy && a[..have] == was && a[have..have + copy] == more
    ensures handed + a[0..have + copy] == (handed + was) + more
  {
  }

  lemma ZeroSum(start: seq<Octet>, a: nat, b: nat)
    ensures start + ZeroBytes(a) + ZeroBytes(b) == start + ZeroBytes(a + b)
    ensures a == 0 ==> start + ZeroBytes(a) == start
  {
  }
}
