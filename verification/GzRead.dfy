/**
 gzread.c and the seeking part of gzlib.c for a file open for reading: two buffers, lazy seeks
 and a state machine over the members of the file refine a decoded file with a position.
 */
module GzRead {
  import opened Sequences
  import opened Arith
  import opened Bits
  import opened Wrappers
  import opened GzLayout

  datatype How = LOOK | COPY | GZIP

  /** The part of gz_state that reading works on: how; the file position; strm.next_in and
      avail_in; x.next and x.have; x.pos; eof; direct; and the state of inflate(), which is
      how many members have come to their end since the start. */
  datatype Gz = Gz(how: How, off: nat, input: seq<Octet>, x: seq<Octet>, pos: nat, eof: bool, direct: bool, member: nat) {

    /** How much of the file has been used. */
    function Used(): int {
      off - |input|
    }

    /** How much has been decoded. */
    function Made(): nat {
      pos + |x|
    }

    /** Nothing more can be got. */
    predicate AtEnd() {
      eof && |input| == 0
    }
  }

  /** The input buffer holds the file bytes just before the file position. */
  ghost predicate InputOk(file: seq<Octet>, off: nat, input: seq<Octet>) {
    |input| <= off && (off > |file| ==> input == []) && (off <= |file| ==> input == file[off - |input|..off])
  }

  /** The output buffer holds the decoded bytes from the position on. */
  ghost predicate OutputOk(decoded: seq<Octet>, pos: nat, x: seq<Octet>) {
    x != [] ==> pos + |x| <= |decoded| && x == decoded[pos..pos + |x|]
  }

  /** Between members: those before have been decoded, and nothing of the next has been used. */
  ghost predicate Between(l: Layout, used: int, made: nat, direct: bool, m: nat) {
    && m <= |l.Members()| && used == CompStart(l, m) && made == PlainStart(l, m)
    && (m > 0 ==> !direct)
  }

  /** Within member m, which has not come to its end. */
  ghost predicate Within(l: Layout, used: int, made: nat, m: nat) {
    && m < |l.Members()|
    && 0 <= used - CompStart(l, m) <= |l.Members()[m].comp|
    && 0 <= made - PlainStart(l, m) <= |l.Members()[m].plain|
    && (l.Members()[m].complete ==> used - CompStart(l, m) < |l.Members()[m].comp|)
  }

  /** Reading stays within the file, and the end is where it is. */
  ghost predicate InFile(l: Layout, g: Gz) {
    g.off <= |l.File()| && (g.eof ==> g.off == |l.File()|)
  }

  /** Where the state machine can be. */
  ghost predicate Progress(l: Layout, g: Gz) {
    match g.how
    case LOOK => (g.AtEnd() && g.Made() == |l.Decoded()|) || (InFile(l, g) && Between(l, g.Used(), g.Made(), g.direct, g.member))
    case COPY => l.Raw? && g.input == [] && g.Made() == g.off && (g.eof ==> g.off >= |l.File()|)
    case GZIP => InFile(l, g) && !g.direct && Within(l, g.Used(), g.Made(), g.member)
  }

  ghost predicate Consistent(l: Layout, g: Gz) {
    && l.Ok() && InputOk(l.File(), g.off, g.input) && OutputOk(l.Decoded(), g.pos, g.x) && Progress(l, g)
    && (l.Raw? ==> g.direct)
  }

  lemma InputGrows(file: seq<Octet>, off: nat, input: seq<Octet>, data: seq<Octet>)
    requires InputOk(file, off, input) && off <= |file|
    requires data != [] ==> off + |data| <= |file| && data == file[off..off + |data|]
    ensures InputOk(file, off + |data|, input + data)
  {
    assert data == file[off..off + |data|];
    assert file[off - |input|..off] + file[off..off + |data|] == file[off - |input|..off + |data|];
  }

  lemma SameOutput(l: Layout, g: Gz, g': Gz)
    requires Consistent(l, g) && g'.pos == g.pos && g'.x == g.x && g'.direct == g.direct
    requires InputOk(l.File(), g'.off, g'.input) && Progress(l, g')
    ensures Consistent(l, g')
  {
  }

  /** More input behind what there is changes nothing else. */
  lemma ReadsOn(l: Layout, g: Gz, data: seq<Octet>, eof': bool)
    requires Consistent(l, g) && !g.eof && !g.how.COPY?
    requires data != [] ==> g.off + |data| <= |l.File()| && data == l.File()[g.off..g.off + |data|]
    requires eof' ==> g.off + |data| >= |l.File()|
    ensures Consistent(l, g.(off := g.off + |data|, input := g.input + data, eof := eof'))
  {
    InputGrows(l.File(), g.off, g.input, data);
    ProgressReads(l, g, data, eof');
    SameOutput(l, g, g.(off := g.off + |data|, input := g.input + data, eof := eof'));
  }

  lemma ProgressReads(l: Layout, g: Gz, data: seq<Octet>, eof': bool)
    requires Progress(l, g) && !g.eof && !g.how.COPY? && g.off + |data| <= |l.File()|
    requires eof' ==> g.off + |data| >= |l.File()|
    ensures Progress(l, g.(off := g.off + |data|, input := g.input + data, eof := eof'))
  {
  }

  /** Between members a header is looked for: the next member, ignored bytes after members, or
      a file that is not compressed. */
  lemma LooksAt(l: Layout, g: Gz)
    requires Consistent(l, g) && g.how.LOOK? && g.x == [] && g.input != [] && (|g.input| >= 2 || g.eof)
    ensures Magic(g.input) ==> Consistent(l, g.(how := GZIP, direct := false))
    ensures !Magic(g.input) && !g.direct ==> Consistent(l, g.(input := [], eof := true))
    ensures !Magic(g.input) && g.direct ==> Consistent(l, g.(x := g.input, input := [], how := COPY))
  {
    if g.member < |l.Members()| {
      MemberHasMagic(l, g);
      EntersMember(l, g);
    } else if l.Gzip? {
      AfterMembers(l);
      GarbageHasNoMagic(l, g.off, g.input);
      IgnoresGarbage(l, g);
    } else {
      CopiesRaw(l, g);
    }
  }

  lemma EntersMember(l: Layout, g: Gz)
    requires Consistent(l, g) && g.how.LOOK? && g.input != [] && g.member < |l.Members()|
    ensures Consistent(l, g.(how := GZIP, direct := false))
  {
    assert |l.Members()[g.member].comp| >= 2;
  }

  lemma IgnoresGarbage(l: Layout, g: Gz)
    requires Consistent(l, g) && g.how.LOOK? && g.input != [] && l.Gzip? && g.member == |l.Members()|
    ensures !g.direct && Consistent(l, g.(input := [], eof := true))
  {
    AfterMembers(l);
  }

  lemma CopiesRaw(l: Layout, g: Gz)
    requires Consistent(l, g) && g.how.LOOK? && g.x == [] && g.input != [] && l.Raw?
    ensures g.direct && !Magic(g.input) && Consistent(l, g.(x := g.input, input := [], how := COPY))
  {
    assert g.input == l.File()[0..g.off] && l.File() == l.Decoded();
    if |g.input| >= 2 {
      assert g.input[0] == l.bytes[0] && g.input[1] == l.bytes[1];
    }
  }

  lemma MemberHasMagic(l: Layout, g: Gz)
    requires Consistent(l, g) && g.how.LOOK? && g.input != [] && (|g.input| >= 2 || g.eof) && g.member < |l.Members()|
    ensures Magic(g.input)
  {
    MemberAt(l, g.member);
    MagicAt(l.File(), g.Used(), l.Members()[g.member].comp, g.off, g.input);
  }

  lemma MagicAt(file: seq<Octet>, start: nat, comp: seq<Octet>, off: nat, input: seq<Octet>)
    requires Magic(comp) && start + |comp| <= |file| && file[start..start + |comp|] == comp
    requires start + 2 <= off <= |file| && input == file[start..off]
    ensures Magic(input)
  {
    assert comp[0] == file[start] && comp[1] == file[start + 1];
  }

  lemma GarbageHasNoMagic(l: Layout, off: nat, input: seq<Octet>)
    requires l.Ok() && l.Gzip? && InputOk(l.File(), off, input) && off <= |l.File()|
    requires off - |input| == |l.File()| - |l.garbage| && l.File()[off - |input|..] == l.garbage
    ensures !Magic(input)
  {
    if |input| >= 2 {
      assert input[0] == l.garbage[0] && input[1] == l.garbage[1];
    }
  }

  /** While there is input within a member, the member has bytes to use. */
  lemma HasMore(l: Layout, g: Gz)
    requires Consistent(l, g) && g.how.GZIP? && g.input != []
    ensures g.Used() - CompStart(l, g.member) < |l.Members()[g.member].comp|
  {
    if !l.Members()[g.member].complete {
      assert g.member == |l.members| - 1;
      MemberAt(l, g.member);
      AfterMembers(l);
    }
  }

  /** inflate() has used n bytes of the input and made the next bytes of the member. */
  function Inflated(g: Gz, n: nat, chunk: seq<Octet>, end: bool): Gz
    requires n <= |g.input|
  {
    g.(how := if end then LOOK else GZIP, input := g.input[n..], x := g.x + chunk, member := if end then g.member + 1 else g.member)
  }

  lemma Inflates(l: Layout, g: Gz, n: nat, k: nat, end: bool)
    requires Consistent(l, g) && g.how.GZIP? && n <= |g.input|
    requires Contract(l.Members()[g.member], g.Used() - CompStart(l, g.member) + n, g.Made() - PlainStart(l, g.member) + k, end)
    ensures Consistent(l, Inflated(g, n, Chunk(l, g, k), end))
  {
    ChunkIsNext(l, g, k);
    OutputGrows(l.Decoded(), g.pos, g.x, Chunk(l, g, k));
    InputDrops(l.File(), g.off, g.input, n);
    InflatedProgress(l, g, n, Chunk(l, g, k), end);
  }

  lemma InputDrops(file: seq<Octet>, off: nat, input: seq<Octet>, n: nat)
    requires InputOk(file, off, input) && n <= |input|
    ensures InputOk(file, off, input[n..])
  {
    if off <= |file| {
      assert input[n..] == file[off - |input[n..]|..off];
    }
  }

  lemma InflatedProgress(l: Layout, g: Gz, n: nat, chunk: seq<Octet>, end: bool)
    requires Progress(l, g) && g.how.GZIP? && n <= |g.input|
    requires Contract(l.Members()[g.member], g.Used() - CompStart(l, g.member) + n, g.Made() - PlainStart(l, g.member) + |chunk|, end)
    ensures Progress(l, Inflated(g, n, chunk, end))
  {
    MemberAt(l, g.member);
  }

  /** What inflate() promises of a member when it has used and made that much: the end is where
      both come to theirs, and the last bytes of a complete member are used last. */
  predicate Contract(m: Member, used: int, made: int, end: bool) {
    && 0 <= used <= |m.comp| && 0 <= made <= |m.plain|
    && (end <==> m.complete && used == |m.comp| && made == |m.plain|)
    && (m.complete && made < |m.plain| ==> used < |m.comp|)
  }

  /** The next k decoded bytes of the member at hand. */
  function Chunk(l: Layout, g: Gz, k: nat): seq<Octet>
    requires g.member < |l.Members()| && 0 <= g.Made() - PlainStart(l, g.member)
    requires g.Made() - PlainStart(l, g.member) + k <= |l.Members()[g.member].plain|
  {
    l.Members()[g.member].plain[g.Made() - PlainStart(l, g.member)..g.Made() - PlainStart(l, g.member) + k]
  }

  lemma ChunkIsNext(l: Layout, g: Gz, k: nat)
    requires g.member < |l.Members()| && 0 <= g.Made() - PlainStart(l, g.member)
    requires g.Made() - PlainStart(l, g.member) + k <= |l.Members()[g.member].plain|
    ensures g.Made() + k <= |l.Decoded()| && Chunk(l, g, k) == l.Decoded()[g.Made()..g.Made() + k]
  {
    MemberAt(l, g.member);
    Part(l.Decoded(), l.Members()[g.member].plain, PlainStart(l, g.member), g.Made() - PlainStart(l, g.member), k);
  }

  lemma Part(whole: seq<Octet>, part: seq<Octet>, start: nat, a: nat, k: nat)
    requires start + |part| <= |whole| && whole[start..start + |part|] == part && a + k <= |part|
    ensures part[a..a + k] == whole[start + a..start + a + k]
  {
    var p, q := part[a..a + k], whole[start + a..start + a + k];
    forall i | 0 <= i < k
      ensures p[i] == q[i]
    {
      assert whole[start..start + |part|][a + i] == whole[start + (a + i)];
    }
  }

  lemma OutputGrows(decoded: seq<Octet>, pos: nat, x: seq<Octet>, chunk: seq<Octet>)
    requires OutputOk(decoded, pos, x) && pos + |x| + |chunk| <= |decoded|
    requires chunk == decoded[pos + |x|..pos + |x| + |chunk|]
    ensures OutputOk(decoded, pos, x + chunk)
  {
    assert decoded[pos..pos + |x|] + decoded[pos + |x|..pos + |x| + |chunk|] == decoded[pos..pos + |x| + |chunk|];
  }

  /** No bytes are left to use: all has been decoded, unless a member was cut off. */
  lemma NothingLeft(l: Layout, g: Gz)
    requires Consistent(l, g) && g.AtEnd() && l.Sound()
    ensures g.Made() >= |l.Decoded()|
  {
    if g.how.GZIP? {
      NotWithinAtEnd(l, g.Used(), g.Made(), g.member);
    } else if g.how.LOOK? && l.Gzip? {
      BetweenAtEnd(l, g);
    }
  }

  lemma NotWithinAtEnd(l: Layout, used: int, made: nat, m: nat)
    requires l.Sound() && Within(l, used, made, m)
    ensures used < |l.File()|
  {
    MemberAt(l, m);
    assert l.Members()[m] in l.Members();
  }

  lemma BetweenAtEnd(l: Layout, g: Gz)
    requires Consistent(l, g) && g.how.LOOK? && g.AtEnd() && l.Gzip?
    ensures g.Made() == |l.Decoded()|
  {
    AfterMembers(l);
    if g.member < |l.members| {
      MemberAt(l, g.member);
    }
  }

  /** Bytes delivered from the output buffer. */
  function Taken(g: Gz, n: nat): Gz
    requires n <= |g.x|
  {
    g.(x := g.x[n..], pos := g.pos + n)
  }

  lemma TakenOk(l: Layout, g: Gz, n: nat)
    requires Consistent(l, g) && n <= |g.x|
    ensures Consistent(l, Taken(g, n))
    ensures n > 0 ==> g.pos + n <= |l.Decoded()| && g.x[..n] == l.Decoded()[g.pos..g.pos + n]
  {
    OutputDrops(l.Decoded(), g.pos, g.x, n);
    TakenProgress(l, g, n);
  }

  lemma TakenProgress(l: Layout, g: Gz, n: nat)
    requires Progress(l, g) && n <= |g.x|
    ensures Progress(l, Taken(g, n))
  {
    assert Taken(g, n).Made() == g.Made();
  }

  lemma OutputDrops(decoded: seq<Octet>, pos: nat, x: seq<Octet>, n: nat)
    requires OutputOk(decoded, pos, x) && n <= |x|
    ensures OutputOk(decoded, pos + n, x[n..])
    ensures n > 0 ==> pos + n <= |decoded| && x[..n] == decoded[pos..pos + n]
  {
  }

  /** read(): some bytes if there are any, none at the end of the file, or, if it is not reliable, an error. */
  method ReadFile(file: seq<Octet>, off: nat, get: nat, reliable: bool) returns (ret: int)
    requires get > 0
    ensures ret <= get && (ret == 0 ==> off >= |file|) && (ret > 0 ==> off + ret <= |file|)
    ensures reliable ==> ret >= 0
  {
    if off >= |file| {
      ret :| -1 <= ret <= 0 && (reliable ==> ret == 0);
    } else {
      var most := Min(get, |file| - off);
      assert -1 <= 1 <= most;
      ret :| -1 <= ret <= most && ret != 0 && (reliable ==> ret > 0);
    }
  }

  datatype Outcome = StreamEnd | Going | Bad

  /** inflate(), as far as its contract is known here: it uses at least a byte or makes at
      least one, or it finds an error. */
  method Inflate(m: Member, used: nat, made: nat, availIn: nat, availOut: nat, reliable: bool)
    returns (ret: Outcome, n: nat, k: nat)
    requires used < |m.comp| && made <= |m.plain| && availIn > 0 && availOut > 0
    ensures n <= availIn && k <= availOut && (!ret.Bad? ==> n + k > 0 && Contract(m, used + n, made + k, ret.StreamEnd?))
    ensures reliable && m.complete ==> !ret.Bad?
  {
    var fails: bool :| fails ==> !reliable || !m.complete;
    if fails {
      return Bad, 0, 0;
    }
    if made < |m.plain| {
      assert used + 0 <= |m.comp| && made + 1 <= |m.plain|;
      n, k :| used + n <= |m.comp| && n <= availIn && made + k <= |m.plain| && k <= availOut && n + k > 0
              && (made + k < |m.plain| ==> used + n < |m.comp|);
    } else {
      k := 0;
      n :| used + n <= |m.comp| && 0 < n <= availIn;
    }
    ret := if m.complete && used + n == |m.comp| && made + k == |m.plain| then StreamEnd else Going;
  }

  /** gz_load: fill a buffer of len bytes as far as the file goes. */
  method GzLoad(file: seq<Octet>, off: nat, len: nat, reliable: bool) returns (ok: bool, data: seq<Octet>, eof: bool)
    requires len > 0
    ensures reliable ==> ok
    ensures ok ==> |data| <= len && eof == (|data| < len) && (eof ==> off + |data| >= |file|)
    ensures ok && data != [] ==> off + |data| <= |file| && data == file[off..off + |data|]
  {
    data := [];
    var ret := 1;
    while ret > 0 && |data| < len
      invariant |data| <= len && (ret == 0 ==> |data| < len && off + |data| >= |file|) && (reliable ==> ret >= 0)
      invariant data != [] ==> off + |data| <= |file| && data == file[off..off + |data|]
      decreases len - |data|, ret
    {
      ret := ReadFile(file, off + |data|, Min(len - |data|, 0x4000_0000), reliable);
      if ret > 0 {
        Adjacent(file, off, off + |data|, off + |data| + ret);
        data := data + file[off + |data|..off + |data| + ret];
      }
    }
    ok, eof := ret >= 0, ret == 0;
  }

  /** gz_avail: more input behind what there is. */
  method GzAvail(l: Layout, size: nat, g: Gz) returns (ok: bool, g': Gz)
    requires Consistent(l, g) && !g.how.COPY? && |g.input| < 2 && size >= 8
    ensures l.reliable ==> ok
    ensures ok ==> Consistent(l, g') && g'.Used() == g.Used() && (g'.eof || |g'.input| == size)
    ensures ok ==> g' == g.(off := g'.off, input := g'.input, eof := g'.eof)
    ensures g.eof ==> ok && g' == g
  {
    ok, g' := true, g;
    if !g.eof {
      var data, eof;
      ok, data, eof := GzLoad(l.File(), g.off, size - |g.input|, l.reliable);
      if ok {
        ReadsOn(l, g, data, eof);
        g' := g.(off := g.off + |data|, input := g.input + data, eof := eof);
      }
    }
  }

  /** gz_look: look for a gzip header. */
  method GzLook(l: Layout, size: nat, g: Gz) returns (ok: bool, g': Gz)
    requires Consistent(l, g) && g.how.LOOK? && g.x == [] && size >= 8
    ensures l.reliable ==> ok
    ensures ok ==> Consistent(l, g') && g'.pos == g.pos
    ensures ok && g'.how.LOOK? ==> g'.x == [] && g'.AtEnd()
    ensures ok && g'.how.GZIP? ==> g'.x == [] && g'.Used() == g.Used()
    ensures ok && g'.how.COPY? ==> g'.x != []
    ensures ok && g.AtEnd() ==> g' == g
  {
    ok, g' := true, g;
    if |g.input| < 2 {
      ok, g' := GzAvail(l, size, g);
      if !ok || |g'.input| == 0 {
        return;
      }
    }
    LooksAt(l, g');
    if |g'.input| > 1 && g'.input[0] == 31 && g'.input[1] == 139 {
      g' := g'.(how := GZIP, direct := false);
    } else if !g'.direct {
      g' := g'.(input := [], eof := true);
    } else {
      g' := g'.(x := g'.input, input := [], how := COPY);
    }
  }

  /** One call of inflate() with input at hand. */
  method InflateOnce(l: Layout, g: Gz, availOut: nat) returns (ret: Outcome, g': Gz)
    requires Consistent(l, g) && g.how.GZIP? && g.input != [] && |g.x| < availOut
    ensures l.Fine() ==> !ret.Bad?
    ensures !ret.Bad? ==> Consistent(l, g') && |g'.x| <= availOut && g'.pos == g.pos
    ensures !ret.Bad? ==> g'.Used() + |g'.x| > g.Used() + |g.x| && g'.Used() >= g.Used()
    ensures !ret.Bad? ==> g'.how == if ret.StreamEnd? then LOOK else GZIP
  {
    HasMore(l, g);
    assert l.Members()[g.member] in l.Members();
    var n, k;
    ret, n, k := Inflate(l.Members()[g.member], g.Used() - CompStart(l, g.member), g.Made() - PlainStart(l, g.member),
                         |g.input|, availOut - |g.x|, l.reliable);
    g' := g;
    if !ret.Bad? {
      Inflates(l, g, n, k, ret.StreamEnd?);
      g' := Inflated(g, n, Chunk(l, g, k), ret.StreamEnd?);
    }
  }

  /** gz_decomp: decompress up to availOut bytes of the member at hand. cut says that the file
      ended within the member. */
  method GzDecomp(l: Layout, size: nat, g: Gz, availOut: nat) returns (ok: bool, cut: bool, g': Gz)
    requires Consistent(l, g) && g.how.GZIP? && g.x == [] && availOut > 0 && size >= 8
    ensures l.Fine() ==> ok && !cut
    ensures ok ==> Consistent(l, g') && |g'.x| <= availOut && !g'.how.COPY? && g'.pos == g.pos
    ensures ok && g'.how.GZIP? && |g'.x| < availOut ==> g'.AtEnd()
    ensures ok && g'.how.LOOK? && g'.x == [] ==> g'.Used() > g.Used()
    ensures ok && g.AtEnd() ==> g' == g
  {
    ok, cut, g' := true, false, g;
    var ret := Going;
    while ret.Going? && |g'.x| < availOut
      invariant ok && !cut && !ret.Bad? && Consistent(l, g') && |g'.x| <= availOut && g'.pos == g.pos
      invariant g'.how == if ret.StreamEnd? then LOOK else GZIP
      invariant g.AtEnd() ==> g' == g && ret.Going?
      invariant g'.Used() >= g.Used() && (ret.StreamEnd? ==> g'.Used() + |g'.x| > g.Used())
      decreases ret.Going?, |l.File()| - g'.Used() + availOut - |g'.x|
    {
      if |g'.input| == 0 {
        ok, g' := GzAvail(l, size, g');
        if !ok {
          return;
        }
        if |g'.input| == 0 {
          if l.Sound() {
            NotWithinAtEnd(l, g'.Used(), g'.Made(), g'.member);
          }
          cut := true;
          return;
        }
      }
      ret, g' := InflateOnce(l, g', availOut);
      if ret.Bad? {
        ok := false;
        return;
      }
    }
  }

  /** gz_load into the output buffer or the user's buffer, for a file that is not compressed. */
  method CopyMore(l: Layout, g: Gz, len: nat) returns (ok: bool, g': Gz)
    requires Consistent(l, g) && g.how.COPY? && g.x == [] && len > 0
    ensures l.reliable ==> ok
    ensures ok ==> Consistent(l, g') && g' == g.(x := g'.x, off := g'.off, eof := g'.eof) && |g'.x| <= len
    ensures ok && |g'.x| < len ==> g'.AtEnd()
    ensures ok && g.AtEnd() ==> g'.x == [] && g'.AtEnd()
  {
    var data, eof;
    ok, data, eof := GzLoad(l.File(), g.off, len, l.reliable);
    g' := g;
    if ok {
      CopiesOn(l, g, data, eof);
      g' := g.(x := data, off := g.off + |data|, eof := g.eof || eof);
    }
  }

  lemma CopiesOn(l: Layout, g: Gz, data: seq<Octet>, eof: bool)
    requires Consistent(l, g) && g.how.COPY? && g.x == []
    requires data != [] ==> g.off + |data| <= |l.File()| && data == l.File()[g.off..g.off + |data|]
    requires eof ==> g.off + |data| >= |l.File()|
    ensures Consistent(l, g.(x := data, off := g.off + |data|, eof := g.eof || eof))
  {
  }

  /** How much of the file is left to use. */
  function Left(l: Layout, g: Gz): nat {
    if g.Used() < |l.File()| then |l.File()| - g.Used() else 0
  }

  /** One pass of the loop in gz_fetch. */
  method FetchPass(l: Layout, size: nat, g: Gz) returns (ok: bool, cut: bool, done: bool, g': Gz)
    requires Consistent(l, g) && g.x == [] && size >= 8
    ensures l.Fine() ==> ok && !cut
    ensures ok ==> Consistent(l, g') && g'.pos == g.pos
    ensures ok && done ==> g'.x != [] || g'.AtEnd()
    ensures ok && g.AtEnd() ==> g'.x == [] && g'.AtEnd()
    ensures ok && !done ==> g'.x == [] && (Left(l, g') < Left(l, g) || (Left(l, g') == Left(l, g) && g.how.LOOK? && !g'.how.LOOK?))
  {
    cut := false;
    match g.how
    case LOOK =>
      ok, g' := GzLook(l, size, g);
      done := g'.how.LOOK? || |g'.x| != 0 || g'.AtEnd();
    case COPY =>
      ok, g' := CopyMore(l, g, 2 * size);
      done := true;
    case GZIP =>
      ok, cut, g' := GzDecomp(l, size, g, 2 * size);
      done := |g'.x| != 0 || g'.AtEnd();
  }

  /** gz_fetch: something into the empty output buffer, unless all has been decoded. */
  method GzFetch(l: Layout, size: nat, g: Gz) returns (ok: bool, cut: bool, g': Gz)
    requires Consistent(l, g) && g.x == [] && size >= 8
    ensures l.Fine() ==> ok && !cut
    ensures ok ==> Consistent(l, g') && g'.pos == g.pos && (g'.x != [] || g'.AtEnd())
    ensures ok && g.AtEnd() ==> g'.x == []
  {
    ok, cut, g' := true, false, g;
    var done := false;
    while ok && !done
      invariant l.Fine() ==> ok && !cut
      invariant g.AtEnd() && ok ==> g'.x == [] && (!done ==> g'.AtEnd())
      invariant ok ==> Consistent(l, g') && g'.pos == g.pos
      invariant ok && done ==> g'.x != [] || g'.AtEnd()
      invariant ok && !done ==> g'.x == []
      decreases ok && !done, Left(l, g'), g'.how.LOOK?
    {
      var c;
      ok, c, done, g' := FetchPass(l, size, g');
      cut := cut || c;
    }
  }

  /** gz_skip: pass over len decoded bytes, or as many as there are. */
  method GzSkip(l: Layout, size: nat, g: Gz, len: nat) returns (ok: bool, cut: bool, g': Gz)
    requires Consistent(l, g) && size >= 8
    ensures l.Fine() ==> ok && !cut
    ensures ok ==> Consistent(l, g') && g.pos <= g'.pos <= g.pos + len
    ensures ok && g'.pos < g.pos + len ==> g'.x == [] && g'.AtEnd()
  {
    ok, cut, g' := true, false, g;
    while g'.pos < g.pos + len
      invariant l.Fine() ==> !cut
      invariant ok && Consistent(l, g') && g.pos <= g'.pos <= g.pos + len
      decreases g.pos + len - g'.pos, if g'.x == [] && !g'.AtEnd() then 1 else 0
    {
      if |g'.x| != 0 {
        var n := Min(|g'.x|, g.pos + len - g'.pos);
        TakenOk(l, g', n);
        g' := Taken(g', n);
      } else if g'.AtEnd() {
        return;
      } else {
        var c;
        ok, c, g' := GzFetch(l, size, g');
        cut := cut || c;
        if !ok {
          return;
        }
      }
    }
  }

  /** The decoded bytes from pos to where data ends. */
  ghost predicate IsNext(l: Layout, pos: nat, data: seq<Octet>) {
    data != [] ==> pos + |data| <= |l.Decoded()| && data == l.Decoded()[pos..pos + |data|]
  }

  lemma NextGrows(l: Layout, pos: nat, data: seq<Octet>, more: seq<Octet>)
    requires IsNext(l, pos, data) && IsNext(l, pos + |data|, more)
    ensures IsNext(l, pos, data + more)
  {
    if more != [] {
      Adjacent(l.Decoded(), pos, pos + |data|, pos + |data| + |more|);
      assert data == l.Decoded()[pos..pos + |data|];
    } else {
      assert data + more == data;
    }
  }

  /** Part of the output buffer delivered. */
  method Deliver(l: Layout, g: Gz, n: nat, ghost pos: nat, data: seq<Octet>) returns (g': Gz, data': seq<Octet>)
    requires Consistent(l, g) && n <= |g.x| && g.pos == pos + |data| && IsNext(l, pos, data)
    ensures Consistent(l, g') && g' == Taken(g, n) && data' == data + g.x[..n] && IsNext(l, pos, data')
  {
    TakenOk(l, g, n);
    NextGrows(l, pos, data, g.x[..n]);
    g', data' := Taken(g, n), data + g.x[..n];
  }

  /** More decoded bytes, directly into the user's buffer when that is large enough. */
  method ReadDirect(l: Layout, size: nat, g: Gz, n: nat) returns (ok: bool, cut: bool, g': Gz)
    requires Consistent(l, g) && g.x == [] && size >= 8 && n > 0 && !g.how.LOOK? && !g.AtEnd()
    ensures l.Fine() ==> ok && !cut
    ensures ok ==> Consistent(l, g') && g'.pos == g.pos && |g'.x| <= n
    ensures ok && g'.x == [] ==> g'.AtEnd() || Left(l, g') < Left(l, g)
  {
    cut := false;
    if g.how.COPY? {
      ok, g' := CopyMore(l, g, n);
    } else {
      ok, cut, g' := GzDecomp(l, size, g, n);
    }
  }

  /** How far the loop of gz_read is from its next progress. */
  function Work(l: Layout, g: Gz): nat {
    if |g.x| != 0 || g.AtEnd() then 0 else 1 + Left(l, g)
  }

  /** One pass of the loop in gz_read with an empty output buffer: the buffer is filled, or the
      user's is. */
  method ReadPass(l: Layout, size: nat, g: Gz, left: nat, ghost pos: nat, data: seq<Octet>)
    returns (ok: bool, cut: bool, g': Gz, data': seq<Octet>)
    requires Consistent(l, g) && g.x == [] && !g.AtEnd() && size >= 8 && left > 0
    requires g.pos == pos + |data| && IsNext(l, pos, data)
    ensures l.Fine() ==> ok && !cut
    ensures ok ==> Consistent(l, g') && g'.pos == pos + |data'| && IsNext(l, pos, data') && |data| <= |data'| <= |data| + left
    ensures ok && |data'| == |data| ==> Work(l, g') < Work(l, g)
  {
    data' := data;
    var n := Min(left, 0xffff_ffff);
    if g.how.LOOK? || n < 2 * size {
      ok, cut, g' := GzFetch(l, size, g);
    } else {
      ok, cut, g' := ReadDirect(l, size, g, n);
      if ok {
        g', data' := Deliver(l, g', |g'.x|, pos, data);
      }
    }
  }

  /** The loop of gz_read: len decoded bytes, or as many as there are. */
  method ReadLoop(l: Layout, size: nat, g: Gz, len: nat) returns (ok: bool, cut: bool, g': Gz, data: seq<Octet>)
    requires Consistent(l, g) && size >= 8
    ensures l.Fine() ==> ok && !cut
    ensures ok ==> Consistent(l, g') && g'.pos == g.pos + |data| && IsNext(l, g.pos, data) && |data| <= len
    ensures ok && |data| < len ==> g'.x == [] && g'.AtEnd()
    ensures ok && g.x == [] && g.AtEnd() ==> g' == g && data == []
  {
    ok, cut, g', data := true, false, g, [];
    while |data| < len
      invariant l.Fine() ==> !cut
      invariant ok && Consistent(l, g') && g'.pos == g.pos + |data| && IsNext(l, g.pos, data) && |data| <= len
      invariant g.x == [] && g.AtEnd() ==> g' == g && data == []
      decreases len - |data|, Work(l, g')
    {
      if |g'.x| != 0 {
        var n := Min(Min(len - |data|, 0xffff_ffff), |g'.x|);
        g', data := Deliver(l, g', n, g.pos, data);
      } else if g'.AtEnd() {
        return;
      } else {
        var c;
        ok, c, g', data := ReadPass(l, size, g', len - |data|, g.pos, data);
        cut := cut || c;
        if !ok {
          return;
        }
      }
    }
  }

  const NEWLINE: Octet := 10

  /** memchr for a newline: how many bytes to take so that the first newline is the last. */
  method ThroughNewline(s: seq<Octet>, n: nat) returns (k: nat, found: bool)
    requires 0 < n <= |s|
    ensures 0 < k <= n && (found <==> s[k - 1] == NEWLINE) && (!found ==> k == n)
    ensures forall i :: 0 <= i < k - 1 ==> s[i] != NEWLINE
  {
    k, found := 0, false;
    while k < n && !found
      invariant 0 <= k <= n && (found ==> k > 0) && (k > 0 ==> (found <==> s[k - 1] == NEWLINE))
      invariant forall i :: 0 <= i < k - 1 ==> s[i] != NEWLINE
    {
      found := s[k] == NEWLINE;
      k := k + 1;
    }
  }

  /** No byte but perhaps the last is a newline. */
  ghost predicate OneLine(data: seq<Octet>) {
    forall i :: 0 <= i < |data| - 1 ==> data[i] != NEWLINE
  }

  /** The line ends with a newline. */
  predicate Ended(data: seq<Octet>) {
    |data| > 0 && data[|data| - 1] == NEWLINE
  }

  lemma LineGrows(data: seq<Octet>, x: seq<Octet>, n: nat)
    requires OneLine(data) && !Ended(data) && 0 < n <= |x| && forall i :: 0 <= i < n - 1 ==> x[i] != NEWLINE
    ensures OneLine(data + x[..n]) && (Ended(data + x[..n]) <==> x[n - 1] == NEWLINE)
  {
    var more := x[..n];
    assert OneLine(more) && (Ended(more) <==> x[n - 1] == NEWLINE);
  }

  /** One pass of the loop in gzgets, with something in the output buffer. */
  method TakeLine(l: Layout, g: Gz, left: nat, ghost pos: nat, data: seq<Octet>) returns (g': Gz, data': seq<Octet>, found: bool)
    requires Consistent(l, g) && g.x != [] && left > 0 && g.pos == pos + |data| && IsNext(l, pos, data)
    requires OneLine(data) && !Ended(data)
    ensures Consistent(l, g') && g'.pos == pos + |data'| && IsNext(l, pos, data') && |data| < |data'| <= |data| + left
    ensures OneLine(data') && (found <==> Ended(data'))
  {
    var n;
    n, found := ThroughNewline(g.x, Min(|g.x|, left));
    LineGrows(data, g.x, n);
    g', data' := Deliver(l, g, n, pos, data);
  }

  /** The loop of gzgets: up to a newline, left bytes, or all there is. */
  method GetsLoop(l: Layout, size: nat, g: Gz, left: nat) returns (ok: bool, cut: bool, past: bool, g': Gz, data: seq<Octet>)
    requires Consistent(l, g) && size >= 8
    ensures l.Fine() ==> ok && !cut
    ensures ok ==> Consistent(l, g') && g'.pos == g.pos + |data| && IsNext(l, g.pos, data) && |data| <= left && OneLine(data)
    ensures ok && |data| < left && !Ended(data) ==> g'.x == [] && g'.AtEnd()
    ensures ok && g.x == [] && g.AtEnd() ==> data == []
  {
    ok, cut, past, g', data := true, false, false, g, [];
    var found := false;
    while |data| < left && !found
      invariant l.Fine() ==> !cut
      invariant ok && Consistent(l, g') && g'.pos == g.pos + |data| && IsNext(l, g.pos, data) && |data| <= left
      invariant OneLine(data) && (found <==> Ended(data))
      invariant g.x == [] && g.AtEnd() ==> g' == g && data == []
      decreases left - |data|
    {
      if |g'.x| == 0 {
        ok, cut, g' := GzFetch(l, size, g');
        if !ok {
          return;
        }
      }
      if |g'.x| == 0 {
        past := true;
        return;
      }
      g', data, found := TakeLine(l, g', left - |data|, g.pos, data);
    }
  }
}
