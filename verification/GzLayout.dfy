/**
 What the bytes of a gzip file stand for: gzip members one after the other with ignored bytes
 after them, or, if the file does not start like one, the bytes themselves.
 */
module GzLayout {
  import opened Bits

  /** A gzip member and what it decompresses to. An incomplete one is cut off or corrupt: it
      decompresses to plain but has no valid end. */
  datatype Member = Member(comp: seq<Octet>, plain: seq<Octet>, complete: bool)

  /** A file, and whether the calls on it work: read() and lseek() succeed, and so does inflate() on
      members that are complete. */
  datatype Layout = Raw(bytes: seq<Octet>, reliable: bool)
                  | Gzip(members: seq<Member>, garbage: seq<Octet>, reliable: bool) {

    predicate Ok() {
      match this
      case Raw(bytes, _) => !Magic(bytes)
      case Gzip(members, garbage, _) =>
        && members != [] && !Magic(garbage)
        && (forall i :: 0 <= i < |members| ==> Magic(members[i].comp))
        && (forall i :: 0 <= i < |members| - 1 ==> members[i].complete)
        && (!members[|members| - 1].complete ==> garbage == [])
    }

    /** The bytes in the file. */
    function File(): seq<Octet> {
      match this
      case Raw(bytes, _) => bytes
      case Gzip(members, garbage, _) => Comps(members) + garbage
    }

    /** The decoded file. */
    function Decoded(): seq<Octet> {
      match this
      case Raw(bytes, _) => bytes
      case Gzip(members, garbage, _) => Plains(members)
    }

    function Members(): seq<Member> {
      if Raw? then [] else members
    }

    /** No member is cut off or corrupt. */
    predicate Sound() {
      forall m :: m in Members() ==> m.complete
    }

    /** Nothing can go wrong. */
    predicate Fine() {
      reliable && Sound()
    }
  }

  /** The magic bytes of a gzip header. */
  predicate Magic(s: seq<Octet>) {
    |s| >= 2 && s[0] == 31 && s[1] == 139
  }

  function Comps(members: seq<Member>): seq<Octet> {
    if members == [] then [] else Comps(members[..|members| - 1]) + members[|members| - 1].comp
  }

  function Plains(members: seq<Member>): seq<Octet> {
    if members == [] then [] else Plains(members[..|members| - 1]) + members[|members| - 1].plain
  }

  /** Where member m starts in the file, and in the decoded file. */
  function CompStart(l: Layout, m: nat): nat
    requires m <= |l.Members()|
  {
    |Comps(l.Members()[..m])|
  }

  function PlainStart(l: Layout, m: nat): nat
    requires m <= |l.Members()|
  {
    |Plains(l.Members()[..m])|
  }

  lemma {:induction false} MembersPrefix(members: seq<Member>, m: nat)
    requires m <= |members|
    ensures Comps(members[..m]) <= Comps(members) && Plains(members[..m]) <= Plains(members)
    decreases |members|
  {
    if m == |members| {
      assert members[..m] == members;
    } else {
      var init := members[..|members| - 1];
      MembersPrefix(init, m);
      assert init[..m] == members[..m];
    }
  }

  /** Member m in the file and in the decoded file. */
  lemma MemberAt(l: Layout, m: nat)
    requires m < |l.Members()|
    ensures var member := l.Members()[m];
            && CompStart(l, m + 1) == CompStart(l, m) + |member.comp| <= |l.File()|
            && PlainStart(l, m + 1) == PlainStart(l, m) + |member.plain| <= |l.Decoded()|
            && l.File()[CompStart(l, m)..CompStart(l, m + 1)] == member.comp
            && l.Decoded()[PlainStart(l, m)..PlainStart(l, m + 1)] == member.plain
  {
    var ms := l.Members();
    MembersPrefix(ms, m + 1);
    assert ms[..m + 1][..m] == ms[..m];
    assert l.File()[..CompStart(l, m + 1)] == Comps(ms[..m + 1]) == Comps(ms[..m]) + ms[m].comp;
    assert l.Decoded()[..PlainStart(l, m + 1)] == Plains(ms[..m + 1]) == Plains(ms[..m]) + ms[m].plain;
    assert l.File()[CompStart(l, m)..CompStart(l, m + 1)] == l.File()[..CompStart(l, m + 1)][CompStart(l, m)..];
    assert l.Decoded()[PlainStart(l, m)..PlainStart(l, m + 1)] == l.Decoded()[..PlainStart(l, m + 1)][PlainStart(l, m)..];
  }

  /** After the last member only ignored bytes are left, and all has been decoded. */
  lemma AfterMembers(l: Layout)
    requires l.Gzip?
    ensures CompStart(l, |l.members|) == |l.File()| - |l.garbage| && PlainStart(l, |l.members|) == |l.Decoded()|
    ensures l.File()[CompStart(l, |l.members|)..] == l.garbage
  {
    assert l.members[..|l.members|] == l.members;
  }

  lemma StartsAtZero(l: Layout)
    ensures CompStart(l, 0) == 0 && PlainStart(l, 0) == 0
  {
  }
}
