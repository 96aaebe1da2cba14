/**
 Which of several files is there: what an add, and a whole history, makes of the versions.
 */
module SharedDllsVersions {
  import opened Strings
  import opened Wrappers
  import opened SharedDlls

  /** Of the files that wanted to be at a place, in their order, this one is there: of the versioned ones the first
      with the highest version; without any, the first that has been modified; without that, the last. */
  predicate Stays(c: seq<FileInfo>, f: FileInfo) {
    exists i :: 0 <= i < |c| && c[i] == f && Wins(c, i)
  }

  predicate Wins(c: seq<FileInfo>, i: nat)
    requires i < |c|
  {
    if AnyVersioned(c) then
      && !c[i].Unversioned()
      && forall j :: 0 <= j < |c| && !c[j].Unversioned() ==>
           c[j].Version() <= c[i].Version() && (j < i ==> c[j].Version() < c[i].Version())
    else if AnyModified(c) then
      Modified(c[i]) && forall j :: 0 <= j < i ==> !Modified(c[j])
    else
      i == |c| - 1
  }

  predicate AnyVersioned(c: seq<FileInfo>) {
    exists j :: 0 <= j < |c| && !c[j].Unversioned()
  }

  predicate AnyModified(c: seq<FileInfo>) {
    exists j :: 0 <= j < |c| && Modified(c[j])
  }

  lemma AnyMore(c: seq<FileInfo>, s: FileInfo)
    ensures AnyVersioned(c + [s]) <==> AnyVersioned(c) || !s.Unversioned()
    ensures AnyModified(c + [s]) <==> AnyModified(c) || Modified(s)
  {
    var c1 := c + [s];
    assert c1[|c|] == s && forall j :: 0 <= j < |c| ==> c1[j] == c[j];
  }

  /** One file more, and what is there now. */
  lemma StaysNext(c: seq<FileInfo>, f: FileInfo, s: FileInfo)
    requires Stays(c, f)
    ensures Stays(c + [s], if Overwrites(f, s) then s else f)
  {
    AnyMore(c, s);
    var c1 := c + [s];
    var i :| 0 <= i < |c| && c[i] == f && Wins(c, i);
    assert forall j :: 0 <= j < |c| ==> c1[j] == c[j];
    if Overwrites(f, s) {
      assert c1[|c|] == s && Wins(c1, |c|);
    } else {
      assert c1[i] == f && Wins(c1, i);
    }
  }

  /** There is only one such file. */
  lemma StaysUnique(c: seq<FileInfo>, f: FileInfo, g: FileInfo)
    requires Stays(c, f) && Stays(c, g)
    ensures f == g
  {
    var i :| 0 <= i < |c| && c[i] == f && Wins(c, i);
    var j :| 0 <= j < |c| && c[j] == g && Wins(c, j);
    assert i == j;
  }

  lemma StaysAlone(s: FileInfo)
    ensures Stays([s], s)
  {
    assert Wins([s], 0);
  }

  /** The file that is there, if any, is the right one of these. */
  predicate Chosen(c: seq<FileInfo>, d: Disk, t: Path) {
    (t in d.files <==> c != []) && (t in d.files ==> Stays(c, d.files[t]))
  }

  /** The files of a walk that stand for this place. */
  function Packaged(mappings: map<string, string>, listing: seq<Found>, t: Path): seq<FileInfo> {
    if listing == [] then []
    else
      var f := listing[|listing| - 1];
      Packaged(mappings, listing[..|listing| - 1], t) + if Target(mappings, f.name) == Some(t) then [f.info] else []
  }

  lemma AddedChooses(c: seq<FileInfo>, d: Disk, mappings: map<string, string>, f: Found, reinstall: bool, t: Path)
    requires Chosen(c, d, t)
    ensures Chosen(c + if Target(mappings, f.name) == Some(t) then [f.info] else [], AddedOne(d, mappings, f, reinstall), t)
  {
    if Target(mappings, f.name) != Some(t) {
      assert c + [] == c;
    } else if t in d.files {
      StaysNext(c, d.files[t], f.info);
    } else {
      StaysAlone(f.info);
      assert c + [f.info] == [f.info];
    }
  }

  /** What an add makes of a place: its files come behind those that wanted to be there before. */
  lemma {:induction false} AddedAllChooses(c: seq<FileInfo>, d: Disk, mappings: map<string, string>, listing: seq<Found>,
                                           reinstall: bool, t: Path)
    requires Chosen(c, d, t)
    ensures Chosen(c + Packaged(mappings, listing, t), AddedAll(d, mappings, listing, reinstall), t)
  {
    if listing == [] {
      assert c + [] == c;
    } else {
      var init, f := listing[..|listing| - 1], listing[|listing| - 1];
      var more := if Target(mappings, f.name) == Some(t) then [f.info] else [];
      AddedAllChooses(c, d, mappings, init, reinstall, t);
      AddedChooses(c + Packaged(mappings, init, t), AddedAll(d, mappings, init, reinstall), mappings, f, reinstall, t);
      assert c + Packaged(mappings, init, t) + more == c + (Packaged(mappings, init, t) + more);
    }
  }

  function Before(d: Disk, t: Path): seq<FileInfo> {
    if t in d.files then [d.files[t]] else []
  }

  lemma BeforeChosen(d: Disk, t: Path)
    ensures Chosen(Before(d, t), d, t)
  {
    if t in d.files {
      StaysAlone(d.files[t]);
    }
  }

  /** What is there is one of the files; it has the highest version; it is versioned if any is. */
  lemma StaysRules(c: seq<FileInfo>, f: FileInfo)
    requires Stays(c, f)
    ensures f in c && (forall g :: g in c ==> g.Version() <= f.Version())
    ensures f.Unversioned() <==> forall g :: g in c ==> g.Unversioned()
  {
  }

  /** An add by the rules of the installer, for one place. */
  lemma AddRules(d: Disk, mappings: map<string, string>, listing: seq<Found>, reinstall: bool, t: Path)
    ensures
      var d1, packaged := AddedAll(d, mappings, listing, reinstall), Packaged(mappings, listing, t);
      && (packaged == [] ==> (t in d1.files <==> t in d.files) && (t in d.files ==> d1.files[t] == d.files[t]))
      && (packaged != [] ==> t in d1.files)
      && (t in d1.files ==> d1.files[t] in Before(d, t) + packaged)
      && (t in d1.files && t !in d.files ==> d1.files[t] in packaged)
      && (t in d1.files ==> forall g :: g in Before(d, t) + packaged ==> g.Version() <= d1.files[t].Version())
      && (t in d.files ==> Kept(d.files[t], packaged, d1.files[t]))
  {
    var d1, packaged := AddedAll(d, mappings, listing, reinstall), Packaged(mappings, listing, t);
    BeforeChosen(d, t);
    AddedAllChooses(Before(d, t), d, mappings, listing, reinstall, t);
    if t in d1.files {
      StaysRules(Before(d, t) + packaged, d1.files[t]);
    }
    if t in d.files {
      assert Before(d, t) + packaged == [d.files[t]] + packaged;
      StaysKept(d.files[t], packaged, d1.files[t]);
    }
  }

  /** When the file that is there gives way: a versioned one to a higher version; an unversioned one that was modified
      to a versioned one, and one that was not to any. */
  predicate Kept(was: FileInfo, packaged: seq<FileInfo>, now: FileInfo) {
    if !was.Unversioned() then
      if forall g :: g in packaged ==> g.Version() <= was.Version() then now == was else now.Version() > was.Version()
    else if Modified(was) then
      if forall g :: g in packaged ==> g.Unversioned() then now == was else !now.Unversioned()
    else
      packaged != [] ==> now in packaged
  }

  lemma StaysKept(was: FileInfo, packaged: seq<FileInfo>, now: FileInfo)
    requires Stays([was] + packaged, now)
    ensures Kept(was, packaged, now)
  {
    var c := [was] + packaged;
    assert c[0] == was && forall j :: 0 <= j < |packaged| ==> c[j + 1] == packaged[j];
    var i :| 0 <= i < |c| && c[i] == now && Wins(c, i);
    if i > 0 {
      assert packaged[i - 1] == now;
    }
    if exists g :: g in packaged && !g.Unversioned() {
      var g :| g in packaged && !g.Unversioned();
      assert g in c;
    }
  }

  /** A removal leaves what it leaves as it is. */
  lemma {:induction false} RemovedAllLeaves(d: Disk, mappings: map<string, string>, names: seq<string>, t: Path)
    ensures var d1 := RemovedAll(d, mappings, names); t in d1.files ==> t in d.files && d1.files[t] == d.files[t]
  {
    if names != [] {
      RemovedAllLeaves(d, mappings, names[..|names| - 1], t);
    }
  }
}
