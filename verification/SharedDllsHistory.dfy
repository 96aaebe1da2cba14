/**
 The handler for the VFS directory as the installer runs it, and whole histories of installs,
 reinstalls and removes.
 */
module SharedDllsHistory {
  import opened Strings
  import opened Wrappers
  import opened SharedDlls
  import opened SharedDllsVersions

  /** The names of the block map that are in the VFS directory. */
  function VfsNames(names: seq<string>): seq<string> {
    if names == [] then []
    else VfsNames(names[..|names| - 1]) + if InVfs(names[|names| - 1]) then [names[|names| - 1]] else []
  }

  /** A package: its block map, and the files that a walk over its VFS directory finds, in
      whatever order. */
  datatype Package = Package(names: seq<string>, listing: seq<Found>) {
    predicate Ok(mappings: map<string, string>) {
      PackageOk(mappings, names) && ListingOk(listing) && multiset(Names(listing)) == multiset(VfsNames(names))
    }
  }

  lemma {:induction false} HeldOfVfsNames(mappings: map<string, string>, names: seq<string>)
    ensures Held(mappings, VfsNames(names)) == Held(mappings, names)
  {
    if names != [] {
      var init, n := names[..|names| - 1], names[|names| - 1];
      HeldOfVfsNames(mappings, init);
      if InVfs(n) {
        assert (VfsNames(init) + [n])[..|VfsNames(init)|] == VfsNames(init);
      } else {
        assert Held(mappings, init) + multiset{} == Held(mappings, init);
        assert VfsNames(init) + [] == VfsNames(init);
      }
    }
  }

  lemma {:induction false} HeldConcat(mappings: map<string, string>, a: seq<string>, b: seq<string>)
    ensures Held(mappings, a + b) == Held(mappings, a) + Held(mappings, b)
    decreases |b|
  {
    if b == [] {
      assert a + b == a;
      assert Held(mappings, a) + multiset{} == Held(mappings, a);
    } else {
      var init := b[..|b| - 1];
      assert (a + b)[..|a + b| - 1] == a + init;
      HeldConcat(mappings, a, init);
      Associate(Held(mappings, a), Held(mappings, init), Share(mappings, b[|b| - 1]));
    }
  }

  lemma HeldSplit(mappings: map<string, string>, a: seq<string>, n: string, b: seq<string>)
    ensures Held(mappings, a + ([n] + b)) == Held(mappings, a + b) + Share(mappings, n)
  {
    HeldConcat(mappings, a, [n] + b);
    HeldConcat(mappings, [n], b);
    HeldConcat(mappings, a, b);
    assert [n][..0] == [];
    Exchange(Held(mappings, a), Share(mappings, n), Held(mappings, b));
  }

  lemma Exchange(a: multiset<Path>, c: multiset<Path>, b: multiset<Path>)
    ensures a + ((multiset{} + c) + b) == (a + b) + c
  {
  }

  lemma ItemsSplit(a: seq<string>, n: string, b: seq<string>)
    ensures multiset(a + ([n] + b)) == multiset(a + b) + multiset{n}
  {
    assert multiset([n] + b) == multiset{n} + multiset(b);
  }

  lemma Cancel(a: multiset<string>, b: multiset<string>, c: multiset<string>)
    requires a + c == b + c
    ensures a == b
  {
    assert a == (a + c) - c;
    assert b == (b + c) - c;
  }

  lemma WithoutOne(a: seq<string>, b: seq<string>, i: nat)
    requires a != [] && multiset(a) == multiset(b) && i < |b| && b[i] == a[|a| - 1]
    ensures multiset(a[..|a| - 1]) == multiset(b[..i] + b[i + 1..])
  {
    var n, init, x, y := b[i], a[..|a| - 1], b[..i], b[i + 1..];
    ItemsSplit(x, n, y);
    assert b == x + ([n] + y);
    assert a == init + [n];
    Cancel(multiset(init), multiset(x + y), multiset{n});
  }

  lemma FindLast(a: seq<string>, b: seq<string>) returns (i: nat)
    requires a != [] && multiset(a) == multiset(b)
    ensures i < |b| && b[i] == a[|a| - 1]
  {
    assert a[|a| - 1] in multiset(a);
    assert a[|a| - 1] in b;
    i :| 0 <= i < |b| && b[i] == a[|a| - 1];
  }

  lemma NoItems(b: seq<string>)
    requires multiset(b) == multiset([])
    ensures b == []
  {
    assert |multiset(b)| == |b|;
  }

  lemma HeldOfSplit(mappings: map<string, string>, b: seq<string>, i: nat)
    requires i < |b|
    ensures Held(mappings, b) == Held(mappings, b[..i] + b[i + 1..]) + Share(mappings, b[i])
  {
    HeldSplit(mappings, b[..i], b[i], b[i + 1..]);
    assert b == b[..i] + ([b[i]] + b[i + 1..]);
  }

  /** The order of the names makes no difference to what is held. */
  lemma {:induction false} HeldPermutes(mappings: map<string, string>, a: seq<string>, b: seq<string>)
    requires multiset(a) == multiset(b)
    ensures Held(mappings, a) == Held(mappings, b)
    decreases |a|
  {
    if a == [] {
      NoItems(b);
    } else {
      var i := FindLast(a, b);
      WithoutOne(a, b, i);
      HeldPermutes(mappings, a[..|a| - 1], b[..i] + b[i + 1..]);
      HeldOfSplit(mappings, b, i);
    }
  }

  lemma {:induction false} InVfsNames(names: seq<string>, n: string)
    requires n in VfsNames(names)
    ensures n in names && InVfs(n)
  {
    if n in VfsNames(names[..|names| - 1]) {
      InVfsNames(names[..|names| - 1], n);
    }
  }

  predicate AllEnd(mappings: map<string, string>, listing: seq<Found>) {
    forall i :: 0 <= i < |listing| ==> Ends(mappings, listing[i].name)
  }

  /** The walk over the directory comes to an end if a removal does. */
  lemma ListingEnds(mappings: map<string, string>, p: Package)
    requires p.Ok(mappings)
    ensures AllEnd(mappings, p.listing)
  {
    forall i | 0 <= i < |p.listing|
      ensures Ends(mappings, p.listing[i].name)
    {
      var n := Names(p.listing)[i];
      assert n in multiset(Names(p.listing));
      assert n in multiset(VfsNames(p.names));
      InVfsNames(p.names, n);
      SameRemainder(n);
    }
  }

  lemma HeldByListing(mappings: map<string, string>, p: Package)
    requires p.Ok(mappings)
    ensures Held(mappings, Names(p.listing)) == Held(mappings, p.names)
  {
    HeldOfVfsNames(mappings, p.names);
    HeldPermutes(mappings, Names(p.listing), VfsNames(p.names));
  }

  /** Installing and removing the package leaves every consistent disk consistent for the holders
      it had before. */
  ghost predicate Undone(mappings: map<string, string>, p: Package) {
    forall d, h :: Consistent(d, h) && Roomy(h, |p.listing|) ==> Consistent(Round(d, mappings, p), h)
  }

  /** The disk after an install and a removal. */
  ghost function Round(d: Disk, mappings: map<string, string>, p: Package): Disk {
    RemovedAll(AddedAll(d, mappings, p.listing, false), mappings, p.names)
  }

  /** Removing a package undoes its installation, whatever the disk, exactly when the package is
      well named. */
  lemma RemoveUndoesAdd(mappings: map<string, string>, p: Package)
    requires p.Ok(mappings) && |p.listing| + 1 < LIMIT
    ensures WellNamed(mappings, p.names) <==> Undone(mappings, p)
  {
    LetGoIsHeld(mappings, p.names);
    if WellNamed(mappings, p.names) {
      forall d, h | Consistent(d, h) && Roomy(h, |p.listing|)
        ensures Consistent(Round(d, mappings, p), h)
      {
        RoundHolds(d, h, mappings, p);
        assert h + Held(mappings, p.names) - LetGo(mappings, p.names) == h;
      }
    } else {
      var d, h, t := LosesFile(mappings, p);
    }
  }

  lemma RoundHolds(d: Disk, h: multiset<Path>, mappings: map<string, string>, p: Package)
    requires p.Ok(mappings) && Consistent(d, h) && Roomy(h, |p.listing|)
    ensures Consistent(Round(d, mappings, p), h + Held(mappings, p.names) - LetGo(mappings, p.names))
  {
    InstallConsistent(d, h, mappings, p);
    RemovedAllHolds(AddedAll(d, mappings, p.listing, false), h + Held(mappings, p.names), mappings, p.names);
  }

  /** A package that is not well named takes away a file that was there before it. */
  lemma LosesFile(mappings: map<string, string>, p: Package) returns (d: Disk, h: multiset<Path>, t: Path)
    requires p.Ok(mappings) && |p.listing| + 1 < LIMIT && !WellNamed(mappings, p.names)
    ensures Consistent(d, h) && Roomy(h, |p.listing|) && !Consistent(Round(d, mappings, p), h)
    ensures t in d.files && t !in Round(d, mappings, p).files
  {
    LetGoIsHeld(mappings, p.names);
    var held, letGo := Held(mappings, p.names), LetGo(mappings, p.names);
    t :| held[t] < letGo[t];
    d := Disk(map[t := FileInfo(Some(1), FileTime(0, 0), FileTime(0, 0))], map[]);
    h := multiset{t};
    RoundHolds(d, h, mappings, p);
    assert (h + held - letGo)[t] == 0;
    OnlyHolders(Round(d, mappings, p), h, h + held - letGo);
  }

  /** Such packages: with a directory, say MyVFS, that only has VFS in its name. They hold nothing when
      they are installed, and their removal lets a file of the system go. */
  lemma NotWellNamed(mappings: map<string, string>, top: string, dir: string, rest: string) returns (name: string)
    requires '\\' !in top && '\\' !in dir && Contains(top, "VFS") && top != "VFS" && dir in mappings
    ensures name == top + "\\" + (dir + "\\" + rest)
    ensures Package([name], []).Ok(mappings) && !WellNamed(mappings, [name])
    ensures Held(mappings, [name]) == multiset{} && LetGo(mappings, [name]) == multiset{mappings[dir] + "\\" + rest}
  {
    name := top + "\\" + (dir + "\\" + rest);
    var i :| 0 <= i <= |top| && HasPrefix(top[i..], "VFS");
    assert top[i..][..3] == name[i..][..3];
    TargetOf(mappings, top, dir, rest);
    ChildOf(top, dir + "\\" + rest);
    if InVfs(name) {
      SameRemainder(name);
    }
    OnlyReleased(mappings, name, mappings[dir] + "\\" + rest);
  }

  lemma OnlyReleased(mappings: map<string, string>, name: string, t: Path)
    requires LooksLikeVfs(name) && !InVfs(name) && Target(mappings, name) == Some(t) && Ends(mappings, name)
    ensures Package([name], []).Ok(mappings) && !WellNamed(mappings, [name])
    ensures Held(mappings, [name]) == multiset{} && LetGo(mappings, [name]) == multiset{t}
  {
    assert [name][..0] == [] && VfsNames([]) == [];
    assert name in [name];
  }

  lemma TargetOf(mappings: map<string, string>, top: string, dir: string, rest: string)
    requires dir in mappings && '\\' !in top && '\\' !in dir
    ensures var name := top + "\\" + (dir + "\\" + rest);
      Target(mappings, name) == Some(mappings[dir] + "\\" + rest) && Ends(mappings, name)
  {
    ChildOf(top, dir + "\\" + rest);
    ChildOf(dir, rest);
    assert (dir + "\\" + rest)[..|dir|] == dir;
  }

  /** The name has these parts. */
  predicate HasParts(name: string, top: string, dir: string, rest: string) {
    '\\' !in top && '\\' !in dir && name == top + "\\" + (dir + "\\" + rest)
  }

  /** A name stands for a place exactly if its second part is a mapped directory, and then for what follows in it. */
  lemma TargetIff(mappings: map<string, string>, name: string, t: Path)
    ensures Target(mappings, name) == Some(t)
            <==> exists top, dir, rest :: HasParts(name, top, dir, rest) && dir in mappings && t == mappings[dir] + "\\" + rest
  {
    if Target(mappings, name) == Some(t) {
      var top, below := name[..FirstSlash(name)], PathChild(name);
      var dir, rest := below[..FirstSlash(below)], PathChild(below);
      assert name == top + "\\" + below && below == dir + "\\" + rest;
      assert HasParts(name, top, dir, rest);
    }
    if exists top, dir, rest :: HasParts(name, top, dir, rest) && dir in mappings && t == mappings[dir] + "\\" + rest {
      var top, dir, rest :| HasParts(name, top, dir, rest) && dir in mappings && t == mappings[dir] + "\\" + rest;
      TargetOf(mappings, top, dir, rest);
    }
  }

  lemma ChildOf(top: string, rest: string)
    requires '\\' !in top
    ensures var s := top + "\\" + rest; FirstSlash(s) == |top| && HasSlash(s) && PathChild(s) == rest
  {
    var s := top + "\\" + rest;
    SlashAt(s, |top|);
    assert s[|top| + 1..] == rest;
  }

  lemma SlashAt(s: string, i: nat)
    requires i < |s| && s[i] == '\\' && forall j :: 0 <= j < i ==> s[j] != '\\'
    ensures FirstSlash(s) == i
  {
  }

  // Histories.

  /** What the installed packages hold. */
  function Total(mappings: map<string, string>, installed: seq<Package>): multiset<Path>
  {
    if installed == [] then multiset{}
    else Total(mappings, installed[..|installed| - 1]) + Held(mappings, installed[|installed| - 1].names)
  }

  lemma {:induction false} TotalConcat(mappings: map<string, string>, a: seq<Package>, b: seq<Package>)
    ensures Total(mappings, a + b) == Total(mappings, a) + Total(mappings, b)
    decreases |b|
  {
    if b == [] {
      assert a + b == a;
      assert Total(mappings, a) + multiset{} == Total(mappings, a);
    } else {
      var init := b[..|b| - 1];
      assert (a + b)[..|a + b| - 1] == a + init;
      TotalConcat(mappings, a, init);
      Associate(Total(mappings, a), Total(mappings, init), Held(mappings, b[|b| - 1].names));
    }
  }

  lemma TotalWithout(mappings: map<string, string>, installed: seq<Package>, i: nat)
    requires i < |installed|
    ensures Total(mappings, installed)
         == Total(mappings, installed[..i] + installed[i + 1..]) + Held(mappings, installed[i].names)
  {
    var a, p, b := installed[..i], [installed[i]], installed[i + 1..];
    assert installed == a + (p + b);
    TotalConcat(mappings, a, p + b);
    TotalConcat(mappings, p, b);
    TotalConcat(mappings, a, b);
    assert p[..0] == [];
    Exchange(Total(mappings, a), Held(mappings, installed[i].names), Total(mappings, b));
  }

  function Files(installed: seq<Package>): nat {
    if installed == [] then 0 else Files(installed[..|installed| - 1]) + |installed[|installed| - 1].listing|
  }

  lemma {:induction false} TotalBounded(mappings: map<string, string>, installed: seq<Package>, t: Path)
    requires forall p :: p in installed ==> p.Ok(mappings)
    ensures Total(mappings, installed)[t] <= Files(installed)
  {
    if installed != [] {
      var p := installed[|installed| - 1];
      TotalBounded(mappings, installed[..|installed| - 1], t);
      HeldByListing(mappings, p);
      HeldBounded(mappings, Names(p.listing), t);
    }
  }

  lemma {:induction false} HeldBounded(mappings: map<string, string>, names: seq<string>, t: Path)
    ensures Held(mappings, names)[t] <= |names|
  {
    if names != [] {
      HeldBounded(mappings, names[..|names| - 1], t);
    }
  }

  datatype Event = Install(p: Package) | Reinstall(i: nat) | Remove(i: nat)

  class VirtualFileHandler {
    const mappings: map<string, string>
    /** The files at their real places and the values of the SharedDLLs key. */
    var disk: Disk

    constructor (mappings: map<string, string>, disk: Disk)
      ensures this.mappings == mappings && this.disk == disk
    {
      this.mappings, this.disk := mappings, disk;
    }

    /** NeedToCopyFile. */
    method NeedToCopyFile(t: Path, source: FileInfo, reinstall: bool) returns (need: bool)
      modifies this
      ensures disk.files == old(disk).files && need == (t !in disk.files || Overwrites(disk.files[t], source))
      ensures disk.counts == if t in disk.files then Added(old(disk), t, source, reinstall).counts else old(disk).counts
    {
      if t !in disk.files {
        return true;
      }
      if !reinstall {
        var count := 0;
        if t in disk.counts {
          count := (disk.counts[t] + 1) % LIMIT;
        } else {
          count := 2;
        }
        disk := disk.(counts := disk.counts[t := count]);
      }
      var target := disk.files[t];
      if target.Unversioned() && !source.Unversioned() {
        return true;
      }
      if target.Unversioned() && !Modified(target) {
        return true;
      }
      return target.Version() < source.Version();
    }

    /** CopyVfsFileToLocal. */
    method CopyVfsFile(f: Found, reinstall: bool)
      requires InVfs(f.name) && Ends(mappings, f.name)
      modifies this
      ensures disk == AddedOne(old(disk), mappings, f, reinstall)
    {
      SameRemainder(f.name);
      RestReturnsIff(mappings, f.name[4..]);
      var t := ConvertRemainingPath(mappings, f.name[4..]);
      if t.Some? {
        var need := NeedToCopyFile(t.value, f.info, reinstall);
        if need {
          disk := disk.(files := disk.files[t.value := f.info]);
        }
      }
    }

    /** ExecuteForAddRequest. */
    method Add(listing: seq<Found>, reinstall: bool)
      requires ListingOk(listing) && AllEnd(mappings, listing)
      modifies this
      ensures disk == AddedAll(old(disk), mappings, listing, reinstall)
    {
      for i := 0 to |listing|
        invariant disk == AddedAll(old(disk), mappings, listing[..i], reinstall)
      {
        assert listing[..i + 1][..i] == listing[..i];
        CopyVfsFile(listing[i], reinstall);
      }
      assert listing[..|listing|] == listing;
    }

    /** RemoveVfsFile. */
    method RemoveVfsFile(name: string)
      requires Ends(mappings, name)
      modifies this
      ensures disk == if Target(mappings, name).Some? then Removed(old(disk), Target(mappings, name).value) else old(disk)
    {
      EndsIff(mappings, name);
      var target := ConvertVfsName(mappings, name);
      if target.None? {
        return;
      }
      var t := target.value;
      var shouldDelete := true;
      if t in disk.counts {
        if disk.counts[t] > 1 {
          shouldDelete := false;
          disk := disk.(counts := disk.counts[t := disk.counts[t] - 1]);
        } else {
          disk := disk.(counts := disk.counts - {t});
        }
      } else {
        assert disk.counts - {t} == disk.counts;
      }
      if shouldDelete {
        disk := disk.(files := disk.files - {t});
      }
    }

    /** RemoveVfsFiles: all names of the block map that have VFS in them. */
    method RemoveAll(names: seq<string>)
      requires PackageOk(mappings, names)
      modifies this
      ensures disk == RemovedAll(old(disk), mappings, names)
    {
      for i := 0 to |names|
        invariant disk == RemovedAll(old(disk), mappings, names[..i])
      {
        assert names[..i + 1][..i] == names[..i];
        var looks := HasVfs(names[i]);
        if looks {
          RemoveVfsFile(names[i]);
        }
      }
      assert names[..|names|] == names;
    }
  }

  /** nameStr.find(L"VFS") != npos. */
  method HasVfs(name: string) returns (r: bool)
    ensures r <==> LooksLikeVfs(name)
  {
    for i := 0 to |name| + 1
      invariant forall j :: 0 <= j < i ==> !HasPrefix(name[j..], "VFS")
    {
      if HasPrefix(name[i..], "VFS") {
        return true;
      }
    }
    return false;
  }

  /** The state of a machine during a history: consistent for what was there before and for what
      the installed packages hold. */
  ghost predicate Holding(d: Disk, before: multiset<Path>, mappings: map<string, string>, installed: seq<Package>) {
    && (forall p :: p in installed ==> p.Ok(mappings) && WellNamed(mappings, p.names))
    && Consistent(d, before + Total(mappings, installed))
  }

  /** An event that can happen: an install of a well-named package while the counts have room,
      or a reinstall or removal of an installed one. */
  ghost predicate Possible(e: Event, before: multiset<Path>, mappings: map<string, string>, installed: seq<Package>) {
    match e
    case Install(p) => p.Ok(mappings) && WellNamed(mappings, p.names) && Roomy(before, Files(installed) + |p.listing|)
    case Reinstall(i) => i < |installed|
    case Remove(i) => i < |installed|
  }

  function After(e: Event, installed: seq<Package>): seq<Package> {
    match e
    case Install(p) => installed + [p]
    case Reinstall(i) => installed
    case Remove(i) => if i < |installed| then installed[..i] + installed[i + 1..] else installed
  }

  /** The disk after an event. */
  ghost function Played(d: Disk, mappings: map<string, string>, e: Event, installed: seq<Package>): Disk {
    match e
    case Install(p) => AddedAll(d, mappings, p.listing, false)
    case Reinstall(i) => if i < |installed| then AddedAll(d, mappings, installed[i].listing, true) else d
    case Remove(i) => if i < |installed| then RemovedAll(d, mappings, installed[i].names) else d
  }

  method Perform(handler: VirtualFileHandler, e: Event, ghost before: multiset<Path>, installed: seq<Package>)
    requires Holding(handler.disk, before, handler.mappings, installed) && Possible(e, before, handler.mappings, installed)
    modifies handler
    ensures Holding(handler.disk, before, handler.mappings, After(e, installed))
    ensures handler.disk == Played(old(handler.disk), handler.mappings, e, installed)
  {
    match e
    case Install(p) =>
      ListingEnds(handler.mappings, p);
      InstallHolds(handler.disk, before, handler.mappings, installed, p);
      handler.Add(p.listing, false);
    case Reinstall(i) =>
      ListingEnds(handler.mappings, installed[i]);
      ReinstallHolds(handler.disk, before, handler.mappings, installed, i);
      handler.Add(installed[i].listing, true);
    case Remove(i) =>
      RemoveHolds(handler.disk, before, handler.mappings, installed, i);
      handler.RemoveAll(installed[i].names);
  }

  lemma InstallHolds(d: Disk, before: multiset<Path>, mappings: map<string, string>, installed: seq<Package>, p: Package)
    requires Holding(d, before, mappings, installed) && p.Ok(mappings) && WellNamed(mappings, p.names)
    requires Roomy(before, Files(installed) + |p.listing|)
    ensures Holding(AddedAll(d, mappings, p.listing, false), before, mappings, installed + [p])
  {
    RoomLeft(before, mappings, installed, |p.listing|);
    InstallConsistent(d, before + Total(mappings, installed), mappings, p);
    OneMoreInstalled(before, mappings, installed, p);
  }

  lemma InstallConsistent(d: Disk, h: multiset<Path>, mappings: map<string, string>, p: Package)
    requires p.Ok(mappings) && Consistent(d, h) && Roomy(h, |p.listing|)
    ensures Consistent(AddedAll(d, mappings, p.listing, false), h + Held(mappings, p.names))
  {
    HeldByListing(mappings, p);
    AddedAllHolds(d, h, mappings, p.listing);
  }

  lemma OneMoreInstalled(before: multiset<Path>, mappings: map<string, string>, installed: seq<Package>, p: Package)
    ensures before + Total(mappings, installed) + Held(mappings, p.names) == before + Total(mappings, installed + [p])
  {
    assert (installed + [p])[..|installed|] == installed;
    Associate(before, Total(mappings, installed), Held(mappings, p.names));
  }

  lemma RoomLeft(before: multiset<Path>, mappings: map<string, string>, installed: seq<Package>, n: nat)
    requires (forall q :: q in installed ==> q.Ok(mappings)) && Roomy(before, Files(installed) + n)
    ensures Roomy(before + Total(mappings, installed), n)
  {
    forall t
      ensures (before + Total(mappings, installed))[t] + n < LIMIT
    {
      TotalBounded(mappings, installed, t);
    }
  }

  lemma ReinstallHolds(d: Disk, before: multiset<Path>, mappings: map<string, string>, installed: seq<Package>, i: nat)
    requires Holding(d, before, mappings, installed) && i < |installed|
    ensures Holding(AddedAll(d, mappings, installed[i].listing, true), before, mappings, installed)
  {
    var p := installed[i];
    HeldByListing(mappings, p);
    TotalWithout(mappings, installed, i);
    ReinstalledAllHolds(d, before + Total(mappings, installed), mappings, p.listing);
  }

  lemma RemoveHolds(d: Disk, before: multiset<Path>, mappings: map<string, string>, installed: seq<Package>, i: nat)
    requires Holding(d, before, mappings, installed) && i < |installed|
    ensures Holding(RemovedAll(d, mappings, installed[i].names), before, mappings, installed[..i] + installed[i + 1..])
  {
    var p := installed[i];
    var rest := installed[..i] + installed[i + 1..];
    RestInstalled(installed, i);
    LetGoIsHeld(mappings, p.names);
    TotalWithout(mappings, installed, i);
    RemovedAllHolds(d, before + Total(mappings, installed), mappings, p.names);
    TakeAway(before, Total(mappings, rest), Held(mappings, p.names));
  }

  lemma RestInstalled(installed: seq<Package>, i: nat)
    requires i < |installed|
    ensures forall q :: q in installed[..i] + installed[i + 1..] ==> q in installed
  {
  }

  lemma TakeAway(a: multiset<Path>, b: multiset<Path>, c: multiset<Path>)
    ensures a + (b + c) - c == a + b
  {
  }

  /** The packages installed after a history. */
  function Installed(history: seq<Event>): seq<Package> {
    if history == [] then [] else After(history[|history| - 1], Installed(history[..|history| - 1]))
  }

  ghost predicate AllPossible(history: seq<Event>, before: multiset<Path>, mappings: map<string, string>) {
    forall i :: 0 <= i < |history| ==> Possible(history[i], before, mappings, Installed(history[..i]))
  }

  lemma InstalledNext(history: seq<Event>, i: nat)
    requires i < |history|
    ensures Installed(history[..i + 1]) == After(history[i], Installed(history[..i]))
  {
    assert history[..i + 1][..i] == history[..i];
  }

  /** The files that have wanted to be at a place since it was last empty, in their order. */
  ghost function Candidates(mappings: map<string, string>, start: Disk, before: multiset<Path>, history: seq<Event>, t: Path):
    seq<FileInfo>
  {
    if history == [] then Before(start, t)
    else
      var init := history[..|history| - 1];
      NextCandidates(Candidates(mappings, start, before, init, t), mappings, before, history[|history| - 1], Installed(init), t)
  }

  ghost function NextCandidates(c: seq<FileInfo>, mappings: map<string, string>, before: multiset<Path>, e: Event,
                                installed: seq<Package>, t: Path): seq<FileInfo> {
    match e
    case Install(p) => c + Packaged(mappings, p.listing, t)
    case Reinstall(i) => if i < |installed| then c + Packaged(mappings, installed[i].listing, t) else c
    case Remove(i) => if (before + Total(mappings, After(e, installed)))[t] == 0 then [] else c
  }

  lemma PlayedChooses(c: seq<FileInfo>, d: Disk, mappings: map<string, string>, before: multiset<Path>, e: Event,
                      installed: seq<Package>, t: Path)
    requires Chosen(c, d, t) && Possible(e, before, mappings, installed) && Holding(d, before, mappings, installed)
    requires Holding(Played(d, mappings, e, installed), before, mappings, After(e, installed))
    ensures Chosen(NextCandidates(c, mappings, before, e, installed, t), Played(d, mappings, e, installed), t)
  {
    match e
    case Install(p) => AddedAllChooses(c, d, mappings, p.listing, false, t);
    case Reinstall(i) => AddedAllChooses(c, d, mappings, installed[i].listing, true, t);
    case Remove(i) => RemovedAllLeaves(d, mappings, installed[i].names, t);
  }

  ghost predicate AllChosen(mappings: map<string, string>, start: Disk, before: multiset<Path>, history: seq<Event>, d: Disk) {
    forall t :: Chosen(Candidates(mappings, start, before, history, t), d, t)
  }

  lemma ChosenNext(mappings: map<string, string>, start: Disk, before: multiset<Path>, history: seq<Event>, i: nat, d: Disk)
    requires i < |history| && AllChosen(mappings, start, before, history[..i], d)
    requires var e, installed := history[i], Installed(history[..i]);
             && Possible(e, before, mappings, installed) && Holding(d, before, mappings, installed)
             && Holding(Played(d, mappings, e, installed), before, mappings, After(e, installed))
    ensures AllChosen(mappings, start, before, history[..i + 1], Played(d, mappings, history[i], Installed(history[..i])))
  {
    var e, installed, next := history[i], Installed(history[..i]), history[..i + 1];
    assert next[..i] == history[..i];
    forall t
      ensures Chosen(Candidates(mappings, start, before, next, t), Played(d, mappings, e, installed), t)
    {
      PlayedChooses(Candidates(mappings, start, before, history[..i], t), d, mappings, before, e, installed, t);
    }
  }

  lemma NothingInstalled(d: Disk, before: multiset<Path>, mappings: map<string, string>)
    requires Consistent(d, before)
    ensures Holding(d, before, mappings, [])
  {
    assert before + multiset{} == before;
  }

  /** After every history, a file is there exactly while it is held, its count is right, and it is the one that the
      rules on versions choose from all that have wanted to be there. */
  method Run(mappings: map<string, string>, start: Disk, ghost before: multiset<Path>, history: seq<Event>) returns (d: Disk)
    requires Consistent(start, before) && AllPossible(history, before, mappings)
    ensures Holding(d, before, mappings, Installed(history))
    ensures AllChosen(mappings, start, before, history, d)
  {
    var handler := new VirtualFileHandler(mappings, start);
    var installed: seq<Package> := [];
    NothingInstalled(start, before, mappings);
    forall t ensures Chosen(Candidates(mappings, start, before, [], t), start, t) {
      BeforeChosen(start, t);
    }
    for i := 0 to |history|
      invariant handler.mappings == mappings && installed == Installed(history[..i])
      invariant Holding(handler.disk, before, mappings, installed)
      invariant AllChosen(mappings, start, before, history[..i], handler.disk)
    {
      ghost var was := handler.disk;
      Perform(handler, history[i], before, installed);
      InstalledNext(history, i);
      ChosenNext(mappings, start, before, history, i, was);
      installed := After(history[i], installed);
    }
    assert history[..|history|] == history;
    d := handler.disk;
  }
}
