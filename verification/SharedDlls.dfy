/**
 VirtualFileHandler.cpp: the files of a package's VFS directory copied to their real places and
 removed again, with reference counts under the SharedDLLs registry key. A file is there exactly
 while something holds it: a package, once for every one of its names that stands for the file,
 or whatever put it there before.
 */
module SharedDlls {
  import opened Strings
  import opened Wrappers

  type Path = string

  // Names in a package and the places they stand for.

  /** The position of the first backslash, or the length. */
  function FirstSlash(s: string): (i: nat)
    ensures i <= |s| && (i < |s| ==> s[i] == '\\') && forall j :: 0 <= j < i ==> s[j] != '\\'
  {
    if s == "" then 0 else if s[0] == '\\' then 0
    else
      var k := FirstSlash(s[1..]);
      assert forall j :: 1 <= j < k + 1 ==> s[j] == s[1..][j - 1];
      k + 1
  }

  predicate HasSlash(s: string) {
    FirstSlash(s) < |s|
  }

  /** What MsixCoreLib_GetPathChild leaves of a string: what follows the first backslash. */
  function PathChild(s: string): string
    requires HasSlash(s)
  {
    s[FirstSlash(s) + 1..]
  }

  /** Both calls of GetPathChild for a name come to an end. A file right below the first directory is
      allowed, unless it has the name of a mapping. */
  predicate Ends(mappings: map<string, string>, name: string) {
    HasSlash(name) && (PathChild(name) in mappings ==> HasSlash(PathChild(name)))
  }

  // The loop of GetPathChild, and when it comes to an end.

  /** erase(0, 1), which leaves an empty string as it is. */
  function EraseFirst(s: string): string {
    if s == "" then "" else s[1..]
  }

  /** The string after k passes of the loop. */
  function Erased(s: string, k: nat): string {
    if k == 0 then s else EraseFirst(Erased(s, k - 1))
  }

  /** The test before the next pass fails; the front of an empty string is its terminating zero. */
  predicate Stops(s: string, k: nat) {
    var left := Erased(s, k);
    left != "" && left[0] == '\\'
  }

  ghost predicate FirstStop(s: string, k: nat) {
    Stops(s, k) && forall j: nat :: j < k ==> !Stops(s, j)
  }

  /** The call with this string returns. */
  ghost predicate Returns(s: string) {
    exists k: nat :: FirstStop(s, k)
  }

  lemma {:induction false} ErasedIs(s: string, k: nat)
    ensures Erased(s, k) == if k <= |s| then s[k..] else ""
  {
    if k > 0 {
      ErasedIs(s, k - 1);
    }
  }

  lemma StopsIs(s: string, k: nat)
    ensures Stops(s, k) <==> k < |s| && s[k] == '\\'
  {
    ErasedIs(s, k);
  }

  /** The loop stops where the first backslash is, and after its last erase PathChild is left. */
  lemma StopsAtFirstSlash(s: string, k: nat)
    ensures FirstStop(s, k) <==> HasSlash(s) && k == FirstSlash(s)
    ensures FirstStop(s, k) ==> EraseFirst(Erased(s, k)) == PathChild(s)
  {
    var i := FirstSlash(s);
    StopsIs(s, i);
    StopsIs(s, k);
    forall j: nat | j < k
      ensures !Stops(s, j) || HasSlash(s)
      ensures !Stops(s, j) || i <= j
    {
      StopsIs(s, j);
    }
    ErasedIs(s, k);
  }

  /** GetPathChild returns exactly for strings with a backslash. */
  lemma ReturnsIff(s: string)
    ensures Returns(s) <==> HasSlash(s)
    ensures HasSlash(s) <==> '\\' in s
  {
    StopsAtFirstSlash(s, FirstSlash(s));
    if Returns(s) {
      var k: nat :| FirstStop(s, k);
      StopsAtFirstSlash(s, k);
    }
  }

  /** MsixCoreLib_GetPathChild. */
  method GetPathChild(path: string) returns (child: string)
    requires Returns(path)
    ensures HasSlash(path) && child == PathChild(path)
  {
    ghost var k: nat := 0;
    ghost var n: nat :| FirstStop(path, n);
    StopsAtFirstSlash(path, n);
    child := path;
    while child == "" || child[0] != '\\'
      invariant k <= n && child == Erased(path, k)
      decreases n - k
    {
      assert !Stops(path, k);
      child := EraseFirst(child);
      k := k + 1;
    }
    assert Stops(path, k);
    child := EraseFirst(child);
  }

  /** ConvertRemainingPathToFullPath. */
  method ConvertRemainingPath(mappings: map<string, string>, remaining: string) returns (full: Option<Path>)
    requires RestReturns(mappings, remaining)
    ensures full == FullPath(mappings, remaining)
  {
    var dir := remaining[..FirstSlash(remaining)];
    full := None;
    if dir in mappings {
      var child := GetPathChild(remaining);
      full := Some(mappings[dir] + "\\" + child);
    }
  }

  /** ConvertVfsNameToFullPath. */
  method ConvertVfsName(mappings: map<string, string>, name: string) returns (full: Option<Path>)
    requires SplitReturns(mappings, name)
    ensures full == Target(mappings, name)
  {
    EndsIff(mappings, name);
    ReturnsIff(name);
    var remaining := GetPathChild(name);
    RestReturnsIff(mappings, remaining);
    full := ConvertRemainingPath(mappings, remaining);
  }

  /** The splitting of a name returns: the first call does, and if what it leaves begins with the
      name of a mapping, so does the second. */
  ghost predicate SplitReturns(mappings: map<string, string>, name: string) {
    exists k: nat :: FirstStop(name, k) && RestReturns(mappings, EraseFirst(Erased(name, k)))
  }

  ghost predicate RestReturns(mappings: map<string, string>, remaining: string) {
    remaining[..FirstSlash(remaining)] in mappings ==> Returns(remaining)
  }

  lemma RestReturnsIff(mappings: map<string, string>, remaining: string)
    ensures RestReturns(mappings, remaining) <==> (remaining in mappings ==> HasSlash(remaining))
  {
    ReturnsIff(remaining);
    assert !HasSlash(remaining) ==> remaining[..FirstSlash(remaining)] == remaining;
  }

  /** Ends is exactly the condition under which the splitting of a name returns. */
  lemma EndsIff(mappings: map<string, string>, name: string)
    ensures SplitReturns(mappings, name) <==> Ends(mappings, name)
  {
    var i := FirstSlash(name);
    StopsAtFirstSlash(name, i);
    if HasSlash(name) {
      RestReturnsIff(mappings, PathChild(name));
    }
    if SplitReturns(mappings, name) {
      var k: nat :| FirstStop(name, k) && RestReturns(mappings, EraseFirst(Erased(name, k)));
      StopsAtFirstSlash(name, k);
    }
  }

  /** Names for which it does not: VFS alone, and a file of the VFS directory that has the name of a
      mapping. The second can be in a package that has nothing else wrong. */
  lemma NeverReturns(mappings: map<string, string>, dir: string)
    requires dir in mappings && '\\' !in dir
    ensures LooksLikeVfs("VFS") && !SplitReturns(mappings, "VFS")
    ensures InVfs("VFS\\" + dir) && LooksLikeVfs("VFS\\" + dir) && !SplitReturns(mappings, "VFS\\" + dir)
  {
    var alone, name := "VFS", "VFS\\" + dir;
    EndsIff(mappings, alone);
    ReturnsIff(alone);
    assert HasPrefix(alone[0..], "VFS");
    assert name[..4] == "VFS\\";
    SameRemainder(name);
    assert name[4..] == dir;
    ReturnsIff(dir);
    EndsIff(mappings, name);
  }

  /** ConvertRemainingPathToFullPath. */
  function FullPath(mappings: map<string, string>, remaining: string): Option<Path> {
    var dir := remaining[..FirstSlash(remaining)];
    if dir in mappings && HasSlash(remaining) then Some(mappings[dir] + "\\" + PathChild(remaining)) else None
  }

  /** The place a name of the package stands for: ConvertVfsNameToFullPath. */
  function Target(mappings: map<string, string>, name: string): Option<Path> {
    if HasSlash(name) then FullPath(mappings, PathChild(name)) else None
  }

  /** The file is in the VFS directory: the add request goes through that directory. */
  predicate InVfs(name: string) {
    HasPrefix(name, "VFS\\")
  }

  /** The remove request takes every name of the block map that has VFS anywhere in it. */
  predicate LooksLikeVfs(name: string) {
    Contains(name, "VFS")
  }

  /** What an add request strips from the path of a file is what a remove request does. */
  lemma SameRemainder(name: string)
    requires InVfs(name)
    ensures FirstSlash(name) == 3 && PathChild(name) == name[4..] && LooksLikeVfs(name)
  {
    assert name[..4] == "VFS\\";
    assert name[0] == 'V' && name[1] == 'F' && name[2] == 'S' && name[3] == '\\';
    assert name[0..] == name && HasPrefix(name[0..], "VFS");
  }

  // Versions.

  /** A FILETIME in its two halves. */
  datatype FileTime = FileTime(high: nat, low: nat)

  const TWO_SECONDS := 20000000

  /** What decides whether a file may be replaced. An unversioned file counts as version 0. */
  datatype FileInfo = FileInfo(version: Option<nat>, created: FileTime, written: FileTime) {
    predicate Unversioned() {
      version.None?
    }

    function Version(): nat {
      if version.Some? then version.value else 0
    }
  }

  /** IsFileModified. */
  predicate Modified(f: FileInfo) {
    f.written.high > f.created.high
    || (f.written.high == f.created.high && f.written.low > f.created.low && f.written.low - f.created.low > TWO_SECONDS)
  }

  function Ticks(t: FileTime): int {
    t.high * 0x1_0000_0000 + t.low
  }

  /** It is the two-second rule, except that a carry into the high half counts as modified. */
  lemma ModifiedIsTwoSeconds(f: FileInfo)
    requires f.created.low < 0x1_0000_0000 && f.written.low < 0x1_0000_0000
    ensures Modified(f) <==> Ticks(f.written) - Ticks(f.created) > TWO_SECONDS
                             || (Ticks(f.written) > Ticks(f.created) && f.written.high != f.created.high)
  {
  }

  /** Whether the file that is there is overwritten by that of the package. */
  predicate Overwrites(target: FileInfo, source: FileInfo) {
    if target.Unversioned() && !source.Unversioned() then true
    else if target.Unversioned() && !Modified(target) then true
    else target.Version() < source.Version()
  }

  /** No version is replaced by one that is not higher, and user data that was changed only by
      a versioned file. */
  lemma OverwriteRules(target: FileInfo, source: FileInfo)
    ensures !target.Unversioned() ==> (Overwrites(target, source) <==> source.Version() > target.Version())
    ensures target.Unversioned() ==> (Overwrites(target, source) <==> !source.Unversioned() || !Modified(target))
  {
  }

  // Files, counts and holders.

  datatype Disk = Disk(files: map<Path, FileInfo>, counts: map<Path, nat>)

  const LIMIT := 0x1_0000_0000

  /** A file is there exactly while it has a holder; a count is the number of holders; and
      without a count there is exactly one. */
  ghost predicate Consistent(d: Disk, holders: multiset<Path>) {
    && (forall t :: t in d.files <==> holders[t] >= 1)
    && (forall t :: t in d.counts ==> t in d.files && d.counts[t] == holders[t])
    && (forall t :: t in d.files && t !in d.counts ==> holders[t] == 1)
  }

  lemma OnlyHolders(d: Disk, h: multiset<Path>, h': multiset<Path>)
    requires Consistent(d, h') && h != h'
    ensures !Consistent(d, h)
  {
    if Consistent(d, h) {
      HoldersUnique(d, h, h');
    }
  }

  /** The disk tells how many holders there are. */
  lemma HoldersUnique(d: Disk, h: multiset<Path>, h': multiset<Path>)
    requires Consistent(d, h) && Consistent(d, h')
    ensures h == h'
  {
    forall t
      ensures h[t] == h'[t]
    {
      if t in d.counts {
      } else if t in d.files {
      } else {
        assert h[t] == 0 == h'[t];
      }
    }
  }

  /** NeedToCopyFile and CopyVfsFileIfNecessary: the count first, then the file. */
  function Added(d: Disk, t: Path, source: FileInfo, reinstall: bool): Disk {
    if t !in d.files then d.(files := d.files[t := source])
    else
      var d1 := if reinstall then d
                else d.(counts := d.counts[t := if t in d.counts then (d.counts[t] + 1) % LIMIT else 2]);
      if Overwrites(d.files[t], source) then d1.(files := d1.files[t := source]) else d1
  }

  /** RemoveVfsFile: count down, and delete the file with the last count. */
  function Removed(d: Disk, t: Path): Disk {
    if t in d.counts && d.counts[t] > 1 then d.(counts := d.counts[t := d.counts[t] - 1])
    else Disk(d.files - {t}, d.counts - {t})
  }

  /** One more holder. */
  lemma AddedHolds(d: Disk, h: multiset<Path>, t: Path, source: FileInfo)
    requires Consistent(d, h) && h[t] + 1 < LIMIT
    ensures Consistent(Added(d, t, source, false), h + multiset{t})
  {
  }

  /** A reinstall changes nothing for a file that is held. */
  lemma ReinstalledHolds(d: Disk, h: multiset<Path>, t: Path, source: FileInfo)
    requires Consistent(d, h) && h[t] >= 1
    ensures Consistent(Added(d, t, source, true), h)
  {
  }

  /** One holder fewer, if there is one. */
  lemma RemovedHolds(d: Disk, h: multiset<Path>, t: Path)
    requires Consistent(d, h)
    ensures Consistent(Removed(d, t), h - multiset{t})
  {
  }

  // Whole packages.

  /** What the block map of a package has to be like for a removal to come to an end. */
  predicate PackageOk(mappings: map<string, string>, names: seq<string>) {
    forall n :: n in names && LooksLikeVfs(n) ==> Ends(mappings, n)
  }

  /** A removal comes to an end exactly for such packages. */
  lemma PackageOkIff(mappings: map<string, string>, names: seq<string>)
    ensures PackageOk(mappings, names) <==> forall n :: n in names && LooksLikeVfs(n) ==> SplitReturns(mappings, n)
  {
    forall n | n in names
      ensures SplitReturns(mappings, n) <==> Ends(mappings, n)
    {
      EndsIff(mappings, n);
    }
  }

  function One(t: Option<Path>): multiset<Path> {
    if t.Some? then multiset{t.value} else multiset{}
  }

  /** What a name makes the package hold when it is added. */
  function Share(mappings: map<string, string>, n: string): multiset<Path> {
    if InVfs(n) then One(Target(mappings, n)) else multiset{}
  }

  /** What a name makes the package let go when it is removed. */
  ghost function Release(mappings: map<string, string>, n: string): multiset<Path> {
    if LooksLikeVfs(n) then One(Target(mappings, n)) else multiset{}
  }

  /** What an add request makes the package hold. */
  function Held(mappings: map<string, string>, names: seq<string>): multiset<Path> {
    if names == [] then multiset{} else Held(mappings, names[..|names| - 1]) + Share(mappings, names[|names| - 1])
  }

  /** What a remove request lets go. */
  ghost function LetGo(mappings: map<string, string>, names: seq<string>): multiset<Path> {
    if names == [] then multiset{} else LetGo(mappings, names[..|names| - 1]) + Release(mappings, names[|names| - 1])
  }

  /** Every name that looks like one of the VFS directory and stands for a file is one. */
  ghost predicate WellNamed(mappings: map<string, string>, names: seq<string>) {
    forall n :: n in names && LooksLikeVfs(n) && Target(mappings, n).Some? ==> InVfs(n)
  }

  /** A remove request lets go at least what the add request held, and no more exactly when
      the package is well named. */
  lemma {:induction false} LetGoIsHeld(mappings: map<string, string>, names: seq<string>)
    ensures Held(mappings, names) <= LetGo(mappings, names)
    ensures Held(mappings, names) == LetGo(mappings, names) <==> WellNamed(mappings, names)
  {
    if names != [] {
      var init, n := names[..|names| - 1], names[|names| - 1];
      LetGoIsHeld(mappings, init);
      if InVfs(n) {
        SameRemainder(n);
      }
      assert forall m :: m in names <==> m in init || m == n;
      var extra := if InVfs(n) then multiset{} else Release(mappings, n);
      Surplus(Held(mappings, init), LetGo(mappings, init), Share(mappings, n), extra);
      assert Release(mappings, n) == Share(mappings, n) + extra;
    }
  }

  lemma Surplus(a: multiset<Path>, b: multiset<Path>, c: multiset<Path>, extra: multiset<Path>)
    requires a <= b
    ensures a + c <= b + (c + extra)
    ensures a + c == b + (c + extra) <==> a == b && extra == multiset{}
  {
    if a + c == b + (c + extra) {
      forall t
        ensures a[t] == b[t] && extra[t] == 0
      {
        assert (a + c)[t] == (b + (c + extra))[t];
      }
    }
  }

  /** A file found in the VFS directory of the package. */
  datatype Found = Found(name: string, info: FileInfo)

  function Names(listing: seq<Found>): (names: seq<string>)
    ensures |names| == |listing| && forall i :: 0 <= i < |listing| ==> names[i] == listing[i].name
  {
    seq(|listing|, i requires 0 <= i < |listing| => listing[i].name)
  }

  predicate ListingOk(listing: seq<Found>) {
    forall i :: 0 <= i < |listing| ==> InVfs(listing[i].name)
  }

  /** CopyVfsFileToLocal for one file. */
  function AddedOne(d: Disk, mappings: map<string, string>, f: Found, reinstall: bool): Disk {
    var t := Target(mappings, f.name);
    if t.Some? then Added(d, t.value, f.info, reinstall) else d
  }

  function AddedAll(d: Disk, mappings: map<string, string>, listing: seq<Found>, reinstall: bool): Disk {
    if listing == [] then d
    else AddedOne(AddedAll(d, mappings, listing[..|listing| - 1], reinstall), mappings, listing[|listing| - 1], reinstall)
  }

  ghost function RemovedAll(d: Disk, mappings: map<string, string>, names: seq<string>): Disk {
    if names == [] then d
    else
      var n := names[|names| - 1];
      var d1 := RemovedAll(d, mappings, names[..|names| - 1]);
      if LooksLikeVfs(n) && Target(mappings, n).Some? then Removed(d1, Target(mappings, n).value) else d1
  }

  /** The count of no file comes near what 32 bits hold. */
  ghost predicate Roomy(h: multiset<Path>, more: nat) {
    forall t :: h[t] + more < LIMIT
  }

  lemma {:induction false} AddedAllHolds(d: Disk, h: multiset<Path>, mappings: map<string, string>, listing: seq<Found>)
    requires ListingOk(listing) && Consistent(d, h) && Roomy(h, |listing|)
    ensures Consistent(AddedAll(d, mappings, listing, false), h + Held(mappings, Names(listing)))
    ensures forall t :: Held(mappings, Names(listing))[t] <= |listing|
  {
    if listing == [] {
      assert h + multiset{} == h;
    } else {
      var init, f := listing[..|listing| - 1], listing[|listing| - 1];
      AddedAllHolds(d, h, mappings, init);
      HeldOfLast(mappings, listing);
      AddedOneHolds(AddedAll(d, mappings, init, false), h + Held(mappings, Names(init)), mappings, f);
      Associate(h, Held(mappings, Names(init)), Share(mappings, f.name));
    }
  }

  lemma HeldOfLast(mappings: map<string, string>, listing: seq<Found>)
    requires listing != []
    ensures Held(mappings, Names(listing))
         == Held(mappings, Names(listing[..|listing| - 1])) + Share(mappings, listing[|listing| - 1].name)
  {
    assert Names(listing)[..|listing| - 1] == Names(listing[..|listing| - 1]);
  }

  lemma Associate(a: multiset<Path>, b: multiset<Path>, c: multiset<Path>)
    ensures a + b + c == a + (b + c)
  {
  }

  lemma AddedOneHolds(d: Disk, h: multiset<Path>, mappings: map<string, string>, f: Found)
    requires InVfs(f.name) && Consistent(d, h) && Roomy(h, 1)
    ensures Consistent(AddedOne(d, mappings, f, false), h + Share(mappings, f.name))
  {
    var t := Target(mappings, f.name);
    if t.Some? {
      AddedHolds(d, h, t.value, f.info);
    } else {
      assert h + multiset{} == h;
    }
  }

  lemma {:induction false} ReinstalledAllHolds(d: Disk, h: multiset<Path>, mappings: map<string, string>, listing: seq<Found>)
    requires ListingOk(listing) && Consistent(d, h)
    requires forall t :: t in Held(mappings, Names(listing)) ==> t in h
    ensures Consistent(AddedAll(d, mappings, listing, true), h)
  {
    if listing != [] {
      var init, f := listing[..|listing| - 1], listing[|listing| - 1];
      var t := Target(mappings, f.name);
      HeldOfLast(mappings, listing);
      ReinstalledAllHolds(d, h, mappings, init);
      if t.Some? {
        assert t.value in Held(mappings, Names(listing));
        ReinstalledHolds(AddedAll(d, mappings, init, true), h, t.value, f.info);
      }
    }
  }

  lemma {:induction false} RemovedAllHolds(d: Disk, h: multiset<Path>, mappings: map<string, string>, names: seq<string>)
    requires Consistent(d, h)
    ensures Consistent(RemovedAll(d, mappings, names), h - LetGo(mappings, names))
  {
    if names == [] {
      assert h - multiset{} == h;
    } else {
      var init, n := names[..|names| - 1], names[|names| - 1];
      var before := LetGo(mappings, init);
      RemovedAllHolds(d, h, mappings, init);
      if LooksLikeVfs(n) {
        var t := Target(mappings, n);
        if t.Some? {
          RemovedHolds(RemovedAll(d, mappings, init), h - before, t.value);
        }
        assert h - before - One(t) == h - (before + One(t));
        assert t.None? ==> before + One(t) == before;
      } else {
        assert before + multiset{} == before;
      }
    }
  }
}
