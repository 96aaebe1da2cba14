/**
 Registries: the tree of keys and values in a package's registry file, and the real registry.
 Names are taken as the registry compares them, without regard to case: in upper case.
 */
module RegistryTree {
  import opened Strings

  type Name = string
  type Path = seq<Name>

  /** A value's type and bytes. */
  datatype Data = Data(kind: nat, bytes: seq<int>)

  /** A key of the virtual tree, with its values and subkeys as they are enumerated. */
  datatype VKey = VKey(name: Name, values: seq<(Name, Data)>, subs: seq<VKey>)

  /** The real registry: the keys there are, and the values. A path starts with the hive. */
  datatype Reg = Reg(keys: set<Path>, values: map<(Path, Name), Data>) {

    ghost predicate Ok() {
      && (forall q :: q in keys && |q| > 1 ==> q[..|q| - 1] in keys)
      && (forall e :: e in values ==> e.0 in keys)
    }

    predicate HasValues(q: Path) {
      exists e :: e in values && e.0 == q
    }

    predicate HasSubkeys(q: Path) {
      exists k :: k in keys && |k| == |q| + 1 && k[..|q|] == q
    }
  }

  /** RegistryKey::GetPath: the names below the hive, each after a backslash. */
  function Text(p: Path): string {
    if |p| <= 1 then "" else Text(p[..|p| - 1]) + "\\" + p[|p| - 1]
  }

  const UNINSTALL := "MICROSOFT\\WINDOWS\\CURRENTVERSION\\UNINSTALL"
  const SHARED_DLLS := "SOFTWARE\\MICROSOFT\\WINDOWS\\CURRENTVERSION\\SHAREDDLLS"

  /** IsExcludeKey. */
  predicate Excluded(p: Path) {
    Contains(Text(p), UNINSTALL) || Contains(Text(p), SHARED_DLLS)
  }

  lemma ContainsLonger(s: string, more: string, part: string)
    requires Contains(s, part)
    ensures Contains(s + more, part)
  {
    var i :| 0 <= i <= |s| && HasPrefix(s[i..], part);
    assert (s + more)[i..][..|part|] == s[i..][..|part|];
    assert HasPrefix((s + more)[i..], part);
  }

  /** What is below an excluded key is excluded. */
  lemma ExcludedBelow(p: Path, n: Name)
    requires |p| >= 1 && Excluded(p)
    ensures Excluded(p + [n])
  {
    assert (p + [n])[..|p|] == p;
    var more := "\\" + n;
    assert Text(p + [n]) == Text(p) + more;
    if Contains(Text(p), UNINSTALL) {
      ContainsLonger(Text(p), more, UNINSTALL);
    } else {
      ContainsLonger(Text(p), more, SHARED_DLLS);
    }
  }

  /** The path of a key opened below Software\Classes has no backslash in front; that makes no
      difference to what is excluded. */
  lemma LeadingBackslash(s: string, part: string)
    requires |part| > 0 && part[0] != '\\'
    ensures Contains("\\" + s, part) <==> Contains(s, part)
  {
    var t := "\\" + s;
    if Contains(t, part) {
      var i :| 0 <= i <= |t| && HasPrefix(t[i..], part);
      assert t[i..][0] == part[0];
      assert i > 0 && t[i..] == s[i - 1..];
    }
    if Contains(s, part) {
      var i :| 0 <= i <= |s| && HasPrefix(s[i..], part);
      assert t[i + 1..] == s[i..];
    }
  }

  // What a virtual tree names in the real registry.

  const REG_SZ := 1

  /** DevirtualizeValue, for data without tokens: flags beyond the type are dropped, and no type
      becomes string. */
  function Written(d: Data): Data {
    Data(if d.kind % 256 == 0 then REG_SZ else d.kind % 256, d.bytes)
  }

  /** The values of a key, the last of a name winning. */
  function OwnValues(values: seq<(Name, Data)>, p: Path): map<(Path, Name), Data> {
    if values == [] then map[]
    else
      var (n, d) := values[|values| - 1];
      OwnValues(values[..|values| - 1], p)[(p, n) := Written(d)]
  }

  /** The values that the tree names at and below a real key, outside excluded keys. */
  function Values(ex: Path -> bool, v: VKey, p: Path): map<(Path, Name), Data>
    requires |p| >= 1
    decreases v, |v.subs| + 1
  {
    if ex(p) then map[] else SubValues(ex, v, |v.subs|, p) + OwnValues(v.values, p)
  }

  /** Those of the first k subkeys. */
  function SubValues(ex: Path -> bool, v: VKey, k: nat, p: Path): map<(Path, Name), Data>
    requires k <= |v.subs| && |p| >= 1
    decreases v, k
  {
    if k == 0 then map[] else SubValues(ex, v, k - 1, p) + Values(ex, v.subs[k - 1], p + [v.subs[k - 1].name])
  }

  /** The keys that the tree names below a real key, as far as they are looked at. */
  function Keys(ex: Path -> bool, v: VKey, p: Path): set<Path>
    requires |p| >= 1
    decreases v, |v.subs| + 1
  {
    if ex(p) then {} else SubKeys(ex, v, |v.subs|, p)
  }

  function SubKeys(ex: Path -> bool, v: VKey, k: nat, p: Path): set<Path>
    requires k <= |v.subs| && |p| >= 1
    decreases v, k
  {
    if k == 0 then {}
    else
      var q := p + [v.subs[k - 1].name];
      SubKeys(ex, v, k - 1, p) + {q} + Keys(ex, v.subs[k - 1], q)
  }

  /** Subkeys have different names, at every level. */
  predicate Distinct(v: VKey)
    decreases v, |v.subs| + 1
  {
    && (forall i, j :: 0 <= i < j < |v.subs| ==> v.subs[i].name != v.subs[j].name)
    && (forall s :: s in v.subs ==> Distinct(s))
  }

  /** q is p or below it. */
  predicate Below(p: Path, q: Path) {
    |p| <= |q| && q[..|p|] == p
  }

  lemma BelowTransitive(p: Path, n: Name, q: Path)
    requires Below(p + [n], q)
    ensures Below(p, q)
  {
    assert q[..|p|] == q[..|p| + 1][..|p|] == p;
  }

  lemma {:induction false} OwnValuesAt(values: seq<(Name, Data)>, p: Path)
    ensures forall e :: e in OwnValues(values, p) ==> e.0 == p
  {
    if values != [] {
      OwnValuesAt(values[..|values| - 1], p);
    }
  }

  /** A tree names only values at or below its key, and none at or below an excluded one. */
  lemma {:induction false} ValuesBelow(ex: Path -> bool, v: VKey, p: Path)
    requires |p| >= 1
    ensures forall e :: e in Values(ex, v, p) ==> Below(p, e.0) && !ex(e.0)
    decreases v, |v.subs| + 1
  {
    if !ex(p) {
      SubValuesBelow(ex, v, |v.subs|, p);
      OwnValuesAt(v.values, p);
    }
  }

  lemma {:induction false} SubValuesBelow(ex: Path -> bool, v: VKey, k: nat, p: Path)
    requires k <= |v.subs| && |p| >= 1
    ensures forall e :: e in SubValues(ex, v, k, p) ==> Below(p, e.0) && !ex(e.0)
    decreases v, k
  {
    if k > 0 {
      var n := v.subs[k - 1].name;
      SubValuesBelow(ex, v, k - 1, p);
      ValuesBelow(ex, v.subs[k - 1], p + [n]);
      forall e | e in Values(ex, v.subs[k - 1], p + [n])
        ensures Below(p, e.0)
      {
        BelowTransitive(p, n, e.0);
      }
    }
  }

  /** The keys that a tree names are below its own. */
  lemma {:induction false} KeysBelow(ex: Path -> bool, v: VKey, p: Path)
    requires |p| >= 1
    ensures forall q :: q in Keys(ex, v, p) ==> Below(p, q) && |q| > |p|
    decreases v, |v.subs| + 1
  {
    if !ex(p) {
      SubKeysBelow(ex, v, |v.subs|, p);
    }
  }

  lemma {:induction false} SubKeysBelow(ex: Path -> bool, v: VKey, k: nat, p: Path)
    requires k <= |v.subs| && |p| >= 1
    ensures forall q :: q in SubKeys(ex, v, k, p) ==> Below(p, q) && |q| > |p|
    ensures forall q :: q in SubKeys(ex, v, k, p) ==> exists i :: 0 <= i < k && v.subs[i].name == q[|p|]
    decreases v, k
  {
    if k > 0 {
      var n := v.subs[k - 1].name;
      SubKeysBelow(ex, v, k - 1, p);
      KeysBelow(ex, v.subs[k - 1], p + [n]);
      forall q | q in SubKeys(ex, v, k, p) && q !in SubKeys(ex, v, k - 1, p)
        ensures Below(p, q) && |q| > |p| && v.subs[k - 1].name == q[|p|]
      {
        assert Below(p + [n], q);
        BelowTransitive(p, n, q);
        assert q[..|p| + 1][|p|] == n;
      }
    }
  }

  /** These keys, with the one they are named under, hold the parents of the keys and the values. */
  ghost predicate Closed(keys: set<Path>, values: map<(Path, Name), Data>, p: Path) {
    && (forall q :: q in keys ==> |q| > |p| && (q[..|q| - 1] == p || q[..|q| - 1] in keys))
    && (forall e :: e in values ==> e.0 == p || e.0 in keys)
  }

  /** Every key that a tree names has its parent named, and so has every value. */
  lemma {:induction false} KeysClosed(ex: Path -> bool, v: VKey, p: Path)
    requires |p| >= 1
    ensures Closed(Keys(ex, v, p), Values(ex, v, p), p)
    decreases v, |v.subs| + 1
  {
    if !ex(p) {
      SubKeysClosed(ex, v, |v.subs|, p);
      OwnValuesAt(v.values, p);
    }
  }

  lemma {:induction false} SubKeysClosed(ex: Path -> bool, v: VKey, k: nat, p: Path)
    requires k <= |v.subs| && |p| >= 1
    ensures Closed(SubKeys(ex, v, k, p), SubValues(ex, v, k, p), p)
    decreases v, k
  {
    if k > 0 {
      var q := p + [v.subs[k - 1].name];
      SubKeysClosed(ex, v, k - 1, p);
      KeysClosed(ex, v.subs[k - 1], q);
      assert q[..|q| - 1] == p;
    }
  }

  /** Below a key that does not exist there is nothing. */
  lemma {:induction false} NothingBelow(r: Reg, k: Path, q: Path)
    requires r.Ok() && |k| >= 1 && k !in r.keys && Below(k, q)
    ensures q !in r.keys
    decreases |q|
  {
    if |q| > |k| {
      assert q[..|q| - 1][..|k|] == q[..|k|];
      NothingBelow(r, k, q[..|q| - 1]);
    } else {
      assert q == k;
    }
  }

  lemma NoValuesBelow(ex: Path -> bool, r: Reg, v: VKey, k: Path)
    requires r.Ok() && |k| >= 1 && k !in r.keys
    ensures r.values - Values(ex, v, k).Keys == r.values
  {
    ValuesBelow(ex, v, k);
    forall e | e in Values(ex, v, k)
      ensures e !in r.values
    {
      NothingBelow(r, k, e.0);
    }
  }
}
