/**
 RegistryDevirtualizer.cpp: the virtual tree of a package copied into the real registry, and
 removed from it again. Calls of the registry are taken to succeed.
 */
module RegistryDevirtualizer {
  import opened RegistryTree
  import opened RegistryWalk
  import opened Wrappers

  lemma MapSum(a: map<(Path, Name), Data>, b: map<(Path, Name), Data>, c: map<(Path, Name), Data>)
    ensures (a + b) + c == a + (b + c)
  {
  }

  lemma MapLess(a: map<(Path, Name), Data>, b: map<(Path, Name), Data>, c: map<(Path, Name), Data>)
    ensures (a - b.Keys) - c.Keys == a - (b + c).Keys
  {
  }

  /** The registry with more keys, and values set. */
  function Overlaid(r: Reg, keys: set<Path>, values: map<(Path, Name), Data>): Reg {
    Reg(r.keys + keys, r.values + values)
  }

  lemma OverlaidTwice(r: Reg, k1: set<Path>, v1: map<(Path, Name), Data>, k2: set<Path>, v2: map<(Path, Name), Data>)
    ensures Overlaid(Overlaid(r, k1, v1), k2, v2) == Overlaid(r, k1 + k2, v1 + v2)
    ensures Overlaid(r, {}, map[]) == r
  {
    MapSum(r.values, v1, v2);
    assert r.values + map[] == r.values && r.keys + {} == r.keys && r.keys + k1 + k2 == r.keys + (k1 + k2);
  }

  lemma OwnValuesNext(values: seq<(Name, Data)>, i: nat, p: Path)
    requires i < |values|
    ensures OwnValues(values[..i + 1], p) == OwnValues(values[..i], p)[(p, values[i].0) := Written(values[i].1)]
  {
    assert values[..i + 1][..i] == values[..i];
  }

  lemma SetOne(r: Reg, values: map<(Path, Name), Data>, e: (Path, Name), d: Data)
    ensures Overlaid(r, {}, values).(values := Overlaid(r, {}, values).values[e := d]) == Overlaid(r, {}, values[e := d])
  {
    assert (r.values + values)[e := d] == r.values + values[e := d];
  }

  /** SetValue for each value of a virtual key. */
  method CopyValues(r: Reg, v: VKey, p: Path) returns (r': Reg)
    requires r.Ok() && p in r.keys
    ensures r'.Ok() && r' == Overlaid(r, {}, OwnValues(v.values, p))
  {
    r' := r;
    OverlaidTwice(r, {}, map[], {}, map[]);
    for i := 0 to |v.values|
      invariant r'.Ok() && r' == Overlaid(r, {}, OwnValues(v.values[..i], p))
    {
      OwnValuesNext(v.values, i, p);
      SetOne(r, OwnValues(v.values[..i], p), (p, v.values[i].0), Written(v.values[i].1));
      r' := SetValue(r', p, v.values[i].0, v.values[i].1);
    }
    assert v.values[..|v.values|] == v.values;
  }

  /** DevirtualizeValue. */
  method SetValue(r: Reg, p: Path, n: Name, d: Data) returns (r': Reg)
    requires r.Ok() && p in r.keys
    ensures r'.Ok() && r' == r.(values := r.values[(p, n) := Written(d)])
  {
    r' := r.(values := r.values[(p, n) := Written(d)]);
  }

  /** CopyAndDevirtualizeRegistryTree: exactly the values that the tree names outside excluded
      keys are set, and the keys on the way are created. */
  method Copy(ex: Path -> bool, r: Reg, v: VKey, p: Path) returns (r': Reg)
    requires r.Ok() && |p| >= 1 && p in r.keys
    ensures r'.Ok() && r' == Overlaid(r, Keys(ex, v, p), Values(ex, v, p))
    ensures Copied(ex, v, p, r, r')
    decreases v, |v.subs| + 1
  {
    OverlaidTwice(r, SubKeys(ex, v, |v.subs|, p), SubValues(ex, v, |v.subs|, p), {}, OwnValues(v.values, p));
    if ex(p) {
      r' := r;
    } else {
      r' := CopySubs(ex, r, v, p);
      r' := CopyValues(r', v, p);
      assert SubKeys(ex, v, |v.subs|, p) + {} == SubKeys(ex, v, |v.subs|, p);
    }
    CopiedIs(ex, v, p, r, r');
  }

  method CopySubs(ex: Path -> bool, r: Reg, v: VKey, p: Path) returns (r': Reg)
    requires r.Ok() && |p| >= 1 && p in r.keys
    ensures r'.Ok() && r' == Overlaid(r, SubKeys(ex, v, |v.subs|, p), SubValues(ex, v, |v.subs|, p))
    decreases v, |v.subs|
  {
    r' := r;
    OverlaidTwice(r, {}, map[], {}, map[]);
    for i := 0 to |v.subs|
      invariant r'.Ok() && p in r'.keys && r' == Overlaid(r, SubKeys(ex, v, i, p), SubValues(ex, v, i, p))
    {
      var q := p + [v.subs[i].name];
      r' := CreateSubKey(r', p, v.subs[i].name);
      r' := Copy(ex, r', v.subs[i], q);
      CopiedOneMore(ex, r, v, i, p);
    }
  }

  lemma CopiedOneMore(ex: Path -> bool, r: Reg, v: VKey, i: nat, p: Path)
    requires |p| >= 1 && i < |v.subs|
    ensures var q := p + [v.subs[i].name];
            Overlaid(Overlaid(Overlaid(r, SubKeys(ex, v, i, p), SubValues(ex, v, i, p)), {q}, map[]), Keys(ex, v.subs[i], q), Values(ex, v.subs[i], q))
            == Overlaid(r, SubKeys(ex, v, i + 1, p), SubValues(ex, v, i + 1, p))
  {
    var q := p + [v.subs[i].name];
    var k0, v0, k1, v1 := SubKeys(ex, v, i, p), SubValues(ex, v, i, p), Keys(ex, v.subs[i], q), Values(ex, v.subs[i], q);
    OverlaidTwice(Overlaid(r, k0, v0), {q}, map[], k1, v1);
    OverlaidTwice(r, k0, v0, {q} + k1, map[] + v1);
    assert k0 + ({q} + k1) == k0 + {q} + k1;
    assert v0 + (map[] + v1) == v0 + v1;
  }

  method CreateSubKey(r: Reg, p: Path, n: Name) returns (r': Reg)
    requires r.Ok() && p in r.keys
    ensures r'.Ok() && r' == Overlaid(r, {p + [n]}, map[]) && p + [n] in r'.keys && p in r'.keys
  {
    r' := r.(keys := r.keys + {p + [n]});
    assert (p + [n])[..|p|] == p;
    assert r.values + map[] == r.values;
  }

  /** DeleteValue for each value of a virtual key. A value that is not there is no error. */
  method RemoveValues(r: Reg, v: VKey, p: Path) returns (r': Reg)
    requires r.Ok()
    ensures r'.Ok() && r' == r.(values := r.values - OwnValues(v.values, p).Keys)
  {
    r' := r;
    assert r.values - {} == r.values;
    for i := 0 to |v.values|
      invariant r'.Ok() && r' == r.(values := r.values - OwnValues(v.values[..i], p).Keys)
    {
      assert v.values[..i + 1][..i] == v.values[..i];
      r' := r'.(values := r'.values - {(p, v.values[i].0)});
      assert r'.values == r.values - OwnValues(v.values[..i + 1], p).Keys;
    }
    assert v.values[..|v.values|] == v.values;
  }

  /** Each of the keys that is still there holds something. */
  ghost predicate Tidy(r: Reg, keys: set<Path>) {
    forall q :: q in keys && q in r.keys ==> r.HasValues(q) || r.HasSubkeys(q)
  }

  /** Keys have gone only from among those given, values exactly as given, and of the keys given
      those that are left hold something. */
  ghost predicate Removed(r: Reg, r': Reg, keys: set<Path>, values: map<(Path, Name), Data>) {
    && r'.Ok() && r'.values == r.values - values.Keys && r'.keys <= r.keys && r.keys - r'.keys <= keys
    && Tidy(r', keys)
  }

  /** RemoveSubKeyIfEmpty. RegDeleteKey refuses a key that has subkeys. */
  method RemoveSubKeyIfEmpty(r: Reg, q: Path) returns (r': Reg)
    requires r.Ok() && |q| >= 1
    ensures r'.Ok() && r'.values == r.values && r'.keys <= r.keys && r.keys - r'.keys <= {q}
    ensures q in r'.keys ==> r.HasValues(q) || r.HasSubkeys(q)
    ensures r'.keys != r.keys ==> !r.HasSubkeys(q)
  {
    r' := r;
    if !r.HasValues(q) {
      if !r.HasSubkeys(q) {
        r' := r.(keys := r.keys - {q});
        DeletedLeafOk(r, q);
      }
    }
  }

  lemma DeletedLeafOk(r: Reg, q: Path)
    requires r.Ok() && |q| >= 1 && !r.HasValues(q) && !r.HasSubkeys(q)
    ensures r.(keys := r.keys - {q}).Ok()
  {
    forall k | k in r.keys - {q} && |k| > 1
      ensures k[..|k| - 1] in r.keys - {q}
    {
      if k[..|k| - 1] == q {
        ParentHasSubkeys(r, k);
      }
    }
  }

  lemma ParentHasSubkeys(r: Reg, k: Path)
    requires k in r.keys && |k| > 1
    ensures r.HasSubkeys(k[..|k| - 1])
  {
  }

  /** The two registries are the same outside q and what is below it. */
  ghost predicate SameOutside(r: Reg, r': Reg, q: Path) {
    && (forall k :: !Below(q, k) ==> (k in r.keys <==> k in r'.keys))
    && (forall e: (Path, Name) :: !Below(q, e.0) ==> (e in r.values <==> e in r'.values))
  }

  lemma TidyOutside(r: Reg, r': Reg, keys: set<Path>, q: Path)
    requires Tidy(r, keys) && SameOutside(r, r', q) && |q| >= 1
    requires forall k :: k in keys ==> !Below(q, k) && k != q[..|q| - 1]
    ensures Tidy(r', keys)
  {
    forall k | k in keys && k in r'.keys
      ensures r'.HasValues(k) || r'.HasSubkeys(k)
    {
      if r.HasValues(k) {
        var e :| e in r.values && e.0 == k;
        assert e in r'.values;
      } else {
        var c :| c in r.keys && |c| == |k| + 1 && c[..|k|] == k;
        if Below(q, c) {
          ChildBelow(q, c, k);
        }
        assert c in r'.keys;
      }
    }
  }

  /** The parent of a key at or below q is at or below q, or is the parent of q. */
  lemma ChildBelow(q: Path, c: Path, k: Path)
    requires Below(q, c) && |q| >= 1 && |c| == |k| + 1 && c[..|k|] == k
    ensures Below(q, k) || k == q[..|q| - 1]
  {
    if |k| >= |q| {
      assert k[..|q|] == c[..|k|][..|q|] == c[..|q|];
    } else {
      assert c == q;
    }
  }

  /** RemoveDevirtualizeRegistryTree: exactly the values that the tree names outside excluded keys
      are deleted, and of the keys it names those that are left hold something. */
  method Remove(ex: Path -> bool, r: Reg, v: VKey, p: Path) returns (r': Reg)
    requires r.Ok() && |p| >= 1 && p in r.keys && Distinct(v)
    ensures p in r'.keys && Removed(r, r', Keys(ex, v, p), Values(ex, v, p))
    ensures Uncopied(ex, v, p, r, r')
    decreases v, |v.subs| + 1
  {
    KeysBelow(ex, v, p);
    if ex(p) {
      assert r.values - {} == r.values;
      r' := r;
    } else {
      r' := RemoveSubs(ex, r, v, p);
      ghost var before := r';
      r' := RemoveValues(r', v, p);
      OwnValuesAt(v.values, p);
      MapLess(r.values, SubValues(ex, v, |v.subs|, p), OwnValues(v.values, p));
      TidyBelow(before, r', SubKeys(ex, v, |v.subs|, p), p);
    }
    UncopiedIs(ex, v, p, r, r');
  }

  lemma TidyBelow(r: Reg, r': Reg, keys: set<Path>, p: Path)
    requires Tidy(r, keys) && r'.keys == r.keys && forall k :: k in keys ==> |k| > |p|
    requires forall e :: e in r.values && e.0 != p ==> e in r'.values
    ensures Tidy(r', keys)
  {
    forall k | k in keys && k in r'.keys
      ensures r'.HasValues(k) || r'.HasSubkeys(k)
    {
      if r.HasValues(k) {
        var e :| e in r.values && e.0 == k;
        assert e in r'.values;
      } else {
        var c :| c in r.keys && |c| == |k| + 1 && c[..|k|] == k;
        assert c in r'.keys;
      }
    }
  }

  method RemoveSubs(ex: Path -> bool, r: Reg, v: VKey, p: Path) returns (r': Reg)
    requires r.Ok() && |p| >= 1 && p in r.keys && Distinct(v)
    ensures Removed(r, r', SubKeys(ex, v, |v.subs|, p), SubValues(ex, v, |v.subs|, p))
    decreases v, |v.subs|
  {
    r' := r;
    assert r.values - {} == r.values;
    for i := 0 to |v.subs|
      invariant Removed(r, r', SubKeys(ex, v, i, p), SubValues(ex, v, i, p))
    {
      var q := p + [v.subs[i].name];
      ghost var before := r';
      if q in r'.keys {
        r' := Remove(ex, r', v.subs[i], q);
        ghost var removed := r';
        r' := RemoveSubKeyIfEmpty(r', q);
        KeyHandled(ex, before, removed, r', v.subs[i], q);
      } else {
        NotThere(ex, r', v.subs[i], q);
      }
      RemovedOneMore(ex, r, before, r', v, i, p);
    }
  }

  /** A subkey and its parent's attempt to delete it. */
  lemma KeyHandled(ex: Path -> bool, before: Reg, removed: Reg, r': Reg, v: VKey, q: Path)
    requires |q| >= 1 && removed.Ok() && r'.Ok() && Removed(before, removed, Keys(ex, v, q), Values(ex, v, q))
    requires r'.values == removed.values && r'.keys <= removed.keys && removed.keys - r'.keys <= {q}
    requires q in r'.keys ==> removed.HasValues(q) || removed.HasSubkeys(q)
    requires r'.keys != removed.keys ==> !removed.HasSubkeys(q)
    ensures Removed(before, r', {q} + Keys(ex, v, q), Values(ex, v, q))
  {
    KeysBelow(ex, v, q);
    if r'.keys == removed.keys {
      assert r' == removed;
    } else {
      assert q !in r'.keys;
      forall k | k in Keys(ex, v, q)
        ensures k !in r'.keys
      {
        NothingBelow(r', q, k);
      }
    }
  }

  /** A subkey that is not there: there is nothing to delete. */
  lemma NotThere(ex: Path -> bool, r: Reg, v: VKey, q: Path)
    requires r.Ok() && |q| >= 1 && q !in r.keys
    ensures Removed(r, r, {q} + Keys(ex, v, q), Values(ex, v, q))
  {
    NoValuesBelow(ex, r, v, q);
    KeysBelow(ex, v, q);
    forall k | k in Keys(ex, v, q)
      ensures k !in r.keys
    {
      NothingBelow(r, q, k);
    }
  }

  lemma RemovedOneMore(ex: Path -> bool, r: Reg, before: Reg, r': Reg, v: VKey, i: nat, p: Path)
    requires |p| >= 1 && i < |v.subs| && Distinct(v)
    requires Removed(r, before, SubKeys(ex, v, i, p), SubValues(ex, v, i, p))
    requires var q := p + [v.subs[i].name]; Removed(before, r', {q} + Keys(ex, v.subs[i], q), Values(ex, v.subs[i], q))
    ensures Removed(r, r', SubKeys(ex, v, i + 1, p), SubValues(ex, v, i + 1, p))
  {
    var q := p + [v.subs[i].name];
    MapLess(r.values, SubValues(ex, v, i, p), Values(ex, v.subs[i], q));
    StaysTidy(ex, before, r', v, i, p);
    var k0, k1 := SubKeys(ex, v, i, p), {q} + Keys(ex, v.subs[i], q);
    assert SubKeys(ex, v, i + 1, p) == k0 + k1;
    assert r.keys - r'.keys <= k0 + k1;
    assert Tidy(r', k0 + k1);
  }

  lemma StaysTidy(ex: Path -> bool, before: Reg, r': Reg, v: VKey, i: nat, p: Path)
    requires |p| >= 1 && i < |v.subs| && Distinct(v) && Tidy(before, SubKeys(ex, v, i, p))
    requires var q := p + [v.subs[i].name]; Removed(before, r', {q} + Keys(ex, v.subs[i], q), Values(ex, v.subs[i], q))
    ensures Tidy(r', SubKeys(ex, v, i, p))
  {
    var q := p + [v.subs[i].name];
    KeysBelow(ex, v.subs[i], q);
    ValuesBelow(ex, v.subs[i], q);
    EarlierOutside(ex, v, i, p);
    TidyOutside(before, r', SubKeys(ex, v, i, p), q);
  }

  /** The keys named under the subkeys before the i-th are not at or below it. */
  lemma EarlierOutside(ex: Path -> bool, v: VKey, i: nat, p: Path)
    requires |p| >= 1 && i < |v.subs| && Distinct(v)
    ensures var q := p + [v.subs[i].name]; forall k :: k in SubKeys(ex, v, i, p) ==> !Below(q, k) && k != q[..|q| - 1]
  {
    var n := v.subs[i].name;
    var q := p + [n];
    SubKeysBelow(ex, v, i, p);
    forall k | k in SubKeys(ex, v, i, p)
      ensures !Below(q, k) && k != q[..|q| - 1]
    {
      assert q[..|q| - 1] == p;
      NotBelowSibling(p, n, k);
    }
  }

  lemma NotBelowSibling(p: Path, n: Name, k: Path)
    requires |k| > |p| && k[|p|] != n
    ensures !Below(p + [n], k)
  {
    if Below(p + [n], k) {
      AtBelow(p, n, k);
    }
  }

  lemma AtBelow(p: Path, n: Name, k: Path)
    requires Below(p + [n], k)
    ensures k[|p|] == n
  {
    assert k[..|p| + 1][|p|] == n;
  }

  // RegistryDevirtualizer::Run over the mapped hives.

  /** A mapping whose virtual key exists: the virtual tree, and the real key it stands for. */
  datatype Mount = Mount(tree: VKey, root: Path)

  predicate MountsOk(mounts: seq<Mount>) {
    forall m :: m in mounts ==> |m.root| >= 1 && Distinct(m.tree)
  }

  /** What the first k mounts name. */
  function MountValues(ex: Path -> bool, mounts: seq<Mount>, k: nat): map<(Path, Name), Data>
    requires k <= |mounts| && MountsOk(mounts)
  {
    if k == 0 then map[]
    else
      assert mounts[k - 1] in mounts;
      MountValues(ex, mounts, k - 1) + Values(ex, mounts[k - 1].tree, mounts[k - 1].root)
  }

  /** The keys that the first k mounts name. */
  function MountKeys(ex: Path -> bool, mounts: seq<Mount>, k: nat): set<Path>
    requires k <= |mounts| && MountsOk(mounts)
  {
    if k == 0 then {}
    else
      assert mounts[k - 1] in mounts;
      MountKeys(ex, mounts, k - 1) + Keys(ex, mounts[k - 1].tree, mounts[k - 1].root)
  }

  /** No root is below the root of an earlier mount. */
  ghost predicate Apart(mounts: seq<Mount>) {
    forall i, j :: 0 <= i < j < |mounts| ==> !ProperlyBelow(mounts[i].root, mounts[j].root)
  }

  predicate ProperlyBelow(p: Path, q: Path) {
    Below(p, q) && q != p
  }

  ghost predicate RootsThere(r: Reg, mounts: seq<Mount>) {
    forall m :: m in mounts ==> m.root in r.keys
  }

  /** Roots that are apart are not among the keys that earlier mounts name, so removing those leaves them. */
  lemma {:induction false} RootsNotNamed(ex: Path -> bool, mounts: seq<Mount>, k: nat)
    requires k <= |mounts| && MountsOk(mounts) && Apart(mounts)
    ensures forall j :: k <= j < |mounts| ==> mounts[j].root !in MountKeys(ex, mounts, k)
  {
    if k > 0 {
      assert mounts[k - 1] in mounts;
      RootsNotNamed(ex, mounts, k - 1);
      KeysBelow(ex, mounts[k - 1].tree, mounts[k - 1].root);
      forall j | k <= j < |mounts| ensures mounts[j].root !in Keys(ex, mounts[k - 1].tree, mounts[k - 1].root) {
        assert !ProperlyBelow(mounts[k - 1].root, mounts[j].root);
      }
    }
  }

  lemma {:induction false} MountValuesNotExcluded(ex: Path -> bool, mounts: seq<Mount>, k: nat)
    requires k <= |mounts| && MountsOk(mounts)
    ensures forall e :: e in MountValues(ex, mounts, k) ==> !ex(e.0)
  {
    if k > 0 {
      assert mounts[k - 1] in mounts;
      MountValuesNotExcluded(ex, mounts, k - 1);
      ValuesBelow(ex, mounts[k - 1].tree, mounts[k - 1].root);
    }
  }

  /** A mount says so of the value. */
  ghost predicate MountNames(ex: Path -> bool, m: Mount, e: (Path, Name)) {
    NamesValue(ex, m.tree, m.root, e)
  }

  /** The package names the value, outside excluded keys. */
  ghost predicate Names(ex: Path -> bool, mounts: seq<Mount>, e: (Path, Name)) {
    exists i :: 0 <= i < |mounts| && MountNames(ex, mounts[i], e)
  }

  /** The last mount that names the value gives it this data. */
  ghost predicate Gives(ex: Path -> bool, mounts: seq<Mount>, e: (Path, Name), d: Data) {
    exists i :: && 0 <= i < |mounts| && GivesValue(ex, mounts[i].tree, mounts[i].root, e, d)
                && forall j :: i < j < |mounts| ==> !MountNames(ex, mounts[j], e)
  }

  ghost predicate MountNamesKey(ex: Path -> bool, m: Mount, q: Path) {
    NamesKey(ex, m.tree, m.root, q)
  }

  ghost predicate NamesSomeKey(ex: Path -> bool, mounts: seq<Mount>, q: Path) {
    exists i :: 0 <= i < |mounts| && MountNamesKey(ex, mounts[i], q)
  }

  /** The values of the first k mounts are those that one of them names. */
  lemma {:induction false} MountValuesNamed(ex: Path -> bool, mounts: seq<Mount>, k: nat, e: (Path, Name))
    requires k <= |mounts| && MountsOk(mounts)
    ensures e in MountValues(ex, mounts, k) <==> exists i :: 0 <= i < k && MountNames(ex, mounts[i], e)
  {
    if k > 0 {
      assert mounts[k - 1] in mounts;
      MountValuesNamed(ex, mounts, k - 1, e);
      ValuesNamed(ex, mounts[k - 1].tree, mounts[k - 1].root, e);
      assert MountNames(ex, mounts[k - 1], e) <==> e in Values(ex, mounts[k - 1].tree, mounts[k - 1].root);
    }
  }

  lemma {:induction false} MountValuesGiven(ex: Path -> bool, mounts: seq<Mount>, k: nat, i: nat, e: (Path, Name), d: Data)
    requires i < k <= |mounts| && MountsOk(mounts) && GivesValue(ex, mounts[i].tree, mounts[i].root, e, d)
    requires forall j :: i < j < k ==> !MountNames(ex, mounts[j], e)
    ensures e in MountValues(ex, mounts, k) && MountValues(ex, mounts, k)[e] == d
    decreases k
  {
    assert mounts[k - 1] in mounts;
    if i == k - 1 {
      ValuesGiven(ex, mounts[i].tree, mounts[i].root, e, d);
    } else {
      MountValuesGiven(ex, mounts, k - 1, i, e, d);
      ValuesNamed(ex, mounts[k - 1].tree, mounts[k - 1].root, e);
      assert !MountNames(ex, mounts[k - 1], e);
    }
  }

  lemma {:induction false} MountKeysNamed(ex: Path -> bool, mounts: seq<Mount>, k: nat, q: Path)
    requires k <= |mounts| && MountsOk(mounts)
    ensures q in MountKeys(ex, mounts, k) <==> exists i :: 0 <= i < k && MountNamesKey(ex, mounts[i], q)
  {
    if k > 0 {
      assert mounts[k - 1] in mounts;
      MountKeysNamed(ex, mounts, k - 1, q);
      KeysNamed(ex, mounts[k - 1].tree, mounts[k - 1].root, q);
      assert MountNamesKey(ex, mounts[k - 1], q) <==> q in Keys(ex, mounts[k - 1].tree, mounts[k - 1].root);
    }
  }

  /** Every value that the package names is set, to the data that it gives, and every key it names is there; nothing
      else is touched. */
  ghost predicate AllCopied(ex: Path -> bool, mounts: seq<Mount>, r: Reg, r': Reg) {
    && (forall e :: Names(ex, mounts, e) ==> e in r'.values)
    && (forall e, d :: Gives(ex, mounts, e, d) ==> e in r'.values && r'.values[e] == d)
    && (forall e :: !Names(ex, mounts, e) ==> Untouched(r, r', e))
    && (forall q :: q in r'.keys <==> q in r.keys || NamesSomeKey(ex, mounts, q))
  }

  /** These are the keys and values that the package names. */
  ghost predicate Told(ex: Path -> bool, mounts: seq<Mount>, keys: set<Path>, values: map<(Path, Name), Data>) {
    && (forall e :: e in values <==> Names(ex, mounts, e))
    && (forall q :: q in keys <==> NamesSomeKey(ex, mounts, q))
  }

  lemma NamesAre(ex: Path -> bool, mounts: seq<Mount>)
    requires MountsOk(mounts)
    ensures Told(ex, mounts, MountKeys(ex, mounts, |mounts|), MountValues(ex, mounts, |mounts|))
  {
    forall e ensures e in MountValues(ex, mounts, |mounts|) <==> Names(ex, mounts, e) {
      MountValuesNamed(ex, mounts, |mounts|, e);
    }
    forall q ensures q in MountKeys(ex, mounts, |mounts|) <==> NamesSomeKey(ex, mounts, q) {
      MountKeysNamed(ex, mounts, |mounts|, q);
    }
  }

  lemma GivenIs(ex: Path -> bool, mounts: seq<Mount>, e: (Path, Name), d: Data)
    requires MountsOk(mounts) && Gives(ex, mounts, e, d)
    ensures e in MountValues(ex, mounts, |mounts|) && MountValues(ex, mounts, |mounts|)[e] == d
  {
    var i :| && 0 <= i < |mounts| && GivesValue(ex, mounts[i].tree, mounts[i].root, e, d)
             && forall j :: i < j < |mounts| ==> !MountNames(ex, mounts[j], e);
    MountValuesGiven(ex, mounts, |mounts|, i, e, d);
  }

  lemma CopiedFrom(ex: Path -> bool, mounts: seq<Mount>, r: Reg, r': Reg, keys: set<Path>, values: map<(Path, Name), Data>)
    requires Told(ex, mounts, keys, values) && r' == Overlaid(r, keys, values)
    requires forall e, d :: Gives(ex, mounts, e, d) ==> e in values && values[e] == d
    ensures AllCopied(ex, mounts, r, r')
  {
  }

  lemma AllCopiedIs(ex: Path -> bool, mounts: seq<Mount>, r: Reg, r': Reg)
    requires MountsOk(mounts) && r' == Overlaid(r, MountKeys(ex, mounts, |mounts|), MountValues(ex, mounts, |mounts|))
    ensures AllCopied(ex, mounts, r, r')
  {
    NamesAre(ex, mounts);
    forall e, d | Gives(ex, mounts, e, d)
      ensures e in MountValues(ex, mounts, |mounts|) && MountValues(ex, mounts, |mounts|)[e] == d
    {
      GivenIs(ex, mounts, e, d);
    }
    CopiedFrom(ex, mounts, r, r', MountKeys(ex, mounts, |mounts|), MountValues(ex, mounts, |mounts|));
  }

  /** Every value that the package names is gone, and only keys that it names are; nothing else is touched. */
  ghost predicate AllUncopied(ex: Path -> bool, mounts: seq<Mount>, r: Reg, r': Reg) {
    && (forall e :: Names(ex, mounts, e) ==> e !in r'.values)
    && (forall e :: !Names(ex, mounts, e) ==> Untouched(r, r', e))
    && (forall q :: q in r'.keys ==> q in r.keys)
    && (forall q :: q in r.keys && !NamesSomeKey(ex, mounts, q) ==> q in r'.keys)
  }

  lemma UncopiedFrom(ex: Path -> bool, mounts: seq<Mount>, r: Reg, r': Reg, keys: set<Path>, values: map<(Path, Name), Data>)
    requires Told(ex, mounts, keys, values)
    requires r'.values == r.values - values.Keys && r'.keys <= r.keys && r.keys - r'.keys <= keys
    ensures AllUncopied(ex, mounts, r, r')
  {
    forall q | q in r.keys && !NamesSomeKey(ex, mounts, q)
      ensures q in r'.keys
    {
      assert q in r'.keys || q in r.keys - r'.keys;
    }
  }

  lemma AllUncopiedIs(ex: Path -> bool, mounts: seq<Mount>, r: Reg, r': Reg)
    requires MountsOk(mounts) && r'.keys <= r.keys && r.keys - r'.keys <= MountKeys(ex, mounts, |mounts|)
    requires r'.values == r.values - MountValues(ex, mounts, |mounts|).Keys
    ensures AllUncopied(ex, mounts, r, r')
  {
    NamesAre(ex, mounts);
    UncopiedFrom(ex, mounts, r, r', MountKeys(ex, mounts, |mounts|), MountValues(ex, mounts, |mounts|));
  }

  /** Run for an add request. It fails at a real root that is not there. */
  method RunCopy(ex: Path -> bool, r: Reg, mounts: seq<Mount>) returns (ok: bool, r': Reg)
    requires r.Ok() && MountsOk(mounts)
    ensures ok ==> r'.Ok() && r'.keys == r.keys + MountKeys(ex, mounts, |mounts|)
    ensures ok ==> r'.values == r.values + MountValues(ex, mounts, |mounts|)
    ensures ok ==> AllCopied(ex, mounts, r, r')
    ensures RootsThere(r, mounts) ==> ok
  {
    r' := r;
    assert r.values + map[] == r.values;
    for i := 0 to |mounts|
      invariant r'.Ok() && r'.keys == r.keys + MountKeys(ex, mounts, i)
      invariant r'.values == r.values + MountValues(ex, mounts, i)
    {
      assert mounts[i] in mounts;
      if mounts[i].root !in r'.keys {
        return false, r';
      }
      MapSum(r.values, MountValues(ex, mounts, i), Values(ex, mounts[i].tree, mounts[i].root));
      r' := Copy(ex, r', mounts[i].tree, mounts[i].root);
    }
    AllCopiedIs(ex, mounts, r, r');
    ok := true;
  }

  /** Removing what one more tree names keeps tidy what was tidy before, if its root is not part of that. */
  lemma TidyBoth(before: Reg, r': Reg, keys: set<Path>, more: set<Path>, values: map<(Path, Name), Data>, root: Path)
    requires Tidy(before, keys) && Removed(before, r', more, values) && Closed(more, values, root) && root !in keys
    ensures Tidy(r', keys + more)
  {
    forall k | k in keys && k !in more && k in r'.keys
      ensures r'.HasValues(k) || r'.HasSubkeys(k)
    {
      if before.HasValues(k) {
        var e :| e in before.values && e.0 == k;
        assert e in r'.values;
      } else {
        var c :| c in before.keys && |c| == |k| + 1 && c[..|k|] == k;
        assert c in r'.keys;
      }
    }
  }

  /** Run for a remove request. With the roots there and apart it succeeds, and of the keys named those
      that are left hold something. */
  method RunRemove(ex: Path -> bool, r: Reg, mounts: seq<Mount>) returns (ok: bool, r': Reg)
    requires r.Ok() && MountsOk(mounts)
    ensures ok ==> r'.Ok() && r'.keys <= r.keys && r.keys - r'.keys <= MountKeys(ex, mounts, |mounts|)
    ensures ok ==> r'.values == r.values - MountValues(ex, mounts, |mounts|).Keys
    ensures ok ==> AllUncopied(ex, mounts, r, r')
    ensures ok && Apart(mounts) ==> Tidy(r', MountKeys(ex, mounts, |mounts|))
    ensures RootsThere(r, mounts) && Apart(mounts) ==> ok
  {
    r' := r;
    assert r.values - {} == r.values;
    for i := 0 to |mounts|
      invariant r'.Ok() && r'.keys <= r.keys && r.keys - r'.keys <= MountKeys(ex, mounts, i)
      invariant r'.values == r.values - MountValues(ex, mounts, i).Keys
      invariant Apart(mounts) ==> Tidy(r', MountKeys(ex, mounts, i))
    {
      var m := mounts[i];
      assert m in mounts;
      if Apart(mounts) {
        RootsNotNamed(ex, mounts, i);
      }
      if m.root !in r'.keys {
        return false, r';
      }
      MapLess(r.values, MountValues(ex, mounts, i), Values(ex, m.tree, m.root));
      ghost var before := r';
      r' := Remove(ex, r', m.tree, m.root);
      if Apart(mounts) {
        KeysClosed(ex, m.tree, m.root);
        TidyBoth(before, r', MountKeys(ex, mounts, i), Keys(ex, m.tree, m.root), Values(ex, m.tree, m.root), m.root);
      }
    }
    AllUncopiedIs(ex, mounts, r, r');
    ok := true;
  }

  /** The roots of the mappings in their order. */
  const ROOTS: seq<Path> :=
    [["HKEY_USERS", ".DEFAULT"], ["HKEY_CURRENT_USER", "SOFTWARE", "CLASSES"], ["HKEY_CURRENT_USER"], ["HKEY_LOCAL_MACHINE"]]

  /** The mounts of a package: for each mapping the virtual tree, if the package has it. */
  function Mounted(roots: seq<Path>, trees: seq<Option<VKey>>): seq<Mount>
    requires |roots| == |trees|
  {
    if roots == [] then []
    else
      (if trees[0].Some? then [Mount(trees[0].value, roots[0])] else []) + Mounted(roots[1..], trees[1..])
  }

  lemma {:induction false} MountedRoots(roots: seq<Path>, trees: seq<Option<VKey>>)
    requires |roots| == |trees|
    ensures forall m :: m in Mounted(roots, trees) ==> m.root in roots
  {
    if roots != [] {
      MountedRoots(roots[1..], trees[1..]);
    }
  }

  lemma {:induction false} MountedApart(roots: seq<Path>, trees: seq<Option<VKey>>)
    requires |roots| == |trees|
    requires forall i, j :: 0 <= i < j < |roots| ==> !ProperlyBelow(roots[i], roots[j])
    ensures Apart(Mounted(roots, trees))
  {
    if roots != [] {
      MountedApart(roots[1..], trees[1..]);
      MountedRoots(roots[1..], trees[1..]);
      var rest := Mounted(roots[1..], trees[1..]);
      forall j | 0 <= j < |rest| ensures !ProperlyBelow(roots[0], rest[j].root) {
        assert rest[j] in rest;
        var i :| 0 <= i < |roots| - 1 && roots[1..][i] == rest[j].root;
        assert !ProperlyBelow(roots[0], roots[i + 1]);
      }
    }
  }

  /** Whatever mappings a package has, the installer's order keeps their roots apart: the classes of
      the current user come before the rest of that user's registry. */
  lemma InstallerApart(trees: seq<Option<VKey>>)
    requires |trees| == |ROOTS|
    ensures Apart(Mounted(ROOTS, trees))
  {
    assert ROOTS[0][0] == "HKEY_USERS" && ROOTS[1][0] == "HKEY_CURRENT_USER" && ROOTS[3][0] == "HKEY_LOCAL_MACHINE";
    DifferentHives();
    forall i, j | 0 <= i < j < |ROOTS| ensures !ProperlyBelow(ROOTS[i], ROOTS[j]) {
      SameFirst(ROOTS[i], ROOTS[j]);
    }
    MountedApart(ROOTS, trees);
  }

  lemma SameFirst(p: Path, q: Path)
    requires p != [] && q != []
    ensures Below(p, q) ==> q[0] == p[0]
  {
    if Below(p, q) {
      assert q[..|p|][0] == p[0];
    }
  }

  lemma DifferentHives()
    ensures "HKEY_USERS" != "HKEY_CURRENT_USER" && "HKEY_USERS" != "HKEY_LOCAL_MACHINE"
    ensures "HKEY_CURRENT_USER" != "HKEY_LOCAL_MACHINE"
  {
    assert |"HKEY_USERS"| == 10 && |"HKEY_CURRENT_USER"| == 17 && |"HKEY_LOCAL_MACHINE"| == 18;
  }

  /** An excluded key stays one further down. */
  ghost predicate ExcludedDown(ex: Path -> bool) {
    forall p, n :: |p| >= 1 && ex(p) ==> ex(p + [n])
  }

  lemma {:induction false} ExcludedFar(ex: Path -> bool, p: Path, q: Path)
    requires ExcludedDown(ex) && |p| >= 1 && ex(p) && Below(p, q)
    ensures ex(q)
    decreases |q|
  {
    if |q| == |p| {
      assert q == p;
    } else {
      var init := q[..|q| - 1];
      assert init[..|p|] == q[..|p|];
      ExcludedFar(ex, p, init);
      assert init + [q[|q| - 1]] == q;
    }
  }

  /** Copying a package's registry and removing it again: no value that the package names outside
      excluded keys is left, every other value is as it was, and so is every value at or below
      an excluded key. With the roots there and apart it succeeds, only keys that the package names
      come or go, and of those the ones that are left hold something. */
  method CopyThenRemove(ex: Path -> bool, r: Reg, mounts: seq<Mount>) returns (ok: bool, r': Reg)
    requires r.Ok() && MountsOk(mounts) && ExcludedDown(ex)
    ensures RootsThere(r, mounts) && Apart(mounts) ==> ok
    ensures ok ==> r'.Ok() && r'.values == r.values - MountValues(ex, mounts, |mounts|).Keys
    ensures ok ==> forall e :: Names(ex, mounts, e) ==> e !in r'.values
    ensures ok ==> forall e :: !Names(ex, mounts, e) ==> Untouched(r, r', e)
    ensures ok ==> forall k :: !NamesSomeKey(ex, mounts, k) ==> (k in r'.keys <==> k in r.keys)
    ensures ok && Apart(mounts) ==> Tidy(r', MountKeys(ex, mounts, |mounts|))
    ensures forall p: Path, e: (Path, Name) :: |p| >= 1 && ex(p) && Below(p, e.0) ==> !Names(ex, mounts, e)
  {
    MountValuesNotExcluded(ex, mounts, |mounts|);
    forall p: Path, e: (Path, Name) | |p| >= 1 && ex(p) && Below(p, e.0)
      ensures !Names(ex, mounts, e)
    {
      ExcludedFar(ex, p, e.0);
      MountValuesNamed(ex, mounts, |mounts|, e);
    }
    ok, r' := RunCopy(ex, r, mounts);
    if ok {
      ok, r' := RunRemove(ex, r', mounts);
      SetAndDeleted(r.values, MountValues(ex, mounts, |mounts|));
    }
  }

  lemma SetAndDeleted(a: map<(Path, Name), Data>, b: map<(Path, Name), Data>)
    ensures (a + b) - b.Keys == a - b.Keys
  {
  }

  /** The installer's own exclusions. */
  lemma InstallerExcludes()
    ensures ExcludedDown(Excluded)
  {
    forall p: Path, n: Name | |p| >= 1 && Excluded(p)
      ensures Excluded(p + [n])
    {
      ExcludedBelow(p, n);
    }
  }
}
