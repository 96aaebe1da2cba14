/**
 What a package's tree says about the real registry, by walking it: the keys reached from its own by
 lists of names with no excluded key on the way. The sets and maps of RegistryTree are exactly that.
 */
module RegistryWalk {
  import opened RegistryTree

  /** The subkeys of these names lead from v to t. */
  ghost predicate LeadsTo(v: VKey, names: seq<Name>, t: VKey)
    decreases |names|
  {
    if names == [] then t == v
    else exists i :: 0 <= i < |v.subs| && v.subs[i].name == names[0] && LeadsTo(v.subs[i], names[1..], t)
  }

  /** No key from p down along these names is excluded. */
  ghost predicate OpenWay(ex: Path -> bool, p: Path, names: seq<Name>) {
    forall k :: 0 <= k <= |names| ==> !ex(p + names[..k])
  }

  predicate HasName(values: seq<(Name, Data)>, n: Name) {
    exists j :: 0 <= j < |values| && values[j].0 == n
  }

  /** The real registry holds d for the value data d0 of a package: the same bytes, and the type without flags, a
      string for none. */
  predicate StandsFor(d: Data, d0: Data) {
    d.bytes == d0.bytes && d.kind == if d0.kind % 256 == 0 then REG_SZ else d0.kind % 256
  }

  /** The last value of the name has data that d stands for. */
  predicate LastValue(values: seq<(Name, Data)>, n: Name, d: Data) {
    exists j :: && 0 <= j < |values| && values[j].0 == n && StandsFor(d, values[j].1)
                && forall i :: j < i < |values| ==> values[i].0 != n
  }

  /** The tree v, standing for the real key p, names the value e. */
  ghost predicate NamesValue(ex: Path -> bool, v: VKey, p: Path, e: (Path, Name)) {
    exists names, t :: e.0 == p + names && OpenWay(ex, p, names) && LeadsTo(v, names, t) && HasName(t.values, e.1)
  }

  /** And it gives it this data. */
  ghost predicate GivesValue(ex: Path -> bool, v: VKey, p: Path, e: (Path, Name), d: Data) {
    exists names, t :: e.0 == p + names && OpenWay(ex, p, names) && LeadsTo(v, names, t) && LastValue(t.values, e.1, d)
  }

  /** The tree names the key q: no key above it is excluded. */
  ghost predicate NamesKey(ex: Path -> bool, v: VKey, p: Path, q: Path) {
    exists names, t :: q == p + names && names != [] && OpenWay(ex, p, names[..|names| - 1]) && LeadsTo(v, names, t)
  }

  // One step down.

  lemma WayDown(ex: Path -> bool, p: Path, n: Name, names: seq<Name>)
    ensures p + ([n] + names) == (p + [n]) + names
    ensures OpenWay(ex, p, [n] + names) <==> !ex(p) && OpenWay(ex, p + [n], names)
  {
    var all := [n] + names;
    forall k | 0 <= k <= |names|
      ensures p + all[..k + 1] == (p + [n]) + names[..k]
    {
      assert all[..k + 1] == [n] + names[..k];
    }
    assert p + all[..0] == p;
    if OpenWay(ex, p, all) {
      assert !ex(p + all[..0]);
      forall k | 0 <= k <= |names| ensures !ex(p + [n] + names[..k]) {
        assert !ex(p + all[..k + 1]);
      }
    }
    if !ex(p) && OpenWay(ex, p + [n], names) {
      forall k | 0 <= k <= |all| ensures !ex(p + all[..k]) {
        if k > 0 {
          assert !ex((p + [n]) + names[..k - 1]);
        }
      }
    }
  }

  lemma LeadsDown(v: VKey, i: nat, names: seq<Name>, t: VKey)
    requires i < |v.subs| && LeadsTo(v.subs[i], names, t)
    ensures LeadsTo(v, [v.subs[i].name] + names, t)
  {
    assert ([v.subs[i].name] + names)[1..] == names;
  }

  lemma FirstStep(v: VKey, names: seq<Name>, t: VKey) returns (i: nat)
    requires LeadsTo(v, names, t) && names != []
    ensures i < |v.subs| && names == [v.subs[i].name] + names[1..] && LeadsTo(v.subs[i], names[1..], t)
  {
    i :| 0 <= i < |v.subs| && v.subs[i].name == names[0] && LeadsTo(v.subs[i], names[1..], t);
  }

  lemma EmptyWay(ex: Path -> bool, p: Path)
    ensures OpenWay(ex, p, []) <==> !ex(p)
  {
    var none: seq<Name> := [];
    assert p + none[..0] == p;
  }

  ghost predicate SubNamesValue(ex: Path -> bool, v: VKey, i: nat, p: Path, e: (Path, Name))
    requires i < |v.subs|
  {
    NamesValue(ex, v.subs[i], p + [v.subs[i].name], e)
  }

  lemma NamesValueDown(ex: Path -> bool, v: VKey, p: Path, e: (Path, Name))
    ensures NamesValue(ex, v, p, e)
            <==> !ex(p) && ((e.0 == p && HasName(v.values, e.1)) || exists i :: 0 <= i < |v.subs| && SubNamesValue(ex, v, i, p, e))
  {
    EmptyWay(ex, p);
    if NamesValue(ex, v, p, e) {
      var names, t :| e.0 == p + names && OpenWay(ex, p, names) && LeadsTo(v, names, t) && HasName(t.values, e.1);
      if names != [] {
        var i := FirstStep(v, names, t);
        WayDown(ex, p, v.subs[i].name, names[1..]);
        assert SubNamesValue(ex, v, i, p, e);
      }
    }
    if !ex(p) && e.0 == p && HasName(v.values, e.1) {
      assert e.0 == p + [] && LeadsTo(v, [], v);
    }
    if !ex(p) && exists i :: 0 <= i < |v.subs| && SubNamesValue(ex, v, i, p, e) {
      var i :| 0 <= i < |v.subs| && SubNamesValue(ex, v, i, p, e);
      var q := p + [v.subs[i].name];
      var names, t :| e.0 == q + names && OpenWay(ex, q, names) && LeadsTo(v.subs[i], names, t) && HasName(t.values, e.1);
      WayDown(ex, p, v.subs[i].name, names);
      LeadsDown(v, i, names, t);
    }
  }

  ghost predicate SubNamesKey(ex: Path -> bool, v: VKey, i: nat, p: Path, q: Path)
    requires i < |v.subs|
  {
    var p1 := p + [v.subs[i].name];
    q == p1 || NamesKey(ex, v.subs[i], p1, q)
  }

  lemma NamesKeyDown(ex: Path -> bool, v: VKey, p: Path, q: Path)
    ensures NamesKey(ex, v, p, q) <==> !ex(p) && exists i :: 0 <= i < |v.subs| && SubNamesKey(ex, v, i, p, q)
  {
    EmptyWay(ex, p);
    if NamesKey(ex, v, p, q) {
      var names, t :| q == p + names && names != [] && OpenWay(ex, p, names[..|names| - 1]) && LeadsTo(v, names, t);
      var i := FirstStep(v, names, t);
      var n, rest := v.subs[i].name, names[1..];
      WayDown(ex, p, n, rest);
      if rest != [] {
        assert names[..|names| - 1] == [n] + rest[..|rest| - 1];
        WayDown(ex, p, n, rest[..|rest| - 1]);
      } else {
        assert names[..|names| - 1] == [];
      }
      assert SubNamesKey(ex, v, i, p, q);
    }
    if !ex(p) && exists i :: 0 <= i < |v.subs| && SubNamesKey(ex, v, i, p, q) {
      var i :| 0 <= i < |v.subs| && SubNamesKey(ex, v, i, p, q);
      SubKeyIsNamed(ex, v, i, p, q);
    }
  }

  lemma SubKeyIsNamed(ex: Path -> bool, v: VKey, i: nat, p: Path, q: Path)
    requires !ex(p) && i < |v.subs| && SubNamesKey(ex, v, i, p, q)
    ensures NamesKey(ex, v, p, q)
  {
    var n := v.subs[i].name;
    var p1 := p + [n];
    if q == p1 {
      EmptyWay(ex, p);
      LeadsDown(v, i, [], v.subs[i]);
      assert [n] + [] == [n] && [n][..0] == [];
    } else {
      var names, t :| q == p1 + names && names != [] && OpenWay(ex, p1, names[..|names| - 1]) && LeadsTo(v.subs[i], names, t);
      var all := [n] + names;
      WayDown(ex, p, n, names);
      WayDown(ex, p, n, names[..|names| - 1]);
      assert all[..|all| - 1] == [n] + names[..|names| - 1];
      LeadsDown(v, i, names, t);
    }
  }

  // The values.

  lemma {:induction false} OwnValuesNamed(values: seq<(Name, Data)>, p: Path, e: (Path, Name))
    ensures e in OwnValues(values, p) <==> e.0 == p && HasName(values, e.1)
  {
    if values != [] {
      OwnValuesNamed(values[..|values| - 1], p, e);
      if HasName(values, e.1) {
        var j :| 0 <= j < |values| && values[j].0 == e.1;
        if j < |values| - 1 {
          assert values[..|values| - 1][j].0 == e.1;
        }
      }
    }
  }

  lemma {:induction false} OwnValuesLast(values: seq<(Name, Data)>, p: Path, n: Name, d: Data)
    requires LastValue(values, n, d)
    ensures (p, n) in OwnValues(values, p) && OwnValues(values, p)[(p, n)] == d
  {
    var init, last := values[..|values| - 1], values[|values| - 1];
    var j :| && 0 <= j < |values| && values[j].0 == n && StandsFor(d, values[j].1)
             && forall i :: j < i < |values| ==> values[i].0 != n;
    if j < |init| {
      assert init[j] == values[j] && last.0 != n;
      OwnValuesLast(init, p, n, d);
    } else {
      assert d == Written(last.1);
    }
  }

  ghost predicate InSub(ex: Path -> bool, v: VKey, i: nat, p: Path, e: (Path, Name))
    requires i < |v.subs|
  {
    e in Values(ex, v.subs[i], p + [v.subs[i].name])
  }

  lemma {:induction false} SubValuesIn(ex: Path -> bool, v: VKey, k: nat, p: Path, e: (Path, Name))
    requires k <= |v.subs| && |p| >= 1
    ensures e in SubValues(ex, v, k, p) <==> exists i :: 0 <= i < k && InSub(ex, v, i, p, e)
  {
    if k > 0 {
      SubValuesIn(ex, v, k - 1, p, e);
      assert InSub(ex, v, k - 1, p, e) <==> e in Values(ex, v.subs[k - 1], p + [v.subs[k - 1].name]);
    }
  }

  /** A value is among those of a tree exactly if the tree names it. */
  lemma {:induction false} ValuesNamed(ex: Path -> bool, v: VKey, p: Path, e: (Path, Name))
    requires |p| >= 1
    ensures e in Values(ex, v, p) <==> NamesValue(ex, v, p, e)
    decreases v
  {
    NamesValueDown(ex, v, p, e);
    OwnValuesNamed(v.values, p, e);
    SubValuesIn(ex, v, |v.subs|, p, e);
    forall i | 0 <= i < |v.subs|
      ensures InSub(ex, v, i, p, e) <==> SubNamesValue(ex, v, i, p, e)
    {
      ValuesNamed(ex, v.subs[i], p + [v.subs[i].name], e);
    }
  }

  /** What one subkey says is not touched by the others, which have other names. */
  lemma {:induction false} SubValuesOf(ex: Path -> bool, v: VKey, k: nat, i: nat, p: Path, e: (Path, Name))
    requires i < k <= |v.subs| && |p| >= 1 && Distinct(v) && InSub(ex, v, i, p, e)
    ensures e in SubValues(ex, v, k, p) && SubValues(ex, v, k, p)[e] == Values(ex, v.subs[i], p + [v.subs[i].name])[e]
    decreases k
  {
    if i < k - 1 {
      SubValuesOf(ex, v, k - 1, i, p, e);
      ValuesBelow(ex, v.subs[i], p + [v.subs[i].name]);
      ValuesBelow(ex, v.subs[k - 1], p + [v.subs[k - 1].name]);
      if e in Values(ex, v.subs[k - 1], p + [v.subs[k - 1].name]) {
        BelowNames(p, v.subs[i].name, e.0);
        BelowNames(p, v.subs[k - 1].name, e.0);
        assert false;
      }
    }
  }

  lemma BelowNames(p: Path, n: Name, q: Path)
    requires Below(p + [n], q)
    ensures |q| > |p| && q[|p|] == n
  {
    assert q[..|p| + 1][|p|] == n;
  }

  /** And it has the data that the tree gives it. */
  lemma {:induction false} ValuesGiven(ex: Path -> bool, v: VKey, p: Path, e: (Path, Name), d: Data)
    requires |p| >= 1 && Distinct(v) && GivesValue(ex, v, p, e, d)
    ensures e in Values(ex, v, p) && Values(ex, v, p)[e] == d
    decreases v
  {
    var names, t :| e.0 == p + names && OpenWay(ex, p, names) && LeadsTo(v, names, t) && LastValue(t.values, e.1, d);
    EmptyWay(ex, p);
    OwnValuesAt(v.values, p);
    if names == [] {
      assert p + names == p && e == (p, e.1);
      OwnValuesLast(v.values, p, e.1, d);
    } else {
      var i := FirstStep(v, names, t);
      var n := v.subs[i].name;
      WayDown(ex, p, n, names[1..]);
      assert GivesValue(ex, v.subs[i], p + [n], e, d);
      ValuesGiven(ex, v.subs[i], p + [n], e, d);
      assert InSub(ex, v, i, p, e);
      SubValuesOf(ex, v, |v.subs|, i, p, e);
    }
  }

  // The keys.

  ghost predicate KeyInSub(ex: Path -> bool, v: VKey, i: nat, p: Path, q: Path)
    requires i < |v.subs|
  {
    q == p + [v.subs[i].name] || q in Keys(ex, v.subs[i], p + [v.subs[i].name])
  }

  lemma {:induction false} SubKeysIn(ex: Path -> bool, v: VKey, k: nat, p: Path, q: Path)
    requires k <= |v.subs| && |p| >= 1
    ensures q in SubKeys(ex, v, k, p) <==> exists i :: 0 <= i < k && KeyInSub(ex, v, i, p, q)
  {
    if k > 0 {
      SubKeysIn(ex, v, k - 1, p, q);
      assert q in SubKeys(ex, v, k, p) <==> q in SubKeys(ex, v, k - 1, p) || KeyInSub(ex, v, k - 1, p, q);
    }
  }

  /** A key is among those of a tree exactly if the tree names it. */
  lemma {:induction false} KeysNamed(ex: Path -> bool, v: VKey, p: Path, q: Path)
    requires |p| >= 1
    ensures q in Keys(ex, v, p) <==> NamesKey(ex, v, p, q)
    decreases v
  {
    NamesKeyDown(ex, v, p, q);
    SubKeysIn(ex, v, |v.subs|, p, q);
    forall i | 0 <= i < |v.subs|
      ensures KeyInSub(ex, v, i, p, q) <==> SubNamesKey(ex, v, i, p, q)
    {
      KeysNamed(ex, v.subs[i], p + [v.subs[i].name], q);
    }
  }

  // What copying and removing come to.

  /** The value is as it was. */
  predicate Untouched(r: Reg, r': Reg, e: (Path, Name)) {
    (e in r'.values <==> e in r.values) && (e in r.values ==> r'.values[e] == r.values[e])
  }

  /** Every value that the tree names is set, to the data that the tree gives it; every key it names is there; and
      everything else is as it was. */
  ghost predicate Copied(ex: Path -> bool, v: VKey, p: Path, r: Reg, r': Reg) {
    && (forall e :: NamesValue(ex, v, p, e) ==> e in r'.values)
    && (forall e, d :: Distinct(v) && GivesValue(ex, v, p, e, d) ==> e in r'.values && r'.values[e] == d)
    && (forall e :: !NamesValue(ex, v, p, e) ==> Untouched(r, r', e))
    && (forall q :: q in r'.keys <==> q in r.keys || NamesKey(ex, v, p, q))
  }

  lemma CopiedIs(ex: Path -> bool, v: VKey, p: Path, r: Reg, r': Reg)
    requires |p| >= 1 && r'.keys == r.keys + Keys(ex, v, p) && r'.values == r.values + Values(ex, v, p)
    ensures Copied(ex, v, p, r, r')
  {
    forall e ensures e in Values(ex, v, p) <==> NamesValue(ex, v, p, e) {
      ValuesNamed(ex, v, p, e);
    }
    forall q ensures q in Keys(ex, v, p) <==> NamesKey(ex, v, p, q) {
      KeysNamed(ex, v, p, q);
    }
    forall e, d | Distinct(v) && GivesValue(ex, v, p, e, d)
      ensures e in r'.values && r'.values[e] == d
    {
      ValuesGiven(ex, v, p, e, d);
    }
  }

  /** Every value that the tree names is gone, every other one is as it was, and only keys that it names are gone. */
  ghost predicate Uncopied(ex: Path -> bool, v: VKey, p: Path, r: Reg, r': Reg) {
    && (forall e :: NamesValue(ex, v, p, e) ==> e !in r'.values)
    && (forall e :: !NamesValue(ex, v, p, e) ==> Untouched(r, r', e))
    && (forall q :: q in r'.keys ==> q in r.keys)
    && (forall q :: q in r.keys && !NamesKey(ex, v, p, q) ==> q in r'.keys)
  }

  lemma UncopiedIs(ex: Path -> bool, v: VKey, p: Path, r: Reg, r': Reg)
    requires |p| >= 1 && r'.values == r.values - Values(ex, v, p).Keys
    requires r'.keys <= r.keys && r.keys - r'.keys <= Keys(ex, v, p)
    ensures Uncopied(ex, v, p, r, r')
  {
    forall e ensures e in Values(ex, v, p) <==> NamesValue(ex, v, p, e) {
      ValuesNamed(ex, v, p, e);
    }
    forall q ensures q in Keys(ex, v, p) <==> NamesKey(ex, v, p, q) {
      KeysNamed(ex, v, p, q);
    }
    forall q | q in r.keys && !NamesKey(ex, v, p, q)
      ensures q in r'.keys
    {
      assert q in r'.keys || q in r.keys - r'.keys;
    }
  }
}
