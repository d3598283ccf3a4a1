/** When grouping raises (`nsbubble/mountpoint.py`): it depends on the order in which the set of
    mounts is walked. The paths of the groups are followed through any order. */
module MountOrder {
  import opened Wrappers
  import opened MountPoint
  import opened MountMerge
  import opened MountSet

  function Keys(gs: seq<Group>): set<Path> { KeySet(Paths(gs)) }

  function PathSet(ms: seq<Mount>): set<Path> { set m | m in ms :: m.path }

  predicate Comparable(p: Path, q: Path) { p <= q || q <= p }

  /** The paths below another one. */
  function Below(ks: set<Path>, t: Path): set<Path> { set q | q in ks && t < q }

  ghost predicate TwoIn(s: set<Path>) { exists x, y :: x in s && y in s && x != y }

  // ----- what one mount does to the group paths

  /** A path related to none is added; one below a group leaves the paths alone; one above a group
      replaces it. */
  ghost predicate KeyStep(ks: set<Path>, p: Path, ks': set<Path>) {
    || (ks' == ks + {p} && forall q <- ks :: !Comparable(p, q))
    || (ks' == ks && exists q :: q in ks && q < p)
    || (exists q :: q in ks && p < q && ks' == ks - {q} + {p})
  }

  lemma KeyAt(gs: seq<Group>, p: Path)
    ensures p in Keys(gs) <==> exists i :: 0 <= i < |gs| && gs[i].path == p
  {
    var ps := Paths(gs);
    if p in Keys(gs) {
      var i :| 0 <= i < |ps| && ps[i] == p;
      assert gs[i].path == p;
    }
    if i :| 0 <= i < |gs| && gs[i].path == p { assert ps[i] == p; }
  }

  lemma HasKeyIs(gs: seq<Group>, p: Path)
    ensures HasKey(gs, p) <==> p in Keys(gs)
  {
    KeyAt(gs, p);
  }

  lemma AppendKey(gs: seq<Group>, g: Group)
    ensures Keys(gs + [g]) == Keys(gs) + {g.path}
  {
    forall p ensures p in Keys(gs + [g]) <==> p in Keys(gs) + {g.path} {
      KeyAt(gs, p);
      KeyAt(gs + [g], p);
      if p in Keys(gs) {
        var i :| 0 <= i < |gs| && gs[i].path == p;
        assert (gs + [g])[i].path == p;
      }
      assert (gs + [g])[|gs|] == g;
    }
  }

  lemma UpdateKey(gs: seq<Group>, k: nat, g: Group)
    requires k < |gs| && g.path == gs[k].path
    ensures Keys(gs[k := g]) == Keys(gs)
  {
    assert Paths(gs[k := g]) == Paths(gs);
  }

  lemma RemoveKey(gs: seq<Group>, p: Path)
    requires GroupsOk(gs) && p in Keys(gs)
    ensures Keys(Remove(gs, p)) == Keys(gs) - {p}
  {
    HasKeyIs(gs, p);
    forall q ensures q in Keys(Remove(gs, p)) <==> q in Keys(gs) - {p} {
      KeyAt(gs, q);
      KeyAt(Remove(gs, p), q);
      if q in Keys(Remove(gs, p)) { var i := KeptIndex(gs, p, q); }
      if q in Keys(gs) && q != p { var i := StillIndex(gs, p, q); }
    }
  }

  lemma WithoutAt(gs: seq<Group>, k: nat, j: nat)
    requires k < |gs| && j < |gs| - 1
    ensures (gs[..k] + gs[k + 1..])[j] == if j < k then gs[j] else gs[j + 1]
  {
  }

  lemma KeptIndex(gs: seq<Group>, p: Path, q: Path) returns (i: nat)
    requires GroupsOk(gs) && HasKey(gs, p) && q in Keys(Remove(gs, p))
    ensures i < |gs| && gs[i].path == q && q != p
  {
    var k, rs := KeyIndex(gs, p), Remove(gs, p);
    KeyAt(rs, q);
    var j :| 0 <= j < |rs| && rs[j].path == q;
    i := if j < k then j else j + 1;
    WithoutAt(gs, k, j);
  }

  lemma StillIndex(gs: seq<Group>, p: Path, q: Path) returns (i: nat)
    requires GroupsOk(gs) && HasKey(gs, p) && q in Keys(gs) && q != p
    ensures i < |Remove(gs, p)| && Remove(gs, p)[i].path == q
  {
    var k, rs := KeyIndex(gs, p), Remove(gs, p);
    KeyAt(gs, q);
    var j :| 0 <= j < |gs| && gs[j].path == q;
    i := if j < k then j else j - 1;
    WithoutAt(gs, k, i);
  }

  lemma AddKeys(gs: seq<Group>, m: Mount)
    requires GroupsOk(gs) && m.path !in Keys(gs)
    ensures KeyStep(Keys(gs), m.path, Keys(AddMount(gs, m)))
  {
    var k := FirstRelated(gs, m);
    HasKeyIs(gs, m.path);
    if k == |gs| {
      AppendKey(gs, Group(m.path, [m]));
      forall q | q in Keys(gs) ensures !Comparable(m.path, q) {
        KeyAt(gs, q);
        var i :| 0 <= i < |gs| && gs[i].path == q;
        assert !Related(gs[i], m);
      }
    } else {
      KeyAt(gs, gs[k].path);
      if gs[k].path <= m.path {
        UpdateKey(gs, k, gs[k].(mounts := gs[k].mounts + [m]));
      } else {
        AbsorbKeys(gs, m, k);
      }
    }
  }

  lemma AbsorbKeys(gs: seq<Group>, m: Mount, k: nat)
    requires GroupsOk(gs) && m.path !in Keys(gs) && k < |gs| && gs[k].path != m.path && m.path <= gs[k].path
    ensures Keys(Remove(Put(gs, Group(m.path, [m] + gs[k].mounts)), gs[k].path)) == Keys(gs) - {gs[k].path} + {m.path}
  {
    var g := Group(m.path, [m] + gs[k].mounts);
    HasKeyIs(gs, m.path);
    KeyAt(gs, gs[k].path);
    AppendKey(gs, g);
    assert GroupOk(gs[k]) && GroupOk(g);
    PutOk(gs, g);
    RemoveKey(Put(gs, g), gs[k].path);
  }

  lemma {:induction false} BoundKeys(bound: seq<Mount>)
    ensures Keys(BoundFold(bound)) == PathSet(bound)
    decreases bound
  {
    if bound == [] {
      assert Paths([]) == [];
    } else {
      var before, last := bound[..|bound| - 1], bound[|bound| - 1];
      var gs, g := BoundFold(before), Group(last.path, [last]);
      BoundKeys(before);
      HasKeyIs(gs, g.path);
      if HasKey(gs, g.path) { UpdateKey(gs, KeyIndex(gs, g.path), g); } else { AppendKey(gs, g); }
      assert bound == before + [last];
    }
  }

  // ----- a walk

  /** The group paths after the first `n` mounts. */
  function KeysAt(bound: seq<Mount>, order: seq<Mount>, n: nat): set<Path>
    requires n <= |order|
  {
    Keys(FirstGroups(bound, order[..n]))
  }

  lemma KeysAreInputs(bound: seq<Mount>, order: seq<Mount>, n: nat)
    requires n <= |order|
    ensures KeysAt(bound, order, n) <= PathSet(bound + order[..n])
  {
    var gs := FirstGroups(bound, order[..n]);
    FirstGroupsBuilt(bound, order[..n]);
    forall p | p in Keys(gs) ensures p in PathSet(bound + order[..n]) {
      KeyAt(gs, p);
      var i :| 0 <= i < |gs| && gs[i].path == p;
      assert PathFrom(gs[i], bound + order[..n]);
    }
  }

  lemma InputBefore(bound: seq<Mount>, order: seq<Mount>, n: nat)
    requires n < |order| && DistinctPaths(bound + order)
    ensures order[n].path !in PathSet(bound + order[..n])
  {
    var all := bound + order;
    assert all[|bound| + n] == order[n];
    forall m | m in bound + order[..n] ensures m.path != order[n].path {
      var i :| 0 <= i < |bound + order[..n]| && (bound + order[..n])[i] == m;
      assert all[i] == m;
    }
  }

  lemma WalkStep(bound: seq<Mount>, order: seq<Mount>, n: nat)
    requires n < |order| && DistinctPaths(bound + order)
    ensures KeyStep(KeysAt(bound, order, n), order[n].path, KeysAt(bound, order, n + 1))
    ensures order[n].path !in KeysAt(bound, order, n)
  {
    KeysAreInputs(bound, order, n);
    InputBefore(bound, order, n);
    FirstGroupsBuilt(bound, order[..n]);
    assert order[..n + 1][..n] == order[..n];
    AddKeys(FirstGroups(bound, order[..n]), order[n]);
  }

  lemma StartKeys(bound: seq<Mount>, order: seq<Mount>)
    ensures KeysAt(bound, order, 0) == PathSet(bound)
  {
    BoundKeys(bound);
  }

  lemma AllInputs(bound: seq<Mount>, order: seq<Mount>, n: nat)
    requires n <= |order|
    ensures KeysAt(bound, order, n) <= PathSet(bound + order)
    ensures n < |order| ==> order[n].path in PathSet(bound + order)
    ensures PathSet(bound + order[..n]) <= PathSet(bound + order)
  {
    KeysAreInputs(bound, order, n);
    forall m | m in bound + order[..n] ensures m in bound + order {}
  }

  // ----- group paths around a top path

  lemma TopStep(all: set<Path>, t: Path, ks: set<Path>, p: Path, ks': set<Path>)
    requires IsTop(all, t) && ks <= all && p in all && KeyStep(ks, p, ks')
    ensures t in ks || p == t ==> t in ks'
  {
  }

  /** Something below a top stays below it, as long as the top itself is not the mount. */
  lemma OneStays(all: set<Path>, t: Path, ks: set<Path>, p: Path, ks': set<Path>)
    requires IsTop(all, t) && p in all && p != t && KeyStep(ks, p, ks') && Below(ks, t) != {}
    ensures Below(ks', t) != {}
  {
    var q :| q in Below(ks, t);
    if q !in ks' {
      assert p < q;
      PrefixesCompare(p, t, q);
      assert p in Below(ks', t);
    } else {
      assert q in Below(ks', t);
    }
  }

  lemma TwoStay(all: set<Path>, t: Path, ks: set<Path>, p: Path, ks': set<Path>)
    requires IsTop(all, t) && p in all && p != t && p !in ks && KeyStep(ks, p, ks') && TwoIn(Below(ks, t))
    ensures TwoIn(Below(ks', t))
  {
    var x, y :| x in Below(ks, t) && y in Below(ks, t) && x != y;
    if x !in ks' {
      PrefixesCompare(p, t, x);
      assert p in Below(ks', t) && y in Below(ks', t);
    } else if y !in ks' {
      PrefixesCompare(p, t, y);
      assert p in Below(ks', t) && x in Below(ks', t);
    } else {
      assert x in Below(ks', t) && y in Below(ks', t);
    }
  }

  /** The top takes at most one group in: of two below it one is left. */
  lemma TopLeavesOne(t: Path, ks: set<Path>, ks': set<Path>)
    requires KeyStep(ks, t, ks') && TwoIn(Below(ks, t))
    ensures Below(ks', t) != {}
  {
    var x, y :| x in Below(ks, t) && y in Below(ks, t) && x != y;
    assert x in ks' || y in ks';
    if x in ks' { assert x in Below(ks', t); } else { assert y in Below(ks', t); }
  }

  /** The top takes in the only group below it. */
  lemma TopTakesOnly(all: set<Path>, t: Path, ks: set<Path>, ks': set<Path>)
    requires IsTop(all, t) && ks <= all && t !in ks && KeyStep(ks, t, ks') && !TwoIn(Below(ks, t))
    ensures Below(ks', t) == {}
  {
    if q :| q in ks && t < q && ks' == ks - {q} + {t} {
      assert q in Below(ks, t);
      assert Below(ks', t) <= Below(ks, t) - {q};
    } else {
      assert forall x :: x in ks ==> !Comparable(t, x);
    }
  }

  lemma NoneStays(all: set<Path>, t: Path, ks: set<Path>, p: Path, ks': set<Path>)
    requires IsTop(all, t) && p in all && p != t && KeyStep(ks, p, ks') && t in ks && Below(ks, t) == {}
    ensures Below(ks', t) == {}
  {
    forall q | q in ks ensures !(t < q) { assert q !in Below(ks, t); }
    assert t < p ==> Comparable(p, t);
    forall x | x in ks' ensures !(t < x) {}
  }

  /** A mount that is not below the top does not touch what is. */
  lemma OutsideStays(all: set<Path>, t: Path, ks: set<Path>, p: Path, ks': set<Path>)
    requires IsTop(all, t) && p in all && p != t && !(t < p) && KeyStep(ks, p, ks')
    ensures Below(ks', t) == Below(ks, t)
  {
    forall x ensures x in Below(ks', t) <==> x in Below(ks, t) {
      if x in Below(ks, t) && x !in ks' { PrefixesCompare(p, t, x); }
    }
  }

  // ----- the end of a walk

  lemma {:induction false} TopIsKey(bound: seq<Mount>, order: seq<Mount>, t: Path, n: nat)
    requires n <= |order| && DistinctPaths(bound + order) && IsTop(PathSet(bound + order), t) &&
             t in PathSet(bound + order[..n])
    ensures t in KeysAt(bound, order, n)
    decreases n
  {
    if n == 0 {
      StartKeys(bound, order);
      assert bound + order[..0] == bound;
    } else {
      if t != order[n - 1].path {
        assert bound + order[..n] == bound + order[..n - 1] + [order[n - 1]];
        TopIsKey(bound, order, t, n - 1);
      }
      WalkStep(bound, order, n - 1);
      AllInputs(bound, order, n - 1);
      TopStep(PathSet(bound + order), t, KeysAt(bound, order, n - 1), order[n - 1].path, KeysAt(bound, order, n));
    }
  }

  ghost predicate Raises(bound: seq<Mount>, order: seq<Mount>) { !Mergeable(FirstGroups(bound, order)) }

  /** The tops of the groups are the tops of the input. */
  lemma SameTops(bound: seq<Mount>, order: seq<Mount>, t: Path)
    requires DistinctPaths(bound + order)
    ensures IsTop(Keys(FirstGroups(bound, order)), t) <==> IsTop(PathSet(bound + order), t)
  {
    var all, ks := PathSet(bound + order), KeysAt(bound, order, |order|);
    assert order[..|order|] == order;
    KeysAreInputs(bound, order, |order|);
    if IsTop(all, t) { TopIsKey(bound, order, t, |order|); }
    if IsTop(ks, t) {
      var u := TopAbove(all, t);
      TopIsKey(bound, order, u, |order|);
    }
  }

  /** Grouping raises exactly when a group is left below a top that is not a directory, or is the
      root. */
  lemma RaisesWhen(bound: seq<Mount>, order: seq<Mount>)
    requires DistinctPaths(bound + order)
    ensures Raises(bound, order) <==>
            exists t :: IsTop(PathSet(bound + order), t) && !IsDirectory(t) &&
              Below(KeysAt(bound, order, |order|), t) != {}
  {
    var gs, all := FirstGroups(bound, order), PathSet(bound + order);
    assert order[..|order|] == order;
    forall t ensures IsTop(Keys(gs), t) <==> IsTop(all, t) { SameTops(bound, order, t); }
    if Raises(bound, order) {
      var g :| g in gs && !IsTop(Keys(gs), g.path) && !UnderTopDirectory(gs, g.path);
      var a := TopGroupAbove(gs, g);
      PathIn(gs, g);
      assert g.path in Below(Keys(gs), a.path);
      assert TopDirectory(gs, a) ==> UnderTopDirectory(gs, g.path);
    }
    if t :| IsTop(all, t) && !IsDirectory(t) && Below(Keys(gs), t) != {} {
      LeftBelow(gs, t);
    }
  }

  lemma LeftBelow(gs: seq<Group>, t: Path)
    requires IsTop(Keys(gs), t) && !IsDirectory(t) && Below(Keys(gs), t) != {}
    ensures !Mergeable(gs)
  {
    var q :| q in Below(Keys(gs), t);
    KeyAt(gs, q);
    var i :| 0 <= i < |gs| && gs[i].path == q;
    assert gs[i] in gs && !IsTop(Keys(gs), q);
    forall a | TopDirectory(gs, a) ensures !(a.path < q) {
      if a.path < q { PrefixesCompare(a.path, t, q); }
    }
  }
}
