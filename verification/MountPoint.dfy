/** Grouping of mount points under common top directories (`nsbubble/mountpoint.py`): the
    incremental grouping, the merging of leftover groups, and what the result is. */
module MountPoint {

  /** Paths are text; a directory path ends with a slash. */
  type Path = string

  datatype Mount = Mount(source: string, path: Path, readOnly: bool)
  datatype Group = Group(path: Path, mounts: seq<Mount>)

  // ----- an insertion-ordered dictionary of groups, keyed by path

  function KeyIndex(gs: seq<Group>, key: Path): (k: nat)
    ensures k <= |gs|
    ensures k < |gs| ==> gs[k].path == key
    ensures forall j :: 0 <= j < k ==> gs[j].path != key
  {
    if gs == [] || gs[0].path == key then 0 else 1 + KeyIndex(gs[1..], key)
  }

  predicate HasKey(gs: seq<Group>, key: Path) { KeyIndex(gs, key) < |gs| }

  function Put(gs: seq<Group>, g: Group): seq<Group> {
    var k := KeyIndex(gs, g.path);
    if k < |gs| then gs[k := g] else gs + [g]
  }

  function Remove(gs: seq<Group>, key: Path): seq<Group> {
    var k := KeyIndex(gs, key);
    if k < |gs| then gs[..k] + gs[k + 1..] else gs
  }

  function AllMounts(gs: seq<Group>): multiset<Mount> {
    if gs == [] then multiset{} else multiset(gs[0].mounts) + AllMounts(gs[1..])
  }

  lemma {:induction false} AllMountsConcat(a: seq<Group>, b: seq<Group>)
    ensures AllMounts(a + b) == AllMounts(a) + AllMounts(b)
  {
    if a == [] {
      assert a + b == b;
    } else {
      assert (a + b)[1..] == a[1..] + b;
      AllMountsConcat(a[1..], b);
    }
  }

  lemma AllMountsOne(g: Group)
    ensures AllMounts([g]) == multiset(g.mounts)
  {
    assert [g][1..] == [];
  }

  lemma AllMountsSplit(gs: seq<Group>, k: nat)
    requires k < |gs|
    ensures AllMounts(gs) == AllMounts(gs[..k]) + multiset(gs[k].mounts) + AllMounts(gs[k + 1..])
  {
    assert gs == gs[..k] + gs[k..];
    AllMountsConcat(gs[..k], gs[k..]);
    assert gs[k..][1..] == gs[k + 1..];
  }

  lemma AllMountsUpdate(gs: seq<Group>, k: nat, g: Group)
    requires k < |gs|
    ensures AllMounts(gs[k := g]) + multiset(gs[k].mounts) == AllMounts(gs) + multiset(g.mounts)
  {
    AllMountsSplit(gs, k);
    AllMountsSplit(gs[k := g], k);
    assert gs[k := g][..k] == gs[..k] && gs[k := g][k + 1..] == gs[k + 1..];
  }

  lemma AllMountsRemove(gs: seq<Group>, k: nat)
    requires k < |gs|
    ensures AllMounts(gs[..k] + gs[k + 1..]) + multiset(gs[k].mounts) == AllMounts(gs)
  {
    AllMountsSplit(gs, k);
    AllMountsConcat(gs[..k], gs[k + 1..]);
  }

  // ----- well-formed groups

  /** The first mount sits at the path of the group, the others below or at it. */
  predicate GroupOk(g: Group) {
    && g.mounts != [] && g.mounts[0].path == g.path
    && forall m <- g.mounts :: g.path <= m.path
  }

  ghost predicate GroupsOk(gs: seq<Group>) {
    && (forall i :: 0 <= i < |gs| ==> GroupOk(gs[i]))
    && (forall i, j :: 0 <= i < j < |gs| ==> gs[i].path != gs[j].path)
  }

  lemma KeyIsAt(gs: seq<Group>, k: nat)
    requires GroupsOk(gs) && k < |gs|
    ensures KeyIndex(gs, gs[k].path) == k
  {
    var a := KeyIndex(gs, gs[k].path);
  }

  lemma PutOk(gs: seq<Group>, g: Group)
    requires GroupsOk(gs) && GroupOk(g)
    ensures GroupsOk(Put(gs, g))
  {
  }

  lemma RemoveOk(gs: seq<Group>, key: Path)
    requires GroupsOk(gs)
    ensures GroupsOk(Remove(gs, key))
  {
    var k, rs := KeyIndex(gs, key), Remove(gs, key);
    if k < |gs| {
      assert forall j :: 0 <= j < |rs| ==> rs[j] == if j < k then gs[j] else gs[j + 1];
    }
  }

  // ----- first phase: one mount after the other

  /** The group of another path that is above or below the mount. */
  predicate Related(g: Group, m: Mount) {
    g.path != m.path && (g.path <= m.path || m.path <= g.path)
  }

  function FirstRelated(gs: seq<Group>, m: Mount): (k: nat)
    ensures k <= |gs|
    ensures k < |gs| ==> Related(gs[k], m)
    ensures forall j :: 0 <= j < k ==> !Related(gs[j], m)
  {
    if gs == [] || Related(gs[0], m) then 0 else 1 + FirstRelated(gs[1..], m)
  }

  function AddMount(gs: seq<Group>, m: Mount): seq<Group> {
    var k := FirstRelated(gs, m);
    if k == |gs| then Put(gs, Group(m.path, [m]))
    else if gs[k].path <= m.path then gs[k := gs[k].(mounts := gs[k].mounts + [m])]
    else Remove(Put(gs, Group(m.path, [m] + gs[k].mounts)), gs[k].path)
  }

  lemma AddMountOk(gs: seq<Group>, m: Mount)
    requires GroupsOk(gs)
    ensures GroupsOk(AddMount(gs, m))
  {
    var k := FirstRelated(gs, m);
    if k == |gs| {
      PutOk(gs, Group(m.path, [m]));
    } else if !(gs[k].path <= m.path) {
      var g := Group(m.path, [m] + gs[k].mounts);
      assert GroupOk(gs[k]) && GroupOk(g);
      PutOk(gs, g);
      RemoveOk(Put(gs, g), gs[k].path);
    } else {
      assert GroupOk(gs[k].(mounts := gs[k].mounts + [m]));
    }
  }

  /** A mount overwrites the group of its own path, unless a group above it is met first. */
  predicate Overwrites(gs: seq<Group>, m: Mount) {
    var k := FirstRelated(gs, m);
    HasKey(gs, m.path) && (k == |gs| || !(gs[k].path <= m.path))
  }

  lemma PutMounts(gs: seq<Group>, g: Group)
    ensures var i := KeyIndex(gs, g.path);
            AllMounts(Put(gs, g)) + (if i < |gs| then multiset(gs[i].mounts) else multiset{}) ==
            AllMounts(gs) + multiset(g.mounts)
  {
    var i := KeyIndex(gs, g.path);
    if i < |gs| {
      AllMountsUpdate(gs, i, g);
    } else {
      AllMountsConcat(gs, [g]);
      AllMountsOne(g);
    }
  }

  /** One step loses no mount, exactly when it does not overwrite a group. */
  lemma AddMountKeepsMounts(gs: seq<Group>, m: Mount)
    requires GroupsOk(gs)
    ensures AllMounts(AddMount(gs, m)) == AllMounts(gs) + multiset{m} <==> !Overwrites(gs, m)
    ensures Overwrites(gs, m) ==> |AllMounts(AddMount(gs, m))| <= |AllMounts(gs)|
  {
    var k, i := FirstRelated(gs, m), KeyIndex(gs, m.path);
    var a, b := AllMounts(AddMount(gs, m)), AllMounts(gs) + multiset{m};
    if k < |gs| && gs[k].path <= m.path {
      AppendMount(gs, k, m);
    } else {
      var old' := if i < |gs| then multiset(gs[i].mounts) else multiset{};
      assert a + old' == b by {
        if k == |gs| { PutMounts(gs, Group(m.path, [m])); } else { AbsorbMounts(gs, m, k); }
      }
      if i < |gs| {
        assert GroupOk(gs[i]);
        assert gs[i].mounts[0] in old';
        assert (a + old')[gs[i].mounts[0]] > a[gs[i].mounts[0]];
        assert |a + old'| == |a| + |old'| && |old'| == |gs[i].mounts| > 0;
      }
    }
  }

  lemma AbsorbMounts(gs: seq<Group>, m: Mount, k: nat)
    requires GroupsOk(gs) && k < |gs| && gs[k].path != m.path && m.path <= gs[k].path
    ensures var i := KeyIndex(gs, m.path);
            AllMounts(Remove(Put(gs, Group(m.path, [m] + gs[k].mounts)), gs[k].path))
            + (if i < |gs| then multiset(gs[i].mounts) else multiset{}) == AllMounts(gs) + multiset{m}
  {
    var g, i, c := Group(m.path, [m] + gs[k].mounts), KeyIndex(gs, m.path), multiset(gs[k].mounts);
    var old' := if i < |gs| then multiset(gs[i].mounts) else multiset{};
    assert GroupOk(gs[k]) && GroupOk(g);
    PutMounts(gs, g);
    RemoveBelow(gs, m, k, g);
    PrependMounts(m, gs[k].mounts);
    Balance(AllMounts(Remove(Put(gs, g), gs[k].path)), old', AllMounts(gs), multiset{m}, c, AllMounts(Put(gs, g)));
  }

  lemma PrependMounts(m: Mount, ms: seq<Mount>)
    ensures multiset([m] + ms) == multiset{m} + multiset(ms)
  {
  }

  lemma Balance(r: multiset<Mount>, o: multiset<Mount>, a: multiset<Mount>, x: multiset<Mount>,
                c: multiset<Mount>, p: multiset<Mount>)
    requires p + o == a + (x + c) && r + c == p
    ensures r + o == a + x
  {
    forall y ensures (r + o)[y] == (a + x)[y] {
      assert (p + o)[y] == (a + (x + c))[y] && (r + c)[y] == p[y];
    }
  }

  lemma AppendMount(gs: seq<Group>, k: nat, m: Mount)
    requires k < |gs|
    ensures AllMounts(gs[k := gs[k].(mounts := gs[k].mounts + [m])]) == AllMounts(gs) + multiset{m}
  {
    var g := gs[k].(mounts := gs[k].mounts + [m]);
    AllMountsUpdate(gs, k, g);
    assert multiset(g.mounts) == multiset(gs[k].mounts) + multiset{m};
    Cancel(AllMounts(gs[k := g]), AllMounts(gs) + multiset{m}, multiset(gs[k].mounts));
  }

  lemma Cancel(a: multiset<Mount>, b: multiset<Mount>, c: multiset<Mount>)
    requires a + c == b + c
    ensures a == b
  {
    forall x ensures a[x] == b[x] { assert (a + c)[x] == (b + c)[x]; }
  }

  /** Taking out the group that was just absorbed. */
  lemma RemoveBelow(gs: seq<Group>, m: Mount, k: nat, g: Group)
    requires GroupsOk(gs) && k < |gs| && gs[k].path != m.path && g.path == m.path && GroupOk(g)
    ensures AllMounts(Remove(Put(gs, g), gs[k].path)) + multiset(gs[k].mounts) == AllMounts(Put(gs, g))
  {
    var ps := Put(gs, g);
    PutOk(gs, g);
    assert ps[k] == gs[k];
    KeyIsAt(ps, k);
    AllMountsRemove(ps, k);
  }

  lemma AllMountsHas(gs: seq<Group>, k: nat, m: Mount)
    requires k < |gs| && m in gs[k].mounts
    ensures m in AllMounts(gs)
  {
    AllMountsSplit(gs, k);
  }

  lemma {:induction false} AllMountsWhere(gs: seq<Group>, m: Mount) returns (k: nat)
    requires m in AllMounts(gs)
    ensures k < |gs| && m in gs[k].mounts
  {
    if m in gs[0].mounts { k := 0; }
    else {
      k := AllMountsWhere(gs[1..], m);
      k := k + 1;
    }
  }

  ghost predicate DistinctPaths(ms: seq<Mount>) {
    forall i, j :: 0 <= i < j < |ms| ==> ms[i].path != ms[j].path
  }

  /** With distinct paths nothing is ever overwritten. */
  lemma NoOverwrite(gs: seq<Group>, done: seq<Mount>, m: Mount)
    requires GroupsOk(gs) && AllMounts(gs) == multiset(done)
    requires forall d <- done :: d.path != m.path
    ensures !HasKey(gs, m.path)
  {
    var k := KeyIndex(gs, m.path);
    if k < |gs| {
      assert GroupOk(gs[k]);
      AllMountsHas(gs, k, gs[k].mounts[0]);
      assert false;
    }
  }

  /** Groups built from the mounts handled so far: each sits at the path of one of them, and when
      their paths are distinct none got lost. */
  ghost predicate Built(gs: seq<Group>, done: seq<Mount>) {
    && GroupsOk(gs)
    && (DistinctPaths(done) ==> AllMounts(gs) == multiset(done))
    && (forall i :: 0 <= i < |gs| ==> PathFrom(gs[i], done))
  }

  lemma LastIsNew(done: seq<Mount>, m: Mount)
    requires DistinctPaths(done + [m])
    ensures DistinctPaths(done) && forall d <- done :: d.path != m.path
  {
    var all := done + [m];
    forall i | 0 <= i < |done| ensures done[i].path != m.path {
      assert all[i] == done[i] && all[|done|] == m;
    }
    forall i, j | 0 <= i < j < |done| ensures done[i].path != done[j].path {
      assert all[i] == done[i] && all[j] == done[j];
    }
  }

  lemma MountBuilt(gs: seq<Group>, done: seq<Mount>, m: Mount)
    requires Built(gs, done)
    ensures Built(AddMount(gs, m), done + [m])
  {
    AddMountOk(gs, m);
    AddMountPaths(gs, done, m);
    if DistinctPaths(done + [m]) {
      LastIsNew(done, m);
      NoOverwrite(gs, done, m);
      AddMountKeepsMounts(gs, m);
    }
  }

  lemma BoundBuilt(gs: seq<Group>, done: seq<Mount>, m: Mount)
    requires Built(gs, done)
    ensures Built(Put(gs, Group(m.path, [m])), done + [m])
  {
    var g := Group(m.path, [m]);
    PutOk(gs, g);
    PutPaths(gs, done, m, g);
    if DistinctPaths(done + [m]) {
      LastIsNew(done, m);
      NoOverwrite(gs, done, m);
      AllMountsConcat(gs, [g]);
      AllMountsOne(g);
    }
  }

  ghost predicate PathFrom(g: Group, done: seq<Mount>) { exists m :: m in done && m.path == g.path }

  lemma PutPaths(gs: seq<Group>, done: seq<Mount>, m: Mount, g: Group)
    requires forall i :: 0 <= i < |gs| ==> PathFrom(gs[i], done)
    requires g.path == m.path
    ensures forall i :: 0 <= i < |Put(gs, g)| ==> PathFrom(Put(gs, g)[i], done + [m])
  {
    var ps := Put(gs, g);
    forall i | 0 <= i < |ps| ensures PathFrom(ps[i], done + [m]) {
      if ps[i] == g {
        assert m in done + [m];
      } else {
        assert ps[i] == gs[i] && PathFrom(gs[i], done);
        var d :| d in done && d.path == gs[i].path;
        assert d in done + [m];
      }
    }
  }

  lemma AddMountPaths(gs: seq<Group>, done: seq<Mount>, m: Mount)
    requires forall i :: 0 <= i < |gs| ==> PathFrom(gs[i], done)
    ensures forall i :: 0 <= i < |AddMount(gs, m)| ==> PathFrom(AddMount(gs, m)[i], done + [m])
  {
    var k := FirstRelated(gs, m);
    if k == |gs| {
      PutPaths(gs, done, m, Group(m.path, [m]));
    } else if gs[k].path <= m.path {
      forall i | 0 <= i < |gs| ensures PathFrom(gs[i], done + [m]) {
        var d :| d in done && d.path == gs[i].path;
        assert d in done + [m];
      }
    } else {
      PutPaths(gs, done, m, Group(m.path, [m] + gs[k].mounts));
    }
  }

  /** One mount against all the groups, in the order of the dictionary. */
  method PlaceMount(gs: seq<Group>, m: Mount) returns (r: seq<Group>)
    ensures r == AddMount(gs, m)
  {
    var k := 0;
    while k < |gs|
      invariant k <= FirstRelated(gs, m)
    {
      var g := gs[k];
      if m.path == g.path {
      } else if g.path <= m.path {
        return gs[k := g.(mounts := g.mounts + [m])];
      } else if m.path <= g.path {
        return Remove(Put(gs, Group(m.path, [m] + g.mounts)), g.path);
      }
      k := k + 1;
    }
    return Put(gs, Group(m.path, [m]));
  }

  ghost predicate Singles(gs: seq<Group>) { forall i :: 0 <= i < |gs| ==> |gs[i].mounts| == 1 }

  ghost predicate BoundSoFar(gs: seq<Group>, done: seq<Mount>) { Built(gs, done) && Singles(gs) }

  function BoundFold(bound: seq<Mount>): seq<Group> {
    if bound == [] then []
    else
      var last := bound[|bound| - 1];
      Put(BoundFold(bound[..|bound| - 1]), Group(last.path, [last]))
  }

  /** The groups after all bound directories and the mounts, in their order. */
  function FirstGroups(bound: seq<Mount>, mounts: seq<Mount>): seq<Group> {
    if mounts == [] then BoundFold(bound)
    else AddMount(FirstGroups(bound, mounts[..|mounts| - 1]), mounts[|mounts| - 1])
  }

  lemma {:induction false} BoundFoldBuilt(bound: seq<Mount>)
    ensures BoundSoFar(BoundFold(bound), bound)
    decreases bound
  {
    if bound != [] {
      var before, last := bound[..|bound| - 1], bound[|bound| - 1];
      BoundFoldBuilt(before);
      BoundBuilt(BoundFold(before), before, last);
      assert before + [last] == bound;
    }
  }

  lemma {:induction false} FirstGroupsBuilt(bound: seq<Mount>, mounts: seq<Mount>)
    ensures Built(FirstGroups(bound, mounts), bound + mounts)
    decreases mounts
  {
    if mounts == [] {
      BoundFoldBuilt(bound);
      assert bound + mounts == bound;
    } else {
      var before, last := mounts[..|mounts| - 1], mounts[|mounts| - 1];
      FirstGroupsBuilt(bound, before);
      MountBuilt(FirstGroups(bound, before), bound + before, last);
      assert bound + before + [last] == bound + mounts;
    }
  }

  /** Bound directories first, each a group of its own. */
  method BoundGroups(bound: seq<Mount>) returns (gs: seq<Group>)
    ensures gs == BoundFold(bound) && BoundSoFar(gs, bound)
  {
    gs := [];
    var k := 0;
    while k < |bound|
      invariant k <= |bound| && gs == BoundFold(bound[..k])
    {
      assert bound[..k + 1][..k] == bound[..k];
      gs := Put(gs, Group(bound[k].path, [bound[k]]));
      k := k + 1;
    }
    assert bound[..k] == bound;
    BoundFoldBuilt(bound);
  }

  /** Then the mounts, in whatever order the set yields them. */
  method FirstPhase(bound: seq<Mount>, mounts: seq<Mount>) returns (gs: seq<Group>)
    ensures gs == FirstGroups(bound, mounts) && Built(gs, bound + mounts)
  {
    gs := BoundGroups(bound);
    var k := 0;
    while k < |mounts|
      invariant k <= |mounts| && gs == FirstGroups(bound, mounts[..k])
    {
      assert mounts[..k + 1][..k] == mounts[..k];
      gs := PlaceMount(gs, mounts[k]);
      k := k + 1;
    }
    assert mounts[..k] == mounts;
    FirstGroupsBuilt(bound, mounts);
  }
}
