/** Building a set of mount point groups from its specifications, and what comes out
    (`nsbubble/mountpoint.py`). */
module MountSet {
  import opened Wrappers
  import opened MountPoint
  import opened MountMerge

  // ----- groups kept and groups merged

  function Keep(gs: seq<Group>, tops: set<Path>): seq<Group> {
    if gs == [] then []
    else if gs[0].path in tops then [gs[0]] + Keep(gs[1..], tops)
    else Keep(gs[1..], tops)
  }

  function Rest(gs: seq<Group>, tops: set<Path>): seq<Group> {
    if gs == [] then []
    else if gs[0].path in tops then Rest(gs[1..], tops)
    else [gs[0]] + Rest(gs[1..], tops)
  }

  lemma {:induction false} KeepAndRestMounts(gs: seq<Group>, tops: set<Path>)
    ensures AllMounts(Keep(gs, tops)) + AllMounts(Rest(gs, tops)) == AllMounts(gs)
  {
    if gs != [] {
      KeepAndRestMounts(gs[1..], tops);
      if gs[0].path in tops { ConsMounts(gs[0], Keep(gs[1..], tops)); }
      else { ConsMounts(gs[0], Rest(gs[1..], tops)); }
    }
  }

  lemma ConsMounts(g: Group, gs: seq<Group>)
    ensures AllMounts([g] + gs) == multiset(g.mounts) + AllMounts(gs)
  {
    assert ([g] + gs)[1..] == gs;
  }

  lemma {:induction false} KeepAndRest(gs: seq<Group>, tops: set<Path>)
    ensures forall g :: g in Keep(gs, tops) <==> g in gs && g.path in tops
    ensures forall g :: g in Rest(gs, tops) <==> g in gs && g.path !in tops
  {
    if gs != [] {
      KeepAndRest(gs[1..], tops);
      assert forall g :: g in gs <==> g == gs[0] || g in gs[1..];
    }
  }

  lemma TailOk(gs: seq<Group>)
    requires GroupsOk(gs) && gs != []
    ensures GroupsOk(gs[1..]) && forall g <- gs[1..] :: g.path != gs[0].path
  {
    var t := gs[1..];
    assert forall i :: 0 <= i < |t| ==> t[i] == gs[i + 1];
  }

  lemma ConsOk(g: Group, gs: seq<Group>)
    requires GroupOk(g) && GroupsOk(gs) && forall h <- gs :: h.path != g.path
    ensures GroupsOk([g] + gs)
  {
    var r := [g] + gs;
    forall j | 0 < j < |r| ensures r[j] == gs[j - 1] && r[j].path != g.path { assert gs[j - 1] in gs; }
  }

  lemma {:induction false} KeepOk(gs: seq<Group>, tops: set<Path>)
    requires GroupsOk(gs)
    ensures GroupsOk(Keep(gs, tops))
  {
    if gs != [] {
      TailOk(gs);
      KeepOk(gs[1..], tops);
      KeepAndRest(gs[1..], tops);
      if gs[0].path in tops { ConsOk(gs[0], Keep(gs[1..], tops)); }
    }
  }

  function Paths(gs: seq<Group>): (ps: seq<Path>)
    ensures |ps| == |gs| && forall i :: 0 <= i < |gs| ==> ps[i] == gs[i].path
  {
    seq(|gs|, i requires 0 <= i < |gs| => gs[i].path)
  }

  ghost predicate TopsOfGroups(tops: set<Path>, gs: seq<Group>) {
    forall p :: p in tops <==> IsTop(KeySet(Paths(gs)), p)
  }

  lemma PathIn(gs: seq<Group>, g: Group)
    requires g in gs
    ensures g.path in KeySet(Paths(gs))
  {
    var i :| 0 <= i < |gs| && gs[i] == g;
    assert Paths(gs)[i] == g.path;
  }

  lemma KeepPrefixFree(gs: seq<Group>, tops: set<Path>)
    requires GroupsOk(gs) && TopsOfGroups(tops, gs)
    ensures PrefixFree(Keep(gs, tops))
  {
    var ks := Keep(gs, tops);
    KeepAndRest(gs, tops);
    KeepOk(gs, tops);
    forall i, j | 0 <= i < |ks| && 0 <= j < |ks| && ks[i].path <= ks[j].path ensures i == j {
      assert ks[i] in ks && ks[j] in ks;
      PathIn(gs, ks[i]);
      assert ks[i].path == ks[j].path;
    }
  }

  /** A group that is not kept has a kept group above it. */
  lemma KeptAbove(gs: seq<Group>, tops: set<Path>, g: Group) returns (k: nat)
    requires GroupsOk(gs) && TopsOfGroups(tops, gs) && g in gs && g.path !in tops
    ensures k < |Keep(gs, tops)| && Keep(gs, tops)[k] in gs && Keep(gs, tops)[k].path < g.path
  {
    PathIn(gs, g);
    var t := TopAbove(KeySet(Paths(gs)), g.path);
    assert t in tops;
    var i :| 0 <= i < |gs| && Paths(gs)[i] == t;
    KeepAndRest(gs, tops);
    assert gs[i] in Keep(gs, tops);
    k :| 0 <= k < |Keep(gs, tops)| && Keep(gs, tops)[k] == gs[i];
  }

  // ----- merging

  ghost predicate SameKeys(a: seq<Group>, b: seq<Group>) {
    |a| == |b| && forall i :: 0 <= i < |a| ==> a[i].path == b[i].path
  }

  lemma MergeOne(ng: seq<Group>, e: nat, g: Group)
    requires GroupsOk(ng) && e < |ng| && GroupOk(g) && ng[e].path <= g.path
    ensures var r := ng[e := ng[e].(mounts := ng[e].mounts + g.mounts)];
            GroupsOk(r) && SameKeys(r, ng) && AllMounts(r) == AllMounts(ng) + multiset(g.mounts)
  {
    var h := ng[e].(mounts := ng[e].mounts + g.mounts);
    AllMountsUpdate(ng, e, h);
    assert multiset(h.mounts) == multiset(ng[e].mounts) + multiset(g.mounts);
    Cancel(AllMounts(ng[e := h]), AllMounts(ng) + multiset(g.mounts), multiset(ng[e].mounts));
    assert GroupOk(ng[e]);
    forall m | m in g.mounts ensures h.path <= m.path {}
  }

  /** Some group of the list is a directory the path is under. */
  ghost predicate DirectoryAbove(gs: seq<Group>, path: Path) {
    exists k :: 0 <= k < |gs| && IsDirectory(gs[k].path) && gs[k].path < path
  }

  lemma DirectoryKey(kept: seq<Group>, ng: seq<Group>, path: Path)
    requires DirectoryAbove(kept, path) && SameKeys(ng, kept)
    ensures exists q: Path :: q != [] && q + "/" < path && HasKey(ng, q + "/")
  {
    var k :| 0 <= k < |kept| && IsDirectory(kept[k].path) && kept[k].path < path;
    var t := ng[k].path;
    var q := t[..|t| - 1];
    assert q + "/" == t;
  }

  ghost predicate Merging(kept: seq<Group>, rest: seq<Group>, n: nat, ng: seq<Group>)
    requires n <= |rest|
  {
    GroupsOk(ng) && SameKeys(ng, kept) && AllMounts(ng) == AllMounts(kept) + AllMounts(rest[..n])
  }

  lemma MergeNext(kept: seq<Group>, rest: seq<Group>, n: nat, ng: seq<Group>, e: nat)
    requires n < |rest| && Merging(kept, rest, n, ng) && GroupOk(rest[n])
    requires e < |ng| && ng[e].path <= rest[n].path
    ensures Merging(kept, rest, n + 1, ng[e := ng[e].(mounts := ng[e].mounts + rest[n].mounts)])
  {
    MergeOne(ng, e, rest[n]);
    assert rest[..n + 1] == rest[..n] + [rest[n]];
    AllMountsConcat(rest[..n], [rest[n]]);
    AllMountsOne(rest[n]);
  }

  ghost predicate Absent(gs: seq<Group>, path: Path) { forall i :: 0 <= i < |gs| ==> gs[i].path != path }

  ghost predicate CanMerge(kept: seq<Group>, g: Group) {
    GroupOk(g) && Normal(g.path) && g.path != "/" && Absent(kept, g.path)
  }

  ghost predicate AllCanMerge(kept: seq<Group>, rest: seq<Group>) {
    forall i :: 0 <= i < |rest| ==> CanMerge(kept, rest[i])
  }

  ghost predicate AllBelow(kept: seq<Group>, rest: seq<Group>) {
    forall i :: 0 <= i < |rest| ==> DirectoryAbove(kept, rest[i].path)
  }

  method FindParent(ng: seq<Group>, g: Group, ghost kept: seq<Group>) returns (e: Option<nat>)
    requires SameKeys(ng, kept) && CanMerge(kept, g)
    ensures e.Some? ==> e.value < |ng| && ng[e.value].path <= g.path
    ensures e.Some? <==> DirectoryAbove(kept, g.path)
  {
    e := ParentGroup(ng, g.path);
    if e.Some? { assert kept[e.value].path < g.path; }
    else if DirectoryAbove(kept, g.path) {
      DirectoryKey(kept, ng, g.path);
      assert false;
    }
  }

  lemma MergeStart(kept: seq<Group>, rest: seq<Group>)
    requires GroupsOk(kept)
    ensures Merging(kept, rest, 0, kept)
  {
    assert rest[..0] == [];
  }

  method MergeStep(ghost kept: seq<Group>, rest: seq<Group>, n: nat, ng: seq<Group>) returns (r: Result<seq<Group>>)
    requires n < |rest| && Merging(kept, rest, n, ng) && CanMerge(kept, rest[n])
    ensures r.Ok? <==> DirectoryAbove(kept, rest[n].path)
    ensures r.Ok? ==> Merging(kept, rest, n + 1, r.value)
  {
    var e := FindParent(ng, rest[n], kept);
    if e.None? { return Err; }
    MergeNext(kept, rest, n, ng, e.value);
    return Ok(ng[e.value := ng[e.value].(mounts := ng[e.value].mounts + rest[n].mounts)]);
  }

  /** Each remaining group joins the group found among its parents. */
  method MergeRest(kept: seq<Group>, rest: seq<Group>) returns (r: Result<seq<Group>>)
    requires GroupsOk(kept) && AllCanMerge(kept, rest)
    ensures r.Ok? ==> Merging(kept, rest, |rest|, r.value)
    ensures r.Ok? <==> AllBelow(kept, rest)
  {
    var ng := kept;
    var n := 0;
    MergeStart(kept, rest);
    while n < |rest|
      invariant n <= |rest| && Merging(kept, rest, n, ng)
      invariant forall i :: 0 <= i < n ==> DirectoryAbove(kept, rest[i].path)
    {
      var next := MergeStep(kept, rest, n, ng);
      if next.Err? { return Err; }
      ng := next.value;
      n := n + 1;
    }
    return Ok(ng);
  }

  // ----- the whole construction

  /** No mount lost, groups that do not overlap, each led by the mount at its own path. */
  ghost predicate Grouped(gs: seq<Group>, all: seq<Mount>) {
    && GroupsOk(gs) && PrefixFree(gs)
    && (DistinctPaths(all) ==> AllMounts(gs) == multiset(all))
  }

  ghost predicate NormalMounts(ms: seq<Mount>) { forall m <- ms :: Normal(m.path) }

  /** Mounts that have mounts below them are directories other than the root. */
  ghost predicate ParentsAreDirectories(ms: seq<Mount>) {
    forall a, b :: a in ms && b in ms && a.path < b.path ==> IsDirectory(a.path)
  }

  lemma BuiltNormal(gs: seq<Group>, all: seq<Mount>)
    requires Built(gs, all) && NormalMounts(all)
    ensures forall g <- gs :: Normal(g.path)
    ensures ParentsAreDirectories(all) ==> forall a, b :: a in gs && b in gs && a.path < b.path ==> IsDirectory(a.path)
  {
    forall g | g in gs ensures PathFrom(g, all) {
      var i :| 0 <= i < |gs| && gs[i] == g;
    }
    forall a, b | a in gs && b in gs && a.path < b.path && ParentsAreDirectories(all) ensures IsDirectory(a.path) {
      var x :| x in all && x.path == a.path;
      var y :| y in all && y.path == b.path;
    }
  }

  /** Every group is a top, or is under a top that is a directory other than the root. */
  ghost predicate Mergeable(gs: seq<Group>) {
    forall g <- gs :: IsTop(KeySet(Paths(gs)), g.path) || UnderTopDirectory(gs, g.path)
  }

  ghost predicate TopDirectory(gs: seq<Group>, a: Group) {
    a in gs && IsTop(KeySet(Paths(gs)), a.path) && IsDirectory(a.path)
  }

  method SecondPhase(gs: seq<Group>, ghost all: seq<Mount>) returns (r: Result<seq<Group>>)
    requires Built(gs, all) && NormalMounts(all)
    ensures r.Ok? ==> Grouped(r.value, all)
    ensures r.Ok? <==> Mergeable(gs)
  {
    var tops := TopPaths(Paths(gs));
    var kept, rest := Keep(gs, tops), Rest(gs, tops);
    BuiltNormal(gs, all);
    KeepOk(gs, tops);
    RestCanMerge(gs, tops);
    MergeableWhen(gs, tops);
    r := MergeRest(kept, rest);
    if r.Ok? { MergedIsGrouped(gs, all, tops, r.value); }
  }

  lemma MergedIsGrouped(gs: seq<Group>, all: seq<Mount>, tops: set<Path>, ng: seq<Group>)
    requires Built(gs, all) && TopsOfGroups(tops, gs)
    requires Merging(Keep(gs, tops), Rest(gs, tops), |Rest(gs, tops)|, ng)
    ensures Grouped(ng, all)
  {
    KeepPrefixFree(gs, tops);
    KeepAndRestMounts(gs, tops);
    assert Rest(gs, tops)[..|Rest(gs, tops)|] == Rest(gs, tops);
  }

  lemma RestCanMerge(gs: seq<Group>, tops: set<Path>)
    requires GroupsOk(gs) && TopsOfGroups(tops, gs) && forall g <- gs :: Normal(g.path)
    ensures AllCanMerge(Keep(gs, tops), Rest(gs, tops))
  {
    KeepAndRest(gs, tops);
    var kept, rest := Keep(gs, tops), Rest(gs, tops);
    forall i | 0 <= i < |rest| ensures CanMerge(kept, rest[i]) {
      assert rest[i] in rest;
      var k := KeptAbove(gs, tops, rest[i]);
      assert Normal(kept[k].path);
      forall j | 0 <= j < |kept| ensures kept[j].path != rest[i].path { assert kept[j] in kept; }
    }
  }

  ghost predicate UnderTopDirectory(gs: seq<Group>, path: Path) { exists a :: TopDirectory(gs, a) && a.path < path }

  lemma MergeableWhen(gs: seq<Group>, tops: set<Path>)
    requires TopsOfGroups(tops, gs)
    ensures Mergeable(gs) <==> AllBelow(Keep(gs, tops), Rest(gs, tops))
  {
    KeepAndRest(gs, tops);
    var kept, rest := Keep(gs, tops), Rest(gs, tops);
    forall i | 0 <= i < |rest| ensures rest[i] in gs && rest[i].path !in tops { assert rest[i] in rest; }
    if Mergeable(gs) {
      forall i | 0 <= i < |rest| ensures DirectoryAbove(kept, rest[i].path) { KeptDirectory(gs, tops, rest[i].path); }
    }
    if AllBelow(kept, rest) {
      forall g | g in gs && !IsTop(KeySet(Paths(gs)), g.path) ensures UnderTopDirectory(gs, g.path) {
        assert g in rest;
        KeptDirectory(gs, tops, g.path);
      }
    }
  }

  lemma KeptDirectory(gs: seq<Group>, tops: set<Path>, path: Path)
    requires TopsOfGroups(tops, gs)
    ensures DirectoryAbove(Keep(gs, tops), path) <==> UnderTopDirectory(gs, path)
  {
    var kept := Keep(gs, tops);
    KeepAndRest(gs, tops);
    if DirectoryAbove(kept, path) {
      var k :| 0 <= k < |kept| && IsDirectory(kept[k].path) && kept[k].path < path;
      assert kept[k] in kept;
    }
    if UnderTopDirectory(gs, path) {
      var a :| TopDirectory(gs, a) && a.path < path;
      assert a in kept;
    }
  }

  /** When every mount above another is a directory other than the root, merging succeeds. */
  lemma DirectoriesMerge(gs: seq<Group>, all: seq<Mount>)
    requires Built(gs, all) && NormalMounts(all) && ParentsAreDirectories(all)
    ensures Mergeable(gs)
  {
    BuiltNormal(gs, all);
    forall g | g in gs && !IsTop(KeySet(Paths(gs)), g.path) ensures UnderTopDirectory(gs, g.path) {
      var a := TopGroupAbove(gs, g);
      assert TopDirectory(gs, a);
    }
  }

  lemma TopGroupAbove(gs: seq<Group>, g: Group) returns (a: Group)
    requires g in gs && !IsTop(KeySet(Paths(gs)), g.path)
    ensures a in gs && IsTop(KeySet(Paths(gs)), a.path) && a.path < g.path
  {
    PathIn(gs, g);
    var t := TopAbove(KeySet(Paths(gs)), g.path);
    var i :| 0 <= i < |gs| && Paths(gs)[i] == t;
    a := gs[i];
  }

  /** Group the bound directories and the mounts, in any order the set of mounts yields; without
      mounts the bound directories are left as they are. `Err` is the exception of the walk that
      finds no parent. */
  method FromSpecifications(bound: seq<Mount>, mounts: Option<seq<Mount>>) returns (r: Result<seq<Group>>)
    requires NormalMounts(bound) && (mounts.Some? ==> NormalMounts(mounts.value))
    ensures mounts.Some? ==> (r.Ok? <==> Mergeable(FirstGroups(bound, mounts.value)))
    ensures mounts.Some? && r.Ok? ==> Grouped(r.value, bound + mounts.value)
    ensures mounts.Some? && ParentsAreDirectories(bound + mounts.value) ==> r.Ok?
    ensures mounts.None? ==> r == Ok(BoundFold(bound)) && Built(r.value, bound) && Singles(r.value)
  {
    if mounts.None? {
      var gs := BoundGroups(bound);
      return Ok(gs);
    }
    var gs := FirstPhase(bound, mounts.value);
    assert forall m <- bound + mounts.value :: Normal(m.path);
    r := SecondPhase(gs, bound + mounts.value);
    if ParentsAreDirectories(bound + mounts.value) { DirectoriesMerge(gs, bound + mounts.value); }
  }
}
