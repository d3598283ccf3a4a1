/** When the first phase of the grouping of mounts loses one of them (`nsbubble/mountpoint.py`). */
module MountLoss {
  import opened MountPoint
  import opened MountMerge
  import opened MountSet
  import opened MountOrder

  /** No mount, when it is walked, overwrites a group. */
  ghost predicate NeverOverwrites(bound: seq<Mount>, mounts: seq<Mount>) {
    mounts != [] ==>
      var before, last := mounts[..|mounts| - 1], mounts[|mounts| - 1];
      NeverOverwrites(bound, before) && !Overwrites(FirstGroups(bound, before), last)
  }

  lemma DistinctMore(before: seq<Mount>, last: Mount)
    ensures DistinctPaths(before + [last]) <==> DistinctPaths(before) && last.path !in PathSet(before)
  {
    var all := before + [last];
    assert forall i :: 0 <= i < |before| ==> all[i] == before[i] && before[i] in before;
    assert all[|before|] == last;
    if DistinctPaths(all) {
      forall i, j | 0 <= i < j < |before| ensures before[i].path != before[j].path {
        assert all[i].path != all[j].path;
      }
      forall m | m in before ensures m.path != last.path {
        var i :| 0 <= i < |before| && before[i] == m;
        assert all[i].path != all[|before|].path;
      }
    }
  }

  lemma {:induction false} BoundSize(bound: seq<Mount>)
    ensures |AllMounts(BoundFold(bound))| <= |bound|
    ensures |AllMounts(BoundFold(bound))| == |bound| <==> DistinctPaths(bound)
    decreases bound
  {
    if bound != [] {
      var before, last := bound[..|bound| - 1], bound[|bound| - 1];
      BoundSize(before);
      assert bound == before + [last];
      DistinctMore(before, last);
      BoundStep(before, last);
    }
  }

  lemma BoundStep(before: seq<Mount>, last: Mount)
    ensures var gs := BoundFold(before);
            var after := |AllMounts(Put(gs, Group(last.path, [last])))|;
            if last.path in PathSet(before) then after <= |AllMounts(gs)| else after == |AllMounts(gs)| + 1
  {
    var gs, g := BoundFold(before), Group(last.path, [last]);
    BoundFoldBuilt(before);
    BoundKeys(before);
    HasKeyIs(gs, last.path);
    PutMounts(gs, g);
    var i := KeyIndex(gs, g.path);
    var a := AllMounts(Put(gs, g));
    assert |multiset(g.mounts)| == 1;
    if i < |gs| {
      assert GroupOk(gs[i]);
      assert |a + multiset(gs[i].mounts)| == |a| + |gs[i].mounts|;
    }
    assert |AllMounts(gs) + multiset(g.mounts)| == |AllMounts(gs)| + 1;
  }

  lemma {:induction false} WalkSize(bound: seq<Mount>, mounts: seq<Mount>)
    ensures |AllMounts(FirstGroups(bound, mounts))| <= |bound| + |mounts|
    ensures |AllMounts(FirstGroups(bound, mounts))| == |bound| + |mounts| <==>
            DistinctPaths(bound) && NeverOverwrites(bound, mounts)
    decreases mounts
  {
    if mounts == [] {
      BoundSize(bound);
    } else {
      var before, last := mounts[..|mounts| - 1], mounts[|mounts| - 1];
      var gs := FirstGroups(bound, before);
      WalkSize(bound, before);
      FirstGroupsBuilt(bound, before);
      AddMountKeepsMounts(gs, last);
      assert |AllMounts(gs) + multiset{last}| == |AllMounts(gs)| + 1;
    }
  }

  lemma {:induction false} WalkKeeps(bound: seq<Mount>, mounts: seq<Mount>)
    requires DistinctPaths(bound) && NeverOverwrites(bound, mounts)
    ensures AllMounts(FirstGroups(bound, mounts)) == multiset(bound + mounts)
    decreases mounts
  {
    if mounts == [] {
      BoundFoldBuilt(bound);
      assert bound + mounts == bound;
    } else {
      var before, last := mounts[..|mounts| - 1], mounts[|mounts| - 1];
      WalkKeeps(bound, before);
      FirstGroupsBuilt(bound, before);
      AddMountKeepsMounts(FirstGroups(bound, before), last);
      OneMore(bound, mounts);
    }
  }

  lemma OneMore(bound: seq<Mount>, mounts: seq<Mount>)
    requires mounts != []
    ensures multiset(bound + mounts) == multiset(bound + mounts[..|mounts| - 1]) + multiset{mounts[|mounts| - 1]}
  {
    assert bound + mounts == bound + mounts[..|mounts| - 1] + [mounts[|mounts| - 1]];
  }

  /** A walk keeps every bound directory and every mount, if and only if the bound paths are distinct
      and no mount overwrites a group when its turn comes. */
  lemma NothingLostIff(bound: seq<Mount>, mounts: seq<Mount>)
    ensures AllMounts(FirstGroups(bound, mounts)) == multiset(bound + mounts) <==>
            DistinctPaths(bound) && NeverOverwrites(bound, mounts)
  {
    WalkSize(bound, mounts);
    assert |multiset(bound + mounts)| == |bound| + |mounts|;
    if DistinctPaths(bound) && NeverOverwrites(bound, mounts) { WalkKeeps(bound, mounts); }
  }

  lemma OneMountMore(bound: seq<Mount>, before: seq<Mount>, m: Mount)
    ensures FirstGroups(bound, before + [m]) == AddMount(FirstGroups(bound, before), m)
  {
    assert (before + [m])[..|before|] == before;
  }

  /** Of two mounts at one path the first is lost. */
  lemma SecondReplacesFirst(b: Mount, c: Mount)
    requires b.path == c.path
    ensures AllMounts(FirstGroups([], [b, c])) == multiset{c}
  {
    OneMountMore([], [], b);
    OneMountMore([], [b], c);
    assert [] + [b] == [b] && [b] + [c] == [b, c];
    assert FirstGroups([], []) == [];
    assert FirstGroups([], [b]) == [Group(b.path, [b])];
    assert FirstRelated([Group(b.path, [b])], c) == 1;
    assert FirstGroups([], [b, c]) == [Group(c.path, [c])];
    AllMountsOne(Group(c.path, [c]));
  }

  lemma JoinsOnly(g: Group, m: Mount)
    requires g.path < m.path
    ensures AddMount([g], m) == [Group(g.path, g.mounts + [m])]
  {
    assert Related(g, m);
    assert FirstRelated([g], m) == 0;
  }

  /** But both are kept below a group that was there before them. */
  lemma BothKeptBelow(a: Mount, b: Mount, c: Mount)
    requires a.path < b.path && b.path == c.path
    ensures AllMounts(FirstGroups([a], [b, c])) == multiset{a, b, c}
  {
    OneMountMore([a], [], b);
    OneMountMore([a], [b], c);
    assert [] + [b] == [b] && [b] + [c] == [b, c];
    assert [a][..0] == [] && BoundFold([]) == [];
    assert FirstGroups([a], []) == [Group(a.path, [a])];
    JoinsOnly(Group(a.path, [a]), b);
    JoinsOnly(Group(a.path, [a] + [b]), c);
    assert [a] + [b] + [c] == [a, b, c];
    AllMountsOne(Group(a.path, [a, b, c]));
  }
}
