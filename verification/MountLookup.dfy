/** What a grouped set of mounts is, and which mount serves a file (`nsbubble/mountpoint.py`). */
module MountLookup {
  import opened Wrappers
  import opened MountPoint
  import opened MountMerge
  import opened MountSet

  // ----- each mount is under its shallowest ancestor

  /** `t` is the shortest mount path of the input that is a prefix of `p`. */
  ghost predicate Shallowest(all: seq<Mount>, t: Path, p: Path) {
    && t <= p && (exists m :: m in all && m.path == t)
    && forall m <- all :: m.path <= p ==> t <= m.path
  }

  lemma {:induction false} NotIn(gs: seq<Group>, m: Mount)
    requires forall i :: 0 <= i < |gs| ==> m !in gs[i].mounts
    ensures AllMounts(gs)[m] == 0
  {
    if m in AllMounts(gs) { var k := AllMountsWhere(gs, m); }
  }

  /** A group holds exactly the mounts under its path. */
  lemma HoldsUnder(gs: seq<Group>, i: nat, m: Mount)
    requires GroupsOk(gs) && PrefixFree(gs) && i < |gs|
    ensures multiset(gs[i].mounts)[m] == if gs[i].path <= m.path then AllMounts(gs)[m] else 0
  {
    assert GroupOk(gs[i]);
    if gs[i].path <= m.path {
      forall j | 0 <= j < |gs| && j != i ensures m !in gs[j].mounts {
        assert GroupOk(gs[j]);
        if m in gs[j].mounts { PrefixesCompare(gs[i].path, gs[j].path, m.path); }
      }
      AllMountsSplit(gs, i);
      NotIn(gs[..i], m);
      NotIn(gs[i + 1..], m);
    }
  }

  lemma InputMount(gs: seq<Group>, all: seq<Mount>, m: Mount) returns (j: nat)
    requires Grouped(gs, all) && DistinctPaths(all) && m in all
    ensures j < |gs| && m in gs[j].mounts && gs[j].path <= m.path
  {
    assert m in multiset(all);
    j := AllMountsWhere(gs, m);
    assert GroupOk(gs[j]);
  }

  lemma GroupPathIsShallowest(gs: seq<Group>, all: seq<Mount>, i: nat, p: Path)
    requires Grouped(gs, all) && DistinctPaths(all) && i < |gs| && gs[i].path <= p
    ensures Shallowest(all, gs[i].path, p)
  {
    assert GroupOk(gs[i]);
    var lead := gs[i].mounts[0];
    AllMountsHas(gs, i, lead);
    assert lead in multiset(all);
    forall m | m in all && m.path <= p ensures gs[i].path <= m.path {
      var j := InputMount(gs, all, m);
      PrefixesCompare(gs[i].path, gs[j].path, p);
    }
  }

  /** The result groups each mount of the input, once, under its shallowest ancestor in the
      input. */
  lemma GroupedUnderShallowest(gs: seq<Group>, all: seq<Mount>, i: nat, m: Mount)
    requires Grouped(gs, all) && DistinctPaths(all) && i < |gs|
    ensures multiset(gs[i].mounts)[m] == if Shallowest(all, gs[i].path, m.path) then multiset(all)[m] else 0
  {
    HoldsUnder(gs, i, m);
    if gs[i].path <= m.path { GroupPathIsShallowest(gs, all, i, m.path); }
  }

  /** Every mount has such a group. */
  lemma ShallowestHasGroup(gs: seq<Group>, all: seq<Mount>, m: Mount) returns (i: nat)
    requires Grouped(gs, all) && DistinctPaths(all) && m in all
    ensures i < |gs| && Shallowest(all, gs[i].path, m.path)
  {
    i := InputMount(gs, all, m);
    GroupPathIsShallowest(gs, all, i, m.path);
  }

  /** The partition does not depend on the order in which the set of mounts is iterated: two
      results for the same mounts have the same groups with the same members and leaders. */
  lemma OrderDoesNotMatter(gs: seq<Group>, all: seq<Mount>, hs: seq<Group>, all': seq<Mount>, i: nat) returns (j: nat)
    requires Grouped(gs, all) && Grouped(hs, all') && DistinctPaths(all) && DistinctPaths(all')
    requires multiset(all) == multiset(all') && i < |gs|
    ensures j < |hs| && hs[j].path == gs[i].path
    ensures multiset(hs[j].mounts) == multiset(gs[i].mounts) && hs[j].mounts[0] == gs[i].mounts[0]
  {
    assert GroupOk(gs[i]);
    var lead := gs[i].mounts[0];
    AllMountsHas(gs, i, lead);
    assert lead in multiset(all');
    j := InputMount(hs, all', lead);
    GroupPathIsShallowest(gs, all, i, lead.path);
    GroupPathIsShallowest(hs, all', j, lead.path);
    SameShallowest(all, all', gs[i].path, hs[j].path, lead.path);
    forall m ensures multiset(hs[j].mounts)[m] == multiset(gs[i].mounts)[m] {
      HoldsUnder(gs, i, m);
      HoldsUnder(hs, j, m);
    }
    assert GroupOk(hs[j]);
    SameLeader(all', hs, j, lead);
  }

  lemma SameShallowest(all: seq<Mount>, all': seq<Mount>, s: Path, t: Path, p: Path)
    requires multiset(all) == multiset(all') && Shallowest(all, s, p) && Shallowest(all', t, p)
    ensures s == t
  {
    var a :| a in all && a.path == s;
    var b :| b in all' && b.path == t;
    assert a in multiset(all') && b in multiset(all);
    assert t <= s && s <= t;
  }

  lemma SameLeader(all: seq<Mount>, gs: seq<Group>, j: nat, m: Mount)
    requires Grouped(gs, all) && DistinctPaths(all) && j < |gs| && m in all && m.path == gs[j].path
    ensures gs[j].mounts[0] == m
  {
    assert GroupOk(gs[j]);
    AllMountsHas(gs, j, gs[j].mounts[0]);
    assert gs[j].mounts[0] in multiset(all);
    OnePerPath(all, m, gs[j].mounts[0]);
  }

  lemma OnePerPath(all: seq<Mount>, a: Mount, b: Mount)
    requires DistinctPaths(all) && a in all && b in all && a.path == b.path
    ensures a == b
  {
    var i :| 0 <= i < |all| && all[i] == a;
    var j :| 0 <= j < |all| && all[j] == b;
  }

  // ----- file lookup

  /** Joining paths: an absolute second part replaces the first. */
  function Join(a: string, b: string): string {
    if b != [] && b[0] == '/' then b
    else if a == [] || a[|a| - 1] == '/' then a + b
    else a + "/" + b
  }

  function Prefixed(m: Mount, runDir: string): string
    requires m.path != []
  {
    if runDir != [] then Join(runDir, m.path[1..]) else m.path
  }

  function WritePath(m: Mount, filename: Path, runDir: string): string
    requires m.path != [] && m.path <= filename
  {
    Join(Prefixed(m, runDir), filename[|m.path|..])
  }

  function ReadPath(m: Mount, filename: Path): string
    requires m.path <= filename
  {
    Join(m.source, filename[|m.path|..])
  }

  /** Where the mount puts the file; for reading, the first of the two places that exists. */
  function Answer(m: Mount, filename: Path, toWrite: bool, runDir: string, existing: set<string>): Option<string>
    requires m.path != [] && m.path <= filename
  {
    var d, s := WritePath(m, filename, runDir), ReadPath(m, filename);
    if toWrite || d in existing then Some(d) else if s in existing then Some(s) else None
  }

  ghost predicate LongestIn(ms: multiset<Mount>, m: Mount, filename: Path) {
    && m in ms && m.path <= filename
    && forall x :: x in ms && x.path <= filename ==> |x.path| <= |m.path|
  }

  /** The first of the longest matching mounts of a list. */
  function Best(ms: seq<Mount>, filename: Path): (r: Option<Mount>)
    ensures r.Some? ==> LongestIn(multiset(ms), r.value, filename)
    ensures r.None? ==> forall m :: m in ms ==> !(m.path <= filename)
  {
    if ms == [] then None
    else
      var init, last := Best(ms[..|ms| - 1], filename), ms[|ms| - 1];
      assert ms == ms[..|ms| - 1] + [last];
      if last.path <= filename && (init.None? || |last.path| > |init.value.path|) then Some(last) else init
  }

  /** The mount of a group with the longest matching path; the leader always matches. */
  method BestMount(g: Group, filename: Path) returns (best: Mount)
    requires GroupOk(g) && g.path <= filename
    ensures Some(best) == Best(g.mounts, filename) && LongestIn(multiset(g.mounts), best, filename)
  {
    var found: Option<Mount> := None;
    var k := 0;
    while k < |g.mounts|
      invariant k <= |g.mounts| && found == Best(g.mounts[..k], filename)
    {
      var m := g.mounts[k];
      assert g.mounts[..k + 1][..k] == g.mounts[..k];
      if m.path <= filename {
        if found.None? { found := Some(m); }
        else if |m.path| > |found.value.path| { found := Some(m); }
      }
      k := k + 1;
    }
    assert g.mounts[..k] == g.mounts;
    assert g.mounts[0] in g.mounts;
    best := found.value;
  }

  ghost predicate PathsNotEmpty(gs: seq<Group>) { forall m :: m in AllMounts(gs) ==> m.path != [] }

  /** What a group answers, when it is above the file. */
  function GroupAnswer(g: Group, filename: Path, toWrite: bool, runDir: string, existing: set<string>): Option<string> {
    var best := Best(g.mounts, filename);
    if best.None? || best.value.path == [] then None else Answer(best.value, filename, toWrite, runDir, existing)
  }

  /** The first group above the file that answers. */
  function FirstAnswer(gs: seq<Group>, filename: Path, toWrite: bool, runDir: string, existing: set<string>)
    : Option<string>
  {
    if gs == [] then None
    else
      var a := if gs[0].path <= filename then GroupAnswer(gs[0], filename, toWrite, runDir, existing) else None;
      if a.Some? then a else FirstAnswer(gs[1..], filename, toWrite, runDir, existing)
  }

  /** Looking a file up stops at the first group that gives an answer. */
  method FileSourcePath(gs: seq<Group>, filename: Path, toWrite: bool, runDir: string, existing: set<string>)
    returns (r: Option<string>)
    requires GroupsOk(gs) && PathsNotEmpty(gs) && "" !in existing
    ensures r == FirstAnswer(gs, filename, toWrite, runDir, existing)
  {
    var k := 0;
    while k < |gs|
      invariant k <= |gs|
      invariant FirstAnswer(gs, filename, toWrite, runDir, existing) ==
                FirstAnswer(gs[k..], filename, toWrite, runDir, existing)
    {
      assert gs[k..][0] == gs[k] && gs[k..][1..] == gs[k + 1..];
      if gs[k].path <= filename {
        assert GroupOk(gs[k]);
        var best := BestMount(gs[k], filename);
        AllMountsHas(gs, k, best);
        var a := Answer(best, filename, toWrite, runDir, existing);
        AnswerNotEmpty(best, filename, toWrite, runDir, existing);
        if a.Some? && a.value != "" { return a; }
      }
      k := k + 1;
    }
    return None;
  }

  lemma AnswerNotEmpty(m: Mount, filename: Path, toWrite: bool, runDir: string, existing: set<string>)
    requires m.path != [] && m.path <= filename && "" !in existing
    ensures Answer(m, filename, toWrite, runDir, existing) != Some("")
  {
  }

  /** All mounts of non-empty paths, no two at the same one. */
  ghost predicate PlainMounts(ms: multiset<Mount>) {
    && (forall m :: m in ms ==> m.path != [])
    && (forall a, b :: a in ms && b in ms && a.path == b.path ==> a == b)
  }

  /** In groups that do not overlap, the mount used is the one with the longest matching path over all
      the groups, though the search stops at the first of them. */
  lemma LongestAnswers(gs: seq<Group>, filename: Path, toWrite: bool, runDir: string, existing: set<string>, m: Mount)
    requires GroupsOk(gs) && PrefixFree(gs) && PlainMounts(AllMounts(gs)) && LongestIn(AllMounts(gs), m, filename)
    ensures m.path != [] && FirstAnswer(gs, filename, toWrite, runDir, existing) ==
            Answer(m, filename, toWrite, runDir, existing)
  {
    var k := AllMountsWhere(gs, m);
    assert GroupOk(gs[k]);
    var best := Best(gs[k].mounts, filename);
    assert best.Some?;
    BestOverall(gs, k, best.value, filename);
    forall j | 0 <= j < |gs| && j != k ensures !(gs[j].path <= filename) {
      if gs[j].path <= filename { PrefixesCompare(gs[j].path, gs[k].path, filename); }
    }
    OnlyOneAnswers(gs, k, filename, toWrite, runDir, existing);
  }

  lemma {:induction false} OnlyOneAnswers(gs: seq<Group>, k: nat, filename: Path, toWrite: bool, runDir: string,
      existing: set<string>)
    requires k < |gs| && gs[k].path <= filename && forall j :: 0 <= j < |gs| && j != k ==> !(gs[j].path <= filename)
    ensures FirstAnswer(gs, filename, toWrite, runDir, existing) ==
            GroupAnswer(gs[k], filename, toWrite, runDir, existing)
    decreases gs
  {
    var rest := gs[1..];
    if k == 0 {
      forall j | 0 <= j < |rest| ensures !(rest[j].path <= filename) { assert rest[j] == gs[j + 1]; }
      NoneAnswers(rest, filename, toWrite, runDir, existing);
    } else {
      forall j | 0 <= j < |rest| && j != k - 1 ensures !(rest[j].path <= filename) { assert rest[j] == gs[j + 1]; }
      OnlyOneAnswers(rest, k - 1, filename, toWrite, runDir, existing);
    }
  }

  lemma {:induction false} NoneAnswers(gs: seq<Group>, filename: Path, toWrite: bool, runDir: string,
      existing: set<string>)
    requires forall j :: 0 <= j < |gs| ==> !(gs[j].path <= filename)
    ensures FirstAnswer(gs, filename, toWrite, runDir, existing).None?
    decreases gs
  {
    if gs != [] { NoneAnswers(gs[1..], filename, toWrite, runDir, existing); }
  }

  /** No mount above the file, no answer; in any groups. */
  lemma NoMountNoAnswer(gs: seq<Group>, filename: Path, toWrite: bool, runDir: string, existing: set<string>)
    requires GroupsOk(gs) && forall m :: m in AllMounts(gs) ==> !(m.path <= filename)
    ensures FirstAnswer(gs, filename, toWrite, runDir, existing).None?
  {
    forall j | 0 <= j < |gs| ensures !(gs[j].path <= filename) {
      assert GroupOk(gs[j]);
      AllMountsHas(gs, j, gs[j].mounts[0]);
    }
    NoneAnswers(gs, filename, toWrite, runDir, existing);
  }

  /** What the construction from distinct mounts gives is such groups. */
  lemma GroupedIsPlain(gs: seq<Group>, all: seq<Mount>)
    requires Grouped(gs, all) && DistinctPaths(all) && NormalMounts(all)
    ensures GroupsOk(gs) && PrefixFree(gs) && PlainMounts(AllMounts(gs))
  {
    forall m | m in AllMounts(gs) ensures m in all { assert m in multiset(all); }
    forall a, b | a in AllMounts(gs) && b in AllMounts(gs) && a.path == b.path ensures a == b { OnePerPath(all, a, b); }
  }

  // ----- sets without mounts

  function Listed(bound: seq<Mount>): (gs: seq<Group>)
    ensures |gs| == |bound|
  {
    seq(|bound|, i requires 0 <= i < |bound| => Group(bound[i].path, [bound[i]]))
  }

  /** Without mounts each bound directory is a group, in the order of the list. */
  lemma {:induction false} BoundAreListed(bound: seq<Mount>)
    requires DistinctPaths(bound)
    ensures BoundFold(bound) == Listed(bound)
    decreases bound
  {
    if bound != [] {
      var before, last := bound[..|bound| - 1], bound[|bound| - 1];
      BoundAreListed(before);
      NotListed(before, last, bound);
      assert Listed(bound) == Listed(before) + [Group(last.path, [last])];
    }
  }

  lemma NotListed(before: seq<Mount>, last: Mount, bound: seq<Mount>)
    requires bound == before + [last] && DistinctPaths(bound)
    ensures KeyIndex(Listed(before), last.path) == |before|
  {
    forall j | 0 <= j < |before| ensures Listed(before)[j].path != last.path {
      assert bound[j] == before[j] && bound[|before|] == last;
    }
  }

  /** The best mount of the group that matches is the best of all, and the only one. */
  lemma BestOverall(gs: seq<Group>, k: nat, best: Mount, filename: Path)
    requires GroupsOk(gs) && PrefixFree(gs) && PlainMounts(AllMounts(gs))
    requires k < |gs| && gs[k].path <= filename && LongestIn(multiset(gs[k].mounts), best, filename)
    ensures best.path != [] && LongestIn(AllMounts(gs), best, filename)
    ensures forall m :: LongestIn(AllMounts(gs), m, filename) ==> m == best
  {
    AllMountsHas(gs, k, best);
    forall x | x in AllMounts(gs) && x.path <= filename ensures |x.path| <= |best.path| {
      var j := AllMountsWhere(gs, x);
      assert GroupOk(gs[j]);
      PrefixesCompare(gs[j].path, gs[k].path, filename);
    }
    LongestIsUnique(AllMounts(gs), best, filename);
  }

  lemma LongestIsUnique(ms: multiset<Mount>, best: Mount, filename: Path)
    requires PlainMounts(ms) && LongestIn(ms, best, filename)
    ensures forall m :: LongestIn(ms, m, filename) ==> m == best
  {
    forall m | LongestIn(ms, m, filename) ensures m == best {
      assert m.path == filename[..|m.path|] && best.path == filename[..|best.path|];
    }
  }

  // ----- where files are written

  lemma JoinLength(a: string, b: string)
    requires a != [] && (b == [] || b[0] != '/')
    ensures Join(a, b) == (if a[|a| - 1] == '/' then a else a + "/") + b
  {
  }

  function WithSlash(d: string): (r: string)
    requires d != []
    ensures r != [] && r[|r| - 1] == '/'
  {
    if d[|d| - 1] == '/' then d else d + "/"
  }

  lemma UnderRunDir(p: Path, runDir: string)
    requires Normal(p) && runDir != []
    ensures Join(runDir, p[1..]) == WithSlash(runDir) + p[1..]
  {
    assert |p| > 1 ==> p[1] != '/';
    JoinLength(runDir, p[1..]);
  }

  lemma SuffixIsRelative(p: Path, filename: Path)
    requires Normal(filename) && p != [] && p <= filename && p[|p| - 1] == '/'
    ensures var suf := filename[|p|..]; (suf == [] || suf[0] != '/') && filename[1..] == p[1..] + suf
  {
    var suf := filename[|p|..];
    if suf != [] { assert suf[0] == filename[|p|] && filename[|p| - 1] == '/'; }
  }

  lemma DirectoryWrite(m: Mount, filename: Path, runDir: string)
    requires Normal(m.path) && Normal(filename) && m.path <= filename && runDir != []
    requires m.path[|m.path| - 1] == '/'
    ensures WritePath(m, filename, runDir) == Join(runDir, filename[1..])
  {
    var p, suf, d := m.path, filename[|m.path|..], WithSlash(runDir);
    UnderRunDir(p, runDir);
    UnderRunDir(filename, runDir);
    SuffixIsRelative(p, filename);
    JoinParts(d, p[1..], suf);
  }

  lemma JoinParts(d: string, a: string, suf: string)
    requires d != [] && d[|d| - 1] == '/' && (a == [] || a[|a| - 1] == '/') && (suf == [] || suf[0] != '/')
    ensures Join(d + a, suf) == d + (a + suf)
  {
    assert (d + a)[|d + a| - 1] == '/';
    assert (d + a) + suf == d + (a + suf);
  }

  lemma FileWrite(m: Mount, filename: Path, runDir: string)
    requires Normal(m.path) && Normal(filename) && m.path <= filename && runDir != []
    requires m.path[|m.path| - 1] != '/'
    ensures |WritePath(m, filename, runDir)| != |Join(runDir, filename[1..])|
  {
    var p, suf := m.path, filename[|m.path|..];
    UnderRunDir(p, runDir);
    UnderRunDir(filename, runDir);
    var base := WithSlash(runDir) + p[1..];
    assert base[|base| - 1] == p[|p| - 1];
    if suf == [] || suf[0] != '/' { JoinLength(base, suf); }
  }

  /** A file is written in the run directory under its own name, if and only if the mount that
      serves it is a directory. For a file mount a slash is put after the name, or the directory
      is lost. */
  lemma WrittenUnderRunDir(m: Mount, filename: Path, runDir: string)
    requires Normal(m.path) && Normal(filename) && m.path <= filename && runDir != []
    ensures WritePath(m, filename, runDir) == Join(runDir, filename[1..]) <==> m.path[|m.path| - 1] == '/'
  {
    if m.path[|m.path| - 1] == '/' { DirectoryWrite(m, filename, runDir); }
    else { FileWrite(m, filename, runDir); }
  }
}
