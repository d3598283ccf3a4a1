/** File lookup in a set of bound directories without mounts (`nsbubble/mountpoint.py`): directories
    that lie in each other are not merged. */
module BoundLookup {
  import opened Wrappers
  import opened MountPoint
  import opened MountMerge
  import opened MountSet
  import opened MountLookup

  /** A directory: its path and its source end with a slash. */
  predicate IsDirMount(m: Mount) {
    Normal(m.path) && m.path[|m.path| - 1] == '/' && m.source != [] && m.source[|m.source| - 1] == '/'
  }

  predicate DirMounts(ms: seq<Mount>) { forall i :: 0 <= i < |ms| ==> IsDirMount(ms[i]) }

  // ----- what a directory answers

  function RunRoot(runDir: string): string { if runDir == [] then "/" else WithSlash(runDir) }

  /** The place of a file in the run directory. */
  function RunCopy(runDir: string, p: Path): string
    requires p != []
  {
    RunRoot(runDir) + p[1..]
  }

  function SourceOf(m: Mount, filename: Path): string
    requires m.path <= filename
  {
    m.source + filename[|m.path|..]
  }

  lemma DirAnswer(m: Mount, filename: Path, toWrite: bool, runDir: string, existing: set<string>)
    requires IsDirMount(m) && Normal(filename) && m.path <= filename
    ensures Answer(m, filename, toWrite, runDir, existing) ==
            if toWrite || RunCopy(runDir, filename) in existing then Some(RunCopy(runDir, filename))
            else if SourceOf(m, filename) in existing then Some(SourceOf(m, filename)) else None
  {
    var suf := filename[|m.path|..];
    SuffixIsRelative(m.path, filename);
    assert ReadPath(m, filename) == SourceOf(m, filename);
    if runDir == [] {
      assert WritePath(m, filename, runDir) == m.path + suf == filename;
      assert "/" + filename[1..] == filename;
    } else {
      DirectoryWrite(m, filename, runDir);
      UnderRunDir(filename, runDir);
    }
  }

  // ----- the first directory that answers

  function FirstOf(ms: seq<Mount>, filename: Path, toWrite: bool, runDir: string, existing: set<string>): Option<string>
    requires DirMounts(ms)
  {
    if ms == [] then None
    else
      assert IsDirMount(ms[0]);
      var a := if ms[0].path <= filename then Answer(ms[0], filename, toWrite, runDir, existing) else None;
      if a.Some? then a else FirstOf(ms[1..], filename, toWrite, runDir, existing)
  }

  lemma {:induction false} ListedAnswers(ms: seq<Mount>, filename: Path, toWrite: bool, runDir: string,
      existing: set<string>)
    requires DirMounts(ms)
    ensures FirstAnswer(Listed(ms), filename, toWrite, runDir, existing) ==
            FirstOf(ms, filename, toWrite, runDir, existing)
    decreases ms
  {
    if ms != [] {
      var m := ms[0];
      assert IsDirMount(m);
      assert Listed(ms)[0].mounts == [m] && [m][..0] == [];
      assert m.path <= filename ==> Best([m], filename) == Some(m);
      assert Listed(ms)[1..] == Listed(ms[1..]);
      ListedAnswers(ms[1..], filename, toWrite, runDir, existing);
    }
  }

  /** When everything above the file answers the same or nothing, that is the answer. */
  lemma {:induction false} FirstOfAgrees(ms: seq<Mount>, filename: Path, toWrite: bool, runDir: string,
      existing: set<string>, a: Option<string>)
    requires DirMounts(ms)
    requires forall i :: 0 <= i < |ms| && ms[i].path <= filename ==>
               IsDirMount(ms[i]) && (Answer(ms[i], filename, toWrite, runDir, existing) == a
                                     || Answer(ms[i], filename, toWrite, runDir, existing) == None)
    ensures var r := FirstOf(ms, filename, toWrite, runDir, existing);
            && (r == a || r == None)
            && (forall i :: 0 <= i < |ms| && ms[i].path <= filename ==>
                  IsDirMount(ms[i]) && (Answer(ms[i], filename, toWrite, runDir, existing).Some? ==> r.Some?))
    decreases ms
  {
    if ms != [] {
      assert IsDirMount(ms[0]);
      var rest := ms[1..];
      forall i | 0 <= i < |rest| ensures rest[i] == ms[i + 1] {}
      FirstOfAgrees(rest, filename, toWrite, runDir, existing, a);
      forall i | 0 <= i < |ms| && ms[i].path <= filename && Answer(ms[i], filename, toWrite, runDir, existing).Some?
        ensures FirstOf(ms, filename, toWrite, runDir, existing).Some?
      {
        if i > 0 { assert rest[i - 1] == ms[i]; }
      }
    }
  }

  lemma {:induction false} FirstOfSome(ms: seq<Mount>, k: nat, filename: Path, toWrite: bool, runDir: string,
      existing: set<string>)
    requires DirMounts(ms) && k < |ms| && ms[k].path <= filename && IsDirMount(ms[k])
    requires Answer(ms[k], filename, toWrite, runDir, existing).Some?
    ensures FirstOf(ms, filename, toWrite, runDir, existing).Some?
    decreases ms
  {
    if k > 0 { FirstOfSome(ms[1..], k - 1, filename, toWrite, runDir, existing); }
  }

  // ----- exactly when the longest directory is the one used

  /** The lookup answers for the longest directory above the file: every normal file, reading or
      writing, whatever files exist. */
  ghost predicate LongestServes(bound: seq<Mount>, runDir: string)
    requires DirMounts(bound)
  {
    forall k, filename, toWrite, existing ::
      IsLongest(bound, k, filename) ==> Serves(bound, k, filename, toWrite, runDir, existing)
  }

  predicate IsLongest(bound: seq<Mount>, k: int, filename: Path) {
    && 0 <= k < |bound| && Normal(filename) && bound[k].path <= filename
    && forall i :: 0 <= i < |bound| && bound[i].path <= filename ==> |bound[i].path| <= |bound[k].path|
  }

  predicate Serves(bound: seq<Mount>, k: int, filename: Path, toWrite: bool, runDir: string, existing: set<string>)
    requires DirMounts(bound) && 0 <= k < |bound| && bound[k].path <= filename
  {
    assert IsDirMount(bound[k]);
    FirstAnswer(BoundFold(bound), filename, toWrite, runDir, existing) ==
      Answer(bound[k], filename, toWrite, runDir, existing)
  }

  /** The outer directory's source holds the inner one's at the same place, or the outer directory
      is bound from its own place in the run directory. */
  predicate Consistent(outer: Mount, inner: Mount, runDir: string)
    requires outer.path != [] && outer.path <= inner.path
  {
    inner.source == SourceOf(outer, inner.path) || outer.source == RunCopy(runDir, outer.path)
  }

  ghost predicate AllConsistent(bound: seq<Mount>, runDir: string)
    requires DirMounts(bound)
  {
    forall i, j :: 0 <= i < |bound| && 0 <= j < |bound| && bound[i].path < bound[j].path ==>
      bound[i].path != [] && Consistent(bound[i], bound[j], runDir)
  }

  lemma SourcesAgree(outer: Mount, inner: Mount, filename: Path)
    requires outer.path <= inner.path <= filename
    ensures SourceOf(outer, filename) == SourceOf(outer, inner.path) + filename[|inner.path|..]
  {
    assert filename[|outer.path|..] == inner.path[|outer.path|..] + filename[|inner.path|..];
  }

  lemma CopyAgrees(m: Mount, filename: Path, runDir: string)
    requires m.path != [] && m.path <= filename
    ensures SourceOf(m, filename) == RunCopy(runDir, filename) <==> m.source == RunCopy(runDir, m.path)
  {
    var suf := filename[|m.path|..];
    assert filename[1..] == m.path[1..] + suf;
    assert RunCopy(runDir, filename) == RunCopy(runDir, m.path) + suf;
    SameFront(m.source, RunCopy(runDir, m.path), suf);
  }

  lemma SameFront(a: string, b: string, suf: string)
    ensures a + suf == b + suf <==> a == b
  {
    if a + suf == b + suf {
      assert |a| == |b|;
      assert a == (a + suf)[..|a|] && b == (b + suf)[..|b|];
    }
  }

  lemma ConsistentAnswers(outer: Mount, inner: Mount, filename: Path, toWrite: bool, runDir: string,
      existing: set<string>)
    requires IsDirMount(outer) && IsDirMount(inner) && Normal(filename) && outer.path <= inner.path <= filename
    requires Consistent(outer, inner, runDir)
    ensures var a := Answer(outer, filename, toWrite, runDir, existing);
            a == Answer(inner, filename, toWrite, runDir, existing) || a == None
  {
    DirAnswer(outer, filename, toWrite, runDir, existing);
    DirAnswer(inner, filename, toWrite, runDir, existing);
    SourcesAgree(outer, inner, filename);
    CopyAgrees(outer, filename, runDir);
  }

  lemma ServedWhenConsistent(bound: seq<Mount>, k: nat, filename: Path, toWrite: bool, runDir: string,
      existing: set<string>)
    requires DirMounts(bound) && DistinctPaths(bound) && AllConsistent(bound, runDir) && IsLongest(bound, k, filename)
    ensures Serves(bound, k, filename, toWrite, runDir, existing)
  {
    assert IsDirMount(bound[k]);
    var a := Answer(bound[k], filename, toWrite, runDir, existing);
    forall i | 0 <= i < |bound| && bound[i].path <= filename
      ensures IsDirMount(bound[i])
      ensures Answer(bound[i], filename, toWrite, runDir, existing) == a ||
              Answer(bound[i], filename, toWrite, runDir, existing) == None
    {
      assert IsDirMount(bound[i]);
      if i != k {
        PrefixesCompare(bound[i].path, bound[k].path, filename);
        assert bound[i].path != bound[k].path;
        ConsistentAnswers(bound[i], bound[k], filename, toWrite, runDir, existing);
      }
    }
    FirstOfAgrees(bound, filename, toWrite, runDir, existing, a);
    ListedAnswers(bound, filename, toWrite, runDir, existing);
    BoundAreListed(bound);
  }

  /** For an inconsistent pair, the inner directory itself, when only the outer one's copy exists. */
  lemma InconsistentIsNotServed(bound: seq<Mount>, i: nat, j: nat, runDir: string)
    requires DirMounts(bound) && DistinctPaths(bound) && i < |bound| && j < |bound|
    requires bound[i].path != [] && bound[i].path < bound[j].path && !Consistent(bound[i], bound[j], runDir)
    ensures IsLongest(bound, j, bound[j].path)
    ensures !Serves(bound, j, bound[j].path, false, runDir, {SourceOf(bound[i], bound[j].path)})
  {
    var outer, inner, file := bound[i], bound[j], bound[j].path;
    assert IsDirMount(outer) && IsDirMount(inner);
    var existing := {SourceOf(outer, file)};
    DirAnswer(outer, file, false, runDir, existing);
    DirAnswer(inner, file, false, runDir, existing);
    CopyAgrees(outer, file, runDir);
    assert inner.source + [] == inner.source && SourceOf(inner, file) == inner.source;
    FirstOfSome(bound, i, file, false, runDir, existing);
    ListedAnswers(bound, file, false, runDir, existing);
    BoundAreListed(bound);
  }

  /** In a set of distinct bound directories the lookup answers for the longest directory above the
      file, whatever the order of the list, if and only if all directories in each other are
      consistent. */
  lemma LongestServesIff(bound: seq<Mount>, runDir: string)
    requires DirMounts(bound) && DistinctPaths(bound)
    ensures LongestServes(bound, runDir) <==> AllConsistent(bound, runDir)
  {
    if AllConsistent(bound, runDir) {
      forall k, filename, toWrite, existing | IsLongest(bound, k, filename)
        ensures Serves(bound, k, filename, toWrite, runDir, existing)
      {
        ServedWhenConsistent(bound, k, filename, toWrite, runDir, existing);
      }
    } else {
      NotAllServed(bound, runDir);
    }
  }

  lemma NotAllServed(bound: seq<Mount>, runDir: string)
    requires DirMounts(bound) && DistinctPaths(bound) && !AllConsistent(bound, runDir)
    ensures !LongestServes(bound, runDir)
  {
    forall i | 0 <= i < |bound| ensures bound[i].path != [] { assert IsDirMount(bound[i]); }
    var i, j :| 0 <= i < |bound| && 0 <= j < |bound| && bound[i].path < bound[j].path
                && !Consistent(bound[i], bound[j], runDir);
    InconsistentIsNotServed(bound, i, j, runDir);
  }

  /** Directories bound from their own place are consistent, so the promise holds for them. */
  lemma OwnPlaceServes(bound: seq<Mount>, runDir: string)
    requires DirMounts(bound) && DistinctPaths(bound)
    requires forall i :: 0 <= i < |bound| ==> bound[i].source == bound[i].path
    ensures LongestServes(bound, runDir)
  {
    forall i, j | 0 <= i < |bound| && 0 <= j < |bound| && bound[i].path < bound[j].path
      ensures bound[i].path != [] && Consistent(bound[i], bound[j], runDir)
    {
      assert IsDirMount(bound[i]);
      assert bound[j].path == bound[i].path + bound[j].path[|bound[i].path|..];
    }
    LongestServesIff(bound, runDir);
  }

  lemma PairOfDirs(a: Mount, b: Mount)
    requires IsDirMount(a) && IsDirMount(b)
    ensures DirMounts([a, b])
  {
  }

  /** Two nested directories that do not agree, in either order. */
  lemma PairNotServed(a: Mount, b: Mount, runDir: string)
    requires IsDirMount(a) && IsDirMount(b) && a.path < b.path && !Consistent(a, b, runDir)
    ensures DirMounts([a, b]) && DirMounts([b, a])
    ensures !LongestServes([a, b], runDir) && !LongestServes([b, a], runDir)
  {
    PairOfDirs(a, b);
    PairOfDirs(b, a);
    assert [a, b][0].path < [a, b][1].path;
    LongestServesIff([a, b], runDir);
    assert [b, a][1].path < [b, a][0].path;
    LongestServesIff([b, a], runDir);
  }

  lemma LinkedAreDirs(a: Mount, b: Mount)
    requires a.path == "/a/" && a.source == "/a/" && b.path == "/a/b/" && b.source == "/c/"
    ensures IsDirMount(a) && IsDirMount(b) && a.path < b.path
  {
  }

  lemma LinkedDisagree(a: Mount, b: Mount, runDir: string)
    requires a.path == "/a/" && a.source == "/a/" && b.path == "/a/b/" && b.source == "/c/" && runDir == "/run/"
    ensures a.path < b.path && !Consistent(a, b, runDir)
  {
    assert "/a/b/"[3..] == "b/" && "/a/" + "b/" == "/a/b/";
    assert SourceOf(a, b.path) == "/a/b/" != b.source by { assert "/a/b/"[1] != "/c/"[1]; }
    assert a.source != RunCopy(runDir, a.path) by { assert |RunCopy(runDir, a.path)| > 3; }
  }

  /** A directory `/a/b/` that is a link to `/c/`, bound beside `/a/`: a file in it is looked up
      under `/a/`, also when `/a/b/` is listed first and the file is not in `/c/`. */
  lemma LinkedDirectory(a: Mount, b: Mount, runDir: string)
    requires a.path == "/a/" && a.source == "/a/" && b.path == "/a/b/" && b.source == "/c/" && runDir == "/run/"
    ensures DirMounts([a, b]) && DirMounts([b, a])
    ensures !LongestServes([a, b], runDir) && !LongestServes([b, a], runDir)
  {
    LinkedAreDirs(a, b);
    LinkedDisagree(a, b, runDir);
    PairNotServed(a, b, runDir);
  }
}
