/** Second phase of the grouping (`nsbubble/mountpoint.py`): keep the top groups and merge every
    other group into the one above it, found by walking up the parent directories. */
module MountMerge {
  import opened Wrappers
  import opened MountPoint

  // ----- text order of paths

  predicate LexLe(a: Path, b: Path) {
    a == [] || (b != [] && (a[0] < b[0] || (a[0] == b[0] && LexLe(a[1..], b[1..]))))
  }

  lemma {:induction false} LexTotal(a: Path, b: Path)
    ensures LexLe(a, b) || LexLe(b, a)
    ensures LexLe(a, b) && LexLe(b, a) ==> a == b
    decreases a
  {
    if a != [] && b != [] && a[0] == b[0] {
      LexTotal(a[1..], b[1..]);
      assert a == [a[0]] + a[1..] && b == [b[0]] + b[1..];
    }
  }

  lemma {:induction false} LexTransitive(a: Path, b: Path, c: Path)
    requires LexLe(a, b) && LexLe(b, c)
    ensures LexLe(a, c)
    decreases a
  {
    if a != [] && a[0] == b[0] == c[0] { LexTransitive(a[1..], b[1..], c[1..]); }
  }

  lemma {:induction false} PrefixIsBefore(a: Path, b: Path)
    requires a <= b
    ensures LexLe(a, b)
    decreases a
  {
    if a != [] { PrefixIsBefore(a[1..], b[1..]); }
  }

  ghost predicate Sorted(ps: seq<Path>) { forall i, j :: 0 <= i < j < |ps| ==> LexLe(ps[i], ps[j]) }

  function Insert(p: Path, ps: seq<Path>): (r: seq<Path>)
    requires Sorted(ps)
    ensures Sorted(r) && multiset(r) == multiset(ps) + multiset{p}
  {
    if ps == [] then [p]
    else if LexLe(p, ps[0]) then
      assert forall j :: 0 <= j < |ps| ==> LexLe(p, ps[j]) by {
        forall j | 0 <= j < |ps| ensures LexLe(p, ps[j]) { if j > 0 { LexTransitive(p, ps[0], ps[j]); } }
      }
      [p] + ps
    else
      var r := Insert(p, ps[1..]);
      assert ps == [ps[0]] + ps[1..];
      assert forall q <- r :: LexLe(ps[0], q) by {
        forall q | q in r ensures LexLe(ps[0], q) {
          assert q in multiset(r);
          if q == p { LexTotal(p, ps[0]); }
          else {
            assert q in ps[1..];
            var j :| 0 <= j < |ps[1..]| && ps[1..][j] == q;
            assert ps[j + 1] == q;
          }
        }
      }
      [ps[0]] + r
  }

  function Sort(ps: seq<Path>): (r: seq<Path>)
    ensures Sorted(r) && multiset(r) == multiset(ps)
  {
    if ps == [] then []
    else
      assert ps == [ps[0]] + ps[1..];
      Insert(ps[0], Sort(ps[1..]))
  }

  // ----- top paths

  function KeySet(ps: seq<Path>): set<Path> { set q | q in ps }

  /** No other key is a prefix of it. */
  ghost predicate IsTop(keys: set<Path>, p: Path) {
    p in keys && forall q :: q in keys && q <= p ==> q == p
  }

  /** Every key has a top key that is a prefix of it. */
  lemma {:induction false} TopAbove(keys: set<Path>, p: Path) returns (t: Path)
    requires p in keys
    ensures IsTop(keys, t) && t <= p
    decreases |p|
  {
    if IsTop(keys, p) { return p; }
    var q :| q in keys && q <= p && q != p;
    t := TopAbove(keys, q);
  }

  lemma PrefixesCompare(a: Path, b: Path, p: Path)
    requires a <= p && b <= p
    ensures a <= b || b <= a
  {
    assert a == p[..|a|] && b == p[..|b|];
  }

  /** One path against the top paths so far, in any order. */
  method Classify(tops: set<Path>, path: Path) returns (handled: bool, r: set<Path>)
    requires forall e <- tops :: !(path <= e)
    ensures handled <==> exists e :: e in tops && e <= path
    ensures r == tops
  {
    handled, r := false, tops;
    var rest := tops;
    while rest != {} && !handled
      invariant rest <= tops && r == tops
      invariant handled ==> exists e :: e in tops && e <= path
      invariant !handled ==> forall e :: e in tops && e !in rest ==> !(e <= path)
      decreases rest, !handled
    {
      var e :| e in rest;
      rest := rest - {e};
      if path <= e {
        r := r - {e} + {path};
        handled := true;
      } else if e <= path {
        handled := true;
      }
    }
  }

  ghost predicate TopsOf(tops: set<Path>, keys: set<Path>, seen: seq<Path>) {
    forall p :: p in tops <==> p in seen && IsTop(keys, p)
  }

  method TopPaths(paths: seq<Path>) returns (tops: set<Path>)
    requires forall i, j :: 0 <= i < j < |paths| ==> paths[i] != paths[j]
    ensures forall p :: p in tops <==> IsTop(KeySet(paths), p)
  {
    ghost var keys := KeySet(paths);
    var ks := Sort(paths);
    SortedKeys(paths, ks);
    tops := {};
    var n := 0;
    while n < |ks|
      invariant n <= |ks| && TopsOf(tops, keys, ks[..n])
    {
      var path := ks[n];
      NextTop(keys, ks, n, tops);
      var handled, r := Classify(tops, path);
      tops := r;
      if !handled { tops := tops + {path}; }
      assert ks[..n + 1] == ks[..n] + [path];
      n := n + 1;
    }
    assert ks[..n] == ks;
  }

  lemma SortedKeys(paths: seq<Path>, ks: seq<Path>)
    requires forall i, j :: 0 <= i < j < |paths| ==> paths[i] != paths[j]
    requires multiset(ks) == multiset(paths)
    ensures forall p :: p in ks <==> p in paths
    ensures forall i, j :: 0 <= i < j < |ks| ==> ks[i] != ks[j]
  {
    forall p ensures p in ks <==> p in paths {
      assert p in ks <==> p in multiset(ks);
      assert p in paths <==> p in multiset(paths);
    }
    forall i, j | 0 <= i < j < |ks| ensures ks[i] != ks[j] {
      OnceEach(paths, ks[i]);
      if ks[i] == ks[j] { TwiceEach(ks, i, j); }
    }
  }

  lemma {:induction false} OnceEach(ps: seq<Path>, p: Path)
    requires forall i, j :: 0 <= i < j < |ps| ==> ps[i] != ps[j]
    ensures multiset(ps)[p] <= 1
  {
    if ps != [] {
      assert ps == [ps[0]] + ps[1..];
      OnceEach(ps[1..], p);
      if p == ps[0] {
        assert p !in ps[1..];
        assert multiset(ps[1..])[p] == 0;
      }
    }
  }

  lemma TwiceEach(ps: seq<Path>, i: nat, j: nat)
    requires i < j < |ps| && ps[i] == ps[j]
    ensures multiset(ps)[ps[i]] >= 2
  {
    assert ps == ps[..j] + ps[j..];
    assert ps[..j][i] == ps[i] && ps[j..][0] == ps[i];
    assert ps[i] in multiset(ps[..j]) && ps[i] in multiset(ps[j..]);
  }

  /** In sorted order a path is a top exactly when no top seen so far is a prefix of it. */
  lemma NextTop(keys: set<Path>, ks: seq<Path>, n: nat, tops: set<Path>)
    requires n < |ks| && Sorted(ks) && TopsOf(tops, keys, ks[..n])
    requires forall p :: p in ks <==> p in keys
    requires forall i, j :: 0 <= i < j < |ks| ==> ks[i] != ks[j]
    ensures forall e <- tops :: !(ks[n] <= e)
    ensures IsTop(keys, ks[n]) <==> !exists e :: e in tops && e <= ks[n]
  {
    var path := ks[n];
    forall e | e in tops ensures !(path <= e) && e != path {
      var i :| 0 <= i < n && ks[i] == e;
      if path <= e {
        PrefixIsBefore(path, e);
        LexTotal(path, e);
        assert false;
      }
    }
    assert path in ks;
    var t := TopAbove(keys, path);
    if t != path {
      var i :| 0 <= i < |ks| && ks[i] == t;
      PrefixIsBefore(t, path);
      if n < i { LexTotal(t, path); }
      assert t in ks[..n];
      assert t in tops;
    }
  }

  // ----- parent directories

  /** Index of the last slash plus one; 0 without any. */
  function AfterLastSlash(p: Path): (k: nat)
    ensures k <= |p|
    ensures k > 0 ==> p[k - 1] == '/'
    ensures forall j :: k <= j < |p| ==> p[j] != '/'
  {
    if p == [] then 0
    else if p[|p| - 1] == '/' then |p|
    else AfterLastSlash(p[..|p| - 1])
  }

  function StripSlashes(p: Path): Path {
    if p != [] && p[|p| - 1] == '/' then StripSlashes(p[..|p| - 1]) else p
  }

  predicate AllSlashes(p: Path) { forall c <- p :: c == '/' }

  /** Text before the last slash, without trailing slashes unless that is all there is. */
  function Dirname(p: Path): Path {
    var head := p[..AfterLastSlash(p)];
    if AllSlashes(head) then head else StripSlashes(head)
  }

  /** Absolute, and no empty component. */
  predicate Normal(p: Path) {
    p != [] && p[0] == '/' && forall i :: 0 <= i < |p| - 1 ==> !(p[i] == '/' && p[i + 1] == '/')
  }

  lemma StripOne(p: Path)
    requires p != [] && p[|p| - 1] == '/' && (|p| >= 2 ==> p[|p| - 2] != '/')
    ensures StripSlashes(p) == p[..|p| - 1]
  {
    var q := p[..|p| - 1];
    assert q != [] ==> q[|q| - 1] != '/';
  }

  lemma DirnameValue(p: Path)
    requires Normal(p)
    ensures var k := AfterLastSlash(p);
            && k > 0 && (k > 1 ==> p[k - 2] != '/')
            && Dirname(p) == if k == 1 then "/" else p[..k - 1]
  {
    var k := AfterLastSlash(p);
    var head := p[..k];
    if k == 1 {
      assert head == "/";
    } else {
      assert head[k - 2] in head;
      StripOne(head);
      assert head[..k - 1] == p[..k - 1];
    }
  }

  /** The parent of a normal path: a shorter normal path, such that any directory the path is
      under is the parent or above it. */
  lemma DirnameIsParent(p: Path)
    requires Normal(p) && p != "/"
    ensures var d := Dirname(p);
            && Normal(d) && |d| < |p|
            && (d != "/" ==> d + "/" <= p && d[|d| - 1] != '/')
            && forall q: Path :: q != [] && q + "/" <= p && q != d ==> q + "/" <= d
  {
    DirnameValue(p);
    var k, d := AfterLastSlash(p), Dirname(p);
    if k > 1 {
      assert d + "/" == p[..k];
    }
    forall q: Path | q != [] && q + "/" <= p && q != d ensures q + "/" <= d {
      SlashAfter(q, p);
      assert q + "/" == p[..|q| + 1];
    }
  }

  lemma SlashAfter(q: Path, p: Path)
    requires q + "/" <= p
    ensures |q| < |p| && p[|q|] == '/' && q == p[..|q|]
  {
    assert (q + "/")[|q|] == '/';
  }

  /** No group path is a prefix of another. */
  ghost predicate PrefixFree(gs: seq<Group>) {
    forall i, j :: 0 <= i < |gs| && 0 <= j < |gs| && gs[i].path <= gs[j].path ==> i == j
  }

  /** A directory path other than the root. */
  predicate IsDirectory(p: Path) { |p| >= 2 && p[|p| - 1] == '/' }

  /** Walk up the parents until a group is found; the root ends the search. */
  method ParentGroup(gs: seq<Group>, path: Path) returns (r: Option<nat>)
    requires Normal(path) && path != "/"
    ensures r.Some? ==> r.value < |gs| && gs[r.value].path <= path && IsDirectory(gs[r.value].path)
    ensures forall q: Path :: q != [] && q + "/" < path && HasKey(gs, q + "/") ==> r.Some?
  {
    DirnameIsParent(path);
    var tdir := Dirname(path);
    while tdir != "/"
      invariant Normal(tdir) && (tdir != "/" ==> tdir + "/" <= path)
      invariant forall q: Path :: q != [] && q + "/" < path && HasKey(gs, q + "/") ==> q == tdir || q + "/" <= tdir
      decreases |tdir|
    {
      var k := KeyIndex(gs, tdir + "/");
      if k < |gs| { return Some(k); }
      DirnameIsParent(tdir);
      tdir := Dirname(tdir);
    }
    forall q: Path | q + "/" <= path { SlashAfter(q, path); }
    return None;
  }
}
