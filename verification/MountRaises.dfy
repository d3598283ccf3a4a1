/** Exactly which inputs make the grouping of mounts raise in some order of the mounts, and which in
    every order (`nsbubble/mountpoint.py`). */
module MountRaises {
  import opened Wrappers
  import opened MountPoint
  import opened MountMerge
  import opened MountSet
  import opened MountOrder

  /** An order of the set of mounts. */
  ghost predicate OrderOf(order: seq<Mount>, mounts: seq<Mount>) { multiset(order) == multiset(mounts) }

  lemma {:induction false} TwiceAt(ms: seq<Mount>, m: Mount) returns (i: nat, j: nat)
    requires multiset(ms)[m] >= 2
    ensures i < j < |ms| && ms[i] == m && ms[j] == m
    decreases ms
  {
    var rest := ms[1..];
    assert ms == [ms[0]] + rest;
    if ms[0] == m {
      assert m in rest;
      j :| 0 <= j < |rest| && rest[j] == m;
      i, j := 0, j + 1;
    } else {
      i, j := TwiceAt(rest, m);
      i, j := i + 1, j + 1;
    }
  }

  lemma CountTwo(ms: seq<Mount>, i: nat, j: nat)
    requires i < j < |ms| && ms[i] == ms[j]
    ensures multiset(ms)[ms[i]] >= 2
  {
    assert ms == ms[..j] + ms[j..];
    assert ms[i] in ms[..j] && ms[j] in ms[j..];
  }

  lemma DistinctInAnyOrder(a: seq<Mount>, b: seq<Mount>)
    requires DistinctPaths(a) && multiset(a) == multiset(b)
    ensures DistinctPaths(b)
  {
    forall i, j | 0 <= i < j < |b| ensures b[i].path != b[j].path {
      if b[i] == b[j] {
        CountTwo(b, i, j);
        var x, y := TwiceAt(a, b[i]);
      } else {
        assert b[i] in multiset(a) && b[j] in multiset(a);
        var x :| 0 <= x < |a| && a[x] == b[i];
        var y :| 0 <= y < |a| && a[y] == b[j];
      }
    }
  }

  lemma OrderKeeps(bound: seq<Mount>, mounts: seq<Mount>, order: seq<Mount>)
    requires DistinctPaths(bound + mounts) && OrderOf(order, mounts)
    ensures DistinctPaths(bound + order)
    ensures PathSet(bound + order) == PathSet(bound + mounts) && PathSet(order) == PathSet(mounts)
  {
    assert multiset(bound + order) == multiset(bound + mounts);
    DistinctInAnyOrder(bound + mounts, bound + order);
    SamePaths(bound + order, bound + mounts);
    SamePaths(order, mounts);
  }

  lemma SamePaths(a: seq<Mount>, b: seq<Mount>)
    requires multiset(a) == multiset(b)
    ensures PathSet(a) == PathSet(b)
  {
    forall m ensures m in a <==> m in b { assert m in multiset(a) <==> m in multiset(b); }
  }

  lemma PathsOfBoth(a: seq<Mount>, b: seq<Mount>)
    ensures PathSet(a + b) == PathSet(a) + PathSet(b)
  {
    forall p ensures p in PathSet(a + b) <==> p in PathSet(a) + PathSet(b) {
      if p in PathSet(a) { var m :| m in a && m.path == p; assert m in a + b; }
      if p in PathSet(b) { var m :| m in b && m.path == p; assert m in a + b; }
    }
  }

  // ----- the inputs

  /** What a top that is no directory needs for some group to be left below it: for a bound directory,
      another one below it; for a mount, two things below it that do not end up in one group before
      the mount comes (two bound directories, a bound directory and a mount beside it, or without
      bound directories two mounts beside each other). */
  ghost predicate MaySplit(bp: set<Path>, mp: set<Path>, t: Path) {
    if t in bp then Below(bp, t) != {}
    else
      || TwoIn(Below(bp, t))
      || (exists x, y :: x in Below(bp, t) && y in Below(mp, t) && !Comparable(x, y))
      || (Below(bp, t) == {} && exists x, y :: x in Below(mp, t) && y in Below(mp, t) && !Comparable(x, y))
  }

  /** The root, or a top path that is not a directory. */
  ghost predicate BadTop(all: set<Path>, t: Path) { IsTop(all, t) && !IsDirectory(t) }

  // ----- without such a pair nothing is left below

  /** Paths that groups below the top can have. */
  ghost predicate Tame(bp: set<Path>, mp: set<Path>, t: Path, q: Path) {
    t < q && if Below(bp, t) == {} then q in mp else exists b :: b in Below(bp, t) && q <= b
  }

  lemma TameCompares(bp: set<Path>, mp: set<Path>, t: Path, q: Path, p: Path)
    requires t !in bp && !MaySplit(bp, mp, t) && Tame(bp, mp, t, q) && p in Below(mp, t)
    ensures Comparable(p, q)
    ensures p < q ==> Tame(bp, mp, t, p)
  {
    if Below(bp, t) == {} {
      assert q in Below(mp, t);
    } else {
      var b :| b in Below(bp, t) && q <= b;
      assert Comparable(b, p);
      if p <= b { PrefixesCompare(p, q, b); }
    }
  }

  /** Before the top comes: at most one group below it, and of a tame path. */
  ghost predicate Waiting(bp: set<Path>, mp: set<Path>, t: Path, ks: set<Path>) {
    && t !in ks && !TwoIn(Below(ks, t))
    && (forall q <- Below(ks, t) :: Tame(bp, mp, t, q))
    && (Below(bp, t) != {} ==> Below(ks, t) != {})
  }

  lemma WaitingStays(all: set<Path>, bp: set<Path>, mp: set<Path>, t: Path, ks: set<Path>, p: Path, ks': set<Path>)
    requires IsTop(all, t) && ks <= all && p in all && p in mp && p != t && KeyStep(ks, p, ks')
    requires t !in bp && !MaySplit(bp, mp, t) && Waiting(bp, mp, t, ks)
    ensures Waiting(bp, mp, t, ks')
  {
    if t < p {
      assert p in Below(mp, t);
      BelowStep(all, bp, mp, t, ks, p, ks');
    } else {
      OutsideStays(all, t, ks, p, ks');
    }
    if Below(bp, t) != {} { OneStays(all, t, ks, p, ks'); }
  }

  lemma BelowStep(all: set<Path>, bp: set<Path>, mp: set<Path>, t: Path, ks: set<Path>, p: Path, ks': set<Path>)
    requires IsTop(all, t) && ks <= all && p in Below(mp, t) && KeyStep(ks, p, ks')
    requires t !in bp && !MaySplit(bp, mp, t) && Waiting(bp, mp, t, ks)
    ensures forall x <- Below(ks', t) :: Tame(bp, mp, t, x)
    ensures !TwoIn(Below(ks', t))
  {
    forall q | q in Below(ks, t) ensures Comparable(p, q) && (p < q ==> Tame(bp, mp, t, p)) {
      TameCompares(bp, mp, t, q, p);
    }
    if Below(ks, t) == {} {
      assert Below(ks', t) <= {p};
      assert Below(bp, t) == {};
    } else {
      var k :| k in Below(ks, t);
      assert forall q :: q in Below(ks, t) ==> q == k;
      if ks' != ks {
        assert Comparable(p, k) && k in ks;
        var q :| q in ks && p < q && ks' == ks - {q} + {p};
        assert q in Below(ks, t);
        assert Below(ks, t) == {k} && q == k;
        assert Below(ks', t) <= Below(ks, t) - {q} + {p};
      }
    }
  }

  lemma {:induction false} NothingLeft(bound: seq<Mount>, order: seq<Mount>, t: Path, n: nat)
    requires n <= |order| && DistinctPaths(bound + order) && IsTop(PathSet(bound + order), t)
    requires !MaySplit(PathSet(bound), PathSet(order), t)
    ensures var ks := KeysAt(bound, order, n);
            if t in PathSet(bound + order[..n]) then Below(ks, t) == {}
            else Waiting(PathSet(bound), PathSet(order), t, ks)
    decreases n
  {
    var all, bp, mp := PathSet(bound + order), PathSet(bound), PathSet(order);
    if n == 0 {
      StartKeys(bound, order);
      assert bound + order[..0] == bound;
      forall q | q in Below(bp, t) ensures q <= q {}
    } else {
      var p, ks, ks' := order[n - 1].path, KeysAt(bound, order, n - 1), KeysAt(bound, order, n);
      NothingLeft(bound, order, t, n - 1);
      WalkStep(bound, order, n - 1);
      AllInputs(bound, order, n - 1);
      PathsUpTo(bound, order, n);
      InputBefore(bound, order, n - 1);
      if t in PathSet(bound + order[..n - 1]) {
        NoneStep(bound, order, t, n - 1);
      } else {
        BoundIsBefore(bound, order, n - 1);
        if p == t { TopTakesOnly(all, t, ks, ks'); } else { WaitingStays(all, bp, mp, t, ks, p, ks'); }
      }
    }
  }

  /** The path has come, and nothing is below it. */
  ghost predicate Clear(bound: seq<Mount>, order: seq<Mount>, t: Path, n: nat)
    requires n <= |order|
  {
    t in PathSet(bound + order[..n]) && Below(KeysAt(bound, order, n), t) == {}
  }

  lemma NoneStep(bound: seq<Mount>, order: seq<Mount>, t: Path, n: nat)
    requires n < |order| && DistinctPaths(bound + order) && IsTop(PathSet(bound + order), t) &&
             Clear(bound, order, t, n)
    ensures Clear(bound, order, t, n + 1)
  {
    PathsUpTo(bound, order, n + 1);
    TopIsKey(bound, order, t, n);
    WalkStep(bound, order, n);
    AllInputs(bound, order, n);
    NoneStays(PathSet(bound + order), t, KeysAt(bound, order, n), order[n].path, KeysAt(bound, order, n + 1));
  }

  lemma PathsUpTo(bound: seq<Mount>, order: seq<Mount>, n: nat)
    requires 0 < n <= |order|
    ensures PathSet(bound + order[..n]) == PathSet(bound + order[..n - 1]) + {order[n - 1].path}
    ensures order[n - 1].path in PathSet(order)
  {
    var before := bound + order[..n - 1];
    assert bound + order[..n] == before + [order[n - 1]];
    PathsOfBoth(before, [order[n - 1]]);
    assert PathSet([order[n - 1]]) == {order[n - 1].path};
    assert order[n - 1] in order;
  }

  lemma BoundIsBefore(bound: seq<Mount>, order: seq<Mount>, n: nat)
    requires n <= |order|
    ensures PathSet(bound) <= PathSet(bound + order[..n])
  {
    PathsOfBoth(bound, order[..n]);
  }

  // ----- with such a pair something is left below in some order

  lemma {:induction false} OneToTheEnd(bound: seq<Mount>, order: seq<Mount>, t: Path, n: nat, m: nat)
    requires n <= m <= |order| && DistinctPaths(bound + order) && IsTop(PathSet(bound + order), t)
    requires Below(KeysAt(bound, order, n), t) != {} && forall k :: n <= k < m ==> order[k].path != t
    ensures Below(KeysAt(bound, order, m), t) != {}
    decreases m
  {
    if n < m {
      OneToTheEnd(bound, order, t, n, m - 1);
      WalkStep(bound, order, m - 1);
      AllInputs(bound, order, m - 1);
      OneStays(PathSet(bound + order), t, KeysAt(bound, order, m - 1), order[m - 1].path, KeysAt(bound, order, m));
    }
  }

  lemma {:induction false} TwoToTheTop(bound: seq<Mount>, order: seq<Mount>, t: Path, n: nat, m: nat)
    requires n <= m <= |order| && DistinctPaths(bound + order) && IsTop(PathSet(bound + order), t)
    requires TwoIn(Below(KeysAt(bound, order, n), t)) && forall k :: n <= k < m ==> order[k].path != t
    ensures TwoIn(Below(KeysAt(bound, order, m), t))
    decreases m
  {
    if n < m {
      TwoToTheTop(bound, order, t, n, m - 1);
      WalkStep(bound, order, m - 1);
      AllInputs(bound, order, m - 1);
      TwoStay(PathSet(bound + order), t, KeysAt(bound, order, m - 1), order[m - 1].path, KeysAt(bound, order, m));
    }
  }

  lemma OnlyAt(bound: seq<Mount>, order: seq<Mount>, i: nat, k: nat)
    requires i < |order| && k < |order| && i != k && DistinctPaths(bound + order)
    ensures order[k].path != order[i].path
  {
    var all := bound + order;
    assert all[|bound| + i] == order[i] && all[|bound| + k] == order[k];
  }

  lemma NotBound(bound: seq<Mount>, order: seq<Mount>, i: nat)
    requires i < |order| && DistinctPaths(bound + order)
    ensures order[i].path !in PathSet(bound)
  {
    InputBefore(bound, order, i);
    BoundIsBefore(bound, order, i);
  }

  /** Two groups below a top that is a mount, before it comes: the walk raises. */
  lemma TwoBeforeTop(bound: seq<Mount>, order: seq<Mount>, t: Path, n: nat, i: nat)
    requires n <= i < |order| && DistinctPaths(bound + order) && BadTop(PathSet(bound + order), t) && order[i].path == t
    requires TwoIn(Below(KeysAt(bound, order, n), t))
    ensures Raises(bound, order)
  {
    forall k | 0 <= k < |order| && k != i ensures order[k].path != t { OnlyAt(bound, order, i, k); }
    TwoToTheTop(bound, order, t, n, i);
    WalkStep(bound, order, i);
    TopLeavesOne(t, KeysAt(bound, order, i), KeysAt(bound, order, i + 1));
    OneToTheEnd(bound, order, t, i + 1, |order|);
    LeftRaises(bound, order, t);
  }

  lemma LeftRaises(bound: seq<Mount>, order: seq<Mount>, t: Path)
    requires DistinctPaths(bound + order) && BadTop(PathSet(bound + order), t) &&
             Below(KeysAt(bound, order, |order|), t) != {}
    ensures Raises(bound, order)
  {
    RaisesWhen(bound, order);
  }

  /** A bound directory below another that is a bad top: every walk raises. */
  lemma BoundBelowRaises(bound: seq<Mount>, order: seq<Mount>, t: Path)
    requires DistinctPaths(bound + order) && BadTop(PathSet(bound + order), t) && t in PathSet(bound) &&
             Below(PathSet(bound), t) != {}
    ensures Raises(bound, order)
  {
    StartKeys(bound, order);
    forall k | 0 <= k < |order| ensures order[k].path != t { NotBound(bound, order, k); }
    OneToTheEnd(bound, order, t, 0, |order|);
    LeftRaises(bound, order, t);
  }

  /** Two bound directories below a bad top that is a mount: every walk raises. */
  lemma TwoBoundRaise(bound: seq<Mount>, order: seq<Mount>, t: Path)
    requires DistinctPaths(bound + order) && BadTop(PathSet(bound + order), t) && t !in PathSet(bound) &&
             TwoIn(Below(PathSet(bound), t))
    ensures Raises(bound, order)
  {
    StartKeys(bound, order);
    PathsOfBoth(bound, order);
    var m :| m in order && m.path == t;
    var i :| 0 <= i < |order| && order[i] == m;
    TwoBeforeTop(bound, order, t, 0, i);
  }

  lemma MoveFirst(ms: seq<Mount>, p: Path) returns (m: Mount, rest: seq<Mount>)
    requires p in PathSet(ms)
    ensures m.path == p && multiset([m] + rest) == multiset(ms)
  {
    m :| m in ms && m.path == p;
    var i :| 0 <= i < |ms| && ms[i] == m;
    rest := ms[..i] + ms[i + 1..];
    assert ms == ms[..i] + [m] + ms[i + 1..];
  }

  lemma StillThere(ms: seq<Mount>, m: Mount, rest: seq<Mount>, p: Path)
    requires multiset([m] + rest) == multiset(ms) && p in PathSet(ms) && p != m.path
    ensures p in PathSet(rest)
  {
    SamePaths([m] + rest, ms);
    PathsOfBoth([m], rest);
  }

  lemma TwoFirst(ms: seq<Mount>, x: Path, y: Path) returns (order: seq<Mount>)
    requires x in PathSet(ms) && y in PathSet(ms) && x != y
    ensures OrderOf(order, ms) && |order| >= 2 && order[0].path == x && order[1].path == y
  {
    var first, others := MoveFirst(ms, x);
    StillThere(ms, first, others, y);
    var second, rest := MoveFirst(others, y);
    order := [first] + ([second] + rest);
  }

  lemma ThreeFirst(ms: seq<Mount>, x: Path, y: Path, z: Path) returns (order: seq<Mount>)
    requires x in PathSet(ms) && y in PathSet(ms) && z in PathSet(ms) && x != y && x != z && y != z
    ensures OrderOf(order, ms) && |order| >= 3 && order[0].path == x && order[1].path == y && order[2].path == z
  {
    var first, others := MoveFirst(ms, x);
    StillThere(ms, first, others, y);
    StillThere(ms, first, others, z);
    var rest := TwoFirst(others, y, z);
    order := [first] + rest;
    assert order[1] == rest[0] && order[2] == rest[1];
  }

  /** A path that comes beside a group below the top makes two of them. */
  lemma BesideMakesTwo(all: set<Path>, t: Path, ks: set<Path>, x: Path, y: Path, ks': set<Path>)
    requires IsTop(all, t) && ks <= all && y in all && t !in ks && KeyStep(ks, y, ks') && x in Below(ks, t) &&
             t < y && !Comparable(x, y)
    ensures TwoIn(Below(ks', t))
  {
    assert x in Below(ks', t);
    if y in ks' {
      assert y in Below(ks', t);
    } else {
      var q :| q in ks && q < y;
      PrefixesCompare(q, t, y);
      assert q in Below(ks', t) && q != x;
    }
  }

  /** A bound directory and a mount beside it, below a bad top that is a mount: walking the mount first
      and then the top raises. */
  lemma BesideBound(bound: seq<Mount>, mounts: seq<Mount>, t: Path, x: Path, y: Path) returns (order: seq<Mount>)
    requires DistinctPaths(bound + mounts) && BadTop(PathSet(bound + mounts), t) && t !in PathSet(bound)
    requires x in Below(PathSet(bound), t) && y in Below(PathSet(mounts), t) && !Comparable(x, y)
    ensures OrderOf(order, mounts) && Raises(bound, order)
  {
    PathsOfBoth(bound, mounts);
    order := TwoFirst(mounts, y, t);
    OrderKeeps(bound, mounts, order);
    StartKeys(bound, order);
    WalkStep(bound, order, 0);
    AllInputs(bound, order, 0);
    BesideMakesTwo(PathSet(bound + order), t, KeysAt(bound, order, 0), x, y, KeysAt(bound, order, 1));
    TwoBeforeTop(bound, order, t, 1, 1);
  }

  /** Two mounts beside each other below a bad top that is a mount, and no bound directory there:
      walking the two first and then the top raises. */
  lemma BesideMounts(bound: seq<Mount>, mounts: seq<Mount>, t: Path, x: Path, y: Path) returns (order: seq<Mount>)
    requires DistinctPaths(bound + mounts) && BadTop(PathSet(bound + mounts), t) && t !in PathSet(bound)
    requires Below(PathSet(bound), t) == {} && x in Below(PathSet(mounts), t) && y in Below(PathSet(mounts), t) &&
             !Comparable(x, y)
    ensures OrderOf(order, mounts) && Raises(bound, order)
  {
    PathsOfBoth(bound, mounts);
    order := ThreeFirst(mounts, x, y, t);
    OrderKeeps(bound, mounts, order);
    TopComesThird(bound, order, t, x, y);
  }

  lemma TopComesThird(bound: seq<Mount>, order: seq<Mount>, t: Path, x: Path, y: Path)
    requires DistinctPaths(bound + order) && BadTop(PathSet(bound + order), t) && t !in PathSet(bound) &&
             Below(PathSet(bound), t) == {}
    requires |order| >= 3 && order[0].path == x && order[1].path == y && order[2].path == t && t < x && t < y &&
             !Comparable(x, y)
    ensures Raises(bound, order)
  {
    StartKeys(bound, order);
    WalkStep(bound, order, 0);
    AllInputs(bound, order, 0);
    NewBelow(PathSet(bound + order), t, KeysAt(bound, order, 0), x, KeysAt(bound, order, 1));
    WalkStep(bound, order, 1);
    AllInputs(bound, order, 1);
    BesideMakesTwo(PathSet(bound + order), t, KeysAt(bound, order, 1), x, y, KeysAt(bound, order, 2));
    TwoBeforeTop(bound, order, t, 2, 2);
  }

  lemma NewBelow(all: set<Path>, t: Path, ks: set<Path>, x: Path, ks': set<Path>)
    requires IsTop(all, t) && ks <= all && x in all && t !in ks && Below(ks, t) == {} && KeyStep(ks, x, ks') && t < x
    ensures x in Below(ks', t) && t !in ks'
  {
    forall q | q in ks ensures !(t < q) { assert q !in Below(ks, t); }
    forall q | q in ks ensures !(q < x) {
      if q < x { PrefixesCompare(q, t, x); }
    }
  }

  // ----- main results

  /** Some order of the mounts makes the grouping raise, if and only if a top path that is not a
      directory, or is the root, may have a group split from it. */
  lemma SomeOrderRaisesIff(bound: seq<Mount>, mounts: seq<Mount>)
    requires DistinctPaths(bound + mounts)
    ensures (exists order :: OrderOf(order, mounts) && Raises(bound, order)) <==>
            exists t :: BadTop(PathSet(bound + mounts), t) && MaySplit(PathSet(bound), PathSet(mounts), t)
  {
    if order :| OrderOf(order, mounts) && Raises(bound, order) {
      OrderKeeps(bound, mounts, order);
      RaisesWhen(bound, order);
      var t :| IsTop(PathSet(bound + order), t) && !IsDirectory(t) && Below(KeysAt(bound, order, |order|), t) != {};
      assert order[..|order|] == order;
      if !MaySplit(PathSet(bound), PathSet(order), t) { NothingLeft(bound, order, t, |order|); }
      assert BadTop(PathSet(bound + mounts), t);
    }
    if t :| BadTop(PathSet(bound + mounts), t) && MaySplit(PathSet(bound), PathSet(mounts), t) {
      var order := SplitRaises(bound, mounts, t);
    }
  }

  lemma SplitRaises(bound: seq<Mount>, mounts: seq<Mount>, t: Path) returns (order: seq<Mount>)
    requires DistinctPaths(bound + mounts) && BadTop(PathSet(bound + mounts), t) &&
             MaySplit(PathSet(bound), PathSet(mounts), t)
    ensures OrderOf(order, mounts) && Raises(bound, order)
  {
    var bp, mp := PathSet(bound), PathSet(mounts);
    order := mounts;
    if t in bp {
      BoundBelowRaises(bound, mounts, t);
    } else if TwoIn(Below(bp, t)) {
      TwoBoundRaise(bound, mounts, t);
    } else if x, y :| x in Below(bp, t) && y in Below(mp, t) && !Comparable(x, y) {
      order := BesideBound(bound, mounts, t, x, y);
    } else {
      var x, y :| x in Below(mp, t) && y in Below(mp, t) && !Comparable(x, y);
      order := BesideMounts(bound, mounts, t, x, y);
    }
  }

  // ----- every order

  /** What leaves a group below the top whatever the order. */
  ghost predicate MustSplit(bp: set<Path>, t: Path) { if t in bp then Below(bp, t) != {} else TwoIn(Below(bp, t)) }

  function Choose(ms: seq<Mount>, all: set<Path>, tops: bool): seq<Mount> {
    if ms == [] then []
    else (if (ms[0].path in TopSet(all)) == tops then [ms[0]] else []) + Choose(ms[1..], all, tops)
  }

  function TopSet(all: set<Path>): set<Path> { set t | t in all && forall q :: q in all && q <= t ==> q == t }

  lemma {:induction false} ChooseAll(ms: seq<Mount>, all: set<Path>)
    ensures multiset(Choose(ms, all, true) + Choose(ms, all, false)) == multiset(ms)
    decreases ms
  {
    if ms != [] {
      ChooseAll(ms[1..], all);
      assert ms == [ms[0]] + ms[1..];
    }
  }

  lemma {:induction false} ChosenAre(ms: seq<Mount>, all: set<Path>, tops: bool, m: Mount)
    ensures m in Choose(ms, all, tops) <==> m in ms && (m.path in TopSet(all)) == tops
    decreases ms
  {
    if ms != [] {
      ChosenAre(ms[1..], all, tops, m);
      assert ms == [ms[0]] + ms[1..];
    }
  }

  lemma {:induction false} BelowUntouched(bound: seq<Mount>, order: seq<Mount>, t: Path, n: nat)
    requires n <= |order| && DistinctPaths(bound + order) && IsTop(PathSet(bound + order), t)
    requires forall k :: 0 <= k < n ==> order[k].path != t && IsTop(PathSet(bound + order), order[k].path)
    ensures Below(KeysAt(bound, order, n), t) == Below(PathSet(bound), t)
    decreases n
  {
    if n == 0 {
      StartKeys(bound, order);
    } else {
      BelowUntouched(bound, order, t, n - 1);
      WalkStep(bound, order, n - 1);
      AllInputs(bound, order, n - 1);
      OutsideStays(PathSet(bound + order), t, KeysAt(bound, order, n - 1), order[n - 1].path, KeysAt(bound, order, n));
    }
  }

  lemma {:induction false} NoneToTheEnd(bound: seq<Mount>, order: seq<Mount>, t: Path, n: nat, m: nat)
    requires n <= m <= |order| && DistinctPaths(bound + order) && IsTop(PathSet(bound + order), t) &&
             Clear(bound, order, t, n)
    ensures Clear(bound, order, t, m)
    decreases m - n
  {
    if n < m {
      NoneStep(bound, order, t, n);
      NoneToTheEnd(bound, order, t, n + 1, m);
    }
  }

  /** With the tops first, nothing is left below a top that need not split. */
  lemma TopsFirst(bound: seq<Mount>, order: seq<Mount>, t: Path, n: nat)
    requires n <= |order| && DistinctPaths(bound + order) && IsTop(PathSet(bound + order), t) &&
             !MustSplit(PathSet(bound), t)
    requires forall k :: 0 <= k < n ==> IsTop(PathSet(bound + order), order[k].path)
    requires forall k :: n <= k < |order| ==> order[k].path != t
    ensures Below(KeysAt(bound, order, |order|), t) == {}
  {
    var all := PathSet(bound + order);
    if t in PathSet(bound) {
      StartKeys(bound, order);
      assert bound + order[..0] == bound;
      NoneToTheEnd(bound, order, t, 0, |order|);
    } else {
      PathsOfBoth(bound, order);
      var m :| m in order && m.path == t;
      var i :| 0 <= i < |order| && order[i] == m;
      forall k | 0 <= k < i ensures order[k].path != t { OnlyAt(bound, order, i, k); }
      BelowUntouched(bound, order, t, i);
      WalkStep(bound, order, i);
      AllInputs(bound, order, i);
      TopTakesOnly(all, t, KeysAt(bound, order, i), KeysAt(bound, order, i + 1));
      PathsUpTo(bound, order, i + 1);
      NoneToTheEnd(bound, order, t, i + 1, |order|);
    }
  }

  /** Every order of the mounts makes the grouping raise, if and only if a top path that is not a
      directory, or is the root, has a bound directory below it though it is one itself, or two of
      them. */
  lemma EveryOrderRaisesIff(bound: seq<Mount>, mounts: seq<Mount>)
    requires DistinctPaths(bound + mounts)
    ensures (forall order :: OrderOf(order, mounts) ==> Raises(bound, order)) <==>
            exists t :: BadTop(PathSet(bound + mounts), t) && MustSplit(PathSet(bound), t)
  {
    if t :| BadTop(PathSet(bound + mounts), t) && MustSplit(PathSet(bound), t) {
      forall order | OrderOf(order, mounts) ensures Raises(bound, order) {
        OrderKeeps(bound, mounts, order);
        if t in PathSet(bound) { BoundBelowRaises(bound, order, t); } else { TwoBoundRaise(bound, order, t); }
      }
    } else {
      var order := TopsFirstDoesNotRaise(bound, mounts);
    }
  }

  lemma TopsFirstDoesNotRaise(bound: seq<Mount>, mounts: seq<Mount>) returns (order: seq<Mount>)
    requires DistinctPaths(bound + mounts)
    requires forall t :: BadTop(PathSet(bound + mounts), t) ==> !MustSplit(PathSet(bound), t)
    ensures OrderOf(order, mounts) && !Raises(bound, order)
  {
    var all := PathSet(bound + mounts);
    var tops, others := Choose(mounts, all, true), Choose(mounts, all, false);
    order := tops + others;
    ChooseAll(mounts, all);
    OrderKeeps(bound, mounts, order);
    forall k | 0 <= k < |order| ensures IsTop(all, order[k].path) <==> k < |tops| {
      if k < |tops| { assert order[k] in tops; } else { assert order[k] in others; }
      ChosenAre(mounts, all, k < |tops|, order[k]);
      assert order[k].path in all by { AllInputs(bound, order, k); }
    }
    forall t | BadTop(all, t) ensures Below(KeysAt(bound, order, |order|), t) == {} {
      TopsFirst(bound, order, t, |tops|);
    }
    RaisesWhen(bound, order);
  }

  /** So the same set of mounts can be grouped in one order and raise in another: a path that is no
      directory above two paths beside each other. */
  lemma OrderDecides(top: Mount, a: Mount, b: Mount)
    requires !IsDirectory(top.path) && top.path < a.path && top.path < b.path && !Comparable(a.path, b.path)
    ensures !Raises([], [top, a, b]) && Raises([], [a, b, top])
  {
    TopFirstGroups([top, a, b]);
    TopLastRaises([a, b, top]);
  }

  lemma LowestIsTop(order: seq<Mount>, i: nat)
    requires i < |order| && forall k :: 0 <= k < |order| ==> order[i].path <= order[k].path
    ensures forall t :: IsTop(PathSet(order), t) <==> t == order[i].path
  {
    var all, low := PathSet(order), order[i].path;
    assert order[i] in order;
    forall p | p in all ensures low <= p && (p <= low ==> p == low) {
      var m :| m in order && m.path == p;
      var k :| 0 <= k < |order| && order[k] == m;
    }
    assert low in all && IsTop(all, low);
    forall t | IsTop(all, t) ensures t == low { assert low <= t; }
  }

  lemma NothingBound(order: seq<Mount>)
    ensures [] + order == order && PathSet([]) == {} && forall t :: Below(PathSet([]), t) == {}
  {
  }

  lemma TopFirstGroups(order: seq<Mount>)
    requires |order| == 3 && DistinctPaths(order) && order[0].path < order[1].path && order[0].path < order[2].path
    ensures !Raises([], order)
  {
    NothingBound(order);
    LowestIsTop(order, 0);
    TopsFirst([], order, order[0].path, 1);
    RaisesWhen([], order);
  }

  lemma TopLastRaises(order: seq<Mount>)
    requires |order| == 3 && DistinctPaths(order) && order[2].path < order[0].path && order[2].path < order[1].path
    requires !Comparable(order[0].path, order[1].path) && !IsDirectory(order[2].path)
    ensures Raises([], order)
  {
    var t := order[2].path;
    NothingBound(order);
    LowestIsTop(order, 2);
    assert BadTop(PathSet([] + order), t) && Below(PathSet([]), t) == {};
    TopComesThird([], order, t, order[0].path, order[1].path);
  }

  /** For instance the root and two directories. */
  lemma RootOrders(root: Mount, a: Mount, b: Mount)
    requires root.path == "/" && a.path == "/a/" && b.path == "/b/"
    ensures !Raises([], [root, a, b]) && Raises([], [a, b, root])
  {
    assert "/a/"[1] != "/b/"[1];
    OrderDecides(root, a, b);
  }

  /** Or a file `/a` and two directories whose names start like it, which it is taken to be above. */
  lemma FileOrders(file: Mount, a: Mount, b: Mount)
    requires file.path == "/a" && a.path == "/ab/" && b.path == "/ac/"
    ensures !Raises([], [file, a, b]) && Raises([], [a, b, file])
  {
    assert "/ab/"[2] != "/ac/"[2];
    OrderDecides(file, a, b);
  }
}
