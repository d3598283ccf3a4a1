/** Copy and paste between zones (`padsi/config/main.py`, `padsi/config/clipboard.py`): the tables
    filled from the rules, and when a zone needs no Wayland proxy. */
module Clipboard {
  import opened Wrappers

  datatype Policy = Allow | Deny

  datatype Rule = Rule(policy: Policy, copyZones: seq<string>, pasteZones: seq<string>)

  predicate Applies(r: Rule, copyZone: string, pasteZone: string) {
    ("*" in r.copyZones || copyZone in r.copyZones) && ("*" in r.pasteZones || pasteZone in r.pasteZones)
  }

  function GetPolicy(r: Rule, copyZone: string, pasteZone: string): Option<Policy> {
    if Applies(r, copyZone, pasteZone) then Some(r.policy) else None
  }

  /** The first rule that applies denies. */
  predicate Denied(rules: seq<Rule>, copyZone: string, pasteZone: string) {
    exists i :: 0 <= i < |rules| && FirstApplying(rules, i, copyZone, pasteZone) && rules[i].policy == Deny
  }

  predicate FirstApplying(rules: seq<Rule>, i: nat, copyZone: string, pasteZone: string)
    requires i < |rules|
  {
    Applies(rules[i], copyZone, pasteZone) && forall j :: 0 <= j < i ==> !Applies(rules[j], copyZone, pasteZone)
  }

  /** Content copied in one zone may be pasted into another: always within a zone, else unless
      denied. */
  predicate MayCopy(rules: seq<Rule>, copyZone: string, pasteZone: string) {
    copyZone == pasteZone || !Denied(rules, copyZone, pasteZone)
  }

  function Sources(zones: set<string>, rules: seq<Rule>, pasteZone: string): set<string> {
    set c | c in zones && MayCopy(rules, c, pasteZone)
  }

  function Targets(zones: set<string>, rules: seq<Rule>, copyZone: string): set<string> {
    set p | p in zones && MayCopy(rules, copyZone, p)
  }

  /** The zone names are the keys of a dictionary, in some order. */
  ghost predicate Enumerates(names: seq<string>, zones: set<string>) {
    (forall z :: z in zones <==> z in names) && forall i, j :: 0 <= i < j < |names| ==> names[i] != names[j]
  }

  // ----- filling the tables

  /** The rules are tried in order; without one that applies the default is to allow. */
  method Allowed(rules: seq<Rule>, copyZone: string, pasteZone: string) returns (allowed: bool)
    ensures allowed == !Denied(rules, copyZone, pasteZone)
  {
    for i := 0 to |rules|
      invariant forall j :: 0 <= j < i ==> !Applies(rules[j], copyZone, pasteZone)
    {
      match GetPolicy(rules[i], copyZone, pasteZone) {
        case Some(Deny) =>
          assert FirstApplying(rules, i, copyZone, pasteZone);
          return false;
        case Some(Allow) => return true;
        case None =>
      }
    }
    return true;
  }

  method SourcesOf(names: seq<string>, rules: seq<Rule>, pasteZone: string, zones: set<string>)
    returns (from: set<string>)
    requires Enumerates(names, zones) && pasteZone in zones
    ensures from == Sources(zones, rules, pasteZone)
  {
    from := {pasteZone};
    for i := 0 to |names|
      invariant forall c :: c in from <==> c == pasteZone || (c in names[..i] && MayCopy(rules, c, pasteZone))
    {
      var allowed := Allowed(rules, names[i], pasteZone);
      if allowed { from := from + {names[i]}; }
      assert names[..i + 1] == names[..i] + [names[i]];
    }
    assert names[..|names|] == names;
  }

  method CopyFromTable(names: seq<string>, rules: seq<Rule>, zones: set<string>)
    returns (copyFrom: map<string, set<string>>)
    requires Enumerates(names, zones)
    ensures copyFrom == map p | p in zones :: Sources(zones, rules, p)
  {
    copyFrom := map[];
    for i := 0 to |names|
      invariant forall p :: p in copyFrom <==> p in names[..i]
      invariant forall p :: p in copyFrom ==> p in zones && copyFrom[p] == Sources(zones, rules, p)
    {
      var from := SourcesOf(names, rules, names[i], zones);
      copyFrom := copyFrom[names[i] := from];
      assert names[..i + 1] == names[..i] + [names[i]];
    }
    assert names[..|names|] == names;
  }

  method TargetsOf(names: seq<string>, rules: seq<Rule>, copyZone: string, zones: set<string>,
      copyFrom: map<string, set<string>>)
    returns (to: set<string>)
    requires Enumerates(names, zones) && copyZone in zones
    requires copyFrom == map p | p in zones :: Sources(zones, rules, p)
    ensures to == Targets(zones, rules, copyZone)
  {
    to := {copyZone};
    for i := 0 to |names|
      invariant forall p :: p in to <==> p == copyZone || (p in names[..i] && MayCopy(rules, copyZone, p))
    {
      if names[i] in copyFrom && copyZone in copyFrom[names[i]] { to := to + {names[i]}; }
      assert names[..i + 1] == names[..i] + [names[i]];
    }
    assert names[..|names|] == names;
  }

  method PasteToTable(names: seq<string>, rules: seq<Rule>, zones: set<string>, copyFrom: map<string, set<string>>)
    returns (pasteTo: map<string, set<string>>)
    requires Enumerates(names, zones) && copyFrom == map p | p in zones :: Sources(zones, rules, p)
    ensures pasteTo == map c | c in zones :: Targets(zones, rules, c)
  {
    pasteTo := map[];
    for i := 0 to |names|
      invariant forall c :: c in pasteTo <==> c in names[..i]
      invariant forall c :: c in pasteTo ==> c in zones && pasteTo[c] == Targets(zones, rules, c)
    {
      var to := TargetsOf(names, rules, names[i], zones, copyFrom);
      pasteTo := pasteTo[names[i] := to];
      assert names[..i + 1] == names[..i] + [names[i]];
    }
    assert names[..|names|] == names;
  }

  // ----- the proxies

  /** The answer of the test, from the tables. */
  method ZoneNeedsWaylandProxy(names: seq<string>, rules: seq<Rule>, zones: set<string>, zone: string,
      copyFrom: map<string, set<string>>, pasteTo: map<string, set<string>>) returns (needed: bool)
    requires Enumerates(names, zones)
    requires rules != [] ==>
             && copyFrom == (map p | p in zones :: Sources(zones, rules, p))
             && pasteTo == map c | c in zones :: Targets(zones, rules, c)
    ensures needed <==> NeedsProxy(zones, rules, zone)
  {
    if |rules| == 0 { return false; }
    DistinctCount(names, zones);
    var nbZones := |names|;
    if zone !in copyFrom { return true; }
    if |copyFrom[zone]| != nbZones {
      return true;
    }
    FullIsAll(Sources(zones, rules, zone), zones);
    SubsetCount(Targets(zones, rules, zone), zones);
    var nbz: Option<nat> := None;
    for i := 0 to |names|
      invariant nbz.Some? ==> nbz.value == |pasteTo[zone]| && (nbz.value == nbZones || nbz.value == nbZones - 1)
      invariant nbz.Some? <==> exists j :: 0 <= j < i && names[j] != zone
    {
      if names[i] != zone {
        if nbz == None {
          nbz := Some(|pasteTo[zone]|);
          if nbz.value != nbZones && nbz.value != nbZones - 1 {
            OtherZone(names, zones, zone, i);
            return true;
          }
        } else if nbz.value != |pasteTo[zone]| {
          return true;
        }
      }
    }
    if nbz == None { OnlyZone(names, zones, zone); }
    return false;
  }

  /** A proxy is needed unless there is no rule, or every zone may be pasted into the zone and the
      zone may be pasted into all zones but at most one. */
  predicate NeedsProxy(zones: set<string>, rules: seq<Rule>, zone: string) {
    && rules != []
    && (zone !in zones || Sources(zones, rules, zone) != zones
        || (zones != {zone} && |Targets(zones, rules, zone)| + 1 < |zones|))
  }

  lemma {:induction false} DistinctCount(names: seq<string>, zones: set<string>)
    requires Enumerates(names, zones)
    ensures |names| == |zones|
    decreases names
  {
    if names == [] {
      assert zones == {};
    } else {
      var last := names[|names| - 1];
      var init := names[..|names| - 1];
      assert names == init + [last];
      DistinctCount(init, zones - {last});
    }
  }

  lemma FullIsAll(s: set<string>, zones: set<string>)
    requires s <= zones
    ensures |s| == |zones| <==> s == zones
  {
    assert zones == s + (zones - s);
    assert |zones| == |s| + |zones - s|;
  }

  lemma OtherZone(names: seq<string>, zones: set<string>, zone: string, i: nat)
    requires Enumerates(names, zones) && i < |names| && names[i] != zone
    ensures zones != {zone}
  {
    assert names[i] in zones;
  }

  lemma OnlyZone(names: seq<string>, zones: set<string>, zone: string)
    requires Enumerates(names, zones) && zone in zones && forall j :: 0 <= j < |names| ==> names[j] == zone
    ensures zones == {zone}
  {
  }

  // ----- main results

  /** Adding a rule at the end changes nothing where an earlier rule applies. */
  lemma FirstRuleWins(rules: seq<Rule>, more: seq<Rule>, i: nat, c: string, p: string)
    requires i < |rules| && Applies(rules[i], c, p)
    ensures MayCopy(rules + more, c, p) <==> MayCopy(rules, c, p)
  {
    var all := rules + more;
    if Denied(all, c, p) {
      var k :| 0 <= k < |all| && FirstApplying(all, k, c, p) && all[k].policy == Deny;
      assert !(i < k) by { assert all[i] == rules[i]; }
      forall j | 0 <= j < k ensures !Applies(rules[j], c, p) { assert all[j] == rules[j]; }
      assert FirstApplying(rules, k, c, p);
    }
    if Denied(rules, c, p) {
      var k :| 0 <= k < |rules| && FirstApplying(rules, k, c, p) && rules[k].policy == Deny;
      assert FirstApplying(all, k, c, p);
    }
  }

  /** Without a proxy, nothing that should be kept out can be pasted into the zone. */
  lemma NoProxyOnlyIfOpen(zones: set<string>, rules: seq<Rule>, zone: string, c: string)
    requires rules != [] && !NeedsProxy(zones, rules, zone) && c in zones
    ensures zone in zones && MayCopy(rules, c, zone)
  {
    assert c in Sources(zones, rules, zone);
  }

  /** Without a proxy, at most one zone is closed to what is copied in the zone. */
  lemma NoProxyOneClosed(zones: set<string>, rules: seq<Rule>, zone: string, p: string, q: string)
    requires rules != [] && !NeedsProxy(zones, rules, zone) && p in zones && q in zones
    requires !MayCopy(rules, zone, p) && !MayCopy(rules, zone, q)
    ensures p == q
  {
    var to := Targets(zones, rules, zone);
    if p != q {
      var rest := zones - {p, q};
      assert zones == rest + {p, q};
      SubsetCount(to, rest);
    }
  }

  lemma SubsetCount(s: set<string>, t: set<string>)
    requires s <= t
    ensures |s| <= |t|
  {
    assert t == s + (t - s);
  }

  // ----- the zones the loop means to look at

  /** The loop runs over the other zones, and its comment speaks of a filtering common to all zones,
      but it counts the targets of the zone itself every time. With the targets of the zone it is
      at, no proxy is needed when all other zones may be pasted into all zones, or each of them into
      all but one. */
  predicate IntendedProxy(zones: set<string>, rules: seq<Rule>, zone: string) {
    && rules != []
    && (zone !in zones || Sources(zones, rules, zone) != zones
        || !(OthersReach(zones, rules, zone, |zones|) || OthersReach(zones, rules, zone, |zones| - 1)))
  }

  predicate OthersReach(zones: set<string>, rules: seq<Rule>, zone: string, n: int) {
    forall z :: z in zones && z != zone ==> |Targets(zones, rules, z)| == n
  }

  /** Some zone is closed to what is copied in `z`; two of them are. */
  predicate OneClosed(zones: set<string>, rules: seq<Rule>, z: string) {
    exists p :: p in zones && !MayCopy(rules, z, p)
  }

  predicate TwoClosed(zones: set<string>, rules: seq<Rule>, z: string) {
    exists p, q :: p in zones && q in zones && p != q && !MayCopy(rules, z, p) && !MayCopy(rules, z, q)
  }

  /** Another zone has two zones closed to it, or has one while yet another has none. */
  predicate OthersDiffer(zones: set<string>, rules: seq<Rule>, zone: string) {
    || (exists z :: z in zones && z != zone && TwoClosed(zones, rules, z))
    || (exists y, z ::
          y in zones && z in zones && y != zone && z != zone &&
          OneClosed(zones, rules, y) && !OneClosed(zones, rules, z))
  }

  lemma CountClosed(zones: set<string>, rules: seq<Rule>, z: string)
    ensures var n := |Targets(zones, rules, z)|;
            && n <= |zones|
            && (OneClosed(zones, rules, z) <==> n < |zones|)
            && (TwoClosed(zones, rules, z) <==> n + 1 < |zones|)
  {
    var to := Targets(zones, rules, z);
    var closed := zones - to;
    assert zones == to + closed;
    assert |zones| == |to| + |closed|;
    assert forall p :: p in closed <==> p in zones && !MayCopy(rules, z, p);
    AtLeastOne(closed);
    AtLeastTwo(closed);
  }

  lemma AtLeastOne(s: set<string>)
    ensures |s| >= 1 <==> exists p :: p in s
  {
  }

  lemma AtLeastTwo(s: set<string>)
    ensures |s| >= 2 <==> exists p, q :: p in s && q in s && p != q
  {
    if |s| >= 2 {
      var p :| p in s;
      assert |s - {p}| == |s| - 1;
      var q :| q in s - {p};
    }
    if p, q :| p in s && q in s && p != q {
      SubsetCount({p, q}, s);
    }
  }

  lemma OthersMeet(zones: set<string>, rules: seq<Rule>, zone: string)
    ensures (OthersReach(zones, rules, zone, |zones|) || OthersReach(zones, rules, zone, |zones| - 1)) <==>
            !OthersDiffer(zones, rules, zone)
  {
    forall z ensures var n := |Targets(zones, rules, z)|;
      n <= |zones| && (OneClosed(zones, rules, z) <==> n < |zones|) && (TwoClosed(zones, rules, z) <==> n + 1 < |zones|)
    {
      CountClosed(zones, rules, z);
    }
    if !OthersDiffer(zones, rules, zone) && !OthersReach(zones, rules, zone, |zones|) {
      var y :| y in zones && y != zone && |Targets(zones, rules, y)| != |zones|;
      assert OneClosed(zones, rules, y);
      forall z | z in zones && z != zone ensures |Targets(zones, rules, z)| == |zones| - 1 {
        assert OneClosed(zones, rules, z) && !TwoClosed(zones, rules, z);
      }
    }
  }

  /** The answer is the one meant exactly when the test is decided before the loop, or two zones are
      closed to the zone just when the other zones differ. */
  lemma ProxyAsIntendedIff(zones: set<string>, rules: seq<Rule>, zone: string)
    ensures (NeedsProxy(zones, rules, zone) <==> IntendedProxy(zones, rules, zone)) <==>
            (rules == [] || zone !in zones || (exists c :: c in zones && !MayCopy(rules, c, zone))
             || (TwoClosed(zones, rules, zone) <==> OthersDiffer(zones, rules, zone)))
  {
    CountClosed(zones, rules, zone);
    OthersMeet(zones, rules, zone);
    assert Sources(zones, rules, zone) == zones <==> forall c :: c in zones ==> MayCopy(rules, c, zone);
    if zone in zones && zones == {zone} { assert !TwoClosed(zones, rules, zone); }
  }

  /** Three zones; nothing copied in the first may leave it. The first gets a proxy it is not meant to
      have. */
  lemma ProxyNotMeant(a: string, b: string, c: string)
    requires a != b && b != c && a != c && "*" !in {a, b, c}
    ensures var zones, rules := {a, b, c}, [Rule(Deny, [a], [b, c])];
            NeedsProxy(zones, rules, a) && !IntendedProxy(zones, rules, a)
  {
    var zones, rules := {a, b, c}, [Rule(Deny, [a], [b, c])];
    DeniedByOne(rules);
    assert forall x, y :: MayCopy(rules, x, y) <==> !(x == a && (y == b || y == c));
    assert TwoClosed(zones, rules, a) by { assert !MayCopy(rules, a, b) && !MayCopy(rules, a, c); }
    CountClosed(zones, rules, a);
    OthersMeet(zones, rules, a);
  }

  /** Three zones; the second may not be pasted into the third. The first gets no proxy where one is
      meant. */
  lemma ProxyMissing(a: string, b: string, c: string)
    requires a != b && b != c && a != c && "*" !in {a, b, c}
    ensures var zones, rules := {a, b, c}, [Rule(Deny, [b], [c])];
            !NeedsProxy(zones, rules, a) && IntendedProxy(zones, rules, a)
  {
    var zones, rules := {a, b, c}, [Rule(Deny, [b], [c])];
    DeniedByOne(rules);
    assert forall x, y :: MayCopy(rules, x, y) <==> !(x == b && y == c);
    assert OneClosed(zones, rules, b) by { assert !MayCopy(rules, b, c); }
    CountClosed(zones, rules, a);
    OthersMeet(zones, rules, a);
  }

  lemma DeniedByOne(rules: seq<Rule>)
    requires |rules| == 1 && rules[0].policy == Deny
    ensures forall c, p :: Denied(rules, c, p) <==> Applies(rules[0], c, p)
  {
    forall c, p ensures Denied(rules, c, p) <==> Applies(rules[0], c, p) {
      assert FirstApplying(rules, 0, c, p) <==> Applies(rules[0], c, p);
    }
  }

  // ----- the wildcard

  /** A deny rule from `*`, listed first, closes the zones it names to every other zone; one to `*`
      closes every other zone to those it names. */
  lemma StarCloses(zones: set<string>, rules: seq<Rule>, zone: string)
    requires rules != [] && rules[0].policy == Deny && zone in zones
    ensures "*" in rules[0].copyZones && zone in rules[0].pasteZones ==> Sources(zones, rules, zone) == {zone}
    ensures zone in rules[0].copyZones && "*" in rules[0].pasteZones ==> Targets(zones, rules, zone) == {zone}
  {
    forall other: string ensures Applies(rules[0], other, zone) ==> Denied(rules, other, zone) {
      if Applies(rules[0], other, zone) { assert FirstApplying(rules, 0, other, zone); }
    }
    forall other: string ensures Applies(rules[0], zone, other) ==> Denied(rules, zone, other) {
      if Applies(rules[0], zone, other) { assert FirstApplying(rules, 0, zone, other); }
    }
  }

  /** With the one rule that nothing is pasted into a zone, that is all that is forbidden. */
  lemma OnlyThatZoneCloses(rule: Rule, closed: string, copyZone: string, pasteZone: string)
    requires rule == Rule(Deny, ["*"], [closed]) && closed != "*"
    ensures MayCopy([rule], copyZone, pasteZone) <==> copyZone == pasteZone || pasteZone != closed
  {
    assert "*" == rule.copyZones[0] && closed == rule.pasteZones[0];
    assert Applies(rule, copyZone, pasteZone) <==> pasteZone == closed;
    assert FirstApplying([rule], 0, copyZone, pasteZone) <==> pasteZone == closed;
  }
}
