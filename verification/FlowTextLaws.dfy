/** Printing a flow and parsing it back. */
module FlowTextLaws {
  import opened Wrappers
  import opened Netflow
  import opened FlowText
  import DomainRegex

  // ----- splitting and stripping

  lemma {:induction false} SplitNone(s: string, c: char)
    requires c !in s
    ensures Split(s, c) == [s]
    decreases s
  {
    if s != "" {
      SplitNone(s[1..], c);
      assert [s[0]] + s[1..] == s;
    }
  }

  lemma {:induction false} SplitFirst(a: string, c: char, b: string)
    requires c !in a
    ensures Split(a + [c] + b, c) == [a] + Split(b, c)
    decreases a
  {
    var s := a + [c] + b;
    if a == "" {
      assert s[1..] == b;
    } else {
      assert s[1..] == a[1..] + [c] + b;
      SplitFirst(a[1..], c, b);
      assert [a[0]] + a[1..] == a;
    }
  }

  lemma {:induction false} SplitJoin(parts: seq<string>, c: char)
    requires |parts| >= 1 && forall i :: 0 <= i < |parts| ==> c !in parts[i]
    ensures Split(Join(parts, c), c) == parts
    decreases parts
  {
    if |parts| == 1 {
      SplitNone(parts[0], c);
    } else {
      SplitJoin(parts[1..], c);
      SplitFirst(parts[0], c, Join(parts[1..], c));
      assert [parts[0]] + parts[1..] == parts;
    }
  }

  predicate NoSpace(s: string) { forall i :: 0 <= i < |s| ==> !Space(s[i]) }

  lemma StripNothing(s: string)
    requires NoSpace(s)
    ensures Strip(s) == s
  {
  }

  /** A text that is one item of a list. */
  predicate Clean(s: string) { s != "" && NoSeparator(s) }

  predicate AllClean(items: seq<string>) { forall i :: 0 <= i < |items| ==> Clean(items[i]) }

  /** A list of items: commas are its only separators. */
  predicate CleanList(s: string) { s != "" && forall i :: 0 <= i < |s| ==> s[i] !in "^>" && !Space(s[i]) }

  lemma {:induction false} JoinIsList(items: seq<string>)
    requires |items| >= 1 && AllClean(items)
    ensures CleanList(Join(items, ','))
    decreases items
  {
    assert Clean(items[0]);
    if |items| > 1 {
      JoinIsList(items[1..]);
      var a, b := items[0], Join(items[1..], ',');
      var s := a + [','] + b;
      forall i | 0 <= i < |s| ensures s[i] !in "^>" && !Space(s[i]) {
        if i > |a| { assert s[i] == b[i - |a| - 1]; }
      }
    }
  }

  lemma ListItems(items: seq<string>)
    requires |items| >= 1 && AllClean(items)
    ensures Split(Strip(Join(items, ',')), ',') == items && Split(Join(items, ','), ',') == items
    ensures forall i :: 0 <= i < |items| ==> Strip(items[i]) == items[i]
  {
    JoinIsList(items);
    StripNothing(Join(items, ','));
    forall i | 0 <= i < |items| ensures ',' !in items[i] && Strip(items[i]) == items[i] {
      assert Clean(items[i]);
      StripNothing(items[i]);
    }
    SplitJoin(items, ',');
  }

  // ----- numbers

  predicate Digits(s: string) { s != "" && forall i :: 0 <= i < |s| ==> IsDigit(s[i]) }

  lemma {:induction false} DecBack(n: nat)
    ensures ParseDec(Dec(n)) == Some(n) && Digits(Dec(n))
    ensures n > 0 ==> Dec(n)[0] != '0'
    decreases n
  {
    if n >= 10 {
      DecBack(n / 10);
      var s := Dec(n);
      assert s[..|s| - 1] == Dec(n / 10);
    }
  }

  /** Plain digits are their own number. */
  lemma DigitsAreInt(s: string)
    requires Digits(s) && ParseDec(s).Some?
    ensures ParseInt(s) == Some(ParseDec(s).value)
  {
    DigitsClean(s);
    StripNothing(s);
    DomainRegex.ReplaceNone(s, '_', "");
  }

  lemma DigitsClean(s: string)
    requires Digits(s)
    ensures Clean(s) && '_' !in s && '.' !in s && '/' !in s && '-' !in s && '*' !in s && s[0] != '#'
  {
    forall c | c in s ensures IsDigit(c) {
      var i :| 0 <= i < |s| && s[i] == c;
    }
  }

  lemma OctetBack(n: nat)
    requires n <= 255
    ensures ParseOctet(Dec(n)) == Some(n)
  {
    DecBack(n);
    if n >= 10 {
      assert |Dec(n)| == |Dec(n / 10)| + 1;
      if n >= 100 { assert |Dec(n / 10)| == |Dec(n / 100)| + 1; }
    }
  }

  lemma OctetsAre(a: Ip)
    ensures a / 0x100_0000 <= 255
    ensures a / 0x100_0000 * 0x100_0000 + a / 0x1_0000 % 0x100 * 0x1_0000 + a / 0x100 % 0x100 * 0x100 + a % 0x100 == a
  {
    assert a / 0x1_0000 == a / 0x100_0000 * 0x100 + a / 0x1_0000 % 0x100;
    assert a / 0x100 == a / 0x1_0000 * 0x100 + a / 0x100 % 0x100;
  }

  lemma AddrBack(a: Ip)
    ensures ParseAddr(AddrText(a)) == Some(a)
  {
    OctetsAre(a);
    var parts := OctetTexts(a);
    forall i | 0 <= i < 4 ensures '.' !in parts[i] {
      OctetClean(a, i);
    }
    SplitJoin(parts, '.');
    OctetBack(a / 0x100_0000);
    OctetBack(a / 0x1_0000 % 0x100);
    OctetBack(a / 0x100 % 0x100);
    OctetBack(a % 0x100);
  }

  lemma OctetClean(a: Ip, i: nat)
    requires i < 4
    ensures Digits(OctetTexts(a)[i]) && '.' !in OctetTexts(a)[i]
  {
    DecBack(a / 0x100_0000);
    DecBack(a / 0x1_0000 % 0x100);
    DecBack(a / 0x100 % 0x100);
    DecBack(a % 0x100);
    DigitsClean(OctetTexts(a)[i]);
  }

  // ----- zones

  /** Digits and dots, as an address is written. */
  predicate Dotted(s: string) { s != "" && forall i :: 0 <= i < |s| ==> IsDigit(s[i]) || s[i] == '.' }

  lemma {:induction false} JoinDotted(parts: seq<string>)
    requires |parts| >= 1 && forall i :: 0 <= i < |parts| ==> Digits(parts[i])
    ensures Dotted(Join(parts, '.')) && IsDigit(Join(parts, '.')[|Join(parts, '.')| - 1])
    decreases parts
  {
    assert Digits(parts[0]);
    if |parts| > 1 {
      JoinDotted(parts[1..]);
      var a, b := parts[0], Join(parts[1..], '.');
      var s := a + ['.'] + b;
      forall i | 0 <= i < |s| ensures IsDigit(s[i]) || s[i] == '.' {
        if i > |a| { assert s[i] == b[i - |a| - 1]; }
      }
    }
  }

  lemma AddrDotted(a: Ip)
    ensures Dotted(AddrText(a)) && IsDigit(AddrText(a)[|AddrText(a)| - 1])
  {
    forall i | 0 <= i < 4 ensures Digits(OctetTexts(a)[i]) { OctetClean(a, i); }
    JoinDotted(OctetTexts(a));
  }

  lemma DottedClean(s: string)
    requires Dotted(s)
    ensures Clean(s) && '/' !in s && s[0] != '#' && s != "*"
  {
    forall c | c in s ensures c != '/' {
      var i :| 0 <= i < |s| && s[i] == c;
    }
  }

  /** The zone a printed zone is read as: an address when the prefix has 32 bits. */
  function Reread(z: Zone): Zone { if z.Net? && z.len == 32 then Addr(z.base) else z }

  predicate ZoneOk(lib: Library, z: Zone) {
    match z
    case AnyZone => true
    case Addr(_) => true
    case Net(_, l) => l <= 32
    case Domain(n) => lib.domain(n)
  }

  lemma ShortHasNoSuffix(s: string)
    requires '/' !in s
    ensures WithoutSuffix(s, "/32") == s
  {
    if |s| >= 3 {
      assert s[|s| - 3] in s;
      assert s[|s| - 3] == s[|s| - 3..][0];
    }
  }

  lemma AddressReadBack(lib: Library, a: Ip)
    ensures ParseZone(lib, AddrText(a)) == Some(Addr(a))
  {
    AddrDotted(a);
    DottedClean(AddrText(a));
    ShortHasNoSuffix(AddrText(a));
    AddrBack(a);
  }

  lemma {:induction false} JoinSplit(s: string, c: char)
    ensures Join(Split(s, c), c) == s
    decreases s
  {
    if s != "" {
      JoinSplit(s[1..], c);
      var rest := Split(s[1..], c);
      if s[0] == c {
        assert Split(s, c)[1..] == rest;
        assert "" + [c] + s[1..] == s;
      } else {
        var first := [s[0]] + rest[0];
        assert Split(s, c) == [first] + rest[1..];
        assert Split(s, c)[1..] == rest[1..];
        if |rest| > 1 { assert first + [c] + Join(rest[1..], c) == [s[0]] + (rest[0] + [c] + Join(rest[1..], c)); }
        assert [s[0]] + s[1..] == s;
      }
    }
  }

  lemma {:induction false} NumberHasDigits(s: string)
    requires ParseDec(s).Some?
    ensures Digits(s)
    decreases s
  {
    if |s| > 1 { NumberHasDigits(s[..|s| - 1]); }
  }

  lemma AddressIsDotted(s: string)
    requires ParseAddr(s).Some?
    ensures Dotted(s) && IsDigit(s[|s| - 1])
  {
    var parts := Split(s, '.');
    forall i | 0 <= i < 4 ensures Digits(parts[i]) { NumberHasDigits(parts[i]); }
    JoinDotted(parts);
    JoinSplit(s, '.');
  }

  lemma ThirtyTwo()
    ensures Dec(32) == "32"
  {
    assert Dec(3) == "3";
  }

  lemma PrefixParts(b: Ip, l: nat)
    ensures Split(AddrText(b) + "/" + Dec(l), '/') == [AddrText(b), Dec(l)]
    ensures ParseAddr(AddrText(b) + "/" + Dec(l)).None?
  {
    AddrDotted(b);
    DottedClean(AddrText(b));
    DecBack(l);
    DigitsClean(Dec(l));
    var s := AddrText(b) + "/" + Dec(l);
    SplitFirst(AddrText(b), '/', Dec(l));
    SplitNone(Dec(l), '/');
    assert s[|AddrText(b)|] == '/';
    if ParseAddr(s).Some? { AddressIsDotted(s); }
  }

  lemma PrefixSuffix(b: Ip, l: nat)
    requires l <= 32
    ensures WithoutSuffix(AddrText(b) + "/" + Dec(l), "/32") ==
            if l == 32 then AddrText(b) else AddrText(b) + "/" + Dec(l)
  {
    ThirtyTwo();
    DecBack(l);
    AddrDotted(b);
    if l == 32 {
      SuffixCut(AddrText(b));
    } else {
      ShortNumber(l);
      DifferentNumbers(l, 32);
      OtherSuffixStays(AddrText(b), Dec(l));
    }
  }

  lemma SuffixCut(a: string)
    ensures WithoutSuffix(a + "/" + "32", "/32") == a
  {
    var s := a + "/" + "32";
    assert s[|s| - 3..] == "/32" && s[..|s| - 3] == a;
  }

  lemma OtherSuffixStays(a: string, d: string)
    requires a != "" && a[|a| - 1] != '/' && (|d| == 1 || |d| == 2) && d != "32"
    ensures WithoutSuffix(a + "/" + d, "/32") == a + "/" + d
  {
    var s := a + "/" + d;
    if |d| == 1 {
      assert s[|s| - 3] == a[|a| - 1] && s[|s| - 3] == s[|s| - 3..][0];
    } else {
      assert s[|s| - 2..] == d && s[|s| - 3..][1..] == s[|s| - 2..];
      assert "/32"[1..] == "32";
    }
  }

  lemma ShortNumber(l: nat)
    requires l <= 32
    ensures |Dec(l)| == 1 || |Dec(l)| == 2
  {
    if l >= 10 { assert |Dec(l)| == |Dec(l / 10)| + 1; }
  }

  lemma DifferentNumbers(m: nat, n: nat)
    requires m != n
    ensures Dec(m) != Dec(n)
  {
    DecBack(m);
    DecBack(n);
  }

  lemma PrefixReadBack(lib: Library, b: Ip, l: nat)
    requires LibraryOk(lib) && l <= 32
    ensures ParseZone(lib, ZoneText(Net(b, l))) == Some(Reread(Net(b, l)))
  {
    PrefixParts(b, l);
    PrefixSuffix(b, l);
    AddrBack(b);
    var s := ZoneText(Net(b, l));
    assert s[|AddrText(b)|] == '/';
  }

  lemma NameReadBack(lib: Library, n: string)
    requires LibraryOk(lib) && lib.domain(n)
    ensures ParseZone(lib, n) == Some(Domain(n))
  {
    assert EndsWithDot(n);
    if |n| >= 3 { assert n[|n| - 1] == n[|n| - 3..][2]; }
    assert WithoutSuffix(n, "/32") == n;
    if ParseAddr(n).Some? { AddressIsDotted(n); }
    if |Split(n, '/')| == 2 { SecondPartEnds(n); }
  }

  lemma SecondPartEnds(n: string)
    requires EndsWithDot(n) && |Split(n, '/')| == 2
    ensures EndsWithDot(Split(n, '/')[1])
  {
    var parts := Split(n, '/');
    JoinSplit(n, '/');
    JoinTwo(parts, '/');
    assert n[|n| - 1] == if parts[1] == "" then '/' else parts[1][|parts[1]| - 1];
  }

  lemma JoinTwo(parts: seq<string>, c: char)
    requires |parts| == 2
    ensures Join(parts, c) == parts[0] + [c] + parts[1]
  {
    assert Join(parts[1..], c) == parts[1];
  }

  lemma ZoneReadBack(lib: Library, z: Zone)
    requires LibraryOk(lib) && ZoneOk(lib, z)
    ensures ParseZone(lib, ZoneText(z)) == Some(Reread(z))
    ensures Clean(ZoneText(z)) && ZoneText(z)[0] != '#'
  {
    match z
    case AnyZone =>
    case Addr(a) =>
      AddressReadBack(lib, a);
      AddrDotted(a);
      DottedClean(AddrText(a));
    case Net(b, l) =>
      PrefixReadBack(lib, b, l);
      PrefixClean(b, l);
    case Domain(n) =>
      NameReadBack(lib, n);
  }

  lemma PrefixClean(b: Ip, l: nat)
    ensures Clean(AddrText(b) + "/" + Dec(l)) && (AddrText(b) + "/" + Dec(l))[0] != '#'
  {
    AddrDotted(b);
    DottedClean(AddrText(b));
    DecBack(l);
    DigitsClean(Dec(l));
  }

  // ----- the lists of an endpoint

  predicate IfaceOk(iface: Option<string>) { iface.Some? ==> NoSeparator(iface.value) }

  predicate SideOk(lib: Library, e: Endpoint) {
    EndpointValid(e) && IfaceOk(e.iface) && forall i :: 0 <= i < |e.zones| ==> ZoneOk(lib, e.zones[i])
  }

  function RereadAll(zones: seq<Zone>): (r: seq<Zone>)
    ensures |r| == |zones| && forall i :: 0 <= i < |zones| ==> r[i] == Reread(zones[i])
  {
    seq(|zones|, i requires 0 <= i < |zones| => Reread(zones[i]))
  }

  lemma ZoneItemsClean(lib: Library, e: Endpoint)
    requires LibraryOk(lib) && SideOk(lib, e)
    ensures AllClean(ZoneItems(e)) && ZoneItems(e) != []
  {
    forall i | 0 <= i < |e.zones| ensures Clean(ZoneText(e.zones[i])) { ZoneReadBack(lib, e.zones[i]); }
    if e.iface.Some? { assert Clean("#" + e.iface.value); }
  }

  predicate ReadsAs(lib: Library, item: string, z: Zone) {
    Strip(item) == item && item != "" && item[0] != '#' && ParseZone(lib, item) == Some(z)
  }

  lemma {:induction false} ZonesReadBack(lib: Library, items: seq<string>, zones: seq<Zone>, got: seq<Zone>,
      rest: seq<string>)
    requires |items| == |zones| && forall i :: 0 <= i < |items| ==> ReadsAs(lib, items[i], zones[i])
    ensures ReadZones(lib, items + rest, got, None) == ReadZones(lib, rest, got + zones, None)
    decreases items
  {
    if items == [] {
      assert items + rest == rest && got + zones == got;
    } else {
      assert ReadsAs(lib, items[0], zones[0]);
      var all := items + rest;
      assert all[1..] == items[1..] + rest;
      ReadZonesStep(lib, all, got, zones[0]);
      ZonesReadBack(lib, items[1..], zones[1..], got + [zones[0]], rest);
      assert got + [zones[0]] + zones[1..] == got + zones;
    }
  }

  function IfaceItems(iface: Option<string>): seq<string> { if iface.Some? then ["#" + iface.value] else [] }

  lemma ReadZonesStep(lib: Library, items: seq<string>, zones: seq<Zone>, z: Zone)
    requires items != [] && ReadsAs(lib, items[0], z)
    ensures ReadZones(lib, items, zones, None) == ReadZones(lib, items[1..], zones + [z], None)
  {
  }

  lemma IfaceReadBack(lib: Library, iface: Option<string>, zones: seq<Zone>)
    requires iface.Some? ==> |iface.value| <= MAX_INTERFACE && Strip("#" + iface.value) == "#" + iface.value
    ensures ReadZones(lib, IfaceItems(iface), zones, None) == Ok((zones, iface))
  {
    if iface.Some? {
      var items := IfaceItems(iface);
      assert items[0][1..] == iface.value && items[1..] == [];
      assert ReadZones(lib, items[1..], zones, Some(iface.value)) == Ok((zones, iface));
    }
  }

  lemma ZonesReprBack(lib: Library, e: Endpoint)
    requires LibraryOk(lib) && SideOk(lib, e)
    ensures CleanList(ZonesRepr(e))
    ensures ReadZones(lib, Split(Strip(ZonesRepr(e)), ','), [], None) == Ok((RereadAll(e.zones), e.iface))
  {
    ZoneItemsClean(lib, e);
    JoinIsList(ZoneItems(e));
    ListItems(ZoneItems(e));
    var items := MapText(ZoneText, e.zones);
    forall i | 0 <= i < |items| ensures ReadsAs(lib, items[i], Reread(e.zones[i])) {
      ZoneReadBack(lib, e.zones[i]);
      assert ZoneItems(e)[i] == items[i];
    }
    ZonesReadBack(lib, items, RereadAll(e.zones), [], IfaceItems(e.iface));
    assert ZoneItems(e) == items + IfaceItems(e.iface) && [] + RereadAll(e.zones) == RereadAll(e.zones);
    if e.iface.Some? { assert ZoneItems(e)[|items|] == "#" + e.iface.value; }
    IfaceReadBack(lib, e.iface, RereadAll(e.zones));
  }

  lemma ProtoBack(q: Proto)
    ensures ParseProto(ProtoText(q)) == Some(q) && Clean(ProtoText(q))
  {
  }

  lemma {:induction false} ProtocolsReadBack(ps: seq<Proto>, k: nat)
    requires k <= |ps| && forall i :: 0 <= i < |ps| ==> Strip(MapText(ProtoText, ps)[i]) == MapText(ProtoText, ps)[i]
    ensures ReadProtocols(MapText(ProtoText, ps)[k..], ps[..k]) == Ok(Present(ps))
    decreases |ps| - k
  {
    var items := MapText(ProtoText, ps);
    if k < |ps| {
      ProtoBack(ps[k]);
      ProtocolsReadBack(ps, k + 1);
      assert items[k..][1..] == items[k + 1..] && ps[..k] + [ps[k]] == ps[..k + 1];
    } else {
      assert ps[..k] == ps;
    }
  }

  lemma ProtocolsReprBack(ps: Option<seq<Proto>>)
    requires ps.Some? ==> ps.value != []
    ensures ProtocolSpec(Some(ProtocolsRepr(ps))) == Ok(ps)
    ensures ps.Some? ==> CleanList(ProtocolsRepr(ps)) && Split(ProtocolsRepr(ps), ',') == MapText(ProtoText, ps.value)
  {
    if ps.Some? {
      var items := MapText(ProtoText, ps.value);
      forall i | 0 <= i < |items| ensures Clean(items[i]) { ProtoBack(ps.value[i]); }
      JoinIsList(items);
      ListItems(items);
      ProtocolsReadBack(ps.value, 0);
      assert items[0..] == items && ps.value[..0] == [];
    } else {
      assert Split("", ',') == [""] && [""][1..] == [];
      assert ReadProtocols([""], []) == ReadProtocols([], []);
    }
  }
}
