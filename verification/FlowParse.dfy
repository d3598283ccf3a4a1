/** Exactly which texts the flow parser takes (`padsi/fwlib/netflow.py`), and what for. */
module FlowParse {
  import opened Wrappers
  import opened Netflow
  import opened FlowText
  import opened FlowTextLaws

  // ----- addresses

  /** Digits without a leading zero are the text of their number. */
  lemma {:induction false} NumeralIsText(s: string, n: nat)
    requires ParseDec(s) == Some(n) && (|s| == 1 || s[0] != '0')
    ensures s == Dec(n)
    decreases s
  {
    if |s| > 1 {
      var init := s[..|s| - 1];
      var m := ParseDec(init).value;
      NumeralIsText(init, m);
      assert m > 0;
      NumeralStep(s, m, n);
    }
  }

  lemma NumeralStep(s: string, m: nat, n: nat)
    requires |s| > 1 && m > 0 && IsDigit(s[|s| - 1]) && s[..|s| - 1] == Dec(m)
    requires n == 10 * m + s[|s| - 1] as int - '0' as int
    ensures s == Dec(n)
  {
    assert n / 10 == m && n % 10 == s[|s| - 1] as int - '0' as int;
    assert s == s[..|s| - 1] + [s[|s| - 1]];
  }

  lemma OctetIff(s: string, n: nat)
    ensures ParseOctet(s) == Some(n) <==> n <= 255 && s == Dec(n)
  {
    if n <= 255 { OctetBack(n); }
    if ParseOctet(s) == Some(n) { NumeralIsText(s, n); }
  }

  lemma Quotient8(a: nat, q: nat, r: nat)
    requires a == q * 0x100 + r && r < 0x100
    ensures a / 0x100 == q && a % 0x100 == r
  {
  }

  lemma Quotient16(a: nat, q: nat, r: nat)
    requires a == q * 0x1_0000 + r && r < 0x1_0000
    ensures a / 0x1_0000 == q
  {
  }

  lemma Quotient24(a: nat, q: nat, r: nat)
    requires a == q * 0x100_0000 + r && r < 0x100_0000
    ensures a / 0x100_0000 == q
  {
  }

  lemma OctetsAreThose(a: Ip, o0: nat, o1: nat, o2: nat, o3: nat)
    requires o0 <= 255 && o1 <= 255 && o2 <= 255 && o3 <= 255
    requires a == o0 * 0x100_0000 + o1 * 0x1_0000 + o2 * 0x100 + o3
    ensures a / 0x100_0000 == o0 && a / 0x1_0000 % 0x100 == o1 && a / 0x100 % 0x100 == o2 && a % 0x100 == o3
  {
    var y := o0 * 0x100 + o1;
    var x := y * 0x100 + o2;
    Quotient8(a, x, o3);
    Quotient16(a, y, o2 * 0x100 + o3);
    Quotient24(a, o0, o1 * 0x1_0000 + o2 * 0x100 + o3);
    Quotient8(x, y, o2);
    Quotient8(y, o0, o1);
  }

  /** A text is taken for an address exactly if it is the text of that address. */
  lemma AddressIff(s: string, a: Ip)
    ensures ParseAddr(s) == Some(a) <==> s == AddrText(a)
  {
    if s == AddrText(a) { AddrBack(a); }
    if ParseAddr(s) == Some(a) {
      var parts := Split(s, '.');
      var o0, o1 := ParseOctet(parts[0]).value, ParseOctet(parts[1]).value;
      var o2, o3 := ParseOctet(parts[2]).value, ParseOctet(parts[3]).value;
      OctetIff(parts[0], o0);
      OctetIff(parts[1], o1);
      OctetIff(parts[2], o2);
      OctetIff(parts[3], o3);
      OctetsAreThose(a, o0, o1, o2, o3);
      assert parts == OctetTexts(a);
      JoinSplit(s, '.');
    }
  }

  lemma SuffixIff(item: string, s: string)
    requires '/' !in s
    ensures WithoutSuffix(item, "/32") == s <==> item == s || item == s + "/32"
  {
    if item == s { ShortHasNoSuffix(s); }
    if item == s + "/32" { assert item == s + "/" + "32"; SuffixCut(s); }
    if WithoutSuffix(item, "/32") == s && item != s {
      assert item == item[..|item| - 3] + item[|item| - 3..];
    }
  }

  /** A zone is read as an address exactly from the text of the address, with or without `/32`. */
  lemma AddressZoneIff(lib: Library, item: string, a: Ip)
    ensures ParseZone(lib, item) == Some(Addr(a)) <==> item == AddrText(a) || item == AddrText(a) + "/32"
  {
    AddrDotted(a);
    DottedClean(AddrText(a));
    SuffixIff(item, AddrText(a));
    AddressIff(WithoutSuffix(item, "/32"), a);
    assert AddrText(a) + "/32" != "*";
  }

  // ----- lists of zones

  predicate IsName(item: string) { var t := Strip(item); t != "" && t[0] == '#' }

  /** One item: an interface name of at most 15 characters, or a zone. */
  predicate ZoneItemOk(lib: Library, item: string) {
    var t := Strip(item);
    t != "" && if t[0] == '#' then |t| <= 16 else ParseZone(lib, t).Some?
  }

  /** No name after another one, unless that was empty. */
  ghost predicate NamesOnce(items: seq<string>) {
    forall i, j :: 0 <= i < j < |items| && IsName(items[i]) && IsName(items[j]) ==> Strip(items[i]) == "#"
  }

  ghost predicate NoName(items: seq<string>) { forall i :: 0 <= i < |items| ==> !IsName(items[i]) }

  ghost predicate AllZoneItems(lib: Library, items: seq<string>) {
    forall i :: 0 <= i < |items| ==> ZoneItemOk(lib, items[i])
  }

  lemma NamesFirst(items: seq<string>)
    requires items != []
    ensures NamesOnce(items) <==>
            NamesOnce(items[1..]) && (IsName(items[0]) && Strip(items[0]) != "#" ==> NoName(items[1..]))
  {
    assert forall i :: 0 < i < |items| ==> items[i] == items[1..][i - 1];
    if NamesOnce(items) && IsName(items[0]) && Strip(items[0]) != "#" {
      forall j | 0 <= j < |items[1..]| ensures !IsName(items[1..][j]) { assert items[1..][j] == items[j + 1]; }
    }
    if NamesOnce(items) {
      forall i, j | 0 <= i < j < |items[1..]| && IsName(items[1..][i]) && IsName(items[1..][j])
        ensures Strip(items[1..][i]) == "#"
      {
        assert items[1..][i] == items[i + 1] && items[1..][j] == items[j + 1];
      }
    }
  }

  lemma AllFirst(lib: Library, items: seq<string>)
    requires items != []
    ensures AllZoneItems(lib, items) <==> ZoneItemOk(lib, items[0]) && AllZoneItems(lib, items[1..])
    ensures NoName(items) <==> !IsName(items[0]) && NoName(items[1..])
  {
    assert forall i :: 0 < i < |items| ==> items[i] == items[1..][i - 1];
    assert forall i :: 0 <= i < |items[1..]| ==> items[1..][i] == items[i + 1];
  }

  lemma {:induction false} ZonesFrom(lib: Library, items: seq<string>, zones: seq<Zone>, iface: Option<string>)
    ensures ReadZones(lib, items, zones, iface).Ok? <==>
            && AllZoneItems(lib, items) && NamesOnce(items)
            && (iface.Some? && iface.value != "" ==> NoName(items))
    decreases items
  {
    if items != [] {
      var t := Strip(items[0]);
      NamesFirst(items);
      AllFirst(lib, items);
      if t != "" && t[0] == '#' {
        assert t == [t[0]] + t[1..];
        ZonesFrom(lib, items[1..], zones, Some(t[1..]));
      } else if t != "" && ParseZone(lib, t).Some? {
        ZonesFrom(lib, items[1..], zones + [ParseZone(lib, t).value], iface);
      }
    }
  }

  /** A list of zones is accepted if and only if every item is a zone or an interface name of at most 15
      characters, and only an empty name is followed by another. */
  lemma ZonesAcceptedIff(lib: Library, text: string)
    ensures ReadZones(lib, Split(Strip(text), ','), [], None).Ok? <==>
            AllZoneItems(lib, Split(Strip(text), ',')) && NamesOnce(Split(Strip(text), ','))
  {
    ZonesFrom(lib, Split(Strip(text), ','), [], None);
  }

  // ----- protocols and ports

  ghost predicate AllProtocols(items: seq<string>) {
    forall i :: 0 <= i < |items| ==> Strip(items[i]) in {"", "tcp", "udp", "icmp"}
  }

  lemma {:induction false} ProtocolsFrom(items: seq<string>, got: seq<Proto>)
    ensures ReadProtocols(items, got).Ok? <==> AllProtocols(items)
    decreases items
  {
    if items != [] {
      var t := Strip(items[0]);
      assert AllProtocols(items) <==> t in {"", "tcp", "udp", "icmp"} && AllProtocols(items[1..]) by {
        assert forall i :: 0 < i < |items| ==> items[i] == items[1..][i - 1];
        assert forall i :: 0 <= i < |items[1..]| ==> items[1..][i] == items[i + 1];
      }
      if t == "" { ProtocolsFrom(items[1..], got); }
      else if ParseProto(t).Some? { ProtocolsFrom(items[1..], got + [ParseProto(t).value]); }
    }
  }

  /** A list of protocols is accepted if and only if every item is blank or one of the three names. */
  lemma ProtocolsAcceptedIff(text: string)
    ensures ProtocolSpec(Some(text)).Ok? <==> AllProtocols(Split(Strip(text), ','))
  {
    ProtocolsFrom(Split(Strip(text), ','), []);
  }

  lemma {:induction false} PortsFrom(parts: seq<PortPart>, ports: seq<Port>, ranges: seq<PortRange>)
    ensures Collect(parts, ports, ranges).Ok? <==> Malformed !in parts
    decreases parts
  {
    if parts != [] {
      assert Malformed in parts <==> parts[0] == Malformed || Malformed in parts[1..];
      match parts[0]
      case OnePort(p) => PortsFrom(parts[1..], ports + [p], ranges);
      case Range(r) => PortsFrom(parts[1..], ports, ranges + [r]);
      case Malformed =>
    }
  }

  predicate IsPort(t: string) { ParseInt(t).Some? && 1 <= ParseInt(t).value <= 65535 }

  /** A number, or two numbers in order around one hyphen. */
  predicate PortItemOk(t: string) {
    if '-' in t then
      var ends := Split(t, '-');
      |ends| == 2 && IsPort(ends[0]) && IsPort(ends[1]) && ParseInt(ends[0]).value <= ParseInt(ends[1]).value
    else IsPort(t)
  }

  lemma PortIff(t: string)
    ensures ParsePort(t).Some? <==> IsPort(t)
    ensures ParsePort(t).Some? ==> ParsePort(t).value == ParseInt(t).value
  {
  }

  lemma PartIff(text: string)
    ensures ParsePart(text) != Malformed <==> PortItemOk(Strip(text))
  {
    var t := Strip(text);
    PortIff(t);
    var ends := Split(t, '-');
    if |ends| == 2 {
      PortIff(ends[0]);
      PortIff(ends[1]);
    }
  }

  /** A list of ports is accepted if and only if every item is a number from 1 to 65535, or two of them
      in order around a hyphen. */
  lemma PortsAcceptedIff(text: string)
    ensures PortSpec(Some(text)).Ok? <==>
            forall i :: 0 <= i < |Split(Strip(text), ',')| ==> PortItemOk(Strip(Split(Strip(text), ',')[i]))
  {
    var items := Split(Strip(text), ',');
    var parts := ParseParts(items);
    PortsFrom(parts, [], []);
    forall i | 0 <= i < |items| ensures parts[i] != Malformed <==> PortItemOk(Strip(items[i])) { PartIff(items[i]); }
    NoneMalformed(parts);
  }

  lemma NoneMalformed(parts: seq<PortPart>)
    ensures Malformed !in parts <==> forall i :: 0 <= i < |parts| ==> parts[i] != Malformed
  {
  }
}
