/** The round trip of endpoints and flows through their text, and exactly when it is the
    identity. */
module FlowRoundTrip {
  import opened Wrappers
  import opened Netflow
  import opened Decompile
  import opened FlowText
  import opened FlowTextLaws

  // ----- ports

  function PortParts(ports: seq<Port>): (parts: seq<PortPart>)
    ensures |parts| == |ports|
  {
    seq(|ports|, i requires 0 <= i < |ports| => OnePort(ports[i]))
  }

  function RangeParts(ranges: seq<PortRange>): (parts: seq<PortPart>)
    ensures |parts| == |ranges|
  {
    seq(|ranges|, i requires 0 <= i < |ranges| => Range(ranges[i]))
  }

  lemma {:induction false} PortsCollect(ports: seq<Port>, got: seq<Port>, rest: seq<PortPart>)
    ensures Collect(PortParts(ports) + rest, got, []) == Collect(rest, got + ports, [])
    decreases ports
  {
    if ports == [] {
      assert PortParts(ports) + rest == rest && got + ports == got;
    } else {
      assert (PortParts(ports) + rest)[1..] == PortParts(ports[1..]) + rest;
      PortsCollect(ports[1..], got + [ports[0]], rest);
      assert got + [ports[0]] + ports[1..] == got + ports;
    }
  }

  lemma {:induction false} RangesCollect(ranges: seq<PortRange>, ports: seq<Port>, got: seq<PortRange>)
    ensures Collect(RangeParts(ranges), ports, got) == Ok((Present(ports), Present(got + ranges)))
    decreases ranges
  {
    if ranges == [] {
      assert got + ranges == got;
    } else {
      assert RangeParts(ranges)[1..] == RangeParts(ranges[1..]);
      RangesCollect(ranges[1..], ports, got + [ranges[0]]);
      assert got + [ranges[0]] + ranges[1..] == got + ranges;
    }
  }

  lemma PortTextBack(p: Port)
    ensures Clean(PortText(p)) && '-' !in PortText(p) && ParsePort(PortText(p)) == Some(p) &&
            ParsePart(PortText(p)) == OnePort(p)
  {
    DecBack(p);
    DigitsClean(Dec(p));
    DigitsAreInt(Dec(p));
    StripNothing(Dec(p));
  }

  lemma RangeTextBack(r: PortRange)
    requires r.lo < r.hi
    ensures Clean(RangeText(r)) && ParsePart(RangeText(r)) == Range(r)
  {
    RangeSplits(r);
    RangeClean(r);
    StripNothing(RangeText(r));
    PortTextBack(r.lo);
    PortTextBack(r.hi);
  }

  lemma RangeSplits(r: PortRange)
    ensures Split(RangeText(r), '-') == [Dec(r.lo), Dec(r.hi)] && '-' in RangeText(r)
  {
    PortTextBack(r.lo);
    PortTextBack(r.hi);
    assert RangeText(r)[|Dec(r.lo)|] == '-';
    SplitFirst(Dec(r.lo), '-', Dec(r.hi));
    SplitNone(Dec(r.hi), '-');
  }

  lemma RangeClean(r: PortRange)
    ensures Clean(RangeText(r))
  {
    PortTextBack(r.lo);
    PortTextBack(r.hi);
  }

  function PortTexts(e: Endpoint): seq<string> { if e.ports.Some? then MapText(PortText, e.ports.value) else [] }

  function RangeTexts(e: Endpoint): seq<string> { if e.ranges.Some? then MapText(RangeText, e.ranges.value) else [] }

  function ListOf<T>(s: Option<seq<T>>): seq<T> { if s.Some? then s.value else [] }

  lemma PortTextsBack(e: Endpoint)
    requires EndpointValid(e)
    ensures AllClean(PortItems(e))
    ensures ParseParts(PortItems(e)) == PortParts(ListOf(e.ports)) + RangeParts(ListOf(e.ranges))
  {
    var ps, rs := PortTexts(e), RangeTexts(e);
    forall i | 0 <= i < |ps| ensures Clean(ps[i]) && ParsePart(ps[i]) == OnePort(ListOf(e.ports)[i]) {
      PortTextBack(e.ports.value[i]);
    }
    forall i | 0 <= i < |rs| ensures Clean(rs[i]) && ParsePart(rs[i]) == Range(ListOf(e.ranges)[i]) {
      assert e.ranges.value[i] in e.ranges.value;
      RangeTextBack(e.ranges.value[i]);
    }
    assert PortItems(e) == ps + rs;
    assert ParseParts(ps) == PortParts(ListOf(e.ports)) && ParseParts(rs) == RangeParts(ListOf(e.ranges));
    ParseConcat(ps, rs);
  }

  lemma ParseConcat(a: seq<string>, b: seq<string>)
    ensures ParseParts(a + b) == ParseParts(a) + ParseParts(b)
  {
  }

  lemma PortsReprBack(e: Endpoint)
    requires EndpointValid(e) && NamesPorts(e)
    ensures PortItems(e) != [] && CleanList(Join(PortItems(e), ','))
    ensures PortSpec(Some(Join(PortItems(e), ','))) == Ok((e.ports, e.ranges))
  {
    PortTextsBack(e);
    assert PortItems(e) == PortTexts(e) + RangeTexts(e);
    JoinIsList(PortItems(e));
    ListItems(PortItems(e));
    ItemsCollect(e);
  }

  lemma ItemsCollect(e: Endpoint)
    requires EndpointValid(e)
    ensures Collect(ParseParts(PortItems(e)), [], []) == Ok((e.ports, e.ranges))
  {
    PortTextsBack(e);
    PortsCollect(ListOf(e.ports), [], RangeParts(ListOf(e.ranges)));
    RangesCollect(ListOf(e.ranges), [] + ListOf(e.ports), []);
    assert [] + ListOf(e.ports) == ListOf(e.ports) && [] + ListOf(e.ranges) == ListOf(e.ranges);
  }

  // ----- endpoints

  /** What a printed endpoint is read as, with the protocols read beside it. */
  function RereadSide(e: Endpoint, ps: Option<seq<Proto>>): Endpoint {
    Endpoint(RereadAll(e.zones), e.iface, ps, e.ports, e.ranges)
  }

  lemma NewEndpointBack(lib: Library, e: Endpoint, protocols: Option<string>, ports: Option<string>,
      ps: Option<seq<Proto>>)
    requires LibraryOk(lib) && SideOk(lib, e) && ProtocolSpec(protocols) == Ok(ps) &&
             PortSpec(ports) == Ok((e.ports, e.ranges))
    ensures NewEndpoint(lib, ZonesRepr(e), protocols, ports) == Ok(RereadSide(e, ps))
  {
    ZonesReprBack(lib, e);
    assert e.zones != [] ==> RereadAll(e.zones) != [];
  }

  lemma ListHasNo(s: string, c: char)
    requires CleanList(s) && (c == '^' || c == '>')
    ensures c !in s
  {
  }

  lemma OnePart(a: string)
    requires CleanList(a)
    ensures Split(a, '^') == [a] && Strip(a) == a
  {
    ListHasNo(a, '^');
    SplitNone(a, '^');
    StripNothing(a);
  }

  lemma TwoParts(a: string, b: string)
    requires CleanList(a) && CleanList(b)
    ensures Split(a + "^" + b, '^') == [a, b] && Strip(a + "^" + b) == a + "^" + b
  {
    ListHasNo(a, '^');
    ListHasNo(b, '^');
    SplitNone(b, '^');
    SplitFirst(a, '^', b);
    StripNothing(a + "^" + b);
  }

  lemma ThreeParts(a: string, b: string, c: string)
    requires CleanList(a) && CleanList(b) && CleanList(c)
    ensures Split(a + "^" + b + "^" + c, '^') == [a, b, c] && Strip(a + "^" + b + "^" + c) == a + "^" + b + "^" + c
  {
    ListHasNo(a, '^');
    TwoParts(b, c);
    SplitFirst(a, '^', b + "^" + c);
    assert a + "^" + b + "^" + c == a + "^" + (b + "^" + c);
    StripNothing(a + "^" + b + "^" + c);
  }

  lemma NoPortsNoText(e: Endpoint)
    requires !NamesPorts(e)
    ensures PortsRepr(e) == ""
  {
  }

  /** How the parts of a text are used, by their number. */
  lemma PartsUsed(lib: Library, text: string, protos: Option<string>, z: string, a: string, b: string)
    requires text != "" && Strip(text) == text
    ensures Split(text, '^') == [z] ==> EndpointFromRepr(lib, text, protos) == NewEndpoint(lib, z, protos, None)
    ensures Split(text, '^') == [z, a] ==>
              EndpointFromRepr(lib, text, protos) ==
              if protos.Some? then NewEndpoint(lib, z, protos, Some(a)) else NewEndpoint(lib, z, Some(a), None)
    ensures Split(text, '^') == [z, a, b] ==>
            EndpointFromRepr(lib, text, protos) == NewEndpoint(lib, z, Some(a), Some(b))
  {
  }

  lemma SideText(e: Endpoint)
    requires EndpointValid(e)
    ensures EndpointRepr(e, false) ==
            if NamesPorts(e) then ZonesRepr(e) + "^" + Join(PortItems(e), ',') else ZonesRepr(e)
  {
    if NamesPorts(e) {
      PortsReprBack(e);
      assert ZonesRepr(e) + "" + PortsRepr(e) == ZonesRepr(e) + "^" + Join(PortItems(e), ',');
    } else {
      NoPortsNoText(e);
      assert ZonesRepr(e) + "" + "" == ZonesRepr(e);
    }
  }

  lemma SideHasNoArrow(e: Endpoint)
    requires EndpointValid(e) && CleanList(ZonesRepr(e))
    ensures '>' !in EndpointRepr(e, false)
  {
    SideText(e);
    ListHasNo(ZonesRepr(e), '>');
    if NamesPorts(e) {
      PortsReprBack(e);
      ListHasNo(Join(PortItems(e), ','), '>');
    }
  }

  /** In a flow, where the protocols stand beside, every endpoint is read back. */
  lemma SideReadBack(lib: Library, e: Endpoint, protocols: string, ps: Option<seq<Proto>>)
    requires LibraryOk(lib) && SideOk(lib, e) && ProtocolSpec(Some(protocols)) == Ok(ps)
    ensures EndpointFromRepr(lib, EndpointRepr(e, false), Some(protocols)) == Ok(RereadSide(e, ps))
    ensures '>' !in EndpointRepr(e, false)
  {
    var z := ZonesRepr(e);
    ZonesReprBack(lib, e);
    SideHasNoArrow(e);
    SideText(e);
    if NamesPorts(e) {
      var p := Join(PortItems(e), ',');
      PortsReprBack(e);
      TwoParts(z, p);
      PartsUsed(lib, z + "^" + p, Some(protocols), z, p, "");
      NewEndpointBack(lib, e, Some(protocols), Some(p), ps);
    } else {
      OnePart(z);
      PartsUsed(lib, z, Some(protocols), z, "", "");
      NewEndpointBack(lib, e, Some(protocols), None, ps);
    }
  }

  // ----- flows

  lemma {:induction false} NothingToAdd(f: NetFlow, ps: seq<Proto>, items: seq<string>)
    requires f.src.protocols == f.dest.protocols == Some(ps)
    requires forall i :: 0 <= i < |items| ==>
             Strip(items[i]) == items[i] && ParseProto(items[i]).Some? && ParseProto(items[i]).value in ps
    ensures AddProtocols(f, items) == Ok(f)
    decreases items
  {
    if items != [] {
      assert ParseProto(items[0]).Some?;
      NothingToAdd(f, ps, items[1..]);
    }
  }

  /** Parsing what a flow prints gives the flow with its protocols on both sides and its prefixes of
      32 bits as addresses. */
  lemma FlowReadBack(lib: Library, f: NetFlow)
    requires LibraryOk(lib) && FlowValid(f) && SideOk(lib, f.src) && SideOk(lib, f.dest)
    ensures var ps := FlowProtocols(f);
            FlowFromRepr(lib, FlowRepr(f)) == Ok(NetFlow(RereadSide(f.src, ps), RereadSide(f.dest, ps)))
  {
    var ps := FlowProtocols(f);
    var s, p, d := EndpointRepr(f.src, false), ProtocolsRepr(ps), EndpointRepr(f.dest, false);
    ProtocolsReprBack(ps);
    SideReadBack(lib, f.src, p, ps);
    SideReadBack(lib, f.dest, p, ps);
    FlowParts(s, p, d);
    if ps.Some? { NoneToAdd(NetFlow(RereadSide(f.src, ps), RereadSide(f.dest, ps)), ps.value); }
    FlowFromParts(lib, FlowRepr(f), s, p, d, RereadSide(f.src, ps), RereadSide(f.dest, ps));
  }

  lemma FlowFromParts(lib: Library, text: string, s: string, p: string, d: string, src: Endpoint, dest: Endpoint)
    requires Split(text, '>') == [s, p, d]
    requires EndpointFromRepr(lib, s, Some(p)) == Ok(src) && EndpointFromRepr(lib, d, Some(p)) == Ok(dest)
    requires p == "" || AddProtocols(NetFlow(src, dest), Split(p, ',')) == Ok(NetFlow(src, dest))
    requires SameProtocols(NetFlow(src, dest))
    ensures FlowFromRepr(lib, text) == Ok(NetFlow(src, dest))
  {
  }

  lemma NoneToAdd(f: NetFlow, ps: seq<Proto>)
    requires f.src.protocols == f.dest.protocols == Some(ps)
    ensures AddProtocols(f, MapText(ProtoText, ps)) == Ok(f)
  {
    ProtocolItemsBack(ps);
    NothingToAdd(f, ps, MapText(ProtoText, ps));
  }

  lemma ProtocolItemsBack(ps: seq<Proto>)
    ensures var items := MapText(ProtoText, ps);
            forall i :: 0 <= i < |items| ==>
              Strip(items[i]) == items[i] && ParseProto(items[i]).Some? && ParseProto(items[i]).value in ps
  {
    var items := MapText(ProtoText, ps);
    forall i | 0 <= i < |items|
      ensures Strip(items[i]) == items[i] && ParseProto(items[i]).Some? && ParseProto(items[i]).value in ps
    {
      ProtoBack(ps[i]);
      StripNothing(items[i]);
    }
  }

  lemma FlowParts(s: string, p: string, d: string)
    requires '>' !in s && '>' !in d && (p == "" || CleanList(p))
    ensures Split(s + ">" + p + ">" + d, '>') == [s, p, d]
  {
    if p != "" { ListHasNo(p, '>'); }
    SplitNone(d, '>');
    SplitFirst(p, '>', d);
    SplitFirst(s, '>', p + ">" + d);
    assert s + ">" + p + ">" + d == s + ">" + (p + ">" + d);
  }

  // ----- when the round trip is the identity

  predicate HasFullPrefix(e: Endpoint) { exists i :: 0 <= i < |e.zones| && e.zones[i].Net? && e.zones[i].len == 32 }

  lemma ZonesSame(e: Endpoint)
    ensures multiset(e.zones) == multiset(RereadAll(e.zones)) <==> !HasFullPrefix(e)
  {
    var back := RereadAll(e.zones);
    if HasFullPrefix(e) {
      var i :| 0 <= i < |e.zones| && e.zones[i].Net? && e.zones[i].len == 32;
      assert e.zones[i] in multiset(e.zones);
      assert e.zones[i] !in back;
    } else {
      assert back == e.zones;
    }
  }

  /** A flow equals what it is read back as, exactly when no zone is a prefix of 32 bits (which the
      constructor stores when the mask is written out, and strips when it is written `/32`). */
  lemma FlowRoundTripExact(lib: Library, f: NetFlow)
    requires LibraryOk(lib) && FlowValid(f) && SideOk(lib, f.src) && SideOk(lib, f.dest)
    ensures var r := FlowFromRepr(lib, FlowRepr(f));
            r.Ok? && (FlowEqual(f, r.value) <==> !HasFullPrefix(f.src) && !HasFullPrefix(f.dest))
  {
    FlowReadBack(lib, f);
    SideSame(f.src, FlowProtocols(f));
    SideSame(f.dest, FlowProtocols(f));
  }

  lemma SideSame(e: Endpoint, ps: Option<seq<Proto>>)
    ensures SideEqual(e, RereadSide(e, ps)) <==> !HasFullPrefix(e)
  {
    ZonesSame(e);
  }

  lemma PortsAreNoProtocols(e: Endpoint)
    requires EndpointValid(e) && NamesPorts(e)
    ensures ProtocolSpec(Some(Join(PortItems(e), ','))).Err?
  {
    PortTextsBack(e);
    StartsWithDigit(e);
    ListItems(PortItems(e));
    DigitRefused(PortItems(e));
  }

  lemma DigitRefused(items: seq<string>)
    requires items != [] && items[0] != "" && Strip(items[0]) == items[0] && IsDigit(items[0][0])
    ensures ReadProtocols(items, []).Err?
  {
    assert "tcp"[0] == 't' && "udp"[0] == 'u' && "icmp"[0] == 'i';
  }

  lemma StartsWithDigit(e: Endpoint)
    requires EndpointValid(e) && NamesPorts(e)
    ensures PortItems(e) != [] && PortItems(e)[0] != "" && IsDigit(PortItems(e)[0][0])
  {
    if e.ports.Some? {
      DecBack(e.ports.value[0]);
      assert PortItems(e)[0] == Dec(e.ports.value[0]);
    } else {
      DecBack(e.ranges.value[0].lo);
      assert PortItems(e)[0] == RangeText(e.ranges.value[0]);
    }
  }

  /** An endpoint alone is read back exactly unless it names ports and no protocol: its ports are
      then read as protocols, and refused. */
  lemma EndpointRoundTripExact(lib: Library, e: Endpoint)
    requires LibraryOk(lib) && SideOk(lib, e)
    ensures EndpointFromRepr(lib, EndpointRepr(e, true), None) ==
            if NamesPorts(e) && e.protocols.None? then Err else Ok(RereadSide(e, e.protocols))
  {
    ZonesReprBack(lib, e);
    if e.protocols.Some? {
      WithProtocolsBack(lib, e);
    } else if NamesPorts(e) {
      SideText(e);
      var z, p := ZonesRepr(e), Join(PortItems(e), ',');
      PortsReprBack(e);
      TwoParts(z, p);
      PartsUsed(lib, z + "^" + p, None, z, p, "");
      PortsAreNoProtocols(e);
    } else {
      SideText(e);
      OnePart(ZonesRepr(e));
      PartsUsed(lib, ZonesRepr(e), None, ZonesRepr(e), "", "");
      NewEndpointBack(lib, e, None, None, None);
    }
  }

  lemma FullText(e: Endpoint)
    requires EndpointValid(e) && e.protocols.Some?
    ensures var z, q := ZonesRepr(e), ProtocolsRepr(e.protocols);
            EndpointRepr(e, true) == if NamesPorts(e) then z + "^" + q + "^" + Join(PortItems(e), ',') else z + "^" + q
  {
    var z, q := ZonesRepr(e), ProtocolsRepr(e.protocols);
    var r := PortsRepr(e);
    assert EndpointRepr(e, true) == z + ("^" + q) + r;
    Associates(z, "^", q);
    if NamesPorts(e) {
      assert r == "^" + Join(PortItems(e), ',') by { PortsReprBack(e); }
      Associates(z + "^" + q, "^", Join(PortItems(e), ','));
    } else {
      assert r == "" by { NoPortsNoText(e); }
    }
  }

  lemma Associates(a: string, b: string, c: string)
    ensures a + (b + c) == a + b + c
  {
  }

  lemma WithProtocolsBack(lib: Library, e: Endpoint)
    requires LibraryOk(lib) && SideOk(lib, e) && e.protocols.Some?
    ensures EndpointFromRepr(lib, EndpointRepr(e, true), None) == Ok(RereadSide(e, e.protocols))
  {
    var z, q := ZonesRepr(e), ProtocolsRepr(e.protocols);
    FullText(e);
    ZonesReprBack(lib, e);
    ProtocolsReprBack(e.protocols);
    if NamesPorts(e) {
      var p := Join(PortItems(e), ',');
      PortsReprBack(e);
      ThreeParts(z, q, p);
      PartsUsed(lib, z + "^" + q + "^" + p, None, z, q, p);
      NewEndpointBack(lib, e, Some(q), Some(p), e.protocols);
    } else {
      TwoParts(z, q);
      PartsUsed(lib, z + "^" + q, None, z, q, "");
      NewEndpointBack(lib, e, Some(q), None, e.protocols);
    }
  }
}
