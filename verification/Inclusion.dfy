/** Inclusion of endpoints (`Endpoint.is_part_of` in `padsi/fwlib/netflow.py`): the loops of the
    test, and what a positive answer means for traffic. */
module Inclusion {
  import opened Wrappers
  import opened Netflow

  const ALL_PROTOCOLS := [Tcp, Udp, Icmp]

  // ----- the parts of the test

  predicate InterfacePart(a: Option<string>, b: Option<string>) {
    b.None? || a == b
  }

  function Protocols(e: Endpoint): seq<Proto> {
    if e.protocols.Some? && |e.protocols.value| > 0 then e.protocols.value else ALL_PROTOCOLS
  }

  predicate ProtocolsPart(a: Endpoint, b: Endpoint) {
    forall i :: 0 <= i < |Protocols(a)| ==> Protocols(a)[i] in Protocols(b)
  }

  /** The network has no bit set after its prefix. */
  predicate HostBitFree(z: Zone) { z.Net? ==> z.len <= 32 && z.base % Pow2(32 - z.len) == 0 }

  predicate Readable(e: Endpoint) { forall i :: 0 <= i < |e.zones| ==> HostBitFree(e.zones[i]) }

  function First(z: Zone): nat
    requires z.Net?
  {
    z.base
  }

  function Last(z: Zone): nat
    requires z.Net? && z.len <= 32
  {
    z.base + Pow2(32 - z.len) - 1
  }

  /** One address or network lies in another. */
  predicate ZonePart(x: Zone, y: Zone)
    requires HostBitFree(x) && HostBitFree(y)
  {
    match x
    case Addr(a) => x == y || (y.Net? && InNet(a, y.base, y.len))
    case Net(_, _) => y.Net? && First(y) <= First(x) && Last(x) <= Last(y)
    case AnyZone => false
    case Domain(_) => false
  }

  predicate IsIpv4(z: Zone) { z.Addr? || z.Net? }

  predicate SomeZonePart(x: Zone, ys: seq<Zone>)
    requires HostBitFree(x) && forall i :: 0 <= i < |ys| ==> HostBitFree(ys[i])
  {
    exists i :: 0 <= i < |ys| && IsIpv4(ys[i]) && ZonePart(x, ys[i])
  }

  predicate AddressesPart(a: Endpoint, b: Endpoint)
    requires Readable(a) && Readable(b)
  {
    forall i :: 0 <= i < |a.zones| && IsIpv4(a.zones[i]) ==> SomeZonePart(a.zones[i], b.zones)
  }

  predicate SomeDomainPart(x: string, ys: seq<Zone>, domainPart: (string, string) -> bool) {
    exists i :: 0 <= i < |ys| && ys[i].Domain? && domainPart(x, ys[i].name)
  }

  predicate DomainsPart(a: Endpoint, b: Endpoint, domainPart: (string, string) -> bool) {
    forall i :: 0 <= i < |a.zones| && a.zones[i].Domain? ==> SomeDomainPart(a.zones[i].name, b.zones, domainPart)
  }

  predicate MayUse(e: Endpoint, p: Port) { NamesPorts(e) ==> PortListed(e.ports, e.ranges, p) }

  /** The ports an endpoint lists; all of them when it lists none. */
  function PortsMap(e: Endpoint): set<Port> { set p: Port | 1 <= p <= MAX_PORT && MayUse(e, p) }

  /** The answer; a network with host bits raises once its zone is looked at. */
  function PartOf(a: Endpoint, b: Endpoint, domainPart: (string, string) -> bool): Result<bool> {
    if !InterfacePart(a.iface, b.iface) || !ProtocolsPart(a, b) then Ok(false)
    else if !Readable(a) || !Readable(b) then Err
    else Ok(AddressesPart(a, b) && DomainsPart(a, b, domainPart) && PortsMap(a) <= PortsMap(b))
  }

  // ----- the loops

  method AddRange(from: set<Port>, lo: Port, hi: Port) returns (res: set<Port>)
    ensures forall p: Port :: p in res <==> p in from || lo <= p <= hi
  {
    res := from;
    var port: nat := lo;
    while port <= hi
      invariant lo <= port <= MAX_PORT + 1
      invariant forall p: Port :: p in res <==> p in from || (lo <= p < port && p <= hi)
    {
      res := res + {port};
      port := port + 1;
    }
  }

  method MapPorts(e: Endpoint) returns (res: set<Port>)
    ensures res == PortsMap(e)
  {
    if e.ports.None? && e.ranges.None? {
      res := AddRange({}, 1, MAX_PORT);
      return;
    }
    res := {};
    if e.ports.Some? {
      for i := 0 to |e.ports.value|
        invariant forall p: Port :: p in res <==> exists j :: 0 <= j < i && e.ports.value[j] == p
      {
        res := res + {e.ports.value[i]};
      }
    }
    ghost var listed := res;
    if e.ranges.Some? {
      for i := 0 to |e.ranges.value|
        invariant forall p: Port :: p in res <==>
                  p in listed || exists j :: 0 <= j < i && e.ranges.value[j].lo <= p <= e.ranges.value[j].hi
      {
        res := AddRange(res, e.ranges.value[i].lo, e.ranges.value[i].hi);
      }
    }
    forall p: Port ensures p in res <==> p in PortsMap(e) {
      if e.ranges.Some? {
        assert (exists j :: 0 <= j < |e.ranges.value| && e.ranges.value[j].lo <= p <= e.ranges.value[j].hi)
          <==> exists r :: r in e.ranges.value && r.lo <= p <= r.hi;
      }
    }
  }

  method FindZone(x: Zone, ys: seq<Zone>) returns (found: bool)
    requires HostBitFree(x) && forall i :: 0 <= i < |ys| ==> HostBitFree(ys[i])
    ensures found == SomeZonePart(x, ys)
  {
    found := false;
    for i := 0 to |ys|
      invariant forall j :: 0 <= j < i ==> !(IsIpv4(ys[j]) && ZonePart(x, ys[j]))
    {
      if IsIpv4(ys[i]) && ZonePart(x, ys[i]) {
        found := true;
        break;
      }
    }
  }

  method FindDomain(x: string, ys: seq<Zone>, domainPart: (string, string) -> bool) returns (found: bool)
    ensures found == SomeDomainPart(x, ys, domainPart)
  {
    found := false;
    for i := 0 to |ys|
      invariant forall j :: 0 <= j < i ==> !(ys[j].Domain? && domainPart(x, ys[j].name))
    {
      if ys[i].Domain? && domainPart(x, ys[i].name) {
        found := true;
        break;
      }
    }
  }

  method ZonesAreParts(a: Endpoint, b: Endpoint, domainPart: (string, string) -> bool) returns (r: bool)
    requires Readable(a) && Readable(b)
    ensures r == (AddressesPart(a, b) && DomainsPart(a, b, domainPart))
  {
    for i := 0 to |a.zones|
      invariant forall j :: 0 <= j < i && IsIpv4(a.zones[j]) ==> SomeZonePart(a.zones[j], b.zones)
    {
      if IsIpv4(a.zones[i]) {
        var found := FindZone(a.zones[i], b.zones);
        if !found { return false; }
      }
    }
    for i := 0 to |a.zones|
      invariant forall j :: 0 <= j < i && a.zones[j].Domain? ==> SomeDomainPart(a.zones[j].name, b.zones, domainPart)
    {
      if a.zones[i].Domain? {
        var found := FindDomain(a.zones[i].name, b.zones, domainPart);
        if !found { return false; }
      }
    }
    return true;
  }

  method IsPartOf(a: Endpoint, b: Endpoint, domainPart: (string, string) -> bool) returns (r: Result<bool>)
    ensures r == PartOf(a, b, domainPart)
  {
    if a.iface.None? {
      if b.iface.Some? { return Ok(false); }
    } else if b.iface.Some? && a.iface != b.iface {
      return Ok(false);
    }
    for i := 0 to |Protocols(a)|
      invariant forall j :: 0 <= j < i ==> Protocols(a)[j] in Protocols(b)
    {
      if Protocols(a)[i] !in Protocols(b) { return Ok(false); }
    }
    if !Readable(b) || !Readable(a) { return Err; }
    var zones := ZonesAreParts(a, b, domainPart);
    if !zones { return Ok(false); }
    var thisPorts := MapPorts(a);
    var superPorts := MapPorts(b);
    var todo := thisPorts;
    while todo != {}
      invariant todo <= thisPorts && thisPorts - todo <= superPorts
    {
      var p :| p in todo;
      if p !in superPorts {
        assert p in thisPorts;
        return Ok(false);
      }
      todo := todo - {p};
    }
    return Ok(true);
  }

  // ----- prefixes are intervals

  lemma {:induction false} InNetIsInterval(x: Ip, z: Zone)
    requires z.Net? && HostBitFree(z)
    ensures InNet(x, z.base, z.len) <==> First(z) <= x <= Last(z)
  {
    var size := Pow2(32 - z.len);
    AlignedBlock(x, z.base, size);
  }

  lemma AlignedBlock(x: nat, base: nat, size: nat)
    requires size > 0 && base % size == 0
    ensures x / size == base / size <==> base <= x < base + size
  {
    var q := base / size;
    assert base == q * size;
    if x / size == q {
      assert x == q * size + x % size;
    }
    if base <= x < base + size {
      var r := x - base;
      assert x == q * size + r;
      QuotientIs(q, r, size);
    }
  }

  lemma QuotientIs(q: nat, r: nat, size: nat)
    requires r < size
    ensures (q * size + r) / size == q
  {
    var x := q * size + r;
    var d := x / size;
    assert x == d * size + x % size;
    if d < q { ProductStep(d, q, size); }
    if q < d { ProductStep(q, d, size); }
  }

  lemma ProductStep(a: nat, b: nat, size: nat)
    requires a < b
    ensures a * size + size <= b * size
  {
    assert (a + 1) * size <= b * size;
  }

  /** What lies in a zone lies in the zones it is part of. */
  lemma ZonePartKeeps(x: Zone, y: Zone, a: Ip)
    requires HostBitFree(x) && HostBitFree(y) && ZonePart(x, y) && ZoneHas(x, a)
    ensures ZoneHas(y, a)
  {
    if x.Net? {
      InNetIsInterval(a, x);
      InNetIsInterval(a, y);
    }
  }

  lemma ZonePartReflexive(x: Zone)
    requires HostBitFree(x) && IsIpv4(x)
    ensures ZonePart(x, x)
  {
  }

  lemma ZonePartTransitive(x: Zone, y: Zone, z: Zone)
    requires HostBitFree(x) && HostBitFree(y) && HostBitFree(z) && ZonePart(x, y) && ZonePart(y, z)
    ensures ZonePart(x, z)
  {
    if x.Addr? && y.Net? {
      InNetIsInterval(x.addr, y);
      InNetIsInterval(x.addr, z);
    }
  }

  // ----- the address space

  lemma {:induction false} PowSum(a: nat, b: nat)
    ensures Pow2(a + b) == Pow2(a) * Pow2(b)
    decreases a
  {
    if a > 0 { PowSum(a - 1, b); }
  }

  /** An aligned block ends inside the address space. */
  lemma LastIsAddress(z: Zone)
    requires z.Net? && HostBitFree(z)
    ensures Last(z) < 0x1_0000_0000
  {
    var size := Pow2(32 - z.len);
    PowSum(z.len, 32 - z.len);
    WholeSpace();
    BlockFits(z.base, size, Pow2(z.len));
  }

  lemma Pow16()
    ensures Pow2(16) == 0x1_0000
  {
    assert Pow2(4) == 16;
    PowSum(4, 4);
    PowSum(8, 8);
  }

  lemma WholeSpace()
    ensures Pow2(32) == 0x1_0000_0000
  {
    Pow16();
    PowSum(16, 16);
  }

  lemma BlockFits(base: nat, size: nat, blocks: nat)
    requires size > 0 && base % size == 0 && base < blocks * size
    ensures base + size <= blocks * size
  {
    var q := base / size;
    assert base == q * size;
    if blocks <= q { ProductOrder(blocks, q, size); }
    ProductOrder(q + 1, blocks, size);
  }

  lemma ProductOrder(a: nat, b: nat, size: nat)
    requires a <= b
    ensures a * size <= b * size
  {
  }

  // ----- what the test decides

  /** A zone lies in another: in a network with every address it has, in an address as that address. */
  ghost predicate LiesIn(x: Zone, y: Zone) {
    match y
    case Addr(_) => x == y
    case Net(_, _) => forall a: Ip :: ZoneHas(x, a) ==> ZoneHas(y, a)
    case AnyZone => false
    case Domain(_) => false
  }

  /** The test on two zones is inclusion of addresses, sound and complete. */
  lemma ZonePartIff(x: Zone, y: Zone)
    requires IsIpv4(x) && IsIpv4(y) && HostBitFree(x) && HostBitFree(y)
    ensures ZonePart(x, y) <==> LiesIn(x, y)
  {
    if ZonePart(x, y) {
      forall a: Ip | ZoneHas(x, a) ensures ZoneHas(y, a) { ZonePartKeeps(x, y, a); }
    } else if y.Net? {
      if x.Addr? { assert ZoneHas(x, x.addr) && !ZoneHas(y, x.addr); } else { var a := OutlierOf(x, y); }
    }
  }

  /** One end of a network that does not lie between the ends of another. */
  lemma OutlierOf(x: Zone, y: Zone) returns (a: Ip)
    requires x.Net? && y.Net? && HostBitFree(x) && HostBitFree(y) && !ZonePart(x, y)
    ensures ZoneHas(x, a) && !ZoneHas(y, a)
  {
    LastIsAddress(x);
    a := if First(x) < First(y) || Last(y) < First(x) then First(x) else Last(x);
    InNetIsInterval(a, x);
    InNetIsInterval(a, y);
  }

  predicate MayCarry(e: Endpoint, q: Proto) {
    e.protocols.None? || e.protocols.value == [] || q in e.protocols.value
  }

  lemma ProtocolsPartIff(a: Endpoint, b: Endpoint)
    ensures ProtocolsPart(a, b) <==> forall q :: MayCarry(a, q) ==> MayCarry(b, q)
  {
    ProtocolsListed(a);
    ProtocolsListed(b);
    if forall q :: MayCarry(a, q) ==> MayCarry(b, q) {
      forall i | 0 <= i < |Protocols(a)| ensures Protocols(a)[i] in Protocols(b) {
        assert Protocols(a)[i] in Protocols(a);
        assert MayCarry(b, Protocols(a)[i]);
      }
    }
    if ProtocolsPart(a, b) {
      forall q | MayCarry(a, q) ensures MayCarry(b, q) {
        var i :| 0 <= i < |Protocols(a)| && Protocols(a)[i] == q;
      }
    }
  }

  lemma ProtocolsListed(e: Endpoint)
    ensures forall q :: q in Protocols(e) <==> MayCarry(e, q)
  {
    forall q: Proto ensures q in ALL_PROTOCOLS {
      assert ALL_PROTOCOLS[0] == Tcp && ALL_PROTOCOLS[1] == Udp && ALL_PROTOCOLS[2] == Icmp;
      match q case Tcp => case Udp => case Icmp =>
    }
  }

  ghost predicate LiesInSome(x: Zone, ys: seq<Zone>) { exists y :: y in ys && LiesIn(x, y) }

  lemma SomeZonePartIff(x: Zone, ys: seq<Zone>)
    requires IsIpv4(x) && HostBitFree(x) && forall i :: 0 <= i < |ys| ==> HostBitFree(ys[i])
    ensures SomeZonePart(x, ys) <==> LiesInSome(x, ys)
  {
    forall j | 0 <= j < |ys| ensures IsIpv4(ys[j]) && ZonePart(x, ys[j]) <==> LiesIn(x, ys[j]) {
      if IsIpv4(ys[j]) { ZonePartIff(x, ys[j]); }
    }
    if y :| y in ys && LiesIn(x, y) {
      var j :| 0 <= j < |ys| && ys[j] == y;
      assert IsIpv4(ys[j]) && ZonePart(x, ys[j]);
    }
  }

  lemma AddressesPartIff(a: Endpoint, b: Endpoint)
    requires Readable(a) && Readable(b) && Ipv4Only(a)
    ensures AddressesPart(a, b) <==> forall i :: 0 <= i < |a.zones| ==> LiesInSome(a.zones[i], b.zones)
  {
    forall i | 0 <= i < |a.zones| ensures SomeZonePart(a.zones[i], b.zones) <==> LiesInSome(a.zones[i], b.zones) {
      SomeZonePartIff(a.zones[i], b.zones);
    }
    assert forall i :: 0 <= i < |a.zones| ==> IsIpv4(a.zones[i]);
  }

  /** The whole test, on endpoints with addresses and networks only: it is positive if and only if the
      other endpoint has no interface or the same, and has every protocol, every zone and every port
      that this one has. */
  lemma PartOfIff(a: Endpoint, b: Endpoint, domainPart: (string, string) -> bool)
    requires Ipv4Only(a) && Readable(a) && Readable(b)
    ensures PartOf(a, b, domainPart).Ok?
    ensures PartOf(a, b, domainPart) == Ok(true) <==>
            && (b.iface.None? || a.iface == b.iface)
            && (forall q :: MayCarry(a, q) ==> MayCarry(b, q))
            && (forall i :: 0 <= i < |a.zones| ==> LiesInSome(a.zones[i], b.zones))
            && (forall p: Port :: MayUse(a, p) ==> MayUse(b, p))
  {
    ProtocolsPartIff(a, b);
    AddressesPartIff(a, b);
    PortsPartIff(a, b);
    assert DomainsPart(a, b, domainPart);
  }

  lemma PortsPartIff(a: Endpoint, b: Endpoint)
    ensures PortsMap(a) <= PortsMap(b) <==> forall p: Port :: MayUse(a, p) ==> MayUse(b, p)
  {
    assert forall p: Port :: p in PortsMap(a) <==> MayUse(a, p);
    assert forall p: Port :: p in PortsMap(b) <==> MayUse(b, p);
  }

  // ----- what a positive answer means

  /** The zones are addresses and networks only, at least one. */
  predicate Ipv4Only(e: Endpoint) {
    e.zones != [] && forall i :: 0 <= i < |e.zones| ==> IsIpv4(e.zones[i])
  }

  /** Traffic of one of the known protocols on one side of a flow. */
  predicate TrafficHas(e: Endpoint, q: Proto, iface: string, addr: Ip, port: Port) {
    q in Protocols(e) && SideHas(e, ProtoNumber(q), iface, addr, port)
  }

  lemma PortsKept(a: Endpoint, b: Endpoint, port: Port)
    requires PortsMap(a) <= PortsMap(b) && NamesPorts(b) && (NamesPorts(a) ==> PortListed(a.ports, a.ranges, port))
    ensures PortListed(b.ports, b.ranges, port)
  {
    assert port in PortsMap(a);
  }

  lemma AddressKept(a: Endpoint, b: Endpoint, addr: Ip)
    requires Readable(a) && Readable(b) && Ipv4Only(a) && AddressesPart(a, b) && SomeZoneHas(a.zones, addr)
    ensures SomeZoneHas(b.zones, addr)
  {
    var z :| z in a.zones && ZoneHas(z, addr);
    var i :| 0 <= i < |a.zones| && a.zones[i] == z;
    assert SomeZonePart(a.zones[i], b.zones);
    var j :| 0 <= j < |b.zones| && IsIpv4(b.zones[j]) && ZonePart(z, b.zones[j]);
    ZonePartKeeps(z, b.zones[j], addr);
    assert b.zones[j] in b.zones;
  }

  /** A positive answer puts all TCP and UDP traffic of the one endpoint in the other, and the ICMP
      traffic too unless the other lists ports. */
  lemma PartOfIsSound(a: Endpoint, b: Endpoint, domainPart: (string, string) -> bool, q: Proto, iface: string,
      addr: Ip, port: Port)
    requires Ipv4Only(a) && PartOf(a, b, domainPart) == Ok(true) && TrafficHas(a, q, iface, addr, port)
    requires !q.Icmp? || !NamesPorts(b)
    ensures TrafficHas(b, q, iface, addr, port)
  {
    AddressKept(a, b, addr);
    if NamesPorts(b) { PortsKept(a, b, port); }
  }

  ghost predicate Included(a: Endpoint, b: Endpoint) {
    forall q, iface, addr, port :: TrafficHas(a, q, iface, addr, port) ==> TrafficHas(b, q, iface, addr, port)
  }

  /** After a positive answer the traffic is included, exactly unless the first endpoint has ICMP
      traffic and only the second lists ports: port lists are compared as if every protocol had
      ports. */
  lemma PartOfMeansIncluded(a: Endpoint, b: Endpoint, domainPart: (string, string) -> bool)
    requires Ipv4Only(a) && PartOf(a, b, domainPart) == Ok(true)
    ensures Included(a, b) <==> !(Icmp in Protocols(a) && !NamesPorts(a) && NamesPorts(b))
  {
    if Icmp in Protocols(a) && !NamesPorts(a) && NamesPorts(b) {
      var z := a.zones[0];
      var addr: Ip := if z.Addr? then z.addr else z.base;
      assert z in a.zones && ZoneHas(z, addr);
      var iface := if a.iface.Some? then a.iface.value else "";
      assert TrafficHas(a, Icmp, iface, addr, 1) && !TrafficHas(b, Icmp, iface, addr, 1);
    } else {
      forall q, iface, addr, port: Port | TrafficHas(a, q, iface, addr, port)
        ensures TrafficHas(b, q, iface, addr, port)
      {
        PartOfIsSound(a, b, domainPart, q, iface, addr, port);
      }
    }
  }

  lemma PartOfReflexive(a: Endpoint, domainPart: (string, string) -> bool)
    requires Ipv4Only(a) && Readable(a)
    ensures PartOf(a, a, domainPart) == Ok(true)
  {
    forall i | 0 <= i < |a.zones| ensures SomeZonePart(a.zones[i], a.zones) {
      ZonePartReflexive(a.zones[i]);
    }
  }

  lemma PartOfTransitive(a: Endpoint, b: Endpoint, c: Endpoint, domainPart: (string, string) -> bool)
    requires Ipv4Only(a) && PartOf(a, b, domainPart) == Ok(true) && PartOf(b, c, domainPart) == Ok(true)
    ensures PartOf(a, c, domainPart) == Ok(true)
  {
    forall i | 0 <= i < |a.zones| ensures SomeZonePart(a.zones[i], c.zones) {
      ZoneTransitive(a.zones[i], b, c);
    }
    forall i | 0 <= i < |Protocols(a)| ensures Protocols(a)[i] in Protocols(c) {
      var j :| 0 <= j < |Protocols(b)| && Protocols(b)[j] == Protocols(a)[i];
    }
  }

  lemma ZoneTransitive(x: Zone, b: Endpoint, c: Endpoint)
    requires Readable(b) && Readable(c) && HostBitFree(x) && SomeZonePart(x, b.zones) && AddressesPart(b, c)
    ensures SomeZonePart(x, c.zones)
  {
    var j :| 0 <= j < |b.zones| && IsIpv4(b.zones[j]) && ZonePart(x, b.zones[j]);
    assert SomeZonePart(b.zones[j], c.zones);
    var k :| 0 <= k < |c.zones| && IsIpv4(c.zones[k]) && ZonePart(b.zones[j], c.zones[k]);
    ZonePartTransitive(x, b.zones[j], c.zones[k]);
  }

  // ----- divisibility

  lemma MultipleOf(q: nat, size: nat)
    requires size > 0
    ensures (q * size) % size == 0
  {
    QuotientIs(q, 0, size);
  }

  lemma DividesOn(a: nat, b: nat, c: nat)
    requires b > 0 && c > 0 && a % b == 0 && b % c == 0
    ensures a % c == 0
  {
    var q, r := a / b, b / c;
    assert a == q * b && b == r * c;
    assert a == (q * r) * c;
    MultipleOf(q * r, c);
  }
}
