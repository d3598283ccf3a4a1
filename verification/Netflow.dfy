/** Traffic flows of the firewall library: endpoints, flows, packets and the set of packets a
    flow stands for (`padsi/fwlib/netflow.py`). */
module Netflow {
  import opened Wrappers

  /** A list attribute holds at least one element or is absent. */
  function Present<T>(s: seq<T>): Option<seq<T>> { if s == [] then None else Some(s) }

  datatype Proto = Tcp | Udp | Icmp

  const MAX_PORT := 65535
  type Port = p: nat | 1 <= p <= MAX_PORT witness 1
  const MAX_INTERFACE := 15
  type Ip = a: nat | a < 0x1_0000_0000

  datatype PortRange = PortRange(lo: Port, hi: Port)

  /** `*`, an address, an address with a prefix length, or a domain name. */
  datatype Zone =
    | AnyZone
    | Addr(addr: Ip)
    | Net(base: Ip, len: nat)
    | Domain(name: string)

  datatype Endpoint = Endpoint(
    zones: seq<Zone>,
    iface: Option<string>,
    protocols: Option<seq<Proto>>,
    ports: Option<seq<Port>>,
    ranges: Option<seq<PortRange>>)

  datatype NetFlow = NetFlow(src: Endpoint, dest: Endpoint)

  datatype Packet = Packet(
    proto: nat, iif: string, oif: string,
    saddr: Ip, daddr: Ip, sport: nat, dport: nat,
    established: bool)

  // ----- what the constructors guarantee

  /** A list attribute is either absent or non-empty, an endpoint without a zone has an interface
      (otherwise the constructor puts `*`), and no interface name is too long. */
  predicate EndpointValid(e: Endpoint) {
    && (e.zones == [] ==> e.iface.Some?)
    && (e.iface.Some? ==> |e.iface.value| <= MAX_INTERFACE)
    && (forall z <- e.zones :: z.Net? ==> z.len <= 32)
    && (e.protocols.Some? ==> e.protocols.value != [])
    && (e.ports.Some? ==> e.ports.value != [])
    && (e.ranges.Some? ==> e.ranges.value != [] && forall r <- e.ranges.value :: r.lo < r.hi)
  }

  /** Both endpoints name the same protocols, or one names none. */
  predicate FlowValid(f: NetFlow) {
    && EndpointValid(f.src) && EndpointValid(f.dest)
    && (f.src.protocols.Some? && f.dest.protocols.Some? ==>
          multiset(f.src.protocols.value) == multiset(f.dest.protocols.value))
  }

  function FlowProtocols(f: NetFlow): Option<seq<Proto>> {
    if f.src.protocols.Some? then f.src.protocols else f.dest.protocols
  }

  // ----- the packets a flow stands for

  function ProtoNumber(p: Proto): nat {
    match p
    case Tcp => 6
    case Udp => 17
    case Icmp => 1
  }

  predicate HasPorts(n: nat) { n == 6 || n == 17 }

  function Pow2(k: nat): (r: nat)
    ensures r > 0
  {
    if k == 0 then 1 else 2 * Pow2(k - 1)
  }

  /** Same leading `len` bits out of 32. */
  predicate InNet(a: Ip, base: Ip, len: nat)
    requires len <= 32
  {
    a / Pow2(32 - len) == base / Pow2(32 - len)
  }

  predicate ZoneHas(z: Zone, a: Ip) {
    match z
    case AnyZone => true
    case Addr(x) => x == a
    case Net(b, l) => l <= 32 && InNet(a, b, l)
    case Domain(_) => false
  }

  predicate SomeZoneHas(zones: seq<Zone>, a: Ip) {
    exists z :: z in zones && ZoneHas(z, a)
  }

  predicate PortListed(ports: Option<seq<Port>>, ranges: Option<seq<PortRange>>, port: nat) {
    || (ports.Some? && exists i :: 0 <= i < |ports.value| && ports.value[i] == port)
    || (ranges.Some? && exists r :: r in ranges.value && r.lo <= port <= r.hi)
  }

  predicate NamesPorts(e: Endpoint) { e.ports.Some? || e.ranges.Some? }

  /** One side of a packet is in an endpoint; the protocols belong to the flow. */
  predicate SideHas(e: Endpoint, proto: nat, iface: string, addr: Ip, port: nat) {
    && (e.iface.Some? ==> e.iface.value == iface)
    && (e.zones != [] ==> SomeZoneHas(e.zones, addr))
    && (NamesPorts(e) ==> HasPorts(proto) && PortListed(e.ports, e.ranges, port))
  }

  predicate ProtocolsHave(ps: Option<seq<Proto>>, proto: nat) {
    ps.Some? ==> exists q :: q in ps.value && ProtoNumber(q) == proto
  }

  predicate FlowHas(f: NetFlow, p: Packet) {
    && ProtocolsHave(FlowProtocols(f), p.proto)
    && SideHas(f.src, p.proto, p.iif, p.saddr, p.sport)
    && SideHas(f.dest, p.proto, p.oif, p.daddr, p.dport)
  }

  // ----- splitting by protocol

  /** First occurrences, in order: the key order of a dictionary filled in a loop. */
  function Distinct(ps: seq<Proto>): (r: seq<Proto>)
    ensures forall q :: q in r <==> q in ps
    ensures ps != [] ==> r != []
  {
    if ps == [] then []
    else
      var init := Distinct(ps[..|ps| - 1]);
      var last := ps[|ps| - 1];
      assert forall q :: q in ps <==> q in ps[..|ps| - 1] || q == last;
      if last in init then init else init + [last]
  }

  function OnlyProtocol(e: Endpoint, q: Proto): Endpoint {
    if e.protocols.None? then e else e.(protocols := Some([q]))
  }

  function OneProtocol(f: NetFlow, q: Proto): NetFlow {
    NetFlow(OnlyProtocol(f.src, q), OnlyProtocol(f.dest, q))
  }

  function SplitByProtocol(f: NetFlow): seq<NetFlow> {
    var ps := FlowProtocols(f);
    if ps.None? || |ps.value| <= 1 then [f]
    else
      var ds := Distinct(ps.value);
      seq(|ds|, i requires 0 <= i < |ds| => OneProtocol(f, ds[i]))
  }

  /** Splitting keeps the packets: each one is in some piece exactly when it is in the flow. */
  lemma SplitKeepsPackets(f: NetFlow, p: Packet)
    requires FlowValid(f)
    ensures FlowHas(f, p) <==> exists i :: 0 <= i < |SplitByProtocol(f)| && FlowHas(SplitByProtocol(f)[i], p)
  {
    var ps, fs := FlowProtocols(f), SplitByProtocol(f);
    if ps.None? || |ps.value| <= 1 {
      assert fs[0] == f;
    } else {
      var ds := Distinct(ps.value);
      forall i | 0 <= i < |fs|
        ensures FlowHas(fs[i], p) <==> FlowHas(f, p) && ProtoNumber(ds[i]) == p.proto
      {
        OnePieceHas(f, ds[i], p);
      }
      if FlowHas(f, p) {
        var q :| q in ps.value && ProtoNumber(q) == p.proto;
        assert q in ds;
        var i :| 0 <= i < |ds| && ds[i] == q;
        assert FlowHas(fs[i], p);
      }
    }
  }

  lemma OnePieceHas(f: NetFlow, q: Proto, p: Packet)
    requires FlowProtocols(f).Some? && q in FlowProtocols(f).value
    ensures FlowProtocols(OneProtocol(f, q)) == Some([q])
    ensures FlowHas(OneProtocol(f, q), p) <==> FlowHas(f, p) && ProtoNumber(q) == p.proto
  {
    var g := OneProtocol(f, q);
    assert SideHas(g.src, p.proto, p.iif, p.saddr, p.sport) == SideHas(f.src, p.proto, p.iif, p.saddr, p.sport);
    assert SideHas(g.dest, p.proto, p.oif, p.daddr, p.dport) == SideHas(f.dest, p.proto, p.oif, p.daddr, p.dport);
    assert [q][0] == q;
  }
}
