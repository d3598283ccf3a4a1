/** From a flow to the match arguments of one nft rule (`padsi/fwlib/nft.py`), and what those
    arguments match. */
module NftCompile {
  import opened Wrappers
  import opened Netflow

  /** One match expression of an nft rule. */
  datatype Match =
    | IpProtocol(proto: Proto)
    | MetaIif(name: string)
    | MetaOif(name: string)
    | IpSaddr(zones: seq<Zone>)
    | IpDaddr(zones: seq<Zone>)
    | Sport(proto: Proto, ports: Option<seq<Port>>, ranges: Option<seq<PortRange>>)
    | Dport(proto: Proto, ports: Option<seq<Port>>, ranges: Option<seq<PortRange>>)
    | CtRelated

  predicate MatchHas(m: Match, p: Packet) {
    match m
    case IpProtocol(q) => p.proto == ProtoNumber(q)
    case MetaIif(n) => p.iif == n
    case MetaOif(n) => p.oif == n
    case IpSaddr(zs) => SomeZoneHas(zs, p.saddr)
    case IpDaddr(zs) => SomeZoneHas(zs, p.daddr)
    case Sport(q, ps, rs) => p.proto == ProtoNumber(q) && PortListed(ps, rs, p.sport)
    case Dport(q, ps, rs) => p.proto == ProtoNumber(q) && PortListed(ps, rs, p.dport)
    case CtRelated => p.established
  }

  predicate AllMatch(ms: seq<Match>, p: Packet) {
    forall m <- ms :: MatchHas(m, p)
  }

  // ----- compilation

  /** The nft tool takes only addresses and prefixes inside an address set. */
  predicate NftTakesZones(e: Endpoint) {
    e.zones == [AnyZone] || forall z <- e.zones :: z.Addr? || z.Net?
  }

  /** Reading the ports of an endpoint that names none of the protocols raises; port ranges are
      not checked. */
  predicate PortsReadable(e: Endpoint) { e.ports.Some? ==> e.protocols.Some? }

  predicate PortsAllowed(f: NetFlow, protos: Option<seq<Proto>>) {
    (NamesPorts(f.src) || NamesPorts(f.dest)) && protos.Some? ==>
      forall q <- protos.value :: q.Tcp? || q.Udp?
  }

  /** No exception is raised for a flow of at most one protocol. */
  predicate Compilable(f: NetFlow) {
    var protos := FlowProtocols(f);
    && (protos.Some? ==> |protos.value| == 1)
    && PortsReadable(f.src) && PortsReadable(f.dest)
    && PortsAllowed(f, protos)
    && NftTakesZones(f.src) && NftTakesZones(f.dest)
  }

  /** One optional argument. */
  function Opt(c: bool, m: Match): seq<Match> { if c then [m] else [] }

  function IfaceArg(e: Endpoint): string { if e.iface.Some? then e.iface.value else "" }

  predicate NamesAddresses(e: Endpoint) { e.zones != [] && e.zones != [AnyZone] }

  predicate ProtocolsNonEmpty(f: NetFlow) { FlowProtocols(f).Some? ==> FlowProtocols(f).value != [] }

  function ProtoArg(f: NetFlow): Proto
    requires ProtocolsNonEmpty(f)
  {
    if FlowProtocols(f).Some? then FlowProtocols(f).value[0] else Icmp
  }

  function HeadArgs(f: NetFlow): seq<Match>
    requires ProtocolsNonEmpty(f)
  {
    Opt(FlowProtocols(f).Some?, IpProtocol(ProtoArg(f)))
    + Opt(f.src.iface.Some?, MetaIif(IfaceArg(f.src)))
    + Opt(f.dest.iface.Some?, MetaOif(IfaceArg(f.dest)))
  }

  function AddrArgs(f: NetFlow): seq<Match> {
    Opt(NamesAddresses(f.src), IpSaddr(f.src.zones)) + Opt(NamesAddresses(f.dest), IpDaddr(f.dest.zones))
  }

  function PortArgs(f: NetFlow): seq<Match>
    requires ProtocolsNonEmpty(f)
  {
    var named := FlowProtocols(f).Some?;
    Opt(named && NamesPorts(f.src), Sport(ProtoArg(f), f.src.ports, f.src.ranges))
    + Opt(named && NamesPorts(f.dest), Dport(ProtoArg(f), f.dest.ports, f.dest.ranges))
  }

  /** The arguments of a rule, in the order the source appends them. */
  function NftArgs(f: NetFlow): seq<Match>
    requires Compilable(f)
  {
    HeadArgs(f) + AddrArgs(f) + PortArgs(f)
  }

  /** The argument list grows statement by statement; a raised exception is `Err`. */
  method NetflowToNftArgs(f: NetFlow) returns (r: Result<seq<Match>>)
    requires FlowValid(f)
    ensures r.Ok? <==> Compilable(f)
    ensures r.Ok? ==> r.value == NftArgs(f)
    ensures r.Ok? <==>
            && (f.src.zones == [AnyZone] || forall z <- f.src.zones :: z.Addr? || z.Net?)
            && (f.dest.zones == [AnyZone] || forall z <- f.dest.zones :: z.Addr? || z.Net?)
            && (f.src.ports.Some? ==> f.src.protocols.Some?) && (f.dest.ports.Some? ==> f.dest.protocols.Some?)
            && (FlowProtocols(f).Some? ==>
                  && |FlowProtocols(f).value| == 1
                  && (f.src.ports.Some? || f.src.ranges.Some? || f.dest.ports.Some? || f.dest.ranges.Some? ==>
                        FlowProtocols(f).value[0] == Tcp || FlowProtocols(f).value[0] == Udp))
  {
    var args: seq<Match> := [];
    var protos := FlowProtocols(f);
    if protos.Some? && |protos.value| > 1 { return Err; }
    var head := HeadArguments(f, protos);
    args := args + head;
    if f.src.zones != [] && f.src.zones != [AnyZone] { args := args + [IpSaddr(f.src.zones)]; }
    if f.dest.zones != [] && f.dest.zones != [AnyZone] { args := args + [IpDaddr(f.dest.zones)]; }
    assert args == HeadArgs(f) + AddrArgs(f);
    var ports := PortArguments(f, protos);
    if ports.Err? || !NftTakesZones(f.src) || !NftTakesZones(f.dest) { return Err; }
    return Ok(args + ports.value);
  }

  method HeadArguments(f: NetFlow, protos: Option<seq<Proto>>) returns (args: seq<Match>)
    requires protos == FlowProtocols(f) && (protos.Some? ==> |protos.value| == 1)
    ensures args == HeadArgs(f)
  {
    args := [];
    if protos.Some? { args := args + [IpProtocol(protos.value[0])]; }
    if f.src.iface.Some? { args := args + [MetaIif(f.src.iface.value)]; }
    if f.dest.iface.Some? { args := args + [MetaOif(f.dest.iface.value)]; }
  }

  method PortArguments(f: NetFlow, protos: Option<seq<Proto>>) returns (r: Result<seq<Match>>)
    requires protos == FlowProtocols(f) && (protos.Some? ==> |protos.value| == 1)
    ensures r.Ok? <==> PortsReadable(f.src) && PortsReadable(f.dest) && PortsAllowed(f, protos)
    ensures r.Ok? ==> r.value == PortArgs(f)
  {
    var args: seq<Match> := [];
    if f.src.ports.Some? && f.src.protocols.None? { return Err; }
    if NamesPorts(f.src) && protos.Some? {
      var q := protos.value[0];
      assert q in protos.value;
      if q.Icmp? { return Err; }
      args := args + [Sport(q, f.src.ports, f.src.ranges)];
    }
    if f.dest.ports.Some? && f.dest.protocols.None? { return Err; }
    if NamesPorts(f.dest) && protos.Some? {
      var q := protos.value[0];
      assert q in protos.value;
      if q.Icmp? { return Err; }
      args := args + [Dport(q, f.dest.ports, f.dest.ranges)];
    }
    return Ok(args);
  }

  // ----- what the arguments mean

  /** What a compiled flow matches: port ranges of a flow without protocol are dropped. */
  function Effective(f: NetFlow): NetFlow {
    if FlowProtocols(f).Some? then f
    else NetFlow(f.src.(ports := None, ranges := None), f.dest.(ports := None, ranges := None))
  }

  lemma OptAll(c: bool, m: Match, p: Packet)
    ensures AllMatch(Opt(c, m), p) <==> (c ==> MatchHas(m, p))
  {
    if c { assert m in Opt(c, m); }
  }

  lemma ConcatAll(a: seq<Match>, b: seq<Match>, p: Packet)
    ensures AllMatch(a + b, p) <==> AllMatch(a, p) && AllMatch(b, p)
  {
    forall m | m in a || m in b ensures m in a + b {}
  }

  lemma PairAll(c1: bool, m1: Match, c2: bool, m2: Match, p: Packet)
    ensures AllMatch(Opt(c1, m1) + Opt(c2, m2), p) <==> (c1 ==> MatchHas(m1, p)) && (c2 ==> MatchHas(m2, p))
  {
    ConcatAll(Opt(c1, m1), Opt(c2, m2), p);
    OptAll(c1, m1, p);
    OptAll(c2, m2, p);
  }

  lemma HeadMeans(f: NetFlow, p: Packet)
    requires Compilable(f)
    ensures AllMatch(HeadArgs(f), p) <==>
            && ProtocolsHave(FlowProtocols(f), p.proto)
            && (f.src.iface.Some? ==> f.src.iface.value == p.iif)
            && (f.dest.iface.Some? ==> f.dest.iface.value == p.oif)
  {
    var protos := FlowProtocols(f);
    var m1, m2, m3 := IpProtocol(ProtoArg(f)), MetaIif(IfaceArg(f.src)), MetaOif(IfaceArg(f.dest));
    PairAll(protos.Some?, m1, f.src.iface.Some?, m2, p);
    OptAll(f.dest.iface.Some?, m3, p);
    ConcatAll(Opt(protos.Some?, m1) + Opt(f.src.iface.Some?, m2), Opt(f.dest.iface.Some?, m3), p);
    if protos.Some? { assert protos.value == [ProtoArg(f)] && ProtoArg(f) in protos.value; }
  }

  lemma AddrMeans(f: NetFlow, p: Packet)
    ensures AllMatch(AddrArgs(f), p) <==>
            && (f.src.zones != [] ==> SomeZoneHas(f.src.zones, p.saddr))
            && (f.dest.zones != [] ==> SomeZoneHas(f.dest.zones, p.daddr))
  {
    PairAll(NamesAddresses(f.src), IpSaddr(f.src.zones), NamesAddresses(f.dest), IpDaddr(f.dest.zones), p);
    AnyZoneHasAll(f.src.zones, p.saddr);
    AnyZoneHasAll(f.dest.zones, p.daddr);
  }

  lemma PortMeans(f: NetFlow, p: Packet)
    requires Compilable(f)
    ensures ProtocolsHave(FlowProtocols(f), p.proto) ==>
            (AllMatch(PortArgs(f), p) <==>
              (FlowProtocols(f).Some? ==>
                && (NamesPorts(f.src) ==> HasPorts(p.proto) && PortListed(f.src.ports, f.src.ranges, p.sport))
                && (NamesPorts(f.dest) ==> HasPorts(p.proto) && PortListed(f.dest.ports, f.dest.ranges, p.dport))))
  {
    var named, q := FlowProtocols(f).Some?, ProtoArg(f);
    PairAll(named && NamesPorts(f.src), Sport(q, f.src.ports, f.src.ranges),
            named && NamesPorts(f.dest), Dport(q, f.dest.ports, f.dest.ranges), p);
    if named { assert FlowProtocols(f).value == [q] && q in FlowProtocols(f).value; }
  }

  /** The arguments match a packet exactly when the flow, as compiled, has it. */
  lemma ArgsMean(f: NetFlow, p: Packet)
    requires Compilable(f)
    ensures AllMatch(NftArgs(f), p) <==> FlowHas(Effective(f), p)
  {
    HeadMeans(f, p);
    AddrMeans(f, p);
    PortMeans(f, p);
    ConcatAll(HeadArgs(f), AddrArgs(f), p);
    ConcatAll(HeadArgs(f) + AddrArgs(f), PortArgs(f), p);
    assert FlowProtocols(Effective(f)) == FlowProtocols(f);
  }

  lemma AnyZoneHasAll(zones: seq<Zone>, a: Ip)
    ensures zones == [AnyZone] ==> SomeZoneHas(zones, a)
  {
    if zones == [AnyZone] { assert zones[0] == AnyZone && ZoneHas(zones[0], a); }
  }

  /** The compiled arguments match exactly the packets of the flow, if and only if the flow does
      not give port ranges without naming a protocol: in that case an ICMP packet slips in. */
  lemma CompileExact(f: NetFlow)
    requires FlowValid(f) && Compilable(f)
    ensures (forall p :: AllMatch(NftArgs(f), p) <==> FlowHas(f, p)) <==>
            !(FlowProtocols(f).None? && (f.src.ranges.Some? || f.dest.ranges.Some?))
  {
    forall p ensures AllMatch(NftArgs(f), p) <==> FlowHas(Effective(f), p) { ArgsMean(f, p); }
    if FlowProtocols(f).None? && (f.src.ranges.Some? || f.dest.ranges.Some?) {
      var p := IcmpPacket(f);
      assert !FlowHas(f, p);
      assert FlowHas(Effective(f), p);
    } else {
      assert Effective(f) == f;
    }
  }

  /** An ICMP packet with the addresses and interfaces of a flow. */
  lemma IcmpPacket(f: NetFlow) returns (p: Packet)
    requires FlowValid(f) && Compilable(f) && FlowProtocols(f).None?
    ensures p.proto == 1 && FlowHas(Effective(f), p)
  {
    var s := ZoneMember(f.src);
    var d := ZoneMember(f.dest);
    p := Packet(1, if f.src.iface.Some? then f.src.iface.value else "",
                if f.dest.iface.Some? then f.dest.iface.value else "", s, d, 0, 0, false);
  }

  lemma ZoneMember(e: Endpoint) returns (a: Ip)
    requires EndpointValid(e) && NftTakesZones(e)
    ensures e.zones != [] ==> SomeZoneHas(e.zones, a)
  {
    if e.zones == [] { return 0; }
    var z := e.zones[0];
    a := if z.Addr? then z.addr else if z.Net? then z.base else 0;
    assert z in e.zones && ZoneHas(z, a);
  }

  /** Compiled flows never look at connection tracking. */
  lemma ArgsHaveNoCt(f: NetFlow)
    requires Compilable(f)
    ensures CtRelated !in NftArgs(f)
  {
    assert CtRelated !in HeadArgs(f);
    assert CtRelated !in AddrArgs(f);
    assert CtRelated !in PortArgs(f);
  }
}
