/** Decompiling undoes compiling: the flow rebuilt from the listing of a compiled flow, and exactly
    when it equals the flow compiled. */
module Recover {
  import opened Wrappers
  import opened Netflow
  import opened NftCompile
  import opened Decompile

  // ----- how nft lists a compiled rule

  function Masked(base: Ip, len: nat): Ip {
    var size := if len <= 32 then Pow2(32 - len) else 1;
    MaskedFits(base, size);
    base / size * size
  }

  lemma MaskedFits(base: nat, size: nat)
    requires size > 0
    ensures 0 <= base / size * size <= base
  {
  }

  /** A set of one address is listed as that address, with its host bits cleared, and a prefix of
      32 bits as an address. */
  function ShapeOf(zones: seq<Zone>): AddrShape {
    if |zones| != 1 then AddrSet
    else match zones[0]
      case Addr(a) => Plain(a)
      case Net(b, l) => if l == 32 then Plain(b) else Prefix(Masked(b, l), l)
      case AnyZone => AddrSet
      case Domain(_) => AddrSet
  }

  function ItemsOf(shape: PortShape): seq<PortItem> {
    match shape
    case Single(p) => [One(p)]
    case PortSet(items) => items
    case BareSpan(lo, hi) => [Span(lo, hi)]
  }

  predicate NoDuplicates<T(==)>(s: seq<T>) { forall i, j :: 0 <= i < j < |s| ==> s[i] != s[j] }

  /** The listed ports are those of the match, each once, in any order. */
  ghost predicate Lists(shape: PortShape, ports: Option<seq<Port>>, ranges: Option<seq<PortRange>>) {
    var items := ItemsOf(shape);
    && NoDuplicates(items)
    && (forall p :: One(p) in items <==> ports.Some? && p in ports.value)
    && (forall lo, hi :: Span(lo, hi) in items <==> ranges.Some? && PortRange(lo, hi) in ranges.value)
  }

  /** The choices nft has when it lists a rule: to leave out the protocol match that a port match
      makes redundant, the order of the ports, and to list a lone port or range without a set. */
  datatype Choice = Choice(keep: bool, source: PortShape, dest: PortShape)

  function ListOne(m: Match, c: Choice): seq<Listed> {
    match m
    case IpProtocol(q) => if c.keep then [Protocol(q)] else []
    case MetaIif(n) => [Iif(n)]
    case MetaOif(n) => [Oif(n)]
    case IpSaddr(zs) => [Saddr(ShapeOf(zs))]
    case IpDaddr(zs) => [Daddr(ShapeOf(zs))]
    case Sport(q, _, _) => [SourcePorts(q, c.source)]
    case Dport(q, _, _) => [DestPorts(q, c.dest)]
    case CtRelated => [Unhandled]
  }

  function Listing(args: seq<Match>, c: Choice): seq<Listed> {
    if args == [] then [] else ListOne(args[0], c) + Listing(args[1..], c)
  }

  /** The choice suits the flow: the protocol match goes only with a port match, and the ports are
      the flow's. */
  ghost predicate Suits(c: Choice, f: NetFlow) {
    && (c.keep || NamesPorts(f.src) || NamesPorts(f.dest))
    && (NamesPorts(f.src) ==> Lists(c.source, f.src.ports, f.src.ranges))
    && (NamesPorts(f.dest) ==> Lists(c.dest, f.dest.ports, f.dest.ranges))
  }

  // ----- rebuilding

  function Rebuild(ms: seq<Listed>, g: NetFlow): Result<Option<NetFlow>> {
    if ms == [] then Ok(Some(g))
    else
      var c := Complemented(g, ms[0]);
      if c.Err? || c.value.None? then c else Rebuild(ms[1..], c.value.value)
  }

  lemma {:induction false} RebuildConcat(a: seq<Listed>, b: seq<Listed>, g: NetFlow)
    ensures var r := Rebuild(a, g);
            Rebuild(a + b, g) == if r.Err? || r.value.None? then r else Rebuild(b, r.value.value)
    decreases a
  {
    if a == [] {
      assert a + b == b;
    } else {
      assert (a + b)[1..] == a[1..] + b;
      var c := Complemented(g, a[0]);
      if c.Ok? && c.value.Some? { RebuildConcat(a[1..], b, c.value.value); }
    }
  }

  lemma {:induction false} ListingConcat(a: seq<Match>, b: seq<Match>, c: Choice)
    ensures Listing(a + b, c) == Listing(a, c) + Listing(b, c)
    decreases a
  {
    if a == [] {
      assert a + b == b;
    } else {
      assert (a + b)[1..] == a[1..] + b;
      ListingConcat(a[1..], b, c);
    }
  }

  lemma ListingOpt(on: bool, m: Match, c: Choice)
    ensures Listing(Opt(on, m), c) == if on then ListOne(m, c) else []
  {
    if on { assert Listing([m][1..], c) == []; }
  }

  /** One optional argument, listed as at most one match. */
  lemma RebuildOpt(on: bool, m: Match, c: Choice, g: NetFlow)
    ensures Rebuild(Listing(Opt(on, m), c), g) ==
            if on && ListOne(m, c) != [] then Complemented(g, ListOne(m, c)[0]) else Ok(Some(g))
  {
    ListingOpt(on, m, c);
    if on && ListOne(m, c) != [] {
      var l := ListOne(m, c);
      assert l[1..] == [];
    }
  }

  lemma RebuildMore(a: seq<Match>, b: seq<Match>, c: Choice, g: NetFlow, h: NetFlow)
    requires Rebuild(Listing(a, c), g) == Ok(Some(h))
    ensures Rebuild(Listing(a + b, c), g) == Rebuild(Listing(b, c), h)
  {
    ListingConcat(a, b, c);
    RebuildConcat(Listing(a, c), Listing(b, c), g);
  }

  // ----- the three stages

  function KeptProtocols(f: NetFlow, c: Choice): Option<seq<Proto>> {
    if c.keep then FlowProtocols(f) else None
  }

  function StartZones(e: Endpoint): seq<Zone> { if e.iface.Some? then [] else [AnyZone] }

  function Started(e: Endpoint, ps: Option<seq<Proto>>): Endpoint {
    Endpoint(StartZones(e), e.iface, ps, None, None)
  }

  lemma ProtocolRebuilt(f: NetFlow, c: Choice)
    requires Compilable(f)
    ensures var ps := KeptProtocols(f, c);
            Rebuild(Listing(Opt(FlowProtocols(f).Some?, IpProtocol(ProtoArg(f))), c), NetFlow(EMPTY, EMPTY)) ==
            Ok(Some(NetFlow(EMPTY.(protocols := ps), EMPTY.(protocols := ps))))
  {
    var protos := FlowProtocols(f);
    if protos.Some? { assert protos.value == [ProtoArg(f)]; }
    RebuildOpt(protos.Some?, IpProtocol(ProtoArg(f)), c, NetFlow(EMPTY, EMPTY));
  }

  lemma InterfacesRebuilt(f: NetFlow, c: Choice, ps: Option<seq<Proto>>)
    requires FlowValid(f)
    ensures Rebuild(Listing(Opt(f.src.iface.Some?, MetaIif(IfaceArg(f.src))), c),
                    NetFlow(EMPTY.(protocols := ps), EMPTY.(protocols := ps))) ==
            Ok(Some(NetFlow(Started(f.src, ps), EMPTY.(protocols := ps))))
    ensures Rebuild(Listing(Opt(f.dest.iface.Some?, MetaOif(IfaceArg(f.dest))), c),
                    NetFlow(Started(f.src, ps), EMPTY.(protocols := ps))) ==
            Ok(Some(NetFlow(Started(f.src, ps), Started(f.dest, ps))))
  {
    RebuildOpt(f.src.iface.Some?, MetaIif(IfaceArg(f.src)), c,
      NetFlow(EMPTY.(protocols := ps), EMPTY.(protocols := ps)));
    RebuildOpt(f.dest.iface.Some?, MetaOif(IfaceArg(f.dest)), c, NetFlow(Started(f.src, ps), EMPTY.(protocols := ps)));
  }

  lemma HeadRebuilt(f: NetFlow, c: Choice)
    requires FlowValid(f) && Compilable(f)
    ensures var ps := KeptProtocols(f, c);
            Rebuild(Listing(HeadArgs(f), c), NetFlow(EMPTY, EMPTY)) ==
              Ok(Some(NetFlow(Started(f.src, ps), Started(f.dest, ps))))
  {
    var ps, start := KeptProtocols(f, c), NetFlow(EMPTY, EMPTY);
    var o1 := Opt(FlowProtocols(f).Some?, IpProtocol(ProtoArg(f)));
    var o2 := Opt(f.src.iface.Some?, MetaIif(IfaceArg(f.src)));
    var o3 := Opt(f.dest.iface.Some?, MetaOif(IfaceArg(f.dest)));
    ProtocolRebuilt(f, c);
    InterfacesRebuilt(f, c, ps);
    RebuildMore(o1, o2, c, start, NetFlow(EMPTY.(protocols := ps), EMPTY.(protocols := ps)));
    RebuildMore(o1 + o2, o3, c, start, NetFlow(Started(f.src, ps), EMPTY.(protocols := ps)));
  }

  /** The zone an endpoint's addresses come back as. */
  function ZonesBack(e: Endpoint): Result<seq<Zone>>
    requires EndpointValid(e)
  {
    if !NamesAddresses(e) then Ok(StartZones(e))
    else
      var z := ZoneOf(ShapeOf(e.zones));
      if z.Err? then Err else Ok([z.value])
  }

  function Addressed(e: Endpoint, ps: Option<seq<Proto>>): Endpoint
    requires EndpointValid(e) && ZonesBack(e).Ok?
  {
    Started(e, ps).(zones := ZonesBack(e).value)
  }

  lemma AddressBack(e: Endpoint, ps: Option<seq<Proto>>)
    requires EndpointValid(e) && NamesAddresses(e)
    ensures var r := WithAddress(Started(e, ps), ShapeOf(e.zones));
            if ZonesBack(e).Ok? then r == Ok(Addressed(e, ps)) else r.Err?
  {
    var z := ZoneOf(ShapeOf(e.zones));
    if z.Ok? { assert z.value != AnyZone && [] + [z.value] == [z.value]; }
  }

  lemma SourceAddressed(e: Endpoint, c: Choice, ps: Option<seq<Proto>>, dest: Endpoint)
    requires EndpointValid(e)
    ensures var r := Rebuild(Listing(Opt(NamesAddresses(e), IpSaddr(e.zones)), c), NetFlow(Started(e, ps), dest));
            if ZonesBack(e).Ok? then r == Ok(Some(NetFlow(Addressed(e, ps), dest))) else r.Err?
  {
    RebuildOpt(NamesAddresses(e), IpSaddr(e.zones), c, NetFlow(Started(e, ps), dest));
    if NamesAddresses(e) { AddressBack(e, ps); }
  }

  lemma DestAddressed(e: Endpoint, c: Choice, ps: Option<seq<Proto>>, src: Endpoint)
    requires EndpointValid(e)
    ensures var r := Rebuild(Listing(Opt(NamesAddresses(e), IpDaddr(e.zones)), c), NetFlow(src, Started(e, ps)));
            if ZonesBack(e).Ok? then r == Ok(Some(NetFlow(src, Addressed(e, ps)))) else r.Err?
  {
    RebuildOpt(NamesAddresses(e), IpDaddr(e.zones), c, NetFlow(src, Started(e, ps)));
    if NamesAddresses(e) { AddressBack(e, ps); }
  }

  lemma AddrRebuilt(f: NetFlow, c: Choice, ps: Option<seq<Proto>>)
    requires FlowValid(f)
    ensures var r := Rebuild(Listing(AddrArgs(f), c), NetFlow(Started(f.src, ps), Started(f.dest, ps)));
            if ZonesBack(f.src).Ok? && ZonesBack(f.dest).Ok?
            then r == Ok(Some(NetFlow(Addressed(f.src, ps), Addressed(f.dest, ps))))
            else r.Err?
  {
    var a1, a2 := Opt(NamesAddresses(f.src), IpSaddr(f.src.zones)), Opt(NamesAddresses(f.dest), IpDaddr(f.dest.zones));
    ListingConcat(a1, a2, c);
    RebuildConcat(Listing(a1, c), Listing(a2, c), NetFlow(Started(f.src, ps), Started(f.dest, ps)));
    SourceAddressed(f.src, c, ps, Started(f.dest, ps));
    if ZonesBack(f.src).Ok? { DestAddressed(f.dest, c, ps, Addressed(f.src, ps)); }
  }

  // ----- ports come back

  function Ones(items: seq<PortItem>): seq<Port> {
    if items == [] then []
    else
      var last := items[|items| - 1];
      Ones(items[..|items| - 1]) + if last.One? then [last.port] else []
  }

  function Spans(items: seq<PortItem>): seq<PortRange> {
    if items == [] then []
    else
      var last := items[|items| - 1];
      Spans(items[..|items| - 1]) + if last.Span? then [PortRange(last.lo, last.hi)] else []
  }

  lemma {:induction false} OnesAre(items: seq<PortItem>, p: Port)
    ensures p in Ones(items) <==> One(p) in items
    decreases items
  {
    if items != [] {
      OnesAre(items[..|items| - 1], p);
      assert items == items[..|items| - 1] + [items[|items| - 1]];
    }
  }

  lemma {:induction false} SpansAre(items: seq<PortItem>, r: PortRange)
    ensures r in Spans(items) <==> Span(r.lo, r.hi) in items
    decreases items
  {
    if items != [] {
      SpansAre(items[..|items| - 1], r);
      assert items == items[..|items| - 1] + [items[|items| - 1]];
    }
  }

  predicate Proper(items: seq<PortItem>) {
    forall i :: 0 <= i < |items| && items[i].Span? ==> items[i].lo < items[i].hi
  }

  lemma LastIsNew(items: seq<PortItem>)
    requires items != [] && NoDuplicates(items)
    ensures items[|items| - 1] !in items[..|items| - 1]
  {
  }

  /** Adding the listed ports to an endpoint that has none gives them back in their order. */
  lemma {:induction false} ItemsBack(e: Endpoint, items: seq<PortItem>)
    requires NoDuplicates(items) && Proper(items) && e.ports == None && e.ranges == None
    ensures WithItems(e, items) == Ok(e.(ports := Present(Ones(items)), ranges := Present(Spans(items))))
    ensures NoDuplicates(Ones(items)) && NoDuplicates(Spans(items))
    decreases items
  {
    if items != [] {
      var init, last := items[..|items| - 1], items[|items| - 1];
      ItemsBack(e, init);
      LastIsNew(items);
      if last.One? {
        OnesAre(init, last.port);
        PortBack(e.(ranges := Present(Spans(init))), Ones(init), last.port);
        assert Spans(items) == Spans(init);
      } else {
        SpansAre(init, PortRange(last.lo, last.hi));
        RangeBack(e.(ports := Present(Ones(init))), Spans(init), last.lo, last.hi);
        assert Ones(items) == Ones(init);
      }
    }
  }

  lemma PortBack(e: Endpoint, ports: seq<Port>, p: Port)
    requires p !in ports
    ensures WithPort(e.(ports := Present(ports)), p) == e.(ports := Present(ports + [p]))
  {
    assert [] + [p] == [p];
  }

  lemma RangeBack(e: Endpoint, ranges: seq<PortRange>, lo: Port, hi: Port)
    requires lo < hi && PortRange(lo, hi) !in ranges
    ensures WithRange(e.(ranges := Present(ranges)), lo, hi) == Ok(e.(ranges := Present(ranges + [PortRange(lo, hi)])))
  {
    assert [] + [PortRange(lo, hi)] == [PortRange(lo, hi)];
  }

  lemma ShapeBack(e: Endpoint, q: Proto, shape: PortShape)
    requires NoDuplicates(ItemsOf(shape)) && Proper(ItemsOf(shape)) && e.ports == None && e.ranges == None &&
             !shape.BareSpan?
    ensures WithPorts(e, q, shape) ==
            Ok(WithProtocol(e, q).(ports := Present(Ones(ItemsOf(shape))), ranges := Present(Spans(ItemsOf(shape)))))
  {
    var items := ItemsOf(shape);
    ItemsBack(WithProtocol(e, q), items);
    if shape.Single? {
      assert items[..0] == [] && Ones([]) == [] && Spans([]) == [];
      assert Ones(items) == [shape.port] && Spans(items) == [];
    }
  }

  lemma {:induction false} CountNoDuplicates<T>(s: seq<T>, x: T)
    requires NoDuplicates(s)
    ensures multiset(s)[x] == if x in s then 1 else 0
    decreases s
  {
    if s != [] {
      CountNoDuplicates(s[1..], x);
      assert s == [s[0]] + s[1..];
    }
  }

  lemma CountTwice<T>(s: seq<T>, i: nat, j: nat)
    requires i < j < |s| && s[i] == s[j]
    ensures multiset(s)[s[i]] >= 2
  {
    assert s == s[..j] + s[j..];
    assert s[i] in s[..j] && s[j] in s[j..];
  }

  /** Lists with the same members, one of them without duplicates, hold them equally often exactly
      when the other has no duplicates. */
  lemma SameMembers<T>(s: seq<T>, t: seq<T>)
    requires NoDuplicates(s) && forall x :: x in s <==> x in t
    ensures multiset(s) == multiset(t) <==> NoDuplicates(t)
  {
    if NoDuplicates(t) {
      forall x ensures multiset(s)[x] == multiset(t)[x] {
        CountNoDuplicates(s, x);
        CountNoDuplicates(t, x);
      }
    } else {
      var i, j :| 0 <= i < j < |t| && t[i] == t[j];
      CountTwice(t, i, j);
      CountNoDuplicates(s, t[i]);
    }
  }

  predicate OnceEach<T(==)>(s: Option<seq<T>>) { s.Some? ==> NoDuplicates(s.value) }

  lemma PortsSame(e: Endpoint, shape: PortShape)
    requires EndpointValid(e) && Lists(shape, e.ports, e.ranges)
    ensures SameElements(e.ports, Present(Ones(ItemsOf(shape)))) <==> OnceEach(e.ports)
    ensures SameElements(e.ranges, Present(Spans(ItemsOf(shape)))) <==> OnceEach(e.ranges)
    ensures Proper(ItemsOf(shape))
  {
    var items := ItemsOf(shape);
    forall p: Port ensures p in Ones(items) <==> One(p) in items { OnesAre(items, p); }
    forall r ensures r in Spans(items) <==> Span(r.lo, r.hi) in items { SpansAre(items, r); }
    forall i | 0 <= i < |items| && items[i].Span? ensures items[i].lo < items[i].hi {
      assert items[i] in items;
    }
    ItemsBack(EMPTY, items);
    OptionSame(Ones(items), e.ports);
    OptionSame(Spans(items), e.ranges);
  }

  lemma OptionSame<T>(s: seq<T>, t: Option<seq<T>>)
    requires NoDuplicates(s) && (t.Some? ==> t.value != []) && forall x :: x in s <==> t.Some? && x in t.value
    ensures SameElements(t, Present(s)) <==> OnceEach(t)
  {
    if t.Some? {
      assert t.value[0] in s;
      SameMembers(s, t.value);
    } else {
      forall x ensures multiset(s)[x] == 0 { assert x !in s; }
      assert multiset(s) == multiset{};
      assert |s| == |multiset(s)|;
    }
  }

  // ----- the whole flow

  /** Exactly the endpoints whose zones come back: not several addresses, not `*` with an
      interface, no host bits, no prefix of 32 bits. */
  predicate ZonesRecoverable(e: Endpoint) {
    if |e.zones| == 1 then ZoneRecoverable(e.zones[0], e.iface) else e.zones == []
  }

  predicate ZoneRecoverable(z: Zone, iface: Option<string>) {
    match z
    case AnyZone => iface.None?
    case Addr(_) => true
    case Net(b, l) => l < 32 && b == Masked(b, l)
    case Domain(_) => false
  }

  /** The rebuilt endpoint after the port matches. */
  function Ported(e: Endpoint, ps: Option<seq<Proto>>, on: bool, q: Proto, shape: PortShape): Endpoint
    requires EndpointValid(e) && ZonesBack(e).Ok?
  {
    if !on then Addressed(e, ps)
    else WithProtocol(Addressed(e, ps), q).(ports := Present(Ones(ItemsOf(shape))),
                                            ranges := Present(Spans(ItemsOf(shape))))
  }

  lemma SidePorted(e: Endpoint, ps: Option<seq<Proto>>, q: Proto, shape: PortShape)
    requires EndpointValid(e) && ZonesBack(e).Ok? && Lists(shape, e.ports, e.ranges) && !shape.BareSpan?
    ensures WithPorts(Addressed(e, ps), q, shape) == Ok(Ported(e, ps, true, q, shape))
  {
    PortsSame(e, shape);
    ShapeBack(Addressed(e, ps), q, shape);
  }

  lemma SourceRebuilt(f: NetFlow, c: Choice, ps: Option<seq<Proto>>, q: Proto, on: bool, dest: Endpoint)
    requires EndpointValid(f.src) && ZonesBack(f.src).Ok? &&
             (on ==> !q.Icmp? && Lists(c.source, f.src.ports, f.src.ranges))
    ensures Rebuild(Listing(Opt(on, Sport(q, f.src.ports, f.src.ranges)), c), NetFlow(Addressed(f.src, ps), dest)) ==
            if on && c.source.BareSpan? then Err else Ok(Some(NetFlow(Ported(f.src, ps, on, q, c.source), dest)))
  {
    RebuildOpt(on, Sport(q, f.src.ports, f.src.ranges), c, NetFlow(Addressed(f.src, ps), dest));
    if on && !c.source.BareSpan? { SidePorted(f.src, ps, q, c.source); }
  }

  lemma DestRebuilt(f: NetFlow, c: Choice, ps: Option<seq<Proto>>, q: Proto, on: bool, src: Endpoint)
    requires EndpointValid(f.dest) && ZonesBack(f.dest).Ok? &&
             (on ==> !q.Icmp? && Lists(c.dest, f.dest.ports, f.dest.ranges))
    ensures Rebuild(Listing(Opt(on, Dport(q, f.dest.ports, f.dest.ranges)), c), NetFlow(src, Addressed(f.dest, ps))) ==
            if on && c.dest.BareSpan? then Err else Ok(Some(NetFlow(src, Ported(f.dest, ps, on, q, c.dest))))
  {
    RebuildOpt(on, Dport(q, f.dest.ports, f.dest.ranges), c, NetFlow(src, Addressed(f.dest, ps)));
    if on && !c.dest.BareSpan? { SidePorted(f.dest, ps, q, c.dest); }
  }

  /** No port match is listed as a range outside a set. */
  predicate InSets(c: Choice, f: NetFlow) {
    FlowProtocols(f).Some? ==> (NamesPorts(f.src) ==> !c.source.BareSpan?) && (NamesPorts(f.dest) ==> !c.dest.BareSpan?)
  }

  lemma PortRebuilt(f: NetFlow, c: Choice, ps: Option<seq<Proto>>)
    requires FlowValid(f) && Compilable(f) && Suits(c, f) && ZonesBack(f.src).Ok? && ZonesBack(f.dest).Ok?
    ensures var on, q := FlowProtocols(f).Some?, ProtoArg(f);
            Rebuild(Listing(PortArgs(f), c), NetFlow(Addressed(f.src, ps), Addressed(f.dest, ps))) ==
            if !InSets(c, f) then Err
            else Ok(Some(NetFlow(Ported(f.src, ps, on && NamesPorts(f.src), q, c.source),
              Ported(f.dest, ps, on && NamesPorts(f.dest), q, c.dest))))
  {
    var q := ProtoArg(f);
    var on1, on2 := FlowProtocols(f).Some? && NamesPorts(f.src), FlowProtocols(f).Some? && NamesPorts(f.dest);
    var a1, a2 := Opt(on1, Sport(q, f.src.ports, f.src.ranges)), Opt(on2, Dport(q, f.dest.ports, f.dest.ranges));
    if FlowProtocols(f).Some? { assert q in FlowProtocols(f).value; }
    ListingConcat(a1, a2, c);
    RebuildConcat(Listing(a1, c), Listing(a2, c), NetFlow(Addressed(f.src, ps), Addressed(f.dest, ps)));
    SourceRebuilt(f, c, ps, q, on1, Addressed(f.dest, ps));
    DestRebuilt(f, c, ps, q, on2, Ported(f.src, ps, on1, q, c.source));
  }

  lemma ZonesSame(e: Endpoint)
    requires EndpointValid(e) && NftTakesZones(e)
    ensures (ZonesBack(e).Ok? && multiset(e.zones) == multiset(ZonesBack(e).value)) <==> ZonesRecoverable(e)
  {
    if ZonesBack(e).Ok? {
      var back := ZonesBack(e).value;
      if |e.zones| == 1 {
        assert e.zones == [e.zones[0]] && e.zones[0] in e.zones;
        if back != [] { assert back == [back[0]] && back[0] in multiset(back); }
      }
      assert |multiset(e.zones)| == |e.zones| && |multiset(back)| == |back|;
    }
  }

  predicate SideRecoverable(e: Endpoint, named: bool) {
    ZonesRecoverable(e) && OnceEach(e.ports) && OnceEach(e.ranges) && (e.ranges.Some? ==> named)
  }

  /** A flow comes back unless a side has several addresses, a prefix with host bits or of 32 bits,
      `*` with an interface, a port or range written twice, or ranges without a protocol. */
  predicate Recoverable(f: NetFlow) {
    SideRecoverable(f.src, FlowProtocols(f).Some?) && SideRecoverable(f.dest, FlowProtocols(f).Some?)
  }

  lemma SideSame(e: Endpoint, ps: Option<seq<Proto>>, named: bool, q: Proto, shape: PortShape)
    requires EndpointValid(e) && NftTakesZones(e) && ZonesBack(e).Ok? && (e.ports.Some? ==> named)
    requires NamesPorts(e) ==> Lists(shape, e.ports, e.ranges)
    ensures SideEqual(e, Ported(e, ps, named && NamesPorts(e), q, shape)) <==> SideRecoverable(e, named)
  {
    ZonesSame(e);
    PortedPorts(e, ps, named, q, shape);
  }

  lemma PortedPorts(e: Endpoint, ps: Option<seq<Proto>>, named: bool, q: Proto, shape: PortShape)
    requires EndpointValid(e) && ZonesBack(e).Ok? && (e.ports.Some? ==> named)
    requires NamesPorts(e) ==> Lists(shape, e.ports, e.ranges)
    ensures var g := Ported(e, ps, named && NamesPorts(e), q, shape);
            && g.iface == e.iface && g.zones == ZonesBack(e).value
            && (SameElements(e.ports, g.ports) && SameElements(e.ranges, g.ranges) <==>
                  OnceEach(e.ports) && OnceEach(e.ranges) && (e.ranges.Some? ==> named))
  {
    if named && NamesPorts(e) { PortsSame(e, shape); }
  }

  lemma ProtocolsSame(f: NetFlow, c: Choice, g: NetFlow)
    requires FlowValid(f) && Compilable(f) && Suits(c, f) && ZonesBack(f.src).Ok? && ZonesBack(f.dest).Ok?
    requires var ps, on, q := KeptProtocols(f, c), FlowProtocols(f).Some?, ProtoArg(f);
             g == NetFlow(Ported(f.src, ps, on && NamesPorts(f.src), q, c.source),
               Ported(f.dest, ps, on && NamesPorts(f.dest), q, c.dest))
    ensures FlowProtocols(g) == FlowProtocols(f) && !ProtocolsClash(g)
  {
    if FlowProtocols(f).Some? { assert FlowProtocols(f).value == [ProtoArg(f)]; }
  }

  lemma ArgsRebuilt(f: NetFlow, c: Choice)
    requires FlowValid(f) && Compilable(f) && Suits(c, f)
    ensures var ps, on, q := KeptProtocols(f, c), FlowProtocols(f).Some?, ProtoArg(f);
            var r := Rebuild(Listing(NftArgs(f), c), NetFlow(EMPTY, EMPTY));
            if ZonesBack(f.src).Ok? && ZonesBack(f.dest).Ok? && InSets(c, f) then
              r == Ok(Some(NetFlow(Ported(f.src, ps, on && NamesPorts(f.src), q, c.source),
                Ported(f.dest, ps, on && NamesPorts(f.dest), q, c.dest))))
            else r.Err?
  {
    var ps := KeptProtocols(f, c);
    var start := NetFlow(EMPTY, EMPTY);
    var g1 := NetFlow(Started(f.src, ps), Started(f.dest, ps));
    HeadRebuilt(f, c);
    AddrRebuilt(f, c, ps);
    RebuildMore(HeadArgs(f), AddrArgs(f), c, start, g1);
    if ZonesBack(f.src).Ok? && ZonesBack(f.dest).Ok? {
      PortRebuilt(f, c, ps);
      RebuildMore(HeadArgs(f) + AddrArgs(f), PortArgs(f), c, start,
        NetFlow(Addressed(f.src, ps), Addressed(f.dest, ps)));
    } else {
      ListingConcat(HeadArgs(f) + AddrArgs(f), PortArgs(f), c);
      RebuildConcat(Listing(HeadArgs(f) + AddrArgs(f), c), Listing(PortArgs(f), c), start);
    }
  }

  /** Rebuilding a flow from the listing of its own rule gives an equal flow exactly when the flow
      is recoverable and no range is listed outside a set. */
  lemma RebuiltExactly(f: NetFlow, c: Choice)
    requires FlowValid(f) && Compilable(f) && Suits(c, f)
    ensures var r := Rebuild(Listing(NftArgs(f), c), NetFlow(EMPTY, EMPTY));
            && ((r.Ok? && r.value.Some? && FlowEqual(f, r.value.value)) <==> Recoverable(f) && InSets(c, f))
            && (r.Ok? && r.value.Some? ==> !ProtocolsClash(r.value.value))
  {
    var ps, on, q := KeptProtocols(f, c), FlowProtocols(f).Some?, ProtoArg(f);
    ArgsRebuilt(f, c);
    ZonesSame(f.src);
    ZonesSame(f.dest);
    if ZonesBack(f.src).Ok? && ZonesBack(f.dest).Ok? && InSets(c, f) {
      SideSame(f.src, ps, on, q, c.source);
      SideSame(f.dest, ps, on, q, c.dest);
      ProtocolsSame(f, c, NetFlow(Ported(f.src, ps, on && NamesPorts(f.src), q, c.source),
        Ported(f.dest, ps, on && NamesPorts(f.dest), q, c.dest)));
    }
  }

  // ----- the rule is recognised

  function Matches(ms: seq<Listed>): seq<Expr> {
    if ms == [] then [] else [Expr.Match(ms[0])] + Matches(ms[1..])
  }

  lemma {:induction false} RuleRebuilds(ms: seq<Listed>, rest: seq<Expr>, g: NetFlow, f: NetFlow)
    ensures var r := Rebuild(ms, g);
            RuleMatch(Matches(ms) + rest, g, None, f) ==
            if r.Err? then Err else if r.value.None? then Ok(NOT_FOUND) else RuleMatch(rest, r.value.value, None, f)
    decreases ms
  {
    if ms == [] {
      assert Matches(ms) + rest == rest;
    } else {
      assert (Matches(ms) + rest)[1..] == Matches(ms[1..]) + rest;
      var c := Complemented(g, ms[0]);
      if c.Ok? && c.value.Some? { RuleRebuilds(ms[1..], rest, c.value.value, f); }
    }
  }

  /** The rule made for a flow, logging or not, is recognised as that flow's rule with its verdict
      exactly when the flow is recoverable and no range is listed outside a set. */
  lemma OwnRuleRecognised(f: NetFlow, c: Choice, logged: bool, v: Verdict)
    requires FlowValid(f) && Compilable(f) && Suits(c, f)
    ensures var rule := Matches(Listing(NftArgs(f), c)) + (if logged then [Extra, Ends(v)] else [Ends(v)]);
            RuleMatch(rule, NetFlow(EMPTY, EMPTY), None, f) == Ok(Found(true, Some(v))) <==>
              Recoverable(f) && InSets(c, f)
  {
    var rest := if logged then [Extra, Ends(v)] else [Ends(v)];
    var ms := Listing(NftArgs(f), c);
    RuleRebuilds(ms, rest, NetFlow(EMPTY, EMPTY), f);
    RebuiltExactly(f, c);
    var r := Rebuild(ms, NetFlow(EMPTY, EMPTY));
    if r.Ok? && r.value.Some? { VerdictKept(r.value.value, f, logged, v); }
  }

  lemma VerdictKept(g: NetFlow, f: NetFlow, logged: bool, v: Verdict)
    requires !ProtocolsClash(f) && !ProtocolsClash(g)
    ensures RuleMatch(if logged then [Extra, Ends(v)] else [Ends(v)], g, None, f) ==
            Ok(if FlowEqual(f, g) then Found(true, Some(v)) else NOT_FOUND)
  {
    assert [Ends(v)][1..] == [] && [Extra, Ends(v)][1..] == [Ends(v)];
    assert RuleMatch([Ends(v)], g, None, f) == RuleMatch([], g, Some(v), f);
  }
}
