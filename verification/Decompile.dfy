/** From the listed matches of an nft rule back to a flow (`padsi/fwlib/nft.py`), one endpoint
    update at a time (`padsi/fwlib/netflow.py`). */
module Decompile {
  import opened Wrappers
  import opened Netflow
  import opened NftCompile

  // ----- endpoint updates

  const EMPTY := Endpoint([AnyZone], None, None, None, None)

  function WithProtocol(e: Endpoint, q: Proto): Endpoint {
    if e.protocols.None? then e.(protocols := Some([q]))
    else if q in e.protocols.value then e
    else e.(protocols := Some(e.protocols.value + [q]))
  }

  function WithInterface(e: Endpoint, iface: string): Result<Endpoint> {
    if |iface| > MAX_INTERFACE then Err
    else if e.iface.None? then Ok(e.(iface := Some(iface), zones := if e.zones == [AnyZone] then [] else e.zones))
    else if e.iface.value == iface then Ok(e)
    else Err
  }

  function WithZone(e: Endpoint, z: Zone): Endpoint {
    if z in e.zones then e
    else e.(zones := if e.zones == [AnyZone] then [z] else e.zones + [z])
  }

  function WithPort(e: Endpoint, p: Port): Endpoint {
    if e.ports.None? then e.(ports := Some([p]))
    else if p in e.ports.value then e
    else e.(ports := Some(e.ports.value + [p]))
  }

  function WithRange(e: Endpoint, lo: Port, hi: Port): Result<Endpoint> {
    if lo > hi then Err
    else if lo == hi then Ok(WithPort(e, lo))
    else if e.ranges.None? then Ok(e.(ranges := Some([PortRange(lo, hi)])))
    else if PortRange(lo, hi) in e.ranges.value then Ok(e)
    else Ok(e.(ranges := Some(e.ranges.value + [PortRange(lo, hi)])))
  }

  // ----- the listed forms

  /** An address, an address with a prefix length, or a set of several. */
  datatype AddrShape = Plain(addr: Ip) | Prefix(base: Ip, len: nat) | AddrSet

  datatype PortItem = One(port: Port) | Span(lo: Port, hi: Port)

  /** One port, a set of ports and ranges, or a range outside a set. */
  datatype PortShape = Single(port: Port) | PortSet(items: seq<PortItem>) | BareSpan(lo: Port, hi: Port)

  datatype Listed =
    | Iif(name: string) | Oif(name: string)
    | Protocol(proto: Proto) | OtherProtocol
    | Saddr(addr: AddrShape) | Daddr(addr: AddrShape)
    | SourcePorts(proto: Proto, ports: PortShape) | DestPorts(proto: Proto, ports: PortShape)
    | Unhandled

  /** A prefix of 32 bits is an address; a set of addresses raises. */
  function ZoneOf(a: AddrShape): Result<Zone> {
    match a
    case Plain(x) => Ok(Addr(x))
    case Prefix(b, l) => Ok(if l == 32 then Addr(b) else Net(b, l))
    case AddrSet => Err
  }

  function WithItem(e: Endpoint, item: PortItem): Result<Endpoint> {
    match item
    case One(p) => Ok(WithPort(e, p))
    case Span(lo, hi) => WithRange(e, lo, hi)
  }

  function WithItems(e: Endpoint, items: seq<PortItem>): Result<Endpoint> {
    if items == [] then Ok(e)
    else
      var init := WithItems(e, items[..|items| - 1]);
      if init.Err? then Err else WithItem(init.value, items[|items| - 1])
  }

  /** A range outside a set is taken for a number, which raises. */
  function WithPorts(e: Endpoint, q: Proto, shape: PortShape): Result<Endpoint> {
    match shape
    case Single(p) => Ok(WithPort(WithProtocol(e, q), p))
    case PortSet(items) => WithItems(WithProtocol(e, q), items)
    case BareSpan(_, _) => Err
  }

  function OnSrc(f: NetFlow, r: Result<Endpoint>): Result<Option<NetFlow>> {
    if r.Err? then Err else Ok(Some(f.(src := r.value)))
  }

  function OnDest(f: NetFlow, r: Result<Endpoint>): Result<Option<NetFlow>> {
    if r.Err? then Err else Ok(Some(f.(dest := r.value)))
  }

  function WithAddress(e: Endpoint, a: AddrShape): Result<Endpoint> {
    var z := ZoneOf(a);
    if z.Err? then Err else Ok(WithZone(e, z.value))
  }

  /** One match added to the flow being rebuilt: `None` when the match says something else, `Err`
      for a raised exception. */
  function Complemented(f: NetFlow, m: Listed): Result<Option<NetFlow>> {
    match m
    case Iif(n) => OnSrc(f, WithInterface(f.src, n))
    case Oif(n) => OnDest(f, WithInterface(f.dest, n))
    case Protocol(q) => Ok(Some(NetFlow(WithProtocol(f.src, q), WithProtocol(f.dest, q))))
    case OtherProtocol => Err
    case Saddr(a) => OnSrc(f, WithAddress(f.src, a))
    case Daddr(a) => OnDest(f, WithAddress(f.dest, a))
    case SourcePorts(q, shape) => if q.Icmp? then Ok(None) else OnSrc(f, WithPorts(f.src, q, shape))
    case DestPorts(q, shape) => if q.Icmp? then Ok(None) else OnDest(f, WithPorts(f.dest, q, shape))
    case Unhandled => Ok(None)
  }

  /** A list after an element was added: it is there, at the end if it is new, beside what was there, and
      not twice. */
  predicate AddedOnce<T(==)>(before: Option<seq<T>>, x: T, after: Option<seq<T>>) {
    var list := if before.Some? then before.value else [];
    && after.Some? && list <= after.value <= list + [x] && x in after.value
    && (x in list ==> after.value == list)
  }

  // ----- endpoints as objects

  class EndpointObject {
    var zones: seq<Zone>
    var iface: Option<string>
    var protocols: Option<seq<Proto>>
    var ports: Option<seq<Port>>
    var ranges: Option<seq<PortRange>>

    function Value(): Endpoint
      reads this
    {
      Endpoint(zones, iface, protocols, ports, ranges)
    }

    constructor ()
      ensures Value() == EMPTY
    {
      zones, iface, protocols, ports, ranges := [AnyZone], None, None, None, None;
    }

    method AddProtocol(q: Proto)
      modifies this
      ensures Value() == WithProtocol(old(Value()), q)
      ensures AddedOnce(old(protocols), q, protocols)
    {
      if protocols.None? {
        protocols := Some([q]);
      } else if q !in protocols.value {
        protocols := Some(protocols.value + [q]);
      }
    }

    method SetInterface(name: string) returns (ok: bool)
      modifies this
      ensures ok <==> WithInterface(old(Value()), name).Ok?
      ensures Value() == if ok then WithInterface(old(Value()), name).value else old(Value())
      ensures ok <==> |name| <= 15 && (old(iface).None? || old(iface).value == name)
      ensures ok ==> iface == Some(name)
      ensures zones == if ok && old(iface).None? && old(zones) == [AnyZone] then [] else old(zones)
    {
      if |name| > MAX_INTERFACE { return false; }
      if iface.None? {
        iface := Some(name);
        if zones == [AnyZone] { zones := []; }
      } else if iface.value != name {
        return false;
      }
      return true;
    }

    method AddAddress(z: Zone)
      modifies this
      ensures Value() == WithZone(old(Value()), z)
      ensures if old(zones) == [AnyZone] then zones == [z] else AddedOnce(Some(old(zones)), z, Some(zones))
    {
      if z !in zones {
        if zones == [AnyZone] { zones := [z]; } else { zones := zones + [z]; }
      }
    }

    method AddPort(p: Port)
      modifies this
      ensures Value() == WithPort(old(Value()), p)
      ensures AddedOnce(old(ports), p, ports)
    {
      if ports.None? {
        ports := Some([p]);
      } else if p !in ports.value {
        ports := Some(ports.value + [p]);
      }
    }

    method AddPortRange(lo: Port, hi: Port) returns (ok: bool)
      modifies this
      ensures ok <==> WithRange(old(Value()), lo, hi).Ok?
      ensures Value() == if ok then WithRange(old(Value()), lo, hi).value else old(Value())
      ensures ok <==> lo <= hi
      ensures if lo < hi then AddedOnce(old(ranges), PortRange(lo, hi), ranges) else ranges == old(ranges)
      ensures if lo == hi then AddedOnce(old(ports), lo, ports) else ports == old(ports)
    {
      if lo > hi { return false; }
      if lo == hi {
        AddPort(lo);
      } else {
        var text := PortRange(lo, hi);
        if ranges.None? {
          ranges := Some([text]);
        } else if text !in ranges.value {
          ranges := Some(ranges.value + [text]);
        }
      }
      return true;
    }

    method AddPorts(q: Proto, shape: PortShape) returns (ok: bool)
      modifies this
      ensures ok <==> WithPorts(old(Value()), q, shape).Ok?
      ensures ok ==> Value() == WithPorts(old(Value()), q, shape).value
    {
      AddProtocol(q);
      match shape {
        case Single(p) => AddPort(p);
        case BareSpan(_, _) => return false;
        case PortSet(items) =>
          ghost var start := Value();
          for i := 0 to |items|
            invariant WithItems(start, items[..i]) == Ok(Value())
          {
            assert items[..i + 1][..i] == items[..i];
            match items[i] {
              case One(p) => AddPort(p);
              case Span(lo, hi) =>
                var added := AddPortRange(lo, hi);
                if !added {
                  FailsLater(start, items, i + 1);
                  return false;
                }
            }
          }
          assert items[..|items|] == items;
      }
      return true;
    }
  }

  lemma {:induction false} FailsLater(e: Endpoint, items: seq<PortItem>, i: nat)
    requires i <= |items| && WithItems(e, items[..i]).Err?
    ensures WithItems(e, items).Err?
    decreases |items|
  {
    if i == |items| {
      assert items[..i] == items;
    } else {
      var init := items[..|items| - 1];
      assert init[..i] == items[..i];
      FailsLater(e, init, i);
    }
  }

  /** The flow under construction is its two endpoints; the answer tells whether the match was
      understood. */
  method MatchNetflow(src: EndpointObject, dest: EndpointObject, m: Listed) returns (r: Result<bool>)
    requires src != dest
    modifies src, dest
    ensures var c := Complemented(old(NetFlow(src.Value(), dest.Value())), m);
            && (r.Err? <==> c.Err?)
            && (r.Ok? ==> r.value == c.value.Some?)
            && (r == Ok(true) ==> NetFlow(src.Value(), dest.Value()) == c.value.value)
  {
    var ok := true;
    match m {
      case Iif(n) => ok := src.SetInterface(n);
      case Oif(n) => ok := dest.SetInterface(n);
      case Protocol(q) =>
        src.AddProtocol(q);
        dest.AddProtocol(q);
      case OtherProtocol => return Err;
      case Saddr(a) =>
        if ZoneOf(a).Err? { return Err; }
        src.AddAddress(ZoneOf(a).value);
      case Daddr(a) =>
        if ZoneOf(a).Err? { return Err; }
        dest.AddAddress(ZoneOf(a).value);
      case SourcePorts(q, shape) =>
        if q.Icmp? { return Ok(false); }
        ok := src.AddPorts(q, shape);
      case DestPorts(q, shape) =>
        if q.Icmp? { return Ok(false); }
        ok := dest.AddPorts(q, shape);
      case Unhandled => return Ok(false);
    }
    return if ok then Ok(true) else Err;
  }

  // ----- the rule and the flow

  datatype Verdict = Accept | Drop

  datatype Expr = Match(m: Listed) | OtherOperator | Ends(v: Verdict) | Extra | OtherExpr

  datatype Found = Found(matched: bool, policy: Option<Verdict>)

  const NOT_FOUND := Found(false, None)

  /** Lists compared without their order. */
  predicate SameElements<T(==)>(a: Option<seq<T>>, b: Option<seq<T>>) {
    a.Some? == b.Some? && (a.Some? ==> multiset(a.value) == multiset(b.value))
  }

  predicate SideEqual(a: Endpoint, b: Endpoint) {
    a.iface == b.iface && multiset(a.zones) == multiset(b.zones) && SameElements(a.ports, b.ports) &&
      SameElements(a.ranges, b.ranges)
  }

  predicate FlowEqual(f: NetFlow, g: NetFlow) {
    FlowProtocols(f) == FlowProtocols(g) && SideEqual(f.src, g.src) && SideEqual(f.dest, g.dest)
  }

  /** The two sides name different protocols, which raises when the flow's protocols are read. */
  predicate ProtocolsClash(f: NetFlow) {
    f.src.protocols.Some? && f.dest.protocols.Some? &&
      multiset(f.src.protocols.value) != multiset(f.dest.protocols.value)
  }

  /** What looking at the remaining expressions answers, with the flow rebuilt and the verdict met
      so far. */
  function RuleMatch(exprs: seq<Expr>, g: NetFlow, policy: Option<Verdict>, f: NetFlow): Result<Found> {
    if exprs == [] then
      if ProtocolsClash(f) || ProtocolsClash(g) then Err
      else Ok(if FlowEqual(f, g) then Found(true, policy) else NOT_FOUND)
    else match exprs[0]
      case Match(m) =>
        var c := Complemented(g, m);
        if c.Err? then Err else if c.value.None? then Ok(NOT_FOUND) else RuleMatch(exprs[1..], c.value.value, policy, f)
      case Ends(v) => if policy.Some? then Err else RuleMatch(exprs[1..], g, Some(v), f)
      case Extra => RuleMatch(exprs[1..], g, policy, f)
      case OtherOperator => Ok(NOT_FOUND)
      case OtherExpr => Ok(NOT_FOUND)
  }

  method RuleMatchNetflow(exprs: seq<Expr>, f: NetFlow) returns (r: Result<Found>)
    ensures r == RuleMatch(exprs, NetFlow(EMPTY, EMPTY), None, f)
  {
    var src := new EndpointObject();
    var dest := new EndpointObject();
    var policy: Option<Verdict> := None;
    for i := 0 to |exprs|
      invariant fresh(src) && fresh(dest) && src != dest
      invariant RuleMatch(exprs[i..], NetFlow(src.Value(), dest.Value()), policy, f) ==
                RuleMatch(exprs, NetFlow(EMPTY, EMPTY), None, f)
    {
      match exprs[i] {
        case Match(m) =>
          var matched := MatchNetflow(src, dest, m);
          if matched.Err? { return Err; }
          if !matched.value { return Ok(NOT_FOUND); }
        case OtherOperator => return Ok(NOT_FOUND);
        case Ends(v) =>
          if policy.Some? { return Err; }
          policy := Some(v);
        case Extra =>
        case OtherExpr => return Ok(NOT_FOUND);
      }
    }
    if ProtocolsClash(f) || ProtocolsClash(NetFlow(src.Value(), dest.Value())) { return Err; }
    var m := FlowEqual(f, NetFlow(src.Value(), dest.Value()));
    return Ok(Found(m, if m then policy else None));
  }

  // ----- what it means to be recognised

  /** The verdicts of a rule, in order. */
  function Verdicts(exprs: seq<Expr>): seq<Verdict> {
    if exprs == [] then [] else (if exprs[0].Ends? then [exprs[0].v] else []) + Verdicts(exprs[1..])
  }

  function AsList(p: Option<Verdict>): seq<Verdict> { if p.Some? then [p.value] else [] }

  lemma {:induction false} VerdictFound(exprs: seq<Expr>, g: NetFlow, policy: Option<Verdict>, f: NetFlow)
    requires RuleMatch(exprs, g, policy, f).Ok? && RuleMatch(exprs, g, policy, f).value.matched
    ensures AsList(RuleMatch(exprs, g, policy, f).value.policy) == AsList(policy) + Verdicts(exprs)
    ensures OtherOperator !in exprs && OtherExpr !in exprs
    decreases exprs
  {
    if exprs != [] {
      assert forall e :: e in exprs <==> e == exprs[0] || e in exprs[1..];
      match exprs[0]
      case Match(m) => VerdictFound(exprs[1..], Complemented(g, m).value.value, policy, f);
      case Ends(v) => VerdictFound(exprs[1..], g, Some(v), f);
      case Extra => VerdictFound(exprs[1..], g, policy, f);
    }
  }

  lemma {:induction false} SameFlowFound(exprs: seq<Expr>, g: NetFlow, policy: Option<Verdict>, f: NetFlow, h: NetFlow)
    requires RuleMatch(exprs, g, policy, f).Ok? && RuleMatch(exprs, g, policy, f).value.matched
    requires RuleMatch(exprs, g, policy, h).Ok? && RuleMatch(exprs, g, policy, h).value.matched
    ensures FlowEqual(f, h)
    decreases exprs
  {
    if exprs != [] {
      match exprs[0]
      case Match(m) => SameFlowFound(exprs[1..], Complemented(g, m).value.value, policy, f, h);
      case Ends(v) => SameFlowFound(exprs[1..], g, Some(v), f, h);
      case Extra => SameFlowFound(exprs[1..], g, policy, f, h);
    }
  }

  /** A rule is recognised as that of one flow only, whatever else it is compared with; it has no
      expression that is not understood, and at most one verdict, the one reported. */
  lemma RecognisedMeans(exprs: seq<Expr>, f: NetFlow, h: NetFlow)
    requires var r := RuleMatch(exprs, NetFlow(EMPTY, EMPTY), None, f); r.Ok? && r.value.matched
    ensures Verdicts(exprs) == AsList(RuleMatch(exprs, NetFlow(EMPTY, EMPTY), None, f).value.policy)
    ensures OtherOperator !in exprs && OtherExpr !in exprs
    ensures var r := RuleMatch(exprs, NetFlow(EMPTY, EMPTY), None, h); r.Ok? && r.value.matched ==> FlowEqual(f, h)
  {
    var start := NetFlow(EMPTY, EMPTY);
    VerdictFound(exprs, start, None, f);
    assert [] + Verdicts(exprs) == Verdicts(exprs);
    var r := RuleMatch(exprs, start, None, h);
    if r.Ok? && r.value.matched { SameFlowFound(exprs, start, None, f, h); }
  }
}
