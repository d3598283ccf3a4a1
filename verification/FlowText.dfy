/** Flows as text (`padsi/fwlib/netflow.py`): printing, and parsing by splitting at the separators
    `>`, `^` and `,`. */
module FlowText {
  import opened Wrappers
  import opened Netflow
  import opened Decompile
  import DomainRegex

  function Split(s: string, c: char): (parts: seq<string>)
    ensures |parts| >= 1
  {
    DomainRegex.Split(s, c)
  }

  function Join(parts: seq<string>, c: char): string
    requires |parts| >= 1
  {
    DomainRegex.Join(parts, [c])
  }

  predicate Space(c: char) { c == ' ' || '\t' <= c <= '\r' }

  function Strip(s: string): string { StripEnd(StripStart(s)) }

  function StripStart(s: string): string { if s != "" && Space(s[0]) then StripStart(s[1..]) else s }

  function StripEnd(s: string): string {
    if s != "" && Space(s[|s| - 1]) then StripEnd(s[..|s| - 1]) else s
  }

  // ----- numbers and addresses

  function Dec(n: nat): string {
    if n < 10 then [('0' as int + n) as char] else Dec(n / 10) + [('0' as int + n % 10) as char]
  }

  predicate IsDigit(c: char) { '0' <= c <= '9' }

  function ParseDec(s: string): Option<nat> {
    if s == "" || !IsDigit(s[|s| - 1]) then None
    else
      var last := s[|s| - 1] as int - '0' as int;
      if |s| == 1 then Some(last)
      else
        var init := ParseDec(s[..|s| - 1]);
        if init.None? then None else Some(10 * init.value + last)
  }

  /** Up to three digits, no leading zero, at most 255. */
  function ParseOctet(s: string): Option<nat> {
    var n := ParseDec(s);
    if n.Some? && |s| <= 3 && (|s| == 1 || s[0] != '0') && n.value <= 255 then n else None
  }

  function OctetTexts(a: Ip): (parts: seq<string>)
    ensures |parts| == 4
  {
    [Dec(a / 0x100_0000), Dec(a / 0x1_0000 % 0x100), Dec(a / 0x100 % 0x100), Dec(a % 0x100)]
  }

  function AddrText(a: Ip): string { Join(OctetTexts(a), '.') }

  function ParseAddr(s: string): Option<Ip> {
    var parts := Split(s, '.');
    if |parts| != 4 then None
    else
      var (o0, o1, o2, o3) := (ParseOctet(parts[0]), ParseOctet(parts[1]), ParseOctet(parts[2]), ParseOctet(parts[3]));
      if o0.None? || o1.None? || o2.None? || o3.None? then None
      else Some(o0.value * 0x100_0000 + o1.value * 0x1_0000 + o2.value * 0x100 + o3.value)
  }

  // ----- zones

  /** What the parser asks of the rest of its libraries: the length a prefix or mask text means,
      and whether a text is a domain name. */
  datatype Library = Library(mask: string -> Option<nat>, domain: string -> bool)

  ghost predicate LibraryOk(lib: Library) {
    && (forall l: nat | l <= 32 :: lib.mask(Dec(l)) == Some(l))
    && (forall s :: lib.mask(s).Some? ==> lib.mask(s).value <= 32 && !EndsWithDot(s))
    && (forall s :: lib.domain(s) ==> EndsWithDot(s) && NoSeparator(s) && s[0] != '#')
  }

  predicate EndsWithDot(s: string) { s != "" && s[|s| - 1] == '.' }

  /** Nothing in the text separates the parts of a flow. */
  predicate NoSeparator(s: string) { forall i :: 0 <= i < |s| ==> s[i] !in ",^>" && !Space(s[i]) }

  function ZoneText(z: Zone): string {
    match z
    case AnyZone => "*"
    case Addr(a) => AddrText(a)
    case Net(b, l) => AddrText(b) + "/" + Dec(l)
    case Domain(n) => n
  }

  function WithoutSuffix(s: string, suffix: string): string {
    if |s| >= |suffix| && s[|s| - |suffix|..] == suffix then s[..|s| - |suffix|] else s
  }

  function ParseInterface(lib: Library, s: string): Option<Zone> {
    var parts := Split(s, '/');
    if |parts| == 2 && ParseAddr(parts[0]).Some? && lib.mask(parts[1]).Some?
    then Some(Net(ParseAddr(parts[0]).value, lib.mask(parts[1]).value)) else None
  }

  function ParseZone(lib: Library, item: string): Option<Zone> {
    if item == "*" then Some(AnyZone)
    else
      var s := WithoutSuffix(item, "/32");
      if ParseAddr(s).Some? then Some(Addr(ParseAddr(s).value))
      else if ParseInterface(lib, s).Some? then ParseInterface(lib, s)
      else if lib.domain(s) then Some(Domain(s))
      else None
  }

  /** The zones and the interface met so far, and what the remaining items add to them. */
  function ReadZones(lib: Library, items: seq<string>, zones: seq<Zone>, iface: Option<string>)
    : Result<(seq<Zone>, Option<string>)>
  {
    if items == [] then Ok((zones, iface))
    else
      var item := Strip(items[0]);
      if item == "" then Err
      else if item[0] == '#' then
        if |item[1..]| > MAX_INTERFACE || (iface.Some? && iface.value != "") then Err
        else ReadZones(lib, items[1..], zones, Some(item[1..]))
      else
        var z := ParseZone(lib, item);
        if z.None? then Err else ReadZones(lib, items[1..], zones + [z.value], iface)
  }

  method ParseZones(lib: Library, text: string) returns (r: Result<(seq<Zone>, Option<string>)>)
    ensures r == ReadZones(lib, Split(Strip(text), ','), [], None)
  {
    var items := Split(Strip(text), ',');
    var zones: seq<Zone>, iface: Option<string> := [], None;
    for i := 0 to |items|
      invariant ReadZones(lib, items[i..], zones, iface) == ReadZones(lib, items, [], None)
    {
      var item := Strip(items[i]);
      if item == "" {
        return Err;
      } else if item[0] == '#' {
        if |item[1..]| > MAX_INTERFACE { return Err; }
        if iface.Some? && iface.value != "" { return Err; }
        iface := Some(item[1..]);
      } else {
        var z := ParseZone(lib, item);
        if z.None? { return Err; }
        zones := zones + [z.value];
      }
    }
    return Ok((zones, iface));
  }

  // ----- protocols

  function ProtoText(q: Proto): string {
    match q
    case Tcp => "tcp"
    case Udp => "udp"
    case Icmp => "icmp"
  }

  function ParseProto(s: string): Option<Proto> {
    if s == "tcp" then Some(Tcp) else if s == "udp" then Some(Udp) else if s == "icmp" then Some(Icmp) else None
  }

  function ReadProtocols(items: seq<string>, got: seq<Proto>): Result<Option<seq<Proto>>> {
    if items == [] then Ok(Present(got))
    else
      var item := Strip(items[0]);
      if item == "" then ReadProtocols(items[1..], got)
      else if ParseProto(item).None? then Err
      else ReadProtocols(items[1..], got + [ParseProto(item).value])
  }

  function ProtocolSpec(text: Option<string>): Result<Option<seq<Proto>>> {
    if text.None? then Ok(None) else ReadProtocols(Split(Strip(text.value), ','), [])
  }

  method AnalyseProtocolSpec(text: Option<string>) returns (r: Result<Option<seq<Proto>>>)
    ensures r == ProtocolSpec(text)
  {
    var got: seq<Proto> := [];
    if text.Some? {
      var items := Split(Strip(text.value), ',');
      for i := 0 to |items|
        invariant ReadProtocols(items[i..], got) == ReadProtocols(items, [])
      {
        var item := Strip(items[i]);
        if item != "" {
          var q := ParseProto(item);
          if q.None? { return Err; }
          got := got + [q.value];
        }
      }
    }
    return Ok(if |got| == 0 then None else Some(got));
  }

  // ----- ports

  function PortText(p: Port): string { Dec(p) }

  function RangeText(r: PortRange): string { Dec(r.lo) + "-" + Dec(r.hi) }

  /** An underscore stands between two digits. */
  predicate UnderscoresOk(s: string) {
    forall i :: 0 <= i < |s| && s[i] == '_' ==> 0 < i < |s| - 1 && s[i + 1] != '_'
  }

  /** The number a text stands for: blanks around it, a sign, and underscores between digits. */
  function ParseInt(s: string): Option<int> {
    var t := Strip(s);
    var signed := t != "" && (t[0] == '+' || t[0] == '-');
    var digits := if signed then t[1..] else t;
    var n := if UnderscoresOk(digits) then ParseDec(DomainRegex.ReplaceChar(digits, '_', "")) else None;
    if n.None? then None
    else
      var v: int := n.value;
      Some(if signed && t[0] == '-' then -v else v)
  }

  function ParsePort(s: string): Option<Port> {
    var n := ParseInt(s);
    if n.Some? && 1 <= n.value <= MAX_PORT then Some(n.value) else None
  }

  function ParseRange(s: string): Option<PortRange> {
    var parts := Split(s, '-');
    if |parts| != 2 || ParsePort(parts[0]).None? || ParsePort(parts[1]).None? ||
       ParsePort(parts[0]).value > ParsePort(parts[1]).value
    then None else Some(PortRange(ParsePort(parts[0]).value, ParsePort(parts[1]).value))
  }

  /** One item of a port list; a range of one port is that port. */
  datatype PortPart = OnePort(port: Port) | Range(range: PortRange) | Malformed

  function ParsePart(text: string): PortPart {
    var item := Strip(text);
    if '-' in item then
      var r := ParseRange(item);
      if r.None? then Malformed else if r.value.lo == r.value.hi then OnePort(r.value.lo) else Range(r.value)
    else if ParsePort(item).None? then Malformed
    else OnePort(ParsePort(item).value)
  }

  function ParseParts(items: seq<string>): (parts: seq<PortPart>)
    ensures |parts| == |items| && forall i :: 0 <= i < |items| ==> parts[i] == ParsePart(items[i])
  {
    seq(|items|, i requires 0 <= i < |items| => ParsePart(items[i]))
  }

  function Collect(parts: seq<PortPart>, ports: seq<Port>, ranges: seq<PortRange>)
    : Result<(Option<seq<Port>>, Option<seq<PortRange>>)>
  {
    if parts == [] then Ok((Present(ports), Present(ranges)))
    else match parts[0]
      case OnePort(p) => Collect(parts[1..], ports + [p], ranges)
      case Range(r) => Collect(parts[1..], ports, ranges + [r])
      case Malformed => Err
  }

  function PortSpec(text: Option<string>): Result<(Option<seq<Port>>, Option<seq<PortRange>>)> {
    if text.None? then Ok((None, None)) else Collect(ParseParts(Split(Strip(text.value), ',')), [], [])
  }

  method AnalysePortSpec(text: Option<string>) returns (r: Result<(Option<seq<Port>>, Option<seq<PortRange>>)>)
    ensures r == PortSpec(text)
  {
    var ports: seq<Port>, ranges: seq<PortRange> := [], [];
    if text.Some? {
      var items := Split(Strip(text.value), ',');
      ghost var parts := ParseParts(items);
      for i := 0 to |items|
        invariant Collect(parts[i..], ports, ranges) == Collect(parts, [], [])
      {
        assert parts[i..][0] == ParsePart(items[i]) && parts[i..][1..] == parts[i + 1..];
        var item := Strip(items[i]);
        if '-' in item {
          var range := ParseRange(item);
          if range.None? { return Err; }
          if range.value.lo == range.value.hi {
            ports := ports + [range.value.lo];
          } else {
            ranges := ranges + [range.value];
          }
        } else {
          var port := ParsePort(item);
          if port.None? { return Err; }
          ports := ports + [port.value];
        }
      }
    }
    return Ok((if |ports| == 0 then None else Some(ports), if |ranges| == 0 then None else Some(ranges)));
  }

  // ----- endpoints and flows

  function MapText<T>(f: T -> string, s: seq<T>): (r: seq<string>)
    ensures |r| == |s| && forall i :: 0 <= i < |s| ==> r[i] == f(s[i])
  {
    seq(|s|, i requires 0 <= i < |s| => f(s[i]))
  }

  function ZoneItems(e: Endpoint): seq<string> {
    MapText(ZoneText, e.zones) + if e.iface.Some? then ["#" + e.iface.value] else []
  }

  function PortItems(e: Endpoint): seq<string> {
    (if e.ports.Some? then MapText(PortText, e.ports.value) else []) +
      (if e.ranges.Some? then MapText(RangeText, e.ranges.value) else [])
  }

  function ZonesRepr(e: Endpoint): string { if ZoneItems(e) == [] then "*" else Join(ZoneItems(e), ',') }

  function ProtocolsRepr(ps: Option<seq<Proto>>): string {
    if ps.None? || ps.value == [] then "" else Join(MapText(ProtoText, ps.value), ',')
  }

  function PortsRepr(e: Endpoint): string { if PortItems(e) == [] then "" else "^" + Join(PortItems(e), ',') }

  function EndpointRepr(e: Endpoint, withProtocols: bool): string {
    ZonesRepr(e) + (if withProtocols && e.protocols.Some? then "^" + ProtocolsRepr(e.protocols) else "") + PortsRepr(e)
  }

  function FlowRepr(f: NetFlow): string {
    EndpointRepr(f.src, false) + ">" + ProtocolsRepr(FlowProtocols(f)) + ">" + EndpointRepr(f.dest, false)
  }

  /** The constructor: protocols, zones, ports, `*` for an endpoint without zone and interface. */
  function NewEndpoint(lib: Library, zones: string, protocols: Option<string>, ports: Option<string>)
    : Result<Endpoint>
  {
    var ps := ProtocolSpec(protocols);
    var zs := ReadZones(lib, Split(Strip(zones), ','), [], None);
    var pr := PortSpec(ports);
    if ps.Err? || zs.Err? || pr.Err? then Err
    else Ok(Endpoint(if zs.value.0 == [] && zs.value.1.None? then [AnyZone] else zs.value.0,
                     zs.value.1, ps.value, pr.value.0, pr.value.1))
  }

  /** Two parts mean zones and protocols, unless the protocols are given beside: then they mean
      zones and ports. */
  function EndpointFromRepr(lib: Library, text: string, protos: Option<string>): Result<Endpoint> {
    var s := Strip(text);
    var parts := Split(s, '^');
    if s == "" || |parts| > 3 then Err
    else if |parts| == 3 then NewEndpoint(lib, parts[0], Some(parts[1]), Some(parts[2]))
    else if protos.None? then NewEndpoint(lib, parts[0], if |parts| > 1 then Some(parts[1]) else None, None)
    else NewEndpoint(lib, parts[0], protos, if |parts| > 1 then Some(parts[1]) else None)
  }

  function AddProtocols(f: NetFlow, items: seq<string>): Result<NetFlow>
    decreases items
  {
    if items == [] then Ok(f)
    else
      var item := Strip(items[0]);
      if item == "" then AddProtocols(f, items[1..])
      else if ParseProto(item).None? then Err
      else
        var q := ParseProto(item).value;
        AddProtocols(NetFlow(WithProtocol(f.src, q), WithProtocol(f.dest, q)), items[1..])
  }

  predicate SameProtocols(f: NetFlow) {
    f.src.protocols.Some? && f.dest.protocols.Some? ==>
      multiset(f.src.protocols.value) == multiset(f.dest.protocols.value)
  }

  function FlowFromRepr(lib: Library, text: string): Result<NetFlow> {
    var parts := Split(text, '>');
    if |parts| != 3 then Err
    else
      var src, dest := EndpointFromRepr(lib, parts[0], Some(parts[1])), EndpointFromRepr(lib, parts[2], Some(parts[1]));
      if src.Err? || dest.Err? then Err
      else
        var f := NetFlow(src.value, dest.value);
        var r := if parts[1] == "" then Ok(f) else AddProtocols(f, Split(parts[1], ','));
        if r.Err? || !SameProtocols(r.value) then Err else r
  }
}
