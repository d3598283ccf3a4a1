/** What the firewall logger writes about a packet (`crates/fw-logger/src/main.rs`): IPv4 header,
    ports, TCP flags, ICMP type, and the question of a DNS message. */
module PacketLog {
  import opened Wrappers
  import opened DnsName

  type U16 = n: nat | n < 65536

  datatype DnsInfo = Query(name: string, qtype: U16, id: U16) | Response(name: string, rcode: nat, id: U16)

  datatype Details = Details(srcPort: Option<U16>, dstPort: Option<U16>, flags: Option<seq<string>>,
                             icmp: Option<(Byte, Byte)>, dns: Option<DnsInfo>)

  const NOTHING := Details(None, None, None, None, None)

  datatype Record = Record(src: Option<seq<Byte>>, dst: Option<seq<Byte>>, proto: Option<Byte>,
                           details: Details, invalid: bool)

  const TCP: Byte := 6
  const UDP: Byte := 17
  const ICMP: Byte := 1

  function BigEndian(high: Byte, low: Byte): U16 { high * 256 + low }

  function U16At(bytes: seq<Byte>, pos: nat): U16
    requires pos + 2 <= |bytes|
  {
    BigEndian(bytes[pos], bytes[pos + 1])
  }

  // ----- the logger

  /** The name that can be read at a position, if any. */
  ghost function NameAt(payload: seq<Byte>, pos: nat): Option<(string, nat)> {
    if exists d :: Readable(payload, pos, d) then
      var d :| Readable(payload, pos, d);
      Some((NameText(Labels(payload, pos, d)), EndOf(pos, d)))
    else None
  }

  ghost predicate Question(payload: seq<Byte>, dns: nat) {
    dns + 12 <= |payload| && U16At(payload, dns + 4) > 0 && NameAt(payload, dns + 12).Some?
  }

  /** What is logged of a DNS message starting at `dns`. */
  ghost function DnsAt(payload: seq<Byte>, dns: nat): Option<DnsInfo> {
    if dns + 12 > |payload| then None
    else
      var id, flags := U16At(payload, dns), U16At(payload, dns + 2);
      var (name, end) := if Question(payload, dns) then NameAt(payload, dns + 12).value else ("", 0);
      if flags >= 0x8000 then Some(Response(name, flags % 16, id))
      else if Question(payload, dns) && end + 4 <= |payload| then Some(Query(name, U16At(payload, end), id))
      else None
  }

  method ParseDns(payload: seq<Byte>, transport: nat) returns (r: Option<DnsInfo>)
    ensures r == DnsAt(payload, transport + 8)
  {
    var dns := transport + 8;
    if |payload| < dns + 12 { return None; }
    var id := BigEndian(payload[dns], payload[dns + 1]);
    var flags := BigEndian(payload[dns + 2], payload[dns + 3]);
    var qr := flags / 0x8000 % 2;
    var pos := dns + 12;
    var queryName := "";
    var qdcount := BigEndian(payload[dns + 4], payload[dns + 5]);
    if qdcount > 0 {
      var parsed := ParseDnsName(payload, pos);
      assert parsed == NameAt(payload, dns + 12);
      if parsed.Some? {
        queryName, pos := parsed.value.0, parsed.value.1;
        if |payload| >= pos + 4 && qr == 0 {
          return Some(Query(queryName, BigEndian(payload[pos], payload[pos + 1]), id));
        }
      }
    }
    if qr == 1 {
      return Some(Response(queryName, flags % 16, id));
    }
    return None;
  }

  const FLAG_NAMES: seq<string> := ["FIN", "SYN", "RST", "PSH", "ACK", "URG"]

  predicate FlagSet(flags: Byte, i: nat)
    requires i < 6
  {
    flags / [1, 2, 4, 8, 16, 32][i] % 2 == 1
  }

  function FlagNames(flags: Byte, i: nat): seq<string>
    requires i <= 6
  {
    if i == 0 then [] else FlagNames(flags, i - 1) + if FlagSet(flags, i - 1) then [FLAG_NAMES[i - 1]] else []
  }

  method TcpFlags(flags: Byte) returns (names: seq<string>)
    ensures names == FlagNames(flags, 6)
  {
    names := [];
    if flags % 2 != 0 { names := names + ["FIN"]; }
    assert names == FlagNames(flags, 1);
    if flags / 2 % 2 != 0 { names := names + ["SYN"]; }
    assert names == FlagNames(flags, 2);
    if flags / 4 % 2 != 0 { names := names + ["RST"]; }
    assert names == FlagNames(flags, 3);
    if flags / 8 % 2 != 0 { names := names + ["PSH"]; }
    assert names == FlagNames(flags, 4);
    if flags / 16 % 2 != 0 { names := names + ["ACK"]; }
    assert names == FlagNames(flags, 5);
    if flags / 32 % 2 != 0 { names := names + ["URG"]; }
  }

  /** What is logged of a packet whose transport header starts at `transport`; `None` for a packet
      too short to have one. */
  ghost function DetailsAt(payload: seq<Byte>, transport: nat, proto: Byte): Option<Details> {
    if |payload| < transport + 4 then None
    else if proto == ICMP then Some(NOTHING.(icmp := Some((payload[transport], payload[transport + 1]))))
    else if proto != TCP && proto != UDP then Some(NOTHING)
    else
      var ports := NOTHING.(srcPort := Some(U16At(payload, transport)), dstPort := Some(U16At(payload, transport + 2)));
      if proto == UDP then Some(ports.(dns := DnsAt(payload, transport + 8)))
      else
        var flags := if |payload| >= transport + 14 then FlagNames(payload[transport + 13], 6) else [];
        Some(ports.(flags := Some(flags)))
  }

  method ExtractDetails(payload: seq<Byte>, transport: nat, proto: Byte) returns (r: Option<Details>)
    ensures r == DetailsAt(payload, transport, proto)
  {
    if |payload| < transport + 4 { return None; }
    if proto == TCP {
      var flags := [];
      if |payload| >= transport + 14 { flags := TcpFlags(payload[transport + 13]); }
      return Some(Details(Some(BigEndian(payload[transport], payload[transport + 1])),
                          Some(BigEndian(payload[transport + 2], payload[transport + 3])), Some(flags), None, None));
    } else if proto == UDP {
      var dns := ParseDns(payload, transport);
      return Some(Details(Some(BigEndian(payload[transport], payload[transport + 1])),
                          Some(BigEndian(payload[transport + 2], payload[transport + 3])), None, None, dns));
    } else if proto == ICMP {
      return Some(Details(None, None, None, Some((payload[transport], payload[transport + 1])), None));
    }
    return Some(NOTHING);
  }

  ghost function RecordOf(payload: seq<Byte>): Record {
    if |payload| < 20 || payload[0] / 16 != 4 then Record(None, None, None, NOTHING, false)
    else
      var d := DetailsAt(payload, payload[0] % 16 * 4, payload[9]);
      Record(Some(payload[12..16]), Some(payload[16..20]), Some(payload[9]),
             if d.Some? then d.value else NOTHING, d.None?)
  }

  /** The record is defined for every payload: no index leaves it. */
  method MsgReceived(payload: seq<Byte>) returns (r: Record)
    ensures r == RecordOf(payload)
  {
    r := Record(None, None, None, NOTHING, false);
    if |payload| >= 20 {
      var version := payload[0] / 16;
      if version == 4 {
        r := r.(src := Some(payload[12..16]), dst := Some(payload[16..20]), proto := Some(payload[9]));
        var headerLen := payload[0] % 16 * 4;
        var d := ExtractDetails(payload, headerLen, payload[9]);
        match d
        case Some(details) => r := r.(details := details);
        case None => r := r.(invalid := true);
      }
    }
  }

  // ----- a packet's meaning is what is logged

  lemma NameAtIs(payload: seq<Byte>, pos: nat, d: Reading)
    requires Readable(payload, pos, d)
    ensures NameAt(payload, pos) == Some((NameText(Labels(payload, pos, d)), EndOf(pos, d)))
  {
    forall e | Readable(payload, pos, e) ensures e == d { OneReading(payload, pos, e, d); }
  }

  function Bytes16(n: U16): seq<nat> { [n / 256, n % 256] }

  lemma HeldU16(payload: seq<Byte>, pos: nat, n: U16)
    requires Holds(payload, pos, Bytes16(n))
    ensures pos + 2 <= |payload| && U16At(payload, pos) == n
  {
    assert payload[pos] == payload[pos..pos + 2][0] && payload[pos + 1] == payload[pos..pos + 2][1];
  }

  /** A DNS message over UDP: the header words it starts with, its first question. */
  datatype DnsPacket = DnsPacket(ihl: nat, src: seq<Byte>, dst: seq<Byte>, srcPort: U16, dstPort: U16,
                                 id: U16, flags: U16, questions: U16, labels: seq<seq<Byte>>, qtype: U16, qclass: U16)

  predicate WellFormed(p: DnsPacket) {
    5 <= p.ihl <= 15 && |p.src| == |p.dst| == 4 && p.questions > 0 && p.labels != [] && LabelsOk(p.labels)
  }

  /** The bytes carry that packet: section 3.1 of RFC 791, RFC 768, section 4.1 of RFC 1035. Every
      byte not mentioned is free. */
  predicate CarriesIp(payload: seq<Byte>, p: DnsPacket) {
    20 <= 4 * p.ihl <= |payload| && HoldsIp(payload, p.ihl, 17, p.src, p.dst)
  }

  /** Version 4, the header length in words, the protocol, both addresses. */
  predicate HoldsIp(payload: seq<Byte>, ihl: nat, proto: Byte, src: seq<Byte>, dst: seq<Byte>) {
    && |payload| >= 20 && ihl <= 15 && payload[0] == 64 + ihl && payload[9] == proto
    && |src| == |dst| == 4 && Holds(payload, 12, src) && Holds(payload, 16, dst)
  }

  predicate CarriesUdp(payload: seq<Byte>, p: DnsPacket) {
    Holds(payload, 4 * p.ihl, Bytes16(p.srcPort)) && Holds(payload, 4 * p.ihl + 2, Bytes16(p.dstPort))
  }

  predicate CarriesDns(payload: seq<Byte>, dns: nat, p: DnsPacket) {
    Holds(payload, dns, Bytes16(p.id)) && Holds(payload, dns + 2, Bytes16(p.flags)) &&
      Holds(payload, dns + 4, Bytes16(p.questions))
    && Holds(payload, dns + 12, LabelBytes(p.labels) + [0])
    && var end := dns + 12 + |LabelBytes(p.labels) + [0]|;
       Holds(payload, end, Bytes16(p.qtype)) && Holds(payload, end + 2, Bytes16(p.qclass))
  }

  function Meaning(p: DnsPacket): DnsInfo
    requires p.labels != []
  {
    if p.flags < 0x8000 then Query(Joined(p.labels), p.qtype, p.id) else Response(Joined(p.labels), p.flags % 16, p.id)
  }

  lemma QuestionIsRead(payload: seq<Byte>, pos: nat, labels: seq<seq<Byte>>)
    requires LabelsOk(labels) && labels != [] && Holds(payload, pos, LabelBytes(labels) + [0])
    ensures NameAt(payload, pos) == Some((Joined(labels), pos + |LabelBytes(labels) + [0]|))
  {
    WrittenNameIsRead(payload, pos, labels);
    NameAtIs(payload, pos, Prepend(labels, Root));
    ExtendJoins("", labels);
    assert "" + Joined(labels) == Joined(labels);
  }

  lemma DnsIsLogged(payload: seq<Byte>, dns: nat, p: DnsPacket)
    requires WellFormed(p) && CarriesDns(payload, dns, p)
    ensures DnsAt(payload, dns) == Some(Meaning(p))
  {
    var end := dns + 12 + |LabelBytes(p.labels) + [0]|;
    QuestionIsRead(payload, dns + 12, p.labels);
    HeldU16(payload, dns, p.id);
    HeldU16(payload, dns + 2, p.flags);
    HeldU16(payload, dns + 4, p.questions);
    HeldU16(payload, end, p.qtype);
  }

  /** Every UDP packet with a DNS message whose question name is written without pointers is logged
      with its addresses, ports, and the name, type or code, and identifier of that message. */
  lemma PacketIsLogged(payload: seq<Byte>, p: DnsPacket)
    requires WellFormed(p) && CarriesIp(payload, p) && CarriesUdp(payload, p) && CarriesDns(payload, 4 * p.ihl + 8, p)
    ensures RecordOf(payload) == Record(Some(p.src), Some(p.dst), Some(17),
              Details(Some(p.srcPort), Some(p.dstPort), None, None, Some(Meaning(p))), false)
  {
    HeldU16(payload, 4 * p.ihl, p.srcPort);
    HeldU16(payload, 4 * p.ihl + 2, p.dstPort);
    DnsIsLogged(payload, 4 * p.ihl + 8, p);
    HeaderIsLogged(payload, p.ihl, 17, p.src, p.dst);
  }

  /** Whatever the transport: the addresses and the protocol are logged, and the header length says
      where the details are. */
  lemma HeaderIsLogged(payload: seq<Byte>, ihl: nat, proto: Byte, src: seq<Byte>, dst: seq<Byte>)
    requires HoldsIp(payload, ihl, proto, src, dst)
    ensures var d := DetailsAt(payload, 4 * ihl, proto);
            RecordOf(payload) ==
            Record(Some(src), Some(dst), Some(proto), if d.Some? then d.value else NOTHING, d.None?)
  {
    assert payload[0] / 16 == 4 && payload[0] % 16 == ihl;
  }

  // ----- the other transports

  function Bit(b: bool): nat { if b then 1 else 0 }

  /** A TCP segment, section 3.1 of RFC 9293: its ports, its control bits from the lowest, and the two
      bits above them. */
  datatype TcpPacket = TcpPacket(ihl: nat, src: seq<Byte>, dst: seq<Byte>, srcPort: U16, dstPort: U16,
                                 fin: bool, syn: bool, rst: bool, psh: bool, ack: bool, urg: bool, upper: nat)

  function ControlBits(p: TcpPacket): nat {
    Bit(p.fin) + 2 * Bit(p.syn) + 4 * Bit(p.rst) + 8 * Bit(p.psh) + 16 * Bit(p.ack) + 32 * Bit(p.urg) + 64 * p.upper
  }

  /** The bytes carry that segment, or its beginning: the control bits may be cut off. */
  predicate CarriesTcp(payload: seq<Byte>, p: TcpPacket) {
    && HoldsIp(payload, p.ihl, 6, p.src, p.dst) && p.upper < 4
    && Holds(payload, 4 * p.ihl, Bytes16(p.srcPort)) && Holds(payload, 4 * p.ihl + 2, Bytes16(p.dstPort))
    && (4 * p.ihl + 13 < |payload| ==> payload[4 * p.ihl + 13] == ControlBits(p))
  }

  function Named(b: bool, name: string): seq<string> { if b then [name] else [] }

  /** A bit between lower and higher ones. */
  lemma LowBit(flags: Byte, i: nat, b: bool, low: nat, high: nat)
    requires i < 3 && low < [1, 2, 4][i] && flags == low + [1, 2, 4][i] * (Bit(b) + 2 * high)
    ensures FlagSet(flags, i) == b
  {
    if i == 0 { assert flags == Bit(b) + 2 * high; }
    else if i == 1 { assert flags / 2 == Bit(b) + 2 * high; }
    else { assert flags / 4 == Bit(b) + 2 * high; }
  }

  lemma HighBit(flags: Byte, i: nat, b: bool, low: nat, high: nat)
    requires 3 <= i < 6 && low < [8, 16, 32][i - 3] && flags == low + [8, 16, 32][i - 3] * (Bit(b) + 2 * high)
    ensures FlagSet(flags, i) == b
  {
    if i == 3 { assert flags / 8 == Bit(b) + 2 * high; }
    else if i == 4 { assert flags / 16 == Bit(b) + 2 * high; }
    else { assert flags / 32 == Bit(b) + 2 * high; }
  }

  lemma BitsAreRead(p: TcpPacket, flags: Byte)
    requires p.upper < 4 && flags == ControlBits(p)
    ensures FlagSet(flags, 0) == p.fin && FlagSet(flags, 1) == p.syn && FlagSet(flags, 2) == p.rst
    ensures FlagSet(flags, 3) == p.psh && FlagSet(flags, 4) == p.ack && FlagSet(flags, 5) == p.urg
  {
    var h5 := p.upper;
    var h4 := Bit(p.urg) + 2 * h5;
    var h3 := Bit(p.ack) + 2 * h4;
    var h2 := Bit(p.psh) + 2 * h3;
    var h1 := Bit(p.rst) + 2 * h2;
    var h0 := Bit(p.syn) + 2 * h1;
    var l2 := Bit(p.fin) + 2 * Bit(p.syn);
    var l3 := l2 + 4 * Bit(p.rst);
    var l4 := l3 + 8 * Bit(p.psh);
    LowBit(flags, 0, p.fin, 0, h0);
    LowBit(flags, 1, p.syn, Bit(p.fin), h1);
    LowBit(flags, 2, p.rst, l2, h2);
    HighBit(flags, 3, p.psh, l3, h3);
    HighBit(flags, 4, p.ack, l4, h4);
    HighBit(flags, 5, p.urg, l4 + 16 * Bit(p.ack), h5);
  }

  lemma BitsAreNamed(p: TcpPacket, flags: Byte)
    requires p.upper < 4 && flags == ControlBits(p)
    ensures FlagNames(flags, 6) == Named(p.fin, "FIN") + Named(p.syn, "SYN") + Named(p.rst, "RST")
                                 + Named(p.psh, "PSH") + Named(p.ack, "ACK") + Named(p.urg, "URG")
  {
    BitsAreRead(p, flags);
    assert FlagNames(flags, 1) == Named(p.fin, "FIN");
    assert FlagNames(flags, 2) == FlagNames(flags, 1) + Named(p.syn, "SYN");
    assert FlagNames(flags, 3) == FlagNames(flags, 2) + Named(p.rst, "RST");
    assert FlagNames(flags, 4) == FlagNames(flags, 3) + Named(p.psh, "PSH");
    assert FlagNames(flags, 5) == FlagNames(flags, 4) + Named(p.ack, "ACK");
    assert FlagNames(flags, 6) == FlagNames(flags, 5) + Named(p.urg, "URG");
  }

  /** Every TCP packet is logged with its addresses, its source and its destination port, and the names
      of its control bits, lowest first, as far as the packet has them. */
  lemma TcpIsLogged(payload: seq<Byte>, p: TcpPacket)
    requires CarriesTcp(payload, p)
    ensures var flags := Named(p.fin, "FIN") + Named(p.syn, "SYN") + Named(p.rst, "RST")
                       + Named(p.psh, "PSH") + Named(p.ack, "ACK") + Named(p.urg, "URG");
            var seen := if 4 * p.ihl + 13 < |payload| then flags else [];
            RecordOf(payload) == Record(Some(p.src), Some(p.dst), Some(6),
              Details(Some(p.srcPort), Some(p.dstPort), Some(seen), None, None), false)
  {
    HeldU16(payload, 4 * p.ihl, p.srcPort);
    HeldU16(payload, 4 * p.ihl + 2, p.dstPort);
    HeaderIsLogged(payload, p.ihl, 6, p.src, p.dst);
    if 4 * p.ihl + 13 < |payload| { BitsAreNamed(p, payload[4 * p.ihl + 13]); }
  }

  /** Every UDP packet is logged with its addresses and ports, and without a name if there is no room
      for a DNS header. */
  lemma UdpIsLogged(payload: seq<Byte>, ihl: nat, src: seq<Byte>, dst: seq<Byte>, srcPort: U16, dstPort: U16)
    requires HoldsIp(payload, ihl, 17, src, dst)
    requires Holds(payload, 4 * ihl, Bytes16(srcPort)) && Holds(payload, 4 * ihl + 2, Bytes16(dstPort))
    ensures exists dns :: && RecordOf(payload) == Record(Some(src), Some(dst), Some(17),
                               Details(Some(srcPort), Some(dstPort), None, None, dns), false)
                          && (|payload| < 4 * ihl + 20 ==> dns == None)
  {
    HeldU16(payload, 4 * ihl, srcPort);
    HeldU16(payload, 4 * ihl + 2, dstPort);
    HeaderIsLogged(payload, ihl, 17, src, dst);
  }

  /** The words a DNS header starts with. */
  predicate HoldsHeader(payload: seq<Byte>, dns: nat, id: U16, flags: U16, questions: U16) {
    && dns + 12 <= |payload| && Holds(payload, dns, Bytes16(id)) && Holds(payload, dns + 2, Bytes16(flags))
    && Holds(payload, dns + 4, Bytes16(questions))
  }

  /** A message with a question whose name can be read, pointers or not: a response is logged with the
      name and its code, a query with the name and its type if its question is whole. */
  lemma NamedDnsIsLogged(
    payload: seq<Byte>, dns: nat, pos: nat, id: U16, flags: U16, questions: U16, d: Reading, qtype: U16)
    requires HoldsHeader(payload, dns, id, flags, questions) && pos == dns + 12 && questions > 0
    requires Readable(payload, pos, d)
    requires EndOf(pos, d) + 4 <= |payload| ==> Holds(payload, EndOf(pos, d), Bytes16(qtype))
    ensures var name := NameText(Labels(payload, pos, d));
            DnsAt(payload, dns) ==
            if flags >= 0x8000 then Some(Response(name, flags % 16, id))
            else if EndOf(pos, d) + 4 <= |payload| then Some(Query(name, qtype, id)) else None
  {
    HeldU16(payload, dns, id);
    HeldU16(payload, dns + 2, flags);
    HeldU16(payload, dns + 4, questions);
    NameAtIs(payload, pos, d);
    if EndOf(pos, d) + 4 <= |payload| { HeldU16(payload, EndOf(pos, d), qtype); }
  }

  /** Without a question, or with a name that cannot be read, only a response is logged, with its code. */
  lemma UnnamedDnsIsLogged(payload: seq<Byte>, dns: nat, pos: nat, id: U16, flags: U16, questions: U16)
    requires HoldsHeader(payload, dns, id, flags, questions) && pos == dns + 12
    requires questions == 0 || forall d :: !Readable(payload, pos, d)
    ensures DnsAt(payload, dns) == if flags >= 0x8000 then Some(Response("", flags % 16, id)) else None
  {
    HeldU16(payload, dns, id);
    HeldU16(payload, dns + 2, flags);
    HeldU16(payload, dns + 4, questions);
  }

  /** An ICMP message, RFC 792: the first two bytes of four are its type and its code. */
  datatype IcmpPacket = IcmpPacket(ihl: nat, src: seq<Byte>, dst: seq<Byte>, kind: Byte, code: Byte)

  predicate CarriesIcmp(payload: seq<Byte>, p: IcmpPacket) {
    && HoldsIp(payload, p.ihl, 1, p.src, p.dst) && 4 * p.ihl + 4 <= |payload|
    && Holds(payload, 4 * p.ihl, [p.kind, p.code])
  }

  /** Every ICMP packet is logged with its addresses, its type and its code. */
  lemma IcmpIsLogged(payload: seq<Byte>, p: IcmpPacket)
    requires CarriesIcmp(payload, p)
    ensures RecordOf(payload) == Record(Some(p.src), Some(p.dst), Some(1),
              Details(None, None, None, Some((p.kind, p.code)), None), false)
  {
    var t := 4 * p.ihl;
    assert payload[t] == payload[t..t + 2][0] && payload[t + 1] == payload[t..t + 2][1];
    HeaderIsLogged(payload, p.ihl, 1, p.src, p.dst);
  }

  /** Any other protocol is logged by its number and addresses alone; a packet without four bytes after
      its header as invalid. */
  lemma RestIsLogged(payload: seq<Byte>, ihl: nat, proto: Byte, src: seq<Byte>, dst: seq<Byte>)
    requires HoldsIp(payload, ihl, proto, src, dst)
    ensures |payload| < 4 * ihl + 4 ==>
            RecordOf(payload) == Record(Some(src), Some(dst), Some(proto), Details(None, None, None, None, None), true)
    ensures |payload| >= 4 * ihl + 4 && proto !in [1, 6, 17] ==>
            RecordOf(payload) == Record(Some(src), Some(dst), Some(proto), Details(None, None, None, None, None), false)
  {
    HeaderIsLogged(payload, ihl, proto, src, dst);
  }

  lemma NotIpIsNotLogged(payload: seq<Byte>)
    requires |payload| < 20 || !(64 <= payload[0] < 80)
    ensures RecordOf(payload) == Record(None, None, None, Details(None, None, None, None, None), false)
  {
  }

  // ----- where pointer offsets count from

  /** A DNS response from port 53 to an address ending in .1.98 whose question is a pointer to a name
      `a` at offset 18 of the message. */
  predicate PointsToA(payload: seq<Byte>) {
    && |payload| == 49 && payload[0] == 0x45 && payload[9] == UDP
    && payload[18] == 1 && payload[19] == 98                            // end of the destination address
    && payload[20] == 0 && payload[21] == 53                            // source port
    && payload[30] >= 0x80 && payload[31] % 16 == 0                     // flags: a response without error
    && payload[32] == 0 && payload[33] == 1                             // one question
    && payload[40] == 0xC0 && payload[41] == 18                         // its name
    && payload[46] == 1 && payload[47] == 97 && payload[48] == 0        // offset 18: the name `a`
  }

  lemma PointsToB(payload: seq<Byte>)
    requires PointsToA(payload)
    ensures ReadsAs(payload, 40, Pointer(Label(1, Root)), [[98]], 1, 42)
  {
    assert payload[19..20] == [98];
    assert ReadsAs(payload, 18, Label(1, Root), [[98]], 0, 21);
  }

  /** RFC 1035 counts the offset of a pointer from the start of the DNS message, the logger from the
      start of the packet, where the IP header is: every such response is about the name `a` and is
      logged as one about `b`, the last byte of the destination address. */
  lemma PointersCountFromPacket(payload: seq<Byte>)
    requires PointsToA(payload)
    ensures ReadsAs(payload[28..], 12, Pointer(Label(1, Root)), [[97]], 1, 14)
    ensures RecordOf(payload).details.dns == Some(Response("b", 0, U16At(payload, 28)))
  {
    var msg := payload[28..];
    assert msg[19..20] == [97];
    assert ReadsAs(msg, 18, Label(1, Root), [[97]], 0, 21);
    BIsLogged(payload);
    assert DetailsAt(payload, 20, UDP).Some?;
  }

  lemma BIsLogged(payload: seq<Byte>)
    requires PointsToA(payload)
    ensures DnsAt(payload, 28) == Some(Response("b", 0, U16At(payload, 28)))
  {
    var labels: seq<seq<Byte>> := [[98]];
    PointsToB(payload);
    NameAtIs(payload, 40, Pointer(Label(1, Root)));
    ExtendJoins("", labels);
    assert Joined(labels) == LabelText([98]) == "b";
    assert "" + "b" == "b";
    assert NameAt(payload, 28 + 12) == Some(("b", 42));
    assert Question(payload, 28);
    assert U16At(payload, 30) >= 0x8000;
    FlagsModulo(payload[30], payload[31]);
  }

  lemma FlagsModulo(high: Byte, low: Byte)
    ensures BigEndian(high, low) % 16 == low % 16
  {
  }

  /** The flags logged are the flags set, in order of their bits. */
  lemma {:induction false} FlagsAreThoseSet(flags: Byte, k: nat, i: nat)
    requires k <= 6 && i < 6
    ensures FLAG_NAMES[i] in FlagNames(flags, k) <==> i < k && FlagSet(flags, i)
    decreases k
  {
    if k > 0 { FlagsAreThoseSet(flags, k - 1, i); }
  }
}
