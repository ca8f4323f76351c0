/** Flow.java and FlowParser.java: a microflow as its consumers see it, with its textual key. */
module FlowDomain {
  import opened Options
  import opened FlowTypes
  import opened FlowRecord
  import opened Text
  import KafkaClient

  datatype FlowProtocol = TCP | UDP

  /** The fields of a Flow that say what was measured. */
  datatype Report = Report(srcIp: string, dstIp: string, srcPort: int, dstPort: int,
                           protocol: FlowProtocol, dir: Direction,
                           packetCount: int, byteCount: int, minPacketSize: int, maxPacketSize: int,
                           meanIatUs: real, syn: int, fin: int, rst: int, ack: int)

  /** FlowProtocol.name(). */
  function NameOf(protocol: FlowProtocol): string {
    match protocol
    case TCP => "TCP"
    case UDP => "UDP"
  }

  /** flow_key: source, destination and protocol, delimited. */
  function FlowKeyText(r: Report): string {
    r.srcIp + ":" + (IntText(r.srcPort) + "-" + (r.dstIp + ":" + (IntText(r.dstPort) + "-" + NameOf(r.protocol))))
  }

  class Flow {
    var flowKey: string
    var srcIp: string
    var dstIp: string
    var srcPort: int
    var dstPort: int
    var protocol: FlowProtocol
    var dir: Direction
    var packetCount: int
    var byteCount: int
    var minPacketSize: int
    var maxPacketSize: int
    var meanIatUs: real
    var tcpSynCount: int
    var tcpFinCount: int
    var tcpRstCount: int
    var tcpAckCount: int

    ghost function Value(): Report
      reads this
    {
      Report(srcIp, dstIp, srcPort, dstPort, protocol, dir, packetCount, byteCount, minPacketSize, maxPacketSize,
             meanIatUs, tcpSynCount, tcpFinCount, tcpRstCount, tcpAckCount)
    }

    /** The constructor the parser uses. */
    constructor (r: Report)
      ensures Value() == r && flowKey == FlowKeyText(r)
    {
      srcIp, dstIp, srcPort, dstPort := r.srcIp, r.dstIp, r.srcPort, r.dstPort;
      protocol, dir := r.protocol, r.dir;
      packetCount, byteCount := r.packetCount, r.byteCount;
      minPacketSize, maxPacketSize, meanIatUs := r.minPacketSize, r.maxPacketSize, r.meanIatUs;
      tcpSynCount, tcpFinCount, tcpRstCount, tcpAckCount := r.syn, r.fin, r.rst, r.ack;
      var sb := r.srcIp + ":" + IntText(r.srcPort) + "-";
      sb := sb + r.dstIp + ":" + IntText(r.dstPort) + "-";
      sb := sb + NameOf(r.protocol);
      flowKey := sb;
      new;
      assert sb == FlowKeyText(r);
    }
  }

  /** For example. */
  lemma OneFlowKey(r: Report)
    requires r.srcIp == "192.168.0.1" && r.srcPort == 50000 && r.dstIp == "8.8.8.8" && r.dstPort == 443
    requires r.protocol == TCP
    ensures FlowKeyText(r) == "192.168.0.1:50000-8.8.8.8:443-TCP"
  {
    assert IntText(443) == "443" && IntText(50000) == "50000";
  }

  // ----- the key identifies the flow

  predicate IsPort(n: int) {
    0 <= n < 0x1_0000
  }

  predicate HasPorts(r: Report) {
    IsPort(r.srcPort) && IsPort(r.dstPort)
  }

  predicate SameFlow(a: Report, b: Report) {
    && a.srcIp == b.srcIp && a.srcPort == b.srcPort
    && a.dstIp == b.dstIp && a.dstPort == b.dstPort
    && a.protocol == b.protocol
  }

  /** What stands after the source address of a key whose source port is n. */
  function AfterAddress(n: int, rest: string): string {
    ":" + (IntText(n) + "-" + rest)
  }

  ghost predicate HidesAt(s: string, before: string, n: int, after: string) {
    IsPort(n) && s == before + AfterAddress(n, after)
  }

  /** An address that contains a colon, a port and a dash in a row. */
  ghost predicate HidesPort(s: string) {
    exists before, n, after :: HidesAt(s, before, n, after)
  }

  /** No other 5-tuple has the flow_key of r. */
  ghost predicate Identified(r: Report) {
    forall o: Report :: HasPorts(o) && FlowKeyText(o) == FlowKeyText(r) ==> SameFlow(o, r)
  }

  lemma SplitPort(m: nat, n: nat, b: string, d: string)
    requires IntText(m) + "-" + b == IntText(n) + "-" + d
    ensures m == n && b == d
  {
    NoSeparator(m, '-');
    NoSeparator(n, '-');
    SplitAt(Decimal(m), b, Decimal(n), d, '-');
    DecimalInjective(m, n);
  }

  /** Two readings of a text around a colon: the longer beginning contains what follows the shorter one. */
  lemma LongerContains(s: string, u: string, t: string, port: string, v: string) returns (after: string)
    requires s + ":" + u == t + ":" + port + v && |t| < |s| && ':' !in port
    ensures s == t + ":" + port + after && v == after + ":" + u
  {
    var w, k := s + ":" + u, |t| + 1 + |port|;
    assert w[|s|] == ':';
    assert forall i :: |t| < i < k ==> w[i] == port[i - |t| - 1] != ':';
    after := s[k..];
    assert w[..k] == t + ":" + port && w[k..] == v;
    assert s == w[..k] + after && v == after + ":" + u;
  }

  /** So the longer of two addresses hides the port that follows the shorter one. */
  lemma LongerHides(s: string, u: string, t: string, n: int, v: string) returns (after: string)
    requires IsPort(n) && s + ":" + u == t + AfterAddress(n, v) && |t| < |s|
    ensures HidesAt(s, t, n, after) && v == after + ":" + u
  {
    var port := IntText(n) + "-";
    NoSeparator(n, ':');
    assert t + AfterAddress(n, v) == t + ":" + port + v;
    after := LongerContains(s, u, t, port, v);
    assert t + AfterAddress(n, after) == t + ":" + port + after;
  }

  /** Nothing after the last colon of a key looks like one. */
  lemma LastColon(s: string, n: int, protocol: FlowProtocol, q: nat)
    requires IsPort(n)
    requires var w := s + AfterAddress(n, NameOf(protocol)); q < |w| && w[q] == ':'
    ensures q <= |s|
  {
    NoSeparator(n, ':');
    var w, end := s + AfterAddress(n, NameOf(protocol)), IntText(n) + "-" + NameOf(protocol);
    assert forall i :: |s| < i < |w| ==> w[i] == end[i - |s| - 1] != ':';
  }

  /** The last address of a key ends at its last colon. */
  lemma SplitLast(s: string, m: int, p: FlowProtocol, t: string, n: int, q: FlowProtocol)
    requires IsPort(m) && IsPort(n) && s + AfterAddress(m, NameOf(p)) == t + AfterAddress(n, NameOf(q))
    ensures s == t && m == n && p == q
  {
    hide IntText;
    var w := s + AfterAddress(m, NameOf(p));
    assert w[|s|] == ':' && w[|t|] == ':';
    LastColon(s, m, p, |t|);
    LastColon(t, n, q, |s|);
    var tail := w[|s| + 1..];
    assert w[..|s|] == s && w[..|t|] == t;
    assert tail == IntText(m) + "-" + NameOf(p) == IntText(n) + "-" + NameOf(q);
    SplitPort(m, n, NameOf(p), NameOf(q));
  }

  /** flow_key read from the left: the source address, and what follows it. */
  function DestinationText(r: Report): string {
    r.dstIp + AfterAddress(r.dstPort, NameOf(r.protocol))
  }

  lemma KeyShape(r: Report)
    ensures FlowKeyText(r) == r.srcIp + AfterAddress(r.srcPort, DestinationText(r))
    ensures FlowKeyText(r) == r.srcIp + ":" + (IntText(r.srcPort) + "-" + DestinationText(r))
  {
  }

  /** A key whose source address is longer puts a piece of the other's destination into it. */
  lemma LongerSource(r: Report, o: Report)
    requires HasPorts(r) && HasPorts(o) && FlowKeyText(o) == FlowKeyText(r) && |o.srcIp| > |r.srcIp|
    ensures HidesPort(r.dstIp)
  {
    hide NameOf, IntText;
    KeyShape(r);
    KeyShape(o);
    var moved := LongerHides(o.srcIp, IntText(o.srcPort) + "-" + DestinationText(o),
                             r.srcIp, r.srcPort, DestinationText(r));
    assert DestinationText(r) == moved + AfterAddress(o.srcPort, DestinationText(o));
    if |moved| < |r.dstIp| {
      var after := LongerHides(r.dstIp, IntText(r.dstPort) + "-" + NameOf(r.protocol),
                               moved, o.srcPort, DestinationText(o));
    } else {
      var rest := moved + AfterAddress(o.srcPort, o.dstIp);
      assert DestinationText(r) == rest + AfterAddress(o.dstPort, NameOf(o.protocol));
      assert DestinationText(r)[|rest|] == ':';
      LastColon(r.dstIp, r.dstPort, r.protocol, |rest|);
      assert false;
    }
  }

  /** An address pattern alone decides: no other 5-tuple has the flow_key of r if and only if neither of its
      addresses contains a colon, a port and a dash in a row. */
  lemma IdentifiedExactly(r: Report)
    requires HasPorts(r)
    ensures Identified(r) <==> !HidesPort(r.srcIp) && !HidesPort(r.dstIp)
  {
    if !HidesPort(r.srcIp) && !HidesPort(r.dstIp) {
      forall o: Report | HasPorts(o) && FlowKeyText(o) == FlowKeyText(r)
        ensures SameFlow(o, r)
      {
        PlainIsIdentified(r, o);
      }
    }
    if HidesPort(r.srcIp) {
      var before, n, after :| HidesAt(r.srcIp, before, n, after);
      MovedToDestination(r, before, n, after);
    }
    if HidesPort(r.dstIp) {
      var before, n, after :| HidesAt(r.dstIp, before, n, after);
      MovedToSource(r, before, n, after);
    }
  }

  lemma PlainIsIdentified(r: Report, o: Report)
    requires HasPorts(r) && HasPorts(o) && FlowKeyText(o) == FlowKeyText(r)
    requires !HidesPort(r.srcIp) && !HidesPort(r.dstIp)
    ensures SameFlow(o, r)
  {
    KeyShape(r);
    KeyShape(o);
    if |o.srcIp| < |r.srcIp| {
      var after := LongerHides(r.srcIp, IntText(r.srcPort) + "-" + DestinationText(r),
                               o.srcIp, o.srcPort, DestinationText(o));
    } else if |o.srcIp| > |r.srcIp| {
      LongerSource(r, o);
    } else {
      var w := FlowKeyText(r);
      assert r.srcIp == w[..|r.srcIp|] == o.srcIp;
      assert w[|r.srcIp| + 1..] == IntText(r.srcPort) + "-" + DestinationText(r);
      assert w[|r.srcIp| + 1..] == IntText(o.srcPort) + "-" + DestinationText(o);
      SplitPort(r.srcPort, o.srcPort, DestinationText(r), DestinationText(o));
      SplitLast(r.dstIp, r.dstPort, r.protocol, o.dstIp, o.dstPort, o.protocol);
    }
  }

  /** The same key with what follows a hidden source port moved to the destination. */
  lemma MovedToDestination(r: Report, before: string, n: int, after: string)
    requires HasPorts(r) && HidesAt(r.srcIp, before, n, after)
    ensures !Identified(r)
  {
    hide NameOf, IntText;
    var o := r.(srcIp := before, srcPort := n, dstIp := after + AfterAddress(r.srcPort, r.dstIp));
    KeyShape(r);
    KeyShape(o);
    assert DestinationText(o) == after + AfterAddress(r.srcPort, DestinationText(r));
    assert FlowKeyText(o) == FlowKeyText(r);
    assert HasPorts(o) && |o.srcIp| < |r.srcIp|;
  }

  /** The same key with what precedes a hidden destination port moved to the source. */
  lemma MovedToSource(r: Report, before: string, n: int, after: string)
    requires HasPorts(r) && HidesAt(r.dstIp, before, n, after)
    ensures !Identified(r)
  {
    hide NameOf, IntText;
    var o := r.(srcIp := r.srcIp + AfterAddress(r.srcPort, before), srcPort := n, dstIp := after);
    KeyShape(r);
    KeyShape(o);
    assert DestinationText(r) == before + AfterAddress(n, DestinationText(o));
    assert FlowKeyText(o) == FlowKeyText(r);
    assert HasPorts(o) && |o.srcIp| > |r.srcIp|;
  }

  /** So two flows have the same flow_key exactly when their 5-tuples agree, once the addresses of one of them
      hide no port. */
  lemma FlowKeyIdentifies(a: Report, b: Report)
    requires HasPorts(a) && HasPorts(b) && !HidesPort(a.srcIp) && !HidesPort(a.dstIp)
    ensures FlowKeyText(a) == FlowKeyText(b) <==> SameFlow(a, b)
  {
    IdentifiedExactly(a);
  }

  /** An address without a colon, as in IPv4, hides no port, nor does one without a dash, as in IPv6. */
  lemma AddressesHideNothing(s: string)
    ensures HidesPort(s) ==> ':' in s && '-' in s
  {
    if HidesPort(s) {
      var before, n, after :| HidesAt(s, before, n, after);
      assert s[|before|] == ':' && s[|before| + 1 + |IntText(n)|] == '-';
    }
  }

  /** Texts that are no addresses can do it. */
  lemma HiddenPortConfuses() returns (a: Report, b: Report)
    ensures FlowKeyText(a) == FlowKeyText(b) && !SameFlow(a, b)
  {
    a := Report("1:2-3", "4", 5, 6, TCP, Unknown, 0, 0, 0, 0, 0.0, 0, 0, 0, 0);
    assert IntText(2) == "2";
    assert HidesAt(a.srcIp, "1", 2, "3");
    IdentifiedExactly(a);
    b :| HasPorts(b) && FlowKeyText(b) == FlowKeyText(a) && !SameFlow(b, a);
  }

  // ----- from the sniffer's message to a Flow

  /** A JSON number read into a Java int. */
  function Signed32(x: uint32): int {
    if x < 0x8000_0000 then x else x - 0x1_0000_0000
  }

  /** FlowDirection.valueOf, FlowProtocol.valueOf. */
  function DirectionValue(name: string): Option<Direction> {
    if name == "INBOUND" then Some(Inbound)
    else if name == "OUTBOUND" then Some(Outbound)
    else if name == "LATERAL" then Some(Lateral)
    else if name == "UNKNOWN" then Some(Unknown)
    else None
  }

  function ProtocolValue(name: string): Option<FlowProtocol> {
    if name == "TCP" then Some(TCP) else if name == "UDP" then Some(UDP) else None
  }

  /** readJson, of the fields of a message. An unknown name is an exception, and the message is dropped. */
  method ReadJson(m: KafkaClient.Message) returns (flow: Flow?)
    ensures match ReadMessage(m)
            case None => flow == null
            case Some(r) => flow != null && fresh(flow) && flow.Value() == r && flow.flowKey == FlowKeyText(r)
  {
    var protocol, dir := ProtocolValue(m.protocol), DirectionValue(m.dir);
    if protocol.None? || dir.None? {
      return null;
    }
    flow := new Flow(Report(Dotted(m.srcIp), Dotted(m.dstIp), m.srcPort, m.dstPort, protocol.value, dir.value,
                            Signed32(m.packets), Signed32(m.bytes), m.minSize, m.maxSize, m.meanIatUs,
                            Signed32(m.syn), Signed32(m.fin), Signed32(m.rst), Signed32(m.ack)));
  }

  function ReadMessage(m: KafkaClient.Message): Option<Report> {
    match (ProtocolValue(m.protocol), DirectionValue(m.dir))
    case (Some(protocol), Some(dir)) =>
      Some(Report(Dotted(m.srcIp), Dotted(m.dstIp), m.srcPort, m.dstPort, protocol, dir,
                  Signed32(m.packets), Signed32(m.bytes), m.minSize, m.maxSize, m.meanIatUs,
                  Signed32(m.syn), Signed32(m.fin), Signed32(m.rst), Signed32(m.ack)))
    case _ => None
  }

  predicate IsKnown(key: FlowKey) {
    IsTcp(key) || IsUdp(key)
  }

  /** What the consumers receive of a record. */
  function ReportOf(r: Record): Report
    requires IsKnown(r.key)
  {
    Report(Dotted(r.key.srcIp), Dotted(r.key.dstIp), r.key.srcPort, r.key.dstPort, if IsTcp(r.key) then TCP else UDP,
           r.direction, Signed32(r.packetCount), Signed32(r.byteCount), r.minPacketSize, r.maxPacketSize,
           KafkaClient.MeanIat(r),
           Signed32(r.synCount), Signed32(r.finCount), Signed32(r.rstCount), Signed32(r.ackCount))
  }

  /** Every record of a TCP or UDP flow survives the trip; any other is dropped. */
  lemma MessageTrip(r: Record)
    ensures ReadMessage(KafkaClient.MessageOf(r)) == if IsKnown(r.key) then Some(ReportOf(r)) else None
  {
  }

  /** On what the sniffer sends, flow_key tells flows apart just as the binary key of flow_t does. */
  lemma FlowKeyRefinesKey(a: Record, b: Record)
    requires IsKnown(a.key) && IsKnown(b.key)
    ensures FlowKeyText(ReportOf(a)) == FlowKeyText(ReportOf(b)) <==> a.key == b.key
  {
    NothingHidden(a);
    FlowKeyIdentifies(ReportOf(a), ReportOf(b));
    TupleIsKey(a, b);
  }

  lemma NothingHidden(r: Record)
    requires IsKnown(r.key)
    ensures HasPorts(ReportOf(r)) && !HidesPort(Dotted(r.key.srcIp)) && !HidesPort(Dotted(r.key.dstIp))
  {
    if ':' in Dotted(r.key.srcIp) {
      DottedHas(r.key.srcIp, ':');
    }
    if ':' in Dotted(r.key.dstIp) {
      DottedHas(r.key.dstIp, ':');
    }
    AddressesHideNothing(Dotted(r.key.srcIp));
    AddressesHideNothing(Dotted(r.key.dstIp));
  }

  lemma TupleIsKey(a: Record, b: Record)
    requires IsKnown(a.key) && IsKnown(b.key)
    ensures SameFlow(ReportOf(a), ReportOf(b)) <==> a.key == b.key
  {
    if SameFlow(ReportOf(a), ReportOf(b)) {
      DottedInjective(a.key.srcIp, b.key.srcIp);
      DottedInjective(a.key.dstIp, b.key.dstIp);
    }
  }
}
