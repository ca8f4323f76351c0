/** parser.c: what one captured frame says about the packet in it. */
module Parser {
  import opened Options
  import opened FlowTypes
  import opened FlowRecord

  const ETHERTYPE_IP := 0x0800
  const ETHERTYPE_VLAN := 0x8100

  type byte = x: int | 0 <= x < 0x100

  /** A 16-bit field in network byte order. */
  function U16(b: seq<byte>, i: nat): uint16
    requires i + 2 <= |b|
  {
    b[i] as int * 0x100 + b[i + 1]
  }

  function U32(b: seq<byte>, i: nat): uint32
    requires i + 4 <= |b|
  {
    b[i] as int * 0x100_0000 + b[i + 1] as int * 0x1_0000 + b[i + 2] as int * 0x100 + b[i + 3]
  }

  /** TH_FIN, TH_SYN, TH_RST and TH_ACK. */
  function FlagsOf(b: byte): Flags {
    Flags(b % 2 == 1, b / 2 % 2 == 1, b / 4 % 2 == 1, b / 16 % 2 == 1)
  }

  /** The type fields are read before the capture length is looked at. */
  predicate TypesCaptured(frame: seq<byte>) {
    |frame| >= 14 && (U16(frame, 12) == ETHERTYPE_VLAN ==> |frame| >= 18)
  }

  // ----- the meaning of a frame, layer by layer

  /** What an IPv4 header says. */
  datatype IpHeader = IpHeader(headerLen: nat, totalLen: uint16, protocol: byte, src: uint32, dst: uint32)

  /** What follows the Ethernet header and one VLAN tag, when its type is IPv4. */
  function LinkPayload(frame: seq<byte>): Option<seq<byte>>
    requires TypesCaptured(frame)
  {
    if U16(frame, 12) == ETHERTYPE_IP then Some(frame[14..])
    else if U16(frame, 12) == ETHERTYPE_VLAN && U16(frame, 16) == ETHERTYPE_IP then Some(frame[18..])
    else None
  }

  function ReadIp(datagram: seq<byte>): Option<IpHeader> {
    if |datagram| >= 20 && datagram[0] / 16 == 4 then
      Some(IpHeader(datagram[0] % 16 * 4, U16(datagram, 2), datagram[9], U32(datagram, 12), U32(datagram, 16)))
    else None
  }

  function Clamp(x: int): nat {
    if x < 0 then 0 else x
  }

  function ReadTransport(ip: IpHeader, segment: seq<byte>, ts: Timeval): Option<Packet> {
    if ip.protocol == IPPROTO_TCP && |segment| >= 20 then
      Some(Packet(FlowKey(ip.src, ip.dst, U16(segment, 0), U16(segment, 2), IPPROTO_TCP),
                  Clamp(ip.totalLen - ip.headerLen - segment[12] / 16 * 4), ts, FlagsOf(segment[13])))
    else if ip.protocol == IPPROTO_UDP && |segment| >= 8 then
      Some(Packet(FlowKey(ip.src, ip.dst, U16(segment, 0), U16(segment, 2), IPPROTO_UDP),
                  Clamp(ip.totalLen - ip.headerLen - 8), ts, Flags(false, false, false, false)))
    else None
  }

  function ReadDatagram(datagram: seq<byte>, ts: Timeval): Option<Packet> {
    match ReadIp(datagram)
    case None => None
    case Some(ip) =>
      if ip.headerLen > |datagram| then None else ReadTransport(ip, datagram[ip.headerLen..], ts)
  }

  /** The packet in a captured frame, or nothing when the frame is of no interest or cut too short. Sizes
      fit 16 bits, whatever the headers claim. */
  function Parse(frame: seq<byte>, ts: Timeval): (r: Option<Packet>)
    requires TypesCaptured(frame)
    ensures r.Some? ==> 0 <= r.value.payloadSize < 0x1_0000 && (IsTcp(r.value.key) || IsUdp(r.value.key))
  {
    match LinkPayload(frame)
    case None => None
    case Some(datagram) => ReadDatagram(datagram, ts)
  }

  lemma FieldsOf(b: seq<byte>, k: nat, i: nat)
    requires k + i + 2 <= |b|
    ensures U16(b[k..], i) == U16(b, k + i)
    ensures k + i + 4 <= |b| ==> U32(b[k..], i) == U32(b, k + i)
  {
  }

  /** Which frames are read, in terms of their bytes. */
  predicate IsRead(frame: seq<byte>)
    requires TypesCaptured(frame)
  {
    var offset := if U16(frame, 12) == ETHERTYPE_VLAN then 18 else 14;
    && U16(frame, offset - 2) == ETHERTYPE_IP && |frame| >= offset + 20 && frame[offset] / 16 == 4
    && (frame[offset + 9] == IPPROTO_TCP || frame[offset + 9] == IPPROTO_UDP)
    && |frame| >= offset + frame[offset] % 16 * 4 + if frame[offset + 9] == IPPROTO_TCP then 20 else 8
  }

  /** Exactly these frames are read, whatever their headers claim, with the addresses, the ports and the size at
      these places. A size below zero, as headers longer than the datagram make it, counts as zero. */
  lemma FramesRead(frame: seq<byte>, ts: Timeval)
    requires TypesCaptured(frame)
    ensures Parse(frame, ts).Some? <==> IsRead(frame)
    ensures IsRead(frame) ==>
              var ip := if U16(frame, 12) == ETHERTYPE_VLAN then 18 else 14;
              var next := ip + frame[ip] % 16 * 4;
              var header := if frame[ip + 9] == IPPROTO_TCP then frame[next + 12] / 16 * 4 else 8;
              var p, size := Parse(frame, ts).value, U16(frame, ip + 2) - frame[ip] % 16 * 4 - header;
              && p.key.protocol == frame[ip + 9] && p.timestamp == ts
              && p.key.srcIp == U32(frame, ip + 12) && p.key.dstIp == U32(frame, ip + 16)
              && p.key.srcPort == U16(frame, next) && p.key.dstPort == U16(frame, next + 2)
              && (size >= 0 ==> p.payloadSize == size) && (size < 0 ==> p.payloadSize == 0)
              && p.tcpFlags == if frame[ip + 9] == IPPROTO_TCP then FlagsOf(frame[next + 13])
                               else Flags(false, false, false, false)
  {
    hide U16, U32, FlagsOf, ReadDatagram;
    var ip := if U16(frame, 12) == ETHERTYPE_VLAN then 18 else 14;
    if U16(frame, ip - 2) == ETHERTYPE_IP {
      var d := frame[ip..];
      assert LinkPayload(frame) == Some(d);
      DatagramRead(d, ts);
      if |d| >= 20 {
        FieldsOf(frame, ip, 2);
        FieldsOf(frame, ip, 12);
        FieldsOf(frame, ip, 16);
        var next := frame[ip] % 16 * 4;
        if |d| >= next + 8 {
          FieldsOf(frame, ip, next);
          FieldsOf(frame, ip, next + 2);
        }
      }
    }
  }

  /** The same of what follows the link layer. */
  lemma DatagramRead(d: seq<byte>, ts: Timeval)
    ensures ReadDatagram(d, ts).Some? <==>
              && |d| >= 20 && d[0] / 16 == 4 && (d[9] == IPPROTO_TCP || d[9] == IPPROTO_UDP)
              && |d| >= d[0] % 16 * 4 + if d[9] == IPPROTO_TCP then 20 else 8
    ensures ReadDatagram(d, ts).Some? ==>
              var p, next := ReadDatagram(d, ts).value, d[0] % 16 * 4;
              var header := if d[9] == IPPROTO_TCP then d[next + 12] / 16 * 4 else 8;
              var size := U16(d, 2) - next - header;
              && p.key == FlowKey(U32(d, 12), U32(d, 16), U16(d, next), U16(d, next + 2), d[9])
              && p.timestamp == ts && p.payloadSize == Clamp(size)
              && p.tcpFlags == if d[9] == IPPROTO_TCP then FlagsOf(d[next + 13]) else Flags(false, false, false, false)
  {
    hide U16, U32, FlagsOf, Clamp;
    if |d| >= 20 && d[0] / 16 == 4 {
      var next := d[0] % 16 * 4;
      assert ReadIp(d) == Some(IpHeader(next, U16(d, 2), d[9], U32(d, 12), U32(d, 16)));
      if |d| >= next + 8 {
        FieldsOf(d, next, 0);
        FieldsOf(d, next, 2);
      }
    }
  }

  // ----- pkt_handler

  /** pkt_handler up to the critical section. The length of `bytes` is caplen; every read is checked to lie
      below it. */
  method ReadFrame(bytes: seq<byte>, ts: Timeval) returns (stats: Option<Packet>)
    requires TypesCaptured(bytes)
    ensures stats == Parse(bytes, ts)
  {
    hide U16, U32, FlagsOf;
    var etherType := U16(bytes, 12);
    var offset := 14;
    if etherType == ETHERTYPE_VLAN {
      offset := offset + 4;
      etherType := U16(bytes, offset - 2);
    }
    if etherType != ETHERTYPE_IP {
      return None;
    }
    ghost var datagram := bytes[offset..];
    assert LinkPayload(bytes) == Some(datagram);
    if |bytes| < offset + 20 {
      return None;
    }
    if bytes[offset] / 16 != 4 {
      return None;
    }
    FieldsOf(bytes, offset, 2);
    FieldsOf(bytes, offset, 12);
    FieldsOf(bytes, offset, 16);
    var ipHdrLen := bytes[offset] % 16 * 4;
    var ipTotLen := U16(bytes, offset + 2);
    var protocol := bytes[offset + 9];
    var srcIp := U32(bytes, offset + 12);
    var dstIp := U32(bytes, offset + 16);
    assert ReadIp(datagram) == Some(IpHeader(ipHdrLen, ipTotLen, protocol, srcIp, dstIp));
    var srcPort, dstPort, tcpFlags, payloadSize;
    if protocol == IPPROTO_TCP {
      if |bytes| < offset + ipHdrLen + 20 {
        return None;
      }
      var tcp := offset + ipHdrLen;
      assert datagram[ipHdrLen..] == bytes[tcp..];
      FieldsOf(bytes, tcp, 0);
      FieldsOf(bytes, tcp, 2);
      srcPort := U16(bytes, tcp);
      dstPort := U16(bytes, tcp + 2);
      tcpFlags := FlagsOf(bytes[tcp + 13]);
      var tcpHdrLen := bytes[tcp + 12] / 16 * 4;
      payloadSize := ipTotLen - ipHdrLen - tcpHdrLen;
    } else if protocol == IPPROTO_UDP {
      if |bytes| < offset + ipHdrLen + 8 {
        return None;
      }
      var udp := offset + ipHdrLen;
      assert datagram[ipHdrLen..] == bytes[udp..];
      FieldsOf(bytes, udp, 0);
      FieldsOf(bytes, udp, 2);
      srcPort := U16(bytes, udp);
      dstPort := U16(bytes, udp + 2);
      tcpFlags := Flags(false, false, false, false);
      payloadSize := ipTotLen - ipHdrLen - 8;
    } else {
      return None;
    }
    if payloadSize < 0 {
      payloadSize := 0;
    }
    return Some(Packet(FlowKey(srcIp, dstIp, srcPort, dstPort, protocol), payloadSize, ts, tcpFlags));
  }

  // ----- the snap length

  /** What libpcap captures of a frame. */
  function Captured(frame: seq<byte>, snapLen: nat): seq<byte> {
    if |frame| <= snapLen then frame else frame[..snapLen]
  }

  lemma CutDatagram(datagram: seq<byte>, n: nat, ts: Timeval)
    requires 80 <= n <= |datagram|
    ensures ReadDatagram(datagram[..n], ts) == ReadDatagram(datagram, ts)
  {
    var cut := datagram[..n];
    assert ReadIp(cut) == ReadIp(datagram);
    if ReadIp(cut).Some? {
      var k := ReadIp(cut).value.headerLen;
      var part, whole := cut[k..], datagram[k..];
      assert |part| >= 20 && forall i :: 0 <= i < |part| ==> part[i] == whole[i];
    }
  }

  /** The first 98 bytes of a frame decide everything: an Ethernet header, a VLAN tag, the longest IPv4
      header and a TCP header without its options. So capturing 128 bytes loses nothing. */
  lemma SnapLengthSuffices(frame: seq<byte>, snapLen: nat, ts: Timeval)
    requires TypesCaptured(frame) && snapLen >= 98
    ensures TypesCaptured(Captured(frame, snapLen))
    ensures Parse(Captured(frame, snapLen), ts) == Parse(frame, ts)
  {
    if |frame| > snapLen && LinkPayload(frame).Some? {
      var datagram := LinkPayload(frame).value;
      var n := snapLen - (|frame| - |datagram|);
      assert Captured(frame, snapLen)[|frame| - |datagram|..] == datagram[..n];
      CutDatagram(datagram, n, ts);
    }
  }

  /** With a VLAN tag and the longest IPv4 header, a TCP packet needs all of the 98 bytes. */
  lemma SnapLengthIsTight(frame: seq<byte>, ts: Timeval)
    requires TypesCaptured(frame) && |frame| >= 98 && U16(frame, 12) == ETHERTYPE_VLAN && U16(frame, 16) == ETHERTYPE_IP
    requires frame[18] == 0x4F && frame[27] == IPPROTO_TCP
    ensures Parse(frame, ts).Some? && Parse(Captured(frame, 97), ts) == None
  {
    var datagram, cut := frame[18..], Captured(frame, 97)[18..];
    assert ReadIp(datagram).value.headerLen == ReadIp(cut).value.headerLen == 60;
  }

  // ----- the packets the network carries

  /** A TCP segment (section 3.1 of RFC 9293), with the control bits that are counted, PSH, and the three upper
      ones as a number; or a UDP datagram (RFC 768). */
  datatype Segment =
    | Tcp(srcPort: uint16, dstPort: uint16, seqAck: seq<byte>, reserved: byte,
          fin: bool, syn: bool, rst: bool, psh: bool, ack: bool, upper: byte, windowSumUrgent: seq<byte>,
          options: seq<byte>, data: seq<byte>)
    | Udp(srcPort: uint16, dstPort: uint16, sum: uint16, data: seq<byte>)

  /** An IPv4 datagram (section 3.1 of RFC 791). */
  datatype Datagram = Datagram(tos: byte, idFragment: seq<byte>, ttl: byte, sum: uint16, src: uint32, dst: uint32,
                               options: seq<byte>, segment: Segment)

  /** The addresses of an Ethernet frame and its VLAN tag, if it has one. */
  datatype Link = Link(addresses: seq<byte>, tag: Option<uint16>)

  function Bytes2(x: uint16): (b: seq<byte>)
    ensures |b| == 2 && U16(b, 0) == x
  {
    [x / 0x100, x % 0x100]
  }

  function Bytes4(x: uint32): (b: seq<byte>)
    ensures |b| == 4 && U32(b, 0) == x
  {
    var high := x / 0x100;
    var higher := high / 0x100;
    [higher / 0x100, higher % 0x100, high % 0x100, x % 0x100]
  }

  predicate OptionsFit(o: seq<byte>) {
    |o| % 4 == 0 && |o| <= 40
  }

  predicate WellFormedSegment(s: Segment) {
    s.Tcp? ==>
      && |s.seqAck| == 8 && s.reserved < 16 && s.upper < 8
      && |s.windowSumUrgent| == 6 && OptionsFit(s.options)
  }

  predicate WellFormed(d: Datagram) {
    && |d.idFragment| == 4 && OptionsFit(d.options) && WellFormedSegment(d.segment)
    && 20 + |d.options| + |SegmentBytes(d.segment)| < 0x1_0000
  }

  function Bit(on: bool, weight: nat): nat {
    if on then weight else 0
  }

  /** The control bits, FIN in the lowest place. */
  function ControlBits(s: Segment): byte
    requires s.Tcp? && s.upper < 8
  {
    Bit(s.fin, 1) + Bit(s.syn, 2) + Bit(s.rst, 4) + Bit(s.psh, 8) + Bit(s.ack, 16) + s.upper * 32
  }

  function SegmentBytes(s: Segment): (b: seq<byte>)
    requires WellFormedSegment(s)
    ensures |b| == |s.data| + if s.Tcp? then 20 + |s.options| else 8
  {
    if s.Tcp? then
      var offset: byte := (5 + |s.options| / 4) * 16 + s.reserved;
      Bytes2(s.srcPort) + Bytes2(s.dstPort) + s.seqAck + [offset, ControlBits(s)] + s.windowSumUrgent
      + s.options + s.data
    else
      Bytes2(s.srcPort) + Bytes2(s.dstPort) + Bytes2(Wrap16(8 + |s.data|)) + Bytes2(s.sum) + s.data
  }

  function HeaderBytes(d: Datagram): (b: seq<byte>)
    requires WellFormed(d)
    ensures |b| == 20 + |d.options|
  {
    var first: byte := 0x45 + |d.options| / 4;
    var protocol: byte := if d.segment.Tcp? then IPPROTO_TCP else IPPROTO_UDP;
    [first, d.tos] + Bytes2(20 + |d.options| + |SegmentBytes(d.segment)|) + d.idFragment + [d.ttl, protocol]
    + Bytes2(d.sum) + Bytes4(d.src) + Bytes4(d.dst) + d.options
  }

  function TypeBytes(link: Link): seq<byte> {
    if link.tag.Some? then Bytes2(ETHERTYPE_VLAN) + Bytes2(link.tag.value) + Bytes2(ETHERTYPE_IP)
    else Bytes2(ETHERTYPE_IP)
  }

  function LinkBytes(link: Link): seq<byte> {
    link.addresses + TypeBytes(link)
  }

  function FlagsSent(s: Segment): Flags {
    if s.Tcp? then Flags(fin := s.fin, syn := s.syn, rst := s.rst, ack := s.ack)
    else Flags(fin := false, syn := false, rst := false, ack := false)
  }

  lemma ControlBitsRead(s: Segment)
    requires s.Tcp? && s.upper < 8
    ensures FlagsOf(ControlBits(s)) == FlagsSent(s)
  {
    var b := ControlBits(s);
    var b16 := Bit(s.ack, 1) + s.upper * 2;
    var b4 := Bit(s.rst, 1) + Bit(s.psh, 2) + b16 * 4;
    var b2 := Bit(s.syn, 1) + b4 * 2;
    assert b == Bit(s.fin, 1) + b2 * 2 && b / 2 == b2;
    assert b == Bit(s.fin, 1) + Bit(s.syn, 2) + b4 * 4 && b / 4 == b4;
    assert b == Bit(s.fin, 1) + Bit(s.syn, 2) + Bit(s.rst, 4) + Bit(s.psh, 8) + b16 * 16 && b / 16 == b16;
  }

  /** What the sniffer is to record of a datagram. */
  function PacketOf(d: Datagram, ts: Timeval): Packet {
    var s := d.segment;
    Packet(FlowKey(d.src, d.dst, s.srcPort, s.dstPort, if s.Tcp? then IPPROTO_TCP else IPPROTO_UDP), |s.data|, ts,
           FlagsSent(s))
  }

  lemma SegmentRead(ip: IpHeader, s: Segment, padding: seq<byte>, ts: Timeval)
    requires WellFormedSegment(s) && ip.protocol == (if s.Tcp? then IPPROTO_TCP else IPPROTO_UDP)
    requires ip.totalLen == ip.headerLen + |SegmentBytes(s)|
    ensures var key := FlowKey(ip.src, ip.dst, s.srcPort, s.dstPort, ip.protocol);
            ReadTransport(ip, SegmentBytes(s) + padding, ts) ==
            Some(Packet(key, |s.data|, ts, FlagsSent(s)))
  {
    var b := SegmentBytes(s) + padding;
    assert b[..2] == Bytes2(s.srcPort) && b[2..4] == Bytes2(s.dstPort);
    assert U16(b, 0) == U16(b[..2], 0) && U16(b, 2) == U16(b[2..4], 0);
    if s.Tcp? {
      ControlBitsRead(s);
      assert b[13] == ControlBits(s);
    }
  }

  lemma HeaderRead(d: Datagram, rest: seq<byte>)
    requires WellFormed(d)
    ensures ReadIp(HeaderBytes(d) + rest) ==
            Some(IpHeader(20 + |d.options|, 20 + |d.options| + |SegmentBytes(d.segment)|,
                          if d.segment.Tcp? then IPPROTO_TCP else IPPROTO_UDP, d.src, d.dst))
  {
    var b := HeaderBytes(d) + rest;
    var total := 20 + |d.options| + |SegmentBytes(d.segment)|;
    assert b[2..4] == Bytes2(total) && b[12..16] == Bytes4(d.src) && b[16..20] == Bytes4(d.dst);
    assert U16(b, 2) == U16(b[2..4], 0) && U32(b, 12) == U32(b[12..16], 0) && U32(b, 16) == U32(b[16..20], 0);
  }

  lemma LinkRead(link: Link, rest: seq<byte>)
    requires |link.addresses| == 12
    ensures TypesCaptured(LinkBytes(link) + rest) && LinkPayload(LinkBytes(link) + rest) == Some(rest)
  {
    var b := LinkBytes(link) + rest;
    var types := TypeBytes(link);
    assert b == link.addresses + types + rest;
    assert U16(b, 12) == U16(types, 0);
  }

  /** Whatever TCP or UDP packet a frame carries over IPv4, with or without a VLAN tag, options and padding,
      what was captured of the frame gives its addresses, ports and flags, and the exact length of its data. */
  lemma EveryPacketIsRead(link: Link, d: Datagram, padding: seq<byte>, snapLen: nat, ts: Timeval)
    requires |link.addresses| == 12 && WellFormed(d) && snapLen >= 98
    ensures var frame := LinkBytes(link) + (HeaderBytes(d) + (SegmentBytes(d.segment) + padding));
            && TypesCaptured(Captured(frame, snapLen))
            && Parse(Captured(frame, snapLen), ts) == Some(PacketOf(d, ts))
  {
    var rest := SegmentBytes(d.segment) + padding;
    var datagram := HeaderBytes(d) + rest;
    LinkRead(link, datagram);
    HeaderRead(d, rest);
    var ip := ReadIp(datagram).value;
    assert datagram[ip.headerLen..] == rest;
    SegmentRead(ip, d.segment, padding, ts);
    SnapLengthSuffices(LinkBytes(link) + datagram, snapLen, ts);
  }

  /** One frame, byte by byte: 192.168.0.1 port 50000 asks 8.8.8.8 port 443 for a connection. */
  lemma OneFrame(frame: seq<byte>, ts: Timeval)
    requires |frame| == 54 && frame[12] == 0x08 && frame[13] == 0x00
    requires frame[14] == 0x45 && frame[16] == 0 && frame[17] == 40 && frame[23] == 6
    requires frame[26] == 192 && frame[27] == 168 && frame[28] == 0 && frame[29] == 1
    requires frame[30] == 8 && frame[31] == 8 && frame[32] == 8 && frame[33] == 8
    requires frame[34] == 0xC3 && frame[35] == 0x50 && frame[36] == 0x01 && frame[37] == 0xBB
    requires frame[46] == 0x50 && frame[47] == 0x02
    ensures TypesCaptured(frame)
    ensures Parse(frame, ts) ==
            Some(Packet(FlowKey(srcIp := 0xC0A8_0001, dstIp := 0x0808_0808, srcPort := 50000, dstPort := 443,
                                protocol := 6),
                        0, ts, Flags(fin := false, syn := true, rst := false, ack := false)))
  {
    assert U16(frame, 12) == 0x0800 && U16(frame, 16) == 40;
    assert U32(frame, 26) == 0xC0A8_0001 && U32(frame, 30) == 0x0808_0808;
    assert U16(frame, 34) == 50000 && U16(frame, 36) == 443;
    assert FlagsOf(2) == Flags(fin := false, syn := true, rst := false, ack := false);
    FramesRead(frame, ts);
  }
}
