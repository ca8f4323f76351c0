/** What one packet does to the record of its flow, and what a record says of the packets behind it. */
module FlowRecord {
  import opened Bits
  import opened FlowTypes

  /** What a uint32_t keeps of a number. */
  function Wrap32(x: int): uint32
  {
    x % 0x1_0000_0000
  }

  /** What a uint16_t keeps of a number. */
  function Wrap16(x: int): uint16 {
    x % 0x1_0000
  }

  /** The protocol field of an IPv4 header. */
  const IPPROTO_TCP := 6
  const IPPROTO_UDP := 17

  predicate IsTcp(key: FlowKey) {
    key.protocol == IPPROTO_TCP
  }

  predicate IsUdp(key: FlowKey) {
    key.protocol == IPPROTO_UDP
  }

  /** The bits of the TCP flags byte that are counted. */
  datatype Flags = Flags(fin: bool, syn: bool, rst: bool, ack: bool)

  /** pkt_stats_t. */
  datatype Packet = Packet(key: FlowKey, payloadSize: int, timestamp: Timeval, tcpFlags: Flags)

  /** The fields of flow_t as a value. */
  datatype Record = Record(key: FlowKey, direction: Direction,
                           packetCount: uint32, byteCount: uint32, minPacketSize: uint16, maxPacketSize: uint16,
                           startTime: Timeval, lastSeen: Timeval, totalIatUsec: int,
                           synCount: uint32, finCount: uint32, rstCount: uint32, ackCount: uint32)

  /** The network whose hosts are local. */
  datatype Network = Network(ip: uint32, mask: uint32)

  predicate IsLocal(net: Network, ip: uint32) {
    And(ip, net.mask) == net.ip
  }

  /** flow_process_packet: the direction is settled when the flow is created, from its key alone. */
  function DirectionOf(net: Network, key: FlowKey): Direction {
    if net.mask == 0 then Unknown
    else
      var srcIsLocal := IsLocal(net, key.srcIp);
      var dstIsLocal := IsLocal(net, key.dstIp);
      if srcIsLocal && !dstIsLocal then Outbound
      else if !srcIsLocal && dstIsLocal then Inbound
      else if srcIsLocal && dstIsLocal then Lateral
      else Unknown
  }

  /** An address is local exactly when it starts with the network's prefix, of 32 - k bits. */
  lemma LocalIsPrefix(net: Network, ip: uint32, k: nat)
    requires k <= 32 && net.mask == (Pow2(32 - k) - 1) * Pow2(k) && net.ip % Pow2(k) == 0
    ensures IsLocal(net, ip) <==> ip / Pow2(k) == net.ip / Pow2(k)
  {
    hide Pow2, And;
    var p, q, d := Pow2(32 - k), Pow2(k), ip / Pow2(k);
    AndPrefix(ip, 32 - k, k, net.mask);
    PowSum(32 - k, k);
    PowersOfTwo();
    DivModSum(ip, q);
    PrefixFits(d, ip, p, q);
    SamePrefix(d, net.ip, q);
  }

  lemma PrefixFits(d: nat, x: nat, p: nat, q: nat)
    requires d * q <= x < p * q
    ensures d % p == d
  {
    if d >= p {
      MulMono(p, d, q);
    }
  }

  lemma SamePrefix(a: nat, x: nat, q: nat)
    requires q > 0 && x % q == 0
    ensures a * q == x <==> a == x / q
  {
    DivModSum(x, q);
    if a * q == x {
      SmallMultiple(a - x / q, q);
    }
  }

  function Created(key: FlowKey, direction: Direction): Record {
    Record(key, direction, 0, 0, 0, 0, Timeval(0, 0), Timeval(0, 0), 0, 0, 0, 0, 0)
  }

  function Usec(t: Timeval): int {
    t.sec * 1000000 + t.usec
  }

  /** What a packet adds to each flag counter: flags count for TCP packets only. */
  function Fin(p: Packet): nat {
    if IsTcp(p.key) && p.tcpFlags.fin then 1 else 0
  }

  function Syn(p: Packet): nat {
    if IsTcp(p.key) && p.tcpFlags.syn then 1 else 0
  }

  function Rst(p: Packet): nat {
    if IsTcp(p.key) && p.tcpFlags.rst then 1 else 0
  }

  function Ack(p: Packet): nat {
    if IsTcp(p.key) && p.tcpFlags.ack then 1 else 0
  }

  /** flow_update_stats, with the integer widths of flow_t. */
  function Update(r: Record, p: Packet): Record {
    var first := r.packetCount == 0;
    Record(r.key, r.direction,
           Wrap32(r.packetCount + 1),
           Wrap32(r.byteCount + p.payloadSize),
           if first || p.payloadSize < r.minPacketSize then Wrap16(p.payloadSize) else r.minPacketSize,
           if first || p.payloadSize > r.maxPacketSize then Wrap16(p.payloadSize) else r.maxPacketSize,
           if first then p.timestamp else r.startTime,
           p.timestamp,
           if first then 0
           else r.totalIatUsec + (p.timestamp.sec - r.lastSeen.sec) * 1000000 + (p.timestamp.usec - r.lastSeen.usec),
           Wrap32(r.synCount + Syn(p)),
           Wrap32(r.finCount + Fin(p)),
           Wrap32(r.rstCount + Rst(p)),
           Wrap32(r.ackCount + Ack(p)))
  }

  /** The record of a flow that has seen these packets. */
  function Fold(key: FlowKey, direction: Direction, ps: seq<Packet>): Record {
    if ps == [] then Created(key, direction)
    else Update(Fold(key, direction, ps[..|ps| - 1]), ps[|ps| - 1])
  }

  // ----- counters

  /** Everything that is counted, as unbounded numbers. */
  datatype Totals = Totals(packets: int, bytes: int, syn: int, fin: int, rst: int, ack: int) {
    function Plus(o: Totals): Totals {
      Totals(packets + o.packets, bytes + o.bytes, syn + o.syn, fin + o.fin, rst + o.rst, ack + o.ack)
    }

    /** What 32-bit counters keep. */
    function Wrapped(): Totals {
      Totals(Wrap32(packets), Wrap32(bytes), Wrap32(syn), Wrap32(fin), Wrap32(rst), Wrap32(ack))
    }
  }

  const ZERO := Totals(0, 0, 0, 0, 0, 0)

  /** One of the counters. */
  datatype Counter = PacketCount | ByteCount | SynCount | FinCount | RstCount | AckCount

  function At(t: Totals, c: Counter): int {
    match c
    case PacketCount => t.packets
    case ByteCount => t.bytes
    case SynCount => t.syn
    case FinCount => t.fin
    case RstCount => t.rst
    case AckCount => t.ack
  }

  function PacketTotals(p: Packet): Totals {
    Totals(1, p.payloadSize, Syn(p), Fin(p), Rst(p), Ack(p))
  }

  function SumPackets(ps: seq<Packet>): Totals {
    if ps == [] then ZERO else SumPackets(ps[..|ps| - 1]).Plus(PacketTotals(ps[|ps| - 1]))
  }

  function RecordTotals(r: Record): Totals {
    Totals(r.packetCount, r.byteCount, r.synCount, r.finCount, r.rstCount, r.ackCount)
  }

  lemma AtPlus(a: Totals, b: Totals, c: Counter)
    ensures At(a.Plus(b), c) == At(a, c) + At(b, c)
  {
  }

  lemma WrapInt(a: int, b: int)
    ensures Wrap32(Wrap32(a) + b) == Wrap32(a + b)
    ensures Wrap32(a + Wrap32(b)) == Wrap32(a + b)
  {
  }

  lemma WrappedPlus(a: Totals, b: Totals)
    ensures a.Wrapped().Plus(b).Wrapped() == a.Plus(b).Wrapped()
    ensures a.Plus(b.Wrapped()).Wrapped() == a.Plus(b).Wrapped()
  {
    hide Wrap32;
    WrapInt(a.packets, b.packets);
    WrapInt(a.bytes, b.bytes);
    WrapInt(a.syn, b.syn);
    WrapInt(a.fin, b.fin);
    WrapInt(a.rst, b.rst);
    WrapInt(a.ack, b.ack);
  }

  lemma PlusAssoc(a: Totals, b: Totals, c: Totals)
    ensures a.Plus(b).Plus(c) == a.Plus(b.Plus(c))
    ensures a.Plus(ZERO) == a == ZERO.Plus(a)
  {
  }

  lemma UpdateTotals(r: Record, p: Packet)
    ensures RecordTotals(Update(r, p)) == RecordTotals(r).Plus(PacketTotals(p)).Wrapped()
    ensures Update(r, p).key == r.key && Update(r, p).direction == r.direction
  {
    hide Wrap32, Syn, Fin, Rst, Ack;
  }

  /** Every counter of a record is the true total of its packets, modulo 2^32, for any packets at all. */
  lemma {:induction false} FoldCounts(key: FlowKey, direction: Direction, ps: seq<Packet>)
    ensures var r := Fold(key, direction, ps);
            RecordTotals(r) == SumPackets(ps).Wrapped() && r.key == key && r.direction == direction
  {
    if ps != [] {
      var k := |ps| - 1;
      FoldCounts(key, direction, ps[..k]);
      UpdateTotals(Fold(key, direction, ps[..k]), ps[k]);
      WrappedPlus(SumPackets(ps[..k]), PacketTotals(ps[k]));
    }
  }

  ghost predicate Payloads16(ps: seq<Packet>) {
    forall i :: 0 <= i < |ps| ==> 0 <= ps[i].payloadSize < 0x1_0000
  }

  lemma {:induction false} SumsBounded(ps: seq<Packet>)
    requires Payloads16(ps)
    ensures SumPackets(ps).packets == |ps|
    ensures 0 <= SumPackets(ps).bytes <= |ps| * 0xFFFF
  {
    if ps != [] {
      SumsBounded(ps[..|ps| - 1]);
    }
  }

  /** A packet counter is exact below 2^32 packets, and a byte counter exactly when the bytes are below 2^32:
      at least up to 65537 packets, because 65535 * 65537 is 2^32 - 1. */
  lemma ByteCountExact(key: FlowKey, direction: Direction, ps: seq<Packet>)
    requires Payloads16(ps)
    ensures var r := Fold(key, direction, ps);
            && (r.packetCount == |ps| <==> |ps| < 0x1_0000_0000)
            && (r.byteCount == SumPackets(ps).bytes <==> SumPackets(ps).bytes < 0x1_0000_0000)
            && (|ps| <= 65537 ==> SumPackets(ps).bytes < 0x1_0000_0000)
  {
    FoldCounts(key, direction, ps);
    SumsBounded(ps);
    WrapExact(SumPackets(ps).packets);
    WrapExact(SumPackets(ps).bytes);
  }

  lemma WrapExact(x: nat)
    ensures Wrap32(x) <= x && (Wrap32(x) == x <==> x < 0x1_0000_0000)
  {
  }

  /** And no longer: one more full packet and it has wrapped. */
  lemma ByteCountWraps(key: FlowKey, direction: Direction, p: Packet)
    requires p.payloadSize == 0xFFFF
    ensures var ps := seq(65538, _ => p);
            Fold(key, direction, ps).byteCount < SumPackets(ps).bytes
  {
    var ps := seq(65538, _ => p);
    FoldCounts(key, direction, ps);
    SumConstant(ps, p);
  }

  lemma {:induction false} SumConstant(ps: seq<Packet>, p: Packet)
    requires forall i :: 0 <= i < |ps| ==> ps[i] == p
    ensures SumPackets(ps).bytes == |ps| * p.payloadSize
  {
    if ps != [] {
      SumConstant(ps[..|ps| - 1], p);
    }
  }

  // ----- sizes and times

  ghost predicate IsMin(ps: seq<Packet>, v: int) {
    (exists i :: 0 <= i < |ps| && ps[i].payloadSize == v) && forall i :: 0 <= i < |ps| ==> v <= ps[i].payloadSize
  }

  ghost predicate IsMax(ps: seq<Packet>, v: int) {
    (exists i :: 0 <= i < |ps| && ps[i].payloadSize == v) && forall i :: 0 <= i < |ps| ==> ps[i].payloadSize <= v
  }

  /** The packets since packet_count was last zero. A counter that wraps to zero starts the sizes and the
      times of its flow afresh, so these are all the packets of a flow of at most 2^32. */
  function SinceZero(ps: seq<Packet>): seq<Packet>
    requires ps != []
  {
    ps[(|ps| - 1) / 0x1_0000_0000 * 0x1_0000_0000..]
  }

  lemma SinceZeroStep(ps: seq<Packet>)
    requires |ps| > 1
    ensures var k := |ps| - 1;
            SinceZero(ps) == if k % 0x1_0000_0000 == 0 then [ps[k]] else SinceZero(ps[..k]) + [ps[k]]
  {
    var k := |ps| - 1;
    if k % 0x1_0000_0000 == 0 {
      assert k / 0x1_0000_0000 * 0x1_0000_0000 == k;
    } else {
      assert (k - 1) / 0x1_0000_0000 == k / 0x1_0000_0000;
    }
  }

  ghost predicate TimesFit(r: Record, s: seq<Packet>) {
    && s != []
    && IsMin(s, r.minPacketSize) && IsMax(s, r.maxPacketSize)
    && r.startTime == s[0].timestamp && r.lastSeen == s[|s| - 1].timestamp
    && r.totalIatUsec == Usec(r.lastSeen) - Usec(r.startTime)
  }

  lemma FirstTimes(r: Record, p: Packet)
    requires r.packetCount == 0 && 0 <= p.payloadSize < 0x1_0000
    ensures TimesFit(Update(r, p), [p])
  {
    assert [p][0] == p;
  }

  lemma NextTimes(r: Record, s: seq<Packet>, p: Packet)
    requires r.packetCount != 0 && TimesFit(r, s) && 0 <= p.payloadSize < 0x1_0000
    ensures TimesFit(Update(r, p), s + [p])
  {
    Extremes(s, p, r.minPacketSize, r.maxPacketSize);
  }

  /** Sizes and times of a record: the extremes of the payloads, the first and the last timestamp, and a
      sum of inter-arrival times that telescopes to their difference, whatever the order of the packets. */
  lemma {:induction false} FoldTimes(key: FlowKey, direction: Direction, ps: seq<Packet>)
    requires ps != [] && Payloads16(ps)
    ensures TimesFit(Fold(key, direction, ps), SinceZero(ps))
  {
    var k := |ps| - 1;
    var before := Fold(key, direction, ps[..k]);
    FoldCounts(key, direction, ps[..k]);
    SumsBounded(ps[..k]);
    assert before.packetCount == k % 0x1_0000_0000;
    if k == 0 {
      assert SinceZero(ps) == [ps[0]];
      FirstTimes(before, ps[0]);
    } else {
      SinceZeroStep(ps);
      if k % 0x1_0000_0000 == 0 {
        FirstTimes(before, ps[k]);
      } else {
        FoldTimes(key, direction, ps[..k]);
        NextTimes(before, SinceZero(ps[..k]), ps[k]);
      }
    }
  }

  /** The inter-arrival sum of a record is the span of its flow. */
  lemma RecordSpan(key: FlowKey, direction: Direction, ps: seq<Packet>)
    requires 0 < |ps| < 0x1_0000_0000 && Payloads16(ps)
    ensures var r := Fold(key, direction, ps);
            && r.packetCount == |ps|
            && var first, last := ps[0].timestamp, ps[|ps| - 1].timestamp;
               r.totalIatUsec == (last.sec - first.sec) * 1000000 + (last.usec - first.usec)
  {
    ByteCountExact(key, direction, ps);
    FoldTimes(key, direction, ps);
    assert SinceZero(ps) == ps;
  }

  /** The mean payload of a record against its extremes, for any packets: exactly when byte_count is at least
      packet_count times the least payload, and at most packet_count times the greatest. Below 2^32 packets the
      upper bound always holds, and the lower one unless byte_count has wrapped. */
  lemma RecordMeans(key: FlowKey, direction: Direction, ps: seq<Packet>, lo: int, hi: int)
    requires ps != [] && Payloads16(ps) && IsMin(SinceZero(ps), lo) && IsMax(SinceZero(ps), hi)
    ensures var r, bytes, count := Fold(key, direction, ps), Wrap32(SumPackets(ps).bytes), Wrap32(|ps|);
            && (r.minPacketSize * r.packetCount <= r.byteCount <==> lo * count <= bytes)
            && (r.byteCount <= r.maxPacketSize * r.packetCount <==> bytes <= hi * count)
            && (|ps| < 0x1_0000_0000 ==> bytes <= hi * count)
            && (|ps| < 0x1_0000_0000 && SumPackets(ps).bytes < 0x1_0000_0000 ==> lo * count <= bytes)
  {
    hide Wrap32, Fold, SumPackets;
    FoldCounts(key, direction, ps);
    FoldTimes(key, direction, ps);
    SumsBounded(ps);
    if |ps| < 0x1_0000_0000 {
      WrapExact(SumPackets(ps).packets);
      WrapExact(SumPackets(ps).bytes);
      assert SinceZero(ps) == ps;
      SumBetween(ps, lo, hi);
    }
  }

  /** With 65538 full packets the mean falls below the least payload. */
  lemma MeanFallsBelow(key: FlowKey, direction: Direction, p: Packet)
    requires p.payloadSize == 0xFFFF
    ensures var r := Fold(key, direction, seq(65538, _ => p));
            r.minPacketSize * r.packetCount > r.byteCount
  {
    hide Fold, SumPackets;
    var ps := seq(65538, _ => p);
    assert SinceZero(ps) == ps;
    assert ps[0] == p;
    SumConstant(ps, p);
    RecordMeans(key, direction, ps, 0xFFFF, 0xFFFF);
  }

  lemma {:induction false} SumBetween(ps: seq<Packet>, lo: int, hi: int)
    requires forall i :: 0 <= i < |ps| ==> lo <= ps[i].payloadSize <= hi
    ensures lo * |ps| <= SumPackets(ps).bytes <= hi * |ps|
  {
    if ps != [] {
      var k := |ps| - 1;
      SumBetween(ps[..k], lo, hi);
      MulSucc(lo, k);
      MulSucc(hi, k);
    }
  }

  lemma MulSucc(x: int, k: nat)
    ensures x * (k + 1) == x * k + x
  {
  }

  lemma Extremes(s: seq<Packet>, p: Packet, lo: int, hi: int)
    requires IsMin(s, lo) && IsMax(s, hi)
    ensures IsMin(s + [p], if p.payloadSize < lo then p.payloadSize else lo)
    ensures IsMax(s + [p], if p.payloadSize > hi then p.payloadSize else hi)
  {
    var t := s + [p];
    var i :| 0 <= i < |s| && s[i].payloadSize == lo;
    var j :| 0 <= j < |s| && s[j].payloadSize == hi;
    assert t[i].payloadSize == lo && t[j].payloadSize == hi && t[|s|] == p;
  }
}
