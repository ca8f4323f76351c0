/** AggregatedFlow.java: flows added one by one into totals, and what the totals are of. */
module Aggregation {
  import opened FlowTypes
  import opened FlowRecord
  import opened FlowDomain
  import opened Text

  // ----- what an aggregate should hold, computed from all its flows

  function ReportTotals(f: Report): Totals {
    Totals(f.packetCount, f.byteCount, f.syn, f.fin, f.rst, f.ack)
  }

  function Counted(dirs: set<Direction>, f: Report): Totals {
    if f.dir in dirs then ReportTotals(f) else ZERO
  }

  /** The totals of the flows in some directions. */
  function TotalsOf(dirs: set<Direction>, fs: seq<Report>): Totals {
    if fs == [] then ZERO else TotalsOf(dirs, fs[..|fs| - 1]).Plus(Counted(dirs, fs[|fs| - 1]))
  }

  const ALL_DIRECTIONS: set<Direction> := {Inbound, Outbound, Lateral, Unknown}

  datatype Tuple = Tuple(srcIp: string, srcPort: int, dstIp: string, dstPort: int, protocol: FlowProtocol)

  function TupleOf(f: Report): Tuple {
    Tuple(f.srcIp, f.srcPort, f.dstIp, f.dstPort, f.protocol)
  }

  /** The text that stands for a flow: addresses, ports and protocol with nothing in between. */
  function TupleText(t: Tuple): string {
    t.srcIp + IntText(t.srcPort) + t.dstIp + IntText(t.dstPort) + NameOf(t.protocol)
  }

  function KeySet(fs: seq<Report>): set<string> {
    set f | f in fs :: TupleText(TupleOf(f))
  }

  /** The public fields of an aggregate. */
  datatype Summary = Summary(bytesInbound: int, bytesOutbound: int, packetsInbound: int, packetsOutbound: int,
                             uniqueFlowCount: int, flowKeys: set<string>, syn: int, ack: int, fin: int, rst: int)

  function SummaryOf(fs: seq<Report>): Summary {
    var inbound, outbound, all := TotalsOf({Inbound}, fs), TotalsOf({Outbound}, fs), TotalsOf(ALL_DIRECTIONS, fs);
    Summary(inbound.bytes, outbound.bytes, inbound.packets, outbound.packets, |KeySet(fs)|, KeySet(fs),
            all.syn, all.ack, all.fin, all.rst)
  }

  /** The figures that alerts are about. */
  datatype Metric = BytesInbound | BytesOutbound | UniqueFlows

  function Measure(s: Summary, metric: Metric): int {
    match metric
    case BytesInbound => s.bytesInbound
    case BytesOutbound => s.bytesOutbound
    case UniqueFlows => s.uniqueFlowCount
  }

  class AggregatedFlow {
    var bytesInbound: int
    var bytesOutbound: int
    var packetsInbound: int
    var packetsOutbound: int
    var uniqueFlowCount: int
    var flowKeys: set<string>
    var tcpSynTotal: int
    var tcpAckTotal: int
    var tcpFinTotal: int
    var tcpRstTotal: int

    /** Every flow added so far. */
    ghost var flows: seq<Report>

    ghost function Value(): Summary
      reads this
    {
      Summary(bytesInbound, bytesOutbound, packetsInbound, packetsOutbound, uniqueFlowCount, flowKeys,
              tcpSynTotal, tcpAckTotal, tcpFinTotal, tcpRstTotal)
    }

    ghost predicate Valid()
      reads this
    {
      Value() == SummaryOf(flows)
    }

    constructor ()
      ensures Valid() && flows == []
    {
      bytesInbound, bytesOutbound, packetsInbound, packetsOutbound := 0, 0, 0, 0;
      uniqueFlowCount, flowKeys := 0, {};
      tcpSynTotal, tcpAckTotal, tcpFinTotal, tcpRstTotal := 0, 0, 0, 0;
      flows := [];
    }

    /** The first part of addFlow. */
    method AddVolume(flow: FlowDomain.Flow)
      modifies this`bytesInbound, this`packetsInbound, this`bytesOutbound, this`packetsOutbound
      ensures bytesInbound == old(bytesInbound) + if flow.dir == Inbound then flow.byteCount else 0
      ensures packetsInbound == old(packetsInbound) + if flow.dir == Inbound then flow.packetCount else 0
      ensures bytesOutbound == old(bytesOutbound) + if flow.dir == Outbound then flow.byteCount else 0
      ensures packetsOutbound == old(packetsOutbound) + if flow.dir == Outbound then flow.packetCount else 0
    {
      if flow.dir == Inbound {
        bytesInbound := bytesInbound + flow.byteCount;
        packetsInbound := packetsInbound + flow.packetCount;
      } else if flow.dir == Outbound {
        bytesOutbound := bytesOutbound + flow.byteCount;
        packetsOutbound := packetsOutbound + flow.packetCount;
      }
    }

    /** The second part. */
    method AddFlags(flow: FlowDomain.Flow)
      modifies this`tcpSynTotal, this`tcpAckTotal, this`tcpFinTotal, this`tcpRstTotal
      ensures tcpSynTotal == old(tcpSynTotal) + flow.tcpSynCount && tcpAckTotal == old(tcpAckTotal) + flow.tcpAckCount
      ensures tcpFinTotal == old(tcpFinTotal) + flow.tcpFinCount && tcpRstTotal == old(tcpRstTotal) + flow.tcpRstCount
    {
      tcpSynTotal := tcpSynTotal + flow.tcpSynCount;
      tcpAckTotal := tcpAckTotal + flow.tcpAckCount;
      tcpFinTotal := tcpFinTotal + flow.tcpFinCount;
      tcpRstTotal := tcpRstTotal + flow.tcpRstCount;
    }

    /** addFlow: the totals stay those of all flows added, however often a flow comes back. */
    method AddFlow(flow: FlowDomain.Flow)
      requires Valid()
      modifies this
      ensures Valid() && flows == old(flows) + [flow.Value()]
    {
      hide SummaryOf;
      ghost var f, before := flow.Value(), flows;
      SummaryStep(before, f);
      AddVolume(flow);
      AddFlags(flow);
      var key := flow.srcIp + IntText(flow.srcPort) + flow.dstIp + IntText(flow.dstPort) + NameOf(flow.protocol);
      assert key == TupleText(TupleOf(f));
      if key !in flowKeys {
        flowKeys := flowKeys + {key};
        uniqueFlowCount := uniqueFlowCount + 1;
      }
      flows := flows + [f];
    }

    /** getAveragePacketSize: the mean over all packets in or out of the network. */
    method GetAveragePacketSize() returns (average: real)
      requires Valid()
      ensures var volume := TotalsOf({Inbound, Outbound}, flows);
              if volume.packets == 0 then average == 0.0
              else average * (volume.packets as real) == volume.bytes as real
    {
      hide TotalsOf, KeySet;
      InAndOut(flows);
      var totalPackets := packetsInbound + packetsOutbound;
      if totalPackets == 0 {
        return 0.0;
      }
      return ((bytesInbound + bytesOutbound) as real) / (totalPackets as real);
    }
  }

  lemma TotalsStep(dirs: set<Direction>, fs: seq<Report>, f: Report)
    ensures TotalsOf(dirs, fs + [f]) == TotalsOf(dirs, fs).Plus(Counted(dirs, f))
  {
    assert (fs + [f])[..|fs + [f]| - 1] == fs;
  }

  lemma KeySetStep(fs: seq<Report>, f: Report)
    ensures KeySet(fs + [f]) == KeySet(fs) + {TupleText(TupleOf(f))}
  {
    assert forall g :: g in fs + [f] <==> g in fs || g == f;
  }

  /** What one more flow changes, direction by direction. */
  lemma SummaryStep(fs: seq<Report>, f: Report)
    ensures var before, key := SummaryOf(fs), TupleText(TupleOf(f));
            SummaryOf(fs + [f]) ==
            Summary(if f.dir == Inbound then before.bytesInbound + f.byteCount else before.bytesInbound,
                    if f.dir == Outbound then before.bytesOutbound + f.byteCount else before.bytesOutbound,
                    if f.dir == Inbound then before.packetsInbound + f.packetCount else before.packetsInbound,
                    if f.dir == Outbound then before.packetsOutbound + f.packetCount else before.packetsOutbound,
                    if key in before.flowKeys then before.uniqueFlowCount else before.uniqueFlowCount + 1,
                    before.flowKeys + {key},
                    before.syn + f.syn, before.ack + f.ack, before.fin + f.fin, before.rst + f.rst)
  {
    hide TotalsOf, KeySet;
    TotalsStep({Inbound}, fs, f);
    TotalsStep({Outbound}, fs, f);
    TotalsStep(ALL_DIRECTIONS, fs, f);
    KeySetStep(fs, f);
    if TupleText(TupleOf(f)) in KeySet(fs) {
      assert KeySet(fs + [f]) == KeySet(fs);
    }
  }

  lemma {:induction false} InAndOut(fs: seq<Report>)
    ensures TotalsOf({Inbound, Outbound}, fs) == TotalsOf({Inbound}, fs).Plus(TotalsOf({Outbound}, fs))
  {
    if fs != [] {
      InAndOut(fs[..|fs| - 1]);
    }
  }

  // ----- the order of the flows does not matter

  lemma PlusSwap(a: Totals, b: Totals, c: Totals)
    ensures a.Plus(b).Plus(c) == a.Plus(c).Plus(b)
  {
  }

  lemma {:induction false} TotalsWithout(dirs: set<Direction>, fs: seq<Report>, i: nat)
    requires i < |fs|
    ensures TotalsOf(dirs, fs) ==
            TotalsOf(dirs, fs[..i] + fs[i + 1..]).Plus(Counted(dirs, fs[i]))
  {
    hide Counted;
    var k := |fs| - 1;
    if i == k {
      assert fs[..i] + fs[i + 1..] == fs[..k];
    } else {
      TotalsWithout(dirs, fs[..k], i);
      var rest := fs[..k][..i] + fs[..k][i + 1..];
      assert fs[..i] + fs[i + 1..] == rest + [fs[k]];
      TotalsStep(dirs, rest, fs[k]);
      PlusSwap(TotalsOf(dirs, rest), Counted(dirs, fs[i]), Counted(dirs, fs[k]));
    }
  }

  lemma RemoveOne<T>(s: seq<T>, i: nat)
    requires i < |s|
    ensures multiset(s[..i] + s[i + 1..]) == multiset(s) - multiset{s[i]}
  {
    assert s == s[..i] + ([s[i]] + s[i + 1..]);
  }

  lemma {:induction false} TotalsPermuted(dirs: set<Direction>, fs: seq<Report>, gs: seq<Report>)
    requires multiset(fs) == multiset(gs)
    ensures TotalsOf(dirs, fs) == TotalsOf(dirs, gs)
  {
    if fs == [] {
      assert |multiset(gs)| == 0;
      assert gs == [];
    } else {
      var k := |fs| - 1;
      assert fs == fs[..k] + [fs[k]];
      assert fs[k] in multiset(gs);
      var i :| 0 <= i < |gs| && gs[i] == fs[k];
      RemoveOne(gs, i);
      TotalsWithout(dirs, gs, i);
      TotalsPermuted(dirs, fs[..k], gs[..i] + gs[i + 1..]);
    }
  }

  /** Every order of the same flows gives the same aggregate. */
  lemma OrderIndependent(fs: seq<Report>, gs: seq<Report>)
    requires multiset(fs) == multiset(gs)
    ensures SummaryOf(fs) == SummaryOf(gs)
  {
    hide TotalsOf;
    TotalsPermuted({Inbound}, fs, gs);
    TotalsPermuted({Outbound}, fs, gs);
    TotalsPermuted(ALL_DIRECTIONS, fs, gs);
    assert forall f :: f in fs <==> f in multiset(fs);
    assert forall f :: f in gs <==> f in multiset(gs);
    assert KeySet(fs) == KeySet(gs);
  }

  // ----- how many flows are counted

  function Tuples(fs: seq<Report>): set<Tuple> {
    set f | f in fs :: TupleOf(f)
  }

  ghost predicate Injective<T>(m: map<T, string>) {
    forall a, b :: a in m && b in m && m[a] == m[b] ==> a == b
  }

  lemma ValuesWithout<T>(m: map<T, string>, t: T)
    requires t in m
    ensures m.Values == (m - {t}).Values + {m[t]} && |m - {t}| == |m| - 1
  {
    var rest := m - {t};
    assert m.Keys == rest.Keys + {t};
    forall v | v in m.Values
      ensures v in rest.Values + {m[t]}
    {
      var u :| u in m && m[u] == v;
      if u != t {
        assert u in rest && rest[u] == v;
      }
    }
  }

  lemma InjectiveWithout<T>(m: map<T, string>, t: T)
    requires t in m
    ensures Injective(m) <==> Injective(m - {t}) && m[t] !in (m - {t}).Values
  {
    var rest := m - {t};
    if Injective(rest) && m[t] !in rest.Values {
      forall a, b | a in m && b in m && m[a] == m[b]
        ensures a == b
      {
        assert a != t ==> a in rest && rest[a] in rest.Values;
        assert b != t ==> b in rest && rest[b] in rest.Values;
      }
    }
    if m[t] in rest.Values {
      var u :| u in rest && rest[u] == m[t];
      assert u != t && m[u] == m[t];
    }
  }

  lemma {:induction false} ImageSize<T>(m: map<T, string>)
    ensures |m.Values| <= |m|
    ensures |m.Values| == |m| <==> Injective(m)
    decreases |m|
  {
    if m != map[] {
      var t :| t in m;
      ImageSize(m - {t});
      ValuesWithout(m, t);
      InjectiveWithout(m, t);
    }
  }

  /** The texts of some 5-tuples. */
  function TupleTexts(ts: set<Tuple>): map<Tuple, string> {
    map t | t in ts :: TupleText(t)
  }

  /** unique_flow_count never exceeds the number of distinct 5-tuples, and equals it exactly when no two of
      them read alike once written without separators. */
  lemma UniqueCount(fs: seq<Report>)
    ensures SummaryOf(fs).uniqueFlowCount <= |Tuples(fs)|
    ensures SummaryOf(fs).uniqueFlowCount == |Tuples(fs)| <==> Injective(TupleTexts(Tuples(fs)))
  {
    var m := TupleTexts(Tuples(fs));
    forall f | f in fs
      ensures TupleOf(f) in m && m[TupleOf(f)] == TupleText(TupleOf(f))
    {
    }
    assert m.Keys == Tuples(fs) && m.Values == KeySet(fs);
    ImageSize(m);
  }

  // ----- when two flows are counted as one

  function TupleOfKey(key: FlowKey): Tuple {
    Tuple(Dotted(key.srcIp), key.srcPort, Dotted(key.dstIp), key.dstPort, if IsTcp(key) then TCP else UDP)
  }

  /** The text of a flow of the sniffer. */
  function KeyText(key: FlowKey): string {
    TupleText(TupleOfKey(key))
  }

  /** The digits between the third and the fourth dot of such a text, and those after the last dot. */
  function Middle(key: FlowKey): string {
    Decimal(Octet(key.srcIp, 3)) + IntText(key.srcPort) + Decimal(Octet(key.dstIp, 0))
  }

  function End(key: FlowKey): string {
    Decimal(Octet(key.dstIp, 3)) + IntText(key.dstPort)
  }

  function ProtocolText(key: FlowKey): string {
    NameOf(if IsTcp(key) then TCP else UDP)
  }

  lemma KeyTextShape(key: FlowKey)
    requires IsKnown(key)
    ensures '.' !in Middle(key) && '.' !in End(key)
    ensures KeyText(key) ==
            Decimal(Octet(key.srcIp, 0)) + "." +
            (Decimal(Octet(key.srcIp, 1)) + "." + (Decimal(Octet(key.srcIp, 2)) + "." +
            (Middle(key) + "." + (Decimal(Octet(key.dstIp, 1)) + "." + (Decimal(Octet(key.dstIp, 2)) + "." +
            (End(key) + ProtocolText(key)))))))
  {
    hide Octet, Decimal;
    NoSeparator(Octet(key.srcIp, 3), '.');
    NoSeparator(key.srcPort, '.');
    NoSeparator(Octet(key.dstIp, 0), '.');
    NoSeparator(Octet(key.dstIp, 3), '.');
    NoSeparator(key.dstPort, '.');
  }

  /** Exactly when two flows read alike: the protocols agree, so do the octets that stand between dots, and
      the digits that are run together, fourth source octet, source port and first destination octet, and
      fourth destination octet and destination port, come out the same. */
  lemma FlowsReadAlike(a: FlowKey, b: FlowKey)
    requires IsKnown(a) && IsKnown(b)
    ensures KeyText(a) == KeyText(b) <==>
              && a.protocol == b.protocol
              && (forall k :: 0 <= k < 3 ==> Octet(a.srcIp, k) == Octet(b.srcIp, k))
              && (forall k :: 1 <= k < 3 ==> Octet(a.dstIp, k) == Octet(b.dstIp, k))
              && Middle(a) == Middle(b) && End(a) == End(b)
  {
    KeyTextShape(a);
    KeyTextShape(b);
    if KeyText(a) == KeyText(b) {
      TextsSplit(a, b);
    }
  }

  lemma TextsSplit(a: FlowKey, b: FlowKey)
    requires IsKnown(a) && IsKnown(b) && KeyText(a) == KeyText(b)
    ensures a.protocol == b.protocol && Middle(a) == Middle(b) && End(a) == End(b)
    ensures forall k :: 0 <= k < 3 ==> Octet(a.srcIp, k) == Octet(b.srcIp, k)
    ensures forall k :: 1 <= k < 3 ==> Octet(a.dstIp, k) == Octet(b.dstIp, k)
  {
    hide Middle, End, Decimal, Octet, KeyText;
    KeyTextShape(a);
    KeyTextShape(b);
    var a6, b6 := End(a) + ProtocolText(a), End(b) + ProtocolText(b);
    var a5, b5 := Decimal(Octet(a.dstIp, 2)) + "." + a6, Decimal(Octet(b.dstIp, 2)) + "." + b6;
    var a4, b4 := Decimal(Octet(a.dstIp, 1)) + "." + a5, Decimal(Octet(b.dstIp, 1)) + "." + b5;
    var a3, b3 := Middle(a) + "." + a4, Middle(b) + "." + b4;
    var a2, b2 := Decimal(Octet(a.srcIp, 2)) + "." + a3, Decimal(Octet(b.srcIp, 2)) + "." + b3;
    var a1, b1 := Decimal(Octet(a.srcIp, 1)) + "." + a2, Decimal(Octet(b.srcIp, 1)) + "." + b2;
    SplitDot(Octet(a.srcIp, 0), Octet(b.srcIp, 0), a1, b1);
    SplitDot(Octet(a.srcIp, 1), Octet(b.srcIp, 1), a2, b2);
    SplitDot(Octet(a.srcIp, 2), Octet(b.srcIp, 2), a3, b3);
    SplitAt(Middle(a), a4, Middle(b), b4, '.');
    SplitDot(Octet(a.dstIp, 1), Octet(b.dstIp, 1), a5, b5);
    SplitDot(Octet(a.dstIp, 2), Octet(b.dstIp, 2), a6, b6);
    SplitProtocol(a, b, End(a), End(b));
  }

  lemma SplitProtocol(a: FlowKey, b: FlowKey, s: string, t: string)
    requires IsKnown(a) && IsKnown(b) && s + ProtocolText(a) == t + ProtocolText(b)
    ensures s == t && a.protocol == b.protocol
  {
    assert (s + ProtocolText(a))[|s|] == ProtocolText(a)[0] && (t + ProtocolText(b))[|t|] == ProtocolText(b)[0];
    assert (s + ProtocolText(a))[..|s|] == s && (t + ProtocolText(b))[..|t|] == t;
  }

  /** Such flows exist: 1.1.1.1 port 12 and 1.1.1.11 port 2. */
  lemma TwoFlowsCountedAsOne(dstIp: uint32, dstPort: uint16)
    ensures var a := FlowKey(0x0101_0101, dstIp, 12, dstPort, IPPROTO_TCP);
            var b := FlowKey(0x0101_010B, dstIp, 2, dstPort, IPPROTO_TCP);
            a != b && KeyText(a) == KeyText(b)
  {
    hide KeyText;
    var a := FlowKey(0x0101_0101, dstIp, 12, dstPort, IPPROTO_TCP);
    var b := FlowKey(0x0101_010B, dstIp, 2, dstPort, IPPROTO_TCP);
    assert Decimal(1) + Decimal(12) == "112" == Decimal(11) + Decimal(2);
    FlowsReadAlike(a, b);
  }
}
