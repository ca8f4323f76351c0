/** Grouping loses nothing: the totals of a window's records are the totals of its packets, for all flows
    or for any class of flows that the key decides. */
module Conservation {
  import opened FlowTypes
  import opened FlowRecord
  import opened GroupBy
  import Rolling

  /** A class of flows: any set of keys. */
  type Class = iset<FlowKey>

  function SumTotals(ts: seq<Totals>): Totals {
    if ts == [] then ZERO else SumTotals(ts[..|ts| - 1]).Plus(ts[|ts| - 1])
  }

  function Part(keep: Class, p: Packet): Totals {
    if p.key in keep then PacketTotals(p) else ZERO
  }

  /** The packets of a class, counted one by one. */
  function SumPacketsOf(keep: Class, ps: seq<Packet>): Totals {
    if ps == [] then ZERO
    else
      var p := ps[|ps| - 1];
      SumPacketsOf(keep, ps[..|ps| - 1]).Plus(Part(keep, p))
  }

  /** The records of a class, added up. */
  function SumRecordsOf(keep: Class, rs: seq<Record>): Totals {
    if rs == [] then ZERO
    else
      var r := rs[|rs| - 1];
      SumRecordsOf(keep, rs[..|rs| - 1]).Plus(if r.key in keep then RecordTotals(r) else ZERO)
  }

  lemma {:induction false} SumRecordsConcat(keep: Class, rs: seq<Record>, qs: seq<Record>)
    ensures SumRecordsOf(keep, rs + qs) == SumRecordsOf(keep, rs).Plus(SumRecordsOf(keep, qs))
  {
    if qs == [] {
      assert rs + qs == rs;
    } else {
      assert (rs + qs)[..|rs + qs| - 1] == rs + qs[..|qs| - 1];
      var r := qs[|qs| - 1];
      SumRecordsConcat(keep, rs, qs[..|qs| - 1]);
      PlusAssoc(SumRecordsOf(keep, rs), SumRecordsOf(keep, qs[..|qs| - 1]),
                if r.key in keep then RecordTotals(r) else ZERO);
    }
  }

  lemma {:induction false} SumPacketsConcat(keep: Class, ps: seq<Packet>, qs: seq<Packet>)
    ensures SumPacketsOf(keep, ps + qs) == SumPacketsOf(keep, ps).Plus(SumPacketsOf(keep, qs))
  {
    if qs == [] {
      assert ps + qs == ps;
    } else {
      assert (ps + qs)[..|ps + qs| - 1] == ps + qs[..|qs| - 1];
      var p := qs[|qs| - 1];
      assert (ps + qs)[|ps + qs| - 1] == p;
      SumPacketsConcat(keep, ps, qs[..|qs| - 1]);
      PlusAssoc(SumPacketsOf(keep, ps), SumPacketsOf(keep, qs[..|qs| - 1]), Part(keep, p));
    }
  }

  // ----- what is counted

  /** The packets a counter is about: all of them, or the TCP packets with one flag. */
  predicate Bears(p: Packet, c: Counter) {
    match c
    case PacketCount => true
    case ByteCount => false
    case SynCount => p.key.protocol == 6 && p.tcpFlags.syn
    case FinCount => p.key.protocol == 6 && p.tcpFlags.fin
    case RstCount => p.key.protocol == 6 && p.tcpFlags.rst
    case AckCount => p.key.protocol == 6 && p.tcpFlags.ack
  }

  /** The places at which they stand. */
  ghost function Bearing(keep: Class, ps: seq<Packet>, c: Counter): set<int> {
    set i | 0 <= i < |ps| && Counts(keep, ps[i], c)
  }

  ghost function PayloadsOf(keep: Class, ps: seq<Packet>): (s: seq<int>)
    ensures |s| == |ps|
  {
    seq(|ps|, i requires 0 <= i < |ps| => if ps[i].key in keep then ps[i].payloadSize else 0)
  }

  /** What a counter should say of some packets: how many there are, or how many bytes. */
  ghost function TrueCount(keep: Class, ps: seq<Packet>, c: Counter): int {
    if c == ByteCount then Rolling.Sum(PayloadsOf(keep, ps)) else |Bearing(keep, ps, c)|
  }

  predicate Counts(keep: Class, p: Packet, c: Counter) {
    p.key in keep && Bears(p, c)
  }

  lemma BearingStep(keep: Class, ps: seq<Packet>, p: Packet, c: Counter)
    ensures |Bearing(keep, ps + [p], c)| == |Bearing(keep, ps, c)| + if Counts(keep, p, c) then 1 else 0
  {
    hide Counts;
    var qs, before, n := ps + [p], Bearing(keep, ps, c), |ps|;
    assert forall i :: 0 <= i < n ==> qs[i] == ps[i];
    assert n !in before;
    if Counts(keep, p, c) {
      assert Bearing(keep, qs, c) == before + {n};
    } else {
      assert Bearing(keep, qs, c) == before;
    }
  }

  lemma PartBears(keep: Class, p: Packet, c: Counter)
    ensures At(Part(keep, p), c) == if p.key !in keep then 0
                                    else if c == ByteCount then p.payloadSize
                                    else if Bears(p, c) then 1 else 0
  {
  }

  /** The packets of a class, added up one by one, come to what the counters should say. */
  lemma {:induction false} CountsAreTrue(keep: Class, ps: seq<Packet>, c: Counter)
    ensures At(SumPacketsOf(keep, ps), c) == TrueCount(keep, ps, c)
  {
    hide Part, Bears;
    if ps != [] {
      var k := |ps| - 1;
      CountsAreTrue(keep, ps[..k], c);
      PartBears(keep, ps[k], c);
      BearingStep(keep, ps[..k], ps[k], c);
      assert ps == ps[..k] + [ps[k]];
      assert PayloadsOf(keep, ps)[..k] == PayloadsOf(keep, ps[..k]);
    }
  }

  lemma {:induction false} AllOfClass(keep: Class, ps: seq<Packet>)
    requires forall i :: 0 <= i < |ps| ==> ps[i].key in keep
    ensures SumPacketsOf(keep, ps) == SumPackets(ps)
  {
    if ps != [] {
      AllOfClass(keep, ps[..|ps| - 1]);
    }
  }

  /** The flag counters of a record are, modulo 2^32, the numbers of TCP packets with these flags. */
  lemma RecordCountsFlags(key: FlowKey, direction: Direction, ps: seq<Packet>)
    ensures var r := Fold(key, direction, ps);
            && r.synCount == |set i | 0 <= i < |ps| && ps[i].key.protocol == 6 && ps[i].tcpFlags.syn| % 0x1_0000_0000
            && r.finCount == |set i | 0 <= i < |ps| && ps[i].key.protocol == 6 && ps[i].tcpFlags.fin| % 0x1_0000_0000
            && r.rstCount == |set i | 0 <= i < |ps| && ps[i].key.protocol == 6 && ps[i].tcpFlags.rst| % 0x1_0000_0000
            && r.ackCount == |set i | 0 <= i < |ps| && ps[i].key.protocol == 6 && ps[i].tcpFlags.ack| % 0x1_0000_0000
            && r.packetCount == |ps| % 0x1_0000_0000
  {
    hide Fold, SumPackets, SumPacketsOf;
    var keep: Class := iset p | p in ps :: p.key;
    assert forall i :: 0 <= i < |ps| ==> ps[i] in ps;
    FoldCounts(key, direction, ps);
    AllOfClass(keep, ps);
    CountsAreTrue(keep, ps, SynCount);
    CountsAreTrue(keep, ps, FinCount);
    CountsAreTrue(keep, ps, RstCount);
    CountsAreTrue(keep, ps, AckCount);
    SumsAre(ps);
    assert Bearing(keep, ps, SynCount) == set i | 0 <= i < |ps| && ps[i].key.protocol == 6 && ps[i].tcpFlags.syn;
    assert Bearing(keep, ps, FinCount) == set i | 0 <= i < |ps| && ps[i].key.protocol == 6 && ps[i].tcpFlags.fin;
    assert Bearing(keep, ps, RstCount) == set i | 0 <= i < |ps| && ps[i].key.protocol == 6 && ps[i].tcpFlags.rst;
    assert Bearing(keep, ps, AckCount) == set i | 0 <= i < |ps| && ps[i].key.protocol == 6 && ps[i].tcpFlags.ack;
  }

  lemma {:induction false} SumsAre(ps: seq<Packet>)
    ensures SumPackets(ps).packets == |ps|
  {
    if ps != [] {
      SumsAre(ps[..|ps| - 1]);
    }
  }

  /** Flags are not counted for any other protocol. */
  lemma {:induction false} NoFlagsWithoutTcp(key: FlowKey, direction: Direction, ps: seq<Packet>)
    requires key.protocol != 6 && forall i :: 0 <= i < |ps| ==> ps[i].key == key
    ensures var r := Fold(key, direction, ps);
            r.synCount == r.finCount == r.rstCount == r.ackCount == 0
  {
    if ps != [] {
      NoFlagsWithoutTcp(key, direction, ps[..|ps| - 1]);
    }
  }

  // ----- key by key

  /** The true totals of one flow, if it is of the class. */
  function KeyTotal(keep: Class, ps: seq<Packet>, key: FlowKey): Totals {
    if key in keep then SumPackets(WithKey(ps, key)) else ZERO
  }

  function KeyTotals(keep: Class, ps: seq<Packet>, ks: seq<FlowKey>): seq<Totals> {
    seq(|ks|, i requires 0 <= i < |ks| => KeyTotal(keep, ps, ks[i]))
  }

  lemma {:induction false} SumUpdate(ts: seq<Totals>, i: nat, d: Totals)
    requires i < |ts|
    ensures SumTotals(ts[i := ts[i].Plus(d)]) == SumTotals(ts).Plus(d)
  {
    var k := |ts| - 1;
    if i == k {
      assert ts[i := ts[i].Plus(d)][..k] == ts[..k];
    } else {
      assert ts[i := ts[i].Plus(d)][..k] == ts[..k][i := ts[i].Plus(d)];
      SumUpdate(ts[..k], i, d);
    }
  }

  lemma SumPacketsAppend(w: seq<Packet>, p: Packet)
    ensures SumPackets(w + [p]) == SumPackets(w).Plus(PacketTotals(p))
  {
    assert (w + [p])[..|w + [p]| - 1] == w;
  }

  lemma KeyTotalStep(keep: Class, ps: seq<Packet>, p: Packet, key: FlowKey)
    ensures KeyTotal(keep, ps + [p], key) ==
            KeyTotal(keep, ps, key).Plus(if key == p.key then Part(keep, p) else ZERO)
  {
    hide SumPackets, PacketTotals, ZERO;
    assert (ps + [p])[..|ps + [p]| - 1] == ps && (ps + [p])[|ps|] == p;
    var w := WithKey(ps, key);
    if key !in keep {
      PlusAssoc(ZERO, ZERO, ZERO);
    } else if key == p.key {
      assert WithKey(ps + [p], key) == w + [p];
      SumPacketsAppend(w, p);
    } else {
      assert WithKey(ps + [p], key) == w;
      PlusAssoc(SumPackets(w), ZERO, ZERO);
    }
  }

  lemma SharesHit(keep: Class, ps: seq<Packet>, p: Packet, ks: seq<FlowKey>, i: nat)
    requires DistinctKeys(ks) && i < |ks| && ks[i] == p.key
    ensures var ts := KeyTotals(keep, ps, ks);
            KeyTotals(keep, ps + [p], ks) == ts[i := ts[i].Plus(Part(keep, p))]
  {
    var ts := KeyTotals(keep, ps, ks);
    forall c | 0 <= c < |ks|
      ensures KeyTotals(keep, ps + [p], ks)[c] == ts[i := ts[i].Plus(Part(keep, p))][c]
    {
      KeyTotalStep(keep, ps, p, ks[c]);
      PlusAssoc(ts[c], ZERO, ZERO);
      if ks[c] == p.key {
        SamePlace(ks, c, i);
      }
    }
  }

  lemma NewKeyTotal(keep: Class, ps: seq<Packet>, p: Packet)
    requires p.key !in FirstKeys(ps)
    ensures KeyTotal(keep, ps + [p], p.key) == Part(keep, p)
  {
    WithKeyNone(ps, p.key);
    KeyTotalStep(keep, ps, p, p.key);
    PlusAssoc(Part(keep, p), ZERO, ZERO);
  }

  lemma OtherKeyTotal(keep: Class, ps: seq<Packet>, p: Packet, key: FlowKey)
    requires p.key != key
    ensures KeyTotal(keep, ps + [p], key) == KeyTotal(keep, ps, key)
  {
    KeyTotalStep(keep, ps, p, key);
    PlusAssoc(KeyTotal(keep, ps, key), ZERO, ZERO);
  }

  lemma SharesMiss(keep: Class, ps: seq<Packet>, p: Packet, ks: seq<FlowKey>)
    requires ks == FirstKeys(ps) && p.key !in ks
    ensures KeyTotals(keep, ps + [p], ks + [p.key]) == KeyTotals(keep, ps, ks) + [Part(keep, p)]
  {
    NewKeyTotal(keep, ps, p);
    forall c | 0 <= c < |ks|
      ensures KeyTotal(keep, ps + [p], ks[c]) == KeyTotal(keep, ps, ks[c])
    {
      assert ks[c] in ks;
      OtherKeyTotal(keep, ps, p, ks[c]);
    }
  }

  /** The flows of a window share its packets out between them. */
  lemma {:induction false} KeysShare(keep: Class, ps: seq<Packet>)
    ensures SumTotals(KeyTotals(keep, ps, FirstKeys(ps))) == SumPacketsOf(keep, ps)
  {
    if ps != [] {
      var n := |ps| - 1;
      var qs, p, ks := ps[..n], ps[n], FirstKeys(ps[..n]);
      assert qs + [p] == ps;
      KeysShare(keep, qs);
      var before := KeyTotals(keep, qs, ks);
      FirstKeysDistinct(qs);
      if p.key in ks {
        var i :| 0 <= i < |ks| && ks[i] == p.key;
        SharesHit(keep, qs, p, ks, i);
        SumUpdate(before, i, Part(keep, p));
      } else {
        SharesMiss(keep, qs, p, ks);
        assert (before + [Part(keep, p)])[..|before|] == before;
      }
    }
  }

  // ----- wrapping

  function WrapAll(ts: seq<Totals>): seq<Totals> {
    seq(|ts|, i requires 0 <= i < |ts| => ts[i].Wrapped())
  }

  ghost predicate NonNegative(t: Totals) {
    t.packets >= 0 && t.bytes >= 0 && t.syn >= 0 && t.fin >= 0 && t.rst >= 0 && t.ack >= 0
  }

  ghost predicate AtMost(a: Totals, b: Totals) {
    a.packets <= b.packets && a.bytes <= b.bytes && a.syn <= b.syn && a.fin <= b.fin && a.rst <= b.rst && a.ack <= b.ack
  }

  lemma {:induction false} SumWrapped(ts: seq<Totals>)
    ensures SumTotals(WrapAll(ts)).Wrapped() == SumTotals(ts).Wrapped()
  {
    if ts != [] {
      var k := |ts| - 1;
      SumWrapped(ts[..k]);
      assert WrapAll(ts)[..k] == WrapAll(ts[..k]);
      WrappedPlus(SumTotals(WrapAll(ts[..k])), ts[k]);
      WrappedPlus(SumTotals(ts[..k]), ts[k]);
    }
  }

  ghost predicate Unwrapped(ts: seq<Totals>) {
    forall i :: 0 <= i < |ts| ==> ts[i].Wrapped() == ts[i]
  }

  lemma ExactSum(ra: Totals, rb: Totals, pa: Totals, pb: Totals)
    requires AtMost(ra, pa) && AtMost(rb, pb)
    ensures AtMost(ra.Plus(rb), pa.Plus(pb))
    ensures ra.Plus(rb) == pa.Plus(pb) <==> ra == pa && rb == pb
  {
  }

  lemma WrappedAtMost(t: Totals)
    requires NonNegative(t)
    ensures AtMost(t.Wrapped(), t)
  {
    WrapExact(t.packets);
    WrapExact(t.bytes);
    WrapExact(t.syn);
    WrapExact(t.fin);
    WrapExact(t.rst);
    WrapExact(t.ack);
  }

  lemma {:induction false} SumWrappedExact(ts: seq<Totals>)
    requires forall i :: 0 <= i < |ts| ==> NonNegative(ts[i])
    ensures AtMost(SumTotals(WrapAll(ts)), SumTotals(ts))
    ensures SumTotals(WrapAll(ts)) == SumTotals(ts) <==> Unwrapped(ts)
  {
    hide NonNegative, Wrap32;
    if ts != [] {
      var k := |ts| - 1;
      SumWrappedExact(ts[..k]);
      assert WrapAll(ts)[..k] == WrapAll(ts[..k]);
      WrappedAtMost(ts[k]);
      ExactSum(SumTotals(WrapAll(ts[..k])), ts[k].Wrapped(), SumTotals(ts[..k]), ts[k]);
      assert forall i :: 0 <= i < k ==> ts[..k][i] == ts[i];
    }
  }

  // ----- one window

  lemma {:induction false} RecordsAsTotals(keep: Class, rs: seq<Record>, ts: seq<Totals>)
    requires |ts| == |rs|
    requires forall i :: 0 <= i < |rs| ==> ts[i] == (if rs[i].key in keep then RecordTotals(rs[i]) else ZERO)
    ensures SumRecordsOf(keep, rs) == SumTotals(ts)
  {
    if rs != [] {
      RecordsAsTotals(keep, rs[..|rs| - 1], ts[..|ts| - 1]);
    }
  }

  lemma GroupedTotals(keep: Class, net: Network, ps: seq<Packet>)
    ensures SumRecordsOf(keep, Grouped(net, ps)) == SumTotals(WrapAll(KeyTotals(keep, ps, FirstKeys(ps))))
  {
    var rs, ks := Grouped(net, ps), FirstKeys(ps);
    var ts := WrapAll(KeyTotals(keep, ps, ks));
    forall i | 0 <= i < |rs|
      ensures ts[i] == if rs[i].key in keep then RecordTotals(rs[i]) else ZERO
    {
      FoldCounts(ks[i], DirectionOf(net, ks[i]), WithKey(ps, ks[i]));
    }
    RecordsAsTotals(keep, rs, ts);
  }

  /** No 32-bit counter of a flow of the class overflows in this window. */
  ghost predicate Fits(keep: Class, ps: seq<Packet>) {
    forall key :: key in FirstKeys(ps) && key in keep ==>
      SumPackets(WithKey(ps, key)).Wrapped() == SumPackets(WithKey(ps, key))
  }

  lemma {:induction false} TotalsNonNegative(ps: seq<Packet>)
    requires Payloads16(ps)
    ensures NonNegative(SumPackets(ps))
  {
    if ps != [] {
      TotalsNonNegative(ps[..|ps| - 1]);
    }
  }

  lemma {:induction false} WithKeyPayloads(ps: seq<Packet>, key: FlowKey)
    requires Payloads16(ps)
    ensures Payloads16(WithKey(ps, key)) && |WithKey(ps, key)| <= |ps|
  {
    if ps != [] {
      WithKeyPayloads(ps[..|ps| - 1], key);
    }
  }

  lemma FitsMeans(keep: Class, ps: seq<Packet>, ts: seq<Totals>)
    requires ts == KeyTotals(keep, ps, FirstKeys(ps))
    ensures Fits(keep, ps) <==> Unwrapped(ts)
  {
    hide SumPackets;
    var ks := FirstKeys(ps);
    if Fits(keep, ps) {
      forall i | 0 <= i < |ts|
        ensures ts[i].Wrapped() == ts[i]
      {
        assert ks[i] in ks;
      }
    }
    if Unwrapped(ts) {
      forall key | key in ks && key in keep
        ensures SumPackets(WithKey(ps, key)).Wrapped() == SumPackets(WithKey(ps, key))
      {
        var i :| 0 <= i < |ks| && ks[i] == key;
        assert ts[i].Wrapped() == ts[i];
      }
    }
  }

  /** The records of a window carry the totals of its packets: always modulo 2^32, and exactly if and only
      if no counter of the class overflows. */
  lemma WindowConserves(keep: Class, net: Network, ps: seq<Packet>)
    requires Payloads16(ps)
    ensures SumRecordsOf(keep, Grouped(net, ps)).Wrapped() == SumPacketsOf(keep, ps).Wrapped()
    ensures SumRecordsOf(keep, Grouped(net, ps)) == SumPacketsOf(keep, ps) <==> Fits(keep, ps)
    ensures AtMost(SumRecordsOf(keep, Grouped(net, ps)), SumPacketsOf(keep, ps))
  {
    hide SumRecordsOf, SumPacketsOf, SumTotals;
    var ks := FirstKeys(ps);
    var ts := KeyTotals(keep, ps, ks);
    GroupedTotals(keep, net, ps);
    KeysShare(keep, ps);
    SumWrapped(ts);
    FitsMeans(keep, ps, ts);
    forall i | 0 <= i < |ts|
      ensures NonNegative(ts[i])
    {
      WithKeyPayloads(ps, ks[i]);
      TotalsNonNegative(WithKey(ps, ks[i]));
    }
    SumWrappedExact(ts);
  }

  /** A window of at most 65537 packets always fits. */
  lemma SmallWindowFits(keep: Class, ps: seq<Packet>)
    requires Payloads16(ps) && |ps| <= 65537
    ensures Fits(keep, ps)
  {
    hide SumPackets;
    forall key | key in FirstKeys(ps) && key in keep
      ensures SumPackets(WithKey(ps, key)).Wrapped() == SumPackets(WithKey(ps, key))
    {
      WithKeyPayloads(ps, key);
      SumsBounded(WithKey(ps, key));
      FlagsBounded(WithKey(ps, key));
    }
  }

  lemma {:induction false} FlagsBounded(ps: seq<Packet>)
    ensures var t := SumPackets(ps);
            0 <= t.syn <= |ps| && 0 <= t.fin <= |ps| && 0 <= t.rst <= |ps| && 0 <= t.ack <= |ps|
  {
    if ps != [] {
      FlagsBounded(ps[..|ps| - 1]);
    }
  }
}
