/** What one window of packets becomes: the incremental form the hash table computes, and the group-by it
    equals. */
module GroupBy {
  import opened Bits
  import opened FlowTypes
  import opened FlowRecord

  // ----- the incremental form

  function IndexOf(rs: seq<Record>, key: FlowKey): (i: nat)
    ensures i <= |rs|
    ensures i < |rs| ==> rs[i].key == key
    ensures forall j :: 0 <= j < i ==> rs[j].key != key
  {
    if rs == [] || rs[0].key == key then 0 else 1 + IndexOf(rs[1..], key)
  }

  /** flow_process_packet: find or create, then update. */
  function Upsert(net: Network, rs: seq<Record>, p: Packet): seq<Record> {
    var i := IndexOf(rs, p.key);
    if i < |rs| then rs[i := Update(rs[i], p)]
    else rs + [Update(Created(p.key, DirectionOf(net, p.key)), p)]
  }

  // ----- the group-by

  /** The keys of a window in order of first appearance. */
  function FirstKeys(ps: seq<Packet>): seq<FlowKey> {
    if ps == [] then []
    else
      var before, key := FirstKeys(ps[..|ps| - 1]), ps[|ps| - 1].key;
      if key in before then before else before + [key]
  }

  function WithKey(ps: seq<Packet>, key: FlowKey): seq<Packet> {
    if ps == [] then []
    else WithKey(ps[..|ps| - 1], key) + if ps[|ps| - 1].key == key then [ps[|ps| - 1]] else []
  }

  function RecordFor(net: Network, ps: seq<Packet>, key: FlowKey): Record {
    Fold(key, DirectionOf(net, key), WithKey(ps, key))
  }

  /** One record for each distinct key, in order of first appearance, each the fold of its key's packets. */
  function Grouped(net: Network, ps: seq<Packet>): (rs: seq<Record>)
    ensures |rs| == |FirstKeys(ps)|
  {
    seq(|FirstKeys(ps)|, i requires 0 <= i < |FirstKeys(ps)| => RecordFor(net, ps, FirstKeys(ps)[i]))
  }

  // ----- the two agree

  ghost predicate DistinctKeys(ks: seq<FlowKey>) {
    forall i, j :: 0 <= i < j < |ks| ==> ks[i] != ks[j]
  }

  lemma {:induction false} FirstKeysDistinct(ps: seq<Packet>)
    ensures DistinctKeys(FirstKeys(ps))
  {
    if ps != [] {
      var before := FirstKeys(ps[..|ps| - 1]);
      FirstKeysDistinct(ps[..|ps| - 1]);
      assert forall i :: 0 <= i < |before| ==> before[i] in before;
    }
  }

  /** A window has a record for exactly the keys that appear in it. */
  lemma {:induction false} FirstKeysIn(ps: seq<Packet>, key: FlowKey)
    ensures key in FirstKeys(ps) <==> exists p :: p in ps && p.key == key
  {
    if ps != [] {
      var n := |ps| - 1;
      FirstKeysIn(ps[..n], key);
      assert ps == ps[..n] + [ps[n]];
      assert ps[n] in ps;
    }
  }

  /** The order is that of first appearance: wherever a key occurs, the keys before it have occurred. */
  lemma {:induction false} FirstKeysOrdered(ps: seq<Packet>, i: nat, j: nat, a: nat)
    requires i < j < |FirstKeys(ps)| && a < |ps| && ps[a].key == FirstKeys(ps)[j]
    ensures exists b :: 0 <= b < a && ps[b].key == FirstKeys(ps)[i]
  {
    var n := |ps| - 1;
    var before := FirstKeys(ps[..n]);
    if a < n {
      FirstKeysIn(ps[..n], ps[a].key);
      assert ps[..n][a] in ps[..n];
      FirstKeysDistinct(ps);
      if j < |before| {
        FirstKeysOrdered(ps[..n], i, j, a);
        var b :| 0 <= b < a && ps[..n][b].key == before[i];
        assert ps[b].key == FirstKeys(ps)[i];
      }
    } else {
      assert before[i] in before;
      FirstKeysIn(ps[..n], before[i]);
      var p :| p in ps[..n] && p.key == before[i];
      var b :| 0 <= b < n && ps[..n][b] == p;
      assert ps[b].key == FirstKeys(ps)[i];
    }
  }

  lemma {:induction false} WithKeyNone(ps: seq<Packet>, key: FlowKey)
    requires key !in FirstKeys(ps)
    ensures WithKey(ps, key) == []
  {
    if ps != [] {
      WithKeyNone(ps[..|ps| - 1], key);
    }
  }

  lemma FoldKey(net: Network, ps: seq<Packet>, key: FlowKey)
    ensures RecordFor(net, ps, key).key == key && RecordFor(net, ps, key).direction == DirectionOf(net, key)
  {
    FoldCounts(key, DirectionOf(net, key), WithKey(ps, key));
  }

  /** The direction of the record of a key, for a mask of 32 - k leading bits: outbound when the source alone
      has the network's prefix, inbound when the destination alone has it, lateral when both have, and unknown
      when neither has or when there is no mask. */
  lemma RecordDirection(net: Network, ps: seq<Packet>, key: FlowKey, k: nat)
    requires k <= 32 && net.mask == (Pow2(32 - k) - 1) * Pow2(k) && net.ip % Pow2(k) == 0
    ensures var d := RecordFor(net, ps, key).direction;
            var src := key.srcIp / Pow2(k) == net.ip / Pow2(k);
            var dst := key.dstIp / Pow2(k) == net.ip / Pow2(k);
            && (net.mask == 0 ==> d == Unknown)
            && (net.mask != 0 ==>
                  && (d == Outbound <==> src && !dst)
                  && (d == Inbound <==> !src && dst)
                  && (d == Lateral <==> src && dst)
                  && (d == Unknown <==> !src && !dst))
  {
    FoldKey(net, ps, key);
    LocalIsPrefix(net, key.srcIp, k);
    LocalIsPrefix(net, key.dstIp, k);
  }

  /** In 192.168.0.0/16, what 192.168.0.1 sends to 8.8.8.8 is outbound. */
  lemma OutboundFlow(ps: seq<Packet>, srcPort: uint16, dstPort: uint16)
    ensures var net := Network(0xC0A8_0000, 0xFFFF_0000);
            RecordFor(net, ps, FlowKey(0xC0A8_0001, 0x0808_0808, srcPort, dstPort, 6)).direction == Outbound
  {
    PowersOfTwo();
    RecordDirection(Network(0xC0A8_0000, 0xFFFF_0000), ps, FlowKey(0xC0A8_0001, 0x0808_0808, srcPort, dstPort, 6), 16);
  }

  lemma SamePlace(ks: seq<FlowKey>, i: nat, j: nat)
    requires DistinctKeys(ks)
    requires i < |ks| && j < |ks| && ks[i] == ks[j]
    ensures i == j
  {
  }

  /** IndexOf finds the place of the key among the first appearances. */
  lemma GroupedIndex(net: Network, ps: seq<Packet>, key: FlowKey)
    ensures var i, ks := IndexOf(Grouped(net, ps), key), FirstKeys(ps);
            if key in ks then i < |ks| && ks[i] == key else i == |ks|
  {
    var rs, ks := Grouped(net, ps), FirstKeys(ps);
    forall i | 0 <= i < |rs|
      ensures rs[i].key == ks[i]
    {
      FoldKey(net, ps, ks[i]);
    }
    if key in ks {
      var j :| 0 <= j < |ks| && ks[j] == key;
      assert rs[j].key == key;
    }
  }

  lemma GroupedHit(net: Network, ps: seq<Packet>, p: Packet, i: nat)
    requires i < |FirstKeys(ps)| && FirstKeys(ps)[i] == p.key
    ensures Grouped(net, ps + [p]) == Grouped(net, ps)[i := Update(Grouped(net, ps)[i], p)]
  {
    var ks := FirstKeys(ps);
    assert (ps + [p])[..|ps + [p]| - 1] == ps;
    FirstKeysDistinct(ps);
    assert FirstKeys(ps + [p]) == ks;
    forall c | 0 <= c < |ks|
      ensures Grouped(net, ps + [p])[c] == Grouped(net, ps)[i := Update(Grouped(net, ps)[i], p)][c]
    {
      Another(net, ps, p, ks[c]);
      if ks[c] == p.key {
        SamePlace(ks, c, i);
      }
    }
  }

  lemma GroupedMiss(net: Network, ps: seq<Packet>, p: Packet)
    requires p.key !in FirstKeys(ps)
    ensures Grouped(net, ps + [p]) == Grouped(net, ps) + [Update(Created(p.key, DirectionOf(net, p.key)), p)]
  {
    var ks := FirstKeys(ps);
    assert (ps + [p])[..|ps + [p]| - 1] == ps;
    assert FirstKeys(ps + [p]) == ks + [p.key];
    WithKeyNone(ps, p.key);
    Another(net, ps, p, p.key);
    forall c | 0 <= c < |ks|
      ensures Grouped(net, ps + [p])[c] == Grouped(net, ps)[c]
    {
      assert ks[c] in ks;
      Another(net, ps, p, ks[c]);
    }
  }

  /** One more packet changes the group-by as flow_process_packet changes the table. */
  lemma GroupedStep(net: Network, ps: seq<Packet>, p: Packet)
    ensures Grouped(net, ps + [p]) == Upsert(net, Grouped(net, ps), p)
  {
    GroupedIndex(net, ps, p.key);
    if p.key in FirstKeys(ps) {
      GroupedHit(net, ps, p, IndexOf(Grouped(net, ps), p.key));
    } else {
      GroupedMiss(net, ps, p);
    }
  }

  lemma Another(net: Network, ps: seq<Packet>, p: Packet, key: FlowKey)
    ensures RecordFor(net, ps + [p], key) ==
            if p.key == key then Update(RecordFor(net, ps, key), p) else RecordFor(net, ps, key)
  {
    assert (ps + [p])[..|ps + [p]| - 1] == ps;
    if p.key == key {
      assert WithKey(ps + [p], key) == WithKey(ps, key) + [p];
      assert (WithKey(ps, key) + [p])[..|WithKey(ps, key)|] == WithKey(ps, key);
    } else {
      assert WithKey(ps + [p], key) == WithKey(ps, key);
    }
  }

  /** The table's contents after a window of packets, packet by packet. */
  function Upserts(net: Network, ps: seq<Packet>): seq<Record> {
    if ps == [] then [] else Upsert(net, Upserts(net, ps[..|ps| - 1]), ps[|ps| - 1])
  }

  /** A window's table is the group-by of the window. */
  lemma {:induction false} WindowIsGroupBy(net: Network, ps: seq<Packet>)
    ensures Upserts(net, ps) == Grouped(net, ps)
  {
    if ps != [] {
      var k := |ps| - 1;
      WindowIsGroupBy(net, ps[..k]);
      GroupedStep(net, ps[..k], ps[k]);
      assert ps[..k] + [ps[k]] == ps;
    }
  }
}
