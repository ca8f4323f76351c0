/** flow.c on pointers: a packet finds or creates its flow in the active table and updates it. */
module FlowEngine {
  import opened FlowTypes
  import opened FlowRecord
  import opened GroupBy
  import opened UthashModel
  import opened Uthash
  import Laws = UthashLaws

  /** The record a node holds. */
  ghost function RecordOf(f: Flow): Record
    reads f`direction, f`packetCount, f`byteCount, f`minPacketSize, f`maxPacketSize, f`startTime, f`lastSeen,
          f`totalIatUsec, f`synCount, f`finCount, f`rstCount, f`ackCount
  {
    Record(f.key, f.direction, f.packetCount, f.byteCount, f.minPacketSize, f.maxPacketSize,
           f.startTime, f.lastSeen, f.totalIatUsec, f.synCount, f.finCount, f.rstCount, f.ackCount)
  }

  /** The nodes s, in order, hold the records rs. */
  ghost predicate Shows(s: seq<Flow>, rs: seq<Record>)
    reads s`direction, s`packetCount, s`byteCount, s`minPacketSize, s`maxPacketSize, s`startTime, s`lastSeen,
          s`totalIatUsec, s`synCount, s`finCount, s`rstCount, s`ackCount
  {
    |rs| == |s| && forall i :: 0 <= i < |s| ==> rs[i] == RecordOf(s[i])
  }

  /** The end of flow_update_stats. */
  method CountFlags(flow: Flow, stats: Packet)
    modifies flow`synCount, flow`finCount, flow`rstCount, flow`ackCount
    ensures flow.synCount == Wrap32(old(flow.synCount) + Syn(stats))
    ensures flow.finCount == Wrap32(old(flow.finCount) + Fin(stats))
    ensures flow.rstCount == Wrap32(old(flow.rstCount) + Rst(stats))
    ensures flow.ackCount == Wrap32(old(flow.ackCount) + Ack(stats))
  {
    if IsTcp(stats.key) {
      if stats.tcpFlags.syn {
        flow.synCount := Wrap32(flow.synCount + 1);
      }
      if stats.tcpFlags.fin {
        flow.finCount := Wrap32(flow.finCount + 1);
      }
      if stats.tcpFlags.rst {
        flow.rstCount := Wrap32(flow.rstCount + 1);
      }
      if stats.tcpFlags.ack {
        flow.ackCount := Wrap32(flow.ackCount + 1);
      }
    }
  }

  /** flow_update_stats. */
  method FlowUpdateStats(flow: Flow, stats: Packet)
    modifies flow`packetCount, flow`byteCount, flow`minPacketSize, flow`maxPacketSize, flow`startTime,
             flow`lastSeen, flow`totalIatUsec, flow`synCount, flow`finCount, flow`rstCount, flow`ackCount
    ensures RecordOf(flow) == Update(old(RecordOf(flow)), stats)
  {
    hide Wrap32;
    if flow.packetCount == 0 {
      flow.startTime := stats.timestamp;
      flow.minPacketSize := Wrap16(stats.payloadSize);
      flow.maxPacketSize := Wrap16(stats.payloadSize);
      flow.totalIatUsec := 0;
    } else {
      if stats.payloadSize < flow.minPacketSize {
        flow.minPacketSize := Wrap16(stats.payloadSize);
      }
      if stats.payloadSize > flow.maxPacketSize {
        flow.maxPacketSize := Wrap16(stats.payloadSize);
      }
      var deltaUsec := (stats.timestamp.sec - flow.lastSeen.sec) * 1000000
                       + (stats.timestamp.usec - flow.lastSeen.usec);
      flow.totalIatUsec := flow.totalIatUsec + deltaUsec;
    }
    flow.lastSeen := stats.timestamp;
    flow.packetCount := Wrap32(flow.packetCount + 1);
    flow.byteCount := Wrap32(flow.byteCount + stats.payloadSize);
    CountFlags(flow, stats);
  }

  lemma {:induction false} FirstWithIndex(s: seq<Flow>, rs: seq<Record>, key: FlowKey)
    requires Shows(s, rs)
    ensures var i := IndexOf(rs, key);
            FirstWith(s, key) == if i < |s| then s[i] else null
  {
    if s != [] && s[0].key != key {
      FirstWithIndex(s[1..], rs[1..], key);
    }
  }

  /** The part of flow_process_packet that creates a flow. */
  method CreateFlow(net: Network, key: FlowKey) returns (flow: Flow)
    ensures fresh(flow) && flow.key == key && !flow.freed
    ensures RecordOf(flow) == Created(key, DirectionOf(net, key))
  {
    flow := new Flow(key);
    if net.mask != 0 {
      var srcIsLocal := IsLocal(net, key.srcIp);
      var dstIsLocal := IsLocal(net, key.dstIp);
      if srcIsLocal && !dstIsLocal {
        flow.direction := Outbound;
      } else if !srcIsLocal && dstIsLocal {
        flow.direction := Inbound;
      } else if srcIsLocal && dstIsLocal {
        flow.direction := Lateral;
      } else {
        flow.direction := Unknown;
      }
    } else {
      flow.direction := Unknown;
    }
  }

  /** Everything a table is made of. */
  ghost function Footprint(t: Table?): set<object>
    reads TableSet(t)`model, TableSet(t)`buckets
  {
    var structures: set<object> := TableSet(t);
    structures + BucketsOf(t) + ItemsOf(t)
  }

  /** A table of flows: its head pointer, its nodes and their records, one for each key. */
  ghost predicate IsFlowTable(h: Hash, head: Flow?, t: Table?, rs: seq<Record>)
    reads Footprint(t)
  {
    IsTable(h, head, t) && Laws.UniqueKeys(Order(ModelOf(t))) && Shows(Order(ModelOf(t)), rs)
  }

  /** A packet of a flow that is in the table. */
  method UpdateFound(flow: Flow, stats: Packet, ghost s: seq<Flow>, ghost rs: seq<Record>, ghost i: nat)
    requires Shows(s, rs) && Distinct(s) && i < |s| && flow == s[i]
    modifies flow`packetCount, flow`byteCount, flow`minPacketSize, flow`maxPacketSize, flow`startTime,
             flow`lastSeen, flow`totalIatUsec, flow`synCount, flow`finCount, flow`rstCount, flow`ackCount
    ensures Shows(s, rs[i := Update(rs[i], stats)])
  {
    FlowUpdateStats(flow, stats);
  }

  lemma KeysOf(s: seq<Flow>, rs: seq<Record>, key: FlowKey)
    requires Shows(s, rs) && Laws.UniqueKeys(s)
    ensures Distinct(s)
    ensures IndexOf(rs, key) == |rs| ==> forall n: Flow :: n.key == key ==> n !in s
    ensures forall n: Flow :: n.key == key && IndexOf(rs, key) == |rs| ==> Laws.UniqueKeys(s + [n])
  {
    Laws.UniqueDistinct(s);
    if IndexOf(rs, key) == |rs| {
      forall i | 0 <= i < |s|
        ensures s[i].key != key
      {
        assert rs[i].key != key;
      }
    }
  }

  /** HASH_ADD, said of the list alone. */
  method InsertLast(h: Hash, head: Flow?, add: Flow, ghost t: Table?) returns (head': Flow, ghost t': Table)
    requires IsTable(h, head, t) && !add.freed && add !in ItemsOf(t)
    modifies add`hashv, add`next, add`prev, add`tbl, add`hhNext, add`hhPrev
    modifies t, BucketsOf(t), ItemsOf(t)`next, ItemsOf(t)`hhNext, ItemsOf(t)`hhPrev
    ensures IsTable(h, head', t') && t'.model.order == old(Order(ModelOf(t))) + [add]
    ensures if t == null then fresh(t') else t' == t
    ensures t == null || t'.buckets != old(t.buckets) ==> fresh(t'.buckets)
  {
    Laws.AddWellFormed(h, ModelOf(t), add);
    head', t' := HashAdd(h, head, add, t);
  }

  /** HASH_ADD leaves the records of all flows alone. */
  method Insert(h: Hash, head: Flow?, add: Flow, ghost t: Table?, ghost s: seq<Flow>, ghost rs: seq<Record>)
    returns (head': Flow, ghost t': Table)
    requires IsTable(h, head, t) && !add.freed && add !in ItemsOf(t) && Shows(s, rs)
    modifies add`hashv, add`next, add`prev, add`tbl, add`hhNext, add`hhPrev
    modifies t, BucketsOf(t), ItemsOf(t)`next, ItemsOf(t)`hhNext, ItemsOf(t)`hhPrev
    ensures IsTable(h, head', t') && t'.model.order == old(Order(ModelOf(t))) + [add] && Shows(s, rs)
    ensures if t == null then fresh(t') else t' == t
    ensures t == null || t'.buckets != old(t.buckets) ==> fresh(t'.buckets)
  {
    hide IsTable;
    head', t' := InsertLast(h, head, add, t);
  }

  lemma ShowsMore(s: seq<Flow>, rs: seq<Record>, n: Flow)
    requires Shows(s, rs)
    ensures Shows(s + [n], rs + [RecordOf(n)])
  {
  }

  /** A packet of a new flow, up to its update. */
  method AddCreated(h: Hash, net: Network, head: Flow?, key: FlowKey, ghost t: Table?, ghost rs: seq<Record>)
    returns (head': Flow, flow: Flow, ghost t': Table)
    requires IsFlowTable(h, head, t, rs) && IndexOf(rs, key) == |rs|
    modifies t, BucketsOf(t), ItemsOf(t)`next, ItemsOf(t)`hhNext, ItemsOf(t)`hhPrev
    ensures IsFlowTable(h, head', t', rs + [Created(key, DirectionOf(net, key))])
    ensures fresh(flow) && t'.model.order == old(Order(ModelOf(t))) + [flow]
    ensures if t == null then fresh(t') else t' == t
    ensures t == null || t'.buckets != old(t.buckets) ==> fresh(t'.buckets)
  {
    ghost var s := Order(ModelOf(t));
    KeysOf(s, rs, key);
    flow := CreateFlow(net, key);
    ShowsMore(s, rs, flow);
    assert Laws.UniqueKeys(s + [flow]);
    head', t' := Insert(h, head, flow, t, s + [flow], rs + [RecordOf(flow)]);
  }

  /** The update at the end of flow_process_packet. */
  method UpdateAt(h: Hash, flow: Flow, stats: Packet, ghost head: Flow?, ghost t: Table, ghost rs: seq<Record>,
                  ghost i: nat)
    requires IsFlowTable(h, head, t, rs) && i < |rs| && flow == Order(t.model)[i]
    modifies flow`packetCount, flow`byteCount, flow`minPacketSize, flow`maxPacketSize, flow`startTime,
             flow`lastSeen, flow`totalIatUsec, flow`synCount, flow`finCount, flow`rstCount, flow`ackCount
    ensures IsFlowTable(h, head, t, rs[i := Update(rs[i], stats)])
  {
    Laws.UniqueDistinct(Order(t.model));
    UpdateFound(flow, stats, Order(t.model), rs, i);
  }

  /** A miss in flow_process_packet. */
  method ProcessNew(h: Hash, net: Network, head: Flow?, stats: Packet, ghost t: Table?, ghost rs: seq<Record>)
    returns (head': Flow, ghost t': Table)
    requires IsFlowTable(h, head, t, rs) && IndexOf(rs, stats.key) == |rs|
    modifies Footprint(t)
    ensures IsFlowTable(h, head', t', rs + [Update(Created(stats.key, DirectionOf(net, stats.key)), stats)])
    ensures fresh(Footprint(t') - old(Footprint(t)))
  {
    hide IsTable;
    var flow;
    head', flow, t' := AddCreated(h, net, head, stats.key, t, rs);
    ghost var qs := rs + [Created(stats.key, DirectionOf(net, stats.key))];
    UpdateAt(h, flow, stats, head', t', qs, |rs|);
    assert qs[|rs| := Update(qs[|rs|], stats)] == rs + [Update(qs[|rs|], stats)];
  }

  /** A hit in flow_process_packet. */
  method ProcessKnown(h: Hash, flow: Flow, stats: Packet, ghost head: Flow?, ghost t: Table, ghost rs: seq<Record>,
                      ghost i: nat)
    requires IsFlowTable(h, head, t, rs) && i < |rs| && flow == Order(t.model)[i]
    modifies Footprint(t)
    ensures IsFlowTable(h, head, t, rs[i := Update(rs[i], stats)])
    ensures Footprint(t) == old(Footprint(t))
  {
    UpdateAt(h, flow, stats, head, t, rs, i);
  }

  /** The look-up of flow_process_packet. */
  method LookUp(h: Hash, head: Flow?, key: FlowKey, ghost t: Table?, ghost rs: seq<Record>) returns (flow: Flow?)
    requires IsFlowTable(h, head, t, rs)
    ensures |rs| == |Order(ModelOf(t))| && (flow == null <==> IndexOf(rs, key) == |rs|)
    ensures flow != null ==> t != null && flow == Order(t.model)[IndexOf(rs, key)]
  {
    Laws.FindRefinesScan(h, ModelOf(t), key);
    FirstWithIndex(Order(ModelOf(t)), rs, key);
    flow := HashFind(h, head, key, t);
  }

  /** What flow_process_packet does to one table, given by its head pointer. */
  method Process(h: Hash, net: Network, head: Flow?, stats: Packet, ghost t: Table?, ghost rs: seq<Record>)
    returns (head': Flow, ghost t': Table)
    requires IsFlowTable(h, head, t, rs)
    modifies Footprint(t)
    ensures IsFlowTable(h, head', t', Upsert(net, rs, stats))
    ensures fresh(Footprint(t') - old(Footprint(t)))
  {
    hide Shows, RecordOf;
    var flowEntry := LookUp(h, head, stats.key, t, rs);
    if flowEntry == null {
      head', t' := ProcessNew(h, net, head, stats, t, rs);
    } else {
      head', t' := head, t;
      ProcessKnown(h, flowEntry, stats, head, t, rs, IndexOf(rs, stats.key));
    }
  }
}
