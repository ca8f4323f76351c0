/** kafka_client.c: a detached table is exported record by record, and each node is deleted and freed on the
    way. Production is an append to a log. */
module KafkaClient {
  import opened FlowTypes
  import opened FlowRecord
  import opened UthashModel
  import opened Uthash
  import opened FlowEngine
  import Laws = UthashLaws

  /** The fields of the JSON text handed to the producer. */
  datatype Message = Message(srcIp: uint32, srcPort: uint16, dstIp: uint32, dstPort: uint16,
                             protocol: string, dir: string, packets: uint32, bytes: uint32,
                             minSize: uint16, maxSize: uint16, meanIatUs: real,
                             syn: uint32, ack: uint32, fin: uint32, rst: uint32)

  function ProtocolName(key: FlowKey): string {
    if IsTcp(key) then "TCP" else if IsUdp(key) then "UDP" else "OTHER"
  }

  /** dir_to_str. */
  function DirToStr(dir: Direction): string {
    match dir
    case Outbound => "OUTBOUND"
    case Inbound => "INBOUND"
    case Lateral => "LATERAL"
    case Unknown => "UNKNOWN"
  }

  function MeanIat(r: Record): real {
    if r.packetCount > 1 then (r.totalIatUsec as real) / ((r.packetCount - 1) as real) else 0.0
  }

  /** What one record becomes. */
  function MessageOf(r: Record): Message {
    Message(r.key.srcIp, r.key.srcPort, r.key.dstIp, r.key.dstPort, ProtocolName(r.key), DirToStr(r.direction),
            r.packetCount, r.byteCount, r.minPacketSize, r.maxPacketSize, MeanIat(r),
            r.synCount, r.ackCount, r.finCount, r.rstCount)
  }

  function MessagesOf(rs: seq<Record>): (ms: seq<Message>)
    ensures |ms| == |rs|
  {
    seq(|rs|, i requires 0 <= i < |rs| => MessageOf(rs[i]))
  }

  /** The exported mean inter-arrival time of a flow of two packets or more is the span between its first and
      last packet over the number of gaps. */
  lemma MeanIatIsSpan(key: FlowKey, direction: Direction, ps: seq<Packet>)
    requires 1 < |ps| < 0x1_0000_0000 && Payloads16(ps)
    ensures var first, last := ps[0].timestamp, ps[|ps| - 1].timestamp;
            var span := (last.sec - first.sec) * 1000000 + (last.usec - first.usec);
            MeanIat(Fold(key, direction, ps)) == (span as real) / ((|ps| - 1) as real)
  {
    RecordSpan(key, direction, ps);
  }

  /** Of a flow of one packet it is zero. */
  lemma MeanIatOfOne(key: FlowKey, direction: Direction, p: Packet)
    ensures MeanIat(Fold(key, direction, [p])) == 0.0
  {
    assert [p][..0] == [];
  }

  /** The formatting of one live node. */
  method Format(current: Flow) returns (msg: Message)
    requires !current.freed
    ensures msg == MessageOf(RecordOf(current))
  {
    var meanIat: real := 0.0;
    if current.packetCount > 1 {
      meanIat := (current.totalIatUsec as real) / ((current.packetCount - 1) as real);
    }
    var protoStr := "OTHER";
    if IsTcp(current.key) {
      protoStr := "TCP";
    } else if IsUdp(current.key) {
      protoStr := "UDP";
    }
    msg := Message(current.key.srcIp, current.key.srcPort, current.key.dstIp, current.key.dstPort, protoStr,
                   DirToStr(current.direction), current.packetCount, current.byteCount,
                   current.minPacketSize, current.maxPacketSize, meanIat,
                   current.synCount, current.ackCount, current.finCount, current.rstCount);
  }

  /** free. A node is freed once. */
  method Free(flow: Flow)
    requires !flow.freed
    modifies flow`freed
    ensures flow.freed
  {
    flow.freed := true;
  }

  /** A read of `next` in HASH_ITER, through a pointer that is NULL or live. */
  method NextOf(flow: Flow?) returns (next: Flow?)
    requires flow != null ==> !flow.freed
    ensures next == if flow == null then null else flow.next
  {
    next := if flow == null then null else flow.next;
  }

  lemma TailFacts(h: Hash, head: Flow, t: Table, rs: seq<Record>)
    requires IsFlowTable(h, head, t, rs)
    ensures var s := Order(t.model);
            && s != [] && s[0] == head && !head.freed && head !in s[1..] && |rs| == |s|
            && Laws.UniqueKeys(s[1..]) && Shows(s[1..], rs[1..])
            && rs[0] == RecordOf(head) && Remove(s, head) == s[1..]
            && head.next == (if |s| == 1 then null else s[1])
  {
    Laws.UniqueDistinct(Order(t.model));
  }

  /** HASH_DEL, said of the list alone. */
  method DeleteHead(h: Hash, head: Flow, ghost t: Table, ghost rest: seq<Flow>, ghost rs: seq<Record>)
    returns (head': Flow?, ghost t': Table?)
    requires IsTable(h, head, t) && head in Order(t.model) && rest == Remove(Order(t.model), head) && Shows(rest, rs)
    modifies t, t.buckets, ItemsOf(t)`next, ItemsOf(t)`prev, ItemsOf(t)`hhNext, ItemsOf(t)`hhPrev
    ensures IsTable(h, head', t') && Order(ModelOf(t')) == rest && Shows(rest, rs)
    ensures if t' == null then t.freed else t' == t && t.buckets == old(t.buckets)
  {
    Laws.DeleteWellFormed(h, t.model, head);
    head', t' := HashDelete(h, head, head, t);
  }

  /** free, of a node that is in no table any more. */
  method FreeOutside(h: Hash, flow: Flow, ghost head: Flow?, ghost t: Table?, ghost rs: seq<Record>)
    requires IsFlowTable(h, head, t, rs) && flow !in ItemsOf(t) && !flow.freed
    modifies flow`freed
    ensures IsFlowTable(h, head, t, rs) && flow.freed
  {
    Free(flow);
  }

  /** The end of an export loop's body: HASH_DEL and free. */
  method DropHead(h: Hash, head: Flow, ghost t: Table, ghost rs: seq<Record>) returns (head': Flow?, ghost t': Table?)
    requires IsFlowTable(h, head, t, rs)
    modifies t, t.buckets, ItemsOf(t)`next, ItemsOf(t)`prev, ItemsOf(t)`hhNext, ItemsOf(t)`hhPrev, head`freed
    ensures |rs| > 0 && IsFlowTable(h, head', t', rs[1..]) && head.freed
    ensures old(Order(t.model)) != [] && Order(ModelOf(t')) == old(Order(t.model))[1..]
    ensures if t' == null then t.freed else t' == t && t.buckets == old(t.buckets)
    ensures head' == old(head.next)
  {
    TailFacts(h, head, t, rs);
    head', t' := DeleteHead(h, head, t, Order(t.model)[1..], rs[1..]);
    FreeOutside(h, head, head', t', rs[1..]);
  }

  lemma HeadFacts(h: Hash, head: Flow, t: Table, rs: seq<Record>)
    requires IsFlowTable(h, head, t, rs)
    ensures |rs| > 0 && rs[0] == RecordOf(head) && !head.freed && Order(t.model) != []
  {
  }

  /** The two iterators of HASH_ITER: the first item of what is left, and the one after it. */
  ghost predicate AtFirst(head: Flow?, current: Flow?, tmp: Flow?)
    reads if head == null then {} else {head}
  {
    current == head && tmp == if head == null then null else head.next
  }

  /** The advance of HASH_ITER after its current item was dropped: it reads live nodes only. */
  method Advance(h: Hash, tmp: Flow?, ghost head: Flow?, ghost t: Table?, ghost rs: seq<Record>)
    returns (current': Flow?, tmp': Flow?)
    requires IsFlowTable(h, head, t, rs) && tmp == head
    ensures AtFirst(head, current', tmp') && IsFlowTable(h, head, t, rs)
  {
    if t != null {
      HeadFacts(h, head, t, rs);
    }
    current' := tmp;
    tmp' := NextOf(tmp);
  }

  /** The body of the export loop. */
  method ExportHead(h: Hash, current: Flow, ghost t: Table, ghost rs: seq<Record>)
    returns (tablePtr': Flow?, msg: Message, ghost t': Table?)
    requires IsFlowTable(h, current, t, rs)
    modifies t, t.buckets, ItemsOf(t)`next, ItemsOf(t)`prev, ItemsOf(t)`hhNext, ItemsOf(t)`hhPrev, current`freed
    ensures |rs| > 0 && IsFlowTable(h, tablePtr', t', rs[1..]) && tablePtr' == old(current.next)
    ensures msg == MessageOf(rs[0]) && current.freed
    ensures old(Order(t.model)) != [] && Order(ModelOf(t')) == old(Order(t.model))[1..]
    ensures if t' == null then t.freed else t' == t && t.buckets == old(t.buckets)
  {
    HeadFacts(h, current, t, rs);
    msg := Format(current);
    tablePtr', t' := DropHead(h, current, t, rs);
  }

  /** One turn of the export loop, up to the next test of its condition. */
  method ExportOne(h: Hash, tablePtr: Flow?, current: Flow, tmp: Flow?, ghost t: Table, ghost rs: seq<Record>)
    returns (tablePtr': Flow?, current': Flow?, tmp': Flow?, msg: Message, ghost t': Table?)
    requires IsFlowTable(h, tablePtr, t, rs) && AtFirst(tablePtr, current, tmp)
    modifies t, t.buckets, ItemsOf(t)`next, ItemsOf(t)`prev, ItemsOf(t)`hhNext, ItemsOf(t)`hhPrev, current`freed
    ensures |rs| > 0 && IsFlowTable(h, tablePtr', t', rs[1..]) && AtFirst(tablePtr', current', tmp')
    ensures msg == MessageOf(rs[0]) && current.freed
    ensures old(Order(t.model)) != [] && Order(ModelOf(t')) == old(Order(t.model))[1..]
    ensures if t' == null then t.freed else t' == t && t.buckets == old(t.buckets)
  {
    hide IsFlowTable, MessageOf, RecordOf;
    tablePtr', msg, t' := ExportHead(h, current, t, rs);
    current', tmp' := Advance(h, tmp, tablePtr', t', rs[1..]);
  }

  ghost predicate AllFreed(s: seq<Flow>)
    reads s`freed
  {
    forall i :: 0 <= i < |s| ==> s[i].freed
  }

  lemma MoreMessages(done: seq<Record>, r: Record)
    ensures MessagesOf(done + [r]) == MessagesOf(done) + [MessageOf(r)]
  {
  }

  lemma ShiftOne<T>(a: seq<T>, b: seq<T>)
    requires b != []
    ensures (a + [b[0]]) + b[1..] == a + b
  {
  }

  /** In the export loop: what was handed over is freed, what is left is a valid table. */
  ghost predicate Sending(h: Hash, head: Flow?, t: Table?, gone: seq<Flow>, left: seq<Flow>, toDo: seq<Record>)
    reads t, BucketsOf(t), ItemsOf(t), gone`freed
  {
    IsFlowTable(h, head, t, toDo) && left == Order(ModelOf(t)) && AllFreed(gone)
  }

  lemma SendingFacts(h: Hash, head: Flow?, t: Table?, gone: seq<Flow>, left: seq<Flow>, toDo: seq<Record>)
    requires Sending(h, head, t, gone, left, toDo)
    ensures if head == null then t == null && left == [] && toDo == []
            else t != null && left != [] && head == left[0] && !head.freed
    ensures left == Order(ModelOf(t)) && AllFreed(gone)
  {
    if t != null {
      HeadFacts(h, head, t, toDo);
    }
  }

  /** One turn of the loop of kafka_client_send_flows. */
  method SendNext(h: Hash, tablePtr: Flow?, current: Flow, tmp: Flow?, ghost t: Table,
                  ghost gone: seq<Flow>, ghost left: seq<Flow>, ghost toDo: seq<Record>)
    returns (tablePtr': Flow?, current': Flow?, tmp': Flow?, msg: Message, ghost t': Table?)
    requires Sending(h, tablePtr, t, gone, left, toDo) && AtFirst(tablePtr, current, tmp)
    modifies t, t.buckets, ItemsOf(t)`next, ItemsOf(t)`prev, ItemsOf(t)`hhNext, ItemsOf(t)`hhPrev, current`freed
    ensures left != [] && toDo != [] && msg == MessageOf(toDo[0])
    ensures Sending(h, tablePtr', t', gone + [left[0]], left[1..], toDo[1..]) && AtFirst(tablePtr', current', tmp')
    ensures if t' == null then t.freed else t' == t && t.buckets == old(t.buckets)
  {
    HeadFacts(h, current, t, toDo);
    tablePtr', current', tmp', msg, t' := ExportOne(h, tablePtr, current, tmp, t, toDo);
  }

  /** kafka_client_send_flows: every record is handed to the producer once, in list order; every node is
      freed, and the table with the last; the caller's pointer ends NULL. */
  method SendFlows(h: Hash, tablePtr: Flow?, ghost t: Table?, ghost rs: seq<Record>)
    returns (tablePtr': Flow?, log: seq<Message>)
    requires IsFlowTable(h, tablePtr, t, rs)
    modifies t, BucketsOf(t), ItemsOf(t)`next, ItemsOf(t)`prev, ItemsOf(t)`hhNext, ItemsOf(t)`hhPrev, ItemsOf(t)`freed
    ensures tablePtr' == null && log == MessagesOf(rs)
    ensures AllFreed(old(Order(ModelOf(t)))) && (t != null ==> t.freed)
  {
    hide Valid, IsTable, Shows, IsFlowTable;
    log := [];
    tablePtr' := tablePtr;
    ghost var tbl, gone, left, done, toDo := t, [], Order(ModelOf(t)), [], rs;
    var current := tablePtr;
    assert Sending(h, tablePtr', tbl, gone, left, toDo);
    SendingFacts(h, tablePtr', tbl, gone, left, toDo);
    var tmp := NextOf(current);
    while current != null
      invariant Sending(h, tablePtr', tbl, gone, left, toDo) && AtFirst(tablePtr', current, tmp)
      invariant gone + left == old(Order(ModelOf(t))) && done + toDo == rs && log == MessagesOf(done)
      invariant if tbl == null then t != null ==> t.freed else tbl == t && BucketsOf(t) == old(BucketsOf(t))
      decreases |left|
    {
      SendingFacts(h, tablePtr', tbl, gone, left, toDo);
      assert forall n :: n in left ==> n in gone + left;
      var msg;
      tablePtr', current, tmp, msg, tbl := SendNext(h, tablePtr', current, tmp, tbl, gone, left, toDo);
      MoreMessages(done, toDo[0]);
      ShiftOne(gone, left);
      ShiftOne(done, toDo);
      log := log + [msg];
      gone, left := gone + [left[0]], left[1..];
      done, toDo := done + [toDo[0]], toDo[1..];
    }
    SendingFacts(h, tablePtr', tbl, gone, left, toDo);
  }
}
