/** The capture thread, the flush thread and main on pointers. Each method is one step of Pipeline, taken by
    the thread that owns it; between any two of them another thread may run. */
module Sniffer {
  import opened Options
  import opened FlowTypes
  import opened FlowRecord
  import opened GroupBy
  import opened UthashModel
  import opened Uthash
  import opened FlowEngine
  import opened KafkaClient
  import opened Pipeline
  import Parser

  /** Two tables share no node, no bucket array and no table structure. */
  ghost predicate Apart(t: Table?, u: Table?)
    reads TableSet(t)`model, TableSet(u)`model, TableSet(t)`buckets, TableSet(u)`buckets
  {
    Footprint(t) !! Footprint(u)
  }

  ghost predicate Within(t: Table?, repr: set<object>)
    reads repr
  {
    TableSet(t) <= repr && Footprint(t) <= repr
  }

  /** Ownership, for an active table and a table being exported, each given by its head, its structure and
      its records: both are valid and have nothing in common, the iterators of the export loop are at the
      head of what it has left, and the inactive slot, which the next swap overwrites, is NULL or refers to
      a node already freed or to the head of the table being exported. */
  ghost predicate Pair(h: Hash, head: Flow?, t: Table?, rs: seq<Record>, exporting: Flow?, u: Table?, us: seq<Record>,
                       current: Flow?, tmp: Flow?, slot: Flow?, repr: set<object>)
    reads repr
  {
    && Within(t, repr) && Within(u, repr) && HeadSet(slot) <= repr
    && IsFlowTable(h, head, t, rs) && IsFlowTable(h, exporting, u, us) && Apart(t, u)
    && (u != null ==> AtFirst(exporting, current, tmp))
    && (slot != null ==> slot.freed || slot == exporting)
  }

  /** A packet leaves a table it does not go to as it was. */
  method ProcessBeside(h: Hash, net: Network, head: Flow?, stats: Packet, ghost t: Table?, ghost rs: seq<Record>,
                       ghost other: Flow?, ghost u: Table?, ghost us: seq<Record>)
    returns (head': Flow, ghost t': Table)
    requires IsFlowTable(h, head, t, rs) && IsFlowTable(h, other, u, us) && Apart(t, u)
    modifies Footprint(t)
    ensures IsFlowTable(h, head', t', Upsert(net, rs, stats)) && IsFlowTable(h, other, u, us) && Apart(t', u)
    ensures fresh(Footprint(t') - old(Footprint(t)))
  {
    hide IsFlowTable, Upsert;
    head', t' := Process(h, net, head, stats, t, rs);
  }

  /** A table that is there has a live head and at least one record. */
  lemma HeadOrNothing(h: Hash, head: Flow?, t: Table?, rs: seq<Record>)
    requires IsFlowTable(h, head, t, rs)
    ensures (head == null <==> t == null) && (head == null <==> rs == [])
    ensures head != null ==> !head.freed
  {
    if t != null {
      HeadFacts(h, head, t, rs);
    }
  }

  lemma HeadWithin(h: Hash, head: Flow?, t: Table?, rs: seq<Record>)
    requires IsFlowTable(h, head, t, rs)
    ensures head != null ==> head in Footprint(t)
    ensures t == null ==> head == null
  {
    if t != null {
      HeadFacts(h, head, t, rs);
    }
  }

  lemma FreedOutside(h: Hash, head: Flow?, t: Table?, rs: seq<Record>, f: Flow)
    requires IsFlowTable(h, head, t, rs) && f.freed
    ensures f !in Footprint(t)
  {
  }

  /** flow_process_packet beside a table that is being exported. */
  method ProcessInPair(h: Hash, net: Network, head: Flow?, stats: Packet, ghost t: Table?, ghost rs: seq<Record>,
                       ghost exporting: Flow?, ghost u: Table?, ghost us: seq<Record>,
                       ghost current: Flow?, ghost tmp: Flow?, ghost slot: Flow?, ghost repr: set<object>)
    returns (head': Flow, ghost t': Table, ghost repr': set<object>)
    requires Pair(h, head, t, rs, exporting, u, us, current, tmp, slot, repr)
    modifies Footprint(t)
    ensures Pair(h, head', t', Upsert(net, rs, stats), exporting, u, us, current, tmp, slot, repr')
    ensures Within(t', repr') && Within(u, repr')
    ensures fresh(repr' - repr)
  {
    hide IsFlowTable, Upsert;
    HeadWithin(h, exporting, u, us);
    if slot != null && slot.freed {
      FreedOutside(h, head, t, rs, slot);
    }
    head', t' := ProcessBeside(h, net, head, stats, t, rs, exporting, u, us);
    repr' := repr + Footprint(t');
  }

  /** A turn of the export loop touches nothing but the table it exports. */
  method ExportWithin(h: Hash, tablePtr: Flow?, current: Flow, tmp: Flow?, ghost t: Table, ghost rs: seq<Record>)
    returns (tablePtr': Flow?, current': Flow?, tmp': Flow?, msg: Message, ghost t': Table?)
    requires IsFlowTable(h, tablePtr, t, rs) && AtFirst(tablePtr, current, tmp)
    modifies Footprint(t)
    ensures |rs| > 0 && IsFlowTable(h, tablePtr', t', rs[1..]) && AtFirst(tablePtr', current', tmp')
    ensures msg == MessageOf(rs[0]) && current.freed && Footprint(t') <= old(Footprint(t))
  {
    HeadFacts(h, current, t, rs);
    tablePtr', current', tmp', msg, t' := ExportOne(h, tablePtr, current, tmp, t, rs);
  }

  /** A turn of the export loop beside the active table. */
  method ExportBeside(h: Hash, tablePtr: Flow?, current: Flow, tmp: Flow?, ghost t: Table, ghost rs: seq<Record>,
                      ghost other: Flow?, ghost u: Table?, ghost us: seq<Record>)
    returns (tablePtr': Flow?, current': Flow?, tmp': Flow?, msg: Message, ghost t': Table?)
    requires IsFlowTable(h, tablePtr, t, rs) && AtFirst(tablePtr, current, tmp)
    requires IsFlowTable(h, other, u, us) && Apart(u, t)
    modifies Footprint(t)
    ensures |rs| > 0 && IsFlowTable(h, tablePtr', t', rs[1..]) && AtFirst(tablePtr', current', tmp')
    ensures msg == MessageOf(rs[0]) && current.freed && Footprint(t') <= old(Footprint(t))
    ensures IsFlowTable(h, other, u, us) && Apart(u, t')
  {
    hide IsFlowTable;
    tablePtr', current', tmp', msg, t' := ExportWithin(h, tablePtr, current, tmp, t, rs);
  }

  /** A turn of the export loop keeps ownership. */
  method ExportInPair(h: Hash, tablePtr: Flow?, current: Flow?, tmp: Flow?, ghost t: Table?, ghost rs: seq<Record>,
                      ghost head: Flow?, ghost u: Table?, ghost us: seq<Record>, ghost slot: Flow?,
                      ghost repr: set<object>)
    returns (tablePtr': Flow?, current': Flow?, tmp': Flow?, msg: Message, ghost t': Table?)
    requires Pair(h, head, u, us, tablePtr, t, rs, current, tmp, slot, repr) && rs != []
    modifies Footprint(t)
    ensures Pair(h, head, u, us, tablePtr', t', rs[1..], current', tmp', slot, repr)
    ensures Within(t', repr) && Within(u, repr)
    ensures msg == MessageOf(rs[0])
    ensures current' == null <==> |rs| == 1
  {
    hide IsFlowTable, MessageOf;
    HeadOrNothing(h, tablePtr, t, rs);
    if slot != null && slot.freed {
      FreedOutside(h, tablePtr, t, rs, slot);
    }
    tablePtr', current', tmp', msg, t' := ExportBeside(h, tablePtr, current, tmp, t, rs, head, u, us);
    HeadOrNothing(h, tablePtr', t', rs[1..]);
  }

  lemma EmptyTable(h: Hash)
    ensures IsFlowTable(h, null, null, []) && Footprint(null) == {}
  {
  }

  lemma MoreBatches(batches: seq<seq<Record>>)
    ensures Concat(batches + [[]]) == Concat(batches)
  {
    assert (batches + [[]])[..|batches|] == batches;
  }

  lemma LastBatch(batches: seq<seq<Record>>, r: Record)
    requires batches != []
    ensures MessagesOf(Concat(AppendLast(batches, r))) == MessagesOf(Concat(batches)) + [MessageOf(r)]
  {
    var k := |batches| - 1;
    assert AppendLast(batches, r)[..k] == batches[..k];
    assert Concat(AppendLast(batches, r)) == Concat(batches) + [r];
    MoreMessages(Concat(batches), r);
  }

  /** What a swap does to a pair: the active table becomes the one to export, and the new active table is
      empty. The slot it overwrites refers to no node in use. */
  lemma SwapKeepsPair(h: Hash, head: Flow?, t: Table?, rs: seq<Record>, exporting: Flow?, u: Table?,
                      current: Flow?, tmp: Flow?, slot: Flow?, repr: set<object>)
    requires Pair(h, head, t, rs, exporting, u, [], current, tmp, slot, repr)
    ensures Pair(h, null, null, [], head, t, rs, head, if head == null then null else head.next, head, repr)
    ensures Within(null, repr) && (head == null <==> rs == [])
    ensures (head != null ==> !head.freed) && (slot != null ==> slot.freed)
  {
    hide IsFlowTable;
    HeadOrNothing(h, exporting, u, []);
    HeadOrNothing(h, head, t, rs);
    HeadWithin(h, head, t, rs);
    EmptyTable(h);
  }

  class Sniffer {
    const h: Hash
    const net: Network

    // struct sniffer_context
    var tables: seq<Flow?>
    var activeIdx: nat
    var isRunning: bool

    // main, and the locals of flush_worker and kafka_client_send_flows
    var capture: Capture
    var flush: Flush
    var tableToExport: Flow?
    var current: Flow?
    var tmp: Flow?

    /** What the producer was given. */
    var log: seq<Message>

    ghost var activeT: Table?
    ghost var drainT: Table?
    ghost var activeRs: seq<Record>
    ghost var drainRs: seq<Record>
    ghost var repr: set<object>
    ghost var state: State

    /** Pair, of the variables of the two threads. */
    ghost predicate Owned()
      reads this`tables, this`activeIdx, this`tableToExport, this`current, this`tmp,
            this`activeT, this`drainT, this`activeRs, this`drainRs,
            this`repr, repr
    {
      && |tables| == 2 && activeIdx < 2
      && this !in repr && Within(activeT, repr) && Within(drainT, repr)
      && Pair(h, tables[activeIdx], activeT, activeRs, tableToExport, drainT, drainRs, current, tmp,
              tables[1 - activeIdx], repr)
    }

    /** The threads' variables agree with a state of Pipeline. */
    ghost predicate Agrees()
      reads this`isRunning, this`capture, this`flush, this`log, this`activeRs, this`drainRs, this`state
    {
      && state.net == net && state.running == isRunning && state.flush == flush && state.capture == capture
      && state.active == activeRs && state.draining == drainRs
      && log == MessagesOf(Concat(state.batches))
      && (flush == Draining <==> drainRs != [])
    }

    ghost predicate Valid()
      reads this, repr
    {
      Owned() && Agrees()
    }

    /** The set-up in main. */
    constructor (h: Hash, net: Network)
      ensures Valid() && state == Initial(net) && this.h == h && this.net == net && log == [] && repr == {}
    {
      this.h, this.net := h, net;
      tables, activeIdx, isRunning := [null, null], 0, true;
      capture, flush := Setup, Testing;
      tableToExport, current, tmp, log := null, null, null, [];
      activeT, drainT, activeRs, drainRs, repr, state := null, null, [], [], {}, Initial(net);
    }

    // ----- the capture thread

    /** flow_process_packet, on the table of the active slot. */
    method FlowProcessPacket(p: Packet)
      requires Owned()
      modifies this`tables, this`activeT, this`activeRs, this`repr, Footprint(activeT)
      ensures Owned() && activeRs == Upsert(net, old(activeRs), p) && fresh(repr - old(repr))
    {
      hide Pair, Footprint, Upsert;
      var head;
      ghost var t, all;
      head, t, all := ProcessInPair(h, net, tables[activeIdx], p, activeT, activeRs, tableToExport, drainT, drainRs,
                                    current, tmp, tables[1 - activeIdx], repr);
      tables, activeT, activeRs, repr := tables[activeIdx := head], t, Upsert(net, activeRs, p), all;
    }

    /** The critical section of pkt_handler. */
    method PacketStep(p: Packet)
      requires Valid() && Enabled(state, Arrive(p))
      modifies this`tables, this`activeT, this`activeRs, this`repr, this`state, Footprint(activeT)
      ensures Valid() && state == Next(old(state), Arrive(p)) && fresh(repr - old(repr))
    {
      hide Pair, Footprint;
      FlowProcessPacket(p);
      state := Next(state, Arrive(p));
    }

    /** pkt_handler: a frame that holds a packet is a step, any other frame is none. */
    method PktHandler(bytes: seq<Parser.byte>, ts: Timeval)
      requires Valid() && state.capture == Capturing && Parser.TypesCaptured(bytes)
      modifies this`tables, this`activeT, this`activeRs, this`repr, this`state, Footprint(activeT)
      ensures Valid()
      ensures state == match Parser.Parse(bytes, ts)
                       case None => old(state)
                       case Some(p) => Next(old(state), Arrive(p))
    {
      hide Pair, Footprint;
      var stats := Parser.ReadFrame(bytes, ts);
      if stats.Some? {
        PacketStep(stats.value);
      }
    }

    /** pcap_loop starts, never starts, or returns. */
    method CaptureStep(step: Step)
      requires Valid() && Enabled(state, step) && (step == StartCapture || step == FailSetup || step == EndCapture)
      modifies this`capture, this`state
      ensures Valid() && state == Next(old(state), step)
    {
      hide Pair, Footprint;
      capture := if step == StartCapture then Capturing else Ended;
      state := Next(state, step);
    }

    /** main clears is_running after capture has ended. */
    method StopStep()
      requires Valid() && Enabled(state, Stop)
      modifies this`isRunning, this`state
      ensures Valid() && state == Next(old(state), Stop)
    {
      hide Pair, Footprint;
      isRunning := false;
      state := Next(state, Stop);
    }

    // ----- the flush thread

    /** The condition of the loop in flush_worker. */
    method TestStep()
      requires Valid() && Enabled(state, Test)
      modifies this`flush, this`state
      ensures Valid() && state == Next(old(state), Test)
    {
      hide Pair, Footprint;
      flush := if isRunning then Swapping else Exited;
      state := Next(state, Test);
    }

    /** The assignments of the critical section of flush_worker, and the first of the export loop. */
    method ExchangeTables(next: Flow?)
      requires |tables| == 2 && activeIdx < 2
      modifies this`tables, this`activeIdx, this`tableToExport, this`current, this`tmp,
               this`activeT, this`drainT, this`activeRs, this`drainRs
      ensures activeIdx == 1 - old(activeIdx) && tables == old(tables)[activeIdx := null]
      ensures tableToExport == current == old(tables[activeIdx]) && tmp == next
      ensures drainT == old(activeT) && drainRs == old(activeRs) && activeT == null && activeRs == []
    {
      tableToExport, current, tmp := tables[activeIdx], tables[activeIdx], next;
      activeIdx := 1 - activeIdx;
      tables := tables[activeIdx := null];
      drainT, activeT, drainRs, activeRs := activeT, null, activeRs, [];
    }

    /** The critical section of flush_worker. */
    method SwapTables()
      requires Owned() && drainRs == []
      modifies this`tables, this`activeIdx, this`tableToExport, this`current, this`tmp,
               this`activeT, this`drainT, this`activeRs, this`drainRs
      ensures Owned() && activeT == null && activeRs == [] && drainRs == old(activeRs)
      ensures tableToExport == null <==> drainRs == []
      ensures |old(tables)| == 2 && old(activeIdx) < 2 && |tables| == 2 && activeIdx == 1 - old(activeIdx)
      ensures tableToExport == old(tables[activeIdx]) && tables[activeIdx] == null
      ensures old(tables[1 - activeIdx]) != null ==> old(tables[1 - activeIdx]).freed
    {
      hide Pair, Footprint;
      SwapKeepsPair(h, tables[activeIdx], activeT, activeRs, tableToExport, drainT, current, tmp,
                    tables[1 - activeIdx], repr);
      var next := NextOf(tables[activeIdx]);
      ExchangeTables(next);
    }

    /** The critical section of flush_worker, and the test whether there is anything to export. What the
        swap overwrites refers to no node that is still in use. */
    method SwapStep()
      requires Valid() && Enabled(state, Swap)
      modifies this`tables, this`activeIdx, this`tableToExport, this`current, this`tmp, this`flush,
               this`activeT, this`drainT, this`activeRs, this`drainRs, this`state
      ensures Valid() && state == Next(old(state), Swap)
      ensures |old(tables)| == 2 && old(activeIdx) < 2
      ensures old(tables[1 - activeIdx]) != null ==> old(tables[1 - activeIdx]).freed
    {
      hide Pair, Footprint, Within, MessagesOf, Concat;
      SwapTables();
      flush := if tableToExport != null then Draining else Sleeping;
      MoreBatches(state.batches);
      state := Next(state, Swap);
    }

    /** What the flush thread keeps of a turn. */
    method Advance(head: Flow?, el: Flow?, next: Flow?, ghost t: Table?)
      requires drainRs != []
      modifies this`tableToExport, this`current, this`tmp, this`drainT, this`drainRs
      ensures tableToExport == head && current == el && tmp == next && drainT == t && drainRs == old(drainRs)[1..]
    {
      tableToExport, current, tmp, drainT, drainRs := head, el, next, t, drainRs[1..];
    }

    /** One turn of the export loop, with no mutex held. */
    method ExportNext() returns (msg: Message)
      requires Owned() && drainRs != []
      modifies this`tableToExport, this`current, this`tmp, this`drainT, this`drainRs, Footprint(drainT)
      ensures Owned() && drainRs == old(drainRs)[1..] && msg == MessageOf(old(drainRs)[0])
      ensures current == null <==> drainRs == []
    {
      hide Pair, Footprint;
      var head, el, next;
      ghost var t;
      head, el, next, msg, t := ExportInPair(h, tableToExport, current, tmp, drainT, drainRs,
                                             tables[activeIdx], activeT, activeRs, tables[1 - activeIdx], repr);
      Advance(head, el, next, t);
    }

    /** The test that ends the export loop, with the step that the turn was. */
    method EndTurn(msg: Message)
      requires state.net == net && state.running == isRunning && state.flush == flush && state.capture == capture
      requires state.active == activeRs && log == MessagesOf(Concat(state.batches))
      requires Enabled(state, Export) && drainRs == state.draining[1..] && msg == MessageOf(state.draining[0])
      requires current == null <==> drainRs == []
      modifies this`flush, this`log, this`state
      ensures Agrees() && state == Next(old(state), Export) && log == old(log) + [msg]
    {
      hide MessagesOf, Concat, AppendLast, MessageOf;
      LastBatch(state.batches, state.draining[0]);
      log := log + [msg];
      if current == null {
        flush := Sleeping;
      }
      state := Next(state, Export);
    }

    /** One turn of the export loop and the test that ends it. */
    method ExportStep()
      requires Valid() && Enabled(state, Export)
      modifies this`tableToExport, this`current, this`tmp, this`flush, this`log, this`drainT, this`drainRs, this`state
      modifies Footprint(drainT)
      ensures Valid() && state == Next(old(state), Export)
      ensures log == old(log) + [MessageOf(old(state.draining[0]))]
    {
      hide Pair, Footprint, MessagesOf, Concat, MessageOf, Next;
      var msg := ExportNext();
      EndTurn(msg);
    }

    /** clock_nanosleep returns. */
    method WakeStep()
      requires Valid() && Enabled(state, Wake)
      modifies this`flush, this`state
      ensures Valid() && state == Next(old(state), Wake)
    {
      hide Pair, Footprint;
      flush := Testing;
      state := Next(state, Wake);
    }

    // ----- any interleaving

    /** Whatever step comes next, the thread that owns it takes it. */
    method TakeStep(step: Step)
      requires Valid() && Enabled(state, step)
      modifies this, repr
      ensures Valid() && state == Next(old(state), step) && fresh(repr - old(repr))
    {
      hide Pair, Footprint, Agrees, Next;
      match step {
        case Arrive(p) => PacketStep(p);
        case Stop => StopStep();
        case Test => TestStep();
        case Swap => SwapStep();
        case Export => ExportStep();
        case Wake => WakeStep();
        case _ => CaptureStep(step);
      }
    }

    /** Every run of Pipeline is carried out on pointers, through every interleaving of the threads: the
        final heap agrees with the final state, and what was handed to the producer is what the batches of
        that state say. */
    method Interleave(steps: seq<Step>, ghost states: seq<State>)
      requires Valid() && state == Initial(net) && IsRun(net, steps, states)
      modifies this, repr
      ensures Valid() && state == states[|steps|]
      ensures log == MessagesOf(Concat(states[|steps|].batches))
    {
      hide Owned, Next;
      for i := 0 to |steps|
        invariant Valid() && state == states[i] && fresh(repr - old(repr))
      {
        TakeStep(steps[i]);
      }
    }
  }
}
