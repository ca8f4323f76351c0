/** From the frames of a run to the figures of an aggregate: the sniffer's log, read message by message and
    added up by the consumer, against the packets the sniffer accepted. */
module EndToEnd {
  import opened Options
  import opened FlowTypes
  import opened FlowRecord
  import opened GroupBy
  import opened Conservation
  import opened Pipeline
  import opened KafkaClient
  import opened FlowDomain
  import opened Aggregation
  import opened TwoStage
  import Capture = Sniffer

  /** The flows in a log; messages that cannot be read are filtered out. */
  function ReadAll(log: seq<Message>): seq<Report> {
    if log == [] then []
    else
      var before := ReadAll(log[..|log| - 1]);
      match ReadMessage(log[|log| - 1])
      case None => before
      case Some(r) => before + [r]
  }

  /** The aggregation of one window of messages: readJson, filter, addFlow. */
  method Consume(log: seq<Message>) returns (aggregate: AggregatedFlow)
    ensures fresh(aggregate) && aggregate.Valid() && aggregate.flows == ReadAll(log)
  {
    aggregate := new AggregatedFlow();
    for i := 0 to |log|
      invariant aggregate.Valid() && aggregate.flows == ReadAll(log[..i])
    {
      assert log[..i + 1][..i] == log[..i];
      var flow := ReadJson(log[i]);
      if flow != null {
        aggregate.AddFlow(flow);
      }
    }
    assert log[..|log|] == log;
  }

  /** Every record of a TCP or UDP flow is read back from its message. */
  lemma {:induction false} ReadBack(net: Network, rs: seq<Record>)
    requires Directed(net, rs)
    ensures ReadAll(MessagesOf(rs)) == ReportsOf(rs)
  {
    hide ReadMessage, MessageOf, ReportOf;
    if rs != [] {
      var k := |rs| - 1;
      ReadBack(net, rs[..k]);
      assert MessagesOf(rs)[..k] == MessagesOf(rs[..k]);
      MessageTrip(rs[k]);
      assert ReportsOf(rs) == ReportsOf(rs[..k]) + [ReportOf(rs[k])];
    }
  }

  lemma {:induction false} ReadConcat(a: seq<Message>, b: seq<Message>)
    ensures ReadAll(a + b) == ReadAll(a) + ReadAll(b)
  {
    hide ReadMessage;
    if b == [] {
      assert a + b == a;
    } else {
      var k := |b| - 1;
      assert (a + b)[..|a + b| - 1] == a + b[..k];
      ReadConcat(a, b[..k]);
    }
  }

  /** The totals of one aggregate for each part of a log. */
  function PartTotals(parts: seq<seq<Message>>, dirs: set<Direction>): (ts: seq<Totals>)
    ensures |ts| == |parts|
  {
    seq(|parts|, i requires 0 <= i < |parts| => TotalsOf(dirs, ReadAll(parts[i])))
  }

  lemma NothingRead(dirs: set<Direction>)
    ensures TotalsOf(dirs, ReadAll([])) == ZERO
  {
  }

  /** However the consumer's own windows split the log between aggregates, their totals add up to those of the
      whole log. */
  lemma {:induction false} AnySplitAddsUp(parts: seq<seq<Message>>, dirs: set<Direction>)
    ensures SumTotals(PartTotals(parts, dirs)) == TotalsOf(dirs, ReadAll(Concat(parts)))
  {
    hide TotalsOf, ReadAll, ZERO;
    if parts == [] {
      NothingRead(dirs);
    } else {
      var k := |parts| - 1;
      AnySplitAddsUp(parts[..k], dirs);
      assert PartTotals(parts, dirs)[..k] == PartTotals(parts[..k], dirs);
      ReadConcat(Concat(parts[..k]), parts[k]);
      TotalsConcat(dirs, ReadAll(Concat(parts[..k])), ReadAll(parts[k]));
    }
  }

  /** Within each window no flow of these directions reaches 2^31 in this counter. */
  ghost predicate InRange(net: Network, dirs: set<Direction>, windows: seq<seq<Packet>>, c: Counter) {
    AllCountersFit(InDirections(net, dirs), windows, c)
  }

  /** One figure of an aggregate against the packets of some windows: the same modulo 2^32, never more, and
      exact if and only if that counter is in range. */
  ghost predicate FigureOf(value: int, net: Network, dirs: set<Direction>, windows: seq<seq<Packet>>, c: Counter) {
    Figure(value, TrueCount(InDirections(net, dirs), Concat(windows), c), InRange(net, dirs, windows, c))
  }

  /** An aggregate says of the packets of some windows what is true of them. */
  ghost predicate Accounts(sum: Summary, net: Network, windows: seq<seq<Packet>>) {
    var keys := KeysOfPackets(Concat(windows));
    && FigureOf(sum.bytesInbound, net, {Inbound}, windows, ByteCount)
    && FigureOf(sum.packetsInbound, net, {Inbound}, windows, PacketCount)
    && FigureOf(sum.bytesOutbound, net, {Outbound}, windows, ByteCount)
    && FigureOf(sum.packetsOutbound, net, {Outbound}, windows, PacketCount)
    && FigureOf(sum.syn, net, ALL_DIRECTIONS, windows, SynCount)
    && FigureOf(sum.ack, net, ALL_DIRECTIONS, windows, AckCount)
    && FigureOf(sum.fin, net, ALL_DIRECTIONS, windows, FinCount)
    && FigureOf(sum.rst, net, ALL_DIRECTIONS, windows, RstCount)
    && sum.uniqueFlowCount <= |keys| && (sum.uniqueFlowCount == |keys| <==> Injective(KeyTexts(keys)))
  }

  lemma TotalAccounted(net: Network, windows: seq<seq<Packet>>, full: seq<seq<Record>>, dirs: set<Direction>,
                       c: Counter)
    requires Batches(net, windows, full)
    ensures Directed(net, Concat(full))
    ensures FigureOf(At(TotalsOf(dirs, ReportsOf(Concat(full))), c), net, dirs, windows, c)
  {
    hide Figure, TotalsOf, ReportsOf, InDirections, Batches, AllCountersFit, SumPacketsOf, TrueCount, At;
    TwoStagesAgree(net, windows, full, dirs, c);
    CountsAreTrue(InDirections(net, dirs), Concat(windows), c);
  }

  lemma BatchesAccounted(net: Network, windows: seq<seq<Packet>>, full: seq<seq<Record>>)
    requires Batches(net, windows, full)
    ensures Directed(net, Concat(full))
    ensures Accounts(SummaryOf(ReportsOf(Concat(full))), net, windows)
  {
    hide FigureOf, TotalsOf, ReportsOf, Batches, KeySet, KeyTexts, Injective;
    BatchesDirected(net, windows, full);
    TotalAccounted(net, windows, full, {Inbound}, ByteCount);
    TotalAccounted(net, windows, full, {Inbound}, PacketCount);
    TotalAccounted(net, windows, full, {Outbound}, ByteCount);
    TotalAccounted(net, windows, full, {Outbound}, PacketCount);
    TotalAccounted(net, windows, full, ALL_DIRECTIONS, SynCount);
    TotalAccounted(net, windows, full, ALL_DIRECTIONS, AckCount);
    TotalAccounted(net, windows, full, ALL_DIRECTIONS, FinCount);
    TotalAccounted(net, windows, full, ALL_DIRECTIONS, RstCount);
    UniqueFlowsSeen(net, windows, full);
  }

  /** In every state of every run fed by the parser: the flows read from the log, with those still to be
      exported, account for the packets accepted before the last swap. */
  lemma LogAccountsForPackets(net: Network, steps: seq<Step>, states: seq<State>, i: nat, log: seq<Message>)
    requires IsRun(net, steps, states) && i <= |steps| && log == MessagesOf(Concat(states[i].batches))
    requires forall j :: 0 <= j < |steps| && steps[j].Arrive? ==> IsKnown(steps[j].p.key)
    ensures var s := states[i];
            && Accepted(steps[..i]) == Concat(s.windows) + s.window
            && Directed(net, s.draining)
            && Accounts(SummaryOf(ReadAll(log) + ReportsOf(s.draining)), net, s.windows)
  {
    hide Accounts, SummaryOf, Batches, TotalsOf;
    var s := states[i];
    BatchesAreGroupBys(net, steps, states, i);
    var full := RunBatches(net, steps, states, i);
    BatchesAccounted(net, s.windows, full);
    ReportsConcat(net, {}, Concat(s.batches), s.draining);
    ReadBack(net, Concat(s.batches));
  }

  /** With no export under way, the log alone does. */
  lemma FinishedLogAccounts(net: Network, steps: seq<Step>, states: seq<State>, log: seq<Message>)
    requires IsRun(net, steps, states) && states[|steps|].flush != Draining
    requires log == MessagesOf(Concat(states[|steps|].batches))
    requires forall j :: 0 <= j < |steps| && steps[j].Arrive? ==> IsKnown(steps[j].p.key)
    ensures var s := states[|steps|];
            && Accepted(steps) == Concat(s.windows) + s.window
            && Accounts(SummaryOf(ReadAll(log)), net, s.windows)
  {
    hide Accounts, SummaryOf, ReadAll, MessagesOf;
    var s := states[|steps|];
    RunKeeps(net, steps, states, |steps|);
    LogAccountsForPackets(net, steps, states, |steps|, log);
    assert steps[..|steps|] == steps;
    assert ReadAll(log) + ReportsOf(s.draining) == ReadAll(log);
  }

  /** The sniffer, from its set-up to the last of the steps. */
  method RunSniffer(h: Hash, net: Network, steps: seq<Step>, ghost states: seq<State>) returns (log: seq<Message>)
    requires IsRun(net, steps, states)
    ensures log == MessagesOf(Concat(states[|steps|].batches))
  {
    hide MessagesOf, Next;
    var sniffer := new Capture.Sniffer(h, net);
    sniffer.Interleave(steps, states);
    log := sniffer.log;
  }

  /** The whole path: a run of the sniffer on pointers, its log consumed, and the fields of the aggregate in
      terms of the accepted packets. */
  method RunAndConsume(h: Hash, net: Network, steps: seq<Step>, ghost states: seq<State>)
    returns (aggregate: AggregatedFlow)
    requires IsRun(net, steps, states) && states[|steps|].flush != Draining
    requires forall j :: 0 <= j < |steps| && steps[j].Arrive? ==> IsKnown(steps[j].p.key)
    ensures var s := states[|steps|];
            && Accepted(steps) == Concat(s.windows) + s.window
            && Accounts(aggregate.Value(), net, s.windows)
  {
    hide IsRun, Accounts, SummaryOf, ReadAll, MessagesOf, Accepted;
    var log := RunSniffer(h, net, steps, states);
    aggregate := Consume(log);
    FinishedLogAccounts(net, steps, states, log);
  }
}
