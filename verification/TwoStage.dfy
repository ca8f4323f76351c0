/** The consumers' aggregate against the packets themselves: grouping packets into records, window by
    window, and adding up the records is the same as adding up the packets, wherever the windows end. */
module TwoStage {
  import opened Bits
  import opened FlowTypes
  import opened FlowRecord
  import opened GroupBy
  import opened Conservation
  import opened Pipeline
  import opened FlowDomain
  import opened Aggregation

  /** The flows of some directions. The direction is a function of the key alone. */
  ghost function InDirections(net: Network, dirs: set<Direction>): Class {
    iset key: FlowKey | DirectionOf(net, key) in dirs
  }

  ghost predicate Directed(net: Network, rs: seq<Record>) {
    forall i :: 0 <= i < |rs| ==> IsKnown(rs[i].key) && rs[i].direction == DirectionOf(net, rs[i].key)
  }

  function ReportsOf(rs: seq<Record>): (fs: seq<Report>)
    requires forall i :: 0 <= i < |rs| ==> IsKnown(rs[i].key)
    ensures |fs| == |rs|
  {
    seq(|rs|, i requires 0 <= i < |rs| => ReportOf(rs[i]))
  }

  // ----- one counter

  /** A figure against its true value: the same modulo 2^32, never more, and equal exactly when `exact`. */
  ghost predicate Figure(value: int, truth: int, exact: bool) {
    Wrap32(value) == Wrap32(truth) && value <= truth && (value == truth <==> exact)
  }

  lemma FigurePlus(v: int, t: int, e: bool, w: int, u: int, f: bool)
    requires Figure(v, t, e) && Figure(w, u, f)
    ensures Figure(v + w, t + u, e && f)
  {
    hide Wrap32;
    WrapInt(v, w);
    WrapInt(t, w);
    WrapInt(t, u);
  }

  /** A true count, kept in 32 bits and read into a Java int. */
  lemma JavaInt(x: nat)
    ensures Figure(Signed32(Wrap32(x)), x, x < 0x8000_0000)
    ensures -0x8000_0000 <= Signed32(Wrap32(x)) < 0x8000_0000
  {
  }

  lemma NothingCounted(keep: Class, dirs: set<Direction>, c: Counter)
    ensures Figure(At(TotalsOf(dirs, []), c), At(SumPacketsOf(keep, []), c), true)
  {
  }

  ghost predicate AllBelow(ts: seq<Totals>, c: Counter) {
    forall i :: 0 <= i < |ts| ==> At(ts[i], c) < 0x8000_0000
  }

  lemma {:induction false} ReportsFigure(dirs: set<Direction>, fs: seq<Report>, ts: seq<Totals>, c: Counter)
    requires |fs| == |ts|
    requires forall i :: 0 <= i < |fs| ==>
               Figure(At(Counted(dirs, fs[i]), c), At(ts[i], c), At(ts[i], c) < 0x8000_0000)
    ensures Figure(At(TotalsOf(dirs, fs), c), At(SumTotals(ts), c), AllBelow(ts, c))
  {
    hide Figure, Counted, At;
    if fs == [] {
      NothingCounted(iset{}, dirs, c);
    } else {
      var k := |fs| - 1;
      ReportsFigure(dirs, fs[..k], ts[..k], c);
      var front, last := TotalsOf(dirs, fs[..k]), Counted(dirs, fs[k]);
      FigurePlus(At(front, c), At(SumTotals(ts[..k]), c), AllBelow(ts[..k], c),
                 At(last, c), At(ts[k], c), At(ts[k], c) < 0x8000_0000);
      AtPlus(front, last, c);
      AtPlus(SumTotals(ts[..k]), ts[k], c);
      BelowSplit(ts, c);
    }
  }

  lemma BelowSplit(ts: seq<Totals>, c: Counter)
    requires ts != []
    ensures AllBelow(ts, c) <==> AllBelow(ts[..|ts| - 1], c) && At(ts[|ts| - 1], c) < 0x8000_0000
  {
    var k := |ts| - 1;
    assert forall i :: 0 <= i < k ==> ts[..k][i] == ts[i];
  }

  /** What the consumers receive of one flow of a window. */
  lemma FlowFigure(net: Network, dirs: set<Direction>, ps: seq<Packet>, key: FlowKey, c: Counter)
    requires IsKnown(key) && Payloads16(ps)
    ensures var r, t := RecordFor(net, ps, key), KeyTotal(InDirections(net, dirs), ps, key);
            r.key == key && Figure(At(Counted(dirs, ReportOf(r)), c), At(t, c), At(t, c) < 0x8000_0000)
  {
    hide Figure;
    var w := WithKey(ps, key);
    FoldCounts(key, DirectionOf(net, key), w);
    WithKeyPayloads(ps, key);
    TotalsNonNegative(w);
    JavaInt(0);
    JavaInt(At(SumPackets(w), c));
  }

  // ----- the records of windows

  /** The parser lets TCP and UDP packets through only. */
  ghost predicate KnownPackets(ps: seq<Packet>) {
    forall i :: 0 <= i < |ps| ==> IsKnown(ps[i].key) && 0 <= ps[i].payloadSize < 0x1_0000
  }

  ghost predicate Batches(net: Network, windows: seq<seq<Packet>>, batches: seq<seq<Record>>) {
    && |windows| == |batches|
    && forall k :: 0 <= k < |windows| ==> batches[k] == Grouped(net, windows[k]) && KnownPackets(windows[k])
  }

  lemma GroupedDirected(net: Network, ps: seq<Packet>)
    requires KnownPackets(ps)
    ensures Directed(net, Grouped(net, ps))
  {
    var ks := FirstKeys(ps);
    forall i | 0 <= i < |ks|
      ensures IsKnown(ks[i])
    {
      assert ks[i] in ks;
      FirstKeysIn(ps, ks[i]);
    }
    forall i | 0 <= i < |ks|
      ensures Grouped(net, ps)[i].key == ks[i] && Grouped(net, ps)[i].direction == DirectionOf(net, ks[i])
    {
      FoldCounts(ks[i], DirectionOf(net, ks[i]), WithKey(ps, ks[i]));
    }
  }

  lemma {:induction false} BatchesDirected(net: Network, windows: seq<seq<Packet>>, batches: seq<seq<Record>>)
    requires Batches(net, windows, batches)
    ensures Directed(net, Concat(batches))
  {
    if batches != [] {
      var k := |batches| - 1;
      BatchesDirected(net, windows[..k], batches[..k]);
      GroupedDirected(net, windows[k]);
    }
  }

  /** The packets of every flow of the class, within one window, stay below 2^31 in one counter. */
  ghost predicate CounterFits(keep: Class, ps: seq<Packet>, c: Counter) {
    forall key :: key in FirstKeys(ps) && key in keep ==> At(SumPackets(WithKey(ps, key)), c) < 0x8000_0000
  }

  ghost predicate AllCountersFit(keep: Class, windows: seq<seq<Packet>>, c: Counter) {
    forall k :: 0 <= k < |windows| ==> CounterFits(keep, windows[k], c)
  }

  lemma CounterFitsMeans(keep: Class, ps: seq<Packet>, ts: seq<Totals>, c: Counter)
    requires ts == KeyTotals(keep, ps, FirstKeys(ps))
    ensures CounterFits(keep, ps, c) <==> AllBelow(ts, c)
  {
    var ks := FirstKeys(ps);
    if CounterFits(keep, ps, c) {
      forall i | 0 <= i < |ts|
        ensures At(ts[i], c) < 0x8000_0000
      {
        assert ks[i] in ks;
      }
    }
    if AllBelow(ts, c) {
      forall key | key in ks && key in keep
        ensures At(SumPackets(WithKey(ps, key)), c) < 0x8000_0000
      {
        var i :| 0 <= i < |ks| && ks[i] == key;
        assert At(ts[i], c) < 0x8000_0000;
      }
    }
  }

  lemma WindowFigure(net: Network, dirs: set<Direction>, ps: seq<Packet>, c: Counter)
    requires KnownPackets(ps)
    ensures Directed(net, Grouped(net, ps))
    ensures var keep := InDirections(net, dirs);
            Figure(At(TotalsOf(dirs, ReportsOf(Grouped(net, ps))), c), At(SumPacketsOf(keep, ps), c),
                   CounterFits(keep, ps, c))
  {
    hide Figure, InDirections, CounterFits, AllBelow, SumPacketsOf, TotalsOf, At, Counted;
    var keep, ks := InDirections(net, dirs), FirstKeys(ps);
    var ts := KeyTotals(keep, ps, ks);
    GroupedDirected(net, ps);
    var fs := ReportsOf(Grouped(net, ps));
    forall i | 0 <= i < |ks|
      ensures Figure(At(Counted(dirs, fs[i]), c), At(ts[i], c), At(ts[i], c) < 0x8000_0000)
    {
      FoldKey(net, ps, ks[i]);
      assert Grouped(net, ps)[i].key == ks[i];
      FlowFigure(net, dirs, ps, ks[i], c);
    }
    ReportsFigure(dirs, fs, ts, c);
    KeysShare(keep, ps);
    CounterFitsMeans(keep, ps, ts, c);
  }

  /** Two-stage aggregation: each total of the flows of any directions, added up from the records of any
      windows, is that of the packets of these flows: modulo 2^32 always, never more, and exactly if and only
      if within each window no flow of these directions reaches 2^31 in that counter. */
  lemma {:induction false} TwoStagesAgree(net: Network, windows: seq<seq<Packet>>, batches: seq<seq<Record>>,
                                          dirs: set<Direction>, c: Counter)
    requires Batches(net, windows, batches)
    ensures Directed(net, Concat(batches))
    ensures var aggregate, keep := TotalsOf(dirs, ReportsOf(Concat(batches))), InDirections(net, dirs);
            Figure(At(aggregate, c), At(SumPacketsOf(keep, Concat(windows)), c), AllCountersFit(keep, windows, c))
  {
    hide Figure, InDirections, CounterFits, SumPacketsOf, TotalsOf, Grouped, KnownPackets, At;
    BatchesDirected(net, windows, batches);
    if windows == [] {
      NothingCounted(InDirections(net, dirs), dirs, c);
    } else {
      var k, keep := |windows| - 1, InDirections(net, dirs);
      TwoStagesAgree(net, windows[..k], batches[..k], dirs, c);
      WindowFigure(net, dirs, windows[k], c);
      ReportsConcat(net, dirs, Concat(batches[..k]), batches[k]);
      SumPacketsConcat(keep, Concat(windows[..k]), windows[k]);
      var before, last := TotalsOf(dirs, ReportsOf(Concat(batches[..k]))), TotalsOf(dirs, ReportsOf(batches[k]));
      var ps, qs := SumPacketsOf(keep, Concat(windows[..k])), SumPacketsOf(keep, windows[k]);
      AtPlus(before, last, c);
      AtPlus(ps, qs, c);
      FigurePlus(At(before, c), At(ps, c), AllCountersFit(keep, windows[..k], c),
                 At(last, c), At(qs, c), CounterFits(keep, windows[k], c));
      FitSplit(keep, windows, c);
    }
  }

  lemma FitSplit(keep: Class, windows: seq<seq<Packet>>, c: Counter)
    requires windows != []
    ensures AllCountersFit(keep, windows, c) <==>
            AllCountersFit(keep, windows[..|windows| - 1], c) && CounterFits(keep, windows[|windows| - 1], c)
  {
    var k := |windows| - 1;
    assert forall i :: 0 <= i < k ==> windows[..k][i] == windows[i];
  }

  // ----- in every run

  lemma {:induction false} AcceptedKnown(steps: seq<Step>)
    requires forall i :: 0 <= i < |steps| && steps[i].Arrive? ==> IsKnown(steps[i].p.key)
    ensures forall p :: p in Accepted(steps) ==> IsKnown(p.key)
  {
    if steps != [] {
      AcceptedKnown(steps[..|steps| - 1]);
    }
  }

  lemma {:induction false} ConcatHas<T>(ss: seq<seq<T>>, k: nat, x: T)
    requires k < |ss| && x in ss[k]
    ensures x in Concat(ss)
  {
    if k < |ss| - 1 {
      ConcatHas(ss[..|ss| - 1], k, x);
    }
  }

  /** The windows of a run, the last one counted out in full even while it is being exported. */
  lemma RunBatches(net: Network, steps: seq<Step>, states: seq<State>, i: nat) returns (full: seq<seq<Record>>)
    requires IsRun(net, steps, states) && i <= |steps|
    requires forall j :: 0 <= j < |steps| && steps[j].Arrive? ==> IsKnown(steps[j].p.key)
    ensures var s := states[i];
            Batches(net, s.windows, full) && Concat(full) == Concat(s.batches) + s.draining
  {
    var s := states[i];
    RunKeeps(net, steps, states, i);
    BatchesAreGroupBys(net, steps, states, i);
    AcceptedKnown(steps[..i]);
    forall k, p | 0 <= k < |s.windows| && p in s.windows[k]
      ensures IsKnown(p.key)
    {
      ConcatHas(s.windows, k, p);
      assert p in Accepted(steps[..i]);
    }
    forall k | 0 <= k < |s.windows|
      ensures KnownPackets(s.windows[k])
    {
      assert Payloads16(s.windows[k]);
    }
    full := Completed(s.batches, s.draining);
  }

  /** The batches with the records still to be exported in their place. */
  function Completed(batches: seq<seq<Record>>, draining: seq<Record>): (full: seq<seq<Record>>)
    requires draining != [] ==> batches != []
    ensures |full| == |batches| && Concat(full) == Concat(batches) + draining
  {
    if draining == [] then batches
    else
      var k := |batches| - 1;
      var full := batches[k := batches[k] + draining];
      assert full[..k] == batches[..k];
      assert Concat(batches[..k]) + (batches[k] + draining) == Concat(batches) + draining;
      full
  }

  lemma {:induction false} TotalsConcat(dirs: set<Direction>, fs: seq<Report>, gs: seq<Report>)
    ensures TotalsOf(dirs, fs + gs) == TotalsOf(dirs, fs).Plus(TotalsOf(dirs, gs))
  {
    hide Counted;
    if gs == [] {
      assert fs + gs == fs;
      PlusAssoc(TotalsOf(dirs, fs), ZERO, ZERO);
    } else {
      var k := |gs| - 1;
      assert (fs + gs)[..|fs + gs| - 1] == fs + gs[..k];
      TotalsConcat(dirs, fs, gs[..k]);
      PlusAssoc(TotalsOf(dirs, fs), TotalsOf(dirs, gs[..k]), Counted(dirs, gs[k]));
    }
  }

  lemma ReportsConcat(net: Network, dirs: set<Direction>, rs: seq<Record>, qs: seq<Record>)
    requires Directed(net, rs + qs)
    ensures Directed(net, rs) && Directed(net, qs)
    ensures ReportsOf(rs + qs) == ReportsOf(rs) + ReportsOf(qs)
    ensures TotalsOf(dirs, ReportsOf(rs + qs)) == TotalsOf(dirs, ReportsOf(rs)).Plus(TotalsOf(dirs, ReportsOf(qs)))
  {
    hide ReportOf;
    assert forall j :: 0 <= j < |rs| ==> (rs + qs)[j] == rs[j];
    assert forall j :: 0 <= j < |qs| ==> (rs + qs)[|rs| + j] == qs[j];
    assert ReportsOf(rs + qs) == ReportsOf(rs) + ReportsOf(qs);
    TotalsConcat(dirs, ReportsOf(rs), ReportsOf(qs));
  }

  /** In every state of every run fed by the parser: what was exported and what is being exported adds up,
      counter by counter and direction by direction, to the packets accepted before the last swap. */
  lemma EveryRunAddsUp(net: Network, steps: seq<Step>, states: seq<State>, i: nat, dirs: set<Direction>, c: Counter)
    requires IsRun(net, steps, states) && i <= |steps|
    requires forall j :: 0 <= j < |steps| && steps[j].Arrive? ==> IsKnown(steps[j].p.key)
    ensures var s, keep := states[i], InDirections(net, dirs);
            && Accepted(steps[..i]) == Concat(s.windows) + s.window
            && Directed(net, Concat(s.batches)) && Directed(net, s.draining)
            && var exported := TotalsOf(dirs, ReportsOf(Concat(s.batches)));
               var aggregate := exported.Plus(TotalsOf(dirs, ReportsOf(s.draining)));
               Figure(At(aggregate, c), At(SumPacketsOf(keep, Concat(s.windows)), c),
                      AllCountersFit(keep, s.windows, c))
  {
    var s := states[i];
    hide Figure, TotalsOf, Directed, ReportsOf, Grouped, InDirections, At;
    BatchesAreGroupBys(net, steps, states, i);
    var full := RunBatches(net, steps, states, i);
    TwoStagesAgree(net, s.windows, full, dirs, c);
    ReportsConcat(net, dirs, Concat(s.batches), s.draining);
  }

  // ----- a window that outgrows a Java int

  lemma {:induction false} OneFlowWindow(ps: seq<Packet>, p: Packet)
    requires ps != [] && forall i :: 0 <= i < |ps| ==> ps[i] == p
    ensures FirstKeys(ps) == [p.key] && WithKey(ps, p.key) == ps
  {
    var k := |ps| - 1;
    assert ps == ps[..k] + [p];
    if k > 0 {
      OneFlowWindow(ps[..k], p);
    }
  }

  /** 32769 inbound packets of 65535 bytes: the sniffer's counters hold them, and so do the aggregate's, but
      for the bytes. */
  lemma JavaIntOverflows(net: Network, p: Packet, c: Counter)
    requires IsKnown(p.key) && DirectionOf(net, p.key) == Inbound && p.payloadSize == 0xFFFF
    ensures var window := seq(32769, _ => p);
            && Directed(net, Grouped(net, window)) && AllFit(InDirections(net, {Inbound}), [window])
            && var aggregate := At(TotalsOf({Inbound}, ReportsOf(Grouped(net, window))), c);
               var truth := At(SumPacketsOf(InDirections(net, {Inbound}), window), c);
               if c == ByteCount then aggregate < truth else aggregate == truth
  {
    hide ReportsOf, Grouped, Fits, Directed, TotalsOf, SumPackets, SumPacketsOf;
    var window, keep := seq(32769, _ => p), InDirections(net, {Inbound});
    SmallWindowFits(keep, window);
    WindowFigure(net, {Inbound}, window, c);
    OneFlowWindow(window, p);
    SumConstant(window, p);
    SumsBounded(window);
    FlagsBounded(window);
    assert CounterFits(keep, window, c) <==> At(SumPackets(window), c) < 0x8000_0000;
  }

  /** Such an input: a host of 192.168.0.0/16 receives them. */
  lemma JavaIntOverflowInput() returns (net: Network, p: Packet)
    ensures IsKnown(p.key) && DirectionOf(net, p.key) == Inbound && p.payloadSize == 0xFFFF
  {
    net := Network(0xC0A8_0000, 0xFFFF_0000);
    var key := FlowKey(0x0808_0808, 0xC0A8_0001, 443, 50000, IPPROTO_TCP);
    p := Packet(key, 0xFFFF, Timeval(0, 0), Flags(false, false, false, true));
    PowersOfTwo();
    LocalIsPrefix(net, p.key.srcIp, 16);
    LocalIsPrefix(net, p.key.dstIp, 16);
  }

  // ----- distinct flows

  function KeysOfPackets(ps: seq<Packet>): set<FlowKey> {
    set p | p in ps :: p.key
  }

  function KeysOfRecords(rs: seq<Record>): set<FlowKey> {
    set r | r in rs :: r.key
  }

  lemma GroupedKeys(net: Network, ps: seq<Packet>)
    ensures KeysOfRecords(Grouped(net, ps)) == KeysOfPackets(ps)
  {
    var rs, ks := Grouped(net, ps), FirstKeys(ps);
    forall i | 0 <= i < |ks|
      ensures rs[i].key == ks[i] && ks[i] in KeysOfPackets(ps)
    {
      FoldCounts(ks[i], DirectionOf(net, ks[i]), WithKey(ps, ks[i]));
      assert ks[i] in ks;
      FirstKeysIn(ps, ks[i]);
    }
    forall p | p in ps
      ensures p.key in KeysOfRecords(rs)
    {
      FirstKeysIn(ps, p.key);
      var i :| 0 <= i < |ks| && ks[i] == p.key;
      assert rs[i] in rs;
    }
  }

  lemma {:induction false} BatchesKeys(net: Network, windows: seq<seq<Packet>>, batches: seq<seq<Record>>)
    requires Batches(net, windows, batches)
    ensures KeysOfRecords(Concat(batches)) == KeysOfPackets(Concat(windows))
  {
    if batches != [] {
      var k := |batches| - 1;
      BatchesKeys(net, windows[..k], batches[..k]);
      GroupedKeys(net, windows[k]);
      assert KeysOfRecords(Concat(batches)) == KeysOfRecords(Concat(batches[..k])) + KeysOfRecords(batches[k]);
      assert KeysOfPackets(Concat(windows)) == KeysOfPackets(Concat(windows[..k])) + KeysOfPackets(windows[k]);
    }
  }

  function KeyTexts(keys: set<FlowKey>): map<FlowKey, string> {
    map key | key in keys :: KeyText(key)
  }

  lemma ReportText(r: Record)
    requires IsKnown(r.key)
    ensures TupleText(TupleOf(ReportOf(r))) == KeyText(r.key)
  {
  }

  /** unique_flow_count against the packets: at most the number of distinct 5-tuples seen, and equal to it
      exactly when no two of them read alike. */
  lemma UniqueFlowsSeen(net: Network, windows: seq<seq<Packet>>, batches: seq<seq<Record>>)
    requires Batches(net, windows, batches)
    ensures Directed(net, Concat(batches))
    ensures var counted := SummaryOf(ReportsOf(Concat(batches))).uniqueFlowCount;
            var keys := KeysOfPackets(Concat(windows));
            counted <= |keys| && (counted == |keys| <==> Injective(KeyTexts(keys)))
  {
    BatchesDirected(net, windows, batches);
    BatchesKeys(net, windows, batches);
    var rs := Concat(batches);
    var fs, m := ReportsOf(rs), KeyTexts(KeysOfRecords(rs));
    forall i | 0 <= i < |rs|
      ensures rs[i].key in m && m[rs[i].key] == TupleText(TupleOf(fs[i])) && fs[i] in fs
    {
      ReportText(rs[i]);
      assert rs[i] in rs;
    }
    TextsOfReports(rs, fs, m);
    assert m.Keys == KeysOfRecords(rs);
    ImageSize(m);
  }

  lemma TextsOfReports(rs: seq<Record>, fs: seq<Report>, m: map<FlowKey, string>)
    requires |rs| == |fs| && m.Keys == KeysOfRecords(rs)
    requires forall i :: 0 <= i < |rs| ==> rs[i].key in m && m[rs[i].key] == TupleText(TupleOf(fs[i])) && fs[i] in fs
    ensures KeySet(fs) == m.Values
  {
    hide TupleText, TupleOf;
    forall v | v in m.Values
      ensures v in KeySet(fs)
    {
      var key :| key in m && m[key] == v;
      var r :| r in rs && r.key == key;
      var i :| 0 <= i < |rs| && rs[i] == r;
      assert fs[i] in fs;
    }
    forall f | f in fs
      ensures TupleText(TupleOf(f)) in m.Values
    {
      var i :| 0 <= i < |fs| && fs[i] == f;
      assert m[rs[i].key] in m.Values;
    }
  }
}
