/** The capture thread, the flush thread and main as one step system on values. A step is a packet under the
    mutex, the swap under the mutex, one flow handed to the producer, or one test of is_running. The export
    loop holds no mutex, so the other threads may run inside one of its turns. Its turn is one step all the
    same: it touches the table being exported and its own variables only, the others touch neither (module
    Sniffer), and so what they do inside a turn can be taken to happen before or after it (ExportCommutes). */
module Pipeline {
  import opened FlowTypes
  import opened FlowRecord
  import opened GroupBy
  import opened Conservation

  /** pcap_loop has not started, is running, or has returned (or never will start). */
  datatype Capture = Setup | Capturing | Ended

  /** Where flush_worker is: at the test of is_running, before the swap, in the export loop, asleep, or
      returned. */
  datatype Flush = Testing | Swapping | Draining | Sleeping | Exited

  /** `window` holds the packets since the last swap, `windows` those of each earlier window, `batches` the
      records exported for each of these so far. */
  datatype State = State(net: Network, capture: Capture, running: bool, flush: Flush,
                         active: seq<Record>, draining: seq<Record>,
                         window: seq<Packet>, windows: seq<seq<Packet>>, batches: seq<seq<Record>>)

  datatype Step = StartCapture | FailSetup | Arrive(p: Packet) | EndCapture | Stop | Test | Swap | Export | Wake

  function Initial(net: Network): State {
    State(net, Setup, true, Testing, [], [], [], [], [])
  }

  predicate Enabled(s: State, step: Step) {
    match step
    case StartCapture => s.capture == Setup
    case FailSetup => s.capture == Setup
    case Arrive(p) => s.capture == Capturing && 0 <= p.payloadSize < 0x1_0000
    case EndCapture => s.capture == Capturing
    case Stop => s.capture == Ended && s.running
    case Test => s.flush == Testing
    case Swap => s.flush == Swapping
    case Export => s.flush == Draining && s.draining != [] && s.batches != []
    case Wake => s.flush == Sleeping
  }

  function AppendLast(batches: seq<seq<Record>>, r: Record): seq<seq<Record>>
    requires batches != []
  {
    batches[|batches| - 1 := batches[|batches| - 1] + [r]]
  }

  function Next(s: State, step: Step): State
    requires Enabled(s, step)
  {
    match step
    case StartCapture => s.(capture := Capturing)
    case FailSetup => s.(capture := Ended)
    case Arrive(p) => s.(active := Upsert(s.net, s.active, p), window := s.window + [p])
    case EndCapture => s.(capture := Ended)
    case Stop => s.(running := false)
    case Test => s.(flush := if s.running then Swapping else Exited)
    case Swap =>
      s.(flush := if s.active == [] then Sleeping else Draining,
         draining := s.active, active := [],
         windows := s.windows + [s.window], window := [], batches := s.batches + [[]])
    case Export =>
      s.(flush := if |s.draining| == 1 then Sleeping else Draining,
         draining := s.draining[1..], batches := AppendLast(s.batches, s.draining[0]))
    case Wake => s.(flush := Testing)
  }

  /** A step that the flush thread does not take. */
  predicate IsForeign(step: Step) {
    match step
    case StartCapture | FailSetup | Arrive(_) | EndCapture | Stop => true
    case Test | Swap | Export | Wake => false
  }

  /** An export turn and a step of another thread can be taken in either order: neither enables or prevents
      the other, and the outcome is the same. */
  lemma ExportCommutes(s: State, step: Step)
    requires Enabled(s, Export) && IsForeign(step)
    ensures Enabled(s, step) <==> Enabled(Next(s, Export), step)
    ensures Enabled(s, step) ==> Enabled(Next(s, step), Export)
    ensures Enabled(s, step) ==> Next(Next(s, Export), step) == Next(Next(s, step), Export)
  {
  }

  // ----- runs

  ghost predicate IsRun(net: Network, steps: seq<Step>, states: seq<State>) {
    && |states| == |steps| + 1
    && states[0] == Initial(net)
    && forall i :: 0 <= i < |steps| ==> Enabled(states[i], steps[i]) && states[i + 1] == Next(states[i], steps[i])
  }

  /** The packets a run accepted, in order. */
  function Accepted(steps: seq<Step>): seq<Packet> {
    if steps == [] then []
    else
      var last := steps[|steps| - 1];
      Accepted(steps[..|steps| - 1]) + if last.Arrive? then [last.p] else []
  }

  function Concat<T>(ss: seq<seq<T>>): seq<T> {
    if ss == [] then [] else Concat(ss[..|ss| - 1]) + ss[|ss| - 1]
  }

  /** The number of windows whose export is complete. */
  function Complete(s: State): nat {
    if s.flush == Draining && s.windows != [] then |s.windows| - 1 else |s.windows|
  }

  /** What every step keeps. */
  ghost predicate Inv(s: State) {
    && s.active == Upserts(s.net, s.window)
    && Payloads16(s.window) && (forall k :: 0 <= k < |s.windows| ==> Payloads16(s.windows[k]))
    && |s.batches| == |s.windows|
    && (s.flush == Draining <==> s.draining != [])
    && (s.flush == Draining ==> s.windows != [])
    && (forall k :: 0 <= k < Complete(s) ==> s.batches[k] == Upserts(s.net, s.windows[k]))
    && (s.flush == Draining ==>
          s.batches[Complete(s)] + s.draining == Upserts(s.net, s.windows[Complete(s)]))
    && (s.capture == Capturing || s.capture == Setup ==> s.running)
    && (s.flush == Exited ==> !s.running)
  }

  lemma SwapKeeps(s: State)
    requires Inv(s) && Enabled(s, Swap)
    ensures Inv(Next(s, Swap))
  {
    var r := Next(s, Swap);
    assert forall k :: 0 <= k < |s.windows| ==> r.windows[k] == s.windows[k];
    forall k | 0 <= k < Complete(r)
      ensures r.batches[k] == Upserts(r.net, r.windows[k])
    {
      if k < |s.windows| {
        assert r.windows[k] == s.windows[k] && r.batches[k] == s.batches[k];
      }
    }
  }

  lemma ExportKeeps(s: State)
    requires Inv(s) && Enabled(s, Export)
    ensures Inv(Next(s, Export))
  {
    var r, c := Next(s, Export), Complete(s);
    assert r.batches[c] == s.batches[c] + [s.draining[0]];
    assert s.draining == [s.draining[0]] + s.draining[1..];
    assert r.batches[c] + r.draining == s.batches[c] + s.draining;
    assert r.draining == [] ==> r.batches[c] + r.draining == r.batches[c];
  }

  lemma ArriveKeeps(s: State, p: Packet)
    requires Inv(s) && Enabled(s, Arrive(p))
    ensures Inv(Next(s, Arrive(p)))
  {
    assert (s.window + [p])[..|s.window|] == s.window;
  }

  lemma StepKeeps(s: State, step: Step)
    requires Inv(s) && Enabled(s, step)
    ensures Inv(Next(s, step)) && Next(s, step).net == s.net
  {
    match step {
      case Arrive(p) =>
        ArriveKeeps(s, p);
      case Swap =>
        SwapKeeps(s);
      case Export =>
        ExportKeeps(s);
      case _ =>
    }
  }

  lemma {:induction false} RunKeeps(net: Network, steps: seq<Step>, states: seq<State>, i: nat)
    requires IsRun(net, steps, states) && i <= |steps|
    ensures Inv(states[i]) && states[i].net == net
  {
    if i > 0 {
      RunKeeps(net, steps, states, i - 1);
      StepKeeps(states[i - 1], steps[i - 1]);
    }
  }

  /** The packets a state has seen. */
  function Seen(s: State): seq<Packet> {
    Concat(s.windows) + s.window
  }

  lemma SeenStep(s: State, step: Step)
    requires Enabled(s, step)
    ensures Seen(Next(s, step)) == Seen(s) + if step.Arrive? then [step.p] else []
  {
    if step.Swap? {
      assert (s.windows + [s.window])[..|s.windows|] == s.windows;
    }
  }

  lemma {:induction false} SeenIsAccepted(net: Network, steps: seq<Step>, states: seq<State>, i: nat)
    requires IsRun(net, steps, states) && i <= |steps|
    ensures Accepted(steps[..i]) == Seen(states[i])
  {
    if i > 0 {
      SeenIsAccepted(net, steps, states, i - 1);
      SeenStep(states[i - 1], steps[i - 1]);
      assert steps[..i][..i - 1] == steps[..i - 1];
    }
  }

  /** Every batch is the group-by of its window, in every state of every run; a batch being exported is the
      part of it already handed over; the active table is the group-by of the current window; and the
      windows, in order, are exactly the accepted packets. */
  lemma BatchesAreGroupBys(net: Network, steps: seq<Step>, states: seq<State>, i: nat)
    requires IsRun(net, steps, states) && i <= |steps|
    ensures var s := states[i];
            && |s.batches| == |s.windows|
            && (forall k :: 0 <= k < Complete(s) ==> s.batches[k] == Grouped(net, s.windows[k]))
            && (s.flush == Draining ==>
                  && |s.windows| > 0
                  && s.batches[|s.windows| - 1] + s.draining == Grouped(net, s.windows[|s.windows| - 1]))
            && s.active == Grouped(net, s.window)
            && Accepted(steps[..i]) == Concat(s.windows) + s.window
  {
    RunKeeps(net, steps, states, i);
    SeenIsAccepted(net, steps, states, i);
    var s := states[i];
    WindowIsGroupBy(net, s.window);
    forall k | 0 <= k < |s.windows|
      ensures Upserts(net, s.windows[k]) == Grouped(net, s.windows[k])
    {
      WindowIsGroupBy(net, s.windows[k]);
    }
  }

  // ----- conservation

  lemma WrappedSum(ra: Totals, rb: Totals, pa: Totals, pb: Totals)
    requires ra.Wrapped() == pa.Wrapped() && rb.Wrapped() == pb.Wrapped()
    ensures ra.Plus(rb).Wrapped() == pa.Plus(pb).Wrapped()
  {
    WrappedPlus(ra, rb);
    WrappedPlus(pa, pb);
    WrappedPlus(pa.Wrapped(), rb);
    WrappedPlus(pa.Wrapped(), pb);
  }

  ghost predicate AllFit(keep: Class, windows: seq<seq<Packet>>) {
    forall k :: 0 <= k < |windows| ==> Fits(keep, windows[k])
  }

  /** Any number of windows, each grouped, carry the totals of all their packets. */
  lemma {:induction false} WindowsConserve(keep: Class, net: Network, windows: seq<seq<Packet>>,
                                           batches: seq<seq<Record>>)
    requires |windows| == |batches|
    requires forall k :: 0 <= k < |windows| ==> batches[k] == Grouped(net, windows[k]) && Payloads16(windows[k])
    ensures SumRecordsOf(keep, Concat(batches)).Wrapped() == SumPacketsOf(keep, Concat(windows)).Wrapped()
    ensures AtMost(SumRecordsOf(keep, Concat(batches)), SumPacketsOf(keep, Concat(windows)))
    ensures SumRecordsOf(keep, Concat(batches)) == SumPacketsOf(keep, Concat(windows)) <==> AllFit(keep, windows)
  {
    if windows != [] {
      var k := |windows| - 1;
      WindowsConserve(keep, net, windows[..k], batches[..k]);
      WindowConserves(keep, net, windows[k]);
      var ra, rb := SumRecordsOf(keep, Concat(batches[..k])), SumRecordsOf(keep, batches[k]);
      var pa, pb := SumPacketsOf(keep, Concat(windows[..k])), SumPacketsOf(keep, windows[k]);
      SumRecordsConcat(keep, Concat(batches[..k]), batches[k]);
      SumPacketsConcat(keep, Concat(windows[..k]), windows[k]);
      WrappedSum(ra, rb, pa, pb);
      ExactSum(ra, rb, pa, pb);
      AllFitSplit(keep, windows);
    }
  }

  lemma AllFitSplit(keep: Class, windows: seq<seq<Packet>>)
    requires windows != []
    ensures AllFit(keep, windows) <==>
            AllFit(keep, windows[..|windows| - 1]) && Fits(keep, windows[|windows| - 1])
  {
    var k := |windows| - 1;
    assert forall i :: 0 <= i < k ==> windows[..k][i] == windows[i];
  }

  /** The batches with what is still being exported, and the active table. */
  function Held(s: State): seq<seq<Record>>
    requires s.flush == Draining ==> s.batches != []
  {
    (if s.flush == Draining
     then s.batches[|s.batches| - 1 := s.batches[|s.batches| - 1] + s.draining]
     else s.batches) + [s.active]
  }

  lemma HeldTotals(keep: Class, s: State)
    requires s.flush == Draining ==> s.batches != []
    requires s.flush != Draining ==> s.draining == []
    ensures SumRecordsOf(keep, Concat(Held(s))) ==
            SumRecordsOf(keep, Concat(s.batches)).Plus(SumRecordsOf(keep, s.draining))
            .Plus(SumRecordsOf(keep, s.active))
  {
    var full := Held(s)[..|Held(s)| - 1];
    SumRecordsConcat(keep, Concat(full), s.active);
    if s.flush == Draining {
      var k := |s.batches| - 1;
      var front, last := Concat(s.batches[..k]), s.batches[k];
      assert full[..k] == s.batches[..k];
      assert front + (last + s.draining) == Concat(s.batches) + s.draining;
      SumRecordsConcat(keep, Concat(s.batches), s.draining);
    } else {
      assert full == s.batches;
      PlusAssoc(SumRecordsOf(keep, Concat(s.batches)), ZERO, ZERO);
    }
  }

  /** Conservation over every interleaving: what was accepted is what was exported, what is being exported
      and what the active table holds, for all flows or any class of flows; modulo 2^32 always, and exactly
      if and only if no 32-bit counter overflowed within a window. */
  lemma Conserved(keep: Class, net: Network, steps: seq<Step>, states: seq<State>, i: nat)
    requires IsRun(net, steps, states) && i <= |steps|
    ensures var s, accepted := states[i], SumPacketsOf(keep, Accepted(steps[..i]));
            var held := SumRecordsOf(keep, Concat(s.batches)).Plus(SumRecordsOf(keep, s.draining))
                        .Plus(SumRecordsOf(keep, s.active));
            && held.Wrapped() == accepted.Wrapped()
            && (held == accepted <==> AllFit(keep, s.windows + [s.window]))
  {
    RunKeeps(net, steps, states, i);
    BatchesAreGroupBys(net, steps, states, i);
    var s := states[i];
    var windows, held := s.windows + [s.window], Held(s);
    assert windows[..|s.windows|] == s.windows;
    forall k | 0 <= k < |windows|
      ensures held[k] == Grouped(net, windows[k]) && Payloads16(windows[k])
    {
    }
    WindowsConserve(keep, net, windows, held);
    HeldTotals(keep, s);
  }

  /** So of every counter: what is held says how many packets, bytes or flags were accepted. */
  lemma ConservedCount(keep: Class, net: Network, steps: seq<Step>, states: seq<State>, i: nat, c: Counter)
    requires IsRun(net, steps, states) && i <= |steps|
    ensures var s, truth := states[i], TrueCount(keep, Accepted(steps[..i]), c);
            var held := At(SumRecordsOf(keep, Concat(s.batches)), c) + At(SumRecordsOf(keep, s.draining), c)
                        + At(SumRecordsOf(keep, s.active), c);
            && Wrap32(held) == Wrap32(truth)
            && (AllFit(keep, s.windows + [s.window]) ==> held == truth)
  {
    hide SumRecordsOf, SumPacketsOf, Concat, Accepted, Wrap32, AllFit, TrueCount;
    Conserved(keep, net, steps, states, i);
    CountsAreTrue(keep, Accepted(steps[..i]), c);
    var s := states[i];
    AtPlus(SumRecordsOf(keep, Concat(s.batches)), SumRecordsOf(keep, s.draining), c);
    AtPlus(SumRecordsOf(keep, Concat(s.batches)).Plus(SumRecordsOf(keep, s.draining)), SumRecordsOf(keep, s.active), c);
    AtWrapped(SumPacketsOf(keep, Accepted(steps[..i])), c);
    AtWrapped(SumRecordsOf(keep, Concat(s.batches)).Plus(SumRecordsOf(keep, s.draining))
              .Plus(SumRecordsOf(keep, s.active)), c);
  }

  lemma AtWrapped(t: Totals, c: Counter)
    ensures At(t.Wrapped(), c) == Wrap32(At(t, c))
  {
  }

  /** Between steps j and i there is no swap, and j is the start of the run or the step after one. */
  ghost predicate SinceSwap(steps: seq<Step>, j: nat, i: nat) {
    j <= i <= |steps| && (j == 0 || steps[j - 1] == Swap) && forall k :: j <= k < i ==> steps[k] != Swap
  }

  lemma {:induction false} LastSwap(steps: seq<Step>, i: nat) returns (j: nat)
    requires i <= |steps|
    ensures SinceSwap(steps, j, i)
  {
    if i == 0 || steps[i - 1] == Swap {
      j := i;
    } else {
      j := LastSwap(steps, i - 1);
    }
  }

  /** The current window holds the packets that arrived since the last swap. */
  lemma {:induction false} WindowSinceSwap(net: Network, steps: seq<Step>, states: seq<State>, j: nat, i: nat)
    requires IsRun(net, steps, states) && SinceSwap(steps, j, i)
    ensures states[i].window == Accepted(steps[j..i])
  {
    if j < i {
      WindowSinceSwap(net, steps, states, j, i - 1);
      assert steps[j..i][..i - j - 1] == steps[j..i - 1];
    }
  }

  lemma SameFront<T>(a: seq<T>, b: seq<T>, end: seq<T>)
    requires a + end == b + end
    ensures a == b
  {
    assert a == (a + end)[..|a|] && b == (b + end)[..|b|];
  }

  lemma EmptyGroup(net: Network, ps: seq<Packet>)
    ensures Grouped(net, ps) == [] <==> ps == []
  {
    if ps != [] {
      var p := ps[|ps| - 1];
      assert p in ps;
      FirstKeysIn(ps, p.key);
    }
  }

  /** When flush_worker has returned, nothing is left half exported: only the active table can hold a
      remainder, it is the group-by of the packets that arrived after the last swap, j, and it is empty exactly
      when there are none. No further step of the flush thread is possible. */
  lemma AtExit(net: Network, steps: seq<Step>, states: seq<State>, i: nat) returns (j: nat)
    requires IsRun(net, steps, states) && i <= |steps| && states[i].flush == Exited
    ensures var s := states[i];
            && !s.running && s.capture == Ended && s.draining == [] && |s.batches| == |s.windows|
            && (forall k :: 0 <= k < |s.windows| ==> s.batches[k] == Grouped(net, s.windows[k]))
            && SinceSwap(steps, j, i) && Accepted(steps[..j]) == Concat(s.windows)
            && s.active == Grouped(net, Accepted(steps[j..i]))
            && (s.active == [] <==> Accepted(steps[j..i]) == [])
            && (i < |steps| ==> states[i + 1].flush == Exited && states[i + 1].batches == s.batches)
  {
    hide Grouped, Accepted, Concat, Upserts, Upsert, Fold, WithKey, FirstKeys;
    BatchesAreGroupBys(net, steps, states, i);
    RunKeeps(net, steps, states, i);
    j := LastSwap(steps, i);
    WindowSinceSwap(net, steps, states, j, i);
    assert steps[..i] == steps[..j] + steps[j..i];
    AcceptedConcat(steps[..j], steps[j..i]);
    var s := states[i];
    SameFront(Accepted(steps[..j]), Concat(s.windows), s.window);
    EmptyGroup(net, s.window);
  }

  lemma {:induction false} AcceptedConcat(a: seq<Step>, b: seq<Step>)
    ensures Accepted(a + b) == Accepted(a) + Accepted(b)
  {
    if b == [] {
      assert a + b == a;
    } else {
      assert (a + b)[..|a + b| - 1] == a + b[..|b| - 1];
      AcceptedConcat(a, b[..|b| - 1]);
    }
  }

  lemma {:induction false} NoArrivals(steps: seq<Step>)
    requires forall i :: 0 <= i < |steps| ==> !steps[i].Arrive?
    ensures Accepted(steps) == []
  {
    if steps != [] {
      NoArrivals(steps[..|steps| - 1]);
    }
  }

  /** Such a remainder is possible: a packet that arrives after the last swap is never exported. */
  lemma RemainderLost(net: Network, p: Packet) returns (steps: seq<Step>, states: seq<State>)
    requires 0 <= p.payloadSize < 0x1_0000
    ensures IsRun(net, steps, states) && Accepted(steps) == [p]
    ensures var s := states[|steps|]; s.flush == Exited && Concat(s.batches) == [] && s.active != []
  {
    var before, after := [StartCapture, Test, Swap], [EndCapture, Stop, Wake, Test];
    steps := before + [Arrive(p)] + after;
    AcceptedConcat(before + [Arrive(p)], after);
    NoArrivals(before);
    NoArrivals(after);
    var s0 := Initial(net);
    var s3 := State(net, Capturing, true, Sleeping, [], [], [], [[]], [[]]);
    var s4 := Next(s3, Arrive(p));
    states := [s0, s0.(capture := Capturing), s0.(capture := Capturing, flush := Swapping), s3,
               s4, s4.(capture := Ended), s4.(capture := Ended, running := false),
               s4.(capture := Ended, running := false, flush := Testing),
               s4.(capture := Ended, running := false, flush := Exited)];
  }
}
