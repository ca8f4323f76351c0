/** The order of steps in a run: who waits for whom, and how the flush thread comes to an end. */
module Protocol {
  import opened FlowRecord
  import opened Pipeline

  // ----- every swap is preceded by a test of is_running

  /** The last step of the flush thread before step k was a test that found is_running set. */
  ghost predicate TestedBefore(steps: seq<Step>, states: seq<State>, k: nat, j: nat) {
    && j < k <= |steps| && k < |states|
    && steps[j] == Test && states[j].running
    && forall i :: j < i < k ==> IsForeign(steps[i])
  }

  /** flush_worker tests is_running between any two swaps, and before the first. */
  lemma {:induction false} SwapIsTested(net: Network, steps: seq<Step>, states: seq<State>, k: nat) returns (j: nat)
    requires IsRun(net, steps, states) && k <= |steps| && states[k].flush == Swapping
    ensures TestedBefore(steps, states, k, j)
  {
    assert k > 0;
    if IsForeign(steps[k - 1]) {
      j := SwapIsTested(net, steps, states, k - 1);
    } else {
      j := k - 1;
    }
  }

  /** So of every step that is a swap. */
  lemma EverySwapIsTested(net: Network, steps: seq<Step>, states: seq<State>, k: nat)
    requires IsRun(net, steps, states) && k < |steps| && steps[k] == Swap
    ensures exists j :: TestedBefore(steps, states, k, j)
  {
    var j := SwapIsTested(net, steps, states, k);
  }

  // ----- capture

  /** Step j starts the capture, and nothing ends it before step k. */
  ghost predicate CapturedSince(steps: seq<Step>, k: nat, j: nat) {
    && j < k <= |steps| && steps[j] == StartCapture
    && forall i :: j < i < k ==> steps[i] != EndCapture && steps[i] != FailSetup
  }

  lemma {:induction false} CaptureStarted(net: Network, steps: seq<Step>, states: seq<State>, k: nat) returns (j: nat)
    requires IsRun(net, steps, states) && k <= |steps| && states[k].capture == Capturing
    ensures CapturedSince(steps, k, j)
  {
    assert k > 0;
    if steps[k - 1] == StartCapture {
      j := k - 1;
    } else {
      j := CaptureStarted(net, steps, states, k - 1);
    }
  }

  lemma {:induction false} CaptureEnded(net: Network, steps: seq<Step>, states: seq<State>, k: nat) returns (j: nat)
    requires IsRun(net, steps, states) && k <= |steps| && states[k].capture == Ended
    ensures j < k && (steps[j] == EndCapture || steps[j] == FailSetup)
  {
    assert k > 0;
    if steps[k - 1] == EndCapture || steps[k - 1] == FailSetup {
      j := k - 1;
    } else {
      j := CaptureEnded(net, steps, states, k - 1);
    }
  }

  /** Packets arrive between the start and the end of pcap_loop only, and is_running is cleared only after its
      end, or after it could not be set up. */
  lemma CaptureOrder(net: Network, steps: seq<Step>, states: seq<State>, k: nat)
    requires IsRun(net, steps, states) && k < |steps|
    ensures steps[k].Arrive? ==> exists j :: CapturedSince(steps, k, j)
    ensures steps[k] == Stop ==> exists j :: 0 <= j < k && (steps[j] == EndCapture || steps[j] == FailSetup)
  {
    if steps[k].Arrive? {
      var j := CaptureStarted(net, steps, states, k);
    }
    if steps[k] == Stop {
      var j := CaptureEnded(net, steps, states, k);
    }
  }

  // ----- progress

  /** The one step the flush thread can take next. */
  function FlushStep(flush: Flush): Step
    requires flush != Exited
  {
    match flush
    case Testing => Test
    case Swapping => Swap
    case Draining => Export
    case Sleeping => Wake
  }

  /** Until it has returned the flush thread can always go on, in one way. */
  lemma NeverStuck(net: Network, steps: seq<Step>, states: seq<State>, i: nat, step: Step)
    requires IsRun(net, steps, states) && i <= |steps| && !IsForeign(step)
    ensures Enabled(states[i], step) <==> states[i].flush != Exited && step == FlushStep(states[i].flush)
  {
    RunKeeps(net, steps, states, i);
  }

  // ----- after is_running is cleared

  /** The steps the flush thread still takes once is_running is cleared: at most a swap, the export of every
      record, the end of the sleep and one test. */
  function StepsLeft(s: State): nat {
    match s.flush
    case Exited => 0
    case Testing => 1
    case Sleeping => 2
    case Draining => |s.draining| + 2
    case Swapping => 1 + |s.active| + 2
  }

  function FlushSteps(steps: seq<Step>): nat {
    if steps == [] then 0
    else FlushSteps(steps[..|steps| - 1]) + if IsForeign(steps[|steps| - 1]) then 0 else 1
  }

  function Swaps(steps: seq<Step>): nat {
    if steps == [] then 0
    else Swaps(steps[..|steps| - 1]) + if steps[|steps| - 1] == Swap then 1 else 0
  }

  lemma StoppedStep(s: State, step: Step)
    requires Inv(s) && !s.running && Enabled(s, step)
    ensures !Next(s, step).running
    ensures StepsLeft(s) == StepsLeft(Next(s, step)) + if IsForeign(step) then 0 else 1
    ensures step == Swap ==> s.flush == Swapping
    ensures Next(s, step).flush == Swapping ==> s.flush == Swapping && step != Swap
  {
  }

  /** Every step of the flush thread after is_running is cleared brings it one nearer its end, and there is at
      most one more swap. */
  lemma {:induction false} ComesToAnEnd(net: Network, steps: seq<Step>, states: seq<State>, i: nat, k: nat)
    requires IsRun(net, steps, states) && i <= k <= |steps| && !states[i].running
    ensures !states[k].running
    ensures FlushSteps(steps[i..k]) + StepsLeft(states[k]) == StepsLeft(states[i])
    ensures Swaps(steps[i..k]) + (if states[k].flush == Swapping then 1 else 0)
            <= if states[i].flush == Swapping then 1 else 0
    ensures FlushSteps(steps[i..k]) == StepsLeft(states[i]) <==> states[k].flush == Exited
  {
    hide Next, Inv, Enabled, IsForeign;
    if i < k {
      ComesToAnEnd(net, steps, states, i, k - 1);
      RunKeeps(net, steps, states, k - 1);
      StoppedStep(states[k - 1], steps[k - 1]);
      assert steps[i..k][..k - i - 1] == steps[i..k - 1];
    }
  }
}
