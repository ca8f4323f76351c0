/** Notifier.java: the last aggregates with their sums and maxima. */
module Notifier {
  import opened Rolling
  import opened Aggregation

  /** The greatest value, or -1 when no value exceeds that. */
  function Highest(s: seq<int>): int {
    if s == [] then -1
    else
      var before, x := Highest(s[..|s| - 1]), s[|s| - 1];
      if x > before then x else before
  }

  lemma {:induction false} HighestIsMaximum(s: seq<int>)
    ensures forall x :: x in s ==> x <= Highest(s)
    ensures Highest(s) in s || Highest(s) == -1
    ensures Highest(s) >= -1
  {
    if s != [] {
      HighestIsMaximum(s[..|s| - 1]);
      assert s == s[..|s| - 1] + [s[|s| - 1]];
    }
  }

  /** The maximum stays when a smaller value leaves. */
  lemma {:induction false} HighestWithoutFirst(s: seq<int>)
    requires s != [] && s[0] < Highest(s)
    ensures Highest(s[1..]) == Highest(s)
  {
    if |s| > 1 {
      var k := |s| - 1;
      assert s[..k][1..] == s[1..][..k - 1];
      if s[0] < Highest(s[..k]) {
        HighestWithoutFirst(s[..k]);
      } else {
        HighestTail(s[..k]);
      }
    }
  }

  lemma HighestTail(s: seq<int>)
    requires s != []
    ensures Highest(s[1..]) <= Highest(s)
  {
    HighestIsMaximum(s);
    HighestIsMaximum(s[1..]);
    assert forall x :: x in s[1..] ==> x in s;
  }

  function Column(s: seq<Summary>, metric: Metric): (r: seq<int>)
    ensures |r| == |s|
  {
    seq(|s|, i requires 0 <= i < |s| => Measure(s[i], metric))
  }

  function Cap(n: int): nat {
    if n < 0 then 0 else n
  }

  class Notifier {
    var aggregateSample: seq<Summary>
    const sampleMaxSize: int
    var bytesInboundSum: int
    var bytesInboundRecord: int
    var bytesOutboundSum: int
    var bytesOutboundRecord: int
    var uniqueFlowSum: int
    var uniqueFlowRecord: int

    /** Every aggregate added so far. */
    ghost var history: seq<Summary>

    ghost predicate Sums(s: seq<Summary>)
      reads this
    {
      && bytesInboundSum == Sum(Column(s, BytesInbound))
      && bytesOutboundSum == Sum(Column(s, BytesOutbound))
      && uniqueFlowSum == Sum(Column(s, UniqueFlows))
    }

    ghost predicate Records(s: seq<Summary>)
      reads this
    {
      && bytesInboundRecord == Highest(Column(s, BytesInbound))
      && bytesOutboundRecord == Highest(Column(s, BytesOutbound))
      && uniqueFlowRecord == Highest(Column(s, UniqueFlows))
    }

    ghost predicate Valid()
      reads this
    {
      aggregateSample == Last(history, Cap(sampleMaxSize)) && Sums(aggregateSample) && Records(aggregateSample)
    }

    constructor (sampleMaxSize: int)
      ensures Valid() && history == [] && this.sampleMaxSize == sampleMaxSize
    {
      aggregateSample, this.sampleMaxSize, history := [], sampleMaxSize, [];
      bytesInboundSum, bytesOutboundSum, uniqueFlowSum := 0, 0, 0;
      bytesInboundRecord, bytesOutboundRecord, uniqueFlowRecord := -1, -1, -1;
    }

    /** updateRecords. */
    method UpdateRecords()
      modifies this`bytesInboundRecord, this`bytesOutboundRecord, this`uniqueFlowRecord
      ensures Records(aggregateSample)
    {
      var bytesInbound, bytesOutbound, uniqueFlows := -1, -1, -1;
      for i := 0 to |aggregateSample|
        invariant bytesInbound == Highest(Column(aggregateSample[..i], BytesInbound))
        invariant bytesOutbound == Highest(Column(aggregateSample[..i], BytesOutbound))
        invariant uniqueFlows == Highest(Column(aggregateSample[..i], UniqueFlows))
      {
        var a := aggregateSample[i];
        assert aggregateSample[..i + 1] == aggregateSample[..i] + [a];
        Newest(aggregateSample[..i], a);
        if a.bytesInbound > bytesInbound {
          bytesInbound := a.bytesInbound;
        }
        if a.bytesOutbound > bytesOutbound {
          bytesOutbound := a.bytesOutbound;
        }
        if a.uniqueFlowCount > uniqueFlows {
          uniqueFlows := a.uniqueFlowCount;
        }
      }
      assert aggregateSample[..|aggregateSample|] == aggregateSample;
      bytesInboundRecord, bytesOutboundRecord, uniqueFlowRecord := bytesInbound, bytesOutbound, uniqueFlows;
    }

    /** The first part of addAggregate_sample. */
    method Include(newest: Summary)
      requires Sums(aggregateSample) && Records(aggregateSample)
      modifies this
      ensures aggregateSample == old(aggregateSample) + [newest] && Sums(aggregateSample) && Records(aggregateSample)
      ensures history == old(history)
    {
      Newest(aggregateSample, newest);
      aggregateSample := aggregateSample + [newest];
      if newest.bytesInbound > bytesInboundRecord {
        bytesInboundRecord := newest.bytesInbound;
      }
      if newest.bytesOutbound > bytesOutboundRecord {
        bytesOutboundRecord := newest.bytesOutbound;
      }
      if newest.uniqueFlowCount > uniqueFlowRecord {
        uniqueFlowRecord := newest.uniqueFlowCount;
      }
      bytesInboundSum := bytesInboundSum + newest.bytesInbound;
      bytesOutboundSum := bytesOutboundSum + newest.bytesOutbound;
      uniqueFlowSum := uniqueFlowSum + newest.uniqueFlowCount;
    }

    /** The second part: the oldest sample leaves, and records are looked for again only when it may have
        held one. */
    method DropOldest()
      requires aggregateSample != [] && Sums(aggregateSample) && Records(aggregateSample)
      modifies this
      ensures aggregateSample == old(aggregateSample)[1..] && Sums(aggregateSample) && Records(aggregateSample)
      ensures history == old(history)
    {
      ghost var before := aggregateSample;
      Oldest(before);
      var oldest := aggregateSample[0];
      aggregateSample := aggregateSample[1..];
      if oldest.bytesInbound >= bytesInboundRecord || oldest.bytesOutbound >= bytesOutboundRecord
         || oldest.uniqueFlowCount >= uniqueFlowRecord {
        UpdateRecords();
      }
      bytesInboundSum := bytesInboundSum - oldest.bytesInbound;
      bytesOutboundSum := bytesOutboundSum - oldest.bytesOutbound;
      uniqueFlowSum := uniqueFlowSum - oldest.uniqueFlowCount;
    }

    /** addAggregate_sample: the list is the last samples, the sums are theirs and so are the records. */
    method AddAggregateSample(newest: Summary)
      requires Valid()
      modifies this
      ensures Valid() && history == old(history) + [newest]
      ensures |aggregateSample| == if |history| <= sampleMaxSize then |history|
                                   else if sampleMaxSize < 0 then 0 else sampleMaxSize
      ensures aggregateSample == history[|history| - |aggregateSample|..]
    {
      LastOfLast(history, newest, Cap(sampleMaxSize));
      Include(newest);
      if |aggregateSample| > sampleMaxSize {
        DropOldest();
      }
      history := history + [newest];
    }
  }

  lemma Newest(s: seq<Summary>, newest: Summary)
    ensures forall metric :: Sum(Column(s + [newest], metric)) == Sum(Column(s, metric)) + Measure(newest, metric)
    ensures forall metric :: var before, x := Highest(Column(s, metric)), Measure(newest, metric);
                             Highest(Column(s + [newest], metric)) == if x > before then x else before
  {
    forall metric
      ensures var c := Column(s + [newest], metric);
              c[..|c| - 1] == Column(s, metric) && c[|c| - 1] == Measure(newest, metric)
    {
      var c := Column(s + [newest], metric);
      assert c[..|c| - 1] == Column(s, metric);
    }
  }

  lemma Oldest(s: seq<Summary>)
    requires s != []
    ensures forall metric :: Sum(Column(s[1..], metric)) == Sum(Column(s, metric)) - Measure(s[0], metric)
    ensures forall metric :: Measure(s[0], metric) < Highest(Column(s, metric)) ==>
                             Highest(Column(s[1..], metric)) == Highest(Column(s, metric))
  {
    forall metric
      ensures Sum(Column(s[1..], metric)) == Sum(Column(s, metric)) - Measure(s[0], metric)
      ensures Measure(s[0], metric) < Highest(Column(s, metric)) ==>
              Highest(Column(s[1..], metric)) == Highest(Column(s, metric))
    {
      var c := Column(s, metric);
      assert c[1..] == Column(s[1..], metric);
      SumTail(c);
      if c[0] < Highest(c) {
        HighestWithoutFirst(c);
      }
    }
  }
}
