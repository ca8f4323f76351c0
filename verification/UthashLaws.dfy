/** The promises of uthash, proved of the functions in UthashModel. */
module UthashLaws {
  import opened Bits
  import opened FlowTypes
  import opened UthashModel

  // ----- sequences

  lemma {:induction false} RemoveAt(s: seq<Flow>, k: nat)
    requires Distinct(s) && k < |s|
    ensures Remove(s, s[k]) == s[..k] + s[k + 1..]
  {
    if k > 0 {
      RemoveAt(s[1..], k - 1);
    }
  }

  lemma RemoveElements(s: seq<Flow>, n: Flow)
    requires Distinct(s) && n in s
    ensures Distinct(Remove(s, n)) && |Remove(s, n)| == |s| - 1
    ensures forall x :: x in Remove(s, n) ==> x in s && x != n
    ensures forall x :: x in s && x != n ==> x in Remove(s, n)
  {
    var k :| 0 <= k < |s| && s[k] == n;
    RemoveAt(s, k);
    forall x | x in s && x != n
      ensures x in Remove(s, n)
    {
      var j :| 0 <= j < |s| && s[j] == x;
      assert x == Remove(s, n)[if j < k then j else j - 1];
    }
  }

  lemma {:induction false} FlattenIn(chains: seq<seq<Flow>>, n: Flow)
    ensures n in Flatten(chains) <==> exists b :: 0 <= b < |chains| && n in chains[b]
  {
    if chains != [] {
      var k := |chains| - 1;
      FlattenIn(chains[..k], n);
      assert forall b :: 0 <= b < k ==> chains[..k][b] == chains[b];
    }
  }

  lemma {:induction false} FlattenDistinct(chains: seq<seq<Flow>>)
    requires forall b :: 0 <= b < |chains| ==> Distinct(chains[b])
    requires forall b, c, n :: 0 <= b < c < |chains| && n in chains[b] ==> n !in chains[c]
    ensures Distinct(Flatten(chains))
  {
    if chains != [] {
      var k := |chains| - 1;
      FlattenDistinct(chains[..k]);
      forall n | n in Flatten(chains[..k])
        ensures n !in chains[k]
      {
        FlattenIn(chains[..k], n);
      }
      DistinctConcat(Flatten(chains[..k]), chains[k]);
    }
  }

  lemma DistinctConcat(s: seq<Flow>, t: seq<Flow>)
    requires Distinct(s) && Distinct(t) && forall n :: n in s ==> n !in t
    ensures Distinct(s + t)
  {
    forall i, j | 0 <= i < j < |s + t|
      ensures (s + t)[i] != (s + t)[j]
    {
      if i < |s| <= j {
        assert s[i] in s && t[j - |s|] in t;
      }
    }
  }

  // ----- doubling: where each item goes

  /** The items of ns that belong to bucket b, the last one first. */
  function LastFirst(h: Hash, ns: seq<Flow>, b: nat, numBuckets: nat): seq<Flow>
    requires numBuckets > 0
  {
    if ns == [] then []
    else
      var k := |ns| - 1;
      (if Bkt(h, ns[k], numBuckets) == b then [ns[k]] else []) + LastFirst(h, ns[..k], b, numBuckets)
  }

  lemma {:induction false} PlacedChain(h: Hash, numBuckets: nat, ns: seq<Flow>, ideal: nat, b: nat)
    requires b < numBuckets
    ensures PlaceAll(h, numBuckets, ns, ideal).chains[b] == LastFirst(h, ns, b, numBuckets)
  {
    if ns != [] {
      PlacedChain(h, numBuckets, ns[..|ns| - 1], ideal, b);
    }
  }

  lemma {:induction false} LastFirstAppend(h: Hash, ns: seq<Flow>, ms: seq<Flow>, b: nat, numBuckets: nat)
    requires numBuckets > 0
    ensures LastFirst(h, ns + ms, b, numBuckets) == LastFirst(h, ms, b, numBuckets) + LastFirst(h, ns, b, numBuckets)
  {
    hide Bkt;
    if ms == [] {
      assert ns + ms == ns;
    } else {
      var k, all := |ms| - 1, ns + ms;
      assert all[..|all| - 1] == ns + ms[..k] && all[|all| - 1] == ms[k];
      LastFirstAppend(h, ns, ms[..k], b, numBuckets);
      var own := if Bkt(h, ms[k], numBuckets) == b then [ms[k]] else [];
      assert LastFirst(h, all, b, numBuckets) == own + LastFirst(h, ns + ms[..k], b, numBuckets);
    }
  }

  lemma {:induction false} LastFirstElements(h: Hash, ns: seq<Flow>, b: nat, numBuckets: nat)
    requires numBuckets > 0
    ensures forall n :: n in LastFirst(h, ns, b, numBuckets) ==> n in ns && Bkt(h, n, numBuckets) == b
    ensures forall n :: n in ns && Bkt(h, n, numBuckets) == b ==> n in LastFirst(h, ns, b, numBuckets)
    ensures Distinct(ns) ==> Distinct(LastFirst(h, ns, b, numBuckets))
  {
    if ns != [] {
      var k := |ns| - 1;
      LastFirstElements(h, ns[..k], b, numBuckets);
      assert ns == ns[..k] + [ns[k]];
    }
  }

  lemma {:induction false} LastFirstNone(h: Hash, ns: seq<Flow>, b: nat, numBuckets: nat)
    requires numBuckets > 0
    requires forall n :: n in ns ==> Bkt(h, n, numBuckets) != b
    ensures LastFirst(h, ns, b, numBuckets) == []
  {
    if ns != [] {
      LastFirstNone(h, ns[..|ns| - 1], b, numBuckets);
    }
  }

  /** Only old bucket i feeds a new bucket of i's items. */
  lemma {:induction false} LastFirstFlatten(h: Hash, chains: seq<seq<Flow>>, i: nat, b: nat, numBuckets: nat)
    requires numBuckets > 0 && i < |chains|
    requires forall c, n :: 0 <= c < |chains| && c != i && n in chains[c] ==> Bkt(h, n, numBuckets) != b
    ensures LastFirst(h, Flatten(chains), b, numBuckets) == LastFirst(h, chains[i], b, numBuckets)
  {
    var k := |chains| - 1;
    var front := chains[..k];
    LastFirstAppend(h, Flatten(front), chains[k], b, numBuckets);
    if i == k {
      forall n | n in Flatten(front)
        ensures Bkt(h, n, numBuckets) != b
      {
        FlattenIn(front, n);
      }
      LastFirstNone(h, Flatten(front), b, numBuckets);
    } else {
      LastFirstFlatten(h, front, i, b, numBuckets);
      LastFirstNone(h, chains[k], b, numBuckets);
    }
  }

  /** An item of old bucket i goes to bucket i or to bucket i + numBuckets. */
  lemma BktAfterDoubling(h: Hash, n: Flow, k: nat)
    ensures Bkt(h, n, Pow2(k) * 2) == Bkt(h, n, Pow2(k)) || Bkt(h, n, Pow2(k) * 2) == Bkt(h, n, Pow2(k)) + Pow2(k)
  {
    MaskSplit(HashOf(h, n.key), k);
    assert Pow2(k + 1) == Pow2(k) * 2;
  }

  /** HASH_EXPAND_BUCKETS splits each bucket in two, reversing the order within each half, and touches
      nothing else about the items. */
  lemma ExpandSplits(h: Hash, m: Model, i: nat)
    requires m.Tbl? && WellFormed(h, m) && i < |m.chains|
    ensures var r := Expand(h, m);
            var nb := |m.chains| * 2;
            && r.chains[i] == LastFirst(h, m.chains[i], i, nb)
            && r.chains[i + |m.chains|] == LastFirst(h, m.chains[i], i + |m.chains|, nb)
            && (forall n :: n in m.chains[i] ==> Bkt(h, n, nb) == i || Bkt(h, n, nb) == i + |m.chains|)
  {
    var nb := |m.chains| * 2;
    var ideal := IdealMaxlen(|m.order|, m.log2);
    forall c, n | 0 <= c < |m.chains| && n in m.chains[c]
      ensures Bkt(h, n, nb) == c || Bkt(h, n, nb) == c + |m.chains|
    {
      assert IsBucket(h, m.chains[c], m.order, c, |m.chains|);
      BktAfterDoubling(h, n, m.log2);
    }
    forall b | b == i || b == i + |m.chains|
      ensures Expand(h, m).chains[b] == LastFirst(h, m.chains[i], b, nb)
    {
      PlacedChain(h, nb, Flatten(m.chains), ideal, b);
      LastFirstFlatten(h, m.chains, i, b, nb);
    }
  }

  lemma FlattenOfBuckets(h: Hash, m: Model)
    requires m.Tbl? && WellFormed(h, m)
    ensures Distinct(Flatten(m.chains))
    ensures forall n :: n in Flatten(m.chains) ==> n in m.order
    ensures forall n :: n in m.order ==> n in Flatten(m.chains)
  {
    forall b | 0 <= b < |m.chains|
      ensures IsBucket(h, m.chains[b], m.order, b, |m.chains|)
    {}
    FlattenDistinct(m.chains);
    forall n | n in Flatten(m.chains)
      ensures n in m.order
    {
      FlattenIn(m.chains, n);
    }
    forall n | n in m.order
      ensures n in Flatten(m.chains)
    {
      FlattenIn(m.chains, n);
      assert n in m.chains[Bkt(h, n, |m.chains|)];
    }
  }

  lemma ExpandWellFormed(h: Hash, m: Model)
    requires m.Tbl? && WellFormed(h, m)
    ensures WellFormed(h, Expand(h, m))
  {
    var r := Expand(h, m);
    var nb := |m.chains| * 2;
    assert |r.chains| == nb;
    FlattenOfBuckets(h, m);
    forall b | 0 <= b < |r.chains|
      ensures IsBucket(h, r.chains[b], r.order, b, |r.chains|)
    {
      PlacedChain(h, nb, Flatten(m.chains), IdealMaxlen(|m.order|, m.log2), b);
      LastFirstElements(h, Flatten(m.chains), b, nb);
      assert r.chains[b] == LastFirst(h, Flatten(m.chains), b, nb);
    }
  }

  // ----- add and delete keep the representation

  lemma PushBuckets(h: Hash, chains: seq<seq<Flow>>, order: seq<Flow>, n: Flow)
    requires |chains| > 0 && AreBuckets(h, chains, order) && n !in order
    ensures var b := Bkt(h, n, |chains|);
            AreBuckets(h, chains[b := [n] + chains[b]], order + [n])
  {
    var k := Bkt(h, n, |chains|);
    var r := chains[k := [n] + chains[k]];
    forall b | 0 <= b < |r|
      ensures IsBucket(h, r[b], order + [n], b, |r|)
    {
      assert IsBucket(h, chains[b], order, b, |chains|);
    }
  }

  lemma AddWellFormed(h: Hash, m: Model, n: Flow)
    requires WellFormed(h, m) && n !in Order(m)
    ensures WellFormed(h, Add(h, m, n)) && Order(Add(h, m, n)) == Order(m) + [n]
  {
    var m0 := if m.Absent? then Fresh() else m;
    assert AreBuckets(h, m0.chains, m0.order);
    PushBuckets(h, m0.chains, m0.order, n);
    var m1 := PushChain(h, AppendItem(m, n), n);
    assert WellFormed(h, m1);
    if MustExpand(h, m1, n) {
      ExpandWellFormed(h, m1);
    }
  }

  lemma DeleteWellFormed(h: Hash, m: Model, n: Flow)
    requires WellFormed(h, m) && n in Order(m)
    ensures WellFormed(h, Delete(h, m, n)) && Order(Delete(h, m, n)) == Remove(Order(m), n)
  {
    RemoveElements(m.order, n);
    var r := Delete(h, m, n);
    if |m.order| == 1 {
      assert m.order[0] == n;
    } else {
      var k := Bkt(h, n, |m.chains|);
      assert IsBucket(h, m.chains[k], m.order, k, |m.chains|);
      RemoveElements(m.chains[k], n);
      forall b | 0 <= b < |r.chains|
        ensures IsBucket(h, r.chains[b], r.order, b, |r.chains|)
      {
        assert IsBucket(h, m.chains[b], m.order, b, |m.chains|);
      }
    }
  }

  /** Every item is in one chain, that of the bucket whose number is its hash value modulo the number of
      buckets. */
  lemma BucketIsRemainder(h: Hash, m: Model, n: Flow, b: nat)
    requires m.Tbl? && WellFormed(h, m) && n in m.order && b < |m.chains|
    ensures n in m.chains[b] <==> b == h(n.key) % |m.chains|
  {
    AndMask(HashOf(h, n.key), m.log2);
    assert IsBucket(h, m.chains[b], m.order, b, |m.chains|);
  }

  // ----- counts

  function SumCounts(chains: seq<seq<Flow>>): nat {
    if chains == [] then 0 else SumCounts(chains[..|chains| - 1]) + |chains[|chains| - 1]|
  }

  lemma {:induction false} FlattenLength(chains: seq<seq<Flow>>)
    ensures |Flatten(chains)| == SumCounts(chains)
  {
    if chains != [] {
      FlattenLength(chains[..|chains| - 1]);
    }
  }

  lemma {:induction false} DistinctSize(s: seq<Flow>)
    requires Distinct(s)
    ensures |set n | n in s| == |s|
  {
    if s != [] {
      var k := |s| - 1;
      DistinctSize(s[..k]);
      assert (set n | n in s) == (set n | n in s[..k]) + {s[k]};
    }
  }

  /** The chain lengths add up to the length of the list, which is num_items. */
  lemma CountsAddUp(h: Hash, m: Model)
    requires m.Tbl? && WellFormed(h, m)
    ensures SumCounts(m.chains) == |m.order|
  {
    FlattenOfBuckets(h, m);
    FlattenLength(m.chains);
    DistinctSize(Flatten(m.chains));
    DistinctSize(m.order);
    assert (set n | n in Flatten(m.chains)) == (set n | n in m.order);
  }

  // ----- the growth heuristics

  /** What a doubling leaves in a bucket: expand_mult counts how many whole ideal lengths the chain
      exceeds. */
  ghost predicate MultFits(count: nat, mult: nat, ideal: nat) {
    count <= (mult + 1) * ideal && (mult > 0 ==> (mult - 1) * ideal < count)
  }

  /** One more item in a chain. */
  lemma MultStep(count: nat, mult: nat, ideal: nat)
    requires ideal > 0 && MultFits(count, mult, ideal)
    ensures MultFits(count + 1, if count + 1 > ideal && count + 1 > mult * ideal then mult + 1 else mult, ideal)
  {
    assert (mult + 2) * ideal == (mult + 1) * ideal + ideal == mult * ideal + 2 * ideal;
    assert mult > 0 ==> mult * ideal == (mult - 1) * ideal + ideal;
  }

  lemma {:induction false} PlacedMults(h: Hash, numBuckets: nat, ns: seq<Flow>, ideal: nat, b: nat)
    requires b < numBuckets && ideal > 0
    ensures var g := PlaceAll(h, numBuckets, ns, ideal);
            MultFits(|g.chains[b]|, g.mults[b], ideal)
  {
    if ns != [] {
      var k := |ns| - 1;
      PlacedMults(h, numBuckets, ns[..k], ideal, b);
      var g := PlaceAll(h, numBuckets, ns[..k], ideal);
      MultStep(|g.chains[b]|, g.mults[b], ideal);
    }
  }

  function Over(count: nat, ideal: nat): nat {
    if count > ideal then count - ideal else 0
  }

  function Excess(chains: seq<seq<Flow>>, ideal: nat): nat {
    if chains == [] then 0 else Excess(chains[..|chains| - 1], ideal) + Over(|chains[|chains| - 1]|, ideal)
  }

  lemma {:induction false} ExcessUpdate(chains: seq<seq<Flow>>, b: nat, chain: seq<Flow>, ideal: nat)
    requires b < |chains|
    ensures Excess(chains[b := chain], ideal) + Over(|chains[b]|, ideal) == Excess(chains, ideal) + Over(|chain|, ideal)
  {
    var k := |chains| - 1;
    if b == k {
      assert chains[b := chain][..k] == chains[..k];
    } else {
      assert chains[b := chain][..k] == chains[..k][b := chain];
      ExcessUpdate(chains[..k], b, chain, ideal);
    }
  }

  lemma {:induction false} ExcessEmpty(chains: seq<seq<Flow>>, ideal: nat)
    requires forall b :: 0 <= b < |chains| ==> chains[b] == []
    ensures Excess(chains, ideal) == 0
  {
    if chains != [] {
      ExcessEmpty(chains[..|chains| - 1], ideal);
    }
  }

  lemma {:induction false} PlacedNonideal(h: Hash, numBuckets: nat, ns: seq<Flow>, ideal: nat)
    requires numBuckets > 0
    ensures var g := PlaceAll(h, numBuckets, ns, ideal);
            g.nonideal == Excess(g.chains, ideal)
  {
    if ns == [] {
      ExcessEmpty(EmptyGrow(numBuckets).chains, ideal);
    } else {
      var k := |ns| - 1;
      PlacedNonideal(h, numBuckets, ns[..k], ideal);
      var g := PlaceAll(h, numBuckets, ns[..k], ideal);
      var b := Bkt(h, ns[k], numBuckets);
      ExcessUpdate(g.chains, b, [ns[k]] + g.chains[b], ideal);
    }
  }

  /** The figures of a doubling: ideal_chain_maxlen is the number of items over the new number of buckets,
      rounded up; nonideal_items counts the items beyond it; every expand_mult fits its chain; and the doubling
      was ineffective if that leaves more than half the items beyond the ideal length. */
  lemma ExpandFigures(h: Hash, m: Model)
    requires m.Tbl? && WellFormed(h, m)
    ensures var r := Expand(h, m);
            && |r.order| <= r.ideal * |r.chains|
            && (forall c: nat :: |r.order| <= c * |r.chains| ==> r.ideal <= c)
            && r.ideal > 0
            && r.nonideal == Excess(r.chains, r.ideal)
            && r.expansions == m.expansions + [2 * Excess(r.chains, r.ideal) > |r.order|]
            && (forall b :: 0 <= b < |r.chains| ==> MultFits(|r.chains[b]|, r.mults[b], r.ideal))
  {
    hide PlaceAll, MultFits, AreBuckets;
    var r := Expand(h, m);
    var nb := |m.chains| * 2;
    assert nb == Pow2(m.log2 + 1) == |r.chains|;
    CeilByShift(|m.order|, m.log2 + 1, r.ideal);
    HalfByShift(|m.order|, Excess(r.chains, r.ideal));
    PlacedNonideal(h, nb, Flatten(m.chains), r.ideal);
    forall b | 0 <= b < |r.chains|
      ensures MultFits(|r.chains[b]|, r.mults[b], r.ideal)
    {
      PlacedMults(h, nb, Flatten(m.chains), r.ideal, b);
    }
  }

  ghost predicate BucketBound(count: nat, mult: nat, ideal: nat) {
    count < Threshold(mult) || count <= (mult + 1) * ideal
  }

  /** Until growth is given up, every chain is short: below its threshold, or within expand_mult + 1 ideal
      lengths. */
  ghost predicate ChainBound(m: Model) {
    m.Tbl? && |m.mults| == |m.chains| && !m.noexpand ==>
      forall b :: 0 <= b < |m.chains| ==> BucketBound(|m.chains[b]|, m.mults[b], m.ideal)
  }

  lemma ExpandChainBound(h: Hash, m: Model)
    requires m.Tbl? && WellFormed(h, m)
    ensures ChainBound(Expand(h, m))
  {
    ExpandFigures(h, m);
    var r := Expand(h, m);
    forall b | 0 <= b < |r.chains|
      ensures BucketBound(|r.chains[b]|, r.mults[b], r.ideal)
    {
      assert MultFits(|r.chains[b]|, r.mults[b], r.ideal);
    }
  }

  lemma AddChainBound(h: Hash, m: Model, n: Flow)
    requires WellFormed(h, m) && n !in Order(m) && ChainBound(m)
    ensures ChainBound(Add(h, m, n))
  {
    var m0 := if m.Absent? then Fresh() else m;
    PushBuckets(h, m0.chains, m0.order, n);
    var m1 := PushChain(h, AppendItem(m, n), n);
    if MustExpand(h, m1, n) {
      ExpandChainBound(h, m1);
    } else if !m1.noexpand {
      forall b | 0 <= b < |m1.chains|
        ensures BucketBound(|m1.chains[b]|, m1.mults[b], m1.ideal)
      {
        assert BucketBound(|m0.chains[b]|, m0.mults[b], m0.ideal);
      }
    }
  }

  lemma DeleteChainBound(h: Hash, m: Model, n: Flow)
    requires WellFormed(h, m) && n in Order(m) && ChainBound(m)
    ensures ChainBound(Delete(h, m, n))
  {
    if |m.order| > 1 && !m.noexpand {
      var r := Delete(h, m, n);
      var k := Bkt(h, n, |m.chains|);
      assert IsBucket(h, m.chains[k], m.order, k, |m.chains|);
      RemoveElements(m.chains[k], n);
      forall b | 0 <= b < |r.chains|
        ensures BucketBound(|r.chains[b]|, r.mults[b], r.ideal)
      {
        assert BucketBound(|m.chains[b]|, m.mults[b], m.ideal);
      }
    }
  }

  // ----- giving up growth

  function TrailingIneffective(expansions: seq<bool>): nat {
    if expansions != [] && expansions[|expansions| - 1]
    then TrailingIneffective(expansions[..|expansions| - 1]) + 1
    else 0
  }

  ghost predicate LastTwoIneffective(expansions: seq<bool>) {
    var k := |expansions|;
    k >= 2 && expansions[k - 1] && expansions[k - 2]
  }

  /** ineff_expands is the length of the current row of ineffective doublings; noexpand is set exactly when
      the last two were both ineffective; the number of buckets counts the doublings. */
  ghost predicate HistoryKept(m: Model) {
    m.Tbl? ==>
      && m.ineff == TrailingIneffective(m.expansions)
      && (m.noexpand <==> LastTwoIneffective(m.expansions))
      && m.log2 == INITIAL_LOG2 + |m.expansions|
  }

  lemma ExpandHistory(h: Hash, m: Model)
    requires Sized(m) && HistoryKept(m) && !m.noexpand
    ensures HistoryKept(Expand(h, m))
  {
    var r := Expand(h, m);
    var k := |m.expansions|;
    assert r.expansions[..k] == m.expansions;
    if k > 0 {
      assert TrailingIneffective(m.expansions) > 0 <==> m.expansions[k - 1];
    }
  }

  lemma AddHistory(h: Hash, m: Model, n: Flow)
    requires (m.Tbl? ==> Sized(m)) && HistoryKept(m)
    ensures HistoryKept(Add(h, m, n))
  {
    var m0 := if m.Absent? then Fresh() else m;
    var m1 := PushChain(h, AppendItem(m, n), n);
    if MustExpand(h, m1, n) {
      ExpandHistory(h, m1);
    }
  }

  // ----- finding

  ghost predicate UniqueKeys(s: seq<Flow>) {
    forall i, j :: 0 <= i < j < |s| ==> s[i].key != s[j].key
  }

  lemma {:induction false} FirstWithFinds(s: seq<Flow>, key: FlowKey)
    ensures var r := FirstWith(s, key);
            && (r == null ==> forall n :: n in s ==> n.key != key)
            && (r != null ==> r in s && r.key == key)
  {
    if s != [] && s[0].key != key {
      FirstWithFinds(s[1..], key);
    }
  }

  /** HASH_FIND answers as a scan of the application-order list does, when keys are unique. */
  lemma FindRefinesScan(h: Hash, m: Model, key: FlowKey)
    requires WellFormed(h, m) && UniqueKeys(Order(m))
    ensures Find(h, m, key) == FirstWith(Order(m), key)
  {
    if m.Tbl? {
      var b := And(HashOf(h, key), |m.chains| - 1);
      assert IsBucket(h, m.chains[b], m.order, b, |m.chains|);
      FirstWithFinds(m.chains[b], key);
      FirstWithFinds(m.order, key);
    }
  }

  function LastWith(chain: seq<Flow>, key: FlowKey): Flow? {
    if chain == [] then null
    else if chain[|chain| - 1].key == key then chain[|chain| - 1]
    else LastWith(chain[..|chain| - 1], key)
  }

  lemma {:induction false} FirstOfLastFirst(h: Hash, ns: seq<Flow>, key: FlowKey, numBuckets: nat)
    requires numBuckets > 0
    ensures FirstWith(LastFirst(h, ns, And(HashOf(h, key), numBuckets - 1), numBuckets), key) == LastWith(ns, key)
  {
    if ns != [] {
      var k := |ns| - 1;
      var b := And(HashOf(h, key), numBuckets - 1);
      FirstOfLastFirst(h, ns[..k], key, numBuckets);
      var rest := LastFirst(h, ns[..k], b, numBuckets);
      if Bkt(h, ns[k], numBuckets) == b {
        assert ([ns[k]] + rest)[1..] == rest;
      } else {
        assert LastFirst(h, ns, b, numBuckets) == rest;
      }
    }
  }

  lemma {:induction false} LastWithFinds(s: seq<Flow>, key: FlowKey)
    ensures var r := LastWith(s, key);
            && (r == null ==> forall n :: n in s ==> n.key != key)
            && (r != null ==> exists i :: 0 <= i < |s| && s[i] == r && r.key == key &&
                                forall j :: i < j < |s| ==> s[j].key != key)
  {
    if s != [] && s[|s| - 1].key != key {
      LastWithFinds(s[..|s| - 1], key);
    }
  }

  lemma {:induction false} FirstWithFirst(s: seq<Flow>, key: FlowKey)
    ensures var r := FirstWith(s, key);
            r != null ==> exists i :: 0 <= i < |s| && s[i] == r && r.key == key &&
                            forall j :: 0 <= j < i ==> s[j].key != key
  {
    if s != [] && s[0].key != key {
      FirstWithFirst(s[1..], key);
      var r := FirstWith(s, key);
      if r != null {
        var i :| 0 <= i < |s[1..]| && s[1..][i] == r && r.key == key &&
                 forall j :: 0 <= j < i ==> s[1..][j].key != key;
        assert s[i + 1] == r;
        forall j | 0 <= j < i + 1
          ensures s[j].key != key
        {
          if j > 0 {
            assert s[j] == s[1..][j - 1];
          }
        }
      }
    }
  }

  ghost predicate AtMostOneWith(s: seq<Flow>, key: FlowKey) {
    forall i, j :: 0 <= i < j < |s| ==> !(s[i].key == key && s[j].key == key)
  }

  lemma ChainAfterExpand(h: Hash, m: Model, v: nat, i: nat, j: nat)
    requires m.Tbl? && WellFormed(h, m)
    requires i == And(v, |m.chains| - 1) && j == And(v, |m.chains| * 2 - 1)
    ensures j < |m.chains| * 2 && Expand(h, m).chains[j] == LastFirst(h, m.chains[i], j, |m.chains| * 2)
  {
    assert Pow2(m.log2 + 1) == |m.chains| * 2;
    MaskSplit(v, m.log2);
    assert i < |m.chains| && (j == i || j == i + |m.chains|);
    ExpandSplits(h, m, i);
  }

  lemma FindLastAfterExpand(h: Hash, m: Model, key: FlowKey, i: nat)
    requires m.Tbl? && WellFormed(h, m) && i == And(HashOf(h, key), |m.chains| - 1)
    ensures Find(h, Expand(h, m), key) == LastWith(m.chains[i], key)
  {
    var r := Expand(h, m);
    var nb := |m.chains| * 2;
    assert |r.chains| == nb;
    var j := And(HashOf(h, key), nb - 1);
    ChainAfterExpand(h, m, HashOf(h, key), i, j);
    FirstOfLastFirst(h, m.chains[i], key, nb);
  }

  /** Doubling leaves the answer of HASH_FIND for a key unchanged exactly when at most one item has that
      key: chains come out reversed, and of two items with one key the other one would be found. */
  lemma FindAfterExpand(h: Hash, m: Model, key: FlowKey)
    requires m.Tbl? && WellFormed(h, m)
    ensures Find(h, Expand(h, m), key) == Find(h, m, key) <==> AtMostOneWith(m.order, key)
  {
    hide Expand;
    var i := And(HashOf(h, key), |m.chains| - 1);
    var chain := m.chains[i];
    FindLastAfterExpand(h, m, key, i);
    assert IsBucket(h, chain, m.order, i, |m.chains|);
    FirstVersusLast(chain, key);
    forall n | n in m.order && n.key == key
      ensures n in chain
    {
      assert Bkt(h, n, |m.chains|) == i;
    }
    AtMostOneMoves(m.order, chain, key);
    AtMostOneMoves(chain, m.order, key);
  }

  /** A table between the links of HASH_ADD and its test for growth. */
  lemma PushedWellFormed(h: Hash, m: Model, n: Flow)
    requires WellFormed(h, m) && n !in Order(m)
    ensures var m1 := PushChain(h, AppendItem(m, n), n);
            && WellFormed(h, m1) && m1.order == Order(m) + [n]
            && var b, chains := Bkt(h, n, |m1.chains|), if m.Absent? then Fresh().chains else m.chains;
               |chains| == |m1.chains| && m1.chains == chains[b := [n] + chains[b]]
  {
    var m0 := if m.Absent? then Fresh() else m;
    assert AreBuckets(h, m0.chains, m0.order);
    PushBuckets(h, m0.chains, m0.order, n);
  }

  lemma PushedFind(h: Hash, m: Model, n: Flow, key: FlowKey)
    requires WellFormed(h, m) && n !in Order(m) && n.key != key
    ensures var m1 := PushChain(h, AppendItem(m, n), n);
            WellFormed(h, m1) && Find(h, m1, key) == Find(h, m, key)
  {
    PushedWellFormed(h, m, n);
    hide WellFormed, PushChain, And;
    var m1, chains := PushChain(h, AppendItem(m, n), n), if m.Absent? then Fresh().chains else m.chains;
    var i := And(HashOf(h, key), |m1.chains| - 1);
    SkipFirst(n, chains[i], key);
  }

  lemma SkipFirst(n: Flow, chain: seq<Flow>, key: FlowKey)
    requires n.key != key
    ensures FirstWith([n] + chain, key) == FirstWith(chain, key)
  {
    assert ([n] + chain)[1..] == chain;
  }

  lemma OtherKeyAppended(s: seq<Flow>, n: Flow, key: FlowKey)
    requires n.key != key
    ensures AtMostOneWith(s + [n], key) <==> AtMostOneWith(s, key)
  {
    var t := s + [n];
    assert forall i :: 0 <= i < |s| ==> t[i] == s[i];
    if !AtMostOneWith(s, key) {
      var i, j :| 0 <= i < j < |s| && s[i].key == key && s[j].key == key;
      assert t[i].key == key && t[j].key == key;
    }
  }

  /** What an add does to the look-up of another key: nothing, unless it doubles the buckets and two items
      have that key. */
  lemma FindAfterAdd(h: Hash, m: Model, n: Flow, key: FlowKey)
    requires WellFormed(h, m) && n !in Order(m) && n.key != key
    ensures Find(h, Add(h, m, n), key) == Find(h, m, key) <==>
            !MustExpand(h, PushChain(h, AppendItem(m, n), n), n) || AtMostOneWith(Order(m), key)
  {
    hide Find, AtMostOneWith, Expand, WellFormed, MustExpand;
    PushedFind(h, m, n, key);
    OtherKeyAppended(Order(m), n, key);
    var m1 := PushChain(h, AppendItem(m, n), n);
    if MustExpand(h, m1, n) {
      FindAfterExpand(h, m1, key);
    }
  }

  lemma AtMostOneMoves(s: seq<Flow>, t: seq<Flow>, key: FlowKey)
    requires Distinct(s) && Distinct(t)
    requires forall n :: n in t && n.key == key ==> n in s
    ensures AtMostOneWith(s, key) ==> AtMostOneWith(t, key)
  {
    if !AtMostOneWith(t, key) {
      var i, j :| 0 <= i < j < |t| && t[i].key == key && t[j].key == key;
      assert t[i] in t && t[j] in t;
      var a :| 0 <= a < |s| && s[a] == t[i];
      var b :| 0 <= b < |s| && s[b] == t[j];
      assert a < b || b < a;
    }
  }

  lemma FirstVersusLast(chain: seq<Flow>, key: FlowKey)
    requires Distinct(chain)
    ensures FirstWith(chain, key) == LastWith(chain, key) <==> AtMostOneWith(chain, key)
  {
    FirstWithFinds(chain, key);
    FirstWithFirst(chain, key);
    LastWithFinds(chain, key);
  }

  // ----- every history of adds and deletes

  datatype Op = AddOp(n: Flow) | DeleteOp(n: Flow)

  /** Adding an item whose key is in the table already is what callers must not do: HASH_ADD does not look. */
  ghost predicate Enabled(order: seq<Flow>, op: Op) {
    match op
    case AddOp(n) => forall x :: x in order ==> x.key != n.key
    case DeleteOp(n) => n in order
  }

  /** The list a history leaves, with no hashing at all. */
  function ListAfter(ops: seq<Op>): seq<Flow> {
    if ops == [] then []
    else
      var before := ListAfter(ops[..|ops| - 1]);
      match ops[|ops| - 1]
      case AddOp(n) => before + [n]
      case DeleteOp(n) => Remove(before, n)
  }

  ghost predicate Legal(ops: seq<Op>) {
    ops == [] || (Legal(ops[..|ops| - 1]) && Enabled(ListAfter(ops[..|ops| - 1]), ops[|ops| - 1]))
  }

  /** The table a history leaves. */
  ghost function Run(h: Hash, ops: seq<Op>): (m: Model)
    requires Legal(ops)
    ensures WellFormed(h, m) && Order(m) == ListAfter(ops)
  {
    if ops == [] then Absent
    else
      var before := Run(h, ops[..|ops| - 1]);
      match ops[|ops| - 1]
      case AddOp(n) => AddWellFormed(h, before, n); Add(h, before, n)
      case DeleteOp(n) => DeleteWellFormed(h, before, n); Delete(h, before, n)
  }

  lemma RemoveUnique(s: seq<Flow>, n: Flow)
    requires UniqueKeys(s) && n in s
    ensures UniqueKeys(Remove(s, n))
  {
    UniqueDistinct(s);
    var k :| 0 <= k < |s| && s[k] == n;
    RemoveAt(s, k);
  }

  lemma {:induction false} KeysStayUnique(ops: seq<Op>)
    requires Legal(ops)
    ensures UniqueKeys(ListAfter(ops))
  {
    if ops != [] {
      KeysStayUnique(ops[..|ops| - 1]);
      if ops[|ops| - 1].DeleteOp? {
        RemoveUnique(ListAfter(ops[..|ops| - 1]), ops[|ops| - 1].n);
      }
    }
  }

  lemma UniqueDistinct(s: seq<Flow>)
    requires UniqueKeys(s)
    ensures Distinct(s)
  {
    forall i, j | 0 <= i < j < |s|
      ensures s[i] != s[j]
    {
      assert s[i].key != s[j].key;
    }
  }

  /** After any history, with any hash function: the table answers every look-up as the plain list does,
      keys are unique, the chain lengths add up, chains are short until growth is given up, and growth is
      given up exactly when the last two doublings of the table's life were ineffective. */
  lemma {:induction false} EveryHistory(h: Hash, ops: seq<Op>, key: FlowKey)
    requires Legal(ops)
    ensures var m := Run(h, ops);
            && Find(h, m, key) == FirstWith(ListAfter(ops), key)
            && UniqueKeys(Order(m))
            && (m.Tbl? ==> SumCounts(m.chains) == |m.order|)
            && ChainBound(m)
            && HistoryKept(m)
  {
    var m := Run(h, ops);
    KeysStayUnique(ops);
    FindRefinesScan(h, m, key);
    if m.Tbl? {
      CountsAddUp(h, m);
    }
    if ops != [] {
      EveryHistory(h, ops[..|ops| - 1], key);
      var before := Run(h, ops[..|ops| - 1]);
      match ops[|ops| - 1] {
        case AddOp(n) =>
          AddChainBound(h, before, n);
          AddHistory(h, before, n);
        case DeleteOp(n) =>
          DeleteChainBound(h, before, n);
      }
    }
  }

  lemma OneStepOff(h: Hash, before: seq<Op>, op: Op)
    requires Legal(before) && Legal(before + [op])
    requires Run(h, before).Tbl? && Run(h, before).noexpand && ListAfter(before + [op]) != []
    ensures var m := Run(h, before + [op]);
            m.Tbl? && m.noexpand && m.log2 == Run(h, before).log2
  {
    hide Expand;
    assert (before + [op])[..|before|] == before;
  }

  /** Once growth is given up, the number of buckets stays until the table is emptied. */
  lemma {:induction false} GrowthStaysOff(h: Hash, ops: seq<Op>, since: nat)
    requires Legal(ops) && since <= |ops|
    requires Legal(ops[..since])
    requires Run(h, ops[..since]).Tbl? && Run(h, ops[..since]).noexpand
    requires forall i :: since <= i <= |ops| ==> ListAfter(ops[..i]) != []
    ensures var m := Run(h, ops);
            m.Tbl? && m.noexpand && m.log2 == Run(h, ops[..since]).log2
    decreases |ops|
  {
    hide Run, ListAfter;
    var k := |ops| - 1;
    if since == |ops| {
      assert ops[..since] == ops;
    } else {
      forall i | since <= i <= k
        ensures ListAfter(ops[..k][..i]) != []
      {
        assert ops[..k][..i] == ops[..i];
      }
      assert ops[..k][..since] == ops[..since];
      GrowthStaysOff(h, ops[..k], since);
      assert ops[..k + 1] == ops == ops[..k] + [ops[k]];
      OneStepOff(h, ops[..k], ops[k]);
    }
  }
}
