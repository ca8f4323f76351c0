/** The uthash macros on pointers. Each one is proved to compute the function of UthashModel that has its
    name; `t.model` is the value a table represents and Valid says how. */
module Uthash {
  import opened Bits
  import opened FlowTypes
  import opened UthashModel
  import Laws = UthashLaws

  // ----- what the pointers represent

  /** s is the list that prev and next thread. */
  ghost predicate AppLinked(s: seq<Flow>)
    reads s`next, s`prev
  {
    && (s != [] ==> s[0].prev == null && s[|s| - 1].next == null)
    && (forall i {:trigger s[i].prev} :: 0 < i < |s| ==> s[i].prev == s[i - 1])
    && (forall i {:trigger s[i].next} :: 0 <= i < |s| - 1 ==> s[i].next == s[i + 1])
  }

  ghost predicate NextLinked(s: seq<Flow>)
    reads s`hhNext
  {
    && (s != [] ==> s[|s| - 1].hhNext == null)
    && (forall i {:trigger s[i].hhNext} :: 0 <= i < |s| - 1 ==> s[i].hhNext == s[i + 1])
  }

  /** s is the chain that hh_prev and hh_next thread. */
  ghost predicate ChainLinked(s: seq<Flow>)
    reads s`hhNext, s`hhPrev
  {
    && NextLinked(s)
    && (s != [] ==> s[0].hhPrev == null)
    && (forall i {:trigger s[i].hhPrev} :: 0 < i < |s| ==> s[i].hhPrev == s[i - 1])
  }

  ghost function HeadOf(s: seq<Flow>): Flow? {
    if s == [] then null else s[0]
  }

  /** The bucket array holds these chains and multipliers. */
  ghost predicate BucketsHold(buckets: array<Bucket>, chains: seq<seq<Flow>>, mults: seq<nat>, nodes: set<Flow>)
    reads buckets, nodes`hhNext, nodes`hhPrev
  {
    && buckets.Length == |chains| == |mults|
    && forall c :: 0 <= c < |chains| ==>
         && buckets[c] == Bucket(HeadOf(chains[c]), |chains[c]|, mults[c])
         && (forall n :: n in chains[c] ==> n in nodes)
         && ChainLinked(chains[c])
  }

  ghost function Nodes(s: seq<Flow>): set<Flow> {
    set n | n in s
  }

  ghost predicate DisjointChains(chains: seq<seq<Flow>>) {
    forall c, d, n :: 0 <= c < |chains| && 0 <= d < |chains| && c != d && n in chains[c] ==> n !in chains[d]
  }

  /** The scalar fields hold the model's counters. */
  ghost predicate CountersHold(t: Table)
    reads t
  {
    && t.model.Tbl?
    && t.numBuckets == |t.model.chains| && t.log2NumBuckets == t.model.log2
    && t.idealChainMaxlen == t.model.ideal && t.nonidealItems == t.model.nonideal
    && t.ineffExpands == t.model.ineff && t.noexpand == t.model.noexpand
  }

  ghost predicate Hashed(h: Hash, s: seq<Flow>)
    reads s`hashv
  {
    forall n :: n in s ==> n.hashv == HashOf(h, n.key)
  }

  ghost predicate ItemsLive(h: Hash, t: Table, s: seq<Flow>)
    reads s`tbl, s`hashv, s`freed
  {
    Hashed(h, s) && forall n :: n in s ==> n.tbl == t && !n.freed
  }

  /** The application-order list holds the model's items, every one of them live and hashed. */
  ghost predicate ListHolds(h: Hash, t: Table)
    reads t`model, t`tail, t`numItems,
          Order(t.model)`next, Order(t.model)`prev, Order(t.model)`tbl, Order(t.model)`hashv, Order(t.model)`freed
  {
    var s := Order(t.model);
    && s != [] && AppLinked(s) && t.tail == s[|s| - 1] && t.numItems == |s|
    && ItemsLive(h, t, s)
  }

  ghost predicate ChainsHold(t: Table)
    reads t`model, t`buckets, t.buckets, Order(t.model)`hhNext, Order(t.model)`hhPrev
  {
    t.model.Tbl? && BucketsHold(t.buckets, t.model.chains, t.model.mults, Nodes(t.model.order))
  }

  /** HASH_FSCK, with the model. */
  ghost predicate Valid(h: Hash, t: Table)
    reads t, t.buckets, Order(t.model)`next, Order(t.model)`prev, Order(t.model)`tbl, Order(t.model)`hashv,
          Order(t.model)`freed, Order(t.model)`hhNext, Order(t.model)`hhPrev
  {
    !t.freed && CountersHold(t) && ListHolds(h, t) && ChainsHold(t) && WellFormed(h, t.model)
  }

  ghost function TableSet(t: Table?): set<Table> {
    if t == null then {} else {t}
  }

  ghost function ModelOf(t: Table?): Model
    reads TableSet(t)`model
  {
    if t == null then Absent else t.model
  }

  ghost function ItemsOf(t: Table?): set<Flow>
    reads TableSet(t)`model
  {
    Nodes(Order(ModelOf(t)))
  }

  ghost function BucketsOf(t: Table?): set<object>
    reads TableSet(t)`buckets
  {
    if t == null then {} else {t.buckets}
  }

  /** head is what the caller's variable holds: NULL when there is no table, or else the first item. */
  ghost predicate IsTable(h: Hash, head: Flow?, t: Table?)
    reads t, BucketsOf(t), ItemsOf(t)`next, ItemsOf(t)`prev, ItemsOf(t)`tbl, ItemsOf(t)`hashv,
          ItemsOf(t)`freed, ItemsOf(t)`hhNext, ItemsOf(t)`hhPrev
  {
    if t == null then head == null else Valid(h, t) && head == t.model.order[0]
  }

  // ----- linking an item in front of a chain

  ghost function HeadSet(head: Flow?): set<Flow> {
    if head == null then {} else {head}
  }

  /** The pointer half of HASH_ADD_TO_BKT, and of the inner step of HASH_EXPAND_BUCKETS. */
  method PushFront(buckets: array<Bucket>, b: nat, n: Flow,
                   ghost chains: seq<seq<Flow>>, ghost mults: seq<nat>, ghost nodes: set<Flow>)
    requires BucketsHold(buckets, chains, mults, nodes) && DisjointChains(chains)
    requires b < buckets.Length && forall c :: 0 <= c < |chains| ==> n !in chains[c]
    modifies buckets, n`hhNext, n`hhPrev, HeadSet(buckets[b].hhHead)`hhPrev
    ensures buckets[b] == old(buckets[b]).(hhHead := n)
    ensures forall c :: 0 <= c < buckets.Length && c != b ==> buckets[c] == old(buckets[c])
    ensures forall c :: 0 <= c < |chains| && c != b ==> ChainLinked(chains[c])
    ensures ChainLinked([n] + chains[b])
  {
    var first := buckets[b].hhHead;
    n.hhNext := first;
    n.hhPrev := null;
    if first != null {
      first.hhPrev := n;
    }
    buckets[b] := buckets[b].(hhHead := n);
    forall c | 0 <= c < |chains| && c != b
      ensures ChainLinked(chains[c])
    {
      assert n !in chains[c];
      assert chains[b] != [] ==> chains[b][0] in chains[b];
    }
  }

  // ----- bucket doubling

  lemma PlacedOwnBucket(h: Hash, numBuckets: nat, ns: seq<Flow>, ideal: nat)
    requires numBuckets > 0
    ensures var g := PlaceAll(h, numBuckets, ns, ideal);
            DisjointChains(g.chains) && forall c, n :: 0 <= c < numBuckets && n in g.chains[c] ==> n in ns
  {
    var g := PlaceAll(h, numBuckets, ns, ideal);
    forall c, n | 0 <= c < numBuckets && n in g.chains[c]
      ensures Bkt(h, n, numBuckets) == c && n in ns
    {
      Laws.PlacedChain(h, numBuckets, ns, ideal, c);
      Laws.LastFirstElements(h, ns, c, numBuckets);
    }
    forall c, d, n | 0 <= c < numBuckets && 0 <= d < numBuckets && c != d && n in g.chains[c]
      ensures n !in g.chains[d]
    {
      assert Bkt(h, n, numBuckets) == c;
    }
  }

  /** The new bucket array after the items ns were moved to it. */
  ghost predicate Placed(h: Hash, buckets: array<Bucket>, ns: seq<Flow>, ideal: nat)
    requires buckets.Length > 0
    reads buckets, ns`hhNext, ns`hhPrev
  {
    var g := PlaceAll(h, buckets.Length, ns, ideal);
    BucketsHold(buckets, g.chains, g.mults, Nodes(ns))
  }

  /** One turn of the inner loop of HASH_EXPAND_BUCKETS. */
  method PlaceOne(h: Hash, buckets: array<Bucket>, thh: Flow, ideal: nat, nonidealIn: nat,
                  ghost ns: seq<Flow>, ghost all: set<Flow>)
    returns (nonideal: nat)
    requires buckets.Length > 0 && thh !in ns && thh.hashv == HashOf(h, thh.key)
    requires thh in all && forall n :: n in ns ==> n in all
    requires Placed(h, buckets, ns, ideal) && nonidealIn == PlaceAll(h, buckets.Length, ns, ideal).nonideal
    modifies buckets, all`hhNext, all`hhPrev
    ensures Placed(h, buckets, ns + [thh], ideal)
    ensures forall n :: n in all && n != thh ==> n.hhNext == old(n.hhNext)
    ensures nonideal == PlaceAll(h, buckets.Length, ns + [thh], ideal).nonideal
  {
    nonideal := nonidealIn;
    ghost var nb, g := buckets.Length, PlaceAll(h, buckets.Length, ns, ideal);
    PlacedOwnBucket(h, nb, ns, ideal);
    var b := And(thh.hashv, buckets.Length - 1);
    assert b == Bkt(h, thh, nb);
    assert g.chains[b] != [] ==> g.chains[b][0] in g.chains[b];
    PushFront(buckets, b, thh, g.chains, g.mults, Nodes(ns));
    var bucket := buckets[b].(count := buckets[b].count + 1);
    if bucket.count > ideal {
      nonideal := nonideal + 1;
      if bucket.count > bucket.expandMult * ideal {
        bucket := bucket.(expandMult := bucket.expandMult + 1);
      }
    }
    buckets[b] := bucket;
    assert (ns + [thh])[..|ns + [thh]| - 1] == ns;
    assert PlaceAll(h, nb, ns + [thh], ideal) == Place(h, g, thh, ideal);
  }

  /** The inner loop of HASH_EXPAND_BUCKETS: one old chain, from its head. */
  method MoveChain(h: Hash, buckets: array<Bucket>, head: Flow?, ideal: nat, nonidealIn: nat,
                   ghost chain: seq<Flow>, ghost ns: seq<Flow>, ghost all: set<Flow>)
    returns (nonideal: nat)
    requires buckets.Length > 0 && head == HeadOf(chain) && NextLinked(chain) && Distinct(chain)
    requires Hashed(h, chain) && forall n :: n in chain ==> n !in ns
    requires (forall n :: n in ns ==> n in all) && (forall n :: n in chain ==> n in all)
    requires Placed(h, buckets, ns, ideal) && nonidealIn == PlaceAll(h, buckets.Length, ns, ideal).nonideal
    modifies buckets, all`hhNext, all`hhPrev
    ensures Placed(h, buckets, ns + chain, ideal)
    ensures forall n :: n in all && n !in ns && n !in chain ==> n.hhNext == old(n.hhNext)
    ensures nonideal == PlaceAll(h, buckets.Length, ns + chain, ideal).nonideal
  {
    hide PlaceAll, Placed;
    nonideal := nonidealIn;
    var thh := head;
    ghost var j, done := 0, ns;
    while thh != null
      invariant 0 <= j <= |chain| && thh == (if j < |chain| then chain[j] else null)
      invariant forall n :: n in all && n !in done ==> n.hhNext == old(n.hhNext)
      invariant Placed(h, buckets, done, ideal) && done == ns + chain[..j]
      invariant nonideal == PlaceAll(h, buckets.Length, done, ideal).nonideal
      decreases |chain| - j
    {
      var next := thh.hhNext;
      assert thh == chain[j] && thh in chain && thh !in done;
      nonideal := PlaceOne(h, buckets, thh, ideal, nonideal, done, all);
      done := done + [chain[j]];
      thh := next;
      j := j + 1;
    }
    assert chain[..j] == chain;
  }

  /** The chains split the items between them. */
  ghost predicate Partition(chains: seq<seq<Flow>>, all: set<Flow>) {
    && DisjointChains(chains)
    && forall c :: 0 <= c < |chains| ==> Distinct(chains[c]) && forall n :: n in chains[c] ==> n in all
  }

  lemma EarlierItems(chains: seq<seq<Flow>>, all: set<Flow>, i: nat)
    requires Partition(chains, all) && i < |chains|
    ensures Distinct(chains[i]) && Flatten(chains[..i + 1]) == Flatten(chains[..i]) + chains[i]
    ensures forall n :: n in Flatten(chains[..i]) ==> n in all && n !in chains[i]
    ensures forall n :: n in chains[i] ==> n in all && n !in Flatten(chains[..i])
    ensures forall c, n :: i < c < |chains| && n in chains[c] ==>
              n in all && n !in chains[i] && n !in Flatten(chains[..i])
  {
    assert chains[..i + 1][..i] == chains[..i];
    forall n | n in Flatten(chains[..i])
      ensures exists b :: 0 <= b < i && n in chains[b]
    {
      Laws.FlattenIn(chains[..i], n);
      var b :| 0 <= b < i && n in chains[..i][b];
      assert n in chains[b];
    }
  }

  /** The outer loop of HASH_EXPAND_BUCKETS: every old bucket in turn. */
  method MoveAll(h: Hash, buckets: array<Bucket>, newBuckets: array<Bucket>, ideal: nat,
                 ghost chains: seq<seq<Flow>>, ghost all: set<Flow>)
    returns (nonideal: nat)
    requires newBuckets != buckets && newBuckets.Length > 0 && buckets.Length == |chains|
    requires forall c :: 0 <= c < |chains| ==>
               buckets[c].hhHead == HeadOf(chains[c]) && NextLinked(chains[c]) && Hashed(h, chains[c])
    requires Partition(chains, all) && Placed(h, newBuckets, [], ideal)
    modifies newBuckets, all`hhNext, all`hhPrev
    ensures Placed(h, newBuckets, Flatten(chains), ideal)
    ensures nonideal == PlaceAll(h, newBuckets.Length, Flatten(chains), ideal).nonideal
  {
    nonideal := 0;
    var i := 0;
    while i < buckets.Length
      invariant 0 <= i <= buckets.Length
      invariant Placed(h, newBuckets, Flatten(chains[..i]), ideal)
      invariant nonideal == PlaceAll(h, newBuckets.Length, Flatten(chains[..i]), ideal).nonideal
      invariant forall c :: i <= c < |chains| ==> NextLinked(chains[c])
    {
      EarlierItems(chains, all, i);
      nonideal := MoveChain(h, newBuckets, buckets[i].hhHead, ideal, nonideal, chains[i], Flatten(chains[..i]), all);
      i := i + 1;
    }
    assert chains[..i] == chains;
  }

  /** r is m after a doubling, held by the new array. */
  ghost predicate Expanded(h: Hash, m: Model, buckets: array<Bucket>, ideal: nat, nonideal: nat, r: Model)
    reads buckets, Order(m)`hhNext, Order(m)`hhPrev
  {
    && m.Tbl? && r.Tbl? && r.order == m.order && WellFormed(h, r)
    && BucketsHold(buckets, r.chains, r.mults, Nodes(m.order))
    && |r.chains| == |m.chains| * 2 && r.log2 == m.log2 + 1
    && r.ideal == ideal && r.nonideal == nonideal
    && r.ineff == (if nonideal > Shr(|m.order|, 1) then m.ineff + 1 else 0)
    && r.noexpand == (m.noexpand || r.ineff > 1)
  }

  lemma PlacedExpands(h: Hash, m: Model, buckets: array<Bucket>, ideal: nat, nonideal: nat) returns (r: Model)
    requires m.Tbl? && WellFormed(h, m) && buckets.Length == |m.chains| * 2
    requires ideal == IdealMaxlen(|m.order|, m.log2) && Placed(h, buckets, Flatten(m.chains), ideal)
    requires nonideal == PlaceAll(h, buckets.Length, Flatten(m.chains), ideal).nonideal
    ensures r == Expand(h, m) && Expanded(h, m, buckets, ideal, nonideal, r)
  {
    Laws.FlattenOfBuckets(h, m);
    Laws.ExpandWellFormed(h, m);
    r := Expand(h, m);
    forall c | 0 <= c < |r.chains|
      ensures forall n :: n in r.chains[c] ==> n in Nodes(m.order)
    {
      assert IsBucket(h, r.chains[c], r.order, c, |r.chains|);
    }
  }

  /** The end of HASH_EXPAND_BUCKETS: two ineffective doublings in a row stop growth. */
  method JudgeExpansion(t: Table)
    modifies t`ineffExpands, t`noexpand
    ensures t.ineffExpands == if t.nonidealItems > Shr(t.numItems, 1) then old(t.ineffExpands) + 1 else 0
    ensures t.noexpand == (old(t.noexpand) || t.ineffExpands > 1)
  {
    t.ineffExpands := if t.nonidealItems > Shr(t.numItems, 1) then t.ineffExpands + 1 else 0;
    if t.ineffExpands > 1 {
      t.noexpand := true;
    }
  }

  /** The last part of HASH_EXPAND_BUCKETS: the new array replaces the old one. */
  method InstallBuckets(h: Hash, t: Table, newBuckets: array<Bucket>, ideal: nat, nonideal: nat, ghost r: Model)
    requires CountersHold(t) && ListHolds(h, t) && !t.freed
    requires Expanded(h, t.model, newBuckets, ideal, nonideal, r)
    modifies t
    ensures Valid(h, t) && t.model == r && t.buckets == newBuckets
  {
    hide AppLinked, BucketsHold;
    t.model := r;
    assert ListHolds(h, t);
    t.idealChainMaxlen := ideal;
    t.nonidealItems := nonideal;
    t.numBuckets := t.numBuckets * 2;
    t.log2NumBuckets := t.log2NumBuckets + 1;
    t.buckets := newBuckets;
    JudgeExpansion(t);
  }

  lemma PartitionOf(h: Hash, m: Model)
    requires m.Tbl? && WellFormed(h, m)
    ensures Partition(m.chains, Nodes(m.order))
  {
    forall c | 0 <= c < |m.chains|
      ensures IsBucket(h, m.chains[c], m.order, c, |m.chains|)
    {}
  }

  /** The middle of HASH_EXPAND_BUCKETS: a new array with every item moved to it. */
  method FillBuckets(h: Hash, t: Table, ideal: nat)
    returns (newBuckets: array<Bucket>, nonideal: nat, ghost r: Model)
    requires ListHolds(h, t) && ChainsHold(t) && WellFormed(h, t.model) && t.numBuckets == |t.model.chains|
    requires ideal == IdealMaxlen(|t.model.order|, t.model.log2)
    modifies Nodes(Order(t.model))`hhNext, Nodes(Order(t.model))`hhPrev
    ensures fresh(newBuckets)
    ensures r == Expand(h, t.model) && Expanded(h, t.model, newBuckets, ideal, nonideal, r)
  {
    newBuckets := new Bucket[t.numBuckets * 2](_ => Bucket(null, 0, 0));
    PartitionOf(h, t.model);
    nonideal := MoveAll(h, t.buckets, newBuckets, ideal, t.model.chains, Nodes(Order(t.model)));
    r := PlacedExpands(h, t.model, newBuckets, ideal, nonideal);
  }

  /** HASH_EXPAND_BUCKETS. */
  method ExpandBuckets(h: Hash, t: Table)
    requires Valid(h, t)
    modifies t, Nodes(Order(t.model))`hhNext, Nodes(Order(t.model))`hhPrev
    ensures Valid(h, t) && t.model == Expand(h, old(t.model))
    ensures fresh(t.buckets)
  {
    var ideal := Shr(t.numItems, t.log2NumBuckets + 1)
      + (if And(t.numItems, t.numBuckets * 2 - 1) != 0 then 1 else 0);
    var newBuckets, nonideal;
    ghost var r;
    newBuckets, nonideal, r := FillBuckets(h, t, ideal);
    InstallBuckets(h, t, newBuckets, ideal, nonideal, r);
  }

  // ----- HASH_ADD

  /** order holds the items of s, and n. */
  ghost predicate Extends(order: seq<Flow>, s: seq<Flow>, n: Flow) {
    && Distinct(order) && Distinct(s) && |order| == |s| + 1 && n !in s && n in order
    && (forall x :: x in s ==> x in order)
    && (forall x :: x in order ==> x in s || x == n)
  }

  /** Between the list half and the bucket half of HASH_ADD: n is in the list, with the items s, and in no
      chain. */
  ghost predicate HalfAdded(h: Hash, t: Table, n: Flow, s: seq<Flow>)
    reads t, t.buckets, Order(t.model)`next, Order(t.model)`prev, Order(t.model)`tbl, Order(t.model)`hashv,
          Order(t.model)`freed, Order(t.model)`hhNext, Order(t.model)`hhPrev
  {
    && !t.freed && CountersHold(t) && ListHolds(h, t) && ChainsHold(t)
    && Sized(t.model) && Extends(t.model.order, s, n) && AreBuckets(h, t.model.chains, s)
  }

  lemma PushedBuckets(h: Hash, m: Model, n: Flow, s: seq<Flow>)
    requires Sized(m) && Extends(m.order, s, n) && AreBuckets(h, m.chains, s)
    ensures DisjointChains(m.chains) && WellFormed(h, PushChain(h, m, n))
    ensures forall c :: 0 <= c < |m.chains| ==> n !in m.chains[c]
    ensures forall c :: 0 <= c < |m.chains| && m.chains[c] != [] ==> m.chains[c][0] in m.order
  {
    Laws.PushBuckets(h, m.chains, s, n);
    var r := PushChain(h, m, n);
    forall c | 0 <= c < |r.chains|
      ensures IsBucket(h, r.chains[c], r.order, c, |r.chains|)
    {
      assert IsBucket(h, r.chains[c], s + [n], c, |r.chains|);
    }
    forall c | 0 <= c < |m.chains|
      ensures n !in m.chains[c] && (m.chains[c] != [] ==> m.chains[c][0] in m.order)
    {
      assert IsBucket(h, m.chains[c], s, c, |m.chains|);
      assert m.chains[c] != [] ==> m.chains[c][0] in m.chains[c];
    }
  }

  /** The count and the links of HASH_ADD_TO_BKT. */
  method PushCounted(buckets: array<Bucket>, b: nat, n: Flow,
                     ghost chains: seq<seq<Flow>>, ghost mults: seq<nat>, ghost nodes: set<Flow>)
    requires BucketsHold(buckets, chains, mults, nodes) && DisjointChains(chains) && b < |chains| && n in nodes
    requires forall c :: 0 <= c < |chains| ==> n !in chains[c]
    modifies buckets, nodes`hhNext, nodes`hhPrev
    ensures BucketsHold(buckets, chains[b := [n] + chains[b]], mults, nodes)
  {
    assert chains[b] != [] ==> chains[b][0] in chains[b];
    PushFront(buckets, b, n, chains, mults, nodes);
    buckets[b] := buckets[b].(count := buckets[b].count + 1);
  }

  /** HASH_ADD_TO_BKT up to its test. */
  method LinkInBkt(h: Hash, t: Table, b: nat, n: Flow, ghost s: seq<Flow>)
    requires HalfAdded(h, t, n, s) && b == Bkt(h, n, |t.model.chains|)
    modifies t`model, t.buckets, Nodes(Order(t.model))`hhNext, Nodes(Order(t.model))`hhPrev
    ensures Valid(h, t) && t.model == PushChain(h, old(t.model), n)
  {
    hide AppLinked, BucketsHold;
    ghost var m := t.model;
    PushedBuckets(h, m, n, s);
    PushCounted(t.buckets, b, n, m.chains, m.mults, Nodes(m.order));
    t.model := PushChain(h, m, n);
  }

  /** HASH_ADD_TO_BKT. */
  method AddToBkt(h: Hash, t: Table, b: nat, n: Flow, ghost s: seq<Flow>)
    requires HalfAdded(h, t, n, s) && b == Bkt(h, n, |t.model.chains|)
    modifies t, t.buckets, Nodes(Order(t.model))`hhNext, Nodes(Order(t.model))`hhPrev
    ensures Valid(h, t) && t.model == UthashModel.AddToBkt(h, old(t.model), n)
    ensures t.buckets == old(t.buckets) || fresh(t.buckets)
  {
    LinkInBkt(h, t, b, n, s);
    if t.buckets[b].count >= Threshold(t.buckets[b].expandMult) && !t.noexpand {
      ExpandBuckets(h, t);
    }
  }

  /** HASH_APPEND_LIST. */
  method AppendList(t: Table, add: Flow)
    requires Order(t.model) != [] && AppLinked(Order(t.model)) && add !in Order(t.model)
    requires t.tail == Order(t.model)[|Order(t.model)| - 1]
    modifies add`next, add`prev, {t.tail}`next, t`tail
    ensures AppLinked(Order(t.model) + [add]) && t.tail == add
  {
    add.next := null;
    add.prev := t.tail;
    t.tail.next := add;
    t.tail := add;
  }

  /** HASH_MAKE_TABLE: the first item brings its own table. */
  method MakeTable(h: Hash, add: Flow) returns (t: Table)
    requires add.prev == null && add.next == null && !add.freed && add.hashv == HashOf(h, add.key)
    modifies add`tbl
    ensures fresh(t) && fresh(t.buckets) && add.tbl == t
    ensures !t.freed && t.model == AppendItem(Absent, add) && t.numItems == 0 && t.tail == add
    ensures CountersHold(t) && ChainsHold(t)
  {
    var buckets := new Bucket[Pow2(INITIAL_LOG2)](_ => Bucket(null, 0, 0));
    t := new Table(buckets, add);
    t.numBuckets, t.log2NumBuckets, t.numItems := Pow2(INITIAL_LOG2), INITIAL_LOG2, 0;
    t.idealChainMaxlen, t.nonidealItems, t.ineffExpands, t.noexpand := 0, 0, 0, false;
    add.tbl := t;
    t.model := AppendItem(Absent, add);
  }

  /** After the list half of HASH_ADD, before the item is counted. */
  ghost predicate Listed(h: Hash, t: Table, add: Flow, s: seq<Flow>)
    reads t, t.buckets, Order(t.model)`next, Order(t.model)`prev, Order(t.model)`tbl, Order(t.model)`hashv,
          Order(t.model)`freed, Order(t.model)`hhNext, Order(t.model)`hhPrev
  {
    && !t.freed && CountersHold(t) && ChainsHold(t) && Sized(t.model)
    && AppLinked(t.model.order) && ItemsLive(h, t, t.model.order)
    && t.numItems + 1 == |t.model.order| && t.tail == t.model.order[t.numItems]
    && Extends(t.model.order, s, add) && AreBuckets(h, t.model.chains, s)
  }

  /** HASH_ADD_TO_TABLE. */
  method AddToTable(h: Hash, t: Table, add: Flow, ghost s: seq<Flow>)
    requires Listed(h, t, add, s)
    modifies t, t.buckets, Nodes(Order(t.model))`hhNext, Nodes(Order(t.model))`hhPrev
    ensures Valid(h, t) && t.model == UthashModel.AddToBkt(h, old(t.model), add)
    ensures t.buckets == old(t.buckets) || fresh(t.buckets)
  {
    t.numItems := t.numItems + 1;
    var bkt := And(add.hashv, t.numBuckets - 1);
    AddToBkt(h, t, bkt, add, s);
  }

  /** HASH_ADD to an empty table. */
  method AddFirst(h: Hash, add: Flow) returns (tbl: Table)
    requires !add.freed && add.hashv == HashOf(h, add.key)
    modifies add`next, add`prev, add`tbl, add`hhNext, add`hhPrev
    ensures fresh(tbl) && fresh(tbl.buckets) && Valid(h, tbl) && tbl.model == Add(h, Absent, add)
  {
    add.next := null;
    add.prev := null;
    tbl := MakeTable(h, add);
    AddToTable(h, tbl, add, []);
  }

  /** The list half of HASH_ADD to a table with items. */
  method LinkLast(h: Hash, tbl: Table, add: Flow, ghost s: seq<Flow>)
    requires s == Order(tbl.model) && s != [] && AppLinked(s) && ItemsLive(h, tbl, s) && tbl.tail == s[|s| - 1]
    requires add !in s && !add.freed && add.hashv == HashOf(h, add.key)
    modifies add`next, add`prev, add`tbl, tbl`tail, Nodes(s)`next
    ensures AppLinked(s + [add]) && ItemsLive(h, tbl, s + [add]) && tbl.tail == add
  {
    add.tbl := tbl;
    AppendList(tbl, add);
  }

  lemma MoreNodes(buckets: array<Bucket>, chains: seq<seq<Flow>>, mults: seq<nat>, nodes: set<Flow>, all: set<Flow>)
    requires BucketsHold(buckets, chains, mults, nodes) && nodes <= all
    ensures BucketsHold(buckets, chains, mults, all)
  {
  }

  /** HASH_ADD to a table with items. */
  method AddNext(h: Hash, tbl: Table, add: Flow)
    requires Valid(h, tbl) && !add.freed && add.hashv == HashOf(h, add.key) && add !in tbl.model.order
    modifies add`next, add`prev, add`tbl, add`hhNext, add`hhPrev
    modifies tbl, tbl.buckets, Nodes(Order(tbl.model))`next
    modifies Nodes(Order(tbl.model))`hhNext, Nodes(Order(tbl.model))`hhPrev
    ensures Valid(h, tbl) && tbl.model == Add(h, old(tbl.model), add)
    ensures tbl.buckets == old(tbl.buckets) || fresh(tbl.buckets)
  {
    hide AppLinked, BucketsHold;
    ghost var s := tbl.model.order;
    LinkLast(h, tbl, add, s);
    MoreNodes(tbl.buckets, tbl.model.chains, tbl.model.mults, Nodes(s), Nodes(s + [add]));
    tbl.model := AppendItem(tbl.model, add);
    AddToTable(h, tbl, add, s);
  }

  /** HASH_ADD. The caller's head variable goes in and out. */
  method HashAdd(h: Hash, head: Flow?, add: Flow, ghost t: Table?) returns (head': Flow, ghost t': Table)
    requires IsTable(h, head, t) && !add.freed && add !in ItemsOf(t)
    modifies add`hashv, add`next, add`prev, add`tbl, add`hhNext, add`hhPrev
    modifies t, BucketsOf(t), ItemsOf(t)`next, ItemsOf(t)`hhNext, ItemsOf(t)`hhPrev
    ensures IsTable(h, head', t') && t'.model == Add(h, old(ModelOf(t)), add)
    ensures head' == if head == null then add else head
    ensures if t == null then fresh(t') else t' == t
    ensures t == null || t'.buckets != old(t.buckets) ==> fresh(t'.buckets)
  {
    add.hashv := HashOf(h, add.key);
    if head == null {
      head' := add;
      t' := AddFirst(h, add);
      Laws.AddWellFormed(h, Absent, add);
    } else {
      head', t' := head, t;
      AddNext(h, head.tbl, add);
      Laws.AddWellFormed(h, old(t.model), add);
    }
  }

  // ----- HASH_FIND

  lemma {:induction false} FirstWithSkips(chain: seq<Flow>, key: FlowKey, j: nat)
    requires j <= |chain| && forall i :: 0 <= i < j ==> chain[i].key != key
    ensures FirstWith(chain, key) == FirstWith(chain[j..], key)
  {
    if j == 0 {
      assert chain[0..] == chain;
    } else {
      FirstWithSkips(chain[1..], key, j - 1);
      assert chain[1..][j - 1..] == chain[j..];
    }
  }

  /** HASH_FIND_IN_BKT. */
  method FindInBkt(h: Hash, head: Flow?, key: FlowKey, hashval: nat, ghost chain: seq<Flow>) returns (out: Flow?)
    requires head == HeadOf(chain) && NextLinked(chain) && hashval == HashOf(h, key)
    requires Hashed(h, chain)
    ensures out == FirstWith(chain, key)
  {
    out := head;
    ghost var j := 0;
    while out != null
      invariant 0 <= j <= |chain| && out == (if j < |chain| then chain[j] else null)
      invariant forall i :: 0 <= i < j ==> chain[i].key != key
      decreases |chain| - j
    {
      assert out in chain;
      if out.hashv == hashval {
        if out.key == key {
          break;
        }
      }
      out := out.hhNext;
      j := j + 1;
    }
    FirstWithSkips(chain, key, j);
  }

  /** HASH_FIND. */
  method HashFind(h: Hash, head: Flow?, key: FlowKey, ghost t: Table?) returns (out: Flow?)
    requires IsTable(h, head, t)
    ensures out == Find(h, ModelOf(t), key)
  {
    out := null;
    if head != null {
      var tbl := head.tbl;
      var hashv := HashOf(h, key);
      var bkt := And(hashv, tbl.numBuckets - 1);
      assert IsBucket(h, tbl.model.chains[bkt], tbl.model.order, bkt, tbl.numBuckets);
      out := FindInBkt(h, tbl.buckets[bkt].hhHead, key, hashv, tbl.model.chains[bkt]);
    }
  }

  // ----- HASH_DELETE

  ghost predicate Without(s: seq<Flow>, k: nat, rest: seq<Flow>) {
    k < |s| && rest == s[..k] + s[k + 1..]
  }

  /** The list half of HASH_DELETE_HH. */
  method Unlink(t: Table, head: Flow, del: Flow, ghost s: seq<Flow>, ghost k: nat, ghost rest: seq<Flow>)
    returns (head': Flow)
    requires Without(s, k, rest) && s[k] == del && |s| > 1 && AppLinked(s) && Distinct(s)
    requires head == s[0] && t.tail == s[|s| - 1]
    modifies t`tail, Nodes(s)`next, Nodes(s)`prev
    ensures AppLinked(rest) && head' == rest[0] && t.tail == rest[|rest| - 1]
  {
    assert del.prev == if k > 0 then s[k - 1] else null;
    assert del.next == if k < |s| - 1 then s[k + 1] else null;
    head' := head;
    if del == t.tail {
      t.tail := del.prev;
    }
    if del.prev != null {
      del.prev.next := del.next;
    } else {
      head' := del.next;
    }
    if del.next != null {
      del.next.prev := del.prev;
    }
    assert forall i :: 0 <= i < |rest| ==> rest[i] == s[if i < k then i else i + 1];
    assert forall i {:trigger rest[i].next} :: 0 <= i < |rest| - 1 ==> rest[i].next == rest[i + 1];
    assert forall i {:trigger rest[i].prev} :: 0 < i < |rest| ==> rest[i].prev == rest[i - 1];
  }

  /** The pointer half of HASH_DEL_IN_BKT. */
  method Unchain(del: Flow, ghost s: seq<Flow>, ghost k: nat, ghost rest: seq<Flow>)
    requires Without(s, k, rest) && s[k] == del && ChainLinked(s) && Distinct(s)
    modifies Nodes(s)`hhNext, Nodes(s)`hhPrev
    ensures ChainLinked(rest) && del.hhNext == old(del.hhNext)
  {
    if del.hhPrev != null {
      del.hhPrev.hhNext := del.hhNext;
    }
    if del.hhNext != null {
      del.hhNext.hhPrev := del.hhPrev;
    }
  }

  /** HASH_DEL_IN_BKT. */
  method DelInBkt(buckets: array<Bucket>, b: nat, del: Flow, ghost chains: seq<seq<Flow>>,
                  ghost mults: seq<nat>, ghost nodes: set<Flow>, ghost k: nat, ghost rest: seq<Flow>)
    requires BucketsHold(buckets, chains, mults, nodes) && DisjointChains(chains)
    requires b < |chains| && Without(chains[b], k, rest) && chains[b][k] == del && Distinct(chains[b])
    modifies buckets, Nodes(chains[b])`hhNext, Nodes(chains[b])`hhPrev
    ensures BucketsHold(buckets, chains[b := rest], mults, nodes)
  {
    ghost var chain := chains[b];
    var bucket := buckets[b].(count := buckets[b].count - 1);
    if bucket.hhHead == del {
      bucket := bucket.(hhHead := del.hhNext);
    }
    assert bucket.hhHead == HeadOf(rest);
    buckets[b] := bucket;
    Unchain(del, chain, k, rest);
    forall c | 0 <= c < |chains| && c != b
      ensures ChainLinked(chains[c])
    {
      assert forall n :: n in chain ==> n !in chains[c];
    }
    forall n | n in rest
      ensures n in nodes
    {
      assert n in chain;
    }
  }

  /** r is m without the item at place k of the list and place j of its chain b. */
  ghost predicate Shrunk(m: Model, b: nat, k: nat, j: nat, r: Model) {
    && m.Tbl? && r.Tbl? && b < |m.chains| == |r.chains|
    && Distinct(m.order) && Distinct(m.chains[b]) && DisjointChains(m.chains)
    && Without(m.order, k, r.order) && Without(m.chains[b], j, r.chains[b]) && m.order[k] == m.chains[b][j]
    && r == m.(order := r.order, chains := m.chains[b := r.chains[b]])
    && (forall n :: n in m.chains[b] ==> n in m.order)
    && (forall n :: n in r.order ==> n in m.order)
    && (forall c, n :: 0 <= c < |r.chains| && n in r.chains[c] ==> n in r.order)
  }

  /** What a chain has to do with the list and with the other chains. */
  lemma ChainFacts(h: Hash, m: Model)
    requires m.Tbl? && WellFormed(h, m)
    ensures DisjointChains(m.chains)
    ensures forall c :: 0 <= c < |m.chains| ==> Distinct(m.chains[c])
    ensures forall c, n :: 0 <= c < |m.chains| && n in m.chains[c] ==> n in m.order
    ensures forall n :: n in m.order ==> n in m.chains[Bkt(h, n, |m.chains|)]
  {
    hide Bkt;
    forall c | 0 <= c < |m.chains|
      ensures IsBucket(h, m.chains[c], m.order, c, |m.chains|)
    {}
  }

  lemma DeletedModel(h: Hash, m: Model, del: Flow, b: nat) returns (k: nat, j: nat, r: Model)
    requires m.Tbl? && WellFormed(h, m) && del in m.order && |m.order| > 1 && b == Bkt(h, del, |m.chains|)
    ensures r == Delete(h, m, del) && WellFormed(h, r) && Shrunk(m, b, k, j, r) && m.order[k] == del
  {
    hide Bkt, AreBuckets, Distinct, DisjointChains, Remove;
    r := Delete(h, m, del);
    Laws.DeleteWellFormed(h, m, del);
    ChainFacts(h, m);
    ChainFacts(h, r);
    Laws.RemoveElements(m.order, del);
    k := RemovedAt(m.order, del);
    j := RemovedAt(m.chains[b], del);
  }

  lemma RemovedAt(s: seq<Flow>, n: Flow) returns (k: nat)
    requires Distinct(s) && n in s
    ensures Without(s, k, Remove(s, n)) && s[k] == n
  {
    k :| 0 <= k < |s| && s[k] == n;
    Laws.RemoveAt(s, k);
  }

  /** The end of HASH_DELETE_HH: with both structures patched, the item is no longer counted. */
  method Uncount(h: Hash, t: Table, ghost r: Model)
    requires r.Tbl? && WellFormed(h, r) && AppLinked(r.order) && t.tail == r.order[|r.order| - 1]
    requires t.numItems == |r.order| + 1 && !t.freed && CountersHold(t)
    requires t.model.(order := r.order, chains := r.chains) == r && |r.chains| == |t.model.chains|
    requires ItemsLive(h, t, r.order)
    requires BucketsHold(t.buckets, r.chains, r.mults, Nodes(t.model.order))
    requires forall c, n :: 0 <= c < |r.chains| && n in r.chains[c] ==> n in r.order
    modifies t`numItems, t`model
    ensures Valid(h, t) && t.model == r
  {
    t.numItems := t.numItems - 1;
    t.model := r;
  }

  /** HASH_DELETE_HH up to the item count, when other items remain. */
  method DeleteLinks(h: Hash, t: Table, head: Flow, del: Flow, bkt: nat,
                     ghost m: Model, ghost k: nat, ghost j: nat, ghost r: Model)
    returns (head': Flow)
    requires t.model == m && Shrunk(m, bkt, k, j, r) && m.order[k] == del && |m.order| > 1
    requires AppLinked(m.order) && head == m.order[0] && t.tail == m.order[|m.order| - 1]
    requires BucketsHold(t.buckets, m.chains, m.mults, Nodes(m.order)) && ItemsLive(h, t, r.order)
    modifies t`tail, t.buckets, Nodes(Order(t.model))`next, Nodes(Order(t.model))`prev
    modifies Nodes(Order(t.model))`hhNext, Nodes(Order(t.model))`hhPrev
    ensures AppLinked(r.order) && head' == r.order[0] && t.tail == r.order[|r.order| - 1]
    ensures BucketsHold(t.buckets, r.chains, r.mults, Nodes(m.order)) && ItemsLive(h, t, r.order)
  {
    hide AppLinked, BucketsHold;
    head' := Unlink(t, head, del, m.order, k, r.order);
    DelInBkt(t.buckets, bkt, del, m.chains, m.mults, Nodes(m.order), j, r.chains[bkt]);
  }

  /** HASH_DELETE_HH when other items remain. */
  method DeleteOne(h: Hash, head: Flow, del: Flow, t: Table) returns (head': Flow)
    requires Valid(h, t) && head == t.model.order[0] && del in t.model.order && |t.model.order| > 1
    modifies t, t.buckets, Nodes(Order(t.model))`next, Nodes(Order(t.model))`prev
    modifies Nodes(Order(t.model))`hhNext, Nodes(Order(t.model))`hhPrev
    ensures Valid(h, t) && head' == t.model.order[0] && t.model == Delete(h, old(t.model), del)
    ensures t.buckets == old(t.buckets)
  {
    hide AppLinked, BucketsHold, Delete, AreBuckets, IsBucket;
    var bkt := And(del.hashv, t.numBuckets - 1);
    ghost var k, j, r := DeletedModel(h, t.model, del, bkt);
    head' := DeleteLinks(h, t, head, del, bkt, t.model, k, j, r);
    Uncount(h, t, r);
  }

  /** Only the last item of a list has neither neighbour. */
  lemma Alone(s: seq<Flow>, n: Flow)
    requires AppLinked(s) && n in s
    ensures n.prev == null && n.next == null <==> |s| == 1
  {
    var k :| 0 <= k < |s| && s[k] == n;
    if |s| > 1 {
      assert k > 0 ==> s[k].prev != null;
      assert k < |s| - 1 ==> s[k].next != null;
    }
  }

  /** HASH_DELETE_HH: the last item takes the table with it. */
  method HashDelete(h: Hash, head: Flow, del: Flow, ghost t: Table) returns (head': Flow?, ghost t': Table?)
    requires IsTable(h, head, t) && del in t.model.order
    modifies t, t.buckets, ItemsOf(t)`next, ItemsOf(t)`prev, ItemsOf(t)`hhNext, ItemsOf(t)`hhPrev
    ensures IsTable(h, head', t') && ModelOf(t') == Delete(h, old(t.model), del)
    ensures if |old(t.model.order)| == 1 then t' == null && t.freed else t' == t && t.buckets == old(t.buckets)
  {
    Alone(t.model.order, del);
    var tbl := head.tbl;
    if del.prev == null && del.next == null {
      tbl.freed := true;
      head', t' := null, null;
    } else {
      head' := DeleteOne(h, head, del, tbl);
      t' := t;
    }
  }
}
