/** uthash as a function on values: what each macro does to the items, the chains and the growth
    counters. The pointer code of module Uthash is proved to compute these functions; the promises of the
    library are proved here, about them. */
module UthashModel {
  import opened Bits
  import opened FlowTypes

  /** HASH_INITIAL_NUM_BUCKETS_LOG2. */
  const INITIAL_LOG2: nat := 5

  /** A chain reaches HASH_BKT_CAPACITY_THRESH times the multiple its bucket is allowed. */
  function Threshold(mult: nat): nat {
    (mult + 1) * 10
  }

  ghost predicate Distinct<T>(s: seq<T>) {
    forall i, j :: 0 <= i < j < |s| ==> s[i] != s[j]
  }

  /** HASH_VALUE. */
  function HashOf(h: Hash, key: FlowKey): nat {
    h(key)
  }

  /** HASH_TO_BKT. */
  function Bkt(h: Hash, n: Flow, numBuckets: nat): (b: nat)
    requires numBuckets > 0
    ensures b < numBuckets
  {
    And(HashOf(h, n.key), numBuckets - 1)
  }

  function Order(m: Model): seq<Flow> {
    if m.Absent? then [] else m.order
  }

  /** The chain of bucket b holds exactly the items that hash to b. */
  ghost predicate IsBucket(h: Hash, chain: seq<Flow>, order: seq<Flow>, b: nat, numBuckets: nat)
    requires numBuckets > 0
  {
    && Distinct(chain)
    && (forall n :: n in chain ==> n in order && Bkt(h, n, numBuckets) == b)
    && (forall n :: n in order && Bkt(h, n, numBuckets) == b ==> n in chain)
  }

  ghost predicate AreBuckets(h: Hash, chains: seq<seq<Flow>>, order: seq<Flow>) {
    forall b :: 0 <= b < |chains| ==> IsBucket(h, chains[b], order, b, |chains|)
  }

  predicate Sized(m: Model) {
    m.Tbl? && m.log2 >= INITIAL_LOG2 && |m.chains| == |m.mults| == Pow2(m.log2)
  }

  /** The representation invariant: what HASH_FSCK checks, on values. */
  ghost predicate WellFormed(h: Hash, m: Model) {
    m.Tbl? ==> Sized(m) && m.order != [] && Distinct(m.order) && AreBuckets(h, m.chains, m.order)
  }

  // ----- bucket doubling

  /** The new bucket array while it is being filled. */
  datatype Grow = Grow(chains: seq<seq<Flow>>, mults: seq<nat>, nonideal: nat)

  function EmptyGrow(numBuckets: nat): (g: Grow)
    requires numBuckets > 0
    ensures |g.chains| == |g.mults| == numBuckets
  {
    Grow(seq(numBuckets, _ => []), seq(numBuckets, _ => 0), 0)
  }

  /** One item moves to the front of its new chain. */
  function Place(h: Hash, g: Grow, n: Flow, ideal: nat): (r: Grow)
    requires |g.chains| == |g.mults| > 0
    ensures |r.chains| == |r.mults| == |g.chains|
  {
    var b := Bkt(h, n, |g.chains|);
    var count := |g.chains[b]| + 1;
    Grow(g.chains[b := [n] + g.chains[b]],
         if count > ideal && count > g.mults[b] * ideal then g.mults[b := g.mults[b] + 1] else g.mults,
         if count > ideal then g.nonideal + 1 else g.nonideal)
  }

  function PlaceAll(h: Hash, numBuckets: nat, ns: seq<Flow>, ideal: nat): (r: Grow)
    requires numBuckets > 0
    ensures |r.chains| == |r.mults| == numBuckets
  {
    if ns == [] then EmptyGrow(numBuckets)
    else Place(h, PlaceAll(h, numBuckets, ns[..|ns| - 1], ideal), ns[|ns| - 1], ideal)
  }

  function Flatten(chains: seq<seq<Flow>>): seq<Flow> {
    if chains == [] then [] else Flatten(chains[..|chains| - 1]) + chains[|chains| - 1]
  }

  function IdealMaxlen(numItems: nat, log2: nat): nat {
    Shr(numItems, log2 + 1) + (if And(numItems, Pow2(log2) * 2 - 1) != 0 then 1 else 0)
  }

  /** HASH_EXPAND_BUCKETS. */
  function Expand(h: Hash, m: Model): (r: Model)
    requires Sized(m)
    ensures Sized(r) && r.log2 == m.log2 + 1 && r.order == m.order
  {
    var ideal := IdealMaxlen(|m.order|, m.log2);
    var g := PlaceAll(h, |m.chains| * 2, Flatten(m.chains), ideal);
    var ineffective := g.nonideal > Shr(|m.order|, 1);
    var ineff := if ineffective then m.ineff + 1 else 0;
    Tbl(m.order, g.chains, g.mults, m.log2 + 1, ideal, g.nonideal, ineff, m.noexpand || ineff > 1,
        m.expansions + [ineffective])
  }

  // ----- add, delete, find

  /** HASH_MAKE_TABLE, before its first item is counted. */
  function Fresh(): (m: Model)
    ensures m.Tbl? && Sized(m)
  {
    Tbl([], seq(Pow2(INITIAL_LOG2), _ => []), seq(Pow2(INITIAL_LOG2), _ => 0), INITIAL_LOG2, 0, 0, 0, false, [])
  }

  function PushChain(h: Hash, m: Model, n: Flow): (r: Model)
    requires Sized(m)
    ensures Sized(r) && r.log2 == m.log2 && r.order == m.order
  {
    var b := Bkt(h, n, |m.chains|);
    m.(chains := m.chains[b := [n] + m.chains[b]])
  }

  /** HASH_ADD_TO_BKT doubles the buckets when the chain it lengthened reaches its threshold. */
  predicate MustExpand(h: Hash, m: Model, n: Flow)
    requires Sized(m)
  {
    var b := Bkt(h, n, |m.chains|);
    |m.chains[b]| >= Threshold(m.mults[b]) && !m.noexpand
  }

  function AddToBkt(h: Hash, m: Model, n: Flow): Model
    requires Sized(m)
  {
    var m1 := PushChain(h, m, n);
    if MustExpand(h, m1, n) then Expand(h, m1) else m1
  }

  /** HASH_MAKE_TABLE or HASH_APPEND_LIST. */
  function AppendItem(m: Model, n: Flow): (r: Model)
    requires m.Tbl? ==> Sized(m)
    ensures Sized(r) && r.order == Order(m) + [n]
  {
    var m0 := if m.Absent? then Fresh() else m;
    m0.(order := m0.order + [n])
  }

  /** HASH_ADD: the item goes to the end of the list and to the front of its chain. Duplicate keys are not
      looked for. */
  function Add(h: Hash, m: Model, n: Flow): Model
    requires m.Tbl? ==> Sized(m)
  {
    AddToBkt(h, AppendItem(m, n), n)
  }

  function Remove(s: seq<Flow>, n: Flow): seq<Flow> {
    if s == [] then [] else if s[0] == n then s[1..] else [s[0]] + Remove(s[1..], n)
  }

  /** HASH_DELETE_HH: the table goes with its last item. */
  function Delete(h: Hash, m: Model, n: Flow): Model
    requires m.Tbl? && |m.chains| > 0
  {
    if |m.order| == 1 then Absent
    else
      var b := Bkt(h, n, |m.chains|);
      m.(order := Remove(m.order, n), chains := m.chains[b := Remove(m.chains[b], n)])
  }

  function FirstWith(chain: seq<Flow>, key: FlowKey): Flow? {
    if chain == [] then null else if chain[0].key == key then chain[0] else FirstWith(chain[1..], key)
  }

  /** HASH_FIND. */
  function Find(h: Hash, m: Model, key: FlowKey): Flow?
    requires m.Tbl? ==> |m.chains| > 0
  {
    if m.Absent? then null else FirstWith(m.chains[And(HashOf(h, key), |m.chains| - 1)], key)
  }
}
