/** Histories that show what the growth of a table does when the hash function is bad: items that all have
    one hash value. */
module UthashCases {
  import opened Bits
  import opened FlowTypes
  import opened UthashModel
  import opened UthashLaws

  /** The table that adding these items leaves; whether their keys differ does not matter to HASH_ADD. */
  ghost function Added(h: Hash, s: seq<Flow>): (m: Model)
    requires Distinct(s)
    ensures WellFormed(h, m) && Order(m) == s
  {
    if s == [] then Absent
    else
      var before, n := Added(h, s[..|s| - 1]), s[|s| - 1];
      assert s == s[..|s| - 1] + [n];
      AddWellFormed(h, before, n);
      Add(h, before, n)
  }

  function AddsOf(s: seq<Flow>): (ops: seq<Op>)
    ensures |ops| == |s|
  {
    seq(|s|, i requires 0 <= i < |s| => AddOp(s[i]))
  }

  lemma {:induction false} AddsAreLegal(s: seq<Flow>)
    requires UniqueKeys(s)
    ensures Legal(AddsOf(s)) && ListAfter(AddsOf(s)) == s
  {
    if s != [] {
      var k := |s| - 1;
      AddsAreLegal(s[..k]);
      assert AddsOf(s)[..k] == AddsOf(s[..k]) && AddsOf(s)[k] == AddOp(s[k]);
      assert s == s[..k] + [s[k]];
    }
  }

  /** With unique keys it is a history like any other. */
  lemma {:induction false} AddsRun(h: Hash, s: seq<Flow>)
    requires UniqueKeys(s)
    ensures Distinct(s) && Legal(AddsOf(s)) && Run(h, AddsOf(s)) == Added(h, s)
  {
    hide Add, WellFormed, Legal, ListAfter, UniqueKeys;
    AddsAreLegal(s);
    UniqueDistinct(s);
    if s != [] {
      var k := |s| - 1;
      UniqueFront(s);
      AddsRun(h, s[..k]);
      assert AddsOf(s)[..k] == AddsOf(s[..k]) && AddsOf(s)[k] == AddOp(s[k]);
    }
  }

  lemma UniqueFront(s: seq<Flow>)
    requires UniqueKeys(s) && s != []
    ensures UniqueKeys(s[..|s| - 1])
  {
  }

  ghost predicate OneHash(h: Hash, s: seq<Flow>, v: nat) {
    forall n :: n in s ==> HashOf(h, n.key) == v
  }

  /** All items are in one chain. */
  lemma OneChain(h: Hash, m: Model, v: nat)
    requires m.Tbl? && WellFormed(h, m) && OneHash(h, m.order, v)
    ensures var b := And(v, |m.chains| - 1);
            b < |m.chains| && |m.chains[b]| == |m.order|
  {
    var b := And(v, |m.chains| - 1);
    assert IsBucket(h, m.chains[b], m.order, b, |m.chains|);
    DistinctSize(m.chains[b]);
    DistinctSize(m.order);
    assert (set n | n in m.chains[b]) == (set n | n in m.order);
  }

  /** With an ideal length of one, expand_mult counts the items of a chain after the first. */
  lemma {:induction false} MultsOfOne(h: Hash, numBuckets: nat, ns: seq<Flow>, b: nat)
    requires b < numBuckets
    ensures var g := PlaceAll(h, numBuckets, ns, 1);
            g.mults[b] == if g.chains[b] == [] then 0 else |g.chains[b]| - 1
  {
    if ns != [] {
      MultsOfOne(h, numBuckets, ns[..|ns| - 1], b);
    }
  }

  lemma {:induction false} ExcessAtLeast(chains: seq<seq<Flow>>, b: nat, ideal: nat)
    requires b < |chains|
    ensures Excess(chains, ideal) >= Over(|chains[b]|, ideal)
  {
    if b < |chains| - 1 {
      ExcessAtLeast(chains[..|chains| - 1], b, ideal);
    }
  }

  /** A doubling of such a table, with fewer items than new buckets, is ineffective. */
  lemma ExpandOneChain(h: Hash, m: Model, v: nat)
    requires m.Tbl? && WellFormed(h, m) && OneHash(h, m.order, v) && 2 < |m.order| <= 2 * |m.chains|
    ensures var r := Expand(h, m);
            var b := And(v, |r.chains| - 1);
            && WellFormed(h, r) && r.expansions == m.expansions + [true]
            && b < |r.chains| && |r.chains[b]| == |m.order| && r.mults[b] == |m.order| - 1
  {
    hide Flatten, PlaceAll;
    var r := Expand(h, m);
    ExpandWellFormed(h, m);
    ExpandFigures(h, m);
    assert |r.order| <= 1 * |r.chains|;
    assert r.ideal == 1;
    OneChain(h, r, v);
    var b := And(v, |r.chains| - 1);
    ExcessAtLeast(r.chains, b, 1);
    MultsOfOne(h, |m.chains| * 2, Flatten(m.chains), b);
  }

  /** The state of such a table in terms of its number of items: it doubles at 10 and at 100, and then never
      again. */
  ghost predicate BadState(m: Model, v: nat, count: nat) {
    && Sized(m) && m.log2 == INITIAL_LOG2 + |m.expansions|
    && m.noexpand == (count >= 100)
    && var b := And(v, |m.chains| - 1);
       && b < |m.chains| && |m.chains[b]| == count
       && (count < 10 ==> m.expansions == [] && m.mults[b] == 0)
       && (10 <= count < 100 ==> m.expansions == [true] && m.mults[b] == 9)
       && (count >= 100 ==> m.expansions == [true, true])
  }

  /** The same, between the links of an add and its test for growth. */
  ghost predicate Pushed(h: Hash, m1: Model, v: nat, count: nat) {
    && m1.Tbl? && WellFormed(h, m1) && OneHash(h, m1.order, v) && |m1.order| == count
    && m1.log2 == INITIAL_LOG2 + |m1.expansions| && m1.noexpand == (count > 100)
    && var b := And(v, |m1.chains| - 1);
       && b < |m1.chains| && |m1.chains[b]| == count
       && (count <= 10 ==> m1.expansions == [] && m1.mults[b] == 0)
       && (10 < count <= 100 ==> m1.expansions == [true] && m1.mults[b] == 9)
       && (count > 100 ==> m1.expansions == [true, true])
  }

  lemma PushBad(h: Hash, m: Model, v: nat, n: Flow)
    requires WellFormed(h, m) && n !in Order(m) && OneHash(h, Order(m) + [n], v)
    requires m.Tbl? ==> BadState(m, v, |m.order|)
    ensures var m1 := PushChain(h, AppendItem(m, n), n);
            Pushed(h, m1, v, |Order(m)| + 1) && Bkt(h, n, |m1.chains|) == And(v, |m1.chains| - 1)
  {
    hide WellFormed;
    PushedWellFormed(h, m, n);
    var m1 := PushChain(h, AppendItem(m, n), n);
    assert n in m1.order;
    OneChain(h, m1, v);
  }

  lemma TwiceIneffective(m: Model)
    requires m.Tbl? && HistoryKept(m)
    ensures m.expansions == [] ==> !m.noexpand
    ensures m.expansions == [true] ==> !m.noexpand
    ensures m.expansions == [true, true] ==> m.noexpand
  {
  }

  lemma BadStep(h: Hash, m: Model, v: nat, n: Flow)
    requires WellFormed(h, m) && n !in Order(m) && HistoryKept(m) && OneHash(h, Order(m) + [n], v)
    requires m.Tbl? ==> BadState(m, v, |m.order|)
    ensures BadState(Add(h, m, n), v, |Order(m)| + 1)
  {
    hide PushChain, WellFormed, Expand, HistoryKept, Bkt, OneHash, Pow2, And;
    var m1 := PushChain(h, AppendItem(m, n), n);
    PushBad(h, m, v, n);
    AddHistory(h, m, n);
    TwiceIneffective(Add(h, m, n));
    BucketsThen(h, m1);
    if MustExpand(h, m1, n) {
      ExpandOneChain(h, m1, v);
    }
  }

  lemma BucketsThen(h: Hash, m: Model)
    requires m.Tbl? && WellFormed(h, m)
    ensures Sized(m)
    ensures m.log2 == 5 ==> |m.chains| == 32
    ensures m.log2 == 6 ==> |m.chains| == 64
    ensures m.log2 == 7 ==> |m.chains| == 128
  {
    assert Pow2(5) == 32 && Pow2(6) == 64 && Pow2(7) == 128;
  }

  lemma {:induction false} BadHistory(h: Hash, s: seq<Flow>, v: nat)
    requires s != [] && Distinct(s) && OneHash(h, s, v)
    ensures HistoryKept(Added(h, s)) && BadState(Added(h, s), v, |s|)
  {
    hide BadState, MustExpand, PushChain;
    var k := |s| - 1;
    assert s == s[..k] + [s[k]];
    if k > 0 {
      BadHistory(h, s[..k], v);
    }
    AddHistory(h, Added(h, s[..k]), s[k]);
    BadStep(h, Added(h, s[..k]), v, s[k]);
  }

  /** A hundred items with one hash value make the table give up growing, at 128 buckets, and not one item
      earlier. */
  lemma GrowthGivenUp(h: Hash, s: seq<Flow>, v: nat)
    requires UniqueKeys(s) && OneHash(h, s, v) && s != []
    ensures Legal(AddsOf(s))
    ensures var m := Run(h, AddsOf(s));
            && m.Tbl? && (m.noexpand <==> |s| >= 100)
            && |m.chains| == if |s| < 10 then 32 else if |s| < 100 then 64 else 128
  {
    hide Run, Added, Legal, HistoryKept, WellFormed, Sized, Pow2, And, UniqueKeys;
    AddsRun(h, s);
    BadHistory(h, s, v);
    BucketsThen(h, Added(h, s));
  }

  // ----- one key twice

  lemma {:induction false} LastOfLastFirst(h: Hash, ns: seq<Flow>, key: FlowKey, numBuckets: nat)
    requires numBuckets > 0
    ensures LastWith(LastFirst(h, ns, And(HashOf(h, key), numBuckets - 1), numBuckets), key) == FirstWith(ns, key)
  {
    if ns != [] {
      var b := And(HashOf(h, key), numBuckets - 1);
      var k := |ns| - 1;
      LastOfLastFirst(h, ns[..k], key, numBuckets);
      FirstInFront(ns, key);
      if Bkt(h, ns[k], numBuckets) == b {
        LastBehind(ns[k], LastFirst(h, ns[..k], b, numBuckets), key);
      } else {
        assert ns[k].key != key;
        assert LastFirst(h, ns, b, numBuckets) == LastFirst(h, ns[..k], b, numBuckets);
      }
    }
  }

  lemma {:induction false} FirstInFront(s: seq<Flow>, key: FlowKey)
    requires s != []
    ensures var first, last := FirstWith(s[..|s| - 1], key), s[|s| - 1];
            FirstWith(s, key) == if first != null then first else if last.key == key then last else null
  {
    if |s| > 1 && s[0].key != key {
      FirstInFront(s[1..], key);
      assert s[1..][..|s| - 2] == s[..|s| - 1][1..];
    }
  }

  lemma {:induction false} LastBehind(n: Flow, s: seq<Flow>, key: FlowKey)
    ensures LastWith([n] + s, key) ==
            if LastWith(s, key) != null then LastWith(s, key) else if n.key == key then n else null
  {
    var t := [n] + s;
    if s != [] {
      assert t[..|t| - 1] == [n] + s[..|s| - 1];
      if s[|s| - 1].key != key {
        LastBehind(n, s[..|s| - 1], key);
      }
    } else {
      assert t[..0] == [];
    }
  }

  lemma {:induction false} LastFirstLength(h: Hash, ns: seq<Flow>, b: nat, numBuckets: nat)
    requires numBuckets > 0
    ensures |LastFirst(h, ns, b, numBuckets)| <= |ns|
  {
    if ns != [] {
      LastFirstLength(h, ns[..|ns| - 1], b, numBuckets);
    }
  }

  /** Before its first doubling a table's chains hold their items with the last one first. */
  ghost predicate NotGrown(h: Hash, m: Model) {
    && Sized(m) && m.log2 == INITIAL_LOG2 && |m.chains| == 32
    && forall c :: 0 <= c < 32 ==> m.mults[c] == 0 && m.chains[c] == LastFirst(h, m.order, c, 32)
  }

  lemma FreshSize()
    ensures |Fresh().chains| == 32
  {
    assert Pow2(5) == 32;
  }

  lemma PushNotGrown(h: Hash, m: Model, n: Flow)
    requires WellFormed(h, m) && n !in Order(m) && (m.Tbl? ==> NotGrown(h, m))
    ensures NotGrown(h, PushChain(h, AppendItem(m, n), n))
  {
    hide WellFormed, And, Pow2;
    PushedWellFormed(h, m, n);
    FreshSize();
    var s, m1 := Order(m), PushChain(h, AppendItem(m, n), n);
    assert m1.order[..|m1.order| - 1] == s && m1.order[|s|] == n;
    forall c | 0 <= c < 32
      ensures m1.chains[c] == LastFirst(h, m1.order, c, 32)
    {
    }
  }

  lemma {:induction false} ChainsReversed(h: Hash, s: seq<Flow>)
    requires s != [] && Distinct(s) && |s| < 10
    ensures NotGrown(h, Added(h, s))
  {
    hide NotGrown, WellFormed, And, Pow2, Expand, PushChain;
    var k := |s| - 1;
    var m, n := Added(h, s[..k]), s[k];
    if k > 0 {
      ChainsReversed(h, s[..k]);
    }
    PushNotGrown(h, m, n);
    StaysSmall(h, PushChain(h, AppendItem(m, n), n), n);
  }

  lemma StaysSmall(h: Hash, m: Model, n: Flow)
    requires NotGrown(h, m) && |m.order| < 10
    ensures !MustExpand(h, m, n)
  {
    LastFirstLength(h, m.order, Bkt(h, n, 32), 32);
  }

  /** Ten items with one hash value: adding the tenth doubles the buckets, and of several items with one key
      a look-up finds the last before and the first after. */
  lemma DuplicateChangesAnswer(h: Hash, s: seq<Flow>, n: Flow, v: nat, key: FlowKey)
    requires |s| == 9 && Distinct(s + [n]) && OneHash(h, s + [n], v) && HashOf(h, key) == v && n.key != key
    ensures Distinct(s)
    ensures Find(h, Added(h, s), key) == LastWith(s, key)
    ensures Find(h, Added(h, s + [n]), key) == FirstWith(s, key)
  {
    var t := s + [n];
    assert t[..9] == s && t[9] == n;
    assert forall i :: 0 <= i < 9 ==> s[i] == t[i];
    TenthItem(h, s, n, v, key);
  }

  lemma TenthItem(h: Hash, s: seq<Flow>, n: Flow, v: nat, key: FlowKey)
    requires |s| == 9 && Distinct(s) && n !in s && OneHash(h, s + [n], v) && HashOf(h, key) == v && n.key != key
    ensures Find(h, Added(h, s), key) == LastWith(s, key)
    ensures Find(h, Add(h, Added(h, s), n), key) == FirstWith(s, key)
  {
    hide WellFormed, And, Pow2, Expand, Added, Sized, HistoryKept;
    var m := Added(h, s);
    var i := And(v, 31);
    assert forall x :: x in s ==> x in s + [n];
    BadHistory(h, s, v);
    ChainsReversed(h, s);
    FirstOfLastFirst(h, s, key, 32);
    PushedWellFormed(h, m, n);
    var m1 := PushChain(h, AppendItem(m, n), n);
    assert n in s + [n];
    assert m1.chains[i] == [n] + m.chains[i];
    FindLastAfterExpand(h, m1, key, i);
    LastBehind(n, m.chains[i], key);
    LastOfLastFirst(h, s, key, 32);
  }

  /** So two items with one key are confused. */
  lemma TwoItemsConfused(h: Hash, s: seq<Flow>, n: Flow, v: nat)
    requires |s| == 9 && Distinct(s + [n]) && OneHash(h, s + [n], v) && n.key != s[0].key
    requires s[0].key == s[8].key
    ensures Distinct(s) && s[0] != s[8]
    ensures Find(h, Added(h, s), s[0].key) == s[8] && Find(h, Added(h, s + [n]), s[0].key) == s[0]
  {
    DuplicateChangesAnswer(h, s, n, v, s[0].key);
    assert (s + [n])[0] == s[0] && (s + [n])[8] == s[8] && s[0] in s + [n];
  }
}
