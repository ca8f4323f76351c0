/** HASH_SRT and HASH_ADD_INORDER on pointers: the application-order list is rearranged or inserted into in
    place, and the bucket chains are left alone or extended as by HASH_ADD. */
module UthashSort {
  import opened Bits
  import opened FlowTypes
  import opened UthashModel
  import opened Uthash
  import opened SortModel
  import Laws = UthashLaws

  // ----- HASH_SRT: what the list looks like while runs are merged

  function NodeAt(s: seq<Flow>, k: nat): Flow? {
    if k < |s| then s[k] else null
  }

  function LastOf(s: seq<Flow>): Flow? {
    if s == [] then null else s[|s| - 1]
  }

  /** The nodes already put out are linked both ways, but for the next pointer of the last. */
  ghost predicate PutOut(out: seq<Flow>)
    reads out`next, out`prev
  {
    && (out != [] ==> out[0].prev == null)
    && (forall i {:trigger out[i].prev} :: 0 < i < |out| ==> out[i].prev == out[i - 1])
    && (forall i {:trigger out[i].next} :: 0 <= i < |out| - 1 ==> out[i].next == out[i + 1])
  }

  /** The nodes still to come, places a to m and b on, have the next pointers they had. */
  ghost predicate Pending(s: seq<Flow>, a: nat, m: nat, b: nat)
    reads s`next
  {
    forall k {:trigger s[k].next} :: 0 <= k < |s| && (a <= k < m || b <= k) ==> s[k].next == NodeAt(s, k + 1)
  }

  /** The nodes put out come from s, and none of them is still to come. */
  ghost predicate Away(out: seq<Flow>, s: seq<Flow>, a: nat, m: nat, b: nat) {
    && (forall n :: n in out ==> n in s)
    && (forall k :: 0 <= k < |s| && (a <= k < m || b <= k) ==> s[k] !in out)
  }

  /** The end of the merge loop: e goes behind the nodes put out. */
  method PutNext(list: Flow?, tail: Flow?, e: Flow, ghost out: seq<Flow>) returns (list': Flow)
    requires PutOut(out) && Distinct(out) && e !in out && list == HeadOf(out) && tail == LastOf(out)
    modifies HeadSet(tail)`next, e`prev
    ensures PutOut(out + [e]) && list' == HeadOf(out + [e])
  {
    if tail != null {
      tail.next := e;
      list' := list;
    } else {
      list' := e;
    }
    e.prev := tail;
  }

  /** The same, of a node that was still to come. */
  method PutFrom(list: Flow?, tail: Flow?, e: Flow, ghost s: seq<Flow>, ghost out: seq<Flow>,
                 ghost a: nat, ghost m: nat, ghost b: nat, ghost a': nat, ghost b': nat)
    returns (list': Flow)
    requires Distinct(s) && a <= m <= b && b' <= |s| && a' <= m
    requires (a' == a + 1 && b' == b && e == s[a]) || (a' == a && b' == b + 1 && e == s[b])
    requires PutOut(out) && Distinct(out) && list == HeadOf(out) && tail == LastOf(out)
    requires Away(out, s, a, m, b) && Pending(s, a, m, b)
    modifies Nodes(s)`next, Nodes(s)`prev
    ensures PutOut(out + [e]) && Distinct(out + [e]) && list' == HeadOf(out + [e]) && e == LastOf(out + [e])
    ensures Away(out + [e], s, a', m, b') && Pending(s, a', m, b')
  {
    Taken(s, out, a, m, b, a', b', e);
    list' := PutNext(list, tail, e, out);
  }

  lemma PutInFront(out: seq<Flow>, e: Flow, rest: seq<Flow>)
    ensures (out + [e]) + rest == out + ([e] + rest)
  {
  }

  /** The choice in the merge loop. */
  method TakeNext(cmp: Cmp, p: Flow?, q: Flow?, psize: nat, qsize: nat,
                  ghost s: seq<Flow>, ghost a: nat, ghost m: nat, ghost b: nat, ghost hi: nat)
    returns (e: Flow, p': Flow?, q': Flow?, psize': nat, qsize': nat, ghost a': nat, ghost b': nat)
    requires a <= m <= b <= hi <= |s| && psize == m - a && (a < m || b < hi)
    requires qsize != 0 && q != null <==> b < hi
    requires p == NodeAt(s, a) && q == NodeAt(s, b) && Pending(s, a, m, b)
    ensures a' <= m && b' <= hi && psize' == m - a' && p' == NodeAt(s, a') && q' == NodeAt(s, b')
    ensures (a' == a + 1 && b' == b && e == s[a] && qsize' == qsize)
            || (a' == a && b' == b + 1 && e == s[b] && qsize == qsize' + 1)
    ensures Merge(cmp, s[a..m], s[b..hi]) == [e] + Merge(cmp, s[a'..m], s[b'..hi])
  {
    p', q', psize', qsize', a', b' := p, q, psize, qsize, a, b;
    if psize == 0 {
      e := q;
      q' := q.next;
      qsize' := qsize - 1;
      b' := b + 1;
    } else if qsize == 0 || q == null {
      e := p;
      p' := p.next;
      psize' := psize - 1;
      a' := a + 1;
    } else if cmp(p, q) <= 0 {
      e := p;
      p' := p.next;
      psize' := psize - 1;
      a' := a + 1;
    } else {
      e := q;
      q' := q.next;
      qsize' := qsize - 1;
      b' := b + 1;
    }
  }

  /** The merge loop: two runs, places lo to m and m to hi, go behind the nodes put out. */
  method MergeRuns(cmp: Cmp, p0: Flow, q0: Flow?, psize0: nat, insize: nat, list0: Flow?, tail0: Flow?,
                   ghost s: seq<Flow>, ghost lo: nat, ghost m: nat, ghost hi: nat, ghost out0: seq<Flow>)
    returns (q: Flow?, list: Flow?, tail: Flow?)
    requires Distinct(s) && lo < m <= hi <= |s| && psize0 == m - lo
    requires hi == if m + insize < |s| then m + insize else |s|
    requires p0 == NodeAt(s, lo) && q0 == NodeAt(s, m) && Pending(s, lo, m, m) && Away(out0, s, lo, m, m)
    requires PutOut(out0) && Distinct(out0) && list0 == HeadOf(out0) && tail0 == LastOf(out0)
    modifies Nodes(s)`next, Nodes(s)`prev
    ensures var out := out0 + Merge(cmp, s[lo..m], s[m..hi]);
            && PutOut(out) && Distinct(out) && list == HeadOf(out) && tail == LastOf(out)
            && Away(out, s, hi, hi, hi)
    ensures q == NodeAt(s, hi) && Pending(s, hi, hi, hi)
  {
    hide Pending, Away, PutOut, Distinct, Merge;
    var p, psize, qsize := p0, psize0, insize;
    q, list, tail := q0, list0, tail0;
    ghost var a, b, out := lo, m, out0;
    while psize != 0 || (qsize != 0 && q != null)
      invariant lo <= a <= m <= b <= hi && psize == m - a && qsize == m + insize - b
      invariant p == NodeAt(s, a) && q == NodeAt(s, b) && Pending(s, a, m, b) && Away(out, s, a, m, b)
      invariant PutOut(out) && Distinct(out) && list == HeadOf(out) && tail == LastOf(out)
      invariant out + Merge(cmp, s[a..m], s[b..hi]) == out0 + Merge(cmp, s[lo..m], s[m..hi])
      decreases m - a + hi - b
    {
      ghost var a0, b0 := a, b;
      var e;
      e, p, q, psize, qsize, a, b := TakeNext(cmp, p, q, psize, qsize, s, a, m, b, hi);
      PutInFront(out, e, Merge(cmp, s[a..m], s[b..hi]));
      list := PutFrom(list, tail, e, s, out, a0, m, b0, a, b);
      tail := e;
      out := out + [e];
    }
    RunsMerged(cmp, s, out, m, hi);
  }

  lemma RunsMerged(cmp: Cmp, s: seq<Flow>, out: seq<Flow>, m: nat, hi: nat)
    requires m <= hi <= |s| && Pending(s, m, m, hi) && Away(out, s, m, m, hi)
    ensures Pending(s, hi, hi, hi) && Away(out, s, hi, hi, hi)
    ensures out + Merge(cmp, s[m..m], s[hi..hi]) == out
  {
  }

  lemma Taken(s: seq<Flow>, out: seq<Flow>, a: nat, m: nat, b: nat, a': nat, b': nat, e: Flow)
    requires Distinct(s) && Distinct(out) && Away(out, s, a, m, b) && a <= m <= b && b' <= |s| && a' <= m
    requires (a' == a + 1 && b' == b && e == s[a]) || (a' == a && b' == b + 1 && e == s[b])
    ensures e !in out && Distinct(out + [e]) && Away(out + [e], s, a', m, b')
    ensures out != [] ==> out[|out| - 1] in s
  {
  }

  /** The loop that steps over one run. */
  method StepRun(p: Flow, insize: nat, ghost s: seq<Flow>, ghost lo: nat) returns (q: Flow?, psize: nat)
    requires lo < |s| && p == s[lo] && insize > 0 && Pending(s, lo, lo, lo)
    ensures psize == if lo + insize < |s| then insize else |s| - lo
    ensures q == NodeAt(s, lo + psize)
  {
    q, psize := p, 0;
    for i := 0 to insize
      invariant psize == i && lo + i < |s| && q == s[lo + i]
    {
      psize := psize + 1;
      q := q.next;
      if q == null {
        break;
      }
    }
  }

  lemma PassStarts(cmp: Cmp, s: seq<Flow>, insize: nat)
    requires AppLinked(s) && insize > 0
    ensures Pending(s, 0, 0, 0) && Away([], s, 0, 0, 0) && PutOut([]) && Distinct<Flow>([])
    ensures [] + MergePass(cmp, s[0..], insize) == MergePass(cmp, s, insize)
  {
    assert s[0..] == s;
  }

  /** The end of the list. */
  method EndList(tail: Flow?, ghost out: seq<Flow>) returns (last: Flow)
    requires PutOut(out) && Distinct(out) && out != [] && tail == LastOf(out)
    modifies HeadSet(tail)`next
    ensures AppLinked(out) && last == out[|out| - 1]
  {
    tail.next := null;
    last := tail;
  }

  /** One merge: the two runs from place lo on. */
  method MergeTwo(cmp: Cmp, p0: Flow, insize: nat, list0: Flow?, tail0: Flow?,
                  ghost s: seq<Flow>, ghost lo: nat, ghost out0: seq<Flow>)
    returns (p: Flow?, list: Flow?, tail: Flow?, ghost lo': nat, ghost out: seq<Flow>)
    requires insize > 0 && Distinct(s) && lo < |s| && p0 == s[lo] && Pending(s, lo, lo, lo) && Away(out0, s, lo, lo, lo)
    requires PutOut(out0) && Distinct(out0) && list0 == HeadOf(out0) && tail0 == LastOf(out0)
    modifies Nodes(s)`next, Nodes(s)`prev
    ensures lo' == (if lo + 2 * insize < |s| then lo + 2 * insize else |s|) && p == NodeAt(s, lo')
    ensures Pending(s, lo', lo', lo') && Away(out, s, lo', lo', lo')
    ensures PutOut(out) && Distinct(out) && list == HeadOf(out) && tail == LastOf(out)
    ensures out + MergePass(cmp, s[lo'..], insize) == out0 + MergePass(cmp, s[lo..], insize)
  {
    hide PutOut, Distinct, Merge, MergePass;
    var q, psize := StepRun(p0, insize, s, lo);
    ghost var m := lo + psize;
    lo' := if m + insize < |s| then m + insize else |s|;
    NextRuns(cmp, s, insize, lo, m, lo');
    p, list, tail := MergeRuns(cmp, p0, q, psize, insize, list0, tail0, s, lo, m, lo', out0);
    Assoc(out0, Merge(cmp, s[lo..m], s[m..lo']), MergePass(cmp, s[lo'..], insize));
    out := out0 + Merge(cmp, s[lo..m], s[m..lo']);
  }

  /** One turn of the loop over the list in HASH_SRT. */
  method Pass(cmp: Cmp, list0: Flow, insize: nat, ghost s: seq<Flow>) returns (list: Flow, tail: Flow, nmerges: nat)
    requires insize > 0 && s != [] && Distinct(s) && AppLinked(s) && list0 == s[0]
    modifies Nodes(s)`next, Nodes(s)`prev
    ensures var r := MergePass(cmp, s, insize);
            AppLinked(r) && list == r[0] && tail == r[|r| - 1]
    ensures nmerges <= 1 <==> |s| <= 2 * insize
  {
    hide Pending, PutOut, Distinct, AppLinked, MergePass, Away;
    var p: Flow?, first: Flow?, last: Flow? := list0, null, null;
    nmerges := 0;
    ghost var lo, out := 0, [];
    PassStarts(cmp, s, insize);
    while p != null
      invariant lo <= |s| && p == NodeAt(s, lo) && Pending(s, lo, lo, lo) && Away(out, s, lo, lo, lo)
      invariant PutOut(out) && Distinct(out) && first == HeadOf(out) && last == LastOf(out)
      invariant out + MergePass(cmp, s[lo..], insize) == MergePass(cmp, s, insize)
      invariant nmerges == 0 ==> lo == 0
      invariant nmerges == 1 ==> lo == if 2 * insize < |s| then 2 * insize else |s|
      invariant nmerges > 1 ==> 2 * insize < |s|
      decreases |s| - lo
    {
      nmerges := nmerges + 1;
      p, first, last, lo, out := MergeTwo(cmp, p, insize, first, last, s, lo, out);
    }
    PassEnds(cmp, s, insize, out);
    tail := EndList(last, out);
    list := first;
  }

  lemma PassEnds(cmp: Cmp, s: seq<Flow>, insize: nat, out: seq<Flow>)
    requires insize > 0 && s != [] && out + MergePass(cmp, s[|s|..], insize) == MergePass(cmp, s, insize)
    requires Away(out, s, |s|, |s|, |s|)
    ensures out == MergePass(cmp, s, insize) && out != [] && LastOf(out) in s
  {
    assert s[|s|..] == [] && out + [] == out;
  }

  lemma Assoc(a: seq<Flow>, b: seq<Flow>, c: seq<Flow>)
    ensures (a + b) + c == a + (b + c)
  {
  }

  lemma NextRuns(cmp: Cmp, s: seq<Flow>, k: nat, lo: nat, m: nat, hi: nat)
    requires k > 0 && lo < |s| && m == if lo + k < |s| then lo + k else |s|
    requires hi == if m + k < |s| then m + k else |s|
    ensures MergePass(cmp, s[lo..], k) == Merge(cmp, s[lo..m], s[m..hi]) + MergePass(cmp, s[hi..], k)
  {
    var t := s[lo..];
    assert Front(t, k) == s[lo..m] && Rest(t, k) == s[m..];
    assert Front(s[m..], k) == s[m..hi] && Rest(s[m..], k) == s[hi..];
  }

  lemma DistinctByMultiset(s: seq<Flow>, r: seq<Flow>)
    requires Distinct(s) && multiset(s) == multiset(r)
    ensures Distinct(r)
  {
    forall i, j | 0 <= i < j < |r|
      ensures r[i] != r[j]
    {
      if r[i] == r[j] {
        assert r == r[..i] + [r[i]] + r[i + 1..j] + [r[j]] + r[j + 1..];
        assert multiset(r)[r[i]] >= 2;
        OnceEach(s, r[i]);
      }
    }
  }

  lemma {:induction false} OnceEach(s: seq<Flow>, n: Flow)
    requires Distinct(s)
    ensures multiset(s)[n] <= 1
  {
    if s != [] {
      var k := |s| - 1;
      OnceEach(s[..k], n);
      assert s == s[..k] + [s[k]];
      assert s[k] !in multiset(s[..k]);
    }
  }

  /** A rearrangement has the same nodes. */
  lemma Rearranged(s: seq<Flow>, r: seq<Flow>)
    requires Distinct(s) && multiset(s) == multiset(r)
    ensures Distinct(r) && Nodes(r) == Nodes(s) && |r| == |s|
  {
    DistinctByMultiset(s, r);
    SameElements(s, r);
    assert |multiset(s)| == |s| && |multiset(r)| == |r|;
  }

  /** The outer loop of HASH_SRT. The run length stays below the number of items, so it fits the unsigned
      variable that holds it. */
  method SortList(cmp: Cmp, head: Flow, ghost s: seq<Flow>) returns (list: Flow, tail: Flow)
    requires s != [] && Distinct(s) && AppLinked(s) && head == s[0]
    modifies Nodes(s)`next, Nodes(s)`prev
    ensures var r := HashSort(cmp, s);
            AppLinked(r) && list == r[0] && tail == r[|r| - 1]
  {
    hide AppLinked, Distinct, MergePass;
    var insize, looping := 1, true;
    list, tail := head, head;
    ghost var cur := s;
    while looping
      invariant looping ==> insize == 1 || insize < |s|
      invariant |cur| == |s| && Distinct(cur) && Nodes(cur) == Nodes(s)
      invariant AppLinked(cur) && list == cur[0] && insize > 0
      invariant if looping then SortFrom(cmp, cur, insize) == HashSort(cmp, s)
                else cur == HashSort(cmp, s) && tail == cur[|cur| - 1]
      decreases looping, if insize < |s| then |s| - insize else 0
    {
      var nmerges;
      PassMultiset(cmp, cur, insize);
      Rearranged(cur, MergePass(cmp, cur, insize));
      list, tail, nmerges := Pass(cmp, list, insize, cur);
      cur := MergePass(cmp, cur, insize);
      if nmerges <= 1 {
        looping := false;
      }
      insize := insize * 2;
    }
  }

  /** A sort does to a table what it does to the list. */
  function Sort(cmp: Cmp, m: Model): Model {
    if m.Absent? then m else m.(order := HashSort(cmp, m.order))
  }

  lemma SortWellFormed(h: Hash, cmp: Cmp, m: Model)
    requires m.Tbl? && WellFormed(h, m)
    ensures WellFormed(h, Sort(cmp, m)) && Nodes(HashSort(cmp, m.order)) == Nodes(m.order)
    ensures forall n :: n in HashSort(cmp, m.order) ==> n in m.order
  {
    var r := HashSort(cmp, m.order);
    SortMultiset(cmp, m.order, 1);
    Rearranged(m.order, r);
    SameElements(m.order, r);
    forall b | 0 <= b < |m.chains|
      ensures IsBucket(h, m.chains[b], r, b, |m.chains|)
    {
      assert IsBucket(h, m.chains[b], m.order, b, |m.chains|);
    }
  }

  lemma LiveItems(h: Hash, t: Table, s: seq<Flow>, r: seq<Flow>)
    requires ItemsLive(h, t, s) && forall n :: n in r ==> n in s
    ensures ItemsLive(h, t, r)
  {
  }

  /** The list, its tail and its head. */
  method SortTable(h: Hash, cmp: Cmp, head: Flow, t: Table) returns (head': Flow)
    requires Valid(h, t) && head == t.model.order[0]
    modifies t`tail, t`model, Nodes(Order(t.model))`next, Nodes(Order(t.model))`prev
    ensures Valid(h, t) && t.model == Sort(cmp, old(t.model)) && head' == t.model.order[0]
  {
    hide AppLinked, BucketsHold, AreBuckets, HashSort, ItemsLive;
    ghost var m := t.model;
    SortWellFormed(h, cmp, m);
    var tail;
    head', tail := SortList(cmp, head, m.order);
    LiveItems(h, t, m.order, HashSort(cmp, m.order));
    t.tail := tail;
    t.model := Sort(cmp, m);
  }

  /** HASH_SRT: the list is sorted in place; chains, counters and nodes stay. */
  method HashSrt(h: Hash, cmp: Cmp, head: Flow?, ghost t: Table?) returns (head': Flow?)
    requires IsTable(h, head, t)
    modifies TableSet(t)`tail, TableSet(t)`model, ItemsOf(t)`next, ItemsOf(t)`prev
    ensures IsTable(h, head', t) && ModelOf(t) == Sort(cmp, old(ModelOf(t)))
  {
    head' := head;
    if head != null {
      head' := SortTable(h, cmp, head, head.tbl);
    }
  }

  // ----- HASH_ADD_INORDER

  /** HASH_ADD_INORDER. */
  function AddInOrder(h: Hash, cmp: Cmp, m: Model, n: Flow): (r: Model)
    requires m.Tbl? ==> Sized(m)
  {
    if m.Absent? then Add(h, m, n) else UthashModel.AddToBkt(h, m.(order := Insert(cmp, m.order, n)), n)
  }

  lemma {:induction false} InsertSplits(cmp: Cmp, s: seq<Flow>, n: Flow, k: nat)
    requires k <= |s| && (forall i :: 0 <= i < k ==> Le(cmp, s[i], n)) && (k < |s| ==> !Le(cmp, s[k], n))
    ensures Insert(cmp, s, n) == s[..k] + [n] + s[k..]
  {
    if k > 0 {
      InsertSplits(cmp, s[1..], n, k - 1);
      assert [s[0]] + (s[1..][..k - 1] + [n] + s[1..][k - 1..]) == s[..k] + [n] + s[k..];
    }
  }

  /** HASH_AKBI_INNER_LOOP: the first item that compares greater. */
  method FindPlace(cmp: Cmp, head: Flow, add: Flow, ghost s: seq<Flow>) returns (iter: Flow?, ghost k: nat)
    requires s != [] && AppLinked(s) && head == s[0]
    ensures k <= |s| && iter == NodeAt(s, k)
    ensures Insert(cmp, s, add) == s[..k] + [add] + s[k..]
  {
    iter, k := head, 0;
    while iter != null
      invariant k <= |s| && iter == NodeAt(s, k)
      invariant forall i :: 0 <= i < k ==> Le(cmp, s[i], add)
      decreases |s| - k
    {
      if cmp(iter, add) > 0 {
        break;
      }
      iter := iter.next;
      k := k + 1;
    }
    InsertSplits(cmp, s, add, k);
  }

  /** The list half of HASH_ADD_INORDER in front of an item. */
  method LinkBefore(head: Flow, add: Flow, iter: Flow, ghost s: seq<Flow>, ghost k: nat, ghost r: seq<Flow>)
    returns (head': Flow)
    requires AppLinked(s) && Distinct(s) && k < |s| && iter == s[k] && head == s[0] && add !in s
    requires r == s[..k] + [add] + s[k..]
    modifies add`next, add`prev, Nodes(s)`next, Nodes(s)`prev
    ensures AppLinked(r) && head' == r[0]
  {
    head' := head;
    add.next := iter;
    add.prev := iter.prev;
    if add.prev != null {
      add.prev.next := add;
    } else {
      head' := add;
    }
    iter.prev := add;
  }

  /** The links of HASH_ADD_INORDER to a list with items. */
  method PlaceInOrder(cmp: Cmp, tbl: Table, head: Flow, add: Flow, ghost s: seq<Flow>) returns (head': Flow)
    requires s == Order(tbl.model) && s != [] && AppLinked(s) && Distinct(s)
    requires head == s[0] && tbl.tail == s[|s| - 1] && add !in s
    modifies add`next, add`prev, tbl`tail, Nodes(s)`next, Nodes(s)`prev
    ensures var r := Insert(cmp, s, add);
            AppLinked(r) && tbl.tail == r[|r| - 1] && head' == r[0]
  {
    hide Insert;
    var iter;
    ghost var k;
    iter, k := FindPlace(cmp, head, add, s);
    if iter != null {
      head' := LinkBefore(head, add, iter, s, k, Insert(cmp, s, add));
    } else {
      AppendList(tbl, add);
      head' := head;
      assert s[..k] + [add] + s[k..] == s + [add];
    }
  }

  /** The list half of HASH_ADD_INORDER to a table with items. */
  method LinkInOrder(h: Hash, cmp: Cmp, tbl: Table, head: Flow, add: Flow, ghost s: seq<Flow>) returns (head': Flow)
    requires s == Order(tbl.model) && s != [] && AppLinked(s) && Distinct(s) && ItemsLive(h, tbl, s)
    requires head == s[0] && tbl.tail == s[|s| - 1]
    requires add !in s && !add.freed && add.hashv == HashOf(h, add.key)
    modifies add`next, add`prev, add`tbl, tbl`tail, Nodes(s)`next, Nodes(s)`prev
    ensures var r := Insert(cmp, s, add);
            AppLinked(r) && ItemsLive(h, tbl, r) && tbl.tail == r[|r| - 1] && head' == r[0]
  {
    hide AppLinked, Insert;
    InsertElements(cmp, s, add);
    add.tbl := tbl;
    assert ItemsLive(h, tbl, Insert(cmp, s, add));
    head' := PlaceInOrder(cmp, tbl, head, add, s);
  }

  lemma InsertExtends(cmp: Cmp, s: seq<Flow>, n: Flow)
    requires Distinct(s) && n !in s
    ensures Extends(Insert(cmp, s, n), s, n)
  {
    InsertElements(cmp, s, n);
    InsertMultiset(cmp, s, n);
    DistinctByMultiset(s + [n], Insert(cmp, s, n));
  }

  lemma {:induction false} InsertMultiset(cmp: Cmp, s: seq<Flow>, n: Flow)
    ensures multiset(Insert(cmp, s, n)) == multiset(s + [n])
  {
    if s != [] && Le(cmp, s[0], n) {
      InsertMultiset(cmp, s[1..], n);
      assert s == [s[0]] + s[1..];
    }
  }

  /** The same, with the table's value: the item is listed in its place and not yet counted. */
  method ListInOrder(h: Hash, cmp: Cmp, tbl: Table, head: Flow, add: Flow) returns (head': Flow)
    requires Valid(h, tbl) && head == tbl.model.order[0]
    requires !add.freed && add.hashv == HashOf(h, add.key) && add !in tbl.model.order
    modifies add`next, add`prev, add`tbl, tbl`tail, tbl`model
    modifies Nodes(Order(tbl.model))`next, Nodes(Order(tbl.model))`prev
    ensures Listed(h, tbl, add, old(tbl.model.order)) && head' == tbl.model.order[0]
    ensures tbl.model == old(tbl.model).(order := Insert(cmp, old(tbl.model.order), add))
    ensures forall n :: n in tbl.model.order ==> n == add || n in old(tbl.model.order)
  {
    hide AppLinked, BucketsHold, ItemsLive, AreBuckets, IsBucket, Insert;
    ghost var s, r := tbl.model.order, Insert(cmp, tbl.model.order, add);
    InsertExtends(cmp, s, add);
    head' := LinkInOrder(h, cmp, tbl, head, add, s);
    MoreNodes(tbl.buckets, tbl.model.chains, tbl.model.mults, Nodes(s), Nodes(r));
    tbl.model := tbl.model.(order := r);
  }

  /** HASH_ADD_INORDER to a table with items. */
  method AddNextInOrder(h: Hash, cmp: Cmp, tbl: Table, head: Flow, add: Flow) returns (head': Flow)
    requires Valid(h, tbl) && head == tbl.model.order[0]
    requires !add.freed && add.hashv == HashOf(h, add.key) && add !in tbl.model.order
    modifies add`next, add`prev, add`tbl, add`hhNext, add`hhPrev
    modifies tbl, tbl.buckets, Nodes(Order(tbl.model))`next, Nodes(Order(tbl.model))`prev
    modifies Nodes(Order(tbl.model))`hhNext, Nodes(Order(tbl.model))`hhPrev
    ensures Valid(h, tbl) && tbl.model == AddInOrder(h, cmp, old(tbl.model), add) && head' == tbl.model.order[0]
    ensures tbl.buckets == old(tbl.buckets) || fresh(tbl.buckets)
  {
    hide Listed, Insert;
    ghost var s := tbl.model.order;
    head' := ListInOrder(h, cmp, tbl, head, add);
    AddToTable(h, tbl, add, s);
  }

  /** HASH_ADD_INORDER. */
  method HashAddInOrder(h: Hash, cmp: Cmp, head: Flow?, add: Flow, ghost t: Table?)
    returns (head': Flow, ghost t': Table)
    requires IsTable(h, head, t) && !add.freed && add !in ItemsOf(t)
    modifies add`hashv, add`next, add`prev, add`tbl, add`hhNext, add`hhPrev
    modifies t, BucketsOf(t), ItemsOf(t)`next, ItemsOf(t)`prev, ItemsOf(t)`hhNext, ItemsOf(t)`hhPrev
    ensures IsTable(h, head', t') && t'.model == AddInOrder(h, cmp, old(ModelOf(t)), add)
    ensures if t == null then fresh(t') else t' == t
    ensures t == null || t'.buckets != old(t.buckets) ==> fresh(t'.buckets)
  {
    add.hashv := HashOf(h, add.key);
    if head == null {
      head' := add;
      t' := AddFirst(h, add);
      Laws.AddWellFormed(h, Absent, add);
    } else {
      t' := t;
      head' := AddNextInOrder(h, cmp, head.tbl, head, add);
    }
  }

  /** Adding items one by one in order leaves the order that sorting them leaves. */
  ghost function AddAllInOrder(h: Hash, cmp: Cmp, s: seq<Flow>): (m: Model)
    requires Distinct(s)
    ensures WellFormed(h, m) && Order(m) == InsertAll(cmp, s)
  {
    if s == [] then Absent
    else
      var before, n := AddAllInOrder(h, cmp, s[..|s| - 1]), s[|s| - 1];
      InsertAllElements(cmp, s[..|s| - 1]);
      AddInOrderWellFormed(h, cmp, before, n);
      AddInOrder(h, cmp, before, n)
  }

  lemma AddInOrderWellFormed(h: Hash, cmp: Cmp, m: Model, n: Flow)
    requires WellFormed(h, m) && n !in Order(m)
    ensures WellFormed(h, AddInOrder(h, cmp, m, n)) && Order(AddInOrder(h, cmp, m, n)) == Insert(cmp, Order(m), n)
  {
    if m.Absent? {
      Laws.AddWellFormed(h, m, n);
    } else {
      var m1 := m.(order := Insert(cmp, m.order, n));
      InsertExtends(cmp, m.order, n);
      PushedBuckets(h, m1, n, m.order);
      if MustExpand(h, PushChain(h, m1, n), n) {
        Laws.ExpandWellFormed(h, PushChain(h, m1, n));
      }
    }
  }

  /** HASH_SORT of a table gives the list that building it with HASH_ADD_INORDER gives, and every look-up
      finds what it found before. */
  lemma SortIsAddInOrder(h: Hash, cmp: Cmp, m: Model)
    requires m.Tbl? && WellFormed(h, m) && TotalPreorder(cmp, set n | n in m.order)
    ensures Order(Sort(cmp, m)) == Order(AddAllInOrder(h, cmp, m.order))
    ensures Sorted(cmp, Order(Sort(cmp, m))) && Stable(cmp, m.order, Order(Sort(cmp, m)))
    ensures forall key :: Find(h, Sort(cmp, m), key) == Find(h, m, key)
  {
    hide TotalPreorder, Sorted, Stable, AreBuckets, HashSort, InsertAll, AddAllInOrder, Distinct, Pow2;
    HashSortIsStableSort(cmp, m.order);
  }
}
