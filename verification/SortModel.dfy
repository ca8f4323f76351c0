/** What HASH_SRT and HASH_ADD_INORDER do to the application order, on sequences: the bottom-up merge sort is
    proved to be the stable sort, and to give the order that sorted insertion gives. */
module SortModel {
  import opened FlowTypes
  import opened UthashModel

  /** A comparison function of the caller's. */
  type Cmp = (Flow, Flow) -> int

  predicate Le(cmp: Cmp, a: Flow, b: Flow) {
    cmp(a, b) <= 0
  }

  predicate Equiv(cmp: Cmp, a: Flow, b: Flow) {
    Le(cmp, a, b) && Le(cmp, b, a)
  }

  /** What a comparison function has to be, on the items of a table. */
  ghost predicate TotalPreorder(cmp: Cmp, items: set<Flow>) {
    && (forall a, b :: a in items && b in items ==> Le(cmp, a, b) || Le(cmp, b, a))
    && (forall a, b, c :: a in items && b in items && c in items && Le(cmp, a, b) && Le(cmp, b, c) ==> Le(cmp, a, c))
  }

  ghost predicate Among(s: seq<Flow>, items: set<Flow>) {
    forall x :: x in s ==> x in items
  }

  ghost predicate Sorted(cmp: Cmp, s: seq<Flow>) {
    forall i, j :: 0 <= i < j < |s| ==> Le(cmp, s[i], s[j])
  }

  /** The items that compare equal to a, in order. */
  function ClassOf(cmp: Cmp, s: seq<Flow>, a: Flow): (r: seq<Flow>)
    ensures forall x :: x in r ==> x in s && Equiv(cmp, x, a)
  {
    if s == [] then [] else (if Equiv(cmp, s[0], a) then [s[0]] else []) + ClassOf(cmp, s[1..], a)
  }

  /** r is a stable rearrangement of s: items that compare equal keep their order, and none is lost. */
  ghost predicate Stable(cmp: Cmp, s: seq<Flow>, r: seq<Flow>) {
    |r| == |s| && forall a :: a in s ==> ClassOf(cmp, r, a) == ClassOf(cmp, s, a)
  }

  // ----- HASH_SRT

  /** The merge of two runs: on a tie the left one goes first. */
  function Merge(cmp: Cmp, p: seq<Flow>, q: seq<Flow>): (r: seq<Flow>)
    ensures |r| == |p| + |q|
    decreases |p| + |q|
  {
    if p == [] then q
    else if q == [] then p
    else if Le(cmp, p[0], q[0]) then [p[0]] + Merge(cmp, p[1..], q)
    else [q[0]] + Merge(cmp, p, q[1..])
  }

  function Front(s: seq<Flow>, k: nat): (r: seq<Flow>)
    ensures |r| == if k < |s| then k else |s|
  {
    if k < |s| then s[..k] else s
  }

  function Rest(s: seq<Flow>, k: nat): (r: seq<Flow>)
    ensures |r| == if k < |s| then |s| - k else 0
  {
    if k < |s| then s[k..] else []
  }

  /** One pass: each two adjacent runs of length k are merged. */
  function MergePass(cmp: Cmp, s: seq<Flow>, k: nat): (r: seq<Flow>)
    requires k > 0
    ensures |r| == |s|
    decreases |s|
  {
    if s == [] then []
    else
      Merge(cmp, Front(s, k), Front(Rest(s, k), k)) + MergePass(cmp, Rest(Rest(s, k), k), k)
  }

  /** Passes with runs of length k, 2k, 4k, ... until one merge is enough. */
  function SortFrom(cmp: Cmp, s: seq<Flow>, k: nat): (r: seq<Flow>)
    requires k > 0
    ensures |r| == |s|
    decreases if k < |s| then |s| - k else 0
  {
    if |s| <= 2 * k then MergePass(cmp, s, k) else SortFrom(cmp, MergePass(cmp, s, k), 2 * k)
  }

  /** HASH_SRT. */
  function HashSort(cmp: Cmp, s: seq<Flow>): (r: seq<Flow>)
    ensures |r| == |s|
  {
    SortFrom(cmp, s, 1)
  }

  // ----- HASH_ADD_INORDER

  /** In front of the first item that compares greater. */
  function Insert(cmp: Cmp, s: seq<Flow>, n: Flow): (r: seq<Flow>)
    ensures |r| == |s| + 1
  {
    if s == [] || !Le(cmp, s[0], n) then [n] + s else [s[0]] + Insert(cmp, s[1..], n)
  }

  /** The same items, inserted one by one. */
  function InsertAll(cmp: Cmp, s: seq<Flow>): (r: seq<Flow>)
    ensures |r| == |s|
  {
    if s == [] then [] else Insert(cmp, InsertAll(cmp, s[..|s| - 1]), s[|s| - 1])
  }

  // ----- sorted and stable determine the result

  lemma {:induction false} ClassConcat(cmp: Cmp, s: seq<Flow>, t: seq<Flow>, a: Flow)
    ensures ClassOf(cmp, s + t, a) == ClassOf(cmp, s, a) + ClassOf(cmp, t, a)
  {
    if s == [] {
      assert s + t == t;
    } else {
      assert (s + t)[1..] == s[1..] + t;
      ClassConcat(cmp, s[1..], t, a);
    }
  }

  lemma {:induction false} ClassNone(cmp: Cmp, s: seq<Flow>, a: Flow)
    requires forall x :: x in s ==> !Equiv(cmp, x, a)
    ensures ClassOf(cmp, s, a) == []
  {
    if s != [] {
      ClassNone(cmp, s[1..], a);
    }
  }

  lemma {:induction false} ClassHas(cmp: Cmp, s: seq<Flow>, a: Flow, x: Flow)
    requires x in s && Equiv(cmp, x, a)
    ensures x in ClassOf(cmp, s, a)
  {
    if s[0] != x {
      ClassHas(cmp, s[1..], a, x);
    }
  }

  lemma ClassTail(cmp: Cmp, s: seq<Flow>, t: seq<Flow>, a: Flow)
    requires s != [] && t != [] && s[0] == t[0] && ClassOf(cmp, s, a) == ClassOf(cmp, t, a)
    ensures ClassOf(cmp, s[1..], a) == ClassOf(cmp, t[1..], a)
  {
    var head := if Equiv(cmp, s[0], a) then [s[0]] else [];
    assert ClassOf(cmp, s, a)[|head|..] == ClassOf(cmp, s[1..], a);
    assert ClassOf(cmp, t, a)[|head|..] == ClassOf(cmp, t[1..], a);
  }

  /** The first items agree. */
  lemma FirstAgree(cmp: Cmp, items: set<Flow>, s: seq<Flow>, t: seq<Flow>)
    requires TotalPreorder(cmp, items) && Among(s, items) && Among(t, items)
    requires Sorted(cmp, s) && Sorted(cmp, t) && s != [] && t != []
    requires forall a :: a in items ==> ClassOf(cmp, s, a) == ClassOf(cmp, t, a)
    ensures s[0] == t[0]
  {
    var x, y := s[0], t[0];
    assert Equiv(cmp, x, x) && Equiv(cmp, y, y);
    ClassHas(cmp, s, x, x);
    ClassHas(cmp, t, y, y);
    assert x in ClassOf(cmp, t, x) && y in ClassOf(cmp, s, y);
    assert Le(cmp, y, x) && Le(cmp, x, y);
    assert ClassOf(cmp, s, x)[0] == x && ClassOf(cmp, t, x)[0] == y;
  }

  lemma SortedTail(cmp: Cmp, items: set<Flow>, s: seq<Flow>)
    requires Among(s, items) && Sorted(cmp, s) && s != []
    ensures Among(s[1..], items) && Sorted(cmp, s[1..]) && s[0] in items
  {
  }

  /** There is only one stable sort. */
  lemma {:induction false} StableSortUnique(cmp: Cmp, items: set<Flow>, s: seq<Flow>, t: seq<Flow>)
    requires TotalPreorder(cmp, items) && Among(s, items) && Among(t, items)
    requires Sorted(cmp, s) && Sorted(cmp, t) && |s| == |t|
    requires forall a :: a in items ==> ClassOf(cmp, s, a) == ClassOf(cmp, t, a)
    ensures s == t
  {
    hide TotalPreorder, Among, Sorted, ClassOf;
    if s != [] {
      FirstAgree(cmp, items, s, t);
      SortedTail(cmp, items, s);
      SortedTail(cmp, items, t);
      forall a | a in items
        ensures ClassOf(cmp, s[1..], a) == ClassOf(cmp, t[1..], a)
      {
        ClassTail(cmp, s, t, a);
      }
      StableSortUnique(cmp, items, s[1..], t[1..]);
      assert s == [s[0]] + s[1..] && t == [t[0]] + t[1..];
    }
  }

  // ----- merging

  lemma {:induction false} MergeElements(cmp: Cmp, p: seq<Flow>, q: seq<Flow>)
    ensures forall x :: x in Merge(cmp, p, q) ==> x in p || x in q
    decreases |p| + |q|
  {
    if p != [] && q != [] {
      if Le(cmp, p[0], q[0]) {
        MergeElements(cmp, p[1..], q);
      } else {
        MergeElements(cmp, p, q[1..]);
      }
    }
  }

  lemma SortedCons(cmp: Cmp, x: Flow, s: seq<Flow>)
    requires Sorted(cmp, s) && forall y :: y in s ==> Le(cmp, x, y)
    ensures Sorted(cmp, [x] + s)
  {
  }

  /** The first of a sorted sequence is least. */
  lemma LeastFirst(cmp: Cmp, items: set<Flow>, s: seq<Flow>, y: Flow)
    requires TotalPreorder(cmp, items) && Among(s, items) && Sorted(cmp, s) && y in s
    ensures Le(cmp, s[0], y)
  {
    var i :| 0 <= i < |s| && s[i] == y;
    if i == 0 {
      assert Le(cmp, y, y);
    }
  }

  lemma {:induction false} MergeSorted(cmp: Cmp, items: set<Flow>, p: seq<Flow>, q: seq<Flow>)
    requires TotalPreorder(cmp, items) && Among(p, items) && Among(q, items) && Sorted(cmp, p) && Sorted(cmp, q)
    ensures Sorted(cmp, Merge(cmp, p, q))
    decreases |p| + |q|
  {
    if p != [] && q != [] {
      var left := Le(cmp, p[0], q[0]);
      var x := if left then p[0] else q[0];
      var rest := if left then Merge(cmp, p[1..], q) else Merge(cmp, p, q[1..]);
      if left {
        MergeSorted(cmp, items, p[1..], q);
        MergeElements(cmp, p[1..], q);
      } else {
        MergeSorted(cmp, items, p, q[1..]);
        MergeElements(cmp, p, q[1..]);
      }
      forall y | y in rest
        ensures Le(cmp, x, y)
      {
        if y in p {
          LeastFirst(cmp, items, p, y);
        } else {
          assert y in q;
          LeastFirst(cmp, items, q, y);
        }
      }
      SortedCons(cmp, x, rest);
    }
  }

  /** What compares greater than the right run's first item has no equals of that item. */
  lemma NoneEqual(cmp: Cmp, items: set<Flow>, s: seq<Flow>, n: Flow, a: Flow)
    requires TotalPreorder(cmp, items) && Among(s, items) && Sorted(cmp, s) && n in items && a in items
    requires s != [] && !Le(cmp, s[0], n) && Equiv(cmp, n, a)
    ensures ClassOf(cmp, s, a) == []
  {
    forall x | x in s
      ensures !Equiv(cmp, x, a)
    {
      LeastFirst(cmp, items, s, x);
    }
    ClassNone(cmp, s, a);
  }

  lemma {:induction false} MergeStable(cmp: Cmp, items: set<Flow>, p: seq<Flow>, q: seq<Flow>, a: Flow)
    requires a in items && TotalPreorder(cmp, items) && Among(p, items) && Among(q, items)
    requires Sorted(cmp, p) && Sorted(cmp, q)
    ensures ClassOf(cmp, Merge(cmp, p, q), a) == ClassOf(cmp, p, a) + ClassOf(cmp, q, a)
    decreases |p| + |q|
  {
    hide TotalPreorder, Among, Sorted, Equiv, ClassOf;
    if p == [] || q == [] {
      ClassNone(cmp, [], a);
    } else {
      SortedTail(cmp, items, p);
      SortedTail(cmp, items, q);
      ClassFirst(cmp, p, a);
      ClassFirst(cmp, q, a);
      ClassFirst(cmp, Merge(cmp, p, q), a);
      if Le(cmp, p[0], q[0]) {
        MergeStable(cmp, items, p[1..], q, a);
      } else {
        MergeStable(cmp, items, p, q[1..], a);
        if Equiv(cmp, q[0], a) {
          NoneEqual(cmp, items, p, q[0], a);
        }
      }
    }
  }

  lemma ClassFirst(cmp: Cmp, s: seq<Flow>, a: Flow)
    requires s != []
    ensures ClassOf(cmp, s, a) == (if Equiv(cmp, s[0], a) then [s[0]] else []) + ClassOf(cmp, s[1..], a)
  {
  }

  // ----- passes

  /** s consists of sorted runs of length k, the last one perhaps shorter. */
  ghost predicate Runs(cmp: Cmp, s: seq<Flow>, k: nat)
    requires k > 0
    decreases |s|
  {
    s == [] || (Sorted(cmp, Front(s, k)) && Runs(cmp, Rest(s, k), k))
  }

  lemma {:induction false} SingleRuns(cmp: Cmp, s: seq<Flow>)
    ensures Runs(cmp, s, 1)
    decreases |s|
  {
    if |s| > 0 {
      SingleRuns(cmp, Rest(s, 1));
    }
  }

  /** The two runs a merge takes, and what is left. */
  lemma CutRuns(s: seq<Flow>, k: nat)
    requires k > 0
    ensures var p, q, rest := Front(s, k), Front(Rest(s, k), k), Rest(Rest(s, k), k);
            s == p + (q + rest) && (s != [] ==> |rest| < |s|)
  {
  }

  lemma RunsCut(cmp: Cmp, items: set<Flow>, s: seq<Flow>, k: nat)
    requires k > 0 && Runs(cmp, s, k) && Among(s, items)
    ensures var p, q, rest := Front(s, k), Front(Rest(s, k), k), Rest(Rest(s, k), k);
            && Sorted(cmp, p) && Sorted(cmp, q) && Runs(cmp, rest, k)
            && Among(p, items) && Among(q, items) && Among(rest, items)
  {
    if s != [] {
      var t := Rest(s, k);
      assert Runs(cmp, t, k);
      CutRuns(s, k);
    }
  }

  lemma {:induction false} PassRuns(cmp: Cmp, items: set<Flow>, s: seq<Flow>, k: nat)
    requires TotalPreorder(cmp, items) && Among(s, items) && k > 0 && Runs(cmp, s, k)
    ensures Runs(cmp, MergePass(cmp, s, k), 2 * k)
    decreases |s|
  {
    if s != [] {
      var p, q, rest := Front(s, k), Front(Rest(s, k), k), Rest(Rest(s, k), k);
      CutRuns(s, k);
      RunsCut(cmp, items, s, k);
      MergeSorted(cmp, items, p, q);
      PassRuns(cmp, items, rest, k);
      var merged, after := Merge(cmp, p, q), MergePass(cmp, rest, k);
      assert |merged| < 2 * k ==> after == [];
      assert Front(merged + after, 2 * k) == merged;
      assert Rest(merged + after, 2 * k) == after;
    }
  }

  lemma {:induction false} PassStable(cmp: Cmp, items: set<Flow>, s: seq<Flow>, k: nat, a: Flow)
    requires a in items && TotalPreorder(cmp, items) && Among(s, items) && k > 0 && Runs(cmp, s, k)
    ensures ClassOf(cmp, MergePass(cmp, s, k), a) == ClassOf(cmp, s, a)
    decreases |s|
  {
    hide TotalPreorder, Among, Sorted, Runs, ClassOf, Merge, Front, Rest;
    if s != [] {
      var p, q, rest := Front(s, k), Front(Rest(s, k), k), Rest(Rest(s, k), k);
      CutRuns(s, k);
      RunsCut(cmp, items, s, k);
      MergeStable(cmp, items, p, q, a);
      PassStable(cmp, items, rest, k, a);
      ClassConcat(cmp, Merge(cmp, p, q), MergePass(cmp, rest, k), a);
      ClassConcat(cmp, p, q + rest, a);
      ClassConcat(cmp, q, rest, a);
    }
  }

  /** Whatever the comparison function is, the result is a rearrangement. */
  lemma {:induction false} MergeMultiset(cmp: Cmp, p: seq<Flow>, q: seq<Flow>)
    ensures multiset(Merge(cmp, p, q)) == multiset(p) + multiset(q)
    decreases |p| + |q|
  {
    if p != [] && q != [] {
      if Le(cmp, p[0], q[0]) {
        MergeMultiset(cmp, p[1..], q);
        assert p == [p[0]] + p[1..];
      } else {
        MergeMultiset(cmp, p, q[1..]);
        assert q == [q[0]] + q[1..];
      }
    }
  }

  lemma {:induction false} PassMultiset(cmp: Cmp, s: seq<Flow>, k: nat)
    requires k > 0
    ensures multiset(MergePass(cmp, s, k)) == multiset(s)
    decreases |s|
  {
    if s != [] {
      var p, q, rest := Front(s, k), Front(Rest(s, k), k), Rest(Rest(s, k), k);
      CutRuns(s, k);
      MergeMultiset(cmp, p, q);
      PassMultiset(cmp, rest, k);
    }
  }

  lemma {:induction false} SortMultiset(cmp: Cmp, s: seq<Flow>, k: nat)
    requires k > 0
    ensures multiset(SortFrom(cmp, s, k)) == multiset(s)
    decreases if k < |s| then |s| - k else 0
  {
    PassMultiset(cmp, s, k);
    if |s| > 2 * k {
      SortMultiset(cmp, MergePass(cmp, s, k), 2 * k);
    }
  }

  lemma {:induction false} SortFromSorts(cmp: Cmp, items: set<Flow>, s: seq<Flow>, k: nat)
    requires TotalPreorder(cmp, items) && Among(s, items) && k > 0 && Runs(cmp, s, k)
    ensures Sorted(cmp, SortFrom(cmp, s, k))
    ensures forall a :: a in items ==> ClassOf(cmp, SortFrom(cmp, s, k), a) == ClassOf(cmp, s, a)
    decreases if k < |s| then |s| - k else 0
  {
    hide TotalPreorder, Among, Sorted;
    var r := MergePass(cmp, s, k);
    PassRuns(cmp, items, s, k);
    PassAmong(cmp, items, s, k);
    forall a | a in items
      ensures ClassOf(cmp, r, a) == ClassOf(cmp, s, a)
    {
      PassStable(cmp, items, s, k, a);
    }
    if |s| > 2 * k {
      SortFromSorts(cmp, items, r, 2 * k);
    } else if s == [] {
      EmptySorted(cmp, r);
    } else {
      assert Front(r, 2 * k) == r;
    }
  }

  lemma EmptySorted(cmp: Cmp, s: seq<Flow>)
    requires s == []
    ensures Sorted(cmp, s)
  {
  }

  lemma PassAmong(cmp: Cmp, items: set<Flow>, s: seq<Flow>, k: nat)
    requires k > 0 && Among(s, items)
    ensures Among(MergePass(cmp, s, k), items)
  {
    var r := MergePass(cmp, s, k);
    PassMultiset(cmp, s, k);
    SameElements(s, r);
  }

  lemma SameElements(s: seq<Flow>, t: seq<Flow>)
    requires multiset(s) == multiset(t)
    ensures forall x :: x in s ==> x in t
    ensures forall x :: x in t ==> x in s
  {
    forall x | x in s
      ensures x in t
    {
      assert x in multiset(s);
    }
    forall x | x in t
      ensures x in s
    {
      assert x in multiset(t);
    }
  }

  // ----- sorted insertion

  lemma {:induction false} InsertElements(cmp: Cmp, s: seq<Flow>, n: Flow)
    ensures forall x :: x in Insert(cmp, s, n) ==> x in s || x == n
    ensures forall x :: x in s || x == n ==> x in Insert(cmp, s, n)
  {
    if s != [] && Le(cmp, s[0], n) {
      InsertElements(cmp, s[1..], n);
    }
  }

  lemma {:induction false} InsertSorted(cmp: Cmp, items: set<Flow>, s: seq<Flow>, n: Flow)
    requires TotalPreorder(cmp, items) && Among(s, items) && n in items && Sorted(cmp, s)
    ensures Sorted(cmp, Insert(cmp, s, n))
  {
    if s == [] {
    } else if Le(cmp, s[0], n) {
      InsertSorted(cmp, items, s[1..], n);
      InsertElements(cmp, s[1..], n);
      forall y | y in Insert(cmp, s[1..], n)
        ensures Le(cmp, s[0], y)
      {
        if y in s {
          LeastFirst(cmp, items, s, y);
        }
      }
      SortedCons(cmp, s[0], Insert(cmp, s[1..], n));
    } else {
      forall y | y in s
        ensures Le(cmp, n, y)
      {
        LeastFirst(cmp, items, s, y);
      }
      SortedCons(cmp, n, s);
    }
  }

  lemma {:induction false} InsertStable(cmp: Cmp, items: set<Flow>, s: seq<Flow>, n: Flow, a: Flow)
    requires a in items && TotalPreorder(cmp, items) && Among(s, items) && n in items && Sorted(cmp, s)
    ensures ClassOf(cmp, Insert(cmp, s, n), a) == ClassOf(cmp, s, a) + ClassOf(cmp, [n], a)
  {
    if s != [] && Le(cmp, s[0], n) {
      InsertStable(cmp, items, s[1..], n, a);
    } else if Equiv(cmp, n, a) {
      forall x | x in s
        ensures !Equiv(cmp, x, a)
      {
        LeastFirst(cmp, items, s, x);
      }
      ClassNone(cmp, s, a);
    }
  }

  lemma {:induction false} InsertAllElements(cmp: Cmp, s: seq<Flow>)
    ensures forall x :: x in InsertAll(cmp, s) ==> x in s
  {
    if s != [] {
      var k := |s| - 1;
      InsertAllElements(cmp, s[..k]);
      InsertElements(cmp, InsertAll(cmp, s[..k]), s[k]);
      assert s == s[..k] + [s[k]];
    }
  }

  lemma {:induction false} InsertAllSorts(cmp: Cmp, items: set<Flow>, s: seq<Flow>)
    requires TotalPreorder(cmp, items) && Among(s, items)
    ensures Sorted(cmp, InsertAll(cmp, s))
    ensures forall a :: a in items ==> ClassOf(cmp, InsertAll(cmp, s), a) == ClassOf(cmp, s, a)
  {
    if s != [] {
      var k := |s| - 1;
      var before := InsertAll(cmp, s[..k]);
      InsertAllSorts(cmp, items, s[..k]);
      InsertAllElements(cmp, s[..k]);
      assert Among(before, items);
      InsertSorted(cmp, items, before, s[k]);
      assert s == s[..k] + [s[k]];
      forall a | a in items
        ensures ClassOf(cmp, InsertAll(cmp, s), a) == ClassOf(cmp, s, a)
      {
        InsertStable(cmp, items, before, s[k], a);
        ClassConcat(cmp, s[..k], [s[k]], a);
      }
    }
  }

  lemma SortedMeans(cmp: Cmp, s: seq<Flow>)
    requires Sorted(cmp, s)
    ensures forall i, j :: 0 <= i < j < |s| ==> cmp(s[i], s[j]) <= 0
  {
    forall i, j | 0 <= i < j < |s|
      ensures cmp(s[i], s[j]) <= 0
    {
      assert Le(cmp, s[i], s[j]);
    }
  }

  /** HASH_SRT sorts, is stable and loses nothing, and gives the order that inserting the same items one by
      one with HASH_ADD_INORDER gives. */
  lemma HashSortIsStableSort(cmp: Cmp, s: seq<Flow>)
    requires TotalPreorder(cmp, set n | n in s)
    ensures Sorted(cmp, HashSort(cmp, s)) && Stable(cmp, s, HashSort(cmp, s))
    ensures forall i, j :: 0 <= i < j < |s| ==> cmp(HashSort(cmp, s)[i], HashSort(cmp, s)[j]) <= 0
    ensures multiset(HashSort(cmp, s)) == multiset(s)
    ensures HashSort(cmp, s) == InsertAll(cmp, s)
  {
    hide TotalPreorder, Sorted;
    var items := set n | n in s;
    SingleRuns(cmp, s);
    SortFromSorts(cmp, items, s, 1);
    SortMultiset(cmp, s, 1);
    InsertAllSorts(cmp, items, s);
    InsertAllElements(cmp, s);
    SameElements(s, HashSort(cmp, s));
    assert Among(HashSort(cmp, s), items) && Among(InsertAll(cmp, s), items);
    StableSortUnique(cmp, items, HashSort(cmp, s), InsertAll(cmp, s));
    SortedMeans(cmp, HashSort(cmp, s));
  }
}
