/** RollingStats.java: the last maxSize values and their sum, kept up to date value by value. */
module Rolling {

  function Sum(s: seq<int>): int {
    if s == [] then 0 else Sum(s[..|s| - 1]) + s[|s| - 1]
  }

  function Mean(s: seq<int>): (average: real)
    requires s != []
  {
    (Sum(s) as real) / (|s| as real)
  }

  lemma MeanTimesSize(s: seq<int>)
    requires s != []
    ensures Mean(s) * (|s| as real) == Sum(s) as real
    ensures Mean(s) > 0.0 <==> Sum(s) > 0
  {
    Quotient(Sum(s) as real, |s| as real);
  }

  /** The last n elements, or all of them when there are fewer. */
  function Last<T>(s: seq<T>, n: nat): (r: seq<T>)
    ensures |r| == if |s| <= n then |s| else n
  {
    if |s| <= n then s else s[|s| - n..]
  }

  lemma {:induction false} SumConcat(a: seq<int>, b: seq<int>)
    ensures Sum(a + b) == Sum(a) + Sum(b)
  {
    if b == [] {
      assert a + b == a;
    } else {
      assert (a + b)[..|a + b| - 1] == a + b[..|b| - 1];
      SumConcat(a, b[..|b| - 1]);
    }
  }

  lemma SumTail(s: seq<int>)
    requires s != []
    ensures Sum(s[1..]) == Sum(s) - s[0]
  {
    assert s == [s[0]] + s[1..];
    SumConcat([s[0]], s[1..]);
    assert Sum([s[0]]) == s[0];
  }

  /** A window forgets only what no later window needs. */
  lemma LastOfLast<T>(s: seq<T>, x: T, n: nat)
    ensures Last(Last(s, n) + [x], n) == Last(s + [x], n)
  {
    if |s| > n {
      assert Last(s, n) + [x] == (s + [x])[|s| - n..];
    }
  }

  /** What the state store keeps between two messages. */
  datatype Saved = Saved(values: seq<int>, maxSize: nat, sum: int)

  class RollingStats {
    var values: seq<int>
    var maxSize: nat
    var sum: int

    ghost predicate Valid()
      reads this
    {
      |values| <= maxSize && sum == Sum(values)
    }

    constructor (maxSize: nat)
      ensures Valid() && values == [] && this.maxSize == maxSize
    {
      values, this.maxSize, sum := [], maxSize, 0;
    }

    /** Deserialization. */
    constructor Load(saved: Saved)
      requires |saved.values| <= saved.maxSize && saved.sum == Sum(saved.values)
      ensures Valid() && values == saved.values && maxSize == saved.maxSize
    {
      values, maxSize, sum := saved.values, saved.maxSize, saved.sum;
    }

    method Add(value: int)
      requires Valid()
      modifies this
      ensures Valid() && values == Last(old(values) + [value], maxSize) && maxSize == old(maxSize)
    {
      ghost var all := values + [value];
      SumConcat(values, [value]);
      assert Sum([value]) == value;
      values := values + [value];
      sum := sum + value;
      while |values| > maxSize
        invariant |values| <= |all| && values == all[|all| - |values|..]
        invariant |all| > maxSize ==> |values| >= maxSize
        invariant |all| <= maxSize ==> values == all
        invariant sum == Sum(values) && maxSize == old(maxSize)
        decreases |values|
      {
        SumTail(values);
        sum := sum - values[0];
        values := values[1..];
      }
    }

    method Average() returns (average: real)
      requires Valid()
      ensures average * (|values| as real) == Sum(values) as real
      ensures average > 0.0 <==> Sum(values) > 0
    {
      if values == [] {
        return 0.0;
      }
      average := (sum as real) / (|values| as real);
      Quotient(sum as real, |values| as real);
    }

    method Size() returns (size: nat)
      ensures size == |values|
    {
      return |values|;
    }
  }

  lemma Quotient(a: real, b: real)
    requires b > 0.0
    ensures (a / b) * b == a && (a / b > 0.0 <==> a > 0.0)
  {
    var q := a / b;
    assert q * b == a;
    if q > 0.0 {
      assert q * b > 0.0;
    } else if q < 0.0 {
      assert q * b < 0.0;
    }
  }
}
