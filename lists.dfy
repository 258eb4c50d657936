/** Order-preserving selection over sequences, the model of JavaScript's
    `Array.prototype.filter`, with the facts the views and the store rely on. */
module Lists {

  /** The elements of `s` that satisfy `p`, in their original order. */
  function Filter<T(==)>(s: seq<T>, p: T -> bool): (r: seq<T>)
    ensures |r| <= |s|
    ensures forall x :: x in r ==> x in s && p(x)
  {
    if s == [] then []
    else if p(s[0]) then [s[0]] + Filter(s[1..], p)
    else Filter(s[1..], p)
  }

  /** Every index of `idx` is in range and `idx` is strictly increasing. */
  ghost predicate IncreasingIndices(idx: seq<nat>, n: nat)
  {
    (forall k :: 0 <= k < |idx| ==> idx[k] < n) &&
    (forall k, m :: 0 <= k < m < |idx| ==> idx[k] < idx[m])
  }

  /** An element is kept exactly when it is in `s` and satisfies `p`. */
  lemma {:induction false} FilterMembers<T>(s: seq<T>, p: T -> bool, x: T)
    ensures x in Filter(s, p) <==> x in s && p(x)
  {
    if s != [] {
      FilterMembers(s[1..], p, x);
      assert x in s <==> x == s[0] || x in s[1..];
    }
  }

  /** The positions of `s` whose element satisfies `p`, in increasing order. */
  function Positions<T>(s: seq<T>, p: T -> bool): (idx: seq<nat>)
    ensures |idx| == |Filter(s, p)|
  {
    if s == [] then []
    else if p(s[0]) then [0] + Shift(Positions(s[1..], p))
    else Shift(Positions(s[1..], p))
  }

  /** Every position moved one place to the right. */
  function Shift(idx: seq<nat>): (r: seq<nat>)
    ensures |r| == |idx|
    ensures forall k :: 0 <= k < |idx| ==> r[k] == idx[k] + 1
  {
    seq(|idx|, k requires 0 <= k < |idx| => idx[k] + 1)
  }

  /** The positions are in range and strictly increasing. */
  lemma {:induction false} PositionsIncrease<T>(s: seq<T>, p: T -> bool)
    ensures IncreasingIndices(Positions(s, p), |s|)
  {
    if s != [] {
      PositionsIncrease(s[1..], p);
    }
  }

  /** The k-th kept element is the element at the k-th position. */
  lemma {:induction false} PositionsSelect<T>(s: seq<T>, p: T -> bool)
    ensures forall k :: 0 <= k < |Positions(s, p)| ==> Positions(s, p)[k] < |s| && Filter(s, p)[k] == s[Positions(s, p)[k]]
  {
    if s != [] {
      PositionsSelect(s[1..], p);
      var rest := Positions(s[1..], p);
      forall k | 0 <= k < |rest|
        ensures rest[k] + 1 < |s| && Filter(s[1..], p)[k] == s[rest[k] + 1]
      {
      }
    }
  }

  /** A position is listed exactly when its element satisfies `p`. */
  lemma {:induction false} PositionsMembers<T>(s: seq<T>, p: T -> bool, i: nat)
    requires i < |s|
    ensures p(s[i]) <==> i in Positions(s, p)
  {
    if i > 0 {
      PositionsMembers(s[1..], p, i - 1);
      var rest := Positions(s[1..], p);
      var shifted := Shift(rest);
      assert s[i] == s[1..][i - 1];
      if i in shifted {
        var k :| 0 <= k < |shifted| && shifted[k] == i;
        assert rest[k] == i - 1;
      }
      if i - 1 in rest {
        var k :| 0 <= k < |rest| && rest[k] == i - 1;
        assert shifted[k] == i;
      }
      assert Positions(s, p) == (if p(s[0]) then [0] + shifted else shifted);
      assert i in Positions(s, p) <==> i in shifted;
    } else {
      assert s != [];
      var shifted := Shift(Positions(s[1..], p));
      assert 0 !in shifted;
    }
  }

  /** When every element satisfies `p`, nothing is removed. */
  lemma {:induction false} FilterKeepsAll<T>(s: seq<T>, p: T -> bool)
    requires forall i :: 0 <= i < |s| ==> p(s[i])
    ensures Filter(s, p) == s
  {
    if s != [] {
      assert p(s[0]);
      FilterKeepsAll(s[1..], p);
    }
  }

  /** When no element satisfies `p`, everything is removed. */
  lemma {:induction false} FilterKeepsNone<T>(s: seq<T>, p: T -> bool)
    requires forall i :: 0 <= i < |s| ==> !p(s[i])
    ensures Filter(s, p) == []
  {
    if s != [] {
      assert !p(s[0]);
      FilterKeepsNone(s[1..], p);
    }
  }

  /** Two tests that agree on every element of `s` select the same elements. */
  lemma {:induction false} FilterAgrees<T>(s: seq<T>, p: T -> bool, q: T -> bool)
    requires forall i :: 0 <= i < |s| ==> p(s[i]) == q(s[i])
    ensures Filter(s, p) == Filter(s, q)
  {
    if s != [] {
      assert p(s[0]) == q(s[0]);
      FilterAgrees(s[1..], p, q);
    }
  }

  /** When `p` and `q` disagree on every element, each element is counted by
      exactly one of them. */
  lemma {:induction false} FilterSplit<T>(s: seq<T>, p: T -> bool, q: T -> bool)
    requires forall i :: 0 <= i < |s| ==> p(s[i]) != q(s[i])
    ensures |Filter(s, p)| + |Filter(s, q)| == |s|
  {
    if s != [] {
      assert p(s[0]) != q(s[0]);
      FilterSplit(s[1..], p, q);
    }
  }

  /** Nothing is kept exactly when no element satisfies `p`. */
  lemma {:induction false} FilterEmpty<T>(s: seq<T>, p: T -> bool)
    ensures Filter(s, p) == [] <==> forall i :: 0 <= i < |s| ==> !p(s[i])
  {
    if s != [] {
      FilterEmpty(s[1..], p);
      assert forall i :: 1 <= i < |s| ==> s[i] == s[1..][i - 1];
    }
  }
}
