/** `Array.prototype.filter`: keeps, in their original order, the elements a predicate accepts. */
module Filtering {

  function Filter<T>(s: seq<T>, p: T -> bool): (r: seq<T>)
    ensures |r| <= |s|
    ensures forall x :: x in r ==> x in s && p(x)
    ensures forall i :: 0 <= i < |s| && p(s[i]) ==> s[i] in r
    decreases |s|
  {
    if s == [] then [] else (if p(s[0]) then [s[0]] else []) + Filter(s[1..], p)
  }

  /** Positions strictly increase along `idx`. */
  ghost predicate Increasing(idx: seq<int>) {
    forall a, b :: 0 <= a < b < |idx| ==> idx[a] < idx[b]
  }

  /**
   * `r` is the order-preserving subsequence of `s` made of exactly the elements at the
   * positions `p` accepts, listed in `idx`.
   */
  ghost predicate SelectsMatches<T>(r: seq<T>, s: seq<T>, p: T -> bool, idx: seq<int>) {
    && |idx| == |r|
    && Increasing(idx)
    && (forall k :: 0 <= k < |idx| ==> 0 <= idx[k] < |s| && r[k] == s[idx[k]])
    && (forall i :: 0 <= i < |s| ==> (p(s[i]) <==> i in idx))
  }

  /** The positions of `s` that `p` accepts, in increasing order. */
  ghost function MatchIndices<T>(s: seq<T>, p: T -> bool): seq<int>
    decreases |s|
  {
    if s == [] then []
    else (if p(s[0]) then [0] else []) + Shift(MatchIndices(s[1..], p))
  }

  ghost function Shift(idx: seq<int>): (r: seq<int>)
    ensures |r| == |idx|
    ensures forall k :: 0 <= k < |idx| ==> r[k] == idx[k] + 1
  {
    seq(|idx|, k requires 0 <= k < |idx| => idx[k] + 1)
  }

  /** `Filter` is exactly the order-preserving selection of the accepted elements. */
  lemma {:induction false} FilterSelectsMatches<T>(s: seq<T>, p: T -> bool)
    ensures SelectsMatches(Filter(s, p), s, p, MatchIndices(s, p))
    decreases |s|
  {
    if s != [] {
      FilterSelectsMatches(s[1..], p);
      SelectsCons(s, p, Filter(s[1..], p), MatchIndices(s[1..], p));
    }
  }

  /** Extends a selection from the tail of `s` to all of `s`. */
  lemma SelectsCons<T>(s: seq<T>, p: T -> bool, rt: seq<T>, it: seq<int>)
    requires s != []
    requires SelectsMatches(rt, s[1..], p, it)
    ensures var head := if p(s[0]) then [s[0]] else [];
            var ihead := if p(s[0]) then [0] else [];
            SelectsMatches(head + rt, s, p, ihead + Shift(it))
  {
    var head := if p(s[0]) then [s[0]] else [];
    var ihead := if p(s[0]) then [0] else [];
    ConsPositions(s, rt, it, head, ihead);
    ConsIncreasing(it, ihead);
    ConsMembership(s, p, it, ihead);
  }

  lemma ConsPositions<T>(s: seq<T>, rt: seq<T>, it: seq<int>, head: seq<T>, ihead: seq<int>)
    requires s != [] && |it| == |rt| && |head| == |ihead| <= 1
    requires ihead != [] ==> ihead[0] == 0 && head[0] == s[0]
    requires forall k :: 0 <= k < |it| ==> 0 <= it[k] < |s| - 1 && rt[k] == s[1..][it[k]]
    ensures var r, idx := head + rt, ihead + Shift(it);
            forall k :: 0 <= k < |idx| ==> 0 <= idx[k] < |s| && r[k] == s[idx[k]]
  {
    var sh := Shift(it);
    var r, idx := head + rt, ihead + sh;
    forall k | 0 <= k < |idx|
      ensures 0 <= idx[k] < |s| && r[k] == s[idx[k]]
    {
      if k >= |ihead| {
        assert idx[k] == it[k - |ihead|] + 1;
        assert r[k] == rt[k - |ihead|];
      }
    }
  }

  lemma ConsIncreasing(it: seq<int>, ihead: seq<int>)
    requires Increasing(it) && (forall k :: 0 <= k < |it| ==> 0 <= it[k])
    requires ihead == [] || ihead == [0]
    ensures Increasing(ihead + Shift(it))
  {
    var idx := ihead + Shift(it);
    forall a, b | 0 <= a < b < |idx|
      ensures idx[a] < idx[b]
    {
      if a >= |ihead| {
        assert idx[a] == it[a - |ihead|] + 1 && idx[b] == it[b - |ihead|] + 1;
      } else {
        assert idx[b] == it[b - |ihead|] + 1;
      }
    }
  }

  lemma ConsMembership<T>(s: seq<T>, p: T -> bool, it: seq<int>, ihead: seq<int>)
    requires s != []
    requires ihead == (if p(s[0]) then [0] else [])
    requires forall k :: 0 <= k < |it| ==> 0 <= it[k]
    requires forall i :: 0 <= i < |s| - 1 ==> (p(s[1..][i]) <==> i in it)
    ensures forall i :: 0 <= i < |s| ==> (p(s[i]) <==> i in ihead + Shift(it))
  {
    var sh := Shift(it);
    var idx := ihead + sh;
    forall i | 0 <= i < |s|
      ensures p(s[i]) <==> i in idx
    {
      if i > 0 {
        assert s[i] == s[1..][i - 1];
        if p(s[i]) {
          var k :| 0 <= k < |it| && it[k] == i - 1;
          assert idx[|ihead| + k] == i;
        }
        if i in idx {
          var k :| 0 <= k < |idx| && idx[k] == i;
          assert it[k - |ihead|] == i - 1;
        }
      } else if 0 in idx {
        var k :| 0 <= k < |idx| && idx[k] == 0;
      }
    }
  }

  /** Filtering distributes over concatenation. */
  lemma {:induction false} FilterConcat<T>(a: seq<T>, b: seq<T>, p: T -> bool)
    ensures Filter(a + b, p) == Filter(a, p) + Filter(b, p)
    decreases |a|
  {
    if a != [] {
      assert (a + b)[1..] == a[1..] + b;
      FilterConcat(a[1..], b, p);
    } else {
      assert a + b == b;
    }
  }

  /** A filter that accepts everything returns its input. */
  lemma {:induction false} FilterKeepsAll<T>(s: seq<T>, p: T -> bool)
    requires forall i :: 0 <= i < |s| ==> p(s[i])
    ensures Filter(s, p) == s
    decreases |s|
  {
    if s != [] {
      FilterKeepsAll(s[1..], p);
    }
  }

  /** Predicates that agree on every element select the same elements. */
  lemma {:induction false} FilterSamePredicate<T>(s: seq<T>, p: T -> bool, q: T -> bool)
    requires forall i :: 0 <= i < |s| ==> p(s[i]) == q(s[i])
    ensures Filter(s, p) == Filter(s, q)
    decreases |s|
  {
    if s != [] {
      FilterSamePredicate(s[1..], p, q);
    }
  }

  /** A filter that rejects exactly one position deletes exactly that element. */
  lemma {:induction false} FilterDropsOne<T>(s: seq<T>, p: T -> bool, i: int)
    requires 0 <= i < |s| && !p(s[i])
    requires forall j :: 0 <= j < |s| && j != i ==> p(s[j])
    ensures Filter(s, p) == s[..i] + s[i + 1..]
    decreases i
  {
    var t := s[1..];
    if i == 0 {
      FilterKeepsAll(t, p);
    } else {
      FilterDropsOne(t, p, i - 1);
      assert [s[0]] + (t[..i - 1] + t[i..]) == s[..i] + s[i + 1..];
    }
  }
}
