/** Sequence helpers shared by the pipeline stages: order-preserving filter,
    map, and the subsequence relation. Every recursive definition peels the
    LAST element, so that a loop which appends one item per iteration keeps
    `result == F(input[..i])` as its invariant. */
module Seqs {

  /** Python's `[x for x in s if p(x)]`. */
  function Filter<T>(p: T -> bool, s: seq<T>): (r: seq<T>)
    ensures |r| <= |s|
    ensures forall x :: x in r ==> x in s && p(x)
  {
    if s == [] then [] else
    var r0 := Filter(p, s[..|s| - 1]);
    if p(s[|s| - 1]) then r0 + [s[|s| - 1]] else r0
  }

  /** Python's `[f(x) for x in s]`. */
  function Map<T, U>(f: T -> U, s: seq<T>): (r: seq<U>)
    ensures |r| == |s|
    ensures forall i :: 0 <= i < |s| ==> r[i] == f(s[i])
  {
    if s == [] then [] else Map(f, s[..|s| - 1]) + [f(s[|s| - 1])]
  }

  /** `a` is obtained from `b` by deleting elements, keeping the order. */
  predicate IsSubsequence<T(==)>(a: seq<T>, b: seq<T>)
    decreases |b|
  {
    if a == [] then true
    else if b == [] then false
    else
      || (a[|a| - 1] == b[|b| - 1] && IsSubsequence(a[..|a| - 1], b[..|b| - 1]))
      || IsSubsequence(a, b[..|b| - 1])
  }

  lemma FilterAppend<T>(p: T -> bool, s: seq<T>, x: T)
    ensures Filter(p, s + [x]) == if p(x) then Filter(p, s) + [x] else Filter(p, s)
  {
    assert (s + [x])[..|s|] == s;
  }

  /** Everything that satisfies `p` survives the filter. */
  lemma {:induction false} FilterKeeps<T>(p: T -> bool, s: seq<T>, x: T)
    requires x in s && p(x)
    ensures x in Filter(p, s)
  {
    if s[|s| - 1] != x {
      assert x in s[..|s| - 1] by {
        var i :| 0 <= i < |s| && s[i] == x;
        assert s[..|s| - 1][i] == x;
      }
      FilterKeeps(p, s[..|s| - 1], x);
    }
  }

  lemma {:induction false} SubsequenceDrop<T>(a: seq<T>, b: seq<T>, x: T)
    requires IsSubsequence(a, b)
    ensures IsSubsequence(a, b + [x])
  {
    if a != [] {
      assert (b + [x])[..|b|] == b;
    }
  }

  lemma {:induction false} SubsequenceSelf<T>(b: seq<T>)
    ensures IsSubsequence(b, b)
  {
    if b != [] {
      SubsequenceSelf(b[..|b| - 1]);
    }
  }

  /** The filter keeps its survivors in their original order. */
  lemma {:induction false} FilterIsSubsequence<T>(p: T -> bool, s: seq<T>)
    ensures IsSubsequence(Filter(p, s), s)
  {
    if s != [] {
      var s0 := s[..|s| - 1];
      FilterIsSubsequence(p, s0);
      if p(s[|s| - 1]) {
        var r := Filter(p, s);
        assert r[..|r| - 1] == Filter(p, s0);
      } else {
        SubsequenceDrop(Filter(p, s0), s0, s[|s| - 1]);
        assert s0 + [s[|s| - 1]] == s;
      }
    }
  }

  lemma {:induction false} FilterConcat<T>(p: T -> bool, a: seq<T>, b: seq<T>)
    ensures Filter(p, a + b) == Filter(p, a) + Filter(p, b)
    decreases |b|
  {
    if b == [] {
      assert a + b == a;
    } else {
      var b0 := b[..|b| - 1];
      var x := b[|b| - 1];
      assert a + b == (a + b0) + [x];
      assert b == b0 + [x];
      FilterAppend(p, a + b0, x);
      FilterAppend(p, b0, x);
      FilterConcat(p, a, b0);
    }
  }

  /** Deleting elements twice is deleting elements once. */
  lemma {:induction false} SubsequenceTrans<T>(a: seq<T>, b: seq<T>, c: seq<T>)
    requires IsSubsequence(a, b) && IsSubsequence(b, c)
    ensures IsSubsequence(a, c)
    decreases |c|
  {
    if a != [] {
      var c0 := c[..|c| - 1];
      if IsSubsequence(b, c0) {
        SubsequenceTrans(a, b, c0);
      } else {
        var b0 := b[..|b| - 1];
        if a[|a| - 1] == b[|b| - 1] && IsSubsequence(a[..|a| - 1], b0) {
          SubsequenceTrans(a[..|a| - 1], b0, c0);
        } else {
          SubsequenceTrans(a, b0, c0);
        }
      }
    }
  }

  /** Mapping both sides keeps the subsequence relation. */
  lemma {:induction false} MapSubsequence<T, U>(f: T -> U, a: seq<T>, b: seq<T>)
    requires IsSubsequence(a, b)
    ensures IsSubsequence(Map(f, a), Map(f, b))
    decreases |b|
  {
    if a != [] {
      var b0 := b[..|b| - 1];
      var fb := Map(f, b);
      assert fb[..|fb| - 1] == Map(f, b0);
      if a[|a| - 1] == b[|b| - 1] && IsSubsequence(a[..|a| - 1], b0) {
        MapSubsequence(f, a[..|a| - 1], b0);
        var fa := Map(f, a);
        assert fa[..|fa| - 1] == Map(f, a[..|a| - 1]);
      } else {
        MapSubsequence(f, a, b0);
      }
    }
  }

  /** Every element of a subsequence is an element of the whole. */
  lemma {:induction false} SubsequenceMembers<T>(a: seq<T>, b: seq<T>, x: T)
    requires IsSubsequence(a, b) && x in a
    ensures x in b
    decreases |b|
  {
    var b0 := b[..|b| - 1];
    if a[|a| - 1] == b[|b| - 1] && IsSubsequence(a[..|a| - 1], b0) {
      if x != a[|a| - 1] {
        assert x in a[..|a| - 1] by {
          var i :| 0 <= i < |a| && a[i] == x;
          assert a[..|a| - 1][i] == x;
        }
        SubsequenceMembers(a[..|a| - 1], b0, x);
      }
    } else {
      SubsequenceMembers(a, b0, x);
    }
  }
}
