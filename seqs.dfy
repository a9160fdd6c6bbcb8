/** Generic sequence helpers: `Array.prototype.filter` and order-preserving subsequences. */
module Seqs {

  /** `s.filter(p)`: the elements of `s` that satisfy `p`, in their original order. */
  function Filter<T>(s: seq<T>, p: T -> bool): (r: seq<T>)
    ensures |r| <= |s|
    ensures forall k :: 0 <= k < |r| ==> p(r[k])
    decreases |s|
  {
    if s == [] then []
    else (if p(s[0]) then [s[0]] else []) + Filter(s[1..], p)
  }

  /** The filter holds exactly the elements of `s` that satisfy `p`. */
  lemma {:induction false} FilterMembers<T(!new)>(s: seq<T>, p: T -> bool)
    ensures forall x :: x in Filter(s, p) <==> x in s && p(x)
    decreases |s|
  {
    if s != [] {
      FilterMembers(s[1..], p);
      assert s == [s[0]] + s[1..];
    }
  }

  /** `r` can be obtained from `s` by deleting elements, without reordering. */
  ghost predicate IsSubsequence<T>(r: seq<T>, s: seq<T>)
    decreases |s|
  {
    r == [] || (s != [] && ((r[0] == s[0] && IsSubsequence(r[1..], s[1..])) || IsSubsequence(r, s[1..])))
  }

  lemma {:induction false} FilterIsSubsequence<T>(s: seq<T>, p: T -> bool)
    ensures IsSubsequence(Filter(s, p), s)
    decreases |s|
  {
    if s != [] {
      FilterIsSubsequence(s[1..], p);
      var r := Filter(s, p);
      if p(s[0]) {
        assert r[0] == s[0] && r[1..] == Filter(s[1..], p);
      } else {
        assert r == Filter(s[1..], p);
      }
    }
  }

  /** A filter whose predicate holds of every element keeps everything. */
  lemma {:induction false} FilterAll<T>(s: seq<T>, p: T -> bool)
    requires forall k :: 0 <= k < |s| ==> p(s[k])
    ensures Filter(s, p) == s
    decreases |s|
  {
    if s != [] {
      FilterAll(s[1..], p);
    }
  }

  /** The filter keeps every copy of an element that passes and no copy of one that does not. */
  lemma {:induction false} FilterMultiset<T>(s: seq<T>, p: T -> bool)
    ensures forall x :: multiset(Filter(s, p))[x] == if p(x) then multiset(s)[x] else 0
    decreases |s|
  {
    if s != [] {
      FilterMultiset(s[1..], p);
      assert s == [s[0]] + s[1..];
    }
  }

  /** A filter that no element passes gives the empty sequence. */
  lemma {:induction false} FilterNone<T>(s: seq<T>, p: T -> bool)
    requires forall k :: 0 <= k < |s| ==> !p(s[k])
    ensures Filter(s, p) == []
    decreases |s|
  {
    if s != [] {
      FilterNone(s[1..], p);
    }
  }

  lemma {:induction false} FilterAppend<T>(a: seq<T>, b: seq<T>, p: T -> bool)
    ensures Filter(a + b, p) == Filter(a, p) + Filter(b, p)
    decreases |a|
  {
    if a != [] {
      var h := if p(a[0]) then [a[0]] else [];
      calc {
        Filter(a + b, p);
        { assert (a + b)[0] == a[0]; assert (a + b)[1..] == a[1..] + b; }
        h + Filter(a[1..] + b, p);
        { FilterAppend(a[1..], b, p); }
        h + (Filter(a[1..], p) + Filter(b, p));
        Filter(a, p) + Filter(b, p);
      }
    } else {
      assert a + b == b;
    }
  }

  /** Two predicates that agree on every element of `s` select the same elements. */
  lemma {:induction false} FilterCongruent<T>(s: seq<T>, p: T -> bool, q: T -> bool)
    requires forall k :: 0 <= k < |s| ==> p(s[k]) == q(s[k])
    ensures Filter(s, p) == Filter(s, q)
    decreases |s|
  {
    if s != [] {
      FilterCongruent(s[1..], p, q);
    }
  }

  /** A stronger predicate selects no more elements than a weaker one. */
  lemma {:induction false} FilterCountMonotone<T>(s: seq<T>, p: T -> bool, q: T -> bool)
    requires forall k :: 0 <= k < |s| ==> p(s[k]) ==> q(s[k])
    ensures |Filter(s, p)| <= |Filter(s, q)|
    decreases |s|
  {
    if s != [] {
      FilterCountMonotone(s[1..], p, q);
    }
  }

  /** Two predicates that never hold together select at most |s| elements between them. */
  lemma {:induction false} FilterDisjointCount<T>(s: seq<T>, p: T -> bool, q: T -> bool)
    requires forall k :: 0 <= k < |s| ==> !(p(s[k]) && q(s[k]))
    ensures |Filter(s, p)| + |Filter(s, q)| <= |s|
    decreases |s|
  {
    if s != [] {
      FilterDisjointCount(s[1..], p, q);
    }
  }

  /** Filtering by a stronger predicate yields a subsequence of filtering by a weaker one. */
  lemma {:induction false} FilterStrongerSubsequence<T>(s: seq<T>, p: T -> bool, q: T -> bool)
    requires forall k :: 0 <= k < |s| ==> p(s[k]) ==> q(s[k])
    ensures IsSubsequence(Filter(s, p), Filter(s, q))
    decreases |s|
  {
    if s != [] {
      FilterStrongerSubsequence(s[1..], p, q);
      var a, b := Filter(s[1..], p), Filter(s[1..], q);
      if p(s[0]) {
        assert Filter(s, p) == [s[0]] + a && Filter(s, q) == [s[0]] + b;
        assert ([s[0]] + a)[1..] == a && ([s[0]] + b)[1..] == b;
      } else if q(s[0]) {
        assert Filter(s, p) == a && Filter(s, q) == [s[0]] + b;
        SubsequenceOfCons(a, s[0], b);
      } else {
        assert Filter(s, p) == a && Filter(s, q) == b;
      }
    }
  }

  /** The three parts of `x + y + z` when `y` and `z` have two elements each. */
  lemma ThreeParts<T>(x: seq<T>, y: seq<T>, z: seq<T>)
    requires |y| == 2 && |z| == 2
    ensures var r := x + y + z;
      r[..|r| - 4] == x && r[|r| - 4..|r| - 2] == y && r[|r| - 2..] == z
  {
  }

  lemma AppendAssoc<T>(a: seq<T>, b: seq<T>, c: seq<T>)
    ensures a + (b + c) == (a + b) + c
  {
  }

  lemma AppendEmpty<T>(s: seq<T>)
    ensures s + [] == s
  {
  }

  lemma Regroup<T>(a1: seq<T>, a2: seq<T>, m: seq<T>, b1: seq<T>, b2: seq<T>)
    ensures (a1 + a2) + m + (b1 + b2) == a1 + ((a2 + m + b1) + b2)
  {
  }

  lemma SplitAt<T>(s: seq<T>, i: nat)
    requires i <= |s|
    ensures s[..i] + s[i..] == s
  {
  }

  /** A non-empty sequence is its head followed by its tail. */
  lemma ConsTail<T>(s: seq<T>)
    requires |s| > 0
    ensures [s[0]] + s[1..] == s
  {
  }

  lemma SubsequenceOfCons<T>(r: seq<T>, x: T, t: seq<T>)
    requires IsSubsequence(r, t)
    ensures IsSubsequence(r, [x] + t)
  {
    assert ([x] + t)[1..] == t;
  }

  /** Filtering by a predicate and then by another is filtering once by their conjunction. */
  lemma {:induction false} FilterFilter<T>(s: seq<T>, p: T -> bool, q: T -> bool, pq: T -> bool)
    requires forall k :: 0 <= k < |s| ==> pq(s[k]) == (p(s[k]) && q(s[k]))
    ensures Filter(Filter(s, p), q) == Filter(s, pq)
    decreases |s|
  {
    if s != [] {
      FilterFilter(s[1..], p, q, pq);
      var rest := Filter(s[1..], p);
      if p(s[0]) {
        assert Filter(s, p) == [s[0]] + rest;
        assert ([s[0]] + rest)[1..] == rest;
      } else {
        assert Filter(s, p) == rest;
      }
    }
  }

  /** Two sequences of the same length whose elements agree on `q` position by position have as
      many elements satisfying `q`. */
  lemma {:induction false} FilterCountPointwise<T>(s: seq<T>, t: seq<T>, q: T -> bool)
    requires |s| == |t|
    requires forall k :: 0 <= k < |s| ==> q(s[k]) == q(t[k])
    ensures |Filter(s, q)| == |Filter(t, q)|
    decreases |s|
  {
    if s != [] {
      FilterCountPointwise(s[1..], t[1..], q);
    }
  }

  /** Changing the elements `q` rejects, and no others, leaves the filter unchanged. */
  lemma {:induction false} FilterPointwise<T>(s: seq<T>, t: seq<T>, q: T -> bool)
    requires |s| == |t|
    requires forall k :: 0 <= k < |s| ==> q(s[k]) == q(t[k])
    requires forall k :: 0 <= k < |s| && q(s[k]) ==> s[k] == t[k]
    ensures Filter(s, q) == Filter(t, q)
    decreases |s|
  {
    if s != [] {
      FilterPointwise(s[1..], t[1..], q);
    }
  }

  /** When `s` and `t` agree on `q` everywhere except at `i`, where only `s[i]` satisfies it, the
      filter of `t` has exactly one element fewer. */
  lemma {:induction false} FilterCountDropOne<T>(s: seq<T>, t: seq<T>, q: T -> bool, i: nat)
    requires |s| == |t| && i < |s|
    requires forall k :: 0 <= k < |s| && k != i ==> q(s[k]) == q(t[k])
    requires q(s[i]) && !q(t[i])
    ensures |Filter(t, q)| + 1 == |Filter(s, q)|
    decreases |s|
  {
    if i == 0 {
      FilterCountPointwise(s[1..], t[1..], q);
    } else {
      FilterCountDropOne(s[1..], t[1..], q, i - 1);
    }
  }
}
