/**
 * The three query operators the controller's pipelines are built from —
 * `Where`, `Select` and `FirstOrDefault` — over finite sequences, with their
 * meaning stated as contracts: `Where` keeps exactly the satisfying elements,
 * each as often as it occurs, in their original order.
 */
module Linq {

  datatype Option<+T> = None | Some(value: T)

  /**
   * `a` can be obtained from `b` by deleting elements: every element of `a`
   * occurs in `b`, in the same relative order.
   */
  predicate IsSubsequence<T(==)>(a: seq<T>, b: seq<T>)
    decreases |b|
  {
    a == [] || (b != [] && ((a[0] == b[0] && IsSubsequence(a[1..], b[1..])) || IsSubsequence(a, b[1..])))
  }

  /**
   * `r` is what filtering `s` by `p` must give: the order of `s` is kept, and
   * every element satisfying `p` is present exactly as often as in `s`, every
   * other element not at all.
   */
  ghost predicate IsFilterOf<T(!new)>(r: seq<T>, s: seq<T>, p: T -> bool) {
    IsSubsequence(r, s) && forall x :: multiset(r)[x] == if p(x) then multiset(s)[x] else 0
  }

  /** `Enumerable.Where`: the elements of `s` that satisfy `p`, in order. */
  function Where<T(==,!new)>(s: seq<T>, p: T -> bool): (r: seq<T>)
    ensures IsFilterOf(r, s, p)
    ensures forall x :: x in r <==> x in s && p(x)
    ensures |r| <= |s|
  {
    if s == [] then []
    else
      var rest := Where(s[1..], p);
      assert s == [s[0]] + s[1..];
      if p(s[0]) then [s[0]] + rest else rest
  }

  /** `Enumerable.Select`: `f` applied to every element of `s`, in order. */
  function Select<T, U>(s: seq<T>, f: T -> U): (r: seq<U>)
    ensures |r| == |s|
    ensures forall i :: 0 <= i < |s| ==> r[i] == f(s[i])
  {
    if s == [] then [] else [f(s[0])] + Select(s[1..], f)
  }

  /** `Enumerable.FirstOrDefault`: the first element, or None for an empty sequence. */
  function FirstOrDefault<T>(s: seq<T>): (r: Option<T>)
    ensures r.None? <==> s == []
    ensures r.Some? ==> r.value == s[0]
  {
    if s == [] then None else Some(s[0])
  }

  /** `i` is the index of the first element of `s` that satisfies `p`. */
  predicate IsFirstMatch<T>(s: seq<T>, p: T -> bool, i: int) {
    0 <= i < |s| && p(s[i]) && forall j :: 0 <= j < i ==> !p(s[j])
  }

  /** The head of `Where(s, p)` is the first element of `s` satisfying `p`. */
  lemma {:induction false} WhereHeadIsFirstMatch<T(!new)>(s: seq<T>, p: T -> bool)
    ensures Where(s, p) != [] ==> exists i :: IsFirstMatch(s, p, i) && Where(s, p)[0] == s[i]
  {
    if s != [] && Where(s, p) != [] && !p(s[0]) {
      WhereHeadIsFirstMatch(s[1..], p);
      var i :| IsFirstMatch(s[1..], p, i) && Where(s[1..], p)[0] == s[1..][i];
      assert IsFirstMatch(s, p, i + 1);
    } else if s != [] && p(s[0]) {
      assert IsFirstMatch(s, p, 0);
    }
  }

  /** Mapping every element keeps a subsequence a subsequence. */
  lemma {:induction false} SelectPreservesSubsequence<T, U>(a: seq<T>, b: seq<T>, f: T -> U)
    requires IsSubsequence(a, b)
    ensures IsSubsequence(Select(a, f), Select(b, f))
    decreases |b|
  {
    if a != [] {
      assert b != [];
      var fa, fb := Select(a, f), Select(b, f);
      assert fa[1..] == Select(a[1..], f);
      assert fb[1..] == Select(b[1..], f);
      if a[0] == b[0] && IsSubsequence(a[1..], b[1..]) {
        SelectPreservesSubsequence(a[1..], b[1..], f);
      } else {
        SelectPreservesSubsequence(a, b[1..], f);
      }
    }
  }

  /** A value is in `Select(Where(s, p), f)` iff it is the image of a satisfying element of `s`. */
  lemma SelectWhereMembership<T(!new), U>(s: seq<T>, p: T -> bool, f: T -> U, v: U)
    ensures v in Select(Where(s, p), f) <==> exists x :: x in s && p(x) && f(x) == v
  {
    var w := Where(s, p);
    var r := Select(w, f);
    if v in r {
      var i :| 0 <= i < |r| && r[i] == v;
      assert w[i] in w;
    }
    if exists x :: x in s && p(x) && f(x) == v {
      var x :| x in s && p(x) && f(x) == v;
      assert x in w;
      var i :| 0 <= i < |w| && w[i] == x;
      assert r[i] == v;
    }
  }

  /** A subsequence holds each element at most as often as the whole. */
  lemma {:induction false} SubsequenceMultiset<T>(a: seq<T>, b: seq<T>)
    requires IsSubsequence(a, b)
    ensures multiset(a) <= multiset(b)
    decreases |b|
  {
    if a != [] {
      assert b == [b[0]] + b[1..];
      if a[0] == b[0] && IsSubsequence(a[1..], b[1..]) {
        SubsequenceMultiset(a[1..], b[1..]);
        assert a == [a[0]] + a[1..];
      } else {
        SubsequenceMultiset(a, b[1..]);
      }
    }
  }

  /** The filter contract determines its result: two sequences meeting it are equal. */
  lemma {:induction false} FilterUnique<T(!new)>(a: seq<T>, b: seq<T>, s: seq<T>, p: T -> bool)
    requires IsFilterOf(a, s, p) && IsFilterOf(b, s, p)
    ensures a == b
    decreases |s|
  {
    if s == [] {
      SubsequenceMultiset(a, s);
      SubsequenceMultiset(b, s);
    } else {
      var x, t := s[0], s[1..];
      assert s == [x] + t;
      FilterTail(a, s, p);
      FilterTail(b, s, p);
      if p(x) {
        assert a == [x] + a[1..] && b == [x] + b[1..];
        FilterUnique(a[1..], b[1..], t, p);
      } else {
        FilterUnique(a, b, t, p);
      }
    }
  }

  /**
   * Peeling the head `x` of `s`: if `x` satisfies `p`, a filter result starts
   * with `x` and its tail filters the tail of `s`; otherwise the whole result
   * filters the tail of `s`.
   */
  lemma FilterTail<T(!new)>(r: seq<T>, s: seq<T>, p: T -> bool)
    requires s != [] && IsFilterOf(r, s, p)
    ensures p(s[0]) ==> r != [] && r[0] == s[0] && IsFilterOf(r[1..], s[1..], p)
    ensures !p(s[0]) ==> IsFilterOf(r, s[1..], p)
  {
    var x, t := s[0], s[1..];
    assert s == [x] + t;
    if p(x) {
      assert multiset(r)[x] == multiset(s)[x] > multiset(t)[x];
      if !(r != [] && r[0] == x && IsSubsequence(r[1..], t)) {
        assert IsSubsequence(r, t);
        SubsequenceMultiset(r, t);
        assert false;
      }
      assert r == [x] + r[1..];
    }
  }
}
