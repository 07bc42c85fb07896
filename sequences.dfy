/** Sequence operations the dashboard uses through JavaScript's array library:
    `Array.prototype.filter` (Keep) and `Array.from(new Set(xs))` (Distinct),
    which keeps the first occurrence of every value in insertion order. */
module Sequences {

  /** `a` is obtained from `b` by deleting elements, keeping the rest in order. */
  predicate IsSubsequence<T(==)>(a: seq<T>, b: seq<T>)
    decreases |b|
  {
    a == [] ||
    (b != [] && ((a[0] == b[0] && IsSubsequence(a[1..], b[1..])) || IsSubsequence(a, b[1..])))
  }

  lemma {:induction false} SubsequenceReflexive<T>(s: seq<T>)
    ensures IsSubsequence(s, s)
  {
    if s != [] {
      SubsequenceReflexive(s[1..]);
    }
  }

  lemma {:induction false} SubsequenceMembers<T>(a: seq<T>, b: seq<T>, x: T)
    requires IsSubsequence(a, b)
    requires x in a
    ensures x in b
    decreases |b|
  {
    if a[0] == b[0] && IsSubsequence(a[1..], b[1..]) {
      if x != a[0] {
        SubsequenceMembers(a[1..], b[1..], x);
      }
    } else {
      SubsequenceMembers(a, b[1..], x);
    }
  }

  /** The elements of `s` that satisfy `p`, in their original order. */
  function Keep<T>(s: seq<T>, p: T -> bool): (r: seq<T>)
    ensures |r| <= |s|
    ensures forall k :: 0 <= k < |r| ==> p(r[k])
  {
    if s == [] then []
    else (if p(s[0]) then [s[0]] else []) + Keep(s[1..], p)
  }

  lemma {:induction false} KeepIsSubsequence<T>(s: seq<T>, p: T -> bool)
    ensures IsSubsequence(Keep(s, p), s)
  {
    if s != [] {
      KeepIsSubsequence(s[1..], p);
      var r := Keep(s, p);
      if p(s[0]) {
        assert r[0] == s[0] && r[1..] == Keep(s[1..], p);
      } else {
        assert r == Keep(s[1..], p);
      }
    }
  }

  /** Keep drops every element that fails `p` and no occurrence of one that satisfies it. */
  lemma {:induction false} KeepCount<T>(s: seq<T>, p: T -> bool, x: T)
    ensures multiset(Keep(s, p))[x] == if p(x) then multiset(s)[x] else 0
  {
    if s != [] {
      KeepCount(s[1..], p, x);
      assert s == [s[0]] + s[1..];
    }
  }

  lemma KeepMembers<T>(s: seq<T>, p: T -> bool, x: T)
    ensures x in Keep(s, p) <==> x in s && p(x)
  {
    KeepCount(s, p, x);
  }

  /** A subsequence holds no more copies of a value than the sequence it is cut from. */
  lemma {:induction false} SubsequenceCount<T>(a: seq<T>, b: seq<T>, x: T)
    requires IsSubsequence(a, b)
    ensures multiset(a)[x] <= multiset(b)[x]
    decreases |b|
  {
    if a != [] {
      assert b == [b[0]] + b[1..];
      if a[0] == b[0] && IsSubsequence(a[1..], b[1..]) {
        SubsequenceCount(a[1..], b[1..], x);
        assert a == [a[0]] + a[1..];
      } else {
        SubsequenceCount(a, b[1..], x);
      }
    }
  }

  /** Keep is the only subsequence of `s` with the element counts of KeepCount. */
  lemma {:induction false} KeepUnique<T>(s: seq<T>, p: T -> bool, r: seq<T>)
    requires IsSubsequence(r, s)
    requires forall x :: multiset(r)[x] == if p(x) then multiset(s)[x] else 0
    ensures r == Keep(s, p)
    decreases |s|
  {
    if s == [] {
      assert r == [];
    } else {
      var a, t := s[0], s[1..];
      assert s == [a] + t;
      if r != [] && r[0] == a && IsSubsequence(r[1..], t) {
        assert r == [a] + r[1..];
        assert p(a) by {
          assert multiset(r)[a] > 0;
        }
        forall x ensures multiset(r[1..])[x] == if p(x) then multiset(t)[x] else 0 {
          assert multiset(r)[x] == multiset([a])[x] + multiset(r[1..])[x];
        }
        KeepUnique(t, p, r[1..]);
      } else {
        assert IsSubsequence(r, t);
        if p(a) {
          SubsequenceCount(r, t, a);
          assert false;
        }
        forall x ensures multiset(r)[x] == if p(x) then multiset(t)[x] else 0 {
          if x == a {
            assert !p(x);
          }
        }
        KeepUnique(t, p, r);
      }
    }
  }

  /** A filter that every element passes changes nothing. */
  lemma {:induction false} KeepEverything<T>(s: seq<T>, p: T -> bool)
    requires forall k :: 0 <= k < |s| ==> p(s[k])
    ensures Keep(s, p) == s
  {
    if s != [] {
      KeepEverything(s[1..], p);
      assert s == [s[0]] + s[1..];
    }
  }

  /** Keep depends only on the values of its predicate. */
  lemma {:induction false} KeepExtensional<T>(s: seq<T>, p: T -> bool, q: T -> bool)
    requires forall x :: p(x) == q(x)
    ensures Keep(s, p) == Keep(s, q)
  {
    if s != [] {
      KeepExtensional(s[1..], p, q);
    }
  }

  /** Filtering by `p` and then by `q` is filtering once by their conjunction `pq`. */
  lemma {:induction false} KeepKeep<T>(s: seq<T>, p: T -> bool, q: T -> bool, pq: T -> bool)
    requires forall x :: pq(x) == (p(x) && q(x))
    ensures Keep(Keep(s, p), q) == Keep(s, pq)
  {
    if s != [] {
      KeepKeep(s[1..], p, q, pq);
      var r := Keep(s, p);
      if p(s[0]) {
        assert r == [s[0]] + Keep(s[1..], p);
        assert r[0] == s[0] && r[1..] == Keep(s[1..], p);
      } else {
        assert r == Keep(s[1..], p);
      }
    }
  }

  /** No value occurs twice in `s`. */
  predicate NoDuplicates<T(==)>(s: seq<T>) {
    forall i, j :: 0 <= i < j < |s| ==> s[i] != s[j]
  }

  /** The position of the first occurrence of `x` in `xs`. */
  function IndexOf<T(==)>(xs: seq<T>, x: T): (i: nat)
    requires x in xs
    ensures i < |xs| && xs[i] == x && x !in xs[..i]
  {
    if xs[0] == x then 0 else 1 + IndexOf(xs[1..], x)
  }

  /** Appending a value leaves the first occurrences of earlier values where they were. */
  lemma {:induction false} IndexOfAppend<T>(init: seq<T>, last: T, y: T)
    requires y in init + [last]
    ensures IndexOf(init + [last], y) == if y in init then IndexOf(init, y) else |init|
  {
    var xs := init + [last];
    if init != [] && init[0] != y {
      assert xs[1..] == init[1..] + [last];
      IndexOfAppend(init[1..], last, y);
    }
  }

  /** `s` lists values of `xs` in strictly increasing order of first occurrence in `xs`. */
  ghost predicate OrderedByFirstOccurrence<T>(s: seq<T>, xs: seq<T>) {
    && (forall k :: 0 <= k < |s| ==> s[k] in xs)
    && (forall i, j :: 0 <= i < j < |s| ==> s[i] in xs && s[j] in xs && IndexOf(xs, s[i]) < IndexOf(xs, s[j]))
  }

  /** `r` lists each value of `xs` exactly once, ordered by where it first occurs in `xs`:
      the contents of `Array.from(new Set(xs))`. */
  ghost predicate IsDistinctOf<T>(r: seq<T>, xs: seq<T>) {
    && OrderedByFirstOccurrence(r, xs)
    && (forall k :: 0 <= k < |xs| ==> xs[k] in r)
  }

  /** Insertion into a JavaScript `Set` one element at a time: a value already present is ignored. */
  function Distinct<T(==)>(xs: seq<T>): (r: seq<T>)
    ensures |r| <= |xs|
    ensures xs != [] ==> r != []
    decreases |xs|
  {
    if xs == [] then []
    else
      var seen := Distinct(xs[..|xs| - 1]);
      var last := xs[|xs| - 1];
      if last in seen then seen else seen + [last]
  }

  /** Every value of `xs` is listed once, and nothing else is. */
  lemma {:induction false} DistinctMembers<T>(xs: seq<T>)
    ensures forall k :: 0 <= k < |Distinct(xs)| ==> Distinct(xs)[k] in xs
    ensures forall k :: 0 <= k < |xs| ==> xs[k] in Distinct(xs)
    ensures NoDuplicates(Distinct(xs))
    decreases |xs|
  {
    if xs != [] {
      var init, last := xs[..|xs| - 1], xs[|xs| - 1];
      assert xs == init + [last];
      DistinctMembers(init);
      var seen := Distinct(init);
      var r := Distinct(xs);
      forall k | 0 <= k < |xs| ensures xs[k] in r {
        if k < |init| {
          assert xs[k] == init[k];
        }
      }
    }
  }

  lemma {:induction false} DistinctIsDistinctOf<T>(xs: seq<T>)
    ensures IsDistinctOf(Distinct(xs), xs)
    decreases |xs|
  {
    DistinctMembers(xs);
    if xs != [] {
      var init, last := xs[..|xs| - 1], xs[|xs| - 1];
      assert xs == init + [last];
      DistinctIsDistinctOf(init);
      DistinctMembers(init);
      var seen := Distinct(init);
      var r := Distinct(xs);
      forall i, j | 0 <= i < j < |r|
        ensures r[i] in xs && r[j] in xs && IndexOf(xs, r[i]) < IndexOf(xs, r[j])
      {
        IndexOfAppend(init, last, r[i]);
        IndexOfAppend(init, last, r[j]);
        if j == |seen| {
          assert r[j] == last && last !in init;
          assert IndexOf(init, r[i]) < |init|;
        }
      }
    }
  }

  /** The head of such a sequence occurs nowhere else in it. */
  lemma HeadNotInTail<T>(s: seq<T>, xs: seq<T>)
    requires s != [] && OrderedByFirstOccurrence(s, xs)
    ensures s[0] !in s[1..]
    ensures OrderedByFirstOccurrence(s[1..], xs)
  {
    forall i | 1 <= i < |s|
      ensures s[i] != s[0]
    {
      assert IndexOf(xs, s[0]) < IndexOf(xs, s[i]);
    }
  }

  lemma HeadIsMember<T>(s: seq<T>)
    ensures s != [] ==> s[0] in s
  {
  }

  /** Two such sequences with the same values start with the same value. */
  lemma SameHead<T>(a: seq<T>, b: seq<T>, xs: seq<T>)
    requires a != [] && b != []
    requires a[0] in b && b[0] in a
    requires OrderedByFirstOccurrence(a, xs) && OrderedByFirstOccurrence(b, xs)
    ensures a[0] == b[0]
  {
    var k :| 0 <= k < |b| && b[k] == a[0];
    var m :| 0 <= m < |a| && a[m] == b[0];
    // each head has the least first-occurrence index of its sequence
    assert IndexOf(xs, a[0]) <= IndexOf(xs, a[m]) == IndexOf(xs, b[0]);
    assert IndexOf(xs, b[0]) <= IndexOf(xs, b[k]) == IndexOf(xs, a[0]);
  }

  /** Two orderings of the same values by first occurrence in `xs` coincide. */
  lemma {:induction false} DistinctOrderUnique<T>(a: seq<T>, b: seq<T>, xs: seq<T>)
    requires forall x :: x in a <==> x in b
    requires OrderedByFirstOccurrence(a, xs) && OrderedByFirstOccurrence(b, xs)
    ensures a == b
    decreases |a|
  {
    if a == [] {
      HeadIsMember(b);
      assert b == [];
    } else {
      HeadIsMember(a);
      HeadIsMember(b);
      SameHead(a, b, xs);
      HeadNotInTail(a, xs);
      HeadNotInTail(b, xs);
      assert a == [a[0]] + a[1..] && b == [b[0]] + b[1..];
      forall x
        ensures x in a[1..] <==> x in b[1..]
      {
        assert x in a <==> x == a[0] || x in a[1..];
        assert x in b <==> x == b[0] || x in b[1..];
      }
      DistinctOrderUnique(a[1..], b[1..], xs);
    }
  }

  /** Distinct is the only sequence with the contents of `Array.from(new Set(xs))`. */
  lemma DistinctUnique<T>(r: seq<T>, xs: seq<T>)
    requires IsDistinctOf(r, xs)
    ensures r == Distinct(xs)
  {
    DistinctIsDistinctOf(xs);
    DistinctOrderUnique(r, Distinct(xs), xs);
  }
}
