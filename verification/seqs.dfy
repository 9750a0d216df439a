/**
 * Order-preserving filtering of sequences (`Array.prototype.filter`) and an
 * independent, declarative characterisation of its result.
 */
module Seqs {

  /** Keeps, in their original order, the elements of `s` on which `keep` holds. */
  function Filter<T>(s: seq<T>, keep: T -> bool): (r: seq<T>)
    ensures |r| <= |s|
    ensures forall i :: 0 <= i < |r| ==> keep(r[i])
    ensures multiset(r) <= multiset(s)
  {
    if s == [] then []
    else
      assert s == [s[0]] + s[1..];
      if keep(s[0]) then [s[0]] + Filter(s[1..], keep)
    else Filter(s[1..], keep)
  }

  /** `r` can be obtained from `s` by deleting elements (greedy left-to-right matching). */
  predicate IsSubseq<T(==)>(r: seq<T>, s: seq<T>)
    decreases |s|
  {
    if r == [] then true
    else if s == [] then false
    else if r[0] == s[0] then IsSubseq(r[1..], s[1..])
    else IsSubseq(r, s[1..])
  }

  /**
   * `r` is exactly the stable filter of `s` by `keep`: an order-preserving
   * subsequence of `s` that holds every kept element as many times as `s` does
   * and no element that is not kept.
   */
  ghost predicate ExactFilter<T>(r: seq<T>, s: seq<T>, keep: T -> bool)
  {
    && IsSubseq(r, s)
    && forall i :: 0 <= i < |s| ==>
         multiset(r)[s[i]] == (if keep(s[i]) then multiset(s)[s[i]] else 0)
  }

  /** A subsequence never holds an element more often than the sequence it came from. */
  lemma {:induction false} SubseqMultiset<T>(r: seq<T>, s: seq<T>)
    requires IsSubseq(r, s)
    ensures multiset(r) <= multiset(s)
    decreases |s|
  {
    if r == [] {
    } else if r[0] == s[0] {
      SubseqMultiset(r[1..], s[1..]);
      assert r == [r[0]] + r[1..];
      assert s == [s[0]] + s[1..];
    } else {
      SubseqMultiset(r, s[1..]);
      assert s == [s[0]] + s[1..];
    }
  }

  /** `Filter`'s result is a subsequence of its input. */
  lemma {:induction false} FilterIsSubseq<T>(s: seq<T>, keep: T -> bool)
    ensures IsSubseq(Filter(s, keep), s)
    decreases |s|
  {
    if s != [] {
      var rest := Filter(s[1..], keep);
      FilterIsSubseq(s[1..], keep);
      if keep(s[0]) {
        assert ([s[0]] + rest)[1..] == rest;
      } else if rest != [] {
        assert keep(rest[0]);
        assert rest[0] != s[0];
      }
    }
  }

  /** `Filter` keeps every occurrence of a kept value and none of a dropped one. */
  lemma {:induction false} FilterCount<T>(s: seq<T>, keep: T -> bool, x: T)
    ensures multiset(Filter(s, keep))[x] == if keep(x) then multiset(s)[x] else 0
    decreases |s|
  {
    if s != [] {
      FilterCount(s[1..], keep, x);
      assert s == [s[0]] + s[1..];
    }
  }

  /** `Filter` meets the declarative characterisation. */
  lemma FilterIsExact<T>(s: seq<T>, keep: T -> bool)
    ensures ExactFilter(Filter(s, keep), s, keep)
  {
    FilterIsSubseq(s, keep);
    forall i | 0 <= i < |s|
      ensures multiset(Filter(s, keep))[s[i]] == if keep(s[i]) then multiset(s)[s[i]] else 0
    {
      FilterCount(s, keep, s[i]);
    }
  }

  /** The characterisation is exact: only `Filter`'s result meets it. */
  lemma {:induction false} ExactFilterUnique<T>(r: seq<T>, s: seq<T>, keep: T -> bool)
    requires ExactFilter(r, s, keep)
    ensures r == Filter(s, keep)
    decreases |s|
  {
    if s != [] {
      var a := s[0];
      assert s == [a] + s[1..];
      if r != [] && r[0] == a {
        assert r == [a] + r[1..];
        assert keep(a) by {
          assert multiset(r)[a] > 0;
        }
        assert ExactFilter(r[1..], s[1..], keep);
        ExactFilterUnique(r[1..], s[1..], keep);
      } else {
        assert IsSubseq(r, s[1..]);
        SubseqMultiset(r, s[1..]);
        assert multiset(s)[a] == multiset(s[1..])[a] + 1;
        assert !keep(a);
        assert ExactFilter(r, s[1..], keep);
        ExactFilterUnique(r, s[1..], keep);
      }
    }
  }

  /** The two descriptions of a stable filter coincide. */
  lemma ExactFilterIff<T>(r: seq<T>, s: seq<T>, keep: T -> bool)
    ensures ExactFilter(r, s, keep) <==> r == Filter(s, keep)
  {
    FilterIsExact(s, keep);
    if ExactFilter(r, s, keep) {
      ExactFilterUnique(r, s, keep);
    }
  }

  /** Membership in an exact filter: an element is kept exactly when it is in the input and passes. */
  lemma ExactFilterMembers<T>(r: seq<T>, s: seq<T>, keep: T -> bool, x: T)
    requires ExactFilter(r, s, keep)
    ensures x in r <==> x in s && keep(x)
  {
    SubseqMultiset(r, s);
    if x in s {
      var i :| 0 <= i < |s| && s[i] == x;
      assert x in r <==> multiset(r)[s[i]] > 0;
    } else {
      assert multiset(s)[x] == 0;
    }
  }

  /** Filtering by a predicate that holds on every element returns the input unchanged. */
  lemma {:induction false} FilterAllKept<T>(s: seq<T>, keep: T -> bool)
    requires forall i :: 0 <= i < |s| ==> keep(s[i])
    ensures Filter(s, keep) == s
    decreases |s|
  {
    if s != [] {
      FilterAllKept(s[1..], keep);
    }
  }

  /** The conjunction of two element tests. */
  function Both<T>(p: T -> bool, q: T -> bool): T -> bool
  {
    x => p(x) && q(x)
  }

  /** Filtering by two tests that agree on every element of `s` gives the same result. */
  lemma {:induction false} SameFilter<T>(s: seq<T>, p: T -> bool, q: T -> bool)
    requires forall i :: 0 <= i < |s| ==> p(s[i]) == q(s[i])
    ensures Filter(s, p) == Filter(s, q)
    decreases |s|
  {
    if s != [] {
      SameFilter(s[1..], p, q);
    }
  }

  /** Two filters in a row are one filter by the conjunction. */
  lemma {:induction false} FilterFilter<T>(s: seq<T>, p: T -> bool, q: T -> bool)
    ensures Filter(Filter(s, p), q) == Filter(s, Both(p, q))
    decreases |s|
  {
    if s != [] {
      FilterFilter(s[1..], p, q);
      if p(s[0]) {
        assert Filter(s, p) == [s[0]] + Filter(s[1..], p);
        assert ([s[0]] + Filter(s[1..], p))[1..] == Filter(s[1..], p);
      }
    }
  }
}
