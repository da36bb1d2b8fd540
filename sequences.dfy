/** The optional value returned by lookups and shown by optional badges. */
module Options {
  datatype Option<T> = None | Some(value: T)
}

/**
 * Order-preserving filtering of sequences, the behaviour of JavaScript's
 * `Array.prototype.filter`, together with the reference notions it is
 * measured against: subsequence, element counts and duplicate-freedom.
 */
module Sequences {

  /** The elements of `s` satisfying `f`, in their original order. */
  function Keep<T>(s: seq<T>, f: T -> bool): (kept: seq<T>)
    ensures |kept| <= |s|
    ensures forall i :: 0 <= i < |kept| ==> kept[i] in s && f(kept[i])
    ensures forall i :: 0 <= i < |s| && f(s[i]) ==> s[i] in kept
  {
    if s == [] then []
    else if f(s[0]) then [s[0]] + Keep(s[1..], f)
    else Keep(s[1..], f)
  }

  /** `a` can be obtained from `b` by deleting elements, without reordering. */
  predicate IsSubsequence<T(==)>(a: seq<T>, b: seq<T>)
    decreases |b|
  {
    if a == [] then true
    else if b == [] then false
    else (a[0] == b[0] && IsSubsequence(a[1..], b[1..])) || IsSubsequence(a, b[1..])
  }

  /** No element occurs twice. */
  predicate NoDuplicates<T(==)>(s: seq<T>) {
    forall i, j :: 0 <= i < j < |s| ==> s[i] != s[j]
  }

  /** Element-wise image of a sequence. */
  function Map<T, U>(g: T -> U, s: seq<T>): (image: seq<U>)
    ensures |image| == |s|
  {
    if s == [] then [] else [g(s[0])] + Map(g, s[1..])
  }

  /** Filtering never reorders: the kept elements form a subsequence of the input. */
  lemma {:induction false} KeepIsSubsequence<T>(s: seq<T>, f: T -> bool)
    ensures IsSubsequence(Keep(s, f), s)
  {
    if s != [] {
      KeepIsSubsequence(s[1..], f);
      if f(s[0]) {
        assert Keep(s, f)[1..] == Keep(s[1..], f);
      } else {
        var k := Keep(s, f);
        if k != [] {
          assert IsSubsequence(k, s[1..]);
        }
      }
    }
  }

  /** Filtering keeps every copy of an element satisfying `f` and no copy of any other. */
  lemma {:induction false} KeepCounts<T>(s: seq<T>, f: T -> bool)
    ensures forall x :: multiset(Keep(s, f))[x] == if f(x) then multiset(s)[x] else 0
  {
    if s != [] {
      KeepCounts(s[1..], f);
      assert s == [s[0]] + s[1..];
      assert multiset(s) == multiset{s[0]} + multiset(s[1..]);
    }
  }

  /** A predicate that holds of every element keeps the whole sequence. */
  lemma {:induction false} KeepAll<T>(s: seq<T>, f: T -> bool)
    requires forall x :: x in s ==> f(x)
    ensures Keep(s, f) == s
  {
    if s != [] {
      assert s[0] in s;
      KeepAll(s[1..], f);
      assert [s[0]] + s[1..] == s;
    }
  }

  /** Two predicates that agree on the elements of `s` keep the same elements. */
  lemma {:induction false} KeepCongruent<T>(s: seq<T>, f: T -> bool, g: T -> bool)
    requires forall x :: x in s ==> f(x) == g(x)
    ensures Keep(s, f) == Keep(s, g)
  {
    if s != [] {
      assert s[0] in s;
      KeepCongruent(s[1..], f, g);
    }
  }

  /** Filtering commutes with any projection `g` that the predicate cannot see through. */
  lemma {:induction false} KeepMap<T, U>(s: seq<T>, f: T -> bool, g: T -> U, h: U -> bool)
    requires forall x :: f(x) == h(g(x))
    ensures Map(g, Keep(s, f)) == Keep(Map(g, s), h)
  {
    if s != [] {
      KeepMap(s[1..], f, g, h);
      assert Map(g, s)[0] == g(s[0]);
      assert Map(g, s)[1..] == Map(g, s[1..]);
    }
  }

  /** Filtering a concatenation filters each part. */
  lemma {:induction false} KeepConcat<T>(a: seq<T>, b: seq<T>, f: T -> bool)
    ensures Keep(a + b, f) == Keep(a, f) + Keep(b, f)
  {
    if a == [] {
      assert a + b == b;
    } else {
      var head := if f(a[0]) then [a[0]] else [];
      assert a == [a[0]] + a[1..];
      assert a + b == [a[0]] + (a[1..] + b);
      KeepCons(a[0], a[1..], f);
      KeepCons(a[0], a[1..] + b, f);
      KeepConcat(a[1..], b, f);
      assert head + (Keep(a[1..], f) + Keep(b, f)) == (head + Keep(a[1..], f)) + Keep(b, f);
    }
  }

  /** Filtering a sequence with a first element: that element is kept or not, then the rest is filtered. */
  lemma KeepCons<T>(x: T, s: seq<T>, f: T -> bool)
    ensures Keep([x] + s, f) == (if f(x) then [x] else []) + Keep(s, f)
  {
    assert ([x] + s)[0] == x && ([x] + s)[1..] == s;
  }

  /** Prepending elements to the larger sequence keeps a subsequence a subsequence. */
  lemma {:induction false} SubsequenceExtend<T>(a: seq<T>, b: seq<T>, prefix: seq<T>)
    requires IsSubsequence(a, b)
    ensures IsSubsequence(a, prefix + b)
  {
    if prefix == [] {
      assert prefix + b == b;
    } else if a != [] {
      SubsequenceExtend(a, b, prefix[1..]);
      assert (prefix + b)[1..] == prefix[1..] + b;
    }
  }

  /** Subsequences of two parts combine into a subsequence of the whole. */
  lemma {:induction false} SubsequenceConcat<T>(a1: seq<T>, b1: seq<T>, a2: seq<T>, b2: seq<T>)
    requires IsSubsequence(a1, b1) && IsSubsequence(a2, b2)
    ensures IsSubsequence(a1 + a2, b1 + b2)
    decreases |b1|
  {
    if a1 == [] {
      assert a1 + a2 == a2;
      SubsequenceExtend(a2, b2, b1);
    } else {
      assert (b1 + b2)[1..] == b1[1..] + b2;
      if a1[0] == b1[0] && IsSubsequence(a1[1..], b1[1..]) {
        SubsequenceConcat(a1[1..], b1[1..], a2, b2);
        assert (a1 + a2)[1..] == a1[1..] + a2;
      } else {
        SubsequenceConcat(a1, b1[1..], a2, b2);
      }
    }
  }

  /** A subsequence of a duplicate-free sequence is duplicate-free. */
  lemma {:induction false} SubsequenceNoDuplicates<T>(a: seq<T>, b: seq<T>)
    requires IsSubsequence(a, b) && NoDuplicates(b)
    ensures NoDuplicates(a)
    decreases |b|
  {
    if a != [] && b != [] {
      NoDuplicatesTail(b);
      if a[0] == b[0] && IsSubsequence(a[1..], b[1..]) {
        SubsequenceNoDuplicates(a[1..], b[1..]);
        SubsequenceElements(a[1..], b[1..]);
        forall j | 0 < j < |a| ensures a[0] != a[j] {
          assert a[j] == a[1..][j - 1];
          assert a[j] in b[1..];
          var k :| 0 <= k < |b[1..]| && b[1..][k] == a[j];
          assert b[k + 1] == a[j];
        }
      } else {
        SubsequenceNoDuplicates(a, b[1..]);
      }
    }
  }

  /** Every element of a subsequence is an element of the sequence. */
  lemma {:induction false} SubsequenceElements<T>(a: seq<T>, b: seq<T>)
    requires IsSubsequence(a, b)
    ensures forall x :: x in a ==> x in b
    decreases |b|
  {
    if a != [] && b != [] {
      if a[0] == b[0] && IsSubsequence(a[1..], b[1..]) {
        SubsequenceElements(a[1..], b[1..]);
        assert a == [a[0]] + a[1..];
      } else {
        SubsequenceElements(a, b[1..]);
      }
    }
  }

  /** A duplicate-free sequence whose elements all equal `v` has at most one element. */
  lemma AllEqualNoDuplicates<T>(s: seq<T>, v: T)
    requires NoDuplicates(s)
    requires forall i :: 0 <= i < |s| ==> s[i] == v
    ensures |s| <= 1
  {
    NoDuplicatesCount(s, v);
    AllEqualCount(s, v);
  }

  lemma NoDuplicatesTail<T>(s: seq<T>)
    requires s != [] && NoDuplicates(s)
    ensures NoDuplicates(s[1..])
  {
    forall i, j | 0 <= i < j < |s[1..]| ensures s[1..][i] != s[1..][j] {
      assert s[1..][i] == s[i + 1] && s[1..][j] == s[j + 1];
    }
  }

  /** In a duplicate-free sequence every value occurs at most once. */
  lemma {:induction false} NoDuplicatesCount<T>(s: seq<T>, v: T)
    requires NoDuplicates(s)
    ensures multiset(s)[v] <= 1
  {
    if s != [] {
      assert s == [s[0]] + s[1..];
      NoDuplicatesTail(s);
      NoDuplicatesCount(s[1..], v);
      if s[0] == v {
        assert v !in s[1..] by {
          forall k | 0 <= k < |s[1..]| ensures s[1..][k] != v {
            assert s[1..][k] == s[k + 1];
          }
        }
      }
    }
  }

  /** A sequence made only of `v` holds `v` once per position. */
  lemma {:induction false} AllEqualCount<T>(s: seq<T>, v: T)
    requires forall i :: 0 <= i < |s| ==> s[i] == v
    ensures multiset(s)[v] == |s|
  {
    if s != [] {
      assert s == [s[0]] + s[1..];
      AllEqualCount(s[1..], v);
    }
  }
}
