/**
 * The two string primitives the search filter is built from: JavaScript's
 * `String.prototype.toLowerCase`, restricted to ASCII letters, and
 * `String.prototype.includes`, the unanchored substring test.
 */
module Text {

  predicate IsUpper(c: char) {
    'A' <= c <= 'Z'
  }

  /** ASCII lower-casing of one character; every other character is unchanged. */
  function LowerChar(c: char): char {
    if IsUpper(c) then (c as int + 32) as char else c
  }

  /** ASCII lower-casing of a string, character by character. */
  function Lower(s: string): (lowered: string)
    ensures |lowered| == |s|
  {
    seq(|s|, i requires 0 <= i < |s| => LowerChar(s[i]))
  }

  /** `c` and `d` are the same character, or the same ASCII letter in the two cases. */
  predicate SameUpToCase(c: char, d: char) {
    || c == d
    || (IsUpper(c) && d as int == c as int + 32)
    || (IsUpper(d) && c as int == d as int + 32)
  }

  /** `a` and `b` differ at most in the letter case of some positions. */
  predicate DifferOnlyInCase(a: string, b: string) {
    |a| == |b| && forall i :: 0 <= i < |a| ==> SameUpToCase(a[i], b[i])
  }

  /** Strings that differ only in letter case have the same lower-case form. */
  lemma DifferOnlyInCaseLower(a: string, b: string)
    requires DifferOnlyInCase(a, b)
    ensures Lower(a) == Lower(b)
  {
    forall i | 0 <= i < |a| ensures Lower(a)[i] == Lower(b)[i] {
      assert SameUpToCase(a[i], b[i]);
    }
  }

  /** Lower-casing twice is lower-casing once. */
  lemma LowerIdempotent(s: string)
    ensures Lower(Lower(s)) == Lower(s)
  {
    forall i | 0 <= i < |s| ensures Lower(Lower(s))[i] == Lower(s)[i] {
      assert Lower(s)[i] == LowerChar(s[i]);
    }
  }

  /** Characters `k..` of `p` are found in `s` at offset `i + k`. */
  predicate MatchAt(p: string, s: string, i: nat, k: nat)
    requires i + |p| <= |s| && k <= |p|
    decreases |p| - k
  {
    k == |p| || (s[i + k] == p[k] && MatchAt(p, s, i, k + 1))
  }

  /** `p` occurs in `s` at some offset `i` or later: the scan `includes` performs. */
  predicate ContainsFrom(p: string, s: string, i: nat)
    decreases |s| - i
  {
    i + |p| <= |s| && (MatchAt(p, s, i, 0) || ContainsFrom(p, s, i + 1))
  }

  /** `s.includes(p)`. */
  predicate Contains(p: string, s: string) {
    ContainsFrom(p, s, 0)
  }

  /** The reference meaning of an occurrence: the slice of `s` at offset `i` is `p`. */
  ghost predicate OccursAt(p: string, s: string, i: int) {
    0 <= i && i + |p| <= |s| && s[i..i + |p|] == p
  }

  lemma {:induction false} MatchAtIff(p: string, s: string, i: nat, k: nat)
    requires i + |p| <= |s| && k <= |p|
    ensures MatchAt(p, s, i, k) <==> s[i + k..i + |p|] == p[k..]
    decreases |p| - k
  {
    if k < |p| {
      MatchAtIff(p, s, i, k + 1);
      assert s[i + k..i + |p|] == [s[i + k]] + s[i + k + 1..i + |p|];
      assert p[k..] == [p[k]] + p[k + 1..];
    }
  }

  lemma {:induction false} ContainsFromIff(p: string, s: string, i: nat)
    ensures ContainsFrom(p, s, i) <==> exists j :: i <= j && OccursAt(p, s, j)
    decreases |s| - i
  {
    if i + |p| <= |s| {
      MatchAtIff(p, s, i, 0);
      ContainsFromIff(p, s, i + 1);
      assert p[0..] == p;
      if MatchAt(p, s, i, 0) {
        assert OccursAt(p, s, i);
      }
      if exists j :: i <= j && OccursAt(p, s, j) {
        var j :| i <= j && OccursAt(p, s, j);
        if j > i {
          assert i + 1 <= j;
        } else {
          assert MatchAt(p, s, i, 0);
        }
      }
    }
  }

  /** The scan finds `p` exactly when `p` occurs somewhere in `s`. */
  lemma ContainsIff(p: string, s: string)
    ensures Contains(p, s) <==> exists j :: OccursAt(p, s, j)
  {
    ContainsFromIff(p, s, 0);
  }

  /** Every string includes the empty string. */
  lemma ContainsEmpty(s: string)
    ensures Contains("", s)
  {
    assert OccursAt("", s, 0);
    ContainsIff("", s);
  }

  /**
   * Break positions spaced for a pattern of length `n` in a text of length
   * `len`: the first lies before `n`, each next lies at most `n` after the
   * one before it, and the text ends at most `n` after the last. Every
   * window of length `n` in the text then covers one of them.
   */
  predicate BreaksSpaced(cuts: seq<nat>, len: nat, n: nat) {
    && cuts != []
    && cuts[0] < n
    && (forall k :: 0 <= k < |cuts| - 1 ==> cuts[k + 1] <= cuts[k] + n)
    && len <= cuts[|cuts| - 1] + n
  }

  /** A break inside the window `j..j + n`, searched for from the `i`-th break on. */
  lemma {:induction false} FindBreak(cuts: seq<nat>, len: nat, n: nat, j: nat, i: nat) returns (k: nat)
    requires BreaksSpaced(cuts, len, n)
    requires i < |cuts| && (i == 0 || cuts[i - 1] < j)
    ensures j + n <= len ==> k < |cuts| && j <= cuts[k] < j + n
    decreases |cuts| - i
  {
    if cuts[i] >= j {
      k := i;
    } else if i + 1 < |cuts| {
      k := FindBreak(cuts, len, n, j, i + 1);
    } else {
      k := i;
    }
  }

  /**
   * A pattern is absent from the lower-cased text when breaks, characters
   * whose lower-case form the pattern does not hold, are spaced closely
   * enough that every window as long as the pattern covers one.
   */
  lemma AbsentWithBreaks(p: string, s: string, cuts: seq<nat>)
    requires BreaksSpaced(cuts, |s|, |p|)
    requires forall k :: 0 <= k < |cuts| ==> cuts[k] < |s| && LowerChar(s[cuts[k]]) !in p
    ensures !Contains(p, Lower(s))
  {
    forall j: int ensures !OccursAt(p, Lower(s), j) {
      if 0 <= j && j + |p| <= |s| {
        var k := FindBreak(cuts, |s|, |p|, j, 0);
        var c := cuts[k];
        assert Lower(s)[j..j + |p|][c - j] == LowerChar(s[c]);
      }
    }
    ContainsIff(p, Lower(s));
  }
}
