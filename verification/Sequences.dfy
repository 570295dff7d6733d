/** Sequences without repetition, and sequences drawn in order from others. */
module Sequences {
  predicate Distinct<K(==)>(s: seq<K>) {
    forall i, j :: 0 <= i < j < |s| ==> s[i] != s[j]
  }

  lemma DistinctSnoc<K>(s: seq<K>, key: K)
    requires Distinct(s) && key !in s
    ensures Distinct(s + [key])
  {
  }

  lemma DistinctConcat<K>(a: seq<K>, b: seq<K>)
    requires Distinct(a) && Distinct(b) && forall i, j :: 0 <= i < |a| && 0 <= j < |b| ==> a[i] != b[j]
    ensures Distinct(a + b)
  {
  }

  lemma {:induction false} DistinctWithin<K>(s: seq<K>, all: set<K>)
    requires Distinct(s) && forall i :: 0 <= i < |s| ==> s[i] in all
    ensures |s| <= |all|
    decreases |s|
  {
    if |s| > 0 {
      var front, last := s[..|s| - 1], s[|s| - 1];
      assert forall i :: 0 <= i < |front| ==> front[i] == s[i] != last;
      DistinctWithin(front, all - {last});
    }
  }

  lemma Associative<T>(a: seq<T>, b: seq<T>, c: seq<T>)
    ensures a + b + c == a + (b + c)
  {
  }

  lemma Slices<T>(s: seq<T>, a: nat, b: nat, c: nat)
    requires a <= b <= c <= |s|
    ensures s[a..b] + s[b..c] == s[a..c]
  {
  }

  /** A slice of a slice. */
  lemma Window<T>(s: seq<T>, from: nat, end: nat, a: nat, b: nat)
    requires from <= a <= b <= end <= |s|
    ensures s[from..end][a - from..b - from] == s[a..b]
  {
    var w := s[from..end][a - from..b - from];
    assert |w| == |s[a..b]| && forall i :: 0 <= i < |w| ==> w[i] == s[a..b][i];
  }

  lemma Middle<T>(a: seq<T>, b: seq<T>, c: seq<T>)
    ensures (a + b + c)[..|a|] == a && (a + b + c)[|a|..|a| + |b|] == b
  {
  }

  lemma LastTwo<T>(s: seq<T>)
    requires |s| >= 2
    ensures s[..|s| - 2] + [s[|s| - 2], s[|s| - 1]] == s
  {
  }

  /** The elements of all pages, in order. */
  function Concat<T>(pages: seq<seq<T>>): seq<T> {
    if |pages| == 0 then [] else pages[0] + Concat(pages[1..])
  }

  lemma ConcatOne<T>(page: seq<T>)
    ensures Concat([page]) == page
  {
    assert Concat([page]) == page + Concat([]);
  }

  lemma ConcatFirst<T>(page: seq<T>, rest: seq<seq<T>>)
    ensures Concat([page] + rest) == page + Concat(rest)
  {
    assert ([page] + rest)[1..] == rest;
  }

  /** `a` is what remains of `b` when some of its elements are left out. */
  predicate Subsequence<T(==)>(a: seq<T>, b: seq<T>)
    decreases |b|
  {
    || |a| == 0
    || (|b| > 0 && ((a[0] == b[0] && Subsequence(a[1..], b[1..])) || Subsequence(a, b[1..])))
  }

  lemma {:induction false} SubsequenceSelf<T>(a: seq<T>)
    ensures Subsequence(a, a)
  {
    if |a| > 0 {
      SubsequenceSelf(a[1..]);
    }
  }

  lemma {:induction false} SubsequenceWithin<T>(a: seq<T>, b: seq<T>)
    requires Subsequence(a, b)
    ensures forall x :: x in a ==> x in b
    decreases |b|
  {
    if |a| > 0 {
      if a[0] == b[0] && Subsequence(a[1..], b[1..]) {
        SubsequenceWithin(a[1..], b[1..]);
        assert a == [a[0]] + a[1..];
      } else {
        SubsequenceWithin(a, b[1..]);
      }
    }
  }

  lemma {:induction false} SubsequenceLater<T>(a: seq<T>, ahead: seq<T>, b: seq<T>)
    requires Subsequence(a, b)
    ensures Subsequence(a, ahead + b)
    decreases |ahead|
  {
    if |ahead| == 0 {
      assert ahead + b == b;
    } else {
      SubsequenceLater(a, ahead[1..], b);
      assert (ahead + b)[1..] == ahead[1..] + b;
    }
  }

  lemma {:induction false} SubsequenceAppend<T>(a: seq<T>, b: seq<T>, c: seq<T>, d: seq<T>)
    requires Subsequence(a, b) && Subsequence(c, d)
    ensures Subsequence(a + c, b + d)
    decreases |b|
  {
    if |a| == 0 {
      assert a + c == c;
      SubsequenceLater(c, b, d);
    } else {
      assert (b + d)[1..] == b[1..] + d && (a + c)[1..] == a[1..] + c;
      if a[0] == b[0] && Subsequence(a[1..], b[1..]) {
        SubsequenceAppend(a[1..], b[1..], c, d);
      } else {
        SubsequenceAppend(a, b[1..], c, d);
      }
    }
  }

  lemma {:induction false} SubsequenceTransitive<T>(a: seq<T>, b: seq<T>, c: seq<T>)
    requires Subsequence(a, b) && Subsequence(b, c)
    ensures Subsequence(a, c)
    decreases |c|
  {
    if |a| > 0 && |b| > 0 {
      if b[0] == c[0] && Subsequence(b[1..], c[1..]) {
        if a[0] == b[0] && Subsequence(a[1..], b[1..]) {
          SubsequenceTransitive(a[1..], b[1..], c[1..]);
        } else {
          SubsequenceTransitive(a, b[1..], c[1..]);
        }
      } else {
        SubsequenceTransitive(a, b, c[1..]);
      }
    }
  }

  lemma PrefixSubsequence<T>(s: seq<T>, n: nat)
    requires n <= |s|
    ensures Subsequence(s[..n], s)
  {
    SubsequenceSelf(s[..n]);
    SubsequenceAppend(s[..n], s[..n], [], s[n..]);
    assert s[..n] + [] == s[..n] && s[..n] + s[n..] == s;
  }

  lemma SuffixSubsequence<T>(s: seq<T>, n: nat)
    requires n <= |s|
    ensures Subsequence(s[n..], s)
  {
    SubsequenceSelf(s[n..]);
    SubsequenceLater(s[n..], s[..n], s[n..]);
    assert s[..n] + s[n..] == s;
  }
}
