/**
  What the table operations do to the order and multiplicity of rows: pandas'
  boolean-mask selection `df[mask]` and `value_counts()`.
 */
module Sequences {

  /**
    `s[mask]` for the mask `p`: the elements for which `p` holds, unaltered and in
    their original order (WhereSelectsMask), each with its full multiplicity
    (WhereMultiplicity).
   */
  function Where<T>(s: seq<T>, p: T -> bool): (r: seq<T>)
    ensures |r| <= |s|
    ensures forall x :: x in r ==> p(x)
  {
    if s == [] then []
    else
      var n := |s| - 1;
      Where(s[..n], p) + (if p(s[n]) then [s[n]] else [])
  }

  /** Each element is kept with its full multiplicity when `p` holds of it and dropped entirely otherwise. */
  lemma {:induction false} WhereMultiplicity<T>(s: seq<T>, p: T -> bool)
    ensures forall x :: multiset(Where(s, p))[x] == if p(x) then multiset(s)[x] else 0
  {
    if s != [] {
      var n := |s| - 1;
      assert s == s[..n] + [s[n]];
      WhereMultiplicity(s[..n], p);
    }
  }

  /** An element is in `s[mask]` iff it is in `s` and satisfies the mask. */
  lemma WhereMembers<T>(s: seq<T>, p: T -> bool, x: T)
    ensures x in Where(s, p) <==> x in s && p(x)
  {
    WhereMultiplicity(s, p);
    assert x in Where(s, p) <==> multiset(Where(s, p))[x] > 0;
    assert x in s <==> multiset(s)[x] > 0;
  }

  /**
    The positions at which the mask `p` is true, in increasing order: every
    position whose element satisfies `p`, and no other.
   */
  function MaskIndices<T>(s: seq<T>, p: T -> bool): (idx: seq<nat>)
    ensures forall k :: 0 <= k < |idx| ==> idx[k] < |s| && p(s[idx[k]])
    ensures forall j, k :: 0 <= j < k < |idx| ==> idx[j] < idx[k]
    ensures forall i :: 0 <= i < |s| && p(s[i]) ==> i in idx
  {
    if s == [] then []
    else
      var n := |s| - 1;
      MaskIndices(s[..n], p) + (if p(s[n]) then [n] else [])
  }

  /**
    Mask selection keeps the rows at the true positions of the mask, in order: the
    k-th kept row is the row at the k-th true position. So the result is an
    order-preserving subsequence of the input whose rows are not altered.
   */
  lemma {:induction false} WhereSelectsMask<T(!new)>(s: seq<T>, p: T -> bool)
    ensures |Where(s, p)| == |MaskIndices(s, p)|
    ensures forall k :: 0 <= k < |Where(s, p)| ==> Where(s, p)[k] == s[MaskIndices(s, p)[k]]
  {
    if s != [] {
      var n := |s| - 1;
      var front := s[..n];
      WhereSelectsMask(front, p);
      var w := Where(front, p);
      var m := MaskIndices(front, p);
      assert Where(s, p) == w + (if p(s[n]) then [s[n]] else []);
      assert MaskIndices(s, p) == m + (if p(s[n]) then [n] else []);
      assert forall k :: 0 <= k < |m| ==> w[k] == s[m[k]];
    }
  }

  /** Two masks that agree on every element of `s` select the same rows. */
  lemma {:induction false} WhereCongruent<T>(s: seq<T>, p: T -> bool, q: T -> bool)
    requires forall x :: x in s ==> p(x) == q(x)
    ensures Where(s, p) == Where(s, q)
  {
    if s != [] {
      var n := |s| - 1;
      assert forall x :: x in s[..n] ==> x in s;
      WhereCongruent(s[..n], p, q);
      assert s[n] in s;
    }
  }

  /** Selecting by `p` and then by `q` is selecting once by the conjunction `pq`. */
  lemma {:induction false} WhereWhere<T>(s: seq<T>, p: T -> bool, q: T -> bool, pq: T -> bool)
    requires forall x :: pq(x) == (p(x) && q(x))
    ensures Where(Where(s, p), q) == Where(s, pq)
  {
    if s != [] {
      var n := |s| - 1;
      var x := s[n];
      var front := Where(s[..n], p);
      WhereWhere(s[..n], p, q, pq);
      assert Where(s, pq) == Where(s[..n], pq) + (if pq(x) then [x] else []);
      if p(x) {
        var both := front + [x];
        assert Where(s, p) == both;
        assert both[..|both| - 1] == front;
        assert Where(both, q) == Where(front, q) + (if q(x) then [x] else []);
      } else {
        assert Where(s, p) == front;
        assert !pq(x);
      }
    }
  }

  /** How many times `x` occurs in `s`. */
  function Occurrences<T(==)>(s: seq<T>, x: T): (n: nat)
    ensures n <= |s|
    ensures n == 0 <==> x !in s
  {
    if s == [] then 0
    else
      var m := |s| - 1;
      assert s == s[..m] + [s[m]];
      Occurrences(s[..m], x) + (if s[m] == x then 1 else 0)
  }

  /** Occurrences agrees with Dafny's multiset multiplicity. */
  lemma {:induction false} OccurrencesIsMultiplicity<T>(s: seq<T>, x: T)
    ensures Occurrences(s, x) == multiset(s)[x]
  {
    if s != [] {
      var m := |s| - 1;
      assert s == s[..m] + [s[m]];
      OccurrencesIsMultiplicity(s[..m], x);
    }
  }

  /** The positions at which `x` occurs in `s`. */
  function IndicesOf<T(==)>(s: seq<T>, x: T): set<int> {
    set k | 0 <= k < |s| && s[k] == x
  }

  /** Counting occurrences is counting the positions that hold the value. */
  lemma {:induction false} OccurrencesAreIndices<T>(s: seq<T>, x: T)
    ensures Occurrences(s, x) == |IndicesOf(s, x)|
  {
    if s == [] {
      assert IndicesOf(s, x) == {};
    } else {
      var m := |s| - 1;
      OccurrencesAreIndices(s[..m], x);
      var front := IndicesOf(s[..m], x);
      assert m !in front;
      assert IndicesOf(s, x) == front + (if s[m] == x then {m} else {});
    }
  }

  /** Appending one element adds one to its own count and leaves every other count alone. */
  lemma OccurrencesSnoc<T>(s: seq<T>, y: T, x: T)
    ensures Occurrences(s + [y], x) == Occurrences(s, x) + (if y == x then 1 else 0)
  {
    assert (s + [y])[..|s|] == s;
  }

  /** The sum of the counts of the given labels. */
  function TotalOccurrences<T(==)>(s: seq<T>, labels: seq<T>): nat {
    if labels == [] then 0 else Occurrences(s, labels[0]) + TotalOccurrences(s, labels[1..])
  }

  predicate Distinct<T(==)>(labels: seq<T>) {
    forall i, j :: 0 <= i < j < |labels| ==> labels[i] != labels[j]
  }

  lemma {:induction false} TotalOccurrencesSnoc<T>(s: seq<T>, y: T, labels: seq<T>)
    requires Distinct(labels)
    ensures TotalOccurrences(s + [y], labels) == TotalOccurrences(s, labels) + (if y in labels then 1 else 0)
  {
    if labels != [] {
      OccurrencesSnoc(s, y, labels[0]);
      TotalOccurrencesSnoc(s, y, labels[1..]);
      assert y in labels <==> y == labels[0] || y in labels[1..];
      assert labels[0] !in labels[1..];
    }
  }

  /**
    When every value is one of a list of distinct labels, the labels' counts add up
    to the number of values: each value is counted under exactly one label.
   */
  lemma {:induction false} CountsAddUp<T>(s: seq<T>, labels: seq<T>)
    requires Distinct(labels)
    requires forall x :: x in s ==> x in labels
    ensures TotalOccurrences(s, labels) == |s|
  {
    if s == [] {
      assert forall l :: Occurrences(s, l) == 0;
      TotalOfEmpty(labels);
    } else {
      var m := |s| - 1;
      assert s == s[..m] + [s[m]];
      CountsAddUp(s[..m], labels);
      TotalOccurrencesSnoc(s[..m], s[m], labels);
    }
  }

  lemma {:induction false} TotalOfEmpty<T>(labels: seq<T>)
    ensures TotalOccurrences([], labels) == 0
  {
    if labels != [] {
      TotalOfEmpty(labels[1..]);
    }
  }

  /**
    `value_counts()` of a column: for each value, how many rows hold it (a value
    that occurs nowhere is absent), and the counts add up to the number of rows.
   */
  method ValueCounts<T(==)>(values: seq<T>) returns (counts: multiset<T>)
    ensures forall v :: counts[v] == Occurrences(values, v)
    ensures |counts| == |values|
  {
    counts := multiset{};
    var i := 0;
    while i < |values|
      invariant 0 <= i <= |values|
      invariant forall v :: counts[v] == Occurrences(values[..i], v)
      invariant |counts| == i
    {
      assert values[..i + 1] == values[..i] + [values[i]];
      forall v ensures Occurrences(values[..i + 1], v) == Occurrences(values[..i], v) + (if values[i] == v then 1 else 0) {
        OccurrencesSnoc(values[..i], values[i], v);
      }
      counts := counts + multiset{values[i]};
      i := i + 1;
    }
    assert values[..i] == values;
  }

}
