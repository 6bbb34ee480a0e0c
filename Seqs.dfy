/**
 * Relational operations on tables held as sequences of rows: the boolean-mask
 * selection `df[mask]`, counting, and the inner merge of two tables.
 */
module Seqs {

  /** `r` is obtained from `s` by deleting elements: an order-preserving subsequence. */
  ghost predicate IsSubsequence<T>(r: seq<T>, s: seq<T>)
    decreases |s|
  {
    if r == [] then true
    else if s == [] then false
    else (r[0] == s[0] && IsSubsequence(r[1..], s[1..])) || IsSubsequence(r, s[1..])
  }

  /** The rows of `s` that satisfy `keep`, in order. */
  function Filter<T>(s: seq<T>, keep: T -> bool): seq<T> {
    if s == [] then [] else (if keep(s[0]) then [s[0]] else []) + Filter(s[1..], keep)
  }

  lemma {:induction false} FilterMembers<T(!new)>(s: seq<T>, keep: T -> bool)
    ensures |Filter(s, keep)| <= |s|
    ensures forall x :: x in Filter(s, keep) <==> x in s && keep(x)
  {
    if s != [] {
      FilterMembers(s[1..], keep);
      assert s == [s[0]] + s[1..];
    }
  }

  lemma {:induction false} FilterCounts<T(!new)>(s: seq<T>, keep: T -> bool)
    ensures forall x :: multiset(Filter(s, keep))[x] == if keep(x) then multiset(s)[x] else 0
  {
    if s != [] {
      FilterCounts(s[1..], keep);
      assert s == [s[0]] + s[1..];
    }
  }

  lemma {:induction false} FilterSubsequence<T>(s: seq<T>, keep: T -> bool)
    ensures IsSubsequence(Filter(s, keep), s)
  {
    if s != [] {
      FilterSubsequence(s[1..], keep);
      var r, t := Filter(s, keep), Filter(s[1..], keep);
      if keep(s[0]) {
        assert r == [s[0]] + t;
        assert r != [] && r[0] == s[0] && r[1..] == t;
      } else {
        assert r == [] + t == t;
      }
    }
  }

  /** A weaker test keeps at least the rows a stronger one keeps, in the same order. */
  lemma {:induction false} FilterMonotone<T(!new)>(s: seq<T>, p: T -> bool, q: T -> bool)
    requires forall x :: x in s && p(x) ==> q(x)
    ensures IsSubsequence(Filter(s, p), Filter(s, q))
  {
    if s != [] {
      assert forall x :: x in s[1..] ==> x in s;
      FilterMonotone(s[1..], p, q);
      var a, b := Filter(s[1..], p), Filter(s[1..], q);
      var fp, fq := Filter(s, p), Filter(s, q);
      if p(s[0]) {
        assert fp == [s[0]] + a && fq == [s[0]] + b;
        assert fp[1..] == a && fq[1..] == b;
      } else if q(s[0]) {
        assert fp == [] + a == a;
        assert fq == [s[0]] + b && fq[1..] == b;
      } else {
        assert fp == [] + a == a;
        assert fq == [] + b == b;
      }
    }
  }

  /** Appending a row to the table appends it to the selection when it is kept. */
  lemma {:induction false} FilterSnoc<T>(s: seq<T>, x: T, keep: T -> bool)
    ensures Filter(s + [x], keep) == Filter(s, keep) + (if keep(x) then [x] else [])
  {
    if s == [] {
      assert [] + [x] == [x];
    } else {
      var t := s + [x];
      assert t[0] == s[0] && t[1..] == s[1..] + [x];
      var h := if keep(s[0]) then [s[0]] else [];
      assert Filter(t, keep) == h + Filter(s[1..] + [x], keep);
      assert Filter(s, keep) == h + Filter(s[1..], keep);
      FilterSnoc(s[1..], x, keep);
    }
  }

  /**
   * `df[mask]`: the rows of `s` that satisfy `keep`, in their original order.
   * Being a mask and not a join, it never repeats a row: each row occurs in the
   * result exactly as often as in `s` when it is kept, and not at all otherwise.
   */
  function Mask<T(!new)>(s: seq<T>, keep: T -> bool): (r: seq<T>)
    ensures |r| <= |s|
    ensures forall x :: x in r <==> x in s && keep(x)
    ensures forall x :: multiset(r)[x] == if keep(x) then multiset(s)[x] else 0
    ensures IsSubsequence(r, s)
  {
    FilterMembers(s, keep);
    FilterCounts(s, keep);
    FilterSubsequence(s, keep);
    Filter(s, keep)
  }

  /** Appending a row to the table appends it to the selection when it is kept. */
  lemma MaskSnoc<T(!new)>(s: seq<T>, x: T, keep: T -> bool)
    ensures Mask(s + [x], keep) == Mask(s, keep) + (if keep(x) then [x] else [])
  {
    FilterSnoc(s, x, keep);
  }

  /** A subsequence of a subsequence is a subsequence. */
  lemma {:induction false} SubsequenceTransitive<T>(a: seq<T>, b: seq<T>, c: seq<T>)
    requires IsSubsequence(a, b) && IsSubsequence(b, c)
    ensures IsSubsequence(a, c)
    decreases |c|
  {
    if a != [] {
      if b[0] == c[0] && IsSubsequence(b[1..], c[1..]) {
        if a[0] == b[0] && IsSubsequence(a[1..], b[1..]) {
          SubsequenceTransitive(a[1..], b[1..], c[1..]);
        } else {
          SubsequenceTransitive(a, b[1..], c[1..]);
        }
      } else {
        SubsequenceTransitive(a, b, c[1..]);
      }
    }
  }

  /** A weaker mask keeps at least the rows a stronger one keeps, in the same order. */
  lemma MaskMonotone<T(!new)>(s: seq<T>, p: T -> bool, q: T -> bool)
    requires forall x :: x in s && p(x) ==> q(x)
    ensures IsSubsequence(Mask(s, p), Mask(s, q))
  {
    FilterMonotone(s, p, q);
  }

  /** The rows `combine(l, r)` for every row `r` of `right` that matches `l`, in `right`'s order. */
  function Matches<L(!new), R(!new), O(==,!new)>(l: L, right: seq<R>, on: (L, R) -> bool, combine: (L, R) -> O): (out: seq<O>)
    ensures |out| <= |right|
    ensures forall o :: o in out <==> exists r :: r in right && on(l, r) && o == combine(l, r)
  {
    if right == [] then []
    else
      assert right == [right[0]] + right[1..];
      (if on(l, right[0]) then [combine(l, right[0])] else []) + Matches(l, right[1..], on, combine)
  }

  /**
   * The inner merge `left.merge(right, on=...)`: one row per matching pair,
   * grouped by the left row in `left`'s order, and within a group in `right`'s order.
   */
  function InnerJoin<L(!new), R(!new), O(==,!new)>(left: seq<L>, right: seq<R>, on: (L, R) -> bool, combine: (L, R) -> O): (out: seq<O>)
    ensures forall o :: o in out <==> exists l, r :: l in left && r in right && on(l, r) && o == combine(l, r)
  {
    if left == [] then []
    else
      assert left == [left[0]] + left[1..];
      Matches(left[0], right, on, combine) + InnerJoin(left[1..], right, on, combine)
  }

  /** Merging two blocks of left rows gives the two merges one after the other. */
  lemma {:induction false} InnerJoinConcat<L(!new), R(!new), O(!new)>(a: seq<L>, b: seq<L>, right: seq<R>, on: (L, R) -> bool, combine: (L, R) -> O)
    ensures InnerJoin(a + b, right, on, combine) == InnerJoin(a, right, on, combine) + InnerJoin(b, right, on, combine)
  {
    if a == [] {
      assert a + b == b;
    } else {
      assert (a + b)[1..] == a[1..] + b;
      InnerJoinConcat(a[1..], b, right, on, combine);
    }
  }

  /** A mask that keeps every row is the whole table. */
  lemma {:induction false} MaskAll<T(!new)>(s: seq<T>, keep: T -> bool)
    requires forall x :: x in s ==> keep(x)
    ensures Mask(s, keep) == s
  {
    if s != [] {
      assert forall x :: x in s[1..] ==> x in s;
      MaskAll(s[1..], keep);
      assert s == [s[0]] + s[1..];
    }
  }
}
