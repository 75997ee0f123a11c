/** Sorting as JavaScript's `Array.prototype.sort` does it with a comparator:
    in place, stable, by a total preorder. `le(x, y)` holds when the comparator
    does not put `y` strictly before `x`. */
module Sorting {

  ghost predicate TotalPreorder<T(!new)>(le: (T, T) -> bool) {
    && (forall x, y :: le(x, y) || le(y, x))
    && (forall x, y, z :: le(x, y) && le(y, z) ==> le(x, z))
  }

  ghost predicate SortedBy<T>(s: seq<T>, le: (T, T) -> bool) {
    forall i, j :: 0 <= i < j < |s| ==> le(s[i], s[j])
  }

  /** Insertion sort: each element is swapped leftwards past the elements that
      are strictly greater than it, so equal elements keep their order. */
  method SortInPlace<T(!new)>(a: array<T>, le: (T, T) -> bool)
    requires TotalPreorder(le)
    modifies a
    ensures SortedBy(a[..], le)
    ensures multiset(a[..]) == multiset(old(a[..]))
  {
    var i := 0;
    while i < a.Length
      invariant 0 <= i <= a.Length
      invariant SortedBy(a[..i], le)
      invariant multiset(a[..]) == multiset(old(a[..]))
    {
      InsertAt(a, i, le);
      i := i + 1;
    }
    assert a[..a.Length] == a[..];
  }

  /** Moves `a[i]` left into the sorted prefix `a[..i]`. */
  method InsertAt<T(!new)>(a: array<T>, i: int, le: (T, T) -> bool)
    requires TotalPreorder(le) && 0 <= i < a.Length && SortedBy(a[..i], le)
    modifies a
    ensures SortedBy(a[..i + 1], le)
    ensures multiset(a[..]) == multiset(old(a[..]))
  {
    InsertStart(a[..], i, le);
    var j := i;
    while j > 0 && !le(a[j - 1], a[j])
      invariant Inserting(a[..], i, j, le)
      invariant multiset(a[..]) == multiset(old(a[..]))
    {
      ghost var s := a[..];
      SwapStep(s, i, j, le);
      SwapPerm(s, j);
      a[j - 1], a[j] := a[j], a[j - 1];
      assert a[..] == s[j - 1 := s[j]][j := s[j - 1]];
      j := j - 1;
    }
    InsertDone(a[..], i, j, le);
  }

  /** Swapping two neighbours keeps the elements. */
  lemma SwapPerm<T>(s: seq<T>, j: int)
    requires 0 < j < |s|
    ensures multiset(s[j - 1 := s[j]][j := s[j - 1]]) == multiset(s)
  {
    var t := s[j - 1 := s[j]][j := s[j - 1]];
    assert s == s[..j - 1] + [s[j - 1], s[j]] + s[j + 1..];
    assert t == s[..j - 1] + [s[j], s[j - 1]] + s[j + 1..];
  }

  /** While `s[i]`, now at `j`, moves left: the first `i + 1` elements are in
      order apart from position `j`, and what follows `j` is not below it. */
  ghost predicate Inserting<T>(s: seq<T>, i: int, j: int, le: (T, T) -> bool) {
    && 0 <= j <= i < |s|
    && (forall p, q :: 0 <= p < q <= i && p != j && q != j ==> le(s[p], s[q]))
    && (forall q :: j < q <= i ==> le(s[j], s[q]))
    && (0 < j < i ==> le(s[j - 1], s[j + 1]))
  }

  lemma InsertStart<T>(s: seq<T>, i: int, le: (T, T) -> bool)
    requires 0 <= i < |s| && SortedBy(s[..i], le)
    ensures Inserting(s, i, i, le)
  {
    forall p, q | 0 <= p < q <= i && p != i && q != i ensures le(s[p], s[q]) {
      assert s[..i][p] == s[p] && s[..i][q] == s[q];
    }
  }

  lemma SwapStep<T(!new)>(s: seq<T>, i: int, j: int, le: (T, T) -> bool)
    requires TotalPreorder(le) && Inserting(s, i, j, le)
    requires j > 0 && !le(s[j - 1], s[j])
    ensures Inserting(s[j - 1 := s[j]][j := s[j - 1]], i, j - 1, le)
  {
    var t := s[j - 1 := s[j]][j := s[j - 1]];
    assert le(s[j], s[j - 1]);
    forall q | j - 1 < q <= i ensures le(t[j - 1], t[q]) {
      if q > j { assert le(s[j], s[q]); }
    }
    forall p, q | 0 <= p < q <= i && p != j - 1 && q != j - 1 ensures le(t[p], t[q]) {
      if q == j {
        if p < j - 1 { assert le(s[p], s[j - 1]); }
      } else if p == j {
        assert le(s[j - 1], s[q]) by {
          if j < i { assert le(s[j - 1], s[j + 1]); if q > j + 1 { assert le(s[j + 1], s[q]); } }
        }
      }
    }
    if 0 < j - 1 {
      assert le(s[j - 2], s[j - 1]);
    }
  }

  lemma InsertDone<T(!new)>(s: seq<T>, i: int, j: int, le: (T, T) -> bool)
    requires TotalPreorder(le) && Inserting(s, i, j, le)
    requires j == 0 || le(s[j - 1], s[j])
    ensures SortedBy(s[..i + 1], le)
  {
    forall p, q | 0 <= p < q <= i ensures le(s[p], s[q]) {
      if p == j {
      } else if q == j {
        assert le(s[p], s[j - 1]) by { if p < j - 1 { assert le(s[p], s[j - 1]); } }
      }
    }
  }

  /** No value occurs twice. */
  predicate NoDup<T(==)>(s: seq<T>) {
    forall i, j :: 0 <= i < j < |s| ==> s[i] != s[j]
  }

  lemma {:induction false} NoDupCount<T>(s: seq<T>, x: T)
    requires NoDup(s)
    ensures multiset(s)[x] <= 1
  {
    if s != [] {
      assert s == [s[0]] + s[1..];
      NoDupCount(s[1..], x);
      if x == s[0] {
        assert x !in s[1..];
      }
    }
  }

  lemma Occurrences<T>(s: seq<T>, i: nat, j: nat)
    requires i < j < |s|
    ensures s[i] == s[j] ==> multiset(s)[s[i]] >= 2
  {
    if s[i] == s[j] {
      assert s == s[..j] + [s[j]] + s[j + 1..];
      assert s[..j][i] == s[i];
    }
  }

  /** A permutation of a sequence without duplicates has none either. */
  lemma NoDupPerm<T>(a: seq<T>, b: seq<T>)
    requires multiset(a) == multiset(b) && NoDup(a)
    ensures NoDup(b)
  {
    forall i, j | 0 <= i < j < |b|
      ensures b[i] != b[j]
    {
      NoDupCount(a, b[i]);
      Occurrences(b, i, j);
    }
  }

  /** The sum of `f` over the elements of `s`. */
  function SumBy<T>(s: seq<T>, f: T -> int): int {
    if s == [] then 0 else SumBy(s[..|s| - 1], f) + f(s[|s| - 1])
  }

  lemma {:induction false} SumByConcat<T>(a: seq<T>, b: seq<T>, f: T -> int)
    ensures SumBy(a + b, f) == SumBy(a, f) + SumBy(b, f)
  {
    if b != [] {
      assert (a + b)[..|a + b| - 1] == a + b[..|b| - 1];
      SumByConcat(a, b[..|b| - 1], f);
    } else {
      assert a + b == a;
    }
  }

  /** Reordering does not change a sum. */
  lemma {:induction false} SumByPerm<T>(a: seq<T>, b: seq<T>, f: T -> int)
    requires multiset(a) == multiset(b)
    ensures SumBy(a, f) == SumBy(b, f)
  {
    if a == [] {
      assert |b| == |multiset(b)| == 0;
    } else {
      var x := a[|a| - 1];
      assert x in multiset(b) by { assert x in multiset(a); }
      var k :| 0 <= k < |b| && b[k] == x;
      PermTail(a, b, k);
      SumByPerm(a[..|a| - 1], b[..k] + b[k + 1..], f);
      PermStep(a, b, k, f);
    }
  }

  /** Taking the last element of `a` and the same value at `k` out of `b`
      leaves two permutations of each other. */
  lemma PermTail<T>(a: seq<T>, b: seq<T>, k: int)
    requires multiset(a) == multiset(b) && a != [] && 0 <= k < |b| && b[k] == a[|a| - 1]
    ensures multiset(a[..|a| - 1]) == multiset(b[..k] + b[k + 1..])
  {
    Decompose(a, |a| - 1);
    Decompose(b, k);
    assert a[|a| - 1 + 1..] == [];
    RemoveAtPerm(a[..|a| - 1], a[|a| - 1], []);
    RemoveAtPerm(b[..k], b[k], b[k + 1..]);
    assert a[..|a| - 1] + [] == a[..|a| - 1];
  }

  lemma PermStep<T>(a: seq<T>, b: seq<T>, k: int, f: T -> int)
    requires a != [] && 0 <= k < |b| && b[k] == a[|a| - 1]
    requires SumBy(a[..|a| - 1], f) == SumBy(b[..k] + b[k + 1..], f)
    ensures SumBy(a, f) == SumBy(b, f)
  {
    Decompose(b, k);
    RemoveAtSum(b[..k], b[k], b[k + 1..], f);
  }

  /** Taking out one element takes its value out of the sum. */
  lemma RemoveAtSum<T>(l: seq<T>, x: T, r: seq<T>, f: T -> int)
    ensures SumBy(l + [x] + r, f) == SumBy(l + r, f) + f(x)
  {
    SumByConcat(l + [x], r, f);
    SumByConcat(l, [x], f);
    SumByConcat(l, r, f);
    assert SumBy([x], f) == f(x) by { assert [x][..0] == []; }
  }

  /** Taking out one element takes it out of the multiset. */
  lemma RemoveAtPerm<T>(l: seq<T>, x: T, r: seq<T>)
    ensures multiset(l + r) == multiset(l + [x] + r) - multiset{x}
  {
    assert multiset(l + [x] + r) == multiset(l) + multiset{x} + multiset(r);
  }

  lemma Decompose<T>(b: seq<T>, k: int)
    requires 0 <= k < |b|
    ensures b == b[..k] + [b[k]] + b[k + 1..]
  {
  }
}
