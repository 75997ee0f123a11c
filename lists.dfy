/** The list operations the views apply to employee lists: `filter`, the
    distinct values of `[...new Set(xs)]` in insertion order, the first
    `k` elements of a sorted list, and the string order `sort()` uses when
    it is given no comparator. */
module Lists {
  import opened Text
  import opened Sorting

  /** `s.filter(p)`: the elements that satisfy `p`, in their order. Each
      kept value occurs as often as in `s`, each dropped one not at all. */
  function Filter<T(!new)>(s: seq<T>, p: T -> bool): (r: seq<T>)
    ensures |r| <= |s|
    ensures forall x :: multiset(r)[x] == if p(x) then multiset(s)[x] else 0
    ensures forall x :: x in r <==> x in s && p(x)
    ensures (forall i :: 0 <= i < |s| ==> p(s[i])) ==> r == s
  {
    if |s| == 0 then []
    else
      var rest := Filter(s[1..], p);
      assert s == [s[0]] + s[1..];
      if p(s[0]) then [s[0]] + rest else rest
  }

  /** Filtering a concatenation filters each part: the order of the kept
      elements is their order in `s`. */
  lemma {:induction false} FilterConcat<T(!new)>(a: seq<T>, b: seq<T>, p: T -> bool)
    ensures Filter(a + b, p) == Filter(a, p) + Filter(b, p)
  {
    if |a| > 0 {
      assert (a + b)[1..] == a[1..] + b;
      FilterConcat(a[1..], b, p);
    } else {
      assert a + b == b;
    }
  }

  /** `[...new Set(s)]`: each value once, in the order of first appearance. */
  function Distinct<T(==,!new)>(s: seq<T>): (r: seq<T>)
    ensures NoDup(r)
    ensures forall x :: x in r <==> x in s
    ensures |r| <= |s|
  {
    if |s| == 0 then []
    else
      var init := Distinct(s[..|s| - 1]);
      assert forall x :: x in s <==> x in s[..|s| - 1] || x == s[|s| - 1] by {
        assert s == s[..|s| - 1] + [s[|s| - 1]];
      }
      if s[|s| - 1] in init then init else init + [s[|s| - 1]]
  }

  /** The position of the first `x` in `s`. */
  function FirstIndex<T(==)>(s: seq<T>, x: T): (i: nat)
    requires x in s
    ensures i < |s| && s[i] == x && x !in s[..i]
  {
    if s[0] == x then 0
    else
      var j := FirstIndex(s[1..], x);
      assert s[..j + 1] == [s[0]] + s[1..][..j];
      j + 1
  }

  /** The values of `Distinct(s)` come in the order of their first
      appearance in `s`. */
  lemma {:induction false} DistinctInOrder<T(!new)>(s: seq<T>, i: int, j: int)
    requires 0 <= i < j < |Distinct(s)|
    ensures FirstIndex(s, Distinct(s)[i]) < FirstIndex(s, Distinct(s)[j])
  {
    var init := s[..|s| - 1];
    var last := s[|s| - 1];
    var r := Distinct(init);
    if j < |r| {
      DistinctInOrder(init, i, j);
      FirstIndexPrefix(s, |s| - 1, r[i]);
      FirstIndexPrefix(s, |s| - 1, r[j]);
    } else {
      FirstIndexPrefix(s, |s| - 1, r[i]);
      FirstIndexLast(s);
    }
  }

  /** Filtering keeps the order of first appearances: two kept values first
      found in one order in the filtered list were first found in that order
      in `s`. */
  lemma {:induction false} FilterFirstIndex<T(!new)>(s: seq<T>, p: T -> bool, x: T, y: T)
    requires x in Filter(s, p) && y in Filter(s, p)
    requires FirstIndex(Filter(s, p), x) < FirstIndex(Filter(s, p), y)
    ensures FirstIndex(s, x) < FirstIndex(s, y)
  {
    var f := Filter(s, p);
    var rest := Filter(s[1..], p);
    if s[0] != x && s[0] != y {
      assert x in rest && y in rest by {
        assert s == [s[0]] + s[1..];
      }
      if p(s[0]) {
        assert f == [s[0]] + rest;
        assert FirstIndex(f, x) == FirstIndex(rest, x) + 1 by { FirstIndexShift(s[0], rest, x); }
        assert FirstIndex(f, y) == FirstIndex(rest, y) + 1 by { FirstIndexShift(s[0], rest, y); }
      }
      FilterFirstIndex(s[1..], p, x, y);
    }
  }

  /** Putting a different value in front moves a first position by one. */
  lemma FirstIndexShift<T>(h: T, s: seq<T>, x: T)
    requires x in s && h != x
    ensures FirstIndex([h] + s, x) == FirstIndex(s, x) + 1
  {
    assert ([h] + s)[1..] == s;
  }

  /** A value present in the first `k` elements is first found there. */
  lemma FirstIndexPrefix<T>(s: seq<T>, k: int, x: T)
    requires 0 <= k <= |s| && x in s[..k]
    ensures FirstIndex(s, x) == FirstIndex(s[..k], x) < k
  {
    var i := FirstIndex(s[..k], x);
    assert s[..k][..i] == s[..i];
  }

  /** A last value that does not occur earlier is first found at the end. */
  lemma FirstIndexLast<T>(s: seq<T>)
    requires |s| > 0 && s[|s| - 1] !in s[..|s| - 1]
    ensures FirstIndex(s, s[|s| - 1]) == |s| - 1
  {
  }

  /** The first `k` elements of a sorted list: still sorted, taken from the
      list, and none of the elements left behind goes before one taken. */
  lemma TakeSorted<T>(sorted: seq<T>, k: nat, le: (T, T) -> bool)
    requires k <= |sorted| && SortedBy(sorted, le)
    ensures SortedBy(sorted[..k], le)
    ensures multiset(sorted[..k]) <= multiset(sorted)
    ensures forall i, j :: 0 <= i < k <= j < |sorted| ==> le(sorted[i], sorted[j])
  {
    assert sorted == sorted[..k] + sorted[k..];
  }

  /** `sort()` without a comparator on strings: by their code units. */
  predicate StrLe(a: string, b: string) {
    !StrLess(b, a)
  }

  lemma StrNotLessTransitive(a: string, b: string, c: string)
    requires !StrLess(b, a) && !StrLess(c, b)
    ensures !StrLess(c, a)
  {
    StrLessTotal(a, b);
    StrLessTotal(b, c);
    if a != b && b != c {
      StrLessTransitive(a, b, c);
      StrLessAsymmetric(a, c);
    }
  }

  lemma StrLeTotalPreorder()
    ensures TotalPreorder(StrLe)
  {
    forall x, y ensures StrLe(x, y) || StrLe(y, x) {
      if StrLess(y, x) { StrLessAsymmetric(y, x); }
    }
    forall x, y, z | StrLe(x, y) && StrLe(y, z) ensures StrLe(x, z) {
      StrNotLessTransitive(x, y, z);
    }
  }

  /** `xs.sort()` on strings: the same strings, in code-unit order. */
  method SortStrings(xs: seq<string>) returns (r: seq<string>)
    ensures multiset(r) == multiset(xs)
    ensures forall i, j :: 0 <= i < j < |r| ==> !StrLess(r[j], r[i])
  {
    var a := new string[|xs|](i requires 0 <= i < |xs| => xs[i]);
    assert a[..] == xs;
    StrLeTotalPreorder();
    SortInPlace(a, StrLe);
    r := a[..];
  }
}
