/**
 * The JavaScript array operations the core relies on: `filter`, `slice`
 * and the stable, comparator-driven `sort` (stable since ECMAScript 2019).
 */
module JsArray {

  /** `s.filter(p)`: the elements satisfying `p`, in their original order. */
  function Filter<T>(s: seq<T>, p: T -> bool): (r: seq<T>)
    ensures |r| <= |s|
    decreases |s|
  {
    if s == [] then []
    else if p(s[0]) then [s[0]] + Filter(s[1..], p)
    else Filter(s[1..], p)
  }

  /** The filter keeps exactly the elements that pass the test. */
  lemma {:induction false} FilterMembers<T>(s: seq<T>, p: T -> bool)
    ensures forall i :: 0 <= i < |Filter(s, p)| ==> Filter(s, p)[i] in s && p(Filter(s, p)[i])
    ensures forall i :: 0 <= i < |s| && p(s[i]) ==> s[i] in Filter(s, p)
    decreases |s|
  {
    if s != [] {
      FilterMembers(s[1..], p);
      assert forall i :: 1 <= i < |s| ==> s[i] == s[1..][i - 1];
    }
  }

  /** Filtering distributes over concatenation, so it keeps the relative order of what it keeps. */
  lemma {:induction false} FilterAppend<T>(a: seq<T>, b: seq<T>, p: T -> bool)
    ensures Filter(a + b, p) == Filter(a, p) + Filter(b, p)
    decreases |a|
  {
    if a == [] {
      assert a + b == b;
    } else {
      assert (a + b)[1..] == a[1..] + b;
      FilterAppend(a[1..], b, p);
    }
  }

  /** A filter that every element passes removes nothing. */
  lemma {:induction false} FilterKeepsAll<T>(s: seq<T>, p: T -> bool)
    requires forall i :: 0 <= i < |s| ==> p(s[i])
    ensures Filter(s, p) == s
    decreases |s|
  {
    if s != [] {
      FilterKeepsAll(s[1..], p);
    }
  }

  /** Tests that agree on every element filter alike. */
  lemma {:induction false} FilterSameTest<T>(s: seq<T>, p: T -> bool, q: T -> bool)
    requires forall x :: p(x) == q(x)
    ensures Filter(s, p) == Filter(s, q)
    decreases |s|
  {
    if s != [] {
      FilterSameTest(s[1..], p, q);
    }
  }

  /** Two filters in a row are one filter by the conjunction of their predicates. */
  lemma {:induction false} FilterFilter<T>(s: seq<T>, p: T -> bool, q: T -> bool, both: T -> bool)
    requires forall x :: both(x) == (p(x) && q(x))
    ensures Filter(Filter(s, p), q) == Filter(s, both)
    decreases |s|
  {
    if s != [] {
      FilterFilter(s[1..], p, q, both);
    }
  }

  /** Array.prototype.slice's reading of a start or end index against length `len`. */
  function RelativeIndex(i: int, len: nat): (k: nat)
    ensures k <= len
  {
    if i < 0 then (if len + i < 0 then 0 else len + i)
    else if i < len then i
    else len
  }

  /** Two indices read no further apart than they are. */
  lemma RelativeIndexSpread(i: int, j: int, len: nat)
    ensures i <= j ==> RelativeIndex(j, len) - RelativeIndex(i, len) <= j - i
  {
  }

  /**
   * `s.slice(start, end)`: negative indices count from the end, indices past
   * the end are clipped, and an empty range gives an empty array.
   */
  function Slice<T>(s: seq<T>, start: int, end: int): (r: seq<T>)
    ensures |r| <= |s|
    ensures forall i :: 0 <= i < |r| ==> r[i] in s
    ensures start <= end ==> |r| <= end - start
    ensures 0 <= start <= end ==>
              r == s[(if start < |s| then start else |s|)..(if end < |s| then end else |s|)]
  {
    var from, to := RelativeIndex(start, |s|), RelativeIndex(end, |s|);
    RelativeIndexSpread(start, end, |s|);
    if from < to then s[from..to] else []
  }

  /**
   * A negative bound counts back from the end: `-k` means `|s| - k`, and a
   * bound before the start means the start.
   */
  lemma SliceCountsFromEnd<T>(s: seq<T>, start: int, end: int)
    ensures -|s| <= start < 0 ==> Slice(s, start, end) == Slice(s, |s| + start, end)
    ensures -|s| <= end < 0 ==> Slice(s, start, end) == Slice(s, start, |s| + end)
    ensures start < -|s| ==> Slice(s, start, end) == Slice(s, 0, end)
    ensures end < -|s| ==> Slice(s, start, end) == []
  {
  }

  /** `s.slice(-k)` (with the end at the length) is the last `k` elements. */
  lemma SliceLast<T>(s: seq<T>, k: int)
    requires 0 < k <= |s|
    ensures Slice(s, -k, |s|) == s[|s| - k..]
  {
    SliceCountsFromEnd(s, -k, |s|);
  }

  /** `s.slice(0, -1)` drops the last element. */
  lemma SliceDropLast<T>(s: seq<T>)
    requires s != []
    ensures Slice(s, 0, -1) == s[..|s| - 1]
  {
    SliceCountsFromEnd(s, 0, -1);
  }

  /** A window that ends at the start, or is empty or inverted on one side of it, gives nothing. */
  lemma SliceEmptyWindow<T>(s: seq<T>, start: int, end: int)
    requires end == 0 || 0 <= end <= start || end <= start < 0
    ensures Slice(s, start, end) == []
  {
  }

  function Sign(n: int): int {
    if n < 0 then -1 else if n > 0 then 1 else 0
  }

  /**
   * A consistent comparator in the sense of Array.prototype.sort: `cmp(a, b)`
   * and `cmp(b, a)` have opposite signs, and "not after" is transitive.
   */
  ghost predicate TotalPreorder<T(!new)>(cmp: (T, T) -> int) {
    && (forall a, b :: Sign(cmp(a, b)) == -Sign(cmp(b, a)))
    && (forall a, b, c :: cmp(a, b) <= 0 && cmp(b, c) <= 0 ==> cmp(a, c) <= 0)
  }

  /** No element is placed after one the comparator puts behind it. */
  ghost predicate SortedBy<T>(s: seq<T>, cmp: (T, T) -> int) {
    forall i, j :: 0 <= i < j < |s| ==> cmp(s[i], s[j]) <= 0
  }

  /**
   * Places `x`, the element that came last in the input, into the sorted `t`:
   * after every element the comparator does not put behind it.
   */
  function Insert<T>(t: seq<T>, x: T, cmp: (T, T) -> int): (r: seq<T>)
    ensures |r| == |t| + 1
    decreases |t|
  {
    if t == [] then [x]
    else if cmp(t[|t| - 1], x) > 0 then Insert(t[..|t| - 1], x, cmp) + [t[|t| - 1]]
    else t + [x]
  }

  /** `[...s].sort(cmp)`: the stable sort that the engine's `sort` computes. */
  function StableSort<T>(s: seq<T>, cmp: (T, T) -> int): (r: seq<T>)
    ensures |r| == |s|
    decreases |s|
  {
    if s == [] then []
    else Insert(StableSort(s[..|s| - 1], cmp), s[|s| - 1], cmp)
  }

  lemma {:induction false} InsertPermutes<T>(t: seq<T>, x: T, cmp: (T, T) -> int)
    ensures multiset(Insert(t, x, cmp)) == multiset(t) + multiset{x}
    ensures |Insert(t, x, cmp)| == |t| + 1
    decreases |t|
  {
    if t != [] {
      assert t == t[..|t| - 1] + [t[|t| - 1]];
      if cmp(t[|t| - 1], x) > 0 {
        InsertPermutes(t[..|t| - 1], x, cmp);
      }
    }
  }

  /** Sorting loses and duplicates nothing. */
  lemma {:induction false} SortPermutes<T>(s: seq<T>, cmp: (T, T) -> int)
    ensures multiset(StableSort(s, cmp)) == multiset(s)
    ensures |StableSort(s, cmp)| == |s|
    decreases |s|
  {
    if s != [] {
      assert s == s[..|s| - 1] + [s[|s| - 1]];
      SortPermutes(s[..|s| - 1], cmp);
      InsertPermutes(StableSort(s[..|s| - 1], cmp), s[|s| - 1], cmp);
    }
  }

  lemma SortedSnoc<T>(u: seq<T>, y: T, cmp: (T, T) -> int)
    requires SortedBy(u, cmp)
    requires forall k :: 0 <= k < |u| ==> cmp(u[k], y) <= 0
    ensures SortedBy(u + [y], cmp)
  {
  }

  /** Inserting below a bound keeps every element below it. */
  lemma {:induction false} InsertBounded<T>(t: seq<T>, x: T, cmp: (T, T) -> int, bound: T)
    requires forall k :: 0 <= k < |t| ==> cmp(t[k], bound) <= 0
    requires cmp(x, bound) <= 0
    ensures forall k :: 0 <= k < |Insert(t, x, cmp)| ==> cmp(Insert(t, x, cmp)[k], bound) <= 0
    decreases |t|
  {
    if t != [] && cmp(t[|t| - 1], x) > 0 {
      InsertBounded(t[..|t| - 1], x, cmp, bound);
    }
  }

  lemma {:induction false} InsertSorted<T(!new)>(t: seq<T>, x: T, cmp: (T, T) -> int)
    requires TotalPreorder(cmp)
    requires SortedBy(t, cmp)
    ensures SortedBy(Insert(t, x, cmp), cmp)
    decreases |t|
  {
    if t == [] {
    } else {
      var init, last := t[..|t| - 1], t[|t| - 1];
      if cmp(last, x) > 0 {
        InsertSorted(init, x, cmp);
        assert Sign(cmp(x, last)) == -Sign(cmp(last, x));
        InsertBounded(init, x, cmp, last);
        SortedSnoc(Insert(init, x, cmp), last, cmp);
      } else {
        forall k | 0 <= k < |t|
          ensures cmp(t[k], x) <= 0
        {
          if k < |t| - 1 {
            assert cmp(t[k], last) <= 0;
          }
        }
        SortedSnoc(t, x, cmp);
      }
    }
  }

  /** The result of sorting is in the comparator's order. */
  lemma {:induction false} SortSorted<T(!new)>(s: seq<T>, cmp: (T, T) -> int)
    requires TotalPreorder(cmp)
    ensures SortedBy(StableSort(s, cmp), cmp)
    decreases |s|
  {
    if s != [] {
      SortSorted(s[..|s| - 1], cmp);
      InsertSorted(StableSort(s[..|s| - 1], cmp), s[|s| - 1], cmp);
    }
  }

  lemma FilterSingle<T>(x: T, p: T -> bool)
    ensures Filter([x], p) == if p(x) then [x] else []
  {
  }

  /** One step of `InsertStable`: `x` passes `last`, and they are not both tied. */
  lemma InsertStableStep<T>(init: seq<T>, last: T, x: T, cmp: (T, T) -> int, tied: T -> bool)
    requires cmp(last, x) > 0 && !(tied(x) && tied(last))
    requires Filter(Insert(init, x, cmp), tied) == Filter(init, tied) + Filter([x], tied)
    ensures Filter(Insert(init + [last], x, cmp), tied) == Filter(init + [last], tied) + Filter([x], tied)
  {
    var t := init + [last];
    assert t[..|t| - 1] == init;
    var fi, fx, fl := Filter(init, tied), Filter([x], tied), Filter([last], tied);
    FilterAppend(Insert(init, x, cmp), [last], tied);
    FilterAppend(init, [last], tied);
    FilterSingle(x, tied);
    FilterSingle(last, tied);
    if tied(x) {
      assert fl == [];
      assert fi + fx + fl == fi + fl + fx;
    } else {
      assert fx == [];
      assert fi + fx + fl == fi + fl + fx;
    }
  }


  lemma {:induction false} InsertStable<T>(t: seq<T>, x: T, cmp: (T, T) -> int, tied: T -> bool)
    requires forall a, b :: tied(a) && tied(b) ==> cmp(a, b) == 0
    ensures Filter(Insert(t, x, cmp), tied) == Filter(t, tied) + Filter([x], tied)
    decreases |t|
  {
    if t != [] {
      var init, last := t[..|t| - 1], t[|t| - 1];
      assert t == init + [last];
      if cmp(last, x) > 0 {
        InsertStable(init, x, cmp, tied);
        InsertStableStep(init, last, x, cmp, tied);
      } else {
        FilterAppend(t, [x], tied);
      }
    }
  }




  /**
   * Stability: among elements the comparator ties with each other, the sort
   * keeps their input order.
   */
  lemma {:induction false} SortStable<T>(s: seq<T>, cmp: (T, T) -> int, tied: T -> bool)
    requires forall a, b {:trigger cmp(a, b)} :: tied(a) && tied(b) ==> cmp(a, b) == 0
    ensures Filter(StableSort(s, cmp), tied) == Filter(s, tied)
    decreases |s|
  {
    if s != [] {
      var init, last := s[..|s| - 1], s[|s| - 1];
      assert s == init + [last];
      SortStable(init, cmp, tied);
      InsertStable(StableSort(init, cmp), last, cmp, tied);
      FilterAppend(init, [last], tied);
    }
  }

  /** A comparator that ties everything leaves the order unchanged. */
  lemma {:induction false} SortAllTiedIsIdentity<T>(s: seq<T>, cmp: (T, T) -> int)
    requires forall a, b :: cmp(a, b) == 0
    ensures StableSort(s, cmp) == s
    decreases |s|
  {
    if s != [] {
      SortAllTiedIsIdentity(s[..|s| - 1], cmp);
      assert s == s[..|s| - 1] + [s[|s| - 1]];
    }
  }

  lemma SortSnoc<T>(s: seq<T>, i: nat, cmp: (T, T) -> int)
    requires i < |s|
    ensures StableSort(s[..i + 1], cmp) == Insert(StableSort(s[..i], cmp), s[i], cmp)
  {
    assert s[..i + 1][..i] == s[..i];
  }

  /**
   * Elements at the back of `t` that the comparator puts behind `x` stay
   * behind it: inserting into `t` is inserting into the rest, then those.
   */
  lemma {:induction false} InsertSkipsGreater<T>(t: seq<T>, x: T, j: nat, cmp: (T, T) -> int)
    requires j <= |t|
    requires forall k :: j <= k < |t| ==> cmp(t[k], x) > 0
    ensures Insert(t, x, cmp) == Insert(t[..j], x, cmp) + t[j..]
    decreases |t| - j
  {
    if j < |t| {
      var u := t[..|t| - 1];
      InsertSkipsGreater(u, x, j, cmp);
      assert u[..j] == t[..j];
      assert u[j..] + [t[|t| - 1]] == t[j..];
    } else {
      assert t[..j] == t;
    }
  }

  /** The insertion loop stops: `x` goes right after `t[..j]`. */
  lemma InsertStop<T>(t: seq<T>, x: T, j: nat, cmp: (T, T) -> int)
    requires j <= |t|
    requires j == 0 || cmp(t[j - 1], x) <= 0
    ensures Insert(t[..j], x, cmp) == t[..j] + [x]
  {
  }

  /** The array after the insertion loop, read as a sequence: `x` sits between `t[..j]` and `t[j..]`. */
  lemma PlacedBetween<T>(b: seq<T>, t: seq<T>, x: T, j: nat)
    requires j <= |t| && |b| == |t| + 1
    requires forall k :: 0 <= k < j ==> b[k] == t[k]
    requires b[j] == x
    requires forall k :: j < k < |b| ==> b[k] == t[k - 1]
    ensures b == t[..j] + [x] + t[j..]
  {
  }

  lemma SamePointwise<T>(b: seq<T>, c: seq<T>)
    requires |b| == |c|
    requires forall k :: 0 <= k < |b| ==> b[k] == c[k]
    ensures b == c
  {
  }

  /**
   * The shifting loop of one insertion pass: the elements of `a[..i]` at its
   * back that the comparator puts behind `x` move one place right, leaving a
   * gap at the returned index `j`.
   */
  method ShiftGreater<T>(a: array<T>, i: nat, x: T, cmp: (T, T) -> int) returns (j: nat)
    requires i < a.Length
    modifies a
    ensures j <= i
    ensures forall k :: 0 <= k < j ==> a[k] == old(a[k])
    ensures forall k :: j < k <= i ==> a[k] == old(a[k - 1])
    ensures forall k :: i < k < a.Length ==> a[k] == old(a[k])
    ensures forall k :: j <= k < i ==> cmp(old(a[k]), x) > 0
    ensures j == 0 || cmp(old(a[j - 1]), x) <= 0
  {
    j := i;
    while j > 0 && cmp(a[j - 1], x) > 0
      invariant 0 <= j <= i
      invariant forall k :: 0 <= k < j ==> a[k] == old(a[k])
      invariant forall k :: j < k <= i ==> a[k] == old(a[k - 1])
      invariant forall k :: i < k < a.Length ==> a[k] == old(a[k])
      invariant forall k :: j <= k < i ==> cmp(old(a[k]), x) > 0
    {
      a[j] := a[j - 1];
      j := j - 1;
    }
  }

  /**
   * One pass of the insertion sort: `a[i]` moves left past the elements of the
   * sorted prefix `a[..i]` that the comparator puts behind it.
   */
  method InsertAt<T>(a: array<T>, i: nat, cmp: (T, T) -> int)
    requires i < a.Length
    modifies a
    ensures a[..i + 1] == Insert(old(a[..i]), old(a[i]), cmp)
    ensures a[i + 1..] == old(a[i + 1..])
  {
    ghost var t, rest := a[..i], a[i + 1..];
    var x := a[i];
    var j := ShiftGreater(a, i, x, cmp);
    InsertSkipsGreater(t, x, j, cmp);
    InsertStop(t, x, j, cmp);
    a[j] := x;
    PlacedBetween(a[..i + 1], t, x, j);
    SamePointwise(a[i + 1..], rest);
  }

  lemma SuffixStep<T>(b: seq<T>, c: seq<T>, i: nat)
    requires i < |b| == |c| && b[i..] == c[i..]
    ensures b[i] == c[i] && b[i + 1..] == c[i + 1..]
  {
    assert b[i] == b[i..][0];
    assert c[i] == c[i..][0];
    assert b[i + 1..] == b[i..][1..];
    assert c[i + 1..] == c[i..][1..];
  }

  /** `a.sort(cmp)` in place: insertion sort, one element at a time. */
  method SortInPlace<T>(a: array<T>, cmp: (T, T) -> int)
    modifies a
    ensures a[..] == StableSort(old(a[..]), cmp)
  {
    ghost var s := a[..];
    var i := 0;
    while i < a.Length
      invariant 0 <= i <= a.Length
      invariant a[..i] == StableSort(s[..i], cmp)
      invariant a[i..] == s[i..]
    {
      SuffixStep(a[..], s, i);
      InsertAt(a, i, cmp);
      SortSnoc(s, i, cmp);
      i := i + 1;
    }
    assert s[..a.Length] == s;
  }
}
