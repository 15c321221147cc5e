/**
  The descending sort of an item's Nested documents on the list path:
  `slices.SortFunc(it.Related, func(a, b) int { return int(b.Sort - a.Sort) })`.
  A comparator follows `slices.SortFunc`'s convention: a negative result
  puts `a` before `b`.
*/
module Ordering {
  import opened Int64s
  import opened Domain

  type Comparator = (Nested, Nested) -> int

  /** The comparator as written: the int64 difference `b.Sort - a.Sort`,
      which wraps around when it does not fit in 64 bits. */
  function ByDescendingSort(a: Nested, b: Nested): (r: int)
    ensures InInt64(r)
    ensures InInt64(b.sort - a.sort) ==> (r < 0 <==> a.sort > b.sort)
  {
    Wrap64(b.sort - a.sort)
  }

  /** The comparator the sort evidently intends (`cmp.Compare(b.Sort, a.Sort)`):
      it never overflows. */
  function CompareDescending(a: Nested, b: Nested): (r: int)
    ensures r < 0 <==> a.sort > b.sort
    ensures r == 0 <==> a.sort == b.sort
  {
    if a.sort > b.sort then -1 else if a.sort < b.sort then 1 else 0
  }

  predicate SortedDescending(s: seq<Nested>) {
    forall i, j :: 0 <= i < j < |s| ==> s[i].sort >= s[j].sort
  }

  /** `cmp` orders every pair of elements of `s` by descending sort key. */
  ghost predicate Consistent(cmp: Comparator, s: seq<Nested>) {
    forall i, j :: 0 <= i < |s| && 0 <= j < |s| ==> (cmp(s[i], s[j]) < 0 <==> s[i].sort > s[j].sort)
  }

  /** No difference of two sort keys of `s` leaves the int64 range. */
  predicate NoOverflow(s: seq<Nested>) {
    forall i, j :: 0 <= i < |s| && 0 <= j < |s| ==> InInt64(s[j].sort - s[i].sort)
  }

  /** One step of the library's insertion sort: `x`, appended after the
      sorted prefix `p`, swaps leftwards while it compares below its left
      neighbour, so it stops after every element it does not compare below. */
  function InsertBack(p: seq<Nested>, x: Nested, cmp: Comparator): (r: seq<Nested>)
    ensures multiset(r) == multiset(p) + multiset{x}
  {
    if p == [] || cmp(x, p[|p| - 1]) >= 0 then p + [x]
    else
      assert p == p[..|p| - 1] + [p[|p| - 1]];
      InsertBack(p[..|p| - 1], x, cmp) + [p[|p| - 1]]
  }

  /** The insertion sort `slices.SortFunc` runs on up to twelve elements:
      each element in turn is inserted into the sorted prefix before it. */
  function SortFunc(s: seq<Nested>, cmp: Comparator): (r: seq<Nested>)
    ensures multiset(r) == multiset(s)
  {
    if s == [] then []
    else
      assert s == s[..|s| - 1] + [s[|s| - 1]];
      InsertBack(SortFunc(s[..|s| - 1], cmp), s[|s| - 1], cmp)
  }

  lemma ConsistentSub(cmp: Comparator, s: seq<Nested>, t: seq<Nested>)
    requires Consistent(cmp, s)
    requires multiset(t) <= multiset(s)
    ensures Consistent(cmp, t)
  {
    forall i, j | 0 <= i < |t| && 0 <= j < |t|
      ensures cmp(t[i], t[j]) < 0 <==> t[i].sort > t[j].sort
    {
      assert t[i] in multiset(t) && t[j] in multiset(t);
      assert t[i] in s && t[j] in s;
      var i' :| 0 <= i' < |s| && s[i'] == t[i];
      var j' :| 0 <= j' < |s| && s[j'] == t[j];
    }
  }

  lemma SnocSorted(t: seq<Nested>, h: Nested)
    requires SortedDescending(t)
    requires forall k :: 0 <= k < |t| ==> t[k].sort >= h.sort
    ensures SortedDescending(t + [h])
  {
    var r := t + [h];
    forall i, j | 0 <= i < j < |r| ensures r[i].sort >= r[j].sort {
      assert r[i] == t[i];
      if j < |t| {
        assert r[j] == t[j];
      }
    }
  }

  lemma BoundedByMultiset(r: seq<Nested>, t: seq<Nested>, x: Nested, bound: int)
    requires multiset(r) == multiset(t) + multiset{x}
    requires x.sort >= bound
    requires forall m :: 0 <= m < |t| ==> t[m].sort >= bound
    ensures forall k :: 0 <= k < |r| ==> r[k].sort >= bound
  {
    forall k | 0 <= k < |r| ensures r[k].sort >= bound {
      assert r[k] in multiset(r);
      if r[k] != x {
        assert r[k] in multiset(t);
        var m :| 0 <= m < |t| && t[m] == r[k];
      }
    }
  }

  lemma {:induction false} InsertBackSorted(p: seq<Nested>, x: Nested, cmp: Comparator)
    requires SortedDescending(p)
    requires Consistent(cmp, p + [x])
    ensures SortedDescending(InsertBack(p, x, cmp))
    decreases |p|
  {
    if p != [] {
      var n := |p| - 1;
      var init, last := p[..n], p[n];
      assert (p + [x])[n] == last && (p + [x])[n + 1] == x;
      if cmp(x, last) >= 0 {
        forall k | 0 <= k < |p| ensures p[k].sort >= x.sort {
          assert p[k].sort >= last.sort;
        }
        SnocSorted(p, x);
      } else {
        assert p == init + [last];
        assert multiset(init + [x]) <= multiset(p + [x]);
        ConsistentSub(cmp, p + [x], init + [x]);
        InsertBackSorted(init, x, cmp);
        var rest := InsertBack(init, x, cmp);
        BoundedByMultiset(rest, init, x, last.sort);
        SnocSorted(rest, last);
      }
    }
  }

  /** With a comparator that is consistent on its input, the sort returns
      the input sorted by descending sort key. */
  lemma {:induction false} SortFuncSorted(s: seq<Nested>, cmp: Comparator)
    requires Consistent(cmp, s)
    ensures SortedDescending(SortFunc(s, cmp))
    decreases |s|
  {
    if s != [] {
      var n := |s| - 1;
      var init := s[..n];
      assert s == init + [s[n]];
      ConsistentSub(cmp, s, init);
      SortFuncSorted(init, cmp);
      var sorted := SortFunc(init, cmp);
      assert multiset(sorted + [s[n]]) == multiset(s);
      ConsistentSub(cmp, s, sorted + [s[n]]);
      InsertBackSorted(sorted, s[n], cmp);
    }
  }

  /** Equal keys keep their input order: the insertion sort is stable. */
  lemma TiesKeepOrder(x: Nested, y: Nested)
    requires x.sort == y.sort
    ensures SortFunc([x, y], ByDescendingSort) == [x, y]
    ensures SortFunc([x, y], CompareDescending) == [x, y]
  {
    assert [x, y][..1] == [x];
    assert [x][..0] == [];
  }


  /** Without overflow the comparator as written is consistent. */
  lemma AsWrittenConsistent(s: seq<Nested>)
    requires NoOverflow(s)
    ensures Consistent(ByDescendingSort, s)
  {
    forall i, j | 0 <= i < |s| && 0 <= j < |s|
      ensures ByDescendingSort(s[i], s[j]) < 0 <==> s[i].sort > s[j].sort
    {
      assert InInt64(s[j].sort - s[i].sort);
    }
  }

  /** The corrected comparator is consistent on every input. */
  lemma CorrectedConsistent(s: seq<Nested>)
    ensures Consistent(CompareDescending, s)
  {
  }

  /** With the corrected comparator the sort is always descending. */
  lemma CorrectedSortSorted(s: seq<Nested>)
    ensures SortedDescending(SortFunc(s, CompareDescending))
    ensures multiset(SortFunc(s, CompareDescending)) == multiset(s)
  {
    CorrectedConsistent(s);
    SortFuncSorted(s, CompareDescending);
  }

  lemma WrapAtMinimum(a: Nested, b: Nested)
    requires a.sort == 1 && b.sort == MinInt64
    ensures ByDescendingSort(b, a) == MinInt64 + 1
  {
    assert Wrap64(1 - MinInt64) == MinInt64 + 1;
  }

  /** As written, the comparator claims that the smallest int64 key comes
      before the key 1, and sorting the pair leaves them ascending. */
  lemma AsWrittenMisorders(a: Nested, b: Nested)
    requires a.sort == 1 && b.sort == MinInt64
    ensures ByDescendingSort(b, a) < 0
    ensures SortFunc([a, b], ByDescendingSort) == [b, a]
    ensures !SortedDescending(SortFunc([a, b], ByDescendingSort))
  {
    WrapAtMinimum(a, b);
    assert [a, b][..1] == [a];
    assert [a][..0] == [];
    assert SortFunc([a], ByDescendingSort) == [a];
    assert InsertBack([a], b, ByDescendingSort) == [b, a];
  }
}
