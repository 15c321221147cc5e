/**
  Sequence helpers shared by the domain filter and the storage mapping:
  an order-preserving filter, an element-wise map, and the notion of an
  in-order selection of positions that characterises the filter.
*/
module Seqs {

  /** The elements of `s` that satisfy `keep`, in their original order
      (the `for ... { if !keep { continue }; out = append(out, x) }` idiom). */
  function Filter<T>(s: seq<T>, keep: T -> bool): (r: seq<T>)
    ensures |r| <= |s|
    ensures forall i :: 0 <= i < |r| ==> r[i] in s && keep(r[i])
    ensures forall j :: 0 <= j < |s| && keep(s[j]) ==> s[j] in r
  {
    if s == [] then []
    else Filter(s[..|s| - 1], keep) + (if keep(s[|s| - 1]) then [s[|s| - 1]] else [])
  }

  /** `f` applied to every element of `s`, keeping length and order. */
  function Map<T, U>(f: T -> U, s: seq<T>): (r: seq<U>)
    ensures |r| == |s|
    ensures forall i :: 0 <= i < |s| ==> r[i] == f(s[i])
  {
    if s == [] then [] else Map(f, s[..|s| - 1]) + [f(s[|s| - 1])]
  }

  /** One more element of `s` read: the filter grows by it exactly when it
      is accepted. */
  lemma FilterStep<T>(s: seq<T>, i: nat, keep: T -> bool)
    requires i < |s|
    ensures Filter(s[..i + 1], keep) == Filter(s[..i], keep) + (if keep(s[i]) then [s[i]] else [])
  {
    assert s[..i + 1] == s[..i] + [s[i]];
    FilterAppend(s[..i], [s[i]], keep);
    assert Filter([s[i]], keep) == Filter([], keep) + (if keep(s[i]) then [s[i]] else []);
  }

  lemma MapStep<T, U>(f: T -> U, s: seq<T>, x: T)
    ensures Map(f, s + [x]) == Map(f, s) + [f(x)]
  {
    assert (s + [x])[..|s|] == s;
  }

  ghost predicate Increasing(idx: seq<nat>) {
    forall k, l :: 0 <= k < l < |idx| ==> idx[k] < idx[l]
  }

  /** `idx` lists, in increasing order, exactly the positions of `s` whose
      element satisfies `keep`. */
  ghost predicate Selects<T>(s: seq<T>, keep: T -> bool, idx: seq<nat>) {
    && Increasing(idx)
    && (forall k :: 0 <= k < |idx| ==> idx[k] < |s|)
    && (forall j :: 0 <= j < |s| ==> (keep(s[j]) <==> j in idx))
  }

  lemma {:induction false} FilterIndices<T>(s: seq<T>, keep: T -> bool) returns (idx: seq<nat>)
    ensures Selects(s, keep, idx)
    ensures |idx| == |Filter(s, keep)|
    ensures forall k :: 0 <= k < |idx| ==> Filter(s, keep)[k] == s[idx[k]]
    decreases |s|
  {
    if s == [] {
      idx := [];
    } else {
      var n := |s| - 1;
      var init, x := s[..n], s[n];
      var prev := FilterIndices(init, keep);
      var r0 := Filter(init, keep);
      if keep(x) {
        idx := prev + [n];
        assert Filter(s, keep) == r0 + [x];
        SelectsExtend(s, keep, prev, true);
      } else {
        idx := prev;
        assert Filter(s, keep) == r0;
        SelectsExtend(s, keep, prev, false);
      }
    }
  }

  lemma SelectsExtend<T>(s: seq<T>, keep: T -> bool, prev: seq<nat>, kept: bool)
    requires s != [] && kept == keep(s[|s| - 1])
    requires Selects(s[..|s| - 1], keep, prev)
    ensures Selects(s, keep, if kept then prev + [|s| - 1] else prev)
  {
    var n := |s| - 1;
    var idx := if kept then prev + [n] else prev;
    assert forall k :: 0 <= k < |prev| ==> prev[k] < n;
    assert forall j :: 0 <= j < n ==> (j in idx <==> j in prev);
    assert forall j :: 0 <= j < n ==> s[j] == s[..n][j];
  }

  /** The filter removes exactly the rejected elements and neither reorders
      nor duplicates the others: its result is `s` read at an increasing
      enumeration of the positions that `keep` accepts. */
  lemma FilterIsSelection<T>(s: seq<T>, keep: T -> bool)
    ensures exists idx :: Selects(s, keep, idx) && |idx| == |Filter(s, keep)|
                          && forall k :: 0 <= k < |idx| ==> Filter(s, keep)[k] == s[idx[k]]
  {
    var idx := FilterIndices(s, keep);
  }

  /** Filtering distributes over concatenation. */
  lemma {:induction false} FilterAppend<T>(s: seq<T>, t: seq<T>, keep: T -> bool)
    ensures Filter(s + t, keep) == Filter(s, keep) + Filter(t, keep)
    decreases |t|
  {
    if t != [] {
      var init, x := t[..|t| - 1], t[|t| - 1];
      assert (s + t)[..|s + t| - 1] == s + init;
      FilterAppend(s, init, keep);
    } else {
      assert s + t == s;
    }
  }

  /** A sequence all of whose elements are accepted is its own filter. */
  lemma {:induction false} FilterKeepsAccepted<T>(s: seq<T>, keep: T -> bool)
    requires forall j :: 0 <= j < |s| ==> keep(s[j])
    ensures Filter(s, keep) == s
    decreases |s|
  {
    if s != [] {
      FilterKeepsAccepted(s[..|s| - 1], keep);
    }
  }

  /** Mapping a function that fixes every element is the identity. */
  lemma MapFixed<T>(f: T -> T, s: seq<T>)
    requires forall j :: 0 <= j < |s| ==> f(s[j]) == s[j]
    ensures Map(f, s) == s
  {
  }
}
