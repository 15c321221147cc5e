/**
  The domain filter: drop every Nested whose name starts with
  "deprecated_" and, in every Nested that stays, every Atom whose name
  starts with "deleted_".
*/
module Transform {
  import opened Seqs
  import opened Domain

  const DeprecatedPrefix: string := "deprecated_"
  const DeletedPrefix: string := "deleted_"

  /** `strings.HasPrefix`. */
  predicate HasPrefix(s: string, prefix: string) {
    prefix <= s
  }

  predicate AtomKept(a: Atom) {
    !HasPrefix(a.name, DeletedPrefix)
  }

  predicate NestedKept(n: Nested) {
    !HasPrefix(n.name, DeprecatedPrefix)
  }

  /** A kept Nested with its deleted atoms removed. */
  function Cleaned(n: Nested): Nested {
    n.(related := Filter(n.related, AtomKept))
  }

  /** The filter as a value: the surviving Nested documents, each cleaned. */
  function Transformed(item: Item): Item {
    item.(related := Map(Cleaned, Filter(item.related, NestedKept)))
  }

  /** `Transform`: builds the filtered sequences by appending, Nested by
      Nested and Atom by Atom; it never fails and leaves its argument as
      it was (the argument is a value). */
  method Transform(item: Item) returns (r: Item)
    ensures r == Transformed(item)
  {
    var filtered: seq<Nested> := [];
    for i := 0 to |item.related|
      invariant filtered == Map(Cleaned, Filter(item.related[..i], NestedKept))
    {
      var nst := item.related[i];
      FilterStep(item.related, i, NestedKept);
      if HasPrefix(nst.name, DeprecatedPrefix) {
        continue;
      }

      var filteredAtoms: seq<Atom> := [];
      for j := 0 to |nst.related|
        invariant filteredAtoms == Filter(nst.related[..j], AtomKept)
      {
        var atom := nst.related[j];
        FilterStep(nst.related, j, AtomKept);
        if HasPrefix(atom.name, DeletedPrefix) {
          continue;
        }
        filteredAtoms := filteredAtoms + [atom];
      }
      assert nst.related[..|nst.related|] == nst.related;
      MapStep(Cleaned, Filter(item.related[..i], NestedKept), nst);
      nst := nst.(related := filteredAtoms);

      filtered := filtered + [nst];
    }
    assert item.related[..|item.related|] == item.related;
    r := item.(related := filtered);
  }

  /** No Nested of the result is deprecated, and no Atom in any of them is
      deleted. */
  lemma TransformedDropsPrefixed(item: Item)
    ensures forall k :: 0 <= k < |Transformed(item).related| ==>
              && !HasPrefix(Transformed(item).related[k].name, DeprecatedPrefix)
              && forall a :: a in Transformed(item).related[k].related ==> !HasPrefix(a.name, DeletedPrefix)
  {
    var kept := Filter(item.related, NestedKept);
    forall k | 0 <= k < |Transformed(item).related|
      ensures !HasPrefix(Transformed(item).related[k].name, DeprecatedPrefix)
      ensures forall a :: a in Transformed(item).related[k].related ==> !HasPrefix(a.name, DeletedPrefix)
    {
      assert Transformed(item).related[k] == Cleaned(kept[k]);
      var atoms := Transformed(item).related[k].related;
      forall a | a in atoms ensures !HasPrefix(a.name, DeletedPrefix) {
        var i :| 0 <= i < |atoms| && atoms[i] == a;
      }
    }
  }

  /** The scalar fields of the item are untouched. */
  lemma TransformedKeepsFields(item: Item)
    ensures var r := Transformed(item);
            r.id == item.id && r.sort == item.sort && r.name == item.name
            && r.createdAt == item.createdAt && r.updatedAt == item.updatedAt
  {
  }

  /** The result holds exactly the non-deprecated Nested documents, in their
      input order, none dropped, none repeated, each one cleaned. */
  lemma TransformedIsSelection(item: Item)
    ensures exists idx :: Selects(item.related, NestedKept, idx)
                          && |idx| == |Transformed(item).related|
                          && forall k :: 0 <= k < |idx| ==>
                               Transformed(item).related[k] == Cleaned(item.related[idx[k]])
  {
    var kept := Filter(item.related, NestedKept);
    FilterIsSelection(item.related, NestedKept);
    var idx :| Selects(item.related, NestedKept, idx) && |idx| == |kept|
               && forall k :: 0 <= k < |idx| ==> kept[k] == item.related[idx[k]];
    assert forall k :: 0 <= k < |idx| ==> Transformed(item).related[k] == Cleaned(kept[k]);
  }

  /** A cleaned Nested keeps its id, name and sort, and its atoms are exactly
      its non-deleted atoms in their input order. */
  lemma CleanedIsSelection(n: Nested)
    ensures Cleaned(n).id == n.id && Cleaned(n).name == n.name && Cleaned(n).sort == n.sort
    ensures exists idx :: Selects(n.related, AtomKept, idx)
                          && |idx| == |Cleaned(n).related|
                          && forall l :: 0 <= l < |idx| ==> Cleaned(n).related[l] == n.related[idx[l]]
  {
    FilterIsSelection(n.related, AtomKept);
  }

  /** Cleaning twice is cleaning once. */
  lemma CleanedIdempotent(n: Nested)
    ensures Cleaned(Cleaned(n)) == Cleaned(n)
  {
    FilterKeepsAccepted(Filter(n.related, AtomKept), AtomKept);
  }

  /** The filter is idempotent: a second pass removes nothing. */
  lemma TransformedIdempotent(item: Item)
    ensures Transformed(Transformed(item)) == Transformed(item)
  {
    var once := Transformed(item).related;
    forall k | 0 <= k < |once| ensures NestedKept(once[k]) && Cleaned(once[k]) == once[k] {
      var kept := Filter(item.related, NestedKept);
      assert once[k] == Cleaned(kept[k]);
      CleanedIdempotent(kept[k]);
    }
    FilterKeepsAccepted(once, NestedKept);
    MapFixed(Cleaned, once);
  }

  /** A worked example: a deprecated Nested disappears, and a
      deleted Atom disappears from the Nested that stays. */
  lemma TransformedExample(x: Nested, y: Atom, z: Atom, keep: Nested, item: Item)
    requires x.name == "deprecated_x" && y.name == "deleted_y" && z.name == "z"
    requires keep.name == "keep" && keep.related == [y, z]
    requires item.related == [x, keep]
    ensures Transformed(item).related == [keep.(related := [z])]
  {
    assert HasPrefix(x.name, DeprecatedPrefix);
    assert HasPrefix(y.name, DeletedPrefix);
    assert !HasPrefix(z.name, DeletedPrefix);
    assert !HasPrefix(keep.name, DeprecatedPrefix);
    assert [x, keep][..1] == [x];
    assert [y, z][..1] == [y];
    assert Filter([x], NestedKept) == [];
    assert Filter([x, keep], NestedKept) == [keep];
    assert Filter([y], AtomKept) == [];
    assert Filter([y, z], AtomKept) == [z];
    assert Map(Cleaned, [keep]) == [Cleaned(keep)];
  }
}
