/**
  Conversions between the domain entities and their storage records, in
  which identities are UUID text. Writing a Nested to storage drops its
  atoms, so a round trip through storage loses them.
*/
module Mapping {
  import opened Wrappers
  import opened Int64s
  import opened Uuids
  import opened Seqs
  import opened Domain

  datatype AtomRecord = AtomRecord(id: string, name: string)

  datatype NestedRecord = NestedRecord(id: string, name: string, sort: Int64, related: seq<AtomRecord>)

  datatype ItemRecord = ItemRecord(id: string, sort: Int64, name: string, related: seq<NestedRecord>,
                                   createdAt: Time, updatedAt: Option<Time>)

  /** `Atom.toModel`: an unparsable id silently becomes the nil UUID. */
  function AtomModel(d: AtomRecord): (a: Atom)
    ensures a.name == d.name
    ensures a.id == if Parse(d.id).Some? then Parse(d.id).value else Nil
  {
    Atom(ParseOrNil(d.id), d.name)
  }

  /** The value `Nested.toModel` builds. */
  function NestedModel(d: NestedRecord): (n: Nested)
    ensures n.name == d.name && n.sort == d.sort
    ensures Parse(d.id).None? ==> n.id == Nil
    ensures |n.related| == |d.related|
    ensures forall i :: 0 <= i < |d.related| ==> n.related[i] == AtomModel(d.related[i])
  {
    Nested(ParseOrNil(d.id), d.name, d.sort, Map(AtomModel, d.related))
  }

  /** The value `Item.toModel` builds. */
  function ItemModel(d: ItemRecord): (it: Item)
    ensures it.sort == d.sort && it.name == d.name
    ensures it.createdAt == d.createdAt && it.updatedAt == d.updatedAt
    ensures Parse(d.id).None? ==> it.id == Nil
    ensures |it.related| == |d.related|
    ensures forall i :: 0 <= i < |d.related| ==> it.related[i] == NestedModel(d.related[i])
  {
    Item(ParseOrNil(d.id), d.sort, d.name, Map(NestedModel, d.related), d.createdAt, d.updatedAt)
  }

  /** `nestedToDTO`: the atoms are never written to storage. */
  function NestedToRecord(n: Nested): (d: NestedRecord)
    ensures d.related == []
    ensures d.name == n.name && d.sort == n.sort
    ensures ParseOrNil(d.id) == n.id
  {
    ParseFormat(n.id);
    NestedRecord(Format(n.id), n.name, n.sort, [])
  }

  /** The value `toDTO` builds. */
  function ItemToRecord(it: Item): (d: ItemRecord)
    ensures d.sort == it.sort && d.name == it.name
    ensures d.createdAt == it.createdAt && d.updatedAt == it.updatedAt
    ensures ParseOrNil(d.id) == it.id
    ensures |d.related| == |it.related|
    ensures forall i :: 0 <= i < |it.related| ==> d.related[i] == NestedToRecord(it.related[i])
  {
    ParseFormat(it.id);
    ItemRecord(Format(it.id), it.sort, it.name, Map(NestedToRecord, it.related), it.createdAt, it.updatedAt)
  }

  /** `Nested.toModel`: converts the atoms one by one, appending. */
  method NestedToModel(d: NestedRecord) returns (n: Nested)
    ensures n == NestedModel(d)
  {
    var atoms: seq<Atom> := [];
    for i := 0 to |d.related|
      invariant atoms == Map(AtomModel, d.related[..i])
    {
      assert d.related[..i + 1][..i] == d.related[..i];
      atoms := atoms + [AtomModel(d.related[i])];
    }
    assert d.related[..|d.related|] == d.related;
    var id := ParseOrNil(d.id);
    n := Nested(id, d.name, d.sort, atoms);
  }

  /** `Item.toModel`: converts the Nested records one by one, appending. */
  method ItemToModel(d: ItemRecord) returns (it: Item)
    ensures it == ItemModel(d)
  {
    var related: seq<Nested> := [];
    for i := 0 to |d.related|
      invariant related == Map(NestedModel, d.related[..i])
    {
      assert d.related[..i + 1][..i] == d.related[..i];
      var n := NestedToModel(d.related[i]);
      related := related + [n];
    }
    assert d.related[..|d.related|] == d.related;
    var id := ParseOrNil(d.id);
    it := Item(id, d.sort, d.name, related, d.createdAt, d.updatedAt);
  }

  /** `toDTO`: converts the Nested documents one by one, appending. */
  method ToRecord(it: Item) returns (d: ItemRecord)
    ensures d == ItemToRecord(it)
  {
    var subItems: seq<NestedRecord> := [];
    for i := 0 to |it.related|
      invariant subItems == Map(NestedToRecord, it.related[..i])
    {
      assert it.related[..i + 1][..i] == it.related[..i];
      subItems := subItems + [NestedToRecord(it.related[i])];
    }
    assert it.related[..|it.related|] == it.related;
    d := ItemRecord(Format(it.id), it.sort, it.name, subItems, it.createdAt, it.updatedAt);
  }

  function WithoutAtoms(n: Nested): Nested {
    n.(related := [])
  }

  /** Writing an item to storage and reading it back gives the item with
      every Nested stripped of its atoms. */
  lemma RoundTrip(it: Item)
    ensures ItemModel(ItemToRecord(it)) == it.(related := Map(WithoutAtoms, it.related))
  {
    var back := ItemModel(ItemToRecord(it));
    forall i | 0 <= i < |it.related| ensures back.related[i] == WithoutAtoms(it.related[i]) {
      var n := it.related[i];
      assert back.related[i] == NestedModel(NestedToRecord(n));
      ParseFormat(n.id);
    }
    ParseFormat(it.id);
  }

  lemma StrippingIsIdentityIff(s: seq<Nested>)
    ensures Map(WithoutAtoms, s) == s <==> forall i :: 0 <= i < |s| ==> s[i].related == []
  {
    if forall i :: 0 <= i < |s| ==> s[i].related == [] {
      MapFixed(WithoutAtoms, s);
    } else {
      var i :| 0 <= i < |s| && s[i].related != [];
      assert Map(WithoutAtoms, s)[i] != s[i];
    }
  }

  /** The round trip is lossless exactly when no Nested holds an atom. */
  lemma RoundTripExact(it: Item)
    ensures ItemModel(ItemToRecord(it)) == it <==> forall i :: 0 <= i < |it.related| ==> it.related[i].related == []
  {
    RoundTrip(it);
    var stripped := Map(WithoutAtoms, it.related);
    StrippingIsIdentityIff(it.related);
    assert it.(related := stripped) == it <==> stripped == it.related;
  }
}
