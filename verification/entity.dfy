/**
  The domain entities: an Item owns a sequence of Nested documents, each
  Nested owns a sequence of Atoms. They are values, so ownership is a
  strict tree and no two items can share a Nested or an Atom.
*/
module Domain {
  import opened Wrappers
  import opened Int64s
  import opened Uuids

  /** An instant, in nanoseconds since Go's zero time (January 1, year 1, UTC). */
  type Time = int

  /** The zero `time.Time`. */
  const ZeroTime: Time := 0

  datatype Atom = Atom(id: Uuid, name: string)

  datatype Nested = Nested(id: Uuid, name: string, sort: Int64, related: seq<Atom>)

  /** `updatedAt` is Go's `*time.Time`: None stands for a nil pointer. */
  datatype Item = Item(id: Uuid, sort: Int64, name: string, related: seq<Nested>,
                       createdAt: Time, updatedAt: Option<Time>)
  {
    /** An item that has not been given an identity yet. */
    predicate Empty() {
      id == Nil
    }
  }

  /** Go's zero `Item{}`: what a store read returns alongside "not found". */
  const ZeroItem: Item := Item(Nil, 0, "", [], ZeroTime, None)

  /** Limit and offset are plain Go `int`s (64-bit): the type bounds neither
      their sign nor their size. */
  datatype Pagination = Pagination(limit: Int64, offset: Int64)

  /** A sort order is a string; only "DESC" has a usable name (the "ASC"
      constant is declared with the blank identifier). */
  datatype SortOrder = SortOrder(text: string)

  const OrderDesc: SortOrder := SortOrder("DESC")

  /** `Empty` holds exactly for the nil UUID, and no field other than the
      identity can change it. */
  lemma EmptyOnlyOnId(a: Item, b: Item)
    ensures a.Empty() <==> a.id == Nil
    ensures a.id == b.id ==> a.Empty() == b.Empty()
  {
  }

  /** The zero item is empty. */
  lemma ZeroItemIsEmpty()
    ensures ZeroItem.Empty() && ZeroItem.related == [] && ZeroItem.updatedAt == None
  {
  }
}
