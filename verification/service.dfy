/**
  The service layer: a cache-aside single-item read over an expiring
  cache, create and update that delegate to the store, and the paginated
  list read that filters and sorts every item of the page.

  The store is an abstract port: `rows` is what it holds, every call is
  appended to `calls`, and whether a call fails is an input of the
  operation (`fault`). The page and the count that the list read fetches
  are inputs too, since the store's query engine is not part of this
  model. The clock and the id generator are inputs (`now`, `setAt`,
  `newId`).
*/
module Service {
  import opened Wrappers
  import opened Int64s
  import opened Uuids
  import opened Domain
  import opened Transform
  import opened Ordering

  datatype StoreError = StoreError(message: string)

  /** One call made through the store port. */
  datatype StoreCall =
    | CreateCall(item: Item)
    | GetCall(id: Uuid)
    | ListCall(pagination: Pagination, order: SortOrder)
    | CountCall
    | UpdateCall(item: Item)

  datatype GetReply = GetReply(item: Item, found: bool, err: Option<StoreError>)
  datatype ListReply = ListReply(items: seq<Item>, err: Option<StoreError>)
  datatype CountReply = CountReply(total: Int64, err: Option<StoreError>)

  /** A cached item and the instant after which it is expired. */
  datatype CacheEntry = CacheEntry(value: Item, expiresAt: Time)

  /** An entry is served until its expiry instant, inclusive; with a
      non-positive TTL entries never expire. */
  predicate Live(e: CacheEntry, ttl: int, now: Time) {
    ttl <= 0 || now <= e.expiresAt
  }

  /** The cache read: a present but expired entry counts as absent. */
  function Lookup(cache: map<Uuid, CacheEntry>, id: Uuid, ttl: int, now: Time): (r: Option<Item>)
    ensures r.Some? <==> id in cache && Live(cache[id], ttl, now)
    ensures r.Some? ==> r.value == cache[id].value
  {
    if id in cache && Live(cache[id], ttl, now) then Some(cache[id].value) else None
  }

  /** The store's answer to a single-item read: the zero item and "not
      found" when it fails or holds no such row. */
  function StoreGet(rows: map<Uuid, Item>, id: Uuid, fault: Option<StoreError>): (r: GetReply)
    ensures r.err == fault
    ensures r.found <==> fault.None? && id in rows
    ensures r.found ==> r.item == rows[id]
    ensures !r.found ==> r.item == ZeroItem
  {
    if fault.Some? then GetReply(ZeroItem, false, fault)
    else if id in rows then GetReply(rows[id], true, None)
    else GetReply(ZeroItem, false, None)
  }

  /** The per-item work of the list read, for a given comparator: filter,
      then sort the Nested documents. */
  function Prepared(item: Item, cmp: Comparator): Item {
    var it := Transformed(item);
    it.(related := SortFunc(it.related, cmp))
  }

  /** The closure the list read passes to `processItems`. */
  function PreparedAsWritten(item: Item): Item {
    Prepared(item, ByDescendingSort)
  }

  /** A prepared item is the filtered item with its Nested documents
      permuted: same fields, same multiset of Nested documents, so no
      deprecated Nested and no deleted Atom. With a comparator consistent
      on them, the Nested documents are sorted by descending key. */
  lemma PreparedIsSortedFilter(item: Item, cmp: Comparator)
    ensures var p := Prepared(item, cmp);
            p.id == item.id && p.sort == item.sort && p.name == item.name
            && p.createdAt == item.createdAt && p.updatedAt == item.updatedAt
    ensures multiset(Prepared(item, cmp).related) == multiset(Transformed(item).related)
    ensures forall n :: n in Prepared(item, cmp).related ==>
              !HasPrefix(n.name, DeprecatedPrefix) && forall a :: a in n.related ==> !HasPrefix(a.name, DeletedPrefix)
    ensures Consistent(cmp, Transformed(item).related) ==> SortedDescending(Prepared(item, cmp).related)
  {
    var t := Transformed(item).related;
    var p := Prepared(item, cmp).related;
    TransformedDropsPrefixed(item);
    forall n | n in p
      ensures !HasPrefix(n.name, DeprecatedPrefix) && forall a :: a in n.related ==> !HasPrefix(a.name, DeletedPrefix)
    {
      assert n in multiset(p);
      assert n in multiset(t);
      var k :| 0 <= k < |t| && t[k] == n;
    }
    if Consistent(cmp, t) {
      SortFuncSorted(t, cmp);
    }
  }

  /** The list read's per-item result is sorted by descending key whenever
      no two keys of the surviving Nested documents overflow when
      subtracted. */
  lemma PreparedAsWrittenSorted(item: Item)
    requires NoOverflow(Transformed(item).related)
    ensures SortedDescending(PreparedAsWritten(item).related)
    ensures multiset(PreparedAsWritten(item).related) == multiset(Transformed(item).related)
  {
    AsWrittenConsistent(Transformed(item).related);
    PreparedIsSortedFilter(item, ByDescendingSort);
  }

  /** With the corrected comparator the per-item result is always sorted. */
  lemma PreparedCorrectedSorted(item: Item)
    ensures SortedDescending(Prepared(item, CompareDescending).related)
    ensures multiset(Prepared(item, CompareDescending).related) == multiset(Transformed(item).related)
  {
    CorrectedConsistent(Transformed(item).related);
    PreparedIsSortedFilter(item, CompareDescending);
  }

  /** `processItems`: every item is replaced, in place, by its transform.
      The concurrent fan-out writes each result back at the index it came
      from, which is what this sequential loop does. */
  method ProcessItems(items: array<Item>, transform: Item -> Item)
    modifies items
    ensures forall i :: 0 <= i < items.Length ==> items[i] == transform(old(items[i]))
  {
    for i := 0 to items.Length
      invariant forall k :: 0 <= k < i ==> items[k] == transform(old(items[k]))
      invariant forall k :: i <= k < items.Length ==> items[k] == old(items[k])
    {
      items[i] := transform(items[i]);
    }
  }

  class ItemService {
    const ttl: int
    var cache: map<Uuid, CacheEntry>
    var rows: map<Uuid, Item>
    var calls: seq<StoreCall>

    /** `New`: a service over a store holding `rows`, with an empty cache. */
    constructor (rows: map<Uuid, Item>, ttl: int)
      ensures this.ttl == ttl && this.rows == rows
      ensures cache == map[] && calls == []
    {
      this.ttl := ttl;
      this.rows := rows;
      cache := map[];
      calls := [];
    }

    /** `GetItem`: a live cache entry is returned as found, with no store
        call. Otherwise the store's reply is returned unchanged and, unless
        the store failed, cached, even when it says "not found". The clock
        is read twice: `now` for the expiry test, `setAt` (after the store
        call) when the entry is stored. */
    method GetItem(id: Uuid, now: Time, setAt: Time, fault: Option<StoreError>)
      returns (item: Item, found: bool, err: Option<StoreError>)
      requires now <= setAt
      modifies this
      ensures rows == old(rows)
      ensures Lookup(old(cache), id, ttl, now).Some? ==>
                && item == Lookup(old(cache), id, ttl, now).value && found && err == None
                && cache == old(cache) && calls == old(calls)
      ensures Lookup(old(cache), id, ttl, now).None? ==>
                && GetReply(item, found, err) == StoreGet(rows, id, fault)
                && calls == old(calls) + [GetCall(id)]
                && cache == if err.None? then old(cache)[id := CacheEntry(item, setAt + ttl)] else old(cache)
    {
      var cached := Lookup(cache, id, ttl, now);
      if cached.Some? {
        return cached.value, true, None;
      }

      var reply := StoreGet(rows, id, fault);
      calls := calls + [GetCall(id)];
      if reply.err.None? {
        cache := cache[id := CacheEntry(reply.item, setAt + ttl)];
      }

      return reply.item, reply.found, reply.err;
    }

    /** `CreateItem`: an empty item gets `newId`; both timestamps become
        `now`; the item goes to the store and its id is returned, whether
        or not the store failed. The cache is not touched. */
    method CreateItem(item: Item, now: Time, newId: Uuid, fault: Option<StoreError>) returns (id: Uuid, err: Option<StoreError>)
      modifies this
      ensures id == if item.Empty() then newId else item.id
      ensures calls == old(calls) + [CreateCall(item.(id := id, createdAt := now, updatedAt := Some(now)))]
      ensures calls[|calls| - 1].item.id == id
      ensures err == fault
      ensures cache == old(cache)
      ensures rows == if fault.None? then old(rows)[id := item.(id := id, createdAt := now, updatedAt := Some(now))] else old(rows)
    {
      var it := item;
      if it.Empty() {
        it := it.(id := newId);
      }
      it := it.(createdAt := now);
      it := it.(updatedAt := Some(it.createdAt));

      calls := calls + [CreateCall(it)];
      if fault.None? {
        rows := rows[it.id := it];
      }
      return it.id, fault;
    }

    /** `UpdateItem`: the item goes to the store with its id forced to `id`.
        The cache is not invalidated. */
    method UpdateItem(id: Uuid, item: Item, fault: Option<StoreError>) returns (err: Option<StoreError>)
      modifies this
      ensures calls == old(calls) + [UpdateCall(item.(id := id))]
      ensures err == fault
      ensures cache == old(cache)
      ensures rows == if fault.None? then old(rows)[id := item.(id := id)] else old(rows)
    {
      var it := item.(id := id);
      calls := calls + [UpdateCall(it)];
      if fault.None? {
        rows := rows[id := it];
      }
      return fault;
    }

    /** `GetItemsPaginated`: fetch the page (descending), then the count,
        stopping at the first failure; on success every item of the page
        is filtered and sorted, in the page's order. */
    method GetItemsPaginated(pagination: Pagination, page: ListReply, count: CountReply)
      returns (items: seq<Item>, total: Int64, err: Option<StoreError>)
      modifies this
      ensures cache == old(cache) && rows == old(rows)
      ensures page.err.Some? ==>
                && items == page.items && total == 0 && err == page.err
                && calls == old(calls) + [ListCall(pagination, OrderDesc)]
      ensures page.err.None? ==> calls == old(calls) + [ListCall(pagination, OrderDesc), CountCall]
      ensures page.err.None? && count.err.Some? ==>
                items == page.items && total == count.total && err == count.err
      ensures page.err.None? && count.err.None? ==>
                && |items| == |page.items|
                && (forall i :: 0 <= i < |items| ==> items[i] == PreparedAsWritten(page.items[i]))
                && total == count.total && err == None
    {
      calls := calls + [ListCall(pagination, OrderDesc)];
      if page.err.Some? {
        return page.items, 0, page.err;
      }

      calls := calls + [CountCall];
      if count.err.Some? {
        return page.items, count.total, count.err;
      }

      var slots := new Item[|page.items|](i requires 0 <= i < |page.items| => page.items[i]);
      ProcessItems(slots, PreparedAsWritten);
      return slots[..], count.total, None;
    }
  }

  /** Two reads of one id within the TTL of the first store read: the
      second is served from the cache, with the first's value, reported as
      found even when the store said "not found", and with no second store
      call. */
  method RepeatedReadWithinTtl(s: ItemService, id: Uuid, t1: Time, s1: Time, t2: Time, s2: Time,
                               f1: Option<StoreError>, f2: Option<StoreError>)
    returns (first: Item, second: Item, secondFound: bool)
    requires f1.None? && t1 <= s1 && t1 <= t2 <= s2 && (s.ttl <= 0 || t2 <= t1 + s.ttl)
    requires Lookup(s.cache, id, s.ttl, t1).None?
    modifies s
    ensures second == first && secondFound
    ensures s.calls == old(s.calls) + [GetCall(id)]
  {
    var found1, err1;
    first, found1, err1 := s.GetItem(id, t1, s1, f1);
    var err2;
    second, secondFound, err2 := s.GetItem(id, t2, s2, f2);
  }

  /** Reads do not extend an entry: after a store read whose entry was set
      at `s1`, a hit at `t2` leaves the expiry at `s1 + ttl`, and a read
      after that instant goes to the store again. */
  method ReadAfterTtlGoesToStore(s: ItemService, id: Uuid, t1: Time, s1: Time, t2: Time, s2: Time, t3: Time, s3: Time,
                                 f1: Option<StoreError>, f2: Option<StoreError>, f3: Option<StoreError>)
    returns (third: Item, thirdFound: bool, thirdErr: Option<StoreError>)
    requires f1.None? && s.ttl > 0
    requires t1 <= s1 && t1 <= t2 <= s1 + s.ttl < t3 && t2 <= s2 && t3 <= s3
    requires Lookup(s.cache, id, s.ttl, t1).None?
    modifies s
    ensures s.calls == old(s.calls) + [GetCall(id), GetCall(id)]
    ensures GetReply(third, thirdFound, thirdErr) == StoreGet(s.rows, id, f3)
  {
    var first, found1, err1 := s.GetItem(id, t1, s1, f1);
    var second, found2, err2 := s.GetItem(id, t2, s2, f2);
    third, thirdFound, thirdErr := s.GetItem(id, t3, s3, f3);
  }

  /** An update followed by a read within the TTL of an earlier read returns
      the value cached before the update, not the value just written. */
  method StaleReadAfterUpdate(s: ItemService, id: Uuid, update: Item, t1: Time, s1: Time, t2: Time, s2: Time,
                              f1: Option<StoreError>, f2: Option<StoreError>, f3: Option<StoreError>)
    returns (before: Item, after: Item)
    requires f1.None? && f2.None? && t1 <= s1 && t1 <= t2 <= s2 && (s.ttl <= 0 || t2 <= t1 + s.ttl)
    requires Lookup(s.cache, id, s.ttl, t1).None?
    modifies s
    ensures after == before
    ensures id in s.rows && s.rows[id] == update.(id := id)
  {
    var found1, err1;
    before, found1, err1 := s.GetItem(id, t1, s1, f1);
    var _ := s.UpdateItem(id, update, f2);
    var found2, err2;
    after, found2, err2 := s.GetItem(id, t2, s2, f3);
  }

  /** An entry stored at `t` is served exactly up to `t + ttl` (always,
      with a non-positive TTL). */
  lemma ExpiryIsFromInsertion(cache: map<Uuid, CacheEntry>, id: Uuid, v: Item, ttl: int, t: Time, now: Time)
    ensures Lookup(cache[id := CacheEntry(v, t + ttl)], id, ttl, now) ==
            if ttl <= 0 || now <= t + ttl then Some(v) else None
  {
  }
}
