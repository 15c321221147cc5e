# reindexer-crud-app core, modelled in Dafny

This project models the core of a small CRUD backend written in Go. It covers three parts:

- **Domain filter** (`Transform`). It drops every Nested document whose name starts with `deprecated_`. In every Nested document that stays, it drops every Atom whose name starts with `deleted_`.
- **Service layer.** It has four parts:
  - a cache-aside single-item read over a TTL cache that does not extend entries when they are read;
  - create and update, which stamp or force fields and delegate to the store;
  - a paginated list read, which filters every item of the page and sorts its Nested documents by descending `Sort`, keeping the page order;
  - the int64 comparator used by that sort.
- **Storage mapping.** It converts items between the domain entities and their storage records. Writing an item to storage drops every Nested document's atoms.

Files, one module each:

| file | module | models |
|---|---|---|
| `entity.dfy` | `Domain` | `internal/domain/entity.go` |
| `transform.dfy` | `Transform` | `internal/domain/transform.go` |
| `ordering.dfy` | `Ordering` | the sort comparator in `internal/service/service.go` |
| `service.dfy` | `Service` | `internal/service/service.go` |
| `mapping.dfy` | `Mapping` | `internal/client/mapping.go` |
| `uuids.dfy` | `Uuids` | UUID values and their canonical text form (`String` / `FromString`) |
| `int64s.dfy` | `Int64s` | Go's `int64` and its wrap-around |
| `seqs.dfy`, `wrappers.dfy` | `Seqs`, `Wrappers` | the order-preserving filter, element-wise map, `Option` |

Modelling choices:

- **Transform.** `Transform` is a method with the source's nested append loops. It is proved equal to the function `Transformed`, and the lemmas are stated about that function.
- **Store.** The service is a class. Its `cache` field is a map from id to (item, expiry instant). The store port is the abstract map `rows`. Every port call is appended to `calls`, so "no store call" can be stated.
- **Inputs instead of effects.**
  - Whether a store call fails is an input (`fault`).
  - The page and count replies of the list read are inputs. The store's query engine is not part of this model, and the two calls are not consistent with each other anyway.
  - The clock and the new id are inputs. `GetItem` reads the clock twice, as the code does: `now` for the expiry test, and `setAt` (no earlier than `now`) when it stores the entry after the store call. `CreateItem` reads it once (`now`), and takes the new id as `newId`.
- **Fan-out.** `processItems` runs one goroutine per item. Each goroutine sends its result on a buffered channel, tagged with its index, and the collecting loop stores each result at that index. Every index is sent exactly once, and the channel is closed only after all sends, so the effect is the sequential loop `items[i] := f(items[i])`. It is modelled as that loop, over an array updated in place.

## Model

| member | source | states |
|---|---|---|
| `Domain.EmptyOnlyOnId` | internal/domain/entity.go:17-19 | `Empty()` holds exactly when the id is the nil UUID; items with equal ids agree on it whatever their other fields |
| `Domain.ZeroItemIsEmpty` | internal/domain/entity.go:8-19 | the zero `Item` (what a failed or empty store read returns) is empty, with no Nested documents and a nil `UpdatedAt` |
| `Transform.Transform` | internal/domain/transform.go:7-29 | the nested append loops compute exactly `Transformed(item)`, on every input, with no error outcome |
| `Transform.TransformedDropsPrefixed` | internal/domain/transform.go:9-18 | no Nested in the result starts with `deprecated_`, and no Atom in any of them starts with `deleted_` |
| `Transform.TransformedIsSelection` | internal/domain/transform.go:8-26 | the result's Nested documents are the input's, read at an increasing enumeration of exactly the positions whose name lacks `deprecated_`, each cleaned: nothing else is dropped, reordered or repeated |
| `Transform.CleanedIsSelection` | internal/domain/transform.go:14-24 | a kept Nested keeps id, name and sort; its atoms are exactly the input atoms lacking `deleted_`, in input order |
| `Transform.TransformedKeepsFields` | internal/domain/transform.go:26-28 | id, sort, name, `CreatedAt` and `UpdatedAt` of the item are unchanged |
| `Transform.CleanedIdempotent` | internal/domain/transform.go:14-22 | filtering a Nested's atoms twice equals filtering them once |
| `Transform.TransformedIdempotent` | internal/domain/transform.go:7-29 | `Transformed(Transformed(x)) == Transformed(x)` |
| `Transform.TransformedExample` | internal/domain/transform.go:8-26 | `[deprecated_x, keep[deleted_y, z]]` becomes `[keep[z]]` |
| `Seqs.FilterIsSelection` | internal/domain/transform.go:15-21 | the skip-and-append loop keeps exactly the accepted elements, in order, none repeated |
| `Seqs.FilterAppend` | internal/domain/transform.go:15-21 | filtering a concatenation is the concatenation of the filtered parts |
| `Int64s.Wrap64` | internal/service/service.go:72 | the int64 result of a subtraction is congruent to the true difference modulo 2^64, and equal to it when it fits |
| `Ordering.ByDescendingSort` | internal/service/service.go:71-73 | the comparator as written yields an int64; when `b.Sort - a.Sort` fits in int64 it is negative exactly when `a.Sort > b.Sort` |
| `Ordering.CompareDescending` | internal/service/service.go:71-73 | the corrected comparator is negative exactly when `a.Sort > b.Sort` and zero exactly on equal keys, for all keys |
| `Ordering.InsertBack` | internal/service/service.go:71 | one insertion step of the library's small-slice sort adds exactly the new element to the prefix (same multiset plus one) |
| `Ordering.SortFunc` | internal/service/service.go:71 | sorting returns a permutation (same multiset) of the Nested documents |
| `Ordering.TiesKeepOrder` | internal/service/service.go:71-73 | two Nested documents with equal keys keep their input order, with either comparator |
| `Ordering.SortFuncSorted` | internal/service/service.go:71-73 | with a comparator that orders every pair of the input by descending key, the result is sorted by descending `Sort` |
| `Ordering.AsWrittenConsistent` | internal/service/service.go:71-73 | when no two keys' difference overflows, the comparator as written orders every pair by descending key |
| `Ordering.CorrectedSortSorted` | internal/service/service.go:71-73 | with the corrected comparator the result is always a descending permutation of the input |
| `Ordering.AsWrittenMisorders` | internal/service/service.go:72 | for keys 1 and the smallest int64, the comparator as written puts the smallest key first, and the sort leaves the pair ascending |
| `Service.Lookup` | internal/service/service.go:80-81 | a cache read finds an entry only when it is present and not expired, and then returns its value |
| `Service.ExpiryIsFromInsertion` | internal/service/service.go:30-33 | an entry set at `t` is served exactly up to `t + ttl` (forever when the TTL is not positive) |
| `Service.StoreGet` | internal/service/service.go:15 | the port's single-item read: the failure is passed through, "found" holds exactly for a present row without a failure, and the zero item comes back otherwise |
| `Service.PreparedIsSortedFilter` | internal/service/service.go:69-75 | the per-item list work keeps the item's fields, permutes the filtered Nested documents (so none is deprecated and no atom is deleted), and sorts them descending when the comparator is consistent on them |
| `Service.PreparedAsWrittenSorted` | internal/service/service.go:69-75 | with the comparator as written, the per-item result is sorted descending whenever no difference of kept keys overflows |
| `Service.PreparedCorrectedSorted` | internal/service/service.go:69-75 | with the corrected comparator, the per-item result is always sorted descending |
| `Service.ProcessItems` | internal/service/service.go:98-129 | after the fan-out, position `i` of the same array holds `transform` of the item that was at `i`: the page order is kept |
| `Service.ItemService.constructor` | internal/service/service.go:29-35 | a new service starts with an empty cache over the given store |
| `Service.ItemService.GetItem` | internal/service/service.go:79-91 | a live entry is returned as found, with no store call and the cache unchanged (a hit never extends the expiry); otherwise the store's `(item, found, err)` is returned unchanged and cached, even when not found, unless the store failed, with an expiry taken from the clock read after the store call |
| `Service.ItemService.CreateItem` | internal/service/service.go:47-56 | an empty item gets the new id; `CreatedAt` is now and `UpdatedAt` equals it; the store receives that item; the returned id is its id even when the store fails; the cache is untouched |
| `Service.ItemService.UpdateItem` | internal/service/service.go:93-96 | the store receives the item with only its id replaced by the argument; the store's error is returned; the cache is not invalidated |
| `Service.ItemService.GetItemsPaginated` | internal/service/service.go:58-77 | a page failure returns the page reply and total 0, with no count call; a count failure returns the page untransformed; otherwise item `i` of the result is the filtered and sorted item `i` of the page |
| `Service.RepeatedReadWithinTtl` | internal/service/service.go:79-91 | a second read within the TTL returns the first read's value as found, even after "not found", with one store call in all |
| `Service.ReadAfterTtlGoesToStore` | internal/service/service.go:79-91 | after a store read whose entry was set at `s1`, a hit before `s1 + ttl` does not extend the entry, and a read after `s1 + ttl` calls the store again and returns its reply |
| `Service.StaleReadAfterUpdate` | internal/service/service.go:93-96 | a read after an update, within the TTL of an earlier read, returns the value cached before the update |
| `Uuids.Format` | internal/client/mapping.go:88 | the canonical UUID text has 36 characters with hyphens at 8, 13, 18 and 23 |
| `Uuids.ParseOrNil` | internal/client/mapping.go:24 | a parse error is dropped and the nil UUID takes the place of the value |
| `Uuids.ParseFormat` | internal/client/mapping.go:24 | parsing the canonical text of a UUID gives that UUID back |
| `Mapping.AtomModel` | internal/client/mapping.go:73-79 | keeps the name; an id text that does not parse becomes the nil UUID, and no error is reported |
| `Mapping.NestedModel` | internal/client/mapping.go:43-57 | keeps name and sort and maps the atoms element-wise, keeping count and order |
| `Mapping.NestedToModel` | internal/client/mapping.go:43-57 | the append loop builds exactly `NestedModel(d)` |
| `Mapping.ItemModel` | internal/client/mapping.go:18-34 | keeps sort, name and both timestamps and maps the Nested records element-wise, keeping length and order |
| `Mapping.ItemToModel` | internal/client/mapping.go:18-34 | the append loop builds exactly `ItemModel(d)` |
| `Mapping.NestedToRecord` | internal/client/mapping.go:59-66 | the record never carries atoms; name and sort are kept and the id text parses back to the id |
| `Mapping.ItemToRecord` | internal/client/mapping.go:81-95 | keeps sort, name and both timestamps, maps the Nested documents element-wise, and its id text parses back to the id |
| `Mapping.ToRecord` | internal/client/mapping.go:81-95 | the append loop builds exactly `ItemToRecord(it)` |
| `Mapping.RoundTrip` | internal/client/mapping.go:18-95 | reading back a written item gives the item with every Nested's atoms removed |
| `Mapping.RoundTripExact` | internal/client/mapping.go:18-95 | the round trip is lossless exactly when no Nested holds an atom |

## Left out

- Lifecycle: `Start` and `Close` (service.go:37-45) only start and stop the cache's eviction goroutine and the store session. The eviction itself is not observable through `GetItem`, because an expired entry already reads as absent.
- Concurrency: the goroutines, channel and WaitGroup of `processItems` are not modelled. Each goroutine sends one result tagged with its index, and only the collecting loop writes the slice, at that index. The model is therefore the equivalent sequential loop that replaces each element in place.
- The cache's internal locking is not modelled either.
- Context cancellation and deadlines are not modelled.
- The store adapter is not part of this model. This covers `internal/client/client.go` and the reindexer driver:
  - a successful write is modelled as storing the item under its id;
  - the adapter's own field-by-field update and its duplicate-insert behaviour are not modelled;
  - the list query (sort, limit, offset) and the count are not computed: their replies are inputs.
- The real clock and `uuid.NewV4` are inputs. `newId` may be any UUID, which covers the nil UUID that a failed `NewV4` yields.
- `Ordering.SortFunc`: it is the insertion sort that `slices.SortFunc` runs on slices of at most twelve elements, so up to that length it gives the library's output exactly, including the order of equal keys. Longer slices go through the library's pattern-defeating quicksort, which is not modelled and is not stable. The order of equal keys can then differ from the model, and so can the output when the comparator overflows. Permutation, and sortedness under a consistent comparator, hold for both.
- `Uuids.ParseOrNil`: only the canonical 36-character form is accepted. The other forms the library also accepts are not modelled: 32 hex digits, braces, and the `urn:uuid:` prefix. On a parse error the library may leave a partly decoded value; the model uses the nil UUID.
- Time is an integer count of nanoseconds. Go's monotonic reading, time zones and overflow of `now + ttl` are not modelled.
- The `UpdatedAt = &item.CreatedAt` pointer is modelled as the value `Some(CreatedAt)`.
- Strings are sequences of characters. `strings.HasPrefix` compares bytes, which gives the same answer for the ASCII prefixes used here.
- Go's `int` is taken to be 64 bits wide. On a 32-bit platform `int(b.Sort - a.Sort)` would also truncate.
- Nil and empty slices are both `[]`.
- Not part of this model: `internal/api/http/server.go`, `internal/config/config.go`, `internal/app/*.go`, `cmd/main.go` and `internal/service/checker.go` (HTTP mapping, configuration, process wiring and a health check).

Three behaviours of the code worth noting, all modelled as written:

- `GetItem` caches every store reply that carries no error, including "not found" (internal/service/service.go:86-88). A read within the TTL after a not-found read reports found, with the zero item.
- When nothing survives the filter, `Transform` returns a nil `Related` slice, not an empty one (internal/domain/transform.go:8, 26). In the model both are `[]`.
- `Pagination.Limit` and `Offset` are plain `int`s with no sign constraint (internal/domain/entity.go:35-38).

## Findings

| source | as written | input that shows it | evidently intended | confidence | as-written member | corrected member |
|---|---|---|---|---|---|---|
| internal/service/service.go:72 | the comparator `int(b.Sort - a.Sort)` subtracts two int64 keys with wrap-around | Nested keys 1 and -9223372036854775808: the difference wraps to a negative value, so the smallest key is placed first and the related list comes out ascending | order by descending `Sort` for all keys, e.g. `cmp.Compare(b.Sort, a.Sort)` | not executed; follows from Go's defined int64 wrap-around | `Ordering.AsWrittenMisorders` | `Ordering.CorrectedSortSorted` |

The service model keeps the comparator as written (`Service.PreparedAsWritten`), because that is what the list read does. `Service.PreparedAsWrittenSorted` gives its guarantee under the no-overflow condition. `Service.PreparedCorrectedSorted` proves that the corrected comparator sorts every input.
