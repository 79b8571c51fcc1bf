# Todo store

A Dafny model of the in-memory todo store behind the Flask REST API in `app.py`.

The store is the `TODOS` dictionary together with the `NEXT_ID` counter. The model keeps
the store's logic and drops the HTTP plumbing. That logic is the handlers for list, create,
bulk create, replace, status update, partial update, reorder, single delete and bulk
delete, plus the helpers `make_todo` and `get_todo_or_404`.

The project has seven modules:

- `TodoTypes` (`types.dfy`) holds the values. A `Todo` record has id, title, is_done, priority and
  position. A `Body` is a request body whose recognised fields arrive already typed, each one
  optional. `Error` has one constructor per error message, and `Result` carries a record or an error.
- `IdSeqs` (`ids.dfy`) works on sequences of ids: removing elements, indexes of the first and last
  occurrence, and counting.
- `Listing` (`listing.dfy`) has the status filter and Python's stable `sort` by position. The sort is
  written as an insertion sort that puts a record in front of the first record whose position is
  not below its own.
- `Updates` (`updates.dfy`) computes each handler's outcome from the stored records. That outcome
  is the record built or rewritten, or the error reported.
- `Reordering` (`reorder.dfy`) has the positions a reorder assigns, the two reorder loops as
  functions of their step count, and the lemmas that tie them together.
- `StoreSteps` (`steps.dfy`) has the handlers' loops as methods on the store's values. Each loop is
  proved against the function that specifies it.
- `TodoStore` (`store.dfy`) has the class `Store`. Its fields are `todos` (the dictionary), `ids` (the
  dictionary's key order) and `nextId` (the counter). A ghost set `issued` records every id ever
  handed out. It has one method per handler, and every method keeps `Valid()`.

A Python dictionary iterates in insertion order, so the model keeps that order explicitly as the
sequence `ids`. Keys are only ever inserted by the create handlers, and always with a fresh id
above all earlier ones, so `ids` is strictly increasing. That fact settles two orders that would
otherwise be open:

- a listing orders records of equal position by id;
- a reorder visits the records it does not mention in increasing id order.

Two quirks of the code are kept as they are:

- replace and patch accept an empty title;
- a reorder may name an id twice, and then the later index wins. This leaves a gap in the positions.

`reorder_todos` only checks that `order` is a list (app.py:208). An entry that is not a stored
id is then reported among the unknown ids.

## Model

| member | source | states |
|---|---|---|
| TodoStore.Store.constructor | app.py:5-7 | The store starts empty, with the counter at 1 and no id issued. |
| TodoStore.Store.MakeTodo | app.py:10-21 | The record gets the current counter as its id and as its position, and the given fields. The counter goes up by one. The new id was never issued before and is above every stored key. |
| TodoStore.Store.Add | app.py:77-82 | The record `make_todo` builds from the body is stored under its fresh id and appended to the key order. Nothing else changes. |
| TodoStore.Store.Create | app.py:64-83 | A missing or empty title gives `TitleRequired` and changes nothing. Otherwise exactly one record is created with the next id, is_done defaulting to false and priority to 1. It is stored and returned. |
| TodoStore.Store.CreateBulk | app.py:86-112 | When "items" is not a list the result is `ItemsNotAList` and nothing changes. Otherwise the created records are `BulkTodos(items, old counter)`. They are stored in turn and appended to the key order. Each created record ends up stored under its id, and every earlier record is kept as it was. The counter advances by their number, and `count` equals the number of records returned. |
| TodoStore.Store.List | app.py:42-59 | Every stored record that passes the filter is listed, and only such records. The listing is sorted by position, and by id among equal positions. |
| TodoStore.Store.Replace | app.py:117-144 | The result is `Replaced` of the old records. On success the record under the id is overwritten, and on error nothing changes. The key order, the counter and the issued ids stay the same. |
| TodoStore.Store.SetStatus | app.py:147-164 | The result is `StatusSet` of the old records. On success only that record changes, and on error nothing does. |
| TodoStore.Store.Patch | app.py:169-196 | The result is `Patched` of the old records. On success only that record changes, and on error nothing does. |
| TodoStore.Store.Reorder | app.py:199-228 | When "order" is not a list the result is `OrderNotAList` and nothing changes. Unknown ids give `UnknownIds` listing all of them, and nothing changes. Otherwise the records become `Reordered`, and the result is both `Relisted` and the listing with the "all" filter. |
| TodoStore.Store.Renumber | app.py:216-228 | After validation, both loops leave the records equal to `Reordered`. The returned listing equals what listing all records then gives. |
| TodoStore.Store.Delete | app.py:233-242 | An unknown id gives `NotFound` and changes nothing. Otherwise exactly that key leaves the records and the key order. The counter and the issued ids stay, so the id is never reused. |
| TodoStore.Store.DeleteMany | app.py:245-263 | An id is returned exactly when it was stored and, with `completedOnly`, done. With `completedOnly` the done ids come back in key order and exactly the open records remain. Without it the store is emptied and its old key order returned. |
| TodoStore.ReorderKeepsInv | app.py:216-225 | A reorder keeps the store invariant. |
| Updates.Lookup | app.py:24-28 | Finds the stored record exactly when the id is a key, and otherwise gives `NotFound`. |
| Updates.ValuesOfStore | app.py:49 | Listing the records in key order lists exactly the stored records, in increasing id order. |
| Updates.RemoveKeys | app.py:239 | Removing listed keys from the map and from the key order keeps the store consistent. |
| Updates.ValidItems | app.py:99-103 | The kept items are exactly the items with a non-empty title, in input order. |
| Updates.ValidItemsAppend | app.py:99-103 | Each item is judged on its own: the accepted items of a concatenation are those of the first part followed by those of the second. |
| Updates.ValidItemsOne | app.py:100-103 | A single item is accepted, exactly once, when it has a non-empty title, and otherwise skipped. |
| Updates.ValidItemsAll | app.py:99-103 | When every item has a title, none is skipped. |
| Updates.BulkIds | app.py:98-110 | The `i`-th created record has id and position `first + i`, so the ids are consecutive from the counter, strictly increasing in input order, and lie in `first .. first + count - 1`. Every created record has a non-empty title. |
| Updates.BulkOfOne | app.py:99-110 | A bulk create of one item creates what a single create would, or nothing when the title is missing or empty. |
| Updates.Replaced | app.py:124-143 | Succeeds exactly when the id is stored and all three fields are present. A failure is `NotFound` or `AllFieldsRequired`. A success keeps the id and the old position and takes the three given fields. |
| Updates.ReplaceIdempotent | app.py:117-144 | Replacing again with the same body, on the store the first replace left, yields the same record. |
| Updates.StatusSet | app.py:154-163 | Succeeds exactly when the id is stored and is_done is given. The error is `NotFound` or `IsDoneRequired`. Only is_done differs from the stored record. |
| Updates.StatusIdempotent | app.py:147-164 | Setting the same status again yields the same record. |
| Updates.Patched | app.py:176-195 | Succeeds exactly when the id is stored and at least one field is given. The error is `NotFound` or `NoPatchField`. Each field takes the given value, or its stored one when absent, and id and position are kept. |
| Updates.PatchAllIsReplace | app.py:186-195 | A patch that gives every field equals a replace. |
| Updates.PatchStatusIsStatusSet | app.py:186-195 | A patch that gives only is_done equals a status update. |
| Updates.Missing | app.py:212-213 | The unknown-id list is empty exactly when every id of `order` is stored. |
| Updates.MissingAppend | app.py:212 | The unknown ids are reported in the order `order` lists them, duplicates kept: those of a concatenation are those of the first part followed by those of the second. |
| Updates.MissingIds | app.py:212 | The reported ids are exactly the ids of `order` that are not stored. |
| Updates.DoneIds | app.py:256 | Lists exactly the stored ids whose record is done, in key order, and so in increasing order. |
| Listing.Values | app.py:49 | The values in key order: one per key, each record stored under its own id. |
| Listing.FilterByStatus | app.py:51-55 | Keeps exactly the records matching the status ("open", "done", anything else is all), in the same order. |
| Listing.Insert | app.py:58 | Inserting into a sorted listing keeps it sorted and adds exactly the one record. |
| Listing.SortByPosition | app.py:58 | The result is sorted by position and is a permutation of the input. |
| Listing.SortTieBreaksById | app.py:58 | Records given in increasing id order come out of the stable sort ordered by position and then by id, so the listing is fully determined. |
| Reordering.ReorderKeepsRecords | app.py:216-225 | A reorder keeps the keys, the key order and every field except the position. |
| Reordering.ReorderMentioned | app.py:217-218 | `order[i]` gets position `i + 1` exactly when it is not named again later, so with duplicates the later index wins. |
| Reordering.ReorderDistinct | app.py:217-218 | Without duplicates, `order[i]` gets position `i + 1`. |
| Reordering.ReorderUnmentioned | app.py:221-225 | The `j`-th unmentioned record in key order gets position `len(order) + 1 + j`. |
| Reordering.ReorderPositionsDistinct | app.py:216-225 | After any accepted reorder, duplicates included, no two records share a position. |
| Reordering.ReorderInRange | app.py:216-225 | Without duplicates, every position after a reorder lies in `1 .. n`, where n is the number of records. |
| Reordering.RelistedPositions | app.py:227 | Without duplicates, the returned listing holds every record and has positions `1, 2, ..., n` in turn. |
| Reordering.ReorderListing | app.py:216-228 | Without duplicates, the listing shows `order`'s records first, in its order. The unmentioned records follow in key order. |
| Reordering.Numbered | app.py:217-218 | The records after the first `i` steps of the first reorder loop, where step `j` gives `order[j]` position `j + 1`. The keys are unchanged. |
| Reordering.Appended | app.py:221-225 | The records after the first `j` steps of the second reorder loop, where step `l` gives `rem[l]` position `start + l`. The keys are unchanged. |
| Reordering.NumberedPositions | app.py:217-218 | After `i` steps of the first loop, an id among `order[..i]` holds one past the index of its last mention, and every other record keeps its position. |
| Reordering.AppendedPositions | app.py:221-225 | After `j` steps of the second loop, a key among `rem[..j]` holds `start` plus its index, and every other record keeps its position. |
| Reordering.LoopsAreReordered | app.py:216-225 | The two loops together yield exactly `Reordered`. |
| StoreSteps.ReorderRecords | app.py:216-227 | The two loops and the sort return `Reordered` and `Relisted`. |
| StoreSteps.ReorderOutcome | app.py:227 | The reordered store keeps its keys and stays consistent, and sorting all its records gives `Relisted`. |
| StoreSteps.ApplyOrder | app.py:216-225 | Both reorder loops run on the records yield `Reordered`. |
| StoreSteps.NumberOrder | app.py:217-218 | The first loop yields `Numbered` after all of `order`. |
| StoreSteps.AppendRest | app.py:221-225 | The second loop yields `Appended` after all unmentioned keys. |
| StoreSteps.AddEach | app.py:98-110 | The bulk loop creates `BulkTodos`, stores each record under its id and appends the ids to the key order. The store stays consistent, and the new ids lie between the old counter and the new one. |
| StoreSteps.RemoveEach | app.py:257-258 | Popping each listed id removes exactly those keys from the records and from the key order. |
| StoreSteps.DoneRemoved | app.py:256-258 | Removing the done ids leaves exactly the open records. |
| StoreSteps.WithRecordsAt | app.py:109 | A created record whose id no later record reuses is stored under its id. |
| StoreSteps.WithRecordsKeeps | app.py:109 | A stored key that no created record carries keeps its record. |
| StoreSteps.BulkStored | app.py:98-110 | After a bulk create from a counter above every key, each created record is stored under its id and every earlier record is unchanged. |
| StoreSteps.WithRecordsKeys | app.py:109 | Storing the created records adds exactly their ids to the keys. |
| Updates.HasTitle | app.py:74 | The title test of both create handlers: a title is present and not empty. |
| Updates.FromBody | app.py:77-81 | The record `make_todo` builds for a body: is_done defaults to false, priority to 1, and the position is the id. |
| Updates.BulkTodos | app.py:98-110 | The records a bulk create makes: one per accepted item, with consecutive ids from the counter, in input order. |
| Listing.Matches | app.py:51-55 | A record passes "open" when not done, "done" when done, and any other status always. |
| Reordering.NewPosition | app.py:216-225 | The position a reorder gives a key: one past the index of its last mention in `order`, or else `len(order) + 1` plus its index among the unmentioned keys. |
| Reordering.Reordered | app.py:216-225 | The records after a reorder: the same records, each with its `NewPosition`. |
| Reordering.Relisted | app.py:227 | What a reorder returns: the reordered records in key order, sorted by position. |
| StoreSteps.WithRecords | app.py:109 | The records with each created record stored under its id, in turn. |
| IdSeqs.Without | app.py:221 | Keeps exactly the elements not in the second sequence, preserving order and strict increase. |

## Left out

- The Flask layer is not modelled. That covers routing, status codes, JSON serialisation,
  `request.get_json(silent=True) or {}` and the `/health` endpoint (app.py:33-39). Handlers return
  `Result` values, and `Error.IsValidation` separates 400s from 404s.
- Request parsing is not modelled. Bodies arrive typed as `Body`, the `status` query is a string
  parameter and `completed_only` is a `bool` parameter. So the case-insensitive `"true"` test
  (app.py:253) is left out.
- The model treats a JSON `null` field as absent. In the code, a key holding `null` counts as present
  in replace, status update and patch. `bool(None)` is then false, and `int(None)` raises.
- The `bool()` and `int()` coercions (app.py:18-19, 139-140, 162, 189-191) are not modelled, nor the
  crashes the coercions raise. Fields are already of their target type.
- Titles are strings, so a falsy non-string title such as `0` is not modelled. For strings,
  `not title` means missing or empty.
- Non-list "items" or "order" values are reduced to `None`. A bulk item that is not a dictionary
  (`item.get` raises) and an unhashable `order` entry are not modelled.
- Python's `True == 1` equality inside a reorder's membership tests is not modelled. `order` holds
  integer ids.
- The methods replace a stored record by value. The code updates the stored dictionary in place
  (app.py:162, 189-193, 218, 224), which is observably the same because each dictionary is
  stored under exactly one key.
- Each handler is modelled as one atomic step. Interleaving between requests is not modelled. The
  development server that `app.run` starts (app.py:268) can serve requests on several threads, so
  `NEXT_ID += 1` (app.py:13-14) and the reorder loops could interleave there.
