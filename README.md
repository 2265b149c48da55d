# Product store of the product directory service

A Dafny model of the in-memory product collection behind the HTTP routes of
`2/app.js`, and proofs about it. The service keeps an ordered array of
`{id, name, price}` records, seeded with four products, and serves six
routes over it: create (POST), list with optional `minPrice`/`maxPrice`
(GET all), get by id (GET one), full replace (PUT), partial patch (PATCH) and
delete (DELETE).

The project has four modules:

- `JsValues` (`jsvalues.dfy`): the JavaScript meaning the routes rely on. A
  body field is `Absent` (undefined), `Null`, `Bool`, `Str`, `Num` or
  `Composite` (object or array). `Truthy` is `!x` negated. `IsPositiveNumber`
  is the `typeof price === 'number' && price > 0` test. `Trim` is
  `String.prototype.trim`, with the ECMAScript whitespace and line
  terminator set written out: it keeps the part of the string between the
  end of the leading whitespace (`SpaceRunEnd`) and the start of the
  trailing whitespace (`SpaceRunStart`).
- `Products` (`products.dfy`): the record type, the seed data, the lookups
  (`IndexOf` for `find`/`findIndex`, `HasId` for `some`, `Keep` for
  `filter`), and one pure function per route (`Lookup`, `Listed`,
  `CreateStep`, `ReplaceStep`, `PatchStep`, `DeleteStep`). Each route
  function gives the reply and, for the writers, the collection after the
  request (GET one and GET all leave it unchanged). Their contracts, or for
  `Listed` and `PatchStep` the lemmas after them, state each error case
  exactly and what the new collection is.
- `ProductStore` (`store.dfy`): the module-level `products` variable as a
  `Store` class with one method per route. The methods follow the source's
  steps: `push`, assignment at the found index, field writes on the found
  record one after the other, and reassignment by a filter. Each is proved
  to return the reply and leave the collection that the route function
  gives. `Valid()` (every price positive and every name trimmed) is
  preserved by every method.
- `Traces` (`traces.dfy`): arbitrary sequences of requests (`Post`,
  `GetAll`, `GetOne`, `Put`, `Patch`, `Remove`). Prices stay positive and
  names stay trimmed from the seed data on. Ids come only from the seed or
  from a create's clock reading. Ids stay unique when the clock never
  repeats a stored id. Sample scenarios are replayed, both on the functions
  and through `Store` objects (`WindowWalkthrough`, `MouseWalkthrough`,
  `RefusalWalkthrough`): a price window on the seed data, a
  create/get/delete round trip, and three refusals.

Replies are `Result<T>`: `Ok(value)` or `Err(failure)`. The failure is
`BadRequest(Missing)` (the `!name || !price` check), `BadRequest(NotPositive)`
(the price check), `NotFound`, or `TypeError`.

`TypeError` is the one addition to the two error answers the routes write
themselves (400 and 404). In the code, `name.trim()` runs only after the checks. So a
truthy name that is not a string passes them in POST and PUT. In PATCH,
any name that is present but not a string gets through, `null` included.
Calling `trim` on such a name throws, and Express answers with its default
error response. The model includes this path. The exception is thrown
before `push`, before the index assignment and before the field write, so
nothing changes.

## Model

| member | source | states |
|---|---|---|
| `JsValues.Truthy` | 2/app.js:44 | no contract of its own: the JavaScript `!x` test of the required-field checks; `PositiveIsTruthy` and `FullBodyError` state what it means for a body |
| `JsValues.IsPositiveNumber` | 2/app.js:50 | no contract of its own: the price test of every writer; `PositiveIsTruthy`, `FullBodyError` and the step functions state its role |
| `JsValues.PositiveIsTruthy` | 2/app.js:44-50 | a price that passes the positivity check is truthy, so the required-field check never refuses it |
| `JsValues.IsJsSpace` | 2/app.js:58 | no contract of its own: the ECMAScript WhiteSpace and LineTerminator code points that `trim` removes; `SpaceRunEnd`, `SpaceRunStart` and `TrimIsStrippedMiddle` state its role |
| `JsValues.SpaceRunEnd` | 2/app.js:58 | the position where the leading whitespace ends: everything before it (from the start position) is whitespace, and the character at it, if any, is not |
| `JsValues.SpaceRunStart` | 2/app.js:58 | the position where the trailing whitespace starts: everything from it on is whitespace, and the character before it, if still inside the kept part, is not |
| `JsValues.Trim` | 2/app.js:58 | no contract of its own: `String.prototype.trim`; `TrimIsStrippedMiddle` and `TrimmedMeansFixed` state what it returns |
| `JsValues.TrimIsStrippedMiddle` | 2/app.js:58 | `trim` returns a contiguous middle slice of the name, only whitespace is cut on either side, and the result has no whitespace at either end |
| `JsValues.TrimmedMeansFixed` | 2/app.js:58 | `trim` always returns a trimmed string, and a string is trimmed exactly when `trim` leaves it unchanged |
| `JsValues.TrimIdempotent` | 2/app.js:124 | trimming a stored (already trimmed) name changes nothing |
| `JsValues.NoEdgeSpaceTrimIsIdentity` | 2/app.js:145 | a name with no whitespace at either end is stored exactly as sent |
| `JsValues.AllSpaceTrimsToEmpty` | 2/app.js:44-58 | a whitespace-only name trims to the empty string, so it passes the truthiness check and is stored empty |
| `Products.Seed` | 2/app.js:16-21 | no contract of its own: the four start-up records; `SeedIsWellFormed` states their invariants |
| `Products.SeedIsWellFormed` | 2/app.js:16-21 | the four start-up records have positive prices, distinct ids and trimmed names |
| `Products.HasId` | 2/app.js:163 | no contract of its own: `some(p => p.id === id)`; `IndexOf` and `DeleteStep` state its role |
| `Products.IndexOf` | 2/app.js:114 | gives the first position whose record has the id, or none exactly when no record has it |
| `Products.Keep` | 2/app.js:73 | a filtered list is no longer than its input, and an element is in it exactly when it is in the input and passes the filter |
| `Products.KeepIsSubsequence` | 2/app.js:77 | filtering keeps the relative order of the kept records |
| `Products.KeepCount` | 2/app.js:73 | filtering keeps every copy of a passing record and no copy of a failing one |
| `Products.KeepEverything` | 2/app.js:70-77 | a filter that every record passes returns the collection unchanged |
| `Products.KeepTwice` | 2/app.js:72-78 | filtering by one predicate and then another equals filtering once by their conjunction |
| `Products.KeepKeepsIdsUnique` | 2/app.js:171 | filtering a collection with distinct ids leaves the ids distinct |
| `Products.KeepKeepsPricesPositive` | 2/app.js:171 | filtering keeps prices positive |
| `Products.Lookup` | 2/app.js:84-95 | GET one succeeds exactly when some record has the id, and then gives the first such record; otherwise NotFound |
| `Products.MeetsMin` | 2/app.js:73 | no contract of its own: `p.price >= Number(minPrice)`, true for an absent bound and false for a NaN one; `ListedExactly` states its effect on the list |
| `Products.MeetsMax` | 2/app.js:77 | no contract of its own: `p.price <= Number(maxPrice)`, true for an absent bound and false for a NaN one; `ListedExactly` states its effect on the list |
| `Products.Listed` | 2/app.js:67-81 | no contract of its own: GET all, narrowing a copy by each bound given; `ListedIsOnePass` and `ListedExactly` state what it returns |
| `Products.ListedIsOnePass` | 2/app.js:70-80 | the list narrowed by `minPrice` and then by `maxPrice` is the one-pass filter by both bounds, with an absent bound removing nothing |
| `Products.ListedExactly` | 2/app.js:70-80 | GET all returns every record within the given bounds as often as it is stored, no other record, in stored order; with no bound it returns the whole collection; a NaN bound lets nothing through |
| `Products.FullBodyError` | 2/app.js:102-112 | the POST/PUT body is accepted exactly when the name is truthy and the price is a positive number; Missing is reported exactly when a field is falsy |
| `Products.CreateStep` | 2/app.js:41-64 | each of Missing, NotPositive and TypeError happens exactly under its condition, and none changes the collection; success happens exactly for a non-empty string name and a positive price, and appends exactly `{now, trim(name), price}` after the unchanged old records; prices stay positive |
| `Products.CreateKeepsIdsUnique` | 2/app.js:57-62 | a create whose clock reading is not a stored id keeps ids distinct |
| `Products.CreateKeepsNamesTrimmed` | 2/app.js:58-62 | a create keeps every stored name trimmed, since it stores `trim` of the sent name |
| `Products.ReplaceStep` | 2/app.js:98-129 | the body checks come before the lookup (an invalid body is BadRequest even for an unknown id); NotFound exactly for a valid body and an unknown id; no failure changes the collection; success overwrites only the first matching position with `{id, trim(name), price}`, discarding the old fields; ids and length are kept; prices stay positive |
| `Products.ReplaceKeepsNamesTrimmed` | 2/app.js:122-126 | a replace keeps every stored name trimmed |
| `Products.Revised` | 2/app.js:144-155 | no contract of its own: the found record after PATCH's writes; `PatchChangesOnlyTheRecord` states which fields change and to what |
| `Products.PatchStep` | 2/app.js:132-158 | NotFound and TypeError leave the collection unchanged; the other replies and the new collection are stated by `PatchReplies`, `PatchChangesOnlyTheRecord` and `PatchKeepsInvariants` |
| `Products.PatchReplies` | 2/app.js:136-157 | NotFound exactly for an unknown id; TypeError exactly for a found id and a present non-string name; BadRequest(NotPositive) exactly for a found id, an acceptable name and a present non-positive price; never BadRequest(Missing); success exactly in the remaining cases |
| `Products.PatchChangesOnlyTheRecord` | 2/app.js:144-157 | after a patch that found its record, only that record differs; its id is kept; its name is the trimmed sent name or the old one; its price is the sent positive price or the old one, so a refused price leaves an already written name in place; a successful reply is the revised record |
| `Products.PatchKeepsInvariants` | 2/app.js:144-155 | a patch keeps every id at its position and the length, keeps prices positive and keeps names trimmed |
| `Products.OtherThan` | 2/app.js:171 | no contract of its own: the `p => p.id !== id` callback of DELETE's filter; `DeleteStep` states its effect |
| `Products.DeleteStep` | 2/app.js:161-176 | NotFound exactly when no record has the id, with the collection unchanged; otherwise the reply carries the id, no record with it remains, and every record with another id is kept |
| `Products.DeleteKeepsNamesTrimmed` | 2/app.js:171 | a delete keeps every stored name trimmed |
| `Products.DeleteKeepsOrder` | 2/app.js:171 | after a delete the remaining records are in their old relative order, and distinct ids stay distinct |
| `Products.DeleteShrinksByOne` | 2/app.js:163-171 | when ids are distinct, a successful delete removes exactly one record |
| `ProductStore.Store.constructor` | 2/app.js:16-21 | a new store holds the four seed records and satisfies the invariant (positive prices, trimmed names) |
| `ProductStore.Store.Create` | 2/app.js:41-64 | the method leaves exactly the reply and collection of `CreateStep` and keeps the invariant |
| `ProductStore.Store.List` | 2/app.js:67-81 | the method's step-by-step narrowing returns exactly `Listed` of the stored collection, without changing it |
| `ProductStore.Store.Get` | 2/app.js:84-95 | the method returns exactly `Lookup` of the stored collection and changes nothing |
| `ProductStore.Store.Replace` | 2/app.js:98-129 | the method leaves exactly the reply and collection of `ReplaceStep` and keeps the invariant |
| `ProductStore.Store.Patch` | 2/app.js:132-158 | the method's two separate field writes leave exactly the reply and collection of `PatchStep`, including the name written before a refused price, and keep the invariant |
| `ProductStore.Store.Delete` | 2/app.js:161-176 | the method leaves exactly the reply and collection of `DeleteStep` and keeps the invariant |
| `Traces.RunKeepsPricesPositive` | 2/app.js:50 | any sequence of requests on a collection with positive prices leaves only positive prices |
| `Traces.ReachableHasPositivePrices` | 2/app.js:17-20 | every collection reachable from the seed data has only positive prices |
| `Traces.RunKeepsNamesTrimmed` | 2/app.js:58 | any sequence of requests on a collection with trimmed names leaves only trimmed names |
| `Traces.ReachableHasTrimmedNames` | 2/app.js:17-20 | every collection reachable from the seed data has only trimmed names |
| `Traces.RunIdsComeFromCreates` | 2/app.js:122-123 | every id after a run was there at the start or is the clock reading of one of the run's creates; replace, patch and delete never invent ids |
| `Traces.RunKeepsIdsUnique` | 2/app.js:57 | ids stay distinct over a run in which no create's clock reading is already a stored id |
| `Traces.SeedPriceWindow` | 2/app.js:70-80 | listing the seed data with bounds 10000 and 40000 returns the smartphone and the tablet, in that order |
| `Traces.MouseRoundTrip` | 2/app.js:56-63 | creating "Mouse" at 999 under a fresh id returns that record, GET returns it, DELETE echoes the id and restores the old collection, and a second GET is NotFound |
| `Traces.SeedRefusals` | 2/app.js:149-153 | on the seed data, patching record 1 with price -5 is BadRequest with nothing changed, deleting 9999 is NotFound with nothing changed, and creating with an empty name is BadRequest(Missing) |

## Left out

- Express setup, body parsing, the request logger, `console.log` and `listen` (2/app.js:1-13, 186-195) are framework plumbing and I/O. The body reaches the model as the two fields `name` and `price`; other keys are ignored, as in the source.
- The HTML information page (2/app.js:24-38) and the catch-all route-not-found answer (2/app.js:179-183) are constant responses with no logic.
- `Date.now()` (2/app.js:57) is the parameter `now` of create. Nothing in the source makes it unique, so uniqueness of ids is proved only under the `FreshClock` hypothesis.
- JavaScript numbers are modelled as unbounded integers. Fractional prices, floating-point rounding, `NaN` and `Infinity` in bodies are not modelled. JSON cannot carry `NaN`, but a price of `1e999` parses to `Infinity`, which passes the price checks, is stored, and is sent back as `null`.
- `Number()` conversion of the path id and the query strings is not modelled. The path id arrives as an integer. An id that converts to `NaN` is not represented: no record matches it, so GET, PATCH and DELETE answer NotFound, and PUT does after its body checks. Any integer that no stored record has behaves the same way in the model. A query bound arrives as `Bound`: `Unset` for absent or empty, `At(v)` for a number, `Unparseable` for a `NaN` result, which lets no record through (the source's behaviour).
- HTTP status codes, the error message texts and the exact shape of the response bodies are reduced to the `Result` of each route, and the 500 answer to a thrown `TypeError` to the failure kind alone.
- Records are values, not objects. PATCH's in-place writes to the found object become updates of that position. The source serialises the object at once, so no alias of it is observable.
- Non-emptiness of a stored name is not claimed. A whitespace-only name passes the create and replace checks, and PATCH stores any string, `""` included (`AllSpaceTrimsToEmpty`).
- Concurrency is not modelled: each request runs to completion before the next.
