# Inventory ledger: a verified model

This project models a small inventory ledger for survey and product-sample
stock. Eight categories have fixed totals. Each submission logs one
transaction per chosen category, and every transaction of a submission
shares one timestamp. An item's `remaining` count is never trusted as
stored: every read and write rebuilds it from the log.

The ledger has three backends (server.py, server.js, api.php) and a
browser frontend (script.js). The model has five modules:

- `Ledger` (ledger.dfy) holds the data model: item, transaction, document
  and the eight-item seed inventory.
- `Recalc` (recalc.dfy) is the recalculation engine. It covers both
  variants found in the backends:
  - server.py and api.php decrement every item whose category matches;
  - server.js decrements only the first matching item (`find`).

  Each variant appears three times: as a specification function that
  replays the log, as a closed-form reference definition proved equal to
  it, and as the source's imperative loops over an array proved against
  it. The validator appears twice: the in-place loop of server.py and
  server.js, and the copying `array_map` of api.php.
- `TxLog` (txlog.dfy) covers appending a submission's group and deleting
  a group by exact timestamp match.
- `Service` (service.dfy) is a `Store` class whose `doc` field is the
  persisted document. Its methods are the data logic of the GET, POST
  and DELETE handlers, plus the request-method switch of api.php. A
  `firstMatch` flag selects server.js's engine.
- `Frontend` (frontend.dfy) covers the frontend logic:
  - the `selectedCategories` list, as a class with toggle, remove and
    submit methods;
  - grouping the log by timestamp;
  - the per-type category lookup;
  - the fallback inventory shown when the server cannot be reached.

Clock reads are parameters (`timestamp`, `now`). A save is a boolean
`saveOk`. When a save fails, the stored document stays as it was.

The model follows the code in three places where the design description
differs from it:

- Deleting with an empty timestamp is not rejected. api.php only checks
  that the parameter is present, and server.py takes whatever follows
  the last `/`.
- Validation cannot keep `0 <= remaining <= total` for a negative total.
  With the two clamps in the code's order, such an item ends at 0.
- GET answers with the repaired document even when its save fails. All
  three backends ignore the result of that write.

## Model

| member | source | states |
|---|---|---|
| `Ledger.SeedInventory` | server.py:14-23 | the seed has eight items with distinct categories, each with `remaining == total >= 0` |
| `Recalc.RecalculateRemainingQuantities` | server.py:61-77 | the nested loops return a fresh array equal to the every-match replay of the log over the reset inventory |
| `Recalc.RecalculateFirstMatch` | server.js:79-95 | the copy-then-`find` loop returns a fresh array equal to the first-match replay of the log |
| `Recalc.ValidateInventory` | server.py:52-58 | the in-place loop leaves the array equal to `Validated` of its old contents |
| `Recalc.Validated` | api.php:51-61 | length, order, categories and totals are kept. Under a non-negative total, a `remaining` above the total becomes exactly the total, a negative one becomes exactly 0, and one already in `[0, total]` is untouched, so the result lies in `[0, total]`. Under a negative total the result is 0 |
| `Recalc.ValidatedIdempotent` | api.php:51-61 | validating twice equals validating once |
| `Recalc.RecalculateAllIsExpected` | server.py:63-75 | every-match recomputation equals the closed form: each item keeps its category and total, and `remaining` is the total less one per transaction with its category, floored at 0 |
| `Recalc.RecalculateFirstIsExpected` | server.js:81-92 | first-match recomputation equals its closed form: only the first item of each category is decremented, and a later duplicate keeps `remaining == total` |
| `Recalc.EnginesAgreeOnDistinctCategories` | server.js:87-92 | with distinct categories, the first-match and every-match engines give the same inventory |
| `Recalc.RecalculateIgnoresRemaining` | server.py:63-69 | both engines depend only on categories, totals and the log, never on the incoming `remaining` |
| `Recalc.RecalculateIdempotent` | server.py:63-75 | recomputing a recomputed inventory over the same log changes nothing, for both engines |
| `Recalc.CountPermutation` | server.py:72-75 | the count of transactions against a category depends only on the multiset of the log |
| `Recalc.RecalculateOrderIndependent` | server.py:72-75 | reordering the log leaves the result of either engine unchanged |
| `Recalc.UnknownCategoryIsNoOp` | server.py:73-75 | a transaction whose category matches no item, wherever it stands in the log, changes no item under either engine |
| `Recalc.RecalculatedInRange` | api.php:75-80 | after recomputation, an item with a non-negative total has `0 <= remaining <= total`; shape is kept |
| `Recalc.ValidateAfterRecalculateIsNoOp` | api.php:92-93 | when all totals are non-negative, validating a recomputed inventory changes nothing |
| `Recalc.RepairIsFixedPoint` | server.py:87-88 | recompute-then-validate is a fixed point: repairing its output again over the same log returns it |
| `TxLog.DeleteMembership` | server.py:162-163 | survivors are exactly the log entries with another timestamp, and the removed entries are exactly those with this one |
| `TxLog.DeletePartitionsLog` | server.py:162-163 | removed plus survivors equals the old length |
| `TxLog.SurvivorsAppend` | server.py:163 | filtering distributes over concatenation, so survivors keep their original order |
| `TxLog.MatchesAppend` | server.py:162 | the removed entries, too, come out in log order |
| `TxLog.NothingMatchesIffUnchanged` | server.py:162-163 | nothing is removed exactly when the log is left unchanged |
| `TxLog.DeleteIdempotent` | server.py:162-163 | deleting the same timestamp again removes 0 and leaves the log unchanged |
| `TxLog.RecordThenDeleteRestoresLog` | server.py:124-163 | when the timestamp is new, deleting it right after recording a group removes exactly that group and restores the earlier log |
| `Service.GroupCount` | server.py:125-131 | an appended group adds, for each category, as many transactions as the category appears in the submission |
| `Service.RecordLowersRemaining` | server.py:131-134 | after recording, each item's `remaining` is its total less its earlier count plus its occurrences in the submission, floored at 0 |
| `Service.SeedNidoRemaining` | server.py:20 | the seed item "نيدو" (total 90) has `remaining == max(0, 90 - count)` over any log, for both engines |
| `Service.Store.RepairedIsConsistent` | server.py:87-88 | a repaired inventory is consistent with its log, keeps its shape, and keeps each `remaining` within `[0, max(0, total)]` |
| `Service.Store.BackendsAgree` | server.js:107-108 | on an inventory with distinct categories, server.js's repair equals that of server.py and api.php |
| `Service.Store.RecordThenDelete` | server.py:124-167 | recording a group under a new timestamp and then deleting it reports the group's size and yields the document a GET would write |
| `Service.Store.Seed` | server.py:11-26 | a first access yields the seed inventory, an empty log and a consistent store |
| `Service.Store.Repair` | server.py:87-88 | runs this backend's engine, then validates the array in place, and returns the repaired inventory |
| `Service.Store.GetSnapshot` | server.py:85-95 | answers with the repaired document; it is saved only when `saveOk`; a consistent store is answered unchanged apart from `lastUpdated` |
| `Service.Store.RecordConsumption` | server.py:112-146 | missing or empty categories give 400 `Categories are required` and no change. Otherwise `len(categories)` transactions are appended in order with shared notes and timestamp, the earlier log is an unchanged prefix, and the document is repaired. A failed save gives 500 and no change |
| `Service.Store.DeleteGroup` | server.py:156-181 | keeps the transactions whose timestamp differs, in order, and reports the count of matches; repairs the inventory; a failed save gives 500 and no change |
| `Service.Store.Handle` | api.php:87-182 | on the every-match engine: OPTIONS answers at once; any other verb gives 405 `Method not allowed`; a DELETE without a timestamp gives 400 `Timestamp is required`; none of these touches the store. GET saves the repaired document stamped `now` when the save succeeds; a POST with categories saves the appended-and-repaired document; a DELETE with a timestamp saves the survivors-and-repaired document and reports the count removed. A failed POST or DELETE save gives 500 `Failed to save transaction` or `Failed to delete transaction` and leaves the store unchanged. The GET and POST responses carry the `lastUpdated` that was read, since the save receives the document by value |
| `Frontend.FallbackData` | script.js:82-87 | the fallback is eight items with distinct categories and `remaining == total`, plus an empty log |
| `Frontend.FallbackIsSeed` | script.js:2-17 | the age, income and milk lists, concatenated in that order, are the server's seed inventory |
| `Frontend.SeedCategoriesHaveOneType` | script.js:2-17 | every seed category belongs to exactly one of the types age, income and milk |
| `Frontend.GetTransactionCategory` | script.js:343-361 | returns the category of the first transaction whose category is in the type's list, or none exactly when no transaction's category is |
| `Frontend.GroupedStep` | script.js:326-336 | one pass of the loop keeps the dictionary a grouping of the prefix seen so far |
| `Frontend.AddToGroup` | script.js:327-335 | a timestamp not seen yet gets a new group, appended to the key order, holding just this transaction and its notes; a seen one gets the transaction pushed onto the end of its group and the key order is kept |
| `Frontend.GroupTransactionsByTime` | script.js:323-336 | one group per distinct timestamp. Every transaction has its timestamp's group, which holds exactly the transactions with that timestamp, in log order. A group's notes are those of its first transaction, and the group sizes add up to the log length |
| `Frontend.GroupsFromTable` | script.js:339 | listing the dictionary's values keeps every grouping property and the total count |
| `Frontend.SumMatchesCoversLog` | script.js:324-336 | over distinct keys covering every timestamp, the per-key matches add up to the whole log |
| `Frontend.IndexOf` | script.js:153 | returns -1 exactly when the category is absent; otherwise it returns the first position holding it |
| `Frontend.ToggleFlipsMembership` | script.js:152-161 | toggling flips membership of the category, leaves every other category as it was, and keeps the list free of duplicates |
| `Frontend.ToggleTwiceRestores` | script.js:152-161 | toggling an absent category twice gives back the same list |
| `Frontend.RemoveTakesOut` | script.js:188-194 | removing takes the category out, keeps the rest and no duplicates appear, and it is a no-op when the category is absent |
| `Frontend.Selection.constructor` | script.js:20 | the selection starts empty |
| `Frontend.Selection.ToggleCategory` | script.js:152-165 | the list becomes the toggled list, membership flips, and no duplicates appear |
| `Frontend.Selection.RemoveCategory` | script.js:188-195 | the list becomes the list with the category removed, and is left unchanged when the category was absent |
| `Frontend.Selection.RecordConsumption` | script.js:214-243 | an empty selection sends nothing. Otherwise it posts the selection with the notes, which the server's empty-category check never rejects, and empties the selection once the server accepted |

## Left out

- File I/O is not modelled. This covers `initialize_data_file`/`read_data`/`write_data` (server.py:11-49), their server.js and api.php counterparts, and the empty document `read_data` returns when a read fails. The store is an in-memory document, and a save is the `saveOk` flag.
- JSON encoding and decoding, UTF-8 handling, URL unquoting, headers, CORS, status-line writing, routing and static file serving are library or HTTP plumbing. Requests and responses are datatypes.
- Clock reads are parameters. The model does not capture api.php's one-second timestamp granularity, except that equal strings form one group.
- The 500 responses a backend gives when an exception escapes a handler (server.py:96-97, server.py:147-148, server.py:182-183) and server.py's 404 for unknown paths are left out, because they depend on I/O or routing.
- A `categories` value that is present but not a list is left out. server.py would iterate a string character by character. api.php only warns on `foreach` over a non-array (api.php:116), skips the loop, and still recomputes, saves and answers 200 `Transaction recorded successfully` with nothing appended. server.js answers 400 `Categories are required` for anything but a non-empty array (server.js:124). Likewise a `notes` value that is not a string. Categories are `Option<seq<string>>` and notes `Option<string>`.
- Item fields other than `category`, `total` and `remaining` are left out. server.js's object spread keeps them, while server.py and api.php drop them. With only the three fields, both behaviours coincide.
- Concurrent requests are left out. server.js's unguarded read-modify-write can lose updates, and concurrency is not a modelling target here.
- Frontend.Selection.RecordConsumption: sends the selection and clears it in one atomic step. script.js posts at script.js:225, awaits the response, and only then clears `selectedCategories` at script.js:242. The model therefore does not capture two interleavings during that await. A category toggled while the request is in flight is wiped by the clear. A second submit click posts the same selection again and records a second group, because nothing disables the button.
- The newest-first sort in script.js:339 and `toLocaleTimeString` (script.js:305) are left out, because they rest on library date parsing.
- Frontend.GroupTransactionsByTime: does not state the order of the groups, because script.js sorts them afterwards by parsed date, which is not modelled. It also ignores that `Object.values` lists integer-like keys first, which never happens for ISO timestamps. It also does not capture that script.js:324 keys a plain object: for a timestamp naming an inherited `Object.prototype` member such as `constructor` or `toString`, the lookup at script.js:327 finds that member, no group is created, and script.js:335 throws, after which the page shows the fallback data; the model's map creates the group. Only a hand-edited document can hold such a timestamp.
- DOM rendering and interaction are left out: the table and button rendering, status and style updates, `alert`, `confirm`, `fetch`, and the trimming and clearing of the notes field.
