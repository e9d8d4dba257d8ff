# Stock ledger of the inventory dashboard, in Dafny

The dashboard's server actions (app/actions.ts) keep, for every item, a
balance `currentStock` and a ledger of `IN`/`OUT` transaction rows. Four of
the actions move stock:

- `updateStock` records one movement;
- `batchUpdateStock` records one outbound movement per description and
  deducts them all at once;
- `updateTransaction` edits a row by reverting its old effect and applying
  the new one;
- `deleteTransaction` reverts a row's effect and removes the row.

Each action runs inside `db.$transaction`. A thrown error therefore leaves
both the balance and the ledger as they were. A third action,
`getDailyStockOutSummary`, folds the outbound rows of a period into one
entry per (day, item) and sorts the entries by day, latest first.

The project has three modules:

- **`Ledger`** (ledger.dfy) is the specification, written on values.
  - A `State` holds the balances, the rows by id and the next id.
  - Each action is a function from the state before the call to
    `Ok(state after)` or `Err(the error thrown)`.
  - `LedgerSum` is the signed sum of an item's rows.
  - `Consistent` says every row has an allocated id and an existing item,
    and no balance is negative.
  - `Balanced` says every balance equals the item's opening balance plus
    its ledger sum. Items are created, and may be edited, with any
    balance, so the invariant is stated relative to the opening balance
    rather than from zero.
  - Lemmas state what each success does, that every success keeps
    `Consistent` and `Balanced`, and how the operations relate to each
    other (the batch against repeated single movements, an edit and its
    reverse edit, a movement and the delete of its row).
- **`Inventory`** (inventory.dfy) holds the actions as methods of a class
  `Store`.
  - The class has the balances, the rows and the id counter as fields that
    the methods update step by step, as the action bodies do.
  - Each method's postcondition ties the store after the call to the
    matching `Ledger` function, including the unchanged store on every
    error.
  - The class invariant `Valid` (`Consistent` and `Balanced` against a
    ghost map of opening balances) holds before and after every call.
- **`DailySummary`** (summary.dfy) models the summary.
  - The period filter is a function.
  - The `reduce` into the `acc` record is a loop over a map plus the key
    order that `Object.values` follows.
  - The `localeCompare` sort is an insertion sort.
  - The result has exactly one entry per (day, item) among the selected
    rows, each carrying the sum of those rows' quantities, latest day
    first.

Quantities are unbounded integers. The server code does not check that a
quantity is positive; only the dialogs do (components/stock-dialog.tsx:39,
components/transaction-edit-dialog.tsx:51). The model follows the server:
no operation requires a positive quantity. The positivity of all stored
quantities is proved preserved for calls whose quantity is positive.

## Model

| member | source | states |
|---|---|---|
| Ledger.RecordMovement | app/actions.ts:97-118 | updateStock fails with "Item not found" exactly when the item does not exist. It fails with the negative-stock error exactly when the balance plus the signed quantity is below zero. These are its only errors, and an error returns no new store. |
| Ledger.RecordMovementEffect | app/actions.ts:101-118 | On success the item's balance moves by +quantity for IN and −quantity for OUT and stays ≥ 0. No other balance moves. Exactly one row (itemId, type, quantity, description, time) is written under the next id `nextId`, and every other row is unchanged. |
| Ledger.RecordBatchOutbound | app/actions.ts:130-155 | batchUpdateStock fails for any type other than OUT, before anything else. Then it fails if the item is missing. Then it fails if the balance minus quantity × number of descriptions is negative. Each condition is stated as an if-and-only-if, and when none holds the batch succeeds. |
| Ledger.BatchRows | app/actions.ts:146-155 | The rows of a batch occupy exactly the ids first … first+n−1. The row at first+j is an OUT row of the item with the batch quantity and description j. |
| Ledger.BatchEffect | app/actions.ts:136-155 | On success the type is OUT. The balance drops by exactly quantity × number of descriptions and stays ≥ 0, and no other balance moves. One OUT row per description, each with the same quantity, is added under ids from `nextId` on, and every earlier row is kept. |
| Ledger.BatchIsRepeatedMovement | app/actions.ts:130-155 | A non-empty batch gives the same result as the same number of single OUT movements applied one after another. It fails with the same kind of error when one of them would fail, so the batch is never partly applied. |
| Ledger.EditMovement | app/actions.ts:270-312 | updateTransaction fails with "Transaction not found" exactly when the row is missing. It fails with the negative-stock error exactly when the balance − signed(old quantity) + signed(new quantity) is below zero. Otherwise the edit succeeds. |
| Ledger.EditMovementEffect | app/actions.ts:280-312 | On success the balance becomes current − signed(old) + signed(new) and stays ≥ 0, and no other balance moves. The row keeps its item and type. It takes the new quantity and description, and the new timestamp only when one is given. No other row changes. |
| Ledger.DeleteMovement | app/actions.ts:319-344 | deleteTransaction fails with "Transaction not found" exactly when the row is missing. It fails with the negative-stock error exactly when the balance − signed(quantity) is below zero. Otherwise the delete succeeds. |
| Ledger.DeleteMovementEffect | app/actions.ts:327-344 | On success the balance becomes current − signed(quantity) and stays ≥ 0, and no other balance moves. Exactly that row is removed, and the others are unchanged. |
| Ledger.RecordMovementKeepsBalanced | app/actions.ts:101-118 | A successful updateStock keeps every balance = opening + ledger sum and every balance ≥ 0. With a positive quantity it also keeps every stored quantity positive. |
| Ledger.RepeatOutKeepsBalanced | app/actions.ts:146-155 | A sequence of successful OUT movements keeps the same invariant. |
| Ledger.RecordBatchOutboundKeepsBalanced | app/actions.ts:136-155 | A successful batchUpdateStock keeps the same invariant. |
| Ledger.EditMovementKeepsBalanced | app/actions.ts:280-312 | A successful updateTransaction keeps the same invariant. |
| Ledger.DeleteMovementKeepsBalanced | app/actions.ts:327-344 | A successful deleteTransaction keeps the same invariant. |
| Ledger.EditRoundTrip | app/actions.ts:280-312 | Editing a row and then editing it back to its old quantity and timestamp always succeeds. It restores every balance and every row except the description. Given back its old description too, it restores the whole store. |
| Ledger.DeleteUndoesRecord | app/actions.ts:101-118 | Deleting the row a movement has just written always succeeds. It gives back the balances and rows from before the movement. |
| Ledger.LedgerSumChange | app/actions.ts:280-285 | Changing one row changes the item's ledger sum by exactly the difference of that row's signed contributions. |
| Ledger.LedgerSumUnreferenced | app/actions.ts:36-39 | An item that no row refers to has ledger sum zero, so a newly created item is balanced against its opening stock. |
| Inventory.Store.CreateItem | app/actions.ts:36-39 | A new item with a balance ≥ 0 and no rows. The store stays valid, and the new balance is recorded as the item's opening balance. |
| Inventory.Store.UpdateStock | app/actions.ts:90-122 | The store after the call is RecordMovement's result on success and is unchanged on failure. The outcome reports the same error, and the store stays valid. |
| Inventory.Store.BatchUpdateStock | app/actions.ts:124-159 | The store after the call is RecordBatchOutbound's result on success and is unchanged on failure. The outcome reports the same error, and the store stays valid. |
| Inventory.Store.InsertOutRows | app/actions.ts:146-155 | Writes exactly the batch's rows under consecutive ids from `nextId` on. The balances do not change. |
| Inventory.Store.UpdateTransaction | app/actions.ts:262-316 | The store after the call is EditMovement's result on success and is unchanged on failure. The outcome reports the same error, and the store stays valid. |
| Inventory.Store.DeleteTransaction | app/actions.ts:318-348 | The store after the call is DeleteMovement's result on success and is unchanged on failure. The outcome reports the same error, and the store stays valid. |
| DailySummary.StockOutRows | app/actions.ts:183-195 | A row is fetched exactly when it is in the table, is OUT, and its time lies within the given bounds. An absent bound does not restrict. Every such row is fetched as many times as it occurs in the table. |
| DailySummary.TotalOfAbsentKey | app/actions.ts:203-209 | A key that no row falls into sums to zero, which is why a new entry starts at totalQuantity 0. |
| DailySummary.AccumulateStep | app/actions.ts:197-212 | One step of the reduce keeps the record exact. The row's key gains the row's quantity, no other entry moves, and a new key is appended to the order once. |
| DailySummary.AddRow | app/actions.ts:197-212 | The reduce callback turns an exact record of the rows seen so far into an exact record of those rows plus the current one. |
| DailySummary.Accumulate | app/actions.ts:197-212 | The record holds one entry per (day, item) among the rows, each with the sum of that key's quantities. The order lists each key once. |
| DailySummary.GroupByDayAndItem | app/actions.ts:197-214 | Object.values of the record has exactly the keys of the rows, no key twice, and each entry's total equal to the sum of its rows' quantities. |
| DailySummary.InsertionPoint | app/actions.ts:214 | The place for an entry in a latest-first list: everything before it has the same or a later day, and everything after it has an earlier day. |
| DailySummary.SortByDayDescending | app/actions.ts:214 | The result is a permutation of the entries, ordered latest day first. Distinct keys stay distinct. |
| DailySummary.DailyStockOutSummary | app/actions.ts:182-215 | Exactly one entry per distinct (day, item) among the OUT rows of the period. Each entry's totalQuantity is the sum of those rows' quantities, and the entries are ordered latest day first. |

## Left out

- `uploadFile` (app/actions.ts:47-64): it is file-system I/O, UUID generation and path joining, with no ledger logic.
- `updateItem` (app/actions.ts:66-88) is not modelled. It sets `currentStock` directly, which is why the balance invariant is relative to an opening balance. Such an edit would simply start a new opening balance.
- `deleteItem` (app/actions.ts:172-180) is not modelled. Deleting an item that still has rows would leave rows without an item. The pure functions answer `ItemNotFound` for such a row, and `Consistent` excludes it.
- `createItem` is modelled only as far as the ledger sees it. Catalog fields (name, category, unit, location, image, description) are not part of the model.
- `getItems`, `getTransactions` and `getWeeklyStockOutSummary` are not modelled. The first two are thin database queries. The weekly summary depends on the wall clock and on date-fns `isWeekend`/`startOfDay`.
- `revalidatePath` is not modelled; it is cache invalidation.
- Concurrency is not modelled. Every action is one sequential, all-or-nothing step, and the isolation level of `db.$transaction` and lost updates between concurrent calls are outside the model.
- Timestamps and days are parameters, not computed:
  - the database's `createdAt` default is the parameter `now`;
  - the `yyyy-MM-dd` formatting (and its time zone) is the parameter `dayOf`, whose integer days are assumed to order the way the formatted strings compare.
- Quantities are integers. JavaScript numbers that are fractional, NaN or beyond 2^53 are outside the model.
- Database-generated row ids are modelled as a counter. The joined `item` object of a summary entry is represented by its item id.
- The order in which the query returns rows is modelled as the order of the input sequence. The keys and totals of the summary do not depend on it. It decides only the order of entries that share a day: keys enter the record in that order, and the stable sort keeps it.
- `DailySummary.SortByDayDescending` does not state that the sort is stable (the order among entries of one day). `Array.prototype.sort` is stable, but nothing here depends on that order.
- `Ledger.BatchIsRepeatedMovement` requires at least one description. On a missing item, an empty batch fails with `ItemNotFound`, while zero single movements do nothing.
- `Ledger.Error` merges the four negative-stock messages into the one error `NegativeStock`. The source throws "Stock cannot be negative" from updateStock (app/actions.ts:104), "Insufficient stock for batch update" from batchUpdateStock (app/actions.ts:139), and two different Korean messages from updateTransaction (app/actions.ts:296) and deleteTransaction (app/actions.ts:335). The model tells which condition failed, not which message text the user sees.
- `Ledger.RecordMovementEffect` and `Inventory.Store.InsertOutRows` say the new rows go under the ids from `nextId` on. They do not themselves state that those ids were free. That follows from `Consistent`, which every `KeepsBalanced` lemma and `Store.Valid` carry.
