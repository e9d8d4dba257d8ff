/** The server actions of app/actions.ts that move stock, as methods on an
    in-memory store.  Each method runs its read-check-write sequence on the
    store's fields the way the action runs it on the database inside
    `db.$transaction`: it returns `Fail` before writing anything, or writes the
    balance and then the ledger.  The contract of each method ties the store
    after the call to the matching function of module Ledger, and the class
    invariant `Valid` carries the balance invariant from call to call. */
module Inventory {
  import opened Ledger

  /** How a server action ends: normally, or with the error it throws. */
  datatype Outcome = Pass | Fail(error: Error)

  class Store {
    /** `item.currentStock` by item id. */
    var stock: map<ItemId, int>
    /** The `transaction` table by id. */
    var rows: map<TxId, Row>
    /** The id the next inserted row receives. */
    var nextId: TxId
    /** Each item's balance when it was created; the ledger moves it from there. */
    ghost var opening: map<ItemId, int>

    function Snapshot(): State
      reads this
    {
      State(stock, rows, nextId)
    }

    ghost predicate Valid()
      reads this
    {
      Consistent(Snapshot()) && Balanced(Snapshot(), opening)
    }

    constructor ()
      ensures Valid()
      ensures stock == map[] && rows == map[] && nextId == 0 && opening == map[]
    {
      stock, rows, nextId := map[], map[], 0;
      opening := map[];
    }

    /** createItem, as far as the ledger sees it: a new item with an opening
        balance of at least zero and no rows. */
    method CreateItem(id: ItemId, currentStock: int)
      requires Valid()
      requires id !in stock
      requires currentStock >= 0
      modifies this
      ensures Valid()
      ensures stock == old(stock)[id := currentStock]
      ensures rows == old(rows) && nextId == old(nextId)
      ensures opening == old(opening)[id := currentStock]
    {
      LedgerSumUnreferenced(rows, id, nextId);
      stock := stock[id := currentStock];
      opening := opening[id := currentStock];
      forall i | i in stock
        ensures stock[i] == opening[i] + LedgerSum(rows, i, nextId)
      {
      }
    }

    /** updateStock. */
    method UpdateStock(itemId: ItemId, kind: Kind, quantity: int, description: Option<string>,
                       now: Timestamp) returns (outcome: Outcome)
      requires Valid()
      modifies this
      ensures Valid() && opening == old(opening)
      ensures var r := RecordMovement(old(Snapshot()), itemId, kind, quantity, description, now);
        if r.Ok? then outcome == Pass && Snapshot() == r.value
        else outcome == Fail(r.error) && Snapshot() == old(Snapshot())
    {
      ghost var before := Snapshot();
      RecordMovementKeepsBalanced(before, opening, itemId, kind, quantity, description, now);
      if itemId !in stock {
        return Fail(ItemNotFound);
      }
      var item := stock[itemId];
      var newStock := if kind == In then item + quantity else item - quantity;
      if newStock < 0 {
        return Fail(NegativeStock);
      }
      stock := stock[itemId := newStock];
      rows := rows[nextId := Row(itemId, kind, quantity, description, now)];
      nextId := nextId + 1;
      assert Snapshot() == RecordMovement(before, itemId, kind, quantity, description, now).value;
      outcome := Pass;
    }

    /** batchUpdateStock: the type is checked before the store is read; then
        the balance is lowered by the whole batch and one row per description
        is inserted. */
    method BatchUpdateStock(itemId: ItemId, kind: Kind, quantity: int, descriptions: seq<string>,
                            now: Timestamp) returns (outcome: Outcome)
      requires Valid()
      modifies this
      ensures Valid() && opening == old(opening)
      ensures var r := RecordBatchOutbound(old(Snapshot()), itemId, kind, quantity, descriptions, now);
        if r.Ok? then outcome == Pass && Snapshot() == r.value
        else outcome == Fail(r.error) && Snapshot() == old(Snapshot())
    {
      if kind != Out {
        return Fail(BatchNotOut);
      }
      if itemId !in stock {
        return Fail(ItemNotFound);
      }
      var totalQuantity := quantity * |descriptions|;
      var newStock := stock[itemId] - totalQuantity;
      if newStock < 0 {
        return Fail(NegativeStock);
      }
      stock := stock[itemId := newStock];
      InsertOutRows(itemId, quantity, descriptions, now);
      RecordBatchOutboundKeepsBalanced(old(Snapshot()), opening, itemId, kind, quantity, descriptions, now);
      outcome := Pass;
    }

    /** `tx.transaction.createMany` for a batch: one outbound row per
        description, under consecutive fresh ids. */
    method InsertOutRows(itemId: ItemId, quantity: int, descriptions: seq<string>, now: Timestamp)
      modifies this
      ensures stock == old(stock) && opening == old(opening)
      ensures rows == old(rows) + BatchRows(old(nextId), itemId, quantity, descriptions, now)
      ensures nextId == old(nextId) + |descriptions|
    {
      var first := nextId;
      var i := 0;
      while i < |descriptions|
        invariant 0 <= i <= |descriptions|
        invariant nextId == first + i
        invariant stock == old(stock) && opening == old(opening)
        invariant rows == old(rows) + BatchRows(first, itemId, quantity, descriptions[..i], now)
      {
        BatchRowsStep(old(rows), first, itemId, quantity, descriptions, now, i);
        rows := rows[nextId := Row(itemId, Out, quantity, Some(descriptions[i]), now)];
        nextId := nextId + 1;
        i := i + 1;
      }
      assert descriptions[..i] == descriptions;
    }

    /** updateTransaction: revert the row's old effect, apply the new one,
        check, then write the balance and the row. */
    method UpdateTransaction(txId: TxId, quantity: int, description: string,
                             createdAt: Option<Timestamp>) returns (outcome: Outcome)
      requires Valid()
      modifies this
      ensures Valid() && opening == old(opening)
      ensures var r := EditMovement(old(Snapshot()), txId, quantity, description, createdAt);
        if r.Ok? then outcome == Pass && Snapshot() == r.value
        else outcome == Fail(r.error) && Snapshot() == old(Snapshot())
    {
      ghost var before := Snapshot();
      EditMovementKeepsBalanced(before, opening, txId, quantity, description, createdAt);
      if txId !in rows {
        return Fail(TransactionNotFound);
      }
      var transaction := rows[txId];
      var stockAfterRevert := stock[transaction.itemId];
      if transaction.kind == In {
        stockAfterRevert := stockAfterRevert - transaction.quantity;
      } else {
        stockAfterRevert := stockAfterRevert + transaction.quantity;
      }
      var finalStock := stockAfterRevert;
      if transaction.kind == In {
        finalStock := finalStock + quantity;
      } else {
        finalStock := finalStock - quantity;
      }
      if finalStock < 0 {
        return Fail(NegativeStock);
      }
      stock := stock[transaction.itemId := finalStock];
      var stamp := if createdAt.Some? then createdAt.value else transaction.createdAt;
      rows := rows[txId := transaction.(quantity := quantity, description := Some(description), createdAt := stamp)];
      assert Snapshot() == EditMovement(before, txId, quantity, description, createdAt).value;
      outcome := Pass;
    }

    /** deleteTransaction: revert the row's effect, check, then write the
        balance and remove the row. */
    method DeleteTransaction(txId: TxId) returns (outcome: Outcome)
      requires Valid()
      modifies this
      ensures Valid() && opening == old(opening)
      ensures var r := DeleteMovement(old(Snapshot()), txId);
        if r.Ok? then outcome == Pass && Snapshot() == r.value
        else outcome == Fail(r.error) && Snapshot() == old(Snapshot())
    {
      ghost var before := Snapshot();
      DeleteMovementKeepsBalanced(before, opening, txId);
      if txId !in rows {
        return Fail(TransactionNotFound);
      }
      var transaction := rows[txId];
      var newStock := stock[transaction.itemId];
      if transaction.kind == In {
        newStock := newStock - transaction.quantity;
      } else {
        newStock := newStock + transaction.quantity;
      }
      if newStock < 0 {
        return Fail(NegativeStock);
      }
      stock := stock[transaction.itemId := newStock];
      rows := rows - {txId};
      assert Snapshot() == DeleteMovement(before, txId).value;
      outcome := Pass;
    }
  }
}
