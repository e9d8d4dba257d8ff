/** The stock ledger of the inventory dashboard as pure values.

    A store is a map from item id to the item's `currentStock` together with a
    map from transaction id to ledger row.  Each of the four stock operations of
    app/actions.ts is a function from the store before the call to either the
    store after it or the error the call throws; a thrown error rolls the whole
    database transaction back, so an `Err` carries no new store.

    Transaction ids are handed out in allocation order (`nextId`), so the ledger
    sum of an item is a sum over the ids below `nextId`. */
module Ledger {

  type ItemId = string

  /** Ids of ledger rows; the database generates them, the model counts them. */
  type TxId = nat

  /** A point in time; the clock is an input of the operations that read it. */
  type Timestamp = int

  datatype Option<+T> = None | Some(value: T)

  /** The `TransactionType` enum of the schema. */
  datatype Kind = In | Out

  /** One row of the `transaction` table. */
  datatype Row = Row(itemId: ItemId, kind: Kind, quantity: int, description: Option<string>, createdAt: Timestamp)

  /** The reasons the operations throw. */
  datatype Error =
    | ItemNotFound         // "Item not found"
    | TransactionNotFound  // "Transaction not found"
    | NegativeStock        // the balance would drop below zero
    | BatchNotOut          // "Batch update only supported for OUT transactions"

  datatype Result<+T> = Ok(value: T) | Err(error: Error)

  datatype State = State(stock: map<ItemId, int>, rows: map<TxId, Row>, nextId: TxId)

  /** The amount by which a movement changes the balance. */
  function Signed(kind: Kind, quantity: int): int
  {
    if kind == In then quantity else -quantity
  }

  /** What the row with id `k`, if there is one, contributes to `item`'s balance. */
  function Term(rows: map<TxId, Row>, item: ItemId, k: TxId): int
  {
    if k in rows && rows[k].itemId == item then Signed(rows[k].kind, rows[k].quantity) else 0
  }

  /** The signed sum of the rows of `item` among the ids below `n`. */
  function LedgerSum(rows: map<TxId, Row>, item: ItemId, n: nat): int
  {
    if n == 0 then 0 else LedgerSum(rows, item, n - 1) + Term(rows, item, n - 1)
  }

  /** The store at rest: every row has an allocated id and an existing item,
      and no balance is negative. */
  ghost predicate Consistent(s: State)
  {
    && (forall k | k in s.rows :: k < s.nextId && s.rows[k].itemId in s.stock)
    && (forall i | i in s.stock :: s.stock[i] >= 0)
  }

  /** Every balance is its opening balance (set when the item was created)
      plus the signed sum of the item's surviving rows. */
  ghost predicate Balanced(s: State, opening: map<ItemId, int>)
  {
    && opening.Keys == s.stock.Keys
    && forall i | i in s.stock :: s.stock[i] == opening[i] + LedgerSum(s.rows, i, s.nextId)
  }

  /** Every row moves a strictly positive quantity. */
  ghost predicate PositiveQuantities(s: State)
  {
    forall k | k in s.rows :: s.rows[k].quantity > 0
  }

  // ---------------------------------------------------------------------------
  // The four operations

  /** updateStock: one movement of `quantity` in direction `kind`. */
  function RecordMovement(s: State, itemId: ItemId, kind: Kind, quantity: int,
                          description: Option<string>, now: Timestamp): (r: Result<State>)
    ensures r == Err(ItemNotFound) <==> itemId !in s.stock
    ensures r == Err(NegativeStock) <==> itemId in s.stock && s.stock[itemId] + Signed(kind, quantity) < 0
    ensures r.Ok? || r == Err(ItemNotFound) || r == Err(NegativeStock)
  {
    if itemId !in s.stock then Err(ItemNotFound)
    else
      var newStock := if kind == In then s.stock[itemId] + quantity else s.stock[itemId] - quantity;
      if newStock < 0 then Err(NegativeStock)
      else Ok(State(s.stock[itemId := newStock],
                    s.rows[s.nextId := Row(itemId, kind, quantity, description, now)],
                    s.nextId + 1))
  }

  /** What a successful movement does: the item's balance moves by the signed
      quantity and stays at least zero, no other balance moves, and exactly one
      row with the given fields is added under the next id. */
  lemma RecordMovementEffect(s: State, itemId: ItemId, kind: Kind, quantity: int,
                             description: Option<string>, now: Timestamp)
    ensures var r := RecordMovement(s, itemId, kind, quantity, description, now);
      r.Ok? ==>
        && r.value.stock.Keys == s.stock.Keys
        && r.value.stock[itemId] == s.stock[itemId] + Signed(kind, quantity) >= 0
        && (forall i | i in s.stock && i != itemId :: r.value.stock[i] == s.stock[i])
        && r.value.nextId == s.nextId + 1
        && r.value.rows.Keys == s.rows.Keys + {s.nextId}
        && r.value.rows[s.nextId] == Row(itemId, kind, quantity, description, now)
        && (forall k | k in s.rows && k != s.nextId :: r.value.rows[k] == s.rows[k])
  {
  }

  /** The rows that batchUpdateStock writes, one per description, from id `first` on. */
  function BatchRows(first: TxId, itemId: ItemId, quantity: int, descriptions: seq<string>,
                     now: Timestamp): (m: map<TxId, Row>)
    ensures forall k :: k in m <==> first <= k < first + |descriptions|
    ensures forall k | k in m :: m[k] == Row(itemId, Out, quantity, Some(descriptions[k - first]), now)
    decreases |descriptions|
  {
    if |descriptions| == 0 then map[]
    else
      var last := |descriptions| - 1;
      BatchRows(first, itemId, quantity, descriptions[..last], now)
        [first + last := Row(itemId, Out, quantity, Some(descriptions[last]), now)]
  }

  /** batchUpdateStock: `|descriptions|` outbound movements of `quantity` each,
      accepted or rejected together. */
  function RecordBatchOutbound(s: State, itemId: ItemId, kind: Kind, quantity: int,
                               descriptions: seq<string>, now: Timestamp): (r: Result<State>)
    ensures r == Err(BatchNotOut) <==> kind != Out
    ensures r == Err(ItemNotFound) <==> kind == Out && itemId !in s.stock
    ensures r == Err(NegativeStock) <==>
      kind == Out && itemId in s.stock && s.stock[itemId] - quantity * |descriptions| < 0
    ensures r.Ok? || r == Err(BatchNotOut) || r == Err(ItemNotFound) || r == Err(NegativeStock)
  {
    if kind != Out then Err(BatchNotOut)
    else if itemId !in s.stock then Err(ItemNotFound)
    else
      var newStock := s.stock[itemId] - quantity * |descriptions|;
      if newStock < 0 then Err(NegativeStock)
      else Ok(State(s.stock[itemId := newStock],
                    s.rows + BatchRows(s.nextId, itemId, quantity, descriptions, now),
                    s.nextId + |descriptions|))
  }

  /** Writing the batch row by row: the first `i + 1` rows are the first `i`
      and one more. */
  lemma BatchRowsPrefix(first: TxId, itemId: ItemId, quantity: int, descriptions: seq<string>,
                        now: Timestamp, i: nat)
    requires i < |descriptions|
    ensures BatchRows(first, itemId, quantity, descriptions[..i + 1], now)
         == BatchRows(first, itemId, quantity, descriptions[..i], now)
              [first + i := Row(itemId, Out, quantity, Some(descriptions[i]), now)]
  {
    assert descriptions[..i + 1][..i] == descriptions[..i];
  }

  /** One more row of a batch, written on top of the rows already there. */
  lemma BatchRowsStep(base: map<TxId, Row>, first: TxId, itemId: ItemId, quantity: int,
                      descriptions: seq<string>, now: Timestamp, i: nat)
    requires i < |descriptions|
    ensures (base + BatchRows(first, itemId, quantity, descriptions[..i], now))
              [first + i := Row(itemId, Out, quantity, Some(descriptions[i]), now)]
         == base + BatchRows(first, itemId, quantity, descriptions[..i + 1], now)
  {
    BatchRowsPrefix(first, itemId, quantity, descriptions, now, i);
  }

  /** What a successful batch does: the item's balance drops by `quantity`
      times the number of descriptions, no other balance moves, and the ledger
      gains one outbound row of `quantity` per description under fresh ids,
      every earlier row staying as it was. */
  lemma BatchEffect(s: State, itemId: ItemId, kind: Kind, quantity: int,
                    descriptions: seq<string>, now: Timestamp)
    requires forall k | k in s.rows :: k < s.nextId
    ensures var r := RecordBatchOutbound(s, itemId, kind, quantity, descriptions, now);
      r.Ok? ==>
        && kind == Out
        && r.value.stock.Keys == s.stock.Keys
        && r.value.stock[itemId] == s.stock[itemId] - quantity * |descriptions| >= 0
        && (forall i | i in s.stock && i != itemId :: r.value.stock[i] == s.stock[i])
        && r.value.nextId == s.nextId + |descriptions|
        && (forall j | 0 <= j < |descriptions| ::
              s.nextId + j in r.value.rows &&
              r.value.rows[s.nextId + j] == Row(itemId, Out, quantity, Some(descriptions[j]), now))
        && (forall k | k in r.value.rows :: k in s.rows || s.nextId <= k < s.nextId + |descriptions|)
        && (forall k | k in s.rows :: r.value.rows[k] == s.rows[k])
  {
    var r := RecordBatchOutbound(s, itemId, kind, quantity, descriptions, now);
    if r.Ok? {
      var added := BatchRows(s.nextId, itemId, quantity, descriptions, now);
      var t := r.value;
      assert t.rows == s.rows + added;
      forall j | 0 <= j < |descriptions|
        ensures s.nextId + j in t.rows
        ensures t.rows[s.nextId + j] == Row(itemId, Out, quantity, Some(descriptions[j]), now)
      {
        assert s.nextId + j in added;
      }
      forall k | k in s.rows
        ensures t.rows[k] == s.rows[k]
      {
        assert k !in added;
      }
    }
  }

  /** The row after an edit: type and item stay, quantity and description are
      replaced, and the timestamp is replaced only when one is given. */
  function Edited(row: Row, quantity: int, description: string, createdAt: Option<Timestamp>): Row
  {
    row.(quantity := quantity, description := Some(description),
         createdAt := if createdAt.Some? then createdAt.value else row.createdAt)
  }

  /** updateTransaction: revert the row's old effect, apply the new one. */
  function EditMovement(s: State, txId: TxId, quantity: int, description: string,
                        createdAt: Option<Timestamp>): (r: Result<State>)
    ensures r == Err(TransactionNotFound) <==> txId !in s.rows
    ensures r == Err(ItemNotFound) <==> txId in s.rows && s.rows[txId].itemId !in s.stock
    ensures r == Err(NegativeStock) <==>
      && txId in s.rows && s.rows[txId].itemId in s.stock
      && s.stock[s.rows[txId].itemId] - Signed(s.rows[txId].kind, s.rows[txId].quantity)
           + Signed(s.rows[txId].kind, quantity) < 0
    ensures r.Ok? || r == Err(TransactionNotFound) || r == Err(ItemNotFound) || r == Err(NegativeStock)
  {
    if txId !in s.rows then Err(TransactionNotFound)
    else
      var row := s.rows[txId];
      if row.itemId !in s.stock then Err(ItemNotFound)
      else
        var finalStock := s.stock[row.itemId] - Signed(row.kind, row.quantity) + Signed(row.kind, quantity);
        if finalStock < 0 then Err(NegativeStock)
        else Ok(s.(stock := s.stock[row.itemId := finalStock],
                   rows := s.rows[txId := Edited(row, quantity, description, createdAt)]))
  }

  /** deleteTransaction: revert the row's effect and remove the row. */
  function DeleteMovement(s: State, txId: TxId): (r: Result<State>)
    ensures r == Err(TransactionNotFound) <==> txId !in s.rows
    ensures r == Err(ItemNotFound) <==> txId in s.rows && s.rows[txId].itemId !in s.stock
    ensures r == Err(NegativeStock) <==>
      && txId in s.rows && s.rows[txId].itemId in s.stock
      && s.stock[s.rows[txId].itemId] - Signed(s.rows[txId].kind, s.rows[txId].quantity) < 0
    ensures r.Ok? || r == Err(TransactionNotFound) || r == Err(ItemNotFound) || r == Err(NegativeStock)
  {
    if txId !in s.rows then Err(TransactionNotFound)
    else
      var row := s.rows[txId];
      if row.itemId !in s.stock then Err(ItemNotFound)
      else
        var newStock := s.stock[row.itemId] - Signed(row.kind, row.quantity);
        if newStock < 0 then Err(NegativeStock)
        else Ok(s.(stock := s.stock[row.itemId := newStock], rows := s.rows - {txId}))
  }

  /** What a successful edit does: the item's balance loses the row's old
      signed quantity and gains the new one, staying at least zero; no other
      balance moves; the row keeps its item and type and takes the new
      quantity, description and (when given) timestamp; no other row changes. */
  lemma EditMovementEffect(s: State, txId: TxId, quantity: int, description: string,
                           createdAt: Option<Timestamp>)
    ensures var r := EditMovement(s, txId, quantity, description, createdAt);
      r.Ok? ==>
        var row := s.rows[txId];
        && r.value.stock.Keys == s.stock.Keys
        && r.value.stock[row.itemId]
             == s.stock[row.itemId] - Signed(row.kind, row.quantity) + Signed(row.kind, quantity) >= 0
        && (forall i | i in s.stock && i != row.itemId :: r.value.stock[i] == s.stock[i])
        && r.value.nextId == s.nextId
        && r.value.rows.Keys == s.rows.Keys
        && r.value.rows[txId].itemId == row.itemId
        && r.value.rows[txId].kind == row.kind
        && r.value.rows[txId].quantity == quantity
        && r.value.rows[txId].description == Some(description)
        && (createdAt.Some? ==> r.value.rows[txId].createdAt == createdAt.value)
        && (createdAt.None? ==> r.value.rows[txId].createdAt == row.createdAt)
        && (forall k | k in s.rows && k != txId :: r.value.rows[k] == s.rows[k])
  {
  }

  /** What a successful delete does: the item's balance loses the row's
      signed quantity, staying at least zero; no other balance moves; exactly
      that row is gone and the others stay. */
  lemma DeleteMovementEffect(s: State, txId: TxId)
    ensures var r := DeleteMovement(s, txId);
      r.Ok? ==>
        var row := s.rows[txId];
        && r.value.stock.Keys == s.stock.Keys
        && r.value.stock[row.itemId] == s.stock[row.itemId] - Signed(row.kind, row.quantity) >= 0
        && (forall i | i in s.stock && i != row.itemId :: r.value.stock[i] == s.stock[i])
        && r.value.nextId == s.nextId
        && r.value.rows.Keys == s.rows.Keys - {txId}
        && (forall k | k in r.value.rows :: r.value.rows[k] == s.rows[k])
  {
  }

  /** `|descriptions|` separate outbound movements, one after the other, stopping
      at the first one that fails.  The reference for the batch operation. */
  function RepeatOut(s: State, itemId: ItemId, quantity: int, descriptions: seq<string>,
                     now: Timestamp): Result<State>
    decreases |descriptions|
  {
    if |descriptions| == 0 then Ok(s)
    else
      match RecordMovement(s, itemId, Out, quantity, Some(descriptions[0]), now)
      case Err(e) => Err(e)
      case Ok(s1) => RepeatOut(s1, itemId, quantity, descriptions[1..], now)
  }

  // ---------------------------------------------------------------------------
  // The ledger sum

  /** Rows that agree below `n` give the same sum below `n`. */
  lemma {:induction false} LedgerSumFrame(a: map<TxId, Row>, b: map<TxId, Row>, item: ItemId, n: nat)
    requires forall j: TxId | j < n :: Term(a, item, j) == Term(b, item, j)
    ensures LedgerSum(a, item, n) == LedgerSum(b, item, n)
  {
    if n > 0 {
      LedgerSumFrame(a, b, item, n - 1);
    }
  }

  /** Changing the row at one id `k` below `n` changes the sum by the change of
      that row's contribution and by nothing else. */
  lemma {:induction false} LedgerSumChange(a: map<TxId, Row>, b: map<TxId, Row>, item: ItemId, n: nat, k: TxId)
    requires k < n
    requires forall j: TxId | j < n && j != k :: Term(a, item, j) == Term(b, item, j)
    ensures LedgerSum(b, item, n) == LedgerSum(a, item, n) - Term(a, item, k) + Term(b, item, k)
  {
    if n - 1 == k {
      LedgerSumFrame(a, b, item, k);
    } else {
      LedgerSumChange(a, b, item, n - 1, k);
    }
  }

  /** An item no row refers to has an empty ledger. */
  lemma {:induction false} LedgerSumUnreferenced(rows: map<TxId, Row>, item: ItemId, n: nat)
    requires forall k | k in rows :: rows[k].itemId != item
    ensures LedgerSum(rows, item, n) == 0
  {
    if n > 0 {
      LedgerSumUnreferenced(rows, item, n - 1);
    }
  }

  // ---------------------------------------------------------------------------
  // Every successful operation keeps the store at rest and balanced

  lemma RecordMovementKeepsBalanced(s: State, opening: map<ItemId, int>, itemId: ItemId, kind: Kind,
                                    quantity: int, description: Option<string>, now: Timestamp)
    requires Consistent(s) && Balanced(s, opening)
    ensures var r := RecordMovement(s, itemId, kind, quantity, description, now);
      r.Ok? ==>
        && Consistent(r.value) && Balanced(r.value, opening)
        && (PositiveQuantities(s) && quantity > 0 ==> PositiveQuantities(r.value))
  {
    var r := RecordMovement(s, itemId, kind, quantity, description, now);
    if r.Ok? {
      var t := r.value;
      forall i | i in t.stock
        ensures t.stock[i] == opening[i] + LedgerSum(t.rows, i, t.nextId)
      {
        LedgerSumChange(s.rows, t.rows, i, t.nextId, s.nextId);
        assert Term(s.rows, i, s.nextId) == 0;
      }
    }
  }

  lemma {:induction false} RepeatOutKeepsBalanced(s: State, opening: map<ItemId, int>, itemId: ItemId,
                                                  quantity: int, descriptions: seq<string>, now: Timestamp)
    requires Consistent(s) && Balanced(s, opening)
    ensures var r := RepeatOut(s, itemId, quantity, descriptions, now);
      r.Ok? ==>
        && Consistent(r.value) && Balanced(r.value, opening)
        && (PositiveQuantities(s) && quantity > 0 ==> PositiveQuantities(r.value))
    decreases |descriptions|
  {
    if |descriptions| > 0 {
      var first := RecordMovement(s, itemId, Out, quantity, Some(descriptions[0]), now);
      RecordMovementKeepsBalanced(s, opening, itemId, Out, quantity, Some(descriptions[0]), now);
      if first.Ok? {
        RepeatOutKeepsBalanced(first.value, opening, itemId, quantity, descriptions[1..], now);
      }
    }
  }

  /** The first movement of a batch splits off the way one movement does. */
  lemma BatchRowsSplit(first: TxId, itemId: ItemId, quantity: int, descriptions: seq<string>, now: Timestamp)
    requires |descriptions| > 0
    ensures BatchRows(first, itemId, quantity, descriptions, now)
         == BatchRows(first + 1, itemId, quantity, descriptions[1..], now)[first := Row(itemId, Out, quantity, Some(descriptions[0]), now)]
  {
  }

  lemma TotalSplits(quantity: int, m: nat)
    ensures quantity * (m + 1) == quantity + quantity * m
  {
  }

  lemma TotalGrows(quantity: int, m: nat)
    requires quantity > 0
    ensures quantity * m >= 0
  {
  }

  /** An empty batch on an existing item changes nothing. */
  lemma BatchOfNone(s: State, itemId: ItemId, quantity: int, now: Timestamp)
    requires itemId in s.stock && s.stock[itemId] >= 0
    ensures RecordBatchOutbound(s, itemId, Out, quantity, [], now) == Ok(s)
  {
    var b := BatchRows(s.nextId, itemId, quantity, [], now);
    assert s.rows + b == s.rows;
    assert s.stock[itemId := s.stock[itemId] - quantity * 0] == s.stock;
  }

  /** Once its first movement has been applied, the rest of a batch is a batch
      of its own. */
  lemma BatchAfterFirst(s: State, itemId: ItemId, quantity: int, descriptions: seq<string>, now: Timestamp)
    requires |descriptions| > 0 && itemId in s.stock
    requires s.stock[itemId] - quantity >= 0
    ensures var s1 := State(s.stock[itemId := s.stock[itemId] - quantity],
                            s.rows[s.nextId := Row(itemId, Out, quantity, Some(descriptions[0]), now)],
                            s.nextId + 1);
      RecordBatchOutbound(s, itemId, Out, quantity, descriptions, now)
        == RecordBatchOutbound(s1, itemId, Out, quantity, descriptions[1..], now)
  {
    var n := |descriptions|;
    var row := Row(itemId, Out, quantity, Some(descriptions[0]), now);
    var s1 := State(s.stock[itemId := s.stock[itemId] - quantity], s.rows[s.nextId := row], s.nextId + 1);
    TotalSplits(quantity, n - 1);
    var newStock := s.stock[itemId] - quantity * n;
    assert s1.stock[itemId] - quantity * |descriptions[1..]| == newStock;
    if newStock >= 0 {
      BatchRowsAfterFirst(s.rows, s.nextId, itemId, quantity, descriptions, now);
      assert s1.stock[itemId := newStock] == s.stock[itemId := newStock];
    } else {
      assert RecordBatchOutbound(s, itemId, Out, quantity, descriptions, now) == Err(NegativeStock);
    }
  }

  lemma BatchRowsAfterFirst(rows: map<TxId, Row>, first: TxId, itemId: ItemId, quantity: int,
                            descriptions: seq<string>, now: Timestamp)
    requires |descriptions| > 0
    ensures rows + BatchRows(first, itemId, quantity, descriptions, now)
         == rows[first := Row(itemId, Out, quantity, Some(descriptions[0]), now)]
              + BatchRows(first + 1, itemId, quantity, descriptions[1..], now)
  {
    BatchRowsSplit(first, itemId, quantity, descriptions, now);
  }

  /** A batch is exactly as good as that many single outbound movements in a
      row: the same error when it fails, the same store when it succeeds.  (An
      empty batch on a missing item is the one difference: the batch reports
      the missing item, the empty sequence of movements does nothing.) */
  lemma {:induction false} BatchIsRepeatedMovement(s: State, itemId: ItemId, quantity: int,
                                                   descriptions: seq<string>, now: Timestamp)
    requires |descriptions| > 0
    requires itemId in s.stock ==> s.stock[itemId] >= 0
    ensures RecordBatchOutbound(s, itemId, Out, quantity, descriptions, now)
         == RepeatOut(s, itemId, quantity, descriptions, now)
    decreases |descriptions|
  {
    var n := |descriptions|;
    var step := RecordMovement(s, itemId, Out, quantity, Some(descriptions[0]), now);
    if itemId in s.stock {
      if step.Err? {
        TotalSplits(quantity, n - 1);
        TotalGrows(quantity, n - 1);
      } else {
        var s1 := step.value;
        BatchAfterFirst(s, itemId, quantity, descriptions, now);
        if n == 1 {
          BatchOfNone(s1, itemId, quantity, now);
        } else {
          BatchIsRepeatedMovement(s1, itemId, quantity, descriptions[1..], now);
        }
      }
    }
  }

  lemma RecordBatchOutboundKeepsBalanced(s: State, opening: map<ItemId, int>, itemId: ItemId, kind: Kind,
                                         quantity: int, descriptions: seq<string>, now: Timestamp)
    requires Consistent(s) && Balanced(s, opening)
    ensures var r := RecordBatchOutbound(s, itemId, kind, quantity, descriptions, now);
      r.Ok? ==>
        && Consistent(r.value) && Balanced(r.value, opening)
        && (PositiveQuantities(s) && quantity > 0 ==> PositiveQuantities(r.value))
  {
    var r := RecordBatchOutbound(s, itemId, kind, quantity, descriptions, now);
    if r.Ok? {
      if |descriptions| == 0 {
        assert r.value.stock == s.stock;
        assert r.value.rows == s.rows;
      } else {
        BatchIsRepeatedMovement(s, itemId, quantity, descriptions, now);
        RepeatOutKeepsBalanced(s, opening, itemId, quantity, descriptions, now);
      }
    }
  }

  lemma EditMovementKeepsBalanced(s: State, opening: map<ItemId, int>, txId: TxId, quantity: int,
                                  description: string, createdAt: Option<Timestamp>)
    requires Consistent(s) && Balanced(s, opening)
    ensures var r := EditMovement(s, txId, quantity, description, createdAt);
      r.Ok? ==>
        && Consistent(r.value) && Balanced(r.value, opening)
        && (PositiveQuantities(s) && quantity > 0 ==> PositiveQuantities(r.value))
  {
    var r := EditMovement(s, txId, quantity, description, createdAt);
    if r.Ok? {
      var t := r.value;
      forall i | i in t.stock
        ensures t.stock[i] == opening[i] + LedgerSum(t.rows, i, t.nextId)
      {
        LedgerSumChange(s.rows, t.rows, i, s.nextId, txId);
      }
    }
  }

  lemma DeleteMovementKeepsBalanced(s: State, opening: map<ItemId, int>, txId: TxId)
    requires Consistent(s) && Balanced(s, opening)
    ensures var r := DeleteMovement(s, txId);
      r.Ok? ==>
        && Consistent(r.value) && Balanced(r.value, opening)
        && (PositiveQuantities(s) ==> PositiveQuantities(r.value))
  {
    var r := DeleteMovement(s, txId);
    if r.Ok? {
      var t := r.value;
      forall i | i in t.stock
        ensures t.stock[i] == opening[i] + LedgerSum(t.rows, i, t.nextId)
      {
        LedgerSumChange(s.rows, t.rows, i, s.nextId, txId);
      }
    }
  }

  // ---------------------------------------------------------------------------
  // Reversibility

  /** Editing a row and then editing it back to its old quantity and timestamp
      always succeeds and restores every balance and the row (up to the
      description given back); with the old description given back, the whole
      store is restored. */
  lemma EditRoundTrip(s: State, txId: TxId, quantity: int, description: string,
                      createdAt: Option<Timestamp>, restoredDescription: string)
    requires Consistent(s)
    ensures var r := EditMovement(s, txId, quantity, description, createdAt);
      r.Ok? ==>
        var row := s.rows[txId];
        var back := EditMovement(r.value, txId, row.quantity, restoredDescription, Some(row.createdAt));
        && back.Ok?
        && back.value.stock == s.stock
        && back.value.nextId == s.nextId
        && back.value.rows == s.rows[txId := row.(description := Some(restoredDescription))]
        && (row.description == Some(restoredDescription) ==> back.value == s)
  {
    var r := EditMovement(s, txId, quantity, description, createdAt);
    if r.Ok? {
      var row := s.rows[txId];
      var back := EditMovement(r.value, txId, row.quantity, restoredDescription, Some(row.createdAt));
      assert back.value.stock == s.stock;
      if row.description == Some(restoredDescription) {
        assert row.(description := Some(restoredDescription)) == row;
        assert s.rows[txId := row] == s.rows;
      }
    }
  }

  /** Deleting the row a movement has just written always succeeds and gives
      back the store as it was before the movement (only the id is used up). */
  lemma DeleteUndoesRecord(s: State, itemId: ItemId, kind: Kind, quantity: int,
                           description: Option<string>, now: Timestamp)
    requires Consistent(s)
    ensures var r := RecordMovement(s, itemId, kind, quantity, description, now);
      r.Ok? ==> DeleteMovement(r.value, s.nextId) == Ok(s.(nextId := s.nextId + 1))
  {
    var r := RecordMovement(s, itemId, kind, quantity, description, now);
    if r.Ok? {
      assert s.nextId !in s.rows;
      assert r.value.rows - {s.nextId} == s.rows;
      assert r.value.stock[itemId := s.stock[itemId]] == s.stock;
    }
  }
}
