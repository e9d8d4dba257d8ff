/** The aggregation in getDailyStockOutSummary: select the outbound rows in
    the requested period, group them by (day, item) summing their quantities,
    and order the groups by day, latest first.

    The day of a row is what `format(createdAt, "yyyy-MM-dd")` makes of its
    timestamp; that formatting is a parameter (`dayOf`).  Days are numbered so
    that comparing the numbers agrees with comparing those strings, which is
    what the final `localeCompare` sort does. */
module DailySummary {
  import opened Ledger

  type Day = int

  /** The grouping key `${date}_${itemId}`. */
  datatype Key = Key(day: Day, itemId: ItemId)

  /** One entry of the result: the day, the item and the summed quantity. */
  datatype Summary = Summary(day: Day, itemId: ItemId, totalQuantity: int)

  function KeyOf(row: Row, dayOf: Timestamp -> Day): Key
  {
    Key(dayOf(row.createdAt), row.itemId)
  }

  function SummaryKey(g: Summary): Key
  {
    Key(g.day, g.itemId)
  }

  /** The `createdAt` bounds of the query; an absent bound does not restrict. */
  predicate InPeriod(t: Timestamp, startDate: Option<Timestamp>, endDate: Option<Timestamp>)
  {
    (startDate.None? || startDate.value <= t) && (endDate.None? || t <= endDate.value)
  }

  predicate Selected(row: Row, startDate: Option<Timestamp>, endDate: Option<Timestamp>)
  {
    row.kind == Out && InPeriod(row.createdAt, startDate, endDate)
  }

  /** The rows the query fetches: outbound rows inside the period, in the
      order of the table. */
  function StockOutRows(table: seq<Row>, startDate: Option<Timestamp>, endDate: Option<Timestamp>): (r: seq<Row>)
    ensures forall x :: x in r <==> x in table && Selected(x, startDate, endDate)
    ensures forall x :: multiset(r)[x] == if Selected(x, startDate, endDate) then multiset(table)[x] else 0
    ensures |r| <= |table|
  {
    if |table| == 0 then []
    else
      var last := table[|table| - 1];
      assert table == table[..|table| - 1] + [last];
      StockOutRows(table[..|table| - 1], startDate, endDate) + (if Selected(last, startDate, endDate) then [last] else [])
  }

  /** The summed quantity of the rows with key `key`. */
  function Total(rows: seq<Row>, key: Key, dayOf: Timestamp -> Day): int
  {
    if |rows| == 0 then 0
    else
      var last := rows[|rows| - 1];
      Total(rows[..|rows| - 1], key, dayOf) + (if KeyOf(last, dayOf) == key then last.quantity else 0)
  }

  /** The keys the rows fall into. */
  ghost function Keys(rows: seq<Row>, dayOf: Timestamp -> Day): set<Key>
  {
    set x | x in rows :: KeyOf(x, dayOf)
  }

  lemma KeysAppend(rows: seq<Row>, x: Row, dayOf: Timestamp -> Day)
    ensures Keys(rows + [x], dayOf) == Keys(rows, dayOf) + {KeyOf(x, dayOf)}
  {
    forall k | k in Keys(rows + [x], dayOf)
      ensures k in Keys(rows, dayOf) + {KeyOf(x, dayOf)}
    {
      var y :| y in rows + [x] && KeyOf(y, dayOf) == k;
      if y != x {
        assert y in rows;
      }
    }
  }

  /** One more row adds its quantity to its own key's sum and to no other. */
  lemma TotalAppend(rows: seq<Row>, x: Row, dayOf: Timestamp -> Day)
    ensures forall k :: Total(rows + [x], k, dayOf)
                      == Total(rows, k, dayOf) + (if k == KeyOf(x, dayOf) then x.quantity else 0)
  {
    assert (rows + [x])[..|rows|] == rows;
  }

  /** A key no row falls into sums to zero. */
  lemma {:induction false} TotalOfAbsentKey(rows: seq<Row>, key: Key, dayOf: Timestamp -> Day)
    requires key !in Keys(rows, dayOf)
    ensures Total(rows, key, dayOf) == 0
  {
    if |rows| > 0 {
      var init := rows[..|rows| - 1];
      assert key !in Keys(init, dayOf) by {
        forall x | x in init ensures KeyOf(x, dayOf) != key {
          assert x in rows;
        }
      }
      TotalOfAbsentKey(init, key, dayOf);
      assert rows[|rows| - 1] in rows;
    }
  }

  ghost function SummaryKeys(groups: seq<Summary>): set<Key>
  {
    set g | g in groups :: SummaryKey(g)
  }

  /** No two entries share a key. */
  predicate DistinctKeys(groups: seq<Summary>)
  {
    forall p, q | 0 <= p < q < |groups| :: SummaryKey(groups[p]) != SummaryKey(groups[q])
  }

  /** Latest day first. */
  predicate Descending(groups: seq<Summary>)
  {
    forall p, q | 0 <= p < q < |groups| :: groups[p].day >= groups[q].day
  }

  /** `acc` and `order` are the result of folding `rows`: `acc` holds one
      entry per key the rows fall into, carrying that key's sum, and `order`
      lists those keys once each. */
  ghost predicate Accumulated(rows: seq<Row>, dayOf: Timestamp -> Day, acc: map<Key, Summary>, order: seq<Key>)
  {
    && acc.Keys == Keys(rows, dayOf)
    && (forall k | k in acc :: SummaryKey(acc[k]) == k && acc[k].totalQuantity == Total(rows, k, dayOf))
    && (forall k :: k in order <==> k in acc)
    && (forall p, q | 0 <= p < q < |order| :: order[p] != order[q])
  }

  /** One step of the fold: the row's key gets a zero entry if it has none
      yet (and is appended to `order`), then the row's quantity is added. */
  lemma AccumulateStep(seen: seq<Row>, x: Row, dayOf: Timestamp -> Day, acc: map<Key, Summary>, order: seq<Key>,
                       acc': map<Key, Summary>, order': seq<Key>)
    requires Accumulated(seen, dayOf, acc, order)
    requires var key := KeyOf(x, dayOf);
      var entry := if key in acc then acc[key] else Summary(key.day, key.itemId, 0);
      && acc' == acc[key := entry.(totalQuantity := entry.totalQuantity + x.quantity)]
      && order' == if key in acc then order else order + [key]
    ensures Accumulated(seen + [x], dayOf, acc', order')
  {
    var key := KeyOf(x, dayOf);
    TotalAppend(seen, x, dayOf);
    KeysAppend(seen, x, dayOf);
    if key !in acc {
      TotalOfAbsentKey(seen, key, dayOf);
      assert forall k :: k in order' <==> k in order || k == key;
    } else {
      assert order' == order;
    }
    assert acc'.Keys == acc.Keys + {key};
  }

  /** Before the first row the record is empty. */
  lemma NothingAccumulated(rows: seq<Row>, dayOf: Timestamp -> Day)
    ensures Accumulated(rows[..0], dayOf, map[], [])
  {
    assert rows[..0] == [];
  }

  lemma PrefixGrows<T>(s: seq<T>, i: nat)
    requires i < |s|
    ensures s[..i + 1] == s[..i] + [s[i]]
  {
  }

  /** The callback given to `reduce`: create the row's entry with a zero
      total if its key has none yet, then add the row's quantity to it.
      `seen` are the rows already folded into `acc`. */
  method AddRow(ghost seen: seq<Row>, acc: map<Key, Summary>, order: seq<Key>, curr: Row, dayOf: Timestamp -> Day)
    returns (acc': map<Key, Summary>, order': seq<Key>)
    requires Accumulated(seen, dayOf, acc, order)
    ensures Accumulated(seen + [curr], dayOf, acc', order')
  {
    var key := Key(dayOf(curr.createdAt), curr.itemId);
    var entry := Summary(key.day, key.itemId, 0);
    order' := order;
    if key in acc {
      entry := acc[key];
    } else {
      order' := order + [key];
    }
    acc' := acc[key := entry.(totalQuantity := entry.totalQuantity + curr.quantity)];
    AccumulateStep(seen, curr, dayOf, acc, order, acc', order');
  }

  /** The `reduce` into the `acc` record: for every key a row falls into, an
      entry holding the sum of the quantities of that key's rows; `order`
      lists the keys in the order they first occur, which is the order in
      which `Object.values` returns the entries. */
  method Accumulate(rows: seq<Row>, dayOf: Timestamp -> Day) returns (acc: map<Key, Summary>, order: seq<Key>)
    ensures Accumulated(rows, dayOf, acc, order)
  {
    acc, order := map[], [];
    var i := 0;
    NothingAccumulated(rows, dayOf);
    while i < |rows|
      invariant 0 <= i <= |rows|
      invariant Accumulated(rows[..i], dayOf, acc, order)
    {
      PrefixGrows(rows, i);
      acc, order := AddRow(rows[..i], acc, order, rows[i], dayOf);
      i := i + 1;
    }
    assert rows[..i] == rows;
  }

  /** The grouping of getDailyStockOutSummary before its sort: one entry per
      key the rows fall into, each holding the sum of its rows' quantities. */
  method GroupByDayAndItem(rows: seq<Row>, dayOf: Timestamp -> Day) returns (groups: seq<Summary>)
    ensures SummaryKeys(groups) == Keys(rows, dayOf)
    ensures DistinctKeys(groups)
    ensures forall g | g in groups :: g.totalQuantity == Total(rows, SummaryKey(g), dayOf)
  {
    var acc, order := Accumulate(rows, dayOf);
    groups := [];
    var j := 0;
    while j < |order|
      invariant 0 <= j <= |order|
      invariant |groups| == j
      invariant forall p | 0 <= p < j :: order[p] in acc && groups[p] == acc[order[p]]
    {
      groups := groups + [acc[order[j]]];
      j := j + 1;
    }
    forall g | g in groups
      ensures SummaryKey(g) in acc && acc[SummaryKey(g)] == g
    {
      var p :| 0 <= p < |groups| && groups[p] == g;
    }
    forall k | k in acc
      ensures k in SummaryKeys(groups)
    {
      var p :| 0 <= p < |order| && order[p] == k;
      assert SummaryKey(groups[p]) == k;
    }
  }

  /** Inserting `x` at position `j` keeps the entries latest-first when
      everything before `j` is no earlier and everything from `j` on is
      earlier. */
  lemma InsertKeepsDescending(sorted: seq<Summary>, j: nat, x: Summary)
    requires j <= |sorted| && Descending(sorted)
    requires forall p | 0 <= p < j :: sorted[p].day >= x.day
    requires forall p | j <= p < |sorted| :: sorted[p].day < x.day
    ensures Descending(sorted[..j] + [x] + sorted[j..])
  {
  }

  /** Inserting an entry whose key is new keeps the keys distinct. */
  lemma InsertKeepsDistinct(sorted: seq<Summary>, j: nat, x: Summary)
    requires j <= |sorted| && DistinctKeys(sorted)
    requires forall p | 0 <= p < |sorted| :: SummaryKey(sorted[p]) != SummaryKey(x)
    ensures DistinctKeys(sorted[..j] + [x] + sorted[j..])
  {
    var t := sorted[..j] + [x] + sorted[j..];
    forall p, q | 0 <= p < q < |t|
      ensures SummaryKey(t[p]) != SummaryKey(t[q])
    {
      if p < j && q > j {
        assert t[q] == sorted[q - 1];
      } else if p > j {
        assert t[p] == sorted[p - 1] && t[q] == sorted[q - 1];
      }
    }
  }

  lemma InsertAddsOne(sorted: seq<Summary>, j: nat, x: Summary)
    requires j <= |sorted|
    ensures multiset(sorted[..j] + [x] + sorted[j..]) == multiset(sorted) + multiset{x}
  {
    assert sorted == sorted[..j] + sorted[j..];
  }

  /** Where the insertion sort puts `x`: after every entry of its day or
      later, before every earlier one. */
  method InsertionPoint(sorted: seq<Summary>, x: Summary) returns (j: nat)
    requires Descending(sorted)
    ensures j <= |sorted|
    ensures forall p | 0 <= p < j :: sorted[p].day >= x.day
    ensures forall p | j <= p < |sorted| :: sorted[p].day < x.day
  {
    j := 0;
    while j < |sorted| && sorted[j].day >= x.day
      invariant 0 <= j <= |sorted|
      invariant forall p | 0 <= p < j :: sorted[p].day >= x.day
    {
      j := j + 1;
    }
  }

  /** Entries drawn from the first `i` groups carry none of the keys of the
      groups after them. */
  lemma KeyNotYetPlaced(groups: seq<Summary>, i: nat, sorted: seq<Summary>)
    requires i < |groups| && DistinctKeys(groups)
    requires multiset(sorted) == multiset(groups[..i])
    ensures forall p | 0 <= p < |sorted| :: SummaryKey(sorted[p]) != SummaryKey(groups[i])
  {
    forall p | 0 <= p < |sorted|
      ensures SummaryKey(sorted[p]) != SummaryKey(groups[i])
    {
      assert sorted[p] in multiset(groups[..i]);
      var q :| 0 <= q < i && groups[q] == sorted[p];
    }
  }

  /** The `sort` by `b.date.localeCompare(a.date)`, written as an insertion
      sort: the result holds the same entries, latest day first. */
  method SortByDayDescending(groups: seq<Summary>) returns (sorted: seq<Summary>)
    ensures multiset(sorted) == multiset(groups)
    ensures Descending(sorted)
    ensures DistinctKeys(groups) ==> DistinctKeys(sorted)
  {
    sorted := [];
    var i := 0;
    while i < |groups|
      invariant 0 <= i <= |groups|
      invariant multiset(sorted) == multiset(groups[..i])
      invariant Descending(sorted)
      invariant DistinctKeys(groups) ==> DistinctKeys(sorted)
    {
      var x := groups[i];
      var j := InsertionPoint(sorted, x);
      InsertKeepsDescending(sorted, j, x);
      if DistinctKeys(groups) {
        KeyNotYetPlaced(groups, i, sorted);
        InsertKeepsDistinct(sorted, j, x);
      }
      InsertAddsOne(sorted, j, x);
      PrefixGrows(groups, i);
      sorted := sorted[..j] + [x] + sorted[j..];
      i := i + 1;
    }
    assert groups[..i] == groups;
  }

  /** getDailyStockOutSummary after the query: exactly one entry per distinct
      (day, item) among the outbound rows of the period, each carrying the sum
      of those rows' quantities, latest day first. */
  method DailyStockOutSummary(table: seq<Row>, startDate: Option<Timestamp>, endDate: Option<Timestamp>,
                              dayOf: Timestamp -> Day) returns (summary: seq<Summary>)
    ensures SummaryKeys(summary) == Keys(StockOutRows(table, startDate, endDate), dayOf)
    ensures DistinctKeys(summary)
    ensures forall g | g in summary ::
      g.totalQuantity == Total(StockOutRows(table, startDate, endDate), SummaryKey(g), dayOf)
    ensures Descending(summary)
  {
    var transactions := StockOutRows(table, startDate, endDate);
    var grouped := GroupByDayAndItem(transactions, dayOf);
    summary := SortByDayDescending(grouped);
    forall g ensures g in summary <==> g in grouped {
      assert g in summary <==> g in multiset(summary);
      assert g in grouped <==> g in multiset(grouped);
    }
    assert SummaryKeys(summary) == SummaryKeys(grouped);
  }
}
