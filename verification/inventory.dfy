/** The inventory service: an in-memory stock table and the handler that
    reserves stock for one order, all or nothing. */
module Inventory {
  import opened OrderEvents

  /** Item name to quantity. An item without an entry is out of stock. */
  type Stock = map<ItemId, int>

  /** The table the service starts with. */
  function InitialStock(): Stock {
    map["laptop" := 5, "phone" := 3, "charger" := 10]
  }

  /** The test the handler applies to one entry of the order: the item has
      an entry and its quantity is positive. */
  predicate InStock(stock: Stock, item: ItemId) {
    item in stock && stock[item] > 0
  }

  /** Every entry of `items` passes the per-entry test. A repeated item is
      tested once per entry against the same, not yet decremented, stock. */
  predicate AllInStock(stock: Stock, items: seq<ItemId>) {
    forall i :: 0 <= i < |items| ==> InStock(stock, items[i])
  }

  predicate AllKnown(stock: Stock, items: seq<ItemId>) {
    forall i :: 0 <= i < |items| ==> items[i] in stock
  }

  /** How many entries of `items` name `item`. */
  function Occurrences(items: seq<ItemId>, item: ItemId): nat
    decreases |items|
  {
    if items == [] then 0
    else Occurrences(items[..|items| - 1], item) + (if items[|items| - 1] == item then 1 else 0)
  }

  /** The table after taking one unit per entry of `items`, in list order.
      Only reached once every entry passed the check, so an entry without a
      row never occurs there; it is skipped here. */
  function Reserve(stock: Stock, items: seq<ItemId>): (r: Stock)
    decreases |items|
  {
    if items == [] then stock
    else
      var last := items[|items| - 1];
      var before := Reserve(stock, items[..|items| - 1]);
      if last in before then before[last := before[last] - 1] else before
  }

  /** Reserving keeps the rows and lowers each quantity by the number of
      entries naming it. */
  lemma {:induction false} ReserveCounts(stock: Stock, items: seq<ItemId>)
    ensures Reserve(stock, items).Keys == stock.Keys
    ensures forall k :: k in stock ==> Reserve(stock, items)[k] == stock[k] - Occurrences(items, k)
    decreases |items|
  {
    if items != [] {
      ReserveCounts(stock, items[..|items| - 1]);
    }
  }

  /** Taking one more entry's unit. */
  lemma ReserveStep(stock: Stock, items: seq<ItemId>, j: int)
    requires 0 <= j < |items| && items[j] in stock
    ensures items[j] in Reserve(stock, items[..j])
    ensures var before := Reserve(stock, items[..j]);
            Reserve(stock, items[..j + 1]) == before[items[j] := before[items[j]] - 1]
  {
    ReserveCounts(stock, items[..j]);
    assert items[..j + 1][..j] == items[..j];
  }

  /** The answer and the new table for one order. */
  function Process(stock: Stock, order: Order): (r: (InventoryResult, Stock))
    ensures r.0.orderId == order.orderId
    ensures r.0.status == Confirmed <==> AllInStock(stock, order.items)
    ensures r.0.status == OutOfStock <==> !AllInStock(stock, order.items)
    ensures r.0.status == OutOfStock ==> r.1 == stock
    ensures r.1.Keys == stock.Keys
    ensures r.0.status == Confirmed ==>
              forall k :: k in stock ==> r.1[k] == stock[k] - Occurrences(order.items, k)
  {
    ReserveCounts(stock, order.items);
    if AllInStock(stock, order.items) then
      (InventoryResult(order.orderId, Confirmed), Reserve(stock, order.items))
    else
      (InventoryResult(order.orderId, OutOfStock), stock)
  }

  class InventoryService {
    var stock: Stock

    constructor ()
      ensures stock == InitialStock()
    {
      stock := InitialStock();
    }

    /** Checks every entry of the order; if all pass, takes one unit per
        entry and confirms, otherwise leaves the table alone. */
    method ProcessOrder(order: Order) returns (result: InventoryResult)
      modifies this
      ensures (result, stock) == Process(old(stock), order)
    {
      var items := order.items;
      var isAvailable := true;
      var i := 0;
      while i < |items|
        invariant 0 <= i <= |items|
        invariant forall k :: 0 <= k < i ==> InStock(stock, items[k])
      {
        var item := items[i];
        if item !in stock || stock[item] <= 0 {
          isAvailable := false;
          break;
        }
        i := i + 1;
      }
      assert isAvailable <==> AllInStock(stock, items);

      if isAvailable {
        ghost var initial := stock;
        var j := 0;
        while j < |items|
          invariant 0 <= j <= |items|
          invariant stock == Reserve(initial, items[..j])
        {
          var item := items[j];
          ReserveStep(initial, items, j);
          stock := stock[item := stock[item] - 1];
          j := j + 1;
        }
        assert items[..j] == items;
        result := InventoryResult(order.orderId, Confirmed);
      } else {
        result := InventoryResult(order.orderId, OutOfStock);
      }
    }
  }

  /** The sum of all quantities in the table. */
  ghost function Total(stock: Stock): int
    decreases |stock.Keys|
  {
    if stock.Keys == {} then 0
    else
      var k :| k in stock;
      stock[k] + Total(stock - {k})
  }

  lemma {:induction false} TotalWithout(stock: Stock, k: ItemId)
    requires k in stock
    ensures Total(stock) == stock[k] + Total(stock - {k})
    decreases |stock.Keys|
  {
    var j :| j in stock && Total(stock) == stock[j] + Total(stock - {j});
    if j != k {
      var rest := stock - {j} - {k};
      assert stock - {j} - {k} == stock - {k} - {j};
      TotalWithout(stock - {j}, k);
      TotalWithout(stock - {k}, j);
    }
  }

  /** Changing one quantity changes the total by the difference. */
  lemma TotalUpdate(stock: Stock, k: ItemId, v: int)
    requires k in stock
    ensures Total(stock[k := v]) == Total(stock) - stock[k] + v
  {
    TotalWithout(stock, k);
    TotalWithout(stock[k := v], k);
    assert stock[k := v] - {k} == stock - {k};
  }

  /** Reserving takes exactly one unit per entry out of the table. */
  lemma {:induction false} ReserveTotal(stock: Stock, items: seq<ItemId>)
    requires AllKnown(stock, items)
    ensures Total(Reserve(stock, items)) == Total(stock) - |items|
    decreases |items|
  {
    if items != [] {
      var prefix := items[..|items| - 1];
      assert AllKnown(stock, prefix) by {
        forall i | 0 <= i < |prefix| ensures prefix[i] in stock { assert prefix[i] == items[i]; }
      }
      ReserveTotal(stock, prefix);
      ReserveCounts(stock, prefix);
      var before := Reserve(stock, prefix);
      TotalUpdate(before, items[|items| - 1], before[items[|items| - 1]] - 1);
    }
  }

  /** A confirmed order lowers the total stock by its number of entries; an
      order out of stock leaves it as it was. */
  lemma ProcessTotal(stock: Stock, order: Order)
    ensures var (res, after) := Process(stock, order);
            Total(after) == Total(stock) - (if res.status == Confirmed then |order.items| else 0)
  {
    if AllInStock(stock, order.items) {
      ReserveTotal(stock, order.items);
    }
  }

  lemma {:induction false} OccurrencesMeansPresent(items: seq<ItemId>, item: ItemId)
    requires Occurrences(items, item) > 0
    ensures exists i :: 0 <= i < |items| && items[i] == item
    decreases |items|
  {
    if items[|items| - 1] != item {
      OccurrencesMeansPresent(items[..|items| - 1], item);
      var i :| 0 <= i < |items| - 1 && items[..|items| - 1][i] == item;
      assert items[i] == item;
    }
  }

  predicate Distinct(items: seq<ItemId>) {
    forall i, j :: 0 <= i < j < |items| ==> items[i] != items[j]
  }

  lemma {:induction false} OccurrencesOfAbsent(items: seq<ItemId>, item: ItemId)
    requires forall i :: 0 <= i < |items| ==> items[i] != item
    ensures Occurrences(items, item) == 0
    decreases |items|
  {
    if items != [] {
      OccurrencesOfAbsent(items[..|items| - 1], item);
    }
  }

  lemma {:induction false} OccurrencesOfDistinct(items: seq<ItemId>, item: ItemId)
    requires Distinct(items)
    ensures Occurrences(items, item) <= 1
    decreases |items|
  {
    if items != [] {
      var prefix := items[..|items| - 1];
      if items[|items| - 1] == item {
        OccurrencesOfAbsent(prefix, item);
      } else {
        OccurrencesOfDistinct(prefix, item);
      }
    }
  }

  /** With no item repeated in the order, a table without negative
      quantities keeps none after processing. */
  lemma DistinctKeepsStockNonNegative(stock: Stock, order: Order)
    requires Distinct(order.items)
    requires forall k :: k in stock ==> stock[k] >= 0
    ensures forall k :: k in Process(stock, order).1 ==> Process(stock, order).1[k] >= 0
  {
    var after := Process(stock, order).1;
    forall k | k in after ensures after[k] >= 0 {
      if AllInStock(stock, order.items) && Occurrences(order.items, k) > 0 {
        OccurrencesOfDistinct(order.items, k);
        OccurrencesMeansPresent(order.items, k);
        var i :| 0 <= i < |order.items| && order.items[i] == k;
        assert InStock(stock, order.items[i]);
      }
    }
  }

  /** The check is per entry, not per count: one laptop in stock and an
      order for two laptops is confirmed and leaves the quantity at -1. */
  lemma RepeatedItemOverdraws()
    ensures Process(map["laptop" := 1], Order("o1", ["laptop", "laptop"], Pending))
            == (InventoryResult("o1", Confirmed), map["laptop" := -1])
  {
    var items: seq<ItemId> := ["laptop", "laptop"];
    assert AllInStock(map["laptop" := 1], items);
    assert items[..1] == ["laptop"] && ["laptop"][..0] == [];
    assert Occurrences(items, "laptop") == 2;
    var after := Reserve(map["laptop" := 1], items);
    assert after.Keys == {"laptop"} && after["laptop"] == -1;
    assert after == map["laptop" := -1];
  }

  /** An order with no items is confirmed and changes nothing. */
  lemma EmptyOrderConfirmed(stock: Stock, orderId: OrderId, status: Status)
    ensures Process(stock, Order(orderId, [], status)) == (InventoryResult(orderId, Confirmed), stock)
  {
  }

  /** One missing item blocks the whole order: charger in stock, phone not,
      and the charger is not touched. */
  lemma NoPartialReservation()
    ensures Process(map["charger" := 1, "phone" := 0], Order("o3", ["charger", "phone"], Pending))
            == (InventoryResult("o3", OutOfStock), map["charger" := 1, "phone" := 0])
  {
    assert !InStock(map["charger" := 1, "phone" := 0], ["charger", "phone"][1]);
  }

  /** Nothing records which orders were handled: delivering the same order
      again reserves again whenever the stock still allows it. */
  lemma RedeliveryReservesTwice(stock: Stock, order: Order)
    requires AllInStock(stock, order.items)
    requires AllInStock(Process(stock, order).1, order.items)
    ensures var once := Process(stock, order).1;
            var twice := Process(once, order);
            twice.0.status == Confirmed &&
            twice.1.Keys == stock.Keys &&
            forall k :: k in stock ==> twice.1[k] == stock[k] - 2 * Occurrences(order.items, k)
  {
  }
}
