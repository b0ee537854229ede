/** The order service: an in-memory map of orders, the creation of an order
    (stored as pending and published on `orders-topic`), and the handler
    that copies the inventory service's answer into the stored order. */
module Orders {
  import opened Common
  import opened OrderEvents
  import Inventory

  /** The HTTP answer to a creation request: 201 with the new identifier. */
  datatype CreateResponse = CreateResponse(code: int, message: string, orderId: OrderId)

  /** Every stored order sits under its own identifier. */
  ghost predicate KeyedById(orders: map<OrderId, Order>) {
    forall id :: id in orders ==> orders[id].orderId == id
  }

  /** The order map after one message from `inventory-topic`: a known order
      takes the event's status, an unknown identifier is ignored. */
  function ApplyResult(orders: map<OrderId, Order>, event: InventoryResult): (r: map<OrderId, Order>)
    ensures r.Keys == orders.Keys
    ensures forall id :: id in orders && id != event.orderId ==> r[id] == orders[id]
    ensures event.orderId in orders ==>
              && r[event.orderId].status == event.status
              && r[event.orderId].orderId == orders[event.orderId].orderId
              && r[event.orderId].items == orders[event.orderId].items
    ensures event.orderId !in orders ==> r == orders
    ensures KeyedById(orders) ==> KeyedById(r)
  {
    if event.orderId in orders then
      orders[event.orderId := orders[event.orderId].(status := event.status)]
    else
      orders
  }

  class OrderService {
    /** The in-memory order table. */
    var orders: map<OrderId, Order>
    /** Every message handed to the producer for `orders-topic`, oldest first. */
    var published: seq<Message<Order>>

    ghost predicate Valid()
      reads this
    {
      KeyedById(orders)
    }

    constructor ()
      ensures Valid()
      ensures orders == map[] && published == []
    {
      orders := map[];
      published := [];
    }

    /** Handles a creation request. `freshId` stands for the identifier the
        uuid generator returns. */
    method CreateOrder(items: seq<ItemId>, freshId: OrderId) returns (response: CreateResponse)
      requires Valid()
      modifies this
      ensures Valid()
      ensures orders == old(orders)[freshId := Order(freshId, items, Pending)]
      ensures freshId !in old(orders) ==> |orders| == |old(orders)| + 1
      ensures published == old(published) + [Message(freshId, Order(freshId, items, Pending))]
      ensures response == CreateResponse(201, "Order created", freshId)
    {
      var order := Order(freshId, items, Pending);
      orders := orders[freshId := order];
      published := published + [Message(freshId, order)];
      response := CreateResponse(201, "Order created", freshId);
    }

    /** Handles one message from `inventory-topic`. */
    method OnInventoryResult(event: InventoryResult)
      requires Valid()
      modifies this
      ensures Valid()
      ensures orders == ApplyResult(old(orders), event)
      ensures published == old(published)
    {
      if event.orderId in orders {
        var order := orders[event.orderId];
        orders := orders[event.orderId := order.(status := event.status)];
      }
    }

    /** The stored order for an identifier, if any. */
    function Lookup(orderId: OrderId): (r: Option<Order>)
      reads this
      requires Valid()
      ensures r.Some? <==> orderId in orders
      ensures r.Some? ==> r.value.orderId == orderId
      ensures r.Some? ==> r.value == orders[orderId]
    {
      if orderId in orders then Some(orders[orderId]) else None
    }
  }

  /** Handling the same answer twice leaves the table as handling it once. */
  lemma ApplyResultIdempotent(orders: map<OrderId, Order>, event: InventoryResult)
    ensures ApplyResult(ApplyResult(orders, event), event) == ApplyResult(orders, event)
  {
  }

  /** The assignment is unconditional: a later answer for the same order
      overwrites an earlier one, whatever the earlier status was. */
  lemma LaterResultWins(orders: map<OrderId, Order>, first: InventoryResult, second: InventoryResult)
    requires first.orderId == second.orderId
    ensures ApplyResult(ApplyResult(orders, first), second) == ApplyResult(orders, second)
  {
  }

  /** Answers for different orders commute. */
  lemma ResultsForDifferentOrdersCommute(orders: map<OrderId, Order>, a: InventoryResult, b: InventoryResult)
    requires a.orderId != b.orderId
    ensures ApplyResult(ApplyResult(orders, a), b) == ApplyResult(ApplyResult(orders, b), a)
  {
  }

  /** The two services together: an order created under a fresh identifier,
      published, handled by the inventory service and answered back ends
      Confirmed exactly when every entry was in stock, with nothing else in
      the order table changed. */
  lemma CreateProcessApply(orders: map<OrderId, Order>, stock: Inventory.Stock, id: OrderId, items: seq<ItemId>)
    requires id !in orders
    ensures var order := Order(id, items, Pending);
            var created := orders[id := order];
            var (answer, _) := Inventory.Process(stock, order);
            var final := ApplyResult(created, answer);
            && answer.orderId == id
            && final.Keys == orders.Keys + {id}
            && final[id] == Order(id, items, if Inventory.AllInStock(stock, items) then Confirmed else OutOfStock)
            && forall other :: other in orders ==> final[other] == orders[other]
  {
  }
}
