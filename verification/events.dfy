/** The records the order service and the inventory service exchange over
    the broker's two topics, `orders-topic` and `inventory-topic`. The broker
    itself and the JSON encoding are not modelled: a message is its key and
    its decoded value. */
module OrderEvents {

  type OrderId = string
  type ItemId = string

  /** The status an order carries. It starts as Pending; the inventory
      service answers Confirmed or OutOfStock. */
  datatype Status = Pending | Confirmed | OutOfStock

  /** An order as the order service stores it and publishes it on
      `orders-topic`: `{orderId, items, status}`. Each entry of `items`
      asks for one unit of that item. */
  datatype Order = Order(orderId: OrderId, items: seq<ItemId>, status: Status)

  /** The inventory service's answer on `inventory-topic`: `{orderId, status}`. */
  datatype InventoryResult = InventoryResult(orderId: OrderId, status: Status)

  /** A broker message: the partition key and the value. */
  datatype Message<+V> = Message(key: OrderId, value: V)
}
