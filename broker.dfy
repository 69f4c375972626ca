/**
 * The message-broker vocabulary shared by the resolvers and the consumer:
 * topic names (config.py), event payloads, and the steps an operation takes
 * against the database and the broker, in the order it takes them.
 */
module Broker {
  const ProductCreatedQueue: string := "product.created"
  const InventoryUpdatedQueue: string := "inventory.updated"
  const OrderPlacedKey: string := "order.placed"

  /** One entry `{product_id, quantity}` of the consumer's aggregate event; `quantity` is the new stock. */
  datatype StockEntry = StockEntry(productId: int, quantity: int)

  datatype Payload =
    | ProductCreated(id: int, name: string, price: real, quantity: int)
    | InventoryUpdated(productId: int, newStock: int)
    | InventoryBatch(entries: seq<StockEntry>)

  datatype Event = Event(routingKey: string, payload: Payload)

  /** An externally visible step: a publish (sent or failed), a commit (done or failed), or a session rollback. */
  datatype Step =
    | Published(event: Event)
    | PublishFailed(event: Event)
    | Committed
    | CommitFailed
    | RolledBack

  /** The events that actually reached the broker, in the order they were sent. */
  function Events(steps: seq<Step>): (r: seq<Event>)
    ensures |r| <= |steps|
    ensures forall e :: e in r <==> Published(e) in steps
  {
    if steps == [] then []
    else (if steps[0].Published? then [steps[0].event] else []) + Events(steps[1..])
  }

  lemma {:induction false} EventsAppend(a: seq<Step>, b: seq<Step>)
    ensures Events(a + b) == Events(a) + Events(b)
  {
    if a == [] {
      assert a + b == b;
    } else {
      assert (a + b)[1..] == a[1..] + b;
      EventsAppend(a[1..], b);
    }
  }

  /** Every successful commit comes after a successful publish. */
  predicate PublishPrecedesCommit(steps: seq<Step>) {
    forall k | 0 <= k < |steps| && steps[k].Committed? :: exists j | 0 <= j < k :: steps[j].Published?
  }

  /** Every successful publish comes after a successful commit. */
  predicate CommitPrecedesPublish(steps: seq<Step>) {
    forall k | 0 <= k < |steps| && steps[k].Published? :: exists j | 0 <= j < k :: steps[j].Committed?
  }
}
