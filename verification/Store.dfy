/**
  The persisted rows of the flash-sale system: products, holds, orders and
  payment logs, together with the result types every atomic operation uses.
  A `State` is one committed snapshot of the four tables.
 */
module Store {

  type Id = nat

  /** Time-to-live of a hold, in seconds: holds expire two minutes after creation. */
  const HoldTtl: int := 120

  datatype Option<+T> = None | Some(value: T)

  datatype HoldStatus = Active | Expired | Converted

  datatype OrderStatus = PendingPayment | Paid | Cancelled

  /** The outcome a payment notifier may report; the webhook endpoint admits no other value. */
  datatype PaymentStatus = Success | Failure

  datatype Product = Product(id: Id, name: string, price: int, totalStock: int, stockRemaining: int)

  datatype Hold = Hold(id: Id, productId: Id, quantity: nat, token: string, expiresAt: int, status: HoldStatus)

  datatype Order = Order(id: Id, holdId: Id, productId: Id, quantity: nat, status: OrderStatus)

  /** `payload` is carried through untouched; its contents play no part in settlement. */
  datatype PaymentLog = PaymentLog(id: Id, webhookId: string, orderId: Id, status: PaymentStatus, payload: Option<string>)

  /**
    One committed snapshot of the store. `nextHoldId` and `nextOrderId` are the
    auto-increment counters of the holds and orders tables; a payment log's id
    is its position in the append-only `logs`.
   */
  datatype State = State(
    products: map<Id, Product>,
    holds: map<Id, Hold>,
    orders: map<Id, Order>,
    logs: seq<PaymentLog>,
    nextHoldId: Id,
    nextOrderId: Id)

  /** Every business-rule failure the operations raise, plus a failed transaction. */
  datatype Error =
    | ProductNotFound
    | InsufficientStock
    | HoldNotFound
    | HoldNotActive
    | HoldExpired
    | OrderNotFound
    | TransactionFailed

  datatype Result<+T> = Ok(value: T) | Err(error: Error)

  /**
    What a committed transaction yields: its return value and the new state.
    A transaction that raises yields `Err` instead and the caller keeps the
    state it had, which is how a rollback is modelled.
   */
  datatype Committed<+T> = Committed(value: T, state: State)

  /** The state after a transaction: the committed one, or the old one after a rollback. */
  function After<T>(s: State, r: Result<Committed<T>>): State {
    if r.Ok? then r.value.state else s
  }

  /** No two payment logs share an idempotency key. */
  predicate UniqueWebhookIds(logs: seq<PaymentLog>) {
    forall i, j :: 0 <= i < j < |logs| ==> logs[i].webhookId != logs[j].webhookId
  }

  /** Row ids agree with their keys, and every hold and order id lies below its table's counter. */
  predicate WellFormed(s: State) {
    && (forall pid :: pid in s.products ==> s.products[pid].id == pid)
    && (forall hid :: hid in s.holds ==> hid < s.nextHoldId && s.holds[hid].id == hid)
    && (forall oid :: oid in s.orders ==> oid < s.nextOrderId && s.orders[oid].id == oid)
    && (forall i :: 0 <= i < |s.logs| ==> s.logs[i].id == i)
    && UniqueWebhookIds(s.logs)
  }

  /**
    Every order was made from a converted hold whose product and quantity it
    copies, and no hold backs two orders.
   */
  predicate OrdersTrackHolds(s: State) {
    && (forall oid :: oid in s.orders ==>
          var o := s.orders[oid];
          && o.holdId in s.holds
          && s.holds[o.holdId].status == Converted
          && s.holds[o.holdId].productId == o.productId
          && s.holds[o.holdId].quantity == o.quantity)
    && (forall o1, o2 :: o1 in s.orders && o2 in s.orders && o1 != o2 ==>
          s.orders[o1].holdId != s.orders[o2].holdId)
  }
}
