/**
  Stock conservation: for every product, the stock still on sale, the stock
  reserved by active holds and the stock owned by live (pending or paid)
  orders add up to the product's total stock.
 */
module Conservation {
  import opened Store
  import opened Tally

  /** How much of product `pid` a hold reserves: its quantity while it is active. */
  function HoldWeight(pid: Id): Hold -> nat {
    (h: Hold) => if h.status == Active && h.productId == pid then h.quantity else 0
  }

  /** How much of product `pid` an order owns: its quantity unless it was cancelled. */
  function OrderWeight(pid: Id): Order -> nat {
    (o: Order) => if o.status != Cancelled && o.productId == pid then o.quantity else 0
  }

  /** Stock of `pid` reserved by active holds. */
  function Reserved(s: State, pid: Id): nat {
    SumBelow(s.holds, HoldWeight(pid), s.nextHoldId)
  }

  /** Stock of `pid` owned by orders awaiting payment or paid. */
  function Sold(s: State, pid: Id): nat {
    SumBelow(s.orders, OrderWeight(pid), s.nextOrderId)
  }

  predicate Balanced(s: State, pid: Id)
    requires pid in s.products
  {
    var p := s.products[pid];
    && 0 <= p.stockRemaining
    && p.stockRemaining + Reserved(s, pid) + Sold(s, pid) == p.totalStock
  }

  /** The invariant every committed state satisfies. */
  predicate Inv(s: State) {
    && WellFormed(s)
    && OrdersTrackHolds(s)
    && (forall pid :: pid in s.products ==> Balanced(s, pid))
  }

  /** Conservation bounds the stock on sale and what holds and orders account for. */
  lemma StockWithinTotal(s: State, pid: Id)
    requires Inv(s) && pid in s.products
    ensures 0 <= s.products[pid].stockRemaining <= s.products[pid].totalStock
    ensures Reserved(s, pid) + Sold(s, pid) <= s.products[pid].totalStock
  {
  }

  /** A store whose catalogue has just been loaded: no holds, orders or logs yet. */
  function Opening(products: map<Id, Product>): State {
    State(products, map[], map[], [], 0, 0)
  }

  /** A catalogue whose every product starts with all of its stock on sale satisfies the invariant. */
  lemma OpeningInv(products: map<Id, Product>)
    requires forall pid :: pid in products ==>
      products[pid].id == pid && 0 <= products[pid].stockRemaining == products[pid].totalStock
    ensures Inv(Opening(products))
  {
  }
}
