/**
  The three request-driven transactions of the flash sale — reserving stock,
  turning a reservation into an order, settling an order from a payment
  notification — and the stock read. Each transaction is one atomic step:
  `Ok` carries the committed state, `Err` rolls everything back.
 */
module FlashSaleService {
  import opened Store
  import opened Tally
  import opened Conservation

  /** What a caller learns about a new hold. */
  datatype HoldReceipt = HoldReceipt(holdId: Id, token: string, expiresAt: int)

  /** The live stock of a product, as the product endpoint reports it. */
  function GetAvailableStock(s: State, productId: Id): (r: Result<int>)
    ensures r.Err? <==> productId !in s.products
    ensures r.Ok? ==> r.value == s.products[productId].stockRemaining
    ensures r.Ok? && Inv(s) ==> 0 <= r.value <= s.products[productId].totalStock
  {
    if productId !in s.products then Err(ProductNotFound)
    else
      assert Inv(s) ==> Balanced(s, productId);
      Ok(s.products[productId].stockRemaining)
  }

  // ---------------------------------------------------------------------------
  // createHold
  // ---------------------------------------------------------------------------

  /**
    Reserve `quantity` units of a product under its row lock. `token` is the
    fresh opaque identifier handed to the caller and `now` the clock reading.
   */
  function CreateHold(s: State, productId: Id, quantity: int, token: string, now: int): (r: Result<Committed<HoldReceipt>>)
    requires quantity >= 1
    ensures r.Ok? <==> productId in s.products && quantity <= s.products[productId].stockRemaining
    ensures r == Err(ProductNotFound) <==> productId !in s.products
    ensures r == Err(InsufficientStock) <==>
      productId in s.products && s.products[productId].stockRemaining < quantity
    ensures r.Ok? ==>
      var id := s.nextHoldId;
      var s' := r.value.state;
      var p := s.products[productId];
      && r.value.value == HoldReceipt(id, token, now + HoldTtl)
      && s'.products == s.products[productId := p.(stockRemaining := p.stockRemaining - quantity)]
      && s'.holds == s.holds[id := Hold(id, productId, quantity, token, now + HoldTtl, Active)]
      && (WellFormed(s) ==> id !in s.holds)
      && s'.orders == s.orders && s'.logs == s.logs
      && s'.nextHoldId == id + 1 && s'.nextOrderId == s.nextOrderId
  {
    if productId !in s.products then Err(ProductNotFound)
    else
      var p := s.products[productId];
      if p.stockRemaining < quantity then Err(InsufficientStock)
      else
        var id := s.nextHoldId;
        var expiresAt := now + HoldTtl;
        var hold := Hold(id, productId, quantity, token, expiresAt, Active);
        Ok(Committed(
          HoldReceipt(id, token, expiresAt),
          s.(products := s.products[productId := p.(stockRemaining := p.stockRemaining - quantity)],
             holds := s.holds[id := hold],
             nextHoldId := id + 1)))
  }

  lemma CreateHoldPreservesInv(s: State, productId: Id, quantity: int, token: string, now: int)
    requires Inv(s) && quantity >= 1
    requires CreateHold(s, productId, quantity, token, now).Ok?
    ensures Inv(CreateHold(s, productId, quantity, token, now).value.state)
  {
    var s' := CreateHold(s, productId, quantity, token, now).value.state;
    var id := s.nextHoldId;
    var h := s'.holds[id];
    forall q | q in s'.products
      ensures Balanced(s', q)
    {
      assert Balanced(s, q);
      SumBelowIgnoresAbove(s.holds, HoldWeight(q), id, id, h);
      assert Reserved(s', q) == Reserved(s, q) + HoldWeight(q)(h);
      assert Sold(s', q) == Sold(s, q);
    }
  }

  // ---------------------------------------------------------------------------
  // convertHoldToOrder
  // ---------------------------------------------------------------------------

  /**
    Turn an active, unexpired hold into an order awaiting payment, under the
    hold's row lock. The hold counts as past its expiry only strictly after
    `expiresAt`. Stock is not touched: the order takes over the hold's share.
   */
  function ConvertHoldToOrder(s: State, holdId: Id, now: int): (r: Result<Committed<Order>>)
    ensures r.Ok? <==>
      holdId in s.holds && s.holds[holdId].status == Active && now <= s.holds[holdId].expiresAt
    ensures r == Err(HoldNotFound) <==> holdId !in s.holds
    ensures r == Err(HoldNotActive) <==> holdId in s.holds && s.holds[holdId].status != Active
    ensures r == Err(HoldExpired) <==>
      holdId in s.holds && s.holds[holdId].status == Active && s.holds[holdId].expiresAt < now
    ensures r.Ok? ==>
      var h := s.holds[holdId];
      var o := r.value.value;
      var s' := r.value.state;
      && o == Order(s.nextOrderId, holdId, h.productId, h.quantity, PendingPayment)
      && (WellFormed(s) ==> o.id !in s.orders)
      && s'.orders == s.orders[o.id := o]
      && s'.holds == s.holds[holdId := h.(status := Converted)]
      && s'.products == s.products && s'.logs == s.logs
      && s'.nextHoldId == s.nextHoldId && s'.nextOrderId == o.id + 1
  {
    if holdId !in s.holds then Err(HoldNotFound)
    else
      var h := s.holds[holdId];
      if h.status != Active then Err(HoldNotActive)
      else if h.expiresAt < now then Err(HoldExpired)
      else
        var o := Order(s.nextOrderId, holdId, h.productId, h.quantity, PendingPayment);
        Ok(Committed(o, s.(orders := s.orders[o.id := o],
                           holds := s.holds[holdId := h.(status := Converted)],
                           nextOrderId := o.id + 1)))
  }

  lemma ConvertHoldToOrderPreservesInv(s: State, holdId: Id, now: int)
    requires Inv(s)
    requires ConvertHoldToOrder(s, holdId, now).Ok?
    ensures Inv(ConvertHoldToOrder(s, holdId, now).value.state)
  {
    var c := ConvertHoldToOrder(s, holdId, now).value;
    var s', o := c.state, c.value;
    var h := s.holds[holdId];
    var h' := s'.holds[holdId];
    forall oid | oid in s.orders
      ensures s.orders[oid].holdId != holdId
    {
    }
    assert OrdersTrackHolds(s');
    forall q | q in s'.products
      ensures Balanced(s', q)
    {
      assert Balanced(s, q);
      SumBelowUpdate(s.holds, HoldWeight(q), s.nextHoldId, holdId, h');
      SumBelowIgnoresAbove(s.orders, OrderWeight(q), o.id, o.id, o);
      assert Sold(s', q) == Sold(s, q) + OrderWeight(q)(o);
      assert Reserved(s', q) + HoldWeight(q)(h) == Reserved(s, q);
    }
  }

  // ---------------------------------------------------------------------------
  // processPaymentWebhook
  // ---------------------------------------------------------------------------

  /** The first payment log carrying the idempotency key `webhookId`, if any. */
  function FindLog(logs: seq<PaymentLog>, webhookId: string): (r: Option<PaymentLog>)
    ensures r.None? <==> forall i :: 0 <= i < |logs| ==> logs[i].webhookId != webhookId
    ensures r.Some? ==>
      && r.value.webhookId == webhookId
      && exists i :: 0 <= i < |logs| && logs[i] == r.value && forall j :: 0 <= j < i ==> logs[j].webhookId != webhookId
  {
    if |logs| == 0 then None
    else if logs[0].webhookId == webhookId then Some(logs[0])
    else
      var r := FindLog(logs[1..], webhookId);
      assert forall i :: 1 <= i < |logs| ==> logs[i] == logs[1..][i - 1];
      r
  }

  /** True when no log with this idempotency key exists yet. */
  predicate FirstDelivery(s: State, webhookId: string) {
    FindLog(s.logs, webhookId).None?
  }

  /**
    Settle an order from a payment notification. A key already logged returns
    the stored log and changes nothing. Otherwise, under the order's row lock,
    `Success` pays a pending order, `Failure` cancels a pending order and
    returns its quantity to the product, a settled order is left as it is,
    and exactly one log recording the notification is appended.
   */
  function ProcessPaymentWebhook(s: State, webhookId: string, orderId: Id, status: PaymentStatus, payload: Option<string>)
    : (r: Result<Committed<PaymentLog>>)
    ensures !FirstDelivery(s, webhookId) ==> r == Ok(Committed(FindLog(s.logs, webhookId).value, s))
    ensures r == Err(OrderNotFound) <==> FirstDelivery(s, webhookId) && orderId !in s.orders
    ensures r == Err(ProductNotFound) <==>
      && FirstDelivery(s, webhookId) && orderId in s.orders
      && s.orders[orderId].status == PendingPayment && status == Failure
      && s.orders[orderId].productId !in s.products
    ensures r.Err? ==> r == Err(OrderNotFound) || r == Err(ProductNotFound)
    ensures r.Ok? && FirstDelivery(s, webhookId) ==>
      var log := PaymentLog(|s.logs|, webhookId, orderId, status, payload);
      && r.value.value == log
      && r.value.state.logs == s.logs + [log]
      && r.value.state.holds == s.holds
      && r.value.state.nextHoldId == s.nextHoldId && r.value.state.nextOrderId == s.nextOrderId
    ensures r.Ok? && FirstDelivery(s, webhookId) && s.orders[orderId].status != PendingPayment ==>
      r.value.state.orders == s.orders && r.value.state.products == s.products
    ensures r.Ok? && FirstDelivery(s, webhookId) && s.orders[orderId].status == PendingPayment && status == Success ==>
      && r.value.state.orders == s.orders[orderId := s.orders[orderId].(status := Paid)]
      && r.value.state.products == s.products
    ensures r.Ok? && FirstDelivery(s, webhookId) && s.orders[orderId].status == PendingPayment && status == Failure ==>
      var o := s.orders[orderId];
      var p := s.products[o.productId];
      && r.value.state.orders == s.orders[orderId := o.(status := Cancelled)]
      && r.value.state.products == s.products[o.productId := p.(stockRemaining := p.stockRemaining + o.quantity)]
  {
    match FindLog(s.logs, webhookId)
    case Some(existing) => Ok(Committed(existing, s))
    case None =>
      if orderId !in s.orders then Err(OrderNotFound)
      else
        var o := s.orders[orderId];
        var log := PaymentLog(|s.logs|, webhookId, orderId, status, payload);
        var logged := s.(logs := s.logs + [log]);
        if status == Success then
          if o.status == PendingPayment then
            Ok(Committed(log, logged.(orders := s.orders[orderId := o.(status := Paid)])))
          else
            Ok(Committed(log, logged))
        else if o.status == PendingPayment then
          assert status == Failure;
          if o.productId !in s.products then Err(ProductNotFound)
          else
            var p := s.products[o.productId];
            Ok(Committed(log, logged.(
              orders := s.orders[orderId := o.(status := Cancelled)],
              products := s.products[o.productId := p.(stockRemaining := p.stockRemaining + o.quantity)])))
        else
          Ok(Committed(log, logged))
  }

  lemma ProcessPaymentWebhookPreservesInv(s: State, webhookId: string, orderId: Id, status: PaymentStatus, payload: Option<string>)
    requires Inv(s)
    requires ProcessPaymentWebhook(s, webhookId, orderId, status, payload).Ok?
    ensures Inv(ProcessPaymentWebhook(s, webhookId, orderId, status, payload).value.state)
  {
    if FirstDelivery(s, webhookId) {
      var s' := ProcessPaymentWebhook(s, webhookId, orderId, status, payload).value.state;
      var o := s.orders[orderId];
      var o' := s'.orders[orderId];
      assert UniqueWebhookIds(s'.logs) by {
        forall i, j | 0 <= i < j < |s'.logs|
          ensures s'.logs[i].webhookId != s'.logs[j].webhookId
        {
          if j == |s.logs| {
            assert s.logs[i].webhookId != webhookId;
          } else {
            assert s'.logs[i] == s.logs[i] && s'.logs[j] == s.logs[j];
          }
        }
      }
      assert WellFormed(s');
      assert OrdersTrackHolds(s');
      forall q | q in s'.products
        ensures Balanced(s', q)
      {
        assert Balanced(s, q);
        SumBelowUpdate(s.orders, OrderWeight(q), s.nextOrderId, orderId, o');
        assert Reserved(s', q) == Reserved(s, q);
        assert Sold(s', q) + OrderWeight(q)(o) == Sold(s, q) + OrderWeight(q)(o');
      }
    }
  }

  /**
    Replaying a notification returns the very log the first delivery produced
    and changes nothing, whatever order and outcome the replay carries.
   */
  lemma WebhookReplayReturnsStoredLog(
    s: State, webhookId: string,
    orderId: Id, status: PaymentStatus, payload: Option<string>,
    orderId2: Id, status2: PaymentStatus, payload2: Option<string>)
    requires ProcessPaymentWebhook(s, webhookId, orderId, status, payload).Ok?
    ensures
      var first := ProcessPaymentWebhook(s, webhookId, orderId, status, payload).value;
      ProcessPaymentWebhook(first.state, webhookId, orderId2, status2, payload2) == Ok(Committed(first.value, first.state))
  {
    var first := ProcessPaymentWebhook(s, webhookId, orderId, status, payload).value;
    if FirstDelivery(s, webhookId) {
      var found := FindLog(first.state.logs, webhookId);
      assert first.state.logs[|s.logs|] == first.value;
      assert found.Some?;
      var i :| 0 <= i < |first.state.logs| && first.state.logs[i] == found.value
        && forall j :: 0 <= j < i ==> first.state.logs[j].webhookId != webhookId;
      assert forall j :: 0 <= j < |s.logs| ==> first.state.logs[j] == s.logs[j];
    }
  }
}
