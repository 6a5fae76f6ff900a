/**
  The behaviours the system's own checks exercise: a burst of one-unit hold
  requests against one product, selling a product out and reclaiming it
  after expiry, and the hold-to-payment happy path with a replayed webhook.
 */
module Scenarios {
  import opened Store
  import opened Conservation
  import opened FlashSaleService
  import opened ReleaseExpiredHolds

  function Min(a: int, b: int): int {
    if a <= b then a else b
  }

  /**
    A burst of one-unit hold requests against one product. The product's row
    lock serialises them, so they run one after another; `tokens[i]` is the
    token the i-th request draws. Exactly as many succeed as there was stock,
    never more, and the stock left is the initial stock minus the successes.
   */
  method HoldBurst(s: State, productId: Id, tokens: seq<string>, now: int) returns (successes: nat, s': State)
    requires Inv(s) && productId in s.products
    ensures Inv(s') && productId in s'.products
    ensures successes == Min(|tokens|, s.products[productId].stockRemaining)
    ensures successes <= s.products[productId].totalStock
    ensures s'.products[productId].stockRemaining == s.products[productId].stockRemaining - successes
    ensures s'.products[productId].totalStock == s.products[productId].totalStock
  {
    StockWithinTotal(s, productId);
    var initial := s.products[productId].stockRemaining;
    successes, s' := 0, s;
    var i := 0;
    while i < |tokens|
      invariant 0 <= i <= |tokens|
      invariant Inv(s') && productId in s'.products
      invariant successes == Min(i, initial)
      invariant s'.products[productId].stockRemaining == initial - successes
      invariant s'.products[productId].totalStock == s.products[productId].totalStock
    {
      var r := CreateHold(s', productId, 1, tokens[i], now);
      if r.Ok? {
        CreateHoldPreservesInv(s', productId, 1, tokens[i], now);
        successes := successes + 1;
        s' := r.value.state;
      }
      i := i + 1;
    }
  }

  /** The catalogue the sale opens with: one product, 100 units, all on sale. */
  function SaleOpening(): State {
    Opening(map[1 := Product(1, "Flash Sale Item", 10000, 100, 100)])
  }

  /**
    The concurrency script: 150 one-unit hold requests against the 100-unit
    product. Exactly 100 succeed and no stock is left, so nothing is oversold.
   */
  method ConcurrencyScript() returns (successes: nat, remaining: int)
    ensures successes == 100 && remaining == 0
  {
    var opening := SaleOpening();
    OpeningInv(opening.products);
    var s';
    successes, s' := HoldBurst(opening, 1, seq(150, (i: nat) => seq(i + 1, _ => 't')), 0);
    remaining := s'.products[1].stockRemaining;
  }

  /**
    Holding all 100 units empties the stock and a further one-unit hold is
    refused; the sweep does not touch the hold at its expiry instant, and one
    second later expires it and puts the 100 units back on sale.
   */
  lemma SellOutThenReclaim()
    ensures var r1 := CreateHold(SaleOpening(), 1, 100, "first", 0);
      && r1.Ok?
      && r1.value.value.expiresAt == 120
      && r1.value.state.products[1].stockRemaining == 0
      && CreateHold(r1.value.state, 1, 1, "second", 0) == Err(InsufficientStock)
      && Sweep(r1.value.state, 120, {}) == SweepReport(0, [], r1.value.state)
      && var late := Sweep(r1.value.state, 121, {});
         && late.count == 1
         && late.state.holds[0].status == Expired
         && late.state.products[1].stockRemaining == 100
  {
  }

  /**
    A hold converted straight away yields a pending order; a successful
    payment marks it paid without touching stock; replaying the same webhook
    returns the identical log and changes nothing.
   */
  lemma HoldConvertPayReplay()
    ensures var s1 := CreateHold(SaleOpening(), 1, 2, "t", 0).value.state;
      var c := ConvertHoldToOrder(s1, 0, 30);
      && c.Ok? && c.value.value.status == PendingPayment && c.value.value.quantity == 2
      && var paid := ProcessPaymentWebhook(c.value.state, "wh-1", 0, Success, None);
         && paid.Ok?
         && paid.value.state.orders[0].status == Paid
         && paid.value.state.products == c.value.state.products
         && paid.value.state.products[1].stockRemaining == 98
         && ProcessPaymentWebhook(paid.value.state, "wh-1", 0, Failure, None) == Ok(paid.value)
  {
  }
}
