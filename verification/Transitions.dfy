/**
  Every atomic transaction of the system as one step of a trace. Concurrent
  requests and the sweep's per-hold transactions serialise on row locks, so
  any concurrent history is some interleaving of these steps; in particular
  the sweep racing conversion is a trace in which `ReleaseStep`s for the
  sweep's snapshot candidates are interleaved with other calls.
 */
module Transitions {
  import opened Store
  import opened Conservation
  import opened FlashSaleService
  import opened ReleaseExpiredHolds

  datatype Op =
    | CreateHoldCall(productId: Id, quantity: int, token: string, now: int)
    | ConvertCall(holdId: Id, now: int)
    | WebhookCall(webhookId: string, orderId: Id, status: PaymentStatus, payload: Option<string>)
    | ReleaseStep(holdId: Id, now: int, fault: bool)

  /**
    The state after one step. A hold request with a quantity below one is
    refused at the endpoint before the service is reached.
   */
  function Apply(s: State, op: Op): State {
    match op
    case CreateHoldCall(productId, quantity, token, now) =>
      if quantity < 1 then s else After(s, CreateHold(s, productId, quantity, token, now))
    case ConvertCall(holdId, now) => After(s, ConvertHoldToOrder(s, holdId, now))
    case WebhookCall(webhookId, orderId, status, payload) =>
      After(s, ProcessPaymentWebhook(s, webhookId, orderId, status, payload))
    case ReleaseStep(holdId, now, fault) => After(s, ReleaseHold(s, holdId, now, fault))
  }

  /** The state after a whole trace. */
  function Run(s: State, ops: seq<Op>): State
    decreases |ops|
  {
    if |ops| == 0 then s else Run(Apply(s, ops[0]), ops[1..])
  }

  lemma ApplyPreservesInv(s: State, op: Op)
    requires Inv(s)
    ensures Inv(Apply(s, op))
  {
    match op
    case CreateHoldCall(productId, quantity, token, now) =>
      if quantity >= 1 && CreateHold(s, productId, quantity, token, now).Ok? {
        CreateHoldPreservesInv(s, productId, quantity, token, now);
      }
    case ConvertCall(holdId, now) =>
      if ConvertHoldToOrder(s, holdId, now).Ok? {
        ConvertHoldToOrderPreservesInv(s, holdId, now);
      }
    case WebhookCall(webhookId, orderId, status, payload) =>
      if ProcessPaymentWebhook(s, webhookId, orderId, status, payload).Ok? {
        ProcessPaymentWebhookPreservesInv(s, webhookId, orderId, status, payload);
      }
    case ReleaseStep(holdId, now, fault) =>
      if ReleaseHold(s, holdId, now, fault).Ok? {
        ReleaseHoldPreservesInv(s, holdId, now, fault);
      }
  }

  /** Conservation, and with it `0 <= stockRemaining <= totalStock`, holds after every trace. */
  lemma {:induction false} RunPreservesInv(s: State, ops: seq<Op>)
    requires Inv(s)
    ensures Inv(Run(s, ops))
    decreases |ops|
  {
    if |ops| > 0 {
      ApplyPreservesInv(s, ops[0]);
      RunPreservesInv(Apply(s, ops[0]), ops[1..]);
    }
  }

  lemma {:induction false} RunAppend(s: State, a: seq<Op>, b: seq<Op>)
    ensures Run(s, a + b) == Run(Run(s, a), b)
    decreases |a|
  {
    if |a| > 0 {
      assert (a + b)[0] == a[0];
      assert (a + b)[1..] == a[1..] + b;
      RunAppend(Apply(s, a[0]), a[1..], b);
    } else {
      assert a + b == b;
    }
  }

  /**
    Rows are never deleted, and a settled row never changes again: a hold
    that is expired or converted, an order that is paid or cancelled.
   */
  predicate SettledRowsKept(s: State, s': State) {
    && s.holds.Keys <= s'.holds.Keys
    && s.orders.Keys <= s'.orders.Keys
    && (forall id :: id in s.holds && s.holds[id].status != Active ==> s'.holds[id] == s.holds[id])
    && (forall id :: id in s.orders && s.orders[id].status != PendingPayment ==> s'.orders[id] == s.orders[id])
  }

  lemma ApplyKeepsSettledRows(s: State, op: Op)
    requires WellFormed(s)
    ensures SettledRowsKept(s, Apply(s, op))
  {
  }

  /**
    What one step may do to an existing hold: nothing, or move an active
    hold to converted (conversion only) or to expired (release only).
   */
  lemma ApplyHoldTransitions(s: State, op: Op, id: Id)
    requires WellFormed(s) && id in s.holds
    ensures id in Apply(s, op).holds
    ensures var h, h' := s.holds[id], Apply(s, op).holds[id];
      || h' == h
      || (op.ConvertCall? && h.status == Active && h' == h.(status := Converted))
      || (op.ReleaseStep? && h.status == Active && h' == h.(status := Expired))
  {
  }

  lemma {:induction false} RunKeepsSettledRows(s: State, ops: seq<Op>)
    requires Inv(s)
    ensures SettledRowsKept(s, Run(s, ops))
    decreases |ops|
  {
    if |ops| > 0 {
      var s1 := Apply(s, ops[0]);
      ApplyKeepsSettledRows(s, ops[0]);
      ApplyPreservesInv(s, ops[0]);
      RunKeepsSettledRows(s1, ops[1..]);
    }
  }

  /**
    However conversion and the sweep interleave, a hold that is converted at
    one point of a trace is never expired at any other point, and the other
    way round.
   */
  lemma NeverBothExpiredAndConverted(s: State, ops: seq<Op>, id: Id, i: nat, j: nat)
    requires Inv(s)
    requires i <= |ops| && j <= |ops|
    requires id in Run(s, ops[..i]).holds && Run(s, ops[..i]).holds[id].status == Converted
    requires id in Run(s, ops[..j]).holds
    ensures Run(s, ops[..j]).holds[id].status != Expired
  {
    if i <= j {
      assert ops[..j] == ops[..i] + ops[i..j];
      RunAppend(s, ops[..i], ops[i..j]);
      RunPreservesInv(s, ops[..i]);
      RunKeepsSettledRows(Run(s, ops[..i]), ops[i..j]);
    } else {
      assert ops[..i] == ops[..j] + ops[j..i];
      RunAppend(s, ops[..j], ops[j..i]);
      RunPreservesInv(s, ops[..j]);
      RunKeepsSettledRows(Run(s, ops[..j]), ops[j..i]);
    }
  }
}
