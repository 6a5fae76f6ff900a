# Flash-sale inventory consistency core, in Dafny

This project models the consistency core of a flash-sale inventory service.
The service keeps four tables: products, holds (time-limited stock
reservations), orders and payment logs. Four atomic transactions change them:

- `createHold` reserves stock under the product's row lock;
- `convertHoldToOrder` turns an active, unexpired hold into an order awaiting payment;
- `processPaymentWebhook` settles an order from a payment notification, idempotently on the notification's `webhook_id`;
- the `holds:release-expired` sweep expires overdue holds and returns their stock.

Each transaction is a pure function from a `State` to
`Result<Committed<T>>`. `Ok` carries the return value and the committed
state. `Err` is a rollback: the caller keeps the state it had. Statuses are
closed enumerations. Time is an integer clock in seconds, and a hold lives
for `HoldTtl` = 120 seconds.

The central property is stock conservation, per product:

    stockRemaining + Σ quantity of active holds + Σ quantity of pending/paid orders == totalStock

It is part of `Conservation.Inv`, together with three other facts:

- row ids agree with their keys and lie below the auto-increment counters;
- webhook ids are unique across logs;
- every order copies a converted hold, and no hold backs two orders.

Every transaction preserves `Inv`, and so does every trace of transactions.

Real concurrency is not modelled. Concurrent requests and the sweep's
per-hold transactions serialise on row locks, so a concurrent history is
some interleaving of atomic steps (`Transitions.Op`). The race between
conversion and the sweep is one such trace: the sweep selects its
candidates from a snapshot, and each per-hold step re-reads the current
state.

Modules: `Store` (rows, results), `Tally` (range sums over id-keyed tables),
`Conservation`, `FlashSaleService`, `ReleaseExpiredHolds`, `Transitions`,
`Scenarios`.

Points where the model follows the code closely and a reader might expect otherwise:

- The sweep's re-check under lock skips a hold only when `expires_at > now`. A hold that expires exactly at the re-check instant is still released, while selection needs `expires_at < now`.
- The sweep's reported count includes holds skipped by the re-check, not only the holds it released (`SweepFromFailedExactly`).
- If the hold's product row is missing, the sweep still marks the hold expired, changes no stock, and counts it. It is not a per-hold failure.
- The service treats every status other than `success` as a failure. The webhook endpoint admits only `success` and `failure`, so `PaymentStatus` has exactly those two values.

## Model

| member | source | states |
|---|---|---|
| `FlashSaleService.GetAvailableStock` | app/Services/FlashSaleService.php:14-19 | Returns the product's live `stockRemaining`, or `ProductNotFound` exactly when the product is missing. Under the invariant the value lies in `[0, totalStock]`. |
| `FlashSaleService.CreateHold` | app/Services/FlashSaleService.php:21-54 | Fails with `ProductNotFound` exactly when the product is missing, and with `InsufficientStock` exactly when `stockRemaining < quantity`; otherwise it succeeds. On success stock drops by exactly `quantity`, and one new hold is added under a fresh id. That hold is `Active`, carries the same product, quantity and token, and expires at `now + 120`. The receipt returns that id, token and expiry. Orders, logs and other products are unchanged. |
| `FlashSaleService.CreateHoldPreservesInv` | app/Services/FlashSaleService.php:36-46 | A successful hold keeps conservation, well-formedness and order/hold tracking. |
| `FlashSaleService.ConvertHoldToOrder` | app/Services/FlashSaleService.php:56-87 | Fails with `HoldNotFound`, `HoldNotActive` or `HoldExpired` exactly when the hold is missing, not active, or strictly past `expiresAt`; otherwise it succeeds. On success a fresh `PendingPayment` order copies the hold's id, product and quantity, and the hold becomes `Converted`. Products and logs are unchanged. |
| `FlashSaleService.ConvertHoldToOrderPreservesInv` | app/Services/FlashSaleService.php:73-83 | Conversion moves the reserved quantity from the hold to the order and keeps the invariant. The new order is the only one backed by its hold. |
| `FlashSaleService.FindLog` | app/Services/FlashSaleService.php:93 | Finds a log carrying the key exactly when one exists, and the log found is the first one that carries that key. |
| `FlashSaleService.ProcessPaymentWebhook` | app/Services/FlashSaleService.php:89-128 | A key already logged returns the stored log with the state unchanged, whatever order and status the call carries. A missing order gives `OrderNotFound` and appends no log. `Success` on a pending order sets `Paid` and leaves products unchanged. `Failure` on a pending order sets `Cancelled` and adds exactly the order's quantity to its product; if that product row is missing, the call rolls back. A settled order is left unchanged. No other error is possible, so every other first delivery commits: it appends exactly one log with the given key, order and status, and returns it. |
| `FlashSaleService.ProcessPaymentWebhookPreservesInv` | app/Services/FlashSaleService.php:103-126 | Settlement keeps conservation, keeps webhook ids unique, and keeps orders tied to their holds. |
| `FlashSaleService.WebhookReplayReturnsStoredLog` | app/Services/FlashSaleService.php:92-96 | After any successful call, replaying its key returns the identical log and changes nothing, even with a different order or status. |
| `ReleaseExpiredHolds.CandidatesFrom` | app/Console/Commands/ReleaseExpiredHolds.php:31-33 | Lists, in strictly ascending id order, exactly the holds from `from` upward that are `Active` with `expiresAt < now`. |
| `ReleaseExpiredHolds.Candidates` | app/Console/Commands/ReleaseExpiredHolds.php:31-32 | Every selected id is an active hold strictly past expiry, and ids ascend. In a well-formed state, every such hold is selected. |
| `ReleaseExpiredHolds.ReleaseHold` | app/Console/Commands/ReleaseExpiredHolds.php:36-54 | One per-hold transaction. It raises (and rolls back) exactly on a fault or a missing hold row. It skips with no change exactly when the hold is not `Active` or `expiresAt > now`. Otherwise it sets the hold `Expired` and adds its quantity to its product's stock; if the product is gone, stock is left alone. |
| `ReleaseExpiredHolds.ReleaseHoldPreservesInv` | app/Console/Commands/ReleaseExpiredHolds.php:44-53 | Releasing a hold returns its reservation to the product and keeps the invariant. |
| `ReleaseExpiredHolds.SweepFrom` | app/Console/Commands/ReleaseExpiredHolds.php:33-60 | The count of steps that did not raise, plus the number of failed ids, equals the number of candidates. Every failed id is a candidate. Which ids fail, and so that re-check skips are counted, is stated by `SweepFromFailedExactly`. |
| `ReleaseExpiredHolds.SweepFromFailedExactly` | app/Console/Commands/ReleaseExpiredHolds.php:38-58 | Over any list run from any state, an id is reported as failed exactly when it is marked as faulting or its hold row is missing. Every other step is counted, including a hold the re-check skips because it is no longer active or not yet expired. |
| `ReleaseExpiredHolds.SweepFromReleasesOnly` | app/Console/Commands/ReleaseExpiredHolds.php:38-53 | A sweep only moves active holds to expired and only raises stock. Orders, logs, counters and all other product fields are untouched. |
| `ReleaseExpiredHolds.SweepFromTouchesOnlyCandidates` | app/Console/Commands/ReleaseExpiredHolds.php:38-52 | Holds outside the candidate list, and products with no candidate hold, keep their rows. |
| `ReleaseExpiredHolds.SweepFromPreservesInv` | app/Console/Commands/ReleaseExpiredHolds.php:33-60 | Any sweep over any candidate list keeps the invariant, whatever the list. |
| `ReleaseExpiredHolds.SweepFromCandidates` | app/Console/Commands/ReleaseExpiredHolds.php:35-58 | Over distinct candidates, exactly the faulting ones are reported as failed. Each of those stays `Active`, and every other candidate ends `Expired`, so a failure never stops the rest. |
| `ReleaseExpiredHolds.SweepLeavesOnlyFailedCandidates` | app/Console/Commands/ReleaseExpiredHolds.php:31-55 | After a sweep, the holds still selectable at the same `now` are exactly the holds whose step failed. |
| `ReleaseExpiredHolds.SweepTwiceIsIdle` | app/Console/Commands/ReleaseExpiredHolds.php:31-42 | If no step failed, a second sweep at the same `now` counts nothing and changes nothing. |
| `ReleaseExpiredHolds.SweepReturnsReservedStock` | app/Console/Commands/ReleaseExpiredHolds.php:48-53 | A sweep keeps the invariant. Each product's stock rises by exactly the reservation its released holds gave up. |
| `ReleaseExpiredHolds.ReleaseEach` | app/Console/Commands/ReleaseExpiredHolds.php:34-59 | The loop over the candidates computes the same count, failure list and state as `SweepFrom`. |
| `ReleaseExpiredHolds.Handle` | app/Console/Commands/ReleaseExpiredHolds.php:26-63 | The command selects once and releases one by one. It reports `count + |failed| == |candidates|`, so `0 <= count <= |candidates|`, and it keeps the invariant. |
| `Conservation.StockWithinTotal` | app/Services/FlashSaleService.php:31-36 | Under the invariant `0 <= stockRemaining <= totalStock`, and active holds plus live orders never exceed the total. |
| `Conservation.OpeningInv` | database/seeders/ProductSeeder.php:15-20 | A catalogue whose products start with all their stock on sale satisfies the invariant. |
| `Transitions.ApplyPreservesInv` | app/Services/FlashSaleService.php:23-127 | Every atomic step keeps the invariant. A hold request with `qty < 1` is refused before it reaches the service. |
| `Transitions.RunPreservesInv` | app/Services/FlashSaleService.php:36-117 | Every interleaving of holds, conversions, webhooks and per-hold release steps keeps conservation. |
| `Transitions.ApplyKeepsSettledRows` | app/Services/FlashSaleService.php:65-67 | No step deletes a hold or an order. No step changes a hold that is not `Active` or an order that is not `PendingPayment`. |
| `Transitions.ApplyHoldTransitions` | app/Console/Commands/ReleaseExpiredHolds.php:40-46 | A step leaves a hold as it was, or moves an `Active` hold to `Converted` (conversion only) or to `Expired` (a release step only). |
| `Transitions.RunKeepsSettledRows` | app/Console/Commands/ReleaseExpiredHolds.php:38-42 | Along any trace, rows persist and settled holds and orders never change again. |
| `Transitions.NeverBothExpiredAndConverted` | app/Console/Commands/ReleaseExpiredHolds.php:37-42 | In any trace, a hold that is `Converted` at one point is not `Expired` at any other point. So a hold converted after the sweep's selection is never expired. |
| `Scenarios.HoldBurst` | verify_concurrency.py:43-76 | A burst of one-unit hold requests succeeds exactly `min(requests, stock)` times. That is never more than the total, and the remaining stock is the initial stock minus the successes. |
| `Scenarios.ConcurrencyScript` | verify_concurrency.py:7-8 | 150 one-unit hold requests against the 100/100 product give exactly 100 successes and leave 0 in stock. |
| `Scenarios.SellOutThenReclaim` | app/Console/Commands/ReleaseExpiredHolds.php:31-52 | From 100/100: holding 100 leaves 0 and a further hold of 1 is refused. A sweep at the expiry instant does nothing, and one second later it expires the hold and restores 100. |
| `Scenarios.HoldConvertPayReplay` | app/Services/FlashSaleService.php:92-107 | Hold, convert, then a `success` webhook gives a paid order and no stock change. Replaying the webhook returns the same log. |

## Left out

- HTTP controllers: request parsing and the mapping of errors to 400/201/200 responses are not modelled. Only their validation rules remain: `qty >= 1` (a precondition of `CreateHold`, and a refusal in `Transitions.Apply`) and `status` in `{success, failure}` (the two-valued `PaymentStatus`).
- Database locking, transactions and isolation: each transaction is one atomic step. Deadlock and lock-timeout behaviour is not modelled beyond the sweep's `faults` parameter, which marks the holds whose transaction raises.
- The same-instant duplicate-webhook race: it depends on a uniqueness constraint on `webhook_id` that is not among the modelled files. Steps are serialised, so the model never exhibits it.
- `chunkById(100, …)` batching: the candidate list is one sequence in ascending id order, computed once from the starting state. The command instead re-runs the selection query on the live table for each chunk, with the clock value bound when the query was built. So a hold converted before its chunk is fetched is neither selected nor counted by the command. `ReleaseExpiredHolds.SweepFrom`, run from a later state over a list selected earlier, keeps it in the list, skips it at the re-check and counts it (`SweepFromFailedExactly`), so the model's `count` can be higher than the command's.
- `Str::uuid` token generation: the token is a parameter, treated as an opaque value.
- Payment `payload` contents and JSON casting: the payload is an opaque `Option<string>`.
- Console output: the per-hold error lines and the final info line are modelled only as the `failed` list and the `count`.
- Row timestamps (`created_at`/`updated_at`) and the real wall clock: time is an integer `now` argument in seconds.
- Payment log ids are positions in the append-only log, starting at 0. Table counters are free parameters of the state, where the database starts them at 1.
- The Python concurrency script's threads and HTTP calls: only its oversell check is kept, as `Scenarios.HoldBurst`.
- The Eloquent model files: they only list fields, which became datatype fields.
- A hold row that is missing when the sweep locks it: reading a property of the missing row raises under the framework's error handler, so this is modelled as a failed, uncounted step. No modelled operation deletes rows.
- ReleaseExpiredHolds.Handle: it uses one clock reading for selection and for every re-check, where the command reads the clock again in each step. Expiry times never change and the clock only moves forward, so a selected hold stays past expiry. Release steps with their own clock readings are covered by `Transitions.ReleaseStep` traces.
