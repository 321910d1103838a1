# Refund ledger — a Dafny model

This project models the refund ledger of the Soroban refund contract
(`contracts/refund/src/lib.rs`). A merchant requests a refund of a
payment. An administrator approves or rejects it, and an approved refund
can be processed. The contract keeps all of this in its instance storage:

- the refund records and the refund counter;
- a swap-remove index of refund ids per status;
- append-only lists of refund ids per merchant, per customer and per payment.

A guard with a saturating add keeps the sum of processed refunds of a
payment within the original amount of the refund being processed, while
that amount is below i128::MAX. Each request names its own original amount,
so this is not a bound per payment (see "## Findings").

Files and modules:

- `refund_types.dfy` (`RefundTypes`): the refund record, its status, the
  error enumeration, the events, `Result`/`Outcome`, and the i128/u64
  saturating adds.
- `status_index.dfy` (`StatusIndex`): the three storage families of the
  status index as one value `Index`. `Add` and `Remove` are the effects of
  `add_to_status_index` and `remove_from_status_index` on that value. `Inv`
  is the index invariant: each stored refund's id appears exactly once, in
  the list of its current status, at the position its reverse entry records.
  The lemmas state what the helpers do to each status's list, and that they
  keep `Inv`.
- `accounting.dfy` (`Accounting`): `ProcessedTotal`, the sum that
  `get_total_refunded_amount` computes; the guard of `can_refund_payment`;
  and the lemmas on how status changes move the total.
- `refund_ledger.dfy` (`RefundLedger`): the class `RefundContract`. Its
  fields are the storage entries and its methods are the public operations
  and the two index helpers. `LedgerValid` is the storage invariant: the
  refunds are well formed, the index agrees with their statuses, the status
  counts add up to the counter, and the party lists name only refunds of
  that party. RequestRefund, ApproveRefund, RejectRefund and ProcessRefund
keep it, and so do their steps StoreRefund, ListRefund and SetStatus. The
two index helpers, AddToStatusIndex and RemoveFromStatusIndex, are
intermediate steps that do not keep it on their own: adding alone makes the
status counts exceed the counter.

The public operations follow the later definitions in the file:
`approve_refund` at lines 321-357, `reject_refund` at 359-401 and
`process_refund` at 403-432. They differ from the earlier definitions at
lines 214-311:

- approve, reject and process do not compare the caller with a stored admin
  address;
- `process_refund` moves no tokens and publishes no event.

The model follows the code. The ledger timestamp is the parameter `now`.
Published events are appended to the field `events`.

## Model

| member | source | states |
|---|---|---|
| RefundLedger.RefundContract.GetRefund | contracts/refund/src/lib.rs:313-319 | Ok with the stored record exactly when the id is stored, else RefundNotFound; under the invariant, stored means 1 <= id <= counter and the record carries its own id |
| RefundLedger.RefundContract.GetRefundCountByStatus | contracts/refund/src/lib.rs:469-474 | under the invariant, the stored count of a status is the number of stored refunds in that status |
| RefundLedger.RefundContract.GetTotalRefundedAmount | contracts/refund/src/lib.rs:476-495 | the loop over ids 1 .. counter returns ProcessedTotal, the sum of the amounts of that payment's Processed refunds; it is non-negative under the invariant |
| RefundLedger.RefundContract.CanRefundPayment | contracts/refund/src/lib.rs:497-509 | fails only with TotalRefundsExceedPayment; an exact sum within the original amount always passes, and a passing sum is within it whenever the original amount is below i128::MAX |
| RefundLedger.RefundContract.GetRefundsByStatus | contracts/refund/src/lib.rs:434-467 | the loop returns the records found at slots offset .. min(count, offset saturating+ limit), in slot order, and nothing when limit is 0 or offset is past the end |
| RefundLedger.CollectPage | contracts/refund/src/lib.rs:434-467 | under the index invariant, the records gathered from slots from .. to-1 (to at most the count) number exactly to - from; entry k is the stored refund at position from + k of the status's list; every entry has the queried status |
| RefundLedger.RefundContract.AddToStatusIndex | contracts/refund/src/lib.rs:511-522 | the new index is Add(old index): the id goes to slot count, the count grows by one and the reverse entry records the slot |
| RefundLedger.RefundContract.RemoveFromStatusIndex | contracts/refund/src/lib.rs:524-566 | when Remove succeeds the result is Pass and the index is its result; otherwise the result is Fail(InvalidStatus) and the index is unchanged |
| StatusIndex.AddLists | contracts/refund/src/lib.rs:511-522 | adding appends the id to its status's list, leaves every other list unchanged and raises the total count by one |
| StatusIndex.AddKeepsInv | contracts/refund/src/lib.rs:511-522 | adding an id not yet filed keeps the index invariant, with the id's reverse entry at the old count |
| StatusIndex.RemoveErrors | contracts/refund/src/lib.rs:529-546 | under the invariant, removal fails, always with InvalidStatus, exactly when the count is 0 or the id has no reverse entry; an empty last slot cannot occur |
| StatusIndex.RemoveIsSwapOut | contracts/refund/src/lib.rs:534-563 | for a filed refund, removal is the swap-out: the last id moves into the removed id's slot, the last slot and the id's reverse entry go, and the count drops by one |
| StatusIndex.RemoveKeepsInv | contracts/refund/src/lib.rs:524-566 | removing a refund from its own status succeeds and keeps the invariant for the remaining refunds; that list becomes its swap-removal at the id's position, other lists are unchanged, the total drops by one, and only the moved id's reverse entry changes |
| StatusIndex.SwapRemoveContents | contracts/refund/src/lib.rs:541-563 | swap-removal shortens the list by one, removes exactly one occurrence of the element (as multisets), keeps every other position and puts the last element in the vacated slot |
| StatusIndex.SwapRemoveDistinct | contracts/refund/src/lib.rs:541-563 | on a duplicate-free list, swap-removal keeps it duplicate-free, and its elements are the old ones minus the removed id |
| StatusIndex.Placement | contracts/refund/src/lib.rs:511-566 | under the invariant, an id is in a status's list exactly when it is stored with that status; it sits at the slot its reverse entry names; and no list holds duplicates |
| StatusIndex.CountIsCardinality | contracts/refund/src/lib.rs:469-474 | under the invariant, a status's count is the number of refunds in that status |
| StatusIndex.SlotFilled | contracts/refund/src/lib.rs:449-462 | under the invariant, each slot below the count is filled with a stored refund of that status |
| StatusIndex.MoveKeepsInv | contracts/refund/src/lib.rs:337-346 | removing a refund from its status and adding it to another keeps the invariant for the new statuses and keeps the total count |
| StatusIndex.MoveLists | contracts/refund/src/lib.rs:337-346 | a transition swap-removes the id from the old status's list, appends it to the new one, and leaves the other lists and the total count unchanged |
| StatusIndex.EmptyInv | contracts/refund/src/lib.rs:469-474 | the empty index agrees with an empty ledger: every list is empty and the total count is 0 |
| RefundLedger.RefundContract.StoreRefund | contracts/refund/src/lib.rs:129-158 | the refund is stored under counter + 1 with exactly the given fields, status Requested and requested_at = now; the counter becomes that id; the id is filed under Requested; the invariant holds |
| RefundLedger.RefundContract.ListRefund | contracts/refund/src/lib.rs:160-197 | the id goes at the end (position = old count) of its merchant's, customer's and payment's lists; lists of other parties are unchanged; the invariant holds |
| RefundLedger.RefundContract.RequestRefund | contracts/refund/src/lib.rs:100-212 | checks in source order: InvalidAmount, RefundExceedsPayment, InvalidPaymentId, then TotalRefundsExceedPayment exactly when the guard rejects; on any error nothing changes; on success it returns counter + 1, stores, files, lists and publishes RefundRequested; the invariant holds |
| RefundLedger.RefundContract.SetStatus | contracts/refund/src/lib.rs:337-346 | under the invariant, the removal cannot fail; the record gets the new status, the index is Add(Remove(old index)), and nothing else is rewritten |
| RefundLedger.RefundContract.ApproveRefund | contracts/refund/src/lib.rs:321-357 | RefundNotFound for an unknown id, InvalidStatus unless Requested, and success exactly otherwise; on failure nothing changes; on success the record becomes Approved, every other record is unchanged, the id moves from the Requested list to the Approved list, and RefundApproved is published |
| RefundLedger.RefundContract.RejectRefund | contracts/refund/src/lib.rs:359-401 | as ApproveRefund, with Rejected and RefundRejected carrying the reason |
| RefundLedger.RefundContract.ProcessRefund | contracts/refund/src/lib.rs:403-432 | RefundNotFound, InvalidStatus unless Approved, TotalRefundsExceedPayment exactly when the guard rejects, success exactly otherwise; on failure nothing changes; on success the record becomes Processed and the id moves from the Approved list to the Processed list |
| RefundLedger.RequestKeepsValid | contracts/refund/src/lib.rs:129-158 | storing a well-formed Requested refund under the next id and filing it keeps the storage invariant, including counts summing to the counter |
| RefundLedger.ListingKeepsValid | contracts/refund/src/lib.rs:160-197 | appending a stored refund to its three party lists keeps the storage invariant |
| RefundLedger.AppendKeepsAgree | contracts/refund/src/lib.rs:160-197 | after the append, every listed id is still a stored refund of that list's party |
| RefundLedger.TransitionKeepsValid | contracts/refund/src/lib.rs:337-346 | moving a stored refund to another status, in its record and in the index, keeps the storage invariant |
| Accounting.ProcessedTotalNonNegative | contracts/refund/src/lib.rs:476-495 | with positive amounts, the processed total is never negative |
| Accounting.ProcessedTotalUpdate | contracts/refund/src/lib.rs:476-495 | rewriting one record changes the total by the difference of its two contributions, and not at all if its id is past the scanned range |
| Accounting.ProcessingAddsAmount | contracts/refund/src/lib.rs:420-425 | processing a refund raises its payment's total by exactly the refund's amount and leaves every other payment's total unchanged |
| Accounting.StatusChangeFrame | contracts/refund/src/lib.rs:337-346 | approving or rejecting leaves every payment's processed total unchanged |
| Accounting.NewRefundFrame | contracts/refund/src/lib.rs:129-158 | storing a new Requested refund under the next id leaves every payment's processed total unchanged |
| Accounting.GuardExact | contracts/refund/src/lib.rs:504-506 | the saturating guard agrees with the exact comparison when the sum is in the i128 range, and is sound whenever the original amount is below i128::MAX |
| Accounting.ProcessedWithinOriginal | contracts/refund/src/lib.rs:412-425 | after a guarded processing, the payment's processed total is at most that refund's original amount, when amounts are positive and the original amount is below i128::MAX |
| Accounting.MixedOriginalsExceed | contracts/refund/src/lib.rs:416-421 | two refunds of one payment with originals 1000 and 2000: the second passes the guard at request and at processing, and the payment's processed total becomes 1700, above the first refund's original |
| Accounting.PaymentGuardKeepsBound | contracts/refund/src/lib.rs:497-509 | a guard checking the request against the original named by every refund of the payment keeps the processed total within all of them after processing, and rejects the refunds of MixedOriginalsExceed |
| Accounting.GuardSaturationGap | contracts/refund/src/lib.rs:504 | at original == i128::MAX, a processed total of i128::MAX plus a request of 1 passes the guard although the exact sum exceeds the original amount |

## Findings

| source | as written | input that shows it | evidently intended | confidence | as-written member | corrected member |
|---|---|---|---|---|---|---|
| contracts/refund/src/lib.rs:416-421 | `can_refund_payment` compares the payment's processed total plus the request with the original amount stored on the refund being processed, and each request supplies its own original (line 106) | payment 7: refund 1 is 700 of 1000 and Processed; refund 2 is 1000 of 2000; processing refund 2 gives a total of 1700 | the processed refunds of a payment stay within the payment's original amount, whichever refund names it | medium, not executed | Accounting.MixedOriginalsExceed | Accounting.PaymentGuardKeepsBound |

The ledger's ProcessRefund and RequestRefund keep the guard as written,
because the model follows the code; the corrected guard is stated and
proved in `Accounting` beside it.

## Left out

- `require_auth` on the merchant and on the admin is left out. The admin address appears only in the published events.
- The earlier, conflicting definitions of `approve_refund` (lines 214-242, with a stored-admin check) and of `process_refund` (lines 244-311, with a token transfer and RefundProcessed) are not modelled. The later definitions at lines 321-432 are.
- `initialize` and the `Admin` entry are left out.
- Events are an appended log only; publishing through the host is not modelled.
- Storage is a set of maps rather than a concrete storage engine. Each operation is atomic, so an operation that fails leaves storage as it was. The model writes the event before the status change in approve and reject, which gives the same end state.
- RefundLedger.RefundContract.RequestRefund: the u64 counter is unbounded, so the overflow of `counter + 1` at u64::MAX is not modelled.
- RefundLedger.RefundContract.GetTotalRefundedAmount: the sum is an unbounded integer, so the i128 overflow of `total += refund.amount` is not modelled.
- RefundLedger.RefundContract.CanRefundPayment: its soundness is stated only for an original amount below i128::MAX. At i128::MAX saturation can hide an excess, as Accounting.GuardSaturationGap shows.
- RefundLedger.RefundContract.ProcessRefund: the bound on the payment's processed total is stated by Accounting.ProcessedWithinOriginal over the record values, not in the method's contract.
- RefundLedger.RefundContract.ProcessRefund: no bound per payment is promised, only the bound by the processed refund's own original amount; Accounting.MixedOriginalsExceed shows why.
- RefundLedger.RefundContract.ApproveRefund: the effect on each status's list is stated by StatusIndex.MoveLists on the index value that the contract's `ensures` names, not restated in the method. The same holds for RejectRefund, ProcessRefund and SetStatus.
- The Error enumeration's shared discriminants (TransferFailed and InvalidStatus are both 5; NotApproved and AlreadyProcessed are both 6) are not reproduced. Each variant is its own constructor.
- The `test_process` module (line 570) is not part of this model.
- The Payment contract is not part of this model.
- The reads of the party counts are modelled as the lengths of the party lists. A list and its count are always written together.
