/** Partial-refund accounting: the processed total of a payment and the
    guard that keeps new and processed refunds within the original amount. */
module Accounting {
  import opened RefundTypes

  /** What refund `id` adds to the processed total of `paymentId`: its
      amount when it is stored, belongs to that payment and is Processed. */
  function Contribution(refunds: map<nat, Refund>, paymentId: nat, id: nat): int
  {
    if id in refunds && refunds[id].paymentId == paymentId && refunds[id].status == Processed
    then refunds[id].amount
    else 0
  }

  /** The sum of the amounts of the Processed refunds of `paymentId` among
      ids 1 .. n. The total is an unbounded integer. */
  function ProcessedTotal(refunds: map<nat, Refund>, paymentId: nat, n: nat): int
  {
    if n == 0 then 0
    else ProcessedTotal(refunds, paymentId, n - 1) + Contribution(refunds, paymentId, n)
  }

  /** Every payment has the same processed total over ids 1 .. m of `after`
      as over ids 1 .. n of `before`. */
  ghost predicate SameTotals(before: map<nat, Refund>, n: nat, after: map<nat, Refund>, m: nat)
  {
    forall p :: ProcessedTotal(after, p, m) == ProcessedTotal(before, p, n)
  }

  /** The check of `can_refund_payment`: the saturating i128 sum of the
      requested amount and the processed total must not exceed the original
      amount. */
  function GuardAllows(requested: int, processedTotal: int, original: int): bool
  {
    SaturatingAdd(requested, processedTotal) <= original
  }

  /** With positive amounts only, a processed total is never negative. */
  lemma {:induction false} ProcessedTotalNonNegative(refunds: map<nat, Refund>, paymentId: nat, n: nat)
    requires forall id :: id in refunds ==> refunds[id].amount > 0
    ensures ProcessedTotal(refunds, paymentId, n) >= 0
  {
    if n > 0 {
      ProcessedTotalNonNegative(refunds, paymentId, n - 1);
    }
  }

  /** Replacing one record changes the processed total by the difference of
      the two records' contributions when the id is within 1 .. n, and not
      at all otherwise. */
  lemma {:induction false} ProcessedTotalUpdate(refunds: map<nat, Refund>, paymentId: nat, n: nat, id: nat, r: Refund)
    ensures ProcessedTotal(refunds[id := r], paymentId, n) ==
      ProcessedTotal(refunds, paymentId, n) +
      (if 1 <= id <= n
       then Contribution(refunds[id := r], paymentId, id) - Contribution(refunds, paymentId, id)
       else 0)
  {
    if n > 0 {
      ProcessedTotalUpdate(refunds, paymentId, n - 1, id, r);
      if n != id {
        assert Contribution(refunds[id := r], paymentId, n) == Contribution(refunds, paymentId, n);
      }
    }
  }

  /** A refund that is not Processed, or belongs to another payment, can be
      written, or written over, without changing the processed total. */
  lemma NonProcessedWrite(refunds: map<nat, Refund>, paymentId: nat, n: nat, id: nat, r: Refund)
    requires r.status != Processed || r.paymentId != paymentId
    requires id in refunds ==> refunds[id].status != Processed || refunds[id].paymentId != paymentId
    ensures ProcessedTotal(refunds[id := r], paymentId, n) == ProcessedTotal(refunds, paymentId, n)
  {
    ProcessedTotalUpdate(refunds, paymentId, n, id, r);
  }

  /** Processing a refund raises the processed total of its payment by
      exactly the refund's amount, and leaves every other payment's total
      as it was. */
  lemma ProcessingAddsAmount(refunds: map<nat, Refund>, n: nat, id: nat)
    requires 1 <= id <= n && id in refunds && refunds[id].status != Processed
    ensures var r := refunds[id];
      ProcessedTotal(refunds[id := r.(status := Processed)], r.paymentId, n) ==
      ProcessedTotal(refunds, r.paymentId, n) + r.amount
    ensures forall p :: p != refunds[id].paymentId ==>
      ProcessedTotal(refunds[id := refunds[id].(status := Processed)], p, n) == ProcessedTotal(refunds, p, n)
  {
    var r' := refunds[id].(status := Processed);
    ProcessedTotalUpdate(refunds, refunds[id].paymentId, n, id, r');
    forall p | p != refunds[id].paymentId
      ensures ProcessedTotal(refunds[id := r'], p, n) == ProcessedTotal(refunds, p, n)
    {
      NonProcessedWrite(refunds, p, n, id, r');
    }
  }

  /** A status change between statuses other than Processed leaves every
      payment's processed total as it was. */
  lemma StatusChangeFrame(refunds: map<nat, Refund>, n: nat, id: nat, to: RefundStatus)
    requires id in refunds && refunds[id].status != Processed && to != Processed
    ensures SameTotals(refunds, n, refunds[id := refunds[id].(status := to)], n)
  {
    forall p
      ensures ProcessedTotal(refunds[id := refunds[id].(status := to)], p, n) == ProcessedTotal(refunds, p, n)
    {
      NonProcessedWrite(refunds, p, n, id, refunds[id].(status := to));
    }
  }

  /** The ids counted in a processed total only go up to `n`: ids past it
      make no difference. */
  lemma {:induction false} ProcessedTotalExtend(refunds: map<nat, Refund>, paymentId: nat, n: nat, r: Refund)
    requires r.status != Processed
    ensures ProcessedTotal(refunds[n + 1 := r], paymentId, n + 1) == ProcessedTotal(refunds, paymentId, n)
  {
    ProcessedTotalUpdate(refunds, paymentId, n, n + 1, r);
  }

  /** Storing a new, not yet Processed refund under the next id leaves the
      processed total of every payment as it was. */
  lemma NewRefundFrame(refunds: map<nat, Refund>, n: nat, r: Refund)
    requires r.status != Processed
    ensures SameTotals(refunds, n, refunds[n + 1 := r], n + 1)
  {
    forall p
      ensures ProcessedTotal(refunds[n + 1 := r], p, n + 1) == ProcessedTotal(refunds, p, n)
    {
      ProcessedTotalExtend(refunds, p, n, r);
    }
  }

  /** The guard in exact arithmetic: whenever the exact sum is in the i128
      range and within the original amount, the guard lets it through; and
      whenever the guard lets a sum through and the original amount is below
      i128::MAX, the exact sum is within the original amount. */
  lemma GuardExact(requested: int, processedTotal: int, original: I128)
    requires requested + processedTotal >= I128_MIN
    ensures requested + processedTotal <= original ==> GuardAllows(requested, processedTotal, original)
    ensures GuardAllows(requested, processedTotal, original) && original < I128_MAX ==>
      requested + processedTotal <= original
  {
  }

  /** The safety property of `process_refund`: when the guard lets an
      unprocessed refund through, the processed total of its payment after
      processing is within that refund's original amount, provided every
      amount is positive and the original amount is below i128::MAX. */
  lemma ProcessedWithinOriginal(refunds: map<nat, Refund>, n: nat, id: nat)
    requires forall i :: i in refunds ==> refunds[i].amount > 0
    requires 1 <= id <= n && id in refunds && refunds[id].status != Processed
    requires refunds[id].originalPaymentAmount < I128_MAX
    requires GuardAllows(refunds[id].amount, ProcessedTotal(refunds, refunds[id].paymentId, n),
                         refunds[id].originalPaymentAmount)
    ensures ProcessedTotal(refunds[id := refunds[id].(status := Processed)], refunds[id].paymentId, n)
         <= refunds[id].originalPaymentAmount
  {
    var r := refunds[id];
    ProcessingAddsAmount(refunds, n, id);
    ProcessedTotalNonNegative(refunds, r.paymentId, n);
    GuardExact(r.amount, ProcessedTotal(refunds, r.paymentId, n), r.originalPaymentAmount);
  }

  /** At original == i128::MAX saturation hides an excess: a processed
      total of i128::MAX plus a request of 1 passes the guard although the
      exact sum is above the original amount. */
  lemma GuardSaturationGap()
    ensures GuardAllows(1, I128_MAX, I128_MAX)
    ensures 1 + I128_MAX > I128_MAX
  {
  }

  /** A payment's refunds carry the original amount their caller gave, so
      two refunds of one payment can name different originals. The guard
      compares each request with its own original only: here refund 1 (700
      of 1000) is Processed, refund 2 (1000 of 2000) passes the guard when
      it is requested and when it is processed, and the payment's processed
      total ends at 1700, above refund 1's original of 1000. */
  lemma MixedOriginalsExceed()
    ensures var r1 := Refund(1, 7, 1, 2, 700, 1000, 3, Processed, 0, "");
            var r2 := Refund(2, 7, 1, 2, 1000, 2000, 3, Approved, 0, "");
            var refunds := map[1 := r1, 2 := r2];
            GuardAllows(r2.amount, ProcessedTotal(map[1 := r1], 7, 1), r2.originalPaymentAmount) &&
            GuardAllows(r2.amount, ProcessedTotal(refunds, 7, 2), r2.originalPaymentAmount) &&
            ProcessedTotal(refunds[2 := r2.(status := Processed)], 7, 2) == 1700 > r1.originalPaymentAmount
  {
    var r1 := Refund(1, 7, 1, 2, 700, 1000, 3, Processed, 0, "");
    var r2 := Refund(2, 7, 1, 2, 1000, 2000, 3, Approved, 0, "");
    var refunds := map[1 := r1, 2 := r2];
    assert ProcessedTotal(map[1 := r1], 7, 1) == 700 by {
      assert Contribution(map[1 := r1], 7, 1) == 700;
    }
    assert ProcessedTotal(refunds, 7, 2) == 700 by {
      assert ProcessedTotal(refunds, 7, 1) == 700 by {
        assert Contribution(refunds, 7, 1) == 700;
      }
      assert Contribution(refunds, 7, 2) == 0;
    }
    var after := refunds[2 := r2.(status := Processed)];
    assert ProcessedTotal(after, 7, 2) == 1700 by {
      assert ProcessedTotal(after, 7, 1) == 700 by {
        assert Contribution(after, 7, 1) == 700;
      }
      assert Contribution(after, 7, 2) == 1000;
    }
  }

  /** The per-payment bound: the processed total of `paymentId` over ids
      1 .. n is within the original amount named by every one of its
      refunds. */
  ghost predicate PaymentBounded(refunds: map<nat, Refund>, paymentId: nat, n: nat)
  {
    forall id :: 1 <= id <= n && id in refunds && refunds[id].paymentId == paymentId ==>
      ProcessedTotal(refunds, paymentId, n) <= refunds[id].originalPaymentAmount
  }

  /** A guard that checks the request against the original amount named by
      every refund of the payment, in exact arithmetic. */
  ghost predicate PaymentGuardAllows(refunds: map<nat, Refund>, paymentId: nat, n: nat, requested: int)
  {
    forall id :: 1 <= id <= n && id in refunds && refunds[id].paymentId == paymentId ==>
      requested + ProcessedTotal(refunds, paymentId, n) <= refunds[id].originalPaymentAmount
  }

  /** With the per-payment guard, processing a refund keeps the per-payment
      bound for its payment. The refunds of MixedOriginalsExceed are
      rejected by it. */
  lemma PaymentGuardKeepsBound(refunds: map<nat, Refund>, n: nat, id: nat)
    requires 1 <= id <= n && id in refunds && refunds[id].status != Processed
    requires PaymentGuardAllows(refunds, refunds[id].paymentId, n, refunds[id].amount)
    ensures PaymentBounded(refunds[id := refunds[id].(status := Processed)], refunds[id].paymentId, n)
    ensures !PaymentGuardAllows(map[1 := Refund(1, 7, 1, 2, 700, 1000, 3, Processed, 0, ""),
                                    2 := Refund(2, 7, 1, 2, 1000, 2000, 3, Approved, 0, "")], 7, 2, 1000)
  {
    var r := refunds[id];
    var after := refunds[id := r.(status := Processed)];
    ProcessingAddsAmount(refunds, n, id);
    forall j | 1 <= j <= n && j in after && after[j].paymentId == r.paymentId
      ensures ProcessedTotal(after, r.paymentId, n) <= after[j].originalPaymentAmount
    {
      assert after[j].originalPaymentAmount == refunds[j].originalPaymentAmount;
    }
    var r1 := Refund(1, 7, 1, 2, 700, 1000, 3, Processed, 0, "");
    var r2 := Refund(2, 7, 1, 2, 1000, 2000, 3, Approved, 0, "");
    var mixed := map[1 := r1, 2 := r2];
    assert ProcessedTotal(mixed, 7, 2) == 700 by {
      assert ProcessedTotal(mixed, 7, 1) == 700 by {
        assert Contribution(mixed, 7, 1) == 700;
      }
      assert Contribution(mixed, 7, 2) == 0;
    }
    assert 1000 + ProcessedTotal(mixed, 7, 2) > mixed[1].originalPaymentAmount;
  }
}
