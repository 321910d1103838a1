/** The refund contract: its instance storage as the fields of one object,
    and its public operations as methods that read and rewrite them. */
module RefundLedger {
  import opened RefundTypes
  import opened StatusIndex
  import opened Accounting

  /** An append-only list of refund ids kept per key; a key never written
      has the empty list (its count reads as 0). */
  function Listed(lists: map<nat, seq<nat>>, key: nat): seq<nat>
  {
    if key in lists then lists[key] else []
  }

  /** Every id listed under `key` is a stored refund whose `owner` is `key`. */
  ghost predicate ListsAgree(lists: map<nat, seq<nat>>, refunds: map<nat, Refund>, owner: Refund -> nat)
  {
    forall key, k :: key in lists && 0 <= k < |lists[key]| ==>
      lists[key][k] in refunds && owner(refunds[lists[key][k]]) == key
  }

  function MerchantOf(r: Refund): nat { r.merchant }
  function CustomerOf(r: Refund): nat { r.customer }
  function PaymentOf(r: Refund): nat { r.paymentId }

  /** What `request_refund` validates and stores: a positive amount within
      the original amount, for a non-zero payment id. */
  ghost predicate WellFormed(id: nat, r: Refund)
  {
    r.id == id && 0 < r.amount <= r.originalPaymentAmount && r.paymentId != 0
  }

  /** A stored refund appended under its owner's key keeps the lists in
      agreement with the refunds. */
  lemma AppendKeepsAgree(lists: map<nat, seq<nat>>, refunds: map<nat, Refund>, owner: Refund -> nat, id: nat)
    requires ListsAgree(lists, refunds, owner) && id in refunds
    ensures ListsAgree(lists[owner(refunds[id]) := Listed(lists, owner(refunds[id])) + [id]], refunds, owner)
  {
    var key0 := owner(refunds[id]);
    var lists' := lists[key0 := Listed(lists, key0) + [id]];
    forall key, k | key in lists' && 0 <= k < |lists'[key]|
      ensures lists'[key][k] in refunds && owner(refunds[lists'[key][k]]) == key
    {
      if key != key0 || k < |Listed(lists, key0)| {
        assert lists'[key][k] == lists[key][k];
      }
    }
  }

  /** A record stored under an id no list names yet keeps the lists in
      agreement. */
  lemma StoreKeepsAgree(lists: map<nat, seq<nat>>, refunds: map<nat, Refund>, owner: Refund -> nat, id: nat, r: Refund)
    requires ListsAgree(lists, refunds, owner) && id !in refunds
    ensures ListsAgree(lists, refunds[id := r], owner)
  {
    forall key, k | key in lists && 0 <= k < |lists[key]|
      ensures lists[key][k] in refunds[id := r] && owner(refunds[id := r][lists[key][k]]) == key
    {
      assert lists[key][k] in refunds;
    }
  }

  /** Rewriting a record without changing its owner keeps the lists in
      agreement. */
  lemma RewriteKeepsAgree(lists: map<nat, seq<nat>>, refunds: map<nat, Refund>, owner: Refund -> nat, id: nat, r: Refund)
    requires ListsAgree(lists, refunds, owner) && id in refunds && owner(r) == owner(refunds[id])
    ensures ListsAgree(lists, refunds[id := r], owner)
  {
  }

  /** Ids 1 .. counter are exactly the stored refunds, each stored under
      its own id as validated at request time. */
  ghost predicate StoredValid(refunds: map<nat, Refund>, counter: nat)
  {
    && (forall id :: id in refunds ==> 1 <= id <= counter && WellFormed(id, refunds[id]))
    && (forall id :: 1 <= id <= counter ==> id in refunds)
  }

  /** The merchant, customer and payment lists name only refunds of that
      merchant, customer and payment. */
  ghost predicate PartiesValid(
    refunds: map<nat, Refund>, merchants: map<nat, seq<nat>>, customers: map<nat, seq<nat>>, payments: map<nat, seq<nat>>)
  {
    && ListsAgree(merchants, refunds, MerchantOf)
    && ListsAgree(customers, refunds, CustomerOf)
    && ListsAgree(payments, refunds, PaymentOf)
  }

  /** The contract's storage invariant, over the values of its storage:
      the stored refunds are well formed; the status index files each refund
      exactly once, under its current status; the status counts add up to
      the counter; the party lists name only refunds of that party. */
  ghost predicate LedgerValid(
    refunds: map<nat, Refund>, counter: nat, ix: Index,
    merchants: map<nat, seq<nat>>, customers: map<nat, seq<nat>>, payments: map<nat, seq<nat>>)
  {
    && StoredValid(refunds, counter)
    && Inv(ix, StatusOf(refunds))
    && TotalCount(ix) == counter
    && PartiesValid(refunds, merchants, customers, payments)
  }

  lemma InvSameStatuses(ix: Index, a: map<nat, RefundStatus>, b: map<nat, RefundStatus>)
    requires Inv(ix, a) && a == b
    ensures Inv(ix, b)
  {
  }

  lemma RequestKeepsStored(refunds: map<nat, Refund>, counter: nat, r: Refund)
    requires StoredValid(refunds, counter) && WellFormed(counter + 1, r)
    ensures StoredValid(refunds[counter + 1 := r], counter + 1)
  {
  }

  lemma RequestKeepsIndex(refunds: map<nat, Refund>, counter: nat, ix: Index, r: Refund)
    requires StoredValid(refunds, counter) && Inv(ix, StatusOf(refunds)) && TotalCount(ix) == counter
    requires r.status == Requested
    ensures Inv(Add(ix, Requested, counter + 1), StatusOf(refunds[counter + 1 := r]))
    ensures TotalCount(Add(ix, Requested, counter + 1)) == counter + 1
  {
    var id := counter + 1;
    assert id !in StatusOf(refunds);
    AddKeepsInv(ix, StatusOf(refunds), Requested, id);
    StatusOfWrite(refunds, id, r);
    InvSameStatuses(Add(ix, Requested, id), StatusOf(refunds)[id := Requested], StatusOf(refunds[id := r]));
  }

  /** Storing a new record under an unused id keeps the lists in agreement:
      no list names that id yet. */
  lemma StoreKeepsParties(
    refunds: map<nat, Refund>, merchants: map<nat, seq<nat>>, customers: map<nat, seq<nat>>, payments: map<nat, seq<nat>>,
    id: nat, r: Refund)
    requires PartiesValid(refunds, merchants, customers, payments) && id !in refunds
    ensures PartiesValid(refunds[id := r], merchants, customers, payments)
  {
    StoreKeepsAgree(merchants, refunds, MerchantOf, id, r);
    StoreKeepsAgree(customers, refunds, CustomerOf, id, r);
    StoreKeepsAgree(payments, refunds, PaymentOf, id, r);
  }

  /** Storing a new Requested refund under the next id and filing it under
      Requested keeps the storage invariant. */
  lemma RequestKeepsValid(
    refunds: map<nat, Refund>, counter: nat, ix: Index,
    merchants: map<nat, seq<nat>>, customers: map<nat, seq<nat>>, payments: map<nat, seq<nat>>,
    r: Refund)
    requires LedgerValid(refunds, counter, ix, merchants, customers, payments)
    requires WellFormed(counter + 1, r) && r.status == Requested
    ensures LedgerValid(refunds[counter + 1 := r], counter + 1, Add(ix, Requested, counter + 1),
                        merchants, customers, payments)
  {
    RequestKeepsStored(refunds, counter, r);
    RequestKeepsIndex(refunds, counter, ix, r);
    StoreKeepsParties(refunds, merchants, customers, payments, counter + 1, r);
  }

  /** The same, with the new storage values named: the form a method uses
      once it has written them. */
  lemma RequestedStateValid(
    refunds: map<nat, Refund>, counter: nat, ix: Index,
    merchants: map<nat, seq<nat>>, customers: map<nat, seq<nat>>, payments: map<nat, seq<nat>>,
    r: Refund, refunds': map<nat, Refund>, counter': nat, ix': Index)
    requires LedgerValid(refunds, counter, ix, merchants, customers, payments)
    requires WellFormed(counter + 1, r) && r.status == Requested
    requires refunds' == refunds[counter + 1 := r] && counter' == counter + 1
    requires ix' == Add(ix, Requested, counter + 1)
    ensures LedgerValid(refunds', counter', ix', merchants, customers, payments)
  {
    RequestKeepsValid(refunds, counter, ix, merchants, customers, payments, r);
  }

  /** Appending a stored refund to its merchant's, customer's and payment's
      lists keeps the storage invariant. */
  lemma ListingKeepsValid(
    refunds: map<nat, Refund>, counter: nat, ix: Index,
    merchants: map<nat, seq<nat>>, customers: map<nat, seq<nat>>, payments: map<nat, seq<nat>>,
    id: nat, merchants': map<nat, seq<nat>>, customers': map<nat, seq<nat>>, payments': map<nat, seq<nat>>)
    requires LedgerValid(refunds, counter, ix, merchants, customers, payments) && id in refunds
    requires merchants' == merchants[refunds[id].merchant := Listed(merchants, refunds[id].merchant) + [id]]
    requires customers' == customers[refunds[id].customer := Listed(customers, refunds[id].customer) + [id]]
    requires payments' == payments[refunds[id].paymentId := Listed(payments, refunds[id].paymentId) + [id]]
    ensures LedgerValid(refunds, counter, ix, merchants', customers', payments')
  {
    AppendKeepsAgree(merchants, refunds, MerchantOf, id);
    AppendKeepsAgree(customers, refunds, CustomerOf, id);
    AppendKeepsAgree(payments, refunds, PaymentOf, id);
  }

  lemma TransitionKeepsIndex(refunds: map<nat, Refund>, ix: Index, id: nat, to: RefundStatus)
    requires Inv(ix, StatusOf(refunds)) && id in refunds
    ensures Remove(ix, refunds[id].status, id).Ok?
    ensures Inv(Add(Remove(ix, refunds[id].status, id).value, to, id), StatusOf(refunds[id := refunds[id].(status := to)]))
    ensures TotalCount(Add(Remove(ix, refunds[id].status, id).value, to, id)) == TotalCount(ix)
  {
    var r := refunds[id].(status := to);
    MoveKeepsInv(ix, StatusOf(refunds), id, refunds[id].status, to);
    StatusOfWrite(refunds, id, r);
    InvSameStatuses(Add(Remove(ix, refunds[id].status, id).value, to, id), StatusOf(refunds)[id := to], StatusOf(refunds[id := r]));
  }

  lemma TransitionKeepsParties(
    refunds: map<nat, Refund>, merchants: map<nat, seq<nat>>, customers: map<nat, seq<nat>>, payments: map<nat, seq<nat>>,
    id: nat, to: RefundStatus)
    requires PartiesValid(refunds, merchants, customers, payments) && id in refunds
    ensures PartiesValid(refunds[id := refunds[id].(status := to)], merchants, customers, payments)
  {
    var r := refunds[id].(status := to);
    RewriteKeepsAgree(merchants, refunds, MerchantOf, id, r);
    RewriteKeepsAgree(customers, refunds, CustomerOf, id, r);
    RewriteKeepsAgree(payments, refunds, PaymentOf, id, r);
  }

  /** Moving a stored refund to another status, in its record and in the
      index, keeps the storage invariant. */
  lemma TransitionKeepsValid(
    refunds: map<nat, Refund>, counter: nat, ix: Index,
    merchants: map<nat, seq<nat>>, customers: map<nat, seq<nat>>, payments: map<nat, seq<nat>>,
    id: nat, to: RefundStatus)
    requires LedgerValid(refunds, counter, ix, merchants, customers, payments)
    requires id in refunds
    ensures Remove(ix, refunds[id].status, id).Ok?
    ensures LedgerValid(
      refunds[id := refunds[id].(status := to)], counter,
      Add(Remove(ix, refunds[id].status, id).value, to, id),
      merchants, customers, payments)
  {
    assert StoredValid(refunds[id := refunds[id].(status := to)], counter);
    TransitionKeepsIndex(refunds, ix, id, to);
    TransitionKeepsParties(refunds, merchants, customers, payments, id, to);
  }

  /** The same, with the new storage values named. */
  lemma TransitionStateValid(
    refunds: map<nat, Refund>, counter: nat, ix: Index,
    merchants: map<nat, seq<nat>>, customers: map<nat, seq<nat>>, payments: map<nat, seq<nat>>,
    id: nat, to: RefundStatus, refunds': map<nat, Refund>, ix': Index)
    requires LedgerValid(refunds, counter, ix, merchants, customers, payments)
    requires id in refunds
    requires refunds' == refunds[id := refunds[id].(status := to)]
    requires Remove(ix, refunds[id].status, id).Ok?
    requires ix' == Add(Remove(ix, refunds[id].status, id).value, to, id)
    ensures LedgerValid(refunds', counter, ix', merchants, customers, payments)
  {
    TransitionKeepsValid(refunds, counter, ix, merchants, customers, payments, id, to);
  }

  /** The refunds in status `s`, read through the status map. */
  lemma StatusMembers(refunds: map<nat, Refund>, s: RefundStatus)
    ensures (set id | id in StatusOf(refunds) && StatusOf(refunds)[id] == s)
         == (set id | id in refunds && refunds[id].status == s)
  {
  }

  /** What `get_refunds_by_status` gathers from slots from .. to-1 of
      status `s`: the record of each filled slot whose refund is stored, in
      slot order. */
  function Collect(ix: Index, refunds: map<nat, Refund>, s: RefundStatus, from: nat, to: nat): seq<Refund>
    decreases to
  {
    if to <= from then []
    else
      Collect(ix, refunds, s, from, to - 1) +
      (if (s, to - 1) in ix.slots && ix.slots[(s, to - 1)] in refunds then [refunds[ix.slots[(s, to - 1)]]] else [])
  }

  /** Under the index invariant no slot below the count is empty and every
      filed refund is stored, so a page holds exactly the refunds at
      positions from .. to-1 of the status's list, in list order, each in
      that status. */
  lemma {:induction false} CollectPage(ix: Index, refunds: map<nat, Refund>, s: RefundStatus, from: nat, to: nat)
    requires Inv(ix, StatusOf(refunds)) && from <= to <= Count(ix, s)
    ensures |Collect(ix, refunds, s, from, to)| == to - from
    ensures forall k :: 0 <= k < to - from ==>
      && List(ix, s)[from + k] in refunds
      && Collect(ix, refunds, s, from, to)[k] == refunds[List(ix, s)[from + k]]
      && Collect(ix, refunds, s, from, to)[k].status == s
  {
    if from < to {
      CollectPage(ix, refunds, s, from, to - 1);
      SlotFilled(ix, StatusOf(refunds), s, to - 1);
    }
  }

  class RefundContract {
    /** Refund(id) -> record. */
    var refunds: map<nat, Refund>
    /** RefundCounter: the last id handed out (0 before the first request). */
    var counter: nat
    /** RefundsByStatus(status, position) -> id. */
    var statusSlots: map<(RefundStatus, nat), nat>
    /** RefundStatusCount(status). */
    var statusCounts: map<RefundStatus, nat>
    /** RefundStatusIndex(id) -> position, one map for all statuses. */
    var statusPos: map<nat, nat>
    /** MerchantRefunds(merchant, i) -> id, with MerchantRefundCount as the length. */
    var merchantRefunds: map<nat, seq<nat>>
    /** CustomerRefunds(customer, i) -> id, with CustomerRefundCount as the length. */
    var customerRefunds: map<nat, seq<nat>>
    /** PaymentRefunds(payment id, i) -> id, with PaymentRefundCount as the length. */
    var paymentRefunds: map<nat, seq<nat>>
    /** The events published so far. */
    var events: seq<Event>

    ghost function IndexState(): Index
      reads this`statusSlots, this`statusCounts, this`statusPos
    {
      Index(statusSlots, statusCounts, statusPos)
    }

    /** The ids filed under status `s`, in slot order. */
    ghost function StatusList(s: RefundStatus): seq<nat>
      reads this`statusSlots, this`statusCounts, this`statusPos
    {
      List(IndexState(), s)
    }

    ghost predicate Valid()
      reads this`refunds, this`counter, this`statusSlots, this`statusCounts, this`statusPos
      reads this`merchantRefunds, this`customerRefunds, this`paymentRefunds
    {
      LedgerValid(refunds, counter, IndexState(), merchantRefunds, customerRefunds, paymentRefunds)
    }

    /** A freshly deployed contract: nothing stored. */
    constructor ()
      ensures Valid()
      ensures refunds == map[] && counter == 0 && events == []
      ensures forall s :: StatusList(s) == []
      ensures merchantRefunds == map[] && customerRefunds == map[] && paymentRefunds == map[]
    {
      refunds, counter := map[], 0;
      statusSlots, statusCounts, statusPos := map[], map[], map[];
      merchantRefunds, customerRefunds, paymentRefunds := map[], map[], map[];
      events := [];
      EmptyInv();
    }

    /** `get_refund`: the stored record, or RefundNotFound. */
    function GetRefund(refundId: nat): (r: Result<Refund>)
      reads this
      ensures r.Ok? <==> refundId in refunds
      ensures r.Ok? ==> r.value == refunds[refundId]
      ensures Valid() ==> (r.Ok? <==> 1 <= refundId <= counter)
      ensures Valid() && r.Ok? ==> r.value.id == refundId
      ensures r.Err? ==> r.error == RefundNotFound
    {
      if refundId in refunds then Ok(refunds[refundId]) else Err(RefundNotFound)
    }

    /** `get_refund_count_by_status`: the stored count, 0 when never written.
        Under the invariant it is the number of stored refunds in `status`. */
    function GetRefundCountByStatus(status: RefundStatus): (n: nat)
      reads this
      ensures n == |StatusList(status)|
      ensures Valid() ==> n == |set id | id in refunds && refunds[id].status == status|
    {
      var n := Count(Index(statusSlots, statusCounts, statusPos), status);
      assert Valid() ==> n == |set id | id in refunds && refunds[id].status == status| by {
        if Valid() {
          CountIsCardinality(IndexState(), StatusOf(refunds), status);
          StatusMembers(refunds, status);
        }
      }
      n
    }

    /** `can_refund_payment`: whether `requested` more may be refunded on
        `paymentId`, given what its Processed refunds already returned. */
    function CanRefundPayment(paymentId: nat, requested: I128, original: I128): (r: Result<bool>)
      reads this
      ensures r.Ok? ==> r.value
      ensures r.Err? ==> r.error == TotalRefundsExceedPayment
      ensures var total := ProcessedTotal(refunds, paymentId, counter);
        requested + total >= I128_MIN ==>
          && (requested + total <= original ==> r.Ok?)
          && (r.Ok? && original < I128_MAX ==> requested + total <= original)
    {
      var total := ProcessedTotal(refunds, paymentId, counter);
      if !GuardAllows(requested, total, original) then Err(TotalRefundsExceedPayment) else Ok(true)
    }

    /** `get_total_refunded_amount`: scans ids 1 .. counter and sums the
        amounts of the Processed refunds of `paymentId`. */
    method GetTotalRefundedAmount(paymentId: nat) returns (total: int)
      ensures total == ProcessedTotal(refunds, paymentId, counter)
      ensures Valid() ==> total >= 0
    {
      total := 0;
      var id := 1;
      while id <= counter
        invariant 1 <= id <= counter + 1
        invariant total == ProcessedTotal(refunds, paymentId, id - 1)
      {
        if id in refunds {
          var refund := refunds[id];
          if refund.paymentId == paymentId && refund.status == Processed {
            total := total + refund.amount;
          }
        }
        id := id + 1;
      }
      if Valid() {
        ProcessedTotalNonNegative(refunds, paymentId, counter);
      }
    }

    /** `get_refunds_by_status`: the refunds filed at positions
        offset .. min(count, offset + limit) of the status's slots, in slot
        order, skipping empty slots and missing records; nothing when
        `limit` is 0 or `offset` is past the end. */
    method GetRefundsByStatus(status: RefundStatus, limit: U64, offset: U64) returns (results: seq<Refund>)
      ensures results == Collect(IndexState(), refunds, status, offset,
                                 Min(GetRefundCountByStatus(status), SaturatingAddU64(offset, limit)))
      ensures limit == 0 || offset >= GetRefundCountByStatus(status) ==> results == []
    {
      results := [];
      var total := GetRefundCountByStatus(status);
      if limit == 0 || offset >= total {
        return;
      }
      var end := Min(total, SaturatingAddU64(offset, limit));
      var index := offset;
      while index < end
        invariant offset <= index <= end
        invariant results == Collect(IndexState(), refunds, status, offset, index)
      {
        if (status, index) in statusSlots {
          var refundId := statusSlots[(status, index)];
          if refundId in refunds {
            results := results + [refunds[refundId]];
          }
        }
        index := index + 1;
      }
    }

    /** `add_to_status_index`. */
    method AddToStatusIndex(status: RefundStatus, refundId: nat)
      modifies this`statusSlots, this`statusCounts, this`statusPos
      ensures IndexState() == Add(old(IndexState()), status, refundId)
    {
      var count := GetRefundCountByStatus(status);
      statusSlots := statusSlots[(status, count) := refundId];
      statusCounts := statusCounts[status := count + 1];
      statusPos := statusPos[refundId := count];
    }

    /** `remove_from_status_index`. */
    method RemoveFromStatusIndex(status: RefundStatus, refundId: nat) returns (r: Outcome)
      modifies this`statusSlots, this`statusCounts, this`statusPos
      ensures Remove(old(IndexState()), status, refundId).Ok? ==>
        r == Pass && IndexState() == Remove(old(IndexState()), status, refundId).value
      ensures Remove(old(IndexState()), status, refundId).Err? ==>
        r == Fail(InvalidStatus) && IndexState() == old(IndexState())
    {
      var count := GetRefundCountByStatus(status);
      if count == 0 {
        return Fail(InvalidStatus);
      }
      if refundId !in statusPos {
        return Fail(InvalidStatus);
      }
      var index := statusPos[refundId];
      var lastIndex := count - 1;
      if index != lastIndex {
        if (status, lastIndex) !in statusSlots {
          return Fail(InvalidStatus);
        }
        var lastRefundId := statusSlots[(status, lastIndex)];
        statusSlots := statusSlots[(status, index) := lastRefundId];
        statusPos := statusPos[lastRefundId := index];
      }
      statusSlots := statusSlots - {(status, lastIndex)};
      statusPos := statusPos - {refundId};
      statusCounts := statusCounts[status := lastIndex];
      r := Pass;
    }

    /** The storing part of `request_refund`, once the request has passed
        validation: the refund goes under the next id with status Requested,
        the counter moves to that id and the id is filed under Requested. */
    method StoreRefund(
      merchant: Address, paymentId: nat, customer: Address, amount: I128,
      originalPaymentAmount: I128, token: Address, reason: string, now: nat)
      returns (refundId: nat)
      requires Valid()
      requires 0 < amount <= originalPaymentAmount && paymentId != 0
      modifies this`refunds, this`counter, this`statusSlots, this`statusCounts, this`statusPos
      ensures Valid()
      ensures refundId == old(counter) + 1 && counter == refundId
      ensures refunds == old(refunds)[refundId := Refund(refundId, paymentId, merchant, customer, amount,
                                                        originalPaymentAmount, token, Requested, now, reason)]
      ensures IndexState() == Add(old(IndexState()), Requested, refundId)
    {
      refundId := counter + 1;
      var refund := Refund(refundId, paymentId, merchant, customer, amount,
                           originalPaymentAmount, token, Requested, now, reason);
      ghost var refunds0, counter0, ix0 := refunds, counter, IndexState();
      refunds := refunds[refundId := refund];
      counter := refundId;
      // The fields the index helper leaves alone, checked right after the call.
      ghost var rest := (refunds, counter, merchantRefunds, customerRefunds, paymentRefunds);
      AddToStatusIndex(Requested, refundId);
      assert rest == (refunds, counter, merchantRefunds, customerRefunds, paymentRefunds);
      RequestedStateValid(refunds0, counter0, ix0, merchantRefunds, customerRefunds, paymentRefunds, refund,
        refunds, counter, IndexState());
    }

    /** The listing part of `request_refund`: the stored refund's id goes at
        the end of its merchant's, customer's and payment's lists, whose
        lengths are the stored counts. */
    method ListRefund(refundId: nat, merchant: Address, customer: Address, paymentId: nat)
      requires Valid()
      requires refundId in refunds
      requires refunds[refundId].merchant == merchant && refunds[refundId].customer == customer
      requires refunds[refundId].paymentId == paymentId
      modifies this`merchantRefunds, this`customerRefunds, this`paymentRefunds
      ensures Valid()
      ensures merchantRefunds == old(merchantRefunds)[merchant := Listed(old(merchantRefunds), merchant) + [refundId]]
      ensures customerRefunds == old(customerRefunds)[customer := Listed(old(customerRefunds), customer) + [refundId]]
      ensures paymentRefunds == old(paymentRefunds)[paymentId := Listed(old(paymentRefunds), paymentId) + [refundId]]
    {
      ghost var merchants0, customers0, payments0 := merchantRefunds, customerRefunds, paymentRefunds;
      merchantRefunds := merchantRefunds[merchant := Listed(merchantRefunds, merchant) + [refundId]];
      customerRefunds := customerRefunds[customer := Listed(customerRefunds, customer) + [refundId]];
      paymentRefunds := paymentRefunds[paymentId := Listed(paymentRefunds, paymentId) + [refundId]];
      ListingKeepsValid(refunds, counter, IndexState(), merchants0, customers0, payments0, refundId,
        merchantRefunds, customerRefunds, paymentRefunds);
    }

    /** `request_refund`: validates the request in the source's order, then
        stores a Requested refund under the next id, files it under
        Requested, appends it to its merchant's, customer's and payment's
        lists and publishes RefundRequested. */
    method RequestRefund(
      merchant: Address, paymentId: nat, customer: Address, amount: I128,
      originalPaymentAmount: I128, token: Address, reason: string, now: nat)
      returns (r: Result<nat>)
      requires Valid()
      modifies this
      ensures Valid()
      ensures amount <= 0 ==> r == Err(InvalidAmount)
      ensures 0 < amount && originalPaymentAmount < amount ==> r == Err(RefundExceedsPayment)
      ensures 0 < amount <= originalPaymentAmount && paymentId == 0 ==> r == Err(InvalidPaymentId)
      ensures 0 < amount <= originalPaymentAmount && paymentId != 0 ==>
        (r == Err(TotalRefundsExceedPayment) <==>
         !GuardAllows(amount, old(ProcessedTotal(refunds, paymentId, counter)), originalPaymentAmount))
      ensures r.Ok? <==>
        && 0 < amount <= originalPaymentAmount && paymentId != 0
        && GuardAllows(amount, old(ProcessedTotal(refunds, paymentId, counter)), originalPaymentAmount)
      ensures r.Err? ==> unchanged(this)
      ensures r.Ok? ==>
        && r.value == old(counter) + 1
        && counter == r.value
        && refunds == old(refunds)[r.value := Refund(r.value, paymentId, merchant, customer, amount,
                                                    originalPaymentAmount, token, Requested, now, reason)]
        && IndexState() == Add(old(IndexState()), Requested, r.value)
        && merchantRefunds == old(merchantRefunds)[merchant := Listed(old(merchantRefunds), merchant) + [r.value]]
        && customerRefunds == old(customerRefunds)[customer := Listed(old(customerRefunds), customer) + [r.value]]
        && paymentRefunds == old(paymentRefunds)[paymentId := Listed(old(paymentRefunds), paymentId) + [r.value]]
        && events == old(events) + [RefundRequested(r.value, paymentId, merchant, customer, amount, token)]
    {
      if amount <= 0 {
        return Err(InvalidAmount);
      }
      if amount > originalPaymentAmount {
        return Err(RefundExceedsPayment);
      }
      if paymentId == 0 {
        return Err(InvalidPaymentId);
      }
      var allowed := CanRefundPayment(paymentId, amount, originalPaymentAmount);
      if allowed.Err? {
        return Err(allowed.error);
      }
      // The fields each helper leaves alone, checked right after the call.
      ghost var lists := (merchantRefunds, customerRefunds, paymentRefunds, events);
      var refundId := StoreRefund(merchant, paymentId, customer, amount, originalPaymentAmount, token, reason, now);
      assert lists == (merchantRefunds, customerRefunds, paymentRefunds, events);
      ghost var stored := (refunds, counter, statusSlots, statusCounts, statusPos, events);
      ListRefund(refundId, merchant, customer, paymentId);
      assert stored == (refunds, counter, statusSlots, statusCounts, statusPos, events);
      events := events + [RefundRequested(refundId, paymentId, merchant, customer, amount, token)];
      r := Ok(refundId);
    }

    /** The common tail of `approve_refund`, `reject_refund` and
        `process_refund` once the refund has passed their checks: take the id
        out of its status list, store the record with the new status and
        append the id to the new status's list. Under the invariant the
        removal cannot fail. */
    method SetStatus(refundId: nat, from: RefundStatus, to: RefundStatus) returns (r: Outcome)
      requires Valid()
      requires refundId in refunds && refunds[refundId].status == from
      modifies this`refunds, this`statusSlots, this`statusCounts, this`statusPos
      ensures Valid()
      ensures r == Pass
      ensures refunds == old(refunds)[refundId := old(refunds)[refundId].(status := to)]
      ensures Remove(old(IndexState()), from, refundId).Ok?
      ensures IndexState() == Add(Remove(old(IndexState()), from, refundId).value, to, refundId)
    {
      ghost var refunds0, ix0 := refunds, IndexState();
      RemoveSucceeds(ix0, StatusOf(refunds0), from, refundId);
      // The fields each index helper leaves alone, checked right after the call.
      ghost var before := (refunds, counter, merchantRefunds, customerRefunds, paymentRefunds);
      var removed := RemoveFromStatusIndex(from, refundId);
      assert before == (refunds, counter, merchantRefunds, customerRefunds, paymentRefunds);
      // The `?` on the removal: under Valid() the refund is filed under
      // `from`, so this failure path is never taken.
      if removed.Fail? {
        return Fail(InvalidStatus);
      }
      refunds := refunds[refundId := refunds[refundId].(status := to)];
      ghost var stored := (refunds, counter, merchantRefunds, customerRefunds, paymentRefunds);
      AddToStatusIndex(to, refundId);
      assert stored == (refunds, counter, merchantRefunds, customerRefunds, paymentRefunds);
      TransitionStateValid(refunds0, counter, ix0, merchantRefunds, customerRefunds, paymentRefunds,
        refundId, to, refunds, IndexState());
      r := Pass;
    }

    /** `approve_refund`: a Requested refund becomes Approved, moves from the
        Requested list to the Approved list, and RefundApproved is published. */
    method ApproveRefund(admin: Address, refundId: nat, now: nat) returns (r: Outcome)
      requires Valid()
      modifies this`refunds, this`statusSlots, this`statusCounts, this`statusPos, this`events
      ensures Valid()
      ensures refundId !in old(refunds) ==> r == Fail(RefundNotFound)
      ensures refundId in old(refunds) && old(refunds)[refundId].status != Requested ==> r == Fail(InvalidStatus)
      ensures r == Pass <==> refundId in old(refunds) && old(refunds)[refundId].status == Requested
      ensures r.Fail? ==> unchanged(this)
      ensures r == Pass ==>
        && refunds == old(refunds)[refundId := old(refunds)[refundId].(status := Approved)]
        && Remove(old(IndexState()), Requested, refundId).Ok?
        && IndexState() == Add(Remove(old(IndexState()), Requested, refundId).value, Approved, refundId)
        && events == old(events) + [RefundApproved(refundId, admin, now)]
    {
      var found := GetRefund(refundId);
      if found.Err? {
        return Fail(found.error);
      }
      if found.value.status != Requested {
        return Fail(InvalidStatus);
      }
      events := events + [RefundApproved(refundId, admin, now)];
      r := SetStatus(refundId, Requested, Approved);
    }

    /** `reject_refund`: a Requested refund becomes Rejected, moves from the
        Requested list to the Rejected list, and RefundRejected is published
        with the reason. */
    method RejectRefund(admin: Address, refundId: nat, rejectionReason: string, now: nat) returns (r: Outcome)
      requires Valid()
      modifies this`refunds, this`statusSlots, this`statusCounts, this`statusPos, this`events
      ensures Valid()
      ensures refundId !in old(refunds) ==> r == Fail(RefundNotFound)
      ensures refundId in old(refunds) && old(refunds)[refundId].status != Requested ==> r == Fail(InvalidStatus)
      ensures r == Pass <==> refundId in old(refunds) && old(refunds)[refundId].status == Requested
      ensures r.Fail? ==> unchanged(this)
      ensures r == Pass ==>
        && refunds == old(refunds)[refundId := old(refunds)[refundId].(status := Rejected)]
        && Remove(old(IndexState()), Requested, refundId).Ok?
        && IndexState() == Add(Remove(old(IndexState()), Requested, refundId).value, Rejected, refundId)
        && events == old(events) + [RefundRejected(refundId, admin, now, rejectionReason)]
    {
      var found := GetRefund(refundId);
      if found.Err? {
        return Fail(found.error);
      }
      if found.value.status != Requested {
        return Fail(InvalidStatus);
      }
      events := events + [RefundRejected(refundId, admin, now, rejectionReason)];
      r := SetStatus(refundId, Requested, Rejected);
    }

    /** `process_refund`: an Approved refund whose amount, added to what its
        payment's Processed refunds already returned, stays within the
        original payment amount becomes Processed, in its record and in the
        index. No token moves and no event is published. */
    method ProcessRefund(admin: Address, refundId: nat) returns (r: Outcome)
      requires Valid()
      modifies this`refunds, this`statusSlots, this`statusCounts, this`statusPos
      ensures Valid()
      ensures refundId !in old(refunds) ==> r == Fail(RefundNotFound)
      ensures refundId in old(refunds) && old(refunds)[refundId].status != Approved ==> r == Fail(InvalidStatus)
      ensures refundId in old(refunds) && old(refunds)[refundId].status == Approved ==>
        var refund := old(refunds)[refundId];
        (r == Fail(TotalRefundsExceedPayment) <==>
         !GuardAllows(refund.amount, old(ProcessedTotal(refunds, refund.paymentId, counter)), refund.originalPaymentAmount))
      ensures r == Pass <==>
        && refundId in old(refunds) && old(refunds)[refundId].status == Approved
        && GuardAllows(old(refunds)[refundId].amount,
                       old(ProcessedTotal(refunds, refunds[refundId].paymentId, counter)),
                       old(refunds)[refundId].originalPaymentAmount)
      ensures r.Fail? ==> unchanged(this)
      ensures r == Pass ==>
        && refunds == old(refunds)[refundId := old(refunds)[refundId].(status := Processed)]
        && Remove(old(IndexState()), Approved, refundId).Ok?
        && IndexState() == Add(Remove(old(IndexState()), Approved, refundId).value, Processed, refundId)
    {
      var found := GetRefund(refundId);
      if found.Err? {
        return Fail(found.error);
      }
      var refund := found.value;
      if refund.status != Approved {
        return Fail(InvalidStatus);
      }
      var allowed := CanRefundPayment(refund.paymentId, refund.amount, refund.originalPaymentAmount);
      if allowed.Err? {
        return Fail(allowed.error);
      }
      r := SetStatus(refundId, Approved, Processed);
    }
  }
}
