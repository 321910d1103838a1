/** Values stored by the refund contract: the refund record, its status,
    the error codes it returns and the events it publishes. */
module RefundTypes {

  /** An account identity; only compared for equality. */
  type Address = nat

  const I128_MIN: int := -0x8000_0000_0000_0000_0000_0000_0000_0000
  const I128_MAX: int := 0x7fff_ffff_ffff_ffff_ffff_ffff_ffff_ffff
  const U64_MAX: int := 0xffff_ffff_ffff_ffff

  /** Token amounts are signed 128-bit integers. */
  type I128 = x: int | I128_MIN <= x <= I128_MAX

  /** Ids, positions, counts, page bounds and timestamps are unsigned 64-bit integers. */
  type U64 = x: int | 0 <= x <= U64_MAX

  datatype RefundStatus = Requested | Approved | Rejected | Processed

  /** The error enumeration. In the source two pairs of variants share a
      discriminant; here every variant is its own constructor. */
  datatype Error =
    | InvalidAmount
    | RefundNotFound
    | Unauthorized
    | InvalidPaymentId
    | TransferFailed
    | NotApproved
    | InvalidStatus
    | AlreadyProcessed
    | RefundExceedsPayment
    | TotalRefundsExceedPayment

  datatype Refund = Refund(
    id: nat,
    paymentId: nat,
    merchant: Address,
    customer: Address,
    amount: I128,
    originalPaymentAmount: I128,
    token: Address,
    status: RefundStatus,
    requestedAt: nat,
    reason: string)

  /** The events the contract publishes, in the order it publishes them. */
  datatype Event =
    | RefundRequested(refundId: nat, paymentId: nat, merchant: Address, customer: Address, amount: I128, token: Address)
    | RefundApproved(refundId: nat, approvedBy: Address, approvedAt: nat)
    | RefundRejected(refundId: nat, rejectedBy: Address, rejectedAt: nat, rejectionReason: string)

  /** `Result<(), Error>` of the source. */
  datatype Outcome = Pass | Fail(error: Error)

  /** `Result<T, Error>` of the source. */
  datatype Result<T> = Ok(value: T) | Err(error: Error)

  /** `i128::saturating_add`: the exact sum, clamped to the i128 range. */
  function SaturatingAdd(a: int, b: int): I128
  {
    if a + b > I128_MAX then I128_MAX
    else if a + b < I128_MIN then I128_MIN
    else a + b
  }

  /** `u64::saturating_add` on two unsigned operands. */
  function SaturatingAddU64(a: U64, b: U64): U64
  {
    if a + b > U64_MAX then U64_MAX else a + b
  }

  function Min(a: int, b: int): int
  {
    if a <= b then a else b
  }

  /** The status of every stored refund, keyed by id. */
  function StatusOf(refunds: map<nat, Refund>): (st: map<nat, RefundStatus>)
    ensures st.Keys == refunds.Keys
    ensures forall id :: id in st ==> st[id] == refunds[id].status
  {
    map id | id in refunds :: refunds[id].status
  }

  /** Writing one record changes the status map at that id only. */
  lemma StatusOfWrite(refunds: map<nat, Refund>, id: nat, r: Refund)
    ensures StatusOf(refunds[id := r]) == StatusOf(refunds)[id := r.status]
  {
  }
}
