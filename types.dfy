/** Records of the ledger: accounts, companies, equity allocations and the
    append-only tables (transactions, investment audit trail, earnings and
    payouts), and the whole store as one value. */
module LedgerTypes {

  type UserId = string
  type CompanyId = string

  datatype Option<T> = None | Some(value: T)

  /** The failure kinds the storage layer reports instead of throwing. */
  datatype Error =
    | UserNotFound
    | WouldGoNegative
    | RecipientNotFound
    | InsufficientBalance
    | EquityOverallocated
    | CompanyNotFound
    | PoolExhausted
    | FundingCapExceeded(remaining: int)
    | InsufficientTreasury(available: int, required: int)
    | StoreRejected  // the database refused a write, so the whole transaction rolled back

  datatype Result<T> = Ok(value: T) | Err(error: Error)

  datatype Account = Account(email: string, balance: int, isAdmin: bool, isBanned: bool)

  datatype Company = Company(
    name: string,
    createdById: UserId,
    fundingGoal: nat,
    currentFunding: int,
    treasuryBalance: int,
    investorPoolBps: nat,
    allocatedInvestorBps: int,
    totalEarningsDistributed: int,
    isDeleted: bool)

  datatype TxType = Transfer | Invest | Earn | Refund | AdminAdjust

  datatype Transaction = Transaction(
    fromUserId: UserId,
    toUserId: UserId,
    amount: int,
    txType: TxType,
    companyId: Option<CompanyId>)

  /** One row of the equity table: `basisPoints` of `companyId` held by `userId`. */
  datatype Allocation = Allocation(
    companyId: CompanyId,
    userId: UserId,
    basisPoints: int,
    canReceivePayouts: bool)

  /** A founder or team member named by email in a new company's cap table. */
  datatype FounderAllocation = FounderAllocation(email: string, basisPoints: nat)

  /** The investment audit trail. */
  datatype Investment = Investment(
    companyId: CompanyId,
    userId: UserId,
    amount: int,
    basisPointsReceived: int)

  datatype Earnings = Earnings(
    companyId: CompanyId,
    grossAmount: int,
    adminShare: int,
    distributableAmount: int,
    distributedById: UserId)

  datatype PayoutType = AdminPayout | InvestorPayout | Withheld

  /** `earningsId` is the position of the earnings record in the earnings table. */
  datatype Payout = Payout(
    earningsId: nat,
    companyId: CompanyId,
    userId: Option<UserId>,
    amount: int,
    payoutType: PayoutType)

  /** The tables the ledger operations read and write. */
  datatype Db = Db(
    users: map<UserId, Account>,
    companies: map<CompanyId, Company>,
    allocations: seq<Allocation>,
    transactions: seq<Transaction>,
    investments: seq<Investment>,
    earnings: seq<Earnings>,
    payouts: seq<Payout>)

  /** What one operation returns, together with the store it commits. */
  datatype Step<T> = Step(result: Result<T>, db: Db)

  datatype DeleteReport = DeleteReport(refundedInvestors: nat, totalRefunded: int)

  datatype DistributionReport = DistributionReport(adminShare: int, investorPayouts: int)
}
