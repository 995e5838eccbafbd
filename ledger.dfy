/** The ledger operations of the storage layer, each as a function from the
    store before the database transaction to its result and the store the
    transaction commits. The steps follow the source in order; a `return`
    inside a transaction commits what was written before it, a throw rolls
    everything back. */
module Ledger {
  import opened LedgerTypes
  import opened Equity
  import opened Balances

  // ---- The store's invariant

  ghost predicate EmailsUnique(users: map<UserId, Account>)
  {
    forall u, v :: u in users && v in users && users[u].email == users[v].email ==> u == v
  }

  /** Funding within the goal, granted investor bps within the pool and in
      proportion to the funding, a non-negative treasury. */
  predicate CompanyInvariant(c: Company)
  {
    && 0 <= c.currentFunding <= c.fundingGoal
    && 0 <= c.allocatedInvestorBps <= c.investorPoolBps
    && c.allocatedInvestorBps * c.fundingGoal <= c.investorPoolBps * c.currentFunding
    && c.treasuryBalance >= 0
  }

  ghost predicate Valid(db: Db)
  {
    && EmailsUnique(db.users)
    && (forall id :: id in db.companies ==> CompanyInvariant(db.companies[id]))
    && (forall i :: 0 <= i < |db.allocations| ==>
          db.allocations[i].companyId in db.companies && db.allocations[i].basisPoints >= 0)
  }

  /** `admins` is what the query for active admins returns: every admin who
      is not banned, once each. */
  ghost predicate ActiveAdmins(users: map<UserId, Account>, admins: seq<UserId>)
  {
    && (forall i, j :: 0 <= i < j < |admins| ==> admins[i] != admins[j])
    && (forall u :: u in admins <==> u in users && users[u].isAdmin && !users[u].isBanned)
  }

  /** The company exists and is not soft-deleted. */
  predicate IsOpen(db: Db, c: CompanyId)
  {
    c in db.companies && !db.companies[c].isDeleted
  }

  /** The guarded debit succeeds: the user exists and has the amount. */
  predicate CanDebit(users: map<UserId, Account>, u: UserId, amount: int)
  {
    u in users && users[u].balance >= amount
  }

  function Abs(x: int): nat
  {
    if x < 0 then -x else x
  }

  // ---- adminAdjustBalance

  /** Adds a signed amount to a user's balance unless the result would be
      negative, and logs an `admin_adjust` record of the amount's magnitude. */
  function AdminAdjustBalance(db: Db, userId: UserId, amount: int, adminId: UserId): (s: Step<()>)
    ensures s.result.Ok? <==> userId in db.users && db.users[userId].balance + amount >= 0
    ensures s.result.Err? ==> s.db == db
    ensures s.result == Err(UserNotFound) <==> userId !in db.users
    ensures s.result.Ok? ==>
      && SameAccounts(db.users, s.db.users)
      && s.db.users[userId].balance == db.users[userId].balance + amount
      && (forall u :: u in db.users && u != userId ==> s.db.users[u] == db.users[u])
      && s.db.transactions == db.transactions + [Transaction(adminId, userId, Abs(amount), AdminAdjust, None)]
      && s.db.(users := db.users, transactions := db.transactions) == db
  {
    if userId !in db.users then Step(Err(UserNotFound), db)
    else
      var newBalance := db.users[userId].balance + amount;
      if newBalance < 0 then Step(Err(WouldGoNegative), db)
      else
        Step(Ok(()), db.(
          users := db.users[userId := db.users[userId].(balance := newBalance)],
          transactions := db.transactions + [Transaction(adminId, userId, Abs(amount), AdminAdjust, None)]))
  }

  // ---- sendMoney

  /** A transfer: the recipient must exist, the sender is debited only when
      the balance covers the amount, then the recipient is credited and one
      `transfer` record is logged. */
  function SendMoney(db: Db, fromUserId: UserId, toUserId: UserId, amount: int): (s: Step<()>)
    ensures s.result.Ok? <==> toUserId in db.users && fromUserId in db.users && db.users[fromUserId].balance >= amount
    ensures s.result.Err? ==> s.db == db
    ensures s.result == Err(RecipientNotFound) <==> toUserId !in db.users
    ensures s.result == Err(InsufficientBalance) <==> toUserId in db.users && !CanDebit(db.users, fromUserId, amount)
    ensures s.result.Ok? ==>
      && SameAccounts(db.users, s.db.users)
      && (forall u :: u in db.users ==>
            s.db.users[u].balance == db.users[u].balance
              - (if u == fromUserId then amount else 0) + (if u == toUserId then amount else 0))
      && s.db.transactions == db.transactions + [Transaction(fromUserId, toUserId, amount, Transfer, None)]
      && s.db.(users := db.users, transactions := db.transactions) == db
  {
    if toUserId !in db.users then Step(Err(RecipientNotFound), db)
    else if fromUserId !in db.users || db.users[fromUserId].balance < amount then Step(Err(InsufficientBalance), db)
    else
      var debited := Credit(db.users, fromUserId, -amount);
      Step(Ok(()), db.(
        users := Credit(debited, toUserId, amount),
        transactions := db.transactions + [Transaction(fromUserId, toUserId, amount, Transfer, None)]))
  }

  // ---- createCompany

  /** The user an email belongs to, if any. */
  ghost function ResolveEmail(users: map<UserId, Account>, email: string): (r: Option<UserId>)
    ensures r.Some? ==> r.value in users && users[r.value].email == email
    ensures r.None? ==> forall u :: u in users ==> users[u].email != email
  {
    if exists u :: u in users && users[u].email == email then
      var u :| u in users && users[u].email == email; Some(u)
    else None
  }

  /** The rows the admin loop of company creation inserts, in order. */
  function AdminAllocations(id: CompanyId, admins: seq<UserId>): (r: seq<Allocation>)
    ensures |r| == |admins|
    ensures forall i :: 0 <= i < |admins| ==> r[i] == Allocation(id, admins[i], AdminBpsPerAdmin, true)
    decreases |admins|
  {
    if admins == [] then []
    else AdminAllocations(id, admins[..|admins| - 1]) + [Allocation(id, admins[|admins| - 1], AdminBpsPerAdmin, true)]
  }

  /** The row inserted for one founder allocation: none when the email
      resolves to no user. */
  ghost function FounderRow(users: map<UserId, Account>, id: CompanyId, f: FounderAllocation): seq<Allocation>
  {
    match ResolveEmail(users, f.email)
    case Some(u) => [Allocation(id, u, f.basisPoints, true)]
    case None => []
  }

  /** The rows the founder loop of company creation inserts, in order. */
  ghost function FounderAllocations(users: map<UserId, Account>, id: CompanyId, fs: seq<FounderAllocation>): (r: seq<Allocation>)
    ensures |r| <= |fs|
    ensures forall i :: 0 <= i < |r| ==> r[i].companyId == id && r[i].userId in users && r[i].canReceivePayouts && r[i].basisPoints >= 0
    decreases |fs|
  {
    if fs == [] then []
    else FounderAllocations(users, id, fs[..|fs| - 1]) + FounderRow(users, id, fs[|fs| - 1])
  }

  function NewCompany(name: string, createdById: UserId, fundingGoal: nat, investorPoolBps: nat): Company
  {
    Company(name, createdById, fundingGoal, 0, 0, investorPoolBps, 0, 0, false)
  }

  /** Company creation: the cap table (founder bps, investor pool and 150 bps
      per active admin) may not exceed 10001 bps; the company starts with zero
      funding, treasury and granted pool; every admin and every founder whose
      email resolves gets a row. */
  ghost function CreateCompany(db: Db, id: CompanyId, name: string, createdById: UserId, fundingGoal: nat,
                               investorPoolBps: nat, founders: seq<FounderAllocation>, admins: seq<UserId>): (s: Step<Company>)
    ensures s.result.Ok? <==> CapTableFits(SumFounderBps(founders), investorPoolBps, |admins|)
    ensures s.result.Err? ==> s.result.error == EquityOverallocated && s.db == db
    ensures s.result.Ok? ==>
      && s.result.value.currentFunding == 0
      && s.result.value.treasuryBalance == 0
      && s.result.value.allocatedInvestorBps == 0
      && s.result.value.totalEarningsDistributed == 0
      && !s.result.value.isDeleted
      && s.result.value.fundingGoal == fundingGoal
      && s.result.value.investorPoolBps == investorPoolBps
      && s.result.value.createdById == createdById
      && s.db.companies == db.companies[id := s.result.value]
      && s.db.allocations == db.allocations + AdminAllocations(id, admins) + FounderAllocations(db.users, id, founders)
      && s.db.(companies := db.companies, allocations := db.allocations) == db
  {
    if !CapTableFits(SumFounderBps(founders), investorPoolBps, |admins|) then
      Step(Err(EquityOverallocated), db)
    else
      var company := NewCompany(name, createdById, fundingGoal, investorPoolBps);
      Step(Ok(company), db.(
        companies := db.companies[id := company],
        allocations := db.allocations + AdminAllocations(id, admins) + FounderAllocations(db.users, id, founders)))
  }

  // ---- investInCompany

  /** The row of `c`'s equity held by `u` that the upsert updates. The lookup
      with limit 1 has no order, so when `u` holds several rows any of them
      may come back; the model takes the lowest-indexed one. */
  function FirstAllocation(allocs: seq<Allocation>, c: CompanyId, u: UserId): (r: Option<nat>)
    ensures r.Some? ==>
      && r.value < |allocs|
      && allocs[r.value].companyId == c && allocs[r.value].userId == u
      && forall j :: 0 <= j < r.value ==> !(allocs[j].companyId == c && allocs[j].userId == u)
    ensures r.None? ==> forall j :: 0 <= j < |allocs| ==> !(allocs[j].companyId == c && allocs[j].userId == u)
    decreases |allocs|
  {
    if allocs == [] then None
    else if allocs[0].companyId == c && allocs[0].userId == u then Some(0)
    else
      match FirstAllocation(allocs[1..], c, u)
      case Some(k) => Some(k + 1)
      case None => None
  }

  /** Adds `bps` to the investor's existing row, or inserts a new eligible row. */
  function UpsertAllocation(allocs: seq<Allocation>, c: CompanyId, u: UserId, bps: int): (r: seq<Allocation>)
    ensures |allocs| <= |r| <= |allocs| + 1
    ensures FirstAllocation(r, c, u).Some?
  {
    match FirstAllocation(allocs, c, u)
    case Some(i) =>
      var r := allocs[i := allocs[i].(basisPoints := allocs[i].basisPoints + bps)];
      assert r[i].companyId == c && r[i].userId == u;
      r
    case None =>
      var r := allocs + [Allocation(c, u, bps, true)];
      assert r[|allocs|].companyId == c && r[|allocs|].userId == u;
      r
  }

  /** The company row after a successful investment. */
  function Funded(co: Company, amount: int, granted: int): Company
  {
    co.(currentFunding := co.currentFunding + amount,
        allocatedInvestorBps := co.allocatedInvestorBps + granted,
        treasuryBalance := co.treasuryBalance + amount)
  }

  /** The success path of an investment, from the store with the investor
      already debited. */
  function CommitInvestment(debited: Db, companyId: CompanyId, userId: UserId, amount: int, granted: int): Db
    requires companyId in debited.companies
  {
    var co := debited.companies[companyId];
    debited.(
      companies := debited.companies[companyId := Funded(co, amount, granted)],
      allocations := UpsertAllocation(debited.allocations, companyId, userId, granted),
      investments := debited.investments + [Investment(companyId, userId, amount, granted)],
      transactions := debited.transactions + [Transaction(userId, co.createdById, amount, Invest, Some(companyId))])
  }

  /** The bps an investment is granted. A zero goal never reaches the commit
      (the grant is then NaN, which the store refuses), so the zero there is
      never used. */
  function GrantFor(co: Company, amount: int): int
  {
    if co.fundingGoal > 0 then GrantedBps(co.investorPoolBps, amount, co.fundingGoal) else 0
  }

  /** The investor-pool guard on the company's current row. */
  predicate PoolGuard(co: Company, amount: int)
    requires amount > 0
  {
    PoolCheckPasses(co.investorPoolBps, co.allocatedInvestorBps, amount, co.fundingGoal)
  }

  /** An investment AS THE SOURCE WRITES IT: the pool guard, the guarded
      debit of the investor, and only then the company update. With a zero
      goal the grant bound into that update is NaN, which the store refuses,
      rolling the debit back; otherwise a failing headroom guard is a plain
      return, so the debit is committed. */
  function InvestInCompany(db: Db, companyId: CompanyId, userId: UserId, amount: int): (s: Step<int>)
    requires amount > 0
    ensures s.result == Err(CompanyNotFound) <==> !IsOpen(db, companyId)
    ensures s.result == Err(PoolExhausted) <==> IsOpen(db, companyId) && !PoolGuard(db.companies[companyId], amount)
    ensures s.result == Err(InsufficientBalance) <==>
      IsOpen(db, companyId) && PoolGuard(db.companies[companyId], amount) && !CanDebit(db.users, userId, amount)
    ensures s.result == Err(StoreRejected) <==>
      && IsOpen(db, companyId) && PoolGuard(db.companies[companyId], amount) && CanDebit(db.users, userId, amount)
      && db.companies[companyId].fundingGoal == 0
    ensures (s.result.Err? && s.result.error.FundingCapExceeded?) <==>
      && IsOpen(db, companyId) && PoolGuard(db.companies[companyId], amount) && CanDebit(db.users, userId, amount)
      && db.companies[companyId].fundingGoal > 0
      && db.companies[companyId].fundingGoal - db.companies[companyId].currentFunding < amount
    ensures s.result.Ok? <==>
      && IsOpen(db, companyId) && PoolGuard(db.companies[companyId], amount) && CanDebit(db.users, userId, amount)
      && db.companies[companyId].fundingGoal > 0
      && db.companies[companyId].fundingGoal - db.companies[companyId].currentFunding >= amount
    ensures s.result.Err? && !s.result.error.FundingCapExceeded? ==> s.db == db
    ensures s.result.Err? && s.result.error.FundingCapExceeded? ==>
      && s.db == db.(users := Credit(db.users, userId, -amount))
      && companyId in db.companies
      && s.result.error.remaining == db.companies[companyId].fundingGoal - db.companies[companyId].currentFunding
    ensures s.result.Ok? ==>
      && s.result.value == GrantedBps(db.companies[companyId].investorPoolBps, amount, db.companies[companyId].fundingGoal)
      && s.db == CommitInvestment(db.(users := Credit(db.users, userId, -amount)), companyId, userId, amount, s.result.value)
  {
    if companyId !in db.companies || db.companies[companyId].isDeleted then Step(Err(CompanyNotFound), db)
    else
      var co := db.companies[companyId];
      if !PoolCheckPasses(co.investorPoolBps, co.allocatedInvestorBps, amount, co.fundingGoal) then
        Step(Err(PoolExhausted), db)
      else if userId !in db.users || db.users[userId].balance < amount then
        Step(Err(InsufficientBalance), db)
      else
        var debited := db.(users := Credit(db.users, userId, -amount));
        if co.fundingGoal == 0 then Step(Err(StoreRejected), db)
        else if co.fundingGoal - co.currentFunding < amount then
          Step(Err(FundingCapExceeded(co.fundingGoal - co.currentFunding)), debited)
        else
          var granted := GrantFor(co, amount);
          Step(Ok(granted), CommitInvestment(debited, companyId, userId, amount, granted))
  }

  /** The investment as evidently intended: the same guards in the same
      order, but a failing headroom guard commits nothing. */
  function InvestInCompanyAtomic(db: Db, companyId: CompanyId, userId: UserId, amount: int): (s: Step<int>)
    requires amount > 0
    ensures s.result.Err? ==> s.db == db
  {
    if companyId !in db.companies || db.companies[companyId].isDeleted then Step(Err(CompanyNotFound), db)
    else
      var co := db.companies[companyId];
      if !PoolCheckPasses(co.investorPoolBps, co.allocatedInvestorBps, amount, co.fundingGoal) then
        Step(Err(PoolExhausted), db)
      else if userId !in db.users || db.users[userId].balance < amount then
        Step(Err(InsufficientBalance), db)
      else if co.fundingGoal == 0 then
        Step(Err(StoreRejected), db)
      else if co.fundingGoal - co.currentFunding < amount then
        Step(Err(FundingCapExceeded(co.fundingGoal - co.currentFunding)), db)
      else
        var granted := GrantFor(co, amount);
        Step(Ok(granted), CommitInvestment(db.(users := Credit(db.users, userId, -amount)), companyId, userId, amount, granted))
  }

  // ---- distributeEarnings

  /** The equity rows of company `c`. The select has no order; the model
      lists them in table order, which is one of the orders it may return. */
  function Holders(allocs: seq<Allocation>, c: CompanyId): (r: seq<Allocation>)
    ensures |r| <= |allocs|
    ensures forall i :: 0 <= i < |r| ==> r[i].companyId == c && r[i] in allocs
    ensures forall i :: 0 <= i < |allocs| && allocs[i].companyId == c ==> allocs[i] in r
    decreases |allocs|
  {
    if allocs == [] then []
    else
      var init := Holders(allocs[..|allocs| - 1], c);
      var last := allocs[|allocs| - 1];
      if last.companyId == c then init + [last] else init
  }

  /** One iteration of the admin loop: credit the fee, record it as an admin
      payout and an `earn` transaction. */
  function PayAdmin(db: Db, c: CompanyId, eid: nat, creator: UserId, admin: UserId, fee: int): Db
  {
    db.(users := Credit(db.users, admin, fee),
        payouts := db.payouts + [Payout(eid, c, Some(admin), fee, AdminPayout)],
        transactions := db.transactions + [Transaction(creator, admin, fee, Earn, Some(c))])
  }

  /** The admin loop: one fee, one payout row and one `earn` record per admin. */
  function PayAdmins(db: Db, c: CompanyId, eid: nat, creator: UserId, admins: seq<UserId>, fee: int): (r: Db)
    ensures |r.payouts| == |db.payouts| + |admins|
    decreases |admins|
  {
    if admins == [] then db
    else PayAdmin(PayAdmins(db, c, eid, creator, admins[..|admins| - 1], fee), c, eid, creator, admins[|admins| - 1], fee)
  }

  /** A holder is paid when its row allows payouts and its user exists and is not banned. */
  predicate Eligible(users: map<UserId, Account>, h: Allocation)
  {
    h.canReceivePayouts && h.userId in users && !users[h.userId].isBanned
  }

  /** One iteration of the holder loop: pay an eligible holder, otherwise
      record the share as withheld, with no user and no balance change. */
  function PayHolder(db: Db, c: CompanyId, eid: nat, creator: UserId, h: Allocation, share: int): Db
  {
    if Eligible(db.users, h) then
      db.(users := Credit(db.users, h.userId, share),
          payouts := db.payouts + [Payout(eid, c, Some(h.userId), share, InvestorPayout)],
          transactions := db.transactions + [Transaction(creator, h.userId, share, Earn, Some(c))])
    else
      db.(payouts := db.payouts + [Payout(eid, c, None, share, Withheld)])
  }

  /** The holder loop: one payout row per holder, paid or withheld, and one
      `earn` record per paid holder. */
  function PayHolders(db: Db, c: CompanyId, eid: nat, creator: UserId, hs: seq<Allocation>, totalBps: int, distributable: int): (r: Db)
    requires totalBps > 0
    ensures |r.payouts| == |db.payouts| + |hs|
    decreases |hs|
  {
    if hs == [] then db
    else
      var h := hs[|hs| - 1];
      PayHolder(PayHolders(db, c, eid, creator, hs[..|hs| - 1], totalBps, distributable),
                c, eid, creator, h, HolderShare(h.basisPoints, totalBps, distributable))
  }

  /** The company row after a distribution. */
  function Distributed(co: Company, grossAmount: int): Company
  {
    co.(treasuryBalance := co.treasuryBalance - grossAmount,
        totalEarningsDistributed := co.totalEarningsDistributed + grossAmount)
  }

  /** Earnings distribution: the treasury must cover the gross; each active
      admin gets the 1.5% fee; the rest is shared by bps among all holders of
      the company, eligible ones paid and the others' shares withheld; the
      treasury drops by the gross. Holders whose bps sum to zero make every
      share NaN, which the database refuses, rolling everything back. */
  function DistributeEarnings(db: Db, c: CompanyId, grossAmount: int, distributedById: UserId, admins: seq<UserId>): (s: Step<DistributionReport>)
    ensures s.result.Err? ==> s.db == db
    ensures s.result.Ok? <==>
      && c in db.companies && !db.companies[c].isDeleted
      && db.companies[c].treasuryBalance >= grossAmount
      && (Holders(db.allocations, c) == [] || SumBps(Holders(db.allocations, c)) > 0)
    ensures s.result.Ok? ==>
      && s.result.value.adminShare == AdminFeePerAdmin(grossAmount) * |admins|
      && s.result.value.investorPayouts == grossAmount - s.result.value.adminShare
      && s.db.companies == db.companies[c := Distributed(db.companies[c], grossAmount)]
      && s.db.earnings == db.earnings + [Earnings(c, grossAmount, s.result.value.adminShare, s.result.value.investorPayouts, distributedById)]
      && s.db.allocations == db.allocations
      && s.db.investments == db.investments
  {
    if c !in db.companies || db.companies[c].isDeleted then Step(Err(CompanyNotFound), db)
    else
      var co := db.companies[c];
      if co.treasuryBalance < grossAmount then
        Step(Err(InsufficientTreasury(co.treasuryBalance, grossAmount)), db)
      else
        var fee := AdminFeePerAdmin(grossAmount);
        var adminShare := fee * |admins|;
        var distributable := grossAmount - adminShare;
        var eid := |db.earnings|;
        var db1 := db.(earnings := db.earnings + [Earnings(c, grossAmount, adminShare, distributable, distributedById)]);
        var db2 := PayAdmins(db1, c, eid, co.createdById, admins, fee);
        var holders := Holders(db.allocations, c);
        var totalBps := SumBps(holders);
        if holders != [] && totalBps <= 0 then Step(Err(StoreRejected), db)
        else
          var db3 := if holders == [] then db2 else PayHolders(db2, c, eid, co.createdById, holders, totalBps, distributable);
          assert db3.companies == db.companies && db3.allocations == db.allocations && db3.investments == db.investments
                 && db3.earnings == db1.earnings by {
            PayAdminsFrame(db1, c, eid, co.createdById, admins, fee);
            if holders != [] { PayHoldersFrame(db2, c, eid, co.createdById, holders, totalBps, distributable); }
          }
          Step(Ok(DistributionReport(adminShare, distributable)),
               db3.(companies := db3.companies[c := Distributed(co, grossAmount)]))
  }

  /** The loops of a distribution touch balances, payouts and transactions only. */
  lemma {:induction false} PayAdminsFrame(db: Db, c: CompanyId, eid: nat, creator: UserId, admins: seq<UserId>, fee: int)
    ensures var r := PayAdmins(db, c, eid, creator, admins, fee);
      r.companies == db.companies && r.allocations == db.allocations && r.investments == db.investments
      && r.earnings == db.earnings && SameAccounts(db.users, r.users)
    decreases |admins|
  {
    if admins != [] {
      PayAdminsFrame(db, c, eid, creator, admins[..|admins| - 1], fee);
    }
  }

  lemma {:induction false} PayHoldersFrame(db: Db, c: CompanyId, eid: nat, creator: UserId, hs: seq<Allocation>, totalBps: int, distributable: int)
    requires totalBps > 0
    ensures var r := PayHolders(db, c, eid, creator, hs, totalBps, distributable);
      r.companies == db.companies && r.allocations == db.allocations && r.investments == db.investments
      && r.earnings == db.earnings && SameAccounts(db.users, r.users)
    decreases |hs|
  {
    if hs != [] {
      PayHoldersFrame(db, c, eid, creator, hs[..|hs| - 1], totalBps, distributable);
    }
  }

  // ---- deleteCompany

  /** The `invest` transactions of company `c`. The select has no order; the
      model lists them in log order, which is one of the orders it may return. */
  function InvestmentsIn(txs: seq<Transaction>, c: CompanyId): (r: seq<Transaction>)
    ensures forall i :: 0 <= i < |r| ==> r[i].txType == Invest && r[i].companyId == Some(c) && r[i] in txs
    ensures forall i :: 0 <= i < |txs| && txs[i].txType == Invest && txs[i].companyId == Some(c) ==> txs[i] in r
    decreases |txs|
  {
    if txs == [] then []
    else
      var init := InvestmentsIn(txs[..|txs| - 1], c);
      var last := txs[|txs| - 1];
      if last.txType == Invest && last.companyId == Some(c) then init + [last] else init
  }

  /** The per-investor totals, with the investors in first-seen order (the
      iteration order of the source's Map). */
  datatype Refunds = Refunds(amounts: map<UserId, int>, order: seq<UserId>)

  function AddInvestment(g: Refunds, t: Transaction): Refunds
  {
    if t.fromUserId in g.amounts then Refunds(g.amounts[t.fromUserId := g.amounts[t.fromUserId] + t.amount], g.order)
    else Refunds(g.amounts[t.fromUserId := t.amount], g.order + [t.fromUserId])
  }

  /** The refund loop's grouping of the investments by investor. */
  function GroupRefunds(invs: seq<Transaction>): (r: Refunds)
    ensures |r.amounts| == |r.order| <= |invs|
    decreases |invs|
  {
    if invs == [] then Refunds(map[], [])
    else AddInvestment(GroupRefunds(invs[..|invs| - 1]), invs[|invs| - 1])
  }

  /** One iteration of the refund loop: credit the investor and log a `refund`. */
  function RefundOne(db: Db, c: CompanyId, creator: UserId, investor: UserId, amount: int): Db
  {
    db.(users := Credit(db.users, investor, amount),
        transactions := db.transactions + [Transaction(creator, investor, amount, Refund, Some(c))])
  }

  /** The refund loop: one credit and one `refund` record per investor. */
  function RefundAll(db: Db, c: CompanyId, creator: UserId, order: seq<UserId>, amounts: map<UserId, int>): (r: Db)
    requires forall u :: u in order ==> u in amounts
    ensures |r.transactions| == |db.transactions| + |order|
    decreases |order|
  {
    if order == [] then db
    else
      var v := order[|order| - 1];
      RefundOne(RefundAll(db, c, creator, order[..|order| - 1], amounts), c, creator, v, amounts[v])
  }

  /** Running totals of the refund loop: all refunds, and those to investors
      other than the creator. */
  function RefundedTotal(order: seq<UserId>, amounts: map<UserId, int>): int
    requires forall u :: u in order ==> u in amounts
    decreases |order|
  {
    if order == [] then 0 else RefundedTotal(order[..|order| - 1], amounts) + amounts[order[|order| - 1]]
  }

  function RefundedToOthers(order: seq<UserId>, amounts: map<UserId, int>, creator: UserId): int
    requires forall u :: u in order ==> u in amounts
    decreases |order|
  {
    if order == [] then 0
    else
      var v := order[|order| - 1];
      RefundedToOthers(order[..|order| - 1], amounts, creator) + (if v != creator then amounts[v] else 0)
  }

  /** The investors are listed once each, and exactly the keys of the totals. */
  ghost predicate RefundsWellFormed(g: Refunds)
  {
    && (forall u :: u in g.order <==> u in g.amounts)
    && (forall i, j :: 0 <= i < j < |g.order| ==> g.order[i] != g.order[j])
  }

  lemma {:induction false} GroupRefundsShape(invs: seq<Transaction>)
    ensures RefundsWellFormed(GroupRefunds(invs))
    decreases |invs|
  {
    if invs != [] {
      var prev := GroupRefunds(invs[..|invs| - 1]);
      GroupRefundsShape(invs[..|invs| - 1]);
      var t := invs[|invs| - 1];
      assert GroupRefunds(invs) == AddInvestment(prev, t);
      if t.fromUserId !in prev.amounts {
        assert t.fromUserId !in prev.order;
        var o := prev.order + [t.fromUserId];
        assert forall i :: 0 <= i < |prev.order| ==> o[i] == prev.order[i];
      }
    }
  }

  /** Company deletion AS THE SOURCE WRITES IT: it fails only for an unknown
      id (an already deleted company is refunded again); each investor gets
      back the sum of their `invest` transactions with one `refund` record;
      the creator is debited, without a balance guard, what went to the
      other investors; the company is marked deleted. */
  function DeleteCompany(db: Db, c: CompanyId): (s: Step<DeleteReport>)
    ensures s.result.Err? <==> c !in db.companies
    ensures s.result.Err? ==> s.result.error == CompanyNotFound && s.db == db
    ensures s.result.Ok? ==>
      && s.db.companies == db.companies[c := db.companies[c].(isDeleted := true)]
      && s.result.value.refundedInvestors == |GroupRefunds(InvestmentsIn(db.transactions, c)).amounts.Keys|
      && SameAccounts(db.users, s.db.users)
      && s.db.(users := db.users, companies := db.companies, transactions := db.transactions) == db
  {
    if c !in db.companies then Step(Err(CompanyNotFound), db)
    else
      var g := GroupRefunds(InvestmentsIn(db.transactions, c));
      GroupRefundsShape(InvestmentsIn(db.transactions, c));
      CommitDeletionEffects(db, c, g);
      CommitDeletion(db, c, g)
  }

  /** What a successful deletion commits, given the grouping of the
      company's investments: the refund loop, the creator's debit for what
      went to the others, and the soft delete. */
  function CommitDeletion(db: Db, c: CompanyId, g: Refunds): Step<DeleteReport>
    requires c in db.companies
    requires forall u :: u in g.order ==> u in g.amounts
  {
    var co := db.companies[c];
    var db1 := RefundAll(db, c, co.createdById, g.order, g.amounts);
    var others := RefundedToOthers(g.order, g.amounts, co.createdById);
    var db2 := if others > 0 then db1.(users := Credit(db1.users, co.createdById, -others)) else db1;
    Step(Ok(DeleteReport(|g.order|, RefundedTotal(g.order, g.amounts))),
         db2.(companies := db2.companies[c := co.(isDeleted := true)]))
  }

  /** The committed deletion in terms of the results of its two loops. */
  lemma CommitDeletionSteps(db: Db, c: CompanyId, g: Refunds, db1: Db, others: int)
    requires c in db.companies
    requires forall u :: u in g.order ==> u in g.amounts
    requires db1 == RefundAll(db, c, db.companies[c].createdById, g.order, g.amounts)
    requires others == RefundedToOthers(g.order, g.amounts, db.companies[c].createdById)
    ensures var co := db.companies[c];
      var db2 := if others > 0 then db1.(users := Credit(db1.users, co.createdById, -others)) else db1;
      CommitDeletion(db, c, g) == Step(Ok(DeleteReport(|g.order|, RefundedTotal(g.order, g.amounts))),
                                       db2.(companies := db2.companies[c := co.(isDeleted := true)]))
  {
  }

  lemma CommitDeletionEffects(db: Db, c: CompanyId, g: Refunds)
    requires c in db.companies && RefundsWellFormed(g)
    ensures var s := CommitDeletion(db, c, g);
      && s.result.Ok?
      && s.result.value.refundedInvestors == |g.amounts.Keys|
      && s.db.companies == db.companies[c := db.companies[c].(isDeleted := true)]
      && SameAccounts(db.users, s.db.users)
      && s.db.(users := db.users, companies := db.companies, transactions := db.transactions) == db
  {
    var co := db.companies[c];
    DistinctCard(g.order, g.amounts.Keys);
    RefundAllFrame(db, c, co.createdById, g.order, g.amounts);
  }

  /** The successful deletion, in terms of the grouping of its first loop. */
  lemma DeleteCompanySteps(db: Db, c: CompanyId, g: Refunds)
    requires c in db.companies
    requires g == GroupRefunds(InvestmentsIn(db.transactions, c))
    requires forall u :: u in g.order ==> u in g.amounts
    ensures DeleteCompany(db, c) == CommitDeletion(db, c, g)
  {
  }

  lemma {:induction false} RefundAllFrame(db: Db, c: CompanyId, creator: UserId, order: seq<UserId>, amounts: map<UserId, int>)
    requires forall u :: u in order ==> u in amounts
    ensures var r := RefundAll(db, c, creator, order, amounts);
      SameAccounts(db.users, r.users) && r.(users := db.users, transactions := db.transactions) == db
    decreases |order|
  {
    if order != [] {
      RefundAllFrame(db, c, creator, order[..|order| - 1], amounts);
    }
  }

  /** A duplicate-free sequence has as many elements as the set it lists. */
  lemma {:induction false} DistinctCard(s: seq<UserId>, keys: set<UserId>)
    requires forall i, j :: 0 <= i < j < |s| ==> s[i] != s[j]
    requires forall u :: u in s <==> u in keys
    ensures |s| == |keys|
    decreases |s|
  {
    if s != [] {
      var init := s[..|s| - 1];
      var last := s[|s| - 1];
      assert last !in init;
      DistinctCard(init, keys - {last});
    }
  }

  /** The company deletion as evidently intended: a company already deleted
      is not found, so its investors are refunded only once. */
  function DeleteCompanyOnce(db: Db, c: CompanyId): (s: Step<DeleteReport>)
    ensures s.result.Err? <==> c !in db.companies || db.companies[c].isDeleted
    ensures s.result.Err? ==> s.db == db
  {
    if c !in db.companies || db.companies[c].isDeleted then Step(Err(CompanyNotFound), db)
    else DeleteCompany(db, c)
  }

  /** The company deletion with the creator's debit as a guarded decrement,
      like the debits of a transfer, an investment and an admin adjustment:
      when the creator cannot cover
      the refunds paid to the others, the deletion fails and nothing is
      written. */
  function DeleteCompanyGuarded(db: Db, c: CompanyId): (s: Step<DeleteReport>)
    ensures s.result.Err? ==> s.db == db
    ensures s.result == Err(CompanyNotFound) <==> c !in db.companies
    ensures s.result.Ok? ==> s == DeleteCompany(db, c)
  {
    if c !in db.companies then Step(Err(CompanyNotFound), db)
    else
      var co := db.companies[c];
      var g := GroupRefunds(InvestmentsIn(db.transactions, c));
      GroupRefundsShape(InvestmentsIn(db.transactions, c));
      var db1 := RefundAll(db, c, co.createdById, g.order, g.amounts);
      var others := RefundedToOthers(g.order, g.amounts, co.createdById);
      if others > 0 && (co.createdById !in db1.users || db1.users[co.createdById].balance < others) then
        Step(Err(InsufficientBalance), db)
      else DeleteCompany(db, c)
  }

  // ---- getTransactions

  datatype Direction = Sent | Received

  /** A transaction seen from one user's side, with the other party. */
  datatype HistoryEntry = HistoryEntry(tx: Transaction, direction: Direction, counterpartId: UserId)

  /** The transactions that involve `u`, newest first, each labelled from
      `u`'s side: sent when `u` is the payer, received otherwise. */
  function Involving(txs: seq<Transaction>, u: UserId): (r: seq<HistoryEntry>)
    ensures |r| <= |txs|
    ensures forall e :: e in r ==> e.tx in txs && (e.tx.fromUserId == u || e.tx.toUserId == u)
    decreases |txs|
  {
    if txs == [] then []
    else
      var t := txs[|txs| - 1];
      var rest := Involving(txs[..|txs| - 1], u);
      if t.fromUserId == u then [HistoryEntry(t, Sent, t.toUserId)] + rest
      else if t.toUserId == u then [HistoryEntry(t, Received, t.fromUserId)] + rest
      else rest
  }

  /** A user's history, newest first, at most `limit` entries. */
  function GetTransactions(txs: seq<Transaction>, u: UserId, limit: nat): (r: seq<HistoryEntry>)
    ensures |r| <= limit
    ensures |r| < limit ==> r == Involving(txs, u)
    ensures forall e :: e in r ==> e in Involving(txs, u)
  {
    var all := Involving(txs, u);
    if |all| <= limit then all else all[..limit]
  }
}
