/** Every ledger operation keeps the store's invariant: unique emails,
    funding within the goal, granted investor bps within the pool and in
    proportion to the funding, non-negative treasuries, and equity rows that
    name existing companies with non-negative bps. */
module LedgerInvariants {
  import opened LedgerTypes
  import opened Equity
  import opened Balances
  import opened Ledger

  lemma SameAccountsKeepEmails(a: map<UserId, Account>, b: map<UserId, Account>)
    requires SameAccounts(a, b) && EmailsUnique(a)
    ensures EmailsUnique(b)
  {
    forall u, v | u in b && v in b && b[u].email == b[v].email
      ensures u == v
    {
      assert a[u].email == b[u].email && a[v].email == b[v].email;
    }
  }

  /** A change of balances alone keeps the invariant. */
  lemma ValidAfterBalanceChange(db: Db, db': Db)
    requires Valid(db)
    requires SameAccounts(db.users, db'.users)
    requires db'.companies == db.companies && db'.allocations == db.allocations
    ensures Valid(db')
  {
    SameAccountsKeepEmails(db.users, db'.users);
  }

  lemma AdminAdjustPreservesValid(db: Db, userId: UserId, amount: int, adminId: UserId)
    requires Valid(db)
    ensures Valid(AdminAdjustBalance(db, userId, amount, adminId).db)
  {
    var s := AdminAdjustBalance(db, userId, amount, adminId);
    if s.result.Ok? {
      ValidAfterBalanceChange(db, s.db);
    }
  }

  lemma SendMoneyPreservesValid(db: Db, fromUserId: UserId, toUserId: UserId, amount: int)
    requires Valid(db)
    ensures Valid(SendMoney(db, fromUserId, toUserId, amount).db)
  {
    var s := SendMoney(db, fromUserId, toUserId, amount);
    if s.result.Ok? {
      ValidAfterBalanceChange(db, s.db);
    }
  }

  lemma CreateCompanyPreservesValid(db: Db, id: CompanyId, name: string, createdById: UserId, fundingGoal: nat,
                                    investorPoolBps: nat, founders: seq<FounderAllocation>, admins: seq<UserId>)
    requires Valid(db)
    ensures Valid(CreateCompany(db, id, name, createdById, fundingGoal, investorPoolBps, founders, admins).db)
  {
    var s := CreateCompany(db, id, name, createdById, fundingGoal, investorPoolBps, founders, admins);
    if s.result.Ok? {
      var added := AdminAllocations(id, admins) + FounderAllocations(db.users, id, founders);
      assert s.db.allocations == db.allocations + added;
      forall i | 0 <= i < |s.db.allocations|
        ensures s.db.allocations[i].companyId in s.db.companies && s.db.allocations[i].basisPoints >= 0
      {
        if i >= |db.allocations| {
          var k := i - |db.allocations|;
          assert s.db.allocations[i] == added[k];
          if k >= |AdminAllocations(id, admins)| {
            assert added[k] == FounderAllocations(db.users, id, founders)[k - |AdminAllocations(id, admins)|];
          }
        } else {
          assert s.db.allocations[i] == db.allocations[i];
        }
      }
    }
  }

  /** The company row after a successful investment still satisfies the
      company invariant. */
  lemma FundedKeepsInvariant(co: Company, amount: int)
    requires CompanyInvariant(co)
    requires amount > 0 && co.fundingGoal - co.currentFunding >= amount
    ensures co.fundingGoal > 0
    ensures CompanyInvariant(Funded(co, amount, GrantFor(co, amount)))
  {
    var b := GrantedBps(co.investorPoolBps, amount, co.fundingGoal);
    GrantKeepsProportion(co.investorPoolBps, co.allocatedInvestorBps, co.currentFunding, amount, co.fundingGoal);
    MulLeMul(co.investorPoolBps, co.currentFunding + amount, co.fundingGoal);
    CancelFactor(co.allocatedInvestorBps + b, co.investorPoolBps, co.fundingGoal);
  }

  lemma CommitInvestmentPreservesValid(db: Db, companyId: CompanyId, userId: UserId, amount: int)
    requires Valid(db)
    requires amount > 0
    requires companyId in db.companies
    requires db.companies[companyId].fundingGoal - db.companies[companyId].currentFunding >= amount
    ensures var debited := db.(users := Credit(db.users, userId, -amount));
      Valid(CommitInvestment(debited, companyId, userId, amount, GrantFor(db.companies[companyId], amount)))
  {
    var co := db.companies[companyId];
    var debited := db.(users := Credit(db.users, userId, -amount));
    ValidAfterBalanceChange(db, debited);
    FundedKeepsInvariant(co, amount);
    var granted := GrantFor(co, amount);
    var r := CommitInvestment(debited, companyId, userId, amount, granted);
    forall i | 0 <= i < |r.allocations|
      ensures r.allocations[i].companyId in r.companies && r.allocations[i].basisPoints >= 0
    {
      match FirstAllocation(db.allocations, companyId, userId)
      case Some(k) =>
      case None =>
    }
  }

  lemma InvestPreservesValid(db: Db, companyId: CompanyId, userId: UserId, amount: int)
    requires Valid(db)
    requires amount > 0
    ensures Valid(InvestInCompany(db, companyId, userId, amount).db)
  {
    var s := InvestInCompany(db, companyId, userId, amount);
    if s.result.Ok? {
      CommitInvestmentPreservesValid(db, companyId, userId, amount);
    } else if s.result.error.FundingCapExceeded? {
      ValidAfterBalanceChange(db, s.db);
    }
  }

  lemma InvestAtomicPreservesValid(db: Db, companyId: CompanyId, userId: UserId, amount: int)
    requires Valid(db)
    requires amount > 0
    ensures Valid(InvestInCompanyAtomic(db, companyId, userId, amount).db)
  {
    var s := InvestInCompanyAtomic(db, companyId, userId, amount);
    if s.result.Ok? {
      CommitInvestmentPreservesValid(db, companyId, userId, amount);
    }
  }

  lemma DistributePreservesValid(db: Db, c: CompanyId, grossAmount: int, distributedById: UserId, admins: seq<UserId>)
    requires Valid(db)
    ensures Valid(DistributeEarnings(db, c, grossAmount, distributedById, admins).db)
  {
    var s := DistributeEarnings(db, c, grossAmount, distributedById, admins);
    if s.result.Ok? {
      var co := db.companies[c];
      var fee := AdminFeePerAdmin(grossAmount);
      var eid := |db.earnings|;
      var db1 := db.(earnings := db.earnings + [Earnings(c, grossAmount, fee * |admins|, grossAmount - fee * |admins|, distributedById)]);
      var db2 := PayAdmins(db1, c, eid, co.createdById, admins, fee);
      PayAdminsFrame(db1, c, eid, co.createdById, admins, fee);
      var holders := Holders(db.allocations, c);
      if holders != [] {
        PayHoldersFrame(db2, c, eid, co.createdById, holders, SumBps(holders), grossAmount - fee * |admins|);
      }
      SameAccountsKeepEmails(db.users, s.db.users);
      assert CompanyInvariant(s.db.companies[c]);
    }
  }

  lemma DeletePreservesValid(db: Db, c: CompanyId)
    requires Valid(db)
    ensures Valid(DeleteCompany(db, c).db)
  {
    var s := DeleteCompany(db, c);
    if s.result.Ok? {
      SameAccountsKeepEmails(db.users, s.db.users);
      assert forall id :: id in s.db.companies ==> CompanyInvariant(s.db.companies[id]);
    }
  }
}
