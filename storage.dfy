/** The storage layer's ledger as the source runs it: one object holding the
    tables, one method per database transaction, each writing row by row.
    Every method is proved to commit exactly the store, and return exactly
    the result, of the matching `Ledger` function, and to keep the store's
    invariant. */
module Storage {
  import opened LedgerTypes
  import opened Equity
  import opened Balances
  import Ledger
  import LedgerInvariants

  class DatabaseStorage {
    var users: map<UserId, Account>
    var companies: map<CompanyId, Company>
    var allocations: seq<Allocation>
    var transactions: seq<Transaction>
    var investments: seq<Investment>
    var earnings: seq<Earnings>
    var payouts: seq<Payout>

    /** The tables as one value. */
    function State(): Db
      reads this
    {
      Db(users, companies, allocations, transactions, investments, earnings, payouts)
    }

    ghost predicate Valid()
      reads this
    {
      Ledger.Valid(State())
    }

    /** A store holding the given accounts and nothing else. */
    constructor (accounts: map<UserId, Account>)
      requires Ledger.EmailsUnique(accounts)
      ensures Valid()
      ensures State() == Db(accounts, map[], [], [], [], [], [])
    {
      users := accounts;
      companies := map[];
      allocations := [];
      transactions := [];
      investments := [];
      earnings := [];
      payouts := [];
    }

    method AdminAdjustBalance(userId: UserId, amount: int, adminId: UserId) returns (r: Result<()>)
      requires Valid()
      modifies this
      ensures Valid()
      ensures Step(r, State()) == Ledger.AdminAdjustBalance(old(State()), userId, amount, adminId)
    {
      LedgerInvariants.AdminAdjustPreservesValid(State(), userId, amount, adminId);
      if userId !in users {
        return Err(UserNotFound);
      }
      var newBalance := users[userId].balance + amount;
      if newBalance < 0 {
        return Err(WouldGoNegative);
      }
      users := users[userId := users[userId].(balance := newBalance)];
      transactions := transactions + [Transaction(adminId, userId, Ledger.Abs(amount), AdminAdjust, None)];
      r := Ok(());
    }

    method SendMoney(fromUserId: UserId, toUserId: UserId, amount: int) returns (r: Result<()>)
      requires Valid()
      modifies this
      ensures Valid()
      ensures Step(r, State()) == Ledger.SendMoney(old(State()), fromUserId, toUserId, amount)
    {
      LedgerInvariants.SendMoneyPreservesValid(State(), fromUserId, toUserId, amount);
      if toUserId !in users {
        return Err(RecipientNotFound);
      }
      // the conditional update touches no row when the sender is missing or short
      if fromUserId !in users || users[fromUserId].balance < amount {
        return Err(InsufficientBalance);
      }
      users := Credit(users, fromUserId, -amount);
      users := Credit(users, toUserId, amount);
      transactions := transactions + [Transaction(fromUserId, toUserId, amount, Transfer, None)];
      r := Ok(());
    }

    /** `admins` is the result of the active-admin query; `id` is the fresh
        key the database assigns to the new company. */
    method CreateCompany(id: CompanyId, name: string, createdById: UserId, fundingGoal: nat, investorPoolBps: nat,
                         founders: seq<FounderAllocation>, admins: seq<UserId>) returns (r: Result<Company>)
      requires Valid()
      requires id !in companies
      requires Ledger.ActiveAdmins(users, admins)
      modifies this
      ensures Valid()
      ensures Step(r, State()) == Ledger.CreateCompany(old(State()), id, name, createdById, fundingGoal, investorPoolBps, founders, admins)
    {
      LedgerInvariants.CreateCompanyPreservesValid(State(), id, name, createdById, fundingGoal, investorPoolBps, founders, admins);
      var totalAdminBps := AdminBpsPerAdmin * |admins|;
      var totalFounderBps := SumFounderBps(founders);
      if totalFounderBps + investorPoolBps + totalAdminBps > EquityCapBps {
        return Err(EquityOverallocated);
      }
      var company := Ledger.NewCompany(name, createdById, fundingGoal, investorPoolBps);
      companies := companies[id := company];
      ghost var created := State();
      InsertAdminRows(id, admins);
      InsertFounderRows(id, founders);
      assert State() == created.(allocations := created.allocations + Ledger.AdminAllocations(id, admins)
                                                 + Ledger.FounderAllocations(users, id, founders));
      r := Ok(company);
    }

    /** The admin loop of company creation: one row of 150 bps per admin. */
    method InsertAdminRows(id: CompanyId, admins: seq<UserId>)
      modifies this
      ensures State() == old(State()).(allocations := old(allocations) + Ledger.AdminAllocations(id, admins))
    {
      ghost var start := allocations;
      for i := 0 to |admins|
        invariant State() == old(State()).(allocations := start + Ledger.AdminAllocations(id, admins[..i]))
      {
        allocations := allocations + [Allocation(id, admins[i], AdminBpsPerAdmin, true)];
        assert admins[..i + 1][..i] == admins[..i];
      }
      assert admins[..|admins|] == admins;
    }

    /** The founder loop of company creation: a row for each allocation
        whose email belongs to a user, and none for the others. */
    method InsertFounderRows(id: CompanyId, founders: seq<FounderAllocation>)
      requires Ledger.EmailsUnique(users)
      modifies this
      ensures State() == old(State()).(allocations := old(allocations) + Ledger.FounderAllocations(users, id, founders))
    {
      ghost var start := allocations;
      for i := 0 to |founders|
        invariant State() == old(State()).(allocations := start + Ledger.FounderAllocations(users, id, founders[..i]))
      {
        var f := founders[i];
        assert founders[..i + 1][..i] == founders[..i];
        ghost var row := Ledger.FounderRow(users, id, f);
        assert Ledger.FounderAllocations(users, id, founders[..i + 1]) == Ledger.FounderAllocations(users, id, founders[..i]) + row;
        if u :| u in users && users[u].email == f.email {
          assert Ledger.ResolveEmail(users, f.email) == Some(u);
          allocations := allocations + [Allocation(id, u, f.basisPoints, true)];
        } else {
          assert Ledger.ResolveEmail(users, f.email) == None;
        }
      }
      assert founders[..|founders|] == founders;
    }

    /** An investment as the source writes it: a failing headroom guard
        returns after the debit, which then commits; a store error after the
        debit rolls it back. */
    method InvestInCompany(companyId: CompanyId, userId: UserId, amount: int) returns (r: Result<int>)
      requires Valid()
      requires amount > 0
      modifies this
      ensures Valid()
      ensures Step(r, State()) == Ledger.InvestInCompany(old(State()), companyId, userId, amount)
    {
      LedgerInvariants.InvestPreservesValid(State(), companyId, userId, amount);
      if companyId !in companies || companies[companyId].isDeleted {
        return Err(CompanyNotFound);
      }
      var company := companies[companyId];
      if !PoolCheckPasses(company.investorPoolBps, company.allocatedInvestorBps, amount, company.fundingGoal) {
        return Err(PoolExhausted);
      }
      // the guarded debit
      if userId !in users || users[userId].balance < amount {
        return Err(InsufficientBalance);
      }
      var debitedFrom := users;
      users := Credit(users, userId, -amount);
      // a zero goal makes the grant NaN; the store refuses the company
      // update and the rollback restores the investor's balance
      if company.fundingGoal == 0 {
        users := debitedFrom;
        return Err(StoreRejected);
      }
      // the guarded funding update
      if company.fundingGoal - company.currentFunding < amount {
        return Err(FundingCapExceeded(company.fundingGoal - company.currentFunding));
      }
      var granted := Ledger.GrantFor(company, amount);
      RecordInvestment(companyId, userId, amount, granted);
      r := Ok(granted);
    }

    /** The writes of an investment that passed every guard: the funded
        company row, the investor's equity row added to or inserted, the
        audit row and the `invest` record. */
    method RecordInvestment(companyId: CompanyId, userId: UserId, amount: int, granted: int)
      requires companyId in companies
      modifies this
      ensures State() == Ledger.CommitInvestment(old(State()), companyId, userId, amount, granted)
    {
      var company := companies[companyId];
      companies := companies[companyId := Ledger.Funded(company, amount, granted)];
      var existing := Ledger.FirstAllocation(allocations, companyId, userId);
      match existing {
        case Some(i) =>
          allocations := allocations[i := allocations[i].(basisPoints := allocations[i].basisPoints + granted)];
        case None =>
          allocations := allocations + [Allocation(companyId, userId, granted, true)];
      }
      investments := investments + [Investment(companyId, userId, amount, granted)];
      transactions := transactions + [Transaction(userId, company.createdById, amount, Invest, Some(companyId))];
    }

    /** `admins` is the result of the active-admin query. Holders whose bps
        sum to zero make the first share NaN; the database refuses that write
        and the transaction rolls back, which leaves the store as it was, so
        the method tests for it before writing. */
    method DistributeEarnings(companyId: CompanyId, grossAmount: int, distributedById: UserId, admins: seq<UserId>)
      returns (r: Result<DistributionReport>)
      requires Valid()
      requires Ledger.ActiveAdmins(users, admins)
      modifies this
      ensures Valid()
      ensures Step(r, State()) == Ledger.DistributeEarnings(old(State()), companyId, grossAmount, distributedById, admins)
    {
      LedgerInvariants.DistributePreservesValid(State(), companyId, grossAmount, distributedById, admins);
      if companyId !in companies || companies[companyId].isDeleted {
        return Err(CompanyNotFound);
      }
      var company := companies[companyId];
      if company.treasuryBalance < grossAmount {
        return Err(InsufficientTreasury(company.treasuryBalance, grossAmount));
      }
      var adminSharePerAdmin := AdminFeePerAdmin(grossAmount);
      var adminShare := adminSharePerAdmin * |admins|;
      var distributableAmount := grossAmount - adminShare;
      var holders := Ledger.Holders(allocations, companyId);
      var totalBps := SumBps(holders);
      if holders != [] && totalBps <= 0 {
        return Err(StoreRejected);
      }
      var eid := |earnings|;
      earnings := earnings + [Earnings(companyId, grossAmount, adminShare, distributableAmount, distributedById)];
      PayAdmins(companyId, eid, company.createdById, admins, adminSharePerAdmin);
      if holders != [] {
        PayHolders(companyId, eid, company.createdById, holders, totalBps, distributableAmount);
      }
      companies := companies[companyId := Ledger.Distributed(company, grossAmount)];
      r := Ok(DistributionReport(adminShare, distributableAmount));
    }

    /** Company deletion as the source writes it (no test of `isDeleted`). */
    method DeleteCompany(companyId: CompanyId) returns (r: Result<DeleteReport>)
      requires Valid()
      modifies this
      ensures Valid()
      ensures Step(r, State()) == Ledger.DeleteCompany(old(State()), companyId)
    {
      ghost var pre := State();
      LedgerInvariants.DeletePreservesValid(pre, companyId);
      if companyId !in companies {
        return Err(CompanyNotFound);
      }
      var company := companies[companyId];
      var invs := Ledger.InvestmentsIn(transactions, companyId);
      var investorRefunds, order := GroupInvestments(invs);
      Ledger.GroupRefundsShape(invs);
      ghost var db0 := State();
      var totalRefunded, totalRefundedToOthers := RefundInvestors(companyId, company.createdById, order, investorRefunds);
      Ledger.RefundAllFrame(db0, companyId, company.createdById, order, investorRefunds);
      ghost var db1 := State();
      if totalRefundedToOthers > 0 {
        users := Credit(users, company.createdById, -totalRefundedToOthers);
      }
      ghost var db2 := State();
      assert db2 == if totalRefundedToOthers > 0 then db1.(users := Credit(db1.users, company.createdById, -totalRefundedToOthers)) else db1;
      companies := companies[companyId := company.(isDeleted := true)];
      r := Ok(DeleteReport(|order|, totalRefunded));
      assert State() == db2.(companies := db2.companies[companyId := company.(isDeleted := true)]);
      assert db0 == pre && company == pre.companies[companyId];
      Ledger.CommitDeletionSteps(pre, companyId, Ledger.Refunds(investorRefunds, order), db1, totalRefundedToOthers);
      Ledger.DeleteCompanySteps(pre, companyId, Ledger.Refunds(investorRefunds, order));
    }

    /** The admin loop of a distribution. */
    method PayAdmins(companyId: CompanyId, eid: nat, creator: UserId, admins: seq<UserId>, fee: int)
      modifies this
      ensures State() == Ledger.PayAdmins(old(State()), companyId, eid, creator, admins, fee)
    {
      ghost var db1 := State();
      for i := 0 to |admins|
        invariant State() == Ledger.PayAdmins(db1, companyId, eid, creator, admins[..i], fee)
      {
        users := Credit(users, admins[i], fee);
        payouts := payouts + [Payout(eid, companyId, Some(admins[i]), fee, AdminPayout)];
        transactions := transactions + [Transaction(creator, admins[i], fee, Earn, Some(companyId))];
        assert admins[..i + 1][..i] == admins[..i];
      }
      assert admins[..|admins|] == admins;
    }

    /** The holder loop of a distribution. */
    method PayHolders(companyId: CompanyId, eid: nat, creator: UserId, holders: seq<Allocation>, totalBps: int, distributableAmount: int)
      requires totalBps > 0
      modifies this
      ensures State() == Ledger.PayHolders(old(State()), companyId, eid, creator, holders, totalBps, distributableAmount)
    {
      ghost var db2 := State();
      for i := 0 to |holders|
        invariant State() == Ledger.PayHolders(db2, companyId, eid, creator, holders[..i], totalBps, distributableAmount)
      {
        var holder := holders[i];
        var payoutAmount := HolderShare(holder.basisPoints, totalBps, distributableAmount);
        if holder.canReceivePayouts && holder.userId in users && !users[holder.userId].isBanned {
          users := Credit(users, holder.userId, payoutAmount);
          payouts := payouts + [Payout(eid, companyId, Some(holder.userId), payoutAmount, InvestorPayout)];
          transactions := transactions + [Transaction(creator, holder.userId, payoutAmount, Earn, Some(companyId))];
        } else {
          payouts := payouts + [Payout(eid, companyId, None, payoutAmount, Withheld)];
        }
        assert holders[..i + 1][..i] == holders[..i];
      }
      assert holders[..|holders|] == holders;
    }

    /** The grouping loop of a deletion: per-investor totals in a Map, whose
        keys keep their insertion order. */
    method GroupInvestments(invs: seq<Transaction>) returns (investorRefunds: map<UserId, int>, order: seq<UserId>)
      ensures Ledger.Refunds(investorRefunds, order) == Ledger.GroupRefunds(invs)
    {
      investorRefunds := map[];
      order := [];
      for i := 0 to |invs|
        invariant Ledger.Refunds(investorRefunds, order) == Ledger.GroupRefunds(invs[..i])
      {
        var investment := invs[i];
        var currentAmount := if investment.fromUserId in investorRefunds then investorRefunds[investment.fromUserId] else 0;
        if investment.fromUserId !in investorRefunds {
          order := order + [investment.fromUserId];
        }
        investorRefunds := investorRefunds[investment.fromUserId := currentAmount + investment.amount];
        assert invs[..i + 1][..i] == invs[..i];
      }
      assert invs[..|invs|] == invs;
    }

    /** The refund loop of a deletion, with its running totals. */
    method RefundInvestors(companyId: CompanyId, creator: UserId, order: seq<UserId>, investorRefunds: map<UserId, int>)
      returns (totalRefunded: int, totalRefundedToOthers: int)
      requires forall u :: u in order ==> u in investorRefunds
      modifies this
      ensures State() == Ledger.RefundAll(old(State()), companyId, creator, order, investorRefunds)
      ensures totalRefunded == Ledger.RefundedTotal(order, investorRefunds)
      ensures totalRefundedToOthers == Ledger.RefundedToOthers(order, investorRefunds, creator)
    {
      totalRefunded, totalRefundedToOthers := 0, 0;
      ghost var db0 := State();
      for i := 0 to |order|
        invariant State() == Ledger.RefundAll(db0, companyId, creator, order[..i], investorRefunds)
        invariant totalRefunded == Ledger.RefundedTotal(order[..i], investorRefunds)
        invariant totalRefundedToOthers == Ledger.RefundedToOthers(order[..i], investorRefunds, creator)
      {
        var investorId := order[i];
        var amount := investorRefunds[investorId];
        users := Credit(users, investorId, amount);
        transactions := transactions + [Transaction(creator, investorId, amount, Refund, Some(companyId))];
        totalRefunded := totalRefunded + amount;
        if investorId != creator {
          totalRefundedToOthers := totalRefundedToOthers + amount;
        }
        assert order[..i + 1][..i] == order[..i];
      }
      assert order[..|order|] == order;
    }
  }
}
