/** Three places where the ledger as written departs from what it evidently
    means to do, each shown on the as-written definition and paired with a
    corrected definition and the property it was meant to have. */
module LedgerFindings {
  import opened LedgerTypes
  import opened Equity
  import opened Balances
  import opened Ledger
  import DeletionProperties

  // ---- 1. A failed investment keeps the investor's debit

  /** A store in which an investment fails the funding-headroom guard after
      passing the pool guard: 10 units of headroom are left, and an
      investment of 500 is granted 0 of the 1 remaining pool bps. */
  function PartialCommitStore(): Db
  {
    Db(map["ann" := Account("ann@example.com", 0, false, false), "bob" := Account("bob@example.com", 500, false, false)],
       map["co" := Company("Co", "ann", 100000, 99990, 99990, 100, 99, 0, false)],
       [], [], [], [], [])
  }

  /** As written, once the pool guard and the debit have passed, an
      investment short of funding headroom is refused with the headroom it
      lacks, yet still debits the investor: the money leaves the investor
      and reaches neither the company nor any record. */
  lemma InvestFundingFailureLosesMoney(db: Db, companyId: CompanyId, userId: UserId, amount: int)
    requires amount > 0
    ensures var s := InvestInCompany(db, companyId, userId, amount);
      && IsOpen(db, companyId) && PoolGuard(db.companies[companyId], amount) && CanDebit(db.users, userId, amount)
      && db.companies[companyId].fundingGoal > 0
      && db.companies[companyId].fundingGoal - db.companies[companyId].currentFunding < amount
      ==>
        && s.result == Err(FundingCapExceeded(db.companies[companyId].fundingGoal - db.companies[companyId].currentFunding))
        && s.db.users[userId].balance == db.users[userId].balance - amount
        && TotalBalance(s.db.users) == TotalBalance(db.users) - amount
        && s.db.companies == db.companies
        && s.db.transactions == db.transactions
        && s.db.investments == db.investments
  {
    var s := InvestInCompany(db, companyId, userId, amount);
    if s.result.Err? && s.result.error.FundingCapExceeded? {
      TotalBalanceCredit(db.users, userId, -amount);
    }
  }

  /** The witness: in a valid store, bob's 500 are taken although the
      investment is refused, and the money in accounts and treasury drops. */
  lemma InvestPartialCommitWitness()
    ensures var db := PartialCommitStore();
      var s := InvestInCompany(db, "co", "bob", 500);
      && Valid(db)
      && s.result == Err(FundingCapExceeded(10))
      && s.db.users["bob"].balance == 0
      && TotalBalance(s.db.users) + s.db.companies["co"].treasuryBalance
           == TotalBalance(db.users) + db.companies["co"].treasuryBalance - 500
  {
    var db := PartialCommitStore();
    assert GrantedBps(100, 500, 100000) == 0;
    InvestFundingFailureLosesMoney(db, "co", "bob", 500);
  }

  /** Corrected: the atomic investment gives the same answer as the one
      written, commits the same store when it succeeds, and never loses
      money: what leaves the accounts is exactly what enters the treasury. */
  lemma InvestAtomicConservesMoney(db: Db, companyId: CompanyId, userId: UserId, amount: int)
    requires amount > 0
    ensures var s := InvestInCompanyAtomic(db, companyId, userId, amount);
      && s.result == InvestInCompany(db, companyId, userId, amount).result
      && (s.result.Ok? ==> s.db == InvestInCompany(db, companyId, userId, amount).db)
      && (companyId in db.companies ==>
            && companyId in s.db.companies
            && TotalBalance(s.db.users) + s.db.companies[companyId].treasuryBalance
                 == TotalBalance(db.users) + db.companies[companyId].treasuryBalance)
  {
    var s := InvestInCompanyAtomic(db, companyId, userId, amount);
    if s.result.Ok? {
      TotalBalanceCredit(db.users, userId, -amount);
    }
  }

  // ---- 2. Deleting a deleted company refunds its investors again

  lemma {:induction false} InvestmentsInIgnoresOtherRecords(txs: seq<Transaction>, extra: seq<Transaction>, c: CompanyId)
    requires forall k :: 0 <= k < |extra| ==> extra[k].txType != Invest
    ensures InvestmentsIn(txs + extra, c) == InvestmentsIn(txs, c)
    decreases |extra|
  {
    if extra == [] {
      assert txs + extra == txs;
    } else {
      var init := extra[..|extra| - 1];
      assert (txs + extra)[..|txs + extra| - 1] == txs + init;
      assert (txs + extra)[|txs + extra| - 1] == extra[|extra| - 1];
      InvestmentsInIgnoresOtherRecords(txs, init, c);
    }
  }

  /** As written, a second deletion of the same company succeeds, reports
      the same refunds, and pays every investor other than the creator their
      investment a second time. */
  lemma {:induction false} DeleteTwiceRefundsTwice(db: Db, c: CompanyId)
    requires c in db.companies
    ensures var s1 := DeleteCompany(db, c);
      var s2 := DeleteCompany(s1.db, c);
      var invs := InvestmentsIn(db.transactions, c);
      && s1.result.Ok? && s2.result.Ok?
      && s2.result == s1.result
      && forall u :: u in db.users && u != db.companies[c].createdById ==>
           s2.db.users[u].balance == db.users[u].balance + 2 * DeletionProperties.InvestedBy(invs, u)
  {
    var s1 := DeleteCompany(db, c);
    DeleteKeepsInvestments(db, c);
    DeletionProperties.DeleteCompanyBalances(db, c);
    DeletionProperties.DeleteCompanyBalances(s1.db, c);
  }

  /** A deletion adds no `invest` record, so the company's investments are
      the same after it. */
  lemma DeleteKeepsInvestments(db: Db, c: CompanyId)
    requires c in db.companies
    ensures c in DeleteCompany(db, c).db.companies
    ensures InvestmentsIn(DeleteCompany(db, c).db.transactions, c) == InvestmentsIn(db.transactions, c)
  {
    DeletionProperties.DeleteCompanyRecords(db, c);
    var s1 := DeleteCompany(db, c);
    InvestmentsPastRefunds(db.transactions, s1.db.transactions, c, db.companies[c].createdById, InvestmentsIn(db.transactions, c));
  }

  /** Refund rows appended to a log leave its `invest` records as they were. */
  lemma InvestmentsPastRefunds(log: seq<Transaction>, txs: seq<Transaction>, c: CompanyId, creator: UserId, invs: seq<Transaction>)
    requires |log| <= |txs| && txs[..|log|] == log
    requires DeletionProperties.RefundRows(txs, |log|, c, creator, invs)
    ensures InvestmentsIn(txs, c) == InvestmentsIn(log, c)
  {
    var n := |log|;
    var extra := txs[n..];
    assert txs == log + extra;
    forall k | 0 <= k < |extra|
      ensures extra[k].txType != Invest
    {
      assert extra[k] == txs[n + k];
    }
    InvestmentsInIgnoresOtherRecords(log, extra, c);
  }

  /** Corrected: a deletion that refuses an already deleted company; the
      second call fails and changes nothing, so investors are refunded once. */
  lemma DeleteOnceRefundsOnce(db: Db, c: CompanyId)
    ensures var s1 := DeleteCompanyOnce(db, c);
      var s2 := DeleteCompanyOnce(s1.db, c);
      && s2.result == Err(CompanyNotFound)
      && s2.db == s1.db
      && (c in db.companies && !db.companies[c].isDeleted ==> s1 == DeleteCompany(db, c))
  {
  }

  // ---- 3. The creator's debit can drive a balance negative

  /** A company of ann's in which only bob invested, 1000; ann holds
      nothing, and no balance is negative. */
  function OverdrawStore(): Db
  {
    Db(map["ann" := Account("ann@example.com", 0, false, false), "bob" := Account("bob@example.com", 0, false, false)],
       map["co" := Company("Co", "ann", 10000, 1000, 1000, 5000, 500, 0, false)],
       [Allocation("co", "bob", 500, true)],
       [Transaction("bob", "ann", 1000, Invest, Some("co"))],
       [Investment("co", "bob", 1000, 500)], [], [])
  }

  /** As written, deleting that company refunds bob 1000 and leaves ann at
      -1000, although every balance was non-negative before. */
  lemma DeleteOverdrawsCreatorWitness(db: Db)
    requires db == OverdrawStore()
    ensures var s := DeleteCompany(db, "co");
      && Valid(db) && NonNegative(db.users)
      && s.result.Ok?
      && s.db.users["bob"].balance == 1000
      && s.db.users["ann"].balance == -1000
      && !NonNegative(s.db.users)
  {
    OverdrawStoreValid(db);
    OverdrawStoreInvestments(db);
    DeletionProperties.DeleteCompanyBalances(db, "co");
  }

  /** That store keeps the invariant, and nobody in it is in debt. */
  lemma OverdrawStoreValid(db: Db)
    requires db == OverdrawStore()
    ensures Valid(db) && NonNegative(db.users)
  {
  }

  /** The one investment of that store, and what it means per user. */
  lemma OverdrawStoreInvestments(db: Db)
    requires db == OverdrawStore()
    ensures var invs := InvestmentsIn(db.transactions, "co");
      && DeletionProperties.InvestedBy(invs, "ann") == 0
      && DeletionProperties.InvestedBy(invs, "bob") == 1000
      && DeletionProperties.TotalInvested(invs) == 1000
  {
    var t := Transaction("bob", "ann", 1000, Invest, Some("co"));
    assert [t][..0] == [];
    assert InvestmentsIn(db.transactions, "co") == [t];
    assert DeletionProperties.InvestedBy([t], "ann") == 0;
    assert DeletionProperties.InvestedBy([t], "bob") == 1000;
  }

  lemma {:induction false} InvestmentsNonNegative(txs: seq<Transaction>, c: CompanyId, u: UserId)
    requires forall i :: 0 <= i < |txs| && txs[i].txType == Invest ==> txs[i].amount >= 0
    ensures DeletionProperties.InvestedBy(InvestmentsIn(txs, c), u) >= 0
    decreases |txs|
  {
    if txs != [] {
      var init := txs[..|txs| - 1];
      assert forall i :: 0 <= i < |init| ==> init[i] == txs[i];
      InvestmentsNonNegative(init, c, u);
      var last := txs[|txs| - 1];
      if last.txType == Invest && last.companyId == Some(c) {
        var r := InvestmentsIn(init, c) + [last];
        assert r[..|r| - 1] == InvestmentsIn(init, c);
      }
    }
  }

  /** Corrected: the guarded deletion succeeds exactly when the company
      exists and its creator, once refunded their own investment, can cover
      the refunds paid to the other investors. */
  lemma {:induction false} DeleteGuardedSucceedsWhen(db: Db, c: CompanyId)
    ensures DeleteCompanyGuarded(db, c).result.Ok? <==>
      && c in db.companies
      && var invs := InvestmentsIn(db.transactions, c);
         var creator := db.companies[c].createdById;
         var debit := DeletionProperties.CreatorDebit(invs, creator);
         debit == 0 || (creator in db.users && db.users[creator].balance + DeletionProperties.InvestedBy(invs, creator) >= debit)
  {
    if c in db.companies {
      var invs := InvestmentsIn(db.transactions, c);
      var co := db.companies[c];
      var g := GroupRefunds(invs);
      GroupRefundsShape(invs);
      DeletionProperties.GroupRefundsTotals(invs);
      DeletionProperties.RefundsCoverInvestments(invs);
      DeletionProperties.RefundedToOthersIsRest(g.order, g.amounts, co.createdById);
      DeletionProperties.RefundAllBalances(db, c, co.createdById, g.order, g.amounts);
    }
  }

  /** Corrected: with the creator's debit guarded, a deletion keeps every
      balance non-negative, given that investments are of non-negative
      amounts (every investment the ledger records is positive). */
  lemma {:induction false} DeleteGuardedKeepsNonNegative(db: Db, c: CompanyId)
    requires NonNegative(db.users)
    requires forall i :: 0 <= i < |db.transactions| && db.transactions[i].txType == Invest ==> db.transactions[i].amount >= 0
    ensures NonNegative(DeleteCompanyGuarded(db, c).db.users)
  {
    var s := DeleteCompanyGuarded(db, c);
    if s.result.Ok? {
      DeleteGuardedSucceedsWhen(db, c);
      DeletionProperties.DeleteCompanyBalances(db, c);
      forall u | u in s.db.users ensures s.db.users[u].balance >= 0 {
        InvestmentsNonNegative(db.transactions, c, u);
      }
    }
  }
}
