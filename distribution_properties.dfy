/** Properties of earnings distribution: what each admin and each holder
    receives, which shares are withheld, and that a distribution pays out no
    more than the gross it takes from the treasury. */
module DistributionProperties {
  import opened LedgerTypes
  import opened Equity
  import opened Balances
  import opened Ledger
  import LedgerInvariants

  /** The part of the holder shares paid to user `u`: the shares of `u`'s
      eligible rows. */
  function PaidTo(users: map<UserId, Account>, hs: seq<Allocation>, u: UserId, totalBps: int, distributable: int): int
    requires totalBps > 0
    decreases |hs|
  {
    if hs == [] then 0
    else
      var h := hs[|hs| - 1];
      PaidTo(users, hs[..|hs| - 1], u, totalBps, distributable)
        + (if Eligible(users, h) && h.userId == u then HolderShare(h.basisPoints, totalBps, distributable) else 0)
  }

  /** The part of the holder shares paid to anyone. */
  function PaidShares(users: map<UserId, Account>, hs: seq<Allocation>, totalBps: int, distributable: int): int
    requires totalBps > 0
    decreases |hs|
  {
    if hs == [] then 0
    else
      var h := hs[|hs| - 1];
      PaidShares(users, hs[..|hs| - 1], totalBps, distributable)
        + (if Eligible(users, h) then HolderShare(h.basisPoints, totalBps, distributable) else 0)
  }

  /** The admin loop credits every admin the per-admin fee once and raises
      the total of all balances by the fee times the number of admins. */
  lemma {:induction false} PayAdminsBalances(db: Db, c: CompanyId, eid: nat, creator: UserId, admins: seq<UserId>, fee: int)
    requires forall i, j :: 0 <= i < j < |admins| ==> admins[i] != admins[j]
    requires forall i :: 0 <= i < |admins| ==> admins[i] in db.users
    ensures var r := PayAdmins(db, c, eid, creator, admins, fee);
      && r.users.Keys == db.users.Keys
      && (forall u :: u in db.users ==> r.users[u].balance == db.users[u].balance + (if u in admins then fee else 0))
      && TotalBalance(r.users) == TotalBalance(db.users) + fee * |admins|
    decreases |admins|
  {
    if admins != [] {
      var init := admins[..|admins| - 1];
      var a := admins[|admins| - 1];
      assert forall i :: 0 <= i < |init| ==> init[i] == admins[i];
      PayAdminsBalances(db, c, eid, creator, init, fee);
      var prev := PayAdmins(db, c, eid, creator, init, fee);
      assert a in prev.users;
      var r := PayAdmins(db, c, eid, creator, admins, fee);
      assert r.users == Credit(prev.users, a, fee);
      TotalBalanceCredit(prev.users, a, fee);
      assert TotalBalance(r.users) == TotalBalance(prev.users) + fee;
      MulSucc(fee, |init|);
      assert |admins| == |init| + 1;
      assert a !in init;
      forall u | u in db.users
        ensures r.users[u].balance == db.users[u].balance + (if u in admins then fee else 0)
      {
        assert u in admins <==> u in init || u == a;
      }
    }
  }

  lemma MulSucc(k: int, n: nat)
    ensures k * (n + 1) == k * n + k
  {
  }

  /** The admin loop logs one admin payout of the fee per admin, in order,
      after the existing payouts, and one `earn` record of the fee per admin,
      from the creator, after the existing transactions. */
  lemma {:induction false} PayAdminsRecords(db: Db, c: CompanyId, eid: nat, creator: UserId, admins: seq<UserId>, fee: int)
    ensures var r := PayAdmins(db, c, eid, creator, admins, fee);
      && |r.payouts| == |db.payouts| + |admins|
      && r.payouts[..|db.payouts|] == db.payouts
      && (forall k :: 0 <= k < |admins| ==> r.payouts[|db.payouts| + k] == Payout(eid, c, Some(admins[k]), fee, AdminPayout))
      && |r.transactions| == |db.transactions| + |admins|
      && r.transactions[..|db.transactions|] == db.transactions
      && (forall k :: 0 <= k < |admins| ==> r.transactions[|db.transactions| + k] == Transaction(creator, admins[k], fee, Earn, Some(c)))
    decreases |admins|
  {
    if admins != [] {
      var init := admins[..|admins| - 1];
      var a := admins[|admins| - 1];
      PayAdminsRecords(db, c, eid, creator, init, fee);
      var prev := PayAdmins(db, c, eid, creator, init, fee);
      var r := PayAdmins(db, c, eid, creator, admins, fee);
      assert r.payouts == prev.payouts + [Payout(eid, c, Some(a), fee, AdminPayout)];
      assert r.transactions == prev.transactions + [Transaction(creator, a, fee, Earn, Some(c))];
      forall k | 0 <= k < |admins|
        ensures r.payouts[|db.payouts| + k] == Payout(eid, c, Some(admins[k]), fee, AdminPayout)
        ensures r.transactions[|db.transactions| + k] == Transaction(creator, admins[k], fee, Earn, Some(c))
      {
        if k < |init| {
          assert r.payouts[|db.payouts| + k] == prev.payouts[|db.payouts| + k];
          assert r.transactions[|db.transactions| + k] == prev.transactions[|db.transactions| + k];
        }
      }
    }
  }

  /** The holder loop: every user gains exactly the shares of their
      eligible rows, and the total of all balances rises by the paid
      shares. */
  lemma {:induction false} PayHoldersBalances(db: Db, c: CompanyId, eid: nat, creator: UserId, hs: seq<Allocation>,
                                              totalBps: int, distributable: int)
    requires totalBps > 0
    ensures var r := PayHolders(db, c, eid, creator, hs, totalBps, distributable);
      && r.users.Keys == db.users.Keys
      && (forall u :: u in db.users ==> r.users[u].balance == db.users[u].balance + PaidTo(db.users, hs, u, totalBps, distributable))
      && TotalBalance(r.users) == TotalBalance(db.users) + PaidShares(db.users, hs, totalBps, distributable)
    decreases |hs|
  {
    if hs != [] {
      var init := hs[..|hs| - 1];
      var h := hs[|hs| - 1];
      var share := HolderShare(h.basisPoints, totalBps, distributable);
      PayHoldersBalances(db, c, eid, creator, init, totalBps, distributable);
      PayHoldersFrame(db, c, eid, creator, init, totalBps, distributable);
      var prev := PayHolders(db, c, eid, creator, init, totalBps, distributable);
      assert Eligible(prev.users, h) == Eligible(db.users, h);
      TotalBalanceCredit(prev.users, h.userId, share);
    }
  }

  /** The holder loop logs one payout record per holder, in order, of that
      holder's share; the record is an investor payout naming the holder
      exactly when the holder is eligible, and is otherwise withheld with no
      user. The only transactions it logs are the `earn` records of the
      eligible holders. */
  lemma {:induction false} PayHoldersRecords(db: Db, c: CompanyId, eid: nat, creator: UserId, hs: seq<Allocation>,
                                             totalBps: int, distributable: int)
    requires totalBps > 0
    ensures var r := PayHolders(db, c, eid, creator, hs, totalBps, distributable);
      && |r.payouts| == |db.payouts| + |hs|
      && r.payouts[..|db.payouts|] == db.payouts
      && (forall k :: 0 <= k < |hs| ==> HolderRecord(r.payouts[|db.payouts| + k], db.users, c, eid, hs[k], totalBps, distributable))
      && r.transactions == db.transactions + HolderEarnRecords(db.users, c, creator, hs, totalBps, distributable)
    decreases |hs|
  {
    if hs != [] {
      var init := hs[..|hs| - 1];
      var h := hs[|hs| - 1];
      PayHoldersRecords(db, c, eid, creator, init, totalBps, distributable);
      PayHoldersFrame(db, c, eid, creator, init, totalBps, distributable);
      var prev := PayHolders(db, c, eid, creator, init, totalBps, distributable);
      assert Eligible(prev.users, h) == Eligible(db.users, h);
      var r := PayHolders(db, c, eid, creator, hs, totalBps, distributable);
      assert |r.payouts| == |prev.payouts| + 1;
      forall k | 0 <= k < |hs|
        ensures HolderRecord(r.payouts[|db.payouts| + k], db.users, c, eid, hs[k], totalBps, distributable)
      {
        if k < |init| {
          assert r.payouts[|db.payouts| + k] == prev.payouts[|db.payouts| + k];
          assert init[k] == hs[k];
        }
      }
    }
  }

  /** The `earn` records the holder loop logs: one per eligible holder, in
      holder order, from the creator, for that holder's share. */
  function HolderEarnRecords(users: map<UserId, Account>, c: CompanyId, creator: UserId, hs: seq<Allocation>,
                             totalBps: int, distributable: int): (r: seq<Transaction>)
    requires totalBps > 0
    ensures |r| <= |hs|
    ensures forall k :: 0 <= k < |r| ==> r[k].fromUserId == creator && r[k].txType == Earn && r[k].companyId == Some(c)
    decreases |hs|
  {
    if hs == [] then []
    else
      var h := hs[|hs| - 1];
      HolderEarnRecords(users, c, creator, hs[..|hs| - 1], totalBps, distributable)
        + (if Eligible(users, h) then [Transaction(creator, h.userId, HolderShare(h.basisPoints, totalBps, distributable), Earn, Some(c))] else [])
  }

  /** What the given records pay to user `u`. */
  function ReceivedBy(txs: seq<Transaction>, u: UserId): int
    decreases |txs|
  {
    if txs == [] then 0
    else ReceivedBy(txs[..|txs| - 1], u) + (if txs[|txs| - 1].toUserId == u then txs[|txs| - 1].amount else 0)
  }

  lemma {:induction false} ReceivedByAppend(a: seq<Transaction>, b: seq<Transaction>, u: UserId)
    ensures ReceivedBy(a + b, u) == ReceivedBy(a, u) + ReceivedBy(b, u)
    decreases |b|
  {
    if b == [] {
      assert a + b == a;
    } else {
      assert (a + b)[..|a + b| - 1] == a + b[..|b| - 1];
      ReceivedByAppend(a, b[..|b| - 1], u);
    }
  }

  /** The `earn` records of the holder loop account for every credit it
      makes: each user receives in them exactly the shares of their eligible
      rows. */
  lemma {:induction false} HolderEarnRecordsPayShares(users: map<UserId, Account>, c: CompanyId, creator: UserId, hs: seq<Allocation>,
                                                      u: UserId, totalBps: int, distributable: int)
    requires totalBps > 0
    ensures ReceivedBy(HolderEarnRecords(users, c, creator, hs, totalBps, distributable), u) == PaidTo(users, hs, u, totalBps, distributable)
    decreases |hs|
  {
    if hs != [] {
      var h := hs[|hs| - 1];
      var prev := HolderEarnRecords(users, c, creator, hs[..|hs| - 1], totalBps, distributable);
      HolderEarnRecordsPayShares(users, c, creator, hs[..|hs| - 1], u, totalBps, distributable);
      if Eligible(users, h) {
        var t := Transaction(creator, h.userId, HolderShare(h.basisPoints, totalBps, distributable), Earn, Some(c));
        ReceivedByAppend(prev, [t], u);
        assert [t][..0] == [];
      } else {
        assert prev + [] == prev;
      }
    }
  }

  /** The payout record of one holder: its share, an investor payout naming
      the holder when eligible, otherwise withheld with no user. */
  predicate HolderRecord(p: Payout, users: map<UserId, Account>, c: CompanyId, eid: nat, h: Allocation,
                         totalBps: int, distributable: int)
    requires totalBps > 0
  {
    && p.earningsId == eid && p.companyId == c
    && p.amount == HolderShare(h.basisPoints, totalBps, distributable)
    && (p.payoutType == Withheld <==> !Eligible(users, h))
    && (p.payoutType == InvestorPayout <==> Eligible(users, h))
    && p.userId == (if Eligible(users, h) then Some(h.userId) else None)
  }

  /** Paid shares are a part of all shares: when every row and the
      distributable amount are non-negative, nothing is paid beyond the
      computed shares. */
  lemma {:induction false} PaidWithinShares(users: map<UserId, Account>, hs: seq<Allocation>, totalBps: int, distributable: int)
    requires totalBps > 0 && distributable >= 0 && AllNonNegative(hs)
    ensures 0 <= PaidShares(users, hs, totalBps, distributable) <= SumShares(hs, totalBps, distributable)
    decreases |hs|
  {
    if hs != [] {
      var init := hs[..|hs| - 1];
      assert forall i :: 0 <= i < |init| ==> init[i] == hs[i];
      PaidWithinShares(users, init, totalBps, distributable);
    }
  }

  /** Which error a distribution reports: a missing or deleted company, a
      treasury short of the gross (with both amounts), or holders whose bps
      total is not positive, which the store refuses. */
  lemma DistributeFailures(db: Db, c: CompanyId, grossAmount: int, distributedById: UserId, admins: seq<UserId>)
    ensures var s := DistributeEarnings(db, c, grossAmount, distributedById, admins);
      && (s.result == Err(CompanyNotFound) <==> !IsOpen(db, c))
      && ((s.result.Err? && s.result.error.InsufficientTreasury?) <==>
            IsOpen(db, c) && db.companies[c].treasuryBalance < grossAmount)
      && (IsOpen(db, c) && db.companies[c].treasuryBalance < grossAmount ==>
            s.result == Err(InsufficientTreasury(db.companies[c].treasuryBalance, grossAmount)))
      && (s.result.Err? ==> s.result.error.CompanyNotFound? || s.result.error.InsufficientTreasury? || s.result.error.StoreRejected?)
      && (s.result == Err(StoreRejected) <==>
            && IsOpen(db, c) && db.companies[c].treasuryBalance >= grossAmount
            && Holders(db.allocations, c) != [] && SumBps(Holders(db.allocations, c)) <= 0)
  {
  }

  /** The balances, payout rows and transaction log a successful
      distribution commits, in terms of its two loops: the admin loop on the
      store with the new earnings row, then the holder loop. */
  lemma DistributeSteps(db: Db, c: CompanyId, grossAmount: int, distributedById: UserId, admins: seq<UserId>, db2: Db)
    requires DistributeEarnings(db, c, grossAmount, distributedById, admins).result.Ok?
    requires var fee := AdminFeePerAdmin(grossAmount);
      db2 == PayAdmins(db.(earnings := db.earnings + [Earnings(c, grossAmount, fee * |admins|, grossAmount - fee * |admins|, distributedById)]),
                       c, |db.earnings|, db.companies[c].createdById, admins, fee)
    ensures var holders := Holders(db.allocations, c);
      var fee := AdminFeePerAdmin(grossAmount);
      var db3 := if holders == [] then db2
                 else PayHolders(db2, c, |db.earnings|, db.companies[c].createdById, holders, SumBps(holders), grossAmount - fee * |admins|);
      var s := DistributeEarnings(db, c, grossAmount, distributedById, admins);
      && s.db.users == db3.users
      && s.db.payouts == db3.payouts
      && s.db.transactions == db3.transactions
  {
  }

  /** A successful distribution in a valid store with at most 66 admins:
      every active admin gains the fee and every user the shares of their
      eligible rows; the balances of all users together rise by at least the
      admins' fees and by no more than the gross the treasury gives up, so no
      money is created. */
  lemma {:induction false} DistributionPaysWithinGross(db: Db, c: CompanyId, grossAmount: int, distributedById: UserId, admins: seq<UserId>)
    requires Valid(db) && ActiveAdmins(db.users, admins)
    requires grossAmount >= 0 && |admins| <= 66
    ensures var s := DistributeEarnings(db, c, grossAmount, distributedById, admins);
      s.result.Ok? ==>
        var fee := AdminFeePerAdmin(grossAmount);
        var holders := Holders(db.allocations, c);
        var dist := grossAmount - fee * |admins|;
        && 0 <= dist
        && s.db.users.Keys == db.users.Keys
        && (forall u :: u in db.users ==>
              s.db.users[u].balance == db.users[u].balance + (if u in admins then fee else 0)
                + (if holders == [] then 0 else PaidTo(db.users, holders, u, SumBps(holders), dist)))
        && TotalBalance(db.users) + fee * |admins| <= TotalBalance(s.db.users) <= TotalBalance(db.users) + grossAmount
  {
    var s := DistributeEarnings(db, c, grossAmount, distributedById, admins);
    if s.result.Ok? {
      var co := db.companies[c];
      var fee := AdminFeePerAdmin(grossAmount);
      var adminShare := fee * |admins|;
      var dist := grossAmount - adminShare;
      var eid := |db.earnings|;
      var db1 := db.(earnings := db.earnings + [Earnings(c, grossAmount, adminShare, dist, distributedById)]);
      var db2 := PayAdmins(db1, c, eid, co.createdById, admins, fee);
      DistributeSteps(db, c, grossAmount, distributedById, admins, db2);
      AdminShareWithinGross(grossAmount, |admins|);
      HoldersNonNegative(db, c);
      PayLoopsBalances(db1, c, eid, co.createdById, admins, fee, Holders(db.allocations, c), dist);
    }
  }

  /** The two payment loops together: each admin gains the fee, each user
      the shares of their eligible rows, and the total rises by the fees
      plus at most the distributable remainder. */
  lemma PayLoopsBalances(db: Db, c: CompanyId, eid: nat, creator: UserId, admins: seq<UserId>, fee: int,
                         holders: seq<Allocation>, dist: int)
    requires forall i, j :: 0 <= i < j < |admins| ==> admins[i] != admins[j]
    requires forall u :: u in admins ==> u in db.users
    requires dist >= 0 && AllNonNegative(holders)
    requires holders != [] ==> SumBps(holders) > 0
    ensures var db2 := PayAdmins(db, c, eid, creator, admins, fee);
      var db3 := if holders == [] then db2 else PayHolders(db2, c, eid, creator, holders, SumBps(holders), dist);
      && db3.users.Keys == db.users.Keys
      && (forall u :: u in db.users ==>
            db3.users[u].balance == db.users[u].balance + (if u in admins then fee else 0)
              + (if holders == [] then 0 else PaidTo(db.users, holders, u, SumBps(holders), dist)))
      && TotalBalance(db.users) + fee * |admins| <= TotalBalance(db3.users) <= TotalBalance(db.users) + fee * |admins| + dist
  {
    assert forall i :: 0 <= i < |admins| ==> admins[i] in db.users;
    PayAdminsBalances(db, c, eid, creator, admins, fee);
    PayAdminsFrame(db, c, eid, creator, admins, fee);
    var db2 := PayAdmins(db, c, eid, creator, admins, fee);
    if holders != [] {
      var t := SumBps(holders);
      PayHoldersBalances(db2, c, eid, creator, holders, t, dist);
      forall u | u in db.users ensures PaidTo(db2.users, holders, u, t, dist) == PaidTo(db.users, holders, u, t, dist) {
        EligibilityFrame(db.users, db2.users, holders, u, t, dist);
      }
      EligibilityFrame(db.users, db2.users, holders, creator, t, dist);
      PaidWithinShares(db.users, holders, t, dist);
      SharesWithinDistributable(holders, dist);
    }
  }

  lemma HoldersNonNegative(db: Db, c: CompanyId)
    requires Valid(db)
    ensures AllNonNegative(Holders(db.allocations, c))
  {
    var holders := Holders(db.allocations, c);
    forall i | 0 <= i < |holders| ensures holders[i].basisPoints >= 0 {
      var j :| 0 <= j < |db.allocations| && db.allocations[j] == holders[i];
    }
  }

  /** Payouts depend on the users' flags only, not on their balances. */
  lemma {:induction false} EligibilityFrame(a: map<UserId, Account>, b: map<UserId, Account>, hs: seq<Allocation>, u: UserId,
                                            totalBps: int, distributable: int)
    requires SameAccounts(a, b) && totalBps > 0
    ensures PaidTo(b, hs, u, totalBps, distributable) == PaidTo(a, hs, u, totalBps, distributable)
    ensures PaidShares(b, hs, totalBps, distributable) == PaidShares(a, hs, totalBps, distributable)
    decreases |hs|
  {
    if hs != [] {
      var h := hs[|hs| - 1];
      assert Eligible(a, h) == Eligible(b, h);
      EligibilityFrame(a, b, hs[..|hs| - 1], u, totalBps, distributable);
    }
  }

  /** Shares of non-negative rows of a non-negative amount are never negative. */
  lemma {:induction false} PaidToNonNegative(users: map<UserId, Account>, hs: seq<Allocation>, u: UserId, totalBps: int, distributable: int)
    requires totalBps > 0 && distributable >= 0 && AllNonNegative(hs)
    ensures PaidTo(users, hs, u, totalBps, distributable) >= 0
    decreases |hs|
  {
    if hs != [] {
      var init := hs[..|hs| - 1];
      assert forall i :: 0 <= i < |init| ==> init[i] == hs[i];
      PaidToNonNegative(users, init, u, totalBps, distributable);
    }
  }

  /** With at most 66 admins and a non-negative gross, a distribution in a
      valid store never leaves a negative balance behind. */
  lemma {:induction false} DistributeKeepsNonNegative(db: Db, c: CompanyId, grossAmount: int, distributedById: UserId, admins: seq<UserId>)
    requires Valid(db) && ActiveAdmins(db.users, admins) && NonNegative(db.users)
    requires grossAmount >= 0 && |admins| <= 66
    ensures NonNegative(DistributeEarnings(db, c, grossAmount, distributedById, admins).db.users)
  {
    var s := DistributeEarnings(db, c, grossAmount, distributedById, admins);
    if s.result.Ok? {
      var fee := AdminFeePerAdmin(grossAmount);
      var holders := Holders(db.allocations, c);
      var dist := grossAmount - fee * |admins|;
      DistributionBalances(db, c, grossAmount, distributedById, admins);
      HoldersNonNegative(db, c);
      CreditsKeepNonNegative(db.users, s.db.users, admins, fee, holders, dist);
    }
  }

  /** The balances after a successful distribution: each user gains the fee
      if an admin, plus the shares of their eligible rows. */
  lemma DistributionBalances(db: Db, c: CompanyId, grossAmount: int, distributedById: UserId, admins: seq<UserId>)
    requires Valid(db) && ActiveAdmins(db.users, admins)
    requires grossAmount >= 0 && |admins| <= 66
    ensures var s := DistributeEarnings(db, c, grossAmount, distributedById, admins);
      s.result.Ok? ==>
        var fee := AdminFeePerAdmin(grossAmount);
        var holders := Holders(db.allocations, c);
        var dist := grossAmount - fee * |admins|;
        && 0 <= fee && 0 <= dist
        && (holders != [] ==> SumBps(holders) > 0)
        && s.db.users.Keys == db.users.Keys
        && (forall u :: u in db.users ==>
              s.db.users[u].balance == db.users[u].balance + (if u in admins then fee else 0)
                + (if holders == [] then 0 else PaidTo(db.users, holders, u, SumBps(holders), dist)))
  {
    DistributionPaysWithinGross(db, c, grossAmount, distributedById, admins);
  }

  /** Crediting every user a non-negative fee and non-negative shares keeps
      balances non-negative. */
  lemma CreditsKeepNonNegative(before: map<UserId, Account>, after: map<UserId, Account>, admins: seq<UserId>,
                               fee: int, holders: seq<Allocation>, dist: int)
    requires NonNegative(before) && fee >= 0 && dist >= 0 && AllNonNegative(holders)
    requires holders != [] ==> SumBps(holders) > 0
    requires after.Keys == before.Keys
    requires forall u :: u in before ==>
      after[u].balance == before[u].balance + (if u in admins then fee else 0)
        + (if holders == [] then 0 else PaidTo(before, holders, u, SumBps(holders), dist))
    ensures NonNegative(after)
  {
    forall u | u in after ensures after[u].balance >= 0 {
      if holders != [] {
        PaidToNonNegative(before, holders, u, SumBps(holders), dist);
      }
    }
  }
}
