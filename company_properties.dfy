/** Properties of company creation and of investments: the cap table, the
    admins' and founders' rows, the pool rule and the upsert of an
    investor's row. */
module CompanyProperties {
  import opened LedgerTypes
  import opened Equity
  import opened Balances
  import opened Ledger
  import LedgerInvariants

  // ---- Reference views of the equity table

  /** The basis points row `a` contributes to user `u` in company `c`. */
  function Contribution(a: Allocation, c: CompanyId, u: UserId): int
  {
    if a.companyId == c && a.userId == u then a.basisPoints else 0
  }

  /** Total basis points of company `c` held by `u`, over all rows. */
  function BpsOf(allocs: seq<Allocation>, c: CompanyId, u: UserId): int
    decreases |allocs|
  {
    if allocs == [] then 0 else BpsOf(allocs[..|allocs| - 1], c, u) + Contribution(allocs[|allocs| - 1], c, u)
  }

  /** Number of rows of company `c` held by `u`. */
  function RowCount(allocs: seq<Allocation>, c: CompanyId, u: UserId): nat
    decreases |allocs|
  {
    if allocs == [] then 0
    else RowCount(allocs[..|allocs| - 1], c, u) + (if allocs[|allocs| - 1].companyId == c && allocs[|allocs| - 1].userId == u then 1 else 0)
  }

  // ---- Company creation

  /** The admin loop gives each active admin exactly one row of 150 bps and
      nobody else any row. */
  lemma {:induction false} AdminAllocationsGrant(id: CompanyId, admins: seq<UserId>, u: UserId)
    requires forall i, j :: 0 <= i < j < |admins| ==> admins[i] != admins[j]
    ensures BpsOf(AdminAllocations(id, admins), id, u) == (if u in admins then AdminBpsPerAdmin else 0)
    ensures RowCount(AdminAllocations(id, admins), id, u) == (if u in admins then 1 else 0)
    decreases |admins|
  {
    if admins != [] {
      var init := admins[..|admins| - 1];
      AdminAllocationsGrant(id, init, u);
      var rows := AdminAllocations(id, admins);
      assert rows[..|rows| - 1] == AdminAllocations(id, init);
      assert u in admins <==> u in init || u == admins[|admins| - 1];
      if u == admins[|admins| - 1] {
        assert u !in init;
      }
    }
  }

  lemma {:induction false} SumAdminAllocations(id: CompanyId, admins: seq<UserId>)
    ensures SumBps(AdminAllocations(id, admins)) == AdminBpsPerAdmin * |admins|
    decreases |admins|
  {
    if admins != [] {
      var rows := AdminAllocations(id, admins);
      assert rows[..|rows| - 1] == AdminAllocations(id, admins[..|admins| - 1]);
      SumAdminAllocations(id, admins[..|admins| - 1]);
    }
  }

  /** Founders whose email resolves to no user are skipped, so the founder
      rows hold at most the requested bps, and exactly those when every
      email resolves. */
  lemma FounderAllocationsWithinRequest(users: map<UserId, Account>, id: CompanyId, fs: seq<FounderAllocation>)
    ensures SumBps(FounderAllocations(users, id, fs)) <= SumFounderBps(fs)
    ensures (forall i :: 0 <= i < |fs| ==> ResolveEmail(users, fs[i].email).Some?) ==>
      |FounderAllocations(users, id, fs)| == |fs| && SumBps(FounderAllocations(users, id, fs)) == SumFounderBps(fs)
    ensures (forall i :: 0 <= i < |fs| ==> ResolveEmail(users, fs[i].email).None?) ==> FounderAllocations(users, id, fs) == []
  {
    FounderRowsWithin(users, id, fs);
    if forall i :: 0 <= i < |fs| ==> ResolveEmail(users, fs[i].email).Some? {
      FounderRowsAllResolve(users, id, fs);
    }
    if forall i :: 0 <= i < |fs| ==> ResolveEmail(users, fs[i].email).None? {
      FounderRowsNoneResolve(users, id, fs);
    }
  }

  /** The bps of one resolved founder row, and its effect on a running total. */
  lemma FounderRowStep(users: map<UserId, Account>, id: CompanyId, fs: seq<FounderAllocation>)
    requires fs != []
    ensures var prev := FounderAllocations(users, id, fs[..|fs| - 1]);
      var f := fs[|fs| - 1];
      && FounderAllocations(users, id, fs) == prev + FounderRow(users, id, f)
      && SumFounderBps(fs) == SumFounderBps(fs[..|fs| - 1]) + f.basisPoints
      && SumBps(FounderAllocations(users, id, fs)) == SumBps(prev) + (if ResolveEmail(users, f.email).Some? then f.basisPoints else 0)
      && |FounderAllocations(users, id, fs)| == |prev| + (if ResolveEmail(users, f.email).Some? then 1 else 0)
  {
    var prev := FounderAllocations(users, id, fs[..|fs| - 1]);
    var f := fs[|fs| - 1];
    SumBpsAppend(prev, FounderRow(users, id, f));
    match ResolveEmail(users, f.email)
    case Some(u) =>
      assert SumBps([Allocation(id, u, f.basisPoints, true)]) == f.basisPoints by {
        assert [Allocation(id, u, f.basisPoints, true)][..0] == [];
      }
    case None =>
  }

  lemma {:induction false} FounderRowsWithin(users: map<UserId, Account>, id: CompanyId, fs: seq<FounderAllocation>)
    ensures SumBps(FounderAllocations(users, id, fs)) <= SumFounderBps(fs)
    decreases |fs|
  {
    if fs != [] {
      FounderRowsWithin(users, id, fs[..|fs| - 1]);
      FounderRowStep(users, id, fs);
    }
  }

  lemma {:induction false} FounderRowsAllResolve(users: map<UserId, Account>, id: CompanyId, fs: seq<FounderAllocation>)
    requires forall i :: 0 <= i < |fs| ==> ResolveEmail(users, fs[i].email).Some?
    ensures |FounderAllocations(users, id, fs)| == |fs| && SumBps(FounderAllocations(users, id, fs)) == SumFounderBps(fs)
    decreases |fs|
  {
    if fs != [] {
      var init := fs[..|fs| - 1];
      assert forall i :: 0 <= i < |init| ==> init[i] == fs[i];
      FounderRowsAllResolve(users, id, init);
      FounderRowStep(users, id, fs);
    }
  }

  lemma {:induction false} FounderRowsNoneResolve(users: map<UserId, Account>, id: CompanyId, fs: seq<FounderAllocation>)
    requires forall i :: 0 <= i < |fs| ==> ResolveEmail(users, fs[i].email).None?
    ensures FounderAllocations(users, id, fs) == []
    decreases |fs|
  {
    if fs != [] {
      var init := fs[..|fs| - 1];
      assert forall i :: 0 <= i < |init| ==> init[i] == fs[i];
      FounderRowsNoneResolve(users, id, init);
      FounderRowStep(users, id, fs);
    }
  }

  /** The bps requested by the founder allocations whose email resolves to `u`. */
  ghost function RequestedBy(users: map<UserId, Account>, fs: seq<FounderAllocation>, u: UserId): int
    decreases |fs|
  {
    if fs == [] then 0
    else RequestedBy(users, fs[..|fs| - 1], u) + (if ResolveEmail(users, fs[|fs| - 1].email) == Some(u) then fs[|fs| - 1].basisPoints else 0)
  }

  /** Per user, the founder rows of a new company hold exactly the bps
      requested under the emails that resolve to that user: an allocation
      whose email resolves to nobody gives nobody anything. */
  lemma {:induction false} FounderAllocationsPerUser(users: map<UserId, Account>, id: CompanyId, fs: seq<FounderAllocation>, u: UserId)
    ensures BpsOf(FounderAllocations(users, id, fs), id, u) == RequestedBy(users, fs, u)
    decreases |fs|
  {
    if fs != [] {
      var init := fs[..|fs| - 1];
      var f := fs[|fs| - 1];
      FounderAllocationsPerUser(users, id, init, u);
      var prev := FounderAllocations(users, id, init);
      match ResolveEmail(users, f.email)
      case Some(v) =>
        var r := prev + [Allocation(id, v, f.basisPoints, true)];
        assert r[..|r| - 1] == prev;
      case None =>
        assert prev + [] == prev;
    }
  }

  lemma {:induction false} SumBpsAppend(a: seq<Allocation>, b: seq<Allocation>)
    ensures SumBps(a + b) == SumBps(a) + SumBps(b)
    decreases |b|
  {
    if b == [] {
      assert a + b == a;
    } else {
      var init := b[..|b| - 1];
      assert (a + b)[..|a + b| - 1] == a + init;
      assert (a + b)[|a + b| - 1] == b[|b| - 1];
      SumBpsAppend(a, init);
    }
  }

  lemma {:induction false} HoldersAppend(a: seq<Allocation>, b: seq<Allocation>, c: CompanyId)
    ensures Holders(a + b, c) == Holders(a, c) + Holders(b, c)
    decreases |b|
  {
    if b == [] {
      assert a + b == a;
    } else {
      var init := b[..|b| - 1];
      assert (a + b)[..|a + b| - 1] == a + init;
      assert (a + b)[|a + b| - 1] == b[|b| - 1];
      HoldersAppend(a, init, c);
    }
  }

  lemma {:induction false} HoldersOfOwnRows(b: seq<Allocation>, c: CompanyId)
    requires forall i :: 0 <= i < |b| ==> b[i].companyId == c
    ensures Holders(b, c) == b
    decreases |b|
  {
    if b != [] {
      var init := b[..|b| - 1];
      assert forall i :: 0 <= i < |init| ==> init[i] == b[i];
      HoldersOfOwnRows(init, c);
      assert b == init + [b[|b| - 1]];
    }
  }

  lemma {:induction false} HoldersOfOtherRows(a: seq<Allocation>, c: CompanyId)
    requires forall i :: 0 <= i < |a| ==> a[i].companyId != c
    ensures Holders(a, c) == []
    decreases |a|
  {
    if a != [] {
      HoldersOfOtherRows(a[..|a| - 1], c);
    }
  }

  /** The rows of a company created in a valid store are exactly the rows
      added for it. */
  lemma HoldersOfNewCompany(db: Db, id: CompanyId, added: seq<Allocation>)
    requires Valid(db) && id !in db.companies
    requires forall i :: 0 <= i < |added| ==> added[i].companyId == id
    ensures Holders(db.allocations + added, id) == added
  {
    HoldersAppend(db.allocations, added, id);
    HoldersOfOtherRows(db.allocations, id);
    HoldersOfOwnRows(added, id);
  }

  /** A new company's cap table: the rows created for it (admins' and
      resolved founders') plus the investor pool fit in 10001 bps, and each
      active admin holds exactly one row of exactly 150 bps from the admin
      loop. */
  lemma {:induction false} CreateCompanyCapTable(db: Db, id: CompanyId, name: string, createdById: UserId, fundingGoal: nat,
                                                 investorPoolBps: nat, founders: seq<FounderAllocation>, admins: seq<UserId>)
    requires Valid(db) && id !in db.companies
    requires ActiveAdmins(db.users, admins)
    ensures var s := CreateCompany(db, id, name, createdById, fundingGoal, investorPoolBps, founders, admins);
      s.result.Ok? ==>
        && Holders(s.db.allocations, id) == AdminAllocations(id, admins) + FounderAllocations(db.users, id, founders)
        && SumBps(Holders(s.db.allocations, id)) + investorPoolBps <= EquityCapBps
        && forall u :: BpsOf(AdminAllocations(id, admins), id, u) ==
                         (if u in db.users && db.users[u].isAdmin && !db.users[u].isBanned then AdminBpsPerAdmin else 0)
  {
    var s := CreateCompany(db, id, name, createdById, fundingGoal, investorPoolBps, founders, admins);
    if s.result.Ok? {
      var adminRows := AdminAllocations(id, admins);
      var founderRows := FounderAllocations(db.users, id, founders);
      var added := adminRows + founderRows;
      assert s.db.allocations == db.allocations + added;
      assert Holders(db.allocations + added, id) == added by {
        forall i | 0 <= i < |added| ensures added[i].companyId == id {
          if i >= |adminRows| { assert added[i] == founderRows[i - |adminRows|]; }
        }
        HoldersOfNewCompany(db, id, added);
      }
      assert SumBps(added) + investorPoolBps <= EquityCapBps by {
        SumBpsAppend(adminRows, founderRows);
        SumAdminAllocations(id, admins);
        FounderRowsWithin(db.users, id, founders);
      }
      forall u ensures BpsOf(adminRows, id, u) == (if u in db.users && db.users[u].isAdmin && !db.users[u].isBanned then AdminBpsPerAdmin else 0)
      {
        AdminAllocationsGrant(id, admins, u);
      }
    }
  }

  // ---- Investments

  lemma {:induction false} BpsOfUpdate(allocs: seq<Allocation>, i: nat, a: Allocation, c: CompanyId, u: UserId)
    requires i < |allocs|
    ensures BpsOf(allocs[i := a], c, u) == BpsOf(allocs, c, u) - Contribution(allocs[i], c, u) + Contribution(a, c, u)
    ensures RowCount(allocs[i := a], c, u) == RowCount(allocs, c, u)
      - (if allocs[i].companyId == c && allocs[i].userId == u then 1 else 0)
      + (if a.companyId == c && a.userId == u then 1 else 0)
    decreases |allocs|
  {
    var n := |allocs|;
    if i < n - 1 {
      assert allocs[i := a][..n - 1] == allocs[..n - 1][i := a];
      BpsOfUpdate(allocs[..n - 1], i, a, c, u);
    } else {
      assert allocs[i := a][..n - 1] == allocs[..n - 1];
    }
  }

  lemma {:induction false} MatchingRowCounts(allocs: seq<Allocation>, i: nat, c: CompanyId, u: UserId)
    requires i < |allocs| && allocs[i].companyId == c && allocs[i].userId == u
    ensures RowCount(allocs, c, u) >= 1
    decreases |allocs|
  {
    if i < |allocs| - 1 {
      MatchingRowCounts(allocs[..|allocs| - 1], i, c, u);
    }
  }

  lemma {:induction false} NoMatchingRow(allocs: seq<Allocation>, c: CompanyId, u: UserId)
    requires forall j :: 0 <= j < |allocs| ==> !(allocs[j].companyId == c && allocs[j].userId == u)
    ensures RowCount(allocs, c, u) == 0
    decreases |allocs|
  {
    if allocs != [] {
      NoMatchingRow(allocs[..|allocs| - 1], c, u);
    }
  }

  /** The upsert of an investor's row adds the granted bps to exactly that
      investor's holding in that company, and adds a row only when the
      investor had none: an existing row is incremented, not duplicated. */
  lemma {:induction false} UpsertAllocationAdds(allocs: seq<Allocation>, c: CompanyId, u: UserId, bps: int, c': CompanyId, u': UserId)
    ensures BpsOf(UpsertAllocation(allocs, c, u, bps), c', u') == BpsOf(allocs, c', u') + (if c' == c && u' == u then bps else 0)
    ensures RowCount(UpsertAllocation(allocs, c, u, bps), c', u') ==
      (if c' == c && u' == u && RowCount(allocs, c, u) == 0 then 1 else RowCount(allocs, c', u'))
  {
    match FirstAllocation(allocs, c, u)
    case Some(i) =>
      BpsOfUpdate(allocs, i, allocs[i].(basisPoints := allocs[i].basisPoints + bps), c', u');
      MatchingRowCounts(allocs, i, c, u);
    case None =>
      var r := allocs + [Allocation(c, u, bps, true)];
      assert r[..|r| - 1] == allocs;
      NoMatchingRow(allocs, c, u);
  }

  /** A successful investment in a valid store: the grant is the floor of
      `pool * amount / goal`; funding and treasury rise by the amount, the
      funding stays within the goal and the granted investor bps within the
      pool; the investor pays exactly the amount, and no other money moves. */
  lemma {:induction false} InvestSucceeds(db: Db, companyId: CompanyId, userId: UserId, amount: int)
    requires Valid(db) && amount > 0
    ensures var s := InvestInCompany(db, companyId, userId, amount);
      s.result.Ok? ==>
        var co := db.companies[companyId];
        var co' := s.db.companies[companyId];
        && co.fundingGoal > 0
        && s.result.value == GrantedBps(co.investorPoolBps, amount, co.fundingGoal)
        && 0 <= s.result.value
        && co'.currentFunding == co.currentFunding + amount <= co.fundingGoal
        && co'.treasuryBalance == co.treasuryBalance + amount
        && co'.allocatedInvestorBps == co.allocatedInvestorBps + s.result.value <= co.investorPoolBps
        && s.db.users[userId].balance == db.users[userId].balance - amount
        && TotalBalance(s.db.users) == TotalBalance(db.users) - amount
        && (forall c', u' :: BpsOf(s.db.allocations, c', u') ==
                               BpsOf(db.allocations, c', u') + (if c' == companyId && u' == userId then s.result.value else 0))
        && RowCount(s.db.allocations, companyId, userId) == (if RowCount(db.allocations, companyId, userId) == 0 then 1
                                                             else RowCount(db.allocations, companyId, userId))
  {
    var s := InvestInCompany(db, companyId, userId, amount);
    if s.result.Ok? {
      var co := db.companies[companyId];
      LedgerInvariants.FundedKeepsInvariant(co, amount);
      TotalBalanceCredit(db.users, userId, -amount);
      forall c', u' ensures BpsOf(s.db.allocations, c', u') ==
                              BpsOf(db.allocations, c', u') + (if c' == companyId && u' == userId then s.result.value else 0)
      {
        UpsertAllocationAdds(db.allocations, companyId, userId, s.result.value, c', u');
      }
      UpsertAllocationAdds(db.allocations, companyId, userId, s.result.value, companyId, userId);
    }
  }

  /** In a valid store the investor-pool guard can only fail for an amount
      past the funding headroom, which the headroom guard would refuse
      anyway: within the headroom the grant always fits in the pool. */
  lemma {:induction false} PoolExhaustedOnlyPastHeadroom(db: Db, companyId: CompanyId, userId: UserId, amount: int)
    requires Valid(db) && amount > 0
    ensures InvestInCompany(db, companyId, userId, amount).result == Err(PoolExhausted) ==>
      db.companies[companyId].fundingGoal - db.companies[companyId].currentFunding < amount
  {
    if companyId in db.companies {
      var co := db.companies[companyId];
      if co.fundingGoal - co.currentFunding >= amount {
        HeadroomImpliesPoolRoom(co.investorPoolBps, co.allocatedInvestorBps, co.currentFunding, amount, co.fundingGoal);
      }
    }
  }

  /** The investor's debit is guarded by the balance, so no outcome of an
      investment, the committed partial debit included, leaves a negative
      balance behind; the same holds of the atomic investment. */
  lemma InvestKeepsNonNegative(db: Db, companyId: CompanyId, userId: UserId, amount: int)
    requires NonNegative(db.users) && amount > 0
    ensures NonNegative(InvestInCompany(db, companyId, userId, amount).db.users)
    ensures NonNegative(InvestInCompanyAtomic(db, companyId, userId, amount).db.users)
  {
  }
}
