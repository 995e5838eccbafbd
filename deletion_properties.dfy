/** Properties of company deletion: who is refunded what, the refund
    records, and the creator's debit. */
module DeletionProperties {
  import opened LedgerTypes
  import opened Balances
  import opened Ledger

  // ---- Reference views of a company's investments

  /** What user `u` invested, summed over the given transactions. */
  function InvestedBy(invs: seq<Transaction>, u: UserId): int
    decreases |invs|
  {
    if invs == [] then 0
    else InvestedBy(invs[..|invs| - 1], u) + (if invs[|invs| - 1].fromUserId == u then invs[|invs| - 1].amount else 0)
  }

  /** What all investors invested together. */
  function TotalInvested(invs: seq<Transaction>): int
    decreases |invs|
  {
    if invs == [] then 0 else TotalInvested(invs[..|invs| - 1]) + invs[|invs| - 1].amount
  }

  /** The distinct investors. */
  function Investors(invs: seq<Transaction>): set<UserId>
    decreases |invs|
  {
    if invs == [] then {} else Investors(invs[..|invs| - 1]) + {invs[|invs| - 1].fromUserId}
  }

  /** The selection keeps exactly the `invest` records of the company: a
      single record is kept exactly when it is one of them. */
  lemma InvestmentsInSingle(t: Transaction, c: CompanyId)
    ensures InvestmentsIn([t], c) == if t.txType == Invest && t.companyId == Some(c) then [t] else []
  {
    assert [t][..0] == [];
  }

  /** The selection of a log is that of its first part followed by that of
      its second, so every record is kept once, in log order. */
  lemma {:induction false} InvestmentsInAppend(a: seq<Transaction>, b: seq<Transaction>, c: CompanyId)
    ensures InvestmentsIn(a + b, c) == InvestmentsIn(a, c) + InvestmentsIn(b, c)
    decreases |b|
  {
    if b == [] {
      assert a + b == a;
    } else {
      assert (a + b)[..|a + b| - 1] == a + b[..|b| - 1];
      assert (a + b)[|a + b| - 1] == b[|b| - 1];
      InvestmentsInAppend(a, b[..|b| - 1], c);
    }
  }

  // ---- The grouping loop

  /** The grouping loop keeps one total per distinct investor, equal to the
      sum of that investor's investments. */
  lemma {:induction false} GroupRefundsTotals(invs: seq<Transaction>)
    ensures var g := GroupRefunds(invs);
      && g.amounts.Keys == Investors(invs)
      && (forall u :: u in g.amounts ==> g.amounts[u] == InvestedBy(invs, u))
      && (forall u :: u !in Investors(invs) ==> InvestedBy(invs, u) == 0)
    decreases |invs|
  {
    if invs != [] {
      GroupRefundsTotals(invs[..|invs| - 1]);
    }
  }

  lemma {:induction false} RefundedTotalFrame(order: seq<UserId>, a: map<UserId, int>, b: map<UserId, int>)
    requires forall u :: u in order ==> u in a && u in b && a[u] == b[u]
    ensures RefundedTotal(order, a) == RefundedTotal(order, b)
    decreases |order|
  {
    if order != [] {
      RefundedTotalFrame(order[..|order| - 1], a, b);
    }
  }

  lemma {:induction false} RefundedTotalBump(order: seq<UserId>, a: map<UserId, int>, x: UserId, d: int)
    requires forall u :: u in order ==> u in a
    requires forall i, j :: 0 <= i < j < |order| ==> order[i] != order[j]
    requires x in order
    ensures RefundedTotal(order, a[x := a[x] + d]) == RefundedTotal(order, a) + d
    decreases |order|
  {
    var init := order[..|order| - 1];
    var last := order[|order| - 1];
    if x == last {
      assert x !in init;
      RefundedTotalFrame(init, a, a[x := a[x] + d]);
    } else {
      assert x in init;
      RefundedTotalBump(init, a, x, d);
    }
  }

  /** Adding one investment to the grouped totals adds its amount to the
      sum of the totals. */
  lemma AddInvestmentTotal(prev: Refunds, t: Transaction)
    requires RefundsWellFormed(prev)
    ensures var g := AddInvestment(prev, t);
      (forall u :: u in g.order ==> u in g.amounts)
      && RefundedTotal(g.order, g.amounts) == RefundedTotal(prev.order, prev.amounts) + t.amount
  {
    var g := AddInvestment(prev, t);
    if t.fromUserId in prev.amounts {
      RefundedTotalBump(prev.order, prev.amounts, t.fromUserId, t.amount);
    } else {
      assert g.order[..|g.order| - 1] == prev.order;
      RefundedTotalFrame(prev.order, prev.amounts, g.amounts);
    }
  }

  /** Everything grouped is refunded: the refunds sum to the total invested. */
  lemma {:induction false} RefundsCoverInvestments(invs: seq<Transaction>)
    ensures var g := GroupRefunds(invs);
      (forall u :: u in g.order ==> u in g.amounts) && RefundedTotal(g.order, g.amounts) == TotalInvested(invs)
    decreases |invs|
  {
    if invs != [] {
      var init := invs[..|invs| - 1];
      RefundsCoverInvestments(init);
      GroupRefundsShape(init);
      AddInvestmentTotal(GroupRefunds(init), invs[|invs| - 1]);
    }
  }

  /** The creator's debit is everything refunded except the creator's own refund. */
  lemma {:induction false} RefundedToOthersIsRest(order: seq<UserId>, amounts: map<UserId, int>, creator: UserId)
    requires forall u :: u in order ==> u in amounts
    requires forall i, j :: 0 <= i < j < |order| ==> order[i] != order[j]
    ensures RefundedToOthers(order, amounts, creator) ==
      RefundedTotal(order, amounts) - (if creator in order then amounts[creator] else 0)
    decreases |order|
  {
    if order != [] {
      var init := order[..|order| - 1];
      var last := order[|order| - 1];
      RefundedToOthersIsRest(init, amounts, creator);
      assert creator in order <==> creator in init || creator == last;
      if creator == last {
        assert creator !in init;
      }
    }
  }

  // ---- The refund loop

  /** The refund loop credits each listed investor their total once. */
  lemma {:induction false} RefundAllBalances(db: Db, c: CompanyId, creator: UserId, order: seq<UserId>, amounts: map<UserId, int>)
    requires forall u :: u in order ==> u in amounts
    requires forall i, j :: 0 <= i < j < |order| ==> order[i] != order[j]
    ensures var r := RefundAll(db, c, creator, order, amounts);
      && r.users.Keys == db.users.Keys
      && forall u :: u in db.users ==> r.users[u].balance == db.users[u].balance + (if u in order then amounts[u] else 0)
    decreases |order|
  {
    if order != [] {
      var init := order[..|order| - 1];
      var last := order[|order| - 1];
      RefundAllBalances(db, c, creator, init, amounts);
      assert last !in init;
      forall u | u in db.users
        ensures RefundAll(db, c, creator, order, amounts).users[u].balance == db.users[u].balance + (if u in order then amounts[u] else 0)
      {
        assert u in order <==> u in init || u == last;
      }
    }
  }

  /** The refund loop appends one `refund` record per listed investor, in
      order, from the creator, for that investor's total. */
  lemma {:induction false} RefundAllRecords(db: Db, c: CompanyId, creator: UserId, order: seq<UserId>, amounts: map<UserId, int>)
    requires forall u :: u in order ==> u in amounts
    ensures var r := RefundAll(db, c, creator, order, amounts);
      && |r.transactions| == |db.transactions| + |order|
      && r.transactions[..|db.transactions|] == db.transactions
      && forall k :: 0 <= k < |order| ==>
           r.transactions[|db.transactions| + k] == Transaction(creator, order[k], amounts[order[k]], Refund, Some(c))
    decreases |order|
  {
    if order != [] {
      var init := order[..|order| - 1];
      RefundAllRecords(db, c, creator, init, amounts);
      var prev := RefundAll(db, c, creator, init, amounts);
      var r := RefundAll(db, c, creator, order, amounts);
      forall k | 0 <= k < |order|
        ensures r.transactions[|db.transactions| + k] == Transaction(creator, order[k], amounts[order[k]], Refund, Some(c))
      {
        if k < |init| {
          assert r.transactions[|db.transactions| + k] == prev.transactions[|db.transactions| + k];
        }
      }
    }
  }

  // ---- The whole deletion

  /** What the creator is debited: the refunds paid to the other investors,
      when positive. */
  function CreatorDebit(invs: seq<Transaction>, creator: UserId): int
  {
    var others := TotalInvested(invs) - InvestedBy(invs, creator);
    if others > 0 then others else 0
  }

  /** A deletion refunds every investor exactly what they invested in the
      company and debits the creator what was refunded to the others,
      whatever the creator's balance; it reports the number of distinct
      investors and the total invested. */
  lemma {:induction false} DeleteCompanyBalances(db: Db, c: CompanyId)
    ensures var s := DeleteCompany(db, c);
      s.result.Ok? ==>
        var invs := InvestmentsIn(db.transactions, c);
        var creator := db.companies[c].createdById;
        && s.result.value.totalRefunded == TotalInvested(invs)
        && s.result.value.refundedInvestors == |Investors(invs)|
        && s.db.users.Keys == db.users.Keys
        && forall u :: u in db.users ==>
             s.db.users[u].balance == db.users[u].balance + InvestedBy(invs, u) - (if u == creator then CreatorDebit(invs, creator) else 0)
  {
    if c in db.companies {
      var invs := InvestmentsIn(db.transactions, c);
      var g := GroupRefunds(invs);
      GroupRefundsShape(invs);
      DeleteCompanySteps(db, c, g);
      CommitDeletionBalances(db, c, invs, g);
    }
  }

  /** The balances the deletion's commit step leaves, for the grouping of
      the company's investments. */
  lemma CommitDeletionBalances(db: Db, c: CompanyId, invs: seq<Transaction>, g: Refunds)
    requires c in db.companies
    requires invs == InvestmentsIn(db.transactions, c) && g == GroupRefunds(invs) && RefundsWellFormed(g)
    ensures var s := CommitDeletion(db, c, g);
      var creator := db.companies[c].createdById;
      s.result.Ok? ==>
        && s.result.value.totalRefunded == TotalInvested(invs)
        && s.result.value.refundedInvestors == |Investors(invs)|
        && s.db.users.Keys == db.users.Keys
        && forall u :: u in db.users ==>
             s.db.users[u].balance == db.users[u].balance + InvestedBy(invs, u) - (if u == creator then CreatorDebit(invs, creator) else 0)
  {
    var co := db.companies[c];
    GroupRefundsTotals(invs);
    RefundsCoverInvestments(invs);
    var db1 := RefundAll(db, c, co.createdById, g.order, g.amounts);
    var others := RefundedToOthers(g.order, g.amounts, co.createdById);
    CommitDeletionSteps(db, c, g, db1, others);
    RefundAllBalances(db, c, co.createdById, g.order, g.amounts);
    RefundedToOthersIsRest(g.order, g.amounts, co.createdById);
    DistinctCard(g.order, g.amounts.Keys);
  }

  /** The refund rows appended after `n` existing rows, stated per row. */
  ghost predicate RefundRows(txs: seq<Transaction>, n: nat, c: CompanyId, creator: UserId, invs: seq<Transaction>)
    requires n <= |txs|
  {
    && (forall k :: n <= k < |txs| ==>
          && txs[k].txType == Refund && txs[k].companyId == Some(c) && txs[k].fromUserId == creator
          && txs[k].toUserId in Investors(invs) && txs[k].amount == InvestedBy(invs, txs[k].toUserId))
    && (forall k, l :: n <= k < l < |txs| ==> txs[k].toUserId != txs[l].toUserId)
  }

  lemma RefundRowsFromOrder(txs: seq<Transaction>, n: nat, c: CompanyId, creator: UserId, invs: seq<Transaction>,
                            order: seq<UserId>, amounts: map<UserId, int>)
    requires |txs| == n + |order|
    requires forall u :: u in order ==> u in amounts && u in Investors(invs) && amounts[u] == InvestedBy(invs, u)
    requires forall i, j :: 0 <= i < j < |order| ==> order[i] != order[j]
    requires forall k :: 0 <= k < |order| ==> txs[n + k] == Transaction(creator, order[k], amounts[order[k]], Refund, Some(c))
    ensures RefundRows(txs, n, c, creator, invs)
  {
    forall k | n <= k < |txs|
      ensures txs[k].toUserId == order[k - n] && txs[k].amount == amounts[order[k - n]]
    {
      assert txs[n + (k - n)] == txs[k];
    }
  }

  /** The refund loop over a grouping of `invs` appends one refund row per
      investor, each for what that investor put in. */
  lemma RefundAllRows(db: Db, c: CompanyId, creator: UserId, invs: seq<Transaction>, g: Refunds)
    requires RefundsWellFormed(g)
    requires forall u :: u in g.amounts ==> u in Investors(invs) && g.amounts[u] == InvestedBy(invs, u)
    ensures var r := RefundAll(db, c, creator, g.order, g.amounts);
      && |r.transactions| == |db.transactions| + |g.order|
      && r.transactions[..|db.transactions|] == db.transactions
      && RefundRows(r.transactions, |db.transactions|, c, creator, invs)
  {
    RefundAllRecords(db, c, creator, g.order, g.amounts);
    RefundRowsFromOrder(RefundAll(db, c, creator, g.order, g.amounts).transactions, |db.transactions|, c, creator, invs, g.order, g.amounts);
  }

  /** A deletion appends exactly one `refund` record per distinct investor,
      from the creator, for that investor's total, and no other record. */
  lemma {:induction false} DeleteCompanyRecords(db: Db, c: CompanyId)
    ensures var s := DeleteCompany(db, c);
      s.result.Ok? ==>
        var invs := InvestmentsIn(db.transactions, c);
        var n := |db.transactions|;
        && |s.db.transactions| == n + |Investors(invs)|
        && s.db.transactions[..n] == db.transactions
        && RefundRows(s.db.transactions, n, c, db.companies[c].createdById, invs)
  {
    var s := DeleteCompany(db, c);
    if s.result.Ok? {
      var invs := InvestmentsIn(db.transactions, c);
      var co := db.companies[c];
      var g := GroupRefunds(invs);
      GroupRefundsShape(invs);
      var db1 := RefundAll(db, c, co.createdById, g.order, g.amounts);
      var others := RefundedToOthers(g.order, g.amounts, co.createdById);
      assert s.db.transactions == db1.transactions by {
        DeleteCompanySteps(db, c, g);
        CommitDeletionSteps(db, c, g, db1, others);
      }
      GroupRefundsTotals(invs);
      DistinctCard(g.order, g.amounts.Keys);
      RefundAllRows(db, c, co.createdById, invs, g);
    }
  }
}
