/** Properties of transfers and of admin balance adjustments. */
module TransferProperties {
  import opened LedgerTypes
  import opened Balances
  import opened Ledger

  /** A transfer moves money between accounts: the total of all balances is
      the same before and after, whether it succeeds or not. */
  lemma {:induction false} SendMoneyConservesTotal(db: Db, fromUserId: UserId, toUserId: UserId, amount: int)
    ensures TotalBalance(SendMoney(db, fromUserId, toUserId, amount).db.users) == TotalBalance(db.users)
  {
    var s := SendMoney(db, fromUserId, toUserId, amount);
    if s.result.Ok? {
      var debited := Credit(db.users, fromUserId, -amount);
      assert s.db.users == Credit(debited, toUserId, amount);
      TotalBalanceCredit(db.users, fromUserId, -amount);
      TotalBalanceCredit(debited, toUserId, amount);
    }
  }

  /** A positive transfer never drives a balance below zero. */
  lemma SendMoneyKeepsNonNegative(db: Db, fromUserId: UserId, toUserId: UserId, amount: int)
    requires NonNegative(db.users) && amount > 0
    ensures NonNegative(SendMoney(db, fromUserId, toUserId, amount).db.users)
  {
  }

  /** A request to move `amount` from one account to another. */
  datatype Payment = Payment(fromUserId: UserId, toUserId: UserId, amount: int)

  /** A run of transfers, one after the other, each succeeding or failing. */
  function ApplyPayments(db: Db, ps: seq<Payment>): Db
    decreases |ps|
  {
    if ps == [] then db
    else
      var p := ps[|ps| - 1];
      SendMoney(ApplyPayments(db, ps[..|ps| - 1]), p.fromUserId, p.toUserId, p.amount).db
  }

  /** No run of transfers creates or destroys money. */
  lemma {:induction false} PaymentsConserveTotal(db: Db, ps: seq<Payment>)
    ensures TotalBalance(ApplyPayments(db, ps).users) == TotalBalance(db.users)
    decreases |ps|
  {
    if ps != [] {
      var p := ps[|ps| - 1];
      PaymentsConserveTotal(db, ps[..|ps| - 1]);
      SendMoneyConservesTotal(ApplyPayments(db, ps[..|ps| - 1]), p.fromUserId, p.toUserId, p.amount);
    }
  }

  /** A run of positive transfers keeps every balance non-negative and logs
      at most one record per transfer. */
  lemma {:induction false} PaymentsKeepNonNegative(db: Db, ps: seq<Payment>)
    requires NonNegative(db.users)
    requires forall i :: 0 <= i < |ps| ==> ps[i].amount > 0
    ensures NonNegative(ApplyPayments(db, ps).users)
    ensures |db.transactions| <= |ApplyPayments(db, ps).transactions| <= |db.transactions| + |ps|
    decreases |ps|
  {
    if ps != [] {
      var init := ps[..|ps| - 1];
      assert forall i :: 0 <= i < |init| ==> init[i] == ps[i];
      PaymentsKeepNonNegative(db, init);
      var p := ps[|ps| - 1];
      SendMoneyKeepsNonNegative(ApplyPayments(db, init), p.fromUserId, p.toUserId, p.amount);
    }
  }

  /** An admin adjustment changes the total of all balances by exactly the
      signed amount when it succeeds, and not at all when it fails. */
  lemma {:induction false} AdminAdjustChangesTotal(db: Db, userId: UserId, amount: int, adminId: UserId)
    ensures var s := AdminAdjustBalance(db, userId, amount, adminId);
      TotalBalance(s.db.users) == TotalBalance(db.users) + (if s.result.Ok? then amount else 0)
  {
    var s := AdminAdjustBalance(db, userId, amount, adminId);
    if s.result.Ok? {
      TotalBalanceUpdate(db.users, userId, db.users[userId].(balance := db.users[userId].balance + amount));
    }
  }

  /** An admin adjustment never leaves a negative balance behind. */
  lemma AdminAdjustKeepsNonNegative(db: Db, userId: UserId, amount: int, adminId: UserId)
    requires NonNegative(db.users)
    ensures NonNegative(AdminAdjustBalance(db, userId, amount, adminId).db.users)
  {
  }
}
