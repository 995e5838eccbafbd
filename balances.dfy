/** The account store: balance updates and the total of all balances. */
module Balances {
  import opened LedgerTypes

  /** `UPDATE users SET balance = balance + amount WHERE id = u`: a no-op when
      no row has that id. */
  function Credit(users: map<UserId, Account>, u: UserId, amount: int): (r: map<UserId, Account>)
    ensures r.Keys == users.Keys
    ensures u in users ==> r[u] == users[u].(balance := users[u].balance + amount)
    ensures forall v :: v in users && v != u ==> r[v] == users[v]
  {
    if u in users then users[u := users[u].(balance := users[u].balance + amount)] else users
  }

  /** The flags and emails of two stores agree; only balances may differ. */
  ghost predicate SameAccounts(a: map<UserId, Account>, b: map<UserId, Account>)
  {
    a.Keys == b.Keys &&
    forall u :: u in a ==> b[u].(balance := a[u].balance) == a[u]
  }

  ghost predicate NonNegative(users: map<UserId, Account>)
  {
    forall u :: u in users ==> users[u].balance >= 0
  }

  /** The sum of all balances. */
  ghost function TotalBalance(users: map<UserId, Account>): int
    decreases |users|
  {
    if users == map[] then 0
    else
      var u :| u in users;
      users[u].balance + TotalBalance(users - {u})
  }

  /** The total can be split at any account, not only the one the definition picks. */
  lemma {:induction false} TotalBalanceSplit(users: map<UserId, Account>, u: UserId)
    requires u in users
    ensures TotalBalance(users) == users[u].balance + TotalBalance(users - {u})
    decreases |users|
  {
    var v :| v in users && TotalBalance(users) == users[v].balance + TotalBalance(users - {v});
    if v != u {
      var rest := users - {u} - {v};
      assert |users - {v}| < |users|;
      TotalBalanceSplit(users - {v}, u);
      assert users - {v} - {u} == rest;
      assert |users - {u}| < |users|;
      TotalBalanceSplit(users - {u}, v);
      assert users - {u} - {v} == rest;
    }
  }

  /** Replacing one account changes the total by the change of its balance. */
  lemma {:induction false} TotalBalanceUpdate(users: map<UserId, Account>, u: UserId, a: Account)
    requires u in users
    ensures TotalBalance(users[u := a]) == TotalBalance(users) - users[u].balance + a.balance
  {
    TotalBalanceSplit(users, u);
    TotalBalanceSplit(users[u := a], u);
    assert users[u := a] - {u} == users - {u};
  }

  /** A credit of `amount` to an existing account raises the total by `amount`. */
  lemma {:induction false} TotalBalanceCredit(users: map<UserId, Account>, u: UserId, amount: int)
    ensures TotalBalance(Credit(users, u, amount)) == TotalBalance(users) + (if u in users then amount else 0)
  {
    if u in users {
      TotalBalanceUpdate(users, u, users[u].(balance := users[u].balance + amount));
    }
  }
}
