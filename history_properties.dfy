/** Properties of a user's transaction history: which records it lists,
    how each is labelled, and the page limit. */
module HistoryProperties {
  import opened LedgerTypes
  import opened Ledger

  /** The entry for `t` as user `u` sees it. */
  function EntryFor(t: Transaction, u: UserId): HistoryEntry
  {
    if t.fromUserId == u then HistoryEntry(t, Sent, t.toUserId) else HistoryEntry(t, Received, t.fromUserId)
  }

  predicate Involves(t: Transaction, u: UserId)
  {
    t.fromUserId == u || t.toUserId == u
  }

  /** The history lists exactly the records that involve the user, each as
      the user sees it: sent exactly when the user paid, with the other party
      as counterpart. */
  lemma {:induction false} HistoryListsInvolvingRecords(txs: seq<Transaction>, u: UserId)
    ensures forall e :: e in Involving(txs, u) ==> e.tx in txs && Involves(e.tx, u) && e == EntryFor(e.tx, u)
    ensures forall i :: 0 <= i < |txs| && Involves(txs[i], u) ==> EntryFor(txs[i], u) in Involving(txs, u)
    decreases |txs|
  {
    if txs != [] {
      var init := txs[..|txs| - 1];
      HistoryListsInvolvingRecords(init, u);
      assert forall i :: 0 <= i < |init| ==> init[i] == txs[i];
    }
  }

  /** Newest first: a record appended to the log heads the history of every
      user it involves, and leaves the history of everyone else unchanged. */
  lemma HistoryNewestFirst(txs: seq<Transaction>, t: Transaction, u: UserId)
    ensures Involving(txs + [t], u) == if Involves(t, u) then [EntryFor(t, u)] + Involving(txs, u) else Involving(txs, u)
  {
    assert (txs + [t])[..|txs + [t]| - 1] == txs;
  }

  /** A page holds the newest `limit` entries, or all of them if fewer. */
  lemma GetTransactionsPage(txs: seq<Transaction>, u: UserId, limit: nat)
    ensures var page := GetTransactions(txs, u, limit);
      && |page| == (if |Involving(txs, u)| < limit then |Involving(txs, u)| else limit)
      && page == Involving(txs, u)[..|page|]
  {
  }

  /** A user who never paid sees every listed record as received. */
  lemma {:induction false} NeverPaidSeesOnlyReceived(txs: seq<Transaction>, u: UserId)
    requires forall i :: 0 <= i < |txs| ==> txs[i].fromUserId != u
    ensures forall e :: e in Involving(txs, u) ==> e.direction == Received && e.tx.toUserId == u
  {
    HistoryListsInvolvingRecords(txs, u);
  }
}
