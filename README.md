# AstraBank ledger and equity engine, modelled in Dafny

AstraBank is a school platform with its own currency. Users hold integer
balances and pay each other. They found "companies" that others invest in
for equity, and admins distribute company earnings back to the holders of
that equity. Every rule about money lives in the storage layer,
`DatabaseStorage` in `server/storage.ts`. That class runs each operation
as one database transaction over a few tables: users, companies, equity
allocations, transactions, the investment audit trail, earnings and
payouts. This project models the six operations of the class that move
money or equity, plus the history query:

- `sendMoney`, a peer-to-peer transfer;
- `adminAdjustBalance`, an admin's signed correction to a balance;
- `createCompany`, which opens a company with its cap table;
- `investInCompany`, which buys equity from the investor pool;
- `distributeEarnings`, which takes an admin fee, then pays the rest pro rata by basis points (bps);
- `deleteCompany`, which refunds every investor, then soft-deletes the company;
- `getTransactions`, a user's history, labelled sent or received.

Layout:

- `types.dfy` (`LedgerTypes`) holds the records and the whole store as one `Db` value.
- `equity.dfy` (`Equity`) holds the bps and fee arithmetic and what is proved about it.
- `balances.dfy` (`Balances`) holds the balance credit, the total of all balances, and the lemmas about that total.
- `ledger.dfy` (`Ledger`) gives each operation as a function from the store before the database transaction to the result and the store the transaction commits.
  - The steps follow the source in order.
  - A `return` inside the transaction commits what was written before it.
  - A throw rolls everything back.
- `storage.dfy` (`Storage`) holds the class `DatabaseStorage`.
  - Its fields are the tables.
  - Its methods write them row by row, with the source's loops.
  - Each method is proved to return and commit exactly what the matching `Ledger` function gives, and to keep the store's invariant.
- `invariants.dfy` (`LedgerInvariants`) proves that every operation keeps the store's invariant, which has four parts:
  - emails are unique;
  - for every company, `0 <= currentFunding <= fundingGoal`, `0 <= allocatedInvestorBps <= investorPoolBps`, and the treasury is non-negative;
  - for every company, the granted bps stay within the pool's share of the funding raised: `allocatedInvestorBps * fundingGoal <= investorPoolBps * currentFunding`;
  - every allocation row names an existing company and has non-negative bps.
- `transfer_properties.dfy`, `company_properties.dfy`, `distribution_properties.dfy`, `deletion_properties.dfy` and `history_properties.dfy` hold the properties of each operation.
- `findings.dfy` (`LedgerFindings`) holds three places where the code departs from what it evidently intends. Each comes with a witness and a corrected definition.

Two places in `server/storage.ts` break a rule the rest of the file keeps:

- Every other failed guard either comes before the first write or throws, so it writes nothing. A refused investment, though, keeps the investor's debit.
- The debits of a transfer, an investment and an admin adjustment are guarded so that balances stay non-negative. The creator's debit on deletion is not, and can drive the creator below zero. (A distribution with more than 66 admins or a negative gross can also lower balances without a guard; see Left out.)

The model follows the code in both cases. Both appear under Findings.

## Model

| member | source | states |
|---|---|---|
| Ledger.AdminAdjustBalance | server/storage.ts:96-127 | Fails exactly when the user is missing or the new balance would be negative, and then changes nothing. On success: only that balance changes, by exactly `amount`; one `admin_adjust` record of amount `abs(amount)` is appended; nothing else changes. |
| Storage.DatabaseStorage.AdminAdjustBalance | server/storage.ts:92-133 | Returns and commits exactly what `Ledger.AdminAdjustBalance` gives. Keeps the store invariant. |
| TransferProperties.AdminAdjustChangesTotal | server/storage.ts:107-117 | The total of all balances changes by exactly `amount` on success, and not at all on failure. |
| TransferProperties.AdminAdjustKeepsNonNegative | server/storage.ts:107-111 | No adjustment leaves a negative balance behind. |
| LedgerInvariants.AdminAdjustPreservesValid | server/storage.ts:96-127 | An adjustment keeps the store invariant. |
| Ledger.SendMoney | server/storage.ts:463-503 | Fails exactly when the recipient is missing, or the sender is missing or short. A missing recipient is reported as such, exactly then; a missing or short sender with an existing recipient is reported as insufficient balance, exactly then. On failure nothing changes. On success: the sender loses `amount`, the recipient gains `amount`, every other account is unchanged, and one `transfer` record is appended. |
| Storage.DatabaseStorage.SendMoney | server/storage.ts:458-508 | Returns and commits exactly what `Ledger.SendMoney` gives. Keeps the store invariant. |
| TransferProperties.SendMoneyConservesTotal | server/storage.ts:476-494 | A transfer leaves the total of all balances unchanged, whether or not it succeeds. |
| TransferProperties.SendMoneyKeepsNonNegative | server/storage.ts:476-487 | A positive transfer never makes a balance negative. |
| TransferProperties.PaymentsConserveTotal | server/storage.ts:458-508 | Any run of transfers leaves the total of all balances unchanged. |
| TransferProperties.PaymentsKeepNonNegative | server/storage.ts:458-508 | A run of positive transfers keeps every balance non-negative. It appends at most one record per transfer. |
| LedgerInvariants.SendMoneyPreservesValid | server/storage.ts:463-503 | A transfer keeps the store invariant. |
| Ledger.ResolveEmail | server/storage.ts:592-597 | Resolves an email to a user with that email, or reports that no user has it. |
| Ledger.AdminAllocations | server/storage.ts:580-587 | The admin loop inserts one row per admin, in order: 150 bps, eligible for payouts. |
| Ledger.FounderAllocations | server/storage.ts:590-606 | The founder loop inserts at most one row per requested allocation. Each row is for the new company, for an existing user, eligible for payouts, with non-negative bps. |
| Ledger.CreateCompany | server/storage.ts:553-606 | Fails, writing nothing, exactly when founder bps + pool bps + 150 per active admin exceed 10001. On success the company starts with zero funding, treasury, granted pool and distributed earnings, and is not deleted. The admin rows, then the founder rows, are appended; no other table changes. |
| Storage.DatabaseStorage.CreateCompany | server/storage.ts:550-608 | Returns and commits exactly what `Ledger.CreateCompany` gives. Keeps the store invariant. |
| Storage.DatabaseStorage.InsertAdminRows | server/storage.ts:580-587 | The admin loop appends exactly `Ledger.AdminAllocations` and changes nothing else. |
| Storage.DatabaseStorage.InsertFounderRows | server/storage.ts:590-606 | The founder loop appends exactly `Ledger.FounderAllocations` and changes nothing else. |
| CompanyProperties.AdminAllocationsGrant | server/storage.ts:580-587 | Each listed admin gets exactly one row and exactly 150 bps of the new company. Anyone else gets none. |
| CompanyProperties.SumAdminAllocations | server/storage.ts:554-555 | The admin rows total 150 bps per admin. |
| CompanyProperties.FounderAllocationsWithinRequest | server/storage.ts:590-606 | The founder rows total at most the requested bps. They total exactly that when every email resolves. No row is created when no email resolves. |
| CompanyProperties.FounderAllocationsPerUser | server/storage.ts:590-606 | Per user, the founder rows hold exactly the bps requested under the emails that resolve to that user. |
| CompanyProperties.HoldersOfNewCompany | server/storage.ts:564-606 | The equity rows of a company new to a valid store are exactly the rows added by its creation. |
| CompanyProperties.CreateCompanyCapTable | server/storage.ts:553-606 | After a creation, the new company's rows are the admin rows followed by the founder rows. Their bps plus the pool stay within 10001. An admin row is for 150 bps exactly when its user is an active admin. |
| LedgerInvariants.CreateCompanyPreservesValid | server/storage.ts:553-606 | Company creation keeps the store invariant. |
| Equity.GrantedBps | server/storage.ts:747-749 | The grant is the floor of `investorPoolBps * amount / fundingGoal`. It is non-negative, and at most the pool when the amount is within the goal. |
| Equity.GrantKeepsProportion | server/storage.ts:749 | Successive grants keep the granted bps within the pool's share of the funding raised so far. |
| Equity.HeadroomImpliesPoolRoom | server/storage.ts:747-753 | An investment within the funding headroom always passes the pool guard. |
| Ledger.UpsertAllocation | server/storage.ts:785-809 | The upsert adds at most one row, and afterwards the investor has a row in the company. |
| Ledger.FirstAllocation | server/storage.ts:786-793 | Finds a row of the investor in the company (the lowest-indexed one, see Left out), or reports that there is none. |
| CompanyProperties.UpsertAllocationAdds | server/storage.ts:795-809 | The upsert adds the grant to exactly the investor's holding in the company. It adds a row only when the investor had none, so a row is never duplicated. |
| Ledger.InvestInCompany | server/storage.ts:741-834 | Each outcome holds exactly when its guards say, in the source's order. Not found: the company is missing or deleted. Pool exhausted: found, and the pool guard fails. Insufficient balance: the pool guard passes, and the investor is missing or short. Store rejected: the debit succeeds and the goal is 0, so the grant bound into the company update is NaN; the rollback leaves the store as it was. Funding cap exceeded: the debit succeeds, the goal is positive and the headroom is below the amount; it reports the headroom and keeps the investor's debit. Success: all guards pass. Every failure but the headroom one changes nothing. On success the grant is the floor of pool times amount over goal, and the commit is the debit, the funded company, the upserted row, the audit row and the `invest` record. |
| Storage.DatabaseStorage.InvestInCompany | server/storage.ts:737-835 | Returns and commits exactly what `Ledger.InvestInCompany` gives, including the kept debit and the rolled-back one. Keeps the store invariant. |
| Storage.DatabaseStorage.RecordInvestment | server/storage.ts:767-829 | The writes after every guard passed leave exactly the store `Ledger.CommitInvestment` gives. |
| CompanyProperties.InvestSucceeds | server/storage.ts:741-831 | A successful investment in a valid store has all of these effects: the grant is the floor of pool times amount over goal, and is non-negative; funding and treasury rise by the amount, and funding stays within the goal; granted bps stay within the pool; the investor alone pays the amount; the investor's holding rises by the grant, with one row. |
| CompanyProperties.PoolExhaustedOnlyPastHeadroom | server/storage.ts:747-783 | In a valid store, a pool failure happens only for an amount past the funding headroom. |
| LedgerInvariants.FundedKeepsInvariant | server/storage.ts:767-779 | The company update keeps funding within the goal and granted bps within the pool. |
| LedgerInvariants.InvestPreservesValid | server/storage.ts:741-831 | An investment keeps the store invariant in every outcome. |
| CompanyProperties.InvestKeepsNonNegative | server/storage.ts:756-764 | A positive investment, whether it succeeds or fails, never makes a balance negative. The same holds for the corrected investment. |
| Ledger.Holders | server/storage.ts:895 | Exactly the equity rows of the company: every row it lists is one of its rows, and every one of its rows is listed. |
| Equity.AdminFeePerAdmin | server/storage.ts:859 | The per-admin fee is the floor of 1.5% of the gross. It is non-negative for a non-negative gross. |
| Equity.HolderShare | server/storage.ts:900 | A holder's share is the floor of `bps * distributable / totalBps`. |
| Equity.AdminShareWithinGross | server/storage.ts:859-861 | With at most 66 admins, the fees total at most the gross. |
| Equity.AdminShareCanExceedGross | server/storage.ts:859-861 | With 67 admins, the fees on a gross of 1000 exceed it. |
| Equity.SharesScaled | server/storage.ts:896-900 | Times the bps total, the shares of any rows are at most those rows' bps times the distributable amount. They fall short by less than one total per row. |
| Equity.SharesWithinDistributable | server/storage.ts:896-900 | All shares together, paid and withheld, are at most the distributable amount. They fall short of it by less than the number of holders. |
| Equity.SumBpsNonNegative | server/storage.ts:896 | Non-negative rows have a non-negative bps total. The total is zero only when every row is zero. |
| Ledger.DistributeEarnings | server/storage.ts:842-953 | Fails, writing nothing, exactly in three cases: the company is missing or deleted; the treasury is below the gross; the holders' bps total zero, which makes every share NaN and the store refuses the write. On success: the admin share is the fee times the number of admins; the distributable amount is the gross minus the admin share; one earnings row is appended; the treasury falls by the gross; distributed earnings rise by the gross; allocations and investments are unchanged. |
| Storage.DatabaseStorage.DistributeEarnings | server/storage.ts:838-958 | Returns and commits exactly what `Ledger.DistributeEarnings` gives. Keeps the store invariant. |
| DistributionProperties.DistributeFailures | server/storage.ts:842-910 | Which error a distribution reports, each exactly when its guard fails in the source's order: not found for a missing or deleted company; insufficient treasury, with both amounts, when the treasury is below the gross; store rejected when the holders' bps total is not positive. No other error occurs. |
| DistributionProperties.DistributeSteps | server/storage.ts:864-945 | The balances, payout rows and transaction log of a successful distribution are those the admin loop and then the holder loop leave, starting from the store with the new earnings row. |
| Storage.DatabaseStorage.PayAdmins | server/storage.ts:873-892 | The admin loop leaves exactly the store `Ledger.PayAdmins` gives. |
| Storage.DatabaseStorage.PayHolders | server/storage.ts:899-945 | The holder loop leaves exactly the store `Ledger.PayHolders` gives. |
| Ledger.PayAdmins | server/storage.ts:873-892 | The admin loop writes one payout row per admin. |
| Ledger.PayHolders | server/storage.ts:899-945 | The holder loop writes one payout row per holder, paid or withheld. |
| Ledger.PayAdminsFrame | server/storage.ts:873-892 | The admin loop changes only balances, payouts and transactions. |
| Ledger.PayHoldersFrame | server/storage.ts:899-945 | The holder loop changes only balances, payouts and transactions. |
| DistributionProperties.PayAdminsBalances | server/storage.ts:873-892 | Each listed admin gains the fee once. Everyone else is unchanged. The total of all balances rises by the fee times the number of admins. |
| DistributionProperties.PayAdminsRecords | server/storage.ts:873-892 | One admin payout of the fee per admin, in order. The log keeps its prefix and grows by exactly one `earn` record per admin, in order: from the creator to that admin, for the fee, naming the company. |
| DistributionProperties.PayHoldersBalances | server/storage.ts:899-945 | Every user gains exactly the shares of their eligible rows. The total of all balances rises by the paid shares. |
| DistributionProperties.PayHoldersRecords | server/storage.ts:899-945 | One payout record per holder, in order, for that holder's share. An eligible holder's record is an investor payout naming the holder. Any other record is withheld with no user. The log keeps its prefix and grows by exactly the `earn` records of the paid holders, `HolderEarnRecords`. |
| DistributionProperties.HolderEarnRecords | server/storage.ts:919-927 | At most one record per holder; each is an `earn` record from the creator naming the company. |
| DistributionProperties.HolderEarnRecordsPayShares | server/storage.ts:899-945 | Each user receives in those `earn` records exactly the shares paid to them: the records and the balances agree. |
| DistributionProperties.PaidToNonNegative | server/storage.ts:899-945 | With non-negative rows and distributable amount, no user is paid a negative amount. |
| DistributionProperties.PaidWithinShares | server/storage.ts:899-945 | The paid shares are non-negative and at most the computed shares. |
| DistributionProperties.DistributionPaysWithinGross | server/storage.ts:842-953 | A successful distribution in a valid store with at most 66 admins has these effects: the distributable amount is non-negative; the accounts are the same; each user gains the fee if an admin, plus the shares of their eligible rows; the total of all balances rises by at least the fees and by at most the gross. |
| DistributionProperties.HoldersNonNegative | server/storage.ts:895-896 | In a valid store every holder row of a company has non-negative bps. |
| DistributionProperties.EligibilityFrame | server/storage.ts:902-906 | Who is paid depends only on the users' flags, not on their balances. |
| LedgerInvariants.DistributePreservesValid | server/storage.ts:842-953 | A distribution keeps the store invariant. |
| DistributionProperties.DistributeKeepsNonNegative | server/storage.ts:842-953 | In a valid store with no negative balance, a distribution of a non-negative gross with at most 66 admins keeps every balance non-negative. |
| Ledger.InvestmentsIn | server/storage.ts:658-665 | Selects only `invest` records of the company, and every one of them. |
| DeletionProperties.InvestmentsInSingle | server/storage.ts:658-665 | A single record is selected exactly when it is an `invest` record of the company. |
| DeletionProperties.InvestmentsInAppend | server/storage.ts:658-665 | The selection of a joined log is the selection of each part, joined, so the order of the log is kept. |
| Ledger.GroupRefunds | server/storage.ts:667-675 | The grouping has one total per listed investor, and lists at most one investor per investment. |
| Ledger.RefundAll | server/storage.ts:677-703 | The refund loop appends one record per listed investor. |
| Ledger.GroupRefundsShape | server/storage.ts:667-675 | The grouping lists each investor once, in first-seen order, exactly the keys of the totals. |
| Ledger.DistinctCard | server/storage.ts:722 | The reported count of investors equals the number of distinct keys in the grouping. |
| Ledger.DeleteCompany | server/storage.ts:649-724 | Fails, writing nothing, exactly when the id is unknown. An already deleted company is not refused. On success: the company is marked deleted; the reported count is the number of distinct investors; only balances and transactions change otherwise; the accounts are the same. |
| Storage.DatabaseStorage.DeleteCompany | server/storage.ts:645-735 | Returns and commits exactly what `Ledger.DeleteCompany` gives. Keeps the store invariant. |
| Storage.DatabaseStorage.GroupInvestments | server/storage.ts:667-675 | The grouping loop's Map and its key order are those of `Ledger.GroupRefunds`. |
| Storage.DatabaseStorage.RefundInvestors | server/storage.ts:677-703 | The refund loop leaves the store `Ledger.RefundAll` gives. Its running totals are all refunds, and the refunds to investors other than the creator. |
| DeletionProperties.GroupRefundsTotals | server/storage.ts:667-675 | The grouping keeps one total per distinct investor, equal to the sum of that investor's investments in the company. |
| DeletionProperties.RefundsCoverInvestments | server/storage.ts:667-703 | The refunds sum to the total invested in the company. |
| DeletionProperties.RefundedToOthersIsRest | server/storage.ts:698-701 | The running total for others is all refunds minus the creator's own refund. |
| DeletionProperties.RefundAllBalances | server/storage.ts:677-703 | The refund loop credits each listed investor their total, once. Nobody else is changed. |
| DeletionProperties.RefundAllRecords | server/storage.ts:677-703 | The refund loop appends one `refund` record per investor, in order, from the creator, for that investor's total. |
| DeletionProperties.DeleteCompanyBalances | server/storage.ts:649-724 | The report gives the total invested and the number of distinct investors. Every user gains exactly what they invested. The creator is also debited, with no guard, what was refunded to the others. |
| DeletionProperties.DeleteCompanyRecords | server/storage.ts:677-703 | A deletion keeps the log and appends exactly one `refund` record per distinct investor, from the creator, for that investor's total, and nothing else. |
| LedgerInvariants.DeletePreservesValid | server/storage.ts:649-724 | A deletion keeps the store invariant. |
| Ledger.Involving | server/storage.ts:514-539 | The history has at most one entry per record, and every entry is for a record that involves the user. |
| Ledger.GetTransactions | server/storage.ts:511-547 | A page has at most `limit` entries, each from the user's history. A page shorter than `limit` is the whole history. |
| HistoryProperties.HistoryListsInvolvingRecords | server/storage.ts:514-541 | The history lists exactly the records that involve the user. An entry is "sent" exactly when the user paid, and its counterpart is the other party. |
| HistoryProperties.HistoryNewestFirst | server/storage.ts:522 | A newly appended record heads the history of each user it involves. It leaves everyone else's history unchanged. |
| HistoryProperties.GetTransactionsPage | server/storage.ts:523 | A page holds the newest `limit` entries, or all of them if there are fewer. |
| HistoryProperties.NeverPaidSeesOnlyReceived | server/storage.ts:528-539 | A user who never paid sees every entry as received. |
| LedgerFindings.InvestFundingFailureLosesMoney | server/storage.ts:747-783 | When the company is open, the pool guard passes, the investor can pay, the goal is positive and the headroom is below the amount, the investment reports the headroom as a failure. Yet the investor's balance, and the total of all balances, drop by the amount. Companies, the investment trail and the transaction log are unchanged. |
| LedgerFindings.InvestPartialCommitWitness | server/storage.ts:747-783 | A concrete valid store in which a refused investment of 500 takes the investor's 500. |
| Ledger.InvestInCompanyAtomic | server/storage.ts:741-831 | The corrected investment: every failure writes nothing. |
| LedgerFindings.InvestAtomicConservesMoney | server/storage.ts:741-831 | The corrected investment gives the same answer as the code, and the same store on success. In every outcome, balances plus the treasury are conserved. |
| LedgerInvariants.InvestAtomicPreservesValid | server/storage.ts:741-831 | The corrected investment keeps the store invariant. |
| LedgerFindings.DeleteTwiceRefundsTwice | server/storage.ts:649-656 | Deleting a company twice succeeds both times with the same report. Each investor other than the creator is refunded twice. |
| Ledger.DeleteCompanyOnce | server/storage.ts:649-656 | The corrected deletion fails, writing nothing, exactly when the company is missing or already deleted. |
| LedgerFindings.DeleteOnceRefundsOnce | server/storage.ts:649-656 | With the correction, a second deletion fails and changes nothing. The first deletion is the code's deletion. |
| LedgerFindings.DeleteOverdrawsCreatorWitness | server/storage.ts:705-712 | From a valid store with no negative balance, deleting the company refunds 1000 to its investor. That leaves the creator at -1000. |
| Ledger.DeleteCompanyGuarded | server/storage.ts:705-712 | The corrected deletion reports a missing company exactly when it is missing. A refusal writes nothing, and a success is the code's deletion. |
| LedgerFindings.DeleteGuardedSucceedsWhen | server/storage.ts:705-712 | The corrected deletion succeeds exactly when the company exists and its creator, once refunded their own investment, can cover the refunds paid to the other investors. |
| LedgerFindings.DeleteGuardedKeepsNonNegative | server/storage.ts:705-712 | When all investments are non-negative, the corrected deletion keeps every balance non-negative. |

## Left out

- Floating point.
  - The grant, the 1.5% fee and the holder share are computed in floating point and then floored.
  - The model uses the exact integer floor of the same ratio.
  - Rounding differences of the floating-point product are not modelled.
- Zero goals and zero bps totals are modelled by what floating point gives.
  - A zero funding goal makes the pool ratio Infinity when the pool is non-empty, so the pool guard fails. With an empty pool it is NaN, and the guard passes.
  - In that second case the NaN grant is bound into the company update (server/storage.ts:771), after the debit. The database refuses it, and the rollback undoes the debit. The model reports this as `StoreRejected` with the store unchanged.
  - A zero bps total makes every holder share NaN. The database refuses to store NaN, so the whole distribution rolls back.
  - `Storage.DatabaseStorage.DistributeEarnings` tests for that case before its first write, rather than writing and then rolling back.
- Ledger.DistributeEarnings: treats a negative bps total like a zero one. No valid store has a negative total, since every row has non-negative bps.
- Database plumbing: the session store, the connection pool and the `try`/`catch` around each transaction.
  - Storage errors other than the NaN refusal are not modelled.
- Concurrency and isolation are not modelled.
  - Each operation is one sequential step with the same guards.
  - The atomic conditional updates become guarded updates.
- The active-admin queries (server/storage.ts:553 and 856) are inputs. `Ledger.ActiveAdmins` states that the list holds every admin who is not banned, once each.
- The new company's id is a parameter, required to be fresh. The database generates it.
- Presentational data is not modelled:
  - descriptions and their `toFixed`/`toLocaleString` formatting;
  - company category, description and team emails;
  - timestamps;
  - the error-message strings.
- Storage.DatabaseStorage.InvestInCompany: requires a positive amount. No server route checks this; it is an assumption about callers. The investment dialogs check it before calling (client/src/components/InvestModal.tsx:66-84 asks for 100 to 50000, client/src/components/InvestmentModal.tsx:52 for more than 0).
- Ledger.InvestInCompany: requires a positive amount, the same assumption about callers. This keeps the floating-point reading of the pool guard well defined.
- Ledger.CreateCompany: takes the funding goal, the pool bps and each founder's bps as non-negative (`nat`). The code accepts any number, and no server route or client form checks them (client/src/components/CreateCompanyModal.tsx:60 sends `parseInt(fundingGoal)` as it is). A negative founder row would break proportional payouts: rows of 200 and -100 bps total 100, so the first is paid twice the distributable amount. The non-negative bps part of the store invariant, `DistributionProperties.PaidWithinShares` and `DistributionProperties.DistributionPaysWithinGross` rest on this assumption.
- Storage.DatabaseStorage.CreateCompany: takes the same inputs as non-negative, for the same reason.
- Integer width: `balance`, `amount`, `fundingGoal` and `currentFunding` are 32-bit `integer` columns (shared/schema.ts:10, 21, 33-34). A write past 2^31-1 fails, the transaction rolls back, and the operation reports failure. The model uses unbounded integers, so it never takes that failure path.
- The history is ordered by position in the log, not by `createdAt`. `createdAt` defaults to `now()` (shared/schema.ts:24), which is fixed for a whole database transaction. So the records written by one distribution or deletion share a timestamp, and their order at server/storage.ts:522 is unspecified. The model breaks such ties by log position, newest first.
- Ledger.GetTransactions: `limit` defaults to 50 in the source (server/storage.ts:511). The model has no default arguments, so every caller passes the limit.
- Ledger.GetTransactions: the counterpart's email and admin flag, looked up per entry, are not modelled. The entry carries the counterpart's id.
- Ban/unban, admin toggles, friendships, profiles, recommendations and the equity/payout read queries are outside the ledger. Banned and admin status enter only as inputs.
- Routes, validation middleware, the schema file and the client are not part of this model.
- Equity.AdminShareWithinGross: holds only for at most 66 admins. `Equity.AdminShareCanExceedGross` shows that 67 admins can make the distributable amount negative. The code does not prevent this.
- DistributionProperties.DistributionPaysWithinGross: stated for at most 66 admins, for the same reason.
- DistributionProperties.DistributeKeepsNonNegative: requires a non-negative gross and at most 66 admins, and the code guarantees neither.
  - With 67 or more admins the distributable amount is negative, so each eligible holder's share is negative. The code adds it to the holder's balance with no guard (server/storage.ts:907), so a holder at 0 goes below zero.
  - With a negative gross the 1.5% fee (server/storage.ts:859) is negative, so every admin's balance drops. No server route checks the sign; only the client form does (client/src/components/DistributeEarningsModal.tsx:57).
  - So distributions, like the deletion under Findings, can lower balances without a guard; only transfers, investments and admin adjustments are guarded.
- Ledger.FirstAllocation: the source's lookup of the investor's existing row (server/storage.ts:786-793) has `.limit(1)` and no ORDER BY, so when a user holds several rows in one company (an admin also named as a founder, server/storage.ts:580-606) the database may return any of them. The model fixes one possible choice, the lowest-indexed row. Which row gets the grant affects later payouts, since shares are floored row by row and each row has its own `canReceivePayouts` flag.
- Ledger.Holders: the select of a company's equity rows (server/storage.ts:895) has no ORDER BY, and an update can move a row. The model fixes table order as one possible order. This decides the order of the payout rows and the earn records.
- Ledger.InvestmentsIn: the select of a company's investments (server/storage.ts:659-665) has no ORDER BY. The model fixes log order as one possible order. This decides the order of the refund records; each investor's total does not depend on it.
- A company's `createdById` always names an existing user because of a foreign key. The model does not assume this. A missing creator is simply not debited.

## Findings

| source | as written | input that shows it | evidently intended | confidence | as-written member | corrected member |
|---|---|---|---|---|---|---|
| server/storage.ts:756-783 | The investor is debited before the funding-headroom guard. The guard's failure is a `return` inside the transaction, so the debit commits while the company, equity and logs are untouched. | A company with goal 100000, funding 99990, pool 100 bps, 99 granted; an investor with 500 invests 500. The grant is 0, so the pool guard passes; headroom 10 fails; the investor ends at 0. | A refused investment writes nothing, so balances plus treasury are conserved. | high (not executed) | LedgerFindings.InvestPartialCommitWitness | LedgerFindings.InvestAtomicConservesMoney |
| server/storage.ts:649-656 | The deletion looks the company up without testing `isDeleted`. A second deletion refunds every investor again and debits the creator again. | Delete a company twice when an investor other than the creator invested 1000. That investor is credited 2000. | A deleted company is not found, so investors are refunded once. | medium (not executed; the route may prevent a second call) | LedgerFindings.DeleteTwiceRefundsTwice | LedgerFindings.DeleteOnceRefundsOnce |
| server/storage.ts:705-712 | The creator is debited the refunds to others by a plain decrement. It has no balance guard, unlike the debits of sendMoney, investInCompany and adminAdjustBalance. | Investor bob put 1000 into ann's company; ann has 0. Deleting the company leaves ann at -1000. | Balances never go negative; a creator who cannot cover the refunds cannot delete. | medium (not executed; a negative balance may be tolerated by design) | LedgerFindings.DeleteOverdrawsCreatorWitness | LedgerFindings.DeleteGuardedKeepsNonNegative |
