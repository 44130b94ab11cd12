# Wallet ledger with user registry and login — a verified model

This project models the core of a NestJS financial-wallet backend in Dafny.

- **Wallet ledger.** Deposits, peer-to-peer transfers and reversals within a 30-day window, each with exactly-once semantics from an idempotency key. It also covers the caller's balance and paged transaction history.
- **User registry.** Each user is created together with an empty wallet. A user can be deactivated, and users can be looked up by unique username or email.
- **Login chain.** A login containing '@' is an email, any other login is a username. The user must exist, be active and match the password. The token is signed over `{email, sub: id}`.

The shared relational store is the class `Store.Database`, with the users, wallets and transactions tables as maps and their auto-increment counters. `Store.Tables` is the same store as a value. Every atomic store transaction of the source is one pure step function on `Tables` in `Ledger` (`DepositApplied`, `TransferApplied`, `ReversalApplied`) and in `UserService` (`UserCreated`, `Deactivated`). Each service method is proved to leave the store equal to that step applied to the old store.

Each step is proved to keep `Store.Invariant`, which holds:

- the unique constraints on username, email, wallet owner and idempotency key;
- the foreign keys;
- the type-specific shape of each transaction row;
- the reversal links: each reversal points to an earlier transaction (one with a lower id) that is now REVERSED, no transaction has two reversals, and REVERSED means a reversal exists;
- conservation of money: the wallet balances add up to the COMPLETED deposits.

Files:

| file | contents |
|---|---|
| `wrappers.dfy` | `Option`, `Result` |
| `schema.dfy` | rows of the three tables; a balance update (`Adjusted`) |
| `accounting.dfy` | the two ways of counting money and how a point update changes them |
| `store.dfy` | `Tables`, unique-column lookups, the invariant, the `Database` class |
| `ledger.dfy` | the three ledger steps and the proofs about them |
| `pagination.dfy` | page window and page count |
| `wallet_service.dfy` | the reversal policy, the history query, the `WalletService` class |
| `user_service.dfy` | user reads, the creation and deactivation steps, the `UserService` class |
| `auth_service.dfy` | login lookup, credential validation, token payload |
| `scenarios.dfy` | runs of the services on a fresh store, following the wallet endpoints' test cases |

Time is an integer count of milliseconds. Ids start at 1, as the store's auto-increment keys do, so an id is never the falsy 0. Four behaviours of the code that a reader might not expect, which the model keeps:

- **Reversal deadline.** A reversal exactly at `revertExpiresAt` is allowed. The code rejects only `now > revertExpiresAt`, at `src/modules/wallet/wallet.service.ts:97-102`.
- **Balance of a reversal.** A reversal does no balance check and can leave a wallet negative. An example is a deposit that was partly transferred away and is then reverted. The code has no check at lines 200-262.
- **Reversal updates.** A reversal and a deposit update wallets without a version guard. Only the transfer's debit of the sender is guarded, at lines 160-166.
- **Lost version race.** A transfer that loses the version race fails with an internal-server error that carries a concurrency message, at lines 412-415. The model names this error `ConcurrencyConflict`.

## Model

| member | source | states |
|---|---|---|
| Accounting.TransferConservesTotal | src/modules/wallet/wallet.service.ts:160-175 | debiting the sender and crediting a distinct receiver by the same amount leaves the sum of all balances unchanged |
| Ledger.DepositKeepsInvariant | src/modules/wallet/wallet.service.ts:121-147 | a deposit into an existing wallet with a fresh key keeps the store invariant and raises the total money by exactly the amount |
| Ledger.TransferKeepsInvariant | src/modules/wallet/wallet.service.ts:159-197 | a transfer between two distinct existing wallets with a fresh key keeps the store invariant and leaves the total money unchanged |
| Ledger.ReversalKeepsInvariant | src/modules/wallet/wallet.service.ts:204-261 | reverting a stored COMPLETED non-reversal transaction that has no reversal yet, with a fresh key, keeps the invariant, including the reversal links. The total falls by the amount for a deposit and is unchanged for a transfer |
| Ledger.ReversalLinksHold | src/modules/wallet/wallet.service.ts:237-258 | after marking the original REVERSED and inserting its reversal, every reversal still points at a REVERSED transaction with a lower id than its own, no transaction has two reversals, and every REVERSED transaction has its reversal |
| Ledger.ReversalConserves | src/modules/wallet/wallet.service.ts:204-261 | a reversal takes out of the wallets' balances exactly what it takes out of the standing deposits: a deposit's amount, nothing for a transfer |
| Ledger.DepositThenReversalRestoresBalances | src/modules/wallet/wallet.service.ts:205-258 | reverting a deposit right after it restores every balance, raises the wallet's version by two, marks the deposit REVERSED and links the reversal to it |
| Ledger.TransferThenReversalRestoresBalances | src/modules/wallet/wallet.service.ts:215-258 | reverting a transfer right after it restores every balance and raises both parties' versions by two |
| Pagination.Window | src/modules/wallet/wallet.service.ts:281-296 | skip/take returns exactly the rows from position skip on, at most take of them, in order |
| Pagination.TotalPages | src/modules/wallet/wallet.service.ts:330 | the page count is ceil(total / limit): the pages hold every row, and no page is entirely empty |
| Pagination.PageHolds | src/modules/wallet/wallet.service.ts:279-331 | row k of the history is on page k / limit + 1 at position k % limit, and that page is within totalPages |
| Pagination.PastLastPageEmpty | src/modules/wallet/wallet.service.ts:279-331 | a page beyond totalPages is empty |
| WalletService.ValidateReversibility | src/modules/wallet/wallet.service.ts:81-113 | no error exactly when `Reversible` holds. Each error (AlreadyReverted, NotCompleted, InvalidRevertType, RevertExpired, Unauthorized) is characterised both ways in the code's order. Expiry is strict: the deadline itself still passes. A deposit is reverted by its receiver, a transfer by its sender |
| WalletService.ReversedIsTerminal | src/modules/wallet/wallet.service.ts:85-87 | right after a reversal, the reversibility check on the reversed transaction answers AlreadyReverted, for every requesting wallet and at every time. `Revert` looks up the requester's wallet first, so a requester without a wallet gets WalletNotFound instead |
| WalletService.History | src/modules/wallet/wallet.service.ts:286-322 | exactly the stored transactions in which the wallet is sender or receiver, newest first (strictly descending id) |
| WalletService.ReceiverOf | src/modules/wallet/wallet.service.ts:381-390 | a receiver wallet is found exactly when a user with that username exists and owns a wallet, and it is that user's wallet |
| WalletService.WalletService.GetWalletByUserId | src/modules/wallet/wallet.service.ts:42-53 | the caller's stored wallet exactly when one exists, otherwise WalletNotFound |
| WalletService.WalletService.VerifyIdempotency | src/modules/wallet/wallet.service.ts:55-63 | Duplicate exactly when some transaction of any type already carries the key |
| WalletService.WalletService.FindTransactionById | src/modules/wallet/wallet.service.ts:65-79 | the stored transaction exactly when the id exists, otherwise TransactionNotFound |
| WalletService.WalletService.ExecuteDepositTransaction | src/modules/wallet/wallet.service.ts:115-148 | atomic credit and insert. The new store is `DepositApplied` of the old one, and the receipt holds the new balance and the new id. A taken key rolls everything back as an internal failure |
| WalletService.WalletService.ExecuteTransferTransaction | src/modules/wallet/wallet.service.ts:150-198 | atomic guarded debit, credit and insert. If the sender's version changed or either wallet is gone, the result is ConcurrencyConflict and the store is unchanged. On success the store is `TransferApplied` of the old one and total money is unchanged |
| WalletService.WalletService.ReverseBalances | src/modules/wallet/wallet.service.ts:205-235 | the inverse money movement, by the source's branches: the deposit's receiver is debited; the transfer's sender is credited and its receiver debited |
| WalletService.WalletService.ExecuteReversalTransaction | src/modules/wallet/wallet.service.ts:200-262 | atomic inverse movement, REVERSED mark and reversal insert. The new store is `ReversalApplied` of the old one, and the result is the reversal row: sender is the original receiver; receiver is the original sender for a transfer, none for a deposit |
| WalletService.WalletService.GetBalance | src/modules/wallet/wallet.service.ts:264-277 | the balance of the caller's wallet, or WalletNotFound |
| WalletService.WalletService.GetTransactions | src/modules/wallet/wallet.service.ts:279-342 | page and limit default to 1 and 10. The data is the window of `History` at offset (page-1)*limit, the total is its length and totalPages is ceil(total/limit). WalletNotFound without a wallet |
| WalletService.WalletService.Deposit | src/modules/wallet/wallet.service.ts:344-367 | checks key then wallet. It succeeds exactly when both pass; then the wallet gains the amount and one version, the deadline is now + 30 days and total money rises by the amount. A failure leaves the store unchanged |
| WalletService.WalletService.Transfer | src/modules/wallet/wallet.service.ts:369-420 | Duplicate, WalletNotFound, SelfTransfer, ReceiverNotFound, InsufficientFunds in that order; otherwise success. Success debits the sender (never below zero), credits the receiver, raises both versions and conserves total money. A failure leaves the store unchanged |
| WalletService.WalletService.Revert | src/modules/wallet/wallet.service.ts:422-443 | Duplicate, TransactionNotFound, WalletNotFound, then the first reversal-policy error. It succeeds exactly when `Reversible` holds; then the original is REVERSED, the reversal row is returned and the store is `ReversalApplied` of the old one |
| UserService.FindByUsername | src/modules/user/user.service.ts:40-54 | found exactly when a user has that username, and the result is that user without its password hash |
| UserService.FindByEmail | src/modules/user/user.service.ts:56-66 | found exactly when a user has that email, and the result is that user without its password hash |
| UserService.FindAll | src/modules/user/user.service.ts:29-38 | every user's password-less view and nothing else, one per user |
| UserService.CreateKeepsInvariant | src/modules/user/user.service.ts:95-108 | inserting a user with a free email and username, with its wallet at balance 0 and version 1, keeps the store invariant and the total money |
| UserService.CreatedUserHasEmptyWallet | src/modules/user/user.service.ts:95-108 | after creation the new user owns exactly one wallet, the one just inserted, and its balance is 0 |
| UserService.DeactivateKeepsInvariant | src/modules/user/user.service.ts:68-78 | clearing a user's active flag keeps the store invariant |
| UserService.UserService.Create | src/modules/user/user.service.ts:80-119 | AlreadyExists, with the store unchanged, exactly when the email or the username is taken. Otherwise the store is `UserCreated` of the old one and the result is the new active user without its hash |
| UserService.UserService.DeactivateById | src/modules/user/user.service.ts:68-78 | a failure, with the store unchanged, exactly when no user has the id, which includes every negative id the route's integer parsing lets through; otherwise only the user's active flag is cleared |
| UserService.CreatedUserIsFound | src/modules/user/user.service.ts:80-119 | after creation the new user is found, active, by its username and by its email |
| UserService.DeactivatedIsInactive | src/modules/user/user.service.ts:68-78 | after deactivation the user is found inactive and wallets and transactions are untouched |
| AuthService.FindByLogin | src/modules/auth/auth.service.ts:111-126 | a login with '@' finds the user with that email, any other the user with that username; none exactly when no user matches |
| AuthService.ValidateUser | src/modules/auth/auth.service.ts:33-65 | UserNotFound exactly when no user matches the login. For the matching user: UserNotActive exactly when inactive; InvalidPassword exactly when active and the hash does not match; success exactly when active and matching, returning the user without its hash |
| AuthService.LoginIdentifiesUser | src/modules/auth/auth.service.ts:67-72 | the payload of a successful login names, as sub, an active user with that email whom the login named and whose hash matched. When that email contains '@', logging in with it finds the same user |
| AuthService.PayloadIdentifiesUser | src/modules/auth/auth.service.ts:67-72 | the payload `{email, sub}` signed for a stored user has that user's id as sub; its email finds that same user; no two users get the same payload |
| AuthService.DeactivatedUserCannotLogin | src/modules/auth/auth.service.ts:40-41 | once deactivated, a user's login fails with UserNotActive whatever the password |
| AuthService.CreatedUserCanLogin | src/modules/auth/auth.service.ts:111-126 | a newly created user logs in by its username (no '@') and by its email (with '@') with the password its hash was made from |
| Scenarios.DepositThenReplay | test/wallet.e2e-spec.ts:66-107 | depositing 1000 into an empty wallet returns balance 1000 and transaction 1; the same key again is a Duplicate |
| Scenarios.TransferSucceeds | test/wallet.e2e-spec.ts:110-154 | transferring 500 of 1000 returns balance 500, and the receiver then holds 500 |
| Scenarios.TransferOverdraft | test/wallet.e2e-spec.ts:156-179 | a transfer of 500 from an empty wallet fails with InsufficientFunds |
| Scenarios.TransferToSelf | src/modules/wallet/wallet.service.ts:377-379 | a transfer to one's own username fails with SelfTransfer |
| Scenarios.RevertThenRevertAgain | test/wallet.e2e-spec.ts:183-240 | reverting a deposit succeeds with a reversal linked to it and brings the balance back to 0; reverting it again fails with AlreadyReverted |
| Scenarios.RevertAtDeadline | src/modules/wallet/wallet.service.ts:97-102 | a reversal at exactly the deadline succeeds; one millisecond later it fails with RevertExpired |
| Scenarios.StaleVersionTransfer | src/modules/wallet/wallet.service.ts:160-166 | a transfer step carrying a version that a deposit has since moved on fails with ConcurrencyConflict and the balance stays 1000 |

## Left out

- Concurrency between requests is not modelled. Each service call runs alone on the store, and each store transaction is one atomic step. The version-guarded debit is modelled as the compare-and-swap it is; `Scenarios.StaleVersionTransfer` runs the interleaving where it matters.
- Interleavings between a call's checks and its atomic step are not modelled. Examples are two reversals of one transaction validated at the same time, or the gap between the idempotency pre-check and the insert. The store's unique index on the key is modelled at insert time as a rolled-back internal failure.
- Wall-clock time is a parameter `now` in milliseconds. `Date.setDate(+30)` is modelled as adding 30 × 86 400 000 ms; calendar and daylight-saving effects are not modelled.
- History is ordered by transaction id, newest first. This stands in for `createdAt` descending, which the store assigns in insertion order.
- The joined relations a query includes (the wallets' users in history rows, a transaction's wallets and reversal) are not modelled. The reversal relation is modelled by `HasReversal`, a search for a row whose `originalTransactionId` names the transaction.
- Password hashing and comparison are hidden in the hash library. The hash is a parameter of `Create`, and the comparison is a function parameter of `ValidateUser`. Signing the JWT is left out; only its payload is modelled.
- `register` (src/modules/auth/auth.service.ts:87-109) is `Create` followed by signing the payload. It is left out as a separate member, because it adds nothing but the token.
- Store I/O failures are not modelled, beyond the unique-key and missing-row failures. The catch blocks that turn unexpected errors into internal-server errors are among those parts. The lookups never fail in the model.
- The select list `userSelect` is not part of this model. The service's return type lists id, username, email and isActive, and `UserService.View` returns exactly those.
- The store default of a new user's `isActive` is not part of this model. Users are created active, since a new user can log in.
- Store columns with no role in the modelled behaviour (createdAt, updatedAt) are not modelled. A reversal row's before and after balances are not written by the code, so they are absent (`None`).
- DTO validation is taken as given and appears as preconditions: amounts are positive, keys and receiver usernames are non-empty, page ≥ 1 and limit ≥ 1. Usernames never contain '@' and e-mails always do. `AuthService.CreatedUserCanLogin` relies on that as a precondition. `AuthService.LoginIdentifiesUser` states its email look-up only for e-mails that contain '@'.
- WalletService.WalletService.ExecuteReversalTransaction: requires that the transaction has passed `ValidateReversibility`, as every call in the source does. It does not model a call on an unvalidated transaction.
- WalletService.WalletService.Deposit: amounts and balances are unbounded integers. In the source they are JavaScript numbers, exact only up to 2^53, and the store's integer columns are bounded. A deposit that overflows a column fails in the store and is answered with an internal error (src/modules/wallet/wallet.service.ts:362-366). The model answers Ok for every positive amount.
- WalletService.WalletService.Transfer: the same unbounded integers. An overflowing credit to the receiver would fail in the store with an internal error (src/modules/wallet/wallet.service.ts:410-419); the model does not produce that failure.
- WalletService.WalletService.Revert: the same unbounded integers for the reversed amounts.
- The transaction statuses PENDING and FAILED are assumed from the `status !== 'COMPLETED'` check (src/modules/wallet/wallet.service.ts:89-91); the status type's definition is not part of this model. No step writes them, so `NotCompleted` is reachable only for a row stored with one of them.
