# polka cache: the in-memory balance ledger, in Dafny

This project models the core of the polka payment cache (`cache/src/memstore/memstore.go`).
The cache keeps a net balance for every counterparty bank and for every customer account of
each bank. It applies each incoming transfer as four counter updates, and it pushes snapshots
of the ledger to the persistence layer:

- one bank flush per bank tick;
- one bank's accounts per account tick, the bank picked by a rotation ring;
- at shutdown, one bank flush followed by one full turn of the ring.

The model is split by concern:

- `ints.dfy` (`Ints`): the Go integer widths and the wrapping atomic adds on them
  (`atomic.AddInt32`, `atomic.AddInt64`, `atomic.AddUint64`, and unary minus on an `int32`).
- `ledger.dfy` (`Ledger`): the ledger as a value (bank name -> `{Id, Balance, Accs}`), the
  effect of `updateAccount` and of `UpdateBalances`, and their properties: exact deltas,
  frame, conservation of the total, a transfer undone by its reverse.
- `bootstrap.dfy` (`Bootstrap`): what the two loading loops of `New` compute from the bank
  rows and account rows.
- `ring.dfy` (`Rotation`): the rotation ring as the cache uses it (`add`, `next`,
  `getCurrent`, `Length`), and the full-turn property.
- `backup.dfy` (`Backup`): the records pushed to the persistence layer, what a bank flush and
  an account flush contain, and the account-emission loop.
- `memstore.dfy` (`Memstore`): the cache itself. It is a class with the bank map, the ring and
  the transaction counter. Its methods are proved against the functions above: bootstrap,
  `updateAccount`, `UpdateBalances`, the two backups, and the shutdown drain.
- `reorder.dfy` (`Reorder`) and `interleave.dfy` (`Interleaving`): a transfer as four
  independent atomic updates. Every two updates commute. So, with `updateAccount` taken as
  one atomic step, any interleaving of the updates of concurrent transfers ends in the
  state that running the transfers one after another gives.

Integers are modelled at their Go widths, with explicit two's-complement wrap-around:

- bank balances are `int64`;
- account balances and amounts are `int32`;
- bank ids are `uint16`;
- account numbers are `uint32`;
- the transaction counter is a `uint64`.

The sender's account is updated with `-current.Amount` computed in `int32`, so an amount of
-2^31 negates to itself (`Neg32`). The bank balances are updated with `-int64(Amount)`, which
is exact.

Go map iteration order is unspecified, so a flush is characterised by its contents, never by
its order:

- a bank flush comes with a ghost enumeration of the bank names it visited;
- an account flush holds exactly one record per account.

## Model

| member | source | states |
|---|---|---|
| Ints.Add32 | cache/src/memstore/memstore.go:316 | `atomic.AddInt32`: the result is the sum, or the sum moved back into range by 2^32; it is the exact sum when that fits |
| Ints.Add64 | cache/src/memstore/memstore.go:169-172 | `atomic.AddInt64`: the result is the sum, or the sum moved back into range by 2^64; it is the exact sum when that fits |
| Ints.Neg32 | cache/src/memstore/memstore.go:175 | `-current.Amount` on an `int32`: the negation, except that -2^31 negates to itself |
| Ints.Inc64 | cache/src/memstore/memstore.go:158 | `atomic.AddUint64(&counter, 1)`: one more, wrapping to 0 after 2^64-1 |
| Ints.Add32Undo | cache/src/memstore/memstore.go:175-176 | adding `b` and then `Neg32(b)` to an account counter (or the other way round) restores it, overflow or not |
| Ints.Add64Undo | cache/src/memstore/memstore.go:169-172 | adding an amount to a bank counter and then its negation (or the other way round) restores it, overflow or not |
| Ints.Add32Commute | cache/src/memstore/memstore.go:316 | two wrapping adds to one account counter give the same value in either order |
| Ints.Add64Commute | cache/src/memstore/memstore.go:169-172 | two wrapping adds to one bank counter give the same value in either order |
| Ints.Add32Neg | cache/src/memstore/memstore.go:175 | adding `Neg32(b)` subtracts `b` exactly when the difference fits in an `int32` |
| Ints.DebitCreditDrift | cache/src/memstore/memstore.go:169-172 | taking an amount from one bank counter and adding it to another changes their sum by 0 or ±2^64, and by 0 when neither add overflows |
| Ledger.AddToAccount | cache/src/memstore/memstore.go:301-317 | `updateAccount`: the key set gains the account number; that account becomes its old value (0 when missing) plus the delta; every other account keeps its value |
| Ledger.AddToBankBalance | cache/src/memstore/memstore.go:169-172 | `atomic.AddInt64` on a named bank: its balance becomes the wrapping sum; its id and accounts, the bank set and every other bank are unchanged |
| Ledger.AddToBankAccount | cache/src/memstore/memstore.go:175-176 | `updateAccount` on a named bank's table: its accounts become `AddToAccount` of the old ones; its id and balance, the bank set and every other bank are unchanged |
| Ledger.ApplyTransfer | cache/src/memstore/memstore.go:155-179 | the four counter updates of `UpdateBalances`, in source order, never add or remove a bank |
| Ledger.TransferBetweenBanks | cache/src/memstore/memstore.go:165-176 | between two different banks: the sender bank is debited and the receiver bank credited; the sender account gets `Neg32(amount)` and the receiver account gets `amount`, each created at 0 when missing; ids do not change |
| Ledger.TransferBetweenBanksExact | cache/src/memstore/memstore.go:165-176 | without overflow, the sender bank and account go down by exactly the amount and the receiver bank and account go up by exactly the amount |
| Ledger.TransferWithinBank | cache/src/memstore/memstore.go:165-176 | inside one bank, the bank balance and id end unchanged; the two accounts move by the amount; a transfer from an account to itself only creates that account |
| Ledger.TransferFrame | cache/src/memstore/memstore.go:155-179 | a transfer keeps the bank set, every id, and every bank other than the two named ones. Account keys only grow, and the two named accounts exist afterwards. Every other account keeps its value |
| Ledger.TransferAsDebitCredit | cache/src/memstore/memstore.go:169-176 | the four updates regroup into a debit of the sender's record, then a credit of the (possibly same) receiver's record |
| Ledger.AddToAccountCommute | cache/src/memstore/memstore.go:301-317 | two `updateAccount` calls on one table give the same table in either order |
| Ledger.CreditCommute | cache/src/memstore/memstore.go:169-176 | two credits to one bank record commute |
| Ledger.DebitThenCredit | cache/src/memstore/memstore.go:169-176 | crediting back what was debited from one account leaves only the account's creation behind |
| Ledger.CreditThenDebit | cache/src/memstore/memstore.go:169-176 | debiting what was credited to one account leaves only the account's creation behind |
| Ledger.TotalAcrossTransfer | cache/src/memstore/memstore.go:169-172 | the sum of all bank balances changes by nothing inside one bank, and by exactly the change of the two bank counters between two banks |
| Ledger.TotalWithinBank | cache/src/memstore/memstore.go:169-172 | inside one bank, the sum of all bank balances does not move |
| Ledger.TotalBetweenBanks | cache/src/memstore/memstore.go:169-172 | between two banks, the sum of all bank balances moves by exactly the change of the two bank counters |
| Ledger.TransferConservesTotal | cache/src/memstore/memstore.go:169-172 | the sum of all bank balances is unchanged modulo 2^64 by any transfer. It is exactly unchanged inside one bank, and between two banks when neither bank counter overflows |
| Ledger.RecordRoundTrip | cache/src/memstore/memstore.go:165-176 | on one bank record, a transfer followed by its reverse leaves what a transfer of 0 leaves |
| Ledger.TransferOnOneRecord | cache/src/memstore/memstore.go:165-176 | a transfer inside one bank is a debit then a credit of that one record |
| Ledger.TransferOnTwoRecords | cache/src/memstore/memstore.go:165-176 | a transfer between two banks debits one record and credits the other |
| Ledger.ThenReverseWithinBank | cache/src/memstore/memstore.go:155-179 | inside one bank, a transfer followed by its reverse equals a transfer of 0 |
| Ledger.ThenReverseBetweenBanks | cache/src/memstore/memstore.go:155-179 | between two banks, a transfer followed by its reverse equals a transfer of 0 |
| Ledger.TransferThenReverse | cache/src/memstore/memstore.go:155-179 | a transfer followed by the same transfer reversed restores every balance; only the two accounts may have been created (at 0) |
| Ledger.ZeroTransferIdentity | cache/src/memstore/memstore.go:155-179 | a transfer of 0 between existing accounts changes nothing |
| Bootstrap.StoreBankRow | cache/src/memstore/memstore.go:111-123 | one pass of the bank loop: the row's bank is present afterwards with the row's balance. A new bank takes the row's id and no accounts; an existing one keeps its id and accounts. No other bank changes |
| Bootstrap.LoadBanks | cache/src/memstore/memstore.go:105-126 | the bank loop: every bank named by a row is present afterwards |
| Bootstrap.LoadAccounts | cache/src/memstore/memstore.go:129-138 | the account loop never adds or removes a bank |
| Bootstrap.LoadBanksKeys | cache/src/memstore/memstore.go:105-126 | after the bank loop, the banks are exactly the names in the bank rows |
| Bootstrap.LoadBanksNoAccounts | cache/src/memstore/memstore.go:111-120 | the bank loop creates no account |
| Bootstrap.LoadBanksLastWins | cache/src/memstore/memstore.go:121-123 | a bank's balance is the balance of the last row naming it |
| Bootstrap.LoadBanksFirstId | cache/src/memstore/memstore.go:111-120 | a bank's id is the id of the first row naming it; later rows never change it |
| Bootstrap.LoadBanksDistinct | cache/src/memstore/memstore.go:105-126 | with one row per bank, every bank is exactly its row's id and balance, with no accounts |
| Bootstrap.AddToBankAccountKeys | cache/src/memstore/memstore.go:136-137 | one `updateAccount` during bootstrap keeps every id and bank balance, and adds only its own account to its own bank |
| Bootstrap.LoadAccountsFrameAt | cache/src/memstore/memstore.go:129-138 | for one bank, the account loop keeps its id and balance; its accounts become its old accounts plus those its rows name |
| Bootstrap.LoadAccountsFrame | cache/src/memstore/memstore.go:129-138 | the same, for every bank at once |
| Bootstrap.LoadAccountsDistinct | cache/src/memstore/memstore.go:129-138 | rows for distinct, not yet present (bank, account) pairs load each account with exactly its row's balance |
| Bootstrap.BootstrapReproducesRows | cache/src/memstore/memstore.go:103-140 | bootstrap from one row per bank and one row per (bank, account) pair reproduces every id and balance exactly and loads no other account |
| Rotation.Advance | cache/src/memstore/memstore.go:280 | `next` moves the cursor one step, from the last position back to the first |
| Rotation.AdvanceNWithinTurn | cache/src/memstore/memstore.go:239-241 | within one turn, `k` calls of `next` from `c` land on `c + k`, wrapped at most once |
| Rotation.Turn | cache/src/memstore/memstore.go:239-241 | the positions the cursor takes over `Length` successive calls of `next` |
| Rotation.FullTurn | cache/src/memstore/memstore.go:239-241 | `Length` calls of `next` visit every position exactly once, in ring order, and bring the cursor back where it started |
| Rotation.Ring.constructor | cache/src/memstore/memstore.go:76 | a new ring is empty, with the cursor at its start |
| Rotation.Ring.Add | cache/src/memstore/memstore.go:125 | `add` appends the name and leaves the cursor where it was |
| Rotation.Ring.Next | cache/src/memstore/memstore.go:280 | `next` leaves the names and advances the cursor |
| Rotation.Ring.Current | cache/src/memstore/memstore.go:281 | `getCurrent` returns a name of the ring |
| Rotation.Ring.Length | cache/src/memstore/memstore.go:239 | `Length` is 0 exactly when the ring is empty |
| Backup.EmitAccounts | cache/src/memstore/memstore.go:289-296 | the account loop pushes exactly one `{BankId, Account, Balance}` record per account, with the account's current balance |
| Backup.DrainEmitsEveryAccount | cache/src/memstore/memstore.go:237-243 | account flushes over one full turn of a ring that holds every bank emit every account of every bank with its current balance |
| Memstore.Cache.New | cache/src/memstore/memstore.go:103-140 | after bootstrap, the ledger is `LoadAccounts(LoadBanks(bankRows), accountRows)`. The ring lists the bank rows' names in row order, with the cursor at its start. The counter is 0, and the ring's names are exactly the bank set |
| Memstore.Cache.StoreBank | cache/src/memstore/memstore.go:111-125 | one pass of the bank loop: the bank is created if new and its balance stored, and its name is appended to the ring |
| Memstore.Cache.UpdateAccount | cache/src/memstore/memstore.go:301-317 | `updateAccount` on one bank's table is `AddToBankAccount`; the counter is unchanged |
| Memstore.Cache.LoadBankRows | cache/src/memstore/memstore.go:105-126 | the bank loop on an empty cache: the ledger becomes `LoadBanks(bankRows)` and the ring lists the rows' names in row order, the cursor at its start |
| Memstore.Cache.LoadAccountRows | cache/src/memstore/memstore.go:129-138 | the account loop: the ledger becomes `LoadAccounts` of the old ledger and the rows; the ring and counter are unchanged |
| Memstore.Cache.AddToBalance | cache/src/memstore/memstore.go:169-172 | `atomic.AddInt64` on a bank balance: the ledger becomes `AddToBankBalance` of the old ledger |
| Memstore.Cache.UpdateBalances | cache/src/memstore/memstore.go:155-179 | the counter becomes `Inc64` of its old value and the ledger becomes `ApplyTransfer` of the old ledger; the ring is untouched |
| Memstore.Cache.BackupBankBalances | cache/src/memstore/memstore.go:254-266 | one `{BankId, Balance}` record per bank, each bank exactly once, with its current values |
| Memstore.Cache.BackupAccountBalance | cache/src/memstore/memstore.go:273-297 | the ring advances once, then one record per account of the bank now under the cursor, each with its current balance |
| Memstore.Cache.Shutdown | cache/src/memstore/memstore.go:237-243 | one bank flush, then `Length` account flushes in ring order, visiting each ring position once. The cursor ends where it started, and every account of every bank is emitted |
| Reorder.FoldPermutation | cache/src/memstore/memstore.go:161-176 | when every two updates commute, any two orders of the same updates end in the same state |
| Interleaving.StepCommute | cache/src/memstore/memstore.go:169-176 | any two of the atomic updates a transfer is made of commute, whichever counters they touch |
| Interleaving.TransferIsFold | cache/src/memstore/memstore.go:165-176 | a transfer is exactly its four atomic updates run in source order |
| Interleaving.Step | cache/src/memstore/memstore.go:169-176 | one atomic update never adds or removes a bank, keeps the id of the bank it names, and leaves every other bank as it was |
| Interleaving.TransferOps | cache/src/memstore/memstore.go:169-176 | the four updates a transfer is made of, in source order; each names the sender or the receiver bank |
| Interleaving.Transfer | cache/src/memstore/memstore.go:155-179 | one `UpdateBalances` call as an update of the ledger; it never adds or removes a bank |
| Interleaving.SequentialIsApplyAll | cache/src/memstore/memstore.go:155-179 | running the updates of several transfers back to back is applying the transfers in order |
| Interleaving.InterleavingIsSequential | cache/src/memstore/memstore.go:161-176 | with `updateAccount` taken as one atomic step, any interleaving of the atomic updates of concurrent transfers leaves the ledger as running the transfers one after another does |
| Interleaving.TransferPairIsFold | cache/src/memstore/memstore.go:155-179 | two transfers in a row are their eight updates in a row |
| Interleaving.TransfersCommute | cache/src/memstore/memstore.go:155-179 | two transfers applied in either order leave the same ledger |
| Interleaving.ZeroTransferIdempotent | cache/src/memstore/memstore.go:155-179 | a transfer of 0 applied twice is the same as applied once |
| Interleaving.Pairs | cache/src/memstore/memstore.go:155-179 | the back-and-forth traffic as a sequence of transfers: every element is the transfer or its reverse |
| Interleaving.AlternateRestores | cache/src/memstore/memstore.go:155-179 | any positive number of back-and-forth pairs between two accounts restores every balance, as one transfer of 0 would |
| Interleaving.AlternateIsApplyAll | cache/src/memstore/memstore.go:155-179 | applying the transfers of `Pairs(t, k)` one after another is exactly `k` back-and-forth pairs, and every bank they name is present |
| Interleaving.ConcurrentAlternateRestores | cache/src/memstore/memstore.go:161-176 | with `updateAccount` taken as one atomic step, `2k` concurrent alternating transfers between two accounts restore every balance (as one transfer of 0 would), whatever order their atomic updates land in |

## Left out

- Concurrency itself is not modelled: the goroutine, the `sync.RWMutex` locks, the channels, the tickers and the `select` loop of `manageDatabaseBackups`. Each branch of the loop is a method of `Memstore.Cache`, run one at a time. Interleavings of transfers are covered only at the level of their atomic updates (`Interleaving`).
- The check-then-act window in `updateAccount` (lines 307-313) is not modelled. Two first touches of the same account can both see it missing, and the second can replace the counter the first one already added to. The model treats `updateAccount` as one atomic step.
- The outbound channels are modelled as the sequences of records each backup returns. Blocking on a slow consumer and the `Done` signal of `Close` are not modelled.
- `PrintBalances`, `Close`, `Snap`, `Ctx`, `Logger` and `BackupInterval` are not modelled: they are diagnostics, I/O and timing.
- The bank-count handshake (line 87) only presizes the map, so it is not modelled.
- `cache/src/dbstore/dbstore.go`, `receiver/src/main.go` and `generator/src/main.go` are not part of this model. The bootstrap streams are parameters of `Memstore.Cache.New`.
- The ring implementation (`circularLinkedList`) is not part of this model. Only its use by the cache is modelled: `add`, `next`, `getCurrent` and `Length`. The model assumes that a new ring's cursor starts at the first name and that `Length` counts the names added.
- Memstore.Cache.Shutdown: requires fewer than 65536 ring entries. The drain loop counts with a `uint16` (line 239), and how `Length` behaves beyond that range is not visible here.
- Memstore.Cache.BackupAccountBalance: requires a non-empty ring. What `next` and `getCurrent` do on an empty ring is not visible here.
- Memstore.Cache.UpdateBalances: requires both banks to exist. The function has no error path and always returns nil (line 178). An unknown bank is a nil dereference: at line 169 for the sender bank, after the counter was already incremented (line 158), or at line 172 for the receiver bank, after the sender bank's balance was already debited (line 169). A transfer can therefore be left half applied, which the model does not capture.
- Memstore.Cache.New: requires every account row to name a bank of the bank rows. The code dereferences nil for an unknown bank (line 136).
- Go pointers to counters are modelled as values in a map. No two banks and no two accounts ever share a counter, so no aliasing is lost.
- Bank ids are stored as given; no uniqueness of ids across banks is assumed or proved, because the code does not enforce one.
- A bank name that appears in several bank rows is appended to the ring once per row (line 125), so the drain flushes that bank's accounts more than once. `Memstore.Cache.New` states the ring exactly as built.
