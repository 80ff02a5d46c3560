# Ithaca fundlock and ledger — a Dafny model

This project models the on-chain core of the Ithaca Solana program (an Anchor
program). The core has four parts:

- **Access control.** One access controller per admin key. Role accounts are
  derived from the controller and a role name (`DEFAULT_ADMIN_ROLE`,
  `UTILITY_ACCOUNT_ROLE`, `LIQUIDATOR_ROLE`). Member accounts are derived from
  a role account and a member key. The instructions are `initialize`,
  `grant_role`, `renounce_role` and `check_role`.
- **Token validator.** One validator per controller, with a whitelist entry
  per fungible mint that records the mint's decimals and the precision the
  backend uses for it.
- **Fundlock.** Custody of whitelisted tokens in one vault per mint, a free
  balance per client token account, and a queue of at most five pending
  withdrawals per balance. A withdrawal leaves the free balance at once. It
  is paid out only once its release lock has passed. While it is still
  inside the trade lock, a settlement may draw on it to cover the client's
  losses.
- **Settlement.** The legacy `update_balances_fundlock` and the ledger's
  `update_fund_movements` apply signed balance changes. A credit, or a debit
  that the free balance covers, changes the balance directly. A larger debit
  empties the balance and draws the shortfall from the client's trade-locked
  withdrawals (`fund_from_withdrawal`). The ledger first flattens a batch of
  fund movements into transfers and scales them by per-token multipliers
  fixed at `init_ledger`.

The Solana account store becomes one immutable `State` value. It holds a map
per account kind, and each map is keyed by exactly the values the account's
address is derived from. "The account exists" is key membership. Creating an
account whose key is present fails with `AccountAlreadyInUse`. Reading a
missing account fails with `AccountNotInitialized`. A `constraint` without a
custom error fails with `ConstraintRaw`. As in Anchor, an instruction first
loads every account it reads, then creates the accounts marked `init` or
`init_if_needed`, and only then checks the `constraint`s, in declaration
order. So a missing account is reported before a second creation, and both
before a failed constraint. An abort of the program (out-of-bounds
index, integer underflow, a failed `expect`) is the error `Panic`.

Every instruction is a pure function from a `State` and its arguments to a
`Result<State>`. Its contract names its error cases and, on success, exactly
which records change. The clock (`Clock::get`) is the parameter `now`.
Instruction arguments and signer keys are parameters.

Modules, one per file:

| file | module | content |
|---|---|---|
| `errors.dfy` | `Errors` | error codes, `Result`, `Option`, `Check` |
| `constants.dfy` | `Constants` | role names, the withdrawal limit |
| `state.dfy` | `AccountState` | account records, address keys, `State` |
| `queue.dfy` | `WithdrawalQueue` | queue sums, trade-locked entries, the withdrawals invariant |
| `draw.dfy` | `FundFromWithdrawal` | the three scans that fund a shortfall from withdrawals |
| `settlement.dfy` | `Settlement` | settling one leg, a sequence of legs, the legacy instruction |
| `ledger.dfy` | `LedgerInstructions` | multipliers, `init_ledger`, `update_fund_movements` |
| `access_control.dfy` | `AccessControl` | controller, roles, members |
| `token_validator.dfy` | `TokenValidatorInstructions` | validator and whitelist |
| `fundlock.dfy` | `FundlockInstructions` | `init_fundlock`, deposit, withdraw, release |

Behaviour of the code that the model keeps on purpose:

- `release_fundlock` pays out and shortens the queue but never writes the
  client balance.
- `renounce_role` closes the member account but never lowers the role's
  count. So the last-member guard can be passed until the role has no
  members left (`AccessControl.RenounceCanEmptyRole`).
- The settlement scans remove a used-up entry in place. This shifts the next
  entry onto the index just visited, so the scan never looks at that entry
  (`FundFromWithdrawal.RemovalSkipsNextEntry`).
- The ledger's underlying leg decides credit or debit from `amounts[i]`, but
  applies `amounts[2i]`. When the two differ in sign, a large debit wraps the
  `u64` balance (`Settlement.MisreadCreditTestWraps`), or a credit is treated
  as a debit (`Settlement.MisreadCreditTestDebits`).
- The legacy settlement checks that an admin role account exists, but not
  that the caller is one of its members.
- A settled balance is written back as `(balance as i64 + change) as u64`.
  So a credit that takes a balance from below 2^63 to 2^63 or beyond aborts
  (`Settlement.CreditPastI64Aborts`), while a balance already at 2^63 or
  beyond is read as negative and its sum is taken modulo 2^64.
- The ledger's loop runs over the underlying slot pairs, not over the
  movements. A batch with fewer slot pairs than movements settles only the
  first movements' slots and accepts the rest without settling them
  (`LedgerInstructions.MovementsWithoutSlotsSkipped`).

The source files as they stand do not agree with each other in a few places.
The model follows the shape the program's own test suite exercises:

- The role record has no `member_count` field, but `grant_role` and
  `renounce_role` use one. The model keeps a count; `initialize` sets it to 1,
  which the test suite asserts.
- `ADMIN_ROLE` is not defined. The model uses the admin role's name.
- The whitelist handler does not store the decimals and precision that the
  entry declares and that `add_token_to_whitelist` takes as an argument. The
  model stores both.
- The withdrawals record has no `client_ata` field, but the legacy settlement
  compares one. The model compares the token account the withdrawals record
  is derived from.

## Model

| member | source | states |
|---|---|---|
| Constants.FromStrAsStr | ithaca-smart-contract-sol/programs/ithaca-smart-contract-sol/src/constants.rs:11-26 | parsing the name of any role gives that role back |
| Constants.AsStrInjective | ithaca-smart-contract-sol/programs/ithaca-smart-contract-sol/src/constants.rs:11-17 | two roles with the same name are the same role |
| Constants.IsValidRoleIffFromStr | ithaca-smart-contract-sol/programs/ithaca-smart-contract-sol/src/constants.rs:19-33 | a name passes `is_valid_role` exactly when `from_str` parses it, and then it is the parsed role's name |
| Constants.ExactlyThreeValidRoles | ithaca-smart-contract-sol/programs/ithaca-smart-contract-sol/src/constants.rs:28-33 | the valid names are exactly the three role names, and they are pairwise distinct |
| WithdrawalQueue.RemoveAt | ithaca-smart-contract-sol/programs/ithaca-smart-contract-sol/src/instructions/fundlock/release_fundlock.rs:110 | `Vec::remove`: one entry fewer, earlier entries in place, later entries shifted down by one |
| WithdrawalQueue.SumPush | ithaca-smart-contract-sol/programs/ithaca-smart-contract-sol/src/instructions/fundlock/withdraw_fundlock.rs:84-94 | queuing a withdrawal raises the queue total by its amount, as the active total is raised |
| WithdrawalQueue.SumRemoveAt | ithaca-smart-contract-sol/programs/ithaca-smart-contract-sol/src/instructions/fundlock/release_fundlock.rs:110-111 | removing an entry lowers the queue total by exactly its amount, as the active total is lowered |
| WithdrawalQueue.SumUpdate | ithaca-smart-contract-sol/programs/ithaca-smart-contract-sol/src/instructions/update_balances_fundlock.rs:139-142 | reducing an entry lowers the queue total by the reduction |
| WithdrawalQueue.SumLockedUnlocked | ithaca-smart-contract-sol/programs/ithaca-smart-contract-sol/src/instructions/update_balances_fundlock.rs:122 | the queue total is what settlements may draw (trade-locked entries) plus what they may not |
| WithdrawalQueue.UnlockedRemoveLocked | ithaca-smart-contract-sol/programs/ithaca-smart-contract-sol/src/instructions/update_balances_fundlock.rs:126-131 | removing a trade-locked entry leaves the other entries, which are past the trade lock, unchanged and in order |
| WithdrawalQueue.UnlockedUpdateLocked | ithaca-smart-contract-sol/programs/ithaca-smart-contract-sol/src/instructions/update_balances_fundlock.rs:139-142 | reducing a trade-locked entry leaves the entries past the trade lock unchanged |
| FundFromWithdrawal.Take | ithaca-smart-contract-sol/programs/ithaca-smart-contract-sol/src/instructions/update_balances_fundlock.rs:123-142 | one step draws at most what is left, either all that is left or the whole entry; queue total and active total fall by what was drawn; it cannot underflow on a balanced record |
| FundFromWithdrawal.TakeKeepsUnlocked | ithaca-smart-contract-sol/programs/ithaca-smart-contract-sol/src/instructions/update_balances_fundlock.rs:122-142 | drawing from a trade-locked entry never touches an entry past the trade lock |
| FundFromWithdrawal.DrawFrom | ithaca-smart-contract-sol/programs/ithaca-smart-contract-sol/src/instructions/update_balances_fundlock.rs:106-162 | the bounds-checked scan never aborts on a balanced record; what it draws leaves queue total and active total equally; entries past the trade lock are kept; funded means exactly the outstanding amount was drawn, short means strictly less |
| FundFromWithdrawal.DirectDrawFrom | ithaca-smart-contract-sol/programs/ithaca-smart-contract-sol/src/instructions/fund_from_withdrawal.rs:68-109 | the standalone scan: same accounting as the bounds-checked one, with success tested after every index |
| FundFromWithdrawal.DrawFundedWithinLocked | ithaca-smart-contract-sol/programs/ithaca-smart-contract-sol/src/instructions/update_balances_fundlock.rs:120-157 | a scan succeeds only if the trade-locked entries hold at least the shortfall |
| FundFromWithdrawal.DrawPastEnd | ithaca-smart-contract-sol/programs/ithaca-smart-contract-sol/src/instructions/update_balances_fundlock.rs:120-121 | `get_mut` past the end of the queue finds nothing: the scan ends short with the record unchanged |
| FundFromWithdrawal.DrawBoundIrrelevant | ithaca-smart-contract-sol/programs/ithaca-smart-contract-sol/src/instructions/ledger/update_fund_movements.rs:296-297 | the ledger's scan (bound: queue length) and the legacy scan (bound: five) give the same result on every queue within capacity |
| FundFromWithdrawal.DirectAgreesUnlessAborted | ithaca-smart-contract-sol/programs/ithaca-smart-contract-sol/src/instructions/fund_from_withdrawal.rs:71-106 | when the standalone scan does not abort and something is owed, it returns what the bounds-checked scan returns |
| FundFromWithdrawal.RemovalSkipsNextEntry | ithaca-smart-contract-sol/programs/ithaca-smart-contract-sol/src/instructions/update_balances_fundlock.rs:120-131 | two trade-locked entries of 1 cover a shortfall of 2, yet both bounds-checked scans come up short and the standalone scan aborts |
| FundFromWithdrawal.DirectZeroAmount | ithaca-smart-contract-sol/programs/ithaca-smart-contract-sol/src/instructions/fund_from_withdrawal.rs:104-108 | asked for nothing, the standalone scan succeeds on a non-empty queue whose first entry is past the trade lock, and fails on an empty queue |
| Settlement.AsU64 | ithaca-smart-contract-sol/programs/ithaca-smart-contract-sol/src/instructions/update_balances_fundlock.rs:96 | `as u64` yields a value below 2^64 that is congruent to its input modulo 2^64 and equal to it when in range |
| Settlement.AsI64 | ithaca-smart-contract-sol/programs/ithaca-smart-contract-sol/src/instructions/update_balances_fundlock.rs:96 | `as i64` on a balance yields a signed 64-bit value congruent to it modulo 2^64, the balance itself below 2^63 |
| Settlement.SettleLeg | ithaca-smart-contract-sol/programs/ithaca-smart-contract-sol/src/instructions/update_balances_fundlock.rs:78-96 | `abs()` of the most negative amount and a signed sum outside 64 bits abort, and on a balanced record nothing else does; otherwise a direct leg (credit test positive, or a debit the balance covers) sets the balance to balance + amount modulo 2^64 and leaves the withdrawals record as it was; any other leg succeeds exactly when the scan funds the shortfall, and then empties the balance and keeps the record the scan left; with a consistent credit test, balance plus pending withdrawals move by exactly the signed amount, and only an abort or an uncovered debit fails |
| Settlement.CreditPastI64Aborts | ithaca-smart-contract-sol/programs/ithaca-smart-contract-sol/src/instructions/update_balances_fundlock.rs:96 | a credit that takes a balance below 2^63 to 2^63 or beyond aborts instead of being stored |
| Settlement.SettleDebitFromWithdrawals | ithaca-smart-contract-sol/programs/ithaca-smart-contract-sol/src/instructions/update_balances_fundlock.rs:82-95 | a debit larger than the free balance succeeds only by emptying the balance and only if the trade-locked withdrawals cover the shortfall |
| Settlement.MisreadCreditTestWraps | ithaca-smart-contract-sol/programs/ithaca-smart-contract-sol/src/instructions/ledger/update_fund_movements.rs:201-221 | with the credit test read from a positive entry, a debit beyond the balance is applied and the balance wraps to balance + amount + 2^64 |
| Settlement.MisreadCreditTestDebits | ithaca-smart-contract-sol/programs/ithaca-smart-contract-sol/src/instructions/ledger/update_fund_movements.rs:201-218 | with the credit test read from a non-positive entry, a credit larger than the balance is drawn as a debit and empties the balance |
| Settlement.SettleSlot | ithaca-smart-contract-sol/programs/ithaca-smart-contract-sol/src/instructions/update_balances_fundlock.rs:53-99 | a present balance of another token or client, and then a present withdrawals record of another owner, fail with `AccountOrderViolated`; on success both accounts existed and matched, and only those two records changed; a direct leg sets the balance to balance + amount and leaves the withdrawals record untouched, and on matching accounts it fails only when its own arithmetic aborts; any other leg empties the balance; the withdrawals invariant is kept and a consistent leg conserves balance plus pending withdrawals; the other errors are a missing account (an abort) and a shortfall |
| Settlement.SettleLegs | ithaca-smart-contract-sol/programs/ithaca-smart-contract-sol/src/instructions/update_balances_fundlock.rs:53-101 | a loop over distinct accounts succeeds only if every leg was in range and matched; each leg settles its own pair as a single leg would, each consistent leg conserves its pair, and every account no leg names is unchanged |
| Settlement.SettleLegsStep | ithaca-smart-contract-sol/programs/ithaca-smart-contract-sol/src/instructions/update_balances_fundlock.rs:53-101 | one leg followed by the rest of the loop has the effect of the whole loop, because distinct legs write disjoint accounts |
| Settlement.LegacyLegs | ithaca-smart-contract-sol/programs/ithaca-smart-contract-sol/src/instructions/update_balances_fundlock.rs:53-63 | leg i pairs the i-th accounts with the i-th amount, token and token account, and aborts when the token list is shorter |
| Settlement.UpdateBalancesFundlock | ithaca-smart-contract-sol/programs/ithaca-smart-contract-sol/src/instructions/update_balances_fundlock.rs:8-104 | the length check fails with `InvalidAccountsAmount`; on success every pair matched its token and token account and moved by its amount, a credit or covered debit changed only the balance (to balance + amount) and left the withdrawals record as it was, all other records are unchanged and the withdrawals invariant holds |
| Settlement.LegacyLegsEffect | ithaca-smart-contract-sol/programs/ithaca-smart-contract-sol/src/instructions/update_balances_fundlock.rs:53-101 | a successful legacy loop read every pair in range, matched each to its token and token account, settled each by its own amount, and changed no other record |
| LedgerInstructions.Pow10FitsI64 | ithaca-smart-contract-sol/programs/ithaca-smart-contract-sol/src/instructions/ledger/init_ledger.rs:82-83 | `10_i64.pow(n)` fits in a signed 64-bit integer exactly when n is at most 18 |
| LedgerInstructions.Multiplier | ithaca-smart-contract-sol/programs/ithaca-smart-contract-sol/src/instructions/ledger/init_ledger.rs:77-83 | the multiplier exists exactly when precision ≤ decimals ≤ precision + 18, and then multiplier × 10^precision = 10^decimals; otherwise the program aborts |
| LedgerInstructions.ScenarioMultipliers | ithaca-smart-contract-sol/tests/ithaca-smart-contract-sol.ts:173-184 | wrapped SOL (9 decimals, precision 4) scales by 100000 and USDC (6 decimals, precision 3) by 1000 |
| LedgerInstructions.MarketAccounts | ithaca-smart-contract-sol/programs/ithaca-smart-contract-sol/src/instructions/ledger/init_ledger.rs:8-55 | the market's accounts pass exactly when all exist and both mints are fungible; `NonFungibleToken` is reported exactly when every account exists and a mint has no decimals |
| LedgerInstructions.InitLedger | ithaca-smart-contract-sol/programs/ithaca-smart-contract-sol/src/instructions/ledger/init_ledger.rs:8-94 | a missing account fails with `AccountNotInitialized`, an existing ledger with `AccountAlreadyInUse`, then a non-fungible mint with `NonFungibleToken`, then an admin role account of another name with `UnauthorizedAdmin`; it succeeds exactly when none of these applies and both multipliers are representable; the new ledger, the only record added, stores the controller as access controller, validator and fundlock key, the two mints, and multipliers that turn each whitelisted precision into the mint's decimals |
| LedgerInstructions.ValidateAndCountAmounts | ithaca-smart-contract-sol/programs/ithaca-smart-contract-sol/src/instructions/ledger/update_fund_movements.rs:92-107 | succeeds exactly when no movement has both legs zero, and then returns the number of nonzero legs, between one and two per movement |
| LedgerInstructions.ScaleLeg | ithaca-smart-contract-sol/programs/ithaca-smart-contract-sol/src/instructions/ledger/update_fund_movements.rs:152-157 | the scaled leg is the negated amount times the multiplier, and aborts exactly on signed 64-bit overflow |
| LedgerInstructions.MovementTransfers | ithaca-smart-contract-sol/programs/ithaca-smart-contract-sol/src/instructions/ledger/update_fund_movements.rs:148-159 | a movement yields one transfer per nonzero leg, underlying first, all for the movement's client |
| LedgerInstructions.InitializeData | ithaca-smart-contract-sol/programs/ithaca-smart-contract-sol/src/instructions/ledger/update_fund_movements.rs:136-161 | succeeds exactly when every movement's legs scale without overflow, and then lays out each movement's transfers in order, right after the nonzero legs of the movements before it; its length is the validated count and its only failure is an abort |
| LedgerInstructions.InitializeDataPaired | ithaca-smart-contract-sol/programs/ithaca-smart-contract-sol/src/instructions/ledger/update_fund_movements.rs:136-161 | when every movement has both legs, transfer 2j is movement j's underlying leg and 2j+1 its strike leg |
| LedgerInstructions.UnpairedMovementShiftsLegs | ithaca-smart-contract-sol/programs/ithaca-smart-contract-sol/src/instructions/ledger/update_fund_movements.rs:148-184 | a movement with a zero strike leg shifts the layout: the first strike slot is compared with the next client's underlying transfer |
| LedgerInstructions.LedgerLegs | ithaca-smart-contract-sol/programs/ithaca-smart-contract-sol/src/instructions/ledger/update_fund_movements.rs:174-277 | iteration i settles underlying slot i against transfer 2i (credit test from transfer i) and strike slot i against transfer 2i+1; an index past either list aborts |
| LedgerInstructions.LedgerLegsEffect | ithaca-smart-contract-sol/programs/ithaca-smart-contract-sol/src/instructions/ledger/update_fund_movements.rs:174-277 | a successful loop matched every slot to its transfer's client and token; strike slot i was settled by transfer 2i+1, underlying slot i by transfer 2i with the direct-or-draw choice taken on transfer i; strike slots and agreeing underlying slots are conserved; no record outside the visited slot pairs changed |
| LedgerInstructions.LedgerLegsFrame | ithaca-smart-contract-sol/programs/ithaca-smart-contract-sol/src/instructions/ledger/update_fund_movements.rs:174-277 | the ledger's loop writes no balance or withdrawals record outside the underlying and strike slot pairs it visits |
| LedgerInstructions.UpdateFundMovements | ithaca-smart-contract-sol/programs/ithaca-smart-contract-sol/src/instructions/ledger/update_fund_movements.rs:8-134 | a missing account, the ledger included, fails with `AccountNotInitialized` before a non-fungible mint fails with `NonFungibleToken`; an empty batch fails exactly when the batch is empty, and a movement with both legs zero with `EmptyAmountsArray`; every failure inside the loop becomes an abort; on success the caller holds the utility role, only the balances and withdrawals of the visited slot pairs changed, the invariant holds and the loop's per-slot effect holds |
| LedgerInstructions.MovementsWithoutSlotsSkipped | ithaca-smart-contract-sol/programs/ithaca-smart-contract-sol/src/instructions/ledger/update_fund_movements.rs:174-175 | a valid batch sent with no slot pairs is accepted and leaves the store unchanged |
| LedgerInstructions.PairedStrikeSettlement | ithaca-smart-contract-sol/programs/ithaca-smart-contract-sol/src/instructions/ledger/update_fund_movements.rs:229-276 | for a batch of two-legged movements, strike slot i is movement i's client's strike balance and moves by minus its strike amount times the strike multiplier |
| AccessControl.AdminGate | ithaca-smart-contract-sol/programs/ithaca-smart-contract-sol/src/instructions/init_token_validator.rs:10-25 | the admin accounts pass exactly when the controller exists and the caller holds the admin role |
| AccessControl.InitAccessController | ithaca-smart-contract-sol/programs/ithaca-smart-contract-sol/src/instructions/init_access_controller.rs:11-57 | succeeds exactly when none of the three accounts exists, and then adds the controller, the admin role with one grant and the signer's membership |
| AccessControl.GrantRole | ithaca-smart-contract-sol/programs/ithaca-smart-contract-sol/src/instructions/grant_role.rs:16-54 | succeeds exactly for the controller's admin granting a valid role to a non-member; then adds the member, creates the role if needed and raises its count by one; each refusal has its own error |
| AccessControl.RenounceRole | ithaca-smart-contract-sol/programs/ithaca-smart-contract-sol/src/instructions/access_control/renounce_role.rs:8-36 | succeeds exactly when the admin signs, the member holds the role and the count is not one; then closes only the member account |
| AccessControl.CheckRole | ithaca-smart-contract-sol/programs/ithaca-smart-contract-sol/src/instructions/check_role.rs:10-39 | succeeds, changing nothing, exactly when the member holds the role |
| AccessControl.InitAccessControllerKeepsInv | ithaca-smart-contract-sol/programs/ithaca-smart-contract-sol/src/instructions/init_access_controller.rs:43-57 | initialisation keeps the registry invariant: controllers store their admin, roles their name, a count of at least one that bounds their members |
| AccessControl.GrantRoleKeepsInv | ithaca-smart-contract-sol/programs/ithaca-smart-contract-sol/src/instructions/grant_role.rs:46-54 | a grant keeps the registry invariant |
| AccessControl.AddMemberKeepsRoles | ithaca-smart-contract-sol/programs/ithaca-smart-contract-sol/src/instructions/grant_role.rs:46-54 | after enrolling a new member and adding one to its role's count (creating the role with count one if absent), every role's count still bounds the number of its members |
| AccessControl.RenounceRoleKeepsInv | ithaca-smart-contract-sol/programs/ithaca-smart-contract-sol/src/instructions/access_control/renounce_role.rs:22-36 | a renounce keeps the registry invariant |
| AccessControl.InitThenCheckAndReinit | ithaca-smart-contract-sol/programs/ithaca-smart-contract-sol/src/instructions/init_access_controller.rs:11-57 | after initialisation the signer holds the admin role and passes the admin gate, and a second initialisation fails |
| AccessControl.GrantThenCheckAndRegrant | ithaca-smart-contract-sol/programs/ithaca-smart-contract-sol/src/instructions/grant_role.rs:24-54 | after a grant the member holds the role, and the same grant again fails with `AccountAlreadyInUse` |
| AccessControl.RenounceThenCheck | ithaca-smart-contract-sol/programs/ithaca-smart-contract-sol/src/instructions/access_control/renounce_role.rs:22-36 | after a renounce the member no longer holds the role, a second renounce fails, and every other membership is unchanged |
| AccessControl.GrantThenRenounce | ithaca-smart-contract-sol/programs/ithaca-smart-contract-sol/src/instructions/grant_role.rs:46-54 | granting and renouncing the same member restores the memberships but leaves the role's count one higher |
| AccessControl.RenounceCanEmptyRole | ithaca-smart-contract-sol/programs/ithaca-smart-contract-sol/src/instructions/access_control/renounce_role.rs:34-36 | two grants then two renounces all succeed and leave the role with no members and a count of two |
| TokenValidatorInstructions.InitTokenValidator | ithaca-smart-contract-sol/programs/ithaca-smart-contract-sol/src/instructions/init_token_validator.rs:10-47 | succeeds exactly for an admin-role member when no validator exists and the role account carries the admin name; then adds only the validator |
| TokenValidatorInstructions.AddTokenToWhitelist | ithaca-smart-contract-sol/programs/ithaca-smart-contract-sol/src/instructions/add_token_to_whitelist.rs:11-58 | succeeds exactly for an admin on an existing validator and a new fungible mint; an existing entry fails with `AccountAlreadyInUse` before the mint's decimals are checked, and a new zero-decimal mint fails with `NonFungibleToken`; on success only the entry is added, recording mint, decimals and precision |
| TokenValidatorInstructions.RemoveTokenFromWhitelist | ithaca-smart-contract-sol/programs/ithaca-smart-contract-sol/src/instructions/token_validator/remove_token_from_whitelist.rs:11-53 | succeeds exactly for an admin on a whitelisted fungible mint, and then deletes only that entry; a missing entry fails with `AccountNotInitialized` before the decimals are checked |
| TokenValidatorInstructions.RoleNameTestRedundant | ithaca-smart-contract-sol/programs/ithaca-smart-contract-sol/src/instructions/add_token_to_whitelist.rs:51-54 | in a store that keeps the registry invariant, the role-name test never fails |
| TokenValidatorInstructions.WhitelistInvPreserved | ithaca-smart-contract-sol/programs/ithaca-smart-contract-sol/src/instructions/add_token_to_whitelist.rs:36-58 | whitelisting and removal keep every entry's mint equal to the mint its address is derived from |
| TokenValidatorInstructions.AddThenRemove | ithaca-smart-contract-sol/programs/ithaca-smart-contract-sol/src/instructions/token_validator/remove_token_from_whitelist.rs:36-43 | after whitelisting, a second add fails, and removal restores the previous store exactly; removal without an entry fails |
| TokenValidatorInstructions.InitTokenValidatorTwice | ithaca-smart-contract-sol/programs/ithaca-smart-contract-sol/src/instructions/init_token_validator.rs:26-33 | a second validator for the same controller fails with `AccountAlreadyInUse` |
| FundlockInstructions.InitFundlock | ithaca-smart-contract-sol/programs/ithaca-smart-contract-sol/src/instructions/fundlock/init_fundlock.rs:10-57 | succeeds exactly for an admin with a validator and no fundlock yet; only the new fundlock is added, with the lock periods as given |
| FundlockInstructions.InitFundlockThenAccounts | ithaca-smart-contract-sol/programs/ithaca-smart-contract-sol/src/instructions/fundlock/init_fundlock.rs:26-57 | after `init_fundlock` a second one fails, the stored locks are the given ones, and the shared token accounts exist for exactly the whitelisted mints |
| FundlockInstructions.DepositAccounts | ithaca-smart-contract-sol/programs/ithaca-smart-contract-sol/src/instructions/fundlock/deposit_fundlock.rs:10-70 | a missing controller, validator, fundlock, mint, whitelist entry or token account fails with `AccountNotInitialized`; then a zero-decimal mint fails with `NonFungibleToken`; then a token account of another mint or owner fails with `ConstraintRaw`; otherwise the accounts pass |
| FundlockInstructions.Deposit | ithaca-smart-contract-sol/programs/ithaca-smart-contract-sol/src/instructions/fundlock/deposit_fundlock.rs:10-98 | a failing account check is reported as is, and a zero amount is refused; a deposit that passes the checks and is covered by the token account is always taken; on success the vault gains the amount, the token account loses it, the client is owed exactly the amount more, records are created on first use, and nothing else changes |
| FundlockInstructions.ClientAccounts | ithaca-smart-contract-sol/programs/ithaca-smart-contract-sol/src/instructions/fundlock/release_fundlock.rs:8-63 | a missing account (including vault, balance, token account and withdrawals record) fails with `AccountNotInitialized`; then a zero-decimal mint fails with `NonFungibleToken`; then a token account of another mint or owner fails with `ConstraintRaw`; otherwise the accounts pass |
| FundlockInstructions.Withdraw | ithaca-smart-contract-sol/programs/ithaca-smart-contract-sol/src/instructions/fundlock/withdraw_fundlock.rs:68-95 | each refusal (zero amount, too little balance, full queue) exactly when its condition holds and the earlier ones do not; on success the amount moves from the balance to the end of the queue stamped `now`, what is owed is unchanged and no tokens move |
| FundlockInstructions.Release | ithaca-smart-contract-sol/programs/ithaca-smart-contract-sol/src/instructions/fundlock/release_fundlock.rs:66-111 | bad index, active release lock and an empty vault each fail with their error; a due entry that the vault covers is paid whenever the store keeps the invariant; on success the entry's amount moves from vault to token account, the entry leaves the queue, the client balance is untouched, and a store keeping the invariant never aborts |
| FundlockInstructions.CustodyTracksDebt | ithaca-smart-contract-sol/programs/ithaca-smart-contract-sol/src/instructions/fundlock/deposit_fundlock.rs:80-98 | deposit, withdraw and release each move the vault by exactly what they move the debt to the client |
| FundlockInstructions.WithdrawThenRelease | ithaca-smart-contract-sol/programs/ithaca-smart-contract-sol/src/instructions/fundlock/release_fundlock.rs:66-111 | a withdrawal released after its lock restores the queue, pays the amount to the token account and reduces the debt by it |
| FundlockInstructions.ReleaseTooEarly | ithaca-smart-contract-sol/programs/ithaca-smart-contract-sol/src/instructions/fundlock/release_fundlock.rs:71-76 | before its release lock has passed, a new withdrawal cannot be paid |
| FundlockInstructions.DepositThenWithdraw | ithaca-smart-contract-sol/programs/ithaca-smart-contract-sol/src/instructions/fundlock/withdraw_fundlock.rs:68-95 | depositing and withdrawing the same amount leaves the free balance as it was, queues the amount and keeps it in the vault |
| FundlockInstructions.WithdrawAtCapacity | ithaca-smart-contract-sol/programs/ithaca-smart-contract-sol/src/instructions/fundlock/withdraw_fundlock.rs:74-77 | with five pending withdrawals, a further withdrawal is refused |
| FundlockInstructions.DelistedMintBlocked | ithaca-smart-contract-sol/programs/ithaca-smart-contract-sol/src/instructions/fundlock/deposit_fundlock.rs:32-36 | without a whitelist entry, deposit, withdraw and release all fail |
| FundlockInstructions.RemoveThenDepositFails | ithaca-smart-contract-sol/programs/ithaca-smart-contract-sol/src/instructions/token_validator/remove_token_from_whitelist.rs:36-43 | after a mint leaves the whitelist, the next deposit of it fails |

## Left out

- Kamino lending deposit (`deposit_kamino`): a cross-program call into an external protocol whose code is not part of this model.
- `balance_sheet_fundlock`: it only logs balances.
- Log messages (`msg!`) and the `backend_id` argument, which is only logged.
- Program-address derivation, bump seeds, rent, lamports and account space. Each account kind has one key built from the values it is derived from. So the differing seeds of some instructions are not modelled: `init_access_controller`'s role and member seeds, and the validator seed of `init_token_validator`, `init_ledger` and `update_balances_fundlock`, which derive it from the role account rather than the controller.
- The instruction dispatcher in `lib.rs`. It has no entry for `update_fund_movements`, so that instruction cannot be called as the program stands; it is modelled from its account struct and handler, and the way its remaining accounts are paired into slots and its abort on a doubly named account are this model's reading.
- The pairing of remaining accounts into balance and withdrawals accounts, which `lib.rs` does for `update_balances_fundlock`. An odd account count aborts there. Here the pairs come in as `SettlementSlot`s, and a list that names the same account twice is an abort, because the account cannot be borrowed mutably twice.
- The SPL token program. A transfer is an integer move between the vault and the client's token account, and a failing transfer in a deposit is `TokenInsufficientFunds`.
- Account ownership and discriminator checks. A record in a map is assumed to be of its kind.
- `Contract`, `Position` and `PositionsParam`: declared as data; no instruction of the core reads or writes them.
- The standalone `fund_from_withdrawal` instruction's account list is not modelled; its scan is (`FundFromWithdrawal.DirectDrawFrom`).
- The `NoRole` error of `check_role`: its empty-data test cannot fail on an account that exists, so it is never returned.
- Integer widths:
  - `u8` decimals and precision, and `u64` amounts, are unbounded naturals.
  - The only wrap-arounds modelled are the `as i64` and `as u64` of a settled balance (`Settlement.AsI64`, `Settlement.AsU64`).
  - The only underflow and overflow aborts modelled are in `init_ledger` (a `u8` subtraction and `10_i64.pow`), the active-total subtractions in the scans and in `release_fundlock`, `-x * multiplier` in the ledger, and, in a settled balance, `abs()` of the amount and the signed sum `balance as i64 + change`.
  - `u64` addition overflow of a deposit, a queued withdrawal or a vault is not modelled. Nor is `i64` overflow of `timestamp + lock`.
- Settlement.SettleLeg: conservation is stated only when the new balance stays below 2^64. A balance already at 2^63 or beyond is read as negative, so its sum does not abort but wraps modulo 2^64.
- LedgerInstructions.LedgerLegsEffect: an underlying slot is stated to be conserved only when the credit test read from transfer i agrees in sign with transfer 2i. Otherwise only its balance-level outcome is stated, and it is the one described by `Settlement.MisreadCreditTestWraps` and `Settlement.MisreadCreditTestDebits`.
