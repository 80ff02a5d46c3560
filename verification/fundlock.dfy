/** The fundlock: custody of whitelisted tokens in one vault per mint, a
    free balance per client token account, and the queue of withdrawals that
    wait out the release lock before they are paid. */
module FundlockInstructions {
  import opened Errors
  import opened Constants
  import opened AccountState
  import opened WithdrawalQueue
  import opened AccessControl
  import opened TokenValidatorInstructions

  /** `init_fundlock`: an admin-role member creates the controller's fundlock
      with its two lock periods, stored as given. */
  function InitFundlock(s: State, controller: Pubkey, caller: Pubkey, tradeLock: int, releaseLock: int): (r: Result<State>)
    ensures r.Ok? <==>
      && AdminGate(s, controller, caller).Pass?
      && controller in s.validators
      && controller !in s.fundlocks
    ensures r.Err? ==> r.error in {AccountNotInitialized, AccountAlreadyInUse}
    ensures (AdminGate(s, controller, caller).Pass? && controller in s.validators && controller in s.fundlocks)
      ==> r == Err(AccountAlreadyInUse)
    ensures r.Ok? ==>
      && r.value == s.(fundlocks := r.value.fundlocks)
      && r.value.fundlocks.Keys == s.fundlocks.Keys + {controller}
      && (forall c :: c in s.fundlocks ==> r.value.fundlocks[c] == s.fundlocks[c])
      && var f := r.value.fundlocks[controller];
      && f.accessController == controller && f.tokenValidator == controller
      && f.tradeLock == tradeLock && f.releaseLock == releaseLock
  {
    match AdminGate(s, controller, caller)
    case Fail(e) => Err(e)
    case Pass =>
      if controller !in s.validators then Err(AccountNotInitialized)
      else if controller in s.fundlocks then Err(AccountAlreadyInUse)
      else Ok(s.(fundlocks := s.fundlocks[controller := Fundlock(controller, controller, tradeLock, releaseLock)]))
  }

  /** The accounts deposit, withdraw and release all read: the controller,
      its token validator and fundlock, the mint and its whitelist entry. */
  predicate TokenAccountsExist(s: State, controller: Pubkey, mint: Pubkey) {
    && controller in s.controllers && controller in s.validators && controller in s.fundlocks
    && mint in s.mints && TokenKey(controller, mint) in s.whitelist
  }

  /** The client's token account must hold the mint and belong to the
      signer. */
  predicate AtaFits(s: State, ata: Pubkey, mint: Pubkey, client: Pubkey)
    requires ata in s.tokenAccounts
  {
    s.tokenAccounts[ata].mint == mint && s.tokenAccounts[ata].owner == client
  }

  /** The account checks of `deposit_fundlock`. Every account that is not
      created on demand is loaded first (a missing one fails with
      `AccountNotInitialized`); the vault, balance and withdrawals record are
      created if needed; only then are the `constraint`s checked in
      declaration order: a fungible mint, then a token account of that mint
      owned by the signer. */
  function DepositAccounts(s: State, controller: Pubkey, client: Pubkey, mint: Pubkey, ata: Pubkey): (r: Check)
    ensures r.Pass? <==>
      && TokenAccountsExist(s, controller, mint) && ata in s.tokenAccounts
      && s.mints[mint].decimals > 0 && AtaFits(s, ata, mint, client)
    ensures !(TokenAccountsExist(s, controller, mint) && ata in s.tokenAccounts) ==> r == Fail(AccountNotInitialized)
    ensures (TokenAccountsExist(s, controller, mint) && ata in s.tokenAccounts && s.mints[mint].decimals == 0)
      ==> r == Fail(NonFungibleToken)
    ensures (TokenAccountsExist(s, controller, mint) && ata in s.tokenAccounts && s.mints[mint].decimals > 0
             && !AtaFits(s, ata, mint, client)) ==> r == Fail(ConstraintRaw)
  {
    if !TokenAccountsExist(s, controller, mint) || ata !in s.tokenAccounts then Fail(AccountNotInitialized)
    else if s.mints[mint].decimals == 0 then Fail(NonFungibleToken)
    else if !AtaFits(s, ata, mint, client) then Fail(ConstraintRaw)
    else Pass
  }

  /** Tokens the vault of a mint holds (a vault not yet created holds none). */
  function VaultOf(s: State, tk: TokenKey): nat {
    if tk in s.vaults then s.vaults[tk] else 0
  }

  /** What the fundlock owes one client token account: its free balance
      plus its pending withdrawals (records not yet created owe nothing). */
  function Owed(s: State, k: BalanceKey): nat {
    (if k in s.balances then s.balances[k].amount else 0)
    + (if k in s.withdrawals then s.withdrawals[k].activeWithdrawalsAmount else 0)
  }

  /** Only the custody records (vaults, token accounts, balances,
      withdrawals) differ between the two stores. */
  predicate SameOutsideCustody(s: State, t: State) {
    t == s.(vaults := t.vaults, tokenAccounts := t.tokenAccounts, balances := t.balances, withdrawals := t.withdrawals)
  }

  /** `deposit_fundlock`: the client moves `amount` of a whitelisted mint
      from its token account into the vault and is credited with it. The
      vault, the balance and the withdrawals record are created on first
      use. */
  function Deposit(s: State, controller: Pubkey, client: Pubkey, mint: Pubkey, ata: Pubkey, amount: nat): (r: Result<State>)
    ensures r.Err? ==> r.error in {AccountNotInitialized, NonFungibleToken, ConstraintRaw, AmountZero, TokenNotWhitelisted, TokenInsufficientFunds}
    ensures DepositAccounts(s, controller, client, mint, ata).Fail? ==> r == Err(DepositAccounts(s, controller, client, mint, ata).error)
    ensures DepositAccounts(s, controller, client, mint, ata).Pass? && amount == 0 ==> r == Err(AmountZero)
    // a deposit that passes every check is taken
    ensures (DepositAccounts(s, controller, client, mint, ata).Pass? && amount > 0
             && s.whitelist[TokenKey(controller, mint)].tokenMint == mint
             && amount <= s.tokenAccounts[ata].amount) ==> r.Ok?
    ensures r.Ok? ==>
      && DepositAccounts(s, controller, client, mint, ata).Pass?
      && amount > 0 && s.whitelist[TokenKey(controller, mint)].tokenMint == mint
      && amount <= s.tokenAccounts[ata].amount
    ensures r.Ok? ==>
      var tk := TokenKey(controller, mint);
      var k := BalanceKey(tk, ata);
      && SameOutsideCustody(s, r.value)
      && tk in r.value.vaults && ata in r.value.tokenAccounts && k in r.value.balances && k in r.value.withdrawals
      && r.value.vaults == s.vaults[tk := VaultOf(r.value, tk)]
      && r.value.tokenAccounts == s.tokenAccounts[ata := r.value.tokenAccounts[ata]]
      && r.value.balances == s.balances[k := r.value.balances[k]]
      && r.value.withdrawals == s.withdrawals[k := r.value.withdrawals[k]]
      && VaultOf(r.value, tk) == VaultOf(s, tk) + amount
      && r.value.tokenAccounts[ata] == s.tokenAccounts[ata].(amount := s.tokenAccounts[ata].amount - amount)
      && Owed(r.value, k) == Owed(s, k) + amount
      && r.value.balances[k] == ClientBalance((if k in s.balances then s.balances[k].amount else 0) + amount, mint, client, ata)
      && r.value.withdrawals[k].client == client
      && (k in s.withdrawals ==> r.value.withdrawals[k] == s.withdrawals[k].(client := client))
      && (k !in s.withdrawals ==> r.value.withdrawals[k] == Withdrawals([], 0, client))
      && (StateInv(s) ==> StateInv(r.value))
  {
    match DepositAccounts(s, controller, client, mint, ata)
    case Fail(e) => Err(e)
    case Pass =>
      var tk := TokenKey(controller, mint);
      var k := BalanceKey(tk, ata);
      if amount == 0 then Err(AmountZero)
      else if s.whitelist[tk].tokenMint != mint then Err(TokenNotWhitelisted)
      else if s.tokenAccounts[ata].amount < amount then Err(TokenInsufficientFunds)
      else
        var before := if k in s.balances then s.balances[k].amount else 0;
        var w := if k in s.withdrawals then s.withdrawals[k].(client := client) else Withdrawals([], 0, client);
        Ok(s.(vaults := s.vaults[tk := VaultOf(s, tk) + amount],
              tokenAccounts := s.tokenAccounts[ata := s.tokenAccounts[ata].(amount := s.tokenAccounts[ata].amount - amount)],
              balances := s.balances[k := ClientBalance(before + amount, mint, client, ata)],
              withdrawals := s.withdrawals[k := w]))
  }

  /** The account checks of `withdraw_fundlock` and `release_fundlock`:
      all their accounts are loaded first (a missing one fails with
      `AccountNotInitialized`), then the `constraint`s are checked in
      declaration order: a fungible mint, then a token account of that mint
      owned by the signer. */
  function ClientAccounts(s: State, controller: Pubkey, client: Pubkey, mint: Pubkey, ata: Pubkey): (r: Check)
    ensures r.Pass? <==>
      && ClientAccountsExist(s, controller, mint, ata)
      && s.mints[mint].decimals > 0 && AtaFits(s, ata, mint, client)
    ensures !ClientAccountsExist(s, controller, mint, ata) ==> r == Fail(AccountNotInitialized)
    ensures ClientAccountsExist(s, controller, mint, ata) && s.mints[mint].decimals == 0 ==> r == Fail(NonFungibleToken)
    ensures (ClientAccountsExist(s, controller, mint, ata) && s.mints[mint].decimals > 0
             && !AtaFits(s, ata, mint, client)) ==> r == Fail(ConstraintRaw)
  {
    if !ClientAccountsExist(s, controller, mint, ata) then Fail(AccountNotInitialized)
    else if s.mints[mint].decimals == 0 then Fail(NonFungibleToken)
    else if !AtaFits(s, ata, mint, client) then Fail(ConstraintRaw)
    else Pass
  }

  /** Every account withdraw and release read: the shared ones, the vault,
      the client's balance, token account and withdrawals record. */
  predicate ClientAccountsExist(s: State, controller: Pubkey, mint: Pubkey, ata: Pubkey) {
    && TokenAccountsExist(s, controller, mint)
    && TokenKey(controller, mint) in s.vaults
    && BalanceKey(TokenKey(controller, mint), ata) in s.balances
    && ata in s.tokenAccounts
    && BalanceKey(TokenKey(controller, mint), ata) in s.withdrawals
  }

  /** `withdraw_fundlock`: the client asks for `amount` of its free balance
      back; the amount leaves the balance and waits at the end of the queue,
      stamped with the current time. No tokens move. */
  function Withdraw(s: State, controller: Pubkey, client: Pubkey, mint: Pubkey, ata: Pubkey, amount: nat, now: int): (r: Result<State>)
    ensures r.Err? ==> r.error in {AccountNotInitialized, NonFungibleToken, ConstraintRaw, AmountZero, InsufficientFunds, WithdrawalLimitReached}
    ensures ClientAccounts(s, controller, client, mint, ata).Pass? ==>
      var k := BalanceKey(TokenKey(controller, mint), ata);
      && (amount == 0 ==> r == Err(AmountZero))
      && (amount > 0 && s.balances[k].amount < amount ==> r == Err(InsufficientFunds))
      && ((0 < amount <= s.balances[k].amount && |s.withdrawals[k].withdrawalQueue| >= WithdrawalLimit)
            ==> r == Err(WithdrawalLimitReached))
      && (0 < amount <= s.balances[k].amount && |s.withdrawals[k].withdrawalQueue| < WithdrawalLimit ==> r.Ok?)
    ensures r.Ok? ==>
      var k := BalanceKey(TokenKey(controller, mint), ata);
      && ClientAccounts(s, controller, client, mint, ata).Pass?
      && SameOutsideCustody(s, r.value)
      && r.value.vaults == s.vaults && r.value.tokenAccounts == s.tokenAccounts
      && k in r.value.balances && k in r.value.withdrawals
      && r.value.balances == s.balances[k := r.value.balances[k]]
      && r.value.withdrawals == s.withdrawals[k := r.value.withdrawals[k]]
      && r.value.balances[k] == ClientBalance(s.balances[k].amount - amount, mint, client, ata)
      && r.value.withdrawals[k].withdrawalQueue == s.withdrawals[k].withdrawalQueue + [WithdrawalState(amount, now)]
      && r.value.withdrawals[k].activeWithdrawalsAmount == s.withdrawals[k].activeWithdrawalsAmount + amount
      && r.value.withdrawals[k].client == client
      && Owed(r.value, k) == Owed(s, k)
      && (StateInv(s) ==> StateInv(r.value))
  {
    match ClientAccounts(s, controller, client, mint, ata)
    case Fail(e) => Err(e)
    case Pass =>
      var k := BalanceKey(TokenKey(controller, mint), ata);
      var b := s.balances[k];
      var w := s.withdrawals[k];
      if amount == 0 then Err(AmountZero)
      else if b.amount < amount then Err(InsufficientFunds)
      else if |w.withdrawalQueue| >= WithdrawalLimit then Err(WithdrawalLimitReached)
      else
        SumPush(w.withdrawalQueue, WithdrawalState(amount, now));
        Ok(s.(balances := s.balances[k := ClientBalance(b.amount - amount, mint, client, ata)],
              withdrawals := s.withdrawals[k := Withdrawals(w.withdrawalQueue + [WithdrawalState(amount, now)],
                                                            w.activeWithdrawalsAmount + amount, client)]))
  }

  /** `release_fundlock`: once an entry's release lock has passed, its amount
      is paid from the vault to the client's token account and the entry
      leaves the queue. The client balance is read but not written. */
  function Release(s: State, controller: Pubkey, client: Pubkey, mint: Pubkey, ata: Pubkey, index: nat, now: int): (r: Result<State>)
    ensures r.Err? ==> r.error in {AccountNotInitialized, NonFungibleToken, ConstraintRaw, InvalidIndex, ReleaseLockActive, InsufficientFundsInVault, Panic}
    ensures ClientAccounts(s, controller, client, mint, ata).Pass? ==>
      var k := BalanceKey(TokenKey(controller, mint), ata);
      var q := s.withdrawals[k].withdrawalQueue;
      && (index >= |q| ==> r == Err(InvalidIndex))
      && (index < |q| && q[index].timestamp + s.fundlocks[controller].releaseLock >= now ==> r == Err(ReleaseLockActive))
      && ((index < |q| && q[index].timestamp + s.fundlocks[controller].releaseLock < now
             && s.vaults[TokenKey(controller, mint)] < q[index].amount) ==> r == Err(InsufficientFundsInVault))
    // a due entry that the vault covers is paid; in a consistent store the
    // subtraction from the active total cannot underflow
    ensures ClientAccounts(s, controller, client, mint, ata).Pass? ==>
      var k := BalanceKey(TokenKey(controller, mint), ata);
      var q := s.withdrawals[k].withdrawalQueue;
      (index < |q| && q[index].timestamp + s.fundlocks[controller].releaseLock < now
       && q[index].amount <= s.vaults[TokenKey(controller, mint)]) ==> (r.Ok? || r == Err(Panic)) && (StateInv(s) ==> r.Ok?)
    ensures r.Ok? ==> ClientAccounts(s, controller, client, mint, ata).Pass?
    ensures r.Ok? && ClientAccounts(s, controller, client, mint, ata).Pass? ==>
      var tk := TokenKey(controller, mint);
      var k := BalanceKey(tk, ata);
      var q := s.withdrawals[k].withdrawalQueue;
      && index < |q|
      && q[index].timestamp + s.fundlocks[controller].releaseLock < now
      && SameOutsideCustody(s, r.value)
      && r.value.balances == s.balances
      && r.value.vaults == s.vaults[tk := s.vaults[tk] - q[index].amount]
      && r.value.tokenAccounts == s.tokenAccounts[ata := s.tokenAccounts[ata].(amount := s.tokenAccounts[ata].amount + q[index].amount)]
      && k in r.value.withdrawals
      && r.value.withdrawals == s.withdrawals[k := r.value.withdrawals[k]]
      && r.value.withdrawals[k].withdrawalQueue == RemoveAt(q, index)
      && r.value.withdrawals[k].activeWithdrawalsAmount + q[index].amount == s.withdrawals[k].activeWithdrawalsAmount
      && r.value.withdrawals[k].client == s.withdrawals[k].client
      && Owed(r.value, k) + q[index].amount == Owed(s, k)
      && (StateInv(s) ==> StateInv(r.value))
    ensures StateInv(s) ==> r != Err(Panic)
  {
    match ClientAccounts(s, controller, client, mint, ata)
    case Fail(e) => Err(e)
    case Pass =>
      var tk := TokenKey(controller, mint);
      var k := BalanceKey(tk, ata);
      var w := s.withdrawals[k];
      var q := w.withdrawalQueue;
      if index >= |q| then Err(InvalidIndex)
      else if !(q[index].timestamp + s.fundlocks[controller].releaseLock < now) then Err(ReleaseLockActive)
      else if s.vaults[tk] < q[index].amount then Err(InsufficientFundsInVault)
      else
        SumRemoveAt(q, index);
        SumSplit(q, index);
        if w.activeWithdrawalsAmount < q[index].amount then Err(Panic)
        else
          var released := q[index].amount;
          Ok(s.(vaults := s.vaults[tk := s.vaults[tk] - released],
                tokenAccounts := s.tokenAccounts[ata := s.tokenAccounts[ata].(amount := s.tokenAccounts[ata].amount + released)],
                withdrawals := s.withdrawals[k := Withdrawals(RemoveAt(q, index), w.activeWithdrawalsAmount - released, w.client)]))
  }

  // ---- lemmas ----

  /** After `init_fundlock` a second one fails, the stored locks are the
      ones given, and the shared token accounts are complete for exactly the
      whitelisted mints. */
  lemma InitFundlockThenAccounts(s: State, controller: Pubkey, caller: Pubkey, tradeLock: int, releaseLock: int,
                                 tradeLock2: int, releaseLock2: int, mint: Pubkey)
    requires InitFundlock(s, controller, caller, tradeLock, releaseLock).Ok?
    ensures var t := InitFundlock(s, controller, caller, tradeLock, releaseLock).value;
      && InitFundlock(t, controller, caller, tradeLock2, releaseLock2) == Err(AccountAlreadyInUse)
      && t.fundlocks[controller].tradeLock == tradeLock && t.fundlocks[controller].releaseLock == releaseLock
      && (TokenAccountsExist(t, controller, mint) <==> mint in s.mints && TokenKey(controller, mint) in s.whitelist)
  {
  }

  /** Custody: each of deposit, withdraw and release moves the vault by
      exactly what it moves the fundlock's debt to that client, so a vault
      that covers what it owes keeps covering it. */
  lemma CustodyTracksDebt(s: State, controller: Pubkey, client: Pubkey, mint: Pubkey, ata: Pubkey, amount: nat, index: nat, now: int)
    ensures var k := BalanceKey(TokenKey(controller, mint), ata);
      var r := Deposit(s, controller, client, mint, ata, amount);
      r.Ok? ==> VaultOf(r.value, k.vault) - Owed(r.value, k) == VaultOf(s, k.vault) - Owed(s, k)
    ensures var k := BalanceKey(TokenKey(controller, mint), ata);
      var r := Withdraw(s, controller, client, mint, ata, amount, now);
      r.Ok? ==> VaultOf(r.value, k.vault) - Owed(r.value, k) == VaultOf(s, k.vault) - Owed(s, k)
    ensures var k := BalanceKey(TokenKey(controller, mint), ata);
      var r := Release(s, controller, client, mint, ata, index, now);
      r.Ok? ==> VaultOf(r.value, k.vault) - Owed(r.value, k) == VaultOf(s, k.vault) - Owed(s, k)
  {
  }

  /** A withdrawal paid out after its release lock puts the queue and the
      active total back as they were: the amount has left the balance, the
      vault and the fundlock's debt, and arrived in the client's token
      account. */
  lemma WithdrawThenRelease(s: State, controller: Pubkey, client: Pubkey, mint: Pubkey, ata: Pubkey, amount: nat, now: int, later: int)
    requires Withdraw(s, controller, client, mint, ata, amount, now).Ok?
    requires controller in s.fundlocks && now + s.fundlocks[controller].releaseLock < later
    requires TokenKey(controller, mint) in s.vaults && amount <= s.vaults[TokenKey(controller, mint)]
    ensures var k := BalanceKey(TokenKey(controller, mint), ata);
      var t := Withdraw(s, controller, client, mint, ata, amount, now).value;
      var q := s.withdrawals[k].withdrawalQueue;
      && Release(t, controller, client, mint, ata, |q|, later).Ok?
      && var u := Release(t, controller, client, mint, ata, |q|, later).value;
      && u.withdrawals[k] == s.withdrawals[k].(client := client)
      && u.balances[k].amount + amount == s.balances[k].amount
      && u.vaults[k.vault] + amount == s.vaults[k.vault]
      && u.tokenAccounts[ata].amount == s.tokenAccounts[ata].amount + amount
      && Owed(u, k) + amount == Owed(s, k)
  {
    var k := BalanceKey(TokenKey(controller, mint), ata);
    var t := Withdraw(s, controller, client, mint, ata, amount, now).value;
    var q := s.withdrawals[k].withdrawalQueue;
    assert ClientAccounts(t, controller, client, mint, ata).Pass?;
    assert t.withdrawals[k].withdrawalQueue[|q|] == WithdrawalState(amount, now);
    assert RemoveAt(q + [WithdrawalState(amount, now)], |q|) == q;
  }

  /** Before its release lock has passed (with a lock of zero or more, right
      after the request) a withdrawal cannot be paid. */
  lemma ReleaseTooEarly(s: State, controller: Pubkey, client: Pubkey, mint: Pubkey, ata: Pubkey, amount: nat, now: int, later: int)
    requires Withdraw(s, controller, client, mint, ata, amount, now).Ok?
    requires controller in s.fundlocks && later <= now + s.fundlocks[controller].releaseLock
    ensures var q := s.withdrawals[BalanceKey(TokenKey(controller, mint), ata)].withdrawalQueue;
      Release(Withdraw(s, controller, client, mint, ata, amount, now).value, controller, client, mint, ata, |q|, later)
        == Err(ReleaseLockActive)
  {
    var k := BalanceKey(TokenKey(controller, mint), ata);
    var t := Withdraw(s, controller, client, mint, ata, amount, now).value;
    assert ClientAccounts(t, controller, client, mint, ata).Pass?;
    assert t.withdrawals[k].withdrawalQueue[|s.withdrawals[k].withdrawalQueue|] == WithdrawalState(amount, now);
  }

  /** Depositing and then asking for the same amount back leaves the free
      balance where it was and queues exactly that amount. */
  lemma DepositThenWithdraw(s: State, controller: Pubkey, client: Pubkey, mint: Pubkey, ata: Pubkey, amount: nat, now: int)
    requires Deposit(s, controller, client, mint, ata, amount).Ok?
    requires TokenKey(controller, mint) in s.vaults
    requires var k := BalanceKey(TokenKey(controller, mint), ata);
      k in s.balances && k in s.withdrawals && |s.withdrawals[k].withdrawalQueue| < WithdrawalLimit
    ensures var k := BalanceKey(TokenKey(controller, mint), ata);
      var t := Deposit(s, controller, client, mint, ata, amount).value;
      && Withdraw(t, controller, client, mint, ata, amount, now).Ok?
      && var u := Withdraw(t, controller, client, mint, ata, amount, now).value;
      && u.balances[k].amount == s.balances[k].amount
      && u.withdrawals[k].withdrawalQueue == s.withdrawals[k].withdrawalQueue + [WithdrawalState(amount, now)]
      && u.vaults[k.vault] == s.vaults[k.vault] + amount
  {
    var t := Deposit(s, controller, client, mint, ata, amount).value;
    assert ClientAccounts(t, controller, client, mint, ata).Pass?;
  }

  /** With the queue full a withdrawal is refused whatever the amount, and
      so the queue never grows past the capacity. */
  lemma WithdrawAtCapacity(s: State, controller: Pubkey, client: Pubkey, mint: Pubkey, ata: Pubkey, amount: nat, now: int)
    requires StateInv(s)
    requires BalanceKey(TokenKey(controller, mint), ata) in s.withdrawals
    requires |s.withdrawals[BalanceKey(TokenKey(controller, mint), ata)].withdrawalQueue| == WithdrawalLimit
    ensures Withdraw(s, controller, client, mint, ata, amount, now).Err?
  {
  }

  /** A mint taken off the whitelist can no longer be deposited, withdrawn
      or released. */
  lemma DelistedMintBlocked(s: State, controller: Pubkey, client: Pubkey, mint: Pubkey, ata: Pubkey, amount: nat, index: nat, now: int)
    requires TokenKey(controller, mint) !in s.whitelist
    ensures Deposit(s, controller, client, mint, ata, amount).Err?
    ensures Withdraw(s, controller, client, mint, ata, amount, now).Err?
    ensures Release(s, controller, client, mint, ata, index, now).Err?
  {
  }

  /** Removing a mint from the whitelist makes the next deposit of it fail
      for want of the whitelist entry. */
  lemma RemoveThenDepositFails(s: State, controller: Pubkey, admin: Pubkey, client: Pubkey, mint: Pubkey, ata: Pubkey, amount: nat)
    requires RemoveTokenFromWhitelist(s, controller, admin, mint).Ok?
    ensures Deposit(RemoveTokenFromWhitelist(s, controller, admin, mint).value, controller, client, mint, ata, amount)
      == Err(AccountNotInitialized)
  {
  }
}
