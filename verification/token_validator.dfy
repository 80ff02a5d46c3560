/** The token validator of a controller and its whitelist: one entry per
    mint, created and closed by admin-role members. */
module TokenValidatorInstructions {
  import opened Errors
  import opened Constants
  import opened AccountState
  import opened AccessControl

  /** Every whitelist entry records the mint its address is derived from. */
  predicate WhitelistInv(s: State) {
    forall tk :: tk in s.whitelist ==> s.whitelist[tk].tokenMint == tk.mint
  }

  /** The role-name test the validator instructions make on the admin role
      account they were given. */
  predicate AdminRoleNamed(s: State, controller: Pubkey)
    requires RoleKey(controller, AdminRole) in s.roles
  {
    s.roles[RoleKey(controller, AdminRole)].role == AdminRole
  }

  /** `init_token_validator`: an admin-role member creates the controller's
      token validator. */
  function InitTokenValidator(s: State, controller: Pubkey, admin: Pubkey): (r: Result<State>)
    ensures r.Ok? <==>
      && AdminGate(s, controller, admin).Pass?
      && controller !in s.validators
      && AdminRoleNamed(s, controller)
    ensures r.Err? ==> r.error in {AccountNotInitialized, AccountAlreadyInUse, UnauthorizedAdmin}
    ensures AdminGate(s, controller, admin).Pass? && controller in s.validators ==> r == Err(AccountAlreadyInUse)
    ensures r.Ok? ==> r.value == s.(validators := s.validators[controller := TokenValidator(controller)])
  {
    match AdminGate(s, controller, admin)
    case Fail(e) => Err(e)
    case Pass =>
      if controller in s.validators then Err(AccountAlreadyInUse)
      else if !AdminRoleNamed(s, controller) then Err(UnauthorizedAdmin)
      else Ok(s.(validators := s.validators[controller := TokenValidator(controller)]))
  }

  /** `add_token_to_whitelist`: an admin-role member whitelists a fungible
      mint, recording its on-chain decimals and the precision the backend
      uses for it. The accounts are loaded first, the entry is created next,
      and the mint's `constraint` is checked last, so a second whitelisting
      of a non-fungible mint fails for the existing entry. */
  function AddTokenToWhitelist(s: State, controller: Pubkey, admin: Pubkey, mint: Pubkey, precision: nat): (r: Result<State>)
    ensures r.Ok? <==>
      && AdminGate(s, controller, admin).Pass?
      && controller in s.validators && mint in s.mints
      && s.mints[mint].decimals > 0
      && TokenKey(controller, mint) !in s.whitelist
      && AdminRoleNamed(s, controller)
    ensures r.Err? ==> r.error in {AccountNotInitialized, NonFungibleToken, AccountAlreadyInUse, UnauthorizedAdmin}
    ensures (AdminGate(s, controller, admin).Pass? && controller in s.validators && mint in s.mints
             && TokenKey(controller, mint) in s.whitelist) ==> r == Err(AccountAlreadyInUse)
    ensures (AdminGate(s, controller, admin).Pass? && controller in s.validators && mint in s.mints
             && TokenKey(controller, mint) !in s.whitelist && s.mints[mint].decimals == 0) ==> r == Err(NonFungibleToken)
    ensures r.Ok? ==>
      r.value == s.(whitelist := s.whitelist[TokenKey(controller, mint) := WhitelistedToken(mint, s.mints[mint].decimals, precision)])
  {
    match AdminGate(s, controller, admin)
    case Fail(e) => Err(e)
    case Pass =>
      if controller !in s.validators || mint !in s.mints then Err(AccountNotInitialized)
      else if TokenKey(controller, mint) in s.whitelist then Err(AccountAlreadyInUse)
      else if s.mints[mint].decimals == 0 then Err(NonFungibleToken)
      else if !AdminRoleNamed(s, controller) then Err(UnauthorizedAdmin)
      else Ok(s.(whitelist := s.whitelist[TokenKey(controller, mint) := WhitelistedToken(mint, s.mints[mint].decimals, precision)]))
  }

  /** `remove_token_from_whitelist`: an admin-role member closes a mint's
      whitelist entry. The entry is loaded with the other accounts, before
      the mint's `constraint` is checked. */
  function RemoveTokenFromWhitelist(s: State, controller: Pubkey, admin: Pubkey, mint: Pubkey): (r: Result<State>)
    ensures r.Ok? <==>
      && AdminGate(s, controller, admin).Pass?
      && controller in s.validators && mint in s.mints
      && s.mints[mint].decimals > 0
      && TokenKey(controller, mint) in s.whitelist
    ensures r.Err? ==> r.error in {AccountNotInitialized, NonFungibleToken}
    ensures (AdminGate(s, controller, admin).Pass? && controller in s.validators && mint in s.mints
             && TokenKey(controller, mint) in s.whitelist && s.mints[mint].decimals == 0) ==> r == Err(NonFungibleToken)
    ensures r.Ok? ==> r.value == s.(whitelist := s.whitelist - {TokenKey(controller, mint)})
  {
    match AdminGate(s, controller, admin)
    case Fail(e) => Err(e)
    case Pass =>
      if controller !in s.validators || mint !in s.mints || TokenKey(controller, mint) !in s.whitelist then
        Err(AccountNotInitialized)
      else if s.mints[mint].decimals == 0 then Err(NonFungibleToken)
      else Ok(s.(whitelist := s.whitelist - {TokenKey(controller, mint)}))
  }

  // ---- lemmas ----

  /** In a store whose role accounts carry their own names, the role-name
      test never fails: the only refusals left are missing accounts and a
      second creation. */
  lemma RoleNameTestRedundant(s: State, controller: Pubkey, admin: Pubkey, mint: Pubkey, precision: nat)
    requires RegistryInv(s)
    ensures InitTokenValidator(s, controller, admin).Err? ==>
      InitTokenValidator(s, controller, admin).error in {AccountNotInitialized, AccountAlreadyInUse}
    ensures AddTokenToWhitelist(s, controller, admin, mint, precision).Err? ==>
      AddTokenToWhitelist(s, controller, admin, mint, precision).error in {AccountNotInitialized, NonFungibleToken, AccountAlreadyInUse}
  {
  }

  /** Whitelisting keeps every entry's mint equal to the mint it is keyed by,
      and so does removal. */
  lemma WhitelistInvPreserved(s: State, controller: Pubkey, admin: Pubkey, mint: Pubkey, precision: nat)
    requires WhitelistInv(s)
    ensures AddTokenToWhitelist(s, controller, admin, mint, precision).Ok? ==>
      WhitelistInv(AddTokenToWhitelist(s, controller, admin, mint, precision).value)
    ensures RemoveTokenFromWhitelist(s, controller, admin, mint).Ok? ==>
      WhitelistInv(RemoveTokenFromWhitelist(s, controller, admin, mint).value)
  {
  }

  /** Whitelisting a mint twice fails; removing it undoes the whitelisting,
      after which it can be removed no more. */
  lemma AddThenRemove(s: State, controller: Pubkey, admin: Pubkey, mint: Pubkey, precision: nat)
    requires AddTokenToWhitelist(s, controller, admin, mint, precision).Ok?
    ensures var t := AddTokenToWhitelist(s, controller, admin, mint, precision).value;
      && AddTokenToWhitelist(t, controller, admin, mint, precision) == Err(AccountAlreadyInUse)
      && RemoveTokenFromWhitelist(t, controller, admin, mint) == Ok(s)
      && RemoveTokenFromWhitelist(s, controller, admin, mint) == Err(AccountNotInitialized)
  {
    var t := AddTokenToWhitelist(s, controller, admin, mint, precision).value;
    assert t.whitelist - {TokenKey(controller, mint)} == s.whitelist;
  }

  /** A second token validator for the same controller cannot be created. */
  lemma InitTokenValidatorTwice(s: State, controller: Pubkey, admin: Pubkey)
    requires InitTokenValidator(s, controller, admin).Ok?
    ensures InitTokenValidator(InitTokenValidator(s, controller, admin).value, controller, admin) == Err(AccountAlreadyInUse)
  {
  }
}
