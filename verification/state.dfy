/** The program's account records and the global account store.

    Every program-derived account is modelled as an entry of a map whose key
    holds exactly the values its address is derived from, so "the account
    exists" is key membership and `init` on an existing key is a failure.
    Bump seeds, rent and lamports carry no behaviour here and are left out. */
module AccountState {

  /** An account address or signer key. */
  type Pubkey = int

  const U64Max: int := 0xFFFF_FFFF_FFFF_FFFF
  const I64Max: int := 0x7FFF_FFFF_FFFF_FFFF
  const I64Min: int := -0x8000_0000_0000_0000

  predicate IsU64(x: int) { 0 <= x <= U64Max }
  predicate IsI64(x: int) { I64Min <= x <= I64Max }

  // ---- access control ----

  datatype AccessController = AccessController(admin: Pubkey)

  /** A role account: its name and the number of grants recorded for it. */
  datatype Role = Role(role: string, memberCount: nat)

  datatype Member = Member(member: Pubkey)

  // ---- token validator ----

  datatype TokenValidator = TokenValidator(accessController: Pubkey)

  datatype WhitelistedToken = WhitelistedToken(tokenMint: Pubkey, tokenDecimals: nat, tokenPrecision: nat)

  // ---- fundlock ----

  /** Fundlock configuration: the lock periods, in seconds. */
  datatype Fundlock = Fundlock(accessController: Pubkey, tokenValidator: Pubkey, tradeLock: int, releaseLock: int)

  datatype ClientBalance = ClientBalance(amount: nat, token: Pubkey, client: Pubkey, clientAta: Pubkey)

  /** One pending withdrawal: its amount and the time it was requested. */
  datatype WithdrawalState = WithdrawalState(amount: nat, timestamp: int)

  datatype Withdrawals = Withdrawals(withdrawalQueue: seq<WithdrawalState>, activeWithdrawalsAmount: nat, client: Pubkey)

  // ---- ledger ----

  datatype Ledger = Ledger(
    accessController: Pubkey,
    tokenValidator: Pubkey,
    fundlock: Pubkey,
    underlyingToken: Pubkey,
    strikeToken: Pubkey,
    underlyingMultiplier: int,
    strikeMultiplier: int)

  datatype Contract = Contract(contractId: nat)

  datatype Position = Position(contractId: nat, client: Pubkey, size: nat)

  datatype PositionsParam = PositionsParam(contractId: nat, client: Pubkey, size: nat)

  /** A fund movement for one client: signed amounts of the underlying and
      strike tokens, in the ledger's precision. */
  datatype FundMovementParam = FundMovementParam(client: Pubkey, underlyingAmount: int, strikeAmount: int)

  // ---- token program ----

  datatype Mint = Mint(decimals: nat)

  datatype TokenAccount = TokenAccount(mint: Pubkey, owner: Pubkey, amount: nat)

  // ---- account addresses ----

  /** A role account is derived from its controller and its name. */
  datatype RoleKey = RoleKey(controller: Pubkey, name: string)

  /** A member account is derived from its role account and the member key. */
  datatype MemberKey = MemberKey(role: RoleKey, member: Pubkey)

  /** A whitelist entry and a fundlock vault are derived from the controller
      (through the validator or the fundlock) and the token mint. */
  datatype TokenKey = TokenKey(controller: Pubkey, mint: Pubkey)

  /** A client balance and its withdrawals record are derived from the vault
      and the client's token account. */
  datatype BalanceKey = BalanceKey(vault: TokenKey, clientAta: Pubkey)

  datatype LedgerKey = LedgerKey(controller: Pubkey, underlying: Pubkey, strike: Pubkey)

  /** Every account the core reads or writes. An access controller is
      identified by its admin key; the token validator and the fundlock of a
      controller are keyed by that controller. */
  datatype State = State(
    controllers: map<Pubkey, AccessController>,
    roles: map<RoleKey, Role>,
    members: map<MemberKey, Member>,
    validators: map<Pubkey, TokenValidator>,
    whitelist: map<TokenKey, WhitelistedToken>,
    fundlocks: map<Pubkey, Fundlock>,
    mints: map<Pubkey, Mint>,
    tokenAccounts: map<Pubkey, TokenAccount>,
    vaults: map<TokenKey, nat>,
    balances: map<BalanceKey, ClientBalance>,
    withdrawals: map<BalanceKey, Withdrawals>,
    ledgers: map<LedgerKey, Ledger>)

  /** Does `member` hold the role `name` under `controller`? */
  predicate HasRole(s: State, controller: Pubkey, name: string, member: Pubkey) {
    RoleKey(controller, name) in s.roles && MemberKey(RoleKey(controller, name), member) in s.members
  }
}
