/** The ledger of one underlying/strike market: creating it with its
    precision multipliers, and settling a batch of client fund movements
    against the fundlock balances (`update_fund_movements`). */
module LedgerInstructions {
  import opened Errors
  import opened Constants
  import opened AccountState
  import opened WithdrawalQueue
  import opened Settlement

  function Pow10(n: nat): (r: nat)
    ensures r >= 1
  {
    if n == 0 then 1 else 10 * Pow10(n - 1)
  }

  lemma {:induction false} Pow10Add(a: nat, b: nat)
    ensures Pow10(a + b) == Pow10(a) * Pow10(b)
    decreases a
  {
    if a > 0 {
      Pow10Add(a - 1, b);
      assert Pow10(a + b) == 10 * Pow10(a - 1 + b);
    }
  }

  lemma {:induction false} Pow10Monotone(a: nat, b: nat)
    requires a <= b
    ensures Pow10(a) <= Pow10(b)
    decreases b
  {
    if a < b {
      Pow10Monotone(a, b - 1);
    }
  }

  /** `10_i64.pow(n)` fits in a signed 64-bit integer exactly up to n = 18. */
  lemma Pow10FitsI64(n: nat)
    ensures IsI64(Pow10(n)) <==> n <= 18
  {
    assert Pow10(18) == 1_000_000_000_000_000_000 by {
      assert Pow10(2) == 100;
      assert Pow10(4) == 10_000 by { Pow10Add(2, 2); }
      assert Pow10(8) == 100_000_000 by { Pow10Add(4, 4); }
      assert Pow10(16) == 10_000_000_000_000_000 by { Pow10Add(8, 8); }
      Pow10Add(16, 2);
    }
    if n <= 18 {
      Pow10Monotone(n, 18);
    } else {
      Pow10Monotone(19, n);
    }
  }

  /** The factor that turns an amount in the ledger's precision into base
      units of a token: 10^(decimals - precision). The `u8` subtraction
      aborts when the precision exceeds the decimals, and `10_i64.pow`
      aborts once the power leaves the signed 64-bit range. */
  function Multiplier(decimals: nat, precision: nat): (r: Result<int>)
    ensures r.Ok? <==> precision <= decimals <= precision + 18
    ensures r.Ok? ==> IsI64(r.value) && r.value * Pow10(precision) == Pow10(decimals)
    ensures r.Err? ==> r.error == Panic
  {
    if precision > decimals then Err(Panic)
    else
      var diff: nat := decimals - precision;
      Pow10FitsI64(diff);
      Pow10Add(diff, precision);
      if !IsI64(Pow10(diff)) then Err(Panic) else Ok(Pow10(diff))
  }

  /** The two markets of the repository's own scenario: wrapped SOL (9
      decimals, precision 4) as underlying and USDC (6 decimals, precision 3)
      as strike. */
  lemma ScenarioMultipliers()
    ensures Multiplier(9, 4) == Ok(100_000)
    ensures Multiplier(6, 3) == Ok(1_000)
  {
    assert Pow10(3) == 1_000;
    assert Pow10(5) == 100_000;
  }

  /** Accounts `init_ledger` and `update_fund_movements` both read: the
      access controller, a role account with its member, the token
      validator, the fundlock, both mints (with decimals) and both
      whitelist entries. */
  predicate MarketAccountsExist(s: State, controller: Pubkey, roleName: string, caller: Pubkey, underlying: Pubkey, strike: Pubkey) {
    && controller in s.controllers && HasRole(s, controller, roleName, caller)
    && controller in s.validators && controller in s.fundlocks
    && underlying in s.mints && strike in s.mints
    && TokenKey(controller, underlying) in s.whitelist && TokenKey(controller, strike) in s.whitelist
  }

  /** The `constraint`s on the two mints: both must be fungible. */
  predicate MintsFungible(s: State, underlying: Pubkey, strike: Pubkey)
    requires underlying in s.mints && strike in s.mints
  {
    s.mints[underlying].decimals > 0 && s.mints[strike].decimals > 0
  }

  /** Loading the market accounts: every account is read before any
      `constraint` is checked, so a missing account wins over a
      non-fungible mint. */
  function MarketAccounts(s: State, controller: Pubkey, roleName: string, caller: Pubkey, underlying: Pubkey, strike: Pubkey): (r: Check)
    ensures r.Pass? <==>
      && HasRole(s, controller, roleName, caller) && controller in s.controllers
      && controller in s.validators && controller in s.fundlocks
      && underlying in s.mints && strike in s.mints
      && TokenKey(controller, underlying) in s.whitelist && TokenKey(controller, strike) in s.whitelist
      && s.mints[underlying].decimals > 0 && s.mints[strike].decimals > 0
    ensures r.Fail? ==> r.error == AccountNotInitialized || r.error == NonFungibleToken
    ensures r == Fail(NonFungibleToken) <==>
      MarketAccountsExist(s, controller, roleName, caller, underlying, strike) && !MintsFungible(s, underlying, strike)
  {
    if !MarketAccountsExist(s, controller, roleName, caller, underlying, strike) then Fail(AccountNotInitialized)
    else if !MintsFungible(s, underlying, strike) then Fail(NonFungibleToken)
    else Pass
  }

  /** `init_ledger`: an admin-role member creates the ledger of a market and
      fixes its two multipliers from each token's decimals and whitelisted
      precision. */
  function InitLedger(s: State, controller: Pubkey, admin: Pubkey, underlying: Pubkey, strike: Pubkey): (r: Result<State>)
    ensures r.Ok? ==>
      && HasRole(s, controller, AdminRole, admin)
      && LedgerKey(controller, underlying, strike) !in s.ledgers
      && r.value == s.(ledgers := r.value.ledgers)
      && r.value.ledgers.Keys == s.ledgers.Keys + {LedgerKey(controller, underlying, strike)}
      && (forall k :: k in s.ledgers ==> r.value.ledgers[k] == s.ledgers[k])
    ensures r.Ok? ==>
      && MarketAccounts(s, controller, AdminRole, admin, underlying, strike).Pass?
      && underlying in s.mints && strike in s.mints
      && TokenKey(controller, underlying) in s.whitelist && TokenKey(controller, strike) in s.whitelist
      && var l := r.value.ledgers[LedgerKey(controller, underlying, strike)];
      && l.underlyingToken == underlying && l.strikeToken == strike
      && l.underlyingMultiplier * Pow10(s.whitelist[TokenKey(controller, underlying)].tokenPrecision)
           == Pow10(s.mints[underlying].decimals)
      && l.strikeMultiplier * Pow10(s.whitelist[TokenKey(controller, strike)].tokenPrecision)
           == Pow10(s.mints[strike].decimals)
    // accounts are loaded first, then the ledger is created, then the
    // constraints on the mints are checked
    ensures !MarketAccountsExist(s, controller, AdminRole, admin, underlying, strike) ==> r == Err(AccountNotInitialized)
    ensures (MarketAccountsExist(s, controller, AdminRole, admin, underlying, strike)
             && LedgerKey(controller, underlying, strike) in s.ledgers) ==> r == Err(AccountAlreadyInUse)
    ensures (MarketAccountsExist(s, controller, AdminRole, admin, underlying, strike)
             && LedgerKey(controller, underlying, strike) !in s.ledgers
             && !MintsFungible(s, underlying, strike)) ==> r == Err(NonFungibleToken)
    ensures (MarketAccounts(s, controller, AdminRole, admin, underlying, strike).Pass?
             && LedgerKey(controller, underlying, strike) !in s.ledgers
             && s.roles[RoleKey(controller, AdminRole)].role != AdminRole) ==> r == Err(UnauthorizedAdmin)
    ensures r.Err? ==> r.error in {AccountNotInitialized, AccountAlreadyInUse, NonFungibleToken, UnauthorizedAdmin, Panic}
    // a new market with a correctly named admin role and representable
    // multipliers is always created
    ensures r.Ok? <==>
      && MarketAccounts(s, controller, AdminRole, admin, underlying, strike).Pass?
      && LedgerKey(controller, underlying, strike) !in s.ledgers
      && s.roles[RoleKey(controller, AdminRole)].role == AdminRole
      && Multiplier(s.mints[underlying].decimals, s.whitelist[TokenKey(controller, underlying)].tokenPrecision).Ok?
      && Multiplier(s.mints[strike].decimals, s.whitelist[TokenKey(controller, strike)].tokenPrecision).Ok?
    // the new ledger records the controller, its validator and its fundlock,
    // each keyed by the controller
    ensures r.Ok? ==>
      var l := r.value.ledgers[LedgerKey(controller, underlying, strike)];
      l.accessController == controller && l.tokenValidator == controller && l.fundlock == controller
  {
    if !MarketAccountsExist(s, controller, AdminRole, admin, underlying, strike) then Err(AccountNotInitialized)
    else if LedgerKey(controller, underlying, strike) in s.ledgers then Err(AccountAlreadyInUse)
    else if !MintsFungible(s, underlying, strike) then Err(NonFungibleToken)
    else if s.roles[RoleKey(controller, AdminRole)].role != AdminRole then Err(UnauthorizedAdmin)
    else
      var strikeMultiplier := Multiplier(s.mints[strike].decimals, s.whitelist[TokenKey(controller, strike)].tokenPrecision);
      var underlyingMultiplier := Multiplier(s.mints[underlying].decimals, s.whitelist[TokenKey(controller, underlying)].tokenPrecision);
      if strikeMultiplier.Err? || underlyingMultiplier.Err? then Err(Panic)
      else
        var l := Ledger(controller, controller, controller, underlying, strike, underlyingMultiplier.value, strikeMultiplier.value);
        Ok(s.(ledgers := s.ledgers[LedgerKey(controller, underlying, strike) := l]))
  }

  // ---- fund movements ----

  predicate HasNonzeroLeg(m: FundMovementParam) {
    m.underlyingAmount != 0 || m.strikeAmount != 0
  }

  function LegCount(m: FundMovementParam): nat {
    (if m.underlyingAmount != 0 then 1 else 0) + (if m.strikeAmount != 0 then 1 else 0)
  }

  /** The number of nonzero legs of a batch. */
  function LegTotal(ms: seq<FundMovementParam>): nat {
    if |ms| == 0 then 0 else LegCount(ms[0]) + LegTotal(ms[1..])
  }

  /** Reject a movement with both legs zero; otherwise count the nonzero legs. */
  function ValidateAndCountAmounts(ms: seq<FundMovementParam>): (r: Result<nat>)
    ensures r.Ok? <==> forall j :: 0 <= j < |ms| ==> HasNonzeroLeg(ms[j])
    ensures r.Err? ==> r.error == EmptyAmountsArray
    ensures r.Ok? ==> r.value == LegTotal(ms) && |ms| <= r.value <= 2 * |ms|
  {
    if |ms| == 0 then Ok(0)
    else if !HasNonzeroLeg(ms[0]) then Err(EmptyAmountsArray)
    else
      match ValidateAndCountAmounts(ms[1..])
      case Err(e) => Err(e)
      case Ok(n) =>
        assert forall j :: 1 <= j < |ms| ==> ms[1..][j - 1] == ms[j];
        Ok(LegCount(ms[0]) + n)
  }

  /** One transfer of the flattened batch. */
  datatype Transfer = Transfer(client: Pubkey, token: Pubkey, amount: int)

  /** A movement leg in base units, with the ledger's sign convention (a
      positive movement is a debit). `-x * multiplier` aborts on signed
      64-bit overflow. */
  function ScaleLeg(x: int, multiplier: int): (r: Result<int>)
    ensures r.Ok? ==> r.value == -x * multiplier && IsI64(r.value)
    ensures IsI64(-x) && IsI64(-x * multiplier) ==> r.Ok?
  {
    if !IsI64(-x) || !IsI64(-x * multiplier) then Err(Panic) else Ok(-x * multiplier)
  }

  /** The transfers of one movement: the underlying leg, then the strike
      leg, each only when nonzero. */
  function MovementTransfers(m: FundMovementParam, l: Ledger): (r: Result<seq<Transfer>>)
    ensures r.Ok? ==> |r.value| == LegCount(m)
    ensures r.Ok? && m.underlyingAmount != 0 && m.strikeAmount != 0 ==>
      r.value == [Transfer(m.client, l.underlyingToken, -m.underlyingAmount * l.underlyingMultiplier),
                  Transfer(m.client, l.strikeToken, -m.strikeAmount * l.strikeMultiplier)]
    ensures r.Ok? ==> forall t :: t in r.value ==> t.client == m.client
  {
    var u := if m.underlyingAmount != 0 then ScaleLeg(m.underlyingAmount, l.underlyingMultiplier) else Ok(0);
    var st := if m.strikeAmount != 0 then ScaleLeg(m.strikeAmount, l.strikeMultiplier) else Ok(0);
    if u.Err? || st.Err? then Err(Panic)
    else
      Ok((if m.underlyingAmount != 0 then [Transfer(m.client, l.underlyingToken, u.value)] else [])
         + (if m.strikeAmount != 0 then [Transfer(m.client, l.strikeToken, st.value)] else []))
  }

  /** `ts` lays out the transfers of the movements one after the other:
      those of movement j start after the nonzero legs of the movements
      before it. */
  predicate Flattened(ms: seq<FundMovementParam>, l: Ledger, ts: seq<Transfer>) {
    && |ts| == LegTotal(ms)
    && forall j :: 0 <= j < |ms| ==>
         && MovementTransfers(ms[j], l).Ok?
         && LegTotal(ms[..j]) + LegCount(ms[j]) <= |ts|
         && ts[LegTotal(ms[..j])..LegTotal(ms[..j]) + LegCount(ms[j])] == MovementTransfers(ms[j], l).value
  }

  /** Flatten a batch of movements into transfers, in movement order. */
  function InitializeData(ms: seq<FundMovementParam>, l: Ledger): (r: Result<seq<Transfer>>)
    ensures r.Err? ==> r.error == Panic
    ensures r.Ok? <==> forall j :: 0 <= j < |ms| ==> MovementTransfers(ms[j], l).Ok?
    ensures r.Ok? ==> Flattened(ms, l, r.value)
    ensures r.Ok? && ValidateAndCountAmounts(ms).Ok? ==> |r.value| == ValidateAndCountAmounts(ms).value
    decreases |ms|
  {
    if |ms| == 0 then Ok([])
    else
      assert forall j :: 1 <= j < |ms| ==> ms[1..][j - 1] == ms[j];
      match MovementTransfers(ms[0], l)
      case Err(e) => Err(e)
      case Ok(head) =>
        match InitializeData(ms[1..], l)
        case Err(e) => Err(e)
        case Ok(tail) =>
          FlattenedCons(ms, l, head, tail);
          Ok(head + tail)
  }

  /** The first movement's transfers followed by the layout of the rest is
      the layout of the whole batch. */
  lemma FlattenedCons(ms: seq<FundMovementParam>, l: Ledger, head: seq<Transfer>, tail: seq<Transfer>)
    requires |ms| > 0 && MovementTransfers(ms[0], l) == Ok(head)
    requires Flattened(ms[1..], l, tail)
    ensures Flattened(ms, l, head + tail)
  {
    var ts := head + tail;
    assert ms[..0] == [];
    assert ts[0..LegCount(ms[0])] == head;
    forall j | 1 <= j < |ms|
      ensures MovementTransfers(ms[j], l).Ok?
      ensures LegTotal(ms[..j]) + LegCount(ms[j]) <= |ts|
      ensures ts[LegTotal(ms[..j])..LegTotal(ms[..j]) + LegCount(ms[j])] == MovementTransfers(ms[j], l).value
    {
      FlattenedConsAt(ms, l, head, tail, j);
    }
  }

  /** Movement j > 0 sits in the tail, shifted by the first movement's
      transfers. */
  lemma FlattenedConsAt(ms: seq<FundMovementParam>, l: Ledger, head: seq<Transfer>, tail: seq<Transfer>, j: nat)
    requires 1 <= j < |ms| && |head| == LegCount(ms[0])
    requires Flattened(ms[1..], l, tail)
    ensures MovementTransfers(ms[j], l).Ok?
    ensures LegTotal(ms[..j]) + LegCount(ms[j]) <= |head + tail|
    ensures (head + tail)[LegTotal(ms[..j])..LegTotal(ms[..j]) + LegCount(ms[j])] == MovementTransfers(ms[j], l).value
  {
    var rest := ms[1..];
    var n := |head|;
    assert rest[j - 1] == ms[j];
    assert ms[..j][1..] == rest[..j - 1];
    var a := LegTotal(rest[..j - 1]);
    assert LegTotal(ms[..j]) == n + a;
    var c := LegCount(ms[j]);
    assert a + c <= |tail| && tail[a..a + c] == MovementTransfers(rest[j - 1], l).value;
    SliceAfterPrefix(head, tail, a, a + c);
  }

  lemma SliceAfterPrefix<T>(head: seq<T>, tail: seq<T>, a: nat, b: nat)
    requires a <= b <= |tail|
    ensures (head + tail)[|head| + a..|head| + b] == tail[a..b]
  {
  }

  /** Every movement moves both tokens. */
  predicate Paired(ms: seq<FundMovementParam>) {
    forall j :: 0 <= j < |ms| ==> ms[j].underlyingAmount != 0 && ms[j].strikeAmount != 0
  }

  /** When every movement has both legs, transfer 2j is movement j's
      underlying leg and transfer 2j+1 its strike leg, which is the layout
      the settlement loop assumes. */
  lemma InitializeDataPaired(ms: seq<FundMovementParam>, l: Ledger)
    requires Paired(ms) && InitializeData(ms, l).Ok?
    ensures var ts := InitializeData(ms, l).value;
      && |ts| == 2 * |ms|
      && forall j :: 0 <= j < |ms| ==>
           && ts[2 * j] == Transfer(ms[j].client, l.underlyingToken, -ms[j].underlyingAmount * l.underlyingMultiplier)
           && ts[2 * j + 1] == Transfer(ms[j].client, l.strikeToken, -ms[j].strikeAmount * l.strikeMultiplier)
  {
    var ts := InitializeData(ms, l).value;
    LegTotalPaired(ms);
    forall j | 0 <= j < |ms|
      ensures ts[2 * j] == Transfer(ms[j].client, l.underlyingToken, -ms[j].underlyingAmount * l.underlyingMultiplier)
      ensures ts[2 * j + 1] == Transfer(ms[j].client, l.strikeToken, -ms[j].strikeAmount * l.strikeMultiplier)
    {
      PairedAt(ms, l, ts, j);
    }
  }

  /** In a paired batch, movement j's transfers sit at 2j and 2j+1. */
  lemma PairedAt(ms: seq<FundMovementParam>, l: Ledger, ts: seq<Transfer>, j: nat)
    requires Paired(ms) && Flattened(ms, l, ts) && j < |ms|
    ensures 2 * j + 1 < |ts|
    ensures ts[2 * j] == Transfer(ms[j].client, l.underlyingToken, -ms[j].underlyingAmount * l.underlyingMultiplier)
    ensures ts[2 * j + 1] == Transfer(ms[j].client, l.strikeToken, -ms[j].strikeAmount * l.strikeMultiplier)
  {
    assert Paired(ms[..j]) by {
      forall k | 0 <= k < j ensures ms[..j][k].underlyingAmount != 0 && ms[..j][k].strikeAmount != 0 {
        assert ms[..j][k] == ms[k];
      }
    }
    LegTotalPaired(ms[..j]);
    assert LegCount(ms[j]) == 2;
    var m := MovementTransfers(ms[j], l).value;
    assert ts[2 * j..2 * j + 2] == m;
    assert ts[2 * j] == m[0] && ts[2 * j + 1] == m[1];
  }

  /** A paired batch has exactly two nonzero legs per movement. */
  lemma {:induction false} LegTotalPaired(ms: seq<FundMovementParam>)
    requires Paired(ms)
    ensures LegTotal(ms) == 2 * |ms|
    decreases |ms|
  {
    if |ms| > 0 {
      assert Paired(ms[1..]) by {
        forall j | 0 <= j < |ms[1..]| ensures ms[1..][j].underlyingAmount != 0 && ms[1..][j].strikeAmount != 0 {
          assert ms[1..][j] == ms[j + 1];
        }
      }
      LegTotalPaired(ms[1..]);
    }
  }

  /** A movement with one zero leg shifts every later transfer by one
      position: here the strike slot of the first movement is matched
      against the second client's transfer. */
  lemma UnpairedMovementShiftsLegs(a: Pubkey, b: Pubkey, l: Ledger)
    requires 1 <= l.underlyingMultiplier <= I64Max && 1 <= l.strikeMultiplier <= I64Max
    ensures var ts := InitializeData([FundMovementParam(a, 1, 0), FundMovementParam(b, 1, 1)], l);
      && ts.Ok? && |ts.value| == 3
      && ts.value[1].client == b && ts.value[1].token == l.underlyingToken
  {
    var m0 := FundMovementParam(a, 1, 0);
    var m1 := FundMovementParam(b, 1, 1);
    assert [m0, m1][1..] == [m1];
    assert [m1][1..] == [];
    assert ScaleLeg(1, l.underlyingMultiplier) == Ok(-l.underlyingMultiplier);
    assert ScaleLeg(1, l.strikeMultiplier) == Ok(-l.strikeMultiplier);
    assert MovementTransfers(m0, l).Ok?;
    assert MovementTransfers(m1, l).Ok? && |MovementTransfers(m1, l).value| == 2;
    assert InitializeData([m1], l) == Ok(MovementTransfers(m1, l).value + []);
  }

  /** The legs of the ledger's settlement loop, two per underlying slot:
      leg 2i settles underlying slot i against transfer 2i, but decides
      credit or debit from transfer i; leg 2i+1 settles strike slot i against
      transfer 2i+1. A transfer or strike slot past the end aborts. */
  function LedgerLegs(ts: seq<Transfer>, u: seq<SettlementSlot>, st: seq<SettlementSlot>): (legs: seq<Leg>)
    ensures |legs| == 2 * |u|
    ensures DistinctSlots(u + st) ==> DistinctLegs(legs)
    ensures forall i :: 0 <= i < |u| ==>
      && (2 * i < |ts| ==> legs[2 * i] == Apply(u[i], ByClient(ts[2 * i].token, ts[2 * i].client), ts[i].amount, ts[2 * i].amount))
      && (2 * i >= |ts| ==> legs[2 * i] == OutOfBounds)
      && (i < |st| && 2 * i + 1 < |ts| ==>
            legs[2 * i + 1] == Apply(st[i], ByClient(ts[2 * i + 1].token, ts[2 * i + 1].client), ts[2 * i + 1].amount, ts[2 * i + 1].amount))
      && (i >= |st| || 2 * i + 1 >= |ts| ==> legs[2 * i + 1] == OutOfBounds)
  {
    var legs := seq(2 * |u|, k requires 0 <= k < 2 * |u| => LedgerLeg(ts, u, st, k));
    LedgerLegsDistinct(ts, u, st, legs);
    LedgerLegsShape(ts, u, st, legs);
    legs
  }

  function LedgerLeg(ts: seq<Transfer>, u: seq<SettlementSlot>, st: seq<SettlementSlot>, k: nat): Leg
    requires k < 2 * |u|
  {
    var i := k / 2;
    if k % 2 == 0 then
      (if k < |ts| then Apply(u[i], ByClient(ts[k].token, ts[k].client), ts[i].amount, ts[k].amount) else OutOfBounds)
    else
      (if i < |st| && k < |ts| then Apply(st[i], ByClient(ts[k].token, ts[k].client), ts[k].amount, ts[k].amount) else OutOfBounds)
  }

  lemma LedgerLegsShape(ts: seq<Transfer>, u: seq<SettlementSlot>, st: seq<SettlementSlot>, legs: seq<Leg>)
    requires |legs| == 2 * |u| && forall k :: 0 <= k < |legs| ==> legs[k] == LedgerLeg(ts, u, st, k)
    ensures forall i :: 0 <= i < |u| ==>
      && (2 * i < |ts| ==> legs[2 * i] == Apply(u[i], ByClient(ts[2 * i].token, ts[2 * i].client), ts[i].amount, ts[2 * i].amount))
      && (2 * i >= |ts| ==> legs[2 * i] == OutOfBounds)
      && (i < |st| && 2 * i + 1 < |ts| ==>
            legs[2 * i + 1] == Apply(st[i], ByClient(ts[2 * i + 1].token, ts[2 * i + 1].client), ts[2 * i + 1].amount, ts[2 * i + 1].amount))
      && (i >= |st| || 2 * i + 1 >= |ts| ==> legs[2 * i + 1] == OutOfBounds)
  {
    forall i | 0 <= i < |u|
      ensures 2 * i < |ts| ==> legs[2 * i] == Apply(u[i], ByClient(ts[2 * i].token, ts[2 * i].client), ts[i].amount, ts[2 * i].amount)
      ensures 2 * i >= |ts| ==> legs[2 * i] == OutOfBounds
      ensures i < |st| && 2 * i + 1 < |ts| ==>
            legs[2 * i + 1] == Apply(st[i], ByClient(ts[2 * i + 1].token, ts[2 * i + 1].client), ts[2 * i + 1].amount, ts[2 * i + 1].amount)
      ensures i >= |st| || 2 * i + 1 >= |ts| ==> legs[2 * i + 1] == OutOfBounds
    {
      var e := 2 * i;
      assert e / 2 == i && e % 2 == 0;
      assert (e + 1) / 2 == i && (e + 1) % 2 == 1;
      assert legs[e] == LedgerLeg(ts, u, st, e);
      assert legs[e + 1] == LedgerLeg(ts, u, st, e + 1);
    }
  }

  /** Leg k writes entry k/2 of the underlying slots (k even) or of the
      strike slots (k odd), so distinct slots give distinct legs. */
  lemma LedgerLegsDistinct(ts: seq<Transfer>, u: seq<SettlementSlot>, st: seq<SettlementSlot>, legs: seq<Leg>)
    requires |legs| == 2 * |u| && forall k :: 0 <= k < |legs| ==> legs[k] == LedgerLeg(ts, u, st, k)
    ensures DistinctSlots(u + st) ==> DistinctLegs(legs)
  {
    if DistinctSlots(u + st) {
      forall a, b | 0 <= a < b < |legs| && legs[a].Apply? && legs[b].Apply?
        ensures legs[a].slot.balance != legs[b].slot.balance && legs[a].slot.withdrawals != legs[b].slot.withdrawals
      {
        var pa := if a % 2 == 0 then a / 2 else |u| + a / 2;
        var pb := if b % 2 == 0 then b / 2 else |u| + b / 2;
        assert legs[a].slot == (u + st)[pa];
        assert legs[b].slot == (u + st)[pb];
        assert pa != pb;
        if pa < pb {
          assert (u + st)[pa].balance != (u + st)[pb].balance;
        } else {
          assert (u + st)[pb].balance != (u + st)[pa].balance;
        }
      }
    }
  }

  /** What a successful settlement loop guarantees, slot by slot: each
      strike slot i was the balance of transfer 2i+1's client and token and
      moved by that transfer's amount; each underlying slot i was the balance
      of transfer 2i's client and token, and moved by that transfer's amount
      whenever transfer i has the same sign (the loop's credit test reads
      transfer i). */
  predicate LedgerEffect(s: State, t: State, ts: seq<Transfer>, u: seq<SettlementSlot>, st: seq<SettlementSlot>) {
    && 2 * |u| <= |ts| && |u| <= |st|
    && (forall i :: 0 <= i < |u| ==>
         && Conserved(s, t, st[i], ts[2 * i + 1].amount)
         && u[i].balance in s.balances
         && s.balances[st[i].balance].client == ts[2 * i + 1].client
         && s.balances[st[i].balance].token == ts[2 * i + 1].token
         && s.balances[u[i].balance].client == ts[2 * i].client
         && s.balances[u[i].balance].token == ts[2 * i].token
         && ((ts[i].amount > 0 <==> ts[2 * i].amount > 0) ==> Conserved(s, t, u[i], ts[2 * i].amount))
         && Applied(s, t, st[i], ts[2 * i + 1].amount, ts[2 * i + 1].amount)
         && Applied(s, t, u[i], ts[i].amount, ts[2 * i].amount))
    && LedgerFrame(s, t, u, st)
  }

  /** No balance or withdrawals record outside the slot pairs the loop
      visits changes. */
  predicate LedgerFrame(s: State, t: State, u: seq<SettlementSlot>, st: seq<SettlementSlot>)
    requires |u| <= |st|
  {
    && (forall k :: k in s.balances && (forall i :: 0 <= i < |u| ==> u[i].balance != k && st[i].balance != k) ==>
          k in t.balances && t.balances[k] == s.balances[k])
    && (forall k :: k in s.withdrawals && (forall i :: 0 <= i < |u| ==> u[i].withdrawals != k && st[i].withdrawals != k) ==>
          k in t.withdrawals && t.withdrawals[k] == s.withdrawals[k])
  }

  lemma LedgerLegsEffect(s: State, t: State, ts: seq<Transfer>, u: seq<SettlementSlot>, st: seq<SettlementSlot>)
    requires LegsEffect(s, t, LedgerLegs(ts, u, st), 0)
    ensures LedgerEffect(s, t, ts, u, st)
  {
    if |u| > 0 {
      LedgerSlotEffect(s, t, ts, u, st, |u| - 1);
    }
    forall i | 0 <= i < |u|
      ensures Conserved(s, t, st[i], ts[2 * i + 1].amount)
      ensures u[i].balance in s.balances
      ensures s.balances[st[i].balance].client == ts[2 * i + 1].client
      ensures s.balances[st[i].balance].token == ts[2 * i + 1].token
      ensures s.balances[u[i].balance].client == ts[2 * i].client
      ensures s.balances[u[i].balance].token == ts[2 * i].token
      ensures (ts[i].amount > 0 <==> ts[2 * i].amount > 0) ==> Conserved(s, t, u[i], ts[2 * i].amount)
      ensures Applied(s, t, st[i], ts[2 * i + 1].amount, ts[2 * i + 1].amount)
      ensures Applied(s, t, u[i], ts[i].amount, ts[2 * i].amount)
    {
      LedgerSlotEffect(s, t, ts, u, st, i);
    }
    LedgerLegsFrame(s, t, ts, u, st);
  }

  /** The ledger's legs write only the slot pairs the loop visits. */
  lemma LedgerLegsFrame(s: State, t: State, ts: seq<Transfer>, u: seq<SettlementSlot>, st: seq<SettlementSlot>)
    requires LegsEffect(s, t, LedgerLegs(ts, u, st), 0)
    requires |u| <= |st|
    ensures LedgerFrame(s, t, u, st)
  {
    var legs := LedgerLegs(ts, u, st);
    forall k | k in s.balances && (forall i :: 0 <= i < |u| ==> u[i].balance != k && st[i].balance != k)
      ensures t.balances[k] == s.balances[k]
    {
      assert !WritesBalance(legs, 0, k) by {
        forall j | 0 <= j < |legs| && legs[j].Apply? ensures legs[j].slot.balance != k {
          LedgerLegSlot(ts, u, st, j);
        }
      }
    }
    forall k | k in s.withdrawals && (forall i :: 0 <= i < |u| ==> u[i].withdrawals != k && st[i].withdrawals != k)
      ensures t.withdrawals[k] == s.withdrawals[k]
    {
      assert !WritesWithdrawals(legs, 0, k) by {
        forall j | 0 <= j < |legs| && legs[j].Apply? ensures legs[j].slot.withdrawals != k {
          LedgerLegSlot(ts, u, st, j);
        }
      }
    }
  }

  /** Leg j of the ledger's loop, when applied, writes underlying slot j/2
      (j even) or strike slot j/2 (j odd). */
  lemma LedgerLegSlot(ts: seq<Transfer>, u: seq<SettlementSlot>, st: seq<SettlementSlot>, j: nat)
    requires j < 2 * |u| && LedgerLegs(ts, u, st)[j].Apply?
    ensures j / 2 < |u|
    ensures j % 2 == 0 ==> LedgerLegs(ts, u, st)[j].slot == u[j / 2]
    ensures j % 2 == 1 ==> j / 2 < |st| && LedgerLegs(ts, u, st)[j].slot == st[j / 2]
  {
    var i := j / 2;
    if j % 2 == 0 {
      assert j == 2 * i;
    } else {
      assert j == 2 * i + 1;
    }
  }

  /** One iteration of the ledger's loop: both of its legs were applied, so
      its slots matched their transfers and were settled by them. */
  lemma LedgerSlotEffect(s: State, t: State, ts: seq<Transfer>, u: seq<SettlementSlot>, st: seq<SettlementSlot>, i: nat)
    requires LegsEffect(s, t, LedgerLegs(ts, u, st), 0)
    requires i < |u|
    ensures 2 * i + 1 < |ts| && i < |st|
    ensures Conserved(s, t, st[i], ts[2 * i + 1].amount)
    ensures u[i].balance in s.balances
    ensures s.balances[st[i].balance].client == ts[2 * i + 1].client
    ensures s.balances[st[i].balance].token == ts[2 * i + 1].token
    ensures s.balances[u[i].balance].client == ts[2 * i].client
    ensures s.balances[u[i].balance].token == ts[2 * i].token
    ensures (ts[i].amount > 0 <==> ts[2 * i].amount > 0) ==> Conserved(s, t, u[i], ts[2 * i].amount)
    ensures Applied(s, t, st[i], ts[2 * i + 1].amount, ts[2 * i + 1].amount)
    ensures Applied(s, t, u[i], ts[i].amount, ts[2 * i].amount)
  {
    var legs := LedgerLegs(ts, u, st);
    var j0 := 2 * i;
    var j1 := 2 * i + 1;
    assert legs[j0].Apply? && legs[j1].Apply?;
    assert j1 < |ts| && i < |st|;
    assert legs[j0] == Apply(u[i], ByClient(ts[j0].token, ts[j0].client), ts[i].amount, ts[j0].amount);
    assert legs[j1] == Apply(st[i], ByClient(ts[j1].token, ts[j1].client), ts[j1].amount, ts[j1].amount);
    assert BalanceMatches(s.balances[u[i].balance], legs[j0].expected);
    assert BalanceMatches(s.balances[st[i].balance], legs[j1].expected);
    assert Consistent(legs[j1]);
  }

  /** `update_fund_movements`: a utility-account member settles a batch of
      movements of one market. Every failure inside the settlement loop is
      turned into an abort by the `expect` around it. */
  function UpdateFundMovements(s: State, controller: Pubkey, caller: Pubkey, underlying: Pubkey, strike: Pubkey,
                               ms: seq<FundMovementParam>, u: seq<SettlementSlot>, st: seq<SettlementSlot>, now: int): (r: Result<State>)
    ensures r.Err? ==> r.error in {AccountNotInitialized, NonFungibleToken, EmptyFundMovementArray, EmptyAmountsArray, Panic}
    ensures r.Ok? ==>
      && HasRole(s, controller, UtilityAccountRole, caller)
      && LedgerKey(controller, underlying, strike) in s.ledgers
      && |ms| > 0 && (forall j :: 0 <= j < |ms| ==> HasNonzeroLeg(ms[j]))
      && SameOutsideFundlockRecords(s, r.value)
      && r.value.balances.Keys == s.balances.Keys
      && r.value.withdrawals.Keys == s.withdrawals.Keys
      && (StateInv(s) ==> StateInv(r.value))
      && InitializeData(ms, s.ledgers[LedgerKey(controller, underlying, strike)]).Ok?
      && LedgerEffect(s, r.value, InitializeData(ms, s.ledgers[LedgerKey(controller, underlying, strike)]).value, u, st)
    // the ledger is loaded with the other accounts, before the mints'
    // constraints are checked
    ensures (!MarketAccountsExist(s, controller, UtilityAccountRole, caller, underlying, strike)
             || LedgerKey(controller, underlying, strike) !in s.ledgers) ==> r == Err(AccountNotInitialized)
    ensures (MarketAccountsExist(s, controller, UtilityAccountRole, caller, underlying, strike)
             && LedgerKey(controller, underlying, strike) in s.ledgers
             && !MintsFungible(s, underlying, strike)) ==> r == Err(NonFungibleToken)
    ensures (MarketAccounts(s, controller, UtilityAccountRole, caller, underlying, strike).Pass?
             && LedgerKey(controller, underlying, strike) in s.ledgers && DistinctSlots(u + st))
      ==> (|ms| == 0 <==> r == Err(EmptyFundMovementArray))
    ensures (MarketAccounts(s, controller, UtilityAccountRole, caller, underlying, strike).Pass?
             && LedgerKey(controller, underlying, strike) in s.ledgers && DistinctSlots(u + st)
             && |ms| > 0 && (exists j :: 0 <= j < |ms| && !HasNonzeroLeg(ms[j])))
      ==> r == Err(EmptyAmountsArray)
  {
    if !MarketAccountsExist(s, controller, UtilityAccountRole, caller, underlying, strike)
       || LedgerKey(controller, underlying, strike) !in s.ledgers then Err(AccountNotInitialized)
    else if !MintsFungible(s, underlying, strike) then Err(NonFungibleToken)
    else if !DistinctSlots(u + st) then Err(Panic)
    else if |ms| == 0 then Err(EmptyFundMovementArray)
    else match ValidateAndCountAmounts(ms)
      case Err(e) => Err(e)
      case Ok(_) =>
        match InitializeData(ms, s.ledgers[LedgerKey(controller, underlying, strike)])
        case Err(e) => Err(e)
        case Ok(ts) =>
          match SettleLegs(s, LedgerLegs(ts, u, st), 0, true, s.fundlocks[controller].tradeLock, now)
          case Err(_) => Err(Panic)
          case Ok(t) =>
            LedgerLegsEffect(s, t, ts, u, st);
            Ok(t)
  }

  /** The loop runs over the slot pairs, not over the movements: a valid
      batch sent with no slot pairs at all is accepted and settles nothing. */
  lemma MovementsWithoutSlotsSkipped(s: State, controller: Pubkey, caller: Pubkey, underlying: Pubkey, strike: Pubkey,
                                     ms: seq<FundMovementParam>, now: int)
    requires MarketAccounts(s, controller, UtilityAccountRole, caller, underlying, strike).Pass?
    requires LedgerKey(controller, underlying, strike) in s.ledgers
    requires |ms| > 0 && forall j :: 0 <= j < |ms| ==> HasNonzeroLeg(ms[j])
    requires InitializeData(ms, s.ledgers[LedgerKey(controller, underlying, strike)]).Ok?
    ensures UpdateFundMovements(s, controller, caller, underlying, strike, ms, [], [], now) == Ok(s)
  {
  }

  /** For a batch in which every movement moves both tokens, the strike
      balance of the client of movement i moves by the movement's strike
      amount in base units, with the ledger's sign (a positive movement is a
      debit), and the balance read is that client's. */
  lemma PairedStrikeSettlement(s: State, controller: Pubkey, caller: Pubkey, underlying: Pubkey, strike: Pubkey,
                               ms: seq<FundMovementParam>, u: seq<SettlementSlot>, st: seq<SettlementSlot>, now: int)
    requires Paired(ms)
    requires UpdateFundMovements(s, controller, caller, underlying, strike, ms, u, st, now).Ok?
    ensures LedgerKey(controller, underlying, strike) in s.ledgers
    ensures var l := s.ledgers[LedgerKey(controller, underlying, strike)];
      var t := UpdateFundMovements(s, controller, caller, underlying, strike, ms, u, st, now).value;
      && |u| <= |ms|
      && forall i :: 0 <= i < |u| ==>
           && st[i].balance in s.balances
           && s.balances[st[i].balance].client == ms[i].client
           && s.balances[st[i].balance].token == l.strikeToken
           && Conserved(s, t, st[i], -ms[i].strikeAmount * l.strikeMultiplier)
  {
    var l := s.ledgers[LedgerKey(controller, underlying, strike)];
    var t := UpdateFundMovements(s, controller, caller, underlying, strike, ms, u, st, now).value;
    InitializeDataPaired(ms, l);
    var ts := InitializeData(ms, l).value;
    assert LedgerEffect(s, t, ts, u, st);
    forall i | 0 <= i < |u|
      ensures st[i].balance in s.balances
      ensures s.balances[st[i].balance].client == ms[i].client
      ensures s.balances[st[i].balance].token == l.strikeToken
      ensures Conserved(s, t, st[i], -ms[i].strikeAmount * l.strikeMultiplier)
    {
      assert i < |ms|;
      assert ts[2 * i + 1] == Transfer(ms[i].client, l.strikeToken, -ms[i].strikeAmount * l.strikeMultiplier);
    }
  }
}
