/** Applying signed balance changes to client balances, and the legacy
    settlement instruction `update_balances_fundlock`.

    A credit, or a debit the free balance covers, changes the balance
    directly. A larger debit empties the balance and draws the shortfall from
    the client's trade-locked withdrawals; when that draw comes up short the
    whole instruction fails. */
module Settlement {
  import opened Errors
  import opened Constants
  import opened AccountState
  import opened WithdrawalQueue
  import opened FundFromWithdrawal

  const TwoTo64: int := 0x1_0000_0000_0000_0000

  /** Rust's `as u64` on the signed new balance: reduction modulo 2^64, so a
      negative value becomes a huge one. */
  function AsU64(x: int): (r: nat)
    ensures r < TwoTo64
    ensures (x - r) % TwoTo64 == 0
    ensures 0 <= x < TwoTo64 ==> r == x
  {
    x % TwoTo64
  }

  /** Rust's `as i64` on a `u64` balance: the same bits read as a signed
      number, so a balance from 2^63 on becomes negative. */
  function AsI64(x: nat): (r: int)
    ensures IsI64(r)
    ensures AsU64(r) == AsU64(x)
    ensures x <= I64Max ==> r == x
  {
    var m := AsU64(x);
    if m <= I64Max then m else m - TwoTo64
  }

  function Abs(x: int): nat {
    if x < 0 then -x else x
  }

  /** `amount.abs()` overflows on the one value whose negation leaves the
      signed range; the source evaluates it only when the credit test is not
      positive. */
  predicate AbsAborts(creditTest: int, amount: int) {
    creditTest <= 0 && Abs(amount) > I64Max
  }

  /** The write-back `(balance as i64 + amount) as u64` aborts when the
      signed sum leaves the signed range. */
  predicate SumOverflows(balance: nat, amount: int) {
    !IsI64(AsI64(balance) + amount)
  }

  /** The leg aborts in its own arithmetic, before or instead of any draw. */
  predicate LegAborts(balance: nat, creditTest: int, amount: int) {
    AbsAborts(creditTest, amount) || (Direct(balance, creditTest, amount) && SumOverflows(balance, amount))
  }

  /** The write-back is the plain sum taken modulo 2^64: reading the balance
      as signed first changes nothing but the overflow test. */
  lemma AsU64SignedSum(balance: nat, amount: int)
    ensures AsU64(AsI64(balance) + amount) == AsU64(balance + amount)
  {
    AsU64Congruent(AsI64(balance), balance, amount);
  }

  lemma AsU64Congruent(x: int, y: int, a: int)
    requires AsU64(x) == AsU64(y)
    ensures AsU64(x + a) == AsU64(y + a)
  {
    var qx, qy := x / TwoTo64, y / TwoTo64;
    assert x == qx * TwoTo64 + AsU64(x);
    assert y == qy * TwoTo64 + AsU64(y);
    assert x + a == (qx - qy) * TwoTo64 + (y + a);
    ShiftMod(y + a, qx - qy);
  }

  lemma ShiftMod(x: int, k: int)
    ensures (k * TwoTo64 + x) % TwoTo64 == x % TwoTo64
  {
  }

  datatype Settled = Settled(balance: ClientBalance, withdrawals: Withdrawals)

  /** A leg is applied to the free balance directly when its credit test
      says credit or the balance covers the debit. */
  predicate Direct(balance: nat, creditTest: int, amount: int) {
    creditTest > 0 || balance >= Abs(amount)
  }

  /** One leg of a settlement. `creditTest` is the value the source compares
      with zero to decide whether the change is a credit; `amount` is the
      signed change. The two are the same value except in one branch of the
      ledger, which reads the wrong index. `bound` is the scan bound of the
      draw from withdrawals. */
  function SettleLeg(b: ClientBalance, w: Withdrawals, creditTest: int, amount: int, bound: nat, tradeLock: int, now: int): (r: Result<Settled>)
    ensures r.Ok? ==>
      && r.value.balance == b.(amount := r.value.balance.amount)
      && r.value.withdrawals.client == w.client
      && |r.value.withdrawals.withdrawalQueue| <= |w.withdrawalQueue|
      && (Balanced(w) ==> Balanced(r.value.withdrawals))
    ensures r.Err? ==> r.error == InsufficientFunds || r.error == Panic
    // the leg's own arithmetic aborts exactly when `abs()` or the signed sum
    // overflows; on a balanced record nothing else aborts
    ensures LegAborts(b.amount, creditTest, amount) ==> r == Err(Panic)
    ensures Balanced(w) ==> (r == Err(Panic) <==> LegAborts(b.amount, creditTest, amount))
    // with a consistent credit test: the balance plus the pending withdrawals
    // move by exactly the signed amount, and only a debit beyond the free
    // balance can fail
    ensures (creditTest > 0 <==> amount > 0) && r.Ok? && b.amount + amount < TwoTo64 ==>
      r.value.balance.amount + r.value.withdrawals.activeWithdrawalsAmount == b.amount + w.activeWithdrawalsAmount + amount
    ensures (creditTest > 0 <==> amount > 0) && r.Err? && !LegAborts(b.amount, creditTest, amount) ==> amount < 0 && b.amount < Abs(amount)
    // what a successful leg wrote
    ensures r.Ok? && Direct(b.amount, creditTest, amount) ==>
      r.value == Settled(b.(amount := AsU64(b.amount + amount)), w)
    ensures r.Ok? && !Direct(b.amount, creditTest, amount) ==> r.value.balance == b.(amount := 0)
    // a direct leg moves only the balance, by the amount taken as `u64`
    ensures Direct(b.amount, creditTest, amount) && !LegAborts(b.amount, creditTest, amount) ==>
      r == Ok(Settled(b.(amount := AsU64(b.amount + amount)), w))
    // any other leg succeeds exactly when the scan funds the shortfall, and
    // then leaves the balance empty and the record the scan produced
    ensures !Direct(b.amount, creditTest, amount) && !LegAborts(b.amount, creditTest, amount) ==>
      var d := DrawFrom(w, 0, bound, Abs(amount) - b.amount, 0, tradeLock, now);
      && (r.Ok? <==> d.Funded?)
      && (d.Funded? ==> r == Ok(Settled(b.(amount := 0), d.w)))
  {
    if AbsAborts(creditTest, amount) then Err(Panic)
    else if Direct(b.amount, creditTest, amount) then
      if SumOverflows(b.amount, amount) then Err(Panic)
      else
        AsU64SignedSum(b.amount, amount);
        Ok(Settled(b.(amount := AsU64(AsI64(b.amount) + amount)), w))
    else
      var shortage := Abs(amount) - b.amount;
      match DrawFrom(w, 0, bound, shortage, 0, tradeLock, now)
      case Funded(w') => Ok(Settled(b.(amount := 0), w'))
      case Short(_) => Err(InsufficientFunds)
      case Aborted => Err(Panic)
  }

  /** A credit that takes a balance below 2^63 to 2^63 or beyond aborts in
      the signed write-back instead of being stored. */
  lemma CreditPastI64Aborts(b: ClientBalance, w: Withdrawals, amount: int, bound: nat, tradeLock: int, now: int)
    requires 0 < amount <= I64Max && b.amount <= I64Max < b.amount + amount
    ensures SettleLeg(b, w, amount, amount, bound, tradeLock, now) == Err(Panic)
  {
  }

  /** A debit the free balance does not cover succeeds exactly when the
      trade-locked withdrawals the scan visits fund the shortfall; the
      shortfall can never exceed what the trade-locked entries hold. */
  lemma SettleDebitFromWithdrawals(b: ClientBalance, w: Withdrawals, amount: int, bound: nat, tradeLock: int, now: int)
    requires amount < 0 && b.amount < Abs(amount)
    ensures SettleLeg(b, w, amount, amount, bound, tradeLock, now).Ok? ==>
      && SettleLeg(b, w, amount, amount, bound, tradeLock, now).value.balance.amount == 0
      && Abs(amount) - b.amount <= Sum(Locked(w.withdrawalQueue, tradeLock, now))
  {
    DrawFundedWithinLocked(w, 0, bound, Abs(amount) - b.amount, 0, tradeLock, now);
  }

  /** With the credit test read from the wrong entry, a debit larger than the
      balance is applied directly and the balance wraps around to a value
      near 2^64 instead of failing. */
  lemma MisreadCreditTestWraps(b: ClientBalance, w: Withdrawals, creditTest: int, amount: int, bound: nat, tradeLock: int, now: int)
    requires creditTest > 0 && IsI64(amount) && amount < 0 && b.amount < Abs(amount)
    ensures SettleLeg(b, w, creditTest, amount, bound, tradeLock, now)
         == Ok(Settled(b.(amount := b.amount + amount + TwoTo64), w))
  {
    var x := b.amount + amount;
    assert -TwoTo64 < x < 0;
    assert AsU64(x) == x + TwoTo64;
  }

  /** With the credit test read from the wrong entry, a credit larger than
      the balance is taken for a debit: it is drawn from the withdrawals and
      the balance is emptied. */
  lemma MisreadCreditTestDebits(b: ClientBalance, w: Withdrawals, creditTest: int, amount: int, bound: nat, tradeLock: int, now: int)
    requires creditTest <= 0 && amount > 0 && b.amount < amount
    ensures SettleLeg(b, w, creditTest, amount, bound, tradeLock, now).Ok? ==>
      SettleLeg(b, w, creditTest, amount, bound, tradeLock, now).value.balance.amount == 0
  {
  }

  // ---- applying one leg to the account store ----

  /** The two accounts one settlement leg writes: a client balance and the
      withdrawals account beside it. */
  datatype SettlementSlot = SettlementSlot(balance: BalanceKey, withdrawals: BalanceKey)

  /** How a leg recognises its accounts: the legacy settlement matches the
      token and the client's token account, the ledger matches the token and
      the client. */
  datatype Expect = ByAta(token: Pubkey, ata: Pubkey) | ByClient(token: Pubkey, client: Pubkey)

  predicate BalanceMatches(b: ClientBalance, e: Expect) {
    match e
    case ByAta(token, ata) => b.token == token && b.clientAta == ata
    case ByClient(token, client) => b.token == token && b.client == client
  }

  /** The legacy settlement compares the token account the withdrawals
      account belongs to, the ledger compares its recorded client. */
  predicate WithdrawalsMatches(k: BalanceKey, w: Withdrawals, e: Expect) {
    match e
    case ByAta(_, ata) => k.clientAta == ata
    case ByClient(_, client) => w.client == client
  }

  /** The balance-level outcome of one leg on its slot: a direct leg sets
      the balance to the old one plus the amount (as `u64`) and leaves the
      withdrawals record alone; any other leg empties the balance. */
  predicate Applied(s: State, t: State, slot: SettlementSlot, creditTest: int, amount: int) {
    && slot.balance in s.balances && slot.withdrawals in s.withdrawals
    && slot.balance in t.balances && slot.withdrawals in t.withdrawals
    && (Direct(s.balances[slot.balance].amount, creditTest, amount) ==>
          && t.balances[slot.balance] == s.balances[slot.balance].(amount := AsU64(s.balances[slot.balance].amount + amount))
          && t.withdrawals[slot.withdrawals] == s.withdrawals[slot.withdrawals])
    && (!Direct(s.balances[slot.balance].amount, creditTest, amount) ==> t.balances[slot.balance].amount == 0)
  }

  /** Only the balances and withdrawals of the store differ. */
  predicate SameOutsideFundlockRecords(s: State, t: State) {
    t == s.(balances := t.balances, withdrawals := t.withdrawals)
  }

  /** One leg against the store: read both accounts (a missing one aborts
      deserialization), check they are the expected ones, settle, write both
      back. `queueBound` selects the ledger's scan bound (the queue's length)
      over the legacy one (five). */
  function SettleSlot(s: State, slot: SettlementSlot, e: Expect, creditTest: int, amount: int, queueBound: bool, tradeLock: int, now: int): (r: Result<State>)
    ensures r.Ok? ==>
      && slot.balance in s.balances && slot.withdrawals in s.withdrawals
      && BalanceMatches(s.balances[slot.balance], e)
      && WithdrawalsMatches(slot.withdrawals, s.withdrawals[slot.withdrawals], e)
      && SameOutsideFundlockRecords(s, r.value)
      && r.value.balances.Keys == s.balances.Keys
      && r.value.withdrawals.Keys == s.withdrawals.Keys
      && r.value.balances == s.balances[slot.balance := r.value.balances[slot.balance]]
      && r.value.withdrawals == s.withdrawals[slot.withdrawals := r.value.withdrawals[slot.withdrawals]]
      && r.value.balances[slot.balance] == s.balances[slot.balance].(amount := r.value.balances[slot.balance].amount)
      && r.value.withdrawals[slot.withdrawals].client == s.withdrawals[slot.withdrawals].client
      && (StateInv(s) ==> StateInv(r.value))
    ensures (creditTest > 0 <==> amount > 0) && r.Ok? ==> Conserved(s, r.value, slot, amount)
    ensures r.Ok? ==> Applied(s, r.value, slot, creditTest, amount)
    ensures r.Err? ==> r.error in {Panic, AccountOrderViolated, InsufficientFunds}
    // a present account of another token or client is out of order
    ensures (slot.balance in s.balances && !BalanceMatches(s.balances[slot.balance], e)) ==> r == Err(AccountOrderViolated)
    ensures (slot.balance in s.balances && BalanceMatches(s.balances[slot.balance], e)
             && slot.withdrawals in s.withdrawals && !WithdrawalsMatches(slot.withdrawals, s.withdrawals[slot.withdrawals], e))
      ==> r == Err(AccountOrderViolated)
    ensures (slot.balance in s.balances && BalanceMatches(s.balances[slot.balance], e)
             && slot.withdrawals in s.withdrawals && WithdrawalsMatches(slot.withdrawals, s.withdrawals[slot.withdrawals], e)
             && Direct(s.balances[slot.balance].amount, creditTest, amount)
             && !LegAborts(s.balances[slot.balance].amount, creditTest, amount)) ==> r.Ok?
  {
    if slot.balance !in s.balances then Err(Panic)
    else if !BalanceMatches(s.balances[slot.balance], e) then Err(AccountOrderViolated)
    else if slot.withdrawals !in s.withdrawals then Err(Panic)
    else
      var w := s.withdrawals[slot.withdrawals];
      if !WithdrawalsMatches(slot.withdrawals, w, e) then Err(AccountOrderViolated)
      else
        var bound := if queueBound then |w.withdrawalQueue| else WithdrawalLimit;
        var b := s.balances[slot.balance];
        match SettleLeg(b, w, creditTest, amount, bound, tradeLock, now)
        case Err(err) =>
          assert !Direct(b.amount, creditTest, amount) || LegAborts(b.amount, creditTest, amount);
          Err(err)
        case Ok(st) =>
          Ok(s.(balances := s.balances[slot.balance := st.balance],
                withdrawals := s.withdrawals[slot.withdrawals := st.withdrawals]))
  }

  /** The net effect the settlement promises for one slot: the client's
      free balance plus pending withdrawals move by exactly the signed
      amount (as long as the new balance fits in 64 bits). */
  predicate Conserved(s: State, t: State, slot: SettlementSlot, amount: int) {
    && slot.balance in s.balances && slot.withdrawals in s.withdrawals
    && slot.balance in t.balances && slot.withdrawals in t.withdrawals
    && (s.balances[slot.balance].amount + amount < TwoTo64 ==>
          t.balances[slot.balance].amount + t.withdrawals[slot.withdrawals].activeWithdrawalsAmount
            == s.balances[slot.balance].amount + s.withdrawals[slot.withdrawals].activeWithdrawalsAmount + amount)
  }

  // ---- a sequence of legs ----

  /** One step of a settlement loop: a leg to apply, or an index the loop
      reads out of bounds, which aborts the program. */
  datatype Leg =
    | Apply(slot: SettlementSlot, expected: Expect, creditTest: int, amount: int)
    | OutOfBounds

  /** The credit test agrees with the sign of the amount. */
  predicate Consistent(leg: Leg) {
    leg.Apply? ==> (leg.creditTest > 0 <==> leg.amount > 0)
  }

  /** No two slots share a balance account or a withdrawals account: each
      account of the list can be borrowed mutably once. */
  predicate DistinctSlots(slots: seq<SettlementSlot>) {
    forall a, b :: 0 <= a < b < |slots| ==> slots[a].balance != slots[b].balance && slots[a].withdrawals != slots[b].withdrawals
  }

  predicate DistinctLegs(legs: seq<Leg>) {
    forall a, b :: 0 <= a < b < |legs| && legs[a].Apply? && legs[b].Apply? ==>
      legs[a].slot.balance != legs[b].slot.balance && legs[a].slot.withdrawals != legs[b].slot.withdrawals
  }

  /** Does a leg from index `i` on write the balance account `k`? */
  predicate WritesBalance(legs: seq<Leg>, i: nat, k: BalanceKey) {
    exists j :: i <= j < |legs| && legs[j].Apply? && legs[j].slot.balance == k
  }

  predicate WritesWithdrawals(legs: seq<Leg>, i: nat, k: BalanceKey) {
    exists j :: i <= j < |legs| && legs[j].Apply? && legs[j].slot.withdrawals == k
  }

  /** One leg was applied between `s` and `t`: its accounts existed in `s`
      and were the expected ones, and they were settled by its amount. */
  predicate LegSettled(s: State, t: State, leg: Leg) {
    && leg.Apply?
    && leg.slot.balance in s.balances && leg.slot.withdrawals in s.withdrawals
    && BalanceMatches(s.balances[leg.slot.balance], leg.expected)
    && WithdrawalsMatches(leg.slot.withdrawals, s.withdrawals[leg.slot.withdrawals], leg.expected)
    && (Consistent(leg) ==> Conserved(s, t, leg.slot, leg.amount))
    && Applied(s, t, leg.slot, leg.creditTest, leg.amount)
  }

  /** A leg settled between `s1` and `t` on accounts that `s` and `s1` agree
      on was settled between `s` and `t`. */
  lemma LegSettledBefore(s: State, s1: State, t: State, leg: Leg)
    requires LegSettled(s1, t, leg)
    requires leg.slot.balance in s.balances && leg.slot.withdrawals in s.withdrawals
    requires s1.balances[leg.slot.balance] == s.balances[leg.slot.balance]
    requires s1.withdrawals[leg.slot.withdrawals] == s.withdrawals[leg.slot.withdrawals]
    ensures LegSettled(s, t, leg)
  {
  }

  /** A leg settled between `s` and `s1` whose accounts `t` keeps as `s1`
      left them was settled between `s` and `t`. */
  lemma LegSettledAfter(s: State, s1: State, t: State, leg: Leg)
    requires LegSettled(s, s1, leg)
    requires leg.slot.balance in t.balances && leg.slot.withdrawals in t.withdrawals
    requires t.balances[leg.slot.balance] == s1.balances[leg.slot.balance]
    requires t.withdrawals[leg.slot.withdrawals] == s1.withdrawals[leg.slot.withdrawals]
    ensures LegSettled(s, t, leg)
  {
  }

  /** What a successful run of the legs from `i` on guarantees about the
      store it started from (`s`) and the one it produced (`t`). */
  predicate LegsEffect(s: State, t: State, legs: seq<Leg>, i: nat) {
    && SameOutsideFundlockRecords(s, t)
    && t.balances.Keys == s.balances.Keys
    && t.withdrawals.Keys == s.withdrawals.Keys
    && (forall j :: i <= j < |legs| ==> LegSettled(s, t, legs[j]))
    && (forall k :: k in s.balances && !WritesBalance(legs, i, k) ==> t.balances[k] == s.balances[k])
    && (forall k :: k in s.withdrawals && !WritesWithdrawals(legs, i, k) ==> t.withdrawals[k] == s.withdrawals[k])
  }

  /** A settlement loop: apply the legs from index `i` on, in order, stopping
      at the first failure. */
  function SettleLegs(s: State, legs: seq<Leg>, i: nat, queueBound: bool, tradeLock: int, now: int): (r: Result<State>)
    requires i <= |legs| && DistinctLegs(legs)
    ensures r.Ok? ==> LegsEffect(s, r.value, legs, i)
    ensures r.Ok? && StateInv(s) ==> StateInv(r.value)
    ensures r.Err? ==> r.error in {Panic, AccountOrderViolated, InsufficientFunds}
    decreases |legs| - i
  {
    if i == |legs| then Ok(s)
    else match legs[i]
      case OutOfBounds => Err(Panic)
      case Apply(slot, e, creditTest, amount) =>
        match SettleSlot(s, slot, e, creditTest, amount, queueBound, tradeLock, now)
        case Err(err) => Err(err)
        case Ok(s1) =>
          var r := SettleLegs(s1, legs, i + 1, queueBound, tradeLock, now);
          if r.Ok? then
            SettleLegsStep(s, s1, r.value, legs, i);
            r
          else r
  }

  /** The inductive step of `SettleLegs`: the later legs never write leg
      `i`'s accounts, and leg `i` never writes theirs. */
  lemma SettleLegsStep(s: State, s1: State, t: State, legs: seq<Leg>, i: nat)
    requires i < |legs| && DistinctLegs(legs) && legs[i].Apply?
    requires SameOutsideFundlockRecords(s, s1)
    requires s1.balances.Keys == s.balances.Keys && s1.withdrawals.Keys == s.withdrawals.Keys
    requires LegSettled(s, s1, legs[i])
    requires s1.balances == s.balances[legs[i].slot.balance := s1.balances[legs[i].slot.balance]]
    requires s1.withdrawals == s.withdrawals[legs[i].slot.withdrawals := s1.withdrawals[legs[i].slot.withdrawals]]
    requires LegsEffect(s1, t, legs, i + 1)
    ensures LegsEffect(s, t, legs, i)
  {
    var bi := legs[i].slot.balance;
    var wi := legs[i].slot.withdrawals;
    assert !WritesBalance(legs, i + 1, bi) by {
      forall j | i + 1 <= j < |legs| && legs[j].Apply? ensures legs[j].slot.balance != bi {
      }
    }
    assert !WritesWithdrawals(legs, i + 1, wi) by {
      forall j | i + 1 <= j < |legs| && legs[j].Apply? ensures legs[j].slot.withdrawals != wi {
      }
    }
    forall j | i <= j < |legs|
      ensures LegSettled(s, t, legs[j])
    {
      if j == i {
        LegSettledAfter(s, s1, t, legs[i]);
      } else {
        assert legs[j].slot.balance != bi && legs[j].slot.withdrawals != wi;
        LegSettledBefore(s, s1, t, legs[j]);
      }
    }
    forall k | k in s.balances && !WritesBalance(legs, i, k)
      ensures t.balances[k] == s.balances[k]
    {
      assert k != bi;
      assert !WritesBalance(legs, i + 1, k);
    }
    forall k | k in s.withdrawals && !WritesWithdrawals(legs, i, k)
      ensures t.withdrawals[k] == s.withdrawals[k]
    {
      assert k != wi;
      assert !WritesWithdrawals(legs, i + 1, k);
    }
  }

  // ---- the legacy instruction ----

  /** The legs of `update_balances_fundlock`: the `i`-th pair of accounts
      with the `i`-th amount, token and token account; reading a token past
      the end of the token list aborts. */
  function LegacyLegs(amounts: seq<int>, clientAtas: seq<Pubkey>, tokens: seq<Pubkey>, slots: seq<SettlementSlot>): (legs: seq<Leg>)
    requires |amounts| == |slots| && |clientAtas| == |slots|
    ensures |legs| == |slots|
    ensures DistinctSlots(slots) ==> DistinctLegs(legs)
    ensures forall j :: 0 <= j < |legs| ==> Consistent(legs[j])
    ensures forall j :: 0 <= j < |legs| ==> (legs[j].Apply? <==> j < |tokens|)
    ensures forall j :: 0 <= j < |legs| && legs[j].Apply? ==>
      legs[j] == Apply(slots[j], ByAta(tokens[j], clientAtas[j]), amounts[j], amounts[j])
  {
    seq(|slots|, j requires 0 <= j < |slots| =>
      if j < |tokens| then Apply(slots[j], ByAta(tokens[j], clientAtas[j]), amounts[j], amounts[j]) else OutOfBounds)
  }

  /** The legacy settlement instruction. It needs the access controller, its
      admin role account, the token validator and the fundlock (the caller
      is not checked against the role's members); the balance and
      withdrawals accounts come in pairs after them. */
  function UpdateBalancesFundlock(s: State, controller: Pubkey, amounts: seq<int>, clientAtas: seq<Pubkey>, tokens: seq<Pubkey>, slots: seq<SettlementSlot>, now: int): (r: Result<State>)
    ensures r.Ok? ==>
      && controller in s.controllers && RoleKey(controller, AdminRole) in s.roles
      && controller in s.validators && controller in s.fundlocks
      && |slots| > 0 && |amounts| == |slots| && |clientAtas| == |slots| && |tokens| >= |slots|
      && SameOutsideFundlockRecords(s, r.value)
      && r.value.balances.Keys == s.balances.Keys
      && r.value.withdrawals.Keys == s.withdrawals.Keys
      && (forall j :: 0 <= j < |slots| ==>
            && Conserved(s, r.value, slots[j], amounts[j])
            && s.balances[slots[j].balance].token == tokens[j]
            && s.balances[slots[j].balance].clientAta == clientAtas[j]
            && slots[j].withdrawals.clientAta == clientAtas[j]
            && Applied(s, r.value, slots[j], amounts[j], amounts[j]))
      && (forall k :: k in s.balances && (forall j :: 0 <= j < |slots| ==> slots[j].balance != k) ==>
            r.value.balances[k] == s.balances[k])
      && (forall k :: k in s.withdrawals && (forall j :: 0 <= j < |slots| ==> slots[j].withdrawals != k) ==>
            r.value.withdrawals[k] == s.withdrawals[k])
    ensures r.Ok? && StateInv(s) ==> StateInv(r.value)
    ensures controller in s.controllers && RoleKey(controller, AdminRole) in s.roles
      && controller in s.validators && controller in s.fundlocks && DistinctSlots(slots)
      && (|slots| == 0 || |amounts| != |slots| || |clientAtas| != |slots|)
      ==> r == Err(InvalidAccountsAmount)
  {
    if controller !in s.controllers || RoleKey(controller, AdminRole) !in s.roles
       || controller !in s.validators || controller !in s.fundlocks then
      Err(AccountNotInitialized)
    else if !DistinctSlots(slots) then Err(Panic)
    else if !(|slots| == |amounts| && |slots| == |clientAtas| && |slots| > 0) then Err(InvalidAccountsAmount)
    else
      var legs := LegacyLegs(amounts, clientAtas, tokens, slots);
      var r := SettleLegs(s, legs, 0, false, s.fundlocks[controller].tradeLock, now);
      if r.Ok? then
        LegacyLegsEffect(s, r.value, amounts, clientAtas, tokens, slots);
        r
      else r
  }

  /** What a successful legacy loop guarantees: every pair was in range,
      matched its token and token account, and was settled by its amount;
      no other account changed. */
  lemma LegacyLegsEffect(s: State, t: State, amounts: seq<int>, clientAtas: seq<Pubkey>, tokens: seq<Pubkey>, slots: seq<SettlementSlot>)
    requires |slots| > 0 && |amounts| == |slots| && |clientAtas| == |slots|
    requires LegsEffect(s, t, LegacyLegs(amounts, clientAtas, tokens, slots), 0)
    ensures |tokens| >= |slots|
    ensures forall j :: 0 <= j < |slots| ==>
      && Conserved(s, t, slots[j], amounts[j])
      && s.balances[slots[j].balance].token == tokens[j]
      && s.balances[slots[j].balance].clientAta == clientAtas[j]
      && slots[j].withdrawals.clientAta == clientAtas[j]
      && Applied(s, t, slots[j], amounts[j], amounts[j])
    ensures forall k :: k in s.balances && (forall j :: 0 <= j < |slots| ==> slots[j].balance != k) ==>
      t.balances[k] == s.balances[k]
    ensures forall k :: k in s.withdrawals && (forall j :: 0 <= j < |slots| ==> slots[j].withdrawals != k) ==>
      t.withdrawals[k] == s.withdrawals[k]
  {
    var legs := LegacyLegs(amounts, clientAtas, tokens, slots);
    assert legs[|legs| - 1].Apply?;
    forall j | 0 <= j < |slots|
      ensures Conserved(s, t, slots[j], amounts[j])
      ensures s.balances[slots[j].balance].token == tokens[j]
      ensures s.balances[slots[j].balance].clientAta == clientAtas[j]
      ensures slots[j].withdrawals.clientAta == clientAtas[j]
      ensures Applied(s, t, slots[j], amounts[j], amounts[j])
    {
      assert legs[j].Apply?;
      assert legs[j] == Apply(slots[j], ByAta(tokens[j], clientAtas[j]), amounts[j], amounts[j]);
      assert Consistent(legs[j]);
    }
    forall k | k in s.balances && (forall j :: 0 <= j < |slots| ==> slots[j].balance != k)
      ensures t.balances[k] == s.balances[k]
    {
      assert !WritesBalance(legs, 0, k);
    }
    forall k | k in s.withdrawals && (forall j :: 0 <= j < |slots| ==> slots[j].withdrawals != k)
      ensures t.withdrawals[k] == s.withdrawals[k]
    {
      assert !WritesWithdrawals(legs, 0, k);
    }
  }
}
