/** The per-balance withdrawal queue: pending amounts, the recorded active
    total, and which entries are still inside the trade lock. */
module WithdrawalQueue {
  import opened Constants
  import opened AccountState

  /** Total amount of a sequence of pending withdrawals. */
  function Sum(q: seq<WithdrawalState>): nat {
    if |q| == 0 then 0 else q[0].amount + Sum(q[1..])
  }

  /** The queue with the entry at `i` taken out, later entries shifted down
      by one (Rust's `Vec::remove`). */
  function RemoveAt(q: seq<WithdrawalState>, i: nat): (r: seq<WithdrawalState>)
    requires i < |q|
    ensures |r| == |q| - 1
    ensures forall j :: 0 <= j < i ==> r[j] == q[j]
    ensures forall j :: i <= j < |r| ==> r[j] == q[j + 1]
  {
    q[..i] + q[i + 1..]
  }

  /** An entry requested less than `tradeLock` seconds before `now`: still
      available to cover the client's trading losses. */
  predicate TradeLocked(e: WithdrawalState, tradeLock: int, now: int) {
    e.timestamp + tradeLock > now
  }

  /** The entries a settlement may not draw from, in queue order. */
  function Unlocked(q: seq<WithdrawalState>, tradeLock: int, now: int): seq<WithdrawalState> {
    if |q| == 0 then []
    else (if TradeLocked(q[0], tradeLock, now) then [] else [q[0]]) + Unlocked(q[1..], tradeLock, now)
  }

  /** The entries a settlement may draw from, in queue order. */
  function Locked(q: seq<WithdrawalState>, tradeLock: int, now: int): seq<WithdrawalState> {
    if |q| == 0 then []
    else (if TradeLocked(q[0], tradeLock, now) then [q[0]] else []) + Locked(q[1..], tradeLock, now)
  }

  /** The recorded active total equals the sum of the queue. */
  predicate Balanced(w: Withdrawals) {
    w.activeWithdrawalsAmount == Sum(w.withdrawalQueue)
  }

  /** The invariant every withdrawals account keeps: balanced and within the
      queue capacity. */
  predicate Valid(w: Withdrawals) {
    Balanced(w) && |w.withdrawalQueue| <= WithdrawalLimit
  }

  /** Every withdrawals account in the store keeps the invariant. */
  predicate StateInv(s: State) {
    forall k :: k in s.withdrawals ==> Valid(s.withdrawals[k])
  }

  lemma {:induction false} SumConcat(a: seq<WithdrawalState>, b: seq<WithdrawalState>)
    ensures Sum(a + b) == Sum(a) + Sum(b)
    decreases |a|
  {
    if |a| == 0 {
      assert a + b == b;
    } else {
      assert (a + b)[1..] == a[1..] + b;
      SumConcat(a[1..], b);
    }
  }

  /** Appending an entry adds its amount. */
  lemma SumPush(q: seq<WithdrawalState>, e: WithdrawalState)
    ensures Sum(q + [e]) == Sum(q) + e.amount
  {
    SumConcat(q, [e]);
    assert Sum([e]) == e.amount + Sum([e][1..]);
  }

  lemma SumSplit(q: seq<WithdrawalState>, i: nat)
    requires i < |q|
    ensures Sum(q) == Sum(q[..i]) + q[i].amount + Sum(q[i + 1..])
  {
    assert q == q[..i] + q[i..];
    SumConcat(q[..i], q[i..]);
    assert q[i..][1..] == q[i + 1..];
  }

  /** Removing an entry subtracts exactly its amount. */
  lemma SumRemoveAt(q: seq<WithdrawalState>, i: nat)
    requires i < |q|
    ensures Sum(RemoveAt(q, i)) + q[i].amount == Sum(q)
  {
    SumSplit(q, i);
    SumConcat(q[..i], q[i + 1..]);
  }

  /** Replacing an entry changes the sum by the difference of the amounts. */
  lemma SumUpdate(q: seq<WithdrawalState>, i: nat, e: WithdrawalState)
    requires i < |q|
    ensures Sum(q[i := e]) + q[i].amount == Sum(q) + e.amount
  {
    SumSplit(q, i);
    SumSplit(q[i := e], i);
    assert q[i := e][..i] == q[..i];
    assert q[i := e][i + 1..] == q[i + 1..];
  }

  lemma {:induction false} UnlockedConcat(a: seq<WithdrawalState>, b: seq<WithdrawalState>, tradeLock: int, now: int)
    ensures Unlocked(a + b, tradeLock, now) == Unlocked(a, tradeLock, now) + Unlocked(b, tradeLock, now)
    decreases |a|
  {
    if |a| == 0 {
      assert a + b == b;
    } else {
      assert (a + b)[1..] == a[1..] + b;
      UnlockedConcat(a[1..], b, tradeLock, now);
      var hd := if TradeLocked(a[0], tradeLock, now) then [] else [a[0]];
      calc {
        Unlocked(a + b, tradeLock, now);
        hd + Unlocked(a[1..] + b, tradeLock, now);
        hd + (Unlocked(a[1..], tradeLock, now) + Unlocked(b, tradeLock, now));
        (hd + Unlocked(a[1..], tradeLock, now)) + Unlocked(b, tradeLock, now);
      }
    }
  }

  /** The queue's total splits into the part a settlement may draw from and
      the part it may not. */
  lemma {:induction false} SumLockedUnlocked(q: seq<WithdrawalState>, tradeLock: int, now: int)
    ensures Sum(q) == Sum(Locked(q, tradeLock, now)) + Sum(Unlocked(q, tradeLock, now))
    decreases |q|
  {
    if |q| > 0 {
      SumLockedUnlocked(q[1..], tradeLock, now);
      var hd := if TradeLocked(q[0], tradeLock, now) then [q[0]] else [];
      var rest := Locked(q[1..], tradeLock, now);
      SumConcat(hd, rest);
      SumConcat(if TradeLocked(q[0], tradeLock, now) then [] else [q[0]], Unlocked(q[1..], tradeLock, now));
      assert Sum([q[0]]) == q[0].amount + Sum([q[0]][1..]);
    }
  }

  /** Removing a trade-locked entry leaves the unlocked entries as they were. */
  lemma UnlockedRemoveLocked(q: seq<WithdrawalState>, i: nat, tradeLock: int, now: int)
    requires i < |q| && TradeLocked(q[i], tradeLock, now)
    ensures Unlocked(RemoveAt(q, i), tradeLock, now) == Unlocked(q, tradeLock, now)
  {
    assert q == q[..i] + [q[i]] + q[i + 1..];
    UnlockedConcat(q[..i] + [q[i]], q[i + 1..], tradeLock, now);
    UnlockedConcat(q[..i], [q[i]], tradeLock, now);
    UnlockedConcat(q[..i], q[i + 1..], tradeLock, now);
    assert Unlocked([q[i]], tradeLock, now) == [] + Unlocked([q[i]][1..], tradeLock, now);
  }

  /** Reducing a trade-locked entry (same timestamp) leaves the unlocked
      entries as they were. */
  lemma UnlockedUpdateLocked(q: seq<WithdrawalState>, i: nat, e: WithdrawalState, tradeLock: int, now: int)
    requires i < |q| && TradeLocked(q[i], tradeLock, now) && TradeLocked(e, tradeLock, now)
    ensures Unlocked(q[i := e], tradeLock, now) == Unlocked(q, tradeLock, now)
  {
    var q' := q[i := e];
    assert q == q[..i] + [q[i]] + q[i + 1..];
    assert q' == q[..i] + [e] + q[i + 1..];
    UnlockedConcat(q[..i] + [q[i]], q[i + 1..], tradeLock, now);
    UnlockedConcat(q[..i], [q[i]], tradeLock, now);
    UnlockedConcat(q[..i] + [e], q[i + 1..], tradeLock, now);
    UnlockedConcat(q[..i], [e], tradeLock, now);
    assert Unlocked([q[i]], tradeLock, now) == [] + Unlocked([q[i]][1..], tradeLock, now);
    assert Unlocked([e], tradeLock, now) == [] + Unlocked([e][1..], tradeLock, now);
  }
}
