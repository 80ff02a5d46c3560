/** Funding a client's shortfall from the client's own pending withdrawals.

    A settlement that debits more than a client's free balance covers the
    rest from withdrawals that are still inside the trade lock, scanning the
    queue by index. The program has three copies of this scan: two read the
    entry with a bounds-checked lookup (`get_mut`), one in the legacy
    settlement with a fixed bound of five and one in the ledger with the
    queue's initial length as bound; the standalone copy indexes directly.
    All three remove an exhausted entry in place, which shifts the next entry
    onto the index just visited, so the scan never looks at that entry. */
module FundFromWithdrawal {
  import opened Errors
  import opened AccountState
  import opened WithdrawalQueue

  /** Outcome of a scan: the requested amount was drawn in full, or the scan
      ended short (with the record as it was left in memory), or the
      program aborted (an out-of-bounds index or a `u64` underflow). */
  datatype Draw = Funded(w: Withdrawals) | Short(w: Withdrawals) | Aborted

  datatype Taken = Taken(w: Withdrawals, drawn: nat)

  /** Draw up to `left` from the entry at `i`: an entry holding no more than
      `left` is used up and removed, a larger one is reduced by `left`. The
      active total falls by what was drawn; `None` when that subtraction
      would underflow. */
  function Take(w: Withdrawals, i: nat, left: nat): (r: Option<Taken>)
    requires i < |w.withdrawalQueue|
    ensures Sum(w.withdrawalQueue) <= w.activeWithdrawalsAmount ==> r.Some?
    ensures r.Some? ==>
      && r.value.drawn <= left
      && (r.value.drawn == left || r.value.drawn == w.withdrawalQueue[i].amount)
      && Sum(r.value.w.withdrawalQueue) + r.value.drawn == Sum(w.withdrawalQueue)
      && r.value.w.activeWithdrawalsAmount + r.value.drawn == w.activeWithdrawalsAmount
      && r.value.w.client == w.client
      && |r.value.w.withdrawalQueue| <= |w.withdrawalQueue|
  {
    var q := w.withdrawalQueue;
    var available := q[i].amount;
    var drawn := if available <= left then available else left;
    SumSplit(q, i);
    if w.activeWithdrawalsAmount < drawn then None
    else
      var q' := if available <= left then RemoveAt(q, i) else q[i := q[i].(amount := available - left)];
      if available <= left then
        SumRemoveAt(q, i);
        Some(Taken(Withdrawals(q', w.activeWithdrawalsAmount - drawn, w.client), drawn))
      else
        SumUpdate(q, i, q[i].(amount := available - left));
        Some(Taken(Withdrawals(q', w.activeWithdrawalsAmount - drawn, w.client), drawn))
  }

  /** Drawing from a trade-locked entry leaves every other entry that is not
      trade-locked where it was in the filtered order. */
  lemma TakeKeepsUnlocked(w: Withdrawals, i: nat, left: nat, tradeLock: int, now: int)
    requires i < |w.withdrawalQueue| && TradeLocked(w.withdrawalQueue[i], tradeLock, now)
    requires Take(w, i, left).Some?
    ensures Unlocked(Take(w, i, left).value.w.withdrawalQueue, tradeLock, now) == Unlocked(w.withdrawalQueue, tradeLock, now)
  {
    var q := w.withdrawalQueue;
    if q[i].amount <= left {
      UnlockedRemoveLocked(q, i, tradeLock, now);
    } else {
      UnlockedUpdateLocked(q, i, q[i].(amount := q[i].amount - left), tradeLock, now);
    }
  }

  /** The bounds-checked scan of both settlement paths, from index `index`
      up to (excluding) `bound`, having funded `funded` of `amount` so far. */
  function DrawFrom(w: Withdrawals, index: nat, bound: nat, amount: nat, funded: nat, tradeLock: int, now: int): (r: Draw)
    requires funded <= amount
    ensures Sum(w.withdrawalQueue) <= w.activeWithdrawalsAmount ==> !r.Aborted?
    ensures !r.Aborted? ==>
      && r.w.activeWithdrawalsAmount <= w.activeWithdrawalsAmount
      && Sum(r.w.withdrawalQueue) + (w.activeWithdrawalsAmount - r.w.activeWithdrawalsAmount) == Sum(w.withdrawalQueue)
      && r.w.client == w.client
      && |r.w.withdrawalQueue| <= |w.withdrawalQueue|
      && Unlocked(r.w.withdrawalQueue, tradeLock, now) == Unlocked(w.withdrawalQueue, tradeLock, now)
    ensures r.Funded? ==> w.activeWithdrawalsAmount - r.w.activeWithdrawalsAmount == amount - funded
    ensures r.Short? ==> w.activeWithdrawalsAmount - r.w.activeWithdrawalsAmount <= amount - funded
    ensures r.Short? && funded < amount ==> w.activeWithdrawalsAmount - r.w.activeWithdrawalsAmount < amount - funded
    decreases bound - index
  {
    if index >= bound then Short(w)
    else if index < |w.withdrawalQueue| && TradeLocked(w.withdrawalQueue[index], tradeLock, now) then
      match Take(w, index, amount - funded)
      case None => Aborted
      case Some(t) =>
        TakeKeepsUnlocked(w, index, amount - funded, tradeLock, now);
        if funded + t.drawn == amount then Funded(t.w)
        else DrawFrom(t.w, index + 1, bound, amount, funded + t.drawn, tradeLock, now)
    else DrawFrom(w, index + 1, bound, amount, funded, tradeLock, now)
  }

  /** The scan of the standalone helper: it indexes the queue directly, so an
      index past the shrunken queue aborts, and it tests for completion after
      every index, whether or not the entry was drawn from. */
  function DirectDrawFrom(w: Withdrawals, index: nat, bound: nat, amount: nat, funded: nat, tradeLock: int, now: int): (r: Draw)
    requires funded <= amount
    ensures !r.Aborted? ==>
      && r.w.activeWithdrawalsAmount <= w.activeWithdrawalsAmount
      && Sum(r.w.withdrawalQueue) + (w.activeWithdrawalsAmount - r.w.activeWithdrawalsAmount) == Sum(w.withdrawalQueue)
      && r.w.client == w.client
      && |r.w.withdrawalQueue| <= |w.withdrawalQueue|
      && Unlocked(r.w.withdrawalQueue, tradeLock, now) == Unlocked(w.withdrawalQueue, tradeLock, now)
    ensures r.Funded? ==> w.activeWithdrawalsAmount - r.w.activeWithdrawalsAmount == amount - funded
    ensures r.Short? ==> w.activeWithdrawalsAmount - r.w.activeWithdrawalsAmount < amount - funded || (funded == amount && index >= bound)
    decreases bound - index
  {
    if index >= bound then Short(w)
    else if index >= |w.withdrawalQueue| then Aborted
    else if TradeLocked(w.withdrawalQueue[index], tradeLock, now) then
      match Take(w, index, amount - funded)
      case None => Aborted
      case Some(t) =>
        TakeKeepsUnlocked(w, index, amount - funded, tradeLock, now);
        if funded + t.drawn == amount then Funded(t.w)
        else DirectDrawFrom(t.w, index + 1, bound, amount, funded + t.drawn, tradeLock, now)
    else if funded == amount then Funded(w)
    else DirectDrawFrom(w, index + 1, bound, amount, funded, tradeLock, now)
  }

  /** Whatever a scan draws comes out of trade-locked entries only, so it can
      complete only when those entries hold at least the outstanding amount. */
  lemma DrawFundedWithinLocked(w: Withdrawals, index: nat, bound: nat, amount: nat, funded: nat, tradeLock: int, now: int)
    requires funded <= amount
    ensures DrawFrom(w, index, bound, amount, funded, tradeLock, now).Funded? ==>
      amount - funded <= Sum(Locked(w.withdrawalQueue, tradeLock, now))
    ensures DirectDrawFrom(w, index, bound, amount, funded, tradeLock, now).Funded? ==>
      amount - funded <= Sum(Locked(w.withdrawalQueue, tradeLock, now))
  {
    var r := DrawFrom(w, index, bound, amount, funded, tradeLock, now);
    var d := DirectDrawFrom(w, index, bound, amount, funded, tradeLock, now);
    SumLockedUnlocked(w.withdrawalQueue, tradeLock, now);
    if r.Funded? {
      SumLockedUnlocked(r.w.withdrawalQueue, tradeLock, now);
    }
    if d.Funded? {
      SumLockedUnlocked(d.w.withdrawalQueue, tradeLock, now);
    }
  }

  /** From an index at or past the end of the queue the bounds-checked scan
      finds nothing and changes nothing. */
  lemma {:induction false} DrawPastEnd(w: Withdrawals, index: nat, bound: nat, amount: nat, funded: nat, tradeLock: int, now: int)
    requires funded <= amount && index >= |w.withdrawalQueue|
    ensures DrawFrom(w, index, bound, amount, funded, tradeLock, now) == Short(w)
    decreases bound - index
  {
    if index < bound {
      DrawPastEnd(w, index + 1, bound, amount, funded, tradeLock, now);
    }
  }

  /** The legacy scan (bound five) and the ledger scan (bound: the queue's
      length) agree on every queue within the capacity limit: raising the
      bound above the queue's length changes nothing. */
  lemma {:induction false} DrawBoundIrrelevant(w: Withdrawals, index: nat, b1: nat, b2: nat, amount: nat, funded: nat, tradeLock: int, now: int)
    requires funded <= amount && |w.withdrawalQueue| <= b1 <= b2
    ensures DrawFrom(w, index, b1, amount, funded, tradeLock, now) == DrawFrom(w, index, b2, amount, funded, tradeLock, now)
    decreases b1 - index
  {
    if index >= b1 {
      DrawPastEnd(w, index, b2, amount, funded, tradeLock, now);
    } else if index < |w.withdrawalQueue| && TradeLocked(w.withdrawalQueue[index], tradeLock, now) {
      var t := Take(w, index, amount - funded);
      if t.Some? && funded + t.value.drawn != amount {
        DrawBoundIrrelevant(t.value.w, index + 1, b1, b2, amount, funded + t.value.drawn, tradeLock, now);
      }
    } else {
      DrawBoundIrrelevant(w, index + 1, b1, b2, amount, funded, tradeLock, now);
    }
  }

  /** Where the standalone scan does not abort and something is still owed,
      it computes exactly what the bounds-checked scan computes. */
  lemma {:induction false} DirectAgreesUnlessAborted(w: Withdrawals, index: nat, bound: nat, amount: nat, funded: nat, tradeLock: int, now: int)
    requires funded < amount
    requires !DirectDrawFrom(w, index, bound, amount, funded, tradeLock, now).Aborted?
    ensures DirectDrawFrom(w, index, bound, amount, funded, tradeLock, now) == DrawFrom(w, index, bound, amount, funded, tradeLock, now)
    decreases bound - index
  {
    if index < bound {
      if TradeLocked(w.withdrawalQueue[index], tradeLock, now) {
        var t := Take(w, index, amount - funded);
        if funded + t.value.drawn != amount {
          DirectAgreesUnlessAborted(t.value.w, index + 1, bound, amount, funded + t.value.drawn, tradeLock, now);
        }
      } else {
        DirectAgreesUnlessAborted(w, index + 1, bound, amount, funded, tradeLock, now);
      }
    }
  }

  /** The skip after a removal: two trade-locked entries of 1 together cover a
      shortfall of 2, yet both scans use only the first. The bounds-checked
      scans come up short; the standalone scan aborts on the shifted index. */
  lemma RemovalSkipsNextEntry()
    ensures
      var e := WithdrawalState(1, 100);
      var w := Withdrawals([e, e], 2, 7);
      && Sum(Locked(w.withdrawalQueue, 0, 0)) == 2
      && DrawFrom(w, 0, 5, 2, 0, 0, 0).Short?
      && DrawFrom(w, 0, |w.withdrawalQueue|, 2, 0, 0, 0).Short?
      && DirectDrawFrom(w, 0, |w.withdrawalQueue|, 2, 0, 0, 0).Aborted?
  {
    var e := WithdrawalState(1, 100);
    var w := Withdrawals([e, e], 2, 7);
    assert [e, e][1..] == [e];
    assert Locked([e], 0, 0) == [e];
    assert Locked([e, e], 0, 0) == [e, e];
    assert Sum([e]) == 1 + Sum([e][1..]);
    assert RemoveAt([e, e], 0) == [e];
    var w1 := Withdrawals([e], 1, 7);
    assert Take(w, 0, 2) == Some(Taken(w1, 1));
    DrawPastEnd(w1, 1, 5, 2, 1, 0, 0);
    DrawPastEnd(w1, 1, 2, 2, 1, 0, 0);
  }

  /** The standalone scan's completion test runs even on an untouched entry:
      asked for nothing it reports success on any non-empty queue without
      drawing, but reports failure on an empty one. */
  lemma DirectZeroAmount(w: Withdrawals, tradeLock: int, now: int)
    ensures |w.withdrawalQueue| > 0 && !TradeLocked(w.withdrawalQueue[0], tradeLock, now) ==>
      DirectDrawFrom(w, 0, |w.withdrawalQueue|, 0, 0, tradeLock, now) == Funded(w)
    ensures |w.withdrawalQueue| == 0 ==> DirectDrawFrom(w, 0, |w.withdrawalQueue|, 0, 0, tradeLock, now) == Short(w)
  {
  }
}
