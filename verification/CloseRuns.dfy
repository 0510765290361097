/** What the close protocol guarantees over every interleaving, and how each transaction is
    accounted for (src/pg_tx.rs:68-222, src/transaction.rs:285-298, 1087-1123). */
module CloseRuns {
  import opened Wrappers
  import opened CloseProtocol

  function RunAll(s: TxState, actions: seq<Action>): TxState
    decreases |actions|
  {
    if actions == [] then s else RunAll(Next(s, actions[0]).0, actions[1..])
  }

  lemma {:induction false} RunInv(s: TxState, actions: seq<Action>)
    requires Inv(s)
    ensures Inv(RunAll(s, actions))
    decreases |actions|
  {
    if actions != [] {
      StepInv(s, actions[0]);
      RunInv(Next(s, actions[0]).0, actions[1..]);
    }
  }

  /** Under any interleaving of any number of callers: the wire carries statements followed by
      at most one COMMIT or ROLLBACK and nothing after it; as soon as any closer has returned,
      exactly one closer has won; the winner gets the server's answer to its own command, and
      every other closer that returns gets `TransactionFinished`; and once `done` is set and the
      lock is free, the inner transaction is gone, while it is never gone from a live value
      without `done`. */
  lemma CloseIsExclusive(write: bool, actions: seq<Action>)
    ensures var s := RunAll(Fresh(write), actions);
            && (forall n | 0 <= n < |s.wire| - 1 :: s.wire[n].Statement?)
            && (forall i | i in s.callers && Closer(s.callers[i].kind) && s.callers[i].pc.Returned? :: s.winner.Some?)
            && (s.winner.Some? ==> s.winner.value in s.callers && Closer(s.callers[s.winner.value].kind))
            && (forall i | i in s.callers && Closer(s.callers[i].kind) && s.callers[i].pc.Returned?
                 && s.winner != Some(i) ::
                  s.callers[i].pc.result == Finished)
            && (forall i | i in s.callers && Closer(s.callers[i].kind) && s.callers[i].pc.Returned?
                 && s.winner == Some(i) ::
                  s.callers[i].pc.result != Finished && |s.wire| > 0 && s.wire[|s.wire| - 1] == End(s.callers[i].kind))
            && (s.done && s.holder.None? ==> !s.inner)
            && (!s.inner && s.life.InUse? ==> s.done)
            && (s.done <==> s.winner.Some?)
  {
    FreshInv(write);
    RunInv(Fresh(write), actions);
    var s := RunAll(Fresh(write), actions);
    assert KindInv(s) && WireInv(s) && InnerInv(s) && WinnerInv(s) && LockInv(s);
  }

  /** `done` does not mean that the connection is released: it is still held exactly while the
      winning closer stands anywhere between its swap and the moment the server's answer has
      been counted out, first in the mutex, then in the winner's own hands. */
  lemma DoneWindow(write: bool, actions: seq<Action>)
    ensures var s := RunAll(Fresh(write), actions);
            s.done ==>
              && s.winner.Some? && s.winner.value in s.callers
              && (HoldsConnection(s) <==> !s.life.Dropped? && BeforeRelease(s.callers[s.winner.value].pc))
              && (s.inner <==> !s.life.Dropped? && s.callers[s.winner.value].pc.Claimed?)
  {
    FreshInv(write);
    RunInv(Fresh(write), actions);
    var s := RunAll(Fresh(write), actions);
    assert WinnerInv(s) && InnerInv(s);
  }

  predicate BeforeRelease(pc: Pc)
  {
    pc.Claimed? || pc.Taken? || pc.Unlocked? || pc.Sent? || pc.Answered?
  }

  /** A single commit with nobody else around. */
  const LONE_COMMIT := [Enter(0, Committing), FastCheck(0), Acquire(0), Test(0), Take(0), Unlock(0), SendEnd(0)]

  /** The caller's position after each step of that commit. */
  const LONE_PCS := [Called, Queued, Locked, Claimed, Taken, Unlocked, Sent]

  lemma {:induction false} RunOneMore(s: TxState, actions: seq<Action>, last: Action)
    ensures RunAll(s, actions + [last]) == Next(RunAll(s, actions), last).0
    decreases |actions|
  {
    if actions == [] {
      assert (actions + [last])[1..] == [];
    } else {
      assert (actions + [last])[1..] == actions[1..] + [last];
      RunOneMore(Next(s, actions[0]).0, actions[1..], last);
    }
  }

  /** The state after the first `n` steps. */
  predicate LoneAt(s: TxState, write: bool, n: nat)
    requires 1 <= n <= 7
  {
    && s.callers == map[0 := Caller(Committing, LONE_PCS[n - 1])] && s.write == write && s.life.InUse?
    && s.done == (n >= 4) && s.inner == (n < 5) && s.holder == (if 3 <= n <= 5 then Some(0) else None)
    && s.winner == (if n >= 4 then Some(0) else None)
  }

  lemma LoneStep(s: TxState, write: bool, n: nat)
    requires 1 <= n < 7 && LoneAt(s, write, n)
    ensures LoneAt(Next(s, LONE_COMMIT[n]).0, write, n + 1)
  {
    assert s.callers[0].kind == Committing;
    assert s.callers[0 := Caller(Committing, LONE_PCS[n])] == map[0 := Caller(Committing, LONE_PCS[n])];
  }

  lemma LoneStart(write: bool)
    ensures LoneAt(Next(Fresh(write), LONE_COMMIT[0]).0, write, 1)
  {
    assert map[][0 := Caller(Committing, Called)] == map[0 := Caller(Committing, Called)];
  }

  lemma {:induction false} LoneCommit(write: bool, n: nat)
    requires 1 <= n <= 7
    ensures LoneAt(RunAll(Fresh(write), LONE_COMMIT[..n]), write, n)
  {
    var actions := LONE_COMMIT;
    assert actions[..n] == actions[..n - 1] + [actions[n - 1]];
    RunOneMore(Fresh(write), actions[..n - 1], actions[n - 1]);
    if n == 1 {
      assert actions[..0] == [];
      LoneStart(write);
    } else {
      LoneCommit(write, n - 1);
      LoneStep(RunAll(Fresh(write), actions[..n - 1]), write, n - 1);
    }
  }

  /** Both halves of the window are reached by a lone commit: `done` with the connection still in
      the mutex, and `done` with the lock free and the connection awaiting the answer. */
  lemma DoneWindowReached(write: bool)
    ensures var s := RunAll(Fresh(write), LONE_COMMIT[..4]);
            s.done && s.inner && s.holder == Some(0) && HoldsConnection(s)
    ensures var s := RunAll(Fresh(write), LONE_COMMIT);
            s.done && !s.inner && s.holder.None? && HoldsConnection(s) && !IsReleased(s)
  {
    LoneCommit(write, 4);
    LoneCommit(write, 7);
    assert LONE_COMMIT[..7] == LONE_COMMIT;
  }

  predicate StaysDone(s: TxState, a: Action)
  {
    var s' := Next(s, a).0;
    && s'.done && s'.winner == s.winner
    && (s'.wire == s.wire
        || (a.SendEnd? && s.winner == Some(a.id) && s'.wire == s.wire + [End(s.callers[a.id].kind)]))
  }

  lemma SendsWhenDone(s: TxState, a: Action)
    requires Inv(s) && s.done && (a.Run? || a.SendEnd?)
    ensures StaysDone(s, a)
  {
    assert forall i | i in s.callers :: !s.callers[i].pc.Working?;
  }

  lemma QuietWhenDone(s: TxState, a: Action)
    requires s.done && !a.Run? && !a.SendEnd?
    ensures var s' := Next(s, a).0;
            s'.done && s'.winner == s.winner && s'.wire == s.wire
  {
  }

  lemma StepWhenDone(s: TxState, a: Action)
    requires Inv(s) && s.done
    ensures StaysDone(s, a)
  {
    if a.Run? || a.SendEnd? {
      SendsWhenDone(s, a);
    } else {
      QuietWhenDone(s, a);
    }
  }

  lemma {:induction false} OnlyEndsAdded(s: TxState, actions: seq<Action>)
    requires Inv(s) && s.done
    ensures var t := RunAll(s, actions);
            && t.done && t.winner == s.winner
            && s.wire <= t.wire && forall n | |s.wire| <= n < |t.wire| :: t.wire[n].End?
    decreases |actions|
  {
    if actions != [] {
      StepInv(s, actions[0]);
      StepWhenDone(s, actions[0]);
      OnlyEndsAdded(Next(s, actions[0]).0, actions[1..]);
    }
  }

  /** Once `done` is set no further statement is ever sent: the rest of the run adds to the wire
      nothing but the winner's own terminal command, once. */
  lemma NothingAfterDone(s: TxState, actions: seq<Action>)
    requires Inv(s) && s.done
    ensures var t := RunAll(s, actions);
            && t.done && t.winner == s.winner
            && (t.wire == s.wire || (t.winner.value in t.callers
                 && t.wire == s.wire + [End(t.callers[t.winner.value].kind)]))
  {
    OnlyEndsAdded(s, actions);
    RunInv(s, actions);
    AtMostOneEnd(s.wire, RunAll(s, actions));
  }

  lemma AtMostOneEnd(before: seq<Wire>, t: TxState)
    requires WireInv(t) && t.done && before <= t.wire && forall n | |before| <= n < |t.wire| :: t.wire[n].End?
    ensures t.wire == before
            || (t.winner.Some? && t.winner.value in t.callers
                && t.wire == before + [End(t.callers[t.winner.value].kind)])
  {
    if |t.wire| > |before| {
      assert t.wire[|before|].End?;
      assert t.wire == before + [t.wire[|before|]];
    }
  }

  /** Calls that have not yet passed the fast check when `done` is set get nowhere. */
  predicate TurnedAway(pc: Pc)
  {
    pc.Called? || pc == Returned(Finished) || pc.Abandoned?
  }

  lemma {:induction false} LateCallsFinish(s: TxState, actions: seq<Action>, id: nat)
    requires Inv(s) && s.done && (id !in s.callers || TurnedAway(s.callers[id].pc))
    ensures id in RunAll(s, actions).callers ==> TurnedAway(RunAll(s, actions).callers[id].pc)
    decreases |actions|
  {
    if actions != [] {
      var s1 := Next(s, actions[0]).0;
      StepInv(s, actions[0]);
      StepWhenDone(s, actions[0]);
      OthersStay(s, actions[0], id);
      LateCallsFinish(s1, actions[1..], id);
    }
  }

  lemma OthersStay(s: TxState, a: Action, id: nat)
    requires s.done && (id !in s.callers || TurnedAway(s.callers[id].pc))
    ensures id in Next(s, a).0.callers ==> TurnedAway(Next(s, a).0.callers[id].pc)
  {
  }

  // ---- accounting --------------------------------------------------------------------------

  function WinnerPc(s: TxState): Pc
  {
    if s.winner.Some? && s.winner.value in s.callers then s.callers[s.winner.value].pc else Called
  }

  /** COMMIT was answered Ok and counted. */
  predicate IsCommitted(s: TxState)
  {
    WinnerPc(s) == Returned(Succeeded) && s.callers[s.winner.value].kind.Committing?
  }

  /** Counted as rolled back: cancelled, failed to commit or cancel, or dropped unfinished. */
  predicate IsRolledBack(s: TxState)
  {
    if s.winner.Some? then WinnerPc(s).Returned? && !IsCommitted(s) else !s.life.InUse?
  }

  /** The terminal call was dropped while it awaited the server's answer. */
  predicate IsLost(s: TxState)
  {
    WinnerPc(s).AbandonedEnd?
  }

  /** Its share of `tx_active` has been given back. */
  predicate IsReleased(s: TxState)
  {
    if s.winner.Some? then WinnerPc(s).Released? || WinnerPc(s).Returned? || WinnerPc(s).AbandonedEnd?
      else s.life.Dropped?
  }

  predicate Flips(before: bool, after: bool, count: nat)
  {
    count == (if after && !before then 1 else 0) && (before ==> after)
  }

  /** Every counter is bumped exactly when its fact becomes true, and facts stay true: nothing
      is counted twice, whether the guard or `Drop` does it. */
  lemma CountedExactlyOnce(s: TxState, a: Action)
    requires Inv(s)
    ensures Accounted(s, Next(s, a).0, Next(s, a).1)
  {
    if Enabled(s, a) {
      if a.ReleaseActive? || a.CountResult? {
        CountingStep(s, a);
      } else if a.DropBody? || a.DropFields? {
        DroppingStep(s, a);
      } else if a.Test? {
        TestNotCounted(s, a.id);
      } else if UnderGuard(a) {
        GuardedNotCounted(s, a);
      } else if a.Abandon? {
        AbandonStep(s, a.id);
      } else {
        UnguardedNotCounted(s, a);
      }
    }
  }

  lemma CountingStep(s: TxState, a: Action)
    requires Inv(s) && Enabled(s, a) && (a.ReleaseActive? || a.CountResult?)
    ensures Accounted(s, Next(s, a).0, Next(s, a).1)
  {
    assert Closer(s.callers[a.id].kind) && s.winner == Some(a.id);
  }

  lemma DroppingStep(s: TxState, a: Action)
    requires Inv(s) && Enabled(s, a) && (a.DropBody? || a.DropFields?)
    ensures Accounted(s, Next(s, a).0, Next(s, a).1)
  {
    if s.winner.Some? {
      assert IsEnded(s.callers[s.winner.value].pc);
    }
  }

  lemma TestNotCounted(s: TxState, id: nat)
    requires Inv(s) && At(s, id, Locked)
    ensures Accounted(s, NextTest(s, id), NO_EFFECT)
  {
    assert s.winner != Some(id) && s.life.InUse?;
  }

  lemma AbandonStep(s: TxState, id: nat)
    requires Inv(s) && Enabled(s, Abandon(id))
    ensures Accounted(s, NextAbandon(s, id).0, NextAbandon(s, id).1)
  {
    if s.callers[id].pc.Sent? {
      assert Closer(s.callers[id].kind) && s.winner == Some(id);
    } else {
      assert s.winner != Some(id);
    }
  }

  predicate Accounted(s: TxState, s': TxState, e: Effect)
  {
    && Flips(IsCommitted(s), IsCommitted(s'), e.committed)
    && Flips(IsRolledBack(s), IsRolledBack(s'), e.rolledBack)
    && Flips(IsReleased(s), IsReleased(s'), e.released)
    && (IsLost(s) ==> IsLost(s'))
  }

  lemma GuardedNotCounted(s: TxState, a: Action)
    requires Inv(s) && Enabled(s, a) && (a.Run? || a.Leave? || a.Take? || a.Unlock?)
    ensures Accounted(s, Next(s, a).0, Next(s, a).1)
  {
    assert HoldsGuard(s.callers[a.id].pc) && s.holder == Some(a.id);
    assert a.Leave? ==> s.winner != Some(a.id);
  }

  lemma UnguardedNotCounted(s: TxState, a: Action)
    requires Inv(s) && Enabled(s, a)
    requires a.Enter? || a.FastCheck? || a.Acquire? || a.SendEnd? || a.Answer?
    ensures Accounted(s, Next(s, a).0, Next(s, a).1)
  {
    assert a.Enter? || a.FastCheck? || a.Acquire? ==> s.winner != Some(a.id);
  }

  /** A dropped transaction was settled in exactly one way and has given back its share of
      `tx_active`; it is missing from both result counters exactly if its terminal call was
      dropped while awaiting the answer. */
  lemma DroppedMeansSettled(s: TxState)
    requires Inv(s) && s.life.Dropped?
    ensures IsReleased(s)
    ensures IsCommitted(s) || IsRolledBack(s) || IsLost(s)
    ensures !(IsCommitted(s) && IsRolledBack(s)) && (IsLost(s) <==> !IsCommitted(s) && !IsRolledBack(s))
  {
    if s.winner.Some? {
      assert IsEnded(s.callers[s.winner.value].pc) && HasWon(s.callers[s.winner.value].pc);
    }
  }

  /** A connection that `tx_active` counts: in the mutex, or in the winner's hands until the
      guard that follows the terminal answer has counted it out. */
  predicate HoldsConnection(s: TxState)
  {
    s.inner || WinnerPc(s).Taken? || WinnerPc(s).Unlocked? || WinnerPc(s).Sent? || WinnerPc(s).Answered?
  }

  /** The share of `tx_active` is given back exactly when the connection is no longer held. */
  lemma ReleasedExactlyWithoutConnection(s: TxState)
    requires Inv(s)
    ensures IsReleased(s) <==> !HoldsConnection(s)
  {
    if s.winner.Some? {
      assert Closer(s.callers[s.winner.value].kind) && HasWon(s.callers[s.winner.value].pc);
    }
  }

  /** The lone commit, given up while it awaits the answer, and the value dropped. */
  const LOST_COMMIT: seq<Action> := LONE_COMMIT + [Abandon(0), DropBody, DropFields]

  lemma GivenUpAndDropped(s: TxState)
    requires s.callers == map[0 := Caller(Committing, Sent)] && s.winner == Some(0) && s.life.InUse?
    ensures var s' := Next(Next(Next(s, Abandon(0)).0, DropBody).0, DropFields).0;
            IsLost(s') && s'.life.Dropped?
  {
    var s1 := Next(s, Abandon(0)).0;
    assert s1.callers.Keys == {0} && s1.callers[0] == Caller(Committing, AbandonedEnd);
    assert Enabled(s1, DropBody);
  }

  lemma ThreeMore(s: TxState, actions: seq<Action>, a: Action, b: Action, c: Action)
    ensures RunAll(s, actions + [a, b, c]) == Next(Next(Next(RunAll(s, actions), a).0, b).0, c).0
  {
    RunOneMore(s, actions, a);
    RunOneMore(s, actions + [a], b);
    RunOneMore(s, actions + [a] + [b], c);
    assert actions + [a, b, c] == actions + [a] + [b] + [c];
  }

  lemma LostCommit(write: bool)
    ensures var s := RunAll(Fresh(write), LOST_COMMIT);
            IsLost(s) && s.life.Dropped?
  {
    var actions := LONE_COMMIT;
    assert actions[..7] == actions;
    LoneCommit(write, 7);
    ThreeMore(Fresh(write), actions, Abandon(0), DropBody, DropFields);
    GivenUpAndDropped(RunAll(Fresh(write), actions));
  }

  // ---- totals ------------------------------------------------------------------------------

  /** What a run adds to the shared counters. */
  function Total(s: TxState, actions: seq<Action>): Effect
    decreases |actions|
  {
    if actions == [] then NO_EFFECT else
      var (s', e) := Next(s, actions[0]);
      var rest := Total(s', actions[1..]);
      Effect(e.committed + rest.committed, e.rolledBack + rest.rolledBack, e.released + rest.released)
  }

  lemma {:induction false} TotalOneMore(s: TxState, actions: seq<Action>, last: Action)
    ensures var before := Total(s, actions);
            var e := Next(RunAll(s, actions), last).1;
            Total(s, actions + [last]) ==
            Effect(before.committed + e.committed, before.rolledBack + e.rolledBack, before.released + e.released)
    decreases |actions|
  {
    if actions == [] {
      assert (actions + [last])[1..] == [];
    } else {
      assert (actions + [last])[1..] == actions[1..] + [last];
      TotalOneMore(Next(s, actions[0]).0, actions[1..], last);
    }
  }

  /** Over its whole life a transaction adds to each counter at most once, to the two result
      counters at most once together, and once dropped it has been released exactly once. */
  lemma TotalsAre(write: bool, actions: seq<Action>)
    ensures var s, total := RunAll(Fresh(write), actions), Total(Fresh(write), actions);
            && total.committed == (if IsCommitted(s) then 1 else 0)
            && total.rolledBack == (if IsRolledBack(s) then 1 else 0)
            && total.released == (if IsReleased(s) then 1 else 0)
            && total.committed + total.rolledBack <= 1
            && (s.life.Dropped? ==> total.released == 1)
  {
    FreshInv(write);
    TotalFrom(Fresh(write), actions);
    RunInv(Fresh(write), actions);
    var s := RunAll(Fresh(write), actions);
    if s.life.Dropped? {
      DroppedMeansSettled(s);
    }
  }

  lemma {:induction false} TotalFrom(s: TxState, actions: seq<Action>)
    requires Inv(s)
    ensures var s', total := RunAll(s, actions), Total(s, actions);
            && Flips(IsCommitted(s), IsCommitted(s'), total.committed)
            && Flips(IsRolledBack(s), IsRolledBack(s'), total.rolledBack)
            && Flips(IsReleased(s), IsReleased(s'), total.released)
    decreases |actions|
  {
    if actions != [] {
      var s1 := Next(s, actions[0]).0;
      CountedExactlyOnce(s, actions[0]);
      StepInv(s, actions[0]);
      TotalFrom(s1, actions[1..]);
    }
  }

  // ---- a close that nothing disturbs -----------------------------------------------------------

  /** The ten steps of a closer, from its call to its result. */
  function ClosingAction(id: nat, kind: Kind, ok: bool, n: nat): Action
  {
    match n
    case 0 => Enter(id, kind)
    case 1 => FastCheck(id)
    case 2 => Acquire(id)
    case 3 => Test(id)
    case 4 => Take(id)
    case 5 => Unlock(id)
    case 6 => SendEnd(id)
    case 7 => Answer(id, ok)
    case 8 => ReleaseActive(id)
    case _ => CountResult(id)
  }

  /** Where the closer stands after `n` of them. */
  function ClosingPc(ok: bool, n: nat): Pc
  {
    match n
    case 1 => Called
    case 2 => Queued
    case 3 => Locked
    case 4 => Claimed
    case 5 => Taken
    case 6 => Unlocked
    case 7 => Sent
    case 8 => Answered(ok)
    case 9 => Released(ok)
    case _ => Returned(if ok then Succeeded else Failed)
  }

  /** The value after `n` steps of a closer that starts from `s`. */
  function Closing(s: TxState, id: nat, kind: Kind, ok: bool, n: nat): TxState
  {
    if n == 0 then s else
      s.(callers := s.callers[id := Caller(kind, ClosingPc(ok, n))],
         done := n >= 4,
         winner := if n >= 4 then Some(id) else s.winner,
         inner := n < 5,
         holder := if 3 <= n <= 5 then Some(id) else None,
         wire := if n >= 7 then s.wire + [End(kind)] else s.wire)
  }

  /** Nobody has closed the value or holds its lock, and the name is free. */
  predicate Quiet(s: TxState, id: nat)
  {
    s.life.InUse? && !s.done && s.inner && s.holder.None? && id !in s.callers
  }

  function ClosingEffect(kind: Kind, ok: bool, n: nat): Effect
  {
    if n == 8 then Effect(0, 0, 1)
    else if n == 9 then (if ok && kind.Committing? then Effect(1, 0, 0) else Effect(0, 1, 0))
    else NO_EFFECT
  }

  lemma ClosingBegins(s: TxState, id: nat, kind: Kind, ok: bool, n: nat)
    requires Quiet(s, id) && Closer(kind) && n < 5
    ensures Next(Closing(s, id, kind, ok, n), ClosingAction(id, kind, ok, n))
         == (Closing(s, id, kind, ok, n + 1), NO_EFFECT)
  {
    var was, now := Caller(kind, ClosingPc(ok, n)), Caller(kind, ClosingPc(ok, n + 1));
    assert s.callers[id := was][id := now] == s.callers[id := now];
  }

  lemma ClosingEnds(s: TxState, id: nat, kind: Kind, ok: bool, n: nat)
    requires Quiet(s, id) && Closer(kind) && 5 <= n < 10
    ensures Next(Closing(s, id, kind, ok, n), ClosingAction(id, kind, ok, n))
         == (Closing(s, id, kind, ok, n + 1), ClosingEffect(kind, ok, n))
  {
    var was, now := Caller(kind, ClosingPc(ok, n)), Caller(kind, ClosingPc(ok, n + 1));
    assert s.callers[id := was][id := now] == s.callers[id := now];
  }

  lemma ClosingStep(s: TxState, id: nat, kind: Kind, ok: bool, n: nat)
    requires Quiet(s, id) && Closer(kind) && n < 10
    ensures Next(Closing(s, id, kind, ok, n), ClosingAction(id, kind, ok, n))
         == (Closing(s, id, kind, ok, n + 1), ClosingEffect(kind, ok, n))
  {
    if n < 5 {
      ClosingBegins(s, id, kind, ok, n);
    } else {
      ClosingEnds(s, id, kind, ok, n);
    }
  }

  function ClosingActions(id: nat, kind: Kind, ok: bool, n: nat): (actions: seq<Action>)
    ensures |actions| == n && forall i | 0 <= i < n :: actions[i] == ClosingAction(id, kind, ok, i)
  {
    seq(n, i requires 0 <= i < n => ClosingAction(id, kind, ok, i))
  }

  lemma OneMoreClosing(id: nat, kind: Kind, ok: bool, n: nat)
    requires n > 0
    ensures ClosingActions(id, kind, ok, n)
         == ClosingActions(id, kind, ok, n - 1) + [ClosingAction(id, kind, ok, n - 1)]
  {
  }

  lemma {:induction false} ClosingRuns(s: TxState, id: nat, kind: Kind, ok: bool, n: nat)
    requires Quiet(s, id) && Closer(kind) && n <= 10
    ensures RunAll(s, ClosingActions(id, kind, ok, n)) == Closing(s, id, kind, ok, n)
  {
    if n > 0 {
      ClosingRuns(s, id, kind, ok, n - 1);
      ClosingStep(s, id, kind, ok, n - 1);
      RunOneMore(s, ClosingActions(id, kind, ok, n - 1), ClosingAction(id, kind, ok, n - 1));
      OneMoreClosing(id, kind, ok, n);
    }
  }

  /** The same ten steps, as a list. */
  function AllClosing(id: nat, kind: Kind, ok: bool): seq<Action>
  {
    [Enter(id, kind), FastCheck(id), Acquire(id), Test(id), Take(id), Unlock(id),
     SendEnd(id), Answer(id, ok), ReleaseActive(id), CountResult(id)]
  }

  lemma AllClosingIs(id: nat, kind: Kind, ok: bool)
    ensures ClosingActions(id, kind, ok, 10) == AllClosing(id, kind, ok)
  {
  }

  lemma QuietRun(write: bool, before: seq<Action>, id: nat)
    requires var s := RunAll(Fresh(write), before);
             s.life.InUse? && !s.done && s.holder.None? && id !in s.callers
    ensures var s := RunAll(Fresh(write), before);
            Inv(s) && Quiet(s, id) && s.winner.None?
  {
    FreshInv(write);
    RunInv(Fresh(write), before);
    var s := RunAll(Fresh(write), before);
    assert InnerInv(s) && WinnerInv(s);
  }

  /** Counted once, as what it is: nothing was counted before the close and all of it after. */
  lemma ClosingCounts(s: TxState, id: nat, kind: Kind, ok: bool, actions: seq<Action>)
    requires Inv(s) && Quiet(s, id) && s.winner.None? && Closer(kind)
    requires RunAll(s, actions) == Closing(s, id, kind, ok, 10)
    ensures Total(s, actions) == if kind.Committing? && ok then Effect(1, 0, 1) else Effect(0, 1, 1)
  {
    TotalFrom(s, actions);
    var s' := Closing(s, id, kind, ok, 10);
    assert WinnerPc(s') == Returned(if ok then Succeeded else Failed);
    assert !IsCommitted(s) && !IsRolledBack(s) && !IsReleased(s);
  }

  /** A commit or cancel that meets a value in use, unlocked and not closed always gets through:
      it takes the connection, sends its own command, returns the server's answer, and is counted
      as committed exactly for a COMMIT answered Ok, as rolled back for anything else. */
  lemma CloseGoesThrough(write: bool, before: seq<Action>, id: nat, kind: Kind, ok: bool)
    requires var s := RunAll(Fresh(write), before);
             s.life.InUse? && !s.done && s.holder.None? && id !in s.callers
    requires kind == Committing || kind == Cancelling
    ensures var s := RunAll(Fresh(write), before);
            var actions := AllClosing(id, kind, ok);
            var s' := RunAll(s, actions);
            && id in s'.callers && s'.callers[id].pc == Returned(if ok then Succeeded else Failed)
            && s'.wire == s.wire + [End(kind)] && s'.done && !s'.inner && s'.holder.None?
            && Total(s, actions) == if kind == Committing && ok then Effect(1, 0, 1) else Effect(0, 1, 1)
  {
    QuietRun(write, before, id);
    AllClosingIs(id, kind, ok);
    ClosingRuns(RunAll(Fresh(write), before), id, kind, ok, 10);
    ClosingCounts(RunAll(Fresh(write), before), id, kind, ok, AllClosing(id, kind, ok));
  }
}
