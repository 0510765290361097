/** The close protocol of one `PgTx` (src/pg_tx.rs:68-222): any number of concurrent callers,
    interleaved at every access to the shared `done` flag, the mutex, the guarded inner
    transaction, the wire and the counters. Futures may be dropped at their await points. */
module CloseProtocol {
  import opened Wrappers

  datatype Kind = Operation(writes: bool) | Committing | Cancelling

  /** Where a caller stands. Between `Locked` and `Unlocked` there is no await point. */
  datatype Pc =
    | Called              // about to read `done` without the lock
    | Queued              // waiting for the mutex
    | Locked              // holds the guard; about to test `inner` or swap `done`
    | Working             // an operation using the inner transaction under the guard
    | Claimed             // a closer whose swap found `done` false
    | Taken               // it has moved the transaction out of the mutex
    | Unlocked            // it has dropped the guard; terminal I/O not yet sent
    | Sent                // COMMIT or ROLLBACK sent, answer awaited
    | Answered(ok: bool)  // answer in, connection released
    | Released(ok: bool)  // `tx_active` decremented; result not yet counted
    | Returned(result: Outcome)
    | Abandoned           // future dropped before it had anything to undo
    | AbandonedEnd        // future dropped while awaiting the terminal answer

  datatype Outcome = Finished | ReadOnly | Succeeded | Failed

  datatype Caller = Caller(kind: Kind, pc: Pc)

  /** `id`: the caller that sent the statement. */
  datatype Wire = Statement(id: nat) | End(kind: Kind)

  /** `Dropping`: the body of `Drop` has run, the fields are still to be dropped. */
  datatype Life = InUse | Dropping | Dropped

  /** `winner` is history: the closer whose swap succeeded. */
  datatype TxState = TxState(
    write: bool,
    done: bool,
    inner: bool,
    holder: Option<nat>,
    callers: map<nat, Caller>,
    wire: seq<Wire>,
    winner: Option<nat>,
    life: Life)

  datatype Action =
    | Enter(id: nat, kind: Kind)
    | FastCheck(id: nat)
    | Acquire(id: nat)
    | Test(id: nat)
    | Run(id: nat)
    | Leave(id: nat, ok: bool)
    | Take(id: nat)
    | Unlock(id: nat)
    | SendEnd(id: nat)
    | Answer(id: nat, ok: bool)
    | ReleaseActive(id: nat)
    | CountResult(id: nat)
    | Abandon(id: nat)
    | DropBody
    | DropFields

  /** What a step adds to the shared counters. */
  datatype Effect = Effect(committed: nat, rolledBack: nat, released: nat)

  const NO_EFFECT := Effect(0, 0, 0)

  /** `PgTx::new` */
  function Fresh(write: bool): TxState
  {
    TxState(write, false, true, None, map[], [], None, InUse)
  }

  predicate IsEnded(pc: Pc)
  {
    pc.Returned? || pc.Abandoned? || pc.AbandonedEnd?
  }

  predicate At(s: TxState, id: nat, pc: Pc)
  {
    id in s.callers && s.callers[id].pc == pc
  }

  predicate Enabled(s: TxState, a: Action)
  {
    match a
    case Enter(id, _) => id !in s.callers && s.life.InUse?
    case FastCheck(id) => At(s, id, Called)
    case Acquire(id) => At(s, id, Queued) && s.holder.None?
    case Test(id) => At(s, id, Locked)
    case Run(id) => At(s, id, Working)
    case Leave(id, _) => At(s, id, Working)
    case Take(id) => At(s, id, Claimed)
    case Unlock(id) => At(s, id, Taken)
    case SendEnd(id) => At(s, id, Unlocked)
    case Answer(id, _) => At(s, id, Sent)
    case ReleaseActive(id) => id in s.callers && s.callers[id].pc.Answered?
    case CountResult(id) => id in s.callers && s.callers[id].pc.Released?
    case Abandon(id) => At(s, id, Called) || At(s, id, Queued) || At(s, id, Working) || At(s, id, Sent)
    case DropBody => s.life.InUse? && forall id | id in s.callers :: IsEnded(s.callers[id].pc)
    case DropFields => s.life.Dropping?
  }

  function Move(s: TxState, id: nat, pc: Pc): TxState
    requires id in s.callers
  {
    s.(callers := s.callers[id := s.callers[id].(pc := pc)])
  }

  function NextFastCheck(s: TxState, id: nat): TxState
    requires id in s.callers
  {
    if s.done then Move(s, id, Returned(Finished))
    else if s.callers[id].kind == Operation(true) && !s.write then Move(s, id, Returned(ReadOnly))
    else Move(s, id, Queued)
  }

  /** Under the guard: an operation looks for the inner transaction, a closer swaps `done`. */
  function NextTest(s: TxState, id: nat): TxState
    requires id in s.callers
  {
    if s.callers[id].kind.Operation? then
      if s.inner then Move(s, id, Working) else Move(s, id, Returned(Finished)).(holder := None)
    else if s.done then Move(s, id, Returned(Finished)).(holder := None)
    else Move(s, id, Claimed).(done := true, winner := Some(id))
  }

  function NextAbandon(s: TxState, id: nat): (TxState, Effect)
    requires id in s.callers
  {
    var pc := s.callers[id].pc;
    if pc.Sent? then (Move(s, id, AbandonedEnd), Effect(0, 0, 1))
    else if pc.Working? then (Move(s, id, Abandoned).(holder := None), NO_EFFECT)
    else (Move(s, id, Abandoned), NO_EFFECT)
  }

  /** One atomic step and what it adds to the counters. A step that is not enabled is no step. */
  function Next(s: TxState, a: Action): (TxState, Effect)
  {
    if !Enabled(s, a) then (s, NO_EFFECT) else
    match a
    case Enter(id, kind) => (s.(callers := s.callers[id := Caller(kind, Called)]), NO_EFFECT)
    case FastCheck(id) => (NextFastCheck(s, id), NO_EFFECT)
    case Acquire(id) => (Move(s, id, Locked).(holder := Some(id)), NO_EFFECT)
    case Test(id) => (NextTest(s, id), NO_EFFECT)
    case Run(id) => (s.(wire := s.wire + [Statement(id)]), NO_EFFECT)
    case Leave(id, ok) => (Move(s, id, Returned(if ok then Succeeded else Failed)).(holder := None), NO_EFFECT)
    case Take(id) => (Move(s, id, Taken).(inner := false), NO_EFFECT)
    case Unlock(id) => (Move(s, id, Unlocked).(holder := None), NO_EFFECT)
    case SendEnd(id) => (Move(s, id, Sent).(wire := s.wire + [End(s.callers[id].kind)]), NO_EFFECT)
    case Answer(id, ok) => (Move(s, id, Answered(ok)), NO_EFFECT)
    case ReleaseActive(id) => (Move(s, id, Released(s.callers[id].pc.ok)), Effect(0, 0, 1))
    case CountResult(id) =>
      var ok := s.callers[id].pc.ok;
      (Move(s, id, Returned(if ok then Succeeded else Failed)),
       if ok && s.callers[id].kind.Committing? then Effect(1, 0, 0) else Effect(0, 1, 0))
    case Abandon(id) => NextAbandon(s, id)
    case DropBody => (s.(life := Dropping), Effect(0, if s.done then 0 else 1, 0))
    case DropFields => (s.(life := Dropped, inner := false), Effect(0, 0, if s.inner then 1 else 0))
  }

  // ---- the invariant -----------------------------------------------------------------------

  predicate HoldsGuard(pc: Pc)
  {
    pc.Locked? || pc.Working? || pc.Claimed? || pc.Taken?
  }

  /** Reached by a closer only through a successful swap. */
  predicate HasWon(pc: Pc)
  {
    pc.Claimed? || pc.Taken? || pc.Unlocked? || EndSent(pc)
  }

  predicate EndSent(pc: Pc)
  {
    || pc.Sent? || pc.Answered? || pc.Released? || pc.AbandonedEnd?
    || (pc.Returned? && (pc.result.Succeeded? || pc.result.Failed?))
  }

  predicate Closer(kind: Kind)
  {
    kind.Committing? || kind.Cancelling?
  }

  ghost predicate LockInv(s: TxState)
  {
    && (s.holder.Some? ==> s.holder.value in s.callers && HoldsGuard(s.callers[s.holder.value].pc))
    && (forall i | i in s.callers && HoldsGuard(s.callers[i].pc) :: s.holder == Some(i))
  }

  ghost predicate WinnerInv(s: TxState)
  {
    && (s.done <==> s.winner.Some?)
    && (s.winner.Some? ==>
          && s.winner.value in s.callers
          && Closer(s.callers[s.winner.value].kind) && HasWon(s.callers[s.winner.value].pc))
    && (forall i | i in s.callers && Closer(s.callers[i].kind) && HasWon(s.callers[i].pc) :: s.winner == Some(i))
  }

  ghost predicate KindInv(s: TxState)
  {
    && (forall i | i in s.callers && s.callers[i].kind.Operation? && HasWon(s.callers[i].pc) ::
         s.callers[i].pc.Returned?)
    && (forall i | i in s.callers && s.callers[i].pc.Working? :: s.callers[i].kind.Operation? && s.inner)
    && (forall i | i in s.callers && s.callers[i].kind == Operation(true) && !s.write ::
         s.callers[i].pc.Called? || IsEnded(s.callers[i].pc))
    && (forall i | i in s.callers && s.callers[i].pc == Returned(ReadOnly) ::
          s.callers[i].kind == Operation(true) && !s.write)
    && (forall i | i in s.callers && s.callers[i].pc == Returned(Finished) :: s.done)
  }

  /** The inner transaction is there until the winner has taken it or the value is dropped. */
  ghost predicate InnerInv(s: TxState)
  {
    && (s.inner <==>
          && !s.life.Dropped?
          && (s.winner.None? || (s.winner.value in s.callers && s.callers[s.winner.value].pc.Claimed?)))
    && (!s.life.InUse? ==> forall i | i in s.callers :: IsEnded(s.callers[i].pc))
  }

  /** Statements, then at most one terminal command, sent by the winner. */
  ghost predicate WireInv(s: TxState)
  {
    && (forall n | 0 <= n < |s.wire| - 1 :: s.wire[n].Statement?)
    && (|s.wire| > 0 && s.wire[|s.wire| - 1].End? <==>
          s.winner.Some? && s.winner.value in s.callers && EndSent(s.callers[s.winner.value].pc))
    && (|s.wire| > 0 && s.wire[|s.wire| - 1].End? ==> s.wire[|s.wire| - 1].kind == s.callers[s.winner.value].kind)
  }

  ghost predicate Inv(s: TxState)
  {
    LockInv(s) && WinnerInv(s) && KindInv(s) && InnerInv(s) && WireInv(s)
  }

  lemma FreshInv(write: bool)
    ensures Inv(Fresh(write))
  {
  }

  /** A step in which one caller moves on without touching anything shared. */
  lemma MoveKeeps(s: TxState, id: nat, pc: Pc)
    requires Inv(s) && id in s.callers
    requires var was := s.callers[id];
             && !IsEnded(was.pc) && !HoldsGuard(was.pc) && !HoldsGuard(pc)
             && (HasWon(pc) <==> HasWon(was.pc)) && (EndSent(pc) <==> EndSent(was.pc))
             && (pc == Returned(ReadOnly) ==> was.kind == Operation(true) && !s.write)
             && (pc == Returned(Finished) ==> s.done)
             && (pc.Queued? ==> !(was.kind == Operation(true) && !s.write))
    ensures Inv(Move(s, id, pc))
  {
  }

  lemma EnterKeeps(s: TxState, id: nat, kind: Kind)
    requires Inv(s) && id !in s.callers && s.life.InUse?
    ensures Inv(s.(callers := s.callers[id := Caller(kind, Called)]))
  {
  }

  lemma AcquireKeeps(s: TxState, id: nat)
    requires Inv(s) && At(s, id, Queued) && s.holder.None?
    ensures Inv(Move(s, id, Locked).(holder := Some(id)))
  {
  }

  lemma RefusedKeeps(s: TxState, id: nat)
    requires Inv(s) && At(s, id, Locked) && (s.done || !s.inner)
    ensures Inv(Move(s, id, Returned(Finished)).(holder := None))
  {
  }

  lemma AdmittedKeeps(s: TxState, id: nat)
    requires Inv(s) && At(s, id, Locked) && s.callers[id].kind.Operation? && s.inner
    ensures Inv(Move(s, id, Working))
  {
  }

  lemma SwapKeeps(s: TxState, id: nat)
    requires Inv(s) && At(s, id, Locked) && Closer(s.callers[id].kind) && !s.done
    ensures Inv(Move(s, id, Claimed).(done := true, winner := Some(id)))
  {
  }

  lemma RunKeeps(s: TxState, id: nat)
    requires Inv(s) && At(s, id, Working)
    ensures Inv(s.(wire := s.wire + [Statement(id)]))
  {
  }

  lemma LeaveKeeps(s: TxState, id: nat, pc: Pc)
    requires Inv(s) && At(s, id, Working) && (pc.Abandoned? || pc == Returned(Succeeded) || pc == Returned(Failed))
    ensures Inv(Move(s, id, pc).(holder := None))
  {
  }

  lemma TakeKeeps(s: TxState, id: nat)
    requires Inv(s) && At(s, id, Claimed)
    ensures Inv(Move(s, id, Taken).(inner := false))
  {
  }

  lemma UnlockKeeps(s: TxState, id: nat)
    requires Inv(s) && At(s, id, Taken)
    ensures Inv(Move(s, id, Unlocked).(holder := None))
  {
  }

  lemma SendEndKeeps(s: TxState, id: nat)
    requires Inv(s) && At(s, id, Unlocked)
    ensures Inv(Move(s, id, Sent).(wire := s.wire + [End(s.callers[id].kind)]))
  {
  }

  lemma DropKeeps(s: TxState)
    requires Inv(s)
    ensures Enabled(s, DropBody) ==> Inv(s.(life := Dropping))
    ensures s.life.Dropping? ==> Inv(s.(life := Dropped, inner := false))
  {
  }

  predicate UnderGuard(a: Action)
  {
    a.Test? || a.Run? || a.Leave? || a.Take? || a.Unlock?
  }

  lemma GuardedStepInv(s: TxState, a: Action)
    requires Inv(s) && Enabled(s, a) && UnderGuard(a)
    ensures Inv(Next(s, a).0)
  {
    match a
    case Test(id) =>
      if s.callers[id].kind.Operation? && s.inner { AdmittedKeeps(s, id); }
      else if Closer(s.callers[id].kind) && !s.done { SwapKeeps(s, id); }
      else { RefusedKeeps(s, id); }
    case Run(id) => RunKeeps(s, id);
    case Leave(id, ok) => LeaveKeeps(s, id, Returned(if ok then Succeeded else Failed));
    case Take(id) => TakeKeeps(s, id);
    case Unlock(id) => UnlockKeeps(s, id);
  }

  predicate AtEnd(a: Action)
  {
    a.SendEnd? || a.Answer? || a.ReleaseActive? || a.CountResult? || a.DropBody? || a.DropFields?
  }

  lemma EndingStepInv(s: TxState, a: Action)
    requires Inv(s) && Enabled(s, a) && AtEnd(a)
    ensures Inv(Next(s, a).0)
  {
    match a
    case SendEnd(id) => SendEndKeeps(s, id);
    case Answer(id, ok) => MoveKeeps(s, id, Answered(ok));
    case ReleaseActive(id) => MoveKeeps(s, id, Released(s.callers[id].pc.ok));
    case CountResult(id) => MoveKeeps(s, id, Returned(if s.callers[id].pc.ok then Succeeded else Failed));
    case DropBody => DropKeeps(s);
    case DropFields => DropKeeps(s);
  }

  lemma CheckStepInv(s: TxState, id: nat)
    requires Inv(s) && At(s, id, Called)
    ensures Inv(NextFastCheck(s, id))
  {
    MoveKeeps(s, id, NextFastCheck(s, id).callers[id].pc);
  }

  lemma AbandonStepInv(s: TxState, id: nat)
    requires Inv(s) && Enabled(s, Abandon(id))
    ensures Inv(NextAbandon(s, id).0)
  {
    if s.callers[id].pc.Working? {
      LeaveKeeps(s, id, Abandoned);
    } else {
      MoveKeeps(s, id, if s.callers[id].pc.Sent? then AbandonedEnd else Abandoned);
    }
  }

  lemma FreeStepInv(s: TxState, a: Action)
    requires Inv(s) && Enabled(s, a) && !UnderGuard(a) && !AtEnd(a)
    ensures Inv(Next(s, a).0)
  {
    if a.Enter? {
      EnterKeeps(s, a.id, a.kind);
    } else if a.Acquire? {
      AcquireKeeps(s, a.id);
    } else if a.FastCheck? {
      CheckStepInv(s, a.id);
    } else {
      AbandonStepInv(s, a.id);
    }
  }

  /** Every atomic step of every caller keeps the invariant. */
  lemma StepInv(s: TxState, a: Action)
    requires Inv(s)
    ensures Inv(Next(s, a).0)
  {
    if Enabled(s, a) {
      if UnderGuard(a) {
        GuardedStepInv(s, a);
      } else if AtEnd(a) {
        EndingStepInv(s, a);
      } else {
        FreeStepInv(s, a);
      }
    }
  }
}
