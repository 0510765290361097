/** `PgTx` (src/pg_tx.rs:23-222) as an object: one method per atomic section of its async
    methods, each proved to be the step of CloseProtocol that the interleavings are made of. */
module PgTxs {
  import opened Wrappers
  import opened CloseProtocol
  import CR = CloseRuns

  /** A shared counter (`Arc<AtomicU64>`). */
  class Counter {
    var value: int

    constructor (value: int)
      ensures this.value == value
    {
      this.value := value;
    }
  }

  class PgTx {
    const write: bool
    const txCommitted: Counter
    const txRolledBack: Counter
    const txActive: Counter
    var done: bool
    var inner: bool           // whether the guarded Option holds the transaction
    var holder: Option<nat>   // who holds the mutex
    var callers: map<nat, Caller>  // where the futures on this value stand
    var wire: seq<Wire>
    var life: Life
    ghost var winner: Option<nat>

    ghost function Abs(): TxState
      reads this
    {
      TxState(write, done, inner, holder, callers, wire, winner, life)
    }

    ghost predicate Distinct()
    {
      txCommitted != txRolledBack && txCommitted != txActive && txRolledBack != txActive
    }

    constructor (write: bool, txCommitted: Counter, txRolledBack: Counter, txActive: Counter)
      ensures Abs() == Fresh(write)
      ensures this.txCommitted == txCommitted && this.txRolledBack == txRolledBack && this.txActive == txActive
    {
      this.write, this.txCommitted, this.txRolledBack, this.txActive := write, txCommitted, txRolledBack, txActive;
      done, inner, holder := false, true, None;
      callers, wire, winner, life := map[], [], None, InUse;
    }

    method GoTo(id: nat, pc: Pc)
      requires id in callers
      modifies this`callers
      ensures callers == old(callers)[id := old(callers)[id].(pc := pc)]
    {
      callers := callers[id := callers[id].(pc := pc)];
    }

    /** The unlocked look at `done`, and for writes at `write`. */
    method TestDone(id: nat, kind: Kind) returns (refused: Option<Outcome>)
      requires Enabled(Abs(), FastCheck(id)) && callers[id].kind == kind
      modifies this
      ensures Abs() == Next(old(Abs()), FastCheck(id)).0
      ensures refused == if old(done) then Some(Finished)
              else if kind == Operation(true) && !write then Some(ReadOnly) else None
    {
      if done {
        GoTo(id, Returned(Finished));
        return Some(Finished);
      }
      if kind == Operation(true) && !write {
        GoTo(id, Returned(ReadOnly));
        return Some(ReadOnly);
      }
      GoTo(id, Queued);
      refused := None;
    }

    method Lock(id: nat)
      requires Enabled(Abs(), Acquire(id))
      modifies this
      ensures Abs() == Next(old(Abs()), Acquire(id)).0
    {
      holder := Some(id);
      GoTo(id, Locked);
    }

    /** An operation under the guard: is the inner transaction still there? */
    method TestInner(id: nat) returns (admitted: bool)
      requires Enabled(Abs(), Test(id)) && callers[id].kind.Operation?
      modifies this
      ensures Abs() == Next(old(Abs()), Test(id)).0 && admitted == old(inner)
    {
      admitted := inner;
      if admitted {
        GoTo(id, Working);
      } else {
        holder := None;
        GoTo(id, Returned(Finished));
      }
    }

    /** A closer under the guard: `done.swap(true)`. */
    method SwapDone(id: nat) returns (won: bool)
      requires Enabled(Abs(), Test(id)) && Closer(callers[id].kind)
      modifies this
      ensures Abs() == Next(old(Abs()), Test(id)).0 && won == !old(done)
    {
      won := !done;
      done := true;
      if won {
        winner := Some(id);
        GoTo(id, Claimed);
      } else {
        holder := None;
        GoTo(id, Returned(Finished));
      }
    }

    method TakeInner(id: nat)
      requires Enabled(Abs(), Take(id))
      modifies this
      ensures Abs() == Next(old(Abs()), Take(id)).0
    {
      inner := false;
      GoTo(id, Taken);
    }

    /** The guard is dropped: by the winner before its I/O, by an operation when it is through. */
    method DropGuard(id: nat, ok: bool)
      requires Enabled(Abs(), Unlock(id)) || Enabled(Abs(), Leave(id, ok))
      modifies this
      ensures Abs() == Next(old(Abs()), if old(callers)[id].pc.Taken? then Unlock(id) else Leave(id, ok)).0
    {
      holder := None;
      GoTo(id, if callers[id].pc.Taken? then Unlocked else Returned(if ok then Succeeded else Failed));
    }

    /** The guard of `commit_inner`/`cancel_inner` goes out of scope. */
    method CountOut(id: nat)
      requires Distinct() && Enabled(Abs(), ReleaseActive(id))
      modifies this, txActive
      ensures Abs() == Next(old(Abs()), ReleaseActive(id)).0
      ensures txActive.value == old(txActive.value) - Next(old(Abs()), ReleaseActive(id)).1.released
    {
      txActive.value := txActive.value - 1;
      GoTo(id, Released(callers[id].pc.ok));
    }

    /** The result is counted and returned: only a COMMIT that was answered Ok is a commit. */
    method CountResultOf(id: nat, kind: Kind, ok: bool)
      requires Distinct() && Enabled(Abs(), CountResult(id)) && callers[id].kind == kind && callers[id].pc.ok == ok
      modifies this, txCommitted, txRolledBack
      ensures Abs() == Next(old(Abs()), CountResult(id)).0
      ensures txCommitted.value == old(txCommitted.value) + Next(old(Abs()), CountResult(id)).1.committed
      ensures txRolledBack.value == old(txRolledBack.value) + Next(old(Abs()), CountResult(id)).1.rolledBack
    {
      if ok && kind.Committing? {
        txCommitted.value := txCommitted.value + 1;
      } else {
        txRolledBack.value := txRolledBack.value + 1;
      }
      GoTo(id, Returned(if ok then Succeeded else Failed));
    }

    /** A call is made: its future exists and has not run yet. */
    method Enter(id: nat, kind: Kind)
      requires Enabled(Abs(), CloseProtocol.Enter(id, kind))
      modifies this
      ensures Abs() == Next(old(Abs()), CloseProtocol.Enter(id, kind)).0
    {
      callers := callers[id := Caller(kind, Called)];
    }

    /** An operation sends a statement under the guard. */
    method SendStatement(id: nat)
      requires Enabled(Abs(), Run(id))
      modifies this
      ensures Abs() == Next(old(Abs()), Run(id)).0
    {
      wire := wire + [Statement(id)];
    }

    method SendTerminal(id: nat)
      requires Enabled(Abs(), SendEnd(id))
      modifies this
      ensures Abs() == Next(old(Abs()), SendEnd(id)).0
    {
      wire := wire + [End(callers[id].kind)];
      GoTo(id, Sent);
    }

    method TakeAnswer(id: nat, ok: bool)
      requires Enabled(Abs(), Answer(id, ok))
      modifies this
      ensures Abs() == Next(old(Abs()), Answer(id, ok)).0
    {
      GoTo(id, Answered(ok));
    }

    /** The future is dropped at an await point: a held guard goes with it, and so does the
        terminal call's own guard on `tx_active`. */
    method DropFuture(id: nat)
      requires Distinct() && Enabled(Abs(), Abandon(id))
      modifies this, txActive
      ensures Abs() == Next(old(Abs()), Abandon(id)).0
      ensures txActive.value == old(txActive.value) - Next(old(Abs()), Abandon(id)).1.released
    {
      var pc := callers[id].pc;
      if pc.Sent? {
        txActive.value := txActive.value - 1;
        GoTo(id, AbandonedEnd);
        return;
      }
      if pc.Working? {
        holder := None;
      }
      GoTo(id, Abandoned);
    }

    /** `Drop for PgTx`. */
    method DropBody()
      requires Distinct() && Enabled(Abs(), CloseProtocol.DropBody)
      modifies this, txRolledBack
      ensures Abs() == Next(old(Abs()), CloseProtocol.DropBody).0
      ensures txRolledBack.value == old(txRolledBack.value) + Next(old(Abs()), CloseProtocol.DropBody).1.rolledBack
    {
      if !done {
        txRolledBack.value := txRolledBack.value + 1;
      }
      life := Dropping;
    }

    /** The drop of its fields: `Drop for PgTransaction`. */
    method DropFields()
      requires Distinct() && Enabled(Abs(), CloseProtocol.DropFields)
      modifies this, txActive
      ensures Abs() == Next(old(Abs()), CloseProtocol.DropFields).0
      ensures txActive.value == old(txActive.value) - Next(old(Abs()), CloseProtocol.DropFields).1.released
    {
      if inner {
        txActive.value := txActive.value - 1;
      }
      inner, life := false, Dropped;
    }

    /** The value is dropped: its own body, then its fields. */
    method Drop()
      requires Distinct() && Enabled(Abs(), CloseProtocol.DropBody)
      modifies this, txRolledBack, txActive
      ensures var s := Next(old(Abs()), CloseProtocol.DropBody);
              && Abs() == Next(s.0, CloseProtocol.DropFields).0
              && txRolledBack.value == old(txRolledBack.value) + s.1.rolledBack
              && txActive.value == old(txActive.value) - Next(s.0, CloseProtocol.DropFields).1.released
    {
      DropBody();
      DropFields();
    }

    /** Can this step be taken now? */
    method Possible(a: Action) returns (yes: bool)
      ensures yes == Enabled(Abs(), a)
    {
      var s := TxState(write, done, inner, holder, callers, wire, None, life);
      yes := Enabled(s, a);
    }

    ghost predicate Counters(committed: int, rolledBack: int, active: int)
      reads txCommitted, txRolledBack, txActive
    {
      txCommitted.value == committed && txRolledBack.value == rolledBack && txActive.value == active
    }

    /** A step that sends nothing on: before the guard is taken, or giving it back. */
    method StepUnderGuard(a: Action)
      requires Enabled(Abs(), a) && (UnderGuard(a) || a.Acquire? || a.FastCheck? || a.Enter?)
      modifies this
      ensures Abs() == Next(old(Abs()), a).0 && Next(old(Abs()), a).1 == NO_EFFECT
    {
      match a
      case Enter(id, kind) => Enter(id, kind);
      case FastCheck(id) => var _ := TestDone(id, callers[id].kind);
      case Acquire(id) => Lock(id);
      case Test(id) =>
        if callers[id].kind.Operation? {
          var _ := TestInner(id);
        } else {
          var _ := SwapDone(id);
        }
      case Run(id) => SendStatement(id);
      case Leave(id, ok) => DropGuard(id, ok);
      case Take(id) => TakeInner(id);
      case Unlock(id) => DropGuard(id, true);
    }

    method Step(a: Action)
      requires Distinct() && Enabled(Abs(), a)
      modifies this, txCommitted, txRolledBack, txActive
      ensures Abs() == Next(old(Abs()), a).0
      ensures var e := Next(old(Abs()), a).1;
              Counters(old(txCommitted.value) + e.committed, old(txRolledBack.value) + e.rolledBack,
                       old(txActive.value) - e.released)
    {
      match a
      case SendEnd(id) => SendTerminal(id);
      case Answer(id, ok) => TakeAnswer(id, ok);
      case ReleaseActive(id) => CountOut(id);
      case CountResult(id) => CountResultOf(id, callers[id].kind, callers[id].pc.ok);
      case Abandon(id) => DropFuture(id);
      case DropBody => DropBody();
      case DropFields => DropFields();
      case _ => StepUnderGuard(a);
    }

    /** Any schedule of atomic sections on the object, the impossible ones skipped, is a run of
        the protocol, and the shared counters move by that run's totals. */
    method Drive(actions: seq<Action>)
      requires Distinct()
      modifies this, txCommitted, txRolledBack, txActive
      ensures Abs() == CR.RunAll(old(Abs()), actions)
      ensures var total := CR.Total(old(Abs()), actions);
              Counters(old(txCommitted.value) + total.committed, old(txRolledBack.value) + total.rolledBack,
                       old(txActive.value) - total.released)
    {
      for i := 0 to |actions|
        invariant Abs() == CR.RunAll(old(Abs()), actions[..i])
        invariant var total := CR.Total(old(Abs()), actions[..i]);
                  Counters(old(txCommitted.value) + total.committed, old(txRolledBack.value) + total.rolledBack,
                           old(txActive.value) - total.released)
      {
        CR.RunOneMore(old(Abs()), actions[..i], actions[i]);
        CR.TotalOneMore(old(Abs()), actions[..i], actions[i]);
        assert actions[..i + 1] == actions[..i] + [actions[i]];
        var possible := Possible(actions[i]);
        if possible {
          Step(actions[i]);
        }
      }
      assert actions[..|actions|] == actions;
    }
  }
}
