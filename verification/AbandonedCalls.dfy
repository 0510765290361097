/** What becomes of the two savepoint stacks when the future of a call is dropped between two of
    its steps and its repair never runs (src/transaction.rs:1013-1072). */
module AbandonedCalls {
  import opened Wrappers
  import opened KeyOrder
  import opened Tables
  import opened PgErrors
  import opened PgServer
  import opened TxModel
  import opened CallSteps
  import opened SavepointRuns

  /** The stacks agree if the call stops here: it has come to an end, or it is no savepoint call,
      or its last statement has been carried out and only the answer is still to be taken in. */
  predicate Settled(op: Op, phase: Phase)
  {
    || phase.Done?
    || !IsSavepointCall(op)
    || (phase.Answered? && !phase.reply.Refusal? && !phase.cont.RollingBack?)
  }

  // ---- calls that leave the stacks alone -------------------------------------------------------

  predicate OffStack(phase: Phase)
  {
    match phase
    case Sending(stmt, cont) => (IsQuery(stmt) || IsWrite(stmt)) && (cont.Simply? || cont.MoreBatches?)
    case Answered(_, cont) => cont.Simply? || cont.MoreBatches?
    case Done(_) => true
  }

  predicate SameStacks(t: Tx, t': Tx)
  {
    t'.names == t.names && t'.open == t.open && (Alive(t') ==> Alive(t) && t'.server.saves == t.server.saves)
  }

  lemma OffStackBegins(t: Tx, op: Op)
    requires !IsSavepointCall(op)
    ensures var (t', phase) := Begin(t, op);
            t' == t && OffStack(phase)
  {
  }

  lemma OffStackAdvances(t: Tx, phase: Phase, fault: Fault)
    requires OffStack(phase)
    ensures var (t', phase') := Advance(t, phase, fault);
            SameStacks(t, t') && OffStack(phase')
  {
  }

  lemma {:induction false} OffStackRuns(t: Tx, phase: Phase, moves: seq<Fault>)
    requires OffStack(phase)
    ensures var (t', phase') := Advances(t, phase, moves);
            SameStacks(t, t') && OffStack(phase')
    decreases |moves|
  {
    if moves != [] {
      var (t1, phase1) := Advance(t, phase, moves[0]);
      OffStackAdvances(t, phase, moves[0]);
      OffStackRuns(t1, phase1, moves[1..]);
    }
  }

  // ---- savepoint calls -------------------------------------------------------------------------

  /** The server's savepoints, as names, if it still has any. */
  predicate Shows(t: Tx, names: seq<string>)
  {
    Alive(t) ==> NamesOf(t.server.saves) == names
  }

  /** Half-way through a savepoint call that began with the stack `names`: what the client has,
      and what the server has. */
  predicate Midway(op: Op, names: seq<string>, t: Tx, phase: Phase)
  {
    && t.open
    && match phase
       case Done(_) => InSync(t)
       case Sending(stmt, cont) =>
         && Shows(t, names)
         && (match cont
             case Saving => op.NewSavePoint? && stmt.SavepointCmd? && t.names == names + [stmt.name]
             case Releasing(name) =>
               op != NewSavePoint && stmt == ReleaseCmd(name) && names == t.names + [name]
             case RollingBack(name) => op.RollbackSavePoint? && stmt == RollbackToCmd(name) && names == t.names + [name]
             case _ => false)
       case Answered(reply, cont) =>
         (match cont
          case Saving =>
            op.NewSavePoint? && |t.names| == |names| + 1 && t.names[..|names|] == names
            && Shows(t, if reply.Refusal? then names else t.names)
          case Releasing(name) =>
            op != NewSavePoint && names == t.names + [name] && Shows(t, if reply.Refusal? then names else t.names)
          case RollingBack(name) => op.RollbackSavePoint? && names == t.names + [name] && Shows(t, names)
          case _ => false)
  }

  lemma MidwayBegins(t: Tx, op: Op)
    requires IsSavepointCall(op) && InSync(t) && t.open
    ensures var (t', phase) := Begin(t, op);
            Midway(op, t.names, t', phase)
  {
    if !op.NewSavePoint? && t.names != [] {
      assert Popped(t).names + [Top(t)] == t.names;
    }
  }

  lemma {:induction false} InnermostLast(saves: seq<Savepoint>, name: string)
    requires saves != [] && saves[|saves| - 1].name == name
    ensures Innermost(saves, name) == |saves| - 1
  {
  }

  lemma MidwaySends(op: Op, names: seq<string>, t: Tx, phase: Phase, fault: Fault)
    requires Midway(op, names, t, phase) && phase.Sending?
    ensures var (t', phase') := Advance(t, phase, fault);
            Midway(op, names, t', phase')
  {
    var n := |names| - 1;
    if Alive(t) && !phase.cont.Saving? {
      assert t.server.saves[n].name == names[n];
      InnermostLast(t.server.saves, phase.stmt.name);
      assert t.server.saves[..n + 1] == t.server.saves;
      assert NamesOf(t.server.saves[..n]) == t.names;
    } else if Alive(t) {
      var more := t.server.saves + [Savepoint(phase.stmt.name, t.server.working)];
      assert NamesOf(more) == t.names;
    }
  }

  lemma MidwayResumes(op: Op, names: seq<string>, t: Tx, phase: Phase, fault: Fault)
    requires Midway(op, names, t, phase) && !phase.Sending?
    ensures var (t', phase') := Advance(t, phase, fault);
            Midway(op, names, t', phase')
  {
    if phase.Answered? && phase.cont.Saving? {
      assert Popped(t).names == names;
    }
  }

  lemma {:induction false} MidwayRuns(op: Op, names: seq<string>, t: Tx, phase: Phase, moves: seq<Fault>)
    requires Midway(op, names, t, phase)
    ensures var (t', phase') := Advances(t, phase, moves);
            Midway(op, names, t', phase')
    decreases |moves|
  {
    if moves != [] {
      var (t1, phase1) := Advance(t, phase, moves[0]);
      if phase.Sending? {
        MidwaySends(op, names, t, phase, moves[0]);
      } else {
        MidwayResumes(op, names, t, phase, moves[0]);
      }
      MidwayRuns(op, names, t1, phase1, moves[1..]);
    }
  }

  lemma MidwaySettled(op: Op, names: seq<string>, t: Tx, phase: Phase)
    requires Midway(op, names, t, phase) && IsSavepointCall(op)
    ensures Settled(op, phase) ==> InSync(t)
    ensures Alive(t) && InSync(t) ==> Settled(op, phase)
  {
    if Alive(t) && InSync(t) && !phase.Done? {
      assert NamesOf(t.server.saves) == t.names;
      assert phase.cont.Saving? ==> |t.names| == |names| + 1;
      assert !phase.cont.Saving? ==> |names| == |t.names| + 1;
    }
  }

  /** Stopped at any step whatever, on a connection that is still alive, a call leaves the two
      stacks in agreement exactly when it is settled there. */
  lemma StacksAfter(t: Tx, op: Op, moves: seq<Fault>)
    requires InSync(t) && t.open
    ensures var (t', phase) := Proceed(t, op, moves);
            && (Settled(op, phase) ==> InSync(t'))
            && (Alive(t') && InSync(t') ==> Settled(op, phase))
  {
    var (t1, phase1) := Begin(t, op);
    if IsSavepointCall(op) {
      MidwayBegins(t, op);
      MidwayRuns(op, t.names, t1, phase1, moves);
      MidwaySettled(op, t.names, Proceed(t, op, moves).0, Proceed(t, op, moves).1);
    } else {
      OffStackBegins(t, op);
      OffStackRuns(t1, phase1, moves);
    }
  }

  lemma {:induction false} NotInnermost(saves: seq<Savepoint>, name: string)
    requires forall i | 0 <= i < |saves| :: saves[i].name != name
    ensures Innermost(saves, name) == -1
  {
    if saves != [] {
      NotInnermost(saves[..|saves| - 1], name);
    }
  }

  /** The simplest such case: a `new_save_point` dropped before the server acted leaves a name
      that the server does not know. The next rollback is refused for it, by a healthy server,
      and that refusal aborts the block. */
  lemma StrandedName(t: Tx)
    requires InSync(t) && Alive(t) && t.server.status.InTx? && SavepointName(NextCounter(t.counter)) !in t.names
    ensures var t' := Proceed(t, NewSavePoint, []).0;
            && !InSync(t')
            && Step(t', RollbackSavePoint, []).1.Err?
            && Step(t', RollbackSavePoint, []).0.server.status.Failed?
  {
    var t' := Proceed(t, NewSavePoint, []).0;
    var name := SavepointName(NextCounter(t.counter));
    assert t'.names == t.names + [name] && Top(t') == name;
    assert |NamesOf(t'.server.saves)| == |t.names|;
    forall i | 0 <= i < |t.server.saves| ensures t.server.saves[i].name != name {
      assert t.server.saves[i].name == t.names[i];
    }
    NotInnermost(t.server.saves, name);
  }
}
