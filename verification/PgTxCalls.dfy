/** What a caller of a shared `PgTx` can count on (src/pg_tx.rs:68-474): who is let in, that a call
    on a quiet value goes through to its own answer, and that its future can be dropped there. */
module PgTxCalls {
  import opened Wrappers
  import opened KeyOrder
  import opened Tables
  import opened PgErrors
  import opened PgServer
  import opened TxModel
  import opened CallSteps
  import opened PgTxRuns
  import CP = CloseProtocol
  import CR = CloseRuns

  // ---- who is let in ---------------------------------------------------------------------------

  /** The calls that go through `lock_write`. */
  predicate NeedsWrite(op: Op)
  {
    match op
    case Set(_, _) => true
    case Put(_, _) => true
    case PutIf(_, _, _) => true
    case Del(_) => true
    case DelIf(_, _) => true
    case DelRange(_, _) => true
    case SetMany(_, _) => true
    case Exists(_) => false
    case Get(_) => false
    case GetMany(_) => false
    case ReadPage(_, _, _, _, _) => false
    case GetRange(_, _) => false
    case Count(_, _) => false
    case NewSavePoint => false
    case ReleaseSavePoint => false
    case RollbackSavePoint => false
  }

  /** `TransactionReadonly` is the answer to one of the seven writes on a transaction opened
      without write, and to nothing else. */
  lemma ReadOnlyRefusals(table: Table, write: bool, s: System, id: nat)
    requires Reached(table, write, s)
    requires id in s.proto.callers && s.proto.callers[id].pc == CP.Returned(CP.ReadOnly)
    ensures !write && id in s.asked && NeedsWrite(s.asked[id])
  {
    ReachedInv(table, write, s);
    assert CallerInv(s, Begun(table, write), id);
  }

  /** The value after an operation was asked for and has come as far as `pc`. */
  function Waiting(s: System, id: nat, op: Op, pc: CP.Pc): System
  {
    s.(proto := s.proto.(callers := s.proto.callers[id := CP.Caller(CP.Operation(NeedsWrite(op)), pc)],
                         holder := if CP.HoldsGuard(pc) then Some(id) else None),
       asked := s.asked[id := op])
  }

  predicate QuietFor(s: System, id: nat, op: Op)
  {
    CR.Quiet(s.proto, id) && Legal(op) && id !in s.doing
  }

  lemma Asked(s: System, id: nat, op: Op)
    requires QuietFor(s, id, op)
    ensures Next(s, Ask(id, op)) == Waiting(s, id, op, CP.Called)
  {
  }

  lemma Checked(s: System, id: nat, op: Op)
    requires QuietFor(s, id, op)
    ensures Next(Waiting(s, id, op, CP.Called), Shared(CP.FastCheck(id)))
         == Waiting(s, id, op, if NeedsWrite(op) && !s.proto.write then CP.Returned(CP.ReadOnly) else CP.Queued)
  {
    var pc := if NeedsWrite(op) && !s.proto.write then CP.Returned(CP.ReadOnly) else CP.Queued;
    SamePlace(s.proto.callers, id, CP.Operation(NeedsWrite(op)), CP.Called, pc);
  }

  lemma SamePlace(callers: map<nat, CP.Caller>, id: nat, kind: CP.Kind, was: CP.Pc, now: CP.Pc)
    ensures callers[id := CP.Caller(kind, was)][id := CP.Caller(kind, now)] == callers[id := CP.Caller(kind, now)]
  {
  }

  lemma Admitted(s: System, id: nat, op: Op)
    requires QuietFor(s, id, op)
    ensures Next(Waiting(s, id, op, CP.Queued), Shared(CP.Acquire(id))) == Waiting(s, id, op, CP.Locked)
    ensures Next(Waiting(s, id, op, CP.Locked), Shared(CP.Test(id))) == Waiting(s, id, op, CP.Working)
  {
    SamePlace(s.proto.callers, id, CP.Operation(NeedsWrite(op)), CP.Queued, CP.Locked);
    SamePlace(s.proto.callers, id, CP.Operation(NeedsWrite(op)), CP.Locked, CP.Working);
  }

  /** A refused caller stays refused. */
  lemma Refused(s: System, id: nat, op: Op)
    requires QuietFor(s, id, op)
    ensures var refused := Waiting(s, id, op, CP.Returned(CP.ReadOnly));
            && Next(refused, Shared(CP.Acquire(id))) == refused && Next(refused, Shared(CP.Test(id))) == refused
            && Next(refused, Start(id)) == refused
  {
  }

  /** An operation as far as its beginning. */
  function Opening(id: nat, op: Op): seq<Event>
  {
    [Ask(id, op), Shared(CP.FastCheck(id)), Shared(CP.Acquire(id)), Shared(CP.Test(id)), Start(id)]
  }

  lemma FiveEvents(s: System, a: Event, b: Event, c: Event, d: Event, e: Event)
    ensures RunEvents(s, [a, b, c, d, e]) == Next(Next(Next(Next(Next(s, a), b), c), d), e)
  {
    var all := [a, b, c, d, e];
    assert all[1..] == [b, c, d, e] && [b, c, d, e][1..] == [c, d, e] && [c, d, e][1..] == [d, e];
    assert [d, e][1..] == [e] && [e][1..] == [];
    var s2 := Next(Next(s, a), b);
    assert RunEvents(s2, [c, d, e]) == RunEvents(Next(s2, c), [d, e]);
    assert RunEvents(Next(s2, c), [d, e]) == RunEvents(Next(Next(s2, c), d), [e]);
  }

  lemma QuietReached(table: Table, write: bool, s: System, id: nat, op: Op)
    requires Reached(table, write, s) && !s.proto.done && s.proto.life.InUse? && s.proto.holder.None?
    requires id !in s.proto.callers && Legal(op)
    ensures QuietFor(s, id, op) && s.proto.write == write && id !in s.places
  {
    ReachedInv(table, write, s);
    assert CP.InnerInv(s.proto) && CP.WinnerInv(s.proto);
  }

  /** From any reached state with the value in use, unlocked and not closed: a read or savepoint
      call gets in and begins whether or not the transaction may write, and one of the seven
      writes if and only if it may. */
  lemma Admission(table: Table, write: bool, s: System, id: nat, op: Op)
    requires Reached(table, write, s) && !s.proto.done && s.proto.life.InUse? && s.proto.holder.None?
    requires id !in s.proto.callers && Legal(op)
    ensures var s' := RunEvents(s, [Ask(id, op), Shared(CP.FastCheck(id)), Shared(CP.Acquire(id)),
                                    Shared(CP.Test(id)), Start(id)]);
            && id in s'.proto.callers
            && if write || !NeedsWrite(op)
               then s'.log == s.log + [Entry(id, op, [])] && s'.proto.callers[id].pc == CP.Working
               else s'.log == s.log && s'.tx == s.tx && s'.proto.callers[id].pc == CP.Returned(CP.ReadOnly)
  {
    QuietReached(table, write, s, id, op);
    assert [Ask(id, op), Shared(CP.FastCheck(id)), Shared(CP.Acquire(id)), Shared(CP.Test(id)), Start(id)]
        == Opening(id, op);
    if write || !NeedsWrite(op) {
      Begins(s, id, op);
    } else {
      TurnedBack(s, id, op);
    }
  }

  lemma Begins(s: System, id: nat, op: Op)
    requires QuietFor(s, id, op) && id !in s.places && (s.proto.write || !NeedsWrite(op))
    ensures RunEvents(s, Opening(id, op)) == NextStart(Waiting(s, id, op, CP.Working), id)
  {
    FiveEvents(s, Ask(id, op), Shared(CP.FastCheck(id)), Shared(CP.Acquire(id)), Shared(CP.Test(id)), Start(id));
    Asked(s, id, op);
    Checked(s, id, op);
    Admitted(s, id, op);
  }

  lemma TurnedBack(s: System, id: nat, op: Op)
    requires QuietFor(s, id, op) && !s.proto.write && NeedsWrite(op)
    ensures RunEvents(s, Opening(id, op)) == Waiting(s, id, op, CP.Returned(CP.ReadOnly))
  {
    FiveEvents(s, Ask(id, op), Shared(CP.FastCheck(id)), Shared(CP.Acquire(id)), Shared(CP.Test(id)), Start(id));
    Asked(s, id, op);
    Checked(s, id, op);
    Refused(s, id, op);
  }

  // ---- calls that nothing disturbs -------------------------------------------------------------

  lemma {:induction false} EventsConcat(s: System, a: seq<Event>, b: seq<Event>)
    ensures RunEvents(s, a + b) == RunEvents(RunEvents(s, a), b)
    decreases |a|
  {
    if a == [] {
      assert a + b == b;
    } else {
      assert (a + b)[1..] == a[1..] + b;
      EventsConcat(Next(s, a[0]), a[1..], b);
    }
  }

  /** An operation that has begun can always go on to its end, and gets the model's answer. */
  lemma {:induction false} GoesToEnd(s: System, id: nat, faults: seq<Fault>) returns (events: seq<Event>)
    requires CP.At(s.proto, id, CP.Working) && id in s.doing && id in s.places && s.places[id] < |s.log|
    ensures var s' := RunEvents(s, events);
            && id in s'.doing && s'.doing[id].phase.Done?
            && (s'.tx, s'.doing[id].phase.outcome) == Complete(s.tx, s.doing[id].phase, faults)
            && s'.proto == s.proto.(wire := s'.proto.wire)
    decreases Left(s.doing[id].phase)
  {
    if s.doing[id].phase.Done? {
      return [];
    }
    var f := FaultAt(faults, 0);
    var s1 := NextGo(s, id, f);
    LeftAfter(s.tx, s.doing[id].phase, f);
    var rest := GoesToEnd(s1, id, if s.doing[id].phase.Sending? then Later(faults) else faults);
    events := [Go(id, f)] + rest;
    assert events[1..] == rest;
  }

  lemma LeftAfter(t: Tx, phase: Phase, fault: Fault)
    requires !phase.Done?
    ensures Left(Advance(t, phase, fault).1) < Left(phase)
  {
  }

  /** Any admitted call on a value that is in use, unlocked and not closed can run to its end;
      its caller then has the answer of the model's step on the transaction as it was, the
      transaction is where that step puts it, and the lock is free again. */
  lemma CallGoesThrough(table: Table, write: bool, s: System, id: nat, op: Op, faults: seq<Fault>)
    returns (events: seq<Event>)
    requires Reached(table, write, s) && !s.proto.done && s.proto.life.InUse? && s.proto.holder.None?
    requires id !in s.proto.callers && Legal(op) && (write || !NeedsWrite(op))
    ensures var s' := RunEvents(s, events);
            var (t, r) := Step(s.tx, op, faults);
            && s'.tx == t && id in s'.proto.callers
            && s'.proto.callers[id].pc == CP.Returned(if r.Ok? then CP.Succeeded else CP.Failed)
            && s'.proto.holder.None? && !s'.proto.done && s'.proto.life.InUse?
  {
    QuietReached(table, write, s, id, op);
    Begins(s, id, op);
    var s5 := RunEvents(s, Opening(id, op));
    var middle := GoesToEnd(s5, id, faults);
    CompleteIsStep(s.tx, op, faults);
    var s6 := RunEvents(s5, middle);
    Returns(s6, id);
    events := Opening(id, op) + (middle + [Return(id)]);
    EventsConcat(s, Opening(id, op), middle + [Return(id)]);
    EventsConcat(s5, middle, [Return(id)]);
    OneEvent(s6, Return(id));
  }

  lemma Returns(s: System, id: nat)
    requires MayReturn(s, id)
    ensures var s' := Next(s, Return(id));
            && s'.tx == s.tx && s'.proto.holder.None? && s'.proto.done == s.proto.done && s'.proto.life == s.proto.life
            && id in s'.proto.callers
            && s'.proto.callers[id].pc
            == CP.Returned(if s.doing[id].phase.outcome.Ok? then CP.Succeeded else CP.Failed)
  {
  }

  /** The future of an admitted operation can be dropped as soon as it waits for the server: the
      lock is free again, and the transaction is left where the call had come to. */
  lemma DroppedInside(table: Table, write: bool, s: System, id: nat, op: Op)
    requires Reached(table, write, s) && !s.proto.done && s.proto.life.InUse? && s.proto.holder.None?
    requires id !in s.proto.callers && Legal(op) && (write || !NeedsWrite(op))
    ensures var s' := RunEvents(s, Opening(id, op) + [Shared(CP.Abandon(id))]);
            && s'.tx == Proceed(s.tx, op, []).0 && s'.proto.holder.None?
            && id in s'.proto.callers && s'.proto.callers[id].pc.Abandoned?
  {
    QuietReached(table, write, s, id, op);
    Begins(s, id, op);
    EventsConcat(s, Opening(id, op), [Shared(CP.Abandon(id))]);
    var s5 := RunEvents(s, Opening(id, op));
    OneEvent(s5, Shared(CP.Abandon(id)));
    AbandonWorking(s5, id);
  }

  lemma OneEvent(s: System, e: Event)
    ensures RunEvents(s, [e]) == Next(s, e)
  {
    assert [e][1..] == [];
  }

  lemma AbandonWorking(s: System, id: nat)
    requires CP.At(s.proto, id, CP.Working)
    ensures var s' := Next(s, Shared(CP.Abandon(id)));
            && s'.tx == s.tx && s'.proto.holder.None?
            && id in s'.proto.callers && s'.proto.callers[id].pc.Abandoned?
  {
  }

  /** Likewise a commit or cancel: it ends the transaction as it stands with its own command, and
      its caller gets the answer. */
  lemma EndGoesThrough(table: Table, write: bool, s: System, id: nat, kind: CP.Kind, fault: Fault)
    requires Reached(table, write, s) && !s.proto.done && s.proto.life.InUse? && s.proto.holder.None?
    requires id !in s.proto.callers && (kind == CP.Committing || kind == CP.Cancelling)
    ensures var s' := RunEvents(s, Shut(id, kind, fault));
            var (t, r) := Finish(s.tx, if kind == CP.Committing then Commit else Rollback, fault);
            && s'.tx == t && id in s'.proto.callers
            && s'.proto.callers[id].pc == CP.Returned(if r.Ok? then CP.Succeeded else CP.Failed)
  {
    QuietReached(table, write, s, id, NewSavePoint);
    ShutRuns(s, id, kind, fault, 10);
    ShutAll(id, kind, fault);
    ShutEnds(s, id, kind, fault);
  }

  lemma ShutAll(id: nat, kind: CP.Kind, fault: Fault)
    ensures ShutFirst(id, kind, fault, 10) == Shut(id, kind, fault)
  {
  }

  lemma ShutEnds(s: System, id: nat, kind: CP.Kind, fault: Fault)
    requires kind == CP.Committing || kind == CP.Cancelling
    ensures var s' := Shutting(s, id, kind, fault, 10);
            var (t, r) := Finish(s.tx, if kind == CP.Committing then Commit else Rollback, fault);
            && s'.tx == t && id in s'.proto.callers
            && s'.proto.callers[id].pc == CP.Returned(if r.Ok? then CP.Succeeded else CP.Failed)
  {
  }

  /** The ten steps of a closer. */
  function Shut(id: nat, kind: CP.Kind, fault: Fault): seq<Event>
  {
    [Shared(CP.Enter(id, kind)), Shared(CP.FastCheck(id)), Shared(CP.Acquire(id)), Shared(CP.Test(id)),
     Shared(CP.Take(id)), Shared(CP.Unlock(id)), Terminate(id, fault), Reply(id),
     Shared(CP.ReleaseActive(id)), Shared(CP.CountResult(id))]
  }

  function ShutEvent(id: nat, kind: CP.Kind, fault: Fault, n: nat): Event
  {
    if n == 6 then Terminate(id, fault)
    else if n == 7 then Reply(id)
    else Shared(CR.ClosingAction(id, kind, true, n))
  }

  function ShutFirst(id: nat, kind: CP.Kind, fault: Fault, n: nat): (events: seq<Event>)
    ensures |events| == n && forall i | 0 <= i < n :: events[i] == ShutEvent(id, kind, fault, i)
  {
    seq(n, i requires 0 <= i < n => ShutEvent(id, kind, fault, i))
  }

  /** The system after `n` of them. */
  function Shutting(s: System, id: nat, kind: CP.Kind, fault: Fault, n: nat): System
  {
    var (t, r) := Finish(s.tx, EndStmt(kind), fault);
    s.(proto := CR.Closing(s.proto, id, kind, r.Ok?, n),
       tx := if n >= 7 then t else s.tx,
       end := if n >= 7 then Some(End(kind, fault, r)) else s.end)
  }

  lemma ShutProtocolStep(s: System, id: nat, kind: CP.Kind, fault: Fault, n: nat)
    requires CR.Quiet(s.proto, id) && CP.Closer(kind) && n < 10 && n != 6 && n != 7
    ensures Next(Shutting(s, id, kind, fault, n), ShutEvent(id, kind, fault, n)) == Shutting(s, id, kind, fault, n + 1)
  {
    CR.ClosingStep(s.proto, id, kind, Finish(s.tx, EndStmt(kind), fault).1.Ok?, n);
  }

  lemma ShutSends(s: System, id: nat, kind: CP.Kind, fault: Fault)
    requires CR.Quiet(s.proto, id) && CP.Closer(kind)
    ensures Next(Shutting(s, id, kind, fault, 6), Terminate(id, fault)) == Shutting(s, id, kind, fault, 7)
  {
    CR.ClosingStep(s.proto, id, kind, Finish(s.tx, EndStmt(kind), fault).1.Ok?, 6);
  }

  lemma ShutAnswers(s: System, id: nat, kind: CP.Kind, fault: Fault)
    requires CR.Quiet(s.proto, id) && CP.Closer(kind)
    ensures Next(Shutting(s, id, kind, fault, 7), Reply(id)) == Shutting(s, id, kind, fault, 8)
  {
    CR.ClosingStep(s.proto, id, kind, Finish(s.tx, EndStmt(kind), fault).1.Ok?, 7);
  }

  lemma ShutStep(s: System, id: nat, kind: CP.Kind, fault: Fault, n: nat)
    requires CR.Quiet(s.proto, id) && CP.Closer(kind) && n < 10
    ensures Next(Shutting(s, id, kind, fault, n), ShutEvent(id, kind, fault, n)) == Shutting(s, id, kind, fault, n + 1)
  {
    if n == 6 {
      ShutSends(s, id, kind, fault);
    } else if n == 7 {
      ShutAnswers(s, id, kind, fault);
    } else {
      ShutProtocolStep(s, id, kind, fault, n);
    }
  }

  lemma {:induction false} ShutRuns(s: System, id: nat, kind: CP.Kind, fault: Fault, n: nat)
    requires CR.Quiet(s.proto, id) && CP.Closer(kind) && n <= 10
    ensures RunEvents(s, ShutFirst(id, kind, fault, n)) == Shutting(s, id, kind, fault, n)
  {
    if n > 0 {
      var before, last := ShutFirst(id, kind, fault, n - 1), ShutEvent(id, kind, fault, n - 1);
      ShutRuns(s, id, kind, fault, n - 1);
      ShutStep(s, id, kind, fault, n - 1);
      assert ShutFirst(id, kind, fault, n) == before + [last];
      EventsConcat(s, before, [last]);
      OneEvent(Shutting(s, id, kind, fault, n - 1), last);
    }
  }
}
