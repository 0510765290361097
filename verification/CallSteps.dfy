/** The calls of a `PgTransaction` one step at a time, as their futures take them
    (src/transaction.rs:328-336, 483-1072): what is done before the first await, the server
    carrying out the statement in flight, and what is done when its answer comes in. */
module CallSteps {
  import opened Wrappers
  import opened KeyOrder
  import opened Tables
  import opened PgErrors
  import opened PgServer
  import opened TxModel

  /** What the future does with the answer to the statement in flight. */
  datatype Cont =
    | Simply(key: Option<Key>, onNone: Option<PgStoreError>)
    | MoreBatches(rest: seq<seq<Pair>>)
    | Saving                     // the name is on the stack and comes off again on an error
    | Releasing(name: string)    // the name is off the stack and goes back on an error
    | RollingBack(name: string)  // likewise; otherwise the RELEASE comes next

  datatype Phase = Sending(stmt: Stmt, cont: Cont) | Answered(reply: Reply, cont: Cont) | Done(outcome: Outcome)

  /** The repair an error calls for. */
  function Fail(t: Tx, cont: Cont, error: PgStoreError): (Tx, Phase)
  {
    match cont
    case Saving => (if t.names == [] then t else Popped(t), Done(Err(error)))
    case Releasing(name) => (t.(names := t.names + [name]), Done(Err(error)))
    case RollingBack(name) => (t.(names := t.names + [name]), Done(Err(error)))
    case _ => (t, Done(Err(error)))
  }

  function Issue(t: Tx, stmt: Stmt, cont: Cont): (Tx, Phase)
  {
    if t.open then (t, Sending(stmt, cont)) else Fail(t, cont, TxClosed)
  }

  function BeginMutation(t: Tx, stmt: Stmt, key: Option<Key>, onNone: Option<PgStoreError>): (Tx, Phase)
  {
    if !t.writable then (t, Done(Err(TxReadOnly))) else Issue(t, stmt, Simply(key, onNone))
  }

  function BeginBatches(t: Tx, batches: seq<seq<Pair>>): (Tx, Phase)
  {
    if batches == [] then (t, Done(Ok(()))) else Issue(t, UpsertMany(batches[0]), MoreBatches(batches[1..]))
  }

  function BeginRead(t: Tx, op: Op): (Tx, Phase)
    requires IsRead(op)
  {
    match op
    case Exists(key) => Issue(t, SelectKey(key), Simply(Some(key), None))
    case Get(key) => Issue(t, SelectKey(key), Simply(Some(key), None))
    case GetMany(keys) => if keys == [] then (t, Done(Ok(()))) else Issue(t, SelectKeys(keys), Simply(None, None))
    case ReadPage(_, dir, lo, hi, page) =>
      if !t.open then (t, Done(Err(TxClosed)))
      else if !Lt(lo, hi) then (t, Done(Ok(())))
      else Issue(t, SelectRange(lo, hi, dir, Some(page)), Simply(None, None))
    case GetRange(lo, hi) =>
      if !Lt(lo, hi) then (t, Done(Ok(()))) else Issue(t, SelectRange(lo, hi, Asc, None), Simply(None, None))
    case Count(lo, hi) =>
      if !Lt(lo, hi) then (t, Done(Ok(()))) else Issue(t, CountRange(lo, hi), Simply(None, None))
  }

  function BeginSavepoint(t: Tx, op: Op): (Tx, Phase)
    requires op.NewSavePoint? || op.ReleaseSavePoint? || op.RollbackSavePoint?
  {
    if op.NewSavePoint? then
      var counter := NextCounter(t.counter);
      var name := SavepointName(counter);
      Issue(t.(counter := counter, names := t.names + [name]), SavepointCmd(name), Saving)
    else if t.names == [] then (t, Done(Ok(())))
    else if op.ReleaseSavePoint? then Issue(Popped(t), ReleaseCmd(Top(t)), Releasing(Top(t)))
    else Issue(Popped(t), RollbackToCmd(Top(t)), RollingBack(Top(t)))
  }

  /** Everything a call does before it first waits for the server. */
  function Begin(t: Tx, op: Op): (Tx, Phase)
  {
    match op
    case Set(key, val) => BeginMutation(t, Upsert(key, val), Some(key), None)
    case Put(key, val) => BeginMutation(t, InsertNew(key, val), Some(key), Some(KeyAlreadyExists(key)))
    case PutIf(key, val, None) => BeginMutation(t, InsertNew(key, val), Some(key), Some(KeyAlreadyExists(key)))
    case PutIf(key, val, Some(want)) => BeginMutation(t, UpdateIf(key, val, want), Some(key),
      Some(ConditionNotMet(key)))
    case Del(key) => BeginMutation(t, Delete(key), Some(key), None)
    case DelIf(key, None) => BeginMutation(t, Delete(key), Some(key), None)
    case DelIf(key, Some(want)) => BeginMutation(t, DeleteIf(key, want), Some(key), Some(ConditionNotMet(key)))
    case DelRange(lo, hi) =>
      if t.writable && !Lt(lo, hi) then (t, Done(Ok(()))) else BeginMutation(t, DeleteRange(lo, hi), None, None)
    case SetMany(_, unique) =>
      if !t.open then (t, Done(Err(TxClosed)))
      else if !t.writable then (t, Done(Err(TxReadOnly)))
      else BeginBatches(t, Batches(unique))
    case NewSavePoint => BeginSavepoint(t, op)
    case ReleaseSavePoint => BeginSavepoint(t, op)
    case RollbackSavePoint => BeginSavepoint(t, op)
    case _ => BeginRead(t, op)
  }

  /** The future gets the answer. */
  function Resume(t: Tx, reply: Reply, cont: Cont): (Tx, Phase)
  {
    if reply.Refusal? then Fail(t, cont, FromSqlx(if cont.Simply? then cont.key else None, reply.error)) else
    match cont
    case Simply(_, onNone) =>
      (t, Done(if reply == Affected(0) && onNone.Some? then Err(onNone.value) else Ok(())))
    case MoreBatches(rest) => BeginBatches(t, rest)
    case Saving => (t, Done(Ok(())))
    case Releasing(_) => (t, Done(Ok(())))
    case RollingBack(name) => Issue(t, ReleaseCmd(name), Releasing(name))
  }

  /** One step: the server carries out what is in flight, struck by `fault`, or its answer is
      taken in. */
  function Advance(t: Tx, phase: Phase, fault: Fault): (Tx, Phase)
  {
    match phase
    case Sending(stmt, cont) =>
      var (server, reply) := Exec(t.server, stmt, fault);
      (t.(server := server), Answered(reply, cont))
    case Answered(reply, cont) => Resume(t, reply, cont)
    case Done(_) => (t, phase)
  }

  function Advances(t: Tx, phase: Phase, moves: seq<Fault>): (Tx, Phase)
    decreases |moves|
  {
    if moves == [] then (t, phase) else
      var (t', phase') := Advance(t, phase, moves[0]);
      Advances(t', phase', moves[1..])
  }

  /** A call some steps after its beginning. */
  function Proceed(t: Tx, op: Op, moves: seq<Fault>): (Tx, Phase)
  {
    var (t', phase) := Begin(t, op);
    Advances(t', phase, moves)
  }

  /** The faults that struck its statements, one for each. */
  function Met(t: Tx, phase: Phase, moves: seq<Fault>): seq<Fault>
    decreases |moves|
  {
    if moves == [] || phase.Done? then [] else
      var (t', phase') := Advance(t, phase, moves[0]);
      (if phase.Sending? then [moves[0]] else []) + Met(t', phase', moves[1..])
  }

  function FaultsMet(t: Tx, op: Op, moves: seq<Fault>): seq<Fault>
  {
    var (t', phase) := Begin(t, op);
    Met(t', phase, moves)
  }

  lemma {:induction false} OneMoreMove(t: Tx, phase: Phase, moves: seq<Fault>, fault: Fault)
    ensures var (t', phase') := Advances(t, phase, moves);
            && Advances(t, phase, moves + [fault]) == Advance(t', phase', fault)
            && Met(t, phase, moves + [fault]) == Met(t, phase, moves) + if phase'.Sending? then [fault] else []
    decreases |moves|
  {
    if moves == [] {
      assert (moves + [fault])[1..] == [];
    } else {
      assert (moves + [fault])[1..] == moves[1..] + [fault];
      var (t1, phase1) := Advance(t, phase, moves[0]);
      OneMoreMove(t1, phase1, moves[1..], fault);
      if phase.Done? {
        DoneStays(t, phase, moves);
      }
    }
  }

  lemma {:induction false} DoneStays(t: Tx, phase: Phase, moves: seq<Fault>)
    requires phase.Done?
    ensures Advances(t, phase, moves) == (t, phase) && Met(t, phase, moves) == []
    decreases |moves|
  {
    if moves != [] {
      DoneStays(t, phase, moves[1..]);
    }
  }

  // ---- the steps of a call add up to the call ------------------------------------------------

  function Left(phase: Phase): nat
  {
    match phase
    case Sending(_, cont) => 2 * After(cont) + 2
    case Answered(_, cont) => 2 * After(cont) + 1
    case Done(_) => 0
  }

  /** How many more statements may follow the one in flight. */
  function After(cont: Cont): nat
  {
    match cont
    case MoreBatches(rest) => |rest|
    case RollingBack(_) => 1
    case _ => 0
  }

  /** The call from here to its end, `faults` striking the statements still to come. */
  function Complete(t: Tx, phase: Phase, faults: seq<Fault>): (Tx, Outcome)
    decreases Left(phase)
  {
    match phase
    case Done(outcome) => (t, outcome)
    case Sending(_, _) =>
      var (t', phase') := Advance(t, phase, FaultAt(faults, 0));
      Complete(t', phase', Later(faults))
    case Answered(reply, cont) =>
      var (t', phase') := Resume(t, reply, cont);
      Complete(t', phase', faults)
  }

  /** One statement, sent and answered. */
  lemma OneStatement(t: Tx, stmt: Stmt, cont: Cont, faults: seq<Fault>)
    ensures var (server, reply) := Exec(t.server, stmt, FaultAt(faults, 0));
            var (t', phase) := Resume(t.(server := server), reply, cont);
            Complete(t, Sending(stmt, cont), faults) == Complete(t', phase, Later(faults))
  {
    var (server, reply) := Exec(t.server, stmt, FaultAt(faults, 0));
    assert Complete(t, Sending(stmt, cont), faults) ==
        Complete(t.(server := server), Answered(reply, cont), Later(faults));
  }

  lemma {:induction false} CompleteBatches(t: Tx, batches: seq<seq<Pair>>, faults: seq<Fault>)
    requires t.open
    ensures var (t', phase) := BeginBatches(t, batches);
            Complete(t', phase, faults) == SendBatches(t, batches, faults)
    decreases |batches|
  {
    if batches != [] {
      var (t', r) := SendPlain(t, UpsertMany(batches[0]), FaultAt(faults, 0));
      OneStatement(t, UpsertMany(batches[0]), MoreBatches(batches[1..]), faults);
      if r.Ok? {
        CompleteBatches(t', batches[1..], Later(faults));
      }
    }
  }

  lemma CompleteMutation(t: Tx, stmt: Stmt, key: Option<Key>, onNone: Option<PgStoreError>, faults: seq<Fault>)
    ensures var (t', phase) := BeginMutation(t, stmt, key, onNone);
            Complete(t', phase, faults) == Mutate(t, stmt, key, onNone, FaultAt(faults, 0))
  {
    OneStatement(t, stmt, Simply(key, onNone), faults);
  }

  lemma CompleteQuery(t: Tx, stmt: Stmt, key: Option<Key>, faults: seq<Fault>)
    ensures var (t', phase) := Issue(t, stmt, Simply(key, None));
            var (t1, r) := Send(t, stmt, key, FaultAt(faults, 0));
            Complete(t', phase, faults) == (t1, if r.Err? then Err(r.error) else Ok(()))
  {
    OneStatement(t, stmt, Simply(key, None), faults);
  }

  lemma CompleteRead(t: Tx, op: Op, faults: seq<Fault>)
    requires IsRead(op)
    ensures var (t', phase) := BeginRead(t, op);
            Complete(t', phase, faults) == ReadStep(t, op, FaultAt(faults, 0))
  {
    match op
    case Exists(key) => CompleteQuery(t, SelectKey(key), Some(key), faults);
    case Get(key) => CompleteQuery(t, SelectKey(key), Some(key), faults);
    case GetMany(keys) => CompleteQuery(t, SelectKeys(keys), None, faults);
    case ReadPage(_, dir, lo, hi, page) => CompleteQuery(t, SelectRange(lo, hi, dir, Some(page)), None, faults);
    case GetRange(lo, hi) => CompleteQuery(t, SelectRange(lo, hi, Asc, None), None, faults);
    case Count(lo, hi) => CompleteQuery(t, CountRange(lo, hi), None, faults);
  }

  lemma CompleteRelease(t: Tx, faults: seq<Fault>)
    requires t.names != [] && t.open
    ensures Complete(Popped(t), Sending(ReleaseCmd(Top(t)), Releasing(Top(t))), faults) ==
            StepRelease(t, FaultAt(faults, 0))
  {
    assert Popped(t).names + [Top(t)] == t.names;
    OneStatement(Popped(t), ReleaseCmd(Top(t)), Releasing(Top(t)), faults);
  }

  lemma CompleteRollback(t: Tx, faults: seq<Fault>)
    requires t.names != [] && t.open
    ensures Complete(Popped(t), Sending(RollbackToCmd(Top(t)), RollingBack(Top(t))), faults)
         == StepRollback(t, FaultAt(faults, 0), FaultAt(faults, 1))
  {
    assert Popped(t).names + [Top(t)] == t.names;
    var (t1, r1) := SendPlain(t, RollbackToCmd(Top(t)), FaultAt(faults, 0));
    OneStatement(Popped(t), RollbackToCmd(Top(t)), RollingBack(Top(t)), faults);
    if r1.Ok? {
      CompleteRelease(t1, Later(faults));
    }
  }

  lemma CompleteSavepoint(t: Tx, op: Op, faults: seq<Fault>)
    requires op.NewSavePoint? || op.ReleaseSavePoint? || op.RollbackSavePoint?
    ensures var (t', phase) := BeginSavepoint(t, op);
            Complete(t', phase, faults) == Step(t, op, faults)
  {
    if op.NewSavePoint? {
      var counter := NextCounter(t.counter);
      var pushed := t.(counter := counter, names := t.names + [SavepointName(counter)]);
      OneStatement(pushed, SavepointCmd(SavepointName(counter)), Saving, faults);
      assert (t.names + [SavepointName(counter)])[..|t.names|] == t.names;
    } else if t.names != [] {
      assert Popped(t).names + [Top(t)] == t.names;
      if t.open && op.ReleaseSavePoint? {
        CompleteRelease(t, faults);
      } else if t.open {
        CompleteRollback(t, faults);
      }
    }
  }

  /** Taken to its end, a call is the model's step. */
  lemma CompleteIsStep(t: Tx, op: Op, faults: seq<Fault>)
    ensures var (t', phase) := Begin(t, op);
            Complete(t', phase, faults) == Step(t, op, faults)
  {
    match op
    case Set(key, val) => CompleteMutation(t, Upsert(key, val), Some(key), None, faults);
    case Put(key, val) => CompleteMutation(t, InsertNew(key, val), Some(key), Some(KeyAlreadyExists(key)), faults);
    case PutIf(key, val, None) => CompleteMutation(t, InsertNew(key, val), Some(key), Some(KeyAlreadyExists(key)),
      faults);
    case PutIf(key, val, Some(want)) =>
      CompleteMutation(t, UpdateIf(key, val, want), Some(key), Some(ConditionNotMet(key)), faults);
    case Del(key) => CompleteMutation(t, Delete(key), Some(key), None, faults);
    case DelIf(key, None) => CompleteMutation(t, Delete(key), Some(key), None, faults);
    case DelIf(key, Some(want)) =>
      CompleteMutation(t, DeleteIf(key, want), Some(key), Some(ConditionNotMet(key)), faults);
    case DelRange(lo, hi) => CompleteMutation(t, DeleteRange(lo, hi), None, None, faults);
    case SetMany(_, unique) => if t.open && t.writable { CompleteBatches(t, Batches(unique), faults); }
    case NewSavePoint => CompleteSavepoint(t, op, faults);
    case ReleaseSavePoint => CompleteSavepoint(t, op, faults);
    case RollbackSavePoint => CompleteSavepoint(t, op, faults);
    case _ => CompleteRead(t, op, faults);
  }

  lemma {:induction false} AdvancesComplete(t: Tx, phase: Phase, moves: seq<Fault>)
    requires Advances(t, phase, moves).1.Done?
    ensures var (t', phase') := Advances(t, phase, moves);
            Complete(t, phase, Met(t, phase, moves)) == (t', phase'.outcome)
    decreases |moves|
  {
    if phase.Done? {
      DoneStays(t, phase, moves);
    } else if moves != [] {
      var (t1, phase1) := Advance(t, phase, moves[0]);
      AdvancesComplete(t1, phase1, moves[1..]);
      var met := Met(t1, phase1, moves[1..]);
      if phase.Sending? {
        assert Met(t, phase, moves) == [moves[0]] + met && ([moves[0]] + met)[1..] == met;
      } else {
        assert Met(t, phase, moves) == [] + met == met;
      }
    }
  }

  /** A call whose steps have come to an end has done what the model's step does, under the
      faults that struck its statements. */
  lemma ProceedIsStep(t: Tx, op: Op, moves: seq<Fault>)
    requires Proceed(t, op, moves).1.Done?
    ensures var (t', phase) := Proceed(t, op, moves);
            Step(t, op, FaultsMet(t, op, moves)) == (t', phase.outcome)
  {
    var (t1, phase1) := Begin(t, op);
    AdvancesComplete(t1, phase1, moves);
    CompleteIsStep(t, op, FaultsMet(t, op, moves));
  }

  // ---- what a call keeps at every step ---------------------------------------------------------

  predicate Passed(r: Outcome)
  {
    r != Err(TxClosed) && r != Err(TxReadOnly)
  }

  /** No terminal command, and no error of a check that the call has already passed. */
  predicate Sound(phase: Phase)
  {
    match phase
    case Sending(stmt, cont) => !stmt.Commit? && !stmt.Rollback? && SoundCont(cont)
    case Answered(_, cont) => SoundCont(cont)
    case Done(outcome) => Passed(outcome)
  }

  predicate SoundCont(cont: Cont)
  {
    cont.Simply? && cont.onNone.Some? ==> Passed(Err(cont.onNone.value))
  }

  predicate KeepsFrame(t: Tx, t': Tx)
  {
    t'.open == t.open && t'.writable == t.writable && t'.server.committed == t.server.committed
  }

  lemma BeginKeeps(t: Tx, op: Op)
    requires t.open && (t.writable || !Writes(op))
    ensures var (t', phase) := Begin(t, op);
            KeepsFrame(t, t') && Sound(phase)
  {
  }

  lemma AdvanceKeeps(t: Tx, phase: Phase, fault: Fault)
    requires t.open && Sound(phase)
    ensures var (t', phase') := Advance(t, phase, fault);
            KeepsFrame(t, t') && Sound(phase')
  {
  }

  lemma {:induction false} AdvancesKeep(t: Tx, phase: Phase, moves: seq<Fault>)
    requires t.open && Sound(phase)
    ensures var (t', phase') := Advances(t, phase, moves);
            KeepsFrame(t, t') && Sound(phase')
    decreases |moves|
  {
    if moves != [] {
      var (t1, phase1) := Advance(t, phase, moves[0]);
      AdvanceKeeps(t, phase, moves[0]);
      AdvancesKeep(t1, phase1, moves[1..]);
    }
  }

  lemma ProceedKeeps(t: Tx, op: Op, moves: seq<Fault>)
    requires t.open && (t.writable || !Writes(op))
    ensures var (t', phase) := Proceed(t, op, moves);
            KeepsFrame(t, t') && Sound(phase)
  {
    BeginKeeps(t, op);
    AdvancesKeep(Begin(t, op).0, Begin(t, op).1, moves);
  }
}
