/** What every run of operations and savepoint calls guarantees, whichever statements fail
    (src/transaction.rs:1012-1072). */
module SavepointRuns {
  import opened Wrappers
  import opened Decimal
  import opened KeyOrder
  import opened Tables
  import opened PgErrors
  import opened PgServer
  import opened TxModel

  function NamesOf(saves: seq<Savepoint>): (names: seq<string>)
    ensures |names| == |saves| && forall i | 0 <= i < |saves| :: names[i] == saves[i].name
  {
    seq(|saves|, i requires 0 <= i < |saves| => saves[i].name)
  }

  /** The connection is held by the client and the server still has its transaction block. */
  predicate Alive(t: Tx)
  {
    t.open && !t.server.status.Gone?
  }

  /** Client name stack and server savepoint stack agree. */
  predicate InSync(t: Tx)
  {
    Alive(t) ==> t.names == NamesOf(t.server.saves)
  }

  // ---- one call ------------------------------------------------------------------------

  /** What a call other than a savepoint call may change: the working table and the status,
      and on a read-only transaction not even the table. */
  predicate TableStep(t: Tx, t': Tx)
  {
    && t' == t.(server := t'.server)
    && t'.server.committed == t.server.committed
    && (t.server.status.Gone? ==> t'.server == t.server)
    && (!t'.server.status.Gone? ==>
          && t'.server.saves == t.server.saves
          && (t.server.status.Failed? ==> t'.server == t.server)
          && (!t.writable ==> t'.server.working == t.server.working))
  }

  lemma QueryKeeps(t: Tx, stmt: Stmt, key: Option<Key>, fault: Fault)
    requires IsQuery(stmt)
    ensures TableStep(t, Send(t, stmt, key, fault).0)
  {
  }

  lemma ReadKeeps(t: Tx, op: Op, fault: Fault)
    requires IsRead(op)
    ensures TableStep(t, ReadStep(t, op, fault).0)
  {
    match op
    case Exists(key) => QueryKeeps(t, SelectKey(key), Some(key), fault);
    case Get(key) => QueryKeeps(t, SelectKey(key), Some(key), fault);
    case GetMany(keys) => QueryKeeps(t, SelectKeys(keys), None, fault);
    case ReadPage(_, dir, lo, hi, page) => QueryKeeps(t, SelectRange(lo, hi, dir, Some(page)), None, fault);
    case GetRange(lo, hi) => QueryKeeps(t, SelectRange(lo, hi, Asc, None), None, fault);
    case Count(lo, hi) => QueryKeeps(t, CountRange(lo, hi), None, fault);
  }

  lemma MutateKeeps(t: Tx, stmt: Stmt, key: Option<Key>, onNone: Option<PgStoreError>, fault: Fault)
    requires IsWrite(stmt)
    ensures TableStep(t, Mutate(t, stmt, key, onNone, fault).0)
  {
  }

  lemma {:induction false} BatchesKeep(t: Tx, batches: seq<seq<Pair>>, faults: seq<Fault>)
    requires t.writable
    ensures TableStep(t, SendBatches(t, batches, faults).0)
    decreases |batches|
  {
    if batches != [] {
      var (t', r) := SendPlain(t, UpsertMany(batches[0]), FaultAt(faults, 0));
      assert TableStep(t, t');
      if r.Ok? {
        BatchesKeep(t', batches[1..], Later(faults));
      }
    }
  }

  predicate IsSavepointCall(op: Op)
  {
    op.NewSavePoint? || op.ReleaseSavePoint? || op.RollbackSavePoint?
  }

  lemma TableOps(t: Tx, op: Op, faults: seq<Fault>)
    requires Legal(op) && !IsSavepointCall(op)
    ensures TableStep(t, Step(t, op, faults).0)
  {
    var f := FaultAt(faults, 0);
    match op
    case Set(key, val) => MutateKeeps(t, Upsert(key, val), Some(key), None, f);
    case Put(key, val) => MutateKeeps(t, InsertNew(key, val), Some(key), Some(KeyAlreadyExists(key)), f);
    case PutIf(key, val, chk) =>
      if chk.None? { MutateKeeps(t, InsertNew(key, val), Some(key), Some(KeyAlreadyExists(key)), f); }
      else { MutateKeeps(t, UpdateIf(key, val, chk.value), Some(key), Some(ConditionNotMet(key)), f); }
    case Del(key) => MutateKeeps(t, Delete(key), Some(key), None, f);
    case DelIf(key, chk) =>
      if chk.None? { MutateKeeps(t, Delete(key), Some(key), None, f); }
      else { MutateKeeps(t, DeleteIf(key, chk.value), Some(key), Some(ConditionNotMet(key)), f); }
    case DelRange(lo, hi) => MutateKeeps(t, DeleteRange(lo, hi), None, None, f);
    case SetMany(_, unique) => if t.writable { BatchesKeep(t, Batches(unique), faults); }
    case _ => ReadKeeps(t, op, f);
  }

  lemma TopIsInnermost(t: Tx)
    requires Alive(t) && InSync(t) && t.names != []
    ensures |t.server.saves| == |t.names|
    ensures Innermost(t.server.saves, Top(t)) == |t.server.saves| - 1
  {
  }

  /** A savepoint call pushes one level, pops one level or leaves both stacks alone, and does
      the same to both; a read-only transaction's table is only ever replaced by a snapshot. */
  predicate StackStep(t: Tx, t': Tx)
  {
    && t'.open == t.open && t'.writable == t.writable
    && t'.server.committed == t.server.committed
    && (t.server.status.Gone? ==> t'.server == t.server)
    && (t'.names == t.names || (|t'.names| == |t.names| + 1 && t'.names[..|t.names|] == t.names)
        || (t.names != [] && t'.names == t.names[..|t.names| - 1]))
    && (Alive(t') && InSync(t) ==>
          && t'.names == NamesOf(t'.server.saves)
          && t.names == NamesOf(t.server.saves)
          && (|t.names| <= |t'.names| ==> t'.server.saves[..|t.names|] == t.server.saves)
          && (|t'.names| < |t.names| ==> t'.server.saves == t.server.saves[..|t'.names|]))
  }

  lemma NewKeeps(t: Tx, fault: Fault)
    ensures StackStep(t, StepNew(t, fault).0)
  {
  }

  lemma ReleaseKeeps(t: Tx, fault: Fault)
    ensures StackStep(t, StepRelease(t, fault).0)
  {
    if Alive(t) && InSync(t) && t.names != [] {
      TopIsInnermost(t);
    }
  }

  /** ROLLBACK TO leaves both stacks as they are, a lost connection aside. */
  lemma RollbackToKeeps(t: Tx, fault: Fault)
    requires t.names != []
    ensures var t1 := SendPlain(t, RollbackToCmd(Top(t)), fault).0;
            && t1 == t.(server := t1.server)
            && t1.server.committed == t.server.committed
            && (t.server.status.Gone? ==> t1.server == t.server)
            && (Alive(t1) && InSync(t) ==> InSync(t1) && t1.server.saves == t.server.saves)
  {
    if Alive(t) && InSync(t) {
      TopIsInnermost(t);
      assert t.server.saves[..|t.server.saves|] == t.server.saves;
    }
  }

  lemma RollbackKeeps(t: Tx, rollbackFault: Fault, releaseFault: Fault)
    ensures StackStep(t, StepRollback(t, rollbackFault, releaseFault).0)
  {
    if t.names != [] {
      RollbackToKeeps(t, rollbackFault);
      ReleaseKeeps(SendPlain(t, RollbackToCmd(Top(t)), rollbackFault).0, releaseFault);
    }
  }

  lemma EachCall(t: Tx, op: Op, faults: seq<Fault>)
    requires Legal(op)
    ensures if IsSavepointCall(op) then StackStep(t, Step(t, op, faults).0) else TableStep(t, Step(t, op, faults).0)
  {
    if op.NewSavePoint? {
      NewKeeps(t, FaultAt(faults, 0));
    } else if op.ReleaseSavePoint? {
      ReleaseKeeps(t, FaultAt(faults, 0));
    } else if op.RollbackSavePoint? {
      RollbackKeeps(t, FaultAt(faults, 0), FaultAt(faults, 1));
    } else {
      TableOps(t, op, faults);
    }
  }

  /** What every call keeps: the stacks in step, the durable table, and every savepoint (name
      and snapshot) below the shallower of the two depths. */
  predicate Keeps(t: Tx, t': Tx, depth: nat)
  {
    && InSync(t')
    && t'.open == t.open && t'.writable == t.writable
    && t'.server.committed == t.server.committed
    && (Alive(t') ==> Alive(t))
    && (Alive(t') && depth <= |t.names| && depth <= |t'.names| ==>
          depth <= |t'.server.saves| && depth <= |t.server.saves|
              && t'.server.saves[..depth] == t.server.saves[..depth])
  }

  lemma StepKeeps(t: Tx, t': Tx, depth: nat)
    requires InSync(t) && (TableStep(t, t') || StackStep(t, t'))
    ensures Keeps(t, t', depth)
  {
    if Alive(t') && depth <= |t.names| && depth <= |t'.names| && !TableStep(t, t') {
      if |t.names| <= |t'.names| {
        assert t'.server.saves[..depth] == t'.server.saves[..|t.names|][..depth];
      } else {
        assert t'.server.saves[..depth] == t.server.saves[..|t'.names|][..depth] == t.server.saves[..depth];
      }
    }
  }

  // ---- whole runs ----------------------------------------------------------------------

  lemma {:induction false} RunOneMore(t: Tx, calls: seq<Call>, last: Call)
    ensures Run(t, calls + [last]) == Step(Run(t, calls), last.op, last.faults).0
    decreases |calls|
  {
    if calls == [] {
      assert (calls + [last])[1..] == [];
    } else {
      assert (calls + [last])[1..] == calls[1..] + [last];
      RunOneMore(Step(t, calls[0].op, calls[0].faults).0, calls[1..], last);
    }
  }

  /** The run never leaves the savepoint level `depth`: it opens and closes deeper levels only. */
  predicate StaysAtOrAbove(t: Tx, calls: seq<Call>, depth: nat)
    decreases |calls|
  {
    depth <= |t.names| && (calls != [] ==> StaysAtOrAbove(Step(t, calls[0].op, calls[0].faults).0, calls[1..], depth))
  }

  /** On every run, with any statement failing in any way, the two stacks agree whenever the
      connection is alive; the durable table is untouched; and the levels the run never leaves
      are still there, snapshots included. */
  lemma {:induction false} RunKeeps(t: Tx, calls: seq<Call>, depth: nat)
    requires AllLegal(calls) && InSync(t) && StaysAtOrAbove(t, calls, depth)
    ensures Keeps(t, Run(t, calls), depth)
    ensures depth <= |Run(t, calls).names|
    decreases |calls|
  {
    if calls != [] {
      var t' := Step(t, calls[0].op, calls[0].faults).0;
      EachCall(t, calls[0].op, calls[0].faults);
      StepKeeps(t, t', depth);
      RunKeeps(t', calls[1..], depth);
    }
  }

  lemma {:induction false} AlwaysAboveZero(t: Tx, calls: seq<Call>)
    ensures StaysAtOrAbove(t, calls, 0)
    decreases |calls|
  {
    if calls != [] {
      AlwaysAboveZero(Step(t, calls[0].op, calls[0].faults).0, calls[1..]);
    }
  }

  /** From BEGIN on, client stack and server stack agree on every run. */
  lemma StacksAgree(table: Table, writable: bool, calls: seq<Call>)
    requires AllLegal(calls)
    ensures var t := Run(Begun(table, writable), calls);
            !t.server.status.Gone? ==> t.names == NamesOf(t.server.saves)
  {
    AlwaysAboveZero(Begun(table, writable), calls);
    RunKeeps(Begun(table, writable), calls, 0);
  }

  /** Rolling back undoes everything since the matching `new_save_point`: whatever the calls in
      between did, failed at or nested, the session and the name stack are exactly the ones
      from before that `new_save_point`, aborted block included. */
  lemma RollbackRestores(t: Tx, saveFault: Fault, calls: seq<Call>, rollbackFault: Fault, releaseFault: Fault)
    requires InSync(t) && t.open && AllLegal(calls)
    requires StepNew(t, saveFault).1.Ok?
    requires var t1 := StepNew(t, saveFault).0;
             StaysAtOrAbove(t1, calls, |t1.names|) && |Run(t1, calls).names| == |t1.names|
    requires StepRollback(Run(StepNew(t, saveFault).0, calls), rollbackFault, releaseFault).1.Ok?
    ensures var t3 := StepRollback(Run(StepNew(t, saveFault).0, calls), rollbackFault, releaseFault).0;
            t3.server == t.server && t3.names == t.names && t3.open && t3.writable == t.writable
  {
    var t1 := StepNew(t, saveFault).0;
    SavedLevel(t, saveFault);
    RunKeeps(t1, calls, |t1.names|);
    var t2 := Run(t1, calls);
    RolledBackLevel(t2, rollbackFault, releaseFault);
    SameLevels(t, t1, t2);
  }

  /** If all levels up to the saved one are as they were, so are the stacks below it. */
  lemma SameLevels(t: Tx, t1: Tx, t2: Tx)
    requires Alive(t1) && Alive(t2) && InSync(t1) && InSync(t2) && Keeps(t1, t2, |t1.names|)
    requires |t2.names| == |t1.names| == |t.names| + 1 && t1.names[..|t.names|] == t.names
    requires |t1.server.saves| == |t.server.saves| + 1 && t1.server.saves[..|t.server.saves|] == t.server.saves
    ensures t2.server.saves == t1.server.saves && t2.server.saves[..|t.names|] == t.server.saves
    ensures t2.names[..|t.names|] == t.names
  {
    var n := |t1.names|;
    assert t2.server.saves[..n] == t2.server.saves && t1.server.saves[..n] == t1.server.saves;
    assert t2.names == t1.names;
  }

  lemma SavedLevel(t: Tx, fault: Fault)
    requires InSync(t) && t.open && StepNew(t, fault).1.Ok?
    ensures var t' := StepNew(t, fault).0;
            && t.server.status.InTx? && t'.open && t'.writable == t.writable && InSync(t')
            && |t'.names| == |t.names| + 1 && t'.names[..|t.names|] == t.names
            && t'.server == t.server.(saves := t.server.saves + [Savepoint(t'.names[|t.names|], t.server.working)])
  {
  }

  lemma RolledBackLevel(t: Tx, rollbackFault: Fault, releaseFault: Fault)
    requires InSync(t) && t.open && t.names != [] && StepRollback(t, rollbackFault, releaseFault).1.Ok?
    ensures var (t', n) := (StepRollback(t, rollbackFault, releaseFault).0, |t.names| - 1);
            && Alive(t) && |t.server.saves| == n + 1
            && t' == t.(server := t'.server, names := t.names[..n])
            && t'.server == Session(t.server.committed, t.server.saves[n].snapshot, t.server.saves[..n], InTx)
  {
    TopIsInnermost(t);
    assert t.server.saves[..|t.server.saves|] == t.server.saves;
  }

  /** The rollback cannot be refused by the protocol itself: on a live connection, with both
      statements reaching a healthy server, it succeeds, even in an aborted block. */
  lemma RollbackAlwaysAvailable(t: Tx)
    requires InSync(t) && Alive(t)
    ensures Step(t, RollbackSavePoint, []).1.Ok?
    ensures t.names != [] ==> Step(t, RollbackSavePoint, []).0.server.status.InTx?
  {
    if t.names != [] {
      TopIsInnermost(t);
      assert t.server.saves[..|t.server.saves|] == t.server.saves;
    }
  }

  /** Releasing keeps the table and drops exactly the innermost level. */
  lemma ReleaseKeepsTable(t: Tx, fault: Fault)
    requires InSync(t) && t.open && t.names != [] && Step(t, ReleaseSavePoint, [fault]).1.Ok?
    ensures var t' := Step(t, ReleaseSavePoint, [fault]).0;
            && t'.server == t.server.(saves := t.server.saves[..|t.server.saves| - 1])
            && t'.names == t.names[..|t.names| - 1]
  {
    TopIsInnermost(t);
  }

  /** If ROLLBACK TO worked but the RELEASE after it did not, the call fails with the level
      still on both stacks; calling it again then reaches the very state that an undisturbed
      rollback would have reached at once. */
  lemma InterruptedRollbackRetries(t: Tx, error: SqlxError)
    requires InSync(t) && Alive(t) && t.names != []
    ensures var (stuck, r) := Step(t, RollbackSavePoint, [Fine, Refused(error)]);
            && r == Err(FromSqlx(None, error))
            && stuck.names == t.names && stuck.server.saves == t.server.saves && stuck.server.status.Failed?
            && Step(stuck, RollbackSavePoint, []) == Step(t, RollbackSavePoint, [])
  {
    TopIsInnermost(t);
    assert t.server.saves[..|t.server.saves|] == t.server.saves;
  }

  // ---- names ---------------------------------------------------------------------------

  function Attempts(calls: seq<Call>): nat
  {
    if calls == [] then 0 else (if calls[0].op.NewSavePoint? then 1 else 0) + Attempts(calls[1..])
  }

  /** The name the `n`-th attempt gets, counting from 1. */
  function NthName(n: nat): string
  {
    SavepointName(n % U32_LIMIT)
  }

  lemma FirstNames()
    ensures NthName(1) == "sp_1" && NthName(10) == "sp_10"
  {
    assert Print(1) == "1";
    assert Print(10) == Print(1) + "0";
  }

  /** Two attempts share a name exactly when they are a multiple of 2^32 apart. */
  lemma NamesCollideOnlyByWrapping(m: nat, n: nat)
    ensures NthName(m) == NthName(n) <==> m % 4_294_967_296 == n % 4_294_967_296
  {
    if NthName(m) == NthName(n) {
      assert NthName(m)[3..] == Print(m % U32_LIMIT) && NthName(n)[3..] == Print(n % U32_LIMIT);
      PrintInjective(m % U32_LIMIT, n % U32_LIMIT);
    }
  }

  /** The stack holds the names of some increasing list of attempts out of the first `made`. */
  predicate FromAttempts(names: seq<string>, attempts: seq<nat>, made: nat)
  {
    && |attempts| == |names|
    && (forall i | 0 <= i < |names| :: names[i] == NthName(attempts[i]) && 1 <= attempts[i] <= made)
    && (forall i, j | 0 <= i < j < |attempts| :: attempts[i] < attempts[j])
  }

  /** An attempt counts and may push its name; nothing else counts, and it may pop one. */
  predicate CounterStep(t: Tx, t': Tx, op: Op)
  {
    || (op.NewSavePoint? && t'.counter == NextCounter(t.counter)
        && (t'.names == t.names || t'.names == t.names + [SavepointName(t'.counter)]))
    || (!op.NewSavePoint? && t'.counter == t.counter
        && (t'.names == t.names || (t.names != [] && t'.names == t.names[..|t.names| - 1])))
  }

  lemma CounterMoves(t: Tx, op: Op, faults: seq<Fault>)
    requires Legal(op)
    ensures CounterStep(t, Step(t, op, faults).0, op)
  {
    if !IsSavepointCall(op) {
      TableOps(t, op, faults);
    }
  }

  function MoreMade(made: nat, op: Op): nat
  {
    if op.NewSavePoint? then made + 1 else made
  }

  /** One call: the attempts behind the names that are still on the stack. */
  lemma AttemptsAfter(t: Tx, t': Tx, op: Op, made: nat, attempts: seq<nat>) returns (next: seq<nat>)
    requires t.counter == made % U32_LIMIT && FromAttempts(t.names, attempts, made)
    requires CounterStep(t, t', op)
    ensures t'.counter == MoreMade(made, op) % U32_LIMIT && FromAttempts(t'.names, next, MoreMade(made, op))
  {
    CounterAfter(made);
    next := if t'.names == t.names then attempts
            else if op.NewSavePoint? then attempts + [made + 1]
            else attempts[..|attempts| - 1];
  }

  lemma {:induction false} StackComesFromAttempts(t: Tx, calls: seq<Call>, made: nat, attempts: seq<nat>)
    returns (after: seq<nat>)
    requires AllLegal(calls)
    requires t.counter == made % U32_LIMIT && FromAttempts(t.names, attempts, made)
    ensures Run(t, calls).counter == (made + Attempts(calls)) % U32_LIMIT
    ensures FromAttempts(Run(t, calls).names, after, made + Attempts(calls))
    decreases |calls|
  {
    if calls == [] {
      return attempts;
    }
    var t' := Step(t, calls[0].op, calls[0].faults).0;
    CounterMoves(t, calls[0].op, calls[0].faults);
    var next := AttemptsAfter(t, t', calls[0].op, made, attempts);
    after := StackComesFromAttempts(t', calls[1..], MoreMade(made, calls[0].op), next);
  }

  lemma CounterAfter(made: nat)
    ensures NextCounter(made % U32_LIMIT) == (made + 1) % U32_LIMIT
  {
  }

  /** In any run with at most 2^32 `new_save_point` calls, failed ones included, no two
      savepoints that are open together share a name. */
  lemma OpenNamesDistinct(table: Table, writable: bool, calls: seq<Call>)
    requires AllLegal(calls) && Attempts(calls) <= 4_294_967_296
    ensures var names := Run(Begun(table, writable), calls).names;
            forall i, j | 0 <= i < j < |names| :: names[i] != names[j]
  {
    var names := Run(Begun(table, writable), calls).names;
    var attempts := StackComesFromAttempts(Begun(table, writable), calls, 0, []);
    forall i, j | 0 <= i < j < |names| ensures names[i] != names[j] {
      NamesCollideOnlyByWrapping(attempts[i], attempts[j]);
    }
  }

  // ---- read-only transactions ------------------------------------------------------------

  /** Every table the session could still show is `table`. */
  predicate OnlyShows(t: Tx, table: Table)
  {
    !t.server.status.Gone? ==>
      t.server.working == table && forall i | 0 <= i < |t.server.saves| :: t.server.saves[i].snapshot == table
  }

  lemma SavepointCommandShows(t: Tx, stmt: Stmt, fault: Fault, table: Table)
    requires stmt.SavepointCmd? || stmt.ReleaseCmd? || stmt.RollbackToCmd?
    requires OnlyShows(t, table)
    ensures OnlyShows(SendPlain(t, stmt, fault).0, table)
  {
  }

  lemma NewShows(t: Tx, fault: Fault, table: Table)
    requires OnlyShows(t, table)
    ensures OnlyShows(StepNew(t, fault).0, table)
  {
    var counter := NextCounter(t.counter);
    SavepointCommandShows(t.(counter := counter), SavepointCmd(SavepointName(counter)), fault, table);
  }

  lemma ReleaseShows(t: Tx, fault: Fault, table: Table)
    requires OnlyShows(t, table)
    ensures OnlyShows(StepRelease(t, fault).0, table)
  {
    if t.names != [] {
      SavepointCommandShows(t, ReleaseCmd(Top(t)), fault, table);
    }
  }

  lemma SavepointCallsShow(t: Tx, op: Op, faults: seq<Fault>, table: Table)
    requires IsSavepointCall(op) && OnlyShows(t, table)
    ensures OnlyShows(Step(t, op, faults).0, table)
  {
    var f := FaultAt(faults, 0);
    if op.NewSavePoint? {
      NewShows(t, f, table);
    } else if op.ReleaseSavePoint? {
      ReleaseShows(t, f, table);
    } else if t.names != [] {
      SavepointCommandShows(t, RollbackToCmd(Top(t)), f, table);
      ReleaseShows(SendPlain(t, RollbackToCmd(Top(t)), f).0, FaultAt(faults, 1), table);
    }
  }

  /** A read-only transaction never changes the working table, whatever mix of reads,
      attempted writes and savepoint calls it makes, although the server is not told that it
      is read-only. */
  lemma {:induction false} ReadOnlyNeverWrites(t: Tx, calls: seq<Call>, table: Table)
    requires AllLegal(calls) && !t.writable && OnlyShows(t, table)
    ensures OnlyShows(Run(t, calls), table) && !Run(t, calls).writable
    decreases |calls|
  {
    if calls != [] {
      EachCall(t, calls[0].op, calls[0].faults);
      if IsSavepointCall(calls[0].op) {
        SavepointCallsShow(t, calls[0].op, calls[0].faults, table);
      }
      ReadOnlyNeverWrites(Step(t, calls[0].op, calls[0].faults).0, calls[1..], table);
    }
  }

  /** A failed conditional write (no row affected) on a write transaction leaves the table, the
      savepoints and the status exactly as they were. */
  lemma ConditionalMissLeavesAll(t: Tx, op: Op)
    requires op.Put? || op.PutIf? || op.DelIf?
    requires t.writable && t.open && t.server.status.InTx?
    ensures var (t', r) := Step(t, op, []);
            var present := op.key in t.server.working;
            match op
            case Put(key, val) => (r.Err? <==> present) && (r.Err? ==> t' == t && r.error == KeyAlreadyExists(key))
            case PutIf(key, val, None) => (r.Err? <==> present)
              && (r.Err? ==> t' == t && r.error == KeyAlreadyExists(key))
            case PutIf(key, val, Some(want)) =>
              (r.Ok? <==> present && t.server.working[key] == want)
                  && (r.Err? ==> t' == t && r.error == ConditionNotMet(key))
            case DelIf(key, None) => r.Ok? && key !in t'.server.working
            case DelIf(key, Some(want)) =>
              (r.Ok? <==> present && t.server.working[key] == want)
                  && (r.Err? ==> t' == t && r.error == ConditionNotMet(key))
            case _ => true
  {
  }

  // ---- errors --------------------------------------------------------------------------------

  /** What a closed transaction answers. Nothing changes but the counter of savepoint names, and
      not every call says `TxClosed`: the write flag is looked at first except by `setm`, and
      what needs no statement, no keys, no range, no savepoint, is answered all the same. */
  lemma ClosedAnswers(t: Tx, op: Op, faults: seq<Fault>)
    requires !t.open
    ensures var (t', r) := Step(t, op, faults);
            && t' == t.(counter := t'.counter)
            && match op
               case SetMany(_, _) => r == Err(TxClosed)
               case DelRange(lo, hi) =>
                 r == if !t.writable then Err(TxReadOnly) else if Lt(lo, hi) then Err(TxClosed) else Ok(())
               case Set(_, _) => r == Err(if t.writable then TxClosed else TxReadOnly)
               case Put(_, _) => r == Err(if t.writable then TxClosed else TxReadOnly)
               case PutIf(_, _, _) => r == Err(if t.writable then TxClosed else TxReadOnly)
               case Del(_) => r == Err(if t.writable then TxClosed else TxReadOnly)
               case DelIf(_, _) => r == Err(if t.writable then TxClosed else TxReadOnly)
               case GetMany(keys) => r == if keys == [] then Ok(()) else Err(TxClosed)
               case GetRange(lo, hi) => r == if Lt(lo, hi) then Err(TxClosed) else Ok(())
               case Count(lo, hi) => r == if Lt(lo, hi) then Err(TxClosed) else Ok(())
               case ReleaseSavePoint => r == if t.names == [] then Ok(()) else Err(TxClosed)
               case RollbackSavePoint => r == if t.names == [] then Ok(()) else Err(TxClosed)
               case _ => r == Err(TxClosed)
  {
  }

  /** The key an error of the call's first statement is about; none for calls on several keys
      or on savepoints. */
  function KeyOfCall(op: Op): Option<Key>
  {
    match op
    case Set(key, _) => Some(key)
    case Put(key, _) => Some(key)
    case PutIf(key, _, _) => Some(key)
    case Del(key) => Some(key)
    case DelIf(key, _) => Some(key)
    case Exists(key) => Some(key)
    case Get(key) => Some(key)
    case _ => None
  }

  /** The call has a statement to send. */
  predicate Sends(t: Tx, op: Op)
  {
    && (Writes(op) ==> t.writable)
    && match op
       case DelRange(lo, hi) => Lt(lo, hi)
       case ReadPage(_, _, lo, hi, _) => Lt(lo, hi)
       case GetRange(lo, hi) => Lt(lo, hi)
       case Count(lo, hi) => Lt(lo, hi)
       case GetMany(keys) => keys != []
       case SetMany(_, unique) => unique != []
       case ReleaseSavePoint => t.names != []
       case RollbackSavePoint => t.names != []
       case _ => true
  }

  /** An error of its first statement is what the call returns, classified with that key. */
  lemma ErrorIsReturned(t: Tx, op: Op, error: SqlxError, more: seq<Fault>)
    requires Alive(t) && Sends(t, op)
    ensures Step(t, op, [Refused(error)] + more).1 == Err(FromSqlx(KeyOfCall(op), error))
  {
    assert FaultAt([Refused(error)] + more, 0) == Refused(error);
    if op.SetMany? {
      assert Batches(op.unique) != [];
    }
  }

  // ---- commit ----------------------------------------------------------------------------

  /** The durable table after a transaction that ran `calls` and then tried to commit is either
      the one it began with or the working table at the commit. A commit answered Ok publishes
      exactly when the block had not been aborted: PostgreSQL answers COMMIT in an aborted
      block by rolling back, without an error. */
  lemma CommitIsAtomic(table: Table, writable: bool, calls: seq<Call>, fault: Fault)
    requires AllLegal(calls)
    ensures var t := Run(Begun(table, writable), calls);
            var (t', r) := Finish(t, Commit, fault);
            && (t'.server.committed == table || (t.server.status.InTx? && t'.server.committed == t.server.working))
            && (r.Ok? && t.server.status.InTx? ==> t'.server.committed == t.server.working)
            && (r.Ok? && t.server.status.Failed? ==> t'.server.committed == table)
            && (fault.Refused? || fault.Unsent? ==> t'.server.committed == table)
            && Finish(t, Rollback, fault).0.server.committed == table
            && !t'.open && t'.names == [] && Finish(t', Commit, fault).1 == Err(TxClosed)
  {
    AlwaysAboveZero(Begun(table, writable), calls);
    RunKeeps(Begun(table, writable), calls, 0);
  }
}
