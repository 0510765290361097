/** The transaction refines a plain map with an anonymous undo stack: no names, no SQL, no
    connection (src/transaction.rs:554-806, 1012-1072). */
module UndoRefinement {
  import opened Wrappers
  import opened KeyOrder
  import opened Tables
  import opened PgErrors
  import opened PgServer
  import opened TxModel
  import opened SavepointRuns
  import SM = SetMany

  /** `Spoiled`: an error aborted the block; the marks survive and only undoing helps. */
  datatype Undo = Live(table: Table, marks: seq<Table>) | Spoiled(marks: seq<Table>) | Detached

  function Snapshots(saves: seq<Savepoint>): (marks: seq<Table>)
    ensures |marks| == |saves| && forall i | 0 <= i < |saves| :: marks[i] == saves[i].snapshot
  {
    seq(|saves|, i requires 0 <= i < |saves| => saves[i].snapshot)
  }

  function View(t: Tx): Undo
  {
    if !Alive(t) then Detached
    else if t.server.status.InTx? then Live(t.server.working, Snapshots(t.server.saves))
    else Spoiled(Snapshots(t.server.saves))
  }

  /** What a successful operation does to a plain map; `None` when a plain map refuses it. */
  function OnTable(m: Table, op: Op): Option<Table>
    requires !IsSavepointCall(op)
  {
    match op
    case Set(key, val) => Some(m[key := val])
    case Put(key, val) => if key in m then None else Some(m[key := val])
    case PutIf(key, val, None) => if key in m then None else Some(m[key := val])
    case PutIf(key, val, Some(want)) => if key in m && m[key] == want then Some(m[key := val]) else None
    case Del(key) => Some(map k | k in m && k != key :: m[k])
    case DelIf(key, None) => Some(map k | k in m && k != key :: m[k])
    case DelIf(key, Some(want)) => if key in m && m[key] == want then Some(map k | k in m && k != key :: m[k]) else None
    case DelRange(lo, hi) => Some(map k | k in m && !InRange(k, lo, hi) :: m[k])
    case SetMany(pairs, _) => Some(SetAll(m, pairs))
    case _ => Some(m)
  }

  /** Setting the pairs in order. */
  function SetAll(m: Table, pairs: seq<Pair>): Table
  {
    if pairs == [] then m else SetAll(m, pairs[..|pairs| - 1])[pairs[|pairs| - 1].key := pairs[|pairs| - 1].val]
  }

  lemma {:induction false} SetAllOverrides(m: Table, pairs: seq<Pair>)
    ensures SetAll(m, pairs) == m + ToTable(pairs)
  {
    if pairs == [] {
      assert m + map[] == m;
    } else {
      SetAllOverrides(m, pairs[..|pairs| - 1]);
    }
  }

  /** What a successful call does to the undo machine; `None` when it cannot succeed. */
  function Apply(u: Undo, op: Op): Option<Undo>
  {
    match u
    case Detached => None
    case Spoiled(marks) =>
      if op.RollbackSavePoint? && marks != [] then Some(Live(marks[|marks| - 1], marks[..|marks| - 1]))
      else None
    case Live(table, marks) =>
      match op
      case NewSavePoint => Some(Live(table, marks + [table]))
      case ReleaseSavePoint => Some(Live(table, if marks == [] then [] else marks[..|marks| - 1]))
      case RollbackSavePoint => Some(if marks == [] then u else Live(marks[|marks| - 1], marks[..|marks| - 1]))
      case _ =>
        var changed := OnTable(table, op);
        if changed.None? then None else Some(Live(changed.value, marks))
  }

  function Marks(u: Undo): seq<Table>
  {
    if u.Detached? then [] else u.marks
  }

  /** Calls that answer without sending anything: they succeed and change nothing, even in an
      aborted block or on a lost connection. */
  predicate SendsNothing(u: Undo, op: Op)
  {
    || ((op.DelRange? || op.ReadPage? || op.GetRange? || op.Count?) && !Lt(op.lo, op.hi))
    || (op.GetMany? && op.keys == [])
    || (op.SetMany? && op.unique == [])
    || ((op.ReleaseSavePoint? || op.RollbackSavePoint?) && Marks(u) == [])
  }

  /** A call that failed half-way on a connection that is still healthy, because a later one of
      its statements never left the driver: a `setm` after whole batches, a rollback after its
      ROLLBACK TO, which has not yet dropped the mark. */
  ghost predicate HalfWay(u: Undo, op: Op, u': Undo)
  {
    match op
    case SetMany(_, unique) =>
      u.Live? && exists k: nat ::
        k * SETM_MAX_PAIRS < |unique| && u' == Live(u.table + ToTable(unique[..k * SETM_MAX_PAIRS]), u.marks)
    case RollbackSavePoint => Marks(u) != [] && u' == Live(Marks(u)[|Marks(u)| - 1], Marks(u))
    case _ => false
  }

  /** One call as the undo machine sees it. On success it makes the operation's own move. On
      failure no mark is lost or altered while the connection lives: the machine stays as it
      was, is spoiled, or has gone half-way. */
  ghost predicate Move(u: Undo, op: Op, ok: bool, u': Undo)
  {
    if ok then Apply(u, op) == Some(u') || (SendsNothing(u, op) && u' == u)
    else u' == u || u' == Detached || u' == Spoiled(Marks(u)) || HalfWay(u, op, u')
  }

  lemma PerformWrite(s: Session, stmt: Stmt)
    requires IsWrite(stmt) && (stmt.UpsertMany? ==> DistinctKeys(stmt.pairs)) && !s.status.Gone?
    ensures Perform(s, stmt) == if s.status.Failed? then (s, IN_FAILED_BLOCK)
                                else (s.(working := Write(s.working, stmt).0), Affected(Write(s.working, stmt).1))
  {
  }

  lemma MutateMoves(t: Tx, op: Op, stmt: Stmt, key: Option<Key>, onNone: Option<PgStoreError>, fault: Fault)
    requires t.writable && t.open && IsWrite(stmt) && !stmt.UpsertMany? && !IsSavepointCall(op)
    requires OnTable(t.server.working, op)
          == if onNone.Some? && Write(t.server.working, stmt).1 == 0 then None
              else Some(Write(t.server.working, stmt).0)
    ensures var (t', r) := Mutate(t, stmt, key, onNone, fault);
            && Move(View(t), op, r.Ok?, View(t'))
            && (fault.Fine? && View(t).Live? ==> (r.Ok? <==> Apply(View(t), op).Some?))
  {
    if !t.server.status.Gone? {
      PerformWrite(t.server, stmt);
    }
  }

  lemma DelMeaning(m: Table, key: Key, lo: Key, hi: Key)
    ensures m - {key} == map k | k in m && k != key :: m[k]
    ensures m - Within(m, lo, hi).Keys == map k | k in m && !InRange(k, lo, hi) :: m[k]
  {
  }

  lemma NewMoves(t: Tx, fault: Fault)
    requires InSync(t) && t.open
    ensures Move(View(t), NewSavePoint, StepNew(t, fault).1.Ok?, View(StepNew(t, fault).0))
    ensures fault.Fine? && View(t).Live? ==> StepNew(t, fault).1.Ok?
  {
    var saves := StepNew(t, fault).0.server.saves;
    if StepNew(t, fault).1.Ok? {
      assert Snapshots(saves) == Snapshots(t.server.saves) + [t.server.working];
    }
  }

  lemma ReleaseMoves(t: Tx, fault: Fault)
    requires InSync(t) && t.open
    ensures Move(View(t), ReleaseSavePoint, StepRelease(t, fault).1.Ok?, View(StepRelease(t, fault).0))
    ensures fault.Fine? && View(t).Live? ==> StepRelease(t, fault).1.Ok?
  {
    if Alive(t) && t.names != [] {
      TopIsInnermost(t);
      var n := |t.server.saves| - 1;
      assert Snapshots(t.server.saves[..n]) == Snapshots(t.server.saves)[..n];
    }
  }

  /** ROLLBACK TO as the undo machine sees it. */
  lemma RollbackToShows(t: Tx, fault: Fault)
    requires InSync(t) && t.open && t.names != []
    ensures var (t1, r1) := SendPlain(t, RollbackToCmd(Top(t)), fault);
            var marks := Marks(View(t));
            if r1.Ok? then
              && Alive(t) && marks != [] && View(t1) == Live(marks[|marks| - 1], marks)
              && InSync(t1) && t1.open && t1.names == t.names
            else View(t1) == View(t) || View(t1) == Detached || View(t1) == Spoiled(marks)
    ensures fault.Fine? && Alive(t) ==> SendPlain(t, RollbackToCmd(Top(t)), fault).1.Ok?
  {
    if Alive(t) {
      TopIsInnermost(t);
      assert t.server.saves[..|t.server.saves|] == t.server.saves;
    }
  }

  /** Going back to a mark and then dropping it. */
  lemma RollbackComposed(u: Undo, u1: Undo, ok: bool, u': Undo)
    requires Marks(u) != [] && u1 == Live(Marks(u)[|Marks(u)| - 1], Marks(u)) && Move(u1, ReleaseSavePoint, ok, u')
    ensures Move(u, RollbackSavePoint, ok, u')
  {
  }

  lemma RollbackMoves(t: Tx, rollbackFault: Fault, releaseFault: Fault)
    requires InSync(t) && t.open
    ensures var (t', r) := StepRollback(t, rollbackFault, releaseFault);
            && Move(View(t), RollbackSavePoint, r.Ok?, View(t'))
            && (rollbackFault.Fine? && releaseFault.Fine? && View(t).Live? ==> r.Ok?)
  {
    if t.names != [] {
      RollbackToShows(t, rollbackFault);
      var (t1, r1) := SendPlain(t, RollbackToCmd(Top(t)), rollbackFault);
      if r1.Ok? {
        ReleaseMoves(t1, releaseFault);
        RollbackComposed(View(t), View(t1), StepRelease(t1, releaseFault).1.Ok?, View(StepRelease(t1, releaseFault).0));
      }
    }
  }

  lemma {:induction false} FirstFault(faults: seq<Fault>, n: nat) returns (k: nat)
    ensures k <= n && (forall i | 0 <= i < k :: FaultAt(faults, i).Fine?) && (k < n ==> !FaultAt(faults, k).Fine?)
  {
    k := 0;
    while k < n && FaultAt(faults, k).Fine?
      invariant k <= n && forall i | 0 <= i < k :: FaultAt(faults, i).Fine?
    {
      k := k + 1;
    }
  }

  lemma SetManyMoves(t: Tx, pairs: seq<Pair>, unique: seq<Pair>, faults: seq<Fault>)
    requires t.open && t.writable && IsDedup(pairs, unique) && unique != []
    ensures var (t', r) := StepSetMany(t, unique, faults);
            && Move(View(t), Op.SetMany(pairs, unique), r.Ok?, View(t'))
            && ((forall i | 0 <= i < |Batches(unique)| :: FaultAt(faults, i).Fine?) && View(t).Live? ==> r.Ok?)
  {
    var batches := Batches(unique);
    if SM.Ready(t) {
      SM.BatchesDistinct(unique);
      SM.BatchesPartition(unique);
      SetAllOverrides(t.server.working, pairs);
      var k := FirstFault(faults, |batches|);
      SM.PrefixTakesEffect(t, batches, faults, k);
      assert batches[..|batches|] == batches;
      if k < |batches| {
        PrefixIsHalfWay(t, pairs, unique, k);
      }
    } else {
      DeadSetMany(t, unique, faults);
    }
  }

  lemma PrefixIsHalfWay(t: Tx, pairs: seq<Pair>, unique: seq<Pair>, k: nat)
    requires SM.Ready(t) && k < |Batches(unique)|
    ensures var done := SM.WithTable(t, t.server.working + ToTable(SM.Joined(Batches(unique)[..k])));
            HalfWay(View(t), Op.SetMany(pairs, unique), View(done))
  {
    SM.BatchesPartition(unique);
    assert k * SETM_MAX_PAIRS < |unique|;
    SM.PrefixOfBatches(unique, k);
  }

  lemma DeadSetMany(t: Tx, unique: seq<Pair>, faults: seq<Fault>)
    requires t.open && t.writable && !t.server.status.InTx? && unique != []
    ensures var (t', r) := StepSetMany(t, unique, faults);
            r.Err? && (View(t') == View(t) || View(t') == Detached)
  {
  }

  predicate NoFaults(faults: seq<Fault>)
  {
    forall i: nat | i < |faults| :: faults[i].Fine?
  }

  lemma RefusedMoves(t: Tx, op: Op, faults: seq<Fault>)
    requires t.open && !t.writable && Writes(op)
    ensures Step(t, op, faults) == (t, Err(TxReadOnly))
  {
  }

  /** Every call on an open transaction simulates the undo machine; with a healthy server the
      call succeeds exactly when the transaction admits it and the plain map accepts it. */
  lemma CallRefinesUndo(t: Tx, op: Op, faults: seq<Fault>)
    requires t.open && InSync(t) && Legal(op)
    ensures var (t', r) := Step(t, op, faults);
            && Move(View(t), op, r.Ok?, View(t'))
            && (NoFaults(faults) && View(t).Live? ==>
                  (r.Ok? <==> (t.writable || !Writes(op)) && Apply(View(t), op).Some?))
  {
    if Writes(op) && !t.writable {
      RefusedMoves(t, op, faults);
    } else {
      AdmittedMoves(t, op, faults);
    }
  }

  lemma ReadMoves(t: Tx, op: Op, fault: Fault)
    requires t.open && IsRead(op)
    ensures var (t', r) := ReadStep(t, op, fault);
            && Move(View(t), op, r.Ok?, View(t'))
            && (fault.Fine? && View(t).Live? ==> r.Ok?)
  {
    match op
    case Exists(key) => QueryMoves(t, op, SelectKey(key), Some(key), fault);
    case Get(key) => QueryMoves(t, op, SelectKey(key), Some(key), fault);
    case GetMany(keys) => QueryMoves(t, op, SelectKeys(keys), None, fault);
    case ReadPage(_, dir, lo, hi, page) => QueryMoves(t, op, SelectRange(lo, hi, dir, Some(page)), None, fault);
    case GetRange(lo, hi) => QueryMoves(t, op, SelectRange(lo, hi, Asc, None), None, fault);
    case Count(lo, hi) => QueryMoves(t, op, CountRange(lo, hi), None, fault);
  }

  lemma QueryMoves(t: Tx, op: Op, stmt: Stmt, key: Option<Key>, fault: Fault)
    requires t.open && IsRead(op) && IsQuery(stmt)
    ensures var (t', r) := Send(t, stmt, key, fault);
            && Move(View(t), op, r.Ok?, View(t'))
            && (fault.Fine? && View(t).Live? ==> r.Ok?)
  {
  }

  lemma WriteMoves(t: Tx, op: Op, fault: Fault)
    requires t.open && t.writable && Writes(op) && !op.SetMany?
    ensures var (t', r) := Step(t, op, [fault]);
            && Move(View(t), op, r.Ok?, View(t'))
            && (fault.Fine? && View(t).Live? ==> (r.Ok? <==> Apply(View(t), op).Some?))
  {
    var m := t.server.working;
    match op
    case Set(key, val) => MutateMoves(t, op, Upsert(key, val), Some(key), None, fault);
    case Put(key, val) => MutateMoves(t, op, InsertNew(key, val), Some(key), Some(KeyAlreadyExists(key)), fault);
    case PutIf(key, val, chk) =>
      if chk.None? { MutateMoves(t, op, InsertNew(key, val), Some(key), Some(KeyAlreadyExists(key)), fault); }
      else { MutateMoves(t, op, UpdateIf(key, val, chk.value), Some(key), Some(ConditionNotMet(key)), fault); }
    case Del(key) =>
      DelMeaning(m, key, key, key);
      MutateMoves(t, op, Delete(key), Some(key), None, fault);
    case DelIf(key, chk) =>
      DelMeaning(m, key, key, key);
      if chk.None? { MutateMoves(t, op, Delete(key), Some(key), None, fault); }
      else { MutateMoves(t, op, DeleteIf(key, chk.value), Some(key), Some(ConditionNotMet(key)), fault); }
    case DelRange(lo, hi) =>
      if Lt(lo, hi) {
        DelMeaning(m, lo, lo, hi);
        MutateMoves(t, op, DeleteRange(lo, hi), None, None, fault);
      }
  }

  lemma FirstFaultOnly(t: Tx, op: Op, faults: seq<Fault>)
    requires !op.SetMany? && !op.RollbackSavePoint?
    ensures Step(t, op, faults) == Step(t, op, [FaultAt(faults, 0)])
  {
  }

  lemma AdmittedMoves(t: Tx, op: Op, faults: seq<Fault>)
    requires t.open && InSync(t) && Legal(op) && (t.writable || !Writes(op))
    ensures var (t', r) := Step(t, op, faults);
            && Move(View(t), op, r.Ok?, View(t'))
            && (NoFaults(faults) && View(t).Live? ==> (r.Ok? <==> Apply(View(t), op).Some?))
  {
    var f := FaultAt(faults, 0);
    if IsRead(op) {
      ReadMoves(t, op, f);
    } else if op.SetMany? {
      if op.unique != [] {
        SetManyMoves(t, op.pairs, op.unique, faults);
      }
    } else if op.NewSavePoint? {
      NewMoves(t, f);
    } else if op.ReleaseSavePoint? {
      ReleaseMoves(t, f);
    } else if op.RollbackSavePoint? {
      RollbackMoves(t, f, FaultAt(faults, 1));
    } else {
      FirstFaultOnly(t, op, faults);
      WriteMoves(t, op, f);
    }
  }

  /** The run moves the undo machine call by call, each move of the kind its outcome says. */
  ghost predicate Follows(t: Tx, calls: seq<Call>)
    decreases |calls|
  {
    calls != [] ==>
      var (t', r) := Step(t, calls[0].op, calls[0].faults);
      Move(View(t), calls[0].op, r.Ok?, View(t')) && Follows(t', calls[1..])
  }

  /** Every run of a transaction, writable or not, under any faults, is a run of the undo machine. */
  lemma {:induction false} RunRefinesUndo(t: Tx, calls: seq<Call>)
    requires t.open && InSync(t) && AllLegal(calls)
    ensures Follows(t, calls)
    decreases |calls|
  {
    if calls != [] {
      var t' := Step(t, calls[0].op, calls[0].faults).0;
      CallRefinesUndo(t, calls[0].op, calls[0].faults);
      EachCall(t, calls[0].op, calls[0].faults);
      StepKeeps(t, t', 0);
      RunRefinesUndo(t', calls[1..]);
    }
  }

  /** A `setm` that fails part-way, whatever it had already sent, is undone completely by
      rolling back to the savepoint opened before it. */
  lemma FailedSetManyUndone(t: Tx, pairs: seq<Pair>, unique: seq<Pair>, faults: seq<Fault>)
    requires InSync(t) && SM.Ready(t) && IsDedup(pairs, unique)
    requires !StepSetMany(StepNew(t, Fine).0, unique, faults).0.server.status.Gone?
    ensures var (t3, r) := StepRollback(StepSetMany(StepNew(t, Fine).0, unique, faults).0, Fine, Fine);
            r.Ok? && t3.server == t.server && t3.names == t.names
  {
    NewMoves(t, Fine);
    FailedCallUndone(t, Call(Op.SetMany(pairs, unique), faults));
  }

  lemma FailedCallUndone(t: Tx, call: Call)
    requires InSync(t) && t.open && StepNew(t, Fine).1.Ok? && Legal(call.op) && !IsSavepointCall(call.op)
    requires !Step(StepNew(t, Fine).0, call.op, call.faults).0.server.status.Gone?
    ensures var (t3, r) := StepRollback(Step(StepNew(t, Fine).0, call.op, call.faults).0, Fine, Fine);
            r.Ok? && t3.server == t.server && t3.names == t.names
  {
    var t1 := StepNew(t, Fine).0;
    SavedLevel(t, Fine);
    TableOps(t1, call.op, call.faults);
    var t2 := Step(t1, call.op, call.faults).0;
    assert TableStep(t1, t2);
    UndoneAtOnce(t2);
    OneCall(t1, call);
    RollbackRestores(t, Fine, [call], Fine, Fine);
  }

  lemma UndoneAtOnce(t: Tx)
    requires InSync(t) && Alive(t)
    ensures StepRollback(t, Fine, Fine).1.Ok?
  {
    RollbackAlwaysAvailable(t);
  }

  lemma OneCall(t: Tx, call: Call)
    ensures var t' := Step(t, call.op, call.faults).0;
            && Run(t, [call]) == t'
            && (|t'.names| == |t.names| ==> StaysAtOrAbove(t, [call], |t.names|))
  {
    assert [call][1..] == [];
  }
}
