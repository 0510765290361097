/** What one call on a `PgTransaction` does to the client's own fields and to its server
    session (src/transaction.rs). The class in PgTransaction.dfy is proved against these
    functions; SavepointRuns.dfy and SetMany.dfy state what they guarantee over whole runs. */
module TxModel {
  import opened Wrappers
  import opened Decimal
  import opened KeyOrder
  import opened Tables
  import opened PgErrors
  import opened PgServer

  const SETM_MAX_PAIRS: nat := 32_000

  /** The client's fields beside the session it talks to. `open` is `conn.is_some()`. */
  datatype Tx = Tx(server: Session, open: bool, writable: bool, counter: nat, names: seq<string>)

  type Outcome = Result<(), PgStoreError>

  datatype Op =
    | Set(key: Key, val: Val)
    | Put(key: Key, val: Val)
    | PutIf(key: Key, val: Val, chk: Option<Val>)
    | Del(key: Key)
    | DelIf(key: Key, chk: Option<Val>)
    | DelRange(lo: Key, hi: Key)
    | SetMany(pairs: seq<Pair>, unique: seq<Pair>)  // `unique`: what dedup made of `pairs`
    | Exists(key: Key)
    | Get(key: Key)
    | GetMany(keys: seq<Key>)
    | ReadPage(keysOnly: bool, dir: Direction, lo: Key, hi: Key, page: Page)  // keys, keysr, scan, scanr
    | GetRange(lo: Key, hi: Key)
    | Count(lo: Key, hi: Key)
    | NewSavePoint
    | ReleaseSavePoint
    | RollbackSavePoint

  predicate IsRead(op: Op)
  {
    op.Exists? || op.Get? || op.GetMany? || op.ReadPage? || op.GetRange? || op.Count?
  }

  /** The calls a transaction opened without write refuses. */
  predicate Writes(op: Op)
  {
    op.Set? || op.Put? || op.PutIf? || op.Del? || op.DelIf? || op.DelRange? || op.SetMany?
  }

  predicate Legal(op: Op)
  {
    op.SetMany? ==> IsDedup(op.pairs, op.unique)
  }

  /** `unique` holds each key of `pairs` once, with the value of its last occurrence, in any
      order. */
  predicate IsDedup(pairs: seq<Pair>, unique: seq<Pair>)
  {
    DistinctKeys(unique) && ToTable(unique) == ToTable(pairs)
  }

  /** A transaction right after BEGIN. */
  function Begun(table: Table, writable: bool): Tx
  {
    Tx(Session(table, table, [], InTx), true, writable, 0, [])
  }

  function SavepointName(counter: nat): string
  {
    "sp_" + Print(counter)
  }

  function NextCounter(counter: nat): nat
  {
    (counter + 1) % U32_LIMIT
  }

  function FaultAt(faults: seq<Fault>, i: nat): Fault
  {
    if i < |faults| then faults[i] else Fine
  }

  /** One statement on the connection, with driver errors classified. */
  function Send(t: Tx, stmt: Stmt, key: Option<Key>, fault: Fault): (Tx, Result<Reply, PgStoreError>)
  {
    if !t.open then (t, Err(TxClosed)) else
      var (server, reply) := Exec(t.server, stmt, fault);
      (t.(server := server), if reply.Refusal? then Err(FromSqlx(key, reply.error)) else Ok(reply))
  }

  /** A single-statement write; `onNone` is the error when no row was affected. */
  function Mutate(t: Tx, stmt: Stmt, key: Option<Key>, onNone: Option<PgStoreError>, fault: Fault): (Tx, Outcome)
  {
    if !t.writable then (t, Err(TxReadOnly)) else
      var (t', r) := Send(t, stmt, key, fault);
      match r
      case Err(e) => (t', Err(e))
      case Ok(reply) => (t', if reply == Affected(0) && onNone.Some? then Err(onNone.value) else Ok(()))
  }

  function SendPlain(t: Tx, stmt: Stmt, fault: Fault): (Tx, Outcome)
  {
    var (t', r) := Send(t, stmt, None, fault);
    (t', if r.Err? then Err(r.error) else Ok(()))
  }

  /** A read of one key, which its error names. */
  function ReadKey(t: Tx, key: Key, fault: Fault): (Tx, Outcome)
  {
    var (t', r) := Send(t, SelectKey(key), Some(key), fault);
    (t', if r.Err? then Err(r.error) else Ok(()))
  }

  /** The reads: nothing is sent for no keys or an empty range, and only the paged reads look at
      the connection before they find that out. */
  function ReadStep(t: Tx, op: Op, fault: Fault): (Tx, Outcome)
    requires IsRead(op)
  {
    match op
    case Exists(key) => ReadKey(t, key, fault)
    case Get(key) => ReadKey(t, key, fault)
    case GetMany(keys) => if keys == [] then (t, Ok(())) else SendPlain(t, SelectKeys(keys), fault)
    case ReadPage(_, dir, lo, hi, page) =>
      if !t.open then (t, Err(TxClosed))
      else if !Lt(lo, hi) then (t, Ok(()))
      else SendPlain(t, SelectRange(lo, hi, dir, Some(page)), fault)
    case GetRange(lo, hi) =>
      if !Lt(lo, hi) then (t, Ok(())) else SendPlain(t, SelectRange(lo, hi, Asc, None), fault)
    case Count(lo, hi) =>
      if !Lt(lo, hi) then (t, Ok(())) else SendPlain(t, CountRange(lo, hi), fault)
  }

  /** What `setm` cuts a deduplicated list into: full batches, then what is left. */
  function Batches(rest: seq<Pair>): seq<seq<Pair>>
    decreases |rest|
  {
    if rest == [] then []
    else if |rest| <= SETM_MAX_PAIRS then [rest]
    else [rest[..SETM_MAX_PAIRS]] + Batches(rest[SETM_MAX_PAIRS..])
  }

  /** One statement per batch, stopping at the first failure. */
  function SendBatches(t: Tx, batches: seq<seq<Pair>>, faults: seq<Fault>): (Tx, Outcome)
    decreases |batches|
  {
    if batches == [] then (t, Ok(())) else
      var (t', r) := SendPlain(t, UpsertMany(batches[0]), FaultAt(faults, 0));
      if r.Err? then (t', r) else SendBatches(t', batches[1..], Later(faults))
  }

  function Later(faults: seq<Fault>): (later: seq<Fault>)
    ensures forall i: nat :: FaultAt(later, i) == FaultAt(faults, i + 1)
  {
    if faults == [] then [] else faults[1..]
  }

  function StepPut(t: Tx, key: Key, val: Val, fault: Fault): (Tx, Outcome)
  {
    Mutate(t, InsertNew(key, val), Some(key), Some(KeyAlreadyExists(key)), fault)
  }

  function StepDel(t: Tx, key: Key, fault: Fault): (Tx, Outcome)
  {
    Mutate(t, Delete(key), Some(key), None, fault)
  }

  function StepSetMany(t: Tx, unique: seq<Pair>, faults: seq<Fault>): (Tx, Outcome)
  {
    if !t.open then (t, Err(TxClosed))
    else if !t.writable then (t, Err(TxReadOnly))
    else SendBatches(t, Batches(unique), faults)
  }

  /** The name is pushed before the statement is sent and popped again if it fails. */
  function StepNew(t: Tx, fault: Fault): (Tx, Outcome)
  {
    var counter := NextCounter(t.counter);
    var name := SavepointName(counter);
    var (t', r) := SendPlain(t.(counter := counter), SavepointCmd(name), fault);
    (if r.Ok? then t'.(names := t.names + [name]) else t', r)
  }

  function Top(t: Tx): string
    requires t.names != []
  {
    t.names[|t.names| - 1]
  }

  function Popped(t: Tx): Tx
    requires t.names != []
  {
    t.(names := t.names[..|t.names| - 1])
  }

  function StepRelease(t: Tx, fault: Fault): (Tx, Outcome)
  {
    if t.names == [] then (t, Ok(())) else
      var (t', r) := SendPlain(t, ReleaseCmd(Top(t)), fault);
      (if r.Ok? then Popped(t') else t', r)
  }

  function StepRollback(t: Tx, rollbackFault: Fault, releaseFault: Fault): (Tx, Outcome)
  {
    if t.names == [] then (t, Ok(())) else
      var (t1, r1) := SendPlain(t, RollbackToCmd(Top(t)), rollbackFault);
      if r1.Err? then (t1, r1) else StepRelease(t1, releaseFault)
  }

  /** One call: the state after it and whether it succeeded. `faults[i]` strikes the i-th
      statement the call sends. */
  function Step(t: Tx, op: Op, faults: seq<Fault>): (Tx, Outcome)
  {
    var f := FaultAt(faults, 0);
    match op
    case Set(key, val) => Mutate(t, Upsert(key, val), Some(key), None, f)
    case Put(key, val) => StepPut(t, key, val, f)
    case PutIf(key, val, chk) =>
      if chk.None? then StepPut(t, key, val, f)
      else Mutate(t, UpdateIf(key, val, chk.value), Some(key), Some(ConditionNotMet(key)), f)
    case Del(key) => StepDel(t, key, f)
    case DelIf(key, chk) =>
      if chk.None? then StepDel(t, key, f)
      else Mutate(t, DeleteIf(key, chk.value), Some(key), Some(ConditionNotMet(key)), f)
    case DelRange(lo, hi) =>
      if t.writable && !Lt(lo, hi) then (t, Ok(())) else Mutate(t, DeleteRange(lo, hi), None, None, f)
    case SetMany(_, unique) => StepSetMany(t, unique, faults)
    case NewSavePoint => StepNew(t, f)
    case ReleaseSavePoint => StepRelease(t, f)
    case RollbackSavePoint => StepRollback(t, f, FaultAt(faults, 1))
    case _ => ReadStep(t, op, f)
  }

  datatype Call = Call(op: Op, faults: seq<Fault>)

  predicate AllLegal(calls: seq<Call>)
  {
    forall i | 0 <= i < |calls| :: Legal(calls[i].op)
  }

  function Run(t: Tx, calls: seq<Call>): Tx
    decreases |calls|
  {
    if calls == [] then t else Run(Step(t, calls[0].op, calls[0].faults).0, calls[1..])
  }

  /** `commit` and `cancel`: the connection is taken whatever the server answers. */
  function Finish(t: Tx, stmt: Stmt, fault: Fault): (Tx, Outcome)
    requires stmt.Commit? || stmt.Rollback?
  {
    if !t.open then (t, Err(TxClosed)) else
      var (t', r) := SendPlain(t, stmt, fault);
      (t'.(open := false, names := []), r)
  }
}
