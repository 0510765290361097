/** One PostgreSQL session inside one transaction block, as the store's statements see it
    (the meaning of each string built in `Sql::new`, src/transaction.rs). */
module PgServer {
  import opened Wrappers
  import opened KeyOrder
  import opened Tables
  import opened PgErrors

  /** `InTx`: statements run. `Failed`: aborted by an error; only rolling back helps.
      `Gone`: the block has ended or the connection is lost; nothing sent has an effect. */
  datatype Status = InTx | Failed | Gone

  datatype Savepoint = Savepoint(name: string, snapshot: Table)

  datatype Session = Session(committed: Table, working: Table, saves: seq<Savepoint>, status: Status)

  datatype Stmt =
    | SelectKey(key: Key)
    | SelectKeys(keys: seq<Key>)
    | SelectRange(lo: Key, hi: Key, dir: Direction, page: Option<Page>)
    | CountRange(lo: Key, hi: Key)
    | Upsert(key: Key, val: Val)
    | UpsertMany(pairs: seq<Pair>)
    | InsertNew(key: Key, val: Val)
    | UpdateIf(key: Key, val: Val, expected: Val)
    | Delete(key: Key)
    | DeleteIf(key: Key, expected: Val)
    | DeleteRange(lo: Key, hi: Key)
    | SavepointCmd(name: string)
    | ReleaseCmd(name: string)
    | RollbackToCmd(name: string)
    | Commit
    | Rollback

  /** `LIMIT limit OFFSET skip` */
  datatype Page = Page(limit: nat, skip: nat)

  datatype Reply =
    | Affected(count: nat)
    | Found(rows: Table)         // no ORDER BY: the rows come back in any order
    | Ordered(list: seq<Pair>)
    | Tally(total: nat)
    | Refusal(error: SqlxError)

  /** What the environment does to one statement: nothing, a server-side error, an error in the
      driver before anything is sent, or a lost connection. A COMMIT whose acknowledgement is
      lost may or may not have been applied. */
  datatype Fault = Fine | Refused(error: SqlxError) | Unsent(error: SqlxError) | Lost(error: SqlxError, applied: bool)

  const IN_FAILED_BLOCK := Refusal(Database(Some("25P02"), "current transaction is aborted"))
  const NO_SUCH_SAVEPOINT := Refusal(Database(Some("3B001"), "savepoint does not exist"))
  const CARDINALITY_VIOLATION := Refusal(Database(Some("21000"), "cannot affect row a second time"))

  predicate IsQuery(stmt: Stmt)
  {
    stmt.SelectKey? || stmt.SelectKeys? || stmt.SelectRange? || stmt.CountRange?
  }

  predicate IsWrite(stmt: Stmt)
  {
    stmt.Upsert? || stmt.UpsertMany? || stmt.InsertNew? || stmt.UpdateIf? || stmt.Delete? || stmt.DeleteIf?
        || stmt.DeleteRange?
  }

  predicate DistinctKeys(pairs: seq<Pair>)
  {
    forall i, j | 0 <= i < j < |pairs| :: pairs[i].key != pairs[j].key
  }

  /** The table a list of pairs denotes when a later pair overrides an earlier one. */
  function ToTable(pairs: seq<Pair>): Table
  {
    if pairs == [] then map[] else
      var last := pairs[|pairs| - 1];
      ToTable(pairs[..|pairs| - 1])[last.key := last.val]
  }

  /** `rows` is what the page keeps of the whole answer. */
  function Cut(rows: seq<Pair>, page: Option<Page>): seq<Pair>
  {
    match page
    case None => rows
    case Some(Page(limit, skip)) =>
      if skip >= |rows| then []
      else if |rows| - skip <= limit then rows[skip..]
      else rows[skip..skip + limit]
  }

  function Answer(m: Table, q: Stmt): Reply
    requires IsQuery(q)
  {
    match q
    case SelectKey(key) => Found(map k | k in m && k == key :: m[k])
    case SelectKeys(keys) => Found(map k | k in m && k in keys :: m[k])
    case SelectRange(lo, hi, dir, page) => Ordered(Cut(Sorted(dir, Within(m, lo, hi)), page))
    case CountRange(lo, hi) => Tally(|Within(m, lo, hi)|)
  }

  /** The table a write leaves, and the number of rows it reports. */
  function Write(m: Table, w: Stmt): (Table, nat)
    requires IsWrite(w)
  {
    match w
    case Upsert(key, val) => (m[key := val], 1)
    case UpsertMany(pairs) => (m + ToTable(pairs), |pairs|)
    case InsertNew(key, val) => if key in m then (m, 0) else (m[key := val], 1)
    case UpdateIf(key, val, expected) => if key in m && m[key] == expected then (m[key := val], 1) else (m, 0)
    case Delete(key) => (m - {key}, if key in m then 1 else 0)
    case DeleteIf(key, expected) => if key in m && m[key] == expected then (m - {key}, 1) else (m, 0)
    case DeleteRange(lo, hi) =>
      var doomed := Within(m, lo, hi);
      (m - doomed.Keys, |doomed|)
  }

  /** PostgreSQL resolves a savepoint name to the most recent savepoint that bears it. */
  function Innermost(saves: seq<Savepoint>, name: string): (i: int)
    ensures -1 <= i < |saves|
    ensures i >= 0 ==> saves[i].name == name
    ensures forall j | i < j < |saves| :: saves[j].name != name
  {
    if saves == [] then -1
    else if saves[|saves| - 1].name == name then |saves| - 1
    else Innermost(saves[..|saves| - 1], name)
  }

  /** The block is over with `committed` as the durable table. */
  function Over(committed: Table): Session
  {
    Session(committed, committed, [], Gone)
  }

  /** The statement reaches a healthy server. */
  function Perform(s: Session, stmt: Stmt): (Session, Reply)
  {
    if stmt.Commit? then (Over(if s.status.InTx? then s.working else s.committed), Affected(0))
    else if stmt.Rollback? then (Over(s.committed), Affected(0))
    else if stmt.RollbackToCmd? then
      var i := Innermost(s.saves, stmt.name);
      if i < 0 then (s.(status := Failed), NO_SUCH_SAVEPOINT)
      else (s.(working := s.saves[i].snapshot, saves := s.saves[..i + 1], status := InTx), Affected(0))
    else if s.status.Failed? then (s, IN_FAILED_BLOCK)
    else if stmt.SavepointCmd? then
      (s.(saves := s.saves + [Savepoint(stmt.name, s.working)]), Affected(0))
    else if stmt.ReleaseCmd? then
      var i := Innermost(s.saves, stmt.name);
      if i < 0 then (s.(status := Failed), NO_SUCH_SAVEPOINT)
      else (s.(saves := s.saves[..i]), Affected(0))
    else if IsQuery(stmt) then (s, Answer(s.working, stmt))
    else if stmt.UpsertMany? && !DistinctKeys(stmt.pairs) then (s.(status := Failed), CARDINALITY_VIOLATION)
    else
      var (table, count) := Write(s.working, stmt);
      (s.(working := table), Affected(count))
  }

  function Exec(s: Session, stmt: Stmt, fault: Fault): (Session, Reply)
  {
    if s.status.Gone? then (s, Refusal(DriverIo("connection closed")))
    else match fault
      case Fine => Perform(s, stmt)
      case Refused(error) =>
        (if stmt.Commit? || stmt.Rollback? then Over(s.committed) else s.(status := Failed), Refusal(error))
      // the connection of an unsent COMMIT or ROLLBACK is dropped, which rolls back
      case Unsent(error) => (if stmt.Commit? || stmt.Rollback? then Over(s.committed) else s, Refusal(error))
      case Lost(error, applied) =>
        (Over(if stmt.Commit? && applied && s.status.InTx? then s.working else s.committed), Refusal(error))
  }

  /** The server as an object: the statements change its fields in place. */
  class PgSession {
    var committed: Table
    var working: Table
    var saves: seq<Savepoint>
    var status: Status

    function Abs(): Session
      reads this
    {
      Session(committed, working, saves, status)
    }

    /** A session on which BEGIN has just succeeded. */
    constructor Begin(table: Table)
      ensures Abs() == Session(table, table, [], InTx)
    {
      committed, working, saves, status := table, table, [], InTx;
    }

    method Execute(stmt: Stmt, fault: Fault) returns (reply: Reply)
      modifies this
      ensures (Abs(), reply) == Exec(old(Abs()), stmt, fault)
    {
      var (next, answer) := Exec(Abs(), stmt, fault);
      committed, working, saves, status := next.committed, next.working, next.saves, next.status;
      reply := answer;
    }
  }
}
