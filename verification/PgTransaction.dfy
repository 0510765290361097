/** `PgTransaction` (src/transaction.rs): the client object whose fields each call updates in
    place. Every method is proved against the functions of TxModel. */
module PgTransactions {
  import opened Wrappers
  import opened Sequences
  import opened Decimal
  import opened KeyOrder
  import opened Tables
  import opened PgErrors
  import opened PgServer
  import opened TxModel
  import R = Ranges
  import SM = SetMany
  import SV = SavepointRuns

  /** A shared 64-bit counter; subtracting from zero wraps, as `fetch_sub` does. */
  class Gauge {
    var value: nat

    constructor ()
      ensures value == 0
    {
      value := 0;
    }

    method Decrement()
      modifies this
      ensures value == (old(value) + U64_LIMIT - 1) % U64_LIMIT
    {
      value := (value + U64_LIMIT - 1) % U64_LIMIT;
    }
  }

  function Lookup(m: Table, key: Key): Option<Val>
  {
    if key in m then Some(m[key]) else None
  }

  function KeysOf(rows: seq<Pair>): (keys: seq<Key>)
    ensures |keys| == |rows| && forall i | 0 <= i < |rows| :: keys[i] == rows[i].key
  {
    seq(|rows|, i requires 0 <= i < |rows| => rows[i].key)
  }

  class PgTransaction {
    const session: PgSession
    const writeable: bool
    const txActive: Gauge
    var conn: PgSession?
    var savepointCounter: nat
    var savepoints: seq<string>

    ghost predicate Valid()
      reads this
    {
      conn == null || conn == session
    }

    function Abs(): Tx
      reads this, session
    {
      Tx(session.Abs(), conn != null, writeable, savepointCounter, savepoints)
    }

    /** BEGIN has been sent on `session`. */
    constructor (session: PgSession, writeable: bool, txActive: Gauge)
      ensures Valid() && this.session == session && this.txActive == txActive
      ensures Abs() == Tx(session.Abs(), true, writeable, 0, [])
    {
      this.session, this.writeable, this.txActive := session, writeable, txActive;
      conn, savepointCounter, savepoints := session, 0, [];
    }

    method Send(stmt: Stmt, key: Option<Key>, fault: Fault) returns (r: Result<Reply, PgStoreError>)
      requires Valid()
      modifies session
      ensures (Abs(), r) == TxModel.Send(old(Abs()), stmt, key, fault)
    {
      if conn == null {
        return Err(TxClosed);
      }
      var reply := conn.Execute(stmt, fault);
      r := if reply.Refusal? then Err(FromSqlx(key, reply.error)) else Ok(reply);
    }

    // ---- writes --------------------------------------------------------------------------

    method Set(key: Key, val: Val, fault: Fault) returns (r: Outcome)
      requires Valid()
      modifies session
      ensures (Abs(), r) == Step(old(Abs()), Op.Set(key, val), [fault])
    {
      if !writeable {
        return Err(TxReadOnly);
      }
      var sent := Send(Upsert(key, val), Some(key), fault);
      r := if sent.Err? then Err(sent.error) else Ok(());
    }

    method Put(key: Key, val: Val, fault: Fault) returns (r: Outcome)
      requires Valid()
      modifies session
      ensures (Abs(), r) == Step(old(Abs()), Op.Put(key, val), [fault])
    {
      if !writeable {
        return Err(TxReadOnly);
      }
      var sent := Send(InsertNew(key, val), Some(key), fault);
      r := if sent.Err? then Err(sent.error)
           else if sent.value == Affected(0) then Err(KeyAlreadyExists(key)) else Ok(());
    }

    method PutIf(key: Key, val: Val, chk: Option<Val>, fault: Fault) returns (r: Outcome)
      requires Valid()
      modifies session
      ensures (Abs(), r) == Step(old(Abs()), Op.PutIf(key, val, chk), [fault])
    {
      if !writeable {
        return Err(TxReadOnly);
      }
      if chk.None? {
        r := Put(key, val, fault);
        return;
      }
      var sent := Send(UpdateIf(key, val, chk.value), Some(key), fault);
      r := if sent.Err? then Err(sent.error)
           else if sent.value == Affected(0) then Err(ConditionNotMet(key)) else Ok(());
    }

    method Del(key: Key, fault: Fault) returns (r: Outcome)
      requires Valid()
      modifies session
      ensures (Abs(), r) == Step(old(Abs()), Op.Del(key), [fault])
    {
      if !writeable {
        return Err(TxReadOnly);
      }
      var sent := Send(Delete(key), Some(key), fault);
      r := if sent.Err? then Err(sent.error) else Ok(());
    }

    method DelIf(key: Key, chk: Option<Val>, fault: Fault) returns (r: Outcome)
      requires Valid()
      modifies session
      ensures (Abs(), r) == Step(old(Abs()), Op.DelIf(key, chk), [fault])
    {
      if !writeable {
        return Err(TxReadOnly);
      }
      if chk.None? {
        r := Del(key, fault);
        return;
      }
      var sent := Send(DeleteIf(key, chk.value), Some(key), fault);
      r := if sent.Err? then Err(sent.error)
           else if sent.value == Affected(0) then Err(ConditionNotMet(key)) else Ok(());
    }

    method DelRange(lo: Key, hi: Key, fault: Fault) returns (r: Outcome)
      requires Valid()
      modifies session
      ensures (Abs(), r) == Step(old(Abs()), Op.DelRange(lo, hi), [fault])
    {
      if !writeable {
        return Err(TxReadOnly);
      }
      if !Lt(lo, hi) {
        return Ok(());
      }
      var sent := Send(DeleteRange(lo, hi), None, fault);
      r := if sent.Err? then Err(sent.error) else Ok(());
    }

    method SetManyBatch(pairs: seq<Pair>, fault: Fault) returns (r: Outcome)
      requires Valid()
      modifies session
      ensures (Abs(), r) == SendPlain(old(Abs()), UpsertMany(pairs), fault)
    {
      var sent := Send(UpsertMany(pairs), None, fault);
      r := if sent.Err? then Err(sent.error) else Ok(());
    }

    /** `setm`. `unique` is what dedup made of the pairs: the hash map's order is not fixed. */
    method SetMany(pairs: seq<Pair>, faults: seq<Fault>) returns (r: Outcome, ghost unique: seq<Pair>)
      requires Valid()
      modifies session
      ensures IsDedup(pairs, unique)
      ensures (Abs(), r) == Step(old(Abs()), Op.SetMany(pairs, unique), faults)
    {
      var distinct := SM.DedupPairs(pairs);
      unique := distinct;
      if conn == null {
        return Err(TxClosed), unique;
      }
      if !writeable {
        return Err(TxReadOnly), unique;
      }
      if |pairs| == 0 {
        EmptyDedup(distinct);
        return Ok(()), unique;
      }
      if |distinct| <= SETM_MAX_PAIRS {
        NonEmptyDedup(pairs, distinct);
        SingleBatch(Abs(), distinct, faults);
        r := SetManyBatch(distinct, FaultAt(faults, 0));
        return;
      }
      var total := |distinct|;
      var start := 0;
      var left := faults;
      while start < total
        invariant 0 <= start <= total && Valid() && conn != null
        invariant SendBatches(Abs(), Batches(distinct[start..]), left) ==
                  SendBatches(old(Abs()), Batches(distinct), faults)
      {
        var end := if start + SETM_MAX_PAIRS <= total then start + SETM_MAX_PAIRS else total;
        BatchesHead(distinct, start, end);
        r := SetManyBatch(distinct[start..end], FaultAt(left, 0));
        if r.Err? {
          return;
        }
        start, left := end, Later(left);
      }
      r := Ok(());
    }

    // ---- reads ---------------------------------------------------------------------------

    method Exists(key: Key, fault: Fault) returns (r: Result<bool, PgStoreError>)
      requires Valid()
      modifies session
      ensures Abs() == SendRead(old(Abs()), SelectKey(key), Some(key), fault).0
      ensures if r.Ok? then SendRead(old(Abs()), SelectKey(key), Some(key), fault).1.Ok?
              && r.value == (key in old(session.working))
              else SendRead(old(Abs()), SelectKey(key), Some(key), fault).1 == Err(r.error)
    {
      var sent := Send(SelectKey(key), Some(key), fault);
      if sent.Err? {
        return Err(sent.error);
      }
      assert sent.value == Answer(old(session.working), SelectKey(key));
      if sent.value.rows != map[] {
        var k :| k in sent.value.rows;
      } else {
        assert key !in sent.value.rows;
      }
      r := Ok(sent.value.rows != map[]);
    }

    method Get(key: Key, fault: Fault) returns (r: Result<Option<Val>, PgStoreError>)
      requires Valid()
      modifies session
      ensures Abs() == SendRead(old(Abs()), SelectKey(key), Some(key), fault).0
      ensures if r.Ok? then SendRead(old(Abs()), SelectKey(key), Some(key), fault).1.Ok?
              && r.value == Lookup(old(session.working), key)
              else SendRead(old(Abs()), SelectKey(key), Some(key), fault).1 == Err(r.error)
    {
      var sent := Send(SelectKey(key), Some(key), fault);
      if sent.Err? {
        return Err(sent.error);
      }
      assert sent.value == Answer(old(session.working), SelectKey(key));
      r := Ok(Lookup(sent.value.rows, key));
    }

    /** `getm`: pointwise `get`, for any key list, in whatever order the rows come back. */
    method GetMany(keys: seq<Key>, fault: Fault) returns (r: Result<seq<Option<Val>>, PgStoreError>)
      requires Valid()
      modifies session
      ensures Abs() == if keys == [] then old(Abs()) else SendRead(old(Abs()), SelectKeys(keys), None, fault).0
      ensures r.Ok? <==> keys == [] || SendRead(old(Abs()), SelectKeys(keys), None, fault).1.Ok?
      ensures r.Err? ==> SendRead(old(Abs()), SelectKeys(keys), None, fault).1 == Err(r.error)
      ensures r.Ok? ==> |r.value| == |keys|
      ensures r.Ok? ==> forall i | 0 <= i < |keys| :: r.value[i] == Lookup(old(session.working), keys[i])
    {
      if |keys| == 0 {
        return Ok([]);
      }
      var sent := Send(SelectKeys(keys), None, fault);
      if sent.Err? {
        return Err(sent.error);
      }
      assert sent.value == Answer(old(session.working), SelectKeys(keys));
      var rows := SM.Drain(sent.value.rows);
      var values := MatchRows(keys, rows);
      r := Ok(values);
    }

    method RangeQuery(dir: Direction, lo: Key, hi: Key, limit: nat, skip: nat, fault: Fault)
      returns (r: Result<seq<Pair>, PgStoreError>)
      requires Valid()
      modifies session
      ensures RangeRead(old(Abs()), Abs(), lo, hi, SelectRange(lo, hi, dir, Some(Page(limit, skip))), fault,
              conn != null, ErrorOf(r))
      ensures r.Ok? ==> r.value == Cut(Sorted(dir, Within(old(session.working), lo, hi)), Some(Page(limit, skip)))
    {
      if conn == null {
        return Err(TxClosed);
      }
      if !Lt(lo, hi) {
        R.EmptyRange(session.working, lo, hi);
        return Ok([]);
      }
      var sent := Send(SelectRange(lo, hi, dir, Some(Page(limit, skip))), None, fault);
      r := if sent.Err? then Err(sent.error) else Ok(sent.value.list);
    }

    method Keys(lo: Key, hi: Key, limit: nat, skip: nat, fault: Fault) returns (r: Result<seq<Key>, PgStoreError>)
      requires Valid()
      modifies session
      ensures RangeRead(old(Abs()), Abs(), lo, hi, SelectRange(lo, hi, Asc, Some(Page(limit, skip))), fault,
              conn != null, ErrorOf(r))
      ensures r.Ok? ==> r.value == KeysOf(Cut(Sorted(Asc, Within(old(session.working), lo, hi)),
              Some(Page(limit, skip))))
    {
      var rows := RangeQuery(Asc, lo, hi, limit, skip, fault);
      r := if rows.Err? then Err(rows.error) else Ok(KeysOf(rows.value));
    }

    method KeysReverse(lo: Key, hi: Key, limit: nat, skip: nat, fault: Fault)
      returns (r: Result<seq<Key>, PgStoreError>)
      requires Valid()
      modifies session
      ensures RangeRead(old(Abs()), Abs(), lo, hi, SelectRange(lo, hi, Desc, Some(Page(limit, skip))), fault,
              conn != null, ErrorOf(r))
      ensures r.Ok? ==> r.value == KeysOf(Cut(R.Reversed(Sorted(Asc, Within(old(session.working), lo, hi))),
              Some(Page(limit, skip))))
    {
      R.DescendingIsReversed(Within(session.working, lo, hi));
      var rows := RangeQuery(Desc, lo, hi, limit, skip, fault);
      r := if rows.Err? then Err(rows.error) else Ok(KeysOf(rows.value));
    }

    method Scan(lo: Key, hi: Key, limit: nat, skip: nat, fault: Fault) returns (r: Result<seq<Pair>, PgStoreError>)
      requires Valid()
      modifies session
      ensures RangeRead(old(Abs()), Abs(), lo, hi, SelectRange(lo, hi, Asc, Some(Page(limit, skip))), fault,
              conn != null, ErrorOf(r))
      ensures r.Ok? ==> r.value == Cut(Sorted(Asc, Within(old(session.working), lo, hi)), Some(Page(limit, skip)))
    {
      r := RangeQuery(Asc, lo, hi, limit, skip, fault);
    }

    method ScanReverse(lo: Key, hi: Key, limit: nat, skip: nat, fault: Fault)
      returns (r: Result<seq<Pair>, PgStoreError>)
      requires Valid()
      modifies session
      ensures RangeRead(old(Abs()), Abs(), lo, hi, SelectRange(lo, hi, Desc, Some(Page(limit, skip))), fault,
              conn != null, ErrorOf(r))
      ensures r.Ok? ==> r.value == Cut(R.Reversed(Sorted(Asc, Within(old(session.working), lo, hi))),
              Some(Page(limit, skip)))
    {
      R.DescendingIsReversed(Within(session.working, lo, hi));
      r := RangeQuery(Desc, lo, hi, limit, skip, fault);
    }

    /** `getr`: an empty range is answered before the connection is looked at. */
    method GetRange(lo: Key, hi: Key, fault: Fault) returns (r: Result<seq<Pair>, PgStoreError>)
      requires Valid()
      modifies session
      ensures RangeRead(old(Abs()), Abs(), lo, hi, SelectRange(lo, hi, Asc, None), fault, true, ErrorOf(r))
      ensures r.Ok? ==> r.value == Sorted(Asc, Within(old(session.working), lo, hi))
    {
      if !Lt(lo, hi) {
        R.EmptyRange(session.working, lo, hi);
        return Ok([]);
      }
      var sent := Send(SelectRange(lo, hi, Asc, None), None, fault);
      r := if sent.Err? then Err(sent.error) else Ok(sent.value.list);
    }

    method Count(lo: Key, hi: Key, fault: Fault) returns (r: Result<nat, PgStoreError>)
      requires Valid()
      modifies session
      ensures RangeRead(old(Abs()), Abs(), lo, hi, CountRange(lo, hi), fault, true, ErrorOf(r))
      ensures r.Ok? ==> r.value == |Sorted(Asc, Within(old(session.working), lo, hi))|
    {
      if !Lt(lo, hi) {
        R.EmptyRange(session.working, lo, hi);
        return Ok(0);
      }
      CountIsLength(session.working, lo, hi);
      var sent := Send(CountRange(lo, hi), None, fault);
      r := if sent.Err? then Err(sent.error) else Ok(sent.value.total);
    }

    // ---- savepoints ----------------------------------------------------------------------

    method NewSavePoint(fault: Fault) returns (r: Outcome)
      requires Valid()
      modifies this`savepointCounter, this`savepoints, session
      ensures Valid() && (Abs(), r) == Step(old(Abs()), Op.NewSavePoint, [fault])
    {
      savepointCounter := (savepointCounter + 1) % U32_LIMIT;
      var name := SavepointName(savepointCounter);
      savepoints := savepoints + [name];
      var sent := Send(SavepointCmd(name), None, fault);
      if sent.Err? {
        savepoints := savepoints[..|savepoints| - 1];
        return Err(sent.error);
      }
      r := Ok(());
    }

    method ReleaseLastSavePoint(fault: Fault) returns (r: Outcome)
      requires Valid()
      modifies this`savepoints, session
      ensures Valid() && (Abs(), r) == Step(old(Abs()), ReleaseSavePoint, [fault])
    {
      if savepoints == [] {
        return Ok(());
      }
      var name := savepoints[|savepoints| - 1];
      savepoints := savepoints[..|savepoints| - 1];
      assert savepoints + [name] == old(savepoints);
      var sent := Send(ReleaseCmd(name), None, fault);
      if sent.Err? {
        savepoints := savepoints + [name];
        return Err(sent.error);
      }
      r := Ok(());
    }

    method RollbackToSavePoint(rollbackFault: Fault, releaseFault: Fault) returns (r: Outcome)
      requires Valid()
      modifies this`savepoints, session
      ensures Valid() && (Abs(), r) == Step(old(Abs()), RollbackSavePoint, [rollbackFault, releaseFault])
    {
      if savepoints == [] {
        return Ok(());
      }
      var name := savepoints[|savepoints| - 1];
      savepoints := savepoints[..|savepoints| - 1];
      assert savepoints + [name] == old(savepoints);
      var sent := Send(RollbackToCmd(name), None, rollbackFault);
      if sent.Err? {
        savepoints := savepoints + [name];
        return Err(sent.error);
      }
      sent := Send(ReleaseCmd(name), None, releaseFault);
      if sent.Err? {
        savepoints := savepoints + [name];
        return Err(sent.error);
      }
      r := Ok(());
    }

    // ---- ends ----------------------------------------------------------------------------

    /** `commit` or `cancel`: the connection is taken first, and the active gauge goes down by
        one exactly when there was one to take. */
    method Finish(stmt: Stmt, fault: Fault) returns (r: Outcome)
      requires Valid() && (stmt.Commit? || stmt.Rollback?)
      modifies this`conn, this`savepoints, session, txActive
      ensures Valid() && (Abs(), r) == TxModel.Finish(old(Abs()), stmt, fault)
      ensures txActive.value == if old(conn) == null then old(txActive.value)
              else (old(txActive.value) + U64_LIMIT - 1) % U64_LIMIT
    {
      if conn == null {
        return Err(TxClosed);
      }
      var taken := conn;
      conn := null;
      savepoints := [];
      var reply := taken.Execute(stmt, fault);
      r := if reply.Refusal? then Err(FromSqlx(None, reply.error)) else Ok(());
      txActive.Decrement();
    }

    /** `Drop`: only a transaction that still holds its connection rolls back and counts down. */
    method Drop()
      requires Valid()
      modifies this`conn, session, txActive
      ensures conn == null
      ensures session.Abs() == if old(conn) == null || old(session.status).Gone? then old(session.Abs())
              else Over(old(session.committed))
      ensures txActive.value == if old(conn) == null then old(txActive.value)
              else (old(txActive.value) + U64_LIMIT - 1) % U64_LIMIT
    {
      if conn != null {
        var reply := conn.Execute(Rollback, Fine);
        txActive.Decrement();
        conn := null;
      }
    }
  }

  /** A read: the state after it and what the wire answered. */
  function SendRead(t: Tx, q: Stmt, key: Option<Key>, fault: Fault): (Tx, Result<Reply, PgStoreError>)
  {
    TxModel.Send(t, q, key, fault)
  }

  function ErrorOf<T>(r: Result<T, PgStoreError>): Option<PgStoreError>
  {
    if r.Err? then Some(r.error) else None
  }

  /** What a range read does: nothing at all when the range is empty, else one query whose error
      is the read's. `usable` says whether the empty range is answered at all. */
  predicate RangeRead(t: Tx, t': Tx, lo: Key, hi: Key, q: Stmt, fault: Fault, usable: bool, error: Option<PgStoreError>)
  {
    if !Lt(lo, hi) then t' == t && error == (if usable then None else Some(TxClosed))
    else t' == SendRead(t, q, None, fault).0 && error == ErrorOf(SendRead(t, q, None, fault).1)
  }

  lemma CountIsLength(m: Table, lo: Key, hi: Key)
    ensures Answer(m, CountRange(lo, hi)) == Tally(|Sorted(Asc, Within(m, lo, hi))|)
  {
    R.SortedMeaning(Asc, Within(m, lo, hi));
  }

  /** A nonempty page, and what is left to fetch after it. */
  lemma PageAndRest(m: Table, start: Key, hi: Key, limit: nat)
    requires limit > 0
    ensures var all := Sorted(Asc, Within(m, start, hi));
            var page := Cut(all, Some(Page(limit, 0)));
            if page == [] then all == []
            else var next := After(page[|page| - 1].key);
                 all == page + Sorted(Asc, Within(m, next, hi)) && Within(m, next, hi).Keys < Within(m, start, hi).Keys
  {
    var all := Sorted(Asc, Within(m, start, hi));
    var page := Cut(all, Some(Page(limit, 0)));
    if page != [] {
      R.NextPageStart(m, start, hi, |page|);
      assert all == page + all[|page|..];
    }
  }

  /** A read that succeeds changes nothing; an undisturbed one on a healthy block succeeds. */
  lemma ReadChangesNothing(t: Tx, t': Tx, lo: Key, hi: Key, q: Stmt, fault: Fault, error: Option<PgStoreError>)
    requires RangeRead(t, t', lo, hi, q, fault, t.open, error) && IsQuery(q)
    ensures error.None? ==> t' == t
    ensures fault.Fine? && t.open && t.server.status.InTx? ==> error.None?
  {
  }

  lemma SingleBatch(t: Tx, distinct: seq<Pair>, faults: seq<Fault>)
    requires 0 < |distinct| <= SETM_MAX_PAIRS
    ensures SendBatches(t, Batches(distinct), faults) == SendPlain(t, UpsertMany(distinct), FaultAt(faults, 0))
  {
    var (t', r) := SendPlain(t, UpsertMany(distinct), FaultAt(faults, 0));
    assert Batches(distinct)[1..] == [];
    assert SendBatches(t', [], Later(faults)) == (t', Ok(()));
  }

  lemma EmptyDedup(distinct: seq<Pair>)
    requires IsDedup([], distinct)
    ensures distinct == []
  {
    if distinct != [] {
      assert distinct[|distinct| - 1].key in ToTable(distinct);
    }
  }

  lemma NonEmptyDedup(pairs: seq<Pair>, distinct: seq<Pair>)
    requires IsDedup(pairs, distinct) && pairs != []
    ensures distinct != []
  {
    assert pairs[|pairs| - 1].key in ToTable(pairs);
  }

  lemma BatchesHead(distinct: seq<Pair>, start: nat, end: nat)
    requires start < |distinct|
    requires end == if start + SETM_MAX_PAIRS <= |distinct| then start + SETM_MAX_PAIRS else |distinct|
    ensures Batches(distinct[start..]) == [distinct[start..end]] + Batches(distinct[end..])
  {
    var rest := distinct[start..];
    if |rest| <= SETM_MAX_PAIRS {
      assert rest == distinct[start..end] && distinct[end..] == [];
    } else {
      assert rest[..SETM_MAX_PAIRS] == distinct[start..end] && rest[SETM_MAX_PAIRS..] == distinct[end..];
    }
  }

  const MAX_LINEAR_ROWS: nat := 64
  const MAX_LINEAR_WORK: nat := 8192

  /** The lookup half of `getm`: a linear search for few rows, a hash map otherwise. Which of
      the two ran cannot be told from the result. */
  method MatchRows(keys: seq<Key>, rows: seq<Pair>) returns (values: seq<Option<Val>>)
    requires DistinctKeys(rows)
    ensures |values| == |keys|
    ensures forall i | 0 <= i < |keys| :: values[i] == Lookup(ToTable(rows), keys[i])
  {
    values := [];
    var product := |rows| * |keys|;
    var saturated := if product < U64_LIMIT then product else U64_LIMIT - 1;
    if |rows| <= MAX_LINEAR_ROWS && saturated <= MAX_LINEAR_WORK {
      for i := 0 to |keys|
        invariant |values| == i
        invariant forall n | 0 <= n < i :: values[n] == Lookup(ToTable(rows), keys[n])
      {
        var j := 0;
        while j < |rows| && rows[j].key != keys[i]
          invariant 0 <= j <= |rows|
          invariant forall n | 0 <= n < j :: rows[n].key != keys[i]
        {
          j := j + 1;
        }
        SM.KeysOfToTable(rows, keys[i]);
        if j < |rows| {
          SM.LastValueWins(rows, j);
        }
        values := values + [if j < |rows| then Some(rows[j].val) else None];
      }
    } else {
      var entries: Table := map[];
      for i := 0 to |rows|
        invariant entries == ToTable(rows[..i])
      {
        entries := entries[rows[i].key := rows[i].val];
        assert rows[..i + 1][..i] == rows[..i];
      }
      assert rows[..|rows|] == rows;
      for i := 0 to |keys|
        invariant |values| == i
        invariant forall n | 0 <= n < i :: values[n] == Lookup(ToTable(rows), keys[n])
      {
        values := values + [Lookup(entries, keys[i])];
      }
    }
  }

  /** The totals `PgTx::getm` reports with the values (src/pg_tx.rs:372-376). */
  method CountRecords(keys: seq<Key>, m: Table, values: seq<Option<Val>>) returns (records: nat, valueBytes: nat)
    requires |values| == |keys| && forall i | 0 <= i < |keys| :: values[i] == Lookup(m, keys[i])
    ensures records == |set i | 0 <= i < |keys| && keys[i] in m|
    ensures valueBytes == BytesFound(m, keys)
  {
    records, valueBytes := 0, 0;
    for i := 0 to |values|
      invariant records == |set n | 0 <= n < i && keys[n] in m|
      invariant valueBytes == BytesFound(m, keys[..i])
    {
      assert (set n | 0 <= n < i + 1 && keys[n] in m) ==
          (set n | 0 <= n < i && keys[n] in m) + (if keys[i] in m then {i} else {});
      assert keys[..i + 1][..i] == keys[..i];
      if values[i].Some? {
        records, valueBytes := records + 1, valueBytes + |values[i].value|;
      }
    }
    assert keys[..|keys|] == keys;
  }

  /** The bytes of every value found, a key asked for twice counting twice. */
  function BytesFound(m: Table, keys: seq<Key>): nat
  {
    if keys == [] then 0 else
      var key := keys[|keys| - 1];
      BytesFound(m, keys[..|keys| - 1]) + if key in m then |m[key]| else 0
  }

  /** The rows of the range, in the order of `getr`. */
  function RangeRows(m: Table, lo: Key, hi: Key): seq<Pair>
  {
    Sorted(Asc, Within(m, lo, hi))
  }

  /** One page, and the rows still to come once it is taken. */
  method FetchPage(tx: PgTransaction, start: Key, hi: Key, limit: nat, fault: Fault)
    returns (r: Result<seq<Pair>, PgStoreError>)
    requires tx.Valid() && limit > 0
    modifies tx.session
    ensures r.Ok? ==> tx.Abs() == old(tx.Abs())
    ensures fault.Fine? && tx.conn != null && old(tx.session.status).InTx? ==> r.Ok?
    ensures r.Ok? ==>
              var m, page := old(tx.session.working), r.value;
              if page == [] then RangeRows(m, start, hi) == []
              else var next := After(page[|page| - 1].key);
                   && RangeRows(m, start, hi) == page + RangeRows(m, next, hi)
                   && Within(m, next, hi).Keys < Within(m, start, hi).Keys
  {
    ghost var t := tx.Abs();
    r := tx.Scan(start, hi, limit, 0, fault);
    ReadChangesNothing(t, tx.Abs(), start, hi, SelectRange(start, hi, Asc, Some(Page(limit, 0))), fault, ErrorOf(r));
    PageAndRest(t.server.working, start, hi, limit);
  }

  ghost predicate AllFine(faults: seq<Fault>)
  {
    forall i: nat :: FaultAt(faults, i).Fine?
  }

  /** Keyset pagination as the default cursors drive it: pages of `limit` rows with no offset,
      each starting just after the last key of the one before, until a page comes back empty or
      fails. What was fetched is a prefix of the range, without gap or repeat, and all of it
      when no page failed; on a healthy block only a fault makes one fail. */
  method ScanByPages(tx: PgTransaction, lo: Key, hi: Key, limit: nat, faults: seq<Fault>)
    returns (rows: seq<Pair>, error: Option<PgStoreError>)
    requires tx.Valid() && limit > 0
    modifies tx.session
    ensures rows <= RangeRows(old(tx.session.working), lo, hi)
    ensures error.None? ==> rows == RangeRows(old(tx.session.working), lo, hi) && tx.Abs() == old(tx.Abs())
    ensures AllFine(faults) && tx.conn != null && old(tx.session.status).InTx? ==> error.None?
  {
    rows, error := [], None;
    var start, left := lo, faults;
    ghost var t := tx.Abs();
    while true
      invariant tx.Abs() == t
      invariant AllFine(faults) ==> AllFine(left)
      invariant rows + RangeRows(t.server.working, start, hi) == RangeRows(t.server.working, lo, hi)
      decreases Within(t.server.working, start, hi).Keys
    {
      var r := FetchPage(tx, start, hi, limit, FaultAt(left, 0));
      if r.Err? {
        error := Some(r.error);
        return;
      }
      var page := r.value;
      if page == [] {
        break;
      }
      var next := After(page[|page| - 1].key);
      Regroup(rows, page, RangeRows(t.server.working, next, hi));
      rows, start, left := rows + page, next, Later(left);
    }
    assert rows + [] == rows;
  }

  // ---- whole runs on the object -------------------------------------------------------------

  /** The same call, except that `setm` reports the order its dedup came up with. */
  predicate SameCall(planned: Call, made: Call)
  {
    && made.faults == planned.faults
    && if planned.op.SetMany? then made.op.SetMany? && made.op.pairs == planned.op.pairs else made.op == planned.op
  }

  predicate SameCalls(planned: seq<Call>, made: seq<Call>)
  {
    |made| == |planned| && forall i | 0 <= i < |made| :: SameCall(planned[i], made[i])
  }

  /** How a read went, its value aside. */
  function Outcomes<T>(r: Result<T, PgStoreError>): Outcome
  {
    if r.Err? then Err(r.error) else Ok(())
  }

  method PerformPage(tx: PgTransaction, keysOnly: bool, dir: Direction, lo: Key, hi: Key, page: Page, fault: Fault)
    returns (r: Outcome)
    requires tx.Valid()
    modifies tx.session
    ensures (tx.Abs(), r) == ReadStep(old(tx.Abs()), Op.ReadPage(keysOnly, dir, lo, hi, page), fault)
  {
    var Page(limit, skip) := page;
    if keysOnly && dir.Asc? {
      var got := tx.Keys(lo, hi, limit, skip, fault);
      r := Outcomes(got);
    } else if keysOnly {
      var got := tx.KeysReverse(lo, hi, limit, skip, fault);
      r := Outcomes(got);
    } else if dir.Asc? {
      var got := tx.Scan(lo, hi, limit, skip, fault);
      r := Outcomes(got);
    } else {
      var got := tx.ScanReverse(lo, hi, limit, skip, fault);
      r := Outcomes(got);
    }
  }

  method PerformRead(tx: PgTransaction, op: Op, fault: Fault) returns (r: Outcome)
    requires tx.Valid() && IsRead(op)
    modifies tx.session
    ensures (tx.Abs(), r) == ReadStep(old(tx.Abs()), op, fault)
  {
    match op
    case Exists(key) => var got := tx.Exists(key, fault); r := Outcomes(got);
    case Get(key) => var got := tx.Get(key, fault); r := Outcomes(got);
    case GetMany(keys) => var got := tx.GetMany(keys, fault); r := Outcomes(got);
    case ReadPage(keysOnly, dir, lo, hi, page) => r := PerformPage(tx, keysOnly, dir, lo, hi, page, fault);
    case GetRange(lo, hi) => var got := tx.GetRange(lo, hi, fault); r := Outcomes(got);
    case Count(lo, hi) => var got := tx.Count(lo, hi, fault); r := Outcomes(got);
  }

  /** One call on the object. */
  method Perform(tx: PgTransaction, call: Call) returns (r: Outcome, ghost made: Call)
    requires tx.Valid()
    modifies tx`savepointCounter, tx`savepoints, tx.session
    ensures tx.Valid() && SameCall(call, made) && Legal(made.op)
    ensures (tx.Abs(), r) == Step(old(tx.Abs()), made.op, made.faults)
  {
    var fault := FaultAt(call.faults, 0);
    made := call;
    match call.op
    case Set(key, val) => r := tx.Set(key, val, fault);
    case Put(key, val) => r := tx.Put(key, val, fault);
    case PutIf(key, val, chk) => r := tx.PutIf(key, val, chk, fault);
    case Del(key) => r := tx.Del(key, fault);
    case DelIf(key, chk) => r := tx.DelIf(key, chk, fault);
    case DelRange(lo, hi) => r := tx.DelRange(lo, hi, fault);
    case SetMany(pairs, _) =>
      ghost var unique;
      r, unique := tx.SetMany(pairs, call.faults);
      made := Call(Op.SetMany(pairs, unique), call.faults);
    case NewSavePoint => r := tx.NewSavePoint(fault);
    case ReleaseSavePoint => r := tx.ReleaseLastSavePoint(fault);
    case RollbackSavePoint => r := tx.RollbackToSavePoint(fault, FaultAt(call.faults, 1));
    case _ => r := PerformRead(tx, call.op, fault);
  }

  /** Any list of calls on the object, one after the other, is a run of the model. */
  method Drive(tx: PgTransaction, calls: seq<Call>) returns (ghost made: seq<Call>)
    requires tx.Valid()
    modifies tx`savepointCounter, tx`savepoints, tx.session
    ensures tx.Valid() && SameCalls(calls, made) && AllLegal(made)
    ensures tx.Abs() == Run(old(tx.Abs()), made)
  {
    made := [];
    for i := 0 to |calls|
      invariant tx.Valid() && SameCalls(calls[..i], made) && AllLegal(made)
      invariant tx.Abs() == Run(old(tx.Abs()), made)
    {
      ghost var one;
      var r;
      r, one := Perform(tx, calls[i]);
      SV.RunOneMore(old(tx.Abs()), made, one);
      made := made + [one];
    }
    assert calls[..|calls|] == calls;
  }
}
