/** `setm` (src/transaction.rs:568-703): deduplicating, batching and sending a list of pairs
    is the same as setting the pairs one by one, and a failing batch leaves a known prefix. */
module SetMany {
  import opened Wrappers
  import opened KeyOrder
  import opened Tables
  import opened PgErrors
  import opened PgServer
  import opened TxModel

  // ---- lists of pairs as tables ----------------------------------------------------------

  lemma {:induction false} ToTableConcat(a: seq<Pair>, b: seq<Pair>)
    ensures ToTable(a + b) == ToTable(a) + ToTable(b)
  {
    if b == [] {
      assert a + b == a;
    } else {
      var front := b[..|b| - 1];
      ToTableConcat(a, front);
      assert (a + b)[..|a + b| - 1] == a + front;
    }
  }

  /** The last value given for a key wins. */
  lemma {:induction false} LastValueWins(pairs: seq<Pair>, j: nat)
    requires j < |pairs| && forall i | j < i < |pairs| :: pairs[i].key != pairs[j].key
    ensures pairs[j].key in ToTable(pairs) && ToTable(pairs)[pairs[j].key] == pairs[j].val
  {
    if j < |pairs| - 1 {
      LastValueWins(pairs[..|pairs| - 1], j);
    }
  }

  lemma {:induction false} KeysOfToTable(pairs: seq<Pair>, k: Key)
    ensures k in ToTable(pairs) <==> exists i :: 0 <= i < |pairs| && pairs[i].key == k
  {
    if pairs != [] {
      var front := pairs[..|pairs| - 1];
      KeysOfToTable(front, k);
      if k in ToTable(front) {
        var i :| 0 <= i < |front| && front[i].key == k;
        assert pairs[i].key == k;
      } else if k == pairs[|pairs| - 1].key {
        assert pairs[|pairs| - 1].key == k;
      } else if i :| 0 <= i < |pairs| && pairs[i].key == k {
        assert front[i].key == k;
      }
    }
  }

  // ---- batches ---------------------------------------------------------------------------

  function Joined(batches: seq<seq<Pair>>): seq<Pair>
  {
    if batches == [] then [] else batches[0] + Joined(batches[1..])
  }

  /** The batches are the list cut in order, in exactly ceil(n / 32000) statements, none of
      them empty or longer than the limit. */
  lemma {:induction false} BatchesPartition(unique: seq<Pair>)
    ensures Joined(Batches(unique)) == unique
    ensures |Batches(unique)| == (|unique| + 31_999) / 32_000
    ensures forall i | 0 <= i < |Batches(unique)| :: 1 <= |Batches(unique)[i]| <= 32_000
    decreases |unique|
  {
    if 0 < |unique| <= SETM_MAX_PAIRS {
      assert Batches(unique)[1..] == [];
    } else if |unique| > SETM_MAX_PAIRS {
      BatchesPartition(unique[SETM_MAX_PAIRS..]);
      assert Batches(unique)[1..] == Batches(unique[SETM_MAX_PAIRS..]);
    }
  }

  /** No batch repeats a key, so the server never sees one row twice in a statement. */
  lemma {:induction false} BatchesDistinct(unique: seq<Pair>)
    requires DistinctKeys(unique)
    ensures forall i | 0 <= i < |Batches(unique)| :: DistinctKeys(Batches(unique)[i])
    decreases |unique|
  {
    if |unique| > SETM_MAX_PAIRS {
      BatchesDistinct(unique[SETM_MAX_PAIRS..]);
    }
  }

  // ---- sending ---------------------------------------------------------------------------

  predicate Ready(t: Tx)
  {
    t.open && t.writable && t.server.status.InTx?
  }

  function WithTable(t: Tx, table: Table): Tx
  {
    t.(server := t.server.(working := table))
  }

  lemma OverrideAssoc(m: Table, a: Table, b: Table)
    ensures (m + a) + b == m + (a + b)
  {
  }

  lemma OneBatch(t: Tx, batch: seq<Pair>, fault: Fault)
    requires Ready(t) && DistinctKeys(batch)
    ensures var (t', r) := SendPlain(t, UpsertMany(batch), fault);
            match fault
            case Fine => r.Ok? && t' == WithTable(t, t.server.working + ToTable(batch))
            case Refused(e) => r == Err(FromSqlx(None, e)) && t' == t.(server := t.server.(status := Failed))
            case Unsent(e) => r == Err(FromSqlx(None, e)) && t' == t
            case Lost(e, _) => r == Err(FromSqlx(None, e)) && t'.server == Over(t.server.committed)
  {
  }

  /** The outcome when the first `k` batches go through, `done` being the state after them. */
  predicate AfterPrefix(t: Tx, batches: seq<seq<Pair>>, faults: seq<Fault>, k: nat, done: Tx)
  {
    var (t', r) := SendBatches(t, batches, faults);
    && (k == |batches| ==> r.Ok? && t' == done)
    && (k < |batches| && FaultAt(faults, k).Refused? ==>
          r == Err(FromSqlx(None, FaultAt(faults, k).error)) && t' == done.(server := done.server.(status := Failed)))
    && (k < |batches| && FaultAt(faults, k).Unsent? ==>
         r == Err(FromSqlx(None, FaultAt(faults, k).error)) && t' == done)
    && (k < |batches| && FaultAt(faults, k).Lost? ==> r.Err? && t'.server == Over(t.server.committed))
  }

  /** The first `k` batches go through; what the (k+1)-th does is left to its fault. */
  lemma {:induction false} PrefixTakesEffect(t: Tx, batches: seq<seq<Pair>>, faults: seq<Fault>, k: nat)
    requires Ready(t) && k <= |batches|
    requires forall i | 0 <= i < |batches| :: DistinctKeys(batches[i])
    requires forall i | 0 <= i < k :: FaultAt(faults, i).Fine?
    ensures AfterPrefix(t, batches, faults, k, WithTable(t, t.server.working + ToTable(Joined(batches[..k]))))
    decreases |batches|
  {
    if k == 0 {
      assert batches[..0] == [] && t.server.working + map[] == t.server.working;
      if batches != [] {
        OneBatch(t, batches[0], FaultAt(faults, 0));
      }
    } else {
      var t1 := SendPlain(t, UpsertMany(batches[0]), FaultAt(faults, 0)).0;
      OneBatch(t, batches[0], FaultAt(faults, 0));
      PrefixTakesEffect(t1, batches[1..], Later(faults), k - 1);
      JoinedHead(batches, k);
      OverrideAssoc(t.server.working, ToTable(batches[0]), ToTable(Joined(batches[1..][..k - 1])));
    }
  }

  lemma JoinedHead(batches: seq<seq<Pair>>, k: nat)
    requires 0 < k <= |batches|
    ensures ToTable(Joined(batches[..k])) == ToTable(batches[0]) + ToTable(Joined(batches[1..][..k - 1]))
  {
    assert batches[..k][1..] == batches[1..][..k - 1];
    ToTableConcat(batches[0], Joined(batches[1..][..k - 1]));
  }

  /** Setting the pairs one at a time, in order. */
  function SetCalls(pairs: seq<Pair>): seq<Call>
  {
    if pairs == [] then [] else [Call(Set(pairs[0].key, pairs[0].val), [])] + SetCalls(pairs[1..])
  }

  lemma {:induction false} SetsOneByOne(t: Tx, pairs: seq<Pair>)
    requires Ready(t)
    ensures Run(t, SetCalls(pairs)) == WithTable(t, t.server.working + ToTable(pairs))
    decreases |pairs|
  {
    if pairs == [] {
      assert t.server.working + map[] == t.server.working;
    } else {
      OneSet(t, pairs[0]);
      HeadThenRest(t.server.working, pairs);
      assert SetCalls(pairs)[1..] == SetCalls(pairs[1..]);
      SetsOneByOne(WithTable(t, t.server.working[pairs[0].key := pairs[0].val]), pairs[1..]);
    }
  }

  lemma OneSet(t: Tx, p: Pair)
    requires Ready(t)
    ensures Step(t, Set(p.key, p.val), []).0 == WithTable(t, t.server.working[p.key := p.val])
  {
  }

  lemma HeadThenRest(m: Table, pairs: seq<Pair>)
    requires pairs != []
    ensures m[pairs[0].key := pairs[0].val] + ToTable(pairs[1..]) == m + ToTable(pairs)
  {
    var p := pairs[0];
    ToTableConcat([p], pairs[1..]);
    assert [p] + pairs[1..] == pairs && [p][..0] == [];
    assert ToTable([p]) == map[p.key := p.val];
  }

  /** For any length, any duplicates and any order dedup may produce: `setm` succeeds and
      leaves exactly the state that setting the pairs one by one leaves. */
  lemma SetManyIsSets(t: Tx, pairs: seq<Pair>, unique: seq<Pair>)
    requires Ready(t) && IsDedup(pairs, unique)
    ensures Step(t, Op.SetMany(pairs, unique), []).1.Ok?
    ensures Step(t, Op.SetMany(pairs, unique), []).0 == Run(t, SetCalls(pairs))
  {
    BatchesDistinct(unique);
    BatchesPartition(unique);
    var batches := Batches(unique);
    PrefixTakesEffect(t, batches, [], |batches|);
    assert batches[..|batches|] == batches;
    SetsOneByOne(t, pairs);
  }

  /** When batch k (counting from 0) is refused, what took effect is exactly the first k
      batches, that is the first 32000 k deduplicated pairs, and the error keeps its class. */
  lemma FailedBatchLeavesPrefix(t: Tx, pairs: seq<Pair>, unique: seq<Pair>, faults: seq<Fault>, k: nat)
    requires Ready(t) && IsDedup(pairs, unique) && k * SETM_MAX_PAIRS < |unique|
    requires forall i | 0 <= i < k :: FaultAt(faults, i).Fine?
    requires FaultAt(faults, k).Refused?
    ensures var (t', r) := Step(t, Op.SetMany(pairs, unique), faults);
            && r == Err(FromSqlx(None, FaultAt(faults, k).error))
            && t'.server == t.server.(working := t.server.working
                + ToTable(unique[..k * SETM_MAX_PAIRS]), status := Failed)
            && t'.names == t.names
  {
    BatchesDistinct(unique);
    BatchesPartition(unique);
    PrefixOfBatches(unique, k);
    PrefixTakesEffect(t, Batches(unique), faults, k);
  }

  /** The first `k` batches went through and batch k did not. */
  predicate FailsAt(unique: seq<Pair>, faults: seq<Fault>, k: nat)
  {
    && k * SETM_MAX_PAIRS < |unique|
    && (forall i | 0 <= i < k :: FaultAt(faults, i).Fine?)
    && !FaultAt(faults, k).Fine?
  }

  /** What a commit after a failed `setm` publishes: the batches before the one that failed, if
      that one never left the driver, and otherwise nothing of what the transaction did. */
  lemma FailedSetManyCommits(t: Tx, unique: seq<Pair>, faults: seq<Fault>, k: nat, commitFault: Fault)
    requires Ready(t) && DistinctKeys(unique) && FailsAt(unique, faults, k)
    ensures var (t', r) := StepSetMany(t, unique, faults);
            && r.Err?
            && (t'.server.status.InTx? <==> FaultAt(faults, k).Unsent?)
            && Finish(t', Commit, commitFault).0.server.committed
            == if FaultAt(faults, k).Unsent? && Applied(commitFault)
               then t.server.working + ToTable(unique[..k * SETM_MAX_PAIRS])
               else t.server.committed
  {
    BatchesDistinct(unique);
    PrefixOfBatches(unique, k);
    PrefixTakesEffect(t, Batches(unique), faults, k);
  }

  /** The COMMIT reached the server and was carried out. */
  predicate Applied(fault: Fault)
  {
    fault.Fine? || (fault.Lost? && fault.applied)
  }

  /** Every failed `setm` that the transaction lets through to a healthy block fails at one of
      its batches; on any other block a commit publishes nothing either way. */
  lemma FailedSetManyFailsSomewhere(t: Tx, unique: seq<Pair>, faults: seq<Fault>, commitFault: Fault) returns (k: nat)
    requires t.writable && DistinctKeys(unique) && StepSetMany(t, unique, faults).1.Err?
    ensures if Ready(t) then FailsAt(unique, faults, k)
            else Finish(StepSetMany(t, unique, faults).0, Commit, commitFault).0.server.committed == t.server.committed
  {
    k := 0;
    if Ready(t) {
      var n := |Batches(unique)|;
      BatchesPartition(unique);
      BatchesDistinct(unique);
      while k < n && FaultAt(faults, k).Fine?
        invariant k <= n && forall i | 0 <= i < k :: FaultAt(faults, i).Fine?
      {
        k := k + 1;
      }
      PrefixTakesEffect(t, Batches(unique), faults, k);
    } else if t.open {
      FailedBatchesAbort(t, Batches(unique), faults);
    }
  }

  /** A block that is not healthy takes no batch and stays as it is. */
  lemma FailedBatchesAbort(t: Tx, batches: seq<seq<Pair>>, faults: seq<Fault>)
    requires t.open && !t.server.status.InTx? && SendBatches(t, batches, faults).1.Err?
    ensures var t' := SendBatches(t, batches, faults).0;
            t'.open && !t'.server.status.InTx? && t'.server.committed == t.server.committed
  {
  }

  lemma {:induction false} PrefixOfBatches(unique: seq<Pair>, k: nat)
    requires k * SETM_MAX_PAIRS < |unique|
    ensures k < |Batches(unique)| && Joined(Batches(unique)[..k]) == unique[..k * SETM_MAX_PAIRS]
    decreases k
  {
    if k > 0 {
      var rest := unique[SETM_MAX_PAIRS..];
      PrefixOfBatches(rest, k - 1);
      assert Batches(unique)[..k][1..] == Batches(rest)[..k - 1];
      assert unique[..k * SETM_MAX_PAIRS] == unique[..SETM_MAX_PAIRS] + rest[..(k - 1) * SETM_MAX_PAIRS];
    }
  }

  // ---- dedup -----------------------------------------------------------------------------

  /** HashMap iteration: every entry once, in whatever order. */
  method Drain(entries: Table) returns (rows: seq<Pair>)
    ensures DistinctKeys(rows) && ToTable(rows) == entries && |rows| == |entries|
  {
    rows := [];
    var left := entries;
    DrainStarts(entries);
    while left != map[]
      invariant Drained(entries, left, rows)
      decreases |left|
    {
      KeyLeft(left);
      var k :| k in left;
      DrainOne(entries, left, rows, k);
      OneFewer(left, k);
      rows := rows + [Pair(k, left[k])];
      left := left - {k};
    }
    DrainEnds(entries, rows);
  }

  lemma KeyLeft(left: Table)
    requires left != map[]
    ensures exists k :: k in left
  {
    assert left.Keys != {};
  }

  lemma DrainStarts(entries: Table)
    ensures Drained(entries, entries, [])
  {
    assert map[] + entries == entries;
  }

  lemma DrainEnds(entries: Table, rows: seq<Pair>)
    requires Drained(entries, map[], rows)
    ensures DistinctKeys(rows) && ToTable(rows) == entries && |rows| == |entries|
  {
    assert ToTable(rows) + map[] == ToTable(rows);
  }

  /** `rows` lists what has been taken out of `entries` and `left` is what remains. */
  ghost predicate Drained(entries: Table, left: Table, rows: seq<Pair>)
  {
    && DistinctKeys(rows)
    && (forall i | 0 <= i < |rows| :: rows[i].key !in left)
    && ToTable(rows) + left == entries
    && |rows| + |left| == |entries|
  }

  lemma DrainOne(entries: Table, left: Table, rows: seq<Pair>, k: Key)
    requires Drained(entries, left, rows) && k in left
    ensures Drained(entries, left - {k}, rows + [Pair(k, left[k])])
  {
    var rows' := rows + [Pair(k, left[k])];
    assert rows'[..|rows|] == rows;
    OneFewer(left, k);
    MoveEntry(ToTable(rows), left, k);
  }

  lemma OneFewer(m: Table, k: Key)
    requires k in m
    ensures |m - {k}| == |m| - 1
  {
    assert m.Keys == (m - {k}).Keys + {k};
  }

  lemma MoveEntry(a: Table, left: Table, k: Key)
    requires k in left
    ensures a[k := left[k]] + (left - {k}) == a + left
  {
  }

  const MAX_LINEAR_DEDUP: nat := 32

  /** The last value of every key, each key once: an in-place scan for short lists, a hash map
      above that. */
  method DedupPairs(pairs: seq<Pair>) returns (result: seq<Pair>)
    ensures IsDedup(pairs, result)
  {
    if |pairs| <= 1 {
      return pairs;
    }
    if |pairs| <= MAX_LINEAR_DEDUP {
      result := [];
      var i := 0;
      while i < |pairs|
        invariant 0 <= i <= |pairs|
        invariant IsDedup(pairs[..i], result)
      {
        var j := 0;
        while j < |result| && result[j].key != pairs[i].key
          invariant 0 <= j <= |result|
          invariant forall n | 0 <= n < j :: result[n].key != pairs[i].key
        {
          j := j + 1;
        }
        assert pairs[..i + 1][..i] == pairs[..i];
        if j < |result| {
          UpdateEntry(result, j, pairs[i].val);
          result := result[j := pairs[i]];
        } else {
          assert (result + [pairs[i]])[..|result|] == result;
          result := result + [pairs[i]];
        }
        i := i + 1;
      }
      assert pairs[..|pairs|] == pairs;
    } else {
      var entries: Table := map[];
      var i := 0;
      while i < |pairs|
        invariant 0 <= i <= |pairs|
        invariant entries == ToTable(pairs[..i])
      {
        entries := entries[pairs[i].key := pairs[i].val];
        assert pairs[..i + 1][..i] == pairs[..i];
        i := i + 1;
      }
      assert pairs[..|pairs|] == pairs;
      result := Drain(entries);
    }
  }

  lemma {:induction false} UpdateEntry(list: seq<Pair>, j: nat, val: Val)
    requires j < |list| && DistinctKeys(list)
    ensures ToTable(list[j := Pair(list[j].key, val)]) == ToTable(list)[list[j].key := val]
  {
    var updated := list[j := Pair(list[j].key, val)];
    if j == |list| - 1 {
      assert updated[..j] == list[..j];
    } else {
      var n := |list| - 1;
      UpdateEntry(list[..n], j, val);
      assert updated[..n] == list[..n][j := Pair(list[j].key, val)];
    }
  }
}
