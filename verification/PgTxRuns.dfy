/** `PgTx` with its `PgTransaction` inside (src/pg_tx.rs:68-474). The close protocol says who may
    go on when; a call on the transaction is taken one step at a time, other callers acting in
    between, and its future may be dropped between any two steps. That calls do not mix, neither
    in the transaction nor on the wire, is what the lock achieves. */
module PgTxRuns {
  import opened Wrappers
  import opened Tables
  import opened PgErrors
  import opened PgServer
  import opened TxModel
  import opened CallSteps
  import CP = CloseProtocol
  import CR = CloseRuns
  import SV = SavepointRuns
  import AC = AbandonedCalls

  /** The terminal command the winner sent, what struck it, and its outcome. */
  datatype End = End(kind: CP.Kind, fault: Fault, outcome: Outcome)

  /** The state of an admitted operation's future. */
  datatype Doing = Doing(op: Op, phase: Phase)

  /** One operation so far: who does it, and the steps taken. */
  datatype Entry = Entry(id: nat, op: Op, moves: seq<Fault>)

  /** `asked`: what each caller of an operation has called. `log` and `places` are history: the
      operations in the order they began, and where in it each caller's is. */
  datatype System = System(
    proto: CP.TxState,
    tx: Tx,
    asked: map<nat, Op>,
    doing: map<nat, Doing>,
    log: seq<Entry>,
    places: map<nat, nat>,
    end: Option<End>)

  datatype Event =
    | Shared(action: CP.Action)
    | Ask(id: nat, op: Op)               // a caller calls an operation
    | Start(id: nat)                     // once admitted, it begins the operation
    | Go(id: nat, fault: Fault)          // the operation takes one more step
    | Return(id: nat)                    // its caller gives back the guard and the outcome
    | Terminate(id: nat, fault: Fault)   // the winner sends its COMMIT or ROLLBACK
    | Reply(id: nat)                     // and gets the answer

  function Opened(table: Table, write: bool): System
  {
    System(CP.Fresh(write), Begun(table, write), map[], map[], [], map[], None)
  }

  /** Protocol steps that an operation or the transaction brings about. */
  predicate DecidedInside(a: CP.Action)
  {
    (a.Enter? && a.kind.Operation?) || a.Run? || a.Leave? || a.SendEnd? || a.Answer?
  }

  function KindOf(op: Op): CP.Kind
  {
    CP.Operation(Writes(op))
  }

  function EndStmt(kind: CP.Kind): (stmt: Stmt)
    ensures stmt.Commit? || stmt.Rollback?
  {
    if kind.Committing? then Commit else Rollback
  }

  /** `Drop` of a transaction that still holds its connection. */
  function Dropped(t: Tx): Tx
  {
    t.(server := Exec(t.server, Rollback, Fine).0, open := false)
  }

  predicate MayAsk(s: System, id: nat, op: Op)
  {
    CP.Enabled(s.proto, CP.Enter(id, KindOf(op))) && Legal(op)
  }

  predicate MayStart(s: System, id: nat)
  {
    CP.At(s.proto, id, CP.Working) && id in s.asked && id !in s.doing
  }

  /** No look at the lock: the future simply runs on wherever its caller stands. */
  predicate MayGo(s: System, id: nat)
  {
    && CP.At(s.proto, id, CP.Working) && id in s.doing && !s.doing[id].phase.Done?
    && id in s.places && s.places[id] < |s.log|
  }

  predicate MayReturn(s: System, id: nat)
  {
    CP.At(s.proto, id, CP.Working) && id in s.doing && s.doing[id].phase.Done?
  }

  function NextAsk(s: System, id: nat, op: Op): System
  {
    s.(proto := CP.Next(s.proto, CP.Enter(id, KindOf(op))).0, asked := s.asked[id := op])
  }

  function NextStart(s: System, id: nat): System
    requires MayStart(s, id)
  {
    var op := s.asked[id];
    var (tx, phase) := Begin(s.tx, op);
    s.(tx := tx, doing := s.doing[id := Doing(op, phase)],
       log := s.log + [Entry(id, op, [])], places := s.places[id := |s.log|])
  }

  function NextGo(s: System, id: nat, fault: Fault): System
    requires MayGo(s, id)
  {
    var d, n := s.doing[id], s.places[id];
    var (tx, phase) := Advance(s.tx, d.phase, fault);
    s.(tx := tx, doing := s.doing[id := Doing(d.op, phase)],
       log := s.log[n := s.log[n].(moves := s.log[n].moves + [fault])],
       proto := if d.phase.Sending? then CP.Next(s.proto, CP.Run(id)).0 else s.proto)
  }

  function Next(s: System, e: Event): System
  {
    match e
    case Shared(a) =>
      if DecidedInside(a) then s
      else s.(proto := CP.Next(s.proto, a).0,
              tx := if a.DropFields? && CP.Enabled(s.proto, a) && s.proto.inner then Dropped(s.tx) else s.tx)
    case Ask(id, op) => if MayAsk(s, id, op) then NextAsk(s, id, op) else s
    case Start(id) => if MayStart(s, id) then NextStart(s, id) else s
    case Go(id, fault) => if MayGo(s, id) then NextGo(s, id, fault) else s
    case Return(id) =>
      if !MayReturn(s, id) then s else s.(proto := CP.Next(s.proto, CP.Leave(id, s.doing[id].phase.outcome.Ok?)).0)
    case Terminate(id, fault) =>
      if !CP.Enabled(s.proto, CP.SendEnd(id)) then s else
        var kind := s.proto.callers[id].kind;
        var (tx, r) := Finish(s.tx, EndStmt(kind), fault);
        s.(proto := CP.Next(s.proto, CP.SendEnd(id)).0, tx := tx, end := Some(End(kind, fault, r)))
    case Reply(id) =>
      if !CP.At(s.proto, id, CP.Sent) || s.end.None? then s
      else s.(proto := CP.Next(s.proto, CP.Answer(id, s.end.value.outcome.Ok?)).0)
  }

  function RunEvents(s: System, events: seq<Event>): System
    decreases |events|
  {
    if events == [] then s else RunEvents(Next(s, events[0]), events[1..])
  }

  // ---- the log as a sequential run -----------------------------------------------------------

  /** The operations one after the other, each as far as it got. */
  function Replay(t0: Tx, log: seq<Entry>): Tx
  {
    if log == [] then t0 else
      var last := log[|log| - 1];
      Proceed(Replay(t0, log[..|log| - 1]), last.op, last.moves).0
  }

  /** Where operation `n` stands. */
  function PhaseAt(t0: Tx, log: seq<Entry>, n: nat): Phase
    requires n < |log|
  {
    Proceed(Replay(t0, log[..n]), log[n].op, log[n].moves).1
  }

  function Tagged(id: nat, n: nat): (block: seq<CP.Wire>)
    ensures |block| == n && forall i | 0 <= i < n :: block[i] == CP.Statement(id)
  {
    seq(n, i => CP.Statement(id))
  }

  /** The statements of the operations, one operation after the other. */
  function WireOf(t0: Tx, log: seq<Entry>): seq<CP.Wire>
  {
    if log == [] then [] else
      var front, last := log[..|log| - 1], log[|log| - 1];
      WireOf(t0, front) + Tagged(last.id, |FaultsMet(Replay(t0, front), last.op, last.moves)|)
  }

  lemma OneMoreEntry(t0: Tx, log: seq<Entry>, e: Entry)
    ensures Replay(t0, log + [e]) == Proceed(Replay(t0, log), e.op, e.moves).0
    ensures WireOf(t0, log + [e]) == WireOf(t0, log) + Tagged(e.id, |FaultsMet(Replay(t0, log), e.op, e.moves)|)
    ensures PhaseAt(t0, log + [e], |log|) == Proceed(Replay(t0, log), e.op, e.moves).1
  {
    assert (log + [e])[..|log|] == log;
  }

  lemma PhaseStays(t0: Tx, log: seq<Entry>, e: Entry, n: nat)
    requires n < |log|
    ensures PhaseAt(t0, log + [e], n) == PhaseAt(t0, log, n)
  {
    assert (log + [e])[..n] == log[..n];
  }

  // ---- the invariant -----------------------------------------------------------------------

  predicate EndOnWire(p: CP.TxState)
  {
    |p.wire| > 0 && p.wire[|p.wire| - 1].End?
  }

  predicate EntriesInv(t0: Tx, log: seq<Entry>)
  {
    forall n | 0 <= n < |log| :: Legal(log[n].op) && (t0.writable || !Writes(log[n].op))
  }

  /** The transaction is where the replayed log puts it, and the wire carries what the log sent. */
  ghost predicate TxInv(s: System, t0: Tx)
  {
    && t0.open && s.proto.write == t0.writable && EntriesInv(t0, s.log)
    && s.proto.wire == WireOf(t0, s.log) + (if s.end.Some? then [CP.End(s.end.value.kind)] else [])
    && match s.end
       case None => s.tx == if s.proto.life.Dropped? then Dropped(Replay(t0, s.log)) else Replay(t0, s.log)
       case Some(End(kind, fault, outcome)) => (s.tx, outcome) == Finish(Replay(t0, s.log), EndStmt(kind), fault)
  }

  /** The caller has not been admitted yet. */
  predicate Before(pc: CP.Pc)
  {
    pc.Called? || pc.Queued? || pc.Locked?
  }

  predicate HasAnswer(pc: CP.Pc)
  {
    pc == CP.Returned(CP.Succeeded) || pc == CP.Returned(CP.Failed)
  }

  ghost predicate OperationInv(s: System, t0: Tx, id: nat)
    requires id in s.proto.callers
  {
    var c := s.proto.callers[id];
    && (id in s.doing <==> id in s.places)
    && (c.kind.Operation? <==> id in s.asked)
    && (id in s.asked ==> c.kind == KindOf(s.asked[id]) && Legal(s.asked[id]))
    && (id in s.places ==>
          && id in s.asked && s.doing[id].op == s.asked[id] && !Before(c.pc)
          && s.places[id] < |s.log| && s.log[s.places[id]].id == id && s.log[s.places[id]].op == s.doing[id].op
          && s.doing[id].phase == PhaseAt(t0, s.log, s.places[id])
          && (c.pc.Working? ==> s.places[id] == |s.log| - 1)
          && (s.doing[id].phase.Done? || c.pc.Working? || c.pc.Abandoned?))
    && (c.kind.Operation? && HasAnswer(c.pc) ==>
          id in s.doing && s.doing[id].phase.Done?
              && (c.pc == CP.Returned(CP.Succeeded) <==> s.doing[id].phase.outcome.Ok?))
  }

  ghost predicate CloserInv(s: System, id: nat)
    requires id in s.proto.callers
  {
    var c := s.proto.callers[id];
    CP.Closer(c.kind) && CP.EndSent(c.pc) ==>
      && s.end.Some? && s.end.value.kind == c.kind
      && (c.pc.Answered? || c.pc.Released? ==> c.pc.ok == s.end.value.outcome.Ok?)
      && (c.pc.Returned? ==> (c.pc == CP.Returned(CP.Succeeded) <==> s.end.value.outcome.Ok?))
  }

  ghost predicate CallerInv(s: System, t0: Tx, id: nat)
    requires id in s.proto.callers
  {
    OperationInv(s, t0, id) && CloserInv(s, id)
  }

  /** Every operation in the log is some caller's. */
  predicate Owned(s: System, n: nat)
    requires n < |s.log|
  {
    s.log[n].id in s.proto.callers && s.log[n].id in s.places && s.places[s.log[n].id] == n
  }

  ghost predicate CallersInv(s: System, t0: Tx)
  {
    && s.asked.Keys <= s.proto.callers.Keys && s.doing.Keys <= s.proto.callers.Keys
    && s.places.Keys <= s.proto.callers.Keys
    && (forall id | id in s.proto.callers :: CallerInv(s, t0, id))
    && (forall n | 0 <= n < |s.log| :: Owned(s, n))
  }

  ghost predicate Inv(s: System, t0: Tx)
  {
    CP.Inv(s.proto) && TxInv(s, t0) && CallersInv(s, t0)
  }

  /** The step starts nothing: every operation keeps its owner. */
  predicate SameOwners(s: System, s': System)
  {
    && s'.asked == s.asked && s'.places == s.places && s'.doing.Keys == s.doing.Keys
    && s'.proto.callers.Keys == s.proto.callers.Keys
    && |s'.log| == |s.log| && forall n | 0 <= n < |s.log| :: s'.log[n].id == s.log[n].id
  }

  lemma OwnersStay(s: System, s': System, t0: Tx)
    requires CallersInv(s, t0) && SameOwners(s, s')
    requires forall i | i in s'.proto.callers :: CallerInv(s', t0, i)
    ensures CallersInv(s', t0)
  {
    forall n | 0 <= n < |s'.log| ensures Owned(s', n) {
      assert Owned(s, n);
    }
  }

  lemma OpenedInv(table: Table, write: bool)
    ensures Inv(Opened(table, write), Begun(table, write))
  {
    CP.FreshInv(write);
  }

  // ---- steps of the protocol alone -----------------------------------------------------------

  /** Without the transaction's word, no statement is sent, no outcome is handed out but the one
      already there, and nobody is admitted again. */
  predicate SameStory(c: CP.Caller, c': CP.Caller)
  {
    && c'.kind == c.kind
    && (!Before(c.pc) ==> !Before(c'.pc))
    && (c'.pc.Working? ==> c.pc.Working? || c.pc.Locked?)
    && (c.pc.Working? || c.pc.Abandoned? ==> c'.pc == c.pc || c'.pc.Abandoned?)
    && (c.kind.Operation? && HasAnswer(c'.pc) ==> c'.pc == c.pc)
    && (CP.Closer(c.kind) && CP.EndSent(c'.pc) ==>
          && CP.EndSent(c.pc)
          && (c'.pc.Answered? ==> c'.pc == c.pc)
          && (c'.pc.Released? ==> c'.pc == c.pc || c.pc == CP.Answered(c'.pc.ok))
          && (c'.pc.Returned? ==> c'.pc == c.pc || c.pc == CP.Released(c'.pc == CP.Returned(CP.Succeeded))))
  }

  /** What such a step means for caller `id`, the wire and the value's life. */
  predicate Alone(p: CP.TxState, a: CP.Action, id: nat)
  {
    var p' := CP.Next(p, a).0;
    && p'.wire == p.wire && p'.write == p.write
    && (id in p.callers ==> id in p'.callers && SameStory(p.callers[id], p'.callers[id]))
    && (id in p'.callers && id !in p.callers ==> p'.callers[id].pc.Called? && a.Enter? && a.kind == p'.callers[id].kind)
    && (p'.life.Dropped? <==> p.life.Dropped? || (a.DropFields? && CP.Enabled(p, a)))
  }

  lemma AloneEntering(p: CP.TxState, a: CP.Action, id: nat)
    requires a.Enter? || a.Acquire?
    ensures Alone(p, a, id)
  {
  }

  lemma AloneChecking(p: CP.TxState, a: CP.Action, id: nat)
    requires a.FastCheck?
    ensures Alone(p, a, id)
  {
  }

  lemma AloneDropping(p: CP.TxState, a: CP.Action, id: nat)
    requires a.DropBody? || a.DropFields?
    ensures Alone(p, a, id)
  {
  }

  lemma AloneTest(p: CP.TxState, a: CP.Action, id: nat)
    requires a.Test?
    ensures Alone(p, a, id)
  {
  }

  lemma AloneTaking(p: CP.TxState, a: CP.Action, id: nat)
    requires a.Take? || a.Unlock?
    ensures Alone(p, a, id)
  {
  }

  lemma AloneAbandon(p: CP.TxState, a: CP.Action, id: nat)
    requires a.Abandon?
    ensures Alone(p, a, id)
  {
  }

  lemma AloneAtEnd(p: CP.TxState, a: CP.Action, id: nat)
    requires (a.ReleaseActive? || a.CountResult?) && (CP.Enabled(p, a) ==> CP.Closer(p.callers[a.id].kind))
    ensures Alone(p, a, id)
  {
  }

  lemma ProtocolAlone(p: CP.TxState, a: CP.Action, id: nat)
    requires CP.Inv(p) && !DecidedInside(a)
    ensures Alone(p, a, id)
  {
    if a.Enter? || a.Acquire? {
      AloneEntering(p, a, id);
    } else if a.FastCheck? {
      AloneChecking(p, a, id);
    } else if a.DropBody? || a.DropFields? {
      AloneDropping(p, a, id);
    } else if a.Test? {
      AloneTest(p, a, id);
    } else if a.Take? || a.Unlock? {
      AloneTaking(p, a, id);
    } else if a.Abandon? {
      AloneAbandon(p, a, id);
    } else {
      AloneAtEnd(p, a, id);
    }
  }

  /** The story of every caller goes on, and nothing else but `tx` may change. */
  lemma StoryKeeps(s: System, s': System, t0: Tx, id: nat)
    requires CallersInv(s, t0) && s' == s.(proto := s'.proto, tx := s'.tx) && id in s'.proto.callers
    requires if id in s.proto.callers then SameStory(s.proto.callers[id], s'.proto.callers[id])
             else s'.proto.callers[id].pc.Called? && CP.Closer(s'.proto.callers[id].kind)
    ensures CallerInv(s', t0, id)
  {
    if id in s.proto.callers {
      assert CallerInv(s, t0, id);
    }
  }

  /** When the fields are dropped with nothing sent to end it, the transaction is still inside. */
  lemma DroppedOpen(s: System, t0: Tx)
    requires Inv(s, t0) && s.proto.life.Dropping?
    ensures s.end.None? <==> s.proto.inner
  {
    EndIsOnWire(s, t0);
    if s.proto.winner.Some? {
      var w := s.proto.winner.value;
      assert CP.IsEnded(s.proto.callers[w].pc) && CP.HasWon(s.proto.callers[w].pc);
    }
  }

  lemma {:induction false} NoEndInLog(t0: Tx, log: seq<Entry>)
    ensures forall i | 0 <= i < |WireOf(t0, log)| :: WireOf(t0, log)[i].Statement?
  {
    if log != [] {
      NoEndInLog(t0, log[..|log| - 1]);
    }
  }

  lemma EndIsOnWire(s: System, t0: Tx)
    requires TxInv(s, t0)
    ensures s.end.Some? <==> EndOnWire(s.proto)
  {
    NoEndInLog(t0, s.log);
  }

  lemma ProtocolTx(s: System, t0: Tx, a: CP.Action)
    requires Inv(s, t0) && !DecidedInside(a)
    ensures TxInv(Next(s, Shared(a)), t0)
  {
    ProtocolAlone(s.proto, a, 0);
    if a.DropFields? && CP.Enabled(s.proto, a) {
      DroppedOpen(s, t0);
    }
    var s' := Next(s, Shared(a));
    assert s' == s.(proto := s'.proto, tx := s'.tx);
    assert s.tx != s'.tx ==> a.DropFields? && CP.Enabled(s.proto, a);
  }

  lemma ProtocolCallers(s: System, t0: Tx, a: CP.Action)
    requires Inv(s, t0) && !DecidedInside(a)
    ensures CallersInv(Next(s, Shared(a)), t0)
  {
    var s' := Next(s, Shared(a));
    assert s' == s.(proto := s'.proto, tx := s'.tx) && s'.proto == CP.Next(s.proto, a).0;
    forall id | id in s'.proto.callers ensures CallerInv(s', t0, id) {
      ProtocolAlone(s.proto, a, id);
      StoryKeeps(s, s', t0, id);
    }
    forall id | id in s.proto.callers ensures id in s'.proto.callers {
      ProtocolAlone(s.proto, a, id);
    }
    forall n | 0 <= n < |s'.log| ensures Owned(s', n) {
      assert Owned(s, n);
    }
  }

  lemma ProtocolStep(s: System, t0: Tx, a: CP.Action)
    requires Inv(s, t0) && !DecidedInside(a)
    ensures Inv(Next(s, Shared(a)), t0)
  {
    CP.StepInv(s.proto, a);
    ProtocolTx(s, t0, a);
    ProtocolCallers(s, t0, a);
  }

  // ---- steps of an operation -----------------------------------------------------------------

  lemma NobodyEnded(s: System, t0: Tx, id: nat)
    requires Inv(s, t0) && id in s.proto.callers
    requires s.proto.callers[id].pc.Working? || s.proto.callers[id].pc.Unlocked?
    ensures s.end.None? && s.proto.life.InUse?
  {
    EndIsOnWire(s, t0);
    if s.proto.callers[id].pc.Unlocked? {
      assert s.proto.winner == Some(id);
    } else {
      assert s.proto.callers[id].kind.Operation? && s.proto.inner;
    }
  }

  /** Only one caller at a time is under the guard. */
  lemma OneWorks(p: CP.TxState, i: nat, j: nat)
    requires CP.Inv(p) && CP.At(p, i, CP.Working) && CP.At(p, j, CP.Working)
    ensures i == j
  {
  }

  lemma AskCallers(s: System, t0: Tx, id: nat, op: Op)
    requires CallersInv(s, t0) && MayAsk(s, id, op)
    ensures CallersInv(NextAsk(s, id, op), t0)
  {
    var s' := NextAsk(s, id, op);
    AskShape(s, id, op);
    forall i | i in s'.proto.callers ensures CallerInv(s', t0, i) {
      if i in s.proto.callers {
        assert CallerInv(s, t0, i);
        AskOther(s, t0, id, op, i);
      }
    }
    forall n | 0 <= n < |s'.log| ensures Owned(s', n) {
      assert Owned(s, n);
    }
  }

  lemma AskTx(s: System, t0: Tx, id: nat, op: Op)
    requires TxInv(s, t0) && MayAsk(s, id, op)
    ensures TxInv(NextAsk(s, id, op), t0)
  {
    AskShape(s, id, op);
  }

  lemma AskStep(s: System, t0: Tx, id: nat, op: Op)
    requires Inv(s, t0) && MayAsk(s, id, op)
    ensures Inv(NextAsk(s, id, op), t0)
  {
    CP.StepInv(s.proto, CP.Enter(id, KindOf(op)));
    AskTx(s, t0, id, op);
    AskCallers(s, t0, id, op);
  }

  lemma AskShape(s: System, id: nat, op: Op)
    requires MayAsk(s, id, op)
    ensures NextAsk(s, id, op)
         == s.(proto := s.proto.(callers := s.proto.callers[id := CP.Caller(KindOf(op), CP.Called)]),
               asked := s.asked[id := op])
  {
  }

  lemma AskOther(s: System, t0: Tx, id: nat, op: Op, i: nat)
    requires MayAsk(s, id, op) && i in s.proto.callers && CallerInv(s, t0, i)
    ensures CallerInv(NextAsk(s, id, op), t0, i)
  {
    AskShape(s, id, op);
  }

  lemma StartLog(t0: Tx, log: seq<Entry>, id: nat, op: Op)
    requires EntriesInv(t0, log) && Legal(op) && (t0.writable || !Writes(op))
    ensures var log' := log + [Entry(id, op, [])];
            && EntriesInv(t0, log') && WireOf(t0, log') == WireOf(t0, log)
            && Replay(t0, log') == Begin(Replay(t0, log), op).0
  {
    OneMoreEntry(t0, log, Entry(id, op, []));
    assert WireOf(t0, log) + Tagged(id, 0) == WireOf(t0, log);
  }

  lemma StartTx(s: System, t0: Tx, id: nat)
    requires Inv(s, t0) && MayStart(s, id)
    ensures TxInv(NextStart(s, id), t0)
  {
    NobodyEnded(s, t0, id);
    assert s.proto.callers[id].kind == CP.Operation(true) ==> s.proto.write;
    assert CallerInv(s, t0, id);
    StartLog(t0, s.log, id, s.asked[id]);
  }

  lemma StartSelf(s: System, t0: Tx, id: nat)
    requires MayStart(s, id) && s.tx == Replay(t0, s.log) && OperationInv(s, t0, id)
    ensures OperationInv(NextStart(s, id), t0, id)
  {
    OneMoreEntry(t0, s.log, Entry(id, s.asked[id], []));
  }

  lemma StartOther(s: System, t0: Tx, id: nat, i: nat)
    requires MayStart(s, id) && i in s.proto.callers && i != id && OperationInv(s, t0, i)
    requires !CP.At(s.proto, i, CP.Working)
    ensures OperationInv(NextStart(s, id), t0, i)
  {
    if i in s.places {
      PhaseStays(t0, s.log, Entry(id, s.asked[id], []), s.places[i]);
    }
  }

  lemma StartCaller(s: System, t0: Tx, id: nat, i: nat)
    requires Inv(s, t0) && MayStart(s, id) && i in s.proto.callers
    ensures CallerInv(NextStart(s, id), t0, i)
  {
    assert CallerInv(s, t0, i);
    NobodyEnded(s, t0, id);
    if i == id {
      StartSelf(s, t0, id);
    } else {
      if CP.At(s.proto, i, CP.Working) {
        OneWorks(s.proto, i, id);
      }
      StartOther(s, t0, id, i);
    }
  }

  lemma StartOwned(s: System, t0: Tx, id: nat, n: nat)
    requires CallersInv(s, t0) && MayStart(s, id) && n <= |s.log|
    ensures Owned(NextStart(s, id), n)
  {
    if n < |s.log| {
      assert Owned(s, n) && CallerInv(s, t0, id);
    }
  }

  lemma StartStep(s: System, t0: Tx, id: nat)
    requires Inv(s, t0) && MayStart(s, id)
    ensures Inv(NextStart(s, id), t0)
  {
    var s' := NextStart(s, id);
    StartTx(s, t0, id);
    forall i | i in s'.proto.callers ensures CallerInv(s', t0, i) {
      StartCaller(s, t0, id, i);
    }
    forall n | 0 <= n < |s'.log| ensures Owned(s', n) {
      StartOwned(s, t0, id, n);
    }
  }

  lemma LastEntry(t0: Tx, log: seq<Entry>)
    requires log != []
    ensures var n := |log| - 1;
            && log == log[..n] + [log[n]]
            && (Replay(t0, log), PhaseAt(t0, log, n)) == Proceed(Replay(t0, log[..n]), log[n].op, log[n].moves)
  {
  }

  lemma GoesOnLast(s: System, t0: Tx, id: nat)
    requires MayGo(s, id) && OperationInv(s, t0, id)
    ensures s.log != [] && s.places[id] == |s.log| - 1 && s.log[|s.log| - 1].id == id
    ensures s.doing[id].phase == PhaseAt(t0, s.log, |s.log| - 1)
  {
  }

  /** The operation that goes on is the last one in the log, and the transaction is where its
      steps so far have put it. */
  lemma GoesOnAtEnd(s: System, t0: Tx, id: nat)
    requires Inv(s, t0) && MayGo(s, id)
    ensures s.end.None? && s.proto.life.InUse? && s.places[id] == |s.log| - 1
    ensures var n := |s.log| - 1;
            && s.log == s.log[..n] + [s.log[n]] && s.log[n].id == id
            && (s.tx, s.doing[id].phase) == Proceed(Replay(t0, s.log[..n]), s.log[n].op, s.log[n].moves)
  {
    assert CallerInv(s, t0, id);
    NobodyEnded(s, t0, id);
    GoesOnLast(s, t0, id);
    LastEntry(t0, s.log);
  }

  /** One more step of the last operation, as replaying the log sees it. */
  lemma ReplayOneMore(t0: Tx, front: seq<Entry>, e: Entry, fault: Fault)
    ensures var t := Replay(t0, front);
            var (t', phase') := Proceed(t, e.op, e.moves);
            var e' := e.(moves := e.moves + [fault]);
            && Proceed(t, e.op, e'.moves) == Advance(t', phase', fault)
            && Replay(t0, front + [e']) == Advance(t', phase', fault).0
            && PhaseAt(t0, front + [e'], |front|) == Advance(t', phase', fault).1
            && WireOf(t0, front + [e'])
            == WireOf(t0, front + [e]) + if phase'.Sending? then [CP.Statement(e.id)] else []
  {
    var t := Replay(t0, front);
    var e' := e.(moves := e.moves + [fault]);
    OneMoreMove(Begin(t, e.op).0, Begin(t, e.op).1, e.moves, fault);
    OneMoreEntry(t0, front, e);
    OneMoreEntry(t0, front, e');
    var n := |FaultsMet(t, e.op, e.moves)|;
    assert Tagged(e.id, n + 1) == Tagged(e.id, n) + [CP.Statement(e.id)];
  }

  /** What the step does, the operation being the last in the log. */
  predicate WentOn(s: System, s': System, id: nat, fault: Fault)
  {
    && id in s.doing && s.log != []
    && var n := |s.log| - 1;
       var (tx, phase) := Advance(s.tx, s.doing[id].phase, fault);
       && s'.log == s.log[..n] + [s.log[n].(moves := s.log[n].moves + [fault])]
       && s'.tx == tx && s'.doing == s.doing[id := Doing(s.doing[id].op, phase)]
       && s'.asked == s.asked && s'.places == s.places && s'.end == s.end
       && s'.proto == s.proto.(wire := s.proto.wire + if s.doing[id].phase.Sending? then [CP.Statement(id)] else [])
  }

  lemma GoShape(s: System, id: nat, fault: Fault)
    requires MayGo(s, id) && s.places[id] == |s.log| - 1
    ensures WentOn(s, NextGo(s, id, fault), id, fault)
  {
    assert s.proto.wire + [] == s.proto.wire;
  }

  lemma GoTx(s: System, s': System, t0: Tx, id: nat, fault: Fault)
    requires TxInv(s, t0) && s.end.None? && s.proto.life.InUse? && WentOn(s, s', id, fault)
    requires var n := |s.log| - 1;
             && s.log == s.log[..n] + [s.log[n]] && s.log[n].id == id
             && (s.tx, s.doing[id].phase) == Proceed(Replay(t0, s.log[..n]), s.log[n].op, s.log[n].moves)
    ensures TxInv(s', t0)
  {
    var n := |s.log| - 1;
    ReplayOneMore(t0, s.log[..n], s.log[n], fault);
    forall k | 0 <= k < |s'.log| ensures Legal(s'.log[k].op) && (t0.writable || !Writes(s'.log[k].op)) {
      assert s'.log[k].op == s.log[k].op;
    }
  }

  lemma GoSelf(s: System, s': System, t0: Tx, id: nat, fault: Fault)
    requires WentOn(s, s', id, fault) && CP.At(s.proto, id, CP.Working) && OperationInv(s, t0, id)
    requires id in s.places && s.places[id] == |s.log| - 1
    requires s.doing[id].phase == PhaseAt(t0, s.log, |s.log| - 1)
    requires var n := |s.log| - 1; s.tx == Proceed(Replay(t0, s.log[..n]), s.log[n].op, s.log[n].moves).0
    ensures OperationInv(s', t0, id)
  {
    var n := |s.log| - 1;
    ReplayOneMore(t0, s.log[..n], s.log[n], fault);
  }

  lemma GoOther(s: System, s': System, t0: Tx, id: nat, fault: Fault, i: nat)
    requires WentOn(s, s', id, fault) && i in s.proto.callers && i != id && OperationInv(s, t0, i)
    requires s.log[|s.log| - 1].id == id && (CP.At(s.proto, i, CP.Working) ==> i !in s.places)
    ensures OperationInv(s', t0, i)
  {
    if i in s.places {
      var p := s.places[i];
      assert s.log[p].id == i && p < |s.log| - 1;
      assert s'.log[..p] == s.log[..p] && s'.log[p] == s.log[p];
    }
  }

  lemma GoCaller(s: System, s': System, t0: Tx, id: nat, fault: Fault, i: nat)
    requires Inv(s, t0) && MayGo(s, id) && WentOn(s, s', id, fault) && i in s.proto.callers
    ensures CallerInv(s', t0, i)
  {
    GoesOnAtEnd(s, t0, id);
    assert CallerInv(s, t0, i);
    if i == id {
      GoSelf(s, s', t0, id, fault);
    } else {
      if CP.At(s.proto, i, CP.Working) {
        OneWorks(s.proto, i, id);
      }
      GoOther(s, s', t0, id, fault, i);
    }
  }

  lemma GoCallers(s: System, s': System, t0: Tx, id: nat, fault: Fault)
    requires Inv(s, t0) && MayGo(s, id) && WentOn(s, s', id, fault)
    ensures forall i | i in s'.proto.callers :: CallerInv(s', t0, i)
  {
    forall i | i in s'.proto.callers ensures CallerInv(s', t0, i) {
      GoCaller(s, s', t0, id, fault, i);
    }
  }

  lemma GoOwners(s: System, s': System, id: nat, fault: Fault)
    requires id in s.doing && WentOn(s, s', id, fault)
    ensures SameOwners(s, s')
  {
    assert s'.doing.Keys == s.doing.Keys;
  }

  lemma GoProto(s: System, id: nat, fault: Fault)
    requires CP.Inv(s.proto) && MayGo(s, id)
    ensures CP.Inv(NextGo(s, id, fault).proto)
  {
    CP.StepInv(s.proto, CP.Run(id));
  }

  lemma GoStep(s: System, t0: Tx, id: nat, fault: Fault)
    requires Inv(s, t0) && MayGo(s, id)
    ensures Inv(NextGo(s, id, fault), t0)
  {
    var s' := NextGo(s, id, fault);
    GoProto(s, id, fault);
    GoesOnAtEnd(s, t0, id);
    GoShape(s, id, fault);
    GoTx(s, s', t0, id, fault);
    GoCallers(s, s', t0, id, fault);
    GoOwners(s, s', id, fault);
    OwnersStay(s, s', t0);
  }

  // ---- steps that move callers only ------------------------------------------------------------

  predicate OnlyCallers(s: System, s': System)
  {
    && s' == s.(proto := s'.proto)
    && s'.proto.wire == s.proto.wire && s'.proto.life == s.proto.life && s'.proto.write == s.proto.write
    && s'.proto.callers.Keys == s.proto.callers.Keys
  }

  lemma OnlyCallersInv(s: System, s': System, t0: Tx)
    requires TxInv(s, t0) && CallersInv(s, t0) && CP.Inv(s'.proto) && OnlyCallers(s, s')
    requires forall i | i in s'.proto.callers :: CallerInv(s', t0, i)
    ensures Inv(s', t0)
  {
    OwnersStay(s, s', t0);
  }

  lemma ReturnShape(s: System, id: nat)
    requires MayReturn(s, id)
    ensures OnlyCallers(s, Next(s, Return(id)))
    ensures Next(s, Return(id)).proto == CP.Next(s.proto, CP.Leave(id, s.doing[id].phase.outcome.Ok?)).0
  {
  }

  lemma ReturnCaller(s: System, t0: Tx, id: nat, i: nat)
    requires MayReturn(s, id) && s.proto.callers[id].kind.Operation?
    requires i in s.proto.callers && CallerInv(s, t0, i)
    ensures CallerInv(Next(s, Return(id)), t0, i)
  {
  }

  lemma ReturnStep(s: System, t0: Tx, id: nat)
    requires Inv(s, t0) && MayReturn(s, id)
    ensures Inv(Next(s, Return(id)), t0)
  {
    var s' := Next(s, Return(id));
    CP.StepInv(s.proto, CP.Leave(id, s.doing[id].phase.outcome.Ok?));
    ReturnShape(s, id);
    forall i | i in s'.proto.callers ensures CallerInv(s', t0, i) {
      assert CallerInv(s, t0, i);
      ReturnCaller(s, t0, id, i);
    }
    OnlyCallersInv(s, s', t0);
  }

  lemma ReplyShape(s: System, id: nat)
    requires CP.At(s.proto, id, CP.Sent) && s.end.Some?
    ensures OnlyCallers(s, Next(s, Reply(id)))
    ensures Next(s, Reply(id)).proto == CP.Next(s.proto, CP.Answer(id, s.end.value.outcome.Ok?)).0
  {
  }

  lemma ReplyCaller(s: System, t0: Tx, id: nat, i: nat)
    requires CP.At(s.proto, id, CP.Sent) && s.end.Some? && i in s.proto.callers && CallerInv(s, t0, i)
    ensures CallerInv(Next(s, Reply(id)), t0, i)
  {
  }

  lemma ReplyStep(s: System, t0: Tx, id: nat)
    requires Inv(s, t0) && CP.At(s.proto, id, CP.Sent) && s.end.Some?
    ensures Inv(Next(s, Reply(id)), t0)
  {
    var s' := Next(s, Reply(id));
    CP.StepInv(s.proto, CP.Answer(id, s.end.value.outcome.Ok?));
    ReplyShape(s, id);
    forall i | i in s'.proto.callers ensures CallerInv(s', t0, i) {
      assert CallerInv(s, t0, i);
      ReplyCaller(s, t0, id, i);
    }
    OnlyCallersInv(s, s', t0);
  }

  lemma TerminateTx(s: System, t0: Tx, id: nat, fault: Fault)
    requires TxInv(s, t0) && s.end.None? && s.proto.life.InUse? && CP.Enabled(s.proto, CP.SendEnd(id))
    ensures TxInv(Next(s, Terminate(id, fault)), t0)
  {
    var s' := Next(s, Terminate(id, fault));
    assert s'.proto.wire == s.proto.wire + [CP.End(s.proto.callers[id].kind)];
    assert s.proto.wire == WireOf(t0, s.log);
  }

  lemma TerminateCaller(s: System, t0: Tx, id: nat, fault: Fault, i: nat)
    requires CP.Enabled(s.proto, CP.SendEnd(id)) && CP.Closer(s.proto.callers[id].kind) && s.end.None?
    requires i in s.proto.callers && CallerInv(s, t0, i)
    ensures CallerInv(Next(s, Terminate(id, fault)), t0, i)
  {
  }

  lemma TerminateCallers(s: System, t0: Tx, id: nat, fault: Fault)
    requires Inv(s, t0) && CP.Enabled(s.proto, CP.SendEnd(id))
    ensures var s' := Next(s, Terminate(id, fault));
            forall i | i in s'.proto.callers :: CallerInv(s', t0, i)
  {
    var s' := Next(s, Terminate(id, fault));
    NobodyEnded(s, t0, id);
    SenderCloses(s.proto, id);
    forall i | i in s'.proto.callers ensures CallerInv(s', t0, i) {
      assert CallerInv(s, t0, i);
      TerminateCaller(s, t0, id, fault, i);
    }
  }

  lemma SenderCloses(p: CP.TxState, id: nat)
    requires CP.Inv(p) && CP.At(p, id, CP.Unlocked)
    ensures CP.Closer(p.callers[id].kind)
  {
  }

  lemma TerminateShape(s: System, id: nat, fault: Fault)
    requires CP.Enabled(s.proto, CP.SendEnd(id))
    ensures var s' := Next(s, Terminate(id, fault));
            SameOwners(s, s') && s'.proto == CP.Next(s.proto, CP.SendEnd(id)).0
  {
  }

  lemma TerminateStep(s: System, t0: Tx, id: nat, fault: Fault)
    requires Inv(s, t0) && CP.Enabled(s.proto, CP.SendEnd(id))
    ensures Inv(Next(s, Terminate(id, fault)), t0)
  {
    CP.StepInv(s.proto, CP.SendEnd(id));
    NobodyEnded(s, t0, id);
    TerminateTx(s, t0, id, fault);
    TerminateShape(s, id, fault);
    TerminateCallers(s, t0, id, fault);
    OwnersStay(s, Next(s, Terminate(id, fault)), t0);
  }

  lemma OperationStepInv(s: System, t0: Tx, e: Event)
    requires Inv(s, t0) && (e.Ask? || e.Start? || e.Go? || e.Return?)
    ensures Inv(Next(s, e), t0)
  {
    if e.Ask? && MayAsk(s, e.id, e.op) {
      AskStep(s, t0, e.id, e.op);
    } else if e.Start? && MayStart(s, e.id) {
      StartStep(s, t0, e.id);
    } else if e.Go? && MayGo(s, e.id) {
      GoStep(s, t0, e.id, e.fault);
    } else if e.Return? && MayReturn(s, e.id) {
      ReturnStep(s, t0, e.id);
    }
  }

  lemma OtherStepInv(s: System, t0: Tx, e: Event)
    requires Inv(s, t0) && (e.Shared? || e.Terminate? || e.Reply?)
    ensures Inv(Next(s, e), t0)
  {
    if e.Shared? && !DecidedInside(e.action) {
      ProtocolStep(s, t0, e.action);
    } else if e.Terminate? && CP.Enabled(s.proto, CP.SendEnd(e.id)) {
      TerminateStep(s, t0, e.id, e.fault);
    } else if e.Reply? && CP.At(s.proto, e.id, CP.Sent) && s.end.Some? {
      ReplyStep(s, t0, e.id);
    }
  }

  lemma StepInv(s: System, t0: Tx, e: Event)
    requires Inv(s, t0)
    ensures Inv(Next(s, e), t0)
  {
    if e.Shared? || e.Terminate? || e.Reply? {
      OtherStepInv(s, t0, e);
    } else {
      OperationStepInv(s, t0, e);
    }
  }

  lemma {:induction false} RunInv(s: System, t0: Tx, events: seq<Event>)
    requires Inv(s, t0)
    ensures Inv(RunEvents(s, events), t0)
    decreases |events|
  {
    if events != [] {
      StepInv(s, t0, events[0]);
      RunInv(Next(s, events[0]), t0, events[1..]);
    }
  }

  // ---- what follows --------------------------------------------------------------------------

  /** The calls of the log, each under the faults that struck its statements. */
  function CallsOf(t0: Tx, log: seq<Entry>): (calls: seq<Call>)
    ensures |calls| == |log|
  {
    if log == [] then [] else
      var front, last := log[..|log| - 1], log[|log| - 1];
      CallsOf(t0, front) + [Call(last.op, FaultsMet(Replay(t0, front), last.op, last.moves))]
  }

  predicate AllDone(t0: Tx, log: seq<Entry>)
  {
    forall n | 0 <= n < |log| :: PhaseAt(t0, log, n).Done?
  }

  lemma {:induction false} AllDoneIsRun(t0: Tx, log: seq<Entry>)
    requires AllDone(t0, log)
    ensures Replay(t0, log) == Run(t0, CallsOf(t0, log))
  {
    if log != [] {
      var n := |log| - 1;
      var front := log[..n];
      forall k | 0 <= k < n ensures PhaseAt(t0, front, k).Done? {
        assert front[..k] == log[..k] && PhaseAt(t0, log, k).Done?;
      }
      AllDoneIsRun(t0, front);
      LastEntry(t0, log);
      assert PhaseAt(t0, log, n).Done?;
      ProceedIsStep(Replay(t0, front), log[n].op, log[n].moves);
      SV.RunOneMore(t0, CallsOf(t0, front), CallsOf(t0, log)[n]);
    }
  }

  ghost predicate Reached(table: Table, write: bool, s: System)
  {
    exists events :: s == RunEvents(Opened(table, write), events)
  }

  lemma ReachedInv(table: Table, write: bool, s: System)
    requires Reached(table, write, s)
    ensures Inv(s, Begun(table, write))
  {
    var events :| s == RunEvents(Opened(table, write), events);
    OpenedInv(table, write);
    RunInv(Opened(table, write), Begun(table, write), events);
  }

  /** Under any interleaving of any number of callers, step by step, with any statement failing
      and any future dropped at any step: the transaction is always where the operations, run one
      after the other in the order they were admitted, put it, each as far as it got; what the
      server received is the statements of the one, then of the next; and one terminal command at
      most followed, on the state they left. */
  lemma Serializable(table: Table, write: bool, s: System)
    requires Reached(table, write, s)
    ensures var t := Replay(Begun(table, write), s.log);
            && (s.end.None? && !s.proto.life.Dropped? ==> s.tx == t)
            && (s.end.Some? ==> (s.tx, s.end.value.outcome) == Finish(t, EndStmt(s.end.value.kind), s.end.value.fault))
    ensures s.proto.wire == WireOf(Begun(table, write), s.log)
            + (if s.end.Some? then [CP.End(s.end.value.kind)] else [])
  {
    ReachedInv(table, write, s);
  }

  /** Only the operation now under the guard and those whose future was dropped there are
      unfinished; if there are none, the log is a run of whole calls. */
  lemma UnfinishedAre(table: Table, write: bool, s: System)
    requires Reached(table, write, s)
    ensures var t0 := Begun(table, write);
            && (forall n | 0 <= n < |s.log| && !PhaseAt(t0, s.log, n).Done? ::
                  && s.log[n].id in s.proto.callers
                  && var pc := s.proto.callers[s.log[n].id].pc;
                     pc.Abandoned? || (pc.Working? && s.proto.holder == Some(s.log[n].id) && n == |s.log| - 1))
            && (AllDone(t0, s.log) ==> Replay(t0, s.log) == Run(t0, CallsOf(t0, s.log)))
  {
    var t0 := Begun(table, write);
    ReachedInv(table, write, s);
    forall n | 0 <= n < |s.log| && !PhaseAt(t0, s.log, n).Done?
      ensures s.log[n].id in s.proto.callers
      ensures var pc := s.proto.callers[s.log[n].id].pc;
              pc.Abandoned? || (pc.Working? && s.proto.holder == Some(s.log[n].id) && n == |s.log| - 1)
    {
      assert Owned(s, n);
      assert CallerInv(s, t0, s.log[n].id);
    }
    if AllDone(t0, s.log) {
      AllDoneIsRun(t0, s.log);
    }
  }

  /** Every caller that got an answer got the one its own call has at its place in that run. */
  lemma AnswersAreTheRuns(table: Table, write: bool, s: System, id: nat)
    requires Reached(table, write, s)
    requires id in s.proto.callers && s.proto.callers[id].kind.Operation? && HasAnswer(s.proto.callers[id].pc)
    ensures id in s.places && s.places[id] < |s.log| && s.log[s.places[id]].id == id
    ensures var e := s.log[s.places[id]];
            var t := Replay(Begun(table, write), s.log[..s.places[id]]);
            && KindOf(e.op) == s.proto.callers[id].kind
            && PhaseAt(Begun(table, write), s.log, s.places[id]).Done?
            && (s.proto.callers[id].pc == CP.Returned(CP.Succeeded) <==>
                 Step(t, e.op, FaultsMet(t, e.op, e.moves)).1.Ok?)
  {
    ReachedInv(table, write, s);
    assert CallerInv(s, Begun(table, write), id);
    var e := s.log[s.places[id]];
    ProceedIsStep(Replay(Begun(table, write), s.log[..s.places[id]]), e.op, e.moves);
  }

  /** Between two statements of one caller there is none of another's. */
  predicate Contiguous(wire: seq<CP.Wire>)
  {
    forall i, j, k | 0 <= i <= j <= k < |wire| && wire[i].Statement? && wire[i] == wire[k] :: wire[j] == wire[i]
  }

  predicate DistinctCallers(log: seq<Entry>)
  {
    forall m, n | 0 <= m < n < |log| :: log[m].id != log[n].id
  }

  predicate SentBy(log: seq<Entry>, w: CP.Wire)
  {
    w.Statement? && exists n :: 0 <= n < |log| && log[n].id == w.id
  }

  lemma {:induction false} WireContiguous(t0: Tx, log: seq<Entry>)
    requires DistinctCallers(log)
    ensures Contiguous(WireOf(t0, log)) && forall i | 0 <= i < |WireOf(t0, log)| :: SentBy(log, WireOf(t0, log)[i])
  {
    if log != [] {
      var n := |log| - 1;
      var front, last := log[..n], log[n];
      var before := WireOf(t0, front);
      var block := Tagged(last.id, |FaultsMet(Replay(t0, front), last.op, last.moves)|);
      WireContiguous(t0, front);
      forall i | 0 <= i < |before| ensures SentBy(log, before[i]) && before[i].id != last.id {
        assert SentBy(front, before[i]);
        var k :| 0 <= k < |front| && front[k].id == before[i].id;
        assert log[k].id == before[i].id;
      }
      BlockAppended(before, block, last.id);
      forall i | 0 <= i < |before + block| ensures SentBy(log, (before + block)[i]) {
        assert i >= |before| ==> log[n].id == (before + block)[i].id;
      }
    }
  }

  lemma BlockAppended(before: seq<CP.Wire>, block: seq<CP.Wire>, id: nat)
    requires Contiguous(before) && forall i | 0 <= i < |before| :: before[i].Statement? && before[i].id != id
    requires forall i | 0 <= i < |block| :: block[i] == CP.Statement(id)
    ensures Contiguous(before + block)
  {
    var w := before + block;
    forall i, j, k | 0 <= i <= j <= k < |w| && w[i].Statement? && w[i] == w[k] ensures w[j] == w[i] {
      assert i < |before| <==> k < |before|;
    }
  }

  /** On the wire the statements of each caller stand together. */
  lemma StatementsStandTogether(table: Table, write: bool, s: System)
    requires Reached(table, write, s)
    ensures Contiguous(s.proto.wire)
  {
    var t0 := Begun(table, write);
    ReachedInv(table, write, s);
    forall m, n | 0 <= m < n < |s.log| ensures s.log[m].id != s.log[n].id {
      assert Owned(s, m) && Owned(s, n);
    }
    WireContiguous(t0, s.log);
    var w := WireOf(t0, s.log);
    forall i, j, k | 0 <= i <= j <= k < |s.proto.wire| && s.proto.wire[i].Statement?
        && s.proto.wire[i] == s.proto.wire[k]
      ensures s.proto.wire[j] == s.proto.wire[i]
    {
      assert k < |w| && w[i] == s.proto.wire[i] && w[k] == s.proto.wire[k] && w[j] == s.proto.wire[j];
    }
  }

  // ---- real time -----------------------------------------------------------------------------

  /** The log only grows, and new operations come last. */
  predicate Grows(s: System, s': System)
  {
    && |s.log| <= |s'.log|
    && (forall id | id in s.places :: id in s'.places && s'.places[id] == s.places[id])
    && (forall id | id in s'.places && id !in s.places :: s'.places[id] >= |s.log|)
  }

  lemma StartGrows(s: System, id: nat)
    requires MayStart(s, id) && id !in s.places
    ensures Grows(s, NextStart(s, id))
  {
  }

  lemma OthersGrow(s: System, e: Event)
    requires !e.Start?
    ensures |Next(s, e).log| == |s.log| && Next(s, e).places == s.places
  {
  }

  lemma StepGrows(s: System, t0: Tx, e: Event)
    requires Inv(s, t0)
    ensures Grows(s, Next(s, e))
  {
    if !e.Start? {
      OthersGrow(s, e);
    } else if MayStart(s, e.id) {
      assert CallerInv(s, t0, e.id);
      StartGrows(s, e.id);
    }
  }

  lemma {:induction false} RunGrows(s: System, t0: Tx, events: seq<Event>)
    requires Inv(s, t0)
    ensures Grows(s, RunEvents(s, events))
    decreases |events|
  {
    if events != [] {
      var s1 := Next(s, events[0]);
      StepGrows(s, t0, events[0]);
      StepInv(s, t0, events[0]);
      RunGrows(s1, t0, events[1..]);
      var s2 := RunEvents(s, events);
      forall id | id in s2.places && id !in s.places ensures s2.places[id] >= |s.log| {
        assert id in s1.places ==> s1.places[id] >= |s.log|;
      }
    }
  }

  /** The order of the run is the order of real time: an operation that had begun, let alone
      returned, before another was even called comes before it. */
  lemma RealTimeOrder(table: Table, write: bool, s: System, later: seq<Event>, i: nat, j: nat)
    requires Reached(table, write, s) && i in s.places && j !in s.proto.callers
    ensures var s' := RunEvents(s, later);
            i in s'.places && (j in s'.places ==> s'.places[i] < s'.places[j])
  {
    ReachedInv(table, write, s);
    RunGrows(s, Begun(table, write), later);
    assert CallerInv(s, Begun(table, write), i);
  }

  // ---- the protocol by itself ------------------------------------------------------------------

  /** The protocol part of any run is a run of the close protocol, so that everything proved of
      those holds here too. */
  lemma {:induction false} ProtocolFollows(s: System, t0: Tx, events: seq<Event>) returns (actions: seq<CP.Action>)
    requires Inv(s, t0)
    ensures RunEvents(s, events).proto == CR.RunAll(s.proto, actions)
    decreases |events|
  {
    if events == [] {
      return [];
    }
    var s1 := Next(s, events[0]);
    StepInv(s, t0, events[0]);
    var rest := ProtocolFollows(s1, t0, events[1..]);
    var a := ProtocolAction(s, events[0]);
    if s1.proto == s.proto {
      return rest;
    }
    actions := [a] + rest;
    assert actions[1..] == rest;
  }

  /** The protocol step behind an event, if it takes one. */
  function ProtocolAction(s: System, e: Event): (a: CP.Action)
    ensures Next(s, e).proto == s.proto || Next(s, e).proto == CP.Next(s.proto, a).0
  {
    match e
    case Shared(a) => a
    case Ask(id, op) => CP.Enter(id, KindOf(op))
    case Start(id) => CP.Run(id)
    case Go(id, _) => CP.Run(id)
    case Return(id) => CP.Leave(id, id in s.doing && s.doing[id].phase.Done? && s.doing[id].phase.outcome.Ok?)
    case Terminate(id, _) => CP.SendEnd(id)
    case Reply(id) => CP.Answer(id, s.end.Some? && s.end.value.outcome.Ok?)
  }

  // ---- the durable table ---------------------------------------------------------------------

  lemma {:induction false} ReplayKeeps(t0: Tx, log: seq<Entry>)
    requires t0.open && EntriesInv(t0, log)
    ensures KeepsFrame(t0, Replay(t0, log))
  {
    if log != [] {
      var n := |log| - 1;
      ReplayKeeps(t0, log[..n]);
      ProceedKeeps(Replay(t0, log[..n]), log[n].op, log[n].moves);
    }
  }

  lemma EndOutcome(t: Tx, kind: CP.Kind, fault: Fault)
    requires t.open
    ensures var (t', r) := Finish(t, EndStmt(kind), fault);
            && (!kind.Committing? ==> t'.server.committed == t.server.committed)
            && (r.Ok? && kind.Committing? ==>
                  t'.server.committed == if t.server.status.InTx? then t.server.working else t.server.committed)
            && (t'.server.committed == t.server.committed
                || (t.server.status.InTx? && t'.server.committed == t.server.working))
  {
  }

  /** A commit that returned Ok has published exactly the table the sequential run left, unless
      an error had aborted the block, in which case, as after a cancel, a failed cancel, a drop
      or no end at all, the durable table is the one the transaction began with. */
  lemma CommittedIsTheRun(table: Table, write: bool, s: System)
    requires Reached(table, write, s)
    ensures var t := Replay(Begun(table, write), s.log);
            && (forall id | id in s.proto.callers
                 && s.proto.callers[id] == CP.Caller(CP.Committing, CP.Returned(CP.Succeeded)) ::
                  s.tx.server.committed == if t.server.status.InTx? then t.server.working else table)
            && (s.end.None? || !s.end.value.kind.Committing? ==> s.tx.server.committed == table)
            && (s.tx.server.committed == table || (t.server.status.InTx? && s.tx.server.committed == t.server.working))
  {
    var t0 := Begun(table, write);
    ReachedInv(table, write, s);
    ReplayKeeps(t0, s.log);
    if s.end.Some? {
      EndOutcome(Replay(t0, s.log), s.end.value.kind, s.end.value.fault);
    }
    forall id | id in s.proto.callers && s.proto.callers[id] == CP.Caller(CP.Committing, CP.Returned(CP.Succeeded))
      ensures s.end.Some? && s.end.value.kind.Committing? && s.end.value.outcome.Ok?
    {
      assert CallerInv(s, t0, id);
    }
  }

  /** A transaction that the store counts as committed has published nothing exactly when an
      error had aborted its block, or when the run had left the table as it was. */
  lemma CountedCommit(table: Table, write: bool, s: System)
    requires Reached(table, write, s) && CR.IsCommitted(s.proto)
    ensures var t := Replay(Begun(table, write), s.log);
            && s.tx.server.committed == (if t.server.status.InTx? then t.server.working else table)
            && (s.tx.server.committed == table <==> !t.server.status.InTx? || t.server.working == table)
  {
    ReachedInv(table, write, s);
    CommittedIsTheRun(table, write, s);
    var w := s.proto.winner.value;
    assert s.proto.callers[w] == CP.Caller(CP.Committing, CP.Returned(CP.Succeeded));
  }

  /** The checks of the inner transaction never fire: a call that gets through to it finds it
      open, and writable if it writes, so its own `TxClosed` and `TxReadOnly` never come back. */
  lemma InnerNeverRefuses(table: Table, write: bool, s: System)
    requires Reached(table, write, s)
    ensures forall n | 0 <= n < |s.log| :: Sound(PhaseAt(Begun(table, write), s.log, n))
  {
    var t0 := Begun(table, write);
    ReachedInv(table, write, s);
    forall n | 0 <= n < |s.log| ensures Sound(PhaseAt(t0, s.log, n)) {
      ReplayKeeps(t0, s.log[..n]);
      ProceedKeeps(Replay(t0, s.log[..n]), s.log[n].op, s.log[n].moves);
    }
  }

  // ---- savepoints across dropped futures --------------------------------------------------------

  /** If every operation of the log is settled where it stopped, dropped futures included, the two
      savepoint stacks agree. */
  lemma StacksAgreeAcross(t0: Tx, log: seq<Entry>)
    requires t0.open && SV.InSync(t0) && EntriesInv(t0, log)
    requires forall n | 0 <= n < |log| :: AC.Settled(log[n].op, PhaseAt(t0, log, n))
    ensures SV.InSync(Replay(t0, log))
  {
    if log != [] {
      var n := |log| - 1;
      var front := log[..n];
      forall k | 0 <= k < n ensures AC.Settled(front[k].op, PhaseAt(t0, front, k)) {
        assert front[..k] == log[..k] && AC.Settled(log[k].op, PhaseAt(t0, log, k));
      }
      StacksAgreeAcross(t0, front);
      ReplayKeeps(t0, front);
      assert AC.Settled(log[n].op, PhaseAt(t0, log, n));
      AC.StacksAfter(Replay(t0, front), log[n].op, log[n].moves);
    }
  }
}
