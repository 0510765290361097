/** The store over its whole life (src/store.rs:774-1097, src/pg_builder.rs:43-47): any number
    of concurrent calls of the public `begin`, through `new_transaction` or directly, the
    transactions they open, their users, the shared counters, and shutdown. */
module Lifecycle {
  import CP = CloseProtocol
  import CR = CloseRuns
  import BR = BeginRetry

  /** Where a `begin` call stands. `Counted`: `tx_started` has been bumped, `tx_active` not yet. */
  datatype Phase = AtBarrier | AtLoop | Connecting | Sleeping | Connected | Counted

  /** A bare transaction's connection: in its field, taken by a commit or cancel, given back. */
  datatype Stage = Held | Ending | Released

  /** `wrapped`: the call came through `new_transaction`, which puts a `PgTx` around the result.
      A direct caller of `begin` gets the bare `PgTransaction`. */
  datatype Entry =
    | Beginning(write: bool, wrapped: bool, phase: Phase, attempt: nat)
    | Refused     // the call returned an error
    | GivenUp     // its future was dropped
    | Open(tx: CP.TxState)
    | Bare(stage: Stage)

  datatype Store = Store(
    shuttingDown: bool,
    started: nat,
    committed: nat,
    rolledBack: nat,
    active: int,
    entries: map<nat, Entry>)

  datatype Event =
    | Begin(id: nat, write: bool, wrapped: bool)
    | PassBarrier(id: nat)
    | Recheck(id: nat)
    | Attempted(id: nat, outcome: BR.Attempt)
    | Wake(id: nat)
    | DropCall(id: nat)   // its future is dropped at an await point
    | CountStarted(id: nat)
    | CountActive(id: nat)
    | Use(id: nat, action: CP.Action)
    | EndBare(id: nat)      // commit or cancel takes the connection
    | ReleaseBare(id: nat)  // its guard is dropped, or `Drop` finds the connection still there
    | Shutdown

  /** `PgStore::new` */
  const EMPTY_STORE := Store(false, 0, 0, 0, 0, map[])

  predicate In(s: Store, id: nat, phase: Phase)
  {
    id in s.entries && s.entries[id].Beginning? && s.entries[id].phase == phase
  }

  predicate IsOpen(s: Store, id: nat)
  {
    id in s.entries && s.entries[id].Open?
  }

  predicate Enabled(s: Store, e: Event)
  {
    match e
    case Begin(id, _, _) => id !in s.entries
    case PassBarrier(id) => In(s, id, AtBarrier)
    case Recheck(id) => In(s, id, AtLoop)
    case Attempted(id, _) => In(s, id, Connecting)
    case Wake(id) => In(s, id, Sleeping)
    case DropCall(id) => In(s, id, AtBarrier) || In(s, id, Connecting) || In(s, id, Sleeping)
    case CountStarted(id) => In(s, id, Connected)
    case CountActive(id) => In(s, id, Counted)
    case Use(id, _) => IsOpen(s, id)
    case EndBare(id) => id in s.entries && s.entries[id] == Bare(Held)
    case ReleaseBare(id) => id in s.entries && s.entries[id].Bare? && !s.entries[id].stage.Released?
    case Shutdown => true
  }

  function Put(s: Store, id: nat, entry: Entry): Store
  {
    s.(entries := s.entries[id := entry])
  }

  function Go(s: Store, id: nat, phase: Phase): Store
    requires id in s.entries && s.entries[id].Beginning?
  {
    Put(s, id, s.entries[id].(phase := phase))
  }

  /** What a successful call hands out. */
  function Opened(e: Entry): Entry
    requires e.Beginning?
  {
    if e.wrapped then Open(CP.Fresh(e.write)) else Bare(Held)
  }

  function Next(s: Store, e: Event): Store
  {
    if !Enabled(s, e) then s else
    match e
    case Begin(id, write, wrapped) => Put(s, id, Beginning(write, wrapped, AtBarrier, 0))
    case PassBarrier(id) => if s.shuttingDown then Put(s, id, Refused) else Go(s, id, AtLoop)
    case Recheck(id) =>
      if s.shuttingDown then Put(s, id, Refused)
      else Put(s, id, s.entries[id].(phase := Connecting, attempt := s.entries[id].attempt + 1))
    case Attempted(id, outcome) =>
      if outcome.Connects? then Go(s, id, Connected)
      else if outcome.Transient? && s.entries[id].attempt <= BR.MAX_RETRIES then Go(s, id, Sleeping)
      else Put(s, id, Refused)
    case Wake(id) => Go(s, id, AtLoop)
    case DropCall(id) => Put(s, id, GivenUp)
    case CountStarted(id) => Go(s, id, Counted).(started := s.started + 1)
    case CountActive(id) => Put(s, id, Opened(s.entries[id])).(active := s.active + 1)
    case Use(id, action) =>
      var (tx, effect) := CP.Next(s.entries[id].tx, action);
      Put(s, id, Open(tx)).(
        committed := s.committed + effect.committed,
        rolledBack := s.rolledBack + effect.rolledBack,
        active := s.active - effect.released)
    case EndBare(id) => Put(s, id, Bare(Ending))
    case ReleaseBare(id) => Put(s, id, Bare(Released)).(active := s.active - 1)
    case Shutdown => s.(shuttingDown := true)
  }

  function Run(s: Store, events: seq<Event>): Store
    decreases |events|
  {
    if events == [] then s else Run(Next(s, events[0]), events[1..])
  }

  // ---- what each entry contributes -----------------------------------------------------------

  datatype Fact =
    | Started
    | Committed
    | RolledBack
    | Lost        // its commit or cancel future was dropped while awaiting the server
    | Unwrapped   // handed out by `begin` itself: no result counter ever hears of it
    | Unsettled   // started and none of the four above
    | Active      // holds a connection that `tx_active` counts
    | InFlight    // read the barrier as open and its attempt is not decided yet

  predicate Is(f: Fact, e: Entry)
  {
    match f
    case Started => e.Open? || e.Bare? || (e.Beginning? && e.phase.Counted?)
    case Committed => e.Open? && CR.IsCommitted(e.tx)
    case RolledBack => e.Open? && CR.IsRolledBack(e.tx)
    case Lost => e.Open? && CR.IsLost(e.tx)
    case Unwrapped => e.Bare?
    case Unsettled =>
      (e.Open? && !CR.IsCommitted(e.tx) && !CR.IsRolledBack(e.tx) && !CR.IsLost(e.tx))
          || (e.Beginning? && e.phase.Counted?)
    case Active => (e.Open? && CR.HoldsConnection(e.tx)) || (e.Bare? && !e.stage.Released?)
    case InFlight => e.Beginning? && (e.phase.Connecting? || e.phase.Connected?)
  }

  function Where(s: Store, f: Fact): set<nat>
  {
    set id | id in s.entries && Is(f, s.entries[id])
  }

  ghost predicate Valid(e: Entry)
  {
    && (e.Beginning? ==> e.attempt <= BR.MAX_RETRIES + 1)
    && (e.Beginning? && !InLoop(e.phase) ==> e.attempt <= BR.MAX_RETRIES)
    && (e.Open? ==> CP.Inv(e.tx))
  }

  predicate InLoop(phase: Phase)
  {
    phase.Connecting? || phase.Connected? || phase.Counted?
  }

  ghost predicate Inv(s: Store)
  {
    && (forall id | id in s.entries :: Valid(s.entries[id]))
    && s.started == |Where(s, Started)|
    && s.committed == |Where(s, Committed)|
    && s.rolledBack == |Where(s, RolledBack)|
    && s.active == |Where(s, Active)|
  }

  function Bit(b: bool): nat
  {
    if b then 1 else 0
  }

  predicate Had(s: Store, id: nat, f: Fact)
  {
    id in s.entries && Is(f, s.entries[id])
  }

  lemma CardAfterChange(a: set<nat>, b: set<nat>, id: nat)
    requires forall x: nat | x != id :: x in a <==> x in b
    ensures |b| == |a| - Bit(id in a) + Bit(id in b)
  {
    var rest := a - {id};
    assert rest == b - {id};
    assert a == rest + (if id in a then {id} else {});
    assert b == rest + (if id in b then {id} else {});
  }

  /** Changing one entry changes a count by that entry's own contribution. */
  lemma CountAfterPut(s: Store, s': Store, id: nat, f: Fact)
    requires id in s'.entries && s'.entries == s.entries[id := s'.entries[id]]
    ensures |Where(s', f)| == |Where(s, f)| - Bit(Had(s, id, f)) + Bit(Is(f, s'.entries[id]))
  {
    CardAfterChange(Where(s, f), Where(s', f), id);
  }

  predicate CountsFollow(s: Store, s': Store, id: nat)
  {
    && id in s'.entries
    && s'.entries == s.entries[id := s'.entries[id]]
    && s'.started == s.started - Bit(Had(s, id, Started)) + Bit(Is(Started, s'.entries[id]))
    && s'.committed == s.committed - Bit(Had(s, id, Committed)) + Bit(Is(Committed, s'.entries[id]))
    && s'.rolledBack == s.rolledBack - Bit(Had(s, id, RolledBack)) + Bit(Is(RolledBack, s'.entries[id]))
    && s'.active == s.active - Bit(Had(s, id, Active)) + Bit(Is(Active, s'.entries[id]))
  }

  /** A call that has not opened anything contributes nothing but, once counted, its start. */
  lemma BeginningContributes(e: Entry)
    requires !e.Open? && !e.Bare?
    ensures !Is(Committed, e) && !Is(RolledBack, e) && !Is(Active, e)
    ensures Is(Started, e) <==> e.Beginning? && e.phase.Counted?
  {
  }

  lemma OpenedContributes(e: Entry)
    requires e.Beginning?
    ensures Valid(Opened(e)) && Is(Started, Opened(e)) && Is(Active, Opened(e))
    ensures !Is(Committed, Opened(e)) && !Is(RolledBack, Opened(e))
  {
    CP.FreshInv(e.write);
  }

  predicate SameCounters(s: Store, s': Store)
  {
    s'.started == s.started && s'.committed == s.committed && s'.rolledBack == s.rolledBack && s'.active == s.active
  }

  /** An entry that neither starts nor settles anything. */
  predicate Quiet(e: Entry)
  {
    !e.Open? && !e.Bare? && (e.Beginning? ==> !e.phase.Counted?)
  }

  lemma QuietChange(s: Store, s': Store, id: nat)
    requires SameCounters(s, s') && id in s'.entries && s'.entries == s.entries[id := s'.entries[id]]
    requires Quiet(s'.entries[id]) && (id in s.entries ==> Quiet(s.entries[id]))
    ensures CountsFollow(s, s', id)
  {
    BeginningContributes(s'.entries[id]);
    if id in s.entries {
      BeginningContributes(s.entries[id]);
    }
  }

  predicate BeforeCounting(e: Event)
  {
    e.Begin? || e.PassBarrier? || e.Recheck? || e.Attempted? || e.Wake? || e.DropCall?
  }

  lemma QuietStep(s: Store, e: Event)
    requires Enabled(s, e) && BeforeCounting(e) && (e.id in s.entries ==> Valid(s.entries[e.id]))
    ensures var s' := Next(s, e);
            && SameCounters(s, s') && e.id in s'.entries && s'.entries == s.entries[e.id := s'.entries[e.id]]
            && Quiet(s'.entries[e.id]) && (e.id in s.entries ==> Quiet(s.entries[e.id]))
            && Valid(s'.entries[e.id])
  {
  }

  /** Until a call has connected nothing is counted. */
  lemma UncountedStep(s: Store, e: Event)
    requires Inv(s) && Enabled(s, e) && BeforeCounting(e)
    ensures CountsFollow(s, Next(s, e), e.id) && Valid(Next(s, e).entries[e.id])
  {
    QuietStep(s, e);
    QuietChange(s, Next(s, e), e.id);
  }

  lemma CountingStep(s: Store, e: Event)
    requires Inv(s) && Enabled(s, e) && (e.CountStarted? || e.CountActive?)
    ensures CountsFollow(s, Next(s, e), e.id) && Valid(Next(s, e).entries[e.id])
  {
    var entry := s.entries[e.id];
    assert Valid(entry);
    BeginningContributes(entry);
    if e.CountActive? {
      OpenedContributes(entry);
    } else {
      BeginningContributes(Next(s, e).entries[e.id]);
    }
  }

  lemma UseCounts(s: Store, s': Store, id: nat, tx: CP.TxState, tx': CP.TxState, effect: CP.Effect)
    requires CP.Inv(tx) && CP.Inv(tx') && CR.Accounted(tx, tx', effect)
    requires id in s.entries && s.entries[id] == Open(tx) && s'.entries == s.entries[id := Open(tx')]
    requires s'.started == s.started && s'.committed == s.committed + effect.committed
    requires s'.rolledBack == s.rolledBack + effect.rolledBack && s'.active == s.active - effect.released
    ensures CountsFollow(s, s', id)
  {
    CR.ReleasedExactlyWithoutConnection(tx);
    CR.ReleasedExactlyWithoutConnection(tx');
  }

  lemma UseStep(s: Store, id: nat, action: CP.Action)
    requires Inv(s) && IsOpen(s, id)
    ensures var s' := Next(s, Use(id, action));
            CountsFollow(s, s', id) && Valid(s'.entries[id])
  {
    var tx := s.entries[id].tx;
    assert Valid(s.entries[id]);
    OneUse(tx, action);
    UseShape(s, id, action);
    UseCounts(s, Next(s, Use(id, action)), id, tx, CP.Next(tx, action).0, CP.Next(tx, action).1);
  }

  lemma UseShape(s: Store, id: nat, action: CP.Action)
    requires IsOpen(s, id)
    ensures var (tx', effect) := CP.Next(s.entries[id].tx, action);
            Next(s, Use(id, action)) == Store(s.shuttingDown, s.started, s.committed + effect.committed,
              s.rolledBack + effect.rolledBack, s.active - effect.released, s.entries[id := Open(tx')])
  {
  }

  lemma OneUse(tx: CP.TxState, action: CP.Action)
    requires CP.Inv(tx)
    ensures var (tx', effect) := CP.Next(tx, action);
            CP.Inv(tx') && CR.Accounted(tx, tx', effect)
  {
    CP.StepInv(tx, action);
    CR.CountedExactlyOnce(tx, action);
  }

  lemma BareStep(s: Store, e: Event)
    requires Inv(s) && Enabled(s, e) && (e.EndBare? || e.ReleaseBare?)
    ensures CountsFollow(s, Next(s, e), e.id) && Valid(Next(s, e).entries[e.id])
  {
    var s' := Next(s, e);
    BareContributes(s.entries[e.id]);
    BareContributes(s'.entries[e.id]);
    assert s' == s.(entries := s'.entries, active := s'.active);
    assert s'.entries == s.entries[e.id := s'.entries[e.id]];
  }

  lemma BareContributes(e: Entry)
    requires e.Bare?
    ensures Is(Started, e) && !Is(Committed, e) && !Is(RolledBack, e) && (Is(Active, e) <==> !e.stage.Released?)
  {
  }

  lemma StepInv(s: Store, e: Event)
    requires Inv(s)
    ensures Inv(Next(s, e))
  {
    var s' := Next(s, e);
    if Enabled(s, e) && e.Shutdown? {
      assert forall f :: Where(s, f) == Where(s', f);
    } else if Enabled(s, e) {
      if e.Use? {
        UseStep(s, e.id, e.action);
      } else if e.CountStarted? || e.CountActive? {
        CountingStep(s, e);
      } else if e.EndBare? || e.ReleaseBare? {
        BareStep(s, e);
      } else {
        UncountedStep(s, e);
      }
      CountAfterPut(s, s', e.id, Started);
      CountAfterPut(s, s', e.id, Committed);
      CountAfterPut(s, s', e.id, RolledBack);
      CountAfterPut(s, s', e.id, Active);
    }
  }

  lemma {:induction false} RunInv(s: Store, events: seq<Event>)
    requires Inv(s)
    ensures Inv(Run(s, events))
    decreases |events|
  {
    if events != [] {
      StepInv(s, events[0]);
      RunInv(Next(s, events[0]), events[1..]);
    }
  }

  // ---- conservation ----------------------------------------------------------------------------

  /** At every moment of every run: each started transaction is counted in exactly one place,
      and `tx_active` is the number of transactions that still hold a connection. */
  lemma Conservation(events: seq<Event>)
    ensures var s := Run(EMPTY_STORE, events);
            && s.started == s.committed + s.rolledBack + |Where(s, Lost)| + |Where(s, Unwrapped)|
                + |Where(s, Unsettled)|
            && s.active == |Where(s, Active)|
            && 0 <= s.active <= s.started
  {
    RunInv(EMPTY_STORE, events);
    var s := Run(EMPTY_STORE, events);
    Partition(s);
    SubsetCard(Where(s, Active), Where(s, Started));
  }

  lemma Partition(s: Store)
    ensures |Where(s, Started)|
         == |Where(s, Committed)| + |Where(s, RolledBack)| + |Where(s, Lost)| + |Where(s, Unwrapped)|
             + |Where(s, Unsettled)|
  {
    var started, counted := Where(s, Started), Where(s, Committed) + Where(s, RolledBack);
    var uncounted := Where(s, Lost) + Where(s, Unwrapped);
    forall id: nat
      ensures Bit(id in started) == Bit(id in counted) + Bit(id in uncounted + Where(s, Unsettled))
      ensures Bit(id in counted) == Bit(id in Where(s, Committed)) + Bit(id in Where(s, RolledBack))
      ensures Bit(id in uncounted + Where(s, Unsettled)) == Bit(id in uncounted) + Bit(id in Where(s, Unsettled))
      ensures Bit(id in uncounted) == Bit(id in Where(s, Lost)) + Bit(id in Where(s, Unwrapped))
    {
      FateOf(s, id);
    }
    TwoWay(counted, Where(s, Committed), Where(s, RolledBack));
    TwoWay(uncounted, Where(s, Lost), Where(s, Unwrapped));
    TwoWay(uncounted + Where(s, Unsettled), uncounted, Where(s, Unsettled));
    TwoWay(started, counted, uncounted + Where(s, Unsettled));
  }

  lemma FateOf(s: Store, id: nat)
    ensures Bit(id in Where(s, Started))
         == Bit(id in Where(s, Committed)) + Bit(id in Where(s, RolledBack)) + Bit(id in Where(s, Lost))
          + Bit(id in Where(s, Unwrapped)) + Bit(id in Where(s, Unsettled))
  {
    if id in s.entries {
      ExactlyOneFate(s.entries[id]);
    }
  }

  /** Disjoint union of two, from what the elements add up to. */
  lemma TwoWay(a: set<nat>, c: set<nat>, d: set<nat>)
    requires forall id: nat :: Bit(id in a) == Bit(id in c) + Bit(id in d)
    ensures |a| == |c| + |d|
  {
    assert a == c + d && c !! d by {
      forall id: nat ensures (id in a <==> id in c + d) && !(id in c && id in d) {
        assert Bit(id in a) == Bit(id in c) + Bit(id in d);
      }
    }
  }

  /** A started transaction has exactly one of the five fates, any other entry none. */
  lemma ExactlyOneFate(e: Entry)
    ensures Bit(Is(Started, e)) == Bit(Is(Committed, e)) + Bit(Is(RolledBack, e)) + Bit(Is(Lost, e))
            + Bit(Is(Unwrapped, e)) + Bit(Is(Unsettled, e))
  {
  }

  lemma SubsetCard(a: set<nat>, b: set<nat>)
    requires a <= b
    ensures |a| <= |b|
  {
    assert b == a + (b - a);
  }

  /** The counter never goes below zero: whatever step comes next, it takes at most one off
      `tx_active` and leaves no less than zero. */
  lemma NeverUnderflows(events: seq<Event>, e: Event)
    ensures var s := Run(EMPTY_STORE, events);
            s.active - 1 <= Next(s, e).active && 0 <= Next(s, e).active
  {
    RunInv(EMPTY_STORE, events);
    var s := Run(EMPTY_STORE, events);
    StepInv(s, e);
    if Enabled(s, e) && e.Use? {
      assert Valid(s.entries[e.id]);
      CR.CountedExactlyOnce(s.entries[e.id].tx, e.action);
    }
  }

  /** Every call has returned or been given up, and every transaction has been dropped. */
  predicate Quiescent(s: Store)
  {
    forall id | id in s.entries :: AtRest(s.entries[id])
  }

  predicate AtRest(e: Entry)
  {
    e.Refused? || e.GivenUp? || (e.Open? && e.tx.life.Dropped?) || e == Bare(Released)
  }

  /** The documented identity `tx_started = tx_committed + tx_rolled_back` holds at quiescence
      exactly when every transaction was opened through `new_transaction` and no commit or
      cancel future was dropped while awaiting the server's answer; `tx_active` is back to zero
      either way. */
  lemma MetricIdentity(events: seq<Event>)
    requires Quiescent(Run(EMPTY_STORE, events))
    ensures var s := Run(EMPTY_STORE, events);
            && (s.started == s.committed + s.rolledBack <==>
                  forall id | id in s.entries :: !Is(Lost, s.entries[id]) && !Is(Unwrapped, s.entries[id]))
            && s.active == 0
  {
    RunInv(EMPTY_STORE, events);
    var s := Run(EMPTY_STORE, events);
    Partition(s);
    forall id | id in s.entries ensures !Is(Unsettled, s.entries[id]) && !Is(Active, s.entries[id]) {
      assert Valid(s.entries[id]);
      SettledEntry(s.entries[id]);
    }
    assert Where(s, Unsettled) == {} && Where(s, Active) == {};
    Nowhere(s, Lost);
    Nowhere(s, Unwrapped);
  }

  // ---- what a call hands out -----------------------------------------------------------------

  /** The entry goes back to a call made with these two flags. */
  predicate FromCall(e: Entry, write: bool, wrapped: bool)
  {
    match e
    case Beginning(w, r, _, _) => w == write && r == wrapped
    case Open(tx) => tx.write == write && wrapped
    case Bare(_) => !wrapped
    case _ => true
  }

  lemma WriteStays(tx: CP.TxState, action: CP.Action)
    ensures CP.Next(tx, action).0.write == tx.write
  {
  }

  lemma StepFromCall(s: Store, e: Event, id: nat, write: bool, wrapped: bool)
    requires id in s.entries && FromCall(s.entries[id], write, wrapped)
    ensures id in Next(s, e).entries && FromCall(Next(s, e).entries[id], write, wrapped)
  {
    if e.Use? && IsOpen(s, e.id) {
      WriteStays(s.entries[e.id].tx, e.action);
    }
  }

  lemma {:induction false} RunFromCall(s: Store, events: seq<Event>, id: nat, write: bool, wrapped: bool)
    requires id in s.entries && FromCall(s.entries[id], write, wrapped)
    ensures id in Run(s, events).entries && FromCall(Run(s, events).entries[id], write, wrapped)
    decreases |events|
  {
    if events != [] {
      StepFromCall(s, events[0], id, write, wrapped);
      RunFromCall(Next(s, events[0]), events[1..], id, write, wrapped);
    }
  }

  predicate Begins(e: Event, id: nat)
  {
    e.Begin? && e.id == id
  }

  lemma {:induction false} CameFromFirst(s: Store, events: seq<Event>, id: nat) returns (n: nat)
    requires id !in s.entries && id in Run(s, events).entries
    ensures n < |events| && Begins(events[n], id) && forall i | 0 <= i < n :: !Begins(events[i], id)
    ensures FromCall(Run(s, events).entries[id], events[n].write, events[n].wrapped)
    decreases |events|
  {
    if Begins(events[0], id) {
      RunFromCall(Next(s, events[0]), events[1..], id, events[0].write, events[0].wrapped);
      return 0;
    }
    assert id !in Next(s, events[0]).entries;
    n := CameFromFirst(Next(s, events[0]), events[1..], id);
    forall i | 0 <= i < n + 1 ensures !Begins(events[i], id) {
      assert i > 0 ==> events[i] == events[1..][i - 1];
    }
    n := n + 1;
  }

  /** What the call `id` hands out is what the first `begin` under that name asked for: a `PgTx`
      that may write exactly if the call said so, for `new_transaction`, and a bare transaction
      for `begin` itself. */
  lemma OpenedAsBegun(events: seq<Event>, id: nat) returns (n: nat)
    requires id in Run(EMPTY_STORE, events).entries
    ensures n < |events| && forall i | 0 <= i < n :: !(events[i].Begin? && events[i].id == id)
    ensures match Run(EMPTY_STORE, events).entries[id]
            case Open(tx) => events[n] == Begin(id, tx.write, true)
            case Bare(_) => events[n].Begin? && events[n] == Begin(id, events[n].write, false)
            case _ => events[n].Begin? && events[n].id == id
  {
    n := CameFromFirst(EMPTY_STORE, events, id);
    forall i | 0 <= i < n ensures !(events[i].Begin? && events[i].id == id) {
      assert !Begins(events[i], id);
    }
  }

  // ---- runs on which the identity fails ------------------------------------------------------

  lemma {:induction false} RunConcat(s: Store, a: seq<Event>, b: seq<Event>)
    ensures Run(s, a + b) == Run(Run(s, a), b)
    decreases |a|
  {
    if a == [] {
      assert a + b == b;
    } else {
      assert (a + b)[1..] == a[1..] + b;
      RunConcat(Next(s, a[0]), a[1..], b);
    }
  }

  /** One call that connects at once. */
  function Opening(wrapped: bool): seq<Event>
  {
    [Begin(0, true, wrapped), PassBarrier(0), Recheck(0), Attempted(0, BR.Connects), CountStarted(0), CountActive(0)]
  }

  /** What that call's entry is after each of its events. */
  function OpeningEntry(wrapped: bool, n: nat): Entry
    requires 1 <= n <= 6
  {
    if n == 1 then Beginning(true, wrapped, AtBarrier, 0)
    else if n == 2 then Beginning(true, wrapped, AtLoop, 0)
    else if n == 3 then Beginning(true, wrapped, Connecting, 1)
    else if n == 4 then Beginning(true, wrapped, Connected, 1)
    else if n == 5 then Beginning(true, wrapped, Counted, 1)
    else Opened(Beginning(true, wrapped, Counted, 1))
  }

  lemma {:induction false} OpeningRuns(wrapped: bool, n: nat)
    requires 1 <= n <= 6
    ensures var s := Run(EMPTY_STORE, Opening(wrapped)[..n]);
            s.entries == map[0 := OpeningEntry(wrapped, n)] && !s.shuttingDown
  {
    var events := Opening(wrapped);
    assert events[..n] == events[..n - 1] + [events[n - 1]];
    RunConcat(EMPTY_STORE, events[..n - 1], [events[n - 1]]);
    var before := Run(EMPTY_STORE, events[..n - 1]);
    assert Run(before, [events[n - 1]]) == Next(before, events[n - 1]) by {
      assert [events[n - 1]][1..] == [];
    }
    if n == 1 {
      assert events[..0] == [];
    } else {
      OpeningRuns(wrapped, n - 1);
    }
    assert before.entries[0 := OpeningEntry(wrapped, n)] == map[0 := OpeningEntry(wrapped, n)];
  }

  /** A transaction that a direct caller of `begin` uses and ends: counted as started, and by no
      result counter. */
  lemma BareTransactionBreaksIdentity()
    ensures var s := Run(EMPTY_STORE, Opening(false) + [EndBare(0), ReleaseBare(0)]);
            Quiescent(s) && s.started != s.committed + s.rolledBack
  {
    var events := Opening(false) + [EndBare(0), ReleaseBare(0)];
    OpeningRuns(false, 6);
    assert Opening(false)[..6] == Opening(false);
    RunConcat(EMPTY_STORE, Opening(false), [EndBare(0), ReleaseBare(0)]);
    var s6 := Run(EMPTY_STORE, Opening(false));
    var s7 := Next(s6, EndBare(0));
    var s8 := Next(s7, ReleaseBare(0));
    assert [EndBare(0), ReleaseBare(0)][1..] == [ReleaseBare(0)] && [ReleaseBare(0)][1..] == [];
    assert Run(s7, [ReleaseBare(0)]) == Run(s8, []) == s8;
    assert Run(s6, [EndBare(0), ReleaseBare(0)]) == Run(s7, [ReleaseBare(0)]);
    assert s8.entries == map[0 := Bare(Released)];
    assert Is(Unwrapped, s8.entries[0]);
    MetricIdentity(events);
  }

  function Uses(id: nat, actions: seq<CP.Action>): seq<Event>
  {
    if actions == [] then [] else [Use(id, actions[0])] + Uses(id, actions[1..])
  }

  /** The users of one transaction run its close protocol and touch no other entry. */
  lemma {:induction false} UseRuns(s: Store, id: nat, actions: seq<CP.Action>)
    requires IsOpen(s, id)
    ensures Run(s, Uses(id, actions)).entries == s.entries[id := Open(CR.RunAll(s.entries[id].tx, actions))]
    decreases |actions|
  {
    if actions != [] {
      var s1 := Next(s, Use(id, actions[0]));
      assert Uses(id, actions)[1..] == Uses(id, actions[1..]);
      UseRuns(s1, id, actions[1..]);
    }
  }

  lemma OpeningDone(wrapped: bool)
    ensures Run(EMPTY_STORE, Opening(wrapped)).entries == map[0 := OpeningEntry(wrapped, 6)]
  {
    OpeningRuns(wrapped, 6);
    assert Opening(wrapped)[..6] == Opening(wrapped);
  }

  lemma OneEntry(entries: map<nat, Entry>, was: Entry, now: Entry)
    requires entries == map[0 := was]
    ensures entries[0 := now] == map[0 := now]
  {
  }

  lemma OpenedThenUsed(actions: seq<CP.Action>)
    ensures Run(EMPTY_STORE, Opening(true) + Uses(0, actions)).entries
         == map[0 := Open(CR.RunAll(CP.Fresh(true), actions))]
  {
    OpeningDone(true);
    var s := Run(EMPTY_STORE, Opening(true));
    RunConcat(EMPTY_STORE, Opening(true), Uses(0, actions));
    UseRuns(s, 0, actions);
    OneEntry(s.entries, Open(CP.Fresh(true)), Open(CR.RunAll(CP.Fresh(true), actions)));
  }

  lemma LostBreaks(events: seq<Event>, tx: CP.TxState)
    requires Run(EMPTY_STORE, events).entries == map[0 := Open(tx)] && CR.IsLost(tx) && tx.life.Dropped?
    ensures var s := Run(EMPTY_STORE, events);
            Quiescent(s) && s.started != s.committed + s.rolledBack
  {
    assert Is(Lost, Run(EMPTY_STORE, events).entries[0]);
    MetricIdentity(events);
  }

  /** A commit whose future is dropped while it awaits the answer: likewise. */
  lemma LostCommitBreaksIdentity()
    ensures var s := Run(EMPTY_STORE, Opening(true) + Uses(0, CR.LOST_COMMIT));
            Quiescent(s) && s.started != s.committed + s.rolledBack
  {
    var actions := CR.LOST_COMMIT;
    OpenedThenUsed(actions);
    CR.LostCommit(true);
    LostBreaks(Opening(true) + Uses(0, actions), CR.RunAll(CP.Fresh(true), actions));
  }

  lemma Nowhere(s: Store, f: Fact)
    ensures |Where(s, f)| == 0 <==> forall id | id in s.entries :: !Is(f, s.entries[id])
  {
    if |Where(s, f)| != 0 {
      var id :| id in Where(s, f);
      assert Is(f, s.entries[id]);
    } else {
      forall id | id in s.entries ensures !Is(f, s.entries[id]) {
        assert id !in Where(s, f);
      }
    }
  }

  lemma SettledEntry(e: Entry)
    requires Valid(e) && AtRest(e)
    ensures !Is(Unsettled, e) && !Is(Active, e)
  {
    if e.Open? {
      CR.DroppedMeansSettled(e.tx);
      CR.ReleasedExactlyWithoutConnection(e.tx);
    }
  }

  // ---- shutdown --------------------------------------------------------------------------------

  /** From `s` to `s'`: no attempt joins those in flight, and whatever starts leaves them. */
  predicate OnlyDrains(s: Store, s': Store)
  {
    && s'.shuttingDown
    && Where(s', InFlight) <= Where(s, InFlight)
    && Where(s, Started) <= Where(s', Started)
    && Where(s', Started) - Where(s, Started) <= Where(s, InFlight) - Where(s', InFlight)
  }

  lemma ShutdownStep(s: Store, e: Event)
    requires s.shuttingDown
    ensures OnlyDrains(s, Next(s, e))
  {
    var s' := Next(s, e);
    if Enabled(s, e) && !e.Shutdown? {
      assert s'.entries == s.entries[e.id := s'.entries[e.id]];
      assert Is(InFlight, s'.entries[e.id]) ==> Had(s, e.id, InFlight);
      assert Had(s, e.id, Started) ==> Is(Started, s'.entries[e.id]);
      assert Is(Started, s'.entries[e.id]) && !Had(s, e.id, Started) ==>
          Had(s, e.id, InFlight) && !Is(InFlight, s'.entries[e.id]);
    }
  }

  lemma DrainTwice(s: Store, s1: Store, s2: Store)
    requires OnlyDrains(s, s1) && OnlyDrains(s1, s2)
    ensures OnlyDrains(s, s2)
  {
    forall id | id in Where(s2, Started) - Where(s, Started)
      ensures id in Where(s, InFlight) - Where(s2, InFlight)
    {
      if id in Where(s1, Started) {
        assert id in Where(s1, Started) - Where(s, Started);
      } else {
        assert id in Where(s2, Started) - Where(s1, Started);
      }
    }
  }

  lemma {:induction false} BarrierDrains(s: Store, events: seq<Event>)
    requires s.shuttingDown
    ensures OnlyDrains(s, Run(s, events))
    decreases |events|
  {
    if events != [] {
      ShutdownStep(s, events[0]);
      BarrierDrains(Next(s, events[0]), events[1..]);
      DrainTwice(s, Next(s, events[0]), Run(s, events));
    }
  }

  /** Once `shutting_down` is set, on every later run: the set of attempts in flight never
      grows, every transaction started later comes out of that set, each uses up its own place
      in it, and so at most as many start as were in flight at that moment. */
  lemma BarrierHolds(before: seq<Event>, after: seq<Event>)
    requires Run(EMPTY_STORE, before).shuttingDown
    ensures var s := Run(EMPTY_STORE, before);
            var s' := Run(s, after);
            OnlyDrains(s, s') && s.started <= s'.started <= s.started + |Where(s, InFlight)|
  {
    var s := Run(EMPTY_STORE, before);
    var s' := Run(s, after);
    BarrierDrains(s, after);
    RunInv(EMPTY_STORE, before);
    RunInv(s, after);
    DrainCounts(s, s');
  }

  lemma DrainCounts(s: Store, s': Store)
    requires OnlyDrains(s, s')
    ensures |Where(s, Started)| <= |Where(s', Started)| <= |Where(s, Started)| + |Where(s, InFlight)|
  {
    SubsetCard(Where(s, Started), Where(s', Started));
    assert Where(s', Started) == Where(s, Started) + (Where(s', Started) - Where(s, Started));
    SubsetCard(Where(s', Started) - Where(s, Started), Where(s, InFlight));
  }

  /** Not in flight and not started: it has read no open barrier that it could still act on. */
  predicate Stopped(s: Store, id: nat)
  {
    id in s.entries ==> !Is(InFlight, s.entries[id]) && !Is(Started, s.entries[id])
  }

  /** Once `shutting_down` is set, a call that is not in flight, not yet made or between two
      attempts included, never starts a transaction, in any later run, and nothing that it still
      does is counted. */
  lemma LateCallsNeverStart(s: Store, events: seq<Event>, id: nat)
    requires s.shuttingDown && Stopped(s, id)
    ensures Stopped(Run(s, events), id)
    ensures forall e: Event | !e.Shutdown? && e.id == id :: SameCounters(Run(s, events), Next(Run(s, events), e))
    ensures forall e: Event | (e.PassBarrier? || e.Recheck?) && e.id == id && Enabled(Run(s, events), e) ::
              Next(Run(s, events), e).entries[id] == Refused
  {
    BarrierDrains(s, events);
    StoppedMeans(s, id);
    StoppedMeans(Run(s, events), id);
    assert id !in Where(Run(s, events), Started) - Where(s, Started);
  }

  lemma StoppedMeans(s: Store, id: nat)
    ensures Stopped(s, id) <==> id !in Where(s, InFlight) && id !in Where(s, Started)
  {
  }
}
