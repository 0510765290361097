/** The direct-mode heartbeat task (src/store.rs:1521-1658): probe, reconnect, back off, stop. */
module Heartbeat {
  import opened Decimal

  /** `AtHead`: sleeping at the loop head. `PastCheck`: the cancellation flag was read as clear
      and this round's I/O is still to be issued. */
  datatype Point = AtHead | Checking | PastCheck | Connecting | BackingOff(secs: nat) | Probing | Stopped

  datatype Event =
    | Cancel                // somebody cancels the token
    | Observe               // a select! takes its cancellation branch
    | Elapse                // a sleep is over, or the task simply goes on
    | Result(ok: bool)      // the awaited connect or SELECT 1 is decided

  /** `connects` and `probes` count the I/O issued so far. */
  datatype Beat = Beat(point: Point, held: bool, failures: nat, cancelled: bool, connects: nat, probes: nat)

  const START := Beat(AtHead, false, 0, false, 0, 0)

  const MAX_BACKOFF_SECS: nat := 300

  function Saturate(n: nat): nat
  {
    if n < U64_LIMIT then n else U64_LIMIT - 1
  }

  /** Seconds to wait after the `n`-th connect failure in a row. */
  function Backoff(n: nat): nat
  {
    var secs := Saturate(Saturate(n * n) * 5);
    if secs < MAX_BACKOFF_SECS then secs else MAX_BACKOFF_SECS
  }

  function Fail(failures: nat): nat
  {
    (failures + 1) % U32_LIMIT
  }

  /** The connection is taken out of its slot while SELECT 1 runs on it. */
  function Probe(b: Beat): Beat
  {
    b.(point := Probing, held := false, probes := b.probes + 1)
  }

  /** One step; an event that cannot happen at this point changes nothing. */
  function Next(b: Beat, e: Event): Beat
  {
    if e.Cancel? then b.(cancelled := true) else
    match b.point
    case AtHead =>
      if e.Observe? && b.cancelled then b.(point := Stopped) else if e.Elapse? then b.(point := Checking) else b
    case Checking =>
      if !e.Elapse? then b else b.(point := if b.cancelled then Stopped else PastCheck)
    case PastCheck =>
      if !e.Elapse? then b
      else if b.held then Probe(b)
      else b.(point := Connecting, connects := b.connects + 1)
    case Connecting =>
      if e.Observe? && b.cancelled then b.(point := Stopped)
      else if !e.Result? then b
      else if e.ok then Probe(b.(failures := 0))
      else b.(point := BackingOff(Backoff(Fail(b.failures))), failures := Fail(b.failures))
    case BackingOff(_) =>
      if e.Observe? && b.cancelled then b.(point := Stopped) else if e.Elapse? then b.(point := AtHead) else b
    case Probing =>
      if e.Observe? && b.cancelled then b.(point := Stopped)
      else if !e.Result? then b
      else if e.ok then b.(point := AtHead, held := true, failures := 0)
      else b.(point := AtHead, failures := Fail(b.failures))
    case Stopped => b
  }

  function Run(b: Beat, events: seq<Event>): Beat
    decreases |events|
  {
    if events == [] then b else Run(Next(b, events[0]), events[1..])
  }

  /** The task's local variables. */
  class Task {
    var point: Point
    var held: bool
    var consecutiveFailures: nat
    var cancelled: bool
    ghost var connects: nat
    ghost var probes: nat

    ghost function Abs(): Beat
      reads this
    {
      Beat(point, held, consecutiveFailures, cancelled, connects, probes)
    }

    constructor ()
      ensures Abs() == START
    {
      point, held, consecutiveFailures, cancelled := AtHead, false, 0, false;
      connects, probes := 0, 0;
    }

    method Drive(events: seq<Event>)
      modifies this
      ensures Abs() == Run(old(Abs()), events)
    {
      for i := 0 to |events|
        invariant Run(Abs(), events[i..]) == Run(old(Abs()), events)
      {
        assert events[i..][1..] == events[i + 1..];
        if events[i].Cancel? {
          cancelled := true;
        } else if cancelled && events[i].Observe?
            && (point.AtHead? || point.Connecting? || point.BackingOff? || point.Probing?) {
          point := Stopped;
        } else if events[i].Elapse? {
          Proceed();
        } else if events[i].Result? {
          Decide(events[i].ok);
        }
      }
    }

    method Proceed()
      modifies this
      ensures Abs() == Next(old(Abs()), Elapse)
    {
      match point
      case AtHead => point := Checking;
      case Checking => point := if cancelled then Stopped else PastCheck;
      case PastCheck =>
        if held {
          held := false;
          point, probes := Probing, probes + 1;
        } else {
          point, connects := Connecting, connects + 1;
        }
      case BackingOff(_) => point := AtHead;
      case _ =>
    }

    method Decide(ok: bool)
      modifies this
      ensures Abs() == Next(old(Abs()), Result(ok))
    {
      if point.Connecting? {
        if ok {
          consecutiveFailures := 0;
          held := false;
          point, probes := Probing, probes + 1;
        } else {
          consecutiveFailures := (consecutiveFailures + 1) % U32_LIMIT;
          point := BackingOff(Backoff(consecutiveFailures));
        }
      } else if point.Probing? {
        if ok {
          consecutiveFailures, held := 0, true;
        } else {
          consecutiveFailures := (consecutiveFailures + 1) % U32_LIMIT;
        }
        point := AtHead;
      }
    }
  }

  // ---- every run ---------------------------------------------------------------------------

  /** A connection is kept only by a task with a clean record, and never across I/O. */
  predicate Inv(b: Beat)
  {
    && (b.held ==> b.failures == 0)
    && (b.point.Connecting? || b.point.BackingOff? || b.point.Probing? ==> !b.held)
  }

  lemma {:induction false} HeldMeansHealthy(b: Beat, events: seq<Event>)
    requires Inv(b)
    ensures Inv(Run(b, events))
    decreases |events|
  {
    if events != [] {
      HeldMeansHealthy(Next(b, events[0]), events[1..]);
    }
  }

  // ---- rounds --------------------------------------------------------------------------------

  /** Failures since the last success, counted from the answers that came in. */
  function FailuresSince(b: Beat, events: seq<Event>, n: nat): nat
    decreases |events|
  {
    if events == [] then n else
      var awaited := b.point.Connecting? || b.point.Probing?;
      FailuresSince(Next(b, events[0]), events[1..],
                    if !events[0].Result? || !awaited then n else if events[0].ok then 0 else n + 1)
  }

  lemma {:induction false} FailuresCounted(b: Beat, events: seq<Event>, n: nat)
    requires b.failures == n % U32_LIMIT
    ensures Run(b, events).failures == FailuresSince(b, events, n) % U32_LIMIT
    decreases |events|
  {
    if events != [] {
      var awaited := b.point.Connecting? || b.point.Probing?;
      FailuresCounted(Next(b, events[0]), events[1..],
                      if !events[0].Result? || !awaited then n else if events[0].ok then 0 else n + 1);
    }
  }

  /** On every run, a connect that fails, the n-th failure in a row, is followed by a wait of
      min(5 n^2, 300) seconds, n being taken modulo 2^32 as its counter is. */
  lemma FailedConnectWaits(events: seq<Event>)
    requires Run(START, events).point.Connecting?
    ensures var b := Next(Run(START, events), Result(false));
            var n := (FailuresSince(START, events, 0) + 1) % 0x1_0000_0000;
            b.point == BackingOff(if 5 * (n * n) < 300 then 5 * (n * n) else 300)
  {
    FailuresCounted(START, events, 0);
    var before := FailuresSince(START, events, 0);
    FailCounts(before);
    BackoffOf((before + 1) % U32_LIMIT);
  }

  lemma FailCounts(n: nat)
    ensures Fail(n % U32_LIMIT) == (n + 1) % U32_LIMIT
  {
  }

  lemma BackoffOf(n: nat)
    requires n < U32_LIMIT
    ensures Backoff(n) == if 5 * (n * n) < 300 then 5 * (n * n) else 300
  {
    if n > 0 {
      BackoffExact(n);
    }
  }

  /** Until that wait is over nothing is issued, whatever else happens; then the task is back at
      the head of its loop, where it sleeps its interval. */
  lemma {:induction false} NothingIssuedWhileBackingOff(b: Beat, events: seq<Event>)
    requires b.point.BackingOff? && Elapse !in events
    ensures var b' := Run(b, events);
            && (b'.point == b.point || b'.point.Stopped?)
            && b'.connects == b.connects && b'.probes == b.probes
            && (b'.point == b.point ==> Next(b', Elapse).point == AtHead)
    decreases |events|
  {
    if events != [] {
      var b1 := Next(b, events[0]);
      if b1.point.Stopped? {
        StoppedStays(b1, events[1..]);
      } else {
        NothingIssuedWhileBackingOff(b1, events[1..]);
      }
    }
  }

  lemma {:induction false} StoppedStays(b: Beat, events: seq<Event>)
    requires b.point.Stopped?
    ensures var b' := Run(b, events); b'.point.Stopped? && b'.connects == b.connects && b'.probes == b.probes
    decreases |events|
  {
    if events != [] {
      StoppedStays(Next(b, events[0]), events[1..]);
    }
  }

  /** Sleep, look at the cancellation flag, go on. */
  const ROUND := [Elapse, Elapse, Elapse]

  lemma OneRound(b: Beat)
    ensures Run(b, ROUND) == Next(Next(Next(b, Elapse), Elapse), Elapse)
  {
    assert ROUND[1..] == [Elapse, Elapse] && ROUND[1..][1..] == [Elapse] && ROUND[1..][1..][1..] == [];
  }

  /** A SELECT 1 that succeeds keeps the connection: the next round probes it and connects to
      nothing. One that fails drops it: the next round connects. */
  lemma RoundAfterProbe(b: Beat, ok: bool)
    requires b.point.Probing? && !b.cancelled && !b.held
    ensures var b' := Run(Next(b, Result(ok)), ROUND);
            if ok then b' == b.(probes := b.probes + 1, failures := 0)
            else b'.point.Connecting? && b'.connects == b.connects + 1 && b'.probes == b.probes
  {
    OneRound(Next(b, Result(ok)));
  }

  /** A connect that succeeds is probed at once, in the same round. */
  lemma ConnectIsProbed(b: Beat)
    requires b.point.Connecting?
    ensures var b' := Next(b, Result(true));
            b'.point.Probing? && b'.probes == b.probes + 1 && b'.connects == b.connects && b'.failures == 0
  {
  }

  /** At each of its waits a cancelled task can stop at once, and its own check stops it. */
  lemma CancellationIsObserved(b: Beat)
    requires b.cancelled && !b.point.PastCheck?
    ensures Next(b, if b.point.Checking? then Elapse else Observe).point.Stopped?
  {
  }

  /** I/O the task may still issue once the token is cancelled. */
  function ConnectsLeft(b: Beat): nat
  {
    if b.point.PastCheck? && !b.held then 1 else 0
  }

  function ProbesLeft(b: Beat): nat
  {
    if b.point.PastCheck? || b.point.Connecting? then 1 else 0
  }

  /** After cancellation, at most the round already past its check issues I/O: one connect and
      one SELECT 1 at the very most, and none at all from any other point. */
  lemma {:induction false} CancelledIoBounded(b: Beat, events: seq<Event>)
    requires b.cancelled && Inv(b)
    ensures var b' := Run(b, events);
            && b'.connects + ConnectsLeft(b') <= b.connects + ConnectsLeft(b)
            && b'.probes + ProbesLeft(b') <= b.probes + ProbesLeft(b)
    decreases |events|
  {
    if events != [] {
      CancelledIoBounded(Next(b, events[0]), events[1..]);
    }
  }

  /** How many of its own steps a cancelled task can still take. */
  function StepsLeft(b: Beat): nat
  {
    match b.point
    case PastCheck => 5
    case Connecting => 4
    case BackingOff(_) => 3
    case Probing => 3
    case AtHead => 2
    case Checking => 1
    case Stopped => 0
  }

  /** The event is one the task acts on at this point. */
  predicate Acts(b: Beat, e: Event)
  {
    !e.Cancel? && Next(b, e) != b
  }

  function ActionsIn(b: Beat, events: seq<Event>): nat
    decreases |events|
  {
    if events == [] then 0 else (if Acts(b, events[0]) then 1 else 0) + ActionsIn(Next(b, events[0]), events[1..])
  }

  /** A cancelled task stops after at most five more of its own steps. */
  lemma {:induction false} CancelledStops(b: Beat, events: seq<Event>)
    requires b.cancelled
    ensures ActionsIn(b, events) + StepsLeft(Run(b, events)) <= StepsLeft(b)
    ensures ActionsIn(b, events) >= 5 ==> Run(b, events).point.Stopped?
    decreases |events|
  {
    if events != [] {
      CancelledStops(Next(b, events[0]), events[1..]);
    }
  }

  // ---- backoff -----------------------------------------------------------------------------

  /** For every u32 failure count the saturating formula is exactly min(5 n^2, 300), although
      the product may saturate on the way. */
  lemma BackoffExact(n: nat)
    requires 1 <= n < U32_LIMIT
    ensures Backoff(n) == if 5 * (n * n) < 300 then 5 * (n * n) else 300
    ensures 5 <= Backoff(n) <= 300
    ensures Backoff(n) == 300 <==> n >= 8
  {
    SquareBound(n);
    var square := n * n;
    if n >= 8 {
      TimesMonotone(8, n, n);
      assert square >= 64;
    } else {
      TimesMonotone(n, 7, n);
      assert square <= 49;
    }
    assert Saturate(square) == square;
  }

  lemma TimesMonotone(a: nat, b: nat, c: nat)
    requires a <= b
    ensures a * c <= b * c
  {
  }

  lemma SquareBound(n: nat)
    requires 1 <= n < U32_LIMIT
    ensures n <= n * n < U64_LIMIT
  {
    TimesMonotone(1, n, n);
    TimesMonotone(n, U32_LIMIT - 1, n);
    TimesMonotone(n, U32_LIMIT - 1, U32_LIMIT - 1);
  }

  lemma BackoffMonotone(m: nat, n: nat)
    requires 1 <= m <= n < U32_LIMIT
    ensures Backoff(m) <= Backoff(n)
  {
    BackoffExact(m);
    BackoffExact(n);
    TimesMonotone(m, n, m);
    TimesMonotone(m, n, n);
  }
}
