/** The two begin loops of the store (src/store.rs:787-1079): retries, backoff with sticky
    zombie detection, and the counters. The environment answers attempt `n` with `env[n - 1]`. */
module BeginRetry {
  import opened Wrappers
  import opened Sequences
  import opened Decimal
  import opened PgErrors

  const MAX_RETRIES: nat := 2
  const SHUTTING_DOWN := Other("PgStore is shutting down \U{2014} new transactions are refused")

  /** One pool attempt: the barrier as it is read, the pool's answer, and the pool statistics
      looked at when the answer is an error. */
  datatype PoolAttempt = PoolAttempt(shuttingDown: bool, error: Option<PgStoreError>, size: nat, idle: nat, active: nat)

  /** `limit`: the connect timeout as it displays. */
  datatype SessionResult = Applied | SessionTimedOut(limit: string) | SessionFailed(error: PgStoreError)

  /** One direct attempt: barrier, TCP connect, session SQL, BEGIN. */
  datatype DirectAttempt = DirectAttempt(
    shuttingDown: bool,
    connect: Option<PgStoreError>,
    session: SessionResult,
    begin: Option<PgStoreError>)

  /** How a call went. `delays`: every delay computed; `slept`: those actually slept. */
  datatype Trace = Trace(outcome: Result<(), PgStoreError>, attempts: nat, delays: seq<nat>, slept: seq<nat>)

  function Pow2(n: nat): nat
  {
    if n == 0 then 1 else 2 * Pow2(n - 1)
  }

  function Min(a: nat, b: nat): nat
  {
    if a <= b then a else b
  }

  function PoolDelay(zombie: bool, attempt: nat): nat
    requires attempt > 0
  {
    if zombie then Min(5000 * Pow2(attempt - 1), 15000) else Min(200 * Pow2(attempt - 1), 2000)
  }

  function DirectDelay(attempt: nat): nat
    requires attempt > 0
  {
    Min(500 * Pow2(attempt - 1), 5000)
  }

  predicate LooksZombie(a: PoolAttempt)
  {
    a.idle == 0 && a.active == 0 && a.size > 0
  }

  /** After the first attempt the error is wrapped, which ends its classification. */
  function GiveUp(attempt: nat, what: string, error: PgStoreError): PgStoreError
  {
    if attempt > 1 then Other(what + " failed after " + Print(attempt) + " attempts (last: " + Display(error) + ")")
      else error
  }

  /** The pool loop after `made` attempts. */
  function PoolBegin(env: seq<PoolAttempt>, made: nat, zombie: bool): Trace
    requires made <= MAX_RETRIES && |env| == MAX_RETRIES + 1
    decreases MAX_RETRIES - made
  {
    var n := made + 1;
    var a := env[n - 1];
    if a.shuttingDown then Trace(Err(SHUTTING_DOWN), n, [], [])
    else if a.error.None? then Trace(Ok(()), n, [], [])
    else
      var error := a.error.value;
      var zombie' := zombie || LooksZombie(a);
      var delay := PoolDelay(zombie', n);
      if !IsTransient(error) || n > MAX_RETRIES then Trace(Err(GiveUp(n, "begin_pooled", error)), n, [delay], [])
      else
        var rest := PoolBegin(env, n, zombie');
        rest.(delays := [delay] + rest.delays, slept := [delay] + rest.slept)
  }

  /** The error a direct attempt ends with, and whether the loop may retry it. */
  datatype Verdict = Opened | Retry | Stop(error: PgStoreError)

  function Judge(a: DirectAttempt, n: nat): (v: Verdict)
    ensures v.Retry? ==> n <= MAX_RETRIES
  {
    if a.connect.Some? then
      RetryOr(n, a.connect.value, GiveUp(n, "begin_direct: TCP connect", a.connect.value))
    else if a.session.SessionTimedOut? then
      if n <= MAX_RETRIES then Retry else Stop(ConnectTimeout(a.session.limit))
    else if a.session.SessionFailed? then
      RetryOr(n, a.session.error, GiveUp(n, "begin_direct: session SQL", a.session.error))
    else if a.begin.Some? then
      RetryOr(n, a.begin.value, GiveUp(n, "begin_direct: BEGIN", a.begin.value))
    else Opened
  }

  function RetryOr(n: nat, error: PgStoreError, final: PgStoreError): Verdict
  {
    if IsTransient(error) && n <= MAX_RETRIES then Retry else Stop(final)
  }

  function DirectBegin(env: seq<DirectAttempt>, made: nat): Trace
    requires made <= MAX_RETRIES && |env| == MAX_RETRIES + 1
    decreases MAX_RETRIES - made
  {
    var n := made + 1;
    var a := env[n - 1];
    if a.shuttingDown then Trace(Err(SHUTTING_DOWN), n, [], []) else
    match Judge(a, n)
    case Opened => Trace(Ok(()), n, [], [])
    case Stop(error) => Trace(Err(error), n, [], [])
    case Retry =>
      var rest := DirectBegin(env, n);
      rest.(delays := [DirectDelay(n)] + rest.delays, slept := [DirectDelay(n)] + rest.slept)
  }

  // ---- the loops ---------------------------------------------------------------------------

  /** The part of the store that counts. */
  class PgStore {
    var txStarted: nat
    var txActive: nat

    method BeginPooled(env: seq<PoolAttempt>) returns (r: Result<(), PgStoreError>, ghost slept: seq<nat>)
      requires |env| == MAX_RETRIES + 1
      modifies this
      ensures r == PoolBegin(env, 0, false).outcome && slept == PoolBegin(env, 0, false).slept
      ensures txStarted == old(txStarted) + (if r.Ok? then 1 else 0)
      ensures txActive == old(txActive) + (if r.Ok? then 1 else 0)
    {
      var attempt := 0;
      var zombieDetected := false;
      slept := [];
      ghost var whole := PoolBegin(env, 0, false);
      while true
        invariant attempt <= MAX_RETRIES
        invariant txStarted == old(txStarted) && txActive == old(txActive)
        invariant whole.outcome == PoolBegin(env, attempt, zombieDetected).outcome
        invariant whole.slept == slept + PoolBegin(env, attempt, zombieDetected).slept
        decreases MAX_RETRIES - attempt
      {
        ghost var made, seen := attempt, zombieDetected;
        attempt := attempt + 1;
        var a := env[attempt - 1];
        if a.shuttingDown {
          return Err(SHUTTING_DOWN), slept;
        }
        if a.error.None? {
          txStarted := txStarted + 1;
          txActive := txActive + 1;
          return Ok(()), slept;
        }
        if a.idle == 0 && a.active == 0 && a.size > 0 {
          zombieDetected := true;
        }
        NoOverflow(attempt);
        var delay := PoolDelay(zombieDetected, attempt);
        if !IsTransient(a.error.value) || attempt > MAX_RETRIES {
          return Err(GiveUp(attempt, "begin_pooled", a.error.value)), slept;
        }
        PoolGoesOnWith(env, made, seen, delay);
        Regroup(slept, [delay], PoolBegin(env, attempt, zombieDetected).slept);
        slept := slept + [delay];
      }
    }

    method BeginDirect(env: seq<DirectAttempt>) returns (r: Result<(), PgStoreError>, ghost slept: seq<nat>)
      requires |env| == MAX_RETRIES + 1
      modifies this
      ensures r == DirectBegin(env, 0).outcome && slept == DirectBegin(env, 0).slept
      ensures txStarted == old(txStarted) + (if r.Ok? then 1 else 0)
      ensures txActive == old(txActive) + (if r.Ok? then 1 else 0)
    {
      var attempt := 0;
      slept := [];
      ghost var whole := DirectBegin(env, 0);
      while true
        invariant attempt <= MAX_RETRIES
        invariant txStarted == old(txStarted) && txActive == old(txActive)
        invariant whole.outcome == DirectBegin(env, attempt).outcome
        invariant whole.slept == slept + DirectBegin(env, attempt).slept
        decreases MAX_RETRIES - attempt
      {
        ghost var made := attempt;
        attempt := attempt + 1;
        var a := env[attempt - 1];
        if a.shuttingDown {
          return Err(SHUTTING_DOWN), slept;
        }
        if a.connect.Some? {
          if !IsTransient(a.connect.value) || attempt > MAX_RETRIES {
            return Err(GiveUp(attempt, "begin_direct: TCP connect", a.connect.value)), slept;
          }
        } else if a.session.SessionTimedOut? {
          if attempt > MAX_RETRIES {
            return Err(ConnectTimeout(a.session.limit)), slept;
          }
        } else if a.session.SessionFailed? {
          if !IsTransient(a.session.error) || attempt > MAX_RETRIES {
            return Err(GiveUp(attempt, "begin_direct: session SQL", a.session.error)), slept;
          }
        } else if a.begin.Some? {
          if !IsTransient(a.begin.value) || attempt > MAX_RETRIES {
            return Err(GiveUp(attempt, "begin_direct: BEGIN", a.begin.value)), slept;
          }
        } else {
          txStarted := txStarted + 1;
          txActive := txActive + 1;
          return Ok(()), slept;
        }
        NoOverflow(attempt);
        DirectGoesOnWith(env, made);
        Regroup(slept, [DirectDelay(attempt)], DirectBegin(env, attempt).slept);
        slept := slept + [DirectDelay(attempt)];
      }
    }
  }

  lemma DirectGoesOnWith(env: seq<DirectAttempt>, made: nat)
    requires made <= MAX_RETRIES && |env| == MAX_RETRIES + 1
    requires !env[made].shuttingDown && Judge(env[made], made + 1).Retry?
    ensures var rest := DirectBegin(env, made + 1);
            DirectBegin(env, made) == rest.(delays := [DirectDelay(made + 1)]
                + rest.delays, slept := [DirectDelay(made + 1)] + rest.slept)
  {
  }

  lemma PowSmall(n: nat)
    requires n <= MAX_RETRIES
    ensures Pow2(n) == if n == 0 then 1 else if n == 1 then 2 else 4
  {
    assert Pow2(1) == 2 && Pow2(2) == 4;
  }

  /** The products and powers of the backoff formulas stay far below 2^64 (and 2^32). */
  lemma NoOverflow(attempt: nat)
    requires 1 <= attempt <= MAX_RETRIES + 1
    ensures Pow2(attempt - 1) < U32_LIMIT && 5000 * Pow2(attempt - 1) < U64_LIMIT
  {
    PowSmall(attempt - 1);
  }

  /** What one failed attempt contributes to the call when the loop goes on. */
  lemma PoolGoesOnWith(env: seq<PoolAttempt>, made: nat, zombie: bool, delay: nat)
    requires made < MAX_RETRIES && |env| == MAX_RETRIES + 1 && PoolGoesOn(env[made])
    requires delay == PoolDelay(zombie || LooksZombie(env[made]), made + 1)
    ensures var rest := PoolBegin(env, made + 1, zombie || LooksZombie(env[made]));
            PoolBegin(env, made, zombie) == rest.(delays := [delay] + rest.delays, slept := [delay] + rest.slept)
  {
  }

  // ---- bounds ------------------------------------------------------------------------------

  function Sum(delays: seq<nat>): nat
  {
    if delays == [] then 0 else delays[0] + Sum(delays[1..])
  }

  predicate NonDecreasing(delays: seq<nat>)
  {
    forall i, j | 0 <= i < j < |delays| :: delays[i] <= delays[j]
  }

  /** The delays of both modes, worked out. */
  lemma DelayTable(n: nat)
    requires 1 <= n <= MAX_RETRIES + 1
    ensures PoolDelay(true, n) == if n == 1 then 5000 else if n == 2 then 10000 else 15000
    ensures PoolDelay(false, n) == if n == 1 then 200 else if n == 2 then 400 else 800
    ensures DirectDelay(n) == if n == 1 then 500 else if n == 2 then 1000 else 2000
  {
    PowSmall(n - 1);
  }

  lemma {:induction false} PoolDelaysGrow(env: seq<PoolAttempt>, made: nat, zombie: bool)
    requires made <= MAX_RETRIES && |env| == MAX_RETRIES + 1
    ensures var delays := PoolBegin(env, made, zombie).delays;
            NonDecreasing(delays) && forall i | 0 <= i < |delays| :: delays[i] >= PoolDelay(zombie, made + 1)
    decreases MAX_RETRIES - made
  {
    var n := made + 1;
    var zombie' := zombie || LooksZombie(env[made]);
    DelayTable(n);
    if PoolGoesOn(env[made]) && made < MAX_RETRIES {
      PoolGoesOnWith(env, made, zombie, PoolDelay(zombie', n));
      PoolDelaysGrow(env, n, zombie');
      DelayTable(n + 1);
    }
  }

  /** The most that can still be slept after `made` attempts. */
  function PoolBudget(made: nat): nat
  {
    if made == 0 then 15000 else if made == 1 then 10000 else 0
  }

  lemma {:induction false} PoolSleepBounded(env: seq<PoolAttempt>, made: nat, zombie: bool)
    requires made <= MAX_RETRIES && |env| == MAX_RETRIES + 1
    ensures var t := PoolBegin(env, made, zombie);
            made < t.attempts <= MAX_RETRIES + 1 && Sum(t.slept) <= PoolBudget(made) && t.slept <= t.delays
    decreases MAX_RETRIES - made
  {
    if PoolGoesOn(env[made]) && made < MAX_RETRIES {
      var zombie' := zombie || LooksZombie(env[made]);
      DelayTable(made + 1);
      PoolGoesOnWith(env, made, zombie, PoolDelay(zombie', made + 1));
      PoolSleepBounded(env, made + 1, zombie');
      assert PoolBegin(env, made, zombie).slept[1..] == PoolBegin(env, made + 1, zombie').slept;
    } else {
      assert PoolBegin(env, made, zombie).slept == [];
    }
  }

  /** Pool mode, against any environment: at most three attempts, delays that never shrink
      within a call (once a zombie pool was seen it stays seen), at most 15 s of sleep. */
  lemma PoolCallBounded(env: seq<PoolAttempt>)
    requires |env| == 3
    ensures var t := PoolBegin(env, 0, false);
            1 <= t.attempts <= 3 && Sum(t.slept) <= 15000 && NonDecreasing(t.delays) && t.slept <= t.delays
  {
    PoolDelaysGrow(env, 0, false);
    PoolSleepBounded(env, 0, false);
  }

  /** Some attempt from `first` to `last` failed on a pool that holds connections while none is
      idle and no transaction is active. */
  predicate ZombieSeen(env: seq<PoolAttempt>, first: nat, last: nat)
    requires last < |env|
  {
    exists j | first <= j <= last :: env[j].idle == 0 && env[j].active == 0 && env[j].size > 0
  }

  /** The sleep after the attempt with this index. */
  function SleepFor(zombie: bool, index: nat): nat
  {
    match (zombie, index)
    case (true, 0) => 5000
    case (true, _) => 10000
    case (false, 0) => 200
    case (false, _) => 400
  }

  lemma {:induction false} PoolSleeps(env: seq<PoolAttempt>, made: nat, zombie: bool)
    requires made <= MAX_RETRIES && |env| == MAX_RETRIES + 1
    ensures var t := PoolBegin(env, made, zombie);
            && |t.slept| == t.attempts - 1 - made <= MAX_RETRIES - made
            && forall i | 0 <= i < |t.slept| ::
                 t.slept[i] == SleepFor(zombie || ZombieSeen(env, made, made + i), made + i)
    decreases MAX_RETRIES - made
  {
    if PoolGoesOn(env[made]) && made < MAX_RETRIES {
      var zombie' := zombie || LooksZombie(env[made]);
      var t, rest := PoolBegin(env, made, zombie), PoolBegin(env, made + 1, zombie');
      DelayTable(made + 1);
      PoolGoesOnWith(env, made, zombie, PoolDelay(zombie', made + 1));
      PoolSleeps(env, made + 1, zombie');
      forall i | 0 <= i < |t.slept|
        ensures t.slept[i] == SleepFor(zombie || ZombieSeen(env, made, made + i), made + i)
      {
        ZombieSplit(env, made, made + i);
        if i > 0 {
          assert t.slept[i] == rest.slept[i - 1];
        }
      }
    }
  }

  lemma ZombieSplit(env: seq<PoolAttempt>, first: nat, last: nat)
    requires first <= last < |env|
    ensures ZombieSeen(env, first, last) <==>
              LooksZombie(env[first]) || (first < last && ZombieSeen(env, first + 1, last))
  {
  }

  /** Pool mode, delay by delay: after the i-th failed attempt 5 and then 10 seconds from the
      first zombie pool on, 200 and then 400 ms before. */
  lemma PoolSleptExactly(env: seq<PoolAttempt>)
    requires |env| == 3
    ensures var t := PoolBegin(env, 0, false);
            && |t.slept| == t.attempts - 1 <= 2
            && forall i | 0 <= i < |t.slept| ::
                 t.slept[i] == if exists j :: 0 <= j <= i && env[j].idle == 0 && env[j].active == 0 && env[j].size > 0
                               then [5000, 10000][i] else [200, 400][i]
  {
    PoolSleeps(env, 0, false);
  }

  lemma {:induction false} DirectBounds(env: seq<DirectAttempt>, made: nat)
    requires made <= MAX_RETRIES && |env| == MAX_RETRIES + 1
    ensures var t := DirectBegin(env, made);
            && made < t.attempts <= MAX_RETRIES + 1
            && t.delays == t.slept && t.slept == [500, 1000][made..][..t.attempts - 1 - made]
    decreases MAX_RETRIES - made
  {
    DelayTable(made + 1);
    var n := made + 1;
    var a := env[n - 1];
    if !a.shuttingDown && Judge(a, n).Retry? {
      DirectBounds(env, n);
      assert [500, 1000][made..] == [DirectDelay(n)] + [500, 1000][n..];
    }
  }

  /** Direct mode: at most three attempts, separated by exactly 500 ms and then 1000 ms. */
  lemma DirectCallBounded(env: seq<DirectAttempt>)
    requires |env| == 3
    ensures var t := DirectBegin(env, 0);
            1 <= t.attempts <= 3 && t.slept == [500, 1000][..t.attempts - 1] && Sum(t.slept) <= 1500
                && NonDecreasing(t.slept)
  {
    DirectBounds(env, 0);
    assert [500, 1000][0..] == [500, 1000];
    var t := DirectBegin(env, 0);
    if t.attempts == 2 {
      assert t.slept[1..] == [];
    } else if t.attempts == 3 {
      assert t.slept == [500, 1000] && t.slept[1..] == [1000] && [1000][1..] == [];
    }
  }

  // ---- outcome -----------------------------------------------------------------------------

  /** An attempt the pool loop goes on from. */
  predicate PoolGoesOn(a: PoolAttempt)
  {
    !a.shuttingDown && a.error.Some? && IsTransient(a.error.value)
  }

  /** The first of connect, session setup and BEGIN to fail did so in a way worth a retry. */
  predicate DirectGoesOn(a: DirectAttempt)
  {
    && !a.shuttingDown
    && match (a.connect, a.session, a.begin)
       case (Some(error), _, _) => IsTransient(error)
       case (None, SessionTimedOut(_), _) => true
       case (None, SessionFailed(error), _) => IsTransient(error)
       case (None, Applied, Some(error)) => IsTransient(error)
       case (None, Applied, None) => false
  }

  predicate DirectConnects(a: DirectAttempt)
  {
    !a.shuttingDown && a.connect.None? && a.session.Applied? && a.begin.None?
  }

  /** What one round of either loop comes to, details aside. */
  datatype Attempt = Connects | Transient | Fatal
  datatype Look = ClosedBarrier | Met(outcome: Attempt)

  function PoolLook(a: PoolAttempt): Look
  {
    if a.shuttingDown then ClosedBarrier
    else Met(if a.error.None? then Connects else if IsTransient(a.error.value) then Transient else Fatal)
  }

  function DirectLook(a: DirectAttempt): Look
  {
    if a.shuttingDown then ClosedBarrier
    else Met(if DirectConnects(a) then Connects else if DirectGoesOn(a) then Transient else Fatal)
  }

  /** The loop both modes share: whether the call succeeds, and with which attempt it ends. */
  function Decide(looks: seq<Look>, made: nat): (bool, nat)
    requires made <= MAX_RETRIES && |looks| == MAX_RETRIES + 1
    decreases MAX_RETRIES - made
  {
    var n := made + 1;
    if looks[made] == Met(Connects) then (true, n)
    else if looks[made] == Met(Transient) && n <= MAX_RETRIES then Decide(looks, n)
    else (false, n)
  }

  function PoolLooks(env: seq<PoolAttempt>): (looks: seq<Look>)
    ensures |looks| == |env| && forall i | 0 <= i < |env| :: looks[i] == PoolLook(env[i])
  {
    seq(|env|, i requires 0 <= i < |env| => PoolLook(env[i]))
  }

  function DirectLooks(env: seq<DirectAttempt>): (looks: seq<Look>)
    ensures |looks| == |env| && forall i | 0 <= i < |env| :: looks[i] == DirectLook(env[i])
  {
    seq(|env|, i requires 0 <= i < |env| => DirectLook(env[i]))
  }

  lemma {:induction false} PoolDecides(env: seq<PoolAttempt>, made: nat, zombie: bool)
    requires made <= MAX_RETRIES && |env| == MAX_RETRIES + 1
    ensures var t := PoolBegin(env, made, zombie);
            (t.outcome.Ok?, t.attempts) == Decide(PoolLooks(env), made)
    decreases MAX_RETRIES - made
  {
    if PoolGoesOn(env[made]) && made < MAX_RETRIES {
      var zombie' := zombie || LooksZombie(env[made]);
      PoolGoesOnWith(env, made, zombie, PoolDelay(zombie', made + 1));
      PoolDecides(env, made + 1, zombie');
    }
  }

  lemma JudgeLooks(a: DirectAttempt, n: nat)
    requires !a.shuttingDown
    ensures Judge(a, n).Opened? <==> DirectLook(a) == Met(Connects)
    ensures Judge(a, n).Retry? <==> DirectLook(a) == Met(Transient) && n <= MAX_RETRIES
  {
  }

  lemma {:induction false} DirectDecides(env: seq<DirectAttempt>, made: nat)
    requires made <= MAX_RETRIES && |env| == MAX_RETRIES + 1
    ensures var t := DirectBegin(env, made);
            (t.outcome.Ok?, t.attempts) == Decide(DirectLooks(env), made)
    decreases MAX_RETRIES - made
  {
    if !env[made].shuttingDown {
      JudgeLooks(env[made], made + 1);
      if Judge(env[made], made + 1).Retry? {
        DirectGoesOnWith(env, made);
        DirectDecides(env, made + 1);
      }
    }
  }

  predicate TransientUpTo(looks: seq<Look>, n: nat)
  {
    n <= |looks| && forall i | 0 <= i < n :: looks[i] == Met(Transient)
  }

  lemma {:induction false} DecideFrom(looks: seq<Look>, made: nat)
    requires made <= MAX_RETRIES && |looks| == MAX_RETRIES + 1 && TransientUpTo(looks, made)
    ensures Decide(looks, 0) == Decide(looks, made)
    decreases made
  {
    if made > 0 {
      DecideFrom(looks, made - 1);
    }
  }

  /** The loop succeeds with attempt `n` exactly when that attempt connects and every one before
      it failed transiently. */
  lemma {:induction false} DecideWhen(looks: seq<Look>, made: nat, n: nat)
    requires made <= MAX_RETRIES && |looks| == MAX_RETRIES + 1 && TransientUpTo(looks, made)
    ensures Decide(looks, made) == (true, n) <==>
              made < n <= MAX_RETRIES + 1 && TransientUpTo(looks, n - 1) && looks[n - 1] == Met(Connects)
    decreases MAX_RETRIES - made
  {
    if looks[made] == Met(Transient) && made < MAX_RETRIES {
      DecideWhen(looks, made + 1, n);
    } else if made + 1 < n <= MAX_RETRIES + 1 {
      assert made < n - 1;
    }
  }

  /** A pool call succeeds with its `n`-th attempt exactly when that attempt, out of 1 to 3,
      finds the barrier open and gets a connection, and every one before it found the barrier
      open and failed transiently. */
  lemma PoolSucceedsWhen(env: seq<PoolAttempt>, n: nat)
    requires |env| == 3
    ensures var t := PoolBegin(env, 0, false);
            t.outcome.Ok? && t.attempts == n <==>
              && 1 <= n <= 3
              && !env[n - 1].shuttingDown && env[n - 1].error.None?
              && forall i | 0 <= i < n - 1 :: PoolGoesOn(env[i])
  {
    PoolDecides(env, 0, false);
    var looks := PoolLooks(env);
    DecideWhen(looks, 0, n);
    assert forall i | 0 <= i < |env| :: PoolGoesOn(env[i]) <==> looks[i] == Met(Transient);
  }

  /** Likewise in direct mode: the barrier open and connect, session setup and BEGIN all through,
      after attempts that were worth a retry only. */
  lemma DirectSucceedsWhen(env: seq<DirectAttempt>, n: nat)
    requires |env| == 3
    ensures var t := DirectBegin(env, 0);
            t.outcome.Ok? && t.attempts == n <==>
              && 1 <= n <= 3
              && DirectConnects(env[n - 1])
              && forall i | 0 <= i < n - 1 :: DirectGoesOn(env[i])
  {
    DirectDecides(env, 0);
    var looks := DirectLooks(env);
    DecideWhen(looks, 0, n);
    assert forall i | 0 <= i < |env| :: DirectGoesOn(env[i]) <==> looks[i] == Met(Transient);
  }

  /** What a failed call reports: the barrier's own error; the error of a first attempt as it is;
      that of a later one wrapped, with the number of attempts. */
  lemma {:induction false} PoolReports(env: seq<PoolAttempt>, made: nat, zombie: bool)
    requires made <= MAX_RETRIES && |env| == MAX_RETRIES + 1
    ensures var t := PoolBegin(env, made, zombie);
            t.outcome.Err? ==>
              && made < t.attempts <= MAX_RETRIES + 1
              && var a := env[t.attempts - 1];
                 if a.shuttingDown then
                   t.outcome.error == Other("PgStore is shutting down \U{2014} new transactions are refused")
                 else a.error.Some? && t.outcome.error == Reported(t.attempts, "begin_pooled", a.error.value)
    decreases MAX_RETRIES - made
  {
    if PoolGoesOn(env[made]) && made < MAX_RETRIES {
      var zombie' := zombie || LooksZombie(env[made]);
      PoolGoesOnWith(env, made, zombie, PoolDelay(zombie', made + 1));
      PoolReports(env, made + 1, zombie');
    }
  }

  function Reported(attempts: nat, what: string, error: PgStoreError): PgStoreError
  {
    match attempts
    case 1 => error
    case _ => Other(what + " failed after " + Print(attempts) + " attempts (last: " + Display(error) + ")")
  }

  /** The error of the step that failed: barrier, connect, session setup, BEGIN. */
  function DirectReport(a: DirectAttempt, attempts: nat): Option<PgStoreError>
  {
    match (a.shuttingDown, a.connect, a.session, a.begin)
    case (true, _, _, _) => Some(Other("PgStore is shutting down \U{2014} new transactions are refused"))
    case (_, Some(error), _, _) => Some(Reported(attempts, "begin_direct: TCP connect", error))
    case (_, _, SessionTimedOut(limit), _) => Some(ConnectTimeout(limit))
    case (_, _, SessionFailed(error), _) => Some(Reported(attempts, "begin_direct: session SQL", error))
    case (_, _, _, Some(error)) => Some(Reported(attempts, "begin_direct: BEGIN", error))
    case _ => None
  }

  lemma JudgeReports(a: DirectAttempt, n: nat)
    requires !a.shuttingDown && n >= 1
    ensures Judge(a, n).Opened? <==> DirectReport(a, n).None?
    ensures Judge(a, n).Stop? ==> DirectReport(a, n) == Some(Judge(a, n).error)
  {
  }

  lemma DirectEnds(env: seq<DirectAttempt>, made: nat)
    requires made <= MAX_RETRIES && |env| == MAX_RETRIES + 1
    requires env[made].shuttingDown || !Judge(env[made], made + 1).Retry?
    ensures var t := DirectBegin(env, made);
            && t.attempts == made + 1
            && DirectReport(env[made], made + 1) == if t.outcome.Err? then Some(t.outcome.error) else None
  {
    if !env[made].shuttingDown {
      JudgeReports(env[made], made + 1);
    }
  }

  lemma DirectGoesOnReport(env: seq<DirectAttempt>, made: nat)
    requires made <= MAX_RETRIES && |env| == MAX_RETRIES + 1
    requires !env[made].shuttingDown && Judge(env[made], made + 1).Retry?
    ensures made < MAX_RETRIES
    ensures DirectBegin(env, made).outcome == DirectBegin(env, made + 1).outcome
    ensures DirectBegin(env, made).attempts == DirectBegin(env, made + 1).attempts
  {
  }

  /** A direct call succeeds exactly when nothing failed in its last attempt, and otherwise
      reports what did. */
  lemma {:induction false} DirectReports(env: seq<DirectAttempt>, made: nat)
    requires made <= MAX_RETRIES && |env| == MAX_RETRIES + 1
    ensures var t := DirectBegin(env, made);
            && made < t.attempts <= MAX_RETRIES + 1
            && DirectReport(env[t.attempts - 1], t.attempts) == if t.outcome.Err? then Some(t.outcome.error) else None
    decreases MAX_RETRIES - made
  {
    if env[made].shuttingDown || !Judge(env[made], made + 1).Retry? {
      DirectEnds(env, made);
    } else {
      DirectGoesOnReport(env, made);
      DirectReports(env, made + 1);
    }
  }

  /** A failed pool call never reports a transient error: the first attempt's error is returned
      as it is only when it is not transient, and later ones are wrapped. */
  lemma {:induction false} PoolErrorsAreFinal(env: seq<PoolAttempt>, made: nat, zombie: bool)
    requires made <= MAX_RETRIES && |env| == MAX_RETRIES + 1
    ensures PoolBegin(env, made, zombie).outcome.Err? ==> !IsTransient(PoolBegin(env, made, zombie).outcome.error)
    decreases MAX_RETRIES - made
  {
    var n := made + 1;
    if PoolGoesOn(env[n - 1]) && n <= MAX_RETRIES {
      PoolErrorsAreFinal(env, n, zombie || LooksZombie(env[n - 1]));
    }
  }

  /** Direct mode is not uniform there: its error is transient exactly when both retries are used
      up and the third attempt, meeting an open barrier, connects but its session setup times
      out. */
  lemma {:induction false} DirectErrorTransientWhen(env: seq<DirectAttempt>, made: nat)
    requires made <= MAX_RETRIES && |env| == MAX_RETRIES + 1
    ensures var t := DirectBegin(env, made);
            t.outcome.Err? && IsTransient(t.outcome.error) <==>
              (forall i | made <= i < MAX_RETRIES :: DirectGoesOn(env[i])) && TimesOutInSession(env[MAX_RETRIES])
    decreases MAX_RETRIES - made
  {
    var n := made + 1;
    if !env[n - 1].shuttingDown && Judge(env[n - 1], n).Retry? {
      DirectGoesOnWith(env, made);
      DirectErrorTransientWhen(env, n);
    }
  }

  /** Three session setups that time out: the caller gets the transient error itself. */
  lemma DirectErrorStaysTransient(limit: string)
    ensures var a := DirectAttempt(false, None, SessionTimedOut(limit), None);
            && DirectBegin([a, a, a], 0).outcome == Err(ConnectTimeout(limit))
            && IsTransient(ConnectTimeout(limit))
  {
    var a := DirectAttempt(false, None, SessionTimedOut(limit), None);
    DirectGoesOnWith([a, a, a], 0);
    DirectGoesOnWith([a, a, a], 1);
  }

  predicate TimesOutInSession(a: DirectAttempt)
  {
    !a.shuttingDown && a.connect.None? && a.session.SessionTimedOut?
  }
}
