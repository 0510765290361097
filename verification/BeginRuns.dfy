/** Each call of `begin`, inside any run of the whole store, goes exactly as the retry loop of
    its mode goes on its own (src/store.rs:788-1079). */
module BeginRuns {
  import opened BeginRetry
  import L = Lifecycle

  /** What the round of call `id` that ends with this event, if any, came to. */
  function LookOf(s: L.Store, e: L.Event, id: nat): seq<Look>
  {
    if e.Recheck? && e.id == id && L.Enabled(s, e) && s.shuttingDown then [ClosedBarrier]
    else if e.Attempted? && e.id == id && L.Enabled(s, e) then [Met(e.outcome)]
    else []
  }

  /** Round by round, what call `id` met in a run. */
  function Looks(s: L.Store, events: seq<L.Event>, id: nat): seq<Look>
    decreases |events|
  {
    if events == [] then [] else LookOf(s, events[0], id) + Looks(L.Next(s, events[0]), events[1..], id)
  }

  /** The call ended successfully with the last of these rounds. */
  predicate Won(looks: seq<Look>)
  {
    && 1 <= |looks| <= MAX_RETRIES + 1
    && TransientUpTo(looks, |looks| - 1) && looks[|looks| - 1] == Met(Connects)
  }

  predicate Failed(looks: seq<Look>)
  {
    && 1 <= |looks| <= MAX_RETRIES + 1
    && TransientUpTo(looks, |looks| - 1)
    && match looks[|looks| - 1]
       case ClosedBarrier => true
       case Met(Fatal) => true
       case Met(Transient) => |looks| == MAX_RETRIES + 1
       case Met(Connects) => false
  }

  /** Where a call stands, as the rounds it has had would put it. */
  predicate Fits(e: L.Entry, looks: seq<Look>)
  {
    match e
    case Beginning(_, _, AtBarrier, attempt) => looks == [] && attempt == 0
    case Beginning(_, _, Connecting, attempt) => attempt == |looks| + 1 <= MAX_RETRIES + 1
      && TransientUpTo(looks, |looks|)
    case Beginning(_, _, Connected, attempt) => Won(looks) && attempt == |looks|
    case Beginning(_, _, Counted, attempt) => Won(looks) && attempt == |looks|
    case Beginning(_, _, _, attempt) => attempt == |looks| <= MAX_RETRIES && TransientUpTo(looks, |looks|)
    case Refused => looks == [] || Failed(looks)
    case GivenUp => TransientUpTo(looks, |looks|)
    case Open(_) => Won(looks)
    case Bare(_) => Won(looks)
  }

  predicate CallFits(s: L.Store, id: nat, looks: seq<Look>)
  {
    if id in s.entries then Fits(s.entries[id], looks) else looks == []
  }

  lemma OthersUntouched(s: L.Store, e: L.Event, id: nat)
    requires e.Shutdown? || e.id != id
    ensures id in L.Next(s, e).entries <==> id in s.entries
    ensures id in s.entries ==> L.Next(s, e).entries[id] == s.entries[id]
    ensures LookOf(s, e, id) == []
  {
  }

  lemma StepFits(s: L.Store, e: L.Event, id: nat, looks: seq<Look>)
    requires CallFits(s, id, looks)
    ensures CallFits(L.Next(s, e), id, looks + LookOf(s, e, id))
  {
    if e.Shutdown? || e.id != id {
      OthersUntouched(s, e, id);
      assert looks + [] == looks;
    } else if LookOf(s, e, id) == [] {
      assert looks + [] == looks;
    }
  }

  lemma {:induction false} RunFits(s: L.Store, events: seq<L.Event>, id: nat, looks: seq<Look>)
    requires CallFits(s, id, looks)
    ensures CallFits(L.Run(s, events), id, looks + Looks(s, events, id))
    decreases |events|
  {
    if events == [] {
      assert looks + [] == looks;
    } else {
      var look := LookOf(s, events[0], id);
      StepFits(s, events[0], id, looks);
      RunFits(L.Next(s, events[0]), events[1..], id, looks + look);
      assert looks + (look + Looks(L.Next(s, events[0]), events[1..], id)) ==
          (looks + look) + Looks(L.Next(s, events[0]), events[1..], id);
    }
  }

  /** The call has been handed its transaction, or is about to be. */
  predicate Succeeded(e: L.Entry)
  {
    e.Open? || e.Bare? || (e.Beginning? && (e.phase.Connected? || e.phase.Counted?))
  }

  lemma DecidedBy(e: L.Entry, seen: seq<Look>, looks: seq<Look>)
    requires Fits(e, seen) && |looks| == MAX_RETRIES + 1 && seen <= looks
    ensures Succeeded(e) ==> Decide(looks, 0) == (true, |seen|)
    ensures e.Refused? && seen != [] ==> Decide(looks, 0) == (false, |seen|)
    ensures e.Beginning? && !Succeeded(e) ==> Decide(looks, 0).1 > |seen|
  {
    if Won(seen) || Failed(seen) {
      DecideFrom(looks, |seen| - 1);
    } else if |seen| <= MAX_RETRIES && TransientUpTo(seen, |seen|) {
      DecideFrom(looks, |seen|);
      LaterThan(looks, |seen|);
    }
  }

  lemma {:induction false} LaterThan(looks: seq<Look>, made: nat)
    requires made <= MAX_RETRIES && |looks| == MAX_RETRIES + 1
    ensures Decide(looks, made).1 > made
    decreases MAX_RETRIES - made
  {
    if looks[made] == Met(Transient) && made < MAX_RETRIES {
      LaterThan(looks, made + 1);
    }
  }

  /** In any run of the store, with any number of other calls, transactions and a shutdown in
      between: a call that has succeeded did so exactly where the pool loop, given the same
      answers, succeeds; a call refused in the loop failed where that loop fails; and a call
      still under way is one whose loop goes on. */
  lemma PoolCallFollows(events: seq<L.Event>, id: nat, env: seq<PoolAttempt>)
    requires id in L.Run(L.EMPTY_STORE, events).entries
    requires |env| == MAX_RETRIES + 1 && Looks(L.EMPTY_STORE, events, id) <= PoolLooks(env)
    ensures var e := L.Run(L.EMPTY_STORE, events).entries[id];
            var rounds := |Looks(L.EMPTY_STORE, events, id)|;
            var t := PoolBegin(env, 0, false);
            && (Succeeded(e) ==> t.outcome.Ok? && t.attempts == rounds)
            && (e.Refused? && rounds > 0 ==> t.outcome.Err? && t.attempts == rounds)
            && (e.Beginning? && !Succeeded(e) ==> t.attempts > rounds)
  {
    RunFits(L.EMPTY_STORE, events, id, []);
    var seen := Looks(L.EMPTY_STORE, events, id);
    assert [] + seen == seen;
    DecidedBy(L.Run(L.EMPTY_STORE, events).entries[id], seen, PoolLooks(env));
    PoolDecides(env, 0, false);
  }

  /** The same for a call in direct mode and the direct loop. */
  lemma DirectCallFollows(events: seq<L.Event>, id: nat, env: seq<DirectAttempt>)
    requires id in L.Run(L.EMPTY_STORE, events).entries
    requires |env| == MAX_RETRIES + 1 && Looks(L.EMPTY_STORE, events, id) <= DirectLooks(env)
    ensures var e := L.Run(L.EMPTY_STORE, events).entries[id];
            var rounds := |Looks(L.EMPTY_STORE, events, id)|;
            var t := DirectBegin(env, 0);
            && (Succeeded(e) ==> t.outcome.Ok? && t.attempts == rounds)
            && (e.Refused? && rounds > 0 ==> t.outcome.Err? && t.attempts == rounds)
            && (e.Beginning? && !Succeeded(e) ==> t.attempts > rounds)
  {
    RunFits(L.EMPTY_STORE, events, id, []);
    var seen := Looks(L.EMPTY_STORE, events, id);
    assert [] + seen == seen;
    DecidedBy(L.Run(L.EMPTY_STORE, events).entries[id], seen, DirectLooks(env));
    DirectDecides(env, 0);
  }
}
