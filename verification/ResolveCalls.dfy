/**
 When two upstream calls for one key can be open at once: exactly when two keys in use share a hash,
 so that one of them gets private flights.
 */
module ResolveCalls {
  import opened Base
  import P = FlightProtocol
  import opened Resolve

  /** The keys of the queries that start in a run. */
  ghost function Asked(steps: seq<Step>): set<Key> {
    set i | 0 <= i < |steps| && steps[i].Start? :: steps[i].key
  }

  lemma NonePrivateNext(st: State, step: Step, keys: set<Key>)
    requires Inv(st) && Enabled(st, step) && (step.Start? ==> step.key in keys)
    requires P.NonePrivate(st.flights, keys) && P.NoCollision(st.flights.keyHash, keys)
    ensures P.NonePrivate(Next(st, step).flights, keys)
    ensures Next(st, step).flights.keyHash == st.flights.keyHash
  {
    hide P.Inv, P.Enabled, P.NonePrivate, P.NoCollision, P.Joined, P.Closed, Look, NextQueries;
    if FlightStep(st, step).Some? {
      P.NonePrivateNext(st.flights, FlightStep(st, step).value, keys);
      P.SameHashes(st.flights, FlightStep(st, step).value);
    }
  }

  lemma {:induction false} NonePrivateRun(st: State, steps: seq<Step>, keys: set<Key>)
    requires Inv(st) && CanRun(st, steps) && Asked(steps) <= keys
    requires P.NonePrivate(st.flights, keys) && P.NoCollision(st.flights.keyHash, keys)
    ensures P.NonePrivate(Run(st, steps).flights, keys)
    decreases |steps|
  {
    hide Inv, Enabled, Next, P.NonePrivate, P.NoCollision;
    if steps != [] {
      assert steps[0].Start? ==> steps[0].key in Asked(steps);
      NextInv(st, steps[0]);
      NonePrivateNext(st, steps[0], keys);
      AskedRest(steps);
      NonePrivateRun(Next(st, steps[0]), steps[1..], keys);
    }
  }

  lemma AskedRest(steps: seq<Step>)
    requires steps != []
    ensures Asked(steps[1..]) <= Asked(steps)
  {
    forall i | 0 <= i < |steps| - 1 && steps[1..][i].Start? ensures steps[1..][i].key in Asked(steps) {
      assert steps[1..][i] == steps[i + 1];
    }
  }

  /** If no two keys asked for share a hash, every leader is registered and no two calls for one key are open. */
  lemma OneCallPerKey(keyHash: Key -> P.Hash, serveStale: bool, steps: seq<Step>, p1: Pid, p2: Pid)
    requires CanRun(Init(keyHash, serveStale), steps) && P.NoCollision(keyHash, Asked(steps))
    requires var st := Run(Init(keyHash, serveStale), steps);
      && p1 in st.queries && st.queries[p1].Calling?
      && p2 in st.queries && st.queries[p2].Calling?
      && st.queries[p1].guard.key == st.queries[p2].guard.key
    ensures p1 == p2
  {
    hide CanRun, Run, Inv, P.Inv;
    InitInv(keyHash, serveStale);
    var st := Run(Init(keyHash, serveStale), steps);
    NonePrivateRun(Init(keyHash, serveStale), steps, Asked(steps));
    RunInv(Init(keyHash, serveStale), steps);
    CallerRegistered(st, p1, Asked(steps));
    CallerRegistered(st, p2, Asked(steps));
    CallsNeverOverlap(keyHash, serveStale, steps, p1, p2);
  }

  lemma CallerRegistered(st: State, p: Pid, keys: set<Key>)
    requires Inv(st) && P.NonePrivate(st.flights, keys)
    requires p in st.queries && st.queries[p].Calling?
    ensures st.queries[p].guard.registered
  {
    hide P.Inv;
    assert InRole(st);
    assert st.flights.roles[p] == RoleOf(st.queries[p]);
  }

  // ---------------------------------------------------------------------------------------
  // Two keys with one hash

  /** A query that misses, leads a flight and calls its upstream. */
  function Led(p: Pid, key: Key): seq<Step> {
    [Start(p, key), Lookup(p, 0), Join(p), Recheck(p, 0, P.Outcome(0)), Call(p)]
  }

  /** The store is empty, and the process is new. */
  predicate Quiet(st: State, p: Pid) {
    st.store == map[] && p !in st.queries && p !in st.flights.roles
  }

  lemma RunsOne(st: State, a: Step)
    requires Enabled(st, a)
    ensures CanRun(st, [a]) && Run(st, [a]) == Next(st, a)
  {
    hide Enabled, Next;
    assert [a][1..] == [];
  }

  lemma RunsTwo(st: State, a: Step, b: Step)
    requires Enabled(st, a) && Enabled(Next(st, a), b)
    ensures CanRun(st, [a, b]) && Run(st, [a, b]) == Next(Next(st, a), b)
  {
    hide Enabled, Next;
    assert [a, b][1..] == [b];
    RunsOne(Next(st, a), b);
  }

  lemma Misses(st: State, p: Pid, key: Key)
    requires Quiet(st, p)
    ensures var steps := [Start(p, key), Lookup(p, 0)];
      && CanRun(st, steps)
      && Run(st, steps) == st.(flights := st.flights.(roles := st.flights.roles[p := P.Bystander(key)]),
                              queries := st.queries[p := Missed(key)])
  {
    var one := Next(st, Start(p, key));
    assert one == st.(flights := st.flights.(roles := st.flights.roles[p := P.Bystander(key)]),
                      queries := st.queries[p := Looking(key)]);
    assert FlightStep(one, Lookup(p, 0)) == None;
    var two := Next(one, Lookup(p, 0));
    assert two.queries == st.queries[p := Missed(key)];
    RunsTwo(st, Start(p, key), Lookup(p, 0));
  }

  /** A guard for the key: registered if the hash is free, private if it is another key's. */
  function NewGuard(st: State, key: Key): P.Guard {
    P.Guard(key, st.flights.nextFlight, st.flights.keyHash(key) !in st.flights.registry)
  }

  lemma LeadsNow(st: State, p: Pid, key: Key)
    requires st.store == map[] && p in st.queries && st.queries[p] == Missed(key)
    requires p in st.flights.roles && st.flights.roles[p] == P.Bystander(key)
    requires var h := st.flights.keyHash(key); h in st.flights.registry ==> st.flights.registry[h].key != key
    ensures Enabled(st, Join(p))
    ensures var w, h := Next(st, Join(p)), st.flights.keyHash(key);
      && w.store == map[] && w.serveStale == st.serveStale && w.deferred == st.deferred
      && w.queries == st.queries[p := Leading(NewGuard(st, key))]
      && w.flights.roles == st.flights.roles[p := P.Leader(NewGuard(st, key), true)]
      && w.flights.keyHash == st.flights.keyHash
      && w.flights.registry == if h in st.flights.registry then st.flights.registry
                               else st.flights.registry[h := P.Registered(key, st.flights.nextFlight)]
  {
  }

  lemma CallsNow(st: State, p: Pid, guard: P.Guard)
    requires st.store == map[] && p in st.queries && st.queries[p] == Leading(guard)
    ensures var steps := [Recheck(p, 0, P.Outcome(0)), Call(p)];
      && CanRun(st, steps)
      && Run(st, steps) == st.(queries := st.queries[p := Calling(guard, 0)])
  {
    var one := Next(st, Recheck(p, 0, P.Outcome(0)));
    assert one == st.(queries := st.queries[p := Checked(guard, 0)]);
    var two := Next(one, Call(p));
    assert two == st.(queries := st.queries[p := Calling(guard, 0)]);
    RunsTwo(st, Recheck(p, 0, P.Outcome(0)), Call(p));
  }

  lemma {:induction false} RunsOn(st: State, a: seq<Step>, b: seq<Step>)
    requires CanRun(st, a) && CanRun(Run(st, a), b)
    ensures CanRun(st, a + b) && Run(st, a + b) == Run(Run(st, a), b)
    decreases |a|
  {
    hide Enabled, Next;
    if a == [] {
      assert a + b == b;
    } else {
      assert (a + b)[0] == a[0] && (a + b)[1..] == a[1..] + b;
      RunsOn(Next(st, a[0]), a[1..], b);
    }
  }

  lemma Overwritten<K, V>(m: map<K, V>, k: K, a: V, b: V)
    ensures m[k := a][k := b] == m[k := b]
  {
  }

  lemma RunsThree(st: State, a: seq<Step>, b: Step, c: seq<Step>)
    requires CanRun(st, a) && Enabled(Run(st, a), b) && CanRun(Next(Run(st, a), b), c)
    ensures CanRun(st, a + ([b] + c)) && Run(st, a + ([b] + c)) == Run(Next(Run(st, a), b), c)
  {
    hide CanRun, Run, Enabled, Next;
    RunsOne(Run(st, a), b);
    RunsOn(Run(st, a), [b], c);
    RunsOn(st, a, [b] + c);
  }

  lemma LeadsAndCalls(st: State, p: Pid, key: Key)
    requires Quiet(st, p)
    requires var h := st.flights.keyHash(key); h in st.flights.registry ==> st.flights.registry[h].key != key
    ensures CanRun(st, Led(p, key))
    ensures var w, h := Run(st, Led(p, key)), st.flights.keyHash(key);
      && w.store == map[] && w.flights.keyHash == st.flights.keyHash
      && w.queries == st.queries[p := Calling(NewGuard(st, key), 0)]
      && w.flights.roles == st.flights.roles[p := P.Leader(NewGuard(st, key), true)]
      && w.flights.registry == if h in st.flights.registry then st.flights.registry
                               else st.flights.registry[h := P.Registered(key, st.flights.nextFlight)]
  {
    hide CanRun, Run, Enabled, Next;
    var first, second := [Start(p, key), Lookup(p, 0)], [Recheck(p, 0, P.Outcome(0)), Call(p)];
    Misses(st, p, key);
    var missed := Run(st, first);
    LeadsNow(missed, p, key);
    var led := Next(missed, Join(p));
    CallsNow(led, p, NewGuard(st, key));
    Overwritten(st.queries, p, Missed(key), Leading(NewGuard(st, key)));
    Overwritten(st.queries, p, Leading(NewGuard(st, key)), Calling(NewGuard(st, key), 0));
    Overwritten(st.flights.roles, p, P.Bystander(key), P.Leader(NewGuard(st, key), true));
    RunsThree(st, first, Join(p), second);
    assert Led(p, key) == first + ([Join(p)] + second);
  }

  /** Two keys with one hash: while the one has its flight, two calls for the other can be open at once. */
  lemma CollidingKeysOverlap(keyHash: Key -> P.Hash, serveStale: bool, a: Key, b: Key)
    requires a != b && keyHash(a) == keyHash(b)
    ensures var steps := Led(0, a) + (Led(1, b) + Led(2, b));
      && CanRun(Init(keyHash, serveStale), steps) && Asked(steps) == {a, b}
      && var st := Run(Init(keyHash, serveStale), steps);
      && 1 in st.queries && st.queries[1].Calling? && st.queries[1].guard.key == b
      && 2 in st.queries && st.queries[2].Calling? && st.queries[2].guard.key == b
  {
    hide CanRun, Run, Enabled, Next, Led, Asked;
    var st := Init(keyHash, serveStale);
    LeadsAndCalls(st, 0, a);
    var one := Run(st, Led(0, a));
    LeadsAndCalls(one, 1, b);
    var two := Run(one, Led(1, b));
    LeadsAndCalls(two, 2, b);
    RunsOn(one, Led(1, b), Led(2, b));
    RunsOn(st, Led(0, a), Led(1, b) + Led(2, b));
    BothAsked(a, b);
  }

  lemma BothAsked(a: Key, b: Key)
    ensures Asked(Led(0, a) + (Led(1, b) + Led(2, b))) == {a, b}
  {
    var steps := Led(0, a) + (Led(1, b) + Led(2, b));
    assert steps[0] == Start(0, a) && steps[5] == Start(1, b);
    assert forall i :: 0 <= i < |steps| && steps[i].Start? ==> steps[i].key == a || steps[i].key == b;
  }

  /** The run asks for keys of the set only, and ends with two calls for one key open. */
  ghost predicate Overlaps(keyHash: Key -> P.Hash, serveStale: bool, keys: set<Key>, steps: seq<Step>, p1: Pid, p2: Pid) {
    && CanRun(Init(keyHash, serveStale), steps) && Asked(steps) <= keys && p1 != p2
    && var st := Run(Init(keyHash, serveStale), steps);
    && p1 in st.queries && st.queries[p1].Calling? && p2 in st.queries && st.queries[p2].Calling?
    && st.queries[p1].guard.key == st.queries[p2].guard.key
  }

  /** Two calls for one key can be open at once exactly when two of the keys asked for share a hash. */
  lemma OverlapIff(keyHash: Key -> P.Hash, serveStale: bool, keys: set<Key>)
    ensures (exists steps, p1, p2 :: Overlaps(keyHash, serveStale, keys, steps, p1, p2)) <==> !P.NoCollision(keyHash, keys)
  {
    hide CanRun, Run, Asked;
    forall steps, p1, p2 | Overlaps(keyHash, serveStale, keys, steps, p1, p2) ensures !P.NoCollision(keyHash, keys) {
      if P.NoCollision(keyHash, keys) {
        OneCallPerKey(keyHash, serveStale, steps, p1, p2);
        assert false;
      }
    }
    if !P.NoCollision(keyHash, keys) {
      var a, b :| a in keys && b in keys && keyHash(a) == keyHash(b) && a != b;
      CollidingKeysOverlap(keyHash, serveStale, a, b);
      assert Overlaps(keyHash, serveStale, keys, Led(0, a) + (Led(1, b) + Led(2, b)), 1, 2);
    }
  }

  // ---------------------------------------------------------------------------------------
  // Recheck windows

  /** A failed refresh put off the next one of this entry until after `now`. */
  ghost predicate PutOffBy(steps: seq<Step>, e: Cached, now: nat) {
    exists i :: 0 <= i < |steps| && DefersPast(steps[i], e, now)
  }

  predicate DefersPast(step: Step, e: Cached, now: nat) {
    step.Defer? && step.stale == e && (now < step.until || now <= e.inserted)
  }

  lemma WindowIff(e: Cached, until: nat, now: nat)
    ensures Elapsed(e, now) < Window(e, until) <==> Elapsed(e, now) < U64_MAX && (now < until || now <= e.inserted)
  {
  }

  /** One step puts a refresh off, or leaves the windows as they are. */
  lemma PutOffNext(st: State, step: Step, e: Cached, now: nat)
    requires Enabled(st, step)
    ensures PutOff(e, Next(st, step).deferred, now)
       <==> PutOff(e, st.deferred, now) || (Elapsed(e, now) < U64_MAX && DefersPast(step, e, now))
  {
    hide Elapsed, Window, NextFlights, NextQueries, Enabled;
    if step.Defer? {
      WindowIff(e, step.until, now);
      WindowSome(e, step.until);
    }
  }

  lemma WindowSome(e: Cached, until: nat)
    ensures Window(e, until) > 0
  {
  }

  lemma {:induction false} PutOffRun(st: State, steps: seq<Step>, e: Cached, now: nat)
    requires CanRun(st, steps)
    ensures PutOff(e, Run(st, steps).deferred, now)
       <==> PutOff(e, st.deferred, now) || (Elapsed(e, now) < U64_MAX && PutOffBy(steps, e, now))
    decreases |steps|
  {
    hide Enabled, Next, PutOff, DefersPast;
    if steps != [] {
      var step := steps[0];
      PutOffNext(st, step, e, now);
      PutOffRun(Next(st, step), steps[1..], e, now);
      FirstOrRest(steps, e, now);
    }
  }

  lemma FirstOrRest(steps: seq<Step>, e: Cached, now: nat)
    requires steps != []
    ensures PutOffBy(steps, e, now) <==> DefersPast(steps[0], e, now) || PutOffBy(steps[1..], e, now)
  {
    hide DefersPast;
    if i :| 0 <= i < |steps| && DefersPast(steps[i], e, now) {
      assert i > 0 ==> steps[1..][i - 1] == steps[i];
    }
    if i :| 0 <= i < |steps[1..]| && DefersPast(steps[1..][i], e, now) {
      assert steps[i + 1] == steps[1..][i];
    }
  }

  /**
   After any run, an expired answer that may be served stale is served without a refresh exactly when some failed
   refresh of that very entry put the next one off past `now`: the window is the entry's own and only extends.
   */
  lemma RecheckExact(keyHash: Key -> P.Hash, serveStale: bool, steps: seq<Step>, key: Key, now: nat)
    requires CanRun(Init(keyHash, serveStale), steps)
    requires var st := Run(Init(keyHash, serveStale), steps);
      key in st.store && Stale(st.store[key], st.serveStale, now) && Elapsed(st.store[key], now) < U64_MAX
    ensures var st := Run(Init(keyHash, serveStale), steps);
      Look(st, key, now) == if PutOffBy(steps, st.store[key], now) then StaleNow else Refresh(Some(st.store[key]), None)
  {
    hide CanRun, Run, PutOffBy;
    var st := Run(Init(keyHash, serveStale), steps);
    PutOffRun(Init(keyHash, serveStale), steps, st.store[key], now);
  }

  // ---------------------------------------------------------------------------------------
  // No query gets stuck

  /** What is about to be published is an outcome or an abandonment. */
  ghost predicate Signals(st: State) {
    forall p :: p in st.queries && st.queries[p].Publishing? ==> st.queries[p].signal != P.Pending
  }

  lemma SignalsNext(st: State, step: Step)
    requires Signals(st) && Enabled(st, step)
    ensures Signals(Next(st, step))
  {
    hide NextFlights, FlightStep, Look;
  }

  lemma {:induction false} SignalsRun(st: State, steps: seq<Step>)
    requires Signals(st) && CanRun(st, steps)
    ensures Signals(Run(st, steps))
    decreases |steps|
  {
    hide Signals, Enabled, Next;
    if steps != [] {
      SignalsNext(st, steps[0]);
      SignalsRun(Next(st, steps[0]), steps[1..]);
    }
  }

  /** The step a query can always take: a wait ends when its flight is closed, an upstream call whenever it does. */
  function OwnStep(st: State, p: Pid): Step
    requires p in st.queries
  {
    match st.queries[p]
    case Looking(_) => Lookup(p, 0)
    case Missed(_) => Join(p)
    case Waiting(_, _) => Wake(p)
    case Leading(_) => Recheck(p, 0, P.Outcome(0))
    case Checked(_, _) => Call(p)
    case Calling(_, _) => Return(p, None)
    case Returned(_, _) => Skip(p, P.Outcome(0))
    case Closing(_, _) => Unregister(p)
    case Publishing(_, _) => Publish(p)
  }

  /** Every query but a waiting one can go on. */
  lemma GoesOn(st: State, p: Pid)
    requires P.Inv(st.flights) && InRole(st) && Signals(st) && p in st.queries && !st.queries[p].Waiting?
    ensures Enabled(st, OwnStep(st, p))
  {
    hide Look, P.Inv;
    assert st.flights.roles[p] == RoleOf(st.queries[p]);
    if st.queries[p].Publishing? {
      assert P.Holds(st.flights, p, st.queries[p].guard) by {
        LeaderHolds(st.flights, p, st.queries[p].guard);
      }
    }
  }

  lemma LeaderHolds(flights: P.State, p: Pid, guard: P.Guard)
    requires P.Inv(flights) && p in flights.roles && flights.roles[p].Leader? && flights.roles[p].guard == guard
    ensures P.Holds(flights, p, guard)
  {
  }

  predicate Leads(q: Query, flight: nat) {
    RoleOf(q).Leader? && RoleOf(q).guard.flight == flight
  }

  /** The flight has a leader, and it can go on. */
  ghost predicate LeaderGoesOn(st: State, flight: nat) {
    exists q :: q in st.queries && Leads(st.queries[q], flight) && Enabled(st, OwnStep(st, q))
  }

  /** A waiting query can go on, or a query that leads its flight can. */
  lemma WaiterGoesOn(st: State, p: Pid)
    requires P.Inv(st.flights) && InRole(st) && Signals(st) && p in st.queries && st.queries[p].Waiting?
    ensures Enabled(st, OwnStep(st, p)) || LeaderGoesOn(st, st.queries[p].flight)
  {
    var flight := st.queries[p].flight;
    assert st.flights.roles[p] == RoleOf(st.queries[p]);
    assert P.Sees(st.flights, st.queries[p].key, flight);
    if flight !in st.flights.verdicts {
      var q := st.flights.cells[flight].leader;
      assert P.Led(st.flights, flight, q);
      assert q in st.queries && st.flights.roles[q] == RoleOf(st.queries[q]);
      GoesOn(st, q);
    }
  }

  /**
   In every reachable state every query can take its own next step, or waits for a flight whose leader can take its
   own: no interleaving, cancellation or hand-over leaves a query stuck.
   */
  lemma NeverStuck(keyHash: Key -> P.Hash, serveStale: bool, steps: seq<Step>, p: Pid)
    requires CanRun(Init(keyHash, serveStale), steps) && p in Run(Init(keyHash, serveStale), steps).queries
    ensures var st := Run(Init(keyHash, serveStale), steps);
      Enabled(st, OwnStep(st, p)) || (st.queries[p].Waiting? && LeaderGoesOn(st, st.queries[p].flight))
  {
    hide CanRun, Run, Enabled, P.Inv, InRole, OwnStep;
    InitInv(keyHash, serveStale);
    RunInv(Init(keyHash, serveStale), steps);
    SignalsRun(Init(keyHash, serveStale), steps);
    var st := Run(Init(keyHash, serveStale), steps);
    if st.queries[p].Waiting? {
      WaiterGoesOn(st, p);
    } else {
      GoesOn(st, p);
    }
  }
}
