/**
 Resolution of cacheable queries on top of coalescing: the first lookup, joining a flight, the
 leader's second lookup, the upstream call, storing before unregistering, and cancellation
 wherever a query waits. The store may lose entries at any time.
 */
module Resolve {
  import opened Base
  import P = FlightProtocol

  type Key = P.Key
  type Pid = P.Pid

  /** A cached answer or failure; `id` tells entries apart, `failure` holds a failure's backoff. */
  datatype Cached = Cached(id: nat, inserted: nat, expires: nat, staleUntil: nat, failure: Option<nat>)

  datatype Found = Fresh | Failure | StaleNow | Refresh(stale: Option<Cached>, backoff: Option<nat>)

  datatype Query =
    | Looking(key: Key)
    | Missed(key: Key)
    | Waiting(key: Key, flight: nat)
    | Leading(guard: P.Guard)
    | Checked(guard: P.Guard, at: nat)
    | Calling(guard: P.Guard, at: nat)
    | Returned(guard: P.Guard, entry: Option<Cached>)
    | Closing(guard: P.Guard, outcome: P.Outcome)
    | Publishing(guard: P.Guard, signal: P.Signal)

  datatype State = State(
    flights: P.State,
    queries: map<Pid, Query>,
    serveStale: bool,
    store: map<Key, Cached>,
    // Nanoseconds after insertion until which an expired entry is served without a refresh.
    deferred: map<Cached, nat>,
    nextId: nat,
    // History: the last entry a registered leader stored for a key, and the entries that have
    // left the store (expired out, evicted, replaced or flushed).
    last: map<Key, Cached>,
    gone: set<nat>)

  datatype Step =
    | Start(p: Pid, key: Key)
    | Lookup(p: Pid, now: nat)
    | Join(p: Pid)
    | Wake(p: Pid)
    | Cancel(p: Pid)
    | Recheck(p: Pid, now: nat, outcome: P.Outcome)
    | HandOver(p: Pid, task: Pid)
    | Call(p: Pid)
    | Return(p: Pid, entry: Option<Cached>)
    | Store(p: Pid, after: map<Key, Cached>, outcome: P.Outcome)
    | Defer(p: Pid, stale: Cached, until: nat, outcome: P.Outcome)
    | Skip(p: Pid, outcome: P.Outcome)
    | Unregister(p: Pid)
    | Drop(p: Pid)
    | Publish(p: Pid)
    | Lose(after: map<Key, Cached>)

  function Init(keyHash: Key -> P.Hash, serveStale: bool): State {
    State(P.Init(keyHash), map[], serveStale, map[], map[], 0, map[], {})
  }

  const U64_MAX: nat := 0xFFFF_FFFF_FFFF_FFFF

  /** Nanoseconds from the insertion to an instant, none before it, as far as 64 bits go. */
  function Elapsed(e: Cached, now: nat): nat {
    if now < e.inserted then 0 else Min(now - e.inserted, U64_MAX)
  }

  /** The recheck window of a refresh that failed: at least a nanosecond. */
  function Window(e: Cached, until: nat): nat {
    if Elapsed(e, until) < 1 then 1 else Elapsed(e, until)
  }

  /** Starts the entry's recheck window, or extends it; a sooner deadline leaves it as it is. */
  function Deferred(deferred: map<Cached, nat>, e: Cached, until: nat): map<Cached, nat> {
    deferred[e := if e in deferred && Window(e, until) < deferred[e] then deferred[e] else Window(e, until)]
  }

  /** Whether a failed refresh has put off the next one beyond `now`. */
  predicate PutOff(e: Cached, deferred: map<Cached, nat>, now: nat) {
    e in deferred && deferred[e] != 0 && Elapsed(e, now) < deferred[e]
  }

  /** What a stored entry means to a query at `now`. */
  function Classify(entry: Option<Cached>, serveStale: bool, deferred: map<Cached, nat>, now: nat): Found {
    if entry.None? then Refresh(None, None)
    else
      var e := entry.value;
      if e.failure.Some? then if now < e.expires then Failure else Refresh(None, e.failure)
      else if now < e.expires then Fresh
      else if serveStale && now < e.staleUntil then
        if PutOff(e, deferred, now) then StaleNow else Refresh(entry, None)
      else Refresh(None, None)
  }

  /** An expired answer that may still be served. */
  predicate Stale(e: Cached, serveStale: bool, now: nat) {
    e.failure.None? && serveStale && e.expires <= now < e.staleUntil
  }

  /** What an entry means, by its times: every result is given by exactly one case. */
  lemma ClassifyCases(e: Cached, serveStale: bool, deferred: map<Cached, nat>, now: nat)
    ensures var r := Classify(Some(e), serveStale, deferred, now);
      && (r == Fresh <==> e.failure.None? && now < e.expires)
      && (r == Failure <==> e.failure.Some? && now < e.expires)
      && (r == StaleNow <==> Stale(e, serveStale, now) && PutOff(e, deferred, now))
      && (r == Refresh(Some(e), None) <==> Stale(e, serveStale, now) && !PutOff(e, deferred, now))
      && (r.Refresh? && r.backoff.Some? <==> e.failure.Some? && e.expires <= now)
      && (r.Refresh? && r.backoff.Some? ==> r == Refresh(None, e.failure))
      && (r == Refresh(None, None) <==> e.failure.None? && e.expires <= now && !Stale(e, serveStale, now))
    ensures Classify(None, serveStale, deferred, now) == Refresh(None, None)
  {
  }

  function Look(st: State, key: Key, now: nat): Found {
    Classify(if key in st.store then Some(st.store[key]) else None, st.serveStale, st.deferred, now)
  }

  predicate IsSubmap(a: map<Key, Cached>, b: map<Key, Cached>) {
    forall k :: k in a ==> k in b && a[k] == b[k]
  }

  /** The entries of `before` that are not in `after`. */
  function Lost(before: map<Key, Cached>, after: map<Key, Cached>): set<nat> {
    set k | k in before && !(k in after && after[k] == before[k]) :: before[k].id
  }

  function RoleOf(q: Query): P.Role {
    match q
    case Looking(key) => P.Bystander(key)
    case Missed(key) => P.Bystander(key)
    case Waiting(key, flight) => P.Follower(key, flight)
    case Leading(guard) => P.Leader(guard, true)
    case Checked(guard, _) => P.Leader(guard, true)
    case Calling(guard, _) => P.Leader(guard, true)
    case Returned(guard, _) => P.Leader(guard, true)
    case Closing(guard, _) => P.Leader(guard, true)
    case Publishing(guard, _) => P.Leader(guard, false)
  }

  /** The step a resolution step takes in the coalescing protocol, if any. */
  function FlightStep(st: State, step: Step): Option<P.Step> {
    match step
    case Start(p, key) => Some(P.Enter(p, key))
    case Lookup(p, now) =>
      if p in st.queries && st.queries[p].Looking? && !Look(st, st.queries[p].key, now).Refresh? then Some(P.Exit(p)) else None
    case Join(p) => Some(P.JoinOrLead(p))
    case Wake(p) =>
      if p in st.queries && st.queries[p].Waiting? && st.queries[p].flight in st.flights.cells
         && st.flights.cells[st.queries[p].flight].signal.Done? then Some(P.Exit(p)) else Some(P.Retry(p))
    case Cancel(p) => Some(P.Exit(p))
    case HandOver(p, task) => Some(P.HandOver(p, task))
    case Unregister(p) => Some(P.Unregister(p))
    case Drop(p) => Some(P.Unregister(p))
    case Publish(p) =>
      Some(P.Publish(p, if p in st.queries && st.queries[p].Publishing? then st.queries[p].signal else P.Abandoned))
    case Recheck(_, _, _) => None
    case Call(_) => None
    case Return(_, _) => None
    case Store(_, _, _) => None
    case Defer(_, _, _, _) => None
    case Skip(_, _) => None
    case Lose(_) => None
  }

  predicate Ready(st: State, step: Step) {
    match step
    case Start(p, _) => p !in st.queries
    case Lookup(p, _) => p in st.queries && st.queries[p].Looking?
    case Join(p) => p in st.queries && st.queries[p].Missed?
    case Wake(p) =>
      && p in st.queries && st.queries[p].Waiting?
      && st.queries[p].flight in st.flights.cells && st.flights.cells[st.queries[p].flight].signal != P.Pending
    case Cancel(p) => p in st.queries && (st.queries[p].Looking? || st.queries[p].Missed? || st.queries[p].Waiting?)
    case Recheck(p, _, _) => p in st.queries && st.queries[p].Leading?
    case HandOver(p, task) => p in st.queries && st.queries[p].Checked? && task !in st.queries
    case Call(p) => p in st.queries && st.queries[p].Checked?
    case Return(p, entry) => p in st.queries && st.queries[p].Calling? && (entry.Some? ==> entry.value.id == st.nextId)
    case Store(p, after, _) =>
      // The insert may replace and evict anything, itself included.
      && p in st.queries && st.queries[p].Returned? && st.queries[p].entry.Some?
      && IsSubmap(after, st.store[st.queries[p].guard.key := st.queries[p].entry.value])
    case Defer(p, _, _, _) => p in st.queries && st.queries[p].Returned?
    case Skip(p, _) => p in st.queries && st.queries[p].Returned?
    case Unregister(p) => p in st.queries && st.queries[p].Closing?
    case Drop(p) => p in st.queries && (st.queries[p].Leading? || st.queries[p].Checked? || st.queries[p].Calling?)
    case Publish(p) => p in st.queries && st.queries[p].Publishing?
    case Lose(after) => IsSubmap(after, st.store)
  }

  predicate Enabled(st: State, step: Step) {
    Ready(st, step) && (FlightStep(st, step).Some? ==> P.Enabled(st.flights, FlightStep(st, step).value))
  }

  ghost function NextFlights(st: State, step: Step): P.State
    requires Enabled(st, step)
  {
    if FlightStep(st, step).Some? then P.Next(st.flights, FlightStep(st, step).value) else st.flights
  }

  /** Where the stepping query goes; `None` when it is done. */
  ghost function NextQuery(st: State, step: Step, flights: P.State): Option<Query>
    requires Ready(st, step) && !step.Lose?
  {
    match step
    case Start(p, key) => Some(Looking(key))
    case Lookup(p, now) =>
      if Look(st, st.queries[p].key, now).Refresh? then Some(Missed(st.queries[p].key)) else None
    case Join(p) =>
      if p in flights.roles && flights.roles[p].Leader? then Some(Leading(flights.roles[p].guard))
      else if p in flights.roles && flights.roles[p].Follower? then Some(Waiting(flights.roles[p].key, flights.roles[p].flight))
      else None
    case Wake(p) =>
      if st.flights.cells[st.queries[p].flight].signal.Done? then None else Some(Missed(st.queries[p].key))
    case Cancel(p) => None
    case Recheck(p, now, outcome) =>
      var guard := st.queries[p].guard;
      if Look(st, guard.key, now).Refresh? then Some(Checked(guard, now)) else Some(Closing(guard, outcome))
    case HandOver(p, task) => Some(Waiting(st.queries[p].guard.key, st.queries[p].guard.flight))
    case Call(p) => Some(Calling(st.queries[p].guard, st.queries[p].at))
    case Return(p, entry) => Some(Returned(st.queries[p].guard, entry))
    case Store(p, _, outcome) => Some(Closing(st.queries[p].guard, outcome))
    case Defer(p, _, _, outcome) => Some(Closing(st.queries[p].guard, outcome))
    case Skip(p, outcome) => Some(Closing(st.queries[p].guard, outcome))
    case Unregister(p) => Some(Publishing(st.queries[p].guard, P.Done(st.queries[p].outcome)))
    case Drop(p) => Some(Publishing(st.queries[p].guard, P.Abandoned))
    case Publish(p) => None
  }

  ghost function NextQueries(st: State, step: Step, flights: P.State): map<Pid, Query>
    requires Ready(st, step)
  {
    if step.Lose? then st.queries
    else
      var q := NextQuery(st, step, flights);
      var moved := if q.Some? then st.queries[step.p := q.value] else st.queries - {step.p};
      if step.HandOver? then moved[step.task := st.queries[step.p]] else moved
  }

  ghost function Next(st: State, step: Step): State
    requires Enabled(st, step)
  {
    var flights := NextFlights(st, step);
    var moved := st.(flights := flights, queries := NextQueries(st, step, flights));
    match step
    case Return(_, _) => moved.(nextId := st.nextId + 1)
    case Defer(_, stale, until, _) => moved.(deferred := Deferred(st.deferred, stale, until))
    case Store(p, after, _) =>
      var guard, e := st.queries[p].guard, st.queries[p].entry.value;
      moved.(store := after,
             gone := st.gone + Lost(st.store, after) + Lost(map[guard.key := e], after),
             last := if guard.registered then st.last[guard.key := e] else st.last)
    case Lose(after) => moved.(store := after, gone := st.gone + Lost(st.store, after))
    case _ => moved
  }

  ghost predicate CanRun(st: State, steps: seq<Step>)
    decreases |steps|
  {
    steps == [] || (Enabled(st, steps[0]) && CanRun(Next(st, steps[0]), steps[1..]))
  }

  ghost function Run(st: State, steps: seq<Step>): State
    requires CanRun(st, steps)
    decreases |steps|
  {
    if steps == [] then st else Run(Next(st, steps[0]), steps[1..])
  }

  // ---------------------------------------------------------------------------------------
  // Invariants

  /** Every query plays the role its progress says. */
  ghost predicate InRole(st: State) {
    && st.queries.Keys == st.flights.roles.Keys
    && (forall p :: p in st.queries ==> st.flights.roles[p] == RoleOf(st.queries[p]))
  }

  /** The last entry a registered leader stored is still there, or has left the store. */
  ghost predicate LastTracked(st: State) {
    forall k :: k in st.last ==> st.last[k].id in st.gone || (k in st.store && st.store[k] == st.last[k])
  }

  /** For a leader that looked at `at`: the last stored entry of the key is gone or had expired. */
  ghost predicate Excused(st: State, key: Key, at: nat) {
    key in st.last ==> st.last[key].id in st.gone || st.last[key].expires <= at
  }

  predicate Committed(q: Query) {
    (q.Checked? || q.Calling?) && q.guard.registered
  }

  ghost predicate CallsExcused(st: State) {
    forall p :: p in st.queries && Committed(st.queries[p]) ==> Excused(st, st.queries[p].guard.key, st.queries[p].at)
  }

  predicate Carries(q: Query) {
    q.Returned? && q.entry.Some?
  }

  /** Stored entries have distinct ids, none of them gone. */
  ghost predicate GoodIds(store: map<Key, Cached>, gone: set<nat>, next: nat) {
    && (forall id :: id in gone ==> id < next)
    && (forall k :: k in store ==> store[k].id < next && store[k].id !in gone)
    && (forall j, k :: j in store && k in store && j != k ==> store[j].id != store[k].id)
  }

  /** The id belongs to no entry that is or was stored. */
  ghost predicate Unused(store: map<Key, Cached>, gone: set<nat>, next: nat, id: nat) {
    id < next && id !in gone && forall k :: k in store ==> store[k].id != id
  }

  ghost predicate StoredIds(st: State) {
    GoodIds(st.store, st.gone, st.nextId)
  }

  /** An entry about to be stored has an id of its own. */
  ghost predicate CarriedIds(st: State) {
    && (forall p :: p in st.queries && Carries(st.queries[p]) ==>
          Unused(st.store, st.gone, st.nextId, st.queries[p].entry.value.id))
    && (forall p, q :: p in st.queries && q in st.queries && p != q && Carries(st.queries[p]) && Carries(st.queries[q]) ==>
          st.queries[p].entry.value.id != st.queries[q].entry.value.id)
  }

  ghost predicate Inv(st: State) {
    P.Inv(st.flights) && InRole(st) && StoredIds(st) && CarriedIds(st) && LastTracked(st) && CallsExcused(st)
  }

  /** The stepping query ends up in the role its flight step gives it. */
  lemma MoverInRole(st: State, step: Step)
    requires InRole(st) && Enabled(st, step) && !step.Lose?
    ensures var flights := NextFlights(st, step);
      var q := NextQuery(st, step, flights);
      && (q.Some? <==> step.p in flights.roles)
      && (q.Some? ==> flights.roles[step.p] == RoleOf(q.value))
      && (step.HandOver? ==> step.task in flights.roles && flights.roles[step.task] == RoleOf(st.queries[step.p]))
  {
    hide Look, P.Next, P.Enabled;
    if FlightStep(st, step).Some? {
      P.RolesNext(st.flights, FlightStep(st, step).value);
    }
  }

  /** Every other process keeps its role. */
  lemma OthersInRole(st: State, step: Step, q: Pid)
    requires Enabled(st, step) && !step.Lose? && q != step.p && !(step.HandOver? && q == step.task)
    ensures var roles := NextFlights(st, step).roles;
      (q in roles <==> q in st.flights.roles) && (q in roles ==> roles[q] == st.flights.roles[q])
  {
    hide Look, P.Next, P.Enabled;
    if FlightStep(st, step).Some? {
      P.RolesNext(st.flights, FlightStep(st, step).value);
    }
  }

  lemma InRoleNext(st: State, step: Step)
    requires InRole(st) && Enabled(st, step)
    ensures InRole(Next(st, step))
  {
    hide NextFlights, NextQuery, FlightStep, Look, RoleOf, P.Next, P.Enabled;
    if step.Lose? {
      LoseIdle(st, step);
    } else {
      MoverInRole(st, step);
      var after := Next(st, step);
      forall q ensures q in after.queries <==> q in after.flights.roles
        ensures q in after.queries && q in after.flights.roles ==> after.flights.roles[q] == RoleOf(after.queries[q])
      {
        if q != step.p && !(step.HandOver? && q == step.task) {
          OthersInRole(st, step, q);
        }
      }
    }
  }

  lemma LoseIdle(st: State, step: Step)
    requires Enabled(st, step) && step.Lose?
    ensures Next(st, step).flights == st.flights && Next(st, step).queries == st.queries
  {
  }

  lemma LastTrackedNext(st: State, step: Step)
    requires LastTracked(st) && Enabled(st, step)
    ensures LastTracked(Next(st, step))
  {
    hide NextFlights, NextQueries, FlightStep, Look;
  }

  lemma LoseIds(store: map<Key, Cached>, gone: set<nat>, next: nat, after: map<Key, Cached>)
    requires GoodIds(store, gone, next) && IsSubmap(after, store)
    ensures GoodIds(after, gone + Lost(store, after), next)
    ensures forall id :: Unused(store, gone, next, id) ==> Unused(after, gone + Lost(store, after), next, id)
  {
  }

  lemma StoreIds(store: map<Key, Cached>, gone: set<nat>, next: nat, key: Key, e: Cached, after: map<Key, Cached>)
    requires GoodIds(store, gone, next) && Unused(store, gone, next, e.id) && IsSubmap(after, store[key := e])
    ensures var left := gone + Lost(store, after) + Lost(map[key := e], after);
      && GoodIds(after, left, next)
      && forall id :: Unused(store, gone, next, id) && id != e.id ==> Unused(after, left, next, id)
  {
    var left := gone + Lost(store, after) + Lost(map[key := e], after);
    forall k | k in after ensures after[k].id < next && after[k].id !in left {
      if after[k] != e {
        assert k in store && after[k] == store[k];
      }
    }
    hide Lost;
    forall j, k | j in after && k in after && j != k ensures after[j].id != after[k].id {
      assert j in store[key := e] && k in store[key := e];
    }
  }

  lemma StoredIdsNext(st: State, step: Step)
    requires StoredIds(st) && CarriedIds(st) && Enabled(st, step)
    ensures StoredIds(Next(st, step))
  {
    hide GoodIds, Unused, NextFlights, NextQueries, FlightStep, Look, Lost, IsSubmap;
    if step.Store? {
      var me := st.queries[step.p];
      StoreIds(st.store, st.gone, st.nextId, me.guard.key, me.entry.value, step.after);
    } else if step.Lose? {
      LoseIds(st.store, st.gone, st.nextId, step.after);
    } else if step.Return? {
      MoreIds(st.store, st.gone, st.nextId);
    }
  }

  lemma MoreIds(store: map<Key, Cached>, gone: set<nat>, next: nat)
    requires GoodIds(store, gone, next)
    ensures GoodIds(store, gone, next + 1) && Unused(store, gone, next + 1, next)
    ensures forall id :: Unused(store, gone, next, id) ==> Unused(store, gone, next + 1, id) && id != next
  {
  }

  /** An id that was unused stays unused, unless its own entry is being stored. */
  lemma UnusedNext(st: State, step: Step, id: nat)
    requires StoredIds(st) && CarriedIds(st) && Enabled(st, step)
    requires Unused(st.store, st.gone, st.nextId, id) || (step.Return? && id == st.nextId)
    requires step.Store? ==> id != st.queries[step.p].entry.value.id
    ensures var after := Next(st, step); Unused(after.store, after.gone, after.nextId, id)
  {
    hide GoodIds, Unused, NextFlights, NextQueries, FlightStep, Look, Lost, IsSubmap;
    if step.Store? {
      var me := st.queries[step.p];
      StoreIds(st.store, st.gone, st.nextId, me.guard.key, me.entry.value, step.after);
    } else if step.Lose? {
      LoseIds(st.store, st.gone, st.nextId, step.after);
    } else if step.Return? {
      MoreIds(st.store, st.gone, st.nextId);
    }
  }

  /** Queries that carry an entry after a step carried it before, or have just been given it. */
  lemma CarriesBefore(st: State, step: Step, p: Pid)
    requires Enabled(st, step) && p in Next(st, step).queries && Carries(Next(st, step).queries[p])
    ensures (step.Return? && p == step.p && Next(st, step).queries[p].entry.value.id == st.nextId)
      || (p in st.queries && Next(st, step).queries[p] == st.queries[p] && !(step.Store? && p == step.p))
    ensures step.Store? ==> step.p in st.queries && Carries(st.queries[step.p])
  {
    hide NextFlights, FlightStep, Look;
  }

  lemma CarriedIdsNext(st: State, step: Step)
    requires StoredIds(st) && CarriedIds(st) && Enabled(st, step)
    ensures CarriedIds(Next(st, step))
  {
    hide Next, Enabled, GoodIds;
    var after := Next(st, step);
    forall p | p in after.queries && Carries(after.queries[p])
      ensures Unused(after.store, after.gone, after.nextId, after.queries[p].entry.value.id)
    {
      CarriesBefore(st, step, p);
      UnusedNext(st, step, after.queries[p].entry.value.id);
    }
    forall p, q | p in after.queries && q in after.queries && p != q && Carries(after.queries[p]) && Carries(after.queries[q])
      ensures after.queries[p].entry.value.id != after.queries[q].entry.value.id
    {
      CarriesBefore(st, step, p);
      CarriesBefore(st, step, q);
    }
  }

  /** Two registered leaders of one key that are both in charge are one. */
  lemma SoleCommitted(st: State, p1: Pid, p2: Pid, g1: P.Guard, g2: P.Guard)
    requires P.Inv(st.flights) && InRole(st)
    requires p1 in st.queries && RoleOf(st.queries[p1]) == P.Leader(g1, true) && g1.registered
    requires p2 in st.queries && RoleOf(st.queries[p2]) == P.Leader(g2, true) && g2.registered
    requires g1.key == g2.key
    ensures p1 == p2
  {
    hide P.Inv;
    P.SoleLeader(st.flights, p1, p2, g1, g2);
  }

  lemma CallsExcusedStore(st: State, step: Step)
    requires Inv(st) && Enabled(st, step) && step.Store?
    ensures CallsExcused(Next(st, step))
  {
    hide P.Inv, NextFlights, Look, StoredIds, CarriedIds;
    var after := Next(st, step);
    forall p | p in after.queries && Committed(after.queries[p])
      ensures Excused(after, after.queries[p].guard.key, after.queries[p].at)
    {
      var q, me := st.queries[p], st.queries[step.p];
      assert p != step.p && after.queries[p] == q;
      if me.guard.registered && q.guard.key == me.guard.key {
        SoleCommitted(st, p, step.p, q.guard, me.guard);
        assert false;
      }
      assert Excused(st, q.guard.key, q.at);
    }
  }

  lemma CallsExcusedElse(st: State, step: Step)
    requires Inv(st) && Enabled(st, step) && !step.Store?
    ensures CallsExcused(Next(st, step))
  {
    hide P.Inv, InRole, NextFlights, StoredIds, CarriedIds;
    var after := Next(st, step);
    forall p | p in after.queries && Committed(after.queries[p])
      ensures Excused(after, after.queries[p].guard.key, after.queries[p].at)
    {
      if step.Recheck? && p == step.p {
        LookRefresh(st, st.queries[p].guard.key, step.now);
      } else {
        var from := if step.HandOver? && p == step.task then step.p else p;
        assert from in st.queries && Committed(st.queries[from]);
        assert st.queries[from].guard == after.queries[p].guard && st.queries[from].at == after.queries[p].at;
        assert Excused(st, st.queries[from].guard.key, st.queries[from].at);
      }
    }
  }

  /** A lookup that asks for a refresh at `now` found no entry, or one past its expiry. */
  lemma LookRefresh(st: State, key: Key, now: nat)
    ensures Look(st, key, now).Refresh? ==> key !in st.store || st.store[key].expires <= now
    ensures LastTracked(st) && Look(st, key, now).Refresh? ==> Excused(st, key, now)
  {
  }

  lemma NextInv(st: State, step: Step)
    requires Inv(st) && Enabled(st, step)
    ensures Inv(Next(st, step))
  {
    hide P.Inv, P.Enabled, P.Next, InRole, StoredIds, CarriedIds, LastTracked, CallsExcused, Ready, NextQueries;
    InRoleNext(st, step);
    StoredIdsNext(st, step);
    CarriedIdsNext(st, step);
    LastTrackedNext(st, step);
    if step.Store? {
      CallsExcusedStore(st, step);
    } else {
      CallsExcusedElse(st, step);
    }
    if FlightStep(st, step).Some? {
      P.NextInv(st.flights, FlightStep(st, step).value);
    }
  }

  lemma {:induction false} RunInv(st: State, steps: seq<Step>)
    requires Inv(st) && CanRun(st, steps)
    ensures Inv(Run(st, steps))
    decreases |steps|
  {
    hide Inv, Enabled, Next;
    if steps != [] {
      NextInv(st, steps[0]);
      RunInv(Next(st, steps[0]), steps[1..]);
    }
  }

  lemma InitInv(keyHash: Key -> P.Hash, serveStale: bool)
    ensures Inv(Init(keyHash, serveStale))
  {
    P.InitInv(keyHash);
  }

  // ---------------------------------------------------------------------------------------
  // What every run guarantees

  /** Upstream calls by registered leaders of one key never overlap. */
  lemma CallsNeverOverlap(keyHash: Key -> P.Hash, serveStale: bool, steps: seq<Step>, p1: Pid, p2: Pid)
    requires CanRun(Init(keyHash, serveStale), steps)
    requires var st := Run(Init(keyHash, serveStale), steps);
      && p1 in st.queries && st.queries[p1].Calling? && st.queries[p1].guard.registered
      && p2 in st.queries && st.queries[p2].Calling? && st.queries[p2].guard.registered
      && st.queries[p1].guard.key == st.queries[p2].guard.key
    ensures p1 == p2
  {
    InitInv(keyHash, serveStale);
    RunInv(Init(keyHash, serveStale), steps);
    var st := Run(Init(keyHash, serveStale), steps);
    SoleCommitted(st, p1, p2, st.queries[p1].guard, st.queries[p2].guard);
  }

  /**
   Once a registered leader has stored an entry for a key, answer or failure, a later registered
   leader of that key goes on from its look to an upstream call only if the entry has left the store
   or had expired when that leader looked. In the state the look leads to, where the leader is
   `Checked`, the entry can only have left before the look.
   */
  lemma CallsOnlyWhenNeeded(keyHash: Key -> P.Hash, serveStale: bool, steps: seq<Step>, p: Pid)
    requires CanRun(Init(keyHash, serveStale), steps)
    requires var st := Run(Init(keyHash, serveStale), steps);
      p in st.queries && Committed(st.queries[p])
    ensures var st := Run(Init(keyHash, serveStale), steps);
      var key := st.queries[p].guard.key;
      key in st.last ==>
        || (st.last[key].id in st.gone && forall k :: k in st.store ==> st.store[k].id != st.last[key].id)
        || st.last[key].expires <= st.queries[p].at
  {
    InitInv(keyHash, serveStale);
    RunInv(Init(keyHash, serveStale), steps);
    var st := Run(Init(keyHash, serveStale), steps);
    assert Excused(st, st.queries[p].guard.key, st.queries[p].at);
  }

  /** A leader whose look lets it go on looked when the last stored entry of its key had left or expired. */
  lemma LooksOnlyWhenNeeded(keyHash: Key -> P.Hash, serveStale: bool, steps: seq<Step>, p: Pid, now: nat, outcome: P.Outcome)
    requires CanRun(Init(keyHash, serveStale), steps)
    requires var st := Run(Init(keyHash, serveStale), steps);
      && Enabled(st, Recheck(p, now, outcome))
      && var after := Next(st, Recheck(p, now, outcome)).queries;
      p in after && after[p].Checked?
    ensures var st := Run(Init(keyHash, serveStale), steps);
      var key := st.queries[p].guard.key;
      key in st.last ==>
        || (st.last[key].id in st.gone && forall k :: k in st.store ==> st.store[k].id != st.last[key].id)
        || st.last[key].expires <= now
  {
    hide CanRun, Run, P.Inv, P.Enabled, P.Next;
    InitInv(keyHash, serveStale);
    RunInv(Init(keyHash, serveStale), steps);
    var st := Run(Init(keyHash, serveStale), steps);
    LookRefresh(st, st.queries[p].guard.key, now);
  }
}
