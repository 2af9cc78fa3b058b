/**
 In-flight coalescing: the registry of flights, their watch channels, leader guards and
 followers. Any number of queries interleave; unregistering and publishing are separate steps.
 */
module FlightProtocol {
  import opened Base

  type Key = seq<byte>
  type Hash = nat
  type Pid = nat

  /** What a leader publishes; `tag` stands for the answer, error or stale entry. */
  datatype Outcome = Outcome(tag: nat)

  datatype Signal = Pending | Done(outcome: Outcome) | Abandoned

  /** A flight's watch channel, with the key it was opened for and the holder of its guard. */
  datatype Cell = Cell(key: Key, leader: Pid, signal: Signal)

  datatype Registered = Registered(key: Key, flight: nat)

  /** A leader guard. A private flight is not registered. */
  datatype Guard = Guard(key: Key, flight: nat, registered: bool)

  /** A query outside any flight, subscribed to one, or holding a guard (`charge`: not yet unregistered). */
  datatype Role = Bystander(key: Key) | Follower(key: Key, flight: nat) | Leader(guard: Guard, charge: bool)

  datatype State = State(
    keyHash: Key -> Hash,
    registry: map<Hash, Registered>,
    cells: map<nat, Cell>,
    nextFlight: nat,
    roles: map<Pid, Role>,
    // History: how every closed flight ended.
    verdicts: map<nat, Signal>)

  datatype Step =
    | Enter(p: Pid, key: Key)
    | Exit(p: Pid)
    | JoinOrLead(p: Pid)
    | Retry(p: Pid)
    | HandOver(p: Pid, task: Pid)
    | Unregister(p: Pid)
    | Publish(p: Pid, signal: Signal)

  function Init(keyHash: Key -> Hash): State {
    State(keyHash, map[], map[], 0, map[], map[])
  }

  predicate Enabled(st: State, step: Step) {
    match step
    case Enter(p, _) => p !in st.roles
    case Exit(p) => p in st.roles && !st.roles[p].Leader?
    case JoinOrLead(p) => p in st.roles && st.roles[p].Bystander?
    case Retry(p) =>
      && p in st.roles && st.roles[p].Follower?
      && st.roles[p].flight in st.cells && st.cells[st.roles[p].flight].signal != Pending
    case HandOver(p, task) =>
      && p in st.roles && st.roles[p].Leader? && st.roles[p].charge && task !in st.roles
      && st.roles[p].guard.flight in st.cells
    case Unregister(p) => p in st.roles && st.roles[p].Leader? && st.roles[p].charge
    case Publish(p, signal) =>
      && p in st.roles && st.roles[p].Leader? && !st.roles[p].charge && signal != Pending
      && st.roles[p].guard.flight in st.cells
  }

  ghost predicate HasFollower(st: State, flight: nat) {
    exists p :: p in st.roles && st.roles[p].Follower? && st.roles[p].flight == flight
  }

  /** Joins the flight of `key`, or opens one: registered, or private when another key has the hash. */
  function Joined(st: State, p: Pid, key: Key): State {
    var h := st.keyHash(key);
    if h in st.registry && st.registry[h].key == key then
      st.(roles := st.roles[p := Follower(key, st.registry[h].flight)])
    else if h in st.registry then
      Open(st, p, Guard(key, st.nextFlight, false))
    else
      Open(st, p, Guard(key, st.nextFlight, true)).(registry := st.registry[h := Registered(key, st.nextFlight)])
  }

  function Open(st: State, p: Pid, guard: Guard): State {
    st.(nextFlight := st.nextFlight + 1,
        cells := st.cells[st.nextFlight := Cell(guard.key, p, Pending)],
        roles := st.roles[p := Leader(guard, true)])
  }

  /** The registry without a guard's flight, if that flight is what is registered. */
  function Unregistered(st: State, guard: Guard): map<Hash, Registered> {
    var h := st.keyHash(guard.key);
    if guard.registered && h in st.registry && st.registry[h].flight == guard.flight then st.registry - {h} else st.registry
  }

  /** A finished flight is published only if someone follows it; a dropped one always. */
  ghost function Closed(st: State, p: Pid, flight: nat, signal: Signal): State
    requires flight in st.cells
  {
    st.(roles := st.roles - {p},
        verdicts := st.verdicts[flight := signal],
        cells := if signal == Abandoned || HasFollower(st, flight)
                 then st.cells[flight := st.cells[flight].(signal := signal)] else st.cells)
  }

  ghost function Next(st: State, step: Step): State
    requires Enabled(st, step)
  {
    match step
    case Enter(p, key) => st.(roles := st.roles[p := Bystander(key)])
    case Exit(p) => st.(roles := st.roles - {p})
    case JoinOrLead(p) => Joined(st, p, st.roles[p].key)
    case Retry(p) => st.(roles := st.roles[p := Bystander(st.roles[p].key)])
    case HandOver(p, task) =>
      var g := st.roles[p].guard;
      st.(roles := st.roles[p := Follower(g.key, g.flight)][task := Leader(g, true)],
          cells := st.cells[g.flight := st.cells[g.flight].(leader := task)])
    case Unregister(p) =>
      var g := st.roles[p].guard;
      st.(registry := Unregistered(st, g), roles := st.roles[p := Leader(g, false)])
    case Publish(p, signal) => Closed(st, p, st.roles[p].guard.flight, signal)
  }

  ghost predicate CanRun(st: State, steps: seq<Step>)
    decreases |steps|
  {
    steps == [] || (Enabled(st, steps[0]) && CanRun(Next(st, steps[0]), steps[1..]))
  }

  ghost function Run(st: State, steps: seq<Step>): State
    requires CanRun(st, steps)
    decreases |steps|
  {
    if steps == [] then st else Run(Next(st, steps[0]), steps[1..])
  }

  // ---------------------------------------------------------------------------------------
  // Invariants

  /** Flight numbers are allotted once. */
  ghost predicate Numbered(st: State) {
    && (forall flight :: flight in st.cells ==> flight < st.nextFlight)
    && (forall flight :: flight in st.verdicts ==> flight in st.cells)
  }

  /** A guard's flight is open, bears the guard's key and names the guard's holder. */
  ghost predicate GuardsHold(st: State) {
    forall p :: p in st.roles && st.roles[p].Leader? ==> Holds(st, p, st.roles[p].guard)
  }

  ghost predicate Holds(st: State, p: Pid, g: Guard) {
    g.flight in st.cells && g.flight !in st.verdicts && st.cells[g.flight] == Cell(g.key, p, Pending)
  }

  /** An open flight has a guard. */
  ghost predicate OpenIsLed(st: State) {
    forall flight :: flight in st.cells && flight !in st.verdicts ==> Led(st, flight, st.cells[flight].leader)
  }

  ghost predicate Led(st: State, flight: nat, p: Pid) {
    p in st.roles && st.roles[p].Leader? && st.roles[p].guard.flight == flight
  }

  /** A registered guard is in the registry until it unregisters. */
  ghost predicate GuardsRegistered(st: State) {
    forall p :: p in st.roles && st.roles[p].Leader? && st.roles[p].charge && st.roles[p].guard.registered ==>
      IsRegistered(st, st.roles[p].guard)
  }

  /** Everything in the registry belongs to such a guard. */
  ghost predicate RegistryLed(st: State) {
    forall h :: h in st.registry ==> HasLeader(st, h, st.registry[h])
  }

  ghost predicate IsRegistered(st: State, g: Guard) {
    st.keyHash(g.key) in st.registry && st.registry[st.keyHash(g.key)] == Registered(g.key, g.flight)
  }

  ghost predicate HasLeader(st: State, h: Hash, r: Registered) {
    && st.keyHash(r.key) == h && r.flight in st.cells
    && st.cells[r.flight].leader in st.roles
    && st.roles[st.cells[r.flight].leader] == Leader(Guard(r.key, r.flight, true), true)
  }

  /** A follower waits on a flight of its own key, and sees the verdict of a closed one. */
  ghost predicate FollowersSee(st: State) {
    forall p :: p in st.roles && st.roles[p].Follower? ==> Sees(st, st.roles[p].key, st.roles[p].flight)
  }

  ghost predicate Sees(st: State, key: Key, flight: nat) {
    && flight in st.cells && st.cells[flight].key == key
    && (flight in st.verdicts ==> st.verdicts[flight] != Pending && st.cells[flight].signal == st.verdicts[flight])
  }

  ghost predicate Inv(st: State) {
    Numbered(st) && GuardsHold(st) && OpenIsLed(st) && GuardsRegistered(st) && RegistryLed(st) && FollowersSee(st)
  }

  lemma InitInv(keyHash: Key -> Hash)
    ensures Inv(Init(keyHash))
  {
  }

  /** Only the stepping process, and a task it hands over to, change roles. */
  lemma RolesNext(st: State, step: Step)
    requires Enabled(st, step)
    ensures var after := Next(st, step).roles;
      && (forall q :: q != step.p && !(step.HandOver? && q == step.task) ==>
            (q in after <==> q in st.roles) && (q in st.roles ==> after[q] == st.roles[q]))
      && (step.Enter? ==> step.p in after && after[step.p] == Bystander(step.key))
      && (step.Exit? || step.Publish? ==> step.p !in after)
      && (step.JoinOrLead? ==> step.p in after && (after[step.p].Leader? || after[step.p].Follower?))
      && (step.JoinOrLead? && after[step.p].Leader? ==> after[step.p].charge)
      && (step.Retry? ==> step.p in after && after[step.p] == Bystander(st.roles[step.p].key))
      && (step.HandOver? ==> step.task in after && after[step.task] == st.roles[step.p])
      && (step.HandOver? ==> step.p in after && after[step.p] == Follower(st.roles[step.p].guard.key, st.roles[step.p].guard.flight))
      && (step.Unregister? ==> step.p in after && after[step.p] == Leader(st.roles[step.p].guard, false))
  {
  }

  lemma NumberedNext(st: State, step: Step)
    requires Numbered(st) && Enabled(st, step)
    ensures Numbered(Next(st, step))
  {
  }

  lemma GuardsHoldNext(st: State, step: Step)
    requires Numbered(st) && GuardsHold(st) && Enabled(st, step)
    ensures GuardsHold(Next(st, step))
  {
  }

  lemma OpenIsLedNext(st: State, step: Step)
    requires Numbered(st) && GuardsHold(st) && OpenIsLed(st) && Enabled(st, step)
    ensures OpenIsLed(Next(st, step))
  {
  }

  lemma GuardsRegisteredNext(st: State, step: Step)
    requires GuardsHold(st) && GuardsRegistered(st) && RegistryLed(st) && Enabled(st, step)
    ensures GuardsRegistered(Next(st, step))
  {
  }

  lemma RegistryLedNext(st: State, step: Step)
    requires Numbered(st) && GuardsHold(st) && GuardsRegistered(st) && RegistryLed(st) && Enabled(st, step)
    ensures RegistryLed(Next(st, step))
  {
    hide RegistryLed, Next, Enabled;
    forall h | h in Next(st, step).registry ensures HasLeader(Next(st, step), h, Next(st, step).registry[h]) {
      RegistryLedAt(st, step, h);
    }
    LedIf(Next(st, step));
  }

  lemma LedIf(st: State)
    requires forall h :: h in st.registry ==> HasLeader(st, h, st.registry[h])
    ensures RegistryLed(st)
  {
  }

  lemma RegistryLedAt(st: State, step: Step, h: Hash)
    requires Numbered(st) && GuardsHold(st) && GuardsRegistered(st) && RegistryLed(st) && Enabled(st, step)
    requires h in Next(st, step).registry
    ensures HasLeader(Next(st, step), h, Next(st, step).registry[h])
  {
    hide RegistryLed;
    if step.JoinOrLead? {
      assert h in st.registry ==> HasLeader(st, h, st.registry[h]) by {
        LedAt(st, h);
      }
    } else {
      LedAt(st, h);
      KeepsLeader(st, step, h);
    }
  }

  lemma LedAt(st: State, h: Hash)
    requires RegistryLed(st)
    ensures h in st.registry ==> HasLeader(st, h, st.registry[h])
  {
  }

  /** A step that opens no flight leaves every registered flight a leader. */
  lemma KeepsLeader(st: State, step: Step, h: Hash)
    requires GuardsHold(st) && GuardsRegistered(st) && Enabled(st, step) && !step.JoinOrLead?
    requires h in st.registry && HasLeader(st, h, st.registry[h]) && h in Next(st, step).registry
    ensures HasLeader(Next(st, step), h, Next(st, step).registry[h])
  {
  }

  lemma FollowersSeeNext(st: State, step: Step)
    requires Numbered(st) && GuardsHold(st) && RegistryLed(st) && FollowersSee(st) && Enabled(st, step)
    ensures FollowersSee(Next(st, step))
  {
  }

  lemma NextInv(st: State, step: Step)
    requires Inv(st) && Enabled(st, step)
    ensures Inv(Next(st, step))
  {
    hide Numbered, GuardsHold, OpenIsLed, GuardsRegistered, RegistryLed, FollowersSee, Enabled, Next;
    NumberedNext(st, step);
    GuardsHoldNext(st, step);
    OpenIsLedNext(st, step);
    GuardsRegisteredNext(st, step);
    RegistryLedNext(st, step);
    FollowersSeeNext(st, step);
  }

  lemma {:induction false} RunInv(st: State, steps: seq<Step>)
    requires Inv(st) && CanRun(st, steps)
    ensures Inv(Run(st, steps))
    decreases |steps|
  {
    hide Inv, Enabled, Next;
    if steps != [] {
      NextInv(st, steps[0]);
      RunInv(Next(st, steps[0]), steps[1..]);
    }
  }

  // ---------------------------------------------------------------------------------------
  // What every run guarantees

  /**
   No follower is stranded: its flight is either closed, and then it sees exactly how the flight
   ended and can go on, or still led by a process that has yet to close it.
   */
  lemma NoFollowerStranded(keyHash: Key -> Hash, steps: seq<Step>, p: Pid)
    requires CanRun(Init(keyHash), steps)
    requires var st := Run(Init(keyHash), steps); p in st.roles && st.roles[p].Follower?
    ensures var st := Run(Init(keyHash), steps);
      var flight := st.roles[p].flight;
      && flight in st.cells && st.cells[flight].key == st.roles[p].key
      && if flight in st.verdicts then st.cells[flight].signal == st.verdicts[flight] && Enabled(st, Retry(p))
         else Led(st, flight, st.cells[flight].leader)
  {
    InitInv(keyHash);
    RunInv(Init(keyHash), steps);
  }

  /** At most one registered leader is in charge of a hash. */
  lemma OneLeaderPerHash(keyHash: Key -> Hash, steps: seq<Step>, p1: Pid, p2: Pid, g1: Guard, g2: Guard)
    requires CanRun(Init(keyHash), steps)
    requires var st := Run(Init(keyHash), steps);
      && p1 in st.roles && st.roles[p1] == Leader(g1, true) && g1.registered
      && p2 in st.roles && st.roles[p2] == Leader(g2, true) && g2.registered
    requires keyHash(g1.key) == keyHash(g2.key)
    ensures p1 == p2
  {
    InitInv(keyHash);
    RunInv(Init(keyHash), steps);
    RunHash(Init(keyHash), steps);
    SoleLeader(Run(Init(keyHash), steps), p1, p2, g1, g2);
  }

  lemma SoleLeader(st: State, p1: Pid, p2: Pid, g1: Guard, g2: Guard)
    requires Inv(st)
    requires p1 in st.roles && st.roles[p1] == Leader(g1, true) && g1.registered
    requires p2 in st.roles && st.roles[p2] == Leader(g2, true) && g2.registered
    requires st.keyHash(g1.key) == st.keyHash(g2.key)
    ensures p1 == p2
  {
    assert Holds(st, p1, g1) && Holds(st, p2, g2) && IsRegistered(st, g1) && IsRegistered(st, g2);
  }

  lemma {:induction false} RunHash(st: State, steps: seq<Step>)
    requires CanRun(st, steps)
    ensures Run(st, steps).keyHash == st.keyHash
    decreases |steps|
  {
    if steps != [] {
      RunHash(Next(st, steps[0]), steps[1..]);
    }
  }

  // ---------------------------------------------------------------------------------------
  // Keys that do not collide: every leader is registered

  /** No two of these keys share a hash. */
  ghost predicate NoCollision(keyHash: Key -> Hash, keys: set<Key>) {
    forall j, k :: j in keys && k in keys && keyHash(j) == keyHash(k) ==> j == k
  }

  function RoleKey(r: Role): Key {
    if r.Leader? then r.guard.key else r.key
  }

  /** Queries are for keys of the set, and all guards are registered ones. */
  ghost predicate NonePrivate(st: State, keys: set<Key>) {
    forall p :: p in st.roles ==>
      RoleKey(st.roles[p]) in keys && (st.roles[p].Leader? ==> st.roles[p].guard.registered)
  }

  lemma NonePrivateNext(st: State, step: Step, keys: set<Key>)
    requires Inv(st) && NonePrivate(st, keys) && NoCollision(st.keyHash, keys) && Enabled(st, step)
    requires step.Enter? ==> step.key in keys
    ensures NonePrivate(Next(st, step), keys)
  {
    hide Inv;
    if step.JoinOrLead? {
      var key := st.roles[step.p].key;
      var h := st.keyHash(key);
      assert h in st.registry ==> st.registry[h].key == key by {
        RegisteredKey(st, h, keys);
        assert RoleKey(st.roles[step.p]) in keys;
      }
    }
  }

  lemma SameHashes(st: State, step: Step)
    requires Enabled(st, step)
    ensures Next(st, step).keyHash == st.keyHash
  {
  }

  /** What is registered under a hash is a key of the set with that hash. */
  lemma RegisteredKey(st: State, h: Hash, keys: set<Key>)
    requires Inv(st) && NonePrivate(st, keys)
    ensures h in st.registry ==> st.registry[h].key in keys && st.keyHash(st.registry[h].key) == h
  {
    if h in st.registry {
      assert HasLeader(st, h, st.registry[h]);
      assert RoleKey(st.roles[st.cells[st.registry[h].flight].leader]) in keys;
    }
  }

  /** Unregistering removes the caller's own registration and no other; a private flight removes nothing. */
  lemma UnregistersOnlyItself(st: State, p: Pid)
    requires Inv(st) && Enabled(st, Unregister(p))
    ensures var g, after := st.roles[p].guard, Next(st, Unregister(p)).registry;
      && (g.registered ==> IsRegistered(st, g) && after == st.registry - {st.keyHash(g.key)})
      && (!g.registered ==> after == st.registry)
  {
    assert st.roles[p].guard.registered ==> IsRegistered(st, st.roles[p].guard);
    if !st.roles[p].guard.registered {
      assert Unregistered(st, st.roles[p].guard) == st.registry;
    }
  }
}

/** The registry and its guards as an object; every method takes the protocol steps of its source. */
module FlightsClass {
  import opened Base
  import P = FlightProtocol

  datatype Join = Follow(flight: nat) | Lead(guard: P.Guard)

  /** The receivers of a channel are the followers of its flight. */
  ghost predicate Subscribed(receivers: map<nat, set<P.Pid>>, cells: map<nat, P.Cell>, roles: map<P.Pid, P.Role>) {
    && receivers.Keys == cells.Keys
    && (forall flight, p :: flight in receivers ==>
          (p in receivers[flight] <==> p in roles && roles[p].Follower? && roles[p].flight == flight))
  }

  /** Unregistering and then publishing, as two steps of the protocol. */
  ghost predicate Ends(before: P.State, p: P.Pid, signal: P.Signal, after: P.State) {
    && P.Enabled(before, P.Unregister(p))
    && var mid := P.Next(before, P.Unregister(p));
    && P.Enabled(mid, P.Publish(p, signal)) && after == P.Next(mid, P.Publish(p, signal))
  }

  class Flights {
    const keyHash: P.Key -> P.Hash
    var registry: map<P.Hash, P.Registered>
    var cells: map<nat, P.Cell>
    var nextFlight: nat
    // The receivers subscribed to each flight's channel.
    var receivers: map<nat, set<P.Pid>>
    ghost var roles: map<P.Pid, P.Role>
    ghost var verdicts: map<nat, P.Signal>

    ghost function Abs(): P.State
      reads this
    {
      P.State(keyHash, registry, cells, nextFlight, roles, verdicts)
    }

    ghost predicate Valid()
      reads this
    {
      P.Inv(Abs()) && Subscribed(receivers, cells, roles)
    }

    constructor (keyHash: P.Key -> P.Hash)
      ensures Valid() && Abs() == P.Init(keyHash)
    {
      this.keyHash := keyHash;
      registry, cells, nextFlight, receivers := map[], map[], 0, map[];
      roles, verdicts := map[], map[];
      new;
      P.InitInv(keyHash);
    }

    /** A query arrives; it is in no flight yet. */
    ghost method Enter(p: P.Pid, key: P.Key)
      requires Valid() && p !in roles
      modifies `roles
      ensures Valid() && Abs() == P.Next(old(Abs()), P.Enter(p, key)) && roles == old(roles)[p := P.Bystander(key)]
    {
      hide P.Inv;
      P.NextInv(Abs(), P.Enter(p, key));
      roles := roles[p := P.Bystander(key)];
    }

    /** A query outside any flight goes away. */
    ghost method Leave(p: P.Pid)
      requires Valid() && p in roles && roles[p].Bystander?
      modifies `roles
      ensures Valid() && Abs() == P.Next(old(Abs()), P.Exit(p)) && p !in roles
    {
      hide P.Inv;
      P.NextInv(Abs(), P.Exit(p));
      roles := roles - {p};
    }

    /** A follower is dropped: its receiver unsubscribes. */
    method Unsubscribe(p: P.Pid, key: P.Key, flight: nat)
      requires Valid() && p in roles && roles[p] == P.Follower(key, flight)
      modifies `receivers, `roles
      ensures Valid() && Abs() == P.Next(old(Abs()), P.Exit(p)) && p !in roles
    {
      hide P.Inv;
      Fresh();
      P.NextInv(Abs(), P.Exit(p));
      receivers := receivers[flight := receivers[flight] - {p}];
      roles := roles - {p};
    }

    /** A follower whose flight is closed takes the outcome and leaves, or is told to join again. */
    method Wait(p: P.Pid, key: P.Key, flight: nat) returns (outcome: Option<P.Outcome>)
      requires Valid() && p in roles && roles[p] == P.Follower(key, flight)
      requires flight in cells && cells[flight].signal != P.Pending
      modifies `receivers, `roles
      ensures Valid()
      ensures cells[flight].signal.Done? ==>
        outcome == Some(cells[flight].signal.outcome) && Abs() == P.Next(old(Abs()), P.Exit(p))
      ensures cells[flight].signal == P.Abandoned ==> outcome.None? && Abs() == P.Next(old(Abs()), P.Retry(p))
    {
      hide P.Inv;
      Fresh();
      match cells[flight].signal
      case Done(result) =>
        Unsubscribe(p, key, flight);
        return Some(result);
      case Abandoned =>
        P.NextInv(Abs(), P.Retry(p));
        receivers := receivers[flight := receivers[flight] - {p}];
        roles := roles[p := P.Bystander(key)];
        return None;
    }

    /** The leader hands its guard to a background task and follows the flight itself. */
    method HandOver(p: P.Pid, guard: P.Guard, task: P.Pid)
      requires Valid() && p in roles && roles[p] == P.Leader(guard, true) && task !in roles
      modifies `receivers, `cells, `roles
      ensures Valid() && P.Enabled(old(Abs()), P.HandOver(p, task)) && Abs() == P.Next(old(Abs()), P.HandOver(p, task))
    {
      hide P.Inv;
      Fresh();
      P.NextInv(Abs(), P.HandOver(p, task));
      receivers := receivers[guard.flight := receivers[guard.flight] + {p}];
      cells := cells[guard.flight := cells[guard.flight].(leader := task)];
      roles := roles[p := P.Follower(guard.key, guard.flight)][task := P.Leader(guard, true)];
    }

    /** Joins the flight for the caller's key, or leads a new one. */
    method JoinOrLead(p: P.Pid, key: P.Key) returns (join: Join)
      requires Valid() && p in roles && roles[p] == P.Bystander(key)
      modifies this
      ensures Valid() && Abs() == P.Next(old(Abs()), P.JoinOrLead(p))
      ensures p in roles && roles[p] == if join.Follow? then P.Follower(key, join.flight) else P.Leader(join.guard, true)
      ensures keyHash(key) !in old(registry) ==>
        && join.Lead? && join.guard.key == key && join.guard.registered && join.guard.flight !in old(cells)
        && registry == old(registry)[keyHash(key) := P.Registered(key, join.guard.flight)]
      ensures keyHash(key) in old(registry) && old(registry)[keyHash(key)].key == key ==>
        join == Follow(old(registry)[keyHash(key)].flight) && registry == old(registry) && cells == old(cells)
      ensures keyHash(key) in old(registry) && old(registry)[keyHash(key)].key != key ==>
        && join.Lead? && join.guard.key == key && !join.guard.registered && join.guard.flight !in old(cells)
        && registry == old(registry)
    {
      hide P.Inv, Subscribed;
      P.NextInv(Abs(), P.JoinOrLead(p));
      Fresh();
      var hash := keyHash(key);
      if hash in registry && registry[hash].key == key {
        var flight := registry[hash].flight;
        Subscribe(p, key, flight);
        return Follow(flight);
      }
      var guard := P.Guard(key, nextFlight, hash !in registry);
      if hash !in registry {
        registry := registry[hash := P.Registered(key, nextFlight)];
      }
      OpenFlight(p, guard);
      return Lead(guard);
    }

    method Subscribe(p: P.Pid, key: P.Key, flight: nat)
      requires Subscribed(receivers, cells, roles) && p in roles && roles[p] == P.Bystander(key)
      requires flight in cells
      modifies `receivers, `roles
      ensures Subscribed(receivers, cells, roles) && roles == old(roles)[p := P.Follower(key, flight)]
    {
      receivers := receivers[flight := receivers[flight] + {p}];
      roles := roles[p := P.Follower(key, flight)];
    }

    method OpenFlight(p: P.Pid, guard: P.Guard)
      requires Subscribed(receivers, cells, roles) && p in roles && roles[p] == P.Bystander(guard.key) && nextFlight !in cells
      requires forall q :: q in roles && roles[q].Follower? ==> roles[q].flight in cells
      modifies `cells, `receivers, `nextFlight, `roles
      ensures Subscribed(receivers, cells, roles) && Abs() == P.Open(old(Abs()), p, guard)
      ensures p in roles && roles[p] == P.Leader(guard, true)
    {
      cells := cells[nextFlight := P.Cell(guard.key, p, P.Pending)];
      receivers := receivers[nextFlight := {}];
      nextFlight := nextFlight + 1;
      roles := roles[p := P.Leader(guard, true)];
    }

    lemma Fresh()
      requires P.Inv(Abs())
      ensures nextFlight !in cells
      ensures forall h :: h in registry ==> registry[h].flight in cells
      ensures forall p :: p in roles && roles[p].Follower? ==> roles[p].flight in cells
      ensures forall p :: p in roles && roles[p].Leader? ==> roles[p].guard.flight in cells
    {
      assert forall h :: h in registry ==> P.HasLeader(Abs(), h, registry[h]);
      assert forall p :: p in roles && roles[p].Follower? ==> P.Sees(Abs(), roles[p].key, roles[p].flight);
      assert forall p :: p in roles && roles[p].Leader? ==> P.Holds(Abs(), p, roles[p].guard);
    }

    /** Removes the guard's registration, if it is the guard's. */
    method Unregister(p: P.Pid, guard: P.Guard)
      requires Valid() && p in roles && roles[p] == P.Leader(guard, true)
      modifies `registry, `roles
      ensures Valid() && P.Enabled(old(Abs()), P.Unregister(p)) && Abs() == P.Next(old(Abs()), P.Unregister(p))
      ensures roles == old(roles)[p := P.Leader(guard, false)]
    {
      hide P.Inv;
      P.NextInv(Abs(), P.Unregister(p));
      var hash := keyHash(guard.key);
      if guard.registered && hash in registry && registry[hash].flight == guard.flight {
        registry := registry - {hash};
      }
      roles := roles[p := P.Leader(guard, false)];
    }

    lemma Receivers(flight: nat)
      requires Subscribed(receivers, cells, roles) && flight in cells
      ensures flight in receivers && (receivers[flight] != {} <==> P.HasFollower(Abs(), flight))
    {
      if P.HasFollower(Abs(), flight) {
        var p :| p in roles && roles[p].Follower? && roles[p].flight == flight;
        assert p in receivers[flight];
      }
      if receivers[flight] != {} {
        var p :| p in receivers[flight];
        assert p in roles && roles[p].Follower? && roles[p].flight == flight;
      }
    }

    /** Closes an unregistered flight: a finished one signals only if it has receivers. */
    method Close(p: P.Pid, guard: P.Guard, signal: P.Signal)
      requires Valid() && p in roles && roles[p] == P.Leader(guard, false) && signal != P.Pending
      modifies `cells, `roles, `verdicts
      ensures Valid() && P.Enabled(old(Abs()), P.Publish(p, signal)) && Abs() == P.Next(old(Abs()), P.Publish(p, signal))
      ensures p !in roles && guard.flight in verdicts && verdicts[guard.flight] == signal
      ensures guard.flight in cells && (signal == P.Abandoned ==> cells[guard.flight].signal == signal)
    {
      hide P.Inv, P.HasFollower;
      Fresh();
      Receivers(guard.flight);
      P.NextInv(Abs(), P.Publish(p, signal));
      if signal == P.Abandoned || receivers[guard.flight] != {} {
        cells := cells[guard.flight := cells[guard.flight].(signal := signal)];
      }
      roles := roles - {p};
      verdicts := verdicts[guard.flight := signal];
      assert Abs() == P.Next(old(Abs()), P.Publish(p, signal));
    }

    /** Every follower of a closed flight sees how it ended. */
    lemma Verdict(flight: nat)
      requires P.Inv(Abs()) && flight in verdicts
      ensures forall q :: q in roles && roles[q].Follower? && roles[q].flight == flight ==>
        flight in cells && cells[flight].signal == verdicts[flight]
    {
      assert forall q :: q in roles && roles[q].Follower? ==> P.Sees(Abs(), roles[q].key, roles[q].flight);
    }

    /** Unregisters the flight, then publishes the outcome to those who joined. */
    method Finish(p: P.Pid, guard: P.Guard, outcome: P.Outcome)
      requires Valid() && p in roles && roles[p] == P.Leader(guard, true)
      modifies this
      ensures Valid() && p !in roles && Ends(old(Abs()), p, P.Done(outcome), Abs())
      ensures forall q :: q in roles && roles[q].Follower? && roles[q].flight == guard.flight ==>
        guard.flight in cells && cells[guard.flight].signal == P.Done(outcome)
    {
      hide P.Inv, P.Next, Subscribed;
      Unregister(p, guard);
      Close(p, guard, P.Done(outcome));
      Verdict(guard.flight);
    }

    /** A dropped guard unregisters its flight and tells every follower to retry. */
    method Drop(p: P.Pid, guard: P.Guard)
      requires Valid() && p in roles && roles[p] == P.Leader(guard, true)
      modifies this
      ensures Valid() && p !in roles && Ends(old(Abs()), p, P.Abandoned, Abs())
      ensures guard.flight in cells && cells[guard.flight].signal == P.Abandoned
    {
      hide P.Inv, P.Next, Subscribed;
      Unregister(p, guard);
      Close(p, guard, P.Abandoned);
    }
  }
}
