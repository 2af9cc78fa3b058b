/**
 The flush protocol: flushes bump the epoch and then sweep the shards one lock at a time, while
 queries that read the epoch earlier try to store their answers. Any number of queries, flushes
 and shards interleave; a lock is held across several steps.
 */
module FlushProtocol {
  import opened Base

  type Key = seq<byte>
  type Pid = nat

  /** A stored answer: the epoch its upstream call read, and the step at which it read it. */
  datatype Entry = Entry(key: Key, epoch: nat, readAt: nat)

  datatype Query =
    | Asked(epoch: nat, readAt: nat)
    | Holding(epoch: nat, readAt: nat, shard: nat, key: Key)
    | Checked(epoch: nat, readAt: nat, shard: nat, key: Key, allowed: bool)

  /** A flush has swept the shards below `next`; `holding` tells whether it has locked shard `next`. */
  datatype Flush = Flush(matches: Key -> bool, epoch: nat, bumpedAt: nat, next: nat, holding: bool)

  datatype Owner = Nobody | ByQuery(q: Pid) | ByFlush(f: Pid)

  datatype State = State(
    clock: nat,
    epoch: nat,
    shards: seq<set<Entry>>,
    owners: seq<Owner>,
    queries: map<Pid, Query>,
    flushes: map<Pid, Flush>)

  datatype Step =
    | ReadEpoch(q: Pid)
    | LockForInsert(q: Pid, shard: nat, key: Key)
    | CheckEpoch(q: Pid)
    | StoreAndUnlock(q: Pid, after: set<Entry>)
    | Leave(q: Pid)
    | Bump(f: Pid, matches: Key -> bool)
    | LockForSweep(f: Pid)
    | SweepAndUnlock(f: Pid)
    | Lose(shard: nat, gone: set<Entry>)

  function Init(count: nat): State {
    State(0, 0, seq(count, _ => {}), seq(count, _ => Nobody), map[], map[])
  }

  predicate Enabled(st: State, step: Step) {
    match step
    case ReadEpoch(q) => q !in st.queries
    case LockForInsert(q, shard, key) =>
      q in st.queries && st.queries[q].Asked? && shard < |st.owners| && st.owners[shard] == Nobody
    case CheckEpoch(q) => q in st.queries && st.queries[q].Holding?
    case StoreAndUnlock(q, after) =>
      && q in st.queries && st.queries[q].Checked?
      && var me := st.queries[q];
      && me.shard < |st.shards| && me.shard < |st.owners|
      // The insert may replace and evict anything, itself included; without leave nothing changes.
      && (if me.allowed then after <= st.shards[me.shard] + {Entry(me.key, me.epoch, me.readAt)}
          else after == st.shards[me.shard])
    case Leave(q) => q in st.queries && st.queries[q].Asked?
    case Bump(f, _) => f !in st.flushes
    case LockForSweep(f) =>
      && f in st.flushes && !st.flushes[f].holding
      && st.flushes[f].next < |st.owners| && st.owners[st.flushes[f].next] == Nobody
    case SweepAndUnlock(f) =>
      f in st.flushes && st.flushes[f].holding && st.flushes[f].next < |st.shards| && st.flushes[f].next < |st.owners|
    case Lose(shard, _) => shard < |st.shards| && shard < |st.owners| && st.owners[shard] == Nobody
  }

  function Effect(st: State, step: Step): State
    requires Enabled(st, step)
  {
    match step
    case ReadEpoch(q) => st.(queries := st.queries[q := Asked(st.epoch, st.clock)])
    case LockForInsert(q, shard, key) =>
      var me := st.queries[q];
      st.(owners := st.owners[shard := ByQuery(q)], queries := st.queries[q := Holding(me.epoch, me.readAt, shard, key)])
    case CheckEpoch(q) =>
      var me := st.queries[q];
      st.(queries := st.queries[q := Checked(me.epoch, me.readAt, me.shard, me.key, me.epoch == st.epoch)])
    case StoreAndUnlock(q, after) =>
      var me := st.queries[q];
      st.(shards := st.shards[me.shard := after],
          owners := st.owners[me.shard := Nobody],
          queries := st.queries[q := Asked(me.epoch, me.readAt)])
    case Leave(q) => st.(queries := st.queries - {q})
    case Bump(f, matches) =>
      st.(epoch := st.epoch + 1, flushes := st.flushes[f := Flush(matches, st.epoch + 1, st.clock, 0, false)])
    case LockForSweep(f) =>
      var me := st.flushes[f];
      st.(owners := st.owners[me.next := ByFlush(f)], flushes := st.flushes[f := me.(holding := true)])
    case SweepAndUnlock(f) =>
      var me := st.flushes[f];
      st.(shards := st.shards[me.next := set e | e in st.shards[me.next] && !me.matches(e.key)],
          owners := st.owners[me.next := Nobody],
          flushes := st.flushes[f := me.(next := me.next + 1, holding := false)])
    case Lose(shard, gone) => st.(shards := st.shards[shard := st.shards[shard] - gone])
  }

  function Next(st: State, step: Step): State
    requires Enabled(st, step)
  {
    var after := Effect(st, step);
    after.(clock := st.clock + 1)
  }

  predicate CanRun(st: State, steps: seq<Step>)
    decreases |steps|
  {
    steps == [] || (Enabled(st, steps[0]) && CanRun(Next(st, steps[0]), steps[1..]))
  }

  function Run(st: State, steps: seq<Step>): State
    requires CanRun(st, steps)
    decreases |steps|
  {
    if steps == [] then st else Run(Next(st, steps[0]), steps[1..])
  }

  // ---------------------------------------------------------------------------------------
  // Invariants

  predicate Waiting(q: Query, shard: nat) {
    (q.Holding? || q.Checked?) && q.shard == shard
  }

  /** Whoever is between locking and unlocking a shard is that shard's recorded owner. */
  ghost predicate Locked(st: State) {
    && |st.owners| == |st.shards|
    && (forall q :: q in st.queries && !st.queries[q].Asked? ==>
          st.queries[q].shard < |st.owners| && st.owners[st.queries[q].shard] == ByQuery(q))
    && (forall f :: f in st.flushes && st.flushes[f].holding ==>
          st.flushes[f].next < |st.owners| && st.owners[st.flushes[f].next] == ByFlush(f))
    && (forall f :: f in st.flushes ==> st.flushes[f].next <= |st.shards|)
  }

  /** A read made before a bump has an older epoch than that bump. */
  predicate Older(epoch: nat, readAt: nat, f: Flush) {
    readAt < f.bumpedAt ==> epoch < f.epoch
  }

  /** No read and no bump lies in the future, and none is ahead of the current epoch. */
  ghost predicate Bounded(st: State) {
    && (forall f :: f in st.flushes ==> st.flushes[f].epoch <= st.epoch && st.flushes[f].bumpedAt < st.clock)
    && (forall q :: q in st.queries ==> st.queries[q].epoch <= st.epoch && st.queries[q].readAt < st.clock)
    && (forall s, e :: 0 <= s < |st.shards| && e in st.shards[s] ==> e.epoch <= st.epoch && e.readAt < st.clock)
  }

  /** Epochs order reads and bumps the way the steps did. */
  ghost predicate Ordered(st: State) {
    && (forall q, f :: q in st.queries && f in st.flushes ==>
          Older(st.queries[q].epoch, st.queries[q].readAt, st.flushes[f]))
    && (forall s, e, f :: 0 <= s < |st.shards| && e in st.shards[s] && f in st.flushes ==>
          Older(e.epoch, e.readAt, st.flushes[f]))
  }

  /** An outdated read was overtaken by a bump. */
  ghost predicate Overtaken(st: State) {
    forall q :: q in st.queries && st.queries[q].epoch < st.epoch ==> StartedSince(st, st.queries[q].readAt)
  }

  ghost predicate StartedSince(st: State, time: nat) {
    exists f :: f in st.flushes && time < st.flushes[f].bumpedAt
  }

  /** A shard a flush has swept holds no matching entry older than the flush. */
  ghost predicate Swept(st: State) {
    forall f, s, e ::
      (f in st.flushes && 0 <= s < |st.shards| && s < st.flushes[f].next && e in st.shards[s] && st.flushes[f].matches(e.key))
      ==> st.flushes[f].epoch <= e.epoch
  }

  /** A query with leave to store into a swept shard is not older than the flush. */
  ghost predicate Cleared(st: State) {
    forall q, f ::
      (q in st.queries && f in st.flushes && st.queries[q].Checked? && st.queries[q].allowed
       && st.queries[q].shard < st.flushes[f].next)
      ==> st.flushes[f].epoch <= st.queries[q].epoch
  }

  ghost predicate Inv(st: State) {
    Locked(st) && Bounded(st) && Ordered(st) && Overtaken(st) && Swept(st) && Cleared(st)
  }

  lemma InitInv(count: nat)
    ensures Inv(Init(count))
  {
  }

  lemma LockedNext(st: State, step: Step)
    requires Locked(st) && Enabled(st, step)
    ensures Locked(Next(st, step))
  {
    if step.LockForInsert? || step.LockForSweep? {
      LockTaken(st, step);
    } else {
      LockKept(st, step);
    }
  }

  /** A lock is taken only while nobody holds it. */
  lemma LockTaken(st: State, step: Step)
    requires Locked(st) && Enabled(st, step) && (step.LockForInsert? || step.LockForSweep?)
    ensures Locked(Next(st, step))
  {
  }

  lemma LockKept(st: State, step: Step)
    requires Locked(st) && Enabled(st, step) && !step.LockForInsert? && !step.LockForSweep?
    ensures Locked(Next(st, step))
  {
  }

  lemma BoundedNext(st: State, step: Step)
    requires Bounded(st) && Enabled(st, step)
    ensures Bounded(Next(st, step))
  {
  }

  lemma OrderedNext(st: State, step: Step)
    requires Bounded(st) && Ordered(st) && Enabled(st, step)
    ensures Ordered(Next(st, step))
  {
  }

  lemma OvertakenNext(st: State, step: Step)
    requires Bounded(st) && Overtaken(st) && Enabled(st, step)
    ensures Overtaken(Next(st, step))
  {
    var after := Next(st, step);
    forall q | q in after.queries && after.queries[q].epoch < after.epoch
      ensures StartedSince(after, after.queries[q].readAt)
    {
      if step.Bump? {
        assert after.flushes[step.f].bumpedAt == st.clock;
      } else {
        var f :| f in st.flushes && after.queries[q].readAt < st.flushes[f].bumpedAt;
        assert f in after.flushes;
      }
    }
  }

  /** A sweep sees what a query stored, because both hold the shard's lock. */
  lemma SweptNext(st: State, step: Step)
    requires Locked(st) && Swept(st) && Cleared(st) && Enabled(st, step)
    ensures Swept(Next(st, step))
  {
  }

  /** A query that checks after the sweep sees the new epoch. */
  lemma ClearedNext(st: State, step: Step)
    requires Locked(st) && Bounded(st) && Cleared(st) && Enabled(st, step)
    ensures Cleared(Next(st, step))
  {
    if step.SweepAndUnlock? {
      assert forall q :: q in st.queries && !st.queries[q].Asked? ==> st.queries[q].shard != st.flushes[step.f].next;
    }
  }

  lemma NextInv(st: State, step: Step)
    requires Inv(st) && Enabled(st, step)
    ensures Inv(Next(st, step))
  {
    hide Locked, Bounded, Ordered, Overtaken, Swept, Cleared, Enabled, Next;
    LockedNext(st, step);
    BoundedNext(st, step);
    OrderedNext(st, step);
    OvertakenNext(st, step);
    SweptNext(st, step);
    ClearedNext(st, step);
  }

  lemma {:induction false} RunInv(st: State, steps: seq<Step>)
    requires Inv(st) && CanRun(st, steps)
    ensures Inv(Run(st, steps))
    decreases |steps|
  {
    if steps != [] {
      NextInv(st, steps[0]);
      RunInv(Next(st, steps[0]), steps[1..]);
    }
  }

  predicate Returned(st: State, f: Pid) {
    f in st.flushes && st.flushes[f].next == |st.shards|
  }

  /**
   Once a flush has returned, no stored entry it matches came from an upstream call that read
   the epoch before the flush's bump.
   */
  lemma FlushIsComplete(count: nat, steps: seq<Step>, f: Pid, shard: nat, e: Entry)
    requires CanRun(Init(count), steps)
    requires Returned(Run(Init(count), steps), f)
    requires shard < |Run(Init(count), steps).shards| && e in Run(Init(count), steps).shards[shard]
    requires Run(Init(count), steps).flushes[f].matches(e.key)
    ensures Run(Init(count), steps).flushes[f].bumpedAt <= e.readAt
  {
    InitInv(count);
    RunInv(Init(count), steps);
  }

  /** A query is refused its insert exactly when a flush started after it read the epoch. */
  lemma RefusedIffFlushed(count: nat, steps: seq<Step>, q: Pid)
    requires CanRun(Init(count), steps) && Enabled(Run(Init(count), steps), CheckEpoch(q))
    ensures var st := Run(Init(count), steps);
      Next(st, CheckEpoch(q)).queries[q].allowed <==> !StartedSince(st, st.queries[q].readAt)
  {
    InitInv(count);
    RunInv(Init(count), steps);
  }
}
