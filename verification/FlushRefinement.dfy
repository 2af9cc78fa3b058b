/** The shard operations are the steps the flush protocol assumes: what it says of sets of entries holds of real shards. */
module FlushRefinement {
  import opened Base
  import opened ShardModel
  import opened ShardInvariant
  import opened ShardRuns
  import F = FlushProtocol

  /** For the upstream call behind an answer: the epoch it read and when it read it. */
  type Origin = nat -> (nat, nat)

  function EntryOf(n: Node, origin: Origin): F.Entry {
    F.Entry(n.key, origin(n.answer.tag).0, origin(n.answer.tag).1)
  }

  /** A shard as the protocol sees it. */
  ghost function Entries(v: View, origin: Origin): set<F.Entry> {
    set n | n in v.Live() :: EntryOf(n, origin)
  }

  lemma HeldEntry(v: View, n: Node, origin: Origin)
    requires Holds(v, n.hash, n.key, n.answer)
    ensures EntryOf(n, origin) in Entries(v, origin)
  {
    var m :| m in v.Live() && m.hash == n.hash && m.key == n.key && m.answer == n.answer;
    assert EntryOf(m, origin) == EntryOf(n, origin);
  }

  /** Storing an allowed answer, eviction included, is a step of the protocol. */
  lemma InsertIsStep(st: F.State, q: F.Pid, v: View, hash: Hash, key: Key, answer: Answer, now: nat, origin: Origin)
    requires Inv(v) && Dated(v) && q in st.queries && st.queries[q].Checked? && st.queries[q].allowed
    requires st.queries[q].shard < |st.shards| == |st.owners| && st.shards[st.queries[q].shard] == Entries(v, origin)
    requires st.queries[q].key == key && origin(answer.tag) == (st.queries[q].epoch, st.queries[q].readAt)
    ensures F.Enabled(st, F.StoreAndUnlock(q, Entries(Insert(v, hash, key, answer, now).0, origin)))
  {
    hide Insert, Inv;
    InsertNodes(v, hash, key, answer, now);
    var w := Insert(v, hash, key, answer, now).0;
    var new_ := F.Entry(key, st.queries[q].epoch, st.queries[q].readAt);
    forall n | n in w.Live() ensures EntryOf(n, origin) in Entries(v, origin) + {new_} {
      if n.hash != hash {
        HeldEntry(v, n, origin);
      } else {
        assert EntryOf(n, origin) == new_;
      }
    }
  }

  /** Sweeping a shard removes exactly what the protocol's sweep removes. */
  lemma SweepIsStep(v: View, matches: Key -> bool, origin: Origin)
    requires Inv(v)
    ensures Entries(RemoveMatching(v, matches, 0), origin) == set e | e in Entries(v, origin) && !matches(e.key)
  {
    hide RemoveMatching, Inv;
    RemoveMatchingInv(v, matches, 0);
    var w := RemoveMatching(v, matches, 0);
    forall e ensures e in Entries(w, origin) <==> e in Entries(v, origin) && !matches(e.key) {
      if e in Entries(w, origin) {
        var n :| n in w.Live() && EntryOf(n, origin) == e;
        assert Kept(n, matches, 0);
      }
      if e in Entries(v, origin) && !matches(e.key) {
        var n :| n in v.Live() && EntryOf(n, origin) == e;
        assert Kept(n, matches, 0);
      }
    }
  }

  /** A lookup and a forgotten failure only ever lose entries. */
  lemma OtherStepsLose(v: View, hash: Hash, key: Key, now: nat, origin: Origin)
    requires Inv(v) && Dated(v)
    ensures Entries(Get(v, hash, key, now).0, origin) <= Entries(v, origin)
    ensures Entries(ForgetFailure(v, hash, key).0, origin) <= Entries(v, origin)
  {
    GetInv(v, hash, key, now);
    ForgetInv(v, hash, key);
    IdsLose(v, Get(v, hash, key, now).0, origin);
    IdsLose(v, ForgetFailure(v, hash, key).0, origin);
  }

  lemma IdsLose(v: View, w: View, origin: Origin)
    requires w.Ids() <= v.Ids()
    ensures Entries(w, origin) <= Entries(v, origin)
  {
    forall n | n in w.Live() ensures EntryOf(n, origin) in Entries(v, origin) {
      IdOf(w, n);
      HoldsById(v, n);
      HeldEntry(v, n, origin);
    }
  }

  // ---------------------------------------------------------------------------------------
  // Runs of real shards

  /** The protocol's bookkeeping with real shards in place of its sets of entries, which are left empty. */
  datatype Real = Real(views: seq<View>, protocol: F.State)

  datatype RealStep =
    // A step that touches no shard: reading or checking the epoch, locking, leaving, bumping.
    | Bookkeeping(step: F.Step)
    | Store(q: F.Pid, hash: Hash, answer: Answer, now: nat)
    | Sweep(f: F.Pid)
    | ClearShard(f: F.Pid)
    | Lookup(shard: nat, hash: Hash, key: Key, now: nat)
    | Forget(shard: nat, hash: Hash, key: Key)

  ghost function RealInit(count: nat, budget: nat): (r: Real)
    ensures RealInv(r)
  {
    EmptyInv(budget);
    Real(seq(count, _ => Empty(budget)), F.Init(count).(shards := []))
  }

  ghost function Shards(views: seq<View>, origin: Origin): (s: seq<set<F.Entry>>)
    ensures |s| == |views|
  {
    seq(|views|, i requires 0 <= i < |views| => Entries(views[i], origin))
  }

  ghost function Abs(r: Real, origin: Origin): F.State {
    r.protocol.(shards := Shards(r.views, origin))
  }

  ghost predicate RealInv(r: Real) {
    && |r.protocol.owners| == |r.views|
    && forall i :: 0 <= i < |r.views| ==> Inv(r.views[i]) && Dated(r.views[i])
  }

  ghost predicate Sweeping(r: Real, f: F.Pid) {
    && f in r.protocol.flushes && r.protocol.flushes[f].holding
    && r.protocol.flushes[f].next < |r.views| && r.protocol.flushes[f].next < |r.protocol.owners|
  }

  ghost predicate Unlocked(r: Real, shard: nat) {
    shard < |r.views| && shard < |r.protocol.owners| && r.protocol.owners[shard] == F.Nobody
  }

  /** A query stores the answer of its own upstream call; a clear is the flush that matches every key. */
  ghost predicate RealEnabled(r: Real, step: RealStep, origin: Origin) {
    match step
    case Bookkeeping(s) =>
      !s.StoreAndUnlock? && !s.SweepAndUnlock? && !s.Lose? && F.Enabled(Abs(r, origin), s)
    case Store(q, hash, answer, now) =>
      && q in r.protocol.queries && r.protocol.queries[q].Checked?
      && var me := r.protocol.queries[q];
      && me.shard < |r.views| && me.shard < |r.protocol.owners|
      && (me.allowed ==> origin(answer.tag) == (me.epoch, me.readAt))
    case Sweep(f) => Sweeping(r, f)
    case ClearShard(f) => Sweeping(r, f) && forall key :: r.protocol.flushes[f].matches(key)
    case Lookup(shard, _, _, _) => Unlocked(r, shard)
    case Forget(shard, _, _) => Unlocked(r, shard)
  }

  /** What the step does to the shards. */
  ghost function NextViews(r: Real, step: RealStep, origin: Origin): (views: seq<View>)
    requires RealEnabled(r, step, origin)
    ensures |views| == |r.views|
  {
    match step
    case Bookkeeping(_) => r.views
    case Store(q, hash, answer, now) =>
      var me := r.protocol.queries[q];
      if me.allowed then r.views[me.shard := Insert(r.views[me.shard], hash, me.key, answer, now).0] else r.views
    case Sweep(f) =>
      var me := r.protocol.flushes[f];
      r.views[me.next := RemoveMatching(r.views[me.next], me.matches, 0)]
    case ClearShard(f) =>
      var me := r.protocol.flushes[f];
      r.views[me.next := Clear(r.views[me.next])]
    case Lookup(shard, hash, key, now) => r.views[shard := Get(r.views[shard], hash, key, now).0]
    case Forget(shard, hash, key) => r.views[shard := ForgetFailure(r.views[shard], hash, key).0]
  }

  /** The protocol step a real step takes. */
  ghost function StepOf(r: Real, step: RealStep, origin: Origin): F.Step
    requires RealEnabled(r, step, origin)
  {
    var after := Shards(NextViews(r, step, origin), origin);
    match step
    case Bookkeeping(s) => s
    case Store(q, _, _, _) => F.StoreAndUnlock(q, after[r.protocol.queries[q].shard])
    case Sweep(f) => F.SweepAndUnlock(f)
    case ClearShard(f) => F.SweepAndUnlock(f)
    case Lookup(shard, _, _, _) => F.Lose(shard, Entries(r.views[shard], origin) - after[shard])
    case Forget(shard, _, _) => F.Lose(shard, Entries(r.views[shard], origin) - after[shard])
  }

  /** The real step: shards by their own operations, locks and epochs as in the protocol. */
  ghost function RealNext(r: Real, step: RealStep, origin: Origin): Real
    requires RealInv(r) && RealEnabled(r, step, origin)
  {
    StepEnabled(r, step, origin);
    Real(NextViews(r, step, origin), F.Next(Abs(r, origin), StepOf(r, step, origin)).(shards := []))
  }

  lemma StepEnabled(r: Real, step: RealStep, origin: Origin)
    requires RealInv(r) && RealEnabled(r, step, origin)
    ensures F.Enabled(Abs(r, origin), StepOf(r, step, origin))
  {
    hide Insert, Inv, Entries, Dated;
    if step.Store? && r.protocol.queries[step.q].allowed {
      var me := r.protocol.queries[step.q];
      InsertIsStep(Abs(r, origin), step.q, r.views[me.shard], step.hash, me.key, step.answer, step.now, origin);
    }
  }

  /** The shards after a real step are those after its protocol step. */
  lemma SameShards(r: Real, step: RealStep, origin: Origin)
    requires RealInv(r) && RealEnabled(r, step, origin)
    ensures F.Enabled(Abs(r, origin), StepOf(r, step, origin))
    ensures F.Next(Abs(r, origin), StepOf(r, step, origin)).shards == Shards(NextViews(r, step, origin), origin)
  {
    hide Insert, Inv, Entries, Dated, Get, ForgetFailure, RemoveMatching, Clear;
    StepEnabled(r, step, origin);
    match step
    case Bookkeeping(_) =>
    case Store(_, _, _, _) =>
    case Sweep(f) =>
      var me := r.protocol.flushes[f];
      SweepIsStep(r.views[me.next], me.matches, origin);
    case ClearShard(f) =>
      var me := r.protocol.flushes[f];
      ClearIsStep(r.views[me.next], me.matches, origin);
    case Lookup(shard, hash, key, now) =>
      OtherStepsLose(r.views[shard], hash, key, now, origin);
      LoseRest(Entries(r.views[shard], origin), Entries(Get(r.views[shard], hash, key, now).0, origin));
    case Forget(shard, hash, key) =>
      OtherStepsLose(r.views[shard], hash, key, 0, origin);
      LoseRest(Entries(r.views[shard], origin), Entries(ForgetFailure(r.views[shard], hash, key).0, origin));
  }

  lemma LoseRest(all: set<F.Entry>, kept: set<F.Entry>)
    requires kept <= all
    ensures all - (all - kept) == kept
  {
  }

  /** Clearing a shard is the sweep of a flush that matches every key. */
  lemma ClearIsStep(v: View, matches: Key -> bool, origin: Origin)
    requires forall key :: matches(key)
    ensures Entries(Clear(v), origin) == set e | e in Entries(v, origin) && !matches(e.key)
  {
    assert Clear(v).Live() == [];
    assert Entries(Clear(v), origin) == {};
  }

  /** A single operation keeps a shard sound. */
  lemma KeptSound(v: View, op: Op)
    requires Inv(v) && Dated(v)
    ensures op.OpInsert? ==> Inv(Insert(v, op.hash, op.key, op.answer, op.now).0)
    ensures Dated(Apply(v, op))
    ensures !op.OpInsert? ==> Inv(Apply(v, op))
  {
    hide Inv;
    match op
    case OpGet(hash, key, now) =>
      GetInv(v, hash, key, now);
      DatedFewer(v, Get(v, hash, key, now).0);
    case OpInsert(hash, key, answer, now) =>
      InsertNodes(v, hash, key, answer, now);
      AdmitInv(v, hash, key, answer);
      if Admit(v, hash, key, answer).1 {
        MakeRoomInv(Admit(v, hash, key, answer).0, now);
      }
    case OpForget(hash, key) =>
      ForgetInv(v, hash, key);
      DatedFewer(v, ForgetFailure(v, hash, key).0);
    case OpRemove(matches) => RemoveMatchingInv(v, matches, 0);
    case OpClear => EmptyInv(v.budget);
  }

  lemma DatedFewer(v: View, w: View)
    requires w.Ids() <= v.Ids() && Dated(v)
    ensures Dated(w)
  {
    forall n | n in w.Live() ensures n.expires == n.answer.staleUntil {
      IdOf(w, n);
      HoldsById(v, n);
      var m :| m in v.Live() && m.Id() == n.Id() && m.expires == n.expires;
      assert m.answer == m.Id().answer == n.answer;
    }
  }

  lemma RealNextInv(r: Real, step: RealStep, origin: Origin)
    requires RealInv(r) && RealEnabled(r, step, origin)
    ensures RealInv(RealNext(r, step, origin)) && F.Enabled(Abs(r, origin), StepOf(r, step, origin))
    ensures Abs(RealNext(r, step, origin), origin) == F.Next(Abs(r, origin), StepOf(r, step, origin))
  {
    hide NextViews, StepOf, F.Enabled, F.Next, Inv, Dated;
    SameShards(r, step, origin);
    NextViewsSound(r, step, origin);
    StepEnabled(r, step, origin);
    OwnersStay(Abs(r, origin), StepOf(r, step, origin));
  }

  lemma OwnersStay(st: F.State, step: F.Step)
    requires F.Enabled(st, step)
    ensures |F.Next(st, step).owners| == |st.owners|
  {
  }

  lemma NextViewsSound(r: Real, step: RealStep, origin: Origin)
    requires RealInv(r) && RealEnabled(r, step, origin)
    ensures forall i :: 0 <= i < |r.views| ==>
      Inv(NextViews(r, step, origin)[i]) && Dated(NextViews(r, step, origin)[i])
  {
    hide Inv, Dated, Insert, Get, ForgetFailure, RemoveMatching, Entries;
    match step
    case Bookkeeping(_) =>
    case Store(q, hash, answer, now) =>
      var me := r.protocol.queries[q];
      KeptSound(r.views[me.shard], OpInsert(hash, me.key, answer, now));
    case Sweep(f) => KeptSound(r.views[r.protocol.flushes[f].next], OpRemove(r.protocol.flushes[f].matches));
    case ClearShard(f) => KeptSound(r.views[r.protocol.flushes[f].next], OpClear);
    case Lookup(shard, hash, key, now) => KeptSound(r.views[shard], OpGet(hash, key, now));
    case Forget(shard, hash, key) => KeptSound(r.views[shard], OpForget(hash, key));
  }

  ghost predicate RealCanRun(r: Real, steps: seq<RealStep>, origin: Origin)
    requires RealInv(r)
    decreases |steps|
  {
    steps == [] ||
    (RealEnabled(r, steps[0], origin) &&
     (RealNextInv(r, steps[0], origin); RealCanRun(RealNext(r, steps[0], origin), steps[1..], origin)))
  }

  ghost function RealRun(r: Real, steps: seq<RealStep>, origin: Origin): Real
    requires RealInv(r) && RealCanRun(r, steps, origin)
    decreases |steps|
  {
    if steps == [] then r
    else
      RealNextInv(r, steps[0], origin);
      RealRun(RealNext(r, steps[0], origin), steps[1..], origin)
  }

  /** The protocol steps of a run. */
  ghost function StepsOf(r: Real, steps: seq<RealStep>, origin: Origin): seq<F.Step>
    requires RealInv(r) && RealCanRun(r, steps, origin)
    decreases |steps|
  {
    if steps == [] then []
    else
      RealNextInv(r, steps[0], origin);
      [StepOf(r, steps[0], origin)] + StepsOf(RealNext(r, steps[0], origin), steps[1..], origin)
  }

  /** Every run of real shards is a run of the protocol. */
  lemma {:induction false} Simulates(r: Real, steps: seq<RealStep>, origin: Origin)
    requires RealInv(r) && RealCanRun(r, steps, origin)
    ensures F.CanRun(Abs(r, origin), StepsOf(r, steps, origin))
    ensures F.Run(Abs(r, origin), StepsOf(r, steps, origin)) == Abs(RealRun(r, steps, origin), origin)
    decreases |steps|
  {
    hide RealInv, RealEnabled, RealNext, StepOf, F.Next, F.Enabled, Abs;
    if steps != [] {
      RealNextInv(r, steps[0], origin);
      StepEnabled(r, steps[0], origin);
      Simulates(RealNext(r, steps[0], origin), steps[1..], origin);
      var all := StepsOf(r, steps, origin);
      assert all[0] == StepOf(r, steps[0], origin);
      assert all[1..] == StepsOf(RealNext(r, steps[0], origin), steps[1..], origin);
    }
  }

  lemma RealInitInv(count: nat, budget: nat, origin: Origin)
    ensures Abs(RealInit(count, budget), origin) == F.Init(count)
  {
    assert Empty(budget).Live() == [];
    assert Entries(Empty(budget), origin) == {};
    assert forall i :: 0 <= i < count ==> RealInit(count, budget).views[i] == Empty(budget);
    assert Shards(RealInit(count, budget).views, origin) == F.Init(count).shards;
  }

  /**
   In every run of real shards, once a flush has returned no live node it matches holds the answer of an upstream call
   that read the epoch before the flush's bump.
   */
  lemma RealFlushIsComplete(count: nat, budget: nat, steps: seq<RealStep>, origin: Origin, f: F.Pid, shard: nat, n: Node)
    requires RealCanRun(RealInit(count, budget), steps, origin)
    requires var r := RealRun(RealInit(count, budget), steps, origin);
      && f in r.protocol.flushes && r.protocol.flushes[f].next == |r.views|
      && shard < |r.views| && n in r.views[shard].Live() && r.protocol.flushes[f].matches(n.key)
    ensures RealRun(RealInit(count, budget), steps, origin).protocol.flushes[f].bumpedAt <= origin(n.answer.tag).1
  {
    hide RealCanRun, RealRun, StepsOf, F.CanRun, F.Run, RealInv;
    var start := RealInit(count, budget);
    RealInitInv(count, budget, origin);
    Simulates(start, steps, origin);
    var r := RealRun(start, steps, origin);
    assert EntryOf(n, origin) in Abs(r, origin).shards[shard];
    F.FlushIsComplete(count, StepsOf(start, steps, origin), f, shard, EntryOf(n, origin));
  }
}
