/**
 Cached failures in the resolution protocol: runs in which leaders that fail record their failure as the policy says.
 Kept beside the protocol's state: what each leader's second lookup found, and for every failure entry its number
 in an unbroken series of failures.
 */
module BackoffRuns {
  import opened Base
  import R = Resolve
  import opened Backoff

  type Pid = R.Pid

  datatype State = State(base: R.State, seen: map<Pid, Option<R.Cached>>, streaks: map<nat, nat>)

  function Init(keyHash: R.Key -> R.P.Hash, serveStale: bool): State {
    State(R.Init(keyHash, serveStale), map[], map[])
  }

  /** The entry of a key, if the store still gives it at `now`. */
  function Stored(st: R.State, key: R.Key, now: nat): Option<R.Cached> {
    Retained(if key in st.store then Some(st.store[key]) else None, now)
  }

  function Previous(seen: Option<R.Cached>): Option<nat> {
    if seen.Some? then seen.value.failure else None
  }

  /** A returned failure is the one the policy calls for after what the leader saw. */
  ghost predicate Follows(policy: Policy, s: State, step: R.Step) {
    step.Return? && step.entry.Some? && step.entry.value.failure.Some? ==>
      && step.p in s.seen
      && var e := step.entry.value;
      && e == FailureEntry(policy, e.id, e.inserted, Previous(s.seen[step.p]))
  }

  ghost predicate Enabled(policy: Policy, s: State, step: R.Step) {
    R.Enabled(s.base, step) && Follows(policy, s, step)
  }

  function NextSeen(s: State, step: R.Step): map<Pid, Option<R.Cached>> {
    match step
    case Recheck(p, now, _) =>
      if p in s.base.queries && s.base.queries[p].Leading?
      then s.seen[p := Stored(s.base, s.base.queries[p].guard.key, now)] else s.seen
    case HandOver(p, task) => if p in s.seen then s.seen[task := s.seen[p]] else s.seen
    case _ => s.seen
  }

  /** A failure continues the series of the failure its leader saw, or starts one. */
  function NextStreaks(s: State, step: R.Step): map<nat, nat> {
    if step.Return? && step.entry.Some? && step.entry.value.failure.Some? && step.p in s.seen then
      var seen := s.seen[step.p];
      var before := if Previous(seen).Some? && seen.value.id in s.streaks then s.streaks[seen.value.id] else 0;
      s.streaks[step.entry.value.id := before + 1]
    else s.streaks
  }

  ghost function Next(policy: Policy, s: State, step: R.Step): State
    requires Enabled(policy, s, step)
  {
    State(R.Next(s.base, step), NextSeen(s, step), NextStreaks(s, step))
  }

  ghost predicate CanRun(policy: Policy, s: State, steps: seq<R.Step>)
    decreases |steps|
  {
    steps == [] || (Enabled(policy, s, steps[0]) && CanRun(policy, Next(policy, s, steps[0]), steps[1..]))
  }

  ghost function Run(policy: Policy, s: State, steps: seq<R.Step>): State
    requires CanRun(policy, s, steps)
    decreases |steps|
  {
    if steps == [] then s else Run(policy, Next(policy, s, steps[0]), steps[1..])
  }

  // ---------------------------------------------------------------------------------------
  // Invariants

  /** A failure has the backoff, the window and the retention of its number in the series. */
  ghost predicate Right(policy: Policy, streaks: map<nat, nat>, e: R.Cached) {
    e.failure.Some? ==>
      && e.id in streaks && streaks[e.id] > 0
      && e.failure == Some(Expected(policy, streaks[e.id]))
      && e.expires == e.inserted + Expected(policy, streaks[e.id])
      && e.staleUntil == e.expires + Longest(policy)
  }

  ghost predicate StoredRight(policy: Policy, s: State) {
    forall k :: k in s.base.store ==> s.base.store[k].id < s.base.nextId && Right(policy, s.streaks, s.base.store[k])
  }

  ghost predicate CarriedRight(policy: Policy, s: State) {
    forall p :: p in s.base.queries && R.Carries(s.base.queries[p]) ==>
      && s.base.queries[p].entry.value.id < s.base.nextId
      && Right(policy, s.streaks, s.base.queries[p].entry.value)
  }

  ghost predicate SeenRight(policy: Policy, s: State) {
    forall p :: p in s.seen && s.seen[p].Some? ==>
      s.seen[p].value.id < s.base.nextId && Right(policy, s.streaks, s.seen[p].value)
  }

  /** What a query that is about to call, or calling, saw: nothing, or an entry past its expiry. */
  ghost predicate LookedOutside(s: State) {
    forall p :: p in s.base.queries && (s.base.queries[p].Checked? || s.base.queries[p].Calling?) ==>
      p in s.seen && (s.seen[p].None? || s.seen[p].value.expires <= s.base.queries[p].at)
  }

  ghost predicate Inv(policy: Policy, s: State) {
    StoredRight(policy, s) && CarriedRight(policy, s) && SeenRight(policy, s) && LookedOutside(s)
  }

  /** A new id changes nothing for the entries there are. */
  lemma StillRight(policy: Policy, s: State, step: R.Step, e: R.Cached)
    requires Enabled(policy, s, step) && e.id < s.base.nextId && Right(policy, s.streaks, e)
    ensures Right(policy, NextStreaks(s, step), e)
  {
    hide R.P.Enabled, Expected;
  }

  /** A failure returned now gets the number after the one it followed. */
  lemma ReturnedRight(policy: Policy, s: State, step: R.Step)
    requires Enabled(policy, s, step) && SeenRight(policy, s) && step.Return? && step.entry.Some?
    ensures Right(policy, NextStreaks(s, step), step.entry.value) && step.entry.value.id < R.Next(s.base, step).nextId
  {
    hide R.P.Enabled, R.P.Next, Expected;
    if step.entry.value.failure.Some? {
      var seen := s.seen[step.p];
      FirstExpected(policy);
      if Previous(seen).Some? {
        assert Right(policy, s.streaks, seen.value);
        Doubling(policy, s.streaks[seen.value.id]);
      }
    }
  }

  lemma FirstExpected(policy: Policy)
    ensures Expected(policy, 1) == policy.initial
  {
    assert Pow2(0) == 1;
  }

  lemma StoredRightNext(policy: Policy, s: State, step: R.Step)
    requires Inv(policy, s) && Enabled(policy, s, step)
    ensures StoredRight(policy, Next(policy, s, step))
  {
    hide R.P.Enabled, R.P.Next, Right, Follows, R.FlightStep, R.NextQueries, R.NextFlights;
    var after := Next(policy, s, step);
    forall k | k in after.base.store
      ensures after.base.store[k].id < after.base.nextId && Right(policy, after.streaks, after.base.store[k])
    {
      StillRight(policy, s, step, after.base.store[k]);
    }
  }

  lemma NextIdGrows(st: R.State, step: R.Step)
    requires R.Enabled(st, step)
    ensures st.nextId <= R.Next(st, step).nextId
  {
    hide R.P.Enabled, R.P.Next, R.FlightStep, R.NextQueries, R.NextFlights;
  }

  lemma ReturnedEntry(st: R.State, step: R.Step)
    requires R.Enabled(st, step) && step.Return?
    ensures step.p in R.Next(st, step).queries && R.Next(st, step).queries[step.p].Returned?
    ensures R.Next(st, step).queries[step.p].entry == step.entry
  {
    hide R.P.Enabled, R.P.Next, R.FlightStep, R.NextFlights;
  }

  lemma CarriedRightNext(policy: Policy, s: State, step: R.Step)
    requires Inv(policy, s) && Enabled(policy, s, step)
    ensures CarriedRight(policy, Next(policy, s, step))
  {
    hide R.Enabled, R.Next, Right, Follows;
    var after := Next(policy, s, step);
    NextIdGrows(s.base, step);
    forall p | p in after.base.queries && R.Carries(after.base.queries[p])
      ensures after.base.queries[p].entry.value.id < after.base.nextId
      ensures Right(policy, after.streaks, after.base.queries[p].entry.value)
    {
      R.CarriesBefore(s.base, step, p);
      if step.Return? && p == step.p {
        ReturnedEntry(s.base, step);
        ReturnedRight(policy, s, step);
      } else {
        StillRight(policy, s, step, s.base.queries[p].entry.value);
      }
    }
  }

  lemma SeenRightNext(policy: Policy, s: State, step: R.Step)
    requires Inv(policy, s) && Enabled(policy, s, step)
    ensures SeenRight(policy, Next(policy, s, step))
  {
    hide R.P.Enabled, R.P.Next, Right, Follows, R.FlightStep, R.NextQueries, R.NextFlights, NextStreaks;
    var after := Next(policy, s, step);
    forall p | p in after.seen && after.seen[p].Some?
      ensures after.seen[p].value.id < after.base.nextId && Right(policy, after.streaks, after.seen[p].value)
    {
      StillRight(policy, s, step, after.seen[p].value);
    }
  }

  lemma LookedOutsideNext(policy: Policy, s: State, step: R.Step)
    requires LookedOutside(s) && Enabled(policy, s, step)
    ensures LookedOutside(Next(policy, s, step))
  {
    hide R.P.Enabled, R.P.Next, Follows, R.FlightStep, R.NextFlights, NextStreaks, LookedOutside, R.Look;
    var after := Next(policy, s, step);
    forall p | p in after.base.queries && (after.base.queries[p].Checked? || after.base.queries[p].Calling?)
      ensures LooksOutside(after, p)
    {
      LooksOutsideNext(policy, s, step, p);
    }
    AllLookOutside(after);
  }

  ghost predicate LooksOutside(s: State, p: Pid)
    requires p in s.base.queries && (s.base.queries[p].Checked? || s.base.queries[p].Calling?)
  {
    p in s.seen && (s.seen[p].None? || s.seen[p].value.expires <= s.base.queries[p].at)
  }

  lemma AllLookOutside(s: State)
    requires forall p :: p in s.base.queries && (s.base.queries[p].Checked? || s.base.queries[p].Calling?) ==> LooksOutside(s, p)
    ensures LookedOutside(s)
  {
  }

  /** Where a query that is about to call, or calling, was one step before. */
  lemma CalledBefore(st: R.State, step: R.Step, p: Pid)
    requires R.Enabled(st, step)
    requires var after := R.Next(st, step).queries; p in after && (after[p].Checked? || after[p].Calling?)
    ensures var at := R.Next(st, step).queries[p].at;
      if step.Recheck? && p == step.p then
        at == step.now && step.p in st.queries && st.queries[p].Leading? && R.Look(st, st.queries[p].guard.key, at).Refresh?
      else
        var from := if step.HandOver? && p == step.task then step.p else p;
        from in st.queries && (st.queries[from].Checked? || st.queries[from].Calling?) && st.queries[from].at == at
  {
    hide R.P.Enabled, R.P.Next, R.FlightStep, R.NextFlights, R.Look;
  }

  lemma LooksOutsideNext(policy: Policy, s: State, step: R.Step, p: Pid)
    requires LookedOutside(s) && Enabled(policy, s, step)
    requires var after := Next(policy, s, step).base.queries; p in after && (after[p].Checked? || after[p].Calling?)
    ensures LooksOutside(Next(policy, s, step), p)
  {
    assert step.HandOver? ==> step.task !in s.base.queries && step.p != step.task;
    hide R.Enabled, R.Next, R.Look, Follows, NextStreaks;
    CalledBefore(s.base, step, p);
    if step.Recheck? && p == step.p {
      R.LookRefresh(s.base, s.base.queries[p].guard.key, step.now);
    }
  }

  lemma NextInv(policy: Policy, s: State, step: R.Step)
    requires Inv(policy, s) && Enabled(policy, s, step)
    ensures Inv(policy, Next(policy, s, step))
  {
    hide Enabled, Next, StoredRight, CarriedRight, SeenRight, LookedOutside;
    StoredRightNext(policy, s, step);
    CarriedRightNext(policy, s, step);
    SeenRightNext(policy, s, step);
    LookedOutsideNext(policy, s, step);
  }

  lemma {:induction false} RunInv(policy: Policy, s: State, steps: seq<R.Step>)
    requires Inv(policy, s) && CanRun(policy, s, steps)
    ensures Inv(policy, Run(policy, s, steps))
    decreases |steps|
  {
    hide Inv, Enabled, Next;
    if steps != [] {
      NextInv(policy, s, steps[0]);
      RunInv(policy, Next(policy, s, steps[0]), steps[1..]);
    }
  }

  /**
   In every run, a stored failure that is the `k`-th of its series backs off by the least of the longest backoff and the
   first one doubled `k - 1` times; it is served for just that long and kept for the longest backoff more.
   */
  lemma RunBackoff(policy: Policy, keyHash: R.Key -> R.P.Hash, serveStale: bool, steps: seq<R.Step>, key: R.Key)
    requires CanRun(policy, Init(keyHash, serveStale), steps)
    requires var s := Run(policy, Init(keyHash, serveStale), steps);
      key in s.base.store && s.base.store[key].failure.Some?
    ensures var s := Run(policy, Init(keyHash, serveStale), steps);
      var e := s.base.store[key];
      && e.id in s.streaks && s.streaks[e.id] > 0
      && e.failure == Some(Min(Max(policy.max, policy.initial), policy.initial * Pow2(s.streaks[e.id] - 1)))
      && e.expires == e.inserted + e.failure.value && e.staleUntil == e.expires + Max(policy.max, policy.initial)
  {
    RunInv(policy, Init(keyHash, serveStale), steps);
  }

  /** In every run, no query in an upstream call, registered or not, looked inside a failure's window. */
  lemma NoCallLookedInside(policy: Policy, keyHash: R.Key -> R.P.Hash, serveStale: bool, steps: seq<R.Step>, p: Pid)
    requires CanRun(policy, Init(keyHash, serveStale), steps)
    requires var s := Run(policy, Init(keyHash, serveStale), steps);
      p in s.base.queries && s.base.queries[p].Calling?
    ensures var s := Run(policy, Init(keyHash, serveStale), steps);
      p in s.seen && (s.seen[p].None? || s.seen[p].value.expires <= s.base.queries[p].at)
  {
    RunInv(policy, Init(keyHash, serveStale), steps);
  }
}
