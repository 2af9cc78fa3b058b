/** What flushes achieve: each can always go on to its end, and by itself removes exactly what it matches. */
module FlushProgress {
  import opened Base
  import opened FlushProtocol

  // ---------------------------------------------------------------------------------------
  // A lock is held by someone who can give it back

  /** Every recorded owner is between locking and unlocking that very shard. */
  ghost predicate OwnersHold(st: State) {
    forall s :: 0 <= s < |st.owners| ==> OwnerHolds(st, s, st.owners[s])
  }

  predicate OwnerHolds(st: State, s: nat, owner: Owner) {
    match owner
    case Nobody => true
    case ByQuery(q) => q in st.queries && Waiting(st.queries[q], s)
    case ByFlush(f) => f in st.flushes && st.flushes[f].holding && st.flushes[f].next == s
  }

  lemma OwnersHoldNext(st: State, step: Step)
    requires Locked(st) && OwnersHold(st) && Enabled(st, step)
    ensures OwnersHold(Next(st, step))
  {
    var after := Next(st, step);
    forall s | 0 <= s < |after.owners| ensures OwnerHolds(after, s, after.owners[s]) {
      assert OwnerHolds(st, s, st.owners[s]);
    }
  }

  lemma {:induction false} OwnersHoldRun(st: State, steps: seq<Step>)
    requires Inv(st) && OwnersHold(st) && CanRun(st, steps)
    ensures OwnersHold(Run(st, steps))
    decreases |steps|
  {
    hide Inv, OwnersHold, Enabled, Next;
    if steps != [] {
      NextInv(st, steps[0]);
      assert Locked(st) by {
        InvLocked(st);
      }
      OwnersHoldNext(st, steps[0]);
      OwnersHoldRun(Next(st, steps[0]), steps[1..]);
    }
  }

  lemma InvLocked(st: State)
    requires Inv(st)
    ensures Locked(st)
  {
  }

  /** The owner's next step. */
  function OwnersStep(st: State, s: nat): Step
    requires s < |st.owners| && st.owners[s] != Nobody && s < |st.shards|
  {
    match st.owners[s]
    case ByQuery(q) =>
      if q in st.queries && st.queries[q].Checked? then StoreAndUnlock(q, st.shards[s]) else CheckEpoch(q)
    case ByFlush(f) => SweepAndUnlock(f)
  }

  /** In every reachable state, whoever holds a shard's lock can take a step, the last of which gives the lock back. */
  lemma LocksAreReturned(count: nat, steps: seq<Step>, s: nat)
    requires CanRun(Init(count), steps)
    requires var st := Run(Init(count), steps);
      s < |st.owners| && s < |st.shards| && st.owners[s] != Nobody
    ensures var st := Run(Init(count), steps);
      var step := OwnersStep(st, s);
      && Enabled(st, step)
      && (step.CheckEpoch? || Next(st, step).owners == st.owners[s := Nobody])
      && (step.CheckEpoch? ==> step.q in Next(st, step).queries && Next(st, step).queries[step.q].Checked?)
  {
    hide CanRun, Run;
    InitInv(count);
    RunInv(Init(count), steps);
    OwnersHoldRun(Init(count), steps);
    var st := Run(Init(count), steps);
    assert OwnerHolds(st, s, st.owners[s]);
  }

  // ---------------------------------------------------------------------------------------
  // A flush left alone

  /** Locking, sweeping and unlocking, shard by shard. */
  function Sweeps(f: Pid, n: nat): seq<Step> {
    if n == 0 then [] else [LockForSweep(f), SweepAndUnlock(f)] + Sweeps(f, n - 1)
  }

  /** The flush holds no lock, and neither does anyone on a shard it has yet to sweep. */
  predicate Free(st: State, f: Pid) {
    && f in st.flushes && !st.flushes[f].holding
    && |st.owners| == |st.shards| && st.flushes[f].next <= |st.shards|
    && forall s :: st.flushes[f].next <= s < |st.owners| ==> st.owners[s] == Nobody
  }

  function Unmatched(shard: set<Entry>, matches: Key -> bool): set<Entry> {
    set e | e in shard && !matches(e.key)
  }

  lemma SweepsOne(st: State, f: Pid)
    requires Free(st, f) && st.flushes[f].next < |st.shards|
    ensures var me := st.flushes[f];
      && Enabled(st, LockForSweep(f))
      && var mid := Next(st, LockForSweep(f));
      && Enabled(mid, SweepAndUnlock(f))
      && var end := Next(mid, SweepAndUnlock(f));
      && Free(end, f) && end.flushes[f].next == me.next + 1 && end.flushes[f].matches == me.matches
      && end.shards == st.shards[me.next := Unmatched(st.shards[me.next], me.matches)]
  {
    var mid := Next(st, LockForSweep(f));
    assert mid.flushes[f] == st.flushes[f].(holding := true);
    var end := Next(mid, SweepAndUnlock(f));
    assert end.owners == st.owners;
  }

  lemma TwoSteps(st: State, a: Step, b: Step, rest: seq<Step>)
    requires Enabled(st, a) && Enabled(Next(st, a), b) && CanRun(Next(Next(st, a), b), rest)
    ensures CanRun(st, [a, b] + rest) && Run(st, [a, b] + rest) == Run(Next(Next(st, a), b), rest)
  {
    hide Enabled, Next;
    var steps := [a, b] + rest;
    assert steps[1..] == [b] + rest && ([b] + rest)[1..] == rest;
  }

  /** A flush nobody holds up returns, and has removed from the shards still to sweep exactly what it matches. */
  lemma {:induction false} FlushReturns(st: State, f: Pid)
    requires Free(st, f)
    ensures var me, steps := st.flushes[f], Sweeps(f, |st.shards| - st.flushes[f].next);
      && CanRun(st, steps)
      && var end := Run(st, steps);
      && Returned(end, f) && |end.shards| == |st.shards|
      && forall s :: 0 <= s < |st.shards| ==>
           end.shards[s] == if s < me.next then st.shards[s] else Unmatched(st.shards[s], me.matches)
    decreases |st.shards| - st.flushes[f].next
  {
    hide Unmatched, Enabled, Next;
    var n := |st.shards| - st.flushes[f].next;
    if n > 0 {
      SweepsOne(st, f);
      var mid := Next(st, LockForSweep(f));
      var end := Next(mid, SweepAndUnlock(f));
      FlushReturns(end, f);
      TwoSteps(st, LockForSweep(f), SweepAndUnlock(f), Sweeps(f, n - 1));
    }
  }
}
