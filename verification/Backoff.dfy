/** Cached failures (section 3.2 of RFC 9520): a window that doubles with every consecutive failure. */
module Backoff {
  import opened Base
  import R = Resolve

  const MIN_TTL: nat := SECOND
  const MAX_TTL: nat := 300 * SECOND

  /** The largest duration: 2^64 - 1 seconds and 999999999 nanoseconds. */
  const LONGEST_DURATION: nat := 0x1_0000_0000_0000_0000 * SECOND - 1

  datatype Settings = Settings(initial: nat, max: nat)

  /** What the builder can produce: both durations within one second and five minutes. */
  type Policy = s: Settings | MIN_TTL <= s.initial <= MAX_TTL && MIN_TTL <= s.max <= MAX_TTL
    witness Settings(MIN_TTL, MIN_TTL)

  function Max(a: nat, b: nat): nat {
    if a < b then b else a
  }

  function Longest(policy: Policy): nat {
    Max(policy.max, policy.initial)
  }

  function NextBackoff(policy: Policy, previous: nat): nat {
    Min(Max(Min(previous * 2, LONGEST_DURATION), policy.initial), Longest(policy))
  }

  function BackoffAfter(policy: Policy, previous: Option<nat>): nat {
    if previous.None? then policy.initial else NextBackoff(policy, previous.value)
  }

  /** The entry a failure at `at` leaves: served for its backoff, then remembered for the longest backoff more. */
  function FailureEntry(policy: Policy, id: nat, at: nat, previous: Option<nat>): R.Cached {
    var backoff := BackoffAfter(policy, previous);
    R.Cached(id, at, at + backoff, at + backoff + Longest(policy), Some(backoff))
  }

  // ---------------------------------------------------------------------------------------
  // The history of one key

  /**
   What happens to one key: a query looks at `look` and, if it has to ask, fails at `at`; an upstream answer is
   stored; or the entry leaves the store (forgotten after a success, evicted or flushed).
   */
  datatype Event =
    | Fail(look: nat, at: nat, id: nat, deferred: map<R.Cached, nat>)
    | Answer(entry: R.Cached)
    | Gone

  /** What the store still gives at `now`: an entry past its retention is dropped. */
  function Retained(e: Option<R.Cached>, now: nat): Option<R.Cached> {
    if e.Some? && e.value.staleUntil <= now then None else e
  }

  /** A failed query leaves a failure behind unless it was answered from the store or has a stale answer to give. */
  function After(policy: Policy, serveStale: bool, e: Option<R.Cached>, event: Event): Option<R.Cached> {
    match event
    case Fail(look, at, id, deferred) =>
      (match R.Classify(Retained(e, look), serveStale, deferred, look)
       case Refresh(None, previous) => Some(FailureEntry(policy, id, at, previous))
       case _ => e)
    case Answer(entry) => Some(entry.(failure := None))
    case Gone => None
  }

  function History(policy: Policy, serveStale: bool, events: seq<Event>): Option<R.Cached> {
    if events == [] then None
    else After(policy, serveStale, History(policy, serveStale, events[..|events| - 1]), events[|events| - 1])
  }

  /** Consecutive failures, each recorded while the one before was still retained. */
  function Streak(policy: Policy, serveStale: bool, events: seq<Event>): nat {
    if events == [] then 0
    else
      var before := History(policy, serveStale, events[..|events| - 1]);
      var streak := Streak(policy, serveStale, events[..|events| - 1]);
      match events[|events| - 1]
      case Fail(look, _, _, _) =>
        if !Asks(serveStale, before, look) then streak
        else if before.Some? && before.value.failure.Some? && look < before.value.staleUntil then streak + 1
        else 1
      case _ => 0
  }

  /** Whether a query looking at `look` asks upstream with nothing stale to fall back on. */
  predicate Asks(serveStale: bool, e: Option<R.Cached>, look: nat) {
    e.None? || e.value.staleUntil <= look
    || (e.value.expires <= look && (e.value.failure.Some? || !serveStale))
  }

  /** The backoff the `k`-th consecutive failure should have. */
  function Expected(policy: Policy, k: nat): nat
    requires k > 0
  {
    Min(Max(policy.max, policy.initial), policy.initial * Pow2(k - 1))
  }

  lemma Scaled(a: nat, p: nat)
    requires p > 0
    ensures a * p >= a && a * (2 * p) == 2 * (a * p)
  {
  }

  lemma Doubling(policy: Policy, k: nat)
    requires k > 0
    ensures NextBackoff(policy, Expected(policy, k)) == Expected(policy, k + 1)
  {
    Scaled(policy.initial, Pow2(k - 1));
    assert Pow2(k) == 2 * Pow2(k - 1);
    assert Expected(policy, k + 1) == Min(Longest(policy), 2 * (policy.initial * Pow2(k - 1)));
  }

  lemma AsksIff(serveStale: bool, e: Option<R.Cached>, look: nat, deferred: map<R.Cached, nat>)
    ensures Asks(serveStale, e, look)
       <==> var found := R.Classify(Retained(e, look), serveStale, deferred, look);
            found.Refresh? && found.stale.None?
  {
  }

  /**
   After any history, the key holds a failure exactly when its streak is not zero; then the streak's last failure
   backs off by the least of the longest backoff and the first one doubled per earlier failure of the streak, is
   served for just that long and remembered for the longest backoff more.
   */
  lemma {:induction false} BackoffOfStreak(policy: Policy, serveStale: bool, events: seq<Event>)
    ensures var e, k := History(policy, serveStale, events), Streak(policy, serveStale, events);
      && (k > 0 <==> e.Some? && e.value.failure.Some?)
      && (k > 0 ==>
            && e.value.failure == Some(Expected(policy, k))
            && e.value.expires == e.value.inserted + Expected(policy, k)
            && e.value.staleUntil == e.value.expires + Max(policy.max, policy.initial))
    decreases |events|
  {
    if events != [] {
      var before := events[..|events| - 1];
      BackoffOfStreak(policy, serveStale, before);
      var e, k := History(policy, serveStale, before), Streak(policy, serveStale, before);
      if events[|events| - 1].Fail? {
        var look := events[|events| - 1].look;
        AsksIff(serveStale, e, look, events[|events| - 1].deferred);
        if k > 0 {
          Doubling(policy, k);
        }
      }
    }
  }

  ghost predicate AllRetained(policy: Policy, serveStale: bool, fails: seq<Event>) {
    forall i :: 0 <= i < |fails| ==> fails[i].Fail? && (i > 0 ==>
      var e := History(policy, serveStale, fails[..i]);
      e.Some? && e.value.expires <= fails[i].look < e.value.staleUntil)
  }

  /** The `k`-th of `k` failures, each recorded while the one before was retained and over, backs off as expected. */
  lemma {:induction false} KthFailure(policy: Policy, serveStale: bool, fails: seq<Event>)
    requires fails != [] && AllRetained(policy, serveStale, fails)
    ensures Streak(policy, serveStale, fails) == |fails|
    ensures History(policy, serveStale, fails).Some?
    ensures History(policy, serveStale, fails).value.failure
         == Some(Min(Max(policy.max, policy.initial), policy.initial * Pow2(|fails| - 1)))
    decreases |fails|
  {
    BackoffOfStreak(policy, serveStale, fails);
    var before := fails[..|fails| - 1];
    assert fails[|fails| - 1].Fail?;
    if before != [] {
      assert forall i :: 0 <= i < |before| ==> before[i] == fails[i] && before[..i] == fails[..i];
      KthFailure(policy, serveStale, before);
    }
  }

  // ---------------------------------------------------------------------------------------
  // The window in the resolution protocol

  ghost predicate InWindow(st: R.State, key: R.Key, now: nat) {
    key in st.store && st.store[key].failure.Some? && now < st.store[key].expires
  }

  /** A query that looks inside the window is answered from the store, first time or as a leader. */
  lemma WindowAnswers(st: R.State, step: R.Step)
    requires R.Enabled(st, step)
    requires step.Lookup? ==> InWindow(st, st.queries[step.p].key, step.now)
    requires step.Recheck? ==> InWindow(st, st.queries[step.p].guard.key, step.now)
    requires step.Lookup? || step.Recheck?
    ensures step.Lookup? ==> step.p !in R.Next(st, step).queries
    ensures step.Recheck? ==> step.p in R.Next(st, step).queries && R.Next(st, step).queries[step.p].Closing?
  {
    hide R.P.Enabled, R.P.Next;
  }

  /** In every run, a registered leader's upstream call for a key whose last failure is still stored looked after its window. */
  lemma NoCallInsideWindow(keyHash: R.Key -> R.P.Hash, serveStale: bool, steps: seq<R.Step>, p: R.Pid)
    requires R.CanRun(R.Init(keyHash, serveStale), steps)
    requires var st := R.Run(R.Init(keyHash, serveStale), steps);
      p in st.queries && st.queries[p].Calling? && st.queries[p].guard.registered
    ensures var st := R.Run(R.Init(keyHash, serveStale), steps);
      var key := st.queries[p].guard.key;
      key in st.last && key in st.store && st.store[key] == st.last[key] ==> !InWindow(st, key, st.queries[p].at)
  {
    R.CallsOnlyWhenNeeded(keyHash, serveStale, steps, p);
  }
}
