/**
 What a lookup finds: the stored answer and nothing else, in one shard state, over whole runs and over
 the whole store; and what the shard remembers of the entries it evicted.
 */
module ShardLookups {
  import opened Base
  import opened ShardModel
  import opened ShardInvariant
  import opened ShardRuns
  import opened StoreModel

  // ---------------------------------------------------------------------------------------
  // One lookup

  lemma {:induction false} BumpAt(q: seq<Node>, n: Node)
    requires Apart(q) && n in q
    ensures |Bump(q, n.slot)| == |q|
    ensures forall i :: 0 <= i < |q| ==> Bump(q, n.slot)[i] == if q[i] == n then n.(freq := Min(n.freq + 1, 3)) else q[i]
  {
    if q[0] == n {
      assert forall i :: 0 < i < |q| ==> q[i] == q[1..][i - 1] && q[i] in q[1..];
    } else {
      assert n in q[1..] && Differ(q[0], n);
      BumpAt(q[1..], n);
      assert forall i :: 0 < i < |q| ==> q[i] == q[1..][i - 1] && Bump(q, n.slot)[i] == Bump(q[1..], n.slot)[i - 1];
    }
  }

  lemma {:induction false} BumpAbsent(q: seq<Node>, slot: nat)
    requires forall n :: n in q ==> n.slot != slot
    ensures Bump(q, slot) == q
  {
    if q != [] {
      assert q[0] in q;
      BumpAbsent(q[1..], slot);
    }
  }

  /** The queue with one more hit on `n`, at most three, and every other node as and where it was. */
  predicate OneMoreHit(q: seq<Node>, r: seq<Node>, n: Node) {
    && |r| == |q|
    && forall i :: 0 <= i < |q| ==> r[i] == if q[i] == n then n.(freq := Min(n.freq + 1, 3)) else q[i]
  }

  lemma LocateLive(v: View, n: Node)
    requires Inv(v) && n in v.Live()
    ensures Locate(v.Live(), n.hash) == Some(n)
  {
    LocateFinds(v.Live(), n.hash);
    LiveUnique(v);
  }

  /** A lookup of a stored, unexpired entry finds its answer, counts one hit on it and changes nothing else. */
  lemma LookupHit(v: View, n: Node, now: nat)
    requires Inv(v) && n in v.Live() && now < n.expires
    ensures var (w, found) := Get(v, n.hash, n.key, now);
      && found == Some(n.answer)
      && OneMoreHit(v.small, w.small, n) && OneMoreHit(v.main, w.main, n)
      && w == v.(small := w.small, main := w.main)
  {
    hide Locate, Bump;
    LocateLive(v, n);
    if n in v.small {
      BumpAt(v.small, n);
      assert forall m :: m in v.main ==> Differ(n, m);
      BumpAbsent(v.main, n.slot);
    } else {
      BumpAt(v.main, n);
      assert forall m :: m in v.small ==> Differ(m, n);
      BumpAbsent(v.small, n.slot);
    }
  }

  /** A lookup of an expired entry drops that entry alone; its hash is remembered if it had been hit. */
  lemma LookupExpired(v: View, n: Node, now: nat)
    requires Inv(v) && n in v.Live() && n.expires <= now
    ensures var (w, found) := Get(v, n.hash, n.key, now);
      && found == None
      && (forall m :: m in w.Live() <==> m in v.Live() && m != n)
      && w.free == v.free + [n.slot]
      && (n.freq == 0 ==> w.ghosts == v.ghosts && w.ring == v.ring)
      && (n.freq > 0 && v.GhostCap() > 0 && Numbered(v) ==> n.hash in w.ghosts)
  {
    hide Locate, Without, PushGhost, Inv;
    LocateLive(v, n);
    assert QueuesApart(v) by {
      InvParts(v);
    }
    RemoveSlotInv(v, n);
    LiveUnique(v);
    var u := RemoveSlot(v, n.slot);
    PushGhostKeeps(u, n.hash);
    if v.GhostCap() > 0 && Numbered(v) {
      InvParts(u);
      PushGhostRemembers(u, n.hash);
    }
  }

  lemma InvParts(v: View)
    requires Inv(v)
    ensures QueuesApart(v) && RingSound(v)
  {
  }

  /** A lookup of anything else finds nothing and changes nothing. */
  lemma LookupMiss(v: View, hash: Hash, key: Key, now: nat)
    requires forall n :: n in v.Live() ==> n.hash != hash || n.key != key
    ensures Get(v, hash, key, now) == (v, None)
  {
    LocateFinds(v.Live(), hash);
  }

  /** Forgetting takes out the entry of that exact key if it is a failure, reports just that, and changes no other. */
  lemma ForgetExact(v: View, hash: Hash, key: Key)
    requires Inv(v)
    ensures var (w, forgotten) := ForgetFailure(v, hash, key);
      && (forgotten <==> exists n :: n in v.Live() && n.hash == hash && n.key == key && n.answer.failed)
      && (forall m :: m in w.Live() <==> m in v.Live() && !(m.hash == hash && m.key == key && m.answer.failed))
      && (!forgotten ==> w == v) && w.ghosts == v.ghosts && w.ring == v.ring
  {
    hide Inv, Locate, Without;
    LocateFinds(v.Live(), hash);
    if Locate(v.Live(), hash).Some? {
      var n := Locate(v.Live(), hash).value;
      RemoveSlotInv(v, n);
      InvParts(v);
      LiveUnique(v);
    }
  }

  // ---------------------------------------------------------------------------------------
  // Whole runs

  /** What a lookup in the plain map gives: an entry of that exact key, before its drop time. */
  function PlainGet(m: Plain, hash: Hash, key: Key, now: nat): Option<Answer> {
    if hash in m && m[hash].0 == key && now < m[hash].1.staleUntil then Some(m[hash].1) else None
  }

  /** Every insert of the run found a slot and fitted without evicting. */
  predicate Uncrowded(budget: nat, ops: seq<Op>) {
    ops != [] ==>
      var v, op := Run(Empty(budget), ops[..|ops| - 1]), ops[|ops| - 1];
      && Uncrowded(budget, ops[..|ops| - 1])
      && (op.OpInsert? ==>
            Admit(v, op.hash, op.key, op.answer).0.Total() <= budget && HasSlot(v, op.hash, op.key))
  }

  lemma {:induction false} RunCovers(budget: nat, ops: seq<Op>)
    requires Uncrowded(budget, ops)
    ensures Covers(Run(Empty(budget), ops), PlainRun(budget, ops))
  {
    hide Apply, PlainStep, Covers, Inv, Admit, HasSlot;
    if ops == [] {
      assert Covers(Empty(budget), map[]) by {
        NothingCovered(budget);
      }
    } else {
      var before := ops[..|ops| - 1];
      RunCovers(budget, before);
      RunWithin(budget, before);
      RunWithinBudget(budget, before);
      ApplyCovers(Run(Empty(budget), before), PlainRun(budget, before), ops[|ops| - 1]);
    }
  }

  lemma NothingCovered(budget: nat)
    ensures Covers(Empty(budget), map[])
  {
  }

  lemma PlainFound(v: View, m: Plain, hash: Hash, key: Key, now: nat)
    requires Inv(v) && Within(v, m) && Dated(v) && Covers(v, m)
    ensures Get(v, hash, key, now).1 == PlainGet(m, hash, key, now)
  {
    hide Inv, Locate, Bump, RemoveSlot, PushGhost;
    LocateFinds(v.Live(), hash);
    if hash in m && m[hash].0 == key {
      var n :| n in v.Live() && n.hash == hash && n.key == key && n.answer == m[hash].1;
      LocateLive(v, n);
    } else {
      forall n | n in v.Live() ensures n.hash != hash || n.key != key {
        assert Holds(v, n.hash, n.key, n.answer);
      }
      LookupMiss(v, hash, key, now);
    }
  }

  /** As long as no insert evicts, every lookup gives exactly what the plain map gives. */
  lemma UncrowdedIsPlain(budget: nat, ops: seq<Op>, hash: Hash, key: Key, now: nat)
    requires Uncrowded(budget, ops)
    ensures Get(Run(Empty(budget), ops), hash, key, now).1 == PlainGet(PlainRun(budget, ops), hash, key, now)
  {
    hide Get, Inv, Covers, Dated, ShardRuns.Within, Run, PlainRun, Uncrowded, PlainGet;
    RunCovers(budget, ops);
    RunWithin(budget, ops);
    RunWithinBudget(budget, ops);
    PlainFound(Run(Empty(budget), ops), PlainRun(budget, ops), hash, key, now);
  }

  /** The operation does not touch this entry: no other insert on its hash, no removal, no look after its drop time. */
  predicate Undisturbed(op: Op, hash: Hash, key: Key, answer: Answer) {
    match op
    case OpGet(h, k, now) => h == hash && k == key ==> now < answer.staleUntil
    case OpInsert(h, _, _, _) => h != hash
    case OpForget(h, k) => h == hash && k == key ==> !answer.failed
    case OpRemove(matches) => !matches(key)
    case OpClear => false
  }

  lemma {:induction false} PlainKeeps(budget: nat, ops: seq<Op>, at: nat)
    requires at < |ops| && ops[at].OpInsert?
    requires EntryCost(ops[at].key, ops[at].answer) <= budget / OVERSIZE_DIVISOR
    requires forall i :: at < i < |ops| ==> Undisturbed(ops[i], ops[at].hash, ops[at].key, ops[at].answer)
    ensures var m := PlainRun(budget, ops);
      ops[at].hash in m && m[ops[at].hash] == (ops[at].key, ops[at].answer)
    decreases |ops|
  {
    var before := ops[..|ops| - 1];
    if at < |before| {
      assert before[at] == ops[at];
      assert forall i :: at < i < |before| ==> before[i] == ops[i];
      PlainKeeps(budget, before, at);
    }
  }

  /**
   An entry that is not oversized is found by every lookup before its drop time, as long as the run evicts nothing
   and nothing after the insert touches it.
   */
  lemma FoundUntilStale(budget: nat, ops: seq<Op>, at: nat, now: nat)
    requires Uncrowded(budget, ops) && at < |ops| && ops[at].OpInsert? && now < ops[at].answer.staleUntil
    requires EntryCost(ops[at].key, ops[at].answer) <= budget / OVERSIZE_DIVISOR
    requires forall i :: at < i < |ops| ==> Undisturbed(ops[i], ops[at].hash, ops[at].key, ops[at].answer)
    ensures Get(Run(Empty(budget), ops), ops[at].hash, ops[at].key, now).1 == Some(ops[at].answer)
  {
    hide Get, Run, PlainRun, Uncrowded, Undisturbed;
    PlainKeeps(budget, ops, at);
    UncrowdedIsPlain(budget, ops, ops[at].hash, ops[at].key, now);
  }

  // ---------------------------------------------------------------------------------------
  // The whole store

  lemma PlainRunPlus(budget: nat, ops: seq<Op>, op: Op)
    ensures PlainRun(budget, ops + [op]) == PlainStep(PlainRun(budget, ops), budget, op)
  {
    assert (ops + [op])[..|ops|] == ops;
  }

  predicate Agree(a: Plain, b: Plain, hash: Hash) {
    (hash in a <==> hash in b) && (hash in a ==> a[hash] == b[hash])
  }

  lemma PlainStepAgrees(a: Plain, b: Plain, budget: nat, op: Op, hash: Hash)
    requires Agree(a, b, hash)
    ensures Agree(PlainStep(a, budget, op), PlainStep(b, budget, op), hash)
    ensures Keyed(op) && op.hash != hash ==> Agree(a, PlainStep(b, budget, op), hash)
  {
  }

  /** On the hashes of one shard, the plain map of the whole run is that of the operations reaching the shard. */
  lemma {:induction false} PlainReaching(budget: nat, ops: seq<Op>, hash: Hash, count: nat)
    requires count > 0
    ensures Agree(PlainRun(budget, Reaching(ops, ShardOf(hash, count), count)), PlainRun(budget, ops), hash)
  {
    hide ShardOf, PlainStep, Agree;
    if ops == [] {
      assert Agree(map[], map[], hash) by {
        NothingAgrees(hash);
      }
    } else {
      var before, op, i := ops[..|ops| - 1], ops[|ops| - 1], ShardOf(hash, count);
      PlainReaching(budget, before, hash, count);
      PlainStepAgrees(PlainRun(budget, Reaching(before, i, count)), PlainRun(budget, before), budget, op, hash);
      if Concerns(op, i, count) {
        PlainRunPlus(budget, Reaching(before, i, count), op);
      }
    }
  }

  lemma NothingAgrees(hash: Hash)
    ensures Agree(map[], map[], hash)
  {
  }

  /** As long as no insert evicts in its shard, every lookup in the store gives exactly what one plain map gives. */
  lemma StoreIsPlain(count: nat, budget: nat, ops: seq<Op>, hash: Hash, key: Key, now: nat)
    requires PowerOfTwo(count)
    requires count > 0 && Uncrowded(budget, Reaching(ops, ShardOf(hash, count), count))
    ensures ShardOf(hash, count) < count
    ensures var shard := StoreRun(EmptyStore(count, budget), ops)[ShardOf(hash, count)];
      Get(shard, hash, key, now).1 == PlainGet(PlainRun(budget, ops), hash, key, now)
  {
    hide Get, Run, StoreRun, ShardOf, EmptyStore, Uncrowded, PlainRun, Reaching;
    ShardOfRemainder(hash, count);
    var i := ShardOf(hash, count);
    ShardsRunAlone(count, budget, ops, i);
    UncrowdedIsPlain(budget, Reaching(ops, i, count), hash, key, now);
    PlainReaching(budget, ops, hash, count);
  }

  /** The same for an entry of the store: found until its drop time while its shard evicts nothing. */
  lemma StoreFoundUntilStale(count: nat, budget: nat, ops: seq<Op>, at: nat, now: nat)
    requires PowerOfTwo(count) && at < |ops| && ops[at].OpInsert? && now < ops[at].answer.staleUntil
    requires count > 0 && Uncrowded(budget, Reaching(ops, ShardOf(ops[at].hash, count), count))
    requires EntryCost(ops[at].key, ops[at].answer) <= budget / OVERSIZE_DIVISOR
    requires forall i :: at < i < |ops| ==> Undisturbed(ops[i], ops[at].hash, ops[at].key, ops[at].answer)
    ensures ShardOf(ops[at].hash, count) < count
    ensures var shard := StoreRun(EmptyStore(count, budget), ops)[ShardOf(ops[at].hash, count)];
      Get(shard, ops[at].hash, ops[at].key, now).1 == Some(ops[at].answer)
  {
    hide Get, StoreRun, ShardOf, EmptyStore, Uncrowded, PlainRun, Reaching, Undisturbed;
    PlainKeeps(budget, ops, at);
    StoreIsPlain(count, budget, ops, ops[at].hash, ops[at].key, now);
  }

  // ---------------------------------------------------------------------------------------
  // Ghosts: a hash evicted from Small, or dropped expired after a hit, is remembered

  /** Ghosts are numbered in the order they were pushed, so a new one has a number of its own. */
  predicate Numbered(v: View) {
    forall i :: 0 <= i < |v.ring| ==> v.ring[i].1 <= v.ghostSeq
  }

  lemma {:induction false} TrimRingNumbered(v: View)
    requires Numbered(v)
    ensures Numbered(TrimRing(v))
    decreases |v.ring|
  {
    if |v.ring| > v.GhostCap() {
      var (hash, number) := v.ring[0];
      var ghosts := if hash in v.ghosts && v.ghosts[hash] == number then v.ghosts - {hash} else v.ghosts;
      TrimRingNumbered(v.(ring := v.ring[1..], ghosts := ghosts));
    }
  }

  lemma PushGhostNumbered(v: View, hash: Hash)
    requires Numbered(v)
    ensures Numbered(PushGhost(v, hash))
  {
    if v.GhostCap() != 0 {
      var number := v.ghostSeq + 1;
      TrimRingNumbered(v.(ghostSeq := number, ghosts := v.ghosts[hash := number], ring := v.ring + [(hash, number)]));
    }
  }

  lemma {:induction false} MakeRoomNumbered(v: View, now: nat)
    requires Numbered(v)
    ensures Numbered(MakeRoom(v, now))
    decreases v.Work()
  {
    hide PushGhost, Earliest, HasExpired, Numbered;
    match RoomStep(v, now)
    case None =>
    case Some(w) =>
      RoomStepWorks(v, now);
      assert Numbered(w) by {
        RoomStepNumbered(v, now);
      }
      MakeRoomNumbered(w, now);
  }

  lemma RoomStepNumbered(v: View, now: nat)
    requires Numbered(v) && RoomStep(v, now).Some?
    ensures Numbered(RoomStep(v, now).value)
  {
    hide PushGhost, Earliest, HasExpired, Bytes;
    if v.small != [] {
      PushGhostNumbered(v.(small := v.small[1..], free := v.free + [v.small[0].slot]), v.small[0].hash);
    }
  }

  lemma {:induction false} SweepNumbered(v: View, matches: Key -> bool, from: nat)
    requires Numbered(v)
    ensures Numbered(RemoveMatching(v, matches, from))
    decreases v.top - from
  {
    hide NodeAt, Without;
    if from < v.top {
      var n := NodeAt(v.Live(), from);
      SweepNumbered(if n.Some? && matches(n.value.key) then RemoveSlot(v, from) else v, matches, from + 1);
    }
  }

  lemma ApplyNumbered(v: View, op: Op)
    requires Numbered(v)
    ensures Numbered(Apply(v, op))
  {
    hide PushGhost, MakeRoom, Locate, Without, Bump;
    match op
    case OpGet(hash, key, now) =>
      if Locate(v.Live(), hash).Some? {
        PushGhostNumbered(RemoveSlot(v, Locate(v.Live(), hash).value.slot), Locate(v.Live(), hash).value.hash);
      }
    case OpInsert(hash, key, answer, now) => MakeRoomNumbered(Admit(v, hash, key, answer).0, now);
    case OpForget(hash, key) =>
    case OpRemove(matches) => SweepNumbered(v, matches, 0);
    case OpClear =>
  }

  lemma {:induction false} RunNumbered(budget: nat, ops: seq<Op>)
    ensures Numbered(Run(Empty(budget), ops))
  {
    hide Apply;
    if ops != [] {
      RunNumbered(budget, ops[..|ops| - 1]);
      ApplyNumbered(Run(Empty(budget), ops[..|ops| - 1]), ops[|ops| - 1]);
    }
  }

  /** A pushed hash is remembered, and a full ring forgets its oldest entry for it: that one alone. */
  lemma PushGhostRemembers(v: View, hash: Hash)
    requires RingSound(v) && Numbered(v) && v.GhostCap() > 0
    ensures var w, full := PushGhost(v, hash), |v.ring| == v.GhostCap();
      && hash in w.ghosts
      && w.ring == (if full then v.ring[1..] else v.ring) + [(hash, v.ghostSeq + 1)]
      && forall h :: h != hash ==>
        (h in w.ghosts <==> h in v.ghosts && !(full && v.ring[0] == (h, v.ghosts[h])))
  {
    var number := v.ghostSeq + 1;
    var pushed := v.(ghostSeq := number, ghosts := v.ghosts[hash := number], ring := v.ring + [(hash, number)]);
    if |v.ring| == v.GhostCap() {
      assert v.ring[0].1 != number;
      var (h, k) := pushed.ring[0];
      assert pushed.ring[1..] == v.ring[1..] + [(hash, number)];
      var ghosts := if h in pushed.ghosts && pushed.ghosts[h] == k then pushed.ghosts - {h} else pushed.ghosts;
      assert TrimRing(pushed) == pushed.(ring := pushed.ring[1..], ghosts := ghosts);
    }
  }

  /** An eviction from Small remembers the hash; one from Main changes no ghost. */
  lemma EvictedRemembered(v: View, n: Node)
    requires Inv(v) && Numbered(v) && v.GhostCap() > 0
    requires EvictOne(v).Some? && n in v.Live() && n.Id() !in EvictOne(v).value.Ids()
    ensures var w := EvictOne(v).value;
      && Numbered(w) && n.freq == 0
      && (n in v.small ==> n == v.small[0] && n.hash in w.ghosts)
      && (n in v.main ==> n == v.main[0] && w.ghosts == v.ghosts && w.ring == v.ring)
  {
    hide PushGhost, Bytes;
    var w := EvictOne(v).value;
    assert forall m :: m in w.Live() ==> m.Id() in w.Ids();
    if Bytes(v.small) > v.SmallTarget() || v.main == [] {
      var x := v.small[0];
      var u := v.(small := v.small[1..], free := v.free + [x.slot]);
      PushGhostNumbered(u, x.hash);
      PushGhostRemembers(u, x.hash);
      PushGhostKeeps(u, x.hash);
      assert forall m :: m in v.small ==> m == x || m in v.small[1..];
      assert n in v.main ==> n in w.main;
      assert x.freq > 0 ==> w.main[|v.main|].Id() == x.Id();
    } else {
      var x := v.main[0];
      assert forall m :: m in v.main ==> m == x || m in v.main[1..];
      assert x.freq > 0 ==> w.main[|v.main| - 1].Id() == x.Id();
    }
  }

  /** The key is stored and has been hit or promoted. */
  ghost predicate InUse(v: View, hash: Hash, key: Key) {
    exists n :: n in v.Live() && n.hash == hash && n.key == key && (n.freq > 0 || n in v.main)
  }

  lemma DisplacedInUse(v: View, hash: Hash, key: Key)
    requires Inv(v)
    ensures Displace(v, hash, key).1 <==> InUse(v, hash, key)
  {
    LocateFinds(v.Live(), hash);
    forall n | n in v.Live() && n.hash == hash ensures Locate(v.Live(), hash) == Some(n) {
      LocateLive(v, n);
    }
  }

  /** The queue a new entry joins: Main if its key was in use or its hash is remembered, Small otherwise. */
  lemma AdmittedQueue(v: View, hash: Hash, key: Key, answer: Answer)
    requires Inv(v) && Admit(v, hash, key, answer).1
    ensures var w, x := Admit(v, hash, key, answer).0, NewNode(v, hash, key, answer);
      && x in w.Live() && hash !in w.ghosts
      && (x in w.main <==> hash in v.ghosts || InUse(v, hash, key))
  {
    hide Admit, Inv, NewNode, Displace;
    PlacedQueue(v, hash, key, answer);
    DisplacedInUse(v, hash, key);
  }

  lemma DisplacedGhosts(v: View, hash: Hash, key: Key)
    ensures Displace(v, hash, key).0.ghosts == v.ghosts
  {
    hide Locate, Without;
  }

  lemma PlacedQueue(v: View, hash: Hash, key: Key, answer: Answer)
    requires Inv(v) && Admit(v, hash, key, answer).1
    ensures var w, x := Admit(v, hash, key, answer).0, NewNode(v, hash, key, answer);
      && x in w.Live() && hash !in w.ghosts
      && (x in w.main <==> hash in v.ghosts || Displace(v, hash, key).1)
  {
    hide Inv, Displace;
    AdmitInv(v, hash, key, answer);
    DisplacedGhosts(v, hash, key);
    var w, x := Admit(v, hash, key, answer).0, NewNode(v, hash, key, answer);
    InvParts(w);
    assert x in w.main ==> x !in w.small by {
      assert x in w.main && x in w.small ==> Differ(x, x);
    }
    assert x == if hash in v.ghosts || Displace(v, hash, key).1 then w.main[|w.main| - 1] else w.small[|w.small| - 1];
  }

  /** An entry evicted unread from Small joins Main when it is inserted again. */
  lemma SecondChance(v: View, n: Node, key: Key, answer: Answer)
    requires Inv(v) && Numbered(v) && v.GhostCap() > 0 && EvictOne(v).Some?
    requires n in v.small && n.Id() !in EvictOne(v).value.Ids()
    requires Admit(EvictOne(v).value, n.hash, key, answer).1
    ensures NewNode(EvictOne(v).value, n.hash, key, answer) in Admit(EvictOne(v).value, n.hash, key, answer).0.main
  {
    hide Admit, EvictOne, Inv, NewNode;
    EvictOneInv(v);
    EvictedRemembered(v, n);
    AdmittedQueue(EvictOne(v).value, n.hash, key, answer);
  }
}
