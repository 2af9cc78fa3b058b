/**
 What the shard guarantees over whole runs: the byte budget, the bound on eviction work and
 agreement with a plain map in which the last insert wins.
 */
module ShardRuns {
  import opened Base
  import opened ShardModel
  import opened ShardInvariant

  datatype Op =
    | OpGet(hash: Hash, key: Key, now: nat)
    | OpInsert(hash: Hash, key: Key, answer: Answer, now: nat)
    | OpForget(hash: Hash, key: Key)
    | OpRemove(matches: Key -> bool)
    | OpClear

  function Apply(v: View, op: Op): View {
    match op
    case OpGet(hash, key, now) => Get(v, hash, key, now).0
    case OpInsert(hash, key, answer, now) => Insert(v, hash, key, answer, now).0
    case OpForget(hash, key) => ForgetFailure(v, hash, key).0
    case OpRemove(matches) => RemoveMatching(v, matches, 0)
    case OpClear => Clear(v)
  }

  function Run(v: View, ops: seq<Op>): View {
    if ops == [] then v else Apply(Run(v, ops[..|ops| - 1]), ops[|ops| - 1])
  }

  // ---------------------------------------------------------------------------------------
  // Budget and termination

  lemma ApplyInv(v: View, op: Op)
    requires Inv(v) && v.Total() <= v.budget
    ensures Inv(Apply(v, op)) && Apply(v, op).budget == v.budget && Apply(v, op).Total() <= v.budget
  {
    match op
    case OpGet(hash, key, now) => GetInv(v, hash, key, now);
    case OpInsert(hash, key, answer, now) => InsertInv(v, hash, key, answer, now);
    case OpForget(hash, key) =>
      ForgetInv(v, hash, key);
    case OpRemove(matches) => RemoveMatchingInv(v, matches, 0);
    case OpClear => EmptyInv(v.budget);
  }

  /** Every reachable state satisfies the invariant and holds at most `budget` bytes, ghosts included. */
  lemma {:induction false} RunWithinBudget(budget: nat, ops: seq<Op>)
    ensures Inv(Run(Empty(budget), ops))
    ensures Run(Empty(budget), ops).budget == budget
    ensures Run(Empty(budget), ops).Total() <= budget
  {
    if ops == [] {
      EmptyInv(budget);
    } else {
      RunWithinBudget(budget, ops[..|ops| - 1]);
      ApplyInv(Run(Empty(budget), ops[..|ops| - 1]), ops[|ops| - 1]);
    }
  }

  /** Turns the eviction loop takes. */
  function RoomSteps(v: View, now: nat): nat
    decreases v.Work()
  {
    match RoomStep(v, now)
    case None => 0
    case Some(w) =>
      RoomStepWorks(v, now);
      1 + RoomSteps(w, now)
  }

  lemma {:induction false} FreqsBounded(q: seq<Node>)
    requires forall n :: n in q ==> n.freq <= MAX_FREQ
    ensures Freqs(q) <= MAX_FREQ * |q|
  {
    if q != [] {
      assert q[0] in q;
      FreqsBounded(q[1..]);
    }
  }

  lemma {:induction false} RoomStepsBounded(v: View, now: nat)
    ensures RoomSteps(v, now) <= v.Work()
    decreases v.Work()
  {
    match RoomStep(v, now)
    case None =>
    case Some(w) =>
      RoomStepWorks(v, now);
      RoomStepsBounded(w, now);
  }

  /** At most four turns per live slot, and the loop stops above the budget only with both queues empty. */
  lemma EvictionWork(v: View, now: nat)
    requires Inv(v)
    ensures RoomSteps(v, now) <= (MAX_FREQ + 1) * |v.Live()|
    ensures RoomStep(v, now).None? ==> v.Total() <= v.budget || v.Live() == []
  {
    RoomStepsBounded(v, now);
    forall n | n in v.small ensures n.freq <= MAX_FREQ {
      assert n in v.Live() && Sound(n, v);
    }
    forall n | n in v.main ensures n.freq <= MAX_FREQ {
      assert n in v.Live() && Sound(n, v);
    }
    FreqsBounded(v.small);
    FreqsBounded(v.main);
  }

  // ---------------------------------------------------------------------------------------
  // The plain map: newest entry per hash wins, nothing is ever evicted

  type Plain = map<Hash, (Key, Answer)>

  function PlainStep(m: Plain, budget: nat, op: Op): Plain {
    match op
    case OpGet(hash, key, now) =>
      if hash in m && m[hash].0 == key && m[hash].1.staleUntil <= now then m - {hash} else m
    case OpInsert(hash, key, answer, now) =>
      if EntryCost(key, answer) > budget / OVERSIZE_DIVISOR then m - {hash} else m[hash := (key, answer)]
    case OpForget(hash, key) =>
      if hash in m && m[hash].0 == key && m[hash].1.failed then m - {hash} else m
    case OpRemove(matches) => map hash | hash in m && !matches(m[hash].0) :: m[hash]
    case OpClear => map[]
  }

  function PlainRun(budget: nat, ops: seq<Op>): Plain {
    if ops == [] then map[] else PlainStep(PlainRun(budget, ops[..|ops| - 1]), budget, ops[|ops| - 1])
  }

  /** The shard's content, as a map from hash to key and answer. */
  ghost predicate Holds(v: View, hash: Hash, key: Key, answer: Answer) {
    exists n :: n in v.Live() && n.hash == hash && n.key == key && n.answer == answer
  }

  predicate Dated(v: View) {
    forall n :: n in v.Live() ==> n.expires == n.answer.staleUntil
  }

  /** Everything the shard holds is in the plain map. */
  ghost predicate Within(v: View, m: Plain) {
    forall hash, key, answer :: Holds(v, hash, key, answer) ==> hash in m && m[hash] == (key, answer)
  }

  /** Nothing of the plain map is missing from the shard. */
  ghost predicate Covers(v: View, m: Plain) {
    forall hash :: hash in m ==> Holds(v, hash, m[hash].0, m[hash].1)
  }

  lemma HoldsById(v: View, n: Node)
    requires n.Id() in v.Ids()
    ensures Holds(v, n.hash, n.key, n.answer)
    ensures exists m :: m in v.Live() && m.Id() == n.Id() && m.expires == n.expires
  {
    var m :| m in v.Live() && m.Id() == n.Id();
    assert m.hash == m.Id().hash == n.hash && m.key == m.Id().key && m.answer == m.Id().answer && m.expires == m.Id().expires;
  }

  lemma IdOf(v: View, n: Node)
    requires n in v.Live()
    ensures n.Id() in v.Ids() && Holds(v, n.hash, n.key, n.answer)
  {
  }

  /** Fewer nodes hold less. */
  lemma ShrinkWithin(v: View, w: View, m: Plain)
    requires w.Ids() <= v.Ids() && Within(v, m) && Dated(v)
    ensures Within(w, m) && Dated(w)
  {
    forall n | n in w.Live() ensures Holds(v, n.hash, n.key, n.answer) && n.expires == n.answer.staleUntil {
      IdOf(w, n);
      HoldsById(v, n);
    }
  }

  /** A hash the operation empties in the plain map is not held any more. */
  lemma DropWithin(v: View, w: View, m: Plain, hash: Hash)
    requires w.Ids() <= v.Ids() && Within(v, m) && Dated(v)
    requires forall n :: n in w.Live() ==> n.hash != hash
    ensures Within(w, m - {hash}) && Dated(w)
  {
    ShrinkWithin(v, w, m);
  }

  lemma GetWithin(v: View, m: Plain, hash: Hash, key: Key, now: nat)
    requires Inv(v) && Within(v, m) && Dated(v)
    ensures Within(Get(v, hash, key, now).0, PlainStep(m, v.budget, OpGet(hash, key, now)))
    ensures Dated(Get(v, hash, key, now).0)
    ensures Get(v, hash, key, now).1.Some? ==> hash in m && m[hash] == (key, Get(v, hash, key, now).1.value)
  {
    GetInv(v, hash, key, now);
    LocateFinds(v.Live(), hash);
    var w := Get(v, hash, key, now).0;
    ShrinkWithin(v, w, m);
    match Locate(v.Live(), hash)
    case None =>
      IdsKeepHash(v, w, hash);
      DropWithin(v, w, m, hash);
    case Some(n) =>
      IdOf(v, n);
      if n.key == key && n.expires <= now {
        DropNodeInv(v, n, w);
        HashIsSlot(v, n);
        DropWithin(v, w, m, hash);
      }
  }

  lemma IdsKeepHash(v: View, w: View, hash: Hash)
    requires w.Ids() <= v.Ids() && forall n :: n in v.Live() ==> n.hash != hash
    ensures forall n :: n in w.Live() ==> n.hash != hash
  {
    forall n | n in w.Live() ensures n.hash != hash {
      IdOf(w, n);
      HoldsById(v, n);
    }
  }

  lemma ForgetWithin(v: View, m: Plain, hash: Hash, key: Key)
    requires Inv(v) && Within(v, m) && Dated(v)
    ensures Within(ForgetFailure(v, hash, key).0, PlainStep(m, v.budget, OpForget(hash, key)))
    ensures Dated(ForgetFailure(v, hash, key).0)
  {
    LocateFinds(v.Live(), hash);
    match Locate(v.Live(), hash)
    case None =>
    case Some(n) =>
      IdOf(v, n);
      if n.key == key && n.answer.failed {
        DropNodeInv(v, n, RemoveSlot(v, n.slot));
        HashIsSlot(v, n);
        DropWithin(v, RemoveSlot(v, n.slot), m, hash);
      }
  }

  lemma RemoveWithin(v: View, m: Plain, matches: Key -> bool)
    requires Inv(v) && Within(v, m) && Dated(v)
    ensures Within(RemoveMatching(v, matches, 0), PlainStep(m, v.budget, OpRemove(matches)))
    ensures Dated(RemoveMatching(v, matches, 0))
  {
    RemoveMatchingInv(v, matches, 0);
    var w := RemoveMatching(v, matches, 0);
    forall n | n in w.Live() ensures Kept(n, matches, 0) && Holds(v, n.hash, n.key, n.answer) {
      IdOf(v, n);
    }
  }

  /** The nodes an insert leaves are older ones of other hashes, and possibly the new one. */
  lemma InsertNodes(v: View, hash: Hash, key: Key, answer: Answer, now: nat)
    requires Inv(v) && Dated(v)
    ensures var w := Insert(v, hash, key, answer, now).0;
      && Dated(w)
      && forall n :: n in w.Live() ==>
        || (n.hash != hash && Holds(v, n.hash, n.key, n.answer))
        || (n.hash == hash && n.key == key && n.answer == answer && EntryCost(key, answer) <= v.budget / OVERSIZE_DIVISOR)
  {
    AdmitInv(v, hash, key, answer);
    var (u, admitted) := Admit(v, hash, key, answer);
    var w := Insert(v, hash, key, answer, now).0;
    if admitted {
      MakeRoomInv(u, now);
    }
    forall n | n in w.Live()
      ensures n.expires == n.answer.staleUntil
      ensures || (n.hash != hash && Holds(v, n.hash, n.key, n.answer))
        || (n.hash == hash && n.key == key && n.answer == answer && EntryCost(key, answer) <= v.budget / OVERSIZE_DIVISOR)
    {
      IdOf(w, n);
      HoldsById(u, n);
      var m :| m in u.Live() && m.Id() == n.Id() && m.expires == n.expires;
      assert m.hash == m.Id().hash == n.hash && m.key == m.Id().key == n.key && m.answer == m.Id().answer == n.answer;
      if m.hash != hash {
        IdOf(v, m);
      }
    }
  }

  lemma ApplyWithin(v: View, m: Plain, op: Op)
    requires Inv(v) && Within(v, m) && Dated(v)
    ensures Within(Apply(v, op), PlainStep(m, v.budget, op)) && Dated(Apply(v, op))
  {
    match op
    case OpGet(hash, key, now) => GetWithin(v, m, hash, key, now);
    case OpInsert(hash, key, answer, now) => InsertNodes(v, hash, key, answer, now);
    case OpForget(hash, key) => ForgetWithin(v, m, hash, key);
    case OpRemove(matches) => RemoveWithin(v, m, matches);
    case OpClear =>
  }

  /** Every run stays inside the plain map run on the same operations. */
  lemma {:induction false} RunWithin(budget: nat, ops: seq<Op>)
    ensures Within(Run(Empty(budget), ops), PlainRun(budget, ops)) && Dated(Run(Empty(budget), ops))
  {
    if ops != [] {
      var before := ops[..|ops| - 1];
      RunWithin(budget, before);
      RunWithinBudget(budget, before);
      ApplyWithin(Run(Empty(budget), before), PlainRun(budget, before), ops[|ops| - 1]);
    }
  }

  /** Whether an insert of this hash finds a slot: a freed one, or a new index below the last. */
  predicate HasSlot(v: View, hash: Hash, key: Key) {
    Displace(v, hash, key).0.free != [] || v.top < NIL
  }

  /** Only an insert that has to evict or finds no slot makes the shard fall behind the plain map. */
  lemma ApplyCovers(v: View, m: Plain, op: Op)
    requires Inv(v) && Within(v, m) && Dated(v) && Covers(v, m)
    requires op.OpInsert? ==>
      && Admit(v, op.hash, op.key, op.answer).0.Total() <= v.budget
      && HasSlot(v, op.hash, op.key)
    ensures Covers(Apply(v, op), PlainStep(m, v.budget, op))
  {
    match op
    case OpGet(hash, key, now) => GetCovers(v, m, hash, key, now);
    case OpInsert(hash, key, answer, now) => InsertCovers(v, m, hash, key, answer, now);
    case OpForget(hash, key) => ForgetCovers(v, m, hash, key);
    case OpRemove(matches) => RemoveCovers(v, m, matches);
    case OpClear =>
  }

  lemma GrowCovers(v: View, w: View, m: Plain)
    requires v.Ids() <= w.Ids() && Covers(v, m)
    ensures Covers(w, m)
  {
    forall hash | hash in m ensures Holds(w, hash, m[hash].0, m[hash].1) {
      var n :| n in v.Live() && n.hash == hash && n.key == m[hash].0 && n.answer == m[hash].1;
      IdOf(v, n);
      HoldsById(w, n);
    }
  }

  lemma DropCovers(v: View, n: Node, m: Plain)
    requires Inv(v) && n in v.Live() && Covers(v, m)
    ensures Covers(RemoveSlot(v, n.slot), m - {n.hash})
  {
    RemoveSlotInv(v, n);
    HashIsSlot(v, n);
    var w := RemoveSlot(v, n.slot);
    forall hash | hash in m - {n.hash} ensures Holds(w, hash, m[hash].0, m[hash].1) {
      var k :| k in v.Live() && k.hash == hash && k.key == m[hash].0 && k.answer == m[hash].1;
      assert k in w.Live();
    }
  }

  lemma GetCovers(v: View, m: Plain, hash: Hash, key: Key, now: nat)
    requires Inv(v) && Within(v, m) && Dated(v) && Covers(v, m)
    ensures Covers(Get(v, hash, key, now).0, PlainStep(m, v.budget, OpGet(hash, key, now)))
  {
    LocateFinds(v.Live(), hash);
    var w := Get(v, hash, key, now).0;
    match Locate(v.Live(), hash)
    case None =>
    case Some(n) =>
      IdOf(v, n);
      if n.key == key {
        if n.expires <= now {
          DropCovers(v, n, m);
          RemoveSlotInv(v, n);
          PushGhostInv(RemoveSlot(v, n.slot), n.hash);
          GrowCovers(RemoveSlot(v, n.slot), w, m - {hash});
        } else {
          TouchInv(v, n.slot);
          GrowCovers(v, w, m);
        }
      }
  }

  lemma ForgetCovers(v: View, m: Plain, hash: Hash, key: Key)
    requires Inv(v) && Within(v, m) && Covers(v, m)
    ensures Covers(ForgetFailure(v, hash, key).0, PlainStep(m, v.budget, OpForget(hash, key)))
  {
    LocateFinds(v.Live(), hash);
    match Locate(v.Live(), hash)
    case None =>
    case Some(n) =>
      IdOf(v, n);
      if n.key == key && n.answer.failed {
        DropCovers(v, n, m);
      }
  }

  lemma RemoveCovers(v: View, m: Plain, matches: Key -> bool)
    requires Inv(v) && Covers(v, m)
    ensures Covers(RemoveMatching(v, matches, 0), PlainStep(m, v.budget, OpRemove(matches)))
  {
    RemoveMatchingInv(v, matches, 0);
    var w, after := RemoveMatching(v, matches, 0), PlainStep(m, v.budget, OpRemove(matches));
    forall hash | hash in after ensures Holds(w, hash, after[hash].0, after[hash].1) {
      var n :| n in v.Live() && n.hash == hash && n.key == m[hash].0 && n.answer == m[hash].1;
      assert Kept(n, matches, 0) && n in w.Live();
    }
  }

  /** An entry is admitted exactly when it is not oversized and there is a slot for it. */
  lemma AdmittedIff(v: View, hash: Hash, key: Key, answer: Answer)
    requires Inv(v)
    ensures Admit(v, hash, key, answer).1
       <==> EntryCost(key, answer) <= v.budget / OVERSIZE_DIVISOR && HasSlot(v, hash, key)
  {
    DisplaceInv(v, hash, key);
  }

  lemma InsertCovers(v: View, m: Plain, hash: Hash, key: Key, answer: Answer, now: nat)
    requires Inv(v) && Covers(v, m) && HasSlot(v, hash, key)
    requires Admit(v, hash, key, answer).0.Total() <= v.budget
    ensures Covers(Insert(v, hash, key, answer, now).0, PlainStep(m, v.budget, OpInsert(hash, key, answer, now)))
  {
    AdmittedIff(v, hash, key, answer);
    hide Admit, Inv;
    AdmitInv(v, hash, key, answer);
    var (w, admitted) := Admit(v, hash, key, answer);
    assert Insert(v, hash, key, answer, now).0 == w;
    var after := PlainStep(m, v.budget, OpInsert(hash, key, answer, now));
    forall h | h in after ensures Holds(w, h, after[h].0, after[h].1) {
      if h == hash {
        assert NewNode(v, hash, key, answer) in w.Live();
      } else {
        var n :| n in v.Live() && n.hash == h && n.key == m[h].0 && n.answer == m[h].1;
        assert n in w.Live();
      }
    }
  }

  // ---------------------------------------------------------------------------------------
  // Last insert wins, key by key

  predicate Hashed(op: Op, keyHash: Key -> Hash) {
    match op
    case OpGet(hash, key, _) => hash == keyHash(key)
    case OpInsert(hash, key, _, _) => hash == keyHash(key)
    case OpForget(hash, key) => hash == keyHash(key)
    case OpRemove(_) => true
    case OpClear => true
  }

  /** The answer of the last insert call for exactly `key`, whatever became of it. */
  function LastInsert(ops: seq<Op>, key: Key): Option<Answer> {
    if ops == [] then None
    else
      var op := ops[|ops| - 1];
      if op.OpInsert? && op.key == key then Some(op.answer) else LastInsert(ops[..|ops| - 1], key)
  }

  lemma {:induction false} PlainIsLastInsert(budget: nat, ops: seq<Op>, keyHash: Key -> Hash)
    requires forall i :: 0 <= i < |ops| ==> Hashed(ops[i], keyHash)
    ensures forall hash :: hash in PlainRun(budget, ops) ==>
      && keyHash(PlainRun(budget, ops)[hash].0) == hash
      && LastInsert(ops, PlainRun(budget, ops)[hash].0) == Some(PlainRun(budget, ops)[hash].1)
  {
    if ops != [] {
      var before := ops[..|ops| - 1];
      PlainIsLastInsert(budget, before, keyHash);
      assert Hashed(ops[|ops| - 1], keyHash);
    }
  }

  /**
   A lookup after any run finds nothing, or the answer of the last insert for that exact key:
   never an older answer, and never one of another key with the same hash.
   */
  lemma LastInsertWins(budget: nat, ops: seq<Op>, keyHash: Key -> Hash, key: Key, now: nat)
    requires forall i :: 0 <= i < |ops| ==> Hashed(ops[i], keyHash)
    ensures var found := Get(Run(Empty(budget), ops), keyHash(key), key, now).1;
      found.None? || found == LastInsert(ops, key)
  {
    RunWithin(budget, ops);
    RunWithinBudget(budget, ops);
    PlainIsLastInsert(budget, ops, keyHash);
    GetWithin(Run(Empty(budget), ops), PlainRun(budget, ops), keyHash(key), key, now);
  }
}
