/**
 The shard invariant and its preservation by every operation, together with what each
 operation does to the set of stored nodes.
 */
module ShardInvariant {
  import opened Base
  import opened ShardModel

  predicate Differ(a: Node, b: Node) {
    a.slot != b.slot && a.hash != b.hash
  }

  /** No two nodes of the queue share a slot or a hash. */
  predicate Apart(q: seq<Node>) {
    q == [] || (Apart(q[1..]) && forall n :: n in q[1..] ==> Differ(q[0], n))
  }

  predicate Sound(n: Node, v: View) {
    n.slot < v.top && n.slot !in v.free && n.cost > GHOST_COST && n.freq <= MAX_FREQ
  }

  predicate NoRepeats(s: seq<nat>) {
    forall i, j :: 0 <= i < j < |s| ==> s[i] != s[j]
  }

  /** The free list holds exactly the indices below `top` that no live node uses, once each. */
  predicate FreeExact(v: View) {
    && NoRepeats(v.free)
    && (forall i :: 0 <= i < |v.free| ==> v.free[i] < v.top)
    && |v.free| + |v.small| + |v.main| == v.top
  }

  /** Every remembered hash has its entry in the ring, and the ring respects its capacity. */
  predicate RingSound(v: View) {
    && |v.ring| <= v.GhostCap()
    && (forall h :: h in v.ghosts ==> (h, v.ghosts[h]) in v.ring)
  }

  predicate QueuesApart(v: View) {
    && Apart(v.small)
    && Apart(v.main)
    && (forall a, b :: a in v.small && b in v.main ==> Differ(a, b))
  }

  predicate Inv(v: View) {
    && QueuesApart(v)
    && (forall n :: n in v.Live() ==> Sound(n, v))
    && FreeExact(v)
    && v.top <= NIL
    && RingSound(v)
  }

  lemma EmptyInv(budget: nat)
    ensures Inv(Empty(budget)) && Empty(budget).Total() <= budget
  {
  }

  // ---------------------------------------------------------------------------------------
  // Nodes of one queue

  lemma {:induction false} ApartConcat(a: seq<Node>, b: seq<Node>)
    requires Apart(a) && Apart(b) && forall x, y :: x in a && y in b ==> Differ(x, y)
    ensures Apart(a + b)
  {
    if a == [] {
      assert a + b == b;
    } else {
      assert (a + b)[1..] == a[1..] + b;
      assert a[0] in a;
      ApartConcat(a[1..], b);
    }
  }

  lemma {:induction false} ApartUnique(q: seq<Node>)
    requires Apart(q)
    ensures forall a, b :: a in q && b in q ==> a == b || Differ(a, b)
  {
    if q != [] {
      ApartUnique(q[1..]);
      assert forall a :: a in q ==> a == q[0] || a in q[1..];
    }
  }

  lemma {:induction false} ApartWithout(q: seq<Node>, slot: nat)
    requires Apart(q)
    ensures Apart(Without(q, slot))
    ensures forall n :: n in Without(q, slot) <==> n in q && n.slot != slot
  {
    if q != [] {
      assert forall a :: a in q <==> a == q[0] || a in q[1..];
      ApartWithout(q[1..], slot);
      if q[0].slot != slot {
        assert Without(q, slot)[1..] == Without(q[1..], slot);
      }
    }
  }

  lemma {:induction false} WithoutPresent(q: seq<Node>, n: Node)
    requires Apart(q) && n in q
    ensures |Without(q, n.slot)| == |q| - 1 && Bytes(Without(q, n.slot)) == Bytes(q) - n.cost
  {
    assert n == q[0] || n in q[1..];
    if q[0].slot != n.slot {
      WithoutPresent(q[1..], n);
      assert Without(q, n.slot)[1..] == Without(q[1..], n.slot);
    }
  }

  /** The nodes sharing a node's hash are those sharing its slot: itself. */
  lemma HashIsSlot(v: View, n: Node)
    requires QueuesApart(v) && n in v.Live()
    ensures forall m :: m in v.Live() ==> (m.hash == n.hash <==> m.slot == n.slot)
  {
    LiveUnique(v);
  }

  lemma LiveUnique(v: View)
    requires QueuesApart(v)
    ensures forall a, b :: a in v.Live() && b in v.Live() ==> a == b || Differ(a, b)
  {
    ApartUnique(v.small);
    ApartUnique(v.main);
  }

  lemma SameSlot(v: View, a: Node, b: Node)
    requires QueuesApart(v) && a in v.Live() && b in v.Live() && a.slot == b.slot
    ensures a == b
  {
    LiveUnique(v);
  }

  lemma FreePush(v: View, w: View, slot: nat)
    requires FreeExact(v) && slot !in v.free && slot < v.top
    requires w.free == v.free + [slot] && w.top == v.top && |w.small| + |w.main| + 1 == |v.small| + |v.main|
    ensures FreeExact(w)
  {
    assert forall i :: 0 <= i < |v.free| ==> v.free[i] in v.free;
  }

  // ---------------------------------------------------------------------------------------
  // Taking a node out

  /** A live node is in exactly one queue; removing its slot takes it out of that one. */
  lemma RemoveSlotNodes(v: View, n: Node)
    requires QueuesApart(v) && n in v.Live()
    ensures var w := RemoveSlot(v, n.slot);
      && |w.small| + |w.main| + 1 == |v.small| + |v.main|
      && w.Total() == v.Total() - n.cost
  {
    if n in v.small {
      WithoutPresent(v.small, n);
      WithoutAbsent(v.main, n.slot);
    } else {
      WithoutPresent(v.main, n);
      WithoutAbsent(v.small, n.slot);
    }
  }

  lemma RemoveSlotLive(v: View, slot: nat)
    requires QueuesApart(v)
    ensures QueuesApart(RemoveSlot(v, slot))
    ensures forall m :: m in RemoveSlot(v, slot).Live() <==> m in v.Live() && m.slot != slot
  {
    ApartWithout(v.small, slot);
    ApartWithout(v.main, slot);
  }

  lemma RemoveSlotInv(v: View, n: Node)
    requires Inv(v) && n in v.Live()
    ensures Inv(RemoveSlot(v, n.slot))
    ensures forall m :: m in RemoveSlot(v, n.slot).Live() <==> m in v.Live() && m.slot != n.slot
    ensures RemoveSlot(v, n.slot).Total() == v.Total() - n.cost
  {
    var w := RemoveSlot(v, n.slot);
    assert Sound(n, v);
    RemoveSlotNodes(v, n);
    RemoveSlotLive(v, n.slot);
    FreePush(v, w, n.slot);
  }

  lemma RemoveSlotIds(v: View, n: Node)
    requires QueuesApart(v) && n in v.Live()
    ensures RemoveSlot(v, n.slot).Ids() == v.Ids() - {n.Id()}
  {
    RemoveSlotLive(v, n.slot);
    LiveUnique(v);
  }

  // ---------------------------------------------------------------------------------------
  // The ghost ring

  lemma {:induction false} TrimRingSound(v: View)
    requires forall h :: h in v.ghosts ==> (h, v.ghosts[h]) in v.ring
    ensures RingSound(TrimRing(v))
    decreases |v.ring|
  {
    if |v.ring| > v.GhostCap() {
      var (hash, number) := v.ring[0];
      var ghosts := if hash in v.ghosts && v.ghosts[hash] == number then v.ghosts - {hash} else v.ghosts;
      forall h | h in ghosts ensures (h, ghosts[h]) in v.ring[1..] {
        assert (h, ghosts[h]) in v.ring && (h, ghosts[h]) != v.ring[0];
        var i :| 0 <= i < |v.ring| && v.ring[i] == (h, ghosts[h]);
        assert v.ring[1..][i - 1] == (h, ghosts[h]);
      }
      TrimRingSound(v.(ring := v.ring[1..], ghosts := ghosts));
    }
  }

  lemma PushGhostInv(v: View, hash: Hash)
    requires Inv(v)
    ensures Inv(PushGhost(v, hash))
    ensures PushGhost(v, hash).Live() == v.Live() && PushGhost(v, hash).Ids() == v.Ids()
    ensures PushGhost(v, hash).Total() <= v.Total() + GHOST_COST
    ensures PushGhost(v, hash).budget == v.budget
  {
    PushGhostKeeps(v, hash);
    if v.GhostCap() != 0 {
      var number := v.ghostSeq + 1;
      var pushed := v.(ghostSeq := number, ghosts := v.ghosts[hash := number], ring := v.ring + [(hash, number)]);
      forall h | h in pushed.ghosts ensures (h, pushed.ghosts[h]) in pushed.ring {
        if h == hash {
          assert pushed.ring[|v.ring|] == (h, number);
        } else {
          assert (h, v.ghosts[h]) in v.ring;
        }
      }
      TrimRingSound(pushed);
    }
    forall n | n in PushGhost(v, hash).Live() ensures Sound(n, PushGhost(v, hash)) {
      assert n in v.Live() && Sound(n, v);
    }
  }

  // ---------------------------------------------------------------------------------------
  // The eviction loop

  lemma RemoveHead(v: View)
    requires QueuesApart(v)
    ensures v.small != [] ==> RemoveSlot(v, v.small[0].slot) == v.(small := v.small[1..], free := v.free + [v.small[0].slot])
    ensures v.main != [] ==> RemoveSlot(v, v.main[0].slot) == v.(main := v.main[1..], free := v.free + [v.main[0].slot])
  {
    if v.small != [] {
      assert v.small[0] in v.small;
      WithoutAbsent(v.main, v.small[0].slot);
    }
    if v.main != [] {
      assert v.main[0] in v.main;
      WithoutAbsent(v.small, v.main[0].slot);
    }
  }

  /** Evicting a node, with or without remembering its hash. */
  lemma DropNodeInv(v: View, n: Node, w: View)
    requires Inv(v) && n in v.Live()
    requires w == RemoveSlot(v, n.slot) || w == PushGhost(RemoveSlot(v, n.slot), n.hash)
    ensures Inv(w) && w.Ids() == v.Ids() - {n.Id()} && w.Total() <= v.Total() && w.budget == v.budget
    ensures forall m :: m in w.Live() <==> m in v.Live() && m.slot != n.slot
  {
    assert Sound(n, v);
    RemoveSlotInv(v, n);
    RemoveSlotIds(v, n);
    PushGhostInv(RemoveSlot(v, n.slot), n.hash);
  }

  /** The head of a queue differs from every other live node. */
  lemma FirstOnce(v: View, first: Node, m: Node, fromSmall: bool)
    requires QueuesApart(v) && m in v.Live()
    requires fromSmall ==> v.small != [] && first == v.small[0] && (m in v.small[1..] || m in v.main)
    requires !fromSmall ==> v.main != [] && first == v.main[0] && (m in v.small || m in v.main[1..])
    ensures Differ(m, first)
  {
    if fromSmall {
      assert first in v.small;
      assert m in v.main ==> Differ(first, m);
    } else {
      assert first in v.main;
      assert m in v.small ==> Differ(m, first);
    }
  }

  /** The head of a queue, with a lower frequency, joins the back of Main. */
  lemma RequeueNodes(v: View, w: View, n: Node)
    requires QueuesApart(v)
    requires
      || (v.small != [] && n.Id() == v.small[0].Id() && w == v.(small := v.small[1..], main := v.main + [n]))
      || (v.main != [] && n.Id() == v.main[0].Id() && w == v.(main := v.main[1..] + [n]))
    ensures QueuesApart(w)
    ensures w.Ids() == v.Ids() && w.Total() == v.Total()
    ensures forall m :: m in w.Live() ==> m == n || m in v.Live()
  {
    var first := if |w.small| < |v.small| then v.small[0] else v.main[0];
    assert first.slot == first.Id().slot == n.slot && first.hash == first.Id().hash == n.hash;
    assert first.cost == first.Id().cost == n.cost;
    var rest := if |w.small| < |v.small| then v.main else v.main[1..];
    assert forall m :: m in v.Live() <==> m == first || m in w.small || m in rest;
    forall m | m in rest || m in w.small ensures Differ(m, first) && Differ(m, n) {
      FirstOnce(v, first, m, |w.small| < |v.small|);
    }
    ApartConcat(rest, [n]);
    BytesConcat(rest, [n]);
    RequeueIds(v, w, first, n, rest);
  }

  lemma RequeueIds(v: View, w: View, first: Node, n: Node, rest: seq<Node>)
    requires forall m :: m in v.Live() <==> m == first || m in w.small || m in rest
    requires w.main == rest + [n] && n.Id() == first.Id()
    ensures w.Ids() == v.Ids()
    ensures forall m :: m in w.Live() ==> m == n || m in v.Live()
  {
    assert forall m :: m in w.Live() <==> m == n || m in w.small || m in rest;
    assert first in v.Live() && n in w.Live();
  }

  lemma EvictOneInv(v: View)
    requires Inv(v) && EvictOne(v).Some?
    ensures Inv(EvictOne(v).value) && EvictOne(v).value.Ids() <= v.Ids()
    ensures EvictOne(v).value.budget == v.budget
  {
    RemoveHead(v);
    var w := EvictOne(v).value;
    var n := if Bytes(v.small) > v.SmallTarget() || v.main == [] then v.small[0] else v.main[0];
    assert n in v.Live() && Sound(n, v);
    if n.freq > 0 {
      RequeueNodes(v, w, w.main[|w.main| - 1]);
    } else {
      DropNodeInv(v, n, w);
    }
  }

  lemma RoomStepInv(v: View, now: nat)
    requires Inv(v) && RoomStep(v, now).Some?
    ensures Inv(RoomStep(v, now).value) && RoomStep(v, now).value.Ids() <= v.Ids()
    ensures RoomStep(v, now).value.budget == v.budget
  {
    if HasExpired(v, now) {
      EarliestIsLeast(v.Live());
      DropNodeInv(v, Earliest(v.Live()), RoomStep(v, now).value);
    } else {
      EvictOneInv(v);
    }
  }

  /** The loop keeps the invariant, only ever removes, and ends within the budget. */
  lemma {:induction false} MakeRoomInv(v: View, now: nat)
    requires Inv(v)
    ensures Inv(MakeRoom(v, now)) && MakeRoom(v, now).Ids() <= v.Ids()
    ensures MakeRoom(v, now).budget == v.budget
    ensures MakeRoom(v, now).Total() <= v.budget
    decreases v.Work()
  {
    match RoomStep(v, now)
    case None =>
      assert v.small == [] && v.main == [] ==> v.Total() <= v.budget;
    case Some(w) =>
      RoomStepWorks(v, now);
      RoomStepInv(v, now);
      MakeRoomInv(w, now);
  }

  // ---------------------------------------------------------------------------------------
  // The operations

  lemma {:induction false} LocateFinds(q: seq<Node>, hash: Hash)
    ensures Locate(q, hash).Some? ==> Locate(q, hash).value in q && Locate(q, hash).value.hash == hash
    ensures Locate(q, hash).None? ==> forall n :: n in q ==> n.hash != hash
  {
    if q != [] {
      LocateFinds(q[1..], hash);
      assert q == [q[0]] + q[1..];
    }
  }

  ghost function IdSet(q: seq<Node>): set<Node> {
    set n | n in q :: n.Id()
  }

  lemma {:induction false} BumpKeeps(q: seq<Node>, slot: nat)
    requires Apart(q)
    ensures Apart(Bump(q, slot)) && |Bump(q, slot)| == |q| && Bytes(Bump(q, slot)) == Bytes(q)
    ensures forall n :: n in Bump(q, slot) ==> exists m :: m in q && (n == m || n == Hit(m))
    ensures forall m :: m in q ==> m in Bump(q, slot) || Hit(m) in Bump(q, slot)
  {
    if q != [] {
      assert forall a :: a in q <==> a == q[0] || a in q[1..];
      if q[0].slot == slot {
        assert Bump(q, slot)[1..] == q[1..];
      } else {
        BumpKeeps(q[1..], slot);
        var r := Bump(q[1..], slot);
        assert Bump(q, slot)[1..] == r;
        forall n | n in r ensures Differ(q[0], n) {
          var m :| m in q[1..] && (n == m || n == Hit(m));
        }
      }
    }
  }

  lemma BumpIds(q: seq<Node>, slot: nat)
    requires Apart(q)
    ensures IdSet(Bump(q, slot)) == IdSet(q)
  {
    BumpKeeps(q, slot);
    var r := Bump(q, slot);
    assert forall m: Node :: Hit(m).Id() == m.Id();
    forall m | m in q ensures m.Id() in IdSet(r) {
      var n :| n in r && (n == m || n == Hit(m));
    }
    forall n | n in r ensures n.Id() in IdSet(q) {
      var m :| m in q && (n == m || n == Hit(m));
    }
  }

  function Touch(v: View, slot: nat): View {
    v.(small := Bump(v.small, slot), main := Bump(v.main, slot))
  }

  lemma UntouchedNode(v: View, slot: nat, n: Node) returns (m: Node)
    requires QueuesApart(v) && n in Touch(v, slot).Live()
    ensures m in v.Live() && (n == m || n == Hit(m))
  {
    BumpKeeps(v.small, slot);
    BumpKeeps(v.main, slot);
    if n in Bump(v.small, slot) {
      m :| m in v.small && (n == m || n == Hit(m));
    } else {
      m :| m in v.main && (n == m || n == Hit(m));
    }
  }

  /** A hit changes frequencies and nothing else. */
  lemma TouchInv(v: View, slot: nat)
    requires Inv(v)
    ensures Inv(Touch(v, slot)) && Touch(v, slot).Ids() == v.Ids() && Touch(v, slot).Total() == v.Total()
  {
    var w := Touch(v, slot);
    TouchApart(v, slot);
    TouchSums(v, slot);
    forall n | n in w.Live() ensures Sound(n, w) {
      var m := UntouchedNode(v, slot, n);
      assert Sound(m, v);
    }
  }

  lemma TouchSums(v: View, slot: nat)
    requires QueuesApart(v)
    ensures var w := Touch(v, slot);
      |w.small| == |v.small| && |w.main| == |v.main| && w.Ids() == v.Ids() && w.Total() == v.Total()
  {
    var w := Touch(v, slot);
    BumpKeeps(v.small, slot);
    BumpKeeps(v.main, slot);
    BumpIds(v.small, slot);
    BumpIds(v.main, slot);
    assert v.Ids() == IdSet(v.small) + IdSet(v.main);
    assert w.Ids() == IdSet(w.small) + IdSet(w.main);
  }

  lemma TouchApart(v: View, slot: nat)
    requires QueuesApart(v)
    ensures QueuesApart(Touch(v, slot))
  {
    BumpKeeps(v.small, slot);
    BumpKeeps(v.main, slot);
    forall a, b | a in Bump(v.small, slot) && b in Bump(v.main, slot) ensures Differ(a, b) {
      var x :| x in v.small && (a == x || a == Hit(x));
      var y :| y in v.main && (b == y || b == Hit(y));
      assert Differ(x, y);
    }
  }

  lemma GetInv(v: View, hash: Hash, key: Key, now: nat)
    requires Inv(v)
    ensures Inv(Get(v, hash, key, now).0) && Get(v, hash, key, now).0.Ids() <= v.Ids()
    ensures Get(v, hash, key, now).0.Total() <= v.Total() && Get(v, hash, key, now).0.budget == v.budget
  {
    LocateFinds(v.Live(), hash);
    match Locate(v.Live(), hash)
    case None =>
    case Some(n) =>
      if n.key == key {
        if n.expires <= now {
          DropNodeInv(v, n, Get(v, hash, key, now).0);
        } else {
          TouchInv(v, n.slot);
        }
      }
  }

  lemma ForgetInv(v: View, hash: Hash, key: Key)
    requires Inv(v)
    ensures Inv(ForgetFailure(v, hash, key).0) && ForgetFailure(v, hash, key).0.Ids() <= v.Ids()
    ensures ForgetFailure(v, hash, key).0.Total() <= v.Total()
  {
    LocateFinds(v.Live(), hash);
    match Locate(v.Live(), hash)
    case None =>
    case Some(n) => DropNodeInv(v, n, RemoveSlot(v, n.slot));
  }

  ghost predicate OthersStay(v: View, w: View, hash: Hash) {
    forall n :: n in w.Live() <==> n in v.Live() && n.hash != hash
  }

  /** After displacement no live node has the hash; the others stay. */
  lemma DisplaceInv(v: View, hash: Hash, key: Key)
    requires Inv(v)
    ensures var w := Displace(v, hash, key).0;
      && Inv(w) && w.Total() <= v.Total()
      && w == v.(small := w.small, main := w.main, free := w.free)
      && OthersStay(v, w, hash)
  {
    LocateFinds(v.Live(), hash);
    match Locate(v.Live(), hash)
    case None =>
    case Some(n) =>
      HashIsSlot(v, n);
      DropNodeInv(v, n, RemoveSlot(v, n.slot));
  }

  lemma FreePop(v: View, w: View)
    requires FreeExact(v) && v.free != []
    requires w.free == v.free[..|v.free| - 1] && w.top == v.top && |w.small| + |w.main| == |v.small| + |v.main| + 1
    ensures FreeExact(w) && v.free[|v.free| - 1] !in w.free && v.free[|v.free| - 1] in v.free && v.free[|v.free| - 1] < v.top
  {
  }

  lemma PlaceApart(v: View, n: Node, toMain: bool)
    requires QueuesApart(v)
    requires forall m :: m in v.Live() ==> Differ(m, n)
    ensures QueuesApart(Place(v, n, toMain))
    ensures forall m :: m in Place(v, n, toMain).Live() <==> m == n || m in v.Live()
  {
    assert forall m :: m in v.small || m in v.main ==> m in v.Live();
    if toMain {
      ApartConcat(v.main, [n]);
    } else {
      ApartConcat(v.small, [n]);
    }
  }

  /** A new node takes a free slot and the back of a queue. */
  lemma PlaceInv(v: View, n: Node, toMain: bool)
    requires Inv(v) && n.cost > GHOST_COST && n.freq <= MAX_FREQ
    requires n.slot == FreeSlot(v) && (v.free != [] || v.top < NIL)
    requires forall m :: m in v.Live() ==> m.hash != n.hash
    ensures Inv(Place(v, n, toMain))
    ensures forall m :: m in Place(v, n, toMain).Live() <==> m == n || m in v.Live()
  {
    var w := Place(v, n, toMain);
    if v.free != [] {
      FreePop(v, w);
    }
    forall m | m in v.Live() ensures Differ(m, n) {
      assert Sound(m, v);
    }
    PlaceApart(v, n, toMain);
    forall m | m in w.Live() ensures Sound(m, w) {
      if m != n {
        assert Sound(m, v) && forall f :: f in w.free ==> f in v.free;
      }
    }
  }

  function NewNode(v: View, hash: Hash, key: Key, answer: Answer): Node {
    Node(FreeSlot(Displace(v, hash, key).0), key, hash, answer, EntryCost(key, answer), answer.staleUntil, 0)
  }

  /** The nodes after an admitted insert: those of other hashes, and the new one. */
  ghost predicate Joined(v: View, w: View, n: Node) {
    forall m :: m in w.Live() <==> m == n || (m in v.Live() && m.hash != n.hash)
  }

  /** What the part of an insert before the eviction loop leaves behind. */
  lemma AdmitInv(v: View, hash: Hash, key: Key, answer: Answer)
    requires Inv(v)
    ensures Inv(Admit(v, hash, key, answer).0) && Admit(v, hash, key, answer).0.budget == v.budget
    ensures !Admit(v, hash, key, answer).1 ==>
      Admit(v, hash, key, answer).0.Total() <= v.Total() && OthersStay(v, Admit(v, hash, key, answer).0, hash)
    ensures Admit(v, hash, key, answer).1 ==>
      && Joined(v, Admit(v, hash, key, answer).0, NewNode(v, hash, key, answer))
      && EntryCost(key, answer) <= v.budget / OVERSIZE_DIVISOR
  {
    DisplaceInv(v, hash, key);
    var (v1, reused) := Displace(v, hash, key);
    if EntryCost(key, answer) <= v.budget / OVERSIZE_DIVISOR {
      var v2 := v1.(ghosts := v1.ghosts - {hash});
      UnrememberInv(v1, v2, hash);
      if Admit(v, hash, key, answer).1 {
        PlaceInv(v2, NewNode(v, hash, key, answer), reused || hash in v1.ghosts);
      }
    }
  }

  lemma UnrememberInv(v: View, w: View, hash: Hash)
    requires Inv(v) && w == v.(ghosts := v.ghosts - {hash})
    ensures Inv(w) && w.Live() == v.Live()
  {
    forall m | m in w.Live() ensures Sound(m, w) {
      assert m in v.Live() && Sound(m, v);
    }
  }

  /** Every insert, admitted or refused, ends within the budget. */
  lemma InsertInv(v: View, hash: Hash, key: Key, answer: Answer, now: nat)
    requires Inv(v) && v.Total() <= v.budget
    ensures Inv(Insert(v, hash, key, answer, now).0)
    ensures Insert(v, hash, key, answer, now).0.budget == v.budget
    ensures Insert(v, hash, key, answer, now).0.Total() <= v.budget
  {
    AdmitInv(v, hash, key, answer);
    var (w, admitted) := Admit(v, hash, key, answer);
    if admitted {
      MakeRoomInv(w, now);
    }
  }

  lemma {:induction false} NodeAtFinds(q: seq<Node>, slot: nat)
    ensures NodeAt(q, slot).Some? ==> NodeAt(q, slot).value in q && NodeAt(q, slot).value.slot == slot
    ensures NodeAt(q, slot).None? ==> forall n :: n in q ==> n.slot != slot
  {
    if q != [] {
      NodeAtFinds(q[1..], slot);
      assert q == [q[0]] + q[1..];
    }
  }

  predicate Kept(n: Node, matches: Key -> bool, from: nat) {
    n.slot < from || !matches(n.key)
  }

  /** A sweep removes exactly the matching nodes it has not passed yet. */
  lemma {:induction false} RemoveMatchingInv(v: View, matches: Key -> bool, from: nat)
    requires Inv(v)
    ensures var w := RemoveMatching(v, matches, from);
      && Inv(w) && w.budget == v.budget && w.Total() <= v.Total()
      && (forall n :: n in w.Live() <==> n in v.Live() && Kept(n, matches, from))
    decreases v.top - from
  {
    if from >= v.top {
      forall n | n in v.Live() ensures n.slot < from {
        assert Sound(n, v);
      }
    } else {
      var u := SweepStep(v, matches, from);
      RemoveMatchingInv(u, matches, from + 1);
    }
  }

  lemma SweepStep(v: View, matches: Key -> bool, from: nat) returns (u: View)
    requires Inv(v) && from < v.top
    ensures Inv(u) && u.top == v.top && u.budget == v.budget && u.Total() <= v.Total()
    ensures RemoveMatching(v, matches, from) == RemoveMatching(u, matches, from + 1)
    ensures forall n :: n in u.Live() && Kept(n, matches, from + 1) <==> n in v.Live() && Kept(n, matches, from)
  {
    NodeAtFinds(v.Live(), from);
    var n := NodeAt(v.Live(), from);
    if n.Some? && matches(n.value.key) {
      LiveUnique(v);
      u := RemoveSlot(v, from);
      DropNodeInv(v, n.value, u);
      assert forall m :: m in v.Live() && m.slot == from ==> m == n.value;
    } else {
      if n.Some? {
        LiveUnique(v);
      }
      u := v;
    }
  }
}
