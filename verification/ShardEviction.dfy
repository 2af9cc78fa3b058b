/** Who leaves the shard: expired entries first, then never an entry a scan finds in use. */
module ShardEviction {
  import opened Base
  import opened ShardModel
  import opened ShardInvariant
  import opened ShardRuns

  // ---------------------------------------------------------------------------------------
  // Expired entries leave first

  /** Whoever left between `v` and `w` had expired, and no later than `survivor`. */
  ghost predicate LeftExpired(v: View, w: View, now: nat, survivor: Node) {
    forall n :: n in v.Live() ==> n.Id() in w.Ids() || (n.expires <= now && !Before(survivor, n))
  }

  lemma LeftOneMore(v: View, w: View, now: nat, survivor: Node)
    requires Inv(v) && HasExpired(v, now) && survivor.Id() in v.Ids()
    requires LeftExpired(RemoveSlot(v, Earliest(v.Live()).slot), w, now, survivor)
    ensures LeftExpired(v, w, now, survivor)
  {
    EarliestIsLeast(v.Live());
    var e := Earliest(v.Live());
    RemoveSlotLive(v, e.slot);
    HoldsById(v, survivor);
    var s :| s in v.Live() && s.Id() == survivor.Id() && s.expires == survivor.expires;
    assert s.slot == s.Id().slot == survivor.slot;
    forall n | n in v.Live() && n.slot == e.slot ensures n == e {
      SameSlot(v, n, e);
    }
  }

  /**
   If an expired node survives the eviction loop, every node the loop removed had expired too,
   and no later than the survivor.
   */
  lemma {:induction false} ExpiredFirst(v: View, now: nat, survivor: Node)
    requires Inv(v) && survivor in MakeRoom(v, now).Live() && survivor.expires <= now
    ensures LeftExpired(v, MakeRoom(v, now), now, survivor)
    decreases v.Work()
  {
    IdOf(MakeRoom(v, now), survivor);
    if RoomStep(v, now).Some? {
      var u := RoomStep(v, now).value;
      RoomStepWorks(v, now);
      RoomStepInv(v, now);
      MakeRoomInv(u, now);
      SomeExpired(v, now, survivor);
      ExpiredFirst(u, now, survivor);
      LeftOneMore(v, MakeRoom(v, now), now, survivor);
    }
  }

  lemma SomeExpired(v: View, now: nat, n: Node)
    requires n.Id() in v.Ids() && n.expires <= now
    ensures HasExpired(v, now)
  {
    HoldsById(v, n);
    EarliestIsLeast(v.Live());
  }

  /** Once an unexpired node has left, no expired node is left. */
  lemma UnexpiredLeaveLast(v: View, now: nat, n: Node)
    requires Inv(v) && n in v.Live() && n.expires > now && n.Id() !in MakeRoom(v, now).Ids()
    ensures forall m :: m in MakeRoom(v, now).Live() ==> m.expires > now
  {
    forall m | m in MakeRoom(v, now).Live() ensures m.expires > now {
      if m.expires <= now {
        ExpiredFirst(v, now, m);
      }
    }
  }

  /** The nodes of a queue that have not expired, in order. */
  function Fresh(q: seq<Node>, now: nat): seq<Node> {
    if q == [] then []
    else if q[0].expires > now then [q[0]] + Fresh(q[1..], now)
    else Fresh(q[1..], now)
  }

  /** What the shard would hold without its expired nodes. */
  function FreshTotal(v: View, now: nat): nat {
    Bytes(Fresh(v.small, now)) + Bytes(Fresh(v.main, now)) + |v.ring| * GHOST_COST
  }

  lemma {:induction false} FreshPlus(a: seq<Node>, b: seq<Node>, now: nat)
    ensures Fresh(a + b, now) == Fresh(a, now) + Fresh(b, now)
  {
    if a == [] {
      assert a + b == b;
    } else {
      assert (a + b)[1..] == a[1..] + b;
      FreshPlus(a[1..], b, now);
    }
  }

  lemma {:induction false} FreshAll(q: seq<Node>, now: nat)
    requires forall n :: n in q ==> n.expires > now
    ensures Fresh(q, now) == q
  {
    if q != [] {
      assert q[0] in q;
      FreshAll(q[1..], now);
      assert [q[0]] + q[1..] == q;
    }
  }

  /** Taking out an expired node changes nothing for the others. */
  lemma {:induction false} FreshWithout(q: seq<Node>, slot: nat, now: nat)
    requires forall n :: n in q && n.slot == slot ==> n.expires <= now
    ensures Fresh(Without(q, slot), now) == Fresh(q, now)
  {
    if q != [] {
      assert q[0] in q;
      if q[0].slot != slot {
        FreshWithout(q[1..], slot, now);
        assert Without(q, slot)[1..] == Without(q[1..], slot);
      }
    }
  }

  lemma NoneExpired(v: View, now: nat)
    requires !HasExpired(v, now)
    ensures forall n :: n in v.Live() ==> n.expires > now
    ensures Fresh(v.small, now) == v.small && Fresh(v.main, now) == v.main
  {
    if v.Live() != [] {
      EarliestIsLeast(v.Live());
    }
    assert forall n :: n in v.small || n in v.main ==> n in v.Live();
    FreshAll(v.small, now);
    FreshAll(v.main, now);
  }

  lemma OnlyNode(v: View, e: Node)
    requires Inv(v) && e in v.Live()
    ensures forall n :: n in v.Live() ==> (n.slot == e.slot <==> n == e)
  {
    LiveUnique(v);
  }

  lemma FreshRemoval(v: View, e: Node, now: nat)
    requires e.expires <= now && forall n :: n in v.Live() ==> (n.slot == e.slot <==> n == e)
    ensures var w := RemoveSlot(v, e.slot);
      && Fresh(w.small, now) == Fresh(v.small, now) && Fresh(w.main, now) == Fresh(v.main, now)
      && w.ring == v.ring && w.budget == v.budget
  {
    hide Fresh;
    assert forall n :: n in v.small || n in v.main ==> n in v.Live();
    FreshWithout(v.small, e.slot, now);
    FreshWithout(v.main, e.slot, now);
  }

  /** A turn that removes an expired node leaves the unexpired part of the shard alone. */
  lemma ExpiredStep(v: View, now: nat)
    requires Inv(v) && v.Total() > v.budget && HasExpired(v, now)
    ensures var w := RoomStep(v, now).value; var e := Earliest(v.Live());
      && e in v.Live() && e.expires <= now && w == RemoveSlot(v, e.slot) && Inv(w)
      && Fresh(w.small, now) == Fresh(v.small, now) && Fresh(w.main, now) == Fresh(v.main, now)
      && w.ring == v.ring && w.budget == v.budget
      && forall n :: n in w.Live() <==> n in v.Live() && n != e
  {
    hide Inv, RemoveSlot, Fresh;
    EarliestIsLeast(v.Live());
    var e := Earliest(v.Live());
    RemoveSlotInv(v, e);
    OnlyNode(v, e);
    FreshRemoval(v, e, now);
  }

  /** If removing expired nodes is enough, the loop removes nothing else. */
  lemma {:induction false} ExpiredAreEnough(v: View, now: nat)
    requires Inv(v) && FreshTotal(v, now) <= v.budget
    ensures forall n :: n in v.Live() && n.expires > now ==> n in MakeRoom(v, now).Live()
    decreases v.Work()
  {
    if RoomStep(v, now).Some? {
      if !HasExpired(v, now) {
        NoneExpired(v, now);
      } else {
        ExpiredStep(v, now);
        RoomStepWorks(v, now);
        ExpiredAreEnough(RoomStep(v, now).value, now);
      }
    }
  }

  /** If it is not enough, the loop removes an unexpired node. */
  lemma {:induction false} SomeUnexpiredLeaves(v: View, now: nat) returns (n: Node)
    requires Inv(v) && FreshTotal(v, now) > v.budget
    ensures n in v.Live() && n.expires > now && n.Id() !in MakeRoom(v, now).Ids()
    decreases v.Work()
  {
    FreshLess(v, now);
    if HasExpired(v, now) {
      ExpiredStep(v, now);
      RoomStepWorks(v, now);
      n := SomeUnexpiredLeaves(RoomStep(v, now).value, now);
    } else {
      NoneExpired(v, now);
      n := SomeEvicted(v, now);
    }
  }

  lemma FreshLess(v: View, now: nat)
    ensures FreshTotal(v, now) <= v.Total()
  {
    FreshBytes(v.small, now);
    FreshBytes(v.main, now);
  }

  lemma {:induction false} FreshBytes(q: seq<Node>, now: nat)
    ensures Bytes(Fresh(q, now)) <= Bytes(q) && HotBytes(Fresh(q, now)) <= Bytes(Fresh(q, now))
  {
    if q != [] {
      FreshBytes(q[1..], now);
      assert q[0].expires > now ==> Fresh(q, now)[1..] == Fresh(q[1..], now);
    }
  }

  /** With nothing expired and too much stored, the first node that leaves is an unexpired one. */
  lemma {:induction false} SomeEvicted(v: View, now: nat) returns (n: Node)
    requires Inv(v) && v.Total() > v.budget && !HasExpired(v, now)
    ensures n in v.Live() && n.Id() !in MakeRoom(v, now).Ids()
    decreases v.Work(), 0
  {
    MakeRoomInv(v, now);
    assert RoomStep(v, now).Some?;
    var w := RoomStep(v, now).value;
    RoomStepWorks(v, now);
    RoomStepInv(v, now);
    MakeRoomInv(w, now);
    var first := if Bytes(v.small) > v.SmallTarget() || v.main == [] then v.small[0] else v.main[0];
    assert first in v.Live();
    RemoveHead(v);
    if first.freq > 0 {
      RequeueNodes(v, w, w.main[|w.main| - 1]);
      NoneExpired(v, now);
      StillUnexpired(v, w, now);
      n := SomeEvicted(w, now);
      IdOf(w, n);
      n :| n in v.Live() && n.Id() !in MakeRoom(w, now).Ids();
    } else {
      DropNodeInv(v, first, w);
      n := first;
    }
  }

  lemma StillUnexpired(v: View, w: View, now: nat)
    requires w.Ids() == v.Ids() && forall n :: n in v.Live() ==> n.expires > now
    ensures !HasExpired(w, now)
  {
    if w.Live() != [] {
      EarliestIsLeast(w.Live());
      IdOf(w, Earliest(w.Live()));
      HoldsById(v, Earliest(w.Live()));
    }
  }

  /** The loop spares every unexpired node exactly when the shard fits its budget without the expired ones. */
  lemma UnexpiredKeptIff(v: View, now: nat)
    requires Inv(v)
    ensures (forall n :: n in v.Live() && n.expires > now ==> n.Id() in MakeRoom(v, now).Ids())
       <==> FreshTotal(v, now) <= v.budget
  {
    if FreshTotal(v, now) <= v.budget {
      ExpiredAreEnough(v, now);
      forall n | n in v.Live() && n.expires > now ensures n.Id() in MakeRoom(v, now).Ids() {
        IdOf(MakeRoom(v, now), n);
      }
    } else {
      var n := SomeUnexpiredLeaves(v, now);
    }
  }

  // ---------------------------------------------------------------------------------------
  // Scan resistance

  function HotBytes(q: seq<Node>): nat {
    if q == [] then 0 else (if q[0].freq > 0 then q[0].cost else 0) + HotBytes(q[1..])
  }

  predicate Hot(v: View, n: Node) {
    n in v.main || (n in v.small && n.freq > 0)
  }

  /** The entries in use: all of Main, and what was hit while in Small. */
  ghost function HotIds(v: View): set<Node> {
    set n | n in v.Live() && Hot(v, n) :: n.Id()
  }

  function HotCost(v: View): nat {
    HotBytes(v.small) + Bytes(v.main)
  }

  /** The entries in use fit beside a full small target and a full ghost ring. */
  predicate Roomy(v: View) {
    HotCost(v) + v.SmallTarget() + GHOST_COST * v.GhostCap() <= v.budget
  }

  predicate Unexpired(v: View, now: nat) {
    forall n :: n in v.Live() && Hot(v, n) ==> n.expires > now
  }

  /** The hashes the shard knows: live or remembered. */
  ghost function Known(v: View): set<Hash> {
    v.ghosts.Keys + (set n | n in v.Live() :: n.hash)
  }

  /** The hot part of the shard is the same before and after. */
  ghost predicate SameHot(v: View, w: View) {
    HotIds(w) == HotIds(v) && HotCost(w) == HotCost(v) && w.budget == v.budget
  }

  lemma {:induction false} HotBytesConcat(a: seq<Node>, b: seq<Node>)
    ensures HotBytes(a + b) == HotBytes(a) + HotBytes(b)
  {
    if a == [] {
      assert a + b == b;
    } else {
      assert (a + b)[1..] == a[1..] + b;
      HotBytesConcat(a[1..], b);
    }
  }

  lemma {:induction false} HotWithout(q: seq<Node>, slot: nat)
    requires forall n :: n in q && n.slot == slot ==> n.freq == 0
    ensures HotBytes(Without(q, slot)) == HotBytes(q)
  {
    if q != [] {
      assert q[0] in q;
      if q[0].slot != slot {
        HotWithout(q[1..], slot);
        assert Without(q, slot)[1..] == Without(q[1..], slot);
      }
    }
  }

  /** Removing a node that is not hot leaves the hot part alone. */
  lemma ColdRemoval(v: View, n: Node)
    requires Inv(v) && n in v.Live() && !Hot(v, n)
    ensures SameHot(v, RemoveSlot(v, n.slot))
  {
    var w := RemoveSlot(v, n.slot);
    forall m | m in v.small && m.slot == n.slot ensures m.freq == 0 {
      SameSlot(v, m, n);
    }
    ApartWithout(v.small, n.slot);
    WithoutAbsent(v.main, n.slot);
    HotWithout(v.small, n.slot);
    SameHotIds(v, w);
  }

  lemma SameHotIds(v: View, w: View)
    requires w.main == v.main && forall m :: m in v.small && m.freq > 0 <==> m in w.small && m.freq > 0
    ensures HotIds(w) == HotIds(v)
  {
    assert forall m :: m in v.Live() && Hot(v, m) <==> m in w.Live() && Hot(w, m);
  }

  lemma {:induction false} TrimRingForgets(v: View)
    ensures TrimRing(v).ghosts.Keys <= v.ghosts.Keys
    decreases |v.ring|
  {
    if |v.ring| > v.GhostCap() {
      var (hash, number) := v.ring[0];
      var ghosts := if hash in v.ghosts && v.ghosts[hash] == number then v.ghosts - {hash} else v.ghosts;
      TrimRingForgets(v.(ring := v.ring[1..], ghosts := ghosts));
    }
  }

  lemma PushGhostHot(v: View, hash: Hash)
    ensures SameHot(v, PushGhost(v, hash)) && Known(PushGhost(v, hash)) <= Known(v) + {hash}
  {
    PushGhostKeeps(v, hash);
    if v.GhostCap() != 0 {
      var number := v.ghostSeq + 1;
      TrimRingForgets(v.(ghostSeq := number, ghosts := v.ghosts[hash := number], ring := v.ring + [(hash, number)]));
    }
  }

  lemma KnownShrinks(v: View, w: View)
    requires w.Ids() <= v.Ids() && w.ghosts == v.ghosts
    ensures Known(w) <= Known(v)
  {
    forall n | n in w.Live() ensures n.hash in Known(v) {
      IdOf(w, n);
      HoldsById(v, n);
    }
  }

  /** Promotion: a hit node of Small becomes a node of Main. */
  lemma PromotionHot(v: View, w: View)
    requires Inv(v) && v.small != [] && v.small[0].freq > 0
    requires w == v.(small := v.small[1..], main := v.main + [v.small[0].(freq := 0)])
    ensures SameHot(v, w)
  {
    var n, moved := v.small[0], v.small[0].(freq := 0);
    BytesConcat(v.main, [moved]);
    assert v.small == [n] + v.small[1..];
    forall m | m in v.Live() && Hot(v, m) ensures m.Id() in HotIds(w) {
      if m == n {
        assert moved in w.main && moved in w.Live() && moved.Id() == m.Id();
      } else {
        assert m in w.Live() && Hot(w, m);
      }
    }
    forall m | m in w.Live() && Hot(w, m) ensures m.Id() in HotIds(v) {
      if m == moved {
        assert n in v.Live() && Hot(v, n) && n.Id() == m.Id();
      } else {
        assert m in v.Live() && Hot(v, m);
      }
    }
  }

  /** With room for the hot part, an eviction step never takes from Main. */
  lemma RoomyTakesSmall(v: View)
    requires Inv(v) && Roomy(v) && v.Total() > v.budget
    ensures Bytes(v.small) > v.SmallTarget()
  {
  }

  lemma ScanStep(v: View, now: nat)
    requires Inv(v) && Roomy(v) && Unexpired(v, now) && RoomStep(v, now).Some?
    ensures SameHot(v, RoomStep(v, now).value) && Known(RoomStep(v, now).value) <= Known(v)
  {
    var w := RoomStep(v, now).value;
    RoomStepInv(v, now);
    if HasExpired(v, now) {
      EarliestIsLeast(v.Live());
      ColdRemoval(v, Earliest(v.Live()));
      KnownShrinks(v, w);
    } else {
      RoomyTakesSmall(v);
      RemoveHead(v);
      var n := v.small[0];
      assert n in v.Live();
      if n.freq > 0 {
        PromotionHot(v, w);
        KnownShrinks(v, w);
      } else {
        SmallOnly(v, n);
        ColdRemoval(v, n);
        var u := RemoveSlot(v, n.slot);
        RemoveSlotIds(v, n);
        KnownShrinks(v, u);
        PushGhostHot(u, n.hash);
      }
    }
  }

  lemma SmallOnly(v: View, n: Node)
    requires Inv(v) && n in v.small
    ensures n !in v.main
  {
    assert n in v.main ==> Differ(n, n);
  }

  lemma UnexpiredKept(v: View, w: View, now: nat)
    requires SameHot(v, w) && Unexpired(v, now)
    ensures Unexpired(w, now)
  {
    forall n | n in w.Live() && Hot(w, n) ensures n.expires > now {
      assert n.Id() in HotIds(v);
      var m :| m in v.Live() && Hot(v, m) && m.Id() == n.Id();
      assert m.expires == m.Id().expires == n.expires;
    }
  }

  lemma {:induction false} ScanRoom(v: View, now: nat)
    requires Inv(v) && Roomy(v) && Unexpired(v, now)
    ensures SameHot(v, MakeRoom(v, now)) && Known(MakeRoom(v, now)) <= Known(v)
    decreases v.Work()
  {
    if RoomStep(v, now).Some? {
      var w := RoomStep(v, now).value;
      ScanStep(v, now);
      RoomStepInv(v, now);
      RoomStepWorks(v, now);
      UnexpiredKept(v, w, now);
      ScanRoom(w, now);
    }
  }

  /** Admitting a key the shard does not know adds one cold node to Small. */
  lemma ScanAdmit(v: View, hash: Hash, key: Key, answer: Answer)
    requires Inv(v) && hash !in Known(v)
    ensures SameHot(v, Admit(v, hash, key, answer).0)
    ensures Known(Admit(v, hash, key, answer).0) <= Known(v) + {hash}
  {
    LocateFinds(v.Live(), hash);
    assert Locate(v.Live(), hash).None?;
    assert v.ghosts - {hash} == v.ghosts;
    var (w, admitted) := Admit(v, hash, key, answer);
    if admitted {
      var n := w.small[|w.small| - 1];
      assert w.small == v.small + [n] && w.main == v.main;
      HotBytesConcat(v.small, [n]);
      SameHotIds(v, w);
    }
  }

  lemma ScanInsert(v: View, op: Op)
    requires Inv(v) && Roomy(v) && op.OpInsert? && op.hash !in Known(v) && Unexpired(v, op.now)
    ensures SameHot(v, Apply(v, op)) && Known(Apply(v, op)) <= Known(v) + {op.hash}
  {
    var (w, admitted) := Admit(v, op.hash, op.key, op.answer);
    ScanAdmit(v, op.hash, op.key, op.answer);
    AdmitInv(v, op.hash, op.key, op.answer);
    if admitted {
      UnexpiredKept(v, w, op.now);
      ScanRoom(w, op.now);
    }
  }

  /** A scan: inserts of keys whose hashes are new to the shard and to each other. */
  ghost predicate Scan(v: View, ops: seq<Op>) {
    && (forall i :: 0 <= i < |ops| ==> ops[i].OpInsert? && ops[i].hash !in Known(v) && Unexpired(v, ops[i].now))
    && (forall i, j :: 0 <= i < j < |ops| ==> ops[i].hash != ops[j].hash)
  }

  ghost function Hashes(ops: seq<Op>): set<Hash>
    requires forall i :: 0 <= i < |ops| ==> ops[i].OpInsert?
  {
    set op | op in ops :: op.hash
  }

  lemma ScanNext(v: View, ops: seq<Op>)
    requires ops != [] && Scan(v, ops)
    ensures var before := ops[..|ops| - 1];
      Scan(v, before) && ops[|ops| - 1].hash !in Hashes(before) && Hashes(before) + {ops[|ops| - 1].hash} <= Hashes(ops)
  {
    var before := ops[..|ops| - 1];
    assert ops[|ops| - 1] in ops;
    forall op | op in before ensures op.hash != ops[|ops| - 1].hash && op in ops {
      var i :| 0 <= i < |before| && before[i] == op;
      assert ops[i] == op;
    }
  }

  lemma {:induction false} ScanRun(v: View, ops: seq<Op>)
    requires Inv(v) && v.Total() <= v.budget && Roomy(v) && Scan(v, ops)
    ensures Inv(Run(v, ops)) && Run(v, ops).Total() <= v.budget && SameHot(v, Run(v, ops))
    ensures Known(Run(v, ops)) <= Known(v) + Hashes(ops)
  {
    if ops != [] {
      var op, before := ops[|ops| - 1], ops[..|ops| - 1];
      ScanNext(v, ops);
      ScanRun(v, before);
      var u := Run(v, before);
      UnexpiredKept(v, u, op.now);
      ApplyInv(u, op);
      ScanInsert(u, op);
    }
  }

  /** However long the scan, every entry in use before it is still stored after it, and still in use. */
  lemma ScanResistance(v: View, ops: seq<Op>)
    requires Inv(v) && v.Total() <= v.budget && Roomy(v) && Scan(v, ops)
    ensures HotIds(Run(v, ops)) == HotIds(v)
    ensures forall n :: n in v.Live() && Hot(v, n) ==> Holds(Run(v, ops), n.hash, n.key, n.answer)
  {
    ScanRun(v, ops);
    var w := Run(v, ops);
    forall n | n in v.Live() && Hot(v, n) ensures Holds(w, n.hash, n.key, n.answer) {
      assert n.Id() in HotIds(w);
      HoldsById(w, n);
    }
  }
}
