/**
 Whether a new entry is still stored when its own insert returns: the exact condition, for admission to Small and to
 Main, in terms of the shard just before the eviction loop.
 */
module ShardAdmission {
  import opened Base
  import opened ShardModel
  import opened ShardInvariant
  import opened ShardRuns
  import opened ShardEviction

  function Colds(q: seq<Node>): nat {
    if q == [] then 0 else (if q[0].freq == 0 then 1 else 0) + Colds(q[1..])
  }

  /** The bytes of the ghost ring after `more` pushes. */
  function RingBytes(v: View, more: nat): nat {
    GHOST_COST * Min(v.GhostCap(), |v.ring| + more)
  }

  // ---------------------------------------------------------------------------------------
  // Sums

  lemma {:induction false} ColdsPlus(a: seq<Node>, b: seq<Node>)
    ensures Colds(a + b) == Colds(a) + Colds(b)
  {
    if a == [] {
      assert a + b == b;
    } else {
      assert (a + b)[1..] == a[1..] + b;
      ColdsPlus(a[1..], b);
    }
  }

  /** Dropping the cold nodes for ghosts saves bytes. */
  lemma {:induction false} ColdsCost(q: seq<Node>)
    requires forall n :: n in q ==> n.cost > GHOST_COST
    ensures HotBytes(q) + GHOST_COST * Colds(q) <= Bytes(q)
  {
    if q != [] {
      assert q[0] in q;
      ColdsCost(q[1..]);
    }
  }

  lemma {:induction false} FreshMember(q: seq<Node>, now: nat, n: Node)
    ensures n in Fresh(q, now) <==> n in q && n.expires > now
  {
    if q != [] {
      FreshMember(q[1..], now, n);
    }
  }

  lemma FreshOne(n: Node, now: nat)
    requires n.expires > now
    ensures Fresh([n], now) == [n] && Bytes([n]) == n.cost
  {
  }

  lemma HeadSums(q: seq<Node>, now: nat)
    requires q != [] && q[0].expires > now
    ensures HotBytes(Fresh(q, now)) == (if q[0].freq > 0 then q[0].cost else 0) + HotBytes(Fresh(q[1..], now))
    ensures Colds(Fresh(q, now)) == (if q[0].freq > 0 then 0 else 1) + Colds(Fresh(q[1..], now))
  {
    assert Fresh(q, now) == [q[0]] + Fresh(q[1..], now);
  }

  lemma BackSums(q: seq<Node>, n: Node, now: nat)
    requires n.expires > now
    ensures Bytes(Fresh(q + [n], now)) == Bytes(Fresh(q, now)) + n.cost
  {
    FreshPlus(q, [n], now);
    FreshOne(n, now);
    BytesConcat(Fresh(q, now), [n]);
  }

  lemma {:induction false} TrimRingLength(v: View)
    ensures |TrimRing(v).ring| == Min(v.GhostCap(), |v.ring|)
    decreases |v.ring|
  {
    if |v.ring| > v.GhostCap() {
      var (hash, number) := v.ring[0];
      var ghosts := if hash in v.ghosts && v.ghosts[hash] == number then v.ghosts - {hash} else v.ghosts;
      TrimRingLength(v.(ring := v.ring[1..], ghosts := ghosts));
    }
  }

  /** A push is paid for in advance. */
  lemma PushGhostBytes(v: View, hash: Hash, more: nat)
    requires |v.ring| <= v.GhostCap()
    ensures var w := PushGhost(v, hash);
      && RingBytes(w, more) == RingBytes(v, more + 1)
      && w == v.(ring := w.ring, ghosts := w.ghosts, ghostSeq := w.ghostSeq)
  {
    PushGhostKeeps(v, hash);
    if v.GhostCap() != 0 {
      var number := v.ghostSeq + 1;
      TrimRingLength(v.(ghostSeq := number, ghosts := v.ghosts[hash := number], ring := v.ring + [(hash, number)]));
    }
  }

  lemma {:induction false} WithoutPlus(a: seq<Node>, b: seq<Node>, slot: nat)
    requires forall n :: n in b ==> n.slot != slot
    ensures Without(a + b, slot) == Without(a, slot) + b
  {
    if a == [] {
      assert a + b == b;
      WithoutAbsent(b, slot);
    } else {
      assert (a + b)[1..] == a[1..] + b;
      WithoutPlus(a[1..], b, slot);
    }
  }

  lemma CostsSound(v: View)
    requires Inv(v)
    ensures forall n :: n in v.small || n in v.main ==> n.cost > GHOST_COST
  {
    forall n | n in v.small || n in v.main ensures n.cost > GHOST_COST {
      assert n in v.Live() && Sound(n, v);
    }
  }

  lemma FreshCosts(q: seq<Node>, now: nat)
    requires forall n :: n in q ==> n.cost > GHOST_COST
    ensures forall n :: n in Fresh(q, now) ==> n.cost > GHOST_COST
  {
    forall n | n in Fresh(q, now) ensures n in q {
      FreshMember(q, now, n);
    }
  }

  // ---------------------------------------------------------------------------------------
  // A new entry of at most the small target, at the back of Small

  predicate Newest(v: View, x: Node, now: nat) {
    && v.small != [] && v.small[|v.small| - 1] == x
    && x.freq == 0 && x.expires > now && x.cost <= v.SmallTarget()
  }

  lemma {:induction false} WithoutLast(q: seq<Node>, slot: nat)
    requires q != [] && q[|q| - 1].slot != slot
    ensures var r := Without(q, slot); r != [] && r[|r| - 1] == q[|q| - 1]
  {
    if q[0].slot != slot && |q| > 1 {
      WithoutLast(q[1..], slot);
    }
  }

  lemma NewestStep(v: View, x: Node, now: nat)
    requires Inv(v) && Newest(v, x, now) && RoomStep(v, now).Some?
    ensures Newest(RoomStep(v, now).value, x, now)
  {
    assert x in v.Live();
    if HasExpired(v, now) {
      EarliestIsLeast(v.Live());
      var e := Earliest(v.Live());
      if e.slot == x.slot {
        SameSlot(v, e, x);
      }
      WithoutLast(v.small, e.slot);
    } else if Bytes(v.small) > v.SmallTarget() || v.main == [] {
      var n := v.small[0];
      PushGhostKeeps(v.(small := v.small[1..], free := v.free + [n.slot]), n.hash);
      assert v.small == [x] ==> Bytes(v.small) == x.cost;
    }
  }

  lemma {:induction false} NewestStays(v: View, x: Node, now: nat)
    requires Inv(v) && Newest(v, x, now)
    ensures x in MakeRoom(v, now).Live()
    decreases v.Work()
  {
    if RoomStep(v, now).Some? {
      NewestStep(v, x, now);
      RoomStepInv(v, now);
      RoomStepWorks(v, now);
      NewestStays(RoomStep(v, now).value, x, now);
    }
  }

  // ---------------------------------------------------------------------------------------
  // A new entry larger than the small target, at the back of Small

  predicate NewInSmall(v: View, s: seq<Node>, x: Node, now: nat) {
    Inv(v) && v.small == s + [x] && x.freq == 0 && x.expires > now && x.cost > v.SmallTarget()
  }

  /**
   What is left when only `x` is in Small: the unexpired part of Main, the hit nodes of Small that join it, `x`
   itself, and a ghost for every other unexpired node of Small, as far as the ring goes.
   */
  function SmallNeed(v: View, s: seq<Node>, x: Node, now: nat): nat {
    HotBytes(Fresh(s, now)) + x.cost + Bytes(Fresh(v.main, now)) + RingBytes(v, Colds(Fresh(s, now)))
  }

  lemma SmallNeedWithin(v: View, s: seq<Node>, x: Node, now: nat)
    requires NewInSmall(v, s, x, now)
    ensures SmallNeed(v, s, x, now) <= v.Total()
    ensures s == [] && !HasExpired(v, now) ==> SmallNeed(v, s, x, now) == v.Total()
  {
    CostsSound(v);
    assert forall n :: n in s ==> n in v.small;
    FreshCosts(s, now);
    ColdsCost(Fresh(s, now));
    FreshBytes(s, now);
    FreshBytes(v.main, now);
    BytesConcat(s, [x]);
    if !HasExpired(v, now) {
      NoneExpired(v, now);
    }
  }

  lemma SmallExpiredStep(v: View, s: seq<Node>, x: Node, now: nat) returns (t: seq<Node>)
    requires NewInSmall(v, s, x, now) && v.Total() > v.budget && HasExpired(v, now)
    ensures NewInSmall(RoomStep(v, now).value, t, x, now)
    ensures SmallNeed(RoomStep(v, now).value, t, x, now) == SmallNeed(v, s, x, now)
  {
    hide Inv, Fresh;
    ExpiredStep(v, now);
    var e := Earliest(v.Live());
    assert x in v.small && x in v.Live();
    OnlyNode(v, e);
    WithoutPlus(s, [x], e.slot);
    t := Without(s, e.slot);
    assert forall n :: n in s ==> n in v.small && n in v.Live();
    FreshWithout(s, e.slot, now);
  }

  lemma SmallHitStep(v: View, s: seq<Node>, x: Node, now: nat)
    requires NewInSmall(v, s, x, now) && v.Total() > v.budget && !HasExpired(v, now) && s != [] && s[0].freq > 0
    ensures NewInSmall(RoomStep(v, now).value, s[1..], x, now)
    ensures SmallNeed(RoomStep(v, now).value, s[1..], x, now) == SmallNeed(v, s, x, now)
  {
    hide Inv;
    BytesConcat(s, [x]);
    NoneExpired(v, now);
    RoomStepInv(v, now);
    var n, w := s[0], RoomStep(v, now).value;
    assert v.small[0] == n && v.small[1..] == s[1..] + [x] && n in v.Live();
    assert w.main == v.main + [n.(freq := 0)];
    BackSums(v.main, n.(freq := 0), now);
    HeadSums(s, now);
  }

  lemma SmallColdStep(v: View, s: seq<Node>, x: Node, now: nat)
    requires NewInSmall(v, s, x, now) && v.Total() > v.budget && !HasExpired(v, now) && s != [] && s[0].freq == 0
    ensures NewInSmall(RoomStep(v, now).value, s[1..], x, now)
    ensures SmallNeed(RoomStep(v, now).value, s[1..], x, now) == SmallNeed(v, s, x, now)
  {
    assert |v.ring| <= v.GhostCap();
    hide Inv;
    BytesConcat(s, [x]);
    NoneExpired(v, now);
    RoomStepInv(v, now);
    var n := s[0];
    assert v.small[0] == n && v.small[1..] == s[1..] + [x] && n in v.Live();
    PushGhostBytes(v.(small := v.small[1..], free := v.free + [n.slot]), n.hash, Colds(Fresh(s[1..], now)));
    HeadSums(s, now);
  }

  /** The last turn: with `x` alone in Small and too much stored, `x` is the one to go. */
  lemma SmallLastStep(v: View, x: Node, now: nat)
    requires NewInSmall(v, [], x, now) && v.Total() > v.budget && !HasExpired(v, now)
    ensures x.Id() !in MakeRoom(v, now).Ids()
  {
    assert v.small == [x] && Bytes(v.small) == x.cost && x in v.Live();
    RemoveHead(v);
    var w := RoomStep(v, now).value;
    DropNodeInv(v, x, w);
    RoomStepWorks(v, now);
    MakeRoomInv(w, now);
  }

  lemma {:induction false} SmallFate(v: View, s: seq<Node>, x: Node, now: nat)
    requires NewInSmall(v, s, x, now)
    ensures x.Id() in MakeRoom(v, now).Ids() <==> SmallNeed(v, s, x, now) <= v.budget
    decreases v.Work()
  {
    hide SmallNeed, Inv;
    SmallNeedWithin(v, s, x, now);
    if v.Total() <= v.budget {
      assert x in v.Live();
      IdOf(v, x);
    } else if s == [] && !HasExpired(v, now) {
      assert v.small == [x] == [] + [x];
      SmallLastStep(v, x, now);
    } else {
      var t := s;
      if HasExpired(v, now) {
        t := SmallExpiredStep(v, s, x, now);
      } else if s[0].freq > 0 {
        SmallHitStep(v, s, x, now);
        t := s[1..];
      } else {
        SmallColdStep(v, s, x, now);
        t := s[1..];
      }
      RoomStepWorks(v, now);
      RoomStepBudget(v, now);
      SmallFate(RoomStep(v, now).value, t, x, now);
    }
  }

  lemma RoomStepBudget(v: View, now: nat)
    requires Inv(v) && RoomStep(v, now).Some?
    ensures RoomStep(v, now).value.budget == v.budget
  {
    RoomStepInv(v, now);
  }

  // ---------------------------------------------------------------------------------------
  // A new entry at the back of Main, other nodes behind it as the loop turns

  predicate NewInMain(v: View, a: seq<Node>, x: Node, b: seq<Node>, now: nat) {
    Inv(v) && v.main == a + [x] + b && x.freq == 0 && x.expires > now
  }

  /** A queue trimmed from the front to a number of bytes: what stays, the hit bytes and the cold nodes cut off. */
  datatype Cut = Cut(kept: nat, hot: nat, cold: nat)

  function Trimmed(q: seq<Node>, target: nat): Cut {
    if Bytes(q) <= target then Cut(Bytes(q), 0, 0)
    else
      var rest := Trimmed(q[1..], target);
      if q[0].freq > 0 then rest.(hot := rest.hot + q[0].cost) else rest.(cold := rest.cold + 1)
  }

  /**
   What is left when `x` is at the head of Main: unexpired Small trimmed to its target, with its hit nodes moved
   behind `x` and ghosts for the cold ones; the hit nodes that were before `x`; `x`; and whatever is behind it.
   */
  function MainNeed(v: View, a: seq<Node>, x: Node, b: seq<Node>, now: nat): nat {
    var cut := Trimmed(Fresh(v.small, now), v.SmallTarget());
    cut.kept + cut.hot + HotBytes(Fresh(a, now)) + x.cost + Bytes(Fresh(b, now)) + RingBytes(v, cut.cold)
  }

  lemma {:induction false} TrimmedCost(q: seq<Node>, target: nat)
    requires forall n :: n in q ==> n.cost > GHOST_COST
    ensures var cut := Trimmed(q, target); cut.kept + cut.hot + GHOST_COST * cut.cold <= Bytes(q)
  {
    if Bytes(q) > target {
      assert q[0] in q;
      TrimmedCost(q[1..], target);
    }
  }

  lemma MainParts(v: View, a: seq<Node>, x: Node, b: seq<Node>)
    requires v.main == a + [x] + b
    ensures Bytes(v.main) == Bytes(a) + x.cost + Bytes(b)
    ensures forall n :: n in a || n == x || n in b ==> n in v.main && n in v.Live()
  {
    BytesConcat(a + [x], b);
    BytesConcat(a, [x]);
    assert forall n :: n in a + [x] <==> n in a || n == x;
  }

  lemma MainNeedWithin(v: View, a: seq<Node>, x: Node, b: seq<Node>, now: nat)
    requires NewInMain(v, a, x, b, now)
    ensures MainNeed(v, a, x, b, now) <= v.Total()
    ensures a == [] && Bytes(v.small) <= v.SmallTarget() && !HasExpired(v, now)
        ==> MainNeed(v, a, x, b, now) == v.Total()
  {
    CostsSound(v);
    MainParts(v, a, x, b);
    FreshCosts(v.small, now);
    TrimmedCost(Fresh(v.small, now), v.SmallTarget());
    FreshBytes(v.small, now);
    FreshBytes(a, now);
    FreshBytes(b, now);
    if !HasExpired(v, now) {
      NoneExpired(v, now);
      FreshAll(b, now);
    }
  }

  /** Taking another node out of Main leaves `x` where it is. */
  lemma MainWithout(a: seq<Node>, x: Node, b: seq<Node>, e: Node, now: nat) returns (c: seq<Node>, d: seq<Node>)
    requires Apart(a + [x] + b) && e.expires <= now && e.slot != x.slot
    requires forall n :: n in a + [x] + b && n.slot == e.slot ==> n == e
    ensures Without(a + [x] + b, e.slot) == c + [x] + d
    ensures Fresh(c, now) == Fresh(a, now) && Fresh(d, now) == Fresh(b, now)
  {
    hide Fresh, Without;
    assert forall n :: n in a || n in [x] || n in b ==> n in a + [x] + b;
    if e in b {
      SplitApart(a + [x], b);
      WithoutSplit(a + [x], b, e.slot);
      FreshWithout(b, e.slot, now);
      c, d := a, Without(b, e.slot);
    } else {
      assert forall n :: n in [x] + b ==> n.slot != e.slot;
      assert a + [x] + b == a + ([x] + b);
      WithoutPlus(a, [x] + b, e.slot);
      FreshWithout(a, e.slot, now);
      c, d := Without(a, e.slot), b;
      assert c + ([x] + b) == c + [x] + b;
    }
  }

  lemma MainExpiredStep(v: View, a: seq<Node>, x: Node, b: seq<Node>, now: nat) returns (c: seq<Node>, d: seq<Node>)
    requires NewInMain(v, a, x, b, now) && v.Total() > v.budget && HasExpired(v, now)
    ensures NewInMain(RoomStep(v, now).value, c, x, d, now)
    ensures MainNeed(RoomStep(v, now).value, c, x, d, now) == MainNeed(v, a, x, b, now)
  {
    hide Inv, Fresh, Trimmed, Without, HotBytes, Bytes, Earliest;
    ExpiredStep(v, now);
    var e := Earliest(v.Live());
    assert x in v.main && forall n :: n in v.main ==> n in v.Live();
    OnlyNode(v, e);
    MainApart(v);
    c, d := MainWithout(a, x, b, e, now);
  }

  lemma {:induction false} WithoutSplit(a: seq<Node>, b: seq<Node>, slot: nat)
    requires forall n :: n in a ==> n.slot != slot
    ensures Without(a + b, slot) == a + Without(b, slot)
  {
    if a == [] {
      assert a + b == b && a + Without(b, slot) == Without(b, slot);
    } else {
      assert (a + b)[1..] == a[1..] + b && a[0] in a;
      WithoutSplit(a[1..], b, slot);
      assert [a[0]] + (a[1..] + Without(b, slot)) == a + Without(b, slot);
    }
  }

  lemma MainApart(v: View)
    requires Inv(v)
    ensures Apart(v.main)
  {
  }

  lemma {:induction false} SplitApart(a: seq<Node>, b: seq<Node>)
    requires Apart(a + b)
    ensures forall n, m :: n in a && m in b ==> Differ(n, m)
  {
    if a != [] {
      assert (a + b)[1..] == a[1..] + b;
      SplitApart(a[1..], b);
      assert forall n :: n in a ==> n == a[0] || n in a[1..];
      assert forall m :: m in b ==> m in (a + b)[1..];
    }
  }

  lemma MainHitStep(v: View, a: seq<Node>, x: Node, b: seq<Node>, now: nat)
    requires NewInMain(v, a, x, b, now) && v.Total() > v.budget && !HasExpired(v, now)
    requires Bytes(v.small) > v.SmallTarget() && v.small[0].freq > 0
    ensures var d := b + [v.small[0].(freq := 0)];
      && NewInMain(RoomStep(v, now).value, a, x, d, now)
      && MainNeed(RoomStep(v, now).value, a, x, d, now) == MainNeed(v, a, x, b, now)
  {
    hide Inv;
    NoneExpired(v, now);
    RoomStepInv(v, now);
    var n := v.small[0];
    assert n in v.Live();
    FreshAll(v.small[1..], now);
    BackSums(b, n.(freq := 0), now);
    assert a + [x] + b + [n.(freq := 0)] == a + [x] + (b + [n.(freq := 0)]);
  }

  lemma MainColdStep(v: View, a: seq<Node>, x: Node, b: seq<Node>, now: nat)
    requires NewInMain(v, a, x, b, now) && v.Total() > v.budget && !HasExpired(v, now)
    requires Bytes(v.small) > v.SmallTarget() && v.small[0].freq == 0
    ensures NewInMain(RoomStep(v, now).value, a, x, b, now)
    ensures MainNeed(RoomStep(v, now).value, a, x, b, now) == MainNeed(v, a, x, b, now)
  {
    assert |v.ring| <= v.GhostCap();
    hide Inv;
    NoneExpired(v, now);
    RoomStepInv(v, now);
    var n := v.small[0];
    assert n in v.Live();
    FreshAll(v.small[1..], now);
    var cut := Trimmed(v.small[1..], v.SmallTarget());
    PushGhostBytes(v.(small := v.small[1..], free := v.free + [n.slot]), n.hash, cut.cold);
  }

  /** The head of Main, not `x` and hit, goes behind it with one hit less. */
  lemma MainRotateStep(v: View, a: seq<Node>, x: Node, b: seq<Node>, now: nat)
    requires NewInMain(v, a, x, b, now) && v.Total() > v.budget && !HasExpired(v, now)
    requires Bytes(v.small) <= v.SmallTarget() && a != [] && a[0].freq > 0
    ensures var d := b + [a[0].(freq := a[0].freq - 1)];
      && NewInMain(RoomStep(v, now).value, a[1..], x, d, now)
      && MainNeed(RoomStep(v, now).value, a[1..], x, d, now) == MainNeed(v, a, x, b, now)
  {
    hide Inv, Trimmed, Fresh, HotBytes, Bytes, View.Total, HasExpired;
    NoneExpired(v, now);
    RoomStepInv(v, now);
    var n := a[0];
    var moved := n.(freq := n.freq - 1);
    assert v.main[0] == n && v.main[1..] == a[1..] + [x] + b && n in v.Live();
    HeadSums(a, now);
    BackSums(b, moved, now);
    assert a[1..] + [x] + b + [moved] == a[1..] + [x] + (b + [moved]);
  }

  /** The head of Main, not `x` and cold, leaves without a ghost. */
  lemma MainDropStep(v: View, a: seq<Node>, x: Node, b: seq<Node>, now: nat)
    requires NewInMain(v, a, x, b, now) && v.Total() > v.budget && !HasExpired(v, now)
    requires Bytes(v.small) <= v.SmallTarget() && a != [] && a[0].freq == 0
    ensures NewInMain(RoomStep(v, now).value, a[1..], x, b, now)
    ensures MainNeed(RoomStep(v, now).value, a[1..], x, b, now) == MainNeed(v, a, x, b, now)
  {
    hide Inv, Trimmed, Fresh, HotBytes, Bytes, View.Total, HasExpired;
    NoneExpired(v, now);
    RoomStepInv(v, now);
    assert v.main[0] == a[0] && v.main[1..] == a[1..] + [x] + b && a[0] in v.Live();
    HeadSums(a, now);
  }

  lemma MainLastStep(v: View, x: Node, b: seq<Node>, now: nat)
    requires NewInMain(v, [], x, b, now) && v.Total() > v.budget && !HasExpired(v, now)
    requires Bytes(v.small) <= v.SmallTarget()
    ensures x.Id() !in MakeRoom(v, now).Ids()
  {
    assert v.main[0] == x && x in v.Live();
    RemoveHead(v);
    var w := RoomStep(v, now).value;
    DropNodeInv(v, x, w);
    RoomStepWorks(v, now);
    MakeRoomInv(w, now);
  }

  lemma {:induction false} MainFate(v: View, a: seq<Node>, x: Node, b: seq<Node>, now: nat)
    requires NewInMain(v, a, x, b, now)
    ensures x.Id() in MakeRoom(v, now).Ids() <==> MainNeed(v, a, x, b, now) <= v.budget
    decreases v.Work()
  {
    hide MainNeed, Inv;
    MainNeedWithin(v, a, x, b, now);
    MainParts(v, a, x, b);
    if v.Total() <= v.budget {
      IdOf(v, x);
    } else if a == [] && !HasExpired(v, now) && Bytes(v.small) <= v.SmallTarget() {
      MainLastStep(v, x, b, now);
    } else {
      var c, d := a, b;
      if HasExpired(v, now) {
        c, d := MainExpiredStep(v, a, x, b, now);
      } else if Bytes(v.small) > v.SmallTarget() {
        if v.small[0].freq > 0 {
          MainHitStep(v, a, x, b, now);
          d := b + [v.small[0].(freq := 0)];
        } else {
          MainColdStep(v, a, x, b, now);
        }
      } else {
        c := a[1..];
        if a[0].freq > 0 {
          MainRotateStep(v, a, x, b, now);
          d := b + [a[0].(freq := a[0].freq - 1)];
        } else {
          MainDropStep(v, a, x, b, now);
        }
      }
      assert RoomStep(v, now).Some?;
      RoomStepWorks(v, now);
      RoomStepBudget(v, now);
      MainFate(RoomStep(v, now).value, c, x, d, now);
    }
  }

  // ---------------------------------------------------------------------------------------
  // A new entry that has expired already

  /** The bytes of the nodes that the loop drops before `x`. */
  function BytesBefore(q: seq<Node>, x: Node): nat {
    if q == [] then 0 else (if Before(q[0], x) then q[0].cost else 0) + BytesBefore(q[1..], x)
  }

  function ExpiredNeed(v: View, x: Node): int {
    v.Total() - BytesBefore(v.small, x) - BytesBefore(v.main, x)
  }

  lemma {:induction false} BeforeWithout(q: seq<Node>, e: Node, x: Node)
    requires Apart(q) && Before(e, x) && forall n :: n in q && n.slot == e.slot ==> n == e
    ensures BytesBefore(Without(q, e.slot), x) == BytesBefore(q, x) - (if e in q then e.cost else 0)
  {
    if q != [] {
      assert q[0] in q;
      if q[0].slot == e.slot {
        assert e in q;
      } else {
        BeforeWithout(q[1..], e, x);
        assert Without(q, e.slot)[1..] == Without(q[1..], e.slot);
      }
    }
  }

  lemma {:induction false} NoneBefore(q: seq<Node>, x: Node)
    requires forall n :: n in q ==> !Before(n, x)
    ensures BytesBefore(q, x) == 0
  {
    if q != [] {
      assert q[0] in q;
      NoneBefore(q[1..], x);
    }
  }

  lemma {:induction false} ExpiredFate(v: View, x: Node, now: nat)
    requires Inv(v) && x in v.Live() && x.expires <= now
    ensures x.Id() in MakeRoom(v, now).Ids() <==> ExpiredNeed(v, x) <= v.budget
    decreases v.Work()
  {
    if v.Total() <= v.budget {
      IdOf(v, x);
    } else {
      EarliestIsLeast(v.Live());
      ExpiredStep(v, now);
      var e, w := Earliest(v.Live()), RoomStep(v, now).value;
      RemoveSlotInv(v, e);
      RoomStepWorks(v, now);
      if e == x {
        RemoveSlotIds(v, x);
        MakeRoomInv(w, now);
        NoneBefore(v.small, x);
        NoneBefore(v.main, x);
      } else {
        ExpiredEarlier(v, e, x);
        ExpiredFate(w, x, now);
      }
    }
  }

  lemma ExpiredEarlier(v: View, e: Node, x: Node)
    requires Inv(v) && x in v.Live() && e in v.Live() && e != x && !Before(x, e)
    ensures ExpiredNeed(RemoveSlot(v, e.slot), x) == ExpiredNeed(v, x)
  {
    OnlyNode(v, e);
    RemoveSlotInv(v, e);
    assert forall n :: n in v.small || n in v.main ==> n in v.Live();
    BeforeWithout(v.small, e, x);
    BeforeWithout(v.main, e, x);
    assert e in v.small && e in v.main ==> Differ(e, e);
  }

  // ---------------------------------------------------------------------------------------
  // The insert

  /** Whether an insert goes to Main: the key was in use, or its hash is remembered. */
  predicate ToMain(v: View, hash: Hash, key: Key) {
    Displace(v, hash, key).1 || hash in v.ghosts
  }

  /** The condition, on the shard `w` that holds the new node `x` at the back of a queue and has not evicted yet. */
  predicate Stays(w: View, x: Node, toMain: bool, now: nat) {
    if x.expires <= now then ExpiredNeed(w, x) <= w.budget
    else if toMain then w.main != [] && MainNeed(w, w.main[..|w.main| - 1], x, [], now) <= w.budget
    else
      || x.cost <= w.SmallTarget()
      || (w.small != [] && SmallNeed(w, w.small[..|w.small| - 1], x, now) <= w.budget)
  }

  /** The node is the last of the queue it was admitted to. */
  predicate AtBack(w: View, x: Node, toMain: bool) {
    if toMain then w.main != [] && w.main[|w.main| - 1] == x else w.small != [] && w.small[|w.small| - 1] == x
  }

  lemma Admitted(v: View, hash: Hash, key: Key, answer: Answer)
    requires Inv(v) && Admit(v, hash, key, answer).1
    ensures var w, u, x := Admit(v, hash, key, answer).0, Displace(v, hash, key).0, NewNode(v, hash, key, answer);
      && Inv(w) && w.budget == v.budget && w.ring == u.ring
      && x.hash == hash && x.key == key && x.answer == answer
      && x.cost == EntryCost(key, answer) && x.expires == answer.staleUntil && x.freq == 0
      && (if ToMain(v, hash, key) then w.main == u.main + [x] && w.small == u.small
          else w.small == u.small + [x] && w.main == u.main)
  {
    hide Displace, Inv;
    AdmitInv(v, hash, key, answer);
    DisplaceInv(v, hash, key);
  }

  /** After the loop, an entry of the new node's hash is the new node. */
  lemma StoredIsNew(w: View, x: Node, now: nat)
    requires Inv(w) && x in w.Live()
    ensures Holds(MakeRoom(w, now), x.hash, x.key, x.answer) <==> x.Id() in MakeRoom(w, now).Ids()
    ensures forall key, answer :: Holds(MakeRoom(w, now), x.hash, key, answer) ==> x.Id() in MakeRoom(w, now).Ids()
  {
    hide Inv;
    MakeRoomInv(w, now);
    var u := MakeRoom(w, now);
    forall n | n in u.Live() && n.hash == x.hash ensures n.Id() == x.Id() {
      IdOf(u, n);
      HoldsById(w, n);
      var m :| m in w.Live() && m.Id() == n.Id();
      assert m.hash == m.Id().hash == n.hash;
      SameHash(w, m, x);
    }
    if x.Id() in u.Ids() {
      HoldsById(u, x);
    }
    forall key, answer | Holds(u, x.hash, key, answer) ensures x.Id() in u.Ids() {
      var n :| n in u.Live() && n.hash == x.hash && n.key == key && n.answer == answer;
      IdOf(u, n);
    }
  }

  lemma SameHash(v: View, a: Node, b: Node)
    requires Inv(v) && a in v.Live() && b in v.Live() && a.hash == b.hash
    ensures a == b
  {
    LiveUnique(v);
  }

  lemma NewFate(w: View, x: Node, toMain: bool, now: nat)
    requires Inv(w) && x.freq == 0 && x.cost > GHOST_COST
    requires AtBack(w, x, toMain)
    ensures x in w.Live() && (x.Id() in MakeRoom(w, now).Ids() <==> Stays(w, x, toMain, now))
  {
    hide Inv, SmallNeed, MainNeed, ExpiredNeed;
    var a := if toMain then w.main[..|w.main| - 1] else w.small[..|w.small| - 1];
    assert x in w.Live();
    if x.expires <= now {
      ExpiredFate(w, x, now);
    } else if toMain {
      assert w.main == a + [x] + [];
      MainFate(w, a, x, [], now);
    } else {
      assert w.small == a + [x];
      if x.cost <= w.SmallTarget() {
        NewestStays(w, x, now);
        IdOf(MakeRoom(w, now), x);
      } else {
        SmallFate(w, a, x, now);
      }
    }
  }

  /** An insert that reports success has stored its entry if and only if the condition holds before its eviction loop. */
  lemma InsertStoredIff(v: View, hash: Hash, key: Key, answer: Answer, now: nat)
    requires Inv(v) && Insert(v, hash, key, answer, now).1
    ensures Holds(Insert(v, hash, key, answer, now).0, hash, key, answer)
       <==> Stays(Admit(v, hash, key, answer).0, NewNode(v, hash, key, answer), ToMain(v, hash, key), now)
    ensures !Holds(Insert(v, hash, key, answer, now).0, hash, key, answer)
        ==> forall k, a :: !Holds(Insert(v, hash, key, answer, now).0, hash, k, a)
  {
    hide Inv, Admit, Stays;
    Admitted(v, hash, key, answer);
    var w, x := Admit(v, hash, key, answer).0, NewNode(v, hash, key, answer);
    NewFate(w, x, ToMain(v, hash, key), now);
    StoredIsNew(w, x, now);
  }

  /** A key that is new to the shard, at most the small target and not past its drop time, is always stored. */
  lemma InsertSurvives(v: View, hash: Hash, key: Key, answer: Answer, now: nat)
    requires Inv(v) && !ToMain(v, hash, key) && HasSlot(v, hash, key)
    requires EntryCost(key, answer) <= v.SmallTarget() && answer.staleUntil > now
    ensures Insert(v, hash, key, answer, now).1
    ensures Holds(Insert(v, hash, key, answer, now).0, hash, key, answer)
  {
    AdmittedIff(v, hash, key, answer);
    assert v.SmallTarget() <= v.budget / OVERSIZE_DIVISOR;
    InsertStoredIff(v, hash, key, answer, now);
    hide Insert, Inv;
    Admitted(v, hash, key, answer);
  }

  /**
   Above the small target it need not be: with an empty Small queue, a full shard and nothing expired, the insert
   reports success and stores nothing.
   */
  lemma AdmittedThenEvicted(v: View, hash: Hash, key: Key, answer: Answer, now: nat)
    requires Inv(v) && v.small == [] && Locate(v.Live(), hash).None? && hash !in v.ghosts && HasSlot(v, hash, key)
    requires v.SmallTarget() < EntryCost(key, answer) <= v.budget / OVERSIZE_DIVISOR
    requires v.Total() + EntryCost(key, answer) > v.budget
    requires answer.staleUntil > now && !HasExpired(v, now)
    ensures Insert(v, hash, key, answer, now).1
    ensures forall k, a :: !Holds(Insert(v, hash, key, answer, now).0, hash, k, a)
  {
    AdmittedIff(v, hash, key, answer);
    InsertStoredIff(v, hash, key, answer, now);
    NoneExpired(v, now);
    assert |v.ring| <= v.GhostCap();
    hide Insert, Inv;
    Admitted(v, hash, key, answer);
    var w, x := Admit(v, hash, key, answer).0, NewNode(v, hash, key, answer);
    assert w.small == [x] && w.small[..|w.small| - 1] == [];
    assert SmallNeed(w, [], x, now) == v.Total() + x.cost;
  }

  /**
   In Main it need not be either, whatever its cost: with Small within its target, nothing expired, every node of Main
   in use and the shard over its budget, the insert of a remembered or reused key reports success and stores nothing.
   */
  lemma AdmittedToMainThenEvicted(v: View, hash: Hash, key: Key, answer: Answer, now: nat)
    requires Inv(v) && ToMain(v, hash, key) && HasSlot(v, hash, key)
    requires EntryCost(key, answer) <= v.budget / OVERSIZE_DIVISOR && answer.staleUntil > now
    requires var u := Displace(v, hash, key).0;
      && !HasExpired(u, now) && Bytes(u.small) <= u.SmallTarget() && (forall n :: n in u.main ==> n.freq > 0)
      && u.Total() + EntryCost(key, answer) > v.budget
    ensures Insert(v, hash, key, answer, now).1
    ensures forall k, a :: !Holds(Insert(v, hash, key, answer, now).0, hash, k, a)
  {
    AdmittedIff(v, hash, key, answer);
    InsertStoredIff(v, hash, key, answer, now);
    DisplaceInv(v, hash, key);
    var u := Displace(v, hash, key).0;
    NoneExpired(u, now);
    AllHot(u.main);
    assert |u.ring| <= u.GhostCap();
    hide Insert, Inv, Displace;
    Admitted(v, hash, key, answer);
    var w, x := Admit(v, hash, key, answer).0, NewNode(v, hash, key, answer);
    assert w.main[..|w.main| - 1] == u.main;
    assert MainNeed(w, u.main, x, [], now) == u.Total() + x.cost;
  }

  lemma {:induction false} AllHot(q: seq<Node>)
    requires forall n :: n in q ==> n.freq > 0
    ensures HotBytes(q) == Bytes(q)
  {
    if q != [] {
      assert q[0] in q;
      AllHot(q[1..]);
    }
  }
}
