/**
 One shard of the answer store, updated in place: a slab with a free list, two intrusive lists,
 a hash index, an expiry index and the ghost ring. Every method computes the function of the same
 name in `ShardModel` on the shard's abstract value.
 */
module ShardClass {
  import opened Base
  import M = ShardModel
  import opened ShardInvariant
  import opened ShardLinks

  type Hash = M.Hash
  type Key = M.Key
  type Answer = M.Answer
  type Node = M.Node

  const NIL: nat := M.NIL

  // ---------------------------------------------------------------------------------------
  // The slab and the live nodes

  /** The live nodes are exactly the nodes of the live slots. */
  lemma LiveIff(t: Slab, small: seq<nat>, main: seq<nat>)
    requires Occupied(t, Queue.Small, small) && Occupied(t, Queue.Main, main) && Covered(t, small, main)
    ensures forall n :: n in Nodes(t, small) + Nodes(t, main) <==> IsLive(t, n.slot) && n == NodeOf(t, n.slot)
  {
    NodesAt(t, small);
    NodesAt(t, main);
    forall n: Node | IsLive(t, n.slot) && n == NodeOf(t, n.slot) ensures n in Nodes(t, small) + Nodes(t, main) {
      if n.slot in small {
        var k :| 0 <= k < |small| && small[k] == n.slot;
        assert Nodes(t, small)[k] == n;
      } else {
        var k :| 0 <= k < |main| && main[k] == n.slot;
        assert Nodes(t, main)[k] == n;
      }
    }
  }

  /** A lookup in the hash index is a search of the live nodes. */
  lemma LocateIsIndex(q: seq<Node>, t: Slab, index: map<Hash, nat>, hash: Hash)
    requires forall n :: n in q <==> IsLive(t, n.slot) && n == NodeOf(t, n.slot)
    requires Indexed(t, index)
    ensures M.Locate(q, hash) == if hash in index then Some(NodeOf(t, index[hash])) else None
  {
    LocateFinds(q, hash);
    if hash in index {
      assert NodeOf(t, index[hash]) in q;
    }
  }

  lemma NodeAtIsSlot(q: seq<Node>, t: Slab, i: nat)
    requires forall n :: n in q <==> IsLive(t, n.slot) && n == NodeOf(t, n.slot)
    ensures M.NodeAt(q, i) == if IsLive(t, i) then Some(NodeOf(t, i)) else None
  {
    NodeAtFinds(q, i);
    if IsLive(t, i) {
      assert NodeOf(t, i) in q;
    }
  }

  predicate Leq(a: (nat, nat), b: (nat, nat)) {
    a.0 < b.0 || (a.0 == b.0 && a.1 <= b.1)
  }

  lemma FirstExists(s: set<(nat, nat)>)
    requires s != {}
    ensures exists e :: e in s && forall f :: f in s ==> Leq(e, f)
    decreases |s|
  {
    var x :| x in s;
    var rest := s - {x};
    assert forall f :: f in s ==> f in rest || f == x;
    if rest == {} {
      assert forall f :: f in s ==> Leq(x, f);
    } else {
      FirstExists(rest);
      var e :| e in rest && forall f :: f in rest ==> Leq(e, f);
      var least := if Leq(e, x) then e else x;
      assert least in s && forall f :: f in s ==> Leq(least, f);
    }
  }

  /** The first element of the ordered expiry index. */
  function First(s: set<(nat, nat)>): (e: (nat, nat))
    requires s != {}
    ensures e in s && forall f :: f in s ==> Leq(e, f)
  {
    FirstExists(s);
    var e :| e in s && forall f :: f in s ==> Leq(e, f);
    e
  }

  /** The first entry of the expiry index belongs to the earliest live node. */
  lemma EarliestIsFirst(q: seq<Node>, t: Slab, expiry: set<(nat, nat)>)
    requires forall n :: n in q <==> IsLive(t, n.slot) && n == NodeOf(t, n.slot)
    requires Expiring(t, expiry)
    ensures expiry == {} <==> q == []
    ensures q != [] ==> First(expiry) == (M.Earliest(q).expires, M.Earliest(q).slot)
  {
    if q != [] {
      M.EarliestIsLeast(q);
      var n := M.Earliest(q);
      assert (n.expires, n.slot) in expiry;
      var e := First(expiry);
      assert NodeOf(t, e.1) in q;
    } else {
      assert forall e :: e in expiry ==> NodeOf(t, e.1) in q;
    }
  }

  /** Setting a frequency changes one node of one queue. */
  lemma {:induction false} NodesHit(t: Slab, order: seq<nat>, i: nat, s: Slot)
    requires IsLive(t, i) && NodeIn(i, s) == M.Hit(NodeOf(t, i)) && NoRepeats(order)
    ensures Nodes(t[i := Some(s)], order) == M.Bump(Nodes(t, order), i)
  {
    var u := t[i := Some(s)];
    if order != [] {
      if order[0] == i {
        NodesSame(t, u, order[1..]);
      } else {
        NodesHit(t, order[1..], i, s);
      }
    }
  }

  lemma HitLinked(t: Slab, list: List, queue: Queue, order: seq<nat>, i: nat, s: Slot)
    requires Linked(t, list, queue, order) && IsLive(t, i)
    requires s == t[i].value.(freq := s.freq)
    ensures Linked(t[i := Some(s)], list, queue, order)
  {
    var u := t[i := Some(s)];
    HitBytes(t, order, i, s);
    HitThreaded(t, u, queue, order);
  }

  lemma HitBytes(t: Slab, order: seq<nat>, i: nat, s: Slot)
    requires IsLive(t, i) && s == t[i].value.(freq := s.freq)
    ensures M.Bytes(Nodes(t[i := Some(s)], order)) == M.Bytes(Nodes(t, order))
  {
    NodesAt(t, order);
    NodesAt(t[i := Some(s)], order);
    BytesSame(Nodes(t, order), Nodes(t[i := Some(s)], order));
  }

  lemma HitThreaded(t: Slab, u: Slab, queue: Queue, order: seq<nat>)
    requires Threaded(t, queue, order)
    requires forall j :: NextOf(u, j) == NextOf(t, j) && PrevOf(u, j) == PrevOf(t, j)
    requires forall j :: InQueue(t, j, queue) ==> InQueue(u, j, queue)
    ensures Threaded(u, queue, order)
  {
  }

  lemma {:induction false} BytesSame(q: seq<Node>, r: seq<Node>)
    requires |q| == |r| && forall i :: 0 <= i < |q| ==> q[i].cost == r[i].cost
    ensures M.Bytes(q) == M.Bytes(r)
  {
    if q != [] {
      BytesSame(q[1..], r[1..]);
    }
  }

  /** Taking the head of a queue by its slot. */
  lemma HeadRemoval(v: M.View)
    requires Inv(v)
    ensures v.small != [] ==>
      M.Without(v.small, v.small[0].slot) == v.small[1..] && M.Without(v.main, v.small[0].slot) == v.main
    ensures v.main != [] ==>
      M.Without(v.main, v.main[0].slot) == v.main[1..] && M.Without(v.small, v.main[0].slot) == v.small
  {
    RemoveHead(v);
  }

  /** A hit leaves lists and indices alone and bumps one node. */
  lemma HitWired(c: Chains, index: map<Hash, nat>, expiry: set<(nat, nat)>, i: nat, s: Slot)
    requires Wired(c, index, expiry) && IsLive(c.slots, i)
    requires s == c.slots[i].value.(freq := s.freq) && NodeIn(i, s) == M.Hit(NodeOf(c.slots, i))
    ensures var u := c.slots[i := Some(s)];
      && Wired(c.(slots := u), index, expiry)
      && Nodes(u, c.smallOrder) == M.Bump(Nodes(c.slots, c.smallOrder), i)
      && Nodes(u, c.mainOrder) == M.Bump(Nodes(c.slots, c.mainOrder), i)
  {
    HitLinked(c.slots, c.small, Queue.Small, c.smallOrder, i, s);
    HitLinked(c.slots, c.main, Queue.Main, c.mainOrder, i, s);
    NodesHit(c.slots, c.smallOrder, i, s);
    NodesHit(c.slots, c.mainOrder, i, s);
    RefreqIndices(c.slots, i, s.freq, index, expiry);
  }

  class Shard {
    const budget: nat
    var index: map<Hash, nat>
    var slots: Slab
    var free: seq<nat>
    var small: List
    var main: List
    var expiry: set<(nat, nat)>
    var ghosts: map<Hash, nat>
    var ring: seq<(Hash, nat)>
    var ghostSeq: nat
    ghost var smallOrder: seq<nat>
    ghost var mainOrder: seq<nat>

    ghost function Lists(): Chains
      reads this
    {
      Chains(slots, small, main, smallOrder, mainOrder)
    }

    ghost function Abs(): M.View
      reads this
    {
      M.View(budget, Nodes(slots, smallOrder), Nodes(slots, mainOrder), free, |slots|, ghosts, ring, ghostSeq)
    }

    ghost predicate Valid()
      reads this
    {
      Wired(Lists(), index, expiry) && Inv(Abs())
    }

    lemma Invariant()
      requires Valid()
      ensures Inv(Abs()) && Abs().budget == budget
    {
    }

    constructor (budget: nat)
      ensures Valid() && this.budget == budget && Abs() == M.Empty(budget)
    {
      this.budget := budget;
      index, slots, free := map[], [], [];
      small, main := List(NIL, NIL, 0), List(NIL, NIL, 0);
      expiry, ghosts, ring, ghostSeq := {}, map[], [], 0;
      smallOrder, mainOrder := [], [];
      new;
      hide Inv, Wired;
      EmptyWired();
      EmptyInv(budget);
    }

    method PushBack(i: nat, queue: Queue)
      requires Chained(Lists()) && IsLive(slots, i) && i !in smallOrder && i !in mainOrder
      modifies `slots, `small, `main, `smallOrder, `mainOrder
      ensures Lists() == Push(old(Lists()), i, queue)
    {
      ghost var c := Lists();
      TailInRange(c, queue);
      ghost var d := Push(c, i, queue);
      var tail := if queue == Queue.Small then small.tail else main.tail;
      var cost := slots[i].value.cost;
      var t := slots[i := Some(slots[i].value.(prev := tail, next := NIL, queue := queue))];
      t := if tail == NIL then t else SetNext(t, tail, i);
      assert t == d.slots;
      slots := t;
      if queue == Queue.Small {
        small, smallOrder := ListWith(small, i, cost), d.smallOrder;
      } else {
        main, mainOrder := ListWith(main, i, cost), d.mainOrder;
      }
      assert Lists() == d;
    }

    lemma Member(i: nat)
      requires Wired(Lists(), index, expiry) && IsLive(slots, i)
      ensures NodeOf(slots, i) in Abs().Live()
    {
      LiveIff(slots, smallOrder, mainOrder);
    }

    method Unlink(i: nat)
      requires Chained(Lists()) && (i in smallOrder || i in mainOrder)
      modifies `slots, `small, `main, `smallOrder, `mainOrder
      ensures Takeable(old(Lists()), i) && Lists() == Take(old(Lists()), i)
    {
      ghost var c := Lists();
      TakeChained(c, i);
      ghost var d := Take(c, i);
      var s := slots[i].value;
      var t := if s.prev == NIL then slots else SetNext(slots, s.prev, s.next);
      t := if s.next == NIL then t else SetPrev(t, s.next, s.prev);
      assert t == d.slots;
      slots := t;
      if s.queue == Queue.Small {
        small := ListWithout(small, i, s);
      } else {
        main := ListWithout(main, i, s);
      }
      smallOrder, mainOrder := d.smallOrder, d.mainOrder;
      assert Lists() == d;
    }

    /** The live nodes are the live slots, found by hash through the index. */
    lemma Lookup(hash: Hash)
      requires Wired(Lists(), index, expiry)
      ensures M.Locate(Abs().Live(), hash) == if hash in index then Some(NodeOf(slots, index[hash])) else None
      ensures hash in index ==> IsLive(slots, index[hash]) && NodeOf(slots, index[hash]) in Abs().Live()
    {
      LiveIff(slots, smallOrder, mainOrder);
      LocateIsIndex(Abs().Live(), slots, index, hash);
      LocateFinds(Abs().Live(), hash);
    }

    /** The value loses the node in slot `i`, and the slot goes to the free list. */
    method RemoveSlot(i: nat) returns (s: Slot)
      requires Valid() && IsLive(slots, i)
      modifies this
      ensures Valid() && Abs() == M.RemoveSlot(old(Abs()), i)
      ensures s == old(slots)[i].value
    {
      hide Inv, Chained, Covered, Indexed, Expiring, Nodes, M.Without, Unlinked, Appended;
      ghost var v, c := Abs(), Lists();
      RemoveWired(c, index, expiry, i);
      Member(i);
      RemoveSlotInv(v, NodeOf(slots, i));
      Unlink(i);
      s := slots[i].value;
      slots := slots[i := None];
      index := if s.hash in index && index[s.hash] == i then index - {s.hash} else index;
      expiry := expiry - {(s.expires, i)};
      free := free + [i];
      assert Lists() == Take(c, i).(slots := Take(c, i).slots[i := None]);
      assert Abs() == M.RemoveSlot(v, i);
    }

    /** Moves a live slot to the back of Main with another frequency. */
    method Requeue(i: nat, freq: nat)
      requires Valid() && IsLive(slots, i)
      modifies `slots, `small, `main, `smallOrder, `mainOrder
      ensures Wired(Lists(), index, expiry)
      ensures Abs() == old(Abs()).(
        small := M.Without(old(Abs()).small, i),
        main := M.Without(old(Abs()).main, i) + [NodeOf(old(slots), i).(freq := freq)])
    {
      hide Inv, Chained, Covered, Indexed, Expiring, Nodes, M.Without, Unlinked, Appended;
      ghost var c := Lists();
      RequeueWired(c, index, expiry, i, freq);
      Unlink(i);
      slots := slots[i := Some(slots[i].value.(freq := freq))];
      assert Lists() == Take(c, i).(slots := Take(c, i).slots[i := Some(c.slots[i].value.(freq := freq))]);
      PushBack(i, Queue.Main);
    }

    method PushGhost(hash: Hash)
      requires Valid()
      modifies `ghosts, `ring, `ghostSeq
      ensures Valid() && Abs() == M.PushGhost(old(Abs()), hash)
    {
      hide Inv, Wired, Nodes;
      ghost var v := Abs();
      PushGhostInv(v, hash);
      if budget / M.GHOST_DIVISOR == 0 {
        return;
      }
      ghostSeq := ghostSeq + 1;
      ghosts := ghosts[hash := ghostSeq];
      ring := ring + [(hash, ghostSeq)];
      while |ring| > budget / M.GHOST_DIVISOR
        invariant M.TrimRing(Abs()) == M.PushGhost(v, hash)
        invariant Wired(Lists(), index, expiry)
      {
        var (oldHash, number) := ring[0];
        ring := ring[1..];
        if oldHash in ghosts && ghosts[oldHash] == number {
          ghosts := ghosts - {oldHash};
        }
      }
    }

    method Get(hash: Hash, key: Key, now: nat) returns (r: Option<Answer>)
      requires Valid()
      modifies this
      ensures Valid() && (Abs(), r) == M.Get(old(Abs()), hash, key, now)
    {
      hide Inv, Wired, Nodes, M.Locate, M.Without, M.Bump, M.PushGhost;
      Lookup(hash);
      GetInv(Abs(), hash, key, now);
      if hash !in index {
        return None;
      }
      var i := index[hash];
      var s := slots[i].value;
      if s.key != key {
        return None;
      }
      if s.expires <= now {
        var removed := RemoveSlot(i);
        if removed.freq > 0 {
          PushGhost(removed.hash);
        }
        return None;
      }
      var hit := s.(freq := if s.freq + 1 <= M.MAX_FREQ then s.freq + 1 else M.MAX_FREQ);
      HitWired(Lists(), index, expiry, i, hit);
      slots := slots[i := Some(hit)];
      r := Some(s.answer);
    }

    /** The value loses the node of this key if its answer is a failure. */
    method ForgetFailure(hash: Hash, key: Key) returns (forgot: bool)
      requires Valid()
      modifies this
      ensures Valid() && (Abs(), forgot) == M.ForgetFailure(old(Abs()), hash, key)
    {
      Lookup(hash);
      if hash !in index {
        return false;
      }
      var i := index[hash];
      if slots[i].value.key != key || !slots[i].value.answer.failed {
        return false;
      }
      var _ := RemoveSlot(i);
      forgot := true;
    }

    /** The heads and byte counts of the lists, in terms of the abstract queues. */
    lemma Heads()
      requires Valid()
      ensures small.bytes == M.Bytes(Abs().small) && main.bytes == M.Bytes(Abs().main)
      ensures small.head == NIL <==> Abs().small == []
      ensures main.head == NIL <==> Abs().main == []
      ensures Abs().small != [] ==> IsLive(slots, small.head) && Abs().small[0] == NodeOf(slots, small.head)
      ensures Abs().main != [] ==> IsLive(slots, main.head) && Abs().main[0] == NodeOf(slots, main.head)
    {
      NodesAt(slots, smallOrder);
      NodesAt(slots, mainOrder);
      assert smallOrder != [] ==> InQueue(slots, smallOrder[0], Queue.Small);
      assert mainOrder != [] ==> InQueue(slots, mainOrder[0], Queue.Main);
    }

    /** The value takes the eviction step of the model, or stays as it is on empty queues. */
    method EvictOne() returns (more: bool)
      requires Valid()
      modifies this
      ensures Valid() && more == M.EvictOne(old(Abs())).Some?
      ensures Abs() == if more then M.EvictOne(old(Abs())).value else old(Abs())
    {
      hide Inv, Wired, QueuesApart, Nodes, M.PushGhost, M.Bytes;
      ghost var v := Abs();
      Heads();
      HeadRemoval(v);
      if M.EvictOne(v).Some? {
        EvictOneInv(v);
      }
      if small.bytes > budget / (100 / M.SMALL_PERCENT) || main.head == NIL {
        var i := small.head;
        if i == NIL {
          return false;
        }
        if slots[i].value.freq > 0 {
          Requeue(i, 0);
        } else {
          var removed := RemoveSlot(i);
          PushGhost(removed.hash);
        }
      } else {
        var i := main.head;
        if slots[i].value.freq > 0 {
          Requeue(i, slots[i].value.freq - 1);
        } else {
          var _ := RemoveSlot(i);
        }
      }
      more := true;
    }

    /** The value becomes what repeated eviction steps of the model make of it. */
    method MakeRoom(now: nat)
      requires Valid()
      modifies this
      ensures Valid() && Abs() == M.MakeRoom(old(Abs()), now)
    {
      while small.bytes + main.bytes + |ring| * M.GHOST_COST > budget
        invariant Valid() && M.MakeRoom(Abs(), now) == M.MakeRoom(old(Abs()), now)
        decreases Abs().Work()
      {
        ghost var v := Abs();
        LiveIff(slots, smallOrder, mainOrder);
        EarliestIsFirst(v.Live(), slots, expiry);
        M.RoomStepWorks(v, now);
        if expiry != {} && First(expiry).0 <= now {
          M.EarliestIsLeast(v.Live());
          var _ := RemoveSlot(First(expiry).1);
        } else {
          var more := EvictOne();
          if !more {
            break;
          }
        }
      }
    }

    /** An empty slot is on the free list, and an index off the free list is in use. */
    lemma FreeSlots()
      requires Valid()
      ensures forall k :: 0 <= k < |free| ==> free[k] < |slots| && slots[free[k]].None?
    {
      LiveIff(slots, smallOrder, mainOrder);
      forall k | 0 <= k < |free| ensures free[k] < |slots| && slots[free[k]].None? {
        assert free[k] in free;
        assert NodeOf(slots, free[k]) in Abs().Live() ==> Sound(NodeOf(slots, free[k]), Abs());
      }
    }

    /** Removes whatever the hash maps to; tells whether the key was there and in use. */
    method Displace(hash: Hash, key: Key) returns (reused: bool)
      requires Valid()
      modifies this
      ensures Valid() && (Abs(), reused) == M.Displace(old(Abs()), hash, key)
      ensures hash !in index
    {
      Lookup(hash);
      DisplaceInv(Abs(), hash, key);
      if hash !in index {
        return false;
      }
      var i := index[hash];
      QueueOf(i);
      hide Inv, Nodes, M.Locate, M.Without;
      var s := RemoveSlot(i);
      reused := s.key == key && (s.freq > 0 || s.queue == Queue.Main);
      Lookup(hash);
      LocateFinds(Abs().Live(), hash);
    }

    lemma QueueOf(i: nat)
      requires Valid() && IsLive(slots, i)
      ensures slots[i].value.queue == Queue.Main <==> NodeOf(slots, i) in Abs().main
    {
      NodesAt(slots, smallOrder);
      NodesAt(slots, mainOrder);
      Member(i);
      var n := NodeOf(slots, i);
      if n in Abs().main {
        var k :| 0 <= k < |mainOrder| && Abs().main[k] == n;
        assert mainOrder[k] == i && InQueue(slots, mainOrder[k], Queue.Main);
      } else {
        var k :| 0 <= k < |smallOrder| && Abs().small[k] == n;
        assert smallOrder[k] == i && InQueue(slots, smallOrder[k], Queue.Small);
      }
    }

    lemma CanPlace(s: Slot, queue: Queue)
      requires Valid() && s.hash !in index && (free != [] || |slots| < NIL)
      requires s.cost > M.GHOST_COST && s.freq == 0
      ensures free != [] ==> free[|free| - 1] < |slots| && slots[free[|free| - 1]].None?
      ensures |slots| <= NIL
      ensures Inv(M.Place(Abs(), NodeIn(M.FreeSlot(Abs()), s), queue == Queue.Main))
    {
      FreeSlots();
      Lookup(s.hash);
      LocateFinds(Abs().Live(), s.hash);
      PlaceInv(Abs(), NodeIn(M.FreeSlot(Abs()), s), queue == Queue.Main);
    }

    /** Puts a slot into the slab, both indices and the back of a queue. */
    method Place(s: Slot, queue: Queue)
      requires Valid() && s.hash !in index && (free != [] || |slots| < NIL)
      requires s.cost > M.GHOST_COST && s.freq == 0
      modifies this
      ensures Valid()
      ensures Abs() == M.Place(old(Abs()), NodeIn(M.FreeSlot(old(Abs())), s), queue == Queue.Main)
    {
      hide Inv, Wired, Chained, Nodes, Appended;
      ghost var v, c := Abs(), Lists();
      CanPlace(s, queue);
      var i;
      if free != [] {
        i := free[|free| - 1];
        FillWired(c, index, expiry, i, s, slots[i := Some(s)], queue);
        free := free[..|free| - 1];
        slots := slots[i := Some(s)];
      } else {
        i := |slots|;
        FillWired(c, index, expiry, i, s, slots + [Some(s)], queue);
        slots := slots + [Some(s)];
      }
      index := index[s.hash := i];
      expiry := expiry + {(s.expires, i)};
      PushBack(i, queue);
      assert Abs() == M.Place(v, NodeIn(i, s), queue == Queue.Main);
    }

    method Insert(hash: Hash, key: Key, answer: Answer, now: nat) returns (stored: bool)
      requires Valid()
      modifies this
      ensures Valid() && (Abs(), stored) == M.Insert(old(Abs()), hash, key, answer, now)
    {
      hide Inv, Wired, Nodes, M.MakeRoom, M.Displace, M.Place;
      ghost var v := Abs();
      var cost := M.EntryCost(key, answer);
      var reused := Displace(hash, key);
      if cost > budget / M.OVERSIZE_DIVISOR {
        return false;
      }
      var remembered := hash in ghosts;
      UnrememberInv(Abs(), Abs().(ghosts := ghosts - {hash}), hash);
      ghosts := ghosts - {hash};
      if free == [] && |slots| >= NIL {
        return false;
      }
      var queue := if reused || remembered then Queue.Main else Queue.Small;
      Place(Slot(key, hash, answer, cost, answer.staleUntil, 0, queue, NIL, NIL), queue);
      MakeRoom(now);
      stored := true;
    }

    lemma Budget()
      ensures Abs().budget == budget
    {
    }

    /** The hash index has one entry for each live node. */
    lemma IndexSize()
      requires Valid()
      ensures |index| == |Abs().Live()|
    {
      hide Nodes, Wired;
      var q := Abs().Live();
      forall hash ensures hash in index <==> hash in HashesOf(q) {
        Lookup(hash);
        LocateFinds(q, hash);
      }
      assert index.Keys == HashesOf(q);
      Invariant();
      ApartConcat(Abs().small, Abs().main);
      HashCount(q);
    }

    /** Drops every entry and every remembered hash; returns how many entries there were. */
    method Clear() returns (removed: nat)
      modifies this
      requires Valid()
      ensures Valid() && Abs() == M.Clear(old(Abs())) == M.Empty(budget)
      ensures removed == |old(Abs()).Live()|
    {
      hide Inv, Wired, Nodes;
      IndexSize();
      assert Nodes([], []) == [] by {
        NodesAt([], []);
      }
      removed := |index|;
      index, slots, free := map[], [], [];
      small, main := List(NIL, NIL, 0), List(NIL, NIL, 0);
      expiry, ghosts, ring, ghostSeq := {}, map[], [], 0;
      smallOrder, mainOrder := [], [];
      EmptyWired();
      EmptyInv(budget);
      assert Lists() == Chains([], List(NIL, NIL, 0), List(NIL, NIL, 0), [], []);
      assert Abs() == M.Empty(budget);
    }

    /** The value loses exactly the nodes with a matching key, counted in `removed`. */
    method RemoveMatching(matches: Key -> bool) returns (removed: nat)
      requires Valid()
      modifies this
      ensures Valid() && Abs() == M.RemoveMatching(old(Abs()), matches, 0)
      ensures removed == |old(Abs()).Live()| - |Abs().Live()|
    {
      hide Inv, Wired, Nodes, M.Without;
      removed := 0;
      var i := 0;
      while i < |slots|
        invariant Valid() && 0 <= i <= |slots|
        invariant M.RemoveMatching(Abs(), matches, i) == M.RemoveMatching(old(Abs()), matches, 0)
        invariant removed == |old(Abs()).Live()| - |Abs().Live()|
      {
        ghost var v := Abs();
        SlotNode(i);
        if slots[i].Some? && matches(slots[i].value.key) {
          Member(i);
          SlotCount(v, NodeOf(slots, i));
          var _ := RemoveSlot(i);
          removed := removed + 1;
        }
        i := i + 1;
      }
    }

    lemma SlotNode(i: nat)
      requires Wired(Lists(), index, expiry)
      ensures M.NodeAt(Abs().Live(), i) == if IsLive(slots, i) then Some(NodeOf(slots, i)) else None
    {
      LiveIff(slots, smallOrder, mainOrder);
      NodeAtIsSlot(Abs().Live(), slots, i);
    }
  }

  lemma SlotCount(v: M.View, n: Node)
    requires Inv(v) && n in v.Live()
    ensures |M.RemoveSlot(v, n.slot).Live()| == |v.Live()| - 1
  {
    RemoveSlotNodes(v, n);
  }

  ghost function HashesOf(q: seq<Node>): set<Hash> {
    set n | n in q :: n.hash
  }

  lemma {:induction false} HashCount(q: seq<Node>)
    requires Apart(q)
    ensures |HashesOf(q)| == |q|
  {
    if q != [] {
      HashCount(q[1..]);
      assert HashesOf(q) == HashesOf(q[1..]) + {q[0].hash};
    }
  }
}
