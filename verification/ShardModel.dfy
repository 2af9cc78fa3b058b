/**
 The S3-FIFO answer shard as a value: two FIFOs of nodes, the free list and the
 ghost ring. Every operation of `cache/store.rs` is a function on this value; the
 class in `Shard.dfy` is proved to compute exactly these functions.
 */
module ShardModel {
  import opened Base

  type Key = seq<byte>
  type Hash = nat

  const NIL: nat := 0xFFFF_FFFF
  const SMALL_PERCENT: nat := 10
  const MAX_FREQ: nat := 3
  const OVERSIZE_DIVISOR: nat := 8
  const GHOST_COST: nat := 16
  const GHOST_DIVISOR: nat := 128

  // Fixed bookkeeping of an entry that does not depend on Rust's type layout: 64 bytes of
  // index nodes and a 16-byte `Arc` header. The layout-dependent rest is in `weight`.
  const FIXED_COST: nat := 64 + 16

  /** A cached answer. `tag` stands for the message; `weight` for its estimated heap bytes. */
  datatype Answer = Answer(tag: nat, staleUntil: nat, failed: bool, weight: nat)

  datatype Node = Node(slot: nat, key: Key, hash: Hash, answer: Answer, cost: nat, expires: nat, freq: nat) {
    /** What identifies the node: everything but its frequency. */
    function Id(): Node {
      this.(freq := 0)
    }
  }

  datatype View = View(
    budget: nat,
    small: seq<Node>,
    main: seq<Node>,
    free: seq<nat>,
    top: nat,
    ghosts: map<Hash, nat>,
    ring: seq<(Hash, nat)>,
    ghostSeq: nat)
  {
    function SmallTarget(): nat {
      budget / (100 / SMALL_PERCENT)
    }

    function GhostCap(): nat {
      budget / GHOST_DIVISOR
    }

    function Live(): seq<Node> {
      small + main
    }

    function Total(): nat {
      Bytes(small) + Bytes(main) + |ring| * GHOST_COST
    }

    /** The measure of the eviction loop: live slots plus the sum of their frequencies. */
    function Work(): nat {
      |small| + |main| + Freqs(small) + Freqs(main)
    }

    ghost function Ids(): set<Node> {
      set n | n in small + main :: n.Id()
    }
  }

  function EntryCost(key: Key, answer: Answer): (cost: nat)
    ensures cost > GHOST_COST
  {
    FIXED_COST + |key| + answer.weight
  }

  function Empty(budget: nat): View {
    View(budget, [], [], [], 0, map[], [], 0)
  }

  function Bytes(q: seq<Node>): nat {
    if q == [] then 0 else q[0].cost + Bytes(q[1..])
  }

  function Freqs(q: seq<Node>): nat {
    if q == [] then 0 else q[0].freq + Freqs(q[1..])
  }

  /** `q` without the node in `slot`. */
  function Without(q: seq<Node>, slot: nat): seq<Node> {
    if q == [] then [] else if q[0].slot == slot then q[1..] else [q[0]] + Without(q[1..], slot)
  }

  /** `q` with one more hit on the node in `slot`. */
  function Bump(q: seq<Node>, slot: nat): seq<Node> {
    if q == [] then []
    else if q[0].slot == slot then [Hit(q[0])] + q[1..]
    else [q[0]] + Bump(q[1..], slot)
  }

  function Hit(n: Node): Node {
    n.(freq := if n.freq + 1 <= MAX_FREQ then n.freq + 1 else MAX_FREQ)
  }

  /** The node a hash maps to. */
  function Locate(q: seq<Node>, hash: Hash): Option<Node> {
    if q == [] then None else if q[0].hash == hash then Some(q[0]) else Locate(q[1..], hash)
  }

  predicate Before(a: Node, b: Node) {
    a.expires < b.expires || (a.expires == b.expires && a.slot < b.slot)
  }

  /** The first entry of the expiry index: earliest drop time, then lowest slot. */
  function Earliest(q: seq<Node>): Node
    requires q != []
  {
    if |q| == 1 then q[0]
    else
      var rest := Earliest(q[1..]);
      if Before(rest, q[0]) then rest else q[0]
  }

  function RemoveSlot(v: View, slot: nat): View {
    v.(small := Without(v.small, slot), main := Without(v.main, slot), free := v.free + [slot])
  }

  function TrimRing(v: View): View
    decreases |v.ring|
  {
    if |v.ring| <= v.GhostCap() then v
    else
      var (hash, number) := v.ring[0];
      var ghosts := if hash in v.ghosts && v.ghosts[hash] == number then v.ghosts - {hash} else v.ghosts;
      TrimRing(v.(ring := v.ring[1..], ghosts := ghosts))
  }

  function PushGhost(v: View, hash: Hash): View {
    if v.GhostCap() == 0 then v
    else
      var number := v.ghostSeq + 1;
      TrimRing(v.(ghostSeq := number, ghosts := v.ghosts[hash := number], ring := v.ring + [(hash, number)]))
  }

  function Get(v: View, hash: Hash, key: Key, now: nat): (View, Option<Answer>) {
    match Locate(v.Live(), hash)
    case None => (v, None)
    case Some(n) =>
      if n.key != key then (v, None)
      else if n.expires <= now then
        var w := RemoveSlot(v, n.slot);
        (if n.freq > 0 then PushGhost(w, n.hash) else w, None)
      else (v.(small := Bump(v.small, n.slot), main := Bump(v.main, n.slot)), Some(n.answer))
  }

  function ForgetFailure(v: View, hash: Hash, key: Key): (View, bool) {
    match Locate(v.Live(), hash)
    case None => (v, false)
    case Some(n) => if n.key != key || !n.answer.failed then (v, false) else (RemoveSlot(v, n.slot), true)
  }

  /** The shard without the node of this hash, and whether that node had the same key and had been hit or promoted. */
  function Displace(v: View, hash: Hash, key: Key): (View, bool) {
    match Locate(v.Live(), hash)
    case None => (v, false)
    case Some(n) => (RemoveSlot(v, n.slot), n.key == key && (n.freq > 0 || n in v.main))
  }

  /** The slot a new node takes: the last freed one, else a fresh one. */
  function FreeSlot(v: View): nat {
    if v.free == [] then v.top else v.free[|v.free| - 1]
  }

  /** Puts a node into the free slot and at the back of Main or Small. */
  function Place(v: View, n: Node, toMain: bool): View {
    var w := if v.free == [] then v.(top := v.top + 1) else v.(free := v.free[..|v.free| - 1]);
    if toMain then w.(main := w.main + [n]) else w.(small := w.small + [n])
  }

  /** An insert up to, but not including, its eviction loop. */
  function Admit(v: View, hash: Hash, key: Key, answer: Answer): (View, bool) {
    var (v1, reused) := Displace(v, hash, key);
    var cost := EntryCost(key, answer);
    if cost > v.budget / OVERSIZE_DIVISOR then (v1, false)
    else
      var remembered := hash in v1.ghosts;
      var v2 := v1.(ghosts := v1.ghosts - {hash});
      if v2.free == [] && v2.top >= NIL then (v2, false)
      else
        var n := Node(FreeSlot(v2), key, hash, answer, cost, answer.staleUntil, 0);
        (Place(v2, n, reused || remembered), true)
  }

  function Insert(v: View, hash: Hash, key: Key, answer: Answer, now: nat): (View, bool) {
    var (w, admitted) := Admit(v, hash, key, answer);
    if admitted then (MakeRoom(w, now), true) else (w, false)
  }

  function Clear(v: View): View {
    Empty(v.budget)
  }

  function NodeAt(q: seq<Node>, slot: nat): Option<Node> {
    if q == [] then None else if q[0].slot == slot then Some(q[0]) else NodeAt(q[1..], slot)
  }

  /** Removes the matching nodes whose slot is at least `from`, in slot order. */
  function RemoveMatching(v: View, matches: Key -> bool, from: nat): View
    decreases v.top - from
  {
    if from >= v.top then v
    else
      var n := NodeAt(v.Live(), from);
      RemoveMatching(if n.Some? && matches(n.value.key) then RemoveSlot(v, from) else v, matches, from + 1)
  }

  /** Moves or drops the head of the queue whose turn it is; `None` on empty queues. */
  function EvictOne(v: View): Option<View> {
    if Bytes(v.small) > v.SmallTarget() || v.main == [] then
      if v.small == [] then None
      else
        var n := v.small[0];
        if n.freq > 0 then Some(v.(small := v.small[1..], main := v.main + [n.(freq := 0)]))
        else Some(PushGhost(v.(small := v.small[1..], free := v.free + [n.slot]), n.hash))
    else
      var n := v.main[0];
      if n.freq > 0 then Some(v.(main := v.main[1..] + [n.(freq := n.freq - 1)]))
      else Some(v.(main := v.main[1..], free := v.free + [n.slot]))
  }

  predicate HasExpired(v: View, now: nat) {
    v.Live() != [] && Earliest(v.Live()).expires <= now
  }

  /** One turn of the eviction loop; `None` when the loop stops. */
  function RoomStep(v: View, now: nat): Option<View> {
    if v.Total() <= v.budget then None
    else if HasExpired(v, now) then Some(RemoveSlot(v, Earliest(v.Live()).slot))
    else EvictOne(v)
  }

  function MakeRoom(v: View, now: nat): View
    decreases v.Work()
  {
    match RoomStep(v, now)
    case None => v
    case Some(w) =>
      RoomStepWorks(v, now);
      MakeRoom(w, now)
  }

  /** The fixed shares of a shard: a tenth for Small, a ghost of 16 bytes per 128. */
  lemma Shares(v: View, key: Key, answer: Answer)
    ensures v.SmallTarget() == v.budget / 10 && v.GhostCap() == v.budget / 128 && GHOST_COST == 16
    ensures EntryCost(key, answer) == 80 + |key| + answer.weight
  {
  }

  // ---------------------------------------------------------------------------------------
  // Sums over queues

  lemma {:induction false} BytesConcat(a: seq<Node>, b: seq<Node>)
    ensures Bytes(a + b) == Bytes(a) + Bytes(b)
    ensures Freqs(a + b) == Freqs(a) + Freqs(b)
  {
    if a == [] {
      assert a + b == b;
    } else {
      assert (a + b)[1..] == a[1..] + b;
      BytesConcat(a[1..], b);
    }
  }

  lemma {:induction false} EarliestIsLeast(q: seq<Node>)
    requires q != []
    ensures Earliest(q) in q
    ensures forall n :: n in q ==> n == Earliest(q) || !Before(n, Earliest(q))
  {
    if |q| > 1 {
      EarliestIsLeast(q[1..]);
      assert q == [q[0]] + q[1..];
    }
  }

  /** What expires first goes first, and of several that expire together the one in the lowest slot. */
  lemma EarliestFirst(q: seq<Node>, n: Node)
    requires n in q
    ensures Earliest(q).expires < n.expires || (Earliest(q).expires == n.expires && Earliest(q).slot <= n.slot)
  {
    EarliestIsLeast(q);
  }

  lemma {:induction false} WithoutAbsent(q: seq<Node>, slot: nat)
    requires forall n :: n in q ==> n.slot != slot
    ensures Without(q, slot) == q
  {
    if q != [] {
      assert q[0] in q;
      WithoutAbsent(q[1..], slot);
    }
  }

  /** Taking a node out never adds length, bytes or frequencies, and takes its own share when it is there. */
  lemma {:induction false} WithoutShrinks(q: seq<Node>, slot: nat)
    ensures |Without(q, slot)| <= |q| && Freqs(Without(q, slot)) <= Freqs(q)
    ensures (exists n :: n in q && n.slot == slot) ==> |Without(q, slot)| == |q| - 1
  {
    if q != [] && q[0].slot != slot {
      WithoutShrinks(q[1..], slot);
      assert Without(q, slot)[1..] == Without(q[1..], slot);
      assert forall n :: n in q ==> n == q[0] || n in q[1..];
    }
  }

  lemma TrimRingKeeps(v: View)
    ensures TrimRing(v) == v.(ring := TrimRing(v).ring, ghosts := TrimRing(v).ghosts)
    ensures |TrimRing(v).ring| <= v.GhostCap()
    ensures |TrimRing(v).ring| <= |v.ring|
    ensures |v.ring| > 0 && v.GhostCap() > 0 ==> |TrimRing(v).ring| > 0
    decreases |v.ring|
  {
    if |v.ring| > v.GhostCap() {
      var (hash, number) := v.ring[0];
      var ghosts := if hash in v.ghosts && v.ghosts[hash] == number then v.ghosts - {hash} else v.ghosts;
      TrimRingKeeps(v.(ring := v.ring[1..], ghosts := ghosts));
    }
  }

  /** A ghost push touches the ring only, and the ring grows by at most one entry. */
  lemma PushGhostKeeps(v: View, hash: Hash)
    ensures var w := PushGhost(v, hash);
      && w == v.(ring := w.ring, ghosts := w.ghosts, ghostSeq := w.ghostSeq)
      && |w.ring| <= |v.ring| + 1
      && (|v.ring| <= v.GhostCap() ==> |w.ring| <= v.GhostCap())
  {
    if v.GhostCap() != 0 {
      var number := v.ghostSeq + 1;
      TrimRingKeeps(v.(ghostSeq := number, ghosts := v.ghosts[hash := number], ring := v.ring + [(hash, number)]));
    }
  }

  /** Every turn of the eviction loop uses up work, so the loop ends. */
  lemma RoomStepWorks(v: View, now: nat)
    ensures RoomStep(v, now).Some? ==> RoomStep(v, now).value.Work() < v.Work()
  {
    if v.Total() <= v.budget {
    } else if HasExpired(v, now) {
      EarliestIsLeast(v.Live());
      var n := Earliest(v.Live());
      WithoutShrinks(v.small, n.slot);
      WithoutShrinks(v.main, n.slot);
      assert n in v.small || n in v.main;
    } else if Bytes(v.small) > v.SmallTarget() || v.main == [] {
      if v.small != [] {
        var n := v.small[0];
        PushGhostKeeps(v.(small := v.small[1..], free := v.free + [n.slot]), n.hash);
        BytesConcat(v.main, [n.(freq := 0)]);
      }
    } else {
      var n := v.main[0];
      if n.freq > 0 {
        BytesConcat(v.main[1..], [n.(freq := n.freq - 1)]);
        assert Freqs([n.(freq := n.freq - 1)]) == n.freq - 1;
      }
    }
  }
}
