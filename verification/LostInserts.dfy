/**
 Runs after which a shard reports an entry as stored and does not hold it: real cache keys, any hash function that
 tells them apart, and entries of any one size.
 */
module LostInserts {
  import opened Base
  import opened Names
  import opened Records
  import opened CacheKey
  import opened ShardModel
  import opened ShardInvariant
  import opened ShardRuns
  import opened ShardEviction
  import opened ShardAdmission

  /** The key of an address query for the root, in group `i`. */
  function KeyOf(i: u32): (key: Key)
    ensures |key| == 10
  {
    Prefix(i, A, In, false, false) + [0]
  }

  lemma KeyOfQuery(i: u32)
    ensures KeyBytes(i, A, In, false, false, []) == Some(KeyOf(i))
  {
    var root: Name := [];
    assert Fold(root) == root && WireLength(root) == 1;
    assert Body(root) == [] && Wire(root) == [0];
  }

  function AnswerOf(tag: nat, until: nat, weight: nat): Answer {
    Answer(tag, until, false, weight)
  }

  // ---------------------------------------------------------------------------------------
  // Inserting, hitting, refreshing and hitting a key leaves it at the back of Main, in use

  function FillOps(hash: Hash, key: Key, answer: Answer, now: nat): seq<Op> {
    [OpInsert(hash, key, answer, now), OpGet(hash, key, now), OpInsert(hash, key, answer, now), OpGet(hash, key, now)]
  }

  function NodeFor(slot: nat, hash: Hash, key: Key, answer: Answer, freq: nat): Node {
    Node(slot, key, hash, answer, EntryCost(key, answer), answer.staleUntil, freq)
  }

  /** Room for a key that is new to a shard with an empty Small queue. */
  predicate RoomFor(v: View, hash: Hash, key: Key, answer: Answer, now: nat) {
    && Inv(v) && v.small == [] && (forall n :: n in v.main ==> n.hash != hash) && hash !in v.ghosts
    && (v.free != [] || v.top < NIL) && answer.staleUntil > now
    && v.Total() + EntryCost(key, answer) <= v.budget && EntryCost(key, answer) <= v.budget / OVERSIZE_DIVISOR
  }

  function Filled(v: View, hash: Hash, key: Key, answer: Answer): View {
    Place(v, NodeFor(FreeSlot(v), hash, key, answer, 1), true)
  }

  lemma {:induction false} LocateLast(q: seq<Node>, x: Node)
    requires forall n :: n in q ==> n.hash != x.hash
    ensures Locate(q + [x], x.hash) == Some(x) && Locate(q, x.hash) == None
  {
    if q == [] {
      assert q + [x] == [x];
    } else {
      assert (q + [x])[1..] == q[1..] + [x] && q[0] in q;
      LocateLast(q[1..], x);
    }
  }

  lemma {:induction false} BumpLast(q: seq<Node>, x: Node)
    requires forall n :: n in q ==> n.slot != x.slot
    ensures Bump(q + [x], x.slot) == q + [Hit(x)] && Bump(q, x.slot) == q
  {
    if q == [] {
      assert q + [x] == [x];
    } else {
      assert (q + [x])[1..] == q[1..] + [x] && q[0] in q;
      BumpLast(q[1..], x);
      assert [q[0]] + q[1..] == q;
    }
  }

  /** The slot a new node takes is no live node's. */
  lemma NewSlot(v: View)
    requires Inv(v)
    ensures forall n :: n in v.main ==> n.slot != FreeSlot(v)
  {
    forall n | n in v.main ensures n.slot != FreeSlot(v) {
      assert n in v.Live() && Sound(n, v);
    }
  }

  lemma FirstInsert(v: View, hash: Hash, key: Key, answer: Answer, now: nat)
    requires RoomFor(v, hash, key, answer, now)
    ensures var n := NodeFor(FreeSlot(v), hash, key, answer, 0);
      Insert(v, hash, key, answer, now).0 == Place(v, n, false)
  {
    hide Inv, MakeRoom;
    var n := NodeFor(FreeSlot(v), hash, key, answer, 0);
    assert v.Live() == v.main;
    LocateLast(v.main, n);
    assert Displace(v, hash, key) == (v, false);
    assert v.ghosts - {hash} == v.ghosts && v.(ghosts := v.ghosts - {hash}) == v;
    assert Admit(v, hash, key, answer) == (Place(v, n, false), true);
    PlaceSmallTotal(v, n);
    NoRoomNeeded(Place(v, n, false), now);
  }

  lemma PlaceSmallTotal(v: View, n: Node)
    ensures Place(v, n, false).Total() == v.Total() + n.cost && Place(v, n, false).budget == v.budget
  {
    BytesConcat(v.small, [n]);
    assert Bytes([n]) == n.cost;
  }

  lemma FirstHit(v: View, hash: Hash, key: Key, answer: Answer, now: nat)
    requires RoomFor(v, hash, key, answer, now)
    ensures var n := NodeFor(FreeSlot(v), hash, key, answer, 0);
      Get(Place(v, n, false), hash, key, now).0 == Place(v, n.(freq := 1), false)
  {
    hide Inv;
    var n := NodeFor(FreeSlot(v), hash, key, answer, 0);
    var w := Place(v, n, false);
    NewSlot(v);
    BumpLast(v.main, n);
    assert w.small == [n] && w.main == v.main && w.Live()[0] == n;
    assert Bump([n], n.slot) == [Hit(n)];
  }

  /** Displacing the one node of Small gives its slot back. */
  lemma DisplaceOnly(w: View, hit: Node)
    requires w.small == [hit] && hit.freq > 0 && forall n :: n in w.main ==> n.slot != hit.slot
    ensures Displace(w, hit.hash, hit.key) == (w.(small := [], free := w.free + [hit.slot]), true)
  {
    WithoutAbsent(w.main, hit.slot);
    assert w.Live()[0] == hit;
    assert Without([hit], hit.slot) == [];
  }

  /** Putting a node back into the slot just given back undoes it. */
  lemma PlaceBack(v: View, w: View, n: Node)
    requires v.small == [] && n.slot == FreeSlot(v)
    requires w == Place(v, n.(freq := 1), false)
    ensures var u := w.(small := [], free := w.free + [n.slot]);
      FreeSlot(u) == n.slot && u.free != [] && Place(u, n, true) == Place(v, n, true)
  {
    var u := w.(small := [], free := w.free + [n.slot]);
    assert u.free[..|u.free| - 1] == w.free;
  }

  lemma Refresh(v: View, hash: Hash, key: Key, answer: Answer, now: nat)
    requires RoomFor(v, hash, key, answer, now)
    ensures var n := NodeFor(FreeSlot(v), hash, key, answer, 0);
      Insert(Place(v, n.(freq := 1), false), hash, key, answer, now).0 == Place(v, n, true)
  {
    hide Inv, Displace, MakeRoom;
    var n := NodeFor(FreeSlot(v), hash, key, answer, 0);
    var w := Place(v, n.(freq := 1), false);
    NewSlot(v);
    DisplaceOnly(w, n.(freq := 1));
    PlaceBack(v, w, n);
    hide Place, FreeSlot;
    var u := Displace(w, hash, key).0;
    assert u.ghosts == v.ghosts && u.budget == v.budget by {
      PlaceKeeps(v, n.(freq := 1), false);
    }
    assert u.ghosts - {hash} == u.ghosts && u.(ghosts := u.ghosts - {hash}) == u;
    assert Admit(w, hash, key, answer) == (Place(v, n, true), true);
    PlaceTotal(v, n);
    NoRoomNeeded(Place(v, n, true), now);
  }

  lemma PlaceKeeps(v: View, n: Node, toMain: bool)
    ensures var w := Place(v, n, toMain);
      w.ghosts == v.ghosts && w.budget == v.budget && w.ring == v.ring
  {
  }

  lemma PlaceTotal(v: View, n: Node)
    ensures Place(v, n, true).Total() == v.Total() + n.cost && Place(v, n, true).budget == v.budget
  {
    BytesConcat(v.main, [n]);
    assert Bytes([n]) == n.cost;
  }

  lemma NoRoomNeeded(v: View, now: nat)
    requires v.Total() <= v.budget
    ensures MakeRoom(v, now) == v
  {
  }

  lemma SecondHit(v: View, hash: Hash, key: Key, answer: Answer, now: nat)
    requires RoomFor(v, hash, key, answer, now)
    ensures var n := NodeFor(FreeSlot(v), hash, key, answer, 0);
      Get(Place(v, n, true), hash, key, now).0 == Filled(v, hash, key, answer)
  {
    hide Inv;
    var n := NodeFor(FreeSlot(v), hash, key, answer, 0);
    var w := Place(v, n, true);
    NewSlot(v);
    LocateLast(v.main, n);
    BumpLast(v.main, n);
    assert w.small == [] && w.main == v.main + [n] && w.Live() == v.main + [n];
  }

  lemma RunPlus(v: View, ops: seq<Op>, op: Op)
    ensures Run(v, ops + [op]) == Apply(Run(v, ops), op)
  {
    assert (ops + [op])[..|ops|] == ops;
  }

  lemma RunFour(v: View, ops: seq<Op>, a: Op, b: Op, c: Op, d: Op)
    ensures Run(v, ops + [a, b, c, d]) == Apply(Apply(Apply(Apply(Run(v, ops), a), b), c), d)
  {
    hide Apply, Run;
    RunPlus(v, ops, a);
    RunPlus(v, ops + [a], b);
    RunPlus(v, ops + [a] + [b], c);
    RunPlus(v, ops + [a] + [b] + [c], d);
    assert ops + [a, b, c, d] == ops + [a] + [b] + [c] + [d];
  }

  lemma FillRuns(v: View, ops: seq<Op>, hash: Hash, key: Key, answer: Answer, now: nat)
    requires RoomFor(Run(v, ops), hash, key, answer, now)
    ensures Run(v, ops + FillOps(hash, key, answer, now)) == Filled(Run(v, ops), hash, key, answer)
  {
    hide Insert, Get, Place, RoomFor, Filled, Run;
    var w := Run(v, ops);
    RunFour(v, ops, OpInsert(hash, key, answer, now), OpGet(hash, key, now),
            OpInsert(hash, key, answer, now), OpGet(hash, key, now));
    FirstInsert(w, hash, key, answer, now);
    FirstHit(w, hash, key, answer, now);
    Refresh(w, hash, key, answer, now);
    SecondHit(w, hash, key, answer, now);
  }

  // ---------------------------------------------------------------------------------------
  // One key remembered, eight keys in use, the budget used up

  const REMEMBERED: u32 := 8
  const UNSEEN: u32 := 9

  function Cost(weight: nat): nat {
    FIXED_COST + 10 + weight
  }

  function Budget(weight: nat): nat {
    8 * Cost(weight) + GHOST_COST
  }

  /** The hash function tells the ten keys apart. */
  ghost predicate Apart10(keyHash: Key -> Hash) {
    forall i: u32, j: u32 :: i < j < 10 ==> keyHash(KeyOf(i)) != keyHash(KeyOf(j))
  }

  /** The group is in the first four bytes. */
  lemma GroupByte(i: u32)
    requires i < 256
    ensures KeyOf(i)[3] == i
  {
    assert KeyOf(i)[3] == Be32(i)[3];
    assert Be32(i)[3] == Be16(i % 0x1_0000)[1] == i;
  }

  /** There is such a function. */
  lemma SomeHash()
    ensures Apart10((key: Key) => if |key| > 3 then key[3] else 0)
  {
    hide KeyOf;
    forall i: u32, j: u32 | i < j < 10 ensures KeyOf(i)[3] != KeyOf(j)[3] {
      GroupByte(i);
      GroupByte(j);
    }
  }

  /** A key is inserted, hit, and looked up again when it has expired: its hash is remembered. */
  function RememberOps(hash: Hash, weight: nat): seq<Op> {
    [OpInsert(hash, KeyOf(REMEMBERED), AnswerOf(REMEMBERED, 1, weight), 0), OpGet(hash, KeyOf(REMEMBERED), 0),
     OpGet(hash, KeyOf(REMEMBERED), 1)]
  }

  function Ops(keyHash: Key -> Hash, weight: nat, count: nat): seq<Op>
    requires count <= 8
  {
    if count == 0 then RememberOps(keyHash(KeyOf(REMEMBERED)), weight)
    else
      Ops(keyHash, weight, count - 1)
      + FillOps(keyHash(KeyOf(count - 1)), KeyOf(count - 1), AnswerOf(count - 1, 10, weight), 1)
  }

  function Nodes(keyHash: Key -> Hash, weight: nat, count: nat): (q: seq<Node>)
    requires count <= 8
    ensures |q| == count
  {
    if count == 0 then []
    else
      Nodes(keyHash, weight, count - 1)
      + [NodeFor(count - 1, keyHash(KeyOf(count - 1)), KeyOf(count - 1), AnswerOf(count - 1, 10, weight), 1)]
  }

  /** The shard after the run: the first of the eight takes the slot the remembered key had. */
  function After(keyHash: Key -> Hash, weight: nat, count: nat): View
    requires count <= 8
  {
    var hash := keyHash(KeyOf(REMEMBERED));
    View(Budget(weight), [], Nodes(keyHash, weight, count), if count == 0 then [0] else [],
         if count == 0 then 1 else count, map[hash := 1], [(hash, 1)], 1)
  }

  lemma {:induction false} OpsHashed(keyHash: Key -> Hash, weight: nat, count: nat)
    requires count <= 8
    ensures forall i :: 0 <= i < |Ops(keyHash, weight, count)| ==> Hashed(Ops(keyHash, weight, count)[i], keyHash)
  {
    if count > 0 {
      OpsHashed(keyHash, weight, count - 1);
    }
  }

  lemma {:induction false} NodesBytes(keyHash: Key -> Hash, weight: nat, count: nat)
    requires count <= 8
    ensures Bytes(Nodes(keyHash, weight, count)) == count * Cost(weight)
  {
    hide KeyOf;
    if count > 0 {
      NodesBytes(keyHash, weight, count - 1);
      var last := NodeFor(count - 1, keyHash(KeyOf(count - 1)), KeyOf(count - 1), AnswerOf(count - 1, 10, weight), 1);
      BytesConcat(Nodes(keyHash, weight, count - 1), [last]);
      OneShare(count, Cost(weight), last.cost);
      assert Bytes([last]) == last.cost;
    }
  }

  lemma OneShare(count: nat, c: nat, last: nat)
    requires count > 0 && last == c
    ensures (count - 1) * c + last == count * c
  {
  }

  predicate NodeSound(n: Node, keyHash: Key -> Hash, weight: nat, count: nat) {
    && n.slot < count <= 8 && n.key == KeyOf(n.slot) && n.hash == keyHash(n.key) && n.freq == 1 && n.expires == 10
    && n.cost == Cost(weight)
  }

  lemma {:induction false} NodesSound(keyHash: Key -> Hash, weight: nat, count: nat)
    requires count <= 8
    ensures forall n :: n in Nodes(keyHash, weight, count) ==> NodeSound(n, keyHash, weight, count)
  {
    hide KeyOf;
    if count > 0 {
      NodesSound(keyHash, weight, count - 1);
    }
  }

  lemma Remembers(hash: Hash, weight: nat)
    ensures Run(Empty(Budget(weight)), RememberOps(hash, weight))
         == View(Budget(weight), [], [], [0], 1, map[hash := 1], [(hash, 1)], 1)
  {
    var v := Empty(Budget(weight));
    var key, answer := KeyOf(REMEMBERED), AnswerOf(REMEMBERED, 1, weight);
    var a, b, c := OpInsert(hash, key, answer, 0), OpGet(hash, key, 0), OpGet(hash, key, 1);
    assert [a, b, c] == [] + [a] + [b] + [c];
    RunPlus(v, [], a);
    RunPlus(v, [] + [a], b);
    RunPlus(v, [] + [a] + [b], c);
    EmptyInv(Budget(weight));
    FirstInsert(v, hash, key, answer, 0);
    FirstHit(v, hash, key, answer, 0);
    Expires(v, NodeFor(0, hash, key, answer, 1));
  }

  /** A hit node found expired leaves its hash behind. */
  lemma Expires(v: View, n: Node)
    requires v == Empty(v.budget) && v.GhostCap() > 0 && n.slot == 0 && n.freq == 1 && n.expires <= 1
    ensures Get(Place(v, n, false), n.hash, n.key, 1).0
         == v.(free := [0], top := 1, ghosts := map[n.hash := 1], ring := [(n.hash, 1)], ghostSeq := 1)
  {
    var w := Place(v, n, false);
    assert w.small == [n] && w.Live() == [n];
    assert RemoveSlot(w, 0) == v.(free := [0], top := 1);
    assert map[][n.hash := 1] == map[n.hash := 1];
  }

  /** Every run from the empty shard that does these operations ends in this shard. */
  lemma {:induction false} Reached(keyHash: Key -> Hash, weight: nat, count: nat)
    requires count <= 8 && Apart10(keyHash)
    ensures Run(Empty(Budget(weight)), Ops(keyHash, weight, count)) == After(keyHash, weight, count)
  {
    var v := Empty(Budget(weight));
    if count == 0 {
      Remembers(keyHash(KeyOf(REMEMBERED)), weight);
    } else {
      var i := count - 1;
      Reached(keyHash, weight, i);
      RunWithinBudget(Budget(weight), Ops(keyHash, weight, i));
      HasRoom(keyHash, weight, i);
      FillRuns(v, Ops(keyHash, weight, i), keyHash(KeyOf(i)), KeyOf(i), AnswerOf(i, 10, weight), 1);
      hide Run, FillOps, Nodes;
      OneMoreNode(keyHash, weight, i);
    }
  }

  lemma HasRoom(keyHash: Key -> Hash, weight: nat, i: nat)
    requires i < 8 && Apart10(keyHash) && Inv(After(keyHash, weight, i))
    ensures RoomFor(After(keyHash, weight, i), keyHash(KeyOf(i)), KeyOf(i), AnswerOf(i, 10, weight), 1)
  {
    hide Inv, Nodes;
    NodesBytes(keyHash, weight, i);
    NodesSound(keyHash, weight, i);
    Shares(i, Cost(weight));
  }

  lemma Shares(i: nat, c: nat)
    requires i < 8
    ensures i * c + c <= 8 * c && (8 * c + GHOST_COST) / OVERSIZE_DIVISOR >= c
  {
  }

  lemma OneMoreNode(keyHash: Key -> Hash, weight: nat, i: nat)
    requires i < 8
    ensures Filled(After(keyHash, weight, i), keyHash(KeyOf(i)), KeyOf(i), AnswerOf(i, 10, weight))
         == After(keyHash, weight, i + 1)
  {
    var v := After(keyHash, weight, i);
    assert FreeSlot(v) == i;
    assert [0][..0] == [];
  }

  // ---------------------------------------------------------------------------------------
  // What is lost

  lemma FullShard(keyHash: Key -> Hash, weight: nat)
    requires Apart10(keyHash)
    ensures var v := Run(Empty(Budget(weight)), Ops(keyHash, weight, 8));
      && v == After(keyHash, weight, 8) && Inv(v) && v.Total() == v.budget && !HasExpired(v, 1)
      && (forall n :: n in v.main ==> n.freq > 0)
      && (forall i: u32 :: 8 <= i < 10 ==> Locate(v.Live(), keyHash(KeyOf(i))).None?)
  {
    hide Inv, Ops, Nodes, Run;
    Reached(keyHash, weight, 8);
    RunWithinBudget(Budget(weight), Ops(keyHash, weight, 8));
    NodesBytes(keyHash, weight, 8);
    NodesSound(keyHash, weight, 8);
    var v := After(keyHash, weight, 8);
    assert v.Live() == v.main;
    EarliestIsLeast(v.Live());
    forall i: u32 | 8 <= i < 10 ensures Locate(v.Live(), keyHash(KeyOf(i))).None? {
      LocateFinds(v.Live(), keyHash(KeyOf(i)));
    }
  }

  /** An unseen key of the size of all the others is reported as stored, and nothing is stored under its hash. */
  lemma LostFromSmall(keyHash: Key -> Hash, weight: nat)
    requires Apart10(keyHash)
    ensures forall i :: 0 <= i < |Ops(keyHash, weight, 8)| ==> Hashed(Ops(keyHash, weight, 8)[i], keyHash)
    ensures var v := Run(Empty(Budget(weight)), Ops(keyHash, weight, 8));
      var (w, stored) := Insert(v, keyHash(KeyOf(UNSEEN)), KeyOf(UNSEEN), AnswerOf(UNSEEN, 10, weight), 1);
      stored && forall k, a :: !Holds(w, keyHash(KeyOf(UNSEEN)), k, a)
  {
    hide Inv, Ops, Nodes, Insert, Run;
    OpsHashed(keyHash, weight, 8);
    FullShard(keyHash, weight);
    var v := After(keyHash, weight, 8);
    var hash := keyHash(KeyOf(UNSEEN));
    assert hash != keyHash(KeyOf(REMEMBERED));
    assert Displace(v, hash, KeyOf(UNSEEN)) == (v, false);
    AdmittedThenEvicted(v, hash, KeyOf(UNSEEN), AnswerOf(UNSEEN, 10, weight), 1);
  }

  /** The remembered key, of the size of the others or any smaller one, is reported as stored and is not. */
  lemma LostFromMain(keyHash: Key -> Hash, weight: nat, lighter: nat)
    requires Apart10(keyHash) && lighter <= weight
    ensures forall i :: 0 <= i < |Ops(keyHash, weight, 8)| ==> Hashed(Ops(keyHash, weight, 8)[i], keyHash)
    ensures var v := Run(Empty(Budget(weight)), Ops(keyHash, weight, 8));
      var (w, stored) := Insert(v, keyHash(KeyOf(REMEMBERED)), KeyOf(REMEMBERED), AnswerOf(REMEMBERED, 10, lighter), 1);
      stored && forall k, a :: !Holds(w, keyHash(KeyOf(REMEMBERED)), k, a)
  {
    hide Inv, Ops, Nodes, Insert, Run;
    OpsHashed(keyHash, weight, 8);
    FullShard(keyHash, weight);
    var v := After(keyHash, weight, 8);
    var hash := keyHash(KeyOf(REMEMBERED));
    assert Displace(v, hash, KeyOf(REMEMBERED)) == (v, false);
    AdmittedToMainThenEvicted(v, hash, KeyOf(REMEMBERED), AnswerOf(REMEMBERED, 10, lighter), 1);
  }
}
