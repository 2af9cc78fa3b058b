/** The slab of slots, the doubly linked lists threaded through it, and the two indices over it. */
module ShardLinks {
  import opened Base
  import opened ShardModel
  import opened ShardInvariant

  datatype Queue = Small | Main

  datatype Slot = Slot(
    key: Key, hash: Hash, answer: Answer, cost: nat, expires: nat, freq: nat, queue: Queue, prev: nat, next: nat)

  type Slab = seq<Option<Slot>>

  /** The two ends and the bytes of a queue threaded through the slab, first out at `head`. */
  datatype List = List(head: nat, tail: nat, bytes: nat)

  predicate IsLive(t: Slab, i: nat) {
    i < |t| && t[i].Some?
  }

  function NodeIn(i: nat, s: Slot): Node {
    Node(i, s.key, s.hash, s.answer, s.cost, s.expires, s.freq)
  }

  /** The content of a slot, links and queue aside. */
  function NodeOf(t: Slab, i: nat): Node {
    if IsLive(t, i) then NodeIn(i, t[i].value) else Node(i, [], 0, Answer(0, 0, false, 0), 0, 0, 0)
  }

  function Nodes(t: Slab, order: seq<nat>): seq<Node> {
    if order == [] then [] else [NodeOf(t, order[0])] + Nodes(t, order[1..])
  }

  /** `order` without index `i`. */
  function Drop(order: seq<nat>, i: nat): seq<nat> {
    if order == [] then [] else if order[0] == i then order[1..] else [order[0]] + Drop(order[1..], i)
  }

  function NextOf(t: Slab, i: nat): nat {
    if IsLive(t, i) then t[i].value.next else NIL
  }

  function PrevOf(t: Slab, i: nat): nat {
    if IsLive(t, i) then t[i].value.prev else NIL
  }

  predicate InQueue(t: Slab, i: nat, queue: Queue) {
    IsLive(t, i) && t[i].value.queue == queue
  }

  ghost predicate Occupied(t: Slab, queue: Queue, order: seq<nat>) {
    forall k :: 0 <= k < |order| ==> InQueue(t, order[k], queue)
  }

  ghost predicate Neighbours(t: Slab, order: seq<nat>) {
    forall j, k :: 0 <= j < k < |order| && k == j + 1 ==> NextOf(t, order[j]) == order[k] && PrevOf(t, order[k]) == order[j]
  }

  ghost predicate Ends(t: Slab, order: seq<nat>) {
    order != [] ==> PrevOf(t, order[0]) == NIL && NextOf(t, order[|order| - 1]) == NIL
  }

  /** `order` lists distinct live slots of `queue`, each linked to its neighbours and to nothing else. */
  ghost predicate Threaded(t: Slab, queue: Queue, order: seq<nat>) {
    Occupied(t, queue, order) && NoRepeats(order) && Neighbours(t, order) && Ends(t, order)
  }

  function At(order: seq<nat>, k: int): nat {
    if 0 <= k < |order| then order[k] else NIL
  }

  /** The list header agrees with the thread: ends and summed cost. */
  ghost predicate Linked(t: Slab, list: List, queue: Queue, order: seq<nat>) {
    && Threaded(t, queue, order)
    && list.head == At(order, 0)
    && list.tail == At(order, |order| - 1)
    && list.bytes == Bytes(Nodes(t, order))
  }

  /** The slabs hold the same nodes in the same slots; only links and queues may differ. */
  ghost predicate Agree(t: Slab, u: Slab) {
    |t| == |u| && forall i :: 0 <= i < |t| ==> t[i].Some? == u[i].Some? && NodeOf(t, i) == NodeOf(u, i)
  }

  function SetNext(t: Slab, i: nat, next: nat): Slab {
    if IsLive(t, i) then t[i := Some(t[i].value.(next := next))] else t
  }

  function SetPrev(t: Slab, i: nat, prev: nat): Slab {
    if IsLive(t, i) then t[i := Some(t[i].value.(prev := prev))] else t
  }

  function Unlinked(t: Slab, i: nat): Slab
    requires IsLive(t, i)
  {
    SetPrev(SetNext(t, t[i].value.prev, t[i].value.next), t[i].value.next, t[i].value.prev)
  }

  function Appended(t: Slab, i: nat, queue: Queue, tail: nat): Slab
    requires IsLive(t, i)
  {
    SetNext(t[i := Some(t[i].value.(prev := tail, next := NIL, queue := queue))], tail, i)
  }

  /** The list header after unlinking slot `i`. */
  function ListWithout(list: List, i: nat, s: Slot): List
    requires s.cost <= list.bytes
  {
    List(if list.head == i then s.next else list.head, if list.tail == i then s.prev else list.tail, list.bytes - s.cost)
  }

  /** The list header after appending slot `i`. */
  function ListWith(list: List, i: nat, cost: nat): List {
    List(if list.tail == NIL then i else list.head, i, list.bytes + cost)
  }

  // ---------------------------------------------------------------------------------------
  // Nodes along an order

  lemma {:induction false} NodesAt(t: Slab, order: seq<nat>)
    ensures |Nodes(t, order)| == |order|
    ensures forall k :: 0 <= k < |order| ==> Nodes(t, order)[k] == NodeOf(t, order[k])
  {
    if order != [] {
      NodesAt(t, order[1..]);
    }
  }

  lemma {:induction false} NodesSame(t: Slab, u: Slab, order: seq<nat>)
    requires forall k :: 0 <= k < |order| ==> NodeOf(t, order[k]) == NodeOf(u, order[k])
    ensures Nodes(t, order) == Nodes(u, order)
  {
    if order != [] {
      NodesSame(t, u, order[1..]);
    }
  }

  lemma AgreeNodes(t: Slab, u: Slab, order: seq<nat>)
    requires Agree(t, u)
    ensures Nodes(t, order) == Nodes(u, order)
  {
    forall k | 0 <= k < |order| ensures NodeOf(t, order[k]) == NodeOf(u, order[k]) {
      if order[k] < |t| {
        assert NodeOf(t, order[k]) == NodeOf(u, order[k]);
      }
    }
    NodesSame(t, u, order);
  }

  lemma {:induction false} NodesPush(t: Slab, order: seq<nat>, i: nat)
    ensures Nodes(t, order + [i]) == Nodes(t, order) + [NodeOf(t, i)]
    ensures Bytes(Nodes(t, order + [i])) == Bytes(Nodes(t, order)) + NodeOf(t, i).cost
  {
    if order == [] {
      assert order + [i] == [i];
      assert Nodes(t, [i]) == [NodeOf(t, i)];
    } else {
      assert (order + [i])[1..] == order[1..] + [i];
      NodesPush(t, order[1..], i);
    }
    BytesConcat(Nodes(t, order), [NodeOf(t, i)]);
  }

  lemma {:induction false} NodesDrop(t: Slab, order: seq<nat>, i: nat)
    ensures Nodes(t, Drop(order, i)) == Without(Nodes(t, order), i)
  {
    if order != [] && order[0] != i {
      NodesDrop(t, order[1..], i);
      assert Drop(order, i)[1..] == Drop(order[1..], i);
    }
  }

  lemma {:induction false} DropAt(order: seq<nat>, k: nat)
    requires k < |order| && NoRepeats(order)
    ensures Drop(order, order[k]) == order[..k] + order[k + 1..]
    ensures order[k] !in Drop(order, order[k])
  {
    if k == 0 {
      assert order[..0] + order[1..] == order[1..];
    } else {
      DropAt(order[1..], k - 1);
      assert [order[0]] + (order[1..][..k - 1] + order[1..][k..]) == order[..k] + order[k + 1..];
    }
  }

  lemma {:induction false} DropAbsent(order: seq<nat>, i: nat)
    requires i !in order
    ensures Drop(order, i) == order
  {
    if order != [] {
      DropAbsent(order[1..], i);
    }
  }

  lemma {:induction false} DropKeeps(order: seq<nat>, i: nat, j: nat)
    requires j in order && j != i
    ensures j in Drop(order, i)
  {
    if order[0] != i && order[0] != j {
      DropKeeps(order[1..], i, j);
    }
  }

  lemma {:induction false} BytesDrop(t: Slab, order: seq<nat>, i: nat)
    requires i in order
    ensures Bytes(Nodes(t, Drop(order, i))) == Bytes(Nodes(t, order)) - NodeOf(t, i).cost
  {
    if order[0] != i {
      BytesDrop(t, order[1..], i);
      assert Drop(order, i)[1..] == Drop(order[1..], i);
    }
  }

  // ---------------------------------------------------------------------------------------
  // Unlinking

  /** Which links an unlink rewrites: the next of the previous slot and the previous of the next one. */
  lemma UnlinkEffect(t: Slab, queue: Queue, order: seq<nat>, k: nat)
    requires Threaded(t, queue, order) && |t| <= NIL && k < |order|
    ensures var u, before, after := Unlinked(t, order[k]), At(order, k - 1), At(order, k + 1);
      && Agree(t, u)
      && (forall i :: 0 <= i < |t| && t[i].Some? ==> u[i].value == t[i].value.(
            next := if i == before then after else t[i].value.next,
            prev := if i == after then before else t[i].value.prev))
  {
    LinksAt(t, queue, order, k);
  }

  lemma LinksAt(t: Slab, queue: Queue, order: seq<nat>, k: nat)
    requires Threaded(t, queue, order) && k < |order|
    ensures InQueue(t, order[k], queue)
    ensures t[order[k]].value.prev == At(order, k - 1) && t[order[k]].value.next == At(order, k + 1)
  {
  }

  lemma OrderMinus(order: seq<nat>, k: nat)
    requires NoRepeats(order) && k < |order|
    ensures NoRepeats(order[..k] + order[k + 1..])
  {
    var rest := order[..k] + order[k + 1..];
    forall i, j | 0 <= i < j < |rest| ensures rest[i] != rest[j] {
      assert rest[i] == order[if i < k then i else i + 1] && rest[j] == order[if j < k then j else j + 1];
    }
  }

  lemma UnlinkOccupied(t: Slab, u: Slab, queue: Queue, order: seq<nat>, k: nat)
    requires Occupied(t, queue, order) && k < |order|
    requires forall i :: InQueue(t, i, queue) ==> InQueue(u, i, queue)
    ensures Occupied(u, queue, order[..k] + order[k + 1..])
  {
    var rest := order[..k] + order[k + 1..];
    forall i | 0 <= i < |rest| ensures InQueue(u, rest[i], queue) {
      assert rest[i] == order[if i < k then i else i + 1];
    }
  }

  lemma UnlinkNeighbours(t: Slab, queue: Queue, order: seq<nat>, k: nat)
    requires Threaded(t, queue, order) && |t| <= NIL && k < |order|
    ensures Neighbours(Unlinked(t, order[k]), order[..k] + order[k + 1..])
  {
    var u := Unlinked(t, order[k]);
    var rest := order[..k] + order[k + 1..];
    UnlinkEffect(t, queue, order, k);
    forall i, j | 0 <= i < j < |rest| && j == i + 1
      ensures NextOf(u, rest[i]) == rest[j] && PrevOf(u, rest[j]) == rest[i]
    {
      if j < k {
        assert rest[i] == order[i] && rest[j] == order[j];
      } else if j == k {
        assert rest[i] == order[k - 1] && rest[j] == order[k + 1];
      } else {
        assert rest[i] == order[i + 1] && rest[j] == order[j + 1];
      }
    }
  }

  lemma UnlinkedEnds(t: Slab, queue: Queue, order: seq<nat>, k: nat)
    requires Threaded(t, queue, order) && |t| <= NIL && k < |order|
    ensures Ends(Unlinked(t, order[k]), order[..k] + order[k + 1..])
  {
    var rest := order[..k] + order[k + 1..];
    UnlinkEffect(t, queue, order, k);
    if rest != [] {
      var first, last := if k == 0 then 1 else 0, if k == |order| - 1 then k - 1 else |order| - 1;
      assert rest[0] == order[first] && rest[|rest| - 1] == order[last];
      LinksAt(t, queue, order, first);
      LinksAt(t, queue, order, last);
    }
  }

  /** Taking position `k` out of a thread leaves the rest threaded. */
  lemma UnlinkThread(t: Slab, queue: Queue, order: seq<nat>, k: nat)
    requires Threaded(t, queue, order) && |t| <= NIL && k < |order|
    ensures Threaded(Unlinked(t, order[k]), queue, order[..k] + order[k + 1..])
  {
    OrderMinus(order, k);
    UnlinkEffect(t, queue, order, k);
    UnlinkOccupied(t, Unlinked(t, order[k]), queue, order, k);
    UnlinkNeighbours(t, queue, order, k);
    UnlinkedEnds(t, queue, order, k);
  }

  lemma UnlinkLinked(t: Slab, list: List, queue: Queue, order: seq<nat>, i: nat)
    requires Linked(t, list, queue, order) && |t| <= NIL && i in order
    ensures InQueue(t, i, queue) && t[i].value.cost <= list.bytes
    ensures Linked(Unlinked(t, i), ListWithout(list, i, t[i].value), queue, Drop(order, i))
    ensures Agree(t, Unlinked(t, i)) && Unlinked(t, i)[i] == t[i] && i !in Drop(order, i)
  {
    var k :| 0 <= k < |order| && order[k] == i;
    LinksAt(t, queue, order, k);
    UnlinkSame(t, queue, order, k);
    DropAt(order, k);
    UnlinkBytes(t, list, queue, order, k);
    UnlinkThread(t, queue, order, k);
    UnlinkEnds(t, list, queue, order, k);
  }

  lemma UnlinkBytes(t: Slab, list: List, queue: Queue, order: seq<nat>, k: nat)
    requires Linked(t, list, queue, order) && |t| <= NIL && k < |order|
    ensures var i := order[k];
      && InQueue(t, i, queue) && t[i].value.cost <= list.bytes
      && ListWithout(list, i, t[i].value).bytes == Bytes(Nodes(Unlinked(t, i), Drop(order, i)))
  {
    LinksAt(t, queue, order, k);
    hide Neighbours, Ends, Occupied, Unlinked, Drop, Nodes, NoRepeats;
    UnlinkSame(t, queue, order, k);
    BytesDrop(t, order, order[k]);
  }

  lemma UnlinkSame(t: Slab, queue: Queue, order: seq<nat>, k: nat)
    requires Threaded(t, queue, order) && |t| <= NIL && k < |order|
    ensures IsLive(t, order[k]) && Agree(t, Unlinked(t, order[k])) && Unlinked(t, order[k])[order[k]] == t[order[k]]
    ensures Nodes(Unlinked(t, order[k]), Drop(order, order[k])) == Nodes(t, Drop(order, order[k]))
  {
    LinksAt(t, queue, order, k);
    UnlinkEffect(t, queue, order, k);
    AgreeNodes(t, Unlinked(t, order[k]), Drop(order, order[k]));
  }

  lemma UnlinkEnds(t: Slab, list: List, queue: Queue, order: seq<nat>, k: nat)
    requires Threaded(t, queue, order) && k < |order|
    requires list.head == At(order, 0) && list.tail == At(order, |order| - 1)
    requires InQueue(t, order[k], queue) && t[order[k]].value.cost <= list.bytes
    ensures var after, rest := ListWithout(list, order[k], t[order[k]].value), order[..k] + order[k + 1..];
      after.head == At(rest, 0) && after.tail == At(rest, |rest| - 1)
  {
    LinksAt(t, queue, order, k);
  }

  /** Rewriting slots outside a thread leaves its list alone. */
  lemma LinkedElsewhere(t: Slab, u: Slab, list: List, queue: Queue, order: seq<nat>)
    requires Linked(t, list, queue, order)
    requires forall k :: 0 <= k < |order| ==> order[k] < |u| && u[order[k]] == t[order[k]]
    ensures Linked(u, list, queue, order) && Nodes(u, order) == Nodes(t, order)
  {
    NodesSame(t, u, order);
  }

  /** An unlink in one queue leaves the other queue's list alone. */
  lemma UnlinkOther(t: Slab, queue: Queue, order: seq<nat>, i: nat, otherList: List, otherQueue: Queue, other: seq<nat>)
    requires Threaded(t, queue, order) && |t| <= NIL && i in order
    requires Linked(t, otherList, otherQueue, other) && queue != otherQueue
    ensures Linked(Unlinked(t, i), otherList, otherQueue, other) && Drop(other, i) == other && i !in other
  {
    var k :| 0 <= k < |order| && order[k] == i;
    UnlinkEffect(t, queue, order, k);
    var u := Unlinked(t, i);
    forall j | 0 <= j < |other| ensures other[j] < |u| && u[other[j]] == t[other[j]] && other[j] != i {
      assert InQueue(t, other[j], otherQueue) && InQueue(t, order[k], queue);
      assert k > 0 ==> InQueue(t, order[k - 1], queue);
      assert k + 1 < |order| ==> InQueue(t, order[k + 1], queue);
    }
    LinkedElsewhere(t, u, otherList, otherQueue, other);
    DropAbsent(other, i);
  }

  // ---------------------------------------------------------------------------------------
  // Appending

  lemma AppendEffect(t: Slab, i: nat, queue: Queue, order: seq<nat>)
    requires Threaded(t, queue, order) && |t| <= NIL && IsLive(t, i) && i !in order
    ensures var tail := At(order, |order| - 1);
      var u := Appended(t, i, queue, tail);
      && Agree(t, u)
      && (forall j :: 0 <= j < |t| && t[j].Some? ==>
            u[j].value == (if j == i then t[j].value.(prev := tail, next := NIL, queue := queue)
                           else if j == tail then t[j].value.(next := i) else t[j].value))
  {
    if order != [] {
      assert order[|order| - 1] in order;
    }
  }

  lemma AppendThread(t: Slab, i: nat, queue: Queue, order: seq<nat>)
    requires Threaded(t, queue, order) && |t| <= NIL && IsLive(t, i) && i !in order
    ensures Threaded(Appended(t, i, queue, At(order, |order| - 1)), queue, order + [i])
  {
    AppendEffect(t, i, queue, order);
    AppendNeighbours(t, i, queue, order);
    var longer := order + [i];
    forall k | 0 <= k < |longer| ensures InQueue(Appended(t, i, queue, At(order, |order| - 1)), longer[k], queue) {
      assert k < |order| ==> longer[k] == order[k] && order[k] in order && InQueue(t, order[k], queue);
    }
    assert forall k :: 0 <= k < |order| ==> longer[k] == order[k] && order[k] in order;
  }

  lemma AppendNeighbours(t: Slab, i: nat, queue: Queue, order: seq<nat>)
    requires Threaded(t, queue, order) && |t| <= NIL && IsLive(t, i) && i !in order
    ensures Neighbours(Appended(t, i, queue, At(order, |order| - 1)), order + [i])
  {
    AppendEffect(t, i, queue, order);
    var u, longer := Appended(t, i, queue, At(order, |order| - 1)), order + [i];
    forall j, k | 0 <= j < k < |longer| && k == j + 1
      ensures NextOf(u, longer[j]) == longer[k] && PrevOf(u, longer[k]) == longer[j]
    {
      assert longer[j] == order[j] && order[j] in order && InQueue(t, order[j], queue);
      assert k < |order| ==> longer[k] == order[k] && order[k] in order && InQueue(t, order[k], queue);
    }
  }

  lemma AppendLinked(t: Slab, list: List, i: nat, queue: Queue, order: seq<nat>)
    requires Linked(t, list, queue, order) && |t| <= NIL && IsLive(t, i) && i !in order
    ensures Linked(Appended(t, i, queue, list.tail), ListWith(list, i, t[i].value.cost), queue, order + [i])
    ensures Agree(t, Appended(t, i, queue, list.tail))
  {
    AppendThread(t, i, queue, order);
    AppendEffect(t, i, queue, order);
    NodesPush(t, order, i);
    AgreeNodes(t, Appended(t, i, queue, list.tail), order + [i]);
    assert order != [] ==> InQueue(t, order[|order| - 1], queue);
  }

  lemma AppendOther(t: Slab, i: nat, queue: Queue, order: seq<nat>, otherList: List, otherQueue: Queue, other: seq<nat>)
    requires Threaded(t, queue, order) && |t| <= NIL && IsLive(t, i) && i !in order
    requires Linked(t, otherList, otherQueue, other) && queue != otherQueue && i !in other
    ensures Linked(Appended(t, i, queue, At(order, |order| - 1)), otherList, otherQueue, other)
  {
    AppendEffect(t, i, queue, order);
    var u := Appended(t, i, queue, At(order, |order| - 1));
    forall j | 0 <= j < |other| ensures other[j] < |u| && u[other[j]] == t[other[j]] {
      assert other[j] in other && InQueue(t, other[j], otherQueue);
      assert order != [] ==> InQueue(t, order[|order| - 1], queue);
    }
    LinkedElsewhere(t, u, otherList, otherQueue, other);
  }

  // ---------------------------------------------------------------------------------------
  // Both lists at once

  datatype Chains = Chains(slots: Slab, small: List, main: List, ghost smallOrder: seq<nat>, ghost mainOrder: seq<nat>)

  /** Both lists are properly threaded through the slab. */
  ghost predicate Chained(c: Chains) {
    && |c.slots| <= NIL
    && Linked(c.slots, c.small, Queue.Small, c.smallOrder)
    && Linked(c.slots, c.main, Queue.Main, c.mainOrder)
  }

  ghost function Push(c: Chains, i: nat, queue: Queue): Chains
    requires IsLive(c.slots, i)
  {
    var cost := c.slots[i].value.cost;
    if queue == Queue.Small then
      c.(slots := Appended(c.slots, i, queue, c.small.tail), small := ListWith(c.small, i, cost), smallOrder := c.smallOrder + [i])
    else
      c.(slots := Appended(c.slots, i, queue, c.main.tail), main := ListWith(c.main, i, cost), mainOrder := c.mainOrder + [i])
  }

  lemma PushChained(c: Chains, i: nat, queue: Queue)
    requires Chained(c) && IsLive(c.slots, i) && i !in c.smallOrder && i !in c.mainOrder
    ensures Chained(Push(c, i, queue)) && Agree(c.slots, Push(c, i, queue).slots)
  {
    if queue == Queue.Small {
      AppendLinked(c.slots, c.small, i, queue, c.smallOrder);
      AppendOther(c.slots, i, queue, c.smallOrder, c.main, Queue.Main, c.mainOrder);
    } else {
      AppendLinked(c.slots, c.main, i, queue, c.mainOrder);
      AppendOther(c.slots, i, queue, c.mainOrder, c.small, Queue.Small, c.smallOrder);
    }
  }

  lemma TailInRange(c: Chains, queue: Queue)
    requires Chained(c)
    ensures var tail := if queue == Queue.Small then c.small.tail else c.main.tail;
      tail == NIL ==> !IsLive(c.slots, NIL)
  {
  }

  ghost predicate Takeable(c: Chains, i: nat) {
    && IsLive(c.slots, i)
    && c.slots[i].value.cost <= (if c.slots[i].value.queue == Queue.Small then c.small.bytes else c.main.bytes)
  }

  ghost function Take(c: Chains, i: nat): Chains
    requires Takeable(c, i)
  {
    var s := c.slots[i].value;
    Chains(
      Unlinked(c.slots, i),
      if s.queue == Queue.Small then ListWithout(c.small, i, s) else c.small,
      if s.queue == Queue.Small then c.main else ListWithout(c.main, i, s),
      Drop(c.smallOrder, i),
      Drop(c.mainOrder, i))
  }

  lemma TakeChained(c: Chains, i: nat)
    requires Chained(c) && (i in c.smallOrder || i in c.mainOrder)
    ensures Takeable(c, i)
    ensures var d := Take(c, i);
      && Chained(d) && Agree(c.slots, d.slots) && d.slots[i] == c.slots[i]
      && i !in d.smallOrder && i !in d.mainOrder
  {
    if i in c.smallOrder {
      UnlinkLinked(c.slots, c.small, Queue.Small, c.smallOrder, i);
      UnlinkOther(c.slots, Queue.Small, c.smallOrder, i, c.main, Queue.Main, c.mainOrder);
    } else {
      UnlinkLinked(c.slots, c.main, Queue.Main, c.mainOrder, i);
      UnlinkOther(c.slots, Queue.Main, c.mainOrder, i, c.small, Queue.Small, c.smallOrder);
    }
  }

  /** Rewriting slot `i`, or adding it, when neither list uses it. */
  lemma ElsewhereChained(c: Chains, u: Slab, i: nat)
    requires Chained(c) && |u| <= NIL && i !in c.smallOrder && i !in c.mainOrder
    requires |c.slots| <= |u| && forall j :: 0 <= j < |c.slots| && j != i ==> u[j] == c.slots[j]
    ensures Chained(c.(slots := u))
    ensures Nodes(u, c.smallOrder) == Nodes(c.slots, c.smallOrder) && Nodes(u, c.mainOrder) == Nodes(c.slots, c.mainOrder)
  {
    Untouched(c.slots, u, Queue.Small, c.smallOrder, i);
    Untouched(c.slots, u, Queue.Main, c.mainOrder, i);
    LinkedElsewhere(c.slots, u, c.small, Queue.Small, c.smallOrder);
    LinkedElsewhere(c.slots, u, c.main, Queue.Main, c.mainOrder);
  }

  lemma Untouched(t: Slab, u: Slab, queue: Queue, order: seq<nat>, i: nat)
    requires Occupied(t, queue, order) && i !in order
    requires |t| <= |u| && forall j :: 0 <= j < |t| && j != i ==> u[j] == t[j]
    ensures forall k :: 0 <= k < |order| ==> order[k] < |u| && u[order[k]] == t[order[k]]
  {
    forall k | 0 <= k < |order| ensures order[k] < |u| && u[order[k]] == t[order[k]] {
      assert order[k] in order && InQueue(t, order[k], queue);
    }
  }

  // ---------------------------------------------------------------------------------------
  // The indices

  /** The hash index maps exactly the hashes of the live slots to those slots. */
  ghost predicate Indexed(t: Slab, index: map<Hash, nat>) {
    && (forall h :: h in index ==> IsLive(t, index[h]) && t[index[h]].value.hash == h)
    && (forall i :: 0 <= i < |t| && t[i].Some? ==> t[i].value.hash in index && index[t[i].value.hash] == i)
  }

  /** The expiry index holds exactly the drop times of the live slots. */
  ghost predicate Expiring(t: Slab, expiry: set<(nat, nat)>) {
    && (forall e :: e in expiry ==> IsLive(t, e.1) && t[e.1].value.expires == e.0)
    && (forall i :: 0 <= i < |t| && t[i].Some? ==> (t[i].value.expires, i) in expiry)
  }

  /** Every live slot is in a queue. */
  ghost predicate Covered(t: Slab, small: seq<nat>, main: seq<nat>) {
    forall i :: 0 <= i < |t| && t[i].Some? ==> i in small || i in main
  }

  lemma AgreeIndices(t: Slab, u: Slab, index: map<Hash, nat>, expiry: set<(nat, nat)>)
    requires Agree(t, u)
    ensures Indexed(t, index) ==> Indexed(u, index)
    ensures Expiring(t, expiry) ==> Expiring(u, expiry)
  {
    forall i | 0 <= i < |t| && t[i].Some?
      ensures u[i].Some? && u[i].value.hash == t[i].value.hash && u[i].value.expires == t[i].value.expires
    {
      assert NodeOf(t, i) == NodeOf(u, i);
    }
  }

  /** Emptying a slot and taking it out of both indices. */
  lemma ClearIndices(t: Slab, i: nat, index: map<Hash, nat>, expiry: set<(nat, nat)>)
    requires IsLive(t, i) && Indexed(t, index) && Expiring(t, expiry)
    ensures Indexed(t[i := None], index - {t[i].value.hash})
    ensures Expiring(t[i := None], expiry - {(t[i].value.expires, i)})
  {
    var u := t[i := None];
    forall j | 0 <= j < |u| && u[j].Some? ensures u[j].value.hash != t[i].value.hash {
      assert index[t[j].value.hash] == j;
    }
  }

  /** Filling an empty slot under an unused hash and entering it in both indices. */
  lemma FillIndices(t: Slab, u: Slab, i: nat, s: Slot, index: map<Hash, nat>, expiry: set<(nat, nat)>)
    requires Indexed(t, index) && Expiring(t, expiry) && s.hash !in index
    requires (i < |t| && t[i].None? && u == t[i := Some(s)]) || (i == |t| && u == t + [Some(s)])
    ensures Indexed(u, index[s.hash := i]) && Expiring(u, expiry + {(s.expires, i)})
  {
    assert forall j :: 0 <= j < |u| && j != i ==> j < |t| && u[j] == t[j];
  }

  // ---------------------------------------------------------------------------------------
  // Lists and indices together

  /** Lists and indices describe the same live slots. */
  ghost predicate Wired(c: Chains, index: map<Hash, nat>, expiry: set<(nat, nat)>) {
    && Chained(c)
    && Covered(c.slots, c.smallOrder, c.mainOrder)
    && Indexed(c.slots, index)
    && Expiring(c.slots, expiry)
  }

  lemma EmptyWired()
    ensures Wired(Chains([], List(NIL, NIL, 0), List(NIL, NIL, 0), [], []), map[], {})
  {
  }

  lemma LiveQueued(c: Chains, i: nat)
    requires Covered(c.slots, c.smallOrder, c.mainOrder) && IsLive(c.slots, i)
    ensures i in c.smallOrder || i in c.mainOrder
  {
  }

  lemma TakeNodes(c: Chains, i: nat)
    requires Chained(c) && (i in c.smallOrder || i in c.mainOrder) && Takeable(c, i)
    ensures var d := Take(c, i);
      && Nodes(d.slots, d.smallOrder) == Without(Nodes(c.slots, c.smallOrder), i)
      && Nodes(d.slots, d.mainOrder) == Without(Nodes(c.slots, c.mainOrder), i)
  {
    var d := Take(c, i);
    TakeChained(c, i);
    NodesDrop(c.slots, c.smallOrder, i);
    NodesDrop(c.slots, c.mainOrder, i);
    AgreeNodes(c.slots, d.slots, d.smallOrder);
    AgreeNodes(c.slots, d.slots, d.mainOrder);
  }

  /** Slot `i` is in no list; every other live slot is in one. */
  ghost predicate OnlyLoose(d: Chains, i: nat) {
    && i !in d.smallOrder && i !in d.mainOrder
    && forall j :: 0 <= j < |d.slots| && j != i && d.slots[j].Some? ==> j in d.smallOrder || j in d.mainOrder
  }

  lemma TakeCovered(c: Chains, i: nat)
    requires Chained(c) && Covered(c.slots, c.smallOrder, c.mainOrder) && IsLive(c.slots, i) && Takeable(c, i)
    ensures OnlyLoose(Take(c, i), i)
  {
    LiveQueued(c, i);
    TakeChained(c, i);
    var d := Take(c, i);
    forall j | 0 <= j < |d.slots| && j != i && d.slots[j].Some? ensures j in d.smallOrder || j in d.mainOrder {
      assert c.slots[j].Some?;
      if j in c.smallOrder {
        DropKeeps(c.smallOrder, i, j);
      } else {
        DropKeeps(c.mainOrder, i, j);
      }
    }
  }

  /** Unlinking slot `i`, emptying it and dropping it from both indices. */
  lemma RemoveWired(c: Chains, index: map<Hash, nat>, expiry: set<(nat, nat)>, i: nat)
    requires Wired(c, index, expiry) && IsLive(c.slots, i)
    ensures i in c.smallOrder || i in c.mainOrder
    ensures c.slots[i].value.hash in index && index[c.slots[i].value.hash] == i
    ensures Takeable(c, i) && |Take(c, i).slots| == |c.slots| && Take(c, i).slots[i] == c.slots[i]
    ensures var d := Take(c, i).(slots := Take(c, i).slots[i := None]);
      && Wired(d, index - {c.slots[i].value.hash}, expiry - {(c.slots[i].value.expires, i)})
      && Nodes(d.slots, d.smallOrder) == Without(Nodes(c.slots, c.smallOrder), i)
      && Nodes(d.slots, d.mainOrder) == Without(Nodes(c.slots, c.mainOrder), i)
  {
    LiveQueued(c, i);
    TakeChained(c, i);
    TakeNodes(c, i);
    TakeCovered(c, i);
    var d := Take(c, i);
    AgreeIndices(c.slots, d.slots, index, expiry);
    ClearWired(d, index, expiry, i);
  }

  /** Emptying the one live slot that no list holds. */
  lemma ClearWired(d: Chains, index: map<Hash, nat>, expiry: set<(nat, nat)>, i: nat)
    requires Chained(d) && IsLive(d.slots, i) && OnlyLoose(d, i)
    requires Indexed(d.slots, index) && Expiring(d.slots, expiry)
    ensures var e := d.(slots := d.slots[i := None]);
      && Wired(e, index - {d.slots[i].value.hash}, expiry - {(d.slots[i].value.expires, i)})
      && Nodes(e.slots, e.smallOrder) == Nodes(d.slots, d.smallOrder)
      && Nodes(e.slots, e.mainOrder) == Nodes(d.slots, d.mainOrder)
  {
    ElsewhereChained(d, d.slots[i := None], i);
    ClearIndices(d.slots, i, index, expiry);
  }

  /** Unlinking slot `i`, giving it another frequency and appending it to Main. */
  lemma RequeueWired(c: Chains, index: map<Hash, nat>, expiry: set<(nat, nat)>, i: nat, freq: nat)
    requires Wired(c, index, expiry) && IsLive(c.slots, i)
    ensures i in c.smallOrder || i in c.mainOrder
    ensures Takeable(c, i) && |Take(c, i).slots| == |c.slots| && Take(c, i).slots[i] == c.slots[i]
    ensures var d := Take(c, i).(slots := Take(c, i).slots[i := Some(c.slots[i].value.(freq := freq))]);
      && Chained(d) && i !in d.smallOrder && i !in d.mainOrder && IsLive(d.slots, i)
      && var e := Push(d, i, Queue.Main);
      && Wired(e, index, expiry) && |e.slots| == |c.slots|
      && Nodes(e.slots, e.smallOrder) == Without(Nodes(c.slots, c.smallOrder), i)
      && Nodes(e.slots, e.mainOrder) == Without(Nodes(c.slots, c.mainOrder), i) + [NodeOf(c.slots, i).(freq := freq)]
  {
    hide Chained, Covered, Indexed, Expiring, Nodes, OnlyLoose, Take, Push;
    LiveQueued(c, i);
    TakeChained(c, i);
    TakeNodes(c, i);
    TakeCovered(c, i);
    AgreeIndices(c.slots, Take(c, i).slots, index, expiry);
    RefreqWired(Take(c, i), index, expiry, i, freq);
  }

  /** Giving the one live slot that no list holds another frequency, and appending it to Main. */
  lemma RefreqWired(u: Chains, index: map<Hash, nat>, expiry: set<(nat, nat)>, i: nat, freq: nat)
    requires Chained(u) && IsLive(u.slots, i) && OnlyLoose(u, i)
    requires Indexed(u.slots, index) && Expiring(u.slots, expiry)
    ensures var d := u.(slots := u.slots[i := Some(u.slots[i].value.(freq := freq))]);
      && Chained(d) && i !in d.smallOrder && i !in d.mainOrder && IsLive(d.slots, i)
      && var e := Push(d, i, Queue.Main);
      && Wired(e, index, expiry) && |e.slots| == |u.slots|
      && Nodes(e.slots, e.smallOrder) == Nodes(u.slots, u.smallOrder)
      && Nodes(e.slots, e.mainOrder) == Nodes(u.slots, u.mainOrder) + [NodeOf(u.slots, i).(freq := freq)]
  {
    assert |u.slots| <= NIL;
    hide Chained, Indexed, Expiring, Nodes, Push, Wired;
    var d := u.(slots := u.slots[i := Some(u.slots[i].value.(freq := freq))]);
    RefreqIndices(u.slots, i, freq, index, expiry);
    ElsewhereChained(u, d.slots, i);
    AppendWired(d, index, expiry, i, Queue.Main);
  }

  lemma RefreqIndices(t: Slab, i: nat, freq: nat, index: map<Hash, nat>, expiry: set<(nat, nat)>)
    requires IsLive(t, i) && Indexed(t, index) && Expiring(t, expiry)
    ensures Indexed(t[i := Some(t[i].value.(freq := freq))], index)
    ensures Expiring(t[i := Some(t[i].value.(freq := freq))], expiry)
  {
  }

  /** Appending the one live slot that no list holds. */
  lemma AppendWired(d: Chains, index: map<Hash, nat>, expiry: set<(nat, nat)>, i: nat, queue: Queue)
    requires Chained(d) && IsLive(d.slots, i) && OnlyLoose(d, i)
    requires Indexed(d.slots, index) && Expiring(d.slots, expiry)
    ensures |Push(d, i, queue).slots| == |d.slots|
    ensures var e := Push(d, i, queue);
      && Wired(e, index, expiry)
      && Nodes(e.slots, e.smallOrder) == Nodes(d.slots, d.smallOrder) + (if queue == Queue.Small then [NodeOf(d.slots, i)] else [])
      && Nodes(e.slots, e.mainOrder) == Nodes(d.slots, d.mainOrder) + (if queue == Queue.Main then [NodeOf(d.slots, i)] else [])
  {
    PushChained(d, i, queue);
    var e := Push(d, i, queue);
    AgreeIndices(d.slots, e.slots, index, expiry);
    AgreeCovered(d, e, i);
    PushNodes(d, i, queue);
  }

  lemma PushNodes(d: Chains, i: nat, queue: Queue)
    requires IsLive(d.slots, i) && Agree(d.slots, Push(d, i, queue).slots)
    ensures var e := Push(d, i, queue);
      && Nodes(e.slots, e.smallOrder) == Nodes(d.slots, d.smallOrder) + (if queue == Queue.Small then [NodeOf(d.slots, i)] else [])
      && Nodes(e.slots, e.mainOrder) == Nodes(d.slots, d.mainOrder) + (if queue == Queue.Main then [NodeOf(d.slots, i)] else [])
  {
    var e := Push(d, i, queue);
    AgreeNodes(d.slots, e.slots, e.smallOrder);
    AgreeNodes(d.slots, e.slots, e.mainOrder);
    if queue == Queue.Small {
      NodesPush(d.slots, d.smallOrder, i);
    } else {
      NodesPush(d.slots, d.mainOrder, i);
    }
  }

  lemma AgreeCovered(d: Chains, e: Chains, i: nat)
    requires Agree(d.slots, e.slots) && OnlyLoose(d, i)
    requires (e.smallOrder == d.smallOrder + [i] && e.mainOrder == d.mainOrder) || (e.smallOrder == d.smallOrder && e.mainOrder == d.mainOrder + [i])
    ensures Covered(e.slots, e.smallOrder, e.mainOrder)
  {
    forall j | 0 <= j < |e.slots| && e.slots[j].Some? ensures j in e.smallOrder || j in e.mainOrder {
      assert d.slots[j].Some?;
    }
  }

  /** Filling an empty slot, indexing it and appending it. */
  lemma FillWired(c: Chains, index: map<Hash, nat>, expiry: set<(nat, nat)>, i: nat, s: Slot, u: Slab, queue: Queue)
    requires Wired(c, index, expiry) && s.hash !in index && |u| <= NIL
    requires (i < |c.slots| && c.slots[i].None? && u == c.slots[i := Some(s)]) || (i == |c.slots| && u == c.slots + [Some(s)])
    ensures var d := c.(slots := u);
      && Chained(d) && IsLive(u, i) && i !in d.smallOrder && i !in d.mainOrder
      && var e := Push(d, i, queue);
      && Wired(e, index[s.hash := i], expiry + {(s.expires, i)}) && |e.slots| == |u|
      && Nodes(e.slots, e.smallOrder) == Nodes(c.slots, c.smallOrder) + (if queue == Queue.Small then [NodeIn(i, s)] else [])
      && Nodes(e.slots, e.mainOrder) == Nodes(c.slots, c.mainOrder) + (if queue == Queue.Main then [NodeIn(i, s)] else [])
  {
    NotOccupied(c.slots, Queue.Small, c.smallOrder, i);
    NotOccupied(c.slots, Queue.Main, c.mainOrder, i);
    FillIndices(c.slots, u, i, s, index, expiry);
    FillLoose(c, i, s, u);
    ElsewhereChained(c, u, i);
    AppendWired(c.(slots := u), index[s.hash := i], expiry + {(s.expires, i)}, i, queue);
  }

  lemma FillLoose(c: Chains, i: nat, s: Slot, u: Slab)
    requires Covered(c.slots, c.smallOrder, c.mainOrder) && i !in c.smallOrder && i !in c.mainOrder
    requires (i < |c.slots| && u == c.slots[i := Some(s)]) || (i == |c.slots| && u == c.slots + [Some(s)])
    ensures OnlyLoose(c.(slots := u), i) && IsLive(u, i)
  {
    forall j | 0 <= j < |u| && j != i && u[j].Some? ensures j in c.smallOrder || j in c.mainOrder {
      assert c.slots[j] == u[j];
    }
  }

  lemma NotOccupied(t: Slab, queue: Queue, order: seq<nat>, i: nat)
    requires Occupied(t, queue, order) && !IsLive(t, i)
    ensures i !in order
  {
    assert forall k :: 0 <= k < |order| ==> InQueue(t, order[k], queue);
  }
}
