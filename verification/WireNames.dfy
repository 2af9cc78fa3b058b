/**
 Names on the wire: the decoder's walk over labels and compression pointers, when that walk ends,
 and the round trip with the uncompressed encoder.
 */
module WireNames {
  import opened Base
  import opened Names

  datatype Error =
    | Truncated | BadNamePointer | LabelTooLong | NameTooLong | RDataLengthMismatch
    | InvalidClass | MessageTooLong | CountMismatch | InvalidName

  /** The result of decoding. `Diverges` says that the source's loop would not end. */
  datatype Decoded<+T> = Ok(value: T) | Err(error: Error) | Diverges {
    predicate IsFailure() {
      !Ok?
    }

    function PropagateFailure<U>(): Decoded<U>
      requires !Ok?
    {
      if Err? then Err(error) else Diverges
    }

    function Extract(): T
      requires Ok?
    {
      value
    }
  }

  /** One turn of the decoder's loop at offset `cur`. */
  datatype Move = Stop | Fail(error: Error) | Jump(to: nat) | Take(label_: Label)

  function Look(buf: seq<byte>, cur: nat): Move {
    if cur >= |buf| then Fail(Truncated)
    else
      var len: int := buf[cur];
      if len >= 0xC0 then
        if cur + 1 >= |buf| then Fail(Truncated)
        else
          var pointer := (len - 0xC0) * 256 + buf[cur + 1];
          if pointer >= cur then Fail(BadNamePointer) else Jump(pointer)
      else if len >= 0x40 then Fail(BadNamePointer)
      else if len == 0 then Stop
      else if cur + 1 + len > |buf| then Fail(Truncated)
      else Take(buf[cur + 1..cur + 1 + len])
  }

  /** Where the loop goes next, if it goes on. */
  function Onward(buf: seq<byte>, cur: nat): Option<nat> {
    match Look(buf, cur)
    case Jump(to) => Some(to)
    case Take(l) => Some(cur + 1 + |l|)
    case _ => None
  }

  datatype Walk = Done(labels: Name, end: nat) | Failed(error: Error) | OutOfFuel

  /** At most `fuel` turns from `cur`; `end` is just after the first pointer, or after the root byte. */
  function Follow(buf: seq<byte>, cur: nat, fuel: nat): Walk
    decreases fuel
  {
    if fuel == 0 then OutOfFuel
    else
      match Look(buf, cur)
      case Stop => Done([], cur + 1)
      case Fail(e) => Failed(e)
      case Jump(to) =>
        var rest := Follow(buf, to, fuel - 1);
        if rest.Done? then Done(rest.labels, cur + 2) else rest
      case Take(l) =>
        var rest := Follow(buf, cur + 1 + |l|, fuel - 1);
        if rest.Done? then Done([l] + rest.labels, rest.end) else rest
  }

  /** As many turns as the walk can take without coming back to an offset. */
  function DecodeName(buf: seq<byte>, pos: nat): Decoded<(Name, nat)> {
    match Follow(buf, pos, |buf| + 1)
    case OutOfFuel => Diverges
    case Failed(e) => Err(e)
    case Done(labels, end) => if WireLength(labels) > MAX_NAME then Err(NameTooLong) else Ok((labels, end))
  }

  function EncodeName(n: Name): Decoded<seq<byte>> {
    if WireLength(n) > MAX_NAME then Err(NameTooLong)
    else if !Fits(n) then Err(LabelTooLong)
    else Ok(Wire(n))
  }

  // ---------------------------------------------------------------------------------------
  // When the walk ends

  /** The walk from `cur` takes exactly `t` turns. */
  predicate Takes(buf: seq<byte>, cur: nat, t: nat)
    decreases t
  {
    t > 0 && if Onward(buf, cur).None? then t == 1 else t > 1 && Takes(buf, Onward(buf, cur).value, t - 1)
  }

  ghost predicate Ends(buf: seq<byte>, cur: nat) {
    exists t: nat :: Takes(buf, cur, t)
  }

  ghost predicate EndsWithin(buf: seq<byte>, cur: nat, fuel: nat) {
    exists t: nat :: t <= fuel && Takes(buf, cur, t)
  }

  ghost predicate EndsAfter(buf: seq<byte>, cur: nat, t: nat) {
    exists u: nat :: u > t && Takes(buf, cur, u)
  }

  /** The walk never comes back to an offset it has seen: a check on the pointers alone. */
  predicate NeverRevisits(buf: seq<byte>, cur: nat, seen: set<nat>)
    requires forall s :: s in seen ==> s < |buf|
    decreases |buf| + 1 - |seen|
  {
    SeenBounded(seen, |buf|);
    cur !in seen &&
    (Onward(buf, cur).None? ||
     (assert cur < |buf|; NeverRevisits(buf, Onward(buf, cur).value, seen + {cur})))
  }

  lemma SeenBounded(seen: set<nat>, n: nat)
    requires forall s :: s in seen ==> s < n
    ensures |seen| <= n
    decreases n
  {
    if n == 0 {
      assert seen == {};
    } else {
      SeenBounded(seen - {n - 1}, n - 1);
      assert seen <= (seen - {n - 1}) + {n - 1};
    }
  }

  lemma {:induction false} TakesOnce(buf: seq<byte>, cur: nat, t: nat, u: nat)
    requires Takes(buf, cur, t) && Takes(buf, cur, u)
    ensures t == u
    decreases t
  {
    if Onward(buf, cur).Some? {
      TakesOnce(buf, Onward(buf, cur).value, t - 1, u - 1);
    }
  }

  /** A walk that never comes back ends within the offsets it has not seen. */
  lemma {:induction false} FreshWalkEnds(buf: seq<byte>, cur: nat, seen: set<nat>) returns (t: nat)
    requires (forall s :: s in seen ==> s < |buf|) && NeverRevisits(buf, cur, seen)
    ensures Takes(buf, cur, t) && t + |seen| <= |buf| + 1
    decreases |buf| + 1 - |seen|
  {
    SeenBounded(seen, |buf|);
    if Onward(buf, cur).None? {
      t := 1;
    } else {
      SeenBounded(seen + {cur}, |buf|);
      t := FreshWalkEnds(buf, Onward(buf, cur).value, seen + {cur});
      t := t + 1;
    }
  }

  /** A walk that ends comes by no offset from which it has longer to go. */
  lemma {:induction false} EndingWalkIsFresh(buf: seq<byte>, cur: nat, seen: set<nat>, t: nat)
    requires forall s :: s in seen ==> s < |buf|
    requires Takes(buf, cur, t) && forall s :: s in seen ==> EndsAfter(buf, s, t)
    ensures NeverRevisits(buf, cur, seen)
    decreases t
  {
    if cur in seen {
      var u: nat :| u > t && Takes(buf, cur, u);
      TakesOnce(buf, cur, t, u);
    }
    if Onward(buf, cur).Some? {
      forall s | s in seen + {cur} ensures EndsAfter(buf, s, t - 1) {
        if s in seen {
          var u: nat :| u > t && Takes(buf, s, u);
        }
      }
      EndingWalkIsFresh(buf, Onward(buf, cur).value, seen + {cur}, t - 1);
    }
  }

  lemma {:induction false} FollowTakes(buf: seq<byte>, cur: nat, fuel: nat)
    ensures !Follow(buf, cur, fuel).OutOfFuel? <==> EndsWithin(buf, cur, fuel)
    decreases fuel
  {
    if fuel > 0 {
      if Onward(buf, cur).None? {
        assert Takes(buf, cur, 1);
      } else {
        FollowTakes(buf, Onward(buf, cur).value, fuel - 1);
        OneTurn(buf, cur, fuel);
      }
    }
  }

  lemma OneTurn(buf: seq<byte>, cur: nat, fuel: nat)
    requires fuel > 0 && Onward(buf, cur).Some?
    ensures EndsWithin(buf, cur, fuel) <==> EndsWithin(buf, Onward(buf, cur).value, fuel - 1)
  {
    var next := Onward(buf, cur).value;
    if EndsWithin(buf, next, fuel - 1) {
      var t: nat :| t <= fuel - 1 && Takes(buf, next, t);
      assert Takes(buf, cur, t + 1);
    }
    if EndsWithin(buf, cur, fuel) {
      var t: nat :| t <= fuel && Takes(buf, cur, t);
      assert Takes(buf, next, t - 1);
    }
  }

  /** The decoder's loop ends exactly when its walk never comes back to an offset, then within `|buf| + 1` turns. */
  lemma EndsIff(buf: seq<byte>, pos: nat)
    ensures Ends(buf, pos) <==> NeverRevisits(buf, pos, {})
    ensures Ends(buf, pos) <==> !DecodeName(buf, pos).Diverges?
    ensures DecodeName(buf, pos).Diverges? <==> forall fuel: nat :: Follow(buf, pos, fuel).OutOfFuel?
  {
    FollowTakes(buf, pos, |buf| + 1);
    if Ends(buf, pos) {
      var t: nat :| Takes(buf, pos, t);
      EndingWalkIsFresh(buf, pos, {}, t);
      FollowTakes(buf, pos, t);
    }
    if NeverRevisits(buf, pos, {}) {
      var t := FreshWalkEnds(buf, pos, {});
    }
    forall fuel: nat ensures !Follow(buf, pos, fuel).OutOfFuel? ==> Ends(buf, pos) {
      FollowTakes(buf, pos, fuel);
    }
  }

  /** Every pointer followed targets an offset below the start of the run of labels that led to it. */
  predicate RunsDescend(buf: seq<byte>, cur: nat, start: nat)
    decreases start, |buf| - cur
  {
    match Look(buf, cur)
    case Jump(to) => to < start && RunsDescend(buf, to, to)
    case Take(l) => RunsDescend(buf, cur + 1 + |l|, start)
    case _ => true
  }

  /** Strictly descending runs are enough for the decoder to end. */
  lemma {:induction false} DescendingRunsEnd(buf: seq<byte>, cur: nat, start: nat)
    requires RunsDescend(buf, cur, start)
    ensures Ends(buf, cur)
    decreases start, |buf| - cur
  {
    match Look(buf, cur)
    case Jump(to) =>
      DescendingRunsEnd(buf, to, to);
      var t: nat :| Takes(buf, to, t);
      assert Takes(buf, cur, t + 1);
    case Take(l) =>
      DescendingRunsEnd(buf, cur + 1 + |l|, start);
      var t: nat :| Takes(buf, cur + 1 + |l|, t);
      assert Takes(buf, cur, t + 1);
    case _ =>
      assert Takes(buf, cur, 1);
  }

  /** Walking labels only from `start` comes by `at`. */
  predicate InRun(buf: seq<byte>, start: nat, at: nat)
    decreases |buf| - start
  {
    start == at || (Look(buf, start).Take? && InRun(buf, start + 1 + |Look(buf, start).label_|, at))
  }

  /** A walk has no longer to go from a later offset of its run. */
  lemma {:induction false} LaterInRun(buf: seq<byte>, start: nat, at: nat, t: nat) returns (u: nat)
    requires InRun(buf, start, at) && Takes(buf, start, t)
    ensures Takes(buf, at, u) && u <= t
    decreases t
  {
    if start == at {
      u := t;
    } else {
      u := LaterInRun(buf, start + 1 + |Look(buf, start).label_|, at, t - 1);
    }
  }

  /** A run of labels that ends in a pointer to one of its own offsets makes the decoder loop. */
  lemma PointerIntoRunDiverges(buf: seq<byte>, start: nat, target: nat, at: nat)
    requires InRun(buf, start, target) && InRun(buf, target, at) && Look(buf, at) == Jump(target)
    ensures DecodeName(buf, start).Diverges?
  {
    EndsIff(buf, start);
    if Ends(buf, start) {
      var t: nat :| Takes(buf, start, t);
      var u := LaterInRun(buf, start, target, t);
      var w := LaterInRun(buf, target, at, u);
      assert Takes(buf, target, w - 1);
      TakesOnce(buf, target, u, w - 1);
    }
  }

  /** The source's own check is weaker: this pointer targets an earlier offset, and the loop does not end. */
  lemma PointerIntoOwnRun()
    ensures DecodeName([1, 97, 0xC0, 0], 0).Diverges?
  {
    var buf: seq<byte> := [1, 97, 0xC0, 0];
    assert Look(buf, 0) == Take([97]) && Look(buf, 2) == Jump(0);
    assert InRun(buf, 2, 2);
    PointerIntoRunDiverges(buf, 0, 0, 2);
  }

  // ---------------------------------------------------------------------------------------
  // Round trip

  predicate At(buf: seq<byte>, pos: nat, part: seq<byte>) {
    pos + |part| <= |buf| && buf[pos..pos + |part|] == part
  }

  lemma AtSplit(buf: seq<byte>, pos: nat, a: seq<byte>, b: seq<byte>)
    ensures At(buf, pos, a + b) <==> At(buf, pos, a) && At(buf, pos + |a|, b)
  {
    if pos + |a| + |b| <= |buf| {
      var whole := buf[pos..pos + |a| + |b|];
      assert whole[..|a|] == buf[pos..pos + |a|] && whole[|a|..] == buf[pos + |a|..pos + |a| + |b|];
      assert (a + b)[..|a|] == a && (a + b)[|a|..] == b;
      assert whole == whole[..|a|] + whole[|a|..];
    }
  }

  lemma LookAtLabel(buf: seq<byte>, pos: nat, n: Name)
    requires n != [] && Fits(n) && n[0] != [] && At(buf, pos, Wire(n))
    ensures Fits(n[1..]) && Look(buf, pos) == Take(n[0]) && At(buf, pos + 1 + |n[0]|, Wire(n[1..]))
  {
    hide At, Look, Wire, Body;
    var l := n[0];
    WireParts(n);
    AtSplit(buf, pos, [|l|] + l, Wire(n[1..]));
    LengthAt(buf, pos, l);
    LookCases(buf, pos);
  }

  lemma WireParts(n: Name)
    requires n != [] && Fits(n)
    ensures Fits(n[1..]) && Wire(n) == ([|n[0]|] + n[0]) + Wire(n[1..])
  {
    WireFirst(n);
    assert [|n[0]|] + n[0] + Body(n[1..]) + [0] == ([|n[0]|] + n[0]) + (Body(n[1..]) + [0]);
  }

  lemma LengthAt(buf: seq<byte>, pos: nat, l: Label)
    requires |l| <= 255 && At(buf, pos, [|l|] + l)
    ensures pos + 1 + |l| <= |buf| && buf[pos] == |l| && buf[pos + 1..pos + 1 + |l|] == l
  {
    AtSplit(buf, pos, [|l|], l);
    assert buf[pos] == buf[pos..pos + 1][0];
  }

  lemma {:induction false} FollowWire(buf: seq<byte>, pos: nat, n: Name, fuel: nat)
    requires Fits(n) && (forall i :: 0 <= i < |n| ==> n[i] != []) && At(buf, pos, Wire(n)) && fuel > |n|
    ensures Follow(buf, pos, fuel) == Done(n, pos + |Wire(n)|)
    decreases |n|
  {
    hide Wire, Look, Fits;
    if n == [] {
      RootByte(buf, pos);
    } else {
      LookAtLabel(buf, pos, n);
      FollowWire(buf, pos + 1 + |n[0]|, n[1..], fuel - 1);
      assert [n[0]] + n[1..] == n;
    }
  }

  lemma RootByte(buf: seq<byte>, pos: nat)
    requires Fits([]) && At(buf, pos, Wire([]))
    ensures Look(buf, pos) == Stop
  {
    assert buf[pos] == buf[pos..pos + 1][0];
  }

  lemma {:induction false} LabelsShorter(n: Name)
    ensures |n| < WireLength(n)
  {
    if n != [] {
      LabelsShorter(n[1..]);
    }
  }

  /** Decoding an encoded name gives the name back and stops right after it. */
  lemma NameRoundTrip(buf: seq<byte>, pos: nat, n: Name)
    requires Wellformed(n) && At(buf, pos, Wire(n))
    ensures DecodeName(buf, pos) == Ok((n, pos + |Wire(n)|))
  {
    LabelsShorter(n);
    FollowWire(buf, pos, n, |buf| + 1);
  }

  lemma {:induction false} FollowedLabels(buf: seq<byte>, cur: nat, fuel: nat)
    requires Follow(buf, cur, fuel).Done?
    ensures forall i :: 0 <= i < |Follow(buf, cur, fuel).labels| ==> 1 <= |Follow(buf, cur, fuel).labels[i]| <= MAX_LABEL
    ensures cur < Follow(buf, cur, fuel).end <= |buf|
    decreases fuel
  {
    match Look(buf, cur)
    case Jump(to) => FollowedLabels(buf, to, fuel - 1);
    case Take(l) => FollowedLabels(buf, cur + 1 + |l|, fuel - 1);
    case _ =>
  }

  /** A decoded name is well formed, and the position moves forward inside the buffer. */
  lemma DecodedNameWellformed(buf: seq<byte>, pos: nat)
    requires DecodeName(buf, pos).Ok?
    ensures Wellformed(DecodeName(buf, pos).value.0)
    ensures pos < DecodeName(buf, pos).value.1 <= |buf|
  {
    FollowedLabels(buf, pos, |buf| + 1);
  }

  /** Where decoding leaves the position: just after the first pointer, or after the root byte if there was none. */
  lemma {:induction false} EndPosition(buf: seq<byte>, cur: nat, fuel: nat)
    requires Follow(buf, cur, fuel).Done?
    ensures FirstStop(buf, cur) == Follow(buf, cur, fuel).end
    decreases fuel
  {
    if Look(buf, cur).Take? {
      EndPosition(buf, cur + 1 + |Look(buf, cur).label_|, fuel - 1);
    }
  }

  /** Skips labels up to the first byte that is not one, and that byte or pointer with them. */
  function FirstStop(buf: seq<byte>, cur: nat): nat
    decreases |buf| - cur
  {
    match Look(buf, cur)
    case Take(l) => FirstStop(buf, cur + 1 + |l|)
    case Jump(_) => cur + 2
    case _ => cur + 1
  }

  // ---------------------------------------------------------------------------------------
  // The loops of the source

  /** A whole walk, from what was gathered so far and the walk still to come. */
  function Resume(labels: Name, jumped: Option<nat>, rest: Walk): Walk {
    if rest.Done? then Done(labels + rest.labels, if jumped.Some? then jumped.value else rest.end) else rest
  }

  /** What one turn of the loop does to the walk still to come. */
  lemma Turn(buf: seq<byte>, cur: nat, fuel: nat, labels: Name, jumped: Option<nat>)
    requires fuel > 0
    ensures var whole, next := Resume(labels, jumped, Follow(buf, cur, fuel)), fuel - 1;
      match Look(buf, cur)
      case Stop => whole == Done(labels, if jumped.Some? then jumped.value else cur + 1)
      case Fail(e) => whole == Failed(e)
      case Jump(to) => whole == Resume(labels, if jumped.Some? then jumped else Some(cur + 2), Follow(buf, to, next))
      case Take(l) => whole == Resume(labels + [l], jumped, Follow(buf, cur + 1 + |l|, next))
  {
    assert labels + [] == labels;
    if Look(buf, cur).Take? {
      var l := Look(buf, cur).label_;
      var rest := Follow(buf, cur + 1 + |l|, fuel - 1);
      if rest.Done? {
        assert labels + ([l] + rest.labels) == (labels + [l]) + rest.labels;
      }
    }
  }

  /** What the byte at `cur` says to do. */
  lemma LookCases(buf: seq<byte>, cur: nat)
    ensures cur >= |buf| ==> Look(buf, cur) == Fail(Truncated)
    ensures cur < |buf| && 0xC0 <= buf[cur] && cur + 1 >= |buf| ==> Look(buf, cur) == Fail(Truncated)
    ensures cur + 1 < |buf| && 0xC0 <= buf[cur] ==>
      var pointer := (buf[cur] as int - 0xC0) * 256 + buf[cur + 1];
      Look(buf, cur) == if pointer >= cur then Fail(BadNamePointer) else Jump(pointer)
    ensures cur < |buf| && 0x40 <= buf[cur] < 0xC0 ==> Look(buf, cur) == Fail(BadNamePointer)
    ensures cur < |buf| && buf[cur] == 0 ==> Look(buf, cur) == Stop
    ensures cur < |buf| && 0 < buf[cur] < 0x40 && cur + 1 + buf[cur] > |buf| ==> Look(buf, cur) == Fail(Truncated)
    ensures cur < |buf| && 0 < buf[cur] < 0x40 && cur + 1 + buf[cur] <= |buf|
        ==> Look(buf, cur) == Take(buf[cur + 1..cur + 1 + buf[cur]])
  {
  }

  /** The decoding loop, on input where it ends. */
  method ReadName(buf: seq<byte>, pos: nat) returns (r: Decoded<(Name, nat)>)
    requires NeverRevisits(buf, pos, {})
    ensures r == DecodeName(buf, pos)
  {
    hide Follow, NeverRevisits, Resume, WireLength, Look;
    EndsIff(buf, pos);
    ghost var t: nat :| Takes(buf, pos, t);
    ghost var fuel: nat := |buf| + 1;
    EnoughFuel(buf, pos, t);
    ghost var whole := Follow(buf, pos, fuel);
    var labels: Name := [];
    var cur: nat := pos;
    var jumped: Option<nat> := None;
    NothingYet(whole);
    while true
      invariant Takes(buf, cur, t) && t <= fuel
      invariant whole == Resume(labels, jumped, Follow(buf, cur, fuel))
      decreases t
    {
      Turn(buf, cur, fuel, labels, jumped);
      LookCases(buf, cur);
      if cur >= |buf| {
        return Err(Truncated);
      }
      var len: int := buf[cur];
      if len >= 0xC0 {
        if cur + 1 >= |buf| {
          return Err(Truncated);
        }
        var pointer := (len - 0xC0) * 256 + buf[cur + 1];
        if jumped.None? {
          jumped := Some(cur + 2);
        }
        if pointer >= cur {
          return Err(BadNamePointer);
        }
        cur := pointer;
      } else if len >= 0x40 {
        return Err(BadNamePointer);
      } else if len == 0 {
        cur := cur + 1;
        break;
      } else {
        cur := cur + 1;
        if cur + len > |buf| {
          return Err(Truncated);
        }
        labels := labels + [buf[cur..cur + len]];
        cur := cur + len;
      }
      t, fuel := t - 1, fuel - 1;
    }
    if WireLength(labels) > MAX_NAME {
      return Err(NameTooLong);
    }
    return Ok((labels, if jumped.Some? then jumped.value else cur));
  }

  lemma NothingYet(rest: Walk)
    ensures Resume([], None, rest) == rest
  {
    if rest.Done? {
      assert [] + rest.labels == rest.labels;
    }
  }

  lemma EnoughFuel(buf: seq<byte>, pos: nat, t: nat)
    requires Takes(buf, pos, t)
    ensures t <= |buf| + 1
  {
    EndsIff(buf, pos);
    var u := FreshWalkEnds(buf, pos, {});
    TakesOnce(buf, pos, t, u);
  }
}
