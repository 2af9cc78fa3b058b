/** Snapshots of the Fake IP pool by themselves: what one holds, which ones can be restored, and what comes back. */
module FakeIpSnapshots {
  import opened Base
  import opened Names
  import opened FakeIp
  import opened FakeIpPool

  /** A snapshot of live mappings holds each of them, least recently used first, with its remaining lifetime. */
  lemma {:induction false} SavedInOrder(es: seq<Entry>, kind: Kind, now: nat)
    requires forall e :: e in es ==> now < e.expires
    ensures var saved := SaveEntries(es, kind, now);
      && |saved| == |es|
      && forall i :: 0 <= i < |es| ==> saved[i] == Saved(es[i].name, kind, es[i].address, es[i].expires - now)
  {
    if es != [] {
      assert es[0] in es;
      SavedInOrder(es[1..], kind, now);
    }
  }

  /** The live mappings of a family; none without the family. */
  function LiveOf(f: Option<Family>, now: nat): seq<Entry> {
    if f.Some? then Live(f.value.entries, now) else []
  }

  /**
   A snapshot holds the instant, the ranges, the lifetime and every live mapping: the IPv4 ones and then the IPv6 ones,
   each least recently used first, with their remaining lifetimes.
   */
  lemma SnapshotHolds(p: Pool, now: nat)
    requires Kinds(p)
    ensures var s, v4, v6 := Save(p, now), LiveOf(p.v4, now), LiveOf(p.v6, now);
      && s.capturedAt == now && s.ttl == p.ttl && |s.mappings| == |v4| + |v6|
      && s.range4 == (if p.v4.Some? then Some((p.v4.value.start, p.v4.value.end)) else None)
      && s.range6 == (if p.v6.Some? then Some((p.v6.value.start, p.v6.value.end)) else None)
      && (forall i :: 0 <= i < |v4| ==>
            s.mappings[i] == Saved(v4[i].name, V4, v4[i].address, v4[i].expires - now))
      && (forall i :: 0 <= i < |v6| ==>
            s.mappings[|v4| + i] == Saved(v6[i].name, V6, v6[i].address, v6[i].expires - now))
  {
    hide Live, SaveEntries;
    SavedInOrder(LiveOf(p.v4, now), V4, now);
    SavedInOrder(LiveOf(p.v6, now), V6, now);
    NothingSaved(now);
  }

  lemma NothingSaved(now: nat)
    ensures SaveEntries([], V4, now) == [] == SaveEntries([], V6, now)
  {
  }

  // ---------------------------------------------------------------------------------------
  // Which snapshots can be restored

  /** The mapping still has time left after the snapshot's age. */
  predicate Remains(m: Saved, age: nat) {
    age < m.remaining
  }

  /** A saved mapping by itself: no longer than the pool's lifetime and, if it remains, in a range the pool has. */
  predicate Admissible(p: Pool, m: Saved, age: nat, now: nat) {
    && m.remaining <= p.ttl
    && (Remains(m, age) ==>
          && now + (m.remaining - age) <= p.horizon
          && p.Of(m.kind).Some? && InRange(p.Of(m.kind).value, m.address))
  }

  predicate Clash(a: Saved, b: Saved) {
    a.kind == b.kind && (SameName(a.name, b.name) || a.address == b.address)
  }

  predicate NoClash(ms: seq<Saved>, age: nat) {
    forall i, j :: 0 <= i < j < |ms| && Remains(ms[i], age) && Remains(ms[j], age) ==> !Clash(ms[i], ms[j])
  }

  /** The pool has no mapping of this name or address yet. */
  predicate New(p: Pool, m: Saved) {
    p.Of(m.kind).Some? ==>
      forall e :: e in p.Of(m.kind).value.entries ==> !SameName(e.name, m.name) && e.address != m.address
  }

  /** Every mapping is admissible, and no two that remain share a name or an address, nor with the pool. */
  ghost predicate Restorable(p: Pool, ms: seq<Saved>, age: nat, now: nat) {
    && (forall m :: m in ms ==> Admissible(p, m, age, now))
    && (forall m :: m in ms && Remains(m, age) ==> New(p, m))
    && NoClash(ms, age)
  }

  lemma RestoreOneIff(p: Pool, m: Saved, age: nat, now: nat)
    ensures RestoreOne(p, m, age, now).Some? <==> Admissible(p, m, age, now) && (Remains(m, age) ==> New(p, m))
  {
    hide SameName;
  }

  /** The mapping as it comes back. */
  function Returned(m: Saved, age: nat, now: nat): Entry
    requires Remains(m, age)
  {
    Entry(m.name, m.address, now + (m.remaining - age))
  }

  /** What a saved mapping adds to a family. */
  function Added(m: Saved, kind: Kind, age: nat, now: nat): seq<Entry> {
    if Remains(m, age) && m.kind == kind then [Returned(m, age, now)] else []
  }

  predicate SameRanges(p: Pool, q: Pool) {
    && q.ttl == p.ttl && q.horizon == p.horizon
    && (p.v4.Some? <==> q.v4.Some?) && (p.v6.Some? <==> q.v6.Some?)
    && (p.v4.Some? ==> q.v4.value == p.v4.value.(entries := q.v4.value.entries))
    && (p.v6.Some? ==> q.v6.value == p.v6.value.(entries := q.v6.value.entries))
  }

  function Mappings(p: Pool, kind: Kind): seq<Entry> {
    if p.Of(kind).Some? then p.Of(kind).value.entries else []
  }

  predicate Kinds(p: Pool) {
    (p.v4.Some? ==> p.v4.value.kind == V4) && (p.v6.Some? ==> p.v6.value.kind == V6)
  }

  lemma RestoredOne(p: Pool, m: Saved, age: nat, now: nat)
    requires Kinds(p) && RestoreOne(p, m, age, now).Some?
    ensures var q := RestoreOne(p, m, age, now).value;
      && Kinds(q) && SameRanges(p, q)
      && forall kind :: Mappings(q, kind) == Mappings(p, kind) + Added(m, kind, age, now)
  {
    hide Find, Holder, InRange;
  }

  lemma RestorableRest(p: Pool, q: Pool, ms: seq<Saved>, age: nat, now: nat)
    requires ms != [] && Kinds(p) && RestoreOne(p, ms[0], age, now) == Some(q)
    ensures Restorable(q, ms[1..], age, now) <==> Restorable(p, ms, age, now)
  {
    hide SameName, RestoreOne, InRange;
    RestoreOneIff(p, ms[0], age, now);
    RestoredOne(p, ms[0], age, now);
    assert forall m :: m in ms <==> m == ms[0] || m in ms[1..];
    forall m | m in ms[1..] ensures Admissible(q, m, age, now) <==> Admissible(p, m, age, now) {
      SameAdmissible(p, q, m, age, now);
    }
    forall m | m in ms[1..] && Remains(m, age)
      ensures New(q, m) <==> New(p, m) && (Remains(ms[0], age) ==> !Clash(ms[0], m))
    {
      NewAfter(p, q, ms[0], m, age, now);
    }
    hide Admissible, New, Clash, Remains;
    ClashRest(ms, age);
  }

  lemma SameAdmissible(p: Pool, q: Pool, m: Saved, age: nat, now: nat)
    requires SameRanges(p, q)
    ensures Admissible(q, m, age, now) <==> Admissible(p, m, age, now)
  {
  }

  lemma NewAfter(p: Pool, q: Pool, first: Saved, m: Saved, age: nat, now: nat)
    requires Kinds(p) && RestoreOne(p, first, age, now) == Some(q)
    ensures New(q, m) <==> New(p, m) && (p.Of(m.kind).Some? && Remains(first, age) ==> !Clash(first, m))
  {
    hide SameName, RestoreOne;
    RestoredOne(p, first, age, now);
    var before, after := Mappings(p, m.kind), Mappings(q, m.kind);
    if Remains(first, age) && first.kind == m.kind {
      assert after == before + [Returned(first, age, now)];
      assert forall e :: e in after <==> e in before || e == Returned(first, age, now);
    } else {
      assert after == before;
    }
  }

  lemma ClashRest(ms: seq<Saved>, age: nat)
    requires ms != []
    ensures NoClash(ms, age) <==> NoClash(ms[1..], age) && ClashesNone(ms[0], ms[1..], age)
  {
    hide Clash, Remains;
    if NoClash(ms, age) {
      forall i, j | 0 <= i < j < |ms| - 1 && Remains(ms[1..][i], age) && Remains(ms[1..][j], age)
        ensures !Clash(ms[1..][i], ms[1..][j])
      {
        assert ms[1..][i] == ms[i + 1] && ms[1..][j] == ms[j + 1];
      }
      forall i | 0 <= i < |ms| - 1 && Remains(ms[1..][i], age) && Remains(ms[0], age) ensures !Clash(ms[0], ms[1..][i]) {
        assert ms[1..][i] == ms[i + 1];
      }
    }
    if NoClash(ms[1..], age) && ClashesNone(ms[0], ms[1..], age) {
      forall i, j | 0 <= i < j < |ms| && Remains(ms[i], age) && Remains(ms[j], age) ensures !Clash(ms[i], ms[j]) {
        assert ms[j] == ms[1..][j - 1] && (i > 0 ==> ms[i] == ms[1..][i - 1]);
      }
    }
  }

  predicate ClashesNone(first: Saved, ms: seq<Saved>, age: nat) {
    forall m :: m in ms && Remains(m, age) && Remains(first, age) ==> !Clash(first, m)
  }

  /** A snapshot's mappings can be restored exactly when they are admissible and do not clash. */
  lemma {:induction false} RestoresIff(p: Pool, ms: seq<Saved>, age: nat, now: nat)
    requires Kinds(p)
    ensures RestoreAll(p, ms, age, now).Some? <==> Restorable(p, ms, age, now)
    decreases |ms|
  {
    hide RestoreOne, Admissible, New, Clash;
    if ms != [] {
      RestoreOneIff(p, ms[0], age, now);
      assert ms[0] in ms;
      if RestoreOne(p, ms[0], age, now).Some? {
        var q := RestoreOne(p, ms[0], age, now).value;
        RestoredOne(p, ms[0], age, now);
        RestorableRest(p, q, ms, age, now);
        RestoresIff(q, ms[1..], age, now);
      }
    }
  }

  // ---------------------------------------------------------------------------------------
  // What comes back

  /** The saved mappings of one family that remain, in order, with their new expiries. */
  function AllReturned(ms: seq<Saved>, kind: Kind, age: nat, now: nat): seq<Entry> {
    if ms == [] then []
    else Added(ms[0], kind, age, now) + AllReturned(ms[1..], kind, age, now)
  }

  lemma {:induction false} RestoredMappings(p: Pool, ms: seq<Saved>, age: nat, now: nat, kind: Kind)
    requires Kinds(p) && RestoreAll(p, ms, age, now).Some?
    ensures Mappings(RestoreAll(p, ms, age, now).value, kind) == Mappings(p, kind) + AllReturned(ms, kind, age, now)
    decreases |ms|
  {
    hide RestoreOne, Mappings;
    if ms != [] {
      var q := RestoreOne(p, ms[0], age, now).value;
      RestoredOne(p, ms[0], age, now);
      RestoredMappings(q, ms[1..], age, now, kind);
    }
  }

  /** The empty pool of a snapshot's own ranges and lifetime. */
  function Frame(s: Snapshot, horizon: nat): Pool {
    Pool(FamilyFor(V4, s.range4), FamilyFor(V6, s.range6), s.ttl, horizon)
  }

  /** A snapshot is restored exactly when it is not from the future, its settings are valid and its mappings fit them. */
  lemma SnapshotRestoresIff(s: Snapshot, now: nat, horizon: nat)
    ensures Restore(s, now, horizon).Some? <==>
      && s.capturedAt <= now && ValidTtl(s.ttl)
      && (s.range4.Some? || s.range6.Some?) && !RangeFails(s.range4) && !RangeFails(s.range6)
      && Restorable(Frame(s, horizon), s.mappings, now - s.capturedAt, now)
    ensures Restore(s, now, horizon).Some? ==> forall kind ::
      Mappings(Restore(s, now, horizon).value, kind) == AllReturned(s.mappings, kind, now - s.capturedAt, now)
  {
    hide Restorable, RestoreAll, AllReturned;
    var p := Frame(s, horizon);
    if s.capturedAt <= now && !RangeFails(s.range4) && !RangeFails(s.range6) {
      RestoresIff(p, s.mappings, now - s.capturedAt, now);
      if RestoreAll(p, s.mappings, now - s.capturedAt, now).Some? {
        RestoredMappings(p, s.mappings, now - s.capturedAt, now, V4);
        RestoredMappings(p, s.mappings, now - s.capturedAt, now, V6);
      }
    }
  }
}
