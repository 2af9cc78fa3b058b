/** The Fake IP pool of both families, its snapshots, and what a restored pool has in common with the original. */
module FakeIpPool {
  import opened Base
  import opened Names
  import opened FakeIp

  /** `horizon` is the last instant the clock can represent. */
  datatype Pool = Pool(v4: Option<Family>, v6: Option<Family>, ttl: nat, horizon: nat) {
    function Of(kind: Kind): Option<Family> {
      if kind == V4 then v4 else v6
    }

    function With(f: Family): Pool {
      if f.kind == V4 then this.(v4 := Some(f)) else this.(v6 := Some(f))
    }
  }

  datatype Saved = Saved(name: Name, kind: Kind, address: nat, remaining: nat)

  datatype Snapshot = Snapshot(
    capturedAt: nat, range4: Option<(nat, nat)>, range6: Option<(nat, nat)>, ttl: nat, mappings: seq<Saved>)

  type Hash = (Kind, Name) -> u64

  predicate ValidTtl(ttl: nat) {
    ttl != 0 && ttl % SECOND == 0
  }

  // ---------------------------------------------------------------------------------------
  // Building, operating, saving, restoring

  /** A family over a range, empty; `None` for a range that ends before it starts. */
  function NewFamily(kind: Kind, range: (nat, nat)): Option<Family> {
    if range.0 > range.1 then None else Some(Family(kind, range.0, range.1, []))
  }

  predicate RangeFails(range: Option<(nat, nat)>) {
    range.Some? && range.value.0 > range.value.1
  }

  function FamilyFor(kind: Kind, range: Option<(nat, nat)>): Option<Family> {
    if range.Some? then NewFamily(kind, range.value) else None
  }

  datatype BuildResult = Built(pool: Pool) | InvalidTtl | InvalidRange | Unconfigured

  /** An empty pool, or the first thing wrong with the configuration. */
  function Build(range4: Option<(nat, nat)>, range6: Option<(nat, nat)>, ttl: Option<nat>, horizon: nat): BuildResult {
    if ttl.None? || !ValidTtl(ttl.value) then InvalidTtl
    else if RangeFails(range4) || RangeFails(range6) then InvalidRange
    else if range4.None? && range6.None? then Unconfigured
    else Built(Pool(FamilyFor(V4, range4), FamilyFor(V6, range6), ttl.value, horizon))
  }

  function PurgeFamily(f: Option<Family>, now: nat): Option<Family> {
    if f.Some? then Some(Purge(f.value, now)) else None
  }

  function PurgePool(p: Pool, now: nat): Pool {
    p.(v4 := PurgeFamily(p.v4, now), v6 := PurgeFamily(p.v6, now))
  }

  function FamilySize(f: Option<Family>): nat {
    if f.Some? then |f.value.entries| else 0
  }

  function Size(p: Pool): nat {
    FamilySize(p.v4) + FamilySize(p.v6)
  }

  lemma {:induction false} LiveFewer(es: seq<Entry>, now: nat)
    ensures |Live(es, now)| <= |es|
  {
    if es != [] {
      LiveFewer(es[1..], now);
    }
  }

  lemma PurgeShrinks(p: Pool, now: nat)
    ensures Size(PurgePool(p, now)) <= Size(p)
  {
    if p.v4.Some? {
      LiveFewer(p.v4.value.entries, now);
    }
    if p.v6.Some? {
      LiveFewer(p.v6.value.entries, now);
    }
  }

  function SaveEntries(es: seq<Entry>, kind: Kind, now: nat): seq<Saved> {
    if es == [] then []
    else if es[0].expires < now then SaveEntries(es[1..], kind, now)
    else [Saved(es[0].name, kind, es[0].address, es[0].expires - now)] + SaveEntries(es[1..], kind, now)
  }

  function SaveFamily(f: Option<Family>, now: nat): seq<Saved> {
    if f.Some? then SaveEntries(Live(f.value.entries, now), f.value.kind, now) else []
  }

  function RangeOf(f: Option<Family>): Option<(nat, nat)> {
    if f.Some? then Some((f.value.start, f.value.end)) else None
  }

  /** What a snapshot holds; taking one also purges the pool. */
  function Save(p: Pool, now: nat): Snapshot {
    Snapshot(now, RangeOf(p.v4), RangeOf(p.v6), p.ttl, SaveFamily(p.v4, now) + SaveFamily(p.v6, now))
  }

  /** One saved mapping into a pool; `None` is an invalid snapshot. */
  function RestoreOne(p: Pool, m: Saved, elapsed: nat, now: nat): Option<Pool> {
    if m.remaining > p.ttl then None
    else if m.remaining <= elapsed then Some(p)
    else if now + (m.remaining - elapsed) > p.horizon || p.Of(m.kind).None? then None
    else
      var f := p.Of(m.kind).value;
      if !InRange(f, m.address) || Find(f.entries, m.name).Some? || Holder(f.entries, m.address).Some? then None
      else Some(p.With(f.(entries := f.entries + [Entry(m.name, m.address, now + (m.remaining - elapsed))])))
  }

  function RestoreAll(p: Pool, ms: seq<Saved>, elapsed: nat, now: nat): Option<Pool>
    decreases |ms|
  {
    if ms == [] then Some(p)
    else
      match RestoreOne(p, ms[0], elapsed, now)
      case None => None
      case Some(q) => RestoreAll(q, ms[1..], elapsed, now)
  }

  /** A pool from a snapshot at a later instant; `None` is an invalid snapshot. */
  function Restore(s: Snapshot, now: nat, horizon: nat): Option<Pool> {
    if now < s.capturedAt then None
    else
      match Build(s.range4, s.range6, Some(s.ttl), horizon)
      case Built(p) => RestoreAll(p, s.mappings, now - s.capturedAt, now)
      case _ => None
  }

  datatype Op = Alloc(kind: Kind, name: Name) | Look(kind: Kind, address: nat) | PurgeExpired

  datatype Reply = Allocated(r: Given) | Seen(found: Option<(Name, nat)>) | Disabled | Purged(removed: nat)

  function Apply(p: Pool, hash: Hash, op: Op, now: nat): (Pool, Reply)
    requires PoolInv(p)
  {
    match op
    case Alloc(kind, name) =>
      (match p.Of(kind)
       case None => (p, Disabled)
       case Some(f) =>
         var (g, r) := Allocate(f, n => hash(kind, n), name, now, p.ttl, p.horizon);
         (p.With(g), Allocated(r)))
    case Look(kind, address) =>
      (match p.Of(kind)
       case None => (p, Seen(None))
       case Some(f) =>
         var (g, r) := Lookup(f, address, now);
         (p.With(g), Seen(r)))
    case PurgeExpired =>
      PurgeShrinks(p, now);
      (PurgePool(p, now), Purged(Size(p) - Size(PurgePool(p, now))))
  }

  // ---------------------------------------------------------------------------------------
  // What every run keeps

  predicate FamilyOk(f: Option<Family>, kind: Kind) {
    f.Some? ==> f.value.kind == kind && FamilyInv(f.value)
  }

  predicate PoolInv(p: Pool) {
    FamilyOk(p.v4, V4) && FamilyOk(p.v6, V6) && (p.v4.Some? || p.v6.Some?) && ValidTtl(p.ttl)
  }

  predicate EntriesDated(es: seq<Entry>, latest: nat, horizon: nat) {
    forall e :: e in es ==> e.expires <= latest && e.expires <= horizon
  }

  /** No mapping outlives a lifetime from `now`, nor the clock. */
  predicate Dated(p: Pool, now: nat) {
    && (p.v4.Some? ==> EntriesDated(p.v4.value.entries, now + p.ttl, p.horizon))
    && (p.v6.Some? ==> EntriesDated(p.v6.value.entries, now + p.ttl, p.horizon))
  }

  lemma AllocateDated(f: Family, hash: Name -> u64, name: Name, now: nat, ttl: nat, horizon: nat)
    requires FamilyInv(f) && EntriesDated(f.entries, now + ttl, horizon)
    ensures EntriesDated(Allocate(f, hash, name, now, ttl, horizon).0.entries, now + ttl, horizon)
    ensures Allocate(f, hash, name, now, ttl, horizon).0.kind == f.kind
  {
    hide Probe, Candidate, Without, SameName;
    PurgeInv(f, now);
    var g := Purge(f, now);
    forall e | e in g.entries ensures e in f.entries {
      LiveIn(f.entries, now, e);
    }
    match Find(g.entries, name)
    case Some(e) => TouchInv(g, e);
    case None =>
  }

  lemma LookupDated(f: Family, address: nat, now: nat, latest: nat, horizon: nat)
    requires FamilyInv(f) && EntriesDated(f.entries, latest, horizon)
    ensures EntriesDated(Lookup(f, address, now).0.entries, latest, horizon) && Lookup(f, address, now).0.kind == f.kind
  {
    hide Without;
    PurgeInv(f, now);
    var g := Purge(f, now);
    forall e | e in g.entries ensures e in f.entries {
      LiveIn(f.entries, now, e);
    }
    if InRange(g, address) && Holder(g.entries, address).Some? {
      TouchInv(g, Holder(g.entries, address).value);
    }
  }

  lemma PurgePoolInv(p: Pool, now: nat, t: nat)
    requires PoolInv(p) && Dated(p, t)
    ensures PoolInv(PurgePool(p, now)) && Dated(PurgePool(p, now), t)
  {
    if p.v4.Some? {
      PurgeInv(p.v4.value, now);
      forall e | e in Live(p.v4.value.entries, now) ensures e in p.v4.value.entries {
        LiveIn(p.v4.value.entries, now, e);
      }
    }
    if p.v6.Some? {
      PurgeInv(p.v6.value, now);
      forall e | e in Live(p.v6.value.entries, now) ensures e in p.v6.value.entries {
        LiveIn(p.v6.value.entries, now, e);
      }
    }
  }

  lemma ApplyInv(p: Pool, hash: Hash, op: Op, now: nat)
    requires PoolInv(p) && Dated(p, now)
    ensures PoolInv(Apply(p, hash, op, now).0) && Dated(Apply(p, hash, op, now).0, now)
    ensures Apply(p, hash, op, now).0.ttl == p.ttl && Apply(p, hash, op, now).0.horizon == p.horizon
  {
    hide FamilyInv, Allocate, Lookup, Purge, ValidTtl, EntriesDated;
    match op
    case Alloc(kind, name) =>
      if p.Of(kind).Some? {
        AllocateInv(p.Of(kind).value, n => hash(kind, n), name, now, p.ttl, p.horizon);
        AllocateDated(p.Of(kind).value, n => hash(kind, n), name, now, p.ttl, p.horizon);
      }
    case Look(kind, address) =>
      if p.Of(kind).Some? {
        LookupInv(p.Of(kind).value, address, now);
        LookupDated(p.Of(kind).value, address, now, now + p.ttl, p.horizon);
      }
    case PurgeExpired => PurgePoolInv(p, now, now);
  }

  /** A monotone clock: the operations happen in order, none before `from`. */
  predicate InOrder(ops: seq<(Op, nat)>, from: nat) {
    ops == [] || (from <= ops[0].1 && InOrder(ops[1..], ops[0].1))
  }

  function EndTime(ops: seq<(Op, nat)>, from: nat): nat {
    if ops == [] then from else EndTime(ops[1..], ops[0].1)
  }

  lemma DatedLater(p: Pool, now: nat, later: nat)
    requires Dated(p, now) && now <= later
    ensures Dated(p, later)
  {
  }

  /** The pool after operations, and what they returned. */
  ghost function Run(p: Pool, hash: Hash, ops: seq<(Op, nat)>, from: nat): (Pool, seq<Reply>)
    requires PoolInv(p) && Dated(p, from) && InOrder(ops, from)
    decreases |ops|
  {
    if ops == [] then (p, [])
    else
      DatedLater(p, from, ops[0].1);
      ApplyInv(p, hash, ops[0].0, ops[0].1);
      var (q, reply) := Apply(p, hash, ops[0].0, ops[0].1);
      var (end, replies) := Run(q, hash, ops[1..], ops[0].1);
      (end, [reply] + replies)
  }

  lemma {:induction false} RunInv(p: Pool, hash: Hash, ops: seq<(Op, nat)>, from: nat)
    requires PoolInv(p) && Dated(p, from) && InOrder(ops, from)
    ensures PoolInv(Run(p, hash, ops, from).0) && Dated(Run(p, hash, ops, from).0, EndTime(ops, from))
    decreases |ops|
  {
    hide PoolInv, Dated, Apply;
    if ops != [] {
      DatedLater(p, from, ops[0].1);
      ApplyInv(p, hash, ops[0].0, ops[0].1);
      RunInv(Apply(p, hash, ops[0].0, ops[0].1).0, hash, ops[1..], ops[0].1);
    }
  }

  // ---------------------------------------------------------------------------------------
  // Pools that cannot be told apart

  /** Once what is expired at `now` is gone, the pools are equal. */
  predicate SameSince(p: Pool, q: Pool, now: nat) {
    PurgePool(p, now) == PurgePool(q, now)
  }

  lemma PurgeTwice(p: Pool, early: nat, late: nat)
    requires early <= late
    ensures PurgePool(PurgePool(p, early), late) == PurgePool(p, late)
  {
    if p.v4.Some? {
      LiveTwice(p.v4.value.entries, early, late);
    }
    if p.v6.Some? {
      LiveTwice(p.v6.value.entries, early, late);
    }
  }

  lemma SameLater(p: Pool, q: Pool, early: nat, late: nat)
    requires early <= late && SameSince(p, q, early)
    ensures SameSince(p, q, late)
  {
    PurgeTwice(p, early, late);
    PurgeTwice(q, early, late);
  }

  lemma SameFamily(p: Pool, q: Pool, now: nat, kind: Kind)
    requires SameSince(p, q, now)
    ensures PurgeFamily(p.Of(kind), now) == PurgeFamily(q.Of(kind), now)
    ensures p.Of(kind).Some? <==> q.Of(kind).Some?
    ensures p.ttl == q.ttl && p.horizon == q.horizon
  {
  }

  lemma SameWith(p: Pool, q: Pool, now: nat, f: Family, g: Family)
    requires SameSince(p, q, now) && Purge(f, now) == Purge(g, now)
    ensures SameSince(p.With(f), q.With(g), now)
  {
    assert f.kind == Purge(f, now).kind && g.kind == Purge(g, now).kind;
  }

  /** Families that purge alike allocate alike. */
  lemma AllocateSame(f: Family, g: Family, hash: Name -> u64, name: Name, now: nat, ttl: nat, horizon: nat)
    requires RangeOk(f) && RangeOk(g) && Purge(f, now) == Purge(g, now)
    ensures Allocate(f, hash, name, now, ttl, horizon).1 == Allocate(g, hash, name, now, ttl, horizon).1
    ensures Purge(Allocate(f, hash, name, now, ttl, horizon).0, now) == Purge(Allocate(g, hash, name, now, ttl, horizon).0, now)
  {
    hide Probe, Candidate, Find, Without, MakeFree;
  }

  /** A reply less the number of mappings a purge found expired, which depends on when the last purge was. */
  function Uncounted(reply: Reply): Reply {
    if reply.Purged? then Purged(0) else reply
  }

  function UncountedAll(replies: seq<Reply>): seq<Reply> {
    if replies == [] then [] else [Uncounted(replies[0])] + UncountedAll(replies[1..])
  }

  /** Pools that agree from `now` on reply alike, and agree afterwards. */
  lemma ApplySame(p: Pool, q: Pool, hash: Hash, op: Op, now: nat)
    requires PoolInv(p) && PoolInv(q) && SameSince(p, q, now)
    ensures Uncounted(Apply(p, hash, op, now).1) == Uncounted(Apply(q, hash, op, now).1)
    ensures SameSince(Apply(p, hash, op, now).0, Apply(q, hash, op, now).0, now)
  {
    hide SameSince, PurgePool, FamilyInv, ValidTtl;
    match op
    case Alloc(kind, name) =>
      hide Allocate;
      SameFamily(p, q, now, kind);
      if p.Of(kind).Some? {
        var f, g := p.Of(kind).value, q.Of(kind).value;
        var h := (n: Name) => hash(kind, n);
        assert RangeOk(f) && RangeOk(g) by {
          RangesOk(p, kind);
          RangesOk(q, kind);
        }
        AllocateSame(f, g, h, name, now, p.ttl, p.horizon);
        SameWith(p, q, now, Allocate(f, h, name, now, p.ttl, p.horizon).0, Allocate(g, h, name, now, p.ttl, p.horizon).0);
      }
    case Look(kind, address) =>
      SameFamily(p, q, now, kind);
      if p.Of(kind).Some? {
        var f, g := p.Of(kind).value, q.Of(kind).value;
        SameWith(p, q, now, Lookup(f, address, now).0, Lookup(g, address, now).0);
      }
    case PurgeExpired =>
      PurgeTwice(p, now, now);
      PurgeTwice(q, now, now);
      Rewrap(p, q, now);
  }

  lemma RangesOk(p: Pool, kind: Kind)
    requires PoolInv(p) && p.Of(kind).Some?
    ensures RangeOk(p.Of(kind).value)
  {
  }

  lemma Rewrap(p: Pool, q: Pool, now: nat)
    requires SameSince(p, q, now)
    requires PurgePool(PurgePool(p, now), now) == PurgePool(p, now)
    ensures SameSince(PurgePool(p, now), PurgePool(q, now), now)
  {
  }

  lemma {:induction false} RunSame(p: Pool, q: Pool, hash: Hash, ops: seq<(Op, nat)>, from: nat)
    requires PoolInv(p) && Dated(p, from) && PoolInv(q) && Dated(q, from) && InOrder(ops, from)
    requires SameSince(p, q, from)
    ensures UncountedAll(Run(p, hash, ops, from).1) == UncountedAll(Run(q, hash, ops, from).1)
    decreases |ops|
  {
    hide PoolInv, Dated, Apply, SameSince;
    if ops != [] {
      var (op, now) := ops[0];
      DatedLater(p, from, now);
      DatedLater(q, from, now);
      ApplyInv(p, hash, op, now);
      ApplyInv(q, hash, op, now);
      SameLater(p, q, from, now);
      ApplySame(p, q, hash, op, now);
      RunSame(Apply(p, hash, op, now).0, Apply(q, hash, op, now).0, hash, ops[1..], now);
    }
  }

  // ---------------------------------------------------------------------------------------
  // Snapshot and restore

  /** Restoring the saved mappings of one family appends those still live to what is there already. */
  lemma {:induction false} RestoreEntries(p: Pool, f: Family, es: seq<Entry>, rest: seq<Saved>, t0: nat, t1: nat)
    requires t0 <= t1 && p.Of(f.kind) == Some(f)
    requires Distinct(f.entries + es) && AllInRange(f, es)
    requires forall e :: e in es ==> t0 < e.expires <= t0 + p.ttl && e.expires <= p.horizon
    ensures RestoreAll(p, SaveEntries(es, f.kind, t0) + rest, t1 - t0, t1)
         == RestoreAll(p.With(f.(entries := f.entries + Live(es, t1))), rest, t1 - t0, t1)
    decreases |es|
  {
    hide Distinct, RestoreOne;
    var saved := SaveEntries(es, f.kind, t0);
    if es == [] {
      assert saved + rest == rest && f.entries + Live(es, t1) == f.entries;
    } else {
      var e := es[0];
      assert (saved + rest)[1..] == SaveEntries(es[1..], f.kind, t0) + rest;
      NextRestored(p, f, es, t0, t1);
      if e.expires <= t1 {
        SkipDistinct(f.entries, es);
        RestoreEntries(p, f, es[1..], rest, t0, t1);
      } else {
        var g := f.(entries := f.entries + [e]);
        assert g.entries + es[1..] == f.entries + es;
        RestoreEntries(p.With(g), g, es[1..], rest, t0, t1);
        assert g.entries + Live(es[1..], t1) == f.entries + Live(es, t1);
      }
    }
  }

  lemma NextRestored(p: Pool, f: Family, es: seq<Entry>, t0: nat, t1: nat)
    requires t0 <= t1 && p.Of(f.kind) == Some(f) && es != []
    requires Distinct(f.entries + es) && AllInRange(f, es)
    requires t0 < es[0].expires <= t0 + p.ttl && es[0].expires <= p.horizon
    ensures var e := es[0];
      RestoreOne(p, Saved(e.name, f.kind, e.address, e.expires - t0), t1 - t0, t1)
      == Some(if e.expires <= t1 then p else p.With(f.(entries := f.entries + [e])))
  {
    hide Distinct, Apart, Find, Holder;
    var e := es[0];
    MiddleApart(f.entries, es);
    ApartUnknown(f.entries, e);
    assert e in es;
  }

  lemma ApartUnknown(es: seq<Entry>, e: Entry)
    requires Apart(e, es)
    ensures Find(es, e.name).None? && Holder(es, e.address).None?
  {
  }

  /** The first entry of the second part is apart from all of the first part. */
  lemma {:induction false} MiddleApart(a: seq<Entry>, b: seq<Entry>)
    requires Distinct(a + b) && b != []
    ensures Apart(b[0], a)
  {
    hide SameName;
    if a != [] {
      assert (a + b)[1..] == a[1..] + b;
      MiddleApart(a[1..], b);
      assert b[0] in a[1..] + b;
      SameNameSymmetric(a[0].name, b[0].name);
    }
  }

  lemma {:induction false} SkipDistinct(a: seq<Entry>, b: seq<Entry>)
    requires Distinct(a + b) && b != []
    ensures Distinct(a + b[1..])
  {
    hide SameName;
    if a == [] {
      assert a + b == b && a + b[1..] == b[1..];
    } else {
      assert (a + b)[1..] == a[1..] + b && (a + b[1..])[1..] == a[1..] + b[1..];
      SkipDistinct(a[1..], b);
      assert forall x :: x in a[1..] + b[1..] ==> x in a[1..] + b;
    }
  }

  /** The saved mappings of a family, restored into that family while it is empty. */
  lemma RestoreFamily(p: Pool, q: Pool, kind: Kind, rest: seq<Saved>, t0: nat, t1: nat)
    requires PoolInv(p) && Dated(p, t0) && t0 <= t1
    requires q.ttl == p.ttl && q.horizon == p.horizon
    requires q.Of(kind) == if p.Of(kind).Some? then Some(p.Of(kind).value.(entries := [])) else None
    ensures RestoreAll(q, SaveFamily(p.Of(kind), t0) + rest, t1 - t0, t1)
         == RestoreAll(if p.Of(kind).Some? then q.With(Purge(p.Of(kind).value, t1)) else q, rest, t1 - t0, t1)
  {
    if p.Of(kind).Some? {
      var f := p.Of(kind).value;
      var es := Live(f.entries, t0);
      LiveDistinct(f.entries, t0);
      forall e | e in es ensures e in f.entries {
        LiveIn(f.entries, t0, e);
      }
      var empty := f.(entries := []);
      assert empty.entries + es == es;
      RestoreEntries(q, empty, es, rest, t0, t1);
      LiveTwice(f.entries, t0, t1);
      assert [] + Live(es, t1) == Live(es, t1);
    } else {
      assert [] + rest == rest;
    }
  }

  /**
   Restoring a snapshot at any later instant succeeds. It gives the pool with what has expired by then removed:
   the same addresses and spellings, the same expiry instants and the same order of use.
   */
  lemma RestoreSnapshot(p: Pool, t0: nat, t1: nat)
    requires PoolInv(p) && Dated(p, t0) && t0 <= t1
    ensures Restore(Save(p, t0), t1, p.horizon) == Some(PurgePool(p, t1))
  {
    hide Dated, SaveFamily, RestoreAll;
    var s := Save(p, t0);
    var empty := Build(s.range4, s.range6, Some(s.ttl), p.horizon).pool;
    RestoreFamily(p, empty, V4, SaveFamily(p.v6, t0), t0, t1);
    var half := if p.v4.Some? then empty.With(Purge(p.v4.value, t1)) else empty;
    RestoreFamily(p, half, V6, [], t0, t1);
    assert SaveFamily(p.v6, t0) + [] == SaveFamily(p.v6, t0);
    RestoreNothing(if p.v6.Some? then half.With(Purge(p.v6.value, t1)) else half, t1 - t0, t1);
  }

  lemma RestoreNothing(p: Pool, elapsed: nat, now: nat)
    ensures RestoreAll(p, [], elapsed, now) == Some(p)
  {
  }

  /** A configuration is refused exactly for a bad lifetime, a reversed range or no range; what is built is sound. */
  lemma BuildInv(range4: Option<(nat, nat)>, range6: Option<(nat, nat)>, ttl: Option<nat>, horizon: nat)
    requires (range4.Some? ==> range4.value.1 < Space(V4)) && (range6.Some? ==> range6.value.1 < Space(V6))
    ensures var r := Build(range4, range6, ttl, horizon);
      var badTtl := ttl.None? || ttl.value == 0 || ttl.value % SECOND != 0;
      var reversed :=
        (range4.Some? && range4.value.0 > range4.value.1) || (range6.Some? && range6.value.0 > range6.value.1);
      && (r.InvalidTtl? <==> badTtl)
      && (r.InvalidRange? <==> !badTtl && reversed)
      && (r.Unconfigured? <==> !badTtl && range4.None? && range6.None?)
      && (r.Built? ==> PoolInv(r.pool) && Dated(r.pool, 0) && r.pool.ttl == ttl.value && r.pool.horizon == horizon)
      && (r.Built? ==> RangeOf(r.pool.v4) == range4 && RangeOf(r.pool.v6) == range6)
  {
  }

  /**
   A pool restored at `t1` from a snapshot taken at `t0` after any run cannot be told from the original: whatever is
   asked of both from `t1` on, at the same instants, gets the same addresses, names and lifetimes. The restored pool is
   the original purged at `t1`, so from a purge of the original at `t1` on even the numbers purged are the same.
   */
  lemma RestoredIsIndistinguishable(p: Pool, hash: Hash, before: seq<(Op, nat)>, from: nat, t0: nat, t1: nat,
                                    after: seq<(Op, nat)>)
    requires PoolInv(p) && Dated(p, from) && InOrder(before, from)
    requires EndTime(before, from) <= t0 <= t1 && InOrder(after, t1)
    ensures var original := Run(p, hash, before, from).0;
      var restored := Restore(Save(original, t0), t1, original.horizon);
      && restored.Some? && PoolInv(restored.value) && Dated(restored.value, t1)
      && PoolInv(PurgePool(original, t0)) && Dated(PurgePool(original, t0), t1)
      && UncountedAll(Run(restored.value, hash, after, t1).1) == UncountedAll(Run(PurgePool(original, t0), hash, after, t1).1)
      && restored.value == PurgePool(original, t1)
  {
    RunInv(p, hash, before, from);
    var original := Run(p, hash, before, from).0;
    hide PoolInv, Dated, Run, SameSince, PurgePool, Restore, Save, InOrder;
    DatedLater(original, EndTime(before, from), t0);
    DatedLater(original, t0, t1);
    RestoreSnapshot(original, t0, t1);
    PurgePoolInv(original, t1, t1);
    PurgePoolInv(original, t0, t1);
    PurgeTwice(original, t0, t1);
    PurgeTwice(original, t1, t1);
    SameIf(PurgePool(original, t1), PurgePool(original, t0), t1);
    RunSame(PurgePool(original, t1), PurgePool(original, t0), hash, after, t1);
  }

  /** Two pools get the same replies, numbers purged included, to whatever is asked of them from `now` on. */
  ghost predicate SameReplies(p: Pool, q: Pool, hash: Hash, now: nat)
    requires PoolInv(p) && Dated(p, now) && PoolInv(q) && Dated(q, now)
  {
    forall ops :: InOrder(ops, now) ==> Run(p, hash, ops, now).1 == Run(q, hash, ops, now).1
  }

  lemma {:induction false} LiveAll(es: seq<Entry>, now: nat)
    ensures |Live(es, now)| == |es| <==> Live(es, now) == es
  {
    if es != [] {
      LiveAll(es[1..], now);
      LiveFewer(es[1..], now);
    }
  }

  /** A purge that removes nothing changes nothing. */
  lemma PurgeNone(p: Pool, now: nat)
    ensures Size(PurgePool(p, now)) == Size(p) <==> PurgePool(p, now) == p
  {
    if p.v4.Some? {
      LiveAll(p.v4.value.entries, now);
      LiveFewer(p.v4.value.entries, now);
    }
    if p.v6.Some? {
      LiveAll(p.v6.value.entries, now);
      LiveFewer(p.v6.value.entries, now);
    }
  }

  /**
   A restored pool gives the same numbers purged as the original, too, exactly when no mapping expired between the
   snapshot and the restoration.
   */
  lemma SameRepliesIff(p: Pool, hash: Hash, t0: nat, t1: nat)
    requires PoolInv(p) && Dated(p, t0) && t0 <= t1
    ensures var saved := PurgePool(p, t0);
      var restored := Restore(Save(p, t0), t1, p.horizon);
      && PoolInv(saved) && Dated(saved, t1)
      && restored.Some? && PoolInv(restored.value) && Dated(restored.value, t1)
      && (SameReplies(restored.value, saved, hash, t1) <==> restored.value == saved)
  {
    hide PoolInv, Dated, Restore, Save, PurgePool, InOrder, Run;
    DatedLater(p, t0, t1);
    RestoreSnapshot(p, t0, t1);
    PurgePoolInv(p, t1, t1);
    PurgePoolInv(p, t0, t1);
    PurgeTwice(p, t0, t1);
    PurgeTwice(p, t1, t1);
    var saved, restored := PurgePool(p, t0), PurgePool(p, t1);
    if SameReplies(restored, saved, hash, t1) {
      PurgeReply(restored, hash, t1);
      PurgeReply(saved, hash, t1);
      PurgeNone(saved, t1);
      PurgeShrinks(saved, t1);
      assert Run(restored, hash, [(PurgeExpired, t1)], t1).1 == Run(saved, hash, [(PurgeExpired, t1)], t1).1;
    }
  }

  /** What a purge alone replies. */
  lemma PurgeReply(p: Pool, hash: Hash, now: nat)
    requires PoolInv(p) && Dated(p, now)
    ensures InOrder([(PurgeExpired, now)], now) && Size(PurgePool(p, now)) <= Size(p)
    ensures Run(p, hash, [(PurgeExpired, now)], now).1 == [Purged(Size(p) - Size(PurgePool(p, now)))]
  {
    hide PoolInv, Dated;
    PurgeShrinks(p, now);
    var ops: seq<(Op, nat)> := [(PurgeExpired, now)];
    assert ops[1..] == [];
  }

  lemma SameIf(p: Pool, q: Pool, now: nat)
    requires PurgePool(p, now) == PurgePool(q, now)
    ensures SameSince(p, q, now)
  {
  }

  // ---------------------------------------------------------------------------------------
  // Restoring an arbitrary snapshot

  lemma RestoreOneInv(p: Pool, m: Saved, elapsed: nat, now: nat)
    requires PoolInv(p) && Dated(p, now) && RestoreOne(p, m, elapsed, now).Some?
    ensures PoolInv(RestoreOne(p, m, elapsed, now).value) && Dated(RestoreOne(p, m, elapsed, now).value, now)
  {
    hide Distinct, SameName;
    if m.remaining > elapsed {
      var f := p.Of(m.kind).value;
      AppendDistinct(f.entries, Entry(m.name, m.address, now + (m.remaining - elapsed)));
    }
  }

  /** Whatever snapshot is accepted, the pool it gives is sound and outlives neither its TTL nor the clock. */
  lemma {:induction false} RestoreAllInv(p: Pool, ms: seq<Saved>, elapsed: nat, now: nat)
    requires PoolInv(p) && Dated(p, now) && RestoreAll(p, ms, elapsed, now).Some?
    ensures PoolInv(RestoreAll(p, ms, elapsed, now).value) && Dated(RestoreAll(p, ms, elapsed, now).value, now)
    decreases |ms|
  {
    hide PoolInv, Dated, RestoreOne;
    if ms != [] {
      RestoreOneInv(p, ms[0], elapsed, now);
      RestoreAllInv(RestoreOne(p, ms[0], elapsed, now).value, ms[1..], elapsed, now);
    }
  }
}
