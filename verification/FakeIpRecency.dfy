/**
 The order of the mappings over whole runs: by when each was last used, whatever the operations were, so that what
 a full range drops is the mapping unused for longest.
 */
module FakeIpRecency {
  import opened Base
  import opened Names
  import opened FakeIp
  import opened FakeIpPool

  type Use = Option<(Kind, nat)>

  /** The mapping an operation used, by family and address: given out, or found. */
  function UseOf(op: Op, reply: Reply): Use {
    if op.Alloc? && reply.Allocated? && reply.r.Given? then Some((op.kind, reply.r.address))
    else if op.Look? && reply.Seen? && reply.found.Some? then Some((op.kind, op.address))
    else None
  }

  function UsesOf(ops: seq<(Op, nat)>, replies: seq<Reply>): seq<Use>
    requires |ops| == |replies|
  {
    if ops == [] then [] else [UseOf(ops[0].0, replies[0])] + UsesOf(ops[1..], replies[1..])
  }

  /** When an address was last used, counting operations from one; zero if it never was. */
  function LastUse(uses: seq<Use>, kind: Kind, address: nat): nat {
    if uses == [] then 0
    else if uses[|uses| - 1] == Some((kind, address)) then |uses|
    else LastUse(uses[..|uses| - 1], kind, address)
  }

  lemma {:induction false} LastUseBound(uses: seq<Use>, kind: Kind, address: nat)
    ensures LastUse(uses, kind, address) <= |uses|
  {
    if uses != [] {
      LastUseBound(uses[..|uses| - 1], kind, address);
    }
  }

  lemma LastUsePlus(uses: seq<Use>, use: Use, kind: Kind, address: nat)
    ensures LastUse(uses + [use], kind, address)
         == if use == Some((kind, address)) then |uses| + 1 else LastUse(uses, kind, address)
  {
    assert (uses + [use])[..|uses|] == uses;
  }

  /** Every mapping has been used, and later mappings later. */
  predicate ByUse(uses: seq<Use>, kind: Kind, es: seq<Entry>) {
    && (forall e :: e in es ==> 0 < LastUse(uses, kind, e.address))
    && forall i, j :: 0 <= i < j < |es| ==> LastUse(uses, kind, es[i].address) < LastUse(uses, kind, es[j].address)
  }

  lemma TailByUse(uses: seq<Use>, kind: Kind, es: seq<Entry>)
    requires ByUse(uses, kind, es) && es != []
    ensures ByUse(uses, kind, es[1..])
  {
    hide LastUse;
    assert forall i :: 0 <= i < |es| - 1 ==> es[1..][i] == es[i + 1];
  }

  lemma FrontByUse(uses: seq<Use>, kind: Kind, e: Entry, es: seq<Entry>)
    requires ByUse(uses, kind, es) && 0 < LastUse(uses, kind, e.address)
    requires forall x :: x in es ==> LastUse(uses, kind, e.address) < LastUse(uses, kind, x.address)
    ensures ByUse(uses, kind, [e] + es)
  {
    hide LastUse;
    assert forall i :: 0 < i < |es| + 1 ==> ([e] + es)[i] == es[i - 1];
  }

  lemma FrontIsOldest(uses: seq<Use>, kind: Kind, es: seq<Entry>, x: Entry)
    requires ByUse(uses, kind, es) && es != [] && x in es[1..]
    ensures LastUse(uses, kind, es[0].address) < LastUse(uses, kind, x.address)
  {
    hide LastUse;
    var i :| 0 <= i < |es| - 1 && es[1..][i] == x;
    assert es[i + 1] == x;
  }

  lemma {:induction false} LiveByUse(uses: seq<Use>, kind: Kind, es: seq<Entry>, now: nat)
    requires ByUse(uses, kind, es)
    ensures ByUse(uses, kind, Live(es, now))
  {
    hide LastUse;
    if es != [] {
      var rest := Live(es[1..], now);
      TailByUse(uses, kind, es);
      assert 0 < LastUse(uses, kind, es[0].address);
      hide ByUse;
      LiveByUse(uses, kind, es[1..], now);
      forall x | x in rest ensures LastUse(uses, kind, es[0].address) < LastUse(uses, kind, x.address) {
        LiveIn(es[1..], now, x);
        FrontIsOldest(uses, kind, es, x);
      }
      FrontByUse(uses, kind, es[0], rest);
    }
  }

  /** Mappings other than the one used stay in order. */
  lemma UnusedByUse(uses: seq<Use>, use: Use, kind: Kind, es: seq<Entry>)
    requires ByUse(uses, kind, es) && forall e :: e in es ==> use != Some((kind, e.address))
    ensures ByUse(uses + [use], kind, es)
  {
    hide LastUse;
    forall e | e in es ensures LastUse(uses + [use], kind, e.address) == LastUse(uses, kind, e.address) {
      LastUsePlus(uses, use, kind, e.address);
    }
  }

  /** The mapping used goes last. */
  lemma BackByUse(uses: seq<Use>, kind: Kind, es: seq<Entry>, e: Entry)
    requires ByUse(uses, kind, es) && forall x :: x in es ==> x.address != e.address
    ensures ByUse(uses + [Some((kind, e.address))], kind, es + [e])
  {
    hide LastUse;
    var after := uses + [Some((kind, e.address))];
    UnusedByUse(uses, Some((kind, e.address)), kind, es);
    LastUsePlus(uses, Some((kind, e.address)), kind, e.address);
    forall x | x in es ensures LastUse(after, kind, x.address) < LastUse(after, kind, e.address) {
      LastUsePlus(uses, Some((kind, e.address)), kind, x.address);
      LastUseBound(uses, kind, x.address);
    }
  }

  lemma SkipByUse(uses: seq<Use>, kind: Kind, a: seq<Entry>, e: Entry, b: seq<Entry>)
    requires ByUse(uses, kind, a + [e] + b)
    ensures ByUse(uses, kind, a + b)
  {
    hide LastUse;
    var es, r := a + [e] + b, a + b;
    assert forall i :: 0 <= i < |r| ==> r[i] == es[if i < |a| then i else i + 1];
    forall i, j | 0 <= i < j < |r| ensures LastUse(uses, kind, r[i].address) < LastUse(uses, kind, r[j].address) {
      var k, l := if i < |a| then i else i + 1, if j < |a| then j else j + 1;
      assert LastUse(uses, kind, es[k].address) < LastUse(uses, kind, es[l].address);
    }
  }

  lemma OthersElsewhere(uses: seq<Use>, kind: Kind, a: seq<Entry>, e: Entry, b: seq<Entry>, x: Entry)
    requires ByUse(uses, kind, a + [e] + b) && x in a + b
    ensures x.address != e.address
  {
    hide LastUse;
    var es := a + [e] + b;
    var i :| 0 <= i < |a + b| && (a + b)[i] == x;
    var k := if i < |a| then i else i + 1;
    assert es[|a|] == e && es[k] == x;
  }

  lemma MovedByUse(uses: seq<Use>, kind: Kind, es: seq<Entry>, e: Entry, r: seq<Entry>)
    requires ByUse(uses, kind, es) && MovedToBack(es, e, r)
    ensures ByUse(uses + [Some((kind, e.address))], kind, r)
  {
    hide LastUse, ByUse;
    var a, b :| es == a + [e] + b && r == a + b + [e];
    SkipByUse(uses, kind, a, e, b);
    forall x | x in a + b ensures x.address != e.address {
      OthersElsewhere(uses, kind, a, e, b, x);
    }
    BackByUse(uses, kind, a + b, e);
  }

  // ---------------------------------------------------------------------------------------
  // Operations and runs

  lemma AllocateByUse(f: Family, uses: seq<Use>, hash: Name -> u64, name: Name, now: nat, ttl: nat, horizon: nat)
    requires FamilyInv(f) && ByUse(uses, f.kind, f.entries)
    ensures var (g, r) := Allocate(f, hash, name, now, ttl, horizon);
      ByUse(uses + [if r.Given? then Some((f.kind, r.address)) else None], f.kind, g.entries)
  {
    hide ByUse, Probe, Candidate, Without, Live, FamilyInv, FreeFrom;
    FamilyRange(f);
    var (g, r) := Allocate(f, hash, name, now, ttl, horizon);
    var live := Live(f.entries, now);
    LiveByUse(uses, f.kind, f.entries, now);
    AllocateRefuses(f, hash, name, now, ttl, horizon);
    if now + ttl > horizon {
      UnusedByUse(uses, None, f.kind, f.entries);
    } else if Find(live, name).Some? {
      var e := Find(live, name).value;
      AllocateReuses(f, hash, name, now, ttl, horizon, e);
      MovedByUse(uses, f.kind, live, e, g.entries);
    } else if r == Loops {
      UnusedByUse(uses, None, f.kind, live);
      LoopsIff(f, hash, name, now, ttl, horizon);
    } else {
      AllocateOrder(f, hash, name, now, ttl, horizon);
      NewByUse(f, uses, hash, name, now, ttl, horizon);
    }
  }

  lemma NewByUse(f: Family, uses: seq<Use>, hash: Name -> u64, name: Name, now: nat, ttl: nat, horizon: nat)
    requires FamilyInv(f) && ByUse(uses, f.kind, f.entries) && Allocate(f, hash, name, now, ttl, horizon).1.Given?
    requires Find(Live(f.entries, now), name).None?
    ensures var (g, r) := Allocate(f, hash, name, now, ttl, horizon);
      ByUse(uses + [Some((f.kind, r.address))], f.kind, g.entries)
  {
    hide ByUse, Allocate, Live, Find, Distinct;
    AllocateOrder(f, hash, name, now, ttl, horizon);
    var (g, r) := Allocate(f, hash, name, now, ttl, horizon);
    var stay := Staying(f, now);
    LiveByUse(uses, f.kind, f.entries, now);
    if |Live(f.entries, now)| == Length(f) {
      TailByUse(uses, f.kind, Live(f.entries, now));
    }
    assert ByUse(uses, f.kind, stay);
    assert Holder(stay, r.address).None?;
    BackByUse(uses, f.kind, stay, Entry(name, r.address, now + ttl));
  }

  lemma LookupByUse(f: Family, uses: seq<Use>, address: nat, now: nat)
    requires FamilyInv(f) && ByUse(uses, f.kind, f.entries)
    ensures var (g, found) := Lookup(f, address, now);
      ByUse(uses + [if found.Some? then Some((f.kind, address)) else None], f.kind, g.entries)
  {
    hide ByUse, Lookup, FamilyInv;
    LiveByUse(uses, f.kind, f.entries, now);
    if e :| e in f.entries && now < e.expires && e.address == address {
      LookupHit(f, e, now);
      MovedByUse(uses, f.kind, Live(f.entries, now), e, Lookup(f, address, now).0.entries);
    } else {
      LookupMiss(f, address, now);
      UnusedByUse(uses, None, f.kind, Live(f.entries, now));
    }
  }

  predicate PoolByUse(uses: seq<Use>, p: Pool) {
    && (p.v4.Some? ==> ByUse(uses, V4, p.v4.value.entries))
    && (p.v6.Some? ==> ByUse(uses, V6, p.v6.value.entries))
  }

  /** The family an operation does not concern keeps its order. */
  lemma OtherByUse(uses: seq<Use>, use: Use, kind: Kind, es: seq<Entry>)
    requires ByUse(uses, kind, es) && (use.Some? ==> use.value.0 != kind)
    ensures ByUse(uses + [use], kind, es)
  {
    hide ByUse;
    UnusedByUse(uses, use, kind, es);
  }

  lemma ApplyByUse(p: Pool, uses: seq<Use>, hash: Hash, op: Op, now: nat)
    requires PoolInv(p) && PoolByUse(uses, p)
    ensures var (q, reply) := Apply(p, hash, op, now);
      PoolByUse(uses + [UseOf(op, reply)], q)
  {
    hide ByUse, Allocate, Lookup, FamilyInv, ValidTtl;
    var (q, reply) := Apply(p, hash, op, now);
    var use := UseOf(op, reply);
    if op.PurgeExpired? || p.Of(op.kind).None? || p.Of(op.kind).value.kind != V4 {
      if p.v4.Some? {
        LiveByUse(uses, V4, p.v4.value.entries, now);
        OtherByUse(uses, use, V4, Live(p.v4.value.entries, now));
        OtherByUse(uses, use, V4, p.v4.value.entries);
      }
    }
    if op.PurgeExpired? || p.Of(op.kind).None? || p.Of(op.kind).value.kind != V6 {
      if p.v6.Some? {
        LiveByUse(uses, V6, p.v6.value.entries, now);
        OtherByUse(uses, use, V6, Live(p.v6.value.entries, now));
        OtherByUse(uses, use, V6, p.v6.value.entries);
      }
    }
    if !op.PurgeExpired? && p.Of(op.kind).Some? {
      var f := p.Of(op.kind).value;
      if op.Alloc? {
        FamilyRange(f);
        AllocateByUse(f, uses, n => hash(op.kind, n), op.name, now, p.ttl, p.horizon);
        AllocateKind(f, n => hash(op.kind, n), op.name, now, p.ttl, p.horizon);
      } else {
        LookupByUse(f, uses, op.address, now);
        LookupKind(f, op.address, now);
      }
    }
  }

  lemma AllocateKind(f: Family, hash: Name -> u64, name: Name, now: nat, ttl: nat, horizon: nat)
    requires RangeOk(f)
    ensures Allocate(f, hash, name, now, ttl, horizon).0.kind == f.kind
  {
    hide Probe, Candidate, Find, Live, Without;
  }

  lemma LookupKind(f: Family, address: nat, now: nat)
    ensures Lookup(f, address, now).0.kind == f.kind
  {
    hide Live, Without, Holder;
  }

  lemma {:induction false} RunByUse(p: Pool, uses: seq<Use>, hash: Hash, ops: seq<(Op, nat)>, from: nat)
    requires PoolInv(p) && Dated(p, from) && InOrder(ops, from) && PoolByUse(uses, p)
    ensures var (q, replies) := Run(p, hash, ops, from);
      |replies| == |ops| && PoolByUse(uses + UsesOf(ops, replies), q)
    decreases |ops|
  {
    hide PoolInv, Dated, Apply, PoolByUse, UseOf;
    if ops == [] {
      assert uses + [] == uses;
    } else {
      var (op, now) := ops[0];
      DatedLater(p, from, now);
      ApplyInv(p, hash, op, now);
      ApplyByUse(p, uses, hash, op, now);
      var (q, reply) := Apply(p, hash, op, now);
      RunByUse(q, uses + [UseOf(op, reply)], hash, ops[1..], now);
      var rest := Run(q, hash, ops[1..], now).1;
      assert ([reply] + rest)[1..] == rest;
      assert uses + UsesOf(ops, [reply] + rest) == uses + [UseOf(op, reply)] + UsesOf(ops[1..], rest);
    }
  }

  /** No mappings yet. */
  predicate Blank(p: Pool) {
    (p.v4.Some? ==> p.v4.value.entries == []) && (p.v6.Some? ==> p.v6.value.entries == [])
  }

  /**
   After any run from an empty pool, an allocation drops a live mapping only from a range full of live mappings, and
   every other one has been used, given out or looked up, since the dropped one was.
   */
  lemma {:induction false} LruOverRuns(p: Pool, hash: Hash, ops: seq<(Op, nat)>, from: nat,
                                       f: Family, name: Name, now: nat, e: Entry, x: Entry)
    requires PoolInv(p) && Blank(p) && InOrder(ops, from) && Dated(p, from)
    requires Run(p, hash, ops, from).0.Of(f.kind) == Some(f)
    requires e in f.entries && now < e.expires && x in f.entries && now < x.expires && x != e
    requires RangeOk(f) && e !in Allocate(f, n => hash(f.kind, n), name, now, p.ttl, p.horizon).0.entries
    ensures |Live(f.entries, now)| == Length(f)
    ensures var (q, replies) := Run(p, hash, ops, from);
      && |replies| == |ops|
      && var uses := UsesOf(ops, replies);
      LastUse(uses, f.kind, e.address) < LastUse(uses, f.kind, x.address)
  {
    hide Allocate, Run, Live, LastUse, ByUse;
    RunInv(p, hash, ops, from);
    EmptyByUse(p);
    RunByUse(p, [], hash, ops, from);
    var uses := UsesOf(ops, Run(p, hash, ops, from).1);
    assert [] + uses == uses;
    assert ByUse(uses, f.kind, f.entries);
    DropsOnlyLru(f, n => hash(f.kind, n), name, now, p.ttl, p.horizon, e);
    LiveByUse(uses, f.kind, f.entries, now);
    LiveIn(f.entries, now, x);
    var live := Live(f.entries, now);
    assert live == [live[0]] + live[1..];
    FrontIsOldest(uses, f.kind, live, x);
  }

  lemma EmptyByUse(p: Pool)
    requires Blank(p)
    ensures PoolByUse([], p)
  {
  }
}
