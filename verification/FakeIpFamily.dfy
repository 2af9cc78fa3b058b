/** One family as the source keeps it: two hash maps and two counters standing for the list of mappings. */
module FakeIpFamily {
  import opened Base
  import opened Names
  import opened FakeIp
  import P = FakeIpPool

  datatype Mapping = Mapping(name: Name, address: nat, recency: nat, allocation: nat, expires: nat)

  /** Keyed by folded names: the source's names compare and hash without case. */
  type Forward = map<Name, Mapping>

  type Reverse = map<nat, Name>

  function EntryOf(m: Mapping): Entry {
    Entry(m.name, m.address, m.expires)
  }

  // ---------------------------------------------------------------------------------------
  // How the maps stand for the list

  /** Every mapping of the list is in the forward map. */
  ghost predicate Listed(fwd: Forward, es: seq<Entry>) {
    forall e :: e in es ==> Fold(e.name) in fwd && EntryOf(fwd[Fold(e.name)]) == e
  }

  /** The forward map holds nothing else. */
  ghost predicate Covered(fwd: Forward, es: seq<Entry>) {
    forall k :: k in fwd ==> Fold(fwd[k].name) == k && EntryOf(fwd[k]) in es
  }

  /** The two maps are inverse to each other. */
  ghost predicate Inverse(fwd: Forward, rev: Reverse) {
    && (forall k :: k in fwd ==> Fold(fwd[k].name) == k && fwd[k].address in rev && rev[fwd[k].address] == fwd[k].name)
    && (forall a :: a in rev ==> Fold(rev[a]) in fwd && fwd[Fold(rev[a])].address == a)
  }

  function Recency(fwd: Forward, e: Entry): nat {
    if Fold(e.name) in fwd then fwd[Fold(e.name)].recency else 0
  }

  /** Recencies rise along the list, from `low` on and below `high`. */
  ghost predicate Rising(fwd: Forward, es: seq<Entry>, low: nat, high: nat) {
    if es == [] then low <= high
    else low <= Recency(fwd, es[0]) && Rising(fwd, es[1..], Recency(fwd, es[0]) + 1, high)
  }

  ghost predicate Rep(fwd: Forward, rev: Reverse, es: seq<Entry>, next: nat) {
    Listed(fwd, es) && Covered(fwd, es) && Inverse(fwd, rev) && Rising(fwd, es, 0, next)
  }

  lemma {:induction false} RisingLower(fwd: Forward, es: seq<Entry>, low: nat, lower: nat, high: nat, higher: nat)
    requires Rising(fwd, es, low, high) && lower <= low && high <= higher
    ensures Rising(fwd, es, lower, higher)
    decreases |es|
  {
    if es != [] {
      RisingLower(fwd, es[1..], Recency(fwd, es[0]) + 1, Recency(fwd, es[0]) + 1, high, higher);
    }
  }

  /** The order depends on the recencies of the listed names only. */
  lemma {:induction false} RisingSame(fwd: Forward, gwd: Forward, es: seq<Entry>, low: nat, high: nat)
    requires Rising(fwd, es, low, high) && forall e :: e in es ==> Recency(gwd, e) == Recency(fwd, e)
    ensures Rising(gwd, es, low, high)
    decreases |es|
  {
    hide Recency;
    if es != [] {
      RisingSame(fwd, gwd, es[1..], Recency(fwd, es[0]) + 1, high);
    }
  }

  lemma {:induction false} RisingLive(fwd: Forward, es: seq<Entry>, low: nat, high: nat, now: nat)
    requires Rising(fwd, es, low, high)
    ensures Rising(fwd, Live(es, now), low, high)
    decreases |es|
  {
    hide Recency;
    if es != [] {
      RisingLive(fwd, es[1..], Recency(fwd, es[0]) + 1, high, now);
      if es[0].expires <= now {
        RisingLower(fwd, Live(es[1..], now), Recency(fwd, es[0]) + 1, low, high, high);
      }
    }
  }

  lemma {:induction false} RisingWithout(fwd: Forward, es: seq<Entry>, low: nat, high: nat, name: Name)
    requires Rising(fwd, es, low, high)
    ensures Rising(fwd, Without(es, name), low, high)
    decreases |es|
  {
    hide Recency, SameName;
    if es != [] {
      RisingWithout(fwd, es[1..], Recency(fwd, es[0]) + 1, high, name);
      if SameName(es[0].name, name) {
        RisingLower(fwd, Without(es[1..], name), Recency(fwd, es[0]) + 1, low, high, high);
      }
    }
  }

  lemma {:induction false} RisingAppend(fwd: Forward, es: seq<Entry>, low: nat, high: nat, e: Entry)
    requires Rising(fwd, es, low, high) && high <= Recency(fwd, e)
    ensures Rising(fwd, es + [e], low, Recency(fwd, e) + 1)
    decreases |es|
  {
    hide Recency;
    if es == [] {
      assert (es + [e])[1..] == [];
    } else {
      assert (es + [e])[1..] == es[1..] + [e];
      RisingAppend(fwd, es[1..], Recency(fwd, es[0]) + 1, high, e);
    }
  }

  lemma {:induction false} RisingAbove(fwd: Forward, es: seq<Entry>, low: nat, high: nat, e: Entry)
    requires Rising(fwd, es, low, high) && e in es
    ensures low <= Recency(fwd, e) < high
    decreases |es|
  {
    hide Recency;
    if e in es[1..] {
      RisingAbove(fwd, es[1..], Recency(fwd, es[0]) + 1, high, e);
    } else {
      RisingLast(fwd, es[1..], Recency(fwd, es[0]) + 1, high);
    }
  }

  lemma {:induction false} RisingLast(fwd: Forward, es: seq<Entry>, low: nat, high: nat)
    requires Rising(fwd, es, low, high)
    ensures low <= high
    decreases |es|
  {
    hide Recency;
    if es != [] {
      RisingLast(fwd, es[1..], Recency(fwd, es[0]) + 1, high);
    }
  }

  /** The front of the list is the one mapping of least recency. */
  lemma FrontIsLeast(fwd: Forward, es: seq<Entry>, low: nat, high: nat, e: Entry)
    requires Rising(fwd, es, low, high) && e in es && e != es[0]
    ensures Recency(fwd, es[0]) < Recency(fwd, e)
  {
    RisingAbove(fwd, es[1..], Recency(fwd, es[0]) + 1, high, e);
  }

  // ---------------------------------------------------------------------------------------
  // Looking up

  lemma FindInMap(fwd: Forward, rev: Reverse, es: seq<Entry>, next: nat, name: Name)
    requires Rep(fwd, rev, es, next)
    ensures Find(es, name).Some? <==> Fold(name) in fwd
    ensures Find(es, name).Some? ==> Find(es, name).value == EntryOf(fwd[Fold(name)])
  {
    hide Rising, Inverse;
  }

  lemma HolderInMap(fwd: Forward, rev: Reverse, es: seq<Entry>, next: nat, a: nat)
    requires Rep(fwd, rev, es, next)
    ensures Holder(es, a).Some? <==> a in rev
    ensures a in rev ==> Fold(rev[a]) in fwd && fwd[Fold(rev[a])].address == a && fwd[Fold(rev[a])].name == rev[a]
  {
    hide Rising;
    if Holder(es, a).Some? {
      var e := Holder(es, a).value;
      assert fwd[Fold(e.name)].address == a;
    }
    if a in rev {
      var m := fwd[Fold(rev[a])];
      assert EntryOf(m) in es;
    }
  }

  lemma HolderIs(fwd: Forward, rev: Reverse, es: seq<Entry>, next: nat, a: nat)
    requires Rep(fwd, rev, es, next) && Distinct(es) && a in rev
    ensures Fold(rev[a]) in fwd && Holder(es, a) == Some(EntryOf(fwd[Fold(rev[a])]))
  {
    hide Rising, SameName;
    HolderInMap(fwd, rev, es, next, a);
    var e := EntryOf(fwd[Fold(rev[a])]);
    assert e in es;
    DistinctUnique(es, e, Holder(es, a).value);
  }

  // ---------------------------------------------------------------------------------------
  // Changing

  /** Both maps without one name. */
  lemma RemoveInverse(fwd: Forward, rev: Reverse, k: Name)
    requires Inverse(fwd, rev) && k in fwd
    ensures Inverse(fwd - {k}, rev - {fwd[k].address})
  {
  }

  /** The forward map partway through a purge, with `expired` still to be removed. */
  ghost predicate PartPurged(was: Forward, fwd: Forward, now: nat, expired: set<Name>) {
    && (forall k :: k in expired ==> k in was && was[k].expires <= now)
    && (forall k :: k in fwd <==> k in was && (was[k].expires > now || k in expired))
    && (forall k :: k in fwd ==> fwd[k] == was[k])
  }

  lemma NonePurged(fwd: Forward, now: nat)
    ensures PartPurged(fwd, fwd, now, set k | k in fwd && fwd[k].expires <= now)
  {
  }

  lemma OnePurged(was: Forward, fwd: Forward, now: nat, expired: set<Name>, name: Name)
    requires PartPurged(was, fwd, now, expired) && name in expired
    ensures name in fwd && |fwd - {name}| == |fwd| - 1
    ensures PartPurged(was, fwd - {name}, now, expired - {name})
  {
    assert (fwd - {name}).Keys == fwd.Keys - {name};
  }

  /** Purging: the forward map keeps exactly what is live. */
  lemma PurgeRep(fwd: Forward, rev: Reverse, es: seq<Entry>, next: nat, now: nat, gwd: Forward, sev: Reverse)
    requires Rep(fwd, rev, es, next) && Inverse(gwd, sev)
    requires PartPurged(fwd, gwd, now, {})
    ensures Rep(gwd, sev, Live(es, now), next)
  {
    hide Rising, Inverse, Live;
    var live := Live(es, now);
    forall e ensures e in live <==> e in es && e.expires > now {
      LiveIn(es, now, e);
    }
    RisingLive(fwd, es, 0, next, now);
    RisingSame(fwd, gwd, live, 0, next);
  }

  lemma FirstNameOnce(es: seq<Entry>)
    requires Distinct(es) && es != []
    ensures forall e :: e in es[1..] ==> Fold(e.name) != Fold(es[0].name)
  {
  }

  lemma EvictListed(fwd: Forward, es: seq<Entry>, k: Name)
    requires Listed(fwd, es) && Covered(fwd, es) && es != [] && k == Fold(es[0].name)
    requires forall e :: e in es[1..] ==> Fold(e.name) != k
    ensures Listed(fwd - {k}, es[1..]) && Covered(fwd - {k}, es[1..])
  {
    hide Fold;
    assert forall e :: e in es <==> e == es[0] || e in es[1..];
  }

  lemma RisingTail(fwd: Forward, es: seq<Entry>, next: nat)
    requires Rising(fwd, es, 0, next) && es != []
    ensures Rising(fwd, es[1..], 0, next)
  {
    RisingLower(fwd, es[1..], Recency(fwd, es[0]) + 1, 0, next, next);
  }

  lemma EvictRep(fwd: Forward, rev: Reverse, es: seq<Entry>, next: nat)
    requires Rep(fwd, rev, es, next) && Distinct(es) && es != []
    ensures var k := Fold(es[0].name);
      k in fwd && Rep(fwd - {k}, rev - {fwd[k].address}, es[1..], next)
  {
    hide Inverse, Fold, Rising;
    var k := Fold(es[0].name);
    assert es[0] in es;
    RemoveInverse(fwd, rev, k);
    FirstNameOnce(es);
    EvictListed(fwd, es, k);
    RisingTail(fwd, es, next);
    RisingSame(fwd, fwd - {k}, es[1..], 0, next);
  }

  lemma TouchInverse(fwd: Forward, rev: Reverse, k: Name, recency: nat)
    requires Inverse(fwd, rev) && k in fwd
    ensures Inverse(fwd[k := fwd[k].(recency := recency)], rev)
  {
  }

  lemma TouchListed(fwd: Forward, es: seq<Entry>, kept: seq<Entry>, k: Name, recency: nat)
    requires Listed(fwd, es) && Covered(fwd, es) && k in fwd
    requires forall x :: x in kept <==> x in es && Fold(x.name) != k
    ensures Listed(fwd[k := fwd[k].(recency := recency)], kept + [EntryOf(fwd[k])])
    ensures Covered(fwd[k := fwd[k].(recency := recency)], kept + [EntryOf(fwd[k])])
  {
    hide Fold;
    var e, gwd := EntryOf(fwd[k]), fwd[k := fwd[k].(recency := recency)];
    assert forall x :: x in kept + [e] <==> x in kept || x == e;
    forall j | j in gwd ensures Fold(gwd[j].name) == j && EntryOf(gwd[j]) in kept + [e] {
      if j != k {
        assert EntryOf(fwd[j]) in es;
      }
    }
  }

  /** A new recency for one mapping moves it to the back. */
  lemma TouchRep(fwd: Forward, rev: Reverse, es: seq<Entry>, next: nat, k: Name)
    requires Rep(fwd, rev, es, next) && k in fwd
    ensures var e := EntryOf(fwd[k]);
      Rep(fwd[k := fwd[k].(recency := next)], rev, Without(es, e.name) + [e], next + 1)
  {
    hide Without, Rising, Inverse, Listed;
    var e := EntryOf(fwd[k]);
    var gwd, kept := fwd[k := fwd[k].(recency := next)], Without(es, e.name);
    assert Fold(e.name) == k;
    forall x ensures x in kept <==> x in es && Fold(x.name) != k {
      WithoutIn(es, e.name, x);
    }
    TouchInverse(fwd, rev, k, next);
    TouchListed(fwd, es, kept, k, next);
    hide Covered;
    RisingWithout(fwd, es, 0, next, e.name);
    RisingSame(fwd, gwd, kept, 0, next);
    RisingAppend(gwd, kept, 0, next, e);
  }

  lemma AppendRep(fwd: Forward, rev: Reverse, es: seq<Entry>, next: nat, m: Mapping)
    requires Rep(fwd, rev, es, next) && Fold(m.name) !in fwd && m.address !in rev && m.recency == next
    ensures Rep(fwd[Fold(m.name) := m], rev[m.address := m.name], es + [EntryOf(m)], next + 1)
  {
    var gwd := fwd[Fold(m.name) := m];
    hide Rising;
    assert Inverse(gwd, rev[m.address := m.name]);
    assert Listed(gwd, es + [EntryOf(m)]) && Covered(gwd, es + [EntryOf(m)]);
    RisingSame(fwd, gwd, es, 0, next);
    RisingAppend(gwd, es, 0, next, EntryOf(m));
  }

  /** The least of a part of the forward map, by recency and then by order of allocation. */
  method FindLeast(part: Forward) returns (least: Name)
    requires |part| > 0
    ensures least in part
    ensures forall k :: k in part ==>
      part[least].recency < part[k].recency
      || (part[least].recency == part[k].recency && part[least].allocation <= part[k].allocation)
  {
    var left := part.Keys;
    assert left != {};
    least :| least in left;
    while left != {}
      invariant left <= part.Keys && least in part
      invariant forall k :: k in part && k !in left ==>
        part[least].recency < part[k].recency
        || (part[least].recency == part[k].recency && part[least].allocation <= part[k].allocation)
      decreases |left|
    {
      var k :| k in left;
      if part[k].recency < part[least].recency
         || (part[k].recency == part[least].recency && part[k].allocation < part[least].allocation) {
        least := k;
      }
      left := left - {k};
    }
  }

  lemma LeastIsFront(fwd: Forward, es: seq<Entry>, low: nat, high: nat, part: Forward, least: Name)
    requires Rising(fwd, es, low, high) && es != [] && Listed(fwd, es)
    requires forall k :: k in part <==> k in FoldedNames(es)
    requires forall k :: k in part ==> k in fwd && part[k] == fwd[k]
    requires least in part && forall k :: k in part ==> part[least].recency <= part[k].recency
    ensures least == Fold(es[0].name)
  {
    hide Rising;
    assert es[0] in es;
    var front := Fold(es[0].name);
    assert front in part;
    var e :| e in es && Fold(e.name) == least;
    if e != es[0] {
      FrontIsLeast(fwd, es, low, high, e);
    }
  }

  class FamilyState {
    const kind: Kind
    const start: nat
    const end: nat
    var forward: Forward
    var reverse: Reverse
    var nextRecency: nat
    var nextAllocation: nat
    ghost var lru: seq<Entry>

    ghost function Abs(): Family
      reads this
    {
      Family(kind, start, end, lru)
    }

    ghost predicate Valid()
      reads this
    {
      FamilyInv(Abs()) && Rep(forward, reverse, lru, nextRecency)
    }

    constructor (kind: Kind, start: nat, end: nat)
      requires start <= end < Space(kind)
      ensures Valid() && Abs() == Family(kind, start, end, [])
    {
      this.kind, this.start, this.end := kind, start, end;
      forward, reverse := map[], map[];
      nextRecency, nextAllocation := 0, 0;
      lru := [];
    }

    /** Removes what has expired and says how much that was. */
    method PurgeExpired(now: nat) returns (removed: nat)
      requires Valid()
      modifies this
      ensures Valid() && Abs() == Purge(old(Abs()), now)
      ensures removed + |forward| == |old(forward)|
    {
      hide Rising, Listed, Covered, Inverse, Live, PartPurged, FamilyInv;
      NonePurged(forward, now);
      var expired := set k | k in forward && forward[k].expires <= now;
      removed := 0;
      while expired != {}
        invariant Inverse(forward, reverse) && nextRecency == old(nextRecency) && lru == old(lru)
        invariant PartPurged(old(forward), forward, now, expired)
        invariant removed + |forward| == |old(forward)|
        decreases |expired|
      {
        var name :| name in expired;
        OnePurged(old(forward), forward, now, expired, name);
        RemoveInverse(forward, reverse, name);
        var mapping := forward[name];
        forward := forward - {name};
        reverse := reverse - {mapping.address};
        expired := expired - {name};
        removed := removed + 1;
      }
      PurgeRep(old(forward), old(reverse), lru, nextRecency, now, forward, reverse);
      PurgeInv(Abs(), now);
      lru := Live(lru, now);
    }

    method Touch() returns (recency: nat)
      modifies this`nextRecency
      ensures recency == old(nextRecency) && nextRecency == recency + 1
    {
      recency := nextRecency;
      nextRecency := nextRecency + 1;
    }

    /** Removes the least recently used mapping. */
    method EvictLru()
      requires Valid() && lru != []
      modifies this
      ensures Valid() && Abs() == old(Abs()).(entries := old(lru)[1..])
      ensures forall k :: k in forward ==> k in old(forward)
    {
      hide Rising, Listed, Covered, Inverse;
      EvictRep(forward, reverse, lru, nextRecency);
      var name := FindLeast(forward);
      EvictedFront(forward, reverse, lru, nextRecency, name);
      var mapping := forward[name];
      forward := forward - {name};
      reverse := reverse - {mapping.address};
      lru := lru[1..];
    }

    /** Allocates unless the probing loop would not end. */
    method AllocateWithTtl(name: Name, hash: Name -> u64, now: nat, ttl: nat, horizon: nat) returns (r: Given)
      requires Valid() && Allocate(Abs(), hash, name, now, ttl, horizon).1 != Loops
      modifies this
      ensures Valid() && (Abs(), r) == Allocate(old(Abs()), hash, name, now, ttl, horizon)
    {
      hide Rising, Listed, Covered, Inverse, Distinct, Probe, Candidate, Without, Live, Find;
      if now + ttl > horizon {
        return TtlOutOfRange;
      }
      AllocateInv(Abs(), hash, name, now, ttl, horizon);
      var _ := PurgeExpired(now);
      ghost var g := Abs();
      FindInMap(forward, reverse, lru, nextRecency, name);
      if Fold(name) in forward {
        r := Reuse(Fold(name), now);
        return;
      }
      var capacity := Capacity(Family(kind, start, end, []));
      ForwardSize(forward, reverse, lru, nextRecency);
      if capacity.Some? && |forward| >= capacity.value {
        EvictLru();
      }
      assert Abs() == MakeFree(g);
      r := MapNew(name, hash, now, ttl);
    }

    method Reuse(k: Name, now: nat) returns (r: Given)
      requires Valid() && k in forward && forward[k].expires > now
      modifies this
      ensures Valid()
      ensures var e := EntryOf(old(forward)[k]);
        && Abs() == old(Abs()).(entries := Without(old(lru), e.name) + [e])
        && r == Given(e.address, e.expires - now)
    {
      hide Rising, Listed, Inverse, Without;
      TouchRep(forward, reverse, lru, nextRecency, k);
      TouchInv(Abs(), EntryOf(forward[k]));
      var recency := Touch();
      var mapping := forward[k].(recency := recency);
      forward := forward[k := mapping];
      r := Given(mapping.address, mapping.expires - now);
      lru := Without(lru, mapping.name) + [EntryOf(mapping)];
    }

    /** The probing loop, where it ends. */
    method FindFree(hash: u64) returns (address: nat)
      requires Valid() && Probe(Abs(), Candidate(Abs(), hash), Length(Abs())).Some?
      ensures Probe(Abs(), Candidate(Abs(), hash), Length(Abs())) == Some(address)
      ensures address !in reverse
    {
      hide Rising, Listed, Covered, Inverse, Candidate;
      address := Candidate(Family(kind, start, end, []), hash);
      SameCandidate(Abs(), hash);
      ghost var left := Length(Abs());
      while address in reverse
        invariant Probe(Abs(), address, left) == Probe(Abs(), Candidate(Abs(), hash), Length(Abs()))
        decreases left
      {
        HolderInMap(forward, reverse, lru, nextRecency, address);
        address := Advance(Family(kind, start, end, []), address);
        left := left - 1;
      }
      HolderInMap(forward, reverse, lru, nextRecency, address);
    }

    /** Probes, then enters the mapping in both maps. */
    method MapNew(name: Name, hash: Name -> u64, now: nat, ttl: nat) returns (r: Given)
      requires Valid() && Fold(name) !in forward
      requires Probe(Abs(), Candidate(Abs(), hash(Fold(name))), Length(Abs())).Some?
      requires FamilyInv(Abs().(entries := lru + [
                 Entry(name, Probe(Abs(), Candidate(Abs(), hash(Fold(name))), Length(Abs())).value, now + ttl)]))
      modifies this
      ensures Valid()
      ensures var a := Probe(old(Abs()), Candidate(old(Abs()), hash(Fold(name))), Length(old(Abs()))).value;
        Abs() == old(Abs()).(entries := old(lru) + [Entry(name, a, now + ttl)]) && r == Given(a, ttl)
    {
      hide Rising, Listed, Covered, Inverse, Candidate, Distinct, Probe, AllInRange;
      var address := FindFree(hash(Fold(name)));
      AppendRep(forward, reverse, lru, nextRecency, Mapping(name, address, nextRecency, nextAllocation, now + ttl));
      var recency := Touch();
      var mapping := Mapping(name, address, recency, nextAllocation, now + ttl);
      nextAllocation := nextAllocation + 1;
      reverse := reverse[address := name];
      forward := forward[Fold(name) := mapping];
      lru := lru + [EntryOf(mapping)];
      r := Given(address, ttl);
    }

    method LookupWithTtl(address: nat, now: nat) returns (r: Option<(Name, nat)>)
      requires Valid()
      modifies this
      ensures Valid() && (Abs(), r) == Lookup(old(Abs()), address, now)
    {
      hide Rising, Listed, Covered, Inverse, Without, Live;
      var _ := PurgeExpired(now);
      if !(start <= address <= end) {
        return None;
      }
      HolderInMap(forward, reverse, lru, nextRecency, address);
      if address !in reverse {
        return None;
      }
      HolderIs(forward, reverse, lru, nextRecency, address);
      var name := reverse[address];
      var given := Reuse(Fold(name), now);
      r := Some((name, given.ttl));
    }

    /** The mappings in order of use, each with what is left of its life. */
    method Save(now: nat) returns (saved: seq<P.Saved>)
      requires Valid()
      ensures saved == P.SaveEntries(lru, kind, now)
    {
      hide Rising, Inverse, Listed, Covered, Distinct, P.SaveEntries, PartSaved;
      var rest := forward;
      saved := [];
      ghost var i: nat, low: nat := 0, 0;
      NothingSaved(forward, reverse, lru, nextRecency, kind, now);
      while |rest| > 0
        invariant i <= |lru| && PartSaved(forward, lru, i, low, nextRecency, rest)
        invariant P.SaveEntries(lru, kind, now) == saved + P.SaveEntries(lru[i..], kind, now)
        decreases |rest|
      {
        var name := FindLeast(rest);
        NextSaved(forward, lru, i, low, nextRecency, rest, name);
        SavedFrom(lru, i, kind, now);
        var mapping := rest[name];
        if mapping.expires >= now {
          saved := saved + [P.Saved(mapping.name, kind, mapping.address, mapping.expires - now)];
        }
        ghost var was := rest.Keys;
        rest := rest - {name};
        assert rest.Keys == was - {name};
        i, low := i + 1, mapping.recency + 1;
      }
      AllSaved(forward, lru, i, low, nextRecency, rest, kind, now);
    }

    /** Puts a saved mapping back; refuses a name or an address that is there already. */
    method Restore(name: Name, address: nat, expires: nat) returns (ok: bool)
      requires Valid() && start <= address <= end
      modifies this
      ensures Valid()
      ensures ok <==> Find(old(lru), name).None? && Holder(old(lru), address).None?
      ensures Abs() == if ok then old(Abs()).(entries := old(lru) + [Entry(name, address, expires)]) else old(Abs())
    {
      hide Rising, Listed, Covered, Inverse, Distinct;
      FindInMap(forward, reverse, lru, nextRecency, name);
      HolderInMap(forward, reverse, lru, nextRecency, address);
      if Fold(name) in forward || address in reverse {
        return false;
      }
      AppendRep(forward, reverse, lru, nextRecency, Mapping(name, address, nextRecency, nextAllocation, expires));
      AppendDistinct(lru, Entry(name, address, expires));
      var recency := Touch();
      var mapping := Mapping(name, address, recency, nextAllocation, expires);
      nextAllocation := nextAllocation + 1;
      reverse := reverse[address := name];
      forward := forward[Fold(name) := mapping];
      lru := lru + [EntryOf(mapping)];
      ok := true;
    }
  }

  lemma EvictedFront(fwd: Forward, rev: Reverse, es: seq<Entry>, next: nat, least: Name)
    requires Rep(fwd, rev, es, next) && es != []
    requires least in fwd && forall k :: k in fwd ==> fwd[least].recency <= fwd[k].recency
    ensures least == Fold(es[0].name)
  {
    hide Rising, Inverse;
    forall k ensures k in fwd <==> k in FoldedNames(es) {
      if k in fwd {
        assert EntryOf(fwd[k]) in es;
      }
    }
    LeastIsFront(fwd, es, 0, next, fwd, least);
  }

  lemma SameCandidate(f: Family, hash: u64)
    requires RangeOk(f)
    ensures Candidate(f.(entries := []), hash) == Candidate(f, hash)
  {
    hide Candidate;
    CandidateInRange(f, hash);
    CandidateInRange(f.(entries := []), hash);
  }

  /** There are as many names as mappings in the list. */
  lemma ForwardSize(fwd: Forward, rev: Reverse, es: seq<Entry>, next: nat)
    requires Rep(fwd, rev, es, next) && Distinct(es)
    ensures |fwd| == |es|
  {
    NameCount(es);
    assert fwd.Keys == FoldedNames(es);
  }

  ghost function FoldedNames(es: seq<Entry>): set<Name> {
    set e | e in es :: Fold(e.name)
  }

  lemma {:induction false} NameCount(es: seq<Entry>)
    requires Distinct(es)
    ensures |FoldedNames(es)| == |es|
  {
    if es != [] {
      NameCount(es[1..]);
      assert FoldedNames(es) == FoldedNames(es[1..]) + {Fold(es[0].name)};
    }
  }

  /** Partway through saving: `rest` holds the mappings from the `i`-th on. */
  ghost predicate PartSaved(fwd: Forward, es: seq<Entry>, i: nat, low: nat, high: nat, rest: Forward) {
    && i <= |es| && Rising(fwd, es[i..], low, high)
    && (forall k :: k in rest <==> k in FoldedNames(es[i..]))
    && (forall k :: k in rest ==> k in fwd && rest[k] == fwd[k])
  }

  lemma NothingSaved(fwd: Forward, rev: Reverse, es: seq<Entry>, next: nat, kind: Kind, now: nat)
    requires Rep(fwd, rev, es, next)
    ensures PartSaved(fwd, es, 0, 0, next, fwd)
    ensures P.SaveEntries(es, kind, now) == [] + P.SaveEntries(es[0..], kind, now)
  {
    hide Rising;
    assert es[0..] == es;
    forall k ensures k in fwd <==> k in FoldedNames(es) {
      if k in fwd {
        assert EntryOf(fwd[k]) in es;
      }
    }
  }

  lemma HasNames(es: seq<Entry>)
    requires es != []
    ensures FoldedNames(es) != {}
  {
    assert Fold(es[0].name) in FoldedNames(es);
  }

  lemma AllSaved(fwd: Forward, es: seq<Entry>, i: nat, low: nat, high: nat, rest: Forward, kind: Kind, now: nat)
    requires PartSaved(fwd, es, i, low, high, rest) && |rest| == 0
    ensures P.SaveEntries(es[i..], kind, now) == []
  {
    var tail := es[i..];
    assert rest.Keys == FoldedNames(tail);
    hide FoldedNames;
    if tail != [] {
      HasNames(tail);
    }
  }

  lemma SavedFrom(es: seq<Entry>, i: nat, kind: Kind, now: nat)
    requires i < |es|
    ensures P.SaveEntries(es[i..], kind, now)
         == (if es[i].expires >= now then [P.Saved(es[i].name, kind, es[i].address, es[i].expires - now)] else [])
            + P.SaveEntries(es[i + 1..], kind, now)
  {
    assert es[i..][0] == es[i] && es[i..][1..] == es[i + 1..];
  }

  /** The least of the mappings not yet saved is the next of the list. */
  lemma NextSaved(fwd: Forward, es: seq<Entry>, i: nat, low: nat, high: nat, rest: Forward, least: Name)
    requires PartSaved(fwd, es, i, low, high, rest) && Listed(fwd, es) && Distinct(es)
    requires least in rest && forall k :: k in rest ==> rest[least].recency <= rest[k].recency
    ensures i < |es| && EntryOf(rest[least]) == es[i]
    ensures PartSaved(fwd, es, i + 1, rest[least].recency + 1, high, rest - {least})
  {
    hide Distinct, Fold;
    var tail := es[i..];
    assert tail != [];
    assert tail[0] == es[i] && tail[1..] == es[i + 1..];
    LeastIsFront(fwd, tail, low, high, rest, least);
    SuffixDistinct(es, i);
    FirstFolded(tail);
  }

  lemma FirstFolded(es: seq<Entry>)
    requires Distinct(es) && es != []
    ensures FoldedNames(es[1..]) == FoldedNames(es) - {Fold(es[0].name)}
  {
    assert forall e :: e in es <==> e == es[0] || e in es[1..];
    assert forall e :: e in es[1..] ==> Fold(e.name) != Fold(es[0].name);
  }

  lemma {:induction false} SuffixDistinct(es: seq<Entry>, i: nat)
    requires Distinct(es) && i <= |es|
    ensures Distinct(es[i..])
    decreases i
  {
    if i > 0 {
      SuffixDistinct(es[1..], i - 1);
      assert es[1..][i - 1..] == es[i..];
    } else {
      assert es[0..] == es;
    }
  }

  // ---------------------------------------------------------------------------------------
  // Restoring a pool

  ghost function PoolOf(v4: FamilyState?, v6: FamilyState?, ttl: nat, horizon: nat): P.Pool
    reads v4, v6
  {
    P.Pool(if v4 == null then None else Some(v4.Abs()), if v6 == null then None else Some(v6.Abs()), ttl, horizon)
  }

  ghost predicate ValidPair(v4: FamilyState?, v6: FamilyState?)
    reads v4, v6
  {
    (v4 != null ==> v4.Valid() && v4.kind == V4) && (v6 != null ==> v6.Valid() && v6.kind == V6) && (v4 != v6 || v4 == null)
  }

  /** One saved mapping into the family it belongs to. */
  method RestoreMapping(v4: FamilyState?, v6: FamilyState?, ttl: nat, horizon: nat, m: P.Saved, elapsed: nat, now: nat)
    returns (ok: bool)
    requires ValidPair(v4, v6)
    modifies v4, v6
    ensures ValidPair(v4, v6)
    ensures ok <==> P.RestoreOne(old(PoolOf(v4, v6, ttl, horizon)), m, elapsed, now).Some?
    ensures ok ==> P.RestoreOne(old(PoolOf(v4, v6, ttl, horizon)), m, elapsed, now).value == PoolOf(v4, v6, ttl, horizon)
  {
    hide Rep, FamilyInv;
    if m.remaining > ttl {
      return false;
    }
    if m.remaining <= elapsed {
      return true;
    }
    var expires := now + (m.remaining - elapsed);
    if expires > horizon {
      return false;
    }
    var family := if m.kind == V4 then v4 else v6;
    if family == null || !(family.start <= m.address <= family.end) {
      return false;
    }
    ok := family.Restore(m.name, m.address, expires);
  }

  /** Builds a pool from a snapshot; no pool on an invalid one. */
  method RestorePool(s: P.Snapshot, now: nat, horizon: nat) returns (ok: bool, v4: FamilyState?, v6: FamilyState?)
    requires (s.range4.Some? ==> s.range4.value.1 < Space(V4)) && (s.range6.Some? ==> s.range6.value.1 < Space(V6))
    ensures ok <==> P.Restore(s, now, horizon).Some?
    ensures ok ==> ValidPair(v4, v6) && PoolOf(v4, v6, s.ttl, horizon) == P.Restore(s, now, horizon).value
    ensures ok ==> (v4 != null ==> fresh(v4)) && (v6 != null ==> fresh(v6))
  {
    hide Rep, FamilyInv, P.RestoreOne;
    v4, v6 := null, null;
    if !P.ValidTtl(s.ttl) || now < s.capturedAt {
      return false, v4, v6;
    }
    if P.RangeFails(s.range4) || P.RangeFails(s.range6) || (s.range4.None? && s.range6.None?) {
      return false, v4, v6;
    }
    if s.range4.Some? {
      v4 := new FamilyState(V4, s.range4.value.0, s.range4.value.1);
    }
    if s.range6.Some? {
      v6 := new FamilyState(V6, s.range6.value.0, s.range6.value.1);
    }
    var elapsed := now - s.capturedAt;
    var i := 0;
    assert s.mappings[0..] == s.mappings;
    while i < |s.mappings|
      invariant 0 <= i <= |s.mappings| && ValidPair(v4, v6)
      invariant (v4 != null ==> fresh(v4)) && (v6 != null ==> fresh(v6))
      invariant P.Restore(s, now, horizon)
             == P.RestoreAll(PoolOf(v4, v6, s.ttl, horizon), s.mappings[i..], elapsed, now)
    {
      assert s.mappings[i..][0] == s.mappings[i] && s.mappings[i..][1..] == s.mappings[i + 1..];
      var restored := RestoreMapping(v4, v6, s.ttl, horizon, s.mappings[i], elapsed, now);
      if !restored {
        return false, v4, v6;
      }
      i := i + 1;
    }
    return true, v4, v6;
  }
}
