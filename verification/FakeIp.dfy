/** One address family of the Fake IP pool: live mappings from the least to the most recently used. */
module FakeIp {
  import opened Base
  import opened Names

  type u64 = x: int | 0 <= x < 0x1_0000_0000_0000_0000

  /** Which family: 32-bit or 128-bit addresses. */
  datatype Kind = V4 | V6

  /** How many addresses the address type holds. */
  function Space(kind: Kind): (n: nat)
    ensures n > 0
  {
    if kind == V4 then 0x1_0000_0000 else 0x1_0000_0000_0000_0000_0000_0000_0000_0000
  }

  datatype Entry = Entry(name: Name, address: nat, expires: nat)

  datatype Family = Family(kind: Kind, start: nat, end: nat, entries: seq<Entry>)

  /** `Loops` says that the source's probing loop would not end. */
  datatype Given = Given(address: nat, ttl: nat) | TtlOutOfRange | Loops

  // ---------------------------------------------------------------------------------------
  // Lists of mappings

  function Live(es: seq<Entry>, now: nat): (r: seq<Entry>)
    ensures forall e :: e in r ==> e.expires > now
  {
    if es == [] then []
    else if es[0].expires > now then [es[0]] + Live(es[1..], now)
    else Live(es[1..], now)
  }

  function Without(es: seq<Entry>, name: Name): seq<Entry> {
    if es == [] then []
    else if SameName(es[0].name, name) then Without(es[1..], name)
    else [es[0]] + Without(es[1..], name)
  }

  function Find(es: seq<Entry>, name: Name): (e: Option<Entry>)
    ensures e.Some? ==> e.value in es && SameName(e.value.name, name)
    ensures e.None? ==> forall x :: x in es ==> !SameName(x.name, name)
  {
    if es == [] then None else if SameName(es[0].name, name) then Some(es[0]) else Find(es[1..], name)
  }

  function Holder(es: seq<Entry>, address: nat): (e: Option<Entry>)
    ensures e.Some? ==> e.value in es && e.value.address == address
    ensures e.None? ==> forall x :: x in es ==> x.address != address
  {
    if es == [] then None else if es[0].address == address then Some(es[0]) else Holder(es[1..], address)
  }

  /** No other mapping has this name or this address. */
  predicate Apart(e: Entry, es: seq<Entry>) {
    forall x :: x in es ==> !SameName(x.name, e.name) && x.address != e.address
  }

  predicate Distinct(es: seq<Entry>) {
    es == [] || (Apart(es[0], es[1..]) && Distinct(es[1..]))
  }

  lemma {:induction false} LiveIn(es: seq<Entry>, now: nat, e: Entry)
    ensures e in Live(es, now) <==> e in es && e.expires > now
  {
    if es != [] {
      LiveIn(es[1..], now, e);
    }
  }

  lemma {:induction false} WithoutIn(es: seq<Entry>, name: Name, e: Entry)
    ensures e in Without(es, name) <==> e in es && !SameName(e.name, name)
  {
    hide SameName;
    if es != [] {
      WithoutIn(es[1..], name, e);
    }
  }

  lemma {:induction false} LiveDistinct(es: seq<Entry>, now: nat)
    requires Distinct(es)
    ensures Distinct(Live(es, now))
  {
    hide SameName;
    if es != [] {
      LiveDistinct(es[1..], now);
      forall e | e in Live(es[1..], now) ensures e in es[1..] {
        LiveIn(es[1..], now, e);
      }
    }
  }

  lemma {:induction false} WithoutDistinct(es: seq<Entry>, name: Name)
    requires Distinct(es)
    ensures Distinct(Without(es, name))
  {
    hide SameName;
    if es != [] {
      WithoutDistinct(es[1..], name);
      forall e | e in Without(es[1..], name) ensures e in es[1..] {
        WithoutIn(es[1..], name, e);
      }
    }
  }

  lemma {:induction false} AppendDistinct(es: seq<Entry>, e: Entry)
    requires Distinct(es) && Apart(e, es)
    ensures Distinct(es + [e])
  {
    hide SameName;
    if es == [] {
      assert es + [e] == [e];
    } else {
      assert (es + [e])[1..] == es[1..] + [e];
      AppendDistinct(es[1..], e);
      assert forall x :: x in es[1..] + [e] ==> x in es[1..] || x == e;
      assert !SameName(es[0].name, e.name) ==> !SameName(e.name, es[0].name) by {
        SameNameSymmetric(es[0].name, e.name);
      }
    }
  }

  lemma SameNameSymmetric(a: Name, b: Name)
    ensures SameName(a, b) == SameName(b, a)
  {
  }

  /** A name and an address each belong to one mapping. */
  lemma {:induction false} DistinctUnique(es: seq<Entry>, e: Entry, f: Entry)
    requires Distinct(es) && e in es && f in es
    ensures SameName(e.name, f.name) || e.address == f.address ==> e == f
  {
    hide SameName;
    SameNameSymmetric(e.name, f.name);
    if es[0] != e && es[0] != f {
      DistinctUnique(es[1..], e, f);
    }
  }

  lemma {:induction false} LiveTwice(es: seq<Entry>, early: nat, late: nat)
    requires early <= late
    ensures Live(Live(es, early), late) == Live(es, late)
  {
    if es != [] {
      LiveTwice(es[1..], early, late);
    }
  }

  // ---------------------------------------------------------------------------------------
  // Address arithmetic

  predicate RangeOk(f: Family) {
    f.start <= f.end < Space(f.kind)
  }

  function Length(f: Family): nat
    requires RangeOk(f)
  {
    f.end - f.start + 1
  }

  predicate InRange(f: Family, a: nat) {
    f.start <= a <= f.end
  }

  /** The number of addresses, unless it does not fit the address type. */
  function Capacity(f: Family): Option<nat>
    requires RangeOk(f)
  {
    if f.end - f.start + 1 >= Space(f.kind) then None else Some(f.end - f.start + 1)
  }

  /** Where probing starts: 64-bit arithmetic for IPv4, wrapping 128-bit arithmetic for IPv6. */
  function Candidate(f: Family, hash: u64): nat
    requires RangeOk(f)
  {
    match f.kind
    case V4 => (f.start + hash % (f.end - f.start + 1) % 0x1_0000_0000) % Space(V4)
    case V6 =>
      if Capacity(f).Some? then (f.start + hash % Capacity(f).value) % Space(V6) else (f.start + hash) % Space(V6)
  }

  /** The next address, back at the start after the end; the increment wraps at the address type. */
  function Advance(f: Family, a: nat): nat {
    if a == f.end then f.start else (a + 1) % Space(f.kind)
  }

  /** For both families the candidate is the start plus the hash reduced to the range: nothing overflows or wraps. */
  lemma CandidateInRange(f: Family, hash: u64)
    requires RangeOk(f)
    ensures Candidate(f, hash) == f.start + hash % Length(f) && InRange(f, Candidate(f, hash))
  {
    var n := Length(f);
    var r := Reduced(hash, n);
    match f.kind
    case V4 =>
      Unwrapped(r, Space(V4));
      Unwrapped(f.start + r, Space(V4));
    case V6 =>
      Unwrapped(f.start + r, Space(V6));
      if Capacity(f).None? {
        Unwrapped(hash, n);
      }
  }

  lemma Reduced(x: nat, n: nat) returns (r: nat)
    requires n > 0
    ensures r == x % n < n
  {
    r := x % n;
  }

  lemma Unwrapped(x: nat, n: nat)
    requires x < n
    ensures x % n == x
  {
  }

  /** The `k`-th address from `c`, going round the range. */
  function Nth(f: Family, c: nat, k: nat): int {
    if c + k <= f.end then c + k else c + k - (f.end - f.start + 1)
  }

  lemma AdvanceNth(f: Family, c: nat, k: nat)
    requires RangeOk(f) && InRange(f, c) && k < Length(f)
    ensures InRange(f, Nth(f, c, k)) && Advance(f, Nth(f, c, k)) == Nth(f, c, k + 1)
  {
  }

  predicate Taken(f: Family, a: nat) {
    Holder(f.entries, a).Some?
  }

  /** The probing loop, for at most `left` turns. */
  function Probe(f: Family, a: nat, left: nat): Option<nat>
    decreases left
  {
    if left == 0 then None else if Taken(f, a) then Probe(f, Advance(f, a), left - 1) else Some(a)
  }

  /** The first free address in circular order from the candidate. */
  ghost predicate FirstFree(f: Family, c: nat, a: nat, k: nat)
    requires RangeOk(f)
  {
    && k < Length(f) && a == Nth(f, c, k) && !Taken(f, a)
    && forall j :: 0 <= j < k && Nth(f, c, j) >= 0 ==> Taken(f, Nth(f, c, j))
  }

  ghost predicate FreeFrom(f: Family, c: nat, a: nat)
    requires RangeOk(f)
  {
    exists k :: FirstFree(f, c, a, k)
  }

  lemma {:induction false} ProbeNth(f: Family, c: nat, k: nat)
    requires RangeOk(f) && InRange(f, c) && k <= Length(f)
    requires forall j :: 0 <= j < k && Nth(f, c, j) >= 0 ==> Taken(f, Nth(f, c, j))
    ensures Nth(f, c, k) >= 0
    ensures var r := Probe(f, Nth(f, c, k), Length(f) - k);
      if r.Some? then FreeFrom(f, c, r.value)
      else forall j :: 0 <= j < Length(f) && Nth(f, c, j) >= 0 ==> Taken(f, Nth(f, c, j))
    decreases Length(f) - k
  {
    hide Taken, Nth, Advance;
    if k < Length(f) {
      AdvanceNth(f, c, k);
      if Taken(f, Nth(f, c, k)) {
        ProbeNth(f, c, k + 1);
      } else {
        assert FirstFree(f, c, Nth(f, c, k), k);
      }
    } else {
      LastNth(f, c);
    }
  }

  lemma LastNth(f: Family, c: nat)
    requires RangeOk(f) && InRange(f, c)
    ensures Nth(f, c, Length(f)) == c
  {
  }

  lemma NthOf(f: Family, c: nat, a: nat)
    requires RangeOk(f) && InRange(f, c) && InRange(f, a)
    ensures var k := if a >= c then a - c else a - c + Length(f); 0 <= k < Length(f) && Nth(f, c, k) == a
  {
  }

  /** Probing from a candidate ends within the size of the range, on the first free address, whenever there is one. */
  lemma ProbeFindsFirstFree(f: Family, c: nat)
    requires RangeOk(f) && InRange(f, c)
    ensures var r := Probe(f, c, Length(f));
      && (r.Some? ==> InRange(f, r.value) && FreeFrom(f, c, r.value))
      && (r.None? <==> forall a :: InRange(f, a) ==> Taken(f, a))
  {
    assert Nth(f, c, 0) == c;
    ProbeNth(f, c, 0);
    var r := Probe(f, c, Length(f));
    if r.Some? {
      var k :| FirstFree(f, c, r.value, k);
      AdvanceNth(f, c, k);
    } else {
      forall a | InRange(f, a) ensures Taken(f, a) {
        NthOf(f, c, a);
      }
    }
  }

  // ---------------------------------------------------------------------------------------
  // Room in the range

  function Addresses(es: seq<Entry>): set<nat> {
    set e | e in es :: e.address
  }

  function Range(start: nat, end: nat): (r: set<nat>)
    requires start <= end
    ensures forall a :: a in r <==> start <= a <= end
    decreases end
  {
    if start == end then {start} else Range(start, end - 1) + {end}
  }

  lemma {:induction false} RangeSize(start: nat, end: nat)
    requires start <= end
    ensures |Range(start, end)| == end - start + 1
    decreases end
  {
    if start < end {
      RangeSize(start, end - 1);
    }
  }

  lemma {:induction false} AddressCount(es: seq<Entry>)
    requires Distinct(es)
    ensures |Addresses(es)| == |es|
  {
    if es != [] {
      AddressCount(es[1..]);
      assert Addresses(es) == Addresses(es[1..]) + {es[0].address};
    }
  }

  lemma SubsetSize(a: set<nat>, b: set<nat>)
    requires a <= b
    ensures |a| <= |b| && (|a| == |b| ==> a == b)
  {
    assert b == a + (b - a);
  }

  predicate AllInRange(f: Family, es: seq<Entry>) {
    forall e :: e in es ==> InRange(f, e.address)
  }

  /** Names and addresses are distinct and every address is in the range. */
  predicate FamilyInv(f: Family) {
    RangeOk(f) && Distinct(f.entries) && AllInRange(f, f.entries)
  }

  /** The range has no free address exactly when there are as many mappings as addresses; never more. */
  lemma FullIff(f: Family)
    requires FamilyInv(f)
    ensures |f.entries| <= Length(f)
    ensures (forall a :: InRange(f, a) ==> Taken(f, a)) <==> |f.entries| == Length(f)
  {
    RangeSize(f.start, f.end);
    AddressCount(f.entries);
    var used, range := Addresses(f.entries), Range(f.start, f.end);
    SubsetSize(used, range);
    assert forall a :: Taken(f, a) <==> a in used;
    if forall a :: InRange(f, a) ==> Taken(f, a) {
      assert forall a :: a in range ==> InRange(f, a);
      SubsetSize(range, used);
    }
    if |f.entries| == Length(f) {
      assert used == range;
      assert forall a :: InRange(f, a) ==> a in range;
    }
  }

  // ---------------------------------------------------------------------------------------
  // Operations

  function Purge(f: Family, now: nat): Family {
    f.(entries := Live(f.entries, now))
  }

  function MakeFree(f: Family): Family
    requires RangeOk(f)
  {
    if Capacity(f).Some? && |f.entries| >= Capacity(f).value then f.(entries := f.entries[1..]) else f
  }

  /** Reuses the live mapping of `name`, or maps it to the first free address after making room. */
  function Allocate(f: Family, hash: Name -> u64, name: Name, now: nat, ttl: nat, horizon: nat): (Family, Given)
    requires RangeOk(f)
  {
    if now + ttl > horizon then (f, TtlOutOfRange)
    else
      var g := Purge(f, now);
      match Find(g.entries, name)
      case Some(e) => (g.(entries := Without(g.entries, e.name) + [e]), Given(e.address, e.expires - now))
      case None =>
        var h := MakeFree(g);
        match Probe(h, Candidate(h, hash(Fold(name))), Length(h))
        case None => (h, Loops)
        case Some(a) => (h.(entries := h.entries + [Entry(name, a, now + ttl)]), Given(a, ttl))
  }

  function Lookup(f: Family, address: nat, now: nat): (Family, Option<(Name, nat)>) {
    var g := Purge(f, now);
    if !InRange(g, address) then (g, None)
    else
      match Holder(g.entries, address)
      case None => (g, None)
      case Some(e) => (g.(entries := Without(g.entries, e.name) + [e]), Some((e.name, e.expires - now)))
  }

  // ---------------------------------------------------------------------------------------
  // What every operation keeps

  lemma PurgeInv(f: Family, now: nat)
    requires FamilyInv(f)
    ensures FamilyInv(Purge(f, now))
  {
    LiveDistinct(f.entries, now);
    forall e | e in Live(f.entries, now) ensures e in f.entries {
      LiveIn(f.entries, now, e);
    }
  }

  /** Moving a mapping to the back keeps every mapping, that one included. */
  lemma TouchInv(f: Family, e: Entry)
    requires FamilyInv(f) && e in f.entries
    ensures FamilyInv(f.(entries := Without(f.entries, e.name) + [e]))
    ensures forall x :: x in Without(f.entries, e.name) + [e] <==> x in f.entries
  {
    hide SameName;
    WithoutDistinct(f.entries, e.name);
    forall x ensures x in Without(f.entries, e.name) <==> x in f.entries && x != e {
      WithoutIn(f.entries, e.name, x);
      if x in f.entries {
        DistinctUnique(f.entries, x, e);
        SameNameSelf(e.name);
      }
    }
    forall x | x in Without(f.entries, e.name) ensures !SameName(x.name, e.name) && x.address != e.address {
      DistinctUnique(f.entries, x, e);
    }
    AppendDistinct(Without(f.entries, e.name), e);
  }

  lemma SameNameSelf(n: Name)
    ensures SameName(n, n)
  {
  }

  lemma MakeFreeInv(f: Family)
    requires FamilyInv(f)
    ensures FamilyInv(MakeFree(f)) && MakeFree(f).start == f.start && MakeFree(f).end == f.end
    ensures Capacity(f).Some? ==> |MakeFree(f).entries| < Length(f)
  {
    FullIff(f);
  }

  /** The invariant is kept, and what is given is in the range. */
  lemma AllocateInv(f: Family, hash: Name -> u64, name: Name, now: nat, ttl: nat, horizon: nat)
    requires FamilyInv(f)
    ensures var (g, r) := Allocate(f, hash, name, now, ttl, horizon);
      FamilyInv(g) && (r.Given? ==> InRange(f, r.address))
  {
    hide Probe, Candidate, Find, Without, FirstFree, SameName;
    PurgeInv(f, now);
    var g := Purge(f, now);
    match Find(g.entries, name)
    case Some(e) => TouchInv(g, e);
    case None =>
      var h := MakeFree(g);
      MakeFreeInv(g);
      var c := Candidate(h, hash(Fold(name)));
      CandidateInRange(h, hash(Fold(name)));
      ProbeFindsFirstFree(h, c);
      match Probe(h, c, Length(h))
      case Some(a) =>
        assert !Taken(h, a) by {
          var k :| FirstFree(h, c, a, k);
          ProbedFree(h, c, a, k);
        }
        AppendDistinct(h.entries, Entry(name, a, now + ttl));
      case None =>
  }

  lemma ProbedFree(f: Family, c: nat, a: nat, k: nat)
    requires RangeOk(f) && FirstFree(f, c, a, k)
    ensures !Taken(f, a)
  {
  }

  lemma LookupInv(f: Family, address: nat, now: nat)
    requires FamilyInv(f)
    ensures FamilyInv(Lookup(f, address, now).0)
  {
    hide Without;
    PurgeInv(f, now);
    var g := Purge(f, now);
    if InRange(g, address) && Holder(g.entries, address).Some? {
      TouchInv(g, Holder(g.entries, address).value);
    }
  }

  // ---------------------------------------------------------------------------------------
  // What allocation promises

  /** Allocation fails to end exactly when the range is the whole address space, full of live mappings of other names. */
  lemma LoopsIff(f: Family, hash: Name -> u64, name: Name, now: nat, ttl: nat, horizon: nat)
    requires FamilyInv(f)
    ensures Allocate(f, hash, name, now, ttl, horizon).1 == Loops
       <==> && now + ttl <= horizon && Find(Live(f.entries, now), name).None?
            && Length(f) == Space(f.kind) && |Live(f.entries, now)| == Length(f)
  {
    hide Probe, Candidate, Find, Without, FirstFree, SameName, Taken;
    PurgeInv(f, now);
    var g := Purge(f, now);
    MakeFreeInv(g);
    var h := MakeFree(g);
    FullIff(h);
    FullIff(g);
    CandidateInRange(h, hash(Fold(name)));
    ProbeFindsFirstFree(h, Candidate(h, hash(Fold(name))));
  }

  /** A live mapping is dropped only to make room in a range full of live mappings, and then it is the least recently used. */
  lemma DropsOnlyLru(f: Family, hash: Name -> u64, name: Name, now: nat, ttl: nat, horizon: nat, e: Entry)
    requires FamilyInv(f) && e in f.entries && now < e.expires
    requires e !in Allocate(f, hash, name, now, ttl, horizon).0.entries
    ensures |Live(f.entries, now)| == Length(f) && Live(f.entries, now)[0] == e
    ensures Find(Live(f.entries, now), name).None?
  {
    hide Probe, Candidate, Find, Without, SameName;
    PurgeInv(f, now);
    var g := Purge(f, now);
    LiveIn(f.entries, now, e);
    FullIff(g);
    match Find(g.entries, name)
    case Some(x) => TouchInv(g, x);
    case None =>
      assert e !in g.entries[1..];
  }

  /** `r` is `es` with the mapping `e` moved to the back, everything else in its order. */
  ghost predicate MovedToBack(es: seq<Entry>, e: Entry, r: seq<Entry>) {
    exists a, b :: es == a + [e] + b && r == a + b + [e]
  }

  lemma {:induction false} WithoutSplits(es: seq<Entry>, e: Entry) returns (a: seq<Entry>, b: seq<Entry>)
    requires Distinct(es) && e in es
    ensures es == a + [e] + b && Without(es, e.name) == a + b
  {
    hide SameName;
    if es[0] == e {
      SameNameSelf(e.name);
      a, b := [], es[1..];
      WithoutNone(es[1..], e.name);
    } else {
      DistinctUnique(es, es[0], e);
      a, b := WithoutSplits(es[1..], e);
      a := [es[0]] + a;
    }
  }

  lemma {:induction false} WithoutNone(es: seq<Entry>, name: Name)
    requires forall x :: x in es ==> !SameName(x.name, name)
    ensures Without(es, name) == es
  {
    hide SameName;
    if es != [] {
      assert es[0] in es;
      WithoutNone(es[1..], name);
    }
  }

  lemma TouchMoves(es: seq<Entry>, e: Entry)
    requires Distinct(es) && e in es
    ensures MovedToBack(es, e, Without(es, e.name) + [e])
  {
    hide Without, Distinct;
    var a, b := WithoutSplits(es, e);
    assert Without(es, e.name) + [e] == a + b + [e];
  }

  /** The live mappings that stay when a new one comes: all of them, less the front one in a full range. */
  function Staying(f: Family, now: nat): seq<Entry>
    requires RangeOk(f)
  {
    var live := Live(f.entries, now);
    if |live| == Length(f) then live[1..] else live
  }

  lemma StayingMakesFree(f: Family, now: nat)
    requires FamilyInv(f) && (Length(f) < Space(f.kind) || |Live(f.entries, now)| < Length(f))
    ensures MakeFree(Purge(f, now)) == f.(entries := Staying(f, now))
  {
    PurgeInv(f, now);
    FullIff(Purge(f, now));
  }

  /** No address is given exactly when the lifetime runs past the clock, and nothing changes then. */
  lemma AllocateRefuses(f: Family, hash: Name -> u64, name: Name, now: nat, ttl: nat, horizon: nat)
    requires RangeOk(f)
    ensures Allocate(f, hash, name, now, ttl, horizon).1 == TtlOutOfRange <==> now + ttl > horizon
    ensures now + ttl > horizon ==> Allocate(f, hash, name, now, ttl, horizon).0 == f
  {
  }

  /** A name with a live mapping gets that one again, moved to the back with address and expiry unchanged. */
  lemma AllocateReuses(f: Family, hash: Name -> u64, name: Name, now: nat, ttl: nat, horizon: nat, e: Entry)
    requires FamilyInv(f) && now + ttl <= horizon
    requires e in Live(f.entries, now) && SameName(e.name, name)
    ensures var (g, r) := Allocate(f, hash, name, now, ttl, horizon);
      && r == Given(e.address, e.expires - now)
      && g == f.(entries := g.entries) && MovedToBack(Live(f.entries, now), e, g.entries)
  {
    hide Probe, Candidate, Without, MovedToBack;
    PurgeInv(f, now);
    var live := Live(f.entries, now);
    var x := Find(live, name).value;
    assert x == e by {
      assert SameName(x.name, e.name);
      DistinctUnique(live, x, e);
    }
    TouchMoves(live, e);
  }

  /**
   A name without one gets the first free address in circular order from its candidate, at the back of the
   mappings that stay.
   */
  lemma AllocateOrder(f: Family, hash: Name -> u64, name: Name, now: nat, ttl: nat, horizon: nat)
    requires FamilyInv(f) && Allocate(f, hash, name, now, ttl, horizon).1.Given?
    requires Find(Live(f.entries, now), name).None?
    ensures var (g, r) := Allocate(f, hash, name, now, ttl, horizon);
      var stay := Staying(f, now);
      && r.ttl == ttl
      && g == f.(entries := stay + [Entry(name, r.address, now + ttl)])
      && FreeFrom(f.(entries := stay), f.start + hash(Fold(name)) % Length(f), r.address)
  {
    hide Allocate, FreeFrom, Staying, Live, Find, FamilyInv;
    LoopsIff(f, hash, name, now, ttl, horizon);
    FamilyRange(f);
    AllocateRefuses(f, hash, name, now, ttl, horizon);
    LiveFits(f, now);
    StayingMakesFree(f, now);
    NewMapping(f, hash, name, now, ttl, horizon);
  }

  lemma LiveFits(f: Family, now: nat)
    requires FamilyInv(f)
    ensures |Live(f.entries, now)| <= Length(f) <= Space(f.kind)
  {
    hide Live, Distinct;
    PurgeInv(f, now);
    FullIff(Purge(f, now));
  }

  lemma NewMapping(f: Family, hash: Name -> u64, name: Name, now: nat, ttl: nat, horizon: nat)
    requires FamilyInv(f) && Allocate(f, hash, name, now, ttl, horizon).1.Given?
    requires Find(Live(f.entries, now), name).None?
    ensures var (g, r), h := Allocate(f, hash, name, now, ttl, horizon), MakeFree(Purge(f, now));
      && r.ttl == ttl && g == h.(entries := h.entries + [Entry(name, r.address, now + ttl)])
      && h.start == f.start && h.end == f.end && RangeOk(h)
      && FreeFrom(h, f.start + hash(Fold(name)) % Length(f), r.address)
  {
    hide Probe, Candidate, Find, FreeFrom, Live, FamilyInv;
    PurgeInv(f, now);
    MakeFreeInv(Purge(f, now));
    var h := MakeFree(Purge(f, now));
    assert RangeOk(h) && Length(h) == Length(f) by {
      FamilyRange(h);
      FamilyRange(f);
    }
    CandidateInRange(h, hash(Fold(name)));
    ProbeFindsFirstFree(h, Candidate(h, hash(Fold(name))));
  }

  lemma FamilyRange(f: Family)
    requires FamilyInv(f)
    ensures RangeOk(f)
  {
  }

  /** The name's mapping after an allocation. */
  lemma AllocateLast(f: Family, hash: Name -> u64, name: Name, now: nat, ttl: nat, horizon: nat) returns (e: Entry)
    requires FamilyInv(f) && Allocate(f, hash, name, now, ttl, horizon).1.Given?
    ensures var (g, r) := Allocate(f, hash, name, now, ttl, horizon);
      e in g.entries && SameName(e.name, name) && e.address == r.address && e.expires == now + r.ttl
  {
    var (g, r) := Allocate(f, hash, name, now, ttl, horizon);
    if Find(Live(f.entries, now), name).Some? {
      e := Find(Live(f.entries, now), name).value;
      LiveIn(f.entries, now, e);
    } else {
      AllocateOrder(f, hash, name, now, ttl, horizon);
      SameNameSelf(name);
      e := Entry(name, r.address, now + ttl);
    }
  }

  /** A lookup of a live mapping's address gives its name and remaining lifetime, and moves it to the back. */
  lemma LookupHit(f: Family, e: Entry, now: nat)
    requires FamilyInv(f) && e in f.entries && now < e.expires
    ensures var (g, found) := Lookup(f, e.address, now);
      && found == Some((e.name, e.expires - now))
      && g == f.(entries := g.entries) && MovedToBack(Live(f.entries, now), e, g.entries)
  {
    hide Without, MovedToBack, SameName;
    PurgeInv(f, now);
    var live := Live(f.entries, now);
    LiveIn(f.entries, now, e);
    DistinctUnique(live, e, Holder(live, e.address).value);
    TouchMoves(live, e);
  }

  /** A lookup of any other address gives nothing and only drops what has expired. */
  lemma LookupMiss(f: Family, address: nat, now: nat)
    requires forall e :: e in f.entries && now < e.expires ==> e.address != address
    ensures Lookup(f, address, now) == (f.(entries := Live(f.entries, now)), None)
  {
    forall e | e in Live(f.entries, now) ensures e.address != address {
      LiveIn(f.entries, now, e);
    }
  }

  lemma {:induction false} LivePlus(a: seq<Entry>, b: seq<Entry>, now: nat)
    ensures Live(a + b, now) == Live(a, now) + Live(b, now)
  {
    if a == [] {
      assert a + b == b;
    } else {
      assert (a + b)[1..] == a[1..] + b;
      LivePlus(a[1..], b, now);
    }
  }

  /** The mapping at the back is not the one an allocation drops, if another is live. */
  lemma BackIsKept(f: Family, hash: Name -> u64, name: Name, now: nat, ttl: nat, horizon: nat, e: Entry, x: Entry)
    requires FamilyInv(f) && f.entries != [] && e == f.entries[|f.entries| - 1] && now < e.expires
    requires x in f.entries && x != e && now < x.expires
    ensures e in Allocate(f, hash, name, now, ttl, horizon).0.entries
  {
    hide Allocate, Find, SameName;
    if e !in Allocate(f, hash, name, now, ttl, horizon).0.entries {
      DropsOnlyLru(f, hash, name, now, ttl, horizon, e);
      var a := f.entries[..|f.entries| - 1];
      assert f.entries == a + [e];
      LivePlus(a, [e], now);
      LiveIn(a, now, x);
      assert Live(f.entries, now)[0] in Live(a, now);
      LiveIn(a, now, e);
      BackOnce(a, e);
      assert false;
    }
  }

  lemma {:induction false} BackOnce(a: seq<Entry>, e: Entry)
    requires Distinct(a + [e])
    ensures e !in a
  {
    hide SameName;
    if a != [] {
      assert (a + [e])[1..] == a[1..] + [e];
      BackOnce(a[1..], e);
      assert e in a[1..] + [e] && !SameName(e.name, a[0].name);
      SameNameSelf(e.name);
    }
  }

  /** A mapping that was just looked up survives the next allocation, if another mapping is live then. */
  lemma LookedUpIsKept(f: Family, e: Entry, x: Entry, now: nat,
                       hash: Name -> u64, name: Name, later: nat, ttl: nat, horizon: nat)
    requires FamilyInv(f) && e in f.entries && x in f.entries && e != x
    requires now <= later < e.expires && later < x.expires
    ensures e in Allocate(Lookup(f, e.address, now).0, hash, name, later, ttl, horizon).0.entries
  {
    hide Allocate, FamilyInv;
    LookupInv(f, e.address, now);
    LookupHit(f, e, now);
    hide Lookup;
    var g := Lookup(f, e.address, now).0;
    var live := Live(f.entries, now);
    LiveIn(f.entries, now, x);
    var a, b :| live == a + [e] + b && g.entries == a + b + [e];
    assert x in a + b;
    BackIsKept(g, hash, name, later, ttl, horizon, e, x);
  }

  /** Allocating a name and looking its address up give the same name and the same lifetime. */
  lemma AllocateThenLookup(f: Family, hash: Name -> u64, name: Name, now: nat, ttl: nat, horizon: nat, later: nat)
    requires FamilyInv(f) && Allocate(f, hash, name, now, ttl, horizon).1.Given?
    requires now <= later
    ensures var (g, r) := Allocate(f, hash, name, now, ttl, horizon);
      var found := Lookup(g, r.address, later).1;
      if later < now + r.ttl
      then found.Some? && SameName(found.value.0, name) && later + found.value.1 == now + r.ttl
      else found.None?
  {
    AllocateInv(f, hash, name, now, ttl, horizon);
    var (g, r) := Allocate(f, hash, name, now, ttl, horizon);
    var e := AllocateLast(f, hash, name, now, ttl, horizon);
    hide Allocate, SameName, FirstFree, Find, MakeFree, Without;
    LiveIn(g.entries, later, e);
    var found := Holder(Live(g.entries, later), r.address);
    if found.Some? {
      LiveIn(g.entries, later, found.value);
      DistinctUnique(g.entries, e, found.value);
    }
  }

  // ---------------------------------------------------------------------------------------
  // A range that is full and never called full

  /** The last `k` hexadecimal digits of a number, as bytes 48 to 63, which have no letter case. */
  function Digits(i: nat, k: nat): (l: Label)
    ensures |l| == k && forall j :: 0 <= j < k ==> 48 <= l[j] < 64
    decreases k
  {
    if k == 0 then [] else Digits(i / 16, k - 1) + [48 + i % 16]
  }

  function Pow16(k: nat): nat {
    if k == 0 then 1 else 16 * Pow16(k - 1)
  }

  lemma {:induction false} DigitsInjective(i: nat, j: nat, k: nat)
    requires i < Pow16(k) && j < Pow16(k) && Digits(i, k) == Digits(j, k)
    ensures i == j
    decreases k
  {
    if k > 0 {
      var a, b := Digits(i, k), Digits(j, k);
      assert a[k - 1] == b[k - 1] && a[..k - 1] == Digits(i / 16, k - 1) && b[..k - 1] == Digits(j / 16, k - 1);
      DigitsInjective(i / 16, j / 16, k - 1);
    }
  }

  lemma CaselessLabel(l: Label)
    requires forall j :: 0 <= j < |l| ==> 48 <= l[j] < 64
    ensures FoldLabel(l) == l
  {
  }

  /** The `i`-th of as many different names as there are 32-bit addresses. */
  function NameOf(i: nat): Name {
    [Digits(i, 8)]
  }

  lemma NamesDiffer(i: nat, j: nat)
    requires i < Space(V4) && j < Space(V4) && i != j
    ensures !SameName(NameOf(i), NameOf(j))
  {
    assert Pow16(8) == Space(V4) by {
      assert Pow16(4) == 0x1_0000;
      assert Pow16(6) == 0x100_0000;
    }
    CaselessLabel(Digits(i, 8));
    CaselessLabel(Digits(j, 8));
    if SameName(NameOf(i), NameOf(j)) {
      assert Fold(NameOf(i))[0] == Fold(NameOf(j))[0];
      DigitsInjective(i, j, 8);
    }
  }

  /** Mappings of the names and addresses below `count`, the highest first. */
  function Crowd(count: nat, expires: nat): (es: seq<Entry>)
    ensures |es| == count
  {
    if count == 0 then [] else [Entry(NameOf(count - 1), count - 1, expires)] + Crowd(count - 1, expires)
  }

  lemma {:induction false} CrowdMember(count: nat, expires: nat, e: Entry)
    requires e in Crowd(count, expires)
    ensures e.address < count && e == Entry(NameOf(e.address), e.address, expires)
  {
    hide NameOf;
    if e != Entry(NameOf(count - 1), count - 1, expires) {
      assert Crowd(count, expires)[1..] == Crowd(count - 1, expires);
      CrowdMember(count - 1, expires, e);
    }
  }

  lemma {:induction false} CrowdDistinct(count: nat, expires: nat, now: nat)
    requires count <= Space(V4) && now < expires
    ensures Distinct(Crowd(count, expires)) && Live(Crowd(count, expires), now) == Crowd(count, expires)
  {
    hide SameName, NameOf;
    if count > 0 {
      var last := count - 1;
      CrowdDistinct(last, expires, now);
      forall e | e in Crowd(last, expires) ensures !SameName(e.name, NameOf(last)) && e.address != last {
        CrowdMember(last, expires, e);
        NamesDiffer(e.address, last);
      }
    }
  }

  /** The whole IPv4 space with a live mapping for every address. */
  function Crowded(expires: nat): Family {
    Family(V4, 0, Space(V4) - 1, Crowd(Space(V4), expires))
  }

  /** On the full space, allocating one more name does not end. */
  lemma CrowdedLoops(hash: Name -> u64, now: nat, ttl: nat, horizon: nat, expires: nat)
    requires now < expires && now + ttl <= horizon
    ensures FamilyInv(Crowded(expires)) && Allocate(Crowded(expires), hash, [], now, ttl, horizon).1 == Loops
  {
    hide Allocate, Crowd, Find, SameName, Distinct, Live;
    var es := Crowd(Space(V4), expires);
    CrowdDistinct(Space(V4), expires, now);
    forall e | e in es ensures 0 <= e.address < Space(V4) && !SameName(e.name, []) {
      CrowdMember(Space(V4), expires, e);
      NotRoot(e.address);
    }
    LoopsIff(Crowded(expires), hash, [], now, ttl, horizon);
  }

  lemma NotRoot(i: nat)
    ensures !SameName(NameOf(i), [])
  {
    assert |Fold(NameOf(i))| == 1 && |Fold([])| == 0;
  }
}
