/**
 What becomes of a received answer: whether it is stored, exactly how long it lives, and exactly which records
 with which TTLs the stored copy holds.
 */
module StoredAnswers {
  import opened Base
  import opened Names
  import opened Records
  import opened WireNames
  import opened Messages
  import opened EdnsRecords
  import opened Lifetimes

  // ---------------------------------------------------------------------------------------
  // TTLs of the received records

  /** A clamped TTL is the one within the bounds that is nearest: the TTL itself if it is within. */
  lemma ClampNearest(b: TtlBounds, ttl: u32)
    ensures b.min <= Clamp(b, ttl) <= b.max
    ensures b.min <= ttl <= b.max ==> Clamp(b, ttl) == ttl
    ensures ttl < b.min ==> Clamp(b, ttl) == b.min
    ensures b.max < ttl ==> Clamp(b, ttl) == b.max
  {
  }

  /** The records that are stored: all received ones but OPT records. */
  function Kept(m: Message): seq<Record> {
    m.answers + m.authorities + Plain(m.additionals)
  }

  lemma {:induction false} PlainIn(rs: seq<Record>, r: Record)
    ensures r in Plain(rs) <==> r in rs && !IsOpt(r)
  {
    if rs != [] {
      PlainIn(rs[1..], r);
    }
  }

  /** Whether the record's TTL is a lifetime: any type but OPT, number 41. */
  predicate HasLifetime(r: Record) {
    r.rtype != Other(41)
  }

  /** `ttl` is the least clamped TTL of the records, and one of them has it. */
  ghost predicate Least(rs: seq<Record>, b: TtlBounds, ttl: u32) {
    && (forall r :: r in rs && HasLifetime(r) ==> ttl <= Clamp(b, r.ttl))
    && exists r :: r in rs && HasLifetime(r) && ttl == Clamp(b, r.ttl)
  }

  predicate NoLifetime(rs: seq<Record>) {
    forall r :: r in rs ==> !HasLifetime(r)
  }

  lemma RewriteRest(rs: seq<Record>, f: u32 -> u32)
    requires rs != []
    ensures Rewrite(rs, f)[1..] == Rewrite(rs[1..], f)
    ensures Rewrite(rs, f)[0] == if TypedOpt(rs[0]) then rs[0] else rs[0].(ttl := f(rs[0].ttl))
  {
  }

  /** The least TTL of the clamped records, in terms of the received ones. */
  lemma {:induction false} LeastOfClamped(rs: seq<Record>, b: TtlBounds)
    ensures var least := LeastTtl(Rewrite(rs, Clamper(b)));
      && (least.None? <==> NoLifetime(rs))
      && (least.Some? ==> Least(rs, b, least.value))
    decreases |rs|
  {
    hide Rewrite, Clamp;
    if rs != [] {
      RewriteRest(rs, Clamper(b));
      LeastOfClamped(rs[1..], b);
      assert forall r :: r in rs <==> r == rs[0] || r in rs[1..];
      var least, rest := LeastTtl(Rewrite(rs, Clamper(b))), LeastTtl(Rewrite(rs[1..], Clamper(b)));
      if rest.Some? {
        var r :| r in rs[1..] && HasLifetime(r) && rest.value == Clamp(b, r.ttl);
        assert r in rs;
      }
      assert rs[0] in rs;
    }
  }

  lemma RewritePlus(a: seq<Record>, b: seq<Record>, f: u32 -> u32)
    ensures Rewrite(a + b, f) == Rewrite(a, f) + Rewrite(b, f)
  {
  }

  lemma NormalisedParts(m: Message, b: TtlBounds)
    ensures Normalised(m, b) == m.(answers := Rewrite(m.answers, Clamper(b)),
                                   authorities := Rewrite(m.authorities, Clamper(b)),
                                   additionals := Rewrite(Plain(m.additionals), Clamper(b)))
  {
    hide Rewrite, Plain;
    assert Plain(m.additionals) + [] == Plain(m.additionals);
  }

  lemma NormalisedSections(m: Message, b: TtlBounds)
    ensures Sections(Normalised(m, b)) == Rewrite(Kept(m), Clamper(b))
  {
    hide Rewrite, Plain, Normalised;
    var f := Clamper(b);
    NormalisedParts(m, b);
    RewritePlus(m.answers + m.authorities, Plain(m.additionals), f);
    RewritePlus(m.answers, m.authorities, f);
  }

  // ---------------------------------------------------------------------------------------
  // Negative answers

  /** The lesser of a TTL and a least TTL, if there is one. */
  function Lesser(ttl: u32, least: Option<u32>): u32 {
    if least.Some? then Min(ttl, least.value) else ttl
  }

  /** Lowering one record's TTL to `ttl` changes nothing about the lesser of `ttl` and the least. */
  lemma {:induction false} LeastLowered(rs: seq<Record>, i: nat, ttl: u32)
    requires i < |rs| && (TypedOpt(rs[i]) || ttl <= rs[i].ttl)
    ensures Lesser(ttl, LeastTtl(rs[i := rs[i].(ttl := ttl)])) == Lesser(ttl, LeastTtl(rs))
    decreases |rs|
  {
    var lowered := rs[i := rs[i].(ttl := ttl)];
    if i == 0 {
      assert lowered[1..] == rs[1..];
    } else {
      assert lowered[1..] == rs[1..][i - 1 := rs[i].(ttl := ttl)];
      LeastLowered(rs[1..], i - 1, ttl);
    }
  }

  /** The TTL of a negative answer: from its first SOA, or from the policy without one; `None` if it has none. */
  function NegativeTtlOf(m: Message, policy: TtlPolicy): Option<u32> {
    var i := FirstSoa(m.authorities);
    if i < |m.authorities| then
      Some(Clamp(policy.negative, Min(m.authorities[i].ttl, m.authorities[i].rdata.minimum)))
    else if policy.negativeWithoutSoa.Some? then Some(Clamp(policy.negative, policy.negativeWithoutSoa.value))
    else None
  }

  lemma SoaClamped(m: Message, b: TtlBounds)
    requires FirstSoa(m.authorities) < |m.authorities|
    ensures var i := FirstSoa(m.authorities);
      var soa, clamped := m.authorities[i], Normalised(m, b).authorities[i];
      && clamped == (if TypedOpt(soa) then soa else soa.(ttl := Clamp(b, soa.ttl)))
      && (TypedOpt(clamped) || Clamp(b, Min(soa.ttl, soa.rdata.minimum)) <= clamped.ttl)
  {
  }

  lemma WorkedIn(m: Message, policy: TtlPolicy)
    ensures var n := Normalised(m, policy.negative);
      var (w, ttl) := WorkInSoa(n, policy.negative, policy.negativeWithoutSoa);
      && ttl == NegativeTtlOf(m, policy)
      && var i := FirstSoa(m.authorities);
      w == if i < |m.authorities| then n.(authorities := n.authorities[i := n.authorities[i].(ttl := ttl.value)]) else n
  {
    hide FirstSoa, Rewrite, Clamp, Normalised;
    var b := policy.negative;
    NormalisedParts(m, b);
    RewriteKeepsSoa(m.authorities, Clamper(b));
    var i := FirstSoa(m.authorities);
    if i < |m.authorities| {
      SoaClamped(m, b);
      ClampedMinimum(b, m.authorities[i].ttl, m.authorities[i].rdata.minimum);
    }
  }

  lemma SectionsUpdate(m: Message, i: nat, r: Record)
    requires i < |m.authorities|
    ensures Sections(m.(authorities := m.authorities[i := r])) == Sections(m)[|m.answers| + i := r]
  {
  }

  /** The lifetime worked out for a negative answer is the lesser of its negative TTL and its records' least. */
  lemma NegativeLesser(m: Message, policy: TtlPolicy)
    ensures var (w, ttl) := WorkInSoa(Normalised(m, policy.negative), policy.negative, policy.negativeWithoutSoa);
      var least := LeastTtl(Rewrite(Kept(m), Clamper(policy.negative)));
      ttl.Some? ==> Lesser(ttl.value, LeastTtl(Sections(w))) == Lesser(ttl.value, least)
  {
    hide FirstSoa, Rewrite, Clamp, SetEdns, WorkInSoa, LeastTtl, Normalised, Kept, Sections;
    var b := policy.negative;
    var n := Normalised(m, b);
    var i := FirstSoa(m.authorities);
    WorkedIn(m, policy);
    NormalisedSections(m, b);
    NormalisedParts(m, b);
    if i < |m.authorities| {
      var ttl := NegativeTtlOf(m, policy).value;
      SoaClamped(m, b);
      SectionsUpdate(n, i, n.authorities[i].(ttl := ttl));
      SoaAt(n, i);
      LeastLowered(Sections(n), |n.answers| + i, ttl);
    }
  }

  lemma SoaAt(n: Message, i: nat)
    requires i < |n.authorities|
    ensures |n.answers| + i < |Sections(n)| && Sections(n)[|n.answers| + i] == n.authorities[i]
  {
  }

  // ---------------------------------------------------------------------------------------
  // Whether, how long, and what

  /** A standard query's answer, not truncated, with a response code that is cached and no extended one. */
  predicate Eligible(m: Message) {
    && m.header.opcode == Query && !m.header.truncated
    && (m.header.rcode == NoError || m.header.rcode == NxDomain)
    && EdnsOf(m).Ok? && (EdnsOf(m).value.Some? ==> EdnsOf(m).value.value.extendedRcode == 0)
  }

  predicate IsNegative(m: Message) {
    m.header.rcode == NxDomain || m.answers == []
  }

  /** No record that counts is clamped to zero. */
  predicate AllLive(rs: seq<Record>, b: TtlBounds) {
    forall r :: r in rs && HasLifetime(r) ==> Clamp(b, r.ttl) > 0
  }

  /** `ttl` is the least of `bound` and the clamped TTLs of the records. */
  ghost predicate LeastWith(rs: seq<Record>, b: TtlBounds, bound: u32, ttl: u32) {
    && ttl <= bound && (forall r :: r in rs && HasLifetime(r) ==> ttl <= Clamp(b, r.ttl))
    && (ttl == bound || Least(rs, b, ttl))
  }

  lemma Split(answer: Message, inserted: nat, policy: TtlPolicy)
    ensures CacheableAnswer(answer, inserted, policy).Some? ==> Eligible(answer)
    ensures Eligible(answer) ==> Negative(answer) == Some(IsNegative(answer))
  {
    hide EdnsOf, Normalised, LeastTtl, WorkInSoa;
  }

  /** A positive answer lives exactly as long as the least clamped TTL received. */
  lemma PositiveLifetime(answer: Message, inserted: nat, policy: TtlPolicy)
    requires Eligible(answer) && !IsNegative(answer)
    ensures var r := CacheableAnswer(answer, inserted, policy);
      && (r.Some? <==> !NoLifetime(Kept(answer)) && AllLive(Kept(answer), policy.positive))
      && (r.Some? ==> exists ttl: u32 :: Least(Kept(answer), policy.positive, ttl)
                                      && r.value.expires == inserted + ttl * SECOND)
  {
    hide EdnsOf, Normalised, LeastTtl, WorkInSoa, Kept, Sections, Rewrite, Clamp;
    Split(answer, inserted, policy);
    NormalisedSections(answer, policy.positive);
    LeastOfClamped(Kept(answer), policy.positive);
  }

  /** A negative answer lives exactly as long as the lesser of that and its negative TTL. */
  lemma NegativeLifetime(answer: Message, inserted: nat, policy: TtlPolicy)
    requires Eligible(answer) && IsNegative(answer)
    ensures var r, negative := CacheableAnswer(answer, inserted, policy), NegativeTtlOf(answer, policy);
      && (r.Some? <==> negative.Some? && negative.value > 0 && AllLive(Kept(answer), policy.negative))
      && (r.Some? ==> exists ttl: u32 :: LeastWith(Kept(answer), policy.negative, negative.value, ttl)
                                      && r.value.expires == inserted + ttl * SECOND)
  {
    hide EdnsOf, Normalised, LeastTtl, WorkInSoa, Kept, Sections, Rewrite, Clamp, NegativeTtlOf;
    Split(answer, inserted, policy);
    var b := policy.negative;
    WorkedIn(answer, policy);
    NegativeLesser(answer, policy);
    LeastOfClamped(Kept(answer), b);
    var negative := NegativeTtlOf(answer, policy);
    if negative.Some? {
      var ttl := Lesser(negative.value, LeastTtl(Rewrite(Kept(answer), Clamper(b))));
      assert LeastWith(Kept(answer), b, negative.value, ttl);
    }
  }

  /** Which answers are stored. */
  lemma StoredIff(answer: Message, inserted: nat, policy: TtlPolicy)
    ensures CacheableAnswer(answer, inserted, policy).Some? <==>
      && Eligible(answer)
      && if IsNegative(answer) then
           var negative := NegativeTtlOf(answer, policy);
           negative.Some? && negative.value > 0 && AllLive(Kept(answer), policy.negative)
         else
           !NoLifetime(Kept(answer)) && AllLive(Kept(answer), policy.positive)
  {
    hide Eligible, IsNegative, CacheableAnswer, NegativeTtlOf, Kept, AllLive, NoLifetime, Least, LeastWith;
    Split(answer, inserted, policy);
    if Eligible(answer) {
      if IsNegative(answer) {
        NegativeLifetime(answer, inserted, policy);
      } else {
        PositiveLifetime(answer, inserted, policy);
      }
    }
  }

  /** The same records in the same order, with clamped TTLs and nothing else changed. */
  predicate ClampedCopy(rs: seq<Record>, stored: seq<Record>, b: TtlBounds) {
    && |stored| == |rs|
    && forall i :: 0 <= i < |rs| ==> stored[i] == if HasLifetime(rs[i]) then rs[i].(ttl := Clamp(b, rs[i].ttl)) else rs[i]
  }

  /**
   The stored message is the received one without its OPT records and with clamped TTLs; in a negative one the first
   SOA carries the negative TTL.
   */
  lemma StoredMessage(answer: Message, inserted: nat, policy: TtlPolicy)
    requires CacheableAnswer(answer, inserted, policy).Some?
    ensures var m, i := CacheableAnswer(answer, inserted, policy).value.message, FirstSoa(answer.authorities);
      var b := if IsNegative(answer) then policy.negative else policy.positive;
      && m.header == answer.header && m.questions == answer.questions
      && ClampedCopy(answer.answers, m.answers, b)
      && ClampedCopy(Plain(answer.additionals), m.additionals, b)
      && if IsNegative(answer) && i < |answer.authorities| then
           && |m.authorities| == |answer.authorities|
           && m.authorities[i] == answer.authorities[i].(ttl := NegativeTtlOf(answer, policy).value)
           && ClampedCopy(answer.authorities[..i], m.authorities[..i], b)
           && ClampedCopy(answer.authorities[i + 1..], m.authorities[i + 1..], b)
         else
           ClampedCopy(answer.authorities, m.authorities, b)
  {
    hide EdnsOf, Normalised, LeastTtl, WorkInSoa, Kept, Sections, Clamp, FirstSoa;
    Split(answer, inserted, policy);
    var b := if IsNegative(answer) then policy.negative else policy.positive;
    NormalisedParts(answer, b);
    WorkedIn(answer, policy);
    assert forall r: Record :: HasLifetime(r) <==> !TypedOpt(r);
  }
}
