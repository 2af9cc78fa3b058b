/** How long an answer is cached and what TTLs a hit carries (section 5 of RFC 2308). Instants are nanoseconds. */
module Lifetimes {
  import opened Base
  import opened Names
  import opened Records
  import opened WireNames
  import opened Messages
  import opened EdnsRecords

  const U32_MAX: nat := 0xFFFF_FFFF

  /** The UDP payload size of an OPT record attached to an answer. */
  const DEFAULT_PAYLOAD: u16 := 1232

  datatype Bounds = Bounds(min: u32, max: u32)

  /** Inclusive bounds for stored TTLs, never crossed. */
  type TtlBounds = b: Bounds | b.min <= b.max witness Bounds(0, 0)

  datatype TtlPolicy = TtlPolicy(
    positive: TtlBounds, negative: TtlBounds, negativeWithoutSoa: Option<u32>, staleWindow: nat)

  datatype CachedAnswer = CachedAnswer(message: Message, inserted: nat, expires: nat, staleUntil: nat)

  function WholeSeconds(duration: nat): u32 {
    if duration / SECOND <= U32_MAX then duration / SECOND else U32_MAX
  }

  function Clamp(b: TtlBounds, ttl: u32): u32 {
    if ttl < b.min then b.min else if ttl > b.max then b.max else ttl
  }

  function Clamper(b: TtlBounds): u32 -> u32 {
    ttl => Clamp(b, ttl)
  }

  /** Whether the record's type field says OPT; its TTL is then not a lifetime. */
  predicate TypedOpt(r: Record) {
    r.rtype == Other(OPT_RTYPE)
  }

  /** Every TTL that is a lifetime, rewritten by `f`. */
  function Rewrite(rs: seq<Record>, f: u32 -> u32): (r: seq<Record>)
    ensures |r| == |rs|
  {
    seq(|rs|, i requires 0 <= i < |rs| => if TypedOpt(rs[i]) then rs[i] else rs[i].(ttl := f(rs[i].ttl)))
  }

  function RewriteAll(m: Message, f: u32 -> u32): Message {
    m.(answers := Rewrite(m.answers, f), authorities := Rewrite(m.authorities, f), additionals := Rewrite(m.additionals, f))
  }

  /** Index of the first record with SOA data, or the length if there is none. */
  function FirstSoa(rs: seq<Record>): (i: nat)
    ensures i <= |rs| && (i < |rs| ==> rs[i].rdata.RSoa?)
    ensures forall j :: 0 <= j < i ==> !rs[j].rdata.RSoa?
  {
    if rs == [] || rs[0].rdata.RSoa? then 0 else
      var i := FirstSoa(rs[1..]);
      assert forall j :: 0 < j < i + 1 ==> rs[j] == rs[1..][j - 1];
      i + 1
  }

  /** The least TTL that is a lifetime. */
  function LeastTtl(rs: seq<Record>): Option<u32> {
    if rs == [] then None
    else
      var rest := LeastTtl(rs[1..]);
      if TypedOpt(rs[0]) then rest
      else if rest.None? then Some(rs[0].ttl)
      else Some(Min(rs[0].ttl, rest.value))
  }

  function Sections(m: Message): seq<Record> {
    m.answers + m.authorities + m.additionals
  }

  /** Whether the answer is negative, when its code is one that is cached. */
  function Negative(m: Message): Option<bool> {
    if m.header.rcode == NoError then Some(m.answers == [])
    else if m.header.rcode == NxDomain then Some(true)
    else None
  }

  predicate CleanEdns(m: Message) {
    EdnsOf(m).Ok? && (EdnsOf(m).value.None? || EdnsOf(m).value.value.extendedRcode == 0)
  }

  /** The copy that is stored, before the negative TTL is worked in. */
  function Normalised(m: Message, b: TtlBounds): Message {
    RewriteAll(SetEdns(m, None), Clamper(b))
  }

  function NegativeSoaTtl(m: Message, b: TtlBounds, i: nat): u32
    requires i < |m.authorities| && m.authorities[i].rdata.RSoa?
  {
    Clamp(b, Min(m.authorities[i].ttl, m.authorities[i].rdata.minimum))
  }

  /** Works the negative TTL into the first authority SOA; gives it, or what the policy says without an SOA. */
  function WorkInSoa(m: Message, b: TtlBounds, withoutSoa: Option<u32>): (Message, Option<u32>) {
    var i := FirstSoa(m.authorities);
    if i < |m.authorities| then
      var ttl := NegativeSoaTtl(m, b, i);
      (m.(authorities := m.authorities[i := m.authorities[i].(ttl := ttl)]), Some(ttl))
    else
      (m, if withoutSoa.Some? then Some(Clamp(b, withoutSoa.value)) else None)
  }

  function Entry(m: Message, ttl: nat, inserted: nat, staleWindow: nat): CachedAnswer {
    CachedAnswer(m, inserted, inserted + ttl * SECOND, inserted + ttl * SECOND + staleWindow)
  }

  /** Whether an upstream answer is stored, as what, and for how long. */
  function CacheableAnswer(answer: Message, inserted: nat, policy: TtlPolicy): Option<CachedAnswer> {
    if answer.header.opcode != Query || answer.header.truncated || !CleanEdns(answer) then None
    else
      match Negative(answer)
      case None => None
      case Some(false) =>
        var m := Normalised(answer, policy.positive);
        var ttl := LeastTtl(Sections(m));
        if ttl.None? || ttl.value == 0 then None else Some(Entry(m, ttl.value, inserted, policy.staleWindow))
      case Some(true) =>
        var (m, soa) := WorkInSoa(Normalised(answer, policy.negative), policy.negative, policy.negativeWithoutSoa);
        if soa.None? then None
        else
          var least := LeastTtl(Sections(m));
          var ttl := if least.Some? then Min(soa.value, least.value) else soa.value;
          if ttl == 0 then None else Some(Entry(m, ttl, inserted, policy.staleWindow))
  }

  function Elapsed(entry: CachedAnswer, now: nat): u32 {
    if now <= entry.inserted then 0 else WholeSeconds(now - entry.inserted)
  }

  /** A TTL less the elapsed seconds, saturating at zero, then raised to one. */
  function Countdown(elapsed: u32, ttl: u32): u32 {
    if ttl > elapsed then ttl - elapsed else 1
  }

  function Counter(elapsed: u32): u32 -> u32 {
    ttl => Countdown(elapsed, ttl)
  }

  function HitHeader(query: Message, entry: CachedAnswer): Message {
    entry.message.(
    header := entry.message.header.(
      id := query.header.id, recursionDesired := query.header.recursionDesired, authoritative := false),
    questions := query.questions)
  }

  function HitResponse(query: Message, entry: CachedAnswer, now: nat): Message {
    RewriteAll(HitHeader(query, entry), Counter(Elapsed(entry, now)))
  }

  function Fresh(query: Edns): Edns {
    Edns(DEFAULT_PAYLOAD, 0, 0, query.dnssecOk, [])
  }

  /** Gives an answer the OPT record its query calls for. */
  function AlignEdns(query: Message, answer: Message): Message {
    match EdnsOf(query)
    case Ok(None) => SetEdns(answer, None)
    case Ok(Some(e)) =>
      if EdnsOf(answer).Ok? && EdnsOf(answer).value.Some? then answer else SetEdns(answer, Some(Fresh(e)))
    case _ => answer
  }

  // ---------------------------------------------------------------------------------------
  // Lifetimes

  lemma {:induction false} LeastIsLeast(rs: seq<Record>, i: nat)
    requires i < |rs| && !TypedOpt(rs[i])
    ensures LeastTtl(rs).Some? && LeastTtl(rs).value <= rs[i].ttl
  {
    if i > 0 {
      LeastIsLeast(rs[1..], i - 1);
    }
  }

  /** The records are one of the message's three record sections. */
  predicate InSection(m: Message, rs: seq<Record>) {
    rs == m.answers || rs == m.authorities || rs == m.additionals
  }

  lemma SectionLeast(m: Message, rs: seq<Record>, i: nat)
    requires InSection(m, rs) && i < |rs| && !TypedOpt(rs[i])
    ensures LeastTtl(Sections(m)).Some? && LeastTtl(Sections(m)).value <= rs[i].ttl
  {
    var all := Sections(m);
    var at := if rs == m.answers then i else if rs == m.authorities then |m.answers| + i
      else |m.answers| + |m.authorities| + i;
    assert all[at] == rs[i];
    LeastIsLeast(all, at);
  }

  /** An entry lives no longer than any TTL stored in it. */
  lemma LivesNoLongerThanItsRecords(answer: Message, inserted: nat, policy: TtlPolicy, rs: seq<Record>, i: nat)
    requires CacheableAnswer(answer, inserted, policy).Some?
    requires InSection(CacheableAnswer(answer, inserted, policy).value.message, rs) && i < |rs| && !TypedOpt(rs[i])
    ensures var entry := CacheableAnswer(answer, inserted, policy).value;
      entry.expires <= inserted + rs[i].ttl * SECOND
  {
    hide EdnsOf, SetEdns, Rewrite, LeastTtl, FirstSoa, Clamp;
    var entry := CacheableAnswer(answer, inserted, policy).value;
    SectionLeast(entry.message, rs, i);
  }

  /** What a hit does to one section. */
  predicate CountedDown(stored: seq<Record>, served: seq<Record>, elapsed: nat) {
    && |served| == |stored|
    && (forall i :: 0 <= i < |stored| && stored[i].rtype == Other(41) ==> served[i] == stored[i])
    && forall i :: 0 <= i < |stored| && stored[i].rtype != Other(41)
         ==> elapsed < stored[i].ttl && served[i] == stored[i].(ttl := stored[i].ttl - elapsed)
  }

  lemma SectionCountedDown(answer: Message, inserted: nat, policy: TtlPolicy, query: Message, now: nat, rs: seq<Record>)
    requires CacheableAnswer(answer, inserted, policy).Some?
    requires InSection(CacheableAnswer(answer, inserted, policy).value.message, rs)
    requires inserted <= now < CacheableAnswer(answer, inserted, policy).value.expires
    ensures var entry := CacheableAnswer(answer, inserted, policy).value;
      CountedDown(rs, Rewrite(rs, Counter(Elapsed(entry, now))), (now - inserted) / SECOND)
  {
    hide CacheableAnswer;
    var entry := CacheableAnswer(answer, inserted, policy).value;
    assert entry.inserted == inserted by {
      EntryTimes(answer, inserted, policy);
    }
    var elapsed := (now - inserted) / SECOND;
    forall i | 0 <= i < |rs| && !TypedOpt(rs[i]) ensures elapsed < rs[i].ttl {
      LivesNoLongerThanItsRecords(answer, inserted, policy, rs, i);
      assert elapsed * SECOND <= now - inserted < rs[i].ttl * SECOND;
    }
    assert (exists i :: 0 <= i < |rs| && !TypedOpt(rs[i])) ==> Elapsed(entry, now) == elapsed;
  }

  /** An entry counts from its insertion, is fresh for at least a second, and is then kept for the stale window. */
  lemma EntryTimes(answer: Message, inserted: nat, policy: TtlPolicy)
    requires CacheableAnswer(answer, inserted, policy).Some?
    ensures var entry := CacheableAnswer(answer, inserted, policy).value;
      && entry.inserted == inserted && inserted + SECOND <= entry.expires
      && entry.staleUntil == entry.expires + policy.staleWindow
  {
    hide EdnsOf, SetEdns, Rewrite, LeastTtl, FirstSoa, Clamp;
  }

  /**
   While an entry is fresh, every hit carries exactly the stored TTLs less the whole seconds gone by; the floor of
   one second never comes into it. Nothing else of a record changes, nor do response code and record order.
   */
  lemma HitTtls(answer: Message, inserted: nat, policy: TtlPolicy, query: Message, now: nat)
    requires CacheableAnswer(answer, inserted, policy).Some?
    requires inserted <= now < CacheableAnswer(answer, inserted, policy).value.expires
    ensures var entry := CacheableAnswer(answer, inserted, policy).value;
      var hit := HitResponse(query, entry, now);
      var elapsed := (now - inserted) / SECOND;
      && CountedDown(entry.message.answers, hit.answers, elapsed)
      && CountedDown(entry.message.authorities, hit.authorities, elapsed)
      && CountedDown(entry.message.additionals, hit.additionals, elapsed)
      && hit.header == entry.message.header.(
        id := query.header.id, recursionDesired := query.header.recursionDesired, authoritative := false)
      && hit.questions == query.questions
  {
    hide CacheableAnswer, Rewrite, CountedDown;
    var entry := CacheableAnswer(answer, inserted, policy).value;
    SectionCountedDown(answer, inserted, policy, query, now, entry.message.answers);
    SectionCountedDown(answer, inserted, policy, query, now, entry.message.authorities);
    SectionCountedDown(answer, inserted, policy, query, now, entry.message.additionals);
  }

  /** No served record's TTL is ever zero, however long ago it was stored. */
  predicate AllServed(rs: seq<Record>) {
    forall i :: 0 <= i < |rs| && rs[i].rtype != Other(41) ==> 1 <= rs[i].ttl
  }

  lemma HitFloor(query: Message, entry: CachedAnswer, now: nat)
    ensures var hit := HitResponse(query, entry, now);
      AllServed(hit.answers) && AllServed(hit.authorities) && AllServed(hit.additionals)
  {
    var elapsed := Elapsed(entry, now);
    SectionFloor(entry.message.answers, elapsed);
    SectionFloor(entry.message.authorities, elapsed);
    SectionFloor(entry.message.additionals, elapsed);
    hide Rewrite, AllServed, Elapsed;
  }

  lemma SectionFloor(rs: seq<Record>, elapsed: u32)
    ensures AllServed(Rewrite(rs, Counter(elapsed)))
  {
    var r := Rewrite(rs, Counter(elapsed));
    forall i | 0 <= i < |r| && r[i].rtype != Other(41) ensures 1 <= r[i].ttl {
      assert r[i].rtype == rs[i].rtype && !TypedOpt(rs[i]);
      assert r[i].ttl == Counter(elapsed)(rs[i].ttl) == Countdown(elapsed, rs[i].ttl);
    }
  }

  // ---------------------------------------------------------------------------------------
  // Negative answers

  /** Clamping before taking the minimum with MINIMUM changes nothing. */
  lemma ClampedMinimum(b: TtlBounds, ttl: u32, minimum: u32)
    ensures Clamp(b, Min(Clamp(b, ttl), minimum)) == Clamp(b, Min(ttl, minimum))
  {
  }

  lemma RewriteKeepsSoa(rs: seq<Record>, f: u32 -> u32)
    ensures FirstSoa(Rewrite(rs, f)) == FirstSoa(rs)
  {
    var a, b := FirstSoa(rs), FirstSoa(Rewrite(rs, f));
    assert forall j :: 0 <= j < |rs| ==> Rewrite(rs, f)[j].rdata == rs[j].rdata;
    assert a < |rs| ==> Rewrite(rs, f)[a].rdata.RSoa?;
    assert b < |rs| ==> rs[b].rdata.RSoa?;
  }

  /** The negative TTL is the clamped minimum of the received SOA TTL and MINIMUM. */
  lemma NegativeTtl(answer: Message, b: TtlBounds)
    requires FirstSoa(answer.authorities) < |answer.authorities|
    ensures var soa := answer.authorities[FirstSoa(answer.authorities)];
      WorkInSoa(Normalised(answer, b), b, None).1 == Some(Clamp(b, Min(soa.ttl, soa.rdata.minimum)))
  {
    var f := Clamper(b);
    RewriteKeepsSoa(answer.authorities, f);
    var i := FirstSoa(answer.authorities);
    var soa := answer.authorities[i];
    ClampedMinimum(b, soa.ttl, soa.rdata.minimum);
  }

  // ---------------------------------------------------------------------------------------
  // What is stored, and the OPT record of a hit

  predicate Within(rs: seq<Record>, b: TtlBounds) {
    forall i :: 0 <= i < |rs| && !TypedOpt(rs[i]) ==> b.min <= rs[i].ttl <= b.max
  }

  lemma ClampedWithin(rs: seq<Record>, b: TtlBounds)
    ensures Within(Rewrite(rs, Clamper(b)), b)
  {
    var r := Rewrite(rs, Clamper(b));
    forall i | 0 <= i < |r| && !TypedOpt(r[i]) ensures b.min <= r[i].ttl <= b.max {
      assert r[i].ttl == Clamp(b, rs[i].ttl);
    }
  }

  /** Every stored TTL is within the bounds of the entry's class. */
  lemma StoredWithinBounds(answer: Message, inserted: nat, policy: TtlPolicy, rs: seq<Record>)
    requires CacheableAnswer(answer, inserted, policy).Some?
    requires InSection(CacheableAnswer(answer, inserted, policy).value.message, rs)
    ensures Within(rs, if Negative(answer) == Some(true) then policy.negative else policy.positive)
  {
    hide EdnsOf, LeastTtl, FirstSoa, SetEdns;
    var negative := Negative(answer) == Some(true);
    var b := if negative then policy.negative else policy.positive;
    var m := Normalised(answer, b);
    var bare := SetEdns(answer, None);
    ClampedWithin(bare.answers, b);
    ClampedWithin(bare.authorities, b);
    ClampedWithin(bare.additionals, b);
    if negative {
      assert Within(WorkInSoa(m, b, policy.negativeWithoutSoa).0.authorities, b);
    }
  }

  lemma {:induction false} RewriteKeepsOpts(rs: seq<Record>, f: u32 -> u32)
    requires Opts(rs) == []
    ensures Opts(Rewrite(rs, f)) == []
    decreases |rs|
  {
    if rs != [] {
      assert Rewrite(rs, f)[1..] == Rewrite(rs[1..], f);
      RewriteKeepsOpts(rs[1..], f);
    }
  }

  lemma StoredAdditionals(answer: Message, inserted: nat, policy: TtlPolicy)
    requires CacheableAnswer(answer, inserted, policy).Some?
    ensures var b := if Negative(answer) == Some(true) then policy.negative else policy.positive;
      CacheableAnswer(answer, inserted, policy).value.message.additionals == Normalised(answer, b).additionals
  {
    hide EdnsOf, LeastTtl, FirstSoa, SetEdns, Rewrite, Clamp;
  }

  /** A hit carries the OPT record of its own query's making: none without one, a fresh one with its DO bit otherwise. */
  lemma HitEdns(answer: Message, inserted: nat, policy: TtlPolicy, query: Message, now: nat)
    requires CacheableAnswer(answer, inserted, policy).Some?
    ensures var hit := AlignEdns(query, HitResponse(query, CacheableAnswer(answer, inserted, policy).value, now));
      if EdnsOf(query).Ok? && EdnsOf(query).value.Some?
      then EdnsOf(hit) == Ok(Some(Edns(1232, 0, 0, EdnsOf(query).value.value.dnssecOk, [])))
      else EdnsOf(hit) == Ok(None)
  {
    hide CacheableAnswer, Rewrite, SetEdns, Opts;
    var entry := CacheableAnswer(answer, inserted, policy).value;
    var hit := HitResponse(query, entry, now);
    var b := if Negative(answer) == Some(true) then policy.negative else policy.positive;
    var plain := SetEdns(answer, None).additionals;
    StoredAdditionals(answer, inserted, policy);
    NoOptLeft(answer);
    RewriteKeepsOpts(plain, Clamper(b));
    RewriteKeepsOpts(entry.message.additionals, Counter(Elapsed(entry, now)));
    assert EdnsOf(hit) == Ok(None);
    SetThenRead(hit, None);
    if EdnsOf(query).Ok? && EdnsOf(query).value.Some? {
      SetThenRead(hit, Some(Fresh(EdnsOf(query).value.value)));
    }
  }

  /**
   Any answer to a query with EDNS goes out with an OPT record, its own or a fresh one; to a query without, with none;
   to a query with a malformed one, unchanged. The other records of the answer are never touched.
   */
  lemma AlignedEdns(query: Message, answer: Message)
    ensures var sent, own, asked := AlignEdns(query, answer), EdnsOf(answer), EdnsOf(query);
      && sent == answer.(additionals := sent.additionals) && Plain(sent.additionals) == Plain(answer.additionals)
      && (!asked.Ok? ==> sent == answer)
      && (asked == Ok(None) ==> EdnsOf(sent) == Ok(None))
      && (asked.Ok? && asked.value.Some? && own.Ok? && own.value.Some? ==> sent == answer)
      && (asked.Ok? && asked.value.Some? && !(own.Ok? && own.value.Some?) ==>
            EdnsOf(sent) == Ok(Some(Edns(1232, 0, 0, asked.value.value.dnssecOk, []))))
  {
    hide SetEdns, EdnsOf, Plain;
    match EdnsOf(query)
    case Ok(None) =>
      SetThenRead(answer, None);
      SetKeepsOthers(answer, None, None);
      SetOnlyAdds(answer, None);
    case Ok(Some(e)) =>
      SetThenRead(answer, Some(Fresh(e)));
      SetKeepsOthers(answer, Some(Fresh(e)), None);
      SetOnlyAdds(answer, Some(Fresh(e)));
    case _ =>
  }

  lemma SetOnlyAdds(m: Message, e: Option<Edns>)
    ensures SetEdns(m, e) == m.(additionals := SetEdns(m, e).additionals)
  {
    hide Plain;
  }

  lemma NoOptLeft(m: Message)
    ensures Opts(SetEdns(m, None).additionals) == []
  {
    PlainOnce(m.additionals);
    assert Plain(m.additionals) + [] == Plain(m.additionals);
  }

  // ---------------------------------------------------------------------------------------
  // The loops of the source

  method ClampTtls(rs: seq<Record>, b: TtlBounds) returns (r: seq<Record>)
    ensures r == Rewrite(rs, Clamper(b))
  {
    r := rs;
    for i := 0 to |rs|
      invariant |r| == |rs| && r[i..] == rs[i..]
      invariant forall j :: 0 <= j < i ==> r[j] == Rewrite(rs, Clamper(b))[j]
    {
      assert r[i] == r[i..][0] == rs[i];
      if !TypedOpt(r[i]) {
        r := r[i := r[i].(ttl := Clamp(b, r[i].ttl))];
      }
    }
  }

  method CountDownTtls(rs: seq<Record>, elapsed: u32) returns (r: seq<Record>)
    ensures r == Rewrite(rs, Counter(elapsed))
  {
    r := rs;
    for i := 0 to |rs|
      invariant |r| == |rs| && r[i..] == rs[i..]
      invariant forall j :: 0 <= j < i ==> r[j] == Rewrite(rs, Counter(elapsed))[j]
    {
      assert r[i] == r[i..][0] == rs[i];
      if !TypedOpt(r[i]) {
        var left := if r[i].ttl > elapsed then r[i].ttl - elapsed else 0;
        r := r[i := r[i].(ttl := if left > 1 then left else 1)];
      }
    }
  }

  method FindSoa(rs: seq<Record>) returns (i: nat)
    ensures i == FirstSoa(rs)
  {
    i := 0;
    while i < |rs| && !rs[i].rdata.RSoa?
      invariant i <= |rs| && forall j :: 0 <= j < i ==> !rs[j].rdata.RSoa?
    {
      i := i + 1;
    }
    var k := FirstSoa(rs);
    assert k < |rs| ==> rs[k].rdata.RSoa?;
  }

  method FindLeastTtl(rs: seq<Record>) returns (least: Option<u32>)
    ensures least == LeastTtl(rs)
  {
    least := None;
    var i := |rs|;
    while i > 0
      invariant 0 <= i <= |rs| && least == LeastTtl(rs[i..])
    {
      i := i - 1;
      assert rs[i..][0] == rs[i] && rs[i..][1..] == rs[i + 1..];
      if !TypedOpt(rs[i]) {
        least := Some(if least.None? then rs[i].ttl else Min(rs[i].ttl, least.value));
      }
    }
  }

  method Normalise(m: Message, b: TtlBounds) returns (r: Message)
    ensures r == Normalised(m, b)
  {
    hide SetEdns, Rewrite;
    r := ReplaceEdns(m, None);
    var answers := ClampTtls(r.answers, b);
    var authorities := ClampTtls(r.authorities, b);
    var additionals := ClampTtls(r.additionals, b);
    r := r.(answers := answers, authorities := authorities, additionals := additionals);
  }

  method CacheAnswer(answer: Message, inserted: nat, policy: TtlPolicy) returns (r: Option<CachedAnswer>)
    ensures r == CacheableAnswer(answer, inserted, policy)
  {
    hide EdnsOf, Normalised, LeastTtl, FirstSoa, Clamp;
    if answer.header.opcode != Query || answer.header.truncated {
      return None;
    }
    var edns := ReadEdns(answer);
    if !edns.Ok? || (edns.value.Some? && edns.value.value.extendedRcode != 0) {
      return None;
    }
    var negative := Negative(answer);
    if negative.None? {
      return None;
    }
    var b := if negative.value then policy.negative else policy.positive;
    var message := Normalise(answer, b);
    var negativeTtl: Option<u32> := None;
    if negative.value {
      var i := FindSoa(message.authorities);
      if i < |message.authorities| {
        var soa := message.authorities[i];
        negativeTtl := Some(Clamp(b, Min(soa.ttl, soa.rdata.minimum)));
        message := message.(authorities := message.authorities[i := soa.(ttl := negativeTtl.value)]);
      } else if policy.negativeWithoutSoa.None? {
        return None;
      } else {
        negativeTtl := Some(Clamp(b, policy.negativeWithoutSoa.value));
      }
    }
    var least := FindLeastTtl(message.answers + message.authorities + message.additionals);
    if negativeTtl.None? && least.None? {
      return None;
    }
    var ttl := if negativeTtl.None? then least.value else if least.None? then negativeTtl.value
      else Min(negativeTtl.value, least.value);
    if ttl == 0 {
      return None;
    }
    return Some(Entry(message, ttl, inserted, policy.staleWindow));
  }

  method ServeHit(query: Message, entry: CachedAnswer, now: nat) returns (r: Message)
    ensures r == HitResponse(query, entry, now)
  {
    hide Rewrite, Countdown;
    var elapsed := Elapsed(entry, now);
    r := entry.message;
    r := r.(header := r.header.(id := query.header.id));
    r := r.(header := r.header.(recursionDesired := query.header.recursionDesired));
    r := r.(header := r.header.(authoritative := false));
    r := r.(questions := query.questions);
    var answers := CountDownTtls(r.answers, elapsed);
    var authorities := CountDownTtls(r.authorities, elapsed);
    var additionals := CountDownTtls(r.additionals, elapsed);
    r := r.(answers := answers, authorities := authorities, additionals := additionals);
  }
}
