/**
 The wire format in numbers: which byte of a header, a question, a record and an OPT record says what, one whole
 query byte by byte, and what a compressed name stands for.
 */
module WireLayout {
  import opened Base
  import opened Names
  import opened Records
  import opened WireNames
  import opened Messages
  import opened MessageRoundTrip
  import opened EdnsRecords

  /** The assigned numbers. */
  lemma AssignedNumbers()
    ensures TypeCode(A) == 1 && TypeCode(Ns) == 2 && TypeCode(Cname) == 5 && TypeCode(Soa) == 6
    ensures TypeCode(Ptr) == 12 && TypeCode(Mx) == 15 && TypeCode(Txt) == 16 && TypeCode(Aaaa) == 28
    ensures ClassCode(In) == 1 && ClassCode(Ch) == 3 && OPT_RTYPE == 41
    ensures OpcodeBits(Query) == 0 && OpcodeBits(IQuery) == 1 && OpcodeBits(Status) == 2
    ensures OpcodeBits(Notify) == 4 && OpcodeBits(Update) == 5
    ensures RcodeBits(NoError) == 0 && RcodeBits(FormErr) == 1 && RcodeBits(ServFail) == 2
    ensures RcodeBits(NxDomain) == 3 && RcodeBits(NotImp) == 4 && RcodeBits(Refused) == 5
  {
  }

  // ---------------------------------------------------------------------------------------
  // Header

  lemma FlagBytes(h: Header)
    ensures Be16(Flags(h)) == [
      Bit(h.qr, 128) + OpcodeBits(h.opcode) * 8 + Bit(h.authoritative, 4) + Bit(h.truncated, 2) + Bit(h.recursionDesired, 1),
      Bit(h.recursionAvailable, 128) + RcodeBits(h.rcode)]
  {
    var high := Bit(h.qr, 128) + OpcodeBits(h.opcode) * 8 + Bit(h.authoritative, 4) + Bit(h.truncated, 2)
    + Bit(h.recursionDesired, 1);
    var low := Bit(h.recursionAvailable, 128) + RcodeBits(h.rcode);
    assert Flags(h) == high * 256 + low;
    Quotient(high, 256, low);
  }

  /** The twelve bytes of a header. */
  lemma HeaderBytes(m: Message)
    requires CountsFit(m)
    ensures var h, s := m.header, EncodeHeader(m);
      && s[0] == h.id / 256 && s[1] == h.id % 256
      && s[2] == Bit(h.qr, 128) + OpcodeBits(h.opcode) * 8 + Bit(h.authoritative, 4) + Bit(h.truncated, 2)
         + Bit(h.recursionDesired, 1)
      && s[3] == Bit(h.recursionAvailable, 128) + RcodeBits(h.rcode)
      && s[4] == |m.questions| / 256 && s[5] == |m.questions| % 256
      && s[6] == |m.answers| / 256 && s[7] == |m.answers| % 256
      && s[8] == |m.authorities| / 256 && s[9] == |m.authorities| % 256
      && s[10] == |m.additionals| / 256 && s[11] == |m.additionals| % 256
  {
    hide Flags, Bit, OpcodeBits, RcodeBits;
    FlagBytes(m.header);
  }

  // ---------------------------------------------------------------------------------------
  // Questions and records

  /** A question is its name, two bytes of type and two of class. */
  lemma QuestionBytes(q: Question)
    requires EncodeName(q.name).Ok?
    ensures EncodeQuestion(q) == Ok(EncodeName(q.name).value
      + [TypeCode(q.qtype) / 256, TypeCode(q.qtype) % 256, ClassCode(q.qclass) / 256, ClassCode(q.qclass) % 256])
  {
    hide TypeCode, ClassCode, EncodeName;
    var t, c := TypeCode(q.qtype), ClassCode(q.qclass);
    assert Be16(t) + Be16(c) == [t / 256, t % 256, c / 256, c % 256];
  }

  lemma RootByteOnly()
    ensures EncodeName([]) == Ok([0])
  {
    var root: Name := [];
    assert Body(root) == [] && [] + [0 as byte] == [0];
  }

  /** The ten bytes between a record's name and its data. */
  lemma FixedBytes(r: Record, len: u16)
    ensures var t, c := TypeCode(TypeOf(r.rdata)), ClassCode(r.class_);
      RecordFixed(r, len) == [t / 256, t % 256, c / 256, c % 256,
                              r.ttl / 0x100_0000, r.ttl / 0x1_0000 % 256, r.ttl / 256 % 256, r.ttl % 256,
                              len / 256, len % 256]
  {
    hide TypeCode, ClassCode, TypeOf;
    Be32Bytes(r.ttl);
  }

  lemma Be32Bytes(x: u32)
    ensures Be32(x) == [x / 0x100_0000, x / 0x1_0000 % 256, x / 256 % 256, x % 256]
  {
    var high, low := x / 0x1_0000, x % 0x1_0000;
    assert x == high * 0x1_0000 + low;
    assert high / 256 == x / 0x100_0000;
    FieldAt(x, high, low / 256, 256, 256, low % 256);
    assert x % 256 == low % 256;
  }

  /** The fixed end of an SOA's data: serial, refresh, retry, expire and minimum, four bytes each. */
  lemma SoaBytes(r: RData)
    requires r.RSoa? && EncodeRData(r).Ok?
    ensures var d := EncodeRData(r).value;
      && |d| >= 20
      && d[|d| - 20..|d| - 16] == Be32(r.serial) && d[|d| - 16..|d| - 12] == Be32(r.refresh)
      && d[|d| - 12..|d| - 8] == Be32(r.retry) && d[|d| - 8..|d| - 4] == Be32(r.expire)
      && d[|d| - 4..] == Be32(r.minimum)
  {
    hide EncodeName, Be32;
    var m, n := EncodeName(r.mname).value, EncodeName(r.rname).value;
    var tail := Be32(r.serial) + Be32(r.refresh) + Be32(r.retry) + Be32(r.expire) + Be32(r.minimum);
    var d := EncodeRData(r).value;
    assert d == m + n + tail;
    assert d[|d| - 20..] == tail;
  }

  /** A mail exchange's preference comes first. */
  lemma MxBytes(r: RData)
    requires r.RMx? && EncodeRData(r).Ok?
    ensures var d := EncodeRData(r).value;
      |d| >= 2 && d[0] == r.preference / 256 && d[1] == r.preference % 256 && Ok(d[2..]) == EncodeName(r.exchange)
  {
    hide EncodeName;
  }

  // ---------------------------------------------------------------------------------------
  // OPT

  /** An OPT record on the wire: root name, type 41, payload size, extended code, version, DO bit, options. */
  lemma OptBytes(e: Edns)
    requires |OptionBytes(e.options)| <= 0xFFFF
    ensures var data := OptionBytes(e.options);
      EncodeRecord(ToRecord(e)) == Ok([0, 0, 41, e.payload / 256, e.payload % 256,
                                       e.extendedRcode, e.version, Bit(e.dnssecOk, 128), 0,
                                       |data| / 256, |data| % 256] + data)
  {
    hide OptionBytes, EncodeRecord, RecordFixed, ToRecord;
    var data := OptionBytes(e.options);
    OptTtlBytes(e);
    OptParts(e, data);
    assert [0] + RecordFixed(ToRecord(e), |data|)
        == [0, 0, 41, e.payload / 256, e.payload % 256, e.extendedRcode, e.version, Bit(e.dnssecOk, 128), 0,
            |data| / 256, |data| % 256];
  }

  lemma OptParts(e: Edns, data: seq<byte>)
    requires data == OptionBytes(e.options) && |data| <= 0xFFFF
    requires Be32(OptTtl(e)) == [e.extendedRcode, e.version, Bit(e.dnssecOk, 128), 0]
    ensures EncodeRecord(ToRecord(e)) == Ok([0] + RecordFixed(ToRecord(e), |data|) + data)
    ensures RecordFixed(ToRecord(e), |data|)
         == [0, 41, e.payload / 256, e.payload % 256, e.extendedRcode, e.version, Bit(e.dnssecOk, 128), 0,
             |data| / 256, |data| % 256]
  {
    hide OptionBytes, OptTtl, Be32;
    RootByteOnly();
    assert Be16(41) == [0, 41];
  }

  lemma OptTtlBytes(e: Edns)
    ensures Be32(OptTtl(e)) == [e.extendedRcode, e.version, Bit(e.dnssecOk, 128), 0]
  {
    var ttl := OptTtl(e);
    var high, low := e.extendedRcode * 256 + e.version, Bit(e.dnssecOk, 0x8000);
    assert ttl == high * 0x1_0000 + low;
    Quotient(high, 0x1_0000, low);
    Quotient(e.extendedRcode, 256, e.version);
    assert Be16(low) == [Bit(e.dnssecOk, 128), 0];
  }

  /** An option is its code, the length of its data and the data; options follow one another. */
  lemma OptionLayout(o: EdnsOption, rest: seq<EdnsOption>)
    ensures OptionBytes([o] + rest)
         == [o.code / 256, o.code % 256, |o.data| / 256, |o.data| % 256] + o.data + OptionBytes(rest)
  {
    OptionFirst(o, rest);
    assert Be16(o.code) + Be16(|o.data|) == [o.code / 256, o.code % 256, |o.data| / 256, |o.data| % 256];
  }

  // ---------------------------------------------------------------------------------------
  // A whole query

  const EXAMPLE_COM: Name := [[101, 120, 97, 109, 112, 108, 101], [99, 111, 109]]

  lemma ExampleName()
    ensures EncodeName(EXAMPLE_COM) == Ok([7, 101, 120, 97, 109, 112, 108, 101, 3, 99, 111, 109, 0])
  {
    var com: Name := [[99, 111, 109]];
    var root: Name := [];
    assert EXAMPLE_COM[1..] == com && com[1..] == root;
    assert Body(root) == [] && WireLength(root) == 1;
    assert Body(com) == [3, 99, 111, 109] && WireLength(com) == 5;
    assert Body(EXAMPLE_COM) == [7, 101, 120, 97, 109, 112, 108, 101] + Body(com);
    assert Wire(EXAMPLE_COM) == [7, 101, 120, 97, 109, 112, 108, 101, 3, 99, 111, 109, 0];
    assert WireLength(EXAMPLE_COM) == 13 && Fits(EXAMPLE_COM);
  }

  /** A query for the address of example.com that asks for recursion and for DNSSEC records. */
  function ExampleQuery(id: u16): Message {
    SetEdns(Message(Header(id, false, Query, false, false, true, false, NoError),
                    [Question(EXAMPLE_COM, A, In)], [], [], []), Some(Edns(1232, 0, 0, true, [])))
  }

  lemma OneOfEach(q: Question, r: Record)
    requires EncodeQuestion(q).Ok? && EncodeRecord(r).Ok?
    ensures EncodeQuestions([q]) == EncodeQuestion(q) && EncodeRecords([] + [] + [r]) == EncodeRecord(r)
  {
    hide EncodeQuestion, EncodeRecord;
    assert [q][1..] == [] && EncodeQuestion(q).value + [] == EncodeQuestion(q).value;
    assert [] + [] + [r] == [r] && [r][1..] == [];
    assert EncodeRecord(r).value + [] == EncodeRecord(r).value;
  }

  lemma ExampleHeader(id: u16)
    ensures CountsFit(ExampleQuery(id))
    ensures EncodeHeader(ExampleQuery(id)) == [id / 256, id % 256, 1, 0, 0, 1, 0, 0, 0, 0, 0, 1]
  {
    hide EncodeHeader, ToRecord;
    assert ExampleQuery(id).additionals == [ToRecord(Edns(1232, 0, 0, true, []))];
    HeaderBytes(ExampleQuery(id));
  }

  lemma ExampleQuestion()
    ensures EncodeQuestion(Question(EXAMPLE_COM, A, In))
         == Ok([7, 101, 120, 97, 109, 112, 108, 101, 3, 99, 111, 109, 0, 0, 1, 0, 1])
  {
    hide EncodeName, EncodeQuestion;
    ExampleName();
    QuestionBytes(Question(EXAMPLE_COM, A, In));
    assert [7, 101, 120, 97, 109, 112, 108, 101, 3, 99, 111, 109, 0] + [0, 1, 0, 1]
        == [7, 101, 120, 97, 109, 112, 108, 101, 3, 99, 111, 109, 0, 0, 1, 0, 1];
  }

  lemma ExampleOpt()
    ensures EncodeRecord(ToRecord(Edns(1232, 0, 0, true, []))) == Ok([0, 0, 41, 4, 208, 0, 0, 128, 0, 0, 0])
  {
    hide EncodeRecord, ToRecord;
    OptBytes(Edns(1232, 0, 0, true, []));
    assert [0, 0, 41, 4, 208, 0, 0, 128, 0, 0, 0] + [] == [0, 0, 41, 4, 208, 0, 0, 128, 0, 0, 0];
  }

  /** That query, byte by byte. */
  lemma ExampleQueryBytes(id: u16)
    ensures Encode(ExampleQuery(id)) == Ok(
      [id / 256, id % 256, 1, 0, 0, 1, 0, 0, 0, 0, 0, 1]
      + [7, 101, 120, 97, 109, 112, 108, 101, 3, 99, 111, 109, 0, 0, 1, 0, 1]
      + [0, 0, 41, 4, 208, 0, 0, 128, 0, 0, 0])
  {
    hide Encode, EncodeHeader, EncodeQuestion, EncodeRecord, EncodeRecords, EncodeQuestions, ToRecord, CountsFit;
    var m, q, r := ExampleQuery(id), Question(EXAMPLE_COM, A, In), ToRecord(Edns(1232, 0, 0, true, []));
    assert m.questions == [q] && m.answers == [] && m.authorities == [] && m.additionals == [r];
    hide ExampleQuery;
    ExampleHeader(id);
    ExampleQuestion();
    ExampleOpt();
    OneOfEach(q, r);
    EncodeParts(m);
  }

  lemma EncodeParts(m: Message)
    requires CountsFit(m) && EncodeQuestions(m.questions).Ok?
    requires EncodeRecords(m.answers + m.authorities + m.additionals).Ok?
    ensures var all := EncodeHeader(m) + EncodeQuestions(m.questions).value
                       + EncodeRecords(m.answers + m.authorities + m.additionals).value;
      Encode(m) == if |all| > 0xFFFF then Err(MessageTooLong) else Ok(all)
  {
    hide EncodeHeader, EncodeQuestions, EncodeRecords;
    var all := EncodeHeader(m) + EncodeQuestions(m.questions).value
    + EncodeRecords(m.answers + m.authorities + m.additionals).value;
    assert [] + all == all;
  }

  // ---------------------------------------------------------------------------------------
  // Compressed names

  lemma {:induction false} MoreFuel(buf: seq<byte>, cur: nat, fuel: nat, more: nat)
    requires fuel <= more && !Follow(buf, cur, fuel).OutOfFuel?
    ensures Follow(buf, cur, more) == Follow(buf, cur, fuel)
    decreases fuel
  {
    hide Look;
    match Look(buf, cur)
    case Jump(to) => MoreFuel(buf, to, fuel - 1, more - 1);
    case Take(l) => MoreFuel(buf, cur + 1 + |l|, fuel - 1, more - 1);
    case _ =>
  }

  predicate Labels(labels: Name) {
    forall i :: 0 <= i < |labels| ==> 1 <= |labels[i]| <= MAX_LABEL
  }

  /** A pointer's two bytes; the first is 192 plus the target's high bits. */
  function Pointer(target: nat): (s: seq<byte>)
    requires target < 0x4000
    ensures |s| == 2
  {
    [192 + target / 256, target % 256]
  }

  /** Labels and then a pointer to before it. */
  predicate Compressed(buf: seq<byte>, pos: nat, labels: Name, target: nat) {
    && Labels(labels)
    && target < 0x4000 && target < pos + |Body(labels)|
    && At(buf, pos, Body(labels) + Pointer(target))
  }

  lemma PointerAt(buf: seq<byte>, pos: nat, target: nat)
    requires Compressed(buf, pos, [], target)
    ensures Look(buf, pos) == Jump(target)
  {
    assert Body([]) + Pointer(target) == Pointer(target);
    var part := buf[pos..pos + 2];
    assert buf[pos] == part[0] && buf[pos + 1] == part[1];
    LookCases(buf, pos);
    assert target == (buf[pos] as int - 0xC0) * 256 + buf[pos + 1];
  }

  lemma FirstLabel(buf: seq<byte>, pos: nat, labels: Name, rest: seq<byte>)
    requires Labels(labels) && Fits(labels) && labels != [] && At(buf, pos, Body(labels) + rest)
    ensures Fits(labels[1..]) && Look(buf, pos) == Take(labels[0])
    ensures At(buf, pos + 1 + |labels[0]|, Body(labels[1..]) + rest)
  {
    var l: Label := labels[0];
    assert 1 <= |l| <= MAX_LABEL;
    BodyFirst(labels, rest);
    hide At, Look, Body, Labels, Fits;
    AtSplit(buf, pos, [|l|] + l, Body(labels[1..]) + rest);
    LengthAt(buf, pos, l);
    LookCases(buf, pos);
  }

  lemma NextLabel(buf: seq<byte>, pos: nat, labels: Name, target: nat)
    requires Compressed(buf, pos, labels, target) && labels != []
    ensures Look(buf, pos) == Take(labels[0])
    ensures Compressed(buf, pos + 1 + |labels[0]|, labels[1..], target)
    ensures Fits(labels[1..]) && |Body(labels)| == 1 + |labels[0]| + |Body(labels[1..])|
  {
    hide At, Look, Body, Pointer;
    LabelsRest(labels);
    hide Labels, Fits;
    FirstLabel(buf, pos, labels, Pointer(target));
    BodyFirst(labels, Pointer(target));
  }

  lemma LabelsRest(labels: Name)
    requires Labels(labels) && labels != []
    ensures Fits(labels) && 1 <= |labels[0]| <= MAX_LABEL && Labels(labels[1..])
  {
  }

  lemma BodyFirst(labels: Name, rest: seq<byte>)
    requires Fits(labels) && labels != []
    ensures Fits(labels[1..]) && |Body(labels)| == 1 + |labels[0]| + |Body(labels[1..])|
    ensures Body(labels) + rest == ([|labels[0]|] + labels[0]) + (Body(labels[1..]) + rest)
  {
    var l: Label := labels[0];
    Regrouped([|l|] + l, Body(labels[1..]), rest);
  }

  lemma Regrouped(a: seq<byte>, b: seq<byte>, c: seq<byte>)
    ensures a + b + c == a + (b + c)
  {
  }

  lemma Jumps(buf: seq<byte>, cur: nat, to: nat, fuel: nat)
    requires Look(buf, cur) == Jump(to) && Follow(buf, to, fuel).Done?
    ensures Follow(buf, cur, fuel + 1) == Done(Follow(buf, to, fuel).labels, cur + 2)
  {
    hide Look;
  }

  lemma Steps(buf: seq<byte>, cur: nat, l: Label, fuel: nat, labels: Name, end: nat)
    requires Look(buf, cur) == Take(l) && Follow(buf, cur + 1 + |l|, fuel) == Done(labels, end)
    ensures Follow(buf, cur, fuel + 1) == Done([l] + labels, end)
  {
    hide Look;
  }

  lemma FirstAndRest(labels: Name, n: Name)
    requires labels != []
    ensures [labels[0]] + (labels[1..] + n) == labels + n
  {
  }

  lemma FollowPointer(buf: seq<byte>, pos: nat, target: nat, fuel: nat)
    requires Compressed(buf, pos, [], target) && Follow(buf, target, fuel).Done?
    ensures Follow(buf, pos, fuel + 1) == Done([] + Follow(buf, target, fuel).labels, pos + |Body([])| + 2)
  {
    var n := Follow(buf, target, fuel).labels;
    assert |Body([])| == 0 && [] + n == n;
    hide Look, Compressed, Follow;
    PointerAt(buf, pos, target);
    Jumps(buf, pos, target, fuel);
  }

  lemma {:induction false} FollowCompressed(buf: seq<byte>, pos: nat, labels: Name, target: nat, fuel: nat)
    requires Compressed(buf, pos, labels, target) && Follow(buf, target, fuel).Done?
    ensures Follow(buf, pos, fuel + 1 + |labels|)
         == Done(labels + Follow(buf, target, fuel).labels, pos + |Body(labels)| + 2)
    decreases |labels|
  {
    hide Look, Compressed, Follow, Labels, Pointer, At, Body, Fits;
    if labels == [] {
      FollowPointer(buf, pos, target, fuel);
    } else {
      var l, rest, n := labels[0], labels[1..], Follow(buf, target, fuel).labels;
      NextLabel(buf, pos, labels, target);
      FollowCompressed(buf, pos + 1 + |l|, rest, target, fuel);
      Steps(buf, pos, l, fuel + 1 + |rest|, rest + n, pos + 1 + |l| + |Body(rest)| + 2);
      FirstAndRest(labels, n);
    }
  }

  /**
   A compressed name is its own labels followed by the name at the pointer's target, unless that is too long; reading
   goes on just after the pointer.
   */
  lemma CompressedName(buf: seq<byte>, pos: nat, labels: Name, target: nat)
    requires Compressed(buf, pos, labels, target) && DecodeName(buf, target).Ok?
    ensures var n := labels + DecodeName(buf, target).value.0;
      DecodeName(buf, pos) == if WireLength(n) <= MAX_NAME then Ok((n, pos + |Body(labels)| + 2)) else Err(NameTooLong)
  {
    hide Compressed, Follow;
    var fuel := |buf| + 1;
    FollowCompressed(buf, pos, labels, target, fuel);
    var long := fuel + 1 + |labels|;
    EndsIff(buf, pos);
    MoreFuel(buf, pos, fuel, long);
  }
}
