/**
 The round trip of the message codec. Decoding inverts encoding exactly on canonical messages; a decoder
 produces nothing else; and a canonical message can fail to encode only by being too long.
 */
module MessageRoundTrip {
  import opened Base
  import opened Names
  import opened Records
  import opened WireNames
  import opened Messages

  // ---------------------------------------------------------------------------------------
  // Integers and the header

  lemma U16At(buf: seq<byte>, pos: nat, x: u16)
    requires At(buf, pos, Be16(x))
    ensures ReadU16(buf, pos) == Ok((x, pos + 2))
  {
    var part := buf[pos..pos + 2];
    assert part[0] == buf[pos] && part[1] == buf[pos + 1];
  }

  lemma U32At(buf: seq<byte>, pos: nat, x: u32)
    requires At(buf, pos, Be32(x))
    ensures ReadU32(buf, pos) == Ok((x, pos + 4))
  {
    var part := buf[pos..pos + 4];
    assert part[0] == buf[pos] && part[1] == buf[pos + 1] && part[2] == buf[pos + 2] && part[3] == buf[pos + 3];
    var y := FromBe32(buf[pos], buf[pos + 1], buf[pos + 2], buf[pos + 3]);
    Be32Injective(x, y);
  }

  /** A field of `size` values that stands at weight `w` of a word, between what is above and what is below it. */
  lemma FieldAt(word: nat, above: nat, field: nat, size: nat, w: nat, low: nat)
    requires low < w && field < size && word == (above * size + field) * w + low
    ensures word / w % size == field
  {
    Quotient(above * size + field, w, low);
    Quotient(above, size, field);
  }

  lemma WordFields(word: nat, qr: nat, op: nat, aa: nat, tc: nat, rd: nat, ra: nat, rc: nat)
    requires op < 16 && rc < 16 && qr < 2 && aa < 2 && tc < 2 && rd < 2 && ra < 2
    requires word == qr * 0x8000 + op * 0x800 + aa * 0x400 + tc * 0x200 + rd * 0x100 + ra * 0x80 + rc
    ensures word / 0x8000 % 2 == qr && word / 0x800 % 16 == op && word / 0x400 % 2 == aa && word / 0x200 % 2 == tc
    ensures word / 0x100 % 2 == rd && word / 0x80 % 2 == ra && word % 16 == rc
  {
    var d := ra * 0x80 + rc;
    var c := rd * 0x100 + d;
    var b := tc * 0x200 + c;
    var a := aa * 0x400 + b;
    FieldAt(word, 0, qr, 2, 0x8000, op * 0x800 + a);
    FieldAt(word, qr, op, 16, 0x800, a);
    FieldAt(word, qr * 16 + op, aa, 2, 0x400, b);
    FieldAt(word, qr * 32 + op * 2 + aa, tc, 2, 0x200, c);
    FieldAt(word, qr * 64 + op * 4 + aa * 2 + tc, rd, 2, 0x100, d);
    FieldAt(word, qr * 128 + op * 8 + aa * 4 + tc * 2 + rd, ra, 2, 0x80, rc);
    FieldAt(word, qr * 2048 + op * 128 + aa * 64 + tc * 32 + rd * 16 + ra * 8, rc, 16, 1, 0);
  }

  /** The fields of the flag word occupy bits of their own. */
  lemma FieldsApart(h: Header)
    ensures var f := Flags(h);
      && f / 0x8000 % 2 == Bit(h.qr, 1) && f / 0x800 % 16 == OpcodeBits(h.opcode)
      && f / 0x400 % 2 == Bit(h.authoritative, 1) && f / 0x200 % 2 == Bit(h.truncated, 1)
      && f / 0x100 % 2 == Bit(h.recursionDesired, 1) && f / 0x80 % 2 == Bit(h.recursionAvailable, 1)
      && f % 16 == RcodeBits(h.rcode)
  {
    var op: nat, rc: nat := OpcodeBits(h.opcode), RcodeBits(h.rcode);
    BitWeight(h.qr, 0x8000);
    BitWeight(h.authoritative, 0x400);
    BitWeight(h.truncated, 0x200);
    BitWeight(h.recursionDesired, 0x100);
    BitWeight(h.recursionAvailable, 0x80);
    hide OpcodeBits, RcodeBits, Bit;
    WordFields(Flags(h), Bit(h.qr, 1), op, Bit(h.authoritative, 1), Bit(h.truncated, 1),
               Bit(h.recursionDesired, 1), Bit(h.recursionAvailable, 1), rc);
  }

  lemma BitWeight(b: bool, w: nat)
    ensures Bit(b, w) == Bit(b, 1) * w && Bit(b, 1) < 2
  {
  }

  lemma NamedCodes(h: Header)
    ensures CanonicalHeader(h)
       <==> OpcodeFrom(OpcodeBits(h.opcode)) == h.opcode && RcodeFrom(RcodeBits(h.rcode)) == h.rcode
  {
  }

  /** The flag word gives back every header field exactly when opcode and rcode are in canonical form. */
  lemma FlagsRoundTrip(h: Header)
    ensures HeaderFrom(h.id, Flags(h)) == h <==> CanonicalHeader(h)
  {
    NamedCodes(h);
    hide Flags, OpcodeFrom, OpcodeBits, RcodeFrom, RcodeBits;
    FieldsApart(h);
  }

  /** Any flag word decodes to a canonical header. */
  lemma DecodedHeader(id: u16, flags: u16)
    ensures CanonicalHeader(HeaderFrom(id, flags))
  {
    assert 0 <= flags / 0x800 % 16 < 16 && 0 <= flags % 16 < 16;
  }

  // ---------------------------------------------------------------------------------------
  // Record data

  lemma {:induction false} StringsAt(buf: seq<byte>, pos: nat, strings: seq<seq<byte>>)
    requires EncodeStrings(strings).Ok? && At(buf, pos, EncodeStrings(strings).value)
    ensures DecodeStrings(buf, pos, pos + |EncodeStrings(strings).value|) == Ok(strings)
    decreases |strings|
  {
    hide At;
    if strings != [] {
      var s, rest := strings[0], EncodeStrings(strings[1..]).value;
      AtSplit(buf, pos, [|s|] + s, rest);
      LengthAt(buf, pos, s);
      StringsAt(buf, pos + 1 + |s|, strings[1..]);
      assert buf[pos + 1..pos + 1 + |s|] == s && [s] + strings[1..] == strings;
    }
  }

  /** Text encodes exactly when every string has at most 255 bytes. */
  lemma {:induction false} StringsEncode(strings: seq<seq<byte>>)
    ensures EncodeStrings(strings).Ok? <==> forall i :: 0 <= i < |strings| ==> |strings[i]| <= 255
    ensures EncodeStrings(strings).Ok? || EncodeStrings(strings) == Err(LabelTooLong)
  {
    if strings != [] {
      StringsEncode(strings[1..]);
      assert forall i :: 0 < i < |strings| ==> strings[i] == strings[1..][i - 1];
    }
  }

  lemma {:induction false} DecodedStrings(buf: seq<byte>, pos: nat, end: nat)
    requires pos <= end <= |buf| && DecodeStrings(buf, pos, end).Ok?
    ensures forall i :: 0 <= i < |DecodeStrings(buf, pos, end).value| ==> |DecodeStrings(buf, pos, end).value[i]| <= 255
    decreases end - pos
  {
    if pos != end {
      DecodedStrings(buf, pos + 1 + buf[pos], end);
    }
  }

  lemma MxAt(buf: seq<byte>, pos: nat, r: RData)
    requires r.RMx? && CanonicalRData(r) && At(buf, pos, EncodeRData(r).value)
    ensures DecodeMx(buf, pos, |EncodeRData(r).value|) == Ok((r, pos + |EncodeRData(r).value|))
  {
    hide DecodeName, At, Wire, FromBe16, Be16, WireLength;
    AtSplit(buf, pos, Be16(r.preference), Wire(r.exchange));
    U16At(buf, pos, r.preference);
    NameRoundTrip(buf, pos + 2, r.exchange);
  }

  /** The five integers that end an SOA record. */
  function SoaTimes(r: RData): seq<byte>
    requires r.RSoa?
  {
    Be32(r.serial) + Be32(r.refresh) + Be32(r.retry) + Be32(r.expire) + Be32(r.minimum)
  }

  lemma SoaTimesAt(buf: seq<byte>, pos: nat, r: RData)
    requires r.RSoa? && At(buf, pos, SoaTimes(r))
    ensures ReadU32(buf, pos) == Ok((r.serial, pos + 4)) && ReadU32(buf, pos + 4) == Ok((r.refresh, pos + 8))
    ensures ReadU32(buf, pos + 8) == Ok((r.retry, pos + 12)) && ReadU32(buf, pos + 12) == Ok((r.expire, pos + 16))
    ensures ReadU32(buf, pos + 16) == Ok((r.minimum, pos + 20))
  {
    hide At, Be32, ReadU32;
    var a, b, c, d, e := Be32(r.serial), Be32(r.refresh), Be32(r.retry), Be32(r.expire), Be32(r.minimum);
    AtSplit(buf, pos, a + b + c + d, e);
    AtSplit(buf, pos, a + b + c, d);
    AtSplit(buf, pos, a + b, c);
    AtSplit(buf, pos, a, b);
    U32At(buf, pos, r.serial);
    U32At(buf, pos + 4, r.refresh);
    U32At(buf, pos + 8, r.retry);
    U32At(buf, pos + 12, r.expire);
    U32At(buf, pos + 16, r.minimum);
  }

  lemma SoaAt(buf: seq<byte>, pos: nat, r: RData)
    requires r.RSoa? && CanonicalRData(r) && At(buf, pos, EncodeRData(r).value)
    ensures DecodeSoa(buf, pos, |EncodeRData(r).value|) == Ok((r, pos + |EncodeRData(r).value|))
  {
    hide At, Be32, ReadU32, DecodeName, Wire;
    var m, n := Wire(r.mname), Wire(r.rname);
    AtSplit(buf, pos, m + n, SoaTimes(r));
    AtSplit(buf, pos, m, n);
    NameRoundTrip(buf, pos, r.mname);
    NameRoundTrip(buf, pos + |m|, r.rname);
    SoaTimesAt(buf, pos + |m| + |n|, r);
  }

  lemma RDataAt(buf: seq<byte>, pos: nat, r: RData)
    requires CanonicalRData(r) && EncodeRData(r).Ok? && At(buf, pos, EncodeRData(r).value)
    ensures DecodeRData(buf, pos, TypeOf(r), |EncodeRData(r).value|) == Ok((r, pos + |EncodeRData(r).value|))
  {
    hide DecodeName, Wire, DecodeMx, DecodeSoa, DecodeStrings, EncodeStrings;
    match r
    case RCname(name) => NameRoundTrip(buf, pos, name);
    case RPtr(name) => NameRoundTrip(buf, pos, name);
    case RNs(name) => NameRoundTrip(buf, pos, name);
    case RTxt(strings) => StringsAt(buf, pos, strings);
    case RMx(_, _) => MxAt(buf, pos, r);
    case RSoa(_, _, _, _, _, _, _) => SoaAt(buf, pos, r);
    case _ =>
  }

  /** Canonical record data always encodes. */
  lemma RDataEncodes(r: RData)
    requires CanonicalRData(r)
    ensures EncodeRData(r).Ok?
  {
    if r.RTxt? {
      StringsEncode(r.strings);
    }
  }

  lemma DecodedRData(buf: seq<byte>, pos: nat, code: u16, len: nat)
    requires DecodeRData(buf, pos, TypeFrom(code), len).Ok?
    ensures var (r, after) := DecodeRData(buf, pos, TypeFrom(code), len).value;
      CanonicalRData(r) && TypeOf(r) == TypeFrom(code) && after == pos + len
  {
    hide DecodeName, DecodeStrings, WireLength, ReadU16, ReadU32;
    match TypeFrom(code)
    case Cname => DecodedNameWellformed(buf, pos);
    case Ptr => DecodedNameWellformed(buf, pos);
    case Ns => DecodedNameWellformed(buf, pos);
    case Txt => DecodedStrings(buf, pos, pos + len);
    case Mx => DecodedNameWellformed(buf, ReadU16(buf, pos).value.1);
    case Soa =>
      DecodedNameWellformed(buf, pos);
      DecodedNameWellformed(buf, DecodeName(buf, pos).value.1);
    case _ =>
  }

  // ---------------------------------------------------------------------------------------
  // Questions and records

  lemma QuestionAt(buf: seq<byte>, pos: nat, q: Question)
    requires CanonicalQuestion(q) && At(buf, pos, EncodeQuestion(q).value)
    ensures DecodeQuestion(buf, pos) == Ok((q, pos + |EncodeQuestion(q).value|))
  {
    hide At, DecodeName, Wire, ReadU16, Be16;
    var name, t, c := Wire(q.name), Be16(TypeCode(q.qtype)), Be16(ClassCode(q.qclass));
    AtSplit(buf, pos, name, t + c);
    AtSplit(buf, pos + |name|, t, c);
    NameRoundTrip(buf, pos, q.name);
    U16At(buf, pos + |name|, TypeCode(q.qtype));
    U16At(buf, pos + |name| + 2, ClassCode(q.qclass));
  }

  lemma FixedAt(buf: seq<byte>, pos: nat, r: Record, len: u16)
    requires At(buf, pos, RecordFixed(r, len))
    ensures ReadU16(buf, pos) == Ok((TypeCode(TypeOf(r.rdata)), pos + 2))
    ensures ReadU16(buf, pos + 2) == Ok((ClassCode(r.class_), pos + 4))
    ensures ReadU32(buf, pos + 4) == Ok((r.ttl, pos + 8)) && ReadU16(buf, pos + 8) == Ok((len, pos + 10))
  {
    hide At, ReadU16, ReadU32, Be16, Be32;
    var t, c, l, n := Be16(TypeCode(TypeOf(r.rdata))), Be16(ClassCode(r.class_)), Be32(r.ttl), Be16(len);
    AtSplit(buf, pos, t + c + l, n);
    AtSplit(buf, pos, t + c, l);
    AtSplit(buf, pos, t, c);
    U16At(buf, pos, TypeCode(TypeOf(r.rdata)));
    U16At(buf, pos + 2, ClassCode(r.class_));
    U32At(buf, pos + 4, r.ttl);
    U16At(buf, pos + 8, len);
  }

  lemma RecordAt(buf: seq<byte>, pos: nat, r: Record)
    requires CanonicalRecord(r) && EncodeRecord(r).Ok? && At(buf, pos, EncodeRecord(r).value)
    ensures DecodeRecord(buf, pos) == Ok((r, pos + |EncodeRecord(r).value|))
  {
    hide At, ReadU16, ReadU32, DecodeName, DecodeRData, EncodeRData, Wire, RecordFixed, CanonicalRData, WireLength;
    var name, rdata := Wire(r.name), EncodeRData(r.rdata).value;
    AtSplit(buf, pos, name + RecordFixed(r, |rdata|), rdata);
    AtSplit(buf, pos, name, RecordFixed(r, |rdata|));
    NameRoundTrip(buf, pos, r.name);
    FixedAt(buf, pos + |name|, r, |rdata|);
    RDataAt(buf, pos + |name| + 10, r.rdata);
    TypeKept(r);
  }

  lemma TypeKept(r: Record)
    requires CanonicalRecord(r)
    ensures TypeFrom(TypeCode(TypeOf(r.rdata))) == r.rtype
    ensures DecodeClass(TypeCode(r.rtype), ClassCode(r.class_)) == Ok(r.class_)
    ensures DecodeTtl(TypeCode(r.rtype), r.ttl) == r.ttl
  {
  }

  lemma DecodedQuestion(buf: seq<byte>, pos: nat)
    ensures DecodeQuestion(buf, pos).Ok? ==> CanonicalQuestion(DecodeQuestion(buf, pos).value.0)
  {
    hide DecodeName, ReadU16, WireLength;
    if DecodeQuestion(buf, pos).Ok? {
      DecodedNameWellformed(buf, pos);
    }
  }

  lemma DecodedRecord(buf: seq<byte>, pos: nat)
    ensures DecodeRecord(buf, pos).Ok? ==> CanonicalRecord(DecodeRecord(buf, pos).value.0)
  {
    hide DecodeName, ReadU16, ReadU32, WireLength, DecodeRData, CanonicalRData;
    if DecodeRecord(buf, pos).Ok? {
      var p1 := DecodeName(buf, pos).value.1;
      var (code, p2) := ReadU16(buf, p1).value;
      var (class_, p3) := ReadU16(buf, p2).value;
      var (ttl, p4) := ReadU32(buf, p3).value;
      var (len, p5) := ReadU16(buf, p4).value;
      DecodedNameWellformed(buf, pos);
      DecodedRData(buf, p5, code, len);
      assert TypeCode(TypeFrom(code)) == code;
    }
  }

  lemma RecordEncodes(r: Record)
    requires CanonicalRecord(r)
    ensures EncodeRecord(r).Ok? || EncodeRecord(r) == Err(MessageTooLong)
  {
    RDataEncodes(r.rdata);
  }

  // ---------------------------------------------------------------------------------------
  // Sections

  predicate CanonicalQuestions(qs: seq<Question>) {
    forall i :: 0 <= i < |qs| ==> CanonicalQuestion(qs[i])
  }

  predicate CanonicalRecords(rs: seq<Record>) {
    forall i :: 0 <= i < |rs| ==> CanonicalRecord(rs[i])
  }

  lemma {:induction false} QuestionsAt(buf: seq<byte>, pos: nat, qs: seq<Question>)
    requires CanonicalQuestions(qs) && EncodeQuestions(qs).Ok? && At(buf, pos, EncodeQuestions(qs).value)
    ensures DecodeQuestions(buf, pos, |qs|) == Ok((qs, pos + |EncodeQuestions(qs).value|))
    decreases |qs|
  {
    hide At, EncodeQuestion, DecodeQuestion, CanonicalQuestion;
    if qs != [] {
      var first, rest := EncodeQuestion(qs[0]).value, EncodeQuestions(qs[1..]).value;
      AtSplit(buf, pos, first, rest);
      QuestionAt(buf, pos, qs[0]);
      QuestionsAt(buf, pos + |first|, qs[1..]);
      assert [qs[0]] + qs[1..] == qs;
    }
  }

  lemma {:induction false} RecordsAt(buf: seq<byte>, pos: nat, rs: seq<Record>)
    requires CanonicalRecords(rs) && EncodeRecords(rs).Ok? && At(buf, pos, EncodeRecords(rs).value)
    ensures DecodeRecords(buf, pos, |rs|) == Ok((rs, pos + |EncodeRecords(rs).value|))
    decreases |rs|
  {
    hide At, EncodeRecord, DecodeRecord, CanonicalRecord;
    if rs != [] {
      var first, rest := EncodeRecord(rs[0]).value, EncodeRecords(rs[1..]).value;
      AtSplit(buf, pos, first, rest);
      RecordAt(buf, pos, rs[0]);
      RecordsAt(buf, pos + |first|, rs[1..]);
      assert [rs[0]] + rs[1..] == rs;
    }
  }

  lemma {:induction false} RecordsConcat(a: seq<Record>, b: seq<Record>)
    requires EncodeRecords(a + b).Ok?
    ensures EncodeRecords(a).Ok? && EncodeRecords(b).Ok?
    ensures EncodeRecords(a + b).value == EncodeRecords(a).value + EncodeRecords(b).value
  {
    hide EncodeRecord;
    if a == [] {
      assert a + b == b;
    } else {
      assert (a + b)[1..] == a[1..] + b;
      RecordsConcat(a[1..], b);
      var first, rest := EncodeRecord(a[0]).value, EncodeRecords(a[1..]).value;
      assert first + (rest + EncodeRecords(b).value) == (first + rest) + EncodeRecords(b).value;
    }
  }

  lemma {:induction false} QuestionsEncode(qs: seq<Question>)
    requires CanonicalQuestions(qs)
    ensures EncodeQuestions(qs).Ok?
  {
    if qs != [] {
      assert CanonicalQuestion(qs[0]);
      QuestionsEncode(qs[1..]);
    }
  }

  lemma {:induction false} RecordsEncode(rs: seq<Record>)
    requires CanonicalRecords(rs)
    ensures EncodeRecords(rs).Ok? || EncodeRecords(rs) == Err(MessageTooLong)
  {
    hide EncodeRecord, CanonicalRecord;
    if rs != [] {
      RecordEncodes(rs[0]);
      RecordsEncode(rs[1..]);
    }
  }

  lemma {:induction false} DecodedQuestions(buf: seq<byte>, pos: nat, count: nat)
    ensures var r := DecodeQuestions(buf, pos, count); r.Ok? ==> CanonicalQuestions(r.value.0) && |r.value.0| == count
    decreases count
  {
    hide DecodeQuestion, CanonicalQuestion;
    if count > 0 && DecodeQuestion(buf, pos).Ok? {
      DecodedQuestion(buf, pos);
      DecodedQuestions(buf, DecodeQuestion(buf, pos).value.1, count - 1);
    }
  }

  lemma {:induction false} DecodedRecords(buf: seq<byte>, pos: nat, count: nat)
    ensures var r := DecodeRecords(buf, pos, count); r.Ok? ==> CanonicalRecords(r.value.0) && |r.value.0| == count
    decreases count
  {
    hide DecodeRecord, CanonicalRecord;
    if count > 0 && DecodeRecord(buf, pos).Ok? {
      DecodedRecord(buf, pos);
      DecodedRecords(buf, DecodeRecord(buf, pos).value.1, count - 1);
    }
  }

  // ---------------------------------------------------------------------------------------
  // Messages

  lemma HeaderAt(buf: seq<byte>, m: Message)
    requires CountsFit(m) && CanonicalHeader(m.header) && At(buf, 0, EncodeHeader(m))
    ensures DecodeHeader(buf)
         == Ok((m.header, Counts(|m.questions|, |m.answers|, |m.authorities|, |m.additionals|), 12))
  {
    hide At, ReadU16, Be16, HeaderFrom, Flags, CanonicalHeader;
    var a, b, c := Be16(m.header.id), Be16(Flags(m.header)), Be16(|m.questions|);
    var d, e, f := Be16(|m.answers|), Be16(|m.authorities|), Be16(|m.additionals|);
    AtSplit(buf, 0, a + b + c + d + e, f);
    AtSplit(buf, 0, a + b + c + d, e);
    AtSplit(buf, 0, a + b + c, d);
    AtSplit(buf, 0, a + b, c);
    AtSplit(buf, 0, a, b);
    U16At(buf, 0, m.header.id);
    U16At(buf, 2, Flags(m.header));
    U16At(buf, 4, |m.questions|);
    U16At(buf, 6, |m.answers|);
    U16At(buf, 8, |m.authorities|);
    U16At(buf, 10, |m.additionals|);
    FlagsRoundTrip(m.header);
  }

  /** Decoding an encoded canonical message gives it back, names with their letter case. */
  lemma RoundTrip(m: Message)
    requires Canonical(m) && Encode(m).Ok?
    ensures Decode(Encode(m).value) == Ok(m)
  {
    hide At, DecodeHeader, DecodeQuestions, DecodeRecords, EncodeHeader, EncodeQuestions, EncodeRecords;
    hide CanonicalHeader, CanonicalQuestion, CanonicalRecord;
    var buf := Encode(m).value;
    var header, qs := EncodeHeader(m), EncodeQuestions(m.questions).value;
    var rs := EncodeRecords(m.answers + m.authorities + m.additionals).value;
    RecordsConcat(m.answers + m.authorities, m.additionals);
    RecordsConcat(m.answers, m.authorities);
    var ans, auth, add := EncodeRecords(m.answers).value, EncodeRecords(m.authorities).value,
      EncodeRecords(m.additionals).value;
    assert buf == [] + (header + qs + rs) == header + qs + rs;
    WholeAt(buf);
    AtSplit(buf, 0, header + qs, rs);
    AtSplit(buf, 0, header, qs);
    AtSplit(buf, 12 + |qs|, ans + auth, add);
    AtSplit(buf, 12 + |qs|, ans, auth);
    HeaderAt(buf, m);
    QuestionsAt(buf, 12, m.questions);
    RecordsAt(buf, 12 + |qs|, m.answers);
    RecordsAt(buf, 12 + |qs| + |ans|, m.authorities);
    RecordsAt(buf, 12 + |qs| + |ans| + |auth|, m.additionals);
  }

  lemma WholeAt(buf: seq<byte>)
    ensures At(buf, 0, buf)
  {
  }

  /** Whatever decodes is canonical, so it is one of the messages the round trip covers. */
  lemma DecodedIsCanonical(buf: seq<byte>)
    ensures Decode(buf).Ok? ==> Canonical(Decode(buf).value) && CountsFit(Decode(buf).value)
  {
    hide ReadU16, DecodeQuestions, DecodeRecords, HeaderFrom;
    hide CanonicalHeader, CanonicalQuestion, CanonicalRecord;
    if !Decode(buf).Ok? {
      return;
    }
    var id := ReadU16(buf, 0).value.0;
    var flags := ReadU16(buf, ReadU16(buf, 0).value.1).value.0;
    DecodedHeader(id, flags);
    var (header, counts, p0) := DecodeHeader(buf).value;
    var p1 := DecodeQuestions(buf, p0, counts.questions).value.1;
    var p2 := DecodeRecords(buf, p1, counts.answers).value.1;
    var p3 := DecodeRecords(buf, p2, counts.authorities).value.1;
    DecodedQuestions(buf, p0, counts.questions);
    DecodedRecords(buf, p1, counts.answers);
    DecodedRecords(buf, p2, counts.authorities);
    DecodedRecords(buf, p3, counts.additionals);
  }

  /** A canonical message encodes, or is too long: no other error is possible. */
  lemma CanonicalEncodes(m: Message, buf: seq<byte>)
    requires Canonical(m)
    ensures EncodeInto(m, buf).Ok? || EncodeInto(m, buf) == Err(MessageTooLong)
  {
    hide EncodeQuestions, EncodeRecords, CanonicalQuestion, CanonicalRecord;
    QuestionsEncode(m.questions);
    RecordsEncode(m.answers + m.authorities + m.additionals);
  }

  /** Among the messages that encode, decoding gives the message back exactly for the canonical ones. */
  lemma RoundTripIff(m: Message)
    requires Encode(m).Ok?
    ensures Decode(Encode(m).value) == Ok(m) <==> Canonical(m)
  {
    hide Canonical, Decode, Encode;
    if Canonical(m) {
      RoundTrip(m);
    }
    if Decode(Encode(m).value) == Ok(m) {
      DecodedIsCanonical(Encode(m).value);
    }
  }

  /** Decoding, encoding and decoding again settles: the second decoding changes nothing. */
  lemma ReencodingSettles(buf: seq<byte>)
    ensures Decode(buf).Ok? ==>
      var m := Decode(buf).value;
      if Encode(m).Ok? then Decode(Encode(m).value) == Ok(m) else Encode(m) == Err(MessageTooLong)
  {
    hide Canonical, Decode, EncodeInto;
    if !Decode(buf).Ok? {
      return;
    }
    DecodedIsCanonical(buf);
    var m := Decode(buf).value;
    CanonicalEncodes(m, []);
    if Encode(m).Ok? {
      RoundTrip(m);
    }
  }

  // ---------------------------------------------------------------------------------------
  // Messages that come back changed

  function BareMessage(opcode: Opcode, answers: seq<Record>): Message {
    Message(Header(0, false, opcode, false, false, false, false, NoError), [], answers, [], [])
  }

  /** A message without questions and records is its header. */
  lemma BareEncodes(m: Message)
    requires m == Message(m.header, [], [], [], [])
    ensures Encode(m) == Ok(EncodeHeader(m))
  {
    hide Flags;
    var none: seq<Record> := [];
    assert none + none + none == none;
    assert EncodeRecords(none) == Ok([]) && EncodeQuestions([]) == Ok([]);
    assert [] + (EncodeHeader(m) + [] + []) == EncodeHeader(m);
  }

  /** A numbered opcode that has a name comes back by its name. */
  lemma NumberedOpcodeChanges()
    ensures var m := BareMessage(OtherOpcode(0), []);
      Encode(m).Ok? && Decode(Encode(m).value) == Ok(BareMessage(Query, [])) && Decode(Encode(m).value) != Ok(m)
  {
    hide Encode, Decode, Canonical, EncodeHeader;
    var m, named := BareMessage(OtherOpcode(0), []), BareMessage(Query, []);
    BareEncodes(m);
    BareEncodes(named);
    SameHeaderBytes(m, named);
    BareCanonical(named);
    RoundTrip(named);
  }

  lemma SameHeaderBytes(m: Message, n: Message)
    requires CountsFit(m) && m.(header := n.header) == n
    requires m.header.(opcode := n.header.opcode) == n.header && OpcodeBits(m.header.opcode) == OpcodeBits(n.header.opcode)
    ensures EncodeHeader(m) == EncodeHeader(n)
  {
  }

  lemma BareCanonical(m: Message)
    requires m == Message(m.header, [], [], [], []) && CanonicalHeader(m.header)
    ensures Canonical(m)
  {
  }

  /** A type that disagrees with the data comes back as the type of the data. */
  lemma WrongTypeChanges(octets: seq<byte>)
    requires |octets| == 4
    ensures var right := Record([], A, In, 0, RA(octets));
      var m := BareMessage(Query, [right.(rtype := Txt)]);
      Encode(m).Ok? && Decode(Encode(m).value) == Ok(BareMessage(Query, [right])) && Decode(Encode(m).value) != Ok(m)
  {
    hide Encode, Decode, Canonical, EncodeRecord;
    var right := Record([], A, In, 0, RA(octets));
    var wrong := right.(rtype := Txt);
    AddressBytes(octets, A);
    AddressBytes(octets, Txt);
    OneAnswer(right);
    OneAnswer(wrong);
    AddressCanonical(octets);
    RoundTrip(BareMessage(Query, [right]));
  }

  /** The type field plays no part in the encoding. */
  lemma AddressBytes(octets: seq<byte>, rtype: RecordType)
    requires |octets| == 4
    ensures var r := Record([], rtype, In, 0, RA(octets));
      EncodeRecord(r) == EncodeRecord(r.(rtype := A)) && EncodeRecord(r).Ok? && |EncodeRecord(r).value| == 15
  {
  }

  lemma AddressCanonical(octets: seq<byte>)
    requires |octets| == 4
    ensures Canonical(BareMessage(Query, [Record([], A, In, 0, RA(octets))]))
  {
  }

  lemma OneAnswer(r: Record)
    requires EncodeRecord(r).Ok? && |EncodeRecord(r).value| == 15
    ensures var m := BareMessage(Query, [r]);
      Encode(m) == Ok(EncodeHeader(m) + EncodeRecord(r).value)
  {
    hide EncodeRecord, EncodeHeader;
    var m := BareMessage(Query, [r]);
    OneRecord(r);
    assert EncodeQuestions([]) == Ok([]);
    assert [] + (EncodeHeader(m) + [] + EncodeRecord(r).value) == EncodeHeader(m) + EncodeRecord(r).value;
  }

  lemma OneRecord(r: Record)
    requires EncodeRecord(r).Ok?
    ensures EncodeRecords([r] + [] + []) == EncodeRecord(r)
  {
    hide EncodeRecord;
    assert [r] + [] + [] == [r] && [r][1..] == [];
    assert EncodeRecords([]) == Ok([]);
    assert EncodeRecord(r).value + [] == EncodeRecord(r).value;
  }
}
