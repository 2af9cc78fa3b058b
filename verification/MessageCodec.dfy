/** The codec as the source runs it: an output buffer that grows and is back-patched, and a cursor that moves. */
module MessageCodec {
  import opened Base
  import opened Names
  import opened Records
  import opened WireNames
  import opened Messages
  import opened MessageNames

  /** What an encoder did to its buffer, given the encoding it should append. */
  ghost predicate Appends(before: seq<byte>, after: seq<byte>, failed: Option<Error>, what: Decoded<seq<byte>>) {
    match what
    case Ok(bytes) => failed.None? && after == before + bytes
    case Err(e) => failed == Some(e) && before <= after
    case Diverges => false
  }

  class Writer {
    var bytes: seq<byte>

    constructor (start: seq<byte>)
      ensures bytes == start
    {
      bytes := start;
    }

    /** Appends a name, without compression. */
    method Name(name: Name) returns (failed: Option<Error>)
      modifies this
      ensures Appends(old(bytes), bytes, failed, EncodeName(name))
    {
      if WireLength(name) > MAX_NAME {
        return Some(NameTooLong);
      }
      hide Body, WireLength;
      ghost var written: seq<byte> := [];
      NoLabels(name);
      for i := 0 to |name|
        invariant Fits(name[..i])
        invariant written == Body(name[..i]) && bytes == old(bytes) + written
      {
        if |name[i]| > MAX_LABEL {
          assert !Fits(name);
          return Some(LabelTooLong);
        }
        bytes := bytes + [|name[i]|];
        bytes := bytes + name[i];
        assert name[..i + 1] == name[..i] + [name[i]];
        BodyPush(name[..i], name[i]);
        written := Body(name[..i + 1]);
      }
      assert name[..|name|] == name;
      bytes := bytes + [0];
      failed := None;
    }

    method Strings(strings: seq<seq<byte>>) returns (failed: Option<Error>)
      modifies this
      ensures Appends(old(bytes), bytes, failed, EncodeStrings(strings))
    {
      hide EncodeStrings;
      ghost var written: seq<byte> := [];
      FollowsNothing(EncodeStrings(strings));
      assert strings[0..] == strings;
      for i := 0 to |strings|
        invariant bytes == old(bytes) + written
        invariant EncodeStrings(strings) == Followed(written, EncodeStrings(strings[i..]))
      {
        var s := strings[i];
        StringsFrom(strings, i);
        if |s| > 255 {
          return Some(LabelTooLong);
        }
        bytes := bytes + [|s|];
        bytes := bytes + s;
        FollowedTwice(written, [|s|] + s, EncodeStrings(strings[i + 1..]));
        written := written + ([|s|] + s);
      }
      StringsFrom(strings, |strings|);
      failed := None;
    }

    method Soa(r: RData) returns (failed: Option<Error>)
      requires r.RSoa?
      modifies this
      ensures Appends(old(bytes), bytes, failed, EncodeRData(r))
    {
      hide EncodeName, Be32;
      failed := Name(r.mname);
      if failed.Some? {
        return;
      }
      failed := Name(r.rname);
      if failed.Some? {
        return;
      }
      ghost var names := bytes;
      bytes := bytes + Be32(r.serial);
      bytes := bytes + Be32(r.refresh);
      bytes := bytes + Be32(r.retry);
      bytes := bytes + Be32(r.expire);
      bytes := bytes + Be32(r.minimum);
      assert bytes == names + (Be32(r.serial) + Be32(r.refresh) + Be32(r.retry) + Be32(r.expire) + Be32(r.minimum));
    }

    method RData(r: RData) returns (failed: Option<Error>)
      modifies this
      ensures Appends(old(bytes), bytes, failed, EncodeRData(r))
    {
      hide EncodeName, EncodeStrings;
      failed := None;
      match r
      case RA(octets) => bytes := bytes + octets;
      case RAaaa(octets) => bytes := bytes + octets;
      case RCname(name) => failed := Name(name);
      case RPtr(name) => failed := Name(name);
      case RNs(name) => failed := Name(name);
      case RTxt(strings) => failed := Strings(strings);
      case RMx(preference, exchange) =>
        bytes := bytes + Be16(preference);
        failed := Name(exchange);
      case RSoa(_, _, _, _, _, _, _) => failed := Soa(r);
      case RUnknown(_, data) => bytes := bytes + data;
    }

    method Question(q: Question) returns (failed: Option<Error>)
      modifies this
      ensures Appends(old(bytes), bytes, failed, EncodeQuestion(q))
    {
      hide EncodeName;
      failed := Name(q.name);
      if failed.None? {
        bytes := bytes + Be16(TypeCode(q.qtype));
        bytes := bytes + Be16(ClassCode(q.qclass));
      }
    }

    /** Appends a record with a placeholder for its data length, then writes the length over it. */
    method Record(r: Record) returns (failed: Option<Error>)
      modifies this
      ensures Appends(old(bytes), bytes, failed, EncodeRecord(r))
    {
      hide EncodeName, EncodeRData, TypeOf, TypeCode, ClassCode;
      failed := Name(r.name);
      if failed.Some? {
        return;
      }
      bytes := bytes + Be16(TypeCode(TypeOf(r.rdata)));
      bytes := bytes + Be16(ClassCode(r.class_));
      bytes := bytes + Be32(r.ttl);
      var placeholder := |bytes|;
      ghost var head := bytes;
      bytes := bytes + [0, 0];
      var start := |bytes|;
      failed := RData(r.rdata);
      if failed.Some? {
        return;
      }
      var len := |bytes| - start;
      if len > 0xFFFF {
        return Some(MessageTooLong);
      }
      ghost var rdata := EncodeRData(r.rdata).value;
      assert bytes == head + [0, 0] + rdata;
      bytes := bytes[placeholder := len / 256][placeholder + 1 := len % 256];
      assert bytes == head + Be16(len) + rdata;
      assert head + Be16(len) == old(bytes) + (EncodeName(r.name).value + RecordFixed(r, len));
    }

    method Questions(qs: seq<Question>) returns (failed: Option<Error>)
      modifies this
      ensures Appends(old(bytes), bytes, failed, EncodeQuestions(qs))
    {
      hide EncodeQuestion;
      ghost var written: seq<byte> := [];
      FollowsNothing(EncodeQuestions(qs));
      assert qs[0..] == qs;
      for i := 0 to |qs|
        invariant bytes == old(bytes) + written
        invariant EncodeQuestions(qs) == Followed(written, EncodeQuestions(qs[i..]))
      {
        assert qs[i..][0] == qs[i] && qs[i..][1..] == qs[i + 1..];
        failed := Question(qs[i]);
        if failed.Some? {
          return;
        }
        FollowedTwice(written, EncodeQuestion(qs[i]).value, EncodeQuestions(qs[i + 1..]));
        written := written + EncodeQuestion(qs[i]).value;
      }
      failed := None;
    }

    method Records(rs: seq<Record>) returns (failed: Option<Error>)
      modifies this
      ensures Appends(old(bytes), bytes, failed, EncodeRecords(rs))
    {
      hide EncodeRecord;
      ghost var written: seq<byte> := [];
      FollowsNothing(EncodeRecords(rs));
      assert rs[0..] == rs;
      for i := 0 to |rs|
        invariant bytes == old(bytes) + written
        invariant EncodeRecords(rs) == Followed(written, EncodeRecords(rs[i..]))
      {
        assert rs[i..][0] == rs[i] && rs[i..][1..] == rs[i + 1..];
        failed := Record(rs[i]);
        if failed.Some? {
          return;
        }
        FollowedTwice(written, EncodeRecord(rs[i]).value, EncodeRecords(rs[i + 1..]));
        written := written + EncodeRecord(rs[i]).value;
      }
      failed := None;
    }

    /** Appends a message; the limit of 65535 bytes is on the whole buffer. */
    method Message(m: Message) returns (failed: Option<Error>)
      modifies this
      ensures failed.None? <==> EncodeInto(m, old(bytes)).Ok?
      ensures failed.None? ==> EncodeInto(m, old(bytes)) == Ok(bytes)
      ensures failed.Some? ==> EncodeInto(m, old(bytes)) == Err(failed.value) && old(bytes) <= bytes
    {
      hide EncodeQuestions, EncodeRecords, Flags;
      if !CountsFit(m) {
        return Some(MessageTooLong);
      }
      bytes := bytes + Be16(m.header.id) + Be16(Flags(m.header));
      bytes := bytes + Be16(|m.questions|) + Be16(|m.answers|) + Be16(|m.authorities|) + Be16(|m.additionals|);
      assert bytes == old(bytes) + EncodeHeader(m);
      failed := Questions(m.questions);
      if failed.Some? {
        return;
      }
      failed := Records(m.answers + m.authorities + m.additionals);
      if failed.Some? {
        return;
      }
      ghost var qs, rs := EncodeQuestions(m.questions).value, EncodeRecords(m.answers + m.authorities + m.additionals).value;
      assert bytes == old(bytes) + (EncodeHeader(m) + qs + rs);
      if |bytes| > 0xFFFF {
        return Some(MessageTooLong);
      }
    }
  }

  lemma NoLabels(n: Name)
    ensures Fits(n[..0]) && Body(n[..0]) == []
  {
  }

  lemma StringsFrom(strings: seq<seq<byte>>, i: nat)
    requires i <= |strings|
    ensures i == |strings| ==> EncodeStrings(strings[i..]) == Ok([])
    ensures i < |strings| && |strings[i]| > 255 ==> EncodeStrings(strings[i..]) == Err(LabelTooLong)
    ensures i < |strings| && |strings[i]| <= 255
        ==> EncodeStrings(strings[i..]) == Followed([|strings[i]|] + strings[i], EncodeStrings(strings[i + 1..]))
  {
    if i < |strings| {
      assert strings[i..][0] == strings[i] && strings[i..][1..] == strings[i + 1..];
    }
  }

  // ---------------------------------------------------------------------------------------
  // Decoding

  /** What a decoder returned and where it left the cursor, given what it should read. */
  ghost predicate Reads<T(!new)>(what: Decoded<(T, nat)>, r: Decoded<T>, pos: nat) {
    match what
    case Ok((value, after)) => r == Ok(value) && pos == after
    case Err(e) => r == Err(e)
    case Diverges => false
  }

  class Reader {
    const buf: seq<byte>
    var pos: nat

    constructor (buf: seq<byte>)
      ensures this.buf == buf && pos == 0
    {
      this.buf := buf;
      pos := 0;
    }

    method U16() returns (r: Decoded<u16>)
      modifies this`pos
      ensures Reads(ReadU16(buf, old(pos)), r, pos)
    {
      if pos + 2 > |buf| {
        return Err(Truncated);
      }
      r := Ok(FromBe16(buf[pos], buf[pos + 1]));
      pos := pos + 2;
    }

    method U32() returns (r: Decoded<u32>)
      modifies this`pos
      ensures Reads(ReadU32(buf, old(pos)), r, pos)
    {
      if pos + 4 > |buf| {
        return Err(Truncated);
      }
      r := Ok(FromBe32(buf[pos], buf[pos + 1], buf[pos + 2], buf[pos + 3]));
      pos := pos + 4;
    }

    method Name() returns (r: Decoded<Name>)
      requires NameEnds(buf, pos)
      modifies this`pos
      ensures Reads(DecodeName(buf, old(pos)), r, pos)
    {
      hide DecodeName;
      EndsIff(buf, pos);
      var walked := ReadName(buf, pos);
      if walked.Err? {
        return Err(walked.error);
      }
      pos := walked.value.1;
      return Ok(walked.value.0);
    }

    /** A name that has to fill the declared length. */
    method CheckedName(len: nat) returns (r: Decoded<Name>)
      requires NameEnds(buf, pos)
      modifies this`pos
      ensures Reads(DecodeCheckedName(buf, old(pos), len), r, pos)
    {
      hide DecodeName;
      var start := pos;
      r := Name();
      if r.Ok? && pos - start != len {
        return Err(RDataLengthMismatch);
      }
    }

    method Strings(len: nat) returns (r: Decoded<seq<seq<byte>>>)
      requires pos + len <= |buf|
      modifies this`pos
      ensures r == DecodeStrings(buf, old(pos), old(pos) + len)
      ensures r.Ok? ==> pos == old(pos) + len
    {
      var end, p := pos + len, pos;
      ghost var whole := DecodeStrings(buf, pos, end);
      var strings: seq<seq<byte>> := [];
      FollowsNothing(whole);
      while p < end
        invariant old(pos) <= p <= end == old(pos) + len && pos == old(pos)
        invariant whole == Followed(strings, DecodeStrings(buf, p, end))
      {
        var n := buf[p];
        p := p + 1;
        if p + n > end {
          return Err(RDataLengthMismatch);
        }
        FollowedTwice(strings, [buf[p..p + n]], DecodeStrings(buf, p + n, end));
        strings := strings + [buf[p..p + n]];
        p := p + n;
      }
      pos := end;
      r := Ok(strings);
      assert strings + [] == strings;
    }

    method Mx(len: nat) returns (r: Decoded<RData>)
      requires ReadU16(buf, pos).Ok? ==> NameEnds(buf, pos + 2)
      modifies this`pos
      ensures Reads(DecodeMx(buf, old(pos), len), r, pos)
    {
      assert ReadU16(buf, pos).Ok? ==> ReadU16(buf, pos).value.1 == pos + 2;
      hide DecodeName, ReadU16;
      var start := pos;
      var preference := U16();
      if preference.Err? {
        return Err(preference.error);
      }
      var exchange := Name();
      if exchange.Err? {
        return Err(exchange.error);
      }
      if pos - start != len {
        return Err(RDataLengthMismatch);
      }
      return Ok(RMx(preference.value, exchange.value));
    }

    method Soa(len: nat) returns (r: Decoded<RData>)
      requires NameEnds(buf, pos) && (DecodeName(buf, pos).Ok? ==> NameEnds(buf, DecodeName(buf, pos).value.1))
      modifies this`pos
      ensures Reads(DecodeSoa(buf, old(pos), len), r, pos)
    {
      hide DecodeName, ReadU32;
      var start := pos;
      var mname := Name();
      if mname.Err? {
        return Err(mname.error);
      }
      var rname := Name();
      if rname.Err? {
        return Err(rname.error);
      }
      var serial := U32();
      if serial.Err? {
        return Err(serial.error);
      }
      var refresh := U32();
      if refresh.Err? {
        return Err(refresh.error);
      }
      var retry := U32();
      if retry.Err? {
        return Err(retry.error);
      }
      var expire := U32();
      if expire.Err? {
        return Err(expire.error);
      }
      var minimum := U32();
      if minimum.Err? {
        return Err(minimum.error);
      }
      if pos - start != len {
        return Err(RDataLengthMismatch);
      }
      return Ok(RSoa(mname.value, rname.value, serial.value, refresh.value, retry.value, expire.value, minimum.value));
    }

    method RData(rtype: RecordType, len: nat) returns (r: Decoded<RData>)
      requires AllEnd(buf, RDataNames(buf, pos, rtype, len))
      modifies this`pos
      ensures Reads(DecodeRData(buf, old(pos), rtype, len), r, pos)
    {
      hide DecodeCheckedName, DecodeMx, DecodeSoa, DecodeStrings;
      if pos + len > |buf| {
        return Err(Truncated);
      }
      match rtype
      case A =>
        if len != 4 {
          return Err(RDataLengthMismatch);
        }
        r := Ok(RA(buf[pos..pos + 4]));
        pos := pos + 4;
      case Aaaa =>
        if len != 16 {
          return Err(RDataLengthMismatch);
        }
        r := Ok(RAaaa(buf[pos..pos + 16]));
        pos := pos + 16;
      case Cname =>
        var name := CheckedName(len);
        r := if name.Ok? then Ok(RCname(name.value)) else Err(name.error);
      case Ptr =>
        var name := CheckedName(len);
        r := if name.Ok? then Ok(RPtr(name.value)) else Err(name.error);
      case Ns =>
        var name := CheckedName(len);
        r := if name.Ok? then Ok(RNs(name.value)) else Err(name.error);
      case Txt =>
        StringsEnd(buf, pos, pos + len);
        var strings := Strings(len);
        r := if strings.Ok? then Ok(RTxt(strings.value)) else Err(strings.error);
      case Mx => r := Mx(len);
      case Soa => r := Soa(len);
      case Other(value) =>
        r := Ok(RUnknown(value, buf[pos..pos + len]));
        pos := pos + len;
    }

    method Question() returns (r: Decoded<Question>)
      requires NameEnds(buf, pos)
      modifies this`pos
      ensures Reads(DecodeQuestion(buf, old(pos)), r, pos)
    {
      hide DecodeName, ReadU16;
      var name := Name();
      if name.Err? {
        return Err(name.error);
      }
      var qtype := U16();
      if qtype.Err? {
        return Err(qtype.error);
      }
      var qclass := U16();
      if qclass.Err? {
        return Err(qclass.error);
      }
      match ClassFrom(qclass.value)
      case Some(c) => return Ok(Messages.Question(name.value, TypeFrom(qtype.value), c));
      case None => return Err(InvalidClass);
    }

    method Record() returns (r: Decoded<Record>)
      requires AllEnd(buf, RecordNames(buf, pos))
      modifies this`pos
      ensures Reads(DecodeRecord(buf, old(pos)), r, pos)
    {
      hide DecodeName, ReadU16, ReadU32, DecodeRData, DecodeClass;
      RecordEnds(buf, pos);
      NameLoops(buf, pos);
      var name := Name();
      if name.Err? {
        return Err(name.error);
      }
      var rtype := U16();
      if rtype.Err? {
        return Err(rtype.error);
      }
      var code := U16();
      if code.Err? {
        return Err(code.error);
      }
      var class_ := DecodeClass(rtype.value, code.value);
      if class_.Err? {
        return Err(class_.error);
      }
      var ttl := U32();
      if ttl.Err? {
        return Err(ttl.error);
      }
      var len := U16();
      if len.Err? {
        return Err(len.error);
      }
      RDataEnds(buf, pos, TypeFrom(rtype.value), len.value);
      var rdata := RData(TypeFrom(rtype.value), len.value);
      if rdata.Err? {
        return Err(rdata.error);
      }
      return Ok(Messages.Record(name.value, TypeFrom(rtype.value), class_.value,
                                DecodeTtl(rtype.value, ttl.value), rdata.value));
    }

    method Questions(count: nat) returns (r: Decoded<seq<Question>>)
      requires AllEnd(buf, QuestionsNames(buf, pos, count))
      modifies this`pos
      ensures Reads(DecodeQuestions(buf, old(pos), count), r, pos)
    {
      hide DecodeQuestion, QuestionsNames, AllEnd, NameEnds;
      QuestionsEnd(buf, pos, count);
      ghost var whole := DecodeQuestions(buf, pos, count);
      var questions: seq<Question> := [];
      FollowsNothingAt(whole);
      for i := 0 to count
        invariant whole == FollowedAt(questions, DecodeQuestions(buf, pos, count - i))
      {
        QuestionEnds(buf, pos);
        var q := Question();
        if q.Err? {
          return Err(q.error);
        }
        FollowedAtTwice(questions, [q.value], DecodeQuestions(buf, pos, count - i - 1));
        questions := questions + [q.value];
      }
      r := Ok(questions);
      assert questions + [] == questions;
    }

    method Records(count: nat) returns (r: Decoded<seq<Record>>)
      requires AllEnd(buf, RecordsNames(buf, pos, count))
      modifies this`pos
      ensures Reads(DecodeRecords(buf, old(pos), count), r, pos)
    {
      hide DecodeRecord, RecordsNames, RecordNames, AllEnd, NameEnds;
      RecordsEnd(buf, pos, count);
      ghost var whole := DecodeRecords(buf, pos, count);
      var records: seq<Record> := [];
      FollowsNothingAt(whole);
      for i := 0 to count
        invariant whole == FollowedAt(records, DecodeRecords(buf, pos, count - i))
      {
        RecordEnds(buf, pos);
        var record := Record();
        if record.Err? {
          return Err(record.error);
        }
        FollowedAtTwice(records, [record.value], DecodeRecords(buf, pos, count - i - 1));
        records := records + [record.value];
      }
      r := Ok(records);
      assert records + [] == records;
    }
  }

  function Followed<T>(done: seq<T>, rest: Decoded<seq<T>>): Decoded<seq<T>> {
    if rest.Ok? then Ok(done + rest.value) else rest
  }

  lemma FollowsNothing<T>(rest: Decoded<seq<T>>)
    ensures Followed([], rest) == rest
  {
    if rest.Ok? {
      assert [] + rest.value == rest.value;
    }
  }

  lemma FollowedTwice<T>(a: seq<T>, b: seq<T>, rest: Decoded<seq<T>>)
    ensures Followed(a, Followed(b, rest)) == Followed(a + b, rest)
  {
    if rest.Ok? {
      assert a + (b + rest.value) == a + b + rest.value;
    }
  }

  function FollowedAt<T>(done: seq<T>, rest: Decoded<(seq<T>, nat)>): Decoded<(seq<T>, nat)> {
    if rest.Ok? then Ok((done + rest.value.0, rest.value.1)) else rest
  }

  lemma FollowsNothingAt<T>(rest: Decoded<(seq<T>, nat)>)
    ensures FollowedAt([], rest) == rest
  {
    if rest.Ok? {
      assert [] + rest.value.0 == rest.value.0;
    }
  }

  lemma FollowedAtTwice<T>(a: seq<T>, b: seq<T>, rest: Decoded<(seq<T>, nat)>)
    ensures FollowedAt(a, FollowedAt(b, rest)) == FollowedAt(a + b, rest)
  {
    if rest.Ok? {
      assert a + (b + rest.value.0) == a + b + rest.value.0;
    }
  }

  /** Decodes a message in which every name the decoder comes to has an end. */
  method ReadMessage(buf: seq<byte>) returns (r: Decoded<Message>)
    requires AllEnd(buf, NameOffsets(buf))
    ensures r == Decode(buf)
  {
    DecodeEndsIff(buf);
    hide DecodeQuestions, DecodeRecords, HeaderFrom, AllEnd, QuestionsNames, RecordsNames;
    var header := DecodeHeader(buf);
    if header.Err? {
      return Err(header.error);
    }
    var counts := header.value.1;
    var reader := new Reader(buf);
    reader.pos := header.value.2;
    QuestionsEnd(buf, reader.pos, counts.questions);
    var questions := reader.Questions(counts.questions);
    if questions.Err? {
      return Err(questions.error);
    }
    RecordsEnd(buf, reader.pos, counts.answers);
    var answers := reader.Records(counts.answers);
    if answers.Err? {
      return Err(answers.error);
    }
    RecordsEnd(buf, reader.pos, counts.authorities);
    var authorities := reader.Records(counts.authorities);
    if authorities.Err? {
      return Err(authorities.error);
    }
    RecordsEnd(buf, reader.pos, counts.additionals);
    var additionals := reader.Records(counts.additionals);
    if additionals.Err? {
      return Err(additionals.error);
    }
    return Ok(Messages.Message(header.value.0, questions.value, answers.value, authorities.value, additionals.value));
  }
}
