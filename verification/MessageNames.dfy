/** The offsets at which the message decoder starts a name, and with them exactly the messages on which it loops. */
module MessageNames {
  import opened Base
  import opened Names
  import opened Records
  import opened WireNames
  import opened Messages

  /** A name read at this offset comes to an end. */
  predicate NameEnds(buf: seq<byte>, pos: nat) {
    NeverRevisits(buf, pos, {})
  }

  ghost predicate AllEnd(buf: seq<byte>, offsets: seq<nat>) {
    forall p :: p in offsets ==> NameEnds(buf, p)
  }

  // ---------------------------------------------------------------------------------------
  // The offsets, in the order the decoder comes to them

  function RDataNames(buf: seq<byte>, pos: nat, rtype: RecordType, len: nat): seq<nat> {
    if pos + len > |buf| then []
    else
      match rtype
      case Cname => [pos]
      case Ptr => [pos]
      case Ns => [pos]
      case Mx => if ReadU16(buf, pos).Ok? then [pos + 2] else []
      case Soa =>
        var first := DecodeName(buf, pos);
        if first.Ok? then [pos, first.value.1] else [pos]
      case _ => []
  }

  /** The fixed part of a record after its name: type, class, TTL and data length, and where the data starts. */
  function RecordHead(buf: seq<byte>, pos: nat): Decoded<(u16, u16, nat)> {
    var (rtype, p2) :- ReadU16(buf, pos);
    var (code, p3) :- ReadU16(buf, p2);
    var class_ :- DecodeClass(rtype, code);
    var (ttl, p4) :- ReadU32(buf, p3);
    var (len, p5) :- ReadU16(buf, p4);
    Ok((rtype, len, p5))
  }

  function RecordNames(buf: seq<byte>, pos: nat): seq<nat> {
    var name := DecodeName(buf, pos);
    if !name.Ok? then [pos]
    else
      var head := RecordHead(buf, name.value.1);
      if !head.Ok? then [pos]
      else [pos] + RDataNames(buf, head.value.2, TypeFrom(head.value.0), head.value.1)
  }

  function QuestionsNames(buf: seq<byte>, pos: nat, count: nat): seq<nat>
    decreases count
  {
    if count == 0 then []
    else
      var first := DecodeQuestion(buf, pos);
      [pos] + if first.Ok? then QuestionsNames(buf, first.value.1, count - 1) else []
  }

  function RecordsNames(buf: seq<byte>, pos: nat, count: nat): seq<nat>
    decreases count
  {
    if count == 0 then []
    else
      var first := DecodeRecord(buf, pos);
      RecordNames(buf, pos) + if first.Ok? then RecordsNames(buf, first.value.1, count - 1) else []
  }

  function ThreeSections(buf: seq<byte>, pos: nat, counts: Counts): seq<nat> {
    RecordsNames(buf, pos, counts.answers) +
    match DecodeRecords(buf, pos, counts.answers)
    case Ok((_, p2)) =>
      RecordsNames(buf, p2, counts.authorities) +
      (match DecodeRecords(buf, p2, counts.authorities)
       case Ok((_, p3)) => RecordsNames(buf, p3, counts.additionals)
       case _ => [])
    case _ => []
  }

  /** Every offset at which decoding the message starts a name. */
  function NameOffsets(buf: seq<byte>): seq<nat> {
    match DecodeHeader(buf)
    case Ok((_, counts, p0)) =>
      QuestionsNames(buf, p0, counts.questions) +
      (match DecodeQuestions(buf, p0, counts.questions)
       case Ok((_, p1)) => ThreeSections(buf, p1, counts)
       case _ => [])
    case _ => []
  }

  // ---------------------------------------------------------------------------------------
  // When decoding ends

  lemma NameLoops(buf: seq<byte>, pos: nat)
    ensures DecodeName(buf, pos).Diverges? <==> !NameEnds(buf, pos)
  {
    EndsIff(buf, pos);
  }

  lemma AllEndPlus(buf: seq<byte>, a: seq<nat>, b: seq<nat>)
    ensures AllEnd(buf, a + b) <==> AllEnd(buf, a) && AllEnd(buf, b)
  {
    assert forall p :: p in a + b <==> p in a || p in b;
  }

  lemma AllEndOne(buf: seq<byte>, p: nat)
    ensures AllEnd(buf, [p]) <==> NameEnds(buf, p)
    ensures AllEnd(buf, [])
  {
    assert forall q :: q in [p] <==> q == p;
  }

  lemma RDataEnds(buf: seq<byte>, pos: nat, rtype: RecordType, len: nat)
    ensures DecodeRData(buf, pos, rtype, len).Diverges? <==> !AllEnd(buf, RDataNames(buf, pos, rtype, len))
  {
    hide NameEnds, DecodeName, AllEnd;
    NameLoops(buf, pos);
    AllEndOne(buf, pos);
    match rtype
    case Txt =>
      if pos + len <= |buf| {
        StringsEnd(buf, pos, pos + len);
      }
    case Mx =>
      NameLoops(buf, pos + 2);
      AllEndOne(buf, pos + 2);
    case Soa =>
      if DecodeName(buf, pos).Ok? {
        var after := DecodeName(buf, pos).value.1;
        NameLoops(buf, after);
        AllEndOne(buf, after);
        AllEndPlus(buf, [pos], [after]);
        assert [pos] + [after] == [pos, after];
        SoaEnds(buf, pos, len);
      }
    case _ =>
  }

  lemma {:induction false} StringsEnd(buf: seq<byte>, pos: nat, end: nat)
    requires pos <= end <= |buf|
    ensures !DecodeStrings(buf, pos, end).Diverges?
    decreases end - pos
  {
    if pos < end && pos + 1 + buf[pos] <= end {
      StringsEnd(buf, pos + 1 + buf[pos], end);
    }
  }

  /** Only the names of an SOA record can loop. */
  lemma SoaEnds(buf: seq<byte>, pos: nat, len: nat)
    requires DecodeName(buf, pos).Ok?
    ensures DecodeSoa(buf, pos, len).Diverges? <==> DecodeName(buf, DecodeName(buf, pos).value.1).Diverges?
  {
    hide DecodeName;
  }

  lemma RecordEnds(buf: seq<byte>, pos: nat)
    ensures DecodeRecord(buf, pos).Diverges? <==> !AllEnd(buf, RecordNames(buf, pos))
  {
    hide NameEnds, DecodeName, AllEnd, DecodeRData, RDataNames, ReadU16, ReadU32, DecodeClass;
    NameLoops(buf, pos);
    AllEndOne(buf, pos);
    if DecodeName(buf, pos).Ok? {
      var p := DecodeName(buf, pos).value.1;
      HeadEnds(buf, p);
      if RecordHead(buf, p).Ok? {
        var (rtype, len, at) := RecordHead(buf, p).value;
        RDataEnds(buf, at, TypeFrom(rtype), len);
        AllEndPlus(buf, [pos], RDataNames(buf, at, TypeFrom(rtype), len));
      }
    }
  }

  lemma HeadEnds(buf: seq<byte>, pos: nat)
    ensures !RecordHead(buf, pos).Diverges?
    ensures forall p :: !ReadU16(buf, p).Diverges? && !ReadU32(buf, p).Diverges?
    ensures forall rtype, code :: !DecodeClass(rtype, code).Diverges?
  {
  }

  lemma QuestionEnds(buf: seq<byte>, pos: nat)
    ensures DecodeQuestion(buf, pos).Diverges? <==> !NameEnds(buf, pos)
  {
    hide NameEnds, DecodeName;
    NameLoops(buf, pos);
  }

  lemma {:induction false} QuestionsEnd(buf: seq<byte>, pos: nat, count: nat)
    ensures DecodeQuestions(buf, pos, count).Diverges? <==> !AllEnd(buf, QuestionsNames(buf, pos, count))
    decreases count
  {
    hide NameEnds, AllEnd, DecodeQuestion;
    AllEndOne(buf, pos);
    if count > 0 {
      QuestionEnds(buf, pos);
      var first := DecodeQuestion(buf, pos);
      if first.Ok? {
        QuestionsEnd(buf, first.value.1, count - 1);
        AllEndPlus(buf, [pos], QuestionsNames(buf, first.value.1, count - 1));
      } else {
        assert [pos] + [] == [pos];
      }
    }
  }

  lemma {:induction false} RecordsEnd(buf: seq<byte>, pos: nat, count: nat)
    ensures DecodeRecords(buf, pos, count).Diverges? <==> !AllEnd(buf, RecordsNames(buf, pos, count))
    decreases count
  {
    hide NameEnds, AllEnd, DecodeRecord, RecordNames;
    AllEndOne(buf, pos);
    if count > 0 {
      RecordEnds(buf, pos);
      var first := DecodeRecord(buf, pos);
      if first.Ok? {
        RecordsEnd(buf, first.value.1, count - 1);
        AllEndPlus(buf, RecordNames(buf, pos), RecordsNames(buf, first.value.1, count - 1));
      } else {
        assert RecordNames(buf, pos) + [] == RecordNames(buf, pos);
      }
    }
  }

  /** The three record sections, as the decoder reads them one after another. */
  function DecodeThree(buf: seq<byte>, pos: nat, counts: Counts): Decoded<(seq<Record>, seq<Record>, seq<Record>)> {
    var (answers, p2) :- DecodeRecords(buf, pos, counts.answers);
    var (authorities, p3) :- DecodeRecords(buf, p2, counts.authorities);
    var (additionals, p4) :- DecodeRecords(buf, p3, counts.additionals);
    Ok((answers, authorities, additionals))
  }

  lemma ThreeEnd(buf: seq<byte>, pos: nat, counts: Counts)
    ensures DecodeThree(buf, pos, counts).Diverges? <==> !AllEnd(buf, ThreeSections(buf, pos, counts))
  {
    hide AllEnd, DecodeRecords, RecordsNames;
    AllEndOne(buf, pos);
    RecordsEnd(buf, pos, counts.answers);
    var a, none := RecordsNames(buf, pos, counts.answers), [];
    assert a + none == a;
    if DecodeRecords(buf, pos, counts.answers).Ok? {
      var p2 := DecodeRecords(buf, pos, counts.answers).value.1;
      RecordsEnd(buf, p2, counts.authorities);
      var b := RecordsNames(buf, p2, counts.authorities);
      assert b + none == b;
      AllEndPlus(buf, a, b);
      if DecodeRecords(buf, p2, counts.authorities).Ok? {
        var p3 := DecodeRecords(buf, p2, counts.authorities).value.1;
        RecordsEnd(buf, p3, counts.additionals);
        AllEndPlus(buf, b, RecordsNames(buf, p3, counts.additionals));
        AllEndPlus(buf, a, b + RecordsNames(buf, p3, counts.additionals));
      }
    }
  }

  lemma HeaderEnds(buf: seq<byte>)
    ensures !DecodeHeader(buf).Diverges?
  {
  }

  lemma DecodeInThree(buf: seq<byte>)
    requires DecodeHeader(buf).Ok?
    ensures var (_, counts, p0) := DecodeHeader(buf).value;
      var questions := DecodeQuestions(buf, p0, counts.questions);
      Decode(buf).Diverges? <==>
        questions.Diverges? || (questions.Ok? && DecodeThree(buf, questions.value.1, counts).Diverges?)
  {
    hide DecodeHeader, DecodeQuestions, DecodeRecords;
  }

  /** Decoding a message does not end exactly when some name it comes to never ends. */
  lemma DecodeEndsIff(buf: seq<byte>)
    ensures Decode(buf).Diverges? <==> !AllEnd(buf, NameOffsets(buf))
  {
    hide AllEnd, DecodeHeader, DecodeQuestions, DecodeThree, QuestionsNames, ThreeSections, Decode;
    HeaderEnds(buf);
    AllEndOne(buf, 0);
    if DecodeHeader(buf).Ok? {
      DecodeInThree(buf);
      var (_, counts, p0) := DecodeHeader(buf).value;
      var questions := DecodeQuestions(buf, p0, counts.questions);
      QuestionsEnd(buf, p0, counts.questions);
      var q := QuestionsNames(buf, p0, counts.questions);
      assert q + [] == q;
      if questions.Ok? {
        ThreeEnd(buf, questions.value.1, counts);
        AllEndPlus(buf, q, ThreeSections(buf, questions.value.1, counts));
      }
    } else {
      HeaderFails(buf);
    }
  }

  lemma HeaderFails(buf: seq<byte>)
    requires DecodeHeader(buf).Err?
    ensures Decode(buf) == Err(DecodeHeader(buf).error)
  {
    hide DecodeHeader;
  }

  /** A message with a question whose name loops is never decoded. */
  lemma FirstNameLoops(buf: seq<byte>)
    requires DecodeHeader(buf).Ok? && DecodeHeader(buf).value.1.questions > 0
    requires DecodeName(buf, DecodeHeader(buf).value.2).Diverges?
    ensures Decode(buf).Diverges?
  {
    hide Decode, DecodeHeader, DecodeName, NameEnds, DecodeQuestion, ThreeSections;
    var (_, counts, p0) := DecodeHeader(buf).value;
    NameLoops(buf, p0);
    DecodeEndsIff(buf);
    assert QuestionsNames(buf, p0, counts.questions)[0] == p0;
    assert p0 in NameOffsets(buf);
  }

  lemma LabelThenPointer(buf: seq<byte>)
    requires |buf| == 16 && buf[12..] == [1, 97, 0xC0, 12]
    ensures DecodeName(buf, 12).Diverges?
  {
    var part := buf[12..];
    assert part[0] == buf[12] && part[1] == buf[13] && part[2] == buf[14] && part[3] == buf[15];
    assert buf[13..14] == [97];
    assert Look(buf, 12) == Take([97]) && Look(buf, 14) == Jump(12);
    assert InRun(buf, 14, 14);
    PointerIntoRunDiverges(buf, 12, 12, 14);
  }

  /** A query of sixteen bytes, its one name a label followed by a pointer to that label, which never decodes. */
  lemma LoopingQuery()
    ensures Decode([0, 0, 0, 0, 0, 1, 0, 0, 0, 0, 0, 0, 1, 97, 0xC0, 12]).Diverges?
  {
    hide Decode, DecodeHeader, DecodeName;
    var buf: seq<byte> := [0, 0, 0, 0, 0, 1, 0, 0, 0, 0, 0, 0, 1, 97, 0xC0, 12];
    LabelThenPointer(buf);
    OneQuestion(buf);
    FirstNameLoops(buf);
  }

  lemma OneQuestion(buf: seq<byte>)
    requires |buf| >= 12 && buf[4..12] == [0, 1, 0, 0, 0, 0, 0, 0]
    ensures DecodeHeader(buf).Ok? && DecodeHeader(buf).value.1 == Counts(1, 0, 0, 0) && DecodeHeader(buf).value.2 == 12
  {
    hide HeaderFrom;
    var c := buf[4..12];
    assert c[0] == buf[4] && c[1] == buf[5] && c[2] == buf[6] && c[3] == buf[7];
    assert c[4] == buf[8] && c[5] == buf[9] && c[6] == buf[10] && c[7] == buf[11];
  }
}
