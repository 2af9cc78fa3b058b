/** DNS messages and their wire codec (sections 4.1.1 to 4.1.4 of RFC 1035). */
module Messages {
  import opened Base
  import opened Names
  import opened Records
  import opened WireNames

  const OPT_RTYPE: u16 := 41

  datatype Opcode = Query | IQuery | Status | Notify | Update | OtherOpcode(value: byte)

  datatype Rcode = NoError | FormErr | ServFail | NxDomain | NotImp | Refused | OtherRcode(value: byte)

  datatype Header = Header(
    id: u16, qr: bool, opcode: Opcode, authoritative: bool, truncated: bool,
    recursionDesired: bool, recursionAvailable: bool, rcode: Rcode)

  datatype Question = Question(name: Name, qtype: RecordType, qclass: Class)

  datatype RData =
    | RA(octets: seq<byte>)
    | RAaaa(octets: seq<byte>)
    | RCname(name: Name)
    | RPtr(name: Name)
    | RNs(name: Name)
    | RTxt(strings: seq<seq<byte>>)
    | RMx(preference: u16, exchange: Name)
    | RSoa(mname: Name, rname: Name, serial: u32, refresh: u32, retry: u32, expire: u32, minimum: u32)
    | RUnknown(rtype: u16, data: seq<byte>)

  datatype Record = Record(name: Name, rtype: RecordType, class_: Class, ttl: u32, rdata: RData)

  datatype Message = Message(
    header: Header,
    questions: seq<Question>,
    answers: seq<Record>,
    authorities: seq<Record>,
    additionals: seq<Record>)

  // ---------------------------------------------------------------------------------------
  // Header

  function OpcodeFrom(v: byte): Opcode {
    match v
    case 0 => Query
    case 1 => IQuery
    case 2 => Status
    case 4 => Notify
    case 5 => Update
    case _ => OtherOpcode(v)
  }

  function OpcodeBits(o: Opcode): (v: byte)
    ensures v < 16
  {
    match o
    case Query => 0
    case IQuery => 1
    case Status => 2
    case Notify => 4
    case Update => 5
    case OtherOpcode(value) => value % 16
  }

  function RcodeFrom(v: byte): Rcode {
    match v
    case 0 => NoError
    case 1 => FormErr
    case 2 => ServFail
    case 3 => NxDomain
    case 4 => NotImp
    case 5 => Refused
    case _ => OtherRcode(v)
  }

  function RcodeBits(r: Rcode): (v: byte)
    ensures v < 16
  {
    match r
    case NoError => 0
    case FormErr => 1
    case ServFail => 2
    case NxDomain => 3
    case NotImp => 4
    case Refused => 5
    case OtherRcode(value) => value % 16
  }

  function Bit(b: bool, weight: nat): nat {
    if b then weight else 0
  }

  /** The flag word; the fields occupy disjoint bits, so their union is their sum. */
  function Flags(h: Header): u16 {
    Bit(h.qr, 0x8000) + OpcodeBits(h.opcode) * 0x800 + Bit(h.authoritative, 0x400) + Bit(h.truncated, 0x200)
    + Bit(h.recursionDesired, 0x100) + Bit(h.recursionAvailable, 0x80) + RcodeBits(h.rcode)
  }

  function HeaderFrom(id: u16, flags: u16): Header {
    Header(
      id,
      flags / 0x8000 % 2 == 1,
      OpcodeFrom(flags / 0x800 % 16),
      flags / 0x400 % 2 == 1,
      flags / 0x200 % 2 == 1,
      flags / 0x100 % 2 == 1,
      flags / 0x80 % 2 == 1,
      RcodeFrom(flags % 16))
  }

  // ---------------------------------------------------------------------------------------
  // Encoding

  function TypeOf(r: RData): RecordType {
    match r
    case RA(_) => A
    case RAaaa(_) => Aaaa
    case RCname(_) => Cname
    case RPtr(_) => Ptr
    case RNs(_) => Ns
    case RTxt(_) => Txt
    case RMx(_, _) => Mx
    case RSoa(_, _, _, _, _, _, _) => Soa
    case RUnknown(rtype, _) => Other(rtype)
  }

  function EncodeStrings(strings: seq<seq<byte>>): Decoded<seq<byte>> {
    if strings == [] then Ok([])
    else if |strings[0]| > 255 then Err(LabelTooLong)
    else
      var rest :- EncodeStrings(strings[1..]);
      Ok([|strings[0]|] + strings[0] + rest)
  }

  function EncodeRData(r: RData): Decoded<seq<byte>> {
    match r
    case RA(octets) => Ok(octets)
    case RAaaa(octets) => Ok(octets)
    case RCname(name) => EncodeName(name)
    case RPtr(name) => EncodeName(name)
    case RNs(name) => EncodeName(name)
    case RTxt(strings) => EncodeStrings(strings)
    case RMx(preference, exchange) =>
      var name :- EncodeName(exchange);
      Ok(Be16(preference) + name)
    case RSoa(mname, rname, serial, refresh, retry, expire, minimum) =>
      var m :- EncodeName(mname);
      var n :- EncodeName(rname);
      Ok(m + n + (Be32(serial) + Be32(refresh) + Be32(retry) + Be32(expire) + Be32(minimum)))
    case RUnknown(_, data) => Ok(data)
  }

  function EncodeQuestion(q: Question): Decoded<seq<byte>> {
    var name :- EncodeName(q.name);
    Ok(name + (Be16(TypeCode(q.qtype)) + Be16(ClassCode(q.qclass))))
  }

  function RecordFixed(r: Record, len: u16): (s: seq<byte>)
    ensures |s| == 10
  {
    Be16(TypeCode(TypeOf(r.rdata))) + Be16(ClassCode(r.class_)) + Be32(r.ttl) + Be16(len)
  }

  function EncodeRecord(r: Record): Decoded<seq<byte>> {
    var name :- EncodeName(r.name);
    var rdata :- EncodeRData(r.rdata);
    if |rdata| > 0xFFFF then Err(MessageTooLong) else Ok(name + RecordFixed(r, |rdata|) + rdata)
  }

  function EncodeQuestions(qs: seq<Question>): Decoded<seq<byte>> {
    if qs == [] then Ok([])
    else
      var first :- EncodeQuestion(qs[0]);
      var rest :- EncodeQuestions(qs[1..]);
      Ok(first + rest)
  }

  function EncodeRecords(rs: seq<Record>): Decoded<seq<byte>> {
    if rs == [] then Ok([])
    else
      var first :- EncodeRecord(rs[0]);
      var rest :- EncodeRecords(rs[1..]);
      Ok(first + rest)
  }

  predicate CountsFit(m: Message) {
    |m.questions| <= 0xFFFF && |m.answers| <= 0xFFFF && |m.authorities| <= 0xFFFF && |m.additionals| <= 0xFFFF
  }

  function EncodeHeader(m: Message): (s: seq<byte>)
    requires CountsFit(m)
    ensures |s| == 12
  {
    Be16(m.header.id) + Be16(Flags(m.header)) + Be16(|m.questions|) + Be16(|m.answers|)
    + Be16(|m.authorities|) + Be16(|m.additionals|)
  }

  /** The message appended to `buf`, which counts towards the length limit. */
  function EncodeInto(m: Message, buf: seq<byte>): Decoded<seq<byte>> {
    if !CountsFit(m) then Err(MessageTooLong)
    else
      var questions :- EncodeQuestions(m.questions);
      var records :- EncodeRecords(m.answers + m.authorities + m.additionals);
      var all := buf + (EncodeHeader(m) + questions + records);
      if |all| > 0xFFFF then Err(MessageTooLong) else Ok(all)
  }

  function Encode(m: Message): Decoded<seq<byte>> {
    EncodeInto(m, [])
  }

  // ---------------------------------------------------------------------------------------
  // Decoding: every reader takes a position and returns the position after what it read

  function ReadU16(buf: seq<byte>, pos: nat): Decoded<(u16, nat)> {
    if pos + 2 > |buf| then Err(Truncated) else Ok((FromBe16(buf[pos], buf[pos + 1]), pos + 2))
  }

  function ReadU32(buf: seq<byte>, pos: nat): Decoded<(u32, nat)> {
    if pos + 4 > |buf| then Err(Truncated)
    else Ok((FromBe32(buf[pos], buf[pos + 1], buf[pos + 2], buf[pos + 3]), pos + 4))
  }

  function DecodeStrings(buf: seq<byte>, pos: nat, end: nat): Decoded<seq<seq<byte>>>
    requires pos <= end <= |buf|
    decreases end - pos
  {
    if pos == end then Ok([])
    else
      var len := buf[pos];
      if pos + 1 + len > end then Err(RDataLengthMismatch)
      else
        var rest :- DecodeStrings(buf, pos + 1 + len, end);
        Ok([buf[pos + 1..pos + 1 + len]] + rest)
  }

  /** A name that must fill the declared data length exactly. */
  function DecodeCheckedName(buf: seq<byte>, pos: nat, len: nat): Decoded<(Name, nat)> {
    var (name, after) :- DecodeName(buf, pos);
    if after - pos != len then Err(RDataLengthMismatch) else Ok((name, after))
  }

  function DecodeMx(buf: seq<byte>, pos: nat, len: nat): Decoded<(RData, nat)> {
    var (preference, p1) :- ReadU16(buf, pos);
    var (exchange, p2) :- DecodeName(buf, p1);
    if p2 - pos != len then Err(RDataLengthMismatch) else Ok((RMx(preference, exchange), p2))
  }

  function DecodeSoa(buf: seq<byte>, pos: nat, len: nat): Decoded<(RData, nat)> {
    var (mname, p1) :- DecodeName(buf, pos);
    var (rname, p2) :- DecodeName(buf, p1);
    var (serial, p3) :- ReadU32(buf, p2);
    var (refresh, p4) :- ReadU32(buf, p3);
    var (retry, p5) :- ReadU32(buf, p4);
    var (expire, p6) :- ReadU32(buf, p5);
    var (minimum, p7) :- ReadU32(buf, p6);
    if p7 - pos != len then Err(RDataLengthMismatch)
    else Ok((RSoa(mname, rname, serial, refresh, retry, expire, minimum), p7))
  }

  function DecodeRData(buf: seq<byte>, pos: nat, rtype: RecordType, len: nat): Decoded<(RData, nat)> {
    if pos + len > |buf| then Err(Truncated)
    else
      match rtype
      case A => if len != 4 then Err(RDataLengthMismatch) else Ok((RA(buf[pos..pos + 4]), pos + 4))
      case Aaaa => if len != 16 then Err(RDataLengthMismatch) else Ok((RAaaa(buf[pos..pos + 16]), pos + 16))
      case Cname =>
        var (name, after) :- DecodeCheckedName(buf, pos, len);
        Ok((RCname(name), after))
      case Ptr =>
        var (name, after) :- DecodeCheckedName(buf, pos, len);
        Ok((RPtr(name), after))
      case Ns =>
        var (name, after) :- DecodeCheckedName(buf, pos, len);
        Ok((RNs(name), after))
      case Txt =>
        var strings :- DecodeStrings(buf, pos, pos + len);
        Ok((RTxt(strings), pos + len))
      case Mx => DecodeMx(buf, pos, len)
      case Soa => DecodeSoa(buf, pos, len)
      case Other(value) => Ok((RUnknown(value, buf[pos..pos + len]), pos + len))
  }

  /** The class a decoder gives an OPT record, whose CLASS field is a payload size. */
  function OptClass(code: u16): Class {
    match ClassFrom(code)
    case Some(c) => c
    case None => OtherClass(code)
  }

  function DecodeClass(rtype: u16, code: u16): Decoded<Class> {
    if rtype == OPT_RTYPE then Ok(OptClass(code))
    else
      match ClassFrom(code)
      case Some(c) => Ok(c)
      case None => Err(InvalidClass)
  }

  function DecodeTtl(rtype: u16, raw: u32): u32 {
    if rtype != OPT_RTYPE && raw >= 0x8000_0000 then 0 else raw
  }

  function DecodeQuestion(buf: seq<byte>, pos: nat): Decoded<(Question, nat)> {
    var (name, p1) :- DecodeName(buf, pos);
    var (qtype, p2) :- ReadU16(buf, p1);
    var (qclass, p3) :- ReadU16(buf, p2);
    match ClassFrom(qclass)
    case Some(c) => Ok((Question(name, TypeFrom(qtype), c), p3))
    case None => Err(InvalidClass)
  }

  function DecodeRecord(buf: seq<byte>, pos: nat): Decoded<(Record, nat)> {
    var (name, p1) :- DecodeName(buf, pos);
    var (rtype, p2) :- ReadU16(buf, p1);
    var (code, p3) :- ReadU16(buf, p2);
    var class_ :- DecodeClass(rtype, code);
    var (ttl, p4) :- ReadU32(buf, p3);
    var (len, p5) :- ReadU16(buf, p4);
    var (rdata, p6) :- DecodeRData(buf, p5, TypeFrom(rtype), len);
    Ok((Record(name, TypeFrom(rtype), class_, DecodeTtl(rtype, ttl), rdata), p6))
  }

  function DecodeQuestions(buf: seq<byte>, pos: nat, count: nat): Decoded<(seq<Question>, nat)>
    decreases count
  {
    if count == 0 then Ok(([], pos))
    else
      var (first, p1) :- DecodeQuestion(buf, pos);
      var (rest, p2) :- DecodeQuestions(buf, p1, count - 1);
      Ok(([first] + rest, p2))
  }

  function DecodeRecords(buf: seq<byte>, pos: nat, count: nat): Decoded<(seq<Record>, nat)>
    decreases count
  {
    if count == 0 then Ok(([], pos))
    else
      var (first, p1) :- DecodeRecord(buf, pos);
      var (rest, p2) :- DecodeRecords(buf, p1, count - 1);
      Ok(([first] + rest, p2))
  }

  datatype Counts = Counts(questions: u16, answers: u16, authorities: u16, additionals: u16)

  function DecodeHeader(buf: seq<byte>): Decoded<(Header, Counts, nat)> {
    var (id, p1) :- ReadU16(buf, 0);
    var (flags, p2) :- ReadU16(buf, p1);
    var (qc, p3) :- ReadU16(buf, p2);
    var (ac, p4) :- ReadU16(buf, p3);
    var (nsc, p5) :- ReadU16(buf, p4);
    var (arc, p6) :- ReadU16(buf, p5);
    Ok((HeaderFrom(id, flags), Counts(qc, ac, nsc, arc), p6))
  }

  function Decode(buf: seq<byte>): Decoded<Message> {
    var (header, counts, p0) :- DecodeHeader(buf);
    var (questions, p1) :- DecodeQuestions(buf, p0, counts.questions);
    var (answers, p2) :- DecodeRecords(buf, p1, counts.answers);
    var (authorities, p3) :- DecodeRecords(buf, p2, counts.authorities);
    var (additionals, p4) :- DecodeRecords(buf, p3, counts.additionals);
    Ok(Message(header, questions, answers, authorities, additionals))
  }

  // ---------------------------------------------------------------------------------------
  // Canonical messages: the values a decoder can produce

  /** A numbered opcode or rcode fits four bits and has no name. */
  predicate CanonicalHeader(h: Header) {
    && (h.opcode.OtherOpcode? ==> h.opcode.value == 3 || 6 <= h.opcode.value < 16)
    && (h.rcode.OtherRcode? ==> 6 <= h.rcode.value < 16)
  }

  predicate CanonicalQuestion(q: Question) {
    Wellformed(q.name) && CanonicalType(q.qtype) && CanonicalClass(q.qclass) && ClassCode(q.qclass) != 0
  }

  predicate CanonicalRData(r: RData) {
    match r
    case RA(octets) => |octets| == 4
    case RAaaa(octets) => |octets| == 16
    case RCname(name) => Wellformed(name)
    case RPtr(name) => Wellformed(name)
    case RNs(name) => Wellformed(name)
    case RTxt(strings) => forall i :: 0 <= i < |strings| ==> |strings[i]| <= 255
    case RMx(_, exchange) => Wellformed(exchange)
    case RSoa(mname, rname, _, _, _, _, _) => Wellformed(mname) && Wellformed(rname)
    case RUnknown(rtype, _) => CanonicalType(Other(rtype))
  }

  /** An OPT record may have class 0 and any TTL word; other records may not. */
  predicate CanonicalRecord(r: Record) {
    && Wellformed(r.name) && CanonicalRData(r.rdata) && r.rtype == TypeOf(r.rdata) && CanonicalClass(r.class_)
    && (TypeCode(r.rtype) != OPT_RTYPE ==> ClassCode(r.class_) != 0 && r.ttl < 0x8000_0000)
  }

  predicate Canonical(m: Message) {
    && CanonicalHeader(m.header)
    && (forall i :: 0 <= i < |m.questions| ==> CanonicalQuestion(m.questions[i]))
    && (forall i :: 0 <= i < |m.answers| ==> CanonicalRecord(m.answers[i]))
    && (forall i :: 0 <= i < |m.authorities| ==> CanonicalRecord(m.authorities[i]))
    && (forall i :: 0 <= i < |m.additionals| ==> CanonicalRecord(m.additionals[i]))
  }
}
