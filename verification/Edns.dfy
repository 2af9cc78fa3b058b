/** EDNS(0) (section 6.1 of RFC 6891): the OPT pseudo-record as a typed value. */
module EdnsRecords {
  import opened Base
  import opened Names
  import opened Records
  import opened WireNames
  import opened Messages
  import opened MessageCodec
  import opened MessageRoundTrip

  datatype RawOption = RawOption(code: u16, data: seq<byte>)

  /** An option whose length fits its 16-bit field; no other can be built. */
  type EdnsOption = o: RawOption | |o.data| <= 0xFFFF witness RawOption(0, [])

  datatype Edns = Edns(payload: u16, extendedRcode: byte, version: byte, dnssecOk: bool, options: seq<EdnsOption>)

  function OptData(r: RData): Option<seq<byte>> {
    if r.RUnknown? && r.rtype == OPT_RTYPE then Some(r.data) else None
  }

  predicate IsOpt(r: Record) {
    OptData(r.rdata).Some?
  }

  // ---------------------------------------------------------------------------------------
  // Option lists

  function OptionBytes(options: seq<EdnsOption>): seq<byte> {
    if options == [] then []
    else
      var o := options[0];
      Be16(o.code) + Be16(|o.data|) + o.data + OptionBytes(options[1..])
  }

  function ParseOptions(data: seq<byte>, pos: nat): Decoded<seq<EdnsOption>>
    requires pos <= |data|
    decreases |data| - pos
  {
    if pos == |data| then Ok([])
    else if |data| - pos < 4 then Err(RDataLengthMismatch)
    else
      var code, len := FromBe16(data[pos], data[pos + 1]), FromBe16(data[pos + 2], data[pos + 3]);
      if |data| - pos - 4 < len then Err(RDataLengthMismatch)
      else
        var first: EdnsOption := RawOption(code, data[pos + 4..pos + 4 + len]);
        var rest :- ParseOptions(data, pos + 4 + len);
        Ok([first] + rest)
  }

  lemma OptionAt(data: seq<byte>, pos: nat, o: EdnsOption)
    requires At(data, pos, Be16(o.code) + Be16(|o.data|) + o.data)
    ensures pos + 4 + |o.data| <= |data|
    ensures FromBe16(data[pos], data[pos + 1]) == o.code && FromBe16(data[pos + 2], data[pos + 3]) == |o.data|
    ensures data[pos + 4..pos + 4 + |o.data|] == o.data
  {
    AtSplit(data, pos, Be16(o.code) + Be16(|o.data|), o.data);
    AtSplit(data, pos, Be16(o.code), Be16(|o.data|));
    U16At(data, pos, o.code);
    U16At(data, pos + 2, |o.data|);
  }

  lemma {:induction false} OptionsAt(data: seq<byte>, pos: nat, options: seq<EdnsOption>)
    requires At(data, pos, OptionBytes(options)) && pos + |OptionBytes(options)| == |data|
    ensures ParseOptions(data, pos) == Ok(options)
    decreases |options|
  {
    hide At;
    if options != [] {
      var o := options[0];
      var head := Be16(o.code) + Be16(|o.data|) + o.data;
      AtSplit(data, pos, head, OptionBytes(options[1..]));
      OptionAt(data, pos, o);
      OptionsAt(data, pos + |head|, options[1..]);
      assert [o] + options[1..] == options;
    }
  }

  /** Parsing printed options gives them back. */
  lemma OptionsRoundTrip(options: seq<EdnsOption>)
    ensures ParseOptions(OptionBytes(options), 0) == Ok(options)
  {
    WholeAt(OptionBytes(options));
    OptionsAt(OptionBytes(options), 0, options);
  }

  lemma NoOptions()
    ensures OptionBytes([]) == []
  {
  }

  lemma OptionFirst(o: EdnsOption, rest: seq<EdnsOption>)
    ensures OptionBytes([o] + rest) == Be16(o.code) + Be16(|o.data|) + o.data + OptionBytes(rest)
  {
    assert ([o] + rest)[1..] == rest;
  }

  lemma OptionCut(data: seq<byte>, pos: nat, len: u16)
    requires pos + 4 + len <= |data| && Be16(len) == [data[pos + 2], data[pos + 3]]
    ensures data[pos..]
         == [data[pos], data[pos + 1]] + Be16(len) + data[pos + 4..pos + 4 + len] + data[pos + 4 + len..]
  {
  }

  /** One turn of the parser, where an option follows in full. */
  lemma ParsedFirst(data: seq<byte>, pos: nat, len: u16)
    requires pos + 4 + len <= |data| && FromBe16(data[pos + 2], data[pos + 3]) == len
    ensures var rest := ParseOptions(data, pos + 4 + len);
      var first: EdnsOption := RawOption(FromBe16(data[pos], data[pos + 1]), data[pos + 4..pos + 4 + len]);
      ParseOptions(data, pos) == if rest.Ok? then Ok([first] + rest.value) else rest
  {
  }

  lemma ParsedEnd(data: seq<byte>, pos: nat)
    requires pos <= |data|
    ensures pos == |data| ==> ParseOptions(data, pos) == Ok([])
    ensures pos < |data| < pos + 4 ==> ParseOptions(data, pos) == Err(RDataLengthMismatch)
    ensures pos + 4 <= |data| && |data| - pos - 4 < FromBe16(data[pos + 2], data[pos + 3])
        ==> ParseOptions(data, pos) == Err(RDataLengthMismatch)
  {
  }

  /** Printing parsed options gives the bytes back; parsing has one error. */
  lemma {:induction false} ParsedOptionsPrint(data: seq<byte>, pos: nat)
    requires pos <= |data|
    ensures ParseOptions(data, pos).Ok? ==> OptionBytes(ParseOptions(data, pos).value) == data[pos..]
    ensures !ParseOptions(data, pos).Ok? ==> ParseOptions(data, pos) == Err(RDataLengthMismatch)
    decreases |data| - pos
  {
    hide OptionBytes, ParseOptions, FromBe16, Be16;
    ParsedEnd(data, pos);
    NoOptions();
    if |data| - pos >= 4 {
      var len := FromBe16(data[pos + 2], data[pos + 3]);
      if |data| - pos - 4 >= len {
        var after := pos + 4 + len;
        ParsedOptionsPrint(data, after);
        ParsedFirst(data, pos, len);
        if ParseOptions(data, after).Ok? {
          OptionFirst(RawOption(FromBe16(data[pos], data[pos + 1]), data[pos + 4..after]), ParseOptions(data, after).value);
          OptionCut(data, pos, len);
        }
      }
    }
  }

  // ---------------------------------------------------------------------------------------
  // The OPT record

  function FromRecord(r: Record, data: seq<byte>): Decoded<Edns> {
    if r.name != [] then Err(InvalidName)
    else
      var options :- ParseOptions(data, 0);
      var ttl: nat := r.ttl;
      Ok(Edns(ClassCode(r.class_), ttl / 0x100_0000, ttl / 0x1_0000 % 256, ttl / 0x8000 % 2 == 1, options))
  }

  function OptTtl(e: Edns): u32 {
    e.extendedRcode * 0x100_0000 + e.version * 0x1_0000 + Bit(e.dnssecOk, 0x8000)
  }

  function ToRecord(e: Edns): Record {
    Record([], Other(OPT_RTYPE), OptClass(e.payload), OptTtl(e), RUnknown(OPT_RTYPE, OptionBytes(e.options)))
  }

  lemma TtlFields(ext: nat, version: nat, d: nat, z: nat)
    requires ext < 256 && version < 256 && d < 2 && z < 0x8000
    ensures var ttl := ext * 0x100_0000 + version * 0x1_0000 + d * 0x8000 + z;
      ttl / 0x100_0000 == ext && ttl / 0x1_0000 % 256 == version && ttl / 0x8000 % 2 == d && ttl % 0x8000 == z
  {
    var ttl := ext * 0x100_0000 + version * 0x1_0000 + d * 0x8000 + z;
    Quotient(ext, 0x100_0000, version * 0x1_0000 + d * 0x8000 + z);
    FieldAt(ttl, ext, version, 256, 0x1_0000, d * 0x8000 + z);
    FieldAt(ttl, ext * 256 + version, d, 2, 0x8000, z);
    Quotient(ext * 512 + version * 2 + d, 0x8000, z);
  }

  /** Reading a built OPT record gives the parameters back, whatever the options. */
  lemma RecordRoundTrip(e: Edns)
    ensures FromRecord(ToRecord(e), OptData(ToRecord(e).rdata).value) == Ok(e)
  {
    hide OptionBytes, ParseOptions;
    OptionsRoundTrip(e.options);
    BitWeight(e.dnssecOk, 0x8000);
    TtlFields(e.extendedRcode, e.version, Bit(e.dnssecOk, 1), 0);
    hide Bit;
    assert OptTtl(e) / 0x8000 % 2 == Bit(e.dnssecOk, 1);
    BitIsOne(e.dnssecOk);
  }

  lemma BitIsOne(b: bool)
    ensures Bit(b, 1) == 1 <==> b
  {
  }

  lemma TtlSplit(ttl: u32)
    ensures var ext, version, d := ttl / 0x100_0000, ttl / 0x1_0000 % 256, ttl / 0x8000 % 2;
      ttl == ext * 0x100_0000 + version * 0x1_0000 + d * 0x8000 + ttl % 0x8000
  {
    assert ttl / 0x8000 / 2 == ttl / 0x1_0000 && ttl / 0x1_0000 / 256 == ttl / 0x100_0000;
  }

  /** Building from a parsed canonical OPT record gives the record back exactly when its reserved bits are zero. */
  lemma RebuiltRecord(r: Record)
    requires IsOpt(r) && CanonicalRecord(r) && FromRecord(r, OptData(r.rdata).value).Ok?
    ensures var e := FromRecord(r, OptData(r.rdata).value).value;
      ToRecord(e) == r.(ttl := r.ttl - r.ttl % 0x8000) && (ToRecord(e) == r <==> r.ttl % 0x8000 == 0)
  {
    hide OptionBytes, ParseOptions;
    var data := OptData(r.rdata).value;
    ParsedOptionsPrint(data, 0);
    TtlSplit(r.ttl);
  }

  // ---------------------------------------------------------------------------------------
  // The record inside a message

  function Plain(rs: seq<Record>): seq<Record> {
    if rs == [] then [] else if IsOpt(rs[0]) then Plain(rs[1..]) else [rs[0]] + Plain(rs[1..])
  }

  function Opts(rs: seq<Record>): (r: seq<Record>)
    ensures forall i :: 0 <= i < |r| ==> IsOpt(r[i])
  {
    if rs == [] then [] else if IsOpt(rs[0]) then [rs[0]] + Opts(rs[1..]) else Opts(rs[1..])
  }

  function EdnsOf(m: Message): Decoded<Option<Edns>> {
    var found := Opts(m.additionals);
    if found == [] then Ok(None)
    else if |found| > 1 then Err(CountMismatch)
    else
      var e :- FromRecord(found[0], OptData(found[0].rdata).value);
      Ok(Some(e))
  }

  function Built(e: Option<Edns>): seq<Record> {
    if e.Some? then [ToRecord(e.value)] else []
  }

  function SetEdns(m: Message, e: Option<Edns>): Message {
    m.(additionals := Plain(m.additionals) + Built(e))
  }

  lemma {:induction false} PlainPlus(a: seq<Record>, b: seq<Record>)
    ensures Plain(a + b) == Plain(a) + Plain(b) && Opts(a + b) == Opts(a) + Opts(b)
  {
    if a == [] {
      assert a + b == b;
    } else {
      assert (a + b)[1..] == a[1..] + b;
      PlainPlus(a[1..], b);
    }
  }

  lemma {:induction false} PlainOnce(rs: seq<Record>)
    ensures Opts(Plain(rs)) == [] && Plain(Plain(rs)) == Plain(rs)
  {
    if rs != [] {
      PlainOnce(rs[1..]);
      if !IsOpt(rs[0]) {
        assert Plain(rs)[1..] == Plain(rs[1..]);
      }
    }
  }

  lemma BuiltAlone(e: Option<Edns>)
    ensures Plain(Built(e)) == [] && Opts(Built(e)) == Built(e)
  {
  }

  /** After setting, reading gives exactly what was set, whatever the message held before. */
  lemma SetThenRead(m: Message, e: Option<Edns>)
    ensures EdnsOf(SetEdns(m, e)) == Ok(e)
  {
    hide Plain, Opts, FromRecord, ToRecord;
    PlainOnce(m.additionals);
    PlainPlus(Plain(m.additionals), Built(e));
    BuiltAlone(e);
    assert [] + Built(e) == Built(e);
    if e.Some? {
      RecordRoundTrip(e.value);
    }
  }

  /** The other additional records keep their order, and a second setting replaces the first. */
  lemma SetKeepsOthers(m: Message, e: Option<Edns>, f: Option<Edns>)
    ensures Plain(SetEdns(m, e).additionals) == Plain(m.additionals)
    ensures SetEdns(SetEdns(m, e), f) == SetEdns(m, f)
  {
    PlainOnce(m.additionals);
    PlainPlus(Plain(m.additionals), Built(e));
    BuiltAlone(e);
    assert Plain(m.additionals) + [] == Plain(m.additionals);
  }

  lemma {:induction false} PlainCanonical(rs: seq<Record>)
    requires CanonicalRecords(rs)
    ensures CanonicalRecords(Plain(rs))
  {
    hide CanonicalRecord;
    if rs != [] {
      PlainCanonical(rs[1..]);
    }
  }

  lemma BuiltCanonical(e: Edns)
    ensures CanonicalRecord(ToRecord(e))
  {
    hide OptionBytes;
  }

  /** EDNS parameters set on a canonical message survive the wire. */
  lemma SurvivesTheWire(m: Message, e: Option<Edns>)
    requires Canonical(m) && Encode(SetEdns(m, e)).Ok?
    ensures Decode(Encode(SetEdns(m, e)).value).Ok?
    ensures EdnsOf(Decode(Encode(SetEdns(m, e)).value).value) == Ok(e)
  {
    hide CanonicalRecord, CanonicalQuestion, CanonicalHeader, Encode, Decode, EdnsOf, Plain, ToRecord;
    PlainCanonical(m.additionals);
    if e.Some? {
      BuiltCanonical(e.value);
    }
    var set_ := SetEdns(m, e);
    assert CanonicalRecords(set_.additionals);
    assert Canonical(set_);
    hide Canonical, SetEdns;
    RoundTrip(set_);
    SetThenRead(m, e);
  }

  // ---------------------------------------------------------------------------------------
  // The loops of the source

  method ReadOptions(data: seq<byte>) returns (r: Decoded<seq<EdnsOption>>)
    ensures r == ParseOptions(data, 0)
  {
    var options: seq<EdnsOption> := [];
    var pos := 0;
    FollowsNothing(ParseOptions(data, 0));
    while pos < |data|
      invariant 0 <= pos <= |data|
      invariant ParseOptions(data, 0) == Followed(options, ParseOptions(data, pos))
    {
      if |data| - pos < 4 {
        return Err(RDataLengthMismatch);
      }
      var code := FromBe16(data[pos], data[pos + 1]);
      var len := FromBe16(data[pos + 2], data[pos + 3]);
      if |data| - (pos + 4) < len {
        return Err(RDataLengthMismatch);
      }
      var option: EdnsOption := RawOption(code, data[pos + 4..pos + 4 + len]);
      FollowedTwice(options, [option], ParseOptions(data, pos + 4 + len));
      options := options + [option];
      pos := pos + 4 + len;
    }
    r := Ok(options);
    assert options + [] == options;
  }

  method WriteOptions(options: seq<EdnsOption>) returns (data: seq<byte>)
    ensures data == OptionBytes(options)
  {
    data := [];
    for i := 0 to |options|
      invariant OptionBytes(options) == data + OptionBytes(options[i..])
    {
      var o := options[i];
      assert options[i..][0] == o && options[i..][1..] == options[i + 1..];
      data := data + (Be16(o.code) + Be16(|o.data|) + o.data);
    }
    assert options[|options|..] == [];
  }

  /** The search for the one OPT record. */
  method ReadEdns(m: Message) returns (r: Decoded<Option<Edns>>)
    ensures r == EdnsOf(m)
  {
    var found: Option<Record> := None;
    var rs := m.additionals;
    for i := 0 to |rs|
      invariant Opts(rs) == (if found.Some? then [found.value] else []) + Opts(rs[i..])
      invariant found.Some? ==> IsOpt(found.value)
    {
      assert rs[i..][0] == rs[i] && rs[i..][1..] == rs[i + 1..];
      if OptData(rs[i].rdata).Some? {
        if found.Some? {
          return Err(CountMismatch);
        }
        found := Some(rs[i]);
      }
    }
    if found.None? {
      return Ok(None);
    }
    if found.value.name != [] {
      return Err(InvalidName);
    }
    var options := ReadOptions(OptData(found.value.rdata).value);
    ParsedOptionsPrint(OptData(found.value.rdata).value, 0);
    if options.Err? {
      return Err(options.error);
    }
    var ttl: nat := found.value.ttl;
    return Ok(Some(Edns(ClassCode(found.value.class_), ttl / 0x100_0000, ttl / 0x1_0000 % 256,
                        ttl / 0x8000 % 2 == 1, options.value)));
  }

  /** Drops every OPT record, then appends the new one. */
  method ReplaceEdns(m: Message, e: Option<Edns>) returns (r: Message)
    ensures r == SetEdns(m, e)
  {
    var kept: seq<Record> := [];
    var rs := m.additionals;
    for i := 0 to |rs|
      invariant Plain(rs) == kept + Plain(rs[i..])
    {
      assert rs[i..][0] == rs[i] && rs[i..][1..] == rs[i + 1..];
      if OptData(rs[i].rdata).None? {
        kept := kept + [rs[i]];
      }
    }
    assert rs[|rs|..] == [];
    if e.Some? {
      var data := WriteOptions(e.value.options);
      var ttl := e.value.extendedRcode * 0x100_0000 + e.value.version * 0x1_0000;
      if e.value.dnssecOk {
        ttl := ttl + 0x8000;
      }
      kept := kept + [Record([], Other(OPT_RTYPE), OptClass(e.value.payload), ttl, RUnknown(OPT_RTYPE, data))];
    }
    r := m.(additionals := kept);
  }
}
