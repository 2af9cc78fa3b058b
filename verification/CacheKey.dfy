/** Canonical cache keys, the wire form of a name inside them, and subtree matching on that form. */
module CacheKey {
  import opened Base
  import opened Names
  import opened Records

  const KEY_NAME_OFFSET: nat := 9
  const MAX_KEY_LEN: nat := 4 + 2 + 2 + 1 + 255

  lemma FoldFits(n: Name)
    ensures Fits(Fold(n)) <==> Fits(n)
    ensures WireLength(Fold(n)) == WireLength(n)
  {
    forall i | 0 <= i < |n| ensures |Fold(n)[i]| == |n[i]| {
    }
    FoldLength(n);
  }

  lemma {:induction false} FoldLength(n: Name)
    ensures WireLength(Fold(n)) == WireLength(n)
  {
    if n != [] {
      FoldTail(n, 1);
      FoldLength(n[1..]);
    }
  }

  /** The lowercased wire form, or `None` for a name outside the wire limits. */
  function WireName(n: Name): (w: Option<seq<byte>>)
  {
    FoldFits(n);
    if Fits(n) && WireLength(n) <= MAX_NAME then Some(Wire(Fold(n))) else None
  }

  function Shape(rd: bool, dnssecOk: bool): byte {
    (if rd then 1 else 0) + (if dnssecOk then 2 else 0)
  }

  function Prefix(group: u32, rtype: RecordType, class_: Class, rd: bool, dnssecOk: bool): (p: seq<byte>)
    ensures |p| == KEY_NAME_OFFSET
  {
    Be32(group) + Be16(TypeCode(rtype)) + Be16(ClassCode(class_)) + [Shape(rd, dnssecOk)]
  }

  /** The cache key of a query; `None` when its name does not fit (the query bypasses the cache). */
  function KeyBytes(group: u32, rtype: RecordType, class_: Class, rd: bool, dnssecOk: bool, name: Name): Option<seq<byte>> {
    match WireName(name)
    case None => None
    case Some(wire) => Some(Prefix(group, rtype, class_, rd, dnssecOk) + wire)
  }

  // ---------------------------------------------------------------------------------------
  // Injectivity

  lemma {:induction false} WireInjective(a: Name, b: Name)
    requires Fits(a) && Fits(b) && Wire(a) == Wire(b)
    ensures a == b
  {
    if a != [] && b != [] {
      WireFirst(a);
      WireFirst(b);
      WireInjective(a[1..], b[1..]);
      assert a == [a[0]] + a[1..] && b == [b[0]] + b[1..];
    } else if a != [] {
      NonEmptyLength(a);
    } else if b != [] {
      NonEmptyLength(b);
    }
  }

  lemma NonEmptyLength(n: Name)
    requires n != []
    ensures WireLength(n) >= 2
  {
  }

  lemma PrefixInjective(
    g1: u32, t1: RecordType, c1: Class, rd1: bool, do1: bool,
    g2: u32, t2: RecordType, c2: Class, rd2: bool, do2: bool)
    requires Prefix(g1, t1, c1, rd1, do1) == Prefix(g2, t2, c2, rd2, do2)
    ensures g1 == g2 && TypeCode(t1) == TypeCode(t2) && ClassCode(c1) == ClassCode(c2) && rd1 == rd2 && do1 == do2
  {
    var p := Prefix(g1, t1, c1, rd1, do1);
    assert p[..4] == Be32(g1) == Be32(g2);
    assert p[4..6] == Be16(TypeCode(t1)) == Be16(TypeCode(t2));
    assert p[6..8] == Be16(ClassCode(c1)) == Be16(ClassCode(c2));
    assert p[8] == Shape(rd1, do1) == Shape(rd2, do2);
    Be32Injective(g1, g2);
    Be16Injective(TypeCode(t1), TypeCode(t2));
    Be16Injective(ClassCode(c1), ClassCode(c2));
  }

  /** Two queries share a key exactly when group, codes, RD, DO and case-folded name agree. */
  lemma KeyInjective(
    g1: u32, t1: RecordType, c1: Class, rd1: bool, do1: bool, n1: Name,
    g2: u32, t2: RecordType, c2: Class, rd2: bool, do2: bool, n2: Name)
    requires KeyBytes(g1, t1, c1, rd1, do1, n1).Some? && KeyBytes(g2, t2, c2, rd2, do2, n2).Some?
    ensures KeyBytes(g1, t1, c1, rd1, do1, n1) == KeyBytes(g2, t2, c2, rd2, do2, n2) <==>
      && g1 == g2 && TypeCode(t1) == TypeCode(t2) && ClassCode(c1) == ClassCode(c2)
      && rd1 == rd2 && do1 == do2 && SameName(n1, n2)
  {
    FoldFits(n1);
    FoldFits(n2);
    var k1, k2 := KeyBytes(g1, t1, c1, rd1, do1, n1).value, KeyBytes(g2, t2, c2, rd2, do2, n2).value;
    if k1 == k2 {
      assert k1[..KEY_NAME_OFFSET] == Prefix(g1, t1, c1, rd1, do1) && k2[..KEY_NAME_OFFSET] == Prefix(g2, t2, c2, rd2, do2);
      assert k1[KEY_NAME_OFFSET..] == Wire(Fold(n1)) && k2[KEY_NAME_OFFSET..] == Wire(Fold(n2));
      PrefixInjective(g1, t1, c1, rd1, do1, g2, t2, c2, rd2, do2);
      WireInjective(Fold(n1), Fold(n2));
    }
  }

  /**
   A query has a key exactly when its name fits the wire: labels of at most 63 bytes, 255 in all. Where the key holds
   what: group, type, class, then RD and DO as the two low bits of a byte, then the folded name.
   */
  lemma KeyLayout(group: u32, rtype: RecordType, class_: Class, rd: bool, dnssecOk: bool, name: Name)
    ensures var key := KeyBytes(group, rtype, class_, rd, dnssecOk, name);
      && (key.Some? <==> (forall i :: 0 <= i < |name| ==> |name[i]| <= 63) && WireLength(name) <= 255)
      && (key.Some? ==>
            var k := key.value;
            && |k| == 9 + WireLength(name) && Fits(Fold(name))
            && k[..4] == Be32(group) && k[4..6] == Be16(TypeCode(rtype)) && k[6..8] == Be16(ClassCode(class_))
            && k[8] % 2 == (if rd then 1 else 0) && k[8] / 2 == (if dnssecOk then 1 else 0)
            && k[9..] == Body(Fold(name)) + [0])
  {
    hide Prefix, Body, Fold, WireLength, Be32, Be16, TypeCode, ClassCode;
    FoldFits(name);
    PrefixLayout(group, rtype, class_, rd, dnssecOk);
    if KeyBytes(group, rtype, class_, rd, dnssecOk, name).Some? {
      KeyParts(Prefix(group, rtype, class_, rd, dnssecOk), Wire(Fold(name)));
    }
  }

  lemma KeyParts(p: seq<byte>, wire: seq<byte>)
    requires |p| == 9
    ensures var k := p + wire;
      |k| == 9 + |wire| && k[..4] == p[..4] && k[4..6] == p[4..6] && k[6..8] == p[6..8] && k[8] == p[8] && k[9..] == wire
  {
  }

  lemma PrefixLayout(group: u32, rtype: RecordType, class_: Class, rd: bool, dnssecOk: bool)
    ensures var p := Prefix(group, rtype, class_, rd, dnssecOk);
      && p[..4] == Be32(group) && p[4..6] == Be16(TypeCode(rtype)) && p[6..8] == Be16(ClassCode(class_))
      && p[8] % 2 == (if rd then 1 else 0) && p[8] / 2 == (if dnssecOk then 1 else 0)
  {
    hide Be32, Be16, TypeCode, ClassCode;
  }

  // ---------------------------------------------------------------------------------------
  // Subtrees

  /** Some suffix of `name` that starts at a length byte is `zone`. */
  predicate Below(name: seq<byte>, zone: seq<byte>)
    decreases |name|
  {
    name != [] && (name == zone || (name[0] != 0 && 1 + name[0] <= |name| && Below(name[1 + name[0]..], zone)))
  }

  lemma {:induction false} BelowIsSuffix(n: Name, z: Name)
    requires Fits(n) && Fits(z) && forall i :: 0 <= i < |n| ==> n[i] != []
    ensures Below(Wire(n), Wire(z)) <==> |z| <= |n| && n[|n| - |z|..] == z
  {
    hide Wire, Body, WireLength, Below;
    if n == [] {
      BelowRoot(z);
      assert z == [] ==> n[|n| - |z|..] == z;
    } else {
      BelowFirst(n, z);
      BelowIsSuffix(n[1..], z);
      if |z| <= |n| - 1 {
        assert n[1..][|n| - 1 - |z|..] == n[|n| - |z|..];
      }
      if Wire(n) == Wire(z) {
        WireInjective(n, z);
      }
      assert n[0..] == n;
    }
  }

  lemma BelowRoot(z: Name)
    requires Fits(z)
    ensures Below(Wire([]), Wire(z)) <==> z == []
  {
    if z != [] {
      NonEmptyLength(z);
    }
  }

  /** One turn of the walk over a wire name. */
  lemma BelowFirst(n: Name, z: Name)
    requires n != [] && Fits(n) && Fits(z) && n[0] != []
    ensures Fits(n[1..])
    ensures Below(Wire(n), Wire(z)) <==> Wire(n) == Wire(z) || Below(Wire(n[1..]), Wire(z))
  {
    WireFirst(n);
  }

  /** `in_subtree` on wire forms is the label-wise suffix test. */
  lemma SubtreeIsEndsWith(n: Name, z: Name)
    requires WireName(n).Some? && WireName(z).Some? && forall i :: 0 <= i < |n| ==> n[i] != []
    ensures Below(WireName(n).value, WireName(z).value) <==> EndsWith(n, z)
  {
    FoldFits(n);
    FoldFits(z);
    assert forall i :: 0 <= i < |n| ==> |Fold(n)[i]| == |n[i]|;
    BelowIsSuffix(Fold(n), Fold(z));
    EndsWithFold(n, z);
  }

  predicate KeyBelow(key: seq<byte>, zone: seq<byte>) {
    KEY_NAME_OFFSET <= |key| && Below(key[KEY_NAME_OFFSET..], zone)
  }

  predicate KeyFor(key: seq<byte>, wire: seq<byte>, rtype: Option<u16>) {
    && KEY_NAME_OFFSET <= |key| && key[KEY_NAME_OFFSET..] == wire
    && (rtype.None? || FromBe16(key[4], key[5]) == rtype.value)
  }

  /** A subtree purge matches a query's key exactly when the query's name is the zone or below it. */
  lemma PurgeSubtreeExact(group: u32, rtype: RecordType, class_: Class, rd: bool, dnssecOk: bool, name: Name, zone: Name)
    requires KeyBytes(group, rtype, class_, rd, dnssecOk, name).Some? && WireName(zone).Some?
    requires forall i :: 0 <= i < |name| ==> name[i] != []
    ensures KeyBelow(KeyBytes(group, rtype, class_, rd, dnssecOk, name).value, WireName(zone).value) <==> EndsWith(name, zone)
  {
    var key := KeyBytes(group, rtype, class_, rd, dnssecOk, name).value;
    assert key[KEY_NAME_OFFSET..] == WireName(name).value;
    SubtreeIsEndsWith(name, zone);
  }

  /** A name purge matches a query's key exactly when the name, and the type if given, are the query's. */
  lemma PurgeExact(
    group: u32, rtype: RecordType, class_: Class, rd: bool, dnssecOk: bool, name: Name, purged: Name, only: Option<RecordType>)
    requires KeyBytes(group, rtype, class_, rd, dnssecOk, name).Some? && WireName(purged).Some?
    ensures KeyFor(
        KeyBytes(group, rtype, class_, rd, dnssecOk, name).value,
        WireName(purged).value,
        if only.None? then None else Some(TypeCode(only.value)))
      <==> SameName(name, purged) && (only.None? || TypeCode(only.value) == TypeCode(rtype))
  {
    var key := KeyBytes(group, rtype, class_, rd, dnssecOk, name).value;
    assert key[KEY_NAME_OFFSET..] == WireName(name).value;
    assert [key[4], key[5]] == Be16(TypeCode(rtype));
    Be16Injective(FromBe16(key[4], key[5]), TypeCode(rtype));
    FoldFits(name);
    FoldFits(purged);
    if WireName(name) == WireName(purged) {
      WireInjective(Fold(name), Fold(purged));
    }
  }

  // ---------------------------------------------------------------------------------------
  // The loops of the source

  /** The suffix walk over the wire bytes. */
  method InSubtree(name: seq<byte>, zone: seq<byte>) returns (below: bool)
    ensures below == Below(name, zone)
  {
    var at := 0;
    while at < |name|
      invariant Below(name, zone) == (at <= |name| && Below(name[at..], zone))
    {
      if name[at..] == zone {
        return true;
      }
      var labelLen := name[at];
      if labelLen == 0 {
        return false;
      }
      if at + 1 + labelLen <= |name| {
        assert name[at..][1 + labelLen..] == name[at + 1 + labelLen..];
      }
      at := at + 1 + labelLen;
    }
    return false;
  }

  /** Copies a lowercased label into the buffer. */
  method CopyLower(buf: array<byte>, at: nat, l: Label)
    requires at + |l| <= buf.Length
    modifies buf
    ensures buf[..at] == old(buf[..at]) && buf[at..at + |l|] == FoldLabel(l)
  {
    var i := 0;
    while i < |l|
      invariant 0 <= i <= |l|
      invariant buf[..at] == old(buf[..at])
      invariant forall j :: 0 <= j < i ==> buf[at + j] == Lower(l[j])
    {
      buf[at + i] := Lower(l[i]);
      i := i + 1;
    }
  }

  /** Appends a length-prefixed, lowercased label. */
  method AppendLabel(buf: array<byte>, len: nat, l: Label)
    requires len + 1 + |l| <= buf.Length && |l| <= MAX_LABEL
    modifies buf
    ensures buf[..len + 1 + |l|] == old(buf[..len]) + [|l|] + FoldLabel(l)
  {
    buf[len] := |l|;
    assert buf[..len + 1] == old(buf[..len]) + [|l|];
    CopyLower(buf, len + 1, l);
    assert buf[..len + 1 + |l|] == buf[..len + 1] + buf[len + 1..len + 1 + |l|];
  }

  /** Appends every label of `name` after the key's prefix; `None` when the name does not fit. */
  method AppendLabels(buf: array<byte>, name: Name) returns (len: Option<nat>)
    requires buf.Length == MAX_KEY_LEN
    modifies buf
    ensures len.None? <==> !Fits(name) || WireLength(name) > MAX_NAME
    ensures len.Some? ==> Fits(Fold(name)) && len.value == KEY_NAME_OFFSET + WireLength(name) - 1
    ensures len.Some? ==> buf[..len.value] == old(buf[..KEY_NAME_OFFSET]) + Body(Fold(name))
  {
    hide Body, WireLength, Fits, Fold;
    var at := KEY_NAME_OFFSET;
    var k := 0;
    EmptyBody(name);
    while k < |name|
      invariant 0 <= k <= |name| && Fits(name[..k]) && Fits(Fold(name[..k]))
      invariant at == KEY_NAME_OFFSET + WireLength(name[..k]) - 1 <= MAX_KEY_LEN - 1
      invariant buf[..at] == old(buf[..KEY_NAME_OFFSET]) + Body(Fold(name[..k]))
    {
      var l := name[k];
      LongerName(name, k);
      if |l| > MAX_LABEL || at + 1 + |l| + 1 > MAX_KEY_LEN {
        return None;
      }
      AppendLabel(buf, at, l);
      BodyStep(name, k);
      at := at + 1 + |l|;
      k := k + 1;
    }
    assert name[..|name|] == name;
    return Some(at);
  }

  /** Builds a key in a fixed buffer: the prefix, the labels and the root byte. */
  method BuildKey(group: u32, rtype: RecordType, class_: Class, rd: bool, dnssecOk: bool, name: Name) returns (key: Option<seq<byte>>)
    ensures key == KeyBytes(group, rtype, class_, rd, dnssecOk, name)
  {
    hide Body, Prefix, WireLength, Fits, Fold;
    var bytes := new byte[MAX_KEY_LEN];
    var prefix := Prefix(group, rtype, class_, rd, dnssecOk);
    forall i | 0 <= i < KEY_NAME_OFFSET {
      bytes[i] := prefix[i];
    }
    assert bytes[..KEY_NAME_OFFSET] == prefix;
    var len := AppendLabels(bytes, name);
    if len.None? {
      return None;
    }
    bytes[len.value] := 0;
    key := Some(bytes[..len.value + 1]);
    FoldFits(name);
    assert bytes[..len.value + 1] == prefix + (Body(Fold(name)) + [0]);
  }

  lemma EmptyBody(n: Name)
    ensures Fits(n[..0]) && Fits(Fold(n[..0])) && Body(Fold(n[..0])) == [] && WireLength(n[..0]) == 1
  {
  }

  lemma BodyStep(n: Name, k: nat)
    requires k < |n| && Fits(n[..k]) && Fits(Fold(n[..k])) && |n[k]| <= MAX_LABEL
    ensures Fits(Fold(n[..k + 1]))
    ensures Body(Fold(n[..k + 1])) == Body(Fold(n[..k])) + [|n[k]|] + FoldLabel(n[k])
  {
    BodyPush(Fold(n[..k]), FoldLabel(n[k]));
    assert Fold(n[..k + 1]) == Fold(n[..k]) + [FoldLabel(n[k])];
  }

  lemma LongerName(n: Name, k: nat)
    requires k < |n| && Fits(n[..k])
    ensures WireLength(n[..k + 1]) == WireLength(n[..k]) + 1 + |n[k]| <= WireLength(n)
    ensures |n[k]| <= MAX_LABEL ==> Fits(n[..k + 1])
    ensures |n[k]| > MAX_LABEL ==> !Fits(n)
  {
    assert n[..k + 1] == n[..k] + [n[k]];
    WireLengthConcat(n[..k], [n[k]]);
    assert WireLength([n[k]]) == |n[k]| + 1 + WireLength([]);
    assert n == n[..k + 1] + n[k + 1..];
    WireLengthConcat(n[..k + 1], n[k + 1..]);
  }
}
