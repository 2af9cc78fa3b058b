/** Domain names: case-preserving labels, compared case-insensitively. */
module Names {
  import opened Base

  type Label = seq<byte>
  type Name = seq<Label>

  const MAX_LABEL: nat := 63
  const MAX_NAME: nat := 255

  function Lower(b: byte): byte {
    if 65 <= b <= 90 then b + 32 else b
  }

  function FoldLabel(l: Label): (r: Label)
    ensures |r| == |l|
  {
    seq(|l|, i requires 0 <= i < |l| => Lower(l[i]))
  }

  function Fold(n: Name): (r: Name)
    ensures |r| == |n|
    ensures forall i :: 0 <= i < |n| ==> r[i] == FoldLabel(n[i])
  {
    seq(|n|, i requires 0 <= i < |n| => FoldLabel(n[i]))
  }

  /** Name equality: labels compared without case. */
  predicate SameName(a: Name, b: Name) {
    Fold(a) == Fold(b)
  }

  /** Whether the rightmost labels of `n` are `suffix`, ignoring case. */
  predicate EndsWith(n: Name, suffix: Name) {
    |suffix| <= |n| && forall i :: 0 <= i < |suffix| ==> FoldLabel(n[|n| - |suffix| + i]) == FoldLabel(suffix[i])
  }

  /** Bytes of the uncompressed wire form. */
  function WireLength(n: Name): nat {
    if n == [] then 1 else |n[0]| + 1 + WireLength(n[1..])
  }

  /** What the wire format admits: non-empty labels of at most 63 bytes, 255 bytes in all. */
  predicate Wellformed(n: Name) {
    (forall i :: 0 <= i < |n| ==> 1 <= |n[i]| <= MAX_LABEL) && WireLength(n) <= MAX_NAME
  }

  /** Two bytes that count as one: equal, or the two cases of an ASCII letter. */
  predicate SameLetter(a: byte, b: byte) {
    a == b || (65 <= a <= 90 && b == a + 32) || (65 <= b <= 90 && a == b + 32)
  }

  predicate SameLabel(a: Label, b: Label) {
    |a| == |b| && forall i :: 0 <= i < |a| ==> SameLetter(a[i], b[i])
  }

  lemma SameLabelFolds(a: Label, b: Label)
    ensures FoldLabel(a) == FoldLabel(b) <==> SameLabel(a, b)
  {
    if FoldLabel(a) == FoldLabel(b) {
      forall i | 0 <= i < |a| ensures SameLetter(a[i], b[i]) {
        assert FoldLabel(a)[i] == Lower(a[i]) && FoldLabel(b)[i] == Lower(b[i]);
      }
    }
  }

  /** Names are the same exactly when they agree label by label but for the case of ASCII letters. */
  lemma SameNameIff(a: Name, b: Name)
    ensures SameName(a, b) <==> |a| == |b| && forall i :: 0 <= i < |a| ==> SameLabel(a[i], b[i])
  {
    forall i | 0 <= i < |a| && i < |b| ensures FoldLabel(a[i]) == FoldLabel(b[i]) <==> SameLabel(a[i], b[i]) {
      SameLabelFolds(a[i], b[i]);
    }
    hide SameLabel, FoldLabel;
    if SameName(a, b) {
      assert forall i :: 0 <= i < |a| ==> Fold(a)[i] == FoldLabel(a[i]) && Fold(b)[i] == FoldLabel(b[i]);
    }
  }

  /** A name ends in another exactly when its last labels are that name. */
  lemma EndsWithIff(n: Name, suffix: Name)
    ensures EndsWith(n, suffix) <==> |suffix| <= |n| && SameName(n[|n| - |suffix|..], suffix)
  {
    EndsWithFold(n, suffix);
    if |suffix| <= |n| {
      FoldTail(n, |n| - |suffix|);
    }
  }

  lemma FoldTail(n: Name, k: nat)
    requires k <= |n|
    ensures Fold(n[k..]) == Fold(n)[k..]
  {
  }

  lemma EndsWithFold(n: Name, suffix: Name)
    ensures EndsWith(n, suffix) <==> |suffix| <= |n| && Fold(n)[|n| - |suffix|..] == Fold(suffix)
  {
    if |suffix| <= |n| {
      var tail := Fold(n)[|n| - |suffix|..];
      assert forall i :: 0 <= i < |suffix| ==> tail[i] == FoldLabel(n[|n| - |suffix| + i]);
    }
  }

  lemma {:induction false} WireLengthConcat(a: Name, b: Name)
    ensures WireLength(a + b) + 1 == WireLength(a) + WireLength(b)
  {
    if a == [] {
      assert a + b == b;
    } else {
      assert (a + b)[1..] == a[1..] + b;
      WireLengthConcat(a[1..], b);
    }
  }

  predicate Fits(n: Name) {
    forall i :: 0 <= i < |n| ==> |n[i]| <= MAX_LABEL
  }

  /** The length-prefixed labels, without the root byte. */
  function Body(n: Name): (w: seq<byte>)
    requires Fits(n)
    ensures |w| + 1 == WireLength(n)
  {
    if n == [] then [] else
      assert Fits(n[1..]);
      [|n[0]|] + n[0] + Body(n[1..])
  }

  /** The uncompressed wire form of labels of at most 63 bytes. */
  function Wire(n: Name): (w: seq<byte>)
    requires Fits(n)
    ensures |w| == WireLength(n)
  {
    Body(n) + [0]
  }

  lemma WireFirst(n: Name)
    requires n != [] && Fits(n)
    ensures Fits(n[1..])
    ensures Wire(n)[0] == |n[0]| && Wire(n)[1..1 + |n[0]|] == n[0] && Wire(n)[1 + |n[0]|..] == Wire(n[1..])
  {
    assert Wire(n) == [|n[0]|] + n[0] + Wire(n[1..]);
  }

  lemma Regroup(a: seq<byte>, b: seq<byte>, c: seq<byte>, d: seq<byte>)
    ensures a + (b + c + d) == a + b + c + d
  {
  }

  lemma {:induction false} BodyPush(n: Name, l: Label)
    requires Fits(n) && |l| <= MAX_LABEL
    ensures Fits(n + [l]) && Body(n + [l]) == Body(n) + [|l|] + l
  {
    if n == [] {
      assert n + [l] == [l] && [l][1..] == [];
      assert Body([l]) == [|l|] + l + Body([]);
    } else {
      assert (n + [l])[1..] == n[1..] + [l] && (n + [l])[0] == n[0];
      BodyPush(n[1..], l);
      Regroup([|n[0]|] + n[0], Body(n[1..]), [|l|], l);
    }
  }
}
