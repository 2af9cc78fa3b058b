/** Bytes, big-endian integers and the few definitions every module shares. */
module Base {

  type byte = x: int | 0 <= x < 256

  type u16 = x: int | 0 <= x < 0x1_0000

  type u32 = x: int | 0 <= x < 0x1_0000_0000

  datatype Option<+T> = None | Some(value: T)

  /** Nanoseconds in a second. */
  const SECOND: nat := 1_000_000_000

  function Min(a: nat, b: nat): nat {
    if a < b then a else b
  }

  function Pow2(k: nat): (p: nat)
    ensures p > 0
  {
    if k == 0 then 1 else 2 * Pow2(k - 1)
  }

  function Be16(x: u16): (s: seq<byte>)
    ensures |s| == 2
  {
    [x / 256, x % 256]
  }

  function Be32(x: u32): (s: seq<byte>)
    ensures |s| == 4
  {
    Be16(x / 0x1_0000) + Be16(x % 0x1_0000)
  }

  function FromBe16(a: byte, b: byte): (x: u16)
    ensures Be16(x) == [a, b]
  {
    a * 256 + b
  }

  function FromBe32(a: byte, b: byte, c: byte, d: byte): (x: u32)
    ensures Be32(x) == [a, b, c, d]
  {
    var hi, lo := FromBe16(a, b), FromBe16(c, d);
    assert Be16(hi) + Be16(lo) == [a, b, c, d];
    assert (hi * 0x1_0000 + lo) / 0x1_0000 == hi && (hi * 0x1_0000 + lo) % 0x1_0000 == lo;
    hi * 0x1_0000 + lo
  }

  lemma Be16Injective(x: u16, y: u16)
    requires Be16(x) == Be16(y)
    ensures x == y
  {
    assert x / 256 == y / 256 && x % 256 == y % 256;
  }

  lemma Be32Injective(x: u32, y: u32)
    requires Be32(x) == Be32(y)
    ensures x == y
  {
    assert Be16(x / 0x1_0000) == Be32(x)[..2] && Be16(x % 0x1_0000) == Be32(x)[2..];
    assert Be16(y / 0x1_0000) == Be32(y)[..2] && Be16(y % 0x1_0000) == Be32(y)[2..];
    Be16Injective(x / 0x1_0000, y / 0x1_0000);
    Be16Injective(x % 0x1_0000, y % 0x1_0000);
  }

  lemma {:induction false} MulOrder(d: nat, q: nat, w: nat)
    requires d < q
    ensures d * w + w <= q * w
    decreases q
  {
    assert q * w == (q - 1) * w + w;
    if d < q - 1 {
      MulOrder(d, q - 1, w);
    }
  }

  /** Dividing what was multiplied gives it back. */
  lemma Quotient(q: nat, w: nat, low: nat)
    requires low < w
    ensures (q * w + low) / w == q && (q * w + low) % w == low
  {
    var a := q * w + low;
    var d := a / w;
    assert a == d * w + a % w && 0 <= a % w < w;
    if d < q {
      MulOrder(d, q, w);
    } else if d > q {
      MulOrder(q, d, w);
    }
  }
}
