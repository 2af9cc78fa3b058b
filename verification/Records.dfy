/** Record types and classes, and their wire codes. */
module Records {
  import opened Base

  datatype RecordType = A | Aaaa | Cname | Ptr | Ns | Txt | Mx | Soa | Other(value: u16)

  datatype Class = In | Ch | OtherClass(code: u16)

  function TypeCode(t: RecordType): u16 {
    match t
    case A => 1
    case Ns => 2
    case Cname => 5
    case Soa => 6
    case Ptr => 12
    case Mx => 15
    case Txt => 16
    case Aaaa => 28
    case Other(value) => value
  }

  function TypeFrom(code: u16): (t: RecordType)
    ensures TypeCode(t) == code
  {
    match code
    case 1 => A
    case 2 => Ns
    case 5 => Cname
    case 6 => Soa
    case 12 => Ptr
    case 15 => Mx
    case 16 => Txt
    case 28 => Aaaa
    case _ => Other(code)
  }

  function ClassCode(c: Class): u16 {
    match c
    case In => 1
    case Ch => 3
    case OtherClass(value) => value
  }

  /** The class of a wire value; 0 is reserved. */
  function ClassFrom(code: u16): (c: Option<Class>)
    ensures c.None? <==> code == 0
    ensures c.Some? ==> ClassCode(c.value) == code
  {
    match code
    case 0 => None
    case 1 => Some(In)
    case 3 => Some(Ch)
    case _ => Some(OtherClass(code))
  }

  /** A type written the way the decoder writes it: by name when it has one. */
  predicate CanonicalType(t: RecordType) {
    t.Other? ==> t.value !in {1, 2, 5, 6, 12, 15, 16, 28}
  }

  predicate CanonicalClass(c: Class) {
    c == In || c == Ch || (c.OtherClass? && c.code !in {1, 3})
  }
}
