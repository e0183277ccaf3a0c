/** VariableDatatype (src/include/core/datatypes/VariableDatatype.hpp), floating-point numbers by their bits. */
module Variables {
  import opened Base

  datatype Variable =
    | Int64(i: int)
    | UInt64(u: nat)
    | Int32(i: int)
    | UInt32(u: nat)
    | Float(bits: nat)
    | Double(bits: nat)
    | Chars(text: string)
    | Invalid

  const WORD31: int := 0x8000_0000
  const WORD63: int := 0x8000_0000_0000_0000

  /** Values that the C++ type admits; strings are terminated by a NUL, and their length fits 32 bits. */
  predicate IsVariable(v: Variable)
  {
    match v
    case Int64(i) => -WORD63 <= i < WORD63
    case UInt64(u) => u < WORD64
    case Int32(i) => -WORD31 <= i < WORD31
    case UInt32(u) => u < WORD32
    case Float(bits) => bits < WORD32
    case Double(bits) => bits < WORD64
    case Chars(text) => IsBytes(text) && '\0' !in text
    case Invalid => true
  }

  /** The characters of a std::string are bytes. */
  predicate IsBytes(s: string)
  {
    |s| < WORD32 && forall i :: 0 <= i < |s| ==> s[i] as int < 256
  }

  /** The bits, without the sign, of a number that is not a number: an exponent of ones, and a fraction. */
  predicate IsNaN(v: Variable)
  {
    (v.Float? && v.bits % WORD31 > 0x7F80_0000) || (v.Double? && v.bits % WORD63 > 0x7FF0_0000_0000_0000)
  }

  predicate IsZero(v: Variable)
  {
    (v.Float? && v.bits % WORD31 == 0) || (v.Double? && v.bits % WORD63 == 0)
  }

  /** operator==: an invalid variable, like one that is not a number, is not even equal to itself, and the two zeros are equal. */
  predicate Equal(v: Variable, w: Variable)
  {
    match v
    case Float(_) => w.Float? && !IsNaN(v) && !IsNaN(w) && (v == w || (IsZero(v) && IsZero(w)))
    case Double(_) => w.Double? && !IsNaN(v) && !IsNaN(w) && (v == w || (IsZero(v) && IsZero(w)))
    case Invalid => false
    case _ => v == w
  }
}
