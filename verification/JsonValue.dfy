/** 3rdparty/nlohmann/json.hpp: JSON values and the comparison operator `==`.
    Objects are `std::map`s, so an object is its set of members; the iteration order is
    Text.SortedKeys.  Discarded values and NaN are not modelled. */
module JsonValue {
  import opened Wrappers
  import Rounding

  type i64 = x: int | -0x8000_0000_0000_0000 <= x < 0x8000_0000_0000_0000
  type u64 = x: int | 0 <= x < 0x1_0000_0000_0000_0000

  /** binary64 without NaN; the two zeros compare equal and are one value. */
  datatype Double = Finite(r: real) | PosInf | NegInf

  datatype Json =
    | Null
    | Bool(b: bool)
    | Int(i: i64)
    | UInt(u: u64)
    | Float(d: Double)
    | Str(s: string)
    | Bin(bytes: seq<u8>, subtype: Option<u64>)
    | Arr(elems: seq<Json>)
    | Obj(members: map<string, Json>)

  /** The enumeration of value_t.hpp, without `discarded`. */
  datatype ValueT = TNull | TObject | TArray | TString | TBoolean | TInteger | TUnsigned | TFloat | TBinary

  function TypeOf(j: Json): ValueT {
    match j
    case Null => TNull
    case Bool(_) => TBoolean
    case Int(_) => TInteger
    case UInt(_) => TUnsigned
    case Float(_) => TFloat
    case Str(_) => TString
    case Bin(_, _) => TBinary
    case Arr(_) => TArray
    case Obj(_) => TObject
  }

  predicate IsPrimitive(j: Json) { !j.Arr? && !j.Obj? }

  /** `static_cast<number_integer_t>` of an unsigned number. */
  function ToSigned(u: u64): i64 {
    if u < 0x8000_0000_0000_0000 then u else u - 0x1_0000_0000_0000_0000
  }

  /** `static_cast<number_float_t>` of an integer: rounded to 53 bits. */
  function ToDouble(n: int): Double {
    Finite(Rounding.Round(n, 0x20_0000_0000_0000) as real)
  }

  /** `operator==`. */
  predicate Equal(x: Json, y: Json) {
    match (x, y)
    case (Arr(a), Arr(b)) => |a| == |b| && forall k | 0 <= k < |a| :: Equal(a[k], b[k])
    case (Obj(m), Obj(n)) => m.Keys == n.Keys && forall k <- m.Keys :: Equal(m[k], n[k])
    case (Int(i), Float(d)) => ToDouble(i) == d
    case (Float(d), Int(i)) => d == ToDouble(i)
    case (UInt(u), Float(d)) => ToDouble(u) == d
    case (Float(d), UInt(u)) => d == ToDouble(u)
    case (UInt(u), Int(i)) => ToSigned(u) == i
    case (Int(i), UInt(u)) => i == ToSigned(u)
    case _ => x == y
  }

  lemma EqualReflexive(x: Json)
    ensures Equal(x, x)
  {}

  /** The length limit of `std::vector`: every array index of the document is below the maximum of
      `size_type`. No document in memory violates it. */
  predicate Fits(j: Json) {
    match j
    case Arr(a) => |a| < 0xFFFF_FFFF_FFFF_FFFF && forall k | 0 <= k < |a| :: Fits(a[k])
    case Obj(m) => forall k <- m.Keys :: Fits(m[k])
    case _ => true
  }
}
