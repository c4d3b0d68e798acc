/**
 * Attribute encodings of the graph-tool binary format: each supported
 * attribute type has a type byte, an optional element count, a byte count
 * and the bytes of its value (little-endian two's complement for integers,
 * UTF-8 for strings).
 */
module GraphToolAttrs {
  import opened Wrappers
  import opened Bytes

  newtype i16 = x: int | -0x8000 <= x < 0x8000
  newtype i32 = x: int | -0x8000_0000 <= x < 0x8000_0000
  newtype i64 = x: int | -0x8000_0000_0000_0000 <= x < 0x8000_0000_0000_0000

  datatype GtType =
    | BoolT | Int16T | Int32T | Int64T | GtStringT
    | VecBoolT | VecInt16T | VecInt32T | VecInt64T | VecStringT | PickledT

  datatype GtValue =
    | Bool(b: bool)
    | Int16(i16: i16)
    | Int32(i32: i32)
    | Int64(i64: i64)
    | GtString(s: string)
    | VecBool(bools: seq<bool>)
    | VecInt16(v16: seq<i16>)
    | VecInt32(v32: seq<i32>)
    | VecInt64(v64: seq<i64>)
    | VecString(strings: seq<string>)
    | Pickled(pickle: seq<byte>)

  function TypeOf(v: GtValue): GtType
  {
    match v
    case Bool(_) => BoolT
    case Int16(_) => Int16T
    case Int32(_) => Int32T
    case Int64(_) => Int64T
    case GtString(_) => GtStringT
    case VecBool(_) => VecBoolT
    case VecInt16(_) => VecInt16T
    case VecInt32(_) => VecInt32T
    case VecInt64(_) => VecInt64T
    case VecString(_) => VecStringT
    case Pickled(_) => PickledT
  }

  /** `get_type_byte`; 0x04 and 0x0b belong to the floating-point types, 0x05 and 0x0c are unused. */
  function TypeByte(t: GtType): (b: byte)
    ensures b <= 0x0e && b != 0x04 && b != 0x05 && b != 0x0b && b != 0x0c
  {
    match t
    case BoolT => 0x00
    case Int16T => 0x01
    case Int32T => 0x02
    case Int64T => 0x03
    case GtStringT => 0x06
    case VecBoolT => 0x07
    case VecInt16T => 0x08
    case VecInt32T => 0x09
    case VecInt64T => 0x0a
    case VecStringT => 0x0d
    case PickledT => 0x0e
  }

  /** The type a type byte names, if any of the modelled ones. */
  function TypeOfByte(b: byte): (r: Option<GtType>)
    ensures r.Some? ==> TypeByte(r.value) == b
  {
    if b == 0x00 then Some(BoolT)
    else if b == 0x01 then Some(Int16T)
    else if b == 0x02 then Some(Int32T)
    else if b == 0x03 then Some(Int64T)
    else if b == 0x06 then Some(GtStringT)
    else if b == 0x07 then Some(VecBoolT)
    else if b == 0x08 then Some(VecInt16T)
    else if b == 0x09 then Some(VecInt32T)
    else if b == 0x0a then Some(VecInt64T)
    else if b == 0x0d then Some(VecStringT)
    else if b == 0x0e then Some(PickledT)
    else None
  }

  /** Distinct types have distinct type bytes: the byte identifies the type. */
  lemma TypeByteIdentifies(t: GtType)
    ensures TypeOfByte(TypeByte(t)) == Some(t)
  {
  }

  lemma TypeBytesDistinct(t1: GtType, t2: GtType)
    ensures TypeByte(t1) == TypeByte(t2) ==> t1 == t2
  {
    TypeByteIdentifies(t1);
    TypeByteIdentifies(t2);
  }

  function BoolByte(b: bool): byte
  {
    if b then 0x01 else 0x00
  }

  /** Width in bytes of the scalar integer types. */
  function IntWidth(t: GtType): nat
  {
    match t
    case Int16T => 2 case VecInt16T => 2
    case Int32T => 4 case VecInt32T => 4
    case Int64T => 8 case VecInt64T => 8
    case _ => 0
  }

  function Le16(x: i16): (r: seq<byte>)
    ensures |r| == 2
  {
    SignedLeBytes(x as int, 2)
  }

  function Le32(x: i32): (r: seq<byte>)
    ensures |r| == 4
  {
    SignedLeBytes(x as int, 4)
  }

  function Le64(x: i64): (r: seq<byte>)
    ensures |r| == 8
  {
    SignedLeBytes(x as int, 8)
  }

  function BoolBytes(bs: seq<bool>): (r: seq<byte>)
    ensures |r| == |bs|
    ensures forall i :: 0 <= i < |bs| ==> r[i] == BoolByte(bs[i])
  {
    if bs == [] then [] else [BoolByte(bs[0])] + BoolBytes(bs[1..])
  }

  function Concat16(v: seq<i16>): (r: seq<byte>)
    ensures |r| == 2 * |v|
  {
    if v == [] then [] else Le16(v[0]) + Concat16(v[1..])
  }

  function Concat32(v: seq<i32>): (r: seq<byte>)
    ensures |r| == 4 * |v|
  {
    if v == [] then [] else Le32(v[0]) + Concat32(v[1..])
  }

  function Concat64(v: seq<i64>): (r: seq<byte>)
    ensures |r| == 8 * |v|
  {
    if v == [] then [] else Le64(v[0]) + Concat64(v[1..])
  }

  function ConcatStrings(v: seq<string>): seq<byte>
  {
    if v == [] then [] else Utf8(v[0]) + ConcatStrings(v[1..])
  }

  /** Total UTF-8 byte count of the strings (the `sum` in `get_num_bytes`). */
  function TotalBytes(v: seq<string>): nat
  {
    if v == [] then 0 else |Utf8(v[0])| + TotalBytes(v[1..])
  }

  /** `get_length`: the element count of the sized types; none for the scalars. */
  function GetLength(v: GtValue): (r: Option<nat>)
    ensures r.None? <==> TypeOf(v) in {BoolT, Int16T, Int32T, Int64T}
  {
    match v
    case Bool(_) => None
    case Int16(_) => None
    case Int32(_) => None
    case Int64(_) => None
    case GtString(s) => Some(|Utf8(s)|)
    case VecBool(bs) => Some(|bs|)
    case VecInt16(xs) => Some(|xs|)
    case VecInt32(xs) => Some(|xs|)
    case VecInt64(xs) => Some(|xs|)
    case VecString(ss) => Some(|ss|)
    case Pickled(p) => Some(|p|)
  }

  /** `get_num_bytes`. */
  function NumBytes(v: GtValue): nat
  {
    match v
    case Bool(_) => 1
    case Int16(_) => 2
    case Int32(_) => 4
    case Int64(_) => 8
    case GtString(s) => 8 + |Utf8(s)|
    case VecBool(bs) => 8 + |bs|
    case VecInt16(xs) => 8 + 2 * |xs|
    case VecInt32(xs) => 8 + 4 * |xs|
    case VecInt64(xs) => 8 + 8 * |xs|
    case VecString(ss) => 8 + 8 * |ss| + TotalBytes(ss)
    case Pickled(p) => 8 + |p|
  }

  /** `get_value_bytes`. */
  function ValueBytes(v: GtValue): seq<byte>
  {
    match v
    case Bool(b) => [BoolByte(b)]
    case Int16(x) => Le16(x)
    case Int32(x) => Le32(x)
    case Int64(x) => Le64(x)
    case GtString(s) => Utf8(s)
    case VecBool(bs) => BoolBytes(bs)
    case VecInt16(xs) => Concat16(xs)
    case VecInt32(xs) => Concat32(xs)
    case VecInt64(xs) => Concat64(xs)
    case VecString(ss) => ConcatStrings(ss)
    case Pickled(p) => p
  }

  lemma {:induction false} ConcatStringsLength(v: seq<string>)
    ensures |ConcatStrings(v)| == TotalBytes(v)
  {
    if v != [] {
      ConcatStringsLength(v[1..]);
    }
  }

  /**
   * The value's byte count agrees with `get_num_bytes`: a scalar is exactly its
   * value bytes; a sized type adds an 8-byte count header; a vector of strings
   * adds a further 8 bytes per string that the value bytes do not carry.
   */
  lemma ValueBytesAgreeWithNumBytes(v: GtValue)
    ensures GetLength(v).None? ==> |ValueBytes(v)| == NumBytes(v)
    ensures GetLength(v).Some? && !v.VecString? ==> |ValueBytes(v)| + 8 == NumBytes(v)
    ensures v.VecString? ==> |ValueBytes(v)| + 8 + 8 * |v.strings| == NumBytes(v)
  {
    if v.VecString? {
      ConcatStringsLength(v.strings);
    }
  }

  /** A Bool encodes as one byte, 1 for true and 0 for false. */
  lemma BoolEncoding(b: bool)
    ensures ValueBytes(Bool(b)) == (if b then [1] else [0])
    ensures NumBytes(Bool(b)) == 1 && GetLength(Bool(b)) == None
  {
  }

  /** Scalar integers decode back from their little-endian two's complement bytes. */
  lemma ScalarIntRoundTrip(v: GtValue)
    requires v.Int16? || v.Int32? || v.Int64?
    ensures |ValueBytes(v)| == IntWidth(TypeOf(v)) == NumBytes(v)
    ensures v.Int16? ==> FromTwos(LeValue(ValueBytes(v)), 2) == v.i16 as int
    ensures v.Int32? ==> FromTwos(LeValue(ValueBytes(v)), 4) == v.i32 as int
    ensures v.Int64? ==> FromTwos(LeValue(ValueBytes(v)), 8) == v.i64 as int
  {
    match v
    case Int16(x) => SignedLeRoundTrip(x as int, 2);
    case Int32(x) => SignedLeRoundTrip(x as int, 4);
    case Int64(x) => SignedLeRoundTrip(x as int, 8);
  }

  /** Element `i` of a vector of int32 occupies bytes 4i .. 4i+4 and decodes back to itself. */
  lemma {:induction false} VecInt32Element(v: seq<i32>, i: nat)
    requires i < |v|
    ensures Concat32(v)[4 * i .. 4 * i + 4] == Le32(v[i])
    ensures FromTwos(LeValue(Concat32(v)[4 * i .. 4 * i + 4]), 4) == v[i] as int
  {
    if i == 0 {
      assert Concat32(v)[..4] == Le32(v[0]);
    } else {
      VecInt32Element(v[1..], i - 1);
      assert Concat32(v)[4 * i .. 4 * i + 4] == Concat32(v[1..])[4 * (i - 1) .. 4 * (i - 1) + 4];
    }
    SignedLeRoundTrip(v[i] as int, 4);
  }

  lemma {:induction false} VecInt16Element(v: seq<i16>, i: nat)
    requires i < |v|
    ensures Concat16(v)[2 * i .. 2 * i + 2] == Le16(v[i])
    ensures FromTwos(LeValue(Concat16(v)[2 * i .. 2 * i + 2]), 2) == v[i] as int
  {
    if i == 0 {
      assert Concat16(v)[..2] == Le16(v[0]);
    } else {
      VecInt16Element(v[1..], i - 1);
      assert Concat16(v)[2 * i .. 2 * i + 2] == Concat16(v[1..])[2 * (i - 1) .. 2 * (i - 1) + 2];
    }
    SignedLeRoundTrip(v[i] as int, 2);
  }

  lemma {:induction false} VecInt64Element(v: seq<i64>, i: nat)
    requires i < |v|
    ensures Concat64(v)[8 * i .. 8 * i + 8] == Le64(v[i])
    ensures FromTwos(LeValue(Concat64(v)[8 * i .. 8 * i + 8]), 8) == v[i] as int
  {
    if i == 0 {
      assert Concat64(v)[..8] == Le64(v[0]);
    } else {
      VecInt64Element(v[1..], i - 1);
      assert Concat64(v)[8 * i .. 8 * i + 8] == Concat64(v[1..])[8 * (i - 1) .. 8 * (i - 1) + 8];
    }
    SignedLeRoundTrip(v[i] as int, 8);
  }

  /** The value bytes of a vector of strings are the strings' UTF-8 bytes back to back. */
  lemma {:induction false} ConcatStringsAppend(a: seq<string>, b: seq<string>)
    ensures ConcatStrings(a + b) == ConcatStrings(a) + ConcatStrings(b)
  {
    if a == [] {
      assert a + b == b;
    } else {
      assert (a + b)[1..] == a[1..] + b;
      ConcatStringsAppend(a[1..], b);
    }
  }
}
