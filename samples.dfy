/** Native samples as stored in a block, their little-endian byte encoding,
    and the conversion of a native sample into the caller's target type
    (the `FromNativeSample` implementations). */
module Samples {

  type uint8 = x: int | 0 <= x < 0x100
  type uint16 = x: int | 0 <= x < 0x1_0000
  type uint32 = x: int | 0 <= x < 0x1_0000_0000

  /** The stored representation of a channel. */
  datatype SampleType = F16 | F32 | U32

  /** Bytes one sample of a type occupies in a row: 2 for half floats, 4 otherwise. */
  function BytesPerSample(t: SampleType): (size: nat)
    ensures size == 2 || size == 4
    ensures size == 2 <==> t == F16
  {
    match t
    case F16 => 2
    case F32 => 4
    case U32 => 4
  }

  /** One sample exactly as stored: the bit pattern of a half or single float,
      or an unsigned 32-bit integer. No floating-point value is ever computed. */
  datatype NativeSample = Half(halfBits: uint16) | Float(floatBits: uint32) | UInt(uint: uint32)
  {
    function Type(): SampleType {
      match this
      case Half(_) => F16
      case Float(_) => F32
      case UInt(_) => U32
    }
  }

  function Pow256(n: nat): (p: nat)
    ensures p >= 1
  {
    if n == 0 then 1 else 256 * Pow256(n - 1)
  }

  /** The unsigned number whose little-endian bytes are `bytes`. */
  function FromLittleEndian(bytes: seq<uint8>): nat {
    if |bytes| == 0 then 0 else bytes[0] + 256 * FromLittleEndian(bytes[1..])
  }

  /** The `width` low bytes of `v`, least significant first. */
  function ToLittleEndian(v: nat, width: nat): (bytes: seq<uint8>)
    ensures |bytes| == width
  {
    if width == 0 then [] else [v % 256] + ToLittleEndian(v / 256, width - 1)
  }

  lemma {:induction false} FromLittleEndianBound(bytes: seq<uint8>)
    ensures FromLittleEndian(bytes) < Pow256(|bytes|)
  {
    if |bytes| > 0 {
      FromLittleEndianBound(bytes[1..]);
    }
  }

  /** Reading back the bytes written for a number that fits gives the number. */
  lemma {:induction false} LittleEndianRoundTrip(v: nat, width: nat)
    requires v < Pow256(width)
    ensures FromLittleEndian(ToLittleEndian(v, width)) == v
  {
    if width > 0 {
      LittleEndianRoundTrip(v / 256, width - 1);
    }
  }

  /** Writing the number a byte string denotes reproduces the byte string. */
  lemma {:induction false} LittleEndianBytesRoundTrip(bytes: seq<uint8>)
    ensures ToLittleEndian(FromLittleEndian(bytes), |bytes|) == bytes
  {
    if |bytes| > 0 {
      var v := FromLittleEndian(bytes);
      assert v % 256 == bytes[0] && v / 256 == FromLittleEndian(bytes[1..]);
      LittleEndianBytesRoundTrip(bytes[1..]);
    }
  }

  /** The bytes of one stored sample: little-endian, 2 or 4 of them. */
  function EncodeNative(s: NativeSample): (bytes: seq<uint8>)
    ensures |bytes| == BytesPerSample(s.Type())
  {
    match s
    case Half(b) => ToLittleEndian(b, 2)
    case Float(b) => ToLittleEndian(b, 4)
    case UInt(u) => ToLittleEndian(u, 4)
  }

  /** `f16::read`, `f32::read` and `u32::read` on exactly one sample's bytes.
      Every byte string of the right length is the encoding of what it reads. */
  function ReadNative(t: SampleType, bytes: seq<uint8>): (s: NativeSample)
    requires |bytes| == BytesPerSample(t)
    ensures s.Type() == t
    ensures EncodeNative(s) == bytes
  {
    FromLittleEndianBound(bytes);
    LittleEndianBytesRoundTrip(bytes);
    match t
    case F16 => Half(FromLittleEndian(bytes))
    case F32 => Float(FromLittleEndian(bytes))
    case U32 => UInt(FromLittleEndian(bytes))
  }

  /** Reading the encoding of a sample gives that sample back, bit for bit. */
  lemma {:induction false} ReadEncodeRoundTrip(s: NativeSample)
    ensures ReadNative(s.Type(), EncodeNative(s)) == s
  {
    match s
    case Half(b) => LittleEndianRoundTrip(b, 2);
    case Float(b) => LittleEndianRoundTrip(b, 4);
    case UInt(u) => LittleEndianRoundTrip(u, 4);
  }

  /** The floating-point primitives behind the non-identity conversions
      (`f16::to_f32`, `f16::from_f32`, `f32 as u32`, `u32 as f32`), on bit
      patterns. They are parameters: their numerics are not part of this model. */
  datatype Numerics = Numerics(
    halfToFloat: uint16 -> uint32,
    floatToHalf: uint32 -> uint16,
    floatToUInt: uint32 -> uint32,
    uintToFloat: uint32 -> uint32)

  /** The type a selected channel is converted into: one of the three concrete
      numeric types, or the tagged `Sample` enum that keeps whatever was stored. */
  datatype TargetType = Concrete(sampleType: SampleType) | AnySample

  /** A converted sample as held in a pixel accumulator. */
  datatype Value = Number(number: NativeSample) | Tagged(sample: NativeSample)

  predicate HasTarget(v: Value, target: TargetType) {
    match target
    case Concrete(t) => v.Number? && v.number.Type() == t
    case AnySample => v.Tagged?
  }

  /** `FromNativeSample::from_f16/from_f32/from_u32` of the concrete type `t`. */
  function FromNative(num: Numerics, t: SampleType, s: NativeSample): (r: NativeSample)
    ensures r.Type() == t
    ensures s.Type() == t ==> r == s
  {
    match (t, s)
    case (F16, Half(h)) => s
    case (F16, Float(f)) => Half(num.floatToHalf(f))
    case (F16, UInt(u)) => Half(num.floatToHalf(num.uintToFloat(u)))
    case (F32, Half(h)) => Float(num.halfToFloat(h))
    case (F32, Float(f)) => s
    case (F32, UInt(u)) => Float(num.uintToFloat(u))
    case (U32, Half(h)) => UInt(num.floatToUInt(num.halfToFloat(h)))
    case (U32, Float(f)) => UInt(num.floatToUInt(f))
    case (U32, UInt(u)) => s
  }

  /** Conversion of one native sample into the target of a selected channel.
      The result always has the target's type; when the stored type already is
      the target, or the target is the `Sample` enum, the sample passes unchanged. */
  function Convert(num: Numerics, target: TargetType, s: NativeSample): (v: Value)
    ensures HasTarget(v, target)
    ensures target == Concrete(s.Type()) ==> v == Number(s)
    ensures target == AnySample ==> v == Tagged(s)
  {
    match target
    case Concrete(t) => Number(FromNative(num, t, s))
    case AnySample => Tagged(s)
  }

  /** The value an accumulator slot holds before any row is decoded
      (`Default::default()` of the slot's type: zero bits). */
  function DefaultValue(target: TargetType): (v: Value)
    ensures HasTarget(v, target)
  {
    match target
    case Concrete(F16) => Number(Half(0))
    case Concrete(F32) => Number(Float(0))
    case Concrete(U32) => Number(UInt(0))
    case AnySample => Tagged(Float(0))
  }
}
