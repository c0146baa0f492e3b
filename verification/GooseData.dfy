/** The IEC 61850-8-1 Data CHOICE: typed values nested in arrays and structures, their
    BER encoding and the decoder for it. */
module GooseData {
  import opened Arithmetic
  import opened Wrappers
  import opened Bytes
  import opened Ber
  import UtcTime

  datatype Error = FrameTooShort | NotGoose | BadBer | BadPdu

  /** A float64 known by its bits: either one that an IEEE single represents, given by the
      four octets of that single, or a double given by its eight octets. */
  datatype Float = Single(bits: bytes) | Double(bits: bytes)

  datatype DataValue =
    | Array(children: seq<DataValue>)
    | Structure(children: seq<DataValue>)
    | Boolean(flag: bool)
    | BitString(payload: bytes, bitLength: int)
    | Integer(int64: int)
    | Unsigned(uint64: nat)
    | FloatingPoint(float: Float)
    | Real(float: Float)
    | OctetString(octets: bytes)
    | VisibleString(text: bytes)
    | BinaryTime(octets: bytes)
    | Bcd(int64: int)
    | BooleanArray(payload: bytes, bitLength: int)
    | UtcTimeValue(time: UtcTime.Time, quality: UtcTime.TimeQuality)
    | Raw(number: byte, octets: bytes)
  // Raw stands for every other DataType number: the encoder's and decoder's default case.

  /** The type numbers that select a case of their own; all others are Raw. */
  const TYPED: set<byte> := {1, 2, 3, 4, 5, 6, 7, 8, 9, 10, 12, 13, 14, 17}

  function TypeNumber(v: DataValue): byte {
    match v
    case Array(_) => 1
    case Structure(_) => 2
    case Boolean(_) => 3
    case BitString(_, _) => 4
    case Integer(_) => 5
    case Unsigned(_) => 6
    case FloatingPoint(_) => 7
    case Real(_) => 8
    case OctetString(_) => 9
    case VisibleString(_) => 10
    case BinaryTime(_) => 12
    case Bcd(_) => 13
    case BooleanArray(_, _) => 14
    case UtcTimeValue(_, _) => 17
    case Raw(n, _) => n
  }

  // ------------------------------------------------------------- bit strings

  /** The significant bits: a length outside 1..8*|payload| means all of them. */
  function SignificantBits(payload: bytes, bitLength: int): (n: nat)
    ensures n <= 8 * |payload|
  {
    if bitLength <= 0 || bitLength > |payload| * 8 then |payload| * 8 else bitLength
  }

  function UnusedBits(bits: nat): (n: nat)
    ensures n <= 7
  {
    (bits + 7) / 8 * 8 - bits
  }

  /** Whole octets that hold the significant bits, the rest of the last one cleared. */
  function CanonicalBits(payload: bytes, bitLength: int): (r: bytes)
    ensures |r| == (SignificantBits(payload, bitLength) + 7) / 8
  {
    var bits := SignificantBits(payload, bitLength);
    var n := (bits + 7) / 8;
    if n == 0 then []
    else payload[..n - 1] + [ClearLow(payload[n - 1], Pow2(UnusedBits(bits)))]
  }

  function ClearLow(b: byte, p: nat): (r: byte)
    requires p >= 1
    ensures r % p == 0
  {
    var r := b - b % p;
    assert r == b / p * p;
    MultipleMod(b / p, p);
    r
  }

  function EncodeBitString(payload: bytes, bitLength: int): bytes {
    [UnusedBits(SignificantBits(payload, bitLength))] + CanonicalBits(payload, bitLength)
  }

  // ------------------------------------------------------------------ floats

  function HalfEven(n: nat, unit: nat): nat
    requires unit > 0
  {
    var q, r := n / unit, n % unit;
    q + if 2 * r > unit || (2 * r == unit && q % 2 == 1) then 1 else 0
  }

  /** float32(f) for a double given by its bits: round half to even, overflow to infinity,
      NaNs made quiet. */
  function Narrow(bits: nat): nat {
    var sign := bits / 0x8000_0000_0000_0000 % 2 * 0x8000_0000;
    var e, f := bits / 0x10_0000_0000_0000 % 0x800, bits % 0x10_0000_0000_0000;
    if e == 0x7FF then
      sign + 0x7F80_0000 + (if f == 0 then 0 else f / 0x2000_0000 % 0x40_0000 + 0x40_0000)
    else
      var significand := f + if e > 0 then 0x10_0000_0000_0000 else 0;
      // The value is significand * 2^(exponent - 1075); a single has steps of 2^(step - 1075).
      var exponent := if e > 0 then e else 1;
      var step := if exponent + 29 >= 926 then exponent + 29 else 926;
      var unit := Pow2(step - exponent);
      var magnitude := (step - 926) * 0x80_0000 + HalfEven(significand, unit);
      sign + if magnitude >= 0x7F80_0000 then 0x7F80_0000 else magnitude
  }

  function SingleBits(f: Float): bytes {
    match f
    case Single(bits) => bits
    case Double(bits) => PutUint(Narrow(GetUint(bits)), 4)
  }

  function EncodeFloat(f: Float): bytes { [8] + SingleBits(f) }

  function DecodeFloat(data: bytes): Float {
    if |data| >= 5 && data[0] == 8 then Single(data[1..5])
    else if |data| >= 9 && data[0] == 11 then Double(data[1..9])
    else Single([0, 0, 0, 0])
  }

  // ----------------------------------------------------------------- encoder

  function EncodeBool(b: bool): bytes { if b then [0xFF] else [0] }

  /** Context-specific class, and the constructed bit on arrays and structures. The number
      of a Raw value is not confined to five bits. */
  function Tag(v: DataValue): byte {
    var n := TypeNumber(v);
    if n >= 0x80 then n else 0x80 + n + if v.Array? || v.Structure? then 0x20 else 0
  }

  function Contents(v: DataValue): bytes
    decreases v, 1
  {
    match v
    case Array(children) => EncodeSeq(children)
    case Structure(children) => EncodeSeq(children)
    case Boolean(b) => EncodeBool(b)
    case BitString(p, n) => EncodeBitString(p, n)
    case BooleanArray(p, n) => EncodeBitString(p, n)
    case OctetString(o) => o
    case BinaryTime(o) => o
    case Integer(i) => MinimalSigned(i)
    case Bcd(i) => MinimalSigned(i)
    case Unsigned(u) => MinimalUnsigned(u)
    case FloatingPoint(f) => EncodeFloat(f)
    case Real(f) => EncodeFloat(f)
    case VisibleString(t) => t
    case UtcTimeValue(t, q) => UtcTime.Encode(t, q)
    case Raw(_, o) => o
  }

  function EncodeValue(v: DataValue): bytes
    decreases v, 2
  {
    TLV(Tag(v), Contents(v))
  }

  function EncodeSeq(values: seq<DataValue>): bytes
    decreases values, 0
  {
    if values == [] then [] else EncodeValue(values[0]) + EncodeSeq(values[1..])
  }

  // ----------------------------------------------------------------- decoder

  /** One element of a Data sequence: its tag, its contents and the octets it takes. */
  function SplitElement(data: bytes): (r: Option<(byte, bytes, nat)>)
    requires data != []
    ensures r.Some? ==> |r.value.1| < r.value.2 <= |data|
  {
    match ParseLength(data, 1)
    case None => None
    case Some((len, off)) =>
      if off + len > |data| then None else Some((data[0], data[off..off + len], off + len))
  }

  function ParseSeq(data: bytes): Result<seq<DataValue>, Error>
    decreases |data|, 0
  {
    if data == [] then Ok([])
    else match SplitElement(data)
      case None => Err(BadBer)
      case Some((tag, contents, size)) =>
        var v :- ParseValue(tag, contents);
        var rest :- ParseSeq(data[size..]);
        Ok([v] + rest)
  }

  function ParseBits(val: bytes): Option<(bytes, nat)> {
    if val == [] || val[0] > 7 || (|val| == 1 && val[0] != 0) then None
    else if val[0] > 0 && val[|val| - 1] % Pow2(val[0]) != 0 then None
    else Some((val[1..], (|val| - 1) * 8 - val[0]))
  }

  function ParseValue(tag: byte, val: bytes): Result<DataValue, Error>
    decreases |val|, 1
  {
    var number := tag % 0x20;
    if number == 1 || number == 2 then
      if tag / 0x20 % 2 == 0 then Err(BadBer)
      else
        var children :- ParseSeq(val);
        Ok(if number == 1 then Array(children) else Structure(children))
    else ParsePrimitive(number, val)
  }

  function ParsePrimitive(number: byte, val: bytes): Result<DataValue, Error> {
    if number == 3 then Ok(Boolean(val != [] && val[0] != 0))
    else if number == 4 || number == 14 then
      match ParseBits(val)
      case None => Err(BadBer)
      case Some((p, n)) => Ok(if number == 4 then BitString(p, n) else BooleanArray(p, n))
    else if number == 9 then Ok(OctetString(val))
    else if number == 5 || number == 13 then
      if |val| > 8 then Err(BadBer)
      else Ok(if number == 5 then Integer(DecodeSigned(val)) else Bcd(DecodeSigned(val)))
    else if number == 6 then
      match DecodeUnsigned(val, 8)
      case None => Err(BadBer)
      case Some(u) => Ok(Unsigned(u))
    else if number == 7 then Ok(FloatingPoint(DecodeFloat(val)))
    else if number == 8 then Ok(Real(DecodeFloat(val)))
    else if number == 10 then Ok(VisibleString(val))
    else if number == 17 then
      var (t, q) := UtcTime.Decode(val);
      Ok(UtcTimeValue(t, q))
    else if number == 12 then Ok(BinaryTime(val))
    else Ok(Raw(0, val))
  }

  // ----------------------------------------------- the loops that compute both

  method EncodeDataSeq(values: seq<DataValue>) returns (buf: bytes)
    ensures buf == EncodeSeq(values)
    decreases values, 0
  {
    buf := [];
    for i := 0 to |values|
      invariant buf + EncodeSeq(values[i..]) == EncodeSeq(values)
    {
      var one := EncodeDataValue(values[i]);
      assert values[i..][1..] == values[i + 1..];
      buf := buf + one;
    }
  }

  method EncodeDataValue(v: DataValue) returns (r: bytes)
    ensures r == EncodeValue(v)
    decreases v, 2
  {
    var contents: bytes;
    match v {
      case Array(children) => contents := EncodeDataSeq(children);
      case Structure(children) => contents := EncodeDataSeq(children);
      case _ => contents := Contents(v);
    }
    r := TLV(Tag(v), contents);
  }

  function Prepend(out: seq<DataValue>, r: Result<seq<DataValue>, Error>)
    : Result<seq<DataValue>, Error>
  {
    match r
    case Ok(rest) => Ok(out + rest)
    case Err(e) => Err(e)
  }

  lemma PrependStep(out: seq<DataValue>, rest: bytes, size: nat, v: DataValue)
    requires rest != [] && SplitElement(rest).Some? && SplitElement(rest).value.2 == size
    requires ParseValue(SplitElement(rest).value.0, SplitElement(rest).value.1) == Ok(v)
    ensures Prepend(out, ParseSeq(rest)) == Prepend(out + [v], ParseSeq(rest[size..]))
  {
    var tail := ParseSeq(rest[size..]);
    if tail.Ok? {
      assert out + ([v] + tail.value) == out + [v] + tail.value;
    }
  }

  lemma PrependNothing(r: Result<seq<DataValue>, Error>)
    ensures Prepend([], r) == r
  {
    if r.Ok? { assert [] + r.value == r.value; }
  }

  lemma PrependEnd(out: seq<DataValue>, rest: bytes)
    requires rest == []
    ensures Prepend(out, ParseSeq(rest)) == Ok(out)
  {
    assert out + [] == out;
  }

  method DecodeDataSeq(data: bytes) returns (r: Result<seq<DataValue>, Error>)
    ensures r == ParseSeq(data)
    decreases |data|, 0
  {
    var out: seq<DataValue> := [];
    var offset := 0;
    hide SplitElement;
    PrependNothing(ParseSeq(data));
    assert data[0..] == data;
    while offset < |data|
      invariant 0 <= offset <= |data|
      invariant ParseSeq(data) == Prepend(out, ParseSeq(data[offset..]))
    {
      var rest := data[offset..];
      var element := SplitElement(rest);
      if element.None? {
        return Err(BadBer);
      }
      var (tag, val, size) := element.value;
      var dv := DecodeDataValue(tag, val);
      if dv.Err? {
        return Err(dv.error);
      }
      PrependStep(out, rest, size, dv.value);
      assert rest[size..] == data[offset + size..];
      out := out + [dv.value];
      offset := offset + size;
    }
    PrependEnd(out, data[offset..]);
    return Ok(out);
  }

  method DecodeDataValue(tag: byte, val: bytes) returns (r: Result<DataValue, Error>)
    ensures r == ParseValue(tag, val)
    decreases |val|, 1
  {
    var number := tag % 0x20;
    if number == 1 || number == 2 {
      if tag / 0x20 % 2 == 0 {
        return Err(BadBer);
      }
      var children := DecodeDataSeq(val);
      if children.Err? {
        return Err(children.error);
      }
      return Ok(if number == 1 then Array(children.value) else Structure(children.value));
    }
    return ParsePrimitive(number, val);
  }

  // -------------------------------------------------------------- round trip

  /** Values within the ranges of their Go types, whose instants fit the wire and whose raw
      type number does not alias one of the typed cases. */
  predicate WellFormed(v: DataValue) {
    match v
    case Array(children) => forall c | c in children :: WellFormed(c)
    case Structure(children) => forall c | c in children :: WellFormed(c)
    case Integer(i) => -0x8000_0000_0000_0000 <= i < 0x8000_0000_0000_0000
    case Bcd(i) => -0x8000_0000_0000_0000 <= i < 0x8000_0000_0000_0000
    case Unsigned(u) => u < 0x1_0000_0000_0000_0000
    case FloatingPoint(f) => |f.bits| == if f.Single? then 4 else 8
    case Real(f) => |f.bits| == if f.Single? then 4 else 8
    case UtcTimeValue(t, _) => UtcTime.InRange(t)
    case Raw(n, _) => n % 0x20 !in TYPED
    case _ => true
  }

  /** What a value becomes on the wire: bit strings trimmed to whole octets with cleared
      padding, instants quantised, doubles narrowed, raw type numbers dropped. */
  function Canonical(v: DataValue): DataValue {
    match v
    case Array(children) => Array(CanonicalSeq(children))
    case Structure(children) => Structure(CanonicalSeq(children))
    case BitString(p, n) => BitString(CanonicalBits(p, n), SignificantBits(p, n))
    case BooleanArray(p, n) => BooleanArray(CanonicalBits(p, n), SignificantBits(p, n))
    case FloatingPoint(f) => FloatingPoint(Single(SingleBits(f)))
    case Real(f) => Real(Single(SingleBits(f)))
    case UtcTimeValue(t, q) =>
      UtcTimeValue(UtcTime.Quantise(t), q.(accuracy := q.accuracy % 0x20))
    case Raw(_, o) => Raw(0, o)
    case _ => v
  }

  function CanonicalSeq(values: seq<DataValue>): (r: seq<DataValue>)
    ensures |r| == |values|
    decreases values, 0
  {
    if values == [] then [] else [Canonical(values[0])] + CanonicalSeq(values[1..])
  }

  lemma BitsRoundTrip(payload: bytes, bitLength: int)
    ensures ParseBits(EncodeBitString(payload, bitLength))
         == Some((CanonicalBits(payload, bitLength), SignificantBits(payload, bitLength)))
  {
    var val := EncodeBitString(payload, bitLength);
    var c := CanonicalBits(payload, bitLength);
    assert val[1..] == c;
    if c != [] {
      assert val[|val| - 1] == c[|c| - 1];
    }
  }

  /** The decoder takes just the octets the encoder makes: re-encoding a decoded bit string gives
      them back. */
  lemma BitsReencode(val: bytes)
    ensures ParseBits(val).Some? <==> exists payload, bits :: val == EncodeBitString(payload, bits)
    ensures ParseBits(val).Some? ==>
      var (payload, bits) := ParseBits(val).value; EncodeBitString(payload, bits) == val
  {
    if payload, bits :| val == EncodeBitString(payload, bits) { BitsRoundTrip(payload, bits); }
    if ParseBits(val).Some? {
      var (payload, bits) := ParseBits(val).value;
      AlreadyCanonical(val, payload, bits);
    }
    hide EncodeBitString, CanonicalBits, SignificantBits;
  }

  lemma AlreadyCanonical(val: bytes, payload: bytes, bits: nat)
    requires ParseBits(val) == Some((payload, bits))
    ensures EncodeBitString(payload, bits) == val
  {
    assert SignificantBits(payload, bits) == bits;
    assert UnusedBits(bits) == val[0];
    if payload != [] {
      var last := payload[|payload| - 1];
      assert last == val[|val| - 1];
      Cleared(last, val[0]);
      assert payload == payload[..|payload| - 1] + [last];
    }
    assert val == [val[0]] + payload;
  }

  lemma Cleared(b: byte, unused: nat)
    requires unused == 0 || b % Pow2(unused) == 0
    ensures ClearLow(b, Pow2(unused)) == b
  {
    if unused == 0 { assert Pow2(0) == 1; }
  }

  lemma FloatRoundTrip(f: Float)
    requires |f.bits| == if f.Single? then 4 else 8
    ensures DecodeFloat(EncodeFloat(f)) == Single(SingleBits(f))
  {
    assert EncodeFloat(f)[1..5] == SingleBits(f);
  }

  lemma IntegerRoundTrip(i: int)
    requires -0x8000_0000_0000_0000 <= i < 0x8000_0000_0000_0000
    ensures |MinimalSigned(i)| <= 8 && DecodeSigned(MinimalSigned(i)) == i
  {
    SignedRoundTrip(i);
    Pow256Values();
    assert Pow256(7) == 0x100_0000_0000_0000;
    MinimalSignedSize(i, 8);
  }

  /** A tag tells its value's type number, and is constructed where the decoder insists. */
  lemma TagNumber(v: DataValue)
    requires WellFormed(v)
    ensures Tag(v) % 0x20 == TypeNumber(v) % 0x20
    ensures v.Array? || v.Structure? ==> Tag(v) / 0x20 % 2 == 1
  {
  }

  lemma PrimitiveRoundTrip(v: DataValue)
    requires WellFormed(v) && !v.Array? && !v.Structure?
    ensures ParsePrimitive(TypeNumber(v) % 0x20, Contents(v)) == Ok(Canonical(v))
  {
    hide EncodeBitString, ParseBits, CanonicalBits, SignificantBits, EncodeFloat, DecodeFloat;
    hide MinimalSigned, DecodeSigned, MinimalUnsigned, DecodeUnsigned;
    hide UtcTime.Encode, UtcTime.Decode, UtcTime.Quantise;
    match v {
      case BitString(p, n) => BitsRoundTrip(p, n);
      case BooleanArray(p, n) => BitsRoundTrip(p, n);
      case Integer(i) => IntegerRoundTrip(i);
      case Bcd(i) => IntegerRoundTrip(i);
      case Unsigned(u) =>
        Pow256Values();
        UnsignedBijection(MinimalUnsigned(u), 8, u);
      case FloatingPoint(f) => FloatRoundTrip(f);
      case Real(f) => FloatRoundTrip(f);
      case UtcTimeValue(t, q) => UtcTime.RoundTrip(t, q);
      case _ =>
    }
  }

  lemma PrimitiveParses(v: DataValue)
    requires WellFormed(v) && !v.Array? && !v.Structure?
    ensures ParseValue(Tag(v), Contents(v)) == Ok(Canonical(v))
  {
    TagNumber(v);
    PrimitiveRoundTrip(v);
    assert TypeNumber(v) % 0x20 !in {1, 2};
    hide ParsePrimitive, Canonical, Contents, WellFormed, TypeNumber;
  }

  lemma ContainerParses(v: DataValue)
    requires v.Array? || v.Structure?
    requires ParseSeq(Contents(v)) == Ok(CanonicalSeq(v.children))
    ensures ParseValue(Tag(v), Contents(v)) == Ok(Canonical(v))
  {
    hide ParsePrimitive, ParseSeq, CanonicalSeq;
    assert Tag(v) == if v.Array? then 0xA1 else 0xA2;
  }

  lemma {:induction false} ValueRoundTrip(v: DataValue)
    requires WellFormed(v) && |Contents(v)| < 0x100_0000
    ensures ParseValue(Tag(v), Contents(v)) == Ok(Canonical(v))
    decreases v, 1
  {
    if v.Array? || v.Structure? {
      assert Contents(v) == EncodeSeq(v.children) && forall c | c in v.children :: WellFormed(c);
      hide *;
      SeqRoundTrip(v.children);
      ContainerParses(v);
    } else {
      hide *;
      PrimitiveParses(v);
    }
  }

  /** Decoding any encoded sequence of arbitrarily nested values gives back the values. */
  lemma {:induction false} SeqRoundTrip(values: seq<DataValue>)
    requires forall v | v in values :: WellFormed(v)
    requires |EncodeSeq(values)| < 0x100_0000
    ensures ParseSeq(EncodeSeq(values)) == Ok(CanonicalSeq(values))
    decreases values, 0
  {
    if values != [] {
      var v, rest := values[0], values[1..];
      var one, data := EncodeValue(v), EncodeSeq(values);
      TlvSize(Tag(v), Contents(v));
      ElementRoundTrip(v, EncodeSeq(rest));
      assert data[|one|..] == EncodeSeq(rest);
      ValueRoundTrip(v);
      SeqRoundTrip(rest);
    }
  }

  lemma ElementRoundTrip(v: DataValue, rest: bytes)
    requires |Contents(v)| < 0x100_0000
    ensures SplitElement(EncodeValue(v) + rest)
         == Some((Tag(v), Contents(v), |EncodeValue(v)|))
  {
    var data := EncodeValue(v) + rest;
    assert data[0..|EncodeValue(v)|] == EncodeValue(v);
    TlvAt(data, 0, Tag(v), Contents(v));
  }
}
