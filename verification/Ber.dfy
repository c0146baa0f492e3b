/** The BER subset that the GOOSE and SV codecs use (ITU-T X.690): definite lengths,
    tag-length-value elements, and INTEGER contents octets. */
module Ber {
  import opened Wrappers
  import opened Bytes

  // ---------------------------------------------------------------- lengths

  /** A definite length. Values of 2^24 and above lose their high octets. */
  function EncodeLength(l: nat): (r: bytes)
    ensures 1 <= |r| <= 4
  {
    if l < 0x80 then [l]
    else if l <= 0xFF then [0x81] + PutUint(l, 1)
    else if l <= 0xFFFF then [0x82] + PutUint(l, 2)
    else [0x83] + PutUint(l, 3)
  }

  /** Decodes a length at `offset`; None is the BER error. The result is the length and
      the offset of the first octet after it. */
  function ParseLength(data: bytes, offset: nat): (r: Option<(nat, nat)>)
    ensures r.Some? ==> offset < r.value.1 <= |data|
  {
    if offset >= |data| then None
    else
      var b := data[offset];
      if b < 0x80 then Some((b, offset + 1))
      else
        var n := b % 0x80;
        if n == 0 || n > 4 || offset + 1 + n > |data| then None
        else Some((GetUint(data[offset + 1..offset + 1 + n]), offset + 1 + n))
  }

  method BerLength(data: bytes, offset: nat) returns (r: Option<(nat, nat)>)
    ensures r == ParseLength(data, offset)
  {
    if offset >= |data| {
      return None;
    }
    var b := data[offset];
    var off := offset + 1;
    if b < 0x80 {
      return Some((b, off));
    }
    var n := b % 0x80;
    if n == 0 || n > 4 || off + n > |data| {
      return None;
    }
    var l: nat := 0;
    for i := 0 to n
      invariant off == offset + 1 + i
      invariant l == GetUint(data[offset + 1..off])
    {
      assert data[offset + 1..off + 1] == data[offset + 1..off] + [data[off]];
      l := l * 256 + data[off];
      off := off + 1;
    }
    return Some((l, off));
  }

  /** data holds `part` at `offset`. */
  predicate At(data: bytes, offset: nat, part: bytes) {
    offset + |part| <= |data| && data[offset..offset + |part|] == part
  }

  lemma AtSplit(data: bytes, offset: nat, a: bytes, b: bytes)
    requires At(data, offset, a + b)
    ensures At(data, offset, a) && At(data, offset + |a|, b)
  {
    var d := data[offset..offset + |a + b|];
    assert data[offset..offset + |a|] == d[..|a|] == a;
    assert data[offset + |a|..offset + |a| + |b|] == d[|a|..] == b;
  }

  /** X.690 section 8.1.3: a written length reads back as itself, and ends where it ends. */
  lemma LengthRoundTrip(data: bytes, offset: nat, l: nat)
    requires l < 0x100_0000
    requires At(data, offset, EncodeLength(l))
    ensures ParseLength(data, offset) == Some((l, offset + |EncodeLength(l)|))
  {
    hide PutUint, GetUint;
    var e := EncodeLength(l);
    assert data[offset] == data[offset..offset + |e|][0] == e[0];
    if l >= 0x80 {
      assert data[offset + 1..offset + |e|] == data[offset..offset + |e|][1..] == e[1..];
      FixedWidth(l);
    }
  }

  // ------------------------------------------------------------------- TLVs

  function TLV(tag: byte, value: bytes): bytes {
    [tag] + EncodeLength(|value|) + value
  }

  lemma TlvSize(tag: byte, value: bytes)
    ensures |TLV(tag, value)| == 1 + |EncodeLength(|value|)| + |value|
  {
  }

  /** What a decoder that reads tag, length and value in this order finds. */
  lemma TlvAt(data: bytes, offset: nat, tag: byte, value: bytes)
    requires |value| < 0x100_0000
    requires At(data, offset, TLV(tag, value))
    ensures offset < |data| && data[offset] == tag
    ensures var off := offset + 1 + |EncodeLength(|value|)|;
            && ParseLength(data, offset + 1) == Some((|value|, off))
            && off + |value| == offset + |TLV(tag, value)|
            && At(data, off, value)
  {
    hide EncodeLength, ParseLength, At;
    var e := EncodeLength(|value|);
    AtSplit(data, offset, [tag] + e, value);
    AtSplit(data, offset, [tag], e);
    AtHead(data, offset, tag);
    LengthRoundTrip(data, offset + 1, |value|);
    TlvSize(tag, value);
  }

  lemma AtHead(data: bytes, offset: nat, tag: byte)
    requires At(data, offset, [tag])
    ensures offset < |data| && data[offset] == tag
  {
    assert data[offset] == data[offset..offset + 1][0];
  }

  /** An element: its tag and contents octets. */
  type Field = (byte, bytes)

  /** The fields the octets from offset to end consist of, if they do. */
  function CutFields(frame: bytes, offset: nat, end: nat): Option<seq<Field>>
    requires end <= |frame|
    decreases end - offset
  {
    if offset >= end then Some([])
    else match ParseLength(frame, offset + 1)
      case None => None
      case Some((len, off)) =>
        if off + len > end then None
        else match CutFields(frame, off + len, end)
          case None => None
          case Some(rest) => Some([(frame[offset], frame[off..off + len])] + rest)
  }

  function EncodeFields(fs: seq<Field>): bytes {
    if fs == [] then [] else TLV(fs[0].0, fs[0].1) + EncodeFields(fs[1..])
  }

  lemma {:induction false} FieldLengths(fs: seq<Field>)
    ensures forall f: Field | f in fs :: |f.1| <= |EncodeFields(fs)|
  {
    if fs != [] {
      FieldLengths(fs[1..]);
      TlvSize(fs[0].0, fs[0].1);
    }
  }

  predicate HasTag(fs: seq<Field>, tag: byte) { exists f | f in fs :: f.0 == tag }

  // --------------------------------------------------------------- INTEGERs

  /** The shortest two's complement contents octets of a non-negative integer. */
  function MinimalUnsigned(v: nat): (r: bytes)
    ensures r != []
  {
    if v < 128 then [v] else MinimalUnsigned(v / 256) + [v % 256]
  }

  /** The shortest two's complement contents octets of an integer. */
  function MinimalSigned(v: int): (r: bytes)
    ensures r != []
    decreases if v < 0 then -v else v
  {
    if -128 <= v < 128 then [v % 256] else MinimalSigned(v / 256) + [v % 256]
  }

  /** Two's complement value of contents octets; zero for none. */
  function DecodeSigned(b: bytes): int {
    if b == [] then 0
    else if b[0] >= 128 then GetUint(b) - Pow256(|b|) else GetUint(b)
  }

  /** No leading octet is redundant (X.690 section 8.3.2) and the sign bit is clear. */
  predicate MinimalNonNegative(b: bytes) {
    b != [] && b[0] < 128 && (|b| > 1 && b[0] == 0 ==> b[1] >= 128)
  }

  function DecodeUnsigned(b: bytes, magnitudeBytes: nat): Option<nat>
    requires magnitudeBytes >= 1
  {
    if b == [] || |b| > magnitudeBytes + 1 then None
    else if |b| == magnitudeBytes + 1 then
      if b[0] != 0 || b[1] < 128 then None else Some(GetUint(b[1..]))
    else if b[0] >= 128 then None
    else if |b| > 1 && b[0] == 0 && b[1] < 128 then None
    else if b[0] == 0 && |b| > 1 then Some(GetUint(b[1..]))
    else Some(GetUint(b))
  }

  method DecodeBERUnsigned(input: bytes, magnitudeBytes: nat) returns (r: Option<nat>)
    requires magnitudeBytes >= 1
    ensures r == DecodeUnsigned(input, magnitudeBytes)
  {
    var data := input;
    if |data| == 0 || |data| > magnitudeBytes + 1 {
      return None;
    }
    if |data| == magnitudeBytes + 1 {
      if data[0] != 0 || data[1] < 128 {
        return None;
      }
      data := data[1..];
    } else {
      if data[0] >= 128 {
        return None;
      }
      if |data| > 1 && data[0] == 0 && data[1] < 128 {
        return None;
      }
      if data[0] == 0 && |data| > 1 {
        data := data[1..];
      }
    }
    var value: nat := 0;
    for i := 0 to |data|
      invariant value == GetUint(data[..i])
    {
      assert data[..i + 1][..i] == data[..i];
      value := value * 256 + data[i];
    }
    assert data[..|data|] == data;
    return Some(value);
  }

  method BerInt(data: bytes) returns (v: int)
    ensures v == DecodeSigned(data)
  {
    if |data| == 0 {
      return 0;
    }
    v := if data[0] >= 128 then -1 else 0;
    for i := 0 to |data|
      invariant v == GetUint(data[..i]) - if data[0] >= 128 then Pow256(i) else 0
    {
      assert data[..i + 1][..i] == data[..i];
      v := v * 256 + data[i];
    }
    assert data[..|data|] == data;
  }

  /** The eight-octet buffer with its leading zero octets skipped, and a sign octet where
      the magnitude's top bit is set. */
  method BerEncodeUint64(v: nat) returns (r: bytes)
    requires v < 0x1_0000_0000_0000_0000
    ensures r == MinimalUnsigned(v)
  {
    if v == 0 {
      return [0];
    }
    Pow256Values();
    hide *;
    var buf := PutUint(v, 8);
    var start := 0;
    assert buf[0..] == buf;
    while start < |buf| - 1 && buf[start] == 0
      invariant 0 <= start <= 7
      invariant v < Pow256(8 - start) && buf[start..] == PutUint(v, 8 - start)
    {
      ZeroHead(v, 8 - start);
      assert buf[start + 1..] == buf[start..][1..];
      start := start + 1;
    }
    KeptForm(v, 8 - start);
    var magnitude := buf[start..];
    if magnitude[0] >= 128 {
      return [0] + magnitude;
    }
    assert [] + magnitude == magnitude;
    return magnitude;
  }

  /** Dropping a leading zero octet. */
  lemma ZeroHead(v: nat, w: nat)
    requires 1 < w && v < Pow256(w) && PutUint(v, w)[0] == 0
    ensures v < Pow256(w - 1) && PutUint(v, w)[1..] == PutUint(v, w - 1)
  {
    PutUintHead(v, w);
    DivZero(v, Pow256(w - 1));
    hide *;
  }

  lemma DivZero(v: nat, p: nat)
    requires p > 0
    ensures v / p == 0 <==> v < p
    ensures v < p ==> v % p == v
  {
  }

  lemma TopBit(v: nat, w: nat)
    requires w > 0 && v < Pow256(w)
    ensures PutUint(v, w)[0] >= 128 <==> v >= 128 * Pow256(w - 1)
  {
    PutUintHead(v, w);
    AtLeast(v, Pow256(w - 1), 128);
  }

  lemma AtLeast(v: nat, p: nat, k: nat)
    requires p > 0
    ensures v / p >= k <==> v >= k * p
  {
    var q := v / p;
    assert v == q * p + v % p;
    MulMono(k, q, p);
    MulMono(q + 1, k, p);
    assert (q + 1) * p == q * p + p;
  }

  lemma MulMono(a: int, b: int, p: nat)
    ensures a <= b ==> a * p <= b * p
  {
  }

  /** The minimal form is the fixed-width form of the width the value needs, with a zero
      octet in front when its top bit is set. */
  lemma {:induction false} MinimalFromFixed(v: nat, w: nat)
    requires 1 <= w && v < Pow256(w) && (w == 1 || v >= Pow256(w - 1))
    ensures MinimalUnsigned(v)
         == (if v >= 128 * Pow256(w - 1) then [0] else []) + PutUint(v, w)
  {
    if w == 1 {
      assert PutUint(v, 1) == [v];
    } else {
      var p := Pow256(w - 2);
      assert Pow256(w - 1) == 256 * p;
      assert v / 256 < Pow256(w - 1);
      assert w == 2 || v / 256 >= p;
      assert v / 256 >= 128 * p <==> v >= 128 * Pow256(w - 1);
      MinimalFromFixed(v / 256, w - 1);
    }
  }

  lemma {:induction false} MinimalUnsignedShape(v: nat)
    ensures MinimalNonNegative(MinimalUnsigned(v)) && GetUint(MinimalUnsigned(v)) == v
    ensures |MinimalUnsigned(v)| > 1 && MinimalUnsigned(v)[0] != 0 ==> v >= 256
  {
    if v >= 128 {
      MinimalUnsignedShape(v / 256);
      var r := MinimalUnsigned(v);
      assert r[..|r| - 1] == MinimalUnsigned(v / 256);
      if v / 256 < 128 {
        assert MinimalUnsigned(v / 256) == [v / 256];
      }
    }
  }

  lemma {:induction false} MinimalUnsignedUnique(b: bytes)
    requires MinimalNonNegative(b)
    ensures MinimalUnsigned(GetUint(b)) == b
  {
    var init, x := b[..|b| - 1], b[|b| - 1];
    assert b == init + [x] && GetUint(b) == 256 * GetUint(init) + x;
    if |b| == 1 {
      assert GetUint(init) == 0;
    } else {
      MinimalLong(b);
      MinimalUnsignedUnique(init);
      hide GetUint;
    }
  }

  /** More than one octet means more than seven bits. */
  lemma MinimalLong(b: bytes)
    requires MinimalNonNegative(b) && |b| >= 2
    ensures GetUint(b) >= 128
  {
    GetUintHead(b);
    GetUintHead(b[1..]);
    var p := Pow256(|b| - 2);
    assert Pow256(|b| - 1) == 256 * p;
    MulMono(1, b[0], Pow256(|b| - 1));
    MulMono(128, b[1], p);
  }

  /** The length of a minimal encoding is governed by the value's magnitude. */
  lemma {:induction false} MinimalUnsignedSize(v: nat, m: nat)
    requires m >= 1
    ensures |MinimalUnsigned(v)| <= m <==> v < 128 * Pow256(m - 1)
  {
    if v >= 128 && m > 1 {
      MinimalUnsignedSize(v / 256, m - 1);
    }
  }

  lemma UnsignedRoundTrip(m: nat, v: nat)
    requires m >= 1 && v < Pow256(m)
    ensures DecodeUnsigned(MinimalUnsigned(v), m) == Some(v)
  {
    var b := MinimalUnsigned(v);
    MinimalUnsignedShape(v);
    MinimalUnsignedSize(v, m + 1);
    if b[0] == 0 {
      LeadingZero(b);
    } else {
      HighMagnitude(b);
    }
  }

  lemma UnsignedMinimal(b: bytes, m: nat, v: nat)
    requires m >= 1 && DecodeUnsigned(b, m) == Some(v)
    ensures v < Pow256(m) && b == MinimalUnsigned(v)
  {
    assert MinimalNonNegative(b);
    MinimalUnsignedUnique(b);
    if b[0] == 0 {
      LeadingZero(b);
      GetBound(b[1..]);
      PowMonotone(|b| - 1, m);
    } else {
      GetBound(b);
      PowMonotone(|b|, m);
    }
  }

  /** X.690 section 8.3: decoding accepts exactly one octet string for each value that fits the
      magnitude, its minimal encoding, and nothing else. */
  lemma UnsignedBijection(b: bytes, m: nat, v: nat)
    requires m >= 1
    ensures DecodeUnsigned(b, m) == Some(v) <==> v < Pow256(m) && b == MinimalUnsigned(v)
  {
    hide *;
    if v < Pow256(m) && b == MinimalUnsigned(v) { UnsignedRoundTrip(m, v); }
    if DecodeUnsigned(b, m) == Some(v) { UnsignedMinimal(b, m, v); }
  }

  lemma LeadingZero(b: bytes)
    requires b != [] && b[0] == 0
    ensures GetUint(b) == GetUint(b[1..])
  {
    GetUintHead(b);
  }

  lemma HighMagnitude(b: bytes)
    requires |b| >= 1 && b[0] != 0
    ensures GetUint(b) >= Pow256(|b| - 1)
  {
    GetUintHead(b);
    MulMono(1, b[0], Pow256(|b| - 1));
    hide *;
  }

  lemma {:induction false} PowMonotone(a: nat, b: nat)
    requires a <= b
    ensures Pow256(a) <= Pow256(b)
    decreases b - a
  {
    if a < b { PowMonotone(a + 1, b); }
  }

  lemma {:induction false} SignedRoundTrip(v: int)
    ensures DecodeSigned(MinimalSigned(v)) == v
    decreases if v < 0 then -v else v
  {
    var r := MinimalSigned(v);
    if -128 <= v < 128 {
      assert GetUint(r[..0]) == 0 && Pow256(1) == 256;
    } else {
      SignedRoundTrip(v / 256);
      assert r[..|r| - 1] == MinimalSigned(v / 256);
    }
  }

  lemma {:induction false} MinimalSignedSize(v: int, m: nat)
    requires m >= 1
    ensures |MinimalSigned(v)| <= m <==> -128 * Pow256(m - 1) <= v < 128 * Pow256(m - 1)
    decreases if v < 0 then -v else v
  {
    if !(-128 <= v < 128) && m > 1 {
      MinimalSignedSize(v / 256, m - 1);
    }
  }

  lemma {:induction false} NonNegativeForms(v: nat)
    ensures MinimalSigned(v) == MinimalUnsigned(v)
  {
    if v >= 128 { NonNegativeForms(v / 256); }
  }

  predicate MinimalNegative(b: bytes) {
    b != [] && b[0] >= 128 && (|b| > 1 && b[0] == 0xFF ==> b[1] < 128)
  }

  lemma SignedSnoc(init: bytes, x: byte)
    requires init != []
    ensures DecodeSigned(init + [x]) == 256 * DecodeSigned(init) + x
  {
    var b := init + [x];
    assert b[..|b| - 1] == init;
  }

  lemma {:induction false} MinimalNegativeUnique(b: bytes)
    requires MinimalNegative(b)
    ensures MinimalSigned(DecodeSigned(b)) == b
  {
    if |b| == 1 {
      assert GetUint(b[..0]) == 0 && Pow256(1) == 256;
    } else {
      var init, x := b[..|b| - 1], b[|b| - 1];
      assert b == init + [x];
      SignedSnoc(init, x);
      MinimalNegativeLong(b);
      MinimalNegativeUnique(init);
    }
  }

  lemma MinimalNegativeLong(b: bytes)
    requires MinimalNegative(b) && |b| >= 2
    ensures DecodeSigned(b) < -128
  {
    GetUintHead(b);
    GetUintHead(b[1..]);
    GetBound(b[2..]);
    assert b[1..][1..] == b[2..];
    var p := Pow256(|b| - 2);
    assert Pow256(|b| - 1) == 256 * p && Pow256(|b|) == 65536 * p;
    MulMono(b[0], if b[0] == 255 then 255 else 254, 256 * p);
    MulMono(b[1], if b[0] == 255 then 127 else 255, p);
  }

  /** The first octet of a positive value's eight that has to be kept. */
  method SkipZeros(v: nat, buf: bytes) returns (start: nat)
    requires 0 < v < Pow256(8) && v < 128 * Pow256(7) && buf == PutUint(v, 8)
    ensures start < 8 && buf[start..] == MinimalSigned(v)
  {
    hide *;
    start := 0;
    TopBit(v, 8);
    assert buf[0..] == buf;
    while start < 7 && buf[start] == 0
      invariant 0 <= start <= 7 && (start > 0 ==> buf[start - 1] == 0)
      invariant v < Pow256(8 - start) && buf[start..] == PutUint(v, 8 - start)
    {
      ZeroHead(v, 8 - start);
      assert buf[start + 1..] == buf[start..][1..];
      start := start + 1;
    }
    KeptForm(v, 8 - start);
    assert buf[start] == buf[start..][0];
    if buf[start] >= 128 {
      start := start - 1;
      assert buf[start..] == [0] + buf[start + 1..];
    } else {
      assert [] + buf[start..] == buf[start..];
    }
  }

  /** A fixed-width form that starts with a significant octet, or has only one. */
  lemma KeptForm(v: nat, w: nat)
    requires 1 <= w && v < Pow256(w) && (w == 1 || PutUint(v, w)[0] != 0)
    ensures MinimalSigned(v) == MinimalUnsigned(v)
         == (if PutUint(v, w)[0] >= 128 then [0] else []) + PutUint(v, w)
  {
    PutUintHead(v, w);
    DivZero(v, Pow256(w - 1));
    MinimalFromFixed(v, w);
    TopBit(v, w);
    NonNegativeForms(v);
  }

  method SkipOnes(v: int, buf: bytes) returns (start: nat)
    requires |buf| == 8 && buf[0] >= 128 && DecodeSigned(buf) == v
    ensures start < 8 && buf[start..] == MinimalSigned(v)
  {
    start := 0;
    assert buf[0..] == buf;
    while start < 7 && buf[start] == 0xFF && buf[start + 1] >= 128
      invariant 0 <= start <= 7 && buf[start] >= 128
      invariant DecodeSigned(buf[start..]) == v
    {
      GetUintHead(buf[start..]);
      assert buf[start..][1..] == buf[start + 1..];
      start := start + 1;
    }
    MinimalNegativeUnique(buf[start..]);
  }

  /** The eight-octet two's complement buffer without its redundant sign octets. */
  method BerEncodeInt(v: int) returns (r: bytes)
    requires -0x8000_0000_0000_0000 <= v < 0x8000_0000_0000_0000
    ensures r == MinimalSigned(v)
  {
    if v == 0 {
      return [0];
    }
    Pow256Values();
    assert Pow256(7) == 0x100_0000_0000_0000;
    var n := Wrapped(v, Pow256(8));
    WrappedIs(v, Pow256(8));
    var buf := PutUint(n, 8);
    var start: nat;
    if v > 0 {
      start := SkipZeros(v, buf);
    } else {
      TopBit(n, 8);
      GetPut(n, 8);
      start := SkipOnes(v, buf);
    }
    return buf[start..];
  }
}
