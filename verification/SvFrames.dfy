/** The Sampled Values encoder and decoder as the loops and appends they are: the encoder
    writes every length before the contents it announces. */
module SvFrames {
  import opened Wrappers
  import opened Bytes
  import opened Ber
  import opened SvCodec
  import Ethernet
  import UtcTime

  // --------------------------------------------------------- predicted sizes

  function BerLengthSize(length: nat): nat {
    if length < 0x80 then 1 else if length <= 0xFF then 2 else if length <= 0xFFFF then 3 else 4
  }

  function BerTlvSize(valueLen: nat): nat { 1 + BerLengthSize(valueLen) + valueLen }

  function EncodedAsduInnerLen(b: Body): nat {
    BerTlvSize(|b.svId|)
    + (if b.datSet != [] then BerTlvSize(|b.datSet|) else 0)
    + BerTlvSize(2)
    + BerTlvSize(4)
    + (if b.refrTm != UtcTime.ZERO then BerTlvSize(8) else 0)
    + BerTlvSize(1)
    + (if b.smpRate > 0 then BerTlvSize(2) else 0)
    + BerTlvSize(SEQ_DATA_LEN)
    + (if b.smpMod != 0 then BerTlvSize(2) else 0)
  }

  function EncodedAsduLen(b: Body): nat { BerTlvSize(EncodedAsduInnerLen(b)) }

  function SeqAsduLen(asdus: seq<Asdu>): nat {
    if asdus == [] then 0 else SeqAsduLen(asdus[..|asdus| - 1]) + EncodedAsduLen(asdus[|asdus| - 1].body)
  }

  function SavInnerLen(asdus: seq<Asdu>): nat { BerTlvSize(UintSize(|asdus|)) + BerTlvSize(SeqAsduLen(asdus)) }

  lemma TlvPredicted(tag: byte, value: bytes)
    ensures |TLV(tag, value)| == BerTlvSize(|value|)
  {
  }

  function FieldLen(b: Body, n: nat): nat
    requires n < FIELD_COUNT
  {
    match n
    case 0 => BerTlvSize(|b.svId|)
    case 1 => if b.datSet != [] then BerTlvSize(|b.datSet|) else 0
    case 2 => BerTlvSize(2)
    case 3 => BerTlvSize(4)
    case 4 => if b.refrTm != UtcTime.ZERO then BerTlvSize(8) else 0
    case 5 => BerTlvSize(1)
    case 6 => if b.smpRate > 0 then BerTlvSize(2) else 0
    case 7 => BerTlvSize(SEQ_DATA_LEN)
    case 8 => if b.smpMod != 0 then BerTlvSize(2) else 0
  }

  lemma FieldPredicted(b: Body, n: nat)
    requires Sized(b) && n < FIELD_COUNT
    ensures |Contents(b, n)| == FieldLen(b, n) + |Contents(b, n + 1)|
    ensures |Contents(b, FIELD_COUNT)| == 0
  {
    ContentsSplit(b, n);
    TlvPredicted(TagAt(n), ContentsAt(b, n));
    hide Contents, TLV, BerTlvSize, Samples, PutUint, UtcTime.Encode;
  }

  /** The length predicted for an ASDU's contents is the length they have. */
  lemma InnerPredicted(b: Body)
    requires Sized(b)
    ensures |Contents(b, 0)| == EncodedAsduInnerLen(b)
    ensures EncodeAsdu(b) == TLV(0x30, Contents(b, 0)) && |EncodeAsdu(b)| == EncodedAsduLen(b)
  {
    hide *;
    InnerLenIs(b);
    FieldPredicted(b, 0);
    FieldPredicted(b, 1);
    FieldPredicted(b, 2);
    FieldPredicted(b, 3);
    FieldPredicted(b, 4);
    FieldPredicted(b, 5);
    FieldPredicted(b, 6);
    FieldPredicted(b, 7);
    FieldPredicted(b, 8);
    AsduTlv(b);
    LenIs(b);
    TlvPredicted(0x30, Contents(b, 0));
  }

  lemma LenIs(b: Body)
    ensures EncodedAsduLen(b) == BerTlvSize(EncodedAsduInnerLen(b))
  {
  }

  lemma InnerLenIs(b: Body)
    ensures EncodedAsduInnerLen(b) == FieldLen(b, 0) + FieldLen(b, 1) + FieldLen(b, 2) + FieldLen(b, 3)
      + FieldLen(b, 4) + FieldLen(b, 5) + FieldLen(b, 6) + FieldLen(b, 7) + FieldLen(b, 8)
    ensures FIELD_COUNT == 9
  {
    hide BerTlvSize;
  }

  lemma {:induction false} EncodeLast(asdus: seq<Asdu>)
    requires AllTyped(asdus) && asdus != []
    ensures AllTyped(asdus[..|asdus| - 1]) && Typed(asdus[|asdus| - 1].body)
    ensures EncodeAsdus(asdus) == EncodeAsdus(asdus[..|asdus| - 1]) + EncodeAsdu(asdus[|asdus| - 1].body)
  {
    hide EncodeAsdu, Typed;
    var n := |asdus| - 1;
    assert asdus == asdus[..n] + [asdus[n]];
    if n == 0 {
      assert EncodeAsdus(asdus[1..]) == [];
    } else {
      assert asdus == [asdus[0]] + asdus[1..];
      assert asdus[1..][|asdus[1..]| - 1] == asdus[n] && asdus[1..][..n - 1] == asdus[..n][1..];
      EncodeLast(asdus[1..]);
    }
  }

  /** Every length the encoder predicts, at every level of nesting. */
  lemma {:induction false} ListPredicted(asdus: seq<Asdu>)
    requires AllTyped(asdus)
    ensures |EncodeAsdus(asdus)| == SeqAsduLen(asdus)
  {
    if asdus != [] {
      EncodeLast(asdus);
      InnerPredicted(asdus[|asdus| - 1].body);
      hide EncodeAsdus, EncodeAsdu, EncodedAsduLen, Typed, AllTyped;
      ListPredicted(asdus[..|asdus| - 1]);
    }
  }

  lemma SavPredicted(asdus: seq<Asdu>)
    requires AllTyped(asdus)
    ensures |SavPdu(asdus)| == BerTlvSize(SavInnerLen(asdus))
    ensures SavPdu(asdus) == TLV(0x60, CountTlv(|asdus|) + TLV(0xA2, EncodeAsdus(asdus)))
    ensures |CountTlv(|asdus|) + TLV(0xA2, EncodeAsdus(asdus))| == SavInnerLen(asdus)
    ensures |EncodeAsdus(asdus)| == SeqAsduLen(asdus)
  {
    ListPredicted(asdus);
    hide EncodeAsdus, SeqAsduLen, UintSize, BerTlvSize, PutUint, AllTyped, TLV;
    TlvPredicted(0x80, PutUint(|asdus|, UintSize(|asdus|)));
    TlvPredicted(0xA2, EncodeAsdus(asdus));
    TlvPredicted(0x60, CountTlv(|asdus|) + TLV(0xA2, EncodeAsdus(asdus)));
  }

  // ------------------------------------------------------------- the encoder

  method AppendTlv(dst: bytes, tag: byte, value: bytes) returns (r: bytes)
    ensures r == dst + TLV(tag, value)
  {
    hide EncodeLength;
    r := dst + [tag];
    r := r + EncodeLength(|value|);
    r := r + value;
  }

  method AppendSamples(dst: bytes, b: Body) returns (r: bytes)
    requires Sized(b)
    ensures r == dst + Samples(b, 0)
  {
    hide PutInt32, PutUint;
    r := dst;
    for ch := 0 to NUM_CHANNELS
      invariant r + Samples(b, ch) == dst + Samples(b, 0)
    {
      r := r + (PutInt32(b.channels[ch]) + PutUint(b.quality[ch], 4));
    }
  }

  /** An ASDU behind what is already written. */
  method AppendAsdu(dst: bytes, b: Body) returns (r: bytes)
    requires Sized(b)
    ensures r == dst + EncodeAsdu(b)
  {
    InnerPredicted(b);
    TlvParts(dst, 0x30, Contents(b, 0));
    hide Contents, TLV, EncodeLength, EncodedAsduInnerLen, EncodeAsdu;
    r := dst + [0x30] + EncodeLength(EncodedAsduInnerLen(b));
    r := AppendHead(r, b);
    r := AppendTail(r, b);
  }

  lemma TlvParts(dst: bytes, tag: byte, value: bytes)
    ensures dst + [tag] + EncodeLength(|value|) + value == dst + TLV(tag, value)
  {
    hide EncodeLength;
  }

  lemma FieldAppended(b: Body, n: nat, r: bytes, next: bytes, whole: bytes)
    requires Sized(b) && n < FIELD_COUNT
    requires r + Contents(b, n) == whole && next == r + FieldBytes(b, n)
    ensures next + Contents(b, n + 1) == whole
    ensures n == FIELD_COUNT - 1 ==> next == whole
  {
    hide *;
    ContentsSplit(b, n);
    Grouped(r, FieldBytes(b, n), Contents(b, n + 1));
    InnerLenIs(b);
    Empty(next);
  }

  lemma Empty(a: bytes)
    ensures a + [] == a
  {
  }

  /** A field that may be missing. */
  method AppendField(dst: bytes, present: bool, tag: byte, value: bytes, ghost b: Body, ghost n: nat,
                     ghost whole: bytes) returns (r: bytes)
    requires Sized(b) && n < FIELD_COUNT && present == Present(b, n)
    requires present ==> tag == TagAt(n) && value == ContentsAt(b, n)
    requires dst + Contents(b, n) == whole
    ensures r + Contents(b, n + 1) == whole && (n == FIELD_COUNT - 1 ==> r == whole)
  {
    hide TLV, ContentsAt, Present, Contents;
    r := dst;
    if present { r := AppendTlv(dst, tag, value); } else { assert dst + [] == dst; }
    FieldAppended(b, n, dst, r, whole);
  }

  /** svID to refrTm. */
  method AppendHead(dst: bytes, b: Body) returns (r: bytes)
    requires Sized(b)
    ensures r + Contents(b, 5) == dst + Contents(b, 0)
  {
    hide Contents, UtcTime.Encode, PutUint;
    ghost var whole := dst + Contents(b, 0);
    r := AppendField(dst, true, 0x80, b.svId, b, 0, whole);
    r := AppendField(r, b.datSet != [], 0x81, b.datSet, b, 1, whole);
    r := AppendField(r, true, 0x82, PutUint(b.smpCnt, 2), b, 2, whole);
    r := AppendField(r, true, 0x83, PutUint(b.confRev, 4), b, 3, whole);
    r := AppendField(r, b.refrTm != UtcTime.ZERO, 0x84, UtcTime.Encode(b.refrTm, b.refrTmQ), b, 4, whole);
  }

  /** smpSynch to smpMod. */
  method AppendTail(dst: bytes, b: Body) returns (r: bytes)
    requires Sized(b)
    ensures r == dst + Contents(b, 5)
  {
    hide Contents, PutUint, Samples, TLV;
    ghost var whole := dst + Contents(b, 5);
    r := AppendField(dst, true, 0x85, PutUint(b.smpSynch, 1), b, 5, whole);
    r := AppendField(r, b.smpRate > 0, 0x86, PutUint(b.smpRate, 2), b, 6, whole);
    ghost var before := r;
    r := AppendSeqData(r, b);
    FieldAppended(b, 7, before, r, whole);
    r := AppendField(r, b.smpMod != 0, 0x88, PutUint(b.smpMod, 2), b, 8, whole);
  }

  method AppendSeqData(dst: bytes, b: Body) returns (r: bytes)
    requires Sized(b)
    ensures r == dst + TLV(0x87, Samples(b, 0))
  {
    TlvParts(dst, 0x87, Samples(b, 0));
    hide Samples, EncodeLength, TLV;
    r := dst + [0x87] + EncodeLength(SEQ_DATA_LEN);
    r := AppendSamples(r, b);
  }

  /** The front of the frame, its APDU length still zero. */
  method WriteFront(e: Envelope) returns (front: bytes)
    ensures front == Ethernet.Encode(Header(e)) + Ethernet.ApduHeader(e.appId, 0, e.simulation)
  {
    hide Ethernet.Encode, Ethernet.ApduHeader;
    var headerLen := if e.vlan.Some? then 18 else 14;
    var frame := new byte[headerLen + 8](_ => 0);
    Ethernet.WriteHeader(frame, Header(e));
    ghost var eth := Ethernet.Encode(Header(e));
    ghost var rest := frame[headerLen..];
    Ethernet.CopyInto(frame, headerLen, Ethernet.ApduHeader(e.appId, 0, e.simulation));
    Ethernet.Advance(eth, rest, Ethernet.ApduHeader(e.appId, 0, e.simulation));
    front := frame[..];
  }

  lemma LengthPatched(eth: bytes, appId: nat, simulation: bool, length: nat, sav: bytes)
    ensures Ethernet.Overwrite(eth + Ethernet.ApduHeader(appId, 0, simulation) + sav, |eth| + 2, PutUint(length, 2))
      == eth + (Ethernet.ApduHeader(appId, length, simulation) + sav)
  {
    var a, s, z := PutUint(appId, 2), PutUint(if simulation then 0x8000 else 0, 2), PutUint(0, 2);
    var l := PutUint(length, 2);
    assert Ethernet.ApduHeader(appId, 0, simulation) == a + z + s + z;
    assert Ethernet.ApduHeader(appId, length, simulation) == a + l + s + z;
    hide *;
    assert a + z + s + z == a + z + (s + z) && a + l + s + z == a + l + (s + z);
    Patched(eth, a, z, l, s + z, sav);
  }

  lemma Patched(eth: bytes, a: bytes, z: bytes, l: bytes, t: bytes, sav: bytes)
    requires |z| == |l|
    ensures Ethernet.Overwrite(eth + (a + z + t) + sav, |eth| + |a|, l) == eth + ((a + l + t) + sav)
  {
    hide *;
    Regrouped(eth, a, z, t, sav);
    Regrouped(eth, a, l, t, sav);
    Ethernet.Advance(eth + a, z + (t + sav), l);
    DropFirst(z, t + sav);
    Grouped(eth + a, l, t + sav);
    Grouped(eth, a + l + t, sav);
  }

  lemma Regrouped(eth: bytes, a: bytes, l: bytes, t: bytes, sav: bytes)
    ensures eth + (a + l + t) + sav == (eth + a) + (l + (t + sav))
  {
  }

  method AppendAsdus(dst: bytes, asdus: seq<Asdu>) returns (r: bytes)
    requires AllTyped(asdus)
    ensures r == dst + EncodeAsdus(asdus)
  {
    r := dst;
    assert asdus[..0] == [] && dst + EncodeAsdus([]) == dst;
    for i := 0 to |asdus|
      invariant AllTyped(asdus[..i]) && r == dst + EncodeAsdus(asdus[..i])
    {
      hide EncodeAsdu, EncodeAsdus, Typed, AllTyped;
      NextAsdu(dst, asdus, i);
      r := AppendAsdu(r, asdus[i].body);
    }
    assert asdus[..|asdus|] == asdus;
  }

  lemma NextAsdu(dst: bytes, asdus: seq<Asdu>, i: nat)
    requires AllTyped(asdus) && i < |asdus| && AllTyped(asdus[..i])
    ensures AllTyped(asdus[..i + 1]) && Sized(asdus[i].body)
    ensures dst + EncodeAsdus(asdus[..i + 1]) == dst + EncodeAsdus(asdus[..i]) + EncodeAsdu(asdus[i].body)
  {
    var more := asdus[..i + 1];
    assert more[..i] == asdus[..i] && more[i] == asdus[i];
    hide EncodeAsdu, EncodeAsdus, Typed;
    assert Typed(asdus[i].body) && AllTyped(more);
    EncodeLast(more);
    hide AllTyped;
    Grouped(dst, EncodeAsdus(asdus[..i]), EncodeAsdu(asdus[i].body));
  }

  method PredictList(asdus: seq<Asdu>) returns (n: nat)
    ensures n == SeqAsduLen(asdus)
  {
    n := 0;
    for i := 0 to |asdus|
      invariant n == SeqAsduLen(asdus[..i])
    {
      assert asdus[..i + 1][..i] == asdus[..i];
      n := n + EncodedAsduLen(asdus[i].body);
    }
    assert asdus[..|asdus|] == asdus;
  }

  /** The frame, in a buffer of exactly the size calculated before writing; nothing for an
      empty list or an APDU whose length field would overflow. */
  method Encode(asdus: seq<Asdu>) returns (r: Option<bytes>, capacity: nat)
    requires AllTyped(asdus)
    ensures r == if Fits(asdus) then Some(Frame(asdus)) else None
    ensures r.Some? ==> |r.value| == capacity
  {
    if asdus == [] { return None, 0; }
    var first := asdus[0].envelope;
    var seqAsduLen := PredictList(asdus);
    var savInnerLen := BerTlvSize(UintSize(|asdus|)) + BerTlvSize(seqAsduLen);
    var headerLen := if first.vlan.Some? then 18 else 14;
    capacity := headerLen + 8 + BerTlvSize(savInnerLen);
    var frame := WriteFront(first);
    frame := AppendSav(frame, asdus, savInnerLen, seqAsduLen);
    var apduLen := |frame| - headerLen;
    FrameFinished(asdus, frame);
    hide Fits, Frame, Ethernet.Encode;
    if apduLen > 0xFFFF { return None, capacity; }
    frame := Ethernet.Overwrite(frame, headerLen + 2, PutUint(apduLen, 2));
    return Some(frame), capacity;
  }

  method AppendSav(dst: bytes, asdus: seq<Asdu>, savInnerLen: nat, seqAsduLen: nat) returns (r: bytes)
    requires AllTyped(asdus) && savInnerLen == SavInnerLen(asdus) && seqAsduLen == SeqAsduLen(asdus)
    ensures r == dst + SavPdu(asdus)
  {
    hide *;
    SavPredicted(asdus);
    ghost var list := TLV(0xA2, EncodeAsdus(asdus));
    TlvParts(dst, 0x60, CountTlv(|asdus|) + list);
    r := dst + [0x60] + EncodeLength(savInnerLen);
    ghost var head := r;
    r := AppendTlv(r, 0x80, PutUint(|asdus|, UintSize(|asdus|)));
    CountIs(|asdus|);
    TlvParts(r, 0xA2, EncodeAsdus(asdus));
    Grouped(head, CountTlv(|asdus|), list);
    r := r + [0xA2] + EncodeLength(seqAsduLen);
    r := AppendAsdus(r, asdus);
  }

  lemma CountIs(n: nat)
    ensures CountTlv(n) == TLV(0x80, PutUint(n, UintSize(n)))
  {
  }

  lemma FrameFinished(asdus: seq<Asdu>, frame: bytes)
    requires AllTyped(asdus) && asdus != []
    requires var e := asdus[0].envelope;
      frame == Ethernet.Encode(Header(e)) + Ethernet.ApduHeader(e.appId, 0, e.simulation) + SavPdu(asdus)
    ensures var e := asdus[0].envelope;
      var head := |Ethernet.Encode(Header(e))|;
      && |frame| == head + 8 + BerTlvSize(SavInnerLen(asdus))
      && (Fits(asdus) <==> |frame| - head <= 0xFFFF)
      && Ethernet.Overwrite(frame, head + 2, PutUint(|frame| - head, 2)) == Frame(asdus)
  {
    hide *;
    FrameParts(asdus);
    SavPredicted(asdus);
    var e := asdus[0].envelope;
    LengthPatched(Ethernet.Encode(Header(e)), e.appId, e.simulation, 8 + |SavPdu(asdus)|, SavPdu(asdus));
  }

  lemma FrameParts(asdus: seq<Asdu>)
    requires AllTyped(asdus) && asdus != []
    ensures var e := asdus[0].envelope;
      && Frame(asdus) == Ethernet.Encode(Header(e))
           + (Ethernet.ApduHeader(e.appId, 8 + |SavPdu(asdus)|, e.simulation) + SavPdu(asdus))
      && (Fits(asdus) <==> 8 + |SavPdu(asdus)| <= 0xFFFF)
  {
    hide SavPdu, Ethernet.Encode, Ethernet.ApduHeader, AllTyped;
  }

  // ------------------------------------------------------------- the decoder

  method DecodeAsdu(frame: bytes, start: nat, end: nat) returns (r: Result<(Body, seq<Warning>), Error>)
    requires end <= |frame|
    ensures r == ParseAsdu(frame, start, end)
  {
    hide StoreField, Checked, EMPTY;
    var b: Body, ws: seq<Warning> := EMPTY, [];
    var offset := start;
    while offset < end
      invariant ParseFields(frame, start, end, EMPTY, []) == ParseFields(frame, offset, end, b, ws)
    {
      var tag := frame[offset];
      var length := BerLength(frame, offset + 1);
      if length.None? { return Err(BadBer); }
      var (fieldLen, off) := length.value;
      if off + fieldLen > end { return Err(BadAsdu); }
      var step := StoreField(b, tag, frame[off..off + fieldLen]);
      if step.Err? { return Err(step.error); }
      b, ws := step.value.0, ws + step.value.1;
      offset := off + fieldLen;
    }
    return Ok((b, Checked(b, ws)));
  }

  method DecodeAsdus(frame: bytes, start: nat, end: nat, envelope: Envelope, before: seq<Warning>)
    returns (r: Result<(seq<Asdu>, seq<Warning>), Error>)
    requires end <= |frame|
    ensures r == ParseAsdus(frame, start, end, envelope, [], before)
  {
    hide ParseAsdu, Scoped;
    var asdus: seq<Asdu>, ws := [], before;
    var offset := start;
    while offset < end
      invariant ParseAsdus(frame, start, end, envelope, [], before)
             == ParseAsdus(frame, offset, end, envelope, asdus, ws)
      decreases end - offset
    {
      if frame[offset] != 0x30 { return Err(BadAsdu); }
      var length := BerLength(frame, offset + 1);
      if length.None? { return Err(BadBer); }
      var (asduLen, off) := length.value;
      var asduEnd := off + asduLen;
      var over: seq<Warning> := [];
      if asduEnd > end {
        over := [LIVE];
        asduEnd := end;
      }
      var asdu := DecodeAsdu(frame, off, asduEnd);
      if asdu.Err? { return Err(asdu.error); }
      ws := ws + over + Scoped(asdu.value.1, |asdus|);
      asdus := asdus + [Asdu(envelope, asdu.value.0)];
      offset := asduEnd;
    }
    return Ok((asdus, ws));
  }

  /** The savPDU behind an APDU header. */
  method DecodeSav(frame: bytes, offset: nat, pduEnd: nat, envelope: Envelope) returns (r: Result<Decoded, Error>)
    requires offset < pduEnd <= |frame|
    ensures r == ParseSav(frame, offset, pduEnd, envelope)
  {
    hide ParseAsdus, ParseCount, ParseLength;
    if frame[offset] != 0x60 { return Err(BadApdu); }
    var sav := BerLength(frame, offset + 1);
    if sav.None? { return Err(BadBer); }
    var (savEnd, ws) := Clip(sav.value.1 + sav.value.0, pduEnd);
    var count := ParseCount(frame, sav.value.1, savEnd);
    if count.Err? { return Err(count.error); }
    var (declared, next, ms) := count.value;
    if next >= savEnd || frame[next] != 0xA2 { return Err(BadApdu); }
    var list := BerLength(frame, next + 1);
    if list.None? { return Err(BadBer); }
    var (seqEnd, os) := Clip(list.value.1 + list.value.0, savEnd);
    var asdus := DecodeAsdus(frame, list.value.1, seqEnd, envelope, ws + ms + os);
    if asdus.Err? { return Err(asdus.error); }
    var found := asdus.value.0;
    return Ok(Decoded(found, asdus.value.1 + WarnIf(declared != |found|), false, SvCodec.ETHER_TYPE, |found|,
                      declared));
  }

  method DecodeFrame(frame: bytes) returns (r: Result<Decoded, Error>)
    ensures r == ParseFrame(frame)
  {
    hide ParseSav, Ethernet.Parse, GetUint;
    var header := Ethernet.Parse(frame);
    if header.None? { return Err(FrameTooShort); }
    var (h, offset) := header.value;
    if h.etherType != SvCodec.ETHER_TYPE { return Ok(Decoded([], [], true, h.etherType, 0, 0)); }
    if |frame| < offset + 8 { return Err(FrameTooShort); }
    var apduLen := GetUint(frame[offset + 2..offset + 4]);
    var reserved1 := GetUint(frame[offset + 4..offset + 6]);
    var e := Envelope(h.dst, h.src, h.vlan, GetUint(frame[offset..offset + 2]), apduLen, reserved1,
                      GetUint(frame[offset + 6..offset + 8]), reserved1 >= 0x8000);
    if apduLen < 8 { return Err(BadApdu); }
    var (pduEnd, ws) := Clip(offset + apduLen, |frame|);
    if pduEnd <= offset + 8 { return Err(BadApdu); }
    var sav := DecodeSav(frame, offset + 8, pduEnd, e);
    if sav.Err? { return Err(sav.error); }
    return Ok(sav.value.(warnings := ws + sav.value.warnings));
  }

  method Decode(frame: bytes) returns (r: Result<seq<Asdu>, Error>)
    ensures r == Parse(frame)
  {
    hide ParseFrame;
    var decoded := DecodeFrame(frame);
    if decoded.Err? { return Err(decoded.error); }
    var d := decoded.value;
    if d.nonSv { return Err(NotSv); }
    if |d.asdus| == 0 { return Err(InvalidLive); }
    for i := 0 to |d.warnings|
      invariant forall j | 0 <= j < i :: !d.warnings[j].rejectLive
    {
      if d.warnings[i].rejectLive { return Err(InvalidLive); }
    }
    return Ok(d.asdus);
  }

  // ---------------------------------------------- what live decoding vouches for

  /** All that a live consumer reads is there and in range. */
  predicate Complete(b: Body) {
    && {0x80, 0x82, 0x83, 0x85, 0x87} <= b.has
    && b.svId != [] && b.smpSynch <= 2 && b.smpMod <= 2
    && |b.seqData| == SEQ_DATA_LEN && b.channels == ChannelsOf(b.seqData) && b.quality == QualitiesOf(b.seqData)
  }

  /** What holds of a body under construction as long as no warning spoils it. */
  predicate Sane(b: Body) {
    && b.smpMod <= 2
    && (0x80 in b.has ==> b.svId != [])
    && (0x85 in b.has ==> b.smpSynch <= 2)
    && (0x87 in b.has ==>
          |b.seqData| == SEQ_DATA_LEN && b.channels == ChannelsOf(b.seqData) && b.quality == QualitiesOf(b.seqData))
  }

  predicate Quiet(ws: seq<Warning>) { forall i | 0 <= i < |ws| :: !ws[i].rejectLive }

  lemma QuietParts(a: seq<Warning>, b: seq<Warning>)
    ensures Quiet(a + b) <==> Quiet(a) && Quiet(b)
  {
    if Quiet(a + b) {
      forall i | 0 <= i < |a| ensures !a[i].rejectLive { assert (a + b)[i] == a[i]; }
      forall i | 0 <= i < |b| ensures !b[i].rejectLive { assert (a + b)[|a| + i] == b[i]; }
    }
  }

  lemma QuietIf(bad: bool)
    ensures Quiet(WarnIf(bad)) <==> !bad
  {
    if bad { assert WarnIf(bad)[0].rejectLive; }
  }

  lemma FieldSane(b: Body, tag: byte, data: bytes)
    requires Sane(b)
    ensures var r := StoreField(b, tag, data);
      r.Ok? && Quiet(r.value.1) ==> Sane(r.value.0)
  {
    QuietIf(data == []);
    QuietIf(|data| != SEQ_DATA_LEN);
    if tag == 0x85 && data != [] {
      QuietParts(WarnIf(|data| != 1), WarnIf(data[0] > 2));
      QuietIf(data[0] > 2);
    }
    hide GetUint, UtcTime.Decode, ChannelsOf, QualitiesOf, Quiet, WarnIf;
  }

  lemma {:induction false} FieldsSane(frame: bytes, offset: nat, end: nat, b: Body, ws: seq<Warning>)
    requires end <= |frame| && Sane(b)
    ensures var r := ParseFields(frame, offset, end, b, ws);
      r.Ok? && Quiet(r.value.1) ==> Sane(r.value.0) && Quiet(ws)
    decreases end - offset
  {
    hide StoreField, Sane, Quiet, ParseLength;
    if offset < end {
      match ParseLength(frame, offset + 1)
      case None =>
      case Some((len, off)) =>
        if off + len <= end {
          var data := frame[off..off + len];
          FieldSane(b, frame[offset], data);
          match StoreField(b, frame[offset], data)
          case Err(_) =>
          case Ok((c, more)) =>
            QuietParts(ws, more);
            if Quiet(more) { FieldsSane(frame, off + len, end, c, ws + more); }
            else { NoisyFields(frame, off + len, end, c, ws + more); }
        }
    }
  }

  /** A rejecting warning is never taken back. */
  lemma {:induction false} NoisyFields(frame: bytes, offset: nat, end: nat, b: Body, ws: seq<Warning>)
    requires end <= |frame| && !Quiet(ws)
    ensures var r := ParseFields(frame, offset, end, b, ws); r.Ok? ==> !Quiet(r.value.1)
    decreases end - offset
  {
    hide StoreField, Quiet, ParseLength;
    if offset < end {
      match ParseLength(frame, offset + 1)
      case None =>
      case Some((len, off)) =>
        if off + len <= end {
          match StoreField(b, frame[offset], frame[off..off + len])
          case Err(_) =>
          case Ok((c, more)) =>
            QuietParts(ws, more);
            NoisyFields(frame, off + len, end, c, ws + more);
        }
    }
  }

  lemma {:induction false} MissingQuiet(has: set<byte>, tags: seq<byte>)
    ensures Quiet(Missing(has, tags)) <==> forall t | t in tags :: t in has
  {
    if tags != [] {
      MissingQuiet(has, tags[1..]);
      QuietParts(WarnIf(tags[0] !in has), Missing(has, tags[1..]));
      QuietIf(tags[0] !in has);
      hide Quiet, WarnIf;
      assert tags == [tags[0]] + tags[1..];
    }
  }

  lemma AsduComplete(frame: bytes, offset: nat, end: nat)
    requires end <= |frame|
    ensures var r := ParseAsdu(frame, offset, end); r.Ok? && Quiet(r.value.1) ==> Complete(r.value.0)
  {
    FieldsSane(frame, offset, end, EMPTY, []);
    match ParseFields(frame, offset, end, EMPTY, [])
    case Err(_) =>
    case Ok((b, ws)) =>
      QuietParts(ws, Missing(b.has, MANDATORY));
      MissingQuiet(b.has, MANDATORY);
      hide ParseFields, Quiet, Missing;
      assert MANDATORY[0] in MANDATORY && MANDATORY[1] in MANDATORY && MANDATORY[2] in MANDATORY
        && MANDATORY[3] in MANDATORY && MANDATORY[4] in MANDATORY;
  }

  predicate AllComplete(asdus: seq<Asdu>) {
    forall i | 0 <= i < |asdus| :: Complete(asdus[i].body)
  }

  lemma ScopedQuiet(ws: seq<Warning>, index: nat)
    ensures Quiet(Scoped(ws, index)) <==> Quiet(ws)
  {
    if Quiet(Scoped(ws, index)) {
      forall i | 0 <= i < |ws| ensures !ws[i].rejectLive { assert !Scoped(ws, index)[i].rejectLive; }
    }
  }

  lemma {:induction false} ListComplete(frame: bytes, offset: nat, end: nat, e: Envelope, done: seq<Asdu>,
                                        ws: seq<Warning>)
    requires end <= |frame| && (Quiet(ws) ==> AllComplete(done))
    ensures var r := ParseAsdus(frame, offset, end, e, done, ws);
      r.Ok? && Quiet(r.value.1) ==> AllComplete(r.value.0) && Quiet(ws)
    decreases end - offset
  {
    hide ParseAsdu, Complete, Quiet, ParseLength, Scoped;
    if offset < end && frame[offset] == 0x30 {
      match ParseLength(frame, offset + 1)
      case None =>
      case Some((len, off)) =>
        var (asduEnd, over) := Clip(off + len, end);
        match ParseAsdu(frame, off, asduEnd)
        case Err(_) =>
        case Ok((b, more)) =>
          AsduComplete(frame, off, asduEnd);
          QuietParts(ws + over, Scoped(more, |done|));
          QuietParts(ws, over);
          ScopedQuiet(more, |done|);
          ListComplete(frame, asduEnd, end, e, done + [Asdu(e, b)], ws + over + Scoped(more, |done|));
    }
  }

  lemma SavComplete(frame: bytes, offset: nat, pduEnd: nat, e: Envelope)
    requires offset < pduEnd <= |frame|
    ensures var r := ParseSav(frame, offset, pduEnd, e);
      r.Ok? && Quiet(r.value.warnings) ==> AllComplete(r.value.asdus) && r.value.declared == |r.value.asdus|
  {
    hide ParseAsdus, ParseCount, ParseLength, AllComplete, Quiet, WarnIf;
    if frame[offset] == 0x60 && ParseLength(frame, offset + 1).Some? {
      var (savLen, savStart) := ParseLength(frame, offset + 1).value;
      var (savEnd, ws) := Clip(savStart + savLen, pduEnd);
      match ParseCount(frame, savStart, savEnd)
      case Err(_) =>
      case Ok((declared, next, ms)) =>
        if next < savEnd && frame[next] == 0xA2 && ParseLength(frame, next + 1).Some? {
          var (seqLen, start) := ParseLength(frame, next + 1).value;
          var (seqEnd, os) := Clip(start + seqLen, savEnd);
          NoneComplete();
          ListComplete(frame, start, seqEnd, e, [], ws + ms + os);
          match ParseAsdus(frame, start, seqEnd, e, [], ws + ms + os)
          case Err(_) =>
          case Ok((asdus, all)) =>
            QuietParts(all, WarnIf(declared != |asdus|));
            QuietIf(declared != |asdus|);
        }
    }
  }

  lemma NoneComplete()
    ensures AllComplete([])
  {
  }

  /** Whatever the frame, an ASDU that live decoding lets through has all its mandatory fields,
      a name, legal enumerations and exactly eight channels' samples, and the frame held as
      many ASDUs as it declared. */
  lemma LiveVouches(frame: bytes)
    ensures var r := Parse(frame);
      r.Ok? ==>
        (r.value != [] && AllComplete(r.value)
         && ParseFrame(frame).Ok? && ParseFrame(frame).value.declared == |r.value|)
  {
    hide ParseSav, Ethernet.Parse, GetUint, AllComplete;
    match Ethernet.Parse(frame)
    case None =>
    case Some((h, offset)) =>
      if h.etherType == SvCodec.ETHER_TYPE && |frame| >= offset + 8 {
        var apduLen := GetUint(frame[offset + 2..offset + 4]);
        var reserved1 := GetUint(frame[offset + 4..offset + 6]);
        var e := Envelope(h.dst, h.src, h.vlan, GetUint(frame[offset..offset + 2]), apduLen, reserved1,
                          GetUint(frame[offset + 6..offset + 8]), reserved1 >= 0x8000);
        var (pduEnd, ws) := Clip(offset + apduLen, |frame|);
        if apduLen >= 8 && pduEnd > offset + 8 {
          SavComplete(frame, offset + 8, pduEnd, e);
          match ParseSav(frame, offset + 8, pduEnd, e)
          case Err(_) =>
          case Ok(d) =>
            QuietParts(ws, d.warnings);
            assert Rejects(ws + d.warnings) <==> !Quiet(ws + d.warnings);
        }
      }
  }
}
