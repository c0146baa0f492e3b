/** The GOOSE Ethernet frame (IEC 61850-8-1): encoder, decoder, and their round trip. */
module GooseCodec {
  import opened Wrappers
  import opened Bytes
  import opened Ber
  import opened GooseData
  import Ethernet
  import UtcTime

  const ETHER_TYPE: nat := 0x88B8

  datatype Pdu = Pdu(
    dstMac: bytes, srcMac: bytes, vlan: Option<Ethernet.VlanTag>,
    appId: nat, simulation: bool,
    gocbRef: bytes, timeAllowedToLiveMs: nat, datSet: bytes, goId: bytes,
    timestamp: UtcTime.Time, timeQuality: UtcTime.TimeQuality,
    stNum: nat, sqNum: nat, test: bool, confRev: nat, ndsCom: bool,
    numDatSetEntries: nat, allData: seq<DataValue>)

  // ----------------------------------------------------------------- encoder

  const FIELD_COUNT: nat := 12

  /** Tags 0x80 to 0x8A in order, then the constructed allData. */
  function TagAt(n: nat): byte
    requires n < FIELD_COUNT
  {
    if n < 11 then 0x80 + n else 0xAB
  }

  function ContentsAt(p: Pdu, n: nat): bytes
    requires n < FIELD_COUNT
  {
    match n
    case 0 => p.gocbRef
    case 1 => MinimalUnsigned(p.timeAllowedToLiveMs)
    case 2 => p.datSet
    case 3 => p.goId
    case 4 => UtcTime.Encode(p.timestamp, p.timeQuality)
    case 5 => MinimalUnsigned(p.stNum)
    case 6 => MinimalUnsigned(p.sqNum)
    case 7 => EncodeBool(p.test)
    case 8 => MinimalUnsigned(p.confRev)
    case 9 => EncodeBool(p.ndsCom)
    case 10 => MinimalUnsigned(p.numDatSetEntries)
    case 11 => EncodeSeq(p.allData)
  }

  function FieldsFrom(p: Pdu, n: nat): seq<Field>
    decreases FIELD_COUNT - n
  {
    if n >= FIELD_COUNT then [] else [(TagAt(n), ContentsAt(p, n))] + FieldsFrom(p, n + 1)
  }

  function Fields(p: Pdu): seq<Field> { FieldsFrom(p, 0) }

  function Header(p: Pdu): Ethernet.Header {
    Ethernet.Header(p.dstMac, p.srcMac, p.vlan, ETHER_TYPE)
  }

  function GoosePdu(p: Pdu): bytes { TLV(0x61, EncodeFields(Fields(p))) }

  function Apdu(p: Pdu): bytes {
    Ethernet.ApduHeader(p.appId, 8 + |GoosePdu(p)|, p.simulation) + GoosePdu(p)
  }

  function Encode(p: Pdu): bytes {
    Ethernet.Encode(Header(p)) + Apdu(p)
  }

  // ----------------------------------------------------------------- decoder

  const KNOWN: set<byte> :=
    {0x80, 0x81, 0x82, 0x83, 0x84, 0x85, 0x86, 0x87, 0x88, 0x89, 0x8A, 0xAB}

  const REQUIRED: set<byte> := {0x80, 0x81, 0x82, 0x84, 0x85, 0x86, 0x88, 0x8A, 0xAB}

  const NO_QUALITY := UtcTime.TimeQuality(false, false, false, 0)

  const EMPTY :=
    Pdu([], [], None, 0, false, [], 0, [], [], UtcTime.ZERO, NO_QUALITY, 0, 0, false, 0, false, 0, [])

  /** Effect of one field on the PDU being filled. */
  function StoreField(p: Pdu, tag: byte, data: bytes): Result<Pdu, Error> {
    match tag
    case 0x80 => Ok(p.(gocbRef := data))
    case 0x82 => Ok(p.(datSet := data))
    case 0x83 => Ok(p.(goId := data))
    case 0x84 =>
      if |data| != 8 then Err(BadBer)
      else
        var (t, q) := UtcTime.Decode(data);
        Ok(p.(timestamp := t, timeQuality := q))
    case 0x87 => if |data| != 1 then Err(BadBer) else Ok(p.(test := data[0] != 0))
    case 0x89 => if |data| != 1 then Err(BadBer) else Ok(p.(ndsCom := data[0] != 0))
    case 0xAB =>
      var values :- ParseSeq(data);
      Ok(p.(allData := values))
    case _ => if tag in {0x81, 0x85, 0x86, 0x88, 0x8A} then StoreCounter(p, tag, data) else Ok(p)
  }

  function StoreCounter(p: Pdu, tag: byte, data: bytes): Result<Pdu, Error>
    requires tag in {0x81, 0x85, 0x86, 0x88, 0x8A}
  {
    match DecodeUnsigned(data, 4)
    case None => Err(BadBer)
    case Some(v) =>
      match tag
      case 0x81 => Ok(p.(timeAllowedToLiveMs := v))
      case 0x85 => Ok(p.(stNum := v))
      case 0x86 => Ok(p.(sqNum := v))
      case 0x88 => Ok(p.(confRev := v))
      case 0x8A => Ok(p.(numDatSetEntries := v))
  }

  /** A known field may occur once; an unknown one is skipped. */
  function FieldStep(p: Pdu, seen: set<byte>, tag: byte, data: bytes): Result<(Pdu, set<byte>), Error> {
    if tag in KNOWN && tag in seen then Err(BadPdu)
    else
      var q :- StoreField(p, tag, data);
      Ok((q, if tag in KNOWN then seen + {tag} else seen))
  }

  function ParseFields(frame: bytes, offset: nat, end: nat, p: Pdu, seen: set<byte>)
    : Result<(Pdu, set<byte>), Error>
    requires end <= |frame|
    decreases end - offset
  {
    if offset >= end then Ok((p, seen))
    else match ParseLength(frame, offset + 1)
      case None => Err(BadBer)
      case Some((len, off)) =>
        if off + len > end then Err(BadPdu)
        else
          var (q, s) :- FieldStep(p, seen, frame[offset], frame[off..off + len]);
          ParseFields(frame, off + len, end, q, s)
  }

  function Validate(p: Pdu, seen: set<byte>): Result<Pdu, Error> {
    if !(REQUIRED <= seen) || p.numDatSetEntries != |p.allData| then Err(BadPdu) else Ok(p)
  }

  /** Where the fields of the goosePDU lie: the APDU and goosePDU lengths must agree. */
  function Locate(frame: bytes, offset: nat, apduLen: nat): (r: Result<(nat, nat), Error>)
    requires offset <= |frame|
    ensures r.Ok? ==> r.value.0 <= r.value.1 <= |frame|
  {
    if apduLen < 8 || apduLen - 8 > |frame| - offset || apduLen == 8 then Err(BadPdu)
    else
      var pduEnd := offset + apduLen - 8;
      if frame[offset] != 0x61 then Err(BadPdu)
      else match ParseLength(frame, offset + 1)
        case None => Err(BadBer)
        case Some((innerLen, off)) =>
          if off + innerLen != pduEnd then Err(BadPdu) else Ok((off, pduEnd))
  }

  function Parse(frame: bytes): Result<Pdu, Error> {
    match Ethernet.Parse(frame)
    case None => Err(FrameTooShort)
    case Some((h, offset)) =>
      if h.etherType != ETHER_TYPE then Err(NotGoose)
      else if |frame| < offset + 8 then Err(FrameTooShort)
      else
        var p := EMPTY.(dstMac := h.dst, srcMac := h.src, vlan := h.vlan,
                        appId := GetUint(frame[offset..offset + 2]),
                        simulation := GetUint(frame[offset + 4..offset + 6]) >= 0x8000);
        var (start, end) :- Locate(frame, offset + 8, GetUint(frame[offset + 2..offset + 4]));
        var (q, seen) :- ParseFields(frame, start, end, p, {});
        Validate(q, seen)
  }

  // ------------------------------------------------ the loops that compute both

  /** Fields appended one after another. */
  method AppendFields(fs: seq<Field>) returns (buf: bytes)
    ensures buf == EncodeFields(fs)
  {
    buf := [];
    for i := 0 to |fs|
      invariant buf + EncodeFields(fs[i..]) == EncodeFields(fs)
    {
      assert fs[i..][1..] == fs[i + 1..];
      buf := buf + TLV(fs[i].0, fs[i].1);
    }
  }

  /** The frame filled in place: Ethernet header, APDU header, goosePDU. */
  method EncodeFrame(p: Pdu) returns (frame: array<byte>)
    ensures frame[..] == Encode(p) && fresh(frame)
  {
    hide Fields, EncodeFields, TLV, Ethernet.ApduHeader, Ethernet.Encode;
    var inner := AppendFields(Fields(p));
    var payload := TLV(0x61, inner);
    var head := if p.vlan.Some? then 18 else 14;
    var word := Ethernet.ApduHeader(p.appId, 8 + |payload|, p.simulation);
    frame := new byte[head + 8 + |payload|](_ => 0);
    FillFrame(frame, Header(p), word, payload);
  }

  method FillFrame(frame: array<byte>, header: Ethernet.Header, word: bytes, payload: bytes)
    requires |word| == 8 && frame.Length == |Ethernet.Encode(header)| + 8 + |payload|
    requires forall i | 0 <= i < 12 :: frame[i] == 0
    modifies frame
    ensures frame[..] == Ethernet.Encode(header) + (word + payload)
  {
    hide *;
    Ethernet.WriteHeader(frame, header);
    ghost var h := Ethernet.Encode(header);
    ghost var rest := frame[|h|..];
    var head := if header.vlan.Some? then 18 else 14;
    assert head == |h|;
    Ethernet.CopyInto(frame, head, word);
    Ethernet.Advance(h, rest, word);
    Ethernet.CopyInto(frame, head + 8, payload);
    Ethernet.Advance(h + word, rest[8..], payload);
    assert rest[8..][|payload|..] == [];
    assert h + word + payload + [] == h + (word + payload);
  }

  method DecodeFields(frame: bytes, start: nat, innerEnd: nat, empty: Pdu)
    returns (r: Result<(Pdu, set<byte>), Error>)
    requires innerEnd <= |frame|
    ensures r == ParseFields(frame, start, innerEnd, empty, {})
  {
    hide FieldStep;
    var p, seen: set<byte> := empty, {};
    var offset := start;
    while offset < innerEnd
      invariant ParseFields(frame, start, innerEnd, empty, {})
             == ParseFields(frame, offset, innerEnd, p, seen)
    {
      var tag := frame[offset];
      var length := BerLength(frame, offset + 1);
      if length.None? {
        return Err(BadBer);
      }
      var (fieldLen, off) := length.value;
      if off > innerEnd || fieldLen > innerEnd - off {
        return Err(BadPdu);
      }
      var step := FieldStep(p, seen, tag, frame[off..off + fieldLen]);
      if step.Err? {
        return Err(step.error);
      }
      p, seen := step.value.0, step.value.1;
      offset := off + fieldLen;
    }
    return Ok((p, seen));
  }

  method Decode(frame: bytes) returns (r: Result<Pdu, Error>)
    ensures r == Parse(frame)
  {
    hide ParseFields, Locate, Validate, Ethernet.Parse;
    var header := Ethernet.Parse(frame);
    if header.None? {
      return Err(FrameTooShort);
    }
    var (h, offset) := header.value;
    if h.etherType != ETHER_TYPE {
      return Err(NotGoose);
    }
    if |frame| < offset + 8 {
      return Err(FrameTooShort);
    }
    var p := EMPTY.(dstMac := h.dst, srcMac := h.src, vlan := h.vlan,
                    appId := GetUint(frame[offset..offset + 2]),
                    simulation := GetUint(frame[offset + 4..offset + 6]) >= 0x8000);
    var located := Locate(frame, offset + 8, GetUint(frame[offset + 2..offset + 4]));
    if located.Err? {
      return Err(located.error);
    }
    var fields := DecodeFields(frame, located.value.0, located.value.1, p);
    if fields.Err? {
      return Err(fields.error);
    }
    return Validate(fields.value.0, fields.value.1);
  }

  // -------------------------------------------------------------- round trip

  /** Values in the ranges of their Go types that a frame can hold: the APDU length has 16
      bits, and numDatSetEntries counts the data. */
  predicate Sendable(p: Pdu) {
    && Ethernet.ValidHeader(Header(p))
    && p.appId < 0x1_0000
    && p.timeAllowedToLiveMs < 0x1_0000_0000 && p.stNum < 0x1_0000_0000
    && p.sqNum < 0x1_0000_0000 && p.confRev < 0x1_0000_0000
    && p.numDatSetEntries == |p.allData| < 0x1_0000_0000
    && UtcTime.InRange(p.timestamp)
    && (forall v | v in p.allData :: WellFormed(v))
    && |Apdu(p)| < 0x1_0000
  }

  /** The PDU a receiver sees. */
  function Received(p: Pdu): Pdu {
    p.(timestamp := UtcTime.Quantise(p.timestamp),
       timeQuality := p.timeQuality.(accuracy := p.timeQuality.accuracy % 0x20),
       allData := CanonicalSeq(p.allData))
  }

  /** The field loop as a fold over the fields' list. */
  function StoreAll(fs: seq<Field>, p: Pdu, seen: set<byte>): Result<(Pdu, set<byte>), Error> {
    if fs == [] then Ok((p, seen))
    else
      var (q, s) :- FieldStep(p, seen, fs[0].0, fs[0].1);
      StoreAll(fs[1..], q, s)
  }

  /** Walking the octets of a list of fields is folding over the list. */
  lemma {:induction false} FieldsParse(frame: bytes, offset: nat, end: nat, fs: seq<Field>,
                                       p: Pdu, seen: set<byte>)
    requires end <= |frame| && At(frame, offset, EncodeFields(fs))
    requires end == offset + |EncodeFields(fs)|
    requires forall f: Field | f in fs :: |f.1| < 0x100_0000
    ensures ParseFields(frame, offset, end, p, seen) == StoreAll(fs, p, seen)
    decreases |fs|
  {
    hide FieldStep, TLV, ParseLength, EncodeLength;
    if fs != [] {
      var f, rest := fs[0], fs[1..];
      AtSplit(frame, offset, TLV(f.0, f.1), EncodeFields(rest));
      TlvAt(frame, offset, f.0, f.1);
      var next := offset + |TLV(f.0, f.1)|;
      match FieldStep(p, seen, f.0, f.1) {
        case Err(_) =>
        case Ok((q, s)) => FieldsParse(frame, next, end, rest, q, s);
      }
    }
  }

  /** The nth field of p as a receiver stores it. */
  function Stored(p: Pdu, n: nat, b: Pdu): Pdu
    requires n < FIELD_COUNT
  {
    match n
    case 0 => b.(gocbRef := p.gocbRef)
    case 1 => b.(timeAllowedToLiveMs := p.timeAllowedToLiveMs)
    case 2 => b.(datSet := p.datSet)
    case 3 => b.(goId := p.goId)
    case 4 => b.(timestamp := Received(p).timestamp, timeQuality := Received(p).timeQuality)
    case 5 => b.(stNum := p.stNum)
    case 6 => b.(sqNum := p.sqNum)
    case 7 => b.(test := p.test)
    case 8 => b.(confRev := p.confRev)
    case 9 => b.(ndsCom := p.ndsCom)
    case 10 => b.(numDatSetEntries := p.numDatSetEntries)
    case 11 => b.(allData := Received(p).allData)
  }

  function StoredFrom(p: Pdu, n: nat, b: Pdu): Pdu
    decreases FIELD_COUNT - n
  {
    if n >= FIELD_COUNT then b else StoredFrom(p, n + 1, Stored(p, n, b))
  }

  lemma CounterStores(b: Pdu, tag: byte, v: nat)
    requires tag in {0x81, 0x85, 0x86, 0x88, 0x8A} && v < 0x1_0000_0000
    ensures DecodeUnsigned(MinimalUnsigned(v), 4) == Some(v)
    ensures StoreField(b, tag, MinimalUnsigned(v)) == StoreCounter(b, tag, MinimalUnsigned(v))
  {
    Pow256Values();
    UnsignedBijection(MinimalUnsigned(v), 4, v);
  }

  lemma FieldStores(p: Pdu, n: nat, b: Pdu)
    requires Sendable(p) && n < FIELD_COUNT && |EncodeSeq(p.allData)| < 0x100_0000
    ensures StoreField(b, TagAt(n), ContentsAt(p, n)) == Ok(Stored(p, n, b))
  {
    hide MinimalUnsigned, DecodeUnsigned, EncodeSeq, ParseSeq, CanonicalSeq;
    hide UtcTime.Encode, UtcTime.Decode, UtcTime.Quantise;
    match n {
      case 1 => CounterStores(b, 0x81, p.timeAllowedToLiveMs);
      case 4 => UtcTime.RoundTrip(p.timestamp, p.timeQuality);
      case 5 => CounterStores(b, 0x85, p.stNum);
      case 6 => CounterStores(b, 0x86, p.sqNum);
      case 8 => CounterStores(b, 0x88, p.confRev);
      case 10 => CounterStores(b, 0x8A, p.numDatSetEntries);
      case 11 => SeqRoundTrip(p.allData);
      case _ =>
    }
  }

  lemma FieldSteps(p: Pdu, n: nat, b: Pdu, seen: set<byte>)
    requires Sendable(p) && n < FIELD_COUNT && |EncodeSeq(p.allData)| < 0x100_0000
    requires TagAt(n) !in seen
    ensures FieldStep(b, seen, TagAt(n), ContentsAt(p, n)) == Ok((Stored(p, n, b), seen + {TagAt(n)}))
  {
    FieldStores(p, n, b);
    assert TagAt(n) in KNOWN;
    hide StoreField, Stored, ContentsAt, Sendable;
  }

  function TagsBefore(n: nat): set<byte>
    requires n <= FIELD_COUNT
  {
    set i | 0 <= i < n :: TagAt(i)
  }

  lemma AllTags()
    ensures TagsBefore(FIELD_COUNT) == KNOWN
  {
    forall t | t in KNOWN ensures t in TagsBefore(FIELD_COUNT) {
      assert t == TagAt(if t == 0xAB then 11 else t - 0x80);
    }
  }

  /** The encoder's fields are all known, distinct, and stored in turn. */
  lemma {:induction false} FieldsStore(p: Pdu, n: nat, b: Pdu)
    requires Sendable(p) && n <= FIELD_COUNT && |EncodeSeq(p.allData)| < 0x100_0000
    ensures StoreAll(FieldsFrom(p, n), b, TagsBefore(n)) == Ok((StoredFrom(p, n, b), KNOWN))
    decreases FIELD_COUNT - n
  {
    hide StoreField, Stored, ContentsAt, Sendable, FieldStep;
    if n == FIELD_COUNT {
      AllTags();
    } else {
      FieldSteps(p, n, b, TagsBefore(n));
      assert TagsBefore(n + 1) == TagsBefore(n) + {TagAt(n)};
      FieldsStore(p, n + 1, Stored(p, n, b));
    }
  }

  lemma {:induction false} FieldMember(p: Pdu, n: nat, k: nat)
    requires k <= n < FIELD_COUNT
    ensures (TagAt(n), ContentsAt(p, n)) in FieldsFrom(p, k)
    decreases n - k
  {
    hide ContentsAt, TagAt;
    if k < n { FieldMember(p, n, k + 1); }
  }

  /** The PDU under construction when the field loop starts. */
  function Base(p: Pdu): Pdu {
    EMPTY.(dstMac := p.dstMac, srcMac := p.srcMac, vlan := p.vlan,
           appId := p.appId, simulation := p.simulation)
  }

  lemma StoredComplete(p: Pdu)
    ensures StoredFrom(p, 0, Base(p)) == Received(p)
  {
    var b3 := Stored(p, 2, Stored(p, 1, Stored(p, 0, Base(p))));
    assert StoredFrom(p, 0, Base(p)) == StoredFrom(p, 3, b3);
    var b6 := Stored(p, 5, Stored(p, 4, Stored(p, 3, b3)));
    assert StoredFrom(p, 3, b3) == StoredFrom(p, 6, b6);
    var b9 := Stored(p, 8, Stored(p, 7, Stored(p, 6, b6)));
    assert StoredFrom(p, 6, b6) == StoredFrom(p, 9, b9);
    var b12 := Stored(p, 11, Stored(p, 10, Stored(p, 9, b9)));
    assert StoredFrom(p, 9, b9) == StoredFrom(p, 12, b12) == b12;
  }

  /** The eight octets of the APDU header, and the goosePDU behind them. */
  lemma ApduParts(p: Pdu, eth: bytes, padding: bytes)
    requires p.appId < 0x1_0000 && |Apdu(p)| < 0x1_0000
    ensures var frame, offset := eth + Apdu(p) + padding, |eth|;
      && |frame| >= offset + 8
      && GetUint(frame[offset..offset + 2]) == p.appId
      && GetUint(frame[offset + 2..offset + 4]) == |Apdu(p)|
      && GetUint(frame[offset + 4..offset + 6]) == (if p.simulation then 0x8000 else 0)
      && At(frame, offset + 8, GoosePdu(p))
      && |Apdu(p)| == 8 + |GoosePdu(p)|
  {
    hide GoosePdu, Ethernet.ApduHeader, GetUint;
    var w := Ethernet.ApduHeader(p.appId, 8 + |GoosePdu(p)|, p.simulation);
    Ethernet.HeaderFields(p.appId, 8 + |GoosePdu(p)|, p.simulation);
    assert Apdu(p) == w + GoosePdu(p);
    hide Apdu;
    Ethernet.Words(eth, w, GoosePdu(p), padding);
  }

  lemma LocateFields(frame: bytes, offset: nat, apduLen: nat, inner: bytes)
    requires At(frame, offset, TLV(0x61, inner)) && |inner| < 0x1_0000
    requires apduLen == 8 + |TLV(0x61, inner)|
    ensures var start := offset + 1 + |EncodeLength(|inner|)|;
      Locate(frame, offset, apduLen) == Ok((start, start + |inner|)) && At(frame, start, inner)
  {
    TlvAt(frame, offset, 0x61, inner);
    TlvSize(0x61, inner);
  }

  /** A frame carries its PDU: whatever the nesting of its data and whatever padding the
      medium adds, the receiver decodes it to the PDU sent, up to UtcTime quantisation. */
  lemma RoundTrip(p: Pdu, padding: bytes)
    requires Sendable(p)
    ensures Parse(Encode(p) + padding) == Ok(Received(p))
  {
    var eth, fs, inner := Ethernet.Encode(Header(p)), Fields(p), EncodeFields(Fields(p));
    var frame, offset := Encode(p) + padding, |Ethernet.Encode(Header(p))|;
    hide *;
    SendableFacts(p);
    assert frame == eth + Apdu(p) + padding == eth + (Apdu(p) + padding);
    ApduParts(p, eth, padding);
    TlvSize(0x61, inner);
    Ethernet.HeaderRoundTrip(Header(p), Apdu(p) + padding);
    LocateFields(frame, offset + 8, |Apdu(p)|, inner);
    var start := offset + 9 + |EncodeLength(|inner|)|;
    FieldsDecode(p, frame, start);
    Finish(p, frame, offset, start);
  }

  lemma SendableFacts(p: Pdu)
    requires Sendable(p)
    ensures Encode(p) == Ethernet.Encode(Header(p)) + Apdu(p)
    ensures p.appId < 0x1_0000 && |Apdu(p)| < 0x1_0000 && Ethernet.ValidHeader(Header(p))
    ensures GoosePdu(p) == TLV(0x61, EncodeFields(Fields(p)))
  {
    hide Apdu, Ethernet.Encode, TLV, EncodeFields, Fields;
  }

  lemma FirstField(p: Pdu)
    ensures FieldsFrom(p, 0) == Fields(p) && TagsBefore(0) == {}
  {
    hide FieldsFrom;
  }

  lemma DataLength(p: Pdu)
    ensures |EncodeSeq(p.allData)| <= |EncodeFields(Fields(p))|
  {
    FieldLengths(Fields(p));
    FirstField(p);
    FieldMember(p, 11, 0);
    hide FieldsFrom, EncodeFields, Fields, EncodeSeq;
    assert (TagAt(11), ContentsAt(p, 11)) in Fields(p);
  }

  lemma FieldsDecode(p: Pdu, frame: bytes, start: nat)
    requires Sendable(p) && At(frame, start, EncodeFields(Fields(p)))
    requires |EncodeFields(Fields(p))| < 0x1_0000
    requires start + |EncodeFields(Fields(p))| <= |frame|
    ensures ParseFields(frame, start, start + |EncodeFields(Fields(p))|, Base(p), {})
         == Ok((Received(p), KNOWN))
  {
    var fs := Fields(p);
    hide *;
    FieldLengths(fs);
    DataLength(p);
    assert FieldsFrom(p, 0) == fs && TagsBefore(0) == {} by { FirstField(p); }
    FieldsParse(frame, start, start + |EncodeFields(fs)|, fs, Base(p), {});
    FieldsStore(p, 0, Base(p));
    StoredComplete(p);
  }

  lemma Finish(p: Pdu, frame: bytes, offset: nat, start: nat)
    requires Sendable(p) && offset + 8 <= start <= |frame|
    requires Ethernet.Parse(frame) == Some((Header(p), offset))
    requires GetUint(frame[offset..offset + 2]) == p.appId
    requires GetUint(frame[offset + 4..offset + 6]) == if p.simulation then 0x8000 else 0
    requires var inner := EncodeFields(Fields(p));
      && Locate(frame, offset + 8, GetUint(frame[offset + 2..offset + 4])) == Ok((start, start + |inner|))
      && ParseFields(frame, start, start + |inner|, Base(p), {}) == Ok((Received(p), KNOWN))
    ensures Parse(frame) == Ok(Received(p))
  {
    hide Ethernet.Parse, Locate, ParseFields, EncodeFields, Fields;
  }
}
