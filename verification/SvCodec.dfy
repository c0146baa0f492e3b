/** The Sampled Values Ethernet frame (IEC 61850-9-2LE): what the encoder writes and the
    decoder reads, with the two decoders' verdicts on damage. */
module SvCodec {
  import opened Wrappers
  import opened Bytes
  import opened Ber
  import Ethernet
  import UtcTime

  const ETHER_TYPE: nat := 0x88BA
  const NUM_CHANNELS: nat := 8
  const SEQ_DATA_LEN: nat := 64
  const NO_QUALITY := UtcTime.TimeQuality(false, false, false, 0)

  /** What all the ASDUs of a frame share. */
  datatype Envelope = Envelope(
    dstMac: bytes, srcMac: bytes, vlan: Option<Ethernet.VlanTag>, appId: nat, apduLength: nat,
    reserved1: nat, reserved2: nat, simulation: bool)

  /** One ASDU's own fields. The time is UtcTime.ZERO if unset; has holds the tags of the
      fields a decoder found. */
  datatype Body = Body(
    svId: bytes, datSet: bytes, smpCnt: nat, confRev: nat, refrTm: UtcTime.Time, refrTmQ: UtcTime.TimeQuality,
    smpSynch: nat, smpRate: nat, smpMod: nat, channels: seq<int>, quality: seq<nat>, seqData: bytes,
    has: set<byte>)

  datatype Asdu = Asdu(envelope: Envelope, body: Body)

  predicate Sized(b: Body) { |b.channels| == |b.quality| == NUM_CHANNELS }

  /** The Go types' ranges. */
  predicate Typed(b: Body)
    ensures Typed(b) ==> Sized(b)
  {
    && b.smpCnt < 0x1_0000 && b.confRev < 0x1_0000_0000 && b.smpSynch < 0x100 && b.smpRate < 0x1_0000
    && b.smpMod < 0x100 && Sized(b)
    && (forall i | 0 <= i < NUM_CHANNELS ::
          -0x8000_0000 <= b.channels[i] < 0x8000_0000 && b.quality[i] < 0x1_0000_0000)
    && (b.refrTm == UtcTime.ZERO || UtcTime.InRange(b.refrTm))
  }

  // ------------------------------------------------------------- the layout

  /** Two's complement in four octets. */
  function PutInt32(v: int): (r: bytes)
    ensures |r| == 4
  {
    PutUint(Wrapped(v, 0x1_0000_0000), 4)
  }

  function GetInt32(b: bytes): int { FromUnsigned(GetUint(b), 0x1_0000_0000) }

  /** The samples from a channel on. */
  function Samples(b: Body, ch: nat): (r: bytes)
    requires Sized(b)
    ensures ch <= NUM_CHANNELS ==> |r| == 8 * (NUM_CHANNELS - ch)
    decreases NUM_CHANNELS - ch
  {
    if ch >= NUM_CHANNELS then []
    else PutInt32(b.channels[ch]) + PutUint(b.quality[ch], 4) + Samples(b, ch + 1)
  }

  const FIELD_COUNT: nat := 9

  function TagAt(n: nat): byte
    requires n < FIELD_COUNT
  {
    0x80 + n
  }

  predicate Present(b: Body, n: nat) {
    match n
    case 1 => b.datSet != []
    case 4 => b.refrTm != UtcTime.ZERO
    case 6 => b.smpRate > 0
    case 8 => b.smpMod != 0
    case _ => true
  }

  function ContentsAt(b: Body, n: nat): bytes
    requires n < FIELD_COUNT && Sized(b)
  {
    match n
    case 0 => b.svId
    case 1 => b.datSet
    case 2 => PutUint(b.smpCnt, 2)
    case 3 => PutUint(b.confRev, 4)
    case 4 => UtcTime.Encode(b.refrTm, b.refrTmQ)
    case 5 => PutUint(b.smpSynch, 1)
    case 6 => PutUint(b.smpRate, 2)
    case 7 => Samples(b, 0)
    case 8 => PutUint(b.smpMod, 2)
  }

  function FieldsFrom(b: Body, n: nat): seq<Field>
    requires Sized(b)
    decreases FIELD_COUNT - n
  {
    if n >= FIELD_COUNT then []
    else (if Present(b, n) then [(TagAt(n), ContentsAt(b, n))] else []) + FieldsFrom(b, n + 1)
  }

  /** The contents of an ASDU from a field on. */
  function Contents(b: Body, n: nat): bytes
    requires Sized(b)
  {
    EncodeFields(FieldsFrom(b, n))
  }

  function EncodeAsdu(b: Body): bytes
    requires Sized(b)
  {
    TLV(0x30, Contents(b, 0))
  }

  /** The octets of a field, if it is there. */
  function FieldBytes(b: Body, n: nat): bytes
    requires Sized(b) && n < FIELD_COUNT
  {
    if Present(b, n) then TLV(TagAt(n), ContentsAt(b, n)) else []
  }

  lemma ContentsSplit(b: Body, n: nat)
    requires Sized(b)
    ensures n < FIELD_COUNT ==> Contents(b, n) == FieldBytes(b, n) + Contents(b, n + 1)
    ensures n < FIELD_COUNT && !Present(b, n) ==> Contents(b, n) == Contents(b, n + 1)
    ensures n >= FIELD_COUNT ==> Contents(b, n) == []
    ensures Contents(b, FIELD_COUNT) == []
  {
    hide ContentsAt, TLV, Present;
    if n < FIELD_COUNT {
      var fs, rest := FieldsFrom(b, n), FieldsFrom(b, n + 1);
      assert if Present(b, n) then fs[1..] == rest else fs == rest;
    }
  }

  lemma AsduTlv(b: Body)
    requires Sized(b)
    ensures EncodeAsdu(b) == TLV(0x30, Contents(b, 0))
  {
    hide Contents, TLV;
  }

  predicate AllTyped(asdus: seq<Asdu>) {
    forall a | a in asdus :: Typed(a.body)
  }

  function EncodeAsdus(asdus: seq<Asdu>): bytes
    requires AllTyped(asdus)
  {
    if asdus == [] then [] else EncodeAsdu(asdus[0].body) + EncodeAsdus(asdus[1..])
  }

  function UintSize(v: nat): nat {
    if v <= 0xFF then 1 else if v <= 0xFFFF then 2 else if v <= 0xFF_FFFF then 3 else 4
  }

  /** The number of ASDUs, in its element. */
  function CountTlv(n: nat): bytes { TLV(0x80, PutUint(n, UintSize(n))) }

  function SavPdu(asdus: seq<Asdu>): bytes
    requires AllTyped(asdus)
  {
    TLV(0x60, CountTlv(|asdus|) + TLV(0xA2, EncodeAsdus(asdus)))
  }

  function Header(e: Envelope): Ethernet.Header { Ethernet.Header(e.dstMac, e.srcMac, e.vlan, ETHER_TYPE) }

  function Apdu(asdus: seq<Asdu>): bytes
    requires AllTyped(asdus) && asdus != []
  {
    var e := asdus[0].envelope;
    Ethernet.ApduHeader(e.appId, 8 + |SavPdu(asdus)|, e.simulation) + SavPdu(asdus)
  }

  /** The frame for some ASDUs, in the envelope of the first. */
  function Frame(asdus: seq<Asdu>): bytes
    requires AllTyped(asdus) && asdus != []
  {
    Ethernet.Encode(Header(asdus[0].envelope)) + Apdu(asdus)
  }

  predicate Fits(asdus: seq<Asdu>)
    requires AllTyped(asdus)
  {
    asdus != [] && |Apdu(asdus)| < 0x1_0000
  }

  // ------------------------------------------------------------- the decoder

  datatype Error = FrameTooShort | NotSv | BadBer | BadApdu | BadAsdu | InvalidLive

  /** A warning, about one ASDU if numbered, and whether it makes the frame unusable live. */
  datatype Warning = Warning(asdu: Option<nat>, rejectLive: bool)

  const LIVE := Warning(None, true)
  const MINOR := Warning(None, false)

  const EMPTY :=
    Body([], [], 0, 0, UtcTime.ZERO, NO_QUALITY, 0, 0, 0, [0, 0, 0, 0, 0, 0, 0, 0],
         [0, 0, 0, 0, 0, 0, 0, 0], [], {})

  const MANDATORY: seq<byte> := [0x80, 0x82, 0x83, 0x85, 0x87]

  function WarnIf(bad: bool): seq<Warning> { if bad then [LIVE] else [] }

  function ChannelsOf(data: bytes): (r: seq<int>)
    requires |data| >= SEQ_DATA_LEN
    ensures |r| == NUM_CHANNELS
  {
    seq(NUM_CHANNELS, ch requires 0 <= ch < NUM_CHANNELS => GetInt32(data[8 * ch..8 * ch + 4]))
  }

  function QualitiesOf(data: bytes): (r: seq<nat>)
    requires |data| >= SEQ_DATA_LEN
    ensures |r| == NUM_CHANNELS
  {
    seq(NUM_CHANNELS, ch requires 0 <= ch < NUM_CHANNELS => GetUint(data[8 * ch + 4..8 * ch + 8]))
  }

  /** Effect of one field on the ASDU being filled, and what there is to say about it. */
  function StoreField(b: Body, tag: byte, data: bytes): Result<(Body, seq<Warning>), Error> {
    match tag
    case 0x80 => Ok((b.(svId := data, has := b.has + {tag}), WarnIf(data == [])))
    case 0x81 => Ok((b.(datSet := data), []))
    case 0x82 => Ok((b.(smpCnt := GetUint(data) % 0x1_0000, has := b.has + {tag}), WarnIf(|data| != 2)))
    case 0x83 =>
      if |data| != 4 then Err(BadAsdu) else Ok((b.(confRev := GetUint(data), has := b.has + {tag}), []))
    case 0x84 =>
      var (t, q) := UtcTime.Decode(data);
      Ok((b.(refrTm := t, refrTmQ := q, has := b.has + {tag}), WarnIf(|data| != 8)))
    case 0x85 =>
      if data == [] then Ok((b, WarnIf(true)))
      else
        Ok((b.(smpSynch := data[0], has := b.has + {tag}), WarnIf(|data| != 1) + WarnIf(data[0] > 2)))
    case 0x86 => Ok((b.(smpRate := GetUint(data) % 0x1_0000, has := b.has + {tag}), WarnIf(|data| != 2)))
    case 0x87 => Ok((StoreSamples(b, data), WarnIf(|data| != SEQ_DATA_LEN)))
    case 0x88 =>
      if |data| != 2 || GetUint(data) > 2 then Err(BadAsdu)
      else Ok((b.(smpMod := GetUint(data), has := b.has + {tag}), []))
    case _ => Ok((b, [MINOR]))
  }

  function StoreSamples(b: Body, data: bytes): Body {
    var c := b.(seqData := data, has := b.has + {0x87});
    if |data| >= SEQ_DATA_LEN then c.(channels := ChannelsOf(data), quality := QualitiesOf(data)) else c
  }

  function ParseFields(frame: bytes, offset: nat, end: nat, b: Body, ws: seq<Warning>)
    : Result<(Body, seq<Warning>), Error>
    requires end <= |frame|
    decreases end - offset
  {
    if offset >= end then Ok((b, ws))
    else match ParseLength(frame, offset + 1)
      case None => Err(BadBer)
      case Some((len, off)) =>
        if off + len > end then Err(BadAsdu)
        else
          var (c, more) :- StoreField(b, frame[offset], frame[off..off + len]);
          ParseFields(frame, off + len, end, c, ws + more)
  }

  /** One warning for each mandatory field that is missing. */
  function Missing(has: set<byte>, tags: seq<byte>): seq<Warning> {
    if tags == [] then [] else WarnIf(tags[0] !in has) + Missing(has, tags[1..])
  }

  function ParseAsdu(frame: bytes, offset: nat, end: nat): Result<(Body, seq<Warning>), Error>
    requires end <= |frame|
  {
    var (b, ws) :- ParseFields(frame, offset, end, EMPTY, []);
    Ok((b, Checked(b, ws)))
  }

  function Checked(b: Body, ws: seq<Warning>): seq<Warning> { ws + Missing(b.has, MANDATORY) }

  function Scoped(ws: seq<Warning>, index: nat): seq<Warning> {
    seq(|ws|, i requires 0 <= i < |ws| => ws[i].(asdu := Some(index)))
  }

  /** The ASDUs of seqASDU, behind those already decoded. */
  function ParseAsdus(frame: bytes, offset: nat, end: nat, envelope: Envelope, asdus: seq<Asdu>, ws: seq<Warning>)
    : Result<(seq<Asdu>, seq<Warning>), Error>
    requires end <= |frame|
    decreases end - offset
  {
    if offset >= end then Ok((asdus, ws))
    else if frame[offset] != 0x30 then Err(BadAsdu)
    else match ParseLength(frame, offset + 1)
      case None => Err(BadBer)
      case Some((len, off)) =>
        var (asduEnd, over) := Clip(off + len, end);
        var (b, more) :- ParseAsdu(frame, off, asduEnd);
        ParseAsdus(frame, asduEnd, end, envelope, asdus + [Asdu(envelope, b)],
                   ws + over + Scoped(more, |asdus|))
  }

  /** An end that reaches too far is cut back, with a warning. */
  function Clip(end: nat, limit: nat): (nat, seq<Warning>) {
    if end > limit then (limit, [LIVE]) else (end, [])
  }

  datatype Decoded = Decoded(
    asdus: seq<Asdu>, warnings: seq<Warning>, nonSv: bool, etherType: nat, actual: nat, declared: nat)

  /** The declared number of ASDUs, where it ends, and a warning if it is not there. */
  function ParseCount(frame: bytes, offset: nat, savEnd: nat): (r: Result<(nat, nat, seq<Warning>), Error>)
    requires savEnd <= |frame|
  {
    if offset < savEnd && frame[offset] == 0x80 then
      match ParseLength(frame, offset + 1)
      case None => Err(BadBer)
      case Some((len, off)) =>
        if off + len > savEnd then Err(BadApdu)
        else Ok((if len > 0 then GetUint(frame[off..off + len]) % 0x1_0000_0000 else 1, off + len, []))
    else Ok((1, offset, [LIVE]))
  }

  /** The savPDU between its tag and the end of the APDU. */
  function ParseSav(frame: bytes, offset: nat, pduEnd: nat, envelope: Envelope): Result<Decoded, Error>
    requires offset < pduEnd <= |frame|
  {
    if frame[offset] != 0x60 then Err(BadApdu)
    else match ParseLength(frame, offset + 1)
      case None => Err(BadBer)
      case Some((savLen, savStart)) =>
        var (savEnd, ws) := Clip(savStart + savLen, pduEnd);
        var (declared, next, ms) :- ParseCount(frame, savStart, savEnd);
        if next >= savEnd || frame[next] != 0xA2 then Err(BadApdu)
        else match ParseLength(frame, next + 1)
          case None => Err(BadBer)
          case Some((seqLen, start)) =>
            var (seqEnd, os) := Clip(start + seqLen, savEnd);
            var (asdus, all) :- ParseAsdus(frame, start, seqEnd, envelope, [], ws + ms + os);
            Ok(Decoded(asdus, all + WarnIf(declared != |asdus|), false, ETHER_TYPE, |asdus|, declared))
  }

  /** The tolerant decoder: damage that leaves something to show is only warned about. */
  function ParseFrame(frame: bytes): Result<Decoded, Error> {
    match Ethernet.Parse(frame)
    case None => Err(FrameTooShort)
    case Some((h, offset)) =>
      if h.etherType != ETHER_TYPE then Ok(Decoded([], [], true, h.etherType, 0, 0))
      else if |frame| < offset + 8 then Err(FrameTooShort)
      else
        var apduLen := GetUint(frame[offset + 2..offset + 4]);
        var reserved1 := GetUint(frame[offset + 4..offset + 6]);
        var e := Envelope(h.dst, h.src, h.vlan, GetUint(frame[offset..offset + 2]), apduLen, reserved1,
                          GetUint(frame[offset + 6..offset + 8]), reserved1 >= 0x8000);
        if apduLen < 8 then Err(BadApdu)
        else
          var (pduEnd, ws) := Clip(offset + apduLen, |frame|);
          if pduEnd <= offset + 8 then Err(BadApdu)
          else
            var d :- ParseSav(frame, offset + 8, pduEnd, e);
            Ok(d.(warnings := ws + d.warnings))
  }

  predicate Rejects(ws: seq<Warning>) { exists i | 0 <= i < |ws| :: ws[i].rejectLive }

  /** The live decoder: nothing damaged gets through. */
  function Parse(frame: bytes): Result<seq<Asdu>, Error> {
    var d :- ParseFrame(frame);
    if d.nonSv then Err(NotSv)
    else if d.asdus == [] || Rejects(d.warnings) then Err(InvalidLive)
    else Ok(d.asdus)
  }
}
