/** Which octets the live SV decoder takes, from whatever publisher, and what it makes of them. */
module SvAcceptance {
  import opened Wrappers
  import opened Bytes
  import opened Ber
  import opened SvCodec
  import opened SvFrames
  import Ethernet
  import UtcTime

  // --------------------------------------------------------------- one field

  /** The contents are as IEC 61850-9-2 LE wants them; datSet and unknown fields are not looked
      at. */
  predicate Legal(f: Field) {
    match f.0
    case 0x80 => f.1 != []
    case 0x82 => |f.1| == 2
    case 0x83 => |f.1| == 4
    case 0x84 => |f.1| == 8
    case 0x85 => |f.1| == 1 && f.1[0] <= 2
    case 0x86 => |f.1| == 2
    case 0x87 => |f.1| == 64
    case 0x88 => |f.1| == 2 && GetUint(f.1) <= 2
    case _ => true
  }

  /** The ASDU has the value a legal field carries. */
  predicate Carries(b: Body, f: Field) {
    match f.0
    case 0x80 => b.svId == f.1
    case 0x81 => b.datSet == f.1
    case 0x82 => b.smpCnt == GetUint(f.1)
    case 0x83 => b.confRev == GetUint(f.1)
    case 0x84 => (b.refrTm, b.refrTmQ) == UtcTime.Decode(f.1)
    case 0x85 => f.1 != [] && b.smpSynch == f.1[0]
    case 0x86 => b.smpRate == GetUint(f.1)
    case 0x87 => |f.1| == 64 && b.seqData == f.1 && b.channels == ChannelsOf(f.1) && b.quality == QualitiesOf(f.1)
    case 0x88 => b.smpMod == GetUint(f.1)
    case _ => true
  }

  /** Two ASDUs have the same value for a tag. */
  predicate Same(b: Body, c: Body, tag: byte) {
    match tag
    case 0x80 => b.svId == c.svId
    case 0x81 => b.datSet == c.datSet
    case 0x82 => b.smpCnt == c.smpCnt
    case 0x83 => b.confRev == c.confRev
    case 0x84 => b.refrTm == c.refrTm && b.refrTmQ == c.refrTmQ
    case 0x85 => b.smpSynch == c.smpSynch
    case 0x86 => b.smpRate == c.smpRate
    case 0x87 => b.seqData == c.seqData && b.channels == c.channels && b.quality == c.quality
    case 0x88 => b.smpMod == c.smpMod
    case _ => true
  }

  lemma ShortValue(data: bytes)
    ensures |data| == 2 ==> GetUint(data) % 0x1_0000 == GetUint(data)
  {
    if |data| == 2 {
      GetBound(data);
      Pow256Values();
    }
    hide GetUint;
  }

  /** Without a rejecting warning a field is stored exactly if it is legal, and changes its own
      value only. */
  lemma OneField(b: Body, f: Field)
    ensures var r := StoreField(b, f.0, f.1);
      && (r.Ok? && Quiet(r.value.1) <==> Legal(f))
      && (Legal(f) ==> Carries(r.value.0, f) && Changes(b, r.value.0, f.0))
  {
    FieldWarnings(f);
    ShortValue(f.1);
    hide GetUint, UtcTime.Decode, ChannelsOf, QualitiesOf, Quiet, WarnIf;
  }

  predicate Changes(b: Body, c: Body, tag: byte) {
    && (forall t | t != tag :: Same(b, c, t))
    && (forall t | t in {0x80, 0x82, 0x83, 0x85, 0x87} :: t in c.has <==> t in b.has || t == tag)
  }

  lemma FieldWarnings(f: Field)
    ensures Quiet([]) && Quiet([MINOR])
    ensures forall bad :: Quiet(WarnIf(bad)) <==> !bad
    ensures f.1 != [] ==>
      (Quiet(WarnIf(|f.1| != 1) + WarnIf(f.1[0] > 2)) <==> |f.1| == 1 && f.1[0] <= 2)
  {
    forall bad ensures Quiet(WarnIf(bad)) <==> !bad { QuietIf(bad); }
    if f.1 != [] {
      QuietParts(WarnIf(|f.1| != 1), WarnIf(f.1[0] > 2));
      QuietIf(|f.1| != 1);
      QuietIf(f.1[0] > 2);
    }
    hide WarnIf;
  }

  // ---------------------------------------------------------------- one ASDU

  function StoreAll(fs: seq<Field>, b: Body, ws: seq<Warning>): Result<(Body, seq<Warning>), Error> {
    if fs == [] then Ok((b, ws))
    else
      var (c, more) :- StoreField(b, fs[0].0, fs[0].1);
      StoreAll(fs[1..], c, ws + more)
  }

  /** The field loop is cutting the octets and storing the pieces. */
  lemma {:induction false} ParseIsCut(frame: bytes, offset: nat, end: nat, b: Body, ws: seq<Warning>)
    requires end <= |frame|
    ensures var fs, r := CutFields(frame, offset, end), ParseFields(frame, offset, end, b, ws);
      && (r.Ok? <==> fs.Some? && StoreAll(fs.value, b, ws).Ok?)
      && (r.Ok? ==> r == StoreAll(fs.value, b, ws))
    decreases end - offset
  {
    hide StoreField, ParseLength;
    if offset < end {
      match ParseLength(frame, offset + 1)
      case None =>
      case Some((len, off)) =>
        if off + len <= end {
          var step := StoreField(b, frame[offset], frame[off..off + len]);
          if step.Ok? { ParseIsCut(frame, off + len, end, step.value.0, ws + step.value.1); }
        }
    }
  }

  /** The last field of its tag, from position i on. */
  predicate LastOf(fs: seq<Field>, i: nat)
    requires i < |fs|
  {
    forall j | i < j < |fs| :: fs[j].0 != fs[i].0
  }

  /** c is b with the fields stored: of several with one tag the last counts. */
  predicate Filled(fs: seq<Field>, b: Body, c: Body) {
    && (forall i | 0 <= i < |fs| && LastOf(fs, i) :: Carries(c, fs[i]))
    && (forall t | !HasTag(fs, t) :: Same(b, c, t))
    && (forall t | t in {0x80, 0x82, 0x83, 0x85, 0x87} :: t in c.has <==> t in b.has || HasTag(fs, t))
  }

  lemma {:induction false} StoresExactly(fs: seq<Field>, b: Body, ws: seq<Warning>)
    ensures var r := StoreAll(fs, b, ws);
      && (r.Ok? && Quiet(r.value.1) <==> Quiet(ws) && forall f | f in fs :: Legal(f))
      && (r.Ok? && Quiet(r.value.1) ==> Filled(fs, b, r.value.0))
  {
    hide StoreField, Legal, Carries, Same, Quiet, Changes, Filled;
    if fs == [] {
      NothingFilled(b);
    } else {
      OneField(b, fs[0]);
      assert forall f :: f in fs <==> f == fs[0] || f in fs[1..];
      var step := StoreField(b, fs[0].0, fs[0].1);
      if step.Ok? {
        QuietParts(ws, step.value.1);
        StoresExactly(fs[1..], step.value.0, ws + step.value.1);
        var r := StoreAll(fs, b, ws);
        if r.Ok? && Quiet(r.value.1) { FilledMore(fs, b, step.value.0, r.value.0); }
      }
    }
  }

  lemma NothingFilled(b: Body)
    ensures Filled([], b, b)
  {
  }

  lemma FilledMore(fs: seq<Field>, b: Body, c: Body, d: Body)
    requires fs != [] && Carries(c, fs[0]) && Changes(b, c, fs[0].0) && Filled(fs[1..], c, d)
    ensures Filled(fs, b, d)
  {
    hide Carries, Same;
    var rest := fs[1..];
    assert forall f :: f in fs <==> f == fs[0] || f in rest;
    assert forall t :: HasTag(fs, t) <==> t == fs[0].0 || HasTag(rest, t);
    forall i | 0 <= i < |fs| && LastOf(fs, i) ensures Carries(d, fs[i]) {
      if i > 0 {
        assert rest[i - 1] == fs[i];
        assert LastOf(rest, i - 1) by {
          assert forall j | i - 1 < j < |rest| :: rest[j] == fs[j + 1];
        }
      } else {
        NoLater(fs);
        CarriesSame(c, d, fs[0]);
      }
    }
    forall t | !HasTag(fs, t) ensures Same(b, d, t) { SameChain(b, c, d, t); }
  }

  lemma NoLater(fs: seq<Field>)
    requires fs != [] && LastOf(fs, 0)
    ensures !HasTag(fs[1..], fs[0].0)
  {
    forall i | 0 <= i < |fs[1..]| ensures fs[1..][i].0 != fs[0].0 { assert fs[1..][i] == fs[i + 1]; }
  }

  lemma CarriesSame(b: Body, c: Body, f: Field)
    requires Carries(b, f) && Same(b, c, f.0)
    ensures Carries(c, f)
  {
  }

  lemma SameChain(b: Body, c: Body, d: Body, t: byte)
    requires Same(b, c, t) && Same(c, d, t)
    ensures Same(b, d, t)
  {
  }

  /** The fields of an ASDU a live consumer can use: all the mandatory ones, every one legal. */
  predicate Usable(fs: seq<Field>) {
    && (forall f | f in fs :: Legal(f))
    && forall tag | tag in {0x80, 0x82, 0x83, 0x85, 0x87} :: HasTag(fs, tag)
  }

  /** An ASDU passes live decoding exactly if its octets are the fields of a usable one; unknown
      fields do no harm, and the last field of a tag counts. */
  lemma AsduExactly(frame: bytes, offset: nat, end: nat)
    requires end <= |frame|
    ensures var r, fs := ParseAsdu(frame, offset, end), CutFields(frame, offset, end);
      && (r.Ok? && Quiet(r.value.1) <==> fs.Some? && Usable(fs.value))
      && (r.Ok? && Quiet(r.value.1) ==> Filled(fs.value, EMPTY, r.value.0))
  {
    ParseIsCut(frame, offset, end, EMPTY, []);
    var fs := CutFields(frame, offset, end);
    var fields := ParseFields(frame, offset, end, EMPTY, []);
    if fs.Some? { StoresExactly(fs.value, EMPTY, []); }
    if fields.Ok? {
      var (b, ws) := fields.value;
      QuietParts(ws, Missing(b.has, MANDATORY));
      MissingQuiet(b.has, MANDATORY);
      hide ParseFields, StoreAll, CutFields, Quiet, Missing, Legal, Carries, Same, LastOf;
      assert Quiet([]) by { NoWarnings(); }
      assert forall t :: t in MANDATORY <==> t in {0x80, 0x82, 0x83, 0x85, 0x87};
    }
  }

  lemma NoWarnings()
    ensures Quiet([])
  {
  }

  // ---------------------------------------------------------------- the list

  /** Where the ASDUs lie that the octets from offset to end consist of, if they do. */
  function CutList(frame: bytes, offset: nat, end: nat): (r: Option<seq<(nat, nat)>>)
    requires end <= |frame|
    ensures r.Some? ==> forall i | 0 <= i < |r.value| :: r.value[i].1 <= end
    decreases end - offset
  {
    if offset >= end then Some([])
    else if frame[offset] != 0x30 then None
    else match ParseLength(frame, offset + 1)
      case None => None
      case Some((len, off)) =>
        if off + len > end then None
        else match CutList(frame, off + len, end)
          case None => None
          case Some(rest) => Some([(off, off + len)] + rest)
  }

  predicate AsduOk(frame: bytes, at: (nat, nat)) {
    at.1 <= |frame| && CutFields(frame, at.0, at.1).Some? && Usable(CutFields(frame, at.0, at.1).value)
  }

  predicate AsduSays(frame: bytes, at: (nat, nat), e: Envelope, a: Asdu) {
    AsduOk(frame, at) && a.envelope == e && Filled(CutFields(frame, at.0, at.1).value, EMPTY, a.body)
  }

  predicate ListSays(frame: bytes, list: seq<(nat, nat)>, e: Envelope, asdus: seq<Asdu>) {
    |asdus| == |list| && forall i | 0 <= i < |list| :: AsduSays(frame, list[i], e, asdus[i])
  }

  /** A list passes exactly if its octets are ASDUs, and each of them passes. */
  lemma {:induction false} ListExactly(frame: bytes, offset: nat, end: nat, e: Envelope, done: seq<Asdu>,
                                       ws: seq<Warning>)
    requires end <= |frame|
    ensures var r, list := ParseAsdus(frame, offset, end, e, done, ws), CutList(frame, offset, end);
      && (r.Ok? && Quiet(r.value.1) <==>
            Quiet(ws) && list.Some? && forall at | at in list.value :: AsduOk(frame, at))
      && (r.Ok? && Quiet(r.value.1) ==>
            done <= r.value.0 && ListSays(frame, list.value, e, r.value.0[|done|..]))
    decreases end - offset
  {
    hide ParseAsdu, Quiet, ParseLength, Scoped, AsduOk, AsduSays;
    if offset < end && frame[offset] == 0x30 && ParseLength(frame, offset + 1).Some? {
      var (len, off) := ParseLength(frame, offset + 1).value;
      var (asduEnd, over) := Clip(off + len, end);
      ClipQuiet(off + len, end);
      match ParseAsdu(frame, off, asduEnd)
      case Err(_) => PassesIs(frame, off, asduEnd, e);
      case Ok((b, more)) =>
        PassesIs(frame, off, asduEnd, e);
        var all := ws + over + Scoped(more, |done|);
        QuietParts(ws + over, Scoped(more, |done|));
        QuietParts(ws, over);
        ScopedQuiet(more, |done|);
        ListExactly(frame, asduEnd, end, e, done + [Asdu(e, b)], all);
        var r := ParseAsdus(frame, asduEnd, end, e, done + [Asdu(e, b)], all);
        if r.Ok? && Quiet(r.value.1) {
          Grows(frame, off, asduEnd, e, done, b, r.value.0, CutList(frame, asduEnd, end));
        }
    }
  }

  lemma ClipQuiet(end: nat, limit: nat)
    ensures Quiet(Clip(end, limit).1) <==> end <= limit
  {
    if end > limit { assert Clip(end, limit).1[0].rejectLive; }
  }

  lemma PassesIs(frame: bytes, offset: nat, end: nat, e: Envelope)
    requires end <= |frame|
    ensures var r := ParseAsdu(frame, offset, end);
      && (r.Ok? && Quiet(r.value.1) <==> AsduOk(frame, (offset, end)))
      && (r.Ok? && Quiet(r.value.1) ==> AsduSays(frame, (offset, end), e, Asdu(e, r.value.0)))
  {
    AsduExactly(frame, offset, end);
    hide ParseAsdu, CutFields, Usable, Filled, Quiet;
  }

  lemma Grows(frame: bytes, off: nat, end: nat, e: Envelope, done: seq<Asdu>, b: Body, asdus: seq<Asdu>,
              list: Option<seq<(nat, nat)>>)
    requires done + [Asdu(e, b)] <= asdus && AsduSays(frame, (off, end), e, Asdu(e, b))
    requires list.Some? && ListSays(frame, list.value, e, asdus[|done| + 1..])
    ensures done <= asdus && ListSays(frame, [(off, end)] + list.value, e, asdus[|done|..])
  {
    hide AsduSays;
    assert asdus[|done|] == (done + [Asdu(e, b)])[|done|];
    assert asdus[|done|..] == [Asdu(e, b)] + asdus[|done| + 1..];
  }

  // --------------------------------------------------------------- the frame

  /** The parts of an SV message behind its Ethernet header: the savPDU, the number of ASDUs it
      declares, and the list of them. */
  datatype Parts = Parts(savStart: nat, savEnd: nat, declared: nat, next: nat, start: nat, end: nat,
                         list: seq<(nat, nat)>)

  predicate Counted(frame: bytes, p: Parts) {
    && p.savStart < p.savEnd <= |frame| && frame[p.savStart] == 0x80
    && ParseLength(frame, p.savStart + 1).Some?
    && var (len, off) := ParseLength(frame, p.savStart + 1).value;
      && p.next == off + len <= p.savEnd
      && p.declared == if len > 0 then GetUint(frame[off..off + len]) % 0x1_0000_0000 else 1
  }

  /** Every length ends within what surrounds it, the count is there, and each ASDU is usable. */
  predicate Sound(frame: bytes, offset: nat, p: Parts) {
    && offset + 8 < |frame|
    && var pduEnd := offset + GetUint(frame[offset + 2..offset + 4]);
      && offset + 8 < pduEnd <= |frame|
      && frame[offset + 8] == 0x60
      && p.savStart <= p.savEnd <= pduEnd && ParseLength(frame, offset + 9) == Some((p.savEnd - p.savStart, p.savStart))
      && Counted(frame, p)
      && p.next < p.savEnd && frame[p.next] == 0xA2
      && p.start <= p.end <= p.savEnd && ParseLength(frame, p.next + 1) == Some((p.end - p.start, p.start))
      && CutList(frame, p.start, p.end) == Some(p.list)
      && p.declared == |p.list| && p.list != []
      && forall at | at in p.list :: AsduOk(frame, at)
  }

  lemma CountIs(frame: bytes, p: Parts)
    requires p.savEnd <= |frame|
    ensures var r := ParseCount(frame, p.savStart, p.savEnd);
      r.Ok? && Quiet(r.value.2) && r.value.0 == p.declared && r.value.1 == p.next <==> Counted(frame, p)
  {
    hide ParseLength, GetUint, Quiet;
    NoWarnings();
    LiveLoud();
  }

  lemma LiveLoud()
    ensures !Quiet([LIVE])
  {
    assert [LIVE][0].rejectLive;
  }

  function EnvelopeOf(frame: bytes, h: Ethernet.Header, offset: nat): Envelope
    requires offset + 8 <= |frame|
  {
    var reserved1 := GetUint(frame[offset + 4..offset + 6]);
    Envelope(h.dst, h.src, h.vlan, GetUint(frame[offset..offset + 2]), GetUint(frame[offset + 2..offset + 4]),
             reserved1, GetUint(frame[offset + 6..offset + 8]), reserved1 >= 0x8000)
  }

  /** The savPDU passes exactly if it is sound; the parts are those it is cut into. */
  lemma SavExactly(frame: bytes, offset: nat, pduEnd: nat, e: Envelope, p: Parts)
    requires offset + 8 < pduEnd <= |frame| && pduEnd == offset + GetUint(frame[offset + 2..offset + 4])
    requires Sound(frame, offset, p)
    ensures var r := ParseSav(frame, offset + 8, pduEnd, e);
      && r.Ok? && Quiet(r.value.warnings) && r.value.asdus != [] && !r.value.nonSv
      && ListSays(frame, p.list, e, r.value.asdus)
  {
    hide ParseAsdus, ParseCount, ParseLength, Quiet, AsduOk, AsduSays, Counted, GetUint;
    CountIs(frame, p);
    ClipQuiet(p.savEnd, pduEnd);
    ClipQuiet(p.end, p.savEnd);
    NoWarnings();
    var ms := ParseCount(frame, p.savStart, p.savEnd).value.2;
    QuietParts([] + ms, []);
    QuietParts([], ms);
    ListExactly(frame, p.start, p.end, e, [], [] + ms + []);
    var r := ParseAsdus(frame, p.start, p.end, e, [], [] + ms + []);
    QuietParts(r.value.1, WarnIf(p.declared != |r.value.0|));
    QuietIf(p.declared != |r.value.0|);
    assert r.value.0[0..] == r.value.0;
  }

  lemma SavCut(frame: bytes, offset: nat, pduEnd: nat, e: Envelope) returns (p: Parts)
    requires offset + 8 < pduEnd <= |frame| && pduEnd == offset + GetUint(frame[offset + 2..offset + 4])
    requires var r := ParseSav(frame, offset + 8, pduEnd, e); r.Ok? && Quiet(r.value.warnings) && r.value.asdus != []
    ensures Sound(frame, offset, p)
  {
    hide ParseAsdus, ParseCount, ParseLength, Quiet, AsduOk, AsduSays, Counted, GetUint, WarnIf;
    var (savLen, savStart) := ParseLength(frame, offset + 9).value;
    var (savEnd, ws) := Clip(savStart + savLen, pduEnd);
    var (declared, next, ms) := ParseCount(frame, savStart, savEnd).value;
    var (seqLen, start) := ParseLength(frame, next + 1).value;
    var (end, os) := Clip(start + seqLen, savEnd);
    var (asdus, all) := ParseAsdus(frame, start, end, e, [], ws + ms + os).value;
    QuietParts(all, WarnIf(declared != |asdus|));
    QuietIf(declared != |asdus|);
    ListExactly(frame, start, end, e, [], ws + ms + os);
    QuietParts(ws + ms, os);
    QuietParts(ws, ms);
    ClipQuiet(savStart + savLen, pduEnd);
    ClipQuiet(start + seqLen, savEnd);
    p := Parts(savStart, savEnd, declared, next, start, end, CutList(frame, start, end).value);
    CountIs(frame, p);
    assert asdus[0..] == asdus;
  }

  lemma FrameSteps(frame: bytes, h: Ethernet.Header, offset: nat)
    requires Ethernet.Parse(frame) == Some((h, offset)) && h.etherType == 0x88BA && offset + 8 <= |frame|
    ensures var apduLen := GetUint(frame[offset + 2..offset + 4]);
      var pduEnd := offset + apduLen;
      && (Parse(frame).Ok? ==> 8 < apduLen && pduEnd <= |frame|)
      && (8 < apduLen && pduEnd <= |frame| ==>
            var r := ParseSav(frame, offset + 8, pduEnd, EnvelopeOf(frame, h, offset));
            && (Parse(frame).Ok? <==> r.Ok? && !r.value.nonSv && r.value.asdus != [] && Quiet(r.value.warnings))
            && (Parse(frame).Ok? ==> Parse(frame).value == r.value.asdus))
  {
    hide ParseSav, GetUint, Ethernet.Parse, Quiet;
    var apduLen := GetUint(frame[offset + 2..offset + 4]);
    if 8 <= apduLen {
      var (pduEnd, ws) := Clip(offset + apduLen, |frame|);
      ClipQuiet(offset + apduLen, |frame|);
      if pduEnd > offset + 8 {
        var r := ParseSav(frame, offset + 8, pduEnd, EnvelopeOf(frame, h, offset));
        if r.Ok? {
          QuietParts(ws, r.value.warnings);
          LoudRejects(ws + r.value.warnings);
          assert [] + r.value.warnings == r.value.warnings;
        }
      }
    }
  }

  lemma LoudRejects(ws: seq<Warning>)
    ensures Rejects(ws) <==> !Quiet(ws)
  {
  }

  /** Live decoding takes exactly the frames of EtherType 0x88BA whose octets are cut into sound
      parts, and then yields one ASDU for each listed, saying what its octets say. */
  lemma TakesExactly(frame: bytes, h: Ethernet.Header, offset: nat)
    requires Ethernet.Parse(frame) == Some((h, offset))
    ensures Parse(frame).Ok? <==>
      h.etherType == 0x88BA && offset + 8 <= |frame| && exists p :: Sound(frame, offset, p)
    ensures forall p | Parse(frame).Ok? && Sound(frame, offset, p) ::
      offset + 8 <= |frame| && ListSays(frame, p.list, EnvelopeOf(frame, h, offset), Parse(frame).value)
  {
    hide ParseSav, Ethernet.Parse, Sound, ListSays;
    if h.etherType == 0x88BA && offset + 8 <= |frame| {
      FrameSteps(frame, h, offset);
      var pduEnd := offset + GetUint(frame[offset + 2..offset + 4]);
      var e := EnvelopeOf(frame, h, offset);
      forall p | Sound(frame, offset, p) ensures Parse(frame).Ok? && ListSays(frame, p.list, e, Parse(frame).value) {
        SoundBounds(frame, offset, p);
        SavExactly(frame, offset, pduEnd, e, p);
        hide Parse, GetUint;
      }
      if Parse(frame).Ok? {
        var p := SavCut(frame, offset, pduEnd, e);
      }
    } else {
      Foreign(frame, h, offset);
    }
    hide Parse, GetUint;
  }

  lemma SoundBounds(frame: bytes, offset: nat, p: Parts)
    requires Sound(frame, offset, p)
    ensures offset + 8 < offset + GetUint(frame[offset + 2..offset + 4]) <= |frame|
  {
    hide GetUint, Counted, AsduOk;
  }

  lemma Foreign(frame: bytes, h: Ethernet.Header, offset: nat)
    requires Ethernet.Parse(frame) == Some((h, offset)) && (h.etherType != 0x88BA || |frame| < offset + 8)
    ensures Parse(frame).Err?
  {
    hide Ethernet.Parse, ParseSav, GetUint;
  }
}
