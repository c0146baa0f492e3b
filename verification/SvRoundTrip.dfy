/** What the decoders make of a frame the encoder wrote, for every list of ASDUs. */
module SvRoundTrip {
  import opened Wrappers
  import opened Bytes
  import opened Ber
  import opened SvCodec
  import Ethernet
  import UtcTime

  const ALL_TAGS: set<byte> := {0x80, 0x82, 0x83, 0x85, 0x87}

  /** What becomes of an ASDU on its way: its time loses what the wire cannot carry, and the
      receiver has it on record which fields came. */
  function Received(b: Body): Body
    requires Sized(b)
  {
    var timed := b.refrTm != UtcTime.ZERO;
    b.(refrTm := if timed then UtcTime.Quantise(b.refrTm) else UtcTime.ZERO,
       refrTmQ := if timed then b.refrTmQ.(accuracy := b.refrTmQ.accuracy % 0x20) else NO_QUALITY,
       seqData := Samples(b, 0),
       has := ALL_TAGS + (if timed then {0x84} else {}) + (if b.smpRate > 0 then {0x86} else {})
              + (if b.smpMod != 0 then {0x88} else {}))
  }

  /** Enumerations the decoder knows and an identifier to go by. */
  predicate Legal(b: Body) { b.svId != [] && b.smpSynch <= 2 && b.smpMod <= 2 }

  predicate ModesKnown(asdus: seq<Asdu>) {
    forall a | a in asdus :: a.body.smpMod <= 2
  }

  predicate AllLegal(asdus: seq<Asdu>) {
    forall a | a in asdus :: Legal(a.body)
  }

  // --------------------------------------------------------------- channels

  lemma Int32RoundTrip(v: int)
    requires -0x8000_0000 <= v < 0x8000_0000
    ensures GetInt32(PutInt32(v)) == v
  {
    hide PutUint, GetUint, FromUnsigned;
    SignedBack(v, 0x1_0000_0000);
    Word(v % 0x1_0000_0000);
  }

  lemma {:induction false} SamplesSlices(b: Body, ch: nat, k: nat)
    requires Sized(b) && k <= ch < NUM_CHANNELS
    ensures var s := Samples(b, k);
      && s[8 * (ch - k)..8 * (ch - k) + 4] == PutInt32(b.channels[ch])
      && s[8 * (ch - k) + 4..8 * (ch - k) + 8] == PutUint(b.quality[ch], 4)
    decreases ch - k
  {
    SamplesHead(b, k);
    hide *;
    if k < ch {
      SamplesSlices(b, ch, k + 1);
      SlicesBehind(Samples(b, k), 8 * (ch - k - 1));
    }
  }

  lemma SlicesBehind(s: bytes, o: nat)
    requires o + 16 <= |s|
    ensures s[8 + o..8 + o + 4] == s[8..][o..o + 4] && s[8 + o + 4..8 + o + 8] == s[8..][o + 4..o + 8]
  {
  }

  lemma SamplesHead(b: Body, k: nat)
    requires Sized(b) && k < NUM_CHANNELS
    ensures var s := Samples(b, k);
      s[0..4] == PutInt32(b.channels[k]) && s[4..8] == PutUint(b.quality[k], 4) && s[8..] == Samples(b, k + 1)
  {
    hide PutInt32, PutUint;
  }

  lemma ChannelsRoundTrip(b: Body)
    requires Typed(b)
    ensures |Samples(b, 0)| == SEQ_DATA_LEN
    ensures ChannelsOf(Samples(b, 0)) == b.channels && QualitiesOf(Samples(b, 0)) == b.quality
  {
    var data := Samples(b, 0);
    hide Samples, PutInt32, GetInt32, PutUint, GetUint;
    forall ch | 0 <= ch < NUM_CHANNELS
      ensures ChannelsOf(data)[ch] == b.channels[ch] && QualitiesOf(data)[ch] == b.quality[ch]
    {
      SamplesSlices(b, ch, 0);
      Int32RoundTrip(b.channels[ch]);
      Word(b.quality[ch]);
    }
  }

  // ----------------------------------------------------------------- fields

  /** A body under construction with the nth field of b stored. */
  function Stored(b: Body, n: nat, c: Body): Body
    requires n < FIELD_COUNT && Sized(b)
  {
    match n
    case 0 => c.(svId := b.svId, has := c.has + {0x80})
    case 1 => c.(datSet := b.datSet)
    case 2 => c.(smpCnt := b.smpCnt, has := c.has + {0x82})
    case 3 => c.(confRev := b.confRev, has := c.has + {0x83})
    case 4 => c.(refrTm := UtcTime.Quantise(b.refrTm),
                 refrTmQ := b.refrTmQ.(accuracy := b.refrTmQ.accuracy % 0x20), has := c.has + {0x84})
    case 5 => c.(smpSynch := b.smpSynch, has := c.has + {0x85})
    case 6 => c.(smpRate := b.smpRate, has := c.has + {0x86})
    case 7 => c.(seqData := Samples(b, 0), channels := b.channels, quality := b.quality, has := c.has + {0x87})
    case 8 => c.(smpMod := b.smpMod, has := c.has + {0x88})
  }

  function Notes(b: Body, n: nat): seq<Warning> {
    if n == 0 then WarnIf(b.svId == []) else if n == 5 then WarnIf(b.smpSynch > 2) else []
  }

  lemma FieldStores(b: Body, n: nat, c: Body)
    requires Typed(b) && n < FIELD_COUNT && Present(b, n)
    ensures StoreField(c, TagAt(n), ContentsAt(b, n)) ==
      if n == 8 && b.smpMod > 2 then Err(BadAsdu) else Ok((Stored(b, n, c), Notes(b, n)))
  {
    hide PutUint, GetUint, Samples, UtcTime.Encode, UtcTime.Decode, UtcTime.Quantise, ChannelsOf, QualitiesOf;
    match n {
      case 2 => FixedWidth(b.smpCnt);
      case 3 => FixedWidth(b.confRev);
      case 4 => UtcTime.RoundTrip(b.refrTm, b.refrTmQ);
      case 5 => OneOctet(b.smpSynch);
      case 6 => FixedWidth(b.smpRate);
      case 7 => ChannelsRoundTrip(b);
      case 8 => FixedWidth(b.smpMod);
      case _ =>
    }
  }

  lemma OneOctet(n: nat)
    requires n < 0x100
    ensures PutUint(n, 1) == [n]
    ensures [] + WarnIf(n > 2) == WarnIf(n > 2)
  {
    assert PutUint(n / 256, 0) == [];
  }

  /** The field loop over b's fields from the nth on. */
  function Outcome(b: Body, n: nat, c: Body, ws: seq<Warning>): Result<(Body, seq<Warning>), Error>
    requires Sized(b)
    decreases FIELD_COUNT - n
  {
    if n >= FIELD_COUNT then Ok((c, ws))
    else if !Present(b, n) then Outcome(b, n + 1, c, ws)
    else if n == 8 && b.smpMod > 2 then Err(BadAsdu)
    else Outcome(b, n + 1, Stored(b, n, c), ws + Notes(b, n))
  }

  /** Walking the octets of an ASDU's contents is storing its fields in turn. */
  lemma {:induction false} FieldsParse(frame: bytes, offset: nat, b: Body, n: nat, c: Body, ws: seq<Warning>)
    requires Typed(b) && At(frame, offset, Contents(b, n)) && |Contents(b, n)| < 0x100_0000
    ensures ParseFields(frame, offset, offset + |Contents(b, n)|, c, ws) == Outcome(b, n, c, ws)
    decreases FIELD_COUNT - n
  {
    hide StoreField, TLV, ParseLength, EncodeLength, Contents, ContentsAt, Stored, Notes, Typed;
    ContentsSplit(b, n);
    if n < FIELD_COUNT {
      if Present(b, n) {
        var tlv, data := TLV(TagAt(n), ContentsAt(b, n)), ContentsAt(b, n);
        AtSplit(frame, offset, tlv, Contents(b, n + 1));
        TlvSize(TagAt(n), data);
        TlvAt(frame, offset, TagAt(n), data);
        FieldStores(b, n, c);
        if !(n == 8 && b.smpMod > 2) {
          FieldsParse(frame, offset + |tlv|, b, n + 1, Stored(b, n, c), ws + Notes(b, n));
        }
      } else {
        FieldsParse(frame, offset, b, n + 1, c, ws);
      }
    }
  }

  function StoredIfPresent(b: Body, n: nat, c: Body): Body
    requires n < FIELD_COUNT && Sized(b)
  {
    if Present(b, n) then Stored(b, n, c) else c
  }

  lemma OutcomeSteps(b: Body, n: nat, c: Body, ws: seq<Warning>)
    requires Sized(b) && n < FIELD_COUNT && (n == 8 ==> b.smpMod <= 2)
    ensures Outcome(b, n, c, ws) == Outcome(b, n + 1, StoredIfPresent(b, n, c), ws + Notes(b, n))
  {
    hide Stored;
    if !Present(b, n) { assert ws + [] == ws; }
  }

  lemma BodyWarnings(b: Body)
    ensures [] + Notes(b, 0) + Notes(b, 1) + Notes(b, 2) + Notes(b, 3) + Notes(b, 4) + Notes(b, 5) + Notes(b, 6)
      + Notes(b, 7) == BodyNotes(b)
  {
  }

  /** The fields stored in turn into an empty body. */
  lemma AllStored(b: Body)
    requires Typed(b)
    ensures var s := (n: nat, c: Body) requires n < FIELD_COUNT => StoredIfPresent(b, n, c);
      s(8, s(7, s(6, s(5, s(4, s(3, s(2, s(1, s(0, EMPTY))))))))) == Received(b)
  {
    hide Samples, UtcTime.Quantise;
    var s := (n: nat, c: Body) requires n < FIELD_COUNT => StoredIfPresent(b, n, c);
    var c2 := s(2, s(1, s(0, EMPTY)));
    assert c2 == EMPTY.(svId := b.svId, datSet := b.datSet, smpCnt := b.smpCnt, has := {0x80, 0x82});
    var timed := b.refrTm != UtcTime.ZERO;
    var c5 := c2.(confRev := b.confRev, refrTm := Received(b).refrTm, refrTmQ := Received(b).refrTmQ,
      smpSynch := b.smpSynch, has := {0x80, 0x82, 0x83, 0x85} + if timed then {0x84} else {});
    StoredMiddle(b, c2);
    assert s(8, s(7, s(6, c5))).has == Received(b).has;
  }

  function BodyNotes(b: Body): seq<Warning> { WarnIf(b.svId == []) + WarnIf(b.smpSynch > 2) }

  /** One ASDU: refused for a sampling mode it should not have, otherwise as sent, with a
      warning for an empty identifier and one for an unknown synchronisation source. */
  function BodyOutcome(b: Body): Result<(Body, seq<Warning>), Error>
    requires Sized(b)
  {
    if b.smpMod > 2 then Err(BadAsdu) else Ok((Received(b), BodyNotes(b)))
  }

  lemma StoredMiddle(b: Body, c: Body)
    requires Sized(b) && c.has == {0x80, 0x82} && c.refrTm == UtcTime.ZERO && c.refrTmQ == NO_QUALITY
    ensures StoredIfPresent(b, 5, StoredIfPresent(b, 4, StoredIfPresent(b, 3, c))) ==
      c.(confRev := b.confRev, refrTm := Received(b).refrTm, refrTmQ := Received(b).refrTmQ,
         smpSynch := b.smpSynch,
         has := {0x80, 0x82, 0x83, 0x85} + if b.refrTm != UtcTime.ZERO then {0x84} else {})
  {
    hide Samples, UtcTime.Quantise;
  }

  lemma OutcomeIs(b: Body)
    requires Typed(b)
    ensures Outcome(b, 0, EMPTY, []) == BodyOutcome(b)
  {
    AllStored(b);
    BodyWarnings(b);
    hide Outcome, StoredIfPresent, Notes, Received, Typed;
    var c, ws := EMPTY, [];
    c, ws := OutcomeUpTo8(b);
    if b.smpMod <= 2 { OutcomeSteps(b, 8, c, ws); }
    OutcomeEnds(b, c, ws);
  }

  lemma OutcomeUpTo8(b: Body) returns (c: Body, ws: seq<Warning>)
    requires Sized(b)
    ensures Outcome(b, 0, EMPTY, []) == Outcome(b, 8, c, ws)
    ensures var s := (n: nat, c: Body) requires n < FIELD_COUNT => StoredIfPresent(b, n, c);
      c == s(7, s(6, s(5, s(4, s(3, s(2, s(1, s(0, EMPTY))))))))
    ensures ws == [] + Notes(b, 0) + Notes(b, 1) + Notes(b, 2) + Notes(b, 3) + Notes(b, 4) + Notes(b, 5)
      + Notes(b, 6) + Notes(b, 7)
  {
    hide Outcome, StoredIfPresent, Notes;
    c, ws := EMPTY, [];
    OutcomeSteps(b, 0, c, ws);
    c, ws := StoredIfPresent(b, 0, c), ws + Notes(b, 0);
    OutcomeSteps(b, 1, c, ws);
    c, ws := StoredIfPresent(b, 1, c), ws + Notes(b, 1);
    OutcomeSteps(b, 2, c, ws);
    c, ws := StoredIfPresent(b, 2, c), ws + Notes(b, 2);
    OutcomeSteps(b, 3, c, ws);
    c, ws := StoredIfPresent(b, 3, c), ws + Notes(b, 3);
    OutcomeSteps(b, 4, c, ws);
    c, ws := StoredIfPresent(b, 4, c), ws + Notes(b, 4);
    OutcomeSteps(b, 5, c, ws);
    c, ws := StoredIfPresent(b, 5, c), ws + Notes(b, 5);
    OutcomeSteps(b, 6, c, ws);
    c, ws := StoredIfPresent(b, 6, c), ws + Notes(b, 6);
    OutcomeSteps(b, 7, c, ws);
    c, ws := StoredIfPresent(b, 7, c), ws + Notes(b, 7);
  }

  lemma OutcomeEnds(b: Body, c: Body, ws: seq<Warning>)
    requires Sized(b)
    ensures b.smpMod > 2 ==> Outcome(b, 8, c, ws) == Err(BadAsdu)
    ensures Outcome(b, 9, StoredIfPresent(b, 8, c), ws + Notes(b, 8))
      == Ok((StoredIfPresent(b, 8, c), ws))
  {
    assert ws + [] == ws;
  }

  lemma AsduParses(frame: bytes, offset: nat, b: Body)
    requires Typed(b) && At(frame, offset, Contents(b, 0)) && |Contents(b, 0)| < 0x100_0000
    ensures ParseAsdu(frame, offset, offset + |Contents(b, 0)|) == BodyOutcome(b)
  {
    hide *;
    FieldsParse(frame, offset, b, 0, EMPTY, []);
    OutcomeIs(b);
    AtWithin(frame, offset, Contents(b, 0));
    OutcomeChecked(b, frame, offset, |Contents(b, 0)|);
  }

  lemma OutcomeChecked(b: Body, frame: bytes, offset: nat, length: nat)
    requires Sized(b) && offset + length <= |frame|
    requires ParseFields(frame, offset, offset + length, EMPTY, []) == BodyOutcome(b)
    ensures ParseAsdu(frame, offset, offset + length) == BodyOutcome(b)
  {
    NothingMissing(b, BodyNotes(b));
    hide ParseFields, Received, Checked, BodyNotes, EMPTY;
  }

  lemma NothingMissing(b: Body, ws: seq<Warning>)
    requires Sized(b)
    ensures Checked(Received(b), ws) == ws
  {
    hide Samples;
    var has := Received(b).has;
    assert Missing(has, MANDATORY[5..]) == [];
    assert MANDATORY[4..][1..] == MANDATORY[5..] && Missing(has, MANDATORY[4..]) == [];
    assert MANDATORY[3..][1..] == MANDATORY[4..] && Missing(has, MANDATORY[3..]) == [];
    assert MANDATORY[2..][1..] == MANDATORY[3..] && Missing(has, MANDATORY[2..]) == [];
    assert MANDATORY[1..][1..] == MANDATORY[2..] && Missing(has, MANDATORY[1..]) == [];
  }

  // ------------------------------------------------------------------- lists

  function ReceivedAll(e: Envelope, asdus: seq<Asdu>): (r: seq<Asdu>)
    requires AllTyped(asdus)
    ensures |r| == |asdus|
  {
    if asdus == [] then []
    else
      assert asdus == [asdus[0]] + asdus[1..];
      [Asdu(e, Received(asdus[0].body))] + ReceivedAll(e, asdus[1..])
  }

  /** The warnings about the ASDUs, numbered from k. */
  function AllNotes(asdus: seq<Asdu>, k: nat): seq<Warning> {
    if asdus == [] then [] else Scoped(BodyNotes(asdus[0].body), k) + AllNotes(asdus[1..], k + 1)
  }

  /** What the list loop returns for the ASDUs still to come. */
  function ListOutcome(e: Envelope, rest: seq<Asdu>, done: seq<Asdu>, ws: seq<Warning>)
    : Result<(seq<Asdu>, seq<Warning>), Error>
    requires AllTyped(rest)
  {
    if ModesKnown(rest) then Ok((done + ReceivedAll(e, rest), ws + AllNotes(rest, |done|))) else Err(BadAsdu)
  }

  lemma {:induction false} AsdusParse(frame: bytes, offset: nat, e: Envelope, rest: seq<Asdu>, done: seq<Asdu>,
                                      ws: seq<Warning>)
    requires AllTyped(rest) && At(frame, offset, EncodeAsdus(rest)) && |EncodeAsdus(rest)| < 0x100_0000
    ensures ParseAsdus(frame, offset, offset + |EncodeAsdus(rest)|, e, done, ws) == ListOutcome(e, rest, done, ws)
    decreases |rest|
  {
    hide *;
    var end := offset + |EncodeAsdus(rest)|;
    AtWithin(frame, offset, EncodeAsdus(rest));
    if rest == [] {
      ListEnds(frame, offset, e, done, ws);
    } else {
      var b, tail := rest[0].body, rest[1..];
      HeadTyped(rest);
      AsduFrame(frame, offset, rest);
      ListSteps(e, rest, done, ws);
      var len := |Contents(b, 0)|;
      var off := offset + 1 + |EncodeLength(len)|;
      LoopTurn(frame, offset, end, e, done, ws, len, off);
      OutcomeCases(b);
      if b.smpMod <= 2 {
        AsdusParse(frame, offset + |EncodeAsdu(b)|, e, tail, done + [Asdu(e, Received(b))],
                   ws + [] + Scoped(BodyNotes(b), |done|));
      }
    }
  }

  lemma OutcomeCases(b: Body)
    requires Sized(b)
    ensures b.smpMod > 2 ==> BodyOutcome(b) == Err(BadAsdu)
    ensures b.smpMod <= 2 ==> BodyOutcome(b) == Ok((Received(b), BodyNotes(b)))
  {
    hide Received, BodyNotes;
  }

  /** One turn of the list loop. */
  lemma LoopTurn(frame: bytes, offset: nat, end: nat, e: Envelope, done: seq<Asdu>,
                                    ws: seq<Warning>, len: nat, off: nat)
    requires offset < end <= |frame| && frame[offset] == 0x30 && off + len <= end
    requires ParseLength(frame, offset + 1) == Some((len, off))
    ensures ParseAsdus(frame, offset, end, e, done, ws) ==
      match ParseAsdu(frame, off, off + len)
      case Err(error) => Err(error)
      case Ok((b, more)) =>
        ParseAsdus(frame, off + len, end, e, done + [Asdu(e, b)], ws + [] + Scoped(more, |done|))
  {
    hide ParseAsdu, ParseLength, Scoped;
  }

  lemma HeadTyped(asdus: seq<Asdu>)
    requires AllTyped(asdus) && asdus != []
    ensures Typed(asdus[0].body) && AllTyped(asdus[1..])
    ensures EncodeAsdus(asdus) == EncodeAsdu(asdus[0].body) + EncodeAsdus(asdus[1..])
  {
    hide Typed, EncodeAsdu;
    assert asdus == [asdus[0]] + asdus[1..];
  }

  /** The first ASDU of a list in its place in the frame. */
  lemma AsduFrame(frame: bytes, offset: nat, asdus: seq<Asdu>)
    requires AllTyped(asdus) && asdus != []
    requires At(frame, offset, EncodeAsdus(asdus)) && |EncodeAsdus(asdus)| < 0x100_0000
    ensures offset < |frame| && frame[offset] == 0x30
    ensures Typed(asdus[0].body) && AllTyped(asdus[1..])
    ensures var b := asdus[0].body;
      var off := offset + 1 + |EncodeLength(|Contents(b, 0)|)|;
      && ParseLength(frame, offset + 1) == Some((|Contents(b, 0)|, off))
      && off + |Contents(b, 0)| == offset + |EncodeAsdu(b)| <= offset + |EncodeAsdus(asdus)| <= |frame|
      && ParseAsdu(frame, off, off + |Contents(b, 0)|) == BodyOutcome(b)
      && At(frame, offset + |EncodeAsdu(b)|, EncodeAsdus(asdus[1..]))
  {
    hide *;
    HeadTyped(asdus);
    var b := asdus[0].body;
    AsduTlv(b);
    AtWithin(frame, offset, EncodeAsdus(asdus));
    AtSplit(frame, offset, EncodeAsdu(b), EncodeAsdus(asdus[1..]));
    TlvSize(0x30, Contents(b, 0));
    TlvAt(frame, offset, 0x30, Contents(b, 0));
    AsduParses(frame, offset + 1 + |EncodeLength(|Contents(b, 0)|)|, b);
  }

  lemma AtWithin(frame: bytes, offset: nat, part: bytes)
    requires At(frame, offset, part)
    ensures offset + |part| <= |frame|
  {
  }

  lemma ListEnds(frame: bytes, offset: nat, e: Envelope, done: seq<Asdu>, ws: seq<Warning>)
    requires offset <= |frame|
    ensures EncodeAsdus([]) == []
    ensures ParseAsdus(frame, offset, offset, e, done, ws) == ListOutcome(e, [], done, ws)
  {
    assert done + [] == done && ws + [] == ws;
  }

  lemma ListSteps(e: Envelope, rest: seq<Asdu>, done: seq<Asdu>, ws: seq<Warning>)
    requires AllTyped(rest) && rest != []
    ensures AllTyped(rest[1..]) && Typed(rest[0].body)
    ensures var b := rest[0].body;
      ListOutcome(e, rest, done, ws) ==
        if b.smpMod > 2 then Err(BadAsdu)
        else ListOutcome(e, rest[1..], done + [Asdu(e, Received(b))], ws + [] + Scoped(BodyNotes(b), |done|))
  {
    HeadTyped(rest);
    HeadMode(rest);
    var b := rest[0].body;
    hide Received, Scoped, BodyNotes, Typed, AllTyped, ModesKnown;
    Grouped(done, [Asdu(e, Received(b))], ReceivedAll(e, rest[1..]));
    Grouped(ws, Scoped(BodyNotes(b), |done|), AllNotes(rest[1..], |done| + 1));
    assert ws + [] == ws;
  }

  lemma HeadMode(asdus: seq<Asdu>)
    requires asdus != []
    ensures ModesKnown(asdus) <==> asdus[0].body.smpMod <= 2 && ModesKnown(asdus[1..])
  {
    assert asdus == [asdus[0]] + asdus[1..];
  }

  /** The warnings keep the frame from live use exactly when an identifier is empty or a
      synchronisation source unknown. */
  lemma {:induction false} NotesReject(asdus: seq<Asdu>, k: nat)
    ensures Rejects(AllNotes(asdus, k)) <==> !Identified(asdus)
  {
    if asdus != [] {
      NotesReject(asdus[1..], k + 1);
      RejectsSplit(Scoped(BodyNotes(asdus[0].body), k), AllNotes(asdus[1..], k + 1));
      FirstNotes(asdus[0].body, k);
      HeadIdentified(asdus);
      hide Rejects, Scoped, BodyNotes, Identified;
    }
  }

  predicate Identified(asdus: seq<Asdu>) {
    forall a | a in asdus :: a.body.svId != [] && a.body.smpSynch <= 2
  }

  lemma HeadIdentified(asdus: seq<Asdu>)
    requires asdus != []
    ensures Identified(asdus) <==>
      asdus[0].body.svId != [] && asdus[0].body.smpSynch <= 2 && Identified(asdus[1..])
  {
    assert asdus == [asdus[0]] + asdus[1..];
  }

  lemma FirstNotes(b: Body, k: nat)
    ensures Rejects(Scoped(BodyNotes(b), k)) <==> b.svId == [] || b.smpSynch > 2
  {
    var ws := BodyNotes(b);
    assert |ws| > 0 <==> b.svId == [] || b.smpSynch > 2;
    if |ws| > 0 { assert Scoped(ws, k)[0].rejectLive; }
  }

  lemma RejectsSplit(a: seq<Warning>, b: seq<Warning>)
    ensures Rejects(a + b) <==> Rejects(a) || Rejects(b)
  {
    if Rejects(a) {
      var i :| 0 <= i < |a| && a[i].rejectLive;
      assert (a + b)[i].rejectLive;
    }
    if Rejects(b) {
      var i :| 0 <= i < |b| && b[i].rejectLive;
      assert (a + b)[|a| + i].rejectLive;
    }
    if Rejects(a + b) {
      var i :| 0 <= i < |a + b| && (a + b)[i].rejectLive;
      assert if i < |a| then a[i].rejectLive else b[i - |a|].rejectLive;
    }
  }

  // ------------------------------------------------------------------ frames

  /** The envelope in which every ASDU of a frame arrives: that of the first. */
  function Sent(asdus: seq<Asdu>): Envelope
    requires AllTyped(asdus) && asdus != []
  {
    var e := asdus[0].envelope;
    e.(apduLength := |Apdu(asdus)|, reserved1 := if e.simulation then 0x8000 else 0, reserved2 := 0)
  }

  function FrameOutcome(e: Envelope, asdus: seq<Asdu>): Result<Decoded, Error>
    requires AllTyped(asdus)
  {
    if ModesKnown(asdus) then
      Ok(Decoded(ReceivedAll(e, asdus), AllNotes(asdus, 0), false, ETHER_TYPE, |asdus|, |asdus|))
    else Err(BadAsdu)
  }

  lemma {:induction false} CountBound(asdus: seq<Asdu>)
    requires AllTyped(asdus)
    ensures |asdus| <= |EncodeAsdus(asdus)|
  {
    if asdus != [] {
      HeadTyped(asdus);
      CountBound(asdus[1..]);
      hide EncodeAsdus, Typed, AllTyped;
    }
  }

  lemma CountParses(frame: bytes, offset: nat, savEnd: nat, n: nat)
    requires n < 0x1_0000 && At(frame, offset, CountTlv(n)) && offset + |CountTlv(n)| <= savEnd <= |frame|
    ensures ParseCount(frame, offset, savEnd) == Ok((n, offset + |CountTlv(n)|, []))
  {
    var data := PutUint(n, UintSize(n));
    FixedWidth(n);
    hide PutUint, GetUint, ParseLength, EncodeLength, TLV, At;
    TlvSize(0x80, data);
    TlvAt(frame, offset, 0x80, data);
    var off := offset + 1 + |EncodeLength(|data|)|;
    AtSlice(frame, off, data);
  }

  lemma AtSlice(frame: bytes, offset: nat, part: bytes)
    requires At(frame, offset, part)
    ensures offset + |part| <= |frame| && frame[offset..offset + |part|] == part
  {
  }

  lemma SavParses(frame: bytes, offset: nat, e: Envelope, asdus: seq<Asdu>)
    requires AllTyped(asdus) && At(frame, offset, SavPdu(asdus)) && |SavPdu(asdus)| < 0x1_0000
    ensures 0 < |SavPdu(asdus)| && offset + |SavPdu(asdus)| <= |frame|
    ensures ParseSav(frame, offset, offset + |SavPdu(asdus)|, e) == FrameOutcome(e, asdus)
  {
    hide *;
    var start := SavPlaces(frame, offset, asdus);
    var list := start + |CountTlv(|asdus|)|;
    ListParses(frame, list, e, asdus);
    CountBound(asdus);
    var size := |EncodeAsdus(asdus)|;
    var first := list + 1 + |EncodeLength(size)|;
    CountParses(frame, start, first + size, |asdus|);
    SavAssembled(frame, offset, start, list, first, size, e, asdus);
  }

  lemma SavPlaces(frame: bytes, offset: nat, asdus: seq<Asdu>) returns (start: nat)
    requires AllTyped(asdus) && At(frame, offset, SavPdu(asdus)) && |SavPdu(asdus)| < 0x1_0000
    ensures var count, list := CountTlv(|asdus|), TLV(0xA2, EncodeAsdus(asdus));
      && offset < start && start + |count| + |list| == offset + |SavPdu(asdus)| <= |frame|
      && frame[offset] == 0x60 && ParseLength(frame, offset + 1) == Some((|count| + |list|, start))
      && At(frame, start, count) && At(frame, start + |count|, list) && |list| < 0x1_0000
  {
    hide *;
    var count, list := CountTlv(|asdus|), TLV(0xA2, EncodeAsdus(asdus));
    SavShape(asdus);
    AtWithin(frame, offset, SavPdu(asdus));
    TlvSize(0x60, count + list);
    TlvAt(frame, offset, 0x60, count + list);
    start := offset + 1 + |EncodeLength(|count + list|)|;
    AtSplit(frame, start, count, list);
  }

  /** The list of ASDUs in its element. */
  lemma ListParses(frame: bytes, offset: nat, e: Envelope, asdus: seq<Asdu>)
    requires AllTyped(asdus) && At(frame, offset, TLV(0xA2, EncodeAsdus(asdus)))
    requires |TLV(0xA2, EncodeAsdus(asdus))| < 0x1_0000
    ensures |EncodeAsdus(asdus)| < 0x1_0000
    ensures var size := |EncodeAsdus(asdus)|;
      var first := offset + 1 + |EncodeLength(size)|;
      && first + size == offset + |TLV(0xA2, EncodeAsdus(asdus))| <= |frame|
      && frame[offset] == 0xA2 && ParseLength(frame, offset + 1) == Some((size, first))
      && ParseAsdus(frame, first, first + size, e, [], []) == ListOutcome(e, asdus, [], [])
  {
    hide *;
    AtWithin(frame, offset, TLV(0xA2, EncodeAsdus(asdus)));
    TlvSize(0xA2, EncodeAsdus(asdus));
    TlvAt(frame, offset, 0xA2, EncodeAsdus(asdus));
    AsdusParse(frame, offset + 1 + |EncodeLength(|EncodeAsdus(asdus)|)|, e, asdus, [], []);
  }

  lemma SavShape(asdus: seq<Asdu>)
    requires AllTyped(asdus)
    ensures SavPdu(asdus) == TLV(0x60, CountTlv(|asdus|) + TLV(0xA2, EncodeAsdus(asdus)))
    ensures 2 <= |CountTlv(|asdus|)|
  {
    hide EncodeAsdus, AllTyped;
  }

  lemma SavAssembled(frame: bytes, offset: nat, start: nat, list: nat, first: nat, size: nat,
                                        e: Envelope, asdus: seq<Asdu>)
    requires AllTyped(asdus) && offset < start <= list < first <= first + size <= |frame|
    requires frame[offset] == 0x60 && ParseLength(frame, offset + 1) == Some((first + size - start, start))
    requires ParseCount(frame, start, first + size) == Ok((|asdus|, list, []))
    requires frame[list] == 0xA2 && ParseLength(frame, list + 1) == Some((size, first))
    requires ParseAsdus(frame, first, first + size, e, [], []) == ListOutcome(e, asdus, [], [])
    ensures ParseSav(frame, offset, first + size, e) == FrameOutcome(e, asdus)
  {
    hide ParseLength, ParseCount, ParseAsdus, ReceivedAll, AllNotes, ModesKnown, AllTyped;
    var all := AllNotes(asdus, 0);
    assert [] + all == all && [] + ReceivedAll(e, asdus) == ReceivedAll(e, asdus);
    assert all + WarnIf(false) == all;
    var none: seq<Warning> := [];
    assert none + none + none == none;
  }

  /** The tolerant decoder reads back the ASDUs of every frame that was sent, whatever padding
      the medium adds. */
  lemma FrameParses(asdus: seq<Asdu>, padding: bytes)
    requires AllTyped(asdus) && asdus != [] && Fits(asdus)
    requires Ethernet.ValidHeader(Header(asdus[0].envelope)) && asdus[0].envelope.appId < 0x1_0000
    ensures ParseFrame(Frame(asdus) + padding) == FrameOutcome(Sent(asdus), asdus)
  {
    hide *;
    var h, eth, apdu := Header(asdus[0].envelope), Ethernet.Encode(Header(asdus[0].envelope)), Apdu(asdus);
    FrameShape(asdus);
    Grouped(eth, apdu, padding);
    Ethernet.HeaderRoundTrip(h, apdu + padding);
    ApduParts(asdus, eth, padding);
    SavParses(eth + apdu + padding, |eth| + 8, Sent(asdus), asdus);
    FrameAssembled(eth + apdu + padding, |eth|, asdus);
  }

  lemma FrameShape(asdus: seq<Asdu>)
    requires AllTyped(asdus) && Fits(asdus)
    ensures Frame(asdus) == Ethernet.Encode(Header(asdus[0].envelope)) + Apdu(asdus)
    ensures |Apdu(asdus)| == 8 + |SavPdu(asdus)| < 0x1_0000
  {
    hide SavPdu, Ethernet.Encode, AllTyped;
  }

  lemma ApduParts(asdus: seq<Asdu>, eth: bytes, padding: bytes)
    requires AllTyped(asdus) && asdus != [] && Fits(asdus) && asdus[0].envelope.appId < 0x1_0000
    ensures var frame, o := eth + Apdu(asdus) + padding, |eth|;
      var e := Sent(asdus);
      && |frame| >= o + 8
      && GetUint(frame[o..o + 2]) == e.appId && GetUint(frame[o + 2..o + 4]) == e.apduLength
      && GetUint(frame[o + 4..o + 6]) == e.reserved1 && GetUint(frame[o + 6..o + 8]) == e.reserved2
      && At(frame, o + 8, SavPdu(asdus))
  {
    hide *;
    ApduShape(asdus);
    var e := asdus[0].envelope;
    var w := Ethernet.ApduHeader(e.appId, 8 + |SavPdu(asdus)|, e.simulation);
    Ethernet.HeaderFields(e.appId, 8 + |SavPdu(asdus)|, e.simulation);
    Ethernet.Words(eth, w, SavPdu(asdus), padding);
    IsAt(eth + Apdu(asdus) + padding, |eth| + 8, SavPdu(asdus));
  }

  lemma IsAt(data: bytes, offset: nat, part: bytes)
    requires offset + |part| <= |data| && data[offset..offset + |part|] == part
    ensures At(data, offset, part)
  {
  }

  lemma ApduShape(asdus: seq<Asdu>)
    requires AllTyped(asdus) && Fits(asdus)
    ensures var e := asdus[0].envelope;
      && Apdu(asdus) == Ethernet.ApduHeader(e.appId, 8 + |SavPdu(asdus)|, e.simulation) + SavPdu(asdus)
      && 8 + |SavPdu(asdus)| == |Apdu(asdus)| < 0x1_0000
      && Sent(asdus) == e.(apduLength := |Apdu(asdus)|, reserved1 := if e.simulation then 0x8000 else 0,
                           reserved2 := 0)
  {
    hide SavPdu, Ethernet.ApduHeader, AllTyped;
  }

  lemma FrameAssembled(frame: bytes, o: nat, asdus: seq<Asdu>)
    requires AllTyped(asdus) && Fits(asdus) && |SavPdu(asdus)| > 0
    requires Ethernet.Parse(frame) == Some((Header(asdus[0].envelope), o)) && o + |Apdu(asdus)| <= |frame|
    requires |Apdu(asdus)| == 8 + |SavPdu(asdus)|
    requires var e := Sent(asdus);
      && GetUint(frame[o..o + 2]) == e.appId && GetUint(frame[o + 2..o + 4]) == e.apduLength
      && GetUint(frame[o + 4..o + 6]) == e.reserved1 && GetUint(frame[o + 6..o + 8]) == e.reserved2
      && ParseSav(frame, o + 8, o + 8 + |SavPdu(asdus)|, e) == FrameOutcome(e, asdus)
    ensures ParseFrame(frame) == FrameOutcome(Sent(asdus), asdus)
  {
    hide SavPdu, ParseSav, AllTyped, GetUint, Ethernet.Parse, ReceivedAll, AllNotes, ModesKnown, Apdu;
    var notes := AllNotes(asdus, 0);
    assert [] + notes == notes;
  }

  /** The live decoder returns exactly what was sent if and only if every ASDU is identified
      and legal, and otherwise refuses the frame. */
  lemma LiveRoundTrip(asdus: seq<Asdu>, padding: bytes)
    requires AllTyped(asdus) && Fits(asdus)
    requires Ethernet.ValidHeader(Header(asdus[0].envelope)) && asdus[0].envelope.appId < 0x1_0000
    ensures AllLegal(asdus) ==> Parse(Frame(asdus) + padding) == Ok(ReceivedAll(Sent(asdus), asdus))
    ensures !AllLegal(asdus) ==> Parse(Frame(asdus) + padding).Err?
  {
    FrameParses(asdus, padding);
    NotesReject(asdus, 0);
    LegalParts(asdus);
    hide Frame, ParseFrame, AllTyped, Fits, ReceivedAll, AllNotes, Rejects, ModesKnown, Identified, AllLegal, Sent;
  }

  lemma LegalParts(asdus: seq<Asdu>)
    ensures AllLegal(asdus) <==> ModesKnown(asdus) && Identified(asdus)
  {
  }
}
