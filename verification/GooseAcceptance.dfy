/** Which octets the GOOSE decoder takes, from whatever publisher, and what it makes of them. */
module GooseAcceptance {
  import opened Wrappers
  import opened Bytes
  import opened Ber
  import opened GooseData
  import opened GooseCodec
  import Ethernet
  import UtcTime

  // ----------------------------------------------------------- cutting the octets

  /** The field loop is cutting the octets and storing the pieces. */
  lemma {:induction false} ParseIsSplit(frame: bytes, offset: nat, end: nat, p: Pdu, seen: set<byte>)
    requires end <= |frame|
    ensures var fs, r := CutFields(frame, offset, end), ParseFields(frame, offset, end, p, seen);
      && (r.Ok? <==> fs.Some? && StoreAll(fs.value, p, seen).Ok?)
      && (r.Ok? ==> r == StoreAll(fs.value, p, seen))
    decreases end - offset
  {
    hide FieldStep, ParseLength;
    if offset < end {
      match ParseLength(frame, offset + 1)
      case None =>
      case Some((len, off)) =>
        if off + len <= end {
          var step := FieldStep(p, seen, frame[offset], frame[off..off + len]);
          if step.Ok? { ParseIsSplit(frame, off + len, end, step.value.0, step.value.1); }
        }
    }
  }

  // ------------------------------------------------------------ what a field says

  /** The contents have the form their tag asks for. */
  predicate FieldOk(f: Field) {
    match f.0
    case 0x84 => |f.1| == 8
    case 0x87 => |f.1| == 1
    case 0x89 => |f.1| == 1
    case 0xAB => ParseSeq(f.1).Ok?
    case _ => f.0 in {0x81, 0x85, 0x86, 0x88, 0x8A} ==> IsCounter(f.1)
  }

  /** The minimal encoding of a number of at most 32 bits. */
  predicate IsCounter(data: bytes) { exists v: nat | v < 0x1_0000_0000 :: data == MinimalUnsigned(v) }

  /** The PDU has the value a field carries; fields with unknown tags carry none. */
  predicate Carries(p: Pdu, f: Field) {
    match f.0
    case 0x80 => p.gocbRef == f.1
    case 0x81 => f.1 == MinimalUnsigned(p.timeAllowedToLiveMs)
    case 0x82 => p.datSet == f.1
    case 0x83 => p.goId == f.1
    case 0x84 => |f.1| == 8 && UtcTime.Decode(f.1) == (p.timestamp, p.timeQuality)
    case 0x85 => f.1 == MinimalUnsigned(p.stNum)
    case 0x86 => f.1 == MinimalUnsigned(p.sqNum)
    case 0x87 => |f.1| == 1 && p.test == (f.1[0] != 0)
    case 0x88 => f.1 == MinimalUnsigned(p.confRev)
    case 0x89 => |f.1| == 1 && p.ndsCom == (f.1[0] != 0)
    case 0x8A => f.1 == MinimalUnsigned(p.numDatSetEntries)
    case 0xAB => ParseSeq(f.1) == Ok(p.allData)
    case _ => true
  }

  /** Two PDUs have the same value for a tag. */
  predicate Same(p: Pdu, q: Pdu, tag: byte) {
    match tag
    case 0x80 => p.gocbRef == q.gocbRef
    case 0x81 => p.timeAllowedToLiveMs == q.timeAllowedToLiveMs
    case 0x82 => p.datSet == q.datSet
    case 0x83 => p.goId == q.goId
    case 0x84 => p.timestamp == q.timestamp && p.timeQuality == q.timeQuality
    case 0x85 => p.stNum == q.stNum
    case 0x86 => p.sqNum == q.sqNum
    case 0x87 => p.test == q.test
    case 0x88 => p.confRev == q.confRev
    case 0x89 => p.ndsCom == q.ndsCom
    case 0x8A => p.numDatSetEntries == q.numDatSetEntries
    case 0xAB => p.allData == q.allData
    case _ => true
  }

  predicate SameEnvelope(p: Pdu, q: Pdu) {
    && p.dstMac == q.dstMac && p.srcMac == q.srcMac && p.vlan == q.vlan
    && p.appId == q.appId && p.simulation == q.simulation
  }

  lemma CounterOk(data: bytes)
    ensures DecodeUnsigned(data, 4).Some? <==> IsCounter(data)
    ensures DecodeUnsigned(data, 4).Some? ==> data == MinimalUnsigned(DecodeUnsigned(data, 4).value)
  {
    Pow256Values();
    hide MinimalUnsigned, DecodeUnsigned;
    if DecodeUnsigned(data, 4).Some? { UnsignedBijection(data, 4, DecodeUnsigned(data, 4).value); }
    if v: nat :| v < 0x1_0000_0000 && data == MinimalUnsigned(v) { UnsignedBijection(data, 4, v); }
  }

  /** One field: it is stored exactly if its contents are well-formed, and changes its own value
      only. */
  lemma OneField(p: Pdu, f: Field)
    ensures var r := StoreField(p, f.0, f.1);
      && (r.Ok? <==> FieldOk(f))
      && (r.Ok? ==> Carries(r.value, f) && Changes(p, r.value, f.0))
  {
    if f.0 in {0x81, 0x85, 0x86, 0x88, 0x8A} {
      OneCounter(p, f);
      assert StoreField(p, f.0, f.1) == StoreCounter(p, f.0, f.1);
      hide StoreField, StoreCounter, FieldOk, Carries, Changes;
    } else {
      OneOther(p, f);
    }
  }

  predicate Changes(p: Pdu, q: Pdu, tag: byte) { SameEnvelope(p, q) && forall t | t != tag :: Same(p, q, t) }

  lemma OneCounter(p: Pdu, f: Field)
    requires f.0 in {0x81, 0x85, 0x86, 0x88, 0x8A}
    ensures var r := StoreCounter(p, f.0, f.1);
      && (r.Ok? <==> FieldOk(f))
      && (r.Ok? ==> Carries(r.value, f) && Changes(p, r.value, f.0))
  {
    CounterOk(f.1);
    hide MinimalUnsigned, DecodeUnsigned, IsCounter;
  }

  lemma OneOther(p: Pdu, f: Field)
    requires f.0 !in {0x81, 0x85, 0x86, 0x88, 0x8A}
    ensures var r := StoreField(p, f.0, f.1);
      && (r.Ok? <==> FieldOk(f))
      && (r.Ok? ==> Carries(r.value, f) && Changes(p, r.value, f.0))
  {
    hide MinimalUnsigned, StoreCounter, ParseSeq, UtcTime.Decode;
  }

  // ----------------------------------------------------------- storing the fields

  /** No field with a known tag comes twice, or again. */
  predicate Distinct(fs: seq<Field>, seen: set<byte>) {
    forall i | 0 <= i < |fs| && fs[i].0 in KNOWN ::
      fs[i].0 !in seen && forall j | 0 <= j < i :: fs[j].0 != fs[i].0
  }

  lemma DistinctSplit(fs: seq<Field>, seen: set<byte>)
    requires fs != []
    ensures var t := fs[0].0;
      Distinct(fs, seen) <==> (t in KNOWN ==> t !in seen) && Distinct(fs[1..], if t in KNOWN then seen + {t} else seen)
  {
    var t, rest := fs[0].0, fs[1..];
    var more := if t in KNOWN then seen + {t} else seen;
    if Distinct(fs, seen) {
      forall i | 0 <= i < |rest| && rest[i].0 in KNOWN
        ensures rest[i].0 !in more && forall j | 0 <= j < i :: rest[j].0 != rest[i].0
      {
        assert rest[i] == fs[i + 1] && fs[0].0 != fs[i + 1].0;
        assert forall j | 0 <= j < i :: rest[j] == fs[j + 1];
      }
    }
    if (t in KNOWN ==> t !in seen) && Distinct(rest, more) {
      forall i | 0 <= i < |fs| && fs[i].0 in KNOWN
        ensures fs[i].0 !in seen && forall j | 0 <= j < i :: fs[j].0 != fs[i].0
      {
        if i > 0 {
          assert rest[i - 1] == fs[i];
          assert forall j | 0 < j < i :: rest[j - 1] == fs[j];
        }
      }
    }
  }

  /** Storing a list of fields succeeds exactly if each is well-formed and none repeats a known
      tag; then the PDU carries each of them, and for every tag not among them what it had. */
  lemma {:induction false} StoresExactly(fs: seq<Field>, p: Pdu, seen: set<byte>)
    ensures var r := StoreAll(fs, p, seen);
      && (r.Ok? <==> Distinct(fs, seen) && forall f | f in fs :: FieldOk(f))
      && (r.Ok? ==> Stored(fs, p, seen, r.value.0, r.value.1))
  {
    hide StoreField, FieldOk, Carries, Same, Distinct;
    if fs == [] {
      NothingStored(p, seen);
    } else {
      DistinctSplit(fs, seen);
      OneField(p, fs[0]);
      assert forall f :: f in fs <==> f == fs[0] || f in fs[1..];
      var step := FieldStep(p, seen, fs[0].0, fs[0].1);
      if step.Ok? {
        var (q, s) := step.value;
        StoresExactly(fs[1..], q, s);
        var rest := StoreAll(fs[1..], q, s);
        if rest.Ok? { StoredMore(fs, p, seen, q, s, rest.value.0, rest.value.1); }
      }
    }
  }

  /** q is p with the fields stored, and these are the known tags seen by then. */
  predicate Stored(fs: seq<Field>, p: Pdu, seen: set<byte>, q: Pdu, s: set<byte>) {
    && (forall f | f in fs :: Carries(q, f))
    && (forall t | !HasTag(fs, t) :: Same(p, q, t))
    && (forall t :: t in s <==> t in seen || (t in KNOWN && HasTag(fs, t)))
    && SameEnvelope(p, q)
    && Distinct(fs, seen)
  }

  lemma NothingStored(p: Pdu, seen: set<byte>)
    ensures Distinct([], seen) && Stored([], p, seen, p, seen)
  {
  }

  lemma StoredMore(fs: seq<Field>, p: Pdu, seen: set<byte>, q: Pdu, s: set<byte>, r: Pdu, last: set<byte>)
    requires fs != [] && Stored(fs[1..], q, s, r, last) && Distinct(fs, seen)
    requires s == if fs[0].0 in KNOWN then seen + {fs[0].0} else seen
    requires Carries(q, fs[0]) && Changes(p, q, fs[0].0)
    ensures Stored(fs, p, seen, r, last)
  {
    var rest := fs[1..];
    hide Carries, Same, Distinct, HasTag;
    assert forall f :: f in fs <==> f == fs[0] || f in rest;
    forall t ensures HasTag(fs, t) <==> t == fs[0].0 || HasTag(rest, t) { TagSplit(fs, t); }
    if HasTag(rest, fs[0].0) {
      FirstAlone(fs, seen);
      Unknown(r, fs[0]);
    } else {
      CarriesSame(q, r, fs[0]);
    }
    forall t | !HasTag(fs, t) ensures Same(p, r, t) { SameChain(p, q, r, t); }
  }

  lemma TagSplit(fs: seq<Field>, t: byte)
    requires fs != []
    ensures HasTag(fs, t) <==> t == fs[0].0 || HasTag(fs[1..], t)
  {
    assert forall f :: f in fs <==> f == fs[0] || f in fs[1..];
  }

  lemma FirstAlone(fs: seq<Field>, seen: set<byte>)
    requires fs != [] && Distinct(fs, seen) && HasTag(fs[1..], fs[0].0)
    ensures fs[0].0 !in KNOWN
  {
    var rest := fs[1..];
    var i :| 0 <= i < |rest| && rest[i].0 == fs[0].0;
    assert rest[i] == fs[i + 1];
  }

  lemma Unknown(p: Pdu, f: Field)
    ensures f.0 !in KNOWN ==> Carries(p, f)
  {
  }

  lemma CarriesSame(p: Pdu, q: Pdu, f: Field)
    requires Carries(p, f) && Same(p, q, f.0)
    ensures Carries(q, f)
  {
  }

  lemma SameChain(p: Pdu, q: Pdu, r: Pdu, t: byte)
    requires Same(p, q, t) && Same(q, r, t)
    ensures Same(p, r, t)
  {
  }


  // -------------------------------------------------------------- the whole frame

  /** Behind the Ethernet header: an APDU header whose length ends a goosePDU, whose contents lie
      from start to end. */
  predicate Framed(frame: bytes, offset: nat, start: nat, end: nat) {
    && offset + 8 < end <= |frame|
    && GetUint(frame[offset + 2..offset + 4]) == end - offset
    && frame[offset + 8] == 0x61
    && start <= end && ParseLength(frame, offset + 9) == Some((end - start, start))
  }

  lemma FramedIsLocated(frame: bytes, offset: nat, start: nat, end: nat)
    requires offset + 8 <= |frame|
    ensures Framed(frame, offset, start, end) <==>
      Locate(frame, offset + 8, GetUint(frame[offset + 2..offset + 4])) == Ok((start, end))
  {
    hide ParseLength, GetUint;
  }

  /** What the fields of a GOOSE message have to be: all the required ones, which leaves out
      goID, test and ndsCom, none of the known ones twice, each of its form. */
  predicate Complete(fs: seq<Field>) {
    && (forall tag | tag in {0x80, 0x81, 0x82, 0x84, 0x85, 0x86, 0x88, 0x8A, 0xAB} :: HasTag(fs, tag))
    && Distinct(fs, {})
    && forall f | f in fs :: FieldOk(f)
  }

  /** The PDU says what the header and the fields say, and of an optional field that is missing
      that it is empty or false. */
  predicate Says(p: Pdu, h: Ethernet.Header, apduHeader: bytes, fs: seq<Field>)
    requires |apduHeader| == 8
  {
    && p.dstMac == h.dst && p.srcMac == h.src && p.vlan == h.vlan
    && p.appId == GetUint(apduHeader[0..2]) && p.simulation == (GetUint(apduHeader[4..6]) >= 0x8000)
    && (forall f | f in fs :: Carries(p, f))
    && (!HasTag(fs, 0x83) ==> p.goId == []) && (!HasTag(fs, 0x87) ==> !p.test) && (!HasTag(fs, 0x89) ==> !p.ndsCom)
  }

  /** Octets that are a GOOSE message with the given parts. */
  predicate Message(frame: bytes, h: Ethernet.Header, offset: nat, start: nat, end: nat, fs: seq<Field>) {
    && Ethernet.Parse(frame) == Some((h, offset)) && h.etherType == 0x88B8
    && offset + 8 <= |frame| && Framed(frame, offset, start, end)
    && CutFields(frame, start, end) == Some(fs)
  }

  /** The PDU at the start of the field loop. */
  function Empty(h: Ethernet.Header, frame: bytes, offset: nat): Pdu
    requires offset + 8 <= |frame|
  {
    EMPTY.(dstMac := h.dst, srcMac := h.src, vlan := h.vlan, appId := GetUint(frame[offset..offset + 2]),
           simulation := GetUint(frame[offset + 4..offset + 6]) >= 0x8000)
  }

  lemma ParseSteps(frame: bytes, h: Ethernet.Header, offset: nat, start: nat, end: nat)
    requires Ethernet.Parse(frame) == Some((h, offset)) && h.etherType == 0x88B8 && offset + 8 <= |frame|
    requires Framed(frame, offset, start, end)
    ensures var fields := ParseFields(frame, start, end, Empty(h, frame, offset), {});
      Parse(frame) == match fields
                      case Err(e) => Err(e)
                      case Ok((q, seen)) => Validate(q, seen)
  {
    FramedIsLocated(frame, offset, start, end);
    hide ParseFields, Validate, Framed, GetUint, Ethernet.Parse, Locate;
  }

  /** numDatSetEntries is the number of the data. */
  predicate CountsMatch(fs: seq<Field>) {
    forall f, g | f in fs && g in fs && f.0 == 0x8A && g.0 == 0xAB ::
      ParseSeq(g.1).Ok? && f.1 == MinimalUnsigned(|ParseSeq(g.1).value|)
  }

  /** A message is taken exactly if its fields are complete and the count is right; then the
      result says just what the octets say. */
  lemma TakesExactly(frame: bytes, h: Ethernet.Header, offset: nat, start: nat, end: nat, fs: seq<Field>)
    requires Message(frame, h, offset, start, end, fs)
    ensures Parse(frame).Ok? <==> Complete(fs) && CountsMatch(fs)
    ensures Parse(frame).Ok? ==> Says(Parse(frame).value, h, frame[offset..offset + 8], fs)
  {
    var b := Empty(h, frame, offset);
    ParseSteps(frame, h, offset, start, end);
    ParseIsSplit(frame, start, end, b, {});
    StoresExactly(fs, b, {});
    hide Parse, ParseFields, CutFields, StoreAll, Ethernet.Parse, Framed, FieldOk, Carries, Says, GetUint, Distinct,
      CountsMatch, HasTag;
    var stored := StoreAll(fs, b, {});
    if stored.Ok? {
      StoredSays(frame, h, offset, fs, stored.value.0, stored.value.1);
      if Complete(fs) { CountsAgree(stored.value.0, fs); }
    }
  }

  lemma CountsAgree(p: Pdu, fs: seq<Field>)
    requires HasTag(fs, 0x8A) && HasTag(fs, 0xAB) && forall f | f in fs :: Carries(p, f)
    ensures CountsMatch(fs) <==> p.numDatSetEntries == |p.allData|
  {
    hide MinimalUnsigned, ParseSeq;
    var f, g :| f in fs && g in fs && f.0 == 0x8A && g.0 == 0xAB;
    assert Carries(p, f) && Carries(p, g);
    MinimalUnsignedShape(p.numDatSetEntries);
    MinimalUnsignedShape(|p.allData|);
    hide Carries;
    if p.numDatSetEntries == |p.allData| {
      forall f, g | f in fs && g in fs && f.0 == 0x8A && g.0 == 0xAB
        ensures ParseSeq(g.1).Ok? && f.1 == MinimalUnsigned(|ParseSeq(g.1).value|)
      {
        CarriesCount(p, f, g);
      }
    }
  }

  lemma CarriesCount(p: Pdu, f: Field, g: Field)
    requires f.0 == 0x8A && g.0 == 0xAB && Carries(p, f) && Carries(p, g)
    ensures f.1 == MinimalUnsigned(p.numDatSetEntries) && ParseSeq(g.1) == Ok(p.allData)
  {
  }

  lemma StoredSays(frame: bytes, h: Ethernet.Header, offset: nat, fs: seq<Field>, q: Pdu, seen: set<byte>)
    requires offset + 8 <= |frame| && Stored(fs, Empty(h, frame, offset), {}, q, seen)
    ensures Says(q, h, frame[offset..offset + 8], fs)
    ensures REQUIRED <= seen <==>
      forall tag | tag in {0x80, 0x81, 0x82, 0x84, 0x85, 0x86, 0x88, 0x8A, 0xAB} :: HasTag(fs, tag)
  {
    hide Carries, GetUint;
    Inner(frame, offset, 0, 2);
    Inner(frame, offset, 4, 6);
  }

  lemma Inner(frame: bytes, offset: nat, i: nat, j: nat)
    requires i <= j <= 8 && offset + 8 <= |frame|
    ensures frame[offset..offset + 8][i..j] == frame[offset + i..offset + j]
  {
    var part, whole := frame[offset..offset + 8][i..j], frame[offset + i..offset + j];
    assert forall k | 0 <= k < |whole| :: part[k] == frame[offset..offset + 8][i + k] == whole[k];
  }

  /** Octets that are no message of any parts are refused. */
  lemma TakesMessages(frame: bytes)
    ensures Parse(frame).Ok? ==>
      exists h, offset, start, end, fs :: Message(frame, h, offset, start, end, fs)
  {
    if Parse(frame).Ok? {
      var (h, offset) := Ethernet.Parse(frame).value;
      assert offset + 8 <= |frame|;
      var located := Locate(frame, offset + 8, GetUint(frame[offset + 2..offset + 4]));
      var (start, end) := located.value;
      FramedIsLocated(frame, offset, start, end);
      ParseIsSplit(frame, start, end, Empty(h, frame, offset), {});
      hide ParseFields, Validate, GetUint, CutFields, Locate, Ethernet.Parse, Framed;
      assert Message(frame, h, offset, start, end, CutFields(frame, start, end).value);
    }
  }
}
