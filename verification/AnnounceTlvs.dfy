/** The TLVs behind an Announce body: the C37.238 profile in both of its versions and the
    alternate time offset (IEEE 1588-2008, sections 14.3 and 16.3). */
module AnnounceTlvs {
  import opened Wrappers
  import opened Bytes
  import opened PtpWire
  import Ber
  import Ethernet

  const ORGANIZATION_EXTENSION: nat := 0x0003
  const ALTERNATE_TIME_OFFSET: nat := 0x0009
  const C37238_ORG_ID: bytes := [0x1C, 0x12, 0x9D]
  const SUBTYPE_2011: bytes := [0x00, 0x00, 0x01]
  const SUBTYPE_2017: bytes := [0x00, 0x00, 0x02]

  datatype C37238 =
    | Version2011(grandmasterId: nat, grandmasterInaccuracy: nat, networkInaccuracy: nat, reserved: nat)
    | Version2017(grandmasterId: nat, reserved: nat, totalInaccuracy: nat, reserved2: nat)

  datatype Alternate = Alternate(
    keyField: nat, currentOffset: int, jumpSeconds: int, timeOfNextJump: nat, displayName: bytes)

  datatype Tlvs = Tlvs(profile: Option<C37238>, alternate: Option<Alternate>)

  /** A TLV as it lies on the wire. */
  datatype Tlv = Tlv(kind: nat, value: bytes)

  predicate WellFormed(t: Tlv) { t.kind < 0x1_0000 && |t.value| < 0x1_0000 }

  function TlvBytes(t: Tlv): (r: bytes)
    ensures |r| == 4 + |t.value|
  {
    PutUint(t.kind, 2) + PutUint(|t.value|, 2) + t.value
  }

  function TlvsBytes(ts: seq<Tlv>): bytes {
    if ts == [] then [] else TlvBytes(ts[0]) + TlvsBytes(ts[1..])
  }

  // ----------------------------------------------------------------- encoder

  predicate ValidProfile(p: C37238) {
    match p
    case Version2011(id, gm, net, reserved) =>
      id < 0x1_0000 && gm < 0x1_0000_0000 && net < 0x1_0000_0000 && reserved < 0x1_0000
    case Version2017(id, reserved, total, reserved2) =>
      id < 0x1_0000 && reserved < 0x1_0000_0000 && total < 0x1_0000_0000 && reserved2 < 0x1_0000
  }

  function ProfileSlots(p: C37238): (r: seq<Slot>)
    ensures |r| == 6
  {
    match p
    case Version2011(id, gm, net, reserved) =>
      [Raw(C37238_ORG_ID), Raw(SUBTYPE_2011), Num(id, 2), Num(gm, 4), Num(net, 4), Num(reserved, 2)]
    case Version2017(id, reserved, total, reserved2) =>
      [Raw(C37238_ORG_ID), Raw(SUBTYPE_2017), Num(id, 2), Num(reserved, 4), Num(total, 4), Num(reserved2, 2)]
  }

  function ProfileTlv(p: C37238): Tlv { Tlv(ORGANIZATION_EXTENSION, PutAll(ProfileSlots(p))) }

  /** The Go types' ranges; the display name may be of any length. */
  predicate ValidAlternate(a: Alternate) {
    && a.keyField < 0x100 && -0x8000_0000 <= a.currentOffset < 0x8000_0000
    && -0x8000_0000 <= a.jumpSeconds < 0x8000_0000
  }

  function ValueSize(a: Alternate): nat {
    var size := 16 + |a.displayName|;
    if size % 2 != 0 then size + 1 else size
  }

  function Padding(a: Alternate): bytes { if |a.displayName| % 2 != 0 then [0] else [] }

  const JUMP: nat := 0x1_0000_0000_0000

  /** The jump time loses all but 48 bits, the name's length all but eight. */
  function AlternateSlots(a: Alternate): (r: seq<Slot>)
    ensures |r| == 7
  {
    [Num(a.keyField, 1), Num(Wrapped(a.currentOffset, WORD), 4), Num(Wrapped(a.jumpSeconds, WORD), 4),
     Num(Wrapped(a.timeOfNextJump, JUMP), 6), Num(Wrapped(|a.displayName|, 256), 1), Raw(a.displayName),
     Raw(Padding(a))]
  }

  function AlternateTlv(a: Alternate): Tlv { Tlv(ALTERNATE_TIME_OFFSET, PutAll(AlternateSlots(a))) }

  function TlvList(ts: Tlvs): seq<Tlv> {
    (if ts.profile.Some? then [ProfileTlv(ts.profile.value)] else [])
    + (if ts.alternate.Some? then [AlternateTlv(ts.alternate.value)] else [])
  }

  /** The message with its length filled in. */
  function Message(h: Header, a: AnnounceBody, ts: Tlvs): bytes {
    var tail := BodyBytes(a) + TlvsBytes(TlvList(ts));
    HeaderBytes(h.(messageLength := (HEADER_SIZE + |tail|) % 0x1_0000)) + tail
  }

  // ----------------------------------------------------------------- decoder

  function DecodeAlternate(value: bytes): Option<Alternate> {
    if |value| < 16 then None
    else
      var nameLength: nat := value[15];
      var expected: nat := 16 + nameLength;
      if |value| != (if expected % 2 != 0 then expected + 1 else expected) then None
      else
        Some(Alternate(value[0], FromUnsigned(GetUint(value[1..5]), WORD), FromUnsigned(GetUint(value[5..9]), WORD),
                       GetUint(value[9..15]), value[16..16 + nameLength]))
  }

  /** Other organisations' extensions, and subtypes of no known version, are passed over. */
  function DecodeOrganization(value: bytes, result: Tlvs): Option<Tlvs> {
    if |value| < 3 || value[0..3] != C37238_ORG_ID then Some(result)
    else if |value| != 18 || result.profile.Some? then None
    else
      var a, b, c, d := GetUint(value[6..8]), GetUint(value[8..12]), GetUint(value[12..16]), GetUint(value[16..18]);
      if value[3..6] == SUBTYPE_2011 then Some(result.(profile := Some(Version2011(a, b, c, d))))
      else if value[3..6] == SUBTYPE_2017 then Some(result.(profile := Some(Version2017(a, b, c, d))))
      else Some(result)
  }

  function StoreTlv(t: Tlv, result: Tlvs): Option<Tlvs> {
    if t.kind == ORGANIZATION_EXTENSION then DecodeOrganization(t.value, result)
    else if t.kind == ALTERNATE_TIME_OFFSET then
      if result.alternate.Some? then None
      else match DecodeAlternate(t.value)
        case None => None
        case Some(a) => Some(result.(alternate := Some(a)))
    else Some(result)
  }

  const NO_TLVS := Tlvs(None, None)

  function ParseTlvs(remaining: bytes, result: Tlvs): Option<Tlvs> {
    if remaining == [] then Some(result)
    else if |remaining| < 4 then None
    else
      var length := GetUint(remaining[2..4]);
      if length > |remaining| - 4 then None
      else match StoreTlv(Tlv(GetUint(remaining[0..2]), remaining[4..4 + length]), result)
        case None => None
        case Some(next) => ParseTlvs(remaining[4 + length..], next)
  }

  /** The TLVs of an Announce message's body. */
  function DecodeProfileTlvs(b: bytes): Option<Tlvs> {
    if |b| < BODY_SIZE then None else ParseTlvs(b[BODY_SIZE..], NO_TLVS)
  }

  method DecodeAnnounceProfileTlvs(b: bytes) returns (r: Option<Tlvs>)
    ensures r == DecodeProfileTlvs(b)
  {
    hide StoreTlv;
    if |b| < BODY_SIZE { return None; }
    var result := NO_TLVS;
    var remaining := b[BODY_SIZE..];
    while |remaining| != 0
      invariant ParseTlvs(b[BODY_SIZE..], NO_TLVS) == ParseTlvs(remaining, result)
      decreases |remaining|
    {
      if |remaining| < 4 { return None; }
      var valueLength := GetUint(remaining[2..4]);
      if valueLength > |remaining| - 4 { return None; }
      var stored := StoreTlv(Tlv(GetUint(remaining[0..2]), remaining[4..4 + valueLength]), result);
      if stored.None? { return None; }
      result := stored.value;
      remaining := remaining[4 + valueLength..];
    }
    return Some(result);
  }

  // ------------------------------------------------- the octets as a list of TLVs

  /** Cutting octets into TLVs, as far as they are well formed. */
  function Split(b: bytes): Option<seq<Tlv>> {
    if b == [] then Some([])
    else if |b| < 4 || GetUint(b[2..4]) > |b| - 4 then None
    else
      var length := GetUint(b[2..4]);
      match Split(b[4 + length..])
      case None => None
      case Some(rest) => Some([Tlv(GetUint(b[0..2]), b[4..4 + length])] + rest)
  }

  function StoreAll(ts: seq<Tlv>, result: Tlvs): Option<Tlvs> {
    if ts == [] then Some(result)
    else match StoreTlv(ts[0], result)
      case None => None
      case Some(next) => StoreAll(ts[1..], next)
  }

  lemma {:induction false} SplitBytes(ts: seq<Tlv>)
    requires forall t | t in ts :: WellFormed(t)
    ensures Split(TlvsBytes(ts)) == Some(ts)
  {
    if ts != [] {
      var t, rest := ts[0], TlvsBytes(ts[1..]);
      assert t in ts;
      SplitBytes(ts[1..]);
      TlvParts(t, rest);
      hide TlvBytes, GetUint;
      assert ts == [t] + ts[1..];
    }
  }

  lemma TlvParts(t: Tlv, rest: bytes)
    requires WellFormed(t)
    ensures var b := TlvBytes(t) + rest;
      && |b| >= 4 && GetUint(b[0..2]) == t.kind && GetUint(b[2..4]) == |t.value|
      && |b| >= 4 + |t.value| && b[4..4 + |t.value|] == t.value && b[4 + |t.value|..] == rest
  {
    hide GetUint, PutUint;
    HalfWord(t.kind);
    HalfWord(|t.value|);
    FourParts(PutUint(t.kind, 2), PutUint(|t.value|, 2), t.value, rest);
  }

  lemma FourParts(k: bytes, l: bytes, value: bytes, rest: bytes)
    requires |k| == |l| == 2
    ensures var b := k + l + value + rest;
      && b[0..2] == k && b[2..4] == l && b[4..4 + |value|] == value && b[4 + |value|..] == rest
  {
    Seams(k + l, value, rest);
  }

  /** What is split is put together again: the decoder walks a list, and nothing else. */
  lemma {:induction false} BytesSplit(b: bytes)
    requires Split(b).Some?
    ensures TlvsBytes(Split(b).value) == b
  {
    if b != [] {
      var length := GetUint(b[2..4]);
      var t, rest := Tlv(GetUint(b[0..2]), b[4..4 + length]), b[4 + length..];
      BytesSplit(rest);
      assert Split(b).value == [t] + Split(rest).value;
      TlvWhole(b, length);
      hide PutUint, GetUint, Split, TlvBytes;
      assert Split(b).value[1..] == Split(rest).value;
    }
  }

  lemma TlvWhole(b: bytes, length: nat)
    requires |b| >= 4 && length == GetUint(b[2..4]) && length <= |b| - 4
    ensures TlvBytes(Tlv(GetUint(b[0..2]), b[4..4 + length])) + b[4 + length..] == b
  {
    PutGet(b[0..2]);
    PutGet(b[2..4]);
    hide PutUint, GetUint;
    assert b == b[0..2] + b[2..4] + b[4..4 + length] + b[4 + length..];
  }

  lemma {:induction false} ParseIsStoreAll(b: bytes, result: Tlvs)
    ensures ParseTlvs(b, result).Some? ==> Split(b).Some?
    ensures Split(b).Some? ==> ParseTlvs(b, result) == StoreAll(Split(b).value, result)
    decreases |b|
  {
    hide StoreTlv, GetUint;
    if b != [] && |b| >= 4 && GetUint(b[2..4]) <= |b| - 4 {
      var length := GetUint(b[2..4]);
      var t := Tlv(GetUint(b[0..2]), b[4..4 + length]);
      match StoreTlv(t, result) {
        case None =>
        case Some(next) => ParseIsStoreAll(b[4 + length..], next);
      }
      if Split(b).Some? { assert Split(b).value[1..] == Split(b[4 + length..]).value; }
    }
  }

  /** A TLV the decoder looks into. */
  predicate Recognised(t: Tlv) {
    || t.kind == ALTERNATE_TIME_OFFSET
    || (t.kind == ORGANIZATION_EXTENSION && |t.value| >= 3 && t.value[0..3] == C37238_ORG_ID)
  }

  function OnlyRecognised(ts: seq<Tlv>): seq<Tlv> {
    if ts == [] then []
    else (if Recognised(ts[0]) then [ts[0]] else []) + OnlyRecognised(ts[1..])
  }

  lemma {:induction false} StoreOnlyRecognised(ts: seq<Tlv>, result: Tlvs)
    ensures StoreAll(ts, result) == StoreAll(OnlyRecognised(ts), result)
  {
    if ts != [] {
      var kept := OnlyRecognised(ts[1..]);
      if Recognised(ts[0]) {
        assert OnlyRecognised(ts)[1..] == kept;
      } else {
        assert OnlyRecognised(ts) == kept;
        assert StoreTlv(ts[0], result) == Some(result);
      }
      hide StoreTlv, Recognised;
      match StoreTlv(ts[0], result)
      case None =>
      case Some(next) => StoreOnlyRecognised(ts[1..], next);
    }
  }

  lemma {:induction false} OnlyRecognisedWellFormed(ts: seq<Tlv>)
    requires forall t | t in ts :: WellFormed(t)
    ensures forall t | t in OnlyRecognised(ts) :: WellFormed(t)
  {
    if ts != [] { OnlyRecognisedWellFormed(ts[1..]); }
  }

  /** TLVs of other kinds and of other organisations, wherever they stand, change nothing. */
  lemma UnrecognisedIrrelevant(ts: seq<Tlv>, result: Tlvs)
    requires forall t | t in ts :: WellFormed(t)
    ensures ParseTlvs(TlvsBytes(ts), result) == ParseTlvs(TlvsBytes(OnlyRecognised(ts)), result)
  {
    OnlyRecognisedWellFormed(ts);
    SplitBytes(ts);
    SplitBytes(OnlyRecognised(ts));
    hide *;
    ParseIsStoreAll(TlvsBytes(ts), result);
    ParseIsStoreAll(TlvsBytes(OnlyRecognised(ts)), result);
    StoreOnlyRecognised(ts, result);
  }

  // -------------------------------------------------------------- round trip

  lemma ProfileFits(p: C37238)
    requires ValidProfile(p)
    ensures forall k | 0 <= k < 6 :: Fits(ProfileSlots(p)[k])
  {
  }

  lemma ProfileSize(p: C37238)
    ensures |PutAll(ProfileSlots(p))| == 18
  {
    Size6(ProfileSlots(p));
    hide PutAll, PutUint;
  }

  /** The four numbers of a profile, in order. */
  function Numbers(p: C37238): (nat, nat, nat, nat) {
    match p
    case Version2011(a, b, c, d) => (a, b, c, d)
    case Version2017(a, b, c, d) => (a, b, c, d)
  }

  lemma ProfileReads(value: bytes, p: C37238)
    requires ValidProfile(p) && Ber.At(value, 0, PutAll(ProfileSlots(p)))
    ensures |value| >= 18 && value[0..3] == C37238_ORG_ID
    ensures value[3..6] == if p.Version2011? then SUBTYPE_2011 else SUBTYPE_2017
    ensures (GetUint(value[6..8]), GetUint(value[8..12]), GetUint(value[12..16]), GetUint(value[16..18])) == Numbers(p)
  {
    var ss := ProfileSlots(p);
    assert ss[0..] == ss;
    hide PutAll, GetUint, PutUint, Fits, Put, Ber.At, ValidProfile;
    var subtype := if p.Version2011? then SUBTYPE_2011 else SUBTYPE_2017;
    RawPut(C37238_ORG_ID);
    RawPut(subtype);
    ReadRaw(value, 0, ss, 0, C37238_ORG_ID);
    ReadRaw(value, 3, ss, 1, subtype);
    NumbersRead(value, p);
  }

  lemma NumbersRead(value: bytes, p: C37238)
    requires ValidProfile(p) && Ber.At(value, 6, PutAll(ProfileSlots(p)[2..]))
    ensures |value| >= 18
    ensures (GetUint(value[6..8]), GetUint(value[8..12]), GetUint(value[12..16]), GetUint(value[16..18])) == Numbers(p)
  {
    var ss, n := ProfileSlots(p), Numbers(p);
    hide PutAll, GetUint, PutUint, Fits, Put, Ber.At, ValidProfile;
    ProfileFits(p);
    ReadNum(value, 6, ss, 2, n.0, 2);
    ReadNum(value, 8, ss, 3, n.1, 4);
    ReadNum(value, 12, ss, 4, n.2, 4);
    ReadNum(value, 16, ss, 5, n.3, 2);
  }

  lemma ProfileStores(p: C37238, result: Tlvs)
    requires ValidProfile(p) && result.profile.None?
    ensures StoreTlv(ProfileTlv(p), result) == Some(result.(profile := Some(p)))
    ensures WellFormed(ProfileTlv(p))
  {
    ProfileSize(p);
    var value := PutAll(ProfileSlots(p));
    assert Ber.At(value, 0, value);
    hide PutAll, GetUint, Ber.At, ProfileSlots;
    ProfileReads(value, p);
    assert SUBTYPE_2011[2] != SUBTYPE_2017[2];
  }

  lemma AlternateFits(a: Alternate)
    requires ValidAlternate(a)
    ensures forall k | 0 <= k < 6 :: Fits(AlternateSlots(a)[k])
  {
  }

  lemma AlternateSize(a: Alternate)
    ensures |PutAll(AlternateSlots(a))| == ValueSize(a)
  {
    Size7(AlternateSlots(a));
    hide PutAll, PutUint, Wrapped;
  }

  /** A display name of 256 octets. */
  lemma LongName(a: Alternate)
    requires ValidAlternate(a) && |a.displayName| == 256
    ensures DecodeAlternate(PutAll(AlternateSlots(a))) == None
  {
    AlternateDecodes(a);
    hide *;
  }

  lemma AlternateReads(value: bytes, a: Alternate)
    requires ValidAlternate(a) && Ber.At(value, 0, PutAll(AlternateSlots(a)))
    ensures |value| >= 16 + |a.displayName|
    ensures value[0] == a.keyField && GetUint(value[1..5]) == Wrapped(a.currentOffset, WORD)
    ensures GetUint(value[5..9]) == Wrapped(a.jumpSeconds, WORD)
    ensures GetUint(value[9..15]) == Wrapped(a.timeOfNextJump, JUMP)
    ensures value[15] == Wrapped(|a.displayName|, 256) && value[16..16 + |a.displayName|] == a.displayName
  {
    var ss := AlternateSlots(a);
    assert ss[0..] == ss;
    hide PutAll, GetUint, PutUint, Fits, Put, Ber.At, ValidAlternate, Wrapped, Padding;
    AlternateFits(a);
    ReadNum(value, 0, ss, 0, a.keyField, 1);
    ReadNum(value, 1, ss, 1, Wrapped(a.currentOffset, WORD), 4);
    ReadNum(value, 5, ss, 2, Wrapped(a.jumpSeconds, WORD), 4);
    AlternateRest(value, a);
  }

  lemma AlternateRest(value: bytes, a: Alternate)
    requires ValidAlternate(a) && Ber.At(value, 9, PutAll(AlternateSlots(a)[3..]))
    ensures |value| >= 16 + |a.displayName|
    ensures GetUint(value[9..15]) == Wrapped(a.timeOfNextJump, JUMP)
    ensures value[15] == Wrapped(|a.displayName|, 256) && value[16..16 + |a.displayName|] == a.displayName
  {
    var ss := AlternateSlots(a);
    hide PutAll, GetUint, PutUint, Fits, Put, Ber.At, ValidAlternate, Wrapped, Padding;
    AlternateFits(a);
    ReadNum(value, 9, ss, 3, Wrapped(a.timeOfNextJump, JUMP), 6);
    ReadNum(value, 15, ss, 4, Wrapped(|a.displayName|, 256), 1);
    RawPut(a.displayName);
    ReadRaw(value, 16, ss, 5, a.displayName);
  }

  /** The wire's 48 bits of a jump time. */
  function Carried(a: Alternate): Alternate { a.(timeOfNextJump := Wrapped(a.timeOfNextJump, JUMP)) }

  /** A display name of up to 255 octets comes back, and a longer one makes the TLV malformed. */
  lemma AlternateDecodes(a: Alternate)
    requires ValidAlternate(a)
    ensures DecodeAlternate(PutAll(AlternateSlots(a))) == if |a.displayName| <= 255 then Some(Carried(a)) else None
  {
    AlternateSize(a);
    var value := PutAll(AlternateSlots(a));
    assert Ber.At(value, 0, value);
    NameLength(|a.displayName|);
    SignedBack(a.currentOffset, WORD);
    SignedBack(a.jumpSeconds, WORD);
    hide PutAll, GetUint, Ber.At, AlternateSlots, FromUnsigned, Wrapped;
    AlternateReads(value, a);
  }

  lemma NameLength(n: nat)
    ensures n <= 255 ==> Wrapped(n, 256) == n
    ensures n > 255 ==> (Wrapped(n, 256) < n && Wrapped(n, 256) % 2 == n % 2)
  {
  }

  lemma AlternateStores(a: Alternate, result: Tlvs)
    requires ValidAlternate(a) && result.alternate.None?
    ensures StoreTlv(AlternateTlv(a), result) ==
      if |a.displayName| <= 255 then Some(result.(alternate := Some(Carried(a)))) else None
  {
    AlternateDecodes(a);
    hide AlternateSlots, PutAll, DecodeAlternate, DecodeOrganization, Carried;
  }

  predicate ValidTlvs(ts: Tlvs) {
    && (ts.profile.Some? ==> ValidProfile(ts.profile.value))
    && (ts.alternate.Some? ==> ValidAlternate(ts.alternate.value))
  }

  predicate NameFits(ts: Tlvs) { ts.alternate.Some? ==> |ts.alternate.value.displayName| <= 255 }

  function Received(ts: Tlvs): Tlvs {
    if ts.alternate.Some? then ts.(alternate := Some(Carried(ts.alternate.value))) else ts
  }

  lemma ListStores(ts: Tlvs)
    requires ValidTlvs(ts)
    ensures StoreAll(TlvList(ts), NO_TLVS) == if NameFits(ts) then Some(Received(ts)) else None
  {
    var start := NO_TLVS.(profile := ts.profile);
    if ts.profile.Some? { ProfileStores(ts.profile.value, NO_TLVS); }
    if ts.alternate.Some? { AlternateStores(ts.alternate.value, start); }
    hide StoreTlv, ProfileTlv, AlternateTlv, Carried, ValidProfile, ValidAlternate;
    var list := TlvList(ts);
    StoresStep(list, NO_TLVS);
    if list != [] { StoresStep(list[1..], start); }
  }

  lemma StoresStep(list: seq<Tlv>, result: Tlvs)
    ensures list == [] ==> StoreAll(list, result) == Some(result)
    ensures list != [] ==>
      (StoreAll(list, result)
       == match StoreTlv(list[0], result) case None => None case Some(next) => StoreAll(list[1..], next))
  {
  }

  lemma ListWellFormed(ts: Tlvs)
    requires ValidTlvs(ts) && |TlvsBytes(TlvList(ts))| < 0x1_0000
    ensures forall t | t in TlvList(ts) :: WellFormed(t)
  {
    if ts.profile.Some? { ProfileStores(ts.profile.value, NO_TLVS); }
    if ts.alternate.Some? { Member(TlvList(ts), AlternateTlv(ts.alternate.value)); }
    hide TlvsBytes, PutAll, ProfileSlots, AlternateSlots, StoreTlv, ValidProfile, ValidAlternate;
  }

  lemma {:induction false} Member(ts: seq<Tlv>, t: Tlv)
    requires t in ts
    ensures |t.value| <= |TlvsBytes(ts)|
  {
    if t != ts[0] { Member(ts[1..], t); }
    hide TlvBytes;
  }

  /** The TLVs of either profile, with or without an alternate offset, decode to themselves if
      and only if the name is no longer than 255 octets and the jump time has 48 bits. */
  lemma TlvsRoundTrip(body: bytes, ts: Tlvs)
    requires |body| == BODY_SIZE && ValidTlvs(ts) && |TlvsBytes(TlvList(ts))| < 0x1_0000
    ensures DecodeProfileTlvs(body + TlvsBytes(TlvList(ts))) == if NameFits(ts) then Some(Received(ts)) else None
    ensures DecodeProfileTlvs(body + TlvsBytes(TlvList(ts))) == Some(ts) <==>
      NameFits(ts) && (ts.alternate.Some? ==> ts.alternate.value.timeOfNextJump < JUMP)
  {
    ListWellFormed(ts);
    SplitBytes(TlvList(ts));
    ParseIsStoreAll(TlvsBytes(TlvList(ts)), NO_TLVS);
    ListStores(ts);
    assert (body + TlvsBytes(TlvList(ts)))[BODY_SIZE..] == TlvsBytes(TlvList(ts));
    hide TlvsBytes, TlvList, ParseTlvs, StoreAll, Split, ValidTlvs;
  }

  /** A whole Announce message: header with the length filled in, body and TLVs. */
  lemma MessageRoundTrip(h: Header, a: AnnounceBody, ts: Tlvs)
    requires ValidHeader(h) && ValidBody(a) && ValidTlvs(ts) && |Message(h, a, ts)| < 0x1_0000
    ensures var m := Message(h, a, ts);
      && DecodeHeader(m) == Some(h.(messageLength := |m|))
      && DecodeAnnounceBody(m[HEADER_SIZE..]) == Some(a)
      && DecodeProfileTlvs(m[HEADER_SIZE..]) == if NameFits(ts) then Some(Received(ts)) else None
  {
    var rest := BodyBytes(a) + TlvsBytes(TlvList(ts));
    var header := h.(messageLength := HEADER_SIZE + |rest|);
    MessageParts(h, a, ts);
    BodySize(a);
    hide *;
    HeaderRoundTrip(header, rest);
    BodyRoundTrip(a, TlvsBytes(TlvList(ts)));
    TlvsRoundTrip(BodyBytes(a), ts);
  }

  lemma MessageParts(h: Header, a: AnnounceBody, ts: Tlvs)
    requires ValidHeader(h) && |Message(h, a, ts)| < 0x1_0000
    ensures var rest := BodyBytes(a) + TlvsBytes(TlvList(ts));
      var header := h.(messageLength := HEADER_SIZE + |rest|);
      && Message(h, a, ts) == HeaderBytes(header) + rest && |HeaderBytes(header)| == HEADER_SIZE
      && Message(h, a, ts)[HEADER_SIZE..] == rest && |Message(h, a, ts)| == HEADER_SIZE + |rest|
      && ValidHeader(header)
  {
    hide HeaderBytes, BodyBytes, TlvsBytes, TlvList, Message;
    var rest := BodyBytes(a) + TlvsBytes(TlvList(ts));
    var header := h.(messageLength := (HEADER_SIZE + |rest|) % 0x1_0000);
    HeaderSize(header);
    MessageIs(h, a, ts);
    DropFirst(HeaderBytes(header), rest);
    Fitting(HEADER_SIZE + |rest|);
  }

  lemma Fitting(n: nat)
    ensures n < 0x1_0000 ==> n % 0x1_0000 == n
  {
  }

  lemma HeaderSize(h: Header)
    ensures |HeaderBytes(h)| == HEADER_SIZE
  {
    HeaderSizes(h);
    hide PutAll;
  }

  lemma MessageIs(h: Header, a: AnnounceBody, ts: Tlvs)
    ensures var rest := BodyBytes(a) + TlvsBytes(TlvList(ts));
      Message(h, a, ts) == HeaderBytes(h.(messageLength := (HEADER_SIZE + |rest|) % 0x1_0000)) + rest
  {
    hide HeaderBytes, BodyBytes, TlvsBytes, TlvList;
  }

  // ----------------------------------------------------------- written in place

  /** A TLV's type and length behind what is written. */
  method WriteTlvHeader(b: array<byte>, off: nat, kind: nat, size: nat) returns (next: nat)
    requires off + 4 <= b.Length
    modifies b
    ensures next == off + 4
    ensures b[..] == Ethernet.Overwrite(old(b[..]), off, PutUint(kind, 2) + PutUint(size, 2))
  {
    hide PutUint, Ethernet.Overwrite;
    ghost var was := b[..];
    Ethernet.CopyInto(b, off, PutUint(kind, 2));
    Ethernet.CopyInto(b, off + 2, PutUint(size, 2));
    OverwriteTwice(was, off, PutUint(kind, 2), PutUint(size, 2));
    next := off + 4;
  }

  lemma OverwriteTwice(b: bytes, off: nat, p: bytes, q: bytes)
    requires off + |p| + |q| <= |b|
    ensures Ethernet.Overwrite(Ethernet.Overwrite(b, off, p), off + |p|, q) == Ethernet.Overwrite(b, off, p + q)
  {
  }

  method WriteProfile(b: array<byte>, off: nat, p: C37238) returns (next: nat)
    requires off + 22 <= b.Length
    modifies b
    ensures next == off + 22 && |TlvBytes(ProfileTlv(p))| == 22
    ensures b[..] == Ethernet.Overwrite(old(b[..]), off, TlvBytes(ProfileTlv(p)))
  {
    ghost var was := b[..];
    ProfileSize(p);
    next := WriteTlvHeader(b, off, ORGANIZATION_EXTENSION, 18);
    ghost var front, tail := b[..off + 4], b[off + 4..];
    assert front + tail == b[..];
    hide PutAll, PutUint, ProfileSlots, Ethernet.Overwrite;
    next := WriteProfileValue(b, next, p, front, tail);
    WrittenBehind(was, off, PutUint(ORGANIZATION_EXTENSION, 2) + PutUint(18, 2), PutAll(ProfileSlots(p)), front, tail);
  }

  method WriteProfileValue(b: array<byte>, off: nat, p: C37238, ghost front: bytes, ghost tail: bytes)
    returns (next: nat)
    requires off == |front| && b[..] == front + tail && 18 <= |tail|
    modifies b
    ensures next == off + 18 && b[..] == front + PutAll(ProfileSlots(p)) + tail[18..]
  {
    ghost var ss := ProfileSlots(p);
    hide PutAll, PutUint, Filled, Put;
    ProfileSize(p);
    FilledStart(front, tail, ss);
    next := PutNext(b, off, Raw(C37238_ORG_ID), front, tail, ss, 0);
    match p {
      case Version2011(id, gm, net, reserved) =>
        next := PutNext(b, next, Raw(SUBTYPE_2011), front, tail, ss, 1);
        next := PutNext(b, next, Num(id, 2), front, tail, ss, 2);
        next := PutNext(b, next, Num(gm, 4), front, tail, ss, 3);
        next := PutNext(b, next, Num(net, 4), front, tail, ss, 4);
        next := PutNext(b, next, Num(reserved, 2), front, tail, ss, 5);
      case Version2017(id, reserved, total, reserved2) =>
        next := PutNext(b, next, Raw(SUBTYPE_2017), front, tail, ss, 1);
        next := PutNext(b, next, Num(id, 2), front, tail, ss, 2);
        next := PutNext(b, next, Num(reserved, 4), front, tail, ss, 3);
        next := PutNext(b, next, Num(total, 4), front, tail, ss, 4);
        next := PutNext(b, next, Num(reserved2, 2), front, tail, ss, 5);
    }
    FilledEnd(b[..], front, tail, ss, next);
  }

  lemma WrittenBehind(was: bytes, off: nat, head: bytes, value: bytes, front: bytes, tail: bytes)
    requires off + |head| + |value| <= |was| && |front| == off + |head|
    requires front + tail == Ethernet.Overwrite(was, off, head)
    ensures front + value + tail[|value|..] == Ethernet.Overwrite(was, off, head + value)
  {
    var now := Ethernet.Overwrite(was, off, head);
    assert front == now[..off + |head|] == was[..off] + head;
    assert tail == now[off + |head|..] == was[off + |head|..];
    assert tail[|value|..] == was[off + |head| + |value|..];
    assert was[..off] + head + value == was[..off] + (head + value);
  }

  /** The name's padding octet is the zero that is there already. */
  method WriteAlternate(b: array<byte>, off: nat, a: Alternate)
    requires off + 4 + ValueSize(a) <= b.Length && forall i | off <= i < b.Length :: b[i] == 0
    modifies b
    ensures |TlvBytes(AlternateTlv(a))| == 4 + ValueSize(a)
    ensures b[..] == Ethernet.Overwrite(old(b[..]), off, TlvBytes(AlternateTlv(a)))
  {
    ghost var was := b[..];
    AlternateSize(a);
    var next := WriteTlvHeader(b, off, ALTERNATE_TIME_OFFSET, ValueSize(a));
    ghost var head := PutUint(ALTERNATE_TIME_OFFSET, 2) + PutUint(ValueSize(a), 2);
    assert b[off + 4..] == was[off + 4..];
    WriteAlternateValue(b, next, a, b[..off + 4], b[off + 4..]);
    ghost var front, tail := was[..off] + head, was[off + 4..];
    WrittenBehind(was, off, head, PutAll(AlternateSlots(a)), front, tail);
  }

  method WriteAlternateValue(b: array<byte>, off: nat, a: Alternate, ghost front: bytes, ghost tail: bytes)
    requires off == |front| && b[..] == front + tail && ValueSize(a) <= |tail|
    requires forall i | 0 <= i < |tail| :: tail[i] == 0
    modifies b
    ensures b[..] == front + PutAll(AlternateSlots(a)) + tail[ValueSize(a)..]
  {
    ghost var ss := AlternateHead(a);
    hide PutAll, PutUint, Filled, Wrapped, Padding, AlternateSlots, ValueSize, Put;
    AlternateSplit(a);
    FilledStart(front, tail, ss);
    var next := PutNext(b, off, Num(a.keyField, 1), front, tail, ss, 0);
    next := PutNext(b, next, Num(Wrapped(a.currentOffset, WORD), 4), front, tail, ss, 1);
    next := PutNext(b, next, Num(Wrapped(a.jumpSeconds, WORD), 4), front, tail, ss, 2);
    next := PutNext(b, next, Num(Wrapped(a.timeOfNextJump, JUMP), 6), front, tail, ss, 3);
    next := PutNext(b, next, Num(Wrapped(|a.displayName|, 256), 1), front, tail, ss, 4);
    next := PutNext(b, next, Raw(a.displayName), front, tail, ss, 5);
    FilledEnd(b[..], front, tail, ss, next);
    Padded(front, PutAll(ss), Padding(a), tail);
  }

  /** All but the padding. */
  function AlternateHead(a: Alternate): (r: seq<Slot>)
    ensures |r| == 6
  {
    [Num(a.keyField, 1), Num(Wrapped(a.currentOffset, WORD), 4), Num(Wrapped(a.jumpSeconds, WORD), 4),
     Num(Wrapped(a.timeOfNextJump, JUMP), 6), Num(Wrapped(|a.displayName|, 256), 1), Raw(a.displayName)]
  }

  lemma AlternateSplit(a: Alternate)
    ensures PutAll(AlternateSlots(a)) == PutAll(AlternateHead(a)) + Padding(a)
    ensures |PutAll(AlternateHead(a))| + |Padding(a)| == ValueSize(a)
    ensures Padding(a) == [] || Padding(a) == [0]
  {
    var ss := AlternateSlots(a);
    AlternateSize(a);
    PutAllSnoc(ss, 6);
    hide PutAll, PutUint, Wrapped;
    assert ss[..7] == ss && ss[..6] == AlternateHead(a);
  }

  lemma Padded(front: bytes, value: bytes, padding: bytes, tail: bytes)
    requires |value| + |padding| <= |tail| && (padding == [] || padding == [0])
    requires forall i | 0 <= i < |tail| :: tail[i] == 0
    ensures front + value + tail[|value|..] == front + (value + padding) + tail[|value| + |padding|..]
  {
    assert tail[|value|..] == padding + tail[|value| + |padding|..];
  }

  function ListLen(ts: Tlvs): nat {
    (if ts.profile.Some? then 22 else 0) + (if ts.alternate.Some? then 4 + ValueSize(ts.alternate.value) else 0)
  }

  function ProfileBytes(ts: Tlvs): bytes {
    if ts.profile.Some? then TlvBytes(ProfileTlv(ts.profile.value)) else []
  }

  function AlternateBytes(ts: Tlvs): bytes {
    if ts.alternate.Some? then TlvBytes(AlternateTlv(ts.alternate.value)) else []
  }

  lemma ListBytes(ts: Tlvs)
    ensures TlvsBytes(TlvList(ts)) == ProfileBytes(ts) + AlternateBytes(ts)
    ensures |ProfileBytes(ts)| + |AlternateBytes(ts)| == ListLen(ts)
    ensures |ProfileBytes(ts)| == if ts.profile.Some? then 22 else 0
  {
    if ts.profile.Some? { ProfileSize(ts.profile.value); }
    if ts.alternate.Some? { AlternateSize(ts.alternate.value); }
    var list := TlvList(ts);
    hide PutAll, ProfileSlots, AlternateSlots, ValueSize;
    if list != [] { assert TlvsBytes(list[1..]) == if |list| == 2 then TlvBytes(list[1]) else []; }
  }

  /** The TLVs over the zeros behind the fixed part. */
  method WriteTlvs(b: array<byte>, off: nat, ts: Tlvs)
    requires off + ListLen(ts) == b.Length && forall i | off <= i < b.Length :: b[i] == 0
    modifies b
    ensures b[..] == old(b[..off]) + TlvsBytes(TlvList(ts))
  {
    ListBytes(ts);
    hide TlvBytes, ProfileTlv, AlternateTlv, ValueSize, Ethernet.Overwrite, TlvsBytes, TlvList;
    ghost var front, tail := b[..off], b[off..];
    ghost var p, q := ProfileBytes(ts), AlternateBytes(ts);
    assert b[..] == front + tail;
    Ethernet.Advance(front, tail, p);
    var next := off;
    if ts.profile.Some? { next := WriteProfile(b, off, ts.profile.value); }
    Empty(front, tail);
    assert b[..] == front + p + tail[|p|..];
    DropFirst(front + p, tail[|p|..]);
    assert forall i | next <= i < b.Length :: b[i] == b[..][i] == tail[|p|..][i - next];
    Ethernet.Advance(front + p, tail[|p|..], q);
    Empty(front + p, tail[|p|..]);
    if ts.alternate.Some? { WriteAlternate(b, next, ts.alternate.value); }
    assert tail[|p|..][|q|..] == [];
    assert front + p + q + [] == front + (p + q);
  }

  lemma Empty(front: bytes, tail: bytes)
    ensures front + [] + tail[0..] == front + tail
  {
  }

  /** The message in one buffer, its length calculated first. */
  method EncodeAnnounce(h: Header, a: AnnounceBody, ts: Tlvs) returns (b: array<byte>)
    ensures fresh(b) && b[..] == Message(h, a, ts)
  {
    hide PutAll, BodyBytes, HeaderBytes, TlvsBytes, TlvList, ListLen, Message;
    var total := HEADER_SIZE + BODY_SIZE + ListLen(ts);
    var header := h.(messageLength := total % 0x1_0000);
    MessageAssembled(h, a, ts);
    b := new byte[total](_ => 0);
    WriteFixed(b, header, a);
    WriteTlvs(b, 64, ts);
  }

  lemma MessageAssembled(h: Header, a: AnnounceBody, ts: Tlvs)
    ensures var header := h.(messageLength := (HEADER_SIZE + BODY_SIZE + ListLen(ts)) % 0x1_0000);
      && Message(h, a, ts) == HeaderBytes(header) + BodyBytes(a) + TlvsBytes(TlvList(ts))
      && |HeaderBytes(header)| == HEADER_SIZE && |BodyBytes(a)| == BODY_SIZE
  {
    MessageIs(h, a, ts);
    ListBytes(ts);
    BodySize(a);
    HeaderSize(h.(messageLength := (HEADER_SIZE + BODY_SIZE + ListLen(ts)) % 0x1_0000));
    hide BodyBytes, HeaderBytes, TlvsBytes, TlvList, ListLen, Message, ProfileBytes, AlternateBytes;
  }

  lemma BodySize(a: AnnounceBody)
    ensures |BodyBytes(a)| == BODY_SIZE
  {
    BodySizes(a);
    hide PutAll;
  }

  method WriteFixed(b: array<byte>, header: Header, a: AnnounceBody)
    requires b.Length >= HEADER_SIZE + BODY_SIZE
    requires |HeaderBytes(header)| == HEADER_SIZE && |BodyBytes(a)| == BODY_SIZE
    modifies b
    ensures b[..64] == HeaderBytes(header) + BodyBytes(a)
    ensures forall i | 64 <= i < b.Length :: b[i] == old(b[i])
  {
    hide HeaderBytes, BodyBytes;
    ghost var was := b[..];
    EncodeHeader(header, b);
    assert b[..34] == HeaderBytes(header) && b[64..] == was[34..][30..] == was[64..];
    EncodeAnnounceBody(b, a);
    assert b[64..] == was[64..];
    forall i | 64 <= i < b.Length ensures b[i] == old(b[i]) {
      assert b[i] == b[64..][i - 64] && was[i] == was[64..][i - 64];
    }
  }
}
