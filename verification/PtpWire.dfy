/** Fixed layouts of PTP messages: the header and the Announce body (IEEE 1588-2008, sections
    13.3 and 13.5). */
module PtpWire {
  import opened Wrappers
  import opened Bytes
  import opened Bmca
  import Ber
  import Ethernet

  const HEADER_SIZE: nat := 34
  const BODY_SIZE: nat := 30

  /** A field of a layout: an integer in network order, or octets. */
  datatype Slot = Num(value: nat, width: nat) | Raw(octets: bytes)

  function Put(s: Slot): bytes {
    match s
    case Num(value, width) => PutUint(value, width)
    case Raw(octets) => octets
  }

  function PutAll(slots: seq<Slot>): bytes {
    if slots == [] then [] else Put(slots[0]) + PutAll(slots[1..])
  }

  /** The value fits in the widths in use. */
  predicate Fits(s: Slot) {
    match s
    case Num(value, width) => (width == 1 && value < 0x100) || (width == 2 && value < 0x1_0000)
      || (width == 4 && value < 0x1_0000_0000) || (width == 6 && value < 0x1_0000_0000_0000)
      || (width == 8 && value < 0x1_0000_0000_0000_0000)
    case Raw(octets) => true
  }

  /** A number in a layout reads back, and the rest follows it. */
  lemma ReadNum(b: bytes, at: nat, slots: seq<Slot>, k: nat, value: nat, width: nat)
    requires k < |slots| && slots[k] == Num(value, width) && Fits(slots[k])
    requires Ber.At(b, at, PutAll(slots[k..]))
    ensures at + width <= |b| && GetUint(b[at..at + width]) == value
    ensures Ber.At(b, at + width, PutAll(slots[k + 1..]))
    ensures width == 1 ==> b[at] == value
  {
    ReadRaw(b, at, slots, k, PutUint(value, width));
    FixedWidth(value);
    hide PutAll, PutUint, GetUint, Ber.At;
    if width == 1 { OneOctet(b, at); }
  }

  lemma ReadRaw(b: bytes, at: nat, slots: seq<Slot>, k: nat, octets: bytes)
    requires k < |slots| && Put(slots[k]) == octets && Ber.At(b, at, PutAll(slots[k..]))
    ensures at + |octets| <= |b| && b[at..at + |octets|] == octets
    ensures Ber.At(b, at + |octets|, PutAll(slots[k + 1..]))
  {
    hide Put;
    assert slots[k..][1..] == slots[k + 1..];
    Ber.AtSplit(b, at, octets, PutAll(slots[k + 1..]));
  }

  lemma RawPut(octets: bytes)
    ensures Put(Raw(octets)) == octets
  {
  }

  lemma OneOctet(b: bytes, at: nat)
    requires at < |b|
    ensures GetUint(b[at..at + 1]) == b[at]
  {
    assert b[at..at + 1][..0] == [];
  }

  lemma {:induction false} PutAllSnoc(slots: seq<Slot>, k: nat)
    requires k < |slots|
    ensures PutAll(slots[..k + 1]) == PutAll(slots[..k]) + Put(slots[k])
  {
    hide Put;
    var more := slots[..k + 1];
    if k == 0 {
      assert more[1..] == [];
    } else {
      assert more[1..] == slots[1..][..k] && slots[..k][1..] == slots[1..][..k - 1];
      PutAllSnoc(slots[1..], k - 1);
    }
  }

  lemma {:induction false} PutAllCut(slots: seq<Slot>, k: nat)
    requires k <= |slots|
    ensures PutAll(slots) == PutAll(slots[..k]) + PutAll(slots[k..])
    decreases |slots| - k
  {
    if k == |slots| {
      assert slots[..k] == slots && slots[k..] == [];
    } else {
      PutAllCut(slots, k + 1);
      PutAllSnoc(slots, k);
      assert slots[k..][1..] == slots[k + 1..];
      hide PutAll, Put;
      assert PutAll(slots[k..]) == Put(slots[k]) + PutAll(slots[k + 1..]) by { PutAllHead(slots[k..]); }
    }
  }

  lemma PutAllHead(slots: seq<Slot>)
    requires slots != []
    ensures PutAll(slots) == Put(slots[0]) + PutAll(slots[1..])
  {
  }

  /** A buffer with the first k slots of a layout written behind `front`, over the beginning
      of `tail`, and the offset of the next. */
  predicate Filled(content: bytes, front: bytes, tail: bytes, slots: seq<Slot>, k: nat, off: nat) {
    && k <= |slots|
    && var part := PutAll(slots[..k]);
    && |part| <= |PutAll(slots)| <= |tail|
    && off == |front| + |part|
    && content == front + part + tail[|part|..]
  }

  lemma FilledStart(front: bytes, tail: bytes, slots: seq<Slot>)
    requires |PutAll(slots)| <= |tail|
    ensures Filled(front + tail, front, tail, slots, 0, |front|)
  {
    assert slots[..0] == [] && front + [] == front;
  }

  lemma FilledEnd(content: bytes, front: bytes, tail: bytes, slots: seq<Slot>, off: nat)
    requires Filled(content, front, tail, slots, |slots|, off)
    ensures off == |front| + |PutAll(slots)| <= |front| + |tail|
    ensures content == front + PutAll(slots) + tail[|PutAll(slots)|..]
  {
    assert slots[..|slots|] == slots;
  }

  lemma FilledMore(content: bytes, front: bytes, tail: bytes, slots: seq<Slot>, k: nat, off: nat)
    requires Filled(content, front, tail, slots, k, off) && k < |slots|
    ensures off + |Put(slots[k])| <= |content|
    ensures Filled(Ethernet.Overwrite(content, off, Put(slots[k])), front, tail, slots, k + 1,
                   off + |Put(slots[k])|)
  {
    PutAllSnoc(slots, k);
    PutAllCut(slots, k + 1);
    hide PutAll, Put, Ethernet.Overwrite;
    var part := PutAll(slots[..k]);
    Ethernet.Advance(front + part, tail[|part|..], Put(slots[k]));
    assert tail[|part|..][|Put(slots[k])|..] == tail[|part| + |Put(slots[k])|..];
    assert front + (part + Put(slots[k])) == front + part + Put(slots[k]);
  }

  /** Writes the next slot of a layout. */
  method PutNext(b: array<byte>, off: nat, s: Slot, ghost front: bytes, ghost tail: bytes, ghost slots: seq<Slot>,
                 ghost k: nat) returns (next: nat)
    requires k < |slots| && s == slots[k]
    requires Filled(b[..], front, tail, slots, k, off)
    modifies b
    ensures Filled(b[..], front, tail, slots, k + 1, next)
  {
    hide Put, Filled;
    FilledMore(b[..], front, tail, slots, k, off);
    next := off + |Put(s)|;
    Ethernet.CopyInto(b, off, Put(s));
  }

  // ------------------------------------------------------------------ header

  datatype Header = Header(
    messageType: nat, transportSpecific: nat, versionPtp: nat, messageLength: nat, domain: nat, minorSdoId: nat,
    flags: nat, correction: int, reserved: nat, source: PortIdentity, sequence: nat, control: nat, logInterval: int)

  const INT64: int := 0x1_0000_0000_0000_0000

  /** Two half octets. */
  function Octet(high: nat, low: nat): byte { high % 16 * 16 + low % 16 }

  predicate ValidHeader(h: Header) {
    && h.messageType < 16 && h.transportSpecific < 16 && h.versionPtp < 16 && h.minorSdoId < 16
    && h.messageLength < 0x1_0000 && h.domain < 0x100 && h.flags < 0x1_0000
    && -INT64 <= 2 * h.correction < INT64 && h.reserved < 0x1_0000_0000 && h.source.port < 0x1_0000
    && h.sequence < 0x1_0000 && h.control < 0x100 && -128 <= h.logInterval < 128
  }

  /** Up to the correction field. */
  function HeaderFront(h: Header): (r: seq<Slot>)
    ensures |r| == 7
  {
    [Num(Octet(h.transportSpecific, h.messageType), 1), Num(Octet(h.minorSdoId, h.versionPtp), 1),
     Num(h.messageLength, 2), Num(h.domain, 1), Num(0, 1), Num(h.flags, 2), Num(Wrapped(h.correction, INT64), 8)]
  }

  function HeaderBack(h: Header): (r: seq<Slot>)
    ensures |r| == 6
  {
    [Num(h.reserved, 4), Raw(h.source.clock), Num(h.source.port, 2), Num(h.sequence, 2), Num(h.control, 1),
     Num(Wrapped(h.logInterval, 256), 1)]
  }

  function HeaderBytes(h: Header): bytes { PutAll(HeaderFront(h)) + PutAll(HeaderBack(h)) }

  method EncodeHeader(h: Header, dst: array<byte>)
    requires dst.Length >= HEADER_SIZE
    modifies dst
    ensures dst[..] == HeaderBytes(h) + old(dst[HEADER_SIZE..])
  {
    ghost var tail, written := dst[..], PutAll(HeaderFront(h));
    HeaderSizes(h);
    WriteHeaderFront(h, dst);
    WriteHeaderBack(h, dst, written);
    assert tail[16..][18..] == tail[34..];
  }

  method WriteHeaderFront(h: Header, dst: array<byte>)
    requires dst.Length >= HEADER_SIZE
    modifies dst
    ensures dst[..] == PutAll(HeaderFront(h)) + old(dst[16..])
  {
    hide PutAll, PutUint, Filled, Octet, Wrapped, Upper, Lower;
    ghost var ss, front, tail: bytes := HeaderFront(h), [], dst[..];
    HeaderSizes(h);
    FilledStart(front, tail, ss);
    assert [] + tail == tail;
    var off := PutNext(dst, 0, Num(Octet(h.transportSpecific, h.messageType), 1), front, tail, ss, 0);
    off := PutNext(dst, off, Num(Octet(h.minorSdoId, h.versionPtp), 1), front, tail, ss, 1);
    off := PutNext(dst, off, Num(h.messageLength, 2), front, tail, ss, 2);
    off := PutNext(dst, off, Num(h.domain, 1), front, tail, ss, 3);
    off := PutNext(dst, off, Num(0, 1), front, tail, ss, 4);
    off := PutNext(dst, off, Num(h.flags, 2), front, tail, ss, 5);
    off := PutNext(dst, off, Num(Wrapped(h.correction, INT64), 8), front, tail, ss, 6);
    FilledEnd(dst[..], front, tail, ss, off);
    assert [] + PutAll(ss) == PutAll(ss);
  }

  method WriteHeaderBack(h: Header, dst: array<byte>, ghost front: bytes)
    requires dst.Length >= HEADER_SIZE && |front| == 16 && dst[..16] == front
    modifies dst
    ensures dst[..] == front + PutAll(HeaderBack(h)) + old(dst[34..])
  {
    hide PutAll, PutUint, Filled, Octet, Wrapped, Upper, Lower;
    ghost var ss, tail := HeaderBack(h), dst[16..];
    HeaderSizes(h);
    FilledStart(front, tail, ss);
    assert front + tail == dst[..] && tail[18..] == dst[34..];
    var off := PutNext(dst, 16, Num(h.reserved, 4), front, tail, ss, 0);
    off := PutNext(dst, off, Raw(h.source.clock), front, tail, ss, 1);
    off := PutNext(dst, off, Num(h.source.port, 2), front, tail, ss, 2);
    off := PutNext(dst, off, Num(h.sequence, 2), front, tail, ss, 3);
    off := PutNext(dst, off, Num(h.control, 1), front, tail, ss, 4);
    off := PutNext(dst, off, Num(Wrapped(h.logInterval, 256), 1), front, tail, ss, 5);
    FilledEnd(dst[..], front, tail, ss, off);
  }

  lemma HeaderSizes(h: Header)
    ensures |PutAll(HeaderFront(h))| == 16 && |PutAll(HeaderBack(h))| == 18
  {
    Size7(HeaderFront(h));
    Size6(HeaderBack(h));
    hide PutUint, PutAll;
  }

  lemma Size7(ss: seq<Slot>)
    requires |ss| == 7
    ensures |PutAll(ss)| == |Put(ss[0])| + |Put(ss[1])| + |Put(ss[2])| + |Put(ss[3])| + |Put(ss[4])| + |Put(ss[5])|
      + |Put(ss[6])|
  {
    hide Put;
    Size6(ss[1..]);
  }

  lemma Size6(ss: seq<Slot>)
    requires |ss| == 6
    ensures |PutAll(ss)| == |Put(ss[0])| + |Put(ss[1])| + |Put(ss[2])| + |Put(ss[3])| + |Put(ss[4])| + |Put(ss[5])|
  {
    hide Put;
    assert ss[1..][1..] == ss[2..] && ss[2..][1..] == ss[3..] && ss[3..][1..] == ss[4..] && ss[4..][1..] == ss[5..]
      && ss[5..][1..] == [];
    assert |PutAll(ss[5..])| == |Put(ss[5])|;
    assert |PutAll(ss[4..])| == |Put(ss[4])| + |PutAll(ss[5..])|;
    assert |PutAll(ss[3..])| == |Put(ss[3])| + |PutAll(ss[4..])|;
    assert |PutAll(ss[2..])| == |Put(ss[2])| + |PutAll(ss[3..])|;
    assert |PutAll(ss[1..])| == |Put(ss[1])| + |PutAll(ss[2..])|;
  }

  /** Nothing if the octets are fewer than the message says, or than a header. */
  function DecodeHeader(b: bytes): Option<Header> {
    if |b| < HEADER_SIZE then None
    else
      var length := GetUint(b[2..4]);
      if length < HEADER_SIZE || length > |b| then None
      else
        Some(Header(b[0] % 16, b[0] / 16, b[1] % 16, length, b[4], b[1] / 16, GetUint(b[6..8]),
                    FromUnsigned(GetUint(b[8..16]), INT64), GetUint(b[16..20]),
                    PortIdentity(b[20..28], GetUint(b[28..30])), GetUint(b[30..32]), b[32],
                    FromUnsigned(b[33], 256)))
  }

  lemma HeaderFrontFits(h: Header)
    requires ValidHeader(h)
    ensures forall k | 0 <= k < 7 :: Fits(HeaderFront(h)[k])
  {
  }

  /** What a header's octets hold at the decoder's offsets. */
  lemma HeaderFrontReads(b: bytes, h: Header)
    requires ValidHeader(h) && Ber.At(b, 0, PutAll(HeaderFront(h)))
    ensures |b| >= 16
    ensures b[0] == Octet(h.transportSpecific, h.messageType) && b[1] == Octet(h.minorSdoId, h.versionPtp)
    ensures GetUint(b[2..4]) == h.messageLength && b[4] == h.domain && GetUint(b[6..8]) == h.flags
    ensures GetUint(b[8..16]) == Wrapped(h.correction, INT64)
  {
    var ss := HeaderFront(h);
    assert ss[0..] == ss;
    hide PutAll, GetUint, PutUint, Fits, Put, Ber.At, Octet, Wrapped, Upper, Lower, ValidHeader;
    HeaderFrontFits(h);
    ReadNum(b, 0, ss, 0, Octet(h.transportSpecific, h.messageType), 1);
    ReadNum(b, 1, ss, 1, Octet(h.minorSdoId, h.versionPtp), 1);
    ReadNum(b, 2, ss, 2, h.messageLength, 2);
    ReadNum(b, 4, ss, 3, h.domain, 1);
    HeaderMiddleReads(b, h);
  }

  lemma HeaderMiddleReads(b: bytes, h: Header)
    requires ValidHeader(h) && Ber.At(b, 5, PutAll(HeaderFront(h)[4..]))
    ensures |b| >= 16
    ensures GetUint(b[6..8]) == h.flags && GetUint(b[8..16]) == Wrapped(h.correction, INT64)
  {
    var ss := HeaderFront(h);
    hide PutAll, GetUint, PutUint, Fits, Put, Ber.At, Octet, Wrapped, ValidHeader;
    HeaderFrontFits(h);
    ReadNum(b, 5, ss, 4, 0, 1);
    ReadNum(b, 6, ss, 5, h.flags, 2);
    ReadNum(b, 8, ss, 6, Wrapped(h.correction, INT64), 8);
  }

  lemma HeaderBackFits(h: Header)
    requires ValidHeader(h)
    ensures forall k | 0 <= k < 6 :: Fits(HeaderBack(h)[k])
  {
  }

  lemma HeaderBackReads(b: bytes, h: Header)
    requires ValidHeader(h) && Ber.At(b, 16, PutAll(HeaderBack(h)))
    ensures |b| >= HEADER_SIZE
    ensures GetUint(b[16..20]) == h.reserved && b[20..28] == h.source.clock && GetUint(b[28..30]) == h.source.port
    ensures GetUint(b[30..32]) == h.sequence && b[32] == h.control && b[33] == Wrapped(h.logInterval, 256)
  {
    var ss := HeaderBack(h);
    assert ss[0..] == ss;
    hide PutAll, GetUint, PutUint, Fits, Put, Ber.At, Octet, Wrapped, Upper, Lower, ValidHeader;
    HeaderBackFits(h);
    ReadNum(b, 16, ss, 0, h.reserved, 4);
    RawPut(h.source.clock);
    ReadRaw(b, 20, ss, 1, h.source.clock);
    ReadNum(b, 28, ss, 2, h.source.port, 2);
    HeaderLastReads(b, h);
  }

  lemma HeaderLastReads(b: bytes, h: Header)
    requires ValidHeader(h) && Ber.At(b, 30, PutAll(HeaderBack(h)[3..]))
    ensures |b| >= HEADER_SIZE
    ensures GetUint(b[30..32]) == h.sequence && b[32] == h.control && b[33] == Wrapped(h.logInterval, 256)
  {
    var ss := HeaderBack(h);
    hide PutAll, GetUint, PutUint, Fits, Put, Ber.At, Octet, Wrapped, Upper, Lower, ValidHeader;
    HeaderBackFits(h);
    ReadNum(b, 30, ss, 3, h.sequence, 2);
    ReadNum(b, 32, ss, 4, h.control, 1);
    ReadNum(b, 33, ss, 5, Wrapped(h.logInterval, 256), 1);
  }

  /** A header in front of as many octets as it announces comes back. */
  lemma HeaderRoundTrip(h: Header, rest: bytes)
    requires ValidHeader(h) && HEADER_SIZE <= h.messageLength <= |HeaderBytes(h) + rest|
    ensures DecodeHeader(HeaderBytes(h) + rest) == Some(h)
  {
    var b := HeaderBytes(h) + rest;
    HeaderSizes(h);
    assert Ber.At(b, 0, HeaderBytes(h));
    hide GetUint, FromUnsigned, Ber.At, PutAll, Octet, Wrapped;
    Ber.AtSplit(b, 0, PutAll(HeaderFront(h)), PutAll(HeaderBack(h)));
    HeaderFrontReads(b, h);
    HeaderBackReads(b, h);
    Nibbles(h.transportSpecific, h.messageType);
    Nibbles(h.minorSdoId, h.versionPtp);
    SignedBack(h.correction, INT64);
    SignedBack(h.logInterval, 256);
  }

  lemma Nibbles(high: nat, low: nat)
    requires high < 16 && low < 16
    ensures Octet(high, low) % 16 == low && Octet(high, low) / 16 == high
  {
  }

  // ---------------------------------------------------------------- Announce

  datatype Timestamp = Timestamp(seconds: nat, nanoseconds: nat)

  datatype AnnounceBody = AnnounceBody(
    origin: Timestamp, utcOffset: int, reserved: nat, priority1: nat, clockClass: nat, clockAccuracy: nat,
    variance: nat, priority2: nat, identity: ClockIdentity, stepsRemoved: nat, timeSource: nat)

  predicate ValidBody(a: AnnounceBody) {
    && a.origin.seconds < 0x1_0000_0000_0000 && a.origin.nanoseconds < 0x1_0000_0000
    && -0x8000 <= a.utcOffset < 0x8000 && a.reserved < 0x100 && a.priority1 < 0x100 && a.clockClass < 0x100
    && a.clockAccuracy < 0x100 && a.variance < 0x1_0000 && a.priority2 < 0x100 && a.stepsRemoved < 0x1_0000
    && a.timeSource < 0x100
  }

  const WORD: nat := 0x1_0000_0000

  /** The seconds are split into two words. */
  function Upper(seconds: nat): nat { seconds / WORD }

  function Lower(seconds: nat): nat { seconds % WORD }

  /** Up to the clock class. */
  function BodyFront(a: AnnounceBody): (r: seq<Slot>)
    ensures |r| == 7
  {
    [Num(Upper(a.origin.seconds), 2), Num(Lower(a.origin.seconds), 4), Num(a.origin.nanoseconds, 4),
     Num(Wrapped(a.utcOffset, 0x1_0000), 2), Num(a.reserved, 1), Num(a.priority1, 1), Num(a.clockClass, 1)]
  }

  function BodyBack(a: AnnounceBody): (r: seq<Slot>)
    ensures |r| == 6
  {
    [Num(a.clockAccuracy, 1), Num(a.variance, 2), Num(a.priority2, 1), Raw(a.identity), Num(a.stepsRemoved, 2),
     Num(a.timeSource, 1)]
  }

  function BodyBytes(a: AnnounceBody): bytes { PutAll(BodyFront(a)) + PutAll(BodyBack(a)) }

  method EncodeAnnounceBody(dst: array<byte>, a: AnnounceBody)
    requires dst.Length >= HEADER_SIZE + BODY_SIZE
    modifies dst
    ensures dst[..] == old(dst[..HEADER_SIZE]) + BodyBytes(a) + old(dst[HEADER_SIZE + BODY_SIZE..])
  {
    hide PutAll, BodyFront, BodyBack;
    BodySizes(a);
    ghost var head, tail := dst[..34], dst[49..];
    ghost var front := head + PutAll(BodyFront(a));
    assert tail[15..] == dst[64..];
    WriteBodyFront(a, dst);
    CutAt(dst[..], front, tail, 15);
    assert dst[..49] == dst[..][..49] && dst[64..] == dst[..][64..];
    WriteBodyBack(a, dst, front);
    Grouped(head, PutAll(BodyFront(a)), PutAll(BodyBack(a)));
  }

  lemma CutAt(whole: bytes, front: bytes, tail: bytes, k: nat)
    requires whole == front + tail && k <= |tail|
    ensures whole[..|front|] == front && whole[|front| + k..] == tail[k..]
  {
  }

  method WriteBodyFront(a: AnnounceBody, dst: array<byte>)
    requires dst.Length >= HEADER_SIZE + BODY_SIZE
    modifies dst
    ensures dst[..] == old(dst[..34]) + PutAll(BodyFront(a)) + old(dst[49..])
  {
    hide PutAll, PutUint, Filled, Octet, Wrapped, Upper, Lower;
    ghost var ss, front, tail := BodyFront(a), dst[..34], dst[34..];
    BodySizes(a);
    FilledStart(front, tail, ss);
    assert front + tail == dst[..] && tail[15..] == dst[49..];
    var off := PutNext(dst, 34, Num(Upper(a.origin.seconds), 2), front, tail, ss, 0);
    off := PutNext(dst, off, Num(Lower(a.origin.seconds), 4), front, tail, ss, 1);
    off := PutNext(dst, off, Num(a.origin.nanoseconds, 4), front, tail, ss, 2);
    off := PutNext(dst, off, Num(Wrapped(a.utcOffset, 0x1_0000), 2), front, tail, ss, 3);
    off := PutNext(dst, off, Num(a.reserved, 1), front, tail, ss, 4);
    off := PutNext(dst, off, Num(a.priority1, 1), front, tail, ss, 5);
    off := PutNext(dst, off, Num(a.clockClass, 1), front, tail, ss, 6);
    FilledEnd(dst[..], front, tail, ss, off);
  }

  method WriteBodyBack(a: AnnounceBody, dst: array<byte>, ghost front: bytes)
    requires dst.Length >= HEADER_SIZE + BODY_SIZE && |front| == 49 && dst[..49] == front
    modifies dst
    ensures dst[..] == front + PutAll(BodyBack(a)) + old(dst[64..])
  {
    hide PutAll, PutUint, Filled, Octet, Wrapped, Upper, Lower;
    ghost var ss, tail := BodyBack(a), dst[49..];
    BodySizes(a);
    FilledStart(front, tail, ss);
    assert front + tail == dst[..] && tail[15..] == dst[64..];
    var off := PutNext(dst, 49, Num(a.clockAccuracy, 1), front, tail, ss, 0);
    off := PutNext(dst, off, Num(a.variance, 2), front, tail, ss, 1);
    off := PutNext(dst, off, Num(a.priority2, 1), front, tail, ss, 2);
    off := PutNext(dst, off, Raw(a.identity), front, tail, ss, 3);
    off := PutNext(dst, off, Num(a.stepsRemoved, 2), front, tail, ss, 4);
    off := PutNext(dst, off, Num(a.timeSource, 1), front, tail, ss, 5);
    FilledEnd(dst[..], front, tail, ss, off);
  }

  lemma BodySizes(a: AnnounceBody)
    ensures |PutAll(BodyFront(a))| == 15 && |PutAll(BodyBack(a))| == 15
  {
    Size7(BodyFront(a));
    Size6(BodyBack(a));
    hide PutUint, PutAll;
  }

  function DecodeAnnounceBody(b: bytes): Option<AnnounceBody> {
    if |b| < BODY_SIZE then None
    else
      Some(AnnounceBody(
        Timestamp(GetUint(b[0..2]) * WORD + GetUint(b[2..6]), GetUint(b[6..10])),
        FromUnsigned(GetUint(b[10..12]), 0x1_0000), b[12], b[13], b[14], b[15], GetUint(b[16..18]), b[18], b[19..27],
        GetUint(b[27..29]), b[29]))
  }

  lemma BodyFrontFits(a: AnnounceBody)
    requires ValidBody(a)
    ensures forall k | 0 <= k < 7 :: Fits(BodyFront(a)[k])
  {
  }

  lemma BodyFrontReads(b: bytes, a: AnnounceBody)
    requires ValidBody(a) && Ber.At(b, 0, PutAll(BodyFront(a)))
    ensures |b| >= 15
    ensures GetUint(b[0..2]) == Upper(a.origin.seconds) && GetUint(b[2..6]) == Lower(a.origin.seconds)
    ensures GetUint(b[6..10]) == a.origin.nanoseconds
    ensures |b| >= 15 && GetUint(b[10..12]) == Wrapped(a.utcOffset, 0x1_0000)
    ensures b[12] == a.reserved && b[13] == a.priority1 && b[14] == a.clockClass
  {
    var ss := BodyFront(a);
    assert ss[0..] == ss;
    hide PutAll, GetUint, PutUint, Fits, Put, Ber.At, Octet, Wrapped, Upper, Lower, ValidBody;
    BodyFrontFits(a);
    ReadNum(b, 0, ss, 0, Upper(a.origin.seconds), 2);
    ReadNum(b, 2, ss, 1, Lower(a.origin.seconds), 4);
    ReadNum(b, 6, ss, 2, a.origin.nanoseconds, 4);
    BodyPrioritiesRead(b, a);
  }

  lemma BodyPrioritiesRead(b: bytes, a: AnnounceBody)
    requires ValidBody(a) && Ber.At(b, 10, PutAll(BodyFront(a)[3..]))
    ensures |b| >= 15 && GetUint(b[10..12]) == Wrapped(a.utcOffset, 0x1_0000)
    ensures b[12] == a.reserved && b[13] == a.priority1 && b[14] == a.clockClass
  {
    var ss := BodyFront(a);
    hide PutAll, GetUint, PutUint, Fits, Put, Ber.At, Octet, Wrapped, Upper, Lower, ValidBody;
    BodyFrontFits(a);
    ReadNum(b, 10, ss, 3, Wrapped(a.utcOffset, 0x1_0000), 2);
    ReadNum(b, 12, ss, 4, a.reserved, 1);
    ReadNum(b, 13, ss, 5, a.priority1, 1);
    ReadNum(b, 14, ss, 6, a.clockClass, 1);
  }

  lemma BodyBackFits(a: AnnounceBody)
    requires ValidBody(a)
    ensures forall k | 0 <= k < 6 :: Fits(BodyBack(a)[k])
  {
  }

  lemma BodyBackReads(b: bytes, a: AnnounceBody)
    requires ValidBody(a) && Ber.At(b, 15, PutAll(BodyBack(a)))
    ensures |b| >= BODY_SIZE
    ensures b[15] == a.clockAccuracy && GetUint(b[16..18]) == a.variance && b[18] == a.priority2
    ensures b[19..27] == a.identity && GetUint(b[27..29]) == a.stepsRemoved && b[29] == a.timeSource
  {
    var ss := BodyBack(a);
    assert ss[0..] == ss;
    hide PutAll, GetUint, PutUint, Fits, Put, Ber.At, Octet, Wrapped, Upper, Lower, ValidBody;
    BodyBackFits(a);
    ReadNum(b, 15, ss, 0, a.clockAccuracy, 1);
    ReadNum(b, 16, ss, 1, a.variance, 2);
    ReadNum(b, 18, ss, 2, a.priority2, 1);
    BodyLastReads(b, a);
  }

  lemma BodyLastReads(b: bytes, a: AnnounceBody)
    requires ValidBody(a) && Ber.At(b, 19, PutAll(BodyBack(a)[3..]))
    ensures |b| >= BODY_SIZE
    ensures b[19..27] == a.identity && GetUint(b[27..29]) == a.stepsRemoved && b[29] == a.timeSource
  {
    var ss := BodyBack(a);
    hide PutAll, GetUint, PutUint, Fits, Put, Ber.At, Octet, Wrapped, Upper, Lower, ValidBody;
    BodyBackFits(a);
    RawPut(a.identity);
    ReadRaw(b, 19, ss, 3, a.identity);
    ReadNum(b, 27, ss, 4, a.stepsRemoved, 2);
    ReadNum(b, 29, ss, 5, a.timeSource, 1);
  }

  lemma BodyRoundTrip(a: AnnounceBody, rest: bytes)
    requires ValidBody(a)
    ensures DecodeAnnounceBody(BodyBytes(a) + rest) == Some(a)
  {
    var b := BodyBytes(a) + rest;
    BodySizes(a);
    assert Ber.At(b, 0, BodyBytes(a));
    hide GetUint, FromUnsigned, Ber.At, PutAll, Octet, Wrapped;
    Ber.AtSplit(b, 0, PutAll(BodyFront(a)), PutAll(BodyBack(a)));
    BodyFrontReads(b, a);
    BodyBackReads(b, a);
    SignedBack(a.utcOffset, 0x1_0000);
  }
}
