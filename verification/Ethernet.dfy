/** Layer 2 headers with an optional 802.1Q tag, as both codecs write and read them, and
    the in-place buffer writes the encoders are made of. */
module Ethernet {
  import opened Wrappers
  import opened Bytes

  const VLAN_ETHER_TYPE: nat := 0x8100

  datatype VlanTag = VlanTag(priority: byte, dei: bool, vid: nat)

  datatype Header = Header(dst: bytes, src: bytes, vlan: Option<VlanTag>, etherType: nat)

  predicate ValidVlan(v: VlanTag) { v.priority < 8 && v.vid < 0x1000 }

  predicate ValidHeader(h: Header) {
    |h.dst| == 6 && |h.src| == 6 && h.etherType < 0x1_0000 && h.etherType != VLAN_ETHER_TYPE
    && (h.vlan.Some? ==> ValidVlan(h.vlan.value))
  }

  /** copy(frame[0:6], mac) into a zeroed buffer. */
  function SixOctets(mac: bytes): (r: bytes)
    ensures |r| == 6
  {
    if |mac| >= 6 then mac[..6] else mac + PutUint(0, 6 - |mac|)
  }

  function Tci(v: VlanTag): nat {
    v.priority % 8 * 0x2000 + v.vid % 0x1000 + if v.dei then 0x1000 else 0
  }

  function Encode(h: Header): (r: bytes)
    ensures |r| == if h.vlan.Some? then 18 else 14
  {
    SixOctets(h.dst) + SixOctets(h.src)
    + (if h.vlan.Some? then PutUint(VLAN_ETHER_TYPE, 2) + PutUint(Tci(h.vlan.value), 2) else [])
    + PutUint(h.etherType, 2)
  }

  /** The header and the offset of the payload; None when the frame is too short. */
  function Parse(frame: bytes): (r: Option<(Header, nat)>)
    ensures r.Some? ==> r.value.1 <= |frame|
  {
    if |frame| < 14 then None
    else
      var etherType := GetUint(frame[12..14]);
      if etherType != VLAN_ETHER_TYPE then
        Some((Header(frame[0..6], frame[6..12], None, etherType), 14))
      else if |frame| < 18 then None
      else
        var tci := GetUint(frame[14..16]);
        GetBound(frame[14..16]);
        Pow256Values();
        var vlan := VlanTag(tci / 0x2000, tci / 0x1000 % 2 == 1, tci % 0x1000);
        Some((Header(frame[0..6], frame[6..12], Some(vlan), GetUint(frame[16..18])), 18))
  }

  lemma TciFields(v: VlanTag)
    requires ValidVlan(v)
    ensures Tci(v) < 0x1_0000
    ensures VlanTag(Tci(v) / 0x2000, Tci(v) / 0x1000 % 2 == 1, Tci(v) % 0x1000) == v
  {
  }

  lemma Fields(d: bytes, s: bytes, p: bytes, q: bytes, e: bytes, payload: bytes)
    requires |d| == |s| == 6 && |p| == |q| == |e| == 2
    ensures var frame := d + s + (p + q) + e + payload;
      frame[0..6] == d && frame[6..12] == s && frame[12..14] == p && frame[14..16] == q
      && frame[16..18] == e
    ensures var frame := d + s + [] + e + payload;
      frame[0..6] == d && frame[6..12] == s && frame[12..14] == e
  {
  }

  lemma TaggedRoundTrip(h: Header, payload: bytes)
    requires ValidHeader(h) && h.vlan.Some?
    ensures Parse(Encode(h) + payload) == Some((h, 18))
  {
    Pow256Values();
    var p, q := PutUint(VLAN_ETHER_TYPE, 2), PutUint(Tci(h.vlan.value), 2);
    var e := PutUint(h.etherType, 2);
    GetPut(VLAN_ETHER_TYPE, 2);
    GetPut(h.etherType, 2);
    TciFields(h.vlan.value);
    GetPut(Tci(h.vlan.value), 2);
    Fields(h.dst, h.src, p, q, e, payload);
    assert Encode(h) == h.dst + h.src + (p + q) + e;
  }

  lemma UntaggedRoundTrip(h: Header, payload: bytes)
    requires ValidHeader(h) && h.vlan.None?
    ensures Parse(Encode(h) + payload) == Some((h, 14))
  {
    Pow256Values();
    var e := PutUint(h.etherType, 2);
    GetPut(h.etherType, 2);
    Fields(h.dst, h.src, e, e, e, payload);
    assert Encode(h) == h.dst + h.src + [] + e;
  }

  lemma HeaderRoundTrip(h: Header, payload: bytes)
    requires ValidHeader(h)
    ensures Parse(Encode(h) + payload) == Some((h, |Encode(h)|))
  {
    if h.vlan.Some? { TaggedRoundTrip(h, payload); } else { UntaggedRoundTrip(h, payload); }
  }

  /** `buffer` with `part` written over it at `offset`. */
  function Overwrite(buffer: bytes, offset: nat, part: bytes): bytes
    requires offset + |part| <= |buffer|
  {
    buffer[..offset] + part + buffer[offset + |part|..]
  }

  /** Writing right behind what is already written. */
  lemma Advance(written: bytes, rest: bytes, part: bytes)
    requires |part| <= |rest|
    ensures Overwrite(written + rest, |written|, part) == written + part + rest[|part|..]
  {
  }

  lemma OverwriteMore(buffer: bytes, offset: nat, src: bytes, i: nat)
    requires offset + |src| <= |buffer| && i < |src|
    ensures Overwrite(buffer, offset, src[..i])[offset + i := src[i]]
         == Overwrite(buffer, offset, src[..i + 1])
  {
  }

  /** Go's copy into a buffer that is large enough. */
  method CopyInto(dst: array<byte>, offset: nat, src: bytes)
    requires offset + |src| <= dst.Length
    modifies dst
    ensures dst[..] == Overwrite(old(dst[..]), offset, src)
  {
    ghost var was := dst[..];
    assert was == Overwrite(was, offset, src[..0]);
    for i := 0 to |src|
      invariant dst[..] == Overwrite(was, offset, src[..i])
    {
      hide Overwrite;
      ghost var before := dst[..];
      dst[offset + i] := src[i];
      OverwriteMore(was, offset, src, i);
      assert dst[..] == before[offset + i := src[i]];
    }
    assert src[..|src|] == src;
  }

  /** One address copied into six zeroed octets. */
  method WriteMac(frame: array<byte>, offset: nat, address: bytes)
    requires offset + 6 <= frame.Length
    requires forall i | offset <= i < offset + 6 :: frame[i] == 0
    modifies frame
    ensures frame[..] == Overwrite(old(frame[..]), offset, SixOctets(address))
  {
    ghost var rest := frame[offset..];
    var mac := if |address| > 6 then address[..6] else address;
    CopyInto(frame, offset, mac);
    ZeroTail(mac, rest);
    assert frame[..] == old(frame[..offset]) + (mac + rest[|mac|..]);
  }

  method WriteMacs(frame: array<byte>, dst: bytes, src: bytes)
    requires frame.Length >= 12
    requires forall i | 0 <= i < 12 :: frame[i] == 0
    modifies frame
    ensures frame[..] == SixOctets(dst) + SixOctets(src) + old(frame[12..])
  {
    ghost var was := frame[..];
    WriteMac(frame, 0, dst);
    assert frame[..] == SixOctets(dst) + was[6..];
    WriteMac(frame, 6, src);
    Advance(SixOctets(dst), was[6..], SixOctets(src));
    assert was[6..][6..] == was[12..];
  }

  /** The header written field by field into the front of a zeroed frame buffer. */
  method WriteHeader(frame: array<byte>, h: Header)
    requires frame.Length >= |Encode(h)|
    requires forall i | 0 <= i < 12 :: frame[i] == 0
    modifies frame
    ensures frame[..] == Encode(h) + old(frame[|Encode(h)|..])
  {
    ghost var was := frame[..];
    ghost var macs, e := SixOctets(h.dst) + SixOctets(h.src), PutUint(h.etherType, 2);
    WriteMacs(frame, h.dst, h.src);
    if h.vlan.Some? {
      var tci := h.vlan.value.priority % 8 * 0x2000 + h.vlan.value.vid % 0x1000;
      if h.vlan.value.dei {
        tci := tci + 0x1000;
      }
      CopyInto(frame, 12, PutUint(VLAN_ETHER_TYPE, 2));
      CopyInto(frame, 14, PutUint(tci, 2));
      CopyInto(frame, 16, PutUint(h.etherType, 2));
      TaggedWrites(macs, was, PutUint(VLAN_ETHER_TYPE, 2), PutUint(tci, 2), e);
    } else {
      CopyInto(frame, 12, PutUint(h.etherType, 2));
      Advance(macs, was[12..], e);
      assert macs + [] + e == macs + e;
    }
  }

  lemma TaggedWrites(macs: bytes, was: bytes, p: bytes, q: bytes, e: bytes)
    requires |macs| == 12 && |p| == |q| == |e| == 2 && |was| >= 18
    ensures Overwrite(Overwrite(Overwrite(macs + was[12..], 12, p), 14, q), 16, e)
         == macs + (p + q) + e + was[18..]
  {
    Advance(macs, was[12..], p);
    assert was[12..][2..] == was[14..] && was[14..][2..] == was[16..] && was[16..][2..] == was[18..];
    Advance(macs + p, was[14..], q);
    Advance(macs + p + q, was[16..], e);
    assert macs + p + q == macs + (p + q);
  }

  lemma {:induction false} Zeros(n: nat)
    ensures forall i | 0 <= i < n :: PutUint(0, n)[i] == 0
  {
    if n > 0 { Zeros(n - 1); }
  }

  lemma ZeroTail(mac: bytes, buffer: bytes)
    requires |mac| <= 6 <= |buffer| && forall i | 0 <= i < 6 :: buffer[i] == 0
    ensures mac + buffer[|mac|..] == SixOctets(mac) + buffer[6..]
  {
    Zeros(6 - |mac|);
  }

  // ------------------------------------------------------------- APDU header

  /** AppID, Length, Reserved1 with the simulation bit, Reserved2. */
  function ApduHeader(appId: nat, length: nat, simulation: bool): (r: bytes)
    ensures |r| == 8
  {
    PutUint(appId, 2) + PutUint(length, 2)
    + PutUint(if simulation then 0x8000 else 0, 2) + PutUint(0, 2)
  }

  lemma HeaderFields(appId: nat, length: nat, simulation: bool)
    requires appId < 0x1_0000 && length < 0x1_0000
    ensures var w := ApduHeader(appId, length, simulation);
      && GetUint(w[0..2]) == appId && GetUint(w[2..4]) == length
      && GetUint(w[4..6]) == (if simulation then 0x8000 else 0) && GetUint(w[6..8]) == 0
  {
    hide PutUint, GetUint;
    HalfWord(appId);
    HalfWord(length);
    HalfWord(if simulation then 0x8000 else 0);
    HalfWord(0);
    FourWords(PutUint(appId, 2), PutUint(length, 2), PutUint(if simulation then 0x8000 else 0, 2), PutUint(0, 2));
  }

  lemma FourWords(a: bytes, b: bytes, c: bytes, d: bytes)
    requires |a| == |b| == |c| == |d| == 2
    ensures var w := a + b + c + d; w[0..2] == a && w[2..4] == b && w[4..6] == c && w[6..8] == d
  {
  }

  lemma Words(eth: bytes, w: bytes, payload: bytes, padding: bytes)
    requires |w| == 8
    ensures var frame, n := eth + (w + payload) + padding, |eth|;
      && |frame| >= n + 8
      && frame[n..n + 2] == w[0..2] && frame[n + 2..n + 4] == w[2..4] && frame[n + 4..n + 6] == w[4..6]
      && frame[n + 6..n + 8] == w[6..8]
      && n + 8 + |payload| <= |frame| && frame[n + 8..n + 8 + |payload|] == payload
  {
    var frame := eth + (w + payload) + padding;
    assert frame == (eth + w) + payload + padding;
    Seams(eth + w, payload, padding);
  }
}
