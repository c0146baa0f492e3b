/** Sample slots: the rational grid of `rate` slots per second that the SV publisher keeps,
    computed in whole nanoseconds without accumulating error. */
module SampleSlots {
  import opened Arithmetic
  import opened UtcTime
  import Bytes

  /** samplesPerSecond with the fallback of the source. */
  function Rate(samplesPerSecond: int): (rate: nat)
    ensures rate > 0
  {
    if samplesPerSecond <= 0 then 4000 else samplesPerSecond
  }

  /** The slot that contains t. */
  function SlotAt(t: Time, samplesPerSecond: int): int {
    var rate := Rate(samplesPerSecond);
    Unix(t) * rate + Nanosecond(t) * rate / SECOND
  }

  /** Go's remainder has the sign of the dividend. */
  function Rem(a: int, b: nat): int
    requires b > 0
  {
    a - Quotient(a, b) * b
  }

  /** The quotient and remainder of the slot by the rate, as the source corrects them. */
  function Split(slot: int, rate: nat): (int, int)
    requires rate > 0
  {
    var remainder := Rem(slot, rate);
    if remainder < 0 then (Quotient(slot, rate) - 1, remainder + rate) else (Quotient(slot, rate), remainder)
  }

  function NanosecondPart(slot: int, samplesPerSecond: int): int {
    var rate := Rate(samplesPerSecond);
    (Split(slot, rate).1 * SECOND + rate - 1) / rate
  }

  /** The first nanosecond of a slot. */
  function SlotStart(slot: int, samplesPerSecond: int): Time {
    Split(slot, Rate(samplesPerSecond)).0 * SECOND + NanosecondPart(slot, samplesPerSecond)
  }

  /** The first slot of the first whole second after t. */
  function NextSecondSlot(t: Time, samplesPerSecond: int): int {
    (Unix(t) + 1) * Rate(samplesPerSecond)
  }

  /** The truncating division corrected for negative slots is a floor division. */
  lemma SplitFloor(slot: int, rate: nat)
    requires rate > 0
    ensures Split(slot, rate).0 * rate + Split(slot, rate).1 == slot
    ensures 0 <= Split(slot, rate).1 < rate
  {
    var n := if slot >= 0 then slot else -slot;
    var q, r := n / rate, n % rate;
    assert n == q * rate + r;
    if slot < 0 {
      assert Quotient(slot, rate) == -q;
      assert Rem(slot, rate) == slot - (-q) * rate == -r;
      assert (-q - 1) * rate == -(q * rate) - rate;
    } else {
      assert Rem(slot, rate) == r;
    }
  }

  /** A slot number is the floor of t * rate seconds. */
  lemma SlotAtFloor(t: Time, sps: int)
    ensures SlotAt(t, sps) * SECOND <= t * Rate(sps) < (SlotAt(t, sps) + 1) * SECOND
  {
    var rate, u, n := Rate(sps), Unix(t), Nanosecond(t);
    assert t == u * SECOND + n;
    var m := n * rate;
    assert t * rate == (u * rate) * SECOND + m;
    assert m / SECOND * SECOND <= m < (m / SECOND + 1) * SECOND;
  }

  /** A slot starts at the ceiling of slot / rate seconds. */
  lemma SlotStartCeiling(slot: int, sps: int)
    ensures (SlotStart(slot, sps) - 1) * Rate(sps) < slot * SECOND <= SlotStart(slot, sps) * Rate(sps)
  {
    var rate := Rate(sps);
    var (q, r) := Split(slot, rate);
    SplitFloor(slot, rate);
    var x := r * SECOND;
    var c := (x + rate - 1) / rate;
    Ceiling(x, rate);
    assert slot * SECOND == (q * rate + r) * SECOND == (q * SECOND) * rate + x;
    assert (q * SECOND + c) * rate == (q * SECOND) * rate + c * rate;
    assert (q * SECOND + c - 1) * rate == (q * SECOND) * rate + (c - 1) * rate;
  }

  lemma Ceiling(x: int, rate: nat)
    requires rate > 0
    ensures var c := (x + rate - 1) / rate; (c - 1) * rate < x <= c * rate
  {
    var c := (x + rate - 1) / rate;
    assert x + rate - 1 == c * rate + (x + rate - 1) % rate;
    assert (c - 1) * rate == c * rate - rate;
  }

  lemma Cancel(a: int, b: int, k: nat)
    requires k > 0
    ensures a * k < b * k ==> a < b
    ensures a <= b ==> a * k <= b * k
  {
    if a >= b { assert a * k >= b * k; }
  }

  /** Starting no later than t and being numbered no higher than t's slot are the same: the
      two computations are each other's adjoint, before and after the epoch, at any rate. */
  lemma Galois(slot: int, t: Time, sps: int)
    ensures SlotStart(slot, sps) <= t <==> slot <= SlotAt(t, sps)
  {
    var rate, s, k := Rate(sps), SlotStart(slot, sps), SlotAt(t, sps);
    SlotAtFloor(t, sps);
    SlotStartCeiling(slot, sps);
    hide *;
    if s <= t {
      Cancel(s, t, rate);
      assert slot * SECOND < (k + 1) * SECOND;
    } else {
      Cancel(t, s - 1, rate);
      assert k * SECOND < slot * SECOND;
    }
  }

  lemma SlotAtMonotone(t: Time, u: Time, sps: int)
    requires t <= u
    ensures SlotAt(t, sps) <= SlotAt(u, sps)
  {
    Galois(SlotAt(t, sps), t, sps);
    Galois(SlotAt(t, sps), u, sps);
    hide *;
  }

  /** Up to one slot per nanosecond, every slot contains its own start. */
  lemma SlotOfStart(slot: int, sps: int)
    requires Rate(sps) <= SECOND
    ensures SlotAt(SlotStart(slot, sps), sps) == slot
  {
    var rate, s := Rate(sps), SlotStart(slot, sps);
    var k := SlotAt(s, sps);
    SlotAtFloor(s, sps);
    SlotStartCeiling(slot, sps);
    hide *;
    assert (s - 1) * rate == s * rate - rate;
    assert k * SECOND < (slot + 1) * SECOND && slot * SECOND < (k + 1) * SECOND;
  }

  /** At a higher rate some slots contain no nanosecond at all; this is one of them. */
  function EmptySlot(rate: nat): nat
    requires rate > SECOND
  {
    (SECOND + (rate - SECOND) - 1) / (rate - SECOND)
  }

  lemma TooFast(sps: int)
    requires Rate(sps) > SECOND
    ensures SlotAt(SlotStart(EmptySlot(Rate(sps)), sps), sps) != EmptySlot(Rate(sps))
  {
    var rate, k := Rate(sps), EmptySlot(Rate(sps));
    var s := SlotStart(k, sps);
    var n, e := SlotAt(s, sps), rate - SECOND;
    Ceiling(SECOND, e);
    SlotAtFloor(s, sps);
    SlotStartCeiling(k, sps);
    hide *;
    Skipped(k, e, s, n);
  }

  /** Slot k starts at nanosecond k, which already belongs to a later slot. */
  lemma Skipped(k: int, e: nat, s: int, n: int)
    requires (k - 1) * e < SECOND <= k * e
    requires k * SECOND <= s * (SECOND + e) && n * SECOND <= s * (SECOND + e) < (n + 1) * SECOND
    ensures n != k
  {
    Cancel(k, s, SECOND + e);
    Cancel(s, k - 1, SECOND + e);
    assert k * (SECOND + e) == k * SECOND + k * e;
    assert (k - 1) * (SECOND + e) == (k - 1) * SECOND + (k - 1) * e;
  }

  /** The exact range of rates for which the slot of every slot's start is the slot itself. */
  lemma RoundTripRates(sps: int)
    ensures (forall slot :: SlotAt(SlotStart(slot, sps), sps) == slot) <==> Rate(sps) <= SECOND
  {
    if Rate(sps) <= SECOND {
      forall slot ensures SlotAt(SlotStart(slot, sps), sps) == slot { SlotOfStart(slot, sps); }
    } else {
      TooFast(sps);
    }
  }

  /** The nanoseconds handed to time.Unix stay within the second. */
  lemma NanosecondPartBound(slot: int, sps: int)
    requires Rate(sps) <= SECOND
    ensures 0 <= NanosecondPart(slot, sps) < SECOND
  {
    var rate := Rate(sps);
    var r := Split(slot, rate).1;
    SplitFloor(slot, rate);
    var c := NanosecondPart(slot, sps);
    Ceiling(r * SECOND, rate);
    assert r * SECOND <= (rate - 1) * SECOND == rate * SECOND - SECOND;
    assert (c - 1) * rate < rate * SECOND - SECOND <= (SECOND - 1) * rate;
    Cancel(c - 1, SECOND - 1, rate);
  }

  /** No drift: one second later the same slots start exactly one second later. */
  lemma NoDrift(slot: int, sps: int)
    ensures SlotStart(slot + Rate(sps), sps) == SlotStart(slot, sps) + SECOND
  {
    var rate := Rate(sps);
    var a, b := SlotStart(slot + rate, sps), SlotStart(slot, sps) + SECOND;
    SlotStartCeiling(slot + rate, sps);
    SlotStartCeiling(slot, sps);
    hide *;
    assert (slot + rate) * SECOND == slot * SECOND + rate * SECOND;
    assert b * rate == (b - SECOND) * rate + SECOND * rate;
    assert (b - 1) * rate == (b - SECOND - 1) * rate + SECOND * rate;
    Cancel(a - 1, b, rate);
    Cancel(b - 1, a, rate);
  }

  /** The ceiling of a whole number of seconds' slots is that second. */
  lemma WholeSecond(s: int, u: int, rate: nat)
    requires rate > 0 && (s - 1) * rate < u * rate * SECOND <= s * rate
    ensures s == u * SECOND
  {
    var w := u * SECOND;
    assert u * rate * SECOND == w * rate;
    Cancel(s - 1, w, rate);
    assert (w - 1) * rate == w * rate - rate;
    Cancel(w - 1, s, rate);
  }

  /** The slot chosen to start at is the one whose first nanosecond is the next whole second. */
  lemma NextSecondStart(t: Time, sps: int)
    ensures SlotStart(NextSecondSlot(t, sps), sps) == (Unix(t) + 1) * SECOND > t
    ensures NextSecondSlot(t, sps) % Rate(sps) == 0
    ensures SlotAt(t, sps) < NextSecondSlot(t, sps)
  {
    var rate, k, w := Rate(sps), NextSecondSlot(t, sps), (Unix(t) + 1) * SECOND;
    var s := SlotStart(k, sps);
    assert t < w;
    SlotStartCeiling(k, sps);
    Galois(k, t, sps);
    assert k == (Unix(t) + 1) * rate;
    var u := Unix(t) + 1;
    Bytes.MultipleMod(u, rate);
    hide *;
    WholeSecond(s, u, rate);
  }
}
