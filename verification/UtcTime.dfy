/** The eight-octet IEC 61850 UtcTime that GOOSE and SV share: whole seconds, a 24-bit
    binary fraction of a second, and a time quality octet. */
module UtcTime {
  import opened Bytes

  /** Nanoseconds since the Unix epoch. */
  type Time = int

  const SECOND: int := 1_000_000_000
  const TICKS: int := 0x100_0000

  /** time.Time{}, the instant for which IsZero holds: January 1, year 1. */
  const ZERO: Time := -62_135_596_800 * SECOND

  datatype TimeQuality = TimeQuality(
    leapSecondsKnown: bool, clockFailure: bool, clockNotSynchronized: bool, accuracy: byte)

  const UNSPECIFIED := TimeQuality(false, false, false, 31)

  function Unix(t: Time): int { t / SECOND }

  function Nanosecond(t: Time): (n: nat)
    ensures n < SECOND
  {
    t % SECOND
  }

  /** Whole 2^-24 s ticks in `nanos`. */
  function ToTicks(nanos: nat): nat { nanos * TICKS / SECOND }

  function FromTicks(ticks: nat): nat { ticks * SECOND / TICKS }

  function QualityOctet(q: TimeQuality): byte {
    (if q.leapSecondsKnown then 0x80 else 0) + (if q.clockFailure then 0x40 else 0)
    + (if q.clockNotSynchronized then 0x20 else 0) + q.accuracy % 0x20
  }

  function Encode(t: Time, q: TimeQuality): (r: bytes)
    ensures |r| == 8
  {
    PutUint(Unix(t) % 0x1_0000_0000, 4) + PutUint(ToTicks(Nanosecond(t)), 3) + [QualityOctet(q)]
  }

  function Decode(data: bytes): (Time, TimeQuality) {
    if |data| < 8 then (ZERO, UNSPECIFIED)
    else
      (GetUint(data[0..4]) * SECOND + FromTicks(GetUint(data[4..7])),
       TimeQuality(data[7] / 0x80 % 2 == 1, data[7] / 0x40 % 2 == 1, data[7] / 0x20 % 2 == 1,
                   data[7] % 0x20))
  }

  /** Instants whose second fits the unsigned 32-bit field. */
  predicate InRange(t: Time) { 0 <= Unix(t) < 0x1_0000_0000 }

  /** What is left of an instant after one trip over the wire. */
  function Quantise(t: Time): Time {
    Unix(t) * SECOND + FromTicks(ToTicks(Nanosecond(t)))
  }

  lemma TicksBound(nanos: nat)
    requires nanos < SECOND
    ensures ToTicks(nanos) < TICKS
    ensures FromTicks(ToTicks(nanos)) <= nanos <= FromTicks(ToTicks(nanos)) + 60
  {
  }

  lemma QualityRoundTrip(q: TimeQuality)
    ensures var o := QualityOctet(q);
      TimeQuality(o / 0x80 % 2 == 1, o / 0x40 % 2 == 1, o / 0x20 % 2 == 1, o % 0x20)
      == q.(accuracy := q.accuracy % 0x20)
  {
  }

  lemma RoundTrip(t: Time, q: TimeQuality)
    requires InRange(t)
    ensures Decode(Encode(t, q)) == (Quantise(t), q.(accuracy := q.accuracy % 0x20))
  {
    var seconds, ticks := Unix(t), ToTicks(Nanosecond(t));
    var s, f, o := PutUint(seconds, 4), PutUint(ticks, 3), [QualityOctet(q)];
    var e := Encode(t, q);
    assert e == s + f + o by {
      assert seconds % 0x1_0000_0000 == seconds;
    }
    assert e[0..4] == s && e[4..7] == f && e[7] == QualityOctet(q) by {
      hide *;
      Seams(s, f, o);
    }
    assert GetUint(s) == seconds && GetUint(f) == ticks by {
      Pow256Values();
      TicksBound(Nanosecond(t));
      GetPut(seconds, 4);
      GetPut(ticks, 3);
    }
    QualityRoundTrip(q);
  }

  /** A decoded instant is never later than the original and at most 60 ns earlier. */
  lemma QuantiseClose(t: Time)
    ensures Quantise(t) <= t <= Quantise(t) + 60
    ensures Unix(Quantise(t)) == Unix(t)
  {
    TicksBound(Nanosecond(t));
  }

  /** The wire keeps the order of instants. */
  lemma QuantiseMonotone(t: Time, u: Time)
    requires t <= u
    ensures Quantise(t) <= Quantise(u)
  {
    if Unix(t) == Unix(u) {
      var m, n := Nanosecond(t), Nanosecond(u);
      assert ToTicks(m) <= ToTicks(n);
    } else {
      QuantiseClose(t);
      QuantiseClose(u);
      assert Unix(t) * SECOND + SECOND <= Unix(u) * SECOND;
      assert Quantise(t) <= t < Unix(t) * SECOND + SECOND;
    }
  }

  /** Sending a decoded instant again loses at most one tick, and loses none exactly when
      its tick count is a multiple of 2^15, the ticks that are whole nanoseconds. */
  lemma Requantise(ticks: nat)
    requires ticks < TICKS
    ensures ToTicks(FromTicks(ticks)) == ticks || ToTicks(FromTicks(ticks)) + 1 == ticks
    ensures ToTicks(FromTicks(ticks)) == ticks <==> ticks % 0x8000 == 0
  {
    var product := ticks * SECOND;
    var n, r := product / TICKS, product % TICKS;
    assert product == n * TICKS + r;
    assert n * TICKS == ticks * SECOND - r;
    OddPart(ticks);
  }

  lemma Multiple(y: int)
    ensures 0x8000 * y % 0x8000 == 0
  {
  }

  /** 7277 is the inverse of 1953125 modulo 2^15. */
  lemma Cancel(ticks: int, m: int)
    requires 1_953_125 * ticks == 0x8000 * m
    ensures ticks % 0x8000 == 0
  {
    var y := 7277 * m - 433743 * ticks;
    assert 7277 * (1_953_125 * ticks) == 7277 * (0x8000 * m);
    assert ticks == 0x8000 * y;
    Multiple(y);
  }

  /** 10^9 is 2^9 times an odd number, so only multiples of 2^15 reach a multiple of 2^24. */
  lemma OddPart(ticks: nat)
    ensures ticks * SECOND % TICKS == 0 <==> ticks % 0x8000 == 0
  {
    var m := ticks * SECOND / TICKS;
    if ticks * SECOND % TICKS == 0 {
      assert ticks * SECOND == m * TICKS;
      Cancel(ticks, m);
    }
    if ticks % 0x8000 == 0 {
      WholeTicks(ticks / 0x8000);
    }
  }

  lemma WholeTicks(k: nat)
    ensures k * 0x8000 * SECOND % TICKS == 0
  {
    assert k * 0x8000 * SECOND == (k * 1_953_125) * TICKS;
  }
}
