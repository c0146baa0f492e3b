/** SV reception: which samples are accepted, and how smpCnt gaps are accounted. */
module SvSubscriber {
  import opened Wrappers
  import opened Bytes
  import SampleWindow

  type Entry = SampleWindow.Entry

  const U16: nat := 0x1_0000

  /** One ASDU; its values are physical ones. */
  datatype Sample = Sample(smpCnt: nat, confRev: nat, smpSynch: nat, smpRate: nat, values: SampleWindow.Sample)

  datatype Subscription = Subscription(smpRate: nat, sampleTimingFrequency: nat)

  datatype Gap = Gap(expected: nat, missed: int, forward: bool)

  /** The counter period that fits the last counter value, or zero when none is recognised:
      the configured timing frequency decides, else the smaller fitting one of 50 and 60 Hz. */
  function SmpCntModulo(smpRate: nat, timingFrequency: nat, previous: nat): nat {
    if smpRate == 0 then 0
    else if timingFrequency == 50 || timingFrequency == 60 then
      var candidate := smpRate * timingFrequency;
      if candidate / 2 <= previous < candidate then candidate else 0
    else if smpRate * 50 / 2 <= previous < smpRate * 50 then smpRate * 50
    else if smpRate * 60 / 2 <= previous < smpRate * 60 then smpRate * 60
    else 0
  }

  function SmpCntGap(previous: nat, current: nat, smpRate: nat, timingFrequency: nat): Gap {
    var expected := (previous + 1) % U16;
    if current == expected then Gap(expected, 0, true)
    else if current == previous then Gap(expected, 0, false)
    else if current > previous then Gap(expected, current - previous - 1, true)
    else
      var recognised := SmpCntModulo(smpRate, timingFrequency, previous);
      var modulo := if recognised == 0 then U16 else recognised;
      var missed := modulo - previous - 1 + current;
      if missed < 0 || missed >= modulo / 2 then Gap(expected, 0, false)
      else Gap(expected, missed, true)
  }

  /** The rate an ASDU declares goes first, then the configured one. */
  function EffectiveRate(x: Sample, sub: Subscription): (rate: nat)
    ensures 0 < rate && (x.smpRate > 0 ==> rate == x.smpRate)
    ensures x.smpRate == 0 ==> rate == sub.smpRate || (sub.smpRate == 0 && rate == 80)
  {
    if x.smpRate != 0 then x.smpRate else if sub.smpRate != 0 then sub.smpRate else 80
  }

  /** `measured` are the samples in the measurement window, oldest first. */
  datatype Stream = Stream(
    lastSmpCnt: nat, lastConfRev: nat, lastSynch: nat, lastSeenAt: int, seen: bool, lost: bool,
    samplesReceived: nat, gapEvents: nat, missedTotal: nat, sampleIndex: nat, windowSize: nat,
    measured: seq<Entry>)

  const UNSEEN := Stream(0, 0, 0, 0, false, false, 0, 0, 0, 0, 0, [])

  function GapOf(s: Stream, x: Sample, sub: Subscription): Gap {
    SmpCntGap(s.lastSmpCnt, x.smpCnt, EffectiveRate(x, sub), sub.sampleTimingFrequency)
  }

  predicate ConfRevChanged(s: Stream, x: Sample) { s.seen && x.confRev != s.lastConfRev }

  /** Within a continuous segment a sample must not fall behind; a first sample, one after a
      loss, and one with a new confRev start a segment. */
  predicate Continuous(s: Stream, x: Sample) { s.seen && !s.lost && !ConfRevChanged(s, x) }

  predicate Accepts(s: Stream, x: Sample, sub: Subscription) {
    !(Continuous(s, x) && x.smpCnt != GapOf(s, x, sub).expected && !GapOf(s, x, sub).forward)
  }

  predicate HasGap(s: Stream, x: Sample, sub: Subscription) {
    var g := GapOf(s, x, sub);
    Continuous(s, x) && x.smpCnt != g.expected && g.forward && g.missed > 0
  }

  /** The window after a sample: what it held is dropped when the segment ends or the rate
      asks for another size. */
  function Measured(s: Stream, reset: bool, size: nat, e: Entry): seq<Entry> {
    SampleWindow.Newest((if reset || size != s.windowSize then [] else s.measured) + [e], size)
  }

  function Next(s: Stream, x: Sample, sub: Subscription, receivedAt: int): Stream {
    if !Accepts(s, x, sub) then s
    else
      var gap := HasGap(s, x, sub);
      Entered(s, x, sub, receivedAt, s.lost || ConfRevChanged(s, x) || gap, if gap then GapOf(s, x, sub).missed else 0)
  }

  /** The stream after an accepted sample, with the samples missed before it. */
  function Entered(s: Stream, x: Sample, sub: Subscription, receivedAt: int, reset: bool, missed: nat): Stream {
    var size := SampleWindow.WindowSize(EffectiveRate(x, sub));
    Stream(x.smpCnt, x.confRev, x.smpSynch, receivedAt, true, false, s.samplesReceived + 1,
           if missed > 0 then s.gapEvents + 1 else s.gapEvents, s.missedTotal + missed, s.sampleIndex + 1, size,
           Measured(s, reset, size, SampleWindow.Entry(s.sampleIndex + 1, x.values)))
  }

  datatype Reason = StreamRestored | FirstSeen | SmpCntGapped | ConfRevChange | SyncChanged

  function Reasons(s: Stream, x: Sample, sub: Subscription): seq<Reason> {
    if !Accepts(s, x, sub) then []
    else
      (if s.lost then [StreamRestored] else [])
      + if !s.seen then [FirstSeen]
        else (if HasGap(s, x, sub) then [SmpCntGapped] else [])
             + (if ConfRevChanged(s, x) then [ConfRevChange] else [])
             + (if x.smpSynch != s.lastSynch then [SyncChanged] else [])
  }

  const STREAM_LOST_TIMEOUT: int := 100_000_000

  predicate Expired(s: Stream, now: int) { s.seen && !s.lost && now - s.lastSeenAt > STREAM_LOST_TIMEOUT }

  function Checked(s: Stream, now: int): Stream { if Expired(s, now) then s.(lost := true) else s }

  class StreamState {
    const sub: Subscription
    const window: SampleWindow.Window
    var lastSmpCnt: nat
    var lastConfRev: nat
    var lastSynch: nat
    var lastSeenAt: int
    var seen: bool
    var lost: bool
    var samplesReceived: nat
    var gapEvents: nat
    var missedTotal: nat
    var sampleIndex: nat

    ghost function Value(): Stream
      requires window.Valid()
      reads this, window, window.values, window.index
    {
      Stream(lastSmpCnt, lastConfRev, lastSynch, lastSeenAt, seen, lost, samplesReceived, gapEvents, missedTotal,
             sampleIndex, window.size, window.Contents())
    }

    ghost predicate Valid()
      reads this, window, window.values, window.index
    {
      window.Valid() && Consecutive(Value())
    }

    constructor (sub: Subscription)
      ensures this.sub == sub && Valid() && Value() == UNSEEN
      ensures fresh(window) && fresh(window.values) && fresh(window.index)
    {
      this.sub := sub;
      window := new SampleWindow.Window();
      lastSmpCnt, lastConfRev, lastSynch, lastSeenAt, seen, lost := 0, 0, 0, 0, false, false;
      samplesReceived, gapEvents, missedTotal, sampleIndex := 0, 0, 0, 0;
    }

    /** A sample enters the measurement window, after a reset if the segment ended. */
    method FeedWindow(x: Sample, index: nat, reset: bool)
      requires window.Valid()
      modifies window, window.values, window.index
      ensures window.Valid() && window.size == SampleWindow.WindowSize(EffectiveRate(x, sub))
      ensures window.Contents() ==
        Measured(old(Value()), reset, window.size, SampleWindow.Entry(index, x.values))
      ensures window.values == old(window.values) || fresh(window.values)
      ensures window.index == old(window.index) || fresh(window.index)
    {
      hide SampleWindow.Newest, SampleWindow.WindowSize, EffectiveRate;
      if reset { window.Reset(); }
      window.Add(x.values, EffectiveRate(x, sub), index);
    }

    /** What is counted for an accepted sample and those missed before it. */
    method Count(x: Sample, receivedAt: int, missed: nat)
      modifies this
      ensures lastSmpCnt == x.smpCnt && lastConfRev == x.confRev && lastSynch == x.smpSynch
      ensures lastSeenAt == receivedAt && seen && !lost
      ensures gapEvents == old(gapEvents) + (if missed > 0 then 1 else 0) && missedTotal == old(missedTotal) + missed
      ensures samplesReceived == old(samplesReceived) + 1 && sampleIndex == old(sampleIndex) + 1
    {
      if missed > 0 {
        gapEvents, missedTotal := gapEvents + 1, missedTotal + missed;
      }
      lastSmpCnt, lastConfRev, lastSynch, lastSeenAt := x.smpCnt, x.confRev, x.smpSynch, receivedAt;
      seen, lost := true, false;
      samplesReceived, sampleIndex := samplesReceived + 1, sampleIndex + 1;
    }

    /** An accepted sample with the gap before it, if any. */
    method Enter(x: Sample, receivedAt: int, reset: bool, missed: nat)
      requires window.Valid()
      modifies this, window, window.values, window.index
      ensures window.Valid() && Value() == Entered(old(Value()), x, sub, receivedAt, reset, missed)
      ensures window.values == old(window.values) || fresh(window.values)
      ensures window.index == old(window.index) || fresh(window.index)
    {
      hide Measured, SampleWindow.WindowSize, EffectiveRate;
      FeedWindow(x, sampleIndex + 1, reset);
      Count(x, receivedAt, missed);
    }

    method HandleMatch(x: Sample, receivedAt: int) returns (reasons: seq<Reason>)
      requires Valid()
      modifies this, window, window.values, window.index
      ensures Valid() && Value() == Next(old(Value()), x, sub, receivedAt)
      ensures reasons == Reasons(old(Value()), x, sub)
      ensures window.values == old(window.values) || fresh(window.values)
      ensures window.index == old(window.index) || fresh(window.index)
    {
      hide SmpCntGap, Entered, Consecutive;
      NextConsecutive(Value(), x, sub, receivedAt);
      var isFirst, wasLost := !seen, lost;
      var prevSynch := lastSynch;
      var confRevChanged := !isFirst && x.confRev != lastConfRev;
      var gap := SmpCntGap(lastSmpCnt, x.smpCnt, EffectiveRate(x, sub), sub.sampleTimingFrequency);
      if !isFirst && !wasLost && !confRevChanged && x.smpCnt != gap.expected && !gap.forward {
        return [];
      }
      var hasGap := !isFirst && !wasLost && !confRevChanged && x.smpCnt != gap.expected
        && gap.forward && gap.missed > 0;
      Enter(x, receivedAt, wasLost || confRevChanged || hasGap, if hasGap then gap.missed else 0);
      reasons := if wasLost then [StreamRestored] else [];
      if isFirst {
        return reasons + [FirstSeen];
      }
      if hasGap {
        reasons := reasons + [SmpCntGapped];
      }
      if confRevChanged {
        reasons := reasons + [ConfRevChange];
      }
      if x.smpSynch != prevSynch {
        reasons := reasons + [SyncChanged];
      }
    }

    /** One stream's turn in the watchdog's scan. */
    method CheckStale(now: int) returns (expired: bool)
      requires Valid()
      modifies this`lost
      ensures Valid() && Value() == Checked(old(Value()), now)
      ensures expired == Expired(old(Value()), now)
    {
      if !seen || lost { return false; }
      if now - lastSeenAt > STREAM_LOST_TIMEOUT {
        lost := true;
        return true;
      }
      return false;
    }

    /** The live slots of the window, read from the oldest position, hold consecutive sample
        indices up to the newest one. */
    lemma LiveIndices(i: nat)
      requires Valid() && i < window.count
      ensures (window.OldestPosition() + i) % window.size < window.index.Length
      ensures window.index[(window.OldestPosition() + i) % window.size] == sampleIndex - window.count + 1 + i
    {
      window.LiveSlot(i);
      window.ContentsLength();
    }
  }

  // ------------------------------------------------------- what is accepted

  /** The first sample, one after a loss and one with a new confRev are always accepted, with
      none missed before them. */
  lemma SegmentStarts(s: Stream, x: Sample, sub: Subscription, at: int)
    requires !Continuous(s, x)
    ensures Accepts(s, x, sub)
    ensures var t := Next(s, x, sub, at);
      t.samplesReceived == s.samplesReceived + 1 && t.missedTotal == s.missedTotal && t.lastSmpCnt == x.smpCnt
  {
  }

  /** Within a segment a sample is accepted exactly if its counter went up, or round the period
      from the second half of it with less than half a period missing. */
  lemma AcceptsExactly(s: Stream, x: Sample, sub: Subscription, rate: nat, m: nat)
    requires Periodic(sub, rate, m) && s.lastSmpCnt < m && InSegment(s, x, sub, rate, m)
    ensures Accepts(s, x, sub) <==>
      || s.lastSmpCnt < x.smpCnt
      || (x.smpCnt < s.lastSmpCnt && m / 2 <= s.lastSmpCnt && m - s.lastSmpCnt - 1 + x.smpCnt < m / 2)
  {
  }

  /** The reasons reported are just the differences between the stream before and after, and
      the measurement window starts anew exactly with a restored stream, a gap, a new confRev or
      a new size. */
  lemma ReasonsTell(s: Stream, x: Sample, sub: Subscription, at: int)
    ensures var t, reasons := Next(s, x, sub, at), Reasons(s, x, sub);
      && (reasons != [] ==> t.samplesReceived == s.samplesReceived + 1)
      && (StreamRestored in reasons <==> s.lost && !t.lost)
      && (FirstSeen in reasons <==> !s.seen && t.seen)
      && (s.seen ==>
            && (SmpCntGapped in reasons <==> s.missedTotal < t.missedTotal)
            && (ConfRevChange in reasons <==> t.lastConfRev != s.lastConfRev)
            && (SyncChanged in reasons <==> t.lastSynch != s.lastSynch))
    ensures var t, reasons := Next(s, x, sub, at), Reasons(s, x, sub);
      var e := SampleWindow.Entry(s.sampleIndex + 1, x.values);
      var anew := StreamRestored in reasons || SmpCntGapped in reasons || (s.seen && ConfRevChange in reasons)
                  || t.windowSize != s.windowSize;
      Accepts(s, x, sub) ==> t.measured == SampleWindow.Newest((if anew then [] else s.measured) + [e], t.windowSize)
  {
  }

  datatype Arrival = Frame(x: Sample, at: int) | Check(now: int)

  function Watched(s: Stream, arrivals: seq<Arrival>, sub: Subscription): Stream {
    if arrivals == [] then s
    else
      var t := Watched(s, arrivals[..|arrivals| - 1], sub);
      match arrivals[|arrivals| - 1]
      case Frame(x, at) => Next(t, x, sub, at)
      case Check(now) => Checked(t, now)
  }

  /** While no sample is accepted, a stream is lost exactly once a check comes more than 100 ms
      after the last accepted one; an accepted sample ends the loss. */
  lemma {:induction false} LostExactly(s: Stream, arrivals: seq<Arrival>, sub: Subscription)
    requires s.seen && !s.lost
    requires forall i | 0 <= i < |arrivals| && arrivals[i].Frame? ::
      !Accepts(Watched(s, arrivals[..i], sub), arrivals[i].x, sub)
    ensures Watched(s, arrivals, sub) ==
      s.(lost := exists a | a in arrivals :: a.Check? && a.now > s.lastSeenAt + STREAM_LOST_TIMEOUT)
  {
    hide Accepts;
    if arrivals != [] {
      var init, last := arrivals[..|arrivals| - 1], arrivals[|arrivals| - 1];
      assert forall i | 0 <= i < |init| :: init[i] == arrivals[i] && init[..i] == arrivals[..i];
      LostExactly(s, init, sub);
      assert forall a :: a in arrivals <==> a in init || a == last;
      assert arrivals[..|arrivals| - 1] == init;
    }
  }

  lemma AcceptedRestores(s: Stream, x: Sample, sub: Subscription, at: int)
    requires Accepts(s, x, sub)
    ensures var t := Next(s, x, sub, at); t.seen && !t.lost && t.lastSeenAt == at
  {
  }

  // ------------------------------------------------------------ conservation

  /** smpCnt counts modulo the nominal rate times 50 or 60 Hz, and the receiver knows which. */
  predicate Periodic(sub: Subscription, rate: nat, m: nat) {
    rate > 0 && sub.sampleTimingFrequency in {50, 60} && m == rate * sub.sampleTimingFrequency <= U16
  }

  predicate InSegment(s: Stream, x: Sample, sub: Subscription, rate: nat, m: nat) {
    Continuous(s, x) && EffectiveRate(x, sub) == rate && x.smpCnt < m
  }

  /** An accepted sample and the missed ones before it advance the counter from the last
      accepted value to the new one, once around the period if the value went down. */
  lemma SampleAdvances(s: Stream, x: Sample, sub: Subscription, rate: nat, m: nat, at: int)
    requires Periodic(sub, rate, m) && s.lastSmpCnt < m && InSegment(s, x, sub, rate, m)
    requires Accepts(s, x, sub)
    ensures var t := Next(s, x, sub, at);
      && (t.samplesReceived - s.samplesReceived) + (t.missedTotal - s.missedTotal)
         == x.smpCnt - s.lastSmpCnt + (if x.smpCnt <= s.lastSmpCnt then m else 0)
      && (x.smpCnt <= s.lastSmpCnt ==> t.missedTotal - s.missedTotal < m / 2)
  {
  }

  /** Times the accepted counter came round. */
  function Wraps(s: Stream, xs: seq<Sample>, sub: Subscription, at: seq<int>): nat
    requires |at| == |xs|
    decreases |xs|
  {
    if xs == [] then 0
    else
      (if Accepts(s, xs[0], sub) && xs[0].smpCnt <= s.lastSmpCnt then 1 else 0)
      + Wraps(Next(s, xs[0], sub, at[0]), xs[1..], sub, at[1..])
  }

  function Feed(s: Stream, xs: seq<Sample>, sub: Subscription, at: seq<int>): Stream
    requires |at| == |xs|
    decreases |xs|
  {
    if xs == [] then s else Feed(Next(s, xs[0], sub, at[0]), xs[1..], sub, at[1..])
  }

  /** All samples belong to the segment that s is in. */
  predicate OneSegment(s: Stream, xs: seq<Sample>, sub: Subscription, rate: nat, m: nat) {
    s.seen && !s.lost && s.lastSmpCnt < m
    && forall x | x in xs ::
         x.confRev == s.lastConfRev && EffectiveRate(x, sub) == rate && x.smpCnt < m
  }

  /** Samples received and samples missed add up to the distance the counter travelled, over
      any sequence of samples with any duplicates, reorderings and gaps. */
  lemma {:induction false} SamplesConserved(s: Stream, xs: seq<Sample>, sub: Subscription,
                                            rate: nat, m: nat, at: seq<int>)
    requires Periodic(sub, rate, m) && |at| == |xs| && OneSegment(s, xs, sub, rate, m)
    ensures var t := Feed(s, xs, sub, at);
      (t.samplesReceived - s.samplesReceived) + (t.missedTotal - s.missedTotal)
      == t.lastSmpCnt - s.lastSmpCnt + m * Wraps(s, xs, sub, at)
    decreases |xs|
  {
    hide Next, Accepts, Periodic, OneSegment;
    if xs != [] {
      var t := Next(s, xs[0], sub, at[0]);
      SegmentStep(s, xs, sub, rate, m, at[0]);
      SegmentContinues(s, xs, sub, rate, m, at[0]);
      SamplesConserved(t, xs[1..], sub, rate, m, at[1..]);
      var w := Wraps(t, xs[1..], sub, at[1..]);
      assert m * (1 + w) == m + m * w;
    }
  }

  lemma SegmentStep(s: Stream, xs: seq<Sample>, sub: Subscription, rate: nat, m: nat, at: int)
    requires Periodic(sub, rate, m) && xs != [] && OneSegment(s, xs, sub, rate, m)
    ensures var t := Next(s, xs[0], sub, at);
      (t.samplesReceived - s.samplesReceived) + (t.missedTotal - s.missedTotal)
      == t.lastSmpCnt - s.lastSmpCnt
         + if Accepts(s, xs[0], sub) && xs[0].smpCnt <= s.lastSmpCnt then m else 0
  {
    assert xs[0] in xs;
    if Accepts(s, xs[0], sub) {
      SampleAdvances(s, xs[0], sub, rate, m, at);
    }
    hide Accepts, HasGap, GapOf, Periodic;
  }

  lemma SegmentContinues(s: Stream, xs: seq<Sample>, sub: Subscription, rate: nat, m: nat, at: int)
    requires xs != [] && OneSegment(s, xs, sub, rate, m)
    ensures OneSegment(Next(s, xs[0], sub, at), xs[1..], sub, rate, m)
  {
    assert xs[0] in xs;
    assert forall x | x in xs[1..] :: x in xs;
    hide Accepts, HasGap, GapOf;
  }

  /** From unwrapped counter p to q without a sample in between that the receiver cannot follow:
      within the period, or round it from its second half over less than half of it. */
  predicate Bridged(p: nat, q: nat, m: nat)
    requires m > 0
  {
    && p < q
    && (p / m == q / m || (q / m == p / m + 1 && m / 2 <= p % m && q - p - 1 < m / 2))
  }

  lemma BridgedStep(s: Stream, x: Sample, sub: Subscription, rate: nat, m: nat, at: int, p: nat, q: nat)
    requires Periodic(sub, rate, m) && InSegment(s, x, sub, rate, m)
    requires s.lastSmpCnt == p % m && x.smpCnt == q % m && Bridged(p, q, m)
    ensures var t := Next(s, x, sub, at);
      && t.samplesReceived == s.samplesReceived + 1 && t.missedTotal == s.missedTotal + (q - p - 1)
      && t.lastSmpCnt == x.smpCnt
  {
    UnwrappedDistance(p, q, m);
    AcceptsExactly(s, x, sub, rate, m);
    SampleAdvances(s, x, sub, rate, m, at);
    hide HasGap, GapOf;
  }

  lemma UnwrappedDistance(p: nat, q: nat, m: nat)
    requires m > 0 && Bridged(p, q, m)
    ensures q % m - p % m == q - p - (if p / m == q / m then 0 else m)
  {
    assert p == (p / m) * m + p % m && q == (q / m) * m + q % m;
    if q / m == p / m + 1 { assert (p / m + 1) * m == (p / m) * m + m; }
  }

  /** So on along a list of unwrapped counters. */
  predicate AllBridged(p: nat, ps: seq<nat>, m: nat)
    requires m > 0
    decreases |ps|
  {
    ps == [] || (Bridged(p, ps[0], m) && AllBridged(ps[0], ps[1..], m))
  }

  /** Samples that arrive in order are all received, across any number of wraps, and every
      sample lost in between is counted as missed, as long as no loss is longer than the
      receiver can follow. */
  lemma {:induction false} LossCounted(s: Stream, xs: seq<Sample>, sub: Subscription, rate: nat, m: nat, at: seq<int>,
                                       p: nat, ps: seq<nat>)
    requires Periodic(sub, rate, m) && |at| == |xs| == |ps| && OneSegment(s, xs, sub, rate, m)
    requires s.lastSmpCnt == p % m && AllBridged(p, ps, m)
    requires forall i | 0 <= i < |xs| :: xs[i].smpCnt == ps[i] % m
    ensures var t := Feed(s, xs, sub, at);
      && t.samplesReceived == s.samplesReceived + |xs|
      && t.missedTotal - s.missedTotal + |xs| == (if ps == [] then 0 else ps[|ps| - 1] - p)
    decreases |xs|
  {
    hide Next, Accepts, Periodic, OneSegment, Bridged;
    if xs != [] {
      FirstInSegment(s, xs, sub, rate, m);
      BridgedStep(s, xs[0], sub, rate, m, at[0], p, ps[0]);
      SegmentContinues(s, xs, sub, rate, m, at[0]);
      LossCounted(Next(s, xs[0], sub, at[0]), xs[1..], sub, rate, m, at[1..], ps[0], ps[1..]);
    }
  }

  lemma FirstInSegment(s: Stream, xs: seq<Sample>, sub: Subscription, rate: nat, m: nat)
    requires xs != [] && OneSegment(s, xs, sub, rate, m)
    ensures InSegment(s, xs[0], sub, rate, m)
  {
    assert xs[0] in xs;
  }

  /** Delivery in order without loss, from the counter p on: every sample is received, across
      any number of wraps, and none counts as missed. */
  lemma {:induction false} InOrderReceived(s: Stream, xs: seq<Sample>, sub: Subscription, rate: nat, m: nat,
                                           at: seq<int>, p: nat)
    requires Periodic(sub, rate, m) && |at| == |xs| && OneSegment(s, xs, sub, rate, m) && s.lastSmpCnt == p % m
    requires forall i | 0 <= i < |xs| :: xs[i].smpCnt == (p + i + 1) % m
    ensures var t := Feed(s, xs, sub, at);
      && t.samplesReceived == s.samplesReceived + |xs| && t.missedTotal == s.missedTotal
      && t.lastSmpCnt == (p + |xs|) % m
    decreases |xs|
  {
    hide Next, Accepts, Periodic, OneSegment, Bridged;
    if xs != [] {
      FirstInSegment(s, xs, sub, rate, m);
      PeriodLong(sub, rate, m);
      NextBridged(p, m);
      BridgedStep(s, xs[0], sub, rate, m, at[0], p, p + 1);
      SegmentContinues(s, xs, sub, rate, m, at[0]);
      var rest := xs[1..];
      assert forall i | 0 <= i < |rest| :: rest[i].smpCnt == (p + 1 + i + 1) % m by {
        assert forall i | 0 <= i < |rest| :: rest[i] == xs[i + 1];
      }
      InOrderReceived(Next(s, xs[0], sub, at[0]), rest, sub, rate, m, at[1..], p + 1);
    }
  }

  lemma PeriodLong(sub: Subscription, rate: nat, m: nat)
    requires Periodic(sub, rate, m)
    ensures 50 <= m
  {
  }

  lemma NextBridged(p: nat, m: nat)
    requires 2 <= m
    ensures Bridged(p, p + 1, m)
  {
    var k, r := p / m, p % m;
    assert p == k * m + r;
    if r == m - 1 {
      assert (k + 1) * m == k * m + m;
      DivModUnique(p + 1, m, k + 1, 0);
    } else {
      DivModUnique(p + 1, m, k, r + 1);
    }
  }

  /** Counted from the first sample of the segment, which is received before the counter has
      travelled anywhere. */
  lemma FromFirstSample(first: Sample, xs: seq<Sample>, sub: Subscription, rate: nat, m: nat,
                        at0: int, at: seq<int>)
    requires Periodic(sub, rate, m) && |at| == |xs|
    requires OneSegment(Next(UNSEEN, first, sub, at0), xs, sub, rate, m)
    ensures var t := Feed(Next(UNSEEN, first, sub, at0), xs, sub, at);
      (t.samplesReceived + t.missedTotal - 1) % m == (t.lastSmpCnt - first.smpCnt) % m
  {
    hide Feed, Wraps, OneSegment;
    var s := Next(UNSEEN, first, sub, at0);
    assert s.samplesReceived == 1 && s.missedTotal == 0 && s.lastSmpCnt == first.smpCnt;
    SamplesConserved(s, xs, sub, rate, m, at);
    var t := Feed(s, xs, sub, at);
    hide *;
    CongruentBy(t.samplesReceived + t.missedTotal - 1, t.lastSmpCnt - first.smpCnt,
                Wraps(s, xs, sub, at), m);
  }

  lemma CongruentBy(a: int, b: int, k: int, m: nat)
    requires m > 0 && a == b + m * k
    ensures a % m == b % m
  {
    var qa, qb := a / m, b / m;
    assert a == qa * m + a % m && b == qb * m + b % m;
    assert (qa - qb - k) * m == b % m - a % m by {
      assert (qa - qb - k) * m == qa * m - qb * m - m * k;
    }
    MulBound(qa - qb - k, m);
  }

  /** Without a configured timing frequency a 50 Hz period is recognised for every counter
      value of its second half, but a 60 Hz one only in its last sixth: a wrap is accepted with
      its true number of missed samples exactly when the last counter had reached 50 times the
      rate and less than half a period is missing. */
  lemma AutoDetect(previous: nat, current: nat, rate: nat, timing: nat)
    requires 0 < rate && rate * 60 <= U16 && timing !in {50, 60} && current < previous
    ensures previous < rate * 60 ==>
      var missing := rate * 60 - previous - 1 + current;
      (SmpCntGap(previous, current, rate, timing) == Gap((previous + 1) % U16, missing, true)
       <==> rate * 50 <= previous && missing < rate * 30)
    ensures previous < rate * 50 ==>
      var missing := rate * 50 - previous - 1 + current;
      (SmpCntGap(previous, current, rate, timing) == Gap((previous + 1) % U16, missing, true)
       <==> rate * 25 <= previous && missing < rate * 25)
  {
  }

  /** At 80 samples a period and 60 Hz: one sample lost before the wrap counts as one, the 899
      lost after counter 3900 count as 99. */
  lemma AutoDetectExamples()
    ensures SmpCntGap(4798, 0, 80, 0) == Gap(4799, 1, true)
    ensures SmpCntGap(3900, 0, 80, 0) == Gap(3901, 99, true) && 4800 - 3900 - 1 == 899
  {
  }

  // ------------------------------------------------------ measurement indices

  predicate Consecutive(s: Stream) {
    && |s.measured| <= s.sampleIndex
    && forall k | 0 <= k < |s.measured| :: s.measured[k].index == s.sampleIndex - |s.measured| + 1 + k
  }

  lemma NextConsecutive(s: Stream, x: Sample, sub: Subscription, at: int)
    requires Consecutive(s)
    ensures Consecutive(Next(s, x, sub, at))
  {
    hide Accepts, HasGap, ConfRevChanged;
  }

  /** Whatever samples arrive, the measurement window holds samples of consecutive indices, up
      to the newest one. */
  lemma {:induction false} IndicesConsecutive(s: Stream, xs: seq<Sample>, sub: Subscription, at: seq<int>)
    requires Consecutive(s) && |at| == |xs|
    ensures Consecutive(Feed(s, xs, sub, at))
    decreases |xs|
  {
    hide Next;
    if xs != [] {
      NextConsecutive(s, xs[0], sub, at[0]);
      IndicesConsecutive(Next(s, xs[0], sub, at[0]), xs[1..], sub, at[1..]);
    }
  }
}
