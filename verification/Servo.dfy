/** The proportional-integral clock servo, and how it drives the application clock. Offsets
    are nanoseconds to be added to the local clock, frequencies parts per billion. */
module Servo {
  import opened Arithmetic
  import opened AppClock
  import TsProc

  datatype ServoState = Unlocked | Jump | Locked

  /** Zero thresholds are disabled. */
  datatype Servo = Servo(
    offset0: int, offset1: int, local0: nat, local1: nat, drift: real, kp: real, ki: real, lastFreq: real,
    count: nat, maxFrequency: real, stepThreshold: real, firstStepThreshold: real, firstUpdate: bool)

  const FREQ_EST_MARGIN: real := 0.001

  predicate Exceeds(offset: int, threshold: real) { 0.0 < threshold && Abs(offset) as real > threshold }

  /** Seconds to wait between the two offsets of the drift estimate. */
  function EstimateInterval(ki: real): real {
    if ki == 0.0 then 1000.0
    else
      var interval := 0.016 / ki;
      if interval > 1000.0 then 1000.0 else interval
  }

  predicate TooEarly(s: Servo) {
    s.local0 < s.local1 &&
    var seconds := (s.local1 - s.local0) as real / BILLION;
    seconds + seconds * FREQ_EST_MARGIN < EstimateInterval(s.ki)
  }

  /** The drift estimated from two offsets. */
  function Estimate(s: Servo): real
    requires s.local0 < s.local1
  {
    s.drift + (BILLION - s.drift) * (s.offset1 - s.offset0) as real / (s.local1 - s.local0) as real
  }

  predicate Jumps(s: Servo, offset: int) {
    (s.firstUpdate && Exceeds(offset, s.firstStepThreshold)) || Exceeds(offset, s.stepThreshold)
  }

  function Term(gain: real, offset: int): real { gain * offset as real }

  /** Drift and output after a sample; the drift stands still while the output saturates. */
  function Regulated(drift: real, proportional: real, integral: real, limit: real): (real, real) {
    var wanted := proportional + drift + integral;
    var ppb := Clamp(wanted, limit);
    (if ppb == wanted then drift + integral else drift, ppb)
  }

  /** The servo after a sample, but for the frequency it remembers. */
  function Decide(s: Servo, offset: int, local: nat): (Servo, real, ServoState) {
    if s.count == 0 then (s.(offset0 := offset, local0 := local, count := 1), s.lastFreq, Unlocked)
    else if s.count == 1 then
      var n := s.(offset1 := offset, local1 := local);
      if n.local0 >= n.local1 then (n.(count := 0), s.lastFreq, Unlocked)
      else if TooEarly(n) then (n, s.lastFreq, Unlocked)
      else
        var drift := Clamp(Estimate(n), s.maxFrequency);
        (n.(drift := drift, count := 2), drift, if Jumps(s, offset) then Jump else Locked)
    else if s.count == 2 then
      if Exceeds(offset, s.stepThreshold) then (s.(count := 0), s.lastFreq, Unlocked)
      else
        var (drift, ppb) := Regulated(s.drift, Term(s.kp, offset), Term(s.ki, offset), s.maxFrequency);
        (s.(drift := drift), ppb, Locked)
    else (s, s.lastFreq, Unlocked)
  }

  function Sampled(s: Servo, offset: int, local: nat): (Servo, real, ServoState) {
    var (n, ppb, state) := Decide(s, offset, local);
    (n.(lastFreq := ppb, firstUpdate := n.firstUpdate && state == Unlocked), ppb, state)
  }

  function Restarted(s: Servo): Servo { s.(count := 0, firstUpdate := true) }

  class PIServo {
    var offset: array<int>
    var local: array<nat>
    var drift: real
    var lastFreq: real
    var count: nat
    var firstUpdate: bool
    const kp: real
    const ki: real
    const maxFrequency: real
    const stepThreshold: real
    const firstStepThreshold: real

    predicate Valid()
      reads this
    {
      offset.Length == local.Length == 2 && 0.0 < maxFrequency
    }

    function Value(): Servo
      requires Valid()
      reads this, offset, local
    {
      Servo(offset[0], offset[1], local[0], local[1], drift, kp, ki, lastFreq, count, maxFrequency, stepThreshold,
            firstStepThreshold, firstUpdate)
    }

    constructor (initialDrift: real, maxPPB: real, step: real, firstStep: real, kp: real, ki: real)
      ensures Valid() && fresh(offset) && fresh(local)
      ensures Value().drift == Value().lastFreq == initialDrift && Value().count == 0 && Value().firstUpdate
      ensures Value().kp == kp && Value().ki == ki
      ensures maxFrequency == (if maxPPB <= 0.0 then 500_000.0 else maxPPB)
    {
      offset := new int[2](_ => 0);
      local := new nat[2](_ => 0);
      drift, lastFreq, count, firstUpdate := initialDrift, initialDrift, 0, true;
      this.kp, this.ki := kp, ki;
      maxFrequency := if maxPPB <= 0.0 then 500_000.0 else maxPPB;
      stepThreshold := if step > 0.0 then step * BILLION else 0.0;
      firstStepThreshold := if firstStep > 0.0 then firstStep * BILLION else 0.0;
    }

    method Sample(sample: int, localTS: nat) returns (ppb: real, state: ServoState)
      requires Valid()
      modifies this`drift, this`lastFreq, this`count, this`firstUpdate, offset, local
      ensures Valid() && (Value(), ppb, state) == Sampled(old(Value()), sample, localTS)
    {
      ppb, state := Track(sample, localTS);
      lastFreq := ppb;
      if state == Jump || state == Locked { firstUpdate := false; }
    }

    method Track(sample: int, localTS: nat) returns (ppb: real, state: ServoState)
      requires Valid()
      modifies this`drift, this`count, offset, local
      ensures Valid() && (Value(), ppb, state) == Decide(old(Value()), sample, localTS)
    {
      hide Regulated, Term, Estimate, TooEarly, Exceeds, Jumps;
      ppb, state := lastFreq, Unlocked;
      if count == 0 {
        offset[0], local[0], count := sample, localTS, 1;
      } else if count == 1 {
        ppb, state := EstimateDrift(sample, localTS);
      } else if count == 2 {
        if Exceeds(sample, stepThreshold) {
          count := 0;
          return;
        }
        ppb := Regulate(sample);
        state := Locked;
      }
    }

    method Regulate(sample: int) returns (ppb: real)
      requires Valid()
      modifies this`drift
      ensures Regulated(old(drift), Term(kp, sample), Term(ki, sample), maxFrequency) == (drift, ppb)
    {
      var kiTerm := ki * sample as real;
      ppb := kp * sample as real + drift + kiTerm;
      if ppb < -maxFrequency {
        ppb := -maxFrequency;
      } else if ppb > maxFrequency {
        ppb := maxFrequency;
      } else {
        drift := drift + kiTerm;
      }
    }

    method EstimateDrift(sample: int, localTS: nat) returns (ppb: real, state: ServoState)
      requires Valid() && count == 1
      modifies this`drift, this`count, offset, local
      ensures Valid() && (Value(), ppb, state) == Decide(old(Value()), sample, localTS)
    {
      hide Estimate, TooEarly, Exceeds;
      ppb := lastFreq;
      offset[1], local[1] := sample, localTS;
      if local[0] >= local[1] {
        state, count := Unlocked, 0;
        return;
      }
      if TooEarly(Value()) { return ppb, Unlocked; }
      drift := Clamp(Estimate(Value()), maxFrequency);
      state := if Jumps(Value(), sample) then Jump else Locked;
      ppb, count := drift, 2;
    }

    method Reset()
      requires Valid()
      modifies this`count, this`firstUpdate
      ensures Valid() && Value() == Restarted(old(Value()))
    {
      count, firstUpdate := 0, true;
    }
  }

  // --------------------------------------------------------- what it promises

  predicate Within(x: real, limit: real) { -limit <= x <= limit }

  predicate Tame(s: Servo) {
    && 0.0 <= s.kp && 0.0 <= s.ki && 0.0 < s.maxFrequency
    && Within(s.drift, s.maxFrequency) && Within(s.lastFreq, s.maxFrequency)
  }

  lemma NotNegative(gain: real, offset: int)
    requires 0.0 <= gain
    ensures 0 <= offset ==> 0.0 <= Term(gain, offset)
    ensures offset <= 0 ==> Term(gain, offset) <= 0.0
  {
  }

  /** Anti-windup: the integral moves only when the output does not saturate, and then stays
      as far inside the limits as the output is. */
  lemma SampleTame(s: Servo, offset: int, local: nat)
    requires Tame(s)
    ensures var (n, ppb, _) := Sampled(s, offset, local);
      Tame(n) && n.maxFrequency == s.maxFrequency && Within(ppb, s.maxFrequency)
  {
    NotNegative(s.ki, offset);
    NotNegative(s.kp, offset);
    hide Estimate, TooEarly, Exceeds, Term;
  }

  datatype Input = Sample(offset: int, local: nat) | Reset

  function Next(s: Servo, i: Input): Servo {
    match i
    case Sample(offset, local) => Sampled(s, offset, local).0
    case Reset => Restarted(s)
  }

  function After(s: Servo, inputs: seq<Input>): Servo {
    if inputs == [] then s else Next(After(s, inputs[..|inputs| - 1]), inputs[|inputs| - 1])
  }

  /** Since the start or the last reset of a run, no sample has moved the clock. */
  predicate Untouched(s: Servo, inputs: seq<Input>) {
    if inputs == [] then s.firstUpdate
    else
      var init := inputs[..|inputs| - 1];
      match inputs[|inputs| - 1]
      case Reset => true
      case Sample(offset, local) => Untouched(s, init) && Sampled(After(s, init), offset, local).2 == Unlocked
  }

  /** The threshold of the first step applies exactly until a sample has moved the clock, and
      again after a reset, which keeps drift and frequency and starts the measurement over. */
  lemma {:induction false} FirstStepExactly(s: Servo, inputs: seq<Input>)
    ensures After(s, inputs).firstUpdate <==> Untouched(s, inputs)
    ensures inputs != [] && inputs[|inputs| - 1] == Reset ==>
      var m, n := After(s, inputs[..|inputs| - 1]), After(s, inputs);
      n.count == 0 && n.drift == m.drift && n.lastFreq == m.lastFreq
  {
    if inputs != [] {
      var init, last := inputs[..|inputs| - 1], inputs[|inputs| - 1];
      FirstStepExactly(s, init);
      if last.Sample? { DecideKeepsFirst(After(s, init), last.offset, last.local); }
    }
    hide Decide;
  }

  lemma DecideKeepsFirst(s: Servo, offset: int, local: nat)
    ensures Decide(s, offset, local).0.firstUpdate == s.firstUpdate
  {
    hide Estimate, TooEarly, Exceeds, Regulated;
  }

  /** In every run drift and output stay within the frequency limit. */
  lemma {:induction false} RunTame(s: Servo, inputs: seq<Input>)
    requires Tame(s)
    ensures Tame(After(s, inputs)) && After(s, inputs).maxFrequency == s.maxFrequency
  {
    if inputs != [] {
      var m, last := After(s, inputs[..|inputs| - 1]), inputs[|inputs| - 1];
      RunTame(s, inputs[..|inputs| - 1]);
      if last.Sample? { SampleTame(m, last.offset, last.local); }
      hide Sampled;
    }
  }

  /** A servo with the clock's own limit never asks for a frequency the clock would cut: the
      clamp in AdjustFrequency never bites, so the clock runs as the servo decided. */
  lemma ClampNeverBites(s: Servo, inputs: seq<Input>, offset: int, local: nat, c: Clock, now: int)
    requires Tame(s) && s.maxFrequency == c.maxFrequency
    ensures var ppb := Sampled(After(s, inputs), offset, local).1;
      Adjusted(c, now, ppb).frequency == ppb && Running(Adjusted(c.(enabled := true), now, ppb))
        == (c.maxFrequency < BILLION)
  {
    RunTame(s, inputs);
    SampleTame(After(s, inputs), offset, local);
    hide After, Sampled, Affine;
  }

  /** The frequency that makes the local clock keep pace with a master that advanced by as
      much as the local time did and the offsets grew, if the local clock ran at the drift. */
  predicate KeepsPace(s: Servo, frequency: real)
    requires s.local0 < s.local1
  {
    var local := (s.local1 - s.local0) as real;
    var master := local + (s.offset1 - s.offset0) as real;
    Rate(frequency) * local == Rate(s.drift) * master
  }

  /** The drift estimate is exact when the servo starts from no drift, or when there is nothing
      to correct, and never otherwise. */
  lemma EstimateExactly(s: Servo)
    requires s.local0 < s.local1
    ensures KeepsPace(s, Estimate(s)) <==> s.drift == 0.0 || s.offset1 == s.offset0
  {
    var local, grown, d := (s.local1 - s.local0) as real, (s.offset1 - s.offset0) as real, s.drift;
    EstimateSplit(d, grown, local);
    assert grown == 0.0 <==> s.offset1 == s.offset0;
  }

  /** A drift of 100 ppm, and a second in which the offset grew by 10 microseconds: the estimate
      misses. */
  lemma EstimateMisses(s: Servo)
    requires s.drift == 100_000.0 && s.local0 + 1_000_000_000 == s.local1 && s.offset0 + 10_000 == s.offset1
    ensures !KeepsPace(s, Estimate(s))
  {
    EstimateExactly(s);
    hide Estimate, KeepsPace;
  }

  lemma EstimateSplit(d: real, grown: real, local: real)
    requires 0.0 < local
    ensures (1.0 + (d + (BILLION - d) * grown / local) / BILLION) * local == (1.0 + d / BILLION) * (local + grown)
      <==> d == 0.0 || grown == 0.0
  {
    var q := (BILLION - d) * grown / local;
    assert q * local == (BILLION - d) * grown;
    calc {
      BILLION * ((1.0 + (d + q) / BILLION) * local);
      (BILLION + d + q) * local;
      BILLION * local + d * local + (BILLION - d) * grown;
    }
    calc {
      BILLION * ((1.0 + d / BILLION) * (local + grown));
      (BILLION + d) * (local + grown);
      BILLION * local + d * local + BILLION * grown + d * grown;
    }
    assert d * grown == 0.0 <==> d == 0.0 || grown == 0.0;
  }

  /** A measured offset over a symmetric path, applied as a step, makes application time equal
      to the master's at that instant. */
  lemma JumpAligns(c: Clock, now: int, master: int, ts: TsProc.Timestamps)
    requires c.enabled && TsProc.CompleteE2E(ts)
    requires var offset := FromSystem(c, now) - master;
      TsProc.SyncDelay(ts, offset) == TsProc.RequestDelay(ts, offset)
    ensures FromSystem(Stepped(c, now, -TsProc.OffsetE2E(ts).value.0), now) == master
  {
    TsProc.E2EAccuracy(ts, FromSystem(c, now) - master);
    StepShifts(c, now, -TsProc.OffsetE2E(ts).value.0, now);
    hide FromSystem, Stepped, TsProc.OffsetE2E, TsProc.SyncDelay, TsProc.RequestDelay;
  }

  // ------------------------------------------------------------ the closed loop

  /** Tracking, a sample pulls the way it points: the drift moves towards it and the output
      further, or the output saturates on its side and the drift stays. A sample beyond the step
      threshold starts the measurement over and leaves the frequency alone. */
  lemma TracksTowards(s: Servo, offset: int, local: nat)
    requires Tame(s) && s.count == 2
    ensures var (n, ppb, state) := Sampled(s, offset, local);
      var beyond := 0.0 < s.stepThreshold < Abs(offset) as real;
      && (state == (if beyond then Unlocked else Locked))
      && (beyond ==> n.count == 0 && ppb == s.lastFreq && n.drift == s.drift)
      && (!beyond ==>
            && n.count == 2
            && (0 <= offset ==> s.drift <= n.drift <= ppb)
            && (offset <= 0 ==> ppb <= n.drift <= s.drift))
  {
    NotNegative(s.ki, offset);
    NotNegative(s.kp, offset);
    hide Term;
  }

  /** What the servo adds to its drift for an offset. */
  function Push(s: Servo, offset: int): real { (s.kp + s.ki) * offset as real }

  /** The output is a proportional and an integral part on top of the drift, which takes over
      the integral one, unless the sum is out of range. */
  lemma Unsaturated(s: Servo, offset: int, local: nat)
    requires s.count == 2 && !(0.0 < s.stepThreshold < Abs(offset) as real)
    requires Within(s.drift + Push(s, offset), s.maxFrequency)
    ensures var (n, ppb, state) := Sampled(s, offset, local);
      ppb == s.drift + Push(s, offset) && n.drift == s.drift + s.ki * offset as real
  {
    var o := offset as real;
    assert (s.kp + s.ki) * o == s.kp * o + s.ki * o;
  }

  /** What is left of an offset after some nanoseconds of correction by a gain. */
  function Remaining(gain: real, elapsed: nat, offset: int): real {
    (1.0 - gain * (elapsed as real / BILLION)) * offset as real
  }

  /** The closed loop. The servo takes the negated offset; as long as its drift keeps the clock
      at the master's pace and its output does not saturate, a time T later the offset left is
      1 - (kp + ki) * T times the old one, T in seconds, give or take the nanosecond that
      reading the clock costs. */
  lemma ClosedLoop(s: Servo, c: Clock, now: int, local: nat, offset: int, elapsed: nat)
    requires Tame(s) && s.count == 2 && !(0.0 < s.stepThreshold < Abs(offset) as real)
    requires c.enabled && c.maxFrequency == s.maxFrequency && Within(s.drift - Push(s, offset), s.maxFrequency)
    ensures var adjusted := Adjusted(c, now, Sampled(s, -offset, local).1);
      var master := (FromSystem(c, now) - offset) as real + Exactly(elapsed, s.drift);
      var left := FromSystem(adjusted, now + elapsed) as real - master;
      -1.0 < left - Remaining(s.kp + s.ki, elapsed, offset) < 1.0
  {
    hide Sampled, Exactly, FromSystem, Adjusted, Remaining, Push;
    var ppb := s.drift - Push(s, offset);
    Pushed(s, offset, local);
    AdjustedTo(c, now, ppb);
    AdjustContinuous(c, now, ppb);
    ReadLater(Adjusted(c, now, ppb), now, elapsed);
    ExactGain(s, elapsed, offset);
  }

  lemma Pushed(s: Servo, offset: int, local: nat)
    requires s.count == 2 && !(0.0 < s.stepThreshold < Abs(offset) as real)
    requires Within(s.drift - Push(s, offset), s.maxFrequency)
    ensures Sampled(s, -offset, local).1 == s.drift - Push(s, offset)
  {
    hide Sampled, Push;
    PushMirrored(s, offset);
    Unsaturated(s, -offset, local);
  }

  lemma PushMirrored(s: Servo, offset: int)
    ensures Push(s, -offset) == -Push(s, offset)
  {
    var o := offset as real;
    assert (-offset) as real == -o;
    assert (s.kp + s.ki) * -o == -((s.kp + s.ki) * o);
  }

  lemma AdjustedTo(c: Clock, now: int, ppb: real)
    requires Within(ppb, c.maxFrequency)
    ensures Adjusted(c, now, ppb).frequency == ppb && Adjusted(c, now, ppb).baseSystem == now
    ensures Adjusted(c, now, ppb).enabled == c.enabled
  {
  }

  lemma ReadLater(d: Clock, now: int, elapsed: nat)
    requires d.enabled && d.baseSystem == now
    ensures var gained := (FromSystem(d, now + elapsed) - FromSystem(d, now)) as real;
      -1.0 < gained - Exactly(elapsed, d.frequency) < 1.0
  {
    ZeroElapsed(d.frequency);
    hide Exactly;
  }

  lemma ExactGain(s: Servo, elapsed: nat, offset: int)
    ensures Exactly(elapsed, s.drift - Push(s, offset)) - Exactly(elapsed, s.drift)
      == Remaining(s.kp + s.ki, elapsed, offset) - offset as real
  {
    GainProducts(elapsed as real, s.drift, s.kp + s.ki, offset as real);
  }

  lemma GainProducts(e: real, drift: real, gain: real, o: real)
    ensures e * (1.0 + (drift - gain * o) / BILLION) - e * (1.0 + drift / BILLION)
      == (1.0 - gain * (e / BILLION)) * o - o
  {
    var x := gain * o;
    assert (drift - x) / BILLION == drift / BILLION - x / BILLION;
    assert e * (x / BILLION) == (e / BILLION) * x == gain * (e / BILLION) * o;
  }

  /** The first sample is kept while later ones come too early, and let go if the local clock
      has not advanced. */
  lemma FirstKept(s: Servo, offset: int, local: nat)
    ensures var (n, ppb, state) := Sampled(s, offset, local);
      && (s.count == 0 ==> n.count == 1 && n.offset0 == offset && n.local0 == local && n.drift == s.drift)
      && (s.count == 1 && local <= s.local0 ==> n.count == 0 && n.drift == s.drift)
      && (s.count == 1 && s.local0 < local && !FarEnough(s, local) ==>
            n.count == 1 && n.offset0 == s.offset0 && n.local0 == s.local0 && n.drift == s.drift)
      && (n.count < 2 ==> state == Unlocked && ppb == s.lastFreq)
  {
  }

  /** Far enough from the first sample for an estimate. */
  predicate FarEnough(s: Servo, local: nat) {
    s.local0 < local &&
    var seconds := (local - s.local0) as real / BILLION;
    EstimateInterval(s.ki) <= seconds + seconds * FREQ_EST_MARGIN
  }

  /** From no drift, a second sample far enough from the first sets the clock to the master's
      pace, if that is within the limit, and the clock is stepped exactly if the sample is beyond
      the threshold that applies. */
  lemma FirstPace(s: Servo, offset: int, local: nat)
    requires s.count == 1 && s.drift == 0.0 && FarEnough(s, local)
    requires Within(BILLION * (offset - s.offset0) as real / (local - s.local0) as real, s.maxFrequency)
    ensures var (n, ppb, state) := Sampled(s, offset, local);
      var apart := (local - s.local0) as real;
      && n.count == 2 && n.drift == ppb
      && Rate(ppb) * apart == apart + (offset - s.offset0) as real
      && (state == Jump <==>
            || (s.firstUpdate && 0.0 < s.firstStepThreshold < Abs(offset) as real)
            || 0.0 < s.stepThreshold < Abs(offset) as real)
      && (state != Jump ==> state == Locked)
  {
    var grown, apart := (offset - s.offset0) as real, (local - s.local0) as real;
    var pace := BILLION * grown / apart;
    assert pace * apart == BILLION * grown;
    assert pace / BILLION * apart == grown;
  }
}
