/** The SV publication loop: one frame per sample slot, started on a whole second, re-aimed
    on early wakeups, missed boundaries and clock steps. */
module SvScheduler {
  import opened Arithmetic
  import opened UtcTime
  import opened SampleSlots
  import Bytes

  datatype ClockStatus = ClockStatus(ptpEnabled: bool, frequencyPpb: real)

  function ClockRate(s: ClockStatus): real { 1.0 + s.frequencyPpb / 1_000_000_000.0 }

  predicate Unscaled(interval: int, s: ClockStatus) {
    interval <= 0 || !s.ptpEnabled || s.frequencyPpb == 0.0 || ClockRate(s) <= 0.0
  }

  function SourceToSystem(interval: int, s: ClockStatus): int {
    if Unscaled(interval, s) then interval
    else
      var converted := Truncate(interval as real / ClockRate(s));
      if converted <= 0 then 1 else converted
  }

  function SystemToSource(interval: int, s: ClockStatus): int {
    if Unscaled(interval, s) then interval else Truncate(interval as real * ClockRate(s))
  }

  /** What becomes of a frame: synthesis or the write may fail. */
  datatype Outcome = Written | NotSynthesised | NotWritten

  /** Reading of both clocks at a wakeup, and the outcome of the frame that may follow. */
  datatype Wakeup = Wakeup(clock: Time, now: int, status: ClockStatus, outcome: Outcome)

  /** A frame written, the slot it is for, and the clock reading that chose the slot. */
  datatype Frame = Frame(slot: int, smpCnt: nat, clock: Time)

  datatype Timing = Timing(framesSent: nat, skippedSamples: nat, lateWakeups: nat, maxLateness: int)

  datatype Machine = Machine(
    nextSlot: int, nextDeadline: int, waitingForSecond: bool, boundaryMisses: nat,
    timing: Timing, sample: nat, smpCnt: nat, frames: seq<Frame>, stopped: bool)

  /** smpCnt of a slot: sixteen bits of the slot within the second; zero before the epoch. */
  function Count(slot: int, rate: nat): nat
    requires rate > 0
  {
    if slot < 0 then 0 else slot % rate % 0x1_0000
  }

  /** smpCnt is the slot within its second exactly for non-negative slots that fit 16 bits,
      and for slots that start a second. */
  lemma CountExact(slot: int, rate: nat)
    requires rate > 0
    ensures Count(slot, rate) == slot % rate <==>
            (slot >= 0 && slot % rate < 0x1_0000) || slot % rate == 0
  {
  }

  function Deadline(slot: int, rate: nat, w: Wakeup): int {
    w.now + SourceToSystem(SlotStart(slot, rate) - w.clock, w.status)
  }

  function Start(rate: nat, w: Wakeup): Machine {
    var next := NextSecondSlot(w.clock, rate);
    Machine(next, Deadline(next, rate, w), true, 0, Timing(0, 0, 0, 0), 0, 0, [], false)
  }

  function Retarget(m: Machine, next: int, rate: nat, w: Wakeup): Machine {
    m.(nextSlot := next, nextDeadline := Deadline(next, rate, w))
  }

  function Late(t: Timing, skipped: nat, lateness: int): Timing {
    Timing(t.framesSent, t.skippedSamples + skipped,
           t.lateWakeups + if lateness > 0 then 1 else 0,
           if lateness > t.maxLateness && lateness > 0 then lateness else t.maxLateness)
  }

  /** smpCnt after a transmission, wrapped at the counter period if that fits 16 bits. */
  function Advance(smpCnt: nat, samplesPerSecond: int): nat {
    var n := (smpCnt + 1) % 0x1_0000;
    var modulo := if samplesPerSecond <= 0 || samplesPerSecond > 0x1_0000 then 0
                  else samplesPerSecond % 0x1_0000;
    if modulo > 0 && n >= modulo then 0 else n
  }

  /** Sample and smpCnt after a slot's frame; both move on once the frame is synthesised. */
  function SampleAfter(current: int, outcome: Outcome): nat {
    (if current < 0 then 0 else current) + if outcome == NotSynthesised then 0 else 1
  }

  function CountAfter(smpCnt: nat, sps: int, outcome: Outcome): nat {
    if outcome == NotSynthesised then smpCnt else Advance(smpCnt, sps)
  }

  /** The frame for `current`, with every slot from `from` on before it counted as skipped. */
  function Send(m: Machine, from: int, current: int, sps: int, w: Wakeup): Machine
    requires from <= current
  {
    var rate := Rate(sps);
    var cnt := Count(current, rate);
    var timing := Late(m.timing, current - from, w.clock - SlotStart(from, rate));
    var aligned := m.(nextSlot := from, timing := timing,
                      sample := SampleAfter(current, w.outcome), smpCnt := CountAfter(cnt, sps, w.outcome));
    if w.outcome != Written then aligned.(stopped := true)
    else
      Retarget(aligned.(frames := m.frames + [Frame(current, cnt, w.clock)],
                        timing := timing.(framesSent := timing.framesSent + 1),
                        waitingForSecond := false), current + 1, rate, w)
  }

  /** A whole second was passed over: either the clock jumped ahead of the timer, or the
      wakeup itself came too late, which alone counts as a miss. */
  function Missed(m: Machine, rate: nat, sps: int, w: Wakeup): Machine
    requires rate > 0
  {
    var threshold := if sps <= 0 then 250_000 else SECOND / rate;
    var lateness := w.clock - SlotStart(m.nextSlot, rate);
    var timerLate := if w.now < m.nextDeadline then 0 else w.now - m.nextDeadline;
    var jumped := lateness - SystemToSource(timerLate, w.status) >= threshold;
    Retarget(m.(boundaryMisses := m.boundaryMisses + if jumped then 0 else 1),
             NextSecondSlot(w.clock, rate), rate, w)
  }

  function Wake(m: Machine, sps: int, w: Wakeup): Machine {
    var rate := Rate(sps);
    var current := SlotAt(w.clock, rate);
    if m.stopped then m
    else if m.waitingForSecond then
      if current < m.nextSlot then
        var rebased := NextSecondSlot(w.clock, rate);
        Retarget(m, if rebased < m.nextSlot then rebased else m.nextSlot, rate, w)
      else if current > m.nextSlot && current % rate == 0 then Send(m, current, current, sps, w)
      else if current > m.nextSlot then Missed(m, rate, sps, w)
      else Send(m, m.nextSlot, current, sps, w)
    else if current < m.nextSlot then
      Retarget(m, if m.nextSlot - current > 1 then current + 1 else m.nextSlot, rate, w)
    else Send(m, m.nextSlot, current, sps, w)
  }

  function Run(m: Machine, sps: int, wakeups: seq<Wakeup>): Machine
    decreases |wakeups|
  {
    if wakeups == [] then m else Run(Wake(m, sps, wakeups[0]), sps, wakeups[1..])
  }

  // ------------------------------------------------------- the loop as it runs

  class Service {
    const samplesPerSecond: int
    var timing: Timing
    var sample: nat
    var smpCnt: nat
    var frames: seq<Frame>        // what the sink has received

    constructor (smpRate: nat, sampleTimingFrequency: nat)
      ensures samplesPerSecond == smpRate * sampleTimingFrequency
      ensures timing == Timing(0, 0, 0, 0) && sample == 0 && smpCnt == 0 && frames == []
    {
      samplesPerSecond := smpRate * sampleTimingFrequency;
      timing := Timing(0, 0, 0, 0);
      sample, smpCnt, frames := 0, 0, [];
    }

    method AlignToClockSlot(slot: int)
      modifies this`sample, this`smpCnt
      ensures sample == (if slot < 0 then 0 else slot) && smpCnt == Count(slot, Rate(samplesPerSecond))
    {
      if slot < 0 {
        sample, smpCnt := 0, 0;
      } else {
        sample, smpCnt := slot, slot % Rate(samplesPerSecond) % 0x1_0000;
      }
    }

    method RecordWakeup(skipped: nat, lateness: int)
      modifies this`timing
      ensures timing == Late(old(timing), skipped, lateness)
    {
      if lateness > 0 {
        timing := timing.(lateWakeups := timing.lateWakeups + 1);
        if lateness > timing.maxLateness {
          timing := timing.(maxLateness := lateness);
        }
      }
      timing := timing.(skippedSamples := timing.skippedSamples + skipped);
    }

    /** One frame; false when synthesis or the write fails. */
    method Transmit(slot: int, w: Wakeup) returns (ok: bool)
      modifies this`sample, this`smpCnt, this`frames
      ensures ok == (w.outcome == Written)
      ensures sample == old(sample) + if w.outcome == NotSynthesised then 0 else 1
      ensures smpCnt == CountAfter(old(smpCnt), samplesPerSecond, w.outcome)
      ensures frames == old(frames) + if ok then [Frame(slot, old(smpCnt), w.clock)] else []
    {
      if w.outcome == NotSynthesised { return false; }
      var frame := Frame(slot, smpCnt, w.clock);
      smpCnt := (smpCnt + 1) % 0x1_0000;
      sample := sample + 1;
      var modulo := if samplesPerSecond <= 0 || samplesPerSecond > 0x1_0000 then 0
                    else samplesPerSecond % 0x1_0000;
      if modulo > 0 && smpCnt >= modulo {
        smpCnt := 0;
      }
      if w.outcome == NotWritten { return false; }
      frames := frames + [frame];
      return true;
    }

    /** The loop's state as one value. */
    function View(nextSlot: int, nextDeadline: int, waiting: bool, misses: nat, stopped: bool): Machine
      reads this
    {
      Machine(nextSlot, nextDeadline, waiting, misses, timing, sample, smpCnt, frames, stopped)
    }

    /** First half of an iteration: decide whether a frame is due, or aim again. */
    method Aim(slot: int, deadline: int, waiting: bool, missed: nat, w: Wakeup)
      returns (due: bool, nextSlot: int, nextDeadline: int, misses: nat)
      ensures var m := View(slot, deadline, waiting, missed, false);
        && due == Sends(m, samplesPerSecond, w)
        && (due ==> nextSlot == From(m, samplesPerSecond, w) && misses == missed)
        && (!due ==> View(nextSlot, nextDeadline, waiting, misses, false) == Wake(m, samplesPerSecond, w))
    {
      hide Send, Late, SlotStart, NextSecondSlot, SlotAt, SourceToSystem, SystemToSource;
      var sps := samplesPerSecond;
      var rate := Rate(sps);
      nextSlot, nextDeadline, misses := slot, deadline, missed;
      var current := SlotAt(w.clock, rate);
      if waiting {
        if current < nextSlot {
          var rebased := NextSecondSlot(w.clock, rate);
          if rebased < nextSlot {
            nextSlot := rebased;
          }
        } else if current > nextSlot && current % rate == 0 {
          nextSlot := current;
          return true, nextSlot, nextDeadline, misses;
        } else if current > nextSlot {
          var lateness := w.clock - SlotStart(nextSlot, rate);
          var timerLate := w.now - nextDeadline;
          if timerLate < 0 {
            timerLate := 0;
          }
          var threshold := if sps <= 0 then 250_000 else SECOND / rate;
          if lateness - SystemToSource(timerLate, w.status) < threshold {
            misses := misses + 1;
          }
          nextSlot := NextSecondSlot(w.clock, rate);
        } else {
          return true, nextSlot, nextDeadline, misses;
        }
      } else if current < nextSlot {
        if nextSlot - current > 1 {
          nextSlot := current + 1;
        }
      } else {
        return true, nextSlot, nextDeadline, misses;
      }
      nextDeadline := Deadline(nextSlot, rate, w);
      return false, nextSlot, nextDeadline, misses;
    }

    /** Second half: the frame of the current slot. */
    method SendDue(from: int, current: int, w: Wakeup) returns (ok: bool)
      requires from <= current
      modifies this
      ensures ok == (w.outcome == Written)
      ensures timing == var t := Late(old(timing), current - from, w.clock - SlotStart(from, Rate(samplesPerSecond)));
                        if ok then t.(framesSent := t.framesSent + 1) else t
      ensures sample == SampleAfter(current, w.outcome)
      ensures smpCnt == CountAfter(Count(current, Rate(samplesPerSecond)), samplesPerSecond, w.outcome)
      ensures frames == old(frames) +
        if ok then [Frame(current, Count(current, Rate(samplesPerSecond)), w.clock)] else []
    {
      RecordWakeup(current - from, w.clock - SlotStart(from, Rate(samplesPerSecond)));
      AlignToClockSlot(current);
      ok := Transmit(current, w);
      if ok {
        timing := timing.(framesSent := timing.framesSent + 1);
      }
    }

    /** The wakeups are all those until the context is cancelled. */
    method RunScheduled(first: Wakeup, wakeups: seq<Wakeup>)
      requires timing == Timing(0, 0, 0, 0) && sample == 0 && smpCnt == 0 && frames == []
      modifies this
      ensures var r := Run(Start(Rate(samplesPerSecond), first), samplesPerSecond, wakeups);
        timing == r.timing && sample == r.sample && smpCnt == r.smpCnt && frames == r.frames
    {
      hide Wake, Send, Sends, From, Late, SlotStart, NextSecondSlot, SlotAt, Deadline, CountAfter, Count;
      var sps := samplesPerSecond;
      var rate := Rate(sps);
      var nextSlot := NextSecondSlot(first.clock, rate);
      var nextDeadline := Deadline(nextSlot, rate, first);
      var waiting, misses := true, 0;
      ghost var start := Start(rate, first);
      for i := 0 to |wakeups|
        invariant Run(start, sps, wakeups)
               == Run(View(nextSlot, nextDeadline, waiting, misses, false), sps, wakeups[i..])
      {
        var w := wakeups[i];
        assert wakeups[i..][0] == w && wakeups[i..][1..] == wakeups[i + 1..];
        ghost var before := View(nextSlot, nextDeadline, waiting, misses, false);
        var due: bool;
        due, nextSlot, nextDeadline, misses := Aim(nextSlot, nextDeadline, waiting, misses, w);
        if due {
          var current := SlotAt(w.clock, rate);
          WakeSends(before, sps, w, nextSlot);
          var ok := SendDue(nextSlot, current, w);
          SendOutcome(before, nextSlot, current, sps, w);
          if !ok {
            Stays(Wake(before, sps, w), sps, wakeups[i + 1..]);
            return;
          }
          waiting := false;
          nextSlot := current + 1;
          nextDeadline := Deadline(nextSlot, rate, w);
        }
      }
    }
  }

  lemma SendOutcome(m: Machine, from: int, current: int, sps: int, w: Wakeup)
    requires from <= current && !m.stopped
    ensures var r, rate := Send(m, from, current, sps, w), Rate(sps);
      var t := Late(m.timing, current - from, w.clock - SlotStart(from, rate));
      && r.stopped == (w.outcome != Written)
      && r.timing == (if w.outcome == Written then t.(framesSent := t.framesSent + 1) else t)
      && r.sample == SampleAfter(current, w.outcome)
      && r.smpCnt == CountAfter(Count(current, rate), sps, w.outcome)
      && r.frames == m.frames + (if w.outcome == Written then [Frame(current, Count(current, rate), w.clock)] else [])
      && (w.outcome == Written ==>
            (!r.waitingForSecond && r.nextSlot == current + 1
             && r.nextDeadline == Deadline(current + 1, rate, w)
             && r.boundaryMisses == m.boundaryMisses))
  {
  }

  /** When the loop goes back to waiting without a frame. */
  predicate Sends(m: Machine, sps: int, w: Wakeup) {
    var rate, current := Rate(sps), SlotAt(w.clock, Rate(sps));
    current >= m.nextSlot
    && (m.waitingForSecond && current > m.nextSlot ==> current % rate == 0)
  }

  /** The slot it then counts from. */
  function From(m: Machine, sps: int, w: Wakeup): int {
    if m.waitingForSecond then SlotAt(w.clock, Rate(sps)) else m.nextSlot
  }

  lemma WakeSends(m: Machine, sps: int, w: Wakeup, from: int)
    requires !m.stopped && Sends(m, sps, w) && from == From(m, sps, w)
    ensures from <= SlotAt(w.clock, Rate(sps))
    ensures Wake(m, sps, w) == Send(m, from, SlotAt(w.clock, Rate(sps)), sps, w)
  {
    hide Send, SlotAt;
  }

  lemma WakeRetargets(m: Machine, sps: int, w: Wakeup)
    requires !m.stopped && !Sends(m, sps, w)
    ensures var rate, current := Rate(sps), SlotAt(w.clock, Rate(sps));
      Wake(m, sps, w) ==
        if m.waitingForSecond then
          if current < m.nextSlot then
            Retarget(m, if NextSecondSlot(w.clock, rate) < m.nextSlot
                        then NextSecondSlot(w.clock, rate) else m.nextSlot, rate, w)
          else Missed(m, rate, sps, w)
        else Retarget(m, if m.nextSlot - current > 1 then current + 1 else m.nextSlot, rate, w)
  {
    hide Send, SlotAt, Retarget, Missed;
  }

  lemma {:induction false} Stays(m: Machine, sps: int, wakeups: seq<Wakeup>)
    requires m.stopped
    ensures Run(m, sps, wakeups) == m
    decreases |wakeups|
  {
    if wakeups != [] { Stays(m, sps, wakeups[1..]); }
  }

  // ------------------------------------------------------------- properties

  predicate FrameRight(f: Frame, rate: nat)
    requires rate > 0
  {
    f.slot == SlotAt(f.clock, rate) && f.smpCnt == Count(f.slot, rate)
  }

  /** Holds under arbitrary clock readings. */
  predicate LoopInv(m: Machine, rate: nat)
    requires rate > 0
  {
    && (m.frames == [] <==> m.waitingForSecond)
    && m.timing.framesSent == |m.frames|
    && (forall i | 0 <= i < |m.frames| :: FrameRight(m.frames[i], rate))
    && (m.frames != [] ==> m.frames[0].smpCnt == 0)
    && (m.waitingForSecond ==> m.nextSlot % rate == 0 && m.timing.skippedSamples == 0)
  }

  lemma CountZero(slot: int, rate: nat)
    requires rate > 0 && slot % rate == 0
    ensures Count(slot, rate) == 0
  {
  }

  lemma SendInv(m: Machine, sps: int, w: Wakeup, from: int)
    requires LoopInv(m, Rate(sps)) && !m.stopped && Sends(m, sps, w) && from == From(m, sps, w)
    requires from <= SlotAt(w.clock, Rate(sps))
    ensures LoopInv(Send(m, from, SlotAt(w.clock, Rate(sps)), sps, w), Rate(sps))
  {
    hide SlotAt, Late, Advance, Deadline, SlotStart, Count;
    var rate, current := Rate(sps), SlotAt(w.clock, Rate(sps));
    if m.waitingForSecond { CountZero(current, rate); }
    SendOutcome(m, from, current, sps, w);
    SkipCount(m.timing, current - from, w.clock - SlotStart(from, rate));
  }

  lemma SkipCount(t: Timing, skipped: nat, lateness: int)
    ensures Late(t, skipped, lateness).skippedSamples == t.skippedSamples + skipped
    ensures Late(t, skipped, lateness).framesSent == t.framesSent
  {
  }

  lemma WakeInv(m: Machine, sps: int, w: Wakeup)
    requires LoopInv(m, Rate(sps))
    ensures LoopInv(Wake(m, sps, w), Rate(sps))
  {
    if !m.stopped {
      if Sends(m, sps, w) {
        WakeSends(m, sps, w, From(m, sps, w));
        SendInv(m, sps, w, From(m, sps, w));
        hide Wake, Send, LoopInv;
      } else {
        WakeRetargets(m, sps, w);
        NextSecondStart(w.clock, Rate(sps));
        hide Wake, SlotAt, Deadline, SlotStart, NextSecondSlot;
      }
    }
  }

  lemma {:induction false} RunInv(m: Machine, sps: int, wakeups: seq<Wakeup>)
    requires LoopInv(m, Rate(sps))
    ensures LoopInv(Run(m, sps, wakeups), Rate(sps))
    decreases |wakeups|
  {
    hide Wake, LoopInv;
    if wakeups != [] {
      WakeInv(m, sps, wakeups[0]);
      RunInv(Wake(m, sps, wakeups[0]), sps, wakeups[1..]);
    }
  }

  /** Every run, whatever the clock readings: the first frame has smpCnt 0, and every frame
      belongs to the slot that contains the clock reading taken at its wakeup. */
  lemma EveryRun(sps: int, first: Wakeup, wakeups: seq<Wakeup>)
    ensures var frames := Run(Start(Rate(sps), first), sps, wakeups).frames;
      && (frames != [] ==> frames[0].smpCnt == 0)
      && forall i | 0 <= i < |frames| ::
           && frames[i].smpCnt == Count(frames[i].slot, Rate(sps))
           && SlotStart(frames[i].slot, sps) <= frames[i].clock < SlotStart(frames[i].slot + 1, sps)
  {
    var rate := Rate(sps);
    NextSecondStart(first.clock, rate);
    assert LoopInv(Start(rate, first), rate);
    RunInv(Start(rate, first), sps, wakeups);
    hide Wake, Run, Start, SlotStart, SlotAt, Count;
    var frames := Run(Start(rate, first), sps, wakeups).frames;
    forall i | 0 <= i < |frames|
      ensures FrameRight(frames[i], rate)
      ensures SlotStart(frames[i].slot, sps) <= frames[i].clock < SlotStart(frames[i].slot + 1, sps)
    {
      Galois(frames[i].slot, frames[i].clock, rate);
      Galois(frames[i].slot + 1, frames[i].clock, rate);
      SameRate(sps, frames[i].slot);
      SameRate(sps, frames[i].slot + 1);
    }
  }

  lemma SameRate(sps: int, slot: int)
    ensures SlotStart(slot, Rate(sps)) == SlotStart(slot, sps)
  {
  }

  /** The clock of each wakeup is not behind the one before, and every frame is written. */
  predicate Steady(clock: Time, wakeups: seq<Wakeup>)
    decreases |wakeups|
  {
    wakeups == []
    || (clock <= wakeups[0].clock && wakeups[0].outcome == Written && Steady(wakeups[0].clock, wakeups[1..]))
  }

  /** Every slot from the first frame's to the last frame's was sent or counted as skipped. */
  predicate SteadyInv(m: Machine, clock: Time, rate: nat)
    requires rate > 0
  {
    && LoopInv(m, rate) && !m.stopped
    && (forall i, j | 0 <= i < j < |m.frames| :: m.frames[i].slot < m.frames[j].slot)
    && (m.frames != [] ==>
         var last := m.frames[|m.frames| - 1].slot;
         && m.nextSlot == last + 1 && last <= SlotAt(clock, rate)
         && m.timing.framesSent + m.timing.skippedSamples == last - m.frames[0].slot + 1)
  }

  lemma SteadyWake(m: Machine, sps: int, clock: Time, w: Wakeup)
    requires SteadyInv(m, clock, Rate(sps)) && clock <= w.clock && w.outcome == Written
    ensures SteadyInv(Wake(m, sps, w), w.clock, Rate(sps))
  {
    var rate, current := Rate(sps), SlotAt(w.clock, Rate(sps));
    WakeInv(m, sps, w);
    SlotAtMonotone(clock, w.clock, rate);
    if Sends(m, sps, w) {
      var from := From(m, sps, w);
      WakeSends(m, sps, w, from);
      SendOutcome(m, from, current, sps, w);
      SkipCount(m.timing, current - from, w.clock - SlotStart(from, rate));
      hide Wake, Send, Late, Deadline, SlotAt, SlotStart, Advance, Count;
    } else {
      WakeRetargets(m, sps, w);
      hide Wake, SlotAt, SlotStart, Deadline, NextSecondSlot;
    }
  }

  lemma {:induction false} SteadyRun(m: Machine, sps: int, clock: Time, wakeups: seq<Wakeup>)
    returns (last: Time)
    requires SteadyInv(m, clock, Rate(sps)) && Steady(clock, wakeups)
    ensures SteadyInv(Run(m, sps, wakeups), last, Rate(sps))
    decreases |wakeups|
  {
    hide Wake, SteadyInv;
    if wakeups == [] {
      last := clock;
    } else {
      SteadyWake(m, sps, clock, wakeups[0]);
      last := SteadyRun(Wake(m, sps, wakeups[0]), sps, wakeups[0].clock, wakeups[1..]);
    }
  }

  /** With a clock that never runs backwards no slot is sent twice or out of order, and none
      between the first and the last frame is lost unaccounted. */
  lemma SlotsConserved(sps: int, first: Wakeup, wakeups: seq<Wakeup>)
    requires Steady(first.clock, wakeups)
    ensures var m := Run(Start(Rate(sps), first), sps, wakeups);
      && (forall i, j | 0 <= i < j < |m.frames| :: m.frames[i].slot < m.frames[j].slot)
      && (m.frames != [] ==>
           m.timing.framesSent + m.timing.skippedSamples
           == m.frames[|m.frames| - 1].slot - m.frames[0].slot + 1)
  {
    var rate := Rate(sps);
    NextSecondStart(first.clock, rate);
    assert SteadyInv(Start(rate, first), first.clock, rate);
    var last := SteadyRun(Start(rate, first), sps, first.clock, wakeups);
    hide Wake, Run, Start, SlotAt;
  }

  // ------------------------------------------------------------------- aiming

  /** Where the loop aims after a wakeup: before the first frame at the next whole second of the
      clock reading, later at the slot after that of the reading, and at the system time at
      which that slot begins by the clock as it runs. */
  predicate Aimed(m: Machine, rate: nat, w: Wakeup)
    requires rate > 0
  {
    && m.nextSlot == (if m.waitingForSecond then NextSecondSlot(w.clock, rate) else SlotAt(w.clock, rate) + 1)
    && m.nextDeadline == w.now + SourceToSystem(SlotStart(m.nextSlot, rate) - w.clock, w.status)
  }

  /** A slot that starts a second and lies behind the reading's begins its next second at the
      earliest. */
  lemma NextSecondFirst(slot: int, t: Time, rate: nat)
    requires rate > 0 && slot % rate == 0 && SlotAt(t, rate) < slot
    ensures NextSecondSlot(t, rate) <= slot
  {
    hide SlotAt;
    SecondBegun(t, rate);
    var q, u := slot / rate, Unix(t);
    assert slot == q * rate;
    SampleSlots.Cancel(u, q, rate);
    SampleSlots.Cancel(u + 1, q, rate);
  }

  lemma SecondBegun(t: Time, rate: nat)
    requires rate > 0
    ensures Unix(t) * rate <= SlotAt(t, rate)
  {
    Fraction(Nanosecond(t), rate);
  }

  lemma Fraction(n: nat, rate: nat)
    ensures 0 <= n * rate / SECOND
  {
    assert 0 <= n * rate;
  }

  /** After every wakeup, early or late, on time or over a clock step in either direction, the
      loop aims at the first slot that is not stale. */
  lemma AimsExactly(m: Machine, sps: int, w: Wakeup)
    requires LoopInv(m, Rate(sps)) && !m.stopped && !Wake(m, sps, w).stopped
    ensures Aimed(Wake(m, sps, w), Rate(sps), w)
  {
    var rate := Rate(sps);
    hide SlotAt, SlotStart, NextSecondSlot, SourceToSystem, Count, Late, Advance;
    if Sends(m, sps, w) {
      WakeSends(m, sps, w, From(m, sps, w));
      SendOutcome(m, From(m, sps, w), SlotAt(w.clock, rate), sps, w);
    } else {
      WakeRetargets(m, sps, w);
      if m.waitingForSecond && SlotAt(w.clock, rate) < m.nextSlot { NextSecondFirst(m.nextSlot, w.clock, rate); }
    }
    hide Wake, Send;
  }

  /** A frame is due exactly if the slot aimed at has begun and, for the first one, the reading
      is in that very slot or in another that starts a second. */
  predicate Due(m: Machine, sps: int, w: Wakeup) {
    var current := SlotAt(w.clock, Rate(sps));
    && SlotStart(m.nextSlot, Rate(sps)) <= w.clock
    && (m.waitingForSecond ==> current == m.nextSlot || current % Rate(sps) == 0)
  }

  lemma SendsExactly(m: Machine, sps: int, w: Wakeup)
    requires !m.stopped
    ensures Wake(m, sps, w).frames != m.frames <==> Due(m, sps, w) && w.outcome == Written
    ensures Wake(m, sps, w).stopped <==> Due(m, sps, w) && w.outcome != Written
  {
    hide SlotAt, SlotStart, NextSecondSlot, Deadline, Count, Late, Advance;
    var rate := Rate(sps);
    Galois(m.nextSlot, w.clock, rate);
    assert Due(m, sps, w) <==> Sends(m, sps, w);
    if Sends(m, sps, w) {
      WakeSends(m, sps, w, From(m, sps, w));
      SendOutcome(m, From(m, sps, w), SlotAt(w.clock, rate), sps, w);
    } else {
      WakeRetargets(m, sps, w);
    }
    hide Wake, Send;
  }

  /** What the statistics say of a wakeup: a frame counts as late if its slot, or that of the
      first one skipped, began before the reading; a whole second missed at the start counts
      unless the clock ran ahead of what the timer's own lateness explains by a slot or more. */
  lemma StatisticsExactly(m: Machine, sps: int, w: Wakeup)
    requires !m.stopped
    ensures var n, rate := Wake(m, sps, w), Rate(sps);
      var from := if m.waitingForSecond then SlotAt(w.clock, rate) else m.nextSlot;
      var late := w.clock - SlotStart(from, rate);
      && n.timing.lateWakeups == m.timing.lateWakeups + (if Due(m, sps, w) && 0 < late then 1 else 0)
      && n.timing.maxLateness == (if Due(m, sps, w) && m.timing.maxLateness < late && 0 < late then late
                                  else m.timing.maxLateness)
    ensures var n, rate := Wake(m, sps, w), Rate(sps);
      var behind := w.clock - SlotStart(m.nextSlot, rate);
      var timer := if m.nextDeadline < w.now then w.now - m.nextDeadline else 0;
      var slot := if sps <= 0 then 250_000 else SECOND / rate;
      n.boundaryMisses == m.boundaryMisses
        + if m.waitingForSecond && m.nextSlot < SlotAt(w.clock, rate) && !Due(m, sps, w)
             && behind < SystemToSource(timer, w.status) + slot then 1 else 0
  {
    hide SlotAt, SlotStart, NextSecondSlot, Deadline, Count, Advance, SystemToSource;
    Galois(m.nextSlot, w.clock, Rate(sps));
    assert Due(m, sps, w) <==> Sends(m, sps, w);
    if Sends(m, sps, w) {
      WakeSends(m, sps, w, From(m, sps, w));
      SendStatistics(m, From(m, sps, w), SlotAt(w.clock, Rate(sps)), sps, w);
    } else {
      WakeRetargets(m, sps, w);
    }
    hide Wake, Send;
  }

  lemma SendStatistics(m: Machine, from: int, current: int, sps: int, w: Wakeup)
    requires from <= current
    ensures var n, late := Send(m, from, current, sps, w), w.clock - SlotStart(from, Rate(sps));
      && n.boundaryMisses == m.boundaryMisses
      && n.timing.lateWakeups == m.timing.lateWakeups + (if 0 < late then 1 else 0)
      && n.timing.maxLateness == if m.timing.maxLateness < late && 0 < late then late else m.timing.maxLateness
  {
    hide SlotStart, Deadline, Count, Advance;
  }

  /** Every wakeup reads the clock within the slot aimed at, and every frame is written. */
  predicate Punctual(m: Machine, sps: int, wakeups: seq<Wakeup>)
    decreases |wakeups|
  {
    wakeups == []
    || (&& SlotAt(wakeups[0].clock, Rate(sps)) == m.nextSlot && wakeups[0].outcome == Written
        && Punctual(Wake(m, sps, wakeups[0]), sps, wakeups[1..]))
  }

  /** Woken within the slots it aims at, the loop sends one frame a wakeup, slot after slot, and
      skips none. */
  lemma {:induction false} EverySlotSent(m: Machine, sps: int, wakeups: seq<Wakeup>)
    requires !m.stopped && Punctual(m, sps, wakeups)
    ensures var n := Run(m, sps, wakeups);
      && !n.stopped && n.nextSlot == m.nextSlot + |wakeups|
      && |n.frames| == |m.frames| + |wakeups| && n.frames[..|m.frames|] == m.frames
      && (forall i | |m.frames| <= i < |n.frames| :: n.frames[i].slot == m.nextSlot + i - |m.frames|)
      && n.timing.skippedSamples == m.timing.skippedSamples
      && n.timing.framesSent == m.timing.framesSent + |wakeups|
    decreases |wakeups|
  {
    hide SlotAt, SlotStart, NextSecondSlot, Deadline, Count, Late, Advance, Wake, Send;
    if wakeups != [] {
      var w := wakeups[0];
      WakeSends(m, sps, w, m.nextSlot);
      SendOutcome(m, m.nextSlot, m.nextSlot, sps, w);
      SkipCount(m.timing, 0, w.clock - SlotStart(m.nextSlot, Rate(sps)));
      EverySlotSent(Wake(m, sps, w), sps, wakeups[1..]);
    }
  }

  /** The time to wait is right to a nanosecond of either clock: no longer than the slot is away,
      unless it is the one nanosecond it waits at least, and less than a nanosecond shorter. */
  lemma WaitAccurate(interval: int, s: ClockStatus)
    requires 0 < interval
    ensures Unscaled(interval, s) ==> SourceToSystem(interval, s) == interval
    ensures !Unscaled(interval, s) ==>
      var wait := SourceToSystem(interval, s);
      && 1 <= wait && (wait == 1 || wait as real * ClockRate(s) <= interval as real)
      && interval as real < (wait + 1) as real * ClockRate(s)
  {
    if !Unscaled(interval, s) {
      var rate, x := ClockRate(s), interval as real / ClockRate(s);
      assert x * rate == interval as real && 0.0 < x;
      ScaledBack(x, SourceToSystem(interval, s), rate);
    }
  }

  lemma ScaledBack(x: real, wait: int, rate: real)
    requires 0.0 < rate && x < wait as real + 1.0
    ensures wait as real <= x ==> wait as real * rate <= x * rate
    ensures x * rate < (wait + 1) as real * rate
  {
  }
}
