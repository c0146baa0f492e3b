/** The GOOSE publication loop: state changes by other goroutines, the one-slot wakeup
    channel, the retransmission timer, and the frames they lead to. */
module GooseWakeup {
  import opened Arithmetic
  import opened Bytes
  import P = GoosePublisher

  // ---------------------------------------------------------------- intervals

  /** Retransmission intervals in milliseconds after the defaults have been filled in. */
  function Intervals(minMs: nat, maxMs: nat): (r: (nat, nat))
    ensures 0 < r.0 <= r.1
    ensures 0 < minMs <= maxMs ==> r == (minMs, maxMs)
    ensures maxMs == 0 ==> r.1 == 1000
    ensures minMs == 0 && 2 <= r.1 ==> r.0 == 2
    ensures 0 < maxMs < minMs ==> r == (maxMs, maxMs)
  {
    var lo := if minMs == 0 then 2 else minMs;
    var hi := if maxMs == 0 then 1000 else maxMs;
    (if lo > hi then hi else lo, hi)
  }

  function NextInterval(current: nat, maximum: nat): nat {
    if current >= maximum || current > maximum / 2 then maximum else current * 2
  }

  /** The interval after k repetitions: doubled each time, up to the maximum. */
  function Backoff(lo: nat, hi: nat, k: nat): nat {
    if lo * Pow2(k) < hi then lo * Pow2(k) else hi
  }

  lemma BackoffStep(lo: nat, hi: nat, k: nat)
    requires 0 < lo <= hi
    ensures NextInterval(Backoff(lo, hi, k), hi) == Backoff(lo, hi, k + 1)
    ensures Backoff(lo, hi, 0) == lo && NextInterval(hi, hi) == hi
  {
    var x := lo * Pow2(k);
    assert lo * Pow2(k + 1) == 2 * x;
  }

  // -------------------------------------------------------------- the machine

  datatype Cause = Initial | Notification | Timer

  /** Where the loop is: waiting; woken by a notification; decided to send; sent the frame of
      a state but not yet recorded it; ended by a write error. */
  datatype Phase = Waiting | Woken | Sending(cause: Cause) | Written(cause: Cause, state: nat)
                 | Stopped

  datatype Frame = Frame(cause: Cause, state: nat)

  /** `changes` counts the publisher's states; its stNum is P.StNum(changes). `raising` counts
      callers of ApplyState that have changed the state but not yet raised the notification.
      `last` is the state behind lastTransmittedStNum. */
  datatype Loop = Loop(
    changes: nat, raising: nat, queued: bool, phase: Phase, last: nat,
    interval: nat, lo: nat, hi: nat, sent: seq<Frame>)

  datatype Event = Change | Raise | Take | Compare | Send | Complete(failed: bool) | Fire

  function Start(lo: nat, hi: nat): Loop {
    Loop(0, 0, false, Sending(Initial), 0, hi, lo, hi, [])
  }

  predicate Enabled(s: Loop, e: Event) {
    match e
    case Change => true
    case Raise => s.raising > 0
    case Take => s.phase == Waiting && s.queued
    case Compare => s.phase == Woken
    case Send => s.phase.Sending?
    case Complete(_) => s.phase.Written?
    case Fire => s.phase == Waiting
  }

  function Recorded(s: Loop): Loop
    requires s.phase.Written?
  {
    var n := s.phase.state;
    var t := s.(phase := Waiting, last := n);
    match s.phase.cause
    case Initial => t.(interval := s.hi)
    case Notification => t.(interval := s.lo)
    case Timer => t.(interval := if P.StNum(n) != P.StNum(s.last) then s.lo else NextInterval(s.interval, s.hi))
  }

  function Step(s: Loop, e: Event): Loop
    requires Enabled(s, e)
  {
    match e
    case Change => s.(changes := s.changes + 1, raising := s.raising + 1)
    case Raise => s.(raising := s.raising - 1, queued := true)
    case Take => s.(queued := false, phase := Woken)
    case Compare =>
      if P.StNum(s.changes) != P.StNum(s.last) then s.(phase := Sending(Notification))
      else s.(phase := Waiting, interval := s.lo)
    case Send =>
      s.(phase := Written(s.phase.cause, s.changes),
         sent := s.sent + [Frame(s.phase.cause, s.changes)])
    case Complete(failed) => if failed then s.(phase := Stopped) else Recorded(s)
    case Fire => s.(phase := Sending(Timer))
  }

  // ------------------------------------------------- the events of a change

  /** The event handles a change: a notification's frame is out, or the timer's frame with the
      new stNum is, or a notification finds that the timer has sent it. */
  predicate Handles(s: Loop, e: Event) {
    match e
    case Complete(false) =>
      && s.phase.Written?
      && (s.phase.cause == Notification
          || (s.phase.cause == Timer && P.StNum(s.phase.state) != P.StNum(s.last)))
    case Compare => P.StNum(s.changes) == P.StNum(s.last)
    case _ => false
  }

  /** The timer has sent the state sent before once more. */
  predicate Repeats(s: Loop, e: Event) {
    e == Complete(false) && s.phase.Written? && s.phase.cause == Timer && P.StNum(s.phase.state) == P.StNum(s.last)
  }

  /** The repetitions since the last event of a run that handled a change, or -1 before any. */
  function Since(s: Loop, run: seq<Event>, k: int): int
    requires ValidRun(s, run)
    decreases |run|
  {
    if run == [] then k else Since(Step(s, run[0]), run[1..], Counted(s, run[0], k))
  }

  function Counted(s: Loop, e: Event, k: int): int {
    if Handles(s, e) then 0 else if Repeats(s, e) && 0 <= k then k + 1 else k
  }

  /** The state of the newest frame on the wire. */
  function Newest(s: Loop): nat {
    if s.phase.Written? then s.phase.state else s.last
  }

  /** A notification exists or is about to, or the current state is about to be sent. */
  predicate WakeupPending(s: Loop) {
    s.queued || s.raising > 0 || s.phase == Woken || s.phase.Sending?
  }

  predicate Inv(s: Loop, k: int) {
    && 0 < s.lo <= s.hi
    && (s.phase != Stopped && P.StNum(s.changes) != P.StNum(Newest(s)) ==> WakeupPending(s))
    && Newest(s) <= s.changes && s.last <= Newest(s)
    && (s.phase == Sending(Notification) ==> s.changes > s.last)
    && (s.phase != Stopped && s.sent != [] ==> s.sent[|s.sent| - 1].state == Newest(s))
    && (s.sent == [] <==> s.phase == Sending(Initial))
    && (s.phase == Sending(Initial) || (s.phase.Written? && s.phase.cause == Initial) ==> k < 0)
    && s.interval == (if k < 0 then s.hi else Backoff(s.lo, s.hi, k))
    && OrderedFrames(s.sent)
  }

  /** States are sent in order; a frame sent for a notification shows a new state. */
  predicate OrderedFrames(sent: seq<Frame>) {
    forall i | 0 < i < |sent| ::
      && sent[i - 1].state <= sent[i].state
      && (sent[i].cause == Notification ==> sent[i - 1].state < sent[i].state)
  }

  lemma StartInv(minMs: nat, maxMs: nat)
    ensures var r := Intervals(minMs, maxMs); Inv(Start(r.0, r.1), -1)
  {
  }

  lemma RecordedInv(s: Loop, k: int)
    requires Inv(s, k) && s.phase.Written?
    ensures Inv(Recorded(s), Counted(s, Complete(false), k))
  {
    BackoffStep(s.lo, s.hi, if k < 0 then 0 else k);
    hide P.StNum, Backoff, NextInterval, OrderedFrames;
  }

  lemma SendInv(s: Loop, k: int)
    requires Inv(s, k) && s.phase.Sending?
    ensures Inv(Step(s, Send), k)
  {
    hide P.StNum, Backoff;
  }

  lemma StepInv(s: Loop, e: Event, k: int)
    requires Inv(s, k) && Enabled(s, e)
    ensures Inv(Step(s, e), Counted(s, e, k))
  {
    match e {
      case Complete(failed) => if !failed { RecordedInv(s, k); hide Inv, Recorded; }
      case Send => SendInv(s, k); hide Inv;
      case Compare =>
        BackoffStep(s.lo, s.hi, 0);
        hide P.StNum, Backoff, NextInterval, OrderedFrames;
      case _ => hide P.StNum, Backoff, OrderedFrames;
    }
  }

  predicate ValidRun(s: Loop, run: seq<Event>)
    decreases |run|
  {
    run == [] || (Enabled(s, run[0]) && ValidRun(Step(s, run[0]), run[1..]))
  }

  function Execute(s: Loop, run: seq<Event>): Loop
    requires ValidRun(s, run)
    decreases |run|
  {
    if run == [] then s else Execute(Step(s, run[0]), run[1..])
  }

  lemma {:induction false} RunInv(s: Loop, run: seq<Event>, k: int)
    requires Inv(s, k) && ValidRun(s, run)
    ensures Inv(Execute(s, run), Since(s, run, k))
    decreases |run|
  {
    if run != [] {
      StepInv(s, run[0], k);
      hide Inv, Step, Enabled, Counted;
      RunInv(Step(s, run[0]), run[1..], Counted(s, run[0], k));
    }
  }

  /** No wakeup is lost and no state is sent twice for one change: under every interleaving of
      state changes, notifications, timer and writes, an unsent stNum has a wakeup pending, a
      notification only ever sends a state newer than the newest frame, and with k timer
      repetitions since the last event that handled a change, the loop waits
      min(2^k * MinMs, MaxMs), never longer than the TimeAllowedToLive it advertises. */
  lemma NoLostWakeup(minMs: nat, maxMs: nat, run: seq<Event>)
    requires var r := Intervals(minMs, maxMs); ValidRun(Start(r.0, r.1), run)
    ensures var r := Intervals(minMs, maxMs);
      var s, k := Execute(Start(r.0, r.1), run), Since(Start(r.0, r.1), run, -1);
      && (s.phase != Stopped && P.StNum(s.changes) != P.StNum(Newest(s)) ==> WakeupPending(s))
      && OrderedFrames(s.sent)
      && s.interval == (if k < 0 then r.1 else Backoff(r.0, r.1, k)) <= r.1
  {
    var r := Intervals(minMs, maxMs);
    StartInv(minMs, maxMs);
    RunInv(Start(r.0, r.1), run, -1);
    SameBounds(Start(r.0, r.1), run);
    hide P.StNum, Intervals, Step, Enabled, Since;
  }

  /** Right after a change is handled the loop waits MinMs. */
  lemma BurstStarts(s: Loop, e: Event, k: int)
    requires Inv(s, k) && Enabled(s, e) && Handles(s, e)
    ensures Step(s, e).phase == Waiting && Step(s, e).interval == s.lo
  {
    hide P.StNum, Backoff, OrderedFrames;
  }

  /** The states shown by the frames of a run: each is the number of changes before it is sent. */
  function Shown(run: seq<Event>, changes: nat): seq<nat> {
    if run == [] then []
    else (if run[0] == Send then [changes] else []) + Shown(run[1..], changes + if run[0] == Change then 1 else 0)
  }

  function States(sent: seq<Frame>): (r: seq<nat>)
    ensures |r| == |sent|
  {
    seq(|sent|, i requires 0 <= i < |sent| => sent[i].state)
  }

  /** Every frame, whatever it is sent for, shows the state of its moment; and the loop ends
      exactly with a failed write, after which nothing is sent. */
  lemma {:induction false} FramesCurrent(s: Loop, run: seq<Event>)
    requires ValidRun(s, run)
    ensures States(Execute(s, run).sent) == States(s.sent) + Shown(run, s.changes)
    ensures Execute(s, run).phase == Stopped <==> s.phase == Stopped || Complete(true) in run
    ensures s.phase == Stopped ==> Execute(s, run).sent == s.sent
    decreases |run|
  {
    hide Step, Enabled, States;
    if run == [] {
      assert States(s.sent) + [] == States(s.sent);
    } else {
      var t := Step(s, run[0]);
      OneFrame(s, run[0]);
      FramesCurrent(t, run[1..]);
      Grouped(States(s.sent), if run[0] == Send then [s.changes] else [], Shown(run[1..], t.changes));
      assert run == [run[0]] + run[1..];
    }
  }

  lemma OneFrame(s: Loop, e: Event)
    requires Enabled(s, e)
    ensures var t := Step(s, e);
      && States(t.sent) == States(s.sent) + (if e == Send then [s.changes] else [])
      && t.changes == s.changes + (if e == Change then 1 else 0)
      && (t.phase == Stopped <==> s.phase == Stopped || e == Complete(true))
      && (s.phase == Stopped ==> t.sent == s.sent)
  {
    hide P.StNum;
  }

  lemma {:induction false} SameBounds(s: Loop, run: seq<Event>)
    requires ValidRun(s, run)
    ensures Execute(s, run).lo == s.lo && Execute(s, run).hi == s.hi
    decreases |run|
  {
    if run != [] { SameBounds(Step(s, run[0]), run[1..]); }
  }

  /** When all is quiet the newest frame shows the current stNum. It shows the current state
      exactly when the states in between are not a positive multiple of 2^32 - 1, the period
      after which stNum repeats. */
  lemma QuietMeansSent(s: Loop, k: int)
    requires Inv(s, k) && s.phase == Waiting && !s.queued && s.raising == 0
    ensures P.StNum(s.changes) == P.StNum(s.last)
    ensures s.changes == s.last <==> s.changes - s.last < P.U32 - 1
  {
    StNumRepeats(s.last, s.changes);
  }

  lemma StNumRepeats(u: nat, v: nat)
    requires u <= v
    ensures P.StNum(u) == P.StNum(v) <==> (v - u) % (P.U32 - 1) == 0
    ensures P.StNum(u) == P.StNum(v) && v - u < P.U32 - 1 ==> u == v
  {
    var m: nat := P.U32 - 1;
    var a, b := u / m, v / m;
    assert u == a * m + u % m && v == b * m + v % m;
    assert v - u == (b - a) * m + (v % m - u % m);
    if v % m >= u % m {
      var d := v % m - u % m;
      MulBound(b - a, m);
      DivModUnique(v - u, m, b - a, d);
    } else {
      var d := v % m - u % m + m;
      MulBound(b - a - 1, m);
      assert (b - a - 1) * m == (b - a) * m - m;
      DivModUnique(v - u, m, b - a - 1, d);
    }
  }
}
