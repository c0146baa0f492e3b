/** One publisher run, a network that may lose, duplicate, delay and reorder its frames and
    pad them, and one subscriber: what the subscriber accepts. */
module GooseEndToEnd {
  import opened Wrappers
  import opened Bytes
  import Codec = GooseCodec
  import Data = GooseData
  import P = GoosePublisher
  import S = GooseSubscriber
  import UtcTime

  const U32: nat := 0x1_0000_0000
  const HALF: nat := 0x8000_0000

  /** A transmitted frame, with its unwrapped place in the run: the number of state changes
      before it and the number of earlier frames of the same state. */
  datatype Emission = Emission(state: nat, repeat: nat, pdu: Codec.Pdu)

  type Log = seq<Emission>

  /** The publisher, its unwrapped counters, the last clock reading, and every frame put on
      the wire so far. */
  datatype Sender = Sender(
    publisher: P.State, changes: nat, repeats: nat, clock: UtcTime.Time, log: Log)

  /** The subscriber's stream state and the log indices of the frames it took. */
  datatype Receiver = Receiver(stream: S.Stream, accepted: seq<nat>)
  {
    predicate Before(i: nat) { forall k | 0 <= k < |accepted| :: accepted[k] < i }

    function Last(): nat
      requires accepted != []
    {
      accepted[|accepted| - 1]
    }
  }

  datatype System = System(config: P.Config, sender: Sender, receiver: Receiver)

  datatype Event =
    | Apply(now: UtcTime.Time, quality: UtcTime.TimeQuality, data: seq<Data.DataValue>,
            test: bool, simulation: bool)
    | Transmit
    | Deliver(index: nat, receivedAt: UtcTime.Time)
    | Watchdog(at: UtcTime.Time)

  function Start(c: P.Config, initial: seq<Data.DataValue>, now: UtcTime.Time,
                 q: UtcTime.TimeQuality): System
  {
    System(c, Sender(P.Initial(initial, now, q), 0, 0, now, []), Receiver(S.UNSEEN, []))
  }

  predicate Earlier(a: Emission, b: Emission) {
    a.state < b.state || (a.state == b.state && a.repeat < b.repeat)
  }

  /** Close enough for 32-bit serial numbers to tell the order. */
  predicate Near(a: Emission, b: Emission) {
    var window := HALF - 1;
    && a.state < b.state + window && b.state < a.state + window
    && (a.state == b.state ==> a.repeat < b.repeat + window && b.repeat < a.repeat + window)
  }

  /** The network delivers frames of the run that are near the last accepted one. */
  predicate Deliverable(log: Log, r: Receiver, i: nat) {
    i < |log| && (r.accepted != [] ==> r.Last() < |log| && Near(log[r.Last()], log[i]))
  }

  /** The publisher's clock does not run backwards, and every frame fits its APDU. */
  predicate Enabled(s: System, e: Event) {
    match e
    case Apply(now, _, _, _, _) => now >= s.sender.clock
    case Transmit => Codec.Sendable(P.Frame(s.config, s.sender.publisher))
    case Deliver(i, _) => Deliverable(s.sender.log, s.receiver, i)
    case Watchdog(_) => true
  }

  function Applied(s: Sender, e: Event): Sender
    requires e.Apply?
  {
    var changed := P.Changes(s.publisher, e.data, e.test, e.simulation);
    Sender(P.Apply(s.publisher, e.data, e.test, e.simulation, e.now, e.quality),
           if changed then s.changes + 1 else s.changes, if changed then 0 else s.repeats,
           e.now, s.log)
  }

  function Transmitted(c: P.Config, s: Sender): Sender {
    Sender(P.Transmitted(s.publisher), s.changes, s.repeats + 1, s.clock,
           s.log + [Emission(s.changes, s.repeats, P.Frame(c, s.publisher))])
  }

  /** The receiver after getting frame i. What it gets is the PDU as Codec.Received gives it;
      WireDelivers shows that decoding the octets on the wire yields just this. */
  function Delivered(log: Log, r: Receiver, i: nat, at: UtcTime.Time): Receiver
    requires i < |log|
  {
    var p := Codec.Received(log[i].pdu);
    Receiver(S.Next(r.stream, p, at), if S.Accepts(r.stream, p) then r.accepted + [i] else r.accepted)
  }

  function Step(s: System, e: Event): System
    requires Enabled(s, e)
  {
    match e
    case Apply(_, _, _, _, _) => s.(sender := Applied(s.sender, e))
    case Transmit => s.(sender := Transmitted(s.config, s.sender))
    case Deliver(i, at) => s.(receiver := Delivered(s.sender.log, s.receiver, i, at))
    case Watchdog(at) =>
      s.(receiver := s.receiver.(stream := S.Checked(s.receiver.stream, at)))
  }

  predicate ValidRun(s: System, run: seq<Event>)
    decreases |run|
  {
    run == [] || (Enabled(s, run[0]) && ValidRun(Step(s, run[0]), run[1..]))
  }

  function Execute(s: System, run: seq<Event>): System
    requires ValidRun(s, run)
    decreases |run|
  {
    if run == [] then s else Execute(Step(s, run[0]), run[1..])
  }

  // ------------------------------------------------------- serial arithmetic

  /** Skipping zero at the wrap costs one in the distance and never hides the order. */
  lemma StatesOrdered(u: nat, v: nat)
    requires u < v < u + HALF - 1
    ensures 0 < S.Distance(P.StNum(v), P.StNum(u)) < HALF
    ensures S.Distance(P.StNum(u), P.StNum(v)) >= HALF
    ensures P.StNum(u) != P.StNum(v)
  {
    Residues(u, v, U32 - 1);
    Wrapped(P.StNum(v), P.StNum(u), v - u);
  }

  lemma RepeatsOrdered(m: nat, n: nat)
    requires m < n < m + HALF - 1
    ensures 0 < S.Distance(P.SqNum(n), P.SqNum(m)) < HALF
    ensures S.Distance(P.SqNum(m), P.SqNum(n)) >= HALF
    ensures P.SqNum(m) != P.SqNum(n)
  {
    if m > 0 {
      Residues(m - 1, n - 1, U32 - 1);
    }
    Wrapped(P.SqNum(n), P.SqNum(m), n - m);
  }

  lemma Residues(u: nat, v: nat, m: nat)
    requires u < v < u + m
    ensures v % m - u % m == v - u || v % m - u % m == v - u - m
  {
    var q, r := u / m, u % m;
    assert u == q * m + r;
    if r + (v - u) < m {
      DivModUnique(v, m, q, r + (v - u));
    } else {
      DivModUnique(v, m, q + 1, r + (v - u) - m);
    }
  }

  lemma Wrapped(a: nat, b: nat, d: nat)
    requires 0 < d < HALF - 1 && (a - b == d || a - b == d - (U32 - 1))
    ensures 0 < S.Distance(a, b) < HALF && S.Distance(b, a) >= HALF
  {
  }

  // --------------------------------------------------------------- the sender

  predicate Numbered(e: Emission) {
    && e.pdu.stNum == P.StNum(e.state) && e.pdu.sqNum == P.SqNum(e.repeat)
    && Codec.Sendable(e.pdu)
  }

  predicate Ordered(a: Emission, b: Emission) {
    && Earlier(a, b) && a.pdu.timestamp <= b.pdu.timestamp
    && (a.state == b.state ==> a.pdu.timestamp == b.pdu.timestamp)
  }

  /** A logged frame is behind the publisher's counters and timestamp. */
  predicate Behind(e: Emission, changes: nat, repeats: nat, changedAt: UtcTime.Time) {
    && (e.state < changes || (e.state == changes && e.repeat < repeats))
    && e.pdu.timestamp <= changedAt
    && (e.state == changes ==> e.pdu.timestamp == changedAt)
  }

  predicate SenderInv(s: Sender) {
    && s.publisher.stNum == P.StNum(s.changes) && s.publisher.sqNum == P.SqNum(s.repeats)
    && s.publisher.stateChanged <= s.clock
    && (forall i | 0 <= i < |s.log| :: Numbered(s.log[i]))
    && (forall i | 0 <= i < |s.log| ::
          Behind(s.log[i], s.changes, s.repeats, s.publisher.stateChanged))
    && (forall i, j | 0 <= i < j < |s.log| :: Ordered(s.log[i], s.log[j]))
  }

  lemma AppliedInv(s: Sender, e: Event)
    requires SenderInv(s) && e.Apply? && e.now >= s.clock
    ensures SenderInv(Applied(s, e))
  {
    hide P.StNum, P.SqNum, P.NextSerial, P.ResolveTimes, Numbered, Ordered, P.Changes;
    P.SerialSteps(s.changes);
    P.FirstFrame();
    var t := Applied(s, e);
    forall i | 0 <= i < |t.log|
      ensures Behind(t.log[i], t.changes, t.repeats, t.publisher.stateChanged)
    {
      assert Behind(s.log[i], s.changes, s.repeats, s.publisher.stateChanged);
    }
  }

  lemma TransmittedInv(c: P.Config, s: Sender)
    requires SenderInv(s) && Codec.Sendable(P.Frame(c, s.publisher))
    ensures SenderInv(Transmitted(c, s))
  {
    P.SerialSteps(s.repeats);
    hide P.StNum, P.SqNum, P.NextSerial, Codec.Sendable;
    var t := Transmitted(c, s);
    forall i | 0 <= i < |t.log|
      ensures Behind(t.log[i], t.changes, t.repeats, t.publisher.stateChanged)
    {
      if i < |s.log| { assert Behind(s.log[i], s.changes, s.repeats, s.publisher.stateChanged); }
    }
    forall i, j | 0 <= i < j < |t.log| ensures Ordered(t.log[i], t.log[j]) {
      if j == |s.log| { assert Behind(s.log[i], s.changes, s.repeats, s.publisher.stateChanged); }
    }
  }

  // -------------------------------------------------------------- the receiver

  predicate LogInv(log: Log) {
    && (forall i | 0 <= i < |log| :: Numbered(log[i]))
    && (forall i, j | 0 <= i < j < |log| :: Ordered(log[i], log[j]))
  }

  /** The stream's baseline is the frame e. */
  predicate Baseline(stream: S.Stream, e: Emission) {
    && stream.seen && stream.lastStNum == e.pdu.stNum && stream.lastSqNum == e.pdu.sqNum
    && stream.lastPdu == Some(Codec.Received(e.pdu))
  }

  /** The baseline is the last accepted frame, and frames were accepted in order. */
  predicate ReceiverInv(log: Log, r: Receiver) {
    && (forall k | 0 <= k < |r.accepted| :: r.accepted[k] < |log|)
    && (forall k, l | 0 <= k < l < |r.accepted| :: r.accepted[k] < r.accepted[l])
    && (if r.accepted == [] then !r.stream.seen && r.stream.lastPdu == None
        else Baseline(r.stream, log[r.Last()]))
  }

  /** Instants survive the wire without becoming unset. */
  lemma WireTimestamps(a: Codec.Pdu, b: Codec.Pdu)
    requires Codec.Sendable(a) && Codec.Sendable(b) && a.timestamp <= b.timestamp
    ensures UtcTime.ZERO < Codec.Received(a).timestamp <= Codec.Received(b).timestamp
  {
    UtcTime.QuantiseMonotone(a.timestamp, b.timestamp);
    UtcTime.QuantiseClose(a.timestamp);
  }

  /** Whether a frame is later in the run than the baseline is what decides its acceptance. */
  lemma Verdict(stream: S.Stream, last: Emission, e: Emission)
    requires Numbered(last) && Numbered(e) && Near(last, e) && Baseline(stream, last)
    requires Ordered(last, e) || Ordered(e, last) || e == last
    ensures S.Accepts(stream, Codec.Received(e.pdu)) <==> Earlier(last, e)
    ensures !S.IsRestart(stream, Codec.Received(e.pdu))
  {
    if last.pdu.timestamp <= e.pdu.timestamp {
      WireTimestamps(last.pdu, e.pdu);
    }
    if e.pdu.timestamp <= last.pdu.timestamp {
      WireTimestamps(e.pdu, last.pdu);
    }
    if last.state < e.state { StatesOrdered(last.state, e.state); }
    if e.state < last.state { StatesOrdered(e.state, last.state); }
    if last.state == e.state && last.repeat < e.repeat { RepeatsOrdered(last.repeat, e.repeat); }
    if last.state == e.state && e.repeat < last.repeat { RepeatsOrdered(e.repeat, last.repeat); }
    hide P.StNum, P.SqNum, UtcTime.Quantise, Data.CanonicalSeq, Codec.Sendable;
  }

  /** The receiver takes a frame exactly when it was put on the wire later than every frame
      taken before, and never mistakes a replay for a restarted publisher. */
  lemma AcceptsExactlyLater(log: Log, r: Receiver, i: nat)
    requires LogInv(log) && ReceiverInv(log, r) && Deliverable(log, r, i)
    ensures S.Accepts(r.stream, Codec.Received(log[i].pdu)) <==> r.Before(i)
    ensures !S.IsRestart(r.stream, Codec.Received(log[i].pdu))
  {
    hide Codec.Received, Near, Numbered, Baseline;
    if r.accepted != [] {
      var n := r.Last();
      assert n < i ==> Ordered(log[n], log[i]);
      assert i < n ==> Ordered(log[i], log[n]);
      Verdict(r.stream, log[n], log[i]);
      assert Earlier(log[n], log[i]) <==> n < i;
      assert r.Before(i) <==> n < i;
    }
  }

  lemma DeliveredInv(log: Log, r: Receiver, i: nat, at: UtcTime.Time)
    requires LogInv(log) && ReceiverInv(log, r) && Deliverable(log, r, i)
    ensures ReceiverInv(log, Delivered(log, r, i, at))
    ensures Delivered(log, r, i, at).accepted == if r.Before(i) then r.accepted + [i] else r.accepted
  {
    hide S.Accepts, Codec.Received, LogInv, Near;
    AcceptsExactlyLater(log, r, i);
    ReceivedSerials(log[i].pdu);
  }

  lemma ReceivedSerials(p: Codec.Pdu)
    ensures Codec.Received(p).stNum == p.stNum && Codec.Received(p).sqNum == p.sqNum
  {
  }

  // ---------------------------------------------------------------- whole runs

  predicate Inv(s: System) {
    SenderInv(s.sender) && ReceiverInv(s.sender.log, s.receiver)
  }

  lemma SenderLog(s: Sender)
    requires SenderInv(s)
    ensures LogInv(s.log)
  {
  }

  lemma LongerLog(log: Log, e: Emission, r: Receiver)
    requires ReceiverInv(log, r)
    ensures ReceiverInv(log + [e], r)
  {
    hide Baseline;
  }

  lemma StepInv(s: System, e: Event)
    requires Inv(s) && Enabled(s, e)
    ensures Inv(Step(s, e))
  {
    hide SenderInv, Codec.Sendable, Deliverable, S.Accepts, Applied, P.Frame, LogInv;
    match e {
      case Apply(_, _, _, _, _) =>
        AppliedInv(s.sender, e);
        SameLog(s.sender, e);
      case Transmit =>
        TransmittedInv(s.config, s.sender);
        LongerLog(s.sender.log, Transmitted(s.config, s.sender).log[|s.sender.log|], s.receiver);
      case Deliver(i, at) =>
        SenderLog(s.sender);
        DeliveredInv(s.sender.log, s.receiver, i, at);
        hide ReceiverInv, Delivered;
      case Watchdog(_) =>
    }
  }

  lemma SameLog(s: Sender, e: Event)
    requires e.Apply?
    ensures Applied(s, e).log == s.log
  {
  }

  lemma {:induction false} RunInv(s: System, run: seq<Event>)
    requires Inv(s) && ValidRun(s, run)
    ensures Inv(Execute(s, run))
    decreases |run|
  {
    hide Inv, Step, Enabled;
    if run != [] {
      StepInv(s, run[0]);
      RunInv(Step(s, run[0]), run[1..]);
    }
  }

  lemma StartInv(c: P.Config, initial: seq<Data.DataValue>, now: UtcTime.Time, q: UtcTime.TimeQuality)
    ensures Inv(Start(c, initial, now, q))
  {
  }

  /** A delivered frame decodes to the PDU that was sent, whatever the padding. */
  lemma WireDelivers(log: Log, i: nat, padding: bytes)
    requires LogInv(log) && i < |log|
    ensures Codec.Parse(Codec.Encode(log[i].pdu) + padding) == Ok(Codec.Received(log[i].pdu))
  {
    assert Numbered(log[i]);
    hide Codec.Parse, Codec.Encode, Codec.Sendable, Codec.Received;
    Codec.RoundTrip(log[i].pdu, padding);
  }

  /** End-to-end safety of a whole run: the frames accepted so far are in the order of their
      transmission, and the octets of the next delivered frame, padded or not, a first copy
      or a repeated one, decode to a PDU that is accepted if and only if its frame is later
      than all of them; no replay passes as a restart. */
  lemma Safety(c: P.Config, initial: seq<Data.DataValue>, now: UtcTime.Time,
               q: UtcTime.TimeQuality, run: seq<Event>, i: nat, padding: bytes)
    requires ValidRun(Start(c, initial, now, q), run)
    requires var s := Execute(Start(c, initial, now, q), run);
             Deliverable(s.sender.log, s.receiver, i)
    ensures var s := Execute(Start(c, initial, now, q), run);
      && (forall k, l | 0 <= k < l < |s.receiver.accepted| ::
            s.receiver.accepted[k] < s.receiver.accepted[l])
      && exists p ::
           && Codec.Parse(Codec.Encode(s.sender.log[i].pdu) + padding) == Ok(p)
           && (S.Accepts(s.receiver.stream, p) <==> s.receiver.Before(i))
           && !S.IsRestart(s.receiver.stream, p)
  {
    hide Codec.Parse, Codec.Encode, Codec.Sendable, S.Accepts, S.IsRestart, Codec.Received, Step, Enabled;
    StartInv(c, initial, now, q);
    RunInv(Start(c, initial, now, q), run);
    var s := Execute(Start(c, initial, now, q), run);
    SenderLog(s.sender);
    AcceptsExactlyLater(s.sender.log, s.receiver, i);
    WireDelivers(s.sender.log, i, padding);
  }

  // ------------------------------------------------------- what the frames show

  /** A state asked of the publisher, and the clock when it became the publisher's. */
  datatype Asked = Asked(
    data: seq<Data.DataValue>, test: bool, simulation: bool, at: UtcTime.Time, quality: UtcTime.TimeQuality)

  /** The state in force after an event: the last one asked for; asking for it again changes
      nothing. */
  function InForce(a: Asked, e: Event): Asked {
    if e.Apply? && !(e.data == a.data && e.test == a.test && e.simulation == a.simulation)
    then Asked(e.data, e.test, e.simulation, e.now, e.quality)
    else a
  }

  /** The state in force at each transmission of a run. */
  function AtTransmissions(run: seq<Event>, a: Asked): seq<Asked> {
    if run == [] then []
    else (if run[0].Transmit? then [a] else []) + AtTransmissions(run[1..], InForce(a, run[0]))
  }

  predicate Holds(p: P.State, a: Asked) {
    && p.logical == a.data && p.test == a.test && p.simulation == a.simulation
    && p.stateChanged == a.at && p.timeQuality == a.quality && p.data == P.ResolveTimes(a.data, a.at, a.quality)
  }

  /** The frame is the configured control block's, and shows the state. */
  predicate Shows(p: Codec.Pdu, c: P.Config, a: Asked) {
    && p.dstMac == c.dstMac && p.srcMac == c.srcMac && p.vlan == c.vlan && p.appId == c.appId
    && p.gocbRef == c.gocbRef && p.datSet == c.datSet && p.goId == c.goId && p.confRev == c.confRev
    && p.ndsCom == c.ndsCom && p.timeAllowedToLiveMs == c.maxMs
    && p.test == a.test && p.simulation == a.simulation && p.timestamp == a.at && p.timeQuality == a.quality
    && p.allData == P.ResolveTimes(a.data, a.at, a.quality)
  }

  /** In every run the frames show, one after another, the states in force when they were sent,
      each with the time at which it came into force. */
  lemma {:induction false} FramesShow(s: System, run: seq<Event>, a: Asked)
    requires ValidRun(s, run) && Holds(s.sender.publisher, a)
    ensures var log, shown := Execute(s, run).sender.log, AtTransmissions(run, a);
      && |log| == |s.sender.log| + |shown| && log[..|s.sender.log|] == s.sender.log
      && forall i | |s.sender.log| <= i < |log| :: Shows(log[i].pdu, s.config, shown[i - |s.sender.log|])
    decreases |run|
  {
    hide Step, Enabled, Shows, Holds, InForce;
    if run != [] {
      OneEvent(s, run[0], a);
      FramesShow(Step(s, run[0]), run[1..], InForce(a, run[0]));
    }
  }

  lemma OneEvent(s: System, e: Event, a: Asked)
    requires Enabled(s, e) && Holds(s.sender.publisher, a)
    ensures var t := Step(s, e);
      && t.config == s.config && Holds(t.sender.publisher, InForce(a, e))
      && (!e.Transmit? ==> t.sender.log == s.sender.log)
      && (e.Transmit? ==>
            && |t.sender.log| == |s.sender.log| + 1 && t.sender.log[..|s.sender.log|] == s.sender.log
            && Shows(t.sender.log[|s.sender.log|].pdu, s.config, a))
  {
    hide P.ResolveTimes, Codec.Sendable, S.Next, S.Accepts, Codec.Received, P.NextSerial;
  }

  lemma StartHolds(c: P.Config, initial: seq<Data.DataValue>, now: UtcTime.Time, q: UtcTime.TimeQuality)
    ensures Holds(Start(c, initial, now, q).sender.publisher, Asked(initial, false, false, now, q))
  {
  }

  // ------------------------------------------------------------ in-order delivery

  function DeliverAll(log: Log, r: Receiver, from: nat, count: nat): Receiver
    requires from + count <= |log|
    decreases count
  {
    if count == 0 then r else DeliverAll(log, Delivered(log, r, from, 0), from + 1, count - 1)
  }

  function Consecutive(from: nat, count: nat): seq<nat> { seq(count, k => from + k) }

  /** A network that delivers in order loses nothing, across every wrap of stNum and sqNum. */
  lemma {:induction false} InOrderAllAccepted(log: Log, r: Receiver, from: nat, count: nat)
    requires LogInv(log) && ReceiverInv(log, r) && from + count <= |log| && r.Before(from)
    requires count > 0 ==> Deliverable(log, r, from)
    requires forall i | from < i < from + count :: Near(log[i - 1], log[i])
    ensures DeliverAll(log, r, from, count).accepted == r.accepted + Consecutive(from, count)
    decreases count
  {
    hide LogInv, ReceiverInv, Delivered, Near;
    if count > 0 {
      DeliveredInv(log, r, from, 0);
      var t := Delivered(log, r, from, 0);
      assert t.accepted == r.accepted + [from];
      InOrderAllAccepted(log, t, from + 1, count - 1);
      assert r.accepted + [from] + Consecutive(from + 1, count - 1)
          == r.accepted + Consecutive(from, count);
    } else {
      assert r.accepted + Consecutive(from, 0) == r.accepted;
    }
  }
}
