/** SYNC, FOLLOW_UP, DELAY_REQ and DELAY_RESP as the client pairs them: a FOLLOW_UP may
    arrive before its SYNC and is then kept in a bounded buffer. */
module SyncPairing {
  import opened Wrappers
  import opened Bmca
  import opened TsProc
  import PtpClient

  type Verdict = PtpClient.Verdict

  const PENDING_LIMIT: nat := 8
  const SECOND: int := 1_000_000_000

  /** Messages as received. Timestamps of the master, `origin` and `received`, count in the PTP
      timescale. `exchange` numbers the SYNCs of a master, `request` the DELAY_REQs of the
      client; the wire carries only their low sixteen bits, as `sequence`, and the client
      sees no more of them. */
  datatype SyncMessage =
    SyncMessage(source: PortIdentity, sequence: nat, exchange: nat, correction: int, twoStep: bool, origin: Option<int>)

  datatype FollowUp = FollowUp(source: PortIdentity, sequence: nat, exchange: nat, correction: int, origin: int)

  datatype DelayAnswer =
    DelayAnswer(source: PortIdentity, sequence: nat, request: nat, correction: int, received: int)

  type Pending = seq<FollowUp>

  predicate Keyed(f: FollowUp, source: PortIdentity, sequence: nat) {
    f.source == source && f.sequence == sequence
  }

  predicate Holds(p: Pending, source: PortIdentity, sequence: nat) {
    exists i | 0 <= i < |p| :: Keyed(p[i], source, sequence)
  }

  /** Position of the first entry under a key, or the length. */
  function Find(p: Pending, source: PortIdentity, sequence: nat): (k: nat)
    ensures k <= |p|
    ensures k < |p| ==> Keyed(p[k], source, sequence)
    ensures forall i | 0 <= i < k :: !Keyed(p[i], source, sequence)
  {
    if p == [] || Keyed(p[0], source, sequence) then 0 else 1 + Find(p[1..], source, sequence)
  }

  /** A new message replaces the one under its key; into a full buffer it comes at the cost of
      the oldest. */
  function Store(p: Pending, f: FollowUp): Pending {
    var k := Find(p, f.source, f.sequence);
    if k < |p| then p[k := f] else if |p| == PENDING_LIMIT then p[1..] + [f] else p + [f]
  }

  function Take(p: Pending, source: PortIdentity, sequence: nat): (Pending, Option<FollowUp>) {
    var k := Find(p, source, sequence);
    if k < |p| then (p[..k] + p[k + 1..], Some(p[k])) else (p, None)
  }

  predicate Distinct(p: Pending) {
    forall i, j | 0 <= i < j < |p| :: !Keyed(p[i], p[j].source, p[j].sequence)
  }

  predicate Bounded(p: Pending) { |p| <= PENDING_LIMIT && Distinct(p) }

  /** The message kept under a key. */
  function Lookup(p: Pending, source: PortIdentity, sequence: nat): Option<FollowUp> {
    var k := Find(p, source, sequence);
    if k < |p| then Some(p[k]) else None
  }

  lemma FindIs(p: Pending, source: PortIdentity, sequence: nat, k: nat)
    requires k <= |p| && (k < |p| ==> Keyed(p[k], source, sequence))
    requires forall i | 0 <= i < k :: !Keyed(p[i], source, sequence)
    ensures Find(p, source, sequence) == k
  {
    hide Keyed;
  }

  /** The buffer is a bounded map: after storing, the message is under its key, every other
      key keeps what it had, except that a full buffer forgets its oldest message. */
  lemma StoreLookup(p: Pending, f: FollowUp, source: PortIdentity, sequence: nat)
    requires Bounded(p)
    ensures Bounded(Store(p, f))
    ensures Lookup(Store(p, f), source, sequence) ==
      if Keyed(f, source, sequence) then Some(f)
      else if |p| == PENDING_LIMIT && !Holds(p, f.source, f.sequence) && Keyed(p[0], source, sequence) then None
      else Lookup(p, source, sequence)
  {
    hide Find;
    var q := Store(p, f);
    var k, l := Find(p, f.source, f.sequence), Find(p, source, sequence);
    if Keyed(f, source, sequence) {
      if k < |p| { FindIs(q, source, sequence, k); } else { FindIs(q, source, sequence, |q| - 1); }
    } else if k < |p| {
      FindIs(q, source, sequence, l);
    } else if |p| < PENDING_LIMIT {
      FindIs(q, source, sequence, if l < |p| then l else |q|);
    } else if l == 0 {
      FindIs(q, source, sequence, |q|);
    } else {
      FindIs(q, source, sequence, if l < |p| then l - 1 else |q|);
    }
  }

  /** Taking gives what was kept and removes exactly that key. */
  lemma TakeLookup(p: Pending, source: PortIdentity, sequence: nat, other: PortIdentity, number: nat)
    requires Bounded(p)
    ensures var (q, f) := Take(p, source, sequence);
      && Bounded(q)
      && f == Lookup(p, source, sequence)
      && Lookup(q, other, number) == if other == source && number == sequence then None else Lookup(p, other, number)
  {
    hide Find;
    var q := Take(p, source, sequence).0;
    var k, l := Find(p, source, sequence), Find(p, other, number);
    if k < |p| {
      if other == source && number == sequence {
        FindIs(q, other, number, |q|);
      } else {
        FindIs(q, other, number, if l < k then l else l - 1);
      }
    }
  }

  /** Storing a message under a key not in use, then taking it, restores a buffer with room;
      a full one has lost its oldest. */
  lemma StoreTake(p: Pending, f: FollowUp)
    requires Bounded(p) && !Holds(p, f.source, f.sequence)
    ensures Take(Store(p, f), f.source, f.sequence) == (if |p| < PENDING_LIMIT then p else p[1..], Some(f))
    ensures Take(p, f.source, f.sequence) == (p, None)
  {
    hide Find;
    var q := Store(p, f);
    FindIs(p, f.source, f.sequence, |p|);
    FindIs(q, f.source, f.sequence, |q| - 1);
    assert q[..|q| - 1] + q[|q|..] == if |p| < PENDING_LIMIT then p else p[1..];
  }

  // ------------------------------------------------------------ the exchange

  /** A SYNC with the local time of its arrival, and the clock steps done by then. */
  datatype Arrival = Arrival(message: SyncMessage, received: int, steps: nat)

  /** A DELAY_REQ with the local time it left, and the clock steps done by then. */
  datatype Request = Request(number: nat, sent: int, steps: nat)

  /** A DELAY_RESP with the offset between PTP time and UTC it was read with. */
  datatype Reply = Reply(message: DelayAnswer, utcOffset: int)

  /** The last message of each kind that was used. */
  datatype History =
    History(sync: Option<Arrival>, follow: Option<FollowUp>, request: Option<Request>, reply: Option<Reply>)

  /** A measurement given to the servo, and what the client knew at the time. */
  datatype Sample = Sample(
    offset: int, delay: int, master: Option<PortIdentity>, utcOffset: int, peerDelay: int, steps: nat,
    history: History)

  datatype Exchange = Exchange(
    peerToPeer: bool, stamps: Timestamps, master: Option<PortIdentity>, utcOffset: int,
    syncReceived: bool, twoStep: bool, lastSyncSeq: nat, pending: Pending,
    delayReqPending: bool, delayReqSeq: nat, lastDelayReqSeq: nat,
    history: History, requests: nat, steps: nat, samples: seq<Sample>)

  /** Restart is a change or loss of the master the client notices: it starts over. After
      Switch it has another master, or none, and has dropped nothing. */
  datatype Event =
    | Sync(message: SyncMessage, received: int, verdict: Verdict)
    | Follow(followUp: FollowUp, verdict: Verdict)
    | SendDelayReq(sent: Option<int>)
    | DelayResp(answer: DelayAnswer)
    | Restart(master: Option<PortIdentity>, forgetRequest: bool)
    | Switch(master: Option<PortIdentity>)
    | NewUtcOffset(offset: int)

  function ToUtc(ptp: int, utcOffset: int): int { ptp - utcOffset * SECOND }

  /** A clock step makes every timestamp read before it useless. */
  function Disciplined(x: Exchange, verdict: Verdict): Exchange {
    if verdict != PtpClient.Jump(true) then x
    else x.(stamps := Cleared(x.stamps), delayReqPending := false, pending := [], steps := x.steps + 1)
  }

  function Sampled(x: Exchange, offset: int, delay: int): Exchange {
    x.(samples := x.samples
       + [Sample(offset, delay, x.master, x.utcOffset, x.stamps.peerDelay, x.steps, x.history)])
  }

  function Complete(x: Exchange, verdict: Verdict): Exchange {
    match Measure(x.peerToPeer, x.stamps)
    case None => x
    case Some((offset, delay)) => Disciplined(Sampled(x, offset, delay), verdict).(syncReceived := false)
  }

  function WithOrigin(x: Exchange, f: FollowUp): Exchange {
    x.(stamps := x.stamps.(t1 := Some(ToUtc(f.origin, x.utcOffset)), correctionFollowUp := f.correction),
       history := x.history.(follow := Some(f)))
  }

  function CompleteFollowUp(x: Exchange, f: FollowUp, verdict: Verdict): Exchange {
    Complete(WithOrigin(x, f), verdict)
  }

  /** A one-step SYNC is its own FOLLOW_UP. */
  function OwnFollowUp(m: SyncMessage): Option<FollowUp> {
    match m.origin
    case None => None
    case Some(origin) => Some(FollowUp(m.source, m.sequence, m.exchange, 0, origin))
  }

  function SyncArrived(x: Exchange, m: SyncMessage, received: int): Exchange {
    x.(stamps := x.stamps.(t2 := Some(received), correctionSync := m.correction),
       lastSyncSeq := m.sequence, twoStep := m.twoStep,
       history := x.history.(sync := Some(Arrival(m, received, x.steps))))
  }

  function HandleSync(x: Exchange, m: SyncMessage, received: int, verdict: Verdict): Exchange {
    if x.master != Some(m.source) then x
    else
      var y := SyncArrived(x, m, received);
      if !m.twoStep then
        match OwnFollowUp(m)
        case None => y
        case Some(f) => CompleteFollowUp(y, f, verdict)
      else
        var (rest, kept) := Take(y.pending, m.source, m.sequence);
        var z := y.(syncReceived := true, pending := rest);
        match kept
        case None => z
        case Some(f) => CompleteFollowUp(z, f, verdict)
  }

  /** The FOLLOW_UP's number is that of the two-step SYNC waiting for one. */
  predicate Awaited(x: Exchange, sequence: nat) {
    x.syncReceived && x.twoStep && sequence == x.lastSyncSeq
  }

  function HandleFollowUp(x: Exchange, f: FollowUp, verdict: Verdict): Exchange {
    if x.master != Some(f.source) then x
    else if !Awaited(x, f.sequence) then x.(pending := Store(x.pending, f))
    else CompleteFollowUp(x, f, verdict)
  }

  function HandleSendDelayReq(x: Exchange, sent: Option<int>): Exchange {
    if x.peerToPeer || sent.None? then x
    else
      x.(stamps := x.stamps.(t3 := sent, t4 := None), lastDelayReqSeq := x.delayReqSeq,
         delayReqPending := true, delayReqSeq := (x.delayReqSeq + 1) % 0x1_0000, requests := x.requests + 1,
         history := x.history.(request := Some(Request(x.requests, sent.value, x.steps))))
  }

  function HandleDelayResp(x: Exchange, m: DelayAnswer): Exchange {
    if x.master != Some(m.source) || !x.delayReqPending || m.sequence != x.lastDelayReqSeq then x
    else
      x.(stamps := x.stamps.(t4 := Some(ToUtc(m.received, x.utcOffset)), correctionDelayResp := m.correction),
         delayReqPending := false, history := x.history.(reply := Some(Reply(m, x.utcOffset))))
  }

  /** The client starts over, with the same, another or no master. */
  function HandleRestart(x: Exchange, master: Option<PortIdentity>, forgetRequest: bool): Exchange {
    x.(stamps := Cleared(x.stamps), master := master, syncReceived := false, pending := [],
       delayReqPending := x.delayReqPending && !forgetRequest)
  }

  function Step(x: Exchange, e: Event): Exchange {
    match e
    case Sync(m, received, verdict) => HandleSync(x, m, received, verdict)
    case Follow(f, verdict) => HandleFollowUp(x, f, verdict)
    case SendDelayReq(sent) => HandleSendDelayReq(x, sent)
    case DelayResp(answer) => HandleDelayResp(x, answer)
    case Restart(master, forgetRequest) => HandleRestart(x, master, forgetRequest)
    case Switch(master) => x.(master := master)
    case NewUtcOffset(offset) => x.(utcOffset := offset)
  }

  function Start(peerToPeer: bool): Exchange {
    Exchange(peerToPeer, UNSET, None, 0, false, false, 0, [], false, 0, 0, History(None, None, None, None), 0, 0, [])
  }

  function After(x: Exchange, es: seq<Event>): Exchange {
    if es == [] then x else Step(After(x, es[..|es| - 1]), es[|es| - 1])
  }

  function Run(peerToPeer: bool, es: seq<Event>): Exchange { After(Start(peerToPeer), es) }

  // ------------------------------------------------------------- confluence

  /** One two-step SYNC and its FOLLOW_UP, as the two channels may deliver them. */
  predicate Pair(s: Event, f: Event) {
    && s.Sync? && f.Follow?
    && s.message.twoStep
    && s.message.source == f.followUp.source && s.message.sequence == f.followUp.sequence
    && s.verdict == f.verdict
  }

  /** What both orders do, apart from the buffer. */
  function Paired(x: Exchange, s: Event, f: Event): Exchange
    requires Pair(s, f)
  {
    CompleteFollowUp(SyncArrived(x, s.message, s.received).(syncReceived := true), f.followUp, s.verdict)
  }

  lemma SyncFirst(x: Exchange, s: Event, f: Event)
    requires Pair(s, f) && Bounded(x.pending) && x.master == Some(s.message.source)
    requires !Holds(x.pending, s.message.source, s.message.sequence)
    ensures Step(Step(x, s), f) == Paired(x, s, f)
  {
    StoreTake(x.pending, f.followUp);
    hide Store, Take, CompleteFollowUp, Holds, Bounded;
  }

  lemma FollowUpFirst(x: Exchange, s: Event, f: Event)
    requires Pair(s, f) && Bounded(x.pending) && x.master == Some(s.message.source)
    requires !Holds(x.pending, s.message.source, s.message.sequence) && !Awaited(x, s.message.sequence)
    ensures Step(Step(x, f), s) ==
      Paired(x.(pending := if |x.pending| < PENDING_LIMIT then x.pending else x.pending[1..]), s, f)
  {
    StoreTake(x.pending, f.followUp);
    var rest := if |x.pending| < PENDING_LIMIT then x.pending else x.pending[1..];
    SyncTakes(x, Store(x.pending, f.followUp), rest, s, f);
    hide Store, Take, Paired, Holds, Bounded, HandleSync;
  }

  lemma SyncTakes(x: Exchange, pending: Pending, rest: Pending, s: Event, f: Event)
    requires Pair(s, f) && x.master == Some(s.message.source)
    requires Take(pending, s.message.source, s.message.sequence) == (rest, Some(f.followUp))
    ensures HandleSync(x.(pending := pending), s.message, s.received, s.verdict) == Paired(x.(pending := rest), s, f)
  {
    hide Take, CompleteFollowUp;
  }

  /** The buffer plays no part in completing, except that a clock step empties it. */
  lemma BufferIrrelevant(x: Exchange, s: Event, f: Event, pending: Pending)
    requires Pair(s, f)
    ensures var y := Paired(x, s, f);
      Paired(x.(pending := pending), s, f) == y.(pending := if y.steps > x.steps then [] else pending)
    ensures var y := Paired(x, s, f); y.pending == if y.steps > x.steps then [] else x.pending
  {
    hide Measure;
  }

  /** A FOLLOW_UP that overtakes its SYNC changes nothing: timestamps, corrections, what the
      servo is given and every flag end up the same. The buffer does too, exactly if there was
      room in it or the clock is stepped. */
  lemma Confluence(x: Exchange, s: Event, f: Event)
    requires Pair(s, f) && Bounded(x.pending) && x.master == Some(s.message.source)
    requires !Holds(x.pending, s.message.source, s.message.sequence) && !Awaited(x, s.message.sequence)
    ensures var inOrder, overtaken := Step(Step(x, s), f), Step(Step(x, f), s);
      && overtaken == inOrder.(pending := overtaken.pending)
      && (overtaken == inOrder <==> |x.pending| < PENDING_LIMIT || inOrder.steps > x.steps)
  {
    SyncFirst(x, s, f);
    FollowUpFirst(x, s, f);
    BufferIrrelevant(x, s, f, if |x.pending| < PENDING_LIMIT then x.pending else x.pending[1..]);
    hide Step, Paired, Holds, Awaited;
  }

  /** The same timestamps, measurements, buffer and outstanding request. */
  predicate Alike(x: Exchange, y: Exchange) {
    && x.stamps == y.stamps && x.peerToPeer == y.peerToPeer && x.utcOffset == y.utcOffset
    && x.pending == y.pending && x.steps == y.steps && x.delayReqPending == y.delayReqPending
    && |x.samples| == |y.samples|
    && forall i | 0 <= i < |x.samples| ::
         x.samples[i].offset == y.samples[i].offset && x.samples[i].delay == y.samples[i].delay
  }

  lemma CompletesAlike(x: Exchange, y: Exchange, f: FollowUp, verdict: Verdict)
    requires Alike(x, y)
    ensures Alike(CompleteFollowUp(x, f, verdict), CompleteFollowUp(y, f, verdict))
  {
    var a, b := WithOrigin(x, f), WithOrigin(y, f);
    assert Alike(a, b);
    hide Measure, Alike, Sampled, Disciplined;
    AlikeStamps(a, b);
    match Measure(a.peerToPeer, a.stamps)
    case None =>
    case Some((offset, delay)) =>
      SampledAlike(a, b, offset, delay);
      DisciplinedAlike(Sampled(a, offset, delay), Sampled(b, offset, delay), verdict);
  }

  lemma AlikeStamps(x: Exchange, y: Exchange)
    requires Alike(x, y)
    ensures x.peerToPeer == y.peerToPeer && x.stamps == y.stamps
  {
  }

  lemma SampledAlike(x: Exchange, y: Exchange, offset: int, delay: int)
    requires Alike(x, y)
    ensures Alike(Sampled(x, offset, delay), Sampled(y, offset, delay))
  {
  }

  lemma DisciplinedAlike(x: Exchange, y: Exchange, verdict: Verdict)
    requires Alike(x, y)
    ensures Alike(Disciplined(x, verdict).(syncReceived := false), Disciplined(y, verdict).(syncReceived := false))
  {
  }

  /** A one-step SYNC does what a two-step one does together with a FOLLOW_UP that brings its
      origin and no correction. */
  lemma OneStepIsBoth(x: Exchange, m: SyncMessage, received: int, verdict: Verdict, origin: int)
    requires Bounded(x.pending) && x.master == Some(m.source) && !Holds(x.pending, m.source, m.sequence)
    requires !m.twoStep && m.origin == Some(origin)
    ensures var f := FollowUp(m.source, m.sequence, m.exchange, 0, origin);
      var both := Step(Step(x, Sync(m.(twoStep := true), received, verdict)), Follow(f, verdict));
      Alike(Step(x, Sync(m, received, verdict)), both)
  {
    var f := FollowUp(m.source, m.sequence, m.exchange, 0, origin);
    SyncFirst(x, Sync(m.(twoStep := true), received, verdict), Follow(f, verdict));
    CompletesAlike(SyncArrived(x, m, received),
                   SyncArrived(x, m.(twoStep := true), received).(syncReceived := true), f, verdict);
    OneStepSteps(x, m, received, verdict, f);
    hide Step, CompleteFollowUp, Holds, Bounded;
  }

  lemma OneStepSteps(x: Exchange, m: SyncMessage, received: int, verdict: Verdict, f: FollowUp)
    requires x.master == Some(m.source) && !m.twoStep && OwnFollowUp(m) == Some(f)
    ensures Step(x, Sync(m, received, verdict)) == CompleteFollowUp(SyncArrived(x, m, received), f, verdict)
  {
    hide CompleteFollowUp, SyncArrived, Take;
  }

  // -------------------------------------------------------- after a clock step

  /** After a clock step nothing measured before it can still be used: the next end-to-end
      offset takes a new SYNC and a new delay measurement. */
  lemma {:induction false} FreshAfterJump(x: Exchange, es: seq<Event>)
    requires !x.peerToPeer && x.stamps == Cleared(x.stamps) && !x.delayReqPending
    requires forall i | 0 <= i < |es| :: !es[i].SendDelayReq?
    ensures After(x, es).samples == x.samples
    ensures After(x, es).stamps.t3.None? && After(x, es).stamps.t4.None? && !After(x, es).delayReqPending
    ensures !After(x, es).peerToPeer
  {
    if es != [] {
      FreshAfterJump(x, es[..|es| - 1]);
      NoDelayNoSample(After(x, es[..|es| - 1]), es[|es| - 1]);
      hide Step;
    }
  }

  lemma NoDelayNoSample(x: Exchange, e: Event)
    requires !x.peerToPeer && x.stamps.t3.None? && x.stamps.t4.None? && !x.delayReqPending && !e.SendDelayReq?
    ensures var y := Step(x, e);
      y.samples == x.samples && y.stamps.t3.None? && y.stamps.t4.None? && !y.delayReqPending && !y.peerToPeer
  {
    hide Store, Take, Awaited, ToUtc;
  }

  /** A step the clock performs leaves exactly the state FreshAfterJump starts from. */
  lemma JumpClears(x: Exchange, verdict: Verdict)
    ensures var y := Complete(x, verdict);
      y.steps > x.steps <==> Measure(x.peerToPeer, x.stamps).Some? && verdict == PtpClient.Jump(true)
    ensures var y := Complete(x, verdict);
      y.steps > x.steps ==>
        (y.stamps == Cleared(y.stamps) && y.stamps.peerDelay == x.stamps.peerDelay && !y.delayReqPending
         && y.pending == [])
  {
    hide Measure;
  }

  // ------------------------------------------------- the state as it is kept

  class Client {
    const peerToPeer: bool
    const tsproc: Processor
    var master: Option<PortIdentity>
    var utcOffset: int
    var syncReceived: bool
    var twoStep: bool
    var lastSyncSeq: nat
    var pendingFollowUps: seq<FollowUp>
    var delayReqPending: bool
    var delayReqSeq: nat
    var lastDelayReqSeq: nat
    ghost var history: History
    ghost var requests: nat
    ghost var steps: nat
    ghost var samples: seq<Sample>

    ghost function Value(): Exchange
      reads this, tsproc
    {
      Exchange(peerToPeer, tsproc.Value(), master, utcOffset, syncReceived, twoStep, lastSyncSeq, pendingFollowUps,
               delayReqPending, delayReqSeq, lastDelayReqSeq, history, requests, steps, samples)
    }

    constructor (peerToPeer: bool)
      ensures Value() == Start(peerToPeer) && fresh(tsproc)
    {
      this.peerToPeer := peerToPeer;
      tsproc := new Processor();
      master, utcOffset, syncReceived, twoStep, lastSyncSeq := None, 0, false, false, 0;
      pendingFollowUps, delayReqPending, delayReqSeq, lastDelayReqSeq := [], false, 0, 0;
      history, requests, steps, samples := History(None, None, None, None), 0, 0, [];
    }

    method StorePending(f: FollowUp)
      modifies this`pendingFollowUps
      ensures pendingFollowUps == Store(old(pendingFollowUps), f)
    {
      for i := 0 to |pendingFollowUps|
        invariant pendingFollowUps == old(pendingFollowUps)
        invariant forall j | 0 <= j < i :: !Keyed(pendingFollowUps[j], f.source, f.sequence)
      {
        if pendingFollowUps[i].source == f.source && pendingFollowUps[i].sequence == f.sequence {
          FindIs(pendingFollowUps, f.source, f.sequence, i);
          pendingFollowUps := pendingFollowUps[i := f];
          return;
        }
      }
      FindIs(pendingFollowUps, f.source, f.sequence, |pendingFollowUps|);
      if |pendingFollowUps| == PENDING_LIMIT {
        pendingFollowUps := pendingFollowUps[1..] + [f];
        return;
      }
      pendingFollowUps := pendingFollowUps + [f];
    }

    method TakePending(source: PortIdentity, sequence: nat) returns (kept: Option<FollowUp>)
      modifies this`pendingFollowUps
      ensures (pendingFollowUps, kept) == Take(old(pendingFollowUps), source, sequence)
    {
      for i := 0 to |pendingFollowUps|
        invariant pendingFollowUps == old(pendingFollowUps)
        invariant forall j | 0 <= j < i :: !Keyed(pendingFollowUps[j], source, sequence)
      {
        if pendingFollowUps[i].source != source || pendingFollowUps[i].sequence != sequence { continue; }
        FindIs(pendingFollowUps, source, sequence, i);
        kept := Some(pendingFollowUps[i]);
        pendingFollowUps := pendingFollowUps[..i] + pendingFollowUps[i + 1..];
        return;
      }
      FindIs(pendingFollowUps, source, sequence, |pendingFollowUps|);
      kept := None;
    }

    method DisciplineClock(verdict: Verdict)
      modifies this, tsproc
      ensures Value() == Disciplined(old(Value()), verdict)
    {
      hide Cleared;
      if verdict == PtpClient.Jump(true) {
        tsproc.Reset();
        delayReqPending := false;
        pendingFollowUps := [];
        steps := steps + 1;
      }
    }

    method ProcessSyncComplete(verdict: Verdict)
      modifies this, tsproc
      ensures Value() == Complete(old(Value()), verdict)
    {
      hide Measure, Disciplined;
      var measured := tsproc.OffsetAndDelay(peerToPeer);
      if measured.None? { return; }
      var (offset, delay) := measured.value;
      samples := samples + [Sample(offset, delay, master, utcOffset, tsproc.peerDelay, steps, history)];
      DisciplineClock(verdict);
      syncReceived := false;
    }

    method CompleteWith(f: FollowUp, verdict: Verdict)
      modifies this, tsproc
      ensures Value() == CompleteFollowUp(old(Value()), f, verdict)
    {
      hide Complete;
      tsproc.SetOrigin(f.origin - utcOffset * SECOND, f.correction);
      history := history.(follow := Some(f));
      ProcessSyncComplete(verdict);
    }

    method EnterSync(m: SyncMessage, received: int)
      modifies this, tsproc
      ensures Value() == SyncArrived(old(Value()), m, received)
    {
      tsproc.SetSync(received, m.correction);
      lastSyncSeq, twoStep := m.sequence, m.twoStep;
      history := history.(sync := Some(Arrival(m, received, steps)));
    }

    /** The timestamp is the local clock's, read when the SYNC arrived. */
    method ReceiveSync(m: SyncMessage, received: int, verdict: Verdict)
      modifies this, tsproc
      ensures Value() == HandleSync(old(Value()), m, received, verdict)
    {
      hide CompleteFollowUp, SyncArrived, Take;
      if master != Some(m.source) { return; }
      EnterSync(m, received);
      if !m.twoStep {
        if m.origin.None? { return; }
        CompleteWith(FollowUp(m.source, m.sequence, m.exchange, 0, m.origin.value), verdict);
        return;
      }
      syncReceived := true;
      var kept := TakePending(m.source, m.sequence);
      if kept.Some? { CompleteWith(kept.value, verdict); }
    }

    method ReceiveFollowUp(f: FollowUp, verdict: Verdict)
      modifies this, tsproc
      ensures Value() == HandleFollowUp(old(Value()), f, verdict)
    {
      hide CompleteFollowUp, Store;
      if master != Some(f.source) { return; }
      if !syncReceived || !twoStep || f.sequence != lastSyncSeq {
        StorePending(f);
        return;
      }
      CompleteWith(f, verdict);
    }

    method SendRequest(sent: Option<int>)
      modifies this, tsproc
      ensures Value() == HandleSendDelayReq(old(Value()), sent)
    {
      if peerToPeer || sent.None? { return; }
      tsproc.SetDelayReq(sent.value);
      lastDelayReqSeq, delayReqPending := delayReqSeq, true;
      delayReqSeq := (delayReqSeq + 1) % 0x1_0000;
      history := history.(request := Some(Request(requests, sent.value, steps)));
      requests := requests + 1;
    }

    method ReceiveDelayResp(m: DelayAnswer)
      modifies this, tsproc
      ensures Value() == HandleDelayResp(old(Value()), m)
    {
      if master != Some(m.source) || !delayReqPending || m.sequence != lastDelayReqSeq { return; }
      tsproc.SetDelayResp(m.received - utcOffset * SECOND, m.correction);
      delayReqPending := false;
      history := history.(reply := Some(Reply(m, utcOffset)));
    }
  }
}
