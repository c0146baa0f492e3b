/** Which messages the offsets of a whole run are computed from: what the pairing by sixteen-bit
    sequence numbers guarantees, and exactly when an offset mixes two exchanges. */
module PairingRuns {
  import opened Arithmetic
  import opened Wrappers
  import opened Bmca
  import opened TsProc
  import opened SyncPairing
  import PtpClient

  const WRAP: nat := 0x1_0000

  /** The wire carries the low sixteen bits of a message's number. */
  predicate Numbered(e: Event) {
    match e
    case Sync(m, _, _) => m.sequence == m.exchange % WRAP
    case Follow(f, _) => f.sequence == f.exchange % WRAP
    case DelayResp(m) => m.sequence == m.request % WRAP
    case _ => true
  }

  predicate AllNumbered(es: seq<Event>) { forall i | 0 <= i < |es| :: Numbered(es[i]) }

  /** So many messages apart that the sequence numbers have wrapped. */
  predicate Far(a: nat, b: nat) { a + WRAP <= b || b + WRAP <= a }

  lemma CongruentFar(a: nat, b: nat)
    requires a % WRAP == b % WRAP
    ensures a == b <==> !Far(a, b)
  {
  }

  // ----------------------------------------------------- what a sample is made of

  predicate Made(peerToPeer: bool, h: History) {
    h.sync.Some? && h.follow.Some? && (peerToPeer || (h.request.Some? && h.reply.Some?))
  }

  /** The timestamps that stand in a sample's messages. */
  function StampsOf(peerToPeer: bool, s: Sample): Timestamps
    requires Made(peerToPeer, s.history)
  {
    var sync, follow := s.history.sync.value, s.history.follow.value;
    var ts := UNSET.(
      t1 := Some(ToUtc(follow.origin, s.utcOffset)), t2 := Some(sync.received), peerDelay := s.peerDelay,
      correctionSync := sync.message.correction, correctionFollowUp := follow.correction);
    if peerToPeer then ts
    else
      var request, reply := s.history.request.value, s.history.reply.value;
      ts.(t3 := Some(request.sent), t4 := Some(ToUtc(reply.message.received, reply.utcOffset)),
          correctionDelayResp := reply.message.correction)
  }

  /** Offset and delay are those of the four messages; FOLLOW_UP and SYNC, and request and
      answer, have the same number on the wire; the local times were read since the last clock
      step. */
  predicate Explained(peerToPeer: bool, s: Sample) {
    && Made(peerToPeer, s.history)
    && Measure(peerToPeer, StampsOf(peerToPeer, s)) == Some((s.offset, s.delay))
    && var sync, follow := s.history.sync.value, s.history.follow.value;
      && s.master == Some(follow.source)
      && sync.message.exchange % WRAP == follow.exchange % WRAP
      && sync.steps == s.steps
      && (!peerToPeer ==>
            var request, reply := s.history.request.value, s.history.reply.value;
            request.number % WRAP == reply.message.request % WRAP && request.steps == s.steps)
  }

  /** The messages belong together: one SYNC and its FOLLOW_UP, one request and its answer, all
      of one master and read with one offset from UTC. */
  predicate Belongs(peerToPeer: bool, s: Sample)
    requires Made(peerToPeer, s.history)
  {
    var sync, follow := s.history.sync.value, s.history.follow.value;
    && sync.message.source == follow.source
    && sync.message.exchange == follow.exchange
    && (peerToPeer
        || var request, reply := s.history.request.value, s.history.reply.value;
           && reply.message.source == follow.source
           && reply.message.request == request.number
           && reply.utcOffset == s.utcOffset)
  }

  // ---------------------------------------------------------------- the invariant

  predicate SyncKept(x: Exchange) {
    && (x.stamps.t2.Some? ==>
          && x.history.sync.Some?
          && var sync := x.history.sync.value;
            && x.stamps.t2 == Some(sync.received) && x.stamps.correctionSync == sync.message.correction
            && sync.steps == x.steps && sync.message.sequence == sync.message.exchange % WRAP
            && x.lastSyncSeq == sync.message.sequence)
    && (x.syncReceived ==> x.stamps.t2.Some?)
  }

  predicate RequestKept(x: Exchange) {
    && x.delayReqSeq == x.requests % WRAP
    && (x.delayReqPending ==> 0 < x.requests && x.lastDelayReqSeq == (x.requests - 1) % WRAP)
    && (x.stamps.t3.Some? ==>
          && x.history.request.Some?
          && var request := x.history.request.value;
            && x.stamps.t3 == Some(request.sent) && request.number + 1 == x.requests && request.steps == x.steps)
    && (x.stamps.t4.Some? ==>
          && x.history.reply.Some?
          && var reply := x.history.reply.value;
            && x.stamps.t4 == Some(ToUtc(reply.message.received, reply.utcOffset))
            && x.stamps.correctionDelayResp == reply.message.correction)
    && (x.stamps.t3.Some? && x.stamps.t4.Some? ==>
          x.history.request.value.number % WRAP == x.history.reply.value.message.request % WRAP)
  }

  predicate PendingNumbered(p: Pending) { forall i | 0 <= i < |p| :: p[i].sequence == p[i].exchange % WRAP }

  predicate AllExplained(peerToPeer: bool, samples: seq<Sample>) {
    forall i | 0 <= i < |samples| :: Explained(peerToPeer, samples[i])
  }

  predicate Inv(x: Exchange) {
    && Bounded(x.pending) && PendingNumbered(x.pending)
    && SyncKept(x) && RequestKept(x)
    && AllExplained(x.peerToPeer, x.samples)
  }

  // ------------------------------------------- when the next offset mixes exchanges

  /** The answer held is not to the request held, or not of this master, or was read with
      another offset from UTC. */
  predicate DelayMixed(x: Exchange, source: PortIdentity) {
    && !x.peerToPeer
    && x.history.request.Some? && x.history.reply.Some?
    && var request, reply := x.history.request.value, x.history.reply.value;
      || Far(request.number, reply.message.request)
      || reply.message.source != source
      || reply.utcOffset != x.utcOffset
  }

  /** The FOLLOW_UP kept under a SYNC's number is that of a SYNC long past or long to come. */
  predicate KeptFar(p: Pending, m: SyncMessage) {
    var kept := Lookup(p, m.source, m.sequence);
    kept.Some? && Far(kept.value.exchange, m.exchange)
  }

  /** The SYNC waiting for a FOLLOW_UP is of another master, or long past. */
  predicate SyncMixed(x: Exchange, f: FollowUp) {
    && x.history.sync.Some?
    && var sync := x.history.sync.value.message;
      sync.source != f.source || Far(sync.exchange, f.exchange)
  }

  predicate Mixes(x: Exchange, e: Event) {
    match e
    case Sync(m, _, _) => (m.twoStep && KeptFar(x.pending, m)) || DelayMixed(x, m.source)
    case Follow(f, _) => SyncMixed(x, f) || DelayMixed(x, f.source)
    case _ => false
  }

  /** What a step may add to the samples, and when it is a mixture. */
  predicate AddsExactly(x: Exchange, y: Exchange, mixes: bool) {
    || y.samples == x.samples
    || (&& y.samples != []
        && var s := y.samples[|y.samples| - 1];
           && y.samples == x.samples + [s]
           && Explained(x.peerToPeer, s)
           && (Belongs(x.peerToPeer, s) <==> !mixes))
  }

  lemma MeasureNeeds(peerToPeer: bool, ts: Timestamps)
    ensures Measure(peerToPeer, ts).Some? <==> CompleteP2P(ts) && (peerToPeer || CompleteE2E(ts))
    ensures peerToPeer ==> Measure(true, ts) == Measure(true, ts.(t3 := None, t4 := None, correctionDelayResp := 0))
  {
  }

  /** Completing a SYNC with a FOLLOW_UP of its number. */
  lemma CompleteExactly(x: Exchange, f: FollowUp, verdict: Verdict)
    requires SyncKept(x) && RequestKept(x) && x.stamps.t2.Some?
    requires x.master == Some(f.source) && f.sequence == f.exchange % WRAP == x.lastSyncSeq
    ensures AddsExactly(x, CompleteFollowUp(x, f, verdict), SyncMixed(x, f) || DelayMixed(x, f.source))
  {
    var y := WithOrigin(x, f);
    MeasureNeeds(x.peerToPeer, y.stamps);
    hide Measure;
    if Measure(y.peerToPeer, y.stamps).Some? {
      var (offset, delay) := Measure(y.peerToPeer, y.stamps).value;
      var s := Sample(offset, delay, y.master, y.utcOffset, y.stamps.peerDelay, y.steps, y.history);
      assert StampsOf(x.peerToPeer, s) ==
        if x.peerToPeer then y.stamps.(t3 := None, t4 := None, correctionDelayResp := 0) else y.stamps;
      CongruentFar(x.history.sync.value.message.exchange, f.exchange);
      if !x.peerToPeer {
        CongruentFar(x.history.request.value.number, x.history.reply.value.message.request);
      }
      hide StampsOf, Far;
      assert Explained(x.peerToPeer, s);
      assert CompleteFollowUp(x, f, verdict).samples == x.samples + [s];
    }
  }

  lemma CompleteKeeps(x: Exchange, f: FollowUp, verdict: Verdict)
    requires SyncKept(x) && RequestKept(x)
    ensures var y := CompleteFollowUp(x, f, verdict);
      SyncKept(y) && RequestKept(y) && y.peerToPeer == x.peerToPeer && y.pending in {x.pending, []}
  {
    hide Measure;
    var y := WithOrigin(x, f);
    DisciplinedKeeps(y, verdict);
    var measured := Measure(y.peerToPeer, y.stamps);
    if measured.Some? { DisciplinedKeeps(Sampled(y, measured.value.0, measured.value.1), verdict); }
    hide Disciplined;
  }

  lemma DisciplinedKeeps(x: Exchange, verdict: Verdict)
    requires SyncKept(x) && RequestKept(x)
    ensures var y := Disciplined(x, verdict).(syncReceived := false);
      SyncKept(y) && RequestKept(y) && y.peerToPeer == x.peerToPeer && y.pending in {x.pending, []}
  {
  }

  lemma CompleteInv(x: Exchange, f: FollowUp, verdict: Verdict)
    requires Inv(x)
    requires AddsExactly(x, CompleteFollowUp(x, f, verdict), SyncMixed(x, f) || DelayMixed(x, f.source))
    ensures Inv(CompleteFollowUp(x, f, verdict))
  {
    EmptyPending();
    CompleteKeeps(x, f, verdict);
    hide CompleteFollowUp, Explained, Belongs, Bounded, PendingNumbered, SyncMixed, DelayMixed, SyncKept, RequestKept;
  }

  lemma EmptyPending()
    ensures Bounded([]) && PendingNumbered([])
  {
  }

  /** Every offset is that of the messages recorded with it, and they belong together exactly
      if, before the step, the client holds no message from beyond a wrap of the sequence
      numbers, of another master or read with another offset from UTC. */
  lemma SampleExactly(x: Exchange, e: Event)
    requires Inv(x) && Numbered(e)
    ensures AddsExactly(x, Step(x, e), Mixes(x, e))
    ensures Inv(Step(x, e))
  {
    EmptyPending();
    match e
    case Sync(m, received, verdict) => SyncExactly(x, m, received, verdict);
    case Follow(f, verdict) => FollowExactly(x, f, verdict);
    case SendDelayReq(_) => NextNumber(x.requests);
    case _ =>
    hide HandleSync, HandleFollowUp, Bounded, PendingNumbered, AllExplained, Explained, Belongs, Mixes;
  }

  lemma NextNumber(n: nat)
    ensures (n % WRAP + 1) % WRAP == (n + 1) % WRAP
  {
  }

  lemma FollowExactly(x: Exchange, f: FollowUp, verdict: Verdict)
    requires Inv(x) && f.sequence == f.exchange % WRAP
    ensures AddsExactly(x, HandleFollowUp(x, f, verdict), SyncMixed(x, f) || DelayMixed(x, f.source))
    ensures Inv(HandleFollowUp(x, f, verdict))
  {
    StoreLookup(x.pending, f, f.source, f.sequence);
    StoreNumbered(x.pending, f);
    if x.master == Some(f.source) && Awaited(x, f.sequence) {
      CompleteExactly(x, f, verdict);
      CompleteInv(x, f, verdict);
    }
    hide CompleteFollowUp, Store, Bounded, PendingNumbered, AllExplained, SyncMixed, DelayMixed, Explained, Belongs;
  }

  lemma StoreNumbered(p: Pending, f: FollowUp)
    requires PendingNumbered(p) && f.sequence == f.exchange % WRAP
    ensures PendingNumbered(Store(p, f))
  {
    hide Find;
  }

  lemma TakeNumbered(p: Pending, source: PortIdentity, sequence: nat)
    requires PendingNumbered(p)
    ensures PendingNumbered(Take(p, source, sequence).0)
    ensures var f := Take(p, source, sequence).1;
      f.Some? ==> f.value.source == source && f.value.sequence == sequence == f.value.exchange % WRAP
  {
    hide Find;
  }

  /** The state in which a SYNC looks for its FOLLOW_UP. */
  predicate Arrived(x: Exchange, z: Exchange, m: SyncMessage) {
    && Inv(z)
    && z.samples == x.samples && z.peerToPeer == x.peerToPeer && z.master == x.master == Some(m.source)
    && z.stamps.t2.Some? && z.lastSyncSeq == m.sequence
    && z.history.sync.Some? && z.history.sync.value.message == m
    && z.history == x.history.(sync := z.history.sync) && z.utcOffset == x.utcOffset
  }

  lemma SyncArrives(x: Exchange, m: SyncMessage, received: int)
    requires Inv(x) && m.sequence == m.exchange % WRAP && x.master == Some(m.source)
    ensures Arrived(x, SyncArrived(x, m, received), m)
  {
    hide Bounded, PendingNumbered, AllExplained;
  }

  lemma SyncWaits(x: Exchange, y: Exchange, m: SyncMessage)
    requires Arrived(x, y, m)
    ensures Arrived(x, y.(syncReceived := true, pending := Take(y.pending, m.source, m.sequence).0), m)
  {
    TakeLookup(y.pending, m.source, m.sequence, m.source, m.sequence);
    TakeNumbered(y.pending, m.source, m.sequence);
    hide Bounded, PendingNumbered, AllExplained, Take;
  }

  lemma Use(x: Exchange, z: Exchange, m: SyncMessage, f: FollowUp, verdict: Verdict)
    requires Arrived(x, z, m)
    requires f.source == m.source && f.sequence == m.sequence == f.exchange % WRAP
    ensures AddsExactly(x, CompleteFollowUp(z, f, verdict), Far(f.exchange, m.exchange) || DelayMixed(x, m.source))
    ensures Inv(CompleteFollowUp(z, f, verdict))
  {
    CompleteExactly(z, f, verdict);
    CompleteInv(z, f, verdict);
    hide CompleteFollowUp, Bounded, PendingNumbered, AllExplained, Explained, Belongs, SyncKept, RequestKept;
  }

  lemma SyncExactly(x: Exchange, m: SyncMessage, received: int, verdict: Verdict)
    requires Inv(x) && m.sequence == m.exchange % WRAP
    ensures AddsExactly(x, HandleSync(x, m, received, verdict),
                        (m.twoStep && KeptFar(x.pending, m)) || DelayMixed(x, m.source))
    ensures Inv(HandleSync(x, m, received, verdict))
  {
    if x.master == Some(m.source) {
      var y := SyncArrived(x, m, received);
      SyncArrives(x, m, received);
      if !m.twoStep {
        var own := OwnFollowUp(m);
        if own.Some? { Use(x, y, m, own.value, verdict); }
      } else {
        var (rest, kept) := Take(y.pending, m.source, m.sequence);
        TakeNumbered(y.pending, m.source, m.sequence);
        assert PendingNumbered(y.pending);
        SyncWaits(x, y, m);
        if kept.Some? { Use(x, y.(syncReceived := true, pending := rest), m, kept.value, verdict); }
      }
    }
    hide CompleteFollowUp, Bounded, PendingNumbered, AllExplained, Explained, Belongs, SyncKept, RequestKept,
      DelayMixed, Find;
  }

  // ------------------------------------------------------------------- runs

  /** In every run the buffer keeps at most eight messages under different keys, and every
      offset is computed from one SYNC, FOLLOW_UP, DELAY_REQ and DELAY_RESP whose numbers agree
      on the wire, with local times read since the last clock step. */
  lemma {:induction false} RunInv(peerToPeer: bool, es: seq<Event>)
    requires AllNumbered(es)
    ensures Inv(Run(peerToPeer, es)) && Run(peerToPeer, es).peerToPeer == peerToPeer
  {
    hide Inv, Step, Numbered;
    if es == [] {
      StartInv(peerToPeer);
    } else {
      RunInv(peerToPeer, es[..|es| - 1]);
      SampleExactly(Run(peerToPeer, es[..|es| - 1]), es[|es| - 1]);
      StepKeepsMechanism(Run(peerToPeer, es[..|es| - 1]), es[|es| - 1]);
    }
  }

  lemma StartInv(peerToPeer: bool)
    ensures Inv(Start(peerToPeer))
  {
  }

  lemma StepKeepsMechanism(x: Exchange, e: Event)
    ensures Step(x, e).peerToPeer == x.peerToPeer
  {
    match e
    case Sync(m, received, verdict) => SyncKeepsMechanism(x, m, received, verdict);
    case Follow(f, verdict) => CompleteKeepsMechanism(x, f, verdict);
    case _ =>
    hide HandleSync, CompleteFollowUp;
  }

  lemma CompleteKeepsMechanism(x: Exchange, f: FollowUp, verdict: Verdict)
    ensures CompleteFollowUp(x, f, verdict).peerToPeer == x.peerToPeer
  {
    hide Measure;
  }

  lemma SyncKeepsMechanism(x: Exchange, m: SyncMessage, received: int, verdict: Verdict)
    ensures HandleSync(x, m, received, verdict).peerToPeer == x.peerToPeer
  {
    var y := SyncArrived(x, m, received);
    if OwnFollowUp(m).Some? { CompleteKeepsMechanism(y, OwnFollowUp(m).value, verdict); }
    var (rest, kept) := Take(y.pending, m.source, m.sequence);
    if kept.Some? { CompleteKeepsMechanism(y.(syncReceived := true, pending := rest), kept.value, verdict); }
    hide CompleteFollowUp, Take;
  }

  /** All offsets are of messages that belong together. */
  predicate AllBelong(peerToPeer: bool, samples: seq<Sample>)
    requires AllExplained(peerToPeer, samples)
  {
    forall i | 0 <= i < |samples| :: Belongs(peerToPeer, samples[i])
  }

  predicate MixesAt(peerToPeer: bool, es: seq<Event>, k: nat)
    requires k < |es|
  {
    var x := Run(peerToPeer, es[..k]);
    Step(x, es[k]).samples != x.samples && Mixes(x, es[k])
  }

  predicate NeverMixes(peerToPeer: bool, es: seq<Event>) {
    forall k | 0 <= k < |es| :: !MixesAt(peerToPeer, es, k)
  }

  lemma NeverMixesLast(peerToPeer: bool, es: seq<Event>)
    requires es != []
    ensures var x, last := Run(peerToPeer, es[..|es| - 1]), es[|es| - 1];
      NeverMixes(peerToPeer, es) <==>
        NeverMixes(peerToPeer, es[..|es| - 1]) && !(Step(x, last).samples != x.samples && Mixes(x, last))
  {
    hide After, Step, Mixes, MixesAt;
    var init := es[..|es| - 1];
    MixesAtEnd(peerToPeer, es);
    forall k | 0 <= k < |init| ensures MixesAt(peerToPeer, es, k) <==> MixesAt(peerToPeer, init, k) {
      MixesAtPrefix(peerToPeer, es, k);
    }
  }

  /** A run computes an offset from messages that do not belong together exactly if one of its
      steps completes a measurement while the client holds a message that Mixes names. */
  lemma {:induction false} RunExactly(peerToPeer: bool, es: seq<Event>)
    requires AllNumbered(es)
    ensures AllExplained(peerToPeer, Run(peerToPeer, es).samples)
    ensures AllBelong(peerToPeer, Run(peerToPeer, es).samples) <==> NeverMixes(peerToPeer, es)
  {
    hide After, Inv, Step, Mixes, Numbered, AddsExactly, Explained, Belongs, AllExplained, AllBelong, MixesAt,
      NeverMixes;
    if es == [] {
      NoSamples(peerToPeer);
    } else {
      AfterLast(Start(peerToPeer), es);
      var init, last := es[..|es| - 1], es[|es| - 1];
      var x := Run(peerToPeer, init);
      RunExactly(peerToPeer, init);
      RunInv(peerToPeer, init);
      SampleExactly(x, last);
      LastExactly(x, Step(x, last), Mixes(x, last));
      NeverMixesLast(peerToPeer, es);
    }
  }

  lemma AfterLast(x: Exchange, es: seq<Event>)
    requires es != []
    ensures After(x, es) == Step(After(x, es[..|es| - 1]), es[|es| - 1])
  {
  }

  lemma NoSamples(peerToPeer: bool)
    ensures Run(peerToPeer, []).samples == []
    ensures AllExplained(peerToPeer, []) && AllBelong(peerToPeer, []) && NeverMixes(peerToPeer, [])
  {
  }

  lemma MixesAtEnd(peerToPeer: bool, es: seq<Event>)
    requires es != []
    ensures var x := Run(peerToPeer, es[..|es| - 1]);
      MixesAt(peerToPeer, es, |es| - 1) <==>
        Step(x, es[|es| - 1]).samples != x.samples && Mixes(x, es[|es| - 1])
  {
  }

  lemma MixesAtPrefix(peerToPeer: bool, es: seq<Event>, k: nat)
    requires k < |es| - 1
    ensures MixesAt(peerToPeer, es, k) <==> MixesAt(peerToPeer, es[..|es| - 1], k)
  {
    assert es[..k] == es[..|es| - 1][..k];
    hide Step, Mixes, After;
  }

  /** A step that adds no mixture is one after which all samples belong together if they did
      before. */
  lemma LastExactly(x: Exchange, y: Exchange, mixes: bool)
    requires AddsExactly(x, y, mixes) && AllExplained(x.peerToPeer, x.samples)
    ensures AllExplained(x.peerToPeer, y.samples)
    ensures AllBelong(x.peerToPeer, y.samples) <==>
      AllBelong(x.peerToPeer, x.samples) && !(y.samples != x.samples && mixes)
  {
    hide Explained, Belongs;
    if y.samples != x.samples {
      var s := y.samples[|y.samples| - 1];
      assert forall i | 0 <= i < |x.samples| :: y.samples[i] == x.samples[i];
    }
  }

  // --------------------------------------- runs in which no master slips in

  /** The event does not put another master, or another offset from UTC, behind timestamps
      already held. */
  predicate Calm(x: Exchange, e: Event) {
    match e
    case Switch(master) => master == x.master || (x.stamps.t2.None? && x.stamps.t4.None?)
    case NewUtcOffset(offset) => offset == x.utcOffset || x.stamps.t4.None?
    case _ => true
  }

  predicate AllCalm(peerToPeer: bool, es: seq<Event>) {
    forall k | 0 <= k < |es| :: Calm(Run(peerToPeer, es[..k]), es[k])
  }

  /** What is held was heard from the present master. */
  predicate Own(x: Exchange) {
    && (x.stamps.t2.Some? ==>
          x.history.sync.Some? && x.master == Some(x.history.sync.value.message.source))
    && (x.stamps.t4.Some? ==>
          && x.history.reply.Some?
          && x.master == Some(x.history.reply.value.message.source)
          && x.history.reply.value.utcOffset == x.utcOffset)
  }

  predicate OneMaster(peerToPeer: bool, s: Sample)
    requires Made(peerToPeer, s.history)
  {
    && s.history.sync.value.message.source == s.history.follow.value.source
    && (peerToPeer
        || (&& s.history.reply.value.message.source == s.history.follow.value.source
            && s.history.reply.value.utcOffset == s.utcOffset))
  }

  predicate AllOneMaster(peerToPeer: bool, samples: seq<Sample>) {
    forall i | 0 <= i < |samples| :: Made(peerToPeer, samples[i].history) && OneMaster(peerToPeer, samples[i])
  }

  lemma CompleteOwn(x: Exchange, f: FollowUp, verdict: Verdict)
    requires Own(x) && AllOneMaster(x.peerToPeer, x.samples) && x.master == Some(f.source)
    requires x.stamps.t3.Some? ==> x.history.request.Some?
    ensures var y := CompleteFollowUp(x, f, verdict);
      Own(y) && AllOneMaster(x.peerToPeer, y.samples)
  {
    var y := WithOrigin(x, f);
    MeasureNeeds(x.peerToPeer, y.stamps);
    hide Measure;
  }

  lemma SyncOwn(x: Exchange, m: SyncMessage, received: int, verdict: Verdict)
    requires Own(x) && RequestKept(x) && AllOneMaster(x.peerToPeer, x.samples)
    requires PendingNumbered(x.pending)
    ensures var y := HandleSync(x, m, received, verdict); Own(y) && AllOneMaster(x.peerToPeer, y.samples)
  {
    if x.master == Some(m.source) {
      var y := SyncArrived(x, m, received);
      assert Own(y);
      TakeNumbered(y.pending, m.source, m.sequence);
      var (rest, kept) := Take(y.pending, m.source, m.sequence);
      if OwnFollowUp(m).Some? { CompleteOwn(y, OwnFollowUp(m).value, verdict); }
      if kept.Some? { CompleteOwn(y.(syncReceived := true, pending := rest), kept.value, verdict); }
    }
    hide CompleteFollowUp, Take, AllOneMaster, PendingNumbered;
  }

  lemma StepOwn(x: Exchange, e: Event)
    requires Inv(x) && Own(x) && AllOneMaster(x.peerToPeer, x.samples) && Calm(x, e)
    ensures Own(Step(x, e)) && AllOneMaster(x.peerToPeer, Step(x, e).samples)
  {
    match e
    case Sync(m, received, verdict) => SyncOwn(x, m, received, verdict);
    case Follow(f, verdict) => if x.master == Some(f.source) { CompleteOwn(x, f, verdict); }
    case _ =>
    hide HandleSync, CompleteFollowUp, AllOneMaster;
  }

  lemma {:induction false} RunOwn(peerToPeer: bool, es: seq<Event>)
    requires AllNumbered(es) && AllCalm(peerToPeer, es)
    ensures Own(Run(peerToPeer, es)) && AllOneMaster(peerToPeer, Run(peerToPeer, es).samples)
  {
    hide Inv, Step, Numbered, Calm;
    if es != [] {
      var init := es[..|es| - 1];
      assert forall k | 0 <= k < |init| :: init[..k] == es[..k] && init[k] == es[k];
      RunOwn(peerToPeer, init);
      RunInv(peerToPeer, init);
      StepOwn(Run(peerToPeer, init), es[|es| - 1]);
    }
  }

  /** FOLLOW_UP and SYNC, request and answer are less than a wrap of the numbers apart. */
  predicate Near(peerToPeer: bool, s: Sample)
    requires Made(peerToPeer, s.history)
  {
    && !Far(s.history.sync.value.message.exchange, s.history.follow.value.exchange)
    && (peerToPeer || !Far(s.history.request.value.number, s.history.reply.value.message.request))
  }

  /** As long as no master slips in, a sample's messages belong together exactly if they are
      less than 65,536 messages apart. */
  lemma CalmExactly(peerToPeer: bool, es: seq<Event>, i: nat)
    requires AllNumbered(es) && AllCalm(peerToPeer, es) && i < |Run(peerToPeer, es).samples|
    ensures var s := Run(peerToPeer, es).samples[i];
      && Explained(peerToPeer, s)
      && (Belongs(peerToPeer, s) <==> Near(peerToPeer, s))
  {
    RunInv(peerToPeer, es);
    RunOwn(peerToPeer, es);
    var s := Run(peerToPeer, es).samples[i];
    assert Explained(peerToPeer, s);
    CongruentFar(s.history.sync.value.message.exchange, s.history.follow.value.exchange);
    if !peerToPeer {
      CongruentFar(s.history.request.value.number, s.history.reply.value.message.request);
    }
    hide After, AllCalm, AllNumbered;
  }

  // --------------------------------------------------------- what an offset says

  /** What happened, in UTC: the SYNC left at syncSent and the request at requestSent, each took
      its time and the corrections on top, the master stamps PTP time, which is ahead of UTC, and
      the local clock is ahead of UTC by the offset. */
  predicate Physical(s: Sample, offset: int, syncSent: int, requestSent: int, there: int, back: int)
    requires Made(false, s.history)
  {
    var sync, follow := s.history.sync.value, s.history.follow.value;
    var request, reply := s.history.request.value, s.history.reply.value;
    && follow.origin == syncSent + reply.utcOffset * 1_000_000_000
    && sync.received == syncSent + there + CorrectionDuration(sync.message.correction + follow.correction) + offset
    && request.sent == requestSent + offset
    && reply.message.received ==
         requestSent + back + CorrectionDuration(reply.message.correction) + reply.utcOffset * 1_000_000_000
  }

  /** A sample of messages that belong together tells the local clock's offset from UTC within
      half the difference of the two ways and half a nanosecond, and exactly over a path that is
      the same both ways; its delay is then that of the path. */
  lemma TrueOffset(s: Sample, offset: int, syncSent: int, requestSent: int, there: int, back: int)
    requires Explained(false, s) && Belongs(false, s) && Physical(s, offset, syncSent, requestSent, there, back)
    ensures 2 * Abs(s.offset - offset) <= Abs(there - back) + 1
    ensures there == back ==> s.offset == offset && s.delay == there
  {
    var ts := StampsOf(false, s);
    MeasuresOffset(ts, s.offset, s.delay);
    assert SyncDelay(ts, offset) == there && RequestDelay(ts, offset) == back;
    E2EAccuracy(ts, offset);
    E2EDelay(ts, offset);
    hide OffsetE2E, CorrectionDuration, D21, D43;
  }

  lemma MeasuresOffset(ts: Timestamps, offset: int, delay: int)
    requires Measure(false, ts) == Some((offset, delay))
    ensures CompleteE2E(ts) && OffsetE2E(ts) == Some((offset, delay))
  {
  }
}
