/** Runs in which the client computes an offset from messages that do not belong together, and
    one in which a full buffer loses a message. */
module PairingExamples {
  import opened Wrappers
  import opened Bmca
  import opened TsProc
  import opened SyncPairing
  import opened PairingRuns
  import PtpClient

  // ---------------------------------------------------------- a whole exchange

  /** A client starts on a master, learns the offset between PTP time and UTC and measures the
      delay. */
  function DelayMeasured(a: PortIdentity, utcOffset: int, sent: int, received: int): seq<Event> {
    [Restart(Some(a), false), NewUtcOffset(utcOffset), SendDelayReq(Some(sent)),
     DelayResp(DelayAnswer(a, 0, 0, 0, received))]
  }

  /** It gets a SYNC with its FOLLOW_UP. */
  function Synced(a: PortIdentity, received: int, origin: int): seq<Event> {
    [Sync(SyncMessage(a, 0, 0, 0, true, None), received, PtpClient.Locked(true)),
     Follow(FollowUp(a, 0, 0, 0, origin), PtpClient.Locked(true))]
  }

  /** Then it computes its offset from UTC and the path delay. */
  lemma FullExchange(a: PortIdentity, utcOffset: int, offset: int, delay: int, syncSent: int, requestSent: int)
    returns (es: seq<Event>)
    ensures var ahead := utcOffset * 1_000_000_000;
      es == DelayMeasured(a, utcOffset, requestSent + offset, requestSent + delay + ahead)
            + Synced(a, syncSent + delay + offset, syncSent + ahead)
    ensures AllNumbered(es)
    ensures var samples := Run(false, es).samples;
      |samples| == 1 && samples[0].offset == offset && samples[0].delay == delay
  {
    hide Step, After, DelayKnown;
    var ahead := utcOffset * 1_000_000_000;
    var start := DelayMeasured(a, utcOffset, requestSent + offset, requestSent + delay + ahead);
    var rest := Synced(a, syncSent + delay + offset, syncSent + ahead);
    es := start + rest;
    RunMeasured(a, utcOffset, requestSent + offset, requestSent + delay + ahead);
    AfterAppend(Start(false), start, rest[0], rest[1]);
    Finished(Run(false, start), a, utcOffset, requestSent, offset, delay, syncSent);
  }

  lemma RunMeasured(a: PortIdentity, utcOffset: int, sent: int, received: int)
    ensures DelayKnown(Run(false, DelayMeasured(a, utcOffset, sent, received)), a, utcOffset, sent, received)
  {
    hide Step, After, DelayKnown;
    var es := DelayMeasured(a, utcOffset, sent, received);
    assert es[..2] == [] + [es[0], es[1]] && es == es[..2] + [es[2], es[3]];
    AfterAppend(Start(false), [], es[0], es[1]);
    AfterAppend(Start(false), es[..2], es[2], es[3]);
    AfterNone(Start(false));
    Measured(a, utcOffset, sent, received, Run(false, es));
  }

  predicate DelayKnown(x: Exchange, a: PortIdentity, utcOffset: int, sent: int, received: int) {
    && !x.peerToPeer && x.master == Some(a) && x.utcOffset == utcOffset && x.pending == [] && x.samples == []
    && x.stamps == UNSET.(t3 := Some(sent), t4 := Some(received - utcOffset * 1_000_000_000))
  }

  lemma Measured(a: PortIdentity, utcOffset: int, sent: int, received: int, x: Exchange)
    requires x == Step(Step(Step(Step(Start(false), Restart(Some(a), false)), NewUtcOffset(utcOffset)),
                            SendDelayReq(Some(sent))), DelayResp(DelayAnswer(a, 0, 0, 0, received)))
    ensures DelayKnown(x, a, utcOffset, sent, received)
  {
  }

  lemma Finished(x: Exchange, a: PortIdentity, utcOffset: int, requestSent: int, offset: int, delay: int, syncSent: int)
    requires DelayKnown(x, a, utcOffset, requestSent + offset, requestSent + delay + utcOffset * 1_000_000_000)
    ensures var e := Sync(SyncMessage(a, 0, 0, 0, true, None), syncSent + delay + offset, PtpClient.Locked(true));
      var f := FollowUp(a, 0, 0, 0, syncSent + utcOffset * 1_000_000_000);
      var samples := Step(Step(x, e), Follow(f, PtpClient.Locked(true))).samples;
      |samples| == 1 && samples[0].offset == offset && samples[0].delay == delay
  {
    FindIs([], a, 0, 0);
    var m := SyncMessage(a, 0, 0, 0, true, None);
    var f := FollowUp(a, 0, 0, 0, syncSent + utcOffset * 1_000_000_000);
    var y := SyncArrived(x, m, syncSent + delay + offset).(syncReceived := true);
    var z := WithOrigin(y, f);
    assert Measure(false, z.stamps) == Some((offset, delay));
    hide Find, Measure;
    assert HandleSync(x, m, syncSent + delay + offset, PtpClient.Locked(true)) == y;
  }

  // --------------------------------------------------- a FOLLOW_UP of a lost SYNC

  /** Message k of a master that sends one every second, and whose time the client has. */
  function SyncOf(a: PortIdentity, k: nat): Event {
    Sync(SyncMessage(a, k % WRAP, k, 0, true, None), k * SECOND, PtpClient.Locked(true))
  }

  function FollowUpOf(a: PortIdentity, k: nat): FollowUp { FollowUp(a, k % WRAP, k, 0, k * SECOND) }

  function FollowOf(a: PortIdentity, k: nat): Event { Follow(FollowUpOf(a, k), PtpClient.Locked(true)) }

  /** n exchanges one after the other, each in the usual order. */
  function Exchanges(a: PortIdentity, from: nat, n: nat): seq<Event> {
    if n == 0 then [] else Exchanges(a, from, n - 1) + [SyncOf(a, from + n - 1), FollowOf(a, from + n - 1)]
  }

  /** A peer-to-peer client that has the master's time and keeps one FOLLOW_UP. */
  predicate Keeping(x: Exchange, a: PortIdentity, q: nat) {
    && x.peerToPeer && x.master == Some(a) && x.utcOffset == 0 && x.stamps.peerDelay == 0
    && x.pending == [FollowUpOf(a, q)]
  }

  lemma AfterAppend(x: Exchange, es: seq<Event>, one: Event, two: Event)
    ensures After(x, es + [one]) == Step(After(x, es), one)
    ensures After(x, es + [one, two]) == Step(Step(After(x, es), one), two)
  {
    hide Step;
    assert (es + [one])[..|es|] == es;
    var fs := es + [one, two];
    assert fs[..|fs| - 1] == es + [one];
  }

  /** An exchange in time changes nothing in the buffer, and its offset is zero. */
  lemma OneExchange(x: Exchange, a: PortIdentity, q: nat, k: nat)
    requires Keeping(x, a, q) && k % WRAP != q % WRAP
    ensures var y := Step(Step(x, SyncOf(a, k)), FollowOf(a, k));
      && Keeping(y, a, q)
      && |y.samples| == |x.samples| + 1 && y.samples[..|x.samples|] == x.samples && y.samples[|x.samples|].offset == 0
  {
    FindIs(x.pending, a, k % WRAP, 1);
    var y := Step(x, SyncOf(a, k));
    assert y.syncReceived && y.twoStep && y.lastSyncSeq == k % WRAP && y.pending == x.pending;
    assert SyncCorrection(WithOrigin(y, FollowUpOf(a, k)).stamps) == 0;
    hide Find;
  }

  lemma {:induction false} ManyExchanges(x: Exchange, a: PortIdentity, q: nat, n: nat)
    requires Keeping(x, a, q) && n < WRAP
    ensures var y := After(x, Exchanges(a, q + 1, n));
      && Keeping(y, a, q)
      && |y.samples| == |x.samples| + n
      && forall i | |x.samples| <= i < |y.samples| :: y.samples[i].offset == 0
  {
    hide Keeping, Step;
    if n > 0 {
      var es := Exchanges(a, q + 1, n - 1);
      ManyExchanges(x, a, q, n - 1);
      AfterAppend(x, es, SyncOf(a, q + n), FollowOf(a, q + n));
      Incongruent(q, n);
      OneExchange(After(x, es), a, q, q + n);
      hide SyncOf, FollowOf;
    }
  }

  lemma Incongruent(q: nat, n: nat)
    requires 0 < n < WRAP
    ensures (q + n) % WRAP != q % WRAP
  {
    if (q + n) % WRAP == q % WRAP { CongruentFar(q, q + n); }
  }

  /** The SYNC a wrap later takes the FOLLOW_UP kept. */
  lemma TakesKept(x: Exchange, a: PortIdentity, q: nat)
    requires Keeping(x, a, q)
    ensures var y := Step(x, SyncOf(a, q + WRAP));
      && |y.samples| == |x.samples| + 1 && y.samples[..|x.samples|] == x.samples
      && var s := y.samples[|x.samples|];
        s.offset == WRAP * SECOND && Made(true, s.history) && !Belongs(true, s)
  {
    assert (q + WRAP) % WRAP == q % WRAP;
    FindIs(x.pending, a, q % WRAP, 0);
    var z := SyncArrived(x, SyncOf(a, q + WRAP).message, (q + WRAP) * SECOND).(syncReceived := true, pending := []);
    assert Step(x, SyncOf(a, q + WRAP)) == CompleteFollowUp(z, FollowUpOf(a, q), PtpClient.Locked(true));
    assert SyncCorrection(WithOrigin(z, FollowUpOf(a, q)).stamps) == 0;
    hide Find;
  }

  /** Offset zero every time, then 65,536 seconds from messages that do not belong together. */
  predicate Misled(samples: seq<Sample>) {
    && |samples| == WRAP
    && (forall i | 0 <= i < WRAP - 1 :: samples[i].offset == 0)
    && var s := samples[WRAP - 1];
      s.offset == WRAP * SECOND && Made(true, s.history) && !Belongs(true, s)
  }

  /** One lost SYNC is enough. Its FOLLOW_UP is kept; the 65,535 exchanges after it arrive in
      full, in order and with offset zero; the next SYNC has its number again, and the client
      takes itself to be 65,536 seconds off. */
  lemma LostSync(a: PortIdentity, q: nat) returns (es: seq<Event>)
    ensures AllNumbered(es)
    ensures es == [Restart(Some(a), false), FollowOf(a, q)] + Exchanges(a, q + 1, WRAP - 1) + [SyncOf(a, q + WRAP)]
    ensures Misled(Run(true, es).samples)
  {
    var start := [Restart(Some(a), false), FollowOf(a, q)];
    var middle := Exchanges(a, q + 1, WRAP - 1);
    es := start + middle + [SyncOf(a, q + WRAP)];
    LostSyncNumbered(a, q);
    KeepsFirst(a, q);
    var x := Run(true, start);
    ManyExchanges(x, a, q, WRAP - 1);
    AfterConcat(Start(true), start, middle);
    AfterAppend(Start(true), start + middle, SyncOf(a, q + WRAP), SyncOf(a, q + WRAP));
    TakesKept(Run(true, start + middle), a, q);
    LastMisleads(Run(true, start + middle).samples, Run(true, es).samples);
    hide *;
  }

  lemma LastMisleads(init: seq<Sample>, samples: seq<Sample>)
    requires |init| == WRAP - 1 && |samples| == WRAP && samples[..|init|] == init
    requires forall i | 0 <= i < |init| :: init[i].offset == 0
    requires var s := samples[|init|]; s.offset == WRAP * SECOND && Made(true, s.history) && !Belongs(true, s)
    ensures Misled(samples)
  {
    hide Belongs, Made;
  }

  lemma LostSyncNumbered(a: PortIdentity, q: nat)
    ensures AllNumbered([Restart(Some(a), false), FollowOf(a, q)] + Exchanges(a, q + 1, WRAP - 1)
                        + [SyncOf(a, q + WRAP)])
  {
    ExchangesNumbered(a, q + 1, WRAP - 1);
    hide Exchanges;
  }

  lemma KeepsFirst(a: PortIdentity, q: nat)
    ensures var x := Run(true, [Restart(Some(a), false), FollowOf(a, q)]); Keeping(x, a, q) && x.samples == []
  {
    AfterAppend(Start(true), [], Restart(Some(a), false), FollowOf(a, q));
    assert [] + [Restart(Some(a), false), FollowOf(a, q)] == [Restart(Some(a), false), FollowOf(a, q)];
    FindIs([], a, q % WRAP, 0);
    hide Find;
  }

  lemma {:induction false} AfterConcat(x: Exchange, es: seq<Event>, fs: seq<Event>)
    ensures After(x, es + fs) == After(After(x, es), fs)
  {
    hide Step;
    if fs == [] {
      assert es + fs == es;
    } else {
      AfterConcat(x, es, fs[..|fs| - 1]);
      assert (es + fs)[..|es + fs| - 1] == es + fs[..|fs| - 1];
    }
  }

  lemma {:induction false} ExchangesNumbered(a: PortIdentity, from: nat, n: nat)
    ensures AllNumbered(Exchanges(a, from, n))
  {
    if n > 0 { ExchangesNumbered(a, from, n - 1); }
  }

  // -------------------------------------------------------- another master slips in

  /** The SYNC of one master and the FOLLOW_UP of another give an offset of neither. */
  lemma SwitchedMaster(a: PortIdentity, b: PortIdentity, k: nat, received: int, origin: int) returns (es: seq<Event>)
    requires a != b
    ensures AllNumbered(es) && |es| == 4
    ensures es[..2] == [Restart(Some(a), false), SyncAt(a, k, received)]
    ensures es[2..] == [Switch(Some(b)), Follow(FollowUp(b, k % WRAP, k, 0, origin), PtpClient.Locked(true))]
    ensures var samples := Run(true, es).samples;
      |samples| == 1 && samples[0].offset == received - origin && Made(true, samples[0].history)
      && samples[0].history.sync.value.message.source == a && samples[0].history.follow.value.source == b
  {
    var start := [Restart(Some(a), false), SyncAt(a, k, received)];
    var rest := [Switch(Some(b)), Follow(FollowUp(b, k % WRAP, k, 0, origin), PtpClient.Locked(true))];
    es := start + rest;
    assert [] + start == start;
    AfterAppend(Start(true), [], start[0], start[1]);
    AfterAppend(Start(true), start, rest[0], rest[1]);
    FindIs([], a, k % WRAP, 0);
    Waits(a, k, received);
    Finishes(Run(true, start), a, b, k, received, origin);
    hide After, Step, Find;
  }

  function SyncAt(a: PortIdentity, k: nat, received: int): Event {
    Sync(SyncMessage(a, k % WRAP, k, 0, true, None), received, PtpClient.Locked(true))
  }

  predicate Waiting(x: Exchange, a: PortIdentity, k: nat, received: int) {
    && x.peerToPeer && x.syncReceived && x.twoStep && x.lastSyncSeq == k % WRAP && x.samples == []
    && x.stamps == UNSET.(t2 := Some(received)) && x.utcOffset == 0
    && x.history.sync == Some(Arrival(SyncAt(a, k, received).message, received, 0))
  }

  lemma Waits(a: PortIdentity, k: nat, received: int)
    ensures Waiting(Step(Step(Start(true), Restart(Some(a), false)), SyncAt(a, k, received)), a, k, received)
  {
    FindIs([], a, k % WRAP, 0);
    hide Find;
  }

  lemma Finishes(x: Exchange, a: PortIdentity, b: PortIdentity, k: nat, received: int, origin: int)
    requires Waiting(x, a, k, received)
    ensures var f := FollowUp(b, k % WRAP, k, 0, origin);
      var samples := Step(Step(x, Switch(Some(b))), Follow(f, PtpClient.Locked(true))).samples;
      |samples| == 1 && samples[0].offset == received - origin
      && samples[0].history.sync == x.history.sync && samples[0].history.follow == Some(f)
  {
    assert SyncCorrection(WithOrigin(x, FollowUp(b, k % WRAP, k, 0, origin)).stamps) == 0;
  }

  // ------------------------------------------------- an answer to a request long past

  function Requests(n: nat): seq<Event> { if n == 0 then [] else Requests(n - 1) + [SendDelayReq(Some(0))] }

  /** The client after n requests and no answer. */
  predicate Asked(x: Exchange, master: Option<PortIdentity>, n: nat) {
    && !x.peerToPeer && x.master == master && x.utcOffset == 0
    && x.requests == n && x.delayReqSeq == n % WRAP
    && (0 < n ==>
          && x.delayReqPending && x.lastDelayReqSeq == (n - 1) % WRAP && x.stamps.t3 == Some(0)
          && x.history.request == Some(Request(n - 1, 0, x.steps)))
  }

  lemma AsksAgain(x: Exchange, master: Option<PortIdentity>, n: nat)
    requires Asked(x, master, n)
    ensures Asked(Step(x, SendDelayReq(Some(0))), master, n + 1)
  {
    NextNumber(n);
  }

  lemma {:induction false} ManyRequests(x: Exchange, master: Option<PortIdentity>, n: nat)
    requires Asked(x, master, 0)
    ensures Asked(After(x, Requests(n)), master, n)
  {
    hide Asked, Step, After;
    if n == 0 {
      AfterNone(x);
    } else {
      ManyRequests(x, master, n - 1);
      AfterAppend(x, Requests(n - 1), SendDelayReq(Some(0)), SendDelayReq(Some(0)));
      AsksAgain(After(x, Requests(n - 1)), master, n - 1);
    }
  }

  lemma AfterNone(x: Exchange)
    ensures After(x, []) == x
  {
  }

  /** After 65,537 requests without an answer, the answer to the first passes for one to the
      last. */
  lemma StaleAnswer(a: PortIdentity, received: int) returns (es: seq<Event>)
    ensures es == [Restart(Some(a), false)] + Requests(WRAP + 1) + [DelayResp(DelayAnswer(a, 0, 0, 0, received))]
    ensures var x := Run(false, es);
      && x.history.request == Some(Request(WRAP, 0, x.steps))
      && x.history.reply == Some(Reply(DelayAnswer(a, 0, 0, 0, received), 0))
      && x.stamps.t3 == Some(0) && x.stamps.t4 == Some(received)
      && DelayMixed(x, a)
  {
    var start, answer := [Restart(Some(a), false)], DelayResp(DelayAnswer(a, 0, 0, 0, received));
    es := start + Requests(WRAP + 1) + [answer];
    assert [] + start == start;
    AfterAppend(Start(false), [], start[0], answer);
    AfterConcat(Start(false), start, Requests(WRAP + 1));
    AfterAppend(Start(false), start + Requests(WRAP + 1), answer, answer);
    ManyRequests(Run(false, start), Some(a), WRAP + 1);
    assert (WRAP + 1 - 1) % WRAP == 0;
    hide After, Requests;
  }

  // ---------------------------------------------------------------- a full buffer

  /** Eight FOLLOW_UPs without their SYNCs are kept; a ninth that overtakes its SYNC costs the
      first, which the usual order would have left. */
  lemma OvertakenOldest(a: PortIdentity, x: Exchange, s: Event, f: Event)
    requires Pair(s, f) && s.message.source == a && s.message.sequence == 8 && x.master == Some(a)
    requires !Awaited(x, 8) && s.verdict != PtpClient.Jump(true)
    requires x.pending == seq(8, i requires 0 <= i < 8 => FollowUpOf(a, i))
    ensures Lookup(Step(Step(x, s), f).pending, a, 0) == Some(FollowUpOf(a, 0))
    ensures Lookup(Step(Step(x, f), s).pending, a, 0) == None
  {
    assert forall i | 0 <= i < 8 :: x.pending[i].sequence == i;
    SyncFirst(x, s, f);
    FollowUpFirst(x, s, f);
    BufferIrrelevant(x, s, f, x.pending[1..]);
    NoStep(x, s, f);
    FindIs(x.pending, a, 0, 0);
    FindIs(x.pending[1..], a, 0, 7);
    hide Step, Paired, Find, Awaited;
  }

  lemma NoStep(x: Exchange, s: Event, f: Event)
    requires Pair(s, f) && s.verdict != PtpClient.Jump(true)
    ensures Paired(x, s, f).steps == x.steps
  {
    hide Measure;
  }
}
