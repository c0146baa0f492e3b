/** Send receipts of tracked waveform changes. A transmission takes settings and tracker
    under the lock, writes the frame outside it, and only then completes the tracker, so
    changes may come in between. */
module SvReceipts {
  import opened Wrappers

  datatype Channel = Channel(rms: real, phaseDeg: real, frequency: real, quality: nat)

  datatype Waveform = Waveform(channels: seq<Channel>, simulation: bool, smpSynch: nat)

  datatype Outcome = Superseded | Written(used: Waveform, failed: bool)

  /** A completion of a tracker. The source guards it with sync.Once; here every call is
      recorded, to show that the guard is never needed. */
  datatype Receipt = Receipt(tracker: nat, outcome: Outcome)

  /** A frame between the two halves of transmit: what it was synthesised from, and whose
      receipt it owes. */
  datatype Flight = Flight(used: Waveform, tracker: Option<nat>)

  datatype State = State(
    ready: bool, settings: Waveform, transmission: Option<nat>, flight: Option<Flight>,
    stopped: bool, receipts: seq<Receipt>,
    installed: map<nat, Waveform>)   // the settings that came with each tracker

  datatype Event =
    | Set(w: Waveform, tracked: bool, valid: bool)   // valid: it passes the range checks
    | Begin(synthesisFails: bool)                    // transmit, up to releasing the lock
    | Finish(writeFails: bool)                       // transmit, from WriteFrame on

  function Start(initial: Waveform): State {
    State(false, initial, None, None, false, [], map[])
  }

  predicate Enabled(s: State, e: Event) {
    match e
    case Set(_, _, _) => true
    case Begin(_) => s.ready && !s.stopped && s.flight.None?
    case Finish(_) => s.flight.Some?
  }

  function Completed(receipts: seq<Receipt>, tracker: Option<nat>, o: Outcome): seq<Receipt> {
    if tracker.Some? then receipts + [Receipt(tracker.value, o)] else receipts
  }

  /** Trackers are new channels; the number of earlier ones names the next. */
  function Fresh(s: State): nat { |s.installed| }

  function Step(s: State, e: Event): State
    requires Enabled(s, e)
  {
    match e
    case Set(w, tracked, valid) =>
      if !valid then s
      else
        var id := Fresh(s);
        s.(ready := true, settings := w, transmission := if tracked then Some(id) else None,
           receipts := Completed(s.receipts, s.transmission, Superseded),
           installed := if tracked then s.installed[id := w] else s.installed)
    case Begin(fails) =>
      if fails then s.(stopped := true)
      else s.(transmission := None, flight := Some(Flight(s.settings, s.transmission)))
    case Finish(fails) =>
      s.(flight := None, stopped := s.stopped || fails,
         receipts := Completed(s.receipts, s.flight.value.tracker, Written(s.flight.value.used, fails)))
  }

  class Publisher {
    var ready: bool
    var settings: Waveform
    var transmission: Option<nat>
    var flight: Option<Flight>
    var stopped: bool
    var receipts: seq<Receipt>
    ghost var installed: map<nat, Waveform>
    var trackers: nat

    ghost function View(): State
      reads this
    {
      State(ready, settings, transmission, flight, stopped, receipts, installed)
    }

    ghost predicate Valid()
      reads this
    {
      trackers == |installed| && Dense(installed)
    }

    constructor (initial: Waveform)
      ensures Valid() && View() == Start(initial)
    {
      ready, settings, transmission, flight, stopped := false, initial, None, None, false;
      receipts, installed, trackers := [], map[], 0;
    }

    method SetWaveform(w: Waveform, tracked: bool, valid: bool) returns (tracker: Option<nat>)
      requires Valid()
      modifies this
      ensures Valid() && View() == Step(old(View()), Set(w, tracked, valid))
      ensures tracker == if valid && tracked then Some(Fresh(old(View()))) else None
    {
      if !valid {
        return None;
      }
      tracker := if tracked then Some(trackers) else None;
      if transmission.Some? {
        receipts := receipts + [Receipt(transmission.value, Superseded)];
      }
      transmission := tracker;
      settings := w;
      ready := true;
      if tracked {
        installed := installed[trackers := w];
        trackers := trackers + 1;
      }
    }

    method BeginTransmit(synthesisFails: bool) returns (ok: bool)
      requires Valid() && Enabled(View(), Begin(synthesisFails))
      modifies this
      ensures Valid() && View() == Step(old(View()), Begin(synthesisFails))
    {
      if synthesisFails {
        stopped := true;
        return false;
      }
      var taken := transmission;
      transmission := None;
      flight := Some(Flight(settings, taken));
      return true;
    }

    method FinishTransmit(writeFails: bool)
      requires Valid() && Enabled(View(), Finish(writeFails))
      modifies this
      ensures Valid() && View() == Step(old(View()), Finish(writeFails))
    {
      var owed := flight.value.tracker;
      if owed.Some? {
        receipts := receipts + [Receipt(owed.value, Written(flight.value.used, writeFails))];
      }
      if writeFails {
        stopped := true;
      }
      flight := None;
    }
  }

  // -------------------------------------------------------------- invariant

  predicate Completes(s: State, id: nat) { exists r | r in s.receipts :: r.tracker == id }

  predicate InFlight(s: State, id: nat) { s.flight.Some? && s.flight.value.tracker == Some(id) }

  /** Every tracker issued is pending, in flight or completed, and only one of these. */
  predicate Placed(s: State, id: nat) {
    && (s.transmission == Some(id) || InFlight(s, id) || Completes(s, id))
    && !(s.transmission == Some(id) && InFlight(s, id))
    && !(Completes(s, id) && (s.transmission == Some(id) || InFlight(s, id)))
  }

  predicate Once(receipts: seq<Receipt>) {
    forall i, j | 0 <= i < j < |receipts| :: receipts[i].tracker != receipts[j].tracker
  }

  /** One completion per tracker, and each reported frame was made from the settings that
      came with the tracker. */
  predicate Truthful(receipts: seq<Receipt>, installed: map<nat, Waveform>) {
    && Once(receipts)
    && forall r | r in receipts ::
         && r.tracker in installed
         && (r.outcome.Written? ==> r.outcome.used == installed[r.tracker])
  }

  ghost predicate Dense(installed: map<nat, Waveform>) {
    forall id: nat :: id in installed <==> id < |installed|
  }

  predicate Owned(tracker: Option<nat>, w: Waveform, installed: map<nat, Waveform>) {
    tracker.Some? ==> tracker.value in installed && installed[tracker.value] == w
  }

  ghost predicate Inv(s: State) {
    && Dense(s.installed)
    && (forall id | id in s.installed :: Placed(s, id))
    && Owned(s.transmission, s.settings, s.installed)
    && (s.flight.Some? ==> Owned(s.flight.value.tracker, s.flight.value.used, s.installed))
    && Truthful(s.receipts, s.installed)
  }

  lemma CompletedMembers(receipts: seq<Receipt>, tracker: Option<nat>, o: Outcome)
    ensures forall r :: r in Completed(receipts, tracker, o) <==>
              r in receipts || (tracker.Some? && r == Receipt(tracker.value, o))
  {
  }

  lemma TruthfulCompleted(receipts: seq<Receipt>, installed: map<nat, Waveform>,
                          tracker: Option<nat>, o: Outcome)
    requires Truthful(receipts, installed)
    requires tracker.Some? ==>
      && tracker.value in installed && (forall r | r in receipts :: r.tracker != tracker.value)
      && (o.Written? ==> o.used == installed[tracker.value])
    ensures Truthful(Completed(receipts, tracker, o), installed)
  {
  }

  lemma TruthfulMore(receipts: seq<Receipt>, installed: map<nat, Waveform>, id: nat, w: Waveform)
    requires Truthful(receipts, installed) && id !in installed
    ensures Truthful(receipts, installed[id := w])
  {
    hide Once;
  }

  lemma DenseMore(installed: map<nat, Waveform>, w: Waveform)
    requires Dense(installed)
    ensures |installed| !in installed && Dense(installed[|installed| := w])
  {
  }

  lemma SetPlaced(s: State, e: Event, k: nat)
    requires Inv(s) && e.Set? && e.valid && k in Step(s, e).installed
    ensures Placed(Step(s, e), k)
  {
    var t := Step(s, e);
    CompletedMembers(s.receipts, s.transmission, Superseded);
    DenseMore(s.installed, e.w);
    hide Completed, Once, Dense;
    if k in s.installed {
      assert Placed(s, k);
      if s.transmission == Some(k) { assert Receipt(k, Superseded) in t.receipts; }
      if Completes(s, k) { var r :| r in s.receipts && r.tracker == k; assert r in t.receipts; }
    } else {
      assert !Completes(t, k);
    }
  }

  lemma SetInv(s: State, e: Event)
    requires Inv(s) && e.Set? && e.valid
    ensures Inv(Step(s, e))
  {
    var t, id := Step(s, e), Fresh(s);
    forall k | k in t.installed ensures Placed(t, k) { SetPlaced(s, e, k); }
    if s.transmission.Some? { assert Placed(s, s.transmission.value); }
    TruthfulCompleted(s.receipts, s.installed, s.transmission, Superseded);
    DenseMore(s.installed, e.w);
    TruthfulMore(t.receipts, s.installed, id, e.w);
    hide Truthful, Completed, Placed, Dense;
  }

  lemma FinishInv(s: State, e: Event)
    requires Inv(s) && e.Finish? && s.flight.Some?
    ensures Inv(Step(s, e))
  {
    var t, owed, o := Step(s, e), s.flight.value.tracker, Written(s.flight.value.used, e.writeFails);
    CompletedMembers(s.receipts, owed, o);
    if owed.Some? { assert Placed(s, owed.value); }
    TruthfulCompleted(s.receipts, s.installed, owed, o);
    hide Completed, Truthful, Dense;
    forall k | k in t.installed ensures Placed(t, k) {
      assert Placed(s, k);
      if InFlight(s, k) { assert Receipt(k, o) in t.receipts; }
      if Completes(s, k) { var r :| r in s.receipts && r.tracker == k; assert r in t.receipts; }
    }
  }

  lemma BeginInv(s: State, e: Event)
    requires Inv(s) && e.Begin? && Enabled(s, e)
    ensures Inv(Step(s, e))
  {
    var t := Step(s, e);
    hide Truthful, Dense;
    forall k | k in t.installed ensures Placed(t, k) {
      assert Placed(s, k);
      assert Completes(s, k) <==> Completes(t, k);
    }
  }

  predicate ValidRun(s: State, run: seq<Event>)
    decreases |run|
  {
    run == [] || (Enabled(s, run[0]) && ValidRun(Step(s, run[0]), run[1..]))
  }

  function Execute(s: State, run: seq<Event>): State
    requires ValidRun(s, run)
    decreases |run|
  {
    if run == [] then s else Execute(Step(s, run[0]), run[1..])
  }

  lemma {:induction false} RunInv(s: State, run: seq<Event>)
    requires Inv(s) && ValidRun(s, run)
    ensures Inv(Execute(s, run))
    decreases |run|
  {
    if run != [] {
      match run[0] {
        case Set(_, _, valid) => if valid { SetInv(s, run[0]); }
        case Begin(_) => BeginInv(s, run[0]);
        case Finish(_) => FinishInv(s, run[0]);
      }
      hide Inv;
      RunInv(Step(s, run[0]), run[1..]);
    }
  }

  /** Under every interleaving of waveform changes with the two halves of transmissions, a
      tracker is completed at most once, superseded or written but not both; a receipt for a
      write tells of a frame made from exactly the settings installed with that tracker; and
      no tracker is dropped while it is neither pending nor in flight. */
  lemma ReceiptsTellTheTruth(initial: Waveform, run: seq<Event>)
    requires ValidRun(Start(initial), run)
    ensures var s := Execute(Start(initial), run);
      && Truthful(s.receipts, s.installed)
      && (forall id | id in s.installed :: Placed(s, id))
  {
    assert Inv(Start(initial));
    RunInv(Start(initial), run);
    hide Step, Enabled, Placed;
  }

  // ------------------------------------------------ what receipts come from

  /** What becomes of a tracker: its waveform is replaced before it is sent, or a frame with it
      is written or fails to be. */
  datatype Fate = Replaced | Sent(failed: bool)

  function FateOf(o: Outcome): Fate {
    match o
    case Superseded => Replaced
    case Written(_, failed) => Sent(failed)
  }

  /** What the receipts say of a tracker. */
  function Told(receipts: seq<Receipt>, id: nat): seq<Fate> {
    if receipts == [] then []
    else
      var last := receipts[|receipts| - 1];
      Told(receipts[..|receipts| - 1], id) + if last.tracker == id then [FateOf(last.outcome)] else []
  }

  /** What the events of a run do to a tracker: a valid waveform comes while it is pending, or
      the write of a frame that owes it ends. */
  function Happened(s: State, run: seq<Event>, id: nat): seq<Fate>
    requires ValidRun(s, run)
    decreases |run|
  {
    if run == [] then [] else Happens(s, run[0], id) + Happened(Step(s, run[0]), run[1..], id)
  }

  function Happens(s: State, e: Event, id: nat): seq<Fate> {
    match e
    case Set(_, _, valid) => if valid && s.transmission == Some(id) then [Replaced] else []
    case Begin(_) => []
    case Finish(fails) => if InFlight(s, id) then [Sent(fails)] else []
  }

  lemma ToldMore(receipts: seq<Receipt>, tracker: Option<nat>, o: Outcome, id: nat)
    ensures Told(Completed(receipts, tracker, o), id) ==
      Told(receipts, id) + if tracker == Some(id) then [FateOf(o)] else []
  {
    if tracker.Some? {
      var r := Receipt(tracker.value, o);
      assert (receipts + [r])[..|receipts|] == receipts;
    }
  }

  lemma StepTold(s: State, e: Event, id: nat)
    requires Enabled(s, e)
    ensures Told(Step(s, e).receipts, id) == Told(s.receipts, id) + Happens(s, e, id)
  {
    ToldMore(s.receipts, s.transmission, Superseded, id);
    if e.Finish? { ToldMore(s.receipts, s.flight.value.tracker, Written(s.flight.value.used, e.writeFails), id); }
    hide Told, Completed;
  }

  /** The receipts of a tracker are what happened to it in the run, in particular success only
      if the write of its frame succeeded, and at most one thing happens to it. */
  lemma ReceiptsExactly(initial: Waveform, run: seq<Event>, id: nat)
    requires ValidRun(Start(initial), run)
    ensures Told(Execute(Start(initial), run).receipts, id) == Happened(Start(initial), run, id)
    ensures |Happened(Start(initial), run, id)| <= 1
  {
    ToldInRun(Start(initial), run, id);
    TruthfulOnce(initial, run);
    AtMostOne(Execute(Start(initial), run).receipts, id);
    assert [] + Happened(Start(initial), run, id) == Happened(Start(initial), run, id);
    hide Execute, Happened, Happens, Once;
  }

  lemma TruthfulOnce(initial: Waveform, run: seq<Event>)
    requires ValidRun(Start(initial), run)
    ensures Once(Execute(Start(initial), run).receipts)
  {
    ReceiptsTellTheTruth(initial, run);
    hide Placed, Execute;
  }

  lemma {:induction false} ToldInRun(s: State, run: seq<Event>, id: nat)
    requires ValidRun(s, run)
    ensures Told(Execute(s, run).receipts, id) == Told(s.receipts, id) + Happened(s, run, id)
    decreases |run|
  {
    hide Step, Enabled, Told, Happens;
    if run == [] {
      assert Told(s.receipts, id) + [] == Told(s.receipts, id);
    } else {
      StepTold(s, run[0], id);
      ToldInRun(Step(s, run[0]), run[1..], id);
    }
  }

  lemma {:induction false} AtMostOne(receipts: seq<Receipt>, id: nat)
    requires Once(receipts)
    ensures |Told(receipts, id)| <= 1
    ensures (forall r | r in receipts :: r.tracker != id) ==> Told(receipts, id) == []
  {
    if receipts != [] {
      var init := receipts[..|receipts| - 1];
      assert forall i | 0 <= i < |init| :: init[i] == receipts[i];
      AtMostOne(init, id);
      assert forall r | r in init :: r in receipts && r.tracker != receipts[|receipts| - 1].tracker;
    }
  }

  /** The waveform last set in a run that began with w. */
  function LastSet(run: seq<Event>, w: Waveform): Waveform {
    if run == [] then w else LastSet(run[1..], if run[0].Set? && run[0].valid then run[0].w else w)
  }

  /** What the frame now between the halves of a transmission is made of, if there is one. */
  function Aloft(run: seq<Event>, w: Waveform, f: Option<Waveform>): Option<Waveform> {
    if run == [] then f
    else match run[0]
      case Set(v, _, valid) => Aloft(run[1..], if valid then v else w, f)
      case Begin(fails) => Aloft(run[1..], w, if fails then f else Some(w))
      case Finish(_) => Aloft(run[1..], w, None)
  }

  function Used(flight: Option<Flight>): Option<Waveform> {
    if flight.Some? then Some(flight.value.used) else None
  }

  predicate Failure(e: Event) { e == Begin(true) || e == Finish(true) }

  /** A frame is made from the waveform last set before its transmission began; publication
      starts with the first valid waveform and ends with the first failure. */
  lemma {:induction false} FramesExactly(s: State, run: seq<Event>)
    requires ValidRun(s, run)
    ensures var t := Execute(s, run);
      && t.settings == LastSet(run, s.settings)
      && Used(t.flight) == Aloft(run, s.settings, Used(s.flight))
      && (t.ready <==> s.ready || exists e | e in run :: e.Set? && e.valid)
      && (t.stopped <==> s.stopped || exists e | e in run :: Failure(e))
    decreases |run|
  {
    if run != [] {
      FramesExactly(Step(s, run[0]), run[1..]);
      assert forall e :: e in run <==> e == run[0] || e in run[1..];
      assert run[0] in run && (Step(s, run[0]).stopped <==> s.stopped || Failure(run[0]));
    }
    hide Completed;
  }
}
