/** Timed sequences: change lists prepared as snapshots in advance and applied one by one at
    their deadlines, every step under one lock. */
module TimedSequence {
  import opened Wrappers
  import opened GooseData
  import GooseCodec

  const MAX_STEPS: nat := 1000
  const MAX_SEQUENCES: nat := 64
  const MAX_SEQUENCE_MS: int := 86_400_000
  const MILLISECOND: int := 1_000_000

  // --------------------------------------------------------------- schedules

  /** The deadlines after the start of the first n delays' steps. */
  function Total(delays: seq<Option<int>>): int {
    if delays == [] then 0
    else Total(delays[..|delays| - 1]) + match delays[|delays| - 1] case Some(d) => d case None => 0
  }

  predicate DelaysValid(delays: seq<Option<int>>) {
    && (forall i | 0 <= i < |delays| ::
          delays[i].Some? && (if i == 0 then 0 <= delays[i].value else 0 < delays[i].value))
    && Total(delays) <= MAX_SEQUENCE_MS
  }

  function Limit(requested: Option<int>): int { match requested case Some(l) => l case None => 100 }

  predicate ScheduleValid(delays: seq<Option<int>>, requested: Option<int>) {
    1 <= Limit(requested) <= 60_000 && 1 <= |delays| <= MAX_STEPS && DelaysValid(delays)
  }

  /** One deadline a step, in nanoseconds from the start. */
  function Deadlines(delays: seq<Option<int>>): (at: seq<int>)
    ensures |at| == |delays|
  {
    seq(|delays|, i requires 0 <= i < |delays| => Total(delays[..i + 1]) * MILLISECOND)
  }

  lemma TotalStep(delays: seq<Option<int>>, i: nat)
    requires i < |delays|
    ensures Total(delays[..i + 1]) == Total(delays[..i]) + match delays[i] case Some(d) => d case None => 0
  {
    assert delays[..i + 1][..i] == delays[..i];
  }

  lemma {:induction false} TotalGrows(delays: seq<Option<int>>, i: nat, j: nat)
    requires i <= j <= |delays|
    requires forall k | i <= k < j :: delays[k].Some? && 0 <= delays[k].value
    ensures Total(delays[..i]) <= Total(delays[..j])
    decreases j - i
  {
    if i < j {
      TotalGrows(delays, i, j - 1);
      TotalStep(delays, j - 1);
    }
  }

  /** The steps' deadlines if the request is valid. */
  method SequenceSchedule(delays: seq<Option<int>>, requested: Option<int>)
    returns (r: Option<(seq<int>, int)>)
    ensures r == if ScheduleValid(delays, requested) then Some((Deadlines(delays), Limit(requested))) else None
  {
    var limit := 100;
    if requested.Some? { limit := requested.value; }
    if limit < 1 || limit > 60_000 { return None; }
    if |delays| == 0 || |delays| > MAX_STEPS { return None; }
    var steps: seq<int> := [];
    var total := 0;
    assert delays[..0] == [];
    for i := 0 to |delays|
      invariant total == Total(delays[..i]) && 0 <= total <= MAX_SEQUENCE_MS
      invariant |steps| == i && forall k | 0 <= k < i :: steps[k] == Deadlines(delays)[k]
      invariant forall k | 0 <= k < i :: delays[k].Some? && if k == 0 then 0 <= delays[k].value else 0 < delays[k].value
    {
      TotalStep(delays, i);
      var delay := delays[i];
      if delay.None? || delay.value < 0 || (i > 0 && delay.value == 0) || delay.value > MAX_SEQUENCE_MS - total {
        if ScheduleValid(delays, requested) { TotalGrows(delays, i + 1, |delays|); }
        assert delays[..|delays|] == delays;
        return None;
      }
      total := total + delay.value;
      steps := steps + [total * MILLISECOND];
    }
    assert delays[..|delays|] == delays;
    assert steps == Deadlines(delays);
    return Some((steps, limit));
  }

  /** The deadlines of a valid schedule follow one another, within a day of the start. */
  lemma DeadlinesIncrease(delays: seq<Option<int>>, i: nat, j: nat)
    requires DelaysValid(delays) && i < j < |delays|
    ensures 0 <= Deadlines(delays)[i] < Deadlines(delays)[j] <= MAX_SEQUENCE_MS * MILLISECOND
  {
    TotalGrows(delays, 0, i + 1);
    TotalGrows(delays, i + 1, j);
    TotalStep(delays, j);
    TotalGrows(delays, j + 1, |delays|);
    assert delays[..|delays|] == delays && delays[..0] == [];
  }

  // ----------------------------------------------------------------- changes

  /** A writable entry of a stream: its identifier and its type. */
  datatype Signal = Signal(id: nat, kind: nat)

  /** A requested change; values holds what the raw value means for each type it can be read
      as. */
  datatype Change = Change(signal: nat, values: map<nat, DataValue>)

  /** The frame of the stream with the longest counters, but for its data. */
  datatype Stream = Stream(signals: seq<Signal>, header: GooseCodec.Pdu)

  datatype Snapshot = Snapshot(data: seq<DataValue>, test: bool, simulation: bool)

  /** The first entry of an identifier, or the length. */
  function IndexOf(signals: seq<Signal>, id: nat): (k: nat)
    ensures k <= |signals| && (k < |signals| ==> signals[k].id == id)
    ensures forall i | 0 <= i < k :: signals[i].id != id
  {
    if signals == [] || signals[0].id == id then 0 else 1 + IndexOf(signals[1..], id)
  }

  /** The change names an entry and has a value of its type. */
  predicate Applies(s: Stream, c: Change) {
    var k := IndexOf(s.signals, c.signal);
    k < |s.signals| && s.signals[k].kind in c.values
  }

  function ApplyChange(s: Stream, data: seq<DataValue>, c: Change): (r: seq<DataValue>)
    requires |data| == |s.signals| && Applies(s, c)
    ensures |r| == |data|
  {
    var k := IndexOf(s.signals, c.signal);
    data[k := c.values[s.signals[k].kind]]
  }

  function ApplyChanges(s: Stream, data: seq<DataValue>, cs: seq<Change>): (r: seq<DataValue>)
    requires |data| == |s.signals| && forall c | c in cs :: Applies(s, c)
    ensures |r| == |data|
  {
    if cs == [] then data
    else ApplyChange(s, ApplyChanges(s, data, cs[..|cs| - 1]), cs[|cs| - 1])
  }

  predicate DistinctSignals(cs: seq<Change>) {
    forall i, j | 0 <= i < j < |cs| :: cs[i].signal != cs[j].signal
  }

  /** The data fit a standard Ethernet frame. */
  predicate FitsMtu(s: Stream, data: seq<DataValue>) {
    |GooseCodec.Encode(s.header.(allData := data, numDatSetEntries := |data|))| - 14 <= 1500
  }

  predicate Acceptable(s: Stream, current: Snapshot, cs: seq<Change>) {
    && 1 <= |cs| <= |s.signals| == |current.data|
    && DistinctSignals(cs)
    && (forall c | c in cs :: Applies(s, c))
    && FitsMtu(s, ApplyChanges(s, current.data, cs))
  }

  /** The publisher state after a list of changes, if all of it is acceptable. */
  function Prepared(s: Stream, current: Snapshot, cs: seq<Change>): Option<Snapshot> {
    if Acceptable(s, current, cs) then Some(current.(data := ApplyChanges(s, current.data, cs))) else None
  }

  method FindSignal(signals: seq<Signal>, id: nat) returns (k: nat)
    ensures k == IndexOf(signals, id)
  {
    for i := 0 to |signals|
      invariant forall j | 0 <= j < i :: signals[j].id != id
    {
      if signals[i].id == id { return i; }
    }
    return |signals|;
  }

  method PrepareGoose(s: Stream, current: Snapshot, cs: seq<Change>) returns (r: Option<Snapshot>)
    ensures r == Prepared(s, current, cs)
  {
    hide FitsMtu;
    if |cs| == 0 || |cs| > |s.signals| { return None; }
    if |current.data| != |s.signals| { return None; }
    var data := current.data;
    var seen: set<nat> := {};
    for i := 0 to |cs|
      invariant seen == set k | 0 <= k < i :: cs[k].signal
      invariant DistinctSignals(cs[..i]) && forall c | c in cs[..i] :: Applies(s, c)
      invariant data == ApplyChanges(s, current.data, cs[..i])
    {
      var change := cs[i];
      assert change in cs;
      if change.signal in seen { return None; }
      seen := seen + {change.signal};
      var index := FindSignal(s.signals, change.signal);
      if index == |s.signals| { return None; }
      if s.signals[index].kind !in change.values { return None; }
      data := data[index := change.values[s.signals[index].kind]];
      assert cs[..i + 1][..i] == cs[..i] && cs[..i + 1] == cs[..i] + [change];
    }
    assert cs[..|cs|] == cs;
    if !FitsMtu(s, data) { return None; }
    return Some(current.(data := data));
  }

  /** An entry has the value of the change that names it, and its old one if none does. */
  lemma {:induction false} ChangedExactly(s: Stream, data: seq<DataValue>, cs: seq<Change>, k: nat)
    requires k < |data| == |s.signals| && DistinctSignals(cs) && forall c | c in cs :: Applies(s, c)
    ensures forall c | c in cs && IndexOf(s.signals, c.signal) == k ::
      ApplyChanges(s, data, cs)[k] == c.values[s.signals[k].kind]
    ensures (forall c | c in cs :: IndexOf(s.signals, c.signal) != k) ==> ApplyChanges(s, data, cs)[k] == data[k]
  {
    if cs != [] {
      var init, last := cs[..|cs| - 1], cs[|cs| - 1];
      assert cs == init + [last];
      ChangedExactly(s, data, init, k);
    }
  }

  // ------------------------------------------------------------- the machine

  datatype RunState = Running | Completed | Cancelled | Failed

  /** A sequence. The last two fields record what it was made from: the publisher's state at
      the start and the change lists. */
  datatype Run = Run(
    order: nat, stream: nat, state: RunState, at: seq<int>, limit: int, startedAt: int, snapshots: seq<Snapshot>,
    position: nat, applied: nat, start: Snapshot, changes: seq<seq<Change>>)

  datatype Publisher = Publisher(running: bool, output: Snapshot)

  /** What changed a publisher's state. */
  datatype Write = Direct(stream: nat) | Applied(run: nat, step: nat)

  datatype Api = Api(
    streams: map<nat, Stream>, publishers: map<nat, Publisher>, runs: map<nat, Run>, next: nat, active: bool,
    log: seq<Write>)

  /** One step of a request: its delay after the one before, and its changes. */
  datatype StepRequest = StepRequest(after: Option<int>, changes: seq<Change>)

  function Delays(steps: seq<StepRequest>): (r: seq<Option<int>>)
    ensures |r| == |steps|
  {
    seq(|steps|, i requires 0 <= i < |steps| => steps[i].after)
  }

  function Lists(steps: seq<StepRequest>): (r: seq<seq<Change>>)
    ensures |r| == |steps|
  {
    seq(|steps|, i requires 0 <= i < |steps| => steps[i].changes)
  }

  /** The readings of clocks and files an operation makes are its parameters. Control is revoked
      without the lock, and may be long before the lock is had to release it. */
  datatype Event =
    | Start(stream: nat, valid: bool, steps: seq<StepRequest>, requested: Option<int>, now: int)
    | Fire(run: nat, valid: bool, now: int, refused: bool, after: int)
    | Cancel(run: nat)
    | DirectSet(stream: nat, valid: bool, changes: seq<Change>, refused: bool)
    | Revoke
    | Release
    | Status(stream: nat, running: bool)

  predicate Idle(a: Api, stream: nat) {
    forall id | id in a.runs :: !(a.runs[id].stream == stream && a.runs[id].state == Running)
  }

  /** One snapshot for each change list, every one building on the one before. */
  function PrepareAll(s: Stream, current: Snapshot, lists: seq<seq<Change>>): (r: Option<seq<Snapshot>>)
    ensures r.Some? ==> |r.value| == |lists|
  {
    if lists == [] then Some([])
    else
      var n := |lists| - 1;
      match PrepareAll(s, current, lists[..n])
      case None => None
      case Some(snapshots) =>
        match Prepared(s, if n == 0 then current else snapshots[n - 1], lists[n])
        case None => None
        case Some(next) => Some(snapshots + [next])
  }

  /** The first finished sequence from a number on. */
  function OldestFinished(runs: map<nat, Run>, k: nat, next: nat): (r: Option<nat>)
    ensures r.Some? ==> r.value in runs && runs[r.value].state != Running
    decreases next - k
  {
    if k in runs && runs[k].state != Running then Some(k)
    else if k >= next then None
    else OldestFinished(runs, k + 1, next)
  }

  /** The table with room for one more, if there can be. */
  function Evicted(runs: map<nat, Run>, next: nat): Option<map<nat, Run>> {
    if |runs| < MAX_SEQUENCES then Some(runs)
    else match OldestFinished(runs, 0, next)
      case None => None
      case Some(k) => Some(runs - {k})
  }

  predicate Known(a: Api, stream: nat) { stream in a.streams && stream in a.publishers }

  /** The new sequence, if the request is accepted. */
  function NewRun(a: Api, e: Event): Option<Run>
    requires e.Start?
  {
    if !a.active || !e.valid || !Idle(a, e.stream) || !Known(a, e.stream) then None
    else if !ScheduleValid(Delays(e.steps), e.requested) then None
    else if !a.publishers[e.stream].running then None
    else
      var current := a.publishers[e.stream].output;
      match PrepareAll(a.streams[e.stream], current, Lists(e.steps))
      case None => None
      case Some(snapshots) =>
        Some(Run(a.next + 1, e.stream, Running, Deadlines(Delays(e.steps)), Limit(e.requested), e.now, snapshots, 0,
                 0, current, Lists(e.steps)))
  }

  function HandleStart(a: Api, e: Event): Api
    requires e.Start?
  {
    match NewRun(a, e)
    case None => a
    case Some(run) =>
      match Evicted(a.runs, a.next)
      case None => a
      case Some(runs) => Added(a, runs, run)
  }

  function Added(a: Api, runs: map<nat, Run>, run: Run): Api {
    a.(runs := runs[a.next + 1 := run], next := a.next + 1)
  }

  function Finished(r: Run, state: RunState): Run { if r.state == Running then r.(state := state) else r }

  /** The step is not applied: nobody may, it is late, or the next one is due already. */
  predicate TooLate(a: Api, r: Run, e: Event)
    requires e.Fire? && r.position < |r.at|
  {
    || !a.active || !e.valid
    || e.now - (r.startedAt + r.at[r.position]) > r.limit * MILLISECOND
    || (r.position + 1 < |r.at| && r.startedAt + r.at[r.position + 1] <= e.now)
  }

  /** A sequence whose step at its position was just applied. */
  function Advanced(r: Run, after: int): Run
    requires r.position < |r.at|
  {
    var s := r.(applied := r.applied + 1);
    if after - (r.startedAt + r.at[r.position]) > r.limit * MILLISECOND then Finished(s, Failed)
    else if r.position + 1 == |r.at| then Finished(s, Completed)
    else s.(position := r.position + 1)
  }

  /** One turn of the goroutine of a sequence. Its step always exists, as the invariant below
      tells. */
  function HandleFire(a: Api, e: Event): Api
    requires e.Fire?
  {
    if e.run !in a.runs || a.runs[e.run].state != Running then a
    else
      var r := a.runs[e.run];
      if r.position >= |r.at| || |r.snapshots| != |r.at| then a
      else if TooLate(a, r, e) || !Known(a, r.stream) || !a.publishers[r.stream].running || e.refused then
        a.(runs := a.runs[e.run := Finished(r, Failed)])
      else
        a.(publishers := a.publishers[r.stream := a.publishers[r.stream].(output := r.snapshots[r.position])],
           log := a.log + [Applied(e.run, r.position)], runs := a.runs[e.run := Advanced(r, e.after)])
  }

  function HandleDirect(a: Api, e: Event): Api
    requires e.DirectSet?
  {
    if !a.active || !e.valid || !Idle(a, e.stream) || !Known(a, e.stream) then a
    else if !a.publishers[e.stream].running then a
    else match Prepared(a.streams[e.stream], a.publishers[e.stream].output, e.changes)
      case None => a
      case Some(output) =>
        if e.refused then a
        else
          a.(publishers := a.publishers[e.stream := a.publishers[e.stream].(output := output)],
             log := a.log + [Direct(e.stream)])
  }

  function HandleCancel(a: Api, e: Event): Api
    requires e.Cancel?
  {
    if !a.active || e.run !in a.runs then a
    else a.(runs := a.runs[e.run := Finished(a.runs[e.run], Cancelled)])
  }

  function HandleRelease(a: Api): Api {
    a.(active := false, runs := map id | id in a.runs :: Finished(a.runs[id], Cancelled))
  }

  function Step(a: Api, e: Event): Api {
    match e
    case Start(_, _, _, _, _) => HandleStart(a, e)
    case Fire(_, _, _, _, _) => HandleFire(a, e)
    case Cancel(_) => HandleCancel(a, e)
    case DirectSet(_, _, _, _) => HandleDirect(a, e)
    case Revoke => a.(active := false)
    case Release => HandleRelease(a)
    case Status(stream, running) =>
      if stream in a.publishers then
        a.(publishers := a.publishers[stream := a.publishers[stream].(running := running)])
      else a
  }

  function After(a: Api, es: seq<Event>): Api {
    if es == [] then a else Step(After(a, es[..|es| - 1]), es[|es| - 1])
  }

  // ----------------------------------------------------------- the invariant

  /** The changes of several lists, one after another. */
  function Flat(lists: seq<seq<Change>>): seq<Change> {
    if lists == [] then [] else Flat(lists[..|lists| - 1]) + lists[|lists| - 1]
  }

  predicate AllApply(s: Stream, cs: seq<Change>) { forall c | c in cs :: Applies(s, c) }

  /** A publisher state is another with some changes applied to it. */
  predicate IsFold(s: Stream, start: Snapshot, cs: seq<Change>, snapshot: Snapshot) {
    && AllApply(s, cs) && |start.data| == |s.signals|
    && snapshot == start.(data := ApplyChanges(s, start.data, cs))
  }

  /** The snapshots are the start with ever more of the change lists applied to it. */
  predicate Folds(s: Stream, start: Snapshot, lists: seq<seq<Change>>, snapshots: seq<Snapshot>) {
    |snapshots| == |lists| && forall k | 0 <= k < |lists| :: FoldAt(s, start, lists, snapshots, k)
  }

  predicate FoldAt(s: Stream, start: Snapshot, lists: seq<seq<Change>>, snapshots: seq<Snapshot>, k: nat) {
    k < |lists| == |snapshots| && IsFold(s, start, Flat(lists[..k + 1]), snapshots[k])
  }

  /** The steps of a run that reached its publisher, in the order in which they did. */
  function StepsOf(log: seq<Write>, run: nat): seq<nat> {
    if log == [] then []
    else
      var last := log[|log| - 1];
      StepsOf(log[..|log| - 1], run) + if last.Applied? && last.run == run then [last.step] else []
  }

  function FirstSteps(n: nat): seq<nat> { seq(n, i => i) }

  /** What holds of a sequence by itself. */
  predicate RunOk(s: Stream, r: Run) {
    && |r.snapshots| == |r.at| == |r.changes| && Folds(s, r.start, r.changes, r.snapshots)
    && r.applied <= |r.at|
    && (r.state == Running ==> r.position == r.applied < |r.at|)
    && (r.state == Completed ==> r.applied == |r.at|)
  }

  /** The publisher state a sequence has brought about so far. */
  function Output(r: Run): Snapshot
    requires r.applied <= |r.snapshots|
  {
    if r.applied == 0 then r.start else r.snapshots[r.applied - 1]
  }

  predicate EntryOk(a: Api, id: nat)
    requires id in a.runs
  {
    var r := a.runs[id];
    && r.order == id <= a.next
    && Known(a, r.stream) && RunOk(a.streams[r.stream], r)
    && StepsOf(a.log, id) == FirstSteps(r.applied)
    && (r.state == Running ==> a.publishers[r.stream].output == Output(r))
  }

  /** At most one sequence runs on a stream. */
  predicate Unshared(a: Api) {
    forall i, j | i in a.runs && j in a.runs && a.runs[i].state == a.runs[j].state == Running
      && a.runs[i].stream == a.runs[j].stream :: i == j
  }

  predicate LogOk(a: Api) { forall w | w in a.log && w.Applied? :: w.run <= a.next }

  predicate Inv(a: Api) {
    && (forall id | id in a.runs :: EntryOk(a, id))
    && Unshared(a)
    && |a.runs| <= MAX_SEQUENCES
    && LogOk(a)
  }

  // --------------------------------------------------------- preparing folds

  lemma ApplyLast(s: Stream, data: seq<DataValue>, init: seq<Change>, c: Change)
    requires |data| == |s.signals| && AllApply(s, init) && Applies(s, c)
    ensures AllApply(s, init + [c])
    ensures ApplyChanges(s, data, init + [c]) == ApplyChange(s, ApplyChanges(s, data, init), c)
  {
    hide Applies, ApplyChange;
    assert (init + [c])[..|init|] == init;
  }

  lemma {:induction false} ApplyConcat(s: Stream, data: seq<DataValue>, x: seq<Change>, y: seq<Change>)
    requires |data| == |s.signals| && AllApply(s, x) && AllApply(s, y)
    ensures AllApply(s, x + y)
    ensures ApplyChanges(s, data, x + y) == ApplyChanges(s, ApplyChanges(s, data, x), y)
  {
    if y == [] {
      NothingApplied(s, ApplyChanges(s, data, x));
      assert x + y == x;
    } else {
      var init, c := y[..|y| - 1], y[|y| - 1];
      assert y == init + [c];
      AllApplyParts(s, init, c);
      ApplyConcat(s, data, x, init);
      ApplyLast(s, data, x + init, c);
      ApplyLast(s, ApplyChanges(s, data, x), init, c);
      assert x + y == x + init + [c];
    }
    hide Applies, ApplyChange, ApplyChanges, AllApply;
  }

  lemma AllApplyParts(s: Stream, init: seq<Change>, c: Change)
    requires AllApply(s, init + [c])
    ensures AllApply(s, init) && Applies(s, c)
  {
    hide Applies;
    assert (init + [c])[|init|] == c;
    assert forall x | x in init :: x in init + [c];
  }

  lemma FlatLast(lists: seq<seq<Change>>)
    requires lists != []
    ensures Flat(lists) == Flat(lists[..|lists| - 1]) + lists[|lists| - 1]
  {
  }

  /** What is prepared step by step is the start with the changes applied in sequence. */
  lemma {:induction false} PrepareFolds(s: Stream, current: Snapshot, lists: seq<seq<Change>>)
    requires PrepareAll(s, current, lists).Some?
    ensures Folds(s, current, lists, PrepareAll(s, current, lists).value)
  {
    hide Folds, Acceptable;
    var n := |lists| - 1;
    if lists == [] {
      NothingFolds(s, current);
    } else {
      var init := lists[..n];
      PrepareFolds(s, current, init);
      var snapshots := PrepareAll(s, current, init).value;
      var before := if n == 0 then current else snapshots[n - 1];
      FoldsMore(s, current, init, snapshots, lists[n], before, Prepared(s, before, lists[n]).value);
      assert lists == init + [lists[n]];
    }
  }

  lemma NothingFolds(s: Stream, current: Snapshot)
    ensures Folds(s, current, [], [])
  {
  }

  lemma FoldsMore(s: Stream, start: Snapshot, lists: seq<seq<Change>>, snapshots: seq<Snapshot>, more: seq<Change>,
                  before: Snapshot, next: Snapshot)
    requires Folds(s, start, lists, snapshots) && before == if lists == [] then start else snapshots[|lists| - 1]
    requires Prepared(s, before, more) == Some(next)
    ensures Folds(s, start, lists + [more], snapshots + [next])
  {
    var n, all := |lists|, lists + [more];
    FirstFold(s, start, lists, snapshots, more);
    FoldMore(s, start, Flat(lists), before, more);
    LastFold(s, start, lists, snapshots, more, next);
    hide IsFold, FoldAt, Prepared, Flat;
    forall k | 0 <= k <= n ensures FoldAt(s, start, all, snapshots + [next], k) {
      if k < n { EarlierFold(s, start, lists, snapshots, more, next, k); }
    }
  }

  lemma EarlierFold(s: Stream, start: Snapshot, lists: seq<seq<Change>>, snapshots: seq<Snapshot>,
                    more: seq<Change>, next: Snapshot, k: nat)
    requires FoldAt(s, start, lists, snapshots, k)
    ensures FoldAt(s, start, lists + [more], snapshots + [next], k)
  {
    hide IsFold, Flat;
    assert (lists + [more])[..k + 1] == lists[..k + 1];
  }

  lemma LastFold(s: Stream, start: Snapshot, lists: seq<seq<Change>>, snapshots: seq<Snapshot>, more: seq<Change>,
                 next: Snapshot)
    requires |snapshots| == |lists| && IsFold(s, start, Flat(lists) + more, next)
    ensures FoldAt(s, start, lists + [more], snapshots + [next], |lists|)
  {
    hide IsFold;
    var all := lists + [more];
    FlatLast(all);
    assert all[..|lists|] == lists && all[..|lists| + 1] == all;
  }

  lemma FirstFold(s: Stream, start: Snapshot, lists: seq<seq<Change>>, snapshots: seq<Snapshot>, more: seq<Change>)
    requires Folds(s, start, lists, snapshots)
    requires Prepared(s, if lists == [] then start else snapshots[|lists| - 1], more).Some?
    ensures IsFold(s, start, Flat(lists), if lists == [] then start else snapshots[|lists| - 1])
  {
    EmptyFlat();
    NothingApplied(s, start.data);
    hide FitsMtu, DistinctSignals, Flat, ApplyChanges, AllApply, Applies;
    var n := |lists|;
    if n > 0 { assert FoldAt(s, start, lists, snapshots, n - 1) && lists[..(n - 1) + 1] == lists; }
  }

  lemma FoldMore(s: Stream, start: Snapshot, cs: seq<Change>, before: Snapshot, more: seq<Change>)
    requires IsFold(s, start, cs, before) && Prepared(s, before, more).Some?
    ensures IsFold(s, start, cs + more, Prepared(s, before, more).value)
  {
    ApplyConcat(s, start.data, cs, more);
    hide FitsMtu, DistinctSignals, ApplyChanges, Applies;
  }

  lemma EmptyFlat()
    ensures Flat([]) == []
  {
  }

  lemma NothingApplied(s: Stream, data: seq<DataValue>)
    ensures AllApply(s, [])
    ensures |data| == |s.signals| ==> ApplyChanges(s, data, []) == data
  {
  }

  // --------------------------------------------------------------- the steps

  lemma StepsOfOther(log: seq<Write>, w: Write, run: nat)
    requires !(w.Applied? && w.run == run)
    ensures StepsOf(log + [w], run) == StepsOf(log, run)
  {
    assert (log + [w])[..|log|] == log;
  }

  lemma StepsOfOwn(log: seq<Write>, run: nat, step: nat)
    requires StepsOf(log, run) == FirstSteps(step)
    ensures StepsOf(log + [Applied(run, step)], run) == FirstSteps(step + 1)
  {
    assert (log + [Applied(run, step)])[..|log|] == log;
  }

  lemma {:induction false} StepsOfNone(log: seq<Write>, run: nat)
    requires forall w | w in log && w.Applied? :: w.run != run
    ensures StepsOf(log, run) == []
  {
    if log != [] { StepsOfNone(log[..|log| - 1], run); }
  }

  /** An entry stays in order as long as nobody else writes to its publisher. */
  lemma EntryKept(a: Api, b: Api, id: nat)
    requires id in a.runs && EntryOk(a, id) && id in b.runs
    requires b.runs[id] == a.runs[id] || b.runs[id] == Finished(a.runs[id], Cancelled)
    requires b.streams == a.streams && b.publishers.Keys == a.publishers.Keys && a.next <= b.next
    requires StepsOf(b.log, id) == StepsOf(a.log, id)
    requires b.runs[id].state == Running ==>
      var stream := a.runs[id].stream; b.publishers[stream].output == a.publishers[stream].output
    ensures EntryOk(b, id)
  {
    hide Folds, StepsOf, FirstSteps;
  }

  /** No entry starts running, or moves to another stream. */
  lemma UnsharedKept(a: Api, b: Api)
    requires Unshared(a)
    requires forall id | id in b.runs ::
      && id in a.runs && b.runs[id].stream == a.runs[id].stream
      && (b.runs[id].state == Running ==> a.runs[id].state == Running)
    ensures Unshared(b)
  {
  }

  lemma StatusInv(a: Api, e: Event)
    requires Inv(a) && e.Status?
    ensures Inv(Step(a, e))
  {
    hide EntryOk, HandleStart, HandleFire, HandleDirect, HandleCancel, HandleRelease, Output, Known, Unshared;
    var b := Step(a, e);
    UnsharedKept(a, b);
    forall id | id in b.runs ensures EntryOk(b, id) { EntryKnown(a, id); EntryKept(a, b, id); }
  }

  lemma EntryKnown(a: Api, id: nat)
    requires id in a.runs && EntryOk(a, id)
    ensures Known(a, a.runs[id].stream) && a.runs[id].order == id <= a.next
  {
    hide RunOk, StepsOf, FirstSteps;
  }

  lemma CancelInv(a: Api, e: Event)
    requires Inv(a) && e.Cancel?
    ensures Inv(Step(a, e))
  {
    hide EntryOk, HandleStart, HandleFire, HandleDirect, HandleRelease, Known, Unshared;
    var b := Step(a, e);
    UnsharedKept(a, b);
    forall id | id in b.runs ensures EntryOk(b, id) { EntryKnown(a, id); EntryKept(a, b, id); }
    assert b.runs.Keys == a.runs.Keys;
    SameSize(a.runs, b.runs);
  }

  lemma SameSize(m: map<nat, Run>, n: map<nat, Run>)
    requires m.Keys == n.Keys
    ensures |m| == |n|
  {
    assert |m| == |m.Keys| && |n| == |n.Keys|;
  }

  lemma RevokeInv(a: Api)
    requires Inv(a)
    ensures Inv(a.(active := false))
  {
    var b := a.(active := false);
    forall id | id in b.runs ensures EntryOk(b, id) { assert EntryOk(a, id); }
    hide RunOk, StepsOf, FirstSteps, Output;
  }

  lemma ReleaseInv(a: Api, e: Event)
    requires Inv(a) && e.Release?
    ensures Inv(Step(a, e))
  {
    hide EntryOk, HandleStart, HandleFire, HandleDirect, HandleCancel, Known, Unshared;
    var b := Step(a, e);
    UnsharedKept(a, b);
    forall id | id in b.runs ensures EntryOk(b, id) { EntryKnown(a, id); EntryKept(a, b, id); }
    SameSize(a.runs, b.runs);
  }

  lemma DirectInv(a: Api, e: Event)
    requires Inv(a) && e.DirectSet?
    ensures Inv(Step(a, e))
  {
    hide EntryOk, HandleStart, HandleFire, HandleCancel, HandleRelease, Prepared, StepsOf, Unshared;
    var b := Step(a, e);
    UnsharedKept(a, b);
    if b != a {
      forall id | id in b.runs ensures EntryOk(b, id) {
        EntryKnown(a, id);
        StepsOfOther(a.log, Direct(e.stream), id);
        EntryKept(a, b, id);
      }
    }
  }

  /** The entry whose step was fired. */
  lemma FiredEntry(a: Api, e: Event)
    requires e.Fire? && e.run in a.runs && EntryOk(a, e.run) && a.runs[e.run].state == Running
    ensures var b := HandleFire(a, e);
      && e.run in b.runs && EntryOk(b, e.run)
      && b.runs[e.run].stream == a.runs[e.run].stream
  {
    hide Folds, StepsOf, FirstSteps, TooLate, RunOk, Advanced, Finished;
    var r := a.runs[e.run];
    FiredRunOk(a.streams[r.stream], r, e.after);
    StepsOfOwn(a.log, e.run, r.position);
  }

  /** The sequence itself, whether its step was applied or it failed. */
  lemma FiredRunOk(s: Stream, r: Run, after: int)
    requires RunOk(s, r) && r.state == Running
    ensures r.position == r.applied < |r.at| == |r.snapshots|
    ensures var f := Finished(r, Failed);
      RunOk(s, f) && f.state == Failed && f.(state := r.state) == r
    ensures var n := Advanced(r, after);
      && RunOk(s, n) && n.applied == r.applied + 1 && n.order == r.order && n.stream == r.stream
      && (n.state == Running ==> Output(n) == r.snapshots[r.position])
  {
    hide Folds;
  }

  /** What firing leaves alone. */
  lemma FiredOthers(a: Api, e: Event, id: nat)
    requires Inv(a) && e.Fire? && e.run in a.runs && a.runs[e.run].state == Running
    requires id in a.runs && id != e.run
    ensures var b := HandleFire(a, e); id in b.runs && EntryOk(b, id)
  {
    var b, r := HandleFire(a, e), a.runs[e.run];
    EntryKnown(a, id);
    StepsOfOther(a.log, Applied(e.run, r.position), id);
    hide StepsOf, TooLate, Advanced, Finished, EntryOk, Known;
    EntryKept(a, b, id);
  }

  lemma FireInv(a: Api, e: Event)
    requires Inv(a) && e.Fire?
    ensures Inv(Step(a, e))
  {
    if e.run in a.runs && a.runs[e.run].state == Running {
      FiredEntry(a, e);
      FiredFrame(a, e);
      var b := HandleFire(a, e);
      forall id | id in b.runs ensures EntryOk(b, id) {
        if id != e.run { FiredOthers(a, e, id); }
      }
      hide EntryOk, HandleFire, Unshared, LogOk;
      UnsharedKept(a, b);
      SameSize(a.runs, b.runs);
    }
  }

  lemma AdvancedFacts(r: Run, after: int)
    requires r.position < |r.at|
    ensures Advanced(r, after).stream == Finished(r, Failed).stream == r.stream
    ensures Finished(r, Failed).state != Running
  {
  }

  lemma FiredFrame(a: Api, e: Event)
    requires Inv(a) && e.Fire? && e.run in a.runs && a.runs[e.run].state == Running
    ensures var b := HandleFire(a, e);
      && b.runs.Keys == a.runs.Keys && LogOk(b)
      && (forall id | id in b.runs :: b.runs[id].stream == a.runs[id].stream
            && (b.runs[id].state == Running ==> a.runs[id].state == Running))
  {
    EntryKnown(a, e.run);
    var r := a.runs[e.run];
    if r.position < |r.at| { AdvancedFacts(r, e.after); }
    hide EntryOk, TooLate, Known, Unshared, Advanced, Finished;
  }

  lemma {:induction false} OldestExists(runs: map<nat, Run>, k: nat, next: nat)
    ensures OldestFinished(runs, k, next).Some? ==> OldestFinished(runs, k, next).value >= k
    ensures var r := OldestFinished(runs, k, next);
      forall id | id in runs && k <= id && (r.Some? ==> id < r.value) && id <= next :: runs[id].state == Running
    decreases next - k
  {
    if !(k in runs && runs[k].state != Running) && k < next { OldestExists(runs, k + 1, next); }
  }

  /** Making room never costs a running sequence, and costs the oldest finished one. */
  lemma EvictionSpares(runs: map<nat, Run>, next: nat)
    requires |runs| <= MAX_SEQUENCES && forall id | id in runs :: id <= next
    ensures var r := Evicted(runs, next);
      && (r.None? <==> |runs| == MAX_SEQUENCES && forall id | id in runs :: runs[id].state == Running)
      && (r.Some? ==>
            |r.value| < MAX_SEQUENCES
            && (forall id | id in r.value :: id in runs && r.value[id] == runs[id])
            && forall id | id in runs && id !in r.value ::
                 && runs[id].state != Running
                 && forall older | older in runs && older < id :: runs[older].state == Running)
  {
    OldestExists(runs, 0, next);
    match OldestFinished(runs, 0, next)
    case None =>
    case Some(k) => assert |(runs - {k}).Keys| == |runs.Keys - {k}| && (runs - {k}).Keys == runs.Keys - {k};
  }

  lemma StartInv(a: Api, e: Event)
    requires Inv(a) && e.Start?
    ensures Inv(Step(a, e))
  {
    InvParts(a);
    hide Inv, EntryOk, NewRun, Evicted, StepsOf, LogOk, Added;
    EvictionSpares(a.runs, a.next);
    match NewRun(a, e) {
      case None =>
      case Some(run) =>
        match Evicted(a.runs, a.next) {
          case None =>
          case Some(runs) =>
            NewRunFacts(a, e, run);
            StartedOk(a, run, runs);
        }
    }
  }

  lemma InvParts(a: Api)
    requires Inv(a)
    ensures LogOk(a) && Unshared(a) && |a.runs| <= MAX_SEQUENCES
    ensures forall id | id in a.runs :: EntryOk(a, id)
    ensures forall id | id in a.runs :: id <= a.next
  {
    forall id | id in a.runs ensures id <= a.next { EntryKnown(a, id); }
    hide EntryOk, Unshared, LogOk;
  }

  predicate NewOk(a: Api, r: Run) {
    && a.active && Known(a, r.stream) && Idle(a, r.stream) && a.publishers[r.stream].output == r.start
    && r.order == a.next + 1 && r.state == Running && r.position == r.applied == 0
    && RunOk(a.streams[r.stream], r)
  }

  lemma NewRunFacts(a: Api, e: Event, r: Run)
    requires e.Start? && NewRun(a, e) == Some(r)
    ensures NewOk(a, r)
  {
    match PrepareAll(a.streams[e.stream], a.publishers[e.stream].output, Lists(e.steps))
    case None =>
    case Some(snapshots) =>
      PrepareFolds(a.streams[e.stream], a.publishers[e.stream].output, Lists(e.steps));
      hide Folds, PrepareAll, Deadlines, DelaysValid, Lists, Delays, Idle;
  }

  lemma AddedEntry(a: Api, r: Run, runs: map<nat, Run>)
    requires NewOk(a, r) && LogOk(a)
    ensures EntryOk(Added(a, runs, r), a.next + 1)
  {
    StepsOfNone(a.log, a.next + 1);
    assert FirstSteps(0) == [];
    hide Folds, StepsOf, Idle, LogOk;
  }

  lemma AddedOther(a: Api, r: Run, runs: map<nat, Run>, id: nat)
    requires id in runs && id in a.runs && runs[id] == a.runs[id] && EntryOk(a, id)
    ensures EntryOk(Added(a, runs, r), id)
  {
    EntryKnown(a, id);
    hide EntryOk, StepsOf, Known;
    EntryKept(a, Added(a, runs, r), id);
  }

  lemma AddedUnshared(a: Api, r: Run, runs: map<nat, Run>)
    requires Unshared(a) && Idle(a, r.stream) && forall id | id in runs :: id in a.runs && runs[id] == a.runs[id]
    ensures Unshared(Added(a, runs, r))
  {
  }

  lemma AddedSize(a: Api, r: Run, runs: map<nat, Run>)
    requires |runs| < MAX_SEQUENCES
    ensures |Added(a, runs, r).runs| <= MAX_SEQUENCES
  {
    var b := Added(a, runs, r);
    assert b.runs.Keys == runs.Keys + {a.next + 1};
    assert |b.runs| == |b.runs.Keys| && |runs| == |runs.Keys|;
  }

  lemma StartedOk(a: Api, r: Run, runs: map<nat, Run>)
    requires Inv(a) && |runs| < MAX_SEQUENCES && NewOk(a, r)
    requires forall id | id in runs :: id in a.runs && runs[id] == a.runs[id]
    ensures Inv(Added(a, runs, r))
  {
    InvParts(a);
    AddedEntry(a, r, runs);
    AddedUnshared(a, r, runs);
    AddedSize(a, r, runs);
    var b := Added(a, runs, r);
    hide EntryOk, Unshared, RunOk, Known, Idle;
    forall id | id in b.runs ensures EntryOk(b, id) {
      if id != a.next + 1 { AddedOther(a, r, runs, id); }
    }
  }

  lemma StepInv(a: Api, e: Event)
    requires Inv(a)
    ensures Inv(Step(a, e))
  {
    match e
    case Start(_, _, _, _, _) => StartInv(a, e);
    case Fire(_, _, _, _, _) => FireInv(a, e);
    case Cancel(_) => CancelInv(a, e);
    case DirectSet(_, _, _, _) => DirectInv(a, e);
    case Revoke => RevokeInv(a);
    case Release => ReleaseInv(a, e);
    case Status(_, _) => StatusInv(a, e);
    hide *;
  }

  function Fresh(streams: map<nat, Stream>, publishers: map<nat, Publisher>): Api {
    Api(streams, publishers, map[], 0, true, [])
  }

  /** In every run of the machine, whatever starts, fires, cancels, sets and releases in
      whatever order: of every sequence the steps that reached the publisher are a prefix of
      its steps, in order and each once; while it runs, the publisher's state is the state at
      its start with the changes of just those steps applied; a completed one applied them
      all; at most one runs on a stream; and the table keeps at most 64. */
  lemma {:induction false} RunInv(streams: map<nat, Stream>, publishers: map<nat, Publisher>, es: seq<Event>)
    ensures Inv(After(Fresh(streams, publishers), es))
  {
    hide Inv, Step;
    if es == [] {
      FreshInv(streams, publishers);
    } else {
      RunInv(streams, publishers, es[..|es| - 1]);
      StepInv(After(Fresh(streams, publishers), es[..|es| - 1]), es[|es| - 1]);
    }
  }

  lemma FreshInv(streams: map<nat, Stream>, publishers: map<nat, Publisher>)
    ensures Inv(Fresh(streams, publishers))
  {
  }

  /** The invariant's promise about a running sequence, spelt out. */
  lemma SequentialApplication(a: Api, id: nat)
    requires Inv(a) && id in a.runs && a.runs[id].state == Running && 0 < a.runs[id].applied
    ensures var r := a.runs[id];
      var s := a.streams[r.stream];
      var cs := Flat(r.changes[..r.applied]);
      && AllApply(s, cs) && |r.start.data| == |s.signals|
      && a.publishers[r.stream].output == r.start.(data := ApplyChanges(s, r.start.data, cs))
  {
    hide StepsOf, ApplyChanges, Flat, Applies;
    assert EntryOk(a, id);
    var r := a.runs[id];
    assert FoldAt(a.streams[r.stream], r.start, r.changes, r.snapshots, r.applied - 1);
  }

  // ----------------------------------------------------------------- fencing

  /** The sequence has ended, whether or not the table still remembers it. */
  predicate Ended(a: Api, id: nat) { id <= a.next && (id in a.runs ==> a.runs[id].state != Running) }

  lemma EndedStep(a: Api, e: Event, id: nat)
    requires Inv(a) && Ended(a, id)
    ensures var b := Step(a, e);
      && Ended(b, id) && StepsOf(b.log, id) == StepsOf(a.log, id)
      && (id in b.runs ==> id in a.runs && b.runs[id] == a.runs[id])
  {
    match e
    case Start(_, _, _, _, _) => EndedStart(a, e, id);
    case Fire(_, _, _, _, _) => EndedFire(a, e, id);
    case DirectSet(_, _, _, _) => EndedDirect(a, e, id);
    case Cancel(_) => EndedOther(a, e, id);
    case Revoke => EndedOther(a, e, id);
    case Release => EndedOther(a, e, id);
    case Status(_, _) => EndedOther(a, e, id);
    hide *;
  }

  lemma EndedFire(a: Api, e: Event, id: nat)
    requires Ended(a, id) && e.Fire?
    ensures var b := Step(a, e);
      && Ended(b, id) && StepsOf(b.log, id) == StepsOf(a.log, id)
      && (id in b.runs ==> id in a.runs && b.runs[id] == a.runs[id])
  {
    if e.run in a.runs && e.run != id { StepsOfOther(a.log, Applied(e.run, a.runs[e.run].position), id); }
    hide StepsOf, TooLate, Advanced, Finished, Known, HandleStart, HandleDirect, HandleCancel, HandleRelease;
  }

  lemma EndedDirect(a: Api, e: Event, id: nat)
    requires Ended(a, id) && e.DirectSet?
    ensures var b := Step(a, e);
      && Ended(b, id) && StepsOf(b.log, id) == StepsOf(a.log, id)
      && (id in b.runs ==> id in a.runs && b.runs[id] == a.runs[id])
  {
    StepsOfOther(a.log, Direct(e.stream), id);
    hide StepsOf, Prepared, Idle, Known, HandleStart, HandleFire, HandleCancel, HandleRelease;
  }

  lemma EndedOther(a: Api, e: Event, id: nat)
    requires Ended(a, id) && (e.Cancel? || e.Revoke? || e.Release? || e.Status?)
    ensures var b := Step(a, e);
      && Ended(b, id) && StepsOf(b.log, id) == StepsOf(a.log, id)
      && (id in b.runs ==> id in a.runs && b.runs[id] == a.runs[id])
  {
    hide StepsOf, HandleStart, HandleFire, HandleDirect;
  }

  lemma EndedStart(a: Api, e: Event, id: nat)
    requires Inv(a) && Ended(a, id) && e.Start?
    ensures var b := HandleStart(a, e);
      && Ended(b, id) && b.log == a.log && (id in b.runs ==> id in a.runs && b.runs[id] == a.runs[id])
  {
    InvParts(a);
    EvictionSpares(a.runs, a.next);
    hide Inv, NewRun, Evicted;
  }

  /** After its completion, failure, cancellation or release no further step of a sequence is
      ever applied, and its record never changes while it lasts. */
  lemma {:induction false} EndedForever(a: Api, es: seq<Event>, id: nat)
    requires Inv(a) && Ended(a, id)
    ensures var b := After(a, es);
      && Inv(b) && Ended(b, id) && StepsOf(b.log, id) == StepsOf(a.log, id)
      && (id in b.runs ==> id in a.runs && b.runs[id] == a.runs[id])
  {
    hide Inv, Step, StepsOf, Ended;
    if es != [] {
      var m, e := After(a, es[..|es| - 1]), es[|es| - 1];
      EndedForever(a, es[..|es| - 1], id);
      EndedStep(m, e, id);
      StepInv(m, e);
    }
  }

  /** While a sequence runs, nothing but its own steps changes its publisher's state. */
  lemma OnlyOwner(a: Api, e: Event, id: nat)
    requires Inv(a) && id in a.runs && a.runs[id].state == Running
    ensures var stream := a.runs[id].stream;
      && stream in a.publishers && stream in Step(a, e).publishers
      && (Step(a, e).publishers[stream].output != a.publishers[stream].output ==> e.Fire? && e.run == id)
  {
    EntryKnown(a, id);
    hide EntryOk, TooLate, Advanced, Prepared, NewRun, Evicted, Finished;
  }

  /** Once control is revoked nothing is written any more, in any run from there, although
      sequences go on running until the release. */
  lemma {:induction false} ReleasedForever(a: Api, es: seq<Event>)
    requires Inv(a) && !a.active
    ensures var b := After(a, es);
      && Inv(b) && !b.active && b.log == a.log && b.publishers.Keys == a.publishers.Keys
      && forall stream | stream in a.publishers :: b.publishers[stream].output == a.publishers[stream].output
  {
    hide Inv, Step;
    if es != [] {
      var m, e := After(a, es[..|es| - 1]), es[|es| - 1];
      ReleasedForever(a, es[..|es| - 1]);
      ReleasedStep(m, e);
      StepInv(m, e);
    }
  }

  lemma ReleasedStep(a: Api, e: Event)
    requires Inv(a) && !a.active
    ensures var b := Step(a, e);
      && !b.active && b.log == a.log && b.publishers.Keys == a.publishers.Keys
      && forall stream | stream in a.publishers :: b.publishers[stream].output == a.publishers[stream].output
  {
    hide EntryOk, Advanced, Prepared, PrepareAll, Evicted, Finished, Idle;
  }
}
