/** The automation API as it stores its state: sequence records in a map, each referred to by
    the goroutine that executes it. Every operation is a step of the machine in
    TimedSequence. */
module SequenceApi {
  import opened Wrappers
  import opened TimedSequence

  class SequenceRun {
    const order: nat
    const stream: nat
    const at: seq<int>
    const limit: int
    const startedAt: int
    const snapshots: seq<Snapshot>
    ghost const start: Snapshot
    ghost const changes: seq<seq<Change>>
    var state: RunState
    var applied: nat
    // the loop variable of the goroutine
    var position: nat

    ghost function Value(): Run
      reads this
    {
      Run(order, stream, state, at, limit, startedAt, snapshots, position, applied, start, changes)
    }

    constructor (order: nat, stream: nat, at: seq<int>, limit: int, startedAt: int, snapshots: seq<Snapshot>,
                 ghost start: Snapshot, ghost changes: seq<seq<Change>>)
      ensures Value() == Run(order, stream, Running, at, limit, startedAt, snapshots, 0, 0, start, changes)
    {
      this.order, this.stream, this.at, this.limit, this.startedAt := order, stream, at, limit, startedAt;
      this.snapshots, this.start, this.changes := snapshots, start, changes;
      state, applied, position := Running, 0, 0;
    }

    method Finish(to: RunState)
      modifies this`state
      ensures Value() == Finished(old(Value()), to)
    {
      if state != Running { return; }
      state := to;
    }

    /** The step at the position was applied. */
    method Advance(after: int)
      requires position < |at| && state == Running
      modifies this
      ensures Value() == Advanced(old(Value()), after)
    {
      applied := applied + 1;
      var lateness := after - (startedAt + at[position]);
      if lateness > limit * MILLISECOND {
        Finish(Failed);
      } else if position + 1 == |at| {
        Finish(Completed);
      } else {
        position := position + 1;
      }
    }
  }

  ghost function TableOf(sequences: map<nat, SequenceRun>): map<nat, Run>
    reads sequences.Values
  {
    map id | id in sequences :: sequences[id].Value()
  }

  lemma EntryValues(sequences: map<nat, SequenceRun>)
    ensures TableOf(sequences).Keys == sequences.Keys
    ensures forall id | id in sequences :: TableOf(sequences)[id] == sequences[id].Value()
  {
  }

  /** Snapshots for the steps of a request. */
  method PrepareSteps(s: Stream, current: Snapshot, lists: seq<seq<Change>>) returns (r: Option<seq<Snapshot>>)
    ensures r == PrepareAll(s, current, lists)
  {
    hide Prepared;
    var snapshots: seq<Snapshot>, last := [], current;
    assert lists[..0] == [];
    for i := 0 to |lists|
      invariant PrepareAll(s, current, lists[..i]) == Some(snapshots)
      invariant last == if i == 0 then current else snapshots[i - 1]
    {
      assert lists[..i + 1][..i] == lists[..i];
      var next := PrepareGoose(s, last, lists[i]);
      if next.None? {
        NothingPrepared(s, current, lists, i + 1);
        return None;
      }
      last := next.value;
      snapshots := snapshots + [last];
    }
    assert lists[..|lists|] == lists;
    return Some(snapshots);
  }

  lemma {:induction false} NothingPrepared(s: Stream, current: Snapshot, lists: seq<seq<Change>>, n: nat)
    requires n <= |lists| && PrepareAll(s, current, lists[..n]).None?
    ensures PrepareAll(s, current, lists).None?
    decreases |lists| - n
  {
    hide Prepared;
    if n == |lists| {
      assert lists[..n] == lists;
    } else {
      assert lists[..n + 1][..n] == lists[..n];
      NothingPrepared(s, current, lists, n + 1);
    }
  }

  class Service {
    const streams: map<nat, Stream>
    var publishers: map<nat, Publisher>
    var sequences: map<nat, SequenceRun>
    var nextSequence: nat
    var active: bool
    ghost var log: seq<Write>

    ghost predicate Valid()
      reads this
    {
      forall id | id in sequences :: sequences[id].order == id <= nextSequence
    }

    ghost function Value(): Api
      reads this, sequences.Values
    {
      Api(streams, publishers, TableOf(sequences), nextSequence, active, log)
    }

    constructor (streams: map<nat, Stream>, publishers: map<nat, Publisher>)
      ensures Valid() && Value() == Fresh(streams, publishers)
      ensures sequences == map[]
    {
      this.streams, this.publishers, sequences := streams, publishers, map[];
      nextSequence, active, log := 0, true, [];
    }

    method StreamIdle(stream: nat) returns (idle: bool)
      ensures idle == Idle(Value(), stream)
    {
      EntryValues(sequences);
      var keys := sequences.Keys;
      while keys != {}
        invariant keys <= sequences.Keys
        invariant forall id | id in sequences && id !in keys ::
          !(sequences[id].stream == stream && sequences[id].state == Running)
        decreases |keys|
      {
        var id :| id in keys;
        keys := keys - {id};
        if sequences[id].stream == stream && sequences[id].state == Running { return false; }
      }
      return true;
    }

    /** The finished sequence that started first. */
    method OldestRun() returns (oldest: Option<nat>)
      requires Valid()
      ensures oldest == OldestFinished(TableOf(sequences), 0, nextSequence)
    {
      oldest := None;
      var keys := sequences.Keys;
      while keys != {}
        invariant keys <= sequences.Keys
        invariant oldest.Some? ==> oldest.value in sequences && sequences[oldest.value].state != Running
        invariant forall id | id in sequences && id !in keys && sequences[id].state != Running ::
          oldest.Some? && oldest.value <= id
        decreases |keys|
      {
        var id :| id in keys;
        keys := keys - {id};
        var run := sequences[id];
        if run.state != Running && (oldest.None? || run.order < oldest.value) { oldest := Some(run.order); }
      }
      EntryValues(sequences);
      OldestIs(TableOf(sequences), 0, nextSequence, oldest);
    }

    /** Drops a finished sequence if the table is full. */
    method MakeRoom() returns (room: bool)
      requires Valid()
      modifies this`sequences
      ensures Valid() && sequences.Values <= old(sequences.Values)
      ensures match Evicted(old(TableOf(sequences)), nextSequence)
        case None => !room && sequences == old(sequences)
        case Some(runs) => room && TableOf(sequences) == runs
    {
      EntryValues(sequences);
      ghost var table := TableOf(sequences);
      assert |table| == |table.Keys| == |sequences.Keys| == |sequences|;
      if |sequences| < MAX_SEQUENCES { return true; }
      var oldest := OldestRun();
      if oldest.None? { return false; }
      sequences := sequences - {oldest.value};
      assert TableOf(sequences) == table - {oldest.value};
      return true;
    }

    method StartSequence(run: SequenceRun)
      requires Valid() && run.order == nextSequence + 1 && run !in sequences.Values
      modifies this`sequences, this`nextSequence
      ensures Valid()
      ensures Value() == match Evicted(old(TableOf(sequences)), old(nextSequence))
        case None => old(Value())
        case Some(runs) => Added(old(Value()), runs, run.Value())
      ensures sequences.Values <= old(sequences.Values) + {run}
    {
      hide Evicted;
      var room := MakeRoom();
      if !room { return; }
      nextSequence := nextSequence + 1;
      Insert(run);
    }

    method Insert(run: SequenceRun)
      modifies this`sequences
      ensures sequences == old(sequences)[run.order := run]
      ensures TableOf(sequences) == old(TableOf(sequences))[run.order := run.Value()]
    {
      sequences := sequences[run.order := run];
    }

    method TimedGooseSet(stream: nat, valid: bool, steps: seq<StepRequest>, requested: Option<int>, now: int)
      requires Valid()
      modifies this`sequences, this`nextSequence
      ensures Valid() && fresh(sequences.Values - old(sequences.Values))
      ensures Value() == HandleStart(old(Value()), Start(stream, valid, steps, requested, now))
    {
      hide PrepareAll, ScheduleValid, Deadlines, Limit, Evicted, Added;
      if !active || !valid { return; }
      var idle := StreamIdle(stream);
      if !idle { return; }
      if stream !in streams || stream !in publishers { return; }
      var schedule := SequenceSchedule(Delays(steps), requested);
      if schedule.None? { return; }
      if !publishers[stream].running { return; }
      var current := publishers[stream].output;
      var snapshots := PrepareSteps(streams[stream], current, Lists(steps));
      if snapshots.None? { return; }
      var run := new SequenceRun(nextSequence + 1, stream, schedule.value.0, schedule.value.1, now, snapshots.value,
                                 current, Lists(steps));
      StartSequence(run);
    }

    /** One turn of the goroutine of a sequence, which may have left the table by then. */
    method Execute(run: SequenceRun, valid: bool, now: int, refused: bool, after: int)
      requires Valid()
      requires if run.order in sequences then sequences[run.order] == run else run.state != Running
      requires run.position < |run.at| == |run.snapshots|
      modifies this`publishers, this`log, run
      ensures Valid()
      ensures Value() == HandleFire(old(Value()), Fire(run.order, valid, now, refused, after))
    {
      EntryValues(sequences);
      if run.state != Running { return; }
      var ok := MayApply(run, valid, now, refused, after);
      if ok { ApplyStep(run, after); } else { Fail(run); }
    }

    /** The step at the run's position is still in time, and its publisher takes it. */
    method MayApply(run: SequenceRun, valid: bool, now: int, refused: bool, ghost after: int) returns (ok: bool)
      requires run.position < |run.at|
      ensures ok <==>
        !TooLate(Value(), run.Value(), Fire(run.order, valid, now, refused, after))
        && Known(Value(), run.stream) && publishers[run.stream].running && !refused
    {
      hide TableOf;
      if !active || !valid { return false; }
      var i := run.position;
      var lateness := now - (run.startedAt + run.at[i]);
      if lateness > run.limit * MILLISECOND { return false; }
      if i + 1 < |run.at| && run.startedAt + run.at[i + 1] <= now { return false; }
      if run.stream !in streams || run.stream !in publishers { return false; }
      return publishers[run.stream].running && !refused;
    }

    method Fail(run: SequenceRun)
      requires Valid() && run.order in sequences && sequences[run.order] == run
      modifies run`state
      ensures Value() == old(Value()).(runs := old(TableOf(sequences))[run.order := Finished(old(run.Value()), Failed)])
    {
      ghost var table := TableOf(sequences);
      run.Finish(Failed);
      assert TableOf(sequences) == table[run.order := run.Value()];
    }

    method ApplyStep(run: SequenceRun, after: int)
      requires Valid() && run.order in sequences && sequences[run.order] == run
      requires run.stream in publishers && run.position < |run.at| == |run.snapshots| && run.state == Running
      modifies this`publishers, this`log, run
      ensures publishers == old(publishers)[run.stream :=
        old(publishers)[run.stream].(output := run.snapshots[old(run.position)])]
      ensures log == old(log) + [Applied(run.order, old(run.position))]
      ensures TableOf(sequences) == old(TableOf(sequences))[run.order := Advanced(old(run.Value()), after)]
    {
      hide Advanced;
      ghost var table := TableOf(sequences);
      publishers := publishers[run.stream := publishers[run.stream].(output := run.snapshots[run.position])];
      log := log + [Applied(run.order, run.position)];
      run.Advance(after);
      assert TableOf(sequences) == table[run.order := run.Value()];
    }

    method CancelSequence(id: nat)
      requires Valid()
      modifies sequences.Values
      ensures Valid() && Value() == HandleCancel(old(Value()), Cancel(id))
    {
      EntryValues(sequences);
      if !active || id !in sequences { return; }
      ghost var table := TableOf(sequences);
      sequences[id].Finish(Cancelled);
      assert TableOf(sequences) == table[id := sequences[id].Value()];
    }

    /** Takes no lock. */
    method Revoke()
      requires Valid()
      modifies this`active
      ensures Valid() && Value() == Step(old(Value()), Event.Revoke)
    {
      active := false;
    }

    method ReleaseControl()
      requires Valid()
      modifies this`active, sequences.Values
      ensures Valid() && Value() == HandleRelease(old(Value()))
    {
      Revoke();
      FinishAll();
    }

    method FinishAll()
      requires Valid()
      modifies sequences.Values
      ensures forall id | id in sequences :: sequences[id].Value() == Finished(old(sequences[id].Value()), Cancelled)
    {
      hide Finished;
      var keys := sequences.Keys;
      while keys != {}
        invariant keys <= sequences.Keys
        invariant forall id | id in keys :: sequences[id].Value() == old(sequences[id].Value())
        invariant forall id | id in sequences && id !in keys ::
          sequences[id].Value() == Finished(old(sequences[id].Value()), Cancelled)
        decreases |keys|
      {
        var id :| id in keys;
        keys := keys - {id};
        sequences[id].Finish(Cancelled);
      }
    }

    method GooseSet(stream: nat, valid: bool, changes: seq<Change>, refused: bool)
      requires Valid()
      modifies this`publishers, this`log
      ensures Valid() && Value() == HandleDirect(old(Value()), DirectSet(stream, valid, changes, refused))
    {
      hide Prepared;
      if !active || !valid { return; }
      var idle := StreamIdle(stream);
      if !idle { return; }
      if stream !in streams || stream !in publishers { return; }
      if !publishers[stream].running { return; }
      var next := PrepareGoose(streams[stream], publishers[stream].output, changes);
      if next.None? || refused { return; }
      publishers := publishers[stream := publishers[stream].(output := next.value)];
      log := log + [Direct(stream)];
    }
  }

  lemma {:induction false} OldestIs(runs: map<nat, Run>, k: nat, next: nat, oldest: Option<nat>)
    requires forall id | id in runs :: id <= next
    requires oldest.Some? ==> oldest.value in runs && runs[oldest.value].state != Running && k <= oldest.value
    requires forall id | id in runs && k <= id && runs[id].state != Running :: oldest.Some? && oldest.value <= id
    ensures oldest == OldestFinished(runs, k, next)
    decreases next - k
  {
    if !(k in runs && runs[k].state != Running) && k < next { OldestIs(runs, k + 1, next, oldest); }
  }
}
