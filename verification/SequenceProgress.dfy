/** What the operations on timed sequences achieve: which requests are accepted, which steps are
    applied, that a sequence served in time completes, and what a cancellation and a release end. */
module SequenceProgress {
  import opened Wrappers
  import opened GooseData
  import opened TimedSequence

  // ------------------------------------------------------------------- starting

  /** There is room for another sequence, if necessary at the cost of a finished one. */
  predicate Room(runs: map<nat, Run>) {
    |runs| < 64 || exists id | id in runs :: runs[id].state != Running
  }

  /** The limits of a request at their edges: one to a thousand steps, of which only the first may
      follow at once, a day in all, and a lateness of one to sixty thousand milliseconds, a hundred
      if none is given. */
  lemma ScheduleEdges(d: int, n: nat)
    requires 0 < n
    ensures Limit(None) == 100
    ensures ScheduleValid([Some(d)], None) <==> 0 <= d <= 86_400_000
    ensures ScheduleValid([Some(0), Some(d)], None) <==> 0 < d <= 86_400_000
    ensures ScheduleValid([Some(0)], Some(d)) <==> 1 <= d <= 60_000
    ensures ScheduleValid(seq(n, _ => Some(1)), None) <==> n <= 1000
    ensures !ScheduleValid([], None) && !ScheduleValid([None], None)
  {
    ShortTotals(d);
    ShortTotals(0);
    if n <= 1000 { OnesTotal(n); }
    hide Total;
    var one, two, first := [Some(d)], [Some(0), Some(d)], [Some(0)];
    var none: seq<Option<int>> := [None];
    assert none[0].None? && one[0].value == d && two[0].value == 0 && two[1].value == d && first[0].value == 0;
  }

  lemma ShortTotals(d: int)
    ensures Total([Some(d)]) == Total([Some(0), Some(d)]) == d
  {
    var one, two := [Some(d)], [Some(0), Some(d)];
    assert one[..0] == [] && two[..1] == [Some(0)] && [Some(0)][..0] == [];
    assert Total([Some(0)]) == 0;
  }

  lemma {:induction false} OnesTotal(n: nat)
    ensures Total(seq(n, _ => Some(1))) == n
  {
    if n > 0 {
      OnesTotal(n - 1);
      assert seq(n, _ => Some(1))[..n - 1] == seq(n - 1, _ => Some(1));
    }
  }

  /** A change list of one applicable change is accepted if the data still fit a frame; an empty
      one, one with an unknown entry or one naming an entry twice never. */
  lemma ChangeEdges(s: Stream, current: Snapshot, c: Change, d: Change)
    requires 2 <= |s.signals| == |current.data|
    ensures !Acceptable(s, current, [])
    ensures !Applies(s, c) ==> !Acceptable(s, current, [c])
    ensures Applies(s, c) ==>
      (Acceptable(s, current, [c]) <==> FitsMtu(s, ApplyChanges(s, current.data, [c])))
    ensures c.signal == d.signal ==> !Acceptable(s, current, [c, d])
  {
    hide FitsMtu, ApplyChanges, Applies;
    var two := [c, d];
    assert c in [c] && two[0] == c && two[1] == d;
  }

  /** A request for a sequence that is to be accepted. */
  predicate Startable(a: Api, e: Event)
    requires e.Start?
  {
    && a.active && e.valid && Known(a, e.stream) && a.publishers[e.stream].running
    && (forall id | id in a.runs && a.runs[id].stream == e.stream :: a.runs[id].state != Running)
    && ScheduleValid(Delays(e.steps), e.requested)
    && PrepareAll(a.streams[e.stream], a.publishers[e.stream].output, Lists(e.steps)).Some?
    && Room(a.runs)
  }

  /** The sequence as it begins: nothing applied, and its deadlines counted from now. */
  predicate Begun(a: Api, e: Event, r: Run)
    requires e.Start?
  {
    && r.stream == e.stream && r.state == Running && r.applied == 0 && r.startedAt == e.now
    && r.at == Deadlines(Delays(e.steps)) && r.limit == Limit(e.requested) && r.changes == Lists(e.steps)
  }

  lemma RunBegins(a: Api, e: Event)
    requires e.Start?
    ensures NewRun(a, e).Some? && Room(a.runs) <==> Startable(a, e)
    ensures NewRun(a, e).Some? ==> Begun(a, e, NewRun(a, e).value)
  {
    hide ScheduleValid, PrepareAll, Deadlines, Delays, Lists;
    assert Idle(a, e.stream) <==>
      forall id | id in a.runs && a.runs[id].stream == e.stream :: a.runs[id].state != Running;
  }

  /** A sequence is started exactly on the requests that should be; it is the only difference,
      but for a finished one that may have to make room. */
  lemma StartExactly(a: Api, e: Event)
    requires Inv(a) && e.Start?
    ensures var b := Step(a, e);
      && (Startable(a, e) <==> a.next + 1 in b.runs)
      && (Startable(a, e) ==>
            && b.next == a.next + 1 && Begun(a, e, b.runs[b.next])
            && b.publishers == a.publishers && b.log == a.log && b.active == a.active
            && forall id | id in b.runs && id != b.next :: id in a.runs && b.runs[id] == a.runs[id])
      && (!Startable(a, e) ==> b == a)
  {
    hide Inv, NewRun, Startable, Begun, Evicted, Room;
    RunBegins(a, e);
    MakesRoom(a);
    StartSteps(a, e);
  }

  lemma MakesRoom(a: Api)
    requires Inv(a)
    ensures Evicted(a.runs, a.next).Some? <==> Room(a.runs)
    ensures a.next + 1 !in a.runs
    ensures Evicted(a.runs, a.next).Some? ==>
      forall id | id in Evicted(a.runs, a.next).value :: id in a.runs && Evicted(a.runs, a.next).value[id] == a.runs[id]
  {
    InvParts(a);
    EvictionSpares(a.runs, a.next);
    hide Inv, EntryOk, LogOk, Unshared, Evicted;
  }

  lemma StartSteps(a: Api, e: Event)
    requires e.Start?
    ensures var run, runs := NewRun(a, e), Evicted(a.runs, a.next);
      Step(a, e) == if run.Some? && runs.Some? then Added(a, runs.value, run.value) else a
  {
    hide NewRun, Evicted, Added;
  }

  // --------------------------------------------------------------- one step's turn

  function Deadline(r: Run, k: nat): int
    requires k < |r.at|
  {
    r.startedAt + r.at[k]
  }

  /** The turn for step k comes in time, and nothing stands in the way of the write. */
  predicate Due(a: Api, r: Run, e: Event)
    requires e.Fire? && r.applied < |r.at|
  {
    && a.active && e.valid && !e.refused
    && r.stream in a.publishers && a.publishers[r.stream].running
    && e.now <= Deadline(r, r.applied) + r.limit * 1_000_000
    && (r.applied + 1 == |r.at| || e.now < Deadline(r, r.applied + 1))
  }

  lemma NextInRange(a: Api, id: nat)
    requires Inv(a) && id in a.runs && a.runs[id].state == Running
    ensures var r := a.runs[id];
      && r.position == r.applied < |r.at| == |r.snapshots| && Known(a, r.stream) && r.order == id
  {
    assert EntryOk(a, id);
    hide Folds, StepsOf, FirstSteps;
  }

  /** A step is applied exactly if its turn is due: the publisher takes its snapshot, and the
      sequence goes on, completes, or fails if the write came too late. A turn that is not due
      writes nothing and ends the sequence as failed. */
  lemma FireExactly(a: Api, e: Event)
    requires Inv(a) && e.Fire? && e.run in a.runs && a.runs[e.run].state == Running
    ensures var r := a.runs[e.run]; r.applied < |r.at| == |r.snapshots|
    ensures var b, r := Step(a, e), a.runs[e.run];
      && e.run in b.runs
      && (Due(a, r, e) ==>
            && b.log == a.log + [Applied(e.run, r.applied)]
            && b.publishers == a.publishers[r.stream := Publisher(true, r.snapshots[r.applied])]
            && b.runs[e.run].applied == r.applied + 1
            && b.runs[e.run].state ==
                 if e.after > Deadline(r, r.applied) + r.limit * 1_000_000 then Failed
                 else if r.applied + 1 == |r.at| then Completed else Running)
      && (!Due(a, r, e) ==> b == a.(runs := a.runs[e.run := r.(state := Failed)]))
  {
    NextInRange(a, e.run);
    hide Inv;
  }

  // ------------------------------------------------------------ served in time

  /** What a sequence keeps while its steps are applied. */
  predicate SamePlan(r: Run, q: Run) {
    && q.stream == r.stream && q.at == r.at && q.limit == r.limit && q.startedAt == r.startedAt
    && q.snapshots == r.snapshots
  }

  /** The turn for step k: in time, and finished in time. */
  predicate Punctual(r: Run, e: Event, id: nat, k: nat) {
    && k < |r.at| && e.Fire? && e.run == id && e.valid && !e.refused
    && e.now <= Deadline(r, k) + r.limit * 1_000_000
    && (k + 1 == |r.at| || e.now < Deadline(r, k + 1))
    && e.after <= Deadline(r, k) + r.limit * 1_000_000
  }

  /** After n of the remaining steps. */
  predicate Served(a: Api, m: Api, id: nat, n: nat)
    requires id in a.runs
  {
    var r := a.runs[id];
    && Inv(m) && m.active && id in m.runs
    && r.stream in m.publishers && m.publishers[r.stream].running
    && SamePlan(r, m.runs[id]) && m.runs[id].applied == r.applied + n
    && m.runs[id].state == if r.applied + n == |r.at| then Completed else Running
  }

  lemma ServeOne(a: Api, m: Api, id: nat, n: nat, e: Event)
    requires id in a.runs && Served(a, m, id, n) && a.runs[id].applied + n < |a.runs[id].at|
    requires Punctual(a.runs[id], e, id, a.runs[id].applied + n)
    ensures Served(a, Step(m, e), id, n + 1)
  {
    StepInv(m, e);
    NextInRange(m, id);
    FireExactly(m, e);
    FirePlan(m, e);
    hide Inv, Step, TimedSequence.Known;
  }

  lemma FirePlan(a: Api, e: Event)
    requires e.Fire? && e.run in a.runs
    ensures e.run in Step(a, e).runs && SamePlan(a.runs[e.run], Step(a, e).runs[e.run])
    ensures Step(a, e).active == a.active
  {
    hide TooLate;
  }

  /** A running sequence whose turns all come in time, and whose publisher keeps running,
      applies every remaining step and completes, and the publisher shows its last snapshot. */
  lemma OnTimeCompletes(a: Api, id: nat, turns: seq<Event>)
    requires Inv(a) && a.active && id in a.runs && a.runs[id].state == Running
    requires a.runs[id].stream in a.publishers && a.publishers[a.runs[id].stream].running
    requires a.runs[id].applied + |turns| == |a.runs[id].at|
    requires forall k | 0 <= k < |turns| :: Punctual(a.runs[id], turns[k], id, a.runs[id].applied + k)
    ensures var b := After(a, turns);
      && id in b.runs && b.runs[id].state == Completed && b.runs[id].applied == |a.runs[id].at|
      && StepsOf(b.log, id) == FirstSteps(|a.runs[id].at|)
  {
    NextInRange(a, id);
    ServeAll(a, id, turns, |turns|);
    assert turns[..|turns|] == turns;
    var b := After(a, turns);
    assert EntryOk(b, id);
    hide After, Punctual, RunOk, StepsOf, FirstSteps;
  }

  lemma {:induction false} ServeAll(a: Api, id: nat, turns: seq<Event>, n: nat)
    requires n <= |turns|
    requires Inv(a) && a.active && id in a.runs && a.runs[id].state == Running
    requires a.runs[id].stream in a.publishers && a.publishers[a.runs[id].stream].running
    requires a.runs[id].applied + |turns| == |a.runs[id].at|
    requires forall k | 0 <= k < |turns| :: Punctual(a.runs[id], turns[k], id, a.runs[id].applied + k)
    ensures Served(a, After(a, turns[..n]), id, n)
  {
    hide Inv, Step, Punctual;
    if n == 0 {
      NextInRange(a, id);
      assert turns[..0] == [];
    } else {
      ServeAll(a, id, turns, n - 1);
      ServeOne(a, After(a, turns[..n - 1]), id, n - 1, turns[n - 1]);
      assert turns[..n][..n - 1] == turns[..n - 1];
    }
  }

  // --------------------------------------------------------------- what ends one

  /** A cancellation ends just the sequence it names, and only a running one. */
  lemma CancelExactly(a: Api, id: nat)
    requires Inv(a)
    ensures a.active && id in a.runs ==>
      && Ended(Step(a, Cancel(id)), id)
      && Step(a, Cancel(id)) ==
           a.(runs := if a.runs[id].state == Running then a.runs[id := a.runs[id].(state := Cancelled)] else a.runs)
    ensures !a.active || id !in a.runs ==> Step(a, Cancel(id)) == a
  {
    InvParts(a);
    hide Inv, EntryOk, LogOk, Unshared;
    if a.active && id in a.runs && a.runs[id].state != Running {
      assert a.runs[id := a.runs[id]] == a.runs;
    }
  }

  /** No step of a cancelled sequence is applied after the cancellation, in any run, and it stays
      cancelled for as long as it is remembered. */
  lemma CancelledForever(a: Api, id: nat, es: seq<Event>)
    requires Inv(a) && a.active && id in a.runs && a.runs[id].state == Running
    ensures var b := After(Step(a, Cancel(id)), es);
      StepsOf(b.log, id) == StepsOf(a.log, id) && (id in b.runs ==> b.runs[id] == a.runs[id].(state := Cancelled))
  {
    CancelExactly(a, id);
    StepInv(a, Cancel(id));
    EndedForever(Step(a, Cancel(id)), es, id);
    hide Inv, Step, StepsOf, After;
  }

  /** A release cancels every running sequence and touches nothing else, and from then on no
      sequence takes another step. */
  lemma ReleaseExactly(a: Api, es: seq<Event>, id: nat)
    requires Inv(a) && id in a.runs
    ensures var b := Step(a, Release);
      && !b.active && b.runs.Keys == a.runs.Keys && b.publishers == a.publishers && b.log == a.log
      && b.runs[id] == if a.runs[id].state == Running then a.runs[id].(state := Cancelled) else a.runs[id]
    ensures StepsOf(After(Step(a, Release), es).log, id) == StepsOf(a.log, id)
  {
    hide After, StepsOf;
    ReleaseSteps(a, id);
    StepInv(a, Release);
    EndedForever(Step(a, Release), es, id);
    hide Inv, Step;
  }

  lemma ReleaseSteps(a: Api, id: nat)
    requires Inv(a) && id in a.runs
    ensures var b := Step(a, Release);
      && !b.active && b.runs.Keys == a.runs.Keys && b.publishers == a.publishers && b.log == a.log
      && b.runs[id] == (if a.runs[id].state == Running then a.runs[id].(state := Cancelled) else a.runs[id])
      && Ended(b, id)
  {
    InvParts(a);
    hide Inv, EntryOk, LogOk, Unshared;
  }

  // -------------------------------------------------------------- direct writes

  /** A direct request is carried out exactly if control is held, no sequence runs on the
      stream, its publisher runs and does not refuse, and every change is acceptable. */
  lemma DirectExactly(a: Api, e: Event)
    requires e.DirectSet?
    ensures var b, s := Step(a, e), e.stream;
      if a.active && e.valid && !e.refused && Known(a, s) && a.publishers[s].running
         && (forall id | id in a.runs && a.runs[id].stream == s :: a.runs[id].state != Running)
         && Acceptable(a.streams[s], a.publishers[s].output, e.changes)
      then
        && b.log == a.log + [Direct(s)] && b.runs == a.runs && b.active == a.active
        && b.publishers == a.publishers[s := Publisher(true, a.publishers[s].output.(
             data := ApplyChanges(a.streams[s], a.publishers[s].output.data, e.changes)))]
      else b == a
  {
    hide Acceptable, ApplyChanges;
    assert Idle(a, e.stream) <==>
      forall id | id in a.runs && a.runs[id].stream == e.stream :: a.runs[id].state != Running;
  }
}
