/** The PTP client as it stores its state: entry objects in a map, the chosen master a
    reference to one of them. Every handler is a step of the machine in PtpClient. */
module PtpService {
  import opened Wrappers
  import opened Bmca
  import opened PtpClient

  class ForeignMaster {
    const identity: PortIdentity
    var announcement: Announcement
    var source: PortIdentity
    var utcOffset: int
    var lastSeen: int
    var announceCount: nat
    var announceTimes: seq<int>
    var lastSequenceID: nat
    var sequenceValid: bool

    ghost function Value(): Record
      reads this
    {
      Record(identity, announcement, source, utcOffset, lastSeen, announceCount, announceTimes, lastSequenceID,
             sequenceValid)
    }

    predicate Qualified()
      reads this
      ensures Qualified() == Value().Qualified()
    {
      announceCount >= FOREIGN_MASTER_THRESHOLD
    }

    function Dataset(receiver: PortIdentity): Dataset
      reads this
    {
      DatasetFromAnnounce(source, announcement, receiver)
    }

    constructor (id: PortIdentity)
      ensures Value() == NewRecord(id)
    {
      identity := id;
      announcement, source, utcOffset := NOTHING_ANNOUNCED, PortIdentity(FIRST_IDENTITY, 0), 0;
      lastSeen, announceCount, announceTimes, lastSequenceID, sequenceValid := 0, 0, [], 0, false;
    }

    /** Drops the receipt times that left the window and adds the new one, unless the message
        repeats the last. */
    method RecordAnnounce(now: int, window: int, sequence: nat) returns (accepted: bool)
      modifies this
      ensures Value() == Recorded(old(Value()), now, window, sequence)
      ensures accepted == !Duplicate(old(Value()), now - window, sequence)
    {
      var cutoff := now - window;
      var kept: seq<int> := [];
      for i := 0 to |announceTimes|
        invariant kept == Recent(announceTimes[..i], cutoff)
        invariant Value() == old(Value())
      {
        assert announceTimes[..i + 1][..i] == announceTimes[..i];
        if !(announceTimes[i] < cutoff) { kept := kept + [announceTimes[i]]; }
      }
      assert announceTimes[..|announceTimes|] == announceTimes;
      announceTimes := kept;
      if sequenceValid && |announceTimes| != 0 && sequence == lastSequenceID {
        announceCount := |announceTimes|;
        return false;
      }
      announceTimes := announceTimes + [now];
      lastSequenceID, sequenceValid := sequence, true;
      announceCount, lastSeen := |announceTimes|, now;
      return true;
    }

    method Store(from: PortIdentity, a: Announcement)
      modifies this
      ensures Value() == Stored(old(Value()), from, a)
    {
      announcement, source, utcOffset := a, from, a.utcOffset;
    }
  }

  ghost function DatasetsOf(masters: seq<ForeignMaster>, receiver: PortIdentity): (ds: seq<Dataset>)
    reads masters
    ensures |ds| == |masters|
  {
    seq(|masters|, i requires 0 <= i < |masters| reads masters => masters[i].Dataset(receiver))
  }

  /** The running best of a list. */
  method SelectBestMaster(masters: seq<ForeignMaster>, receiver: PortIdentity) returns (best: ForeignMaster?)
    ensures masters == [] ==> best == null
    ensures masters != [] ==> best == masters[SelectIndex(DatasetsOf(masters, receiver))]
  {
    if masters == [] { return null; }
    best := masters[0];
    var bestDS := best.Dataset(receiver);
    ghost var all := DatasetsOf(masters, receiver);
    for i := 1 to |masters|
      invariant all == DatasetsOf(masters, receiver)
      invariant best == masters[SelectIndex(all[..i])] && bestDS == all[SelectIndex(all[..i])]
    {
      hide DSCmp, DatasetFromAnnounce;
      assert all[..i + 1][..i] == all[..i];
      var ds := masters[i].Dataset(receiver);
      if DSCmp(ds, bestDS) < 0 {
        best := masters[i];
        bestDS := ds;
      }
    }
    assert all[..|masters|] == all;
  }

  ghost function TableOf(masters: map<PortIdentity, ForeignMaster>): Table
    reads masters.Values
  {
    map id | id in masters :: masters[id].Value()
  }

  ghost predicate Keyed(masters: map<PortIdentity, ForeignMaster>) {
    forall id | id in masters :: masters[id].identity == id
  }

  function IdentityOf(m: ForeignMaster?): Option<PortIdentity> {
    if m == null then None else Some(m.identity)
  }

  /** The qualified entries, in the order in which the map happens to yield them. */
  method CollectQualified(table: map<PortIdentity, ForeignMaster>)
    returns (masters: seq<ForeignMaster>, ghost order: seq<PortIdentity>)
    ensures Ordering(TableOf(table), order)
    ensures |masters| == |order|
    ensures forall i | 0 <= i < |order| :: order[i] in table && masters[i] == table[order[i]]
  {
    masters, order := [], [];
    var keys := table.Keys;
    ghost var values := TableOf(table);
    while keys != {}
      invariant values == TableOf(table) && keys <= table.Keys
      invariant forall i, j | 0 <= i < j < |order| :: order[i] != order[j]
      invariant forall id :: id in order <==> Qualifies(values, id) && id !in keys
      invariant |masters| == |order|
      invariant forall i | 0 <= i < |order| :: order[i] in table && masters[i] == table[order[i]]
      decreases |keys|
    {
      var id :| id in keys;
      keys := keys - {id};
      if table[id].Qualified() {
        masters := masters + [table[id]];
        order := order + [id];
      }
    }
  }

  lemma SameDatasets(table: map<PortIdentity, ForeignMaster>, receiver: PortIdentity,
                     masters: seq<ForeignMaster>, order: seq<PortIdentity>)
    requires |masters| == |order|
    requires forall i | 0 <= i < |order| :: order[i] in table && masters[i] == table[order[i]]
    ensures forall id | id in order :: id in TableOf(table)
    ensures DatasetsOf(masters, receiver) == Datasets(TableOf(table), receiver, order)
  {
  }

  method FindBest(table: map<PortIdentity, ForeignMaster>, self: PortIdentity) returns (best: ForeignMaster?)
    requires Keyed(table)
    ensures best != null ==> best.identity in table && table[best.identity] == best
    ensures Chosen(TableOf(table), self, IdentityOf(best))
  {
    hide SelectIndex, Ordering, DatasetAt, TableOf, DatasetsOf;
    var masters, order := CollectQualified(table);
    best := SelectBestMaster(masters, self);
    SameDatasets(table, self, masters, order);
    assert IdentityOf(best) == Choice(TableOf(table), self, order);
  }

  lemma ValueAt(table: map<PortIdentity, ForeignMaster>, best: ForeignMaster?)
    requires best != null ==> best.identity in table && table[best.identity] == best
    ensures OffsetOf(TableOf(table), IdentityOf(best)) == if best != null then best.utcOffset else 0
  {
  }

  lemma EntryValues(table: map<PortIdentity, ForeignMaster>)
    ensures TableOf(table).Keys == table.Keys
    ensures forall id | id in table :: TableOf(table)[id] == table[id].Value()
  {
  }

  class Service {
    const selfID: PortIdentity
    var foreignMasters: map<PortIdentity, ForeignMaster>
    var bestMaster: ForeignMaster?
    var state: PortState
    var utcOffset: int
    var syncReceived: bool
    var synchronized: bool
    var lastSync: Option<int>
    // the sender of the SYNC whose timestamps are held
    ghost var measured: Option<PortIdentity>

    /** The chosen master is the very entry the table holds under its identity. */
    ghost predicate Valid()
      reads this
    {
      && Keyed(foreignMasters)
      && (bestMaster != null ==>
            bestMaster.identity in foreignMasters && foreignMasters[bestMaster.identity] == bestMaster)
    }

    ghost function Value(): Client
      reads this, foreignMasters.Values
    {
      Client(selfID, TableOf(foreignMasters), IdentityOf(bestMaster), state, utcOffset, syncReceived,
             synchronized, lastSync, measured)
    }

    constructor (self: PortIdentity)
      ensures Valid() && Value() == Start(self)
      ensures foreignMasters == map[]
    {
      selfID, foreignMasters, bestMaster := self, map[], null;
      state := SlavePortFSM(Initializing, InitComplete);
      utcOffset, syncReceived, synchronized, lastSync := 0, false, false, None;
      measured := None;
    }

    method Transition(event: FsmEvent)
      modifies this`state
      ensures state == SlavePortFSM(old(state), event)
    {
      state := SlavePortFSM(state, event);
    }

    /** Servo, timestamps and kept follow-ups are dropped, the clock is no longer trusted. */
    method Restart(event: FsmEvent)
      modifies this`state, this`syncReceived, this`synchronized, this`measured
      ensures Value() == Restarted(old(Value()), event)
    {
      hide TableOf, SlavePortFSM;
      measured := None;
      syncReceived, synchronized := false, false;
      Transition(event);
    }

    /** Looks for the best qualified master and takes its UTC offset. */
    method SelectBest()
      requires Keyed(foreignMasters)
      modifies this`bestMaster, this`utcOffset
      ensures Valid()
      ensures Chosen(TableOf(foreignMasters), selfID, IdentityOf(bestMaster))
      ensures Value() == Reselected(old(Value()), TableOf(foreignMasters), IdentityOf(bestMaster))
    {
      hide TableOf, Chosen;
      var best := FindBest(foreignMasters, selfID);
      ValueAt(foreignMasters, best);
      bestMaster := best;
      utcOffset := if best != null then best.utcOffset else 0;
    }

    method HandleAnnounce(source: PortIdentity, a: Announcement, now: int, window: int, sequence: nat)
      requires Valid()
      modifies this, foreignMasters.Values
      ensures Valid() && fresh(foreignMasters.Values - old(foreignMasters.Values))
      ensures Step(old(Value()), Announce(source, a, now, window, sequence), Value())
    {
      ghost var before := Value();
      var previous := bestMaster;
      var accepted := EnterAnnounce(source, a, now, window, sequence);
      hide Chosen, AnnouncedTable, IsDuplicate, AfterAnnounce, TableOf, Keyed;
      if !accepted { return; }
      SelectBest();
      AfterReselection(previous, before);
    }

    method AfterReselection(previous: ForeignMaster?, ghost c: Client)
      requires IdentityOf(previous) == c.best
      requires Value() == Reselected(c, TableOf(foreignMasters), IdentityOf(bestMaster))
      modifies this`state, this`syncReceived, this`synchronized, this`measured
      ensures Value() == AfterAnnounce(c, old(TableOf(foreignMasters)), old(IdentityOf(bestMaster)))
    {
      hide TableOf, SlavePortFSM, Restarted, OffsetOf;
      if bestMaster == null { return; }
      if previous != null && bestMaster.identity != previous.identity {
        Restart(MasterChanged);
        return;
      }
      if previous == null && state == Listening {
        Transition(RSSlave);
      }
    }

    /** The part of an Announce that only concerns its sender's entry. */
    method EnterAnnounce(source: PortIdentity, a: Announcement, now: int, window: int, sequence: nat)
      returns (accepted: bool)
      requires Valid()
      modifies this`foreignMasters, foreignMasters.Values
      ensures Valid() && fresh(foreignMasters.Values - old(foreignMasters.Values))
      ensures var e := Announce(source, a, now, window, sequence);
        accepted == !IsDuplicate(old(Value()), e) && Value() == old(Value()).(table := AnnouncedTable(old(Value()), e))
    {
      hide Recorded, Duplicate, TableOf, Entered;
      EntryValues(foreignMasters);
      var fm := Entry(source);
      EntryValues(foreignMasters);
      accepted := UpdateEntry(fm, a, now, window, sequence);
    }

    method UpdateEntry(fm: ForeignMaster, a: Announcement, now: int, window: int, sequence: nat)
      returns (accepted: bool)
      requires Keyed(foreignMasters) && fm.identity in foreignMasters && foreignMasters[fm.identity] == fm
      modifies fm
      ensures accepted == !Duplicate(old(fm.Value()), now - window, sequence)
      ensures TableOf(foreignMasters) == old(TableOf(foreignMasters))[fm.identity :=
        Entered(old(fm.Value()), fm.identity, a, now, window, sequence)]
    {
      hide Recorded, Duplicate;
      ghost var was := TableOf(foreignMasters);
      accepted := fm.RecordAnnounce(now, window, sequence);
      if accepted { fm.Store(fm.identity, a); }
      assert TableOf(foreignMasters) == was[fm.identity := fm.Value()];
    }

    /** The entry of a sender, made on its first Announce. */
    method Entry(source: PortIdentity) returns (fm: ForeignMaster)
      requires Valid()
      modifies this`foreignMasters
      ensures Valid() && fresh(foreignMasters.Values - old(foreignMasters.Values))
      ensures source in foreignMasters && foreignMasters[source] == fm
      ensures fm in old(foreignMasters.Values) || fresh(fm)
      ensures source in old(foreignMasters) ==> foreignMasters == old(foreignMasters)
      ensures source !in old(foreignMasters) ==>
        TableOf(foreignMasters) == old(TableOf(foreignMasters))[source := NewRecord(source)]
    {
      if source in foreignMasters {
        fm := foreignMasters[source];
      } else {
        fm := new ForeignMaster(source);
        foreignMasters := foreignMasters[source := fm];
      }
    }

    method RejectMaster(source: PortIdentity)
      requires Valid()
      modifies this
      ensures Valid() && foreignMasters.Values <= old(foreignMasters.Values)
      ensures Step(old(Value()), Reject(source), Value())
    {
      ghost var before := Value();
      var previous := bestMaster;
      foreignMasters := foreignMasters - {source};
      assert TableOf(foreignMasters) == before.table - {source};
      SelectBest();
      hide Chosen, AfterReject, TableOf;
      AfterRemoval(previous, source, before);
    }

    method AfterRemoval(previous: ForeignMaster?, source: PortIdentity, ghost c: Client)
      requires IdentityOf(previous) == c.best
      requires Value() == Reselected(c, c.table - {source}, IdentityOf(bestMaster))
      modifies this`state, this`syncReceived, this`synchronized, this`measured
      ensures Value() == AfterReject(c, source, old(IdentityOf(bestMaster)))
    {
      hide TableOf, SlavePortFSM, Restarted, OffsetOf;
      if previous == null || previous.identity != source { return; }
      if bestMaster != null {
        Restart(MasterChanged);
        return;
      }
      Restart(AnnounceTimeout);
    }

    /** Removes the entries that have been silent for too long. */
    method DropSilent(now: int, timeout: int)
      modifies this`foreignMasters
      ensures foreignMasters.Keys <= old(foreignMasters.Keys)
      ensures forall id | id in foreignMasters :: foreignMasters[id] == old(foreignMasters)[id]
      ensures TableOf(foreignMasters) == LiveTable(old(TableOf(foreignMasters)), now, timeout)
    {
      var keys := foreignMasters.Keys;
      ghost var all := foreignMasters;
      while keys != {}
        invariant keys <= all.Keys && keys <= foreignMasters.Keys <= all.Keys
        invariant forall id | id in foreignMasters :: foreignMasters[id] == all[id]
        invariant forall id | id in all && id !in keys ::
          id in foreignMasters <==> now - all[id].lastSeen <= timeout
        decreases |keys|
      {
        var id :| id in keys;
        keys := keys - {id};
        if now - foreignMasters[id].lastSeen > timeout {
          foreignMasters := foreignMasters - {id};
        }
      }
    }

    method CheckTimeouts(now: int, announceTimeout: int, syncTimeout: int)
      requires Valid()
      modifies this
      ensures Valid() && foreignMasters.Values <= old(foreignMasters.Values)
      ensures Step(old(Value()), Event.CheckTimeouts(now, announceTimeout, syncTimeout), Value())
    {
      ghost var before := Value();
      var previous := bestMaster;
      DropSilent(now, announceTimeout);
      hide LiveTable, Chosen, AfterTimeouts, TableOf;
      SelectBest();
      AfterCheck(previous, now, announceTimeout, syncTimeout, before);
    }

    method AfterCheck(previous: ForeignMaster?, now: int, announceTimeout: int, syncTimeout: int, ghost c: Client)
      requires IdentityOf(previous) == c.best
      requires Value() == Reselected(c, LiveTable(c.table, now, announceTimeout), IdentityOf(bestMaster))
      modifies this`state, this`syncReceived, this`synchronized, this`measured
      ensures Value() ==
        AfterTimeouts(c, Event.CheckTimeouts(now, announceTimeout, syncTimeout), old(IdentityOf(bestMaster)))
    {
      hide TableOf, SlavePortFSM, Restarted, OffsetOf, LiveTable;
      if previous != null && bestMaster == null {
        Restart(AnnounceTimeout);
        return;
      }
      if previous != null && bestMaster != null && previous.identity != bestMaster.identity {
        Restart(MasterChanged);
        return;
      }
      if state == Slave && lastSync.Some? && now - lastSync.value > syncTimeout {
        Restart(SyncFault);
      }
    }

    method HandleSyncFrame(source: PortIdentity, outcome: Outcome)
      requires Valid()
      modifies this`state, this`syncReceived, this`synchronized, this`lastSync, this`measured
      ensures Valid() && Step(old(Value()), SyncFrame(source, outcome), Value())
    {
      hide TableOf, SlavePortFSM, Disciplined;
      if state != Uncalibrated && state != Slave { return; }
      if bestMaster == null || source != bestMaster.identity { return; }
      match outcome
      case Kept =>
      case Incomplete(twoStep) =>
        measured := Some(source);
        if twoStep { syncReceived := true; }
      case Offset(now, verdict) =>
        measured, lastSync := Some(source), Some(now);
        DisciplineClock(verdict);
        syncReceived := false;
    }

    method DisciplineClock(verdict: Verdict)
      modifies this`state, this`synchronized, this`measured
      ensures Value() == Disciplined(old(Value()), verdict)
    {
      hide TableOf, SlavePortFSM;
      match verdict
      case Jump(stepped) =>
        if stepped {
          measured := None;
          synchronized := true;
        } else {
          synchronized := false;
        }
        if state == Uncalibrated { Transition(MasterClockSelected); }
      case Locked(adjusted) =>
        if adjusted {
          synchronized := true;
          if state == Uncalibrated { Transition(MasterClockSelected); }
        } else {
          synchronized := false;
        }
      case Unlocked => synchronized := false;
    }
  }
}
