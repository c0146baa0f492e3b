/** What the PTP client does over whole runs with the times it is given: whom it qualifies, whom
    it drops, when it gives up a silent master, and which UTC offset it uses. */
module PtpRuns {
  import opened Wrappers
  import opened Bmca
  import opened PtpClient

  // -------------------------------------------------------------- qualification

  /** An Announce of one master: when it came, and its sequence number. */
  datatype Call = Call(now: int, sequence: nat)

  function RecordAll(r: Record, calls: seq<Call>, window: int): Record {
    if calls == [] then r
    else
      var last := calls[|calls| - 1];
      Recorded(RecordAll(r, calls[..|calls| - 1], window), last.now, window, last.sequence)
  }

  /** In order of time, and none repeats the number of the one before. */
  predicate Successive(calls: seq<Call>) {
    forall i | 0 < i < |calls| :: calls[i - 1].now <= calls[i].now && calls[i - 1].sequence != calls[i].sequence
  }

  /** The newest receipt time is the last Announce's. */
  predicate UpToDate(r: Record, last: Call) {
    && r.times != [] && r.times[|r.times| - 1] == last.now && r.lastSequence == last.sequence && r.lastSeen == last.now
    && forall t | t in r.times :: t <= last.now
  }

  lemma {:induction false} RecentOnly(times: seq<int>, cutoff: int)
    requires times != [] && forall t | t in times :: t <= times[|times| - 1]
    ensures Recent(times, cutoff) != [] <==> cutoff <= times[|times| - 1]
  {
    if Recent(times, cutoff) != [] {
      assert Recent(times, cutoff)[0] in times;
    } else {
      assert times[|times| - 1] !in Recent(times, cutoff);
    }
  }

  /** A foreign master is qualified exactly if its last two announcements came within the window
      (section 9.3.2.4.4 of IEEE 1588-2008), whatever was heard of it before. */
  lemma {:induction false} QualifiedExactly(id: PortIdentity, calls: seq<Call>, window: int)
    requires calls != [] && Successive(calls) && 0 <= window
    ensures var r, n := RecordAll(NewRecord(id), calls, window), |calls|;
      && UpToDate(r, calls[n - 1])
      && (r.Qualified() <==> 2 <= n && calls[n - 1].now - calls[n - 2].now <= window)
  {
    var n := |calls|;
    var init, last := calls[..n - 1], calls[n - 1];
    if n == 1 {
      assert init == [];
    } else {
      QualifiedExactly(id, init, window);
      assert init[n - 2] == calls[n - 2] && Successive(calls);
      OneMore(RecordAll(NewRecord(id), init, window), calls[n - 2], last, window);
    }
    hide Recent, Recorded;
    if n == 1 { FirstCall(id, last, window); }
  }

  lemma FirstCall(id: PortIdentity, call: Call, window: int)
    ensures var r := Recorded(NewRecord(id), call.now, window, call.sequence); UpToDate(r, call) && !r.Qualified()
  {
    assert Recent([], call.now - window) == [];
  }

  lemma OneMore(r: Record, last: Call, call: Call, window: int)
    requires UpToDate(r, last) && last.now <= call.now && last.sequence != call.sequence && 0 <= window
    ensures var n := Recorded(r, call.now, window, call.sequence);
      UpToDate(n, call) && (n.Qualified() <==> call.now - last.now <= window)
  {
    RecentOnly(r.times, call.now - window);
    hide Recent;
  }

  /** An Announce with the number of the last one, within the window, counts for nothing: neither
      as one of the two nor as a sign of life. */
  lemma RepeatsDoNotCount(r: Record, last: Call, call: Call, window: int)
    requires r.sequenceValid && UpToDate(r, last) && call.sequence == last.sequence
    requires call.now - last.now <= window
    ensures var n := Recorded(r, call.now, window, call.sequence);
      n.count <= |r.times| && n.lastSeen == r.lastSeen && UpToDate(n.(times := r.times), last)
  {
    RecentOnly(r.times, call.now - window);
    hide Recent;
  }

  // ---------------------------------------------------------- who is remembered

  /** A master's last Announce that counts, in the first k steps of a run. */
  function LastHeard(cs: seq<Client>, es: seq<Event>, k: nat, id: PortIdentity): (last: Option<Event>)
    requires k <= |es| < |cs|
    ensures last.Some? ==> last.value.Announce?
  {
    if k == 0 then None
    else
      var e := es[k - 1];
      if e.Announce? && e.source == id && !IsDuplicate(cs[k - 1], e) then Some(e)
      else LastHeard(cs, es, k - 1, id)
  }

  lemma AnnouncedSeen(c: Client, e: Event, id: PortIdentity)
    requires e.Announce? && id in AnnouncedTable(c, e)
    ensures var r, counts := AnnouncedTable(c, e)[id], e.source == id && !IsDuplicate(c, e);
      && r.lastSeen == (if counts then e.now else Prior(c.table, id).lastSeen)
      && r.announcement == (if counts then e.announcement else Prior(c.table, id).announcement)
    ensures id in c.table || (e.source == id && !IsDuplicate(c, e))
  {
    hide Recent;
  }

  /** The table holds of every master in it what it announced last, and when. */
  lemma {:induction false} RunHeard(cs: seq<Client>, es: seq<Event>, k: nat, id: PortIdentity)
    requires Run(cs, es) && k < |cs| && id in cs[k].table
    ensures var last, r := LastHeard(cs, es, k, id), cs[k].table[id];
      last.Some? && r.lastSeen == last.value.now && r.announcement == last.value.announcement
  {
    if k > 0 {
      var c, e, n := cs[k - 1], es[k - 1], cs[k];
      assert Step(c, e, n);
      if e.Announce? {
        StepCarries(c, e, n);
        AnnouncedSeen(c, e, id);
        if id in c.table { RunHeard(cs, es, k - 1, id); }
      } else {
        StepCarries(c, e, n);
        RunHeard(cs, es, k - 1, id);
      }
    }
    hide AnnouncedTable, IsDuplicate, Step;
  }

  /** What a step leaves of what it does not choose. */
  predicate Carried(c: Client, table: Table, n: Client) {
    && n.self == c.self && n.table == table && n.lastSync == c.lastSync && n.utcOffset == OffsetOf(table, n.best)
  }

  lemma AnnounceCarries(c: Client, table: Table, best: Option<PortIdentity>)
    ensures Carried(c, table, AfterAnnounce(c, table, best)) && AfterAnnounce(c, table, best).best == best
  {
    hide OffsetOf;
  }

  lemma RejectCarries(c: Client, source: PortIdentity, best: Option<PortIdentity>)
    ensures Carried(c, c.table - {source}, AfterReject(c, source, best)) && AfterReject(c, source, best).best == best
  {
    hide OffsetOf;
  }

  lemma TimeoutsCarry(c: Client, e: Event, best: Option<PortIdentity>)
    requires e.CheckTimeouts?
    ensures Carried(c, LiveTable(c.table, e.now, e.announceTimeout), AfterTimeouts(c, e, best))
    ensures AfterTimeouts(c, e, best).best == best
  {
    hide OffsetOf, LiveTable;
  }

  /** The table, the time of the last offset and the UTC offset after a step. */
  lemma StepCarries(c: Client, e: Event, n: Client)
    requires Step(c, e, n)
    ensures n.self == c.self
    ensures e.Announce? ==> n.table == AnnouncedTable(c, e)
    ensures e.Announce? && IsDuplicate(c, e) ==> n == c.(table := AnnouncedTable(c, e))
    ensures !e.Announce? ==> forall id | id in n.table :: id in c.table && n.table[id] == c.table[id]
    ensures !e.SyncFrame? ==> n.lastSync == c.lastSync
    ensures e.SyncFrame? ==> n.table == c.table && n.utcOffset == c.utcOffset && n.best == c.best
    ensures !e.SyncFrame? && !(e.Announce? && IsDuplicate(c, e)) ==> n.utcOffset == OffsetOf(n.table, n.best)
  {
    match e
    case Announce(_, _, _, _, _) => AnnounceCarries(c, AnnouncedTable(c, e), n.best);
    case Reject(source) => RejectCarries(c, source, n.best);
    case CheckTimeouts(_, _, _) => TimeoutsCarry(c, e, n.best);
    case SyncFrame(_, _) =>
    hide AnnouncedTable, IsDuplicate, Chosen, OffsetOf, AfterAnnounce, AfterReject, AfterTimeouts;
  }

  /** A check of the timeouts drops exactly the masters not heard for longer than the timeout. */
  lemma DropsSilent(cs: seq<Client>, es: seq<Event>, k: nat, id: PortIdentity)
    requires Run(cs, es) && k < |es| && es[k].CheckTimeouts? && id in cs[k].table
    ensures LastHeard(cs, es, k, id).Some?
    ensures id in cs[k + 1].table <==> es[k].now - LastHeard(cs, es, k, id).value.now <= es[k].announceTimeout
  {
    RunHeard(cs, es, k, id);
    assert Step(cs[k], es[k], cs[k + 1]);
    TimeoutsCarry(cs[k], es[k], cs[k + 1].best);
    hide Chosen, OffsetOf, AfterTimeouts, LastHeard;
  }

  /** A rejected master is forgotten at once, and nobody else is. */
  lemma RejectsExactly(c: Client, source: PortIdentity, n: Client, id: PortIdentity)
    requires Step(c, Reject(source), n)
    ensures id in n.table <==> id in c.table && id != source
  {
    hide Chosen, OffsetOf;
  }

  // ------------------------------------------------------------ the silent master

  /** When the last offset against the chosen master was computed, in the first k steps. */
  function LastSynced(cs: seq<Client>, es: seq<Event>, k: nat): Option<int>
    requires k <= |es| < |cs|
  {
    if k == 0 then None
    else
      var c, e := cs[k - 1], es[k - 1];
      if e.SyncFrame? && e.outcome.Offset? && c.best == Some(e.source) && c.port in {Uncalibrated, Slave}
      then Some(e.outcome.now)
      else LastSynced(cs, es, k - 1)
  }

  lemma {:induction false} RunSynced(cs: seq<Client>, es: seq<Event>, k: nat)
    requires Run(cs, es) && k < |cs|
    ensures cs[k].lastSync == LastSynced(cs, es, k)
  {
    hide Step;
    if k > 0 {
      RunSynced(cs, es, k - 1);
      StepSynced(cs[k - 1], es[k - 1], cs[k]);
    }
  }

  lemma StepSynced(c: Client, e: Event, n: Client)
    requires Step(c, e, n)
    ensures n.lastSync ==
      if e.SyncFrame? && e.outcome.Offset? && c.best == Some(e.source) && c.port in {Uncalibrated, Slave}
      then Some(e.outcome.now) else c.lastSync
  {
    StepCarries(c, e, n);
    hide AnnouncedTable, IsDuplicate, Chosen, OffsetOf, AfterAnnounce, AfterReject, AfterTimeouts;
  }

  /** Nothing of a former measurement is left. */
  predicate Forgotten(c: Client) { !c.syncReceived && !c.synchronized && c.measured.None? }

  /** What a check of the timeouts does to the port: LISTENING without a master, UNCALIBRATED
      with another one or after too long without an offset, and both start afresh. */
  lemma ChecksExactly(cs: seq<Client>, es: seq<Event>, k: nat)
    requires Run(cs, es) && k < |es| && es[k].CheckTimeouts?
    ensures var c, n, last := cs[k], cs[k + 1], LastSynced(cs, es, k);
      if c.best.Some? && n.best.None? then n.port == Listening && Forgotten(n)
      else if c.best.Some? && n.best != c.best then n.port == Uncalibrated && Forgotten(n)
      else if c.port == Slave && last.Some? && es[k].now - last.value > es[k].syncTimeout then
        n.port == Uncalibrated && Forgotten(n)
      else
        n.port == c.port && n.syncReceived == c.syncReceived && n.synchronized == c.synchronized
        && n.measured == c.measured
  {
    hide Inv, Step, LastSynced, AfterTimeouts, Forgotten;
    RunSynced(cs, es, k);
    RunInv(cs, es, k);
    CheckedClient(cs[k], es[k], cs[k + 1]);
    CheckedPort(cs[k], es[k], cs[k + 1].best);
  }

  lemma CheckedClient(c: Client, e: Event, n: Client)
    requires Step(c, e, n) && e.CheckTimeouts? && Inv(c)
    ensures n == AfterTimeouts(c, e, n.best) && PortInv(c)
  {
    hide Chosen, LiveTable, TableInv, PortInv, AfterTimeouts;
  }

  lemma CheckedPort(c: Client, e: Event, best: Option<PortIdentity>)
    requires PortInv(c) && e.CheckTimeouts?
    ensures var n := AfterTimeouts(c, e, best);
      if c.best.Some? && best.None? then n.port == Listening && Forgotten(n)
      else if c.best.Some? && best != c.best then n.port == Uncalibrated && Forgotten(n)
      else if c.port == Slave && c.lastSync.Some? && e.now - c.lastSync.value > e.syncTimeout then
        n.port == Uncalibrated && Forgotten(n)
      else
        n.port == c.port && n.syncReceived == c.syncReceived && n.synchronized == c.synchronized
        && n.measured == c.measured
  {
    hide OffsetOf, LiveTable;
  }

  /** What an offset against the chosen master does: the clock counts as synchronised exactly if
      it obeyed the servo, and the port locks with it, or with a step even if that failed. */
  lemma LocksExactly(c: Client, source: PortIdentity, now: int, verdict: Verdict)
    requires Inv(c) && c.best == Some(source)
    ensures var n := AfterSync(c, SyncFrame(source, Offset(now, verdict)));
      && n.lastSync == Some(now) && !n.syncReceived
      && (n.synchronized <==> verdict in {Jump(true), Locked(true)})
      && (n.port == Slave <==> c.port == Slave || verdict in {Jump(true), Jump(false), Locked(true)})
      && n.measured == if verdict == Jump(true) then None else Some(source)
  {
    hide TableInv;
  }

  // --------------------------------------------------------------- the UTC offset

  predicate OffsetsAnnounced(table: Table) {
    forall id | id in table :: table[id].utcOffset == table[id].announcement.utcOffset
  }

  /** The offset in use is the one the chosen master announced last, or none. */
  predicate UtcRight(c: Client) {
    && OffsetsAnnounced(c.table)
    && c.utcOffset == match c.best
                      case None => 0
                      case Some(id) => if id in c.table then c.table[id].announcement.utcOffset else 0
  }

  lemma AnnouncedOffsets(c: Client, e: Event)
    requires e.Announce? && OffsetsAnnounced(c.table)
    ensures OffsetsAnnounced(AnnouncedTable(c, e))
    ensures IsDuplicate(c, e) ==>
      forall id | id in AnnouncedTable(c, e) ::
        id in c.table && AnnouncedTable(c, e)[id].announcement == c.table[id].announcement
    ensures forall id | id in c.table :: id in AnnouncedTable(c, e)
  {
    hide Recent;
  }

  lemma UtcStep(c: Client, e: Event, n: Client)
    requires Step(c, e, n) && UtcRight(c)
    ensures UtcRight(n)
  {
    hide Step, AnnouncedTable, IsDuplicate;
    if e.Announce? { AnnouncedOffsets(c, e); }
    StepCarries(c, e, n);
  }

  lemma {:induction false} RunUtcRight(cs: seq<Client>, es: seq<Event>, k: nat)
    requires Run(cs, es) && k < |cs|
    ensures UtcRight(cs[k])
  {
    hide Step, UtcRight;
    if k == 0 {
      StartUtcRight(cs[0].self);
    } else {
      RunUtcRight(cs, es, k - 1);
      UtcStep(cs[k - 1], es[k - 1], cs[k]);
    }
  }

  lemma StartUtcRight(self: PortIdentity)
    ensures UtcRight(Start(self))
  {
  }
}
