/** The PTP client's view of its masters: qualification of foreign masters, the choice of
    one of them and the port state that follows it (IEEE 1588-2008, sections 9.2.5,
    9.3.2.4.4 and 9.3.4). */
module PtpClient {
  import opened Wrappers
  import opened Bmca

  const FOREIGN_MASTER_THRESHOLD: nat := 2

  /** What an Announce message says. */
  datatype Announcement = Announcement(
    priority1: nat, identity: ClockIdentity, clockClass: nat, clockAccuracy: nat, variance: nat,
    priority2: nat, stepsRemoved: nat, utcOffset: int)

  /** A foreign master's entry; source is the sender of the announcement it holds. */
  datatype Record = Record(
    identity: PortIdentity, announcement: Announcement, source: PortIdentity, utcOffset: int, lastSeen: int,
    count: nat, times: seq<int>, lastSequence: nat, sequenceValid: bool)
  {
    predicate Qualified() { count >= FOREIGN_MASTER_THRESHOLD }
  }

  function DatasetFromAnnounce(source: PortIdentity, a: Announcement, self: PortIdentity): Dataset {
    Dataset(a.priority1, a.identity, a.clockClass, a.clockAccuracy, a.variance, a.priority2, a.stepsRemoved,
            source, self)
  }

  type Table = map<PortIdentity, Record>

  // -------------------------------------------------------- qualification

  const NOTHING_ANNOUNCED := Announcement(0, FIRST_IDENTITY, 0, 0, 0, 0, 0, 0)

  function NewRecord(id: PortIdentity): Record {
    Record(id, NOTHING_ANNOUNCED, PortIdentity(FIRST_IDENTITY, 0), 0, 0, 0, [], 0, false)
  }

  /** The receipt times that are not before the cutoff. */
  function Recent(times: seq<int>, cutoff: int): (kept: seq<int>)
    ensures |kept| <= |times|
    ensures forall t :: t in kept <==> t in times && cutoff <= t
  {
    if times == [] then []
    else
      var last := times[|times| - 1];
      Recent(times[..|times| - 1], cutoff) + if last < cutoff then [] else [last]
  }

  predicate Duplicate(r: Record, cutoff: int, sequence: nat) {
    r.sequenceValid && Recent(r.times, cutoff) != [] && sequence == r.lastSequence
  }

  /** The entry after an Announce, before its contents are stored. */
  function Recorded(r: Record, now: int, window: int, sequence: nat): Record {
    var kept := Recent(r.times, now - window);
    if Duplicate(r, now - window, sequence) then r.(times := kept, count := |kept|)
    else
      r.(times := kept + [now], count := |kept| + 1, lastSequence := sequence, sequenceValid := true,
         lastSeen := now)
  }

  // --------------------------------------------------------------- the port

  datatype PortState = Initializing | Listening | Uncalibrated | Slave | Faulty | Stopped

  datatype FsmEvent =
    | InitComplete | RSSlave | MasterClockSelected | AnnounceTimeout | SyncFault | Fault | FaultCleared
    | MasterChanged

  /** The port states of a slave-only clock. */
  function SlavePortFSM(state: PortState, event: FsmEvent): PortState {
    match (state, event)
    case (Initializing, Fault) => Faulty
    case (Initializing, InitComplete) => Listening
    case (Faulty, FaultCleared) => Initializing
    case (Listening, Fault) => Faulty
    case (Listening, RSSlave) => Uncalibrated
    case (Uncalibrated, Fault) => Faulty
    case (Uncalibrated, AnnounceTimeout) => Listening
    case (Uncalibrated, MasterClockSelected) => Slave
    case (Slave, Fault) => Faulty
    case (Slave, AnnounceTimeout) => Listening
    case (Slave, SyncFault) => Uncalibrated
    case (Slave, MasterChanged) => Uncalibrated
    case _ => state
  }

  // -------------------------------------------------------------- the client

  /** measured is the sender of the SYNC whose timestamps are held, if any. */
  datatype Client = Client(
    self: PortIdentity, table: Table, best: Option<PortIdentity>, port: PortState, utcOffset: int,
    syncReceived: bool, synchronized: bool, lastSync: Option<int>, measured: Option<PortIdentity>)

  /** What the servo decided on a new offset, and whether the clock obeyed. */
  datatype Verdict = Jump(stepped: bool) | Locked(adjusted: bool) | Unlocked

  /** What a SYNC or FOLLOW_UP leads to: kept for a SYNC still to come, timestamps that give
      no offset yet, or an offset for the servo. */
  datatype Outcome = Kept | Incomplete(twoStep: bool) | Offset(now: int, verdict: Verdict)

  datatype Event =
    | Announce(source: PortIdentity, announcement: Announcement, now: int, window: int, sequence: nat)
    | Reject(source: PortIdentity)
    | CheckTimeouts(now: int, announceTimeout: int, syncTimeout: int)
    | SyncFrame(source: PortIdentity, outcome: Outcome)

  predicate Qualifies(table: Table, id: PortIdentity) { id in table && table[id].Qualified() }

  /** One of the orders in which the qualified masters can be visited. */
  ghost predicate Ordering(table: Table, order: seq<PortIdentity>) {
    && (forall i, j | 0 <= i < j < |order| :: order[i] != order[j])
    && (forall id :: id in order <==> Qualifies(table, id))
  }

  function Datasets(table: Table, self: PortIdentity, order: seq<PortIdentity>): (ds: seq<Dataset>)
    requires forall id | id in order :: id in table
    ensures |ds| == |order|
  {
    seq(|order|, i requires 0 <= i < |order| => DatasetAt(table, self, order[i]))
  }

  function DatasetAt(table: Table, self: PortIdentity, id: PortIdentity): Dataset
    requires id in table
  {
    DatasetFromAnnounce(table[id].source, table[id].announcement, self)
  }

  /** The choice made when the qualified masters are visited in a given order. */
  function Choice(table: Table, self: PortIdentity, order: seq<PortIdentity>): Option<PortIdentity>
    requires forall id | id in order :: id in table
  {
    if order == [] then None else Some(order[SelectIndex(Datasets(table, self, order))])
  }

  /** A choice some visiting order leads to. */
  ghost predicate Chosen(table: Table, self: PortIdentity, best: Option<PortIdentity>) {
    exists order | Ordering(table, order) :: best == Choice(table, self, order)
  }

  function OffsetOf(table: Table, best: Option<PortIdentity>): int {
    if best.Some? && best.value in table then table[best.value].utcOffset else 0
  }

  /** The client with a new table and a new choice, before it reacts to them. */
  function Reselected(c: Client, table: Table, best: Option<PortIdentity>): Client {
    c.(table := table, best := best, utcOffset := OffsetOf(table, best))
  }

  /** Everything measured so far is dropped and the port moves. */
  function Restarted(c: Client, event: FsmEvent): Client {
    c.(syncReceived := false, synchronized := false, measured := None, port := SlavePortFSM(c.port, event))
  }

  /** The sender's entry before an Announce. */
  function Prior(table: Table, id: PortIdentity): Record {
    if id in table then table[id] else NewRecord(id)
  }

  function Stored(r: Record, source: PortIdentity, a: Announcement): Record {
    r.(announcement := a, source := source, utcOffset := a.utcOffset)
  }

  /** The sender's entry after an Announce; the contents of a duplicate are not stored. */
  function Entered(r: Record, source: PortIdentity, a: Announcement, now: int, window: int, sequence: nat): Record {
    var recorded := Recorded(r, now, window, sequence);
    if Duplicate(r, now - window, sequence) then recorded else Stored(recorded, source, a)
  }

  predicate IsDuplicate(c: Client, e: Event)
    requires e.Announce?
  {
    Duplicate(Prior(c.table, e.source), e.now - e.window, e.sequence)
  }

  function AnnouncedTable(c: Client, e: Event): Table
    requires e.Announce?
  {
    c.table[e.source :=
      Entered(Prior(c.table, e.source), e.source, e.announcement, e.now, e.window, e.sequence)]
  }

  function AfterAnnounce(c: Client, table: Table, best: Option<PortIdentity>): Client {
    var n := Reselected(c, table, best);
    if best.None? then n
    else if c.best.Some? && c.best != best then Restarted(n, MasterChanged)
    else if c.best.None? && c.port == Listening then n.(port := SlavePortFSM(n.port, RSSlave))
    else n
  }

  function AfterReject(c: Client, source: PortIdentity, best: Option<PortIdentity>): Client {
    var n := Reselected(c, c.table - {source}, best);
    if c.best != Some(source) then n
    else if best.Some? then Restarted(n, MasterChanged)
    else Restarted(n, AnnounceTimeout)
  }

  function LiveTable(table: Table, now: int, timeout: int): Table {
    map id | id in table && now - table[id].lastSeen <= timeout :: table[id]
  }

  function AfterTimeouts(c: Client, e: Event, best: Option<PortIdentity>): Client
    requires e.CheckTimeouts?
  {
    var n := Reselected(c, LiveTable(c.table, e.now, e.announceTimeout), best);
    if c.best.Some? && best.None? then Restarted(n, AnnounceTimeout)
    else if c.best.Some? && best.Some? && c.best != best then Restarted(n, MasterChanged)
    else if c.port == Slave && c.lastSync.Some? && e.now - c.lastSync.value > e.syncTimeout then
      Restarted(n, SyncFault)
    else n
  }

  function Selected(c: Client): Client {
    if c.port == Uncalibrated then c.(port := SlavePortFSM(c.port, MasterClockSelected)) else c
  }

  function Disciplined(c: Client, verdict: Verdict): Client {
    match verdict
    case Jump(true) => Selected(c.(measured := None, synchronized := true))
    case Jump(false) => Selected(c.(synchronized := false))
    case Locked(true) => Selected(c.(synchronized := true))
    case Locked(false) => c.(synchronized := false)
    case Unlocked => c.(synchronized := false)
  }

  function AfterSync(c: Client, e: Event): Client
    requires e.SyncFrame?
  {
    if (c.port != Uncalibrated && c.port != Slave) || c.best != Some(e.source) then c
    else match e.outcome
      case Kept => c
      case Incomplete(twoStep) => c.(measured := c.best, syncReceived := twoStep || c.syncReceived)
      case Offset(now, verdict) =>
        Disciplined(c.(measured := c.best, lastSync := Some(now)), verdict).(syncReceived := false)
  }

  ghost predicate Step(c: Client, e: Event, n: Client) {
    match e
    case Announce(_, _, _, _, _) =>
      if IsDuplicate(c, e) then n == c.(table := AnnouncedTable(c, e))
      else Chosen(AnnouncedTable(c, e), c.self, n.best) && n == AfterAnnounce(c, AnnouncedTable(c, e), n.best)
    case Reject(source) =>
      Chosen(c.table - {source}, c.self, n.best) && n == AfterReject(c, source, n.best)
    case CheckTimeouts(now, timeout, _) =>
      Chosen(LiveTable(c.table, now, timeout), c.self, n.best) && n == AfterTimeouts(c, e, n.best)
    case SyncFrame(_, _) => n == AfterSync(c, e)
  }

  function Start(self: PortIdentity): Client {
    Client(self, map[], None, SlavePortFSM(Initializing, InitComplete), 0, false, false, None, None)
  }

  ghost predicate Run(cs: seq<Client>, es: seq<Event>) {
    && |cs| == |es| + 1
    && cs[0] == Start(cs[0].self)
    && forall i | 0 <= i < |es| :: Step(cs[i], es[i], cs[i + 1])
  }

  // --------------------------------------------------------- the invariant

  predicate WellKept(table: Table) {
    forall id | id in table ::
      table[id].identity == table[id].source == id && table[id].count == |table[id].times|
  }

  /** The announcements held agree wherever they name the same grandmaster. */
  predicate Agreed(table: Table, self: PortIdentity) {
    forall i, j | i in table && j in table :: Agree(DatasetAt(table, self, i), DatasetAt(table, self, j))
  }

  /** No qualified master is better than the chosen one. */
  ghost predicate Optimal(table: Table, self: PortIdentity, best: Option<PortIdentity>) {
    best.Some? && best.value in table ==>
      forall id | Qualifies(table, id) :: !(DSCmp(DatasetAt(table, self, id), DatasetAt(table, self, best.value)) < 0)
  }

  predicate NoneQualifies(table: Table) {
    forall id | id in table :: !table[id].Qualified()
  }

  /** What the table and the choice promise each other. */
  ghost predicate TableInv(table: Table, self: PortIdentity, best: Option<PortIdentity>) {
    && WellKept(table)
    && (best.Some? ==> best.value in table)
    && (best.None? ==> NoneQualifies(table))
    && (Agreed(table, self) ==> Optimal(table, self, best))
  }

  /** What the choice, the port and the clock promise each other. */
  predicate PortInv(c: Client) {
    && c.port in {Listening, Uncalibrated, Slave}
    && (c.best.Some? ==> c.port != Listening)
    && (c.synchronized ==> c.port == Slave)
  }

  ghost predicate Inv(c: Client) {
    TableInv(c.table, c.self, c.best) && PortInv(c)
  }

  lemma DatasetsAgree(table: Table, self: PortIdentity, order: seq<PortIdentity>)
    requires Agreed(table, self)
    requires forall id | id in order :: id in table
    ensures AllAgree(Datasets(table, self, order))
  {
    hide Agree, DatasetAt;
  }

  /** A choice among entries that agree is the best, whatever the order. */
  lemma ChoiceIsOptimal(table: Table, self: PortIdentity, order: seq<PortIdentity>)
    requires Ordering(table, order) && Agreed(table, self) && order != []
    ensures Optimal(table, self, Choice(table, self, order))
  {
    hide Agree, DatasetAt, DSCmp, Compare, Key, SelectIndex, Agreed;
    var ds := Datasets(table, self, order);
    DatasetsAgree(table, self, order);
    SelectedIsBest(ds);
    var best := order[SelectIndex(ds)];
    forall id | Qualifies(table, id)
      ensures !(DSCmp(DatasetAt(table, self, id), DatasetAt(table, self, best)) < 0)
    {
      var i :| 0 <= i < |order| && order[i] == id;
      assert ds[i] == DatasetAt(table, self, id);
    }
  }

  /** What every selection guarantees. */
  lemma ChosenFacts(table: Table, self: PortIdentity, best: Option<PortIdentity>)
    requires Chosen(table, self, best)
    ensures best.Some? ==> Qualifies(table, best.value)
    ensures best.None? <==> NoneQualifies(table)
    ensures Agreed(table, self) ==> Optimal(table, self, best)
  {
    hide Agree, DatasetAt, DSCmp, SelectIndex, Agreed, Optimal;
    var order :| Ordering(table, order) && best == Choice(table, self, order);
    if order == [] {
      forall id | id in table ensures !table[id].Qualified() {
        assert id in order <==> Qualifies(table, id);
      }
      NoChoiceIsOptimal(table, self);
    } else {
      assert best.value in order;
      if Agreed(table, self) { ChoiceIsOptimal(table, self, order); }
    }
  }

  lemma NoChoiceIsOptimal(table: Table, self: PortIdentity)
    ensures Optimal(table, self, None)
  {
  }

  /** Entries that agree leave room for one optimal choice only. */
  lemma OptimalUnique(table: Table, self: PortIdentity, i: PortIdentity, j: PortIdentity)
    requires WellKept(table) && Agreed(table, self) && Qualifies(table, i) && Qualifies(table, j)
    requires Optimal(table, self, Some(i)) && Optimal(table, self, Some(j))
    ensures i == j
  {
    hide Agree, DatasetAt, DSCmp, Compare, Key;
    var a, b := DatasetAt(table, self, i), DatasetAt(table, self, j);
    LexicographicIffAgree(a, b);
    LexicographicIffAgree(b, a);
    CompareMirror(Key(a), Key(b));
    CompareEqual(Key(a), Key(b));
    if i != j {
      SendersDiffer(table, self, i, j);
      KeysDiffer(a, b);
    }
  }

  /** The order in which Go visits the map does not matter: entries that agree leave only one
      choice. */
  lemma ChoiceUnique(table: Table, self: PortIdentity, one: Option<PortIdentity>, two: Option<PortIdentity>)
    requires WellKept(table) && Agreed(table, self)
    requires Chosen(table, self, one) && Chosen(table, self, two)
    ensures one == two
  {
    hide WellKept, Agreed, Optimal, Chosen, NoneQualifies, Qualifies;
    ChosenFacts(table, self, one);
    ChosenFacts(table, self, two);
    if one.Some? && two.Some? { OptimalUnique(table, self, one.value, two.value); }
  }

  lemma SendersDiffer(table: Table, self: PortIdentity, i: PortIdentity, j: PortIdentity)
    requires WellKept(table) && i in table && j in table && i != j
    ensures DatasetAt(table, self, i).sender != DatasetAt(table, self, j).sender
  {
  }

  // ------------------------------------------------------ steps keep it

  /** An Announce that repeats the last one can only disqualify its sender. */
  lemma DuplicateInv(c: Client, e: Event)
    requires Inv(c) && e.Announce? && IsDuplicate(c, e)
    ensures Inv(c.(table := AnnouncedTable(c, e)))
  {
    DuplicateRecord(c, e);
    hide Agree, DSCmp, Agreed, Optimal, AnnouncedTable, DatasetAt, IsDuplicate;
    DuplicateKeepsOptimal(c, AnnouncedTable(c, e));
  }

  lemma DuplicateRecord(c: Client, e: Event)
    requires e.Announce? && IsDuplicate(c, e) && WellKept(c.table)
    ensures var table := AnnouncedTable(c, e);
      && table.Keys == c.table.Keys
      && WellKept(table)
      && (forall id | id in table :: DatasetAt(table, c.self, id) == DatasetAt(c.table, c.self, id))
      && (forall id | id in table :: table[id].Qualified() ==> c.table[id].Qualified())
  {
    hide Recent;
    var r := c.table[e.source];
    var s := Recorded(r, e.now, e.window, e.sequence);
    assert s.source == r.source && s.announcement == r.announcement && s.count <= r.count;
  }

  lemma DuplicateKeepsOptimal(c: Client, table: Table)
    requires Agreed(c.table, c.self) ==> Optimal(c.table, c.self, c.best)
    requires table.Keys == c.table.Keys
    requires forall id | id in table :: DatasetAt(table, c.self, id) == DatasetAt(c.table, c.self, id)
    requires forall id | Qualifies(table, id) :: Qualifies(c.table, id)
    ensures Agreed(table, c.self) ==> Optimal(table, c.self, c.best)
  {
    hide Agree, DSCmp, DatasetAt;
    if Agreed(table, c.self) {
      forall i, j | i in c.table && j in c.table
        ensures Agree(DatasetAt(c.table, c.self, i), DatasetAt(c.table, c.self, j))
      {
        assert i in table && j in table;
      }
    }
  }

  /** Every selection restores what the invariant says of the table. */
  lemma ChosenInv(table: Table, self: PortIdentity, best: Option<PortIdentity>)
    requires WellKept(table) && Chosen(table, self, best)
    ensures TableInv(table, self, best)
  {
    hide WellKept, Agreed, Optimal, Chosen, NoneQualifies;
    ChosenFacts(table, self, best);
  }

  lemma AnnounceSteps(c: Client, table: Table, best: Option<PortIdentity>)
    requires PortInv(c)
    ensures var n := AfterAnnounce(c, table, best); PortInv(n) && n.table == table && n.self == c.self
  {
    hide OffsetOf;
  }

  lemma RejectSteps(c: Client, source: PortIdentity, best: Option<PortIdentity>)
    requires PortInv(c)
    requires c.best.None? ==> best.None?
    ensures var n := AfterReject(c, source, best);
      PortInv(n) && n.table == c.table - {source} && n.self == c.self
  {
    hide OffsetOf;
  }

  lemma TimeoutsSteps(c: Client, e: Event, best: Option<PortIdentity>)
    requires PortInv(c) && e.CheckTimeouts?
    requires c.best.None? ==> best.None?
    ensures var n := AfterTimeouts(c, e, best);
      PortInv(n) && n.table == LiveTable(c.table, e.now, e.announceTimeout) && n.self == c.self
  {
    hide LiveTable, OffsetOf;
  }

  lemma SyncSteps(c: Client, e: Event)
    requires PortInv(c) && e.SyncFrame?
    ensures var n := AfterSync(c, e); PortInv(n) && n.table == c.table && n.self == c.self && n.best == c.best
  {
  }

  lemma StepInv(c: Client, e: Event, n: Client)
    requires Inv(c) && Step(c, e, n)
    ensures Inv(n)
  {
    hide TableInv, PortInv, Chosen, AfterAnnounce, AfterReject, AfterTimeouts, AfterSync, LiveTable,
      AnnouncedTable, IsDuplicate;
    match e
    case Announce(_, _, _, _, _) =>
      if IsDuplicate(c, e) {
        DuplicateInv(c, e);
      } else {
        AnnouncedWellKept(c, e);
        ChosenInv(AnnouncedTable(c, e), c.self, n.best);
        AnnounceSteps(c, AnnouncedTable(c, e), n.best);
      }
    case Reject(source) =>
      FewerInv(c, c.table - {source}, n.best);
      RejectSteps(c, source, n.best);
    case CheckTimeouts(now, timeout, _) =>
      LiveTableFewer(c.table, now, timeout);
      FewerInv(c, LiveTable(c.table, now, timeout), n.best);
      TimeoutsSteps(c, e, n.best);
    case SyncFrame(_, _) => SyncSteps(c, e);
  }

  lemma LiveTableFewer(table: Table, now: int, timeout: int)
    ensures var live := LiveTable(table, now, timeout);
      forall id | id in live :: id in table && live[id] == table[id]
  {
  }

  /** Taking entries away leaves the table well kept and qualifies nobody. */
  lemma FewerInv(c: Client, table: Table, best: Option<PortIdentity>)
    requires TableInv(c.table, c.self, c.best)
    requires forall id | id in table :: id in c.table && table[id] == c.table[id]
    requires Chosen(table, c.self, best)
    ensures TableInv(table, c.self, best)
    ensures c.best.None? ==> best.None?
  {
    hide Chosen, Optimal, Agreed;
    ChosenFacts(table, c.self, best);
  }

  lemma AnnouncedWellKept(c: Client, e: Event)
    requires TableInv(c.table, c.self, c.best) && e.Announce? && !IsDuplicate(c, e)
    ensures WellKept(AnnouncedTable(c, e))
  {
    hide Agreed, Optimal, NoneQualifies;
  }

  /** In every state of every run the chosen master is an entry of the table, none is chosen
      only if none qualifies, a chosen one means UNCALIBRATED or SLAVE, only a SLAVE calls its
      clock synchronised, and, entries agreeing, no qualified master is better. */
  lemma {:induction false} RunInv(cs: seq<Client>, es: seq<Event>, k: nat)
    requires Run(cs, es) && k < |cs|
    ensures Inv(cs[k])
  {
    hide Inv, Step;
    if k == 0 {
      StartInv(cs[0].self);
    } else {
      RunInv(cs, es, k - 1);
      StepInv(cs[k - 1], es[k - 1], cs[k]);
    }
  }

  lemma StartInv(self: PortIdentity)
    ensures Inv(Start(self))
  {
  }

  // ------------------------------------------- when the port tells the truth

  /** The port and the choice agree, and nothing is held from any other master. */
  predicate Coherent(c: Client) {
    && (c.best.None? <==> c.port == Listening)
    && (c.measured.Some? ==> c.measured == c.best)
  }

  predicate OthersQualify(table: Table, id: PortIdentity) {
    exists other | other in table :: other != id && table[other].Qualified()
  }

  /** No announcement of the sender is left in the window. */
  predicate WindowEmpty(table: Table, e: Event)
    requires e.Announce?
  {
    e.source in table ==> Recent(table[e.source].times, e.now - e.window) == []
  }

  /** The chosen master is lost without the port hearing of it: the only candidate announces
      itself after its window ran empty, or some other master is rejected after duplicates
      disqualified the chosen one. */
  predicate Stranded(c: Client, e: Event) {
    && c.best.Some?
    && match e
       case Announce(source, _, _, _, _) => !OthersQualify(c.table, source) && WindowEmpty(c.table, e)
       case Reject(source) => c.best.value != source && !OthersQualify(c.table, source)
       case _ => false
  }

  /** Some other master is rejected, which makes the client look again and move on from a
      chosen master that duplicates disqualified, keeping what was measured against it. */
  predicate Switched(c: Client, e: Event) {
    && c.best.Some?
    && e.Reject?
    && c.best.value != e.source
    && OthersQualify(c.table, e.source)
    && !Qualifies(c.table, c.best.value)
    && c.measured.Some?
  }

  lemma AnnouncedQualifies(c: Client, e: Event)
    requires e.Announce? && !IsDuplicate(c, e)
    ensures NoneQualifies(AnnouncedTable(c, e)) <==> !OthersQualify(c.table, e.source) && WindowEmpty(c.table, e)
  {
    hide Duplicate, Recent;
    var table := AnnouncedTable(c, e);
    var prior := Prior(c.table, e.source);
    assert Recent([], e.now - e.window) == [];
    assert table[e.source].Qualified() <==> Recent(prior.times, e.now - e.window) != [];
    assert forall id | id in c.table && id != e.source :: table[id] == c.table[id];
  }

  lemma AfterAnnounceCoherent(c: Client, table: Table, best: Option<PortIdentity>)
    requires PortInv(c) && Coherent(c)
    ensures Coherent(AfterAnnounce(c, table, best)) <==> !(c.best.Some? && best.None?)
  {
    hide OffsetOf;
  }

  lemma AfterRejectCoherent(c: Client, source: PortIdentity, best: Option<PortIdentity>)
    requires PortInv(c) && Coherent(c) && (c.best.None? ==> best.None?)
    ensures Coherent(AfterReject(c, source, best)) <==>
      (c.best.Some? && c.best.value != source ==> best.Some? && (best == c.best || c.measured.None?))
  {
    hide OffsetOf;
  }

  lemma AfterTimeoutsCoherent(c: Client, e: Event, best: Option<PortIdentity>)
    requires PortInv(c) && Coherent(c) && (c.best.None? ==> best.None?) && e.CheckTimeouts?
    ensures Coherent(AfterTimeouts(c, e, best))
  {
    hide OffsetOf, LiveTable;
  }

  /** An Announce that counts leaves the port wrong exactly when it strands the client. */
  lemma AnnounceCoherent(c: Client, e: Event, n: Client)
    requires Inv(c) && Coherent(c) && Step(c, e, n) && e.Announce? && !IsDuplicate(c, e)
    ensures Coherent(n) <==> !Stranded(c, e)
  {
    AnnouncedQualifies(c, e);
    ChosenFacts(AnnouncedTable(c, e), c.self, n.best);
    AfterAnnounceCoherent(c, AnnouncedTable(c, e), n.best);
    hide TableInv, PortInv, Chosen, AnnouncedTable, IsDuplicate, OthersQualify, WindowEmpty, NoneQualifies,
      AfterAnnounce, Coherent, Qualifies, Optimal, Agreed;
  }

  lemma OthersRemain(table: Table, id: PortIdentity)
    ensures NoneQualifies(table - {id}) <==> !OthersQualify(table, id)
  {
    if OthersQualify(table, id) {
      var other :| other in table && other != id && table[other].Qualified();
      assert other in table - {id};
    }
  }

  lemma RejectCoherent(c: Client, e: Event, n: Client)
    requires Inv(c) && Coherent(c) && Step(c, e, n) && e.Reject? && Agreed(c.table, c.self)
    ensures Coherent(n) <==> !Stranded(c, e) && !Switched(c, e)
  {
    var table := c.table - {e.source};
    hide PortInv, Chosen, Agreed, Optimal, AfterReject, Coherent, OthersQualify, NoneQualifies;
    ChosenFacts(table, c.self, n.best);
    OthersRemain(c.table, e.source);
    RejectTable(c, e.source, n.best);
    AfterRejectCoherent(c, e.source, n.best);
    if c.best.Some? && c.best.value != e.source && Qualifies(c.table, c.best.value) {
      KeptBest(c, e.source, n.best);
    }
  }

  lemma RejectTable(c: Client, source: PortIdentity, best: Option<PortIdentity>)
    requires TableInv(c.table, c.self, c.best) && Chosen(c.table - {source}, c.self, best)
    ensures c.best.None? ==> best.None?
    ensures best != Some(source)
  {
    hide Agreed, Optimal, Chosen;
    ChosenFacts(c.table - {source}, c.self, best);
  }

  /** A chosen master that still qualifies stays chosen when another is rejected. */
  lemma KeptBest(c: Client, source: PortIdentity, best: Option<PortIdentity>)
    requires TableInv(c.table, c.self, c.best) && Agreed(c.table, c.self)
    requires c.best.Some? && c.best.value != source && Qualifies(c.table, c.best.value)
    requires Chosen(c.table - {source}, c.self, best)
    ensures best == c.best
  {
    var table := c.table - {source};
    hide Chosen, Agree, DSCmp;
    ChosenFacts(table, c.self, best);
    assert Qualifies(table, c.best.value);
    forall id | id in table ensures DatasetAt(table, c.self, id) == DatasetAt(c.table, c.self, id) {}
    forall id | Qualifies(table, id) ensures Qualifies(c.table, id) {}
    hide DatasetAt;
    assert Agreed(table, c.self);
    assert Optimal(table, c.self, c.best);
    OptimalUnique(table, c.self, c.best.value, best.value);
  }

  lemma TimeoutsCoherent(c: Client, e: Event, n: Client)
    requires Inv(c) && Coherent(c) && Step(c, e, n) && e.CheckTimeouts?
    ensures Coherent(n)
  {
    hide TableInv, PortInv, Chosen, LiveTable, AfterTimeouts, Coherent;
    LiveTableFewer(c.table, e.now, e.announceTimeout);
    FewerInv(c, LiveTable(c.table, e.now, e.announceTimeout), n.best);
    AfterTimeoutsCoherent(c, e, n.best);
  }

  lemma SyncCoherent(c: Client, e: Event)
    requires PortInv(c) && Coherent(c) && e.SyncFrame?
    ensures Coherent(AfterSync(c, e))
  {
  }

  /** From a coherent state, and announcements agreeing, a step leads to an incoherent one
      exactly when it strands the client or switches its master unannounced. */
  lemma CoherentExactly(c: Client, e: Event, n: Client)
    requires Inv(c) && Coherent(c) && Step(c, e, n) && Agreed(c.table, c.self)
    ensures Coherent(n) <==> !Stranded(c, e) && !Switched(c, e)
  {
    match e
    case Announce(_, _, _, _, _) =>
      if IsDuplicate(c, e) { DuplicateCoherent(c, e); } else { AnnounceCoherent(c, e, n); }
    case Reject(_) => RejectCoherent(c, e, n);
    case CheckTimeouts(_, _, _) => TimeoutsCoherent(c, e, n);
    case SyncFrame(_, _) => SyncCoherent(c, e);
    hide TableInv, PortInv, Chosen, Agreed, Coherent, AfterAnnounce, AfterReject, AfterTimeouts, AfterSync,
      AnnouncedTable, IsDuplicate, OthersQualify, WindowEmpty;
  }

  lemma DuplicateCoherent(c: Client, e: Event)
    requires e.Announce? && IsDuplicate(c, e)
    ensures Coherent(c.(table := AnnouncedTable(c, e))) <==> Coherent(c)
    ensures !Stranded(c, e)
  {
    hide AnnouncedTable, Recent, OthersQualify;
  }

  /** As long as no step strands the client or switches unannounced, it is a listener exactly
      while it has no master, and what it holds was measured against the one it has. */
  lemma {:induction false} RunCoherent(cs: seq<Client>, es: seq<Event>, k: nat)
    requires Run(cs, es) && k < |cs|
    requires forall i | 0 <= i < k :: Agreed(cs[i].table, cs[i].self)
    requires forall i | 0 <= i < k :: !Stranded(cs[i], es[i]) && !Switched(cs[i], es[i])
    ensures Coherent(cs[k])
  {
    hide Inv, Step, Agreed, Stranded, Switched;
    if k > 0 {
      RunCoherent(cs, es, k - 1);
      RunInv(cs, es, k - 1);
      CoherentExactly(cs[k - 1], es[k - 1], cs[k]);
    }
  }

  /** A port that is a SLAVE without a master: one master, announced twice, then only once
      more after its window ran empty. */
  lemma StrandedExample(self: PortIdentity, master: PortIdentity, a: Announcement)
    returns (cs: seq<Client>, es: seq<Event>)
    ensures Run(cs, es) && |es| == 4
    ensures cs[4].best.None? && cs[4].port == Slave && cs[4].synchronized
  {
    hide Chosen, Recent;
    RecentTwo();
    var r1, r2 := Heard(master, a, 0), HeardTwice(master, a, 0);
    var r4 := r2.(lastSeen := 9, count := 1, times := [9], lastSequence := 2);
    var c0 := Start(self);
    var c1 := c0.(table := map[master := r1]);
    var c2 := c1.(table := map[master := r2], best := Some(master), utcOffset := a.utcOffset, port := Uncalibrated);
    var c3 := c2.(port := Slave, synchronized := true, lastSync := Some(11), measured := Some(master));
    var c4 := c3.(table := map[master := r4], best := None, utcOffset := 0);
    NoneChosen(c1.table, self);
    OneChosen(c2.table, self, master);
    NoneChosen(c4.table, self);
    cs := [c0, c1, c2, c3, c4];
    es := [Announce(master, a, 0, 4, 0), Announce(master, a, 1, 4, 1),
           SyncFrame(master, Offset(11, Locked(true))), Announce(master, a, 9, 4, 2)];
    FirstHeard(c0, master, a, 0, c1);
    SecondHeard(c1, master, a, 0, c2);
    AnnouncedTo(c3, es[3], r4, c4.table);
    hide AnnouncedTable;
    assert Step(c0, es[0], c1) && Step(c1, es[1], c2) && Step(c2, es[2], c3) && Step(c3, es[3], c4);
  }

  lemma RecentTwo()
    ensures Recent([0, 1], 5) == []
  {
    assert [0][..0] == [] && [0, 1][..1] == [0];
  }

  lemma NoneChosen(table: Table, self: PortIdentity)
    requires NoneQualifies(table)
    ensures Chosen(table, self, None)
  {
    assert Ordering(table, []);
  }

  lemma OneChosen(table: Table, self: PortIdentity, id: PortIdentity)
    requires forall other :: Qualifies(table, other) <==> other == id
    ensures Chosen(table, self, Some(id))
  {
    assert Ordering(table, [id]);
    assert Choice(table, self, [id]) == Some(id);
  }

  /** A client that waits for the FOLLOW_UP of one master's SYNC and has another master: a
      repeated Announce disqualified the first, and it took the rejection of a third for the
      client to notice. */
  lemma SwitchedExample(self: PortIdentity, one: PortIdentity, two: PortIdentity, other: PortIdentity,
                        a: Announcement, b: Announcement)
    returns (cs: seq<Client>, es: seq<Event>)
    requires one != two && other !in {one, two} && a.identity != b.identity && a.priority1 < b.priority1
    ensures Run(cs, es) && |es| == 7
    ensures Switched(cs[6], es[6]) && es[6] == Reject(other)
    ensures cs[7].best == Some(two) && cs[7].measured == Some(one) && cs[7].syncReceived
  {
    hide Chosen, Step, Run, Switched;
    var a1, a2, b1, b2 := Heard(one, a, 0), HeardTwice(one, a, 0), Heard(two, b, 1), HeardTwice(two, b, 1);
    var c0 := Start(self);
    var c1 := c0.(table := map[one := a1]);
    var c2 := c1.(table := map[one := a2], best := Some(one), utcOffset := a.utcOffset, port := Uncalibrated);
    var c3 := c2.(table := map[one := a2, two := b1]);
    var c4 := c2.(table := map[one := a2, two := b2]);
    var c5 := c4.(measured := Some(one), syncReceived := true);
    NoneChosen(c1.table, self);
    OneChosen(c2.table, self, one);
    OneChosen(c3.table, self, one);
    BetterChosen(c4.table, self, one, two);
    FirstHeard(c0, one, a, 0, c1);
    SecondHeard(c1, one, a, 0, c2);
    FirstHeard(c2, two, b, 1, c3);
    SecondHeard(c3, two, b, 1, c4);
    SyncWaits(c4, one, c5);
    var c6, c7 := SwitchedLate(c5, one, two, other, a, b);
    cs := [c0, c1, c2, c3, c4, c5, c6, c7];
    es := [Announce(one, a, 0, 4, 0), Announce(one, a, 1, 4, 1), Announce(two, b, 1, 4, 0), Announce(two, b, 2, 4, 1),
           SyncFrame(one, Incomplete(true)), Announce(one, a, 5, 4, 1), Reject(other)];
    SevenSteps(cs, es);
  }

  lemma SevenSteps(cs: seq<Client>, es: seq<Event>)
    requires |cs| == 8 && |es| == 7 && cs[0] == Start(cs[0].self)
    requires Step(cs[0], es[0], cs[1]) && Step(cs[1], es[1], cs[2]) && Step(cs[2], es[2], cs[3])
    requires Step(cs[3], es[3], cs[4]) && Step(cs[4], es[4], cs[5]) && Step(cs[5], es[5], cs[6])
    requires Step(cs[6], es[6], cs[7])
    ensures Run(cs, es)
  {
    hide Step;
  }

  /** The entry of a master heard once at t, and once more a nanosecond later. */
  function Heard(m: PortIdentity, a: Announcement, t: int): Record {
    Record(m, a, m, a.utcOffset, t, 1, [t], 0, true)
  }

  function HeardTwice(m: PortIdentity, a: Announcement, t: int): Record {
    Record(m, a, m, a.utcOffset, t + 1, 2, [t, t + 1], 1, true)
  }

  lemma FirstHeard(c: Client, m: PortIdentity, a: Announcement, t: int, n: Client)
    requires m !in c.table && n.table == c.table[m := Heard(m, a, t)] && Chosen(n.table, c.self, n.best)
    requires n == AfterAnnounce(c, n.table, n.best)
    ensures Step(c, Announce(m, a, t, 4, 0), n)
  {
    assert Recent([], t - 4) == [];
    AnnouncedTo(c, Announce(m, a, t, 4, 0), Heard(m, a, t), n.table);
    hide Chosen, AnnouncedTable, AfterAnnounce, Recent;
  }

  lemma SecondHeard(c: Client, m: PortIdentity, a: Announcement, t: int, n: Client)
    requires m in c.table && c.table[m] == Heard(m, a, t)
    requires n.table == c.table[m := HeardTwice(m, a, t)] && Chosen(n.table, c.self, n.best)
    requires n == AfterAnnounce(c, n.table, n.best)
    ensures Step(c, Announce(m, a, t + 1, 4, 1), n)
  {
    assert [t][..0] == [] && Recent([], t - 3) == [] && Recent([t], t - 3) == [t];
    AnnouncedTo(c, Announce(m, a, t + 1, 4, 1), HeardTwice(m, a, t), n.table);
    hide Chosen, AnnouncedTable, AfterAnnounce, Recent;
  }

  lemma SyncWaits(c: Client, m: PortIdentity, n: Client)
    requires c.port == Uncalibrated && c.best == Some(m) && n == c.(measured := Some(m), syncReceived := true)
    ensures Step(c, SyncFrame(m, Incomplete(true)), n)
  {
  }

  lemma SwitchedLate(c: Client, one: PortIdentity, two: PortIdentity, other: PortIdentity, a: Announcement,
                     b: Announcement)
    returns (d: Client, n: Client)
    requires one != two && other !in {one, two}
    requires c.table == map[one := HeardTwice(one, a, 0), two := HeardTwice(two, b, 1)]
    requires c.best == c.measured == Some(one) && c.syncReceived
    ensures Step(c, Announce(one, a, 5, 4, 1), d) && Step(d, Reject(other), n) && Switched(d, Reject(other))
    ensures n.best == Some(two) && n.measured == Some(one) && n.syncReceived
  {
    hide Chosen, Recent;
    RecentRepeat();
    var r := HeardTwice(one, a, 0).(count := 1, times := [1]);
    d := c.(table := map[one := r, two := HeardTwice(two, b, 1)]);
    n := d.(best := Some(two), utcOffset := b.utcOffset);
    RepeatedTo(c, Announce(one, a, 5, 4, 1), r, d.table);
    OneChosen(d.table, c.self, two);
    hide AnnouncedTable;
    assert d.table - {other} == d.table;
    assert two in d.table && two != other && d.table[two].Qualified();
  }

  lemma AnnouncedTo(c: Client, e: Event, r: Record, table: Table)
    requires e.Announce? && !IsDuplicate(c, e)
    requires r == Stored(Recorded(Prior(c.table, e.source), e.now, e.window, e.sequence), e.source, e.announcement)
    requires table == c.table[e.source := r]
    ensures AnnouncedTable(c, e) == table
  {
    hide Recorded, Duplicate, Prior, Stored;
  }

  lemma RepeatedTo(c: Client, e: Event, r: Record, table: Table)
    requires e.Announce? && IsDuplicate(c, e)
    requires r == Recorded(Prior(c.table, e.source), e.now, e.window, e.sequence)
    requires table == c.table[e.source := r]
    ensures AnnouncedTable(c, e) == table
  {
    hide Recorded, Duplicate, Prior, Stored;
  }

  lemma RecentRepeat()
    ensures Recent([0, 1], 1) == [1]
  {
    assert [0][..0] == [] && [0, 1][..1] == [0];
  }

  /** Of two qualified masters the one with the better priority is chosen. */
  lemma BetterChosen(table: Table, self: PortIdentity, one: PortIdentity, two: PortIdentity)
    requires one != two && table.Keys == {one, two} && table[one].Qualified() && table[two].Qualified()
    requires table[one].announcement.identity != table[two].announcement.identity
    requires table[one].announcement.priority1 < table[two].announcement.priority1
    ensures Chosen(table, self, Some(one))
  {
    var order := [one, two];
    assert Ordering(table, order);
    var ds := Datasets(table, self, order);
    assert ds[..1] == [ds[0]];
    CompareEqual(ds[1].identity, ds[0].identity);
    assert SelectIndex(ds) == 0;
    assert Choice(table, self, order) == Some(one);
  }

  /** With announcements that agree, the map's iteration order never shows: the next state is
      determined by the state and the event. */
  lemma StepDeterministic(c: Client, e: Event, one: Client, two: Client)
    requires Inv(c) && Step(c, e, one) && Step(c, e, two) && Agreed(one.table, c.self)
    ensures one == two
  {
    match e
    case Announce(_, _, _, _, _) =>
      if !IsDuplicate(c, e) {
        AnnouncedWellKept(c, e);
        AnnounceSteps(c, AnnouncedTable(c, e), one.best);
        ChoiceUnique(AnnouncedTable(c, e), c.self, one.best, two.best);
      }
    case Reject(source) =>
      FewerInv(c, c.table - {source}, one.best);
      RejectSteps(c, source, one.best);
      ChoiceUnique(c.table - {source}, c.self, one.best, two.best);
    case CheckTimeouts(now, timeout, _) =>
      LiveTableFewer(c.table, now, timeout);
      FewerInv(c, LiveTable(c.table, now, timeout), one.best);
      TimeoutsSteps(c, e, one.best);
      ChoiceUnique(LiveTable(c.table, now, timeout), c.self, one.best, two.best);
    case SyncFrame(_, _) =>
    hide Agreed, Optimal, WellKept, NoneQualifies, PortInv, Chosen, AfterAnnounce, AfterReject, AfterTimeouts,
      AfterSync, LiveTable, AnnouncedTable, IsDuplicate;
  }

}
