/** The GOOSE publisher's state: stNum, sqNum and the values they number. */
module GoosePublisher {
  import opened Wrappers
  import opened Bytes
  import opened GooseData
  import GooseCodec
  import Ethernet
  import UtcTime

  const U32: nat := 0x1_0000_0000

  /** Increment of an unsigned 32-bit serial number that never becomes zero again. */
  function NextSerial(n: nat): (r: nat)
    ensures 1 <= r < U32
  {
    if (n + 1) % U32 == 0 then 1 else (n + 1) % U32
  }

  /** stNum of the publisher's u-th state, counting from zero. */
  function StNum(u: nat): (r: nat)
    ensures 1 <= r < U32
  {
    u % (U32 - 1) + 1
  }

  /** sqNum of the n-th frame of one state, counting from zero. */
  function SqNum(n: nat): (r: nat)
    ensures r < U32
  {
    if n == 0 then 0 else (n - 1) % (U32 - 1) + 1
  }

  lemma SerialSteps(n: nat)
    ensures NextSerial(StNum(n)) == StNum(n + 1)
    ensures NextSerial(SqNum(n)) == SqNum(n + 1)
  {
    ModSucc(n, U32 - 1);
    if n > 0 { ModSucc(n - 1, U32 - 1); }
  }

  lemma FirstFrame()
    ensures SqNum(0) == 0
  {
  }

  datatype Config = Config(
    dstMac: bytes, srcMac: bytes, vlan: Option<Ethernet.VlanTag>, appId: nat,
    gocbRef: bytes, datSet: bytes, goId: bytes, confRev: nat, ndsCom: bool, maxMs: nat)

  datatype State = State(
    stNum: nat, sqNum: nat,
    logical: seq<DataValue>, data: seq<DataValue>, test: bool, simulation: bool,
    stateChanged: UtcTime.Time, timeQuality: UtcTime.TimeQuality)

  /** Unset instants in the data become the time of the state change, and every instant
      takes the clock's quality. */
  function ResolveTime(v: DataValue, now: UtcTime.Time, q: UtcTime.TimeQuality): DataValue {
    match v
    case Array(children) => Array(ResolveTimes(children, now, q))
    case Structure(children) => Structure(ResolveTimes(children, now, q))
    case UtcTimeValue(t, _) => UtcTimeValue(if t == UtcTime.ZERO then now else t, q)
    case _ => v
  }

  function ResolveTimes(values: seq<DataValue>, now: UtcTime.Time, q: UtcTime.TimeQuality)
    : (r: seq<DataValue>)
    ensures |r| == |values|
    decreases values, 0
  {
    if values == [] then []
    else [ResolveTime(values[0], now, q)] + ResolveTimes(values[1..], now, q)
  }

  /** The instants in some values, in order. */
  function Instants(values: seq<DataValue>): seq<(UtcTime.Time, UtcTime.TimeQuality)>
    decreases values, 0
  {
    if values == [] then [] else InstantsOf(values[0]) + Instants(values[1..])
  }

  function InstantsOf(v: DataValue): seq<(UtcTime.Time, UtcTime.TimeQuality)> {
    match v
    case Array(children) => Instants(children)
    case Structure(children) => Instants(children)
    case UtcTimeValue(t, q) => [(t, q)]
    case _ => []
  }

  function Filled(ts: seq<(UtcTime.Time, UtcTime.TimeQuality)>, now: UtcTime.Time, q: UtcTime.TimeQuality)
    : (r: seq<(UtcTime.Time, UtcTime.TimeQuality)>)
    ensures |r| == |ts|
  {
    seq(|ts|, i requires 0 <= i < |ts| => (if ts[i].0 == UtcTime.ZERO then now else ts[i].0, q))
  }

  /** Some values with every instant blanked out. */
  function Blanked(values: seq<DataValue>): (r: seq<DataValue>)
    ensures |r| == |values|
    decreases values, 0
  {
    if values == [] then [] else [BlankedOne(values[0])] + Blanked(values[1..])
  }

  function BlankedOne(v: DataValue): DataValue {
    match v
    case Array(children) => Array(Blanked(children))
    case Structure(children) => Structure(Blanked(children))
    case UtcTimeValue(_, _) => UtcTimeValue(UtcTime.ZERO, GooseCodec.NO_QUALITY)
    case _ => v
  }

  /** Resolving fills in just the unset instants, however deep, gives every instant the clock's
      quality, and leaves everything else as it is. */
  lemma {:induction false} ResolvesInstants(values: seq<DataValue>, now: UtcTime.Time, q: UtcTime.TimeQuality)
    ensures Instants(ResolveTimes(values, now, q)) == Filled(Instants(values), now, q)
    ensures Blanked(ResolveTimes(values, now, q)) == Blanked(values)
    decreases values, 0
  {
    if values != [] {
      var r := ResolveTimes(values, now, q);
      assert r[0] == ResolveTime(values[0], now, q) && r[1..] == ResolveTimes(values[1..], now, q);
      ResolvesOne(values[0], now, q);
      ResolvesInstants(values[1..], now, q);
    }
    hide ResolveTime, InstantsOf, BlankedOne;
  }

  lemma {:induction false} ResolvesOne(v: DataValue, now: UtcTime.Time, q: UtcTime.TimeQuality)
    ensures InstantsOf(ResolveTime(v, now, q)) == Filled(InstantsOf(v), now, q)
    ensures BlankedOne(ResolveTime(v, now, q)) == BlankedOne(v)
  {
    match v
    case Array(children) => ResolvesInstants(children, now, q);
    case Structure(children) => ResolvesInstants(children, now, q);
    case _ =>
  }

  function Initial(initial: seq<DataValue>, now: UtcTime.Time, q: UtcTime.TimeQuality): State {
    State(1, 0, initial, ResolveTimes(initial, now, q), false, false, now, q)
  }

  predicate Changes(s: State, data: seq<DataValue>, test: bool, simulation: bool) {
    s.logical != data || s.test != test || s.simulation != simulation
  }

  /** A complete new publisher state, numbered once, timestamped once. */
  function Apply(s: State, data: seq<DataValue>, test: bool, simulation: bool,
                 now: UtcTime.Time, q: UtcTime.TimeQuality): State
  {
    if !Changes(s, data, test, simulation) then s
    else State(NextSerial(s.stNum), 0, data, ResolveTimes(data, now, q), test, simulation, now, q)
  }

  function Frame(c: Config, s: State): GooseCodec.Pdu {
    GooseCodec.Pdu(c.dstMac, c.srcMac, c.vlan, c.appId, s.simulation, c.gocbRef, c.maxMs, c.datSet,
      c.goId, s.stateChanged, s.timeQuality, s.stNum, s.sqNum, s.test, c.confRev, c.ndsCom,
      |s.data| % U32, s.data)
  }

  function Transmitted(s: State): State { s.(sqNum := NextSerial(s.sqNum)) }

  class Publisher {
    const config: Config
    var stNum: nat
    var sqNum: nat
    var logicalData: seq<DataValue>
    var data: seq<DataValue>
    var test: bool
    var simulation: bool
    var stateChanged: UtcTime.Time
    var timeQuality: UtcTime.TimeQuality

    function View(): State
      reads this
    {
      State(stNum, sqNum, logicalData, data, test, simulation, stateChanged, timeQuality)
    }

    constructor (c: Config, initial: seq<DataValue>, now: UtcTime.Time, q: UtcTime.TimeQuality)
      ensures View() == Initial(initial, now, q) && config == c
    {
      config := c;
      stNum, sqNum := 1, 0;
      logicalData, data := initial, ResolveTimes(initial, now, q);
      test, simulation := false, false;
      stateChanged, timeQuality := now, q;
    }

    method ApplyState(values: seq<DataValue>, testMode: bool, sim: bool,
                      now: UtcTime.Time, q: UtcTime.TimeQuality) returns (changed: bool)
      modifies this
      ensures View() == Apply(old(View()), values, testMode, sim, now, q)
      ensures changed == Changes(old(View()), values, testMode, sim)
    {
      hide ResolveTimes, ResolveTime;
      if logicalData == values && test == testMode && simulation == sim {
        return false;
      }
      logicalData := values;
      data := ResolveTimes(values, now, q);
      test, simulation := testMode, sim;
      stNum := (stNum + 1) % U32;
      if stNum == 0 {
        stNum := 1;
      }
      sqNum := 0;
      stateChanged, timeQuality := now, q;
      return true;
    }

    /** The part of a transmission that runs under the lock: the frame is built from one
        consistent state, and its sqNum is used up. */
    method TransmitState() returns (pdu: GooseCodec.Pdu, transmittedStNum: nat)
      modifies this
      ensures pdu == Frame(config, old(View())) && transmittedStNum == old(stNum)
      ensures View() == Transmitted(old(View()))
    {
      pdu := Frame(config, View());
      transmittedStNum := stNum;
      sqNum := (sqNum + 1) % U32;
      if sqNum == 0 {
        sqNum := 1;
      }
    }
  }
}
