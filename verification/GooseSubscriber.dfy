/** GOOSE reception: which frames of a stream move its baseline, and what is reported. */
module GooseSubscriber {
  import opened Wrappers
  import opened Bytes
  import GooseCodec
  import UtcTime

  const U32: nat := 0x1_0000_0000
  const HALF: nat := 0x8000_0000
  const MILLISECOND: int := 1_000_000

  datatype Reason = FirstSeen | StateChange | PublisherRestart | ConfRevChanged
                  | StreamLost | StreamRestored

  datatype Event = Event(reason: Reason, previousStNum: nat, sqNumGap: nat)

  datatype Key = Key(dstMac: bytes, appId: nat, gocbRef: bytes)

  datatype Stream = Stream(
    lastStNum: nat, lastSqNum: nat, lastConfRev: nat, lastSeenAt: UtcTime.Time, talMs: nat,
    lastPdu: Option<GooseCodec.Pdu>, seen: bool, lost: bool)

  const UNSEEN := Stream(0, 0, 0, UtcTime.ZERO, 0, None, false, false)

  function KeyOf(p: GooseCodec.Pdu): Key { Key(p.dstMac, p.appId, p.gocbRef) }

  /** How far `a` lies ahead of `b` in unsigned 32-bit arithmetic. */
  function Distance(a: int, b: int): (d: nat)
    ensures d < U32
  {
    (a - b) % U32
  }

  predicate IsStateChange(s: Stream, p: GooseCodec.Pdu) {
    s.seen && 0 < Distance(p.stNum, s.lastStNum) < HALF
  }

  predicate IsRestartCandidate(s: Stream, p: GooseCodec.Pdu) {
    s.seen && Distance(p.stNum, s.lastStNum) >= HALF
  }

  predicate IsDuplicate(s: Stream, p: GooseCodec.Pdu) {
    s.seen && p.stNum == s.lastStNum && p.sqNum == s.lastSqNum
  }

  predicate IsHeartbeat(s: Stream, p: GooseCodec.Pdu) {
    s.seen && p.stNum == s.lastStNum && 0 < Distance(p.sqNum, s.lastSqNum) < HALF
  }

  predicate IsReorderedHeartbeat(s: Stream, p: GooseCodec.Pdu) {
    s.seen && p.stNum == s.lastStNum && !IsDuplicate(s, p) && !IsHeartbeat(s, p)
  }

  function LastTimestamp(s: Stream): UtcTime.Time {
    if s.lastPdu.Some? then s.lastPdu.value.timestamp else UtcTime.ZERO
  }

  predicate StaleTimestamp(s: Stream, p: GooseCodec.Pdu) {
    p.timestamp != UtcTime.ZERO && LastTimestamp(s) != UtcTime.ZERO
    && p.timestamp < LastTimestamp(s)
  }

  predicate IsRestart(s: Stream, p: GooseCodec.Pdu) {
    && IsRestartCandidate(s, p) && p.sqNum == 0
    && (p.timestamp == UtcTime.ZERO || LastTimestamp(s) == UtcTime.ZERO
        || p.timestamp > LastTimestamp(s))
  }

  predicate Accepts(s: Stream, p: GooseCodec.Pdu) {
    && !IsDuplicate(s, p) && !IsReorderedHeartbeat(s, p) && !StaleTimestamp(s, p)
    && !(IsRestartCandidate(s, p) && !IsRestart(s, p))
  }

  /** The stream after a frame; an ignored frame leaves no trace. */
  function Next(s: Stream, p: GooseCodec.Pdu, receivedAt: UtcTime.Time): Stream {
    if !Accepts(s, p) then s
    else Stream(p.stNum, p.sqNum, p.confRev, receivedAt, p.timeAllowedToLiveMs, Some(p), true, false)
  }

  function SqGap(s: Stream, p: GooseCodec.Pdu): nat {
    if IsHeartbeat(s, p) then Distance(p.sqNum, s.lastSqNum) - 1 else 0
  }

  /** At most one reason besides recovery; restart outranks state change outranks confRev. */
  function Events(s: Stream, p: GooseCodec.Pdu): seq<Event> {
    if !Accepts(s, p) then []
    else
      (if s.lost then [Event(StreamRestored, 0, 0)] else [])
      + (if !s.seen then [Event(FirstSeen, s.lastStNum, 0)]
         else if IsRestart(s, p) then [Event(PublisherRestart, s.lastStNum, 0)]
         else if IsStateChange(s, p) then [Event(StateChange, s.lastStNum, 0)]
         else if p.confRev != s.lastConfRev then
           [Event(ConfRevChanged, s.lastStNum, SqGap(s, p))]
         else [])
  }

  predicate Expired(s: Stream, now: UtcTime.Time) {
    s.seen && !s.lost && now > s.lastSeenAt + s.talMs * MILLISECOND
  }

  function Checked(s: Stream, now: UtcTime.Time): Stream {
    if Expired(s, now) then s.(lost := true) else s
  }

  class Subscriber {
    var streams: map<Key, Stream>

    constructor ()
      ensures streams == map[]
    {
      streams := map[];
    }

    function StreamOf(p: GooseCodec.Pdu): Stream
      reads this
    {
      if KeyOf(p) in streams then streams[KeyOf(p)] else UNSEEN
    }

    method HandleMatch(p: GooseCodec.Pdu, timestamp: UtcTime.Time, wallClock: UtcTime.Time)
      returns (events: seq<Event>)
      modifies this
      ensures var at := if timestamp == UtcTime.ZERO then wallClock else timestamp;
              streams == old(streams)[KeyOf(p) := Next(old(StreamOf(p)), p, at)]
      ensures events == Events(old(StreamOf(p)), p)
    {
      var receivedAt := if timestamp == UtcTime.ZERO then wallClock else timestamp;
      var key := KeyOf(p);
      var state := if key in streams then streams[key] else UNSEEN;
      streams := streams[key := state];

      var prevStNum, wasSeen, wasLost := state.lastStNum, state.seen, state.lost;
      var stateDistance := Distance(p.stNum, prevStNum);
      var isStateChange := wasSeen && stateDistance != 0 && stateDistance < HALF;
      var isRestartCandidate := wasSeen && stateDistance >= HALF;
      var isConfRevChange := wasSeen && p.confRev != state.lastConfRev;
      var sameState := wasSeen && p.stNum == prevStNum;
      var isDuplicate := sameState && p.sqNum == state.lastSqNum;
      var sqDistance := Distance(p.sqNum, state.lastSqNum);
      var isHeartbeat := sameState && sqDistance != 0 && sqDistance < HALF;
      var isReorderedHeartbeat := sameState && !isDuplicate && !isHeartbeat;
      var last := LastTimestamp(state);
      var stale := p.timestamp != UtcTime.ZERO && last != UtcTime.ZERO && p.timestamp < last;
      var restartTimestampOk :=
        p.timestamp == UtcTime.ZERO || last == UtcTime.ZERO || p.timestamp > last;
      var isRestart := isRestartCandidate && p.sqNum == 0 && restartTimestampOk;
      if isDuplicate || isReorderedHeartbeat || stale || (isRestartCandidate && !isRestart) {
        return [];
      }
      var sqGap := if isHeartbeat then sqDistance - 1 else 0;
      state := Stream(p.stNum, p.sqNum, p.confRev, receivedAt, p.timeAllowedToLiveMs, Some(p),
                      true, false);
      streams := streams[key := state];
      events := if wasLost then [Event(StreamRestored, 0, 0)] else [];
      if !wasSeen {
        events := events + [Event(FirstSeen, prevStNum, 0)];
      } else if isRestart {
        events := events + [Event(PublisherRestart, prevStNum, 0)];
      } else if isStateChange {
        events := events + [Event(StateChange, prevStNum, 0)];
      } else if isConfRevChange {
        events := events + [Event(ConfRevChanged, prevStNum, sqGap)];
      }
    }

    /** Streams are visited in no particular order; each expired one is reported once. */
    method CheckStale(now: UtcTime.Time) returns (lost: seq<Key>)
      modifies this
      ensures streams.Keys == old(streams.Keys)
      ensures forall k | k in streams :: streams[k] == Checked(old(streams)[k], now)
      ensures forall k :: k in lost <==> k in old(streams) && Expired(old(streams)[k], now)
      ensures forall i, j | 0 <= i < j < |lost| :: lost[i] != lost[j]
    {
      lost := [];
      var remaining := streams.Keys;
      while remaining != {}
        invariant remaining <= streams.Keys == old(streams.Keys)
        invariant forall k | k in streams ::
          streams[k] == if k in remaining then old(streams)[k] else Checked(old(streams)[k], now)
        invariant forall k :: k in lost <==>
          k in old(streams) && k !in remaining && Expired(old(streams)[k], now)
        invariant forall i, j | 0 <= i < j < |lost| :: lost[i] != lost[j]
        decreases remaining
      {
        var k :| k in remaining;
        remaining := remaining - {k};
        var st := streams[k];
        if st.seen && !st.lost && now > st.lastSeenAt + st.talMs * MILLISECOND {
          streams := streams[k := st.(lost := true)];
          lost := lost + [k];
        }
      }
    }
  }

  /** A publisher that lost its counters starts again with stNum 1, sqNum 0 and a later
      timestamp. What the receiver makes of it depends only on the counters it last saw:
      a restart for stNum 2 to 2^31 + 1, a state change for the numbers behind 1 in serial
      order, and for stNum 1 itself an old frame, unless sqNum had passed 2^31. */
  lemma RestartVerdict(s: Stream, p: GooseCodec.Pdu)
    requires s.seen && s.lastStNum < U32 && s.lastSqNum < U32
    requires p.stNum == 1 && p.sqNum == 0 && p.timestamp > LastTimestamp(s) > UtcTime.ZERO
    ensures IsRestart(s, p) <==> 2 <= s.lastStNum <= HALF + 1
    ensures IsStateChange(s, p) <==> s.lastStNum == 0 || s.lastStNum > HALF + 1
    ensures !Accepts(s, p) <==> s.lastStNum == 1 && s.lastSqNum <= HALF
  {
  }

  /** The frame is later than the last one accepted, as far as timestamps are given. */
  predicate LaterTime(s: Stream, p: GooseCodec.Pdu) {
    p.timestamp == UtcTime.ZERO || LastTimestamp(s) == UtcTime.ZERO || LastTimestamp(s) < p.timestamp
  }

  /** A later frame is taken up exactly if it is ahead in its state, or ahead in state, or the
      first of its state. */
  lemma LaterVerdict(s: Stream, p: GooseCodec.Pdu)
    requires s.seen && s.lastStNum < U32 && p.stNum < U32 && LaterTime(s, p)
    ensures Accepts(s, p) <==>
      if p.stNum == s.lastStNum then 0 < Distance(p.sqNum, s.lastSqNum) < HALF
      else p.sqNum == 0 || Distance(p.stNum, s.lastStNum) < HALF
  {
  }

  /** The first frame of a stream is taken, an earlier timestamp is refused whatever the numbers
      say, and an equal one never makes a restart. */
  lemma TimeVerdict(s: Stream, p: GooseCodec.Pdu)
    requires s.lastStNum < U32 && p.stNum < U32
    ensures !s.seen && s.lastPdu.None? ==> Accepts(s, p)
    ensures UtcTime.ZERO != p.timestamp < LastTimestamp(s) && LastTimestamp(s) != UtcTime.ZERO ==> !Accepts(s, p)
    ensures s.seen && UtcTime.ZERO != p.timestamp == LastTimestamp(s) ==>
      (Accepts(s, p) <==>
         if p.stNum == s.lastStNum then 0 < Distance(p.sqNum, s.lastSqNum) < HALF
         else Distance(p.stNum, s.lastStNum) < HALF)
  {
  }

  /** One frame of the restarted publisher, with a state number behind the last one seen. */
  predicate Behind(s: Stream, p: GooseCodec.Pdu) {
    p.stNum < s.lastStNum && s.lastStNum - p.stNum <= HALF && LaterTime(s, p)
  }

  function Feed(s: Stream, ps: seq<GooseCodec.Pdu>, at: seq<UtcTime.Time>): Stream
    requires |at| == |ps|
  {
    if ps == [] then s
    else Next(Feed(s, ps[..|ps| - 1], at[..|at| - 1]), ps[|ps| - 1], at[|at| - 1])
  }

  /** A restarted publisher whose state number is still behind the last one seen is taken up
      again exactly when one of its frames with sqNum 0 arrives: if that of a state is lost,
      the rest of the state is ignored, and the stream looks dead. */
  lemma {:induction false} RestartTakenUp(s: Stream, ps: seq<GooseCodec.Pdu>, at: seq<UtcTime.Time>)
    requires s.seen && s.lastStNum < U32 && |at| == |ps|
    requires forall p | p in ps :: Behind(s, p)
    ensures (forall p | p in ps :: p.sqNum != 0) ==> Feed(s, ps, at) == s
    ensures (exists p | p in ps :: p.sqNum == 0) ==> Feed(s, ps, at).lastStNum < s.lastStNum && Feed(s, ps, at).seen
  {
    if ps != [] {
      var init, last := ps[..|ps| - 1], ps[|ps| - 1];
      assert Behind(s, last);
      assert forall p | p in ps :: p in init || p == last;
      RestartTakenUp(s, init, at[..|at| - 1]);
      hide Accepts;
      if forall p | p in init :: p.sqNum != 0 {
        LaterVerdict(s, last);
      }
    }
  }

  /** The first frame of a restart is lost: those of its first state are of no use to a
      receiver that saw state 5. */
  lemma LostRestartFrame(s: Stream, p: GooseCodec.Pdu, at: UtcTime.Time)
    requires s.seen && s.lastStNum == 5 && LaterTime(s, p)
    ensures p.stNum == 1 && p.sqNum == 1 ==> Next(s, p, at) == s && Events(s, p) == []
  {
  }

  /** A restart into the very state number last seen is ignored; one that finds the receiver at
      stNum 0 or far ahead passes for a change of state. */
  lemma RestartExamples(s: Stream, p: GooseCodec.Pdu)
    requires s.seen && p.stNum == 1 && p.sqNum == 0 && LaterTime(s, p)
    ensures s.lastStNum == 1 && s.lastSqNum == 7 ==> !Accepts(s, p)
    ensures s.lastStNum == 3_000_000_000 ==> IsStateChange(s, p) && Accepts(s, p) && !IsRestart(s, p)
  {
  }

  // ------------------------------------------------------------ what is reported

  /** The events of a frame are just what the stream before and after it tells: a recovery, which
      comes first; then the first frame, a restart or other change of stNum, or else a new
      confRev with the frames missed within the state. */
  lemma EventsTell(s: Stream, p: GooseCodec.Pdu, at: UtcTime.Time)
    requires s.lastStNum < U32 && s.lastSqNum < U32 && p.stNum < U32 && p.sqNum < U32
    ensures var t, events := Next(s, p, at), Events(s, p);
      && (events != [] ==> t.seen && t.lastPdu == Some(p))
      && (s.lost && !t.lost <==> events != [] && events[0].reason == StreamRestored)
      && (|events| <= if s.lost then 2 else 1)
      && var news := if s.lost && events != [] then events[1..] else events;
        && (!s.seen && t.seen <==> news == [Event(FirstSeen, s.lastStNum, 0)])
        && (s.seen && t.lastStNum != s.lastStNum <==>
              || news == [Event(StateChange, s.lastStNum, 0)]
              || news == [Event(PublisherRestart, s.lastStNum, 0)])
        && (news == [Event(PublisherRestart, s.lastStNum, 0)] <==> t != s && IsRestart(s, p))
        && (s.seen && t.lastStNum == s.lastStNum && t.lastConfRev != s.lastConfRev <==>
              news == [Event(ConfRevChanged, s.lastStNum, (p.sqNum - s.lastSqNum - 1) % U32)])
  {
  }

  datatype Arrival = Frame(p: GooseCodec.Pdu, at: UtcTime.Time) | Check(now: UtcTime.Time)

  function Watched(s: Stream, arrivals: seq<Arrival>): Stream {
    if arrivals == [] then s
    else
      var t := Watched(s, arrivals[..|arrivals| - 1]);
      match arrivals[|arrivals| - 1]
      case Frame(p, at) => Next(t, p, at)
      case Check(now) => Checked(t, now)
  }

  /** While no frame is accepted, a stream is lost exactly once a check comes later than the time
      to live of the last accepted frame after its receipt: replays do not keep it alive. */
  lemma {:induction false} LostExactly(s: Stream, arrivals: seq<Arrival>)
    requires s.seen && !s.lost
    requires forall i | 0 <= i < |arrivals| && arrivals[i].Frame? :: !Accepts(Watched(s, arrivals[..i]), arrivals[i].p)
    ensures Watched(s, arrivals) ==
      s.(lost := exists a | a in arrivals :: a.Check? && a.now > s.lastSeenAt + s.talMs * 1_000_000)
  {
    hide Accepts;
    if arrivals != [] {
      var init, last := arrivals[..|arrivals| - 1], arrivals[|arrivals| - 1];
      assert forall i | 0 <= i < |init| :: init[i] == arrivals[i] && init[..i] == arrivals[..i];
      LostExactly(s, init);
      assert forall a :: a in arrivals <==> a in init || a == last;
      assert arrivals[..|arrivals| - 1] == init;
    }
  }

  /** An accepted frame restarts the watch with its own time to live. */
  lemma AcceptedRestores(s: Stream, p: GooseCodec.Pdu, at: UtcTime.Time)
    requires Accepts(s, p)
    ensures var t := Next(s, p, at);
      t.seen && !t.lost && t.lastSeenAt == at && t.talMs == p.timeAllowedToLiveMs && t.lastPdu == Some(p)
  {
  }
}
