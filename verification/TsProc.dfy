/** The timestamps of a synchronisation exchange and the offsets computed from them
    (IEEE 1588-2008, sections 11.3 and 11.4). Times are nanoseconds, correction fields
    units of 2^-16 ns. */
module TsProc {
  import opened Arithmetic
  import opened Wrappers

  const UNIT: int := 0x1_0000

  function CorrectionDuration(field: int): int { Quotient(field, UNIT) }

  /** Unset timestamps are None. */
  datatype Timestamps = Timestamps(
    t1: Option<int>, t2: Option<int>, t3: Option<int>, t4: Option<int>, peerDelay: int,
    correctionSync: int, correctionFollowUp: int, correctionDelayResp: int)

  const UNSET := Timestamps(None, None, None, None, 0, 0, 0, 0)

  /** All timestamps are cleared; a measured peer delay stays. */
  function Cleared(ts: Timestamps): Timestamps { UNSET.(peerDelay := ts.peerDelay) }

  predicate CompleteE2E(ts: Timestamps) { ts.t1.Some? && ts.t2.Some? && ts.t3.Some? && ts.t4.Some? }

  predicate CompleteP2P(ts: Timestamps) { ts.t1.Some? && ts.t2.Some? }

  function D21(ts: Timestamps): int
    requires CompleteP2P(ts)
  {
    ts.t2.value - ts.t1.value
  }

  function D43(ts: Timestamps): int
    requires CompleteE2E(ts)
  {
    ts.t4.value - ts.t3.value
  }

  function SyncCorrection(ts: Timestamps): int {
    CorrectionDuration(ts.correctionSync + ts.correctionFollowUp)
  }

  function DelayCorrection(ts: Timestamps): int { CorrectionDuration(ts.correctionDelayResp) }

  /** Offset and mean path delay by the end-to-end mechanism. */
  function OffsetE2E(ts: Timestamps): Option<(int, int)> {
    if !CompleteE2E(ts) then None
    else
      Some((Quotient(D21(ts) - D43(ts) - SyncCorrection(ts) + DelayCorrection(ts), 2),
            Quotient(D21(ts) + D43(ts) - SyncCorrection(ts) - DelayCorrection(ts), 2)))
  }

  /** Offset by the peer-to-peer mechanism. */
  function OffsetP2P(ts: Timestamps): Option<int> {
    if !CompleteP2P(ts) then None else Some(D21(ts) - ts.peerDelay - SyncCorrection(ts))
  }

  /** Offset and mean path delay by the mechanism in use. */
  function Measure(peerToPeer: bool, ts: Timestamps): Option<(int, int)> {
    if !peerToPeer then OffsetE2E(ts)
    else match OffsetP2P(ts)
      case None => None
      case Some(offset) => Some((offset, ts.peerDelay))
  }

  /** Mean delay of the link, from a peer-delay exchange. */
  function PeerDelay(t1: int, t2: int, t3: int, t4: int, correction: int): int {
    var d := Quotient((t4 - t1) - (t3 - t2) - CorrectionDuration(correction), 2);
    if d < 0 then 0 else d
  }

  class Processor {
    var t1: Option<int>
    var t2: Option<int>
    var t3: Option<int>
    var t4: Option<int>
    var peerDelay: int
    var correctionSync: int
    var correctionFollowUp: int
    var correctionDelayResp: int

    function Value(): Timestamps
      reads this
    {
      Timestamps(t1, t2, t3, t4, peerDelay, correctionSync, correctionFollowUp, correctionDelayResp)
    }

    constructor ()
      ensures Value() == UNSET
    {
      t1, t2, t3, t4, peerDelay := None, None, None, None, 0;
      correctionSync, correctionFollowUp, correctionDelayResp := 0, 0, 0;
    }

    method SetSync(received: int, correction: int)
      modifies this
      ensures Value() == old(Value()).(t2 := Some(received), correctionSync := correction)
    {
      t2, correctionSync := Some(received), correction;
    }

    method SetOrigin(sent: int, correction: int)
      modifies this
      ensures Value() == old(Value()).(t1 := Some(sent), correctionFollowUp := correction)
    {
      t1, correctionFollowUp := Some(sent), correction;
    }

    method SetDelayReq(sent: int)
      modifies this
      ensures Value() == old(Value()).(t3 := Some(sent), t4 := None)
    {
      t3, t4 := Some(sent), None;
    }

    method SetDelayResp(received: int, correction: int)
      modifies this
      ensures Value() == old(Value()).(t4 := Some(received), correctionDelayResp := correction)
    {
      t4, correctionDelayResp := Some(received), correction;
    }

    method Reset()
      modifies this
      ensures Value() == Cleared(old(Value()))
    {
      t1, t2, t3, t4 := None, None, None, None;
      correctionSync, correctionFollowUp, correctionDelayResp := 0, 0, 0;
    }

    method OffsetAndDelay(peerToPeer: bool) returns (measured: Option<(int, int)>)
      ensures measured == Measure(peerToPeer, Value())
    {
      if peerToPeer {
        if t1.None? || t2.None? { return None; }
        var offset := t2.value - t1.value - peerDelay - CorrectionDuration(correctionSync + correctionFollowUp);
        return Some((offset, peerDelay));
      }
      if t1.None? || t2.None? || t3.None? || t4.None? { return None; }
      var d21, d43 := t2.value - t1.value, t4.value - t3.value;
      var syncCorrection := CorrectionDuration(correctionSync + correctionFollowUp);
      var delayCorrection := CorrectionDuration(correctionDelayResp);
      var delay := Quotient(d21 + d43 - syncCorrection - delayCorrection, 2);
      return Some((Quotient(d21 - d43 - syncCorrection + delayCorrection, 2), delay));
    }
  }

  // --------------------------------------------------------------- accuracy

  /** What the SYNC took to arrive, and what the DELAY_REQ took, when the local clock is
      ahead of the master's by offset and the corrections in whole nanoseconds are taken off. */
  function SyncDelay(ts: Timestamps, offset: int): int
    requires CompleteE2E(ts)
  {
    D21(ts) - offset - SyncCorrection(ts)
  }

  function RequestDelay(ts: Timestamps, offset: int): int
    requires CompleteE2E(ts)
  {
    D43(ts) + offset - DelayCorrection(ts)
  }

  /** The computed offset misses the true one by at most half the asymmetry of the path and
      half a nanosecond, and it is exact just when the asymmetry is gone, or is a single
      nanosecond that truncation swallows. */
  lemma E2EAccuracy(ts: Timestamps, offset: int)
    requires CompleteE2E(ts)
    ensures var asymmetry := SyncDelay(ts, offset) - RequestDelay(ts, offset);
      var computed := OffsetE2E(ts).value.0;
      && 2 * Abs(computed - offset) <= Abs(asymmetry) + 1
      && (computed == offset <==>
            || asymmetry == 0
            || (asymmetry == 1 && 0 <= offset)
            || (asymmetry == -1 && offset <= 0))
  {
    hide CorrectionDuration;
    var asymmetry := SyncDelay(ts, offset) - RequestDelay(ts, offset);
    assert D21(ts) - D43(ts) - SyncCorrection(ts) + DelayCorrection(ts) == 2 * offset + asymmetry;
  }

  /** The mean path delay is the mean of the two one-way delays, whatever the offset. */
  lemma E2EDelay(ts: Timestamps, offset: int)
    requires CompleteE2E(ts)
    ensures OffsetE2E(ts).value.1 == Quotient(SyncDelay(ts, offset) + RequestDelay(ts, offset), 2)
  {
    assert D21(ts) + D43(ts) - SyncCorrection(ts) - DelayCorrection(ts)
        == SyncDelay(ts, offset) + RequestDelay(ts, offset);
  }

  /** The same bound in correction units, for corrections that are no whole number of
      nanoseconds: truncating them costs less than one and a half nanoseconds more. */
  lemma E2EAccuracyInUnits(ts: Timestamps, offset: int)
    requires CompleteE2E(ts)
    ensures var sync := UNIT * (D21(ts) - offset) - (ts.correctionSync + ts.correctionFollowUp);
      var request := UNIT * (D43(ts) + offset) - ts.correctionDelayResp;
      2 * UNIT * Abs(OffsetE2E(ts).value.0 - offset) < Abs(sync - request) + 3 * UNIT
  {
    E2EAccuracy(ts, offset);
    var s, d := ts.correctionSync + ts.correctionFollowUp, ts.correctionDelayResp;
    assert Abs(UNIT * SyncCorrection(ts) - s) < UNIT && Abs(UNIT * DelayCorrection(ts) - d) < UNIT;
    hide Quotient;
    var asymmetry := SyncDelay(ts, offset) - RequestDelay(ts, offset);
    assert UNIT * Abs(asymmetry) == Abs(UNIT * asymmetry);
  }

  /** A peer delay does not depend on the clocks' offset and is never negative, and on a link whose directions take
      equally long, the peer-to-peer offset is exact. */
  lemma P2PAccuracy(ts: Timestamps, sent: int, residence: int, correction: int, there: int, back: int, offset: int)
    requires CompleteP2P(ts)
    requires ts.peerDelay ==
      PeerDelay(sent, sent - offset + there, sent - offset + there + residence,
                sent + there + residence + back + CorrectionDuration(correction), correction)
    ensures ts.peerDelay == if there + back < 0 then 0 else (there + back) / 2
    ensures 0 <= there == back == D21(ts) - offset - SyncCorrection(ts) ==> OffsetP2P(ts) == Some(offset)
  {
    hide CorrectionDuration;
    var c := CorrectionDuration(correction);
    assert (sent + there + residence + back + c - sent)
         - (sent - offset + there + residence - (sent - offset + there)) - c == there + back;
  }
}
