# Verification of the protocol core

This project models the deterministic core of a tool that publishes and receives IEC 61850
GOOSE and Sampled Values and disciplines an internal clock by PTP, and proves what that core
is for. It stands beside the Go sources; `dafny verify dfyconfig.toml` verifies it.

Conventions: times are integer nanoseconds, the floating-point quantities of servo, clock and
RMS sums are real numbers, wire integers have their width written out. Clock readings,
frame delivery, write errors and the interleaving of goroutines are inputs of the steps. What
the source does in loops and on fields is a method or a class here, proved against a function;
the theorems are about those functions and about every run of the machines made of them.

## Modules

- **Wire formats.** `Arithmetic`, `Bytes`, `Ber`, `UtcTime` and `Ethernet` are shared;
  `Wrappers` holds the result types. `GooseData` and `GooseCodec` are the GOOSE encoder and
  decoder; `SvCodec` (layouts and decoders), `SvFrames` (the loops, predicted lengths, what live
  decoding vouches for) and `SvRoundTrip` are those of Sampled Values; `GooseAcceptance` and
  `SvAcceptance` say which octets the two decoders take from anybody; `PtpWire` and
  `AnnounceTlvs` are the PTP header, the Announce body and its TLVs.
- **GOOSE protocol.** `GoosePublisher`, `GooseSubscriber`, their composition with a network in
  `GooseEndToEnd`, and the publisher's notification loop in `GooseWakeup`.
- **Sampled Values.** `SampleSlots` is the slot arithmetic, `SvScheduler` the sending loop,
  `SvReceipts` the receipts of waveform changes, `SvSubscriber` the gap accounting and the
  measurement window it feeds, `SampleWindow` that window as a ring buffer.
- **PTP client.** `Bmca` compares and chooses, `PtpClient` is the client's machine, `PtpRuns`
  what it does with the times it is given, and `PtpService` the objects that refine it;
  `SyncPairing` pairs messages, `PairingRuns` says which messages an offset of a run is made of,
  and `PairingExamples` shows runs in which that goes right and wrong; `TsProc` computes offsets,
  `Servo` and `AppClock` steer and keep the time.
- **Timed sequences.** `TimedSequence` is the machine, `SequenceProgress` what its operations
  achieve, `SequenceApi` the objects that refine it.

## Findings

Properties one would expect, and that the code has only under a condition. Each condition is
proved to be exact, and each comes with an input that fails. Paths are below
`source_code/internal/`.

- An offset can be computed from two exchanges (`application/ptpclient/service.go:519` and
  `:550-562` match sixteen-bit numbers only). One lost SYNC is enough: its FOLLOW_UP stays in the
  buffer until the SYNC 65,536 later takes it, and a client that was right all along takes itself
  to be 65,536 seconds off (`PairingExamples.LostSync`). The same holds of an answer to a request
  65,536 requests old (`PairingExamples.StaleAnswer`). The exact condition is in
  `PairingRuns.SampleExactly`, over whole runs in `PairingRuns.RunExactly`; as long as no master
  slips in, it is a distance of 65,536 messages or more (`PairingRuns.CalmExactly`).
- A client can be a synchronised SLAVE without a master, or keep timestamps of a former master, in
  exactly two situations (`PtpClient.CoherentExactly`): the early returns at
  `application/ptpclient/service.go:364-366` (`PtpClient.StrandedExample`) and `:411-413`
  (`PtpClient.SwitchedExample`). A FOLLOW_UP of the new master then completes the SYNC of the old
  one (`PairingExamples.SwitchedMaster`).
- A FOLLOW_UP that overtakes its SYNC with the buffer full costs the oldest kept message
  (`application/ptpclient/service.go:542-546`; `SyncPairing.Confluence`,
  `PairingExamples.OvertakenOldest`).
- `DSCmp` (`application/ptpclient/bmca.go:94-136`) is transitive exactly on announcements that
  agree: those of one grandmaster carry the same attributes, or at least rank by attributes as
  they do by path (`Bmca.TransitiveIffAgree`, `Bmca.CycleExample`).
- A restarted GOOSE publisher is ignored if its stNum equals the last one seen, and taken up, as
  long as its stNum is behind, exactly on a frame with sqNum 0: if that is lost, the rest of the
  state is ignored (`application/goosesub/service.go:177-205`; `GooseSubscriber.RestartVerdict`,
  `GooseSubscriber.RestartTakenUp`, `GooseSubscriber.RestartExamples`,
  `GooseSubscriber.LostRestartFrame`).
- Without a configured timing frequency, a wrap of a 60 Hz sample counter is accounted rightly
  exactly if the counter had reached 50 times the rate and less than half a period is missing
  (`application/svsub/service.go:343-365`; `SvSubscriber.AutoDetect`,
  `SvSubscriber.AutoDetectExamples`).
- The drift estimate of the servo is exact only from zero drift, because its factor has the sign
  of the drift that suits the opposite convention (`application/ptpclient/servo.go:167-171`;
  `Servo.EstimateExactly`, `Servo.EstimateMisses`).
- Application time is strictly increasing between changes exactly while the clock is not slowed
  down, and a step shifts later readings by exactly its offset just when application time is a
  whole number of nanoseconds at its instant (`domain/clock/application.go:96-111`;
  `AppClock.StrictExactly`, `AppClock.StepExactly`, `AppClock.StepInexact`).
- A display name beyond 255 octets is encoded into a TLV the decoder refuses
  (`domain/ptp/codec.go:256`; `AnnounceTlvs.TlvsRoundTrip`, `AnnounceTlvs.LongName`).
- Above 10^9 samples a second some slots contain no nanosecond
  (`application/svpub/service.go:134-152`; `SampleSlots.RoundTripRates`).

## Model

| member | source | states |
|---|---|---|
| GooseCodec.RoundTrip | source_code/internal/domain/goose/encoder.go:13-57 | for every sendable PDU, whatever the nesting of its data and the padding behind the frame, decoding the encoded frame yields the PDU sent, up to UtcTime quantisation and the other losses the value itself suffers |
| GooseCodec.FieldsParse | source_code/internal/domain/goose/decoder.go:131-206 | walking tag, length and value through the octets of any field list is folding over that list |
| GooseCodec.FieldsStore | source_code/internal/domain/goose/encoder.go:60-89 | the twelve fields the encoder writes are known, distinct and each stored as the field it was written for |
| GooseCodec.EncodeFrame | source_code/internal/domain/goose/encoder.go:13-57 | the buffer filled in place, header by header, holds exactly the specified frame |
| GooseCodec.AppendFields | source_code/internal/domain/goose/encoder.go:60-89 | the appended fields are the specified octets |
| GooseCodec.Decode | source_code/internal/domain/goose/decoder.go:52-206 | the decoder computes the specified result: the PDU, or the error of the first check that fails |
| GooseCodec.DecodeFields | source_code/internal/domain/goose/decoder.go:131-206 | the offset-advancing field loop, with its seen mask and its duplicate check, computes the specified fold |
| GooseAcceptance.TakesExactly | source_code/internal/domain/goose/decoder.go:52-237 | whatever the publisher, a framed message is taken exactly if it has all nine required fields (goID, test and ndsCom may be missing), no known one twice, each of its form, and the right number of data; the PDU says just what the octets say |
| GooseAcceptance.TakesMessages | source_code/internal/domain/goose/decoder.go:52-110 | octets without the frame and lengths of a GOOSE message are refused |
| GooseAcceptance.StoresExactly | source_code/internal/domain/goose/decoder.go:131-237 | over any list of fields the loop succeeds exactly if no known field repeats and each is well-formed, and each field changes its own value only |
| GooseData.SeqRoundTrip | source_code/internal/domain/goose/encoder.go:115-121 | decoding any encoded sequence of arbitrarily nested values gives back the values in canonical form |
| GooseData.ValueRoundTrip | source_code/internal/domain/goose/encoder.go:124-150 | the same for a single value of every type, arrays and structures included |
| GooseData.EncodeDataValue | source_code/internal/domain/goose/encoder.go:124-168 | the encoder appends exactly the specified element |
| GooseData.DecodeDataValue | source_code/internal/domain/goose/decoder.go:397-461 | the decoder of one value agrees with the specification on every tag and every malformed content |
| GooseData.DecodeDataSeq | source_code/internal/domain/goose/decoder.go:367-392 | the loop over a sequence of values agrees with the recursive specification |
| GooseData.BitsRoundTrip | source_code/internal/domain/goose/encoder.go:154-168 | a bit string comes back with the bits that count, the unused ones cleared |
| GooseData.BitsReencode | source_code/internal/domain/goose/decoder.go:420-433 | the decoder takes just the bit strings the encoder makes, and re-encoding a decoded one gives its octets back |
| GooseData.FloatRoundTrip | source_code/internal/domain/goose/encoder.go:260-265 | a float comes back as its single-precision value, bit for bit |
| Ber.LengthRoundTrip | source_code/internal/domain/goose/encoder.go:188-199 | a definite length reads back as itself and ends where it ends (section 8.1.3 of ITU-T X.690) |
| Ber.UnsignedBijection | source_code/internal/domain/goose/decoder.go:275-303 | decoding accepts exactly one octet string for each value that fits: its minimal encoding, and nothing else (section 8.3 of ITU-T X.690) |
| Ber.SignedRoundTrip | source_code/internal/domain/goose/encoder.go:226-249 | every signed integer is the two's complement value of its minimal encoding |
| Ber.BerEncodeUint64 | source_code/internal/domain/goose/encoder.go:206-223 | skipping leading zeros of the eight-octet buffer leaves the minimal encoding |
| Ber.BerEncodeInt | source_code/internal/domain/goose/encoder.go:226-249 | skipping redundant sign octets leaves the minimal encoding, for all 64-bit integers |
| Ber.DecodeBERUnsigned | source_code/internal/domain/goose/decoder.go:275-303 | the decoding loop agrees with the specification, refusals included |
| Ber.BerInt | source_code/internal/domain/goose/decoder.go:306-319 | the sign-extending loop computes the two's complement value |
| Ber.BerLength | source_code/internal/domain/goose/decoder.go:240-259 | short and long form, and every truncation, as specified |
| UtcTime.RoundTrip | source_code/internal/domain/goose/encoder.go:92-112 | an instant within the 32-bit seconds comes back quantised, its quality intact |
| UtcTime.QuantiseClose | source_code/internal/domain/goose/decoder.go:328-342 | a decoded instant is never later than the original and at most 60 ns earlier |
| UtcTime.QuantiseMonotone | source_code/internal/domain/goose/decoder.go:328-342 | the wire keeps the order of instants |
| UtcTime.Requantise | source_code/internal/domain/goose/decoder.go:328-342 | sending a decoded instant again loses at most one 2^-24 s tick, and loses none exactly when the tick count is a multiple of 2^15 |
| Ethernet.HeaderRoundTrip | source_code/internal/domain/goose/encoder.go:33-54 | the layer 2 header, tagged or not, parses back whatever follows it |
| Ethernet.WriteHeader | source_code/internal/domain/goose/encoder.go:33-54 | the in-place writes into a zeroed buffer produce the header and touch nothing behind it |
| GoosePublisher.SerialSteps | source_code/internal/application/goosepub/service.go:109-113 | the incremented counters are the u-th state number and the n-th frame number, across the wraps that skip zero |
| GoosePublisher.Publisher.ApplyState | source_code/internal/application/goosepub/service.go:98-120 | a new complete state takes effect at once and is numbered and timestamped exactly once; an equal one changes nothing |
| GoosePublisher.Publisher.TransmitState | source_code/internal/application/goosepub/service.go:209-236 | the frame is built from one consistent state and uses up one sqNum |
| GoosePublisher.ResolvesInstants | source_code/internal/application/goosepub/service.go:263-277 | unset instants, however deep in the data, get the time of the change, every instant the quality of the clock, and nothing else changes |
| GooseSubscriber.Subscriber.HandleMatch | source_code/internal/application/goosesub/service.go:146-267 | acceptance, events, counters and the new baseline as specified; a rejected frame leaves the stream untouched |
| GooseSubscriber.Subscriber.CheckStale | source_code/internal/application/goosesub/service.go:285-313 | every stream whose time to live ran out is marked once, in whatever order the map is visited, and no other |
| GooseSubscriber.RestartVerdict | source_code/internal/application/goosesub/service.go:164-223 | a restarted publisher is recognised as such exactly for last stNum 2 to 2^31 + 1, taken for a state change beyond, and ignored for stNum 1 unless sqNum had passed 2^31 |
| GooseSubscriber.LaterVerdict | source_code/internal/application/goosesub/service.go:175-205 | a frame later than the last one is taken up exactly if it is ahead within its state, ahead in state, or the first of its state |
| GooseSubscriber.TimeVerdict | source_code/internal/application/goosesub/service.go:188-205 | the first frame is taken, an earlier timestamp never, and an equal one never makes a restart |
| GooseSubscriber.EventsTell | source_code/internal/application/goosesub/service.go:225-266 | the events of a frame, their order and numbers, are just the differences between the stream before and after it |
| GooseSubscriber.LostExactly | source_code/internal/application/goosesub/service.go:285-313 | between two accepted frames a stream is lost exactly once a check comes after the time to live of the first: replays do not keep it alive |
| GooseSubscriber.AcceptedRestores | source_code/internal/application/goosesub/service.go:213-223 | an accepted frame ends the loss and restarts the watch with its own time to live |
| GooseSubscriber.RestartTakenUp | source_code/internal/application/goosesub/service.go:175-223 | over any arrivals from a restarted publisher still behind in stNum, the stream moves exactly if one of them has sqNum 0 |
| GooseSubscriber.RestartExamples | source_code/internal/application/goosesub/service.go:175-205 | a restart ignored at stNum 1 and one taken for a state change |
| GooseSubscriber.LostRestartFrame | source_code/internal/application/goosesub/service.go:193-205 | with the first frame of a restart lost, the frames after it are ignored |
| GooseEndToEnd.AcceptsExactlyLater | source_code/internal/application/goosesub/service.go:164-223 | a frame is accepted if and only if it was emitted after every accepted one, and no replay is taken for a restart |
| GooseEndToEnd.Safety | source_code/internal/application/goosepub/service.go:209-236 | over whole runs of publisher, lossy, duplicating, reordering network and subscriber: accepted frames are in emission order, and the octets of any delivered frame decode to a PDU accepted exactly when later than all of them |
| GooseEndToEnd.InOrderAllAccepted | source_code/internal/application/goosesub/service.go:164-223 | in-order delivery is accepted without loss, across every wrap of stNum and sqNum |
| GooseEndToEnd.WireDelivers | source_code/internal/domain/goose/decoder.go:52-206 | in every run a delivered frame decodes to what was sent |
| GooseEndToEnd.FramesShow | source_code/internal/application/goosepub/service.go:98-120 | in every run the frames show, in order, the states last asked for when they were sent, flags and data, with the time at which each came into force, under the configured control block |
| GooseWakeup.NoLostWakeup | source_code/internal/application/goosepub/service.go:128-207 | under every interleaving of changes, notifications, timer and writes: an unsent stNum has a wakeup pending, a notification only sends a newer state, and with k timer repetitions since the last event of the run that handled a change the loop waits min(2^k * MinMs, MaxMs) |
| GooseWakeup.BurstStarts | source_code/internal/application/goosepub/service.go:157-180 | right after a change is handled, by notification or timer, the loop waits MinMs |
| GooseWakeup.FramesCurrent | source_code/internal/application/goosepub/service.go:128-183 | every frame shows the state of its moment, and the loop ends exactly with a failed write |
| GooseWakeup.QuietMeansSent | source_code/internal/application/goosepub/service.go:128-183 | at rest the newest frame shows the current stNum, and the current state exactly unless a positive multiple of 2^32 - 1 states lies between |
| GooseWakeup.BackoffStep | source_code/internal/application/goosepub/service.go:202-207 | the overflow-safe doubling is the capped power of two |
| SampleSlots.Galois | source_code/internal/application/svpub/service.go:121-148 | slot k starts no later than t if and only if k is at most the slot of t, before and after the epoch |
| SampleSlots.RoundTripRates | source_code/internal/application/svpub/service.go:121-148 | the slot of every slot's start is the slot itself exactly for the rates up to 10^9 |
| SampleSlots.NanosecondPartBound | source_code/internal/application/svpub/service.go:135-148 | the nanoseconds of a slot start stay within the second |
| SampleSlots.NoDrift | source_code/internal/application/svpub/service.go:135-148 | one second later the slots start exactly one second later, at rates that do not divide a second too |
| SampleSlots.NextSecondStart | source_code/internal/application/svpub/service.go:153-158 | the slot chosen to start at is the first whose start is the next whole second |
| SvScheduler.EveryRun | source_code/internal/application/svpub/service.go:334-444 | whatever the clock readings: the first frame has smpCnt 0, and each frame belongs to the slot that contains the reading taken at its wakeup |
| SvScheduler.SlotsConserved | source_code/internal/application/svpub/service.go:334-474 | with a clock that never goes back and no write error, slots strictly increase and frames sent plus samples skipped make up the slots from the first frame to the last |
| SvScheduler.CountExact | source_code/internal/application/svpub/service.go:446-456 | smpCnt is the slot within its second exactly where sixteen bits and the clamp of negative slots allow |
| SvScheduler.Service.RunScheduled | source_code/internal/application/svpub/service.go:334-444 | the loop over any wakeups is the machine those theorems are about, frame by frame, and ends where synthesis or a write fails |
| SvScheduler.Service.Aim | source_code/internal/application/svpub/service.go:334-420 | waiting, re-targeting and missed boundaries change the loop's variables as specified |
| SvScheduler.AimsExactly | source_code/internal/application/svpub/service.go:366-420 | after every wakeup, early, late or over a clock step in either direction, the loop aims at the slot after the reading, before the first frame at the next whole second |
| SvScheduler.SendsExactly | source_code/internal/application/svpub/service.go:366-444 | a frame is sent exactly if the slot aimed at has begun and, for the first, the reading starts a second; a failure ends the loop |
| SvScheduler.EverySlotSent | source_code/internal/application/svpub/service.go:334-444 | woken within the slots it aims at, the loop sends every slot and skips none |
| SvScheduler.WaitAccurate | source_code/internal/application/svpub/service.go:163-176 | the conversion to system time waits no longer than the slot is away, and less than a nanosecond shorter |
| SvScheduler.StatisticsExactly | source_code/internal/application/svpub/service.go:386-474 | when a frame counts as late, and when a missed second counts as missed rather than as a jump of the clock |
| SvReceipts.ReceiptsTellTheTruth | source_code/internal/application/svpub/transmission.go:19-35 | under every interleaving of waveform changes and two-phase sends a tracker is completed at most once, superseded or written and never both, and a receipt tells of a frame made from exactly the settings installed with it |
| SvReceipts.ReceiptsExactly | source_code/internal/application/svpub/service.go:245-281 | over every run the receipts of a tracker are just what happened to it, at most one thing: its waveform was replaced while pending, or the write of its frame ended, and it reports success only if that write succeeded |
| SvReceipts.FramesExactly | source_code/internal/application/svpub/service.go:477-529 | a frame is made from the waveform last set before its transmission began; publication starts with the first valid waveform and ends with the first failure |
| SvReceipts.Publisher.SetWaveform | source_code/internal/application/svpub/service.go:245-281 | a valid waveform replaces settings and tracker together and reports the tracker it displaces; an invalid one changes nothing |
| SvReceipts.Publisher.BeginTransmit | source_code/internal/application/svpub/service.go:477-506 | the first half of a send takes the pending tracker together with the settings of its frame |
| SvReceipts.Publisher.FinishTransmit | source_code/internal/application/svpub/service.go:507-529 | the second half completes what it took, and nothing else |
| SvSubscriber.SamplesConserved | source_code/internal/application/svsub/service.go:228-255 | over any sequence of samples, samples received and missed add up to the distance the counter travelled |
| SvSubscriber.AcceptsExactly | source_code/internal/application/svsub/service.go:228-239 | within a segment a sample is accepted exactly if its counter went up, or round the period from its second half with less than half a period missing |
| SvSubscriber.SegmentStarts | source_code/internal/application/svsub/service.go:223-255 | a first sample, one after a loss and one with a new confRev are always accepted, with none missed |
| SvSubscriber.InOrderReceived | source_code/internal/application/svsub/service.go:228-255 | delivery in order receives every sample across any number of wraps and misses none |
| SvSubscriber.LossCounted | source_code/internal/application/svsub/service.go:228-255 | every sample lost on the way counts as missed, as long as no loss is longer than the receiver can follow |
| SvSubscriber.ReasonsTell | source_code/internal/application/svsub/service.go:241-318 | the reasons reported are just the differences between the stream before and after, and the window starts anew exactly with a gap, a recovery, a new confRev or a new size |
| SvSubscriber.LostExactly | source_code/internal/application/svsub/service.go:747-764 | between two accepted samples a stream is lost exactly once a check comes more than 100 ms after the first |
| SvSubscriber.StreamState.CheckStale | source_code/internal/application/svsub/service.go:755-763 | one stream in the scan of the watchdog, as specified |
| SvSubscriber.FromFirstSample | source_code/internal/application/svsub/service.go:228-255 | received plus missed less one is congruent to last less first smpCnt modulo the counter period |
| SvSubscriber.SampleAdvances | source_code/internal/application/svsub/service.go:320-365 | an accepted sample advances the count by the counter difference, and an accepted wrap reports less than half a period missed |
| SvSubscriber.AutoDetect | source_code/internal/application/svsub/service.go:320-365 | without a configured frequency a 60 Hz wrap is accepted with its true number of missed samples exactly if the last counter had reached 50 times the rate and less than half a period is missing; likewise a 50 Hz one from half its period on |
| SvSubscriber.AutoDetectExamples | source_code/internal/application/svsub/service.go:320-365 | a 60 Hz wrap counted right, and one whose 899 missed samples count as 99 |
| SvSubscriber.IndicesConsecutive | source_code/internal/application/svsub/service.go:228-255 | whatever samples arrive, the measurement window holds samples of consecutive indices up to the newest one |
| SvSubscriber.StreamState.LiveIndices | source_code/internal/application/svsub/service.go:554-559 | the live slots of the ring buffer, read from the oldest position, hold those indices |
| SvSubscriber.StreamState.HandleMatch | source_code/internal/application/svsub/service.go:198-318 | acceptance, gap accounting, reasons and the contents of the measurement window as specified; a rejected sample changes nothing |
| SampleWindow.Window.Add | source_code/internal/application/svsub/service.go:505-537 | the ring buffer holds exactly the newest samples since the last reset or change of size, and the running sums are their sums of squares |
| SampleWindow.Window.Rms | source_code/internal/application/svsub/service.go:561-570 | the running sums give the mean squares of the window's contents |
| SampleWindow.Window.RmsBetween | source_code/internal/application/svsub/service.go:572-599 | the loop over the live slots gives the mean squares of the samples in the range |
| SampleWindow.CoveringRange | source_code/internal/application/svsub/service.go:561-599 | over a range that covers the window both ways to compute the mean squares agree |
| SampleWindow.Window.LiveSlot | source_code/internal/application/svsub/service.go:554-559 | the live slots read from the oldest position on are the contents in order |
| SvRoundTrip.LiveRoundTrip | source_code/internal/domain/sv/decoder.go:28-45 | for every list that fits, the live decoder returns the ASDUs sent, in order and in the first one's envelope, if and only if every one has a name and legal smpSynch and smpMod; otherwise it refuses the frame |
| SvRoundTrip.FrameParses | source_code/internal/domain/sv/decoder.go:49-194 | the tolerant decoder's result for every encoded list: the ASDUs, and a warning for each that is unfit, or the error a bad smpMod causes |
| SvRoundTrip.AsdusParse | source_code/internal/domain/sv/decoder.go:152-188 | walking the octets of any list of ASDUs |
| SvRoundTrip.AsduParses | source_code/internal/domain/sv/decoder.go:196-300 | one ASDU's fields, optional ones present or not, stored with their flags |
| SvRoundTrip.ChannelsRoundTrip | source_code/internal/domain/sv/decoder.go:256-268 | eight channels and qualities come back, signs included |
| SvRoundTrip.NotesReject | source_code/internal/domain/sv/decoder.go:28-45 | the warnings keep a frame from live use exactly for an empty name or an unknown synchronisation source |
| SvFrames.InnerPredicted | source_code/internal/domain/sv/encoder.go:76-99 | the length written before an ASDU is the length its contents turn out to have |
| SvFrames.SavPredicted | source_code/internal/domain/sv/encoder.go:22-29 | so are the lengths of the list and of the savPDU |
| SvFrames.Encode | source_code/internal/domain/sv/encoder.go:13-58 | the encoder returns the specified frame in a buffer of exactly the size calculated first, and nothing for an empty list or an APDU beyond 16 bits |
| SvFrames.AppendAsdu | source_code/internal/domain/sv/encoder.go:101-130 | header first, contents after: together the specified element |
| SvFrames.DecodeAsdu | source_code/internal/domain/sv/decoder.go:196-300 | the field loop computes the specified body and warnings |
| SvFrames.DecodeAsdus | source_code/internal/domain/sv/decoder.go:152-188 | the list loop, with lengths that reach too far clipped, computes the specified result |
| SvFrames.DecodeFrame | source_code/internal/domain/sv/decoder.go:49-194 | the tolerant decoder, error by error and warning by warning |
| SvFrames.Decode | source_code/internal/domain/sv/decoder.go:28-45 | the live decoder |
| SvFrames.LiveVouches | source_code/internal/domain/sv/decoder.go:28-45 | whatever the octets, an ASDU let through live has every mandatory field, a name, legal enumerations and exactly eight channels' samples, and the frame held as many ASDUs as it declared |
| SvAcceptance.TakesExactly | source_code/internal/domain/sv/decoder.go:28-194 | live decoding takes exactly the frames whose lengths nest, whose count is there and right and whose ASDUs are all usable, and yields what their octets say |
| SvAcceptance.AsduExactly | source_code/internal/domain/sv/decoder.go:196-300 | an ASDU passes exactly if it has the five mandatory fields and every known field is legal; unknown fields do no harm, and of repeated ones the last counts |
| Bmca.LexicographicIffAgree | source_code/internal/application/ptpclient/bmca.go:83-141 | DSCmp is the lexicographic order on attributes, identity and path exactly for pairs whose grandmaster attributes agree |
| Bmca.TransitiveIffAgree | source_code/internal/application/ptpclient/bmca.go:83-141 | two announcements are part of no cycle with a third agreeing one if and only if they agree: otherwise DSCmp is not transitive |
| Bmca.CycleExample | source_code/internal/application/ptpclient/bmca.go:94-136 | three announcements, each better than the next |
| Bmca.SelectedIsBest | source_code/internal/application/ptpclient/bmca.go:145-159 | among data sets that agree, none is better than the one selected |
| Bmca.OrderIndependent | source_code/internal/application/ptpclient/bmca.go:145-159 | every permutation of a list with distinct senders yields the same choice, better than all others |
| Bmca.CompareTransitive | source_code/internal/application/ptpclient/bmca.go:94-136 | octet-string comparison chains |
| PtpClient.RunInv | source_code/internal/application/ptpclient/service.go:306-466 | in every state of every run: the chosen master is an entry stored under its own identity, none is chosen only if none qualifies, a chosen one means UNCALIBRATED or SLAVE, only a SLAVE reports its clock synchronised, and, entries agreeing, no qualified master is better |
| PtpClient.StepInv | source_code/internal/application/ptpclient/service.go:306-466 | every announce, duplicate announce, rejection, timeout check and sync frame keeps that invariant |
| PtpClient.ChoiceUnique | source_code/internal/application/ptpclient/service.go:443-453 | entries that agree leave one choice, whatever order the map is visited in |
| PtpClient.StepDeterministic | source_code/internal/application/ptpclient/service.go:443-453 | so the client's next state does not depend on map iteration order |
| PtpClient.CoherentExactly | source_code/internal/application/ptpclient/service.go:359-375 | a step makes the port state or the measurements disagree with the chosen master exactly if it is the only candidate announcing itself after its window ran empty, or the rejection of another master after duplicates disqualified the chosen one |
| PtpClient.RunCoherent | source_code/internal/application/ptpclient/service.go:306-466 | runs without such steps are in LISTENING exactly while there is no master and hold timestamps of the current master only |
| PtpClient.StrandedExample | source_code/internal/application/ptpclient/service.go:364-366 | a run that ends as a synchronised SLAVE without a master |
| PtpClient.SwitchedExample | source_code/internal/application/ptpclient/service.go:395-413 | a run that ends with another master and the timestamps and the awaited FOLLOW_UP of the former one |
| PtpRuns.QualifiedExactly | source_code/internal/application/ptpclient/bmca.go:32-55 | a master is qualified exactly if its last two announcements came within the window |
| PtpRuns.RepeatsDoNotCount | source_code/internal/application/ptpclient/bmca.go:41-44 | a repeated announcement counts neither towards that nor as a sign of life |
| PtpRuns.RunHeard | source_code/internal/application/ptpclient/service.go:330-346 | in every run the table holds of each master in it what it announced last, and when |
| PtpRuns.DropsSilent | source_code/internal/application/ptpclient/service.go:995-1008 | a check of the timeouts drops exactly the masters not heard for longer than the timeout |
| PtpRuns.RejectsExactly | source_code/internal/application/ptpclient/service.go:396-410 | a rejected master is forgotten, and nobody else |
| PtpRuns.ChecksExactly | source_code/internal/application/ptpclient/service.go:1016-1047 | what a check does to the port: LISTENING without a master, UNCALIBRATED with another or too long after the last offset, everything measured forgotten, and otherwise nothing |
| PtpRuns.LocksExactly | source_code/internal/application/ptpclient/service.go:594-654 | what an offset does: when the clock counts as synchronised, and when the port locks |
| PtpRuns.RunUtcRight | source_code/internal/application/ptpclient/service.go:348-357 | in every run the UTC offset in use is the one the chosen master announced last |
| PtpClient.DuplicateInv | source_code/internal/application/ptpclient/bmca.go:41-44 | a repeated Announce can only disqualify its sender and never upsets the choice |
| PtpService.ForeignMaster.RecordAnnounce | source_code/internal/application/ptpclient/bmca.go:32-51 | the in-place window filter and the duplicate check as specified |
| PtpService.SelectBestMaster | source_code/internal/application/ptpclient/bmca.go:145-159 | the loop's running best is the specified choice |
| PtpService.FindBest | source_code/internal/application/ptpclient/service.go:443-453 | visiting the map in an arbitrary order yields a choice that some order of the qualified masters yields |
| PtpService.Service.HandleAnnounce | source_code/internal/application/ptpclient/service.go:306-375 | a step of the machine, on entry objects the chosen master aliases |
| PtpService.Service.RejectMaster | source_code/internal/application/ptpclient/service.go:396-428 | a step of the machine |
| PtpService.Service.CheckTimeouts | source_code/internal/application/ptpclient/service.go:995-1047 | a step of the machine, entries deleted while the map is visited |
| PtpService.Service.HandleSyncFrame | source_code/internal/application/ptpclient/service.go:569-654 | a step of the machine: what a new offset and the servo's verdict do to the port |
| PtpService.Service.DisciplineClock | source_code/internal/application/ptpclient/service.go:594-654 | each servo state's effect on port and synchronisation flag |
| SyncPairing.Confluence | source_code/internal/application/ptpclient/service.go:468-531 | a FOLLOW_UP that overtakes its SYNC leaves the same timestamps, corrections, servo input and flags as the usual order, and the same buffer exactly if there was room in it or the clock is stepped |
| SyncPairing.OneStepIsBoth | source_code/internal/application/ptpclient/service.go:485-496 | a one-step SYNC does what a two-step one and its FOLLOW_UP do |
| PairingExamples.OvertakenOldest | source_code/internal/application/ptpclient/service.go:533-548 | with eight messages kept, a ninth that overtakes its SYNC costs the first |
| PairingRuns.SampleExactly | source_code/internal/application/ptpclient/service.go:468-592 | in every reachable state: offset and delay of a new sample are those of the SYNC, FOLLOW_UP, request and answer recorded with it, and these belong together if and only if the client held no message from beyond a wrap of the numbers, of another master or read with another UTC offset |
| PairingRuns.RunInv | source_code/internal/application/ptpclient/service.go:468-592 | in every run the buffer holds at most eight messages under different keys, the messages of every sample agree in their sixteen-bit numbers, and its local times were read since the last clock step |
| PairingRuns.RunExactly | source_code/internal/application/ptpclient/service.go:468-592 | all samples of a run are of messages that belong together exactly if no step completes a measurement while such a message is held |
| PairingRuns.CalmExactly | source_code/internal/application/ptpclient/service.go:468-592 | in a run in which no master slips in behind timestamps, the messages of a sample belong together exactly if they are less than 65,536 numbers apart |
| PairingRuns.TrueOffset | source_code/internal/application/ptpclient/service.go:569-592 | an offset from messages that belong together is that of the local clock from UTC, within half the asymmetry of the path, with the delay of the path |
| PairingExamples.FullExchange | source_code/internal/application/ptpclient/service.go:468-592 | a run of one whole exchange computes the true offset and delay |
| PairingExamples.LostSync | source_code/internal/application/ptpclient/service.go:498-520 | a run of one lost SYNC, 65,535 perfect exchanges with offset zero, and an offset of 65,536 seconds |
| PairingExamples.StaleAnswer | source_code/internal/application/ptpclient/service.go:825-848 | a run in which the answer to a request passes for one to the request 65,536 later |
| PairingExamples.SwitchedMaster | source_code/internal/application/ptpclient/service.go:503-531 | a run in which the FOLLOW_UP of one master completes the SYNC of another |
| SyncPairing.StoreLookup | source_code/internal/application/ptpclient/service.go:533-548 | the buffer is a bounded map: a new message is found under its key, every other key keeps its own, except that a full buffer forgets its oldest |
| SyncPairing.TakeLookup | source_code/internal/application/ptpclient/service.go:550-562 | taking gives what was kept under the key and removes just that |
| SyncPairing.FreshAfterJump | source_code/internal/application/ptpclient/service.go:606-622 | after a clock step no offset is computed before a new delay request has been sent |
| SyncPairing.JumpClears | source_code/internal/application/ptpclient/service.go:606-622 | a performed step clears timestamps, outstanding request and buffer, and keeps the peer delay |
| SyncPairing.Client.StorePending | source_code/internal/application/ptpclient/service.go:533-548 | the search loop with replacement in place, and the shift out of a full buffer, as specified |
| SyncPairing.Client.TakePending | source_code/internal/application/ptpclient/service.go:550-562 | the search loop with removal in place, as specified |
| SyncPairing.Client.ReceiveSync | source_code/internal/application/ptpclient/service.go:468-501 | one- and two-step SYNC as specified |
| SyncPairing.Client.ReceiveFollowUp | source_code/internal/application/ptpclient/service.go:503-531 | an awaited FOLLOW_UP completes, any other is kept |
| SyncPairing.Client.ProcessSyncComplete | source_code/internal/application/ptpclient/service.go:569-592 | a computable offset goes to the servo once and ends the wait for a FOLLOW_UP |
| TsProc.E2EAccuracy | source_code/internal/application/ptpclient/tsproc.go:69-82 | the computed offset is within half the path asymmetry plus half a nanosecond of the true one, and the exact condition for hitting it |
| TsProc.E2EAccuracyInUnits | source_code/internal/application/ptpclient/tsproc.go:57-82 | the bound with corrections in fractions of a nanosecond, truncation included |
| TsProc.E2EDelay | source_code/internal/application/ptpclient/tsproc.go:69-82 | the mean path delay is the mean of the one-way delays, whatever the offset |
| TsProc.P2PAccuracy | source_code/internal/application/ptpclient/service.go:968-993 | a peer delay does not depend on the clocks' offset and is never negative, and on a symmetric link the peer-to-peer offset is exact |
| TsProc.Processor.OffsetAndDelay | source_code/internal/application/ptpclient/tsproc.go:69-95 | offset and mean path delay by both mechanisms, and neither while a timestamp is missing |
| Servo.RunTame | source_code/internal/application/ptpclient/servo.go:135-230 | in every run of samples and resets drift and output stay within the frequency limit |
| Servo.SampleTame | source_code/internal/application/ptpclient/servo.go:186-202 | one sample keeps that: the integral stands still while the output saturates |
| Servo.TracksTowards | source_code/internal/application/ptpclient/servo.go:182-200 | tracking, drift and output move towards the sample, the output further; beyond the threshold the measurement starts over |
| Servo.Unsaturated | source_code/internal/application/ptpclient/servo.go:190-199 | the output is drift plus a proportional and an integral part, of which the drift keeps the integral one |
| Servo.ClosedLoop | source_code/internal/application/ptpclient/service.go:594-654 | servo and clock together: over a time T the offset shrinks by the factor 1 - (kp + ki) * T, give or take a nanosecond |
| Servo.FirstPace | source_code/internal/application/ptpclient/servo.go:145-180 | from no drift the second sample sets the clock to the pace of the master, and steps it exactly beyond the threshold that applies |
| Servo.FirstKept | source_code/internal/application/ptpclient/servo.go:139-164 | the first sample is kept while later ones come too early |
| Servo.FirstStepExactly | source_code/internal/application/ptpclient/servo.go:217-230 | the threshold of the first step applies exactly until a sample moves the clock, and again after a reset, which keeps drift and frequency |
| Servo.ClampNeverBites | source_code/internal/domain/clock/application.go:113-128 | a servo with the clock's own limit never asks for a frequency the clock would cut |
| Servo.EstimateExactly | source_code/internal/application/ptpclient/servo.go:167-171 | the drift estimate makes the clock keep pace with the master exactly if the drift was zero or the offsets are equal |
| Servo.EstimateMisses | source_code/internal/application/ptpclient/servo.go:167-171 | a drift and two offsets for which the estimate misses |
| Servo.JumpAligns | source_code/internal/application/ptpclient/service.go:594-606 | over a symmetric path, stepping by the negated offset makes application time equal master time |
| Servo.PIServo.Sample | source_code/internal/application/ptpclient/servo.go:135-223 | the state machine over three counts, fields and result as specified |
| Servo.PIServo.Reset | source_code/internal/application/ptpclient/servo.go:226-230 | restarts the measurement and keeps the drift |
| AppClock.AdjustContinuous | source_code/internal/domain/clock/application.go:113-128 | a change of frequency is no jump |
| AppClock.FollowsSystem | source_code/internal/domain/clock/application.go:52-81 | switched on the clock starts from system time, switched off it is system time |
| AppClock.StepShifts | source_code/internal/domain/clock/application.go:102-111 | a step shifts the reading at its instant by exactly its offset and any other by the offset give or take a nanosecond |
| AppClock.StepExactly | source_code/internal/domain/clock/application.go:96-111 | a step shifts every later reading by exactly its offset if and only if application time is a whole number of nanoseconds at its instant |
| AppClock.StepInexact | source_code/internal/domain/clock/application.go:96-111 | a step and a reading that is shifted by another amount |
| AppClock.Increasing | source_code/internal/domain/clock/application.go:96-100 | between changes the clock never runs back, and it advances over every interval worth a nanosecond |
| AppClock.StrictExactly | source_code/internal/domain/clock/application.go:96-100 | different instants have different readings, the later the larger, if and only if the frequency is not negative; otherwise the last change and the nanosecond after it read the same |
| AppClock.RunRate | source_code/internal/domain/clock/application.go:96-128 | over a whole run application time gains on system time what the steps add, up to the frequency limit and a nanosecond an operation |
| AppClock.RunMonotone | source_code/internal/domain/clock/application.go:96-128 | without steps backward, a later reading is never smaller, across any number of changes |
| AppClock.ApplicationClock.Step | source_code/internal/domain/clock/application.go:102-111 | rebases at the current reading plus the offset |
| AppClock.ApplicationClock.AdjustFrequency | source_code/internal/domain/clock/application.go:113-128 | rebases at the current reading with the clamped frequency |
| AppClock.ApplicationClock.Read | source_code/internal/domain/clock/application.go:83-100 | outside the local mode: system time while disabled, the affine map otherwise |
| AnnounceTlvs.MessageRoundTrip | source_code/internal/domain/ptp/codec.go:143-226 | header with its length filled in, body and TLVs of an Announce message decode to what was encoded |
| AnnounceTlvs.TlvsRoundTrip | source_code/internal/domain/ptp/codec.go:391-490 | the TLVs of either C37.238 version, with or without an alternate offset, come back if and only if the display name is at most 255 octets and the jump time has 48 bits |
| AnnounceTlvs.AlternateDecodes | source_code/internal/domain/ptp/codec.go:464-490 | names of even and odd length come back, and a longer name makes the TLV malformed |
| AnnounceTlvs.LongName | source_code/internal/domain/ptp/codec.go:235-259 | a name of 256 octets does not come back |
| AnnounceTlvs.ProfileStores | source_code/internal/domain/ptp/codec.go:429-462 | either version of the profile comes back |
| AnnounceTlvs.UnrecognisedIrrelevant | source_code/internal/domain/ptp/codec.go:389-427 | well-formed TLVs of other kinds and organisations, wherever they stand, do not change the result |
| AnnounceTlvs.ParseIsStoreAll | source_code/internal/domain/ptp/codec.go:391-427 | the loop is a fold over the list of TLVs the octets split into, and fails if they do not split |
| AnnounceTlvs.BytesSplit | source_code/internal/domain/ptp/codec.go:391-427 | what splits is the encoding of its pieces: the parse skips and invents no octet |
| AnnounceTlvs.DecodeAnnounceProfileTlvs | source_code/internal/domain/ptp/codec.go:391-427 | the loop over the shrinking slice ends on every input with the specified result |
| AnnounceTlvs.EncodeAnnounce | source_code/internal/domain/ptp/codec.go:143-226 | the message written piece by piece into one buffer, its length calculated first |
| AnnounceTlvs.WriteAlternate | source_code/internal/domain/ptp/codec.go:237-259 | the alternate offset TLV, its padding octet the zero already there |
| PtpWire.HeaderRoundTrip | source_code/internal/domain/ptp/codec.go:15-60 | a header in front of as many octets as it announces comes back |
| PtpWire.BodyRoundTrip | source_code/internal/domain/ptp/codec.go:367-387 | an Announce body comes back, 48-bit seconds and signed UTC offset included |
| PtpWire.EncodeHeader | source_code/internal/domain/ptp/codec.go:15-29 | the in-place writes produce the header and leave the rest alone |
| PtpWire.EncodeAnnounceBody | source_code/internal/domain/ptp/codec.go:112-135 | the in-place writes produce the body between what is before and behind it |
| TimedSequence.RunInv | source_code/internal/application/automation/sequence.go:71-121 | in every run of starts, firings, cancellations, direct writes and releases: the steps of a sequence that reached the publisher are a prefix of its steps, in order, each once; a running one's publisher shows the start with just those steps' changes; a completed one applied all; one at most runs on a stream; the table holds at most 64 |
| TimedSequence.SequentialApplication | source_code/internal/application/automation/sequence.go:97-120 | the publisher state during a run is the state at its start with the flattened changes of the applied steps |
| TimedSequence.PrepareFolds | source_code/internal/application/automation/sequence.go:97-103 | the snapshots prepared in advance are the start with ever more change lists applied |
| TimedSequence.EndedForever | source_code/internal/application/automation/sequence.go:240-306 | after completion, failure, cancellation or release no further step of a sequence is applied and its record never changes |
| TimedSequence.OnlyOwner | source_code/internal/application/automation/sequence.go:195-207 | while a sequence runs nothing but its own steps changes its publisher's state |
| TimedSequence.ReleasedForever | source_code/internal/application/automation/api.go:100-143 | from the moment control is revoked nothing is written any more, although sequences go on until the release |
| TimedSequence.EvictionSpares | source_code/internal/application/automation/sequence.go:216-227 | making room never costs a running sequence and costs the oldest finished one; it fails exactly if 64 are running |
| SequenceProgress.StartExactly | source_code/internal/application/automation/sequence.go:71-121 | a sequence is started exactly if control is held, the stream free and running, the request valid and there is room; nothing else changes but for a finished one evicted |
| SequenceProgress.ScheduleEdges | source_code/internal/application/automation/sequence.go:172-193 | the limits of a request at their edges |
| SequenceProgress.ChangeEdges | source_code/internal/application/automation/api.go:412-452 | an empty change list, an unknown entry and an entry named twice are refused, a single applicable change that fits is not |
| SequenceProgress.FireExactly | source_code/internal/application/automation/sequence.go:258-290 | a step is applied exactly if its turn is in time and nothing stands in its way; otherwise nothing is written and the sequence fails |
| SequenceProgress.OnTimeCompletes | source_code/internal/application/automation/sequence.go:240-291 | a sequence whose turns all come in time applies every step and completes |
| SequenceProgress.CancelExactly | source_code/internal/application/automation/sequence.go:327-336 | a cancellation ends just the running sequence it names |
| SequenceProgress.CancelledForever | source_code/internal/application/automation/sequence.go:293-336 | after a cancellation no step of the sequence is applied in any run |
| SequenceProgress.ReleaseExactly | source_code/internal/application/automation/api.go:113-124 | a release cancels every running sequence, and none takes another step |
| SequenceProgress.DirectExactly | source_code/internal/application/automation/api.go:380-408 | a direct request is carried out exactly if no sequence runs on the stream and all of it is acceptable |
| TimedSequence.SequenceSchedule | source_code/internal/application/automation/sequence.go:172-193 | accepts exactly the requests within all limits, and returns their deadlines |
| TimedSequence.DeadlinesIncrease | source_code/internal/application/automation/sequence.go:172-193 | the deadlines of an accepted request strictly increase, within a day of the start |
| TimedSequence.PrepareGoose | source_code/internal/application/automation/api.go:412-452 | the loop accepts a change list exactly if it is not empty, names known entries once each with values of their types and the result fits the MTU |
| TimedSequence.ChangedExactly | source_code/internal/application/automation/api.go:424-446 | an entry gets the value of the change that names it and keeps its own if none does |
| SequenceApi.Service.TimedGooseSet | source_code/internal/application/automation/sequence.go:71-121 | checks, schedule, preflight and registration are the machine's start |
| SequenceApi.Service.Execute | source_code/internal/application/automation/sequence.go:240-291 | one turn of a sequence's goroutine is the machine's firing, lateness checks before and after the write included |
| SequenceApi.Service.CancelSequence | source_code/internal/application/automation/sequence.go:327-336 | fences a running sequence, leaves a finished one |
| SequenceApi.Service.ReleaseControl | source_code/internal/application/automation/api.go:113-124 | revokes and cancels all running sequences |
| SequenceApi.Service.Revoke | source_code/internal/application/automation/api.go:100-102 | the fence alone, which may come long before the lock is had |
| SequenceApi.Service.GooseSet | source_code/internal/application/automation/api.go:380-408 | refused while a sequence runs on the stream, otherwise applied as prepared |
| SequenceApi.Service.OldestRun | source_code/internal/application/automation/sequence.go:217-223 | the loop over the map in any order finds the finished sequence that started first |
| SequenceApi.PrepareSteps | source_code/internal/application/automation/sequence.go:97-103 | the preflight loop as specified |

## Left out

- GooseEndToEnd.Safety: assumes that a delivered frame lies within 2^31 - 2 states and frames of the last accepted one, because 32-bit serial numbers cannot tell more apart, and models one publisher's run without restart.
- SvFrames.Encode: models the slice that grows by append as a sequence; that no reallocation happens is stated as the equality of predicted and final size.
- AppClock.ApplicationClock.Read: leaves out the local mode, in which time comes from a callback; it has no servo and no frequency.
- PtpService.Service.HandleSyncFrame: takes from outside whether an offset exists and what the servo decides; `SyncPairing` and `Servo` compute them, for the same handler.
- SequenceApi.Service.ReleaseControl: takes the lock right after revoking; the interleavings in which other operations come between are those of the machine's `Revoke` and `Release`.
- PairingRuns.SampleExactly: takes a master that restarts its numbering as one that goes on at the next number the wire cannot tell from it.
- SampleWindow.Window.RmsBetween: states mean squares, like `Rms`.
- SampleWindow.Window.Rms: states mean squares; the square root taken of them is left out.
- Float arithmetic as such: rounding in servo, clock and RMS sums, and the NaN and negative-zero cases of `dataValuesEqual`. The narrowing of floats in GOOSE data is modelled on their bits.
- Overflow of 64-bit times, durations and statistics counters, and of the 16-bit frame sizes an oversized GOOSE PDU would need.
- Sine synthesis, phasors, frequency and angle estimation, channel scaling: transcendental functions.
- Sockets, packet capture, hardware timestamps, timers, spin-waits: their results are inputs of the steps.
- Event channels, logging, status snapshots and statistics text.
- Subscription filters and address ranges: one branch each.
- The peer-delay message exchange and its own pending buffer: the buffer is a copy of the FOLLOW_UP one; the arithmetic of its result is in `TsProc`.
- The servo's gains as powers of the interval (any non-negative gains are allowed) and its stability detection, which has a threshold of zero.
- SV sequences: the runner is the same, the preparation of waveform changes is not modelled.
- JSON decoding of requested values: a change carries what its value means for each type.
- Response-time tests, the PTP server, supervisor wiring, SCL files, catalog and user interface.
- Announce qualification intervals from logarithmic fields: the window is a parameter.
- DSCmp on absent data sets, which no caller passes.
