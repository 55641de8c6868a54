# Board bring-up code: framing, fuel gauge, write pool, vision positions, blit, key

Models of seven pieces of board-support code and the proofs of what they keep. They share
no code, so each has its own modules; `Arith.dfy` holds facts about division.

- `Aios*.dfy`: the UART protocol of the AIOS GPIO expander. `AiosFrame` defines frames and
  how a stream is cut into pieces; `AiosByteParser` and `AiosBatchParser` specify the parser
  of the January driver and that of the June driver; `AiosSync` proves round trip and
  recovery, `AiosBatchSync` recovery of the June parser; `AiosCache` says what the cached line state means; `AiosDriver` and
  `AiosBatchDriver` are the two drivers as objects over in-place buffers.
- `Ch343Pool.dfy`, `Ch343Port.dfy`, `Ch343Divisor.dfy`: the write buffers of the CH343 USB
  serial driver under suspend and resume, as a state machine and as the object whose entry
  points are runs of it; and the baud-rate divisor.
- `GaugeArith.dfy`, `GaugeModel.dfy`, `GaugeRuns.dfy`, `GaugeSmooth.dfy`, `GaugeZero.dfy`,
  `GaugeModes.dfy`, `GaugeRules.dfy`, `GaugeSleep.dfy`, `GaugeBattery.dfy`: the RK817 fuel
  gauge: its arithmetic, its algorithms as functions on the state, what runs of them keep, how
  faithful smoothing and zero mode are to the charge drawn, what modes, thresholds, waiting
  times and sleeps mean, and the object that updates its fields in place.
- `VisionPatches.dfy`, `VisionInterp.dfy`, `RopeIndex.dfy`: the position code of the Qwen
  vision pipeline.
- `Framebuffer.dfy`: the clipped blit of the LVGL demo. `PowerKey.dfy`: the ClawStar key.

Objects carry ghost history (parsed frames, accepted and submitted writes, toggles) so that
safety can be stated about it; nothing real depends on it. C integer division truncates
toward zero, and widths are written out where a result depends on them.

Where code and comment differ the code is followed: the ClawStar key toggles power after
1500 ms and takes the high level as pressed, where the comments say three seconds and low;
the fuel gauge compares the charge with 100 although it counts in thousandths of a percent
(rk817_battery.c line 1463), and uAh with mAh (lines 2901 and 3427).

Where something one would expect does not always hold, the exact condition is proved:
recovery of the AIOS parsers (a gap of at least 62 bytes for the January one, 63 for the June
one), a refused AIOS request being reported (an error frame in last place), order on the
CH343 wire (no resume that leaves a write behind), the best divisor (rates 46..6000000),
monotone voltage readings (a table whose top is not overtaken), a capacity surviving the
gauge's registers (capacity times divisor at most 102602), and a full counter reading as full
(at most 42949 mAh).

Check everything with `dafny verify dfyconfig.toml`.

## Model
| member | source | states |
|---|---|---|
| AiosSync.SelfStabilises | Sophgo/BM1684X_Develop_Recorder/20260124/aios_gpio.c:173-285 | from every buffer state the parser can be in, after 62 bytes other than 0x53 the frames that follow are each delivered exactly once, in order and last, and all earlier bytes have been disposed of |
| AiosSync.ShorterGapLosesFrame | Sophgo/BM1684X_Develop_Recorder/20260124/aios_gpio.c:173-285 | no shorter gap will do: for every length up to 61, a reachable buffer, a gap and a frame that is lost after it |
| AiosSync.GapSufficesIff | Sophgo/BM1684X_Develop_Recorder/20260124/aios_gpio.c:173-285 | delivery of everything after the gap is sure, for all buffers, gaps and frames, if and only if the gap is at least 62 bytes |
| AiosSync.LongGapSyncs | Sophgo/BM1684X_Develop_Recorder/20260124/aios_gpio.c:173-285 | a gap of 63 bytes leaves at most two bytes buffered, neither a start byte |
| AiosSync.RecoveredForGood | Sophgo/BM1684X_Develop_Recorder/20260124/aios_gpio.c:173-285 | after such a gap, frames mixed with any noise free of start bytes are delivered once each and in order, for ever |
| AiosSync.GapCatchesStart | Sophgo/BM1684X_Develop_Recorder/20260124/aios_gpio.c:173-285 | after 62 bytes other than 0x53 the next start byte opens a frame, whatever was buffered |
| AiosSync.ItemsDelivered | Sophgo/BM1684X_Develop_Recorder/20260124/aios_gpio.c:173-285 | from a synchronised buffer, frames and start-free noise in any mixture give exactly the frames |
| AiosSync.ChunkingIrrelevant | Sophgo/BM1684X_Develop_Recorder/20260124/aios_gpio.c:159-288 | how the input is cut into receive calls changes neither the frames nor the residue |
| AiosSync.RoundTrip | Sophgo/BM1684X_Develop_Recorder/20260124/aios_gpio.c:173-285 | well-formed frames sent back to back and cut into any chunks come out exactly, with nothing dropped or left over |
| AiosSync.UnfinishedIsHeld | Sophgo/BM1684X_Develop_Recorder/20260124/aios_gpio.c:192-219 | a proper beginning of a frame is kept whole and nothing is emitted for it |
| AiosByteParser.FeedAllCuts | Sophgo/BM1684X_Develop_Recorder/20260124/aios_gpio.c:159-288 | for any input the pieces and the residue concatenate to buffer plus input, every frame is well-formed, and the residue satisfies the invariant: at most 63 bytes, starting with 0x53 and short of its own frame length once it holds 3 |
| AiosByteParser.FramesAreSlices | Sophgo/BM1684X_Develop_Recorder/20260124/aios_gpio.c:159-288 | the frames are disjoint contiguous slices of the stream in order; framed + dropped + buffered bytes equals bytes consumed; the residue is a suffix of the stream |
| AiosByteParser.FeedAllAppend | Sophgo/BM1684X_Develop_Recorder/20260124/aios_gpio.c:159-288 | feeding a concatenation is feeding its parts one after the other |
| AiosByteParser.FeedCuts | Sophgo/BM1684X_Develop_Recorder/20260124/aios_gpio.c:173-285 | one received byte keeps the invariant and loses track of no byte |
| AiosByteParser.DrainCuts | Sophgo/BM1684X_Develop_Recorder/20260124/aios_gpio.c:192-284 | the framing loop accounts for every buffered byte and leaves a buffer it cannot frame further |
| AiosDriver.AiosPort.Discard | Sophgo/BM1684X_Develop_Recorder/20260124/aios_gpio.c:225-228 | the overlapping move drops exactly the first n buffered bytes |
| AiosDriver.AiosPort.FrameRound | Sophgo/BM1684X_Develop_Recorder/20260124/aios_gpio.c:198-283 | one round of the loop does what the parser specification does, shrinks the buffer when the loop goes on, and keeps the cache equal to the replay of the log |
| AiosDriver.AiosPort.FrameLoop | Sophgo/BM1684X_Develop_Recorder/20260124/aios_gpio.c:192-284 | the loop terminates with the specified pieces; cache, pending transaction and receive buffer have heard exactly the emitted frames |
| AiosDriver.AiosPort.RecvByte | Sophgo/BM1684X_Develop_Recorder/20260124/aios_gpio.c:173-284 | one byte: the overflow reset is unreachable and the result is that of the specification |
| AiosDriver.AiosPort.Recv | Sophgo/BM1684X_Develop_Recorder/20260124/aios_gpio.c:159-288 | a chunk is consumed whole; buffer, cache, log and completion count are those of the specification over the whole chunk |
| AiosDriver.AiosPort.AcceptFrame | Sophgo/BM1684X_Develop_Recorder/20260124/aios_gpio.c:232-283 | a complete frame is copied out, logged in the cache, and completes the transaction if and only if it answers it |
| AiosDriver.AiosPort.UpdateCachedState | Sophgo/BM1684X_Develop_Recorder/20260124/aios_gpio.c:103-150 | every cached line stays equal to the replay of the log with the new frame, whatever the command, length and line number |
| AiosDriver.AiosPort.MatchResponse | Sophgo/BM1684X_Develop_Recorder/20260124/aios_gpio.c:74-101 | true exactly for an error frame or an answer to the pending command, on the pending line where one is expected |
| AiosDriver.AnswersOwnLine | Sophgo/BM1684X_Develop_Recorder/20260124/aios_gpio.c:49-101 | a well-formed request for a line is answered by the same command on the same line and, but for error frames, by nothing else |
| AiosDriver.AnswersOwnCommand | Sophgo/BM1684X_Develop_Recorder/20260124/aios_gpio.c:33-101 | an initialisation, with or without its wake-up byte, and a configuration are answered by the same command; other commands only by error frames |
| AiosDriver.SetValueAnswered | Sophgo/BM1684X_Develop_Recorder/20260124/aios_gpio.c:467-494 | the request that sets a line is the frame 53 4F 02 line level 0D 0A, answered for that line only |
| AiosCache.ReplayFrame | Sophgo/BM1684X_Develop_Recorder/20260124/aios_gpio.c:103-150 | a parsed frame changes the replayed direction (D) or value (R, O) of the line it names, when it carries two data bytes, and of no other line |
| AiosCache.ReplaySet | Sophgo/BM1684X_Develop_Recorder/20260124/aios_gpio.c:467-494 | a successful set changes the replayed value of its line only |
| AiosCache.ReplySetsLine | Sophgo/BM1684X_Develop_Recorder/20260124/aios_gpio.c:103-150 | the reply 53 cmd 02 line value 0D 0A sets the direction (D) or value (R, O) of its line and nothing else |
| AiosCache.OtherLengths | Sophgo/BM1684X_Develop_Recorder/20260124/aios_gpio.c:103-150 | a shorter reply sets nothing; a longer one does here and does not in the June driver |
| AiosDriver.AiosPort.Expect | Sophgo/BM1684X_Develop_Recorder/20260124/aios_gpio.c:311-325 | a new transaction empties the receive state and expects the answer to the frame being sent, which AnswersOwnLine and AnswersOwnCommand spell out; the log and cache stay |
| AiosDriver.AiosPort.Write | Sophgo/BM1684X_Develop_Recorder/20260124/aios_gpio.c:298-359 | the result is the outcome the received frames decide, and the log grows by exactly those frames |
| AiosDriver.AiosPort.WriteRetry | Sophgo/BM1684X_Develop_Recorder/20260124/aios_gpio.c:361-382 | the result is that of the first attempt that is neither -EAGAIN nor -ETIMEDOUT, or of the last one allowed, and the log grows by the frames of exactly those attempts and their delays |
| AiosDriver.AiosPort.SetValue | Sophgo/BM1684X_Develop_Recorder/20260124/aios_gpio.c:467-494 | a set reaches the cache exactly when its request did not fail, with the value normalised to 0 or 1 |
| AiosDriver.SuccessMeansAnswer | Sophgo/BM1684X_Develop_Recorder/20260124/aios_gpio.c:264-358 | an attempt succeeds if and only if some frame answers and the last is no error frame; an answer of its own carries the command and the line asked for |
| AiosDriver.OutcomeIff | Sophgo/BM1684X_Develop_Recorder/20260124/aios_gpio.c:331-358 | the exact condition of each result: time-out, try again, done |
| AiosDriver.RefusalReportedIff | Sophgo/BM1684X_Develop_Recorder/20260124/aios_gpio.c:340-358 | a refused request is reported as refused if and only if the last frame to arrive is an error frame, and counts as done otherwise |
| AiosDriver.SuccessGenuineIff | Sophgo/BM1684X_Develop_Recorder/20260124/aios_gpio.c:340-358 | a success cannot be without an answer of its own if and only if there is one, or no error frame came, or the last frame is one |
| AiosDriver.ErrorFrameCanBeMasked | Sophgo/BM1684X_Develop_Recorder/20260124/aios_gpio.c:340-358 | a refused request that counts as done: an error frame, then a frame about something else |
| AiosDriver.HearAllMeans | Sophgo/BM1684X_Develop_Recorder/20260124/aios_gpio.c:232-274 | all frames are logged, only those that answer are counted, the receive buffer holds the last frame, and that frame alone decides whether the reply is valid |
| AiosDriver.AttemptsMadeIs | Sophgo/BM1684X_Develop_Recorder/20260124/aios_gpio.c:361-382 | the attempts made are the least number whose last result ends the loop |
| AiosDriver.RetriesOnly | Sophgo/BM1684X_Develop_Recorder/20260124/aios_gpio.c:361-382 | only results -11 and -110 lead to another attempt, and ending with one of them means no attempt was left |
| AiosBatchParser.BatchRoundTripIff | Sophgo/BM1684X_Develop_Recorder/20260630/aios_gpio.c:110-173 | frames sent back to back come out intact if and only if every chunk fits beside the residue before it |
| AiosBatchParser.BatchAgreesWithBytes | Sophgo/BM1684X_Develop_Recorder/20260630/aios_gpio.c:110-173 | on any prefix of a stream of frames with fitting chunks, the batch parser and the byte parser emit the same pieces and hold the same residue |
| AiosBatchParser.BatchRunCuts | Sophgo/BM1684X_Develop_Recorder/20260630/aios_gpio.c:96-174 | for any input every byte is framed, dropped or still buffered, in stream order, overflow included |
| AiosBatchParser.BatchDrainCuts | Sophgo/BM1684X_Develop_Recorder/20260630/aios_gpio.c:119-171 | the batch loop accounts for every buffered byte and leaves at most 63 |
| AiosBatchParser.BatchDrainIdeal | Sophgo/BM1684X_Develop_Recorder/20260630/aios_gpio.c:119-171 | on a prefix of a stream of frames the loop emits the complete ones and keeps the rest |
| AiosBatchParser.OverflowDrops | Sophgo/BM1684X_Develop_Recorder/20260630/aios_gpio.c:110-117 | a chunk that does not fit loses at least one byte |
| AiosBatchSync.BatchSelfStabilises | Sophgo/BM1684X_Develop_Recorder/20260630/aios_gpio.c:96-174 | from any buffer, after 63 bytes without a start byte, frames in chunks that fit are each delivered exactly once, in order and last |
| AiosBatchSync.BatchShorterGapLosesFrame | Sophgo/BM1684X_Develop_Recorder/20260630/aios_gpio.c:119-171 | no shorter gap will do: for every length up to 62, a buffer, a gap, a frame and fitting chunks that lose it |
| AiosBatchSync.BatchGapSufficesIff | Sophgo/BM1684X_Develop_Recorder/20260630/aios_gpio.c:96-174 | for fitting chunks, delivery of everything after the gap is sure if and only if the gap is at least 63 bytes |
| AiosBatchDriver.BatchPort.Recv | Sophgo/BM1684X_Develop_Recorder/20260630/aios_gpio.c:96-174 | the chunk is consumed whole; buffer, log and completion count are those of the specification |
| AiosBatchDriver.BatchPort.Append | Sophgo/BM1684X_Develop_Recorder/20260630/aios_gpio.c:110-112 | the bytes taken are appended to what is buffered |
| AiosBatchDriver.BatchPort.Loop | Sophgo/BM1684X_Develop_Recorder/20260630/aios_gpio.c:119-171 | the compacting loop terminates with the specified pieces and residue |
| AiosBatchDriver.BatchPort.Round | Sophgo/BM1684X_Develop_Recorder/20260630/aios_gpio.c:119-171 | one round does what the specification does and shrinks the buffer when the loop goes on |
| AiosBatchDriver.BatchPort.FindStart | Sophgo/BM1684X_Develop_Recorder/20260630/aios_gpio.c:120-126 | the first start byte of the buffer, or its length when there is none |
| AiosBatchDriver.BatchPort.HandleFrame | Sophgo/BM1684X_Develop_Recorder/20260630/aios_gpio.c:28-79 | the frame is copied out, the cache replays the log with it, and the waiter is woken whatever was expected |
| AiosBatchDriver.BatchPort.UpdateCache | Sophgo/BM1684X_Develop_Recorder/20260630/aios_gpio.c:43-76 | every cached line stays equal to the replay of the log, which here takes frames with exactly two data bytes |
| Ch343Pool.PoolNeverLosesTrack | Sophgo/BM1684X_Develop_Recorder/20260124/ch343.c:456-514 | for any pool size and any interleaving of writes, completions, suspends, resumes, drains, opens, closes and unplugs: a buffer is in use if and only if it is submitted or delayed, never both; the transmit count and the PM references are what they count |
| Ch343Pool.StepKeepsAccounted | Sophgo/BM1684X_Develop_Recorder/20260124/ch343.c:740-758 | every single step keeps that accounting |
| Ch343Pool.BuffersNeverOverflow | Sophgo/BM1684X_Develop_Recorder/20260124/ch343.c:1028-1031 | over every run no buffer holds, and no submission carries, more than writesize bytes |
| Ch343Pool.StepKeepsBounded | Sophgo/BM1684X_Develop_Recorder/20260124/ch343.c:1028-1031 | every single step keeps that bound |
| Ch343Pool.WriteTakenIff | Sophgo/BM1684X_Develop_Recorder/20260124/ch343.c:1009-1052 | a write is taken if and only if there is a buffer and a device, and the power manager and, unless suspended, the controller agree; then exactly its first min(count, writesize) bytes are accepted, and otherwise nothing is left of it |
| Ch343Pool.SubmittedInOrder | Sophgo/BM1684X_Develop_Recorder/20260124/ch343.c:1040-1052 | over every run in which no resume leaves a delayed write behind, closes included, the submitted payloads are a subsequence, in order and byte for byte, of the accepted writes, and nothing is delayed while awake and not closing |
| Ch343Pool.StepKeepsOrdered | Sophgo/BM1684X_Develop_Recorder/20260124/ch343.c:2341-2386 | every step but a resume that leaves a delayed write behind keeps the order between submitted and delayed writes |
| Ch343Pool.OpenNeverStrands | Sophgo/BM1684X_Develop_Recorder/20260124/ch343.c:2363-2383 | a run without a close has no such resume, so while the port stays initialised the order holds |
| Ch343Pool.ResumeOrderedIff | Sophgo/BM1684X_Develop_Recorder/20260124/ch343.c:2363-2383 | a resume keeps the order if and only if it is not the last one of a closed port with writes delayed |
| Ch343Pool.OrderedIff | Sophgo/BM1684X_Develop_Recorder/20260124/ch343.c:2341-2386 | the order holds in every state of a run if and only if no resume of it leaves a delayed write behind |
| Ch343Pool.StrandedIsOvertaken | Sophgo/BM1684X_Develop_Recorder/20260124/ch343.c:1040-1052 | from every state in which a resume is about to leave a write behind, with the device present and a buffer free, a later write gets onto the wire before it |
| Ch343Pool.ClosedResumeReorders | Sophgo/BM1684X_Develop_Recorder/20260124/ch343.c:912-938 | such a resume is reached by a writer that comes after the shutdown of a suspended port, and the wire then has the writes in the wrong order |
| Ch343Pool.UseCountsOutstanding | Sophgo/BM1684X_Develop_Recorder/20260124/ch343.c:475-486 | the buffers in use are as many as the writes outstanding, and the allocation fails exactly when these fill the pool |
| Ch343Port.PortObject.WbAlloc | Sophgo/BM1684X_Develop_Recorder/20260124/ch343.c:456-473 | takes the first free buffer, or reports -1 and changes nothing exactly when all are in use |
| Ch343Port.PortObject.WbIsAvail | Sophgo/BM1684X_Develop_Recorder/20260124/ch343.c:475-486 | the free buffers are the pool less the outstanding writes |
| Ch343Port.PortObject.WriteDone | Sophgo/BM1684X_Develop_Recorder/20260124/ch343.c:488-493 | frees the buffer and drops one transmit count and one PM reference |
| Ch343Port.PortObject.StartWb | Sophgo/BM1684X_Develop_Recorder/20260124/ch343.c:495-514 | a submission counts, or a refused one gives buffer, count and PM reference back |
| Ch343Port.PortObject.TtyWrite | Sophgo/BM1684X_Develop_Recorder/20260124/ch343.c:1004-1052 | a write is the state machine step it should be; its result is exactly min(count, writesize) or the code of what refused it, the bytes counted are the ones accepted, and there is no room exactly when the pool is outstanding |
| Ch343Port.PortObject.Fill | Sophgo/BM1684X_Develop_Recorder/20260124/ch343.c:1022-1052 | an allocated buffer takes the first min(count, writesize) bytes, or is given back when the device is gone |
| Ch343Port.PortObject.Send | Sophgo/BM1684X_Develop_Recorder/20260124/ch343.c:1033-1051 | a filled buffer is given back, delayed behind the earlier ones, or submitted |
| Ch343Port.PortObject.WriteBulk | Sophgo/BM1684X_Develop_Recorder/20260124/ch343.c:740-758 | a completion, successful or not, is the completion step |
| Ch343Port.PortObject.StopDataTraffic | Sophgo/BM1684X_Develop_Recorder/20260124/ch343.c:2240-2251 | a run of drain and completion steps that ends with the whole pool free and no reference outstanding |
| Ch343Port.PortObject.KillAll | Sophgo/BM1684X_Develop_Recorder/20260124/ch343.c:2250-2251 | cancelling the write URBs completes every submitted one |
| Ch343Port.PortObject.Pop | Sophgo/BM1684X_Develop_Recorder/20260124/ch343.c:2241-2246 | one delayed write is thrown away with its buffer and reference |
| Ch343Port.PortObject.PortShutdown | Sophgo/BM1684X_Develop_Recorder/20260124/ch343.c:912-938 | closing the port is a run of steps that leaves nothing delayed or submitted and the whole pool free |
| Ch343Port.PortObject.SuspendInterface | Sophgo/BM1684X_Develop_Recorder/20260124/ch343.c:2336-2355 | -EBUSY exactly for an automatic suspend with transmissions under way; otherwise a run of steps that nests one deeper and, at the first level, leaves nothing delayed or submitted and the whole pool free |
| Ch343Port.PortObject.ResumeInterface | Sophgo/BM1684X_Develop_Recorder/20260124/ch343.c:2357-2387 | a run of steps that unnests by one and, at the last level of an initialised port, empties the delayed list and puts on the wire, oldest first, exactly the delayed writes the controller takes |
| Ch343Port.PortObject.SubmitDelayed | Sophgo/BM1684X_Develop_Recorder/20260124/ch343.c:2374-2378 | the oldest delayed write is submitted, or given back when refused |
| Ch343Divisor.ChooseDivisor | Sophgo/BM1684X_Develop_Recorder/20260124/ch343.c:1499-1507 | for rates 46 to 6000000 the divisor register is set, fits, and holds the best divisor of the selected clock; the error return exactly when the quotient byte is 0 or 255 |
| Ch343Divisor.SelectClock | Sophgo/BM1684X_Develop_Recorder/20260124/ch343.c:1473-1498 | the clock and prescaler for a rate |
| Ch343Divisor.OptimalIff | Sophgo/BM1684X_Develop_Recorder/20260124/ch343.c:1473-1507 | the chosen divisor minimises the distance to the rate over 1..255 if and only if the rate is in 46..6000000 |
| Ch343Divisor.ChosenIsBest | Sophgo/BM1684X_Develop_Recorder/20260124/ch343.c:1499-1504 | no divisor the hardware offers comes closer, with no unsigned wrap on the way |
| Ch343Divisor.ErrorBound | Sophgo/BM1684X_Develop_Recorder/20260124/ch343.c:1473-1507 | for rates 46..23529 the miss is below (rate/31 + 1)/2 |
| Ch343Divisor.SlowRateMissed | Sophgo/BM1684X_Develop_Recorder/20260124/ch343.c:1499-1504 | below 46 the quotient is cut to a byte and divisor 255 would have been closer |
| Ch343Divisor.PrescalerNames | Sophgo/BM1684X_Develop_Recorder/20260124/ch343.c:1473-1507 | the prescaler code names the clock: 7 for 12 MHz, else 6 MHz divided by eight per step below 3 |
| Ch343Divisor.FastestClock | Sophgo/BM1684X_Develop_Recorder/20260124/ch343.c:1484-1496 | but for six rates, the fastest clock that 255 divides below the rate |
| Ch343Divisor.SpecialRates | Sophgo/BM1684X_Develop_Recorder/20260124/ch343.c:1473-1482 | the six special rates are served from 12 MHz at least as well as from 6 MHz |
| GaugeArith.Interpolate | Rockchip/Android_System_Develop/20260302/rk817_battery.c:657-684 | the linear search returns the specified reading with its 16-bit intermediates, for any table and any int voltage |
| GaugeArith.MonotoneIff | Rockchip/Android_System_Develop/20260302/rk817_battery.c:657-684 | for an increasing table whose gaps fit 16 bits, the reading is monotone in the voltage if and only if the reading at the top is not overtaken just below it |
| GaugeArith.TwentyOnePoints | Rockchip/Android_System_Develop/20260302/rk817_battery.c:657-684 | a 21-point table with gaps up to 1310 meets that condition and tops out at 1000 |
| GaugeArith.TwentyOneReadings | Rockchip/Android_System_Develop/20260302/rk817_battery.c:657-684 | such a table reads 50 times the entry reached plus an even share of 50, 0 below it and 1000 at its top |
| GaugeArith.EntriesFivePercent | Rockchip/Android_System_Develop/20260302/rk817_battery.c:1328-1354 | so every entry is worth five percent and that share of the full capacity |
| GaugeArith.TwentySixPointsFail | Rockchip/Android_System_Develop/20260302/rk817_battery.c:657-684 | a 26-point table does not: two voltages that read in the wrong order |
| GaugeArith.LookupCases | Rockchip/Android_System_Develop/20260302/rk817_battery.c:657-684 | what a reading is by its place in the table: 0 below, at most 1000, and between two entries from the lower entry on by less than one step, with no 16-bit wrap |
| GaugeArith.AbDivCIs | Rockchip/Android_System_Develop/20260302/rk817_battery.c:686-706 | for operands that fit, the rounded quotient capped at 0x7FFF |
| GaugeArith.EstimatesMonotone | Rockchip/Android_System_Develop/20260302/rk817_battery.c:1328-1354 | the charge and capacity estimated from a voltage are monotone, within 0..100 and 0..fcc, 0 below the table and full at its top |
| GaugeArith.RoundTripIs | Rockchip/Android_System_Develop/20260302/rk817_battery.c:1241-1271 | a capacity written and read back is unchanged if 43 divides it and one less otherwise, while capacity times divisor is at most 102602 |
| GaugeArith.ImageOf | Rockchip/Android_System_Develop/20260302/rk817_battery.c:79-82 | 43 mAh are 900000 in the register image, both ways |
| GaugeArith.RoundTripsSettle | Rockchip/Android_System_Develop/20260302/rk817_battery.c:1241-1271 | n round trips end at the larger of capacity - n and the multiple of 43 below, where they stop |
| GaugeArith.RoundTripIff | Rockchip/Android_System_Develop/20260302/rk817_battery.c:79-82 | for divisor 1 or 2 and every capacity below 2^31, the round trip is exact, or one less off the multiples of 43, if and only if capacity times divisor is at most 102602 |
| GaugeArith.ReadBackRange | Rockchip/Android_System_Develop/20260302/rk817_battery.c:1259-1271 | whatever the registers hold, capacity times divisor reads back as at most 102601, or the capacity is a negative number seen as unsigned |
| GaugeArith.CapacityRegisters.UpdateQmax | Rockchip/Android_System_Develop/20260302/rk817_battery.c:1241-1257 | the four byte registers hold the register image of the capacity |
| GaugeArith.CapacityRegisters.GetQmax | Rockchip/Android_System_Develop/20260302/rk817_battery.c:1259-1271 | the four byte registers read back as the capacity they encode |
| GaugeRuns.DrainNeverRises | Rockchip/Android_System_Develop/20260302/rk817_battery.c:2945-3066 | over any run of ticks, suspends, resumes and plug interrupts with negative current readings and no charge finish seen, starting in zero or smooth mode, the reported charge never rises and stays in 0..100000 |
| GaugeRuns.TickNeverRises | Rockchip/Android_System_Develop/20260302/rk817_battery.c:3052-3066 | one such tick, through low-power drops, mode changes, resets after a resume and the final clamp |
| GaugeRuns.TickDropBounded | Rockchip/Android_System_Develop/20260302/rk817_battery.c:3052-3066 | and unless the voltage is near the cutoff, one tick loses at most 4 percent |
| GaugeRuns.ChargeNeverFalls | Rockchip/Android_System_Develop/20260302/rk817_battery.c:2945-3066 | over any run of charging ticks, sleeps on the charger and plug interrupts, starting outside zero mode, the reported charge never falls and never passes 100 percent |
| GaugeRuns.SmoothSlopeValues | Rockchip/Android_System_Develop/20260302/rk817_battery.c:1570-1605 | the smooth slope is one of 750, 1000, 1333 with the sign of the current, slower away from the true charge and faster towards it |
| GaugeRuns.SmoothFollowsCurrent | Rockchip/Android_System_Develop/20260302/rk817_battery.c:2504-2597 | a smooth step moves the report the way the current flows, down by at most one percent |
| GaugeRuns.CalcZeroSlopeLowers | Rockchip/Android_System_Develop/20260302/rk817_battery.c:2599-2804 | computing the zero slope never raises the report, keeps the mode, and costs at most one percent above the cutoff |
| GaugeRuns.ZeroSlopeBands | Rockchip/Android_System_Develop/20260302/rk817_battery.c:2681-2768 | the zero slope is 300, 400, 600, 800, 1000 or at least 1200, never the 900 the code names; when little charge is usable it does not slow below 1000, but for the last five percent |
| GaugeRuns.ZeroAlgorithmLowers | Rockchip/Android_System_Develop/20260302/rk817_battery.c:2838-2893 | a zero step never raises the report, and costs at most 3 percent above the cutoff |
| GaugeRuns.FinishRaises | Rockchip/Android_System_Develop/20260302/rk817_battery.c:2895-2943 | a finish step never lowers the report |
| GaugeRuns.SleepEstimateBounds | Rockchip/Android_System_Develop/20260302/rk817_battery.c:3469-3530 | the sleep estimate never adds; it stays at or above the true charge when the report was above it, and at or above 5000 when the report was at least 6000 and not above it |
| GaugeRuns.SleepNeverRaises | Rockchip/Android_System_Develop/20260302/rk817_battery.c:3448-3556 | the whole sleep accounting ends in 0..old report |
| GaugeRuns.ResumeNeverRaises | Rockchip/Android_System_Develop/20260302/rk817_battery.c:3558-3605 | so does waking up, in the same mode |
| GaugeRuns.UpdateKeeps | Rockchip/Android_System_Develop/20260302/rk817_battery.c:2388-2431 | reading the registers leaves the report, the mode and the sleep flags alone |
| GaugeModes.SeededShare | Rockchip/Android_System_Develop/20260302/rk817_battery.c:1195-1217 | re-seeding the counter makes the charge the share of the full capacity, rounded down: full for all of it and for nothing less |
| GaugeModes.SeededFullIff | Rockchip/Android_System_Develop/20260302/rk817_battery.c:1195-1217 | seeding with the full capacity reads as full if and only if it is at most 42949 mAh, beyond which the 32-bit product wraps |
| GaugeModes.CappedBound | Rockchip/Android_System_Develop/20260302/rk817_battery.c:2415-2427 | after a reading the counter is at most the full capacity, to the next mAh, and capping it again changes nothing |
| GaugeModes.PreparedSlope | Rockchip/Android_System_Develop/20260302/rk817_battery.c:1607-1614 | prepared smoothing starts from the report, with a slope of the sign of the current, between 3/4 and 4/3, and no change pending |
| GaugeModes.UsableRange | Rockchip/Android_System_Develop/20260302/rk817_battery.c:2609-2680 | the usable charge is in -100..100 percent, and 3, 5 or 10 by the load are kept in hand, 5 more when at most 30 are usable |
| GaugeModes.UsableGrows | Rockchip/Android_System_Develop/20260302/rk817_battery.c:2634-2654 | at the same load a higher voltage never leaves less to use |
| GaugeModes.FinishModeMeans | Rockchip/Android_System_Develop/20260302/rk817_battery.c:2958-2981 | without a drain a step in finish mode neither lowers the report nor leads to zero mode |
| GaugeModes.ZeroModeMeans | Rockchip/Android_System_Develop/20260302/rk817_battery.c:2982-3001 | a step in zero mode never raises the report, and leads to smooth mode if and only if the voltage recovered or the load is gone |
| GaugeModes.SmoothModeMeans | Rockchip/Android_System_Develop/20260302/rk817_battery.c:3003-3023 | a step in smooth mode moves the report the way the current flows, and leads to zero mode if and only if the voltage is low under load |
| GaugeModes.ZeroModeMeansLow | Rockchip/Android_System_Develop/20260302/rk817_battery.c:2945-3024 | after a tick, zero mode means a load on a voltage below the upper threshold, whatever the mode was |
| GaugeModes.HysteresisBand | Rockchip/Android_System_Develop/20260302/rk817_battery.c:2945-3024 | between the two thresholds, under load and with no finish in sight, the mode stays what it is |
| GaugeModes.ClampedNearest | Rockchip/Android_System_Develop/20260302/rk817_battery.c:2318-2325 | what is reported is the nearest value between 0 and 100 percent |
| GaugeModes.SuspendMeans | Rockchip/Android_System_Develop/20260302/rk817_battery.c:3308-3363 | a suspend leaves the report and the counted sleep alone, and zero mode only to a drain |
| GaugeModes.ChargerSleepKeeps | Rockchip/Android_System_Develop/20260302/rk817_battery.c:3558-3605 | after a sleep on the charger the report and the counted seconds are what they were before it |
| GaugeModes.RelaxMeans | Rockchip/Android_System_Develop/20260302/rk817_battery.c:3422-3446 | the correction from the relaxed voltage never raises the report, and leaves the counter at the estimate unless its uAh happened to equal the estimate in mAh |
| GaugeSmooth.RunError | Rockchip/Android_System_Develop/20260302/rk817_battery.c:2504-2564 | over any run of unclamped smooth steps the change of the smoothed charge misses slope times counted capacity over 10 fcc by less than 3.4 units per counted step, and by nothing when none is counted |
| GaugeSmooth.ChangesCarried | Rockchip/Android_System_Develop/20260302/rk817_battery.c:2504-2564 | on a charge or a discharge the counted changes add up to the whole capacity gone in or out, but for a remainder not yet worth a unit: changes too small to count are carried |
| GaugeSmooth.StepError | Rockchip/Android_System_Develop/20260302/rk817_battery.c:2546-2546 | one step is off by less than 3.4 units |
| GaugeSmooth.FollowsDown | Rockchip/Android_System_Develop/20260302/rk817_battery.c:2479-2502 | the report follows a lower charge by one percent at a time, exactly to max(charge, report - 1000), and goes no lower |
| GaugeSmooth.FollowsUp | Rockchip/Android_System_Develop/20260302/rk817_battery.c:2571-2584 | and a higher one at once |
| GaugeSmooth.CountedStep | Rockchip/Android_System_Develop/20260302/rk817_battery.c:2554-2591 | a counted change moves the smoothed charge by it and the shown percent after it; after a resume the slope is renewed |
| GaugeZero.ZeroStepLaw | Rockchip/Android_System_Develop/20260302/rk817_battery.c:2838-2883 | a zero step recomputes if and only if slope times drain is worth ten units, after a hundred steps, or for slope 0; recomputing takes slope times drain over 10 fcc off to less than one unit, pulls the report after it and counts on from there; otherwise all is carried |
| GaugeZero.ZeroRunLaw | Rockchip/Android_System_Develop/20260302/rk817_battery.c:2838-2883 | over any run with charge to use, the zero-mode charge falls by what the counted drains are worth, to less than one unit per recomputation |
| GaugeZero.DrainCarried | Rockchip/Android_System_Develop/20260302/rk817_battery.c:2838-2883 | the counted drains add up to all capacity drawn but for a carried rest worth less than ten units |
| GaugeZero.ZeroPullsReport | Rockchip/Android_System_Develop/20260302/rk817_battery.c:2820-2836 | a zero-mode charge in a lower percent pulls the report to max(charge, report - 1000), and only such a one does |
| GaugeZero.PreparedZero | Rockchip/Android_System_Develop/20260302/rk817_battery.c:2806-2818 | on entering zero mode its charge is the smoothed one unless both show the same percent |
| GaugeZero.EmptyCounterReseeded | Rockchip/Android_System_Develop/20260302/rk817_battery.c:2885-2892 | a counter below one percent is seeded from the voltage if and only if that says more than a percent of the full capacity |
| GaugeRules.DropCompensated | Rockchip/Android_System_Develop/20260302/rk817_battery.c:2634-2638 | the drop over the resistance is compensated to the millivolt, at shutdown with 50 more, so a load raises both voltages |
| GaugeRules.ShutdownIs | Rockchip/Android_System_Develop/20260302/rk817_battery.c:2609-2612 | shutdown is 50 mV early if and only if the load is below 400 mA and six percent or more are shown |
| GaugeRules.UsableSign | Rockchip/Android_System_Develop/20260302/rk817_battery.c:2634-2654 | without load, charge is usable above the shutdown voltage and missing below it |
| GaugeRules.UsableIs | Rockchip/Android_System_Develop/20260302/rk817_battery.c:2642-2654 | between voltages on a 21-point table the usable charge is five percent per entry |
| GaugeRules.SlopeComputed | Rockchip/Android_System_Develop/20260302/rk817_battery.c:2599-2804 | what a slope computation leaves: the estimate, a slope with no wait or the wait of a starved report, and the cutoff |
| GaugeRules.ReserveIs | Rockchip/Android_System_Develop/20260302/rk817_battery.c:2668-2677 | 3 percent are kept above 1400 mA, 5 above 600 mA, else 10, and 5 more near the end; a heavier load never keeps more |
| GaugeRules.WideSlope | Rockchip/Android_System_Develop/20260302/rk817_battery.c:2700-2715 | with room the slope is 400 from twice the reserve, 600 from three percent more than it, else 800 |
| GaugeRules.NarrowSlope | Rockchip/Android_System_Develop/20260302/rk817_battery.c:2716-2768 | without room the slope is the proportional one, at least 1200 in the last fifteen percent, and bounded above that |
| GaugeRules.LastPercentSlope | Rockchip/Android_System_Develop/20260302/rk817_battery.c:2681-2685 | in the last two percents it is 400 |
| GaugeRules.EnergySlope | Rockchip/Android_System_Develop/20260302/rk817_battery.c:2691-2699 | energy mode slows to 300 if and only if the proportional slope is lower |
| GaugeRules.StarvedWaits | Rockchip/Android_System_Develop/20260302/rk817_battery.c:2770-2785 | starved at two times, the report loses a percent if and only if they are fifteen seconds apart |
| GaugeRules.ExtremeLowWaits | Rockchip/Android_System_Develop/20260302/rk817_battery.c:2787-2801 | extremely low at two times, the report is emptied if and only if they are more than thirty seconds apart with no recovery between |
| GaugeRules.LowPowerWaits | Rockchip/Android_System_Develop/20260302/rk817_battery.c:2443-2477 | in low power at two times, the charger looks unplugged if and only if they are more than a minute apart, and a percent goes if the voltage is 50 mV lower |
| GaugeRules.ThresholdsIff | Rockchip/Android_System_Develop/20260302/rk817_battery.c:2945-3024 | in millivolts: into zero mode if and only if below the threshold under load, out of it if and only if 50 mV above or without load |
| GaugeRules.ResetMeans | Rockchip/Android_System_Develop/20260302/rk817_battery.c:2945-2956 | the first tick after a resume without charger keeps the mode, restarts smoothing from the report and does not raise it |
| GaugeRules.FinishedIff | Rockchip/Android_System_Develop/20260302/rk817_battery.c:1396-1453 | when a charge counts as finished, on either chip |
| GaugeRules.FinishingIff | Rockchip/Android_System_Develop/20260302/rk817_battery.c:1396-1469 | on the RK817 a charge looks finished by the register, a full counter in the constant phase, or a trickle in it with the counter at 100 |
| GaugeRules.DrainNotFinishing | Rockchip/Android_System_Develop/20260302/rk817_battery.c:1396-1469 | on the RK809 a drain above 100 mA is never taken for a finished charge |
| GaugeRules.Rk809NeverRises | Rockchip/Android_System_Develop/20260302/rk817_battery.c:3052-3066 | so there a drain alone keeps the report from rising |
| GaugeRules.FinishBaseIs | Rockchip/Android_System_Develop/20260302/rk817_battery.c:2429-2430 | a finished charge is counted from the last reading that found it unfinished |
| GaugeRules.PerPercentIs | Rockchip/Android_System_Develop/20260302/rk817_battery.c:2916-2920 | a percent takes as long as 1000 mA, or 1500 mA for a lagging report, need for a hundredth of the capacity |
| GaugeRules.CatchUpConserves | Rockchip/Android_System_Develop/20260302/rk817_battery.c:2913-2929 | percents gained and time left open make up the time since the charge finished |
| GaugeRules.FinishedShowsFull | Rockchip/Android_System_Develop/20260302/rk817_battery.c:2895-2943 | a finished charge shows full at once, where seeding reads as full |
| GaugeRules.CounterShareIs | Rockchip/Android_System_Develop/20260302/rk817_battery.c:1309-1316 | the counter reads as its share of the full capacity, rounded down, and full for all of it |
| GaugeRules.ReadingsTaken | Rockchip/Android_System_Develop/20260302/rk817_battery.c:2388-2431 | what tick, suspend and resume read ends up in the state |
| GaugeRules.CappedIff | Rockchip/Android_System_Develop/20260302/rk817_battery.c:2415-2427 | a counter within the full capacity is left alone and one above it reads full |
| GaugeSleep.SleepRates | Rockchip/Android_System_Develop/20260302/rk817_battery.c:3469-3511 | the low estimate is what 6 or 1 mA draw in whole percents, the high one what 40 or 20 mA draw |
| GaugeSleep.LowNotAboveHigh | Rockchip/Android_System_Develop/20260302/rk817_battery.c:3469-3511 | the low estimate is not above the high one |
| GaugeSleep.BelowLoses | Rockchip/Android_System_Develop/20260302/rk817_battery.c:3477-3498 | what a report not above the true charge loses, by where it and the loss end |
| GaugeSleep.LossCountedIff | Rockchip/Android_System_Develop/20260302/rk817_battery.c:3477-3498 | a loss is counted if and only if it does not end within the sixth percent |
| GaugeSleep.AboveLoses | Rockchip/Android_System_Develop/20260302/rk817_battery.c:3512-3526 | a report above the true charge loses the estimate, or twice that when far ahead, and falls to the true charge if and only if the estimate reaches it |
| GaugeSleep.SleepEnds | Rockchip/Android_System_Develop/20260302/rk817_battery.c:3532-3551 | empty far below the power-off voltage, else one percent in reserve under the four conditions |
| GaugeSleep.RelaxUsedIff | Rockchip/Android_System_Develop/20260302/rk817_battery.c:3460-3466 | the relaxed voltage is used if and only if it is not below the last one measured |
| GaugeSleep.ShortSleepFree | Rockchip/Android_System_Develop/20260302/rk817_battery.c:3570-3599 | sleeps short of an hour, or ten minutes near power-off, cost nothing, and seconds add up without a charger only |
| GaugeSleep.CountedOnce | Rockchip/Android_System_Develop/20260302/rk817_battery.c:3588-3599 | a sleep for which a loss was estimated is counted once |
| GaugeBattery.Battery.CalcSmLinek | Rockchip/Android_System_Develop/20260302/rk817_battery.c:1570-1605 | the slope is stored as specified, with the capacity it counts from, and nothing else changes |
| GaugeBattery.Battery.CalcSmoothDischrg | Rockchip/Android_System_Develop/20260302/rk817_battery.c:2479-2502 | the report follows the smoothed charge down by whole percents, at most one at once, never below 0 |
| GaugeBattery.Battery.CalcSmoothChrg | Rockchip/Android_System_Develop/20260302/rk817_battery.c:2571-2584 | and up, telling when the smoothed charge lags behind the report |
| GaugeBattery.Battery.Count | Rockchip/Android_System_Develop/20260302/rk817_battery.c:2554-2591 | a counted change moves the smoothed charge and the report, and a first step after a resume renews the slope |
| GaugeBattery.Battery.SmoothStep | Rockchip/Android_System_Develop/20260302/rk817_battery.c:2504-2597 | the whole new state after a smooth step, the one the run theorems speak of |
| GaugeBattery.Battery.ChooseZeroLinek | Rockchip/Android_System_Develop/20260302/rk817_battery.c:2681-2768 | the zero slope for the usable percent, nothing else changed |
| GaugeBattery.Battery.Starve | Rockchip/Android_System_Develop/20260302/rk817_battery.c:2770-2785 | with nothing usable the report loses a percent after 15 seconds, not below 0 |
| GaugeBattery.Battery.DropWhenExtremeLow | Rockchip/Android_System_Develop/20260302/rk817_battery.c:2787-2801 | far below the shutdown voltage for more than 30 seconds the report is 0 |
| GaugeBattery.Battery.CalcZeroLinek | Rockchip/Android_System_Develop/20260302/rk817_battery.c:2599-2804 | the whole new state after computing the zero slope |
| GaugeBattery.Battery.ZeroAlgoPrepare | Rockchip/Android_System_Develop/20260302/rk817_battery.c:2806-2818 | the zero-mode charge restarts from the smoothed one when their percents differ |
| GaugeBattery.Battery.CalcZeroAlgorithm | Rockchip/Android_System_Develop/20260302/rk817_battery.c:2820-2836 | the report follows the zero-mode charge down by whole percents, at most one at once |
| GaugeBattery.Battery.ZeroRecompute | Rockchip/Android_System_Develop/20260302/rk817_battery.c:2873-2883 | a due recomputation takes the change off, moves the report and renews the slope |
| GaugeBattery.Battery.ZeroStep | Rockchip/Android_System_Develop/20260302/rk817_battery.c:2838-2893 | the whole new state after a zero step, the one ZeroStepLaw and the run laws speak of |
| GaugeBattery.Battery.CatchUp | Rockchip/Android_System_Develop/20260302/rk817_battery.c:2913-2929 | a percent for every stretch of time since the charge finished, the remainder counted on |
| GaugeBattery.Battery.FinishStep | Rockchip/Android_System_Develop/20260302/rk817_battery.c:2895-2943 | the whole new state after a finish step |
| GaugeBattery.Battery.LowPwrCheck | Rockchip/Android_System_Develop/20260302/rk817_battery.c:2443-2477 | under load below the power-off voltage for a minute the charger looks unplugged and the report loses a percent when 50 mV lower |
| GaugeBattery.Battery.DisplayStep | Rockchip/Android_System_Develop/20260302/rk817_battery.c:2945-3024 | the mode machine, with the reset after a resume without charger |
| GaugeBattery.Battery.BatteryWork | Rockchip/Android_System_Develop/20260302/rk817_battery.c:3052-3066 | one periodic run is the tick of the run theorems; on a drain the report does not rise |
| GaugeBattery.Battery.Run | Rockchip/Android_System_Develop/20260302/rk817_battery.c:3052-3066 | the object over any sequence of work, suspends, resumes and plug interrupts: its reports never rise on a drain, never fall on a charge, and stay in 0..100000 |
| GaugeBattery.Battery.Play | Rockchip/Android_System_Develop/20260302/rk817_battery.c:3052-3066 | the reports of the object over such a sequence are those of the run theorems |
| GaugeBattery.Battery.EstimateBelow | Rockchip/Android_System_Develop/20260302/rk817_battery.c:3471-3498 | the low estimate of what was lost, stopping at the last five percent |
| GaugeBattery.Battery.EstimateAbove | Rockchip/Android_System_Develop/20260302/rk817_battery.c:3504-3526 | the high estimate, not past the true charge |
| GaugeBattery.Battery.SleepDischrg | Rockchip/Android_System_Develop/20260302/rk817_battery.c:3448-3556 | the whole new state after the sleep accounting, and the percent it estimated |
| GaugeBattery.Battery.ResumeWork | Rockchip/Android_System_Develop/20260302/rk817_battery.c:3558-3605 | the whole new state after waking up; a report that was not negative does not rise |
| VisionPatches.RotPos | Sophgo/BM1688_CV186AH_Develop_Recorder/20260521/star-llm/pipeline.py:97-128 | the filled buffer is the concatenation over the grids of each grid repeated per frame, exactly full |
| VisionPatches.GridCoords | Sophgo/BM1688_CV186AH_Develop_Recorder/20260521/star-llm/pipeline.py:106-121 | the coordinates of one grid, repeated for its frames, are as many as its tokens |
| VisionPatches.EveryPatchOnce | Sophgo/BM1688_CV186AH_Develop_Recorder/20260521/star-llm/pipeline.py:104-116 | every patch of the raster has a token, and that token is the only one that names it |
| VisionPatches.BlockByBlock | Sophgo/BM1688_CV186AH_Develop_Recorder/20260521/star-llm/pipeline.py:104-116 | the patches of a merge block are consecutive, row by row, and so are the blocks: the exact token of each |
| VisionPatches.GridByGrid | Sophgo/BM1688_CV186AH_Develop_Recorder/20260521/star-llm/pipeline.py:103-125 | grids follow each other and so do the frames of a grid, each listing the same patches |
| VisionPatches.CoordInverse | Sophgo/BM1688_CV186AH_Develop_Recorder/20260521/star-llm/pipeline.py:104-116 | the token of the patch a position names is that position |
| VisionPatches.CoordInRaster | Sophgo/BM1688_CV186AH_Develop_Recorder/20260521/star-llm/pipeline.py:104-116 | every position names a patch of the raster |
| VisionInterp.OrdersAgree | Sophgo/BM1688_CV186AH_Develop_Recorder/20260521/star-llm/pipeline.py:166-172 | row k of the permuted tables belongs to the same (row, col) as rotary position k, though the two orders are coded independently |
| VisionInterp.LinSpaceEven | Sophgo/BM1688_CV186AH_Develop_Recorder/20260521/star-llm/pipeline.py:134-135 | the samples run in even steps from the first grid point to the last |
| VisionInterp.RowSamplesItsPatch | Sophgo/BM1688_CV186AH_Develop_Recorder/20260521/star-llm/pipeline.py:130-174 | the four weights are nonnegative and sum to 1, the indices lie in 0..2303, and the weighted corner rows, columns and products are exactly those of the sampled point, which times (h - 1) and (w - 1) is 47 times the row and the column of that patch, at the clipped edge too |
| VisionInterp.AxisSound | Sophgo/BM1688_CV186AH_Develop_Recorder/20260521/star-llm/pipeline.py:134-143 | the floor and clipped ceiling stay in the table and average back to the sample |
| RopeIndex.GetRopeIndex | Sophgo/BM1688_CV186AH_Develop_Recorder/20260521/star-llm/pipeline.py:201-261 | for every batch, well-formed or not, the positions are those of the row specification, failing exactly when it does |
| RopeIndex.GetRowIndex | Sophgo/BM1688_CV186AH_Develop_Recorder/20260521/star-llm/pipeline.py:206-260 | the loop over one row returns the specified positions or fails |
| RopeIndex.PlaceImage | Sophgo/BM1688_CV186AH_Develop_Recorder/20260521/star-llm/pipeline.py:213-252 | one image: the text up to its first pad and the grid after it |
| RopeIndex.IndexOf | Sophgo/BM1688_CV186AH_Develop_Recorder/20260521/star-llm/pipeline.py:214-217 | the first pad at or after a place, or a failure when there is none |
| RopeIndex.CountStarts | Sophgo/BM1688_CV186AH_Develop_Recorder/20260521/star-llm/pipeline.py:207-208 | the number of vision-start tokens |
| RopeIndex.OneTriplePerToken | Sophgo/BM1688_CV186AH_Develop_Recorder/20260521/star-llm/pipeline.py:201-261 | whatever the row, positions that are returned are one triple per token |
| RopeIndex.RowIsExpected | Sophgo/BM1688_CV186AH_Develop_Recorder/20260521/star-llm/pipeline.py:206-260 | on every well-formed row the positions are the text counted up one by one and each image spread over its grid |
| RopeIndex.RowPositionsSound | Sophgo/BM1688_CV186AH_Develop_Recorder/20260521/star-llm/pipeline.py:201-261 | there: text triples have three equal entries, strictly increase and exceed every earlier position; the largest position plus 1 is text tokens plus the longest sides of the grids, at most the token count |
| RopeIndex.TextTokenAt | Sophgo/BM1688_CV186AH_Develop_Recorder/20260521/star-llm/pipeline.py:235-238 | the position of every text token before an image: three equal entries, counting on from what the segments before use up |
| RopeIndex.PadTokenAt | Sophgo/BM1688_CV186AH_Develop_Recorder/20260521/star-llm/pipeline.py:240-252 | the position of every pad token: frame, row and column past the text before its image, the column varying fastest |
| RopeIndex.TailTokenAt | Sophgo/BM1688_CV186AH_Develop_Recorder/20260521/star-llm/pipeline.py:254-257 | the position of every token after the last image |
| RopeIndex.VisionEntryAt | Sophgo/BM1688_CV186AH_Develop_Recorder/20260521/star-llm/pipeline.py:240-251 | entry (a * h + b) * w + d of an image block is (start + a, start + b, start + d) |
| RopeIndex.GridOfImage | Sophgo/BM1688_CV186AH_Develop_Recorder/20260521/star-llm/pipeline.py:218-225 | an image uses its own grid; a video frame the size of the first |
| RopeIndex.RowOfBatch | Sophgo/BM1688_CV186AH_Develop_Recorder/20260521/star-llm/pipeline.py:205-226 | images are numbered through the rows of a batch, and each row gets its own positions |
| RopeIndex.VisionMax | Sophgo/BM1688_CV186AH_Develop_Recorder/20260521/star-llm/pipeline.py:240-251 | an image block reaches exactly as far as the longest side of its merged grid |
| Framebuffer.FrameBuffer.Flush | Sophgo/BM1688_CV186AH_Develop_Recorder/20260627/tools/gc9a01_lvgl_demo/gc9a01_lvgl_demo.c:101-125 | for any area, off-screen parts included, and any stride wide enough: every byte of the framebuffer is that of its source element if its pixel is in the area and on screen, and as before otherwise |
| Framebuffer.FrameBuffer.FlushRow | Sophgo/BM1688_CV186AH_Develop_Recorder/20260627/tools/gc9a01_lvgl_demo/gc9a01_lvgl_demo.c:108-124 | one row, clipped, uses up one source element per pixel passed over |
| Framebuffer.FrameBuffer.PutPixel | Sophgo/BM1688_CV186AH_Develop_Recorder/20260627/tools/gc9a01_lvgl_demo/gc9a01_lvgl_demo.c:112-121 | the bytes of one pixel change, to its colour, and no others |
| Framebuffer.FrameBuffer.PixelReadsBack | Sophgo/BM1688_CV186AH_Develop_Recorder/20260627/tools/gc9a01_lvgl_demo/gc9a01_lvgl_demo.c:101-125 | reading an on-screen pixel of the area back at its address gives the bytes of source element (y - y1) * width + (x - x1) |
| Framebuffer.PlaceIff | Sophgo/BM1688_CV186AH_Develop_Recorder/20260627/tools/gc9a01_lvgl_demo/gc9a01_lvgl_demo.c:114-120 | the address computed for a pixel is the place of its bytes, and of no other pixel |
| Framebuffer.ColourRoundTrip | Sophgo/BM1688_CV186AH_Develop_Recorder/20260627/tools/gc9a01_lvgl_demo/gc9a01_lvgl_demo.c:39-46 | the conversion to 32 bits per pixel can be undone, so distinct colours stay distinct |
| Framebuffer.BytesAreValue | Sophgo/BM1688_CV186AH_Develop_Recorder/20260627/tools/gc9a01_lvgl_demo/gc9a01_lvgl_demo.c:118-121 | the bytes stored for a pixel, least significant first, are its 16-bit or converted 32-bit value |
| Framebuffer.ChannelsInPlace | Sophgo/BM1688_CV186AH_Develop_Recorder/20260627/tools/gc9a01_lvgl_demo/gc9a01_lvgl_demo.c:39-46 | red, green and blue keep their places, each in the top bits of its byte |
| PowerKey.TogglesAndLevels | Puya/Py32f002B/py32f002bxx_clawstar.c:24-131 | in every interleaving of edges and polls the toggles never exceed the edge interrupts, and the outputs always show the two states |
| PowerKey.LongPressIsHeld | Puya/Py32f002B/py32f002bxx_clawstar.c:78-97 | a toggle of the system power follows a poll at least 1500 ms of true time earlier since which every poll saw the key pressed, with the 32-bit tick wrapping |
| PowerKey.LongPressIff | Puya/Py32f002B/py32f002bxx_clawstar.c:78-97 | a poll in the pressed state toggles exactly when the key is down and the hold has lasted 1500 ms, for holds below 2^32 ms |
| PowerKey.DebounceIff | Puya/Py32f002B/py32f002bxx_clawstar.c:42-76 | a press is noticed by a poll after an edge and believed or dropped by the first poll at least 5 ms later |
| PowerKey.ShortToggleIff | Puya/Py32f002B/py32f002bxx_clawstar.c:98-111 | the backlight toggles if and only if a poll sees the key released before the hold counted as long |
| PowerKey.ShortPressToggles | Puya/Py32f002B/py32f002bxx_clawstar.c:78-111 | a press released within 1500 ms toggles the backlight once and the power not at all |
| PowerKey.LongPressToggles | Puya/Py32f002B/py32f002bxx_clawstar.c:78-97 | a press still held from 1500 ms on toggles the power once and the backlight not at all |
| PowerKey.OncePerHold | Puya/Py32f002B/py32f002bxx_clawstar.c:114-125 | between two toggles of the system power some poll saw the key released |
| PowerKey.PressedSince | Puya/Py32f002B/py32f002bxx_clawstar.c:58-76 | while the key counts as pressed, one poll started the count and every later one saw it pressed |
| PowerKey.EdgesCoalesce | Puya/Py32f002B/py32f002bxx_clawstar.c:24-56 | however many edges come between two polls the poll sees one, taken when idle and left pending otherwise |
| PowerKey.WrappedElapsed | Puya/Py32f002B/py32f002bxx_clawstar.c:62-62 | the wrapped tick difference never overstates the time passed, and is exact below 2^32 ms |
| PowerKey.Key.KeyTask | Puya/Py32f002B/py32f002bxx_clawstar.c:32-131 | the whole new state after a poll |

## Left out
- AiosDriver.AiosPort.Write: a receive callback is atomic; what the transport delivers while the driver waits is a sequence of chunks between two steps of the driver, and the wait itself is left to the outcome of those chunks.
- AiosDriver.AiosPort.SetValue: says what the cache replays, not that it is the newest state of the device; direction_output and direction_input do not refresh the direction cache.
- AIOS get_value, direction and configuration requests, initialisation and the June driver's write with timeout: callers of the modelled write, with no state of their own.
- Ch343Pool.SubmittedInOrder: the shutdown of kernels before 3.16, which leaves the delayed list alone, is not modelled.
- Ch343Pool.PoolNeverLosesTrack: does not claim that an accepted write reaches the wire; suspend drops the lock before it drains the delayed list. Taking one write off that list and freeing its buffer are one step.
- Ch343Port.PortObject.TtyWrite: reports that there is no room; the wait for some and the retry are a new call.
- CH343 synchronous PM references, read and control transfers, the fixed divisor of the /200 rates and the clock negotiation with the chip: not part of the pool or the search.
- GaugeBattery.Battery.BatteryWork: gauge intermediates are unbounded integers, as overflow of a C int has no meaning; the 16-bit and unsigned 32-bit steps that have one are modelled. Register and clock readings are inputs, with one clock reading per call.
- GaugeRuns.DrainNeverRises: takes the full charge capacity to be at least 500 mAh, which the driver enforces when it reads it back.
- GaugeRuns.TickDropBounded: not claimed within 20 mV of the power-off voltage, where the extreme-low rule may report empty at once.
- GaugeBattery.Battery.CalcZeroLinek: drops the logged quotient of line 2619, which divides by a current that may be 0, and the stray identifier of line 2546.
- RK817 age estimation, wake locks, charger notifications, first power-on, saved data and register access.
- VisionInterp.RowSamplesItsPatch: real numbers instead of rounded floats, and one frame, the only count the pipeline passes.
- VisionPatches.RotPos: grid sides are multiples of the merge size, as the reshape of the tables needs; tensors are sequences.
- RopeIndex.GetRopeIndex: rows are processed as lists; the padding of the tensor to one width is left out.
- Framebuffer.FrameBuffer.Flush: the mapping, the ready call and the rest of the demo; 16 and 32 bits per pixel are the depths it opens.
- PowerKey.Key.KeyTask: an interrupt between the check of the flag and its clearing counts as before the poll.
- The PCIe and GC9A01 drivers, the June copy of ch343.c, the servers, scripts and patches of the repository.
