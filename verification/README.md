# A verified model of the network interconnect tester

The tester sends Ethernet frames from a traffic generator and receives them with a traffic
analyzer; both read one real-time clock, so that every test frame carries the time at which it
was sent and the analyzer can measure its latency. Between them there may be a device under
test, for which the repository has a filter that drops frames that follow each other too
closely. Programs in C set up the generator and read out the analyzer over AXI4-Lite.

This project models that path in Dafny, one clock edge at a time, and proves what it does over
whole runs. Every core is a class whose `Step` method assigns its registers as the clocked
processes do; its contract gives the new registers as a function of the old ones, and the
theorems are about that function. The programs are methods with the loops of the C code.

| file | contents |
|---|---|
| Octets, Arithmetic | octets, bits, big-endian numbers; remainders |
| EthernetCrc8, SerialCrc, FrameCheck, CrcVector | the CRC circuit, serial division, polynomial division, error detection, a test vector |
| Gmii | the line: preambles, frames, cycles |
| CrcCheck, ShortFrames, TestframeParser, BramIo, TrafficAnalyzer | the cores of the receiver |
| Receiver, ReceiverRuns, OneFrame, LateStart, LastError, Conservation, FreezeCapture, LatencyExtremes | the receiver over whole runs |
| TrafficGenerator, GeneratorStream, GeneratorRuns, GeneratorControl, DynamicFrames, StreamSlots | the generator and the stream it sends |
| FilterGmii, FilteredStream | the filter, and which frames of the generator it lets through |
| RtClock, PpsClock, PpsStart, PpsCorrection, PpsLoop | the clock, on its own and following a pulse per second |
| TesterLoop, TesterRuns, TesterStart, ArrivalLog, Testframes, EndToEnd | the wired tester and what it shows |
| Hexstr, AxiWrite, Upload, UploadOnLine, CommandLine | the generator program and the register front end it writes to |
| AxiRead, ReadOut, Measurement, LiveReadOut, TornReadOut | the analyzer program and the register front end it reads from |

`dafny verify dfyconfig.toml` checks all of it.

## Method

Each machine is proved against a reference that is not written as a state machine. The CRC
circuit has polynomial long division. The receiver has a log of the line, which cuts the cycles
into frames and notes when each began; what the registers have to show is a fold over the
frames. The generator has slots: frame k and gap k as sequences. The filter has a predicate on
cycles, the stream that arrives has a rule for which frames are kept, the clock has elapsed
nanoseconds, and a bus has the list of the transactions.
An invariant ties the registers to the reference, one lemma shows that every step keeps it, and
one induction carries it through every run. `EndToEnd` composes generator, clock, filter and
receiver; `CommandLine` and `Measurement` join the programs to both ends.

At both ends the statements are in plain terms: which octet is on the line in which cycle
(`DynamicFrames`, `UploadOnLine`), which register is at which address (`AxiWrite`, `AxiRead`),
which input the clock follows (`PpsStart`), and what each value is that the program prints
(`ReadOut`, `Measurement`).

## Where the code does less than it promises

Each of these is proved with its exact condition.

- With the defaults of filter and generator program every second test frame is lost, and every
  number but the first is a sequence error: the filter wants a gap of 13 and gets 12
  (`EndToEnd.DefaultsLoseHalf`). All frames arrive if and only if the gap registers that are
  used are long enough for the filter (`EndToEnd.AllFramesArrive`).
- A clock that is corrected for pulses exactly n cycles apart, within 60 microseconds of a
  second, counts every other pulse twice, so that it is a second ahead and stands at nanosecond
  0 for every other second. Pulses exactly a second apart, with the nominal delta, are such an
  input. Pulse and rollover meet because the correction makes them
  (`PpsLoop.EveryOtherPulseCountsTwice`). In any run, the pulses counted twice are those that
  collide with the rollover after one counted once (`PpsLoop.PulsesCountTwice`), and the
  distances that collide are those of two consecutive cycles (`PpsLoop.TwoCyclesCollide`): a
  pulse that comes a cycle later escapes (`PpsLoop.NominalCollides`).
- The program reads the statistics as soon as it has frozen them. What it reads need not be of
  one state: a frame that was in flight is still published when it ends, and the latency of a
  frame that ended in the cycle of the freeze is published a cycle later
  (`TornReadOut.FreezeBeforeLatency`). Without these two it is, in every run
  (`TornReadOut.ReadOutIsOfOneState`). Packets without the last frame and octets with it are
  such a read-out (`TornReadOut.ProgramTearsCounters`).
- A frame with fewer than four octets after its preamble is judged with octets of the frames
  before it, because the histories of the checker are not cleared. Each such frame is accepted
  after some frame and rejected after another (`ShortFrames.ShortFrameIsUndecided`; exactly
  when, `ShortFrames.ShortFrameCompletesLast`).
- A gap register of 3 makes the next frame begin with a stale word; below 3 the gap lasts more
  than four thousand million cycles (`GeneratorRuns.FrameBeginsWithBuffer`,
  `GeneratorRuns.GapIsRegister`; in terms of the command line, `Upload.GapIsAsRequested`).
- The analyzer expects 32-bit sequence numbers and the generator sends 64 bits: every test
  frame from number 2^32 on is a sequence error (`Testframes.NumbersInOrder`).
- Frame sizes have 32 bits, so longer frames are not fully counted
  (`Conservation.NothingIsDropped`).
- A pulse that arrives while the local clock is at its rollover makes the clock show the next
  second, with nanosecond 0, until the following pulse (`PpsClock.PulseAtRollover`).
- A rollover that was counted before the pulses are enabled stays pending, and the clock is one
  second late from then on (`PpsClock.SecondsAfterEnabling`).
- At a rollover without a pulse the clock shows 10^9 ns or more for one cycle
  (`PpsClock.RolloverShowsBillion`).
- A filter register below 9 makes the least gap wrap (`FilterGmii.LeastGap`).
- Dynamic frames with a template of at most eight octets end with four octets 0xFF, because the
  CRC circuit is started by octet 8 (`GeneratorRuns.SendsFrames`), and templates of one octet
  are not sent at all (`GeneratorRuns.OneOctetIsNotSent`).

## Model

| member | source | states |
|---|---|---|
| EndToEnd.TesterShowsKeptFrames | systems/simulation/tester_loop.v:142-294 | generator and analyzer on one clock, directly or through the filter with any register: once n frames have been sent from a test template, all beginning afresh, those have arrived that begin at least the least gap after the last one let through; the analyzer shows that many packets and test frames, that many times (frame size + 14) octets, no bad ones, as many sequence errors as there are unexpected numbers among them, and last = min = max latency, live and published, equal to one clock period direct and three through the filter |
| EndToEnd.AllFramesArrive | lib/hw/lsi/cores/filter_gmii/hdl/filter_gmii.v:111-131 | below 2^64 frames, the analyzer shows as many packets as were sent if and only if the line is direct or every gap register in use is long enough for the filter: that between frames, unless every burst is one frame, and that between bursts, if there is a second one |
| EndToEnd.TesterIsExact | systems/simulation/tester_loop.v:142-294 | on a direct line, and when every gap between two of the first n frames is at least the least gap of the filter, all n arrive, and exactly the numbers of more than 32 bits are sequence errors |
| EndToEnd.TesterLosesHalf | lib/hw/lsi/cores/filter_gmii/hdl/filter_gmii.v:111-131 | when the gap is below the least gap, but two gaps and a frame are not, every second frame is lost and every number but the first is a sequence error |
| EndToEnd.DefaultsLoseHalf | lib/hw/lsi/cores/filter_gmii/hdl/filter_gmii_cpu_regs_defines.v:13 | with the default of the filter, 21, and the gap that the generator program writes by default, 12, that is so for every frame size |
| Measurement.StatisticsOfMeasurement | lib/sw/lsi/cores/traffic-analyzer-gmii/traffic-analyzer-gmii.c:126-174 | end of the chain: what the program reads after n test frames is as many packets and test frames as have arrived, their octets, zeros for all bad ones, the sequence errors, and one latency as last, least and greatest: one clock period direct, three through the filter |
| Measurement.ErrorOfMeasurement | lib/hw/lsi/cores/traffic_analyzer_gmii/hdl/traffic_analyzer_gmii.v:349-362 | the last sequence error in its registers: the last frame that arrived with a number other than expected, the number that was expected, the time at which it arrived |
| Measurement.LossIsNamed | lib/hw/lsi/cores/traffic_analyzer_gmii/hdl/traffic_analyzer_gmii.v:349-362 | when every second frame is lost, received is the number k of the last frame that arrived, expected is k - 1, and the time is that of the first octet of frame k, three cycles later |
| Measurement.LastFrameOfMeasurement | lib/sw/lsi/cores/traffic-analyzer-gmii/traffic-analyzer-gmii.c:170-174 | frame size and arrival time that the program reads are those of the last frame that has arrived |
| Measurement.CyclesOfMeasurement | lib/sw/lsi/cores/traffic-analyzer-gmii/traffic-analyzer-gmii.c:132-150 | the cycles that the program reads are all before the last, and the idle ones are those in which no octet of an arriving frame was on the line |
| Measurement.ReadAfterStart | lib/hw/lsi/cores/traffic_analyzer_gmii/hdl/traffic_analyzer_gmii.v:267-313 | before the first frame the program reads zeros, the greatest possible minimum latency, and 2 ns as the last |
| EndToEnd.RefetchingBeginsAfresh | lib/hw/lsi/cores/traffic_generator_gmii/hdl/traffic_generator_gmii.v:206-226 | unless a gap register that is used holds 3, every frame begins with the template, whatever the buffer holds |
| EndToEnd.AnalyzerShowsArrivals | systems/simulation/tester_loop.v:142-294 | in every cycle of every run of the tester in which the clock is not set by pulses, all analyzer registers are those that the log of the arriving stream implies |
| ArrivalLog.LogOfSlots | systems/simulation/tester_loop.v:142-294 | what has arrived when n frames have been sent, cut into frames, is exactly the frames that were kept, in order, each with the clock value of the cycle in which it arrived |
| FilteredStream.ForwardedIsKept | lib/hw/lsi/cores/filter_gmii/hdl/filter_gmii.v:111-131 | a cycle of the generator is forwarded if and only if it belongs to a frame that is kept: the first, or one that begins at least the least gap after the end of the last one kept |
| FilteredStream.AllKeptWhen | lib/hw/lsi/cores/filter_gmii/hdl/filter_gmii.v:116-130 | of n frames all are kept if and only if each of the n - 1 gaps between them is at least the least gap |
| FilteredStream.GapsAreLong | lib/hw/lsi/cores/traffic_generator_gmii/hdl/traffic_generator_gmii.v:206-217 | those gaps are long enough if and only if the gap registers that are used between n frames are |
| FilteredStream.EvenFramesAreKept | lib/hw/lsi/cores/filter_gmii/hdl/filter_gmii.v:116-130 | with a gap that is too short, but twice of it and a frame long enough, exactly the frames with even numbers are kept |
| EndToEnd.DelayIsConstant | lib/hw/lsi/cores/traffic_analyzer_gmii/hdl/traffic_analyzer_gmii.v:477-495 | the latency computed for every frame that arrives is the constant transit time, whichever frames do, also for frames in flight when the second rolls over |
| EndToEnd.TallyOfTestframes | lib/hw/lsi/cores/traffic_analyzer_gmii/hdl/traffic_analyzer_gmii.v:331-391 | the statistics after generator frames with any numbers, whatever was received before the start |
| TesterStart.TesterStarts | systems/simulation/tester_loop.v:142-294 | after a reset at any time, enough cycles with generator and analyzer stopped for the filter to settle, and one with both started, the tester is in the start state, whatever was in the registers of clock, generator and analyzer and on the line (the filter has no reset: it is in a state that it can get into from its initial one) |
| TesterRuns.ArrivingLine | systems/simulation/tester_loop.v:175-294 | what the analyzer receives is the stream of the generator, one cycle later on a direct line, and three through the filter with the frames blanked that are not kept |
| StreamSlots.StreamIsWellSpaced | lib/hw/lsi/cores/filter_gmii/hdl/filter_gmii.v:116-130 | when every gap of the generator is at least the least gap of the filter, every frame comes late enough to be forwarded |
| TesterRuns.ClockTicks | lib/hw/lsi/cores/rtclock/hdl/rtclock.v:157-170 | during a run the clock shows the elapsed time, exactly |
| TesterLoop.TesterDevice.StepSender | systems/simulation/tester_loop.v:142-205 | one clock edge of clock, generator and filter: each computes its step from the registers of the others before the edge |
| TesterLoop.TesterDevice.Step | systems/simulation/tester_loop.v:142-294 | one clock edge of the wired cores equals the step of the whole on the old registers |
| Testframes.FrameIsTestframe | lib/hw/lsi/cores/traffic_generator_gmii/hdl/traffic_generator_gmii.v:235-367 | every frame sent from a test template has a good preamble and a valid frame check sequence, is marked as a test frame, and carries its number and its time |
| Testframes.TestframesAreGood | lib/hw/lsi/cores/traffic_analyzer_gmii/hdl/traffic_analyzer_gmii.v:331-391 | n generator frames are n good frames of frame size + 14 octets and none of any other kind |
| Testframes.ErrorsAreInterruptions | lib/hw/lsi/cores/traffic_analyzer_gmii/hdl/traffic_analyzer_gmii.v:349-362 | whichever frames arrive, the sequence errors counted are those whose 64-bit number is not the 32-bit number after the last one that arrived |
| Testframes.UnexpectedAfterLoss | lib/hw/lsi/cores/traffic_analyzer_gmii/hdl/traffic_analyzer_gmii.v:349-362 | for numbers below 2^64 that is so if and only if the frame before is lost or the number has more than 32 bits |
| Testframes.NumbersInOrder | lib/hw/lsi/cores/traffic_analyzer_gmii/hdl/traffic_analyzer_gmii.v:349-362 | when nothing is lost, exactly the numbers of more than 32 bits are errors, for any number of frames |
| Testframes.NumbersApart | lib/hw/lsi/cores/traffic_analyzer_gmii/hdl/traffic_analyzer_gmii.v:349-362 | when every second frame is lost, every number but the first is an error |
| Testframes.LatenciesAreEqual | lib/hw/lsi/cores/traffic_analyzer_gmii/hdl/traffic_analyzer_gmii.v:497-538 | when all test frames take the same time, that time is the last, the least and the greatest latency, live and published |
| TrafficGenerator.GeneratorDevice.Step | lib/hw/lsi/cores/traffic_generator_gmii/hdl/traffic_generator_gmii.v:171-376 | one clock edge of the generator with its CRC circuit and frame buffer: the next state is that of the specification |
| TrafficGenerator.GeneratorDevice.StepIdle | lib/hw/lsi/cores/traffic_generator_gmii/hdl/traffic_generator_gmii.v:197-234 | state 0: idle line, loading of the counters, the choice of the gap, the start of a frame unless all are sent, clearing of the counters when stopped |
| TrafficGenerator.GeneratorDevice.StepTemplate | lib/hw/lsi/cores/traffic_generator_gmii/hdl/traffic_generator_gmii.v:235-299 | state 1: octet pipeline, word fetch every fourth octet, sampling of the clock, enabling of the CRC |
| TrafficGenerator.GeneratorDevice.StepGap | lib/hw/lsi/cores/traffic_generator_gmii/hdl/traffic_generator_gmii.v:301-321 | state 2: the gap counter and the frame counter |
| TrafficGenerator.GeneratorDevice.StepFields | lib/hw/lsi/cores/traffic_generator_gmii/hdl/traffic_generator_gmii.v:323-347 | states 3 and 4: sequence number and timestamp, most significant octet first |
| TrafficGenerator.GeneratorDevice.StepEnd | lib/hw/lsi/cores/traffic_generator_gmii/hdl/traffic_generator_gmii.v:349-372 | states 5 and 6: the frame check sequence, or the last octet of a static frame |
| TrafficGenerator.GeneratorDevice.Reset | lib/hw/lsi/cores/traffic_generator_gmii/hdl/traffic_generator_gmii.v:176-192 | what a reset changes and what it leaves |
| GeneratorRuns.FramesAndGaps | lib/hw/lsi/cores/traffic_generator_gmii/hdl/traffic_generator_gmii.v:197-372 | the output is exactly two idle cycles, frame 0, gap 0, frame 1, gap 1, ...: frame k octet by octet, then exactly Gap(c, k) idle cycles, then frame k + 1 |
| GeneratorRuns.SendsFrames | lib/hw/lsi/cores/traffic_generator_gmii/hdl/traffic_generator_gmii.v:197-372 | in cycle p of slot k the line carries octet p - 2 of frame k, or is idle; in dynamic mode the frame is the buffer, the 64-bit number, the 10-octet time and the frame check sequence of everything after octet 7, or 0xFF four times when the buffer part has at most eight octets |
| GeneratorRuns.SendsNoMore | lib/hw/lsi/cores/traffic_generator_gmii/hdl/traffic_generator_gmii.v:223-227 | after the configured number of frames the line stays idle |
| GeneratorRuns.SendsExactlyTotalFrames | lib/hw/lsi/cores/traffic_generator_gmii/hdl/traffic_generator_gmii.v:223-227 | cut into frames, the line carries exactly the configured number of frames, however long the run |
| GeneratorRuns.CycleOfSlot | lib/hw/lsi/cores/traffic_generator_gmii/hdl/traffic_generator_gmii.v:197-372 | every cycle of every slot moves the state machine, its counters, the fetch pipeline and the CRC circuit to their place in the next cycle |
| GeneratorRuns.GapIsRegister | lib/hw/lsi/cores/traffic_generator_gmii/hdl/traffic_generator_gmii.v:206-217 | a gap is as long as its register says if and only if the register holds at least 3 |
| GeneratorRuns.FrameBeginsWithBuffer | lib/hw/lsi/cores/traffic_generator_gmii/hdl/traffic_generator_gmii.v:225-226 | every frame begins with the first word of the buffer, whatever it holds, if and only if the gap before is not 3 (or the read address had wrapped to 0) |
| GeneratorRuns.ResetStops | lib/hw/lsi/cores/traffic_generator_gmii/hdl/traffic_generator_gmii.v:176-192 | a reset with the run bit low stops the generator, whatever it was doing, and clears its packet counter |
| GeneratorRuns.StoppedUntilStarted | lib/hw/lsi/cores/traffic_generator_gmii/hdl/traffic_generator_gmii.v:229-233 | a stopped generator stays so until the run bit is set, and then begins with frame 0 |
| GeneratorRuns.FinishedStops | lib/hw/lsi/cores/traffic_generator_gmii/hdl/traffic_generator_gmii.v:223-233 | after the last frame it can be stopped, and started again, without a reset |
| GeneratorRuns.OneOctetIsNotSent | lib/hw/lsi/cores/traffic_generator_gmii/hdl/traffic_generator_gmii.v:235-299 | with a frame size of 1, which the stream excludes, a static frame is never on the line and a dynamic one only in state 5: the last octet of the time and 0xFF four times |
| GeneratorControl.FrameIsFinished | lib/hw/lsi/cores/traffic_generator_gmii/hdl/traffic_generator_gmii.v:197-372 | whatever is written to the run bit while a frame and its gap are sent, the line carries that frame whole, octet by octet, and then its gap |
| GeneratorControl.StopsAfterFrame | lib/hw/lsi/cores/traffic_generator_gmii/hdl/traffic_generator_gmii.v:229-233 | and when the bit is clear at the end of the gap the generator stops there |
| GeneratorControl.PacketsAreCounted | lib/hw/lsi/cores/traffic_generator_gmii/hdl/traffic_generator_gmii.v:197-372 | in every cycle the packet counter is its value before the start and the number of templates sent since, modulo 2^64 |
| DynamicFrames.NumberOnLine | lib/hw/lsi/cores/traffic_generator_gmii/hdl/traffic_generator_gmii.v:323-335 | octet i of the eight after the template of frame k is, on the line, k / 256^(7 - i) modulo 256 |
| DynamicFrames.SecondsOnLine | lib/hw/lsi/cores/traffic_generator_gmii/hdl/traffic_generator_gmii.v:265-271 | the next six are the seconds that the clock shows when the frame begins, most significant octet first |
| DynamicFrames.NanosecondsOnLine | lib/hw/lsi/cores/traffic_generator_gmii/hdl/traffic_generator_gmii.v:272-275 | and the next four its nanoseconds |
| GeneratorStream.StepInTemplate | lib/hw/lsi/cores/traffic_generator_gmii/hdl/traffic_generator_gmii.v:235-299 | octet j of the template goes through the pipeline while octet j + 1 is fetched and the CRC takes in octet j - 1 |
| GeneratorStream.StepInFields | lib/hw/lsi/cores/traffic_generator_gmii/hdl/traffic_generator_gmii.v:323-347 | the octets of the number and of the time, with the CRC running |
| GeneratorStream.StepToFcs | lib/hw/lsi/cores/traffic_generator_gmii/hdl/traffic_generator_gmii.v:349-363 | the CRC circuit takes in the last octet of the time and then holds the frame check sequence |
| GeneratorStream.StepInFcs | lib/hw/lsi/cores/traffic_generator_gmii/hdl/traffic_generator_gmii.v:349-367 | the four octets of the frame check sequence are shifted out in transmit order |
| GeneratorStream.StepInGap | lib/hw/lsi/cores/traffic_generator_gmii/hdl/traffic_generator_gmii.v:301-321 | the gap, at the end of which the next frame is ready to start or the stream is over |
| EthernetCrc8.Crc8.Step | lib/hw/lsi/cores/common/hdl/ethernet_crc_8.v:37-60 | one clock edge of the circuit: load with ones, take in an octet, shift, or hold |
| SerialCrc.ParallelIsSerial | lib/hw/lsi/cores/common/hdl/ethernet_crc_8.v:66-97 | for every register and every octet, the 32 XOR equations equal eight serial steps of division by 0x04C11DB7, least significant bit first |
| FrameCheck.CrcIsSerial | lib/hw/lsi/cores/common/hdl/ethernet_crc_8.v:66-97 | for every message, folding the equations over its octets is the serial division of its bit stream |
| FrameCheck.CircuitDividesPolynomial | lib/hw/lsi/cores/common/hdl/ethernet_crc_8.v:37-97 | for every message, the register is the remainder of polynomial long division, the first 32 bits complemented, as section 3.2.9 of IEEE 802.3 defines the frame check sequence |
| CrcVector.FcsOfZero | lib/hw/lsi/cores/common/hdl/ethernet_crc_8.v:37-97 | a test vector: the frame check sequence of a single octet 0 goes out as 8D EF 02 D2 |
| Octets.BitsOf | lib/hw/lsi/cores/common/hdl/ethernet_crc_8.v:62-97 | bit i of an octet counts 2^i |
| FrameCheck.ShiftOutFcs | lib/hw/lsi/cores/common/hdl/ethernet_crc_8.v:55-59 | the four octets of the frame check sequence come out complemented, bit-reversed and in transmit order, and a fourth shift leaves the register all ones, whatever is on the input |
| FrameCheck.OwnFcsLeavesResidue | lib/hw/lsi/cores/common/hdl/ethernet_crc_8.v:66-97 | feeding a register its own frame check sequence always leaves the same residue |
| FrameCheck.FcsValidIffResidue | lib/hw/lsi/cores/common/hdl/ethernet_crc_8.v:66-97 | a message ends with its frame check sequence if and only if its register is the residue |
| FrameCheck.SerialRunInjectiveInState | lib/hw/lsi/cores/common/hdl/ethernet_crc_8.v:66-97 | different registers stay different under the same input |
| FrameCheck.SerialRunInjectiveInMessage | lib/hw/lsi/cores/common/hdl/ethernet_crc_8.v:66-97 | from one register, different inputs of up to 32 bits leave different registers |
| FrameCheck.FourOctetsDetermined | lib/hw/lsi/cores/common/hdl/ethernet_crc_8.v:66-97 | from one register, different groups of four octets leave different registers |
| FrameCheck.BitBurstIsDetected | lib/hw/lsi/cores/common/hdl/ethernet_crc_8.v:66-97 | a valid message changed only within 32 consecutive bits of its bit stream, anywhere, is never valid |
| FrameCheck.BurstIsDetected | lib/hw/lsi/cores/common/hdl/ethernet_crc_8.v:66-97 | in particular one changed only within four consecutive octets |
| CrcCheck.Checker.Step | lib/hw/lsi/cores/traffic_analyzer_gmii/hdl/ethernet_crc_8_check.v:37-126 | one clock edge of the checker and its CRC circuit |
| CrcCheck.Checker.StepIdle | lib/hw/lsi/cores/traffic_analyzer_gmii/hdl/ethernet_crc_8_check.v:47-65 | state 0 |
| CrcCheck.Checker.StepPreamble | lib/hw/lsi/cores/traffic_analyzer_gmii/hdl/ethernet_crc_8_check.v:66-87 | state 1, the preamble recogniser |
| CrcCheck.Checker.StepData | lib/hw/lsi/cores/traffic_analyzer_gmii/hdl/ethernet_crc_8_check.v:88-118 | state 2, the histories and the verdict |
| CrcCheck.CheckStepInv | lib/hw/lsi/cores/traffic_analyzer_gmii/hdl/ethernet_crc_8_check.v:44-125 | every step keeps the relation between the registers and the frames on the line |
| CrcCheck.CheckerDecides | lib/hw/lsi/cores/traffic_analyzer_gmii/hdl/ethernet_crc_8_check.v:88-117 | whatever came before and however short the gap: in the cycle after a frame the verdict is exact - the preamble was good, and, with four or more octets after it, the last four are the frame check sequence of the others; for shorter frames, exactly what it depends on instead |
| CrcCheck.CheckerIsSilentOtherwise | lib/hw/lsi/cores/traffic_analyzer_gmii/hdl/ethernet_crc_8_check.v:47-49 | the verdict is given in no cycle but the one right after a frame |
| CrcCheck.AlteredFrameIsRejected | lib/hw/lsi/cores/traffic_analyzer_gmii/hdl/ethernet_crc_8_check.v:88-117 | a frame that differs from an accepted one with four or more data octets only within 32 consecutive bits after the start frame delimiter is never accepted, by any checker in any reachable state |
| CrcCheck.VerdictIsFcsValid | lib/hw/lsi/cores/traffic_analyzer_gmii/hdl/ethernet_crc_8_check.v:94-117 | with four or more data octets the histories compare this frame with its own frame check sequence |
| CrcCheck.VerdictIsStale | lib/hw/lsi/cores/traffic_analyzer_gmii/hdl/ethernet_crc_8_check.v:94-117 | with fewer, they compare octets left over from the frames before |
| ShortFrames.ShortFrameCompletesLast | lib/hw/lsi/cores/traffic_analyzer_gmii/hdl/ethernet_crc_8_check.v:88-117 | after a frame with data q and r, a frame with fewer than four data octets is accepted if and only if r and its data together are the frame check sequence of q, however long the gap |
| ShortFrames.ShortFrameIsUndecided | lib/hw/lsi/cores/traffic_analyzer_gmii/hdl/ethernet_crc_8_check.v:88-117 | for every frame with fewer than four data octets there is a frame after which it is accepted and one after which it is not, in every reachable state |
| ShortFrames.EveryFcsOccurs | lib/hw/lsi/cores/common/hdl/ethernet_crc_8.v:66-97 | any four octets are the frame check sequence of some message of four octets |
| CrcCheck.IdleEstablishesInv | lib/hw/lsi/cores/traffic_analyzer_gmii/hdl/ethernet_crc_8_check.v:47-65 | two idle cycles bring any power-up contents into the relation |
| CrcCheck.ResetEstablishesInv | lib/hw/lsi/cores/traffic_analyzer_gmii/hdl/ethernet_crc_8_check.v:37-43 | so do a reset and one idle cycle |
| Gmii.RecognisedStep | lib/hw/lsi/cores/traffic_analyzer_gmii/hdl/ethernet_crc_8_check.v:66-87 | the octet-by-octet recogniser computes whether the octets so far begin with 0x55 six or seven times and 0xD5 |
| TestframeParser.Parser.ShiftHistory | lib/hw/lsi/cores/traffic_analyzer_gmii/hdl/testframe_parser.v:113-116 | the loop shifts the array of 22 octets in place |
| TestframeParser.Parser.Step | lib/hw/lsi/cores/traffic_analyzer_gmii/hdl/testframe_parser.v:34-130 | one clock edge of the parser |
| TestframeParser.ParseStepInv | lib/hw/lsi/cores/traffic_analyzer_gmii/hdl/testframe_parser.v:46-130 | every step keeps the relation between the registers and the frames on the line |
| TestframeParser.ParserDecides | lib/hw/lsi/cores/traffic_analyzer_gmii/hdl/testframe_parser.v:86-121 | in the cycle after a frame the parser reports whether 00 07 was at octets 36 and 37 after the preamble (counted modulo 8192), and the number and the time in its last 22 octets |
| DynamicFrames.FieldsAreRead | lib/hw/lsi/cores/traffic_analyzer_gmii/hdl/testframe_parser.v:88-107 | the number and the two parts of the time that it reports have octets 22 to 15, 14 to 9 and 8 to 5 before the end of the frame as their digits to base 256, most significant first |
| Gmii.DataFollowsPreamble | lib/hw/lsi/cores/traffic_analyzer_gmii/hdl/testframe_parser.v:66-87 | a preamble is six or seven octets 0x55 and one 0xD5; what follows is data, and without one there is none |
| TrafficAnalyzer.Analyzer.AccountFrame | lib/hw/lsi/cores/traffic_analyzer_gmii/hdl/traffic_analyzer_gmii.v:326-412 | accounting for a frame: one of three kinds, the sequence check, and the published copies unless frozen |
| TrafficAnalyzer.Analyzer.StepIdle | lib/hw/lsi/cores/traffic_analyzer_gmii/hdl/traffic_analyzer_gmii.v:316-413 | state 0 |
| TrafficAnalyzer.Analyzer.StepFrame | lib/hw/lsi/cores/traffic_analyzer_gmii/hdl/traffic_analyzer_gmii.v:414-443 | state 1: sizes, and the captured octets on their way to memory |
| TrafficAnalyzer.Analyzer.Clear | lib/hw/lsi/cores/traffic_analyzer_gmii/hdl/traffic_analyzer_gmii.v:267-312 | everything cleared while stopped |
| TrafficAnalyzer.Analyzer.StepLatency | lib/hw/lsi/cores/traffic_analyzer_gmii/hdl/traffic_analyzer_gmii.v:457-541 | the latency process |
| TrafficAnalyzer.Analyzer.Count | lib/hw/lsi/cores/traffic_analyzer_gmii/hdl/traffic_analyzer_gmii.v:445-453 | the cycle counters and their copies |
| TrafficAnalyzer.Analyzer.Step | lib/hw/lsi/cores/traffic_analyzer_gmii/hdl/traffic_analyzer_gmii.v:262-541 | one clock edge of the analyzer and its frame memory |
| BramIo.Bram.WritePort | lib/hw/lsi/cores/traffic_analyzer_gmii/hdl/bram_io.v:23-29 | the write port stores in place |
| BramIo.Bram.ReadPort | lib/hw/lsi/cores/traffic_analyzer_gmii/hdl/bram_io.v:31-38 | the read port is registered |
| Receiver.ReceiverDevice.Step | lib/hw/lsi/cores/traffic_analyzer_gmii/hdl/traffic_analyzer_gmii.v:240-260 | one clock edge of analyzer, checker and parser: each sees the registers of the others before it |
| Receiver.ReceiverStepInv | lib/hw/lsi/cores/traffic_analyzer_gmii/hdl/traffic_analyzer_gmii.v:262-541 | every step keeps the registers of all three in agreement with the log of the line: statistics, published copies, capture buffer, latency pipeline |
| ReceiverRuns.ReceiverRunInv | lib/hw/lsi/cores/traffic_analyzer_gmii/hdl/traffic_analyzer_gmii.v:262-541 | so does every run |
| ReceiverRuns.StartEstablishesInv | lib/hw/lsi/cores/traffic_analyzer_gmii/hdl/traffic_analyzer_gmii.v:267-313 | an idle cycle with the run bit low and one more establish the agreement, whatever was in the registers |
| ReceiverRuns.ResetEstablishesInv | lib/hw/lsi/cores/traffic_analyzer_gmii/hdl/traffic_analyzer_gmii.v:267-313 | so do a reset at any time and one idle cycle, which is the first that is counted |
| LateStart.SwitchOn | lib/hw/lsi/cores/traffic_analyzer_gmii/hdl/traffic_analyzer_gmii.v:267-313 | when the run bit is raised, at any time, the analyzer is in state 0 with nothing counted |
| LateStart.LateStartCountsRest | lib/hw/lsi/cores/traffic_analyzer_gmii/hdl/traffic_analyzer_gmii.v:316-443 | raised within a frame: the frame is judged, and recognised as a test frame, by all its octets, as checker and parser are never stopped; the octets counted are those since, or, with a good preamble, the data octets after the first of them |
| ReceiverRuns.MachinesInLockStep | lib/hw/lsi/cores/traffic_analyzer_gmii/hdl/traffic_analyzer_gmii.v:240-260 | in every reachable state analyzer, checker and parser are all idle or all in a frame, and both recognisers agree on the preamble |
| ReceiverRuns.TallyCounts | lib/hw/lsi/cores/traffic_analyzer_gmii/hdl/traffic_analyzer_gmii.v:331-391 | the counters are the numbers of frames of each kind and of their octets, of test frames, and of test frames whose number is not the expected one, modulo 2^64 |
| ReceiverRuns.CountersByKind | lib/hw/lsi/cores/traffic_analyzer_gmii/hdl/traffic_analyzer_gmii.v:331-391 | counter by counter: which of the six counts the frames and the octets of which kind |
| LastError.LastErrorIsRecorded | lib/hw/lsi/cores/traffic_analyzer_gmii/hdl/traffic_analyzer_gmii.v:349-357 | after any frames: of the accepted test frames, the last whose number is not the 32-bit one after the number before (0 for the first) is recorded as received, with the number that was expected and its arrival time; zeros if there is none |
| LastError.LastErrorIsShown | lib/hw/lsi/cores/traffic_analyzer_gmii/hdl/traffic_analyzer_gmii.v:349-411 | so do the registers in every reachable state, for the frames accounted for, and their copies for the frames up to the last that was not frozen |
| ReceiverRuns.KindOfLongFrame | lib/hw/lsi/cores/traffic_analyzer_gmii/hdl/traffic_analyzer_gmii.v:331-379 | a frame with four or more data octets is good exactly when its frame check sequence is |
| Conservation.OctetConservation | lib/hw/lsi/cores/traffic_analyzer_gmii/hdl/traffic_analyzer_gmii.v:326-454 | in every reachable state, total minus idle cycles equal all counted octets, the preambles, the frame not yet accounted for, and what frames of 2^32 octets and more lose; the packet counters add up to the accounted frames |
| Conservation.NothingIsDropped | lib/hw/lsi/cores/traffic_analyzer_gmii/hdl/traffic_analyzer_gmii.v:415-418 | octets are lost if and only if some frame has 2^32 counted octets or more |
| Conservation.FramesAreConserved | lib/hw/lsi/cores/traffic_analyzer_gmii/hdl/traffic_analyzer_gmii.v:331-379 | every frame is counted once |
| Conservation.OctetsAreConserved | lib/hw/lsi/cores/traffic_analyzer_gmii/hdl/traffic_analyzer_gmii.v:331-391 | every octet of every frame is counted once |
| Conservation.CyclesAreShown | lib/hw/lsi/cores/traffic_analyzer_gmii/hdl/traffic_analyzer_gmii.v:445-454 | the copies of the cycle counters are the cycles up to the last edge with the freeze bit clear |
| FreezeCapture.CaptureIsConsistent | lib/hw/lsi/cores/traffic_analyzer_gmii/hdl/traffic_analyzer_gmii.v:394-442 | with no unfrozen frame in flight, buffer, size, arrival time and counters all describe the same frame, the last that was not frozen, however long: the buffer shows its last 2048 octets, lanes past its end the word before |
| FreezeCapture.FrozenReadoutIsStable | lib/hw/lsi/cores/traffic_analyzer_gmii/hdl/traffic_analyzer_gmii.v:316-324 | once frozen, nothing that arrives changes the published registers or the buffer |
| FreezeCapture.FreezeChangesAtMostOnce | lib/hw/lsi/cores/traffic_analyzer_gmii/hdl/traffic_analyzer_gmii.v:316-324 | from the moment of freezing the published registers change at most once, for the frame in flight |
| FreezeCapture.NothingReadableChanges | lib/hw/lsi/cores/traffic_analyzer_gmii/hdl/traffic_analyzer_gmii.v:394-538 | once frozen, with no unfrozen frame in flight and no new latency on its way into its copies, none of the registers that the processor can read changes |
| FreezeCapture.PublishedIsLastUnfrozen | lib/hw/lsi/cores/traffic_analyzer_gmii/hdl/traffic_analyzer_gmii.v:394-411 | the published copies are the statistics up to the last frame that was not frozen |
| OneFrame.FreezeDecides | lib/hw/lsi/cores/traffic_analyzer_gmii/hdl/traffic_analyzer_gmii.v:316-411 | whether a frame is published is decided by the freeze bit in the cycle before its first octet, whatever is written to it later; if it is, the copies are those of the counters with this frame, its size and the time of its first octet |
| LatencyExtremes.LatencyIsDifference | lib/hw/lsi/cores/traffic_analyzer_gmii/hdl/traffic_analyzer_gmii.v:488-495 | the subtraction with borrow is the true difference of two times in the form of section 5.3.3 of IEEE 1588-2008 |
| LatencyExtremes.KeyOrdersNanos | lib/hw/lsi/cores/traffic_analyzer_gmii/hdl/traffic_analyzer_gmii.v:500-508 | the concatenated comparison orders such times by their nanoseconds |
| LatencyExtremes.LatenciesAreExtremes | lib/hw/lsi/cores/traffic_analyzer_gmii/hdl/traffic_analyzer_gmii.v:477-512 | the running values are the last, the minimum and the maximum of the true latencies of all accepted test frames |
| LatencyExtremes.PublishedLatenciesArePrefix | lib/hw/lsi/cores/traffic_analyzer_gmii/hdl/traffic_analyzer_gmii.v:514-538 | the published ones are those of the frames up to the last unfrozen test frame |
| LatencyExtremes.LatencyRegistersShowExtremes | lib/hw/lsi/cores/traffic_analyzer_gmii/hdl/traffic_analyzer_gmii.v:457-541 | so do the registers in every reachable state in which the pipeline has caught up |
| FilterGmii.Filter.Step | lib/hw/lsi/cores/filter_gmii/hdl/filter_gmii.v:103-133 | one clock edge of the filter |
| FilterGmii.FilterForwards | lib/hw/lsi/cores/filter_gmii/hdl/filter_gmii.v:103-133 | for every input, the output is the input two cycles earlier, with everything blanked that is not forwarded |
| FilterGmii.ForwardedAfterGap | lib/hw/lsi/cores/filter_gmii/hdl/filter_gmii.v:116-130 | a frame is forwarded if and only if it is the first, or the least gap lies between it and the last forwarded cycle |
| FilterGmii.FrameIsWhole | lib/hw/lsi/cores/filter_gmii/hdl/filter_gmii.v:111-131 | a cycle of a frame is forwarded if and only if its first cycle is |
| FilterGmii.NoFrameIsCut | lib/hw/lsi/cores/filter_gmii/hdl/filter_gmii.v:111-131 | the frames on the output are whole frames of the input, in order |
| FilterGmii.GapsAreKept | lib/hw/lsi/cores/filter_gmii/hdl/filter_gmii.v:116-130 | forwarded frames are at least the least gap apart |
| FilterGmii.FirstFrameIsForwarded | lib/hw/lsi/cores/filter_gmii/hdl/filter_gmii.v:121-131 | the first frame is always forwarded |
| FilterGmii.LeastGap | lib/hw/lsi/cores/filter_gmii/hdl/filter_gmii.v:118 | the least gap is the register less 8, unless the register is below 9, when it wraps |
| FilterGmii.WellSpacedPasses | lib/hw/lsi/cores/filter_gmii/hdl/filter_gmii.v:121-131 | a line whose gaps are long enough passes unchanged |
| RtClock.Clock.StepFree | lib/hw/lsi/cores/rtclock/hdl/rtclock.v:162-170 | the clock that runs on its own |
| RtClock.Clock.StepPps | lib/hw/lsi/cores/rtclock/hdl/rtclock.v:172-204 | the clock that follows the pulses |
| RtClock.Clock.Step | lib/hw/lsi/cores/rtclock/hdl/rtclock.v:125-206 | one clock edge |
| RtClock.FreeClockIsExact | lib/hw/lsi/cores/rtclock/hdl/rtclock.v:153-170 | from a reset on, the clock on its own shows exactly the elapsed nanoseconds, in seconds of 48 bits and nanoseconds below 10^9 |
| EndToEnd.LatencyOfElapsed | lib/hw/lsi/cores/rtclock/hdl/rtclock.v:153-170 | the latency between two times of the clock on its own is the elapsed time, even when the seconds wrap |
| PpsClock.PulsesAreShown | lib/hw/lsi/cores/rtclock/hdl/rtclock.v:153-156 | the enabled clock shows the pulse registers one cycle later |
| PpsClock.SecondsCountPulses | lib/hw/lsi/cores/rtclock/hdl/rtclock.v:172-204 | while enabled, the second begun grows by exactly one with every pulse and never otherwise, in every run |
| PpsStart.SecondsCountEdges | lib/hw/lsi/cores/rtclock/hdl/rtclock.v:126-134 | that is, with every rising edge of `pps` while the select bit is 0, and of `pps2` while it is 1 |
| PpsStart.OtherLineIsIgnored | lib/hw/lsi/cores/rtclock/hdl/rtclock.v:126-134 | the line that is not selected has no effect in any run |
| PpsStart.SecondsSinceReset | lib/hw/lsi/cores/rtclock/hdl/rtclock.v:136-150 | after a reset the clock shows at a pulse the number of pulses since |
| PpsStart.TimeAfterEnabling | lib/hw/lsi/cores/rtclock/hdl/rtclock.v:176-181 | after enabling it begins with the configured second at nanosecond 0, and shows the deltas since, until the first pulse or rollover |
| PpsClock.SecondsAfterEnabling | lib/hw/lsi/cores/rtclock/hdl/rtclock.v:176-190 | after enabling, the clock shows at a pulse the configured second plus the pulses since if and only if no rollover was pending; otherwise it is one second late |
| PpsClock.PulseAtRollover | lib/hw/lsi/cores/rtclock/hdl/rtclock.v:173-203 | one cycle after a pulse the clock is right if and only if the local clock had not reached its rollover; otherwise it is one second ahead and stands at 0 ns until the next pulse |
| PpsClock.DoubledStands | lib/hw/lsi/cores/rtclock/hdl/rtclock.v:198-202 | the clock after such a pulse: a second ahead, at nanosecond 0, in every cycle up to the next |
| PpsClock.WaitsForPulse | lib/hw/lsi/cores/rtclock/hdl/rtclock.v:193-203 | a clock that has counted its second stands still until the pulse |
| PpsClock.RolloverShowsBillion | lib/hw/lsi/cores/rtclock/hdl/rtclock.v:173-203 | at a rollover without a pulse the clock shows 10^9 ns or more for a cycle if and only if the last step reaches it, and always with a nominal step |
| PpsClock.NanosecondsAreBounded | lib/hw/lsi/cores/rtclock/hdl/rtclock.v:172-204 | in every run `nsec_next_pps` stays below 10^9 - R + 30, so that its 30 bits never wrap |
| PpsClock.ResetEstablishesPpsInv | lib/hw/lsi/cores/rtclock/hdl/rtclock.v:138-150 | a reset brings the registers into that relation |
| PpsClock.AccumulatorStep | lib/hw/lsi/cores/rtclock/hdl/rtclock.v:195-196 | a step adds the delta exactly if and only if the sum fits 32 bits |
| PpsClock.AccumulatorDoesNotDrift | lib/hw/lsi/cores/rtclock/hdl/rtclock.v:193-197 | for deltas up to 2^32 - 2^28, k uninterrupted steps add exactly k times the delta |
| PpsClock.NanosecondsAreFloor | lib/hw/lsi/cores/rtclock/hdl/rtclock.v:193-197 | the nanoseconds after k steps are those of the start and k - 1 deltas over 2^28, rounded down |
| PpsClock.LargeDeltaOverflows | lib/hw/lsi/cores/rtclock/hdl/rtclock.v:196 | a larger delta for which two steps lose 16 ns |
| PpsClock.PeriodIsMeasured | lib/hw/lsi/cores/rtclock/hdl/rtclock.v:182-192 | `last_period_pps` is the number of cycles between two pulses times R, modulo 2^30 |
| PpsCorrection.DeltaIsInRange | lib/sw/lsi/cores/rtclock/rtclock-pps-correction:34-35 | the corrected delta suits the accumulator for periods from an eighth of a second to 2^30 ns |
| PpsCorrection.CorrectionRounds | lib/sw/lsi/cores/rtclock/rtclock-pps-correction:34-35 | the correction is rounded toward zero for every period: down when the local clock is fast, up when it is slow |
| PpsCorrection.CorrectionIsQuadratic | lib/sw/lsi/cores/rtclock/rtclock-pps-correction:34-35 | period times corrected delta is a second up to the square of the error, with the rounding of the shell |
| PpsCorrection.CorrectedClockKeepsSeconds | lib/sw/lsi/cores/rtclock/rtclock-pps-correction:34-35 | the uninterrupted accumulator with the corrected delta adds, over the measured period at 8 ns and from any start, a second within the square of the error over 10^9, plus 2 ns |
| PpsCorrection.NominalClockDrifts | lib/sw/lsi/cores/rtclock/rtclock-pps-correction:34 | without correction, from any start, it adds the period itself |
| PpsLoop.CyclesAfterPulse | lib/hw/lsi/cores/rtclock/hdl/rtclock.v:172-204 | what the registers are in every cycle from one pulse to the next, with the delta held: counting, about to roll over, or waiting |
| PpsLoop.RightAfterNextPulse | lib/hw/lsi/cores/rtclock/hdl/rtclock.v:172-204 | n cycles after a pulse that did not come at a rollover and left a carry s, one cycle after the next pulse the clock is right if and only if not s + (n - 2) deltas >= T > s + (n - 4) deltas, with T = (10^9 - 2R) * 2^28; otherwise it is a second ahead and stands at 0 until the pulse after |
| PpsLoop.PulsesCountTwice | lib/hw/lsi/cores/rtclock/hdl/rtclock.v:172-204 | in every run, whatever the distances of the pulses and the delta held from each to the next, a pulse is counted twice if and only if it collides and the one before was not counted twice |
| PpsLoop.TwoCyclesCollide | lib/hw/lsi/cores/rtclock/hdl/rtclock.v:172-204 | for any carry and delta, the distances that collide are those of two consecutive cycles |
| PpsLoop.NominalCollides | lib/sw/lsi/cores/rtclock/rtclock-pps-correction:34 | with the nominal delta and any carry that it leaves, 124 999 999 and 125 000 000 cycles |
| PpsLoop.ExactSecondCollides | lib/sw/lsi/cores/rtclock/rtclock-pps-correction:34-35 | the failing input: pulses exactly a second apart, with the delta of the script, and any carry |
| PpsLoop.NearSecondCollides | lib/sw/lsi/cores/rtclock/rtclock-pps-correction:34-35 | so it is for every period within 60 microseconds of a second, with any carry from the delta to 2^28 more |
| PpsLoop.StepCarries | lib/hw/lsi/cores/rtclock/hdl/rtclock.v:193-197 | which is what one step with that delta leaves, from any other |
| PpsLoop.EveryOtherPulseCountsTwice | lib/sw/lsi/cores/rtclock/rtclock-pps-correction:34-35 | with pulses exactly n cycles apart such a clock counts every other one twice for as long as they come: after an even number of pulses it is right, after an odd one it goes a second ahead and stands still |
| AxiWrite.FrontEndDevice.Step | lib/hw/lsi/cores/traffic_generator_gmii/hdl/traffic_generator_gmii_cpu_regs.v:100-321 | one clock edge of the write front end: handshake, registers and frame buffer port |
| AxiWrite.FrontEndDevice.Write | lib/hw/lsi/cores/traffic_generator_gmii/hdl/traffic_generator_gmii_cpu_regs.v:268-316 | the write to a register |
| AxiWrite.SessionStepInv | lib/hw/lsi/cores/traffic_generator_gmii/hdl/traffic_generator_gmii_cpu_regs.v:100-321 | for every legal timing of a processor with one write at a time, every step keeps hardware and written registers in agreement |
| AxiWrite.WritesTakeEffectOnce | lib/hw/lsi/cores/traffic_generator_gmii/hdl/traffic_generator_gmii_cpu_regs.v:100-321 | every accepted write gets exactly one response and takes effect exactly once, in order, the words of the frame buffer going to consecutive addresses |
| AxiWrite.BufferFollows | lib/hw/lsi/cores/traffic_generator_gmii/hdl/traffic_generator_gmii_cpu_regs.v:300-313 | one cycle later the memory itself holds what was written |
| AxiWrite.WriteAddresses | lib/hw/lsi/cores/traffic_generator_gmii/hdl/traffic_generator_gmii_cpu_regs_defines.v:16-59 | which register is written at which address, the frame buffer taking the highest octet of a word first |
| AxiWrite.WordsInOrder | lib/hw/lsi/cores/traffic_generator_gmii/hdl/traffic_generator_gmii_cpu_regs.v:300-316 | words written one after the other go to consecutive addresses from the one that was set on, or from the start after a write of the frame size |
| Hexstr.HexstrToBin | lib/sw/lsi/common/hexstr.c:33-43 | fills the array with the octets of the text, or stops at a character that is not a digit |
| Hexstr.BinToHexstr | lib/sw/lsi/common/hexstr.c:45-55 | fills the array with the text of the octets and ends it with 0 |
| Hexstr.TextRoundTrip | lib/sw/lsi/common/hexstr.c:33-55 | decoding the text of any octets gives them back |
| Hexstr.OctetsRoundTrip | lib/sw/lsi/common/hexstr.c:33-55 | and encoding the octets of any upper-case text of even length gives it back |
| Hexstr.DigitRoundTrip | lib/sw/lsi/common/hexstr.c:5-31 | for single digits |
| Hexstr.DigitStands | lib/sw/lsi/common/hexstr.c:5-31 | the digits are 0 to 9, A to F and a to f, nothing else is one, and upper-case ones are written |
| Upload.TrafficGeneratorCommon | lib/sw/lsi/cores/traffic-generator-gmii/traffic-generator-gmii.c:73-134 | every setting as asked for, and the frame buffer octet by octet: the preamble, the octets of the text, two digits each, zeros up to frame size less trailer, for every length up to the 2048 octets of the buffer; the last write and no other switches the generator on, with test frames unless the type is absent or "static" |
| Upload.Port.Write | lib/hw/lsi/cores/traffic_generator_gmii/hdl/traffic_generator_gmii_cpu_regs.v:268-316 | one write of the program: the new registers, and one more entry in the list of writes |
| Upload.WritesReachHardware | lib/hw/lsi/cores/traffic_generator_gmii/hdl/traffic_generator_gmii_cpu_regs.v:100-321 | whatever the timing on the bus, the hardware ends up with the registers and the frame buffer that the program has written |
| Upload.WritePayload | lib/sw/lsi/cores/traffic-generator-gmii/traffic-generator-gmii.c:105-120 | the word packing loop, for lengths that are not multiples of 4 as well |
| Upload.TemplateIsUpload | lib/hw/lsi/cores/traffic_generator_gmii/hdl/traffic_generator_gmii.v:225-257 | the template the generator sends is exactly what was uploaded |
| UploadOnLine.TextOnLine | lib/hw/lsi/cores/traffic_generator_gmii/hdl/traffic_generator_gmii.v:235-299 | on the line, octet j of every frame after such an upload: seven 0x55, one 0xD5, the octets of the text, zeros |
| UploadOnLine.FramesApart | lib/sw/lsi/cores/traffic-generator-gmii/traffic-generator-gmii.c:81-91 | from a frame to the next it takes the frame size and the gap that was asked for: that between bursts after the last frame of a burst, that between frames after any other |
| UploadOnLine.FramesAskedFor | lib/sw/lsi/cores/traffic-generator-gmii/traffic-generator-gmii.c:122-123 | as many frames are sent as were asked for, unless that is 0 |
| UploadOnLine.ControlBits | lib/sw/lsi/cores/traffic-generator-gmii/traffic-generator-gmii.c:125-130 | 3 switches the generator on with test frames, 1 without, 0 off |
| Upload.GapIsAsRequested | lib/sw/lsi/cores/traffic-generator-gmii/traffic-generator-gmii.c:81-82 | the octets between frames are those asked for if and only if at least 11 are |
| Upload.LengthIsAsRequested | lib/sw/lsi/cores/traffic-generator-gmii/traffic-generator-gmii.c:85-91 | frames have the length asked for, in static and in dynamic mode, if and only if, with the preamble and without the dynamic fields, it is at most 2^32 |
| Upload.UploadPreparesTester | lib/sw/lsi/cores/traffic-generator-gmii/traffic-generator-gmii.c:73-134 | the upload sets up the test template that the end-to-end theorem requires, and its condition on the gaps if and only if none of 11 was asked for |
| CommandLine.CommandLineToStatistics | lib/sw/lsi/cores/traffic-generator-gmii/traffic-generator-gmii.c:73-134 | from the command line to the statistics: however the writes of the program are timed on the bus and whatever was in the registers of the tester before, after the upload, a reset, the start and n frames the analyzer shows exactly the frames that the filter has let through, each of the size asked for, and the transit time as the only latency |
| AxiRead.ReadEndDevice.Step | lib/hw/lsi/cores/traffic_analyzer_gmii/hdl/traffic_analyzer_gmii_cpu_regs.v:200-262 | one clock edge of the read front end and the read port of the frame memory |
| AxiRead.ReadStepInv | lib/hw/lsi/cores/traffic_analyzer_gmii/hdl/traffic_analyzer_gmii_cpu_regs.v:200-262 | for every legal timing of a processor with one read at a time, every step keeps accepted addresses, responses and the read pointer in agreement |
| AxiRead.ReadsAreAnswered | lib/hw/lsi/cores/traffic_analyzer_gmii/hdl/traffic_analyzer_gmii_cpu_regs.v:200-495 | every accepted read gets exactly one response, in order, with the value of the register - identification, version and flip included; reads of the frame buffer return its words one after the other from the last read of the frame size on |
| AxiRead.CounterAddresses | lib/hw/lsi/cores/traffic_analyzer_gmii/hdl/traffic_analyzer_gmii_cpu_regs.v:340-413 | which counter is read at which address, the high word at the lower one |
| AxiRead.TimeAddresses | lib/hw/lsi/cores/traffic_analyzer_gmii/hdl/traffic_analyzer_gmii_cpu_regs.v:388-460 | the same for the times, latencies, sizes and numbers |
| AxiRead.ValueOfRead | lib/hw/lsi/cores/traffic_analyzer_gmii/hdl/traffic_analyzer_gmii_cpu_regs.v:324-495 | a read of any register but the frame buffer returns what is at its address, whatever was read before |
| AxiRead.BufferInOrder | lib/hw/lsi/cores/traffic_analyzer_gmii/hdl/traffic_analyzer_gmii_cpu_regs.v:397-402 | after a read of the frame size, reads of the frame buffer return the words of the frame memory in order, the first octet in the highest bits |
| ReadOut.FrozenPort.Read | lib/hw/lsi/cores/traffic_analyzer_gmii/hdl/traffic_analyzer_gmii_cpu_regs.v:324-495 | one read of the program: the value and the read pointer, and one more entry in the lists of reads and values |
| ReadOut.ReadStatistics | lib/sw/lsi/cores/traffic-analyzer-gmii/traffic-analyzer-gmii.c:126-188 | the program reads the registers at these 40 addresses in this order, and each of the eighteen values that it prints is that of one register of the analyzer, both halves of the wide ones; the frame buffer is left at its start |
| ReadOut.PrintCapture | lib/sw/lsi/cores/traffic-analyzer-gmii/traffic-analyzer-gmii.c:231-245 | the loops print exactly the octets of the buffer in order, for sizes that are not multiples of 4 as well |
| ReadOut.ReadOutOnce | lib/sw/lsi/cores/traffic-analyzer-gmii/traffic-analyzer-gmii.c:125-247 | one read-out of statistics and capture, from registers that keep still |
| ReadOut.PrintedTextIsFrame | lib/sw/lsi/cores/traffic-analyzer-gmii/traffic-analyzer-gmii.c:231-245 | `hexstr2bin` of the printed text is the received frame, in every reachable state with no unfrozen frame in flight; of a frame of more than 2048 octets, what it has left in the buffer |
| ReadOut.WordsReadAreFrame | lib/sw/lsi/cores/traffic-analyzer-gmii/traffic-analyzer-gmii.c:231-245 | the words that are read from the frame buffer are those of the received frame, its first octet in the highest bits of the first |
| ReadOut.PrintedTextIsLastFrameKept | lib/sw/lsi/cores/traffic-analyzer-gmii/traffic-analyzer-gmii.c:231-245 | when the tester has sent n frames, static or dynamic, the printed text is that of the last of them that the filter has let through |
| LiveReadOut.ReadsSeeOnlyReadable | lib/hw/lsi/cores/traffic_analyzer_gmii/hdl/traffic_analyzer_gmii_cpu_regs.v:324-473 | reads depend only on the registers that do not change while frozen |
| LiveReadOut.LineAndBusApart | lib/hw/lsi/cores/traffic_analyzer_gmii/hdl/traffic_analyzer_gmii_cpu_regs.v:200-495 | frozen, with no unfrozen frame in flight and no new latency on its way: however edges of the line clock and of the bus clock are interleaved, the line side goes on as if nobody was reading and the bus side as if nothing arrived |
| LiveReadOut.ReadsAreOfOneState | lib/sw/lsi/cores/traffic-analyzer-gmii/traffic-analyzer-gmii.c:125-247 | so all values read are those that the registers had at the start, whatever arrives meanwhile |
| TornReadOut.ReadOutIsOfOneState | lib/sw/lsi/cores/traffic-analyzer-gmii/traffic-analyzer-gmii.c:125-247 | right after the freeze bit is visible: whatever arrives and however the reads are timed, the values read are those of one register file, if and only if no unfrozen frame is in flight and no new latency is on its way into its copies (with fewer than 2^64 frames since the start) |
| TornReadOut.ReadableKeepsWhen | lib/hw/lsi/cores/traffic_analyzer_gmii/hdl/traffic_analyzer_gmii.v:394-538 | on the same condition, and no other, nothing that arrives changes what can be read |
| TornReadOut.FreezeBeforeLatency | lib/hw/lsi/cores/traffic_analyzer_gmii/hdl/traffic_analyzer_gmii.v:477-538 | the second failing input: the freeze bit becomes visible in the cycle in which an unfrozen test frame with a latency other than the one shown is accounted for |
| TornReadOut.ProgramTearsCounters | lib/sw/lsi/cores/traffic-analyzer-gmii/traffic-analyzer-gmii.c:125-132 | what the program then reads: when the frame in flight is good and ends between its reads of the packets and of the octets, the packets are those without it and the octets those with it, as they are at no time |

## Left out

- GeneratorStream.Usable: frames of one octet are not part of the stream, as the state machine leaves state 1 for `next_state` before it has set it; `GeneratorRuns.OneOctetIsNotSent` says what it does.
- EndToEnd.TesterShowsKeptFrames: the clock runs on its own; with pulses enabled the latency is that of the displayed times.
- Upload.TrafficGeneratorCommon: text longer than the frame, which the program would write past the memory it has allocated; dynamic frame sizes below 22, for which it would read past it; sizes of 2^32 - 3 octets of data and more, for which its loop does not end. Data beyond the 2048 octets of the buffer overwrites its start, which is not described.
- PpsLoop.PulsesCountTwice: the delta is not changed between two pulses.
- AxiRead.ReadMux: the flip register is an input that keeps still; what the processor writes to it and to the control register of the analyzer is not connected.
- GeneratorRuns.FramesAndGaps: the configuration is settled while the generator runs; of registers that are written within a frame only the run bit is described (`GeneratorControl.FrameIsFinished`).
- ReceiverRuns.StartEstablishesInv: the run bit of the analyzer is raised while the line is idle; of a start within a frame only the counters after that frame are described (`LateStart.LateStartCountsRest`), not its capture and its latency.
- PpsClock.AccumulatorDoesNotDrift: the steps are uninterrupted by pulses and rollovers, which set the nanoseconds and leave the accumulated fraction; `PpsLoop` follows it from one pulse to the next.
- Registers that power up undefined are arbitrary values; that an undefined value could spread is not modelled. The asynchronous resets of CRC circuit, checker and parser act at a clock edge.
- Two clocks: bus and line have their own; registers are taken as settled before the generator runs and as frozen while they are read.
- `gmii_er`, the test frame filter registers and their mask, which the parser reads but does not use.
- gmii_mux, the AXI-stream generator and the other copies of the register front end.
- Conversion of times to dates, the XML around the statistics, option parsing, sockets and device memory access.
- YANG modules, board support, scripts and simulation drivers.
