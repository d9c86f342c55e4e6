# P4-TAS: verification of the gate pipeline and the PTP client

P4-TAS is a time-aware shaper (IEEE 802.1Q-2018, section 8.6.8.4) and per-stream policer
(section 8.6.5.1) for a programmable switch. A Rust controller turns gate schedules, written as
closed ranges of nanoseconds, into ternary `(value, mask)` rows; the P4 data plane turns a 48-bit
ingress timestamp and a stored period start into a position in the schedule and looks it up. A
PTP client (IEEE 1588-2008, clauses 11.3 and 13) keeps the switch clock in step and decides when
the packet generator may start.

The project models these parts and proves:

- **Ranges to rows.** The greedy loop covers a range exactly, each value once; it fails exactly on
  ranges of more than one value that end at 2^32-1; no set of aligned blocks is smaller; 62 rows
  always suffice and are sometimes needed (`TernaryCover`, `CoverOptimality`). The first
  version of the loop covers the same range and never needs fewer rows (`Evaluation`), and the
  evaluation program counts exactly what the controller installs (`EvaluationTas`).
- **Position in the schedule.** The generated "greater than" table matches one row iff a position
  exceeds the period; the position is the elapsed time cut off at the period, across wraps of the
  48-bit clock (`DeltaAdjustment`).
- **TAS end to end.** After the guard-band rewrite (`Config`) and the start sequence, a control
  packet hits the gate table iff it was generated on the pipe of its port; inside a slice of the
  file it opens or closes the queue as its state says, and inside a guard band it only closes
  (`TimeAwareShaper`, `DataPlaneRuns`).
- **PSFP over every run.** A forwarded frame met an open interval of its own gate's schedule,
  measured from that gate's own last period start, and that interval gives its queue; which frames
  pass gate and meter is stated exactly; a gate or meter is blocked iff some earlier frame violated
  it, and stays so; the colour counters count what was forwarded (`PsfpTables`,
  `SwitchTables`, `DataPlane`, `DataPlaneRuns`).
- **From the configuration file to every run.** The start sequence aborts iff the file, or
  the queue maps the switch reports, have one of the listed defects; otherwise what it installs
  makes both results above hold over every run of the switch (`Controller`).
- **PTP.** Which messages the timestamps of a sample come from, over every interleaving
  (`PtpExchange`, `PtpPairing`), exactly when requests are sent and samples emitted
  (`PtpProgress`), and when one captured send time serves two samples
  (`PtpCaptures`); timestamp unwrapping (`PtpClock`), and when all receive and send times of a run
  are on one clock (`PtpRunClock`); the Delay_Req round trip (`PtpPacket`); the servo against sums
  of written offsets (`PtpServo`); the activation loop (`PtpActivation`), and that it relies on a
  good sample (`PtpLink`).

How it is modelled. Machine integers are natural numbers with their bounds as types; every 32-bit
operation is checked as in a debug build, and an abort is the value `Panic`. `&` and `|` are
defined bit by bit (`Bits`). Controller loops are methods proved against functions; switch
registers are arrays of classes proved against step functions, over which the runs are stated.
Ternary rows carry no priority, so a lookup is the list of matching rows and `tie` is the one the
switch acts on. Outcomes of hardware and remote calls (register reads, clock writes, meter colours,
clock readings) are inputs.

Where code and documentation differ, or a property one would expect does not hold, the code is
modelled and the exact condition proved:

- The mask documented as 2^38 (`const_definitions.rs:17-18`) has 33 zero bits, so exactly the
  periods below 2^33 ns are measured without error (`DeltaAdjustment.ExactPeriods`).
- Two gates that name the same schedule are not both installed; only the first one gets rows
  (`PsfpTables.GateTableIsSchedule`).
- Gate rows are built from 32-bit masks, but a PSFP period may be longer than 2^32 ns. A forwarded
  frame lies in an open interval iff its position is below 2^32
  (`DataPlaneRuns.ForwardedFramesMetOpenGate`), some position is not iff the period is 2^32 or more
  (`DataPlaneRuns.LongPeriods`), and a file and a frame show it (`Controller.LongPeriodForwardsOutside`).
- Two slices of a list that meet in a value can ask for the same row twice, exactly when one of them
  is empty and the parity of the value fits (`TimeAwareShaper.ClashExact`).
- Frames that hit no stream row are not dropped if there is a gate 0; they pass through it at a
  position that is not cut off (`DataPlaneRuns.UnidentifiedFrames`).
- Application identifiers have 8 bits in the controller and 4 in the packet, so gates and ports
  with an identifier from 16 on never see a period start (`DataPlaneRuns.StampArrives`).
- An IPv4 address serves as its own mask, so a stream row also selects the broadcast address
  (`SwitchTables.AddressKeyExact`).
- Without any port with a gate control list the controller aborts at start (`Controller.Start`).
- A Delay_Req whose fifth timestamp read is still the previous one is used all the same, so one
  captured send time can serve two samples (`PtpCaptures.StaleCaptureUsedTwice`). A request uses its
  own capture iff `PtpCaptures.OwnCaptureExact` holds.
- A hardware timestamp older than the one handled before it is taken for a wrap
  (`PtpRunClock.OlderStampJumpsWrap`); a stale send time after a newer Sync is one
  (`PtpRunClock.StaleSendTimeJumps`).
- When no read of a request is valid, a late response completes a sample from two exchanges
  (`PtpCaptures.HalvesOfTwoExchanges`); `PtpPairing.OneExchangeExact` says when all four times stem
  from one.
- The fraction of the activation time counts as nanoseconds however many digits it has
  (`PtpActivation.TargetExact`, `PtpActivation.HalfSecondLost`).
- A Sync whose header announces fewer than 44 bytes ends the PTP task
  (`PtpPacket.BuildDelayReqPacket`).
- A mean offset of 2^32 ns is steered with the smallest step (1) instead of the largest (50),
  because its size is cast to 32 bits; runs reach such a mean (`PtpServo.JumpIsSteeredByOne`).

## Model

| member | source | states |
|---|---|---|
| TernaryCover.BlockSize | implementation/controller/src/libs/tas.rs:73-80 | the next block is the largest the alignment and the rest of the range allow; only the full 32-bit range overflows here |
| TernaryCover.RangeToTernaryEntries | implementation/controller/src/libs/tas.rs:46-97 | ends without overflow iff start >= end or end < 2^32-1, and then emits the greedy cover in order, each entry with the given keys and action |
| TernaryCover.EntrySelectsBlock | implementation/controller/src/libs/tas.rs:82-85 | value and mask of a block select exactly its values, for keys of any width modulo 2^32 |
| TernaryCover.ExactCover | implementation/controller/src/libs/stream_gate_schedule.rs:23-70 | every value of the range matches exactly one entry, every other value none |
| TernaryCover.CoverHit | implementation/controller/src/bin/evaluate_ternary_entries.rs:1137-1204 | some entry matches a key iff its low 32 bits lie in the range |
| TernaryCover.SharedEntryExact | implementation/controller/src/libs/tas.rs:58-94 | two ranges that meet in at most one value share an entry iff they meet in one, the left one is that value or ends at an even number, and the right one is that value or starts at an odd one |
| CoverOptimality.BlocksAreMaximal | implementation/controller/src/libs/tas.rs:73-80 | an aligned block of the range that meets an emitted block lies inside it |
| CoverOptimality.GreedyIsMinimal | implementation/controller/src/bin/evaluate_ternary_entries.rs:123-150 | no set of aligned power-of-two blocks whose union is the range has fewer members than the loop emits |
| CoverOptimality.EntryBound | implementation/controller/src/libs/tas.rs:58-94 | block sizes strictly rise, may repeat once at the peak, then strictly fall; no size is used more than twice; at most 62 entries |
| CoverOptimality.BoundIsTight | implementation/controller/src/bin/evaluate_ternary_entries.rs:70-104 | the range of all 32-bit values but the first and last needs exactly 62 entries |
| Evaluation.TernaryEntries | implementation/controller/src/bin/evaluate_ternary_entries.rs:154-182 | the first decomposition is the optimised one of the range without its last value (and, from 0, without 0), plus exact matches for those |
| Evaluation.CountTernaryEntries | implementation/controller/src/bin/evaluate_ternary_entries.rs:23-51 | counts the entries of the first decomposition, on every range |
| Evaluation.CountTernaryEntriesOptimized | implementation/controller/src/bin/evaluate_ternary_entries.rs:70-104 | counts the entries of the optimised decomposition, with its overflow condition |
| Evaluation.DetourCoversRange | implementation/controller/src/bin/evaluate_ternary_entries.rs:154-182 | the first decomposition matches each value of the range exactly once and no other |
| Evaluation.OptimisedNeverLonger | implementation/controller/src/bin/evaluate_ternary_entries.rs:53-67 | the optimised decomposition never has more entries than the first |
| EvaluationTas.MakeEqualTasSlices | implementation/controller/src/bin/evaluate_ternary_entries.rs:256-291 | equal slices with guard bands, or an abort iff there are none or they leave the 32-bit range |
| EvaluationTas.EvaluationCountsInstalledRows | implementation/controller/src/bin/evaluate_ternary_entries.rs:106-112 | for equal-width lists and every guard width, the evaluation's count equals the rows the controller builds from the rewritten list |
| DeltaAdjustment.InitHyperperiodExceededDetectionTable | implementation/controller/src/libs/delta_adjustment.rs:34-74 | the bit-mask arithmetic yields, for each zero bit from the highest down, the row that forces this bit below the period's prefix |
| DeltaAdjustment.AboveAtSelects | implementation/controller/src/libs/delta_adjustment.rs:50-57 | the row of bit i matches a 48-bit key iff the key without its i low bits is one above the period without them |
| DeltaAdjustment.TableIsComparator | implementation/controller/src/libs/delta_adjustment.rs:34-74 | a 48-bit key matches exactly one row iff it exceeds the (48-bit) period, and none otherwise |
| DeltaAdjustment.RowsPerZeroBit | implementation/controller/src/libs/delta_adjustment.rs:48-49 | the table has one row per zero bit of the period |
| DeltaAdjustment.UnderflowRows | implementation/controller/src/libs/delta_adjustment.rs:10-32 | with the masks as they are, exactly the differences from 2^33 up to 128 below 2^48 find no row of the underflow table; smaller ones find only rows that do nothing, larger ones only rows that reset |
| DeltaAdjustment.Apply | implementation/src/controls/TSN/DeltaAdjustment.p4:64-71 | with rows installed for any list of periods, the two tables and the miss path compute the position |
| DeltaAdjustment.PositionIsElapsedTime | implementation/src/controls/TSN/TSN.p4:218-223 | for periods below 2^33 ns the position is the elapsed time cut off at the period, also across a counter wrap; up to 128 ns early counts as 0 |
| DeltaAdjustment.ExactPeriods | implementation/controller/src/libs/const_definitions.rs:17-18 | every position is exact iff the period is below 2^33 ns |
| Config.InsertGuardBands | implementation/controller/src/libs/configuration.rs:223-262 | the rewrite of one list, aborting iff a slice is inverted or the result leaves 32 bits |
| Config.Configuration.InsertTasGsi | implementation/controller/src/libs/configuration.rs:217-265 | all lists are rewritten, those without a guard band kept; on an abort nothing changes |
| Config.GuardBandRewrite | implementation/controller/src/libs/configuration.rs:217-262 | twice as many slices, contiguous from 0, content widths and states kept in order, guards of exactly the guard width with every listed queue closed; ends at the new period iff the widths added up to the old one |
| Config.GuardedTiles | implementation/controller/src/libs/configuration.rs:260-262 | the rewritten list tiles its new period |
| Config.Configuration.ConfigureAppIdsStreamGateHyperperiod | implementation/controller/src/libs/configuration.rs:141-171 | one identifier per gate, counting up, with the period of the gate's schedule; aborts iff a schedule is missing or 8 bits do not suffice |
| Config.Configuration.ConfigureAppIdsTasHyperperiod | implementation/controller/src/libs/configuration.rs:173-195 | one identifier and batch per port, with the period of the port's list; aborts likewise |
| TimeAwareShaper.SliceRequests | implementation/controller/src/libs/tas.rs:208-230 | the rows of a slice are the cover of its range for each listed queue, in whatever order the queues are visited; aborts iff a queue is unknown to the switch or the range overflows |
| TimeAwareShaper.ConfigureAfcPorts | implementation/controller/src/libs/tas.rs:99-138 | flow control for the eight queues of each port, in order; aborts iff the switch does not know a port or its queue maps are too short |
| TimeAwareShaper.ListRequests | implementation/controller/src/libs/tas.rs:207-231 | the rows of a list, and how many |
| TimeAwareShaper.ConfigureTasQueueId | implementation/controller/src/libs/tas.rs:140-244 | the rows of all ports, and how many, of which every one that a state asks for opens its queue iff the state is 0 (TimeAwareShaper.RowDoes); aborts iff a list or batch is missing, the queue maps of a port do not lead from a listed queue to one of its queues, or a range overflows |
| TimeAwareShaper.ClashExact | implementation/controller/src/libs/tas.rs:208-230 | two slices of a contiguous list ask for the same key iff they list a common queue, meet in a value, and each is empty or has the parity that gives it an exact row there; the table writes no key twice iff no slices clash |
| TimeAwareShaper.GuardedApart | implementation/controller/src/libs/configuration.rs:239-262 | a rewritten list whose content slices are all wider than 0 never asks for a key twice |
| TimeAwareShaper.BatchRows | implementation/controller/src/libs/tas.rs:198-203 | with distinct ports, the rows of a batch are those of its own port's list |
| TimeAwareShaper.LookupFindsSlices | implementation/src/controls/TSN/TAS.p4:46-62 | on the pipe of its port (the number over 128), a lookup can trigger exactly the actions some slice that contains the position asks for: open the queue where its state is 0 and close it otherwise; on any other pipe there are none |
| TimeAwareShaper.ControlPacketActsOnSchedule | implementation/controller/src/main.rs:282-284 | for all stamps and pipes, the control packet hits the table iff it was generated on the pipe of its port; it can open (or close) the queue iff a guarded slice that contains its position has state 0 (or another); strictly inside the j-th slice of the file every hit opens iff the file has state 0 there, and inside a guard band every hit closes |
| TimeAwareShaper.GuardBandCloses | implementation/controller/src/libs/configuration.rs:217-220 | strictly inside a guard band only close actions match, on every pipe |
| PsfpTables.WriteIntervals | implementation/controller/src/libs/stream_gate_schedule.rs:159-171 | the rows of a schedule, each interval with its own number |
| PsfpTables.WriteAllSchedules | implementation/controller/src/libs/stream_gate_schedule.rs:127-175 | the rows of all schedules in order; aborts iff a lookup fails, a range overflows or the numbers run out |
| PsfpTables.GateTableIsSchedule | implementation/controller/src/libs/stream_gate_schedule.rs:152-171 | at every position, a gate's rows act as the intervals of its schedule that contain the low 32 bits if it is the first gate to name the schedule; otherwise it has no rows |
| PsfpTables.IntervalNumbers | implementation/controller/src/libs/stream_gate_schedule.rs:159-171 | a row carries state, queue and octets of the interval whose place in the schedule is its number |
| SwitchTables.ConfigureAppIds | implementation/controller/src/libs/packet_generator.rs:143-194 | the application, port and batch rows, and comparator rows for every period |
| SwitchTables.ActivateTrafficGenApplications | implementation/controller/src/libs/packet_generator.rs:37-90 | one application per gate and port with its period, and a batch count one below the number of ports; aborts iff there is no port (or identifiers are missing) |
| SwitchTables.GeneratorPeriods | implementation/controller/src/libs/packet_generator.rs:37-90 | application i is that of the i-th gate, with the period of its schedule; those of the ports follow, with the periods of their lists |
| SwitchTables.ConfigureStreamIdentification | implementation/controller/src/libs/configuration.rs:38-139 | keys and assigned values of each stream's row, with the defaults for missing handles, gates and meters; aborts iff a schedule is missing, an address does not parse, or a new address comes without a new priority |
| SwitchTables.HandleExact | implementation/controller/src/libs/configuration.rs:42-48 | a stream belongs to the first handle with its number, or to handle 0 |
| SwitchTables.MeterExact | implementation/controller/src/libs/configuration.rs:58-64 | its row carries number and flags of the first meter the handle names, or zeros |
| SwitchTables.GateExact | implementation/controller/src/libs/configuration.rs:50-80 | its row carries number and flags of the first gate the handle names, with the period of the first schedule of the gate's name; without such a gate, those of gate 0 without a name |
| SwitchTables.StreamRowExact | implementation/controller/src/libs/configuration.rs:82-133 | a frame hits the row iff its address and VLAN are the stream's and its IPv4 addresses match under themselves as masks, missing ones matching all; a new address and priority are assigned exactly as configured |
| SwitchTables.AddressKeyExact | implementation/controller/src/libs/configuration.rs:128-133 | an address key selects exactly its address iff all 32 bits are set; otherwise it also selects the broadcast address |
| SwitchTables.AppIdsNeverCollide | implementation/controller/src/libs/configuration.rs:10-17 | no identifier is 0 and each selects exactly one gate or one port, for a port with the period of its list; which of them can arrive says DataPlaneRuns.StampArrives |
| DataPlane.StreamGateControl.Apply | implementation/src/controls/TSN/PSFP/StreamGate.p4:120-184 | blocked flags, drop verdict and queue after one frame; what they mean says DataPlaneRuns.PassesGateExactly |
| DataPlane.FlowMeterControl.Apply | implementation/src/controls/TSN/PSFP/FlowMeter.p4:48-102 | counters, blocked flags, drop verdict and drop-eligible bit after one frame; what they mean says DataPlaneRuns.ForwardedExactly |
| DataPlane.PositionIn | implementation/src/controls/TSN/TSN.p4:324-328 | the position of a packet for whatever periods are installed |
| DataPlane.TsnControl.StampPeriodStart | implementation/src/controls/TSN/TSN.p4:273-306 | a generated packet stamps its gate, or else its port, and nothing else |
| DataPlane.TsnControl.LocateControlPacket | implementation/src/controls/TSN/TSN.p4:308-337 | a control packet carries the position of its batch's port and changes no register |
| DataPlane.TsnControl.Apply | implementation/src/controls/TSN/TSN.p4:267-351 | register contents and outcome after one packet are those of the step function |
| DataPlaneRuns.StampsAreOwn | implementation/src/controls/TSN/TSN.p4:273-296 | over every run, the split registers of each gate and port hold the last stamp of its own application |
| DataPlaneRuns.StampArrives | implementation/src/headers.p4:168 | some run stamps an application iff its identifier is not 0 and fits into 4 bits |
| DataPlaneRuns.RunPipeline | implementation/src/controls/TSN/TSN.p4:267-351 | the pipeline class on a sequence of packets has the registers and outcomes of the run the lemmas speak of |
| DataPlaneRuns.ForwardedFramesMetOpenGate | implementation/src/controls/TSN/PSFP/StreamGate.p4:120-173 | over every run and for every period, a forwarded frame of a stream lies in an open interval of its gate's schedule, measured from the gate's own last stamp, modulo 2^32, and goes to the queue that interval names or, with 8, to that of its new priority, or its own where the stream has none; the position itself lies in an open interval iff it is below 2^32, which a period below 2^32 ensures |
| DataPlaneRuns.PassesGateExactly | implementation/src/controls/TSN/PSFP/StreamGate.p4:120-184 | a frame of a stream passes its gate iff the interval it acts on is open, its octets are not exceeded where that counts, and the gate is not blocked where a closure flag is set; without an interval, or at a gate that is not the first to name its schedule, it is dropped |
| DataPlaneRuns.LongPeriods | implementation/controller/src/libs/stream_gate_schedule.rs:26-68 | some position is 2^32 or more iff the period, cut to 48 bits, is |
| DataPlaneRuns.ForwardedOnlyThroughGates | implementation/src/controls/TSN/PSFP/StreamGate.p4:120-173 | whatever identification assigned, a forwarded frame met an open interval of a configured gate with its gate number, measured from that gate's last stamp with the period the frame carries, and that interval gives its queue |
| DataPlaneRuns.UnidentifiedFrames | implementation/src/controls/TSN/StreamIdentification.p4:147-174 | a frame that hits no stream row is dropped if no gate has number 0, and otherwise forwarded only inside an open interval of gate 0, which gives its queue, at the time since its stamp, not cut off |
| DataPlaneRuns.UnidentifiedExactly | implementation/src/controls/TSN/StreamIdentification.p4:147-174 | a frame that hits no stream row and finds a gate 0 that owns its schedule is forwarded iff the interval it acts on is open and meter 0 is neither blocked nor marks the frame red; octets and yellow marks do not matter, and such a frame blocks nothing |
| DataPlaneRuns.OpenGatePasses | implementation/src/controls/TSN/PSFP/StreamGate.p4:155-172 | a frame whose position lies only in open intervals passes an unblocked gate that owns its schedule |
| DataPlaneRuns.ControlPacketPosition | implementation/src/controls/TSN/TSN.p4:308-334 | over every run, a control packet carries the time since its own port's last stamp, cut off at the period |
| DataPlaneRuns.ControlPacketsFollowSchedule | implementation/src/controls/TSN/TAS.p4:131-135 | end to end over every run: the gate table is hit iff the packet is on its port's pipe, and opens and closes there as the file says at the time since the port's own last stamp |
| DataPlaneRuns.BlockedForever | implementation/src/controls/TSN/PSFP/StreamGate.p4:166-172 | once a gate or meter is blocked, every later frame through it (for gates: with a closure flag) is dropped |
| DataPlaneRuns.BlockedExactly | implementation/src/controls/TSN/PSFP/StreamGate.p4:120-173 | over every run, a gate is blocked iff some earlier frame through it found no row, acted on a closed one or exceeded its octets with the flag for it set, and a meter iff some earlier frame reached it red and undropped with its flag set |
| DataPlaneRuns.ForwardedExactly | implementation/src/controls/TSN/PSFP/FlowMeter.p4:48-102 | over every run, a frame that passed its gate is forwarded iff its meter is not blocked and, where installed, marks it neither red nor, with drop-on-yellow, yellow; a forwarded frame is drop-eligible iff it was marked yellow |
| DataPlaneRuns.MeterConservation | implementation/src/controls/TSN/PSFP/FlowMeter.p4:59-101 | per meter, yellow counts exactly the forwarded frames marked yellow, green the other forwarded ones, and red the rest of those that entered undropped |
| Controller.Start | implementation/controller/src/main.rs:278-336 | the start sequence aborts iff a list, schedule or batch is missing, the identifiers do not suffice, a range or guard band overflows, there is no port, a port or queue is unknown to the switch, or a stream's addresses are unusable; otherwise what it installs, underflow rows included, is a deployment of the configuration file, and writes no gate key twice iff no slices clash |
| Controller.StartedSwitchIsSafe | implementation/controller/src/main.rs:280-332 | with distinct gate numbers and ports: after the start sequence and any packets, a frame that hit a stream's row is forwarded only inside an open interval of the schedule its gate names in the file, into the queue that interval names or, with 8, that of its priority |
| Controller.StartedSwitchMeters | implementation/src/controls/TSN/PSFP/FlowMeter.p4:48-102 | once such a frame has passed its gate, it is forwarded iff the meter its stream names in the file is not blocked and gives it neither red nor, with the drop-yellow flag of the file, yellow; the drop-eligible bit tells whether it was yellow |
| Controller.LongPeriodForwardsOutside | implementation/controller/src/libs/stream_gate_schedule.rs:127-175 | with a period of 2^32 + 4096 ns the controller starts, and the first frame at 2^32 + 500 ns is forwarded although no interval contains its position |
| Controller.StartedSwitchFollowsSchedule | implementation/controller/src/main.rs:280-323 | with distinct gate numbers and ports: after the start sequence and any packets, a control packet hits the gate table iff it is on its port's pipe; it can open (or close) the queue there iff a guarded slice at the time since its port's last period start has state 0 (or another), and strictly inside a slice of the file does what its state says |
| PtpClock.TimestampTracker.Combine | implementation/controller/src/libs/ptp.rs:362-377 | one extension step on the tracker's fields |
| PtpClock.PauseExact | implementation/controller/src/libs/ptp.rs:366-374 | two neighbouring timestamps, in whichever direction, keep their distance iff it is below 2^48 ns modulo 2^64 |
| PtpClock.UnwrapExact | implementation/controller/src/libs/ptp.rs:340-387 | over every run, steps back included, all extended timestamps are off by the same amount iff every pause is below 2^48 ns modulo 2^64 |
| PtpClock.UnwrapIsConstantShift | implementation/controller/src/libs/ptp.rs:340-387 | over every run with short pauses, that amount is one constant number of wraps, modulo 2^64 |
| PtpPacket.DecodeU48 | implementation/controller/src/libs/ptp.rs:525-531 | the loop reads six bytes as a big-endian number |
| PtpPacket.BytesRoundTrip | implementation/controller/src/libs/ptp.rs:1283-1285 | a number written big-endian and read back is unchanged |
| PtpPacket.BuildDelayReqPacket | implementation/controller/src/libs/ptp.rs:1248-1288 | the bytes of the request; nothing iff there is no usable Sync; an abort iff the Sync announces fewer than 44 bytes |
| PtpPacket.DelayReqRoundTrip | implementation/controller/src/libs/ptp.rs:272-321 | the built packet parses as a Delay_Req with the given sequence, zero correction, own identity and port 1, all other header fields of the Sync, and an origin time that recombines to the original nanoseconds |
| PtpPacket.ParseReadsHeader | implementation/controller/src/libs/ptp.rs:272-321 | a header written field by field, requesting port included, parses to the same fields |
| PtpPacket.ParseIgnores | implementation/controller/src/libs/ptp.rs:272-321 | nothing but the low halves of the first two bytes and the bytes of these fields matters |
| PtpPacket.DelayReqKeeps | implementation/controller/src/libs/ptp.rs:1248-1288 | what no header field shows: the control field is 1, and the upper half of the first byte, the ethertype and all further bytes are the Sync's |
| PtpPacket.IdentityOfMac | implementation/controller/src/libs/ptp.rs:556-567 | an identity is the address with one bit flipped and FF FE in the middle; different addresses have different identities |
| PtpExchange.PtpClient.Tick | implementation/controller/src/libs/ptp.rs:712-719 | an expired pending Sync is dropped |
| PtpExchange.PtpClient.ReconstructT2 | implementation/controller/src/libs/ptp.rs:923-931 | a receive time iff the frame carried one, through the tracker |
| PtpExchange.PtpClient.HandleSync | implementation/controller/src/libs/ptp.rs:950-995 | the whole state after a Sync |
| PtpExchange.PtpClient.HandleFollowUp | implementation/controller/src/libs/ptp.rs:997-1049 | the whole state after a Follow_Up, and whether it completed the pending Sync |
| PtpExchange.PtpClient.ReadEgressTimestamp | implementation/controller/src/libs/ptp.rs:1175-1222 | the first of five reads that is valid and new, the last one also if it is old |
| PtpExchange.PtpClient.SendDelayReq | implementation/controller/src/libs/ptp.rs:1130-1246 | the whole state after a transmission, whether or not a capture was taken |
| PtpExchange.PtpClient.HandleDelayResp | implementation/controller/src/libs/ptp.rs:1051-1128 | the whole state after a Delay_Resp, and the emitted sample |
| PtpExchange.StaleCaptureExact | implementation/controller/src/libs/ptp.rs:1180-1203 | for one transmission, the capture taken repeats the previous one iff no earlier read was new and the fifth gave the old one |
| PtpPairing.SamplesStayTogether | implementation/controller/src/libs/ptp.rs:405-428 | over every run: T4 and reverse correction belong to the response to one request of equal sequence, which no other request among the 65535 before and after it has, and T3 is what the register gave for that request; T1 and forward correction belong to one Follow_Up matching a pending Sync; no response, request or Follow_Up serves two samples; T2 is that Sync's own iff it carried one and no later Sync with one came before the response; and the request is that Follow_Up's own iff this one used a capture, or else an earlier one |
| PtpPairing.OneExchangeExact | implementation/controller/src/libs/ptp.rs:950-1128 | over every run, a sample's four times stem from one exchange iff its Sync carried a receive time, its Follow_Up's request used a capture, and no Sync with a receive time came between Follow_Up and response |
| PtpPairing.MonitorPtp | implementation/controller/src/libs/ptp.rs:710-767 | the client class on a sequence of events has the state and emits the samples of the run the lemmas speak of |
| PtpPairing.RequestNumbers | implementation/controller/src/libs/ptp.rs:1130-1246 | over every run, the number of a later request is that of an earlier one plus the requests between, modulo 2^16, and the first is 1; so two are equal iff a multiple of 2^16 requests lies between |
| PtpProgress.AcceptedExactly | implementation/controller/src/libs/ptp.rs:997-1049 | over every run, a Follow_Up is accepted iff the last Sync is two-step, not yet followed up or expired, and has its number and source |
| PtpProgress.RequestsExactly | implementation/controller/src/libs/ptp.rs:1130-1170 | an accepted Follow_Up sends a request iff the packet can be built and sent and some Sync of the run carried a receive time |
| PtpProgress.TemplateIsLastSync | implementation/controller/src/libs/ptp.rs:950-995 | over every run, the stored header, from which requests are built, is that of the last Sync, one-step or two-step |
| PtpProgress.EmitsExactly | implementation/controller/src/libs/ptp.rs:1051-1128 | over every run, a sample is emitted iff a Delay_Resp for this clock or for none answers the last request since the last sample for which a capture was taken, and a receive time came in since then |
| PtpCaptures.RepeatsExact | implementation/controller/src/libs/ptp.rs:1180-1222 | over every run, a request uses the capture used last before it iff no earlier read was new and the fifth gave that one |
| PtpCaptures.PicksExactly | implementation/controller/src/libs/ptp.rs:1175-1222 | a capture is taken iff some read is valid and new, or the fifth one is valid |
| PtpCaptures.CapturesUsedOnce | implementation/controller/src/libs/ptp.rs:1224-1244 | over every run with rising register numbers, two samples use the same capture iff all requests after the first one's up to the second one's repeat |
| PtpCaptures.FreshReadsDistinctCaptures | implementation/controller/src/libs/ptp.rs:1185-1205 | if no request reads stale, the captures of all samples are distinct and rise |
| PtpCaptures.OwnCaptureExact | implementation/controller/src/libs/ptp.rs:1171-1203 | over every run, T3 is the request's own capture iff some read shows it and every valid read before still shows the capture used last |
| PtpCaptures.StaleCaptureUsedTwice | implementation/controller/src/libs/ptp.rs:1196-1205 | a run whose two samples carry the same captured send time |
| PtpCaptures.HalvesOfTwoExchanges | implementation/controller/src/libs/ptp.rs:1224-1244 | a run whose sample has T1 and T2 of the second exchange, T3 and T4 of the first |
| PtpRunClock.RunClockExact | implementation/controller/src/libs/ptp.rs:923-931 | over every run, all T2 and T3 are off from true time by the same amount iff, from each handled timestamp to the next, true time advances by less than 2^48 ns modulo 2^64 |
| PtpRunClock.SampleTimesAgree | implementation/controller/src/libs/ptp.rs:1224-1234 | then T2 and T3 of every sample lie as far apart as the true receive and send times |
| PtpRunClock.OlderStampJumpsWrap | implementation/controller/src/libs/ptp.rs:362-377 | a timestamp older than the one handled before it, as a stale send time is, is stored 2^48 ns too late |
| PtpRunClock.StaleSendTimeJumps | implementation/controller/src/libs/ptp.rs:362-377 | a run with a stale send time after a newer receive time: T3 is a wrap ahead of T2, and the times are not on one clock |
| PtpServo.OffsetHistory.Push | implementation/controller/src/libs/ptp.rs:45-50 | a full history forgets its oldest value |
| PtpServo.OffsetHistory.GetAverage | implementation/controller/src/libs/ptp.rs:52-58 | the mean of the specification, aborting iff the running sum leaves 64 bits |
| PtpServo.ClockServo.ProcessServoSample | implementation/controller/src/libs/ptp.rs:1290-1392 | the whole servo state after a sample |
| PtpServo.ClockServo.AdjustSlaveClock | implementation/controller/src/libs/ptp.rs:1394-1472 | correction, history, increment and status, for a successful and a failed write; aborts iff a checked operation overflows |
| PtpServo.OffsetMeasures | implementation/controller/src/libs/ptp.rs:1313-1324 | the offset is wrong by half the path asymmetry, rounded; on a symmetric path offset, delay and master time are exact |
| PtpServo.ServoInvariant | implementation/controller/src/libs/ptp.rs:1404-1445 | over every run, the correction is minus the sum of the offsets written, the history holds the last three, and the increment drifted at most 50 per written offset |
| PtpServo.StepSteersAgainstMean | implementation/controller/src/libs/ptp.rs:1420-1445 | a written sample steers by 1 to 50 against the sign of the mean; base and outlier samples and failed writes change none of the three |
| PtpServo.MeanExact | implementation/controller/src/libs/ptp.rs:52-58 | the mean a of n values with sum S has n * abs(a) <= abs(S) < n * (abs(a) + 1), and the sign of S unless it is 0 |
| PtpServo.RunSteersAgainstSum | implementation/controller/src/libs/ptp.rs:1420-1445 | over every run, a written sample whose last three written offsets add up to less than their number, in size, does not steer; otherwise it steers by 1 to 50 against the sign of that sum, by the step for the mean's size |
| PtpServo.WrittenExactly | implementation/controller/src/libs/ptp.rs:1326-1392 | over every run, a sample is written iff the write succeeds, it is not the base, and fewer than 100 samples besides the base came before or its offset is at most 150 ns; its offset is the raw one less the base |
| PtpServo.PublishedExactly | implementation/controller/src/libs/ptp.rs:1456-1468 | over every run, exactly the written samples publish a state: Synchronized iff less than 100 ns off, with the offset reduced to 64 bits and the estimate of the master's time |
| PtpServo.BaseSetOnce | implementation/controller/src/libs/ptp.rs:1326-1336 | a base, once set, is kept for the rest of the run |
| PtpServo.BaseExact | implementation/controller/src/libs/ptp.rs:1326-1336 | over every run, the base is the raw offset of the first sample more than a second off, and all other samples have been counted |
| PtpServo.AbortsExactly | implementation/controller/src/libs/ptp.rs:1326-1472 | over every run, a sample aborts the servo iff it is not the base and the sample counter is exhausted or, unless it is an outlier, the sum of all written offsets leaves 64 bits or, when the write succeeds, a partial sum of the last three does, their mean is -2^63, or the increment leaves 32 bits |
| PtpServo.AdjustmentExact | implementation/controller/src/libs/ptp.rs:1428-1439 | the step follows the size of the mean iff the mean is at most 1000 ns or its low 32 bits lie between 1000 and 2^31; below 2^31 ns always |
| PtpServo.JumpIsSteeredByOne | implementation/controller/src/libs/ptp.rs:1428-1439 | a run of two samples that reaches a mean of 2^32 ns and is steered by 1 |
| PtpServo.ProcessSamples | implementation/controller/src/libs/ptp.rs:1290-1392 | the servo class on a sequence of samples ends in the state of the run the lemmas speak of, and stops iff that run aborts |
| PtpActivation.TargetExact | implementation/controller/src/libs/ptp.rs:1474-1477 | the target is the given decimal time plus two minutes iff the fraction has nine digits or is 0 |
| PtpActivation.HalfSecondLost | implementation/controller/src/libs/ptp.rs:1474-1477 | "1.5" is read as one second and five nanoseconds |
| PtpActivation.TimeReadable | implementation/controller/src/libs/ptp.rs:1474-1477 | exactly those texts are read that are two numbers around a point, a plus sign allowed before each, whose target fits 64 bits |
| PtpActivation.ActivateAt | implementation/controller/src/libs/ptp.rs:1479-1498 | the task from the configured text on; a text without two numbers around a point, or an overflow, ends it without enabling |
| PtpActivation.SpinUntil | implementation/controller/src/libs/ptp.rs:1508-1518 | the nested spin loops end at the reading the specification names |
| PtpActivation.WaitForPtpSyncAndEnablePktgen | implementation/controller/src/libs/ptp.rs:1498-1592 | the loop's result, and that the generator is enabled at most once, exactly when it ends that way |
| PtpActivation.DeadlineIsCurrent | implementation/controller/src/libs/ptp.rs:1546-1581 | while waiting, the deadline is that of the last consumed status, and any other status has cancelled it |
| PtpActivation.EnabledOnTime | implementation/controller/src/libs/ptp.rs:1564-1590 | enabling needs a last status Synchronized whose time, plus the local time since, reaches the target |
| PtpActivation.EnabledEventually | implementation/controller/src/libs/ptp.rs:1506-1529 | when that deadline passes after the wake-up, the generator is enabled |
| PtpActivation.ReactsToStatus | implementation/controller/src/libs/ptp.rs:1546-1592 | while waiting, a Synchronized status at or past the target enables at once, any other only sets or cancels the deadline, and a closed channel ends the task |
| PtpActivation.Finished | implementation/controller/src/libs/ptp.rs:1528-1535 | after the task has ended, no event enables the generator again |
| PtpLink.EnabledAfterGoodSample | implementation/controller/src/libs/ptp.rs:1456-1468 | over every run of servo and loop, the generator is enabled only if the last status consumed was published for a written sample less than 100 ns off, and on time |

## Left out

- Octet accounting of the stream gate: it reads a header that no parser state extracts; its verdict is an input of the frame.
- The two-rate meter and transparent-clock hardware: not in the code; meter colours are inputs.
- DataPlane.FlowMeterControl.Apply: counters are unbounded, the switch's wrap at 2^32 packets; counting with a number beyond the 512 counters is taken to have no effect.
- DataPlaneRuns.RunPipeline: the registers are those of one pipe, and all packets of a run pass through it.
- TimeAwareShaper.ControlPacketActsOnSchedule: the flow-control word is kept as the values it is built from; its bit layout (`afc.rs`) is not modelled.
- Controller.Start: reading and parsing the configuration file, failing remote calls, and the background tasks are left out; the queue maps of the switch are inputs.
- DataPlaneRuns.ForwardedFramesMetOpenGate: gate and meter numbers outside the register sizes are excluded, because the hardware's behaviour there is not defined by the code. Which identification row a frame hits is an input of the frame; streams whose handle names no gate of the file are the subject of DataPlaneRuns.ForwardedOnlyThroughGates.
- PtpPairing.SamplesStayTogether: T3 is traced to the register content read for the request; when that is an older capture is the subject of `PtpCaptures`.
- PtpExchange.PtpClient.SendDelayReq: an abort while building the packet counts as nothing sent, since no event follows it.
- Frame filters of the PTP client (ethertype, version, domain, truncated frames): straight-line checks before the handlers.
- Queue-state, dequeue and clock-drift registers, digests and period counters: diagnostics only.
- `make_equal_psfp_intervals` and the PSFP counts of the evaluation program, and `write_schedule`: they repeat modelled code.
- Table and register RPCs, Thrift, sockets, logging, port setup, L2 forwarding, P4 parsers and deparsers, the measurement program, `StreamFilter.p4` (not part of the pipeline).
