# Verified model of the stepper firmware

The repository is firmware for an RP2350 board: core1 plans stepper moves and feeds a PIO program that makes the
STEP pulses, core0 runs a network stack over a LAN9250 Ethernet chip with IEEE 1588 timestamping, and the two
cores talk over a word mailbox. This project models the parts that hold state or arithmetic and proves what they
promise. `dafny verify dfyconfig.toml` checks everything.

| file | what it models |
|---|---|
| `Planner.dfy` | squared-speed motion planner of core1 |
| `StepTiming.dfy` | half-period words and the pulse period they make |
| `Pio.dfy` | the six-instruction PIO program, one instruction per cycle |
| `Pipeline.dfy` | planner, 4-word FIFO and PIO program together, under any interleaving |
| `Core1.dfy` | core1's program, updating its motion record in place |
| `MailboxProto.dfy`, `Mailbox.dfy` | the mailbox words; shell client, core0 interrupt and core1 main loop, step by step |
| `System.dfy` | all of these as one system: its runs are runs of the pipeline, and every move comes to its end |
| `PtpHeader.dfy` | recognising PTP frames |
| `SlotTable.dfy`, `Matcher.dfy`, `MatcherChecks.dfy`, `MatcherFates.dfy`, `MatcherTheorems.dfy`, `MatcherDriver.dfy` | joining received frames with captured timestamps: tables, specification, what one check does, what becomes of a frame or capture, theorems over runs, and the driver's in-place form |
| `BankLock.dfy` | receive and transmit threads over the bank-selected registers |
| `RxFraming.dfy` | reading frames out of the receive FIFOs |
| `Crc.dfy`, `CrcWords.dfy`, `HashFilter.dfy` | the multicast hash: CRC on bits and on 32-bit numbers, reference counts, filter registers |
| `PtpClock.dfy` | stepping and trimming the 1588 clock |

Conventions. Real arithmetic is exact. The planner only ever squares the speed it carries, so the model carries the
square; `StepTiming.StepWordIsHalfPeriod` shows that this pushes the words the program computes from the speed.
A record or table that the code updates in place is a class; its methods are tied to a function of the old state,
and the theorems are about that function on every run. Fields marked as history in a state's comment are not the
program's: they record what happened so that a theorem can speak of it.

What the proofs found:

* The design note says a move reaches `MIN_SPEED_HZ` on its last step (THEORY_OF_OPERATION.md:269-273). It does so
  if and only if the ramps meet (`Planner.LastStepExact`), always with equal rates or if it cruises at all; accel 3,
  decel 2 and four steps is a counterexample. In general the last step is less than one acceleration step too
  fast. The note also gives the brake test without the `+ 1.0` that the code has.
* `lan9250_rx` reads the status word even after it found the status count zero. A frame arriving between the two
  reads loses its status word while its data stays, and the reader is out of step from then on: a run leaves it in
  step if and only if no call met that race (`RxFraming.RunInStepIff`). The next frame of the same length is then
  delivered as the bytes of the lost one (`RxFraming.StaleFrame`). A transfer that fails between the status word and
  the last byte of its frame does the same (`RxFraming.CutShortInStepIff`).
* An eight-bit reference count of the hash filter wraps at the 256th group in one bin (`HashFilter.JoinExactIff`):
  after 256 joins of one group its frames are no longer let through (`HashFilter.JoinsWrap`).
* Leaving a group that was never joined takes a reference from others in its bin (`HashFilter.StrayLeaveIff`).
  Addresses that differ by 0x41 in the last byte share a bin, 01:00:5e:00:00:01 and 01:00:5e:00:00:40 among them:
  joining one and leaving the other cuts off the joined one (`HashFilter.StrayLeaveDoesHarm`).
* A move of INT32_MIN steps negates a number whose negative is no int32, undefined in C. Where the negation wraps,
  the move is accepted and makes no step (`Planner.MinimumMoveMakesNoStep`).
* The comment of `stepper.pio` promises a 50 % duty cycle; STEP is high for h+2 and low for h+4 cycles
  (`Pio.EdgeSpacing`). The period 2h+6 is as promised.
* The design note gives 4 slots for the matcher's tables; the code, and the model, have 16.

## Model

| member | source | states |
|---|---|---|
| Planner.CommandKeepsValid | core1/core1_main.c:291-343 | a speed, accel, decel, move or stop command keeps the settings and the motion record in range, if and only if it does not start a move of INT32_MIN steps |
| Planner.SpeedIsTaken | core1/core1_main.c:292-302 | a speed in range is taken as it is, any other as the nearest in range, and nothing else changes |
| Planner.RatesAreTaken | core1/core1_main.c:303-322 | a rate in range is taken as it is, any other as the default, and nothing else changes |
| Planner.MinimumMoveMakesNoStep | core1/core1_main.c:239-258 | where the negation of INT32_MIN wraps, that move is accepted and ends without a step |
| Planner.FeedKeepsValid | core1/core1_main.c:196-237 | every pushed speed lies between MIN_SPEED_HZ and ABS_MAX_SPEED, whatever was commanded in between |
| Planner.BrakeDueExact | core1/core1_main.c:204-207 | the saturating float-to-int brake test decides as exact arithmetic would: braking is due iff the speed is on or above the ramp to MIN_SPEED_HZ over the steps left |
| Planner.StepPushes | core1/core1_main.c:196-237 | what a step pushes in every valid motion, one faster than a maximum just lowered included: on or above the ramp to MIN_SPEED_HZ it brakes, below it it takes an acceleration step cut off at the maximum |
| Planner.StepEnds | core1/core1_main.c:220-231 | with a stop requested or no step left the move ends at once, and an idle motion stays as it is |
| Planner.FeedAllIsProfile | core1/core1_main.c:220-237 | an undisturbed move pushes exactly its profile, one speed per step, and ends idle with nothing remaining |
| Planner.BrakeAbsorbs | core1/core1_main.c:204-211 | once braking is due it stays due to the end of the move |
| Planner.ProfileShape | core1/core1_main.c:196-218 | from any speed the phases of a move of any length are accelerate*, cruise*, brake* |
| Planner.SpeedChangedOnTheWay | core1/core1_main.c:196-218 | after a speed command in the middle of a move the rest of it is the profile from the speed it had; of its steps only braking ones exceed the new maximum, and cruising ones are at it |
| Planner.ProfileSlew | core1/core1_main.c:207-217 | from step to step the squared speed rises by at most 2*accel and falls by at most 2*decel |
| Planner.LastSpeedClosedForm | core1/core1_main.c:196-218 | the squared speed of the last step in closed form, from the settings and the step count |
| Planner.LastStepAccuracy | THEORY_OF_OPERATION.md:269-273 | the last step is slower than one acceleration step above MIN_SPEED_HZ |
| Planner.LastStepExact | THEORY_OF_OPERATION.md:269-273 | the move ends exactly at MIN_SPEED_HZ if and only if the ramps meet |
| Planner.SymmetricMoveIsExact | THEORY_OF_OPERATION.md:269-273 | with equal rates every move ends at MIN_SPEED_HZ |
| Planner.CruisedMoveIsExact | THEORY_OF_OPERATION.md:269-273 | a move with any step at cruising speed ends at MIN_SPEED_HZ |
| Planner.LastStepNotAlwaysMinimum | THEORY_OF_OPERATION.md:269-273 | concrete settings and step count for which the note's claim fails |
| StepTiming.StepWordIsHalfPeriod | core1/core1_main.c:160-165 | the word computed from the squared speed is the program's half period of the speed |
| StepTiming.StepWordRange | core1/core1_main.c:160-175 | words for speeds in range are 465 to 1499997 |
| StepTiming.PeriodTracksSpeed | core1/stepper.pio:10-14 | the pulse period 2h+6 is at most one period of the requested speed and less than two cycles short of it |
| Pio.TickKeepsValid | core1/stepper.pio:34-43 | STEP is high exactly from the first mov x to the end of the high loop, and rises only there |
| Pio.StateMachine.Execute | core1/stepper.pio:34-43 | one instruction in place, its side-set and its jump included |
| Pio.StateMachine.Pulse | core1/stepper.pio:34-43 | from the pull of word h to the next pull the program executes 2h+6 instructions, one per cycle, h+2 of them with STEP high |
| Pio.PulseTrace | core1/stepper.pio:35-42 | the machine's state cycle by cycle from a rising edge on, stalled pulls included |
| Pio.EdgeSpacing | core1/stepper.pio:35-42 | consecutive rising edges are exactly 2h+6 cycles apart plus the cycles the pull waited, with no edge in between, and the next pulse is that of the word pulled |
| Pipeline.NextKeepsValid | core1/core1_main.c:220-258 | every feed, command and PIO cycle keeps the pipeline invariant |
| Pipeline.Conservation | core1/core1_main.c:220-258 | on every run the pulses, the word in hand and the FIFO are what was pushed, in order; pushed plus remaining is the move; a drained unstopped move has emitted exactly its steps, an undisturbed one exactly its planned words |
| Pipeline.StopIsFinal | core1/core1_main.c:226-231 | once stop is requested nothing is pushed until another move, so no more pulses come out than were pushed by then |
| Pipeline.StopTakesEffect | core1/core1_main.c:336-342 | the same from the moment the STOP command is handled: nothing more is pushed, and no pulses come out beyond those pushed by then |
| Pipeline.SpeedCommandHolds | core1/core1_main.c:196-218 | on every run from a speed command on, a step not braking is within the new maximum, and a motion not below it pushes exactly the half period of the new maximum |
| Pipeline.SmRunsFreely | core1/core1_main.c:386-395 | feeding and commands never disturb the PIO program, so the edge spacing holds in every interleaving |
| Pipeline.PulseSpacing | core1/stepper.pio:34-43 | on every run the rising edges of consecutive pulses are exactly 2h+6 cycles apart, h the word of the first, plus the cycles the FIFO was empty at the pull |
| Core1.PumpFillsOrIdles | core1/core1_main.c:387-393 | the inner loop ends with the FIFO full or the motion idle, and pushes one word per step taken off the move |
| Core1.PumpIsRunOfFeeds | core1/core1_main.c:387-393 | the inner loop is a run of feed events of the pipeline, which the theorems on runs are about |
| Core1.Machine.FeedOne | core1/core1_main.c:220-237 | `feed_step` in place: new motion record and FIFO |
| Core1.Machine.Start | core1/core1_main.c:239-258 | `motion_start` in place, direction output included |
| Core1.Machine.Pump | core1/core1_main.c:387-393 | the feeding loop in place |
| Core1.Machine.HandleCommand | core1/core1_main.c:283-375 | each known command waits for its payload word, is executed once and answered with one word; unknown ones are dropped unanswered; the direction output changes with an accepted move alone, to its sign |
| MailboxProto.Int32RoundTrip | core1/core1_main.c:325-364 | a step count survives its trip through a mailbox word |
| MailboxProto.MoveReply | core1/core1_main.c:324-335 | a move is refused exactly while another is under way and then changes nothing; an accepted one is under way from MIN_SPEED_HZ with all its steps remaining |
| MailboxProto.SettingIsEchoed | core1/core1_main.c:291-323 | a setting in range is in force as sent, and the reply is the word sent |
| MailboxProto.SettingIsReplaced | core1/core1_main.c:291-323 | one out of range is replaced by the nearest speed or the default rate, and the reply says so |
| MailboxProto.StatusReports | core1/core1_main.c:343-370 | a status query changes nothing, and each field says what it is named for |
| MailboxProto.StopReply | core1/core1_main.c:336-342 | a stop is acknowledged, and pending afterwards exactly if a move was under way |
| Mailbox.CommandIsObeyed | core1/core1_main.c:283-375 | once a command and its payload are in, core1 does what they say and answers with the reply to it |
| Mailbox.StepKeepsValid | src/stepper_shell.c:22-100 | every interleaving of client, interrupt, core1 and PIO keeps the protocol invariant |
| Mailbox.RoundTripSafety | core1/mailbox_proto.h:1-24 | on every run no word is discarded, at most one reply word is in flight, requests never meet a full FIFO, core1 serves the requests issued, in order, and each round trip returned the reply to its own request |
| Mailbox.RoundTripReturns | src/stepper_shell.c:61-100 | a completed round trip returns its own reply, and what it says still holds: the setting is in force, the move is the latest, the stop is requested, no more steps remain than reported |
| Mailbox.MoveIsCarriedOut | src/stepper_shell.c:157-178 | when the shell was told a move is accepted, the idle and drained pipeline has made exactly the steps asked for, unless stopped |
| Mailbox.BurstKeepsOnlyFirst | core1/mailbox_proto.h:5-15 | of a burst of reply words the interrupt delivers the first and loses all others |
| Mailbox.StepProgress | core1/core1_main.c:386-395 | no step sets an outstanding round trip back, and some party's next step always brings it forward |
| Mailbox.LoopProgress | core1/core1_main.c:386-395 | core1's feed loop reaches a full FIFO or the end of the move, and then it polls |
| Mailbox.RoundTripCompletes | src/stepper_shell.c:61-100 | every started round trip completes within a bounded number of fair rounds |
| Mailbox.MeasureBound | core1/core1_main.c:386-395 | that bound is at most the steps left of the current move plus 16 |
| System.RunIsPipeRun | core1/core1_main.c:383-397 | the pipeline of every run of the whole system is a run of the pipeline, with the event each step makes |
| System.SystemPulseSpacing | core1/stepper.pio:34-43 | so the pulse spacing of `Pipeline.PulseSpacing` holds on every run of the system |
| System.StopFromTheShell | core1/core1_main.c:336-342 | once the shell was told a stop is accepted, and until another move is asked for, no pulses come out beyond those pushed by then |
| System.StepOnward | core1/core1_main.c:383-397 | no step of any party adds to the work left of a move, and at each point one party's next step is sure to take some off |
| System.MoveCompletes | core1/core1_main.c:220-237 | every move ends with the motion idle, the pipeline drained and, unless stopped, its steps made, within as many rounds as there is work, whatever else the shell asks for |
| System.ShellMoveIsMade | src/stepper_shell.c:157-178 | the same from the moment the shell was told that the move is accepted |
| System.AcceptedMoveIsMade | core1/core1_main.c:324-335 | from the command on, with that bound in the step count and the words queued |
| PtpHeader.ParseTruncated | drivers/eth_lan9250/eth_lan9250.c:1844-1873 | the first 128 bytes of a frame decide how it parses |
| PtpHeader.ParseLayer2 | drivers/eth_lan9250/eth_lan9250.c:1672-1714 | an Ethernet PTP frame parses back to its messageType and sequenceId |
| PtpHeader.ParseUdp | drivers/eth_lan9250/eth_lan9250.c:1676-1714 | an IPv4/UDP PTP frame with any header length parses back to its messageType and sequenceId |
| PtpHeader.ParseIff | drivers/eth_lan9250/eth_lan9250.c:1662-1715 | a frame yields a key if and only if it is built around a PTP header with that key in one of the two ways |
| PtpHeader.HeaderRoundTrip | drivers/eth_lan9250/eth_lan9250.c:1672-1714 | every messageType and sequenceId survives framing and parsing, whatever the other fields |
| PtpHeader.UdpRoundTrip | drivers/eth_lan9250/eth_lan9250.c:1676-1714 | the same over IPv4 and UDP, with any header length, to port 319 or 320 |
| SlotTable.LookUp | drivers/eth_lan9250/eth_lan9250.c:1890-1905 | the search loop finds the first slot with the key |
| SlotTable.LookFree | drivers/eth_lan9250/eth_lan9250.c:2021-2026 | the search loop finds the first free slot |
| SlotTable.LookSoonest | drivers/eth_lan9250/eth_lan9250.c:2037-2042 | the search loop finds the first slot with the soonest deadline |
| MatcherDriver.RxTimestamps.ExpireTables | drivers/eth_lan9250/eth_lan9250.c:1757-1782 | `lan9250_1588_rx_pending_expire` in place |
| MatcherDriver.RxTimestamps.StashHead | drivers/eth_lan9250/eth_lan9250.c:1976-2014 | an unmatched capture is filed in a free slot or that of the soonest deadline |
| MatcherDriver.RxTimestamps.EnqueuePacket | drivers/eth_lan9250/eth_lan9250.c:2017-2063 | a timestamped frame without a capture is referenced and filed, evicting if need be |
| MatcherDriver.RxTimestamps.RxTimestampCheck | drivers/eth_lan9250/eth_lan9250.c:1840-2066 | `lan9250_1588_rx_timestamp_check` in place, the early exits on a failed bank select or register read included |
| Matcher.NextValid | drivers/eth_lan9250/eth_lan9250.c:1840-2066 | every receive, failed allocation, capture and reference change keeps the matcher invariant, duplicate keys, expiry and eviction included |
| Matcher.ExpireEffect | drivers/eth_lan9250/eth_lan9250.c:1757-1782 | expiry frees exactly the slots whose deadline has passed |
| MatcherChecks.ReceiveOutcome | drivers/eth_lan9250/eth_lan9250.c:1840-2066 | what a check does in each of its four cases: a capture held for the frame is stamped on it; with nothing queued or readable the frame waits; the head of the queue is its own and is stamped; or the head is drained, onto the first packet pending under its key or to be held, and the frame waits |
| MatcherChecks.OtherFramesPass | drivers/eth_lan9250/eth_lan9250.c:1871-1873 | a frame not recognised as PTP changes nothing |
| MatcherChecks.QueueIsDrained | drivers/eth_lan9250/eth_lan9250.c:1911-1943 | after as many checks that reach the registers as there are captures queued, each of these has been drained |
| MatcherChecks.FrameStays | drivers/eth_lan9250/eth_lan9250.c:1757-1782 | a packet held stays in its slot until it is stamped, its deadline has passed or the table is full |
| MatcherChecks.CaptureStays | drivers/eth_lan9250/eth_lan9250.c:1757-1782 | the same for a capture held |
| MatcherFates.FrameFates | drivers/eth_lan9250/eth_lan9250.c:1757-2063 | in every step a filed frame stays filed, is stamped, or is given up because its deadline has passed or because it is an oldest one and the table is full, at the eviction inside a check too; every other fate is final |
| MatcherFates.CaptureFates | drivers/eth_lan9250/eth_lan9250.c:1757-2015 | the same for captures, which leave the hardware queue only by being filed or stamped |
| MatcherTheorems.StampSafety | drivers/eth_lan9250/eth_lan9250.c:1883-2063 | on every run no key is live in both tables, a capture stamps at most one packet, a packet is stamped at most once, and the keys agree |
| MatcherTheorems.JoinOrLoss | drivers/eth_lan9250/eth_lan9250.c:1784-1839 | with unique keys a seen frame and its drained capture are joined, unless expiry or eviction gave one of them up |
| MatcherTheorems.MatcherIsJoin | drivers/eth_lan9250/eth_lan9250.c:1784-1839 | with nothing given up the matcher is a key join in every interleaving: stamped is seen and drained, pending is seen minus drained, unclaimed is drained minus seen |
| MatcherTheorems.LossHasCause | drivers/eth_lan9250/eth_lan9250.c:1757-1782 | a step gives up a frame or capture only when a deadline has passed or a table is full |
| MatcherTheorems.UnpressedRunIsJoin | drivers/eth_lan9250/eth_lan9250.c:1784-1839 | a run that meets no passed deadline and no full table gives up nothing, so with unique keys it is that join |
| MatcherTheorems.ReferencesConserved | drivers/eth_lan9250/eth_lan9250.c:1966-2049 | on every run a packet's references are those of others plus the slots naming it, and the matcher holds as many in all as slots are taken, of 16 |
| MatcherTheorems.CheckShape | drivers/eth_lan9250/eth_lan9250.c:1911-1974 | a check drains at most one capture and stamps at most one packet, its own or one pending since before |
| MatcherTheorems.StampedIsReferenced | drivers/eth_lan9250/eth_lan9250.c:1957-1970 | a packet the check stamps is still referenced |
| MatcherTheorems.ReleasesExactlyOne | drivers/eth_lan9250/eth_lan9250.c:1766-2049 | a filed packet that a step stamps or gives up, by match, expiry or eviction, loses exactly one reference; no other earlier packet gains or loses any |
| MatcherTheorems.NoBufferReleasesAll | drivers/eth_lan9250/eth_lan9250.c:763-784 | a receive that finds no buffer two seconds after the last packet was held lets go of every packet |
| MatcherTheorems.DeadlinesBounded | drivers/eth_lan9250/eth_lan9250.c:1992-2046 | on every run no live deadline is more than 2000 ms ahead, and in a full table the soonest deadline is an oldest entry's |
| BankLock.BankExclusion | drivers/eth_lan9250/eth_lan9250.c:1911-1944 | in every interleaving each banked read is made with its own bank selected, the three words read are of the capture then acknowledged, and one thread at most is inside |
| BankLock.LockIsReleased | drivers/eth_lan9250/eth_lan9250.c:2121-2195 | whatever transfer fails, a thread that took the lock releases it within 20 of its own steps, the polling sleeps included |
| BankLock.TransmitStamps | drivers/eth_lan9250/eth_lan9250.c:2157-2191 | in every interleaving a transmit thread past its matching has stamped its packet if and only if it has read a whole capture with that packet's header: once, with that capture |
| BankLock.FoundIsTaken | drivers/eth_lan9250/eth_lan9250.c:2121-2195 | a thread that looks when a capture is queued, and whose transfers succeed, reads that capture and has it dropped; it stamps its packet if and only if the capture is of that packet |
| BankLock.CapturesConserved | drivers/eth_lan9250/eth_lan9250.c:1939-1943 | the captures acknowledged are, in order, the first of those captured, and the rest is still queued |
| BankLock.LooksFiveTimes | drivers/eth_lan9250/eth_lan9250.c:2126-2137 | a transmit thread that finds nothing looks five times |
| RxFraming.EndPadIsPadding | drivers/eth_lan9250/eth_lan9250.c:745-755 | the padding the driver reads is what makes offset, frame and padding a multiple of four |
| RxFraming.Receiver.Discard | drivers/eth_lan9250/eth_lan9250.c:810-817 | the drop path clocks out exactly the frame's bytes, fewer only if a transfer fails |
| RxFraming.Receiver.ReadFrame | drivers/eth_lan9250/eth_lan9250.c:824-843 | the success path reads the frame, buffer by buffer, or fails |
| RxFraming.Receiver.Receive | drivers/eth_lan9250/eth_lan9250.c:697-862 | `lan9250_rx` on the two FIFOs, whatever transfer fails: a packet is delivered only as without a failure, and otherwise at most a status word and bytes of its frame are gone |
| RxFraming.ChunksFlatten | drivers/eth_lan9250/eth_lan9250.c:826-843 | the buffers of a packet put together are the bytes read, and they are as many as an allocation of that length provides |
| RxFraming.CallConsumesOne | drivers/eth_lan9250/eth_lan9250.c:727-850 | a call that saw a frame consumes exactly that frame and delivers its bytes, or drops it |
| RxFraming.InStepIff | drivers/eth_lan9250/eth_lan9250.c:709-725 | a call leaves the reader in step if and only if no frame arrives between its finding the count zero and its reading the status word |
| RxFraming.StreamStaysInStep | drivers/eth_lan9250/eth_lan9250.c:697-862 | over any run without that race, with frames arriving at any time and any mix of allocation failures, every frame is consumed whole, and those delivered are the right ones, in order, byte for byte |
| RxFraming.RunInStepIff | drivers/eth_lan9250/eth_lan9250.c:709-725 | a run leaves the reader in step if and only if none of its calls met that race |
| RxFraming.OutOfStepForGood | drivers/eth_lan9250/eth_lan9250.c:786-793 | with data left over no run of calls brings the reader back into step |
| RxFraming.CutShortInStepIff | drivers/eth_lan9250/eth_lan9250.c:727-862 | a call that a failure ends leaves the reader in step if and only if it took a status word with all of its frame's bytes, or nothing |
| RxFraming.StaleFrame | drivers/eth_lan9250/eth_lan9250.c:786-793 | after a race the next frame of the same length is delivered as the bytes of the lost one |
| RxFraming.RaceHappens | drivers/eth_lan9250/eth_lan9250.c:709-725 | a frame of 60 bytes that arrives in the middle of a call is an example of the race |
| Crc.EtherCrc | drivers/eth_lan9250/eth_lan9250.c:1042-1056 | the two loops compute the register after the address bits in the order of transmission |
| Crc.PolynomialDigits | drivers/eth_lan9250/eth_lan9250.c:1050 | the constant has the digits EDB88320 |
| Crc.PolynomialIsGenerator | drivers/eth_lan9250/eth_lan9250.c:1029-1035 | the constant is the generator of section 3.2.9 of IEEE 802.3, reflected |
| Crc.CrcDivides | drivers/eth_lan9250/eth_lan9250.c:1044-1053 | the register is a remainder of division by the generator |
| Crc.RemainderIsUnique | drivers/eth_lan9250/eth_lan9250.c:1042-1056 | there is only one such remainder |
| Crc.EtherCrcIsRemainder | drivers/eth_lan9250/eth_lan9250.c:1042-1056 | for every address the register holds exactly the remainder of the address, first 32 bits complemented, times x^32 |
| Crc.CrcAffine | drivers/eth_lan9250/eth_lan9250.c:1042-1056 | the CRC map is affine over exclusive or |
| Crc.EtherCrcAffine | drivers/eth_lan9250/eth_lan9250.c:1042-1056 | the same for addresses |
| CrcWords.EtherCrcIsNumber | drivers/eth_lan9250/eth_lan9250.c:1042-1056 | the register is the binary form of what the same two loops compute on 32-bit numbers |
| CrcWords.HashBitIsShift | drivers/eth_lan9250/eth_lan9250.c:1062-1065 | the bin is that number shifted right by 26 |
| CrcWords.HashBitParts | drivers/eth_lan9250/eth_lan9250.c:1034-1039 | the bin is bit 31 of the register followed by bits 30:26 |
| Crc.SameBinIff | drivers/eth_lan9250/eth_lan9250.c:1062-1065 | whether two addresses share a bin depends on their exclusive or alone |
| Crc.LastByteCollision | drivers/eth_lan9250/eth_lan9250.c:1042-1065 | addresses that differ by 0x41 in the last byte share a bin |
| HashFilter.SupportedIff | drivers/eth_lan9250/eth_lan9250.c:1157-1180 | the addresses filtered are destinations whose first bit on the wire, the group bit, is set |
| HashFilter.MulticastFilter.HashWrite | drivers/eth_lan9250/eth_lan9250.c:1070-1094 | HASHH:HASHL show exactly the bins with a reference |
| HashFilter.MulticastFilter.SetFilter | drivers/eth_lan9250/eth_lan9250.c:1157-1205 | joins and leaves count in their bin, the registers follow, and other addresses are refused |
| HashFilter.JoinExactIff | drivers/eth_lan9250/eth_lan9250.c:1188-1189 | a join keeps the counts exact if and only if its bin has fewer than 255 groups |
| HashFilter.JoinsWrap | drivers/eth_lan9250/eth_lan9250.c:1188-1189 | n joins of one group are counted exactly if and only if n < 256, and its frames are let through if and only if 256 does not divide n |
| HashFilter.LeaveIsExact | drivers/eth_lan9250/eth_lan9250.c:1190-1199 | leaving a joined group keeps the counts exact |
| HashFilter.StrayLeaveIff | drivers/eth_lan9250/eth_lan9250.c:1190-1199 | leaving a group that was never joined does no harm if and only if no joined group shares its bin |
| HashFilter.StrayLeaveCutsOffIff | drivers/eth_lan9250/eth_lan9250.c:1190-1199 | after joining one group and leaving another the first is let through if and only if their bins differ |
| HashFilter.StrayLeaveDoesHarm | drivers/eth_lan9250/eth_lan9250.c:1190-1199 | it is cut off whenever the two differ by 0x41 in the last byte |
| HashFilter.NeighboursShareABin | drivers/eth_lan9250/eth_lan9250.c:1062-1065 | 01:00:5e:00:00:01 and 01:00:5e:00:00:40 are such a pair of supported groups |
| HashFilter.FilterIsImageOfGroups | drivers/eth_lan9250/eth_lan9250_priv.h:597-605 | after any run of joins and matched leaves the hardware, which picks register and bit by the upper bits of the CRC, accepts an address if and only if some joined group has its hash |
| PtpClock.AdjustIsExact | drivers/eth_lan9250/eth_lan9250.c:1410-1419 | a step loads a proper time that differs by exactly the increment, modulo the clock's range |
| PtpClock.AdjustmentsCompose | drivers/eth_lan9250/eth_lan9250.c:1399-1420 | two steps add up to one |
| PtpClock.AdjustmentUndone | drivers/eth_lan9250/eth_lan9250.c:1399-1420 | a step is undone by its opposite |
| PtpClock.RefusedIff | drivers/eth_lan9250/eth_lan9250.c:1435-1439 | a ratio is refused exactly when its offset rounds to more than 30 bits |
| PtpClock.GainIsOverflows | drivers/eth_lan9250/eth_lan9250_priv.h:113-119 | the nanoseconds gained are the overflows of the accumulator |
| PtpClock.RateTrimError | drivers/eth_lan9250/eth_lan9250.c:1429-1447 | with the register an accepted ratio is encoded in, read by its bits 31 and 29:0, after n ticks of 10 ns the clock is within 1 + n/2^33 ns of n times 10 ns times the ratio |
| PtpClock.RegisterRoundTrip | drivers/eth_lan9250/eth_lan9250.c:1441-1446 | direction and value survive the packing into the register |
| PtpClock.Clock.Adjust | drivers/eth_lan9250/eth_lan9250.c:1399-1420 | `lan9250_ptp_clock_adjust` in place |
| PtpClock.Clock.AdjustRate | drivers/eth_lan9250/eth_lan9250.c:1429-1447 | `lan9250_ptp_clock_rate_adjust` in place; a refused ratio leaves the register alone |

## Left out

- IEEE-754 rounding, NaN and infinity: the planner and the rate trim are modelled over exact reals; the packing of floats into mailbox words is a parameter.
- A move of INT32_MIN steps in runs of the pipeline and the mailbox: their theorems ask for larger step counts, as its negation is undefined in C; `Planner.CommandKeepsValid` and `Planner.MinimumMoveMakesNoStep` say what becomes of it alone.
- Core1.Machine.HandleCommand: requires that the payload word arrives at last; without it the program waits for ever, and the model has no result for that. `Mailbox.CoreStep` waits step by step.
- Mailbox after a reply timeout, or with two shells at once: replies and requests lose their correspondence there; the client of the model does not time out and is alone.
- mbox_send and the interrupt of Zephyr's mailbox driver are not in the repository; they are modelled as core1/mailbox_proto.h:4-15 describes them.
- Direction of each emitted pulse: DIR changes when a move starts, while words of an earlier, stopped move may still be queued; pulses are counted, not signed.
- The SPI layer: register and FIFO transfers succeed, except in `BankLock` and `RxFraming.Receiver`, which have every transfer fail at will, and in the matcher, whose capture can be unreadable. FIFOs are read by the byte.
- MatcherDriver.RxTimestamps.RxTimestampCheck: the write that acknowledges a capture is taken to succeed; the program ignores its result.
- Runs of `lan9250_rx` calls with failing transfers: `RxFraming.CutShortInStepIff` and `RxFraming.OutOfStepForGood` say what one such call does and what follows it.
- `lan9250_tx`, but for its timestamp check.
- The hardware side of 1588: which frames are captured, and captures lost because the chip's own buffer is full, are not captured events in the model.
- Packet memory: a packet number names one allocation, so reuse of memory after the last release is a renaming.
- SNAP, VLAN and IPv6 framing of PTP: not recognised by the code either.
- The chip's own CRC bit order and address check: the filter is defined by `lan9250_mcast_hash_bit`.
- Register bring-up, PHY, GPIO, statistics, logging, the promiscuous and MAC-address settings, clock read-out and 1PPS: sequences of register accesses without state of their own.
- Core1 launch, unique MAC address, mDNS and the remaining shell commands: thin calls into Zephyr or the boot ROM.
