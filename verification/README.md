# Waypoint verification

Waypoint runs a rover: a C++ control core on the vehicle, a servo bus, a NATS message
fabric, a Go agent that keeps module containers attached, a proxy, and a browser
dashboard. This project models the parts whose correctness depends on many operations
working together, and proves what they keep over whole runs.

| part | modules |
|---|---|
| STS3215 servo wire stack, bytes to registers | `ServoFrame`, `ServoRegisters`, `SimUart`, `ServoBus`, `SyncOverflow`, `FrameObserver` |
| actuation safety of the core | `DriveKinematics`, `Actuation`, `ActuationInvariant`, `ActuationRuns`, `EstopReach`, `ActuationMeaning`, `DriveAuthority`, `CoreDaemon` |
| NATS client of the core | `NatsParser`, `NatsConnection` |
| dashboard subscriptions and the gateway | `Subjects`, `SubscriptionBus`, `BusCalls`, `ServerAntichain`, `SingleDelivery` |
| simulated time | `SimClock` |
| module reconciler | `Reconciler` |
| module configuration form | `ConfigForm` |
| auxiliary servo polling, command relay | `AuxRotation`, `CommandRelay` |

Objects that the program updates in place are classes. Each of their methods is proved
equal to a specification function on values, and the run theorems are about those
functions. `CoreDaemon` sends every servo write through `ServoBus`, which encodes a frame,
hands its bytes to `SimUart`, and decodes the reply. So a run theorem about a register is
a theorem about the bytes on the wire.

## Main results

- Wheels move only on authority, and always on it. A loop pass commands a motion exactly when
  its tick is due, the drive is armed, the latest heartbeat is at most 500 ms old and the
  command in force is that motion and at most 300 ms old (`MotionIff`). The drive is armed
  exactly in an actuating mode entered since the last boot (`ArmedIff`), and a non-zero speed
  register comes from such a pass (`NonzeroSpeedIsCommanded`).
- The registers then hold that command: the tick count in each one, mount sign included, is
  stated for every command and every wheel assignment, and when that is within the
  quantization bound (`CommandReachesRegisters`, `QuantizationBound`).
- Every byte of every servo after each request of a module, each sync write and each read is
  given by register address (`ControlMeaning`, `SyncMeaning`, `ReadMeaning`), what boot leaves
  of torque, mode and speed likewise (`BootMeaning`), and every mode request by its number
  (`SetModeMeaning`).
- Emergency stop latches: any later armed state is preceded by a recover and then by an
  accepted mode request (`EstopLatches`). Meanwhile the drive wheels and the module-owned
  wheels are stopped and limp, and the goals of every other servo stay as they were
  (`EstopFreezes`). Exactly which servos are stopped is `EstopStopsIff`.
- Each bus operation over bytes equals direct register access, brackets and sync writes
  included (`Sts3215Bus`, `AngleLimitsMeaning`, `TuningMeaning`, `SyncRefines`).
- The UART reassembles any chunking of any byte stream (`CutChunksIsCut`, `Reassembly`).
- The NATS parser delivers exactly the frames sent, however the stream is cut
  (`ExactDelivery`), and out of any bytes only well-formed ones (`DeliverableIff`). Across
  reconnects, in every interleaving, the SUB lines on the live connection end up being those of
  the `subscribe` calls ever made (`EveryCallOnWire`).
- The dashboard's reduced server subscriptions cover every local pattern, the gateway's set
  equals them after any reconnect, and no message is missed or, under an exact condition,
  delivered twice (`AlwaysCoversIff`, `GatewayInSync`, `AlwaysDeliversIff`, `AlwaysOnceIff`).
  A handler hears a message exactly while its last call was a subscribe (`RegisteredIff`,
  `NoHandlerMisses`, `NoStrayCall`), and published messages go out once, in order
  (`PublishConserved`).
- Granted simulated time is conserved and a grant returns after exactly its schedule of
  loop passes (`TimeConserved`, `GrantReturnsAfterItsPasses`).
- After any history at all of failures and restarts, a clean reconciler pass reaches every
  desired module that is not stuck, removes every undesired one that is not orphaned, and
  the next pass does nothing (`Converges`).
- The form reads back every value it saved and every undeclared one as it displayed them
  (`SaveRoundTrip`), and servo polling is fair (`Fair`).
- The command relay publishes a frame exactly when it is untagged, names a connected rover, and
  has a fixed leaf or a component class that the rover's latest report declares
  (`PublishedIff`); it accounts for every frame, publishes none twice, and falls quiet
  (`RepublishedAtMostOnce`, `Quiesces`).
- The frame observer recovers from any input after 5 ms of silence (`SilenceRecovers`).

## Where the code falls short of its promise

Each of these is proved with the exact condition under which the promise does hold.

- A complete frame with a good header but a bad length or checksum blocks the simulated
  UART for ever (`WedgedForever`); every other leftover can be completed (`RecoverableIff`).
- What is left in the simulated UART lets every later frame through exactly if it is empty or
  a single byte other than FF (`ResumesIff`).
- A sync write is readable exactly up to 83 goals (`SyncFitsIff`). Beyond that its length byte
  wraps, although `syncWriteGoalPositions` reports success. No later frame is ever taken
  exactly when no valid checksum stands where the wrapped length points (`SyncOverflowIff`),
  which is always so for 84 goals (`SyncOverflowWedges`); then no later write changes a
  register, so the zero speeds of an emergency stop never land (`OverflowSilences`).
- Otherwise the receiver takes a shorter frame and keeps the last byte of the sync write. For
  goals from the module gate, all later frames are taken exactly if that byte is not FF
  either (`OverflowResumesIff`, `OverflowResumes`). With FF, a write to servo 1 blocks the
  receiver for good (`TrailingSilences`); `TrailingExample` is such a list of 92 goals.
- Estop does not stop every servo that a module can turn. The core halts the drive wheels and
  the joints of type wheel owned by "module" (`core/src/platform/Descriptor.cpp:180-185`), and
  the gate refuses only the joints owned by "platform". Any other servo, such as an arm joint
  put into wheel mode by its module, or a wheel of a third ownership, spins on through estop
  (`EscapesEstop`). A servo is stopped in every estop of every run exactly if it is a drive
  wheel or a module wheel; in runs that find it at rest, also if the gate refuses it
  (`EstopStopsIff`).
- A drive wheel may be owned by a module, as `core/src/platform/Descriptor.cpp:138-150` asks
  only for its joint type. A module may then turn it while the rover is in Safe. A drive
  wheel is stopped whenever disarmed, and turns only on command, exactly if the module servo
  gate refuses it, by number or by owner (`DriveWheelSafeIff`, `GatedWheelRun`).
- Tuning reports failure exactly when a maximum acceleration is given, because register 0x55
  lies outside the 0x50-register file of the simulated servo (`TuningMeaning`).
- -32768 does not survive the sign-magnitude word (`SignMagnitudeRoundTripIff`); the drive
  path clamps before it.
- `matchesSubject` between patterns is containment except when `*` meets a final `>` of equal
  token count (`ContainsIff`, `OverreachExample`). Coverage holds on exactly the pattern sets
  without such a pair (`AlwaysCoversIff`).
- The comment at `dashboard/src/state/nats.ts:127-132` says only the broadest of overlapping
  patterns is registered. After an unsubscribe that is so exactly when broader patterns come
  first in map order (`RemoveAntichainIff`, `NarrowFirstExample`). The model follows the code.
- The purpose given there is one frame per message, and an antichain does not give it: `a.*.c`
  and `a.b.*` both deliver `a.b.c` (`CrossingExample`). Each message is delivered exactly once
  in all runs exactly if no pattern of the rover is shadowed or overreached, those that meet
  are nested, and none lies between two others (`AlwaysOnceIff`).
- A pattern outside the rover's namespace suppresses the patterns it matches, while the
  gateway ignores it. Delivery holds exactly when no pattern in use does so and none of the
  rover's own overreaches another (`AlwaysDeliversIff`).
- The NATS drain loop stops at a blank line or a bad MSG line. Delivery is independent of
  chunking exactly when no frame follows the first such line, a condition on the bytes of
  the stream (`ChunkInsensitiveIff`, `BlankLineStalls`).
- Two failures break the reconciler's records: a failing detach after a successful stop, and
  a failing start after a configuration change (`HealthyAfterIff`). A reverted edit then
  leaves the module stopped for good (`RevertedEditStaysStopped`).
- An attached module without a record is never removed (`OrphanStays`). A restart of the agent
  makes one of every attached module, so a module no longer desired afterwards runs on
  (`RestartLeavesRunning`); so does an installation that fails after attaching
  (`OrphanedAfterIff`).
- The comment at `dashboard/src/lib/moduleConfigToml.ts:74-80` says that hand-written extras
  survive a save. They do, word for word, exactly if the form does not read them or they are
  plain strings (`ExtrasSurviveIff`). Other values become strings: `n = 5` becomes `n = "5"`
  (`NumberRewritten`, `LineBreakRewritten`).
- A text value survives the form exactly when it holds no line terminator
  (`TextRoundTripIff`).

## Model

| member | source | states |
|---|---|---|
| `ServoFrame.ComputeChecksum` | core/src/servo/Sts3215Frame.cpp:5-10 | the 32-bit running sum gives the complement of the byte sum modulo 256 |
| `ServoFrame.ChecksumLaw` | core/src/servo/Sts3215Frame.cpp:5-10 | the bytes and their checksum together sum to 255 modulo 256 |
| `ServoFrame.PingBytes` | core/src/servo/Sts3215Frame.cpp:12-25 | the ping of servo 1 is FF FF 01 02 01 FB |
| `ServoFrame.EncodeComplete` | core/src/servo/Sts3215Frame.cpp:12-25 | an encoding of at most 253 parameters is a complete frame, whatever follows it |
| `ServoFrame.ParseEncode` | core/src/sim/SimUart.cpp:19-40 | the instruction parser inverts the encoder and consumes exactly the encoding |
| `ServoFrame.DecodeEncode` | core/src/servo/Sts3215Frame.cpp:27-48 | the status decoder inverts the encoder, the error byte leading the parameters |
| `ServoFrame.RoundTripIff` | core/src/servo/Sts3215Frame.cpp:12-25 | the round trip holds if and only if there are at most 253 parameters |
| `ServoFrame.ProperPrefix` | core/src/sim/SimUart.cpp:19-40 | no proper prefix of an encoding parses or decodes |
| `ServoFrame.ParseExtend` | core/src/sim/SimUart.cpp:19-40 | bytes after a complete frame do not change how it parses |
| `ServoFrame.SignMagnitudeRoundTripIff` | core/src/servo/Sts3215Frame.hpp:60-67 | a speed survives sign-magnitude coding if and only if it is not -32768 |
| `ServoFrame.SignMagnitudeMeaning` | core/src/servo/Sts3215Frame.hpp:60-67 | for every speed but -32768 the low fifteen bits are the magnitude, and the top bit is set if and only if it is negative |
| `ServoRegisters.ServoModel.WriteReg` | core/src/sim/ServoModel.cpp:75-90 | the in-place loop overlays exactly the addressed bytes, and accepts exactly the present, in-range, unlocked writes |
| `ServoRegisters.ServoModel.ReadRegs` | core/src/sim/ServoModel.cpp:92-99 | a read returns the addressed bytes, or nothing for an absent servo or a range beyond the file |
| `ServoRegisters.WriteFrame` | core/src/sim/ServoModel.cpp:75-90 | every register of every servo after a write: the new byte if addressed and accepted, otherwise the old one |
| `ServoRegisters.LockFreezesEeprom` | core/src/sim/ServoModel.cpp:82-88 | no write to any servo changes a byte below 0x28 while that servo's lock is 1 |
| `ServoRegisters.ReadBackIff` | core/src/sim/ServoModel.cpp:75-99 | a servo reads back what was written if and only if the write ends inside the 80 registers and does not start below 0x28 under lock, or the bytes were there already |
| `SimUart.TurnExtend` | core/src/sim/SimUart.cpp:46-73 | a receiver turn that is already decided does not depend on later bytes |
| `SimUart.CutAppend` | core/src/sim/SimUart.cpp:46-73 | for arbitrary bytes, receiving a then b equals receiving a + b |
| `SimUart.CutOne` | core/src/sim/SimUart.cpp:46-73 | an encoded frame at the front is taken whole |
| `SimUart.CutEncoded` | core/src/sim/SimUart.cpp:46-73 | a run of encoded frames is taken frame by frame with nothing counted as malformed |
| `SimUart.CutChunksIsCut` | core/src/sim/SimUart.cpp:46-73 | any chunking of any byte stream gives the same frames, malformed count and leftover |
| `SimUart.Reassembly` | core/src/sim/SimUart.cpp:46-73 | frames written in arbitrary chunks come out in order, none malformed, and the leftover is the unfinished tail |
| `SimUart.WedgedForever` | core/src/sim/SimUart.cpp:55-67 | a complete frame that is known bad keeps every later byte from being received |
| `SimUart.Completion` | core/src/sim/SimUart.cpp:55-67 | every unfinished leftover is a proper prefix of some valid encoding |
| `SimUart.RecoverableIff` | core/src/sim/SimUart.cpp:55-67 | some later bytes yield a frame if and only if the buffer is not blocked |
| `SimUart.CleanResumes` | core/src/sim/SimUart.cpp:46-73 | behind a clean leftover the next frame is taken whole and nothing is left |
| `SimUart.LostBehind` | core/src/sim/SimUart.cpp:55-67 | behind any other leftover some frame is lost |
| `SimUart.ResumesIff` | core/src/sim/SimUart.cpp:55-67 | every later frame is taken if and only if what is left is empty or one byte other than FF |
| `SimUart.SimUart.Write` | core/src/sim/SimUart.cpp:46-73 | the accumulate, parse, dispatch and resynchronize loop equals cutting the stream and dispatching each frame |
| `SimUart.SimUart.Read` | core/src/sim/SimUart.cpp:75-82 | a read takes the oldest queued bytes, at most as many as asked |
| `SimUart.SimUart.Respond` | core/src/sim/SimUart.cpp:84-92 | the status frame joins the receive queue |
| `SimUart.SimUart.Dispatch` | core/src/sim/SimUart.cpp:94-131 | each instruction has its register effect and its reply; broadcasts and refusals stay silent |
| `SimUart.SimUart.SyncWrite` | core/src/sim/SimUart.cpp:115-127 | the group loop applies each complete group in order and ignores a short tail |
| `SimUart.SimUart.SetHalfDuplexDirection` | core/src/sim/SimUart.hpp:28 | only the direction changes |
| `SimUart.EchoThenReply` | core/src/sim/SimUart.cpp:46-53 | on an idle line a frame is echoed if and only if the line is not transmitting, and its reply follows |
| `SimUart.SilentIff` | core/src/sim/SimUart.cpp:94-131 | a frame draws no reply if and only if it goes to all servos or an absent one, is no ping, read or write, or names registers out of range or locked |
| `SimUart.MalformedCount` | core/src/sim/SimUart.cpp:55-67 | the malformed count grows by the bytes dropped to resynchronize and the sync writes too short for a header, and by nothing else |
| `ServoBus.Sts3215Bus.Exchange` | core/src/servo/Sts3215Bus.cpp:133-159 | from quiet buffers an exchange has the instruction's register effect; it returns the whole reply and leaves the buffers quiet exactly if the reply fits the reads made before the deadline, and otherwise leaves the rest on the line |
| `ServoBus.Sts3215Bus.Collect` | core/src/servo/Sts3215Bus.cpp:144-158 | the accumulate-and-decode loop returns the whole reply if it fits its 64-byte reads, and otherwise nothing, with the unread rest left queued |
| `ServoBus.Sts3215Bus.Ping` | core/src/servo/Sts3215Bus.cpp:8-12 | succeeds exactly for a present, non-broadcast servo and changes no register |
| `ServoBus.Sts3215Bus.ReadState` | core/src/servo/Sts3215Bus.cpp:14-30 | returns the decoded present registers, or nothing when the servo does not answer |
| `ServoBus.Sts3215Bus.SetGoalSpeed` | core/src/servo/Sts3215Bus.cpp:32-35 | same register effect and same success as a direct write of the sign-magnitude speed |
| `ServoBus.Sts3215Bus.SetTorqueEnable` | core/src/servo/Sts3215Bus.cpp:37-40 | same register effect and same success as a direct write of the torque flag |
| `ServoBus.Sts3215Bus.ReadOperatingMode` | core/src/servo/Sts3215Bus.cpp:42-47 | returns the mode register exactly when it can be read |
| `ServoBus.Sts3215Bus.SetOperatingMode` | core/src/servo/Sts3215Bus.cpp:49-52 | same register effect and same success as a direct write of the mode |
| `ServoBus.Sts3215Bus.SetEepromLock` | core/src/servo/Sts3215Bus.cpp:54-57 | same register effect and same success as a direct write of the lock |
| `ServoBus.Sts3215Bus.SetGoalPosition` | core/src/servo/Sts3215Bus.cpp:59-61 | same register effect and same success as a direct write of the goal position |
| `ServoBus.Sts3215Bus.SetTorqueLimit` | core/src/servo/Sts3215Bus.cpp:63-65 | same register effect and same success as a direct write of the torque limit |
| `ServoBus.Sts3215Bus.SetAngleLimits` | core/src/servo/Sts3215Bus.cpp:67-73 | unlock, write and relock as direct writes; success is that of the limit write alone |
| `ServoBus.Sts3215Bus.SetTuning` | core/src/servo/Sts3215Bus.cpp:75-96 | the optional writes and the EEPROM bracket as direct writes, success accumulated over the fields |
| `ServoBus.Sts3215Bus.EnableTorqueHoldingPosition` | core/src/servo/Sts3215Bus.cpp:98-111 | the seeded goal and the torque write as direct writes |
| `ServoBus.Sts3215Bus.SyncWriteGoalPositions` | core/src/servo/Sts3215Bus.cpp:113-125 | up to 83 goals all reach their registers and leave the buffers quiet; success is always reported |
| `ServoBus.BuildSyncWriteGoalPositions` | core/src/servo/Sts3215Frame.cpp:108-130 | the builder loop gives the encoding of the sync-write frame |
| `ServoBus.SyncGroups` | core/src/sim/SimUart.cpp:115-127 | the receiver's groups are the sender's goals, in order |
| `ServoBus.SyncRefines` | core/src/sim/SimUart.cpp:115-127 | one sync-write frame equals one goal write per servo, in order |
| `ServoBus.SyncFitsIff` | core/src/servo/Sts3215Frame.cpp:108-130 | the receiver reads a sync-write frame back if and only if it has at most 83 goals |
| `SyncOverflow.SyncOverflowIff` | core/src/servo/Sts3215Frame.cpp:108-130 | beyond 83 goals, no later byte ever yields a frame if and only if the byte at the wrapped length is not a valid checksum |
| `SyncOverflow.MisreadIsWedged` | core/src/sim/SimUart.cpp:19-40 | that condition on the goals is the receiver's blocked state; otherwise it takes a shorter frame |
| `SyncOverflow.SyncOverflowWedges` | core/src/servo/Sts3215Frame.cpp:108-130 | after a frame of 84 goals no later byte yields a frame, whatever the goals |
| `SyncOverflow.OverflowSilences` | core/src/sim/SimUart.cpp:46-73 | after a sync write that blocks the receiver no later write, however many, changes any register of any servo |
| `SyncOverflow.OverflowLeaves` | core/src/sim/SimUart.cpp:46-73 | past the shorter frame of goals from the gate, exactly the last byte of the sync write is left |
| `SyncOverflow.OverflowResumesIff` | core/src/servo/Sts3215Frame.cpp:108-130 | for goals from the gate beyond 83, every later frame is taken if and only if a valid checksum stands at the wrapped length and the write's own checksum is not FF |
| `SyncOverflow.OverflowResumes` | core/src/sim/SimUart.cpp:46-73 | then the next write has its register effect and leaves the line quiet |
| `SyncOverflow.TrailingSilences` | core/src/sim/SimUart.cpp:46-73 | behind a trailing FF a write to servo 1 keeps itself and every later write from changing a register |
| `SyncOverflow.TrailingExample` | core/src/servo/Sts3215Frame.cpp:108-130 | 92 goals from the gate with a valid checksum at the wrapped length and FF as their own |
| `ServoBus.AngleLimitsMeaning` | core/src/servo/Sts3215Bus.cpp:67-73 | every register afterwards: the four limit bytes, the lock at 1, all else unchanged, even on a locked servo |
| `ServoBus.EepromMeaning` | core/src/servo/Sts3215Bus.cpp:82-92 | the EEPROM bracket writes exactly the given fields and ends locked |
| `ServoBus.TuningMeaning` | core/src/servo/Sts3215Bus.cpp:75-96 | every register afterwards, and success if and only if no maximum acceleration is given |
| `ServoBus.TorqueHoldsPosition` | core/src/servo/Sts3215Bus.cpp:98-111 | in position mode the goal becomes the present position before torque comes on; in wheel mode no goal changes |
| `ServoBus.SyncGoalsMeaning` | core/src/servo/Sts3215Bus.cpp:113-118 | each present servo holds its last goal in the list; every other register is unchanged |
| `ServoBus.SpeedOfBytes` | core/src/servo/Sts3215Frame.hpp:60-67 | the two speed bytes decode to the speed they were made from |
| `ServoBus.TelemetryRoundTrip` | core/src/sim/ServoModel.cpp:168-182 | what the servo mirrors into its registers is what a state read returns, and no command register moves |
| `FrameObserver.Observer.FeedDir` | firmware/servo-relay/main/frame_observer.c:83-91 | feeding updates the chosen direction only, byte by byte |
| `FrameObserver.Observer.TickAll` | firmware/servo-relay/main/frame_observer.c:93-104 | a tick times out stalled directions and only those |
| `FrameObserver.FeedSplit` | firmware/servo-relay/main/frame_observer.c:83-91 | feeding a then b equals feeding a + b, counters and timestamp included |
| `FrameObserver.ObservesFrame` | firmware/servo-relay/main/frame_observer.c:45-81 | the byte-level machine agrees with the whole-frame checksum test: one good count if the frame is complete, one bad count otherwise |
| `FrameObserver.CountsEveryFrame` | firmware/servo-relay/main/frame_observer.c:45-81 | a run of encoded frames of length byte at most 64 counts one good frame each and no error |
| `FrameObserver.FeedAccounted` | firmware/servo-relay/main/frame_observer.c:45-81 | the byte budget behind every counted frame is kept by every byte |
| `FrameObserver.SixBytesPerFrame` | firmware/servo-relay/main/frame_observer.c:45-104 | over any feeds and ticks, six times the frames counted never exceeds the bytes fed |
| `FrameObserver.CountsEveryByte` | firmware/servo-relay/main/frame_observer.c:83-91 | over every run the byte counter is the bytes fed and the time stamp that of the last feed that had any |
| `FrameObserver.SilenceRecovers` | firmware/servo-relay/main/frame_observer.c:93-104 | after any run, a tick more than 5 ms past the last byte makes every later frame count and a cut frame count once as truncated and as a resync; a tick within 5 ms changes nothing |
| `FrameObserver.NoiseSkipped` | firmware/servo-relay/main/frame_observer.c:45-52 | between frames, bytes up to the next FF, and a lone FF with the byte behind it, leave no trace |
| `FrameObserver.BadLength` | firmware/servo-relay/main/frame_observer.c:58-63 | a header is given up as truncated if and only if its length byte lies outside 2 to 64 |
| `DriveKinematics.ClampTicks` | core/src/joint/Sts3215Driver.cpp:11-17 | the magnitude always fits fifteen bits, so -32768 is never produced |
| `DriveKinematics.ClampErrorIff` | core/src/joint/Sts3215Driver.cpp:11-17 | the cut is symmetric in sign, and loses less than one tick if and only if the speed is below 32768 ticks |
| `DriveKinematics.ClampTruncates` | core/src/joint/Sts3215Driver.cpp:11-17 | a speed of zero or more ticks is cut down to the whole number below it, and to 32767 from there on |
| `DriveKinematics.TickValue` | core/src/joint/Sts3215Driver.cpp:11-18 | one tick is 0.001534 radians per second, to six decimals |
| `DriveKinematics.ThroughServoIsCut` | core/src/joint/Sts3215Driver.cpp:65-87 | mount sign and register bytes cancel: only the cut to ticks is left |
| `DriveKinematics.WheelErrorIff` | core/src/joint/Sts3215Driver.cpp:11-18 | a wheel speed comes back within one tick if and only if it is below 32768 ticks |
| `DriveKinematics.KinematicsRoundTrip` | core/src/control/DiffDriveKinematics.cpp:5-11 | forward kinematics inverts inverse kinematics |
| `DriveKinematics.WheelsMeaning` | core/src/control/DiffDriveKinematics.cpp:5-11 | the rim speeds of the two sides average to the body speed, and a positive yaw rate makes the right side the faster by yaw rate times track |
| `DriveKinematics.BodyMeaning` | core/src/main.cpp:394-401 | the reconstructed body speed is the mean of the four rim speeds, and the yaw rate the difference of the sides over the track |
| `DriveKinematics.MeasuredTicks` | core/src/joint/Sts3215Driver.cpp:11-18 | each measured wheel speed is the commanded one cut to whole ticks, whatever the mounting |
| `DriveKinematics.QuantizationBound` | core/src/main.cpp:394-401 | reconstructed body speed and yaw rate differ from the command by less than one tick at the rim, and twice that over the track |
| `DriveKinematics.FourWheelError` | core/src/main.cpp:394-401 | four measured wheel speeds, each within one tick, reconstruct body speed and yaw rate within the same bounds |
| `ActuationInvariant.ArmDriveHalts` | core/src/main.cpp:203-221 | disarming stops and releases all four wheels and touches no other servo |
| `ActuationInvariant.HaltTouches` | core/src/main.cpp:231-239 | the estop loop stops and releases every module wheel and touches no other servo |
| `ActuationInvariant.ControlTouches` | core/src/servo/ServoControlServer.cpp:39-103 | a module operation reaches only the addressed servo and no core state beyond its overcurrent ceiling |
| `ActuationInvariant.SyncListGated` | core/src/servo/ServoControlServer.cpp:105-115 | every goal passed on is for an id from 1 to 12 that the platform does not own |
| `ActuationInvariant.TransitionEstablishes` | core/src/main.cpp:222-240 | every mode change establishes the whole invariant, clears the target and arms exactly in actuating modes |
| `ActuationInvariant.ControlInv` | core/src/servo/ServoControlServer.cpp:39-103 | a gated module operation keeps the invariant |
| `ActuationInvariant.SyncInv` | core/src/servo/ServoControlServer.cpp:105-116 | a module sync write keeps the invariant |
| `ActuationInvariant.ReadFrozen` | core/src/servo/ServoControlServer.cpp:118-143 | a module read changes nothing but possibly switching torque off |
| `ActuationInvariant.BootInv` | core/src/main.cpp:340-364 | discovery, mode setup and the boot disarm keep the invariant, also when handlers ran first |
| `ActuationInvariant.PassInv` | core/src/main.cpp:369-404 | a loop pass keeps the invariant, and changes no register while estopped |
| `ActuationInvariant.InvStep` | core/src/main.cpp:203-404 | every handler and every pass keeps the invariant: armed implies an actuating mode implies heartbeat ok, which is the watchdog's state; a non-zero target implies a live command timer; in estop the drive wheels and module-owned wheels are stopped and limp; every drive wheel that the module gate refuses is stopped whenever disarmed after boot |
| `ActuationRuns.InvAlong` | core/src/main.cpp:203-404 | the invariant holds in every state of every run |
| `ActuationRuns.ModuleFrame` | core/src/servo/ServoControlServer.cpp:39-143 | no module request changes mode, timers, arming or target |
| `ActuationRuns.LastHeartbeat` | core/src/watchdog/Watchdog.cpp:5-20 | a live watchdog's last kick is the time of the latest heartbeat in the run |
| `ActuationRuns.StepTarget` | core/src/main.cpp:222-262 | a non-zero target after a step is the accepted command or the old target, and the mode did not change |
| `ActuationRuns.Authority` | core/src/main.cpp:222-262 | a non-zero target is the latest accepted drive command, with no mode change since |
| `ActuationRuns.MotionJustified` | core/src/main.cpp:369-404 | a pass that commands motion is armed in an actuating mode, has a heartbeat within 500 ms and that very command accepted within 300 ms, with no mode change and no newer command since |
| `ActuationRuns.NonzeroSpeedIsCommanded` | core/src/main.cpp:388-404 | after a 50 Hz pass the register of a drive wheel that the gate refuses is non-zero only if that pass commanded motion |
| `ActuationRuns.DisarmedMeansStopped` | core/src/main.cpp:201-240 | after boot, outside the actuating modes, the speed register of a drive wheel that the gate refuses is zero |
| `ActuationRuns.GatedWheelRun` | core/src/servo/ServoControlServer.cpp:39-43 | for every other drive wheel a run of boot, one module request and one pass, all in Safe, leaves it turning without a command |
| `ActuationRuns.DriveWheelSafeIff` | core/src/servo/ServoControlServer.cpp:35-43 | in every run a drive wheel is stopped whenever disarmed, and turns only on command, if and only if the gate refuses its id |
| `ActuationRuns.WheelRegisters` | core/src/joint/Sts3215Driver.cpp:65-77 | each wheel register holds the speed of its last writer as a number of ticks, clamped, and negated if and only if the wheel is mounted inverted, also where positions share a servo |
| `ActuationRuns.MountedTicks` | core/src/joint/Sts3215Driver.cpp:69-71 | a wheel mounted inverted is sent the negated tick count, any other the tick count itself |
| `ActuationRuns.TracksIff` | core/src/joint/Sts3215Driver.cpp:11-18 | unless a servo is asked for two speeds, all four registers are within one tick of the command if and only if it is representable |
| `ActuationRuns.TracksFits` | core/src/joint/Sts3215Driver.cpp:65-77 | for any wheel assignment the registers track the command if and only if each servo's last speed, cut to ticks, fits every wheel it serves |
| `ActuationRuns.SharedServo` | core/src/joint/Sts3215Driver.cpp:65-77 | a servo shared by both sides cannot track a turn of two ticks or more |
| `ActuationRuns.TracksStandFor` | core/src/main.cpp:394-401 | for any wheel assignment, registers that track a command reconstruct it to within the quantization bound |
| `ActuationRuns.CommandReachesRegisters` | core/src/control/DriveController.cpp:31-40 | for every command a pass passes on: the tick count in all four registers with the mount sign, when they track the command, and that a tracked command is reconstructed to within the quantization bound |
| `ActuationRuns.EstopStep` | core/src/mode/ModeMachine.cpp:15-35 | while estopped no step raises torque or changes a goal, and only recover leaves, to Safe and disarmed |
| `ActuationRuns.EstopFreezes` | core/src/main.cpp:203-240 | through any stretch of estop the drive wheels and module-owned wheels stay stopped and limp, and no goal of any servo changes |
| `EstopReach.TransitionOther` | core/src/main.cpp:222-240 | a mode change leaves every register of every servo that is neither a drive wheel nor a module wheel as it was |
| `EstopReach.OutOfReachKeeps` | core/src/servo/ServoControlServer.cpp:35-43 | a servo that core does not write and the gate refuses keeps its speed through every run |
| `EstopReach.EscapesEstop` | core/src/platform/Descriptor.cpp:180-185 | for every other servo that passes the gate, a run of boot, two module requests and an estop leaves it in wheel mode with a speed |
| `EstopReach.SpinningFromBefore` | core/src/main.cpp:222-240 | a servo that core does not write and that had a speed before keeps it through an estop |
| `EstopReach.EstopStopsIff` | core/src/main.cpp:222-240 | a servo is stopped in every estop of every run if and only if it is a drive wheel or a module wheel; of every run that starts with it at rest, if and only if it is one of those or the gate refuses it |
| `ActuationRuns.ArmingStep` | core/src/rpc/SetModeHandler.cpp:34-43 | the only step that arms is an accepted mode request for an actuating mode |
| `ActuationRuns.EstopLatches` | core/src/mode/ModeMachine.cpp:15-35 | between an estop and a later armed state lie a recover to Safe and then an accepted mode request with a live heartbeat, in that order |
| `ActuationMeaning.SetModeMeaning` | core/src/rpc/SetModeHandler.cpp:19-43 | by mode number: 4 is estop from anywhere; 1 and 3 are Manual and Autonomous if and only if outside estop with a heartbeat, arming on a change; every other number is Safe outside estop; all else changes nothing |
| `ActuationMeaning.EstopMeaning` | core/src/rpc/EstopHandler.cpp:24-26 | both routes into estop end disarmed with the drive and module wheels halted; recover goes to Safe from estop and does nothing elsewhere |
| `ActuationMeaning.ControlMeaning` | core/src/servo/ServoControlServer.cpp:39-103 | every byte of every servo, by address, and the overcurrent limits after each of the module operations; nothing else of the core changes |
| `ActuationMeaning.ControlRefused` | core/src/servo/ServoControlServer.cpp:39-43 | ids outside 1 to 12, platform servos and every request during estop change nothing |
| `ActuationMeaning.SyncListLast` | core/src/servo/ServoControlServer.cpp:105-115 | the goal a list passes on for a servo is its last one, to twelve bits, if the gate allows the servo |
| `ActuationMeaning.SyncMeaning` | core/src/servo/ServoControlServer.cpp:105-116 | every byte of every servo after a module sync write: the last goal for it, or as before |
| `ActuationMeaning.ReadMeaning` | core/src/servo/ServoControlServer.cpp:118-143 | a read drops the torque of its servo if and only if a limit is set and the current register is above it, and changes no other byte |
| `ActuationMeaning.ArmingRaisesTorque` | core/src/main.cpp:203-221 | entering an actuating mode raises the torque of all four drive wheels |
| `ActuationMeaning.DiscoveredIff` | core/src/main.cpp:340-341 | a servo is found at boot if and only if it is on the list and answers |
| `ActuationMeaning.AuxIff` | core/src/main.cpp:342-348 | an auxiliary servo is a found one that is not a drive wheel |
| `ActuationMeaning.EnsuredModes` | core/src/joint/Sts3215Driver.cpp:44-59 | afterwards the mode register of every known joint on the list is 1 for a wheel and 0 otherwise, and that of every other servo is as before |
| `ActuationMeaning.EnsuredIdle` | core/src/joint/Sts3215Driver.cpp:46-57 | a servo already in its mode, or unknown to the driver, is not written |
| `ActuationMeaning.BootMeaning` | core/src/main.cpp:340-364 | after boot every listed servo that answers is limp and in the operating mode of its joint, the drive wheels are stopped, and nothing is armed |
| `ActuationMeaning.CadenceMeaning` | core/src/main.cpp:388-404 | the tick is due every 20 ms counted from boot, whether or not it moves a wheel |
| `DriveAuthority.StepArmed` | core/src/main.cpp:203-240 | a step leaves the drive armed if and only if it enters an actuating mode with a drive, or keeps its mode armed without a boot |
| `DriveAuthority.ArmedIff` | core/src/main.cpp:203-240 | in every run the drive is armed if and only if there is one and the mode is an actuating one entered since the last boot |
| `DriveAuthority.TargetKept` | core/src/main.cpp:251-262 | a drive command stays the target until the next one, a mode change, a boot or a pass that finds it older than 300 ms |
| `DriveAuthority.CommandInForce` | core/src/main.cpp:251-262 | every non-zero target is such a command |
| `DriveAuthority.MotionIff` | core/src/main.cpp:369-404 | in every run a pass commands a motion if and only if the tick is due, the drive is armed, the latest heartbeat is at most 500 ms old and the command in force is that motion and at most 300 ms old |
| `CoreDaemon.Watchdog.Kick` | core/src/watchdog/Watchdog.cpp:5-8 | the timer is alive from now |
| `CoreDaemon.Watchdog.TickAndCheck` | core/src/watchdog/Watchdog.cpp:10-20 | reports exactly the crossing from alive to expired, once |
| `CoreDaemon.ModeMachine.Transition` | core/src/mode/ModeMachine.cpp:48-53 | the new mode, and whether it changed |
| `CoreDaemon.ModeMachine.RequestSetMode` | core/src/mode/ModeMachine.cpp:15-22 | accepted exactly outside estop and, for actuating modes, with a heartbeat |
| `CoreDaemon.ModeMachine.RequestRecover` | core/src/mode/ModeMachine.cpp:29-35 | leaves estop for Safe and refuses elsewhere |
| `CoreDaemon.ModeMachine.OnHeartbeatLost` | core/src/mode/ModeMachine.cpp:37-40 | actuating modes drop to Safe; others stay |
| `CoreDaemon.ModeMachine.OnHeartbeatRestored` | core/src/mode/ModeMachine.cpp:42-46 | the heartbeat flag returns without a mode change |
| `CoreDaemon.DriveController.SetBodyTarget` | core/src/control/DriveController.cpp:8 | the target changes and arming does not |
| `CoreDaemon.DriveController.SetArmed` | core/src/control/DriveController.cpp:10-13 | disarming also clears the target |
| `CoreDaemon.Daemon.WriteJoint` | core/src/joint/Sts3215Driver.cpp:65-77 | one joint command over the wire equals one register write of the speed in ticks, negated for an inverted mount (`MountedTicks`), unknown ids skipped |
| `CoreDaemon.Daemon.WriteCommands` | core/src/joint/Sts3215Driver.cpp:65-77 | the four wheel commands over the wire equal four register writes |
| `CoreDaemon.Daemon.SetTorque` | core/src/joint/Sts3215Driver.cpp:61-63 | torque on holds position first; torque off is a plain write |
| `CoreDaemon.Daemon.EnsureModesOn` | core/src/joint/Sts3215Driver.cpp:44-59 | the loop over present servos equals one mode fix per servo |
| `CoreDaemon.Daemon.EnsureModeOn` | core/src/joint/Sts3215Driver.cpp:46-57 | torque off and an EEPROM bracket exactly when the mode register disagrees or cannot be read |
| `CoreDaemon.Daemon.Arm` | core/src/main.cpp:203-221 | the object's arming is the model's |
| `CoreDaemon.Daemon.HaltServos` | core/src/main.cpp:235-238 | the module-wheel loop is the model's halt |
| `CoreDaemon.Daemon.OnChange` | core/src/main.cpp:222-240 | the mode callback is the model's transition |
| `CoreDaemon.Daemon.OnHeartbeat` | core/src/main.cpp:245-249 | the handler is one model step |
| `CoreDaemon.Daemon.OnDrive` | core/src/main.cpp:251-262 | the handler, undecodable and ill-timed commands included, is one model step |
| `CoreDaemon.Daemon.OnSetMode` | core/src/rpc/SetModeHandler.cpp:34-43 | the handler, undecodable requests and the estop route included, is one model step, whose effect by mode number is `SetModeMeaning` |
| `CoreDaemon.Daemon.OnEstop` | core/src/rpc/EstopHandler.cpp:24-26 | the handler is one model step |
| `CoreDaemon.Daemon.OnRecover` | core/src/rpc/RecoverHandler.cpp:24-26 | the handler is one model step |
| `CoreDaemon.Daemon.HandleControl` | core/src/servo/ServoControlServer.cpp:39-103 | range, ownership and estop gates and all operations are one model step, whose effect on every register is `ControlMeaning` and `ControlRefused` |
| `CoreDaemon.Daemon.ApplyOp` | core/src/servo/ServoControlServer.cpp:45-103 | each operation with its clamping equals its register effect, given byte by byte in `ControlMeaning` |
| `CoreDaemon.Daemon.HandleSync` | core/src/servo/ServoControlServer.cpp:105-116 | up to 83 addressed goals the filter loop and its sync write are one model step, with the effect of `SyncMeaning`; longer lists leave the line as the wrapped frame leaves it |
| `CoreDaemon.Daemon.HandleRead` | core/src/servo/ServoControlServer.cpp:118-143 | the read and its overcurrent cut-off are one model step, with the effect of `ReadMeaning` |
| `CoreDaemon.Daemon.Discover` | core/src/main.cpp:340-341 | the ping loop finds exactly the present ids, in order, and changes no register |
| `CoreDaemon.Daemon.SelectAux` | core/src/main.cpp:342-348 | the loop keeps exactly the non-drive ids, in order |
| `CoreDaemon.Daemon.Start` | core/src/main.cpp:340-364 | the boot sequence is one model step |
| `CoreDaemon.Daemon.CheckHeartbeat` | core/src/main.cpp:371-377 | the watchdog part of a pass is the model's |
| `CoreDaemon.Daemon.LoopPass` | core/src/main.cpp:369-404 | watchdog, staleness and 50 Hz tick together are one model step |
| `NatsParser.Crlf` | core/src/nats/Frame.cpp:16-21 | the scan finds the first line end |
| `NatsParser.SplitAtSpace` | core/src/nats/Frame.cpp:23-29 | the tokens on both sides of any white space are split independently |
| `NatsParser.StoulLaw` | core/src/nats/Frame.cpp:92-97 | a size field is the value of its digits, taken from 2^64 behind a minus, and throws if and only if there are none or they reach 2^64 |
| `NatsParser.LineKinds` | core/src/nats/Frame.cpp:55-103 | what each line is taken for by its first characters, and exactly which MSG lines are refused for their fields or their size |
| `NatsParser.NatsParser.Pull` | core/src/nats/Frame.cpp:37-104 | one call of `next` equals the specification and terminates because the buffer shrinks |
| `NatsParser.NatsParser.TakePayload` | core/src/nats/Frame.cpp:38-47 | the payload branch, size arithmetic modulo 2^64 included |
| `NatsParser.NatsParser.ReadTurn` | core/src/nats/Connection.cpp:120-123 | one turn of the read loop drains the buffer as specified |
| `NatsParser.NextExtend` | core/src/nats/Frame.cpp:37-104 | a parse that needs no more bytes is unchanged by more; one that does resumes where it stopped |
| `NatsParser.DrainExtend` | core/src/nats/Connection.cpp:120-123 | draining, feeding and draining equals feeding and draining, unless the first drain stalled |
| `NatsParser.Sandwich` | core/src/nats/Frame.cpp:33-104 | any chunking delivers at least what one chunk delivers and at most what byte-wise feeding does |
| `NatsParser.BytewiseIsIdeal` | core/src/nats/Frame.cpp:33-104 | feeding byte by byte delivers every frame that is in the stream |
| `NatsParser.FrameFollowsIdeal` | core/src/nats/Frame.cpp:49-104 | a stream delivers a frame to some chunking if and only if a scan of its lines and payload sizes finds one |
| `NatsParser.StallsLastDrain` | core/src/nats/Frame.cpp:49-104 | the drain loses nothing if and only if that scan finds no frame behind the first stalling line |
| `NatsParser.ChunkInsensitiveIff` | core/src/nats/Frame.cpp:55-87 | all chunkings deliver the same frames if and only if, line by line through the bytes, no frame follows the first blank or bad-arity line |
| `NatsParser.LineRead` | core/src/nats/Frame.cpp:49-104 | reading a well-formed header line returns its frame |
| `NatsParser.ReadsFrame` | core/src/nats/Frame.cpp:37-104 | a serialized frame is read back whole, for any payload bytes |
| `NatsParser.UnfinishedFrame` | core/src/nats/Frame.cpp:37-104 | a proper prefix of a frame delivers nothing |
| `NatsParser.StreamContains` | core/src/nats/Frame.cpp:33-104 | a serialized stream contains exactly its frames |
| `NatsParser.ExactDelivery` | core/src/nats/Frame.cpp:33-104 | well-formed frames cut at arbitrary points are delivered exactly, in order, with an unfinished tail held back |
| `NatsParser.DeliverableIff` | core/src/nats/Frame.cpp:33-104 | a frame comes out of some chunks of some bytes if and only if it is well formed |
| `NatsParser.BlankLineStalls` | core/src/nats/Frame.cpp:55 | a blank line before a PING delivers nothing in one chunk and the PING in two |
| `NatsConnection.Connection.BeginSubscribe` | core/src/nats/Connection.cpp:34-39 | the first critical section stores the subject under the next number, in one model step |
| `NatsConnection.Connection.FinishSubscribe` | core/src/nats/Connection.cpp:40-45 | the second critical section is one model step |
| `NatsConnection.Connection.ResendAll` | core/src/nats/Connection.cpp:87-104 | the snapshot loop re-sends every entry in one model step |
| `NatsConnection.ResendCovers` | core/src/nats/Connection.cpp:87-104 | a re-send on a live transport restores the invariant |
| `NatsConnection.InvStep` | core/src/nats/Connection.cpp:34-106 | every step of subscribe and reconnect keeps the invariant |
| `NatsConnection.NoLostSubscription` | core/src/nats/Connection.cpp:34-106 | in every interleaving, once both sides have finished the SUB lines on the live connection are exactly the table's entries, which `SubsAreCalls` shows to be the calls made |
| `NatsConnection.SubsAreCalls` | core/src/nats/Connection.cpp:34-39 | in every run the table is exactly the calls made: the n-th call under number n with its subject, and nothing else |
| `NatsConnection.PendingIff` | core/src/nats/Connection.cpp:34-46 | a call is half done if and only if it was made and its own SUB line was not yet handed over |
| `NatsConnection.EveryCallOnWire` | core/src/nats/Connection.cpp:34-106 | in every interleaving, once the reader reads and no call is half done, the SUB lines that the live connection has carried are exactly the numbers and subjects of the calls ever made |
| `NatsConnection.ReconnectTurn` | core/src/nats/Connection.cpp:60-106 | from every lost connection a turn of the loop can be taken to its end: on a successful dial to a wire with CONNECT and every subscription alone, otherwise back to the start |
| `Subjects.SplitInjective` | dashboard/src/state/nats.ts:113-124 | two subjects have the same tokens if and only if they are the same string |
| `Subjects.MatchesSubject` | dashboard/src/state/nats.ts:113-124 | the token loop computes the matching relation |
| `Subjects.MatchesConcrete` | dashboard/src/state/nats.ts:113-124 | on concrete subjects the matcher is the inductive wildcard semantics |
| `Subjects.ProtectedTransitive` | dashboard/src/state/nats.ts:113-124 | matching is transitive below a pattern that nothing in use overreaches |
| `Subjects.MatchSound` | dashboard/src/state/nats.ts:113-124 | a match without the overreaching shape implies containment |
| `Subjects.Separate` | dashboard/src/state/nats.ts:113-124 | without a match, or with the overreaching shape, some concrete subject tells the patterns apart |
| `Subjects.ContainsIff` | dashboard/src/state/nats.ts:113-124 | language containment if and only if the patterns match without the overreaching shape |
| `Subjects.OverreachExample` | dashboard/src/state/nats.ts:113-124 | `a.*` matches `a.>` but does not contain it, and matching is not transitive there |
| `Subjects.MatchesTransitive` | dashboard/src/state/nats.ts:113-124 | matching is transitive on safe pattern sets |
| `Subjects.MatchesAntisymmetric` | dashboard/src/state/nats.ts:113-124 | matching is antisymmetric on safe pattern sets |
| `SubscriptionBus.BusObject.Transmit` | dashboard/src/state/nats.ts:313-319 | sends when open and queues otherwise |
| `SubscriptionBus.BusObject.IsCovered` | dashboard/src/state/nats.ts:275-277 | the loop finds whether some server subscription matches |
| `SubscriptionBus.BusObject.AddServer` | dashboard/src/state/nats.ts:274-286 | the covering test and the absorbing loop equal the specification |
| `SubscriptionBus.BusObject.RemoveServer` | dashboard/src/state/nats.ts:290-307 | the removal and the re-adoption loop equal the specification |
| `SubscriptionBus.BusObject.SubscribeHandler` | dashboard/src/state/nats.ts:252-260 | subscribing is one model step |
| `SubscriptionBus.BusObject.UnsubscribeHandler` | dashboard/src/state/nats.ts:261-268 | unsubscribing is one model step: the handler goes, the others stay (`RegisteredIff`), and the last one drops the pattern |
| `SubscriptionBus.BusObject.OnOpen` | dashboard/src/state/nats.ts:210-221 | re-sending and flushing is one model step |
| `SubscriptionBus.AbsorbServer` | dashboard/src/state/nats.ts:279-284 | adding removes exactly the subscriptions the new one matches |
| `SubscriptionBus.AdoptServer` | dashboard/src/state/nats.ts:295-306 | removing keeps the rest and covers every remaining local pattern |
| `SubscriptionBus.HandleAllResult` | agent/internal/gateway/ws.go:367-399 | the gateway's idempotent map is decided by the last operation on each allowed subject |
| `SubscriptionBus.SendSync` | dashboard/src/state/nats.ts:313-319 | sending keeps gateway, queue and server set in step, online and offline |
| `SubscriptionBus.OpenSync` | dashboard/src/state/nats.ts:210-221 | opening brings the gateway in step whatever was queued |
| `SubscriptionBus.InvStep` | dashboard/src/state/nats.ts:252-307 | every operation keeps the covering of any protected part of the patterns in use, and synchronization |
| `SubscriptionBus.AlwaysCoversIff` | dashboard/src/state/nats.ts:252-307 | every local pattern is language-contained in a server subscription in all runs if and only if the pattern set is safe |
| `SubscriptionBus.Unsafe` | dashboard/src/state/nats.ts:252-286 | each overreaching pair gives a run that leaves a pattern uncovered |
| `SubscriptionBus.GatewayInSync` | dashboard/src/state/nats.ts:206-221 | connected, after any offline history, the gateway holds exactly the allowed server subscriptions and the queue is empty |
| `SubscriptionBus.DispatchedIff` | dashboard/src/state/nats.ts:222-238 | a delivered message reaches a pattern's handlers if and only if the pattern denotes its subject |
| `SubscriptionBus.NoMissedMessage` | dashboard/src/state/nats.ts:252-307 | connected, with the rover's patterns neither shadowed nor overreached, each message such a local pattern asks for is delivered by a gateway subscription |
| `SubscriptionBus.AlwaysDeliversIff` | agent/internal/gateway/ws.go:367-413 | delivery to the rover's patterns holds in all runs if and only if no pattern outside the namespace matches one inside it and no pair inside it overreaches |
| `BusCalls.SubscribeRegisters` | dashboard/src/state/nats.ts:252-260 | a subscribe adds that handler to that pattern and changes no other |
| `BusCalls.UnsubscribeForgets` | dashboard/src/state/nats.ts:261-268 | an unsubscribe removes that handler from that pattern and leaves every other registration |
| `BusCalls.RegisteredIff` | dashboard/src/state/nats.ts:252-268 | in every run a handler is registered for a pattern if and only if the last call about the two was a subscribe |
| `BusCalls.NoHandlerMisses` | dashboard/src/state/nats.ts:222-268 | connected, with the rover's patterns neither shadowed nor overreached, a message asked for by a handler whose last call was a subscribe is delivered and dispatched to it |
| `BusCalls.NoStrayCall` | dashboard/src/state/nats.ts:222-238 | a message is dispatched only to handlers whose last call was a subscribe and whose pattern denotes it |
| `BusCalls.PublishConserved` | dashboard/src/state/nats.ts:206-221 | in every run the published messages are, in order, those handed to a socket followed by those queued, and none is queued while connected |
| `BusCalls.AllowedIff` | agent/internal/gateway/ws.go:410-413 | for a rover id without dots, the namespace test on tokens is the prefix test on the text |
| `ServerAntichain.AddKeepsAntichain` | dashboard/src/state/nats.ts:274-286 | adding keeps the server set an antichain |
| `ServerAntichain.AdoptResult` | dashboard/src/state/nats.ts:290-307 | exactly which local patterns are adopted, in closed form |
| `ServerAntichain.MaximalAbove` | dashboard/src/state/nats.ts:290-307 | every orphaned pattern lies below a maximal orphan |
| `ServerAntichain.BroaderFirstSuffices` | dashboard/src/state/nats.ts:290-307 | broader patterns first in map order gives an antichain |
| `ServerAntichain.BroaderFirstNeeded` | dashboard/src/state/nats.ts:290-307 | an antichain is possible only with broader patterns first |
| `ServerAntichain.RemoveAntichainIff` | dashboard/src/state/nats.ts:290-307 | removal leaves an antichain if and only if broader orphans come first in map order |
| `ServerAntichain.NarrowFirstExample` | dashboard/src/state/nats.ts:290-307 | a narrow pattern before a broad one leaves both subscribed |
| `ServerAntichain.NarrowFirstReached` | dashboard/src/state/nats.ts:252-286 | three subscribe calls reach the state of that example |
| `SingleDelivery.MeetsIff` | dashboard/src/state/nats.ts:113-124 | two patterns share a concrete subject if and only if they meet token by token |
| `SingleDelivery.NoSecondFrame` | dashboard/src/state/nats.ts:274-307 | with nested and unchained patterns no message is delivered by two gateway subscriptions |
| `SingleDelivery.ChainRun` | dashboard/src/state/nats.ts:290-307 | for every chain of three patterns a run leaves the two narrower ones both registered |
| `SingleDelivery.CrossingTwice` | dashboard/src/state/nats.ts:274-286 | patterns that meet without being nested give a run that delivers a message twice |
| `SingleDelivery.AlwaysOnceIff` | dashboard/src/state/nats.ts:127-132 | each message is delivered exactly once in all runs if and only if no pattern of the rover is shadowed or overreached, those that meet are nested, and none lies between two others |
| `SingleDelivery.CrossingExample` | dashboard/src/state/nats.ts:127-132 | two patterns of an antichain that deliver the same message |
| `SimClock.SimClock.SleepBegin` | core/src/util/Clock.cpp:30-37 | entering a sleep is one model step |
| `SimClock.SimClock.SleepEnd` | core/src/util/Clock.cpp:38-44 | waking consumes one slice in one model step |
| `SimClock.SimClock.GrantBegin` | core/src/util/Clock.cpp:46-49 | granting time is one model step |
| `SimClock.SimClock.GrantEnd` | core/src/util/Clock.cpp:50-54 | the return, with the virtual time in nanoseconds, is one model step |
| `SimClock.SliceCount` | core/src/util/Clock.cpp:38-44 | a grant of ms takes ms over d slices, rounded up |
| `SimClock.InvStep` | core/src/util/Clock.cpp:25-54 | every step of either thread keeps the invariant |
| `SimClock.TimeConserved` | core/src/util/Clock.cpp:25-54 | consumed plus pending equals all time granted, and time advances by at most d a step, never back |
| `SimClock.GrantReturnsAfterItsPasses` | core/src/util/Clock.cpp:46-54 | a grant returns with all time consumed and exactly the scheduled passes done, the last after the final slice |
| `SimClock.EntriesPerGrant` | core/src/util/Clock.cpp:25-54 | a grant needs at most its slices plus one sleep entries |
| `SimClock.RecordsAreCalls` | core/src/util/Clock.cpp:25-54 | in every run the recorded grants are those of the calls made and the recorded passes the times at which a sleep was entered |
| `SimClock.GrantProgresses` | core/src/util/Clock.cpp:25-54 | while a grant waits the loop can step and its distance to the return shrinks |
| `Reconciler.Reconciler.Reconcile` | agent/internal/modules/reconciler.go:94-184 | in any iteration order a pass is the per-module pass for every module, or stops at a failed detach |
| `Reconciler.Reconciler.DetachAll` | agent/internal/modules/reconciler.go:106-119 | the detach loop, in any order, is the per-module detach phase, with an early return on failure |
| `Reconciler.Reconciler.AttachAll` | agent/internal/modules/reconciler.go:121-182 | the attach loop, in any order, is the per-module attach phase |
| `Reconciler.BuildWant` | agent/internal/modules/reconciler.go:101-104 | the last desired entry of each id wins |
| `Reconciler.LastEntryWanted` | agent/internal/modules/reconciler.go:101-104 | the entry of an id that no later one repeats is the one desired |
| `Reconciler.ConvergesIff` | agent/internal/modules/reconciler.go:94-225 | a failure-free pass reaches the desired module if and only if the record can be trusted |
| `Reconciler.UndesiredGoneIff` | agent/internal/modules/reconciler.go:106-119 | a failure-free pass removes an undesired module if and only if the record and the attachment agree on there being one |
| `Reconciler.DetachHealth` | agent/internal/modules/reconciler.go:251-272 | a detach keeps the record true unless the stop succeeds and the detach fails |
| `Reconciler.DetachesIff` | agent/internal/modules/reconciler.go:251-272 | a detach goes through if and only if the stop and the detach do and an image is attached; a failed stop ends it with nothing changed |
| `Reconciler.AttachHealth` | agent/internal/modules/reconciler.go:191-203 | a success, with or without the retry behind a detach, leaves the wanted version attached and not running; a failure never leaves a unit running unattached, and the record is untouched |
| `Reconciler.InstallHealth` | agent/internal/modules/reconciler.go:129-181 | no failure during installation leaves a false record |
| `Reconciler.ConfigHealth` | agent/internal/modules/reconciler.go:208-225 | a configuration change keeps the record true if and only if its restart does not fail after a stop |
| `Reconciler.HealthyAfterIff` | agent/internal/modules/reconciler.go:94-225 | a pass keeps the record true if and only if neither breaking failure happens |
| `Reconciler.RecordedAlong` | agent/internal/modules/reconciler.go:94-272 | through every history, whatever fails, a recorded module is attached at the recorded version |
| `Reconciler.DownloadedAlong` | agent/internal/modules/reconciler.go:129-181 | through every history, whatever fails, an attached image was downloaded first, and no download is lost |
| `Reconciler.CleanPass` | agent/internal/modules/reconciler.go:94-225 | what a failure-free pass makes of one module, desired or not, from any state a history can reach |
| `Reconciler.SettledIsQuiet` | agent/internal/modules/reconciler.go:94-225 | a module whose record asks for nothing, reached or not, is left alone by every further pass, whatever would fail |
| `Reconciler.WorksIff` | agent/internal/modules/reconciler.go:94-225 | a pass makes a host operation for a module if and only if its record differs from what is desired, whatever fails |
| `Reconciler.Converges` | agent/internal/modules/reconciler.go:94-272 | after any passes with any failures and any restarts: a clean pass reaches a desired module if and only if it is not stuck, all of them without breaking failures; it removes an undesired one if and only if it is not orphaned; stuck and orphaned ones are unchanged; the next pass does nothing |
| `Reconciler.OrphanedAfterIff` | agent/internal/modules/reconciler.go:129-181 | a pass orphans a module if and only if its installation attaches it and then fails at credentials, configuration or start |
| `Reconciler.RestartOrphans` | agent/internal/modules/reconciler.go:186-190 | a restart orphans exactly the attached modules |
| `Reconciler.OrphanStays` | agent/internal/modules/reconciler.go:106-119 | an orphan that is not desired stays attached, and running if it ran, through every pass and restart |
| `Reconciler.RestartLeavesRunning` | agent/internal/modules/reconciler.go:106-119 | a module up at an agent restart and not desired afterwards runs on through every later pass |
| `Reconciler.RevertedEditStaysStopped` | agent/internal/modules/reconciler.go:208-225 | after a failed restart, reverting the edit leaves the module stopped through every later pass |
| `Reconciler.RevertedEditHistory` | agent/internal/modules/reconciler.go:94-225 | the same over two passes of all modules in which that restart is the only failure of the first |
| `Reconciler.ComputeMerge` | agent/internal/modules/local.go:33-50 | the merge loops compute the merged list |
| `Reconciler.MergeMeaning` | agent/internal/modules/local.go:33-50 | the merged list means the proxy's modules overridden by the local ones |
| `ConfigForm.UnescapeInverts` | dashboard/src/lib/moduleConfigToml.ts:49-63 | quote unescaping inverts quote escaping for every string |
| `ConfigForm.HalveInverts` | dashboard/src/lib/moduleConfigToml.ts:49-63 | backslash halving inverts doubling for every string |
| `ConfigForm.UnquoteInverts` | dashboard/src/lib/moduleConfigToml.ts:49-63 | two-pass unquoting inverts two-pass quoting for every string |
| `ConfigForm.ParseFlatConfig` | dashboard/src/lib/moduleConfigToml.ts:66-72 | the loop keeps the last value of each key |
| `ConfigForm.EntriesOfJoined` | dashboard/src/lib/moduleConfigToml.ts:39-47 | joined lines are read back as those lines |
| `ConfigForm.ReadsRendered` | dashboard/src/lib/moduleConfigToml.ts:37-47 | a rendered line is read back as its key and value |
| `ConfigForm.FieldReadsBack` | dashboard/src/lib/moduleConfigToml.ts:49-63 | a declared field of any type is read back as shown in the form |
| `ConfigForm.BareIff` | dashboard/src/lib/moduleConfigToml.ts:59-63 | a value is written bare if and only if the field is a number holding one or a boolean holding one of its words; otherwise as a string that reads back as entered |
| `ConfigForm.LinesInOrder` | dashboard/src/lib/moduleConfigToml.ts:87-89 | the filled fields are written one to a line in manifest order |
| `ConfigForm.SpaceTable` | dashboard/src/lib/moduleConfigToml.ts:87-92 | the code points that trimming removes |
| `ConfigForm.KeptPairs` | dashboard/src/lib/moduleConfigToml.ts:90-92 | the kept lines hold exactly the undeclared pairs of the original |
| `ConfigForm.FieldPairs` | dashboard/src/lib/moduleConfigToml.ts:87-89 | the written lines hold exactly the non-blank declared values |
| `ConfigForm.SaveRoundTrip` | dashboard/src/lib/moduleConfigToml.ts:37-95 | parsing a saved form displays each non-blank declared value and every undeclared original value as before, and nothing else |
| `ConfigForm.RequotedIff` | dashboard/src/lib/moduleConfigToml.ts:49-63 | reading and writing a value again gives the same text if and only if it is a basic string with no escapes but the two the form writes |
| `ConfigForm.KeptLineIff` | dashboard/src/lib/moduleConfigToml.ts:90-92 | one undeclared line is kept word for word if and only if the form does not read it or it is such a plain string |
| `ConfigForm.ExtrasSurviveIff` | dashboard/src/lib/moduleConfigToml.ts:90-92 | a save keeps all undeclared lines word for word if and only if each is of that kind |
| `ConfigForm.NumberRewritten` | dashboard/src/lib/moduleConfigToml.ts:90-92 | an undeclared number becomes a string |
| `ConfigForm.LineBreakRewritten` | dashboard/src/lib/moduleConfigToml.ts:90-92 | an undeclared escaped line break becomes a backslash and a letter |
| `ConfigForm.FieldValuesAt` | dashboard/src/lib/moduleConfigToml.ts:87-89 | with distinct keys, a field is present if and only if it is not blank, with its own value |
| `ConfigForm.TextRoundTripIff` | dashboard/src/lib/moduleConfigToml.ts:37-95 | a text value survives saving if and only if it has no line terminator |
| `AuxRotation.AuxRotation.Next` | core/src/servo/AuxRotation.cpp:8-19 | the scan loop picks as specified and keeps the cursor in range |
| `AuxRotation.AuxRotation.RecordResult` | core/src/servo/AuxRotation.cpp:21-28 | a result is one model step |
| `AuxRotation.PickIsSound` | core/src/servo/AuxRotation.cpp:8-19 | at most k ids, distinct, each known and active |
| `AuxRotation.Fair` | core/src/servo/AuxRotation.cpp:8-19 | once as many ids were asked for as exist, every id still active was served, whatever results came in between |
| `AuxRotation.FairInRounds` | core/src/servo/AuxRotation.cpp:8-19 | with k ids to a call, the calls that make up the number of ids serve every id that stays active |
| `AuxRotation.AfterFrame` | core/src/servo/AuxRotation.cpp:21-28 | dropping is permanent and the id list and the limit never change |
| `AuxRotation.DroppedIff` | core/src/servo/AuxRotation.cpp:21-28 | an id is dropped if and only if its results contain the limit's run of consecutive failures |
| `CommandRelay.CollectClasses` | proxy/internal/cmdrelay/classindex.go:53-60 | the loop collects exactly the non-empty classes of a module |
| `CommandRelay.LearnSnapshot` | proxy/internal/cmdrelay/classindex.go:44-68 | a decodable snapshot replaces the rover's entry and no other; an undecodable one changes nothing |
| `CommandRelay.Routes` | proxy/internal/cmdrelay/relay.go:64-95 | each subject is denoted by at most one relayed pattern, given by its tokens |
| `CommandRelay.DispatchOnce` | proxy/internal/cmdrelay/relay.go:41-95 | all subscriptions together handle a frame at most once |
| `CommandRelay.DeliverStep` | proxy/internal/cmdrelay/relay.go:41-57 | each delivery shrinks the remaining work and republishes no frame twice |
| `CommandRelay.DeliverMoves` | proxy/internal/cmdrelay/relay.go:41-57 | one delivery takes one copy of its frame from the inbox and publishes it once, or drops it, by the handler's guards |
| `CommandRelay.RepublishedAtMostOnce` | proxy/internal/cmdrelay/relay.go:41-57 | in every run the arrivals of each untagged frame are exactly its publications, its copies in flight and its drops by the guards of a delivery; all publications together never outnumber the untagged arrivals |
| `CommandRelay.Quiesces` | proxy/internal/cmdrelay/relay.go:41-57 | a run of deliveries without arrivals is no longer than the pending work |
| `CommandRelay.ByModuleDeclares` | proxy/internal/cmdrelay/classindex.go:49-64 | the index of a snapshot is the classes its modules declare, the last declaring entry of an id winning |
| `CommandRelay.IndexIsLatest` | proxy/internal/cmdrelay/classindex.go:44-68 | in every run the index of a rover is that of its latest decodable snapshot |
| `CommandRelay.AllowIff` | proxy/internal/cmdrelay/classindex.go:72-80 | a component command passes if and only if the rover's latest decodable snapshot declares that class for that module |
| `CommandRelay.RoverNamed` | proxy/internal/cmdrelay/relay.go:100-106 | the rover of a subject is its second token, if the first is waypoint and a third follows |
| `CommandRelay.ClassesIff` | proxy/internal/cmdrelay/classindex.go:51-60 | a module declares the non-empty classes of its list and of the older single field |
| `CommandRelay.ReportsIff` | proxy/internal/cmdrelay/relay.go:82-88 | a rover reports by a decodable frame on its own infra.modules subject |
| `CommandRelay.PublishedIff` | proxy/internal/cmdrelay/relay.go:41-95 | in every run a delivery publishes its frame, tagged and otherwise unchanged, if and only if it is untagged, names a connected rover, and its leaf is a fixed one or a component class that the rover's latest report declares |

## Left out

- Actuation steps are atomic: each handler and each loop pass is one step, so a reader-thread estop between the armed check and the write of a tick is not modelled.
- One joint driver table is assumed, and every wheel in it answers on the bus.
- QuantizationBound: over reals, without IEEE double rounding.
- Actuation runs hold module sync writes of at most 83 addressed goals, the range in which the wire stack agrees with the registers; `OverflowSilences` says what longer ones do.
- The deadline of a bus exchange is a parameter, the number of reads it allows.
- TelemetryRoundTrip: takes the rounded field values as given, with the load at zero as the servo model writes it; a speed of -32768 is excluded as the model clamps before it.
- Servo physics (temperature, sag, noise) and presence switches; in actuation runs the plant may change any register from 0x38 up.
- Telemetry publishing at 50, 20 and 1 Hz, measured speeds in the controller, mode and alert events.
- SixBytesPerFrame: counters are unbounded, without 32-bit wrap-around; so is the malformed count of the simulated UART.
- Real serial ports, sockets, TLS and protobuf, JSON and base64 coding; decoded messages are parameters and decoding failure is modelled.
- NATS serializers for PUB, SUB and CONNECT; message dispatch to handlers in the core.
- NoLostSubscription: assumes SUB writes succeed on a live transport and takes connecting as one step.
- Dashboard credential refresh with two sockets at once, request and reply, and errors from the gateway's own subscribe call.
- Allowed works on tokens, so a rover id containing a dot is not modelled.
- SimClock stop and realtime modes.
- Reconciler host operations are modelled by their effect on attachment, running unit and configuration; mounts, drop-ins, manifests, credentials content and the proxy registry are not modelled.
- Upserting, removing and pinning local modules, which add only list edits.
- The TOML table wrapper around the flat form text, and JavaScript's `__proto__` key.
- SaveRoundTrip: is about the values the form displays, and `ExtrasSurviveIff` about the text; TOML values are not modelled. JavaScript's `Number()` is a parameter, assumed to accept only values spelled, once trimmed, with letters, digits, `_`, `-`, `+` and `.`.
- Descriptor validation, cameras, alerts, audit, authentication and the proxy's HTTP handlers.
