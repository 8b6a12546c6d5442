# A Dafny model of the Betaflight-Gazebo bridge

This project models the parts of the bridge whose behaviour is more than plumbing and proves what they are
for. Each module starts with a comment saying what it covers.

- **Camera source** (`FrameShape`, `GzImgSrc*`). The life of the shared `SourceState` of the GStreamer element
  as a step relation: any number of worker threads run Gazebo callbacks and `create` calls, one control thread
  runs `start` and `stop`; two kinds of lock, two condition variables with spurious wake-ups, and a heap in which
  deleted states stay visible so that later uses can be talked about. Theorems speak of every reachable
  interleaving and every run.
- **Frames and odometry** (`Quaternions`, `OdometryFrames`, `Odometry`, `OdometryManager`, `ImuFrames`). The
  four-branch matrix-to-quaternion extraction against its closed form and against what rotations do to vectors,
  the stateful converter over whole sample histories, the one-slot sample manager, and the flight dynamics packet.
- **Wire formats** (`Bits`, `Msp`, `MspStream`, `MspClient`, `MspMeaning`, `Crc`, `CrcDetection`, `MavlinkPacket`). The incremental MSP v1
  parser and the request loop over arbitrarily cut streams; the MAVLink checksum against its bit-serial
  definition (the reflected 0x8408 CRC of section C.2 of RFC 1662, started at 0xFFFF, without the final
  complement), and the packet parser with its inverse and its error detection.
- **Control loops** (`RangeEncoding`, `Rangefinder`, `RangefinderRuns`, `Motors`, `MotorLoop`). The non-blocking
  TFmini connection with its pacing, the MAVLink range messages and what their checker makes of them, and the
  motor failsafe loop.
- **Configuration** (`Config`). The loop-and-set checker against declarative rules.

## How the model reads the source

- Doubles and floats are real numbers; where the source tests for finiteness or compares with possible
  infinities or NaN, values carry a tag (`Double`). A square root is a parameter `root` with the law that it is
  exact on the non-negative reals.
- Clock readings, socket results, received bytes, waiting datagrams, image contents, and which sleeper a
  notification wakes are inputs of the steps and methods; what is sent, opened and closed is recorded in a log.
- Bytes are numbers below 256 and exclusive-or is defined on numbers digit by digit.
- GStreamer serialises `start` and `stop`. Calls may acquire the state whenever `stateLock` is free, also between
  `start` publishing the state and the return of `Subscribe`. The failing exit of `start` (lines 337-346 of
  `gstgzimgsrc.cpp`) deletes the state without reading `activeUsers`. Whether a call can still hold the state then
  is up to the environment and a flag of the model (`failing`): with `AnyCall` nothing is promised, with `NoCall`
  no call is left when the failing start takes its state back. The invariant, the counting, stop, mailbox and lock
  theorems hold for both. That no deleted state is used holds under the promise, and
  `DeletedInUseOnlyByFailingStart` shows that the promise is exactly what it takes; stop's own delete needs none.
- Two early exits of the camera source (lines 248-253 and 397-401 of `gstgzimgsrc.cpp`) release the state while
  the guard of its mutex is still held, so the unlock comes after the release. The theorems are proved for this
  order (`AsWritten`) and for the order with the unlock first (`UnlockFirst`). Only the late unlock itself depends
  on the order, and `MutexOutlivedOnlyAsWritten` says exactly when it can come after the delete; `frame`, `running`
  and `lastFrameTime` are touched before the release in either order.
- Where code and documentation differ the code is followed. On a motor timeout the loop publishes the minimum
  rotor velocity, not zero as `docs/motor_velocity_math.md` says, and `publish_zero_on_timeout` is not consulted;
  `TimeoutStopsRotors` says when the two agree. A reading of infinity, which is what a lidar reports for no
  return, is not finite and so goes out as unknown; only a finite reading above the scan's maximum goes out as
  the `max_distance + 1` of `docs/design/rangefinder.md`. The comment in `GazeboTransport.cc` gives the quaternion
  conversion as a product; the code computes its negative, which is the same rotation.
- The `OBSTACLE_DISTANCE` encoding is not exact for every scan maximum: at an encoded maximum of 65534 a no-return
  becomes the value for unknown, and at 65535 a reading does. `ObstacleEncodingExact` gives the exact condition.
- The numeric rules of the configuration compare in a way that NaN passes, velocity limits included, and an infinite
  upper limit passes too; the loop would then publish velocities that are not numbers. `NaNAccepted` records it and
  `AcceptedMotors` says exactly which accepted configurations the motor loop is defined for.

## Model

| member | source | states |
|---|---|---|
| FrameShape.CheckedMultiply | gst/gst_gzimgsrc/src/gstgzimgsrc.cpp:102-111 | the quotient test rejects exactly the products above the largest size_t |
| FrameShape.AcceptedPixelsInBounds | gst/gst_gzimgsrc/src/gstgzimgsrc.cpp:113-168 | every byte of every pixel of an accepted image, at row, column and channel in range, lies inside the payload |
| FrameShape.ShapeCheckMeaning | gst/gst_gzimgsrc/src/gstgzimgsrc.cpp:113-168 | with a 64-bit size_t the check is exactly: nonzero size, stride at least a row, payload at least stride times height |
| FrameShape.FormatKeepsChannels | gst/gst_gzimgsrc/src/gstgzimgsrc.cpp:81-100 | exactly the six formats are known, and the announced format has every channel at the byte where the image has it, and the same pixel size |
| GzImgSrcSafety.CountWakeAll | gst/gst_gzimgsrc/src/gstgzimgsrc.cpp:368 | stop's notification moves sleepers only, so it changes no state's number of users |
| GzImgSrcSafety.InvStep | gst/gst_gzimgsrc/src/gstgzimgsrc.cpp:170-429 | every step of every thread keeps the joint invariant of locks, user counts and lifecycle, calls that acquire while start subscribes included |
| GzImgSrcSafety.InvReachable | gst/gst_gzimgsrc/src/gstgzimgsrc.cpp:170-429 | the invariant holds in every reachable interleaving, with or without a promise about failing starts |
| GzImgSrcSafety.SparedReachable | gst/gst_gzimgsrc/src/gstgzimgsrc.cpp:337-346 | if no call is left when a failing start takes its state back, no deleted state has a user |
| GzImgSrcTheorems.ActiveUsersExact | gst/gst_gzimgsrc/src/gstgzimgsrc.cpp:170-194 | activeUsers is the number of threads between acquire and release of that state |
| GzImgSrcTheorems.NoUseAfterDelete | gst/gst_gzimgsrc/src/gstgzimgsrc.cpp:211-268 | a state is live exactly while published or handled by the control thread, and is deleted once; if no call is left on a state a failing start takes back, no thread uses a deleted state or is about to touch its fields |
| GzImgSrcTheorems.AtMostOneLive | gst/gst_gzimgsrc/src/gstgzimgsrc.cpp:309-350 | at most one state is live at any time |
| GzImgSrcTheorems.DeletedOnlyAtZeroUsers | gst/gst_gzimgsrc/src/gstgzimgsrc.cpp:370-377 | only the control thread deletes; stop never finds a user, whatever calls did meanwhile, and a failing start finds none if no call is left |
| GzImgSrcTheorems.DeadForever | gst/gst_gzimgsrc/src/gstgzimgsrc.cpp:352-381 | no run revives a deleted state, deletes it again or lets a call acquire it; one deleted without users, as stop deletes, is never used again |
| GzImgSrcFailingStart.CallbackOnDeletedState | gst/gst_gzimgsrc/src/gstgzimgsrc.cpp:329-346 | the run that fails: a callback acquires the state while start subscribes, Subscribe fails, and the callback is about to write the frame of the deleted state, for any accepted image |
| GzImgSrcFailingStart.DeletedInUseOnlyByFailingStart | gst/gst_gzimgsrc/src/gstgzimgsrc.cpp:337-346 | some run deletes a state with a user if and only if a call may hold the state while Subscribe fails |
| GzImgSrcTheorems.DetachedCountNeverRises | gst/gst_gzimgsrc/src/gstgzimgsrc.cpp:356-359 | once self->state no longer holds a state it is never published again and its user count never rises |
| GzImgSrcTheorems.NoLockCycle | gst/gst_gzimgsrc/src/gstgzimgsrc.cpp:170-194 | chains of threads waiting for each other's locks have at most three threads, so there is no cycle; the mutex is only ever taken before stateLock |
| GzImgSrcTheorems.UnlockFirstCountsHolders | gst/gst_gzimgsrc/src/gstgzimgsrc.cpp:247-267 | with the unlock first, a worker holding the mutex is a counted user |
| GzImgSrcExitOrder.MutexOutlivedOnlyAsWritten | gst/gst_gzimgsrc/src/gstgzimgsrc.cpp:397-401 | some run unlocks the mutex of a deleted state if and only if the early exits release before they unlock |
| GzImgSrcMailbox.TakenFrames | gst/gst_gzimgsrc/src/gstgzimgsrc.cpp:239-264 | frames taken form a subsequence without repetition of the frames stored, each the newest at its take, in bounds, with the duration since the frame before; the slot is full exactly while the newest frame is untaken |
| GzImgSrcOrigins.StoredFramesShowImages | gst/gst_gzimgsrc/src/gstgzimgsrc.cpp:211-268 | over every run each stored frame has the bytes, size, stride and channels of the image one callback of that run was called with, and the clock reading of that callback's check; different stored frames come from different callbacks |
| GzImgSrcOrigins.CheckAccepts | gst/gst_gzimgsrc/src/gstgzimgsrc.cpp:219-234 | a callback goes on to store its image exactly when the format is known, the size is not zero, a row fits the stride and the payload holds every row |
| GzImgSrcOrigins.StoringStores | gst/gst_gzimgsrc/src/gstgzimgsrc.cpp:247-264 | a callback in a running state appends exactly its own frame and puts it into the slot |
| GzImgSrcOrigins.DeliveredIsTaken | gst/gst_gzimgsrc/src/gstgzimgsrc.cpp:403-428 | what create is about to hand out is a frame it took from the slot |
| GzImgSrcOrigins.CreateWithoutState | gst/gst_gzimgsrc/src/gstgzimgsrc.cpp:386-390 | a create that finds no state returns FLUSHING and changes no state |
| GzImgSrcMailbox.NoFrameLeftBehind | gst/gst_gzimgsrc/src/gstgzimgsrc.cpp:266-267 | no wake-up is lost: while a create sleeps on a full slot a callback has still to notify or another create is awake |
| GzImgSrcStop.NobodySleepsWhileDraining | gst/gst_gzimgsrc/src/gstgzimgsrc.cpp:363-375 | once stop has notified, no create sleeps on the state |
| GzImgSrcStop.StoppedCreateFlushes | gst/gst_gzimgsrc/src/gstgzimgsrc.cpp:392-401 | along any run, a create caught in a stopped state takes no frame and returns FLUSHING |
| GzImgSrcStop.RankStep | gst/gst_gzimgsrc/src/gstgzimgsrc.cpp:352-381 | after the wake-up no step raises the work left on the state and every step of a thread inside it lowers it |
| GzImgSrcStop.InsideStepsBounded | gst/gst_gzimgsrc/src/gstgzimgsrc.cpp:352-381 | along any run the threads inside a closed state take at most as many steps as its rank |
| GzImgSrcStop.StopFinishes | gst/gst_gzimgsrc/src/gstgzimgsrc.cpp:361-378 | from any state inside a running stop a finite run, found by the ranking, deletes the state |
| GzImgSrcStop.StopReachesDelete | gst/gst_gzimgsrc/src/gstgzimgsrc.cpp:352-381 | from every reachable state inside a running stop the delete can be reached: no deadlock and no lost wake-up |
| GzImgSrcFairness.FairMove | gst/gst_gzimgsrc/src/gstgzimgsrc.cpp:352-381 | in a fair run a thread that can move again and again as long as it has not moved does move |
| GzImgSrcFairness.StateLockFreed | gst/gst_gzimgsrc/src/gstgzimgsrc.cpp:170-194 | in a fair run stateLock becomes free again and again |
| GzImgSrcFairness.MutexFreed | gst/gst_gzimgsrc/src/gstgzimgsrc.cpp:247-264 | in a fair run every state's mutex becomes free again and again |
| GzImgSrcFairness.AwakeMoves | gst/gst_gzimgsrc/src/gstgzimgsrc.cpp:211-268 | in a fair run every call that is not asleep takes its next step |
| GzImgSrcFairness.FairStopDeletes | gst/gst_gzimgsrc/src/gstgzimgsrc.cpp:361-378 | every fair infinite run that is inside a stop goes on to delete the stopped state |
| Quaternions.MatrixRotates | src/Odometry.cc:46-49 | the matrix of a unit quaternion does to vectors what q v q* does |
| OdometryFrames.FiringRadicand | src/Odometry.cc:56-72 | for every matrix the branch that fires takes the square root of at least 1 |
| OdometryFrames.Divisor | src/Odometry.cc:57-69 | the divisor of the branch that fires is at least 2 |
| OdometryFrames.ClosedForm | src/Odometry.cc:46-73 | whichever branch fires, the result is (w+z, x+y, x-y, w-z)/sqrt(2) with the sign that makes that branch's component positive |
| OdometryFrames.ClosedFormRotates | src/Odometry.cc:50-53 | both signs of the closed form are unit quaternions whose rotation matrix is the basis-changed one |
| OdometryFrames.ApplyBasisChanged | src/Odometry.cc:50-53 | the matrix m is body FRD to FLU, then the rotation, then world ENU to NED |
| OdometryFrames.NormalisedIsUnit | src/Odometry.cc:43-45 | dividing a nonzero quaternion by its norm gives norm one |
| OdometryFrames.ConvertedAttitude | src/Odometry.cc:41-74 | a nonzero attitude comes out as a unit quaternion, the closed form up to sign, with rotation matrix exactly m; zero and only zero comes out as zero |
| OdometryFrames.ConvertedAttitudeCarriesVectors | src/Odometry.cc:41-74 | turning any body vector with the result, in NED and FRD, is turning it with the normalised input, in ENU and FLU |
| Odometry.OdometryConverter.constructor | include/betaflight_gazebo_bridge/Odometry.hh:37-40 | no origin, no last time, counter zero |
| Odometry.OdometryConverter.Convert | src/Odometry.cc:85-109 | state and result are the specification's, of which the lemmas below speak |
| Odometry.StateOfHistory | src/Odometry.cc:87-93 | after any history: the origin is that of the last epoch opened, the time that of the last accepted sample, the counter the number of backward jumps modulo 256 |
| Odometry.ResetCounterCountsJumps | src/Odometry.cc:87-107 | exactly the accepted samples are emitted, each with the number of backward time jumps up to it modulo 256 |
| Odometry.AcceptedMeaning | src/Odometry.cc:30-39 | a sample is emitted exactly when all thirteen values are finite and the orientation is not zero |
| Odometry.OutputShowsSample | src/Odometry.cc:95-108 | what is emitted has the sample's time and a unit attitude with exactly the basis-changed rotation; linear and angular velocity, turned by it into the NED world, are the sample's own, turned by its own attitude into the ENU world |
| Odometry.EpochStartsAtZero | src/Odometry.cc:88-99 | the first accepted sample and every backward jump is emitted at the origin |
| Odometry.DisplacementWithinEpoch | src/Odometry.cc:93-99 | two outputs without a backward jump after the first differ by exactly (dy, dx, -dz) of their samples |
| Odometry.RejectedSamplesChangeNothing | src/Odometry.cc:87 | the converter ends where it would have without the rejected samples |
| Odometry.BasisChangesAgree | src/Odometry.cc:97-106 | the axes of positions and velocities change as the attitude's two bases do |
| OdometryManager.ToSample | src/Odometry.cc:130-143 | exactly complete messages with a valid stamp are kept, with their data and the stamp to the whole microsecond below |
| OdometryManager.Manager.constructor | src/Odometry.cc:180-191 | nothing received, nothing consumed |
| OdometryManager.ConsumeInTime | src/Odometry.cc:156-158 | consuming the newest unconsumed sample in time keeps the whole history in order and in time |
| OdometryManager.Manager.OnOdometry | src/Odometry.cc:128-148 | a kept message becomes the newest sample with its arrival time; any other changes nothing, the arrival time included |
| OdometryManager.Manager.Update | src/Odometry.cc:150-178 | a sample is converted exactly if it is the newest, not yet consumed and at most 250 ms old; over the whole history samples are consumed at most once, in order and in time, the converter has seen exactly those, and messages plus invalid count them |
| ImuFrames.QuatConversionIsIsometricInvolution | src/GazeboTransport.cc:29-35 | the quaternion conversion keeps the norm and is its own inverse |
| ImuFrames.QuatConversionDistributes | src/GazeboTransport.cc:29-35 | it distributes over the Hamilton product |
| ImuFrames.QuatConversionIsHalfTurn | src/GazeboTransport.cc:29-35 | it is minus Rx(pi) q Rx(pi) |
| ImuFrames.ConversionCommutesWithRotation | src/GazeboTransport.cc:24-35 | turning a converted vector with a converted attitude is converting the turned vector |
| ImuFrames.Build | src/GazeboTransport.cc:144-173 | the packet's attitude makes of its vectors the converted value of what the snapshot's makes of the snapshot's, losslessly; pass-through otherwise; position, velocity and altitude source by fix and configuration |
| Msp.Checksum | scripts/msp_core/protocol.py:32-36 | the loop computes the fold of exclusive-or over size, command and payload, which ChecksumIsEvenParity characterises |
| MspMeaning.ChecksumIsEvenParity | scripts/msp_core/protocol.py:32-36 | the checksum is the one byte that makes every bit's count over size, command, payload and checksum even |
| Msp.Synchronise | scripts/msp_core/protocol.py:50-57 | the deleting loop leaves the buffer at its first response header, or with fewer than three bytes |
| Msp.ReadFrame | scripts/msp_core/protocol.py:62-79 | a complete frame is reported with command, payload and error flag, or as a checksum error with both values |
| Msp.TryParseResponse | scripts/msp_core/protocol.py:49-79 | the report, and what is left in the caller's buffer, are the specification's, of which the stream lemmas speak |
| MspMeaning.ParserMeaning | scripts/msp_core/protocol.py:49-79 | by cases of the buffer's bytes: wait for three bytes and for a whole frame, drop a byte that starts no "$M>" or "$M!", report a frame as parsed exactly if its parity is even, with its own command, payload and error flag, and leave exactly what follows |
| MspStream.TryParseReported | scripts/msp_core/protocol.py:49-79 | a report does not depend on bytes that arrive later, which stay in the buffer |
| MspStream.TryParseWaiting | scripts/msp_core/protocol.py:49-66 | waiting and parsing the rest later is parsing everything at once |
| MspStream.ParseAllSplit | scripts/msp_core/protocol.py:49-79 | parsing two pieces in turn is parsing them joined |
| MspStream.Drain | scripts/msp_core/protocol.py:49-79 | calling the parser until it wants more bytes gives all reports of the buffer, and a second drain would give none |
| MspStream.ParseChunks | scripts/msp_core/protocol.py:49-79 | any cutting of a stream gives the same reports, checksum errors and leftover as the stream in one piece |
| MspStream.InterleavingIndependent | scripts/msp_core/protocol.py:49-79 | however receiving and parsing interleave, reports so far and reports still to come are those of the whole stream |
| MspStream.GarbageDropped | scripts/msp_core/protocol.py:50-57 | garbage without a header is dropped up to the header behind it: the two cannot overlap into a false match |
| MspStream.ResynchronisesOnFrame | scripts/msp_core/protocol.py:49-79 | behind such garbage a well-formed frame parses to exactly its command, payload and error flag, leaving what follows |
| MspStream.CorruptionDetected | scripts/msp_core/protocol.py:49-77 | behind any garbage without a header, changing any single command, payload or checksum byte makes the parser raise the checksum error, and what follows the frame is kept |
| MspStream.RequestMirrorsResponse | scripts/msp_core/protocol.py:39-46 | a request is built exactly when command and length fit a byte, and with its third byte turned into the response mark it parses as the response with the same command and payload |
| MspMeaning.RequestBytes | scripts/msp_core/protocol.py:39-46 | a request is "$M<", length, command, payload and the byte that makes their parity even |
| MspClient.DecidedByFirstReport | scripts/msp_core/client.py:35-42 | the decision over a stream is its first report that is a checksum error or carries the command; exactly the reports before it are skipped and exactly the bytes behind it are left |
| MspClient.AwaitAnswers | scripts/msp_core/client.py:35-54 | the loop, with any chunking, timeouts and closing, answers by that decision over buffer and received bytes, or reports closed or timed out with no decision made |
| MspMeaning.MatchingResponseAnswers | scripts/msp_core/client.py:36-42 | behind garbage a response with the requested command ends the request, with its payload or as an error response, leaving what follows |
| MspMeaning.OtherResponseSkipped | scripts/msp_core/client.py:38-39 | a response with another command is skipped at the cost of one turn of the loop |
| MspMeaning.CorruptResponseRaises | scripts/msp_core/client.py:36 | a whole frame of odd parity ends the request as corrupt, whatever its command |
| MspMeaning.WaitingMeaning | scripts/msp_core/client.py:44-54 | without a whole frame, received bytes are appended, a timeout changes nothing, a closed connection ends the request, and past the deadline it has timed out |
| MspClient.Client.constructor | scripts/msp_core/client.py:10-15 | not connected, empty buffer |
| MspClient.Client.Receive | scripts/msp_core/client.py:35-54 | the loop on the persistent buffer ends as the specification does |
| MspClient.Client.Request | scripts/msp_core/client.py:31-54 | one request is sent, and reply and remaining buffer satisfy the answer property; without a connection or with a bad request nothing changes |
| MspClient.AnswerIgnoresChunking | scripts/msp_core/client.py:31-54 | two clients that hold and receive the same bytes, however cut, and both get an answer, get the same one and keep the same unread stream |
| Crc.CrcX25 | scripts/tools/check_mavlink_odometry.py:15-21 | the loop computes the bit-serial CRC of the whole message, started at 0xFFFF |
| Crc.ShiftsLinear | scripts/tools/check_mavlink_odometry.py:15-21 | any number of register shifts distributes over exclusive-or |
| Crc.StepByteIsEightShifts | scripts/tools/check_mavlink_odometry.py:17-20 | the byte step is eight shifts of the bit-serial register |
| Crc.BytewiseIsBitwise | scripts/tools/check_mavlink_odometry.py:15-21 | for every message the byte-wise checksum is the bit-serial reflected CRC with polynomial 0x8408 |
| Crc.CrcLinear | scripts/tools/check_mavlink_odometry.py:15-21 | the checksum of the exclusive-or of two messages is the exclusive-or of their checksums |
| Crc.CrcStateInjective | scripts/tools/check_mavlink_odometry.py:15-21 | over any message, different registers stay different |
| CrcDetection.WindowInjective | scripts/tools/check_mavlink_odometry.py:15-21 | from one register, different windows of at most sixteen bits lead to different registers |
| CrcDetection.BurstDetected | scripts/tools/check_mavlink_odometry.py:15-21 | messages of any length whose bits differ only inside sixteen consecutive ones, at any alignment, have different checksums |
| CrcDetection.TwoBytesInjective | scripts/tools/check_mavlink_odometry.py:17-20 | from one register, different pairs of bytes lead to different registers |
| MavlinkPacket.AdjacentChangeDetected | scripts/tools/check_mavlink_odometry.py:15-21 | messages of any length that differ within two adjacent bytes have different checksums |
| MavlinkPacket.PayloadCorruptionRejected | scripts/tools/check_mavlink_odometry.py:24-38 | any corruption of an accepted known packet's payload within two adjacent bytes is rejected as a bad checksum |
| MavlinkPacket.PayloadBurstRejected | scripts/tools/check_mavlink_odometry.py:24-38 | so is any burst of at most sixteen bits in the payload, wherever it starts |
| MavlinkPacket.OdometryCheckerDetects | scripts/tools/check_mavlink_odometry.py:12 | the odometry checker detects every such burst in a HEARTBEAT or ODOMETRY packet |
| MavlinkPacket.RangefinderCheckerDetects | scripts/tools/check_mavlink_rangefinder.py:11 | the rangefinder checker does in a HEARTBEAT, DISTANCE_SENSOR or OBSTACLE_DISTANCE packet |
| MavlinkPacket.ParseOfEncode | scripts/tools/check_mavlink_rangefinder.py:23-37 | parsing a MAVLink 2 frame, signed or not, gives back its id, sender and payload |
| MavlinkPacket.AcceptedMeaning | scripts/tools/check_mavlink_odometry.py:24-38 | a packet is accepted exactly with the magic, the length its header and signature flag give, and, for a known id, the bit-serial CRC over everything covered and the extra byte; id, sender and payload are those at their places |
| MavlinkPacket.CheckedMessages | scripts/tools/check_mavlink_rangefinder.py:11 | which messages each checker checks, with which extra bytes |
| MavlinkPacket.EncodeOfParse | scripts/tools/check_mavlink_odometry.py:24-38 | an accepted known packet is byte for byte the frame of what was parsed from it |
| RangeEncoding.Centimetres | src/Rangefinder.cc:34-37 | the whole centimetres not above the metres, in sixteen bits |
| RangeEncoding.EncodeTfmini | src/Rangefinder.cc:48-56 | nine bytes, fixed bytes in place, byte 8 the sum of the others modulo 256, and a distance that is the floor of a hundred times a non-negative sample if that is at most 1200, or 1201 |
| RangeEncoding.ReadingWithinMaximum | src/Rangefinder.cc:180-192 | a reading not above the scan's maximum is encoded at most as the encoded maximum, clamping included |
| RangeEncoding.ObstacleRoundTrip | src/Rangefinder.cc:190-196 | below an encoded maximum of 65534 the checker recovers unknown, no return or the centimetres of every sample |
| RangeEncoding.ObstacleEncodingExact | scripts/tools/check_mavlink_rangefinder.py:52-63 | it does so for all samples if and only if the encoded maximum is below 65534 |
| RangeEncoding.DistanceSensorAccepted | scripts/tools/check_mavlink_rangefinder.py:41-50 | a published reading is at most the published maximum, and the checker accepts it exactly if it is at least the published minimum |
| Rangefinder.Mapping.constructor | src/Rangefinder.cc:60-75 | a fresh mapping has no scan, no descriptor and an empty log |
| Rangefinder.Mapping.OnScan | src/Rangefinder.cc:95-102 | the newest scan replaces the old one; several or no ranges leave no reading |
| Rangefinder.Mapping.Connect | src/Rangefinder.cc:111-131 | the connection attempt leaves the specification's state and log |
| Rangefinder.Mapping.Connected | src/Rangefinder.cc:133-145 | the poll leaves the specification's state and answers whether the link is up |
| Rangefinder.Mapping.CurrentSample | src/Rangefinder.cc:147-155 | the sample of the specification, which FrameReadsFreshScan, DistanceTurn and ObstacleTurn characterise, with the scan's limits |
| Rangefinder.Mapping.SendFrame | src/Rangefinder.cc:161-172 | one frame with the current sample, counted if it went out whole, the descriptor dropped if not |
| Rangefinder.Mapping.UpdateTfmini | src/Rangefinder.cc:157-173 | one update leaves the state and log the run lemmas speak of |
| Rangefinder.Mapping.UpdateMavlink | src/Rangefinder.cc:175-201 | one message or one withheld reading, as specified |
| Rangefinder.Mapping.TakeTurn | src/Rangefinder.cc:229-238 | the freshness and 50 ms rule decide whether a message is due |
| Rangefinder.Update | src/Rangefinder.cc:224-240 | one update of all mappings: each mapping's new state depends only on its own state and its own connection |
| RangefinderRuns.TfminiRuns | src/Rangefinder.cc:111-173 | in every state of every run: connecting implies a descriptor; descriptors are opened only when none is open and closed or written only while open; attempts at least 1 s and sends at least 10 ms apart; outputs counts the whole sends |
| RangefinderRuns.OpenedIsClosedOrCurrent | src/Rangefinder.cc:111-173 | everything opened is closed as often, except the current descriptor |
| RangefinderRuns.TfminiSends | src/Rangefinder.cc:157-173 | an update adds exactly one send, on the open descriptor and reading as the sample of that moment, if the link is up and 10 ms have passed, and none otherwise |
| RangefinderRuns.EveryFrameIsNewest | src/Rangefinder.cc:147-173 | every frame in the log of every run was sent by the update that logged it and reads as the sample of the newest scan of that moment |
| RangefinderRuns.FrameReadsFreshScan | src/Rangefinder.cc:147-173 | in plain numbers: the frame an update sends reads as floor(100 m) if the newest scan has the single finite reading m >= 0, is at most 250000000 ns old and floor(100 m) is at most 1200, and as 1201 otherwise |
| RangefinderRuns.AttemptMeaning | src/Rangefinder.cc:111-131 | a connection is attempted exactly without a descriptor and a second after the last attempt; one made or in progress is kept, any other descriptor is closed at once |
| RangefinderRuns.PollMeaning | src/Rangefinder.cc:133-145 | a pending connection comes up without an error, stays pending on EINPROGRESS, and is closed on anything else |
| RangefinderRuns.DistanceSensorOncePerScan | src/Rangefinder.cc:228-238 | in every run messages and withheld readings together never exceed the scans |
| RangefinderRuns.ObstacleNeverSilent | src/Rangefinder.cc:236-238 | in every run, after every update past the first 50 ms of the clock an obstacle mapping's log holds a message published within the last 50 ms, and a new scan is published at once |
| RangefinderRuns.MavlinkOutputs | src/Rangefinder.cc:198-200 | in every run the output counter counts the messages published |
| RangefinderRuns.DistanceTurn | src/Rangefinder.cc:228-238 | a DISTANCE_SENSOR update publishes exactly for a new scan with a single finite non-negative reading at most 250 ms old and not above the maximum, with the centimetres of reading and limits in their fields |
| RangefinderRuns.ObstacleTurn | src/Rangefinder.cc:175-201 | an OBSTACLE_DISTANCE update publishes exactly for a new scan or after 50 ms; the forward bin is unknown, no return or centimetres by the same freshness, and all other bins are unknown |
| RangefinderRuns.EveryMessageIsNewest | src/Rangefinder.cc:224-240 | every message in the log of every run was published by the update that logged it, from the newest scan of that moment |
| RangefinderRuns.PublishedMeaning | src/Rangefinder.cc:175-201 | what the checker makes of a published message is the scan's meaning at that moment, under the exact conditions of the two encodings |
| Motors.SitlPacketToBetaflightMotorOrder | src/MotorMapper.cc:10-17 | Betaflight motor m is at packet place m + 3 modulo 4 |
| Motors.ConvertLimits | src/MotorMapper.cc:42-49 | only a command that is not finite is refused; a velocity lies within the limits, and at a limit exactly for commands at or beyond that end |
| Motors.ConvertLinear | src/MotorMapper.cc:48 | between the ends half way up in command is half way up in velocity |
| Motors.ExpectedWithinLimits | src/BridgeApp.cc:134-153 | for every history and clock, every published velocity is within the limits |
| Motors.PacketVelocitiesPermute | src/MotorMapper.cc:24-31 | a fresh packet's velocities are a rearrangement of its four converted values, rotor g having that of Betaflight motor map[g] |
| Motors.TimeoutStopsRotors | src/BridgeApp.cc:136-145 | without a fresh packet the rotors are at rest if and only if the configured minimum is zero |
| MotorLoop.BridgeApp.constructor | src/BridgeApp.cc:34-43 | nothing received and nothing published |
| MotorLoop.BridgeApp.ReadCommands | src/BridgeApp.cc:106-114 | the copy loop accepts exactly packets whose four floats are finite |
| MotorLoop.BridgeApp.Handle | src/BridgeApp.cc:98-125 | after any datagram the remembered command and time are the newest valid packet's, and valid plus malformed counts every datagram |
| MotorLoop.BridgeApp.ReceiveMotorPackets | src/BridgeApp.cc:90-132 | draining the socket handles every waiting datagram in order |
| MotorLoop.BridgeApp.Apply | src/MotorMapper.cc:24-31 | rotor g gets the command of Betaflight motor map[g] |
| MotorLoop.BridgeApp.ConvertAll | src/BridgeApp.cc:148-151 | four finite commands convert without an exception |
| MotorLoop.BridgeApp.PublishMotorCommandIfNeeded | src/BridgeApp.cc:134-153 | the velocities published are those the history of datagrams and the clock call for, which ExpectedIsRight characterises |
| MotorLoop.BridgeApp.Run | src/BridgeApp.cc:54-75 | entry i published is four times the minimum velocity if no good datagram has arrived or the newest is older than the timeout at turn i's clock, and the linear, clamped velocities of its mapped, reordered speeds otherwise; zero velocity at the end; the counters split all datagrams |
| MotorLoop.ExpectedIsRight | src/BridgeApp.cc:134-153 | the same for any history and clock: which datagram is the newest good one, when it is too old, in seconds against nanoseconds, and each rotor's velocity |
| MotorLoop.ReceivedConcatenates | src/BridgeApp.cc:61-62 | what a run receives is what waits in its turns, one after the other |
| MotorLoop.ExpectedRunAt | src/BridgeApp.cc:61-70 | entry i of that list depends on the datagrams up to turn i and the clock of turn i only |
| Config.DecimalInjective | src/Config.cc:192 | different ports print differently |
| Config.EndpointInjective | src/Config.cc:192 | comparing address, colon and decimal port as strings is comparing the pairs, whatever the addresses contain |
| Config.EndpointsTell | src/Config.cc:192-194 | an endpoint string is among the earlier ones exactly if an earlier TFmini has the same pair |
| Config.ValidateScalars | src/Config.cc:129-166 | names a broken scalar rule, or all of them hold |
| Config.ValidateMap | src/Config.cc:168-176 | names a broken map rule, or the map is a permutation of 0 to 3 |
| Config.ValidateMapping | src/Config.cc:181-212 | one turn of the loop names a rule the mapping breaks beside the earlier ones, or it breaks none and the sets remember it |
| Config.ValidateRangefinders | src/Config.cc:178-212 | names a broken rule about the rangefinders, or all of them hold |
| Config.Validate | src/Config.cc:127-213 | accepts exactly the well-formed configurations and otherwise names a rule that is broken |
| Config.WellFormedMeaning | src/Config.cc:127-213 | acceptance in one place: the scalars, the map a permutation of 0 to 3, each rangefinder by itself, any two together |
| Config.DefaultAccepted | include/betaflight_gazebo_bridge/Config.hh:13-91 | the default configuration is accepted if and only if its address is an IPv4 address |
| Config.AcceptedMotors | src/Config.cc:160-176 | an accepted configuration is one the motor loop is defined for if and only if both velocity limits are numbers |
| Config.NaNAccepted | src/Config.cc:142-166 | replacing rate, pressure, timeout or a velocity limit by NaN, or the upper limit by infinity, keeps an accepted configuration accepted, though not one the motor loop is defined for |

## Left out

- GzImgSrcStop.StopReachesDelete: says that the delete can always be reached; that fair runs do reach it is GzImgSrcFairness.FairStopDeletes, whose fairness (a thread that can move again and again moves) the operating system's locks are taken to give.
- GzImgSrcTheorems.NoUseAfterDelete: its last clause is under the promise about failing starts, without which it is false; GzImgSrcFailingStart.DeletedInUseOnlyByFailingStart gives the exact condition.
- GzImgSrcTheorems.UnlockFirstCountsHolders: holds for the order with the unlock first only; the order as written is settled by MutexOutlivedOnlyAsWritten.
- RangeEncoding.ObstacleRoundTrip: needs an encoded maximum below 65534, which ObstacleEncodingExact shows to be the exact condition.
- OdometryFrames.ConvertedAttitude: rounding to double and float, overflow of the norm and underflow of its square are not modelled.
- MspClient.Client.Request: the deadline is the number of times the loop guard holds; elapsed time, the socket timeouts computed from it and connect and close are inputs or absent.
- OdometryManager.Manager.Update: callbacks and updates are atomic, as the mutex makes them on the shared fields; the wrap-around of the 64-bit generation counters is not modelled.
- Rangefinder.Update: the two clock readings of an update are inputs; the UDP send of a message is taken to succeed; the final close in the mapping's destructor and the topicReady flag are left out.
- Rangefinder.Mapping.UpdateTfmini: requires readings below 655.36 m, where the conversion to sixteen bits is defined; UpdateMavlink likewise requires a minimum below 655.36 m and a maximum that is not NaN when a message is built.
- MotorLoop.BridgeApp.Run: the loop ends after a given number of turns instead of on a signal; the other work of a turn (flight dynamics packets, rangefinders, odometry, heartbeat, status log) is modelled separately or not at all.
- Config.Validate: inet_pton is a parameter; the field-by-field YAML loading and its own range errors are not modelled.
- ImuFrames.Build: the barometric formula is a parameter.
- Finalising the element with a state still set, changing the topic property, caps negotiation and buffer filling in the camera source: only their outcomes (FLUSHING, NOT_NEGOTIATED, ERROR, OK) appear.
- The MAVLink pack functions and the byte layout of payloads: range messages are modelled field by field, and the odometry payload checks of check_mavlink_odometry.py are not modelled.
- gz-transport, UDP and TCP sockets, protobuf, YAML parsing, logging, the FPS and rate helpers, the RC and telemetry scripts, the OpenCV element, the GUIs, shell launchers, worlds and meshes: input, output or presentation without logic of the kind proved here.
