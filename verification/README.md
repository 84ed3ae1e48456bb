# Orientation filter and BMI2 driver: a verified model

This project models two parts of the goggle firmware and proves properties of the model with Dafny 4.11.

* The **orientation filter** (`src/core/MadgwickAHRS.c`): the quaternion update from gyroscope and
  accelerometer, the two-step inverse square root, and the cached angles.
* The **BMI2 sensor driver** (`src/bmi270/bmi2.c`, `src/bmi270/bmi270.c`, layouts in
  `src/bmi270/bmi2_defs.h`): decoding the FIFO in header mode and headerless mode, loading the
  configuration file, the paged feature memory with its packed fields, enabling and configuring features
  with power save switched off around them, axis re-mapping, and offset calibration.

`dafny verify dfyconfig.toml` checks everything.

## How it is laid out

| module | what it holds |
|---|---|
| `Vectors`, `Madgwick` | quaternion algebra; the filter, from the Newton step to whole runs and the angle cache |
| `Attitude` | what the filter's quaternion means: it turns with the gyroscope, descends towards the accelerometer, and its angles are those of the attitude |
| `Basics`, `Bits` | 16-bit integers, C division, bit-field macros, little-endian words |
| `FifoFormat` | header-mode frames, their encoding and a reader for one frame, independent of the driver |
| `FifoWalk` | extraction as a walk over frames: round trip, lock step, resumption, truncation |
| `Headerless` | headerless extraction as a scan over a grid, and when the 16-bit index of the loop spoils it |
| `Samples` | re-mapping and cross-axis compensation of one triple |
| `FifoDriver` | the C loops over `struct bmi2_fifo_frame` and the caller's arrays, proved to compute walk and scan |
| `Device`, `Driver` | the sensor as a register file, eight pages and a configuration memory; `struct bmi2_dev` over a bus that may fail |
| `Upload` | loading the configuration file |
| `Pages`, `Steps` | what lives where in page memory, non-interference and round trips; the step parameters over four pages |
| `MainConfigs` | the accelerometer's, gyroscope's and auxiliary configurations in plain registers |
| `Features`, `Sensors`, `Configs`, `Queries`, `Outputs`, `Remap` | the calls that switch, configure and read back features, sensors and axes, and read what features put out, on lists |
| `Runs` | any sequence of those calls |
| `Offsets`, `AccelOffsets` | the arithmetic and registers of gyroscope and accelerometer calibration |
| `Calibration`, `AccelCalibration` | the two calibrations as a whole, from saving the configuration to restoring it |

Code that changes things step by step is a class or a method over one (`Madgwick.Filter`,
`FifoDriver.Fifo`, `Driver.Dev` and the methods that take a `Dev`); its contracts tie it to functions about
which the lemmas are proved. The bus is a list of outcomes, one per access: contracts say what holds on any
bus, and what holds on one that never fails. `sens_en_stat` is a set of features. Floats are reals. The bit trick that seeds the inverse square
root is a parameter with 10 % accuracy in the square, and `atan2f` and `asinf` are parameters, `asinf` with
its domain as a requirement. What the device answers by itself (data readings, the status, the verdict on a
configuration) is a parameter. A ghost parameter `turns` of the headerless extractions bounds the turns of
their loop: they are specified wherever the loop ends within the caller's array.

## Where the code differs from what it says, or from what one would expect

* `BMI2_FIFO_TAG_INTR_MASK` keeps all eight bits, so a header with interrupt tags is no known header and
  ends the extraction (`src/bmi270/bmi2.c:6203`); the model does the same.
* A request of zero frames is honoured only if the first frame is not the sensor's (`ZeroRequest`).
* With S4S on, the time of auxiliary frame j goes to slot 2j (`AuxStored`).
* A headerless frame that just fits at the end may be lost (`LastFrameExactly`).
* The headerless loops do not check the index past a dummy frame. In a buffer close to 65536 bytes long it wraps,
  and the loop reads the buffer again, or without end (`CutHarmlessExactly`, `CutOverruns`, `LoopNeverEnds`).
  A call on an exhausted FIFO still moves the saved index (`ExhaustedCall`).
* With S4S on, the read length of a headerless request leaves the time out, so only small requests are met
  (`RequestMetExactly`, `ThirdIsLost`).
* With S4S on, a headerless sample of a sensor that is not stored first takes its time from the next frame
  (`TakenReadsBack`).
* The upload keeps its remainder in eight bits (`StaysInFileExactly`).
* A write of an enable bit that fails takes the feature out of `sens_en_stat` even if it stays enabled in
  the device (`FailedWriteExactly`); the other way round never happens (`DoAll`).
* A configure list can lose the failure of an entry, be it unsupported or refused by the device
  (`ReportsExactly`, `RefusalGoesUnnoticed`); so can a list of getters (`FetchedReportsExactly`).
* The getters leave power save on for types below BMI2_MAIN_SENS_MAX_NUM, which is 4, and significant motion
  has type 3: asked for first, its page is read while power save is on (`FetchedBracket`,
  `RunTouchesAsleepExactly`).
* `bmi2_get_feature_data` goes on when power save cannot be switched off, and can succeed without a value
  (`FirstGoesUnread`).
* The read address of the auxiliary interface is written only if the caller's manual byte is zero, though
  only its lowest bit reaches the device (`AuxReadsBack`); the driver's idea of the mode goes by the whole byte
  too (`ModeAgreesExactly`).
* An accepted axis re-map that does not name one axis for each output leaves driver and device in
  disagreement (`CopyAgreesExactly`).
* A gyroscope mean at or below the lower clamp is stored with the opposite sign (`GyroCalibratedExactly`).
* The sign of the g-value given to the accelerometer calibration is checked but not used
  (`src/bmi270/bmi2.c:8870-8872`). Nor is it missed: one g is 256 units and vanishes in the eight bits of the
  offset, so every axis is calibrated to the whole multiple of one g nearest its reading
  (`CalibrationReachesExactly`, `EndsAtNearestG`), and a wrong pose is not noticed (`WrongPoseUnnoticed`).
* The accelerometer's calibration looks at the status until data is ready once, and never again; if it never
  is, it goes on all the same (`Unnoticed`). The gyroscope's gives up at the first look without data and
  leaves the sensor set up for calibration (`CalibrateGyro`).

## Model

| member | source | states |
|---|---|---|
| Madgwick.NewtonError | src/core/MadgwickAHRS.c:44-46 | one Newton step maps the error 1 - x·y² to e²(3+e)/4, so no step ever overestimates |
| Madgwick.InvSqrtAccuracy | src/core/MadgwickAHRS.c:39-48 | after two steps the inverse root is positive, never too large and short by at most 5e-5 in the square |
| Madgwick.InverseSquareRoot | src/core/MadgwickAHRS.c:39-48 | the C function computes that approximation, with those bounds |
| Madgwick.PredictedGravityIsRotation | src/core/MadgwickAHRS.c:175-196 | the direction the corrective step compares with the accelerometer is the world's vertical rotated into the sensor frame |
| Madgwick.CorrectiveStepIsGradient | src/core/MadgwickAHRS.c:175-196 | the hand-optimised s0..s3 are, as polynomials, the transposed Jacobian applied to the residual |
| Madgwick.ObjectiveExpansion | src/core/MadgwickAHRS.c:192-196 | that product is half the gradient of the squared residual: exact first-order term in every direction |
| Madgwick.StationaryExactly | src/core/MadgwickAHRS.c:192-207 | the correction vanishes exactly when the prediction equals the reading or both are vertical |
| Madgwick.GyroRateIsTangent | src/core/MadgwickAHRS.c:161-164 | the gyroscope's rate of change is orthogonal to the quaternion |
| Madgwick.RateOfChange | src/core/MadgwickAHRS.c:161-164 | the four C expressions are half the quaternion product with the angular rate on the right; what that does to the attitude is `Attitude.WorldTurnsBackward` |
| Madgwick.FeedbackIsShort | src/core/MadgwickAHRS.c:197-201 | the feedback step is at most one long, a vanishing gradient included |
| Madgwick.UnitStep | src/core/MadgwickAHRS.c:169-201 | the accelerometer branch computes the normalised gradient for the normalised reading |
| Madgwick.IntegratedAlong | src/core/MadgwickAHRS.c:210-213 | integration loses at most BETA·DT along the old quaternion |
| Madgwick.UpdateKeepsNorm | src/core/MadgwickAHRS.c:155-222 | one update, any readings: the length normalised is at least 0.9979 and the result is within [1 - 5e-5, 1] in the square |
| Madgwick.RunKeepsNorm | src/core/MadgwickAHRS.c:155-222 | the same after any number of updates |
| Madgwick.EveryNormalisationIsSafe | src/core/MadgwickAHRS.c:215-220 | from the initial state no update ever normalises a vanishing quaternion |
| Madgwick.PitchArgumentInDomain | src/core/MadgwickAHRS.c:227-232 | the argument of asinf lies in [-1, 1] whenever the squared length is at most 1 |
| Madgwick.Angles | src/core/MadgwickAHRS.c:227-232 | the three angles are those of the given quaternion, asinf within its domain; which angles these are is `Attitude.AnglesAreAttained` |
| Madgwick.Filter.constructor | src/core/MadgwickAHRS.c:30-33 | the static initial values satisfy the filter's invariant |
| Madgwick.Filter.UpdateIMU | src/core/MadgwickAHRS.c:155-222 | an update yields the specified quaternion, keeps it near unit and drops the cached angles; that it turns with the gyroscope and descends is `Attitude.WorldTurnsBackward` and `Attitude.UpdateDescends` |
| Madgwick.Filter.ComputeAngles | src/core/MadgwickAHRS.c:227-233 | filling the cache keeps the invariant that a set flag means angles of the current quaternion |
| Madgwick.Filter.GetRoll | src/core/MadgwickAHRS.c:236-240 | in every reachable state, cached or not, the roll of the current quaternion in degrees, which is that of the vertical as the sensor sees it (`Attitude.TiltOfVertical`) |
| Madgwick.Filter.GetPitch | src/core/MadgwickAHRS.c:241-245 | the same for pitch |
| Madgwick.Filter.GetYaw | src/core/MadgwickAHRS.c:246-250 | the same for yaw, that of the first axis seen from the world (`Attitude.YawOfFirstAxis`) |
| Attitude.SeenIsRotation | src/core/MadgwickAHRS.c:175-196 | a vector of the world seen from the sensor, component by component, is the quaternion product conj(q)·w·q |
| Attitude.SeenExpands | src/core/MadgwickAHRS.c:210-213 | how a vector of the world is seen after any change of the quaternion: the first-order part used below, and the exact rest |
| Attitude.WorldTurnsBackward | src/core/MadgwickAHRS.c:161-164 | under the gyroscope's rate of change every fixed vector of the world turns, seen from the sensor, as its cross product with the angular rate: the rate is about the sensor's own axes |
| Attitude.VerticalTurnsBackward | src/core/MadgwickAHRS.c:161-164 | in particular the predicted gravity: its derivative along that rate is its cross product with the rate |
| Attitude.OneHundredth | src/core/MadgwickAHRS.c:210-213 | one radian per second for one update puts half a hundredth of a radian into the initial quaternion: the sample time and the factor one half |
| Attitude.ReadingIsUnit | src/core/MadgwickAHRS.c:169-173 | the reading is compared at unit length, within 5e-5 in the square, in its own direction |
| Attitude.UpdateDescends | src/core/MadgwickAHRS.c:192-213 | an update without rotation goes down the gradient, never up, and strictly unless it vanishes; by a thousandth of its length within 25 parts in a million |
| Attitude.UpdatedAlong | src/core/MadgwickAHRS.c:210-220 | the updated quaternion is on the side of the old one |
| Attitude.TiltOfVertical | src/core/MadgwickAHRS.c:229-230 | roll's sine and cosine and the argument of asinf are the components of the predicted gravity |
| Attitude.YawOfFirstAxis | src/core/MadgwickAHRS.c:231 | yaw's sine and cosine are the components of the sensor's first axis seen from the world |
| Attitude.AnglesAreAttained | src/core/MadgwickAHRS.c:227-232 | the attitude made by yawing, then pitching, then rolling by three angles, the pitch below a right angle, gives back exactly these: for any atan2f and asinf that find an angle from its sine and cosine |
| Attitude.ReadAngles | src/core/MadgwickAHRS.c:236-250 | the three getters in a row return those angles in degrees, cached or not, and leave the quaternion alone |
| Attitude.StartIsLevel | src/core/MadgwickAHRS.c:30 | the initial quaternion is the attitude without any turn |
| Attitude.DegreesAreDegrees | src/core/MadgwickAHRS.c:236-250 | the getters' factor makes 180 of half a turn |
| FifoFormat.ParseEncoded | src/bmi270/bmi2.c:6200-6279 | reading a frame undoes writing it, anywhere in a buffer, for all seven sensor combinations and every control frame, virtual prefix or not |
| FifoFormat.EncodeParsed | src/bmi270/bmi2.c:6200-6279 | any frame read from any buffer encodes to exactly the bytes it was read from, and reading advances within the length |
| FifoFormat.HeaderIs | src/bmi270/bmi2_defs.h:1057-1071 | the header bytes bit by bit: one for each sensor, the control frames' own, and which bytes are virtual headers |
| FifoFormat.AxesBytesAre | src/bmi270/bmi2.c:6668-6695 | six bytes hold x, y and z in this order, the low byte first, in numbers modulo 65536 |
| FifoFormat.TimeBytesAre | src/bmi270/bmi2.c:7849-7866 | three bytes of time, the lowest first |
| FifoFormat.BodyBytesAre | src/bmi270/bmi2.c:6482-6662 | auxiliary sensor, gyroscope, accelerometer, time, at 0, 8, 6 or 14 and so on |
| FifoWalk.WalkReadsEncoding | src/bmi270/bmi2.c:6200-6288 | every walk over every buffer covers exactly the encoding of its frames and ends inside the buffer |
| FifoWalk.NextAdvances | src/bmi270/bmi2.c:7973-7996 | every frame read moves the index forward, not past the length: the loops' measure |
| FifoWalk.LockStep | src/bmi270/bmi2.c:7492-7604 | any two of the three walks visit the same frame starts as far as both go, and end alike when neither request is met |
| FifoWalk.UnmetRequestReadsAll | src/bmi270/bmi2.c:6839-6947 | a walk whose request is not met is the sensor-independent reading of the whole buffer |
| FifoWalk.MetRequestReadsPrefix | src/bmi270/bmi2.c:6274-6285 | a met request visits the shortest prefix holding that many frames of the sensor |
| FifoWalk.Resume | src/bmi270/bmi2.c:3001-3041 | extracting n then m frames through the saved index is extracting n + m: frames, index, sensor time, skipped count |
| FifoWalk.AllReadsWritten | src/bmi270/bmi2.c:6200-6279 | written frames filling a buffer are all read back, with the last sensor time and skipped count |
| FifoWalk.RoundTrip | src/bmi270/bmi2.c:6180-6288 | per sensor: all its frames, or the first so many, in order |
| FifoWalk.ShorterReadsLess | src/bmi270/bmi2.c:6200-6288 | a shorter length yields a prefix, and no frame depends on a byte at or past the length |
| FifoWalk.NeverMoreThanWanted | src/bmi270/bmi2.c:6274-6279 | at most the requested number, if at least one was requested |
| FifoWalk.ZeroRequest | src/bmi270/bmi2.c:6275 | exactly when a request of zero is honoured: when the first frame is not the sensor's |
| FifoWalk.ZeroRequestReadsAll | src/bmi270/bmi2.c:6274-6279 | an input on which a request of zero returns two samples |
| Samples.RemapUndone | src/bmi270/bmi2.c:5828-5869 | a signed permutation of axes is undone by its inverse on every int16 triple, -32768 wrapping to itself |
| Samples.RemapInjectiveExactly | src/bmi270/bmi2.c:5828-5869 | re-mapping loses nothing exactly when it is a permutation |
| Samples.CompensatedIsClipped | src/bmi270/bmi2.c:8565-8593 | cross-axis compensation is the exact difference clipped to sixteen bits, for every seven-bit coefficient |
| Samples.IdentityKeeps | src/bmi270/bmi2.c:5828-5869 | without a re-map a triple is handed out as it is |
| Samples.RemapOfOneAxis | src/bmi270/bmi2.c:5841-5868 | a reading along one axis comes out along the outputs that name it, turned round exactly where they are marked negative |
| Samples.RemapComposes | src/bmi270/bmi2.c:5828-5869 | re-mapping twice is re-mapping by the signed composite, signs combined by exclusive or, on every int16 triple |
| Samples.CompensationSparesYZ | src/bmi270/bmi2.c:8585-8592 | compensation leaves y and z alone whatever the coefficient, and the whole triple at coefficient 0 |
| Samples.GyroIsCompensatedFirst | src/bmi270/bmi2.c:7353-7357 | undoing the re-map gives the compensated triple: x corrected and clipped, y and z as read |
| Headerless.CleanScan | src/bmi270/bmi2.c:6076-6115 | without dummies and empty marks exactly the frames meeting the strict length tests are returned |
| Headerless.DummyIs | src/bmi270/bmi2_defs.h:179-184 | which bytes at a position are a dummy frame of a sensor |
| Headerless.EmptyMarkIs | src/bmi270/bmi2_defs.h:179-184 | and which mark the end of the data |
| Headerless.CutHarmlessExactly | src/bmi270/bmi2.c:6084-6092 | the loop with its 16-bit index ends and does what it would with an unbounded one exactly if no dummy frame carries the index past sixteen bits |
| Headerless.AlwaysHarmlessExactly | src/bmi270/bmi2.c:6084-6092 | no buffer content can do that exactly if length plus frame length is at most 65542 |
| Headerless.ShortCall | src/bmi270/bmi2.c:6121-6174 | up to that length every call ends and returns at most the requested number |
| Headerless.ExhaustedCall | src/bmi270/bmi2.c:5996-6071 | a call on an exhausted FIFO takes nothing but moves the saved index on by the sensor's offset, until the sum wraps and extraction starts over |
| Headerless.CutOverruns | src/bmi270/bmi2.c:6084-6092 | an input on which the index wraps and a request for 5461 samples returns 10921 |
| Headerless.LoopNeverEnds | src/bmi270/bmi2.c:6084-6092 | an input, S4S on, on which the index wraps to where it began and the loop never ends |
| Headerless.LoopIsSound | src/bmi270/bmi2.c:6121-6174 | wherever the cut is harmless: at most the requested number, samples never overlap, lie below the read length and in the buffer, and with S4S off stand whole frame lengths from the start |
| Headerless.CleanCall | src/bmi270/bmi2.c:6076-6115 | in a buffer without dummy frames it always is, up to the full sixteen bits of length |
| Headerless.WholeCount | src/bmi270/bmi2.c:5996-6174 | how many samples a request takes from a clean buffer of whole frames, S4S on or off |
| Headerless.RequestMetExactly | src/bmi270/bmi2.c:6009-6043 | exactly when such a request is met: as many readable frames, and with S4S on a small request, because the read length leaves the time out |
| Headerless.LastFrameExactly | src/bmi270/bmi2.c:6084 | exactly when the last of n frames comes back when all are asked for, S4S on or off |
| Headerless.LastFrameIsLost | src/bmi270/bmi2.c:6084 | an input on which the accelerometer's last sample is lost |
| Headerless.ThirdIsLost | src/bmi270/bmi2.c:6009-6043 | an input, S4S on, on which a request for all 90 frames returns 60 samples |
| FifoDriver.Fifo.ResetFifoFrameStructure | src/bmi270/bmi2.c:7897-7930 | a reset sets the lengths of the format for the S4S setting and clears the counters |
| FifoDriver.Fifo.PassFrame | src/bmi270/bmi2.c:6217-6232 | a frame of other sensors moves the cursor as one step of the walk |
| FifoDriver.Fifo.DispatchControl | src/bmi270/bmi2.c:6233-6266 | so does every control frame, and an unknown header ends the walk |
| FifoDriver.Fifo.UnpackAccelHeaderFrame | src/bmi270/bmi2.c:6482-6662 | the accelerometer's part of any frame carrying it, re-mapped, one walk step on |
| FifoDriver.Fifo.AccelTurn | src/bmi270/bmi2.c:6200-6272 | one turn of the accelerometer loop is one step of the walk and fills one slot exactly when the frame carries the sensor |
| FifoDriver.Fifo.ExtractAccelHeaderMode | src/bmi270/bmi2.c:6180-6288 | the loop computes the walk and stores its samples in order, nothing else in the caller's array changing |
| FifoDriver.Fifo.UnpackGyroHeaderFrame | src/bmi270/bmi2.c:6954-7135 | the gyroscope's part, compensated and re-mapped |
| FifoDriver.Fifo.GyroTurn | src/bmi270/bmi2.c:6859-6930 | one turn of the gyroscope loop is one step of the same walk |
| FifoDriver.Fifo.ExtractGyroHeaderMode | src/bmi270/bmi2.c:6839-6947 | the loop computes the walk and stores its samples |
| FifoDriver.Fifo.UnpackAuxFrame | src/bmi270/bmi2.c:7611-7784 | the auxiliary part and time, one walk step on |
| FifoDriver.Fifo.AuxTurn | src/bmi270/bmi2.c:7512-7587 | one turn of the auxiliary loop is one step of the same walk; the time goes to twice the slot |
| FifoDriver.Fifo.ExtractAuxHeaderMode | src/bmi270/bmi2.c:7492-7604 | the loop computes the walk and stores its samples, times indexed twice |
| FifoDriver.Fifo.ParseFifoLen | src/bmi270/bmi2.c:5996-6071 | start (cut to sixteen bits), read length (likewise) and frame length for every combination of enabled sensors |
| FifoDriver.Fifo.ShortFits | src/bmi270/bmi2.c:6121-6174 | up to the length above the loop ends within an array of the requested size |
| FifoDriver.Fifo.UnpackHeaderlessFrame | src/bmi270/bmi2.c:7142-7322 | the sample at the position, re-mapped, with the time one frame length on |
| FifoDriver.Fifo.ExtractAxesHeaderlessMode | src/bmi270/bmi2.c:6780-6833 | for every input on which the loop ends within the caller's array, wrapped or not, the accelerometer and gyroscope loops leave that many turns' samples and nothing else |
| FifoDriver.Fifo.ExtractAuxHeaderlessMode | src/bmi270/bmi2.c:7434-7486 | the same for the auxiliary loop, times indexed twice |
| FifoDriver.Fifo.ExtractAccel | src/bmi270/bmi2.c:3001-3041 | first call after the dummy byte, later calls from the saved index, in either mode |
| FifoDriver.Fifo.ExtractGyro | src/bmi270/bmi2.c:3048-3087 | the same for the gyroscope |
| FifoDriver.Fifo.ExtractAux | src/bmi270/bmi2.c:3093-3132 | the same for the auxiliary sensor |
| FifoDriver.AccelInTwoCalls | src/bmi270/bmi2.c:3001-3041 | two calls through the saved index leave the samples, in order, and the state that one call for both numbers leaves |
| FifoDriver.GyroConcat | src/bmi270/bmi2.c:3048-3087 | what two gyroscope extractions store is, end to end, what the joined frames would have stored |
| FifoDriver.AxesHeaderlessRoundTrip | src/bmi270/bmi2.c:6295-6475 | from a clean headerless buffer of whole frames the loop's m-th sample is the m-th written triple, itself if there is no re-map and no coefficient, exactly while the strict length tests hold |
| FifoDriver.AuxHeaderlessRoundTrip | src/bmi270/bmi2.c:7434-7486 | the same for the auxiliary bytes |
| FifoDriver.TakenReadsBack | src/bmi270/bmi2.c:6330-6360 | each frame reads back where the offsets say; with S4S on only the sensor stored first gets its own frame's time, the others three bytes of the next frame |
| FifoDriver.AccelRoundTrip | src/bmi270/bmi2.c:6180-6288 | a FIFO of whole frames yields every accelerometer sample in order: the triples that were written if there is no re-map, and these re-mapped otherwise |
| FifoDriver.GyroRoundTrip | src/bmi270/bmi2.c:6839-6947 | the same for the gyroscope: the written triples if there is neither coefficient nor re-map; otherwise, the re-map undone, y and z as written |
| FifoDriver.AuxRoundTrip | src/bmi270/bmi2.c:7492-7604 | the same for the auxiliary bytes; which slots get whose time under the double index |
| FifoDriver.FreshAccel | src/bmi270/bmi2.c:3001-3041 | a first call on written frames after the dummy byte hands the caller the written triples, all and in order, with their times, and leaves nothing to read |
| FifoDriver.FreshGyro | src/bmi270/bmi2.c:3048-3087 | the same for the gyroscope |
| Bits.GetAfterSet | src/bmi270/bmi2_defs.h:89-102 | a field reads back as the written value cut to the field's width |
| Driver.Dev.GetRegs | src/bmi270/bmi2.c:1948-2000 | a read returns what the registers or the selected page hold, or fails and returns nothing |
| Driver.Dev.SetRegs | src/bmi270/bmi2.c:2005-2057 | a write changes exactly the addressed bytes; the power-save flag follows the byte written, failed or not |
| Driver.Dev.SetAdvPowerSave | src/bmi270/bmi2.c:2135-2167 | bit 0 of PWR_CONF and the flag become the argument, all else unchanged; or an error and no change |
| Driver.PowerSaveIsOdd | src/bmi270/bmi2.c:2135-2167 | power save is the lowest bit of PWR_CONF, in numbers; switching it keeps the other seven |
| Driver.ChunksEndExactly | src/bmi270/bmi2.c:4755-4795 | the chunk loop ends exactly if the read/write length is at least 2 |
| Driver.Dev.ReadInChunks | src/bmi270/bmi2.c:4755-4795 | chunks of any length from 2 on assemble the same sixteen bytes, and the loop ends |
| Driver.Dev.GetFeatConfig | src/bmi270/bmi2.c:4725-4810 | the page's bytes whatever the read/write length, invalid pages refused, page memory untouched even on failure |
| Upload.AddressRebuilt | src/bmi270/bmi2.c:4975-4979 | the two address bytes give the device back the even index they were made from |
| Upload.TilesWriteOnce | src/bmi270/bmi2.c:4886-4916 | pieces laid end to end write every byte below the end exactly once and no other |
| Upload.SetConfigLoad | src/bmi270/bmi2.c:4944-4960 | the load bit becomes the argument, all else unchanged |
| Upload.UploadRange | src/bmi270/bmi2.c:4886-4917 | each of the three loops uploads the file up to where it ends, for any bound and step it can start with |
| Upload.StaysInFileExactly | src/bmi270/bmi2.c:4866-4917 | neither loop reads past the file, the eight-bit remainder included, exactly if the size is even and the remainder is below 256 |
| Upload.RemainderIsCut | src/bmi270/bmi2.c:4867 | an input, 8192 bytes in steps of 5000, on which the first loop ends at 10000 |
| Upload.LoopsMeet | src/bmi270/bmi2.c:4881-4921 | when they stay in the file, the first loop ends where the second begins and that one at the end of the file |
| Upload.UploadAll | src/bmi270/bmi2.c:4881-4921 | both ways through the middle leave the whole file in place and the read/write length as it was |
| Upload.WriteConfigData | src/bmi270/bmi2.c:4855-4938 | read/write length unchanged on every path; success means memory equals file, written once, load bit off during and on after, power save on |
| Upload.WriteConfigFile | src/bmi270/bmi2.c:2202-2245 | made even, then uploaded; on a reliable bus success exactly if there is a file and the sensor reports its load |
| Pages.FieldsReadBack | src/bmi270/bmi270.c:2686-2727 | fields set one after the other all read back cut to their widths |
| Pages.FieldsKeep | src/bmi270/bmi270.c:2686-2727 | bits outside all the fields survive |
| Pages.WordBytes | src/bmi270/bmi2_defs.h:89-102 | the low byte of a word comes first, in numbers |
| Pages.EnableBitIsPlaced | src/bmi270/bmi270.c:487-505 | every enable bit is where the look-up table and its offset put it, the three step features one after the other |
| Pages.ConfigIsPlaced | src/bmi270/bmi270.c:487-505 | every configuration starts where that table says, the wrist-wear one a word later |
| Pages.ConfigIsWritten | src/bmi270/bmi270.c:2658-3283 | what is in which word of the page after each setter, in numbers: durations, axis selections, thresholds, gains, and the bits around them as before |
| Pages.OwnersApart | src/bmi270/bmi270.c:487-505 | no two of the configurations, enable bits, axis bits and step parameters share a bit of page memory |
| Pages.ConfigReadsBack | src/bmi270/bmi270.c:3289-3836 | each setter followed by its getter returns the input cut to the fields' widths |
| Pages.ConfigIsLocal | src/bmi270/bmi270.c:2658-3283 | no bit of any page outside the configuration's own changes |
| Pages.EnableReadsBack | src/bmi270/bmi270.c:2099-2652 | setting an enable bit reads back and changes no other bit of any page |
| Pages.EnableBitKept | src/bmi270/bmi270.c:2099-2652 | an enable bit survives every change made for another owner |
| Pages.ConfigKept | src/bmi270/bmi270.c:2658-3283 | a configuration survives every change made for another owner |
| Pages.OthersKeep | src/bmi270/bmi270.c:487-505 | any owner's bits survive a change confined to another's |
| Steps.StepsReadBack | src/bmi270/bmi270.c:3528-3642 | the 25 parameters read back identically for every even start address 0..14 |
| Steps.StepReadsBack | src/bmi270/bmi270.c:2918-3038 | the k-th parameter is word k counted from the start word of page 3 on |
| Steps.StepsAreLocal | src/bmi270/bmi270.c:2918-3038 | writing them changes nothing but their fifty bytes over pages 3 to 6 |
| Steps.StepsKept | src/bmi270/bmi270.c:2918-3038 | they survive every other change |
| Steps.SetStepParams | src/bmi270/bmi270.c:2918-3038 | all four pages end up holding the parameters; on any bus nothing else changes |
| Steps.GetStepParams | src/bmi270/bmi270.c:3528-3642 | returns the parameters the pages hold, changing no page |
| Features.SetFeature | src/bmi270/bmi270.c:2099-2149 | on success the enable bit and sens_en_stat agree with the argument; on failure pages are unchanged and the feature may only leave sens_en_stat |
| Features.SetConfig | src/bmi270/bmi270.c:2658-2736 | the page with the configuration's fields set, everything else as before; or an error and no page changed |
| Features.GetConfig | src/bmi270/bmi270.c:3289-3358 | the configuration the page holds, changing no page |
| Sensors.MainByteExactly | src/bmi270/bmi270.c:4309-4353 | exactly the selected main sensors are switched, the upper four bits kept |
| Sensors.MainBits | src/bmi270/bmi2_defs.h:310-313 | auxiliary sensor, gyroscope, accelerometer and temperature are bits 0 to 3 |
| Sensors.SwitchMains | src/bmi270/bmi270.c:4309-4353 | the power-control register so edited, or an error and no change |
| Sensors.SwitchedExactly | src/bmi270/bmi270.c:4358-4424 | exactly the selected features are switched, in the device and in sens_en_stat alike |
| Sensors.SwitchingKeepsConfigs | src/bmi270/bmi270.c:4358-4424 | switching features changes no configuration |
| Sensors.SwitchingKeepsBits | src/bmi270/bmi270.c:4358-4424 | nor any bit that is not an enable bit |
| Sensors.SwitchFeatures | src/bmi270/bmi270.c:4358-4424 | the ten guarded calls have that effect; on any bus a feature believed enabled is enabled |
| Sensors.SoundUnder | src/bmi270/bmi270.c:2658-3283 | changes outside the enable bits leave sens_en_stat as right or wrong as it was |
| Sensors.SelectSensor | src/bmi270/bmi270.c:1953-2014 | the sets a list names; one unknown entry makes it an error |
| Sensors.SensorSwitch | src/bmi270/bmi270.c:2019-2094 | main sensors, then features inside the power-save bracket, power save as before |
| Sensors.SwitchList | src/bmi270/bmi270.c:1441-1498 | a whole list, nothing done if an entry is unknown |
| Sensors.Switched | src/bmi270/bmi270.c:2019-2094 | enabling or disabling a list leaves power save as it was and touches no page while it is on |
| Sensors.SwitchedAsAsked | src/bmi270/bmi270.c:1441-1498 | every listed main sensor and feature is switched, every other, and every configuration, is as before |
| Sensors.FailedWriteExactly | src/bmi270/bmi270.c:2133-2142 | after a failed write of an enable bit sens_en_stat is still exact exactly if the feature was off in the device |
| Sensors.FailedWriteLosesTrack | src/bmi270/bmi270.c:2133-2142 | so after any feature has been enabled one failed write loses track of it |
| MainConfigs.BoundedIsNearest | src/bmi270/bmi2.c:8598-8627 | a value out of range goes to the allowed value nearest to it |
| MainConfigs.AccelLimits | src/bmi270/bmi2.c:5001-5044 | which accelerometer configurations are allowed, and that exactly these are taken as they are |
| MainConfigs.GyroLimits | src/bmi270/bmi2.c:5050-5084 | the same for the gyroscope |
| MainConfigs.AccelBytesAre | src/bmi270/bmi2.c:9022-9075 | the accelerometer's two registers as sums of the values |
| MainConfigs.GyroBytesAre | src/bmi270/bmi2.c:9082-9134 | the gyroscope's |
| MainConfigs.AuxBytesAre | src/bmi270/bmi2.c:5270-5350 | the auxiliary interface's four, with the bits that stay |
| MainConfigs.FirmwareBytes | src/bmi270/accel_gyro.c:203-259 | what the firmware's own configurations come to in the registers |
| MainConfigs.EventsAre | src/bmi270/bmi2.c:5090-5123 | which verdict of the device is which result |
| MainConfigs.AccelReadsBack | src/bmi270/bmi2.c:9022-9075 | a corrected accelerometer configuration fits its register fields and reads back; correcting twice is correcting once |
| MainConfigs.GyroReadsBack | src/bmi270/bmi2.c:9082-9134 | the same for the gyroscope |
| MainConfigs.MainReadsBack | src/bmi270/bmi2.c:5444-5526 | writing one of the register configurations, accepted or refused, reads back corrected and leaves the accelerometer's and the gyroscope's otherwise alone |
| MainConfigs.AuxReadsBack | src/bmi270/bmi2.c:5133-5157 | the auxiliary configuration reads back cut to its fields; the read address only when the caller's manual byte is zero, not merely even |
| MainConfigs.InfoTellsExactly | src/bmi270/bmi2.c:8598-8627 | dev->info gains no bit exactly if every accelerometer or gyroscope value was taken as it was |
| MainConfigs.ModeAgreesExactly | src/bmi270/bmi2.c:5310-5330 | driver and device agree on the auxiliary interface's manual mode exactly if the caller's byte is zero or odd |
| MainConfigs.SetAccelConfig | src/bmi270/bmi2.c:9022-9075 | the two registers written and the device's verdict returned, the caller's values corrected and dev->info told; on any bus no other register changes, and success means the device took it |
| MainConfigs.SetGyroConfig | src/bmi270/bmi2.c:9082-9134 | the same for the gyroscope |
| MainConfigs.SetAuxConfig | src/bmi270/bmi2.c:5133-5157 | interface, configuration bytes, read address and rate, or busy with only the interface enabled; the driver's notes likewise |
| MainConfigs.WaitForAux | src/bmi270/bmi2.c:5270-5350 | up to 21 looks at the status, then busy |
| MainConfigs.SetMain | src/bmi270/bmi2.c:2533-2551 | the first three cases of the list, state, result and notes together |
| Configs.AppliedReadsBack | src/bmi270/bmi270.c:4199-4249 | after one entry its configuration reads back and every other, and the step parameters, are as before |
| Configs.AppliedIsLocal | src/bmi270/bmi270.c:4199-4249 | one entry touches only what it owns |
| Configs.SetEntry | src/bmi270/bmi270.c:4199-4249 | dispatches every entry to its setter, unsupported ones refused without a change |
| Configs.ListedBracket | src/bmi270/bmi2.c:2508-2590 | success leaves power save as it was, failure leaves it off, no page touched while it is on |
| Configs.ListedReportsExactly | src/bmi270/bmi2.c:2508-2590 | the base driver's call succeeds exactly if every entry does |
| Configs.SetMainList | src/bmi270/bmi2.c:2508-2590 | its loop computes that result |
| Configs.ConfiguredIsGuarded | src/bmi270/bmi270.c:1519-1560 | for any list, no page is touched in power save on the way through, and an error leaves power save off |
| Configs.ConfiguredBracket | src/bmi270/bmi270.c:1503-1567 | success leaves power save as it was, failure leaves it off |
| Configs.ReportsExactly | src/bmi270/bmi270.c:1519-1560 | exactly when the call fails: a failing entry stands last, or power save was off and the next entry is not an accelerometer, gyroscope, auxiliary or user-gain one |
| Configs.UnsupportedGoesUnnoticed | src/bmi270/bmi270.c:1532-1560 | an input on which the call succeeds though an entry is unsupported |
| Configs.RefusalGoesUnnoticed | src/bmi270/bmi270.c:1521-1525 | on any device, an accelerometer configuration refused by the sensor, or an unsupported entry, before a gyroscope entry: the call succeeds |
| Configs.HidesFailureExactly | src/bmi270/bmi270.c:1521-1525 | on an awake device it is exactly the register configurations and the user gain that hide a failure before them |
| Configs.GyroHasTheLastWord | src/bmi270/accel_gyro.c:191-262 | for the firmware's own list, accelerometer then gyroscope, the result is the gyroscope's alone |
| Configs.ConfiguredReadsBack | src/bmi270/bmi270.c:1503-1567 | after a list whose entries succeed every configuration, in pages and registers, is what the list last said, cut or corrected, or as before |
| Configs.ConfiguredAuxReadsBack | src/bmi270/bmi270.c:1503-1567 | so is the auxiliary interface, read address and register included |
| Configs.ConfiguringKeepsEnables | src/bmi270/bmi270.c:1503-1567 | no list, with errors or without, moves an enable bit |
| Configs.ConfiguringKeepsBits | src/bmi270/bmi270.c:1503-1567 | nor an axis bit |
| Configs.SetSensorConfig | src/bmi270/bmi270.c:1503-1567 | the loop computes that result; on any bus enable bits and sens_en_stat stand to each other as before |
| Queries.Ask | src/bmi270/bmi270.c:4254-4304 | every getter returns what the device holds and changes no page |
| Queries.MainFetchedBracket | src/bmi270/bmi2.c:2595-2680 | the base driver's getter succeeds exactly if it knows every entry, answers truly, keeps power save on success, and never touches a page in power save |
| Queries.GetMainList | src/bmi270/bmi2.c:2595-2680 | its loop computes that result; on any bus no page changes |
| Queries.FetchedAnswers | src/bmi270/bmi270.c:1572-1639 | for any list every answer is what the device held and still holds; success means all are there |
| Queries.FetchedBracket | src/bmi270/bmi270.c:1600-1633 | success leaves power save as it was, failure leaves it off; a page is touched in power save exactly if it is on and the first feature asked for is significant motion |
| Queries.SigMotionIsReadAsleep | src/bmi270/bmi2_defs.h:408 | of all getter calls for one thing exactly that for significant motion reads a page of a sleeping device: the type 3 is below BMI2_MAIN_SENS_MAX_NUM |
| Queries.FetchedReportsExactly | src/bmi270/bmi270.c:1600-1625 | exactly when the getter fails: an unknown type stands last, or before one that neither goes to the base driver nor switches power save off |
| Queries.ConfiguredThenFetched | src/bmi270/bmi270.c:1503-1639 | a list configured, then any list asked for: each answer is what the first list last said, cut or corrected, or the old value, the auxiliary interface included |
| Queries.GetSensorConfig | src/bmi270/bmi270.c:1572-1639 | the loop computes that result; on any bus no page changes |
| Outputs.DeliveredExactly | src/bmi270/bmi270.c:1644-1741 | either call on any list: values true, success exactly if every type is known, no page changed or touched in power save; success keeps power save, and a failure leaves it on exactly at an unknown type below BMI2_MAIN_SENS_MAX_NUM |
| Outputs.KnownExactly | src/bmi270/bmi2.c:2715-2742 | the base driver knows the gain status and the cross sensitivity, the sensor's own call all seven |
| Outputs.ValuesAre | src/bmi270/bmi270.c:508-516 | the values put together again, in numbers, are the bytes of page 0 they come from: which byte is which output, and in which order |
| Outputs.ReadOutput | src/bmi270/bmi270.c:3841-4168 | the output a type names, as page 0 holds it |
| Outputs.GetBaseOutputs | src/bmi270/bmi2.c:2685-2761 | its loop computes that result; on any bus every value is true or missing, and a first access that fails costs the first value only |
| Outputs.FirstGoesUnread | src/bmi270/bmi2.c:2707-2712 | an input, a bus failing once, on which the call succeeds without the first value |
| Outputs.GetOutputs | src/bmi270/bmi270.c:1644-1741 | the loop computes that result; on any bus every value is true or missing |
| Remap.AcceptsPermutationsExactly | src/bmi270/bmi2.c:4147-4151 | with one axis named for each output, accepted exactly when it is a permutation |
| Remap.AxesReadBack | src/bmi270/bmi2.c:3970-4116 | set then get returns the input, and the driver's copy is what the device holds |
| Remap.SamplesAsAsked | src/bmi270/bmi2.c:4147-4275 | after an accepted re-map naming one axis each, samples are what the caller's bytes asked for: 1 x, 2 y, 4 z, 8 turned round |
| Remap.AxesAreInPage | src/bmi270/bmi2.c:8510-8530 | after set, bytes 4 and 5 of page 1 name for each output the bit the caller named, and its sign, in numbers |
| Remap.BytesAre | src/bmi270/bmi2.c:8510-8530 | the two bytes in numbers |
| Remap.AxesAreLocal | src/bmi270/bmi2.c:8510-8530 | set touches nine bits; the rest of byte 5, and of the page, survives |
| Remap.AcceptedYetConfused | src/bmi270/bmi2.c:4147-4200 | an accepted input after which the driver's copy and the device disagree |
| Remap.CopyAgreesExactly | src/bmi270/bmi2.c:4147-4275 | exactly when they agree, as a test on the input bytes and the old copy |
| Remap.WriteAxes | src/bmi270/bmi2.c:8470-8545 | the two bytes in place, or an error and no page changed |
| Remap.SetRemapAxes | src/bmi270/bmi2.c:4122-4297 | acceptance, the driver's copy, the page and the power-save bracket |
| Remap.GetRemapAxes | src/bmi270/bmi2.c:3970-4116 | the caller's bytes and the driver's copy from the page, which is unchanged |
| Runs.RunKeepsShadow | src/bmi270/bmi270.c:2099-2596 | over every run of enable, disable, configure, getter, output, re-map and power-save calls each feature is believed enabled exactly if its bit is set |
| Runs.RunTouchesAsleepExactly | src/bmi270/bmi270.c:1441-1741 | over every such run a page is touched in power save exactly if some getter call asks for significant motion first while power save is on |
| Runs.RunKeepsAxes | src/bmi270/bmi2.c:3970-4297 | over every run whose accepted re-maps name one axis each, samples are re-mapped by what the device holds |
| Runs.Do | src/bmi270/bmi270.c:1441-1639 | every call refines its step on a reliable bus, and the driver's power-save flag stays the device's; on any bus no disabled feature is believed enabled |
| Runs.DoAll | src/bmi270/bmi270.c:1441-1639 | so does every sequence of calls |
| Offsets.SumWithin | src/bmi270/bmi2.c:4648-4660 | sums of int16 samples stay within their count times the int16 range, so an int32_t cannot overflow |
| Offsets.SumAdds | src/bmi270/bmi2.c:4648-4660 | sums add up and that of one sample is its component: no sample left out or counted twice |
| Basics.QuotientCuts | src/bmi270/bmi2.c:4676-4690 | division cuts toward zero: the rest is smaller than the divisor and has the dividend's sign |
| Offsets.Average | src/bmi270/bmi2.c:4646-4690 | the truncated mean of 128 samples on every axis, no partial sum leaving an int32_t |
| Offsets.GyroReadsBack | src/bmi270/bmi2.c:4337-4466 | any written offset reads back congruent modulo 1024, the two bits beside it kept |
| Offsets.GyroBytesAre | src/bmi270/bmi2.c:4403-4466 | the four registers in numbers: low bytes of x, y and z, then their bits 8 and 9 from the bottom up |
| Offsets.SignExtendedExactly | src/bmi270/bmi2.c:9208-9282 | ten bits sign-extend to the stored value except at the inverted lower clamp |
| Offsets.WriteGyroOffset | src/bmi270/bmi2.c:4403-4466 | the four registers packed from the three axes, no other register changed |
| Offsets.StoreAndReadBack | src/bmi270/bmi2.c:4337-4466 | stored and read back, every axis agrees modulo 1024; no other register changes |
| Offsets.SetGyroOffsetComp | src/bmi270/bmi2.c:4303-4331 | bit 6 of register 0x77 set, nothing else |
| Offsets.GyroCalibratedExactly | src/bmi270/bmi2.c:4683-4700 | the offset in force is minus the clamped mean exactly if the mean is above -512 |
| Offsets.GyroZeroedExactly | src/bmi270/bmi2.c:4683-4706 | with the stored offset in force an axis reads zero exactly if its mean is above -512 and at most 511 |
| Offsets.OppositeOffset | src/bmi270/bmi2.c:4683-4700 | at or below that it is -512 instead of 512 |
| Offsets.SteadyMean | src/bmi270/bmi2.c:4676-4690 | an input of that kind |
| Offsets.GyroFocStores | src/bmi270/bmi2.c:4683-4706 | writing and enabling leave minus the clamped mean, modulo 1024, and the top bit of 0x77 |
| Offsets.PerformGyroFoc | src/bmi270/bmi2.c:4673-4706 | for any 128 samples every axis ends up so calibrated, no other register changed |
| Calibration.SampleGyro | src/bmi270/bmi2.c:4644-4670 | 128 looks, each with data ready and its reading; one without ends it with an error |
| Calibration.ReadingIs | src/bmi270/bmi2.c:8213-8283 | the six data registers read back the triple the sensor put in them |
| Calibration.GyroFocIs | src/bmi270/bmi2.c:9169-9203 | the configuration the gyroscope is calibrated in, and the bit that says data is ready |
| Calibration.CalibrateGyro | src/bmi270/bmi2.c:4600-4719 | the whole calibration: on any bus success means configuration (corrected), enable bit and power save as they were and offsets those for the samples, and no other register is touched; on a reliable bus, what a failure leaves |
| AccelOffsets.BitPosition | src/bmi270/bmi2.c:8915-8946 | for every range the search ends, at the position with 256·2^pos = lsb per g |
| AccelOffsets.RangeDoubles | src/bmi270/bmi2.c:8834-8856 | full scale is 2 g at range code 0 and doubles with the code |
| AccelOffsets.OffsetIsInverseExactly | src/bmi270/bmi2.c:8900-8957 | the byte is the negated quotient exactly when that fits in eight bits |
| AccelOffsets.WithinHalfAUnitExactly | src/bmi270/bmi2.c:8887-8957 | exactly when the offset leaves at most half a unit; never three halves or more |
| AccelOffsets.DeltaExactly | src/bmi270/bmi2.c:8861-8878 | exactly when the deviation the code computes wraps in sixteen bits |
| AccelOffsets.WholeGReachedExactly | src/bmi270/bmi2.c:8861-8957 | whatever pose is asked for, an axis ends within three halves of a unit (1/256 g) of exactly those whole multiples of one g that it read less than about half a g away from |
| AccelOffsets.CalibrationReachesExactly | src/bmi270/bmi2.c:8861-8957 | so it reaches its signed target exactly if it read less than about half a g away, sign or no sign; and when half a unit is enough |
| AccelOffsets.WrongPoseUnnoticed | src/bmi270/bmi2.c:8861-8957 | an axis that reads what one pose makes it read is calibrated to that though another pose was asked for |
| AccelOffsets.EndsAtNearestG | src/bmi270/bmi2.c:8861-8957 | every axis ends at the whole multiple of one g nearest its reading, give or take half a unit |
| AccelOffsets.AgainstGravityReached | src/bmi270/bmi2.c:8861-8957 | an input, posed against gravity, that ends one unit from its target |
| AccelOffsets.JustOutOfReach | src/bmi270/bmi2.c:8861-8957 | an input half a unit over half a g away, which ends near one g instead of zero |
| AccelOffsets.OffsetBytes | src/bmi270/bmi2.c:8763-8789 | three bytes from 128 samples |
| AccelOffsets.WriteAccelOffset | src/bmi270/bmi2.c:8963-8979 | the three offset registers, nothing else |
| AccelOffsets.SetAccelOffsetComp | src/bmi270/bmi2.c:8811-8828 | bit 3 of NV_CONF, nothing else |
| AccelOffsets.PerformAccelFoc | src/bmi270/bmi2.c:8763-8805 | offset bytes for every axis in the registers and compensation on, no other register changed |
| AccelCalibration.SampleAccel | src/bmi270/bmi2.c:8736-8760 | which readings become the 128 samples, as a function of when the status first says ready; a reliable bus never fails it |
| AccelCalibration.Unnoticed | src/bmi270/bmi2.c:8736-8760 | a sensor that never has data ready goes unnoticed, and a ready one is waited for only once |
| AccelCalibration.AccelFocIs | src/bmi270/bmi2.c:8664-8697 | the configuration the accelerometer is calibrated in, the bit that says data is ready, the bit that switches the compensation |
| AccelCalibration.CalibratedAtItsRange | src/bmi270/bmi2.c:8763-8957 | at every range code the device can be set to, its offset registers bring each axis to its signed target exactly if it read less than about half a g away |
| AccelCalibration.CalibrateAccel | src/bmi270/bmi2.c:4539-4595 | the whole calibration: on any bus success means configuration (corrected), enable bit and power save as they were and every axis calibrated, from 128 samples, at the range the device is set to, and no other register is touched; a request without exactly one axis changes nothing; on a reliable bus, what a failure leaves |

## Left out

- The magnetometer branch of `MadgwickAHRSupdate` (`src/core/MadgwickAHRS.c:68-150`): large, its field scaling is not settled by the files; without a magnetometer reading it calls the update modelled here.
- Float rounding, and the integer seed of `invSqrt`: reals, and an oracle with 10 % accuracy.
- Madgwick.InvSqrtAccuracy: assumes the seed's accuracy; how the integer trick achieves it for a `long` as wide as a `float` is not modelled.
- FifoDriver.Fifo.ExtractAccelHeaderMode: needs the buffer to reach one byte past its length and a length of at most 65534, because the code looks at the byte after a final virtual header; and frame lengths set by a reset under the same S4S setting.
- FifoDriver.Fifo.ExtractAxesHeaderlessMode: one method for the accelerometer's and the gyroscope's loops, which differ only in their marks and offsets.
- Upload.WriteConfigData: requires that neither loop reads past the file, which C leaves undefined; `StaysInFileExactly` says for which files that is.
- Configs.SetSensorConfig: what a list leaves in `dev->info`, in the auxiliary notes and in the caller's array is stated for each entry (`MainConfigs.SetMain` and the setters it calls), not for the list.
- Calibration.CalibrateGyro: which step a failing bus stops at is not told apart; success, and the registers out of reach, are stated on any bus, here and for `AccelCalibration.CalibrateAccel`.
- Outputs.ReadOutput: the cross-sensitivity of the maximum-FIFO variant, which comes from a register; the driver here sets other variant bits.
- The default branches of the frame unpackers, which no header that reaches them takes.
- Driver.Dev.ReadInChunks: a read/write length of 0 or 1 makes the C loop run for ever, so at least 2 is required; `ChunksEndExactly` shows it.
- Driver.Dev.SetRegs: a burst lies in the feature window, in plain registers or in the data port; the driver issues no burst across them. A failed access leaves the device as it was.
- Upload.WriteConfigFile: the sensor's load status is a register the device sets; its timing is not modelled.
- Driver.Dev.GetFeatConfig: registers, pages and page buffers are sequences held in fields and variables, not arrays; no two of the C code's buffers overlap, so only the place of an update is not captured.
- Features.SetFeature: one method for the ten setters, the place of the bit being a parameter; likewise `SetConfig` and `GetConfig` for the configurations, whose final loop copying a buffer onto itself is omitted.
- Sensors.SensorSwitch: one method for enabling and disabling.
- Steps.SetStepParams: the start page is 3, as in the feature table; on a failing bus only what it does not touch is stated, since the loop goes on after an error.
- Self-test, component re-trim and non-volatile memory: mostly device timing.
- One-register settings (watermark, down-sampling, interrupt pins, latch), null-pointer checks, delays, error printing, user interface and board headers.
