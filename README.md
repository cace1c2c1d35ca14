# libHawaii and the AR.Drone demo applications, modelled in Dafny

libHawaii is a C++ library for mixed CPU/GPU image processing. The drone demo
applications around it fly a Parrot AR.Drone 2.0 from camera images. This
project models their core and proves properties of the model. Every
component is a Dafny module:

- `AutoMats` (automat.dfy): `hawaii::AutoMat`, one logical image held as a
  pageable host copy, a page-locked host copy and one copy per GPU, each with
  an up-to-date flag. A write marks every other copy stale. A read finds a
  valid copy and materialises the requested copy by wrapping, mapping,
  downloading, peer copying or uploading, then restores the caller's GPU.
  Regions of interest, assignment and the getters are modelled as well.
- `Pool` (pool.dfy): `hawaii::MemoryPool`. Each GPU and the page-locked host
  memory have 64 buckets of power-of-two buffers. A request is padded to the
  largest GPU alignment and served by the first entry nobody else references,
  or by a new entry. Status reports and `clear` are modelled too.
- `GpuRuntime` (runtime.dfy): the CUDA runtime and OpenCV headers as the two
  classes above see them. A buffer has a location, a size, a shared
  reference count and abstract contents, and the runtime has an active
  device.
- `Ranges` and `Submatrix` (roi.dfy): OpenCV's ranges and region-of-interest
  headers.
- `Hardware` (hardware.dfy): the per-device capability tables and their
  validating accessors, for any hardware given as a parameter.
- `MinMax` (minmax.dfy): the variadic `min` and `max`.
- `Partition` (partition.dfy): `partitionize`, by count or by ratios (the
  largest remainder method), over integers, ranges and matrices.
- `Trackers`, `Controller`, `Commands` (tracker.dfy, controller.dfy,
  commands.dfy): the scalar filters, the PID controller with anti-wind-up,
  and the drone's command set.
- `Navigation`, `Dense3D`, `Sparse3D` (navigator.dfy, dense3d.dfy,
  sparse3d.dfy): the flight state machines. Their detector and odometry
  outputs are inputs.
- `FollowPerson` (queue.dfy): the 30-slot weighted-mean queue of the person
  follower.
- `ImageProcessing` (imageproc.dfy): the landmark detector's table of
  connected components, the ranking of components into a chain, the symbol
  choice, and the input handling of `detectLandmark`.
- `Images`, `Serialization`, `Messages` (images.dfy, serialization.dfy,
  message.dfy): the archive layout of `cv::Mat` and of `MessageData`.
- `Utilities` (basic.dfy): the `int`/string conversions and the angle
  conversions.
- `Odometry` (odometry.dfy): odometry from the drone's own navigation data.
- `Doubles` and `Wrappers` (doubles.dfy, wrappers.dfy): doubles with an
  explicit NaN, a timer, 3-vectors, `Option` and `Result`.

Notes on the modelling:

- Errors the source raises with `HAWAII_ERROR`, and the failures it reports,
  are `Result.Err` values carrying the source's message. Failures raised
  inside OpenCV, CUDA or boost, whose text is not part of this model, carry
  a short description instead: `AutoMats.ErrNegativeSize`,
  `Partition.ErrRoi`, `GpuRuntime.ErrCuda`, `Serialization.ErrStream`,
  `Serialization.ErrCreate`. So do two checks the model adds where the
  source reads on unchecked: `Serialization.ErrElemSize` and
  `Messages.ErrCommand`.
- Clocks, sensor values, libviso's outcome and the detector's outputs are
  parameters of the operations that read them.
- The CUDA heap and the memory pool are objects passed to every operation
  that uses them.

## Model

| member | source | states |
|---|---|---|
| MinMax.MinFold | code/libHawaii/eclipse/inc/hawaii/common/minMax.h:32-36 | the recursion step keeps `t1 < t2 ? t1 : t2` and goes on with the rest; the result is the kept value or one of the rest |
| MinMax.MaxFold | code/libHawaii/eclipse/inc/hawaii/common/minMax.h:37-41 | the recursion step keeps `t1 > t2 ? t1 : t2`; the result is the kept value or one of the rest |
| MinMax.Min | code/libHawaii/eclipse/inc/hawaii/common/minMax.h:30-36 | `min` returns one of its arguments, and a single argument unchanged |
| MinMax.Max | code/libHawaii/eclipse/inc/hawaii/common/minMax.h:31-41 | `max` returns one of its arguments, and a single argument unchanged |
| MinMax.MinFoldLeast | code/libHawaii/eclipse/inc/hawaii/common/minMax.h:32-36 | for a strict weak order, neither the kept value nor any later argument is less than the result |
| MinMax.MaxFoldGreatest | code/libHawaii/eclipse/inc/hawaii/common/minMax.h:37-41 | for a strict weak order, the result is less than neither the kept value nor any later argument |
| MinMax.MinIsLeast | code/libHawaii/eclipse/inc/hawaii/common/minMax.h:32-36 | no argument is less than the result of `min` |
| MinMax.MaxIsGreatest | code/libHawaii/eclipse/inc/hawaii/common/minMax.h:37-41 | the result of `max` is less than no argument |
| MinMax.MinFoldLast | code/libHawaii/eclipse/inc/hawaii/common/minMax.h:34 | the fold returns the kept value with every later argument strictly greater, or an argument after which every argument is strictly greater |
| MinMax.MaxFoldLast | code/libHawaii/eclipse/inc/hawaii/common/minMax.h:39 | the same for `max`, with every later argument strictly smaller |
| MinMax.MinPicksLastTie | code/libHawaii/eclipse/inc/hawaii/common/minMax.h:34 | ties go to the later argument: `min` returns the argument at a position after which every argument is strictly greater |
| MinMax.MaxPicksLastTie | code/libHawaii/eclipse/inc/hawaii/common/minMax.h:39 | ties go to the later argument: every argument after the one `max` returns is strictly smaller |
| Hardware.GpusImpl | code/libHawaii/eclipse/src/common/hardware.cpp:51-59 | the device count is the reported count capped at 64, and 0 when the query fails or CUDA support is compiled out |
| Hardware.MemoryOwnImpl | code/libHawaii/eclipse/src/common/hardware.cpp:62-72 | a device owns memory iff CUDA is compiled in, the index is below GPUs (as an unsigned comparison), both attribute queries succeed and the device is not both integrated and able to map host memory |
| Hardware.AlignmentImpl | code/libHawaii/eclipse/src/common/hardware.cpp:75-84 | 1 for an index out of range, a failed query or no CUDA; otherwise one of the three alignments and not below any of them |
| Hardware.UnifiedAddressingImpl | code/libHawaii/eclipse/src/common/hardware.cpp:87-96 | true iff CUDA is compiled in, the index is in range, the query succeeds and the attribute is positive |
| Hardware.MemoryOwnTable | code/libHawaii/eclipse/src/common/hardware.cpp:100-163 | the cached table holds `GPUMemoryOwnImpl(i)` for each of the 64 slots |
| Hardware.AlignmentTable | code/libHawaii/eclipse/src/common/hardware.cpp:164-227 | the cached table holds `GPUAlignmentImpl(i)` for each of the 64 slots |
| Hardware.UnifiedAddressingTable | code/libHawaii/eclipse/src/common/hardware.cpp:292-355 | the cached table holds `GPUUnifiedAddressingImpl(i)` for each of the 64 slots |
| Hardware.AlignmentMaxInstance | code/libHawaii/eclipse/src/common/hardware.cpp:228-291 | the maximum over all 64 slots: at least every slot's alignment, at least 1, and equal to one of them |
| Hardware.ResolveGpu | code/libHawaii/eclipse/src/common/hardware.cpp:441-447 | the shared index check: no CUDA fails first, a negative index means the active GPU, an index at or above GPUs fails with "invalid GPU index" |
| Hardware.GpuMemoryOwn | code/libHawaii/eclipse/src/common/hardware.cpp:441-448 | fails without CUDA or for an index at or above GPUs, reads the cached entry of the active GPU for a negative index and of the given GPU otherwise |
| Hardware.GpuAlignment | code/libHawaii/eclipse/src/common/hardware.cpp:452-459 | the same checks; the alignment read lies between 1 and `GPUAlignmentMax` |
| Hardware.GpuAlignmentMax | code/libHawaii/eclipse/src/common/hardware.cpp:460-463 | fails without CUDA; otherwise at least 1 and at least the alignment of every slot |
| Hardware.GpuUnifiedAddressing | code/libHawaii/eclipse/src/common/hardware.cpp:467-474 | the same checks and the cached unified-addressing entry |
| Hardware.UnusedSlotsAreNeutral | code/libHawaii/eclipse/src/common/hardware.cpp:64 | slots at or above GPUs read as no own memory, alignment 1 and no unified addressing |
| FollowPerson.Weights | src/appFollowPersonFP.cpp:198 | the sum of the weights `1 + … + n` the mean divides by, positive for a non-empty queue |
| FollowPerson.WeightedBounds | src/appFollowPersonFP.cpp:194-199 | elements within [lo, hi] give a weighted sum within lo and hi times the sum of the weights |
| FollowPerson.TruncDivBounds | src/appFollowPersonFP.cpp:201 | C++ integer division truncating toward zero keeps a quotient of a value within [lo·b, hi·b] within [lo, hi] |
| FollowPerson.MeanBetween | src/appFollowPersonFP.cpp:184-204 | the weighted mean of the elements lies between the smallest and the largest of them |
| FollowPerson.MeanOfConstant | src/appFollowPersonFP.cpp:184-204 | a queue whose elements all equal c has mean c |
| FollowPerson.LaterWeighsMore | src/appFollowPersonFP.cpp:197 | an element appended at position n adds n+1 times its value to the weighted sum |
| FollowPerson.ChangeAsWrittenReturnsNothing | src/appFollowPersonFP.cpp:157-183 | as written, `push` and `pop` return 0 when they refuse (overflow, underflow) and reach the end of the function without a return value after an append or a removal |
| FollowPerson.PopReadsAsWritten | src/appFollowPersonFP.cpp:179-180 | the loop as written reads slots 1 to `r_queue + 1`, one read per element |
| FollowPerson.PopAsWrittenReadsPastEnd | src/appFollowPersonFP.cpp:179-180 | popping a full queue as written reads slot 30 of a 30-slot array |
| FollowPerson.PopReadsWithin | src/appFollowPersonFP.cpp:179-180 | the corrected loop, which stops before the last element, reads only slots within the array |
| FollowPerson.Queue.constructor | src/appFollowPersonFP.cpp:129-137 | a new queue has thirty slots, front 0 and no element |
| FollowPerson.Queue.IsEmpty | src/appFollowPersonFP.cpp:145-150 | 1 iff the queue holds no element, else 0 |
| FollowPerson.Queue.IsFull | src/appFollowPersonFP.cpp:151-156 | 1 iff all thirty slots hold elements, else 0 |
| FollowPerson.Queue.Push | src/appFollowPersonFP.cpp:157-171 | a full queue is unchanged and 0 is returned; otherwise the element is appended at the rear (and 1 returned, see Findings) |
| FollowPerson.Queue.Pop | src/appFollowPersonFP.cpp:172-183 | an empty queue is unchanged and 0 is returned; otherwise the oldest element is removed and the others keep their order (and 1 returned, see Findings) |
| FollowPerson.Queue.WtMean | src/appFollowPersonFP.cpp:184-204 | 0 for an empty queue, otherwise the weighted mean of the elements with weight j+1 for the j-th, truncated toward zero |
| Doubles.StdMin | src/controller.cpp:64 | `std::min` returns one of its arguments, and for numbers the smaller one |
| Doubles.StdMax | src/controller.cpp:64 | `std::max` returns one of its arguments, and for numbers the larger one |
| Doubles.Clamp | src/controller.cpp:64 | the limitation `max(uMin, min(uMax, u))`: within ordered limits, u itself when within them, the violated limit otherwise, and a limit (never NaN) for a NaN u |
| Controller.DefaultLimitsAsWrittenNeverNegative | src/controller.cpp:37-40 | with the default arguments the lower limit is `numeric_limits<double>::min()`, a positive number, so every command is positive; an error of -1 with gain 1 gives that tiny positive number |
| Controller.DblMinBelowMax | src/controller.h:37-38 | the two default limits satisfy 0 < min() < 1 < max() |
| Controller.UMinIntended | src/controller.cpp:37-40 | the corrected lower limit: the negated upper limit when an upper limit is given and the lower one is left at the default `-max()`, else the given lower limit |
| Controller.DefaultLimitsIntended | src/controller.cpp:37-40 | with the corrected defaults nothing within the range of doubles is clamped, and for a given upper limit both versions choose the same symmetric lower limit |
| Controller.IntegratesIff | src/controller.cpp:81-84 | with ordered limits the integrator runs iff it is enabled and the unlimited command is a number that is within the limits or of sign opposite to the error |
| Controller.IntegratesOnNumbers | src/controller.cpp:81-87 | integration only ever happens when the previous and the current error are numbers (NaN blocks it) |
| Controller.UnlimitedAtZero | src/controller.cpp:68-75 | over a zero interval the derivative term is infinite exactly when the gain and the change of the error are non-zero numbers; otherwise, and always for the default gain 0, the command is NaN |
| Controller.Limit | src/controller.cpp:75 | `max(uMin, min(uMax, u))` for every unlimited command: a limit or the command for a number, `uMax` for +infinity and `uMin` for -infinity (with ordered limits), always within ordered limits |
| Controller.IntegratesAtOnNumbers | src/controller.cpp:81-87 | with infinite commands admitted, integration still happens only when the previous and the current error are numbers |
| Controller.PID.constructor | src/controller.cpp:27-49 | the gains and upper limit as given, the corrected lower limit, integrator enabled, integral 0, previous error NaN, timer stopped |
| Controller.PID.Seconds | src/controller.cpp:68 | the time since the previous call in seconds: positive exactly when the clock moved on, zero exactly for the same reading |
| Controller.PID.Control | src/controller.cpp:52-95 | the first call returns the limited proportional command; later calls return the limited PID command, grow the integral by the trapezoid rule when anti-wind-up allows it, store the error and restart the timer; gains and limits are kept and the command is within ordered limits, also for a zero or negative interval since the previous call |
| Controller.PID.ZeroInterval | src/controller.cpp:68-88 | two calls at the same clock reading leave the integral as it was and command `uMin` when the derivative term is -infinity and `uMax` otherwise, `uMax` always for derivative gain 0 |
| Controller.PID.Reset | src/controller.cpp:98-102 | integral 0, previous error NaN, timer stopped; gains, limits and the integrator switch kept |
| Trackers.Convex | code/libHawaii/src/common/tracker.cpp:39 | a weighted mean `a·t + b·(1−t)` with t in [0, 1] lies between a and b |
| Trackers.ExpUpdate | code/libHawaii/src/common/tracker.cpp:32-44 | after a measurement the exponential tracker holds a number exactly when the measurement is one, and exactly the measurement when it held NaN; a NaN measurement makes the value NaN |
| Trackers.ExpUpdateBetween | code/libHawaii/src/common/tracker.cpp:39 | with a ratio in [0, 1] the new value lies between the old value and the measurement |
| Trackers.Exponential.constructor | code/libHawaii/eclipse/inc/hawaii/common/tracker.h:37-41 | a valid ratio is stored and the value starts as NaN |
| Trackers.Exponential.Measure | code/libHawaii/src/common/tracker.cpp:32-44 | the value becomes the exponential update of the old value, and the tracker counts as initialised exactly when the measurement is a number |
| Trackers.Exponential.Reset | code/libHawaii/eclipse/inc/hawaii/common/tracker.h:51 | the value is NaN again and the tracker is uninitialised |
| Trackers.NewExponential | code/libHawaii/eclipse/inc/hawaii/common/tracker.h:37-41 | fails with "invalid ratio" iff the ratio is outside [0, 1]; otherwise a new uninitialised tracker with that ratio |
| Trackers.BaseMeasure | code/libHawaii/eclipse/inc/hawaii/common/tracker.h:80 | the base class's measurement always fails with the "virtual inheritance not used" error |
| Trackers.BaseReset | code/libHawaii/eclipse/inc/hawaii/common/tracker.h:81 | the base class's reset always fails with the same error |
| Trackers.PT1Ratio | code/libHawaii/src/common/tracker.cpp:72-73 | `tau / (tau + deltaT)` lies in [0, 1] for non-negative arguments not both zero, and is NaN (0/0) exactly when both are zero |
| Trackers.PT1RatioBackwards | code/libHawaii/src/common/tracker.cpp:69-73 | a clock that went back by less than the time constant gives a weight above 1, so the update extrapolates past the measurement |
| Trackers.PT1Update | code/libHawaii/src/common/tracker.cpp:63-83 | an update leaves the tracker initialised with its timer restarted now; a first measurement is taken exactly; a NaN measurement gives NaN; any clock reading is accepted except one that went back by exactly the time constant |
| Trackers.PT1UpdateBetween | code/libHawaii/src/common/tracker.cpp:69-75 | with a non-negative time constant and elapsed time, not both zero, the new value lies between the old value and the measurement |
| Trackers.PT1UpdateNumber | code/libHawaii/src/common/tracker.cpp:69-75 | with a positive time constant, updating a tracker that holds a number with a number never yields NaN, even when the clock went back |
| Trackers.PT1.constructor | code/libHawaii/eclipse/inc/hawaii/common/tracker.h:103-106 | a non-negative time constant is stored and the tracker is uninitialised |
| Trackers.PT1.Measure | code/libHawaii/src/common/tracker.cpp:63-83 | the state becomes the PT1 update at time `now`, for a number or NaN; the time constant is kept |
| Trackers.PT1.Reset | code/libHawaii/eclipse/inc/hawaii/common/tracker.h:83-87 | timer stopped, uninitialised, value NaN, time constant kept |
| Trackers.PT1.Assign | code/libHawaii/src/common/tracker.cpp:50-60 | timer, init flag, value and time constant are copied, and a self-assignment changes nothing |
| Trackers.NewPT1 | code/libHawaii/eclipse/inc/hawaii/common/tracker.h:103-106 | fails with "invalid time constant" iff the time constant is negative |
| Trackers.KalmanPredictedUnset | code/libHawaii/src/common/tracker.cpp:104-112 | the variance predicted by an uninitialised tracker is NaN |
| Trackers.KalmanCorrect | code/libHawaii/src/common/tracker.cpp:125-127 | for non-negative noise and variance the corrected variance is never negative; a NaN value or measurement makes the new value NaN |
| Trackers.KalmanQuotDefined | code/libHawaii/src/common/tracker.cpp:125-127 | with non-negative noise and variance the correction is defined: a zero denominator comes with zero or NaN numerators, so no quotient is infinite |
| Trackers.CorrectDefinedAtZero | code/libHawaii/src/common/tracker.cpp:125-127 | with noise and variance both 0 the two numerators are 0 or NaN, so 0/0 gives NaN rather than an infinity |
| Trackers.KalmanUpdate | code/libHawaii/src/common/tracker.cpp:113-137 | an update keeps the tracker valid and restarts the timer; a first measurement sets value z and variance rArg; a NaN measurement makes the value NaN, and once NaN the value stays NaN on every later update; with a clock that does not go back and non-negative noises the variance stays non-negative |
| Trackers.UpdateDefinedForward | code/libHawaii/src/common/tracker.cpp:113-137 | while the clock does not go back and the noises and variance are not negative, every update is defined, whatever the measurement |
| Trackers.KalmanPredictedNonneg | code/libHawaii/src/common/tracker.cpp:122 | with a non-negative variance and a clock that did not go back, the predicted variance is never negative |
| Trackers.KalmanUpdateShrinks | code/libHawaii/src/common/tracker.cpp:119-128 | a later update with a number is defined and does not make the variance exceed the measurement noise or the predicted variance, and the new value lies between the old value and the measurement |
| Trackers.CorrectShrinks | code/libHawaii/src/common/tracker.cpp:125-127 | the same for one correction step on numbers, which is always defined when r + p > 0 |
| Trackers.CorrectReal | code/libHawaii/src/common/tracker.cpp:125-127 | `r·p/(r+p)` is at most r and at most p, and `(r·x+p·z)/(r+p)` lies between x and z |
| Trackers.WeightedQuot | code/libHawaii/src/common/tracker.cpp:126 | the Kalman value update is the weighted mean with weight `r/(r+p)` on the old value |
| Trackers.Kalman.constructor | code/libHawaii/eclipse/inc/hawaii/common/tracker.h:131-137 | non-negative noises are stored; value and variance start as NaN |
| Trackers.Kalman.Predict | code/libHawaii/src/common/tracker.cpp:104-112 | returns the value and the variance grown by q times the elapsed seconds, NaN for both when uninitialised; the tracker is unchanged |
| Trackers.Kalman.UpdateWith | code/libHawaii/src/common/tracker.cpp:113-137 | the state becomes the Kalman update with the given measurement noise for this call only, for a number or NaN |
| Trackers.Kalman.Measure | code/libHawaii/eclipse/inc/hawaii/common/tracker.h:159 | the update with the stored measurement noise, for a number or NaN |
| Trackers.Kalman.Reset | code/libHawaii/eclipse/inc/hawaii/common/tracker.h:147-151 | variance NaN, timer stopped, uninitialised, value NaN, noises kept |
| Trackers.Kalman.Assign | code/libHawaii/src/common/tracker.cpp:89-101 | every field but the mutex is copied, and a self-assignment changes nothing |
| Trackers.NewKalman | code/libHawaii/eclipse/inc/hawaii/common/tracker.h:131-137 | fails with "invalid process or measurement noise" iff either noise is negative |
| Commands.DroneCommands.constructor | src/commands.cpp:26-43 | four fresh controllers with the tuned gains and symmetric limits ±0.5, ±0.5, ±1, ±1; LED at 4 Hz for 5 s; no movement, no maneuver, no LED animation |
| Commands.DroneCommands.Hover | src/commands.cpp:46-54 | all six velocities 0 and no maneuver; the LED settings are kept |
| Commands.DroneCommands.Reset | src/commands.cpp:55-58 | hovering and no LED animation; frequency and duration kept |
| Commands.DroneCommands.ControlLinX | src/commands.cpp:61 | the forward velocity becomes the command of its controller for the error, that controller steps, and no other velocity or setting changes |
| Commands.DroneCommands.ControlLinY | src/commands.cpp:62 | the same for the left velocity |
| Commands.DroneCommands.ControlLinZ | src/commands.cpp:63 | the same for the upward velocity |
| Commands.DroneCommands.ControlAngZ | src/commands.cpp:64 | the same for the yaw rate |
| Commands.DroneCommands.ControllersReset | src/commands.cpp:65-70 | each of the four controllers is reset with its gains and limits kept |
| Commands.DroneCommands.SetIntegrators | src/commands.cpp:71-82 | every controller's integrator switch is set and nothing else of the controllers changes |
| Commands.DroneCommands.ControllersIntegratorDisable | src/commands.cpp:71-76 | all four integrators disabled, nothing else changed |
| Commands.DroneCommands.ControllersIntegratorEnable | src/commands.cpp:77-82 | all four integrators enabled, nothing else changed |
| Navigation.DefaultYawRelative | code/demoARDrone/eclipse/src/navigator.cpp:52-66 | the default relative flight angle is a number for exactly the six crossings (4,34), (4,18), (4,0), (8,30), (8,50), (1,0) and NaN elsewhere |
| Navigation.NewYawMap | code/demoARDrone/eclipse/src/navigator.cpp:53-66 | the 32 by 128 map holds the default relative angle for every type and value |
| Navigation.Wrap180 | code/demoARDrone/eclipse/src/navigator.cpp:104-106 | the wrapped angle differs from the input by at most one whole turn, lies in [-180, 180] for inputs within one and a half turns, and is unchanged within [-180, 180] |
| Navigation.Wrap180D | code/demoARDrone/eclipse/src/navigator.cpp:160-162 | wrapping a double yields a number iff the input is one |
| Navigation.NoDetectionStops | code/demoARDrone/eclipse/src/navigator.cpp:88-89 | without a detected landmark a navigator that is not rotating ends up inactive with its target yaw kept |
| Navigation.RotatingIff | code/demoARDrone/eclipse/src/navigator.cpp:91-124 | the navigator ends up rotating iff it was rotating or turned in this call (a read landmark farther than 0.2 m from the target distance with a mapped angle) and is not within 10 degrees of the target yaw; a turn sets the wrapped target yaw, otherwise it is kept |
| Navigation.ActiveNeedsDetection | code/demoARDrone/eclipse/src/navigator.cpp:87-112 | ending up approaching needs a detection, a navigator that was not rotating, and a landmark that is unreadable, within 0.2 m of the target distance or without a mapped angle |
| Navigation.Navigator.constructor | code/demoARDrone/eclipse/src/navigator.cpp:27-67 | the camera properties as given, target distance 1.5 m, inactive, no symbol, NaN distances, angle and target yaw, and the default yaw map |
| Navigation.Navigator.ProcessImageFront | code/demoARDrone/eclipse/src/navigator.cpp:70-125 | the detection results are stored and state and target yaw follow the transitions above for the drone's yaw `-rotY·180/π` |
| Navigation.Navigator.GetCommands | code/demoARDrone/eclipse/src/navigator.cpp:128-186 | inactive changes nothing and returns false; approaching controls distance, height and angle to the landmark with no sideways movement; rotating controls only the wrapped yaw error in radians with no linear movement; the active states clear the maneuver and return true |
| Dense3D.WrapYawRange | src/dense3D.cpp:202-204 | the yaw error, a difference of two yaws in [-π, π], is brought into [-π, π] by at most one turn, and an error already there is kept |
| Dense3D.Crank | src/dense3D.cpp:208-222 | climbing and lagging by more than a quarter of the height change, an upward command below 0.75 is raised to 0.75 and the height integrator disabled; the same downwards with -0.75; otherwise the command is kept and the integrator enabled |
| Dense3D.StabilizationErrors | src/dense3D.cpp:167-194 | no stabilisation uses zero errors, visual stabilisation the filtered visual errors, on-board stabilisation numbers from the on-board translation since the reference image |
| Dense3D.OnboardAtReference | src/dense3D.cpp:178-182 | on-board stabilisation at the reference pose has nothing to correct |
| Dense3D.DescentNeverCompletesAsWritten | src/dense3D.cpp:236-240 | as written the tolerance is a fifth of the signed height change, so a descent never completes, not even with every error 0 |
| Dense3D.CompletedProperties | src/dense3D.cpp:236-240 | with the tolerance a fifth of the height change's magnitude: climbing, it agrees with the test as written; in either direction every error 0 (and valid visual errors when used) completes; a zero height change never completes |
| Dense3D.VisoErrors | src/dense3D.cpp:398-451 | a failed visual odometry feeds zeros to the filters; a successful one feeds its forward and negated left translation times the scale factor |
| Dense3D.VisoErrorsUnscaled | src/dense3D.cpp:417-421 | when the on-board and the visual translation lengths agree within 10%, the visual translation is used unscaled |
| Dense3D.Push | src/dense3D.cpp:87-89 | appending an image with its rotation and translation keeps the three buffers aligned and adds one entry |
| Dense3D.Dense3D.constructor | src/dense3D.cpp:32-60 | height change 0.15 m, no stabilisation, 0.75 s of hovering before and after, inactive, empty buffers, both error filters PT1 with time constant 0.05, visual errors invalid |
| Dense3D.Dense3D.ProcessImageFront | src/dense3D.cpp:63-144 | refuses an empty image and a type other than CV_8UC1 and CV_8UC3 with the source's messages and no change; otherwise buffers the grey image and pose when due before or after the height change, moving on when a buffer holds 3, and during a visually stabilised height change feeds the visual odometry's outcome to the filters |
| Dense3D.Dense3D.BufferBefore | src/dense3D.cpp:83-108 | when hovering before the height change and a third of the hover time has passed, the image is buffered, the timer restarted, and the height change starts with the third image |
| Dense3D.Dense3D.BufferAfter | src/dense3D.cpp:122-142 | the same after the height change, moving to processing with the third image |
| Dense3D.Dense3D.VisoProcess | src/dense3D.cpp:385-453 | the filters measure the scaled visual errors (or zeros when it failed) and the validity flag records success; nothing else changes |
| Dense3D.Dense3D.GetCommands | src/dense3D.cpp:147-262 | hovering states hover; the height change flies it; processing and inactive change nothing; true iff the commands were set; the completion test is the corrected `Completed` |
| Dense3D.Dense3D.FlyHeightChange | src/dense3D.cpp:164-248 | forward and left velocities from their controllers (0 without stabilisation), the upward velocity from its controller and cranked, the yaw rate from its controller, no maneuver; the hover after the height change starts once the errors are within the tolerance; the completion test is the corrected `Completed` |
| Dense3D.Dense3D.Progress | src/dense3D.cpp:235-246 | a completed height change moves on to hovering after it and restarts the timer; otherwise nothing changes |
| Dense3D.Dense3D.Trigger | src/dense3D.cpp:265-287 | refused with no change while processing; otherwise both buffers and the results are cleared and hovering before the height change starts now |
| Dense3D.Dense3D.GetResults | src/dense3D.cpp:290-306 | results are returned iff not processing and both exist; since they are never computed, none are returned |
| Dense3D.Dense3D.ComputeResults | src/dense3D.cpp:309-348 | after writing out the buffers the scan goes inactive, everything else kept |
| Dense3D.Stabilize | src/dense3D.cpp:169-194 | the forward and left velocities from their controllers, or 0 and those controllers untouched without stabilisation |
| Dense3D.Climb | src/dense3D.cpp:196-233 | the upward velocity and the yaw rate from their controllers, the upward velocity cranked with the integrator flag, no maneuver, the LED animation and the other velocities kept |
| Sparse3D.DotEye | src/sparse3D.cpp:207 | an entry of the identity times a matrix without NaN is that entry of the matrix |
| Sparse3D.EyeTimes | src/sparse3D.cpp:95 | the initial pose, the identity, is a left unit of the accumulation for matrices without NaN |
| Sparse3D.ScaledMotionByOneOrNaN | src/sparse3D.cpp:203-206 | scaling by exactly 1 leaves the motion as it is; a NaN scale factor turns the translation column, and only it, into NaN |
| Sparse3D.RotationOf | src/sparse3D.cpp:331 | the rotation returned is the nine entries of the upper left 3x3 block |
| Sparse3D.FailsAfter | src/sparse3D.cpp:162-166 | the consecutive-failure counter is 0 after a success, 1 after a failure that did not replace the newest image, and one more after a failure that did |
| Sparse3D.FailsBounded | src/sparse3D.cpp:162-166 | after any image the counter is at most `visoFailsConsecMax` (5) |
| Sparse3D.FailureRunCycles | src/sparse3D.cpp:154-166 | over a run of failures the counter cycles through 1 to 5 and the image is given up exactly when the counter reaches 5, so no image is kept for more than 5 failed attempts |
| Sparse3D.ScaledPoints | src/sparse3D.cpp:282-291 | three rows of coordinates, one entry per point, each multiplied by the scale factor |
| Sparse3D.ScaledPointsByOneOrNaN | src/sparse3D.cpp:291 | a scale factor of 1 returns the odometry's coordinates; a NaN factor makes every coordinate NaN |
| Sparse3D.BandColor | src/sparse3D.cpp:66-73 | a colour channel lies in [0, 255]; below 0 red, from 3 on cyan, and the three bands red to yellow, yellow to green, green to cyan in between |
| Sparse3D.DistanceToColor | src/sparse3D.cpp:50-74 | the colour of a distance between the red and the cyan limit; its channels lie in [0, 255] |
| Sparse3D.DistanceToColorEnds | src/sparse3D.cpp:65-73 | with ordered limits everything nearer than the red limit is red, everything from the cyan limit on is cyan, and nothing in between is cyan |
| Sparse3D.Sparse3D.constructor | src/sparse3D.cpp:79-128 | empty image size, scale factor 1, identity pose, last odometry failed, counter `visoFailsConsecMax + 1`, zero previous on-board pose |
| Sparse3D.Sparse3D.ProcessImageFront | src/sparse3D.cpp:131-235 | refuses an empty image and a type other than CV_8UC1 and CV_8UC3; otherwise stores the size and the ground plane, counts the outcome, on success corrects the scale and accumulates the inverse of the scaled motion into the pose, moves the previous on-board pose on unless the image replaced the newest one, and returns the success |
| Sparse3D.Sparse3D.GetPoints3D | src/sparse3D.cpp:272-302 | nothing after a failure; otherwise the scaled 3D points and one flag per point, set exactly for the inlier indices |
| Sparse3D.Sparse3D.GetMotion | src/sparse3D.cpp:305-320 | NaN after a failure; otherwise the rotation of the last motion and its translation times the scale factor |
| Sparse3D.Sparse3D.GetPose | src/sparse3D.cpp:323-336 | NaN after a failure; otherwise the rotation and translation of the accumulated pose |
| Sparse3D.Sparse3D.ResetPose | src/sparse3D.cpp:339 | the pose becomes the identity and nothing else changes |
| Odometry.RotateRotationProperties | src/odometryDrone.cpp:26-33 | only the yaw changes; a zero reference yaw changes nothing, and turning back by the same reference restores the rotation |
| Odometry.RotateTranslationProperties | src/odometryDrone.cpp:34-43 | the altitude component is kept, a zero reference yaw is the identity, and when sin² + cos² = 1 the turn keeps the length |
| Odometry.ScaleSnapProperties | src/sparse3D.cpp:197-201 | a ratio outside (0.9, 1.1) is kept, snapping is idempotent, and no snapped ratio but 1 lies inside the band |
| Odometry.ScaleFactor | src/sparse3D.cpp:190-201 | NaN exactly when the visual translation has length zero, otherwise the snapped ratio of the on-board to the visual length |
| Odometry.ScaleFactorOfSimilarLengths | src/dense3D.cpp:417-421 | lengths within 10% of each other give a factor of exactly 1 |
| Odometry.IntegratedStill | src/odometryDrone.cpp:84-92 | standing still for any time moves nothing but the altitude |
| Odometry.OdometryDrone.constructor | src/odometryDrone.cpp:46-52 | no previous time stamp, two fresh velocity filters with time constant 0.1 s, zero rotation and translation |
| Odometry.OdometryDrone.ProcessNavdata | src/odometryDrone.cpp:55-105 | a message older than the previous one or faster than 8333 mm/s changes nothing; otherwise both filters measure its velocities and its time stamp is kept, never going back; from the second message on the rotation is converted from degrees and the translation integrates the filtered velocities along the yaw, with the altitude from the sensor |
| Odometry.OdometryDrone.GetRotation | src/odometryDrone.cpp:108 | pitch and roll as integrated; a zero reference yaw returns the global rotation itself |
| Odometry.OdometryDrone.GetTranslation | src/odometryDrone.cpp:109 | the altitude as integrated; a zero reference yaw (with sin 0 = 0 and cos 0 = 1) returns the global translation itself |
| Utilities.DigitCharValue | code/demoARDrone/src/producer_consumer/base/basic_function.cpp:20 | a digit character written for d reads back as d |
| Utilities.Digits | code/demoARDrone/src/producer_consumer/base/basic_function.cpp:17-22 | the decimal digits of a number: at least one digit, no leading zero |
| Utilities.ValueOfDigits | code/demoARDrone/src/producer_consumer/base/basic_function.cpp:17-29 | the digits written for n denote n |
| Utilities.NumberToString | code/demoARDrone/src/producer_consumer/base/basic_function.cpp:17-22 | a non-empty text of decimal digits, with a leading minus sign exactly for a negative number |
| Utilities.LeadingDigits | code/demoARDrone/src/producer_consumer/base/basic_function.cpp:27-28 | the length of the run of digits at the start, stopped by a non-digit |
| Utilities.SkipSpace | code/demoARDrone/src/producer_consumer/base/basic_function.cpp:27-28 | the stream's skipping of white space leaves a suffix that does not start with white space |
| Utilities.StringToNumber | code/demoARDrone/src/producer_consumer/base/basic_function.cpp:24-29 | what `istringstream >> int` extracts: a text without any digit gives 0, and a negative result needs a minus sign in the text |
| Utilities.ReadSigned | code/demoARDrone/src/producer_consumer/base/basic_function.cpp:26-28 | a text that starts with neither a sign nor a digit reads 0; a negative result needs a leading minus sign, and a non-zero one a digit |
| Utilities.ReadMagnitude | code/demoARDrone/src/producer_consumer/base/basic_function.cpp:26-28 | a number is read exactly when the text starts with a digit |
| Utilities.NoDigitsReadZero | code/demoARDrone/src/producer_consumer/base/basic_function.cpp:24-29 | a text without a digit after its white space and optional sign fails to read and gives 0 |
| Utilities.ReadsLeadingNumber | code/demoARDrone/src/producer_consumer/base/basic_function.cpp:24-29 | the text written for n followed by anything that does not start with a digit reads back as n |
| Utilities.ReadNegative | code/demoARDrone/src/producer_consumer/base/basic_function.cpp:24-29 | a minus sign followed by digits of magnitude at most 2^31 reads as the negated number |
| Utilities.ReadNonNegative | code/demoARDrone/src/producer_consumer/base/basic_function.cpp:24-29 | digits of a value below 2^31 read as that value |
| Utilities.NoSpaceToSkip | code/demoARDrone/src/producer_consumer/base/basic_function.cpp:26-28 | a text that does not start with white space is read from its start |
| Utilities.ReadsDigits | code/demoARDrone/src/producer_consumer/base/basic_function.cpp:27-28 | the digits before a non-digit are read as a whole |
| Utilities.DigitsThenOther | code/demoARDrone/src/producer_consumer/base/basic_function.cpp:27-28 | the run of leading digits of digits followed by a non-digit is exactly those digits |
| Utilities.NumberToStringRoundTrip | code/demoARDrone/src/producer_consumer/base/basic_function.cpp:17-29 | `StringToNumber(NumberToString(n)) == n` for every `int` |
| Utilities.AngleRoundTrips | code/demoARDrone/src/producer_consumer/base/basic_function.cpp:31-36 | over exact reals `toDegree` and `toRadian` are inverse to each other |
| Utilities.ToRadian | code/demoARDrone/src/producer_consumer/base/basic_function.cpp:31-33 | 180 degrees are pi; the sign is kept, and only 0 maps to 0 |
| Utilities.ToDegree | code/demoARDrone/src/producer_consumer/base/basic_function.cpp:34-36 | pi is 180 degrees; the sign is kept, and only 0 maps to 0 |
| Images.NextRow | src/producer_consumer/base/cvmat_serialization.h:37-38 | a buffer holding n rows `step` bytes apart holds, after the first step, the other n−1 rows |
| Images.Rows | src/producer_consumer/base/cvmat_serialization.h:37-38 | the first `w` bytes of each of n rows, `n·w` bytes in all |
| Images.Contents | src/producer_consumer/base/cvmat_serialization.h:37-38 | the element bytes of a matrix row after row, `rows · cols · elemSize` of them |
| Images.RowsContiguous | src/producer_consumer/base/cvmat_serialization.h:37-38 | rows without padding are simply the start of the buffer |
| Images.ContinuousContents | src/producer_consumer/base/cvmat_serialization.h:37-38 | a continuous matrix's element bytes are the first `rows · cols · elemSize` bytes of its buffer |
| Images.Packed | src/producer_consumer/base/cvmat_serialization.h:54-57 | `Mat::create` followed by filling: a valid continuous matrix of that size and type holding exactly the given bytes |
| Images.Clone | code/demoARDrone/eclipse/src/producer_consumer/base/message_data.h:69 | `clone()` gives a valid continuous matrix with the same size, type and elements |
| Serialization.OArchive.constructor | src/producer_consumer/base/cvmat_serialization.h:24 | a new output archive holds no values |
| Serialization.OArchive.Put | src/producer_consumer/base/cvmat_serialization.h:32-38 | `ar & x` appends x to the archive |
| Serialization.IArchive.constructor | src/producer_consumer/base/cvmat_serialization.h:42 | a new input archive reads from the first value |
| Serialization.IArchive.ReadInt | src/producer_consumer/base/cvmat_serialization.h:49-50 | reads the next value when it is an `int` and moves on; otherwise a stream error and no move |
| Serialization.IArchive.ReadSize | src/producer_consumer/base/cvmat_serialization.h:51-52 | the same for a `size_t` |
| Serialization.IArchive.ReadBytes | src/producer_consumer/base/cvmat_serialization.h:57 | reads the next value when it is an array of exactly the requested number of bytes; otherwise a stream error |
| Serialization.BufferHoldsElements | src/producer_consumer/base/cvmat_serialization.h:37 | for a valid matrix `cols · rows · elemSize` bytes lie within its buffer |
| Serialization.MatItemsAsWritten | src/producer_consumer/base/cvmat_serialization.h:24-39 | as written `save` stores the header (cols, rows, element size, type) and then `cols · rows · elemSize` bytes read contiguously from the first row |
| Serialization.LeadingBytes | src/producer_consumer/base/cvmat_serialization.h:37-38 | the bytes `make_array(m.ptr(), data_size)` reads: a prefix of the buffer of that length |
| Serialization.MatItems | src/producer_consumer/base/cvmat_serialization.h:24-39 | the corrected `save` stores the same header and then the element bytes row by row |
| Serialization.SaveAgreesWhenContinuous | src/producer_consumer/base/cvmat_serialization.h:37-38 | for a continuous matrix the two agree |
| Serialization.SaveAsWritten | src/producer_consumer/base/cvmat_serialization.h:24-39 | appends exactly the values of `save` as written |
| Serialization.Save | src/producer_consumer/base/cvmat_serialization.h:24-39 | appends exactly the values of the corrected `save` |
| Serialization.LoadAt | src/producer_consumer/base/cvmat_serialization.h:42-58 | a successful load yields a valid continuous matrix and continues five values later; a missing or mistyped value is a stream error and negative dimensions are refused as `Mat::create` does |
| Serialization.Load | src/producer_consumer/base/cvmat_serialization.h:42-58 | the method reads exactly what `LoadAt` describes, moving the archive on by five values on success |
| Serialization.LoadSaved | src/producer_consumer/base/cvmat_serialization.h:42-58 | loading a stored header and element bytes yields the packed matrix with that size, type and bytes |
| Serialization.RoundTrip | src/producer_consumer/base/cvmat_serialization.h:24-58 | loading what the corrected `save` wrote, wherever it sits in the archive, gives a continuous matrix with the same size, type and elements and continues right after it |
| Serialization.RoundTripAsWrittenWhenContinuous | src/producer_consumer/base/cvmat_serialization.h:24-58 | for a continuous matrix `save` as written round-trips too |
| Serialization.SaveAsWrittenStoresPadding | src/producer_consumer/base/cvmat_serialization.h:37-38 | a 2 x 1 byte matrix with a padding byte between its rows is stored and loaded back as [1, 9] instead of [1, 2] |
| Messages.Ordinal | code/demoARDrone/eclipse/src/producer_consumer/base/message_data.h:17-54 | each enumerator's value is its position in the declaration, 0 to 22 |
| Messages.FromOrdinal | code/demoARDrone/eclipse/src/producer_consumer/base/message_data.h:17-54 | an enumerator exists exactly for the values 0 to 22, and is the one with that value |
| Messages.OrdinalRoundTrip | code/demoARDrone/eclipse/src/producer_consumer/base/message_data.h:17-54 | a command survives the trip through its value |
| Messages.Default | code/demoARDrone/eclipse/src/producer_consumer/base/message_data.h:76-79 | an empty image, no command, command index -1, no time stamp, lap number and version indeterminate |
| Messages.Copy | code/demoARDrone/eclipse/src/producer_consumer/base/message_data.h:67-74 | a deep copy of the image with the same size, type and elements; command, lap number, time stamp and index copied; the version not copied |
| Messages.CreateMessage | code/demoARDrone/eclipse/src/producer_consumer/base/message_data.h:106-111 | a default message carrying the command and the current time |
| Messages.CreateMessageCommand | code/demoARDrone/eclipse/src/producer_consumer/base/message_data.h:113-119 | the same with the given command index |
| Messages.CreatedMessages | code/demoARDrone/eclipse/src/producer_consumer/base/message_data.h:99-119 | `isCommandMessage(other)` holds for a created message exactly when other is its command; index and time stamp are as set |
| Messages.MessageItems | code/demoARDrone/eclipse/src/producer_consumer/base/message_data.h:89-94 | nine values: the five of the image, then lap number, command, time stamp and command index; the image through the corrected `save` |
| Messages.LoadMessageAt | code/demoARDrone/eclipse/src/producer_consumer/base/message_data.h:81-97 | a successful read yields a valid image, records the reading side's version and continues nine values later |
| Messages.SerializeOut | code/demoARDrone/eclipse/src/producer_consumer/base/message_data.h:81-97 | appends the nine values and records the version |
| Messages.SerializeIn | code/demoARDrone/eclipse/src/producer_consumer/base/message_data.h:81-97 | reads exactly what `LoadMessageAt` describes, or fails with its error |
| Messages.MessageRoundTrip | code/demoARDrone/eclipse/src/producer_consumer/base/message_data.h:81-97 | reading back what `serialize` wrote gives the same image contents, command, lap number, time stamp and index, the reading side's version, and continues after the message; for the corrected `save` |
| ImageProcessing.Luminance | src/mydemo/ImageProcessing/imageProcessing.cpp:79-81 | the luminance 3 R + 6 G + B of a BGR pixel lies in [0, 2550]; it is 0 exactly for black and 2550 exactly for white |
| ImageProcessing.LuminanceMonotone | src/mydemo/ImageProcessing/imageProcessing.cpp:79-81 | raising any channel of a pixel never lowers its luminance |
| ImageProcessing.NewComponent | src/mydemo/ImageProcessing/imageProcessing.cpp:293-298 | the appended entry is a root (link -1) with the table's current size as identity, one pixel, and the pixel's coordinates as sum |
| ImageProcessing.AddShapeAsWritten | src/mydemo/ImageProcessing/imageProcessing.cpp:291-312 | as written, an append adds one entry and leaves the recorded maximum as it was, even when the table grew |
| ImageProcessing.AddAsWrittenOverflows | src/mydemo/ImageProcessing/imageProcessing.cpp:291-311 | as written, from a table created with length 0 the first append grows it to one slot and the second writes slot 1 of that one-slot table |
| ImageProcessing.Insert | src/mydemo/ImageProcessing/imageProcessing.cpp:619-636 | inserting a node into the chain makes it one element longer |
| ImageProcessing.InsertSorted | src/mydemo/ImageProcessing/imageProcessing.cpp:619-636 | inserting before the first element whose count is not larger keeps the chain ordered by non-increasing count, and the new head is the node or the old head |
| ImageProcessing.InsertElements | src/mydemo/ImageProcessing/imageProcessing.cpp:619-636 | the chain after an insertion is a permutation of the old chain plus the node, and its elements are exactly those |
| ImageProcessing.IdsOfInsert | src/mydemo/ImageProcessing/imageProcessing.cpp:619-636 | an insertion adds the node's identity, once, to the identities in the chain |
| ImageProcessing.RootsStep | src/mydemo/ImageProcessing/imageProcessing.cpp:608-612 | going down one entry, the entry joins the set of roots exactly when its link is -1 |
| ImageProcessing.ComponentsTable.constructor | src/mydemo/ImageProcessing/imageProcessing.cpp:255-262 | a new table records the given length as maximum, is allocated with that many slots and holds no entry |
| ImageProcessing.ComponentsTable.Add | src/mydemo/ImageProcessing/imageProcessing.cpp:291-312 | the entries become the old entries plus a one-pixel root at (x, y) whose identity is the old size; the table stays well formed; an append to a full table moves to a fresh allocation of 2 size + 1 slots, and the corrected version records that as the new maximum |
| ImageProcessing.ComponentsTable.Link | src/mydemo/ImageProcessing/imageProcessing.cpp:323-347 | equal identities or one not below the size change nothing; otherwise exactly the larger entry's link is set to the smaller identity, and the forest stays well formed for non-negative identities |
| ImageProcessing.ComponentsTable.Rank | src/mydemo/ImageProcessing/imageProcessing.cpp:607-637 | the ranking loop ends with a chain ordered by non-increasing pixel count that holds each root component exactly once, with its final pixel count; every root holds the pixel count of its whole component and the floor of the mean of its coordinates; every link is left as it was |
| ImageProcessing.ComponentsTable.RankStep | src/mydemo/ImageProcessing/imageProcessing.cpp:608-637 | one iteration keeps the chain ordered and extends it by entry i exactly when it is a root; every entry up to i holds its own tally plus the components above i linked to it, and every root above i - 1 is final |
| ImageProcessing.ComponentsTable.Absorb | src/mydemo/ImageProcessing/imageProcessing.cpp:611-615 | a linked entry adds its pixel count and coordinate sums into its parent, which lies below it; no other entry changes |
| ImageProcessing.ComponentsTable.Settle | src/mydemo/ImageProcessing/imageProcessing.cpp:616-636 | a root's coordinate sum becomes the floor of its mean and nothing else in the table changes; the root is inserted into the chain, which stays ordered and gains exactly its identity |
| ImageProcessing.ComponentsTable.SetMean | src/mydemo/ImageProcessing/imageProcessing.cpp:617-618 | a root's coordinate sum becomes the floor of the sum divided by its pixel count, `floor` as in the source; nothing else in the table changes |
| ImageProcessing.ChildrenStep | src/mydemo/ImageProcessing/imageProcessing.cpp:607-615 | the tally of the later entries linked to j, taken from entry i on, adds entry i's whole subtree exactly when i is linked to j |
| ImageProcessing.AbsorbCompletes | src/mydemo/ImageProcessing/imageProcessing.cpp:611-615 | adding a linked entry into its parent keeps every entry below it pending correctly, and the roots above it final |
| ImageProcessing.SettleCompletes | src/mydemo/ImageProcessing/imageProcessing.cpp:616-618 | a root whose later children have all been added holds its whole component, and taking its mean makes it final |
| ImageProcessing.PendingAtStart | src/mydemo/ImageProcessing/imageProcessing.cpp:607 | before the loop every entry holds just its own tally |
| ImageProcessing.InsertNode | src/mydemo/ImageProcessing/imageProcessing.cpp:619-636 | the walk past every heavier node followed by the splice yields exactly the specified insertion |
| ImageProcessing.SymbolOf | src/mydemo/ImageProcessing/imageProcessing.cpp:975-1004 | types 1, 4, 8, 29, 30 give landing, speed, altitude, turn right and turn left; every other type gives no symbol, and no type gives raise |
| ImageProcessing.SymbolTypes | src/mydemo/ImageProcessing/imageProcessing.cpp:975-1004 | every symbol other than none and raise is chosen by exactly one landmark type |
| ImageProcessing.Interpretation.constructor | src/mydemo/ImageProcessing/imageProcessing.cpp:47-48 | the published symbol starts as none |
| ImageProcessing.Interpretation.SymbolChoice | src/mydemo/ImageProcessing/imageProcessing.cpp:975-1004 | the value is always published, and the symbol becomes the one the type stands for |
| ImageProcessing.PaddedCols | src/mydemo/ImageProcessing/imageProcessing.cpp:1218 | the stretched width is the smallest multiple of 4 not below the image's width |
| ImageProcessing.PaddedColsKeepsMultiples | src/mydemo/ImageProcessing/imageProcessing.cpp:1218 | a width that already is a multiple of 4 is kept |
| ImageProcessing.LandmarkInput | src/mydemo/ImageProcessing/imageProcessing.cpp:1210-1218 | an empty image and an image not of type CV_8UC3 are rejected with their respective messages, the emptiness check first; any other image is stretched to the same rows and a padded width |
| ImageProcessing.DetectLandmark | src/mydemo/ImageProcessing/imageProcessing.cpp:1195-1230 | errors are exactly those of the input checks; otherwise the defaults (type 0, value 0, NaN position and diagonal) are reported unless the colour filter found enough pixels, in which case the symbol check decides |
| Pool.Pow2 | code/libHawaii/eclipse/src/GPU/pool.cpp:120 | the size of a bucket, a power of two, is at least one byte |
| Pool.BitLengthBounds | code/libHawaii/eclipse/src/GPU/pool.cpp:119 | the bit length n of x satisfies 2^(n-1) <= x < 2^n, which is what `64 - clzll(x)` computes |
| Pool.Align | code/libHawaii/eclipse/src/GPU/pool.cpp:114 | the padding alignment, the largest alignment of all GPU slots, is at least 1 |
| Pool.PaddedStepIsLeastMultiple | code/libHawaii/eclipse/src/GPU/pool.cpp:113-115 | the padded row step is a multiple of the alignment that holds a row and exceeds it by less than one alignment |
| Pool.FitsShrinks | code/libHawaii/eclipse/src/GPU/pool.cpp:113-116 | a request with no more rows and columns than one the bucket arithmetic serves is served too |
| Pool.PaddedTotalPositive | code/libHawaii/eclipse/src/GPU/pool.cpp:113-116 | a request of at least one row and one column occupies at least one byte |
| Pool.BucketIndex | code/libHawaii/eclipse/src/GPU/pool.cpp:119 | the bucket of a total of 1 to 2^63 bytes is below 64, and its size is the least power of two holding the total |
| Pool.BucketIsLeastPowerOfTwo | code/libHawaii/eclipse/src/GPU/pool.cpp:118-120 | a total is served by bucket i exactly when it lies in (2^(i-1), 2^i] |
| Pool.RequestBucket | code/libHawaii/eclipse/src/GPU/pool.cpp:112-121 | the bucket of a request is below 64 and is the least one whose entries hold the padded request |
| Pool.Clz64 | code/libHawaii/eclipse/src/GPU/pool.cpp:119 | the leading zero bits of a non-zero 64-bit value number fewer than 64 |
| Pool.BucketIndexAsWrittenAgrees | code/libHawaii/eclipse/src/GPU/pool.cpp:119 | for totals of 2 bytes or more, `64 - clzll(total - 1)` is the intended bucket |
| Pool.NoDevicePlatform | code/libHawaii/eclipse/src/GPU/pool.cpp:114 | a platform compiled with CUDA but with no GPU is well formed |
| Pool.OneByteRequestHasNoBucketAsWritten | code/libHawaii/eclipse/src/GPU/pool.cpp:113-119 | on a platform whose largest alignment is 1, one 1-byte element pads to a total of 1 byte, for which the as-written index evaluates clzll(0), which is undefined |
| Pool.BucketBytesAsWrittenOverflows | code/libHawaii/eclipse/src/GPU/pool.cpp:119-120 | a request of 2^31 bytes lands in bucket 31, whose size the `int` shift `1 << poolIdx` yields as 2^64 - 2^31 instead of 2^31 |
| Pool.BucketBytesAsWrittenAgreesBelow31 | code/libHawaii/eclipse/src/GPU/pool.cpp:120 | below bucket 31 the as-written shift gives the bucket's size |
| Pool.FirstAvailable | code/libHawaii/eclipse/src/GPU/pool.cpp:124-134 | the search finds the first entry whose reference count is 1, and finds none exactly when no entry has count 1 |
| Pool.Lent | code/libHawaii/eclipse/src/GPU/pool.cpp:164-165 | a bucket has no more lent entries than entries |
| Pool.LentExtremes | code/libHawaii/eclipse/src/GPU/pool.cpp:164-165 | no entry is lent exactly when all are available, and all are lent exactly when none is available |
| Pool.ReportOnlyNonEmpty | code/libHawaii/eclipse/src/GPU/pool.cpp:160-172 | every status line is that of a non-empty bucket and splits its entries into available and lent |
| Pool.ReportAllNonEmpty | code/libHawaii/eclipse/src/GPU/pool.cpp:160-172 | every non-empty bucket gets a status line |
| Pool.ReportOrdered | code/libHawaii/eclipse/src/GPU/pool.cpp:160-172 | the status lines come in increasing bucket order |
| Pool.Resolve | code/libHawaii/eclipse/src/GPU/pool.cpp:193-197 | an explicit memory kind is kept; `memoryAuto` resolves to own memory exactly when the active GPU prefers it, and fails exactly when CUDA is absent or the active GPU is at or above GPUs |
| Pool.ReleasedAllConcat | code/libHawaii/eclipse/src/GPU/pool.cpp:342-358 | releasing two lists of entries one after the other is releasing their concatenation |
| Pool.ReleasedAllCounts | code/libHawaii/eclipse/src/GPU/pool.cpp:342-358 | releasing a list of entries takes one reference per occurrence from each buffer and touches no other |
| Pool.ReleasedBucketsFlat | code/libHawaii/eclipse/src/GPU/pool.cpp:342-346 | emptying buckets one after the other releases all their entries in order |
| Pool.ReleasedDomainsFlat | code/libHawaii/eclipse/src/GPU/pool.cpp:340-347 | emptying the GPUs' pools one after the other releases all their entries in order |
| Pool.ClearCounts | code/libHawaii/eclipse/src/GPU/pool.cpp:331-359 | clearing the GPUs' pools and then the page-locked pools releases each entry once, devices first |
| Pool.SettledIsHandedOver | code/libHawaii/eclipse/src/GPU/pool.cpp:234-239 | the mapped path (a pool entry taken into a fresh local `CudaMem`, one reference added for the device header, the handle's old buffer released, the local `CudaMem` released) hands the entry over to the handle exactly as the own-memory path does |
| Pool.MemoryPool.EntriesAreDistinct | code/libHawaii/eclipse/src/GPU/pool.cpp:121-139 | in a valid pool a buffer occupies a single place: one domain, one bucket, one position |
| Pool.MemoryPool.constructor | code/libHawaii/eclipse/src/GPU/pool.cpp:365 | a new pool has 64 empty buckets for every GPU slot and 64 empty page-locked buckets |
| Pool.MemoryPool.EmptyIsValid | code/libHawaii/eclipse/src/GPU/pool.cpp:365 | an empty pool is valid for every runtime |
| Pool.MemoryPool.FindAvailable | code/libHawaii/eclipse/src/GPU/pool.cpp:124-134 | the first-fit loop stops at the first entry whose reference count is 1, or at the end when there is none |
| Pool.MemoryPool.FirstAvailableIs | code/libHawaii/eclipse/src/GPU/pool.cpp:124-134 | a position before which no entry is available and at which one is, is the first available one |
| Pool.MemoryPool.Push | code/libHawaii/eclipse/src/GPU/pool.cpp:139 | appending a new buffer of the bucket's size and the domain's location adds it to that bucket only and keeps the pool valid |
| Pool.MemoryPool.Empty | code/libHawaii/eclipse/src/GPU/pool.cpp:345 | emptying a bucket leaves every other bucket as it was |
| Pool.MemoryPool.TakeEntry | code/libHawaii/eclipse/src/GPU/pool.cpp:129-132 | taking an entry points the handle at it: the entry gains a reference, the handle's previous buffer loses one, nothing is allocated |
| Pool.MemoryPool.AppendEntry | code/libHawaii/eclipse/src/GPU/pool.cpp:137-140 | a fresh buffer of the bucket's size, held by the pool and the handle, is appended to the request's bucket and to no other |
| Pool.MemoryPool.NewEntry | code/libHawaii/eclipse/src/GPU/pool.cpp:28-104 | allocation creates a buffer the pool does not hold yet at the domain's location, sized as the bucket, referenced by the handle and the pool; this is the corrected `allocateReally` (see Findings) |
| Pool.CreateAsWritten | code/libHawaii/eclipse/src/GPU/pool.cpp:37 | OpenCV's `create` as the source relies on it: a new buffer unless the header already has data of one row, `bytes` columns and CV_8UC1, in which case that buffer is kept |
| Pool.AppendAsWritten | code/libHawaii/eclipse/src/GPU/pool.cpp:136-140 | `allocateReally` as written appends whatever `create` left in the header to the bucket; a new buffer gets two references, a kept one only loses none |
| Pool.DuplicateEntryAsWritten | code/libHawaii/eclipse/src/GPU/pool.cpp:136-140 | a handle that asks twice for the same bucket while holding its entry appends that entry a second time, and after the handle lets it go it is never available again |
| Pool.MemoryPool.AllocateFromPoolSet | code/libHawaii/eclipse/src/GPU/pool.cpp:108-150 | the handle gets the requested view (rows, columns, padded step, continuity) of an entry of the request's bucket in the chosen domain: the first available one when there is one, with no allocation and that bucket unchanged; otherwise a new one appended; every other bucket is unchanged and the pool stays valid |
| Pool.MemoryPool.AcquireGpuMat | code/libHawaii/eclipse/src/GPU/pool.cpp:184-259 | a bad size, missing CUDA, a bad active GPU or a failed pointer query is an error that changes nothing; a handle of the requested size and type already in memory of the requested kind is kept unchanged; otherwise the handle gets a pool entry of the resolved kind and the request's bucket, handed over with exact reference counts |
| Pool.MemoryPool.GpuMatCheck | code/libHawaii/eclipse/src/GPU/pool.cpp:189-226 | the checks before the pool is consulted fail exactly in the error cases and otherwise say whether the handle is kept |
| Pool.MemoryPool.GpuMatFromPool | code/libHawaii/eclipse/src/GPU/pool.cpp:228-247 | own memory comes from the active GPU's pools and mapped memory from the page-locked pools, in the request's bucket |
| Pool.MemoryPool.MappedFromPool | code/libHawaii/eclipse/src/GPU/pool.cpp:234-241 | mapped memory for a `GpuMat` is a page-locked pool entry in mapped memory, handed over to the handle |
| Pool.MemoryPool.SettleMapped | code/libHawaii/eclipse/src/GPU/pool.cpp:237-239 | the references around a mapped header: one retained for the entry, then one released from the old buffer and one from the entry |
| Pool.MemoryPool.AcquireCudaMem | code/libHawaii/eclipse/src/GPU/pool.cpp:262-302 | a bad size, missing CUDA or a failed flags query is an error that changes nothing; a handle already page-locked with the mapped and portable flags and of the requested size and type is kept; otherwise it gets an entry of the page-locked pool in the request's bucket |
| Pool.MemoryPool.PinnedFromPool | code/libHawaii/eclipse/src/GPU/pool.cpp:291 | the page-locked entry for a handle lies in the request's bucket in mapped, portable memory and is handed over to the handle |
| Pool.MemoryPool.CountLent | code/libHawaii/eclipse/src/GPU/pool.cpp:164-165 | the counting loop yields the number of entries referenced by more than the pool |
| Pool.MemoryPool.BucketsStatus | code/libHawaii/eclipse/src/GPU/pool.cpp:154-176 | the status of a set of buckets: one line per non-empty bucket, in bucket order, with its size range and its available and lent entries |
| Pool.MemoryPool.PoolSetStatus | code/libHawaii/eclipse/src/GPU/pool.cpp:153-176 | the status of one domain's buckets is the report of its non-empty buckets |
| Pool.MemoryPool.StatusFrom | code/libHawaii/eclipse/src/GPU/pool.cpp:305-328 | the status lists the GPUs below GPUs and then the page-locked pools, each only when some bucket is non-empty |
| Pool.MemoryPool.PrintStatus | code/libHawaii/eclipse/src/GPU/pool.cpp:305-328 | what is printed is the status of the pool's current buckets |
| Pool.MemoryPool.ReleaseEntries | code/libHawaii/eclipse/src/GPU/pool.cpp:345 | destroying a bucket's handles releases one reference per entry |
| Pool.MemoryPool.ClearDeviceBucket | code/libHawaii/eclipse/src/GPU/pool.cpp:343-345 | one device bucket is released and emptied; every other device bucket is unchanged |
| Pool.MemoryPool.ClearDevice | code/libHawaii/eclipse/src/GPU/pool.cpp:342-346 | the 64 buckets of one GPU are released in order and emptied; other GPUs' buckets are unchanged |
| Pool.MemoryPool.ClearPinnedBucket | code/libHawaii/eclipse/src/GPU/pool.cpp:355-357 | one page-locked bucket is released and emptied; the others are unchanged |
| Pool.MemoryPool.ClearPinned | code/libHawaii/eclipse/src/GPU/pool.cpp:354-358 | the 64 page-locked buckets are released in order and emptied |
| Pool.MemoryPool.ClearOnDevice | code/libHawaii/eclipse/src/GPU/pool.cpp:341-346 | each round activates its GPU and then empties that GPU's buckets |
| Pool.MemoryPool.ClearDevices | code/libHawaii/eclipse/src/GPU/pool.cpp:340-347 | the GPUs below GPUs are emptied in order, each made active in turn; the slots at or above GPUs are untouched |
| Pool.MemoryPool.ClearedKeepsValid | code/libHawaii/eclipse/src/GPU/pool.cpp:331-359 | a cleared pool stays valid |
| Pool.MemoryPool.Clear | code/libHawaii/eclipse/src/GPU/pool.cpp:331-362 | clear empties the buckets of every GPU below GPUs and all page-locked buckets, touches no others, and releases exactly one reference for each entry it drops |
| GpuRuntime.Depth | code/libHawaii/eclipse/src/GPU/autoMat.cpp:521 | the depth of an OpenCV type is one of its eight depth codes |
| GpuRuntime.Channels | code/libHawaii/eclipse/src/GPU/autoMat.cpp:522 | an OpenCV type has 1 to 512 channels |
| GpuRuntime.ElemSize1 | code/libHawaii/eclipse/src/GPU/autoMat.cpp:519 | a channel takes 1, 2, 4 or 8 bytes, and exactly 1 for the two 8-bit depths |
| GpuRuntime.ElemSize | code/libHawaii/eclipse/src/GPU/autoMat.cpp:518 | an element takes 1 to 4096 bytes, a multiple of its channel size |
| GpuRuntime.Retained | code/libHawaii/eclipse/src/GPU/autoMat.cpp:36 | adding a reference raises the buffer's count by one and leaves every other count alone |
| GpuRuntime.Released | code/libHawaii/eclipse/src/GPU/pool.cpp:345 | releasing a header lowers its buffer's count by one and leaves every other count alone |
| GpuRuntime.RetainThenRelease | code/libHawaii/eclipse/src/GPU/autoMat.cpp:34-45 | a reference added and then released leaves all counts as they were |
| GpuRuntime.Runtime.constructor | code/libHawaii/eclipse/src/GPU/autoMat.cpp:146 | the runtime starts with the given active GPU and no buffer |
| GpuRuntime.Runtime.SetDevice | code/libHawaii/eclipse/src/GPU/autoMat.cpp:152 | activating a GPU changes the active device and nothing else |
| GpuRuntime.Runtime.Retain | code/libHawaii/eclipse/src/GPU/autoMat.cpp:36 | `CV_XADD(refcount, 1)` adds one reference and changes nothing else |
| GpuRuntime.Runtime.Release | code/libHawaii/eclipse/src/GPU/pool.cpp:345 | a destroyed handle gives up one reference and changes nothing else |
| GpuRuntime.Runtime.Assign | code/libHawaii/eclipse/src/GPU/autoMat.cpp:107 | header assignment yields the source header, adds a reference to its buffer and drops one from the target's old buffer |
| GpuRuntime.Runtime.Allocate | code/libHawaii/eclipse/src/GPU/pool.cpp:30-46 | allocation releases the target's buffer and yields one row of n bytes over a new buffer with one reference at the requested location |
| GpuRuntime.Runtime.Copy | code/libHawaii/eclipse/src/GPU/autoMat.cpp:170 | a copy gives the target's buffer the contents the source sees and changes nothing else |
| GpuRuntime.Runtime.Attributes | code/libHawaii/eclipse/src/GPU/pool.cpp:214 | the pointer query succeeds exactly for known memory that is not pageable, and reports device memory with its own device |
| GpuRuntime.Runtime.HostFlags | code/libHawaii/eclipse/src/GPU/pool.cpp:280 | the flags query succeeds exactly for page-locked memory |
| GpuRuntime.MappedMemory | code/libHawaii/eclipse/src/GPU/autoMat.cpp:50-59 | null pointers are never the same memory; a GPU header is reported mapped only when it points at the page-locked data itself |
| Ranges.CutsIffFewer | code/libHawaii/eclipse/src/GPU/autoMat.cpp:551 | a range within bounds changes the selection exactly when it selects fewer rows or columns than there are |
| Ranges.ComposeWithin | code/libHawaii/eclipse/inc/hawaii/GPU/autoMat.h:172-185 | a range taken within a selection is a range of the whole that starts where both offsets add up, selects as much as the inner range, and cuts when either range does |
| Submatrix.SubMat | code/libHawaii/eclipse/src/GPU/autoMat.cpp:536 | the ROI header shares the buffer and step, has the ranges' extents, starts the ranges' offsets further, is continuous exactly for one row or uncut full-width rows, and is a submatrix once a range cuts; an empty selection has no data |
| Submatrix.PlRoi | code/libHawaii/eclipse/src/GPU/autoMat.cpp:550-560 | the hand-made page-locked ROI keeps buffer, step, type and continuity, takes the ranges' extents and offsets, and is a submatrix once a range cuts |
| Submatrix.SubMatWhole | code/libHawaii/eclipse/src/GPU/autoMat.cpp:534-538 | selecting all rows and columns changes nothing but the continuity of a single row |
| Submatrix.SubMatNested | code/libHawaii/eclipse/inc/hawaii/GPU/autoMat.h:173-176 | the ROI of a non-empty ROI is the ROI of the composed ranges of the original |
| Submatrix.PlRoiAgrees | code/libHawaii/eclipse/src/GPU/autoMat.cpp:550-560 | where it has data, the page-locked ROI lies exactly where OpenCV's ROI would; only the continuity flag may differ |
| Submatrix.RowRoi | code/libHawaii/eclipse/inc/hawaii/GPU/autoMat.h:180 | `row(i)` is that single continuous row, i steps into the data |
| Submatrix.ColRoi | code/libHawaii/eclipse/inc/hawaii/GPU/autoMat.h:183 | `col(j)` is that single column, j elements into the data, continuous only when it is one element high or the only column of continuous data |
| Submatrix.RectRoi | code/libHawaii/eclipse/inc/hawaii/GPU/autoMat.h:179 | a non-empty rectangle inside the matrix selects a header of its size at its corner, a submatrix unless it covers everything |
| AutoMats.Wrapping | code/libHawaii/eclipse/inc/hawaii/GPU/autoMat.h:61-65 | wrapping a plain matrix marks it up to date, so it is valid exactly when it is not empty |
| AutoMats.HeaderOver | code/libHawaii/eclipse/src/GPU/autoMat.cpp:34-45 | the `Mat` header over page-locked memory, and the `GpuMat` header over it once mapped, has the same data, size, type and step |
| AutoMats.Scan | code/libHawaii/eclipse/src/GPU/autoMat.cpp:148-162 | the scan finds the first valid GPU copy that is the page-locked copy mapped into its device; otherwise the last valid non-mapped one, or none; a failing mapping query stops it |
| AutoMats.RoiFits | code/libHawaii/eclipse/src/GPU/autoMat.cpp:526-577 | the ROI of any copy the pool can serve is one the pool can serve |
| AutoMats.AutoMat.constructor | code/libHawaii/eclipse/src/GPU/autoMat.cpp:71-77 | a new matrix has no copy with data and none up to date |
| AutoMats.AutoMat.Extended | code/libHawaii/eclipse/src/GPU/autoMat.cpp:136-385 | allocations that keep every existing buffer keep the matrix's invariant and what its valid copies see |
| AutoMats.AutoMat.Invariant | code/libHawaii/eclipse/src/GPU/autoMat.cpp:136-385 | allocations that keep every existing buffer keep the matrix's invariant |
| AutoMats.AutoMat.Overwritten | code/libHawaii/eclipse/src/GPU/autoMat.cpp:170 | writing the common contents into a buffer leaves every valid copy seeing them |
| AutoMats.AutoMat.FirstGpu | code/libHawaii/eclipse/src/GPU/autoMat.cpp:504-506 | the first valid GPU copy from a slot on, or none exactly when all of them below GPUs are stale or empty |
| AutoMats.AutoMat.Selected | code/libHawaii/eclipse/src/GPU/autoMat.cpp:500-508 | the getters consult `cm`, then `pl`, then the GPU copies in order, the first valid one; none exactly when no copy is valid |
| AutoMats.AutoMat.GetSize | code/libHawaii/eclipse/src/GPU/autoMat.cpp:516 | `size()` is that of the selected copy, 0 x 0 when no copy is valid |
| AutoMats.AutoMat.Empty | code/libHawaii/eclipse/src/GPU/autoMat.cpp:517 | `empty()` holds exactly when no copy is valid |
| AutoMats.AutoMat.Type | code/libHawaii/eclipse/src/GPU/autoMat.cpp:520 | `type()` is the selected copy's type, and "not initialized anywhere yet" when no copy is valid |
| AutoMats.AutoMat.GetElemSize | code/libHawaii/eclipse/src/GPU/autoMat.cpp:518 | `elemSize()` is the element size of the selected copy's type, an error when no copy is valid |
| AutoMats.AutoMat.GetElemSize1 | code/libHawaii/eclipse/src/GPU/autoMat.cpp:519 | `elemSize1()` is the channel size of the selected copy's type and divides `elemSize()`, an error when no copy is valid |
| AutoMats.AutoMat.GetDepth | code/libHawaii/eclipse/src/GPU/autoMat.cpp:521 | `depth()` is the selected copy's depth, an error when no copy is valid |
| AutoMats.AutoMat.GetChannels | code/libHawaii/eclipse/src/GPU/autoMat.cpp:522 | `channels()` is the selected copy's channel count, and times `elemSize1()` it is `elemSize()` |
| AutoMats.AutoMat.Rows | code/libHawaii/eclipse/inc/hawaii/GPU/autoMat.h:151-155 | `rows` is the height of `size()` |
| AutoMats.AutoMat.Cols | code/libHawaii/eclipse/inc/hawaii/GPU/autoMat.h:156-160 | `cols` is the width of `size()` |
| AutoMats.AutoMat.Invalidate | code/libHawaii/eclipse/src/GPU/autoMat.cpp:122-134 | every copy is marked stale (`pl` and the GPU copies below GPUs only with CUDA), no header changes, and no copy is valid |
| AutoMats.AutoMat.ScanGpus | code/libHawaii/eclipse/src/GPU/autoMat.cpp:146-162 | the loop over the GPU copies, activating each valid one, computes the scan, marks `pl` up to date exactly when a mapped copy is found, and leaves every buffer alone |
| AutoMats.AutoMat.WrapCpu | code/libHawaii/eclipse/src/GPU/autoMat.cpp:34-39 | `cm` becomes an up-to-date `Mat` header over `pl` with one more reference to `pl`'s buffer |
| AutoMats.AutoMat.MapInto | code/libHawaii/eclipse/src/GPU/autoMat.cpp:40-45 | a GPU copy becomes an up-to-date header over `pl`'s device pointer, which fails exactly unless `pl` is mapped page-locked memory |
| AutoMats.AutoMat.WrapGpu | code/libHawaii/eclipse/src/GPU/autoMat.cpp:362-367 | mapping a valid `pl` into a GPU gives a valid copy that sees the matrix's contents |
| AutoMats.AutoMat.AcquirePl | code/libHawaii/eclipse/src/GPU/autoMat.cpp:169 | page-locked pool memory of the requested size and type, keeping every existing buffer's contents |
| AutoMats.AutoMat.FillPl | code/libHawaii/eclipse/src/GPU/autoMat.cpp:170-172 | `pl` takes the source's contents and becomes up to date |
| AutoMats.AutoMat.Download | code/libHawaii/eclipse/src/GPU/autoMat.cpp:165-173 | GPU `own` is activated and `pl` gets page-locked memory of its size and type holding its contents, up to date |
| AutoMats.AutoMat.PlFrom | code/libHawaii/eclipse/src/GPU/autoMat.cpp:319-334 | `pl` gets page-locked memory of the source's size and type holding its contents, up to date |
| AutoMats.AutoMat.ReadCpu | code/libHawaii/eclipse/src/GPU/autoMat.cpp:137-193 | a valid `cm` is returned untouched; otherwise the result is `pl` wrapped as `cm`, found mapped or downloaded from the last valid GPU copy, always seeing the matrix's contents with the caller's GPU active again; "not initialized anywhere yet" exactly when no copy is valid |
| AutoMats.AutoMat.Deliver | code/libHawaii/eclipse/src/GPU/autoMat.cpp:175-189 | the caller's GPU is activated again and a valid `pl` is wrapped into `cm`; a stale `pl` is the "not initialized" error |
| AutoMats.AutoMat.SimpleCase | code/libHawaii/eclipse/src/GPU/autoMat.cpp:209-241 | a valid copy of the active GPU is returned as it is exactly when its memory is of the requested kind on that GPU; wrong-GPU and inaccessible pointers are errors |
| AutoMats.AutoMat.FindPeer | code/libHawaii/eclipse/src/GPU/autoMat.cpp:244-282 | the peer search finds a valid GPU copy in device memory of its own GPU, or reports that no peer-accessible copy is device memory |
| AutoMats.AutoMat.GpuFrom | code/libHawaii/eclipse/src/GPU/autoMat.cpp:262-277 | the active GPU's copy gets own pool memory of the source's size and type on that GPU, holding its contents, up to date |
| AutoMats.AutoMat.AcquireOwn | code/libHawaii/eclipse/src/GPU/autoMat.cpp:262 | own memory of the active GPU from its pool, keeping every existing buffer's contents |
| AutoMats.AutoMat.FillGm | code/libHawaii/eclipse/src/GPU/autoMat.cpp:355-358 | a GPU copy takes the source's contents and becomes up to date |
| AutoMats.AutoMat.ReadGpu | code/libHawaii/eclipse/src/GPU/autoMat.cpp:196-385 | without CUDA an error; a valid copy of the active GPU of the resolved kind is returned untouched; otherwise the result is the active GPU's copy, up to date, seeing the matrix's contents and, with unified addressing, in memory of the resolved kind; "not initialized anywhere yet" exactly when no copy is valid |
| AutoMats.AutoMat.Refresh | code/libHawaii/eclipse/src/GPU/autoMat.cpp:243-374 | past the simple case: a peer copy for own memory, otherwise `pl` made up to date and uploaded or mapped, with the same guarantees on the returned copy |
| AutoMats.AutoMat.MakePl | code/libHawaii/eclipse/src/GPU/autoMat.cpp:284-346 | `pl` ends up valid exactly when some copy was valid, and `cm` is untouched |
| AutoMats.AutoMat.AdoptCm | code/libHawaii/eclipse/src/GPU/autoMat.cpp:285-291 | a stale `pl` with the very view of a valid `cm` is marked up to date; nothing else changes |
| AutoMats.AutoMat.Fetch | code/libHawaii/eclipse/src/GPU/autoMat.cpp:312-346 | `pl` is deep copied from a valid `cm`, else downloaded from the non-mapped GPU copy, ending valid exactly when some copy was valid |
| AutoMats.AutoMat.GpuDeliver | code/libHawaii/eclipse/src/GPU/autoMat.cpp:348-374 | the caller's GPU is activated again and a valid `pl` is uploaded for own memory or mapped for mapped memory; the copy returned is of that kind and sees the matrix's contents |
| AutoMats.AutoMat.Assign | code/libHawaii/eclipse/src/GPU/autoMat.cpp:104-119 | assignment copies every header and flag (`pl` and the GPU copies below GPUs only with CUDA), so the matrix shows what the other one shows |
| AutoMats.AutoMat.CopyFrom | code/libHawaii/eclipse/src/GPU/autoMat.cpp:107-115 | the copies become the other matrix's, which is left as it was, also when it is this matrix |
| AutoMats.AutoMat.CopyGpus | code/libHawaii/eclipse/src/GPU/autoMat.cpp:112-114 | each GPU copy below GPUs becomes the other matrix's; the other slots are unchanged |
| AutoMats.AutoMat.Mirrors | code/libHawaii/eclipse/src/GPU/autoMat.cpp:104-119 | two matrices with the same copies show the same contents and are valid alike |
| AutoMats.AutoMat.Roi | code/libHawaii/eclipse/src/GPU/autoMat.cpp:526-577 | the ROI is a new matrix holding the ROI of each copy with the selected size and type, with that copy's flag, showing the same contents; an error when no copy is valid |
| AutoMats.AutoMat.WriteCpu | code/libHawaii/eclipse/src/GPU/autoMat.cpp:388-406 | every other copy is stale and `cm` up to date; a non-zero size gets page-locked pool memory wrapped by `cm` (pageable memory without CUDA), of that size and type, which the getters then report |
| AutoMats.AutoMat.AllocateCpu | code/libHawaii/eclipse/src/GPU/autoMat.cpp:396-403 | for a non-zero size, `cm` gets data of that size and type, page-locked with CUDA |
| AutoMats.AutoMat.PinPl | code/libHawaii/eclipse/src/GPU/autoMat.cpp:398 | `pl`'s handle gets page-locked pool memory of that size and type and stays stale |
| AutoMats.AutoMat.PinCpu | code/libHawaii/eclipse/src/GPU/autoMat.cpp:398-399 | `cm` wraps new page-locked pool memory of that size and type |
| AutoMats.AutoMat.WriteGpu | code/libHawaii/eclipse/src/GPU/autoMat.cpp:409-486 | without CUDA an error; otherwise only the active GPU's copy is up to date; a reusable copy is returned untouched; a non-zero size gets memory of the resolved kind (own pool memory, or page-locked memory mapped in) of that size and type |
| AutoMats.AutoMat.WriteKind | code/libHawaii/eclipse/src/GPU/autoMat.cpp:432-475 | past the resolution of the kind: reuse, own memory or mapped memory as writeGPU decides |
| AutoMats.AutoMat.WriteGpuSize | code/libHawaii/eclipse/inc/hawaii/GPU/autoMat.h:134-137 | writing with a size means its height rows and its width columns |
| AutoMats.AutoMat.WriteGpuAsIs | code/libHawaii/eclipse/src/GPU/autoMat.cpp:492-496 | writeGPU() keeps the active GPU copy's size and type |
| AutoMats.AutoMat.AssignGpuMat | code/libHawaii/eclipse/inc/hawaii/GPU/autoMat.h:49 | assigning a `GpuMat` makes it the active GPU's copy and the only up-to-date one, so the matrix shows its contents |
| AutoMats.AutoMat.OnlyGpuShows | code/libHawaii/eclipse/src/GPU/autoMat.cpp:417-419 | with one GPU copy the only up-to-date one, every valid copy sees what it holds |
| AutoMats.AutoMat.OnlyGpuSelected | code/libHawaii/eclipse/src/GPU/autoMat.cpp:504-506 | with one valid GPU copy the only up-to-date one, the getters read it |
| AutoMats.AutoMat.FirstGpuReaches | code/libHawaii/eclipse/src/GPU/autoMat.cpp:504-506 | the first valid GPU copy is one before which none is valid |
| AutoMats.AutoMat.WriteOwn | code/libHawaii/eclipse/src/GPU/autoMat.cpp:457-462 | the active GPU's copy gets own pool memory of that GPU, of the requested size and type |
| AutoMats.AutoMat.WriteMapped | code/libHawaii/eclipse/src/GPU/autoMat.cpp:463-469 | `pl` gets page-locked pool memory mapped into the active GPU as its copy, of the requested size and type |
| AutoMats.AutoMat.WriteCpuSize | code/libHawaii/eclipse/inc/hawaii/GPU/autoMat.h:131-133 | writing with a size means its height rows and its width columns, which the getters report |
| AutoMats.AutoMat.WriteCpuAsIs | code/libHawaii/eclipse/src/GPU/autoMat.cpp:489-491 | writeCPU() keeps `cm`'s size and type and leaves only `cm` up to date |
| AutoMats.AutoMat.AssignMat | code/libHawaii/eclipse/inc/hawaii/GPU/autoMat.h:48 | assigning a `Mat` makes it `cm`, the only up-to-date copy, so the matrix shows its contents and reports its size and type |
| AutoMats.AutoMat.CreateCpu | code/libHawaii/eclipse/src/GPU/autoMat.cpp:401 | `create` keeps a header of that size and type with data, and otherwise allocates new continuous pageable memory; a negative size fails |
| AutoMats.TakeRoi | code/libHawaii/eclipse/src/GPU/autoMat.cpp:534-538 | a matching copy yields its ROI with its flag and one more reference, any other an unset copy |
| AutoMats.TakePlRoi | code/libHawaii/eclipse/src/GPU/autoMat.cpp:544-561 | a page-locked copy with data and matching size and type yields its hand-made ROI with its flag |
| AutoMats.RoiAt | code/libHawaii/eclipse/src/GPU/autoMat.cpp:526-577 | the new matrix holds the ROI of each matching copy and shows the same contents |
| AutoMats.RoiGpus | code/libHawaii/eclipse/src/GPU/autoMat.cpp:564-570 | each GPU slot below GPUs gets the ROI of a matching copy with its flag; the others stay unset |
| AutoMats.RoiOfFits | code/libHawaii/eclipse/src/GPU/autoMat.cpp:565-569 | the ROI of a copy is known and servable, and a valid one sees the copy's contents |
| Partition.CountPartition | code/libHawaii/src/common/partitionize.cpp:36-48 | the count variant yields exactly `partitions` ranges |
| Partition.PartitionizeCount | code/libHawaii/src/common/partitionize.cpp:31-50 | too much overlap fails with "too much overlap for given range", exactly when `total - overlap < 0`; otherwise the loop's ranges are the closed-form partition |
| Partition.CountPartitionCoversTotal | code/libHawaii/src/common/partitionize.cpp:41-48 | the ranges start at 0 and the last one ends at `total` |
| Partition.CountPartitionOverlap | code/libHawaii/src/common/partitionize.cpp:46-47 | each range starts `overlap` elements before the previous one ends |
| Partition.CountPartitionSizes | code/libHawaii/src/common/partitionize.cpp:37-45 | every range has the base size `(total - overlap) / partitions + overlap`, and exactly the first `(total - overlap) % partitions` are one bigger |
| Partition.CountPartitionNoOverlap | code/libHawaii/eclipse/inc/hawaii/common/partitionize.h:29 | without overlap the first `total % partitions` ranges are one bigger than the others, which have `total / partitions` elements |
| Partition.Scale | code/libHawaii/src/common/partitionize.cpp:65 | scaling keeps the number of ratios |
| Partition.Offset | code/libHawaii/src/common/partitionize.cpp:65 | offsetting keeps the number of sizes |
| Partition.Exacts | code/libHawaii/src/common/partitionize.cpp:64-70 | one exact size per ratio |
| Partition.Floors | code/libHawaii/src/common/partitionize.cpp:66-68 | one integer part per exact size |
| Partition.Remainders | code/libHawaii/src/common/partitionize.cpp:67-69 | one remainder per exact size, each in [0, 1) |
| Partition.Sizes | code/libHawaii/src/common/partitionize.cpp:91-94 | the sizes of the ranges, in order |
| Partition.SumRNonEmpty | code/libHawaii/src/common/partitionize.cpp:59 | ratios with a non-zero sum are not empty |
| Partition.ScaleAt | code/libHawaii/src/common/partitionize.cpp:65 | element `i` scaled is `ratio[i] * quotaInv` |
| Partition.OffsetAt | code/libHawaii/src/common/partitionize.cpp:65 | element `i` offset is the exact size plus `overlap` |
| Partition.SumScale | code/libHawaii/src/common/partitionize.cpp:59-65 | scaling every ratio by `quotaInv` scales their sum |
| Partition.SumOffset | code/libHawaii/src/common/partitionize.cpp:65 | adding `overlap` to every size adds `overlap` once per ratio to the sum |
| Partition.QuotaInvScales | code/libHawaii/src/common/partitionize.cpp:59 | `quotaInv` times the sum of the ratios is `total - overlap` |
| Partition.SumScaledOffset | code/libHawaii/src/common/partitionize.cpp:59-65 | the exact sizes add up to `total - overlap` plus `overlap` per ratio |
| Partition.ExactsSum | code/libHawaii/src/common/partitionize.cpp:82 | the exact sizes add up to `totalPlusOverlap`, the total the partition must reach |
| Partition.FloorsPlusRemainders | code/libHawaii/src/common/partitionize.cpp:66-69 | the integer parts and the remainders add up to the exact sizes, and the remainders to less than one per size |
| Partition.PartsBiggerBounds | code/libHawaii/src/common/partitionize.cpp:82-83 | the number of partitions to enlarge, `partsBigger`, is at least 0 and below the number of ratios |
| Partition.SumIUpdate | code/libHawaii/src/common/partitionize.cpp:85 | raising one size by one raises the sum by one |
| Partition.InsertSorted | code/libHawaii/src/common/partitionize.cpp:76-79 | one step of the sort keeps the indices distinct, complete and by descending remainder |
| Partition.InsertPlaces | code/libHawaii/src/common/partitionize.cpp:76-79 | where each index lands when one is inserted |
| Partition.InsertComplete | code/libHawaii/src/common/partitionize.cpp:74-75 | the insertion keeps every index seen so far in the list |
| Partition.InsertOrdered | code/libHawaii/src/common/partitionize.cpp:77-79 | the insertion keeps the remainders descending |
| Partition.SortByRemainder | code/libHawaii/src/common/partitionize.cpp:74-79 | the indices are a permutation of those of the remainders, ordered by descending remainder |
| Partition.BonusHasLargestRemainders | code/libHawaii/src/common/partitionize.cpp:84-86 | an index among the first `partsBigger` has a remainder no smaller than any other index |
| Partition.SplitExact | code/libHawaii/src/common/partitionize.cpp:64-70 | the loop yields the integer parts and the remainders of the exact sizes `ratio * quotaInv + overlap` |
| Partition.AddBonus | code/libHawaii/src/common/partitionize.cpp:84-86 | exactly the partitions at the first `partsBigger` sorted indices grow by one, so the sizes grow by `partsBigger` in total |
| Partition.SizesToRanges | code/libHawaii/src/common/partitionize.cpp:89-95 | the ranges have the given sizes, start at 0, each starts `overlap` before the previous end, and the last ends at the sum of the sizes less `overlap` per join |
| Partition.RemainderPartitionHolds | code/libHawaii/src/common/partitionize.cpp:81-95 | the sorted bonus and the chained ranges together make a largest remainder partition of `total` |
| Partition.BonusOrder | code/libHawaii/src/common/partitionize.cpp:84-86 | a partition that got a bonus unit has a remainder no smaller than one that did not |
| Partition.PartitionizeRatios | code/libHawaii/src/common/partitionize.cpp:53-96 | too much overlap fails, exactly when `total - overlap < 0`; otherwise one range per ratio, each the floor of its exact size or one more, bonus units going to the largest remainders, summing to `totalPlusOverlap`, chained with `overlap` from 0 to `total` |
| Partition.PartitionizeTotal | code/libHawaii/eclipse/inc/hawaii/common/partitionize.h:32-40 | an integer total is partitioned by count or by ratios, failing exactly on too much overlap |
| Partition.Shift | code/libHawaii/src/common/partitionize.cpp:107-112 | adding an offset moves every range by it |
| Partition.ShiftBack | code/libHawaii/src/common/partitionize.cpp:107-112 | shifting back by the offset recovers the ranges |
| Partition.ShiftRanges | code/libHawaii/src/common/partitionize.cpp:107-112 | the loop adds `total.start` to every range, and does nothing when it is 0 |
| Partition.PartitionizeRange | code/libHawaii/src/common/partitionize.cpp:99-114 | a range is partitioned as its size is and then shifted by its start; it fails exactly when its size is smaller than the overlap |
| Partition.RangePartitionStartsAtStart | code/libHawaii/src/common/partitionize.cpp:104-112 | a count partition of a range starts at its start and ends at its end |
| Partition.RowRange | code/libHawaii/src/common/partitionize.cpp:129 | `rowRange` is a view of the same buffer, moved down by the range's start and as high as the range, and fails outside the matrix |
| Partition.ColRange | code/libHawaii/src/common/partitionize.cpp:151 | `colRange` is a view of the same buffer, moved right by the range's start and as wide as the range, and fails outside the matrix |
| Partition.SubView | code/libHawaii/src/common/partitionize.cpp:177 | `total(rangeHor, rangeVer)` is the view of both ranges over the same buffer, failing exactly when either lies outside |
| Partition.ChainedStartsNonneg | code/libHawaii/src/common/partitionize.cpp:43-48 | in ranges chained from 0, none smaller than a non-negative overlap, no range starts below 0 |
| Partition.ChainedEndsBelow | code/libHawaii/src/common/partitionize.cpp:43-48 | in such a chain ending at `total`, no range ends after `total` |
| Partition.ChainedWithin | code/libHawaii/src/common/partitionize.cpp:43-48 | so every range of the chain lies within [0, total] |
| Partition.CountPartitionChained | code/libHawaii/src/common/partitionize.cpp:31-50 | the count variant's ranges form such a chain |
| Partition.SumRNonneg | code/libHawaii/src/common/partitionize.cpp:59 | non-negative ratios have a non-negative sum |
| Partition.ExactsAtLeastOverlap | code/libHawaii/src/common/partitionize.cpp:64-70 | with non-negative ratios every integer part is at least the overlap |
| Partition.RatioPartitionChained | code/libHawaii/src/common/partitionize.cpp:89-94 | the ratio variant's ranges form such a chain when the ratios are non-negative |
| Partition.PartitionWithin | code/libHawaii/src/common/partitionize.cpp:31-96 | every partition of a total with a non-negative overlap of at most the total, by count or by non-negative ratios, has at least one range, and all of them lie within [0, total] |
| Partition.RowViews | code/libHawaii/src/common/partitionize.cpp:127-131 | one row view per range, in order; it succeeds exactly when every range lies within the matrix, and fails with the ROI error otherwise |
| Partition.ColViews | code/libHawaii/src/common/partitionize.cpp:149-153 | one column view per range, in order; it succeeds exactly when every range lies within the matrix, and fails with the ROI error otherwise |
| Partition.PartitionizeHoriz | code/libHawaii/src/common/partitionize.cpp:119-132 | one view of the same buffer per range of a partition of the rows; too much overlap fails, and a non-negative overlap of at most the rows with non-negative ratios always succeeds |
| Partition.PartitionizeVerti | code/libHawaii/src/common/partitionize.cpp:141-154 | one view of the same buffer per range of a partition of the columns; too much overlap fails, and a non-negative overlap of at most the columns with non-negative ratios always succeeds |
| Partition.GridIndexBound | code/libHawaii/src/common/partitionize.cpp:174-178 | block positions of earlier rows of blocks lie before the current one |
| Partition.GridPrefixStep | code/libHawaii/src/common/partitionize.cpp:175-178 | appending the blocks of one row range extends the row-major grid by one row |
| Partition.GridRow | code/libHawaii/src/common/partitionize.cpp:176-178 | the inner loop gives one view per column range for one row range, and succeeds exactly when every block lies within the matrix |
| Partition.GridViews | code/libHawaii/src/common/partitionize.cpp:174-179 | block (a, b) sits at position a times the number of column ranges plus b; the loops succeed exactly when every block lies within the matrix |
| Partition.PartitionizeGrid | code/libHawaii/src/common/partitionize.cpp:163-180 | one view of the same buffer per pair of a row range and a column range, in row-major order; too much overlap in either direction fails, and a valid request with non-negative ratios always succeeds |

## Left out

- Networking, threads and cross-thread hand-off are not modelled. Every operation runs sequentially, so the per-bucket mutexes, Navigator's mutex, and the compare-and-swap loops of the trackers and the timer become plain updates.
- CUDA and OpenCV effects are atomic abstract operations: allocation, host registration, uploads, downloads, peer copies on streams, pointer queries and `setDevice`. Asynchronous completion is not modelled.
- The OpenMP-parallel row copy of `readGPU` is one deep copy.
- The contents of a region of interest are not cut out of its parent's contents. A buffer has one abstract contents value.
- Doubles are exact reals plus an explicit NaN. Rounding and overflow are not modelled. Infinities are not modelled either, except for one case: the controller's derivative term over a zero interval is represented as `Controller.Actuation`, which the limitation turns back into a limit.
- `sin`, `cos`, `sqrt` and matrix inversion are uninterpreted parameters, and so are libviso's outcome and the landmark and person detectors' outputs.
- The wall clock is the input `now`, in milliseconds.
- Text and binary encodings of boost archives are left to boost: an archive is the sequence of values written into it.
- CPU probing with `popen` and the `GPUPower` table of the capability registry are not modelled.
- The floating-point vision code is not part of this model: colour filtering, image splitting, the geometry of `checkSymbol`, the connected-component labelling loop over the label image, HOG and the particle filter, calibration and rectification.
- Application glue is not part of this model: program entry points, ROS and SDL input, `imshow`, logging, settings files, and the file output and thread launch of `Dense3D::computeResults`, whose final state change alone is modelled.
- Sparse3D `getCommands` and `visualize` are not modelled: they only forward commands and draw statistics.
- Dense3D `visoInit`, the first visual odometry step, is not a separate state here. Its outcome is one more input of the frame step.
- Hardware.ResolveGpu: the active GPU index reported by `cudaGetDevice` is required to lie below the 64 table slots, as the source's unchecked table lookup assumes. A failing `cudaGetDevice` is not modelled: the active index is an input.
- Pool.MemoryPool.AllocateFromPoolSet: a request must fit the largest bucket (2^63 bytes). The source's 64-bit arithmetic would wrap before that.
- Partition.PartitionizeCount: `partitions >= 1` is a precondition. The source divides by it unguarded.
- Partition.PartitionizeRatios: the ratios must have a non-zero sum. The source then divides by zero and produces infinite or NaN sizes.
- Partition.SortByRemainder: `std::sort` is not stable, so one admissible order among equal remainders is modelled. The properties proved about the result hold for any such order.
- AutoMats.AutoMat.Roi: the ranges must lie within the selected size, as the OpenCV assertion inside the ROI constructor demands. An assertion failure is not modelled as a result.
- AutoMats.AutoMat.ReadGpu: "not initialized anywhere yet" is tied to "no copy is valid" only when the active GPU is usable. Otherwise the resolution of the memory kind fails first.
- Trackers.Exponential.constructor, Trackers.PT1.constructor and Trackers.Kalman.constructor: an invalid ratio, time constant or noise is a precondition. The source throws `HAWAII_ERROR` for it.
- Serialization.Load: a stored element size that disagrees with the stored type is the error `ErrElemSize`. The source reads that many bytes into the matrix it created, past its end or short of it.
- Serialization.LoadAt: the same `ErrElemSize` rejection as `Load`, at any position of the archive.
- Messages.LoadMessageAt: a stored command outside the 23 values of the enumeration is the error `ErrCommand`. The source casts the stored `int` to the enumeration without a check.
- Messages.SerializeIn: the same `ErrCommand` rejection as `LoadMessageAt`.
- Messages.MessageItems: the image is written by the corrected, row-by-row `save` (`Serialization.Save`). The program calls `save` as written, which stores the padding of a padded image (see Findings).
- Messages.SerializeOut: writes through the corrected `save`, as `MessageItems` does.
- Messages.MessageRoundTrip: holds for the corrected `save`. As written, a padded image does not round-trip (`Serialization.SaveAsWrittenStoresPadding`).
- Dense3D.Dense3D.FlyHeightChange: ends a height change through the corrected completion test `Completed`, which compares against the magnitude of the height change. As written, `CompletedAsWritten` never ends a descent (see Findings).
- Dense3D.Dense3D.GetCommands: uses the corrected completion test, as `FlyHeightChange` does.
- Trackers.PT1.Measure: requires `RatioDefined`. That excludes one case only: a clock that went back by exactly the time constant since the last update. The source then divides by zero, giving an infinite weight. Any other clock reading is modelled, including one that went back (`PT1RatioBackwards`).
- Trackers.PT1Update: the same `RatioDefined` requirement as `PT1.Measure`.
- Trackers.KalmanUpdate: requires `UpdateDefined`. That excludes a denominator `r + p` of exactly 0 under a non-zero numerator, which the source divides into an infinity. `UpdateDefinedForward` shows this cannot happen while the clock does not go back and the noises are not negative. Negative `rArg` and a clock that went back are accepted otherwise.
- Trackers.Kalman.UpdateWith: the same `UpdateDefined` requirement as `KalmanUpdate`.
- Trackers.Kalman.Measure: the same `UpdateDefined` requirement as `KalmanUpdate`.
- Odometry.OdometryDrone.ProcessNavdata: requires `FiltersDefined`, which is the PT1 `RatioDefined` condition for the two velocity filters.
- Dense3D.Dense3D.ProcessImageFront: requires `FiltersDefined`, which is the PT1 `RatioDefined` condition for the two visual-odometry error filters.
- Dense3D.Dense3D.VisoProcess: the same `FiltersDefined` requirement as `ProcessImageFront`.
- GpuRuntime.Runtime.Allocate: `create` always allocates a new buffer. OpenCV's `GpuMat::create` keeps a header that already has data of the requested size and type. The as-written behaviour is `Pool.CreateAsWritten` (see Findings).
- Pool.MemoryPool.NewEntry: always a buffer the pool does not hold yet: the corrected `allocateReally`. As written, the handle's own buffer can be kept and appended again (`Pool.DuplicateEntryAsWritten`).
- Pool.MemoryPool.AppendEntry: appends the corrected `NewEntry`'s new buffer.
- Pool.MemoryPool.Push: requires a buffer not yet in the bucket. This holds for every call in the corrected pool. The as-written duplicate is the Findings row on `allocateReally`.
- Pool.MemoryPool.EntriesAreDistinct: holds of the corrected pool. As written, a bucket can hold one buffer twice, a mapped buffer can enter a device bucket, and one GPU's buffer can enter another GPU's bucket, whenever the handle passed in already is one row of the bucket's bytes of CV_8UC1.
- Pool.MemoryPool.AllocateFromPoolSet: the not-found branch uses the corrected `NewEntry`.
- Pool.MemoryPool.GpuMatFromPool: own memory comes through the corrected `AllocateFromPoolSet`.
- Pool.MemoryPool.AcquireGpuMat: own memory comes through the corrected `AllocateFromPoolSet`.

## Findings

| source | as written | input that shows it | evidently intended | confidence | as-written member | corrected member |
|---|---|---|---|---|---|---|
| code/libHawaii/eclipse/src/GPU/pool.cpp:119 | the bucket index is `64 - clzll(total - 1)` | a total of 1 byte (one 1-byte element, alignment 1) evaluates `clzll(0)`, which is undefined | bucket 0, whose single byte holds the request | not executed | Pool.OneByteRequestHasNoBucketAsWritten | Pool.BucketIsLeastPowerOfTwo |
| code/libHawaii/eclipse/src/GPU/pool.cpp:120 | the bucket size is `1 << poolIdx`, an `int` shift | a request of 2^31 bytes gets bucket 31, and the shift yields 2^64 - 2^31 once converted to `size_t` | 2^31 bytes, a 64-bit power of two | not executed | Pool.BucketBytesAsWrittenOverflows | Pool.BucketIndex |
| src/controller.cpp:37-40 | the default lower limit is `numeric_limits<double>::min()` | with the default arguments, an error of -1 gives a positive command | the most negative double, `-max()`, or the negated upper limit | not executed | Controller.DefaultLimitsAsWrittenNeverNegative | Controller.DefaultLimitsIntended |
| src/producer_consumer/base/cvmat_serialization.h:37-38 | `save` writes `cols * rows * elemSize` bytes from `m.ptr()` | a 2 x 1 byte matrix with one padding byte between its rows is stored as [1, 9], so padding replaces the second row | the element bytes row by row | not executed | Serialization.SaveAsWrittenStoresPadding | Serialization.RoundTrip |
| src/appFollowPersonFP.cpp:157-171 | `push` returns nothing after an append | any push into a queue that is not full | return 1 | not executed | FollowPerson.ChangeAsWrittenReturnsNothing | FollowPerson.Queue.Push |
| src/appFollowPersonFP.cpp:172-183 | `pop` returns nothing after a removal | any pop from a queue that is not empty | return 1 | not executed | FollowPerson.ChangeAsWrittenReturnsNothing | FollowPerson.Queue.Pop |
| src/appFollowPersonFP.cpp:179-180 | the `pop` loop copies `a[i + 1]` for `i` up to `r_queue` | popping a full queue reads `a[30]` of a 30-slot array | stop before the last element | not executed | FollowPerson.PopAsWrittenReadsPastEnd | FollowPerson.PopReadsWithin |
| src/mydemo/ImageProcessing/imageProcessing.cpp:301-309 | `addNewConnectedComponent` grows the table without recording the new `sizeMax` | a table created with length 0: the first append grows it to one slot, and the second writes slot 1 of it | record the grown size | not executed | ImageProcessing.AddAsWrittenOverflows | ImageProcessing.ComponentsTable.Add |
| code/libHawaii/eclipse/src/GPU/pool.cpp:37 | `allocateReally` calls `gpuMatArg.create(1, bytes, CV_8UC1)`, which OpenCV skips when the handle already is one row of `bytes` bytes of CV_8UC1 with data | without unified addressing, the same handle requests 1 x 2^i bytes of CV_8UC1 twice: its entry, still lent to it, is appended to the bucket a second time and is never available again once the handle lets it go | a new buffer, as the name `allocateReally` says | not executed; depends on OpenCV's `create` returning early for a matching header | Pool.DuplicateEntryAsWritten | Pool.MemoryPool.NewEntry |
| src/dense3D.cpp:236-240 | the tolerance is a fifth of the signed height change | any descent: even with every error 0, the test fails | a fifth of the height change's magnitude | not executed | Dense3D.DescentNeverCompletesAsWritten | Dense3D.CompletedProperties |
