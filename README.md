# Fitness-test video analysis: the analysis core

The system scores athletes' fitness-test videos. The sprint, shuttle run,
vertical jump, broad jump, sit-ups, endurance run and medicine ball throw
each have an analyser. It turns the per-frame landmark table extracted from
the video into a `TestResult`, meaning the metrics, a validity flag, a
confidence and a tamper report. This project models what happens after
extraction:

- **Tamper detection** (`CheatDetection`):
  - A scene cut is a frame whose mean absolute grey-level difference from
    the frame before it exceeds a threshold.
  - A pose jump is a row where some landmark with both coordinates present
    in that row and the previous one moved more than a threshold.
  - `run_all_checks` concatenates the events, counts them and flags
    tampering above an overall threshold.
  - The detectors are methods with the source's loops. Each is proved equal
    to a specification function, and the lemmas state soundness,
    completeness and order of the events.
- **The metric engines** (one module per test). Each is a function from the
  gap-filled table, the video properties and the peak finder's output to
  `Result<TestResult, AnalysisError>`. Each error the source raises is an
  `AnalysisError` case.
- **The result records** (`Base`, `Types`):
  - The records themselves, with their defaults.
  - Their range constraints: the confidence and manipulation score lie in
    [0, 1] and the job progress in [0, 100]. A record that breaks them is
    a failure (`Errors.Validated`).
- **Library behaviour as contracts** (`Signals`):
  - Linear gap filling in both directions: the ghost predicate `GapFilled`.
  - The peak finder's output: `IsPeakSet`.
  - `np.gradient`, `np.diff`, `argmin`/`argmax`, sorted merge.
  - Euclidean norms compared through squared distances, with `sqrt` passed
    as a parameter.

Frame numbers in the analysers are row positions. Pose-jump events carry
the row's `frame_index` instead. Python's `int()` is `Signals.Trunc`, which
truncates toward zero. Python truthiness of the stored reference height is
`Signals.Truthy`, which treats an absent height and 0.0 alike.

## Model

| member | source | states |
|---|---|---|
| Base.NewCheatEvent | ai-modules/base.py:13-18 | a new event has no frame index and severity 0.5, which lies in [0, 1] |
| Base.DefaultReport | ai-modules/base.py:20-24 | the default report is not suspected, counts 0 and has no events, and it meets the aggregation invariant (count = number of events, suspected iff count > threshold) for every threshold ≥ 0 |
| Types.NewCheatFlags | common/types.py:6-11 | flags are built iff the manipulation score lies in [0, 1], otherwise a range error naming the field; built flags keep the given lists |
| Types.DefaultCheatFlags | common/types.py:8-11 | default flags have score 0.0, the three frame lists empty, and are valid |
| Types.NewTestResult | common/types.py:13-23 | a result is built iff the confidence lies in [0, 1], otherwise a range error naming `confidence`; a built result has api version "v1", no raw data and the given fields |
| Types.NewJobStatus | common/types.py:25-31 | a job status is built iff the progress lies in [0, 100]; it keeps the given fields |
| Types.NewJobStatusDefaults | common/types.py:29-31 | a job status with defaults has progress 0, no result and no error message |
| Errors.Validated | common/types.py:21 | a built record passes through unchanged; a refused record becomes an `Invalid` analysis error |
| Signals.CountMissing | ai-modules/tests/endurance_run.py:80 | the missing count is at most the column length: the full length for an all-missing column, 0 for a complete one |
| Signals.DropNa | ai-modules/tests/endurance_run.py:50 | dropping missing cells keeps length − missing values: all of them, in order, for a complete column, none for an all-missing one |
| Signals.GapFilledShape | ai-modules/tests/situps.py:41 | after gap filling a column is complete or entirely missing, and entirely missing iff it was before |
| Signals.GapFilledBetweenObservations | ai-modules/tests/situps.py:41 | for a column observed at least once, every filled cell is present and lies between two observed values of the raw column |
| Signals.GapFilledWithinRange | ai-modules/tests/situps.py:41 | gap filling never leaves the range of the observed values |
| Signals.GapFilledAtLeast | ai-modules/tests/situps.py:41 | a lower bound on every observed value bounds every filled value |
| Signals.Abs | ai-modules/tests/broad_jump.py:57 | the absolute value is non-negative and is x or −x |
| Signals.Trunc | ai-modules/tests/situps.py:50 | `int()` of a real: the integer toward zero, within 1 of the argument |
| Signals.MeanWithin | ai-modules/tests/endurance_run.py:66-67 | the mean of a non-empty sequence lies between any lower and upper bound of its elements |
| Signals.FirstAbove | ai-modules/tests/sprint_30m.py:43-44 | the first index whose value exceeds the threshold, and none exactly when no value exceeds it |
| Signals.FirstAboveOrdered | ai-modules/tests/sprint_30m.py:43-48 | a lower line is crossed first no later than a higher line |
| Signals.ArgMin | ai-modules/tests/broad_jump.py:49 | the first index holding the smallest value |
| Signals.ArgMax | ai-modules/tests/vertical_jump.py:62 | the first index holding the largest value |
| Signals.ArgMaxFrom | ai-modules/tests/broad_jump.py:52 | `start + argmax(s[start:])`: an index at or after `start`, the first holding the largest value of that suffix |
| Signals.Gradient | ai-modules/tests/broad_jump.py:49 | one gradient entry per sample: one-sided differences at the ends, central differences inside |
| Signals.GradientOfLine | ai-modules/tests/broad_jump.py:49 | the gradient of a straight line is its slope everywhere |
| Signals.DiffTelescopes | ai-modules/tests/shuttle_run.py:63-64 | consecutive differences add up to last minus first |
| Signals.Merge | ai-modules/tests/shuttle_run.py:51 | merging two sorted lists gives a sorted permutation of their concatenation |
| Signals.SortedPermutationUnique | ai-modules/tests/shuttle_run.py:51 | two sorted permutations of one multiset are equal, so `sorted` has one answer |
| Signals.NormExceeds | ai-modules/cheat_detection.py:72-75 | for any square root, the distance exceeds a threshold iff the squared distance exceeds its square (every distance exceeds a negative threshold) |
| Signals.MaxExceeds | ai-modules/cheat_detection.py:75 | the maximum of a list exceeds a threshold iff some element does |
| Signals.SqrtStrictlyMonotone | ai-modules/tests/medicine_ball.py:52-53 | a larger square has a larger root, so the largest step in length is the largest in square |
| CheatDetection.MeanAbsDiffOfOffset | ai-modules/cheat_detection.py:33-34 | a frame shifted uniformly by m grey levels has mean absolute difference \|m\| from the original |
| CheatDetection.SceneCutFramesExact | ai-modules/cheat_detection.py:27-45 | the cut frames found up to k are exactly the frames i in [1, k) whose difference from frame i−1 exceeds the threshold, in increasing order |
| CheatDetection.SceneCutEvents | ai-modules/cheat_detection.py:36-42 | one `scene_cut` event of severity 0.9 per cut frame, at that frame |
| CheatDetection.DetectSceneChanges | ai-modules/cheat_detection.py:9-48 | the loop over consecutive frames returns exactly the specified scene-cut events, and none for an unopenable or empty video |
| CheatDetection.SceneCutsSound | ai-modules/cheat_detection.py:36-45 | every event has type `scene_cut`, severity 0.9 and a frame index i in [1, n−1] whose difference exceeds the threshold; there are at most n−1 events |
| CheatDetection.SceneCutsComplete | ai-modules/cheat_detection.py:33-42 | every frame whose difference from the previous one exceeds the threshold has an event |
| CheatDetection.SceneCutsOrdered | ai-modules/cheat_detection.py:36-45 | events are in strictly increasing frame order |
| CheatDetection.NoSceneCutsWithoutFramePairs | ai-modules/cheat_detection.py:14-22 | an unopenable video, or one with fewer than two frames, yields no events |
| CheatDetection.LandmarkColumns | ai-modules/cheat_detection.py:56 | a column is kept iff it is among the table's columns and its name contains `_x` or `_y` |
| CheatDetection.BaseOfXColumn | ai-modules/cheat_detection.py:64 | splitting `<base>_x` at its last underscore gives back the base |
| CheatDetection.PoseJumpsExact | ai-modules/cheat_detection.py:58-81 | the pose-jump events up to k are one per jump row i in [1, k), in row order, each carrying that row's frame index |
| CheatDetection.LandmarkDisplacements | ai-modules/cheat_detection.py:62-73 | the inner loop collects one displacement per landmark whose two coordinates are present in both rows, no landmark twice, so there are as many displacements as such landmarks |
| CheatDetection.LargestDisplacementDecides | ai-modules/cheat_detection.py:75 | the row is a jump iff the displacement list is non-empty and its maximum exceeds the threshold iff some listed landmark moved more than the threshold |
| CheatDetection.DetectPoseJumps | ai-modules/cheat_detection.py:50-83 | the loop over consecutive rows returns exactly the specified pose-jump events |
| CheatDetection.PoseJumpIffSomeLandmarkJumped | ai-modules/cheat_detection.py:56-75 | row i ≥ 1 is a jump iff some landmark base with both coordinates present in rows i−1 and i moved more than the threshold |
| CheatDetection.NoCompletePairNoPoseJumps | ai-modules/cheat_detection.py:64-73 | a table where no landmark has both coordinates in two consecutive rows yields no pose-jump events |
| CheatDetection.NoCoordinatePairColumnsNoPoseJumps | ai-modules/cheat_detection.py:56-73 | in particular a table with no landmark whose `_x` and `_y` columns both exist yields no pose-jump events |
| CheatDetection.StationaryLandmarkIrrelevant | ai-modules/cheat_detection.py:71-75 | adding a landmark that did not move between the rows does not change the decision |
| CheatDetection.OnlyMoverDecides | ai-modules/cheat_detection.py:71-75 | when only one landmark has a complete pair, the row is a jump iff that landmark moved more than the threshold |
| CheatDetection.PoseJumpsSound | ai-modules/cheat_detection.py:58-81 | every pose-jump event has type `pose_jump`, severity 0.7 and a frame index; a table of n rows yields at most n−1 events |
| CheatDetection.AllChecks | ai-modules/cheat_detection.py:85-107 | scene events followed by pose events (none for an empty table); the count is the number of events and tampering is suspected iff it exceeds the threshold |
| CheatDetection.RunAllChecks | ai-modules/cheat_detection.py:85-107 | the method that runs both detectors and extends the list builds exactly the specified report |
| CheatDetection.AllChecksCountsBothDetectors | ai-modules/cheat_detection.py:92-99 | the report's count is the number of scene cuts plus the number of pose jumps |
| Sprint30m.FindCrossings | ai-modules/tests/sprint_30m.py:43-51 | start, split and finish are the first rows past 0.05, 0.35 and 0.95; it fails iff no row passes 0.95 or the first row past 0.05 is already past 0.95 |
| Sprint30m.CrossingsOrdered | ai-modules/tests/sprint_30m.py:43-58 | when the crossings are found the split is found too, and start ≤ split ≤ finish |
| Sprint30m.FinishImpliesStart | ai-modules/tests/sprint_30m.py:43-48 | whenever a row passes the finish line, a row passes the start line no later |
| Sprint30m.SprintMetrics | ai-modules/tests/sprint_30m.py:53-64 | the time in ms truncates (finish − start)/fps·1000 and is ≥ 0; speed × time = 30 m with a positive speed; the split lies between 0 and the time |
| Sprint30m.AnalyzeSprint30m | ai-modules/tests/sprint_30m.py:39-75 | no nose signal gives "no person"; otherwise it fails iff the crossings fail; a result is valid with confidence 0.9, the sprint metrics and the tamper report |
| ShuttleRun.Turns | ai-modules/tests/shuttle_run.py:47-51 | the turns are a sorted permutation of peaks and troughs together |
| ShuttleRun.TurnsAreTheSortedConcatenation | ai-modules/tests/shuttle_run.py:51 | any sorted arrangement of peaks and troughs equals the turn list |
| ShuttleRun.LapFrames | ai-modules/tests/shuttle_run.py:63-64 | lap frames are [t0, t1−t0, t2−t1, 0], they add up to t2, and for sorted turns each lies in [0, t2] |
| ShuttleRun.ShuttleMetrics | ai-modules/tests/shuttle_run.py:57-70 | total time truncates t2/fps·1000 and is ≥ 0; four lap times, each the truncated lap time, the last 0, and none above the total for sorted turns |
| ShuttleRun.AnalyzeShuttleRun | ai-modules/tests/shuttle_run.py:41-81 | no signal gives "no person"; a peak distance below 1 is the peak finder's error; fewer than 3 turns fails with the actual count; a result is valid with confidence 0.88 |
| VerticalJump.AcceptedRateGivesWindow | ai-modules/tests/vertical_jump.py:56-65 | a frame rate whose peak distance the peak finder accepts leaves at least one frame in the take-off window |
| VerticalJump.HighestPeak | ai-modules/tests/vertical_jump.py:62 | the chosen peak is one of the peaks, none is higher, and every earlier peak is strictly lower |
| VerticalJump.Takeoff | ai-modules/tests/vertical_jump.py:65-66 | take-off lies in [max(0, highest − int(fps)), highest) and is the first frame of the window's minimum |
| VerticalJump.JumpHeightNonNegative | ai-modules/tests/vertical_jump.py:65-68 | a peak at least as high as its left neighbour gives a normalized jump height ≥ 0 |
| VerticalJump.ScaledHeight | ai-modules/tests/vertical_jump.py:71-77 | 0 unless the reference height is truthy and the torso length positive; then height × torso = normalized × reference; ≥ 0 for non-negative inputs |
| VerticalJump.TorsoLength | ai-modules/tests/vertical_jump.py:74 | the ankle-to-shoulder distance of the means is non-negative |
| VerticalJump.VerticalJumpMetricsOf | ai-modules/tests/vertical_jump.py:57-84 | one jump per peak, flight time 0, frames = rows; height 0 without peaks, else the scaled height of the highest peak above its take-off, ≥ 0 |
| VerticalJump.AnalyzeVerticalJump | ai-modules/tests/vertical_jump.py:51-95 | no ankle signal gives "no person"; otherwise it succeeds iff the peak finder accepts the distance; a result is valid with confidence 0.9 |
| BroadJump.TakeoffFrame | ai-modules/tests/broad_jump.py:49 | take-off is the first frame of the smallest ankle gradient |
| BroadJump.LinearTrackTakesOffAtFirstFrame | ai-modules/tests/broad_jump.py:49 | an ankle moving at constant speed takes off at frame 0 |
| BroadJump.DistanceCm | ai-modules/tests/broad_jump.py:59-71 | 0 unless the reference height is truthy and the torso length positive; then cm × torso × video height = travel × width × reference; ≥ 0 for non-negative inputs |
| BroadJump.BroadJumpMetricsOf | ai-modules/tests/broad_jump.py:49-77 | landing is the first lowest ankle position from take-off on; the distance scales the horizontal ankle travel between them and is ≥ 0 |
| BroadJump.AnalyzeBroadJump | ai-modules/tests/broad_jump.py:45-88 | no ankle signal gives "no person"; otherwise it succeeds iff there are at least 2 rows; a result is valid with confidence 0.85 |
| Situps.TorsoYDiffOf | ai-modules/tests/situps.py:31-33 | the torso measure is the shoulder-to-hip gap up to sign, never negative |
| Situps.TorsoColumn | ai-modules/tests/situps.py:28-36 | the raw torso column has one cell per frame, observed exactly on the frames with a detected pose, and never negative |
| Situps.SignalNonPositive | ai-modules/tests/situps.py:28-47 | when some frame has a pose, gap filling the raw torso column gives a complete negated signal that is ≤ 0, and so is its mean, the peak height threshold |
| Situps.RepTimestamps | ai-modules/tests/situps.py:50 | one timestamp per repetition, each the truncated peak time in ms |
| Situps.RepTimestampsIncrease | ai-modules/tests/situps.py:47-50 | peaks the peak finder separates by int(0.8·fps) frames get strictly increasing timestamps |
| Situps.AnalyzeSitups | ai-modules/tests/situps.py:41-67 | no torso signal gives "no pose data"; otherwise it succeeds iff the peak finder accepts the distance; count = number of timestamps = number of peaks, form score 0.9, confidence 0.92, increasing timestamps |
| EnduranceRun.TotalTimeS | ai-modules/tests/endurance_run.py:19 | total time × fps = frame count when fps > 0, else 0 |
| EnduranceRun.Cadence | ai-modules/tests/endurance_run.py:56 | cadence × total time = 120 × dips for a positive time, ≥ 0; else 0 |
| EnduranceRun.Pace | ai-modules/tests/endurance_run.py:59 | pace × distance = 1000 × total time for a positive distance, else 0 |
| EnduranceRun.FatigueWindow | ai-modules/tests/endurance_run.py:65 | the window is one fifth of the samples, truncated, and at least 4 |
| EnduranceRun.FatigueDetected | ai-modules/tests/endurance_run.py:62-69 | never with 20 stride samples or fewer |
| EnduranceRun.StrideHeldNoFatigue | ai-modules/tests/endurance_run.py:62-69 | if every late stride is at least 90% of every early stride, no fatigue is reported |
| EnduranceRun.StrideShrankFatigue | ai-modules/tests/endurance_run.py:62-69 | if every late stride is below 90% of every early stride, fatigue is reported |
| EnduranceRun.TrackingConfidence | ai-modules/tests/endurance_run.py:80 | confidence is the tracked share of frames, in [0, 1]: 1 for a complete column, 0 for an all-missing one |
| EnduranceRun.EnduranceMetricsOf | ai-modules/tests/endurance_run.py:50-77 | echoes the distance; time truncates total·1000 and is ≥ 0; pace as above; cadence from the dips, 0 without ankle samples, ≥ 0; fatigue from the strides |
| EnduranceRun.AnalyzeEnduranceRun | ai-modules/tests/endurance_run.py:47-91 | an empty table fails on the missing ankle column; otherwise it fails iff there are ankle samples and the peak finder refuses the distance; valid iff confidence > 0.8 |
| EnduranceRun.ValidExactlyWhenTracked | ai-modules/tests/endurance_run.py:47-88 | an analysed run is valid iff the ankle was ever tracked; if never, confidence 0, cadence 0 and no fatigue, without an error |
| MedicineBall.Speeds | ai-modules/tests/medicine_ball.py:52 | one speed per step, each the root of that step's squared length |
| MedicineBall.FastestStepIsLargestSquare | ai-modules/tests/medicine_ball.py:52-53 | the fastest step is the largest squared step, whatever root is used |
| MedicineBall.ReleaseFrame | ai-modules/tests/medicine_ball.py:52-56 | release is ≥ 1 and is the first frame entered by a largest step |
| MedicineBall.ThrowDistanceCm | ai-modules/tests/medicine_ball.py:61-65 | the distance is ≥ 0 and its square is 1.5² × the squared release-to-landing distance |
| MedicineBall.MedicineBallMetricsOf | ai-modules/tests/medicine_ball.py:52-71 | landing is the first lowest ball position from release on; the distance is as above; velocity and angle are 0 |
| MedicineBall.AnalyzeMedicineBall | ai-modules/tests/medicine_ball.py:47-82 | no ball signal gives "no ball"; otherwise it succeeds iff there are at least 2 rows, else no release point; a result is valid with confidence 0.75 |

## Left out

- Video decoding, pose estimation and the per-frame acquisition loops (`ai-modules/utils.py`, the `while cap.isOpened()` loops): foreign I/O and model calls. The analysers take the extracted table, and the scene-cut rule takes the grey frames.
- The "Could not open video file" error each analyser raises when the capture fails: it comes from `ai-modules/utils.py`, which is not part of this model.
- HSV colour tracking of the medicine ball: image processing in a foreign library. The trajectory is taken as input.
- The peak finder's algorithm, including its prominence filter and which of two close peaks survives: the peak lists are parameters constrained by `Signals.IsPeakSet`. A refused distance below 1 is modelled as an error.
- The interpolation algorithm itself: it is stated as the `Signals.GapFilled` relation, and the analysers require only its consequence that each column is complete or entirely missing, with columns captured together missing together.
- Floating point: reals are exact, NaN is an absent cell, and IEEE rounding of constants such as 0.2 or 0.9 is not modelled.
- Sprint30m.SprintMetrics: reports the average speed unrounded, where the source rounds it to 2 decimals.
- VerticalJump.VerticalJumpMetricsOf: reports the jump height unrounded, where the source rounds it to 2 decimals.
- BroadJump.BroadJumpMetricsOf: reports the distance unrounded, where the source rounds it to 2 decimals.
- EnduranceRun.EnduranceMetricsOf: reports pace and cadence unrounded, where the source rounds them to 2 decimals.
- EnduranceRun.AnalyzeEnduranceRun: records the confidence unrounded, where the source stores it rounded to 2 decimals. Validity is judged on the unrounded value in both.
- MedicineBall.MedicineBallMetricsOf: reports the distance unrounded, where the source rounds it to 2 decimals.
- Sprint30m.AnalyzeSprint30m: requires a positive frame rate only on the path that divides by it, after a person was found and both crossings were located (`ai-modules/tests/sprint_30m.py:53`). On that path a zero rate gives the source an infinite or failed time, depending on the operand types, and the model does not represent that outcome. Inputs that stop earlier with "no person" or "no valid crossing" are modelled for every rate.
- BroadJump.AnalyzeBroadJump: requires a positive video height only on the path that divides by it, when the reference height is set and non-zero and the on-screen person height `BroadJump.ScaleHeight` is positive (`ai-modules/tests/broad_jump.py:61-67`). On that path a zero height gives the source an infinite or failed distance, and the model does not represent that outcome. On every other path the distance is 0 for any height, as in the source.
- Square roots are a parameter satisfying `Signals.IsSqrtFn`, and the pose-jump rule compares squared distances, so no particular root function is fixed.
- The event description strings with formatted numbers: free text. Events carry a fixed description per type.
- The stored reference height (`ai-modules/tests/height.py`, `weight.py`, `sit_and_reach.py` and their JSON files): file I/O. The analysers take the height as an `Option<real>`.
- The default athlete id `"default_athlete"`: callers pass the id.
- Types.NewTestResult: stores the `CheatingReport` the analysers pass in the `cheat_flags` field, and succeeds whenever the confidence is in range. The field is declared as `CheatFlags` (`common/types.py:22`), a different model class, and pydantic 2 (the version that has `model_dump_json`) refuses an instance of another model class for it. So each analyser as written raises a validation error at its final `TestResult(...)` call, where the model returns a result carrying the report. The model follows the evident intent rather than that failure.
- Timestamps (`timestamp`, `created_at`, `updated_at`) that are taken from the clock: not modelled.
- `AnalysisResult.frame_data`: a data frame field carried with no behaviour.
- The backend (routers, database models, background processing that reads `.results` and `.cheating_report` from a `TestResult`) and `print` logging and the command-line entry points: web, persistence and presentation.
