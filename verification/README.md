# Smart-car firmware: vision, element arbiter and recogniser link

A verified model of the algorithms at the heart of an RT-Thread race car: what the camera pipeline
computes, which track element the car believes it is in, and how numbers from the recognition
camera reach the main loop. Where the firmware works in place the model does too: arrays, fields and
loops, each proved against a specification function; the properties are then proved about those
functions and about whole runs.

`dafny verify dfyconfig.toml` checks all of it. One module per file.

| module | what it models |
|---|---|
| `Otsu`, `Binarise` | the running-sum threshold search over an arbitrary histogram, the byte-wide histogram, binarisation |
| `Morphology`, `Resize` | 3x3 erosion and dilation, subsampling |
| `Screen` | the size of the camera image |
| `TrackScan` | the bottom-up line scan, in which every row starts from the row below |
| `EdgeTrace` | the four windowed edge followers |
| `LineStats`, `Variance`, `StopWindow`, `LineFlags` | slope, variance, stop detector and edge counts over a scanned line |
| `Boundary` | the eight-direction contour tracer |
| `Arbiter`, `ArbiterCar` | seven interacting element state machines, as a specification and as the code that updates the globals in place, frame after frame |
| `Transitions` | when exactly each element of the arbiter moves on, and which one is entered |
| `ForkSchedule`, `ForkPatch` | which branch each fork takes, and the midline it imposes |
| `RowDistance` | image row to ground distance by interpolation |
| `Framing`, `OpenArt`, `Mailbox` | line framing of the serial stream, the parser, and its race with the main loop |

## What the proofs found

- **Threshold of a single-coloured image.** The scan for the largest grey value tests the bin of the
  smallest one (`histogram[MinValue]` where `histogram[MaxValue]` is meant), so the early answers for
  one or two colours are hardly ever taken. The search is right all the same whenever two bins are in
  use. With one bin in use it answers that grey value only for 0, 254 and 255, and 0 otherwise
  (`SingleColourIff`).
- **Byte-wide bins.** A bin of 256 pixels reads 0. A full 120x160 image of 9728 pixels of grey 10 and 9472
  of grey 200 leaves an empty histogram and comes out in one colour (`WrapLosesBlack`). Both colours appear
  exactly under the condition of `BothColoursIff`.
- **The mailbox can be lost for good.** A number outside 0..5 is never cleared, and a number accepted
  between the main loop's two clearing writes has its value wiped while its flag stays set. Either way
  nothing is accepted or acted on ever after. `WedgedIff` shows that these are the only two ways;
  `WedgedByNumber` and `WedgedByRace` are runs from the start that end so.
- **The acknowledgement is never recognised.** Framing strips the newline, and the parser compares with
  a text that includes it (`AckNeverMatches`).
- **Ninth fork.** In the debug arbiter branches are laid out for forks 1 to 8; from the ninth on the
  fork element never ends (`NinthForkNeverEnds`). A run from the start that gets there is
  `NinthForkReached`.
- **Row table.** The search looks one knot past the table; exactly the rows above the last knot's row are
  answered before it does (`RowToDistance`).
- **Contour tracer.** On a start pixel without a black neighbour, such as a single pixel (`OnePixel`), the
  inner search turns for ever. With one, the trace always closes: no two steps have the same successor, so
  none repeats before the start is reached again (`NextInjective`, `TraceBounded`). But it stops when it
  is back at its first point, not at its first step, and may then have gone round a part of the boundary
  only: `StopsHalfWay` has the region, `OnceRoundIff` says exactly when nothing is missed, and
  `GoesOnceRound` gives a condition on four neighbours of the start under which nothing is.
- **Serial buffer.** A line of 50 bytes or more has its terminator written past the buffer (`LongLine`).
- **Filtering in place.** Erosion and dilation read pixels they have already written when source and
  destination are one image; the result is at least as dark, respectively as bright
  (`InPlaceErodesMore`, `InPlaceDilatesMore`). Subsampling in place is safe.

## Model

| member | source | states |
|---|---|---|
| `Otsu.SolveOtsu` | Project/src/img_proc.cpp:195-245 | for every histogram with two bins in use, the smallest threshold of largest between-class variance among all that leave neither class empty; otherwise the fallback value |
| `Otsu.LargestFrom` | Project/src/img_proc.cpp:209-210 | the scan for the largest value in use ends where it started or at 255, because it tests the wrong bin |
| `Otsu.VariedSplits` | Project/src/img_proc.cpp:195-245 | a threshold with two nonempty classes exists exactly when two bins are in use |
| `Otsu.SplitRange` | Project/src/img_proc.cpp:195-245 | such thresholds are exactly those from the lowest bin in use up to just below the highest |
| `Otsu.Decomposition` | Project/src/img_proc.cpp:195-245 | total variance is within-class plus between-class variance, for every threshold |
| `Otsu.BestMinimisesWithin` | Project/src/img_proc.cpp:195-245 | the answer is also the smallest threshold of least within-class variance |
| `Otsu.StepSigma` | Project/src/img_proc.cpp:226-243 | the running sums give the between-class variance of each threshold, and the 0/0 step is exactly the one with no foreground |
| `Otsu.BestStep` | Project/src/img_proc.cpp:227-243 | replacing the best so far only by something strictly larger keeps the smallest best threshold |
| `Otsu.EarlyPair` | Project/src/img_proc.cpp:212-215 | with the lowest bin in use at 254, the early answer is what the full search would find |
| `Binarise.ImgProc.OstuThreshold` | Project/src/img_proc.cpp:141-152 | leaves the wrapped histogram of exactly the image's pixels and answers its threshold |
| `Binarise.ImgProc.GrayToBinary` | Project/src/img_proc.cpp:124-139 | per mode, which threshold is used; every pixel becomes 255 if above it and 0 otherwise, also when source and destination are one buffer; nothing else is written |
| `Binarise.RowMajor` | Project/src/img_proc.cpp:7 | pixel addresses run through the rows without gap or overlap and stay in the image |
| `Binarise.BothColoursIff` | Project/src/img_proc.cpp:124-152 | exactly which images show black and white after binarisation, in terms of the wrapped bins and the pixels |
| `Binarise.SingleColourIff` | Project/src/img_proc.cpp:207-215 | exactly for which single colours the search answers that colour |
| `Binarise.WrapLosesBlack` | Project/src/img_proc.cpp:141-152 | a full-size image of two colours that comes out in one because bins wrap |
| `Morphology.Erode3` | Project/src/img_proc.cpp:82-101 | every interior pixel is the smallest of its window, the border is untouched; in place, of the window with the earlier pixels already filtered |
| `Morphology.Dilate3` | Project/src/img_proc.cpp:103-122 | every interior pixel is the largest of its window, the border is untouched; in place, of the window with the earlier pixels already filtered |
| `Morphology.InPlaceErodesMore` | Project/src/img_proc.cpp:82-101 | erosion in place darkens every pixel at least as much as erosion into another image |
| `Morphology.InPlaceDilatesMore` | Project/src/img_proc.cpp:103-122 | dilation in place brightens every pixel at least as much as dilation into another image |
| `Morphology.ErosionBound` | Project/src/img_proc.cpp:82-101 | erosion is the greatest lower bound of the window |
| `Morphology.DilationBound` | Project/src/img_proc.cpp:103-122 | dilation is the least upper bound of the window |
| `Morphology.Duality` | Project/src/img_proc.cpp:82-122 | eroding the negative is the negative of dilating |
| `Morphology.Adjunction` | Project/src/img_proc.cpp:82-122 | for a black-bordered and b white-bordered, dilating a stays below b exactly when a stays below b eroded |
| `Morphology.BinarisationCommutes` | Project/src/img_proc.cpp:82-139 | binarising before or after either filter is the same |
| `Resize.ImgResize` | Project/src/img_proc.cpp:154-160 | the small image takes every scale-th pixel of every scale-th row, for sizes that need not divide evenly, also when it overwrites the large one; nothing else is written |
| `Resize.PickInside` | Project/src/img_proc.cpp:154-160 | every pixel taken lies inside the large image |
| `Resize.PickAhead` | Project/src/img_proc.cpp:154-160 | no pixel is taken from before the place it goes to, so none is overwritten before it is read |
| `Resize.BinarisationCommutes` | Project/src/img_proc.cpp:124-160 | binarising before or after subsampling is the same |
| `TrackScan.Track.FindTrackGray` | Project/src/f_elems.cpp:1034-1087 | every row of the scanned image is as its pixels, the row below it and the fork make it; both start rows are the lowest with that edge, 0 for none; the next image starts from the bottom midline |
| `TrackScan.Track.ScanOneRow` | Project/src/f_elems.cpp:1049-1082 | one row changes only itself, the seed, and the start rows not yet known |
| `TrackScan.Track.MidlineProc2` | Project/src/f_elems.cpp:979-1032 | puts a lost edge at the border and completes the row with its midline inside the image, its width, and the next seed, to one side in a fork |
| `TrackScan.Track.MidlineOf` | Project/src/f_elems.cpp:979-1022 | the midline halfway between the edges, or straight on from the row below where an edge is lost above a gap 8, 11 or 15 rows down |
| `TrackScan.Track.SearchLeft` | Project/src/f_elems.cpp:1058-1069 | finds the nearest white-white-black pattern left of the seed |
| `TrackScan.Track.SearchRight` | Project/src/f_elems.cpp:1070-1081 | finds the nearest white-white-black pattern right of the seed |
| `TrackScan.NearestLeft` | Project/src/f_elems.cpp:1058-1069 | none exactly when there is no pattern between the seed and column 3, otherwise the one closest to the seed |
| `TrackScan.NearestRight` | Project/src/f_elems.cpp:1070-1081 | none exactly when there is no pattern between the seed and column 156, otherwise the one closest to the seed |
| `TrackScan.LowestFlagged` | Project/src/f_elems.cpp:1042-1043 | the largest row index with the flag, 0 exactly if there is none |
| `TrackScan.RowsSound` | Project/src/f_elems.cpp:979-1087 | in every row left < right, midline and seed inside the image, a flag exactly if a pattern exists on that side of the seed, and the edge is the nearest one |
| `TrackScan.ScanLaw` | Project/src/f_elems.cpp:979-1087 | of any row of any scan: edges just outside the first white, white, black on either side of the seed, the midline halfway or straight on, and the next seed by the two fork directions |
| `TrackScan.ScannedLaw` | Project/src/f_elems.cpp:1034-1087 | the finished scan has these rows, and its start rows are the lowest with an edge |
| `EdgeTrace.FindLEdgeFromOutter` | Project/src/f_elems.cpp:326-349 | every row has the edge flagged exactly if a black pixel with a white one towards the road lies within 6 columns of the row below, and is next to the leftmost such pixel |
| `EdgeTrace.FindREdgeFromOutter` | Project/src/f_elems.cpp:351-374 | every row has the edge flagged exactly if a black pixel with a white one towards the road lies within 6 columns of the row below, and is next to the rightmost such pixel |
| `EdgeTrace.FindLEdgeFromInner` | Project/src/f_elems.cpp:376-399 | every row has the edge flagged exactly if a black pixel with a white one towards the road lies within 6 columns of the row below, and is next to the rightmost such pixel |
| `EdgeTrace.FindREdgeFromInner` | Project/src/f_elems.cpp:401-424 | every row has the edge flagged exactly if a black pixel with a white one towards the road lies within 6 columns of the row below, and is next to the leftmost such pixel |
| `EdgeTrace.TraceFollows` | Project/src/f_elems.cpp:326-424 | so for the recursive trace of any image, from any seed, on either side, outer or inner |
| `EdgeTrace.OuterLeftOfInner` | Project/src/f_elems.cpp:326-399 | while neither trace has lost the edge, the outer left trace is never right of the inner one |
| `EdgeTrace.OuterRightOfInner` | Project/src/f_elems.cpp:351-424 | mirrored for the right edge |
| `EdgeTrace.LeftStepRange` | Project/src/f_elems.cpp:326-399 | a found left step moves between -7 and +5 columns, and traced columns stay within -1..159 |
| `EdgeTrace.RightStepRange` | Project/src/f_elems.cpp:351-424 | a found right step moves between -5 and +7 columns, and traced columns stay within 0..160 |
| `EdgeTrace.RightTraceMirrors` | Project/src/f_elems.cpp:326-424 | a right trace is the mirror image of the left trace of the mirrored picture |
| `LineStats.SlopeSolver.SolveSlope` | Project/src/f_elems.cpp:2077-2112 | the least-squares slope for two or more rows whichever end comes first, the last slope for one row, 0 for none |
| `LineStats.DeterminantValue` | Project/src/f_elems.cpp:2092-2110 | the denominator over n rows is n^2 (n^2 - 1) / 12, so it is zero exactly for fewer than two rows |
| `LineStats.LeastSquares` | Project/src/f_elems.cpp:2077-2112 | no line has a smaller sum of squared residuals, and no other slope an equal one |
| `LineStats.ExactLine` | Project/src/f_elems.cpp:2077-2112 | a straight line's slope is recovered exactly |
| `Variance.SolveVariance` | Project/src/f_elems.cpp:2043-2075 | which rows count, whichever end comes first, and a value from the variance up to less than one above it |
| `Variance.SpreadIdentity` | Project/src/f_elems.cpp:2043-2075 | n times the spread about any integer a is n times the sum of squares, less the squared sum, plus (sum - n a)^2 |
| `Variance.MeanError` | Project/src/f_elems.cpp:2058-2063 | the truncated mean misses the sum by less than n, and never away from zero |
| `Variance.VarianceError` | Project/src/f_elems.cpp:2043-2075 | truncating the mean overstates the variance by less than one and never understates it |
| `StopWindow.StopJudge.Judge` | Project/src/f_elems.cpp:872-890 | the in-place shift and count are one step of the register |
| `StopWindow.RegisterHolds` | Project/src/f_elems.cpp:872-890 | after any run the register holds the last frames in order |
| `StopWindow.SlidingWindow` | Project/src/f_elems.cpp:872-890 | from a cleared register the flag is set exactly when 8 of the last 19 frames, the current one included, were black |
| `LineFlags.IsLRLose` | ClionDebug/util.cpp:202-252 | the early-exit loops decide whether the share of lost rows reaches the threshold |
| `LineFlags.IsLRNonlose` | ClionDebug/util.cpp:254-299 | the same for rows with the edge |
| `LineFlags.LoseIff` | ClionDebug/util.cpp:202-252 | the test is that the set of rows with the edge, or both, lost is that share of all |
| `LineFlags.NonloseIff` | ClionDebug/util.cpp:254-299 | the same for the rows with the edge, or both, found |
| `LineFlags.LoseExcludesNonlose` | ClionDebug/util.cpp:202-299 | no picture loses the left edge on 90% of rows 90..117 and has it on 80% of rows 80..109 |
| `Boundary.PickBoundary` | ClionDebug/eight_neighbor.cpp:67-198 | with a white border: the start is the first black pixel; whatever is recorded is the trace; a closed one is a contour, its points on the edge of the region; with room for eight codes per black pixel it closes exactly if the start has a black neighbour; exactly when it would turn for ever |
| `Boundary.Follow` | ClionDebug/eight_neighbor.cpp:137-198 | at any moment the arrays hold exactly the steps taken, each found by searching on from two turns back |
| `Boundary.FindStart` | ClionDebug/eight_neighbor.cpp:112-134 | finds a black pixel exactly if there is one, and then the first in row order |
| `Boundary.Search` | ClionDebug/eight_neighbor.cpp:150-198 | stops at the first black neighbour from the given direction on, reads only inside the image, and needs at most eight probes |
| `Boundary.ProbesIff` | ClionDebug/eight_neighbor.cpp:150-198 | eight probes succeed exactly if there is a black neighbour |
| `Boundary.NextValid` | ClionDebug/eight_neighbor.cpp:150-198 | from a step of the trace a next step is always found and has the same white flank |
| `Boundary.NextInjective` | ClionDebug/eight_neighbor.cpp:150-198 | no two steps of a trace have the same successor |
| `Boundary.TraceDistinct` | ClionDebug/eight_neighbor.cpp:148-198 | a trace that has not returned to its start repeats no step |
| `Boundary.TraceBounded` | ClionDebug/eight_neighbor.cpp:148-198 | such a trace has at most eight steps per black pixel |
| `Boundary.TraceReplays` | ClionDebug/eight_neighbor.cpp:148-198 | on return to the start, replaying the codes, all within 0..7, visits exactly the recorded points, all black and on the edge, and comes back |
| `Boundary.ContourCloses` | ClionDebug/eight_neighbor.cpp:110-198 | the direction vectors of a contour sum to zero |
| `Boundary.OnceRoundIff` | ClionDebug/eight_neighbor.cpp:148-198 | the record holds every step that a tracer going on for ever would take exactly if its last step leads to its first step again |
| `Boundary.GoesOnceRound` | ClionDebug/eight_neighbor.cpp:148-198 | it does so whenever the start can be left in one way only, which its four later neighbours show |
| `Boundary.StopsHalfWay` | ClionDebug/eight_neighbor.cpp:170-176 | three pixels on which the tracer closes at once and never visits the third |
| `Boundary.OnePixel` | ClionDebug/eight_neighbor.cpp:148-198 | a single black pixel is a start without a black neighbour |
| `ArbiterCar.Vehicle.FindElementsInPlace` | ClionDebug/f_elems.cpp:1119-1504 | the in-place call computes its specification, keeps the arbiter's invariant, and moves both roundabouts along their phases only |
| `ArbiterCar.Vehicle.LLoopPatch` | ClionDebug/f_loop.cpp:339-523 | moves the left roundabout on exactly when its tests say so, restarts the odometer on entering phases 3 and 7 and on leaving 3, enables every element exactly on leaving, and writes nothing of the right one |
| `ArbiterCar.Vehicle.RLoopPatch` | ClionDebug/f_loop.cpp:525-716 | the same for the right roundabout with its own tests, never across both 2-4 and 4-5 |
| `ArbiterCar.Vehicle.RampPart` | ClionDebug/f_elems.cpp:1134-1196 | the ramp block moves an active ramp along 1,2,3,4,0 with its odometer at most at 50, keeps the invariant, and writes only the ramp's globals and the enables |
| `ArbiterCar.Vehicle.RunFrame` | ClionDebug/f_elems.cpp:1119-1504 | a frame, odometers and sensors first, keeps the invariant, moves an active roundabout exactly when it should, enters the first element seen, and moves the ramp along its phases by the distance driven |
| `ArbiterCar.Vehicle.RunFrames` | ClionDebug/f_elems.cpp:1119-1504 | after any sequence of frames the fields are the run's; at most one element is active and it alone enabled; every roundabout left had been in phase 7 for more than 70 units |
| `Arbiter.FindElementsKeeps` | ClionDebug/f_elems.cpp:1119-1504 | one frame, with any detector results, keeps: at most one element active, exactly its enable on, all on if none |
| `Arbiter.MutualExclusion` | ClionDebug/f_elems.cpp:1119-1504 | so after every run of frames |
| `Arbiter.LoopFrame` | ClionDebug/f_loop.cpp:339-716 | one frame moves each roundabout forward in 1,3,2,4,5,6,7,0, never across both 2-4 and 4-5, and out only from phase 7 after more than 70 units |
| `Arbiter.SincePhase7` | ClionDebug/f_loop.cpp:485-716 | throughout phase 7 the odometer reads the distance since the frame that entered it |
| `Arbiter.LoopExit` | ClionDebug/f_loop.cpp:485-716 | in every run a roundabout ends, but for resets, only in a frame begun in phase 7, more than 70 units after that phase was entered |
| `Arbiter.ExitsAreLate` | ClionDebug/f_loop.cpp:485-716 | so for every exit of a run, on either side |
| `Arbiter.RampFrame` | ClionDebug/f_elems.cpp:1135-1195 | one frame moves an active ramp along 1,2,3,4,0, skipping at most one phase, and keeps a phase only up to 50 units |
| `Arbiter.RampEnters` | ClionDebug/f_elems.cpp:1108-1117 | a frame at most enters a ramp, in phase 1 and with its odometer at zero |
| `Arbiter.RampProgress` | ClionDebug/f_elems.cpp:1135-1195 | a ramp driven at least d per frame is in phase p only so long after its start |
| `Arbiter.RampEnds` | ClionDebug/f_elems.cpp:1135-1195 | from any frame that enters one, driven at least d per frame, a ramp is left within 4 (floor(50 / d) + 1) frames |
| `Arbiter.ForkFrame` | ClionDebug/f_elems.cpp:1380-1466 | exactly when a frame ends a fork |
| `Arbiter.NinthForkNeverEnds` | ClionDebug/f_elems.cpp:1380-1466 | from the ninth fork on it never does, whatever the detectors report |
| `Arbiter.NinthForkReached` | ClionDebug/f_elems.cpp:1380-1466 | a run from the start that is in its ninth fork |
| `Transitions.LeftLoopTurns` | ClionDebug/f_loop.cpp:339-523 | for every phase of a left roundabout, where a frame leaves it, several phases at once included, with odometer and enables |
| `Transitions.RightLoopTurns` | ClionDebug/f_loop.cpp:525-716 | the same for a right roundabout |
| `Transitions.RampTurns` | ClionDebug/f_elems.cpp:1135-1195 | for every phase of the ramp, where a frame leaves it, by pitch or by 50 units |
| `Transitions.StartTurns` | ClionDebug/f_elems.cpp:1198-1262 | for every phase of the start, where a frame leaves it |
| `Transitions.TagTurns` | ClionDebug/f_elems.cpp:1265-1296 | when a tag ends |
| `Transitions.GarageTurns` | ClionDebug/f_elems.cpp:1299-1378 | for every phase of the garage, where a frame leaves it |
| `Transitions.ForkTurns` | ClionDebug/f_elems.cpp:1380-1466 | when the branch of a fork begins and when the fork ends, by its number and direction |
| `Transitions.IdleTurns` | ClionDebug/f_elems.cpp:1119-1504 | with no element active, the first one seen is entered, in the firmware's order, and no other |
| `Transitions.OffTurns` | ClionDebug/f_elems.cpp:1131-1132 | with the elements switched off a frame changes no phase but a finished tag's |
| `Transitions.ResetTurns` | ClionDebug/f_elems.cpp:1121-1126 | a reset frame is that of a car with no element active, no fork counted and no start asked for |
| `ForkSchedule.Forks.FindForks` | Project/src/f_elems.cpp:1592-1669 | the in-place fork section computes its specification and keeps its invariant |
| `ForkSchedule.FrameKeeps` | Project/src/f_elems.cpp:1592-1669 | entered and completed forks differ by one exactly inside a fork, the direction is (completed / 2) mod 2, and no frame both enters and leaves a fork |
| `ForkSchedule.ForkTurns` | Project/src/f_elems.cpp:1592-1669 | exactly when a frame enters a fork, begins its branch, and leaves it, and what it does to number, odometer and direction |
| `ForkSchedule.ResetTurns` | Project/src/f_elems.cpp:1243-1250 | a reset frame is that of a car that has seen no fork |
| `ForkSchedule.RunKeeps` | Project/src/f_elems.cpp:1592-1669 | so after every run |
| `ForkSchedule.BranchOfFork` | Project/src/f_elems.cpp:1089-1101 | the n-th fork is taken left for n = 1, 2 mod 4 and right otherwise |
| `ForkSchedule.FallThrough` | Project/src/f_elems.cpp:1604-1669 | leaving in the right-hand branch may flip the direction, and then the left-hand branch changes nothing |
| `ForkPatch.LForkPatch` | Project/src/f_yroad.cpp:151-183 | draws the midline row by row, half a width right of a left edge found or near and 2 columns further left elsewhere, refusing jumps of more than 15, up to the first row outside the image, and moves the rest of all three lines to column 0 |
| `ForkPatch.RForkPatch` | Project/src/f_yroad.cpp:185-217 | the same to the right, where the rest is moved to column 159 |
| `ForkPatch.LeftPatchDraws` | Project/src/f_yroad.cpp:151-183 | so for the specification, whatever lines, flags and half-width table |
| `ForkPatch.RightPatchDraws` | Project/src/f_yroad.cpp:185-217 | the same to the right |
| `ForkPatch.PatchesMirror` | Project/src/f_yroad.cpp:151-217 | for any half-width table the right patch of the mirrored lines is the mirrored left patch, with the same end row |
| `ForkPatch.LeftPatchSteps` | Project/src/f_yroad.cpp:151-183 | above the end row neighbouring rows differ by at most 15 columns, from it down all three lines are 0, and nothing else changes |
| `ForkPatch.RightPatchSteps` | Project/src/f_yroad.cpp:185-217 | the same to the right, where from the end row down all three lines are 159 |
| `RowDistance.RowToDistance` | Project/src/ctrl_chassis.cpp:49-71 | answers from inside the table exactly for rows above the last knot's, and then with a point of the straight line through the enclosing knots |
| `RowDistance.CarTableMonotone` | Project/src/ctrl_chassis.h:64-83 | the shipped table has increasing rows and decreasing distances |
| `RowDistance.AtKnots` | Project/src/ctrl_chassis.cpp:49-71 | at a knot's row the answer is the knot's distance |
| `RowDistance.DistanceOnLine` | Project/src/ctrl_chassis.cpp:49-71 | the distance divides the two knots' distances as the row divides their rows |
| `RowDistance.BetweenKnots` | Project/src/ctrl_chassis.cpp:49-71 | elsewhere it lies between the distances of the neighbouring knots |
| `RowDistance.StrictlyDecreasing` | Project/src/ctrl_chassis.cpp:49-71 | a row further down is strictly nearer, across segments too |
| `Framing.Receiver.OpenartCallback` | Project/src/ctrl_openart.cpp:66-85 | one byte extends the line, or hands the buffer up to its terminator, exactly that line, to the parser |
| `Framing.Receiver.ReceiveAll` | Project/src/ctrl_openart.cpp:66-85 | any stream of lines that fit is parsed as exactly its lines, in order |
| `Framing.ShortIff` | Project/src/ctrl_openart.cpp:66-85 | byte by byte the lines fit exactly if every line of the split stream does |
| `Framing.LongLine` | Project/src/ctrl_openart.cpp:66-85 | a line fits exactly if it has at most 49 bytes; one of 50 does not |
| `Framing.FeedsSplit` | Project/src/ctrl_openart.cpp:66-85 | feeding byte by byte is splitting at the newlines |
| `Framing.SplitInverse` | Project/src/ctrl_openart.cpp:66-85 | joining the lines and the rest gives the stream back |
| `Framing.SplitOfJoin` | Project/src/ctrl_openart.cpp:66-85 | splitting a joined stream gives the lines and the rest back |
| `OpenArt.Parser.CmdParse` | Project/src/ctrl_openart.cpp:15-64 | a number in recognition mode on a free slot is latched, put first in the list and flagged; otherwise slot, list and flag stay; when number, confidence and acknowledgement are noted |
| `OpenArt.ScanWritten` | Project/src/ctrl_openart.cpp:17 | scanning a written number, negative ones included, gives it back with the text after it |
| `OpenArt.ScanMessage` | Project/src/ctrl_openart.cpp:17 | a message "number,number" is read as its two numbers, one of a single number as that number |
| `OpenArt.ScanPlus` | Project/src/ctrl_openart.cpp:17 | a plus sign changes nothing |
| `OpenArt.ScanSpaces` | Project/src/ctrl_openart.cpp:17 | spaces in front of a number are skipped |
| `OpenArt.NoNumberIff` | Project/src/ctrl_openart.cpp:17 | exactly which texts have no number in front |
| `OpenArt.CStringEnds` | Project/src/ctrl_openart.cpp:17 | the text scanned is the line up to its first zero byte |
| `OpenArt.Parser.PushIntPull` | Project/src/util.cpp:16-23 | the in-place shift puts the new number first and drops the last |
| `OpenArt.AckNeverMatches` | Project/src/ctrl_openart.cpp:55-59 | no received line is ever the acknowledgement |
| `Mailbox.StepKeeps` | Project/src/ctrl_openart.cpp:15-54 | every step of the interrupt or the main loop keeps the mailbox invariant |
| `Mailbox.InitialInv` | Project/src/ctrl_openart.cpp:15-54 | the empty mailbox satisfies the invariant and is not wedged |
| `Mailbox.SlotHeld` | Project/src/ctrl_openart.cpp:35-53 | an interrupt leaves a full slot alone |
| `Mailbox.TasksAreFirstOffers` | Project/src/main.cpp:316-427 | under every interleaving a task is for the first number received since the flag was cleared, and none is acted on twice |
| `Mailbox.AcceptedAre` | Project/src/ctrl_openart.cpp:35-53 | the numbers accepted in a run are those received in recognition mode with the flag clear, unchanged and in order |
| `Mailbox.TaskIsLastAccept` | Project/src/main.cpp:316-427 | in every run a task is for the number of the last such event, and the flag has been set ever since |
| `Mailbox.OneTaskEach` | Project/src/main.cpp:316-427 | between the starts of two tasks another number was accepted |
| `Mailbox.WedgedForever` | Project/src/main.cpp:316-427 | a wedged mailbox accepts nothing and acts on nothing ever after |
| `Mailbox.WedgedIff` | Project/src/main.cpp:316-427 | it is wedged exactly when some event of the run was an accepted number without a task, or one accepted between the two clearing writes |
| `Mailbox.WedgedByNumber` | Project/src/main.cpp:316-427 | from the start, one number outside 0..5 wedges it |
| `Mailbox.WedgedByRace` | Project/src/main.cpp:316-427 | from the start, a number received between the clearing writes for another wedges it |
| `Mailbox.Progress` | Project/src/main.cpp:316-427 | otherwise each access of the main loop brings it closer to clearing the flag |
| `Mailbox.SlotFreed` | Project/src/main.cpp:316-427 | so the slot is free again within nine accesses |

## Modelling decisions

- Floating point is modelled by reals; the one place where rounding rules matter, the 0/0 of the
  threshold search, keeps the rule that a comparison with NaN is false.
- The detectors (`ramp_judge`, `garage_judge`, `fork_road_judge` and so on), odometer increments, gyro
  angles, edge flags and start rows are arbitrary inputs of every frame. Time passes in `World`.
- Nothing in the repository sets the tag state to 2, which its exit waits for. The model lets the
  environment do so (`tagDone`).
- In `Boundary` a start pixel without a black neighbour is the outcome `Isolated` and full arrays are the
  outcome `Full`, where the firmware turns for ever or writes on.
- `Mailbox` takes each access of the main loop as one step, and an interrupt, which the main loop cannot
  interrupt, as one step. History fields record what was accepted and acted on.
- `ForkSchedule` adds a count of completed forks, which the firmware does not store.

## Left out

- Device drivers, display and menus, motor, servo and control-loop classes, timers, beeps and delays: hardware or not in the repository.
- The pixel tests inside the detectors, the cross, curve and S-cross blocks, and the midline writes of the roundabout and garage patches: heuristic constants without a specification of their own.
- `find_toppoint`, which the line scan and the fork patches rely on for their end row: a parameter of `ForkPatch`.
- The recomputation of two enables in the racing firmware when `garage_dir` is 1; mutual exclusion is proved of the debug firmware, the fork schedule of the racing one.
- The fixed-size overloads of the image functions, and the commented-out variants.
- Integer widths other than the histogram's bytes: image columns and line sums stay far from 16 bits.
- The odometers `all`, `allele`, `fork_cnt` and `tag`, which no transition of the arbiter reads.
- The line arrays of a row are one record in an array of `Track`: writes to a single line are not told apart.
- RowDistance.RowToDistance: from the last knot's row on nothing is promised about the distance, because the firmware reads past the table.
- Boundary.PickBoundary: the copy of the contour drawn into a second bitmap and the clearing of the code array are not modelled, nor is the missing end of the function.
- Framing.Receiver.OpenartCallback: a line too long for the buffer is left unfinished, because the write past the buffer has no defined effect.
- OpenArt.Parser.CmdParse: numbers too long for a machine integer, whose scan has no defined result, are read as they are written.
