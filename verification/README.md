# Verification of the mapper

The mapper keeps the keyframes of a SLAM run. A front end inserts keyframes; GNSS readings,
images and IMU readings arrive interleaved with them and are attached to the keyframe nearest in
time; a thread optimizes a pose graph of all of it off the lock; another one looks for loop
closures; and everything received is recorded, to be replayed later. This project models that
state machine and the kernels it calls, and proves what the program promises about them over
whole runs.

## How it is organised

| file | what it holds |
|---|---|
| `Basics`, `Motion` | ticks of 100 ns, options; poses as an arbitrary group with the exponential of a constant rate, and a non-commutative instance of it |
| `GyroIntegration`, `LoopOdometryCheck`, `GlobalGraph` | the kernels: the loops, their specifications, and what follows |
| `MapperTypes`, `MapperSpec` | keyframes and state; each critical section as a function from state to state |
| `Mapper` | the mapper object: fields updated in place by methods with loops, each proved to do what `MapperSpec` says |
| `SolveAtomicity`, `GnssAttachment`, `AttachedPictures`, `ImageAttachment`, `ImageWriteOut`, `GravityAttachment`, `GravityTwin`, `GyroAttachment`, `GyroLateReadings`, `LoopSet`, `LoopScans`, `OptimizerFlag`, `Replay`, `EndOfRun` | theorems about all runs of those critical sections, in any interleaving |
| `LoopIdle`, `OptimizerWakeup` | the two handshakes between threads, one atomic load or store at a time |
| `InputLog`, `Recorder`, `MapperReplay`, `EndToEnd` | the log: printed and parsed character by character, the queue and its writer thread, the replay driver, and all of it together |

A run is a list of operations: inputs (`Event`), and the beginning and the end of solves (`Op`) and
of scans (`ScanOp`). Critical sections under the state lock are single steps. The optimizer is any
function that returns one pose per keyframe; the detector any function of a snapshot. What a
theorem needs of either is one of its `requires` clauses.

## Model

| member | source | states |
|---|---|---|
| Motion.GridIsAnInstance | module/src/LoopOdometryCheck.cpp:48-60 | the contract that poses are required to meet (group, one-parameter flow, left-invariant distance) is consistent: integer translations with quarter turns meet it, and neither commute nor stand still |
| Motion.MinusTelescopes | module/src/Mapper.cpp:601-608 | front end increments compose: a to b, then b to c, is a to c |
| GyroIntegration.IntegrateGyro | module/src/GyroIntegration.cpp:38-88 | the loop over readings returns the ordered product of the rates held at each tick of (t0, t1], with its angle and duration, exactly when a reading after t0 exists, the start is covered and no two consecutive cut points are more than `maxGap` apart; otherwise nothing |
| GyroIntegration.RotationOverInterval | module/src/GyroIntegration.cpp:60-74 | over a segment in which one reading holds, the tick by tick rotation is one exponential |
| GyroIntegration.GyroIntegralSplits | module/src/GyroIntegration.cpp:38-88 | if [t0, t2] succeeds and there is a reading after t1, both halves succeed, rotations compose in order, angles and durations add |
| GyroIntegration.VehicleRotationsCompose | module/src/Mapper.cpp:495-500 | over one sequence of readings and with the sensor at one pose, the rotations in the vehicle frame compose too |
| GyroIntegration.ConjugateExactly | module/src/Mapper.cpp:495-500 | the rotation in the vehicle frame is the one r with r * rvs == rvs * measured, rvs being the orientation of the sensor in the vehicle: no other |
| GyroIntegration.BiasRemoved | module/src/GyroIntegration.cpp:38-88 | readings with a constant bias, when it is given, integrate to what the same readings without it do |
| LoopOdometryCheck.CheckLoopAgainstOdometry | module/src/LoopOdometryCheck.cpp:38-66 | a loop that misses the odometry by a motion d, stated in either direction, is accepted if and only if the translation and the rotation of d are each within its limit, a constant plus a part for each metre of the path |
| LoopOdometryCheck.AcceptedExactlyWithin | module/src/LoopOdometryCheck.cpp:44-66 | the same for the specification, with both errors and the distance: those of d, and the sum of the distances between neighbours |
| LoopOdometryCheck.EveryLoopMissesBySome | module/src/LoopOdometryCheck.cpp:53-58 | and there is such a d for every loop |
| LoopOdometryCheck.ReversedEdge | module/src/LoopOdometryCheck.cpp:53-58 | stating the edge the other way round with the inverse pose gives the same result |
| LoopOdometryCheck.RigidMotion | module/src/LoopOdometryCheck.cpp:38-66 | one rigid motion of the whole trajectory changes nothing |
| LoopOdometryCheck.CutOutWindow | module/src/Mapper_LoopClosure.cpp:145-160 | checking on the cut-out window equals checking on the whole trajectory |
| LoopOdometryCheck.DistanceAdds | module/src/LoopOdometryCheck.cpp:48-51 | the distance travelled adds over consecutive spans |
| LoopOdometryCheck.OdometryItselfAccepted | module/src/LoopOdometryCheck.cpp:59-64 | a loop equal to the odometry has no error and is accepted for all non-negative limits |
| GlobalGraph.RechainInPlace | apps/mola-mapper-reoptimize.cpp:81-98 | the loop over the array computes the re-chained guesses |
| GlobalGraph.RechainedAt | apps/mola-mapper-reoptimize.cpp:88-97 | only guesses change, the first one does not, and each other one is placed from the one before it: by the front end increment, or by the saved relative pose where the source frame changes |
| GlobalGraph.RechainedTelescopes | apps/mola-mapper-reoptimize.cpp:82-93 | over any run of keyframes of one source frame, guesses differ as the front end says |
| GlobalGraph.RechainedIdempotent | apps/mola-mapper-reoptimize.cpp:81-98 | re-chaining twice is re-chaining once |
| GlobalGraph.AddOdometryFactors | module/src/GlobalGraph.cpp:80-101 | one edge per consecutive pair, weak exactly where the source frame changes: pose i placed by the increment of the source poses, or of the guesses if weak |
| GlobalGraph.OdometryComposes | module/src/GlobalGraph.cpp:80-101 | the edges of any span of one source frame compose to the motion of the front end over it, none of them weak |
| GlobalGraph.OdometryIgnoresGuesses | module/src/GlobalGraph.cpp:84-93 | over such a span, two graphs with the same source poses have the same edges, whatever the guesses |
| GlobalGraph.ResidualTellsMotion | module/src/GlobalGraph.cpp:84-93 | an edge within a source frame has zero residual if and only if the guesses keep the increment of the front end |
| GlobalGraph.AddLoopFactors | module/src/GlobalGraph.cpp:130-147 | one edge per usable loop, in order |
| GlobalGraph.UsableLoopsAllUsed | module/src/GlobalGraph.cpp:135-138 | no loop between two different existing keyframes is left out |
| GlobalGraph.OnlyUsableLoops | module/src/GlobalGraph.cpp:130-147 | and every loop edge joins two different existing keyframes, and is not weak |
| GlobalGraph.RechainedHasNoResidual | module/src/GlobalGraph.cpp:80-101 | re-chained guesses have zero residual on every odometry edge, weak ones too |
| MapperSpec.NearestIndex | module/include/mola_mapper/Mapper.h:274-277 | the nearest keyframe among all, the earlier one on a tie: what the code finds by looking at two candidates |
| MapperObject.NearestIsCandidate | module/src/Mapper.cpp:314-330 | in a list of increasing times, the nearest of all keyframes is one of the two around the time, and the earlier one on a tie |
| MapperObject.Mapper.AttachNearest | module/src/Mapper.cpp:307-346 | the decision (pending, dropped or which keyframe) is that over all keyframes, and only that keyframe changes: the old observation of the slot leaves `aux`, the new one enters |
| MapperObject.Mapper.AttachGnss | module/src/Mapper.cpp:348-360 | a pending reading is queued, an attached one sets the flag of the optimizer |
| MapperObject.Mapper.RetryPendingGnss | module/src/Mapper.cpp:453-460 | all pending readings tried in order |
| MapperObject.Mapper.AttachOrPendImage | module/src/Mapper.cpp:362-382 | an attached image is listed as unwritten once |
| MapperObject.Mapper.RetryPendingImages | module/src/Mapper.cpp:384-403 | all pending images tried in order, then the old ones dropped: what stays pending is newer than every keyframe, and no such image goes unless one more than the offset and 2 s newer is there |
| MapperObject.Mapper.FinishImages | module/src/Mapper.cpp:405-451 | exactly the unwritten images that nothing can replace any more leave the list, in order |
| MapperObject.Mapper.FinishImage | module/src/Mapper.cpp:422-444 | the slot refers to a file exactly if pictures go to files and this one was in memory, and then one write is queued for it; picture and offset stay, and no image is stored twice |
| MapperObject.Mapper.AddGyroSample | module/src/Mapper.cpp:260-279 | the first sensor heard is the only one; its readings not newer than the last one are refused, and change nothing; of the others and the new one, exactly those in front that are more than 60 s old are dropped, and the pose of the sensor is that of the new one |
| MapperObject.Mapper.AddGravitySample | module/src/Mapper.cpp:281-305 | another sensor changes nothing; else the reading is kept, with the pose of the sensor, the keyframes older than it are resolved, and exactly the readings in front that are older than the window and 5 s are dropped |
| MapperObject.Mapper.ResolvePendingGravity | module/src/Mapper.cpp:294-298 | the keyframes at the head of the queue that are older than the reading get their gravity |
| MapperObject.Mapper.AttachGravity | module/src/Mapper.cpp:506-532 | the sum and number of the readings of the window, if there are enough |
| MapperObject.Mapper.AttachGyroRotation | module/src/Mapper.cpp:485-504 | the rotation r over the integral R since the newest keyframe satisfies r * rvs == rvs * R for the orientation rvs of the sensor; there is one exactly if the gyroscope is used and the readings cover the time, with its duration, angle and bias sigma |
| MapperObject.Mapper.MakeKeyframe | module/src/Mapper.cpp:592-615 | the fields of the request; the pose of the keyframe before it, moved by the increment of the front end within one source frame; the gyroscope rotation with the bias of a source or, without one, none; gravity if known |
| MapperObject.Mapper.PushKeyframe | module/src/Mapper.cpp:610-620 | it is queued for gravity exactly when the IMU is behind and no gravity could be attached |
| MapperObject.Mapper.InsertKeyframe | module/src/Mapper.cpp:568-629 | recorded before it may be refused, unless input is closed; refused, with no keyframe changed, exactly if closed or not newer; else one keyframe with its time, frame and source pose is appended, and all that was pending tried again |
| MapperObject.Mapper.OnNewObservation | module/src/Mapper.cpp:204-258 | which observations are used, by kind, parameters, label, fix and fields: any other changes nothing; those used are recorded, images excepted |
| MapperObject.Mapper.GraphInputLocked | module/src/Mapper.cpp:679-708 | the snapshot of a solve, field by field: every keyframe with its map pose as the guess, source, frame, time, gyroscope rotation and observations but images; the loops |
| MapperObject.Mapper.CommitPoses | module/src/Mapper.cpp:731-744 | the solved poses, then each keyframe inserted meanwhile placed from the one before it: moved by the increment of the front end, or at the same pose where the source frame changes |
| MapperObject.Mapper.CommitSolve | module/src/Mapper.cpp:729-756 | the poses of a result are taken, and its datum and geo-reference each if it has one; nothing else changes |
| MapperObject.Mapper.SolveGlobalGraph | module/src/Mapper.cpp:710-783 | snapshot, optimizer, commit, feedback and announcement, with nobody in between |
| MapperObject.Mapper.SendFeedback | module/src/Mapper.cpp:812-848 | the stamps fed back keep increasing strictly, and none is left newer than the last of them |
| MapperObject.Mapper.CheckAgainstOdometry | module/src/Mapper_LoopClosure.cpp:145-160 | no verdict exactly if the source frame changes between both keyframes; else the check of the whole trajectory |
| MapperObject.Mapper.BeginScanLocked | module/src/Mapper_LoopClosure.cpp:174-213 | the detector is asked exactly if there are two keyframes and the scan is forced or enough are new; a forced scan asks for every pair neither closed nor rejected; if no pair below the last snapshot was missed, then none below this one is once the detector answers; incremental scans stay within the period of full ones |
| MapperObject.Mapper.MergeEdge | module/src/Mapper_LoopClosure.cpp:229-256 | one edge: ignored, rejected or merged, with the counters |
| MapperObject.Mapper.MergeEdges | module/src/Mapper_LoopClosure.cpp:225-269 | the edges merged in order; the counters are what the sets grew by |
| MapperObject.Mapper.RunLoopClosureScan | module/src/Mapper_LoopClosure.cpp:167-271 | a whole scan, with the bookkeeping of the next one |
| MapperObject.Mapper.Finalize | module/src/Mapper.cpp:940-989 | input is closed once; then last solve, passes, last images |
| MapperObject.Mapper.RunLastSolves | module/src/Mapper.cpp:961-973 | a solve, then full scans each followed by a solve, until one finds nothing or the rounds are over |
| SolveAtomicity.StepCommutes | module/src/Mapper.cpp:710-756 | any insertion, observation or merge between the snapshot and the commit of a solve commutes with the commit; an inserted keyframe gets the pose it would have got after the solve |
| SolveAtomicity.RunCommutes | module/src/Mapper.cpp:710-756 | the same for any number of steps |
| SolveAtomicity.SolvesAreAtomic | module/src/Mapper.cpp:710-756 | every concurrent run equals, at every moment, the run in which each solve commits right after its snapshot |
| SolveAtomicity.UncoveredKeyframesChained | module/src/Mapper.cpp:735-744 | in every reachable state, every keyframe that the last committed solve did not cover satisfies its chain link |
| SolveAtomicity.UncoveredKeepIncrements | module/src/Mapper.cpp:601-608 | so any two of them of one front end chain are as far apart in the map as the front end says |
| SolveAtomicity.EchoCommitsNothing | module/src/Mapper.cpp:679-756 | a solve starts from the map: if the optimizer returns the guesses it was given, committing them changes no pose and nothing else |
| SolveAtomicity.EchoSolvesChangeNothing | module/src/Mapper.cpp:679-756 | with such an optimizer, in every reachable state the solves of a run, with input arriving while they work, have left no trace: the state is that of the input alone |
| GnssAttachment.ChooseMeans | module/src/Mapper.cpp:311-340 | the online decision in terms of the offline one: pending exactly when newer than every keyframe; attached only to the keyframe that owns the reading, and when closer than what it has |
| GnssAttachment.OnlineRefinesOffline | module/src/Mapper.cpp:307-360 | in every reachable state of every concurrent run, each keyframe holds the closest of all the readings received whose nearest keyframe of all it is, within the offset, and nothing if there is none; exactly the readings newer than every keyframe are pending, in order |
| GnssAttachment.ArrivalOrderDoesNotMatter | module/src/Mapper.cpp:307-360 | two runs with the same keyframe times and the same set of readings, in whatever order they arrived, end with the same offsets |
| GnssAttachment.NoReadingInTwoPlaces | module/src/Mapper.cpp:307-360 | a reading is pending or attached to one keyframe, never both or twice; and the graph sees exactly the reading in the slot |
| GnssAttachment.ReceivedHaveFix | module/src/Mapper.cpp:210-211 | only readings with a fix, of a sensor in use, are ever received in the sense of these theorems |
| GnssAttachment.NoFixNoEffect | module/src/Mapper.cpp:210-223 | one without a fix changes nothing at all |
| AttachedPictures.NoImageTwice | module/src/Mapper.cpp:54-70 | in every reachable state, the images among the observations of a keyframe are exactly those in its slots, one for each camera, with their time offsets, and none is stored twice |
| AttachedPictures.PicturesReplaced | module/src/Mapper.cpp:56-70 | replacing takes out the old image and no other, and puts in the new one |
| ImageAttachment.OnlyOldImagesGivenUp | module/src/Mapper.cpp:393-402 | what stays pending is the rest of the queue: each image given up is more than the offset and 2 s older than the last one, the first one kept is not |
| ImageAttachment.ImagesFollowed | module/src/Mapper.cpp:362-403 | in every reachable state, each image received was tried when a keyframe had reached it, or waits because none has, or was given up for one more than the margin newer; each keyframe holds, of each camera, the closest of the images tried whose nearest keyframe of all it is, and nothing if there is none |
| ImageAttachment.YoungImageIsPending | module/src/Mapper.cpp:384-403 | in every reachable state, an image received that is newer than every keyframe and within the margin of every pending one is pending |
| ImageAttachment.ReachedImageIsUsed | module/src/Mapper.cpp:307-403 | in every reachable state, if an image belongs to a keyframe and none received is more than the margin newer, that keyframe holds an image of that camera at most as far from it |
| ImageAttachment.HeldImageWasReceived | module/src/Mapper.cpp:307-382 | and whatever a keyframe holds was received, is of the camera of its slot, belongs to it, and has its offset noted |
| ImageAttachment.FinalImagesAreFinished | module/src/Mapper.cpp:409-421 | taking an image leaves no entry of its camera unwritten that is final: the keyframe of each is the newest, or the image is not past what it holds |
| ImageWriteOut.ImagesAccounted | module/src/Mapper.cpp:362-451 | in every reachable state the attached images are those unwritten and those finished, each once, the writes queued are those of finished images, and no closer image can come for a finished one |
| ImageWriteOut.WriteOutIsFinal | module/src/Mapper.cpp:405-451 | if no camera delivers an image older than its last one, an image finished after n operations is never replaced by any later one, even one pending then |
| ImageWriteOut.FinalizeFinishesAll | module/src/Mapper.cpp:976-987 | the last step leaves nothing unwritten: every attached image has been finished exactly once, with one file for each that needed one |
| GravityAttachment.RemembersDropped | module/src/Mapper.cpp:299-304 | what is forgotten is older than the window and the margin |
| GravityAttachment.GravityFollowsHistory | module/src/Mapper.cpp:281-305 | with in-order readings, in every reachable state each keyframe still waits, without gravity, or was settled; unless it was inserted more than 5 s late, it then averages all the readings of its window that had arrived: none of them had been forgotten |
| GravityAttachment.GravityOfKeyframe | module/src/Mapper.cpp:506-532 | no keyframe holds two gravities; one resolved from the queue averages all readings ever received in its window; one settled on arrival does so if and only if no further reading of exactly its time comes |
| GravityAttachment.NoGravityMeansTooFew | module/src/Mapper.cpp:506-532 | a keyframe without gravity still waits, no newer reading having come, or too few readings ever came in its window; but for one inserted more than 5 s late, and readings of exactly its time that came after it |
| GravityAttachment.TallyIsSum | module/src/Mapper.cpp:506-532 | what is averaged: the readings from the window before the time up to it, both ends included, summed component by component, and their number |
| GravityTwin.TwinIsMissed | module/src/Mapper.cpp:610-615 | the exception happens in a run: after a reading, a keyframe of its time and a second reading of that time, the keyframe is settled with one reading in its average, of two in its window |
| GyroAttachment.IntegralOfSuffix | module/src/Mapper.cpp:274-278 | over the readings kept, the integral is that over all of them, once those forgotten are not newer than t0; unless what is kept begins at t1 or later and too far from t0: then it fails, and the whole one would not |
| GyroAttachment.GyroFollowsHistory | module/src/Mapper.cpp:485-504 | in every reachable state, each keyframe has the rotation, in the vehicle frame, over all the readings taken when it was inserted, if the keyframe before it was at most 60 s older than the newest of them and the kept ones reached back |
| GyroAttachment.AttachedIsTurn | module/src/Mapper.cpp:485-504 | in every reachable state, the rotation r of every keyframe but the first, over the integral R of the readings kept when it was inserted, satisfies r * rvs == rvs * R; it has one exactly if the gyroscope is used and those readings cover the time |
| GyroAttachment.KnownBiasHasNoEffect | module/src/Mapper.cpp:462-504 | a bias known to a source is removed; without a source none is, and the configured uncertainty is noted |
| GyroAttachment.RotationOverAll | module/src/Mapper.cpp:485-504 | if a reading at or after its time had been taken by then, that is the rotation over all the readings of the whole run |
| GyroAttachment.RotationStands | module/src/GyroIntegration.cpp:75-85 | and only then: a rotation attached earlier is the one over all readings for every continuation if and only if such a reading had been taken |
| GyroAttachment.AttachedRotationsCompose | module/src/Mapper.cpp:485-504 | if both stand, and sensor pose and bias did not change, the rotations of two consecutive keyframes compose to that over all readings between them; angles and durations add |
| GyroLateReadings.LateReadingsAreMissed | module/src/Mapper.cpp:485-504 | a run in which they do not: a reading that came after the keyframe shows that the last one did not hold |
| LoopSet.MergeIsFilter | module/src/Mapper_LoopClosure.cpp:229-256 | for edges of distinct pairs, which become loops and which are rejected depends on each edge alone |
| LoopSet.LoopsConsistent | module/src/Mapper_LoopClosure.cpp:227-256 | in every reachable state, whatever is reported: the pair set is that of the loops, no pair twice, all between two different existing keyframes, and none off the odometry if that is checked |
| LoopSet.StoredLoops | module/src/Mapper_LoopClosure.cpp:227-256 | in every reachable state, a stored loop whose span stays in one source frame is accepted against the whole trajectory, and the graph has one edge for each stored loop |
| LoopSet.MergesExactly | module/src/Mapper_LoopClosure.cpp:229-256 | an edge that misses the odometry by d becomes a loop if and only if its pair is new and, if checked and of one chain, d is within both limits; beyond either of them its pair is rejected |
| LoopSet.NoLoopIgnored | module/src/Mapper_LoopClosure.cpp:229-236 | an edge from a keyframe to itself, or to one that does not exist, changes nothing |
| LoopSet.StoredLoopsWithinLimits | module/src/Mapper_LoopClosure.cpp:227-256 | so in every reachable state, with the check on, a stored loop within one chain misses the odometry by no more than both limits allow |
| LoopSet.SameVerdict | module/src/Mapper_LoopClosure.cpp:145-160 | the verdict of the odometry on a loop is the same in all later states |
| LoopSet.MergedAndRejectedDisjoint | module/src/Mapper_LoopClosure.cpp:237-252 | a detector that honours exclusions and reports each pair once keeps merged and rejected pairs disjoint |
| LoopSet.SortedUnique | module/src/Mapper_LoopClosure.cpp:220-223 | the sort key is a total order on edges of distinct pairs: there is one way to sort them |
| LoopSet.OrderDoesNotMatter | module/src/Mapper_LoopClosure.cpp:218-256 | for any order of the reported edges and any sort, loops, their order, both pair sets and so all counters are identical |
| LoopSet.OrderMattersForTwins | module/src/Mapper_LoopClosure.cpp:220-223 | with one pair reported twice they are not: the first one wins |
| LoopSet.TwinsCommute | module/src/Mapper_LoopClosure.cpp:226-256 | two edges of one pair can be swapped if and only if they are the same, their pair is ignored, both are rejected, or one is and the pair was rejected before |
| LoopScans.ScansMissNoPair | module/src/Mapper_LoopClosure.cpp:172-213 | after any run of scans, early returns and throwing detectors included, every pair below the size of the last completed scan was offered to a completed scan or is closed or rejected; incremental scans never exceed the full scan period |
| LoopScans.ForcedScanRuns | module/src/Mapper_LoopClosure.cpp:174-203 | a scan asks the detector exactly if there are two keyframes and it is forced or enough are new; a forced one for every pair neither closed nor rejected |
| LoopScans.LoopsNeverRejected | module/src/Mapper_LoopClosure.cpp:197-203 | with a detector that honours exclusions and reports each pair once, no pair is ever both a loop and rejected, over whole runs |
| LoopScans.ScansAreRuns | module/src/Mapper_LoopClosure.cpp:167-271 | a run with scans is one of the concurrent runs of the other theorems |
| LoopIdle.NeverIdleTooEarly | module/src/Mapper_LoopClosure.cpp:131-143 | over all interleavings, when a wait yields true while the thread is running, a forced scan is over whose snapshot was taken after every request made before the wait was called |
| LoopIdle.BecomingIdleIsNotified | module/src/Mapper_LoopClosure.cpp:117-128 | every step that makes the idle predicate true is taken by the thread under the idle mutex, with a notify to follow |
| LoopIdle.IdleIsNotified | module/src/Mapper_LoopClosure.cpp:117-128 | and the notify follows: in any continuation in which the thread takes three more steps, whatever everyone else does, one of them notifies all, and nobody sleeps after it |
| LoopIdle.NoLostWakeup | module/src/Mapper_LoopClosure.cpp:131-143 | nobody sleeps while the mapper is idle, but for a notify on its way |
| LoopIdle.FalseOnlyAfterTimeout | module/src/Mapper_LoopClosure.cpp:131-143 | over all interleavings, a wait yields false only after its time, and only at a step at which, with the idle mutex held, the mapper is not idle |
| OptimizerFlag.StepFlags | module/src/Mapper.cpp:354-356 | every step that adds a keyframe or a loop, or attaches a GNSS reading, raises the flag; every other one leaves flag, keyframes, loops and GNSS slots alone |
| OptimizerFlag.FlagCoversChanges | module/src/Mapper.cpp:625-666 | over runs with exchanges and solves: if some keyframe, loop or attached GNSS reading is not in the last snapshot, the flag is set or the optimizer is between its exchange and its snapshot |
| OptimizerWakeup.NoDataLost | module/src/Mapper.cpp:641-666 | the same one load or store at a time, for producers that store after each change, as StepFlags says they must: the flag is set, or a producer is about to set it, or the optimizer is between its exchange and its snapshot |
| OptimizerWakeup.NoNotifyLost | module/src/Mapper.cpp:633-639 | every producer that stored after the optimizer looked and went to sleep still owes its notify |
| OptimizerWakeup.AsleepWithDataIsWoken | module/src/Mapper.cpp:645-650 | asleep, there is something to do if and only if a notify is on its way or a GNSS reading attached late set the flag |
| OptimizerWakeup.LateReadingDoesNotNotify | module/src/Mapper.cpp:354-356 | which happens: then only the timeout wakes the optimizer |
| InputLog.WriteNumbers | module/src/MapperInputLog.cpp:48-59 | a space and a token for each number, then a line break |
| InputLog.ReadNumbers | module/src/MapperInputLog.cpp:61-75 | the tokens between spaces, or the first bad one |
| InputLog.DecodeText | module/src/MapperInputLog.cpp:140-147 | line by line, with key and rest split at the first space, or the first error |
| InputLog.DecodeFrame | module/src/MapperInputLog.cpp:129-154 | other observations kept in order, reserved comments parsed, and the keys must be exactly the five |
| InputLog.Encode | module/src/MapperInputLog.cpp:158-198 | the self-contained observations, then one comment with the five lines |
| InputLog.DecodeEncoded | module/src/MapperInputLog.cpp:98-198 | given an exact number printer, decoding undoes encoding: stamp, frame (spaces included), pose, covariance, quality, bias and order of observations |
| InputLog.RoundTrip | module/src/MapperInputLog.cpp:98-198 | it does so if and only if the frame has no line break and no observation is a comment with the reserved label |
| InputLog.ExactPrinterExists | module/src/MapperInputLog.cpp:48-59 | the contract of the number printer can be met |
| Recorder.MapperInputRecorder.Record | module/src/MapperInputLog.cpp:210-229 | what is accepted, and what is written, in flight or queued, both grow by exactly this entry, or by nothing once closing or failed |
| Recorder.MapperInputRecorder.TakeNext | module/src/MapperInputLog.cpp:267-276 | the entry taken is the first accepted one that the file lacks; the thread only ends when the file has all of them and no more can come |
| Recorder.MapperInputRecorder.BeginClose | module/src/MapperInputLog.cpp:239-242 | from then on recording an entry changes nothing; what was accepted stays to be written |
| Recorder.MapperInputRecorder.WriteEntry | module/src/MapperInputLog.cpp:277-279 | the file gains the next accepted entry or, exactly if the write fails, nothing; nothing is lost |
| Recorder.MapperInputRecorder.CountEntry | module/src/MapperInputLog.cpp:288-289 | between two entries the counter is the number of complete ones in the file |
| Recorder.MapperInputRecorder.StopAfterError | module/src/MapperInputLog.cpp:279-286 | the file is a proper prefix of what was accepted, the counter counts it, and nothing more is accepted |
| Recorder.NothingLostOrReordered | module/src/MapperInputLog.cpp:210-291 | in every reachable state without failure, accepted entries equal written, then in flight, then queued; after one, the file is a prefix of them |
| Recorder.AfterClose | module/src/MapperInputLog.cpp:237-250 | once closed, the file holds everything accepted, or a prefix after an error, and the counter counts it |
| Recorder.AcceptsAllBeforeClose | module/src/MapperInputLog.cpp:215-221 | unless a write fails, everything handed over before closing is accepted |
| Replay.LogDeterminesIngestion | module/src/Mapper.cpp:239-257 | for every interleaving of keyframes (refused ones too), readings, images, merges and solves, replaying the log alone gives the same keyframes but for poses and images, in the same order of observations, and the same queues and buffers |
| Replay.InsertAgrees | module/src/Mapper.cpp:568-629 | two states that differ in poses, loops and images still do so after the same insertion |
| Replay.ObserveAgrees | module/src/Mapper.cpp:204-258 | and after the same observation |
| MapperReplay.RunDue | module/src/MapperReplay.cpp:82-93 | a scan and then a solve, each exactly when its period of data time is over |
| MapperReplay.ReplayMapperInput | module/src/MapperReplay.cpp:32-103 | refused, with nothing changed, if the mapper has threads of its own or records; else the mapper ends as the log alone determines, whatever the schedule, with exact counts and duration, and scans and solves at least their period apart |
| EndToEnd.RecordedRunReplays | module/src/MapperInputLog.cpp:129-330 | from the live run through printing, queue, file and parsing to the replay: the file is read back as the log of the run up to some moment, whose state the replay reaches but for poses, loops and images; without a failed write that moment is the end |
| EndOfRun.AnnouncementsAreExact | module/src/Mapper.cpp:770-782 | in every reachable state the corrections announced add up to the loops of the last solve that ended, and the stamps fed back strictly increase |
| EndOfRun.PassesStop | module/src/Mapper.cpp:961-973 | the passes stop before their bound only because the detector, asked for every pair neither closed nor rejected, found no loop |
| EndOfRun.EndIsComplete | module/src/Mapper.cpp:940-989 | whatever solves and scans were under way when the input was closed: when the outputs are saved, the last solve knew every keyframe with its source, its gyroscope rotation, its gravity and the GNSS reading of its slot, and every loop; and the corrections announced over the whole run add up to the number of loops |
| EndOfRun.EndFinishesImages | module/src/Mapper.cpp:974-987 | and every attached image has been finished exactly once |

## Left out

- The pose graph optimization itself (noise models, covariances, marginals, geo-reference observability): any function that returns one pose per keyframe.
- The loop closure detector: any function of a snapshot and a query. Aborting a scan on exit is not modelled; a detector may throw.
- Floating point: times are ticks, poses elements of an arbitrary group, and lengths reals. A recorded number is a token of an exact printer.
- A mean acceleration is kept as the sum and the number of its readings.
- GyroIntegration.IntegrateGyro: angular noise is left out; the sigma of a keyframe rotation (module/src/Mapper.cpp:501-503) is a formula of the duration, angle and bias sigma that are modelled.
- Parameters, regular expressions over sensor labels, logging, diagnostics, publishing and ROS: whether a label matches is a function of the configuration.
- Pixels, image files and the threads that write them, the compressed archive and the copying of point clouds: identities, and the list of writes queued. That list keeps the writes already done.
- ImageWriteOut.ImagesAccounted: says nothing about the order in which images of different cameras arrive; the pending images are dropped by age (module/src/Mapper.cpp:393-402), so attached images do depend on arrival.
- ImageAttachment.YoungImageIsPending: with a configured offset below -2 s, which only a mistaken configuration has, the margin is negative and an image may be given up for itself; nothing is claimed then.
- GravityAttachment.GravityFollowsHistory: readings that come out of time order are outside of its `requires`, as the program assumes them in order.
- Gravity that is attached late sets no flag in the program either (module/src/Mapper.cpp:294-298): it is in the next snapshot, whenever that is, so OptimizerWakeup does not list it.
- OptimizerWakeup.NoDataLost: a GNSS producer is allowed to be interrupted between its change and its store, which the state lock of the program forbids; the theorem covers more interleavings than can happen.
- LoopIdle.NeverIdleTooEarly: the wait of the thread for a request may end at any time, as it does after its period; the mutex of that wait is not modelled. A scan that threw counts as over, with that noted in its record.
- SolveAtomicity.SolvesAreAtomic: scan snapshots and pose queries read poses and are not part of the runs compared; a solve that throws commits nothing, and is not one of the operations.
- EndOfRun.EndIsComplete: solves and scans called from outside after the threads have stopped, and steps that throw, are not modelled; nor is a state estimator that cannot be found.
- MapperReplay.ReplayMapperInput: the log is a list of entries; reading a file cut short is not modelled, nor the callback after each keyframe.
- GyroAttachment.GyroFollowsHistory: nothing is claimed of a keyframe whose predecessor is more than 60 s older than the newest reading; the readings it needs may have been dropped (module/src/Mapper.cpp:274-278).
- OptimizerFlag.FlagCoversChanges: the store to the flag is part of the step that makes it necessary; OptimizerWakeup takes them apart.
- EndToEnd.RecordedRunReplays: covariance and quality of a request pass through the text, but the model of the mapper does not use them; the serialization of the other observations is taken to be exact.
- MapperObject.Mapper.InsertKeyframe: a request without a source frame, which the program refuses with an exception before anything changes, is not modelled; the gyroscope bias that the program queries first is a parameter.
- MapperObject.Mapper.FinishImages: an unwritten entry without a picture stays in the list, where the program throws; ImageWriteOut.ImagesAccounted shows that there is none.
- MapperObject.Mapper.AddGravitySample: an index past the keyframes ends the loop over the queue, where the program throws; GravityAttachment.GravityFollowsHistory shows that there is none.
- GlobalGraphIO, covariance Jacobians, command line tools other than the re-chaining loop, and local map queries.

The documentation of the program says that its record holds everything the mapper receives; the code
records what it uses, without images, and so does the model.
