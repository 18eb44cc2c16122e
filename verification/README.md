# Koko robot workspace: verified models

Dafny models of the parts of the workspace whose correctness is hardest to see, with proofs about every
input, every run or every reachable state.

* **Waypoint follower** (`FollowerProtocol`, `FollowerInvariant`, `FollowerRuns`, `FollowerOutcomes`,
  `FollowerProgress`, `FollowerNode`). Futures are a multiset of pending callbacks that may be delivered
  in any order, clock readings are parameters, and the Nav2 server is a set of live goals. The callbacks
  are functions on the node's state; the class updates its fields in place and is proved equal to them.
  An inductive invariant gives one continuation in every reachable state, what each event comes to from
  the configuration alone, the order of goals, dwell times, termination, why a route ended, and exactly
  when two goals can be alive at once.
* **Waypoint file** (`WaypointFormat`). A file is the value its YAML text denotes; reading validates,
  writing prints a canonical form, and appending reads and rewrites.
* **Collision monitor** (`CollisionTypes`, `CyclicParity`, `RayCrossing`, `ConvexZones`, `Kinematics`,
  `PolygonZone`, `Arbitration`, `ZoneDemands`, `CollisionMonitor`). Point-in-polygon parity over
  arbitrary rings and its exactness on convex ones, the forward simulation of a collision, the choice of
  the most restrictive velocity, and the gate on published zeros.
* **Pose arithmetic** (`YawUnwrapping`, `SpinBehavior`, `WheelCounts`, `Odometry`, `PlanarTransforms`,
  `Boxes`, `SubmapMerging`, `MergeMaps`). Sums of small corrections that must agree with a closed form:
  unwrapped yaw, encoder odometry with quantisation, and submaps moved by rigid corrections.
* **Costmap denoising** (`ObstacleGroups`, `Images`, `Dilation`, `Denoising`, `LabelTrees`, `LabelScan`,
  `ScanSteps`, `ConnectedComponents`, `GroupsRemover`, `LabelCapacity`, `DenoiseLayer`). The fast form
  for single pixels and the general form (one-scan connected components with union-find, histogram,
  deletion) refine one specification: obstacle groups smaller than a size become free.
* `Plane`, `RealArithmetic`, `Sequences`, `Trigonometry` and `Wrappers` are shared.

Conventions. Reals stand for floating point. Cosine and sine are any functions that obey the angle laws
(`Trig.Lawful`), square roots and hypotenuses are real numbers with the right square, pi is any positive
real, and a rotation in the plane is a pair with c^2 + s^2 = 1. Zones are modelled after their shape
update for the current command. An Approach zone is run only when its simulation ends; when it does not
is said by `OtherwiseLoops`. Encoder counters are unbounded integers. Pixel values are integers below
256 and the shape mask is a bitwise and.

What the proofs show about the code as it stands:

* DOCS/WAYPOINTS.md line 19 promises that the old goal's cancellation is awaited before the next goal is
  sent. The code also goes on when the cancel is refused, empty or lost (`SecondGoalExactly`,
  `UnconfirmedCancelRunsTwoGoals`). Lines 119-125 promise `/stop=true` while stopped; the code only ever
  publishes false (`StopTopicNeverTrue`). Line 107 lets the last waypoint wait for Nav2's success; a
  last waypoint with a stop or wait is left early by distance like any other.
* Writing and loading a waypoint list also raises a negative wait to zero (`WriteThenLoadIsIdentity`).
* The spin behaviour's look-ahead stops at the yaw already turned, so that nothing is checked at the
  start of a spin (`Spin.IsCollisionFree`), and the whole window only late in it (`LookAheadIsWhole`).
  Its unqualified `abs` is taken to be the one for reals.
* An encoder jump beyond 100 revolutions is lost for good with its heading, which is then right only
  when the lost lead amounts to whole turns (`LostHeading`, `FarReadingIsLost`); a scale within 1e-9 of
  one is not applied.
* A new submap's marker is drawn at the map's centre while its transform is the identity, and a release
  stores the absolute pose, so that letting it go without moving it shifts the scans unless the centre
  is the origin (`FirstReleaseInPlace`). Filtered points of a scan are never corrected, so that they are
  where the scan stands only after a release at the identity (`FilteredPointsFollowExactly`), and
  bounding boxes come back from a motion and its inverse only when the turn is by right angles or the
  box is a point (`BoxReturnsExactly`, `BoxGrowsThereAndBack`).
* The label table is cut to the number of groups before it is indexed by provisional labels; whenever a
  group has two cells at which a label starts some read lies beyond the cut (`TableReadsFit`,
  `CupIsReadBeyond`). The model reads the entries that are still there.
* With 8 neighbours the labels reserved for a window one cell wide or high do not suffice from 5 cells
  on (6 excepted), and such a window can stay as it is (`LabelsSufficeWay8`).

## Model

| member | source | states |
|---|---|---|
| FollowerInvariant.StartEstablishesInv | src/robotbase_waypoint/robotbase_waypoint/waypoint_follow.py:87-130 | Sending the first goal establishes the invariant: index, serials, holding flags and pending callbacks describe one phase of one route. |
| FollowerInvariant.ResponseKeepsInv | src/robotbase_waypoint/robotbase_waypoint/waypoint_follow.py:132-147 | A goal response, stale or current, error, rejection or acceptance, keeps the invariant. |
| FollowerInvariant.ResultKeepsInv | src/robotbase_waypoint/robotbase_waypoint/waypoint_follow.py:149-167 | A goal result of any status, stale or current, keeps the invariant. |
| FollowerInvariant.CancellationIsLive | src/robotbase_waypoint/robotbase_waypoint/waypoint_follow.py:223-256 | A pending cancel or cancelled-result callback is always the live one of an unfinished route in transition, and the wait and last-waypoint flag it captured are those of the current waypoint. |
| FollowerInvariant.CancelReplyKeepsInv | src/robotbase_waypoint/robotbase_waypoint/waypoint_follow.py:233-248 | A cancel reply, confirmed or not, keeps the invariant. |
| FollowerInvariant.CanceledResultKeepsInv | src/robotbase_waypoint/robotbase_waypoint/waypoint_follow.py:250-261 | The result after a cancellation keeps the invariant. |
| FollowerInvariant.TimerKeepsInv | src/robotbase_waypoint/robotbase_waypoint/waypoint_follow.py:169-214 | A timer tick at any time and any (or no) robot position keeps the invariant. |
| FollowerInvariant.HandleFailureKeepsInv | src/robotbase_waypoint/robotbase_waypoint/waypoint_follow.py:297-319 | A failure of the current goal, fatal or skipped, keeps the invariant. |
| FollowerInvariant.FinishArrivalKeepsInv | src/robotbase_waypoint/robotbase_waypoint/waypoint_follow.py:263-295 | Finishing an arrival, into a dwell, the next goal, the loop or the end, keeps the invariant. |
| FollowerInvariant.TakeStale | src/robotbase_waypoint/robotbase_waypoint/waypoint_follow.py:132-151 | A pending callback that is not the live one can be delivered without effect on the phase: while the route runs it is a result of an earlier serial. |
| FollowerInvariant.StepKeepsInv | src/robotbase_waypoint/robotbase_waypoint/waypoint_follow.py:109-319 | Inductive step: whatever pending callback is delivered or tick happens, in any order, the invariant holds after it. |
| FollowerRuns.StepKeepsWorldInv | src/robotbase_waypoint/robotbase_waypoint/waypoint_follow.py:109-319 | The joint invariant of follower and Nav2 goals survives every possible event: goals alive on the server are tracked or were abandoned. |
| FollowerRuns.InvariantOverRuns | src/robotbase_waypoint/robotbase_waypoint/waypoint_follow.py:109-319 | The joint invariant holds after every run of possible events. |
| FollowerRuns.NeverTwoLiveGoals | src/robotbase_waypoint/robotbase_waypoint/waypoint_follow.py:216-282 | After every run, if no abandoned goal is still alive on the server, at most one goal is alive. |
| FollowerRuns.SecondGoalExactly | src/robotbase_waypoint/robotbase_waypoint/waypoint_follow.py:216-282 | A send puts more than one goal on the server if and only if a goal that was dropped on an error or an unconfirmed cancel is still alive there. |
| FollowerRuns.UnconfirmedCancelRunsTwoGoals | src/robotbase_waypoint/robotbase_waypoint/waypoint_follow.py:233-248 | A concrete run of three steps (acceptance, early switch, empty cancel reply) after which two goals are alive. |
| FollowerRuns.ExactlyOneContinuation | src/robotbase_waypoint/robotbase_waypoint/waypoint_follow.py:109-319 | After every run an unfinished route has exactly one way on: a running dwell, or one pending callback with multiplicity one that is not ignored, whose captured wait and last flag match the current index; no index error happens. |
| FollowerRuns.GoalsFollowTheList | src/robotbase_waypoint/robotbase_waypoint/waypoint_follow.py:109-319 | The k-th goal ever sent is for waypoint start + k, modulo the list length only when looping, whatever the mix of successes, early switches and skipped failures. |
| FollowerRuns.StopTopicNeverTrue | src/robotbase_waypoint/robotbase_waypoint/waypoint_follow.py:94-107 | No run ever publishes true on the stop topic. |
| FollowerRuns.DwellsAreRespected | src/robotbase_waypoint/robotbase_waypoint/waypoint_follow.py:169-277 | Between two goals the earlier waypoint was either arrived at, and the next goal left no earlier than its explicit wait, or else its stop duration, after the arrival, or skipped, and then failures are not fatal. |
| FollowerRuns.DwellIsStill | src/robotbase_waypoint/robotbase_waypoint/waypoint_follow.py:169-186 | While dwelling no tracked goal is alive; before the time is up nothing is sent, and every tick publishes a zero twist. |
| FollowerRuns.HoldingIffWaiting | src/robotbase_waypoint/robotbase_waypoint/waypoint_follow.py:103-107 | After every run the holding flag is set exactly while a dwell is running. |
| FollowerRuns.StopsAreCommanded | src/robotbase_waypoint/robotbase_waypoint/waypoint_follow.py:169-308 | Whenever the route ends or a dwell begins, on any event including the tick that ends a final dwell, and before a cancelled goal is left behind, a zero twist is published in the same step; no event but a tick cancels a goal. |
| FollowerRuns.EarlySwitchExactly | src/robotbase_waypoint/robotbase_waypoint/waypoint_follow.py:169-230 | A tick cancels the running goal if and only if the route is running, a goal is active, the position is known and near enough, and the waypoint is not a last one without pause; it cancels exactly that goal, once, and sends nothing. |
| FollowerRuns.ThresholdIsDistance | src/robotbase_waypoint/robotbase_waypoint/waypoint_follow.py:197-214 | Near enough means that the distance is at most the precise threshold at a pause, and elsewhere at most the waypoint's own positive threshold or else the default one. |
| FollowerOutcomes.OutcomeOfEvent | src/robotbase_waypoint/robotbase_waypoint/waypoint_follow.py:109-319 | In every reachable state, for every event: route, records, commands and goal afterwards, from the configuration's fields and the event alone. A failure skips or ends, an arrival pauses for its wait or stop duration or goes on, a pause ends on the first tick after it, the last waypoint ends or loops. |
| FollowerOutcomes.TickCancelsExactly | src/robotbase_waypoint/robotbase_waypoint/waypoint_follow.py:169-230 | By the real distance d to the waypoint: a tick cancels the active goal if and only if d is at most the precise threshold at a pause, else the waypoint is not the last and d is at most its own positive threshold or the default; it then cancels that goal once. |
| FollowerOutcomes.RecordsAreHistory | src/robotbase_waypoint/robotbase_waypoint/waypoint_follow.py:132-319 | After every run the arrivals and skips recorded are those of the run's events, and the route ended early if and only if failures are fatal and a failure of the current goal was delivered. |
| FollowerOutcomes.FinishedExactly | src/robotbase_waypoint/robotbase_waypoint/waypoint_follow.py:263-319 | After every run a route has finished in its own time if and only if it does not loop, was sent to the end of the list, and the last waypoint is dealt with and its pause over; then all are dealt with. |
| FollowerOutcomes.FailuresDoNotEnd | src/robotbase_waypoint/robotbase_waypoint/waypoint_follow.py:297-319 | When failures are not fatal, a finished route does not loop, sent every waypoint from the start, and arrived at or skipped each one. |
| FollowerProgress.StepProgress | src/robotbase_waypoint/robotbase_waypoint/waypoint_follow.py:132-319 | Without looping every event lowers the measure (remaining waypoints, phase) or changes nothing but pending callbacks and zero twists. |
| FollowerProgress.BoundedRoute | src/robotbase_waypoint/robotbase_waypoint/waypoint_follow.py:132-319 | However long a run is, at most five of its steps per waypoint still to visit do anything. |
| FollowerProgress.NothingAfterFinish | src/robotbase_waypoint/robotbase_waypoint/waypoint_follow.py:284-308 | Once finished, every continuation of the run changes nothing except that pending callbacks drain. |
| FollowerProgress.EventuallyFinishes | src/robotbase_waypoint/robotbase_waypoint/waypoint_follow.py:132-319 | Every infinite run that delivers its pending callbacks and keeps ticking ends a route that does not loop. |
| FollowerNode.WaypointFollower.Start | src/robotbase_waypoint/robotbase_waypoint/waypoint_follow.py:87-92 | Once the server is there, starting sends the first goal and establishes the invariant on the fields; a start that is interrupted does nothing. |
| FollowerNode.WaypointFollower.SendCurrentGoal | src/robotbase_waypoint/robotbase_waypoint/waypoint_follow.py:109-130 | The fields after the call are those of the protocol step of the same name; nothing happens while finished or waiting. |
| FollowerNode.WaypointFollower.ArriveAtWaypoint | src/robotbase_waypoint/robotbase_waypoint/waypoint_follow.py:216-231 | The fields after the call are those of the protocol step: a cancel transition when a goal is active and the arrival is early, otherwise the finished arrival. |
| FollowerNode.WaypointFollower.FinishArrival | src/robotbase_waypoint/robotbase_waypoint/waypoint_follow.py:263-277 | The fields after the call are those of the protocol step: dwell, finish or loop, or advance. |
| FollowerNode.WaypointFollower.HandleFailure | src/robotbase_waypoint/robotbase_waypoint/waypoint_follow.py:297-319 | The fields after the call are those of the protocol step: ignored when stale, fatal, or skipped; OutcomeOfEvent and FailuresDoNotEnd say what that comes to. |
| FollowerNode.WaypointFollower.TimerCallback | src/robotbase_waypoint/robotbase_waypoint/waypoint_follow.py:169-214 | The fields after a tick are those of the protocol step, for every phase and position; OutcomeOfEvent and TickCancelsExactly say what that comes to. |
| FollowerNode.WaypointFollower.CancelFinished | src/robotbase_waypoint/robotbase_waypoint/waypoint_follow.py:233-248 | The fields after a cancel reply are those of the protocol step: wait for the result or go on. |
| FollowerNode.WaypointFollower.Deliver | src/robotbase_waypoint/robotbase_waypoint/waypoint_follow.py:109-319 | Delivering any enabled event takes the fields to the protocol state after that event and keeps the invariant. |
| WaypointFormat.WaypointToDict | src/robotbase_waypoint/robotbase_waypoint/waypoint_io.py:69-78 | Popping the unused optional fields from the full record leaves exactly the printed record. |
| WaypointFormat.WaypointFile.WriteWaypoints | src/robotbase_waypoint/robotbase_waypoint/waypoint_io.py:81-92 | The whole file becomes the version 1.0 document of the list. |
| WaypointFormat.WaypointFile.AppendWaypoint | src/robotbase_waypoint/robotbase_waypoint/waypoint_io.py:95-105 | File and result after an append: an unreadable file is reported and left alone, otherwise the old route is rewritten with one more record. |
| WaypointFormat.PrintedFields | src/robotbase_waypoint/robotbase_waypoint/waypoint_io.py:69-78 | The fields of a printed record: threshold, stop and wait appear exactly when used, and no field but the seven. |
| WaypointFormat.DocumentShape | src/robotbase_waypoint/robotbase_waypoint/waypoint_io.py:81-89 | The file is of version 1.0 and lists one record for each waypoint. |
| WaypointFormat.ReadsWhatItSays | src/robotbase_waypoint/robotbase_waypoint/waypoint_io.py:24-51 | A record of any making is read as w if and only if it is complete, uses no unsupported field, says w (numbers of any scalar kind, a missing number by position, defaults for missing options), and the wait is not negative. |
| WaypointFormat.RejectedFor | src/robotbase_waypoint/robotbase_waypoint/waypoint_io.py:24-51 | Which fault is reported, for any record: exactly one of not a mapping, missing field, unsupported field, no number, negative wait, in that order. |
| WaypointFormat.RecordRoundTrip | src/robotbase_waypoint/robotbase_waypoint/waypoint_io.py:24-78 | A printed record reads back as the waypoint with a negative threshold replaced by -1 and a negative wait by 0, at any position and for any number parsers. |
| WaypointFormat.WriteThenLoad | src/robotbase_waypoint/robotbase_waypoint/waypoint_io.py:54-92 | Writing any list and loading it gives the canonical list, or the empty-list error. |
| WaypointFormat.WriteThenLoadIsIdentity | src/robotbase_waypoint/robotbase_waypoint/waypoint_io.py:54-92 | The trip gives the same list back if and only if it is not empty, no wait is negative and every negative threshold is -1. |
| WaypointFormat.DocumentIsStable | src/robotbase_waypoint/robotbase_waypoint/waypoint_io.py:69-92 | Printing what was read back gives the same document. |
| WaypointFormat.AllRecordsValid | src/robotbase_waypoint/robotbase_waypoint/waypoint_io.py:54-66 | Loading succeeds exactly when every record is valid, and then record k is waypoint k. |
| WaypointFormat.FirstFaultReported | src/robotbase_waypoint/robotbase_waypoint/waypoint_io.py:24-63 | The error reported is that of the first faulty record, with its index. |
| WaypointFormat.LoadsExactly | src/robotbase_waypoint/robotbase_waypoint/waypoint_io.py:54-66 | A file loads as a route if and only if it is there, has a list, the list is not empty and record by record reads as the route; a missing file, a missing list and an empty list each have their own error. |
| WaypointFormat.LoadedRoute | src/robotbase_waypoint/robotbase_waypoint/waypoint_io.py:49-66 | A loaded route is never empty and has no negative wait. |
| WaypointFormat.AppendExtends | src/robotbase_waypoint/robotbase_waypoint/waypoint_io.py:95-105 | One append loads as the canonical old route followed by exactly the new pose, numbered one above the last waypoint or 1. |
| WaypointFormat.AppendAllExtends | src/robotbase_waypoint/robotbase_waypoint/waypoint_io.py:95-105 | Any number of appends keeps the old route and continues its numbering in order. |
| WaypointFormat.RecordingFromScratch | src/robotbase_waypoint/robotbase_waypoint/waypoint_io.py:95-105 | Appends to a missing file load as exactly the recorded poses, field by field, in order, numbered from 1. |
| WaypointFormat.UnreadableFileUntouched | src/robotbase_waypoint/robotbase_waypoint/waypoint_io.py:98-99 | Appending to a file that does not load never changes it. |
| RayCrossing.CrossesEdge | src/navigation2/nav2_collision_monitor/src/polygon.cpp:612-624 | One loop step answers Crosses, which CrossesByOrientation turns into the sign of an area for straddling edges; the division is never by zero. |
| RayCrossing.IsPointInside | src/navigation2/nav2_collision_monitor/src/polygon.cpp:598-628 | The toggling loop computes the parity of crossed edges of the closed ring. |
| RayCrossing.CrossesByOrientation | src/navigation2/nav2_collision_monitor/src/polygon.cpp:615-623 | A straddling edge is crossed exactly when the point lies to its left seen upwards (a sign of an area, without division). |
| CyclicParity.ChordAdditivity | src/navigation2/nav2_collision_monitor/src/polygon.cpp:609-626 | For any symmetric marking of edges, cutting a ring along any chord gives two rings whose parities differ exactly when the whole is odd. |
| CyclicParity.FanDecomposition | src/navigation2/nav2_collision_monitor/src/polygon.cpp:609-626 | The parity of any ring is the exclusive or over the triangles of its fan. |
| CyclicParity.RotationInvariant | src/navigation2/nav2_collision_monitor/src/polygon.cpp:609-626 | Starting the vertex list elsewhere keeps the parity. |
| CyclicParity.ReversalInvariant | src/navigation2/nav2_collision_monitor/src/polygon.cpp:609-626 | Reversing the vertex list keeps the parity. |
| CyclicParity.RingChangesEven | src/navigation2/nav2_collision_monitor/src/polygon.cpp:609-626 | A closed ring changes between two sides an even number of times. |
| RayCrossing.VertexListInvariant | src/navigation2/nav2_collision_monitor/src/polygon.cpp:598-628 | Reversing or rotating the vertex list never changes the answer. |
| RayCrossing.InsideIsAdditive | src/navigation2/nav2_collision_monitor/src/polygon.cpp:598-628 | Cutting the polygon along any chord: inside the whole is inside exactly one piece, for every point. |
| RayCrossing.InsideIsFan | src/navigation2/nav2_collision_monitor/src/polygon.cpp:598-628 | For any ring and point the answer is that of the triangle fan at the first vertex. |
| RayCrossing.StraddlingEdgesAreEven | src/navigation2/nav2_collision_monitor/src/polygon.cpp:615 | An even number of edges of any closed ring passes the half-open straddle test. |
| RayCrossing.OutsideBoundingBox | src/navigation2/nav2_collision_monitor/src/polygon.cpp:598-628 | A point strictly beyond all vertices on any of the four sides is reported outside. |
| RayCrossing.TriangleIsExact | src/navigation2/nav2_collision_monitor/src/polygon.cpp:598-628 | On triangles of either orientation strictly inside points are reported inside and strictly outside points outside. |
| ConvexZones.InsideIsBetween | src/navigation2/nav2_collision_monitor/src/polygon.cpp:598-628 | On a strictly convex ring the answer is yes exactly for points strictly left of the edge that comes up through their height and not right of the one that goes down. |
| ConvexZones.ConvexIsExact | src/navigation2/nav2_collision_monitor/src/polygon.cpp:598-628 | On every strictly convex ring a point strictly left of all edges is reported inside and a point strictly right of some edge outside. |
| PolygonZone.GetPointsInside | src/navigation2/nav2_collision_monitor/src/polygon.cpp:226-235 | The counting loop counts the points reported inside. |
| PolygonZone.CountConcat | src/navigation2/nav2_collision_monitor/src/polygon.cpp:226-252 | Counts add up over concatenated point lists. |
| PolygonZone.GetMappedPointsInside | src/navigation2/nav2_collision_monitor/src/polygon.cpp:237-253 | Summing source by source counts the points of all listed sources together. |
| PolygonZone.GetCollisionTime | src/navigation2/nav2_collision_monitor/src/polygon.cpp:255-299 | Whenever the simulation ends, it returns 0 on a static hit, else k steps for the least k within the horizon whose pose after k + 1 projections has enough points inside, else -1; CollisionTimeOnArc says where those poses are. |
| PolygonZone.CollisionTimeOnArc | src/navigation2/nav2_collision_monitor/src/polygon.cpp:255-299 | The collision time by where the robot really goes: 0 if enough points lie in the zone, else k steps for the least k in time after which one more step along the arc of the command brings enough points into it, seen from that place and heading, else -1. |
| PolygonZone.OtherwiseLoops | src/navigation2/nav2_collision_monitor/src/polygon.cpp:277-295 | The simulation ends unless no step hits and every step lies within the horizon, that is, time does not run forward from a horizon of at least zero; then it never ends. |
| PolygonZone.CollisionTimeIsUnique | src/navigation2/nav2_collision_monitor/src/polygon.cpp:255-299 | At most one time meets that description. |
| PolygonZone.CollisionTimeInHorizon | src/navigation2/nav2_collision_monitor/src/polygon.cpp:283-298 | A reported time is at most zero or within the horizon, and -1 or at least zero when time runs forward. |
| PolygonZone.StandingStillNeverHits | src/navigation2/nav2_collision_monitor/src/polygon.cpp:277-298 | A robot told to stand still collides exactly with what it already touches. |
| Kinematics.TransformPoints | src/navigation2/nav2_collision_monitor/src/kinematics.cpp:22-42 | The in-place loop turns every point of the vector into its coordinates in the frame of the pose. |
| Kinematics.ProjectState | src/navigation2/nav2_collision_monitor/src/kinematics.cpp:44-68 | Pose and velocity after the call are one step of Projected, whose k-fold iteration SimulatedArc, SimulatedClosedForm and SimulatedDisplacement give in closed form. |
| Kinematics.TransformedIsSamePlace | src/navigation2/nav2_collision_monitor/src/kinematics.cpp:28-40 | Rotating and shifting back gives the point again: p = R p' + pose. |
| Kinematics.AheadAndLeft | src/navigation2/nav2_collision_monitor/src/kinematics.cpp:22-42 | A point d ahead of the pose and e to its left has the coordinates (d, e). |
| Kinematics.TransformedKeepsDistance | src/navigation2/nav2_collision_monitor/src/kinematics.cpp:22-42 | All pairwise distances survive the change of frame. |
| Kinematics.SimulatedClosedForm | src/navigation2/nav2_collision_monitor/src/kinematics.cpp:44-68 | After k steps the heading is k times tw dt and the velocity is the initial one turned by that angle. |
| Kinematics.SimulatedDisplacement | src/navigation2/nav2_collision_monitor/src/kinematics.cpp:44-68 | Step k moves the robot by dt (v.x cos a - v.y sin a, v.x sin a + v.y cos a) with a = k tw dt, starting at the origin. |
| Kinematics.SimulatedArc | src/navigation2/nav2_collision_monitor/src/kinematics.cpp:44-68 | After k steps the pose is the end of the arc summed from those strides, with heading k tw dt. |
| Kinematics.SimulatedKeepsSpeed | src/navigation2/nav2_collision_monitor/src/kinematics.cpp:59-67 | Linear and angular speed are the same after every number of steps. |
| Kinematics.SimulatedStride | src/navigation2/nav2_collision_monitor/src/kinematics.cpp:50-67 | Every step covers the same distance. |
| Kinematics.StraightMotion | src/navigation2/nav2_collision_monitor/src/kinematics.cpp:44-68 | Without turning the simulated poses lie on a straight line at equal spacing. |
| Arbitration.ProcessStopSlowdownLimit | src/navigation2/nav2_collision_monitor/src/collision_monitor_node.cpp:524-581 | The action after a Stop, Slowdown or Limit zone, and whether it changed, including a zone without a shape and too few points; ChosenIsLeastDemand and ChosenActionIsAZones say what it comes to. |
| Arbitration.ProcessApproach | src/navigation2/nav2_collision_monitor/src/collision_monitor_node.cpp:583-610 | The action after an Approach zone, and whether it changed, for every horizon: with a zero one the source compares a velocity that is not a number and never acts; ChosenIsLeastDemand says what it comes to. |
| Arbitration.ProcessZones | src/navigation2/nav2_collision_monitor/src/collision_monitor_node.cpp:482-508 | The loop with its skips and its early break equals the fold over all zones. |
| Arbitration.SlowerIsSmallerRatio | src/navigation2/nav2_collision_monitor/include/nav2_collision_monitor/types.hpp:30-41 | Of two scalings of a moving command the slower one has the factor of smaller magnitude. |
| Arbitration.ArbitratedTracks | src/navigation2/nav2_collision_monitor/src/collision_monitor_node.cpp:482-508 | Along the fold the velocity stays a scaling of the command by the factor of least magnitude so far. |
| Arbitration.LimitRatioKeepsLimits | src/navigation2/nav2_collision_monitor/src/collision_monitor_node.cpp:554-568 | A Limit zone's factor is in [0, 1], satisfies the linear and the angular limit, and is below 1 only when one of them is met exactly. |
| Arbitration.ChosenFactor | src/navigation2/nav2_collision_monitor/src/collision_monitor_node.cpp:426-508 | With sane parameters the velocity is k times the command, where k is in [0, 1], at most every fired factor, and either 1 or one of them. |
| Arbitration.StopHolds | src/navigation2/nav2_collision_monitor/src/collision_monitor_node.cpp:535-542 | A Stop zone that fires makes the velocity zero whatever the other zones say. |
| Arbitration.LimitsHold | src/navigation2/nav2_collision_monitor/src/collision_monitor_node.cpp:553-577 | The chosen velocity obeys the linear and angular limits of every Limit zone that fires, all at once. |
| Arbitration.OrderDoesNotMatter | src/navigation2/nav2_collision_monitor/src/collision_monitor_node.cpp:482-508 | Any reordering of the zones chooses the same velocity. |
| Arbitration.AnyConfiguration | src/navigation2/nav2_collision_monitor/src/collision_monitor_node.cpp:482-508 | With arbitrary ratios and limits the factor used still has the least magnitude among 1 and those fired. |
| ZoneDemands.ChosenIsLeastDemand | src/navigation2/nav2_collision_monitor/src/collision_monitor_node.cpp:482-610 | From zone parameters, counts inside and collision times: the velocity is the command scaled by the least of 1, 0 for a Stop zone that holds enough points, the ratio of such a Slowdown zone, either limit over the commanded speed of such a Limit zone, and time over horizon of an Approach zone; disabled zones demand nothing, and the least is attained. |
| ZoneDemands.ChosenActionIsAZones | src/navigation2/nav2_collision_monitor/src/collision_monitor_node.cpp:482-610 | The action chosen is the bare command or has kind, name and a demanded velocity of one zone that is switched on. |
| CollisionMonitor.Monitor.Process | src/navigation2/nav2_collision_monitor/src/collision_monitor_node.cpp:413-522 | One active call stores the arbitrated action, reports a change of zone, passes the velocity through the gate, and leaves it as the last published one; an inactive call does nothing. |
| CollisionMonitor.Monitor.PublishVelocity | src/navigation2/nav2_collision_monitor/src/collision_monitor_node.cpp:213-235 | Output and stop stamp after the call are those of Gated, which LatchKept, StampIsStreakStart and PublishedExactly characterise over all runs. |
| CollisionMonitor.Monitor.Activate | src/navigation2/nav2_collision_monitor/src/collision_monitor_node.cpp:130-131 | Activation lets commands through and keeps the rest of the state. |
| CollisionMonitor.Monitor.Deactivate | src/navigation2/nav2_collision_monitor/src/collision_monitor_node.cpp:139-148 | Deactivation forgets the previous action, so that the next zero command is published again. |
| CollisionMonitor.LatchKept | src/navigation2/nav2_collision_monitor/src/collision_monitor_node.cpp:213-235 | One gated command: a consumer that keeps the last published velocity holds exactly the command. |
| CollisionMonitor.GateIsInvisible | src/navigation2/nav2_collision_monitor/src/collision_monitor_node.cpp:147-235 | After any run of commands and deactivations that ends with a command, the last published velocity is that command's. |
| CollisionMonitor.StampIsStreakStart | src/navigation2/nav2_collision_monitor/src/collision_monitor_node.cpp:216-219 | During a streak of zero commands the stop stamp is the time of its first command. |
| CollisionMonitor.PublishedExactly | src/navigation2/nav2_collision_monitor/src/collision_monitor_node.cpp:213-235 | Exactly the zero commands later than the timeout after the start of their streak are suppressed, and nothing else. |
| CollisionMonitor.NoticesTrackTheZone | src/navigation2/nav2_collision_monitor/src/collision_monitor_node.cpp:510-513 | Over any run of an enabled monitor the last notice names the zone acting now, and no two notices in a row name the same zone. |
| CollisionMonitor.NoticesAddUp | src/navigation2/nav2_collision_monitor/src/collision_monitor_node.cpp:510-513 | The notices of single commands, one after the other, are those of the run. |
| CollisionMonitor.FaultySourceStops | src/navigation2/nav2_collision_monitor/src/collision_monitor_node.cpp:437-448 | A source that is switched on, delivers nothing valid and has a timeout gives the stop action named invalid source, whatever the zones and even with the monitor disabled. |
| CollisionMonitor.ZoneSees | src/navigation2/nav2_collision_monitor/src/collision_monitor_node.cpp:430-441 | A zone sees exactly the points of its sources that are switched on, in order. |
| CollisionMonitor.DecisionScalesCommand | src/navigation2/nav2_collision_monitor/src/collision_monitor_node.cpp:423-508 | The decided velocity is k times the command, k being 0 when a source that is switched on is invalid past its timeout, and otherwise the least of 1 and what the zones demand. |
| YawUnwrapping.DeltaFolds | src/navigation2/nav2_behaviors/plugins/spin.cpp:121-124 | The folded difference is at most half a turn and differs from the plain one by whole turns. |
| YawUnwrapping.DeltaIsTrueRotation | src/navigation2/nav2_behaviors/plugins/spin.cpp:121-126 | One cycle adds the true rotation if and only if that is less than half a turn, or exactly half a turn seen without wrapping. |
| YawUnwrapping.AccumulatedIsTrueRotation | src/navigation2/nav2_behaviors/plugins/spin.cpp:85-127 | With less than half a turn between cycles the accumulated yaw is the true rotation since the start, over any number of turns. |
| YawUnwrapping.AccumulatedUpToTurns | src/navigation2/nav2_behaviors/plugins/spin.cpp:85-127 | However fast the robot turns, the accumulated yaw is right up to whole turns. |
| SpinBehavior.Spin.OnRun | src/navigation2/nav2_behaviors/plugins/spin.cpp:74-97 | Starting records the first sample and the command, or fails and changes nothing without a pose. |
| SpinBehavior.Spin.OnCycleUpdate | src/navigation2/nav2_behaviors/plugins/spin.cpp:99-160 | A cycle times out, fails without a pose, or adds the sample; then it succeeds exactly when the turned amount reaches the command within the tolerance, runs with exactly the clamped square-root speed in the commanded direction when the look-ahead is clear, and fails exactly when it is not. |
| SpinBehavior.SpeedAllowsBraking | src/navigation2/nav2_behaviors/plugins/spin.cpp:138-139 | The speed is the one whose braking distance is exactly the yaw left, cut off at the least and the greatest speed. |
| SpinBehavior.Spin.IsCollisionFree | src/navigation2/nav2_behaviors/plugins/spin.cpp:162-189 | The look-ahead is clear exactly when every simulated heading within the cycles is free whose change is smaller than the yaw already turned. |
| SpinBehavior.LookAheadIsWhole | src/navigation2/nav2_behaviors/plugins/spin.cpp:162-189 | The look-ahead vouches for its whole window, whatever is in the way, if and only if the change simulated for the last cycle is below the yaw already turned. |
| SpinBehavior.CompletionIsRealRotation | src/navigation2/nav2_behaviors/plugins/spin.cpp:132-136 | With less than half a turn per cycle the completion test holds exactly when the real net rotation exceeds the commanded amount less the tolerance. |
| SpinBehavior.LongTurnIsCounted | src/navigation2/nav2_behaviors/plugins/spin.cpp:121-127 | Three wrapped samples a third of a turn apart add up to a whole turn. |
| WheelCounts.RoundIsNearest | src/roboteq_ros2_jazzy_driver/roboteq_model/roboteq_model.py:218-219 | Rounding to counts errs by at most one half. |
| WheelCounts.RoundIsOdd | src/roboteq_ros2_jazzy_driver/roboteq_model/roboteq_model.py:218-219 | Rounding treats both directions of travel alike. |
| WheelCounts.RoundTiesToEven | src/roboteq_ros2_jazzy_driver/roboteq_model/roboteq_model.py:218-219 | Half-way between two integers the even one is taken. |
| WheelCounts.CountsRoundTrip | src/roboteq_ros2_jazzy_driver/roboteq_model/roboteq_model.py:240-263 | Counts to distance and back is exact for every count, for any non-zero counts per revolution. |
| WheelCounts.DistanceRoundTrip | src/roboteq_ros2_jazzy_driver/roboteq_model/roboteq_model.py:240-263 | Distance to counts and back errs by at most the travel of half a count. |
| WheelCounts.DistanceInRevolutions | src/roboteq_ros2_jazzy_driver/roboteq_model/roboteq_model.py:254-263 | Counts are to pulse times gear ratio as the distance is to the circumference; a gear ratio that is not positive counts as 1, and without counts per revolution there is an error. |
| WheelCounts.CountsInRevolutions | src/roboteq_ros2_jazzy_driver/roboteq_model/roboteq_model.py:240-251 | The same from distance to counts, to the nearest count. |
| WheelCounts.OneRevolution | src/roboteq_ros2_jazzy_driver/roboteq_model/roboteq_model.py:240-263 | Pulse times gear ratio counts are one circumference, both ways. |
| WheelCounts.TwistInRevolutions | src/roboteq_ros2_jazzy_driver/roboteq_model/roboteq_model.py:196-230 | The counts of a twist, from the bare parameters: each wheel's travel against the direction of driving, to the nearest count. |
| WheelCounts.QuantizationIsBounded | src/roboteq_ros2_jazzy_driver/roboteq_model/roboteq_model.py:196-230 | Quantised travel errs by at most half a count's travel, quantised turn by at most a count's travel over the track width. |
| Odometry.OdomState.UpdateFromCounts | src/roboteq_ros2_jazzy_driver/roboteq_model/roboteq_model.py:287-337 | The fields after a reading are those of Updated in every case; FarInRevolutions, ReadingInRevolutions and ReadingMovesNothing say from the bare parameters what that is, and a track width of zero raises after the counters are stored. |
| Odometry.FarInRevolutions | src/roboteq_ros2_jazzy_driver/roboteq_model/roboteq_model.py:296-310 | A reading is thrown away if and only if a counter moved by more than 100 times pulse times gear ratio. |
| Odometry.ReadingInRevolutions | src/roboteq_ros2_jazzy_driver/roboteq_model/roboteq_model.py:287-337 | A reading kept, from the bare parameters: the mean of both counts in revolutions of the circumference is travelled backwards along the heading, the lead of the left wheel over the track is turned, both times the scale unless it is within 1e-9 of one. |
| Odometry.ReadingMovesNothing | src/roboteq_ros2_jazzy_driver/roboteq_model/roboteq_model.py:287-337 | The first reading, and every reading without counts per revolution, moves nothing. |
| Odometry.OneRevolutionDriven | src/roboteq_ros2_jazzy_driver/roboteq_model/roboteq_model.py:287-337 | One revolution of both wheels moves one scaled circumference, one of the left wheel alone turns by a scaled circumference over the track. |
| Odometry.OdomState.Move | src/roboteq_ros2_jazzy_driver/roboteq_model/roboteq_model.py:326-337 | The pose after the call is that of Moved, whose heading and position over all runs HeadingOfRun and StraightRun give in closed form; the scale is applied only when it differs from one by more than 1e-9. |
| Odometry.AngularIsTurn | src/roboteq_ros2_jazzy_driver/roboteq_model/roboteq_model.py:301-332 | The heading change of a step depends on the two readings only through the difference of left and right counts. |
| Odometry.HeadingOfRun | src/roboteq_ros2_jazzy_driver/roboteq_model/roboteq_model.py:287-337 | For every run of readings, skipped jumps included, the heading is congruent to the start heading turned by the lead gained over the readings kept. |
| Odometry.LeadTelescopes | src/roboteq_ros2_jazzy_driver/roboteq_model/roboteq_model.py:301-324 | With every jump in range no lead is lost, and the turn counts from the old counters or, on a fresh state, from the first reading. |
| Odometry.HeadingFromEndpoints | src/roboteq_ros2_jazzy_driver/roboteq_model/roboteq_model.py:287-337 | With every jump in range the heading depends only on the last reading and the reading counted from. |
| Odometry.HeadingIsPathIndependent | src/roboteq_ros2_jazzy_driver/roboteq_model/roboteq_model.py:287-337 | Two runs with the same ends agree on the heading, whatever lies between. |
| Odometry.IntermediateReadingsDoNotMatter | src/roboteq_ros2_jazzy_driver/roboteq_model/roboteq_model.py:287-337 | Inserting or dropping a reading in the middle leaves the heading alone. |
| Odometry.LostLead | src/roboteq_ros2_jazzy_driver/roboteq_model/roboteq_model.py:305-310 | For every list of readings the lead gained is last minus base less exactly the sum of the leads of the jumps beyond 100 revolutions. |
| Odometry.LostHeading | src/roboteq_ros2_jazzy_driver/roboteq_model/roboteq_model.py:287-337 | For every run the heading agrees with its end points, up to whole turns, if and only if the lead thrown away amounts to whole turns. |
| Odometry.FarReadingIsLost | src/roboteq_ros2_jazzy_driver/roboteq_model/roboteq_model.py:305-310 | From any state a reading exists after which the heading is wrong, unless a single count already turns the robot by whole turns. |
| Odometry.OdometryMatchesPrediction | src/roboteq_ros2_jazzy_driver/roboteq_model/roboteq_model.py:196-337 | Feeding the predicted counts to the odometry moves it by exactly the predicted travel and turn. |
| Odometry.DriftIsBounded | src/roboteq_ros2_jazzy_driver/roboteq_model/roboteq_model.py:196-337 | Over any list of driven twists the counted turn drifts from the commanded one by at most one count of turn per twist. |
| Odometry.CommandedRunIsMeasured | src/roboteq_ros2_jazzy_driver/roboteq_model/roboteq_model.py:196-337 | The heading reported over a commanded run, up to whole turns, is within that drift of the commanded one. |
| Odometry.StraightRun | src/roboteq_ros2_jazzy_driver/roboteq_model/roboteq_model.py:326-337 | Driving straight, the position after any run depends only on the last reading. |
| PlanarTransforms.CorrectionsTelescope | src/slam_toolbox/src/merge_maps_kinematic.cpp:169-183 | Taking a placement back and applying the next one leaves the next one, for poses. |
| PlanarTransforms.PointsTelescope | src/slam_toolbox/src/merge_maps_kinematic.cpp:186-198 | The same for points. |
| PlanarTransforms.MovedAxes | src/slam_toolbox/src/merge_maps_kinematic.cpp:186-198 | A motion takes the origin to its translation and the axes to the turned ones, and every point accordingly. |
| Boxes.TransformedBoxContains | src/slam_toolbox/src/merge_maps_kinematic.cpp:212-227 | The box around the four moved corners holds every moved point of the old box, for any rotation. |
| Boxes.IdentityKeepsBox | src/slam_toolbox/lib/karto_sdk/include/karto_sdk/Karto.h:2848-2901 | The identity correction leaves a box as it is if and only if its corners are in order and the empty box's start values, a little under 1e18, do not cut it. |
| Boxes.TurnedSize | src/slam_toolbox/src/merge_maps_kinematic.cpp:212-227 | The new width is |c| w + |s| h and the new height |s| w + |c| h, for every ordered box and every turn. |
| Boxes.ThereAndBack | src/slam_toolbox/src/merge_maps_kinematic.cpp:212-227 | A motion and its inverse keep the middle of a box and push its sides out by |c| |s| times its height in x and times its width in y. |
| Boxes.BoxReturnsExactly | src/slam_toolbox/src/merge_maps_kinematic.cpp:212-227 | For every box and rigid motion: the box comes back from the motion and its inverse if and only if it is ordered, the start values cut neither it nor its image, and the turn is by right angles or the box a point. |
| Boxes.EverySideGrows | src/slam_toolbox/src/merge_maps_kinematic.cpp:212-227 | A turn off the axes and the turn back push all four sides of every box with area outwards. |
| Boxes.BoxGrowsThereAndBack | src/slam_toolbox/src/merge_maps_kinematic.cpp:212-227 | A concrete turn and box as a witness of that. |
| MergeMaps.LocalizedRangeScan.GetBarycenterPose | src/slam_toolbox/lib/karto_sdk/include/karto_sdk/Karto.h:5498-5509 | Reading a dirty scan recomputes it and does not change what the getters answer. |
| MergeMaps.LocalizedRangeScan.Transform | src/slam_toolbox/src/merge_maps_kinematic.cpp:201-254 | The scan afterwards: poses, unfiltered points and box corrected, filtered points untouched, not dirty. |
| MergeMaps.TransformAll | src/slam_toolbox/src/merge_maps_kinematic.cpp:272-278 | Every scan of a submap is corrected once. |
| MergeMaps.MergeMapsKinematic.AddSubmap | src/slam_toolbox/src/merge_maps_kinematic.cpp:71-166 | The new submap gets an identity marker and its scans; an unreadable file changes nothing. |
| MergeMaps.MergeMapsKinematic.MergeMap | src/slam_toolbox/src/merge_maps_kinematic.cpp:257-298 | All scans are corrected by what their marker moved since the last merge, the previous markers catch up, and the scans are returned in map order. |
| MergeMaps.MergeMapsKinematic.ProcessInteractiveFeedback | src/slam_toolbox/src/merge_maps_kinematic.cpp:320-383 | A valid release stores the absolute pose; every feedback then merges; the broadcast frame is the pose on a release or a pose update. |
| SubmapMerging.CorrectionReplaces | src/slam_toolbox/src/merge_maps_kinematic.cpp:272-278 | One correction moves a scan from where the previous marker put it to where the next one puts it. |
| SubmapMerging.StepKeepsInv | src/slam_toolbox/src/merge_maps_kinematic.cpp:71-383 | After every callback each scan pose and point is its marker applied to the original, previous and current markers agree, and points the box held originally are still in the box. |
| SubmapMerging.InvariantOverRuns | src/slam_toolbox/src/merge_maps_kinematic.cpp:71-383 | The same after every run of additions, feedback and merges. |
| SubmapMerging.LastReleaseDecides | src/slam_toolbox/src/merge_maps_kinematic.cpp:71-383 | However often a submap was dragged and merged, its scans stand at the last release pose applied to the originals. |
| SubmapMerging.LocationIsLastPlace | src/slam_toolbox/src/merge_maps_kinematic.cpp:71-383 | The stored location of a submap is where it was last let go, or else the centre of its map. |
| SubmapMerging.SubmapsStayRigid | src/slam_toolbox/src/merge_maps_kinematic.cpp:201-254 | Distances between any two points of a submap are always the original ones. |
| SubmapMerging.RestingCallbacksMoveNothing | src/slam_toolbox/src/merge_maps_kinematic.cpp:257-383 | Merges and feedback without a valid release move no scan. |
| SubmapMerging.ReleaseMovesOneSubmap | src/slam_toolbox/src/merge_maps_kinematic.cpp:330-382 | A release moves no other submap. |
| SubmapMerging.FirstReleaseInPlace | src/slam_toolbox/src/merge_maps_kinematic.cpp:140-360 | Letting a new marker go where it was drawn leaves the scan in place if and only if the map centre is the origin. |
| SubmapMerging.FilteredPointsStay | src/slam_toolbox/src/merge_maps_kinematic.cpp:229-239 | Filtered points equal the loaded ones after every run. |
| SubmapMerging.FilteredPointsFollowExactly | src/slam_toolbox/src/merge_maps_kinematic.cpp:201-254 | After every run the filtered points of a scan with two different ones are the last release applied to the originals if and only if that release was the identity. |
| Images.Image.IndexIsInjective | src/navigation2/nav2_costmap_2d/include/nav2_costmap_2d/denoise/image.hpp:127-154 | Different pixels lie at different places of the buffer. |
| Images.Image.SetPixel | src/navigation2/nav2_costmap_2d/include/nav2_costmap_2d/denoise/image.hpp:127-154 | Writing a pixel changes that pixel and no other place of the buffer. |
| Dilation.ProbeRows | src/navigation2/nav2_costmap_2d/include/nav2_costmap_2d/denoise/image_processing.hpp:663-722 | One pass touches each output row with the overlay of its input row, first, inner and last columns and single columns included, and no other row. |
| Dilation.Dilate | src/navigation2/nav2_costmap_2d/include/nav2_costmap_2d/denoise/image_processing.hpp:738-780 | The three passes leave in every pixel the aggregate of the three shape rows. |
| Dilation.DilatedIsNeighbourMax | src/navigation2/nav2_costmap_2d/include/nav2_costmap_2d/denoise/image_processing.hpp:95-104 | That aggregate is the greatest cleaned value of the 4 or 8 neighbours, or 0, for both treatments of unknown cells. |
| Denoising.BackgroundMax | src/navigation2/nav2_costmap_2d/plugins/denoise_layer.cpp:162-187 | The neighbour maximum is background exactly when no neighbour is an obstacle. |
| ObstacleGroups.AloneIffNoNeighbour | src/navigation2/nav2_costmap_2d/plugins/denoise_layer.cpp:159-195 | An obstacle's connected group has fewer than two cells exactly when it has no obstacle neighbour. |
| Denoising.RemoveSinglePixels | src/navigation2/nav2_costmap_2d/plugins/denoise_layer.cpp:159-195 | The window afterwards is the specification for size 2 (obstacle groups of one cell become free, nothing else changes), and no cell outside the window changes. |
| Denoising.NoSmallerGroup | src/navigation2/nav2_costmap_2d/plugins/denoise_layer.cpp:138-140 | Sizes of at most 1 delete nothing. |
| Denoising.ObstacleCosts | src/navigation2/nav2_costmap_2d/plugins/denoise_layer.cpp:197-203 | Obstacles are the cells of cost 253 or 254, and of 255 where unknown cells count. |
| Denoising.DenoisedCosts | src/navigation2/nav2_costmap_2d/plugins/denoise_layer.cpp:122-149 | The new cost is 0 for an obstacle connected to fewer cells than the size, and the old one otherwise. |
| ObstacleGroups.KeptGroupsAreWhole | src/navigation2/nav2_costmap_2d/include/nav2_costmap_2d/denoise/image_processing.hpp:986-1028 | Deleting small groups leaves the other groups whole. |
| ObstacleGroups.DeletingInRounds | src/navigation2/nav2_costmap_2d/include/nav2_costmap_2d/denoise/image_processing.hpp:986-1028 | Deleting groups in two rounds of growing size is deleting once with the larger size. |
| Denoising.DenoisingTwice | src/navigation2/nav2_costmap_2d/plugins/denoise_layer.cpp:131-149 | A second pass changes nothing, for every size and connectivity. |
| LabelTrees.EquivalenceLabelTrees.FindRoot | src/navigation2/nav2_costmap_2d/include/nav2_costmap_2d/denoise/image_processing.hpp:514-519 | The loop finds the root. |
| LabelTrees.EquivalenceLabelTrees.SetRoot | src/navigation2/nav2_costmap_2d/include/nav2_costmap_2d/denoise/image_processing.hpp:522-530 | Every label of the tree gets the new root and every other label keeps its own. |
| LabelTrees.EquivalenceLabelTrees.UnionTrees | src/navigation2/nav2_costmap_2d/include/nav2_costmap_2d/denoise/image_processing.hpp:445-456 | Exactly the two trees are joined, under the smaller root, which is returned. |
| LabelTrees.EquivalenceLabelTrees.MakeLabel | src/navigation2/nav2_costmap_2d/include/nav2_costmap_2d/denoise/image_processing.hpp:428-436 | A new label, or none when the reserve is used up. |
| LabelTrees.ReservedLabels | src/navigation2/nav2_costmap_2d/include/nav2_costmap_2d/denoise/image_processing.hpp:488-511 | Short of the label type's limit one label is reserved for every second or third pixel, and two more. |
| LabelTrees.EquivalenceLabelTrees.GetLabels | src/navigation2/nav2_costmap_2d/include/nav2_costmap_2d/denoise/image_processing.hpp:465-478 | Labels get the same number exactly when they have the same root, the numbers are 1 to one less than the count without gaps, and the field is cut to the count. |
| ScanSteps.Decided8Passes | src/navigation2/nav2_costmap_2d/include/nav2_costmap_2d/denoise/image_processing.hpp:566-602 | The decision tree for 8 neighbours keeps labels sound and complete although it reads at most two neighbours' labels. |
| ScanSteps.Decided4Passes | src/navigation2/nav2_costmap_2d/include/nav2_costmap_2d/denoise/image_processing.hpp:620-644 | So does the one for 4 neighbours. |
| ConnectedComponents.PassWay8 | src/navigation2/nav2_costmap_2d/include/nav2_costmap_2d/denoise/image_processing.hpp:566-602 | The method does what the decision tree says, never reads a label outside the image, and fails only when all four earlier neighbours are free and no label is left. |
| ConnectedComponents.PassWay4 | src/navigation2/nav2_costmap_2d/include/nav2_costmap_2d/denoise/image_processing.hpp:620-644 | The same for the tree for 4 neighbours. |
| LabelScan.RootsAreGroups | src/navigation2/nav2_costmap_2d/include/nav2_costmap_2d/denoise/image_processing.hpp:814-867 | After the scan two obstacle cells have one root exactly when they are connected. |
| ScanSteps.ScanLabelsGroups | src/navigation2/nav2_costmap_2d/include/nav2_costmap_2d/denoise/image_processing.hpp:869-877 | After renumbering, cells have one number exactly when they are connected, 0 is for free cells, and every number is used. |
| ConnectedComponents.Label | src/navigation2/nav2_costmap_2d/include/nav2_costmap_2d/denoise/image_processing.hpp:1036-1058 | The labelled image numbers the connected groups; it fails exactly when at least as many groups start in the scan as labels are reserved. |
| ScanSteps.TableReadsFit | src/navigation2/nav2_costmap_2d/include/nav2_costmap_2d/denoise/image_processing.hpp:476-876 | All reads of the number table stay within its cut size if and only if no two different cells at which labels start are connected. |
| ScanSteps.JoinedWhenConnected | src/navigation2/nav2_costmap_2d/include/nav2_costmap_2d/denoise/image_processing.hpp:814-867 | After the scan no label was ever joined to another if and only if no group has two starts. |
| ScanSteps.CupIsReadBeyond | src/navigation2/nav2_costmap_2d/include/nav2_costmap_2d/denoise/image_processing.hpp:476-876 | A cup of five cells, on which the table is read beyond its end with 4 and with 8 neighbours. |
| GroupsRemover.Histogram | src/navigation2/nav2_costmap_2d/include/nav2_costmap_2d/denoise/image_processing.hpp:188-205 | Every bin is the number of pixels with its label, cut off at the maximum. |
| GroupsRemover.CellsWithLabelAreGroup | src/navigation2/nav2_costmap_2d/include/nav2_costmap_2d/denoise/image_processing.hpp:992-1002 | The cells that share an obstacle's label are its connected group. |
| GroupsRemover.TryRemoveGroups | src/navigation2/nav2_costmap_2d/include/nav2_costmap_2d/denoise/image_processing.hpp:968-1028 | Removal by labels meets the specification for every size, or runs out of labels and changes nothing. |
| GroupsRemover.GroupsRemover.RemoveGroups | src/navigation2/nav2_costmap_2d/include/nav2_costmap_2d/denoise/image_processing.hpp:885-958 | Going over to 32-bit labels: the specification is met unless even those run out, and then nothing changes. |
| LabelCapacity.StartsAreScattered | src/navigation2/nav2_costmap_2d/include/nav2_costmap_2d/denoise/image_processing.hpp:482-511 | Cells at which new labels are made are never adjacent. |
| LabelCapacity.LabelsSufficeWay4 | src/navigation2/nav2_costmap_2d/include/nav2_costmap_2d/denoise/image_processing.hpp:492-508 | With 4 neighbours the reserved labels suffice for every image. |
| LabelCapacity.LabelsSufficeWay8 | src/navigation2/nav2_costmap_2d/include/nav2_costmap_2d/denoise/image_processing.hpp:496-508 | With 8 neighbours they suffice for every image of a size if and only if it is at least two cells wide and high, or a single row or column of 1, 2, 3, 4 or 6 cells. |
| LabelCapacity.RunsOutWhenNarrow | src/navigation2/nav2_costmap_2d/include/nav2_costmap_2d/denoise/image_processing.hpp:496-508 | For every other size an image that runs out of labels. |
| DenoiseLayer.DenoiseLayer.Denoise | src/navigation2/nav2_costmap_2d/plugins/denoise_layer.cpp:131-149 | Fast and slow form meet one specification for the configured size; the only failure is running out of labels above size 2, and it changes nothing. |
| DenoiseLayer.DenoiseLayer.UpdateCosts | src/navigation2/nav2_costmap_2d/plugins/denoise_layer.cpp:101-129 | The window is denoised, or left alone on failure, and no cell outside it ever changes; disabled or empty updates do nothing. |
| DenoiseLayer.WindowCells | src/navigation2/nav2_costmap_2d/plugins/denoise_layer.cpp:114-120 | Window pixels are the costmap cells of the window and no others. |
| DenoiseLayer.DenoisingCannotFail | src/navigation2/nav2_costmap_2d/plugins/denoise_layer.cpp:122-126 | With 4 neighbours, or a window for which the reserve suffices, denoising cannot fail. |

## Left out

- ROS plumbing: publishers, parameters, lifecycle hooks, transforms and action transport appear only as parameters, results and recorded outputs.
- Floating-point rounding, infinity and NaN (but for the one ratio of zero by zero named in `ProcessApproach`), and overflow of counters and indices.
- FollowerNode.WaypointFollower.Start: how long the action server is waited for is not modelled, only what follows.
- The follower's clock: each callback reads it once, so two readings inside one callback are equal.
- WaypointFormat.WaypointFile.WriteWaypoints: YAML text, file paths, directories and the atomic rename; a file is an optional value.
- CollisionMonitor.Monitor.Process: updates of zone shapes and visualisation markers are left out, and every source delivers what a reading says.
- Arbitration.ProcessApproach: an Approach zone whose simulation never ends (a step of at most zero, a horizon of at least zero and no hit); the source then loops without an action to state.
- PolygonZone.GetCollisionTime: the same simulations, which never return.
- SpinBehavior.Spin.IsCollisionFree: the collision checker is any predicate on headings, so that its costmap caching is not modelled.
- The driver's minimum command and clamping, power and rpm values, and parsing of encoder lines: single-branch facts.
- MergeMaps.MergeMapsKinematic.AddSubmap: the path on which building the occupancy grid throws, after which a submap has scans but no marker and its later corrections are undefined.
- MergeMaps.MergeMapsKinematic.MergeMap: building and publishing the merged grid.
- MergeMaps.LocalizedRangeScan.Transform: scans without a range finder, whose recomputation does nothing; what is recomputed otherwise is any function of the corrected pose.
- Marker orientations out of the plane.
- ConnectedComponents.Label: reads beyond the cut table, undefined in the source, find the entries still stored there; and the checked and unchecked windows of the scan are one kind of access that reads 0 outside the image, where proving every label read in range shows that the unchecked ones stay inside.
- LabelTrees.EquivalenceLabelTrees.GetLabels: the stored entries beyond the cut are a second result, because the field no longer has them.
- Denoising.RemoveSinglePixels: the scratch buffer is allocated for each call instead of being kept.
- Particle filters, scan matching, controllers, launch files and the user interface.
