# Verified model of the lap, track and live-telemetry core

A car with a GPS logger is driven round a circuit. This project models, in Dafny 4.11, the code that
turns what it recorded into laps, the code that finds the circuit itself, and the two small protocols
that carry live data, and proves what that code promises about every input and every run.
`dafny verify dfyconfig.toml` verifies all of it.

Three groups of modules, one module for each source file or algorithm:

- **Lap derivation** (`apps/api/src/analysis`). `LapSegmenter` and `LapRun` cut a stream of fixes into
  laps at the start/finish line, and `SessionPoints` says what those are made of; `GateCrossing`,
  `LapDistance`, `Sectors`, `SectorGates`, `DerivedGates` and `BrakingPoints` derive what a lap holds;
  `LapTrace` and `Rebuild` rebuild a lap from stored samples; `Decimation`, `TraceLookup` and `CompareLaps`
  read traces; `OptimalLapCore`, `OptimalLap`, `StitchedTrace` and `StitchedPoints` put the best sectors
  together, and `SessionTrace` follows a whole session from its samples to its optimal lap. `Geo` and
  `Analysis` are what they share, and `SampleMath` what all the modules do.
- **Graphs and arrays.** `Ways`, `UnionFind`, `LargestComponent`, `RingWalk` and `TrackMap` stitch an
  OpenStreetMap circuit (`track-map.builder.ts`); `SpeedProfile` is the in-place ring solver of
  `scripts/lib/circuit.js`; `LineChart` is the chart's clip-and-decimate function.
- **Protocols as step relations.** `BrokerQueue` is the serialised broker command queue
  (`mqtt-admin.service.ts`), `TelemetryBus` the refcounted Redis subscriptions
  (`live-telemetry-bus.service.ts`); both have a class whose methods are proved against the steps.

Conventions. Floating-point numbers are exact reals. `Math.round(x)` is the floor of `x + 0.5`. The
functions taken from the runtime are parameters with the properties used of them: `Math.sqrt` squares
back (`SpeedProfile.IsRoot`), `Math.hypot` is the non-negative root of the sum of squares and a degree of
longitude has a positive length (`Geo.Sound`), and the map's distance is zero from a point to itself and
symmetric (`TrackMap.Distance`). A time held in a `Date` is a whole number of milliseconds; an instant
interpolated between two fixes is a real number. A missing channel (`null` or `undefined`) is `None`.

Where the code and what is written about it differ, the model follows the code:

- `scripts/lib/circuit.js:542-543` says two passes "would very nearly do". Two are exactly enough, and one
  is not: `SpeedProfile.TwoRoundsAreGreatest`, `SpeedProfile.OneRoundIsNotEnough`.
- `apps/api/src/analysis/lap-trace.ts:22-25` promises that a trace opens and closes on the line, and that its
  last elapsed time is the lap's own. Stored bounds are rounded to the millisecond, so each end is on the line
  exactly when the car crossed it on a whole millisecond (`Rebuild.TraceEndsOnLine`), and the last elapsed
  time is the lap's exactly when the two roundings differ by less than half a millisecond, and never more
  than 1 ms off (`Rebuild.TraceLastsTheLap`). `Rebuild.ThirdsDisagree` is a lap that misses both.
- `apps/api/src/analysis/analysis-samples.repository.ts:70-73` says that a lap's bounds always fall strictly
  between two stored samples. Rounded, they can fall on one: a crossing less than half a millisecond from a fix
  of the lap costs the trace a point (`Rebuild.LapIsRebuilt`), as in `Rebuild.GrazingCostsAPoint`.
- `apps/api/src/cars/mqtt-admin.service.ts:344-347` means to leave an in-flight command alone when somebody
  else's answer arrives. Only the command's name is compared: `BrokerQueue.FrameSettlesByName` says exactly
  what a frame does, and in `BrokerQueue.LateAnswerSettlesNext` a late answer settles the next request.
- `apps/api/src/live-telemetry/live-telemetry.gateway.ts:128-133` releases every car a socket has claimed, one
  it has not joined yet included. A leave does no harm when no run after it has a live viewer of a car that is
  not subscribed, or a drained queue that left the wrong cars subscribed. A caller its car's record counts may
  always leave; any other leave is harmless if and only if the car has no record or a failed one
  (`TelemetryBus.UnpairedLeave`, `TelemetryBus.UnjoinedLeave`). In `TelemetryBus.UnjoinedLeaveSilences` one takes
  a live viewer's subscription away.
- `apps/api/src/analysis/lap-trace.ts:193-195` calls the comparison's cursor another traversal of the same
  lookup. On a car standing still at the very end of its trace the two answer differently:
  `CompareLaps.CursorReadsBracket` says exactly when they agree, `SessionTrace.StandingStillDiffers` is the trace
  of three samples on which they do not.
- Reported deltas of two laps compared both ways round are not always each other's negative, because
  `Math.round` sends halves upwards: `CompareLaps.ExchangedLaps` has the condition, `SessionTrace.HalfIsLost`
  the traces of two runs over the same ten metres that fail it.

## Model

| member | source | states |
|---|---|---|
| SpeedProfile.CornerPass | scripts/lib/circuit.js:550-555 | the array holds, squared, the lower of the car's top speed and the lateral-grip limit at every point |
| SpeedProfile.BackwardPass | scripts/lib/circuit.js:562-565 | the in-place braking sweep, seam included, is the ring sweep on squared speeds |
| SpeedProfile.ForwardPass | scripts/lib/circuit.js:567-570 | the in-place traction sweep, seam included, is the ring sweep on squared speeds |
| SpeedProfile.Solve | scripts/lib/circuit.js:545-574 | the car can drive the returned speeds all round the ring: grip holds it at every point, and between neighbours it neither brakes harder nor gains speed faster than it can at their mean speed; nothing it can drive is faster anywhere |
| SpeedProfile.FastestIsDrivable | scripts/lib/circuit.js:534-574 | the fastest profile under the three limits is the fastest the car can drive, in metres per second squared and with 9.80665 m/s² to the g |
| SpeedProfile.DrivableExactly | scripts/lib/circuit.js:550-571 | a profile meets the limits on squared speeds if and only if the car can drive it |
| SpeedProfile.TwoRoundsAreGreatest | scripts/lib/circuit.js:560-571 | two rounds reach the pointwise greatest feasible ring profile, for any limits |
| SpeedProfile.RoundFixesExactlyTheFeasible | scripts/lib/circuit.js:560-571 | a round changes nothing if and only if the profile already meets both ring limits |
| SpeedProfile.ThreeRoundsAreTwo | scripts/lib/circuit.js:542-543 | the third round never changes anything |
| SpeedProfile.OneRoundIsNotEnough | scripts/lib/circuit.js:538-543 | a grip and the curvature of three points on which one round leaves the seam infeasible |
| SpeedProfile.GreatestIsUnique | scripts/lib/circuit.js:536-544 | there is only one greatest feasible profile |
| SpeedProfile.GreatestIsFastest | scripts/lib/circuit.js:560-571 | greatest in squares is fastest in speeds |
| Ways.EndpointIndex | apps/api/src/tracks/track-map/track-map.builder.ts:259-277 | each node's bucket lists, in order, every way end at that node, a closed way twice |
| Ways.InBucket | apps/api/src/tracks/track-map/track-map.builder.ts:259-277 | an id is in a node's bucket if and only if a way with that id ends there |
| UnionFind.Forest.constructor | apps/api/src/tracks/track-map/track-map.builder.ts:212-214 | every way starts as its own representative in a forest |
| UnionFind.Forest.Find | apps/api/src/tracks/track-map/track-map.builder.ts:196-203 | terminates with the representative; path shortening keeps the forest and every representative |
| UnionFind.Forest.Union | apps/api/src/tracks/track-map/track-map.builder.ts:204-210 | merges exactly the two classes and keeps the forest |
| UnionFind.Shorten | apps/api/src/tracks/track-map/track-map.builder.ts:201 | pointing an id at its representative keeps the map an acyclic forest |
| UnionFind.Hang | apps/api/src/tracks/track-map/track-map.builder.ts:207-209 | hanging one representative under another keeps the map an acyclic forest |
| UnionFind.MergeSound | apps/api/src/tracks/track-map/track-map.builder.ts:218-220 | merging two connected ways never puts unconnected ways together |
| UnionFind.JoinBucket | apps/api/src/tracks/track-map/track-map.builder.ts:217-221 | after a bucket all its ways share a representative, and nothing joined before comes apart |
| UnionFind.JoinWays | apps/api/src/tracks/track-map/track-map.builder.ts:212-221 | two ways share a representative if and only if a chain of shared endpoint nodes connects them |
| UnionFind.JoinedIsExact | apps/api/src/tracks/track-map/track-map.builder.ts:188-193 | joined buckets and sound merges make the classes exactly the connected components |
| LargestComponent.PolylineLengthM | apps/api/src/tracks/track-map/track-map.builder.ts:332-343 | the loop adds up every hop of the polyline, and with distances that are not negative never comes out negative |
| LargestComponent.PolylineIsItsHops | apps/api/src/tracks/track-map/track-map.builder.ts:332-343 | a polyline is as long as its hops together: from 0, each point is its hop further than the one before |
| LargestComponent.TotalIsItsWays | apps/api/src/tracks/track-map/track-map.builder.ts:237-241 | ways together are as long as their polylines together |
| LargestComponent.GroupWays | apps/api/src/tracks/track-map/track-map.builder.ts:223-232 | the groups partition the ways into whole components, in the order their first ways come |
| LargestComponent.LongestGroup | apps/api/src/tracks/track-map/track-map.builder.ts:234-245 | the first of the groups of greatest total length |
| LargestComponent.LargestConnectedComponent | apps/api/src/tracks/track-map/track-map.builder.ts:194-248 | exactly one whole connected component, of greatest length, the earliest on a tie |
| LargestComponent.ChosenIsLargest | apps/api/src/tracks/track-map/track-map.builder.ts:234-247 | the longest group is the longest component of the venue |
| RingWalk.WalkWays | apps/api/src/tracks/track-map/track-map.builder.ts:289-330 | the loop terminates and is the greedy walk, each join's point once |
| RingWalk.WalkIsGreedy | apps/api/src/tracks/track-map/track-map.builder.ts:299-327 | the walk starts along the first way and always goes on by the first unused way in the list that ends where it is, reversed when it does not start there |
| RingWalk.WalkIsTrail | apps/api/src/tracks/track-map/track-map.builder.ts:307-327 | on any ways, branched or not, the walk follows shared nodes, uses no way twice and stops only where no way is left |
| RingWalk.WalkParity | apps/api/src/tracks/track-map/track-map.builder.ts:307-327 | among used ways every node but the two ends of the walk has an even number of ends |
| RingWalk.EvenWalkCloses | apps/api/src/tracks/track-map/track-map.builder.ts:282-287 | with even degrees everywhere the walk ends where it started |
| RingWalk.FullClosedWalkIsEven | apps/api/src/tracks/track-map/track-map.builder.ts:282-287 | a closed walk over every way shows every degree to be even |
| RingWalk.RingIsWalkedWhole | apps/api/src/tracks/track-map/track-map.builder.ts:282-287 | on a ring the walk uses every way exactly once and closes |
| TrackMap.RingStitch | apps/api/src/tracks/track-map/track-map.builder.ts:319-326 | a ring's polyline closes, has every point with each join once, and is exactly as long as the ways |
| TrackMap.StitchEnds | apps/api/src/tracks/track-map/track-map.builder.ts:319-326 | a trail's polyline runs from its first node to its last |
| TrackMap.StitchM | apps/api/src/tracks/track-map/track-map.builder.ts:319-323 | stitching a trail conserves length, reversed ways included |
| TrackMap.StitchCount | apps/api/src/tracks/track-map/track-map.builder.ts:321-323 | the points are all ways' points less one for each join |
| TrackMap.MinDistanceToPolyline | apps/api/src/tracks/track-map/track-map.builder.ts:345-354 | the loop is the least distance over the segments |
| TrackMap.NearestIsLeast | apps/api/src/tracks/track-map/track-map.builder.ts:345-354 | that distance is attained by a segment and no segment is nearer |
| TrackMap.BuildTrackMap | apps/api/src/tracks/track-map/track-map.builder.ts:95-156 | the answer is that of the first check the stitched polyline fails: fewer than three points, ends more than 25 m apart, a length outside 500 to 25000 m, or a gate more than 50 m away, with the figure rounded to the nearest metre; built only if it fails none |
| TrackMap.JudgedByFirstFailure | apps/api/src/tracks/track-map/track-map.builder.ts:103-149 | every polyline, branched or not, is judged by the first of those checks it fails |
| TrackMap.OneAnswer | apps/api/src/tracks/track-map/track-map.builder.ts:103-149 | only one answer fits a polyline |
| TrackMap.JudgePolyline | apps/api/src/tracks/track-map/track-map.builder.ts:103-149 | the checks run in the source's order |
| TrackMap.RingVenue | apps/api/src/tracks/track-map/track-map.builder.ts:91-156 | a venue whose largest component is a ring is never rejected as not closed, and is built, at the ring's full length, exactly when it has three points and passes the length and gate checks |
| TrackMap.BranchLeavesWaysBehind | apps/api/src/tracks/track-map/track-map.builder.ts:284-287 | a branched component with even degrees on which the walk closes early and leaves ways unused |
| BrokerQueue.StepInv | apps/api/src/cars/mqtt-admin.service.ts:244-368 | every event keeps: settled requests are a prefix, at most one is running, the in-flight record is its own and the one armed timer too |
| BrokerQueue.RequestsAreSubmissions | apps/api/src/cars/mqtt-admin.service.ts:248-255 | over every run the requests are what was submitted, in that order |
| BrokerQueue.StepEnds | apps/api/src/cars/mqtt-admin.service.ts:274-368 | a request ends exactly by a run without a broker, its own timer, its own failed publish, or a frame that names it while it is in flight, with exactly that event's outcome |
| BrokerQueue.EveryOutcomeIsEarned | apps/api/src/cars/mqtt-admin.service.ts:274-368 | over every run an outcome is that of the one event that brought it: a request is resolved if and only if a frame without an error named it |
| BrokerQueue.RunSendsOrRefuses | apps/api/src/cars/mqtt-admin.service.ts:277-325 | without a broker a request is refused as unavailable and nothing else changes; with one it is the one command in flight, under a fresh token, with its own timer and publish |
| BrokerQueue.SettledForGood | apps/api/src/cars/mqtt-admin.service.ts:248-255 | over every run each request settles once, for good, in submission order |
| BrokerQueue.NeverOverwritten | apps/api/src/cars/mqtt-admin.service.ts:294-300 | over every run a command is sent only when none is in flight, and what is in flight leaves only by settling |
| BrokerQueue.CallbackIsItsOwn | apps/api/src/cars/mqtt-admin.service.ts:306-323 | a publish callback that reports an error settles its own request if that has not settled, and in every other case changes nothing but itself |
| BrokerQueue.StaleCallbackIsInert | apps/api/src/cars/mqtt-admin.service.ts:357-368 | over every run, once a request has settled its publish callback changes neither the requests nor the command in flight nor the timers, and no timer of it fires |
| BrokerQueue.TimerInv | apps/api/src/cars/mqtt-admin.service.ts:286-292 | an armed timer is always the in-flight command's own |
| BrokerQueue.FrameSettlesByName | apps/api/src/cars/mqtt-admin.service.ts:327-354 | a frame settles the in-flight command if and only if it names it: an error that is not empty rejects it, anything else resolves it |
| BrokerQueue.LateAnswerSettlesNext | apps/api/src/cars/mqtt-admin.service.ts:344-353 | a run in which the late answer to a timed-out request resolves the next one of the same name |
| BrokerQueue.SomethingCanMove | apps/api/src/cars/mqtt-admin.service.ts:286-313 | while a request is unsettled a move is enabled without the broker, and it brings the end nearer |
| BrokerQueue.EverythingSettles | apps/api/src/cars/mqtt-admin.service.ts:308-313 | from every reachable state all requests settle within two moves each, even if the broker never answers |
| BrokerQueue.MqttAdminService.Submit | apps/api/src/cars/mqtt-admin.service.ts:248-255 | chaining a request is the submission step |
| BrokerQueue.MqttAdminService.RunRequest | apps/api/src/cars/mqtt-admin.service.ts:274-325 | `sendNow` is the run step: refused when disconnected, else a fresh token, timer, record and publish |
| BrokerQueue.MqttAdminService.OnTimer | apps/api/src/cars/mqtt-admin.service.ts:286-292 | a timeout is the timer step |
| BrokerQueue.MqttAdminService.OnPublished | apps/api/src/cars/mqtt-admin.service.ts:306-323 | a publish callback is the publish step |
| BrokerQueue.MqttAdminService.OnFrame | apps/api/src/cars/mqtt-admin.service.ts:327-354 | `onResponse` is the frame step |
| BrokerQueue.MqttAdminService.SettleToken | apps/api/src/cars/mqtt-admin.service.ts:360-368 | `settle` completes a command only if its token is still in flight |
| TelemetryBus.StepInv | apps/api/src/live-telemetry/live-telemetry-bus.service.ts:86-153 | every join, resume, Redis answer and leave of a caller its record counts, waiting callers included, keeps the counts, waiters, pending subscribes and Redis in agreement |
| TelemetryBus.JoinIsCounted | apps/api/src/live-telemetry/live-telemetry-bus.service.ts:86-99 | who joins a mapped car shares its record; anybody else has a new one made and sends a SUBSCRIBE for it |
| TelemetryBus.ResumeSettles | apps/api/src/live-telemetry/live-telemetry-bus.service.ts:101-116 | a caller that waits is live or refused as the subscribe went, one that has left is gone, and a failed record is out of the map with the first caller told; nothing else changes |
| TelemetryBus.LeaveIsCounted | apps/api/src/live-telemetry/live-telemetry-bus.service.ts:119-153 | who leaves gives up one place on its record, and the last one takes the record out of the map and sends an UNSUBSCRIBE |
| TelemetryBus.AnswerSettles | apps/api/src/live-telemetry/live-telemetry-bus.service.ts:86-136 | an answer settles the promise of its own record and no other, and Redis has a car's channels from a granted SUBSCRIBE until a granted UNSUBSCRIBE |
| TelemetryBus.LiveMeansSubscribed | apps/api/src/live-telemetry/live-telemetry-bus.service.ts:101-115 | at every moment of every run, whatever fails, a live viewer's car is subscribed at Redis and its record counts its live and waiting viewers |
| TelemetryBus.DrainedIsExact | apps/api/src/live-telemetry/live-telemetry-bus.service.ts:32-33 | once all commands are answered the subscribed cars are exactly those with a viewer, for every car no command of which failed |
| TelemetryBus.WaiterIsServed | apps/api/src/live-telemetry/live-telemetry-bus.service.ts:101-104 | a waiting viewer's subscribe has settled or is on its way |
| TelemetryBus.FailureReachesEveryWaiter | apps/api/src/live-telemetry/live-telemetry-bus.service.ts:105-114 | over every run, nobody awaiting a failed subscribe is ever live, each one still waiting is refused when it is resumed, and the record is out of the map then |
| TelemetryBus.FailureIsFinal | apps/api/src/live-telemetry/live-telemetry-bus.service.ts:105-114 | over every run, once one of them has been told it is refused for good and the record is out of the map for good |
| TelemetryBus.FailureIsRetried | apps/api/src/live-telemetry/live-telemetry-bus.service.ts:105-114 | whoever joins next has a record of its own with a SUBSCRIBE on its way, unless somebody already made a newer one |
| TelemetryBus.OldFailureSparesNewer | apps/api/src/live-telemetry/live-telemetry-bus.service.ts:109-113 | an older failure never deletes a newer record |
| TelemetryBus.UnpairedLeave | apps/api/src/live-telemetry/live-telemetry-bus.service.ts:118-153 | for a caller in any phase, waiting, live, refused or already gone: its leave is harmless on every run that follows if and only if its car's record counts it, or there is no record or a failed one |
| TelemetryBus.UnjoinedLeave | apps/api/src/live-telemetry/live-telemetry.gateway.ts:123-134 | a leave with no join is harmless on every run that follows if and only if the car has no record or a failed one; otherwise a run leads to a live viewer of a car that is not subscribed |
| TelemetryBus.UnjoinedLeaveSilences | apps/api/src/live-telemetry/live-telemetry.gateway.ts:123-134 | a run after which a leave with no join leaves a live viewer on a car nobody is subscribed to |
| TelemetryBus.LiveTelemetryBus.AddViewer | apps/api/src/live-telemetry/live-telemetry-bus.service.ts:86-99 | `addViewer` up to its await is the join step |
| TelemetryBus.LiveTelemetryBus.ResumeViewer | apps/api/src/live-telemetry/live-telemetry-bus.service.ts:101-116 | `addViewer` after its await is the resume step |
| TelemetryBus.LiveTelemetryBus.Release | apps/api/src/live-telemetry/live-telemetry-bus.service.ts:139-153 | true exactly for the last viewer, whose record is removed; else the count drops by one |
| TelemetryBus.LiveTelemetryBus.RemoveViewer | apps/api/src/live-telemetry/live-telemetry-bus.service.ts:119-136 | `removeViewer` is the leave step |
| GateCrossing.CrossingIsMeeting | apps/api/src/analysis/gate-crossing.ts:125-194 | a crossing is found if and only if the hop is bridgeable, not parallel to the gate, in the required direction and meets the gate; the point given is that meeting point |
| GateCrossing.OnGateOnce | apps/api/src/analysis/gate-crossing.ts:152-194 | a hop that crosses the gate is on it at the crossing and nowhere else |
| GateCrossing.CrossedOnTheGround | apps/api/src/analysis/gate-crossing.ts:125-194 | a crossing is found if and only if the hop was driven in at most half a second at more than 3 km/h or at no known speed, is not parallel to the gate, passes it from the required side and has a place in common with it |
| GateCrossing.CrossingIsThere | apps/api/src/analysis/gate-crossing.ts:152-194 | it is that place, at that share of the hop's way and time, with the side it was passed from |
| Geo.DistanceIsPythagorean | apps/api/src/analysis/geo.ts:49-57 | a distance is the root of the squares of the metres east and north, 111132 to a degree of latitude |
| LapDistance.ToLapPoints | apps/api/src/analysis/lap-distance.ts:64-90 | the located samples on one distance axis |
| LapDistance.LocatedAre | apps/api/src/analysis/lap-distance.ts:67-70 | exactly the samples with a position, in their order |
| LapDistance.AxisIsMeasured | apps/api/src/analysis/lap-distance.ts:64-90 | each point is one step further than the one before, with all else as it was |
| LapDistance.StepIs | apps/api/src/analysis/lap-distance.ts:34-48 | a step is the mean speed over the time, or the straight distance where a speed is missing or no time passes |
| LapDistance.StepIsNonNegative | apps/api/src/analysis/lap-distance.ts:34-48 | with non-negative speeds a step never goes back |
| LapDistance.AnchorKeepsDistance | apps/api/src/analysis/lap-distance.ts:34-48 | a point put in on the way, its speed interpolated like its time, leaves the distance as it was: the two steps add up to the one |
| LapDistance.AxisAscends | apps/api/src/analysis/lap-distance.ts:64-90 | the axis starts at 0 and never decreases |
| Sectors.TimeAtDistance | apps/api/src/analysis/sectors.ts:184-199 | the scan is the time at which the lap first reaches a distance |
| Sectors.TimeAtMonotone | apps/api/src/analysis/sectors.ts:184-199 | further along a monotone lap is never earlier |
| Sectors.SplitsAreFaithful | apps/api/src/analysis/sectors.ts:29-58 | rounded splits between ascending boundaries are not negative and sum to the rounded whole within floor((N+1)/2) ms |
| Sectors.ComputeSectorTimes | apps/api/src/analysis/sectors.ts:29-58 | the loop's boundaries are the lap's own at every equal fraction of distance |
| Sectors.SectorsAreEqualParts | apps/api/src/analysis/sectors.ts:29-58 | the sectors run from the lap's start to its end, change where each equal part of its distance is first reached, and are timed to the nearest millisecond |
| Sectors.UnsplitExactly | apps/api/src/analysis/sectors.ts:29-58 | there are no splits if and only if there is no sector, hop, distance or time |
| Sectors.SectorTimesAddUp | apps/api/src/analysis/sectors.ts:29-58 | N non-negative splits whose sum is within floor((N+1)/2) ms of the lap time |
| Sectors.CountCrossings | apps/api/src/analysis/sectors.ts:88-139 | the count loop finds a crossing exactly when one hop and no other crosses the gate |
| Sectors.HopCrossedOnTheGround | apps/api/src/analysis/sectors.ts:95-113 | a hop of the lap crosses a gate if and only if it does on the ground, and the crossing is at that share of its time and distance |
| Sectors.CrossGates | apps/api/src/analysis/sectors.ts:88-139 | the split set of a lap, or none |
| Sectors.SplitsExactly | apps/api/src/analysis/sectors.ts:88-139 | there is a split set if and only if every gate is crossed by exactly one hop and the crossings come in gate order strictly inside the lap |
| Sectors.InOrderIs | apps/api/src/analysis/sectors.ts:118-135 | crossings are in order if and only if each step, from the lap's start through the crossings to its end, goes forward in time |
| Sectors.ComputeSectorTimesFromGates | apps/api/src/analysis/sectors.ts:157-173 | the splits between those crossings |
| Sectors.GateSplitsAre | apps/api/src/analysis/sectors.ts:157-173 | the splits run from the lap's start through each gate's one crossing, strictly later every time, to its end, each to the nearest millisecond |
| Sectors.GateTimesAddUp | apps/api/src/analysis/sectors.ts:157-173 | one non-negative split more than there are gates, summing to the lap time within floor((N+1)/2) ms |
| SectorGates.PointAtDistance | apps/api/src/analysis/sector-gates.ts:327-354 | the place on a path at a distance, wrapped into the lap |
| SectorGates.PlaceIsWrapped | apps/api/src/analysis/sector-gates.ts:327-354 | on any path the place is on the first hop that gets to the distance, brought into the lap by whole laps or 0 without one, as far along it; past the last hop it is the end |
| SectorGates.OwnGateIsSquare | apps/api/src/analysis/sector-gates.ts:356-383 | a gate is at a right angle to the hop it is built on and spans the half width to each side |
| SectorGates.OwnHopCrossing | apps/api/src/analysis/sector-gates.ts:363-383 | a perpendicular gate is crossed by the hop it was built on exactly when that hop is bridgeable and clears the parallel guard, then at the very place it was built and at the gate's midpoint |
| SectorGates.OwnGateIsCrossedOnTarget | apps/api/src/analysis/sector-gates.ts:309-354 | a lap's own gate is crossed at exactly k/N of the lap |
| SectorGates.BuildInteriorGates | apps/api/src/analysis/sector-gates.ts:309-324 | the loop builds the gate at every interior fraction |
| SectorGates.IsValidCandidate | apps/api/src/analysis/sector-gates.ts:404-422 | true exactly when the lap has a split set with every crossing inside its band |
| SectorGates.DeriveFromLap | apps/api/src/analysis/sector-gates.ts:273-294 | the candidate gates when the lap has length and they are valid, else none |
| DerivedGates.GatesLieAcross | apps/api/src/analysis/sector-gates.ts:273-387 | gate k of N lies across the first hop that gets to k/N of the lap, centred there and at a right angle to it, its first end to the left, and is as wide as the start gate unless the hop goes nowhere |
| SectorGates.CandidateIsSplit | apps/api/src/analysis/sector-gates.ts:273-294 | any lap's own candidate is accepted if and only if every gate is crossed by one hop and no other, in gate order inside the lap, on its target by its own hop if that can be crossed and else by another hop within 0.4 of a sector of it |
| SectorGates.CandidateIsValidExactly | apps/api/src/analysis/sector-gates.ts:273-294 | where every own hop can be crossed, the candidate is accepted if and only if no gate is crossed a second time and the last is crossed before the lap's last instant |
| SectorGates.OnlySecondCrossingRejects | apps/api/src/analysis/sector-gates.ts:273-294 | on a lap whose times rise, where every own hop can be crossed, the candidate is accepted if and only if no gate is crossed a second time |
| SectorGates.TiedLapIsRejected | apps/api/src/analysis/sectors.ts:88-139 | a lap that ends on one millisecond three times over, whose candidate is rejected with its gate crossed once |
| SectorGates.OwnCrossingsInBand | apps/api/src/analysis/sector-gates.ts:414-421 | a lap's crossings of its own gates are exactly on their multiples of the step |
| SectorGates.OwnCrossingsInOrder | apps/api/src/analysis/sectors.ts:88-139 | a lap's crossings of its own gates are strictly in order, and inside the lap if and only if the last comes before its end |
| BrakingPoints.SlowingIsDeceleration | apps/api/src/analysis/braking-points.ts:137-154 | without an accelerometer the deceleration is positive exactly when the speed falls, and missing exactly when no time passes |
| BrakingPoints.DecelerationIs | apps/api/src/analysis/braking-points.ts:137-154 | the deceleration is what the accelerometer reads, negated, or else the speed lost over the time, 35.30394 km/h per second to the g; none if and only if neither is known |
| BrakingPoints.DetectBrakingPoints | apps/api/src/analysis/braking-points.ts:64-115 | the loop over a zone stack is the hysteresis detector |
| BrakingPoints.ZonesAreDetected | apps/api/src/analysis/braking-points.ts:64-112 | zones hold their true peak, at or above the entry threshold, lie in order more than the merge gap apart, and cover every hop at or above the threshold |
| BrakingPoints.ZonesLastUntilEased | apps/api/src/analysis/braking-points.ts:101-112 | every zone lasts until a hop below the exit threshold, except one the lap ends in |
| BrakingPoints.ZoneIsOneBraking | apps/api/src/analysis/braking-points.ts:68-112 | a zone opens where the brakes go on after more than 400 ms off, ends with a braked hop, and while it lasts they never stay off for longer |
| BrakingPoints.BrakingIsInAZone | apps/api/src/analysis/braking-points.ts:68-112 | every braked hop is in a zone, and one at which the brakes go on after more than 400 ms off opens it |
| BrakingPoints.MeasuredBrakingIsFound | apps/api/src/analysis/braking-points.ts:137-141 | on a lap with an accelerometer every hop read at 0.3 g of braking or more is in a zone whose peak is its hardest reading |
| BrakingPoints.NoBrakingNoMarkers | apps/api/src/analysis/braking-points.ts:137-141 | a lap whose accelerometer never reads braking has no markers |
| BrakingPoints.MarkersAreZones | apps/api/src/analysis/braking-points.ts:114-126 | the markers are those of the zones of at least 250 ms, each once and in order, with the position, rounded distance and entry speed of the point the zone starts at and its rounded peak, at least 0.3 g |
| BrakingPoints.MarkersNeedTime | apps/api/src/analysis/braking-points.ts:40-56 | m ≥ 1 markers need a lap of at least 250·m + 400·(m − 1) ms |
| LapSegmenter.Segmenter.constructor | apps/api/src/analysis/lap-segmenter.ts:57-64 | a segmenter starts with no fix, direction, lap or point |
| LapSegmenter.Segmenter.AppendPoint | apps/api/src/analysis/lap-segmenter.ts:156-163 | the point joins the open lap one step further along its axis, if a lap is open |
| LapSegmenter.Segmenter.Derive | apps/api/src/analysis/lap-segmenter.ts:172-204 | all the numbers of a lap whose points are in: times, length, speeds, splits and braking points |
| LapSegmenter.Segmenter.CloseLap | apps/api/src/analysis/lap-segmenter.ts:165-207 | the open lap is closed at the anchor with all its derived numbers |
| LapSegmenter.Segmenter.PassLine | apps/api/src/analysis/lap-segmenter.ts:88-111 | a counted crossing latches the direction, closes the running lap and opens the next on one anchor |
| LapSegmenter.Segmenter.PushSample | apps/api/src/analysis/lap-segmenter.ts:67-122 | one sample is one step of the lap state machine |
| LapSegmenter.Segmenter.PushAll | apps/api/src/analysis/lap-segmenter.ts:124-129 | the samples' steps, one after another |
| LapSegmenter.SpeedRange | apps/api/src/analysis/lap-segmenter.ts:179-189 | the fold is the greatest and least speed |
| LapSegmenter.SpeedsAreExtremes | apps/api/src/analysis/lap-segmenter.ts:179-189 | they are a point's own, bound every speed, and are none exactly when no point has one |
| LapRun.OnlyLocatedCount | apps/api/src/analysis/lap-segmenter.ts:68-76 | samples without a position change nothing at all |
| LapRun.CountedIff | apps/api/src/analysis/lap-segmenter.ts:80-88 | a crossing counts if and only if it runs in the latched direction at least the minimum lap after the last counted one |
| LapRun.SessionLaps | apps/api/src/analysis/lap-segmenter.ts:67-207 | over every session: counted crossings share one direction, none is missed, lap k is its two anchors with exactly the fixes between them in order, and the open lap has the fixes since |
| LapRun.LapInSession | apps/api/src/analysis/lap-segmenter.ts:67-207 | each lap lies between two counted crossings of the same direction at least MIN_LAP_MS apart |
| LapRun.LapsAreSound | apps/api/src/analysis/lap-segmenter.ts:101-113 | laps are numbered 1, 2, 3…, last at least the minimum, are monotone on both axes from distance 0, and the next opens on the anchor the last ended on |
| LapRun.LapSplitsAddUp | apps/api/src/analysis/lap-segmenter.ts:191-204 | a lap's splits are not negative and add up to its time within floor((N+1)/2) ms |
| LapRun.LapFigures | apps/api/src/analysis/lap-segmenter.ts:172-204 | every lap of a session has its points' own figures: bounds, time and distance to the nearest whole, the extremes of its speeds, the markers of its braking zones, and its splits at the gates given or, without any, at equal distances |
| SessionPoints.CrossingsAreOnTheGround | apps/api/src/analysis/lap-segmenter.ts:80-88 | the segmenter sees a crossing if and only if the hop between two fixes crosses the gate on the ground, and tells the side |
| SessionPoints.LapsAreOnTheGround | apps/api/src/analysis/lap-segmenter.ts:88-163 | every lap of a session opens and closes where its two counted hops meet the gate, with speed and acceleration as far between the fixes as the time, and in between has exactly the fixes from one to the other, each a step further along |
| LapTrace.InterpolateAt | apps/api/src/analysis/lap-trace.ts:98-131 | the synthesized fix at an instant, none where a stored fix already sits |
| LapTrace.SynthesizedExactly | apps/api/src/analysis/lap-trace.ts:98-131 | a fix is synthesized if and only if some pair brackets the instant before any fix sits at it, in the first such pair, as far between them in everything as in time |
| LapTrace.BetweenEnds | apps/api/src/analysis/lap-trace.ts:118-131 | at either end of a hop the synthesized fix is the fix there, with every channel both ends have |
| LapTrace.BuildLapTrace | apps/api/src/analysis/lap-trace.ts:32-62 | the anchored, measured and thinned trace of a lap |
| LapTrace.TraceIsMeasured | apps/api/src/analysis/lap-trace.ts:32-62 | a trace has its fixes' places and channels, the time since the first, and the distance from one to the next |
| LapTrace.TraceIsWhole | apps/api/src/analysis/lap-trace.ts:98-131 | a trace's elapsed times are whole milliseconds |
| Rebuild.LapIsRebuilt | apps/api/src/analysis/analysis.service.ts:523-538 | for every lap of a session: its trace has both ends and every fix, less one point for an opening crossing at most half a millisecond before the lap's first fix and one for a closing crossing less than half a millisecond after its last; each fix keeps its position and channels, its elapsed time is off by exactly what rounding took from the first crossing, its distance by one constant, the difference of the two first steps, and the trace's length by that and the difference of the two last steps |
| Rebuild.TraceEndsOnLine | apps/api/src/analysis/lap-trace.ts:20-23 | for every lap and budget, each end of its trace is on the line, at the very place of the crossing, if and only if the car crossed on a whole millisecond |
| Rebuild.TraceLastsTheLap | apps/api/src/analysis/lap-trace.ts:24-25 | for every lap and budget, the trace runs from 0 to the difference of the stored bounds, within 1 ms of the lap's time and equal to it if and only if the two roundings differ by less than half a millisecond |
| Rebuild.RebuildAgreesExactly | apps/api/src/analysis/lap-trace.ts:32-131 | for every lap, point for point the trace is the segmenter's lap if and only if both crossings are whole milliseconds with an anchor of their own in the trace, and on a stored fix lose no channel |
| Rebuild.ThirdsDisagree | apps/api/src/analysis/lap-trace.ts:22-25 | a lap at a projected gate whose trace opens off the line and lasts 4034 ms for 4033 |
| Rebuild.GrazingCostsAPoint | apps/api/src/analysis/analysis-samples.repository.ts:70-73 | a session whose first crossing comes a quarter of a millisecond before a fix: its lap has four points and the trace three |
| Decimation.DecimateByDistance | apps/api/src/analysis/lap-trace.ts:149-176 | the loop keeps exactly the points the thinning specification keeps |
| Decimation.DecimateKeepsFirsts | apps/api/src/analysis/lap-trace.ts:149-176 | both ends and exactly the first interior point of each non-zero bin are kept, at most maxPoints + 1 in all, at most maxPoints if no interior point reaches the end |
| Decimation.ThinnedAtMarks | apps/api/src/analysis/lap-trace.ts:149-176 | a trace over its budget keeps its ends and every point whose hop gets to a multiple of the spacing, and no other |
| Decimation.DroppedIsNearKept | apps/api/src/analysis/lap-trace.ts:159-169 | every dropped point lies less than one spacing, the trace's length over maxPoints − 1, after a kept one |
| Decimation.DecimateKeepsOrder | apps/api/src/analysis/lap-trace.ts:149-176 | thinning keeps both ends, adds nothing, keeps both axes monotone, and leaves a trace within its budget as it is |
| TraceLookup.BracketBy | apps/api/src/analysis/lap-trace.ts:196-222 | the scan is the bracket around a target, clamped to the ends |
| TraceLookup.InterpolateTracePointAt | apps/api/src/analysis/lap-trace.ts:237-260 | the stored or blended point at a distance |
| TraceLookup.DistanceAtElapsed | apps/api/src/analysis/lap-trace.ts:271-277 | the blended distance at an elapsed time |
| TraceLookup.PointIsBetween | apps/api/src/analysis/lap-trace.ts:237-260 | inside the trace the point read lies on the first hop that gets to the distance, as far along it in everything as in distance; at or beyond an end it is that end's stored point |
| TraceLookup.DistanceIsReached | apps/api/src/analysis/lap-trace.ts:196-277 | the distance read at a time is as far along the first hop that gets to that time as the time is, and at or beyond an end that end's |
| TraceLookup.StoredPointIsRead | apps/api/src/analysis/lap-trace.ts:237-260 | read at a stored distance the trace gives the stored point: place, time, and every channel the point before has as well |
| TraceLookup.LookupsAreInverse | apps/api/src/analysis/lap-trace.ts:262-270 | on a trace advancing on both axes each lookup undoes the other, clamped to the trace's own ends |
| TraceLookup.LookupsAscend | apps/api/src/analysis/lap-trace.ts:196-277 | on any monotone trace both lookups are monotone and stay inside the trace |
| TraceLookup.PointIsWhereAsked | apps/api/src/analysis/lap-trace.ts:227-230 | the point read at a distance is at that distance, or at the nearer end |
| TraceLookup.ReadingAtStored | apps/api/src/analysis/lap-trace.ts:212-217 | a lookup passes through every stored point |
| CompareLaps.SampleAtDistance | apps/api/src/analysis/lap-trace.ts:333-358 | the cursor moves on to the hop that reaches the distance and reads it |
| CompareLaps.Compare | apps/api/src/analysis/lap-trace.ts:289-323 | the one-pass comparison, whose two cursors together move no further than the two traces are long |
| CompareLaps.ResumedIsFresh | apps/api/src/analysis/lap-trace.ts:302-306 | a cursor that served a shorter distance serves a longer one as a scan from the start would, on any trace |
| CompareLaps.OnePassIsFresh | apps/api/src/analysis/lap-trace.ts:302-321 | the one-pass comparison equals the one looked up afresh at every step |
| CompareLaps.ComparisonSpansTheLap | apps/api/src/analysis/lap-trace.ts:298-311 | exactly max(min(maxPoints, 5000), 2) steps from the line to the end of the shorter lap |
| CompareLaps.ComparisonAscends | apps/api/src/analysis/lap-trace.ts:308-320 | distances and elapsed times never decrease, and the three rounded times of a step agree within a millisecond |
| CompareLaps.StepIsRead | apps/api/src/analysis/lap-trace.ts:308-320 | the steps are evenly spaced, each with what the two laps read there, distances to a tenth, times and lap B's less lap A's to the millisecond |
| CompareLaps.SpeedIsRead | apps/api/src/analysis/lap-trace.ts:333-358 | the speed read is that of the first hop to get to the distance, as far along it, kept to its ends and to a hundredth, or the one speed there is |
| CompareLaps.StepShowsStored | apps/api/src/analysis/lap-trace.ts:313-320 | at a stored distance of lap A the step shows that point's time and speed in A's columns, in B's with the laps exchanged |
| CompareLaps.AgainstItself | apps/api/src/analysis/lap-trace.ts:279-288 | a lap against itself is all zeros |
| CompareLaps.ExchangedLaps | apps/api/src/analysis/lap-trace.ts:313-320 | exchanging the laps exchanges the columns and negates the unrounded delta; the rounded one exactly when it is not halfway between two milliseconds |
| CompareLaps.CursorReadsBracket | apps/api/src/analysis/lap-trace.ts:193-222 | the cursor reads the elapsed time the bracket does if and only if the car did not sit at the very end of the trace |
| OptimalLapCore.PickWinner | apps/api/src/analysis/optimal-lap-core.ts:70-79 | the loop finds the lap no other is better than in the sector |
| OptimalLapCore.PickBestSectors | apps/api/src/analysis/optimal-lap-core.ts:54-99 | the best sectors of the eligible laps, or none with fewer than two |
| OptimalLapCore.CombinedExactly | apps/api/src/analysis/optimal-lap-core.ts:54-66 | there is an optimal lap if and only if two laps have every split, each present and positive |
| OptimalLapCore.OptimalIsOfItsSetters | apps/api/src/analysis/optimal-lap-core.ts:87-98 | its distance is the mean of those of the laps that set its sectors, and it matches a lap if and only if all of them are that lap |
| OptimalLapCore.SectorsAreTrueMinima | apps/api/src/analysis/optimal-lap-core.ts:68-85 | each sector is set by an eligible lap with the true minimum, the lowest-numbered of those |
| OptimalLapCore.NoCombinationIsFaster | apps/api/src/analysis/optimal-lap-core.ts:37-41 | no choice of an eligible lap for every sector adds up to less |
| OptimalLapCore.OptimalAgainstALap | apps/api/src/analysis/optimal-lap-core.ts:87 | the total is at most any eligible lap's, and equal if and only if that lap is fastest in every sector |
| OptimalLapCore.OrderDoesNotMatter | apps/api/src/analysis/optimal-lap-core.ts:54-99 | with distinct lap numbers the result is the same for every order of the laps |
| OptimalLapCore.OneLapIsTheOptimal | apps/api/src/analysis/optimal-lap-core.ts:33-35 | when one lap set every sector the optimal lap has that lap's splits, total and distance |
| OptimalLap.BuildOptimalLap | apps/api/src/analysis/optimal-lap.ts:46-89 | a fresh plan of three sectors, with the braking points moved sector by sector and no seams yet |
| OptimalLap.RebasedAre | apps/api/src/analysis/optimal-lap.ts:52-78 | the braking points are exactly those of each sector's own lap inside that part of it, as far into it, to the tenth of a metre, sector after sector in the lap's order, all else unchanged |
| OptimalLap.AxisIsCoreDistance | apps/api/src/analysis/optimal-lap.ts:56-78 | the accumulated axis is exactly the plan's distance |
| OptimalLap.RebasedInOrder | apps/api/src/analysis/optimal-lap.ts:64-78 | moved braking points stay in order along the combined axis and on it |
| OptimalLap.OneLapKeepsItsPoints | apps/api/src/analysis/optimal-lap.ts:57-78 | when one lap set every sector the braking points are that lap's own in-range points, unchanged and in order |
| StitchedTrace.PushSeam | apps/api/src/analysis/optimal-lap.ts:253-271 | a seam is added to the plan in place, except before the first slice |
| StitchedTrace.CutSector | apps/api/src/analysis/optimal-lap.ts:162-170 | a sector's slice of its lap's trace, between its own boundaries, with an interpolated point at each |
| StitchedTrace.StitchSector | apps/api/src/analysis/optimal-lap.ts:166-193 | one slice: its seam recorded, its points placed on the cumulative axis and stretched to the sector's own time |
| StitchedTrace.StitchOptimalTrace | apps/api/src/analysis/optimal-lap.ts:142-208 | the stitched, pinned and thinned trace; the plan's seams grow in place by one for each join |
| StitchedPoints.StitchedIs | apps/api/src/analysis/optimal-lap.ts:142-251 | the trace is, sector after sector, the stored points of the lap that set it strictly between its boundaries and an interpolated point at each, as far into the slice as on their own lap and at their time stretched to the sector's, then pinned at the end and thinned; the boundaries are the trace's ends and where the running sum of the lap's splits is reached, or equal fractions without them |
| StitchedPoints.SeamsAre | apps/api/src/analysis/optimal-lap.ts:253-271 | a seam for every join and no other, where the slice before it ends to the tenth of a metre, as wide as the two laps' own places there are apart to the centimetre |
| StitchedTrace.BoundariesAscend | apps/api/src/analysis/optimal-lap.ts:224-251 | sector boundaries lie in order inside the lap, by its splits or by fractions |
| StitchedTrace.StitchedIsALap | apps/api/src/analysis/optimal-lap.ts:142-208 | distance and elapsed time never go back, the last point is exactly at the optimal lap's time, and its distance is the sum of the slices |
| StitchedTrace.SectorsLastTheirTime | apps/api/src/analysis/optimal-lap.ts:172-193 | each slice begins exactly at the sum of the sector times before it, and ends exactly at the sum with its own if and only if the slice takes time or its sector takes none |
| StitchedTrace.PlansAddUp | apps/api/src/analysis/optimal-lap-core.ts:79-87 | a plan's time is the sum of its sectors, each positive |
| StitchedTrace.NothingWhenUnreadable | apps/api/src/analysis/optimal-lap.ts:147-154 | the trace is empty if and only if a lap that set a sector has no trace of two points |
| StitchedTrace.OneLapIsCovered | apps/api/src/analysis/optimal-lap.ts:224-251 | when one lap set every sector the slices cover that lap's own length |
| StitchedTrace.SeamsMeasureJoins | apps/api/src/analysis/optimal-lap.ts:253-271 | exactly one seam for each interior join, at the distance covered so far, measuring the two laps' positions there; none between slices of the same lap |
| SessionTrace.TraceIsOrdered | apps/api/src/analysis/lap-trace.ts:32-96 | every trace of a time-ordered session without negative speeds goes forward on both axes, from 0 on both, whatever channels are missing and however it is thinned |
| SessionTrace.OptimalOfSession | apps/api/src/analysis/analysis.service.ts:567-609 | from a session's samples to its optimal lap: derived, rebuilt, picked and stitched, it is a lap that lasts exactly its best sectors if the traces can be read, as they all can where every sample has a position and a time of its own |
| SessionTrace.HalfIsLost | apps/api/src/analysis/lap-trace.ts:316 | two runs over the same ten metres whose traces are half a millisecond apart at one step, reported as 1 ms one way round and 0 the other |
| SessionTrace.StandingStillDiffers | apps/api/src/analysis/lap-trace.ts:193-195 | three samples of a car that stops: at the end of their trace the cursor reads 1000 ms and the bracket 1200 |
| LineChart.Clip | frontend/src/app/core/charts/line-chart.ts:618-625 | the two loops are the clipped range |
| LineChart.ClipKeepsWindow | frontend/src/app/core/charts/line-chart.ts:616-625 | the range holds every point of the window and at most one outside it on each side |
| LineChart.Flush | frontend/src/app/core/charts/line-chart.ts:650-664 | a run is emitted in position order, each position once |
| LineChart.Scan | frontend/src/app/core/charts/line-chart.ts:666-695 | kept if and only if a gap, an end of its run, or the first of its run's lowest or highest, in order |
| LineChart.ForDisplay | frontend/src/app/core/charts/line-chart.ts:607-697 | exactly the points to be drawn of the clipped range, or the whole range when the window has no width |
| LineChart.EnvelopeIsKept | frontend/src/app/core/charts/line-chart.ts:599-603 | every reading lies between two drawn readings of its own run |
| LineChart.EndsAreKept | frontend/src/app/core/charts/line-chart.ts:602-603 | gaps, the first and last of every run and both ends of the range are drawn |
| LineChart.AtMostFourOfARun | frontend/src/app/core/charts/line-chart.ts:591-592 | no run is drawn with more than four points |
| LineChart.DrawingIsBounded | frontend/src/app/core/charts/line-chart.ts:54-67 | with x ascending a window is drawn with at most 4·451 + 2 points, and five more for each gap, however many it holds |
| LineChart.ExtremesAreKept | frontend/src/app/core/charts/line-chart.ts:599-601 | every gap-free stretch keeps its exact lowest and highest reading |
| LineChart.RunsAreBuckets | frontend/src/app/core/charts/line-chart.ts:605-606 | with x ascending a run is what one bucket holds between two gaps |
| LineChart.RunsAreParts | frontend/src/app/core/charts/line-chart.ts:605-681 | two readings are in one run if and only if no gap lies between them and no edge of the 450 equal parts of the window |
| LineChart.RunsAreNarrow | frontend/src/app/core/charts/line-chart.ts:627-681 | so no run is as wide as a 450th of the window |

## Left out

- Floating-point rounding, overflow, `NaN` and infinities, other than the two the code itself tests for: a split that is not finite, and a thinning distance divided by zero spacing.
- `Math.cos`, `Math.hypot` and `Math.sqrt` themselves: parameters with the properties named above.
- Framework wiring, controllers, DTO validation, SQL, Redis, MQTT, socket and HTTP clients: plumbing that cannot be seen. `LapTrace.LapWindow` states what the window query of `analysis-samples.repository.ts` returns.
- `track-map.builder.ts`: the tag filter, corner features, width, bounding box and GeoJSON; point-to-segment distance is a parameter, and every way is taken to have at least two nodes, as many points as nodes, and an id of its own, as the filter and the OpenStreetMap source ensure.
- `circuit.js`: the spline, smoothing, resampling, noise and driver. `SpeedProfile` takes any curvature.
- `sector-gates.ts`: gates from a stored centreline and the choice between the two derivations.
- `Rebuild.LapIsRebuilt`: takes a session in which every sample has a position and a time of its own; a missing position or a shared millisecond next to a bound changes what the window query returns.
- `Rebuild.RebuildAgreesExactly`: takes the trace to be within its point budget; one over it is the trace of `LapIsRebuilt`, thinned.
- `StitchedTrace.StitchedIsALap`: takes contributing traces in order on both axes and splits that are not negative; `SessionTrace.OptimalOfSession` shows that a session's are.
- `BrokerQueue.EverythingSettles`: shows that moves which settle every request are always enabled, not that the runtime takes them.
- `BrokerQueue`: tolerated error fragments, which turn a rejection into a null result for one caller, and reconnecting.
- `TelemetryBus`: dispatching frames to the gateway, and reconnects of the Redis client. In the runs a caller leaves when live, or while it waits on the record in the map; `TelemetryBus.UnpairedLeave` and `TelemetryBus.UnjoinedLeave` say exactly which other leaves do harm.
- `OptimalLap.BuildOptimalLap`: the lap rows' other columns; lap numbers are distinct where a lemma says so, as the segmenter numbers them.
- `LineChart`: everything drawn around the points, zooming and panning.
