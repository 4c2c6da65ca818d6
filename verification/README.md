# Verified models of the plant safety backend

This project models the algorithms and state machines behind the Django backend's monitoring,
alarms, floor plans and forecasts, and proves what they keep over all inputs and all runs. Database
tables are sequences or maps of records, time is an integer number of seconds passed in, and
floating point values are exact reals. Objects whose methods update fields are classes with the
same methods; each method is proved equal to a function of the old state, and the lemmas are about
those functions. `dafny verify dfyconfig.toml` checks everything.

Induction is written out everywhere: every lemma carries `{:induction false}`, so a recursive call
in a proof is one the proof needs.

## The parts

- **Fence geometry** (`RayCasting`, `ConvexPolygons`, `WorkerSafety`): even-odd ray casting adds up
  along diagonals, does not care how the vertices are listed, on convex polygons is the half-plane
  test and on all others the parity of a fan of triangles; the verdict about a worker is the worst
  applicable fence.
- **Gas grading** (`GasGrading`): two independent graders agree on every reading and table.
- **Alarm events** (`AlarmEvents`, `AlarmHistory`, `AlarmDedup`, `AlarmSharing`, `AlarmLabels`,
  `AlarmTitles`, `AlarmEffects`, `MissingSweep`, `AlarmService`): every trigger is a query and a
  verdict, every run a list of steps. `AlarmEffects` says of each trigger which row it looks for and
  what that row, or a new one, then holds. The history table replays to the event table, duplicates
  are bounded by manual reopens, and the title matching isolates labels exactly as far as they are
  prefix-free. The z-score, change point and gas checks share the THRESHOLD rule; `AlarmSharing`
  says when that gives a device a second open event and whose event a gas check takes. The class
  `Alarms` carries a ghost trace of its own calls, so the results about runs hold of its tables
  after any sequence of calls.
- **Notification cooldown** (`NotificationCooldown`): dispatches of a key are 300 seconds apart, and
  nothing is suppressed without cause.
- **Forecast input** (`ForecastStream`, `ForecastCalls`, `ForecastWorker`): the timestamp guard
  makes redelivery invisible, and the backfill makes a restart invisible as long as the table holds
  a window of rows. The engine's policy state is represented by the list of predictions it was asked
  for, of which it is a function; over every stream and restart that list is spelled out reading by
  reading.
- **Location sync and renumbering** (`LocationLinks`, `LocationEffects`, `LocationSync`, `Codes`,
  `Renumbering`): two tables that mirror each other through signal handlers with a re-entrancy
  guard, what every save and delete does to both, and the two-pass migration under unique
  constraints, with the exact condition under which it gets through.
- **Floor grids** (`GridGeometry`, `GridCache`, `GridServed`, `GridStore`, `UpperBounds`): index
  arithmetic and snapping, and two caches in front of a table that queued tasks regenerate; drained,
  they serve the values saved last.
- **Windows and change points** (`SlidingWindow`, `WindowRows`, `ChangePoint`, `BoundedQueue`,
  `Sensors`): bounded buffers that are the last sixty values, rows that are readings exactly when
  the gases were measured together, a decision that compares the newer thirty values with the older
  thirty, and a two-state machine that reports its edges.
- **Retention** (`Retention`) and **automatic fences** (`FenceFreshness`): calendar schedules with a
  bounded lag, and fences that do not flap.

`Wrappers` holds the Option and Result types.

## Where the code and its comments disagree

The models follow the code.

- alerts/services.py:177 speaks of the event of that gas. The look-up is by substring, so CO finds
  CO2 (`AlarmLabels.CarbonMonoxideClosesDioxide`).
- alerts/services.py:176 says WARNING events; the severity written is ANOMALY.
- facilities/services/geofence_checker.py:84-88 sorts by descending severity to see danger first,
  but the severities are strings and `warning` sorts above `danger`. The verdict does not depend on
  the order.
- facilities/models.py:116 says that grid cells never change after the floor is created; saving
  other dimensions deletes and rebuilds them.
- monitoring/anomaly/window.py:61 says that only rows with all gases valid are returned. The rows
  are formed by position, so a missing value shifts its gas against the others
  (`WindowRows.RowsAreReadingsIff`, `WindowRows.MissingValueMisaligns`).
- monitoring/anomaly/window.py:44 speaks of the buffer of the gas asked for; the reload appends to
  all gases (`SlidingWindow.GetKeepsOtherIff`, `SlidingWindow.ReloadDoublesOthers`).

## Model

| member | source | states |
|---|---|---|
| `RayCasting.IsInsidePolygon` | facilities/services/geofence_checker.py:33-59 | the toggling loop, null and short polygons included, answers the parity of the crossings along the closed vertex path; its division is never by zero |
| `RayCasting.CrossesBySide` | facilities/services/geofence_checker.py:54 | the quotient test of one edge holds iff the point is on the proper side of an edge that rises or falls past its height; no quotient is needed |
| `RayCasting.ParitySplits` | facilities/services/geofence_checker.py:47-57 | crossing parity adds up along a path that is cut at a vertex |
| `RayCasting.ParityReversed` | facilities/services/geofence_checker.py:47-57 | walking a path backwards crosses the ray as often, modulo two |
| `RayCasting.InsideReversed` | facilities/services/geofence_checker.py:33-59 | listing the vertices in the opposite direction never changes the answer |
| `RayCasting.InsideRotated` | facilities/services/geofence_checker.py:33-59 | any vertex may be listed first |
| `RayCasting.InsideCutByDiagonal` | facilities/services/geofence_checker.py:33-59 | additivity: for any vertex list and any two vertices that are not neighbours, the answer is the exclusive or of the answers for the two pieces |
| `RayCasting.ParityLeftOfPath` | facilities/services/geofence_checker.py:47-57 | left of every vertex only the ends of a path matter: the parity is whether they straddle |
| `RayCasting.OutsideBoxIsOutside` | facilities/services/geofence_checker.py:33-59 | a point outside the bounding box (top and right border included) is reported outside |
| `RayCasting.InsideIsFanParity` | facilities/services/geofence_checker.py:33-59 | for any polygon the answer is the parity of the fan triangles from the first vertex that contain the point |
| `ConvexPolygons.RisesOnce` | facilities/services/geofence_checker.py:54 | a convex polygon has at most one edge rising past a height |
| `ConvexPolygons.FallsOnce` | facilities/services/geofence_checker.py:54 | and at most one falling past it |
| `ConvexPolygons.ParityOfPair` | facilities/services/geofence_checker.py:47-57 | when one rising and one falling edge straddle, they alone decide the parity after any number of edges |
| `ConvexPolygons.InsideByTwoEdges` | facilities/services/geofence_checker.py:47-59 | at a height the polygon straddles, the answer is decided by the sides of exactly two edges |
| `ConvexPolygons.WithinIsInside` | facilities/services/geofence_checker.py:33-59 | strictly left of every edge of a convex polygon implies inside |
| `ConvexPolygons.InsideIsWithin` | facilities/services/geofence_checker.py:33-59 | inside implies on or left of every edge |
| `ConvexPolygons.ConvexExact` | facilities/services/geofence_checker.py:33-59 | exactness on convex polygons of any size: off the edge lines, the loop answers the half-plane intersection, and strictly beyond one edge it answers outside |
| `ConvexPolygons.ConvexExactClockwise` | facilities/services/geofence_checker.py:33-59 | the same for clockwise vertex lists |
| `ConvexPolygons.TriangleExact` | facilities/services/geofence_checker.py:33-59 | every triangle, either orientation: strictly inside all three edges is inside, strictly beyond one is outside |
| `RayCasting.CrossesCut` | facilities/services/geofence_checker.py:54 | an edge is crossed iff exactly one of the two parts a point cuts it into is |
| `RayCasting.VertexOnSideIsIdle` | facilities/services/geofence_checker.py:33-59 | adding a vertex on a side changes no answer, for any polygon |
| `ConvexPolygons.SubdividedExact` | facilities/services/geofence_checker.py:33-59 | exactness on convex fences with any number of extra vertices on their sides: the half planes of the corners decide |
| `ConvexPolygons.FlatTriangleIsEmpty` | facilities/services/geofence_checker.py:33-59 | a triangle without area contains nothing |
| `ConvexPolygons.AnyTriangleExact` | facilities/services/geofence_checker.py:33-59 | every triangle, clockwise, counter-clockwise or flat: off its lines, inside iff strictly on one side of all three edges |
| `ConvexPolygons.PolygonExact` | facilities/services/geofence_checker.py:33-59 | exactness for every polygon, L-shaped and self-intersecting ones included: off the lines of its fan, inside iff in an odd number of fan triangles |
| `WorkerSafety.CheckWorkerInGeofence` | facilities/services/geofence_checker.py:64-115 | whatever order the query returns, the verdict is the worst severity of the applicable fences; off duty or unplaced is safe |
| `WorkerSafety.VerdictIsUnique` | facilities/services/geofence_checker.py:64-115 | that characterisation leaves no choice of verdict |
| `WorkerSafety.VerdictIff` | facilities/services/geofence_checker.py:84-115 | on duty and placed: danger iff an active danger fence of the floor holds the worker, otherwise warning iff an active warning fence does; off duty or unplaced, safe and nothing else |
| `WorkerSafety.CircleOnAxis` | facilities/services/geofence_checker.py:18-28 | along both axes a circle reaches exactly its radius, border included |
| `WorkerSafety.CircleIsRound` | facilities/services/geofence_checker.py:18-28 | turning a point around the centre by any angle never changes the answer |
| `WorkerSafety.ShapesCover` | facilities/services/geofence_checker.py:96-104 | polygons are tested by the ray, circles by the radius; missing data and other shapes hold nothing |
| `WorkerSafety.MoreFencesNeverSafer` | facilities/services/geofence_checker.py:84-115 | adding fences never makes a worker safer and reordering changes nothing |
| `WorkerSafety.Worker.SyncStatus` | facilities/services/geofence_checker.py:120-136 | the stored safety status becomes the verdict, duty is left alone |
| `WorkerSafety.Roster.DeactivateStale` | facilities/services/geofence_checker.py:139-168 | every on-duty worker without a location of the last 120 seconds goes off duty and safe, nobody else changes, and the count is the number of such workers |
| `GasGrading.CalcDangerLevel` | monitoring/services.py:336-373 | the folded level is the worst level of the list the other grader builds |
| `GasGrading.CheckThresholdExceeded` | monitoring/services.py:376-418 | the list of exceeded gases, oxygen first, then the table in order |
| `GasGrading.ListedIff` | monitoring/services.py:394-416 | a gas is listed at a level iff its value is out of the oxygen band (dangerous below 16, caution below 18 or above 23.5) or reaches a row of the table at that level |
| `GasGrading.ListSplits` | monitoring/services.py:394-416 | the list follows the table: what more rows bring comes after what the rows before bring, and oxygen comes first and once |
| `GasGrading.LevelIff` | monitoring/services.py:346-373 | dangerous iff oxygen is below 16 or some row's danger limit is reached; normal iff oxygen is within its band and no limit of any row is reached |
| `GasGrading.WorstIsAttained` | monitoring/services.py:239-239 | the worst level of a list is one of its levels and bounds them all |
| `GasGrading.GradersAgree` | monitoring/services.py:336-418 | for every reading and table: normal iff nothing is listed, dangerous iff a listed gas is |
| `GasGrading.LevelAfter` | monitoring/services.py:360-371 | each table row worsens the level by its own level, whatever the earlier rows |
| `GasGrading.RaisingNeverImproves` | monitoring/services.py:336-373 | raising any gas but oxygen never lowers the level, even for tables whose danger limit is below the warning limit |
| `GasGrading.LevelSplits` | monitoring/services.py:346-373 | the level is the worse of the oxygen grade and the level of the table alone |
| `GasGrading.OxygenImprovesIff` | monitoring/services.py:346-373 | a new oxygen value improves the level iff its grade is better and the table alone is better than the old grade; rising, that is from below 16 to 16 or more or from below 18 into the normal band |
| `GasGrading.RaisingOxygenImproves` | monitoring/services.py:350-357 | it happens: raising oxygen from 15 to 20 improves the level from dangerous to normal |
| `AlarmHistory.RecordedChange` | alerts/services.py:611-643 | a recorded change along an allowed transition keeps the tables equal to the replay of the history |
| `AlarmHistory.StepKeepsSourced` | alerts/services.py:12-446 | every manual or automatic step keeps that agreement |
| `AlarmHistory.EveryRunIsSourced` | alerts/services.py:12-643 | event sourcing over all runs: each status is the replay of its history from OPEN, each replayed step is an allowed transition, and closed_at is set exactly while the last close or reopen is a close |
| `AlarmHistory.ClosingTimes` | alerts/services.py:626-629 | in every reachable state OPEN has no closing time and CLOSED has one |
| `AlarmHistory.AcknowledgedKeepsStamp` | alerts/services.py:623-629 | ACKNOWLEDGED decides nothing about the closing time: two runs that end acknowledged, one with and one without |
| `AlarmHistory.AcknowledgedStampIff` | alerts/services.py:623-629 | what decides it over every run: an acknowledged event has a closing time iff some close of it has not been followed by a reopen |
| `AlarmHistory.SignalsStayInTheirLane` | alerts/services.py:32-36 | a trigger changes at most one old row, an open one of its own rule and device, and adds at most one |
| `AlarmHistory.OriginIsFixed` | alerts/services.py:12-643 | no step edits rule, device, channel, title or time of origin, and history only grows |
| `AlarmHistory.NewPowerEvent` | alerts/services.py:105-123 | a new power event implies that no event of its channel from the last five minutes is still open |
| `AlarmHistory.PowerEventsAreSpaced` | alerts/services.py:105-123 | over every run, of two power events of a channel within five minutes the first has left OPEN |
| `AlarmDedup.TriggerSeesItsClass` | alerts/services.py:149-154 | a trigger that could create an event of a class would have matched any open event of the class |
| `AlarmDedup.SignalBound` | alerts/services.py:125-446 | no trigger raises the number of open events of any class above one, or at all if there is one |
| `AlarmDedup.ManualBound` | alerts/services.py:611-643 | a manual change adds at most one open event, and only by reopening |
| `AlarmDedup.DuplicatesAreReopens` | alerts/services.py:125-446 | over every run, the open events of each class (silent device, AI per channel, forecast per title, z-score, change point per title, gas level) are at most one plus the manual reopens of the class |
| `AlarmSharing.SignalCounts` | alerts/services.py:12-446 | for every trigger and every rule and device: their open events rise by one iff it is the trigger's own, it has something to report and no open event matches its query; they fall by one iff it clears and one matches |
| `AlarmSharing.NeverTwoIff` | alerts/services.py:12-643 | over every run, a rule and device never have two open events iff no report or reopen adds one where one is open |
| `AlarmSharing.GasCheckAddsIff` | alerts/services.py:29-77 | a gas check adds an event iff gases are exceeded and the device has none open, so never a second one |
| `AlarmSharing.ZScoreCrowdsIff` | alerts/services.py:149-170 | a z-score report adds a second open event iff events of the device are open and none is an anomaly |
| `AlarmSharing.CpEdgeCrowdsIff` | alerts/services.py:197-226 | a change point adds a second open event iff events are open and no anomaly among them is titled with its gas |
| `AlarmSharing.GasCheckTakesIff` | alerts/services.py:32-66 | the rows a gas check can close or re-grade are exactly the youngest open ones of the device, whichever step raised them; all other rows stay |
| `AlarmSharing.GasCheckRegradesAnomaly` | alerts/services.py:32-66 | it happens: a gas check takes an open z-score event for its own and changes its severity |
| `AlarmSharing.SharedRuleHoldsTwo` | alerts/services.py:149-170 | it happens: a run without reopens that leaves the device two open events of the rule |
| `AlarmLabels.CpLabelMatch` | alerts/services.py:204-222 | a change point pattern finds a change point title iff its gas is a prefix of the title's gas |
| `AlarmLabels.ForecastLabelMatch` | alerts/services.py:396-429 | a forecast pattern finds a forecast title iff both are gas or the same channel code, and the sensor is a prefix |
| `AlarmLabels.LabelPrefixes` | alerts/services.py:400-407 | among the nine gases the only proper prefix is CO of CO2; power labels have none |
| `AlarmTitles.EveryTitleIsKnown` | alerts/services.py:73-429 | over every run whose signals carry known labels, every THRESHOLD row is titled by a gas check, a z-score or a change point of a known gas, and every FORECAST row by a forecast of a known sensor |
| `AlarmTitles.CpEdgeTakesIff` | alerts/services.py:199-205 | over every run, the rows an edge can refresh or close are exactly the youngest open anomalies of its rule and device titled for a gas that extends its own: no z-score or gas event |
| `AlarmTitles.ForecastTakesIff` | alerts/services.py:403-411 | over every run, the rows a forecast can refresh or close are exactly the youngest open ones of its source titled for a sensor that extends its own |
| `AlarmTitles.PrefixFreeIsolates` | alerts/services.py:199-237 | with prefix-free labels an edge touches only events of its own gas, over every run |
| `AlarmTitles.CpEdgeTouches` | alerts/services.py:192-237 | with the nine gases an edge touches only its own gas, or for CO also CO2, over every run |
| `AlarmTitles.ForecastTouches` | alerts/services.py:399-445 | a forecast touches only its own source and sensor, or for the gas CO also CO2, over every run |
| `AlarmLabels.CarbonMonoxideClosesDioxide` | alerts/services.py:199-237 | the exception happens: a two-step run in which CO settling down closes the CO2 event |
| `MissingSweep.SweepCounts` | alerts/tasks.py:463-518 | the exact number of open events of every rule and device after one sweep |
| `MissingSweep.SweepDecides` | alerts/tasks.py:463-518 | from at most one open event, the sweep leaves one iff the device was last seen before the cutoff |
| `MissingSweep.SweepIsIdempotent` | alerts/tasks.py:463-518 | sweeping again at the same time creates and closes nothing, for any rule and device |
| `MissingSweep.RecoveryCountsDown` | alerts/tasks.py:499-518 | with several open events left by reopens, each sweep of a recovered device closes exactly one, down to none |
| `MissingSweep.RecoveryTakes` | alerts/tasks.py:499-518 | over any number of sweeps that hear the device, n open events take n sweeps, however timeouts and devices change in between |
| `AlarmService.GasVerdictFollowsLevel` | alerts/services.py:29-66 | for the same table the gas trigger clears iff the danger level is normal and raises DANGER iff it is dangerous |
| `AlarmService.LoadRateBands` | alerts/services.py:89-96 | the percentage bands are exactly three quarters and one half of the rated power |
| `AlarmService.Alarms.FindLatest` | alerts/services.py:32-36 | the scan returns a most recent open match, or none iff there is none |
| `AlarmService.Alarms.Process` | alerts/services.py:32-77 | look-up, then create, refresh or close: one recorded step of a run, and the tables are as that step leaves them |
| `AlarmService.Alarms.CheckGasThresholds` | alerts/services.py:12-77 | past its guards the call adds one gas signal with the exceeded list and its maximum; otherwise it changes nothing |
| `AlarmService.Alarms.CheckPowerThresholds` | alerts/services.py:80-123 | half the rated power warns, three quarters is dangerous, unset or zero ratings count as 1000 W |
| `AlarmService.Alarms.TriggerAnomalyAlarms` | alerts/services.py:125-170 | one signal with the largest absolute z-score of the anomalous results, none without one |
| `AlarmService.Alarms.TriggerChangepointAlarms` | alerts/services.py:173-237 | one signal per result that carries an event, in order |
| `AlarmService.Alarms.TriggerIfAnomalyAlarms` | alerts/services.py:240-301 | one shape signal with the level and distance unless the level is missing or unknown; what the signal does is AlarmEffects.GasShapeEffect |
| `AlarmService.Alarms.TriggerIfAnomalyAlarmsPower` | alerts/services.py:304-369 | the same per power channel |
| `AlarmService.Alarms.TriggerForecastAlarms` | alerts/services.py:372-446 | one forecast signal per result, in order, for gas or one power channel |
| `AlarmService.Alarms.CheckMissingDevices` | alerts/tasks.py:436-518 | the two passes of every rule, in order, are the sweep the counting results are about |
| `AlarmService.Alarms.ChangeEventStatus` | alerts/services.py:604-643 | refused, without any change, iff the status is the current one; otherwise status and closing time of the row are written and exactly one history entry |
| `AlarmService.EdgesOfEvents` | alerts/services.py:193-199 | the signals are the edges of exactly the results that carry an event, in their order |
| `AlarmService.OneForecastPerResult` | alerts/services.py:401-407 | one forecast signal per result, in order |
| `AlarmEffects.GasCheckEffect` | alerts/services.py:29-77 | a gas check takes the latest open event of its rule and device: it closes it with one history entry iff nothing is exceeded, otherwise it renews time, value and severity, or adds the event if there is none |
| `AlarmEffects.PowerCheckEffect` | alerts/services.py:98-123 | a power check adds an event iff the channel has no open one from the last 300 seconds, and otherwise leaves the tables alone |
| `AlarmEffects.ZScoreEffect` | alerts/services.py:140-170 | a z-score report gives its score and time to the latest open anomaly of the device, or adds one if there is none |
| `AlarmEffects.CpEdgeEffect` | alerts/services.py:193-237 | a change point renews or adds, a return to stable closes, in either case by the latest open anomaly whose title contains [CP] and the gas |
| `AlarmEffects.GasShapeEffect` | alerts/services.py:250-301 | a caution gives distance and time to the latest open AI event of the device or adds one iff there is none; a normal shape closes exactly that event and never adds; an unknown one changes nothing |
| `AlarmEffects.PowerShapeEffect` | alerts/services.py:315-369 | the same within one power channel |
| `AlarmEffects.ForecastEffect` | alerts/services.py:389-446 | both confirmed grades renew the latest open event of the source and sensor or add one, a normal forecast closes it, tentative and unknown ones change nothing |
| `AlarmEffects.SilenceEffect` | alerts/tasks.py:463-518 | a silent device renews the time of its open event or gets one; a device heard from again has its latest one closed |
| `AlarmEffects.ManualEffect` | alerts/services.py:604-643 | a change to the current status does nothing; to any other it sets it, with one entry; closing stamps, reopening clears the stamp, acknowledging keeps it |
| `NotificationCooldown.Notifier.SendAllNotifications` | alerts/tasks.py:393-402 | an attempt is sent iff every earlier dispatch of its rule, facility and severity is at least 300 s back, over the whole log and not only the last entry |
| `NotificationCooldown.RecentByLast` | alerts/tasks.py:393-402 | remembering the last dispatch of a key is as good as remembering all |
| `NotificationCooldown.SuppressionHasCause` | alerts/tasks.py:393-402 | every suppressed attempt has a dispatch of its key within the 300 s before it |
| `ForecastStream.GuardMemory` | monitoring/ai/gas_forecast.py:157-162 | after any stream the guard skips a reading iff it is not newer than everything delivered for its key |
| `ForecastStream.OnlyNewestCount` | monitoring/ai/gas_forecast.py:144-181 | the whole subsystem, policy state included, equals feeding only the strictly newest readings of each key |
| `ForecastStream.LateReadingChangesNothing` | monitoring/ai/gas_forecast.py:157-162 | a repeated or late reading inserted anywhere leaves every later state as it was |
| `ForecastStream.BackfillReflects` | monitoring/ai/gas_forecast.py:84-130 | backfilling 200 rows leaves windows of at most that size as if all rows had been fed, and the guard at the newest |
| `ForecastStream.StreamReflects` | monitoring/ai/gas_forecast.py:144-181 | after a backfill from any stretch of the stored rows, a stream that overlaps the table is skipped up to the newest stored row and taken once from there |
| `ForecastStream.RestartResumes` | monitoring/ai/gas_forecast.py:77-130 | restart at any point of an in-order stream, with a table that retention may have cut: the worker ends with the rows from the cut on, none lost or doubled |
| `ForecastStream.RestartIsInvisibleIff` | monitoring/ai/gas_forecast.py:77-130 | windows and guard end as if nothing had happened iff nothing was cut or enough rows follow the cut to fill a window; a table that keeps a window of rows is always enough |
| `ForecastStream.UnlistedKeyForgets` | monitoring/ai/power_forecast.py:104-116 | a key the backfill does not list keeps exactly what arrives after the restart |
| `ForecastStream.QueuedReadingIsSkippedIff` | monitoring/ai/gas_forecast.py:152-162 | a queued reading already in the table is skipped after the backfill iff its parsed time is not past the newest stored time |
| `ForecastStream.UntimedReadingIsDoubled` | monitoring/ai/gas_forecast.py:133-141 | the condition fails for readings without a measuring time: one such reading enters a window twice |
| `ForecastWorker.Worker.BackfillKey` | monitoring/ai/gas_forecast.py:101-130 | replay of one key as pushes, one prediction per sensor, then the guard timestamp |
| `ForecastWorker.Worker.GetSubsystem` | monitoring/ai/gas_forecast.py:61-81 | the database is read on the first call only |
| `ForecastWorker.Worker.RunForecast` | monitoring/ai/power_forecast.py:161-207 | one call takes its reading iff it is newer than the guard's time, with the backfill first if it is the first call, and then adds one prediction per sensor on the window just entered; a skipped reading adds none |
| `ForecastCalls.DeliveryEffect` | monitoring/ai/gas_forecast.py:144-181 | a reading no newer than the guard's time changes nothing; any other moves the guard, enters every sensor's window of its key, and makes one prediction per sensor on the window just entered |
| `ForecastCalls.StreamWindow` | monitoring/ai/gas_forecast.py:144-181 | over every stream, from any state, a window holds the last points of what it held and the strictly newest readings since |
| `ForecastCalls.StreamCalls` | monitoring/ai/gas_forecast.py:144-181 | over every stream, from any state, the predictions added are one per sensor for each strictly newest reading, in order, each on the window of that moment |
| `ForecastCalls.BackfillCalls` | monitoring/ai/gas_forecast.py:92-130 | a restart makes one prediction per sensor of every stored key, on the window of its last two hundred rows, and none while replaying |
| `ForecastCalls.WorkerCalls` | monitoring/ai/gas_forecast.py:77-181 | all predictions of a worker, cold or restarted: those of the backfill, then those of the readings taken |
| `ForecastWorker.SeriesKeysAreDistinct` | monitoring/ai/power_forecast.py:62-68 | series keys of channels whose codes have no slash are equal iff device and channel are |
| `ForecastWorker.KeysCollideIff` | monitoring/ai/power_forecast.py:62-68 | all collisions there are: two series share a key iff they are the same or one channel code ends in the other after a slash and the device ids differ by just that part |
| `LocationLinks.EveryRunIsConsistent` | facilities/signals.py:119-244 | over every run of saves and deletes on both sides, protected and failing ones included: links are one-to-one, keys unique, and every linked location pair agrees on name, floor and active flag |
| `LocationLinks.SaveNodeKeeps` | facilities/signals.py:119-166 | a node save keeps that, whether it creates, updates or fails on the other side |
| `LocationLinks.SaveDeviceKeeps` | facilities/signals.py:185-220 | a device save keeps it |
| `LocationLinks.DeletesKeep` | facilities/signals.py:169-244 | deletes keep it, with either side protected |
| `LocationLinks.SecondNodeSaveIsIdle` | facilities/signals.py:151-166 | saving a node again as stored changes neither table |
| `LocationLinks.SecondDeviceSaveIsIdle` | facilities/signals.py:206-220 | saving a device again as stored changes neither table |
| `LocationLinks.StepAlignsIff` | facilities/signals.py:189-190 | from tables whose pairs of all kinds agree, one operation keeps that iff it does not save a device of another kind with something its node does not show |
| `LocationLinks.OtherKindsAgreeIff` | facilities/signals.py:119-244 | over every run, pairs of all kinds agree at every step iff no such save happens |
| `LocationLinks.RenamedMeterDrifts` | facilities/signals.py:189-190 | it happens: a three-step run leaves a node showing a name its power device no longer has |
| `LocationSync.Registry.SaveNodeRow` | facilities/signals.py:119-166 | the nested handlers, cut short by the guard, have exactly the one-step effect of a node save, creation and link included; the guard is released and suppresses at most one inner handler |
| `LocationSync.Registry.SaveDeviceRow` | facilities/signals.py:185-220 | the same for a device save |
| `LocationSync.Registry.DeleteNodeRow` | facilities/signals.py:169-182 | the same for a node delete |
| `LocationSync.Registry.DeleteDeviceRow` | facilities/signals.py:223-244 | the same for a device delete, whose handler runs before the row goes |
| `LocationSync.Registry.NodeSaved` | facilities/signals.py:119-166 | the node handler: nothing under the guard, otherwise the node's follow-up |
| `LocationSync.Registry.DeviceSaved` | facilities/signals.py:185-220 | the device handler |
| `LocationSync.Registry.NodeDeleted` | facilities/signals.py:169-182 | the node delete handler; a protected device survives |
| `LocationSync.Registry.DeviceDeleting` | facilities/signals.py:223-244 | the device delete handler; a protected node survives |
| `LocationEffects.NodeSaveHasEffect` | facilities/signals.py:119-166 | a node save field by field: refused iff the code or link is taken or the linked device does not exist; a linked device shows the node's name, floor and activity; an unlinked node gets a new location device with its code as code and uid, and the link to it, unless there is no facility or the uid is taken |
| `LocationEffects.DeviceSaveHasEffect` | facilities/signals.py:185-220 | a device save field by field: refused iff the uid is taken; a location device's node shows its name, floor and activity; a new one without a node gets one with its code and a link, unless the code is taken |
| `LocationEffects.NodeDeleteHasEffect` | facilities/signals.py:169-182 | deleting a node takes its device along iff that is not protected, and nothing else; a protected node stays |
| `LocationEffects.DeviceDeleteHasEffect` | facilities/signals.py:223-244 | deleting a device takes its node along iff it is a location device and the node is not protected; a node that stays loses its link |
| `LocationEffects.EveryStepHasEffect` | facilities/signals.py:119-244 | after every run of saves and deletes, the next operation has exactly that effect on both tables |
| `Codes.PaddedReadsBack` | manager/views.py:1853 | the zero-padded form parses back to its number, beyond three digits too |
| `Codes.PaddedSize` | manager/views.py:1853 | three digits below a thousand, from there on as many as needed without a leading zero |
| `Codes.CodesAreInjective` | manager/views.py:1853 | different numbers have different codes |
| `Codes.SearchFindsCode` | manager/views.py:1852 | the search for taken numbers finds the number of every code |
| `Codes.SearchIff` | manager/views.py:1852 | for any text: found iff prefix, hyphen and a digit stand somewhere, and then the number of all the digits at the leftmost such place |
| `Codes.NextNumber` | manager/views.py:1850-1853 | the next number exceeds every number found and its code is taken by none of the uids searched |
| `Renumbering.TemporariesAreApart` | facilities/migrations/0012_unify_loc_codes.py:25-53 | temporary values are pairwise different and never look like a final code |
| `Renumbering.PlanIsGood` | facilities/migrations/0012_unify_loc_codes.py:33-63 | every device is renumbered at most once and the numbers increase |
| `Renumbering.PlanCovers` | facilities/migrations/0012_unify_loc_codes.py:33-45 | a device is renumbered iff it is a location device or linked to a node |
| `Renumbering.CleanStateIsSafe` | facilities/migrations/0012_unify_loc_codes.py:17-63 | from any state without temporary codes and without LOC- uids on other kinds of devices, no update collides |
| `Renumbering.Migration.SetNodeCode` | facilities/migrations/0012_unify_loc_codes.py:25 | one row update under the unique constraint: refused iff another row holds the code |
| `Renumbering.Migration.SetDeviceCode` | facilities/migrations/0012_unify_loc_codes.py:50-53 | one device update, refused iff another row holds the uid |
| `Renumbering.Migration.RenumberNodes` | facilities/migrations/0012_unify_loc_codes.py:22-28 | codes stay unique at every update and end as LOC-1 to LOC-n in id order |
| `Renumbering.Migration.RenumberDevices` | facilities/migrations/0012_unify_loc_codes.py:33-63 | uids stay unique at every update; linked devices end with their node's number, orphans with the numbers after the nodes |
| `Renumbering.Migration.Forward` | facilities/migrations/0012_unify_loc_codes.py:17-63 | the migration gets through iff no row is written a value another row holds, and then node i and its device hold number i, unlinked location devices the numbers after the nodes, and all others what they held |
| `Renumbering.PlanIsRenumbered` | facilities/migrations/0012_unify_loc_codes.py:17-63 | the final numbering row by row: node i and its device get number i, location devices without a node the next numbers in id order, all other devices stay as they were |
| `GridGeometry.LocatedOnGrid` | facilities/services/floor_grid_maker.py:61-85 | a point gets an index iff it is on the closed floor; the index is in range, its cell contains the clamped point and its centre is within half a cell and the margin per axis |
| `GridGeometry.RowMajor` | facilities/services/grid_coordinate_to_index.py:30-44 | column and row survive the trip through the index, which is in range |
| `GridGeometry.IndexRoundTrip` | facilities/services/grid_index_to_coordinate.py:12-25 | an index survives the trip through column and row, which are in range |
| `GridGeometry.SnapRoundTrip` | facilities/services/floor_grid_maker.py:89-105 | locating a cell's centre finds the cell again iff the centre is on the floor, and nothing otherwise |
| `GridGeometry.SnapOnFloorIff` | facilities/services/grid_point_snapper.py:20-36 | for every size and index: a centre is on the floor iff it is off the last column or the last column has its centre on the floor, and the same for rows |
| `GridGeometry.AllSnapsOnFloorIff` | facilities/services/grid_point_snapper.py:20-36 | all centres are on the floor iff those of the last column and the last row are |
| `GridGeometry.SnapAlwaysOnFloor` | facilities/services/grid_point_snapper.py:20-36 | sides that are whole multiples of the cell size are enough for that |
| `GridGeometry.SnapCanMissFloor` | facilities/services/grid_point_snapper.py:20-36 | it can fail: a concrete floor whose last column has its centre outside |
| `GridGeometry.AllCellsExact` | facilities/services/grid_cell_generator.py:16-40 | the generated list contains a cell iff column and row are in range and its index is theirs |
| `GridCache.StepIsSoundIff` | facilities/signals.py:43-77 | each operation keeps every cache current or about to be dropped, and the table as wanted or about to be regenerated, iff it is no creation or deletion of the FloorGrid row or a harmless one |
| `GridCache.HarmlessIff` | facilities/signals.py:68-77 | creating and deleting the row queue nothing; both are harmless iff the cell size in force stays, or a regeneration is queued, or no response survives and the table is empty or has the new number of columns and rows |
| `GridCache.EveryRunIsSoundIff` | facilities/repositories/index_grid_reader.py:33-69 | over every run of a new floor, tasks in any order and entries expiring at any time: sound at every step iff every creation and deletion of the row is harmless where it happens |
| `GridCache.RecreatedGridShowsOldCells` | facilities/signals.py:68-77 | it happens on any floor: set up and shown, its row deleted and created again with another size, it keeps showing default cells and nothing is queued |
| `GridCache.TasksDrain` | facilities/tasks.py:14-70 | running any queued task leaves less work, regenerations queueing two more included |
| `GridCache.WantedIsAllCells` | facilities/services/floor_grid_maker.py:134-166 | the wanted table is the generated cell list |
| `GridCache.WantedView` | facilities/repositories/index_grid_reader.py:56-67 | maximum plus one recovers columns and rows, and the total is their product |
| `GridCache.DrainedIsExact` | facilities/repositories/index_grid_reader.py:33-69 | in a sound state with rows and an empty queue, the reader and the response give exactly the grid of the current sizes |
| `GridCache.DrainedRunIsExact` | facilities/repositories/index_grid_reader.py:33-69 | over every run with a set-up in it and only harmless creations and deletions of the row: once the tasks have drained, the reader and the response give exactly the grid of the current sizes, and set-up changes no row |
| `GridServed.StepHasEffect` | facilities/signals.py:43-77 | the whole effect of each operation on sizes, image, cell size, rows, both caches and the queue |
| `GridServed.EveryRunHoldsLastSaved` | facilities/signals.py:43-77 | over every run the floor holds width, length and image of the last save and the cell size of the last grid save, one metre before any and after a deletion |
| `GridServed.LastSavedIsServed` | facilities/repositories/index_grid_reader.py:33-69 | over every run with a set-up in it and only harmless creations and deletions of the row: once the tasks have drained, readers get exactly the cells that cover the floor as saved last, numbered row by row, and the response carries the values saved last |
| `GridStore.Store.SaveFloor` | facilities/signals.py:43-60 | Floor.save with both handlers is one step of the run for its floor and no other |
| `GridStore.Store.SaveGrid` | facilities/signals.py:63-77 | FloorGrid.save queues a regeneration iff an existing row changed its cell size |
| `GridStore.Store.DeleteGrid` | facilities/signals.py:63-77 | deletion is one step without a task; the store stays sound iff it is harmless |
| `GridStore.Store.BulkCreate` | facilities/repositories/index_grid_writer.py:13-36 | insertion in index order keeps rows that are already there |
| `GridStore.Store.SetupIndexGrid` | facilities/services/floor_grid_maker.py:134-147 | set-up: FloorGrid row, missing cells, one invalidation |
| `GridStore.Store.RunQueued` | facilities/tasks.py:14-70 | a worker runs one queued task: drop both caches, or delete and rebuild the table |
| `GridStore.Store.LargestPlusOne` | facilities/repositories/index_grid_reader.py:56-61 | one pass over the rows in any order finds the bounds of columns and rows |
| `GridStore.Store.GetFullGrid` | facilities/repositories/index_grid_reader.py:33-69 | the cached view, or the table's view which is then cached |
| `GridStore.Store.FloorGridData` | facilities/views.py:188-234 | the cached response, or one built from the grid view and then cached; nothing is cached without cells |
| `SlidingWindow.DeviceBuffers.Push` | monitoring/anomaly/window.py:31-38 | after any pushes each buffer is the last sixty measured values of its gas in order |
| `SlidingWindow.DeviceBuffers.InitFromDb` | monitoring/anomaly/window.py:89-111 | reloading equals pushing the last n rows |
| `SlidingWindow.DeviceBuffers.Get` | monitoring/anomaly/window.py:41-54 | the newest n of the last sixty measured values, oldest first, after a reload iff the gas has never been measured; for n = 0 all sixty |
| `SlidingWindow.DeviceBuffers.GetVectors` | monitoring/anomaly/window.py:57-79 | rows pair the j-th buffered entries of all gases, after a reload iff all buffers are empty |
| `SlidingWindow.FilledCompose` | monitoring/anomaly/window.py:31-38 | two batches fill a buffer like one |
| `WindowRows.SourceIff` | monitoring/anomaly/window.py:31-38 | a reading brought the p-th value of a gas iff it measured the gas and p values came before |
| `WindowRows.RowOfReading` | monitoring/anomaly/window.py:69-79 | a row whose entries come from one reading is that reading's values |
| `WindowRows.RowsAreReadingsIff` | monitoring/anomaly/window.py:57-79 | every returned row is one reading iff there are none, or a stretch of readings that each measure all gases or none takes every gas from the first returned position to the end of the shortest buffer |
| `WindowRows.VectorsAreReadings` | monitoring/anomaly/window.py:69-79 | when the last sixty readings are complete, whatever came before, the vectors are exactly the last of them in order |
| `WindowRows.MissingValueMisaligns` | monitoring/anomaly/window.py:69-79 | it happens: one missing value and the only row pairs gases of two different readings |
| `SlidingWindow.ReloadDoublesOthers` | monitoring/anomaly/window.py:49-51 | asking for a gas that was never measured appends the stored rows to the other gases again |
| `SlidingWindow.GetKeepsOtherIff` | monitoring/anomaly/window.py:49-51 | asking for one gas leaves another gas's buffer as it was iff there is no reload, or the reload brings no value of the other gas, or the full buffer repeats itself at that distance |
| `ChangePoint.ChangedByProducts` | monitoring/anomaly/changepoint.py:64-71 | the test without quotients: means three spreads of the older half apart, or either half three times as spread out as the other |
| `ChangePoint.DecisionIff` | monitoring/anomaly/changepoint.py:56-71 | on the sixty values: a change iff the means of the newer and the older thirty are three spreads of the older thirty apart, or either half is three times as spread out as the other |
| `ChangePoint.ShiftOfNewerHalf` | monitoring/anomaly/changepoint.py:64-71 | with the halves within a factor of three in spread, moving only the newer half is a change iff its mean gets three spreads of the older half away |
| `ChangePoint.MeanOfParts` | monitoring/anomaly/changepoint.py:59-61 | the mean of a single value is that value, and means of parts combine by size: no other mean does |
| `ChangePoint.TwoLevels` | monitoring/anomaly/changepoint.py:60-62 | as many values at m - d as at m + d have mean m and standard deviation d |
| `ChangePoint.StdIsUnique` | monitoring/anomaly/changepoint.py:59-62 | a standard deviation is determined by its values, however it is computed |
| `ChangePoint.DecisionIgnoresOffset` | monitoring/anomaly/changepoint.py:56-71 | adding a constant to all sixty values never changes the decision |
| `ChangePoint.DecisionIgnoresOrder` | monitoring/anomaly/changepoint.py:56-71 | permuting either half never changes it |
| `ChangePoint.ConstantNeverChanges` | monitoring/anomaly/changepoint.py:64-71 | a constant window never triggers |
| `ChangePoint.EventsAreEdges` | monitoring/anomaly/changepoint.py:73-83 | events are exactly the rising and falling edges of the decision |
| `ChangePoint.EventsAlternate` | monitoring/anomaly/changepoint.py:73-83 | over every run they alternate, CHANGE_POINT first, and SHIFT means one is unanswered |
| `ChangePoint.EventsBalance` | monitoring/anomaly/changepoint.py:73-83 | SHIFT iff one more CHANGE_POINT than BACK_TO_STABLE was reported |
| `ChangePoint.Detector.DetectGas` | monitoring/anomaly/changepoint.py:50-83 | a full window yields a change iff the newer thirty values are three spreads of the older thirty away or the spreads differ by a factor of three, and the event of the record; a short window yields nothing |
| `ChangePoint.Detector.Detect` | monitoring/anomaly/changepoint.py:40-101 | every gas of the list with a full window gets exactly one decision, all other records are unchanged |
| `Retention.NextDeletion` | alerts/tasks.py:694-707 | from every Gregorian date the next deletion day comes within 1, 31 or 92 days, by schedule |
| `Retention.ScheduledDays` | alerts/tasks.py:694-707 | which days each schedule means: the first, the fourteenth day after it, the day before a first, the day before a quarter's first |
| `Retention.MonthLengths` | alerts/tasks.py:701-706 | the month lengths of the Gregorian calendar |
| `Retention.BoundedLag` | alerts/tasks.py:663-764 | with daily runs and rows stamped on insert, what the table holds is, right up to the next run, no older than its retention plus that gap |
| `Retention.QuarterlyGapIsTight` | alerts/tasks.py:704-706 | the 92 days are reached, every year, from June 30 |
| `Retention.RemovedIff` | alerts/tasks.py:712-764 | a row goes iff some policy that is carried out and due today finds it older than its days: never early, never kept |
| `Retention.KeptIff` | alerts/tasks.py:712-764 | a row of a table stays iff every policy acting on it that is due finds it within its origin days, or history days unless it is a raw policy; of the event policies only the first acts |
| `Retention.WarnsIff` | alerts/tasks.py:725-756 | a policy warns iff it acts and its table holds a row from before now that is older than its days less seven |
| `Retention.OnePolicyIsRunDay` | alerts/tasks.py:712-764 | with one policy on a table the job is the run of the lag result |
| `Retention.DeletedWereWarned` | alerts/tasks.py:725-761 | every deleted row was in the warning set of its policy in the same run |
| `Retention.RetentionJob.Run` | alerts/tasks.py:709-764 | one run over the policies; of the event policies only the first is carried out |
| `FenceFreshness.FenceBoard.UpdateFromGas` | facilities/services/geofence_service.py:58-131 | a reading older than 120 seconds or without a place changes nothing; a safe one turns the fence off; any other leaves an active circle at the sensor with its severity, three metres for a warning and five for a danger |
| `FenceFreshness.FenceBoard.DeactivateStale` | facilities/services/geofence_service.py:155-176 | exactly the stale active automatic fences go off, and the count is their number |
| `FenceFreshness.SweepLeavesFresh` | facilities/services/geofence_service.py:155-176 | after a sweep every active automatic fence with a device id has a fresh reading |
| `FenceFreshness.StaysOffIff` | facilities/services/geofence_service.py:58-131 | a fence that is off stays off throughout a run iff no step is a fresh dangerous reading under its name |
| `FenceFreshness.SweptStaysOff` | facilities/services/geofence_service.py:58-176 | a fence swept off for staleness is not revived by any number of later updates from stored readings, whatever newer readings other sensors send |
| `FenceFreshness.SharedNameRevives` | facilities/services/geofence_service.py:91-95 | two sensors of one floor with the same name share a fence, and one revives the other's |

## Left out

- Web views other than the cached grid response, serializers, templates, websockets, Slack, Discord, metrics and the browser code: input and output.
- The prediction engine (ARIMA, Isolation Forest, forecast policy): not part of this model. Its windows are modelled; what it concludes arrives as an input.
- Races between database transactions: each handler, task or service call is one atomic step, and what a transaction queues on commit is part of the step.
- Float rounding and the rounding of reported numbers: arithmetic is over exact reals, and a standard deviation is any function that returns the non-negative root of the variance.
- Message texts, the user who acts, and title parts that no query reads: titles are modelled where they are matched.
- `get_thresholds`: the table it builds is a parameter, and the graders are proved to agree for every table; the two callers may be given different scopes.
- `create_alarm_event` with its first notification, and the deletion of rules, devices or events under existing events.
- The clean-up of event histories and the map editor's bulk save: they deliberately bypass the invariants shown here.
- Exceptions inside the prediction engine and a backfill that fails midway: the worker then starts cold or keeps a marked timestamp.
- The sentinel value -1 for unmeasured power values: decoding it to an absent value happens before the model's rows.
- Time zone parsing of payload timestamps: a parsed time or its absence is a parameter.
- Floors with negative sides or without a positive cell size, on which the program divides by zero or generates nothing; retries of failed tasks.
- Moving a FloorGrid row from one floor to another.
- The cache keys of a floor: the two entries are two fields of the floor's record, since the keys differ by construction.
- The outer map from device ids to buffers, and a device's lazily created default entry: one object per device stands for it.
- Digits outside ASCII in the code searches and in `device_id=` descriptions.
- Several fence rows with one floor and name, which the database allows: the raising branch then raises an exception and the lowering branch switches all of them off; the model has one row per floor and name.
- Sensors with several active map positions, on which the fence update raises an exception.
- The order among events with equal time of origin: the look-up may return any of them.
- Other migrations, account, dashboard and safety pages, and the data generators: plain records or easy members.
- LocationLinks.EveryRunIsConsistent: promises agreement for location devices only, because the code does not reflect other kinds; LocationLinks.OtherKindsAgreeIff gives the exact condition for all kinds.
- Codes.NextNumber: looks at the uids of one device type, as the code does, so a code may still be taken by a device of another type.
- Renumbering.Migration.Forward: stops at the first refused update and says nothing about the transaction's rollback.
- Retention.BoundedLag: is about one active policy per table and runs at the same time every day.
- FenceFreshness.SweptStaysOff: assumes that no other sensor of the floor has the same name; FenceFreshness.StaysOffIff gives the exact condition without that.
- NotificationCooldown.Notifier.SendAllNotifications: assumes a clock that does not run backwards between attempts.
- AlarmHistory.EveryRunIsSourced: covers the event's status and closing time, not who acknowledged it.
- AlarmTitles.EveryTitleIsKnown: is about runs whose signals carry labels and channel codes without brackets and spaces, as all those of the detectors, the engine and the channel model are.
