# Geofence transition detection, in Dafny

This project models the server side of a vehicle-tracking system's geofence
alerts, written as Firebase Cloud Functions. A device's GPS unit writes a
reading to `/devices/{name}/gps`. The `geofencechangestatus` trigger then
does the following:

- validates the reading;
- resolves the device and its owner;
- tests the point against every active polygon of the device (ray casting);
- compares the result with the latest logged status;
- for every transition, appends an `enter`/`exit` entry to `geofence_logs` and
  pushes a notification to every token of the owner;
- prunes tokens that the push service reports as dead.

The model also covers three smaller parts:

- the statistics callable `getgeofencestats`;
- the notification cooldown query of the delivery test script;
- the 15-minute / 50-metre gate that decides whether a driving-history entry
  is written.

Everything is modelled as pure functions over immutable values.

- The Firestore collections are sequences and maps, held in `Pipeline.Store`.
- The clock is a `now` parameter, in milliseconds.
- Three things come from outside and are parameters:
  - `parseFloat`;
  - the push transport, modelled as each token's send outcome;
  - whether the previous-status read of a geofence succeeds.

Modules, one per component:

| module | file | models |
|---|---|---|
| `Common` | common.dfy | `Option`, order-preserving `Filter`/`MapSeq`, subsequences, distinctness |
| `Gps` | gps.dfy | `validateGPSData`, including JavaScript `typeof`, NaN and ±Infinity |
| `Geometry` | geometry.dfy | `isPointInPolygon`, including the falsy-zero fallback between vertex field names |
| `Records` | records.dfy | the device, geofence, log, user and notification documents |
| `Transition` | transition.dfy | `getPreviousGeofenceStatus` and the `!==` change test |
| `Dispatch` | dispatch.dfy | `sendGeofenceNotification` and `cleanupInvalidFCMTokens` |
| `Pipeline` | pipeline.dfy | the `geofencechangestatus` trigger end to end |
| `Stats` | stats.dfy | the counting part of `getgeofencestats` |
| `Cooldown` | cooldown.dfy | the cooldown query of `testCooldownLogic` |
| `HistoryGate` | history_gate.dfy | `shouldLogHistoryEntry` |
| `Scenario` | scenario.dfy | a car entering a square depot, staying, then leaving it |

Two choices the model makes:

- **No cooldown gate in the trigger.** Where the repository's scripts and
  the trigger disagree, the model follows the trigger. The delivery test script queries a
  cooldown, labelled "This would be your actual cooldown function"
  (test_notification_delivery.js:174-187). The spam-prevention script stubs
  one (test_fcm_spam_prevention.js:114-125). But the trigger calls
  `sendGeofenceNotification` for every detected transition with no such
  check (functions/index.js:241-250). The cooldown rule is therefore
  modelled on its own (`Cooldown`), from the delivery test script.
- **Ties in the latest-log query.** The query returns "the latest entry by
  timestamp", and Firestore leaves the order of equal timestamps open.
  `Transition.LatestIndex` resolves ties in favour of the later-written
  entry.

## Model

| member | source | states |
|---|---|---|
| `Gps.ValidateGps` | functions/index.js:310-382 | Valid results are in range and are exactly what the first matching naming convention reads as. Every in-range reading is accepted. Each error comes back exactly when its check is the first to fail, in the source's order: a non-object payload; no matching pair, or a part of it that is not a number after the string conversion; a NaN part; a latitude outside [-90, 90]; then a longitude outside [-180, 180]. ±Infinity counts as out of range. |
| `Gps.SelectPair` | functions/index.js:322-341 | The chain of `if`s picks the same pair as trying the five naming conventions in order, and both fields of the chosen pair are defined. |
| `Gps.LocationOnlyAsFallback` | functions/index.js:323-341 | Once a top-level pair matches, the nested `location` object cannot change the outcome. |
| `Gps.FieldPrecedence` | functions/index.js:323-331 | `latitude/longitude` wins over `lat/lng`, which wins over `lat/lon`. |
| `Gps.AbbreviatedStringsExample` | functions/index.js:326-345 | `{lat: "10.5", lng: "-20.25"}` is accepted as (10.5, -20.25). |
| `Gps.RejectionExamples` | functions/index.js:347-375 | Latitude 95 is rejected as out of range. `{}` has no coordinates. An infinite longitude is out of range. |
| `Gps.CheckOrderExamples` | functions/index.js:347-368 | `{latitude: null, longitude: null}` is missing/invalid. A latitude of 95 next to a longitude that parses as NaN is reported as NaN, not as out of range. |
| `Geometry.Fallback` | functions/index.js:399-402 | JavaScript's falsy fallback: the first field unless it is absent or zero, then the second, then 0. A non-zero result comes from one of the fields. |
| `Geometry.Crosses` | functions/index.js:406 | An edge counts as crossed only if it straddles the ray's latitude, half-open at the lower end. This is why the division never divides by zero. |
| `Geometry.IsPointInPolygon` | functions/index.js:390-412 | The toggling loop returns the parity of the crossed edges, pairing each vertex with its predecessor, cyclically. Fewer than three vertices are never inside. |
| `Geometry.NorthOfAllVerticesIsOutside` | functions/index.js:404-409 | A point at or above every vertex is outside. |
| `Geometry.SouthOfAllVerticesIsOutside` | functions/index.js:404-409 | A point strictly below every vertex is outside. |
| `Geometry.EastOfAllVerticesIsOutside` | functions/index.js:404-409 | A point at or east of every vertex is outside: the eastward ray meets no edge. |
| `Geometry.EdgeWestOfPointIsNotCrossed` | functions/index.js:406 | Where an edge straddles the ray, it meets the ray between its ends' longitudes. So an edge entirely west of the point is never crossed. |
| `Geometry.NoCrossings` | functions/index.js:397-411 | When no edge is crossed, the count is zero. |
| `Geometry.SquareExample` | functions/index.js:390-412 | (5, 5) is inside the 10×10 square and (20, 20) is outside it. |
| `Transition.LatestIndex` | functions/index.js:422-428 | The query returns nothing exactly when the pair has no entry. Otherwise it returns an entry of the pair at least as recent as every other. |
| `Transition.PreviousStatus` | functions/index.js:420-440 | The result is unknown exactly when the read fails or the pair has no entry. Otherwise it is "the latest entry's status is `inside`". |
| `Transition.Changed` | functions/index.js:208 | `previousStatus !== isCurrentlyInside` holds exactly when the previous status is unknown or is the opposite. |
| `Transition.ActionMatchesStatus` | functions/index.js:211-212 | ENTER, `inside` and "currently inside" always coincide. |
| `Transition.LatestIgnoresOtherPairs` | functions/index.js:422-428 | Appending entries of other (device, geofence) pairs does not change a pair's latest entry. |
| `Transition.NewestEntryIsLatest` | functions/index.js:422-433 | An entry at least as recent as its pair's others becomes the latest, when only other pairs' entries follow it. |
| `Dispatch.FanOut` | functions/index.js:524-550 | Each token is tried once. The delivered tokens are those whose send succeeded, in order. The invalid ones are exactly those failing with one of the two registration errors. No token is both. |
| `Dispatch.TallyExtends` | functions/index.js:524-550 | Trying one more token adds it to the delivered tokens exactly when its send succeeded, and to the invalid tokens exactly when it failed with a registration error. |
| `Dispatch.CleanupTokens` | functions/index.js:590-614 | The new token list keeps every other token with its multiplicity, and in order. It drops every invalid token and adds nothing. |
| `Dispatch.CleanupIdempotent` | functions/index.js:597-600 | Pruning twice by the same invalid list equals pruning once. |
| `Dispatch.SendGeofenceNotification` | functions/index.js:453-583 | A missing owner document or an empty token list means no record and no change. Otherwise one record is written. It copies the request's owner, device, device identifier and name, geofence name and location, with the action in lower case, the message "<device> has entered/exited <geofence>", `now` and `read == false`. `totalTokens` is the token count and `sentToTokens` counts the successful sends, so it is ≤ `totalTokens`. The owner's list loses every occurrence of each invalid token and keeps every other occurrence, in order. When no token is invalid, no document changes. Other users are untouched. |
| `Dispatch.PruneOwner` | functions/index.js:552-555 | The owner's new list holds each token as often as before, unless the transport rejected it as invalid, and then not at all. Order is kept. Nothing is written when no token was rejected. |
| `Dispatch.DispatchAll` | functions/index.js:241-250 | Dispatching a sequence of requests, in order, keeps the owner keys, only appends notification records, and appends at most one per request. |
| `Dispatch.KeptTokenSurvives` | functions/index.js:524-571 | A dispatch to an owner holding a token the transport does not reject writes a record of the request, and that token stays on the owner's list. |
| `Dispatch.EveryRequestRecorded` | functions/index.js:241-250 | When all requests go to one owner who holds a token the transport does not reject, each request writes its own record, in order, each describing its request. |
| `Dispatch.ThreeTokensOneUnregistered` | functions/index.js:524-571 | With three tokens, the second of them unregistered, two are delivered out of three, and the second is pruned. |
| `Pipeline.FindDevice` | functions/index.js:104-122 | `where name == key limit 1`: the first device with that name, or nothing exactly when no device has it. |
| `Pipeline.LogFor` | functions/index.js:210-234 | A transition's log entry (`LogOf`) names the device by id, by the key it reports under and by display name (the name, or the key when the name is empty). It also names the geofence by id and name and names the device's owner. It carries the reading's latitude and longitude and is stamped `now`. Its status is "inside" exactly when the point is inside and "outside" exactly when it is not. Its action is likewise "enter" or "exit". |
| `Pipeline.SummaryFor` | functions/index.js:251-265 | A change summary carries the geofence's id and name. Its action agrees with the containment. Its status is "inside" exactly when the point is inside and "outside" exactly when it is not. `previousStatus` is "unknown" exactly when no previous status could be read. Otherwise it is "inside" or "outside" as the previous status was. |
| `Pipeline.EvaluateAll` | functions/index.js:164-268 | The loop emits one log entry, one summary and one notification request for each valid-polygon geofence whose status changed, in query order. It emits nothing for the others. The owner documents and notification records it leaves are exactly those of dispatching its requests one after another. So owner keys are kept and records are only appended. |
| `Pipeline.RequestsAnnounceChanges` | functions/index.js:241-263 | The loop's notification requests are the announcements of its reported changes, one per change, in order: each names the change's geofence and action, with the event's device, owner, position and time. |
| `Pipeline.RunLoop` | functions/index.js:160-287 | Once a valid reading of an owned device has active geofences, the event is processed over exactly those geofences at the reading's position. The store it leaves is a commit as the predicate `Pipeline.Committed` defines it. Its owner documents and records are those of one dispatch per reported change, as the predicate `Pipeline.Notified` defines it. |
| `Pipeline.GeofenceChangeStatus` | functions/index.js:78-298 | Invalid readings are reported exactly when they occur, with the validator's error. Unknown devices are reported exactly when no device has the name. Every outcome but a processed one leaves the store unchanged. A processed event is a commit (`Pipeline.Committed`): devices, geofences and owner keys are untouched, the old logs and notifications stay as prefixes, and one log entry per reported change is appended, stamped `now`, whose status agrees with its action and its change. It also dispatches one notification request per reported change, in order (`Pipeline.Notified`). |
| `Pipeline.OutcomeClassification` | functions/index.js:124-161 | For a valid reading of a known device: the event stops as ownerless exactly when the owner id is empty. It ends with no active geofences exactly when the device is owned and no geofence of its owner is active. Otherwise it is processed over at least one geofence. |
| `Pipeline.SuccessExactlyWhenOwned` | functions/index.js:124-161 | The result reports `success: true` exactly when the reading is valid and the device is found and owned. This covers both the no-active-geofences return and the processed one (lines 152 and 277). |
| `Pipeline.ProcessedNotifiesEachChange` | functions/index.js:241-250 | When the owner holds a token the transport does not reject, a processed event writes exactly one notification record per reported change, in order. Each record names the change's geofence and action, the device, the owner and `now`, and is unread. No cooldown suppresses any of them. |
| `Pipeline.NotifiedRecordsEachChange` | functions/index.js:241-250 | Take any outcome whose dispatches are one announcement per reported change, where the owner holds a token the transport does not reject. It has exactly one new record per change, in order. Each record names the change's geofence and action, the device and its owner, and `now`, and is unread. |
| `Pipeline.OneChangeOneRecord` | functions/index.js:241-250 | A processed event with one change, for an owner holding tokens, writes exactly one record. That record is the record of the change's announcement, and its token total is the number of the owner's tokens. |
| `Pipeline.MatchingBatchCommits` | functions/index.js:268-274 | Appending a batch whose k-th entry is stamped `now` and records the k-th change is a commit in the sense above. |
| `Pipeline.BatchMatchesChanges` | functions/index.js:210-268 | The k-th batched log entry and the k-th change describe the same geofence and the same transition. |
| `Pipeline.CommittedEntryIsLatest` | functions/index.js:420-440 | After the commit, the entry just written for a pair is that pair's latest, when earlier entries are older. |
| `Pipeline.BatchEntriesOfGeofence` | functions/index.js:168-268 | With unique geofence ids, a geofence's batch entries are the ones written for its own transition. |
| `Pipeline.QuietWhenChanged` | functions/index.js:196-210 | A geofence that changed reads back its new status at the next event. |
| `Pipeline.QuietWhenUnchanged` | functions/index.js:196-210 | A geofence that did not change keeps its previous status. |
| `Pipeline.QuietAfterCommit` | functions/index.js:196-210 | After the commit, the same reading is no transition for any active geofence. |
| `Pipeline.ProcessedRanLoop` | functions/index.js:160-283 | A processed event ran the loop over the device's active geofences and committed exactly its batch. |
| `Pipeline.LoopRunsWhenOwned` | functions/index.js:124-283 | A valid reading of an owned device with active geofences is processed. It commits only when there are changes. |
| `Pipeline.NoTransitionIsQuiet` | functions/index.js:207-283 | When no active geofence changed, nothing is logged. |
| `Pipeline.RepeatedReadingIsQuiet` | functions/index.js:164-287 | The same reading processed a second time logs nothing: a stay inside or outside is announced once. |
| `Scenario.FirstReportEnters` | functions/index.js:164-287 | A first reading inside the 10×10 depot, with no history, is one ENTER change with previous status "unknown". It logs one `inside` entry stamped `now`, and writes one "enter" notification for the Depot to the owner, counting the owner's one token. |
| `Scenario.FirstReportNotifies` | functions/index.js:241-250 | The first report writes as many notification records as changes. The record for an ENTER into the Depot is an "enter" record for the car and its owner, counting one token. |
| `Scenario.SecondReportIsQuiet` | functions/index.js:164-287 | The same reading a minute later is processed with no change, and the log is unchanged. |
| `Scenario.LeavingDepotExits` | functions/index.js:164-287 | When the depot's latest entry says inside, a reading at (20, 20) is one EXIT change with previous status "inside". It appends an `outside` entry. |
| `Scenario.ThirdReportExits` | functions/index.js:164-287 | Over the three readings (inside, inside again, outside), the third is an EXIT from the depot. |
| `Cooldown.CanSendNotification` | test_notification_delivery.js:175-187 | Sending is allowed exactly when no record has the same device and the same geofence name within the window. Equivalently, it is blocked exactly when such a record is at most `minutes × 60000` ms older than `now`. |
| `Cooldown.OtherPairsNeverBlock` | test_notification_delivery.js:181-182 | Records of another device or another geofence name never block. |
| `Cooldown.ExpiredRecordsNeverBlock` | test_notification_delivery.js:183-187 | Records older than the cutoff never block. |
| `Cooldown.RecordAtCutoffBlocks` | test_notification_delivery.js:183 | A record stamped exactly at the cutoff blocks (`>=`). |
| `Cooldown.AddingRecordsOnlyBlocks` | test_notification_delivery.js:179-187 | The records together are clear exactly when both parts are, so adding records never unblocks. |
| `Cooldown.LongerWindowBlocksMore` | test_notification_delivery.js:175-183 | A longer window blocks whenever a shorter one does. |
| `Cooldown.TwoMinuteWindowExample` | test_notification_delivery.js:175-187 | With a 2-minute window, a record 1 minute old blocks and one 3 minutes old does not. |
| `HistoryGate.ShouldLogHistoryEntry` | functions/test_interval_logic.js:38-113 | With no previous entry, the result is "first entry" and logged, with `timeDiff` 0. A known age under 900000 ms means not logged, with distance 0, whatever the movement. A logged decision with a prior entry met both thresholds, unless the fallback to logging on error applied. With a stored location that decision is "criteria met". Outside the error fallback, `timeDiff` is the elapsed time since the last entry, or NaN when its date does not parse. The fallback reports 0 for both time and distance. |
| `HistoryGate.GateFollowsPolicy` | functions/test_interval_logic.js:44-103 | The gate logs exactly when the stated 15-minute / 50-metre policy admits the entry. |
| `HistoryGate.FifteenMinutesExactlyPasses` | functions/test_interval_logic.js:56 | An entry exactly 900000 ms old passes the time gate. |
| `HistoryGate.WaitingLongerNeverBlocks` | functions/test_interval_logic.js:52-65 | A position logged now would also be logged later. |
| `HistoryGate.MovingFurtherNeverBlocks` | functions/test_interval_logic.js:68-85 | A position logged would also be logged had the vehicle moved further. |
| `HistoryGate.IntervalScenarios` | functions/test_interval_logic.js:128-173 | The test's scenarios: 5 minutes is too soon; after 16 minutes, no movement is not logged and about 200 m is. |
| `Stats.Dedupe` | functions/index.js:722-723 | `[...new Set(ids)]` has the same members as the input, with no repetitions, and is no longer than the input. |
| `Stats.DedupeCountsDistinct` | functions/index.js:722-723 | Its length is the number of distinct ids. |
| `Stats.CountStats` | functions/index.js:718-726 | `totalEvents` counts the entries. `enterEvents` and `exitEvents` are the numbers of occurrences of "enter" and "exit" among the entries' actions. Their sum is ≤ `totalEvents`, with equality when every action is enter or exit. `geofencesTriggered` is the number of distinct geofence ids, is at most `totalEvents`, and is 0 only when there are no entries. |
| `Stats.CountsByAction` | functions/index.js:720-721 | `logs.filter(log => log.action === a).length` is the number of occurrences of `a` among the entries' actions. |
| `Stats.DistinctIdsCounted` | functions/index.js:722-723 | The deduplicated id list is as long as the set of geofence ids, no longer than the entries, and empty only when there are none. |
| `Stats.LatestStatusText` | functions/index.js:739-749 | The status is "unknown" when the pair has no entry. Otherwise it is the status of a latest entry. |
| `Stats.GetGeofenceStats` | functions/index.js:689-762 | A missing caller fails with "Authentication required", and a missing device id fails next. Otherwise the statistics describe the caller's entries for the device in the last `days` days (default 7): their number, their "enter" and "exit" counts, and their distinct geofences. For each active geofence, in order, it reports the id, the name and the status of the latest entry of the pair, or "unknown". |
| `Stats.StatsOfAppend` | functions/index.js:718-723 | The event counts add up over two batches of entries. The distinct-geofence count is at most the sum of the parts. |
| `Stats.OldEntriesNotCounted` | functions/index.js:702-712 | An entry older than the window is not counted. |
| `Stats.LongerPeriodCountsMore` | functions/index.js:702-712 | A longer period counts at least as many entries. |

## Left out

- Firebase plumbing is replaced by values and parameters: trigger registration, the queries, `batch.commit`, `FieldValue.serverTimestamp` and `new Date()`. The server timestamp and the event time are the same instant, `now`.
- The push payload decoration (functions/index.js:491-522) is static configuration. `messaging.send` is a foreign call, modelled only as each token's outcome. So a token listed twice gets the same outcome twice.
- `Pipeline.Env`: the send outcome of a token and the success of a geofence's status read are fixed functions for a whole model run. So every dispatch of an event, and every event of `Scenario`, sees the same outcome for a given token or geofence. A send throttled once and delivered on a later dispatch, or a status read that fails once and then succeeds, cannot be expressed.
- The stubs `processdrivinghistory`, `cleanupdrivinghistory` and `querydrivinghistory` (functions/index.js:17-68) contain no logic.
- `querygeofencelogs` (functions/index.js:619-680) is a plain authorised range query.
- `parseFloat`'s prefix parsing is an abstract parser: any string may map to any number, NaN included.
- The haversine `calculateDistance` (functions/test_interval_logic.js:24-36) is floating-point trigonometry. It is a parameter of the history gate.
- Arithmetic is exact real arithmetic, so the floating-point rounding of the crossing test is not modelled.
- Vertex fields are numbers or absent. NaN and string vertex fields are not modelled.
- Logging, console output and the numbers formatted into reason texts are not modelled.
- Concurrent invocations and their read-detect-write race are not modelled.
- The trigger's outer `try/catch` for store failures is not modelled; the one store failure modelled is the previous-status read, which yields an unknown status.
- A failed token-list update inside the cleanup is not modelled.
- `getgeofencestats`: the `days` value is taken as a whole number of 24-hour days. `setDate` on local calendar days (daylight-saving changes) and non-numeric `days` are not modelled.
- A device's `ownerId` is a string, and `""` stands for every falsy owner (missing, `null`, `false`, `0`, the empty string) that the `!ownerId` test at functions/index.js:124 rejects. Other owner values are not distinguished.
- `getgeofencestats`: the caller's user id is a string; an empty device id stands for a missing one.
- `HistoryGate.ShouldLogHistoryEntry`: the only internal error modelled is a missing `location` on the last entry, which is what reaches the `catch` in the code as written. A NaN distance from missing coordinate fields is not modelled.
- The spam-prevention script's `canSendNotification` is a hard-coded mock, not the rule, so it is not modelled.
- The print-only and database-inspection scripts and the Android build file are not modelled.
