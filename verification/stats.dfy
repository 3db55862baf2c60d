/** Geofence statistics (`getgeofencestats` in functions/index.js): for the
    caller's device over the last `days` days, count the transitions, the
    entries, the exits and the distinct geofences triggered, and report each
    active geofence's latest status. */
module Stats {
  import opened Common
  import opened Records
  import opened Transition

  const MillisPerDay: int := 86400000

  /** The period used when the request gives none. */
  const DefaultDays: int := 7

  datatype GeofenceStats = GeofenceStats(
    totalEvents: nat, enterEvents: nat, exitEvents: nat, geofencesTriggered: nat,
    period: int, deviceId: string)

  datatype CurrentStatus = CurrentStatus(geofenceId: string, geofenceName: string, status: string)

  datatype StatsError = AuthenticationRequired | DeviceIdRequired

  datatype StatsResult =
    | StatsOk(stats: GeofenceStats, currentStatus: seq<CurrentStatus>)
    | StatsFailed(error: StatsError)

  /** `[...new Set(ids)]`: each value once, in order of first occurrence. */
  function Dedupe(ids: seq<string>): (r: seq<string>)
    ensures forall x :: x in r <==> x in ids
    ensures Distinct(r)
    ensures |r| <= |ids|
    decreases |ids|
  {
    if |ids| == 0 then []
    else
      var n := |ids| - 1;
      var seen := Dedupe(ids[..n]);
      assert ids == ids[..n] + [ids[n]];
      if ids[n] in seen then seen else seen + [ids[n]]
  }

  /** The number of distinct values equals the size of their set. */
  lemma DedupeCountsDistinct(ids: seq<string>)
    ensures |Dedupe(ids)| == |set x | x in ids|
  {
    var r := Dedupe(ids);
    DistinctCardinality(r);
    assert (set x | x in r) == (set x | x in ids);
  }

  function HasAction(action: string): LogEntry -> bool
  {
    (l: LogEntry) => l.action == action
  }

  function GeofenceIdOf(l: LogEntry): string { l.geofenceId }

  function ActionOf(l: LogEntry): string { l.action }

  /** The entries with a given action are as many as the occurrences of
      that action among the entries' actions. */
  lemma {:induction false} CountsByAction(logs: seq<LogEntry>, action: string)
    ensures |Filter(logs, HasAction(action))| == multiset(MapSeq(logs, ActionOf))[action]
    decreases |logs|
  {
    if |logs| > 0 {
      CountsByAction(logs[1..], action);
      assert MapSeq(logs, ActionOf) == [logs[0].action] + MapSeq(logs[1..], ActionOf);
    }
  }

  /** What the `stats` object says about the selected entries: how many there
      are, how many record an entry and how many an exit, how many distinct
      geofences they name, and the period and device asked for. */
  predicate Describes(s: GeofenceStats, logs: seq<LogEntry>, period: int, deviceId: string)
  {
    && s.totalEvents == |logs|
    && s.enterEvents == multiset(MapSeq(logs, ActionOf))["enter"]
    && s.exitEvents == multiset(MapSeq(logs, ActionOf))["exit"]
    && s.geofencesTriggered == |set l | l in logs :: l.geofenceId|
    && s.period == period && s.deviceId == deviceId
  }

  /** `[...new Set(logs.map(log => log.geofenceId))].length` is the number of
      distinct geofence ids, zero exactly when there are no entries. */
  lemma DistinctIdsCounted(logs: seq<LogEntry>)
    ensures var n := |Dedupe(MapSeq(logs, GeofenceIdOf))|;
      && n == |set l | l in logs :: l.geofenceId|
      && n <= |logs|
      && (n == 0 <==> |logs| == 0)
  {
    var ids := MapSeq(logs, GeofenceIdOf);
    DedupeCountsDistinct(ids);
    assert (set x | x in ids) == (set l | l in logs :: l.geofenceId) by {
      forall x | x in ids ensures x in (set l | l in logs :: l.geofenceId) {
        var i :| 0 <= i < |ids| && ids[i] == x;
        assert logs[i] in logs;
      }
      forall l | l in logs ensures l.geofenceId in ids {
        var i :| 0 <= i < |logs| && logs[i] == l;
        assert ids[i] == l.geofenceId;
      }
    }
    assert |logs| > 0 ==> ids[0] in ids;
  }

  /** The `stats` object computed over the selected log entries. */
  function CountStats(logs: seq<LogEntry>, period: int, deviceId: string): (s: GeofenceStats)
    ensures Describes(s, logs, period, deviceId)
    ensures s.enterEvents + s.exitEvents <= s.totalEvents
    ensures (forall l :: l in logs ==> l.action == "enter" || l.action == "exit") ==>
      s.enterEvents + s.exitEvents == s.totalEvents
    ensures s.geofencesTriggered <= s.totalEvents
    ensures s.geofencesTriggered == 0 <==> |logs| == 0
  {
    DisjointFiltersFit(logs, HasAction("enter"), HasAction("exit"));
    CountsByAction(logs, "enter");
    CountsByAction(logs, "exit");
    DistinctIdsCounted(logs);
    GeofenceStats(
      |logs|, |Filter(logs, HasAction("enter"))|, |Filter(logs, HasAction("exit"))|,
      |Dedupe(MapSeq(logs, GeofenceIdOf))|, period, deviceId)
  }

  /** The log query `where deviceId, where ownerId == uid, where timestamp >= startDate`. */
  function InWindow(deviceId: string, uid: string, start: int): LogEntry -> bool
  {
    (l: LogEntry) => l.deviceId == deviceId && l.ownerId == uid && l.timestamp >= start
  }

  /** The period asked for, 7 days when the request gives none. */
  function Period(days: Option<int>): int
  {
    if days.Some? then days.value else DefaultDays
  }

  /** The log entries the statistics are computed over: the caller's entries
      for the device, written at most `period` whole days before `now`. */
  function Selected(logs: seq<LogEntry>, deviceId: string, uid: string, period: int, now: int): seq<LogEntry>
  {
    Filter(logs, InWindow(deviceId, uid, now - period * MillisPerDay))
  }

  /** The geofence query `where deviceId, where ownerId == uid, where status == true`. */
  function ActiveOf(deviceId: string, uid: string): Geofence -> bool
  {
    (g: Geofence) => g.deviceId == deviceId && g.ownerId == uid && g.active
  }

  /** The status of the geofence's latest log entry of the device, or "unknown". */
  function LatestStatusText(logs: seq<LogEntry>, deviceId: string, geofenceId: string): (t: string)
    ensures (t == "unknown" && forall k :: 0 <= k < |logs| ==> !ForPair(logs[k], deviceId, geofenceId)) ||
            exists i :: IsLatest(logs, i, deviceId, geofenceId) && t == logs[i].status
  {
    var i := LatestIndex(logs, deviceId, geofenceId);
    if i == -1 then "unknown" else logs[i].status
  }

  function StatusOf(logs: seq<LogEntry>, deviceId: string): Geofence -> CurrentStatus
  {
    (g: Geofence) => CurrentStatus(g.id, g.name, LatestStatusText(logs, deviceId, g.id))
  }

  /** The callable. `uid` is the caller's authenticated user id, if any; an
      empty `deviceId` is missing; `days` defaults to 7. The window starts
      `days` whole days before `now`. */
  function GetGeofenceStats(uid: Option<string>, deviceId: string, days: Option<int>, now: int,
                            logs: seq<LogEntry>, geofences: seq<Geofence>): (r: StatsResult)
    ensures uid.None? ==> r == StatsFailed(AuthenticationRequired)
    ensures uid.Some? && deviceId == "" ==> r == StatsFailed(DeviceIdRequired)
    ensures uid.Some? && deviceId != "" ==> r.StatsOk?
    ensures r.StatsOk? ==>
      var counted := Selected(logs, deviceId, uid.value, Period(days), now);
      && Describes(r.stats, counted, Period(days), deviceId)
      && r.stats.enterEvents + r.stats.exitEvents <= r.stats.totalEvents
      && r.stats.geofencesTriggered <= r.stats.totalEvents
    ensures r.StatsOk? ==>
      var active := Filter(geofences, ActiveOf(deviceId, uid.value));
      && |r.currentStatus| == |active|
      && forall i :: 0 <= i < |active| ==>
           && r.currentStatus[i].geofenceId == active[i].id && r.currentStatus[i].geofenceName == active[i].name
           && r.currentStatus[i].status == LatestStatusText(logs, deviceId, active[i].id)
  {
    if uid.None? then StatsFailed(AuthenticationRequired)
    else if deviceId == "" then StatsFailed(DeviceIdRequired)
    else
      var period := Period(days);
      var stats := CountStats(Selected(logs, deviceId, uid.value, period, now), period, deviceId);
      var active := Filter(geofences, ActiveOf(deviceId, uid.value));
      StatsOk(stats, MapSeq(active, StatusOf(logs, deviceId)))
  }

  /** The counts over two batches of log entries: the event counts add up,
      and the distinct geofences of the whole are at most those of the parts. */
  lemma StatsOfAppend(a: seq<LogEntry>, b: seq<LogEntry>, period: int, deviceId: string)
    ensures var s, sa, sb := CountStats(a + b, period, deviceId), CountStats(a, period, deviceId), CountStats(b, period, deviceId);
      && s.totalEvents == sa.totalEvents + sb.totalEvents
      && s.enterEvents == sa.enterEvents + sb.enterEvents
      && s.exitEvents == sa.exitEvents + sb.exitEvents
      && s.geofencesTriggered <= sa.geofencesTriggered + sb.geofencesTriggered
  {
    FilterAppend(a, b, HasAction("enter"));
    FilterAppend(a, b, HasAction("exit"));
    var ia, ib := set l | l in a :: l.geofenceId, set l | l in b :: l.geofenceId;
    assert (set l | l in a + b :: l.geofenceId) == ia + ib;
  }

  /** An entry older than the window is never counted. */
  lemma OldEntriesNotCounted(logs: seq<LogEntry>, deviceId: string, uid: string, start: int, e: LogEntry)
    requires e.timestamp < start
    ensures e !in Filter(logs, InWindow(deviceId, uid, start))
  {
  }

  /** A longer period counts at least as many events. */
  lemma {:induction false} LongerPeriodCountsMore(logs: seq<LogEntry>, deviceId: string, uid: string, start: int, earlier: int)
    requires earlier <= start
    ensures |Filter(logs, InWindow(deviceId, uid, start))| <= |Filter(logs, InWindow(deviceId, uid, earlier))|
    decreases |logs|
  {
    if |logs| > 0 {
      LongerPeriodCountsMore(logs[1..], deviceId, uid, start, earlier);
    }
  }
}
