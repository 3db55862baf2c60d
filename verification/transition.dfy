/** Transition detection: the previous status of a (device, geofence) pair
    (`getPreviousGeofenceStatus` in functions/index.js) and the comparison
    with the current containment result. */
module Transition {
  import opened Common
  import opened Records

  datatype Action = Enter | Exit

  /** The log entry belongs to the (device, geofence) pair. */
  predicate ForPair(e: LogEntry, deviceId: string, geofenceId: string)
  {
    e.deviceId == deviceId && e.geofenceId == geofenceId
  }

  /** `logs[i]` is a most recent entry of the pair. */
  predicate IsLatest(logs: seq<LogEntry>, i: int, deviceId: string, geofenceId: string)
  {
    0 <= i < |logs| && ForPair(logs[i], deviceId, geofenceId) &&
    forall k :: 0 <= k < |logs| && ForPair(logs[k], deviceId, geofenceId) ==> logs[k].timestamp <= logs[i].timestamp
  }

  /** The position of the entry the query `where deviceId, where geofenceId,
      orderBy timestamp desc, limit 1` returns, or -1 when it returns nothing.
      Among entries with equal timestamps the later-written one is chosen. */
  function LatestIndex(logs: seq<LogEntry>, deviceId: string, geofenceId: string): (r: int)
    ensures r == -1 <==> forall k :: 0 <= k < |logs| ==> !ForPair(logs[k], deviceId, geofenceId)
    ensures r != -1 ==> IsLatest(logs, r, deviceId, geofenceId)
    decreases |logs|
  {
    if |logs| == 0 then -1
    else
      var n := |logs| - 1;
      var i := LatestIndex(logs[..n], deviceId, geofenceId);
      assert forall k :: 0 <= k < n ==> logs[..n][k] == logs[k];
      if ForPair(logs[n], deviceId, geofenceId) && (i == -1 || logs[i].timestamp <= logs[n].timestamp) then n
      else i
  }

  /** The most recent log entry of the pair, if any. */
  function LatestLog(logs: seq<LogEntry>, deviceId: string, geofenceId: string): Option<LogEntry>
  {
    var i := LatestIndex(logs, deviceId, geofenceId);
    if i == -1 then None else Some(logs[i])
  }

  /** `true` for inside, `false` for outside, `None` when the pair has no log
      entry or the read fails (`readOk` is false). */
  function PreviousStatus(logs: seq<LogEntry>, readOk: bool, deviceId: string, geofenceId: string): (r: Option<bool>)
    ensures r.None? <==> !readOk || forall k :: 0 <= k < |logs| ==> !ForPair(logs[k], deviceId, geofenceId)
    ensures r.Some? ==>
      exists i :: IsLatest(logs, i, deviceId, geofenceId) && r.value == (logs[i].status == "inside")
  {
    if !readOk then None
    else
      match LatestLog(logs, deviceId, geofenceId)
      case None => None
      case Some(last) => Some(last.status == "inside")
  }

  /** The strict comparison `previousStatus !== isCurrentlyInside`: an unknown
      previous status always differs from the current one. */
  predicate Changed(previous: Option<bool>, current: bool)
    ensures Changed(previous, current) <==> (previous.None? || previous == Some(!current))
  {
    assert previous.Some? ==> previous == Some(previous.value) && (previous.value == current || previous.value == !current);
    previous != Some(current)
  }

  function ActionFor(inside: bool): Action
  {
    if inside then Enter else Exit
  }

  /** The status string written to the log. */
  function StatusText(inside: bool): string
  {
    if inside then "inside" else "outside"
  }

  /** The lower-case action string written to the log and the notification. */
  function ActionText(a: Action): string
  {
    match a
    case Enter => "enter"
    case Exit => "exit"
  }

  /** The `previousStatus` string reported in a change summary. */
  function PreviousText(previous: Option<bool>): string
  {
    match previous
    case None => "unknown"
    case Some(inside) => StatusText(inside)
  }

  /** The action, the status string and the containment always agree. */
  lemma ActionMatchesStatus(inside: bool)
    ensures ActionFor(inside) == Enter <==> inside
    ensures StatusText(inside) == "inside" <==> inside
    ensures ActionText(ActionFor(inside)) == "enter" <==> StatusText(inside) == "inside"
  {
  }

  /** Entries of other pairs do not affect a pair's latest entry. */
  lemma {:induction false} LatestIgnoresOtherPairs(logs: seq<LogEntry>, extra: seq<LogEntry>, deviceId: string, geofenceId: string)
    requires forall k :: 0 <= k < |extra| ==> !ForPair(extra[k], deviceId, geofenceId)
    ensures LatestLog(logs + extra, deviceId, geofenceId) == LatestLog(logs, deviceId, geofenceId)
    decreases |extra|
  {
    if |extra| > 0 {
      var shorter := extra[..|extra| - 1];
      assert (logs + extra)[..|logs + extra| - 1] == logs + shorter;
      LatestIgnoresOtherPairs(logs, shorter, deviceId, geofenceId);
    } else {
      assert logs + extra == logs;
    }
  }

  /** An entry no older than every entry of its pair becomes the pair's latest
      once it is followed only by entries of other pairs. */
  lemma {:induction false} NewestEntryIsLatest(logs: seq<LogEntry>, e: LogEntry, extra: seq<LogEntry>)
    requires forall k :: 0 <= k < |logs| && ForPair(logs[k], e.deviceId, e.geofenceId) ==> logs[k].timestamp <= e.timestamp
    requires forall k :: 0 <= k < |extra| ==> !ForPair(extra[k], e.deviceId, e.geofenceId)
    ensures LatestLog(logs + [e] + extra, e.deviceId, e.geofenceId) == Some(e)
  {
    LatestIgnoresOtherPairs(logs + [e], extra, e.deviceId, e.geofenceId);
    var all := logs + [e];
    assert all[..|all| - 1] == logs;
    var rest := LatestLog(logs, e.deviceId, e.geofenceId);
    if rest.Some? {
      var i :| IsLatest(logs, i, e.deviceId, e.geofenceId) && logs[i] == rest.value;
    }
  }
}
