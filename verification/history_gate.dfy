/** The driving-history gate (`shouldLogHistoryEntry` in
    functions/test_interval_logic.js): a new position is logged when there is
    no previous entry, or when at least 15 minutes have passed since the last
    entry and the vehicle has moved at least 50 metres. The clock and the
    haversine distance are parameters. */
module HistoryGate {
  import opened Common

  /** 15 minutes in milliseconds. */
  const MinIntervalMs: int := 900000

  /** 50 metres in kilometres. */
  const MinDistanceKm: real := 0.05

  datatype Location = Location(latitude: real, longitude: real)

  /** The last history entry. `createdAt` is `None` when it does not parse as
      a date, so that the elapsed time is NaN; `location` is `None` when it
      is missing. */
  datatype HistoryEntry = HistoryEntry(createdAt: Option<int>, location: Option<Location>)

  /** Why the decision was taken. The source also formats the elapsed
      minutes and the metres moved into the reason text. */
  datatype Reason = FirstEntry | TooSoon | NotMoved | CriteriaMet | ErrorDefault

  /** The decision record. `timeDiff` is `None` where the source's value is NaN. */
  datatype LogDecision = LogDecision(should: bool, reason: Reason, timeDiff: Option<int>, distance: real)

  /** The haversine distance, in kilometres, from a stored location to the
      new reading. */
  type Distance = Location -> real

  /** `Date.now() - lastTimestamp.getTime()`: NaN for an unparsable date. */
  function Elapsed(entry: HistoryEntry, now: int): Option<int>
  {
    if entry.createdAt.Some? then Some(now - entry.createdAt.value) else None
  }

  /** `timeDiff < 900000`; a NaN difference compares false. */
  predicate TooSoonAfter(timeDiff: Option<int>)
  {
    timeDiff.Some? && timeDiff.value < MinIntervalMs
  }

  function ShouldLogHistoryEntry(last: Option<HistoryEntry>, now: int, distanceTo: Distance): (d: LogDecision)
    ensures last.None? ==> d.should && d.reason == FirstEntry && d.timeDiff == Some(0) && d.distance == 0.0
    ensures last.Some? && last.value.createdAt.Some? && now - last.value.createdAt.value < 900000 ==>
      !d.should && d.reason == TooSoon && d.distance == 0.0
    ensures last.Some? && d.should && d.reason != ErrorDefault ==>
      && (last.value.createdAt.None? || now - last.value.createdAt.value >= 900000)
      && last.value.location.Some?
      && distanceTo(last.value.location.value) >= 0.05
      && d.distance == distanceTo(last.value.location.value)
    ensures !d.should ==> d.reason == TooSoon || (d.reason == NotMoved && d.distance < 0.05)
    ensures d.reason == ErrorDefault ==> d.should && last.Some? && last.value.location.None?
    ensures last.Some? && last.value.location.Some? && d.should ==> d.reason == CriteriaMet
    ensures last.Some? && d.reason != ErrorDefault ==>
      && (d.timeDiff.Some? <==> last.value.createdAt.Some?)
      && (d.timeDiff.Some? ==> d.timeDiff.value == now - last.value.createdAt.value)
    ensures d.reason == ErrorDefault ==> d.timeDiff == Some(0) && d.distance == 0.0
  {
    match last
    case None => LogDecision(true, FirstEntry, Some(0), 0.0)
    case Some(entry) =>
      var timeDiff := Elapsed(entry, now);
      if TooSoonAfter(timeDiff) then LogDecision(false, TooSoon, timeDiff, 0.0)
      else
        match entry.location
        case None => LogDecision(true, ErrorDefault, Some(0), 0.0)
        case Some(loc) =>
          var distance := distanceTo(loc);
          if distance < MinDistanceKm then LogDecision(false, NotMoved, timeDiff, distance)
          else LogDecision(true, CriteriaMet, timeDiff, distance)
  }

  /** The policy the gate implements, stated on its own: a position is logged
      unless a previous entry is known to be younger than 15 minutes, or it is
      known that the vehicle moved less than 50 metres since. */
  predicate Admits(last: Option<HistoryEntry>, now: int, distanceTo: Distance)
  {
    match last
    case None => true
    case Some(entry) =>
      && (entry.createdAt.None? || entry.createdAt.value + 900000 <= now)
      && (entry.location.None? || distanceTo(entry.location.value) >= 0.05)
  }

  /** The gate decides exactly as the policy says. */
  lemma GateFollowsPolicy(last: Option<HistoryEntry>, now: int, distanceTo: Distance)
    ensures ShouldLogHistoryEntry(last, now, distanceTo).should <==> Admits(last, now, distanceTo)
  {
  }

  /** Exactly 15 minutes passes the time gate: the comparison is strict. */
  lemma FifteenMinutesExactlyPasses(entry: HistoryEntry, now: int, distanceTo: Distance)
    requires entry.createdAt == Some(now - 900000) && entry.location.Some?
    requires distanceTo(entry.location.value) >= 0.05
    ensures ShouldLogHistoryEntry(Some(entry), now, distanceTo) ==
      LogDecision(true, CriteriaMet, Some(900000), distanceTo(entry.location.value))
  {
  }

  /** A position that is logged now would also be logged later. */
  lemma WaitingLongerNeverBlocks(last: Option<HistoryEntry>, now: int, later: int, distanceTo: Distance)
    requires now <= later
    requires ShouldLogHistoryEntry(last, now, distanceTo).should
    ensures ShouldLogHistoryEntry(last, later, distanceTo).should
  {
    GateFollowsPolicy(last, now, distanceTo);
    GateFollowsPolicy(last, later, distanceTo);
  }

  /** A position that is logged would also be logged had the vehicle moved further. */
  lemma MovingFurtherNeverBlocks(last: Option<HistoryEntry>, now: int, near: Distance, far: Distance)
    requires forall loc: Location :: near(loc) <= far(loc)
    requires ShouldLogHistoryEntry(last, now, near).should
    ensures ShouldLogHistoryEntry(last, now, far).should
  {
    GateFollowsPolicy(last, now, near);
    GateFollowsPolicy(last, now, far);
  }

  /** The scenarios of the interval test: an entry 5 minutes old is too soon
      however far the vehicle moved; for one 16 minutes old, a reading at the
      same place is not logged and one about 200 metres away is. */
  lemma IntervalScenarios(loc: Location, now: int, distanceTo: Distance)
    ensures ShouldLogHistoryEntry(Some(HistoryEntry(Some(now - 300000), Some(loc))), now, distanceTo).reason == TooSoon
    ensures distanceTo(loc) == 0.0 ==>
      ShouldLogHistoryEntry(Some(HistoryEntry(Some(now - 960000), Some(loc))), now, distanceTo).reason == NotMoved
    ensures distanceTo(loc) == 0.2 ==>
      ShouldLogHistoryEntry(Some(HistoryEntry(Some(now - 960000), Some(loc))), now, distanceTo).reason == CriteriaMet
  {
  }
}
