/** An end-to-end run of the location trigger: a car reports a position inside
    a square depot, reports it again, then reports a position outside. The
    first report is an entry, the second is quiet, the third is an exit. */
module Scenario {
  import opened Common
  import opened Gps
  import opened Geometry
  import opened Records
  import opened Transition
  import opened Dispatch
  import opened Pipeline

  function Car(): Device { Device("d1", "car", "u1") }

  function DepotCorners(): seq<Vertex>
  {
    [Corner(0.0, 0.0), Corner(0.0, 10.0), Corner(10.0, 10.0), Corner(10.0, 0.0)]
  }

  function Depot(): Geofence { Geofence("g1", "Depot", "d1", "u1", true, DepotCorners()) }

  function Reading(lat: real, lng: real): Payload
  {
    Object(GpsFields(Number(Finite(lat)), Number(Finite(lng)), Undefined, Undefined, Undefined, None))
  }

  /** The owner's document, holding one push token. */
  function OwnerDoc(): UserDoc { UserDoc(["tok1"]) }

  /** The store before the first report: the car, its depot, the owner's
      document, nothing logged and nothing notified. */
  function Initial(): Store { Store([Car()], [Depot()], [], map["u1" := OwnerDoc()], []) }

  /** Any event for the car with a valid reading finds the car and evaluates
      exactly the depot. */
  lemma CarEventRunsDepot(payload: Payload, store: Store, now: int, env: Env)
    requires store.devices == [Car()] && store.geofences == [Depot()]
    requires ValidateGps(payload, env.parse).Valid?
    ensures FindDevice(store.devices, "car") == Some(Car())
    ensures Filter(store.geofences, ActiveFor(Car())) == [Depot()]
  {
    assert [Depot()][1..] == [];
    assert [Car()][1..] == [];
  }

  /** A reading in range, given as two finite numbers, passes validation as it is. */
  lemma ReadingValid(lat: real, lng: real, parse: Parser)
    requires -90.0 <= lat <= 90.0 && -180.0 <= lng <= 180.0
    ensures ValidateGps(Reading(lat, lng), parse) == Valid(lat, lng)
  {
  }

  /** Any event for the car with a valid reading is processed over the one
      depot, and its dispatches are those of its changes. */
  lemma CarEventProcessed(payload: Payload, store: Store, now: int, env: Env)
    requires store.devices == [Car()] && store.geofences == [Depot()]
    requires ValidateGps(payload, env.parse).Valid?
    ensures var r := GeofenceChangeStatus("car", payload, store, now, env);
      && r.0.Processed? && |r.0.changes| <= 1
      && Notified(store, "car", now, env.send, r)
  {
    CarEventRunsDepot(payload, store, now, env);
    var r := GeofenceChangeStatus("car", payload, store, now, env);
    assert r.0.geofenceCount == 1;
  }

  /** The first report inside the depot is an entry with no previous status. */
  lemma FirstReportEnters(env: Env)
    requires forall id :: env.statusReadOk(id)
    ensures var r := GeofenceChangeStatus("car", Reading(5.0, 5.0), Initial(), 1000, env);
      && r.0.Processed?
      && |r.0.changes| == 1
      && r.0.changes[0].action == Enter && r.0.changes[0].previousStatus == "unknown"
      && |r.1.logs| == 1 && r.1.logs[0].status == "inside" && r.1.logs[0].timestamp == 1000
      && ForPair(r.1.logs[0], "d1", "g1")
      && r.1.devices == [Car()] && r.1.geofences == [Depot()]
      && |r.1.notifications| == 1
      && r.1.notifications[0].action == "enter" && r.1.notifications[0].geofenceName == "Depot"
      && r.1.notifications[0].ownerId == "u1" && r.1.notifications[0].deviceId == "d1"
      && r.1.notifications[0].totalTokens == 1
  {
    var store, payload := Initial(), Reading(5.0, 5.0);
    ReadingValid(5.0, 5.0, env.parse);
    CarEventRunsDepot(payload, store, 1000, env);
    SquareExample();
    var ctx := EventContext("car", payload, store, 1000, env);
    assert Previous(ctx, Depot()) == None;
    assert IsTransition(ctx, Depot());
    assert [Depot()][1..] == [];
    assert Filter([Depot()], Transitions(ctx)) == [Depot()];
    LoopRunsWhenOwned("car", payload, store, 1000, env);
    var ev := EvaluateAll(ctx, [Depot()], store.users, store.notifications);
    assert ev.changes == [SummaryFor(ctx, Depot())];
    assert ev.batch == [LogFor(ctx, Depot())];
    FirstReportNotifies(env);
  }

  /** The entry into the depot is announced to the owner's one token. */
  lemma FirstReportNotifies(env: Env)
    requires forall id :: env.statusReadOk(id)
    ensures var r := GeofenceChangeStatus("car", Reading(5.0, 5.0), Initial(), 1000, env);
      && r.0.Processed?
      && |r.1.notifications| == |r.0.changes|
      && (|r.0.changes| == 1 && r.0.changes[0].action == Enter && r.0.changes[0].geofenceName == "Depot" ==>
            && r.1.notifications[0].action == "enter" && r.1.notifications[0].geofenceName == "Depot"
            && r.1.notifications[0].ownerId == "u1" && r.1.notifications[0].deviceId == "d1"
            && r.1.notifications[0].totalTokens == 1)
  {
    ReadingValid(5.0, 5.0, env.parse);
    CarEventProcessed(Reading(5.0, 5.0), Initial(), 1000, env);
    CarNotified(GeofenceChangeStatus("car", Reading(5.0, 5.0), Initial(), 1000, env), env);
  }

  /** What the dispatch of an event for the car, with at most one change,
      leaves: one record per change, the record of the change for the owner. */
  lemma CarNotified(r: (Outcome, Store), env: Env)
    requires Notified(Initial(), "car", 1000, env.send, r) && |r.0.changes| <= 1
    ensures |r.1.notifications| == |r.0.changes|
    ensures |r.0.changes| == 1 ==>
      && r.1.notifications[0].action == ActionText(r.0.changes[0].action)
      && r.1.notifications[0].geofenceName == r.0.changes[0].geofenceName
      && r.1.notifications[0].ownerId == "u1" && r.1.notifications[0].deviceId == "d1"
      && r.1.notifications[0].totalTokens == 1
  {
    assert FindDevice(Initial().devices, "car") == Some(Car());
    if |r.0.changes| == 1 {
      OneChangeOneRecord(Initial(), "car", 1000, env.send, r);
    } else {
      assert r.1.notifications == [];
    }
  }

  /** The same report a minute later is quiet. */
  lemma SecondReportIsQuiet(env: Env)
    requires forall id :: env.statusReadOk(id)
    ensures var first := GeofenceChangeStatus("car", Reading(5.0, 5.0), Initial(), 1000, env);
      var second := GeofenceChangeStatus("car", Reading(5.0, 5.0), first.1, 61000, env);
      second.0.Processed? && |second.0.changes| == 0 && second.1.logs == first.1.logs
  {
    FirstReportEnters(env);
    RepeatedReadingIsQuiet("car", Reading(5.0, 5.0), Initial(), 1000, 61000, env);
  }

  /** With the depot's latest entry saying inside, a report outside the
      depot is an exit whose change reports the previous status as inside. */
  lemma LeavingDepotExits(store: Store, now: int, env: Env)
    requires forall id :: env.statusReadOk(id)
    requires store.devices == [Car()] && store.geofences == [Depot()]
    requires |store.logs| == 1 && ForPair(store.logs[0], "d1", "g1") && store.logs[0].status == "inside"
    ensures var r := GeofenceChangeStatus("car", Reading(20.0, 20.0), store, now, env);
      && r.0.Processed?
      && |r.0.changes| == 1
      && r.0.changes[0].action == Exit && r.0.changes[0].previousStatus == "inside"
      && |r.1.logs| == 2 && r.1.logs[1].status == "outside" && r.1.logs[1].timestamp == now
  {
    var payload := Reading(20.0, 20.0);
    ReadingValid(20.0, 20.0, env.parse);
    CarEventRunsDepot(payload, store, now, env);
    SquareExample();
    var ctx := EventContext("car", payload, store, now, env);
    assert LatestIndex(store.logs, "d1", "g1") == 0 by {
      assert store.logs[..0] == [];
    }
    assert Previous(ctx, Depot()) == Some(true);
    assert IsTransition(ctx, Depot());
    assert [Depot()][1..] == [];
    assert Filter([Depot()], Transitions(ctx)) == [Depot()];
    LoopRunsWhenOwned("car", payload, store, now, env);
    var ev := EvaluateAll(ctx, [Depot()], store.users, store.notifications);
    assert ev.changes == [SummaryFor(ctx, Depot())];
    assert ev.batch == [LogFor(ctx, Depot())];
  }

  /** The third report, outside the depot, is an exit from it. */
  lemma ThirdReportExits(env: Env)
    requires forall id :: env.statusReadOk(id)
    ensures var first := GeofenceChangeStatus("car", Reading(5.0, 5.0), Initial(), 1000, env);
      var second := GeofenceChangeStatus("car", Reading(5.0, 5.0), first.1, 61000, env);
      var third := GeofenceChangeStatus("car", Reading(20.0, 20.0), second.1, 121000, env);
      && third.0.Processed?
      && |third.0.changes| == 1
      && third.0.changes[0].action == Exit && third.0.changes[0].previousStatus == "inside"
  {
    var first := GeofenceChangeStatus("car", Reading(5.0, 5.0), Initial(), 1000, env);
    var second := GeofenceChangeStatus("car", Reading(5.0, 5.0), first.1, 61000, env);
    AfterSecondReport(env);
    LeavingDepotExits(second.1, 121000, env);
  }

  /** After the first two reports the store holds the car, the depot and the
      one entry saying the car is inside the depot. */
  lemma AfterSecondReport(env: Env)
    requires forall id :: env.statusReadOk(id)
    ensures var first := GeofenceChangeStatus("car", Reading(5.0, 5.0), Initial(), 1000, env);
      var second := GeofenceChangeStatus("car", Reading(5.0, 5.0), first.1, 61000, env);
      && second.1.devices == [Car()] && second.1.geofences == [Depot()]
      && |second.1.logs| == 1 && ForPair(second.1.logs[0], "d1", "g1") && second.1.logs[0].status == "inside"
  {
    FirstReportEnters(env);
    SecondReportIsQuiet(env);
  }
}
