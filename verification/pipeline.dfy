/** The location-update trigger (`geofencechangestatus` in functions/index.js):
    validate the reading, resolve the device and its owner, evaluate every
    active geofence of the device, log one entry per transition, dispatch one
    notification per transition, and commit the log entries together. The
    store is an in-memory value; `now` and the external calls are parameters. */
module Pipeline {
  import opened Common
  import opened Gps
  import opened Geometry
  import opened Records
  import opened Transition
  import opened Dispatch

  /** The collections the trigger reads and writes. */
  datatype Store = Store(
    devices: seq<Device>, geofences: seq<Geofence>, logs: seq<LogEntry>,
    users: map<string, UserDoc>, notifications: seq<NotificationRecord>)

  /** What the model takes as given: `parseFloat`, the push transport's
      per-token outcome, and whether the previous-status read of a geofence
      succeeds. */
  datatype Env = Env(parse: Parser, send: Token -> SendOutcome, statusReadOk: string -> bool)

  /** One entry of the `changes` array returned to the caller. */
  datatype ChangeSummary = ChangeSummary(
    geofenceId: string, geofenceName: string, action: Action, status: string, previousStatus: string)

  /** The trigger's result. Only `NoActiveGeofences` and `Processed` report success. */
  datatype Outcome =
    | InvalidGps(error: GpsError)
    | DeviceNotFound
    | DeviceHasNoOwner
    | NoActiveGeofences
    | Processed(geofenceCount: nat, changes: seq<ChangeSummary>, latitude: real, longitude: real)
  {
    predicate Success() { NoActiveGeofences? || Processed? }
  }

  /** What is fixed while the geofences of one event are evaluated. The log
      entries are read as they were before the event: this event's entries
      are only committed after the loop. */
  datatype Context = Context(deviceKey: string, device: Device, pt: Point, logs: seq<LogEntry>, now: int, env: Env)

  /** The device query `where name == key, limit 1`: the first device with that name. */
  function FindDevice(devices: seq<Device>, name: string): (r: Option<Device>)
    ensures r.Some? ==> r.value in devices && r.value.name == name
    ensures r.None? <==> forall d :: d in devices ==> d.name != name
    ensures r.Some? ==>
              exists i :: 0 <= i < |devices| && devices[i] == r.value &&
                          (forall k :: 0 <= k < i ==> devices[k].name != name)
    decreases |devices|
  {
    if |devices| == 0 then None
    else if devices[0].name == name then Some(devices[0])
    else
      var r := FindDevice(devices[1..], name);
      assert forall d :: d in devices[1..] ==> d in devices;
      if r.Some? then
        var i :| 0 <= i < |devices[1..]| && devices[1..][i] == r.value &&
          forall k :: 0 <= k < i ==> devices[1..][k].name != name;
        assert devices[i + 1] == r.value;
        r
      else r
  }

  /** The geofence query `where deviceId, where ownerId, where status == true`. */
  function ActiveFor(device: Device): Geofence -> bool
  {
    (g: Geofence) => g.deviceId == device.id && g.ownerId == device.ownerId && g.active
  }

  /** `deviceData.name || deviceId`. */
  function DeviceName(device: Device, deviceKey: string): string
  {
    if device.name != "" then device.name else deviceKey
  }

  function Previous(ctx: Context, g: Geofence): Option<bool>
  {
    PreviousStatus(ctx.logs, ctx.env.statusReadOk(g.id), ctx.device.id, g.id)
  }

  /** The geofence has a valid polygon and its containment differs from the
      previous status (an unknown previous status always differs). */
  predicate IsTransition(ctx: Context, g: Geofence)
  {
    |g.points| >= 3 && Changed(Previous(ctx, g), Contains(ctx.pt, g.points))
  }

  function Transitions(ctx: Context): Geofence -> bool
  {
    g => IsTransition(ctx, g)
  }

  /** The entry describes a transition of `g` seen by this event: it names the
      device (its id, the key it reports under and its display name), the
      geofence and the device's owner, carries the reading's position and
      `now`, and its status and action both say whether the point is inside. */
  predicate LogOf(e: LogEntry, ctx: Context, g: Geofence)
  {
    && ForPair(e, ctx.device.id, g.id)
    && e.deviceIdentifier == ctx.deviceKey && e.deviceName == DeviceName(ctx.device, ctx.deviceKey)
    && e.geofenceName == g.name && e.ownerId == ctx.device.ownerId
    && e.latitude == ctx.pt.lat && e.longitude == ctx.pt.lng
    && e.timestamp == ctx.now
    && (e.status == "inside") == Contains(ctx.pt, g.points)
    && (e.status == "outside") == !Contains(ctx.pt, g.points)
    && (e.action == "enter") == Contains(ctx.pt, g.points)
    && (e.action == "exit") == !Contains(ctx.pt, g.points)
  }

  /** The log entry written for a transition of `g`. */
  function LogFor(ctx: Context, g: Geofence): (e: LogEntry)
    ensures LogOf(e, ctx, g)
  {
    var inside := Contains(ctx.pt, g.points);
    LogEntry(
      ctx.device.id, ctx.deviceKey, DeviceName(ctx.device, ctx.deviceKey), g.id, g.name, ctx.device.ownerId,
      ActionText(ActionFor(inside)), StatusText(inside), ctx.pt.lat, ctx.pt.lng, ctx.now)
  }

  /** The summary reported for a transition of `g`. */
  function SummaryFor(ctx: Context, g: Geofence): (c: ChangeSummary)
    ensures c.geofenceId == g.id && c.geofenceName == g.name
    ensures (c.action == Enter) == Contains(ctx.pt, g.points)
    ensures (c.status == "inside") == Contains(ctx.pt, g.points)
    ensures (c.status == "outside") == !Contains(ctx.pt, g.points)
    ensures c.previousStatus == "unknown" <==> Previous(ctx, g).None?
    ensures Previous(ctx, g).Some? ==> (c.previousStatus == "inside" <==> Previous(ctx, g).value)
    ensures Previous(ctx, g).Some? ==> (c.previousStatus == "outside" <==> !Previous(ctx, g).value)
  {
    var inside := Contains(ctx.pt, g.points);
    ChangeSummary(g.id, g.name, ActionFor(inside), StatusText(inside), PreviousText(Previous(ctx, g)))
  }

  /** The notification requested for a transition of `g`. */
  function RequestFor(ctx: Context, g: Geofence): Request
  {
    Request(
      ctx.device.id, ctx.deviceKey, DeviceName(ctx.device, ctx.deviceKey), g.name, ctx.device.ownerId,
      ActionFor(Contains(ctx.pt, g.points)), ctx.pt.lat, ctx.pt.lng, ctx.now)
  }

  function Logger(ctx: Context): Geofence -> LogEntry { g => LogFor(ctx, g) }
  function Summarizer(ctx: Context): Geofence -> ChangeSummary { g => SummaryFor(ctx, g) }
  function Requester(ctx: Context): Geofence -> Request { g => RequestFor(ctx, g) }

  /** The notification request announcing a reported change, rebuilt from the
      change itself and the event: the device, its owner, the position and `now`. */
  function Announcement(deviceKey: string, device: Device, lat: real, lng: real, now: int, c: ChangeSummary): Request
  {
    Request(device.id, deviceKey, DeviceName(device, deviceKey), c.geofenceName, device.ownerId, c.action, lat, lng, now)
  }

  function ChangeRequest(deviceKey: string, device: Device, lat: real, lng: real, now: int): ChangeSummary -> Request
  {
    (c: ChangeSummary) => Announcement(deviceKey, device, lat, lng, now, c)
  }

  function Announcements(ctx: Context, changes: seq<ChangeSummary>): seq<Request>
  {
    MapSeq(changes, ChangeRequest(ctx.deviceKey, ctx.device, ctx.pt.lat, ctx.pt.lng, ctx.now))
  }

  /** What the per-geofence loop produces: the change summaries, the batched
      log entries, the notification requests, and the owner documents and
      notification records as the dispatches left them. */
  datatype Evaluation = Evaluation(
    changes: seq<ChangeSummary>, batch: seq<LogEntry>, requests: seq<Request>,
    users: map<string, UserDoc>, notifications: seq<NotificationRecord>)

  /** The per-geofence loop, in query order. Geofences with fewer than three
      points are skipped; a transition yields one log entry, one summary and
      one dispatch; an unchanged geofence yields nothing. Each dispatch sees
      the token lists as earlier dispatches of this event pruned them. */
  function EvaluateAll(ctx: Context, gs: seq<Geofence>, users: map<string, UserDoc>, notifications: seq<NotificationRecord>): (r: Evaluation)
    ensures r.batch == MapSeq(Filter(gs, Transitions(ctx)), Logger(ctx))
    ensures r.changes == MapSeq(Filter(gs, Transitions(ctx)), Summarizer(ctx))
    ensures r.requests == MapSeq(Filter(gs, Transitions(ctx)), Requester(ctx))
    ensures (r.users, r.notifications) == DispatchAll(r.requests, users, notifications, ctx.env.send)
    ensures r.users.Keys == users.Keys
    ensures notifications <= r.notifications
    ensures |r.notifications| <= |notifications| + |r.requests|
    decreases |gs|
  {
    if |gs| == 0 then Evaluation([], [], [], users, notifications)
    else
      var g := gs[0];
      assert gs == [g] + gs[1..];
      if |g.points| < 3 then
        EvaluateAll(ctx, gs[1..], users, notifications)
      else
        var inside := Contains(ctx.pt, g.points);
        var previous := Previous(ctx, g);
        if !Changed(previous, inside) then
          EvaluateAll(ctx, gs[1..], users, notifications)
        else
          var d := SendGeofenceNotification(RequestFor(ctx, g), users, ctx.env.send);
          var rest := EvaluateAll(ctx, gs[1..], d.users, notifications + RecordList(d.record));
          var changed := Filter(gs[1..], Transitions(ctx));
          assert ([g] + changed)[1..] == changed;
          assert ([RequestFor(ctx, g)] + rest.requests)[1..] == rest.requests;
          Evaluation(
            [SummaryFor(ctx, g)] + rest.changes,
            [LogFor(ctx, g)] + rest.batch,
            [RequestFor(ctx, g)] + rest.requests,
            rest.users,
            rest.notifications)
  }

  /** The loop's notification requests are exactly the announcements of its
      reported changes, one per change, in order. */
  lemma RequestsAnnounceChanges(ctx: Context, gs: seq<Geofence>, users: map<string, UserDoc>, notifications: seq<NotificationRecord>)
    ensures var ev := EvaluateAll(ctx, gs, users, notifications);
      ev.requests == Announcements(ctx, ev.changes)
  {
    var ev := EvaluateAll(ctx, gs, users, notifications);
    var changed := Filter(gs, Transitions(ctx));
    var ann := Announcements(ctx, ev.changes);
    forall i | 0 <= i < |ev.requests|
      ensures ev.requests[i] == ann[i]
    {
      assert ev.requests[i] == RequestFor(ctx, changed[i]);
      assert ev.changes[i] == SummaryFor(ctx, changed[i]);
    }
  }

  /** The owner documents and notification records a processed event leaves
      are those of one dispatch per reported change, in order, each
      announcing its change for the event's device, position and time. */
  predicate Notified(store: Store, deviceKey: string, now: int, send: Token -> SendOutcome, r: (Outcome, Store))
  {
    && r.0.Processed?
    && FindDevice(store.devices, deviceKey).Some?
    && var reqs := MapSeq(r.0.changes, ChangeRequest(deviceKey, FindDevice(store.devices, deviceKey).value,
                                                     r.0.latitude, r.0.longitude, now));
       (r.1.users, r.1.notifications) == DispatchAll(reqs, store.users, store.notifications, send)
  }

  /** What a processed event leaves behind: devices and geofences untouched,
      no owner document added or removed, at most one change per evaluated
      geofence, the old logs and notifications kept as prefixes, one new log
      entry per change, stamped `now`, whose status agrees with its action and
      with the change it records, and at most one notification per change. */
  predicate Committed(store: Store, now: int, r: (Outcome, Store))
  {
    && r.0.Processed?
    && r.1.devices == store.devices && r.1.geofences == store.geofences
    && r.1.users.Keys == store.users.Keys
    && |r.0.changes| <= r.0.geofenceCount
    && store.logs <= r.1.logs
    && |r.1.logs| == |store.logs| + |r.0.changes|
    && store.notifications <= r.1.notifications
    && |r.1.notifications| <= |store.notifications| + |r.0.changes|
    && forall j :: 0 <= j < |r.0.changes| ==>
         var e, c := r.1.logs[|store.logs| + j], r.0.changes[j];
         && e.timestamp == now
         && e.geofenceId == c.geofenceId
         && (e.status == "inside" <==> e.action == "enter")
         && (e.status == "inside" <==> c.action == Enter)
  }

  /** The per-geofence loop of one event and the batch commit, once the
      reading is valid, the device is owned and it has active geofences. */
  function RunLoop(deviceKey: string, device: Device, lat: real, lng: real, store: Store, now: int, env: Env): (r: (Outcome, Store))
    requires InRange(lat, lng)
    requires FindDevice(store.devices, deviceKey) == Some(device)
    requires |Filter(store.geofences, ActiveFor(device))| > 0
    ensures r.0.Processed? && r.0.latitude == lat && r.0.longitude == lng
    ensures r.0.geofenceCount == |Filter(store.geofences, ActiveFor(device))|
    ensures Committed(store, now, r)
    ensures Notified(store, deviceKey, now, env.send, r)
  {
    var gs := Filter(store.geofences, ActiveFor(device));
    var ctx := Context(deviceKey, device, Point(lat, lng), store.logs, now, env);
    var ev := EvaluateAll(ctx, gs, store.users, store.notifications);
    assert |ev.changes| <= |gs| by {
      assert |ev.changes| == |Filter(gs, Transitions(ctx))|;
    }
    var logs := if |ev.changes| > 0 then store.logs + ev.batch else store.logs;
    assert logs == store.logs + ev.batch;
    BatchMatchesChanges(ctx, gs, store.users, store.notifications);
    RequestsAnnounceChanges(ctx, gs, store.users, store.notifications);
    MatchingBatchCommits(store, now, |gs|, ev.changes, ev.batch, lat, lng, ev.users, ev.notifications);
    (Processed(|gs|, ev.changes, lat, lng),
     store.(logs := logs, users := ev.users, notifications := ev.notifications))
  }

  /** Appending a batch whose k-th entry records the k-th change, stamped
      `now`, is a commit in the sense of `Committed`. */
  lemma MatchingBatchCommits(store: Store, now: int, count: nat, changes: seq<ChangeSummary>, batch: seq<LogEntry>,
                             lat: real, lng: real, users: map<string, UserDoc>, notifications: seq<NotificationRecord>)
    requires |changes| <= count && |batch| == |changes|
    requires forall k :: 0 <= k < |batch| ==>
      && batch[k].timestamp == now
      && batch[k].geofenceId == changes[k].geofenceId
      && (batch[k].status == "inside" <==> batch[k].action == "enter")
      && (batch[k].status == "inside" <==> changes[k].action == Enter)
    requires users.Keys == store.users.Keys
    requires store.notifications <= notifications && |notifications| <= |store.notifications| + |changes|
    ensures Committed(store, now, (Processed(count, changes, lat, lng),
                                   store.(logs := store.logs + batch, users := users, notifications := notifications)))
  {
    var all := store.logs + batch;
    forall j | 0 <= j < |changes|
      ensures all[|store.logs| + j] == batch[j]
    {
    }
  }

  /** One location update for the device whose name is `deviceKey`. The store
      is returned unchanged unless the event reaches the per-geofence loop. */
  function GeofenceChangeStatus(deviceKey: string, payload: Payload, store: Store, now: int, env: Env): (r: (Outcome, Store))
    ensures r.0.InvalidGps? <==> ValidateGps(payload, env.parse).Invalid?
    ensures ValidateGps(payload, env.parse).Invalid? ==> r.0 == InvalidGps(ValidateGps(payload, env.parse).error)
    ensures r.0.DeviceNotFound? <==>
      ValidateGps(payload, env.parse).Valid? && forall d :: d in store.devices ==> d.name != deviceKey
    ensures !r.0.Processed? ==> r.1 == store
    ensures r.0.Processed? ==> InRange(r.0.latitude, r.0.longitude) && Committed(store, now, r)
    ensures r.0.Processed? ==> Notified(store, deviceKey, now, env.send, r)
  {
    match ValidateGps(payload, env.parse)
    case Invalid(e) => (InvalidGps(e), store)
    case Valid(lat, lng) =>
      match FindDevice(store.devices, deviceKey)
      case None => (DeviceNotFound, store)
      case Some(device) =>
        if device.ownerId == "" then (DeviceHasNoOwner, store)
        else
          var gs := Filter(store.geofences, ActiveFor(device));
          if |gs| == 0 then (NoActiveGeofences, store)
          else RunLoop(deviceKey, device, lat, lng, store, now, env)
  }

  /** Which of the early returns an event with a valid reading takes: an
      ownerless device stops the event, a device with no active geofence ends
      it successfully, and otherwise the loop runs over at least one geofence. */
  lemma OutcomeClassification(deviceKey: string, payload: Payload, store: Store, now: int, env: Env)
    requires ValidateGps(payload, env.parse).Valid?
    requires FindDevice(store.devices, deviceKey).Some?
    ensures var r := GeofenceChangeStatus(deviceKey, payload, store, now, env);
      var device := FindDevice(store.devices, deviceKey).value;
      && (r.0.DeviceHasNoOwner? <==> device.ownerId == "")
      && (r.0.NoActiveGeofences? <==>
            device.ownerId != "" && forall g :: g in store.geofences ==> !ActiveFor(device)(g))
      && (r.0.Processed? <==>
            device.ownerId != "" && exists g :: g in store.geofences && ActiveFor(device)(g))
      && (r.0.Processed? ==> r.0.geofenceCount > 0)
  {
    var device := FindDevice(store.devices, deviceKey).value;
    var gs := Filter(store.geofences, ActiveFor(device));
    if |gs| > 0 {
      assert gs[0] in gs;
    }
  }

  /** The trigger reports success (`success: true`) exactly when the reading
      is valid and the device is found and owned: with no active geofence,
      or after the loop. */
  lemma SuccessExactlyWhenOwned(deviceKey: string, payload: Payload, store: Store, now: int, env: Env)
    ensures GeofenceChangeStatus(deviceKey, payload, store, now, env).0.Success() <==>
      && ValidateGps(payload, env.parse).Valid?
      && FindDevice(store.devices, deviceKey).Some?
      && FindDevice(store.devices, deviceKey).value.ownerId != ""
  {
  }

  /** When the owner holds a token the transport does not reject as invalid,
      a processed event writes exactly one notification record per reported
      change, in order, each naming the change's geofence and action. */
  lemma ProcessedNotifiesEachChange(deviceKey: string, payload: Payload, store: Store, now: int, env: Env, kept: Token)
    requires GeofenceChangeStatus(deviceKey, payload, store, now, env).0.Processed?
    requires FindDevice(store.devices, deviceKey).Some?
    requires var owner := FindDevice(store.devices, deviceKey).value.ownerId;
      owner in store.users && kept in store.users[owner].fcmTokens && !MarksInvalid(env.send(kept))
    ensures var r := GeofenceChangeStatus(deviceKey, payload, store, now, env);
      var device := FindDevice(store.devices, deviceKey).value;
      && |r.1.notifications| == |store.notifications| + |r.0.changes|
      && forall i :: 0 <= i < |r.0.changes| ==>
           AnnouncedBy(r.1.notifications[|store.notifications| + i], r.0.changes[i], device, now)
  {
    var r := GeofenceChangeStatus(deviceKey, payload, store, now, env);
    NotifiedRecordsEachChange(store, deviceKey, now, env.send, r, kept);
  }

  /** The same, for any result the dispatches of a processed event account for. */
  lemma NotifiedRecordsEachChange(store: Store, deviceKey: string, now: int, send: Token -> SendOutcome,
                                  r: (Outcome, Store), kept: Token)
    requires Notified(store, deviceKey, now, send, r)
    requires var owner := FindDevice(store.devices, deviceKey).value.ownerId;
      owner in store.users && kept in store.users[owner].fcmTokens && !MarksInvalid(send(kept))
    ensures var device := FindDevice(store.devices, deviceKey).value;
      && |r.1.notifications| == |store.notifications| + |r.0.changes|
      && forall i :: 0 <= i < |r.0.changes| ==>
           AnnouncedBy(r.1.notifications[|store.notifications| + i], r.0.changes[i], device, now)
  {
    var device := FindDevice(store.devices, deviceKey).value;
    var reqs := MapSeq(r.0.changes, ChangeRequest(deviceKey, device, r.0.latitude, r.0.longitude, now));
    EveryRequestRecorded(reqs, store.users, store.notifications, send, device.ownerId, kept);
    AnnouncementsPointwise(r.0.changes, deviceKey, device, r.0.latitude, r.0.longitude, now);
    AnnouncementsRecorded(r.1.notifications, |store.notifications|, r.0.changes, reqs,
                          deviceKey, device, r.0.latitude, r.0.longitude, now);
  }

  /** The record announces the change for the device at `now`: it names the
      change's geofence and action, the device and its owner, and is unread. */
  predicate AnnouncedBy(rec: NotificationRecord, c: ChangeSummary, device: Device, now: int)
  {
    && rec.geofenceName == c.geofenceName && rec.action == ActionText(c.action)
    && rec.deviceId == device.id && rec.ownerId == device.ownerId
    && rec.timestamp == now && !rec.read
  }

  lemma AnnouncementsPointwise(changes: seq<ChangeSummary>, deviceKey: string, device: Device, lat: real, lng: real, now: int)
    ensures var reqs := MapSeq(changes, ChangeRequest(deviceKey, device, lat, lng, now));
      && |reqs| == |changes|
      && forall i :: 0 <= i < |reqs| ==> reqs[i] == Announcement(deviceKey, device, lat, lng, now, changes[i])
  {
  }

  /** Records of the announcements of some changes carry each change's
      geofence name and action, the device, its owner and the time. */
  lemma AnnouncementsRecorded(records: seq<NotificationRecord>, start: nat, changes: seq<ChangeSummary>,
                              reqs: seq<Request>, deviceKey: string, device: Device, lat: real, lng: real, now: int)
    requires |reqs| == |changes|
    requires forall i :: 0 <= i < |reqs| ==> reqs[i] == Announcement(deviceKey, device, lat, lng, now, changes[i])
    requires RecordsFrom(records, start, reqs)
    ensures |records| == start + |changes|
    ensures forall i :: 0 <= i < |changes| ==> AnnouncedBy(records[start + i], changes[i], device, now)
  {
    forall i | 0 <= i < |changes|
      ensures AnnouncedBy(records[start + i], changes[i], device, now)
    {
      AnnouncementRecorded(records[start + i], reqs[i], deviceKey, device, lat, lng, now, changes[i]);
    }
  }

  lemma AnnouncementRecorded(rec: NotificationRecord, req: Request, deviceKey: string, device: Device,
                             lat: real, lng: real, now: int, c: ChangeSummary)
    requires req == Announcement(deviceKey, device, lat, lng, now, c) && RecordOf(rec, req)
    ensures AnnouncedBy(rec, c, device, now)
  {
  }

  /** A processed event with one change, for an owner holding tokens, writes
      one record: the record of that change's announcement, counting the
      owner's tokens. */
  lemma OneChangeOneRecord(store: Store, deviceKey: string, now: int, send: Token -> SendOutcome, r: (Outcome, Store))
    requires Notified(store, deviceKey, now, send, r) && |r.0.changes| == 1
    requires var owner := FindDevice(store.devices, deviceKey).value.ownerId;
      owner in store.users && |store.users[owner].fcmTokens| > 0
    ensures var device := FindDevice(store.devices, deviceKey).value;
      var req := ChangeRequest(deviceKey, device, r.0.latitude, r.0.longitude, now)(r.0.changes[0]);
      && |r.1.notifications| == |store.notifications| + 1
      && RecordOf(r.1.notifications[|store.notifications|], req)
      && r.1.notifications[|store.notifications|].totalTokens == |store.users[device.ownerId].fcmTokens|
  {
    var device := FindDevice(store.devices, deviceKey).value;
    var reqs := MapSeq(r.0.changes, ChangeRequest(deviceKey, device, r.0.latitude, r.0.longitude, now));
    assert reqs == [reqs[0]];
    DispatchOne(reqs[0], store.users, store.notifications, send);
  }

  /** The k-th batched log entry and the k-th change summary describe the same
      geofence and the same containment. */
  lemma BatchMatchesChanges(ctx: Context, gs: seq<Geofence>, users: map<string, UserDoc>, notifications: seq<NotificationRecord>)
    ensures var ev := EvaluateAll(ctx, gs, users, notifications);
      && |ev.batch| == |ev.changes|
      && forall k :: 0 <= k < |ev.batch| ==>
           && ev.batch[k].timestamp == ctx.now
           && ev.batch[k].geofenceId == ev.changes[k].geofenceId
           && (ev.batch[k].status == "inside" <==> ev.batch[k].action == "enter")
           && (ev.batch[k].status == "inside" <==> ev.changes[k].action == Enter)
  {
    var ev := EvaluateAll(ctx, gs, users, notifications);
    var changed := Filter(gs, Transitions(ctx));
    forall k | 0 <= k < |ev.batch|
      ensures ev.batch[k].timestamp == ctx.now
      ensures ev.batch[k].geofenceId == ev.changes[k].geofenceId
      ensures ev.batch[k].status == "inside" <==> ev.batch[k].action == "enter"
      ensures ev.batch[k].status == "inside" <==> ev.changes[k].action == Enter
    {
      assert ev.batch[k] == LogFor(ctx, changed[k]);
      assert ev.changes[k] == SummaryFor(ctx, changed[k]);
    }
  }

  /** Geofence document ids are unique within the collection. */
  predicate UniqueIds(gs: seq<Geofence>)
  {
    forall g1, g2 :: g1 in gs && g2 in gs && g1.id == g2.id ==> g1 == g2
  }

  /** A batch entry stamped after every earlier entry, and the only batch
      entry of its pair, is the pair's latest entry once the batch is committed. */
  lemma CommittedEntryIsLatest(logs: seq<LogEntry>, batch: seq<LogEntry>, idx: int, now: int)
    requires forall k :: 0 <= k < |logs| ==> logs[k].timestamp < now
    requires 0 <= idx < |batch| && batch[idx].timestamp == now
    requires forall k :: 0 <= k < |batch| && ForPair(batch[k], batch[idx].deviceId, batch[idx].geofenceId) ==> batch[k] == batch[idx]
    ensures PreviousStatus(logs + batch, true, batch[idx].deviceId, batch[idx].geofenceId) == Some(batch[idx].status == "inside")
  {
    var e, all := batch[idx], logs + batch;
    assert all[|logs| + idx] == e;
    var prev := PreviousStatus(all, true, e.deviceId, e.geofenceId);
    var i :| IsLatest(all, i, e.deviceId, e.geofenceId) && prev.value == (all[i].status == "inside");
    assert all[|logs| + idx].timestamp <= all[i].timestamp;
    if i >= |logs| {
      assert all[i] == batch[i - |logs|];
    }
  }

  /** A later context for the same device and reading, over the committed logs. */
  function Reread(ctx: Context, logs: seq<LogEntry>, later: int): Context
  {
    Context(ctx.deviceKey, ctx.device, ctx.pt, logs, later, ctx.env)
  }

  /** With unique geofence ids, the batch entries of a geofence's pair are
      the entries written for that geofence. */
  lemma BatchEntriesOfGeofence(ctx: Context, gs: seq<Geofence>, batch: seq<LogEntry>, g: Geofence)
    requires UniqueIds(gs)
    requires batch == MapSeq(Filter(gs, Transitions(ctx)), Logger(ctx))
    requires g in gs
    ensures forall k :: 0 <= k < |batch| && batch[k].geofenceId == g.id ==>
      batch[k] == LogFor(ctx, g) && IsTransition(ctx, g)
  {
    var changed := Filter(gs, Transitions(ctx));
    forall k | 0 <= k < |batch| && batch[k].geofenceId == g.id
      ensures batch[k] == LogFor(ctx, g) && IsTransition(ctx, g)
    {
      assert batch[k] == LogFor(ctx, changed[k]);
      assert changed[k] in changed;
      assert changed[k] in gs && changed[k].id == g.id;
      assert changed[k] == g;
    }
  }

  /** A geofence that changed in the first event: its new entry is now its latest. */
  lemma QuietWhenChanged(ctx: Context, gs: seq<Geofence>, batch: seq<LogEntry>, g: Geofence)
    requires UniqueIds(gs)
    requires forall k :: 0 <= k < |ctx.logs| ==> ctx.logs[k].timestamp < ctx.now
    requires batch == MapSeq(Filter(gs, Transitions(ctx)), Logger(ctx))
    requires g in gs && IsTransition(ctx, g)
    ensures PreviousStatus(ctx.logs + batch, true, ctx.device.id, g.id) == Some(Contains(ctx.pt, g.points))
  {
    var changed := Filter(gs, Transitions(ctx));
    assert g in changed;
    var idx :| 0 <= idx < |changed| && changed[idx] == g;
    assert batch[idx] == LogFor(ctx, g);
    BatchEntriesOfGeofence(ctx, gs, batch, g);
    CommittedEntryIsLatest(ctx.logs, batch, idx, ctx.now);
  }

  /** A geofence that did not change in the first event: the batch holds no
      entry of its pair, so its latest entry is the one it had. */
  lemma QuietWhenUnchanged(ctx: Context, gs: seq<Geofence>, batch: seq<LogEntry>, g: Geofence)
    requires UniqueIds(gs)
    requires batch == MapSeq(Filter(gs, Transitions(ctx)), Logger(ctx))
    requires g in gs && !IsTransition(ctx, g)
    ensures PreviousStatus(ctx.logs + batch, true, ctx.device.id, g.id) == PreviousStatus(ctx.logs, true, ctx.device.id, g.id)
  {
    BatchEntriesOfGeofence(ctx, gs, batch, g);
    LatestIgnoresOtherPairs(ctx.logs, batch, ctx.device.id, g.id);
  }

  /** After the first event's entries are committed, every active geofence's
      latest status equals its containment, so the same reading is no
      transition. */
  lemma QuietAfterCommit(ctx: Context, gs: seq<Geofence>, batch: seq<LogEntry>, later: int, g: Geofence)
    requires UniqueIds(gs)
    requires forall id :: ctx.env.statusReadOk(id)
    requires forall k :: 0 <= k < |ctx.logs| ==> ctx.logs[k].timestamp < ctx.now
    requires batch == MapSeq(Filter(gs, Transitions(ctx)), Logger(ctx))
    requires g in gs
    ensures !IsTransition(Reread(ctx, ctx.logs + batch, later), g)
  {
    assert ctx.env.statusReadOk(g.id);
    if IsTransition(ctx, g) {
      QuietWhenChanged(ctx, gs, batch, g);
    } else {
      QuietWhenUnchanged(ctx, gs, batch, g);
    }
  }

  /** The context of an event whose reading is valid and whose device exists. */
  function EventContext(deviceKey: string, payload: Payload, store: Store, now: int, env: Env): Context
    requires ValidateGps(payload, env.parse).Valid? && FindDevice(store.devices, deviceKey).Some?
  {
    var v := ValidateGps(payload, env.parse);
    Context(deviceKey, FindDevice(store.devices, deviceKey).value, Point(v.latitude, v.longitude), store.logs, now, env)
  }

  /** A processed event ran the per-geofence loop over the device's active
      geofences and committed exactly the loop's batch. */
  lemma ProcessedRanLoop(deviceKey: string, payload: Payload, store: Store, now: int, later: int, env: Env)
    requires GeofenceChangeStatus(deviceKey, payload, store, now, env).0.Processed?
    ensures ValidateGps(payload, env.parse).Valid? && FindDevice(store.devices, deviceKey).Some?
    ensures var r := GeofenceChangeStatus(deviceKey, payload, store, now, env);
      var ctx := EventContext(deviceKey, payload, store, now, env);
      var ev := EvaluateAll(ctx, Filter(store.geofences, ActiveFor(ctx.device)), store.users, store.notifications);
      && ctx.device.ownerId != ""
      && |Filter(store.geofences, ActiveFor(ctx.device))| > 0
      && r.0.changes == ev.changes
      && r.1 == store.(logs := store.logs + ev.batch, users := ev.users, notifications := ev.notifications)
      && EventContext(deviceKey, payload, r.1, later, env) == Reread(ctx, r.1.logs, later)
  {
    var r := GeofenceChangeStatus(deviceKey, payload, store, now, env);
    assert ValidateGps(payload, env.parse).Valid? && FindDevice(store.devices, deviceKey).Some?;
    var ctx := EventContext(deviceKey, payload, store, now, env);
    var gs := Filter(store.geofences, ActiveFor(ctx.device));
    assert ctx.device.ownerId != "" && |gs| > 0;
    LoopRunsWhenOwned(deviceKey, payload, store, now, env);
    BatchMatchesChanges(ctx, gs, store.users, store.notifications);
    var ev := EvaluateAll(ctx, gs, store.users, store.notifications);
    assert r.1.logs == store.logs + ev.batch;
  }

  /** An event for a valid reading of an owned device with active geofences
      runs the loop, and commits its batch only when there are changes. */
  lemma LoopRunsWhenOwned(deviceKey: string, payload: Payload, store: Store, now: int, env: Env)
    requires ValidateGps(payload, env.parse).Valid? && FindDevice(store.devices, deviceKey).Some?
    requires var ctx := EventContext(deviceKey, payload, store, now, env);
      ctx.device.ownerId != "" && |Filter(store.geofences, ActiveFor(ctx.device))| > 0
    ensures var r := GeofenceChangeStatus(deviceKey, payload, store, now, env);
      var ctx := EventContext(deviceKey, payload, store, now, env);
      var ev := EvaluateAll(ctx, Filter(store.geofences, ActiveFor(ctx.device)), store.users, store.notifications);
      && r.0.Processed?
      && r.0.changes == ev.changes
      && r.1.logs == (if |ev.changes| > 0 then store.logs + ev.batch else store.logs)
  {
  }

  /** An event for a valid reading of an owned device with active geofences,
      none of which is a transition, is processed and writes no log entry. */
  lemma NoTransitionIsQuiet(deviceKey: string, payload: Payload, store: Store, now: int, env: Env)
    requires ValidateGps(payload, env.parse).Valid? && FindDevice(store.devices, deviceKey).Some?
    requires var ctx := EventContext(deviceKey, payload, store, now, env);
      && ctx.device.ownerId != ""
      && |Filter(store.geofences, ActiveFor(ctx.device))| > 0
      && forall g :: g in Filter(store.geofences, ActiveFor(ctx.device)) ==> !IsTransition(ctx, g)
    ensures var r := GeofenceChangeStatus(deviceKey, payload, store, now, env);
      r.0.Processed? && |r.0.changes| == 0 && r.1.logs == store.logs
  {
    var ctx := EventContext(deviceKey, payload, store, now, env);
    var gs := Filter(store.geofences, ActiveFor(ctx.device));
    FilterNoneSelected(gs, Transitions(ctx));
    LoopRunsWhenOwned(deviceKey, payload, store, now, env);
  }

  /** Processing the same reading a second time, once the first event's
      entries are committed, detects no transition and writes no log entry:
      a device that stays inside (or outside) a geofence is announced once. */
  lemma RepeatedReadingIsQuiet(deviceKey: string, payload: Payload, store: Store, now: int, later: int, env: Env)
    requires UniqueIds(store.geofences)
    requires forall id :: env.statusReadOk(id)
    requires forall k :: 0 <= k < |store.logs| ==> store.logs[k].timestamp < now
    requires GeofenceChangeStatus(deviceKey, payload, store, now, env).0.Processed?
    ensures var first := GeofenceChangeStatus(deviceKey, payload, store, now, env);
      var second := GeofenceChangeStatus(deviceKey, payload, first.1, later, env);
      && second.0.Processed?
      && |second.0.changes| == 0
      && second.1.logs == first.1.logs
  {
    var first := GeofenceChangeStatus(deviceKey, payload, store, now, env);
    ProcessedRanLoop(deviceKey, payload, store, now, later, env);
    var ctx := EventContext(deviceKey, payload, store, now, env);
    var gs := Filter(store.geofences, ActiveFor(ctx.device));
    var ev := EvaluateAll(ctx, gs, store.users, store.notifications);
    forall g | g in gs
      ensures !IsTransition(Reread(ctx, store.logs + ev.batch, later), g)
    {
      QuietAfterCommit(ctx, gs, ev.batch, later, g);
    }
    NoTransitionIsQuiet(deviceKey, payload, first.1, later, env);
  }
}
