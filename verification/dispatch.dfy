/** Notification dispatch (`sendGeofenceNotification` and
    `cleanupInvalidFCMTokens` in functions/index.js): send to every push token
    of the device's owner, count the deliveries, prune the tokens the
    transport reports as unregistered or invalid, and record the dispatch.
    The transport is an oracle giving each token's send outcome. */
module Dispatch {
  import opened Common
  import opened Records
  import opened Transition

  type Token = string

  /** What one `messaging.send` call did: delivered, or failed with an error code. */
  datatype SendOutcome = Delivered | Failed(code: string)

  const NotRegistered: string := "messaging/registration-token-not-registered"
  const InvalidRegistration: string := "messaging/invalid-registration-token"

  /** Only the two registration errors mark a token invalid; network or
      throttling failures do not. */
  predicate MarksInvalid(o: SendOutcome)
  {
    o.Failed? && (o.code == NotRegistered || o.code == InvalidRegistration)
  }

  function Succeeded(send: Token -> SendOutcome): Token -> bool
  {
    t => send(t).Delivered?
  }

  function Invalidated(send: Token -> SendOutcome): Token -> bool
  {
    t => MarksInvalid(send(t))
  }

  /** The per-token outcomes reduced into the delivered and the invalid tokens. */
  datatype Tally = Tally(valid: seq<Token>, invalid: seq<Token>)

  function TallyOf(tokens: seq<Token>, send: Token -> SendOutcome): Tally
  {
    Tally(Filter(tokens, Succeeded(send)), Filter(tokens, Invalidated(send)))
  }

  /** Attempting one more token adds it to the delivered or the invalid
      tokens according to its outcome. */
  lemma TallyExtends(done: seq<Token>, t: Token, send: Token -> SendOutcome)
    ensures Filter(done + [t], Succeeded(send)) == Filter(done, Succeeded(send)) + (if send(t).Delivered? then [t] else [])
    ensures Filter(done + [t], Invalidated(send)) == Filter(done, Invalidated(send)) + (if MarksInvalid(send(t)) then [t] else [])
  {
    FilterAppend(done, [t], Succeeded(send));
    FilterAppend(done, [t], Invalidated(send));
    assert [t][1..] == [];
  }

  /** The source's loop over the tokens: each token is attempted once, in
      order, and a failure does not stop the others. */
  method FanOut(tokens: seq<Token>, send: Token -> SendOutcome) returns (valid: seq<Token>, invalid: seq<Token>)
    ensures Tally(valid, invalid) == TallyOf(tokens, send)
    ensures |valid| <= |tokens| && |invalid| <= |tokens|
    ensures forall t :: t in valid <==> t in tokens && send(t).Delivered?
    ensures forall t :: t in invalid <==> t in tokens && MarksInvalid(send(t))
    ensures forall t :: t in valid ==> t !in invalid
  {
    valid, invalid := [], [];
    var i := 0;
    while i < |tokens|
      invariant 0 <= i <= |tokens|
      invariant valid == Filter(tokens[..i], Succeeded(send))
      invariant invalid == Filter(tokens[..i], Invalidated(send))
    {
      var t := tokens[i];
      assert tokens[..i + 1] == tokens[..i] + [t];
      TallyExtends(tokens[..i], t, send);
      match send(t) {
        case Delivered =>
          valid := valid + [t];
        case Failed(code) =>
          if code == NotRegistered || code == InvalidRegistration {
            invalid := invalid + [t];
          }
      }
      i := i + 1;
    }
    assert tokens[..|tokens|] == tokens;
  }

  function Keeps(invalid: seq<Token>): Token -> bool
  {
    t => t !in invalid
  }

  /** The owner's new token list: the old one without the invalid tokens. */
  function CleanupTokens(current: seq<Token>, invalid: seq<Token>): (r: seq<Token>)
    ensures forall t :: t in r <==> t in current && t !in invalid
    ensures forall t :: t !in invalid ==> multiset(r)[t] == multiset(current)[t]
    ensures forall t :: t in invalid ==> multiset(r)[t] == 0
    ensures IsSubsequence(r, current)
  {
    FilterCounts(current, Keeps(invalid));
    Filter(current, Keeps(invalid))
  }

  /** Pruning a second time with the same invalid tokens removes nothing more. */
  lemma CleanupIdempotent(current: seq<Token>, invalid: seq<Token>)
    ensures CleanupTokens(CleanupTokens(current, invalid), invalid) == CleanupTokens(current, invalid)
  {
    FilterIdempotent(current, Keeps(invalid));
  }

  /** What the dispatcher is asked to announce. */
  datatype Request = Request(
    deviceId: string, deviceIdentifier: string, deviceName: string,
    geofenceName: string, ownerId: string, action: Action,
    latitude: real, longitude: real, timestamp: int)

  /** The notification body, "<device> has entered|exited <geofence>". */
  function MessageBody(req: Request): string
  {
    req.deviceName + " has " + (if req.action == Enter then "entered" else "exited") + " " + req.geofenceName
  }

  /** The dispatcher's effects: the owner documents after pruning and the
      notification record written, if any. */
  datatype Dispatched = Dispatched(users: map<string, UserDoc>, record: Option<NotificationRecord>)

  /** The notification record describes the request: every field is copied
      from it, the action in lower case and the message composed from it,
      and the record starts unread. */
  predicate RecordOf(rec: NotificationRecord, req: Request)
  {
    && rec.ownerId == req.ownerId && rec.deviceId == req.deviceId
    && rec.deviceIdentifier == req.deviceIdentifier && rec.deviceName == req.deviceName
    && rec.geofenceName == req.geofenceName
    && rec.action == ActionText(req.action) && rec.message == MessageBody(req)
    && rec.latitude == req.latitude && rec.longitude == req.longitude
    && rec.timestamp == req.timestamp && !rec.read
  }

  function SendGeofenceNotification(req: Request, users: map<string, UserDoc>, send: Token -> SendOutcome): (d: Dispatched)
    ensures d.users.Keys == users.Keys
    ensures forall u :: u in users && u != req.ownerId ==> d.users[u] == users[u]
    ensures req.ownerId !in users || |users[req.ownerId].fcmTokens| == 0 ==>
      d.record.None? && d.users == users
    ensures req.ownerId in users && (forall t :: t in users[req.ownerId].fcmTokens ==> !MarksInvalid(send(t))) ==>
      d.users == users
    ensures req.ownerId in users && |users[req.ownerId].fcmTokens| > 0 ==>
      var tokens := users[req.ownerId].fcmTokens;
      && d.record.Some?
      && RecordOf(d.record.value, req)
      && d.record.value.totalTokens == |tokens|
      && d.record.value.sentToTokens == |Filter(tokens, Succeeded(send))|
      && d.record.value.sentToTokens <= d.record.value.totalTokens
      && (forall t :: t in d.users[req.ownerId].fcmTokens <==> t in tokens && !MarksInvalid(send(t)))
      && (forall t :: multiset(d.users[req.ownerId].fcmTokens)[t] == if MarksInvalid(send(t)) then 0 else multiset(tokens)[t])
      && IsSubsequence(d.users[req.ownerId].fcmTokens, tokens)
  {
    if req.ownerId !in users then Dispatched(users, None)
    else
      var tokens := users[req.ownerId].fcmTokens;
      if |tokens| == 0 then Dispatched(users, None)
      else
        var tally := TallyOf(tokens, send);
        var record := NotificationRecord(
          req.ownerId, req.deviceId, req.deviceIdentifier, req.deviceName,
          req.geofenceName, ActionText(req.action), MessageBody(req),
          req.latitude, req.longitude, req.timestamp, false,
          |tally.valid|, |tokens|);
        Dispatched(PruneOwner(users, req.ownerId, send), Some(record))
  }

  /** `if (invalidTokens.length > 0) cleanupInvalidFCMTokens(ownerId, invalidTokens)`:
      the owner's token list without every occurrence of a token the
      transport rejected as invalid, in the original order; the documents are
      not written when no token was rejected. */
  function PruneOwner(users: map<string, UserDoc>, owner: string, send: Token -> SendOutcome): (u: map<string, UserDoc>)
    requires owner in users
    ensures u.Keys == users.Keys
    ensures forall x :: x in users && x != owner ==> u[x] == users[x]
    ensures (forall t :: t in users[owner].fcmTokens ==> !MarksInvalid(send(t))) ==> u == users
    ensures forall t :: t in u[owner].fcmTokens <==> t in users[owner].fcmTokens && !MarksInvalid(send(t))
    ensures forall t :: multiset(u[owner].fcmTokens)[t] == if MarksInvalid(send(t)) then 0 else multiset(users[owner].fcmTokens)[t]
    ensures IsSubsequence(u[owner].fcmTokens, users[owner].fcmTokens)
  {
    var tokens := users[owner].fcmTokens;
    var invalid := Filter(tokens, Invalidated(send));
    assert forall t :: t in invalid <==> t in tokens && MarksInvalid(send(t));
    if |invalid| > 0 then
      var pruned := CleanupTokens(tokens, invalid);
      assert invalid[0] in invalid;
      assert forall t :: multiset(pruned)[t] == if MarksInvalid(send(t)) then 0 else multiset(tokens)[t] by {
        forall t ensures multiset(pruned)[t] == if MarksInvalid(send(t)) then 0 else multiset(tokens)[t] {
          if t !in tokens {
            assert multiset(tokens)[t] == 0 && t !in invalid;
          }
        }
      }
      users[owner := UserDoc(pruned)]
    else
      assert forall t :: t in tokens ==> !MarksInvalid(send(t));
      SubsequenceOfItself(tokens);
      users
  }

  function RecordList(r: Option<NotificationRecord>): seq<NotificationRecord>
  {
    if r.Some? then [r.value] else []
  }

  /** The dispatcher called once per request, in order; each call sees the
      token lists as the earlier calls pruned them. */
  function DispatchAll(reqs: seq<Request>, users: map<string, UserDoc>, notifications: seq<NotificationRecord>,
                       send: Token -> SendOutcome): (r: (map<string, UserDoc>, seq<NotificationRecord>))
    ensures r.0.Keys == users.Keys
    ensures notifications <= r.1
    ensures |r.1| <= |notifications| + |reqs|
    decreases |reqs|
  {
    if |reqs| == 0 then (users, notifications)
    else
      var d := SendGeofenceNotification(reqs[0], users, send);
      DispatchAll(reqs[1..], d.users, notifications + RecordList(d.record), send)
  }

  /** A dispatch to an owner holding a token the transport does not reject
      writes a record of the request and leaves that token in place. */
  lemma KeptTokenSurvives(req: Request, users: map<string, UserDoc>, send: Token -> SendOutcome, kept: Token)
    requires req.ownerId in users && kept in users[req.ownerId].fcmTokens && !MarksInvalid(send(kept))
    ensures var d := SendGeofenceNotification(req, users, send);
      && d.record.Some? && RecordOf(d.record.value, req)
      && req.ownerId in d.users && kept in d.users[req.ownerId].fcmTokens
  {
  }

  /** From position `start` on, `records` holds one record of each request, in order. */
  predicate RecordsFrom(records: seq<NotificationRecord>, start: nat, reqs: seq<Request>)
  {
    |records| == start + |reqs| && forall i :: 0 <= i < |reqs| ==> RecordOf(records[start + i], reqs[i])
  }

  lemma RecordsFromCons(records: seq<NotificationRecord>, start: nat, reqs: seq<Request>)
    requires |reqs| > 0 && start < |records| && RecordOf(records[start], reqs[0])
    requires RecordsFrom(records, start + 1, reqs[1..])
    ensures RecordsFrom(records, start, reqs)
  {
    forall i | 1 <= i < |reqs|
      ensures RecordOf(records[start + i], reqs[i])
    {
      assert reqs[1..][i - 1] == reqs[i];
    }
  }

  /** When every request is for one owner who holds a token that the
      transport does not reject as invalid, every request writes its own
      record, in order: one notification per request. */
  lemma {:induction false} EveryRequestRecorded(reqs: seq<Request>, users: map<string, UserDoc>,
                                                notifications: seq<NotificationRecord>, send: Token -> SendOutcome,
                                                owner: string, kept: Token)
    requires forall i :: 0 <= i < |reqs| ==> reqs[i].ownerId == owner
    requires owner in users && kept in users[owner].fcmTokens && !MarksInvalid(send(kept))
    ensures RecordsFrom(DispatchAll(reqs, users, notifications, send).1, |notifications|, reqs)
    decreases |reqs|
  {
    if |reqs| > 0 {
      var d := SendGeofenceNotification(reqs[0], users, send);
      KeptTokenSurvives(reqs[0], users, send, kept);
      var notifications' := notifications + [d.record.value];
      assert RecordList(d.record) == [d.record.value];
      assert forall i :: 0 <= i < |reqs[1..]| ==> reqs[1..][i].ownerId == owner by {
        forall i | 0 <= i < |reqs[1..]| ensures reqs[1..][i].ownerId == owner {
          assert reqs[1..][i] == reqs[i + 1];
        }
      }
      EveryRequestRecorded(reqs[1..], d.users, notifications', send, owner, kept);
      var r := DispatchAll(reqs, users, notifications, send);
      assert r == DispatchAll(reqs[1..], d.users, notifications', send);
      assert r.1[|notifications|] == notifications'[|notifications|];
      RecordsFromCons(r.1, |notifications|, reqs);
    }
  }

  /** Dispatching a single request is one call of the dispatcher. */
  lemma DispatchOne(req: Request, users: map<string, UserDoc>, notifications: seq<NotificationRecord>,
                    send: Token -> SendOutcome)
    ensures var d := SendGeofenceNotification(req, users, send);
      DispatchAll([req], users, notifications, send) == (d.users, notifications + RecordList(d.record))
  {
    assert [req][1..] == [];
  }

  /** Three tokens where the second is reported unregistered: the first and
      third receive the message, the second is pruned, and the record counts
      two deliveries out of three tokens. */
  lemma ThreeTokensOneUnregistered(req: Request, send: Token -> SendOutcome)
    requires send("t1") == Delivered && send("t2") == Failed(NotRegistered) && send("t3") == Delivered
    ensures var users := map[req.ownerId := UserDoc(["t1", "t2", "t3"])];
      var d := SendGeofenceNotification(req, users, send);
      && d.record.Some? && d.record.value.sentToTokens == 2 && d.record.value.totalTokens == 3
      && d.users[req.ownerId].fcmTokens == ["t1", "t3"]
  {
    var tokens := ["t1", "t2", "t3"];
    assert tokens[1..][1..][1..] == [];
    assert Filter(tokens, Succeeded(send)) == ["t1", "t3"];
    assert Filter(tokens, Invalidated(send)) == ["t2"];
    assert Filter(tokens, Keeps(["t2"])) == ["t1", "t3"];
  }
}
