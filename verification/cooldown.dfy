/** The notification cooldown (test_notification_delivery.js): a notification
    for a (device, geofence name) pair may be sent only when no notification
    record for the same pair is at least as recent as `now` minus the window. */
module Cooldown {
  import opened Records

  const MillisPerMinute: int := 60 * 1000

  /** `new Date(Date.now() - cooldownMinutes * 60 * 1000)`, in milliseconds. */
  function Cutoff(now: int, minutes: int): (c: int)
    ensures now - c == minutes * 60000
    ensures minutes >= 0 ==> c <= now
  {
    now - minutes * MillisPerMinute
  }

  /** The record matches the query `where deviceId, where geofenceName,
      where timestamp >= cutoff`. */
  predicate Blocks(rec: NotificationRecord, deviceId: string, geofenceName: string, cutoff: int)
  {
    rec.deviceId == deviceId && rec.geofenceName == geofenceName && rec.timestamp >= cutoff
  }

  /** No stored record blocks the pair. */
  predicate Clear(records: seq<NotificationRecord>, deviceId: string, geofenceName: string, cutoff: int)
  {
    forall i :: 0 <= i < |records| ==> !Blocks(records[i], deviceId, geofenceName, cutoff)
  }

  /** The query with `limit(1)` and `canSend = snapshot.empty`: scan the
      records and stop at the first one that blocks. */
  method CanSendNotification(records: seq<NotificationRecord>, deviceId: string, geofenceName: string, now: int, minutes: int)
    returns (canSend: bool)
    ensures canSend <==> Clear(records, deviceId, geofenceName, Cutoff(now, minutes))
    ensures !canSend <==>
      exists i :: 0 <= i < |records| &&
        records[i].deviceId == deviceId && records[i].geofenceName == geofenceName &&
        now - records[i].timestamp <= minutes * 60000
  {
    var cutoff := Cutoff(now, minutes);
    var i := 0;
    while i < |records|
      invariant 0 <= i <= |records|
      invariant Clear(records[..i], deviceId, geofenceName, cutoff)
    {
      if Blocks(records[i], deviceId, geofenceName, cutoff) {
        return false;
      }
      i := i + 1;
    }
    assert records[..i] == records;
    return true;
  }

  /** A record for another device or another geofence name never blocks. */
  lemma OtherPairsNeverBlock(records: seq<NotificationRecord>, deviceId: string, geofenceName: string, cutoff: int)
    requires forall i :: 0 <= i < |records| ==> records[i].deviceId != deviceId || records[i].geofenceName != geofenceName
    ensures Clear(records, deviceId, geofenceName, cutoff)
  {
  }

  /** Records older than the cutoff never block. */
  lemma ExpiredRecordsNeverBlock(records: seq<NotificationRecord>, deviceId: string, geofenceName: string, cutoff: int)
    requires forall i :: 0 <= i < |records| ==> records[i].timestamp < cutoff
    ensures Clear(records, deviceId, geofenceName, cutoff)
  {
  }

  /** A record stamped exactly at the cutoff still blocks: the comparison is `>=`. */
  lemma RecordAtCutoffBlocks(rec: NotificationRecord, now: int, minutes: int)
    requires rec.timestamp == Cutoff(now, minutes)
    ensures !Clear([rec], rec.deviceId, rec.geofenceName, Cutoff(now, minutes))
  {
    assert Blocks([rec][0], rec.deviceId, rec.geofenceName, Cutoff(now, minutes));
  }

  /** Adding records can only turn "can send" into "blocked", never back. */
  lemma {:induction false} AddingRecordsOnlyBlocks(records: seq<NotificationRecord>, more: seq<NotificationRecord>, deviceId: string, geofenceName: string, cutoff: int)
    ensures Clear(records + more, deviceId, geofenceName, cutoff) <==>
      Clear(records, deviceId, geofenceName, cutoff) && Clear(more, deviceId, geofenceName, cutoff)
  {
    var all := records + more;
    if Clear(records, deviceId, geofenceName, cutoff) && Clear(more, deviceId, geofenceName, cutoff) {
      forall i | 0 <= i < |all|
        ensures !Blocks(all[i], deviceId, geofenceName, cutoff)
      {
        if i >= |records| {
          assert all[i] == more[i - |records|];
        }
      }
    }
    if Clear(all, deviceId, geofenceName, cutoff) {
      forall i | 0 <= i < |records|
        ensures !Blocks(records[i], deviceId, geofenceName, cutoff)
      {
        assert records[i] == all[i];
      }
      forall i | 0 <= i < |more|
        ensures !Blocks(more[i], deviceId, geofenceName, cutoff)
      {
        assert more[i] == all[|records| + i];
      }
    }
  }

  /** A longer window blocks whenever a shorter one does. */
  lemma LongerWindowBlocksMore(records: seq<NotificationRecord>, deviceId: string, geofenceName: string, now: int, shorter: int, longer: int)
    requires shorter <= longer
    requires !Clear(records, deviceId, geofenceName, Cutoff(now, shorter))
    ensures !Clear(records, deviceId, geofenceName, Cutoff(now, longer))
  {
  }

  /** With a two-minute window, a record for the pair written one minute ago
      blocks and one written three minutes ago does not. */
  lemma TwoMinuteWindowExample(rec: NotificationRecord, now: int)
    ensures rec.timestamp == now - 60000 ==> !Clear([rec], rec.deviceId, rec.geofenceName, Cutoff(now, 2))
    ensures rec.timestamp == now - 180000 ==> Clear([rec], rec.deviceId, rec.geofenceName, Cutoff(now, 2))
  {
    assert [rec][0] == rec;
  }
}
