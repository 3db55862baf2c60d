/** The documents the geofence pipeline reads and writes, as immutable values.
    Timestamps are milliseconds since the epoch; the server timestamp and the
    event's creation time are the same instant, `now`, in this model. */
module Records {
  import opened Geometry

  /** A provisioned device. It is looked up by `name`, the key the location
      feed uses; an empty `ownerId` stands for a missing or falsy owner. */
  datatype Device = Device(id: string, name: string, ownerId: string)

  /** A geofence. A document without `points` has an empty vertex sequence. */
  datatype Geofence = Geofence(
    id: string, name: string, deviceId: string, ownerId: string,
    active: bool, points: seq<Vertex>)

  /** One entry of `geofence_logs`, written once per detected transition. */
  datatype LogEntry = LogEntry(
    deviceId: string, deviceIdentifier: string, deviceName: string,
    geofenceId: string, geofenceName: string, ownerId: string,
    action: string, status: string,
    latitude: real, longitude: real,
    timestamp: int)

  /** The part of a `users_information` document the dispatcher uses. A
      document without `fcmTokens` has an empty token list. */
  datatype UserDoc = UserDoc(fcmTokens: seq<string>)

  /** One entry of `notifications`: the audit record of a dispatch, and the
      source the cooldown query reads. */
  datatype NotificationRecord = NotificationRecord(
    ownerId: string, deviceId: string, deviceIdentifier: string, deviceName: string,
    geofenceName: string, action: string, message: string,
    latitude: real, longitude: real,
    timestamp: int, read: bool,
    sentToTokens: nat, totalTokens: nat)
}
