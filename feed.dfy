/**
 * The part of the GTFS Realtime `FeedMessage` that `get_vehicle_positions` reads, already
 * parsed, and the projection of its entities onto dashboard records.
 *
 * Unset proto2 fields are `None`; reading one gives the proto2 default, which the `...Of`
 * functions below spell out (an unset sub-message reads as its default instance).
 */
module Feed {
  import opened Wrappers
  import opened Logs

  newtype uint64 = x: int | 0 <= x < 0x1_0000_0000_0000_0000

  /** The bit pattern of a protobuf `float`; the dashboard only copies it. */
  type Float32 = bv32

  /** The bit pattern is a NaN: all exponent bits set and a non-zero fraction. */
  predicate IsNaN(x: Float32) {
    x & 0x7F80_0000 == 0x7F80_0000 && x & 0x007F_FFFF != 0
  }

  /** `Position`: latitude and longitude are required, speed is optional. */
  datatype Position = Position(latitude: Float32, longitude: Float32, speed: Option<Float32>)

  datatype TripDescriptor = TripDescriptor(routeId: Option<string>)

  datatype VehicleDescriptor = VehicleDescriptor(id: Option<string>)

  /** The `VehiclePosition` message (fields the dashboard does not read are omitted). */
  datatype VehiclePosition = VehiclePosition(
    trip: Option<TripDescriptor>,
    vehicle: Option<VehicleDescriptor>,
    position: Option<Position>,
    timestamp: Option<uint64>)

  /** A `FeedEntity`; its trip update and alert, never read here, are omitted. */
  datatype FeedEntity = FeedEntity(id: string, vehicle: Option<VehiclePosition>)

  /** Why `requests.get` or `ParseFromString` raised. */
  datatype FetchError = TransportError | MalformedPayload

  /** What one fetch-and-parse of the feed yields: its entities, or the exception raised. */
  type FeedResult = Result<seq<FeedEntity>, FetchError>

  /** One row of the dashboard's DataFrame. */
  datatype VehicleRecord = VehicleRecord(
    vehicleId: string,
    routeId: string,
    latitude: Float32,
    longitude: Float32,
    speed: Option<Float32>,
    timestamp: Option<uint64>)

  // proto2 reads of the fields the dashboard uses

  function PositionOf(v: VehiclePosition): Position {
    v.position.GetOr(Position(0, 0, None))
  }

  function RouteIdOf(v: VehiclePosition): string {
    match v.trip
    case None => ""
    case Some(t) => t.routeId.GetOr("")
  }

  function VehicleIdOf(v: VehiclePosition): string {
    match v.vehicle
    case None => ""
    case Some(d) => d.id.GetOr("")
  }

  function TimestampOf(v: VehiclePosition): uint64 {
    v.timestamp.GetOr(0)
  }

  /** The record built for one vehicle position: ids and coordinates are copied (defaults when
      unset), speed only when the position carries it, the timestamp only when it is non-zero. */
  function ToRecord(v: VehiclePosition): (r: VehicleRecord)
    ensures r.vehicleId == (if v.vehicle.Some? && v.vehicle.value.id.Some? then v.vehicle.value.id.value else "")
    ensures r.routeId == (if v.trip.Some? && v.trip.value.routeId.Some? then v.trip.value.routeId.value else "")
    ensures v.position.Some? ==> r.latitude == v.position.value.latitude && r.longitude == v.position.value.longitude
    ensures v.position.None? ==> r.latitude == 0 && r.longitude == 0
    ensures r.speed.Some? <==> v.position.Some? && v.position.value.speed.Some?
    ensures r.speed.Some? ==> r.speed == v.position.value.speed
    ensures r.timestamp.Some? <==> v.timestamp.Some? && v.timestamp.value != 0
    ensures r.timestamp.Some? ==> r.timestamp == v.timestamp
  {
    var pos := PositionOf(v);
    var ts := TimestampOf(v);
    VehicleRecord(
      VehicleIdOf(v),
      RouteIdOf(v),
      pos.latitude,
      pos.longitude,
      if pos.speed.Some? then Some(pos.speed.value) else None,
      if ts != 0 then Some(ts) else None)
  }

  /** The records the decoding loop produces for a feed: one per entity with a vehicle. */
  function Decode(feed: seq<FeedEntity>): seq<VehicleRecord> {
    if feed == [] then []
    else
      (if feed[0].vehicle.Some? then [ToRecord(feed[0].vehicle.value)] else [])
      + Decode(feed[1..])
  }

  /** The number of entities that carry a `vehicle` field. */
  function VehicleCount(feed: seq<FeedEntity>): nat {
    if feed == [] then 0
    else (if feed[0].vehicle.Some? then 1 else 0) + VehicleCount(feed[1..])
  }

  /** Decoding is done entity by entity: the records of a concatenation are concatenated. */
  lemma {:induction false} DecodeAppend(a: seq<FeedEntity>, b: seq<FeedEntity>)
    ensures Decode(a + b) == Decode(a) + Decode(b)
  {
    if a == [] {
      assert a + b == b;
    } else {
      assert (a + b)[1..] == a[1..] + b;
      DecodeAppend(a[1..], b);
    }
  }

  /** Exactly one record per entity with a vehicle field. */
  lemma {:induction false} DecodeLength(feed: seq<FeedEntity>)
    ensures |Decode(feed)| == VehicleCount(feed)
  {
    if feed != [] {
      DecodeLength(feed[1..]);
    }
  }

  /** The entity at index i, when it has a vehicle, gives the record whose position is the number
      of vehicle entities before it: records come out in feed order. */
  lemma DecodeAt(feed: seq<FeedEntity>, i: nat)
    requires i < |feed| && feed[i].vehicle.Some?
    ensures VehicleCount(feed[..i]) < |Decode(feed)|
    ensures Decode(feed)[VehicleCount(feed[..i])] == ToRecord(feed[i].vehicle.value)
  {
    assert feed == feed[..i] + ([feed[i]] + feed[i + 1..]);
    DecodeAppend(feed[..i], [feed[i]] + feed[i + 1..]);
    DecodeAppend([feed[i]], feed[i + 1..]);
    assert Decode([feed[i]]) == [ToRecord(feed[i].vehicle.value)];
    DecodeLength(feed[..i]);
  }

  /** Every record comes from some entity of the feed that has a vehicle field. */
  lemma {:induction false} DecodeFromVehicles(feed: seq<FeedEntity>)
    ensures forall r :: r in Decode(feed) ==>
      exists e :: e in feed && e.vehicle.Some? && r == ToRecord(e.vehicle.value)
  {
    if feed != [] {
      DecodeFromVehicles(feed[1..]);
      forall r | r in Decode(feed)
        ensures exists e :: e in feed && e.vehicle.Some? && r == ToRecord(e.vehicle.value)
      {
        if feed[0].vehicle.Some? && r == ToRecord(feed[0].vehicle.value) {
          assert feed[0] in feed;
        } else {
          assert r in Decode(feed[1..]);
          var e :| e in feed[1..] && e.vehicle.Some? && r == ToRecord(e.vehicle.value);
          assert e in feed;
        }
      }
    }
  }

  /** A feed without vehicle entities decodes to no records. */
  lemma {:induction false} DecodeNoVehicles(feed: seq<FeedEntity>)
    requires forall e :: e in feed ==> e.vehicle.None?
    ensures Decode(feed) == []
  {
    if feed != [] {
      assert feed[0] in feed;
      DecodeNoVehicles(feed[1..]);
    }
  }

  /**
   * `get_vehicle_positions` once the download and the protobuf parse are done: it logs the
   * start, walks the entities appending a record for each one with a vehicle, and logs the
   * count. A failed download or parse raises after the first log line.
   */
  method GetVehiclePositions(fetched: FeedResult) returns (res: Result<seq<VehicleRecord>, FetchError>, logs: seq<LogEntry>)
    ensures res.Success? <==> fetched.Success?
    ensures fetched.Success? ==> res.value == Decode(fetched.value)
    ensures fetched.Success? ==> logs == [LoadStarted, Loaded(VehicleCount(fetched.value))]
    ensures fetched.Failure? ==> res.error == fetched.error && logs == [LoadStarted]
  {
    logs := [LoadStarted];
    if fetched.Failure? {
      return Failure(fetched.error), logs;
    }
    var feed := fetched.value;
    var vehicles: seq<VehicleRecord> := [];
    for i := 0 to |feed|
      invariant vehicles == Decode(feed[..i])
    {
      var entity := feed[i];
      if entity.vehicle.Some? {
        vehicles := vehicles + [ToRecord(entity.vehicle.value)];
      }
      assert feed[..i + 1] == feed[..i] + [entity];
      DecodeAppend(feed[..i], [entity]);
    }
    assert feed[..|feed|] == feed;
    DecodeLength(feed);
    logs := logs + [Loaded(|vehicles|)];
    res := Success(vehicles);
  }
}
