/** A GPS fix of the vehicle (VehicleLocation.kt): coordinates, speed,
    heading, a timestamp in whole seconds and the navigation flags, plus
    the distance test with its GPS-noise tolerance.

    The Kotlin class is mutable with fluent setters that return the
    receiver; here a location is an immutable value and every setter
    returns the updated value. Doubles are modelled as `real`. */
module Location {

  const MinInt32: int := -0x8000_0000
  const MaxInt32: int := 0x7FFF_FFFF

  /** Kotlin `Double.toInt()` applied to an already floored value: values
      outside the 32-bit range saturate at its ends. */
  function ToInt32(x: int): (r: int)
    ensures MinInt32 <= r <= MaxInt32
    ensures MinInt32 <= x <= MaxInt32 ==> r == x
    ensures x < MinInt32 ==> r == MinInt32
    ensures x > MaxInt32 ==> r == MaxInt32
  {
    if x < MinInt32 then MinInt32 else if x > MaxInt32 then MaxInt32 else x
  }

  /** JVM `Long` division by a positive divisor: truncates toward zero. */
  function TruncDiv(a: int, b: int): (q: int)
    requires b > 0
    ensures a >= 0 ==> q * b <= a < (q + 1) * b
    ensures a < 0 ==> (q - 1) * b < a <= q * b
  {
    if a >= 0 then a / b else -((-a) / b)
  }

  function Abs(x: real): real
  {
    if x < 0.0 then -x else x
  }

  /** Two readings closer than this in both latitude and longitude are
      "the same place" (roughly a 291 ft by 231 ft cell). */
  const Tolerance: real := 0.0008

  datatype VehicleLocation = VehicleLocation(
    latitude: real,
    longitude: real,
    speed: real,
    heading: real,
    minutesToArrival: real,
    timestamp: int,             // seconds; a 32-bit Int in the source
    goingHome: bool,
    goingAwayFromHome: bool)

  /** The whole-second timestamp the source derives from a millisecond
      reading: `floor(ts / 1000).toInt()`. */
  function SecondsOf(tsMillis: real): (t: int)
    ensures MinInt32 <= t <= MaxInt32
    ensures MinInt32 as real * 1000.0 <= tsMillis < (MaxInt32 + 1) as real * 1000.0 ==>
              t as real * 1000.0 <= tsMillis < (t + 1) as real * 1000.0
  {
    ToInt32((tsMillis / 1000.0).Floor)
  }

  /** The two-argument constructor: a position taken "now", used for the
      home reference. `nowMillis` is the wall clock in epoch milliseconds. */
  function AtPosition(lat: real, lon: real, nowMillis: int): (r: VehicleLocation)
    ensures r.latitude == lat && r.longitude == lon
    ensures r.speed == 0.0 && r.heading == 0.0 && r.minutesToArrival == 0.0
    ensures !r.goingHome && !r.goingAwayFromHome
    ensures 0 <= nowMillis < (MaxInt32 + 1) * 1000 ==>
              r.timestamp * 1000 <= nowMillis < (r.timestamp + 1) * 1000
  {
    VehicleLocation(lat, lon, 0.0, 0.0, 0.0, ToInt32(TruncDiv(nowMillis, 1000)), false, false)
  }

  /** The telemetry constructor: stores the reading and converts the
      millisecond timestamp to whole seconds. */
  function FromTelemetry(lat: real, lon: real, spd: real, head: real, tsMillis: real): (r: VehicleLocation)
    ensures r.latitude == lat && r.longitude == lon && r.speed == spd && r.heading == head
    ensures r.minutesToArrival == 0.0 && !r.goingHome && !r.goingAwayFromHome
    ensures 0.0 <= tsMillis < (MaxInt32 + 1) as real * 1000.0 ==>
              r.timestamp as real * 1000.0 <= tsMillis < (r.timestamp + 1) as real * 1000.0
  {
    VehicleLocation(lat, lon, spd, head, 0.0, SecondsOf(tsMillis), false, false)
  }

  /** The attributes a fluent setter may change. */
  datatype Field =
    | Latitude | Longitude | Speed | Heading | MinutesToArrival | Timestamp | GoingHome | GoingAwayFromHome

  /** `a` and `b` agree on every attribute except possibly `f`. */
  predicate AgreeExcept(a: VehicleLocation, b: VehicleLocation, f: Field)
  {
    && (f == Latitude || a.latitude == b.latitude)
    && (f == Longitude || a.longitude == b.longitude)
    && (f == Speed || a.speed == b.speed)
    && (f == Heading || a.heading == b.heading)
    && (f == MinutesToArrival || a.minutesToArrival == b.minutesToArrival)
    && (f == Timestamp || a.timestamp == b.timestamp)
    && (f == GoingHome || a.goingHome == b.goingHome)
    && (f == GoingAwayFromHome || a.goingAwayFromHome == b.goingAwayFromHome)
  }

  function SetGoingAwayFromHome(loc: VehicleLocation, flag: bool): (r: VehicleLocation)
    ensures r.goingAwayFromHome == flag && AgreeExcept(loc, r, GoingAwayFromHome)
  {
    loc.(goingAwayFromHome := flag)
  }

  function SetGoingHome(loc: VehicleLocation, flag: bool): (r: VehicleLocation)
    ensures r.goingHome == flag && AgreeExcept(loc, r, GoingHome)
  {
    loc.(goingHome := flag)
  }

  function SetHeading(loc: VehicleLocation, head: real): (r: VehicleLocation)
    ensures r.heading == head && AgreeExcept(loc, r, Heading)
  {
    loc.(heading := head)
  }

  function SetLatitude(loc: VehicleLocation, lat: real): (r: VehicleLocation)
    ensures r.latitude == lat && AgreeExcept(loc, r, Latitude)
  {
    loc.(latitude := lat)
  }

  function SetLongitude(loc: VehicleLocation, lon: real): (r: VehicleLocation)
    ensures r.longitude == lon && AgreeExcept(loc, r, Longitude)
  {
    loc.(longitude := lon)
  }

  function SetMinutesToArrival(loc: VehicleLocation, m: real): (r: VehicleLocation)
    ensures r.minutesToArrival == m && AgreeExcept(loc, r, MinutesToArrival)
  {
    loc.(minutesToArrival := m)
  }

  function SetSpeed(loc: VehicleLocation, spd: real): (r: VehicleLocation)
    ensures r.speed == spd && AgreeExcept(loc, r, Speed)
  {
    loc.(speed := spd)
  }

  /** Takes a millisecond reading, like the telemetry constructor. */
  function SetTimestamp(loc: VehicleLocation, tsMillis: real): (r: VehicleLocation)
    ensures AgreeExcept(loc, r, Timestamp)
    ensures r.timestamp == FromTelemetry(loc.latitude, loc.longitude, loc.speed, loc.heading, tsMillis).timestamp
  {
    loc.(timestamp := SecondsOf(tsMillis))
  }

  /** Enriching a telemetry sample afterwards gives the same value as
      building it with the enrichment in one step. */
  lemma EnrichmentIsConstruction(lat: real, lon: real, spd: real, head: real, ts: real, m: real, home: bool)
    ensures SetGoingHome(SetMinutesToArrival(FromTelemetry(lat, lon, spd, head, ts), m), home)
         == VehicleLocation(lat, lon, spd, head, m, SecondsOf(ts), home, false)
  {
  }

  /** `arrivalTimeSeconds`: the timestamp plus the whole seconds of the
      remaining navigation time, saturated to a 32-bit Int. */
  function ArrivalTimeSeconds(loc: VehicleLocation): (t: int)
    ensures MinInt32 <= t <= MaxInt32
    ensures MinInt32 <= loc.timestamp + (loc.minutesToArrival * 60.0).Floor <= MaxInt32 ==>
              t as real <= loc.timestamp as real + loc.minutesToArrival * 60.0 < (t + 1) as real
    ensures loc.timestamp + (loc.minutesToArrival * 60.0).Floor < MinInt32 ==> t == MinInt32
    ensures loc.timestamp + (loc.minutesToArrival * 60.0).Floor > MaxInt32 ==> t == MaxInt32
  {
    ToInt32(loc.timestamp + (loc.minutesToArrival * 60.0).Floor)
  }

  /** `timestampMillis`: the timestamp in milliseconds, which converts
      back to the same whole second. */
  function TimestampMillis(loc: VehicleLocation): (ms: real)
    ensures ms == loc.timestamp as real * 1000.0
    ensures MinInt32 <= loc.timestamp <= MaxInt32 ==> SecondsOf(ms) == loc.timestamp
  {
    loc.timestamp as real * 1000.0
  }

  /** The source's GPS-noise test: both coordinate deltas are at most
      `Tolerance`. */
  predicate WithinTolerance(lat1: real, lon1: real, lat2: real, lon2: real)
  {
    Abs(lat1 - lat2) <= Tolerance && Abs(lon1 - lon2) <= Tolerance
  }

  /** The haversine great-circle distance in miles, from (lat1, lon1) to
      (lat2, lon2); its trigonometry is not modelled. */
  type Haversine = (real, real, real, real) -> real

  /** `distanceFrom(lat2, lon2)`: exactly zero inside the tolerance cell,
      before any trigonometry; the haversine distance otherwise. */
  function DistanceFrom(loc: VehicleLocation, lat2: real, lon2: real, arc: Haversine): (d: real)
    ensures WithinTolerance(loc.latitude, loc.longitude, lat2, lon2) ==> d == 0.0
    ensures !WithinTolerance(loc.latitude, loc.longitude, lat2, lon2) ==>
              d == arc(loc.latitude, loc.longitude, lat2, lon2)
  {
    if Abs(loc.latitude - lat2) <= Tolerance && Abs(loc.longitude - lon2) <= Tolerance then 0.0
    else arc(loc.latitude, loc.longitude, lat2, lon2)
  }

  /** `distanceFrom(location2)`: the coordinate form applied to the other
      location's coordinates. */
  function DistanceTo(loc: VehicleLocation, other: VehicleLocation, arc: Haversine): (d: real)
    ensures d == DistanceFrom(loc, other.latitude, other.longitude, arc)
    ensures WithinTolerance(loc.latitude, loc.longitude, other.latitude, other.longitude) ==> d == 0.0
    ensures !WithinTolerance(loc.latitude, loc.longitude, other.latitude, other.longitude) ==>
              d == arc(loc.latitude, loc.longitude, other.latitude, other.longitude)
  {
    DistanceFrom(loc, other.latitude, other.longitude, arc)
  }

  /** The comparison the history logic makes: `a.distanceFrom(b) == 0.0`. */
  predicate IsZeroDistance(a: VehicleLocation, b: VehicleLocation, arc: Haversine)
  {
    DistanceTo(a, b, arc) == 0.0
  }

  /** The tolerance test does not depend on which location asks. */
  lemma ToleranceSymmetric(a: VehicleLocation, b: VehicleLocation)
    ensures WithinTolerance(a.latitude, a.longitude, b.latitude, b.longitude)
        <==> WithinTolerance(b.latitude, b.longitude, a.latitude, a.longitude)
  {
  }

  /** A haversine that is symmetric in its two points. */
  ghost predicate SymmetricArc(arc: Haversine)
  {
    forall lat1, lon1, lat2, lon2 :: arc(lat1, lon1, lat2, lon2) == arc(lat2, lon2, lat1, lon1)
  }

  /** With a symmetric haversine the distance is symmetric too. */
  lemma DistanceSymmetric(a: VehicleLocation, b: VehicleLocation, arc: Haversine)
    requires SymmetricArc(arc)
    ensures DistanceTo(a, b, arc) == DistanceTo(b, a, arc)
  {
    ToleranceSymmetric(a, b);
  }

  /** Every location is at zero distance from itself, whatever the
      haversine says. */
  lemma ZeroDistanceReflexive(a: VehicleLocation, arc: Haversine)
    ensures IsZeroDistance(a, a, arc)
  {
  }

  /** A fix 0.0003 degrees off home in
      both axes is home. */
  lemma NearHomeIsHome(arc: Haversine)
    ensures DistanceFrom(FromTelemetry(52.0003, 13.0003, 0.0, 0.0, 0.0), 52.0, 13.0, arc) == 0.0
  {
  }
}
