/** The vehicle side of TeslaVehicle.kt: choosing which vehicle of the
    account to use, the 10-second cache of the vehicle data, the wake-up
    command and the drive/charge projections of the cached data.

    Each network call is represented by its outcome, given as a parameter:
    `Ok(None)` is a null envelope, `Err` an exception from the transport. */
module VehicleSession {
  import opened Wrappers
  import opened VehicleTypes
  import Configuration
  import WebRequest
  import AuthRest
  import TeslaAuth

  // ---------------------------------------------------------------------
  // Identity selection (getVehicleMatchForVIN)
  // ---------------------------------------------------------------------

  /** The configured identity of the vehicle. */
  datatype Identity = Identity(vin: Option<string>, id: Option<string>, displayName: Option<string>)

  /** The lone-vehicle rule applies: one vehicle and no VIN configured. */
  predicate LoneVehicleRule(vehicles: seq<Vehicle>, vin: Option<string>)
  {
    |vehicles| == 1 && (vin.None? || vin.value == "")
  }

  /** A vehicle the VIN search accepts: it has an id and a VIN, and the VIN
      is the configured one. */
  predicate VinMatches(v: Vehicle, vin: Option<string>)
  {
    v.idS.Some? && v.vin.Some? && v.vin == vin
  }

  /** The index of the first vehicle the VIN search accepts. */
  function FirstVinMatch(vehicles: seq<Vehicle>, vin: Option<string>): (k: Option<nat>)
    ensures k.None? <==> forall i :: 0 <= i < |vehicles| ==> !VinMatches(vehicles[i], vin)
    ensures k.Some? ==> k.value < |vehicles| && VinMatches(vehicles[k.value], vin)
    ensures k.Some? ==> forall i :: 0 <= i < k.value ==> !VinMatches(vehicles[i], vin)
  {
    if |vehicles| == 0 then None
    else if VinMatches(vehicles[0], vin) then Some(0)
    else
      match FirstVinMatch(vehicles[1..], vin)
      case None => None
      case Some(j) => Some(j + 1)
  }

  /** The vehicle chosen from the account's list, if any. */
  function SelectVehicle(vehicles: seq<Vehicle>, vin: Option<string>): (r: Option<Vehicle>)
    ensures LoneVehicleRule(vehicles, vin) ==>
              (r.Some? <==> vehicles[0].idS.Some?) && (r.Some? ==> r.value == vehicles[0])
    ensures !LoneVehicleRule(vehicles, vin) ==>
              (r.Some? <==> exists i :: 0 <= i < |vehicles| && VinMatches(vehicles[i], vin))
    ensures !LoneVehicleRule(vehicles, vin) && r.Some? ==>
              exists k :: 0 <= k < |vehicles| && r.value == vehicles[k] && VinMatches(vehicles[k], vin)
                          && forall i :: 0 <= i < k ==> !VinMatches(vehicles[i], vin)
  {
    if LoneVehicleRule(vehicles, vin) then
      if vehicles[0].idS.Some? then Some(vehicles[0]) else None
    else
      match FirstVinMatch(vehicles, vin)
      case None => None
      case Some(k) => Some(vehicles[k])
  }

  /** A successful identity resolution: the new identity, the chosen
      vehicle and the changes written to the configuration. */
  datatype Resolution = Resolution(identity: Identity, vehicle: Vehicle, persisted: Configuration.Changes)

  /** `getVehicleMatchForVIN` given the outcome of listing the account's
      vehicles. A null list envelope, an empty list or no match leave the
      match null, and the `!!` that follows fails; a list envelope whose
      `response` is null fails on its own `!!`. */
  function MatchForVin(ident: Identity, listing: Result<Option<VehicleList>>): (r: Result<Resolution>)
    ensures listing.Err? ==> r == Err(listing.failure)
    ensures listing.Ok? ==> (r.Err? ==> r.failure == NullPointer)
    ensures listing.Ok? && listing.value.Some? && listing.value.value.response.Some? ==>
              var m := SelectVehicle(listing.value.value.response.value, ident.vin);
              (r.Ok? <==> m.Some?) && (r.Ok? ==> r.value.vehicle == m.value)
    ensures r.Ok? ==>
              var v := r.value.vehicle;
              && r.value.identity.vin == v.vin
              && r.value.identity.id == v.idS
              && r.value.identity.displayName == (if v.displayName.Some? then v.displayName else ident.displayName)
              && r.value.persisted == Configuration.VinChanges(v.vin, v.idS, r.value.identity.displayName)
  {
    match listing
    case Err(e) => Err(e)
    case Ok(None) => Err(NullPointer)
    case Ok(Some(list)) =>
      match list.response
      case None => Err(NullPointer)
      case Some(vehicles) =>
        match SelectVehicle(vehicles, ident.vin)
        case None => Err(NullPointer)
        case Some(v) =>
          var name := if v.displayName.Some? then v.displayName else ident.displayName;
          var ident' := Identity(v.vin, v.idS, name);
          Ok(Resolution(ident', v, Configuration.VinChanges(ident'.vin, ident'.id, ident'.displayName)))
  }

  /** With several vehicles, the one whose VIN is configured is chosen even
      when vehicles without an id come first. */
  lemma VinMatchSkipsIncomplete(a: Vehicle, b: Vehicle, vin: string)
    requires a.idS.None? && b.idS.Some? && b.vin == Some(vin)
    ensures SelectVehicle([a, b], Some(vin)) == Some(b)
  {
    var vs := [a, b];
    assert !VinMatches(vs[0], Some(vin)) && vs[1..] == [b];
    assert FirstVinMatch([b], Some(vin)) == Some(0);
  }

  // ---------------------------------------------------------------------
  // Vehicle-data cache (vehicleData)
  // ---------------------------------------------------------------------

  /** How long a fetched snapshot is served from the cache. */
  const CacheTtlMillis: int := 10000

  /** `lastCache` and `timestampCache`; a zero timestamp means "empty". */
  datatype Cache = Cache(lastCache: Option<VehicleData>, timestampCache: int)

  const EmptyCache: Cache := Cache(None, 0)

  /** A read at `now` is served from the cache. */
  predicate IsFresh(c: Cache, now: int)
  {
    c.timestampCache != 0 && now - c.timestampCache < CacheTtlMillis
  }

  /** A non-zero timestamp always comes with a cached snapshot. */
  predicate Coherent(c: Cache)
  {
    c.timestampCache != 0 ==> c.lastCache.Some? && c.lastCache.value.response.Some?
  }

  /** One read of `vehicleData`: what it returns, the cache afterwards, and
      whether it went to the network. */
  datatype CacheRead = CacheRead(result: Result<Option<Vehicle>>, cache: Cache, fetched: bool)

  /** `vehicleData`. `now` is the clock read before the check, `storedAt`
      the clock read after a successful fetch, and `fetch` the outcome of
      the GET that a stale cache issues. */
  function ReadVehicleData(c: Cache, now: int, storedAt: int, fetch: Result<Option<VehicleData>>): (r: CacheRead)
    ensures r.fetched <==> !IsFresh(c, now)
    ensures IsFresh(c, now) ==> r.cache == c
    ensures IsFresh(c, now) && c.lastCache.Some? ==> r.result == Ok(c.lastCache.value.response)
    ensures !IsFresh(c, now) && fetch.Err? ==> r.result == Err(fetch.failure) && r.cache == c
    ensures !IsFresh(c, now) && fetch.Ok? ==>
              if fetch.value.Some? && fetch.value.value.response.Some? then
                r.result == Ok(fetch.value.value.response) && r.cache == Cache(fetch.value, storedAt)
              else
                r.result == Ok(None) && r.cache == c
  {
    if c.timestampCache != 0 && now - c.timestampCache < CacheTtlMillis then
      match c.lastCache
      case Some(data) => CacheRead(Ok(data.response), c, false)
      case None => CacheRead(Err(NullPointer), c, false)
    else
      match fetch
      case Err(e) => CacheRead(Err(e), c, true)
      case Ok(envelope) =>
        if envelope.Some? && envelope.value.response.Some? then
          CacheRead(Ok(envelope.value.response), Cache(envelope, storedAt), true)
        else
          CacheRead(Ok(None), c, true)
  }

  /** Reads keep the cache coherent, and a coherent fresh cache serves a
      non-null vehicle. */
  lemma ReadKeepsCoherent(c: Cache, now: int, storedAt: int, fetch: Result<Option<VehicleData>>)
    requires Coherent(c)
    ensures Coherent(ReadVehicleData(c, now, storedAt, fetch).cache)
    ensures IsFresh(c, now) ==> var r := ReadVehicleData(c, now, storedAt, fetch).result;
                                r.Ok? && r.value.Some?
  {
  }

  /** A fetch at T is served again at T + 9999 without a second fetch,
      and T + 10000 fetches anew: the cache lives for exactly 10 seconds. */
  lemma CacheTimeline(t: int, v: Vehicle, later: Result<Option<VehicleData>>, other: Result<Option<VehicleData>>)
    requires t != 0
    ensures
      var first := ReadVehicleData(EmptyCache, t, t, Ok(Some(VehicleData(Some(v)))));
      var second := ReadVehicleData(first.cache, t + 9999, t + 9999, later);
      var third := ReadVehicleData(second.cache, t + 10000, t + 10000, other);
      && first.fetched && first.result == Ok(Some(v))
      && !second.fetched && second.result == Ok(Some(v)) && second.cache == first.cache
      && third.fetched
  {
  }

  /** A failed fetch leaves whatever was cached in place. */
  lemma FailedFetchKeepsCache(c: Cache, now: int, storedAt: int, fetch: Result<Option<VehicleData>>)
    requires !IsFresh(c, now)
    requires fetch.Err? || fetch.value.None? || fetch.value.value.response.None?
    ensures ReadVehicleData(c, now, storedAt, fetch).cache == c
  {
  }

  /** The fetch behind a cache miss: a `getJSON` of the vehicle's data
      path, sent once or, after a 401 and a refresh, twice. Its result is
      the `fetch` that `ReadVehicleData` is given. */
  function FetchVehicleData(c: AuthRest.Client, id: Option<string>, first: WebRequest.Exchange,
                            refreshReply: Result<Option<TeslaAuth.TokenResponse>>, second: WebRequest.Exchange,
                            decode: string -> AuthRest.Decoded<VehicleData>): (call: AuthRest.Call<VehicleData>)
    ensures 1 <= |call.sent| <= 2
    ensures forall i :: 0 <= i < |call.sent| ==>
              && call.sent[i].verb == WebRequest.GET
              && call.sent[i].url == ApiBase + "/api/1/vehicles/" + TextOf(id) + "/vehicle_data"
  {
    AuthRest.GetJson(c, VehiclePath(id, "/vehicle_data"), first, refreshReply, second, decode)
  }

  // ---------------------------------------------------------------------
  // Projections (vehicleDriveState, vehicleChargeState)
  // ---------------------------------------------------------------------

  /** `vehicleDriveState`: the drive state of the vehicle data, or null. */
  function DriveStateOf(data: Result<Option<Vehicle>>): (r: Result<Option<DriveState>>)
    ensures data.Err? <==> r.Err?
    ensures r.Err? ==> r.failure == data.failure
    ensures r.Ok? && r.value.Some? <==> data.Ok? && data.value.Some? && data.value.value.driveState.Some?
    ensures r.Ok? && r.value.Some? ==> r.value == data.value.value.driveState
  {
    match data
    case Err(e) => Err(e)
    case Ok(None) => Ok(None)
    case Ok(Some(v)) => Ok(v.driveState)
  }

  /** `vehicleChargeState`: the charge state of the vehicle data, or null. */
  function ChargeStateOf(data: Result<Option<Vehicle>>): (r: Result<Option<ChargeState>>)
    ensures data.Err? <==> r.Err?
    ensures r.Err? ==> r.failure == data.failure
    ensures r.Ok? && r.value.Some? <==> data.Ok? && data.value.Some? && data.value.value.chargeState.Some?
    ensures r.Ok? && r.value.Some? ==> r.value == data.value.value.chargeState
  {
    match data
    case Err(e) => Err(e)
    case Ok(None) => Ok(None)
    case Ok(Some(v)) => Ok(v.chargeState)
  }

  // ---------------------------------------------------------------------
  // Wake-up (wakeUpVehicle)
  // ---------------------------------------------------------------------

  const Online: string := "online"

  /** `wakeUpVehicle` given the outcome of the wake-up POST: true exactly
      when the reply carries a vehicle whose state is "online". */
  function WakeUp(reply: Result<Option<VehicleData>>): (r: Result<bool>)
    ensures reply.Err? <==> r.Err?
    ensures r.Err? ==> r.failure == reply.failure
    ensures r == Ok(true) <==>
              reply.Ok? && reply.value.Some? && reply.value.value.response.Some?
              && reply.value.value.response.value.state == Some(Online)
  {
    match reply
    case Err(e) => Err(e)
    case Ok(None) => Ok(false)
    case Ok(Some(data)) =>
      match data.response
      case None => Ok(false)
      case Some(v) => Ok(v.state.Some? && v.state.value == Online)
  }

  /** `wakeUpVehicle` end to end: one JSON POST of Gson's rendering of
      the null request, "null", to the vehicle's wake-up path, never
      retried; its reply is read by `WakeUp`. */
  function WakeUpCall(c: AuthRest.Client, id: Option<string>, first: WebRequest.Exchange,
                      refreshReply: Result<Option<TeslaAuth.TokenResponse>>, second: WebRequest.Exchange,
                      decode: string -> AuthRest.Decoded<VehicleData>): (w: (AuthRest.Call<VehicleData>, Result<bool>))
    ensures |w.0.sent| == 1 && w.0.outcome.refreshes == 0
    ensures w.0.sent[0].verb == WebRequest.POST
    ensures w.0.sent[0].url == ApiBase + "/api/1/vehicles/" + TextOf(id) + "/wake_up"
    ensures w.0.sent[0].payload == Some("null")
    ensures w.1 == WakeUp(w.0.outcome.result)
  {
    var url := VehiclePath(id, "/wake_up");
    AuthRest.PostJsonNeverRetries(c, url, "null", first, refreshReply, second, decode);
    AuthRest.PostJsonSendsJson(c, url, "null", first, refreshReply, second, decode);
    var call := AuthRest.PostJson(c, url, "null", first, refreshReply, second, decode);
    (call, WakeUp(call.outcome.result))
  }

  // ---------------------------------------------------------------------
  // Home reference (constructor)
  // ---------------------------------------------------------------------

  /** The home reference after construction, and the coordinates written
      to the configuration when it was derived from the vehicle. */
  datatype HomeInit = HomeInit(homeLat: Option<real>, homeLon: Option<real>, persisted: Option<(real, real)>)

  /** The home-reference part of the constructor. The two reads are in one
      `try`: when the latitude read throws, the longitude is not read.
      When either is missing, the drive state's coordinates (if both are
      present) become home and are persisted. */
  function InitHome(latRead: Result<real>, lonRead: Result<real>, drive: Result<Option<DriveState>>): (r: Result<HomeInit>)
    ensures latRead.Ok? && lonRead.Ok? ==>
              r == Ok(HomeInit(Some(latRead.value), Some(lonRead.value), None))
    ensures r.Ok? && r.value.persisted.Some? ==>
              && drive.Ok? && drive.value.Some?
              && drive.value.value.latitude == Some(r.value.persisted.value.0)
              && drive.value.value.longitude == Some(r.value.persisted.value.1)
              && r.value.homeLat == drive.value.value.latitude && r.value.homeLon == drive.value.value.longitude
    ensures !(latRead.Ok? && lonRead.Ok?) ==> (r.Err? <==> drive.Err?)
    ensures r.Ok? && r.value.persisted.None? ==>
              && r.value.homeLat == (if latRead.Ok? then Some(latRead.value) else None)
              && r.value.homeLon == (if latRead.Ok? && lonRead.Ok? then Some(lonRead.value) else None)
    ensures !(latRead.Ok? && lonRead.Ok?) && drive.Ok? && drive.value.Some?
            && drive.value.value.latitude.Some? && drive.value.value.longitude.Some? ==>
              var d := drive.value.value;
              r == Ok(HomeInit(d.latitude, d.longitude, Some((d.latitude.value, d.longitude.value))))
  {
    var lat := if latRead.Ok? then Some(latRead.value) else None;
    var lon := if latRead.Ok? && lonRead.Ok? then Some(lonRead.value) else None;
    if lat.Some? && lon.Some? then Ok(HomeInit(lat, lon, None))
    else
      match drive
      case Err(e) => Err(e)
      case Ok(None) => Ok(HomeInit(lat, lon, None))
      case Ok(Some(d)) =>
        if d.latitude.Some? && d.longitude.Some? then
          Ok(HomeInit(d.latitude, d.longitude, Some((d.latitude.value, d.longitude.value))))
        else
          Ok(HomeInit(lat, lon, None))
  }
}
