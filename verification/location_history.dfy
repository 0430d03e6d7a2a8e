/** The bounded, deduplicated location history of TeslaVehicle.kt
    (`updateVehicleLocationDetails`): a FIFO of at most 250 fixes that is
    reset whenever the vehicle is seen at home, and that stops growing
    while the vehicle stands still. */
module LocationHistory {
  import opened Wrappers
  import opened Location
  import opened VehicleTypes

  /** Capacity of the CircularFifoQueue. */
  const Capacity: nat := 250

  function Min(a: int, b: int): int
  {
    if a <= b then a else b
  }

  /** `CircularFifoQueue.add`: the newest `Capacity` entries of `h + [v]`. */
  function Push(h: seq<VehicleLocation>, v: VehicleLocation): (r: seq<VehicleLocation>)
    requires |h| <= Capacity
    ensures |r| == Min(|h| + 1, Capacity)
    ensures r == (h + [v])[|h| + 1 - |r|..]
  {
    if |h| < Capacity then h + [v] else h[1..] + [v]
  }

  /** The vehicle has stood still for the last two entries and still does:
      the newest entry is zero-distance from the one before it and from
      the new fix `v`. */
  predicate Redundant(h: seq<VehicleLocation>, v: VehicleLocation, arc: Haversine)
  {
    |h| >= 2 && IsZeroDistance(h[|h| - 1], h[|h| - 2], arc) && IsZeroDistance(h[|h| - 1], v, arc)
  }

  /** Adds a fix to the history unless it is redundant. */
  function Admit(h: seq<VehicleLocation>, v: VehicleLocation, arc: Haversine): (r: seq<VehicleLocation>)
    requires |h| <= Capacity
    ensures |r| <= Capacity
    ensures Redundant(h, v, arc) ==> r == h
    ensures !Redundant(h, v, arc) ==> r == Push(h, v)
  {
    if Redundant(h, v, arc) then h else Push(h, v)
  }

  /** Entries `i`, `i + 1`, `i + 2` are a stationary run: the middle one is
      zero-distance from both neighbours. */
  predicate StationaryAt(h: seq<VehicleLocation>, i: int, arc: Haversine)
    requires 0 <= i && i + 2 < |h|
  {
    IsZeroDistance(h[i + 1], h[i], arc) && IsZeroDistance(h[i + 1], h[i + 2], arc)
  }

  /** The history invariant: no three consecutive entries form a
      stationary run. */
  predicate NoStationaryRun(h: seq<VehicleLocation>, arc: Haversine)
  {
    forall i :: 0 <= i && i + 2 < |h| ==> !StationaryAt(h, i, arc)
  }

  /** Admitting a fix keeps the history free of stationary runs. */
  lemma AdmitKeepsNoStationaryRun(h: seq<VehicleLocation>, v: VehicleLocation, arc: Haversine)
    requires |h| <= Capacity && NoStationaryRun(h, arc)
    ensures NoStationaryRun(Admit(h, v, arc), arc)
  {
    if !Redundant(h, v, arc) {
      var r := Admit(h, v, arc);
      var ext := h + [v];
      forall i | 0 <= i && i + 2 < |ext|
        ensures !StationaryAt(ext, i, arc)
      {
        if i + 2 < |h| {
          assert ext[i] == h[i] && ext[i + 1] == h[i + 1] && ext[i + 2] == h[i + 2];
          assert !StationaryAt(h, i, arc);
        } else {
          assert i + 2 == |h| && ext[i + 2] == v;
          assert ext[i + 1] == h[|h| - 1] && ext[i] == h[|h| - 2];
        }
      }
      var d := |ext| - |r|;
      assert r == ext[d..];
      forall i | 0 <= i && i + 2 < |r|
        ensures !StationaryAt(r, i, arc)
      {
        assert r[i] == ext[d + i] && r[i + 1] == ext[d + i + 1] && r[i + 2] == ext[d + i + 2];
        assert !StationaryAt(ext, d + i, arc);
      }
    }
  }

  /** The history and the last fix seen at home. */
  datatype Tracker = Tracker(history: seq<VehicleLocation>, lastHome: Option<VehicleLocation>)

  predicate Valid(t: Tracker, arc: Haversine)
  {
    |t.history| <= Capacity && NoStationaryRun(t.history, arc)
  }

  /** The fix built from a drive state, when it carries both coordinates;
      a missing speed reads as 0. */
  function SampleOf(d: DriveState): (r: Option<VehicleLocation>)
    ensures r.Some? <==> d.latitude.Some? && d.longitude.Some?
    ensures r.Some? ==> r.value == FromTelemetry(d.latitude.value, d.longitude.value,
                                                 d.speed.GetOr(0.0), d.heading as real, d.timestamp as real)
  {
    if d.latitude.Some? && d.longitude.Some? then
      Some(FromTelemetry(d.latitude.value, d.longitude.value, d.speed.GetOr(0.0), d.heading as real, d.timestamp as real))
    else None
  }

  /** The outcome of one location poll: the new tracker and the fix that
      was read, if any. */
  datatype LocationUpdate = LocationUpdate(tracker: Tracker, sample: Option<VehicleLocation>)

  /** `updateVehicleLocationDetails` after the drive state has been
      fetched. A fix at home clears the history and becomes the last home
      fix; the fix is then admitted. Reading the home reference is a `!!`,
      so a missing one fails once there is a fix. */
  function UpdateLocation(t: Tracker, drive: Option<DriveState>, homeLat: Option<real>, homeLon: Option<real>,
                          arc: Haversine): (r: Result<LocationUpdate>)
    requires |t.history| <= Capacity
    ensures r.Err? <==> drive.Some? && SampleOf(drive.value).Some? && (homeLat.None? || homeLon.None?)
    ensures r.Err? ==> r.failure == NullPointer
    ensures r.Ok? ==> |r.value.tracker.history| <= Capacity
    ensures r.Ok? ==> (r.value.sample.Some? <==> drive.Some? && SampleOf(drive.value).Some?)
    ensures r.Ok? && r.value.sample.None? ==> r.value.tracker == t
    ensures r.Ok? && r.value.sample.Some? ==>
              var v := r.value.sample.value;
              && (DistanceFrom(v, homeLat.value, homeLon.value, arc) == 0.0 ==>
                    r.value.tracker == Tracker([v], Some(v)))
              && (DistanceFrom(v, homeLat.value, homeLon.value, arc) != 0.0 ==>
                    r.value.tracker == Tracker(Admit(t.history, v, arc), t.lastHome))
  {
    if drive.None? then Ok(LocationUpdate(t, None))
    else
      match SampleOf(drive.value)
      case None => Ok(LocationUpdate(t, None))
      case Some(v) =>
        if homeLat.None? || homeLon.None? then Err(NullPointer)
        else
          var base := if DistanceFrom(v, homeLat.value, homeLon.value, arc) == 0.0 then Tracker([], Some(v)) else t;
          Ok(LocationUpdate(Tracker(Admit(base.history, v, arc), base.lastHome), Some(v)))
  }

  /** `homePosition`: the home reference as a location taken now; a
      missing coordinate fails on `!!`. A fix taken there is at home. */
  function HomePosition(homeLat: Option<real>, homeLon: Option<real>, nowMillis: int): (r: Result<VehicleLocation>)
    ensures r.Ok? <==> homeLat.Some? && homeLon.Some?
    ensures r.Err? ==> r.failure == NullPointer
    ensures r.Ok? ==> r.value.latitude == homeLat.value && r.value.longitude == homeLon.value
    ensures r.Ok? ==> forall arc: Haversine :: DistanceFrom(r.value, homeLat.value, homeLon.value, arc) == 0.0
  {
    var lat :- NotNull(homeLat);
    var lon :- NotNull(homeLon);
    Ok(AtPosition(lat, lon, nowMillis))
  }

  /** Every poll keeps the history bounded and free of stationary runs. */
  lemma UpdateKeepsValid(t: Tracker, drive: Option<DriveState>, homeLat: Option<real>, homeLon: Option<real>,
                         arc: Haversine)
    requires Valid(t, arc)
    ensures var r := UpdateLocation(t, drive, homeLat, homeLon, arc);
            r.Ok? ==> Valid(r.value.tracker, arc)
  {
    var r := UpdateLocation(t, drive, homeLat, homeLon, arc);
    if r.Ok? && r.value.sample.Some? {
      var v := r.value.sample.value;
      if DistanceFrom(v, homeLat.value, homeLon.value, arc) != 0.0 {
        AdmitKeepsNoStationaryRun(t.history, v, arc);
      }
    }
  }

  /** Three fixes at the same spot, away from home: the first two are
      kept, the third is dropped. */
  lemma ThreeStillFixes(a: VehicleLocation, arc: Haversine)
    ensures Admit(Admit(Admit([], a, arc), a, arc), a, arc) == [a, a]
  {
    TwoFixesKept(a, arc);
    StillFixDropped(a, arc);
  }

  /** The first two fixes at one spot are both kept. */
  lemma TwoFixesKept(a: VehicleLocation, arc: Haversine)
    ensures Admit(Admit([], a, arc), a, arc) == [a, a]
  {
    AdmitShort([], a, arc);
    assert [] + [a] == [a];
    AdmitShort([a], a, arc);
  }

  /** A history of fewer than two entries takes any fix. */
  lemma AdmitShort(h: seq<VehicleLocation>, v: VehicleLocation, arc: Haversine)
    requires |h| < 2
    ensures Admit(h, v, arc) == h + [v]
  {
  }

  /** Two entries at the same spot drop a third fix there. */
  lemma StillFixDropped(a: VehicleLocation, arc: Haversine)
    ensures Admit([a, a], a, arc) == [a, a]
  {
    ZeroDistanceReflexive(a, arc);
    assert Redundant([a, a], a, arc);
  }

  /** Arriving home: with home at (52, 13), a fix at (52.0003, 13.0003)
      resets the history to itself and marks it as home; a later fix at
      (52.05, 13.05) is appended. The poll times do not matter. */
  lemma HomeArrivalExample(t: Tracker, arc: Haversine, ts1: int, ts2: int)
    requires |t.history| <= Capacity
    requires arc(52.05, 13.05, 52.0, 13.0) != 0.0
    ensures
      var first := DriveState(Some(52.0003), Some(13.0003), None, 0, ts1);
      var second := DriveState(Some(52.05), Some(13.05), None, 0, ts2);
      var r1 := UpdateLocation(t, Some(first), Some(52.0), Some(13.0), arc);
      && r1.Ok?
      && r1.value.tracker.history == [r1.value.sample.value]
      && r1.value.tracker.lastHome == r1.value.sample
      && var r2 := UpdateLocation(r1.value.tracker, Some(second), Some(52.0), Some(13.0), arc);
         && r2.Ok?
         && r2.value.tracker.history == [r1.value.sample.value, r2.value.sample.value]
  {
    var v1 := FromTelemetry(52.0003, 13.0003, 0.0, 0.0, ts1 as real);
    ArriveHome(t, arc, ts1);
    LeaveHome(v1, arc, ts2);
  }

  /** A fix at home replaces the history by itself, whatever came before. */
  lemma HomeFixResets(t: Tracker, d: DriveState, v: VehicleLocation, homeLat: real, homeLon: real, arc: Haversine)
    requires |t.history| <= Capacity
    requires SampleOf(d) == Some(v) && DistanceFrom(v, homeLat, homeLon, arc) == 0.0
    ensures UpdateLocation(t, Some(d), Some(homeLat), Some(homeLon), arc)
            == Ok(LocationUpdate(Tracker([v], Some(v)), Some(v)))
  {
    assert Admit([], v, arc) == [v] by {
      assert Push([], v) == [v];
    }
  }

  /** The first poll of the arrival example: the fix is home. */
  lemma ArriveHome(t: Tracker, arc: Haversine, ts: int)
    requires |t.history| <= Capacity
    ensures var v1 := FromTelemetry(52.0003, 13.0003, 0.0, 0.0, ts as real);
            UpdateLocation(t, Some(DriveState(Some(52.0003), Some(13.0003), None, 0, ts)), Some(52.0), Some(13.0), arc)
            == Ok(LocationUpdate(Tracker([v1], Some(v1)), Some(v1)))
  {
    var d := DriveState(Some(52.0003), Some(13.0003), None, 0, ts);
    var v1 := FromTelemetry(52.0003, 13.0003, 0.0, 0.0, ts as real);
    assert SampleOf(d) == Some(v1);
    assert DistanceFrom(v1, 52.0, 13.0, arc) == 0.0 by {
      assert WithinTolerance(52.0003, 13.0003, 52.0, 13.0);
    }
    HomeFixResets(t, d, v1, 52.0, 13.0, arc);
  }

  /** The second poll of the arrival example: the fix is away and kept. */
  lemma LeaveHome(v1: VehicleLocation, arc: Haversine, ts: int)
    requires arc(52.05, 13.05, 52.0, 13.0) != 0.0
    ensures var v2 := FromTelemetry(52.05, 13.05, 0.0, 0.0, ts as real);
            UpdateLocation(Tracker([v1], Some(v1)), Some(DriveState(Some(52.05), Some(13.05), None, 0, ts)),
                           Some(52.0), Some(13.0), arc)
            == Ok(LocationUpdate(Tracker([v1, v2], Some(v1)), Some(v2)))
  {
    var v2 := FromTelemetry(52.05, 13.05, 0.0, 0.0, ts as real);
    assert SampleOf(DriveState(Some(52.05), Some(13.05), None, 0, ts)) == Some(v2);
    assert DistanceFrom(v2, 52.0, 13.0, arc) != 0.0 by {
      assert !WithinTolerance(52.05, 13.05, 52.0, 13.0);
    }
    assert Admit([v1], v2, arc) == [v1, v2] by {
      assert Push([v1], v2) == [v1, v2];
    }
  }
}
