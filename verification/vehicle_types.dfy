/** The response shapes of the vehicle API that the client reads
    (TeslaVehicle.kt inner classes), keeping only the fields it uses,
    and the request paths it builds. */
module VehicleTypes {
  import opened Wrappers

  const ApiBase: string := "https://owner-api.teslamotors.com"

  /** Kotlin string templates render `null` as the text "null". */
  function TextOf(s: Option<string>): string
  {
    match s
    case Some(v) => v
    case None => "null"
  }

  /** `apiBase + "/api/1/vehicles/" + id + suffix`. */
  function VehiclePath(id: Option<string>, suffix: string): string
  {
    ApiBase + "/api/1/vehicles/" + TextOf(id) + suffix
  }

  datatype DriveState = DriveState(
    latitude: Option<real>,
    longitude: Option<real>,
    speed: Option<real>,
    heading: int,
    timestamp: int)              // epoch milliseconds

  datatype ChargeState = ChargeState(
    chargingState: Option<string>,   // e.g. "Charging", "Stopped", "Disconnected"
    chargePortDoorOpen: bool)

  datatype Vehicle = Vehicle(
    idS: Option<string>,
    vin: Option<string>,
    displayName: Option<string>,
    state: Option<string>,           // e.g. "online", "asleep"
    driveState: Option<DriveState>,
    chargeState: Option<ChargeState>)

  /** `{ "response": Vehicle }` */
  datatype VehicleData = VehicleData(response: Option<Vehicle>)

  /** `{ "response": [Vehicle], "count": n }` */
  datatype VehicleList = VehicleList(response: Option<seq<Vehicle>>)
}
