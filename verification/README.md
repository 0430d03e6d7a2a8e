# tesla4kotlin core in Dafny

A model of the client core of tesla4kotlin, a Kotlin library for controlling a Tesla
vehicle through the owner API. It covers these parts:

- **Sign-in.** `TeslaAuth` runs the OAuth 2.0 authorization-code flow with PKCE. It builds a
  random verifier and state, turns the SHA-256 digest into a base64url challenge, builds the
  authorize URL and form, and scans the hidden `<input>` fields of the login page. It also
  exchanges and refreshes tokens, and writes refreshed tokens back to the configuration file.
- **HTTP layer.** `WebRequest` sets the base headers, lets caller headers and the bearer token
  and cookies overwrite them, and maps status messages to failures.
- **Retry.** `AuthRestRequest` retries a GET once after a token refresh when the first attempt
  fails with an HTTP 401.
- **Configuration.** `TeslaConfiguration` rewrites the `key=value` properties file and reads
  its values back.
- **Vehicle.** `TeslaVehicle` selects the vehicle by VIN, caches vehicle data for ten seconds,
  wakes the car, and keeps a bounded location history that drops stationary runs.
  `VehicleLocation` holds one GPS fix and its distance rules.
- **Charging.** `TeslaCharge` reports whether the car is charging and sends charge commands.

Modules follow the source files:

- `Wrappers` holds `Option`, `Result` and the failure kinds that stand in for the exceptions
  the Kotlin code throws.
- `Strings` holds the `indexOf`, `trim`, `split`, `joinToString` and decimal-rendering rules
  the code relies on.
- `Location` models `VehicleLocation.kt`. `LocationHistory` and `VehicleSession` model
  `TeslaVehicle.kt`, and `VehicleTypes` holds its JSON classes.
- `WebRequest`, `AuthRest` (`AuthRestRequest.kt` and the JSON calls of `RestRequest.kt`),
  `TeslaAuth` (with `HiddenFields` for the authorize page scan), `Configuration` and `Charge`
  (`TeslaCharge.kt`) each model the file they are named after.

Several things outside the code become parameters of the model:

- The network is a value of type `Exchange`: a delivered body, a read failure with the
  exception message, or a connect failure.
- The clock is an integer argument.
- `Math.random()` is a sequence of draws in `[0, 1)`.
- The haversine arc, SHA-256 plus Base64, `URLEncoder`, Gson decoding and encoding, and the
  rendering and parsing of doubles are function arguments.
- A Kotlin exception is an `Err` carrying the matching `Failure`, and `!!` on `null` is
  `NullPointer`.

In four places the model follows the code rather than its description:

- `retrieveTokens` returns the token response and does not store it.
- A POST never turns a 401 into an authentication failure, so `postJson` never refreshes.
- Rewriting the configuration file trims every line, and a `null` change is written as `null`.
- A command without a body posts the JSON text of `null`.

## Model

| member | source | states |
|---|---|---|
| Wrappers.NotNull | src/main/kotlin/de/apps_roters/tesla_for_kotlin/tesla/TeslaVehicle.kt:86 | `!!` yields the value when present and a NullPointerException exactly when it is null |
| Strings.IndexOf | src/main/kotlin/de/apps_roters/tesla_for_kotlin/tesla/TeslaAuth.kt:84 | `indexOf(pat, from)` returns the first occurrence at or after `from`, or -1 exactly when there is none |
| Strings.Trim | src/main/kotlin/de/apps_roters/tesla_for_kotlin/tesla/TeslaConfiguration.kt:29 | `trim { it <= ' ' }` returns a slice of the line with only blanks cut from both ends and no blank left at either end |
| Strings.TrimIdempotent | src/main/kotlin/de/apps_roters/tesla_for_kotlin/tesla/TeslaConfiguration.kt:29 | trimming a trimmed line changes nothing |
| Strings.SplitOn | src/main/kotlin/de/apps_roters/tesla_for_kotlin/tesla/TeslaAuth.kt:90 | splitting on a delimiter gives pieces free of it that join back to the input |
| Strings.DropTrailingEmpty | src/main/kotlin/de/apps_roters/tesla_for_kotlin/tesla/TeslaAuth.kt:90 | `dropLastWhile { it.isEmpty() }` keeps a prefix ending in a non-empty piece and drops only empty pieces |
| Strings.JoinLength | src/main/kotlin/de/apps_roters/tesla_for_kotlin/web/WebRequest.kt:219-231 | a join is as long as its items plus one separator between each pair |
| Strings.DecimalRoundTrip | src/main/kotlin/de/apps_roters/tesla_for_kotlin/web/WebRequest.kt:152-158 | the decimal text written as Content-Length reads back as the body length |
| Location.ToInt32 | src/main/kotlin/de/apps_roters/tesla_for_kotlin/tesla/VehicleLocation.kt:36 | `Double.toInt()` keeps in-range values and saturates at the 32-bit bounds |
| Location.TruncDiv | src/main/kotlin/de/apps_roters/tesla_for_kotlin/tesla/VehicleLocation.kt:27 | Long division by 1000 truncates toward zero for both signs |
| Location.SecondsOf | src/main/kotlin/de/apps_roters/tesla_for_kotlin/tesla/VehicleLocation.kt:36 | `floor(ts / 1000).toInt()` is a 32-bit value and, in range, the whole seconds of a millisecond timestamp |
| Location.AtPosition | src/main/kotlin/de/apps_roters/tesla_for_kotlin/tesla/VehicleLocation.kt:24-28 | the two-argument constructor keeps the position, zeroes speed, heading and arrival, clears both flags, and stamps the current second |
| Location.FromTelemetry | src/main/kotlin/de/apps_roters/tesla_for_kotlin/tesla/VehicleLocation.kt:31-37 | the telemetry constructor keeps position, speed and heading and stores the timestamp in seconds |
| Location.SetGoingAwayFromHome | src/main/kotlin/de/apps_roters/tesla_for_kotlin/tesla/VehicleLocation.kt:77-80 | sets the going-away flag and leaves every other field unchanged |
| Location.SetGoingHome | src/main/kotlin/de/apps_roters/tesla_for_kotlin/tesla/VehicleLocation.kt:82-85 | sets the going-home flag and leaves every other field unchanged |
| Location.SetHeading | src/main/kotlin/de/apps_roters/tesla_for_kotlin/tesla/VehicleLocation.kt:87-90 | sets the heading and leaves every other field unchanged |
| Location.SetLatitude | src/main/kotlin/de/apps_roters/tesla_for_kotlin/tesla/VehicleLocation.kt:92-95 | sets the latitude and leaves every other field unchanged |
| Location.SetLongitude | src/main/kotlin/de/apps_roters/tesla_for_kotlin/tesla/VehicleLocation.kt:97-100 | sets the longitude and leaves every other field unchanged |
| Location.SetMinutesToArrival | src/main/kotlin/de/apps_roters/tesla_for_kotlin/tesla/VehicleLocation.kt:102-105 | sets the minutes to arrival and leaves every other field unchanged |
| Location.SetSpeed | src/main/kotlin/de/apps_roters/tesla_for_kotlin/tesla/VehicleLocation.kt:107-110 | sets the speed and leaves every other field unchanged |
| Location.SetTimestamp | src/main/kotlin/de/apps_roters/tesla_for_kotlin/tesla/VehicleLocation.kt:112-115 | converts the timestamp exactly as the telemetry constructor does and leaves every other field unchanged |
| Location.EnrichmentIsConstruction | src/main/kotlin/de/apps_roters/tesla_for_kotlin/tesla/TeslaVehicle.kt:238-245 | a telemetry fix with arrival minutes and the going-home flag set through the setters equals the record built with those values directly |
| Location.ArrivalTimeSeconds | src/main/kotlin/de/apps_roters/tesla_for_kotlin/tesla/VehicleLocation.kt:72-73 | the arrival time is the timestamp plus the whole seconds of the minutes to arrival, saturated to the 32-bit minimum or maximum when it falls outside |
| Location.TimestampMillis | src/main/kotlin/de/apps_roters/tesla_for_kotlin/tesla/VehicleLocation.kt:74-75 | the millisecond view is the timestamp times 1000, and converting it back to seconds gives the stored timestamp |
| Location.DistanceFrom | src/main/kotlin/de/apps_roters/tesla_for_kotlin/tesla/VehicleLocation.kt:45-70 | within 0.0008 degrees in both axes the distance is exactly zero, and otherwise it is the haversine arc of the two points |
| Location.DistanceTo | src/main/kotlin/de/apps_roters/tesla_for_kotlin/tesla/VehicleLocation.kt:40-42 | the distance to another fix is the distance from this fix to its coordinates: zero inside the tolerance cell around it, the haversine distance otherwise |
| Location.ToleranceSymmetric | src/main/kotlin/de/apps_roters/tesla_for_kotlin/tesla/VehicleLocation.kt:53-55 | the zero-distance tolerance does not depend on which fix comes first |
| Location.DistanceSymmetric | src/main/kotlin/de/apps_roters/tesla_for_kotlin/tesla/VehicleLocation.kt:40-70 | for a symmetric arc, distance is symmetric |
| Location.ZeroDistanceReflexive | src/main/kotlin/de/apps_roters/tesla_for_kotlin/tesla/VehicleLocation.kt:53-55 | every fix is zero distance from itself |
| Location.NearHomeIsHome | src/main/kotlin/de/apps_roters/tesla_for_kotlin/tesla/VehicleLocation.kt:53-55 | a fix 0.0003 degrees off home in both axes is zero distance from home, whatever the arc |
| LocationHistory.Push | src/main/kotlin/de/apps_roters/tesla_for_kotlin/tesla/TeslaVehicle.kt:21 | the 250-slot FIFO appends and evicts the oldest entry when full, keeping the newest entries in order |
| LocationHistory.Admit | src/main/kotlin/de/apps_roters/tesla_for_kotlin/tesla/TeslaVehicle.kt:283-294 | a fix is dropped exactly when the last two entries and it are all zero distance apart, and otherwise it is pushed |
| LocationHistory.AdmitKeepsNoStationaryRun | src/main/kotlin/de/apps_roters/tesla_for_kotlin/tesla/TeslaVehicle.kt:283-294 | the history never holds three consecutive fixes that are zero distance apart |
| LocationHistory.ThreeStillFixes | src/main/kotlin/de/apps_roters/tesla_for_kotlin/tesla/TeslaVehicle.kt:283-294 | three identical fixes leave only two entries |
| LocationHistory.SampleOf | src/main/kotlin/de/apps_roters/tesla_for_kotlin/tesla/TeslaVehicle.kt:238-245 | a drive state yields a fix exactly when it has both coordinates; a missing speed reads as 0 |
| LocationHistory.UpdateLocation | src/main/kotlin/de/apps_roters/tesla_for_kotlin/tesla/TeslaVehicle.kt:235-298 | a sample with no home position fails with NullPointer, no sample changes nothing, a fix at home clears the history and becomes the last home, and the history stays bounded |
| LocationHistory.UpdateKeepsValid | src/main/kotlin/de/apps_roters/tesla_for_kotlin/tesla/TeslaVehicle.kt:235-298 | every update keeps the history bounded and free of stationary runs |
| LocationHistory.HomeFixResets | src/main/kotlin/de/apps_roters/tesla_for_kotlin/tesla/TeslaVehicle.kt:272-276 | a fix at home replaces whatever history there was by that fix alone and records it as the last home fix |
| LocationHistory.HomeArrivalExample | src/main/kotlin/de/apps_roters/tesla_for_kotlin/tesla/TeslaVehicle.kt:272-276 | arriving at home leaves a history holding only the home fix, and a later fix away is appended to it, whatever the poll times |
| LocationHistory.HomePosition | src/main/kotlin/de/apps_roters/tesla_for_kotlin/tesla/TeslaVehicle.kt:95-96 | the home position fails with NullPointer when a coordinate is missing, and otherwise is a fix at zero distance from home |
| VehicleSession.FirstVinMatch | src/main/kotlin/de/apps_roters/tesla_for_kotlin/tesla/TeslaVehicle.kt:74-83 | the loop stops at the first vehicle with an id, a VIN and the wanted VIN, and finds nothing exactly when no vehicle qualifies |
| VehicleSession.SelectVehicle | src/main/kotlin/de/apps_roters/tesla_for_kotlin/tesla/TeslaVehicle.kt:61-84 | a lone vehicle with no configured VIN is chosen when it has an id; otherwise the first full VIN match is chosen |
| VehicleSession.VinMatchSkipsIncomplete | src/main/kotlin/de/apps_roters/tesla_for_kotlin/tesla/TeslaVehicle.kt:76 | a vehicle without an id is skipped even when its VIN would match |
| VehicleSession.MatchForVin | src/main/kotlin/de/apps_roters/tesla_for_kotlin/tesla/TeslaVehicle.kt:55-93 | request failures propagate, a missing match fails with NullPointer, and a match stores its VIN, id and (when present) display name and persists them |
| VehicleSession.ReadVehicleData | src/main/kotlin/de/apps_roters/tesla_for_kotlin/tesla/TeslaVehicle.kt:107-140 | a fresh cache is served without a request; otherwise the fetch is made, a non-null response replaces the cache, and anything else keeps it |
| VehicleSession.ReadKeepsCoherent | src/main/kotlin/de/apps_roters/tesla_for_kotlin/tesla/TeslaVehicle.kt:108-121 | a cache stamp is never set without a cached response, so a fresh read never dereferences null |
| VehicleSession.CacheTimeline | src/main/kotlin/de/apps_roters/tesla_for_kotlin/tesla/TeslaVehicle.kt:108-110 | a fetch at time T is served again at T + 9999 without a fetch and refetched at T + 10000, the edge of the `< 10000` test |
| VehicleSession.FailedFetchKeepsCache | src/main/kotlin/de/apps_roters/tesla_for_kotlin/tesla/TeslaVehicle.kt:116-121 | a failed or empty fetch leaves the cache as it was |
| VehicleSession.DriveStateOf | src/main/kotlin/de/apps_roters/tesla_for_kotlin/tesla/TeslaVehicle.kt:200-205 | the drive state is the vehicle's when both exist, null otherwise, and failures propagate |
| VehicleSession.ChargeStateOf | src/main/kotlin/de/apps_roters/tesla_for_kotlin/tesla/TeslaVehicle.kt:216-221 | the charge state is the vehicle's when both exist, null otherwise, and failures propagate |
| VehicleSession.FetchVehicleData | src/main/kotlin/de/apps_roters/tesla_for_kotlin/tesla/TeslaVehicle.kt:112-116 | a cache miss GETs `<apiBase>/api/1/vehicles/<id>/vehicle_data`, once or, after a refresh, twice |
| VehicleSession.WakeUp | src/main/kotlin/de/apps_roters/tesla_for_kotlin/tesla/TeslaVehicle.kt:149-166 | waking succeeds exactly when the reply's vehicle state is "online", and failures propagate |
| VehicleSession.WakeUpCall | src/main/kotlin/de/apps_roters/tesla_for_kotlin/tesla/TeslaVehicle.kt:149-166 | the wake-up is one JSON POST of "null" to `<apiBase>/api/1/vehicles/<id>/wake_up`, never refreshed or retried, and its reply is read as above |
| VehicleSession.InitHome | src/main/kotlin/de/apps_roters/tesla_for_kotlin/tesla/TeslaVehicle.kt:28-43 | stored home coordinates are used as read; a failed latitude read skips the longitude read; when they cannot both be read and the drive state has both coordinates, that position becomes home and is persisted, and otherwise whatever was read is kept and nothing is persisted |
| WebRequest.SetBearer | src/main/kotlin/de/apps_roters/tesla_for_kotlin/web/WebRequest.kt:31-33 | setting the bearer replaces only the bearer and keeps the cookies |
| WebRequest.JoinItems | src/main/kotlin/de/apps_roters/tesla_for_kotlin/web/WebRequest.kt:219-231 | a null list joins to the empty string; otherwise the items are joined with the separator |
| WebRequest.GetBaseHeaders | src/main/kotlin/de/apps_roters/tesla_for_kotlin/web/WebRequest.kt:74-75 | a GET starts with exactly Accept `*/*` and the library's User-Agent |
| WebRequest.PostBaseHeaders | src/main/kotlin/de/apps_roters/tesla_for_kotlin/web/WebRequest.kt:152-158 | a POST sets the form Content-Type and, for a non-empty body, its decimal length in UTF-16 code units |
| Strings.Utf16Length | src/main/kotlin/de/apps_roters/tesla_for_kotlin/web/WebRequest.kt:155-156 | `body.length` counts UTF-16 code units: between one and two per character, and equal to the character count exactly when every character is in the Basic Multilingual Plane |
| WebRequest.ContentLengthRoundTrip | src/main/kotlin/de/apps_roters/tesla_for_kotlin/web/WebRequest.kt:152-158 | the Content-Length property reads back as the body's UTF-16 length |
| WebRequest.Enrich | src/main/kotlin/de/apps_roters/tesla_for_kotlin/web/WebRequest.kt:35-48 | caller headers overwrite base headers, then the bearer token and the cookie list overwrite both, and no other header appears |
| WebRequest.EnrichIsLastWriterWins | src/main/kotlin/de/apps_roters/tesla_for_kotlin/web/WebRequest.kt:35-48 | each header takes the value of the last layer that sets it: base, caller, then bearer and cookies |
| WebRequest.GetRequest | src/main/kotlin/de/apps_roters/tesla_for_kotlin/web/WebRequest.kt:68-80 | a GET has no payload, the enriched GET headers and the 30 s read / 15 s connect timeouts |
| WebRequest.PostRequest | src/main/kotlin/de/apps_roters/tesla_for_kotlin/web/WebRequest.kt:146-172 | a POST writes the body only when it is non-empty, with the enriched POST headers and the same timeouts |
| WebRequest.PostAnnouncesPayload | src/main/kotlin/de/apps_roters/tesla_for_kotlin/web/WebRequest.kt:152-172 | unless the caller overrides it, the Content-Length property set is the UTF-16 length of the payload written |
| WebRequest.BearerAuthorizesRequests | src/main/kotlin/de/apps_roters/tesla_for_kotlin/web/WebRequest.kt:31-48 | after `setBearer` both verbs carry `Authorization: Bearer <token>` |
| WebRequest.ClassifyGet | src/main/kotlin/de/apps_roters/tesla_for_kotlin/web/WebRequest.kt:88-94 | a GET read failure mentioning 401 is an authentication failure, one mentioning 408 is a sleeping car, a null message is NullPointer, and every other failure propagates |
| WebRequest.ClassifyPost | src/main/kotlin/de/apps_roters/tesla_for_kotlin/web/WebRequest.kt:174-182 | a POST returns the body or propagates the I/O failure unchanged |
| WebRequest.Status401OnlyCaughtByGet | src/main/kotlin/de/apps_roters/tesla_for_kotlin/web/WebRequest.kt:88-94 | the same 401 message is an authentication failure on GET and a plain I/O failure on POST |
| WebRequest.StatusMessageExamples | src/main/kotlin/de/apps_roters/tesla_for_kotlin/web/WebRequest.kt:88-94 | the 401 test comes first, so a message naming both codes is an authentication failure |
| AuthRest.JsonHeaders | src/main/kotlin/de/apps_roters/tesla_for_kotlin/web/RestRequest.kt:81-88 | the JSON calls send a JSON Accept and Content-Type |
| AuthRest.Fetch | src/main/kotlin/de/apps_roters/tesla_for_kotlin/web/RestRequest.kt:34-41 | a body is decoded by Gson, malformed JSON is a codec failure, and transport failures propagate |
| AuthRest.FetchAuthenticationFromTransport | src/main/kotlin/de/apps_roters/tesla_for_kotlin/web/RestRequest.kt:34-41 | an authentication failure after decoding can only come from the transport |
| AuthRest.Retry | src/main/kotlin/de/apps_roters/tesla_for_kotlin/web/AuthRestRequest.kt:28-45 | at most one refresh and two attempts; the refresh happens exactly on an authentication failure, and the retry exactly when the refresh succeeds |
| AuthRest.GetJson | src/main/kotlin/de/apps_roters/tesla_for_kotlin/web/AuthRestRequest.kt:28-35 | one or two GETs of the same URL are sent, the second with the refreshed token |
| AuthRest.PostJson | src/main/kotlin/de/apps_roters/tesla_for_kotlin/web/AuthRestRequest.kt:37-45 | one or two POSTs of the same URL are sent, the first with the JSON body and headers |
| AuthRest.GetWithoutAuthFailure | src/main/kotlin/de/apps_roters/tesla_for_kotlin/web/AuthRestRequest.kt:28-35 | without an authentication failure a GET is sent once and nothing is refreshed |
| AuthRest.Get401RefreshesAndRetries | src/main/kotlin/de/apps_roters/tesla_for_kotlin/web/AuthRestRequest.kt:28-35 | a GET that fails with 401 refreshes and retries once with the new bearer |
| AuthRest.FailedRefreshStopsRetry | src/main/kotlin/de/apps_roters/tesla_for_kotlin/web/AuthRestRequest.kt:28-35 | when the refresh fails, its failure is returned and the GET is not retried |
| AuthRest.SleepingCarPropagates | src/main/kotlin/de/apps_roters/tesla_for_kotlin/web/AuthRestRequest.kt:28-35 | a sleeping-car failure is returned without a refresh |
| AuthRest.PostJsonNeverRetries | src/main/kotlin/de/apps_roters/tesla_for_kotlin/web/AuthRestRequest.kt:37-45 | because POST never reports 401, `postJson` always sends once and never refreshes |
| AuthRest.PostJsonSendsJson | src/main/kotlin/de/apps_roters/tesla_for_kotlin/web/RestRequest.kt:81-88 | a JSON POST carries the JSON Content-Type and the body as payload |
| AuthRest.GetJsonAcceptsAnything | src/main/kotlin/de/apps_roters/tesla_for_kotlin/web/RestRequest.kt:34-41 | a JSON GET sends the plain `*/*` Accept, because the JSON headers it builds are not passed on |
| AuthRest.Get | src/main/kotlin/de/apps_roters/tesla_for_kotlin/web/AuthRestRequest.kt:13-17 | a plain GET is forwarded once with the caller's headers |
| AuthRest.Post | src/main/kotlin/de/apps_roters/tesla_for_kotlin/web/AuthRestRequest.kt:18-21 | a plain POST is forwarded once with the caller's headers |
| AuthRest.SetClientBearer | src/main/kotlin/de/apps_roters/tesla_for_kotlin/web/AuthRestRequest.kt:22-25 | setting the bearer changes only the transport's bearer |
| AuthRest.PlainGetDoesNotRetry | src/main/kotlin/de/apps_roters/tesla_for_kotlin/web/AuthRestRequest.kt:13-17 | a plain GET that hits 401 fails after one request |
| Configuration.KeyEnd | src/main/kotlin/de/apps_roters/tesla_for_kotlin/tesla/TeslaConfiguration.kt:30 | a line is a setting exactly when its first `=` is past position 0 |
| Configuration.RewriteLines | src/main/kotlin/de/apps_roters/tesla_for_kotlin/tesla/TeslaConfiguration.kt:28-40 | the rewrite produces one line per input line |
| Configuration.RewriteLineMeaning | src/main/kotlin/de/apps_roters/tesla_for_kotlin/tesla/TeslaConfiguration.kt:29-38 | a trimmed setting whose key is changed gets the new value, other settings keep theirs, and other lines are only trimmed |
| Configuration.KeyOfKeyValue | src/main/kotlin/de/apps_roters/tesla_for_kotlin/tesla/TeslaConfiguration.kt:30-33 | a written `key=value` line reads back with the same key |
| Configuration.RewriteLineKeepsKey | src/main/kotlin/de/apps_roters/tesla_for_kotlin/tesla/TeslaConfiguration.kt:29-38 | rewriting a line never changes its key |
| Configuration.RewriteLineIdempotent | src/main/kotlin/de/apps_roters/tesla_for_kotlin/tesla/TeslaConfiguration.kt:29-38 | rewriting a line twice with the same changes equals rewriting it once |
| Configuration.RewriteLinesIdempotent | src/main/kotlin/de/apps_roters/tesla_for_kotlin/tesla/TeslaConfiguration.kt:23-51 | applying the same changes twice leaves the file as applying them once |
| Configuration.UpdateConfiguration | src/main/kotlin/de/apps_roters/tesla_for_kotlin/tesla/TeslaConfiguration.kt:42-50 | the file is written exactly when it had at least one line, and then holds the rewritten lines |
| Configuration.RewriteTouchesOnlyChangedKeys | src/main/kotlin/de/apps_roters/tesla_for_kotlin/tesla/TeslaConfiguration.kt:28-40 | a line whose key is not among the changes only loses its surrounding blanks |
| Configuration.TokenChanges | src/main/kotlin/de/apps_roters/tesla_for_kotlin/tesla/TeslaConfiguration.kt:54-59 | updating tokens changes exactly the access and refresh token keys |
| Configuration.VinChanges | src/main/kotlin/de/apps_roters/tesla_for_kotlin/tesla/TeslaConfiguration.kt:62-68 | updating the vehicle changes exactly the VIN, id and display-name keys |
| Configuration.HomeChanges | src/main/kotlin/de/apps_roters/tesla_for_kotlin/tesla/TeslaConfiguration.kt:71-76 | updating home changes exactly the two coordinate keys to their rendered values |
| Configuration.ReadRequired | src/main/kotlin/de/apps_roters/tesla_for_kotlin/tesla/TeslaConfiguration.kt:101-109 | a token read returns the stored text and fails with NullPointer exactly when the key is missing |
| Configuration.ReadOptional | src/main/kotlin/de/apps_roters/tesla_for_kotlin/tesla/TeslaConfiguration.kt:111-124 | an identity read maps an empty value to null, returns any other value, and fails with NullPointer on a missing key |
| Configuration.ReadCoordinate | src/main/kotlin/de/apps_roters/tesla_for_kotlin/tesla/TeslaConfiguration.kt:126-134 | a coordinate read succeeds exactly when the key exists and its value parses |
| Configuration.StoredIdentityReadsBack | src/main/kotlin/de/apps_roters/tesla_for_kotlin/tesla/TeslaConfiguration.kt:62-68 | a VIN, id or display name as rendered for the properties file reads back as the value, except that null reads back as the text "null" |
| HiddenFields.Attributes | src/main/kotlin/de/apps_roters/tesla_for_kotlin/tesla/TeslaAuth.kt:88-91 | the name and value are cut from the first two space-separated pieces, failing with an index error when the field is too short |
| HiddenFields.ParseField | src/main/kotlin/de/apps_roters/tesla_for_kotlin/tesla/TeslaAuth.kt:86-92 | a marker with no closing `/>` after it yields nothing; otherwise its field's name and value are parsed |
| HiddenFields.ScanFrom | src/main/kotlin/de/apps_roters/tesla_for_kotlin/tesla/TeslaAuth.kt:83-94 | the scan only adds keys, and returns the fields so far when no marker remains |
| HiddenFields.ScanHiddenFields | src/main/kotlin/de/apps_roters/tesla_for_kotlin/tesla/TeslaAuth.kt:81-95 | the loop computes the scan from position 0 with an empty map |
| HiddenFields.ParseElement | src/main/kotlin/de/apps_roters/tesla_for_kotlin/tesla/TeslaAuth.kt:86-92 | the input at the start of a rendered element parses back to its name and value |
| HiddenFields.ScanRoundTrip | src/main/kotlin/de/apps_roters/tesla_for_kotlin/tesla/TeslaAuth.kt:83-94 | scanning a page of hidden inputs, each preceded by arbitrary markup in which no `<input type="hidden" ` marker starts and followed by such markup, returns exactly the map of the inputs' names to values, a later input overwriting an earlier one of the same name; names and values must hold no space, '/' or '<' |
| HiddenFields.ScanRendered | src/main/kotlin/de/apps_roters/tesla_for_kotlin/tesla/TeslaAuth.kt:83-94 | from any index before the first input, with no marker in between, the scan adds each remaining input to the fields found so far |
| HiddenFields.MarkupNoMarker | src/main/kotlin/de/apps_roters/tesla_for_kotlin/tesla/TeslaAuth.kt:84 | the `indexOf` search for the marker finds nothing inside marker-free markup, even in a match that would run into the following element |
| HiddenFields.LaterDuplicateWins | src/main/kotlin/de/apps_roters/tesla_for_kotlin/tesla/TeslaAuth.kt:91 | when two inputs of a page, with any marker-free markup around them, share a name, the scan keeps the later value |
| HiddenFields.EmptyInputFails | src/main/kotlin/de/apps_roters/tesla_for_kotlin/tesla/TeslaAuth.kt:88-91 | an input element with no attributes fails with an index error |
| TeslaAuth.CharOf | src/main/kotlin/de/apps_roters/tesla_for_kotlin/tesla/TeslaAuth.kt:40-42 | every draw picks a character of the 62-character alphabet |
| TeslaAuth.CreateRandomString | src/main/kotlin/de/apps_roters/tesla_for_kotlin/tesla/TeslaAuth.kt:37-44 | the string has the requested length and its i-th character comes from the i-th draw |
| TeslaAuth.AlphabetUnreserved | src/main/kotlin/de/apps_roters/tesla_for_kotlin/tesla/TeslaAuth.kt:15 | every alphabet character is an unreserved URL character |
| TeslaAuth.ToBase64Url | src/main/kotlin/de/apps_roters/tesla_for_kotlin/tesla/TeslaAuth.kt:53-54 | the challenge has no `+`, `/` or `=` and is the base64 text without its padding |
| TeslaAuth.Base64UrlRoundTrip | src/main/kotlin/de/apps_roters/tesla_for_kotlin/tesla/TeslaAuth.kt:53-54 | the base64url transform loses nothing but the padding: mapping `-`/`_` back and re-padding restores the base64 text |
| TeslaAuth.DigestChallengeLength | src/main/kotlin/de/apps_roters/tesla_for_kotlin/tesla/TeslaAuth.kt:53-54 | a SHA-256 digest in base64 gives a 43-character challenge |
| TeslaAuth.CreateVerifier | src/main/kotlin/de/apps_roters/tesla_for_kotlin/tesla/TeslaAuth.kt:47-59 | an 86-character unreserved verifier, its base64url digest as challenge, and a 10-character state, drawn in that order |
| TeslaAuth.Pairs | src/main/kotlin/de/apps_roters/tesla_for_kotlin/tesla/TeslaAuth.kt:63-72 | each query parameter is written as `name=value` |
| TeslaAuth.PrepareAuthUrl | src/main/kotlin/de/apps_roters/tesla_for_kotlin/tesla/TeslaAuth.kt:62-74 | without a verifier the URL fails with NullPointer; otherwise it is the authorize endpoint with the `&`-joined parameters |
| TeslaAuth.AuthQueryIsJoin | src/main/kotlin/de/apps_roters/tesla_for_kotlin/tesla/TeslaAuth.kt:63-72 | the query built step by step equals the `&`-join of its parameters |
| TeslaAuth.AuthorizeForm | src/main/kotlin/de/apps_roters/tesla_for_kotlin/tesla/TeslaAuth.kt:109-116 | the login form is the encoded identity followed by every encoded hidden field, `&`-joined, and a null email fails with NullPointer |
| TeslaAuth.EncodedPairs | src/main/kotlin/de/apps_roters/tesla_for_kotlin/tesla/TeslaAuth.kt:112-115 | each form field is written URL-encoded as `name=value` |
| TeslaAuth.PostAuthorize | src/main/kotlin/de/apps_roters/tesla_for_kotlin/tesla/TeslaAuth.kt:99-129 | the login is posted to the authorize URL with the form as body, and fails with NullPointer without a verifier or email |
| TeslaAuth.Authorize | src/main/kotlin/de/apps_roters/tesla_for_kotlin/tesla/TeslaAuth.kt:77-96 | the login page's hidden fields are scanned, and URL or transport failures propagate |
| TeslaAuth.AuthorizeRequest | src/main/kotlin/de/apps_roters/tesla_for_kotlin/tesla/TeslaAuth.kt:78-79 | the login page is fetched by a GET without payload of the authorize URL carrying the session's PKCE parameters, with the base GET headers enriched from the transport; without a PKCE pair it fails |
| TeslaAuth.RetrieveTokens | src/main/kotlin/de/apps_roters/tesla_for_kotlin/tesla/TeslaAuth.kt:132-141 | the code is exchanged with the PKCE verifier, and the response is returned without being stored |
| TeslaAuth.RefreshTokens | src/main/kotlin/de/apps_roters/tesla_for_kotlin/tesla/TeslaAuth.kt:149-164 | a refresh without a refresh token or reply fails with NullPointer; a reply with both tokens replaces them, sets the bearer and persists them, and any other reply changes nothing |
| TeslaAuth.RefreshGrant | src/main/kotlin/de/apps_roters/tesla_for_kotlin/tesla/TeslaAuth.kt:167-171 | the refresh request carries the stored refresh token |
| TeslaAuth.RefreshPersistsTokens | src/main/kotlin/de/apps_roters/tesla_for_kotlin/tesla/TeslaAuth.kt:156-163 | after a refresh the configuration's token lines carry the new tokens |
| TeslaAuth.NewSession | src/main/kotlin/de/apps_roters/tesla_for_kotlin/tesla/TeslaAuth.kt:25-35 | construction fails with NullPointer when a token key is missing; otherwise the session holds both stored tokens and no PKCE data, and the access token is the bearer |
| Charge.IsCharging | src/main/kotlin/de/apps_roters/tesla_for_kotlin/tesla/TeslaCharge.kt:27-36 | the car is charging exactly when the port door is open and the state equals "charging" ignoring case |
| Charge.EqualsIgnoreCaseAscii | src/main/kotlin/de/apps_roters/tesla_for_kotlin/tesla/TeslaCharge.kt:32 | for ASCII text, ignoring case means lower-casing each character |
| Charge.ChargingExamples | src/main/kotlin/de/apps_roters/tesla_for_kotlin/tesla/TeslaCharge.kt:27-36 | "Charging" with an open door is charging |
| Charge.ChargingUpperCase | src/main/kotlin/de/apps_roters/tesla_for_kotlin/tesla/TeslaCharge.kt:27-36 | the state is compared ignoring case, so "CHARGING" is charging too |
| Charge.NotChargingExamples | src/main/kotlin/de/apps_roters/tesla_for_kotlin/tesla/TeslaCharge.kt:27-36 | a closed door, "Stopped", "Complete", a null state or no charge state at all is not charging |
| Charge.CommandAnswer | src/main/kotlin/de/apps_roters/tesla_for_kotlin/tesla/TeslaCharge.kt:53-57 | no response is "unknown", success is null, and failure is the reason |
| Charge.AnswerAmbiguities | src/main/kotlin/de/apps_roters/tesla_for_kotlin/tesla/TeslaCharge.kt:53-57 | a failure without a reason looks like success, and a failure with reason "unknown" looks like no response |
| Charge.NullAnswerMeans | src/main/kotlin/de/apps_roters/tesla_for_kotlin/tesla/TeslaCharge.kt:53-57 | a null answer means success or a failure with no reason |
| Charge.Endpoint | src/main/kotlin/de/apps_roters/tesla_for_kotlin/tesla/TeslaCharge.kt:49-52 | every command is posted under the vehicle's API path |
| Charge.CommandSuffixes | src/main/kotlin/de/apps_roters/tesla_for_kotlin/tesla/TeslaCharge.kt:87-113 | start, stop, open and close map to their command paths |
| Charge.EndpointsDistinct | src/main/kotlin/de/apps_roters/tesla_for_kotlin/tesla/TeslaCharge.kt:49-143 | different commands post to different URLs |
| Charge.PayloadOf | src/main/kotlin/de/apps_roters/tesla_for_kotlin/tesla/TeslaCharge.kt:116-143 | only the charge limit and charging amps commands carry a value, and it is the argument given |
| Charge.Send | src/main/kotlin/de/apps_roters/tesla_for_kotlin/tesla/TeslaCharge.kt:49-58 | a command is posted to its endpoint with its JSON payload, and the reply is read as the command answer |
| Charge.CommandsNeverRefresh | src/main/kotlin/de/apps_roters/tesla_for_kotlin/tesla/TeslaCharge.kt:53 | a charge command is sent once and never refreshes the token |
| Charge.ChargeStateAnswer | src/main/kotlin/de/apps_roters/tesla_for_kotlin/tesla/TeslaCharge.kt:150-151 | the charge state is the response's when present and null otherwise, and failures propagate |
| Charge.QueryChargeState | src/main/kotlin/de/apps_roters/tesla_for_kotlin/tesla/TeslaCharge.kt:147-152 | the charge state is fetched from the vehicle's `charge_state` path |

## Left out

- Network and file I/O are left out. Connections, streams, the `Scanner`/`FileWriter` of the
  properties file and `Properties` loading are modelled only as values passed in and out.
- Reloading the configuration when the file's modification time changes is left out, because
  it only re-reads the file.
- Logging and the `toString` dumps of the JSON classes are left out; they have no effect on
  results.
- The haversine trigonometry is left out and is the function parameter `arc`. Only the
  tolerance branch of `distanceFrom` is concrete.
- SHA-256, Base64, `URLEncoder` and Gson are left out; they are function parameters.
- Location.DistanceFrom: coordinates are exact reals rather than IEEE doubles, so the tolerance
  test does not suffer rounding.
- Strings are sequences of Unicode characters, while Kotlin indexes strings by UTF-16 code unit.
  Indices, lengths and the `substring` bounds checks of the hidden-field parser therefore count
  characters, and differ from the source's once a character outside the Basic Multilingual Plane
  is present (where the source may also cut a surrogate pair in half). The one length that leaves the program, Content-Length, is counted in UTF-16 units
  (`Strings.Utf16Length`).
- Header names are compared exactly, while `HttpURLConnection` ignores their case.
- Caller header maps holding null keys or values are not modelled.
- HiddenFields.ScanRoundTrip: names and values are kept free of ' ', '/' and '<'. The scanner
  itself only needs them to hold no space, no `/>` and no marker. A name or value holding a '/'
  or '<' that starts neither would also read back; the model does not prove it.
- HiddenFields.ScanFrom: a fields map is a Dafny `map`, so the `HashMap`'s iteration order,
  which decides the form field order in `postAuthorize`, is taken as a given sequence.
- TeslaAuth.RetrieveTokens and TeslaAuth.RefreshTokens: the token endpoint URL both post to is not
  modelled; each takes the reply of that POST as a parameter and states the grant it posts.
- TeslaAuth.PostAuthorize: returns the request it would send; sending it and logging the reply
  are left out.
- TeslaAuth.NewSession: the exit path (`System.exit(1)` at `TeslaAuth.kt:32`) cannot be
  reached from missing keys, because reading a missing token throws first. The model keeps the
  branch but does not state when it could fire.
- `vehicleState` (`TeslaVehicle.kt:179-189`), the commented-out wake-and-retry in
  `vehicleData`, and the commented-out navigation code in `updateVehicleLocationDetails` are
  not modelled, because they are unused or dead.
- `processHeaderCookies` is not modelled because it is commented out. The `Cookie` header is
  built from the transport's cookie list.
- The cookie store: the JDK `CookieManager` installed as the default handler
  (`WebRequest.kt:15-16`) records the `Set-Cookie` headers of every response, a 401 included.
  The model holds the cookie list fixed for the whole of one call. So the cookies of the
  retried GET in `getJSON`, of a refresh, and of `postAuthorize` after the login page are
  those the call started with, not those the earlier replies may have added.
- `RestRequest.processResponseData` and the `JSONObject` overloads of `RestRequest` are left
  out, because the core calls only the Gson-typed `getJSON`/`postJson`.
- `Main.kt` (a command-line driver) and the build scripts are not part of this model.
- The JVM `assert` in `refreshTokens` is disabled at run time and is not modelled. A null
  refresh token fails at the `!!` instead.
