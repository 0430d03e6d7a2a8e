/** TeslaCharge.kt: whether the car is charging, the charge commands and
    the answers they map to, and the charge-state query. The commands go
    through `AuthRest.PostJson`, the query through `AuthRest.GetJson`. */
module Charge {
  import opened Wrappers
  import opened VehicleTypes
  import WebRequest
  import AuthRest
  import TeslaAuth

  // ---------------------------------------------------------------------
  // isVehicleCharging
  // ---------------------------------------------------------------------

  const Charging: string := "charging"

  /** The ASCII lower-case letters. */
  predicate LowerAscii(s: string)
  {
    forall i :: 0 <= i < |s| ==> 'a' <= s[i] <= 'z'
  }

  function AsciiUpper(c: char): char
  {
    if 'a' <= c <= 'z' then (c as int - 32) as char else c
  }

  function AsciiLower(c: char): char
  {
    if 'A' <= c <= 'Z' then (c as int + 32) as char else c
  }

  /** `equals(ignoreCase = true)` against a lower-case ASCII letter `t`: the
      letter itself, its upper case, or, for 'i', the dotted capital I
      (U+0130, whose lower case is 'i') and the dotless small i (U+0131,
      whose upper case is 'I'). No other character folds onto an ASCII
      letter of "charging". */
  predicate FoldsTo(c: char, t: char)
    requires 'a' <= t <= 'z'
  {
    c == t || c == AsciiUpper(t) || (t == 'i' && (c == '\U{0130}' || c == '\U{0131}'))
  }

  /** `s.equals(lower, ignoreCase = true)` for a lower-case ASCII `lower`. */
  predicate EqualsIgnoreCase(s: string, lower: string)
    requires LowerAscii(lower)
  {
    |s| == |lower| && forall i :: 0 <= i < |s| ==> FoldsTo(s[i], lower[i])
  }

  /** `isVehicleCharging`: a charge state with a charging state, an open
      charge port door, and a charging state that reads "charging" in any
      case. A failure to read the state is passed on. */
  function IsCharging(state: Result<Option<ChargeState>>): (r: Result<bool>)
    ensures state.Err? <==> r.Err?
    ensures r == Ok(true) <==>
              && state.Ok? && state.value.Some?
              && state.value.value.chargingState.Some?
              && state.value.value.chargePortDoorOpen
              && EqualsIgnoreCase(state.value.value.chargingState.value, Charging)
  {
    var cs :- state;
    match cs
    case None => Ok(false)
    case Some(c) =>
      if c.chargingState.Some? && c.chargePortDoorOpen then
        Ok(EqualsIgnoreCase(c.chargingState.value, Charging))
      else Ok(false)
  }

  /** For ASCII text, ignoring case means equal after mapping every upper
      case letter to lower case. */
  lemma EqualsIgnoreCaseAscii(s: string, lower: string)
    requires LowerAscii(lower)
    requires forall i :: 0 <= i < |s| ==> s[i] < 128 as char
    ensures EqualsIgnoreCase(s, lower) <==> seq(|s|, i requires 0 <= i < |s| => AsciiLower(s[i])) == lower
  {
    var folded := seq(|s|, i requires 0 <= i < |s| => AsciiLower(s[i]));
    if EqualsIgnoreCase(s, lower) {
      forall i | 0 <= i < |s|
        ensures folded[i] == lower[i]
      {
        assert FoldsTo(s[i], lower[i]);
      }
    }
    if folded == lower {
      forall i | 0 <= i < |s|
        ensures FoldsTo(s[i], lower[i])
      {
        assert AsciiLower(s[i]) == lower[i];
      }
    }
  }

  /** The car reports "Charging" with the door open: it is charging. */
  lemma ChargingExamples()
    ensures IsCharging(Ok(Some(ChargeState(Some("Charging"), true)))) == Ok(true)
  {
    assert EqualsIgnoreCase("Charging", Charging) by {
      var s := "Charging";
      assert forall i :: 0 <= i < |s| ==> FoldsTo(s[i], Charging[i]);
    }
  }

  /** The comparison ignores case: "CHARGING" is charging too. */
  lemma ChargingUpperCase()
    ensures IsCharging(Ok(Some(ChargeState(Some("CHARGING"), true)))) == Ok(true)
  {
    assert EqualsIgnoreCase("CHARGING", Charging) by {
      var s := "CHARGING";
      assert forall i :: 0 <= i < |s| ==> FoldsTo(s[i], Charging[i]);
    }
  }

  /** A closed door, another charging state, or no state at all is not
      charging. */
  lemma NotChargingExamples()
    ensures IsCharging(Ok(Some(ChargeState(Some("Charging"), false)))) == Ok(false)
    ensures IsCharging(Ok(Some(ChargeState(Some("Stopped"), true)))) == Ok(false)
    ensures IsCharging(Ok(Some(ChargeState(Some("Complete"), true)))) == Ok(false)
    ensures IsCharging(Ok(Some(ChargeState(None, true)))) == Ok(false)
    ensures IsCharging(Ok(None)) == Ok(false)
  {
    assert !EqualsIgnoreCase("Stopped", Charging) by {
      assert |"Stopped"| != |Charging|;
    }
    assert !EqualsIgnoreCase("Complete", Charging) by {
      assert !FoldsTo("Complete"[1], Charging[1]);
    }
  }

  // ---------------------------------------------------------------------
  // Commands
  // ---------------------------------------------------------------------

  /** `SimpleResponse` and its envelope `SimpleResult`. */
  datatype SimpleResponse = SimpleResponse(reason: Option<string>, result: bool)
  datatype SimpleResult = SimpleResult(response: Option<SimpleResponse>)

  const Unknown: string := "unknown"

  /** The answer of every command: "unknown" without an envelope or a
      response, null on success, otherwise the reason the car gave. */
  function CommandAnswer(reply: Option<SimpleResult>): (answer: Option<string>)
    ensures (reply.None? || reply.value.response.None?) ==> answer == Some(Unknown)
    ensures reply.Some? && reply.value.response.Some? ==>
              var resp := reply.value.response.value;
              && (resp.result ==> answer.None?)
              && (!resp.result ==> answer == resp.reason)
  {
    match reply
    case None => Some(Unknown)
    case Some(SimpleResult(None)) => Some(Unknown)
    case Some(SimpleResult(Some(resp))) => if resp.result then None else resp.reason
  }

  /** A rejected command without a reason looks exactly like a success,
      and a rejection whose reason is "unknown" looks like no answer. */
  lemma AnswerAmbiguities(reason: Option<string>)
    ensures CommandAnswer(Some(SimpleResult(Some(SimpleResponse(None, false)))))
         == CommandAnswer(Some(SimpleResult(Some(SimpleResponse(reason, true)))))
    ensures CommandAnswer(Some(SimpleResult(Some(SimpleResponse(Some(Unknown), false)))))
         == CommandAnswer(None)
  {
  }

  /** An answer is null exactly when the car accepted the command or gave
      no reason for refusing it. */
  lemma NullAnswerMeans(reply: Option<SimpleResult>)
    ensures CommandAnswer(reply).None? <==>
              reply.Some? && reply.value.response.Some? &&
              (reply.value.response.value.result || reply.value.response.value.reason.None?)
  {
  }

  /** The commands and their arguments. */
  datatype Command =
    | StartCharging
    | StopCharging
    | ChargePortOpen
    | ChargePortClose
    | SetChargeLimit(percent: int)
    | SetChargingAmps(amps: int)

  /** The path after the vehicle id. */
  function Suffix(cmd: Command): string
  {
    match cmd
    case StartCharging => "/command/charge_" + "start"
    case StopCharging => "/command/charge_" + "stop"
    case ChargePortOpen => "/command/charge_port_door_" + "open"
    case ChargePortClose => "/command/charge_port_door_" + "close"
    case SetChargeLimit(_) => "/command/set_charge_limit"
    case SetChargingAmps(_) => "/command/set_charging_amps"
  }

  /** The endpoint of a command for the vehicle `id`. */
  function Endpoint(id: Option<string>, cmd: Command): (url: string)
    ensures url == ApiBase + "/api/1/vehicles/" + TextOf(id) + Suffix(cmd)
  {
    VehiclePath(id, Suffix(cmd))
  }

  /** What each command targets. */
  lemma CommandSuffixes()
    ensures Suffix(StartCharging) == "/command/charge_start"
    ensures Suffix(StopCharging) == "/command/charge_stop"
    ensures Suffix(ChargePortOpen) == "/command/charge_port_door_open"
    ensures Suffix(ChargePortClose) == "/command/charge_port_door_close"
  {
  }

  /** The kind of a command, without its argument. */
  function Kind(cmd: Command): nat
  {
    match cmd
    case StartCharging => 0
    case StopCharging => 1
    case ChargePortOpen => 2
    case ChargePortClose => 3
    case SetChargeLimit(_) => 4
    case SetChargingAmps(_) => 5
  }

  /** Different kinds of command never reach the same endpoint. */
  lemma EndpointsDistinct(id: Option<string>, a: Command, b: Command)
    requires Kind(a) != Kind(b)
    ensures Endpoint(id, a) != Endpoint(id, b)
  {
    var pa, pb := Suffix(a), Suffix(b);
    var prefix := ApiBase + "/api/1/vehicles/" + TextOf(id);
    assert Endpoint(id, a) == prefix + pa && Endpoint(id, b) == prefix + pb;
    SuffixesDistinct(a, b);
    assert (prefix + pa)[|prefix|..] == pa && (prefix + pb)[|prefix|..] == pb;
  }

  lemma SuffixesDistinct(a: Command, b: Command)
    requires Kind(a) != Kind(b)
    ensures Suffix(a) != Suffix(b)
  {
    SuffixLiterals(a);
    SuffixLiterals(b);
  }

  lemma SuffixLiterals(a: Command)
    ensures Suffix(a) == ["/command/charge_start", "/command/charge_stop", "/command/charge_port_door_open",
                          "/command/charge_port_door_close", "/command/set_charge_limit",
                          "/command/set_charging_amps"][Kind(a)]
  {
  }

  /** The object Gson renders as the request body. */
  datatype Payload = NoPayload | Percent(percent: int) | ChargingAmps(chargingAmps: int)

  function PayloadOf(cmd: Command): (p: Payload)
    ensures cmd.SetChargeLimit? <==> p.Percent?
    ensures cmd.SetChargingAmps? <==> p.ChargingAmps?
    ensures p.Percent? ==> p.percent == cmd.percent
    ensures p.ChargingAmps? ==> p.chargingAmps == cmd.amps
  {
    match cmd
    case SetChargeLimit(n) => Percent(n)
    case SetChargingAmps(n) => ChargingAmps(n)
    case _ => NoPayload
  }

  /** Gson renders a null body as "null"; objects are rendered by `toJson`. */
  function RenderPayload(p: Payload, toJson: Payload -> string): string
  {
    if p.NoPayload? then "null" else toJson(p)
  }

  /** A command sent, and the answer it returns. */
  datatype CommandCall = CommandCall(call: AuthRest.Call<SimpleResult>, answer: Result<Option<string>>)

  /** `sendChargeCommand`, `sendChargePortCommand`, `setChargeLimit` and
      `setChargingAmps`. */
  function Send(c: AuthRest.Client, id: Option<string>, cmd: Command, toJson: Payload -> string,
                first: WebRequest.Exchange, refreshReply: Result<Option<TeslaAuth.TokenResponse>>,
                second: WebRequest.Exchange, decode: string -> AuthRest.Decoded<SimpleResult>): (s: CommandCall)
    ensures |s.call.sent| >= 1 && s.call.sent[0].url == Endpoint(id, cmd)
    ensures s.call.sent[0].verb == WebRequest.POST
    ensures s.call.sent[0].payload == Some(RenderPayload(PayloadOf(cmd), toJson)) || RenderPayload(PayloadOf(cmd), toJson) == ""
    ensures s.call.outcome.result.Err? <==> s.answer.Err?
    ensures s.call.outcome.result.Ok? ==> s.answer.value == CommandAnswer(s.call.outcome.result.value)
  {
    var body := RenderPayload(PayloadOf(cmd), toJson);
    var call := AuthRest.PostJson(c, Endpoint(id, cmd), body, first, refreshReply, second, decode);
    var answer := match call.outcome.result
      case Ok(reply) => Ok(CommandAnswer(reply))
      case Err(f) => Err(f);
    CommandCall(call, answer)
  }

  /** A command is posted once: a 401 from the car's endpoint is a plain
      failure, with no token refresh and no retry. */
  lemma CommandsNeverRefresh(c: AuthRest.Client, id: Option<string>, cmd: Command, toJson: Payload -> string,
                             first: WebRequest.Exchange, refreshReply: Result<Option<TeslaAuth.TokenResponse>>,
                             second: WebRequest.Exchange, decode: string -> AuthRest.Decoded<SimpleResult>)
    ensures var s := Send(c, id, cmd, toJson, first, refreshReply, second, decode);
            |s.call.sent| == 1 && s.call.outcome.refreshes == 0 && s.call.outcome.client == c
  {
    AuthRest.PostJsonNeverRetries(c, Endpoint(id, cmd), RenderPayload(PayloadOf(cmd), toJson),
                                  first, refreshReply, second, decode);
  }

  // ---------------------------------------------------------------------
  // chargeState
  // ---------------------------------------------------------------------

  /** `{ "response": ChargeState }` */
  datatype ChargeStateData = ChargeStateData(response: Option<ChargeState>)

  const ChargeStateSuffix: string := "/data_request/charge_state"

  /** `chargeState`: null when the envelope or its response is absent. */
  function ChargeStateAnswer(reply: Result<Option<ChargeStateData>>): (r: Result<Option<ChargeState>>)
    ensures reply.Err? ==> r == Err(reply.failure)
    ensures reply.Ok? ==> (r.Ok? && (r.value.None? <==> reply.value.None? || reply.value.value.response.None?))
    ensures r.Ok? && r.value.Some? ==> reply == Ok(Some(ChargeStateData(r.value)))
  {
    var data :- reply;
    match data
    case None => Ok(None)
    case Some(d) => Ok(d.response)
  }

  /** The query is a `getJSON` on the vehicle's charge-state endpoint. */
  function QueryChargeState(c: AuthRest.Client, id: Option<string>, first: WebRequest.Exchange,
                            refreshReply: Result<Option<TeslaAuth.TokenResponse>>,
                            second: WebRequest.Exchange, decode: string -> AuthRest.Decoded<ChargeStateData>)
    : (q: (AuthRest.Call<ChargeStateData>, Result<Option<ChargeState>>))
    ensures |q.0.sent| >= 1 && q.0.sent[0].url == VehiclePath(id, ChargeStateSuffix)
    ensures q.1 == ChargeStateAnswer(q.0.outcome.result)
  {
    var call := AuthRest.GetJson(c, VehiclePath(id, ChargeStateSuffix), first, refreshReply, second, decode);
    (call, ChargeStateAnswer(call.outcome.result))
  }
}
