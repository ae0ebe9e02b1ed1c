/**
 * The alert webhook's POST handler: an optional shared secret compared with
 * the Authorization header, a check that the region id and name are present,
 * and a log line naming the region, the number of active alerts and their
 * types. The configured secret, the header and the parsed body are inputs; the
 * log line is part of the result.
 */
module WebhookRoute {

  import opened Wrappers
  import opened Text
  import opened Json

  datatype Response = Response(status: int, body: Json)

  /** The response, and the line logged when the event is accepted. */
  datatype WebhookResult = WebhookResult(response: Response, log: Option<string>)

  const NoTypes := "немає"
  const LogPrefix := "📢 Webhook: "

  function ErrorReply(status: int, message: string): (r: Response)
    ensures r.status == status && Field(r.body, "error") == Some(JStr(message))
  {
    FieldNotRepeated([("error", JStr(message))], 0);
    Response(status, JObject([("error", JStr(message))]))
  }

  const Unauthorized := ErrorReply(401, "Unauthorized")
  const InvalidData := ErrorReply(400, "Invalid data")
  const InternalError := ErrorReply(500, "Internal error")

  /** The configured secret: an unset variable behaves like an empty one. */
  function Secret(env: Option<string>): (secret: string)
    ensures env.Some? ==> secret == env.value
    ensures env.None? ==> secret == ""
  {
    env.GetOr("")
  }

  /** Whether the request gets past the secret check. */
  predicate Authorized(secret: string, authorization: Option<string>) {
    secret == "" || authorization == Some(secret)
  }

  /** `activeAlerts?.length || 0`, for the values it is reached with: absent, null, or an array. */
  function AlertCount(activeAlerts: Option<Json>): (n: nat) {
    if activeAlerts.Some? && activeAlerts.value.JArray? then |activeAlerts.value.items| else 0
  }

  /** `a.type` of one alert, as `join` renders it: absent or null types render empty. */
  function TypeText(alert: Json): (t: string)
    requires !alert.JNull?
    ensures Field(alert, "type").Some? && Field(alert, "type").value.JStr? ==> t == Field(alert, "type").value.s
    ensures Field(alert, "type").None? ==> t == ""
  {
    var t := Field(alert, "type");
    if t.None? || t.value.JNull? then "" else ToJsString(t.value)
  }

  function TypeTexts(items: seq<Json>): (texts: seq<string>)
    requires forall i :: 0 <= i < |items| ==> !items[i].JNull?
    ensures |texts| == |items|
    ensures forall i :: 0 <= i < |items| ==> texts[i] == TypeText(items[i])
  {
    if |items| == 0 then [] else [TypeText(items[0])] + TypeTexts(items[1..])
  }

  /**
   * `activeAlerts?.map(a => a.type).join(", ") || "немає"`. None is a throw:
   * a present value that is not an array has no `map`, and a null alert has
   * no `type`.
   */
  function AlertTypesText(activeAlerts: Option<Json>): (r: Option<string>)
    ensures r.Some? <==> activeAlerts.None? || activeAlerts.value.JNull? ||
                         (activeAlerts.value.JArray? && forall i :: 0 <= i < |activeAlerts.value.items| ==> !activeAlerts.value.items[i].JNull?)
    ensures r.Some? ==> r.value != ""
  {
    if activeAlerts.None? || activeAlerts.value.JNull? then Some(NoTypes)
    else if !activeAlerts.value.JArray? then None
    else
      var items := activeAlerts.value.items;
      if exists i :: 0 <= i < |items| && items[i].JNull? then None
      else
        var joined := Join(TypeTexts(items), ", ");
        Some(if joined == "" then NoTypes else joined)
  }

  /** The line logged for an accepted event: region name, id, alert count and types. */
  function LogLine(regionName: Json, regionId: Json, count: nat, types: string): (line: string)
    ensures |line| > |LogPrefix| + |types| && line[..|LogPrefix|] == LogPrefix
    ensures line[|line| - |types|..] == types
  {
    LogPrefix + ToJsString(regionName) + " (" + ToJsString(regionId) + ") - "
    + "тривог: " + IntToString(count) + ", типи: " + types
  }

  /** The handler; a body that is not JSON (None) or is null ends in the catch-all 500. */
  function HandleWebhook(secret: string, authorization: Option<string>, body: Option<Json>): (r: WebhookResult)
    ensures !Authorized(secret, authorization) ==> r == WebhookResult(Unauthorized, None)
    ensures Authorized(secret, authorization) && (body.None? || body.value.JNull?) ==>
              r == WebhookResult(InternalError, None)
    ensures Authorized(secret, authorization) && body.Some? && !body.value.JNull?
            && !(Present(Field(body.value, "regionId")) && Present(Field(body.value, "regionName"))) ==>
              r == WebhookResult(InvalidData, None)
    ensures r.response.status == 200 <==> r.log.Some?
    ensures r.response.status == 200 ==>
              && Authorized(secret, authorization) && body.Some?
              && Present(Field(body.value, "regionId")) && Present(Field(body.value, "regionName"))
    ensures r.log.Some? ==>
              && AlertTypesText(Field(body.value, "activeAlerts")).Some?
              && r.log.value == LogLine(Field(body.value, "regionName").value, Field(body.value, "regionId").value,
                                        AlertCount(Field(body.value, "activeAlerts")),
                                        AlertTypesText(Field(body.value, "activeAlerts")).value)
  {
    if !Authorized(secret, authorization) then WebhookResult(Unauthorized, None)
    else if body.None? || body.value.JNull? then WebhookResult(InternalError, None)
    else
      var data := body.value;
      var regionId := Field(data, "regionId");
      var regionName := Field(data, "regionName");
      if !Present(regionId) || !Present(regionName) then WebhookResult(InvalidData, None)
      else
        var activeAlerts := Field(data, "activeAlerts");
        match AlertTypesText(activeAlerts)
        case None => WebhookResult(InternalError, None)
        case Some(types) =>
          var line := LogLine(regionName.value, regionId.value, AlertCount(activeAlerts), types);
          WebhookResult(Response(200, JObject([("ok", JBool(true)), ("received", regionId.value)])), Some(line))
  }

  /** With a secret configured, a wrong or missing header is refused before the body is looked at. */
  lemma WrongSecretRefused(secret: string, authorization: Option<string>, body1: Option<Json>, body2: Option<Json>)
    requires secret != "" && authorization != Some(secret)
    ensures HandleWebhook(secret, authorization, body1) == HandleWebhook(secret, authorization, body2)
    ensures HandleWebhook(secret, authorization, body1).response.status == 401
  {
  }

  /** Without a secret, and with the right header, the header does not matter. */
  lemma HeaderIgnoredWhenAuthorized(secret: string, a1: Option<string>, a2: Option<string>, body: Option<Json>)
    requires Authorized(secret, a1) && Authorized(secret, a2)
    ensures HandleWebhook(secret, a1, body) == HandleWebhook(secret, a2, body)
  {
  }

  /** An accepted event is acknowledged with its own region id. */
  lemma AcceptedEchoesRegion(secret: string, authorization: Option<string>, body: Option<Json>)
    requires HandleWebhook(secret, authorization, body).response.status == 200
    ensures Field(HandleWebhook(secret, authorization, body).response.body, "received") == Field(body.value, "regionId")
  {
    var data := body.value;
    var fields := [("ok", JBool(true)), ("received", Field(data, "regionId").value)];
    FieldNotRepeated(fields, 1);
  }

  /** A well-formed event whose alerts are objects is accepted and logs their number. */
  lemma WellFormedAccepted(secret: string, body: Json, items: seq<Json>)
    requires Present(Field(body, "regionId")) && Present(Field(body, "regionName"))
    requires Field(body, "activeAlerts") == Some(JArray(items))
    requires forall i :: 0 <= i < |items| ==> items[i].JObject?
    ensures var r := HandleWebhook(secret, Some(secret), Some(body));
            && r.response.status == 200
            && r.log.Some?
            && AlertCount(Field(body, "activeAlerts")) == |items|
            && r.log.value == LogLine(Field(body, "regionName").value, Field(body, "regionId").value, |items|,
                                      AlertTypesText(Some(JArray(items))).value)
  {
  }

  /**
   * "немає" replaces the joined types only when there is nothing to join: no
   * alerts, or one alert without a type. Two untyped alerts already join to a
   * bare separator, which is logged as it is.
   */
  lemma NoTypesOnlyWhenNothingJoined(items: seq<Json>)
    requires forall i :: 0 <= i < |items| ==> !items[i].JNull?
    ensures var texts := TypeTexts(items);
            AlertTypesText(Some(JArray(items))) ==
              Some(if |items| == 0 || (|items| == 1 && texts[0] == "") then NoTypes else Join(texts, ", "))
  {
    var texts := TypeTexts(items);
    ArrayTypesText(items);
    CommaJoinEmpty(texts);
  }

  /** For an array without null alerts the types are the joined type texts, "немає" if that is empty. */
  lemma ArrayTypesText(items: seq<Json>)
    requires forall i :: 0 <= i < |items| ==> !items[i].JNull?
    ensures var joined := Join(TypeTexts(items), ", ");
            AlertTypesText(Some(JArray(items))) == Some(if joined == "" then NoTypes else joined)
  {
  }

  /**
   * The count in the log line, for every value that reaches it: an absent or
   * null `activeAlerts` counts 0, an array counts its alerts.
   */
  lemma AlertCountOfLogged(activeAlerts: Option<Json>)
    requires AlertTypesText(activeAlerts).Some?
    ensures activeAlerts.None? || activeAlerts.value.JNull? ==> AlertCount(activeAlerts) == 0
    ensures activeAlerts.Some? && !activeAlerts.value.JNull? ==>
              activeAlerts.value.JArray? && AlertCount(activeAlerts) == |activeAlerts.value.items|
  {
  }

  /** With a non-empty separator, only no parts or one empty part join to "". */
  lemma CommaJoinEmpty(texts: seq<string>)
    ensures Join(texts, ", ") == "" <==> |texts| == 0 || (|texts| == 1 && texts[0] == "")
  {
    JoinEmpty(texts, ", ");
  }
}
