/**
 * The `/api/push/send` POST handler: validate the request body (three
 * required fields, a whitelisted notification type, a default region), forward
 * it to the push server under renamed fields, and map the push server's answer
 * to the response. The parsed body and the push server's answer are inputs.
 */
module PushSendRoute {

  import opened Wrappers
  import opened Text
  import opened Json

  datatype Response = Response(status: int, body: Json)

  /** What the call to the push server produced. */
  datatype Upstream =
    | SendThrew                                  // fetch or reading the answer threw
    | SendRejected(status: int, errorText: string) // an answer that is not ok
    | SendAccepted(result: Json)

  /** The response, and the body forwarded to the push server if the request got that far. */
  datatype SendResult = SendResult(response: Response, forwarded: Option<Json>)

  const ValidTypes: seq<string> := ["blackout_30min", "blackout_change", "blackout_tomorrow"]
  const DefaultRegion := "kyiv"
  const MissingFieldsError := "Потрібні поля: type, title, message"
  const InvalidTypePrefix := "Невірний тип. Дозволені: "
  const SendErrorPrefix := "Помилка відправки push: "
  const CallFailedError := "Помилка при виклику push сервера"
  const InternalError := "Внутрішня помилка сервера"

  function ErrorBody(message: string): (j: Json)
    ensures Field(j, "ok") == Some(JBool(false))
  {
    var fields := [("ok", JBool(false)), ("error", JStr(message))];
    FieldNotRepeated(fields, 0);
    JObject(fields)
  }

  /** The body relayed for an answer that is not ok. */
  function RejectedBody(status: int, errorText: string): (j: Json)
    ensures Field(j, "ok") == Some(JBool(false))
    ensures Field(j, "details") == Some(JStr(errorText))
  {
    var fields := [("ok", JBool(false)),
                   ("error", JStr(SendErrorPrefix + IntToString(status))),
                   ("details", JStr(errorText))];
    FieldNotRepeated(fields, 0);
    FieldNotRepeated(fields, 2);
    JObject(fields)
  }

  /** The body for an accepted push: the push server's own answer under `result`. */
  function AcceptedBody(result: Json): (j: Json)
    ensures Field(j, "ok") == Some(JBool(true))
    ensures Field(j, "result") == Some(result)
  {
    var fields := [("ok", JBool(true)), ("result", result)];
    FieldNotRepeated(fields, 0);
    FieldNotRepeated(fields, 1);
    JObject(fields)
  }

  /** The body's `ok` flag is true. */
  predicate Succeeded(response: Response) {
    Field(response.body, "ok") == Some(JBool(true))
  }

  /** `validTypes.includes(type)`: only one of the three strings matches. */
  predicate IsValidType(t: Option<Json>) {
    t.Some? && t.value.JStr? && t.value.s in ValidTypes
  }

  /** The destructuring default: it applies only when the field is absent, not when it is null. */
  function RegionOrDefault(region: Option<Json>): (r: Json)
    ensures region.Some? ==> r == region.value
    ensures region.None? ==> r == JStr(DefaultRegion)
  {
    region.GetOr(JStr(DefaultRegion))
  }

  /** The body sent to the push server: the message travels as `body`. */
  function Forwarded(t: Json, title: Json, message: Json, region: Json): (j: Json)
    ensures Field(j, "type") == Some(t) && Field(j, "title") == Some(title)
    ensures Field(j, "body") == Some(message) && Field(j, "region") == Some(region)
    ensures Field(j, "message").None?
  {
    var fields := [("type", t), ("title", title), ("body", message), ("region", region)];
    FieldNotRepeated(fields, 0);
    FieldNotRepeated(fields, 1);
    FieldNotRepeated(fields, 2);
    FieldNotRepeated(fields, 3);
    JObject(fields)
  }

  /** The message listing the allowed types. */
  function InvalidTypeError(): (m: string) {
    InvalidTypePrefix + Join(ValidTypes, ", ")
  }

  /** The handler. A body that is not JSON (None) or is null makes the outer `try` fail. */
  function HandleSend(body: Option<Json>, upstream: Upstream): (r: SendResult)
    ensures body.None? || body.value.JNull? ==> r == SendResult(Response(500, ErrorBody(InternalError)), None)
    ensures body.Some? && !body.value.JNull? &&
            !(Present(Field(body.value, "type")) && Present(Field(body.value, "title")) && Present(Field(body.value, "message"))) ==>
              r == SendResult(Response(400, ErrorBody(MissingFieldsError)), None)
    ensures r.forwarded.Some? ==>
              && body.Some? && IsValidType(Field(body.value, "type"))
              && Present(Field(body.value, "title")) && Present(Field(body.value, "message"))
    ensures Succeeded(r.response) <==> r.forwarded.Some? && upstream.SendAccepted?
  {
    if body.None? || body.value.JNull? then SendResult(Response(500, ErrorBody(InternalError)), None)
    else
      var data := body.value;
      var t := Field(data, "type");
      var title := Field(data, "title");
      var message := Field(data, "message");
      if !Present(t) || !Present(title) || !Present(message) then
        SendResult(Response(400, ErrorBody(MissingFieldsError)), None)
      else if !IsValidType(t) then
        SendResult(Response(400, ErrorBody(InvalidTypeError())), None)
      else
        var forwarded := Forwarded(t.value, title.value, message.value, RegionOrDefault(Field(data, "region")));
        var response := match upstream
          case SendThrew => Response(500, ErrorBody(CallFailedError))
          case SendRejected(status, errorText) => Response(status, RejectedBody(status, errorText))
          case SendAccepted(result) => Response(200, AcceptedBody(result));
        SendResult(response, Some(forwarded))
  }

  /** A request passes validation: a non-null object with the three fields truthy and a known type. */
  predicate ValidRequest(body: Option<Json>) {
    && body.Some? && !body.value.JNull?
    && IsValidType(Field(body.value, "type"))
    && Present(Field(body.value, "title")) && Present(Field(body.value, "message"))
  }

  /** Exactly the valid requests reach the push server, whatever it will answer. */
  lemma ForwardsIffValid(body: Option<Json>, upstream: Upstream)
    ensures HandleSend(body, upstream).forwarded.Some? <==> ValidRequest(body)
  {
    if ValidRequest(body) {
      var t := Field(body.value, "type");
      assert Truthy(t.value) by { assert t.value.s in ValidTypes; }
    }
  }

  /** The forwarded body carries the request's fields, the message renamed to `body`, the region defaulted. */
  lemma ForwardedReadsBack(body: Option<Json>, upstream: Upstream)
    requires ValidRequest(body)
    ensures var data := body.value;
            var f := HandleSend(body, upstream).forwarded;
            && f.Some?
            && Field(f.value, "type") == Field(data, "type")
            && Field(f.value, "title") == Field(data, "title")
            && Field(f.value, "body") == Field(data, "message")
            && Field(f.value, "region") == Some(RegionOrDefault(Field(data, "region")))
            && Field(f.value, "message").None?
  {
    ForwardsIffValid(body, upstream);
    var data := body.value;
    assert HandleSend(body, upstream).forwarded
           == Some(Forwarded(Field(data, "type").value, Field(data, "title").value,
                             Field(data, "message").value, RegionOrDefault(Field(data, "region"))));
  }

  /** The invalid-type message spells out the three allowed types. */
  lemma InvalidTypeErrorText()
    ensures InvalidTypeError() == InvalidTypePrefix + "blackout_30min, blackout_change, blackout_tomorrow"
  {
    var last := Join(ValidTypes[2..], ", ");
    assert last == "blackout_tomorrow";
    var tail := Join(ValidTypes[1..], ", ");
    assert tail == "blackout_change" + ", " + last by { assert ValidTypes[1..][1..] == ValidTypes[2..]; }
    assert Join(ValidTypes, ", ") == "blackout_30min" + ", " + tail;
  }

  /** The type is checked only once all three fields are present, and its rejection lists the allowed types. */
  lemma UnknownTypeRejected(body: Option<Json>, upstream: Upstream)
    requires body.Some? && !body.value.JNull?
    requires Present(Field(body.value, "type")) && Present(Field(body.value, "title")) && Present(Field(body.value, "message"))
    requires !IsValidType(Field(body.value, "type"))
    ensures HandleSend(body, upstream) == SendResult(Response(400, ErrorBody(InvalidTypeError())), None)
    ensures InvalidTypeError() == InvalidTypePrefix + "blackout_30min, blackout_change, blackout_tomorrow"
  {
    InvalidTypeErrorText();
  }

  /** A refusing push server's status and text are relayed, and the response is not a success. */
  lemma RejectionRelayed(body: Option<Json>, status: int, errorText: string)
    requires ValidRequest(body)
    ensures var r := HandleSend(body, SendRejected(status, errorText)).response;
            r.status == status && !Succeeded(r) && Field(r.body, "details") == Some(JStr(errorText))
  {
    ForwardsIffValid(body, SendRejected(status, errorText));
  }

  /** An accepted push returns the push server's answer under `result` with status 200. */
  lemma AcceptanceRelayed(body: Option<Json>, result: Json)
    requires ValidRequest(body)
    ensures var r := HandleSend(body, SendAccepted(result)).response;
            r.status == 200 && Succeeded(r) && Field(r.body, "result") == Some(result)
  {
    ForwardsIffValid(body, SendAccepted(result));
  }
}
