/**
 * The request/response ingress for availability events: `isIsoDateString`,
 * `validatePayload` and `deviceAvailabilityHandler` once the body is parsed.
 */
module AvailabilityHttp {
  import opened Wrappers
  import opened Json
  import opened Http
  import opened DeviceEvent
  import JsString
  import IsoDate

  const BodyNotObject := "Body must be a JSON object"
  const DeviceModelInvalid := "deviceModel must be a non-empty string"
  const AvailableCountInvalid := "availableCount must be a non-negative integer"
  const TimestampInvalid := "timestamp must be an ISO string"

  /** `{ ok: true, data }` or `{ ok: false, errors }` */
  datatype ValidationResult = Ok(data: DeviceAvailabilityEvent) | Failed(errors: seq<string>)

  /** `isIsoDateString(value)`: a string that `new Date` parses and `toISOString()` renders back unchanged. */
  predicate IsIsoDateString(value: Option<Json>) {
    TypeOf(value) == "string" && IsoDate.IsFixedPoint(value.value.str)
  }

  /** The body passes `!body || typeof body !== 'object'`. */
  predicate IsObjectBody(body: Json) {
    IsTruthy(body) && TypeOf(Some(body)) == "object"
  }

  predicate DeviceModelOk(deviceModel: Option<Json>) {
    TypeOf(deviceModel) == "string" && JsString.Trim(deviceModel.value.str) != ""
  }

  predicate AvailableCountOk(availableCount: Option<Json>) {
    TypeOf(availableCount) == "number" && IsInteger(availableCount.value.num) && availableCount.value.num >= 0.0
  }

  /** One message per failing field check, in the order the checks run. */
  function FieldErrors(deviceModelOk: bool, availableCountOk: bool, timestampOk: bool): seq<string> {
    (if deviceModelOk then [] else [DeviceModelInvalid])
    + (if availableCountOk then [] else [AvailableCountInvalid])
    + (if timestampOk then [] else [TimestampInvalid])
  }

  /** The errors `validatePayload` reports for `body`; none means the body is accepted. */
  function PayloadErrors(body: Json): seq<string> {
    if !IsObjectBody(body) then [BodyNotObject]
    else FieldErrors(DeviceModelOk(Get(body, "deviceModel")), AvailableCountOk(Get(body, "availableCount")),
                     IsIsoDateString(Get(body, "timestamp")))
  }

  /** `validatePayload(body)`: collects the field errors in a local list, as the source's `errors.push` does. */
  method ValidatePayload(body: Json) returns (result: ValidationResult)
    ensures result.Failed? <==> PayloadErrors(body) != []
    ensures result.Failed? ==> result.errors == PayloadErrors(body)
    ensures result.Ok? ==>
      Get(body, "deviceModel") == Some(JString(result.data.deviceModel))
      && Get(body, "availableCount") == Some(JNumber(result.data.availableCount))
      && Get(body, "timestamp") == Some(JString(result.data.timestamp))
  {
    var errors: seq<string> := [];
    if !IsObjectBody(body) {
      return Failed([BodyNotObject]);
    }
    var deviceModel, availableCount, timestamp :=
      Get(body, "deviceModel"), Get(body, "availableCount"), Get(body, "timestamp");
    var deviceModelOk, availableCountOk, timestampOk :=
      DeviceModelOk(deviceModel), AvailableCountOk(availableCount), IsIsoDateString(timestamp);
    if !deviceModelOk {
      errors := errors + [DeviceModelInvalid];
    }
    // The list so far holds the messages of the checks already run.
    assert errors == FieldErrors(deviceModelOk, true, true);
    if !availableCountOk {
      errors := errors + [AvailableCountInvalid];
    }
    assert errors == FieldErrors(deviceModelOk, availableCountOk, true);
    if !timestampOk {
      errors := errors + [TimestampInvalid];
    }
    assert errors == FieldErrors(deviceModelOk, availableCountOk, timestampOk);
    if |errors| > 0 {
      return Failed(errors);
    }
    assert deviceModelOk && availableCountOk && timestampOk;
    return Ok(DeviceAvailabilityEvent(deviceModel.value.str, availableCount.value.num, timestamp.value.str));
  }

  /** `{ error: 'ValidationError', details }` */
  function ValidationErrorBody(details: seq<string>): Json {
    JObject(map["error" := JString("ValidationError"), "details" := StringArray(details)])
  }

  /**
   * `deviceAvailabilityHandler` after `request.json()`: `body` is `None` when
   * the request body is not valid JSON.
   */
  method DeviceAvailabilityHandler(body: Option<Json>) returns (response: Response)
    ensures body.None? ==> response == Response(400, ErrorBody("Invalid JSON body"))
    ensures body.Some? && PayloadErrors(body.value) != [] ==>
      response == Response(400, ValidationErrorBody(PayloadErrors(body.value)))
    ensures body.Some? && PayloadErrors(body.value) == [] ==>
      response == Response(202, MessageBody("accepted"))
  {
    if body.None? {
      return Response(400, ErrorBody("Invalid JSON body"));
    }
    var result := ValidatePayload(body.value);
    if !result.Ok? {
      return Response(400, ValidationErrorBody(result.errors));
    }
    return Response(202, MessageBody("accepted"));
  }

  // ---- What the checks mean ----

  /** The body check lets exactly objects and arrays through; anything else gets the one body error. */
  lemma NonObjectBodyShortCircuits(body: Json)
    ensures IsObjectBody(body) <==> body.JObject? || body.JArray?
    ensures !(body.JObject? || body.JArray?) ==> PayloadErrors(body) == [BodyNotObject]
  {
  }

  /** The position of each field message in the check order: deviceModel, availableCount, timestamp. */
  function FieldRank(message: string): nat {
    if message == DeviceModelInvalid then 0
    else if message == AvailableCountInvalid then 1
    else 2
  }

  /**
   * Each failing check adds exactly its own message, none is skipped because
   * an earlier one failed, and they come in field order.
   */
  lemma FieldErrorsInOrder(deviceModelOk: bool, availableCountOk: bool, timestampOk: bool)
    ensures var errors := FieldErrors(deviceModelOk, availableCountOk, timestampOk);
      |errors| <= 3
      && BodyNotObject !in errors
      && (DeviceModelInvalid in errors <==> !deviceModelOk)
      && (AvailableCountInvalid in errors <==> !availableCountOk)
      && (TimestampInvalid in errors <==> !timestampOk)
      && (forall m :: m in errors ==> m == DeviceModelInvalid || m == AvailableCountInvalid || m == TimestampInvalid)
      && |errors| == (if deviceModelOk then 0 else 1) + (if availableCountOk then 0 else 1) + (if timestampOk then 0 else 1)
      && (forall i, j :: 0 <= i < j < |errors| ==> FieldRank(errors[i]) < FieldRank(errors[j]))
  {
  }

  /** On an object body the errors are the field errors, each reported independently of the others. */
  lemma FieldErrorsAccumulate(body: Json)
    requires IsObjectBody(body)
    ensures var errors := PayloadErrors(body);
      |errors| <= 3
      && BodyNotObject !in errors
      && (DeviceModelInvalid in errors <==> !DeviceModelOk(Get(body, "deviceModel")))
      && (AvailableCountInvalid in errors <==> !AvailableCountOk(Get(body, "availableCount")))
      && (TimestampInvalid in errors <==> !IsIsoDateString(Get(body, "timestamp")))
      && (forall m :: m in errors ==> m == DeviceModelInvalid || m == AvailableCountInvalid || m == TimestampInvalid)
      && |errors| == (if DeviceModelOk(Get(body, "deviceModel")) then 0 else 1)
                     + (if AvailableCountOk(Get(body, "availableCount")) then 0 else 1)
                     + (if IsIsoDateString(Get(body, "timestamp")) then 0 else 1)
      && (forall i, j :: 0 <= i < j < |errors| ==> FieldRank(errors[i]) < FieldRank(errors[j]))
  {
    FieldErrorsInOrder(DeviceModelOk(Get(body, "deviceModel")), AvailableCountOk(Get(body, "availableCount")),
                       IsIsoDateString(Get(body, "timestamp")));
  }

  /** `deviceModel` must be a string with a character that is not white space. */
  lemma DeviceModelRule(deviceModel: Option<Json>)
    ensures DeviceModelOk(deviceModel) <==>
      deviceModel.Some? && deviceModel.value.JString? && !JsString.IsBlank(deviceModel.value.str)
  {
    if deviceModel.Some? && deviceModel.value.JString? {
      JsString.TrimEmptyIffBlank(deviceModel.value.str);
    }
  }

  /** `availableCount` must be a number that is a whole number at least 0; 0 itself passes. */
  lemma AvailableCountRule(availableCount: Option<Json>)
    ensures AvailableCountOk(availableCount) <==>
      exists k: nat :: availableCount == Some(NatNumber(k))
  {
    if AvailableCountOk(availableCount) {
      var k: nat := availableCount.value.num.Floor;
      assert availableCount == Some(NatNumber(k));
    }
  }

  /** The JSON number `k`. */
  function NatNumber(k: nat): Json {
    JNumber(k as real)
  }

  /** `timestamp` must be the canonical rendering of a valid date. */
  lemma TimestampRule(timestamp: Option<Json>)
    ensures IsIsoDateString(timestamp) <==>
      timestamp.Some? && timestamp.value.JString?
      && exists d :: IsoDate.IsValid(d) && IsoDate.ToIsoString(d) == timestamp.value.str
  {
    if timestamp.Some? && timestamp.value.JString? {
      IsoDate.FixedPointIffCanonical(timestamp.value.str);
    }
  }

  /** A bad count and a bad timestamp are both reported, not only the first. */
  lemma TwoBadFieldsGiveTwoErrors()
    ensures PayloadErrors(JObject(map[
      "deviceModel" := JString("iPad"),
      "availableCount" := JNumber(-1.0),
      "timestamp" := JString("not-a-date")])) == [AvailableCountInvalid, TimestampInvalid]
  {
    var body := JObject(map[
      "deviceModel" := JString("iPad"),
      "availableCount" := JNumber(-1.0),
      "timestamp" := JString("not-a-date")]);
    assert !JsString.IsWhiteSpace('i') && !JsString.IsWhiteSpace('d');
    assert JsString.Trim("iPad") == "iPad";
    assert !IsoDate.HasIsoShape("not-a-date");
    assert Get(body, "deviceModel") == Some(JString("iPad"));
    assert Get(body, "availableCount") == Some(JNumber(-1.0));
    assert Get(body, "timestamp") == Some(JString("not-a-date"));
  }
}
