/** The guards at the top of the handler: the HTTP method check, the required
    fields check and the garment limit, all decided before any request
    leaves the relay. */
module Validation {
  import opened Wrappers
  import opened JsValues

  const MethodNotAllowedMessage: string := "Método no permitido"
  const MissingFieldsMessage: string := "Faltan campos: model_url, prendas (array)"
  const TooManyGarmentsMessage: string := "Solo se permiten hasta 3 prendas por petición"
  const MaxGarments: nat := 3

  /** The outcome of the guards: an error response to send at once, or the
      model image reference and the garment list to relay. */
  datatype Verdict =
    | Reject(status: int, message: string)
    | Accept(modelUrl: JsValue, prendas: seq<JsValue>)

  /** True when the fields read from the body fail the required-fields test:
      `model_url` is falsy, or `prendas` is not an array or is empty. */
  predicate MissingFields(modelUrl: JsValue, prendas: JsValue)
  {
    !Truthy(modelUrl) || !prendas.Arr? || |prendas.items| == 0
  }

  /** The fields are missing exactly when `model_url` is one of JavaScript's
      falsy values, or `prendas` is not an array, or it is empty. */
  lemma MissingFieldsCases(modelUrl: JsValue, prendas: JsValue)
    ensures MissingFields(modelUrl, prendas) <==>
      || modelUrl == Undefined || modelUrl == Null || modelUrl == Bool(false)
      || modelUrl == Num(0) || modelUrl == Str("")
      || !prendas.Arr? || prendas.items == []
  {
  }

  /** Reads the two fields the handler destructures from the body; a body
      that is `null` or `undefined` reads as having neither. */
  function BodyField(body: JsValue, key: string): (r: JsValue)
    ensures IsNullish(body) ==> r == Undefined
    ensures !IsNullish(body) ==> Success(r) == ReadField(body, key)
  {
    match ReadField(body, key)
    case Success(v) => v
    case Failure(_) => Undefined
  }

  /** The guards, in the order the handler runs them. */
  function Classify(verb: string, body: JsValue): (r: Verdict)
    ensures verb != "POST" <==> r == Reject(405, MethodNotAllowedMessage)
    ensures r == Reject(400, MissingFieldsMessage) <==>
      verb == "POST" && MissingFields(BodyField(body, "model_url"), BodyField(body, "prendas"))
    ensures r == Reject(400, TooManyGarmentsMessage) <==>
      && verb == "POST"
      && !MissingFields(BodyField(body, "model_url"), BodyField(body, "prendas"))
      && |BodyField(body, "prendas").items| > MaxGarments
    ensures r.Reject? ==> r.status == 405 || r.status == 400
    ensures r.Accept? ==>
      && verb == "POST"
      && Truthy(r.modelUrl)
      && 1 <= |r.prendas| <= MaxGarments
      && r.modelUrl == BodyField(body, "model_url")
      && BodyField(body, "prendas") == Arr(r.prendas)
  {
    if verb != "POST" then Reject(405, MethodNotAllowedMessage)
    else
      var modelUrl, prendas := BodyField(body, "model_url"), BodyField(body, "prendas");
      if MissingFields(modelUrl, prendas) then Reject(400, MissingFieldsMessage)
      else if |prendas.items| > MaxGarments then Reject(400, TooManyGarmentsMessage)
      else Accept(modelUrl, prendas.items)
  }

  /** What the guards do as written: destructuring a `null` or `undefined`
      body throws before the required-fields test, outside the handler's
      try block, so the exception leaves the handler. */
  datatype Guarded = Decided(verdict: Verdict) | Escaped(error: Thrown)

  function ClassifyAsWritten(verb: string, body: JsValue): (r: Guarded)
    ensures verb != "POST" ==> r == Decided(Reject(405, MethodNotAllowedMessage))
    ensures r.Escaped? <==> verb == "POST" && IsNullish(body)
    ensures !IsNullish(body) ==> r == Decided(Classify(verb, body))
  {
    if verb != "POST" then Decided(Reject(405, MethodNotAllowedMessage))
    else if IsNullish(body) then
      var shown := if body.Null? then "null" else "undefined";
      Escaped(TypeError("Cannot destructure property 'model_url' of 'req.body' as it is " + shown + "."))
    else Decided(Classify(verb, body))
  }

  /** A POST without a body makes the handler throw instead of answering. */
  lemma NullBodyEscapes()
    ensures ClassifyAsWritten("POST", Null).Escaped?
    ensures Classify("POST", Null) == Reject(400, MissingFieldsMessage)
  {
  }
}
