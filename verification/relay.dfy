/** The request handler end to end. Everything it does over the network is
    supplied by an environment: the downloads of the images, the POST to
    the try-on service, and the random boundary suffix. A run returns the
    handler's response together with the requests it sent, in order. */
module Relay {
  import opened Wrappers
  import opened Buffers
  import opened JsValues
  import opened Multipart
  import opened TryOnForm
  import opened Validation
  import opened Translation
  import opened Seqs

  const TasksEndpoint: string := "https://platform.fitroom.app/api/tryon/v2/tasks"

  /** An inbound request: its HTTP method and its parsed body. */
  datatype Request = Request(verb: string, body: JsValue)

  /** The outcome of `fetch(url)` followed by `arrayBuffer()`: the bytes of
      whatever the server answered (the status is not looked at), or the
      exception either step raised. */
  datatype Download = Downloaded(bytes: seq<byte>) | DownloadFailed(error: Thrown)

  type Header = (string, string)

  /** The world outside the handler. `fetchCloth` is told the garment's
      position as well as its URL, so two garments with one URL may fare
      differently. */
  datatype Env = Env(
    boundarySuffix: string,
    apiKey: string,
    fetchModel: JsValue -> Download,
    fetchCloth: (nat, JsValue) -> Download,
    post: (seq<Header>, seq<byte>) -> Upstream)

  /** A request the handler sends. */
  datatype Call = Get(resource: JsValue) | Post(endpoint: string, headers: seq<Header>, body: seq<byte>)

  datatype Run = Run(response: Response, calls: seq<Call>)

  /** The headers of the POST to the try-on service; the key is configuration. */
  function Headers(apiKey: string, boundary: string): (r: seq<Header>)
    ensures ("Authorization", "Bearer " + apiKey) in r && ("X-API-KEY", apiKey) in r
    ensures ("Content-Type", ContentTypeValue(boundary)) in r
    ensures |r| == 3 && forall i, j :: 0 <= i < j < |r| ==> r[i].0 != r[j].0
  {
    [("Authorization", "Bearer " + apiKey), ("X-API-KEY", apiKey), ("Content-Type", ContentTypeValue(boundary))]
  }

  /** The index of the first garment that is `null` or `undefined`, if any. */
  function FirstNullish(prendas: seq<JsValue>): (r: Option<nat>)
    ensures r.None? <==> forall i :: 0 <= i < |prendas| ==> !IsNullish(prendas[i])
    ensures r.Some? ==>
      && r.value < |prendas|
      && IsNullish(prendas[r.value])
      && forall i :: 0 <= i < r.value ==> !IsNullish(prendas[i])
  {
    if |prendas| == 0 then None
    else if IsNullish(prendas[0]) then Some(0)
    else match FirstNullish(prendas[1..])
      case None => None
      case Some(k) => Some(k + 1)
  }

  /** The `cloth_url` of a garment that is neither `null` nor `undefined`. */
  function ClothUrl(p: JsValue): JsValue
    requires !IsNullish(p)
  {
    ReadField(p, "cloth_url").value
  }

  /** The downloads the garments start: one GET per garment whose `cloth_url`
      can be read, in request order. A `null` garment throws when its URL
      is read, but the garments after it still start theirs. */
  function GarmentGets(prendas: seq<JsValue>): (r: seq<Call>)
    ensures |r| <= |prendas|
    ensures NoPost(r)
    ensures FirstNullish(prendas).None? ==>
      |r| == |prendas| && forall i :: 0 <= i < |prendas| ==> r[i] == Get(ClothUrl(prendas[i]))
  {
    if |prendas| == 0 then []
    else
      var last := prendas[|prendas| - 1];
      var init := GarmentGets(prendas[..|prendas| - 1]);
      assert FirstNullish(prendas).None? ==> FirstNullish(prendas[..|prendas| - 1]).None?;
      if IsNullish(last) then init else init + [Get(ClothUrl(last))]
  }

  /** Garment k's download failed and every download before it succeeded. */
  predicate FirstFailedDownload(prendas: seq<JsValue>, env: Env, k: int)
    requires forall i :: 0 <= i < |prendas| ==> !IsNullish(prendas[i])
  {
    && 0 <= k < |prendas|
    && env.fetchCloth(k, ClothUrl(prendas[k])).DownloadFailed?
    && forall i :: 0 <= i < k ==> env.fetchCloth(i, ClothUrl(prendas[i])).Downloaded?
  }

  /** The first of the first n garment downloads that failed, if any. */
  function FirstFailed(prendas: seq<JsValue>, env: Env, n: nat): (r: Option<nat>)
    requires n <= |prendas|
    requires forall i :: 0 <= i < |prendas| ==> !IsNullish(prendas[i])
    ensures r.None? <==> forall i :: 0 <= i < n ==> env.fetchCloth(i, ClothUrl(prendas[i])).Downloaded?
    ensures r.Some? ==> r.value < n && FirstFailedDownload(prendas, env, r.value)
  {
    if n == 0 then None
    else
      match FirstFailed(prendas, env, n - 1)
      case Some(k) => Some(k)
      case None =>
        if env.fetchCloth(n - 1, ClothUrl(prendas[n - 1])).DownloadFailed? then Some(n - 1) else None
  }

  /** The downloads of garments that can all be read, joined: every image,
      or the failure of the first garment (in request order) whose
      download failed. */
  function FetchAll(prendas: seq<JsValue>, env: Env): (r: Result<seq<seq<byte>>, Thrown>)
    requires forall i :: 0 <= i < |prendas| ==> !IsNullish(prendas[i])
    ensures r.Success? <==> forall i :: 0 <= i < |prendas| ==> env.fetchCloth(i, ClothUrl(prendas[i])).Downloaded?
    ensures r.Success? ==>
      && |r.value| == |prendas|
      && forall i :: 0 <= i < |prendas| ==> r.value[i] == env.fetchCloth(i, ClothUrl(prendas[i])).bytes
    ensures r.Failure? ==>
      exists k :: FirstFailedDownload(prendas, env, k) && env.fetchCloth(k, ClothUrl(prendas[k])).error == r.error
  {
    match FirstFailed(prendas, env, |prendas|)
    case Some(k) => Failure(env.fetchCloth(k, ClothUrl(prendas[k])).error)
    case None => Success(seq(|prendas|, i requires 0 <= i < |prendas| => env.fetchCloth(i, ClothUrl(prendas[i])).bytes))
  }

  /** `Promise.all` over the garment downloads. A garment that is `null` or
      `undefined` rejects at once, so the first such garment decides the
      outcome before any download can; otherwise the downloads are joined. */
  function DownloadGarments(prendas: seq<JsValue>, env: Env): (r: Result<seq<seq<byte>>, Thrown>)
    ensures FirstNullish(prendas).Some? ==>
      r == Failure(ReadField(prendas[FirstNullish(prendas).value], "cloth_url").error)
    ensures FirstNullish(prendas).None? ==> r == FetchAll(prendas, env)
    ensures r.Success? ==> |r.value| == |prendas| && forall i :: 0 <= i < |prendas| ==> !IsNullish(prendas[i])
  {
    match FirstNullish(prendas)
    case Some(k) => Failure(ReadField(prendas[k], "cloth_url").error)
    case None => FetchAll(prendas, env)
  }

  /** The text `${prendas[i].cloth_type}` renders to, for a garment that
      is neither `null` nor `undefined`. */
  function ClothTypeText(p: JsValue): Result<string, Thrown>
    requires !IsNullish(p)
  {
    ToString(ReadField(p, "cloth_type").value)
  }

  /** The first of the first n garments whose `cloth_type` cannot be rendered, if any. */
  function FirstBadType(prendas: seq<JsValue>, n: nat): (r: Option<nat>)
    requires n <= |prendas|
    requires forall i :: 0 <= i < |prendas| ==> !IsNullish(prendas[i])
    ensures r.None? <==> forall i :: 0 <= i < n ==> ClothTypeText(prendas[i]).Success?
    ensures r.Some? ==>
      && r.value < n
      && ClothTypeText(prendas[r.value]).Failure?
      && forall i :: 0 <= i < r.value ==> ClothTypeText(prendas[i]).Success?
  {
    if n == 0 then None
    else
      match FirstBadType(prendas, n - 1)
      case Some(k) => Some(k)
      case None => if ClothTypeText(prendas[n - 1]).Failure? then Some(n - 1) else None
  }

  /** The text of every garment's `cloth_type`, as the template literal
      renders it, or the exception of the first that cannot be rendered. */
  function ClothTypes(prendas: seq<JsValue>): (r: Result<seq<string>, Thrown>)
    requires forall i :: 0 <= i < |prendas| ==> !IsNullish(prendas[i])
    ensures r.Success? <==> forall i :: 0 <= i < |prendas| ==> ClothTypeText(prendas[i]).Success?
    ensures r.Success? ==>
      && |r.value| == |prendas|
      && forall i :: 0 <= i < |prendas| ==> ClothTypeText(prendas[i]) == Success(r.value[i])
    ensures r.Failure? ==>
      exists k :: 0 <= k < |prendas| && ClothTypeText(prendas[k]) == Failure(r.error)
        && forall i :: 0 <= i < k ==> ClothTypeText(prendas[i]).Success?
  {
    match FirstBadType(prendas, |prendas|)
    case Some(k) => Failure(ClothTypeText(prendas[k]).error)
    case None => Success(seq(|prendas|, i requires 0 <= i < |prendas| => ClothTypeText(prendas[i]).value))
  }

  function Garments(images: seq<seq<byte>>, types: seq<string>): (r: seq<Garment>)
    requires |images| == |types|
    ensures |r| == |images|
    ensures forall i :: 0 <= i < |r| ==> r[i] == Garment(images[i], types[i])
  {
    seq(|images|, i requires 0 <= i < |images| => Garment(images[i], types[i]))
  }

  /** A call that, if it is the POST to the try-on service, goes to the
      tasks endpoint and carries a multipart body framed with the boundary
      its Content-Type header announces: the body opens with that
      boundary's delimiter line and ends with its closing delimiter. */
  ghost predicate WellFramed(env: Env, c: Call)
  {
    c.Post? ==>
      var boundary := Boundary(env.boundarySuffix);
      && c.endpoint == TasksEndpoint
      && ("Content-Type", ContentTypeValue(boundary)) in c.headers
      && StartsWith(c.body, Encode(Delimiter(boundary)))
      && EndsWith(c.body, Encode(CloseDelimiter(boundary)))
  }

  /** The outbound request: the form built from the downloads, posted with
      a boundary made of the environment's random suffix, and its answer
      translated. */
  function Submit(model: seq<byte>, gs: seq<Garment>, env: Env): (run: Run)
    ensures |run.calls| == 1 && IsPost(run.calls[0])
    ensures run.calls[0].endpoint == TasksEndpoint
    ensures run.response == Translate(env.post(run.calls[0].headers, run.calls[0].body))
    ensures WellFramed(env, run.calls[0])
  {
    var boundary := Boundary(env.boundarySuffix);
    var body := Serialize(boundary, Fields(model, gs));
    SerializeBounds(boundary, Fields(model, gs));
    var headers := Headers(env.apiKey, boundary);
    Run(Translate(env.post(headers, body)), [Post(TasksEndpoint, headers, body)])
  }

  /** What follows the garment downloads: the rendering of the garment
      types, then the outbound request. */
  function AfterDownloads(model: seq<byte>, prendas: seq<JsValue>, images: seq<seq<byte>>, env: Env): (run: Run)
    requires forall i :: 0 <= i < |prendas| ==> !IsNullish(prendas[i])
    requires |images| == |prendas|
    ensures |run.calls| <= 1
    ensures |run.calls| == 1 ==> IsPost(run.calls[0])
    ensures |run.calls| == 0 ==> run.response.status == 500
    ensures AllFramed(env, run.calls)
  {
    match ClothTypes(prendas)
    case Failure(e) => Run(Caught(e), [])
    case Success(types) => Submit(model, Garments(images, types), env)
  }

  /** What follows the model image's download: the garment downloads, the
      rendering of the garment types, and the outbound request. */
  function AfterModel(model: seq<byte>, prendas: seq<JsValue>, env: Env): (run: Run)
    ensures PostOnlyLast(run.calls)
    ensures run.response.status == 500 || EndsInPost(run.calls)
    ensures AllFramed(env, run.calls)
  {
    var gets := GarmentGets(prendas);
    match DownloadGarments(prendas, env)
    case Failure(e) =>
      PrependGets(env, gets, []);
      Run(Caught(e), gets)
    case Success(images) =>
      var rest := AfterDownloads(model, prendas, images, env);
      assert rest.response.status == 500 || EndsInPost(rest.calls);
      PrependGets(env, gets, rest.calls);
      Run(rest.response, gets + rest.calls)
  }

  /** The try block: download the model image, then go on with the garments;
      any exception becomes a 500 response. */
  function Forward(modelUrl: JsValue, prendas: seq<JsValue>, env: Env): (run: Run)
    ensures |run.calls| >= 1 && run.calls[0] == Get(modelUrl)
    ensures PostOnlyLast(run.calls)
    ensures run.response.status == 500 || EndsInPost(run.calls)
    ensures AllFramed(env, run.calls)
  {
    match env.fetchModel(modelUrl)
    case DownloadFailed(e) =>
      PrependGets(env, [Get(modelUrl)], []);
      Run(Caught(e), [Get(modelUrl)])
    case Downloaded(model) =>
      var rest := AfterModel(model, prendas, env);
      PrependGets(env, [Get(modelUrl)], rest.calls);
      Run(rest.response, [Get(modelUrl)] + rest.calls)
  }

  predicate IsPost(c: Call)
  {
    c.Post?
  }

  /** None of the calls is a POST. */
  predicate NoPost(calls: seq<Call>)
  {
    forall i :: 0 <= i < |calls| ==> !IsPost(calls[i])
  }

  lemma NoPostAppend(a: seq<Call>, b: seq<Call>)
    requires NoPost(a) && NoPost(b)
    ensures NoPost(a + b)
  {
    forall i | 0 <= i < |a + b|
      ensures !IsPost((a + b)[i])
    {
      if i >= |a| {
        assert (a + b)[i] == b[i - |a|];
      }
    }
  }

  /** No call but the last is a POST. */
  predicate PostOnlyLast(calls: seq<Call>)
  {
    forall i :: 0 <= i < |calls| - 1 ==> !IsPost(calls[i])
  }

  /** The last call is a POST. */
  predicate EndsInPost(calls: seq<Call>)
  {
    |calls| > 0 && IsPost(calls[|calls| - 1])
  }

  /** Every POST among the calls is well framed. */
  ghost predicate AllFramed(env: Env, calls: seq<Call>)
  {
    forall i :: 0 <= i < |calls| ==> WellFramed(env, calls[i])
  }

  /** Downloads issued before the rest of a run keep the run's shape: the
      POST, if any, stays last and stays well framed. */
  lemma PrependGets(env: Env, gets: seq<Call>, calls: seq<Call>)
    requires NoPost(gets)
    ensures |calls| <= 1 || PostOnlyLast(calls) ==> PostOnlyLast(gets + calls)
    ensures EndsInPost(calls) ==> EndsInPost(gets + calls)
    ensures AllFramed(env, calls) ==> AllFramed(env, gets + calls)
  {
    var all := gets + calls;
    forall i | 0 <= i < |all|
      ensures i < |gets| ==> all[i] == gets[i]
      ensures i >= |gets| ==> all[i] == calls[i - |gets|]
    {
    }
  }

  /** The handler. It answers every request; the guards answer without
      sending anything, and at most one request, the last, goes to the
      try-on service. */
  function Handle(req: Request, env: Env): (run: Run)
    ensures Classify(req.verb, req.body).Reject? ==>
      run == Run(Response(Classify(req.verb, req.body).status, ErrorBody(Classify(req.verb, req.body).message)), [])
    ensures Classify(req.verb, req.body).Accept? ==> |run.calls| >= 1 && run.calls[0] == Get(Classify(req.verb, req.body).modelUrl)
    ensures PostOnlyLast(run.calls)
    ensures run.response.status in {200, 400, 405, 500} || EndsInPost(run.calls)
    ensures AllFramed(env, run.calls)
  {
    match Classify(req.verb, req.body)
    case Reject(status, message) => Run(Response(status, ErrorBody(message)), [])
    case Accept(modelUrl, prendas) => Forward(modelUrl, prendas, env)
  }

  /** The handler as written: a POST without a parsed body throws a
      TypeError at the destructuring, outside the try block, so the
      exception leaves the handler and no response is written; every other
      request runs as `Handle` does. */
  function HandleAsWritten(req: Request, env: Env): (r: Result<Run, Thrown>)
    ensures r.Failure? <==> req.verb == "POST" && IsNullish(req.body)
    ensures r.Failure? ==> r.error.ErrorInstance? && r.error.name == "TypeError"
    ensures r.Success? ==> r.value == Handle(req, env)
  {
    match ClassifyAsWritten(req.verb, req.body)
    case Escaped(e) => Failure(e)
    case Decided(_) => Success(Handle(req, env))
  }

  /** A POST without a body: the handler as written throws, the corrected
      handler answers 400 with the missing-fields message and sends nothing. */
  lemma NullBodyRun(env: Env)
    ensures HandleAsWritten(Request("POST", Null), env).Failure?
    ensures Handle(Request("POST", Null), env) == Run(Response(400, ErrorBody(MissingFieldsMessage)), [])
  {
  }

  /** The stages of a run that gets past the guards and the model image. */
  lemma AcceptedRun(req: Request, env: Env, modelUrl: JsValue, prendas: seq<JsValue>, model: seq<byte>)
    requires Classify(req.verb, req.body) == Accept(modelUrl, prendas)
    requires env.fetchModel(modelUrl) == Downloaded(model)
    ensures Handle(req, env)
      == Run(AfterModel(model, prendas, env).response, [Get(modelUrl)] + AfterModel(model, prendas, env).calls)
  {
  }

  /** The garment downloads joined: the run goes on with the garment types. */
  lemma DownloadsJoined(model: seq<byte>, prendas: seq<JsValue>, env: Env, images: seq<seq<byte>>)
    requires DownloadGarments(prendas, env) == Success(images)
    ensures forall i :: 0 <= i < |prendas| ==> !IsNullish(prendas[i])
    ensures |images| == |prendas|
    ensures AfterModel(model, prendas, env)
      == Run(AfterDownloads(model, prendas, images, env).response,
             GarmentGets(prendas) + AfterDownloads(model, prendas, images, env).calls)
  {
  }

  /** The garment types rendered: the run ends with the outbound request. */
  lemma TypesRendered(model: seq<byte>, prendas: seq<JsValue>, images: seq<seq<byte>>, env: Env, types: seq<string>)
    requires forall i :: 0 <= i < |prendas| ==> !IsNullish(prendas[i])
    requires |images| == |prendas| && |types| == |prendas|
    requires ClothTypes(prendas) == Success(types)
    ensures AfterDownloads(model, prendas, images, env) == Submit(model, Garments(images, types), env)
  {
  }

  /** Every garment is an object whose image downloaded as `images[i]` and
      whose type rendered as `types[i]`. */
  ghost predicate Delivered(env: Env, prendas: seq<JsValue>, images: seq<seq<byte>>, types: seq<string>)
  {
    && (forall i :: 0 <= i < |prendas| ==> !IsNullish(prendas[i]))
    && |images| == |prendas| && |types| == |prendas|
    && (forall i :: 0 <= i < |prendas| ==> env.fetchCloth(i, ClothUrl(prendas[i])) == Downloaded(images[i]))
    && (forall i :: 0 <= i < |prendas| ==> ClothTypeText(prendas[i]) == Success(types[i]))
  }

  /** When every download succeeds and every garment type renders, the
      handler downloads the model image, then every garment image in
      request order, posts the form built from them to the tasks endpoint
      with a boundary made of its random suffix, and answers with the
      service's answer, translated. */
  lemma SuccessfulRelay(req: Request, env: Env, modelUrl: JsValue, prendas: seq<JsValue>,
                        model: seq<byte>, images: seq<seq<byte>>, types: seq<string>)
    requires Classify(req.verb, req.body) == Accept(modelUrl, prendas)
    requires env.fetchModel(modelUrl) == Downloaded(model)
    requires Delivered(env, prendas, images, types)
    ensures
      var boundary := Boundary(env.boundarySuffix);
      var body := Serialize(boundary, Fields(model, Garments(images, types)));
      var post := Post(TasksEndpoint, Headers(env.apiKey, boundary), body);
      Handle(req, env) == Run(Translate(env.post(post.headers, body)), [Get(modelUrl)] + GarmentGets(prendas) + [post])
  {
    AcceptedRun(req, env, modelUrl, prendas, model);
    GarmentsRelayed(model, prendas, env, images, types);
    var boundary := Boundary(env.boundarySuffix);
    var body := Serialize(boundary, Fields(model, Garments(images, types)));
    Assoc3([Get(modelUrl)], GarmentGets(prendas), [Post(TasksEndpoint, Headers(env.apiKey, boundary), body)]);
  }

  /** SuccessfulRelay after the model image has been downloaded. */
  lemma GarmentsRelayed(model: seq<byte>, prendas: seq<JsValue>, env: Env, images: seq<seq<byte>>, types: seq<string>)
    requires Delivered(env, prendas, images, types)
    ensures
      var boundary := Boundary(env.boundarySuffix);
      var body := Serialize(boundary, Fields(model, Garments(images, types)));
      var post := Post(TasksEndpoint, Headers(env.apiKey, boundary), body);
      AfterModel(model, prendas, env) == Run(Translate(env.post(post.headers, body)), GarmentGets(prendas) + [post])
  {
    GarmentsArrive(env, prendas, images, types);
    DownloadsJoined(model, prendas, env, images);
    TypesRender(env, prendas, images, types);
    TypesRendered(model, prendas, images, env, types);
    SubmitRun(model, Garments(images, types), env);
  }

  /** The outbound request, spelled out. */
  lemma SubmitRun(model: seq<byte>, gs: seq<Garment>, env: Env)
    ensures
      var boundary := Boundary(env.boundarySuffix);
      var body := Serialize(boundary, Fields(model, gs));
      var post := Post(TasksEndpoint, Headers(env.apiKey, boundary), body);
      Submit(model, gs, env) == Run(Translate(env.post(post.headers, body)), [post])
  {
  }

  /** Every garment downloaded: the join yields the images in order. */
  lemma GarmentsArrive(env: Env, prendas: seq<JsValue>, images: seq<seq<byte>>, types: seq<string>)
    requires Delivered(env, prendas, images, types)
    ensures DownloadGarments(prendas, env) == Success(images)
  {
    assert FirstNullish(prendas).None?;
    var r := FetchAll(prendas, env);
    assert r.Success?;
    assert forall i :: 0 <= i < |prendas| ==> r.value[i] == images[i];
    assert r.value == images;
  }

  /** Every garment type rendered: the texts, in order. */
  lemma TypesRender(env: Env, prendas: seq<JsValue>, images: seq<seq<byte>>, types: seq<string>)
    requires Delivered(env, prendas, images, types)
    ensures ClothTypes(prendas) == Success(types)
  {
    var r := ClothTypes(prendas);
    assert r.Success?;
    assert forall i :: 0 <= i < |prendas| ==> r.value[i] == types[i];
    assert r.value == types;
  }

  /** When a garment's download fails and all before it succeeded, the
      handler sends nothing to the service and answers 500 with that
      download's error. */
  lemma GarmentDownloadFails(req: Request, env: Env, modelUrl: JsValue, prendas: seq<JsValue>, model: seq<byte>, k: nat)
    requires Classify(req.verb, req.body) == Accept(modelUrl, prendas)
    requires env.fetchModel(modelUrl) == Downloaded(model)
    requires forall i :: 0 <= i < |prendas| ==> !IsNullish(prendas[i])
    requires FirstFailedDownload(prendas, env, k)
    ensures Handle(req, env)
      == Run(Caught(env.fetchCloth(k, ClothUrl(prendas[k])).error), [Get(modelUrl)] + GarmentGets(prendas))
  {
    AcceptedRun(req, env, modelUrl, prendas, model);
    FirstFailureUnique(prendas, env, k);
    DownloadsFailed(model, prendas, env, env.fetchCloth(k, ClothUrl(prendas[k])).error);
  }

  /** When exactly one garment download fails, the handler answers 500 with
      that download's error, having made only the downloads, whatever order
      they settle in. */
  lemma OnlyFailedDownload(req: Request, env: Env, modelUrl: JsValue, prendas: seq<JsValue>, model: seq<byte>, k: nat)
    requires Classify(req.verb, req.body) == Accept(modelUrl, prendas)
    requires env.fetchModel(modelUrl) == Downloaded(model)
    requires forall i :: 0 <= i < |prendas| ==> !IsNullish(prendas[i])
    requires k < |prendas| && env.fetchCloth(k, ClothUrl(prendas[k])).DownloadFailed?
    requires forall j :: 0 <= j < |prendas| && j != k ==> env.fetchCloth(j, ClothUrl(prendas[j])).Downloaded?
    ensures Handle(req, env)
      == Run(Caught(env.fetchCloth(k, ClothUrl(prendas[k])).error), [Get(modelUrl)] + GarmentGets(prendas))
  {
    OnlyFailureIsFirst(prendas, env, k);
    GarmentDownloadFails(req, env, modelUrl, prendas, model, k);
  }

  /** A download that fails alone is the first that fails. */
  lemma OnlyFailureIsFirst(prendas: seq<JsValue>, env: Env, k: nat)
    requires forall i :: 0 <= i < |prendas| ==> !IsNullish(prendas[i])
    requires k < |prendas| && env.fetchCloth(k, ClothUrl(prendas[k])).DownloadFailed?
    requires forall j :: 0 <= j < |prendas| && j != k ==> env.fetchCloth(j, ClothUrl(prendas[j])).Downloaded?
    ensures FirstFailedDownload(prendas, env, k)
  {
  }

  /** The garment downloads rejected: the run ends with the catch block. */
  lemma DownloadsFailed(model: seq<byte>, prendas: seq<JsValue>, env: Env, e: Thrown)
    requires DownloadGarments(prendas, env) == Failure(e)
    ensures AfterModel(model, prendas, env) == Run(Caught(e), GarmentGets(prendas))
  {
  }

  /** The failure the join reports is that of the first failed download. */
  lemma FirstFailureUnique(prendas: seq<JsValue>, env: Env, k: nat)
    requires forall i :: 0 <= i < |prendas| ==> !IsNullish(prendas[i])
    requires FirstFailedDownload(prendas, env, k)
    ensures DownloadGarments(prendas, env) == Failure(env.fetchCloth(k, ClothUrl(prendas[k])).error)
  {
    var first := FirstFailed(prendas, env, |prendas|);
    assert first.Some?;
    var j := first.value;
    assert env.fetchCloth(j, ClothUrl(prendas[j])).DownloadFailed?;
    assert env.fetchCloth(k, ClothUrl(prendas[k])).DownloadFailed?;
    assert j == k;
    assert FirstNullish(prendas).None?;
  }

  /** A garment that is `null` or `undefined` makes the handler answer 500
      with the TypeError its `cloth_url` read raises, without posting
      anything, once the model image has been downloaded. */
  lemma NullishGarmentFails(req: Request, env: Env, modelUrl: JsValue, prendas: seq<JsValue>, model: seq<byte>, k: nat)
    requires Classify(req.verb, req.body) == Accept(modelUrl, prendas)
    requires env.fetchModel(modelUrl) == Downloaded(model)
    requires FirstNullish(prendas) == Some(k)
    ensures prendas[k].Null? ==>
      Handle(req, env).response == Response(500, ErrorBody("Cannot read properties of null (reading '" + "cloth_url" + "')"))
    ensures prendas[k].Undefined? ==>
      Handle(req, env).response == Response(500, ErrorBody("Cannot read properties of undefined (reading '" + "cloth_url" + "')"))
    ensures NoPost(Handle(req, env).calls)
  {
    AcceptedRun(req, env, modelUrl, prendas, model);
    NullishThen(model, prendas, env, k);
    NoPostAppend([Get(modelUrl)], GarmentGets(prendas));
  }

  /** NullishGarmentFails after the model image has been downloaded. */
  lemma NullishThen(model: seq<byte>, prendas: seq<JsValue>, env: Env, k: nat)
    requires FirstNullish(prendas) == Some(k)
    ensures AfterModel(model, prendas, env) == Run(Caught(ReadField(prendas[k], "cloth_url").error), GarmentGets(prendas))
  {
    DownloadsFailed(model, prendas, env, ReadField(prendas[k], "cloth_url").error);
  }
}
