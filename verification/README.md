# fitroom-proxy, modelled in Dafny

`api/fitroom-proxy.js` is a serverless request handler that relays a virtual
try-on request to the FitRoom service. It accepts a POST whose JSON body
names a model image (`model_url`) and one to three garments (`prendas`, each
with a `cloth_url` and a `cloth_type`). It runs three steps:

1. It downloads the model image, then every garment image.
2. It assembles a `multipart/form-data` body by hand. The body holds a
   `model_image` part, then a `cloth_image_i` and a `cloth_type_i` part per
   garment, and ends with a closing delimiter. The boundary is
   `----WebKitFormBoundary` followed by random base-36 digits.
3. It posts the body to the FitRoom tasks endpoint and relays the answer.

The model treats the handler as a pure function of the request and an
environment. The environment supplies:

- the downloads;
- the random boundary suffix;
- the API key;
- the outcome of the POST.

A run returns the handler's response together with the requests it sent, in
order.

The modules follow the handler's structure:

- `Validation` holds the guards at lines 4-14: method check, required
  fields, garment limit.
- `TryOnForm` holds the form the handler builds at lines 30-54. This
  includes a method that pushes the buffers in the same order as the
  handler's loop.
- `Multipart` holds the framing of that form (delimiter lines, header
  blocks, closing delimiter) as in section 5.1.1 of RFC 2046 and section 4.2
  of RFC 7578.
- `Buffers` holds `Buffer.from` of a string (UTF-8 encoding, with a decoder
  as its inverse) and `Buffer.concat`.
- `JsValues` holds the JavaScript values involved: property reads, template
  literal conversion, and decimal spelling of the garment index.
- `Translation` holds the mapping of the service's answer and of
  exceptions to the handler's response (lines 70-78).
- `Relay` holds the whole handler: download order, the `Promise.all` join,
  the outbound request, and the end-to-end scenarios.

## Model

| member | source | states |
|---|---|---|
| Validation.BodyField | api/fitroom-proxy.js:8 | Destructuring reads each field as an own property of an object body. Non-object, non-nullish bodies read `undefined`. A `null`/`undefined` body is reported as having neither field. |
| Validation.MissingFieldsCases | api/fitroom-proxy.js:9 | The fields are missing exactly when `model_url` is `undefined`, `null`, `false`, `0` or the empty string, or `prendas` is not an array, or it is empty. |
| Validation.Classify | api/fitroom-proxy.js:4-14 | The guards, each as an if-and-only-if. A method other than POST gives exactly 405. A POST with falsy `model_url`, or `prendas` not an array or empty, gives exactly the 400 missing-fields answer. The too-many answer comes only for a POST that passes the fields check and has more than 3 garments. An accepted request is a POST with a truthy `model_url` and 1 to 3 garments, taken from the body unchanged. |
| Validation.ClassifyAsWritten | api/fitroom-proxy.js:8 | As written, a POST with a `null` or `undefined` body throws, and only such a POST does. For every other body the guards decide as `Classify` does, and a non-POST is still 405. |
| Validation.NullBodyEscapes | api/fitroom-proxy.js:8-10 | The bodiless POST that escapes as an exception is one the missing-fields guard was meant to answer with 400. |
| Translation.Translate | api/fitroom-proxy.js:70-78 | A non-2xx reply with a JSON body is relayed with the same status and the same body. A 2xx reply is relayed as 200 with the same body. A body that fails to parse, or a failed request, becomes the 500 catch answer. No other status is ever produced. |
| Translation.BodyPassesThrough | api/fitroom-proxy.js:71-75 | Whatever JSON body the service answers with reaches the caller unchanged. Only the status differs, and only by a 2xx becoming 200. |
| JsValues.ReadField | api/fitroom-proxy.js:24 | A property read throws exactly on `null` and `undefined`. On an object it yields the own property, or `undefined` when the object lacks the key (so a garment without `cloth_url` fetches `undefined`, and one without `cloth_type` sends the text "undefined"). On any other value it yields `undefined`. |
| JsValues.ToString | api/fitroom-proxy.js:49 | Template literal conversion spells `undefined`, `null`, `true`/`false` and a number's decimal form. It gives a string unchanged. An object without its own `toString` becomes "[object Object]", and one with it fails with a TypeError. An array becomes the join of its elements. Failures are TypeErrors only. |
| JsValues.Join | api/fitroom-proxy.js:49 | Joining array elements succeeds exactly when every element is nullish or converts. Any failure is a TypeError raised by an element. |
| JsValues.JoinText | api/fitroom-proxy.js:49 | When each element converts to its text (nullish elements to the empty text), the array converts to those texts separated by ",". |
| JsValues.DecimalString | api/fitroom-proxy.js:42-44 | The spelling of a garment index is a non-empty run of decimal digits with no leading zero. |
| JsValues.ParseDecimalString | api/fitroom-proxy.js:42-44 | Reading the decimal spelling back gives the number, so the index in a field name is recoverable. |
| JsValues.DecimalStringInjective | api/fitroom-proxy.js:42-44 | Different garment indices are spelled differently. |
| Buffers.Encode | api/fitroom-proxy.js:35 | `Buffer.from` of a string gives at least one and at most four bytes per character. |
| Buffers.EncodeChar | api/fitroom-proxy.js:35 | A character encodes to 1 to 4 bytes. It takes one byte, below 0x80, exactly when it is ASCII. The bytes after the first are continuation bytes. |
| Buffers.EncodeAppend | api/fitroom-proxy.js:35 | `Buffer.from` of a concatenation is the concatenation of the buffers, so a template may be encoded piece by piece. |
| Buffers.EncodeAscii | api/fitroom-proxy.js:38 | An ASCII string such as CRLF encodes to one byte per character, each the character's code. |
| Buffers.DecodeEncode | api/fitroom-proxy.js:49 | Decoding the UTF-8 bytes of a garment type gives back the text, so the text part carries the type losslessly. |
| Buffers.EncodeDecode | api/fitroom-proxy.js:49 | Every well-formed UTF-8 byte sequence is the encoding of exactly the string it decodes to. |
| Buffers.FlattenSize | api/fitroom-proxy.js:54 | `Buffer.concat` gives as many bytes as the buffers hold together. |
| Buffers.FlattenAppend | api/fitroom-proxy.js:54 | Concatenating buffer lists concatenates their contents. |
| Buffers.FlattenSnoc | api/fitroom-proxy.js:53-54 | Pushing one more buffer appends its bytes to the concatenation. |
| Multipart.EncodeCRLF | api/fitroom-proxy.js:38 | The line break pushed after each image is the two bytes CR LF. Two of them are the empty line ending a header block. |
| Multipart.HeadEndsWithBlankLine | api/fitroom-proxy.js:35 | Every part's header block ends with an empty line, whatever headers it carries. |
| Multipart.FrameOpens | api/fitroom-proxy.js:35 | Every part on the wire starts with the delimiter line `--boundary` CRLF. |
| Multipart.PartAt | api/fitroom-proxy.js:33-54 | The k-th part appears whole in the body, right after the parts before it. |
| Multipart.DelimiterAt | api/fitroom-proxy.js:35-49 | Every part of the body, the k-th included, begins with the delimiter line `--boundary` CRLF, placed exactly where the frames of the parts before it end. |
| Multipart.SerializeBounds | api/fitroom-proxy.js:53-54 | The body ends with the closing delimiter `--boundary--` CRLF. When there is a part, the body starts with the delimiter line. |
| Multipart.BodyAt | api/fitroom-proxy.js:34-50 | Every part's body appears verbatim in the serialized form. It is preceded by the empty line ending its header block and followed by CRLF. |
| TryOnForm.GarmentFields | api/fitroom-proxy.js:41-51 | Garment i (from 0) contributes the image part numbered i+1 with its image, then the type part numbered i+1 with its type. |
| TryOnForm.Fields | api/fitroom-proxy.js:33-51 | The form has 1 + 2n parts. Position 0 is the model image. The garment parts follow in request order. |
| TryOnForm.BuildFormData | api/fitroom-proxy.js:30-54 | The handler's buffers: 4 + 4n of them. Their concatenation is exactly the multipart serialization of the structured form (model part, each garment's two parts, closing delimiter). |
| TryOnForm.PushModel | api/fitroom-proxy.js:33-38 | The three model buffers (header, image, CRLF) together are the model part's frame. |
| TryOnForm.PushGarments | api/fitroom-proxy.js:40-51 | After the loop, the buffers are 3 + 4n. Their concatenation is the frames of the model part and of every garment's two parts. |
| TryOnForm.PushGarment | api/fitroom-proxy.js:42-50 | One turn of the loop adds four buffers. Together they append the frames of garment idx's image part and of its type part. |
| TryOnForm.ModelChunks | api/fitroom-proxy.js:34-38 | The model header template, the image and CRLF, concatenated, are the frame of the one-part form. |
| TryOnForm.GarmentChunks | api/fitroom-proxy.js:43-50 | The four buffers of one garment regroup into the image part's frame followed by the type part's frame. |
| TryOnForm.CloseChunk | api/fitroom-proxy.js:52-54 | Pushing the closing template after the frames yields the complete serialized body. |
| TryOnForm.FieldsGrow | api/fitroom-proxy.js:41-51 | Each further garment appends exactly its two frames to the body built so far. |
| TryOnForm.ModelHeadTemplate | api/fitroom-proxy.js:35 | The model image template is the multipart header block of a part named `model_image` with file name `model.jpg` and media type `image/jpeg`. |
| TryOnForm.ClothImageTemplate | api/fitroom-proxy.js:44 | The garment image template is the multipart header block of the image part of garment `idx`. |
| TryOnForm.ClothTypeTemplate | api/fitroom-proxy.js:49 | The garment type template is a whole text part: the header block of the type part of garment `idx` (no file name, no media type), then the type text, then CRLF. |
| TryOnForm.BoundaryIsValid | api/fitroom-proxy.js:30 | The prefix followed by base-36 digits is a boundary the RFC 2046 grammar accepts, for suffixes of at most 48 digits. |
| TryOnForm.FieldAt | api/fitroom-proxy.js:33-51 | Position 0 holds the model part. Position 2i+1 holds garment i's image part and position 2i+2 its type part. |
| TryOnForm.ImageParts | api/fitroom-proxy.js:35-49 | Exactly the image parts (the model's and each garment's) have a file name, and exactly they declare `image/jpeg`. The type parts have neither. |
| TryOnForm.FieldNameInjective | api/fitroom-proxy.js:42-49 | The name at a position determines the position. |
| TryOnForm.FieldNamesDistinct | api/fitroom-proxy.js:33-51 | No two parts of the form share a name. |
| TryOnForm.ThreeGarmentNames | api/fitroom-proxy.js:33-51 | With three garments, the seven parts are named model_image, cloth_image_1, cloth_type_1, cloth_image_2, cloth_type_2, cloth_image_3, cloth_type_3, in that order. |
| TryOnForm.ContentsCarried | api/fitroom-proxy.js:37-49 | The serialized form carries verbatim, each at its own part's body offset: the model image, every garment image, and the UTF-8 bytes of every garment type. |
| Relay.Headers | api/fitroom-proxy.js:57-61 | The outbound headers are exactly three, with distinct names. The API key is sent both as a Bearer `Authorization` and as `X-API-KEY`, and the Content-Type announces the boundary. |
| Relay.FirstNullish | api/fitroom-proxy.js:23-24 | It finds the first `null`/`undefined` garment. The answer is none exactly when every garment can be read. |
| Relay.GarmentGets | api/fitroom-proxy.js:22-26 | The garment downloads are GETs only, at most one per garment. When every garment can be read there is one per garment, for its `cloth_url`, in request order. |
| Relay.FirstFailed | api/fitroom-proxy.js:22-27 | It finds the first failed download among the first n. The answer is none exactly when all of them succeeded. |
| Relay.FetchAll | api/fitroom-proxy.js:22-27 | The join succeeds exactly when every download does, and then yields each garment's bytes at its index. Otherwise it fails with the error of a first failed download. |
| Relay.DownloadGarments | api/fitroom-proxy.js:22-27 | A `null`/`undefined` garment rejects the join with the TypeError of its `cloth_url` read, the first such garment deciding. Otherwise the downloads are joined. A success has one image per garment. |
| Relay.FirstBadType | api/fitroom-proxy.js:49 | It finds the first garment whose `cloth_type` cannot be rendered. The answer is none exactly when all can. |
| Relay.ClothTypes | api/fitroom-proxy.js:41-50 | Rendering succeeds exactly when every garment type renders, and then gives each text at its index. Otherwise it fails with the exception of the first garment that cannot. |
| Relay.Submit | api/fitroom-proxy.js:30-78 | Exactly one request is sent: a POST to the tasks endpoint. Its Content-Type announces the boundary. The body opens with that boundary's delimiter line and ends with its closing delimiter. The response is the translation of the service's answer to that request. |
| Relay.AfterDownloads | api/fitroom-proxy.js:41-78 | After the downloads, either the POST is sent, or nothing is sent and the answer is 500. Any POST is well framed. |
| Relay.AfterModel | api/fitroom-proxy.js:22-78 | After the model image, only the last request can be a POST. The answer is 500 unless a POST was sent. Any POST is well framed. |
| Relay.Forward | api/fitroom-proxy.js:16-79 | The first request is the GET of the model image. Only the last request can be a POST. The answer is 500 unless a POST was sent. Any POST is well framed. |
| Relay.Handle | api/fitroom-proxy.js:3-80 | A rejected request is answered with the guard's status and error body and sends nothing. An accepted one first downloads the model image. Only the last request can be a POST, and it is well framed. Any status other than 200, 400, 405 or 500 comes from a POST the service answered. |
| Relay.HandleAsWritten | api/fitroom-proxy.js:3-16 | As written, the handler throws a TypeError out of itself exactly for a POST with a `null`/`undefined` body. Every other request runs as `Handle` does. |
| Relay.NullBodyRun | api/fitroom-proxy.js:8-10 | On a POST with a `null` body the as-written handler throws, and the corrected one answers 400 with the missing-fields message and sends nothing. |
| Relay.SuccessfulRelay | api/fitroom-proxy.js:16-75 | When all downloads succeed and all types render, the handler sends the model GET, the garment GETs in order, then one POST. The POST goes to the tasks endpoint with the boundary header, carrying the form built from exactly those images and types. The handler answers with that POST's translated answer. |
| Relay.GarmentDownloadFails | api/fitroom-proxy.js:22-78 | When a garment download fails after all before it succeeded, nothing is posted and the answer is 500 with that download's error. |
| Relay.OnlyFailedDownload | api/fitroom-proxy.js:22-78 | When exactly one garment download fails, the handler answers 500 with that download's error, having sent only the GETs. This holds whatever order the downloads settle in. |
| Relay.FirstFailureUnique | api/fitroom-proxy.js:22-27 | The join reports the error of the first failed download and no other. |
| Relay.NullishGarmentFails | api/fitroom-proxy.js:23-78 | A `null`/`undefined` garment makes the handler answer 500 with "Cannot read properties of null (reading 'cloth_url')" (or the `undefined` wording) and post nothing. |

## Left out

- Network I/O: `fetch`, `arrayBuffer()` and the POST are functions of the environment. Their bytes and failures are inputs.
- Time: timing and timeouts are left out, as is the interleaving of the garment downloads inside `Promise.all`.
- Relay.DownloadGarments: when several downloads reject, `Promise.all` reports the earliest rejection in time. The model reports the lowest-indexed one, because timing is not modelled. A `null`/`undefined` garment is a different case. Its `cloth_url` read throws inside the async arrow, so `map` receives an already-rejected promise for it and goes on starting the later downloads. That promise settles before any pending download, so the first such garment decides, as the model has it.
- Relay.FetchAll: reports the lowest-indexed failed download, where `Promise.all` reports the earliest rejection in time. The two agree when one download fails (Relay.OnlyFailedDownload).
- Relay.GarmentDownloadFails: the failure it names is the lowest-indexed one, which is the reported one only if it also rejected first in time. With a single failure this always holds (Relay.OnlyFailedDownload).
- Relay.FirstFailureUnique: "first" means lowest index, not earliest in time, because timing is not modelled.
- Relay.Handle: answers a POST with a `null`/`undefined` body with 400, using the corrected guards (see Findings). As written, line 8 throws instead; Relay.HandleAsWritten models that throw.
- Relay.Forward: the status of the image downloads is not inspected, matching the handler (an error page's bytes are sent as the image).
- Randomness: `Math.random().toString(36).slice(2)` is the environment's `boundarySuffix`. Uniqueness of the boundary across invocations is a property of the random source and is not modelled.
- TryOnForm.BoundaryIsValid: requires at most 48 suffix digits so the boundary fits the 70-character limit. The handler does not bound the suffix; its random source produces far fewer digits.
- Credentials: the API key, which the handler hard-codes at lines 58-59, is the environment's `apiKey`.
- Logging: the `console.error` calls (lines 72 and 77) are left out.
- The `config` export (lines 82-86): it turns on the platform's JSON body parser. The parsed body is the input `JsValue`, and the parser itself is not modelled.
- Parsing: the service's JSON reply is given as parsed or as the exception `json()` raised.
- Serializing the handler's own `res.json` output is not modelled.
- JsValues.ToString: numbers are integers. Fractions, exponent forms, `NaN` and negative zero are not modelled, as floating point is out of scope. Integers below 10^21 in absolute value spell as their decimal digits, as in the model. From 10^21 on JavaScript uses exponent form ("1e+21") and the model does not.
- Buffers.Encode: JavaScript strings may hold lone surrogates, which `Buffer.from` replaces with U+FFFD. Dafny characters are Unicode scalar values, so lone surrogates are not modelled.
- Multipart.Serialize: boundary collisions are not modelled. The body does not check that no part contains the boundary, and a garment type containing CRLF is not escaped. The model shows what is sent, not that a receiver could split it unambiguously.

Behaviour of the code a reader might not expect:

- The model image is downloaded before the garment downloads start, not concurrently with them.
- A 2xx reply becomes 200, not the service's own status.
- A reply whose body is not JSON becomes the ordinary 500 catch answer, with the parser's message. It is not a distinct protocol error.
- A POST with a `null`/`undefined` request body throws out of the handler instead of being answered with 400 (Relay.HandleAsWritten). Relay.Handle uses the corrected guards and answers 400. See the finding below.

## Findings

| source | as written | input that shows it | evidently intended | confidence | as-written member | corrected member |
|---|---|---|---|---|---|---|
| api/fitroom-proxy.js:8 | The body is destructured before the guards and outside the `try`, so a POST without a parsed body throws a TypeError out of the handler | method POST with body `null` (no JSON body sent) | the missing-fields guard answers 400 "Faltan campos: model_url, prendas (array)" | medium; not executed | Validation.ClassifyAsWritten | Validation.Classify |

`Validation.NullBodyEscapes` exhibits the input: the as-written guards escape
on it, and the corrected guards answer 400. The handler model `Relay.Handle` uses the
corrected `Validation.Classify`, and `Relay.HandleAsWritten` is the handler
as written.
