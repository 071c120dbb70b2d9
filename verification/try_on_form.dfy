/** The form the handler sends to the try-on service: one `model_image` part,
    then a `cloth_image_i` and a `cloth_type_i` part per garment, framed with
    a boundary that starts with "----WebKitFormBoundary". */
module TryOnForm {
  import opened Wrappers
  import opened Buffers
  import opened JsValues
  import opened Multipart
  import opened Seqs

  const BoundaryPrefix: string := "----WebKitFormBoundary"

  /** The boundary built from the random suffix the handler draws. */
  function Boundary(suffix: string): (r: string)
    ensures |r| == |BoundaryPrefix| + |suffix|
    ensures r[..|BoundaryPrefix|] == BoundaryPrefix && r[|BoundaryPrefix|..] == suffix
  {
    BoundaryPrefix + suffix
  }

  const FormDataType: string := "multipart/form-data; boundary="

  /** The Content-Type header value of the outbound request: the form-data
      media type, its boundary parameter last. */
  function ContentTypeValue(boundary: string): (r: string)
    ensures |r| == |FormDataType| + |boundary|
    ensures r[..|FormDataType|] == FormDataType && r[|FormDataType|..] == boundary
  {
    FormDataType + boundary
  }

  /** A garment after its image was downloaded: the image bytes and the text
      its `cloth_type` value converts to. */
  datatype Garment = Garment(image: seq<byte>, clothType: string)

  function ModelField(model: seq<byte>): Part
  {
    Part("model_image", Some("model.jpg"), Some("image/jpeg"), model)
  }

  function ClothImageField(idx: nat, image: seq<byte>): Part
  {
    Part("cloth_image_" + DecimalString(idx), Some("cloth" + DecimalString(idx) + ".jpg"), Some("image/jpeg"), image)
  }

  function ClothTypeField(idx: nat, clothType: string): Part
  {
    Part("cloth_type_" + DecimalString(idx), None, None, Encode(clothType))
  }

  /** The two parts of every garment, numbered from 1 in request order. */
  function GarmentFields(gs: seq<Garment>): (r: seq<Part>)
    ensures |r| == 2 * |gs|
    ensures forall i :: 0 <= i < |gs| ==>
      r[2 * i] == ClothImageField(i + 1, gs[i].image) && r[2 * i + 1] == ClothTypeField(i + 1, gs[i].clothType)
  {
    if |gs| == 0 then []
    else
      var last := gs[|gs| - 1];
      GarmentFields(gs[..|gs| - 1]) + [ClothImageField(|gs|, last.image), ClothTypeField(|gs|, last.clothType)]
  }

  /** The parts of the outbound form, in the order the service expects them. */
  function Fields(model: seq<byte>, gs: seq<Garment>): (r: seq<Part>)
    ensures |r| == 1 + 2 * |gs|
    ensures r[0] == ModelField(model)
    ensures forall i :: 0 <= i < |gs| ==>
      r[2 * i + 1] == ClothImageField(i + 1, gs[i].image) && r[2 * i + 2] == ClothTypeField(i + 1, gs[i].clothType)
  {
    [ModelField(model)] + GarmentFields(gs)
  }

  /* The template literals the handler writes, character for character,
     with each literal split into adjacent pieces where the header grammar
     of the multipart module joins its own pieces. */

  /** The header template of the model image part (fitroom-proxy.js line 35). */
  function ModelHeadTemplate(boundary: string): (r: string)
    ensures r == Head(boundary, Part("model_image", Some("model.jpg"), Some("image/jpeg"), []))
  {
    HeadShape("--", boundary, "\r\n", "Content-Disposition: form-data; name=\"", "model_image", "\"",
              "; filename=\"", "model.jpg", "Content-Type: ", "image/jpeg");
    "--" + boundary + "\r\n" + "Content-Disposition: form-data; name=\"" + "model_image" + "\""
      + "; filename=\"" + "model.jpg" + "\"" + "\r\n" + "Content-Type: " + "image/jpeg" + "\r\n" + "\r\n"
  }

  /** The header template of garment `idx`'s image part (line 44). */
  function ClothImageTemplate(boundary: string, idx: nat): (r: string)
    ensures r == Head(boundary, ClothImageField(idx, []))
  {
    var d := DecimalString(idx);
    ImageShape("--", boundary, "\r\n", "Content-Disposition: form-data; name=\"", "cloth_image_", d, "\"",
               "; filename=\"", "cloth", ".jpg", "Content-Type: ", "image/jpeg");
    "--" + boundary + "\r\n" + "Content-Disposition: form-data; name=\"" + "cloth_image_" + d + "\""
      + "; filename=\"" + "cloth" + d + ".jpg" + "\"" + "\r\n" + "Content-Type: " + "image/jpeg" + "\r\n" + "\r\n"
  }

  /** The whole text part of garment `idx`, header and value together (line 49). */
  function ClothTypeTemplate(boundary: string, idx: nat, clothType: string): (r: string)
    ensures r == Head(boundary, ClothTypeField(idx, clothType)) + clothType + CRLF
  {
    var d := DecimalString(idx);
    TypeShape("--", boundary, "\r\n", "Content-Disposition: form-data; name=\"", "cloth_type_", d, "\"", clothType, "");
    "--" + boundary + "\r\n" + "Content-Disposition: form-data; name=\"" + "cloth_type_" + d + "\""
      + "\r\n" + "\r\n" + clothType + "\r\n"
  }

  /** The closing template (line 53). */
  function CloseTemplate(boundary: string): (r: string)
    ensures r == CloseDelimiter(boundary)
  {
    "--" + boundary + "--" + "\r\n"
  }

  /** The handler's chunk-by-chunk construction of the form: the buffers it
      pushes, then their concatenation. Its result is the structured form:
      the model part, each garment's image and type parts, the closing
      delimiter. */
  method BuildFormData(boundary: string, model: seq<byte>, gs: seq<Garment>)
    returns (formParts: seq<seq<byte>>, formData: seq<byte>)
    ensures |formParts| == 4 + 4 * |gs|
    ensures formData == Serialize(boundary, Fields(model, gs))
  {
    var framed := PushModel(boundary, model);
    framed := PushGarments(boundary, model, gs, framed);
    formParts := framed + [Encode(CloseTemplate(boundary))];
    CloseChunk(boundary, Fields(model, gs), framed, formParts);
    formData := Flatten(formParts);
  }

  /** The handler's loop over the garments, after the model image's buffers. */
  method PushGarments(boundary: string, model: seq<byte>, gs: seq<Garment>, start: seq<seq<byte>>)
    returns (formParts: seq<seq<byte>>)
    requires |start| == 3 && Flatten(start) == Flatten(Frames(boundary, Fields(model, [])))
    ensures |formParts| == 3 + 4 * |gs|
    ensures Flatten(formParts) == Flatten(Frames(boundary, Fields(model, gs)))
  {
    formParts := start;
    PushStart(boundary, model, gs, start);
    var i := 0;
    while i < |gs|
      invariant 0 <= i <= |gs|
      invariant |formParts| == 3 + 4 * i
      invariant Flatten(formParts) == Flatten(Frames(boundary, Fields(model, gs[..i])))
    {
      var next := PushGarment(boundary, formParts, i + 1, gs[i]);
      PushStep(boundary, model, gs, i, formParts, next);
      formParts := next;
      i := i + 1;
    }
    assert gs[..|gs|] == gs;
  }

  /** Before the loop, the buffers are the frames of no garment. */
  lemma PushStart(boundary: string, model: seq<byte>, gs: seq<Garment>, start: seq<seq<byte>>)
    requires Flatten(start) == Flatten(Frames(boundary, Fields(model, [])))
    ensures Flatten(start) == Flatten(Frames(boundary, Fields(model, gs[..0])))
  {
    assert gs[..0] == [];
  }

  /** A turn of the loop keeps the buffers equal to the frames of the
      garments handled so far. */
  lemma PushStep(boundary: string, model: seq<byte>, gs: seq<Garment>, i: nat,
                 before: seq<seq<byte>>, after: seq<seq<byte>>)
    requires i < |gs|
    requires Flatten(before) == Flatten(Frames(boundary, Fields(model, gs[..i])))
    requires Flatten(after)
      == Flatten(before) + Frame(boundary, ClothImageField(i + 1, gs[i].image))
        + Frame(boundary, ClothTypeField(i + 1, gs[i].clothType))
    ensures Flatten(after) == Flatten(Frames(boundary, Fields(model, gs[..i + 1])))
  {
    FieldsGrow(boundary, model, gs, i);
  }

  /** The three buffers pushed for the model image, which together are its frame. */
  method PushModel(boundary: string, model: seq<byte>) returns (r: seq<seq<byte>>)
    ensures |r| == 3
    ensures Flatten(r) == Flatten(Frames(boundary, Fields(model, [])))
  {
    r := [];
    r := r + [Encode(ModelHeadTemplate(boundary))];
    r := r + [model];
    r := r + [Encode(CRLF)];
    ModelChunks(boundary, model, r);
  }

  /** The closing buffer turns the frames into the whole body. */
  lemma CloseChunk(boundary: string, ps: seq<Part>, before: seq<seq<byte>>, after: seq<seq<byte>>)
    requires Flatten(before) == Flatten(Frames(boundary, ps))
    requires after == before + [Encode(CloseTemplate(boundary))]
    ensures Flatten(after) == Serialize(boundary, ps)
  {
    FlattenSnoc(before, Encode(CloseTemplate(boundary)));
  }

  /** One turn of the handler's loop: the four buffers pushed for garment
      `idx`, which together are the frames of its image and type parts. */
  method PushGarment(boundary: string, formParts: seq<seq<byte>>, idx: nat, g: Garment)
    returns (r: seq<seq<byte>>)
    ensures |r| == |formParts| + 4
    ensures Flatten(r)
      == Flatten(formParts) + Frame(boundary, ClothImageField(idx, g.image)) + Frame(boundary, ClothTypeField(idx, g.clothType))
  {
    r := formParts;
    r := r + [Encode(ClothImageTemplate(boundary, idx))];
    r := r + [g.image];
    r := r + [Encode(CRLF)];
    r := r + [Encode(ClothTypeTemplate(boundary, idx, g.clothType))];
    GarmentChunks(boundary, formParts, idx, g, r);
  }

  /** The three buffers pushed for the model image are its frame. */
  lemma ModelChunks(boundary: string, model: seq<byte>, chunks: seq<seq<byte>>)
    requires chunks == [Encode(ModelHeadTemplate(boundary)), model, Encode(CRLF)]
    ensures Flatten(chunks) == Flatten(Frames(boundary, Fields(model, [])))
  {
    assert ModelHeadTemplate(boundary) == Head(boundary, ModelField(model));
    EncodeCRLF();
    FlattenTriple(chunks[0], model, chunks[2]);
    assert Fields(model, []) == [ModelField(model)];
    SingleFrame(boundary, Fields(model, []), ModelField(model));
  }

  /** The four buffers pushed for garment `idx` are the frames of its two parts. */
  lemma GarmentChunks(boundary: string, before: seq<seq<byte>>, idx: nat, g: Garment, after: seq<seq<byte>>)
    requires after == before + [Encode(ClothImageTemplate(boundary, idx))] + [g.image] + [Encode(CRLF)]
      + [Encode(ClothTypeTemplate(boundary, idx, g.clothType))]
    ensures Flatten(after)
      == Flatten(before) + Frame(boundary, ClothImageField(idx, g.image)) + Frame(boundary, ClothTypeField(idx, g.clothType))
  {
    var imageHead := Encode(ClothImageTemplate(boundary, idx));
    var typeHead := Head(boundary, ClothTypeField(idx, g.clothType));
    var typeChunk := Encode(ClothTypeTemplate(boundary, idx, g.clothType));
    FlattenSnoc4(before, imageHead, g.image, Encode(CRLF), typeChunk);
    assert ClothImageTemplate(boundary, idx) == Head(boundary, ClothImageField(idx, g.image));
    EncodeAppend(typeHead + g.clothType, CRLF);
    EncodeAppend(typeHead, g.clothType);
    EncodeCRLF();
    RegroupFrames(Flatten(before), imageHead, g.image, LineBreak, typeChunk, Encode(typeHead), Encode(g.clothType));
  }

  /** A further garment adds its image and type parts at the end of the form. */
  lemma FieldsSnoc(model: seq<byte>, gs: seq<Garment>, g: Garment)
    ensures Fields(model, gs + [g])
      == Fields(model, gs) + [ClothImageField(|gs| + 1, g.image), ClothTypeField(|gs| + 1, g.clothType)]
  {
    assert (gs + [g])[..|gs|] == gs;
  }

  /** Adding garment i to the form adds its two frames at the end. */
  lemma FieldsGrow(boundary: string, model: seq<byte>, gs: seq<Garment>, i: nat)
    requires i < |gs|
    ensures Flatten(Frames(boundary, Fields(model, gs[..i + 1])))
      == Flatten(Frames(boundary, Fields(model, gs[..i])))
        + Frame(boundary, ClothImageField(i + 1, gs[i].image))
        + Frame(boundary, ClothTypeField(i + 1, gs[i].clothType))
  {
    var img, ty := ClothImageField(i + 1, gs[i].image), ClothTypeField(i + 1, gs[i].clothType);
    assert gs[..i + 1] == gs[..i] + [gs[i]];
    FieldsSnoc(model, gs[..i], gs[i]);
    FramesGrow(boundary, Fields(model, gs[..i]), Fields(model, gs[..i + 1]), img, ty);
  }

  /** Two more parts add their two frames at the end of the body. */
  lemma FramesGrow(boundary: string, ps: seq<Part>, qs: seq<Part>, p: Part, q: Part)
    requires qs == ps + [p, q]
    ensures Flatten(Frames(boundary, qs)) == Flatten(Frames(boundary, ps)) + Frame(boundary, p) + Frame(boundary, q)
  {
    FramesSnoc2(boundary, ps, p, q);
    FlattenSnoc2(Frames(boundary, ps), Frame(boundary, p), Frame(boundary, q));
  }

  lemma FramesSnoc2(boundary: string, ps: seq<Part>, p: Part, q: Part)
    ensures Frames(boundary, ps + [p, q]) == Frames(boundary, ps) + [Frame(boundary, p)] + [Frame(boundary, q)]
  {
    var lhs, rhs := Frames(boundary, ps + [p, q]), Frames(boundary, ps) + [Frame(boundary, p)] + [Frame(boundary, q)];
    assert |lhs| == |rhs|;
    forall j | 0 <= j < |lhs| ensures lhs[j] == rhs[j] {
      if j < |ps| {
        assert (ps + [p, q])[j] == ps[j];
      }
    }
  }

  /* The Shape lemmas regroup the template pieces, stated over plain
     variables so that no literal has to be taken apart. */

  lemma HeadShape(dash: string, b: string, crlf: string, p: string, n: string, q: string,
                  f: string, fname: string, ct: string, ij: string)
    ensures dash + b + crlf + p + n + q + f + fname + q + crlf + ct + ij + crlf + crlf
         == (dash + b + crlf) + (p + n + q + (f + fname + q) + crlf) + (ct + ij + crlf) + crlf
  {
  }

  lemma TypeShape(dash: string, b: string, crlf: string, p: string, ctn: string, d: string, q: string, t: string, e: string)
    requires e == []
    ensures dash + b + crlf + p + ctn + d + q + crlf + crlf + t + crlf
         == (dash + b + crlf) + (p + (ctn + d) + q + e + crlf) + e + crlf + t + crlf
  {
  }

  lemma ImageShape(dash: string, b: string, crlf: string, p: string, ci: string, d: string, q: string,
                   f: string, cl: string, jpg: string, ct: string, ij: string)
    ensures dash + b + crlf + p + ci + d + q + f + cl + d + jpg + q + crlf + ct + ij + crlf + crlf
         == (dash + b + crlf) + (p + (ci + d) + q + (f + (cl + d + jpg) + q) + crlf) + (ct + ij + crlf) + crlf
  {
  }

  /** A digit of `Number.prototype.toString(36)`. */
  predicate IsBase36Digit(c: char)
  {
    '0' <= c <= '9' || 'a' <= c <= 'z'
  }

  /** The boundary the handler builds from the base-36 digits of its random
      number is one the multipart grammar accepts, as long as there are at
      most 48 of them. */
  lemma BoundaryIsValid(suffix: string)
    requires forall i :: 0 <= i < |suffix| ==> IsBase36Digit(suffix[i])
    requires |suffix| <= 70 - |BoundaryPrefix|
    ensures ValidBoundary(Boundary(suffix))
  {
    var b := Boundary(suffix);
    forall i | 0 <= i < |b|
      ensures IsBoundaryChar(b[i])
    {
      if i < |BoundaryPrefix| {
        assert b[i] == BoundaryPrefix[i];
      } else {
        assert b[i] == suffix[i - |BoundaryPrefix|];
      }
    }
  }

  /** The name of the k-th part of the form. */
  function FieldName(k: nat): string
  {
    if k == 0 then "model_image"
    else
      var i := (k - 1) / 2;
      if k % 2 == 1 then "cloth_image_" + DecimalString(i + 1) else "cloth_type_" + DecimalString(i + 1)
  }

  /** The k-th part of the form, read off its position: the model image
      first, then for garment i (from 1) an image part at 2i-1 and a text
      part at 2i. */
  function FieldPart(model: seq<byte>, gs: seq<Garment>, k: nat): Part
    requires k < 1 + 2 * |gs|
  {
    if k == 0 then ModelField(model)
    else
      var i := (k - 1) / 2;
      if k % 2 == 1 then ClothImageField(i + 1, gs[i].image) else ClothTypeField(i + 1, gs[i].clothType)
  }

  /** The form built garment by garment has, at every position, the part
      that position calls for. */
  lemma FieldAt(model: seq<byte>, gs: seq<Garment>, k: nat)
    requires k < 1 + 2 * |gs|
    ensures Fields(model, gs)[k] == FieldPart(model, gs, k)
  {
    if k > 0 {
      var i := (k - 1) / 2;
      if k % 2 == 1 {
        assert k == 2 * i + 1;
        ImageFieldAt(model, gs, i, k);
      } else {
        assert k == 2 * i + 2;
        TypeFieldAt(model, gs, i, k);
      }
    }
  }

  lemma ImageFieldAt(model: seq<byte>, gs: seq<Garment>, i: nat, k: nat)
    requires i < |gs| && k == 2 * i + 1
    ensures Fields(model, gs)[k] == ClothImageField(i + 1, gs[i].image)
  {
  }

  lemma TypeFieldAt(model: seq<byte>, gs: seq<Garment>, i: nat, k: nat)
    requires i < |gs| && k == 2 * i + 2
    ensures Fields(model, gs)[k] == ClothTypeField(i + 1, gs[i].clothType)
  {
  }

  /** Exactly the image parts, the model's and each garment's, carry a file
      name, and exactly they declare the JPEG media type; the text parts
      carry neither. */
  lemma ImageParts(model: seq<byte>, gs: seq<Garment>)
    ensures forall k :: 0 <= k < |Fields(model, gs)| ==>
      && (Fields(model, gs)[k].filename.Some? <==> k == 0 || k % 2 == 1)
      && (Fields(model, gs)[k].contentType.Some? <==> k == 0 || k % 2 == 1)
      && (Fields(model, gs)[k].contentType.Some? ==> Fields(model, gs)[k].contentType.value == "image/jpeg")
  {
    forall k | 0 <= k < |Fields(model, gs)|
      ensures Fields(model, gs)[k].filename.Some? <==> k == 0 || k % 2 == 1
      ensures Fields(model, gs)[k].contentType.Some? <==> k == 0 || k % 2 == 1
      ensures Fields(model, gs)[k].contentType.Some? ==> Fields(model, gs)[k].contentType.value == "image/jpeg"
    {
      FieldAt(model, gs, k);
    }
  }

  /** Different positions carry different names. */
  lemma FieldNameInjective(j: nat, k: nat)
    requires FieldName(j) == FieldName(k)
    ensures j == k
  {
    var image, text := "cloth_image_", "cloth_type_";
    var nj, nk := FieldName(j), FieldName(k);
    assert nj[0] == nk[0];
    assert (j == 0) == (k == 0);
    if j > 0 {
      assert nj[6] == nk[6];
      assert j % 2 == k % 2;
      var a, b := (j - 1) / 2 + 1, (k - 1) / 2 + 1;
      if j % 2 == 1 {
        PrefixCancel(image, DecimalString(a), DecimalString(b));
      } else {
        PrefixCancel(text, DecimalString(a), DecimalString(b));
      }
      DecimalStringInjective(a, b);
    }
  }

  /** No two parts of the form share a name. */
  lemma FieldNamesDistinct(model: seq<byte>, gs: seq<Garment>)
    ensures forall j, k :: 0 <= j < k < |Fields(model, gs)| ==> Fields(model, gs)[j].name != Fields(model, gs)[k].name
  {
    forall j, k | 0 <= j < k < |Fields(model, gs)|
      ensures Fields(model, gs)[j].name != Fields(model, gs)[k].name
    {
      FieldAt(model, gs, j);
      FieldAt(model, gs, k);
      assert FieldPart(model, gs, j).name == FieldName(j) && FieldPart(model, gs, k).name == FieldName(k);
      if FieldName(j) == FieldName(k) {
        FieldNameInjective(j, k);
      }
    }
  }

  /** The part names of a form, in order. */
  function Names(ps: seq<Part>): (r: seq<string>)
    ensures |r| == |ps|
    ensures forall k :: 0 <= k < |ps| ==> r[k] == ps[k].name
  {
    seq(|ps|, k requires 0 <= k < |ps| => ps[k].name)
  }

  /** With the most garments the handler accepts, the form has seven parts,
      named in this order. */
  lemma ThreeGarmentNames(model: seq<byte>, gs: seq<Garment>)
    requires |gs| == 3
    ensures Names(Fields(model, gs))
      == ["model_image", "cloth_image_1", "cloth_type_1", "cloth_image_2", "cloth_type_2", "cloth_image_3", "cloth_type_3"]
  {
    var ns := Names(Fields(model, gs));
    FieldAt(model, gs, 0);
    FieldAt(model, gs, 1);
    FieldAt(model, gs, 2);
    FieldAt(model, gs, 3);
    FieldAt(model, gs, 4);
    FieldAt(model, gs, 5);
    FieldAt(model, gs, 6);
    assert DecimalString(1) == "1" && DecimalString(2) == "2" && DecimalString(3) == "3";
    assert ns[1] == "cloth_image_1" && ns[2] == "cloth_type_1";
    assert ns[3] == "cloth_image_2" && ns[4] == "cloth_type_2";
    assert ns[5] == "cloth_image_3" && ns[6] == "cloth_type_3";
  }

  /** The form carries the model image and each garment's image and type
      text verbatim, each as the body of its own part. */
  lemma ContentsCarried(boundary: string, model: seq<byte>, gs: seq<Garment>, i: nat, s: seq<byte>,
                        modelAt: int, imageAt: int, typeAt: int)
    requires i < |gs|
    requires s == Serialize(boundary, Fields(model, gs))
    requires modelAt == BodyOffset(boundary, Fields(model, gs), 0)
    requires imageAt == BodyOffset(boundary, Fields(model, gs), 2 * i + 1)
    requires typeAt == BodyOffset(boundary, Fields(model, gs), 2 * i + 2)
    ensures Within(s, modelAt, model)
    ensures Within(s, imageAt, gs[i].image)
    ensures Within(s, typeAt, Encode(gs[i].clothType))
  {
    var ps := Fields(model, gs);
    BodyAt(boundary, ps, 0, s, modelAt, modelAt + |model|, modelAt - 4);
    BodyAt(boundary, ps, 2 * i + 1, s, imageAt, imageAt + |gs[i].image|, imageAt - 4);
    BodyAt(boundary, ps, 2 * i + 2, s, typeAt, typeAt + |Encode(gs[i].clothType)|, typeAt - 4);
  }
}
