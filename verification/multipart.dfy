/** The multipart/form-data framing: delimiter lines and the closing delimiter
    of section 5.1.1 of RFC 2046, and the Content-Disposition field naming of
    section 4.2 of RFC 7578. */
module Multipart {
  import opened Wrappers
  import opened Buffers
  import opened Seqs

  const CRLF: string := "\r\n"

  /** CRLF as bytes. */
  const LineBreak: seq<byte> := [13, 10]

  /** An empty line ending a header block, as bytes. */
  const BlankLine: seq<byte> := [13, 10, 13, 10]

  /** The byte form of one and of two line breaks. */
  lemma EncodeCRLF()
    ensures Encode(CRLF) == LineBreak
    ensures Encode(CRLF + CRLF) == BlankLine
  {
    assert IsAscii(CRLF);
    EncodeAscii(CRLF);
    assert IsAscii(CRLF + CRLF);
    EncodeAscii(CRLF + CRLF);
  }

  /** The characters section 5.1.1 of RFC 2046 allows in a boundary
      (`bchars`): letters, digits, a space and the punctuation '()+_,-./:=? */
  predicate IsBoundaryChar(c: char)
  {
    || '0' <= c <= '9'
    || 'a' <= c <= 'z'
    || 'A' <= c <= 'Z'
    || c in "'()+_,-./:=? "
  }

  /** A boundary the grammar of section 5.1.1 of RFC 2046 accepts: 1 to 70
      boundary characters, the last of which is not a space. */
  predicate ValidBoundary(b: string)
  {
    && 1 <= |b| <= 70
    && (forall i :: 0 <= i < |b| ==> IsBoundaryChar(b[i]))
    && b[|b| - 1] != ' '
  }

  /** One form field: its name, an optional file name, an optional media
      type, and its body. */
  datatype Part = Part(name: string, filename: Option<string>, contentType: Option<string>, body: seq<byte>)

  /** The line that opens every part: "--" boundary CRLF. */
  function Delimiter(boundary: string): string
  {
    "--" + boundary + CRLF
  }

  /** The line that ends the body: "--" boundary "--" CRLF. */
  function CloseDelimiter(boundary: string): string
  {
    "--" + boundary + "--" + CRLF
  }

  function Disposition(p: Part): string
  {
    var file := match p.filename
      case Some(f) => "; filename=\"" + f + "\""
      case None => "";
    "Content-Disposition: form-data; name=\"" + p.name + "\"" + file + CRLF
  }

  function ContentTypeLine(p: Part): string
  {
    match p.contentType
    case Some(t) => "Content-Type: " + t + CRLF
    case None => ""
  }

  /** Everything of a part that precedes its body: the delimiter line, the
      header lines and the blank line that ends them. */
  function Head(boundary: string, p: Part): string
  {
    Delimiter(boundary) + Disposition(p) + ContentTypeLine(p) + CRLF
  }

  /** A part as it appears on the wire: head, body, and the line break that
      precedes the next delimiter. */
  function Frame(boundary: string, p: Part): seq<byte>
  {
    Encode(Head(boundary, p)) + p.body + LineBreak
  }

  /** The wire form of each part, in order. */
  function Frames(boundary: string, ps: seq<Part>): (r: seq<seq<byte>>)
    ensures |r| == |ps|
    ensures forall i :: 0 <= i < |ps| ==> r[i] == Frame(boundary, ps[i])
  {
    seq(|ps|, i requires 0 <= i < |ps| => Frame(boundary, ps[i]))
  }

  /** A single part's body is its frame. */
  lemma SingleFrame(boundary: string, ps: seq<Part>, p: Part)
    requires ps == [p]
    ensures Flatten(Frames(boundary, ps)) == Frame(boundary, p)
  {
    var fs := Frames(boundary, ps);
    assert fs == [] + [fs[0]];
    FlattenSnoc([], fs[0]);
  }

  /** A whole multipart body: every part framed, in order, then the closing
      delimiter. */
  function Serialize(boundary: string, ps: seq<Part>): seq<byte>
  {
    Flatten(Frames(boundary, ps)) + Encode(CloseDelimiter(boundary))
  }

  lemma BlankShape<T>(y: seq<T>, z: seq<T>, c: seq<T>, e: seq<T>)
    requires e == []
    ensures y + (z + c) + e + c == (y + z) + (c + c)
  {
  }

  /** The header block of every part ends in an empty line. */
  lemma HeadEndsWithBlankLine(boundary: string, p: Part)
    ensures EndsWith(Head(boundary, p), CRLF + CRLF)
  {
    var d, disp := Delimiter(boundary), Disposition(p);
    if p.contentType.Some? {
      var z := "Content-Type: " + p.contentType.value;
      BlankShape(d + disp, z, CRLF, []);
      SuffixOf(Head(boundary, p), d + disp + z, CRLF + CRLF);
    } else {
      var file := match p.filename
        case Some(f) => "; filename=\"" + f + "\""
        case None => "";
      var w := "Content-Disposition: form-data; name=\"" + p.name + "\"" + file;
      BlankShape(d, w, CRLF, ContentTypeLine(p));
      SuffixOf(Head(boundary, p), d + w, CRLF + CRLF);
    }
  }

  /** A frame opens with the delimiter line. */
  lemma FrameOpens(boundary: string, p: Part)
    ensures StartsWith(Frame(boundary, p), Encode(Delimiter(boundary)))
  {
    var d, disp, ctl := Delimiter(boundary), Disposition(p), ContentTypeLine(p);
    Assoc4(d, disp, ctl, CRLF);
    var rest := disp + ctl + CRLF;
    EncodeAppend(d, rest);
    Assoc4(Encode(d), Encode(rest), p.body, LineBreak);
    PrefixOf(Frame(boundary, p), Encode(d), Encode(rest) + p.body + LineBreak);
  }

  /** The frames of a prefix of the parts are that prefix of the frames. */
  lemma FramesPrefix(boundary: string, ps: seq<Part>, k: nat)
    requires k <= |ps|
    ensures Frames(boundary, ps)[..k] == Frames(boundary, ps[..k])
  {
  }

  /** The k-th part's frame sits, whole and in order, right after the frames
      of the parts before it. */
  lemma PartAt(boundary: string, ps: seq<Part>, k: nat)
    requires k < |ps|
    ensures Within(Serialize(boundary, ps), |Flatten(Frames(boundary, ps[..k]))|, Frame(boundary, ps[k]))
  {
    var fs := Frames(boundary, ps);
    FramesPrefix(boundary, ps, k);
    FlattenAt(fs, k, Encode(CloseDelimiter(boundary)));
  }

  /** Every part of the body s opens with the delimiter line, at the position
      where the frames of the parts before it end. */
  lemma DelimiterAt(boundary: string, ps: seq<Part>, k: nat, s: seq<byte>, at: int)
    requires k < |ps|
    requires s == Serialize(boundary, ps) && at == |Flatten(Frames(boundary, ps[..k]))|
    ensures Within(s, at, Encode(Delimiter(boundary)))
  {
    PartAt(boundary, ps, k);
    FrameOpens(boundary, ps[k]);
    WithinPrefix(s, at, Frame(boundary, ps[k]), Encode(Delimiter(boundary)));
  }

  /** A body with at least one part opens with the delimiter line, and every
      body ends with the closing delimiter. */
  lemma SerializeBounds(boundary: string, ps: seq<Part>)
    ensures EndsWith(Serialize(boundary, ps), Encode(CloseDelimiter(boundary)))
    ensures |ps| > 0 ==> StartsWith(Serialize(boundary, ps), Encode(Delimiter(boundary)))
  {
    SuffixOf(Serialize(boundary, ps), Flatten(Frames(boundary, ps)), Encode(CloseDelimiter(boundary)));
    if |ps| > 0 {
      PartAt(boundary, ps, 0);
      assert ps[..0] == [];
      WithinStart(Serialize(boundary, ps), Frame(boundary, ps[0]));
      FrameOpens(boundary, ps[0]);
      StartsWithTrans(Serialize(boundary, ps), Frame(boundary, ps[0]), Encode(Delimiter(boundary)));
    }
  }

  /** Where the k-th part's body starts in the serialized form. */
  function BodyOffset(boundary: string, ps: seq<Part>, k: nat): nat
    requires k < |ps|
  {
    |Flatten(Frames(boundary, ps[..k]))| + |Encode(Head(boundary, ps[k]))|
  }

  /** The encoded header block ends in the encoded empty line. */
  lemma EncodedHeadEnds(boundary: string, p: Part)
    ensures EndsWith(Encode(Head(boundary, p)), BlankLine)
  {
    HeadEndsWithBlankLine(boundary, p);
    var hs := Head(boundary, p);
    SplitSuffix(hs, CRLF + CRLF);
    var lines := hs[..|hs| - |CRLF + CRLF|];
    EncodeAppend(lines, CRLF + CRLF);
    EncodeCRLF();
    SuffixOf(Encode(hs), Encode(lines), BlankLine);
  }

  /** Every part's body is carried verbatim in the serialized form s: it
      starts at off, right after the part's header block, which ends in an
      empty line at before, and it is followed by a CRLF at after. */
  lemma BodyAt(boundary: string, ps: seq<Part>, k: nat, s: seq<byte>, off: int, after: int, before: int)
    requires k < |ps|
    requires s == Serialize(boundary, ps) && off == BodyOffset(boundary, ps, k)
    requires after == off + |ps[k].body| && before == off - 4
    ensures Within(s, off, ps[k].body)
    ensures Within(s, after, LineBreak)
    ensures Within(s, before, BlankLine)
  {
    FramesPrefix(boundary, ps, k);
    EncodedHeadEnds(boundary, ps[k]);
    ChunkLayout(s, Frames(boundary, ps), Encode(CloseDelimiter(boundary)), k,
      Encode(Head(boundary, ps[k])), ps[k].body, LineBreak, BlankLine, off, after, before);
  }
}
