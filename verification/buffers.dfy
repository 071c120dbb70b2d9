/** Node's `Buffer` as the handler uses it: `Buffer.from(string)` encodes a
    string as UTF-8 and `Buffer.concat` joins a list of buffers into one.
    A UTF-8 decoder is given as the inverse of the encoder. */
module Buffers {
  import opened Wrappers
  import opened Seqs

  type byte = b: int | 0 <= b < 256

  /** The sum of the chunks' lengths, counted from the first chunk. */
  function TotalSize(chunks: seq<seq<byte>>): nat
  {
    if |chunks| == 0 then 0 else |chunks[0]| + TotalSize(chunks[1..])
  }

  lemma {:induction false} TotalSizeSnoc(chunks: seq<seq<byte>>, last: seq<byte>)
    ensures TotalSize(chunks + [last]) == TotalSize(chunks) + |last|
  {
    if |chunks| > 0 {
      assert (chunks + [last])[1..] == chunks[1..] + [last];
      TotalSizeSnoc(chunks[1..], last);
    }
  }

  /** `Buffer.concat(chunks)`: the chunks' bytes, one after another. */
  function Flatten(chunks: seq<seq<byte>>): seq<byte>
  {
    if |chunks| == 0 then [] else Flatten(chunks[..|chunks| - 1]) + chunks[|chunks| - 1]
  }

  /** The concatenation is as long as all the chunks together. */
  lemma {:induction false} FlattenSize(chunks: seq<seq<byte>>)
    ensures |Flatten(chunks)| == TotalSize(chunks)
  {
    if |chunks| > 0 {
      var init := chunks[..|chunks| - 1];
      assert chunks == init + [chunks[|chunks| - 1]];
      TotalSizeSnoc(init, chunks[|chunks| - 1]);
      FlattenSize(init);
    }
  }

  lemma FlattenSnoc(chunks: seq<seq<byte>>, last: seq<byte>)
    ensures Flatten(chunks + [last]) == Flatten(chunks) + last
  {
    assert (chunks + [last])[..|chunks|] == chunks;
  }

  /** Appending two chunks appends their contents. */
  lemma FlattenSnoc2(chunks: seq<seq<byte>>, a: seq<byte>, b: seq<byte>)
    ensures Flatten(chunks + [a] + [b]) == Flatten(chunks) + a + b
  {
    FlattenSnoc(chunks + [a], b);
    FlattenSnoc(chunks, a);
  }

  /** Three chunks hold their contents in order. */
  lemma FlattenTriple(a: seq<byte>, b: seq<byte>, c: seq<byte>)
    ensures Flatten([a, b, c]) == a + b + c
  {
    assert [a, b, c] == [] + [a] + [b] + [c];
    FlattenSnoc2([] + [a], b, c);
    FlattenSnoc([], a);
  }

  /** Appending four chunks appends their contents. */
  lemma FlattenSnoc4(chunks: seq<seq<byte>>, a: seq<byte>, b: seq<byte>, c: seq<byte>, d: seq<byte>)
    ensures Flatten(chunks + [a] + [b] + [c] + [d]) == Flatten(chunks) + a + b + c + d
  {
    FlattenSnoc2(chunks + [a] + [b], c, d);
    FlattenSnoc2(chunks, a, b);
  }

  /** Concatenating two lists of chunks concatenates their contents. */
  lemma {:induction false} FlattenAppend(xs: seq<seq<byte>>, ys: seq<seq<byte>>)
    ensures Flatten(xs + ys) == Flatten(xs) + Flatten(ys)
    decreases |ys|
  {
    if |ys| == 0 {
      assert xs + ys == xs;
    } else {
      var init, last := ys[..|ys| - 1], ys[|ys| - 1];
      assert xs + ys == (xs + init) + [last];
      FlattenSnoc(xs + init, last);
      FlattenAppend(xs, init);
    }
  }

  /** The k-th chunk appears whole in the concatenation, right after the
      chunks before it, whatever follows the concatenation. */
  lemma FlattenAt(xs: seq<seq<byte>>, k: nat, rest: seq<byte>)
    requires k < |xs|
    ensures Within(Flatten(xs) + rest, |Flatten(xs[..k])|, xs[k])
  {
    assert xs == xs[..k] + [xs[k]] + xs[k + 1..];
    FlattenAppend(xs[..k] + [xs[k]], xs[k + 1..]);
    FlattenSnoc(xs[..k], xs[k]);
    var pre := Flatten(xs[..k]);
    assert Flatten(xs) + rest == pre + xs[k] + (Flatten(xs[k + 1..]) + rest);
  }

  /** Where `s` is the concatenation of `xs` followed by `rest`, chunk k of
      `xs` is `h + body + t`, and `h` ends with `tail`: the body sits at
      `off`, right after the chunks before k and `h`, with `t` after it and
      `tail` at `before`, right before it. */
  lemma ChunkLayout(s: seq<byte>, xs: seq<seq<byte>>, rest: seq<byte>, k: nat, h: seq<byte>, body: seq<byte>,
                    t: seq<byte>, tail: seq<byte>, off: int, after: int, before: int)
    requires s == Flatten(xs) + rest
    requires k < |xs| && xs[k] == h + body + t
    requires EndsWith(h, tail)
    requires off == |Flatten(xs[..k])| + |h| && after == off + |body| && before == off - |tail|
    ensures Within(s, off, body)
    ensures Within(s, after, t)
    ensures Within(s, before, tail)
  {
    FlattenAt(xs, k, rest);
    Layout3(s, |Flatten(xs[..k])|, xs[k], h, body, t, tail, off, after, before);
  }

  /** True of the bytes that may follow a lead byte (10xxxxxx). */
  predicate IsContinuation(b: byte)
  {
    0x80 <= b < 0xC0
  }

  /** The six payload bits of a continuation byte. */
  function Payload(b: byte): int
  {
    b as int - 0x80
  }

  /** The UTF-8 encoding of one Unicode scalar value (section 3 of RFC 3629). */
  function EncodeChar(c: char): (r: seq<byte>)
    ensures 1 <= |r| <= 4
    ensures |r| == 1 <==> c as int < 0x80
    ensures r[0] < 0x80 <==> c as int < 0x80
    ensures forall i :: 1 <= i < |r| ==> IsContinuation(r[i])
  {
    var cp := c as int;
    var q1, t0 := cp / 64, cp % 64;
    var q2, t1 := q1 / 64, q1 % 64;
    var q3, t2 := q2 / 64, q2 % 64;
    if cp < 0x80 then [cp]
    else if cp < 0x800 then [0xC0 + q1, 0x80 + t0]
    else if cp < 0x1_0000 then [0xE0 + q2, 0x80 + t1, 0x80 + t0]
    else [0xF0 + q3, 0x80 + t2, 0x80 + t1, 0x80 + t0]
  }

  /** `Buffer.from(s)` for a string `s`: the UTF-8 encoding of its characters. */
  function Encode(s: string): (r: seq<byte>)
    ensures |s| <= |r| <= 4 * |s|
  {
    if |s| == 0 then [] else EncodeChar(s[0]) + Encode(s[1..])
  }

  /** Encoding distributes over concatenation, so a template string may be
      encoded piece by piece. */
  lemma {:induction false} EncodeAppend(s: string, t: string)
    ensures Encode(s + t) == Encode(s) + Encode(t)
  {
    if |s| == 0 {
      assert s + t == t;
    } else {
      assert (s + t)[1..] == s[1..] + t;
      EncodeAppend(s[1..], t);
    }
  }

  predicate IsAscii(s: string)
  {
    forall i :: 0 <= i < |s| ==> s[i] as int < 0x80
  }

  /** An ASCII string encodes to one byte per character, each the character's code. */
  lemma {:induction false} EncodeAscii(s: string)
    requires IsAscii(s)
    ensures |Encode(s)| == |s|
    ensures forall i :: 0 <= i < |s| ==> Encode(s)[i] == s[i] as int
  {
    if |s| > 0 {
      assert IsAscii(s[1..]) by {
        forall i | 0 <= i < |s[1..]| ensures s[1..][i] as int < 0x80 {
          assert s[1..][i] == s[i + 1];
        }
      }
      EncodeAscii(s[1..]);
    }
  }

  /** Decodes the first character of `bs`, reporting how many bytes it took.
      Overlong forms, surrogates and values above U+10FFFF are refused. */
  function DecodeChar(bs: seq<byte>): (r: Option<(char, nat)>)
    ensures r.Some? ==> 1 <= r.value.1 <= |bs| && r.value.1 <= 4
  {
    if |bs| == 0 then None
    else
      var b0 := bs[0] as int;
      if b0 < 0x80 then Some((b0 as char, 1))
      else if 0xC2 <= b0 < 0xE0 && |bs| >= 2 && IsContinuation(bs[1]) then
        Some((((b0 - 0xC0) * 64 + Payload(bs[1])) as char, 2))
      else if 0xE0 <= b0 < 0xF0 && |bs| >= 3 && IsContinuation(bs[1]) && IsContinuation(bs[2]) then
        var cp := ((b0 - 0xE0) * 64 + Payload(bs[1])) * 64 + Payload(bs[2]);
        if 0x800 <= cp < 0xD800 || 0xE000 <= cp then Some((cp as char, 3)) else None
      else if 0xF0 <= b0 < 0xF5 && |bs| >= 4 && IsContinuation(bs[1]) && IsContinuation(bs[2]) && IsContinuation(bs[3]) then
        var cp := (((b0 - 0xF0) * 64 + Payload(bs[1])) * 64 + Payload(bs[2])) * 64 + Payload(bs[3]);
        if 0x1_0000 <= cp < 0x11_0000 then Some((cp as char, 4)) else None
      else None
  }

  /** Decodes a whole byte sequence; `None` when it is not well-formed UTF-8. */
  function Decode(bs: seq<byte>): Option<string>
    decreases |bs|
  {
    if |bs| == 0 then Some([])
    else match DecodeChar(bs)
      case None => None
      case Some((c, k)) =>
        match Decode(bs[k..])
        case None => None
        case Some(rest) => Some([c] + rest)
  }

  lemma Div64(q: int, r: int)
    requires 0 <= r < 64
    ensures (q * 64 + r) / 64 == q && (q * 64 + r) % 64 == r
  {
  }

  lemma DecodeEncodeChar(c: char, rest: seq<byte>)
    ensures DecodeChar(EncodeChar(c) + rest) == Some((c, |EncodeChar(c)|))
  {
  }

  /** Decoding undoes encoding. */
  lemma {:induction false} DecodeEncode(s: string)
    ensures Decode(Encode(s)) == Some(s)
  {
    if |s| > 0 {
      var e := EncodeChar(s[0]);
      DecodeEncodeChar(s[0], Encode(s[1..]));
      assert (e + Encode(s[1..]))[|e|..] == Encode(s[1..]);
      DecodeEncode(s[1..]);
      assert [s[0]] + s[1..] == s;
    }
  }

  lemma EncodeDecodeChar(bs: seq<byte>)
    requires DecodeChar(bs).Some?
    ensures EncodeChar(DecodeChar(bs).value.0) == bs[..DecodeChar(bs).value.1]
  {
    var b0 := bs[0] as int;
    var k := DecodeChar(bs).value.1;
    if k == 2 {
      Div64(b0 - 0xC0, Payload(bs[1]));
    } else if k == 3 {
      var q := (b0 - 0xE0) * 64 + Payload(bs[1]);
      Div64(q, Payload(bs[2]));
      Div64(b0 - 0xE0, Payload(bs[1]));
    } else if k == 4 {
      var q2 := (b0 - 0xF0) * 64 + Payload(bs[1]);
      var q1 := q2 * 64 + Payload(bs[2]);
      Div64(q1, Payload(bs[3]));
      Div64(q2, Payload(bs[2]));
      Div64(b0 - 0xF0, Payload(bs[1]));
    }
  }

  /** Encoding undoes decoding: a decodable byte sequence is the encoding of
      exactly one string. */
  lemma {:induction false} EncodeDecode(bs: seq<byte>)
    requires Decode(bs).Some?
    ensures Encode(Decode(bs).value) == bs
    decreases |bs|
  {
    if |bs| > 0 {
      var k := DecodeChar(bs).value.1;
      EncodeDecodeChar(bs);
      EncodeDecode(bs[k..]);
      assert bs == bs[..k] + bs[k..];
    }
  }
}
