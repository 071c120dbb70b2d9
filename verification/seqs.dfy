/** Facts about sequences that hold whatever the elements are. The framing
    proofs use them on large concrete terms: passing such terms to a lemma
    stated over plain variables is much cheaper than letting the solver
    take them apart. */
module Seqs {

  ghost predicate StartsWith<T>(s: seq<T>, prefix: seq<T>)
  {
    |prefix| <= |s| && s[..|prefix|] == prefix
  }

  ghost predicate EndsWith<T>(s: seq<T>, suffix: seq<T>)
  {
    |suffix| <= |s| && s[|s| - |suffix|..] == suffix
  }

  /** `x` occurs in `s` at position `at`. */
  ghost predicate Within<T>(s: seq<T>, at: int, x: seq<T>)
  {
    0 <= at && at + |x| <= |s| && s[at..at + |x|] == x
  }

  /** The left operand of a concatenation is its prefix. */
  lemma PrefixOf<T>(f: seq<T>, a: seq<T>, c: seq<T>)
    requires f == a + c
    ensures StartsWith(f, a)
  {
  }

  /** The right operand of a concatenation is its suffix. */
  lemma SuffixOf<T>(f: seq<T>, a: seq<T>, c: seq<T>)
    requires f == a + c
    ensures EndsWith(f, c)
  {
  }

  /** A sequence that ends with `c` is what precedes `c`, followed by `c`. */
  lemma SplitSuffix<T>(f: seq<T>, c: seq<T>)
    requires EndsWith(f, c)
    ensures f == f[..|f| - |c|] + c
  {
  }

  lemma Assoc4<T>(a: seq<T>, b: seq<T>, c: seq<T>, d: seq<T>)
    ensures a + b + c + d == a + (b + c + d)
  {
  }

  /** A sequence that starts with `f`, where `f` starts with `open`, starts with `open`. */
  lemma StartsWithTrans<T>(s: seq<T>, f: seq<T>, open: seq<T>)
    requires StartsWith(s, f) && StartsWith(f, open)
    ensures StartsWith(s, open)
  {
    assert s[..|open|] == s[..|f|][..|open|];
  }

  lemma WithinStart<T>(s: seq<T>, f: seq<T>)
    requires Within(s, 0, f)
    ensures StartsWith(s, f)
  {
  }

  /** A slice of an embedded sequence is the same slice of the host, shifted. */
  lemma SliceWithin<T>(s: seq<T>, start: nat, f: seq<T>, a: nat, b: nat)
    requires Within(s, start, f)
    requires a <= b <= |f|
    ensures Within(s, start + a, f[a..b])
  {
    forall i | 0 <= i < b - a
      ensures s[start + a..start + b][i] == f[a..b][i]
    {
      assert s[start..start + |f|][a + i] == s[start + a + i];
    }
  }

  /** Where `s` holds `f` and `f` starts with `d`, `s` holds `d` at the same place. */
  lemma WithinPrefix<T>(s: seq<T>, at: nat, f: seq<T>, d: seq<T>)
    requires Within(s, at, f) && StartsWith(f, d)
    ensures Within(s, at, d)
  {
    SliceWithin(s, at, f, 0, |d|);
  }

  /** Where `s` holds `f`, that is `h + body + t`, at `start`, and `h` ends
      with `tail`: the body sits at `off`, right after `h`, `t` right after
      the body, and `tail` at `before`, right before the body. */
  lemma Layout3<T>(s: seq<T>, start: nat, f: seq<T>, h: seq<T>, body: seq<T>, t: seq<T>, tail: seq<T>,
                   off: int, after: int, before: int)
    requires Within(s, start, f)
    requires f == h + body + t
    requires EndsWith(h, tail)
    requires off == start + |h| && after == off + |body| && before == off - |tail|
    ensures Within(s, off, body)
    ensures Within(s, after, t)
    ensures Within(s, before, tail)
  {
    SliceWithin(s, start, f, |h|, |h| + |body|);
    SliceWithin(s, start, f, |h| + |body|, |f|);
    SliceWithin(s, start, f, |h| - |tail|, |h|);
    assert f[|h|..|h| + |body|] == body;
    assert f[|h| + |body|..|f|] == t;
    assert f[|h| - |tail|..|h|] == h[|h| - |tail|..];
  }

  /** Two framed pieces, one of them already joined, regrouped frame by frame. */
  lemma RegroupFrames<T>(x: seq<T>, h1: seq<T>, b1: seq<T>, lb: seq<T>, d: seq<T>, h2: seq<T>, b2: seq<T>)
    requires d == h2 + b2 + lb
    ensures x + h1 + b1 + lb + d == x + (h1 + b1 + lb) + (h2 + b2 + lb)
  {
  }

  lemma Assoc3<T>(a: seq<T>, b: seq<T>, c: seq<T>)
    ensures a + (b + c) == a + b + c
  {
  }

  /** A common prefix can be cancelled. */
  lemma PrefixCancel<T>(p: seq<T>, x: seq<T>, y: seq<T>)
    requires p + x == p + y
    ensures x == y
  {
    assert x == (p + x)[|p|..];
    assert y == (p + y)[|p|..];
  }
}
