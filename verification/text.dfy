/** Character classes and trimming shared by the scraper and the tag extractor.
    Strings are sequences of Unicode scalar values; the source counts UTF-16
    code units, which only differs outside the Basic Multilingual Plane. */
module Text {

  /** ECMAScript WhiteSpace and LineTerminator code points: the class matched
      by `\s` in a regular expression and removed by `trim`/`trimStart`. */
  predicate IsWhitespace(c: char) {
    var n := c as int;
    || n == 0x20                 // space
    || 0x09 <= n <= 0x0D         // tab, line feed, vertical tab, form feed, carriage return
    || n == 0xA0 || n == 0x1680  // no-break space, ogham space mark
    || 0x2000 <= n <= 0x200A     // en quad .. hair space
    || n == 0x2028 || n == 0x2029 // line and paragraph separators
    || n == 0x202F || n == 0x205F || n == 0x3000 // narrow no-break, math, ideographic spaces
    || n == 0xFEFF               // zero-width no-break space (byte order mark)
  }

  predicate AllWhitespace(s: string) {
    forall i :: 0 <= i < |s| ==> IsWhitespace(s[i])
  }

  predicate StartsWithWhitespace(s: string) {
    |s| > 0 && IsWhitespace(s[0])
  }

  predicate EndsWithWhitespace(s: string) {
    |s| > 0 && IsWhitespace(s[|s| - 1])
  }

  /** `String.prototype.trimStart`: the longest suffix of `s` that does not
      start with whitespace. */
  function TrimStart(s: string): (r: string)
    ensures |r| <= |s| && r == s[|s| - |r|..]
    ensures !StartsWithWhitespace(r)
    ensures forall i :: 0 <= i < |s| - |r| ==> IsWhitespace(s[i])
  {
    if StartsWithWhitespace(s) then TrimStart(s[1..]) else s
  }

  /** `String.prototype.trimEnd`: the longest prefix of `s` that does not
      end with whitespace. */
  function TrimEnd(s: string): (r: string)
    ensures |r| <= |s| && r == s[..|r|]
    ensures !EndsWithWhitespace(r)
    ensures forall i :: |r| <= i < |s| ==> IsWhitespace(s[i])
  {
    if EndsWithWhitespace(s) then TrimEnd(s[..|s| - 1]) else s
  }

  /** `r` occurs in `s` as a contiguous block. */
  predicate IsInfix(r: string, s: string) {
    exists a :: 0 <= a <= |s| - |r| && s[a..] [..|r|] == r
  }

  /** `String.prototype.trim`: drops whitespace at both ends and keeps the
      contiguous middle, including every character that is not whitespace. */
  function Trim(s: string): (r: string)
    ensures !StartsWithWhitespace(r) && !EndsWithWhitespace(r)
    ensures IsInfix(r, s)
    ensures RemoveWhitespace(r) == RemoveWhitespace(s)
  {
    var t := TrimStart(s);
    var r := TrimEnd(t);
    var a := |s| - |t|;
    assert s[a..a + |r|] == r;
    TrimStartKeepsText(s);
    TrimEndKeepsText(t);
    r
  }

  /** The characters of `s` that are not whitespace, in order. */
  function RemoveWhitespace(s: string): (r: string)
    ensures |r| <= |s|
    ensures forall i :: 0 <= i < |r| ==> !IsWhitespace(r[i])
  {
    if s == [] then []
    else (if IsWhitespace(s[0]) then [] else [s[0]]) + RemoveWhitespace(s[1..])
  }

  lemma {:induction false} RemoveWhitespaceAppend(a: string, b: string)
    ensures RemoveWhitespace(a + b) == RemoveWhitespace(a) + RemoveWhitespace(b)
    decreases |a|
  {
    if a == [] {
      assert a + b == b;
    } else {
      assert (a + b)[1..] == a[1..] + b;
      RemoveWhitespaceAppend(a[1..], b);
    }
  }

  /** Removing whitespace leaves nothing exactly when there was nothing else. */
  lemma {:induction false} RemoveWhitespaceEmpty(s: string)
    ensures RemoveWhitespace(s) == [] <==> AllWhitespace(s)
  {
    if s != [] {
      RemoveWhitespaceEmpty(s[1..]);
      assert AllWhitespace(s) <==> IsWhitespace(s[0]) && AllWhitespace(s[1..]);
    }
  }

  lemma TrimStartKeepsText(s: string)
    ensures RemoveWhitespace(TrimStart(s)) == RemoveWhitespace(s)
  {
    var r := TrimStart(s);
    var run := s[..|s| - |r|];
    assert s == run + r;
    RemoveWhitespaceAppend(run, r);
    RemoveWhitespaceEmpty(run);
  }

  lemma TrimEndKeepsText(s: string)
    ensures RemoveWhitespace(TrimEnd(s)) == RemoveWhitespace(s)
  {
    var r := TrimEnd(s);
    var run := s[|r|..];
    assert s == r + run;
    RemoveWhitespaceAppend(r, run);
    RemoveWhitespaceEmpty(run);
  }

  /** Whitespace in front of `r` makes no difference to `trimStart`. */
  lemma {:induction false} TrimStartSkip(x: string, r: string)
    requires AllWhitespace(x)
    ensures TrimStart(x + r) == TrimStart(r)
    decreases |x|
  {
    if x == [] {
      assert x + r == r;
    } else {
      assert (x + r)[0] == x[0];
      assert (x + r)[1..] == x[1..] + r;
      TrimStartSkip(x[1..], r);
    }
  }

  /** Whitespace after `r` makes no difference to `trimEnd`. */
  lemma {:induction false} TrimEndSkip(r: string, y: string)
    requires AllWhitespace(y)
    ensures TrimEnd(r + y) == TrimEnd(r)
    decreases |y|
  {
    if y == [] {
      assert r + y == r;
    } else {
      var ry := r + y;
      assert ry[|ry| - 1] == y[|y| - 1];
      assert ry[..|ry| - 1] == r + y[..|y| - 1];
      TrimEndSkip(r, y[..|y| - 1]);
    }
  }

  /** Trimming a text framed by whitespace gives the text back. */
  lemma TrimFramed(x: string, j: string, y: string)
    requires AllWhitespace(x) && AllWhitespace(y)
    requires !StartsWithWhitespace(j) && !EndsWithWhitespace(j)
    ensures Trim(x + j + y) == j
  {
    assert x + j + y == x + (j + y);
    TrimStartSkip(x, j + y);
    if j == [] {
      assert j + y == y;
    } else {
      assert (j + y)[0] == j[0];
      TrimEndSkip(j, y);
    }
  }

  lemma TrimStartAllWhitespace(s: string)
    requires AllWhitespace(s)
    ensures TrimStart(s) == ""
  {
  }
}
