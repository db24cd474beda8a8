/** The text clean-up of the page scraper: after the page's body text has been
    extracted, every run of whitespace becomes one space and the ends are
    trimmed; any failure while fetching or parsing yields the empty string. */
module HtmlScraping {
  import opened Text

  /** Positions `i` and `i + 1` of `s` both hold whitespace. */
  predicate DoubleWhitespaceAt(s: string, i: int) {
    0 <= i < |s| - 1 && IsWhitespace(s[i]) && IsWhitespace(s[i + 1])
  }

  /** No whitespace other than ' ', and never two whitespace characters in a row. */
  predicate SingleSpaced(s: string) {
    && (forall i :: 0 <= i < |s| && IsWhitespace(s[i]) ==> s[i] == ' ')
    && (forall i :: 0 <= i < |s| ==> !DoubleWhitespaceAt(s, i))
  }

  /** A string in the form the scraper emits: single-spaced with no whitespace
      at either end. */
  predicate IsNormalized(s: string) {
    !StartsWithWhitespace(s) && !EndsWithWhitespace(s) && SingleSpaced(s)
  }

  lemma SingleSpacedSlice(s: string, a: nat, b: nat)
    requires SingleSpaced(s) && a <= b <= |s|
    ensures SingleSpaced(s[a..b])
  {
    var t := s[a..b];
    forall i | 0 <= i < |t|
      ensures !DoubleWhitespaceAt(t, i)
    {
      if i < |t| - 1 {
        assert t[i] == s[a + i] && t[i + 1] == s[a + i + 1];
        assert !DoubleWhitespaceAt(s, a + i);
      }
    }
  }

  /** `replace(/\s+/g, " ")`: the regular expression is greedy, so at each
      whitespace character the whole run starting there is replaced by one space. */
  function CollapseWhitespace(s: string): (r: string)
    ensures SingleSpaced(r)
    ensures RemoveWhitespace(r) == RemoveWhitespace(s)
    ensures StartsWithWhitespace(r) <==> StartsWithWhitespace(s)
    ensures EndsWithWhitespace(r) <==> EndsWithWhitespace(s)
    ensures |r| <= |s| && (r == [] <==> s == [])
    decreases |s|
  {
    if s == [] then []
    else if IsWhitespace(s[0]) then
      var rest := TrimStart(s);
      var tail := CollapseWhitespace(rest);
      RunCase(s, rest, tail);
      " " + tail
    else
      var tail := CollapseWhitespace(s[1..]);
      CharCase(s, tail);
      [s[0]] + tail
  }

  /** Step of `CollapseWhitespace` at a whitespace run: `rest` is what follows
      the run and `tail` its collapsed form. */
  lemma RunCase(s: string, rest: string, tail: string)
    requires StartsWithWhitespace(s) && rest == TrimStart(s)
    requires SingleSpaced(tail)
    requires RemoveWhitespace(tail) == RemoveWhitespace(rest)
    requires StartsWithWhitespace(tail) <==> StartsWithWhitespace(rest)
    requires EndsWithWhitespace(tail) <==> EndsWithWhitespace(rest)
    requires |tail| <= |rest| && (tail == [] <==> rest == [])
    ensures SingleSpaced(" " + tail)
    ensures RemoveWhitespace(" " + tail) == RemoveWhitespace(s)
    ensures EndsWithWhitespace(" " + tail) <==> EndsWithWhitespace(s)
    ensures |" " + tail| <= |s|
  {
    RunCaseSpacing(tail);
    RunCaseText(s, rest, tail);
    RunCaseEnd(s, rest, tail);
  }

  lemma RunCaseEnd(s: string, rest: string, tail: string)
    requires StartsWithWhitespace(s) && rest == TrimStart(s)
    requires EndsWithWhitespace(tail) <==> EndsWithWhitespace(rest)
    requires tail == [] <==> rest == []
    ensures EndsWithWhitespace(" " + tail) <==> EndsWithWhitespace(s)
  {
    var r := " " + tail;
    var skipped := |s| - |rest|;
    if rest == [] {
      assert skipped == |s|;
      assert IsWhitespace(s[|s| - 1]);
    } else {
      assert rest == s[skipped..];
      assert s[|s| - 1] == rest[|rest| - 1];
      assert r[|r| - 1] == tail[|tail| - 1];
    }
  }

  lemma RunCaseSpacing(tail: string)
    requires SingleSpaced(tail) && !StartsWithWhitespace(tail)
    ensures SingleSpaced(" " + tail)
  {
    var r := " " + tail;
    forall i | 0 <= i < |r|
      ensures !DoubleWhitespaceAt(r, i)
    {
      if i == 0 && tail != [] {
        assert r[1] == tail[0];
      } else if 0 < i < |r| - 1 {
        assert r[i] == tail[i - 1] && r[i + 1] == tail[i];
        assert !DoubleWhitespaceAt(tail, i - 1);
      }
    }
  }

  lemma RunCaseText(s: string, rest: string, tail: string)
    requires rest == TrimStart(s)
    requires RemoveWhitespace(tail) == RemoveWhitespace(rest)
    ensures RemoveWhitespace(" " + tail) == RemoveWhitespace(s)
  {
    TrimStartKeepsText(s);
    var r := " " + tail;
    assert r[1..] == tail;
    assert IsWhitespace(' ');
  }

  /** Step of `CollapseWhitespace` at a character that is not whitespace:
      `tail` is the collapsed form of the rest of `s`. */
  lemma CharCase(s: string, tail: string)
    requires |s| > 0 && !IsWhitespace(s[0])
    requires SingleSpaced(tail)
    requires RemoveWhitespace(tail) == RemoveWhitespace(s[1..])
    requires EndsWithWhitespace(tail) <==> EndsWithWhitespace(s[1..])
    requires tail == [] <==> |s| == 1
    ensures SingleSpaced([s[0]] + tail)
    ensures RemoveWhitespace([s[0]] + tail) == RemoveWhitespace(s)
    ensures EndsWithWhitespace([s[0]] + tail) <==> EndsWithWhitespace(s)
  {
    CharCaseSpacing(s[0], tail);
    CharCaseText(s, tail);
    CharCaseEnd(s, tail);
  }

  lemma CharCaseSpacing(c: char, tail: string)
    requires !IsWhitespace(c) && SingleSpaced(tail)
    ensures SingleSpaced([c] + tail)
  {
    var r := [c] + tail;
    forall i | 0 <= i < |r|
      ensures !DoubleWhitespaceAt(r, i)
    {
      if 0 < i < |r| - 1 {
        assert r[i] == tail[i - 1] && r[i + 1] == tail[i];
        assert !DoubleWhitespaceAt(tail, i - 1);
      }
    }
  }

  lemma CharCaseText(s: string, tail: string)
    requires |s| > 0 && !IsWhitespace(s[0])
    requires RemoveWhitespace(tail) == RemoveWhitespace(s[1..])
    ensures RemoveWhitespace([s[0]] + tail) == RemoveWhitespace(s)
  {
    assert ([s[0]] + tail)[1..] == tail;
  }

  lemma CharCaseEnd(s: string, tail: string)
    requires |s| > 0
    requires EndsWithWhitespace(tail) <==> EndsWithWhitespace(s[1..])
    requires tail == [] <==> |s| == 1
    ensures EndsWithWhitespace([s[0]] + tail) <==> EndsWithWhitespace(s)
  {
    if tail != [] {
      assert ([s[0]] + tail)[|tail|] == tail[|tail| - 1];
      assert s[|s| - 1] == s[1..][|s| - 2];
    }
  }

  /** A word: a non-empty run of characters none of which is whitespace. */
  predicate IsWord(w: string) {
    w != [] && forall i :: 0 <= i < |w| ==> !IsWhitespace(w[i])
  }

  /** The longest prefix of `s` that holds no whitespace. */
  function WordPrefix(s: string): (r: string)
    ensures |r| <= |s| && r == s[..|r|]
    ensures forall i :: 0 <= i < |r| ==> !IsWhitespace(r[i])
    ensures |r| < |s| ==> IsWhitespace(s[|r|])
  {
    if s == [] || IsWhitespace(s[0]) then [] else [s[0]] + WordPrefix(s[1..])
  }

  /** The maximal runs of non-whitespace characters of `s`, in order. */
  function Words(s: string): seq<string>
    decreases |s|
  {
    var t := TrimStart(s);
    if t == [] then []
    else
      var w := WordPrefix(t);
      assert w != [] by {
        assert !IsWhitespace(t[0]);
      }
      [w] + Words(t[|w|..])
  }

  /** Every entry of `Words(s)` is a word. */
  lemma {:induction false} WordsAreWords(s: string)
    ensures forall i :: 0 <= i < |Words(s)| ==> IsWord(Words(s)[i])
    decreases |s|
  {
    var t := TrimStart(s);
    if t != [] {
      var w := WordPrefix(t);
      var rest := t[|w|..];
      assert IsWord(w) by {
        assert !IsWhitespace(t[0]);
      }
      WordsAreWords(rest);
      var ws := Words(s);
      assert ws == [w] + Words(rest);
      forall i | 0 <= i < |ws|
        ensures IsWord(ws[i])
      {
        if i > 0 {
          assert ws[i] == Words(rest)[i - 1];
        }
      }
    }
  }

  /** The words separated by single spaces. */
  function JoinWithSpaces(ws: seq<string>): string {
    if ws == [] then []
    else if |ws| == 1 then ws[0]
    else ws[0] + " " + JoinWithSpaces(ws[1..])
  }

  /** Words joined with spaces neither start nor end with whitespace, and
      give the empty string only for no words. */
  lemma {:induction false} JoinEnds(ws: seq<string>)
    requires forall i :: 0 <= i < |ws| ==> IsWord(ws[i])
    ensures var j := JoinWithSpaces(ws);
      && (j == [] <==> ws == [])
      && !StartsWithWhitespace(j) && !EndsWithWhitespace(j)
  {
    if |ws| > 1 {
      var rest := JoinWithSpaces(ws[1..]);
      assert IsWord(ws[1..][0]);
      JoinEnds(ws[1..]);
      var j := ws[0] + " " + rest;
      assert IsWord(ws[0]);
      assert j[0] == ws[0][0];
      assert j[|j| - 1] == rest[|rest| - 1];
    } else if |ws| == 1 {
      assert IsWord(ws[0]);
    }
  }

  lemma Associative(a: string, b: string, c: string)
    ensures a + (b + c) == (a + b) + c
  {
  }

  /** One space when `b` holds, nothing otherwise. */
  function SpaceIf(b: bool): string {
    if b then " " else ""
  }

  /** Collapsing copies a leading word unchanged. */
  lemma {:induction false} WordStep(s: string)
    requires s != [] && !IsWhitespace(s[0])
    ensures var w := WordPrefix(s);
      CollapseWhitespace(s) == w + CollapseWhitespace(s[|w|..])
    decreases |s|
  {
    var w := WordPrefix(s);
    var t := s[1..];
    assert CollapseWhitespace(s) == [s[0]] + CollapseWhitespace(t);
    if t == [] || IsWhitespace(t[0]) {
      assert w == [s[0]];
      assert s[|w|..] == t;
    } else {
      var v := WordPrefix(t);
      var rest := t[|v|..];
      WordStep(t);
      assert w == [s[0]] + v;
      assert s[|w|..] == rest;
      Associative([s[0]], v, CollapseWhitespace(rest));
    }
  }

  /** Collapsing a text that starts with a word: the words joined by single
      spaces, with one space after them when the text ends in whitespace. */
  lemma {:induction false} CollapseFromWord(t: string)
    requires !StartsWithWhitespace(t)
    ensures CollapseWhitespace(t) == JoinWithSpaces(Words(t)) + SpaceIf(EndsWithWhitespace(t))
    decreases |t|
  {
    if t == [] {
      NothingLeft();
    } else {
      var d := t[|WordPrefix(t)|..];
      if d == [] {
        LoneWord(t);
      } else {
        var u := TrimStart(d);
        CollapseFromWord(u);
        if u == [] {
          WordThenEnd(t);
        } else {
          WordThenWords(t);
        }
      }
    }
  }

  /** A word followed by whitespace up to the end collapses to the word and
      one space. */
  lemma WordThenEnd(t: string)
    requires t != [] && !IsWhitespace(t[0])
    requires var d := t[|WordPrefix(t)|..]; d != [] && TrimStart(d) == []
    ensures CollapseWhitespace(t) == JoinWithSpaces(Words(t)) + SpaceIf(EndsWithWhitespace(t))
  {
    var w := WordPrefix(t);
    var d := t[|w|..];
    CollapseAfterWord(t);
    WordsStep(t);
    RunAtEnd(t, d);
    NothingLeft();
    assert Words(t) == [w];
    assert JoinWithSpaces(Words(t)) + SpaceIf(EndsWithWhitespace(t)) == w + " ";
  }

  /** A word followed by a whitespace run and more words: the run becomes the
      space between the first word and the rest. */
  lemma WordThenWords(t: string)
    requires t != [] && !IsWhitespace(t[0])
    requires var d := t[|WordPrefix(t)|..]; var u := TrimStart(d);
      && d != [] && u != []
      && CollapseWhitespace(u) == JoinWithSpaces(Words(u)) + SpaceIf(EndsWithWhitespace(u))
    ensures CollapseWhitespace(t) == JoinWithSpaces(Words(t)) + SpaceIf(EndsWithWhitespace(t))
  {
    var w := WordPrefix(t);
    var d := t[|w|..];
    var u := TrimStart(d);
    CollapseAfterWord(t);
    WordsStep(t);
    assert Words(u) != [] by {
      assert TrimStart(u) == u;
    }
    JoinAfterWord(w, Words(u), SpaceIf(EndsWithWhitespace(u)));
    SameEnd(t, |w|, u);
  }

  /** A word and a whitespace run collapse to the word, one space, and the
      collapsed remainder. */
  lemma CollapseAfterWord(t: string)
    requires t != [] && !IsWhitespace(t[0]) && t[|WordPrefix(t)|..] != []
    ensures var w := WordPrefix(t);
      CollapseWhitespace(t) == w + (" " + CollapseWhitespace(TrimStart(t[|w|..])))
  {
    var w := WordPrefix(t);
    var d := t[|w|..];
    WordStep(t);
    RunStep(d);
  }

  lemma NothingLeft()
    ensures CollapseWhitespace([]) == [] && Words([]) == []
  {
  }

  /** A text that is one word collapses to itself. */
  lemma LoneWord(t: string)
    requires t != [] && !IsWhitespace(t[0]) && t[|WordPrefix(t)|..] == []
    ensures CollapseWhitespace(t) == JoinWithSpaces(Words(t)) + SpaceIf(EndsWithWhitespace(t))
  {
    var w := WordPrefix(t);
    WordStep(t);
    assert t == w;
    assert Words(t) == [t] by {
      assert TrimStart(t) == t;
      assert Words(t) == [w] + Words([]);
    }
    assert !EndsWithWhitespace(t) by {
      assert IsWord(w);
    }
    assert CollapseWhitespace(t) == t by {
      assert CollapseWhitespace(t) == w + [];
    }
    assert t + "" == t;
  }

  /** The words of a text that starts with a word: that word, then the words
      of what follows it. */
  lemma WordsStep(t: string)
    requires t != [] && !IsWhitespace(t[0])
    ensures var w := WordPrefix(t);
      Words(t) == [w] + Words(TrimStart(t[|w|..]))
  {
    var w := WordPrefix(t);
    var d := t[|w|..];
    var u := TrimStart(d);
    assert TrimStart(t) == t;
    assert Words(t) == [w] + Words(d);
    assert TrimStart(u) == u;
    assert Words(d) == Words(u);
  }

  /** A whitespace run collapses to one space and holds no word. */
  lemma RunStep(d: string)
    requires d != [] && IsWhitespace(d[0])
    ensures CollapseWhitespace(d) == " " + CollapseWhitespace(TrimStart(d))
  {
  }

  /** A whitespace run with nothing after it ends the text in whitespace. */
  lemma RunAtEnd(t: string, d: string)
    requires |d| <= |t| && d == t[|t| - |d|..] && d != [] && TrimStart(d) == []
    ensures EndsWithWhitespace(t)
  {
    assert IsWhitespace(d[|d| - 1]);
    assert t[|t| - 1] == d[|d| - 1];
  }

  lemma JoinAfterWord(w: string, ws: seq<string>, tail: string)
    requires ws != []
    ensures JoinWithSpaces([w] + ws) + tail == w + (" " + (JoinWithSpaces(ws) + tail))
  {
    var all := [w] + ws;
    assert |all| > 1 && all[0] == w && all[1..] == ws;
    Associative(w, " ", JoinWithSpaces(ws) + tail);
    Associative(w + " ", JoinWithSpaces(ws), tail);
  }

  /** What is left after the whitespace run that follows position `a` ends
      where the whole text ends. */
  lemma SameEnd(t: string, a: nat, u: string)
    requires a <= |t| && u == TrimStart(t[a..]) && u != []
    ensures EndsWithWhitespace(t) == EndsWithWhitespace(u)
  {
    var d := t[a..];
    assert u == d[|d| - |u|..];
    assert t[|t| - 1] == d[|d| - 1] == u[|u| - 1];
  }

  /** Where the spaces go: every whitespace run becomes one space, in place,
      so the result is the words of `s` joined by single spaces, with one
      space in front when `s` starts with whitespace and one behind when it
      ends with whitespace after some word. */
  lemma CollapseAsWords(s: string)
    ensures CollapseWhitespace(s)
      == SpaceIf(StartsWithWhitespace(s))
       + JoinWithSpaces(Words(s))
       + SpaceIf(EndsWithWhitespace(s) && Words(s) != [])
  {
    var t := TrimStart(s);
    LeadingRun(s);
    WordsAfterRun(s);
    CollapseFromWord(t);
    TrailingSpace(s);
    Associative(SpaceIf(StartsWithWhitespace(s)), JoinWithSpaces(Words(s)),
      SpaceIf(EndsWithWhitespace(s) && Words(s) != []));
  }

  /** A leading whitespace run collapses to one space. */
  lemma LeadingRun(s: string)
    ensures CollapseWhitespace(s) == SpaceIf(StartsWithWhitespace(s)) + CollapseWhitespace(TrimStart(s))
  {
    if StartsWithWhitespace(s) {
      assert CollapseWhitespace(s) == " " + CollapseWhitespace(TrimStart(s));
    } else {
      assert TrimStart(s) == s;
      assert "" + CollapseWhitespace(s) == CollapseWhitespace(s);
    }
  }

  /** Leading whitespace holds no word. */
  lemma WordsAfterRun(s: string)
    ensures Words(s) == Words(TrimStart(s))
  {
    assert TrimStart(TrimStart(s)) == TrimStart(s);
  }

  /** After the leading run, the text ends in whitespace exactly when the
      whole text does and some word comes before that whitespace. */
  lemma TrailingSpace(s: string)
    ensures EndsWithWhitespace(TrimStart(s)) == (EndsWithWhitespace(s) && Words(s) != [])
  {
    var t := TrimStart(s);
    WordsAfterRun(s);
    if t == [] {
      NothingLeft();
    } else {
      assert Words(t) != [] by {
        assert TrimStart(t) == t;
      }
      LastOfSuffix(s, t);
    }
  }

  lemma LastOfSuffix(s: string, t: string)
    requires 0 < |t| <= |s| && t == s[|s| - |t|..]
    ensures t[|t| - 1] == s[|s| - 1]
  {
  }

  lemma SpaceIfIsWhitespace(b: bool)
    ensures AllWhitespace(SpaceIf(b))
  {
    assert IsWhitespace(' ');
  }

  /** The normal form is the words of the input joined by single spaces. */
  lemma CollapseWords(s: string)
    ensures Trim(CollapseWhitespace(s)) == JoinWithSpaces(Words(s))
  {
    var ws := Words(s);
    var x := SpaceIf(StartsWithWhitespace(s));
    var y := SpaceIf(EndsWithWhitespace(s) && ws != []);
    CollapseAsWords(s);
    WordsAreWords(s);
    JoinEnds(ws);
    SpaceIfIsWhitespace(StartsWithWhitespace(s));
    SpaceIfIsWhitespace(EndsWithWhitespace(s) && ws != []);
    TrimFramed(x, JoinWithSpaces(ws), y);
  }

  /** `replace(/\s+/g, " ").trim()` */
  function NormalizeText(s: string): (r: string)
    ensures IsNormalized(r)
    ensures RemoveWhitespace(r) == RemoveWhitespace(s)
    ensures r == JoinWithSpaces(Words(s))
  {
    var c := CollapseWhitespace(s);
    TrimKeepsSpacing(c);
    CollapseWords(s);
    Trim(c)
  }

  /** Trimming cuts a slice out of a string, so it keeps single spacing. */
  lemma TrimKeepsSpacing(c: string)
    requires SingleSpaced(c)
    ensures SingleSpaced(Trim(c))
  {
    var r := Trim(c);
    var t := TrimStart(c);
    assert r == TrimEnd(t);
    SingleSpacedSlice(c, |c| - |t|, |c|);
    assert c[|c| - |t|..|c|] == t;
    SingleSpacedSlice(t, 0, |r|);
    assert t[0..|r|] == r;
  }

  /** What the fetch-and-parse collaborators produce: the text of the page's
      body once scripts, styles and navigation are removed, or a failure
      (network error, HTTP error, unparsable document). */
  datatype FetchOutcome = BodyText(text: string) | FetchFailed

  /** `getWebpageContent`: the normalised body text, or "" on any failure. */
  function GetWebpageContent(fetched: FetchOutcome): (r: string)
    ensures IsNormalized(r)
    ensures fetched.FetchFailed? ==> r == ""
    ensures fetched.BodyText? ==> r == NormalizeText(fetched.text)
    ensures fetched.BodyText? ==> r == JoinWithSpaces(Words(fetched.text))
    ensures fetched.BodyText? ==> RemoveWhitespace(r) == RemoveWhitespace(fetched.text)
    ensures r == "" <==> fetched.FetchFailed? || AllWhitespace(fetched.text)
  {
    match fetched
    case FetchFailed => ""
    case BodyText(text) =>
      var r := NormalizeText(text);
      RemoveWhitespaceEmpty(text);
      RemoveWhitespaceEmpty(r);
      assert r != [] ==> !IsWhitespace(r[0]);
      r
  }

  /** A whitespace run between two words becomes one space: the words are
      neither merged nor split. */
  lemma SpaceBetweenWords(a: string, r: string, b: string)
    requires IsWord(a) && IsWord(b) && r != [] && AllWhitespace(r)
    ensures NormalizeText(a + r + b) == a + " " + b
  {
    TwoWords(a, r, b);
    JoinTwo(a, b);
  }

  lemma JoinTwo(a: string, b: string)
    ensures JoinWithSpaces([a, b]) == a + " " + b
  {
    var ws := [a, b];
    assert |ws| == 2 && ws[0] == a;
    assert ws[1..] == [b];
    assert JoinWithSpaces([b]) == b;
    assert JoinWithSpaces(ws) == ws[0] + " " + JoinWithSpaces(ws[1..]);
  }

  lemma TwoWords(a: string, r: string, b: string)
    requires IsWord(a) && IsWord(b) && r != [] && AllWhitespace(r)
    ensures Words(a + r + b) == [a, b]
  {
    assert a + r + b == a + (r + b);
    FirstWord(a, r + b);
    assert Words(r + b) == [b] by {
      WordsAfterRun(r + b);
      TrimStartSkip(r, b);
      assert TrimStart(b) == b;
      OneWord(b);
    }
  }

  /** A word followed by whitespace or nothing is the first of the words. */
  lemma FirstWord(a: string, rest: string)
    requires IsWord(a) && !(rest != [] && !IsWhitespace(rest[0]))
    ensures Words(a + rest) == [a] + Words(rest)
  {
    var s := a + rest;
    assert Words(s) == [a] + Words(TrimStart(rest)) by {
      assert TrimStart(s) == s by {
        assert s[0] == a[0];
      }
      WordPrefixOf(a, rest);
      assert s[|a|..] == rest;
    }
    WordsAfterRun(rest);
  }

  lemma OneWord(b: string)
    requires IsWord(b)
    ensures Words(b) == [b]
  {
    WordPrefixOf(b, []);
    assert b + [] == b;
    assert TrimStart(b) == b;
    assert b[|b|..] == [];
    NothingLeft();
  }

  /** The word at the front of `a + rest` is `a` when `rest` does not
      continue it. */
  lemma {:induction false} WordPrefixOf(a: string, rest: string)
    requires IsWord(a) && !(rest != [] && !IsWhitespace(rest[0]))
    ensures WordPrefix(a + rest) == a
    decreases |a|
  {
    var s := a + rest;
    assert s[0] == a[0];
    assert s[1..] == a[1..] + rest;
    if |a| == 1 {
      assert a[1..] == [];
      assert s[1..] == rest;
    } else {
      assert IsWord(a[1..]) by {
        assert forall i :: 0 <= i < |a[1..]| ==> a[1..][i] == a[i + 1];
      }
      WordPrefixOf(a[1..], rest);
      assert a == [a[0]] + a[1..];
    }
  }

  /** Collapsing leaves a string without adjacent or non-space whitespace unchanged. */
  lemma {:induction false} CollapseFixpoint(s: string)
    requires SingleSpaced(s)
    ensures CollapseWhitespace(s) == s
    decreases |s|
  {
    if s != [] {
      var t := s[1..];
      SingleSpacedSlice(s, 1, |s|);
      assert s[1..|s|] == t;
      CollapseFixpoint(t);
      if IsWhitespace(s[0]) {
        SpaceThenText(s);
        CollapseRunStep(s, t);
      } else {
        assert CollapseWhitespace(s) == [s[0]] + t;
      }
    }
  }

  /** In a single-spaced string a space is followed by non-whitespace. */
  lemma SpaceThenText(s: string)
    requires SingleSpaced(s) && |s| > 0 && IsWhitespace(s[0])
    ensures s[0] == ' ' && TrimStart(s) == s[1..]
  {
    assert !DoubleWhitespaceAt(s, 0);
    assert !StartsWithWhitespace(s[1..]);
  }

  lemma CollapseRunStep(s: string, t: string)
    requires |s| > 0 && s[0] == ' ' && t == s[1..] && TrimStart(s) == t && CollapseWhitespace(t) == t
    ensures CollapseWhitespace(s) == s
  {
    assert s == " " + t by {
      assert s == [s[0]] + t;
    }
    calc {
      CollapseWhitespace(s);
      " " + CollapseWhitespace(TrimStart(s));
      " " + t;
    }
  }

  /** Normalisation is idempotent: a normalised string is its own normal form. */
  lemma NormalizedFixpoint(s: string)
    requires IsNormalized(s)
    ensures NormalizeText(s) == s
  {
    CollapseFixpoint(s);
    assert TrimStart(s) == s;
    assert TrimEnd(s) == s;
  }

  lemma NormalizeIdempotent(s: string)
    ensures NormalizeText(NormalizeText(s)) == NormalizeText(s)
  {
    NormalizedFixpoint(NormalizeText(s));
  }

  /** The normal form is empty exactly when the input is empty or all whitespace. */
  lemma NormalizeEmpty(s: string)
    ensures NormalizeText(s) == "" <==> AllWhitespace(s)
  {
    var r := NormalizeText(s);
    RemoveWhitespaceEmpty(s);
    RemoveWhitespaceEmpty(r);
    assert r != [] ==> !IsWhitespace(r[0]);
  }
}
