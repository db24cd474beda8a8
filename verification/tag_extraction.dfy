/** `extractTagContents(input, tagName)`: pulls the payloads out of model output
    that wraps them in `<tag>…</tag>`. The source runs the global regular
    expression `<tag>(.*?)(</tag>|$)` with the dot matching newlines; this
    module states that scan directly on strings. Each match starts at the
    first `<tag>` at or after the scan position, its capture ends at the first
    following `</tag>` or at the end of the input, and the scan resumes after
    whatever ended the capture. Empty captures are dropped and the others have
    their leading whitespace removed. */
module TagExtraction {
  import opened Wrappers
  import opened Text

  function OpenTag(tag: string): string {
    "<" + tag + ">"
  }

  function CloseTag(tag: string): string {
    "</" + tag + ">"
  }

  /** `pat` occurs in `s` starting at position `i`. */
  predicate OccursAt(s: string, pat: string, i: int) {
    0 <= i && i + |pat| <= |s| && s[i..i + |pat|] == pat
  }

  /** No occurrence of `pat` in `s` starts at a position in [lo, hi). */
  predicate AbsentIn(s: string, pat: string, lo: int, hi: int) {
    forall j :: lo <= j < hi ==> !OccursAt(s, pat, j)
  }

  /** `pat` occurs nowhere in `s` at or after `lo`. */
  predicate AbsentFrom(s: string, pat: string, lo: int) {
    AbsentIn(s, pat, lo, |s| + 1)
  }

  /** The first position at or after `from` where `pat` occurs in `s`. */
  function IndexOf(s: string, pat: string, from: nat): (r: Option<nat>)
    ensures r.Some? ==> from <= r.value && OccursAt(s, pat, r.value) && AbsentIn(s, pat, from, r.value)
    ensures r.None? ==> AbsentFrom(s, pat, from)
    decreases |s| - from
  {
    if from + |pat| > |s| then None
    else if s[from..from + |pat|] == pat then Some(from)
    else IndexOf(s, pat, from + 1)
  }

  /** One regular-expression match: the opening tag starts at `opener`, the
      capture is `input[start..stop]`, and the next search starts at `resume`
      (after the closing tag, or at the end of the input when none was found). */
  datatype Capture = Capture(opener: nat, start: nat, stop: nat, resume: nat)

  predicate InBounds(input: string, cs: seq<Capture>) {
    forall k :: 0 <= k < |cs| ==> cs[k].start <= cs[k].stop <= |input|
  }

  /** One `regex.exec` from `from`: the first opening tag at or after `from`,
      and the first closing tag after it if there is one. */
  function NextMatch(input: string, tag: string, from: nat): (r: Option<Capture>)
    requires from <= |input|
    ensures r.None? <==> IndexOf(input, OpenTag(tag), from).None?
    ensures r.Some? ==> r.value.start <= r.value.stop <= |input| && from < r.value.resume <= |input|
  {
    match IndexOf(input, OpenTag(tag), from)
    case None => None
    case Some(p) =>
      var start := p + |OpenTag(tag)|;
      match IndexOf(input, CloseTag(tag), start)
      case None => Some(Capture(p, start, |input|, |input|))
      case Some(q) => Some(Capture(p, start, q, q + |CloseTag(tag)|))
  }

  /** The matches found by repeatedly executing the global regular expression
      from `from` on. */
  function Captures(input: string, tag: string, from: nat): (cs: seq<Capture>)
    requires from <= |input|
    ensures InBounds(input, cs)
    decreases |input| - from
  {
    match NextMatch(input, tag, from)
    case None => []
    case Some(c) => [c] + Captures(input, tag, c.resume)
  }

  /** What a single match must be, independently of how it was found: it
      begins with an opening tag, and its capture runs to the first closing
      tag after it or, when there is none, to the end of the input. */
  predicate CaptureSpec(input: string, tag: string, c: Capture) {
    && OccursAt(input, OpenTag(tag), c.opener)
    && c.start == c.opener + |OpenTag(tag)|
    && c.start <= c.stop
    && AbsentIn(input, CloseTag(tag), c.start, c.stop)
    && ((OccursAt(input, CloseTag(tag), c.stop) && c.resume == c.stop + |CloseTag(tag)|)
        || (c.stop == |input| && c.resume == |input|))
  }

  /** Match `b` is the one that follows match `a`: it begins at the first
      opening tag at or after the point where `a` left off. */
  predicate Consecutive(input: string, tag: string, a: Capture, b: Capture) {
    a.resume <= b.opener && AbsentIn(input, OpenTag(tag), a.resume, b.opener)
  }

  /** The declarative description of a full scan from `from`: every match is
      well formed, each begins at the first opening tag after the previous one
      ended, and no opening tag is left after the last one. */
  predicate ScanSpec(input: string, tag: string, from: nat, cs: seq<Capture>) {
    && (forall k :: 0 <= k < |cs| ==> CaptureSpec(input, tag, cs[k]))
    && (forall k :: 0 <= k < |cs| - 1 ==> Consecutive(input, tag, cs[k], cs[k + 1]))
    && (if cs == [] then AbsentFrom(input, OpenTag(tag), from)
        else from <= cs[0].opener && AbsentIn(input, OpenTag(tag), from, cs[0].opener)
             && AbsentFrom(input, OpenTag(tag), cs[|cs| - 1].resume))
  }

  /** The text captured by `c`. */
  function Content(input: string, c: Capture): string
    requires c.start <= c.stop <= |input|
  {
    input[c.start..c.stop]
  }

  /** The loop body of the source, applied to the matches from the `i`-th on:
      a capture that is the empty string is skipped, any other is kept with its
      leading whitespace removed. */
  function Collect(input: string, cs: seq<Capture>, i: nat): (r: seq<string>)
    requires InBounds(input, cs) && i <= |cs|
    ensures |r| <= |cs| - i
    ensures forall k :: 0 <= k < |r| ==> !StartsWithWhitespace(r[k])
    decreases |cs| - i
  {
    if i == |cs| then []
    else
      var content := Content(input, cs[i]);
      (if content != "" then [TrimStart(content)] else []) + Collect(input, cs, i + 1)
  }

  function ExtractTagContents(input: string, tag: string): (r: seq<string>)
    ensures forall k :: 0 <= k < |r| ==> !StartsWithWhitespace(r[k])
  {
    Collect(input, Captures(input, tag, 0), 0)
  }

  // ---------------------------------------------------------------------------
  // The scan and its declarative description agree

  /** One step of the scan: either no opening tag is left, or the first match
      meets its description and the remaining ones are the scan from where it
      left off. */
  lemma CapturesStep(input: string, tag: string, from: nat)
    requires from <= |input|
    ensures var cs := Captures(input, tag, from);
      if cs == [] then AbsentFrom(input, OpenTag(tag), from)
      else
        && CaptureSpec(input, tag, cs[0])
        && from <= cs[0].opener && AbsentIn(input, OpenTag(tag), from, cs[0].opener)
        && from < cs[0].resume <= |input|
        && cs[1..] == Captures(input, tag, cs[0].resume)
  {
    var cs := Captures(input, tag, from);
    match NextMatch(input, tag, from)
    case None =>
    case Some(c) =>
      NextMatchMeetsSpec(input, tag, from);
      assert cs == [c] + Captures(input, tag, c.resume);
  }

  /** A single execution finds a match that meets its description, starting
      at the first opening tag from `from` on. */
  lemma NextMatchMeetsSpec(input: string, tag: string, from: nat)
    requires from <= |input|
    ensures var r := NextMatch(input, tag, from);
      if r.None? then AbsentFrom(input, OpenTag(tag), from)
      else CaptureSpec(input, tag, r.value) && from <= r.value.opener && AbsentIn(input, OpenTag(tag), from, r.value.opener)
  {
    match IndexOf(input, OpenTag(tag), from)
    case None =>
    case Some(p) =>
      var start := p + |OpenTag(tag)|;
      match IndexOf(input, CloseTag(tag), start)
      case None =>
        assert AbsentIn(input, CloseTag(tag), start, |input|);
      case Some(q) =>
  }

  lemma {:induction false} CapturesMeetSpec(input: string, tag: string, from: nat)
    requires from <= |input|
    ensures ScanSpec(input, tag, from, Captures(input, tag, from))
    decreases |input| - from
  {
    var cs := Captures(input, tag, from);
    CapturesStep(input, tag, from);
    if cs != [] {
      CapturesMeetSpec(input, tag, cs[0].resume);
      assert cs == [cs[0]] + cs[1..];
      ScanCons(input, tag, from, cs[0], cs[1..]);
    }
  }

  /** Extending a scan from `c.resume` by the match `c` in front gives a scan from `from`. */
  lemma ScanCons(input: string, tag: string, from: nat, c: Capture, rest: seq<Capture>)
    requires CaptureSpec(input, tag, c)
    requires from <= c.opener && AbsentIn(input, OpenTag(tag), from, c.opener)
    requires c.resume <= |input| && ScanSpec(input, tag, c.resume, rest)
    ensures ScanSpec(input, tag, from, [c] + rest)
  {
    var cs := [c] + rest;
    assert cs[1..] == rest;
    forall k | 0 <= k < |cs| - 1
      ensures Consecutive(input, tag, cs[k], cs[k + 1])
    {
      if k > 0 {
        assert cs[k] == rest[k - 1] && cs[k + 1] == rest[k];
      }
    }
    if rest == [] {
      assert cs[|cs| - 1] == c;
    } else {
      assert cs[|cs| - 1] == rest[|rest| - 1];
    }
  }

  /** Conversely, the description admits only one sequence of matches: the
      one the scan produces. */
  lemma {:induction false} SpecDeterminesCaptures(input: string, tag: string, from: nat, cs: seq<Capture>)
    requires from <= |input|
    requires ScanSpec(input, tag, from, cs)
    ensures cs == Captures(input, tag, from)
    decreases |input| - from
  {
    var ds := Captures(input, tag, from);
    CapturesStep(input, tag, from);
    if cs != [] {
      var c := cs[0];
      assert CaptureSpec(input, tag, c);
      assert ds != [];
      FirstUnique(input, OpenTag(tag), from, c.opener, ds[0].opener);
      CaptureUnique(input, tag, c, ds[0]);
      SpecTail(input, tag, from, cs);
      SpecDeterminesCaptures(input, tag, c.resume, cs[1..]);
      assert cs == [c] + cs[1..] && ds == [ds[0]] + ds[1..];
    }
  }

  lemma FirstUnique(s: string, pat: string, from: nat, p: nat, q: nat)
    requires from <= p && OccursAt(s, pat, p) && AbsentIn(s, pat, from, p)
    requires from <= q && OccursAt(s, pat, q) && AbsentIn(s, pat, from, q)
    ensures p == q
  {
  }

  /** A match is determined by where its opening tag is. */
  lemma CaptureUnique(input: string, tag: string, c: Capture, d: Capture)
    requires CaptureSpec(input, tag, c) && CaptureSpec(input, tag, d)
    requires c.opener == d.opener
    ensures c == d
  {
  }

  /** Dropping the first match of a scan leaves the scan from where it ended. */
  lemma SpecTail(input: string, tag: string, from: nat, cs: seq<Capture>)
    requires ScanSpec(input, tag, from, cs) && cs != []
    ensures ScanSpec(input, tag, cs[0].resume, cs[1..])
  {
    var rest := cs[1..];
    forall k | 0 <= k < |rest|
      ensures CaptureSpec(input, tag, rest[k])
    {
      assert rest[k] == cs[k + 1];
    }
    forall k | 0 <= k < |rest| - 1
      ensures Consecutive(input, tag, rest[k], rest[k + 1])
    {
      assert rest[k] == cs[k + 1] && rest[k + 1] == cs[k + 2];
    }
    if rest != [] {
      assert Consecutive(input, tag, cs[0], cs[1]);
      assert rest[|rest| - 1] == cs[|cs| - 1];
    }
  }

  // ---------------------------------------------------------------------------
  // Consequences for callers

  /** Input without an opening tag yields no match and so no result. */
  lemma NoOpenerNoResult(input: string, tag: string)
    ensures Captures(input, tag, 0) == [] <==> AbsentFrom(input, OpenTag(tag), 0)
    ensures AbsentFrom(input, OpenTag(tag), 0) ==> ExtractTagContents(input, tag) == []
  {
    CapturesStep(input, tag, 0);
  }

  /** Matches are in document order: each one starts after the previous one ended. */
  lemma {:induction false} SpecOrdered(input: string, tag: string, from: nat, cs: seq<Capture>, k: nat, l: nat)
    requires ScanSpec(input, tag, from, cs)
    requires k < l < |cs|
    ensures cs[k].resume <= cs[l].opener
    decreases l - k
  {
    assert Consecutive(input, tag, cs[l - 1], cs[l]);
    if k < l - 1 {
      SpecOrdered(input, tag, from, cs, k, l - 1);
      assert CaptureSpec(input, tag, cs[l - 1]);
    }
  }

  /** An opening tag inside a match (after its own opening tag and before the
      scan resumes) never begins a match of its own: it is swallowed into the
      enclosing capture. */
  lemma NestedOpenerSwallowed(input: string, tag: string, from: nat, cs: seq<Capture>, k: nat, l: nat)
    requires ScanSpec(input, tag, from, cs)
    requires k < |cs| && l < |cs|
    ensures !(cs[k].opener < cs[l].opener < cs[k].resume)
  {
    assert CaptureSpec(input, tag, cs[k]) && CaptureSpec(input, tag, cs[l]);
    if k < l {
      SpecOrdered(input, tag, from, cs, k, l);
    } else if l < k {
      SpecOrdered(input, tag, from, cs, l, k);
    }
  }

  /** Every opening tag at or after `from` lies within the span of some match:
      it either begins that match or is swallowed by it. */
  lemma OpenTagCovered(input: string, tag: string, from: nat, cs: seq<Capture>, i: nat)
    requires ScanSpec(input, tag, from, cs)
    requires from <= i && OccursAt(input, OpenTag(tag), i)
    ensures exists k :: 0 <= k < |cs| && cs[k].opener <= i < cs[k].resume
  {
    assert cs != [];
    assert cs[0].opener <= i;
    CoveredFrom(input, tag, from, cs, i, 0);
  }

  lemma {:induction false} CoveredFrom(input: string, tag: string, from: nat, cs: seq<Capture>, i: nat, k: nat)
    requires ScanSpec(input, tag, from, cs)
    requires OccursAt(input, OpenTag(tag), i)
    requires k < |cs| && cs[k].opener <= i
    ensures exists k' :: 0 <= k' < |cs| && cs[k'].opener <= i < cs[k'].resume
    decreases |cs| - k
  {
    if cs[k].resume <= i {
      if k < |cs| - 1 {
        assert Consecutive(input, tag, cs[k], cs[k + 1]);
        CoveredFrom(input, tag, from, cs, i, k + 1);
      }
    }
  }

  /** Number of occurrences of `pat` in `s` starting at or after `from`. */
  function CountFrom(s: string, pat: string, from: nat): nat
    decreases |s| + 1 - from
  {
    if from > |s| then 0
    else (if OccursAt(s, pat, from) then 1 else 0) + CountFrom(s, pat, from + 1)
  }

  lemma {:induction false} CountSkip(s: string, pat: string, a: nat, b: nat)
    requires a <= b && AbsentIn(s, pat, a, b)
    ensures CountFrom(s, pat, a) == CountFrom(s, pat, b)
    decreases b - a
  {
    if a < b {
      CountSkip(s, pat, a + 1, b);
    }
  }

  lemma {:induction false} CountAntitone(s: string, pat: string, a: nat, b: nat)
    requires a <= b
    ensures CountFrom(s, pat, b) <= CountFrom(s, pat, a)
    decreases b - a
  {
    if a < b {
      CountAntitone(s, pat, a + 1, b);
    }
  }

  /** There are at most as many matches as opening tags. */
  lemma {:induction false} CapturesBound(input: string, tag: string, from: nat)
    requires from <= |input|
    ensures |Captures(input, tag, from)| <= CountFrom(input, OpenTag(tag), from)
    decreases |input| - from
  {
    var cs := Captures(input, tag, from);
    CapturesStep(input, tag, from);
    if cs != [] {
      var c := cs[0];
      CapturesBound(input, tag, c.resume);
      assert |cs| == 1 + |Captures(input, tag, c.resume)|;
      CountSkip(input, OpenTag(tag), from, c.opener);
      CountAntitone(input, OpenTag(tag), c.opener + 1, c.resume);
      assert CountFrom(input, OpenTag(tag), c.opener) == 1 + CountFrom(input, OpenTag(tag), c.opener + 1);
    }
  }

  /** The result never has more entries than the input has opening tags. */
  lemma ResultBound(input: string, tag: string)
    ensures |ExtractTagContents(input, tag)| <= CountFrom(input, OpenTag(tag), 0)
  {
    CapturesBound(input, tag, 0);
  }

  /** Positions, from the `i`-th on, of the matches whose capture is not
      empty, in increasing order. */
  function KeptIndices(input: string, cs: seq<Capture>, i: nat): (idx: seq<nat>)
    requires InBounds(input, cs) && i <= |cs|
    ensures forall j :: 0 <= j < |idx| ==> i <= idx[j] < |cs| && Content(input, cs[idx[j]]) != ""
    ensures forall j, j' :: 0 <= j < j' < |idx| ==> idx[j] < idx[j']
    ensures forall k :: i <= k < |cs| && Content(input, cs[k]) != "" ==> k in idx
    decreases |cs| - i
  {
    if i == |cs| then []
    else
      var tail := KeptIndices(input, cs, i + 1);
      if Content(input, cs[i]) != "" then [i] + tail else tail
  }

  /** The result lists, in document order, exactly the captures that are not
      empty, each with its leading whitespace removed. */
  lemma {:induction false} CollectSelects(input: string, cs: seq<Capture>, i: nat)
    requires InBounds(input, cs) && i <= |cs|
    ensures Selected(input, cs, KeptIndices(input, cs, i), Collect(input, cs, i))
    decreases |cs| - i
  {
    if i < |cs| {
      CollectSelects(input, cs, i + 1);
      var content := Content(input, cs[i]);
      var idx, r := KeptIndices(input, cs, i + 1), Collect(input, cs, i + 1);
      if content != "" {
        assert KeptIndices(input, cs, i) == [i] + idx;
        assert Collect(input, cs, i) == [TrimStart(content)] + r;
        assert SelectedAt(input, cs, i, TrimStart(content));
        SelectionCons(input, cs, i, idx, r, TrimStart(content));
      } else {
        assert KeptIndices(input, cs, i) == idx;
        assert Collect(input, cs, i) == r;
      }
    }
  }

  /** The whole function, stated without the scan: for the one sequence of
      matches that meets the description, the result lists the non-empty
      captures, in order, with leading whitespace removed. */
  lemma ExtractCharacterized(input: string, tag: string, cs: seq<Capture>)
    requires ScanSpec(input, tag, 0, cs)
    ensures InBounds(input, cs)
    ensures Selected(input, cs, KeptIndices(input, cs, 0), ExtractTagContents(input, tag))
  {
    SpecDeterminesCaptures(input, tag, 0, cs);
    CollectSelects(input, cs, 0);
  }

  /** A capture of whitespace only is not empty, so it passes the emptiness
      test, and trimming then turns it into the empty string: it reaches the
      result as "". */
  lemma WhitespaceCaptureKeptEmpty(input: string, cs: seq<Capture>, k: nat)
    requires InBounds(input, cs) && k < |cs|
    requires Content(input, cs[k]) != "" && AllWhitespace(Content(input, cs[k]))
    ensures "" in Collect(input, cs, 0)
  {
    var idx := KeptIndices(input, cs, 0);
    CollectSelects(input, cs, 0);
    var j :| 0 <= j < |idx| && idx[j] == k;
    TrimStartAllWhitespace(Content(input, cs[k]));
    assert Collect(input, cs, 0)[j] == "";
  }

  /** `r` lists the trimmed captures of the matches at positions `idx`. */
  predicate Selected(input: string, cs: seq<Capture>, idx: seq<nat>, r: seq<string>) {
    |r| == |idx| && forall j :: 0 <= j < |idx| ==> SelectedAt(input, cs, idx[j], r[j])
  }

  /** `s` is the trimmed capture of match `k`. */
  predicate SelectedAt(input: string, cs: seq<Capture>, k: nat, s: string) {
    k < |cs| && cs[k].start <= cs[k].stop <= |input| && s == TrimStart(input[cs[k].start..cs[k].stop])
  }

  lemma SelectionCons(input: string, cs: seq<Capture>, i: nat, idx: seq<nat>, r: seq<string>, s: string)
    requires SelectedAt(input, cs, i, s)
    requires Selected(input, cs, idx, r)
    ensures Selected(input, cs, [i] + idx, [s] + r)
  {
    var idx', r' := [i] + idx, [s] + r;
    forall j | 0 <= j < |idx'|
      ensures SelectedAt(input, cs, idx'[j], r'[j])
    {
      if j > 0 {
        assert r'[j] == r[j - 1] && idx'[j] == idx[j - 1];
      }
    }
  }
}
