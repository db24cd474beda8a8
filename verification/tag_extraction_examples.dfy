/** Worked inputs for `extractTagContents`, one per edge case of the scan:
    the unterminated last tag, an empty pair, a trailing opening tag, a nested
    opening tag, and a capture of whitespace only. Each input is a parameter
    pinned by `requires s == ...` rather than a literal written into the
    `ensures`: the verifier then reasons about one named string instead of
    expanding the literal again at every step, which keeps these proofs cheap. */
module TagExtractionExamples {
  import opened Wrappers
  import opened Text
  import opened TagExtraction

  lemma TagsOfT()
    ensures OpenTag("t") == "<t>" && CloseTag("t") == "</t>"
  {
  }

  lemma KeptWhole(s: string)
    requires !StartsWithWhitespace(s)
    ensures TrimStart(s) == s
  {
  }

  // "<t>A</t>B<t>C": the second capture runs to the end of the input.

  lemma UnterminatedCaptures(s: string)
    requires s == "<t>A</t>B<t>C"
    ensures Captures(s, "t", 0) == [Capture(0, 3, 4, 8), Capture(9, 12, 13, 13)]
  {
    TagsOfT();
    assert s[0..3] == "<t>";
    assert IndexOf(s, "<t>", 0) == Some(0);
    assert s[3..7] != "</t>" by { assert s[3..7][0] == 'A'; }
    assert s[4..8] == "</t>";
    assert IndexOf(s, "</t>", 3) == Some(4);
    assert s[8..11] != "<t>" by { assert s[8..11][0] == 'B'; }
    assert s[9..12] == "<t>";
    assert IndexOf(s, "<t>", 8) == Some(9);
    assert IndexOf(s, "</t>", 12) == None;
    assert IndexOf(s, "<t>", 13) == None;
    assert Captures(s, "t", 13) == [];
    assert Captures(s, "t", 8) == [Capture(9, 12, 13, 13)];
  }

  lemma UnterminatedCollect(s: string, cs: seq<Capture>)
    requires s == "<t>A</t>B<t>C"
    requires cs == [Capture(0, 3, 4, 8), Capture(9, 12, 13, 13)]
    ensures InBounds(s, cs) && Collect(s, cs, 0) == ["A", "C"]
  {
    assert Content(s, cs[0]) == "A";
    assert Content(s, cs[1]) == "C";
    KeptWhole("A");
    KeptWhole("C");
    assert Collect(s, cs, 2) == [];
    assert Collect(s, cs, 1) == ["C"];
  }

  lemma UnterminatedLastTag(s: string)
    requires s == "<t>A</t>B<t>C"
    ensures ExtractTagContents(s, "t") == ["A", "C"]
  {
    UnterminatedCaptures(s);
    UnterminatedCollect(s, [Capture(0, 3, 4, 8), Capture(9, 12, 13, 13)]);
  }

  // "<t></t>": an empty capture adds nothing.

  lemma EmptyPair(s: string)
    requires s == "<t></t>"
    ensures ExtractTagContents(s, "t") == []
  {
    TagsOfT();
    assert s[0..3] == "<t>";
    assert IndexOf(s, "<t>", 0) == Some(0);
    assert s[3..7] == "</t>";
    assert IndexOf(s, "</t>", 3) == Some(3);
    assert IndexOf(s, "<t>", 7) == None;
    assert Captures(s, "t", 7) == [];
    var cs := [Capture(0, 3, 3, 7)];
    assert Captures(s, "t", 0) == cs;
    assert Content(s, cs[0]) == "";
  }

  // "x<t>": an opening tag at the very end captures the empty string.

  lemma TrailingOpenTag(s: string)
    requires s == "x<t>"
    ensures ExtractTagContents(s, "t") == []
  {
    TagsOfT();
    assert s[0..3] != "<t>" by { assert s[0..3][0] == 'x'; }
    assert s[1..4] == "<t>";
    assert IndexOf(s, "<t>", 0) == Some(1);
    assert IndexOf(s, "</t>", 4) == None;
    assert IndexOf(s, "<t>", 4) == None;
    assert Captures(s, "t", 4) == [];
    var cs := [Capture(1, 4, 4, 4)];
    assert Captures(s, "t", 0) == cs;
    assert Content(s, cs[0]) == "";
  }

  // "<t>a<t>b</t>c</t>": the inner opening tag is part of the first capture,
  // and scanning resumes after the first closing tag.

  lemma NestedCaptures(s: string)
    requires s == "<t>a<t>b</t>c</t>"
    ensures Captures(s, "t", 0) == [Capture(0, 3, 8, 12)]
  {
    TagsOfT();
    assert s[0..3] == "<t>";
    assert IndexOf(s, "<t>", 0) == Some(0);
    NestedClose(s);
    NestedTail(s);
    assert Captures(s, "t", 12) == [];
  }

  lemma NestedClose(s: string)
    requires s == "<t>a<t>b</t>c</t>"
    ensures IndexOf(s, "</t>", 3) == Some(8)
  {
    assert s[8..12] == "</t>";
    assert IndexOf(s, "</t>", 8) == Some(8);
    assert s[7..11] != "</t>" by { assert s[7..11][0] == 'b'; }
    assert IndexOf(s, "</t>", 7) == Some(8);
    assert s[6..10] != "</t>" by { assert s[6..10][0] == '>'; }
    assert IndexOf(s, "</t>", 6) == Some(8);
    assert s[5..9] != "</t>" by { assert s[5..9][0] == 't'; }
    assert IndexOf(s, "</t>", 5) == Some(8);
    assert s[4..8] != "</t>" by { assert s[4..8][1] == 't'; }
    assert IndexOf(s, "</t>", 4) == Some(8);
    assert s[3..7] != "</t>" by { assert s[3..7][0] == 'a'; }
  }

  lemma NestedTail(s: string)
    requires s == "<t>a<t>b</t>c</t>"
    ensures IndexOf(s, "<t>", 12) == None
  {
    assert IndexOf(s, "<t>", 15) == None;
    assert s[14..17] != "<t>" by { assert s[14..17][0] == '/'; }
    assert IndexOf(s, "<t>", 14) == None;
    assert s[13..16] != "<t>" by { assert s[13..16][1] == '/'; }
    assert IndexOf(s, "<t>", 13) == None;
    assert s[12..15] != "<t>" by { assert s[12..15][0] == 'c'; }
  }

  lemma NestedOpenTag(s: string)
    requires s == "<t>a<t>b</t>c</t>"
    ensures ExtractTagContents(s, "t") == ["a<t>b"]
  {
    NestedCaptures(s);
    var cs := [Capture(0, 3, 8, 12)];
    assert Content(s, cs[0]) == "a<t>b";
    KeptWhole("a<t>b");
    assert Collect(s, cs, 1) == [];
  }

  // "<t> \n</t>": the capture is not empty, so it is kept, and trimming
  // leaves the empty string.

  lemma WhitespaceOnly(s: string)
    requires s == "<t> \n</t>"
    ensures ExtractTagContents(s, "t") == [""]
  {
    TagsOfT();
    assert s[0..3] == "<t>";
    assert IndexOf(s, "<t>", 0) == Some(0);
    assert s[5..9] == "</t>";
    assert IndexOf(s, "</t>", 5) == Some(5);
    assert s[4..8] != "</t>" by { assert s[4..8][0] == '\n'; }
    assert IndexOf(s, "</t>", 4) == Some(5);
    assert s[3..7] != "</t>" by { assert s[3..7][0] == ' '; }
    assert IndexOf(s, "</t>", 3) == Some(5);
    assert IndexOf(s, "<t>", 9) == None;
    assert Captures(s, "t", 9) == [];
    var cs := [Capture(0, 3, 5, 9)];
    assert Captures(s, "t", 0) == cs;
    assert Content(s, cs[0]) == " \n";
    assert TrimStart(" \n") == "" by {
      assert IsWhitespace(' ') && IsWhitespace('\n');
      assert " \n"[1..] == "\n";
      assert "\n"[1..] == "";
    }
    assert Collect(s, cs, 1) == [];
  }
}
