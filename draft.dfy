/**
 * The older single-mode parser of `main_LCG.py`: lexicon lines only, no
 * blank-line filter, and a `return` inside the loop body.
 */
module Draft {
  import opened Wrappers
  import opened Text
  import opened Cards

  /**
   * `create_list_of_cards(src_text)` as written: the first line of the
   * stripped text is split into the seven-field record and returned at
   * once; a blank text has no lines, the loop never runs, and the function
   * falls off its end (None).
   */
  method CreateListOfCardsDraft(src: string) returns (result: Option<seq<Record>>)
    ensures result == None <==> IsBlank(src)
    ensures result.Some? ==> |result.value| == 1
    ensures result.Some? ==>
      var first := SplitLines(Strip(src))[0];
      result.value[0].Keys == Keys(Lexicon) &&
      forall i :: 0 <= i < |Header| ==> result.value[0][Header[i]] == Field(Split(first, "|"), i)
  {
    var cards: seq<Record> := [];
    var lines := SplitLines(Strip(src));
    for i := 0 to |lines|
      invariant i == 0 && cards == []
    {
      var record := LexiconRecord(lines[i]);
      cards := cards + [record];
      LexiconRecordPositional(lines[i]);
      LexiconRecordKeys(lines[i]);
      NonBlankHasLines(src);
      return Some(cards);
    }
    NonBlankHasLines(src);
    return None;
  }

  /** A text has lines after stripping exactly when it is not blank. */
  lemma NonBlankHasLines(src: string)
    ensures |SplitLines(Strip(src))| >= 1 <==> !IsBlank(src)
  {
    if !IsBlank(src) {
      FirstLine(Strip(src));
    }
  }

  /**
   * On a non-blank text the draft's one record is the first record of the
   * lexicon parser of `main.py`.
   */
  lemma DraftAgreesWithParser(src: string)
    requires !IsBlank(src)
    ensures |Parse(src, "lexicon")| >= 1
    ensures Parse(src, "lexicon")[0] == LexiconRecord(SplitLines(Strip(src))[0])
  {
    var lines := SplitLines(Strip(src));
    FirstLine(Strip(src));
    assert lines == [lines[0]] + lines[1..];
    ParseLinesAppend(Lexicon, [lines[0]], lines[1..]);
    assert [lines[0]][..0] == [];
  }

  /** One lexicon record per line, blank or not, in order. */
  function DraftRecords(lines: seq<string>): (cards: seq<Record>)
    ensures |cards| == |lines|
    decreases |lines|
  {
    if lines == [] then [] else DraftRecords(lines[..|lines| - 1]) + [LexiconRecord(lines[|lines| - 1])]
  }

  /**
   * The draft with its `return` moved after the loop, as its docstring
   * describes: one record per line of the stripped text, in order.
   */
  method CreateListOfCardsDraftFixed(src: string) returns (cards: seq<Record>)
    ensures cards == DraftRecords(SplitLines(Strip(src)))
  {
    cards := [];
    var lines := SplitLines(Strip(src));
    for i := 0 to |lines|
      invariant cards == DraftRecords(lines[..i])
    {
      DraftRecordsSnoc(lines, i);
      cards := cards + [LexiconRecord(lines[i])];
    }
    assert lines[..|lines|] == lines;
  }

  /** One more line adds its record at the end. */
  lemma DraftRecordsSnoc(lines: seq<string>, i: nat)
    requires i < |lines|
    ensures DraftRecords(lines[..i + 1]) == DraftRecords(lines[..i]) + [LexiconRecord(lines[i])]
  {
    assert lines[..i + 1][..i] == lines[..i];
  }

  /**
   * The corrected draft agrees with the lexicon parser of `main.py` on
   * every list of lines none of which is blank.
   */
  lemma {:induction false} DraftRecordsAgree(lines: seq<string>)
    requires forall k :: 0 <= k < |lines| ==> !IsBlank(lines[k])
    ensures DraftRecords(lines) == ParseLines(Lexicon, lines)
    decreases |lines|
  {
    if lines != [] {
      DraftRecordsAgree(lines[..|lines| - 1]);
    }
  }

  /**
   * The early return loses cards: the lexicon parser of `main.py` yields one
   * record per non-blank line, so on every text with two or more such lines
   * it yields at least two records where the draft yields one.
   */
  lemma DraftLosesLaterLines(src: string)
    requires |NonBlank(SplitLines(Strip(src)))| >= 2
    ensures |Parse(src, "lexicon")| == |NonBlank(SplitLines(Strip(src)))| >= 2
  {
    var lines := SplitLines(Strip(src));
    ParseLinesPointwise(Lexicon, lines);
    EmittingNonBlank(Lexicon, lines);
  }

  /**
   * The texts that show it: `x\ny` for any two visible characters `x` and
   * `y` (`"a\nb"`, say) has the two non-blank lines `x` and `y`.
   */
  lemma TwoLineExample(x: char, y: char)
    requires !IsSpace(x) && !IsSpace(y)
    ensures NonBlank(SplitLines(Strip([x, '\n', y]))) == [[x], [y]]
  {
    LinesExample(x, y);
    NonBlankExample(x, y);
  }

  /** `x\ny` is stripped already and has the lines `x` and `y`. */
  lemma LinesExample(x: char, y: char)
    requires !IsSpace(x) && !IsSpace(y)
    ensures SplitLines(Strip([x, '\n', y])) == [[x], [y]]
  {
    var src := [x, '\n', y];
    StripUnchanged(src);
    SplitExample(x, y);
  }

  /** Neither `x` nor `y` is blank. */
  lemma NonBlankExample(x: char, y: char)
    requires !IsSpace(x) && !IsSpace(y)
    ensures NonBlank([[x], [y]]) == [[x], [y]]
  {
    var lines := [[x], [y]];
    assert !IsSpace(lines[0][0]) && !IsSpace(lines[1][0]);
    assert lines[..1] == [[x]];
    assert lines[..1][..0] == [];
    assert NonBlank(lines[..1]) == [[x]];
  }

  /** `x\ny` splits at its newline into `x` and `y`. */
  lemma SplitExample(x: char, y: char)
    requires x != '\n' && y != '\n'
    ensures Split([x, '\n', y], "\n") == [[x], [y]]
  {
    var s := [x, '\n', y];
    SplitSingle(y);
    assert s[1..][..1] == "\n" && s[1..][1..] == [y];
    var rest := Split(s[1..], "\n");
    assert rest == [[], [y]];
    assert s[..1][0] != "\n"[0];
    assert [s[0]] + rest[0] == [x] && rest[1..] == [[y]];
  }

  /** A one-character text other than a newline is one line. */
  lemma SplitSingle(c: char)
    requires c != '\n'
    ensures Split([c], "\n") == [[c]]
  {
    var s := [c];
    assert s[..1] == s && s[1..] == [];
    assert s != "\n" by { assert "\n"[0] == '\n'; }
    assert |"\n"| == 1;
    var rest := Split(s[1..], "\n");
    assert rest == [s[1..]];
    assert rest[0] == [] && rest[1..] == [];
    assert [s[0]] + rest[0] == [c];
  }
}
