/**
 * The text-record parser of the card generator (`create_list_of_cards` in
 * main.py): raw text plus a mode tag become a list of cards, one field
 * mapping per non-blank line, in input order.
 */
module Cards {
  import opened Wrappers
  import opened Text

  /** The field names the three grammars use; `Name` is the dictionary key in the source. */
  datatype Key = BaseT | BaseS | FullT | S1T | S1S | S2T | S2S | Word | Front | Back | Rule {
    function Name(): string {
      match this
      case BaseT => "baseT"
      case BaseS => "baseS"
      case FullT => "fullT"
      case S1T => "s1T"
      case S1S => "s1S"
      case S2T => "s2T"
      case S2S => "s2S"
      case Word => "word"
      case Front => "Front"
      case Back => "Back"
      case Rule => "Rule"
    }
  }

  /** One parsed card: field name to field value (a Python `dict[str, str]`). */
  type Record = map<Key, string>

  /** The three record grammars, one per card mode. */
  datatype Mode = Lexicon | Pronunciation | Grammar

  /** The positional field names of a lexicon line. */
  const Header: seq<Key> := [BaseT, BaseS, FullT, S1T, S1S, S2T, S2S]

  /** The separator of grammar lines: a pipe between two spaces. */
  const GrammarSeparator: string := " | "

  /** The field names every record of a grammar carries. */
  function Keys(m: Mode): set<Key> {
    match m
    case Lexicon => {BaseT, BaseS, FullT, S1T, S1S, S2T, S2S}
    case Pronunciation => {Word}
    case Grammar => {Front, Back, Rule}
  }

  /** Field `i` of a split line: the stripped part, or empty when the line has fewer parts. */
  function Field(parts: seq<string>, i: nat): string {
    if i < |parts| then Strip(parts[i]) else ""
  }

  /** The position of a lexicon field name in `Header`. */
  function Position(k: Key): nat {
    match k
    case BaseT => 0
    case BaseS => 1
    case FullT => 2
    case S1T => 3
    case S1S => 4
    case S2T => 5
    case S2S => 6
    case _ => |Header|
  }

  /** The lexicon record of one line: each header name bound to the `|`-part at its position. */
  function LexiconRecord(line: string): Record
  {
    var parts := Split(line, "|");
    map k | k in Keys(Lexicon) :: Field(parts, Position(k))
  }

  /** The grammar record of the parts of a stripped line; a third part, if any, is the rule. */
  function GrammarRecord(parts: seq<string>): Record
    requires |parts| >= 2
  {
    map[
      Front := Strip(parts[0]),
      Back := Strip(parts[1]),
      Rule := if |parts| > 2 then Strip(parts[2]) else ""]
  }

  /** A lexicon record carries exactly the seven header names. */
  lemma LexiconRecordKeys(line: string)
    ensures LexiconRecord(line).Keys == Keys(Lexicon)
  {
  }

  /** `Header` lists the lexicon field names, each at its own position. */
  lemma HeaderAt(i: nat)
    requires i < |Header|
    ensures Header[i] in Keys(Lexicon) && Position(Header[i]) == i
  {
    if i == 0 { assert Header[i] == BaseT; }
    else if i == 1 { assert Header[i] == BaseS; }
    else if i == 2 { assert Header[i] == FullT; }
    else if i == 3 { assert Header[i] == S1T; }
    else if i == 4 { assert Header[i] == S1S; }
    else if i == 5 { assert Header[i] == S2T; }
    else { assert Header[i] == S2S; }
  }

  /** A grammar record carries exactly `Front`, `Back` and `Rule`. */
  lemma GrammarRecordKeys(parts: seq<string>)
    requires |parts| >= 2
    ensures GrammarRecord(parts).Keys == Keys(Grammar)
  {
    assert GrammarRecord(parts).Keys == {Front, Back, Rule};
  }

  /** The grammar record binds Front and Back to the first two stripped parts and Rule to the third or "". */
  lemma GrammarRecordLookup(parts: seq<string>)
    requires |parts| >= 2
    ensures var r := GrammarRecord(parts);
      && r.Keys == Keys(Grammar)
      && r[Front] == Strip(parts[0])
      && r[Back] == Strip(parts[1])
      && r[Rule] == (if |parts| > 2 then Strip(parts[2]) else "")
  {
    GrammarRecordKeys(parts);
  }

  /** The i-th header name is bound to the stripped i-th `|`-part, or to "" past the last part. */
  lemma LexiconRecordPositional(line: string)
    ensures forall i :: 0 <= i < |Header| ==> LexiconRecord(line)[Header[i]] == Field(Split(line, "|"), i)
  {
    forall i | 0 <= i < |Header| ensures LexiconRecord(line)[Header[i]] == Field(Split(line, "|"), i) {
      HeaderAt(i);
    }
  }

  /** What one input line contributes under grammar `m`: a record, or nothing. */
  function RecordOf(m: Mode, line: string): (r: Option<Record>)
    ensures IsBlank(line) ==> r == None
    ensures m != Grammar ==> (r.Some? <==> !IsBlank(line))
    ensures m == Grammar ==> (r.Some? <==> |Split(Strip(line), GrammarSeparator)| >= 2)
  {
    if IsBlank(line) then None
    else
      match m
      case Lexicon => Some(LexiconRecord(line))
      case Pronunciation => Some(map[Word := Strip(line)])
      case Grammar =>
        var parts := Split(Strip(line), GrammarSeparator);
        if |parts| >= 2 then Some(GrammarRecord(parts)) else None
  }

  /** The records of a list of lines, in line order. */
  function ParseLines(m: Mode, lines: seq<string>): seq<Record>
    decreases |lines|
  {
    if lines == [] then []
    else
      var init := ParseLines(m, lines[..|lines| - 1]);
      match RecordOf(m, lines[|lines| - 1])
      case Some(r) => init + [r]
      case None => init
  }

  /** The lines that produce a record under grammar `m`, in order. */
  function Emitting(m: Mode, lines: seq<string>): (e: seq<string>)
    ensures |e| <= |lines|
    decreases |lines|
  {
    if lines == [] then []
    else
      var init := Emitting(m, lines[..|lines| - 1]);
      if RecordOf(m, lines[|lines| - 1]).Some? then init + [lines[|lines| - 1]] else init
  }

  /** The lines that are not blank, in order. */
  function NonBlank(lines: seq<string>): (e: seq<string>)
    ensures forall k :: 0 <= k < |e| ==> !IsBlank(e[k])
    decreases |lines|
  {
    if lines == [] then []
    else
      var init := NonBlank(lines[..|lines| - 1]);
      if IsBlank(lines[|lines| - 1]) then init else init + [lines[|lines| - 1]]
  }

  /**
   * `create_list_of_cards(src_text, mode)`: the stripped text is cut into
   * lines and each line is parsed under the grammar the tag names; an
   * unknown tag yields no cards.
   */
  function Parse(src: string, tag: string): (cards: seq<Record>)
    ensures tag != "lexicon" && tag != "pronunciation" && tag != "grammar" ==> cards == []
    ensures |cards| <= |NonBlank(SplitLines(Strip(src)))|
  {
    var lines := SplitLines(Strip(src));
    ParseLinesAtMostNonBlank(lines);
    if tag == "lexicon" then ParseLines(Lexicon, lines)
    else if tag == "pronunciation" then ParseLines(Pronunciation, lines)
    else if tag == "grammar" then ParseLines(Grammar, lines)
    else []
  }

  /**
   * The parser as the source runs it: the stripped text is cut into lines,
   * and the mode tag selects one of three loops that append each record
   * they build; an unknown tag leaves the list empty.
   */
  method CreateListOfCards(src: string, mode: string) returns (cards: seq<Record>)
    ensures cards == Parse(src, mode)
  {
    cards := [];
    var lines := SplitLines(Strip(src));
    if mode == "lexicon" {
      cards := LexiconLoop(lines);
    } else if mode == "pronunciation" {
      cards := PronunciationLoop(lines);
    } else if mode == "grammar" {
      cards := GrammarLoop(lines);
    }
  }

  /** The lexicon loop: every non-blank line is split on `|` into a seven-field record. */
  method LexiconLoop(lines: seq<string>) returns (cards: seq<Record>)
    ensures cards == ParseLines(Lexicon, lines)
  {
    cards := [];
    for i := 0 to |lines|
      invariant cards == ParseLines(Lexicon, lines[..i])
    {
      assert lines[..i + 1][..i] == lines[..i];
      var line := lines[i];
      if Strip(line) != "" {
        cards := cards + [LexiconRecord(line)];
      }
    }
    assert lines[..|lines|] == lines;
  }

  /** The pronunciation loop: every non-blank line becomes a one-word record. */
  method PronunciationLoop(lines: seq<string>) returns (cards: seq<Record>)
    ensures cards == ParseLines(Pronunciation, lines)
  {
    cards := [];
    for i := 0 to |lines|
      invariant cards == ParseLines(Pronunciation, lines[..i])
    {
      assert lines[..i + 1][..i] == lines[..i];
      var line := lines[i];
      if Strip(line) != "" {
        cards := cards + [map[Word := Strip(line)]];
      }
    }
    assert lines[..|lines|] == lines;
  }

  /** The grammar loop: a non-blank line with at least two ` | `-parts becomes a record. */
  method GrammarLoop(lines: seq<string>) returns (cards: seq<Record>)
    ensures cards == ParseLines(Grammar, lines)
  {
    cards := [];
    for i := 0 to |lines|
      invariant cards == ParseLines(Grammar, lines[..i])
    {
      assert lines[..i + 1][..i] == lines[..i];
      var line := lines[i];
      if Strip(line) != "" {
        var parts := Split(Strip(line), GrammarSeparator);
        if |parts| >= 2 {
          cards := cards + [GrammarRecord(parts)];
        }
      }
    }
    assert lines[..|lines|] == lines;
  }

  /** Parsing is compositional over the lines: records come out in input-line order. */
  lemma {:induction false} ParseLinesAppend(m: Mode, a: seq<string>, b: seq<string>)
    ensures ParseLines(m, a + b) == ParseLines(m, a) + ParseLines(m, b)
    decreases |b|
  {
    if b == [] {
      assert a + b == a;
    } else {
      var b' := b[..|b| - 1];
      assert (a + b)[..|a + b| - 1] == a + b';
      assert (a + b)[|a + b| - 1] == b[|b| - 1];
      ParseLinesAppend(m, a, b');
    }
  }

  /** The k-th record is the record of the k-th line that produces one. */
  lemma {:induction false} ParseLinesPointwise(m: Mode, lines: seq<string>)
    ensures |ParseLines(m, lines)| == |Emitting(m, lines)|
    ensures forall k :: 0 <= k < |Emitting(m, lines)| ==>
      RecordOf(m, Emitting(m, lines)[k]) == Some(ParseLines(m, lines)[k])
    decreases |lines|
  {
    if lines != [] {
      var init, last := lines[..|lines| - 1], lines[|lines| - 1];
      ParseLinesPointwise(m, init);
      match RecordOf(m, last)
      case Some(r) =>
        assert ParseLines(m, lines) == ParseLines(m, init) + [r];
        assert Emitting(m, lines) == Emitting(m, init) + [last];
      case None =>
        assert ParseLines(m, lines) == ParseLines(m, init);
        assert Emitting(m, lines) == Emitting(m, init);
    }
  }

  /** Outside grammar mode, exactly the non-blank lines produce records. */
  lemma {:induction false} EmittingNonBlank(m: Mode, lines: seq<string>)
    requires m != Grammar
    ensures Emitting(m, lines) == NonBlank(lines)
    decreases |lines|
  {
    if lines != [] {
      EmittingNonBlank(m, lines[..|lines| - 1]);
    }
  }

  /** In grammar mode only non-blank lines produce records. */
  lemma {:induction false} GrammarEmittingFewer(lines: seq<string>)
    ensures |Emitting(Grammar, lines)| <= |NonBlank(lines)|
    decreases |lines|
  {
    if lines != [] {
      GrammarEmittingFewer(lines[..|lines| - 1]);
    }
  }

  /** Every note type gets at most one record per non-blank line. */
  lemma ParseLinesAtMostNonBlank(lines: seq<string>)
    ensures forall m: Mode :: |ParseLines(m, lines)| <= |NonBlank(lines)|
  {
    forall m: Mode ensures |ParseLines(m, lines)| <= |NonBlank(lines)| {
      ParseLinesPointwise(m, lines);
      if m == Grammar {
        GrammarEmittingFewer(lines);
      } else {
        EmittingNonBlank(m, lines);
      }
    }
  }

  /**
   * Lexicon parse: one record per non-blank line, in order; the record of
   * line `l` binds each header name to the stripped `|`-part at its
   * position, or to "" when the line is short.
   */
  lemma ParseLexicon(src: string)
    ensures var lines := NonBlank(SplitLines(Strip(src)));
      |Parse(src, "lexicon")| == |lines| &&
      forall k :: 0 <= k < |lines| ==>
        Parse(src, "lexicon")[k].Keys == Keys(Lexicon) &&
        forall i :: 0 <= i < |Header| ==>
          Parse(src, "lexicon")[k][Header[i]] == Field(Split(lines[k], "|"), i)
  {
    var lines := SplitLines(Strip(src));
    ParseLinesPointwise(Lexicon, lines);
    EmittingNonBlank(Lexicon, lines);
    var e := NonBlank(lines);
    var cards := ParseLines(Lexicon, lines);
    forall k | 0 <= k < |e|
      ensures cards[k].Keys == Keys(Lexicon)
      ensures forall i :: 0 <= i < |Header| ==> cards[k][Header[i]] == Field(Split(e[k], "|"), i)
    {
      LexiconRecordFields(e[k], cards[k]);
    }
  }

  /** Pronunciation parse: exactly `{"word": line.strip()}` for each non-blank line, in order. */
  lemma ParsePronunciation(src: string)
    ensures var lines := NonBlank(SplitLines(Strip(src)));
      |Parse(src, "pronunciation")| == |lines| &&
      forall k :: 0 <= k < |lines| ==> Parse(src, "pronunciation")[k] == map[Word := Strip(lines[k])]
  {
    var lines := SplitLines(Strip(src));
    ParseLinesPointwise(Pronunciation, lines);
    EmittingNonBlank(Pronunciation, lines);
  }

  /**
   * Grammar parse: at most one record per non-blank line; the k-th record
   * comes from the k-th line whose stripped text splits on " | " into at
   * least two parts, with Front and Back the stripped first two parts and
   * Rule the stripped third part or "".
   */
  lemma ParseGrammar(src: string)
    ensures var lines := Emitting(Grammar, SplitLines(Strip(src)));
      |Parse(src, "grammar")| == |lines| <= |NonBlank(SplitLines(Strip(src)))| &&
      forall k :: 0 <= k < |lines| ==>
        var parts := Split(Strip(lines[k]), GrammarSeparator);
        && |parts| >= 2
        && Parse(src, "grammar")[k].Keys == Keys(Grammar)
        && Parse(src, "grammar")[k][Front] == Strip(parts[0])
        && Parse(src, "grammar")[k][Back] == Strip(parts[1])
        && Parse(src, "grammar")[k][Rule] == (if |parts| > 2 then Strip(parts[2]) else "")
  {
    var lines := SplitLines(Strip(src));
    ParseLinesPointwise(Grammar, lines);
    GrammarEmittingFewer(lines);
    var e := Emitting(Grammar, lines);
    var cards := ParseLines(Grammar, lines);
    forall k | 0 <= k < |e|
      ensures var parts := Split(Strip(e[k]), GrammarSeparator);
        && |parts| >= 2
        && cards[k].Keys == Keys(Grammar)
        && cards[k][Front] == Strip(parts[0])
        && cards[k][Back] == Strip(parts[1])
        && cards[k][Rule] == (if |parts| > 2 then Strip(parts[2]) else "")
    {
      GrammarRecordFields(e[k], cards[k]);
    }
  }

  /** A lexicon line that yields a record yields the positional record of its `|`-parts. */
  lemma LexiconRecordFields(line: string, r: Record)
    requires RecordOf(Lexicon, line) == Some(r)
    ensures r.Keys == Keys(Lexicon)
    ensures forall i :: 0 <= i < |Header| ==> r[Header[i]] == Field(Split(line, "|"), i)
  {
    assert !IsBlank(line);
    assert r == LexiconRecord(line);
    LexiconRecordPositional(line);
    LexiconRecordKeys(line);
  }

  /** A grammar line that yields a record yields the record of its ` | `-parts. */
  lemma GrammarRecordFields(line: string, r: Record)
    requires RecordOf(Grammar, line) == Some(r)
    ensures var parts := Split(Strip(line), GrammarSeparator);
      && |parts| >= 2
      && r.Keys == Keys(Grammar)
      && r[Front] == Strip(parts[0])
      && r[Back] == Strip(parts[1])
      && r[Rule] == (if |parts| > 2 then Strip(parts[2]) else "")
  {
    GrammarRecordSome(line);
    GrammarRecordLookup(Split(Strip(line), GrammarSeparator));
  }

  /** A grammar line yields a record only as the record of its ` | `-parts. */
  lemma GrammarRecordSome(line: string)
    requires RecordOf(Grammar, line).Some?
    ensures |Split(Strip(line), GrammarSeparator)| >= 2
    ensures RecordOf(Grammar, line) == Some(GrammarRecord(Split(Strip(line), GrammarSeparator)))
  {
  }

  /** Parts of a lexicon line beyond the seventh do not change its record. */
  lemma LexiconIgnoresExtraParts(line: string, extra: string)
    requires |Split(line, "|")| >= |Header|
    ensures LexiconRecord(line + "|" + extra) == LexiconRecord(line)
  {
    SplitAppend(line, "|", extra);
    var parts := Split(line, "|");
    var parts' := Split(line + "|" + extra, "|");
    forall i | 0 <= i < |Header| ensures Field(parts', i) == Field(parts, i) {
      assert parts'[i] == parts[i];
    }
    SameFieldsSameRecord(line + "|" + extra, line);
  }

  /** Two lines whose first seven fields agree have the same lexicon record. */
  lemma SameFieldsSameRecord(a: string, b: string)
    requires forall i :: 0 <= i < |Header| ==> Field(Split(a, "|"), i) == Field(Split(b, "|"), i)
    ensures LexiconRecord(a) == LexiconRecord(b)
  {
    forall k | k in Keys(Lexicon) ensures Field(Split(a, "|"), Position(k)) == Field(Split(b, "|"), Position(k)) {
      assert Position(k) < |Header|;
    }
  }

  /**
   * Round trip: seven stripped values free of `|`, written as one lexicon
   * line, parse back to a record holding exactly those values.
   */
  lemma LexiconRoundTrip(values: seq<string>)
    requires |values| == |Header|
    requires forall i :: 0 <= i < |values| ==> '|' !in values[i] && Strip(values[i]) == values[i]
    ensures forall i :: 0 <= i < |Header| ==> LexiconRecord(Join(values, "|"))[Header[i]] == values[i]
  {
    SplitJoinInverse(values, "|");
    LexiconRecordOfParts(Join(values, "|"), values);
  }

  /** A line whose `|`-parts are seven stripped values binds each header name to its value. */
  lemma LexiconRecordOfParts(line: string, values: seq<string>)
    requires Split(line, "|") == values && |values| == |Header|
    requires forall i :: 0 <= i < |values| ==> Strip(values[i]) == values[i]
    ensures forall i :: 0 <= i < |Header| ==> LexiconRecord(line)[Header[i]] == values[i]
  {
    forall i | 0 <= i < |Header| ensures LexiconRecord(line)[Header[i]] == values[i] {
      HeaderAt(i);
    }
  }

  /** A non-blank text without surrounding whitespace is its own stripped form. */
  lemma StripUnchanged(s: string)
    requires s != [] && !IsSpace(s[0]) && !IsSpace(s[|s| - 1])
    ensures Strip(s) == s
  {
  }

  /**
   * Round trip: a grammar card written as `Front | Back | Rule` from
   * stripped texts free of `|` (with non-empty Front and Rule) parses back
   * to exactly that card.
   */
  lemma GrammarRoundTrip(front: string, back: string, rule: string)
    requires front != [] && rule != []
    requires '|' !in front && '|' !in back && '|' !in rule
    requires Strip(front) == front && Strip(back) == back && Strip(rule) == rule
    ensures RecordOf(Grammar, Join([front, back, rule], GrammarSeparator))
      == Some(map[Front := front, Back := back, Rule := rule])
  {
    var parts := [front, back, rule];
    assert forall k :: 0 <= k < |parts| ==> '|' !in parts[k];
    GrammarLineParts(parts);
    GrammarRecordOf(Join(parts, GrammarSeparator));
    GrammarRecordValues(parts, front, back, rule);
  }

  /**
   * Round trip without a rule: `Front | Back` from non-empty stripped texts
   * free of `|` parses back to that card with an empty Rule.
   */
  lemma GrammarRoundTripNoRule(front: string, back: string)
    requires front != [] && back != []
    requires '|' !in front && '|' !in back
    requires Strip(front) == front && Strip(back) == back
    ensures RecordOf(Grammar, Join([front, back], GrammarSeparator))
      == Some(map[Front := front, Back := back, Rule := ""])
  {
    var parts := [front, back];
    assert forall k :: 0 <= k < |parts| ==> '|' !in parts[k];
    GrammarLineParts(parts);
    GrammarRecordOf(Join(parts, GrammarSeparator));
    GrammarRecordValues(parts, front, back, "");
  }

  lemma GrammarRecordValues(parts: seq<string>, front: string, back: string, rule: string)
    requires |parts| >= 2 && Strip(parts[0]) == front && Strip(parts[1]) == back
    requires (if |parts| > 2 then Strip(parts[2]) else "") == rule
    ensures GrammarRecord(parts) == map[Front := front, Back := back, Rule := rule]
  {
  }

  lemma GrammarRecordOf(line: string)
    requires !IsBlank(line) && |Split(Strip(line), GrammarSeparator)| >= 2
    ensures RecordOf(Grammar, line) == Some(GrammarRecord(Split(Strip(line), GrammarSeparator)))
  {
  }

  /** A grammar line joined from `|`-free parts without outer whitespace splits back into them. */
  lemma GrammarLineParts(parts: seq<string>)
    requires |parts| >= 2
    requires forall k :: 0 <= k < |parts| ==> '|' !in parts[k]
    requires parts[0] != [] && !IsSpace(parts[0][0])
    requires parts[|parts| - 1] != [] && !IsSpace(parts[|parts| - 1][|parts[|parts| - 1]| - 1])
    ensures !IsBlank(Join(parts, GrammarSeparator))
    ensures Split(Strip(Join(parts, GrammarSeparator)), GrammarSeparator) == parts
  {
    var line := Join(parts, GrammarSeparator);
    SplitJoinInverse(parts, GrammarSeparator);
    var last := parts[|parts| - 1];
    JoinSuffix(parts, GrammarSeparator);
    assert line[0] == parts[0][0];
    assert line[|line| - 1] == last[|last| - 1];
    StripUnchanged(line);
  }
}
