/**
 * The few Python string operations the card generator relies on: `str.strip`,
 * `str.split(sep)`, `str.splitlines`, `str.startswith` and the decimal
 * rendering of an `int` inside an f-string.
 *
 * Whitespace is restricted to ASCII space, tab and newline, and the only line
 * break is the newline character.
 */
module Text {

  /** A character `str.strip` removes. */
  predicate IsSpace(c: char) {
    c == ' ' || c == '\t' || c == '\n'
  }

  /** Every character is whitespace (Python: `not s.strip()`). */
  predicate IsBlank(s: string) {
    forall i :: 0 <= i < |s| ==> IsSpace(s[i])
  }

  predicate StartsWith(s: string, prefix: string) {
    |prefix| <= |s| && s[..|prefix|] == prefix
  }

  /** `s.lstrip()`: the longest suffix of `s` that does not start with whitespace. */
  function TrimStart(s: string): (r: string)
    ensures |r| <= |s| && r == s[|s| - |r|..]
    ensures IsBlank(s[..|s| - |r|])
    ensures r == [] || !IsSpace(r[0])
    decreases |s|
  {
    if |s| > 0 && IsSpace(s[0]) then
      var r := TrimStart(s[1..]);
      assert s[..|s| - |r|] == [s[0]] + s[1..][..|s[1..]| - |r|];
      r
    else
      s
  }

  /** `s.rstrip()`: the longest prefix of `s` that does not end with whitespace. */
  function TrimEnd(s: string): (r: string)
    ensures |r| <= |s| && r == s[..|r|]
    ensures IsBlank(s[|r|..])
    ensures r == [] || !IsSpace(r[|r| - 1])
    decreases |s|
  {
    if |s| > 0 && IsSpace(s[|s| - 1]) then
      var r := TrimEnd(s[..|s| - 1]);
      assert s[|r|..] == s[..|s| - 1][|r|..] + [s[|s| - 1]];
      r
    else
      s
  }

  /** `s.strip()`. */
  function Strip(s: string): (r: string)
    ensures r == [] <==> IsBlank(s)
    ensures r != [] ==> !IsSpace(r[0]) && !IsSpace(r[|r| - 1])
  {
    StripEmptyIffBlank(s);
    TrimEnd(TrimStart(s))
  }

  lemma StripEmptyIffBlank(s: string)
    ensures TrimEnd(TrimStart(s)) == [] <==> IsBlank(s)
    ensures TrimEnd(TrimStart(s)) != [] ==> TrimEnd(TrimStart(s))[0] == TrimStart(s)[0]
  {
    var t := TrimStart(s);
    var r := TrimEnd(t);
    if t != [] {
      assert s[|s| - |t|] == t[0];
      assert t[0..] == t;
      assert r[0] == t[0];
    } else {
      assert s[..|s|] == s;
    }
  }

  /** `"".join` with a separator: the inverse of `Split`. */
  function Join(parts: seq<string>, sep: string): (s: string)
    requires |parts| >= 1
    decreases |parts|
  {
    if |parts| == 1 then parts[0] else parts[0] + sep + Join(parts[1..], sep)
  }

  /** `sep` occurs in `p` starting at position `q`. */
  predicate OccursAt(p: string, sep: string, q: nat) {
    q + |sep| <= |p| && p[q..q + |sep|] == sep
  }

  /** `sep` does not occur anywhere in `p`. */
  predicate Free(p: string, sep: string) {
    forall q: nat | q <= |p| :: !OccursAt(p, sep, q)
  }

  /**
   * `s.split(sep)` for a non-empty separator: scanning left to right, every
   * occurrence of `sep` that does not overlap an earlier one ends a part.
   */
  function Split(s: string, sep: string): (parts: seq<string>)
    requires sep != []
    ensures |parts| >= 1
    decreases |s|
  {
    if |s| < |sep| then [s]
    else if s[..|sep|] == sep then [[]] + Split(s[|sep|..], sep)
    else
      var rest := Split(s[1..], sep);
      [[s[0]] + rest[0]] + rest[1..]
  }

  /** Splitting and joining with the same separator gives back the text. */
  lemma {:induction false} SplitJoin(s: string, sep: string)
    requires sep != []
    ensures Join(Split(s, sep), sep) == s
    decreases |s|
  {
    if |s| < |sep| {
    } else if s[..|sep|] == sep {
      SplitJoin(s[|sep|..], sep);
      JoinEmptyFirst(Split(s[|sep|..], sep), sep);
      assert s == sep + s[|sep|..];
    } else {
      SplitJoin(s[1..], sep);
      JoinConsFirst(s[0], Split(s[1..], sep), sep);
      assert s == [s[0]] + s[1..];
    }
  }

  /** An empty first part contributes only its separator. */
  lemma JoinEmptyFirst(r: seq<string>, sep: string)
    requires |r| >= 1
    ensures Join([[]] + r, sep) == sep + Join(r, sep)
  {
    assert ([[]] + r)[1..] == r;
  }

  /** Prefixing a character to the first part prefixes it to the joined text. */
  lemma JoinConsFirst(c: char, r: seq<string>, sep: string)
    requires |r| >= 1
    ensures Join([[c] + r[0]] + r[1..], sep) == [c] + Join(r, sep)
  {
    var parts := [[c] + r[0]] + r[1..];
    if |r| > 1 {
      assert parts[1..] == r[1..];
    }
  }

  /** The first part is a prefix of the text; it is empty only when the text is or starts with `sep`. */
  lemma {:induction false} SplitHead(s: string, sep: string)
    requires sep != []
    ensures StartsWith(s, Split(s, sep)[0])
    ensures Split(s, sep)[0] == [] ==> s == [] || StartsWith(s, sep)
    decreases |s|
  {
    if |s| < |sep| {
    } else if s[..|sep|] == sep {
    } else {
      SplitHead(s[1..], sep);
      var h := Split(s[1..], sep)[0];
      assert Split(s, sep)[0] == [s[0]] + h;
      PrefixCons(s, h);
    }
  }

  lemma PrefixCons(s: string, h: string)
    requires s != [] && StartsWith(s[1..], h)
    ensures StartsWith(s, [s[0]] + h)
  {
    assert s[..|h| + 1] == [s[0]] + s[1..][..|h|];
  }

  /** No part contains the separator. */
  lemma {:induction false} SplitPartsFree(s: string, sep: string)
    requires sep != []
    ensures forall k :: 0 <= k < |Split(s, sep)| ==> Free(Split(s, sep)[k], sep)
    decreases |s|
  {
    var parts := Split(s, sep);
    if |s| < |sep| {
      assert parts == [s];
    } else if s[..|sep|] == sep {
      SplitPartsFree(s[|sep|..], sep);
      assert parts[1..] == Split(s[|sep|..], sep);
      forall k | 0 <= k < |parts| ensures Free(parts[k], sep) {
        if k > 0 {
          assert parts[k] == Split(s[|sep|..], sep)[k - 1];
        }
      }
    } else {
      var rest := Split(s[1..], sep);
      SplitPartsFree(s[1..], sep);
      SplitHead(s[1..], sep);
      var p := [s[0]] + rest[0];
      assert StartsWith(s, p) by {
        assert s[..|p|] == [s[0]] + s[1..][..|rest[0]|];
      }
      assert Free(p, sep) by {
        forall q: nat | q <= |p| ensures !OccursAt(p, sep, q) {
          if q + |sep| > |p| {
          } else if q == 0 {
            assert p[..|sep|] == s[..|sep|];
          } else {
            assert p[q..q + |sep|] == rest[0][q - 1..q - 1 + |sep|];
            assert !OccursAt(rest[0], sep, q - 1);
          }
        }
      }
      forall k | 0 <= k < |parts| ensures Free(parts[k], sep) {
        if k > 0 {
          assert parts[k] == rest[k];
        }
      }
    }
  }

  /** A text that contains the separator splits into at least two parts. */
  lemma SplitAtLeastTwo(s: string, sep: string, q: nat)
    requires sep != [] && OccursAt(s, sep, q)
    ensures |Split(s, sep)| >= 2
  {
    SplitJoin(s, sep);
    SplitPartsFree(s, sep);
  }

  /**
   * With a one-character separator, splitting `a + sep + b` splits `a` and
   * `b` independently and concatenates the parts.
   */
  lemma {:induction false} SplitAppend(a: string, sep: string, b: string)
    requires |sep| == 1
    ensures Split(a + sep + b, sep) == Split(a, sep) + Split(b, sep)
    decreases |a|
  {
    if a == [] {
      SplitAtSep(b, sep);
      assert a + sep + b == sep + b;
      assert Split(a, sep) == [[]];
    } else if a[0] == sep[0] {
      assert a == sep + a[1..];
      SplitAtSep(a[1..], sep);
      assert a + sep + b == sep + (a[1..] + sep + b);
      SplitAtSep(a[1..] + sep + b, sep);
      SplitAppend(a[1..], sep, b);
    } else {
      SplitAppend(a[1..], sep, b);
      SplitAppendCons(a, sep, b);
    }
  }

  /** The step of `SplitAppend` for a text starting with another character. */
  lemma SplitAppendCons(a: string, sep: string, b: string)
    requires |sep| == 1 && a != [] && a[0] != sep[0]
    requires Split(a[1..] + sep + b, sep) == Split(a[1..], sep) + Split(b, sep)
    ensures Split(a + sep + b, sep) == Split(a, sep) + Split(b, sep)
  {
    var t := a[1..];
    assert a + sep + b == [a[0]] + (t + sep + b);
    SplitCons(a[0], t + sep + b, sep);
    assert a == [a[0]] + t;
    SplitCons(a[0], t, sep);
    ConsFirstPart(a[0], Split(t, sep), Split(b, sep));
  }

  /** Prefixing a character to the first part commutes with appending further parts. */
  lemma ConsFirstPart(c: char, p: seq<string>, q: seq<string>)
    requires |p| >= 1
    ensures [[c] + (p + q)[0]] + (p + q)[1..] == ([[c] + p[0]] + p[1..]) + q
  {
    assert (p + q)[0] == p[0];
    assert (p + q)[1..] == p[1..] + q;
  }

  /** A text starting with a one-character separator begins with an empty part. */
  lemma SplitAtSep(t: string, sep: string)
    requires |sep| == 1
    ensures Split(sep + t, sep) == [[]] + Split(t, sep)
  {
    assert (sep + t)[..1] == sep && (sep + t)[1..] == t;
  }

  /** A character other than a one-character separator joins the first part of the rest. */
  lemma SplitCons(c: char, t: string, sep: string)
    requires |sep| == 1 && c != sep[0]
    ensures Split([c] + t, sep) == [[c] + Split(t, sep)[0]] + Split(t, sep)[1..]
  {
    assert ([c] + t)[..1] != sep by { assert ([c] + t)[0] == c; }
    assert ([c] + t)[1..] == t;
  }

  /** When `sep` first occurs in `a + sep + b` right after `a`, the first part is `a`. */
  lemma {:induction false} SplitFirst(a: string, sep: string, b: string)
    requires sep != []
    requires forall q: nat | q < |a| :: !OccursAt(a + sep + b, sep, q)
    ensures Split(a + sep + b, sep) == [a] + Split(b, sep)
    decreases |a|
  {
    var s := a + sep + b;
    if a == [] {
      assert s[..|sep|] == sep && s[|sep|..] == b;
    } else {
      assert !OccursAt(s, sep, 0);
      assert s[1..] == a[1..] + sep + b;
      forall q: nat | q < |a[1..]| ensures !OccursAt(a[1..] + sep + b, sep, q) {
        assert !OccursAt(s, sep, q + 1);
        if q + |sep| <= |s[1..]| {
          assert s[1..][q..q + |sep|] == s[q + 1..q + 1 + |sep|];
        }
      }
      SplitFirst(a[1..], sep, b);
      assert a == [a[0]] + a[1..];
    }
  }

  /** The two separators of the card grammars: one pipe, or a pipe between spaces. */
  predicate PipeSeparator(sep: string) {
    sep == "|" || sep == " | "
  }

  /** Parts free of `|` joined with a pipe separator split back into the same parts. */
  lemma {:induction false} SplitJoinInverse(parts: seq<string>, sep: string)
    requires PipeSeparator(sep) && |parts| >= 1
    requires forall k :: 0 <= k < |parts| ==> '|' !in parts[k]
    ensures Split(Join(parts, sep), sep) == parts
    decreases |parts|
  {
    if |parts| == 1 {
      var p := parts[0];
      if |p| >= |sep| {
        SplitJoinInverse1(p, sep);
      } else {
        assert Split(p, sep) == [p];
      }
    } else {
      var a := parts[0];
      var b := Join(parts[1..], sep);
      SplitJoinInverse(parts[1..], sep);
      forall q: nat | q < |a| ensures !OccursAt(a + sep + b, sep, q) {
        PipeFreeNoOccurrence(a, sep, b, q);
      }
      SplitFirst(a, sep, b);
    }
  }

  lemma PipeFreeNoOccurrence(a: string, sep: string, b: string, q: nat)
    requires PipeSeparator(sep) && '|' !in a && q < |a|
    ensures !OccursAt(a + sep + b, sep, q)
  {
    var s := a + sep + b;
    var j := if sep == "|" then 0 else 1;
    assert sep[j] == '|';
    if q + |sep| <= |s| {
      assert s[q..q + |sep|][j] == s[q + j];
      if q + j < |a| {
        assert s[q + j] == a[q + j];
      } else {
        assert s[q + j] == sep[0];
      }
    }
  }

  /** A text free of `|` is a single part. */
  lemma SplitJoinInverse1(p: string, sep: string)
    requires PipeSeparator(sep) && '|' !in p
    ensures Split(p, sep) == [p]
  {
    var parts := Split(p, sep);
    SplitJoin(p, sep);
    if |parts| == 1 {
      assert Join(parts, sep) == parts[0];
    }
  }

  /**
   * `s.splitlines()` with `\n` as the only line break: the empty text has no
   * lines, and a final newline does not start another line.
   */
  function SplitLines(s: string): (lines: seq<string>)
  {
    if s == [] then []
    else
      var parts := Split(s, "\n");
      if s[|s| - 1] == '\n' then parts[..|parts| - 1] else parts
  }

  /**
   * A text that starts with a non-whitespace character has a first line,
   * and that line is a non-blank prefix of the text.
   */
  lemma FirstLine(s: string)
    requires s != [] && !IsSpace(s[0])
    ensures |SplitLines(s)| >= 1
    ensures StartsWith(s, SplitLines(s)[0]) && !IsBlank(SplitLines(s)[0])
  {
    var parts := Split(s, "\n");
    SplitHead(s, "\n");
    assert parts[0] != [];
    if s[|s| - 1] == '\n' {
      assert |s| - 1 != 0;
      SplitAtLeastTwo(s, "\n", |s| - 1);
    }
    assert SplitLines(s)[0] == parts[0];
    assert parts[0][0] == s[0];
  }

  /** The lines of a text, joined back with newlines, give back the text up to a final newline. */
  lemma SplitLinesJoin(s: string)
    requires s != []
    ensures |SplitLines(s)| >= 1
    ensures s == Join(SplitLines(s), "\n") + (if s[|s| - 1] == '\n' then "\n" else "")
    ensures forall k :: 0 <= k < |SplitLines(s)| ==> '\n' !in SplitLines(s)[k]
  {
    LinesJoin(s);
    LinesNewlineFree(s);
  }

  lemma LinesJoin(s: string)
    requires s != []
    ensures |SplitLines(s)| >= 1
    ensures s == Join(SplitLines(s), "\n") + (if s[|s| - 1] == '\n' then "\n" else "")
  {
    var parts := Split(s, "\n");
    SplitJoin(s, "\n");
    if s[|s| - 1] == '\n' {
      SplitAtLeastTwo(s, "\n", |s| - 1);
      JoinDropLast(parts, "\n");
      LastPartEmpty(s);
    }
  }

  /** A text ending in a newline splits into parts the last of which is empty. */
  lemma LastPartEmpty(s: string)
    requires s != [] && s[|s| - 1] == '\n'
    ensures Split(s, "\n")[|Split(s, "\n")| - 1] == []
  {
    var parts := Split(s, "\n");
    SplitJoin(s, "\n");
    SplitPartsFree(s, "\n");
    JoinSuffix(parts, "\n");
    var last := parts[|parts| - 1];
    FreeLastChar(last, '\n');
    SuffixLastChar(s, last);
  }

  /** A text free of the one-character separator `[c]` does not end in `c`. */
  lemma FreeLastChar(p: string, c: char)
    requires Free(p, [c])
    ensures p == [] || p[|p| - 1] != c
  {
    if p != [] {
      assert !OccursAt(p, [c], |p| - 1);
      assert p[|p| - 1..] == [p[|p| - 1]];
    }
  }

  /** A non-empty suffix ends in the last character of the text. */
  lemma SuffixLastChar(s: string, t: string)
    requires |t| <= |s| && s[|s| - |t|..] == t
    ensures t == [] || t[|t| - 1] == s[|s| - 1]
  {
  }

  /** No line contains a newline. */
  lemma LinesNewlineFree(s: string)
    ensures forall k :: 0 <= k < |SplitLines(s)| ==> '\n' !in SplitLines(s)[k]
  {
    if s != [] {
      var parts := Split(s, "\n");
      SplitPartsFree(s, "\n");
      forall k | 0 <= k < |SplitLines(s)| ensures '\n' !in SplitLines(s)[k] {
        assert SplitLines(s)[k] == parts[k];
        FreeOfNewline(parts[k]);
      }
    }
  }

  lemma FreeOfNewline(p: string)
    requires Free(p, "\n")
    ensures '\n' !in p
  {
    forall q | 0 <= q < |p| ensures p[q] != '\n' {
      assert !OccursAt(p, "\n", q);
      assert p[q..q + 1] == [p[q]];
    }
  }

  lemma {:induction false} JoinDropLast(parts: seq<string>, sep: string)
    requires |parts| >= 2
    ensures Join(parts, sep) == Join(parts[..|parts| - 1], sep) + sep + parts[|parts| - 1]
    decreases |parts|
  {
    if |parts| == 2 {
      assert parts[..1] == [parts[0]];
    } else {
      JoinDropLast(parts[1..], sep);
      assert parts[1..][..|parts| - 2] == parts[..|parts| - 1][1..];
    }
  }

  lemma {:induction false} JoinSuffix(parts: seq<string>, sep: string)
    requires |parts| >= 1
    ensures |parts[|parts| - 1]| <= |Join(parts, sep)|
    ensures Join(parts, sep)[|Join(parts, sep)| - |parts[|parts| - 1]|..] == parts[|parts| - 1]
    decreases |parts|
  {
    if |parts| > 1 {
      JoinSuffix(parts[1..], sep);
    }
  }

  /** The decimal digit `d`. */
  function DigitChar(d: nat): (c: char)
    requires d < 10
    ensures '0' <= c <= '9'
  {
    "0123456789"[d]
  }

  /** `str(n)` for a non-negative integer: its decimal digits, no sign, no leading zeros. */
  function NatToString(n: nat): (s: string)
    ensures 1 <= |s|
    ensures forall i :: 0 <= i < |s| ==> '0' <= s[i] <= '9'
    ensures (|s| == 1) == (n < 10)
    decreases n
  {
    if n < 10 then [DigitChar(n)] else NatToString(n / 10) + [DigitChar(n % 10)]
  }
}
