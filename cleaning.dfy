/** The corpus cleaning stages: dropping header, footer and page-number lines, joining lines
    broken in mid-sentence, collapsing runs of spaces and tabs, and cutting the text into
    paragraphs. */
module Cleaning {
  import opened Text

  /** The line boundaries of `str.splitlines()`. */
  predicate IsLineBreak(c: char) {
    c == '\n' || c == '\r' || c == '\U{0B}' || c == '\U{0C}' || ('\U{1C}' <= c <= '\U{1E}')
    || c == '\U{85}' || c == '\U{2028}' || c == '\U{2029}'
  }

  /** The position of the first line boundary in `t`, or `|t|` when there is none. */
  function FirstBreak(t: string): (i: nat)
    ensures i <= |t| && (i < |t| ==> IsLineBreak(t[i]))
    ensures forall j :: 0 <= j < i ==> !IsLineBreak(t[j])
  {
    if t == [] || IsLineBreak(t[0]) then 0 else 1 + FirstBreak(t[1..])
  }

  /** `text.splitlines()`: the pieces between boundaries, where `\r\n` is one boundary and a
      boundary at the very end does not start another (empty) line. */
  function SplitLines(t: string): (lines: seq<string>)
    ensures forall k :: 0 <= k < |lines| ==> forall j :: 0 <= j < |lines[k]| ==> !IsLineBreak(lines[k][j])
    decreases |t|
  {
    if t == [] then []
    else
      var i := FirstBreak(t);
      if i == |t| then [t]
      else
        var width := if t[i] == '\r' && i + 1 < |t| && t[i + 1] == '\n' then 2 else 1;
        [t[..i]] + SplitLines(t[i + width..])
  }

  /** `"\n".join(lines)`. */
  function JoinLines(lines: seq<string>): string
    decreases |lines|
  {
    if lines == [] then "" else if |lines| == 1 then lines[0] else lines[0] + "\n" + JoinLines(lines[1..])
  }

  predicate NoBreaks(line: string) {
    forall j :: 0 <= j < |line| ==> !IsLineBreak(line[j])
  }

  /** Joining lines and splitting them again gives the lines back, as long as no line holds
      a boundary and the last one is not empty (`"a\n".splitlines()` has one line). */
  lemma {:induction false} SplitJoinLines(lines: seq<string>)
    requires forall k :: 0 <= k < |lines| ==> NoBreaks(lines[k])
    requires lines == [] || lines[|lines| - 1] != []
    ensures SplitLines(JoinLines(lines)) == lines
    decreases |lines|
  {
    if |lines| == 1 {
      assert FirstBreak(lines[0]) == |lines[0]|;
    } else if |lines| > 1 {
      var line := lines[0];
      var rest := JoinLines(lines[1..]);
      JoinLinesCons(lines);
      FirstBreakAt(line, "\n" + rest);
      SplitLinesAtNewline(line, rest);
      assert forall k :: 0 <= k < |lines[1..]| ==> NoBreaks(lines[1..][k]) by {
        forall k | 0 <= k < |lines[1..]| ensures NoBreaks(lines[1..][k]) {
          assert lines[1..][k] == lines[k + 1];
        }
      }
      SplitJoinLines(lines[1..]);
      assert [line] + lines[1..] == lines;
    }
  }

  lemma JoinLinesCons(lines: seq<string>)
    requires |lines| > 1
    ensures JoinLines(lines) == lines[0] + ("\n" + JoinLines(lines[1..]))
  {
  }

  /** A line ended by `\n` splits off, and the rest is split on its own. */
  lemma SplitLinesAtNewline(line: string, rest: string)
    requires FirstBreak(line + ("\n" + rest)) == |line|
    ensures SplitLines(line + ("\n" + rest)) == [line] + SplitLines(rest)
  {
    var t := line + ("\n" + rest);
    assert t[|line|] == '\n';
    assert t[..|line|] == line && t[|line| + 1..] == rest;
  }

  lemma {:induction false} FirstBreakAt(line: string, rest: string)
    requires NoBreaks(line) && rest != [] && IsLineBreak(rest[0])
    ensures FirstBreak(line + rest) == |line|
    decreases |line|
  {
    if line == [] {
      assert line + rest == rest;
    } else {
      assert (line + rest)[1..] == line[1..] + rest;
      FirstBreakAt(line[1..], rest);
    }
  }

  /** `KEYWORDS`: the adjacent literals `"" "GDZ"` form the single keyword `"GDZ"`. */
  const Keywords: seq<string> := ["Cambridge University Press", "Cambridge Histories Online", "https", "GDZ", "RGASPI"]

  predicate MentionsKeyword(text: string, keywords: seq<string>) {
    exists k :: 0 <= k < |keywords| && Contains(text, keywords[k])
  }

  /** `check_keywords`: true iff some keyword occurs in `text`. */
  method CheckKeywords(text: string, keywords: seq<string>) returns (found: bool)
    ensures found <==> MentionsKeyword(text, keywords)
  {
    for k := 0 to |keywords|
      invariant forall j :: 0 <= j < k ==> !Contains(text, keywords[j])
    {
      if Contains(text, keywords[k]) {
        return true;
      }
    }
    return false;
  }

  /** No keyword is empty, so an empty line mentions none; a single empty keyword would
      match every line. */
  lemma EmptyLineHasNoKeyword()
    ensures !MentionsKeyword("", Keywords)
    ensures MentionsKeyword("", [""])
  {
    assert OccursAt("", "", 0);
    assert Contains("", [""][0]);
    forall k | 0 <= k < |Keywords|
      ensures !Contains("", Keywords[k])
    {
      assert |Keywords[k]| > 0;
    }
  }

  /** `NEW_PAGE_REG.fullmatch(line.strip().lower())`: the stripped line is a non-empty run of
      digits or of the letters of Roman numerals, in either case. */
  predicate IsPageNumber(line: string) {
    var s := Strip(line);
    s != [] && ((forall j :: 0 <= j < |s| ==> IsDigit(s[j]))
      || (forall j :: 0 <= j < |s| ==> ToLower(s[j]) in "ivxlcdm"))
  }

  /** A line `strip_headers_footers` drops: it mentions a keyword or is a page number. */
  predicate IsHeaderOrFooter(line: string) {
    MentionsKeyword(line, Keywords) || IsPageNumber(line)
  }

  /** The lines `strip_headers_footers` keeps, in order. */
  function KeptLines(lines: seq<string>): seq<string>
    decreases |lines|
  {
    if lines == [] then []
    else
      var rest := KeptLines(lines[..|lines| - 1]);
      var line := lines[|lines| - 1];
      rest + if IsHeaderOrFooter(line) then [] else [line]
  }

  /** Every kept line is an input line with no keyword that is not a page number, and every
      such input line is kept. */
  lemma {:induction false} KeptLinesExactly(lines: seq<string>)
    ensures forall line :: line in KeptLines(lines) <==>
      line in lines && !IsHeaderOrFooter(line)
    decreases |lines|
  {
    if lines != [] {
      KeptLinesExactly(lines[..|lines| - 1]);
      assert lines == lines[..|lines| - 1] + [lines[|lines| - 1]];
    }
  }

  /** Filtering keeps the order: the kept lines of two blocks are those of the first
      followed by those of the second. */
  lemma {:induction false} KeptLinesAppend(a: seq<string>, b: seq<string>)
    ensures KeptLines(a + b) == KeptLines(a) + KeptLines(b)
    decreases |b|
  {
    if b == [] {
      assert a + b == a;
    } else {
      assert (a + b)[..|a + b| - 1] == a + b[..|b| - 1];
      KeptLinesAppend(a, b[..|b| - 1]);
    }
  }

  /** Lines none of which is a header or footer are all kept. */
  lemma {:induction false} KeptLinesAllKept(lines: seq<string>)
    requires forall k :: 0 <= k < |lines| ==> !IsHeaderOrFooter(lines[k])
    ensures KeptLines(lines) == lines
    decreases |lines|
  {
    if lines != [] {
      var init := lines[..|lines| - 1];
      KeptLinesAllKept(init);
      assert !IsHeaderOrFooter(lines[|lines| - 1]);
      assert KeptLines(lines) == KeptLines(init) + [lines[|lines| - 1]];
      assert lines == init + [lines[|lines| - 1]];
    }
  }

  /** Filtering twice is filtering once. */
  lemma KeptLinesIdempotent(lines: seq<string>)
    ensures KeptLines(KeptLines(lines)) == KeptLines(lines)
  {
    var kept := KeptLines(lines);
    KeptLinesExactly(lines);
    forall k | 0 <= k < |kept|
      ensures !IsHeaderOrFooter(kept[k])
    {
      assert kept[k] in kept;
    }
    KeptLinesAllKept(kept);
  }

  /** `strip_headers_footers`. */
  method StripHeadersFooters(text: string) returns (r: string)
    ensures r == JoinLines(KeptLines(SplitLines(text)))
  {
    var lines := SplitLines(text);
    var cleaned: seq<string> := [];
    for i := 0 to |lines|
      invariant cleaned == KeptLines(lines[..i])
    {
      assert lines[..i + 1][..i] == lines[..i];
      var hasKeyword := CheckKeywords(lines[i], Keywords);
      if hasKeyword {
        continue;
      }
      if IsPageNumber(lines[i]) {
        continue;
      }
      cleaned := cleaned + [lines[i]];
    }
    assert lines[..|lines|] == lines;
    r := JoinLines(cleaned);
  }

  /** `LINE_ENDING`: a line ending in one of these closes its sentence. */
  const LineEndings: seq<char> := ['.', '?', '!', '"', ':', ';']

  /** Line `line` is joined with `next`: it is non-empty and does not close its sentence, and
      the next line is non-empty and starts in lower case. */
  predicate Joins(line: string, next: string) {
    line != [] && line[|line| - 1] !in LineEndings && next != [] && IsLower(next[0])
  }

  /** The lines `join_broken_lines` produces: a joined pair consumes both lines, so the
      consumed line is never joined with the one after it. */
  function JoinedLines(lines: seq<string>): seq<string> {
    JoinedFrom(lines, 0)
  }

  /** The lines `join_broken_lines` produces from line `i` on. */
  function JoinedFrom(lines: seq<string>, i: nat): seq<string>
    decreases |lines| - i
  {
    if i >= |lines| then []
    else if i + 1 < |lines| && Joins(lines[i], lines[i + 1]) then
      [lines[i] + " " + LStrip(lines[i + 1])] + JoinedFrom(lines, i + 2)
    else [lines[i]] + JoinedFrom(lines, i + 1)
  }

  /** Joining never adds lines, and since joins do not chain, it at most halves them. */
  lemma JoinedLinesCount(lines: seq<string>)
    ensures |JoinedLines(lines)| <= |lines| <= 2 * |JoinedLines(lines)|
  {
    JoinedFromCount(lines, 0);
  }

  lemma {:induction false} JoinedFromCount(lines: seq<string>, i: nat)
    requires i <= |lines|
    ensures |JoinedFrom(lines, i)| <= |lines| - i <= 2 * |JoinedFrom(lines, i)|
    decreases |lines| - i
  {
    if i + 1 < |lines| && Joins(lines[i], lines[i + 1]) {
      JoinedFromCount(lines, i + 2);
    } else if i < |lines| {
      JoinedFromCount(lines, i + 1);
    }
  }

  /** With no joinable pair, the lines are unchanged. */
  lemma JoinedLinesUnchanged(lines: seq<string>)
    requires forall i :: 0 <= i < |lines| - 1 ==> !Joins(lines[i], lines[i + 1])
    ensures JoinedLines(lines) == lines
  {
    JoinedFromUnchanged(lines, 0);
    assert lines[0..] == lines;
  }

  lemma {:induction false} JoinedFromUnchanged(lines: seq<string>, i: nat)
    requires i <= |lines|
    requires forall k :: 0 <= k < |lines| - 1 ==> !Joins(lines[k], lines[k + 1])
    ensures JoinedFrom(lines, i) == lines[i..]
    decreases |lines| - i
  {
    if i < |lines| {
      JoinedFromUnchanged(lines, i + 1);
      assert lines[i..] == [lines[i]] + lines[i + 1..];
    }
  }

  /** The broken line of the test corpus is joined with its continuation. */
  lemma JoinsBrokenSentence()
    ensures JoinedLines(["Это строка оборвана", "в середине."]) == ["Это строка оборвана в середине."]
  {
    var first := "Это строка оборвана";
    var second := "в середине.";
    assert first[|first| - 1] == 'а' && second[0] == 'в';
    assert Joins(first, second);
    assert LStrip(second) == second;
    var lines := [first, second];
    assert JoinedFrom(lines, 2) == [];
    assert JoinedLines(lines) == [first + " " + second] + JoinedFrom(lines, 2);
    assert first + " " + second == "Это строка оборвана в середине.";
  }

  /** `join_broken_lines`. */
  method JoinBrokenLines(text: string) returns (r: string)
    ensures r == JoinLines(JoinedLines(SplitLines(text)))
  {
    var lines := SplitLines(text);
    var out := JoinLineList(lines);
    r := JoinLines(out);
  }

  /** The loop of `join_broken_lines` over the split lines. */
  method JoinLineList(lines: seq<string>) returns (out: seq<string>)
    ensures out == JoinedLines(lines)
  {
    out := [];
    var i := 0;
    while i < |lines|
      invariant i <= |lines|
      invariant out + JoinedFrom(lines, i) == JoinedLines(lines)
    {
      var line := lines[i];
      if i + 1 < |lines| {
        var next := lines[i + 1];
        if Joins(line, next) {
          line := line + " " + LStrip(next);
          i := i + 1;
        }
      }
      out := out + [line];
      i := i + 1;
    }
  }

  predicate IsBlank(c: char) {
    c == ' ' || c == '\t'
  }

  function DropBlanks(t: string): (r: string)
    ensures |r| <= |t| && r == t[|t| - |r|..]
    ensures r == [] || !IsBlank(r[0])
  {
    if t != [] && IsBlank(t[0]) then DropBlanks(t[1..]) else t
  }

  /** `collapse_whitespace`: every maximal run of spaces and tabs becomes one space. */
  function Collapse(t: string): (r: string)
    ensures t == [] <==> r == []
    ensures r != [] ==> r[0] == (if IsBlank(t[0]) then ' ' else t[0])
    ensures forall j :: 0 <= j < |r| ==> r[j] != '\t'
    ensures forall j :: 0 <= j < |r| - 1 ==> !(r[j] == ' ' && r[j + 1] == ' ')
    decreases |t|
  {
    if t == [] then []
    else if IsBlank(t[0]) then [' '] + Collapse(DropBlanks(t[1..]))
    else [t[0]] + Collapse(t[1..])
  }

  /** The characters other than spaces and tabs, in order: newlines and words. */
  function NonBlank(t: string): (r: string)
    decreases |t|
  {
    if t == [] then [] else (if IsBlank(t[0]) then [] else [t[0]]) + NonBlank(t[1..])
  }

  lemma {:induction false} NonBlankDrop(t: string)
    ensures NonBlank(DropBlanks(t)) == NonBlank(t)
    decreases |t|
  {
    if t != [] && IsBlank(t[0]) {
      NonBlankDrop(t[1..]);
    }
  }

  /** Collapsing keeps every other character, newlines included, in order. */
  lemma {:induction false} CollapseKeepsNonBlank(t: string)
    ensures NonBlank(Collapse(t)) == NonBlank(t)
    decreases |t|
  {
    if t != [] {
      var r := Collapse(t);
      assert NonBlank(r) == (if IsBlank(r[0]) then [] else [r[0]]) + NonBlank(r[1..]);
      if IsBlank(t[0]) {
        var d := DropBlanks(t[1..]);
        CollapseKeepsNonBlank(d);
        NonBlankDrop(t[1..]);
        assert r[1..] == Collapse(d);
      } else {
        CollapseKeepsNonBlank(t[1..]);
        assert r[1..] == Collapse(t[1..]);
      }
    }
  }

  /** A string with no tab and no two adjacent spaces is left as it is. */
  lemma {:induction false} CollapseFixed(s: string)
    requires forall j :: 0 <= j < |s| ==> s[j] != '\t'
    requires forall j :: 0 <= j < |s| - 1 ==> !(s[j] == ' ' && s[j + 1] == ' ')
    ensures Collapse(s) == s
    decreases |s|
  {
    if s != [] {
      CollapseFixed(s[1..]);
      if IsBlank(s[0]) {
        assert DropBlanks(s[1..]) == s[1..];
      }
    }
  }

  /** `collapse_whitespace` is idempotent. */
  lemma CollapseIdempotent(t: string)
    ensures Collapse(Collapse(t)) == Collapse(t)
  {
    CollapseFixed(Collapse(t));
  }

  predicate DoubleBreakAt(t: string, i: int) {
    0 <= i && i + 1 < |t| && t[i] == '\n' && t[i + 1] == '\n'
  }

  /** The start of the leftmost match of `\n{2,}`, or `|t|`. */
  function FirstDoubleBreak(t: string): (i: nat)
    ensures i <= |t| && (i < |t| ==> DoubleBreakAt(t, i))
    ensures forall j :: 0 <= j < i ==> !DoubleBreakAt(t, j)
    decreases |t|
  {
    if |t| < 2 then |t|
    else if DoubleBreakAt(t, 0) then 0
    else
      var i := FirstDoubleBreak(t[1..]);
      assert forall j :: 1 <= j < |t| ==> (DoubleBreakAt(t, j) <==> DoubleBreakAt(t[1..], j - 1));
      1 + i
  }

  /** The end of the run of newlines starting at `i`: a match of `\n{2,}` is greedy. */
  function NewlinesEnd(t: string, i: nat): (j: nat)
    requires i <= |t|
    ensures i <= j <= |t| && (j < |t| ==> t[j] != '\n')
    ensures forall k :: i <= k < j ==> t[k] == '\n'
    decreases |t| - i
  {
    if i < |t| && t[i] == '\n' then NewlinesEnd(t, i + 1) else i
  }

  /** `PARAGRAPHS_REG.split(text)`: the pieces between maximal runs of two or more newlines;
      always at least one piece. */
  function Pieces(t: string): (r: seq<string>)
    ensures |r| >= 1
    decreases |t|
  {
    var i := FirstDoubleBreak(t);
    if i == |t| then [t] else [t[..i]] + Pieces(t[NewlinesEnd(t, i)..])
  }

  /** The separators `re.split` cut out, one between each two pieces. */
  function Separators(t: string): (r: seq<string>)
    ensures |r| == |Pieces(t)| - 1
    ensures forall k :: 0 <= k < |r| ==> |r[k]| >= 2 && forall j :: 0 <= j < |r[k]| ==> r[k][j] == '\n'
    decreases |t|
  {
    var i := FirstDoubleBreak(t);
    if i == |t| then []
    else
      var e := NewlinesEnd(t, i);
      NewlineRun(t, i);
      [t[i..e]] + Separators(t[e..])
  }

  /** The run a double break starts holds at least two characters, all newlines. */
  lemma NewlineRun(t: string, i: nat)
    requires DoubleBreakAt(t, i)
    ensures NewlinesEnd(t, i) >= i + 2
    ensures var run := t[i..NewlinesEnd(t, i)]; forall j :: 0 <= j < |run| ==> run[j] == '\n'
  {
    assert NewlinesEnd(t, i) == NewlinesEnd(t, i + 1);
  }

  /** `pieces[0] + seps[0] + pieces[1] + ... + pieces[n]`. */
  function Interleave(pieces: seq<string>, seps: seq<string>): string
    requires |pieces| == |seps| + 1
    decreases |seps|
  {
    if seps == [] then pieces[0] else pieces[0] + seps[0] + Interleave(pieces[1..], seps[1..])
  }

  lemma InterleaveCons(piece: string, sep: string, pieces: seq<string>, seps: seq<string>)
    requires |pieces| == |seps| + 1
    ensures Interleave([piece] + pieces, [sep] + seps) == piece + sep + Interleave(pieces, seps)
  {
    assert ([piece] + pieces)[1..] == pieces;
    assert ([sep] + seps)[1..] == seps;
  }

  /** A text with a double break splits into the piece before it, the run of newlines, and
      the pieces of the rest. */
  lemma PiecesStep(t: string)
    requires FirstDoubleBreak(t) < |t|
    ensures var i := FirstDoubleBreak(t);
      var e := NewlinesEnd(t, i);
      Pieces(t) == [t[..i]] + Pieces(t[e..]) && Separators(t) == [t[i..e]] + Separators(t[e..])
  {
  }

  /** Splitting loses nothing: putting the separators back gives the text. */
  lemma {:induction false} PiecesInterleave(t: string)
    ensures Interleave(Pieces(t), Separators(t)) == t
    decreases |t|
  {
    var i := FirstDoubleBreak(t);
    if i < |t| {
      var e := NewlinesEnd(t, i);
      var rest := t[e..];
      PiecesStep(t);
      calc {
        Interleave(Pieces(t), Separators(t));
        Interleave([t[..i]] + Pieces(rest), [t[i..e]] + Separators(rest));
        { InterleaveCons(t[..i], t[i..e], Pieces(rest), Separators(rest)); }
        t[..i] + t[i..e] + Interleave(Pieces(rest), Separators(rest));
        { PiecesInterleave(rest); }
        t[..i] + t[i..e] + rest;
        { assert t == t[..i] + t[i..e] + t[e..]; }
        t;
      }
    }
  }

  /** No piece holds two newlines in a row. */
  lemma {:induction false} PiecesNoDoubleBreak(t: string)
    ensures forall k :: 0 <= k < |Pieces(t)| ==> forall j :: !DoubleBreakAt(Pieces(t)[k], j)
    decreases |t|
  {
    var i := FirstDoubleBreak(t);
    if i < |t| {
      var e := NewlinesEnd(t, i);
      PiecesNoDoubleBreak(t[e..]);
      forall j ensures !DoubleBreakAt(t[..i], j) {
        if DoubleBreakAt(t[..i], j) {
          assert DoubleBreakAt(t, j);
        }
      }
    }
  }

  /** The separators are maximal: no piece after the first starts with a newline and none
      before the last ends with one. */
  lemma {:induction false} PiecesBoundaries(t: string)
    ensures forall k :: 0 < k < |Pieces(t)| ==> Pieces(t)[k] == [] || Pieces(t)[k][0] != '\n'
    ensures forall k :: 0 <= k < |Pieces(t)| - 1 ==> Pieces(t)[k] == [] || Pieces(t)[k][|Pieces(t)[k]| - 1] != '\n'
    decreases |t|
  {
    var i := FirstDoubleBreak(t);
    if i < |t| {
      var e := NewlinesEnd(t, i);
      var rest := t[e..];
      PiecesBoundaries(rest);
      var p := Pieces(t);
      assert p == [t[..i]] + Pieces(rest);
      if i > 0 {
        assert !DoubleBreakAt(t, i - 1);
      }
      PiecesStart(rest);
      assert p[1] == Pieces(rest)[0];
      forall k | 1 < k < |p|
        ensures p[k] == [] || p[k][0] != '\n'
      {
        assert p[k] == Pieces(rest)[k - 1];
      }
      forall k | 1 <= k < |p| - 1
        ensures p[k] == [] || p[k][|p[k]| - 1] != '\n'
      {
        assert p[k] == Pieces(rest)[k - 1];
      }
    }
  }

  /** The first piece starts where the text does. */
  lemma PiecesStart(t: string)
    ensures Pieces(t)[0] == [] || (t != [] && Pieces(t)[0][0] == t[0])
  {
  }

  /** The images under `f` of the elements, those that `keep` accepts, in order: the shape
      of `[f(x) for x in xs if keep(f(x))]`. */
  function KeepMapped<T>(xs: seq<T>, f: T -> T, keep: T -> bool): (r: seq<T>)
    ensures |r| <= |xs|
    ensures forall j :: 0 <= j < |r| ==> keep(r[j])
    decreases |xs|
  {
    if xs == [] then []
    else (if keep(f(xs[0])) then [f(xs[0])] else []) + KeepMapped(xs[1..], f, keep)
  }

  /** Every kept element is the image of an element. */
  lemma {:induction false} KeepMappedFrom<T>(xs: seq<T>, f: T -> T, keep: T -> bool)
    ensures forall y :: y in KeepMapped(xs, f, keep) ==> exists k :: 0 <= k < |xs| && y == f(xs[k])
    decreases |xs|
  {
    if xs != [] {
      var tail := xs[1..];
      KeepMappedFrom(tail, f, keep);
      forall y | y in KeepMapped(xs, f, keep)
        ensures exists k :: 0 <= k < |xs| && y == f(xs[k])
      {
        if y != f(xs[0]) {
          assert y in KeepMapped(tail, f, keep);
          var k :| 0 <= k < |tail| && y == f(tail[k]);
          assert tail[k] == xs[k + 1];
        }
      }
    }
  }

  /** Every image that `keep` accepts is kept. */
  lemma {:induction false} KeepMappedComplete<T>(xs: seq<T>, f: T -> T, keep: T -> bool)
    ensures forall k :: 0 <= k < |xs| && keep(f(xs[k])) ==> f(xs[k]) in KeepMapped(xs, f, keep)
    decreases |xs|
  {
    if xs != [] {
      var tail := xs[1..];
      KeepMappedComplete(tail, f, keep);
      forall k | 1 <= k < |xs| && keep(f(xs[k]))
        ensures f(xs[k]) in KeepMapped(xs, f, keep)
      {
        assert tail[k - 1] == xs[k];
      }
    }
  }

  /** Keeping distributes over concatenation, so the order of the elements is kept. */
  lemma {:induction false} KeepMappedAppend<T>(a: seq<T>, b: seq<T>, f: T -> T, keep: T -> bool)
    ensures KeepMapped(a + b, f, keep) == KeepMapped(a, f, keep) + KeepMapped(b, f, keep)
    decreases |a|
  {
    if a == [] {
      assert a + b == b;
    } else {
      assert (a + b)[0] == a[0] && (a + b)[1..] == a[1..] + b;
      KeepMappedAppend(a[1..], b, f, keep);
    }
  }

  predicate IsLong(p: string) {
    |p| > 40
  }

  /** `q` is the stripped form of one of the pieces, with no whitespace at either end, and
      longer than 40 characters. */
  predicate IsParagraphOf(q: string, pieces: seq<string>) {
    |q| > 40 && Trimmed(q) && exists k :: 0 <= k < |pieces| && q == Strip(pieces[k])
  }

  /** `split_paragraphs`: the stripped pieces longer than 40 characters, in order. */
  function SplitParagraphs(t: string): seq<string> {
    KeepMapped(Pieces(t), Strip, IsLong)
  }

  /** Each paragraph is the stripped form of a piece between runs of two or more newlines,
      has no whitespace at either end and is longer than 40 characters; each piece whose
      stripped form is that long is a paragraph. */
  lemma SplitParagraphsExactly(t: string)
    ensures forall q :: q in SplitParagraphs(t) ==> IsParagraphOf(q, Pieces(t))
    ensures forall k :: 0 <= k < |Pieces(t)| && |Strip(Pieces(t)[k])| > 40 ==> Strip(Pieces(t)[k]) in SplitParagraphs(t)
  {
    var ps := Pieces(t);
    var r := KeepMapped(ps, Strip, IsLong);
    assert SplitParagraphs(t) == r;
    KeepMappedFrom(ps, Strip, IsLong);
    KeepMappedComplete(ps, Strip, IsLong);
    forall q | q in SplitParagraphs(t)
      ensures IsParagraphOf(q, ps)
    {
      var j :| 0 <= j < |r| && r[j] == q;
      assert IsLong(r[j]);
      var k :| 0 <= k < |ps| && q == Strip(ps[k]);
      assert Pieces(t)[k] == ps[k];
    }
    forall k | 0 <= k < |ps| && |Strip(ps[k])| > 40
      ensures Strip(ps[k]) in r
    {
      assert IsLong(Strip(ps[k]));
    }
  }

  /** `clean_and_paragraphize`: the four stages, in this order. */
  method CleanAndParagraphize(text: string) returns (paragraphs: seq<string>)
    ensures paragraphs == SplitParagraphs(Collapse(JoinLines(JoinedLines(SplitLines(JoinLines(KeptLines(SplitLines(text))))))))
    ensures forall k :: 0 <= k < |paragraphs| ==> |paragraphs[k]| > 40
  {
    var stripped := StripHeadersFooters(text);
    var joined := JoinBrokenLines(stripped);
    var collapsed := Collapse(joined);
    paragraphs := SplitParagraphs(collapsed);
  }
}
