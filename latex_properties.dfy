/**
 * What the LaTeX body renderer promises beyond its line-by-line shape:
 * highlighting only wraps text, every row gives exactly one line, and the
 * horizontal rules fall after the last row of each block of `hline` rows.
 */
module LatexProperties {

  import opened Wrappers
  import opened Decimal
  import opened Tables
  import Text

  // ---------------------------------------------------------------------
  // Deleting the highlighting
  // ---------------------------------------------------------------------

  /** `s` begins with the bold opener `\bf{`. */
  predicate OpensBold(s: string)
  {
    |s| >= 4 && s[0] == '\\' && s[1] == 'b' && s[2] == 'f' && s[3] == '{'
  }

  /** `s` with every `\bf{` and every `}` deleted, scanning from the left. */
  function Unbold(s: string): string
    decreases |s|
  {
    if |s| == 0 then ""
    else if OpensBold(s) then Unbold(s[4..])
    else if s[0] == '}' then Unbold(s[1..])
    else [s[0]] + Unbold(s[1..])
  }

  /** Text the deletion leaves as it is: in particular, text with no `}` and no `\bf{`. */
  predicate Unmarked(s: string)
  {
    Unbold(s) == s
  }

  /** `s` ends with a proper prefix of `\bf{`, so that what follows could complete it. */
  predicate EndsInPartialOpen(s: string)
  {
    var n := |s|;
    (n >= 1 && s[n - 1] == '\\') ||
    (n >= 2 && s[n - 2] == '\\' && s[n - 1] == 'b') ||
    (n >= 3 && s[n - 3] == '\\' && s[n - 2] == 'b' && s[n - 1] == 'f')
  }

  /** `s` cannot complete a `\bf{` begun just before it. */
  predicate StartsSafely(s: string)
  {
    |s| == 0 || (s[0] != 'b' && s[0] != 'f' && s[0] != '{')
  }

  /** No `}`, and no backslash directly followed by `b`: no part of a bold wrapper. */
  predicate NoWrapperChars(s: string)
  {
    forall i :: 0 <= i < |s| ==> s[i] != '}' && (s[i] == '\\' && i + 1 < |s| ==> s[i + 1] != 'b')
  }

  /** Text without wrapper characters is unmarked. */
  lemma {:induction false} NoWrapperCharsUnmarked(s: string)
    requires NoWrapperChars(s)
    ensures Unmarked(s)
    decreases |s|
  {
    if |s| > 0 {
      var t := s[1..];
      assert forall i :: 0 <= i < |t| ==> t[i] == s[i + 1];
      NoWrapperCharsUnmarked(t);
      assert s == [s[0]] + t;
    }
  }

  /** A suffix of a text that does not end partway into `\bf{` does not either. */
  lemma PartialSuffix(x: string, k: nat)
    requires k <= |x|
    ensures EndsInPartialOpen(x[k..]) ==> EndsInPartialOpen(x)
  {
  }

  /** No `\bf{` can straddle a seam that cannot form one. */
  lemma SeamNotOpen(x: string, y: string)
    requires !EndsInPartialOpen(x) || StartsSafely(y)
    requires 0 < |x| && !OpensBold(x)
    ensures !OpensBold(x + y)
  {
  }

  /** The deletion distributes over a concatenation whose seam cannot form `\bf{`. */
  lemma {:induction false} UnboldAppend(x: string, y: string)
    requires !EndsInPartialOpen(x) || StartsSafely(y)
    ensures Unbold(x + y) == Unbold(x) + Unbold(y)
    decreases |x|
  {
    var xy := x + y;
    if |x| == 0 {
      assert xy == y;
    } else if OpensBold(x) {
      assert OpensBold(xy);
      assert xy[4..] == x[4..] + y;
      PartialSuffix(x, 4);
      UnboldAppend(x[4..], y);
    } else {
      SeamNotOpen(x, y);
      assert xy[0] == x[0];
      assert xy[1..] == x[1..] + y;
      PartialSuffix(x, 1);
      UnboldAppend(x[1..], y);
      if x[0] != '}' {
        assert Unbold(xy) == [x[0]] + Unbold(xy[1..]);
        assert Unbold(x) == [x[0]] + Unbold(x[1..]);
      }
    }
  }

  /** Deleting the wrapper of a cell gives the plain cell. */
  lemma UnboldWrap(t: string, bold: bool)
    requires Unmarked(t)
    ensures Unbold(Wrap(t, bold)) == t
  {
    if bold {
      var w := "\\bf{" + t + "}";
      assert OpensBold(w);
      assert w[4..] == t + "}";
      UnboldAppend(t, "}");
      assert Unbold("}") == "";
    }
  }

  /** The fixed-point text of a number is unmarked and can follow any seam. */
  lemma NumberIsPlain(v: int, precision: nat)
    ensures Unmarked(FormatFixed(v, precision))
    ensures StartsSafely(FormatFixed(v, precision))
  {
    var s := FormatFixed(v, precision);
    FormatFixedShape(v, precision);
    NoWrapperCharsUnmarked(s);
  }

  /** With no highlighting mode a cell is printed plain. */
  lemma PlainCell(data: seq<seq<int>>, fmt: LatexFormat, i: nat, j: nat)
    requires Rectangular(data) && i < |data| && j < |data[i]|
    ensures Unbold(CellText(data, fmt.best, fmt.axis, fmt.countVals, fmt.precision, i, j))
         == CellText(data, NoBest, fmt.axis, fmt.countVals, fmt.precision, i, j)
    ensures StartsSafely(CellText(data, fmt.best, fmt.axis, fmt.countVals, fmt.precision, i, j))
  {
    var t := FormatFixed(data[i][j], fmt.precision);
    NumberIsPlain(data[i][j], fmt.precision);
    UnboldWrap(t, IsBest(data, fmt.best, fmt.axis, fmt.countVals, i, j));
    assert !IsBest(data, NoBest, fmt.axis, fmt.countVals, i, j);
  }

  /** Unbolding `" & "` followed by text. */
  lemma UnboldAfterSeparator(t: string)
    ensures Unbold(" & " + t) == " & " + Unbold(t)
  {
    var sep := " & ";
    assert NoWrapperChars(sep);
    NoWrapperCharsUnmarked(sep);
    UnboldAppend(sep, t);
  }

  /** Cells that unbold pointwise to plain cells, and can each follow a seam, join to the joined plain cells. */
  lemma {:induction false} UnboldJoin(xs: seq<string>, ys: seq<string>)
    requires |xs| == |ys|
    requires forall k :: 0 <= k < |xs| ==> Unbold(xs[k]) == ys[k] && StartsSafely(xs[k])
    ensures Unbold(Join(xs)) == Join(ys)
    decreases |xs|
  {
    var n := |xs|;
    if n > 1 {
      var xs', ys' := xs[..n - 1], ys[..n - 1];
      UnboldJoin(xs', ys');
      assert Join(xs) == Join(xs') + (" & " + xs[n - 1]);
      assert Join(ys) == Join(ys') + (" & " + ys[n - 1]);
      UnboldAppend(Join(xs'), " & " + xs[n - 1]);
      UnboldAfterSeparator(xs[n - 1]);
    }
  }

  /** The end of a line, ` \\\\`, perhaps `\\hline`, and the newline, is unmarked. */
  lemma LineEndPlain(hl: bool)
    ensures Unmarked(LineEnd(hl))
  {
    var e := LineEnd(hl);
    assert NoWrapperChars(e) by {
      if hl {
        assert e == [' ', '\\', '\\', '\\', 'h', 'l', 'i', 'n', 'e', '\n'];
      } else {
        assert e == [' ', '\\', '\\', '\n'];
      }
    }
    NoWrapperCharsUnmarked(e);
  }

  /** A line text, unbolded, is the line text of the unbolded cells. */
  lemma UnboldLineText(rowLabel: string, cells: seq<string>, plainCells: seq<string>, hl: bool)
    requires Unmarked(rowLabel) && |cells| == |plainCells|
    requires forall k :: 0 <= k < |cells| ==> Unbold(cells[k]) == plainCells[k] && StartsSafely(cells[k])
    ensures Unbold(LineText(rowLabel, cells, hl)) == LineText(rowLabel, plainCells, hl)
    ensures EndsInNewline(LineText(rowLabel, cells, hl))
  {
    LineEndPlain(hl);
    UnboldAppend(LineBody(rowLabel, cells), LineEnd(hl));
    if |cells| > 0 {
      var tail := " & " + Join(cells);
      assert LineBody(rowLabel, cells) == rowLabel + tail;
      assert LineBody(rowLabel, plainCells) == rowLabel + (" & " + Join(plainCells));
      UnboldAppend(rowLabel, tail);
      UnboldAfterSeparator(Join(cells));
      UnboldJoin(cells, plainCells);
    } else {
      assert LineBody(rowLabel, cells) == rowLabel == LineBody(rowLabel, plainCells);
    }
  }

  /** One line, unbolded, is the line printed without highlighting. */
  lemma UnboldLine(data: seq<seq<int>>, fmt: LatexFormat, i: nat)
    requires Rectangular(data) && i < |data|
    requires Unmarked(LabelOf(fmt.labels, i))
    ensures Unbold(Line(data, fmt, i)) == Line(data, fmt.(best := NoBest), i)
    ensures EndsInNewline(Line(data, fmt, i))
  {
    var n := |data[i]|;
    var cells := RowTexts(data, fmt.best, fmt.axis, fmt.countVals, fmt.precision, i, n);
    var plainCells := RowTexts(data, NoBest, fmt.axis, fmt.countVals, fmt.precision, i, n);
    forall k | 0 <= k < n ensures Unbold(cells[k]) == plainCells[k] && StartsSafely(cells[k]) {
      RowTextsAt(data, fmt.best, fmt.axis, fmt.countVals, fmt.precision, i, n, k);
      RowTextsAt(data, NoBest, fmt.axis, fmt.countVals, fmt.precision, i, n, k);
      PlainCell(data, fmt, i, k);
    }
    UnboldLineText(LabelOf(fmt.labels, i), cells, plainCells, HlineAfter(fmt.hline, i));
  }

  /** A text that ends with a newline. */
  predicate EndsInNewline(s: string)
  {
    |s| > 0 && s[|s| - 1] == '\n'
  }

  /** Lines that each end with a newline and unbold to the plain lines concatenate to the plain text. */
  lemma {:induction false} UnboldConcat(xs: seq<string>, ys: seq<string>)
    requires |xs| == |ys|
    requires forall k :: 0 <= k < |xs| ==> Unbold(xs[k]) == ys[k] && EndsInNewline(xs[k])
    ensures Unbold(Text.Concat(xs)) == Text.Concat(ys)
    ensures |xs| > 0 ==> EndsInNewline(Text.Concat(xs))
    decreases |xs|
  {
    var n := |xs|;
    if n > 0 {
      var xs', ys' := xs[..n - 1], ys[..n - 1];
      UnboldConcat(xs', ys');
      assert Text.Concat(xs) == Text.Concat(xs') + xs[n - 1];
      assert Text.Concat(ys) == Text.Concat(ys') + ys[n - 1];
      UnboldAppend(Text.Concat(xs'), xs[n - 1]);
    }
  }

  /**
   * Highlighting only wraps text: deleting every `\bf{` and `}` from the body
   * gives the body printed without highlighting, provided the row labels
   * contain no `}` and no backslash followed by `b`.
   */
  lemma UnboldTable(data: seq<seq<int>>, fmt: LatexFormat)
    requires Rectangular(data)
    requires fmt.labels.Some? ==> forall k :: 0 <= k < |fmt.labels.value| ==> NoWrapperChars(fmt.labels.value[k])
    ensures Unbold(LatexTable(data, fmt)) == LatexTable(data, fmt.(best := NoBest))
  {
    var n := |data|;
    var lines := Lines(data, fmt, n);
    var plainLines := Lines(data, fmt.(best := NoBest), n);
    forall k | 0 <= k < n ensures Unbold(lines[k]) == plainLines[k] && EndsInNewline(lines[k]) {
      if fmt.labels.Some? && k < |fmt.labels.value| {
        NoWrapperCharsUnmarked(fmt.labels.value[k]);
      } else {
        assert Unbold("") == "";
      }
      UnboldLine(data, fmt, k);
    }
    UnboldConcat(lines, plainLines);
  }

  // ---------------------------------------------------------------------
  // One line per row
  // ---------------------------------------------------------------------

  /** The number of newlines in `s`. */
  function Newlines(s: string): nat
    decreases |s|
  {
    if |s| == 0 then 0 else Newlines(s[..|s| - 1]) + (if s[|s| - 1] == '\n' then 1 else 0)
  }

  lemma {:induction false} NewlinesAppend(x: string, y: string)
    ensures Newlines(x + y) == Newlines(x) + Newlines(y)
    decreases |y|
  {
    if |y| > 0 {
      var xy := x + y;
      assert xy[..|xy| - 1] == x + y[..|y| - 1];
      assert xy[|xy| - 1] == y[|y| - 1];
      assert Newlines(xy) == Newlines(xy[..|xy| - 1]) + (if y[|y| - 1] == '\n' then 1 else 0);
      NewlinesAppend(x, y[..|y| - 1]);
    } else {
      assert x + y == x;
    }
  }

  /** No character of `s` is a newline. */
  predicate NoNewlineChars(s: string)
  {
    forall i :: 0 <= i < |s| ==> s[i] != '\n'
  }

  lemma {:induction false} NoNewlineCount(s: string)
    requires NoNewlineChars(s)
    ensures Newlines(s) == 0
    decreases |s|
  {
    if |s| > 0 {
      var t := s[..|s| - 1];
      assert forall i :: 0 <= i < |t| ==> t[i] == s[i];
      NoNewlineCount(t);
    }
  }

  /** A cell text, bold or not, holds no newline. */
  lemma CellHasNoNewline(t: string, bold: bool)
    requires Newlines(t) == 0
    ensures Newlines(Wrap(t, bold)) == 0
  {
    if bold {
      var opener, closer := "\\bf{", "}";
      assert NoNewlineChars(opener) && NoNewlineChars(closer);
      NoNewlineCount(opener);
      NoNewlineCount(closer);
      NewlinesAppend(opener, t);
      NewlinesAppend(opener + t, closer);
    }
  }

  /** A printed number holds no newline. */
  lemma NumberHasNoNewline(v: int, precision: nat)
    ensures Newlines(FormatFixed(v, precision)) == 0
  {
    var s := FormatFixed(v, precision);
    FormatFixedShape(v, precision);
    assert NoNewlineChars(s);
    NoNewlineCount(s);
  }

  lemma {:induction false} JoinHasNoNewline(xs: seq<string>)
    requires forall k :: 0 <= k < |xs| ==> Newlines(xs[k]) == 0
    ensures Newlines(Join(xs)) == 0
    decreases |xs|
  {
    var n := |xs|;
    if n > 1 {
      var sep := " & ";
      assert NoNewlineChars(sep);
      NoNewlineCount(sep);
      JoinHasNoNewline(xs[..n - 1]);
      assert Join(xs) == Join(xs[..n - 1]) + sep + xs[n - 1];
      NewlinesAppend(Join(xs[..n - 1]), sep);
      NewlinesAppend(Join(xs[..n - 1]) + sep, xs[n - 1]);
    }
  }

  /** A line whose label and cells hold no newline holds exactly one, at its end. */
  lemma LineTextNewlines(rowLabel: string, cells: seq<string>, hl: bool)
    requires Newlines(rowLabel) == 0
    requires forall k :: 0 <= k < |cells| ==> Newlines(cells[k]) == 0
    ensures Newlines(LineText(rowLabel, cells, hl)) == 1
    ensures EndsInNewline(LineText(rowLabel, cells, hl))
  {
    var sep := " & ";
    var e := LineEnd(hl);
    assert NoNewlineChars(sep);
    assert e[..|e| - 1] == " \\\\" + (if hl then "\\hline" else "");
    assert NoNewlineChars(e[..|e| - 1]);
    NoNewlineCount(e[..|e| - 1]);
    NoNewlineCount(sep);
    JoinHasNoNewline(cells);
    var body := LineBody(rowLabel, cells);
    if |cells| > 0 {
      assert body == rowLabel + (sep + Join(cells));
      NewlinesAppend(sep, Join(cells));
      NewlinesAppend(rowLabel, sep + Join(cells));
    } else {
      assert body == rowLabel + "";
      assert body == rowLabel;
    }
    NewlinesAppend(body, e);
  }

  /** Line `i` holds exactly one newline, at its end, when its label holds none. */
  lemma LineNewlines(data: seq<seq<int>>, fmt: LatexFormat, i: nat)
    requires Rectangular(data) && i < |data|
    requires Newlines(LabelOf(fmt.labels, i)) == 0
    ensures Newlines(Line(data, fmt, i)) == 1
    ensures EndsInNewline(Line(data, fmt, i))
  {
    var n := |data[i]|;
    var cells := RowTexts(data, fmt.best, fmt.axis, fmt.countVals, fmt.precision, i, n);
    forall k | 0 <= k < n ensures Newlines(cells[k]) == 0 {
      RowTextsAt(data, fmt.best, fmt.axis, fmt.countVals, fmt.precision, i, n, k);
      NumberHasNoNewline(data[i][k], fmt.precision);
      CellHasNoNewline(FormatFixed(data[i][k], fmt.precision), IsBest(data, fmt.best, fmt.axis, fmt.countVals, i, k));
    }
    LineTextNewlines(LabelOf(fmt.labels, i), cells, HlineAfter(fmt.hline, i));
  }

  lemma {:induction false} ConcatNewlines(xs: seq<string>)
    requires forall k :: 0 <= k < |xs| ==> Newlines(xs[k]) == 1
    ensures Newlines(Text.Concat(xs)) == |xs|
    decreases |xs|
  {
    var n := |xs|;
    if n > 0 {
      ConcatNewlines(xs[..n - 1]);
      assert Text.Concat(xs) == Text.Concat(xs[..n - 1]) + xs[n - 1];
      NewlinesAppend(Text.Concat(xs[..n - 1]), xs[n - 1]);
    }
  }

  /**
   * The body is the lines of the rows in row order, each ending with the
   * only newline it holds: one newline-terminated line per row, when no row
   * label holds a newline.
   */
  lemma OneLinePerRow(data: seq<seq<int>>, fmt: LatexFormat)
    requires Rectangular(data)
    requires fmt.labels.Some? ==> forall k :: 0 <= k < |fmt.labels.value| ==> NoNewlineChars(fmt.labels.value[k])
    ensures LatexTable(data, fmt) == Text.Concat(Lines(data, fmt, |data|))
    ensures forall i :: 0 <= i < |data| ==> Newlines(Lines(data, fmt, |data|)[i]) == 1 && EndsInNewline(Lines(data, fmt, |data|)[i])
    ensures Newlines(LatexTable(data, fmt)) == |data|
  {
    var lines := Lines(data, fmt, |data|);
    forall i | 0 <= i < |data| ensures Newlines(lines[i]) == 1 && EndsInNewline(lines[i]) {
      if fmt.labels.Some? && i < |fmt.labels.value| {
        NoNewlineCount(fmt.labels.value[i]);
      }
      LineNewlines(data, fmt, i);
    }
    ConcatNewlines(lines);
  }

  // ---------------------------------------------------------------------
  // Horizontal rules
  // ---------------------------------------------------------------------

  /** `s` ends with a rule and the newline. */
  predicate EndsWithRule(s: string)
  {
    |s| >= 7 && s[|s| - 7..] == "\\hline\n"
  }

  /** The block test is the source's remainder test. */
  lemma HlineAfterIsRemainder(hline: int, i: nat)
    ensures HlineAfter(hline, i) <==> hline > 0 && i % hline == hline - 1
  {
    if hline > 0 {
      BlockStartMod(i, hline);
    }
  }

  /** Line `i` carries a rule exactly when it ends a block of `hline` rows. */
  lemma RuleAfterLine(data: seq<seq<int>>, fmt: LatexFormat, i: nat)
    requires Rectangular(data) && i < |data|
    ensures EndsWithRule(Line(data, fmt, i)) <==> HlineAfter(fmt.hline, i)
  {
    var cells := RowTexts(data, fmt.best, fmt.axis, fmt.countVals, fmt.precision, i, |data[i]|);
    RuleIffLineEnd(LineBody(LabelOf(fmt.labels, i), cells), HlineAfter(fmt.hline, i));
  }

  /** A line ends with a rule exactly when its ending asks for one, whatever comes before. */
  lemma RuleIffLineEnd(body: string, hl: bool)
    ensures EndsWithRule(body + LineEnd(hl)) <==> hl
  {
    var line := body + LineEnd(hl);
    var e := LineEnd(hl);
    if hl {
      assert e[3..] == "\\hline\n";
      assert line[|line| - 7..] == e[3..];
    } else {
      assert e == " \\\\\n";
      assert line[|line| - 2] == e[2] == '\\';
      if |line| >= 7 {
        assert line[|line| - 7..][5] == line[|line| - 2];
      }
    }
  }

  /** A line without its rule is the same whatever `hline` says. */
  lemma LineIgnoresHline(data: seq<seq<int>>, fmt: LatexFormat, i: nat)
    requires Rectangular(data) && i < |data| && !HlineAfter(fmt.hline, i)
    ensures Line(data, fmt, i) == Line(data, fmt.(hline := 0), i)
  {
  }

  /** A non-positive `hline`, or one beyond the row count, draws no rules at all. */
  lemma NoRules(data: seq<seq<int>>, fmt: LatexFormat)
    requires Rectangular(data) && (fmt.hline <= 0 || fmt.hline > |data|)
    ensures forall i :: 0 <= i < |data| ==> !EndsWithRule(Line(data, fmt, i))
    ensures LatexTable(data, fmt) == LatexTable(data, fmt.(hline := 0))
  {
    var n := |data|;
    var lines, bare := Lines(data, fmt, n), Lines(data, fmt.(hline := 0), n);
    forall i | 0 <= i < n ensures !EndsWithRule(Line(data, fmt, i)) && lines[i] == bare[i] {
      RuleAfterLine(data, fmt, i);
      LineIgnoresHline(data, fmt, i);
    }
    Text.SameAtEveryIndex(lines, bare);
  }
}
