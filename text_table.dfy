/**
 * The plain-text table of `create_table`: a title, a divider, the headers, a
 * divider, one line per row and a closing divider, every column right-justified
 * to a common width and followed by five spaces.
 */
module TextTables {

  import opened Decimal
  import opened Text

  /** A table value: the integers and strings the renderer prints, and anything else, which it skips. */
  datatype Cell = IntCell(value: int) | StrCell(text: string) | OtherCell

  /** The five spaces that follow every column. */
  const Gap := "     "

  /** A column: `text` right-justified to `just` and the gap. */
  function Field(text: string, just: nat): (r: string)
    ensures |r| == (if just > |text| then just else |text|) + 5
  {
    RJust(text, just) + Gap
  }

  /** What a cell contributes to its line: nothing when its type is not printed. */
  function CellField(c: Cell, just: nat, precision: nat): string
  {
    match c
    case IntCell(v) => Field(FormatFixed(v, precision), just)
    case StrCell(t) => Field(t, just)
    case OtherCell => ""
  }

  /** The fields of a row's cells, in order. */
  function Fields(row: seq<Cell>, just: nat, precision: nat): (r: seq<string>)
    ensures |r| == |row|
  {
    seq(|row|, k requires 0 <= k < |row| => CellField(row[k], just, precision))
  }

  /** The line of a row: its cells' fields, one after the other. */
  function RowLine(row: seq<Cell>, just: nat, precision: nat): string
  {
    Concat(Fields(row, just, precision))
  }

  /** The fields of the headers, in order. */
  function HeaderFields(headers: seq<string>, just: nat): (r: seq<string>)
    ensures |r| == |headers|
  {
    seq(|headers|, k requires 0 <= k < |headers| => Field(headers[k], just))
  }

  /** The header line: every header as a field. */
  function HeaderLine(headers: seq<string>, just: nat): string
  {
    Concat(HeaderFields(headers, just))
  }

  /** `"-" * ((just + 5) * columns - 4)`: as wide as the columns less the last four gap spaces. */
  function Divider(just: nat, columns: nat): string
  {
    Repeat('-', (just + 5) * columns - 4)
  }

  /** The lines of the rows, one per row, in order. */
  function RowLines(rows: seq<seq<Cell>>, just: nat, precision: nat): (r: seq<string>)
    ensures |r| == |rows|
  {
    seq(|rows|, i requires 0 <= i < |rows| => RowLine(rows[i], just, precision))
  }

  /** The whole table. */
  function TextTable(title: string, headers: seq<string>, rows: seq<seq<Cell>>, just: nat, precision: nat): seq<string>
  {
    var divider := Divider(just, |headers|);
    [title, divider, HeaderLine(headers, just), divider] + RowLines(rows, just, precision) + [divider]
  }

  // ---------------------------------------------------------------------
  // The renderer
  // ---------------------------------------------------------------------

  /** The header loop: one field per header. */
  method RenderHeader(headers: seq<string>, just: nat) returns (s: string)
    ensures s == HeaderLine(headers, just)
  {
    s := "";
    for k := 0 to |headers|
      invariant s == HeaderLine(headers[..k], just)
    {
      assert headers[..k + 1] == headers[..k] + [headers[k]];
      HeaderLineSnoc(headers[..k], headers[k], just);
      s := s + RJust(headers[k], just) + Gap;
    }
    assert headers[..|headers|] == headers;
  }

  /** The cell loop of one row: integers in fixed point, strings as they are, anything else skipped. */
  method RenderRow(row: seq<Cell>, just: nat, precision: nat) returns (s: string)
    ensures s == RowLine(row, just, precision)
  {
    s := "";
    for k := 0 to |row|
      invariant s == RowLine(row[..k], just, precision)
    {
      assert row[..k + 1] == row[..k] + [row[k]];
      RowLineSnoc(row[..k], row[k], just, precision);
      match row[k]
      case IntCell(v) =>
        s := s + RJust(FormatFixed(v, precision), just) + Gap;
      case StrCell(t) =>
        s := s + RJust(t, just) + Gap;
      case OtherCell =>
    }
    assert row[..|row|] == row;
  }

  /**
   * `create_table`: the title, the divider, the header line, the divider, a
   * line per row and the divider again. The `hline` argument is accepted and
   * not used.
   */
  method CreateTable(title: string, headers: seq<string>, rows: seq<seq<Cell>>, just: nat, precision: nat, hline: int)
    returns (lines: seq<string>)
    ensures lines == TextTable(title, headers, rows, just, precision)
  {
    lines := [];
    var divider := Repeat('-', (just + 5) * |headers| - 4);
    lines := lines + [title];
    lines := lines + [divider];
    var header := RenderHeader(headers, just);
    lines := lines + [header];
    lines := lines + [divider];
    for i := 0 to |rows|
      invariant lines == [title, divider, header, divider] + RowLines(rows[..i], just, precision)
    {
      var line := RenderRow(rows[i], just, precision);
      RowLinesSnoc(rows, just, precision, i);
      lines := lines + [line];
    }
    assert rows[..|rows|] == rows;
    lines := lines + [divider];
  }

  /** The row lines of one more row are the row lines so far and its line. */
  lemma RowLinesSnoc(rows: seq<seq<Cell>>, just: nat, precision: nat, i: nat)
    requires i < |rows|
    ensures RowLines(rows[..i + 1], just, precision) == RowLines(rows[..i], just, precision) + [RowLine(rows[i], just, precision)]
  {
    var longer, shorter := RowLines(rows[..i + 1], just, precision), RowLines(rows[..i], just, precision);
    assert forall k :: 0 <= k < |longer| ==> longer[k] == (shorter + [RowLine(rows[i], just, precision)])[k];
  }

  // ---------------------------------------------------------------------
  // What the table promises
  // ---------------------------------------------------------------------

  /** Five more lines than rows: title, divider, header, divider, the rows, divider. */
  lemma TableShape(title: string, headers: seq<string>, rows: seq<seq<Cell>>, just: nat, precision: nat)
    ensures var t := TextTable(title, headers, rows, just, precision);
      |t| == |rows| + 5 &&
      t[0] == title && t[2] == HeaderLine(headers, just) &&
      t[1] == Divider(just, |headers|) && t[3] == t[1] && t[|t| - 1] == t[1] &&
      forall i :: 0 <= i < |rows| ==> t[4 + i] == RowLine(rows[i], just, precision)
  {
  }

  /** The divider is dashes only, `(just + 5) * columns - 4` of them, or none when that is not positive. */
  lemma DividerShape(just: nat, columns: nat)
    ensures var d := Divider(just, columns);
      |d| == (if (just + 5) * columns > 4 then (just + 5) * columns - 4 else 0) &&
      forall i :: 0 <= i < |d| ==> d[i] == '-'
  {
    RepeatChars('-', (just + 5) * columns - 4);
  }

  /** A field shows its whole text, after spaces only, and ends with the gap. */
  lemma FieldShape(text: string, just: nat)
    ensures var f := Field(text, just); var n := |f| - 5;
      n == (if just > |text| then just else |text|) &&
      f[n - |text|..n] == text &&
      (forall i :: 0 <= i < n - |text| ==> f[i] == ' ') &&
      f[n..] == Gap
  {
    var r := RJust(text, just);
    RJustPadding(text, just);
    assert Field(text, just)[..|r|] == r;
  }

  /** The cells the renderer prints, in order. */
  function Supported(row: seq<Cell>): (r: seq<Cell>)
    ensures |r| <= |row|
    decreases |row|
  {
    if |row| == 0 then []
    else Supported(row[..|row| - 1]) + (if row[|row| - 1].OtherCell? then [] else [row[|row| - 1]])
  }

  /** One more cell extends a row line by that cell's field. */
  lemma RowLineSnoc(front: seq<Cell>, c: Cell, just: nat, precision: nat)
    ensures RowLine(front + [c], just, precision) == RowLine(front, just, precision) + CellField(c, just, precision)
  {
    var before := Fields(front, just, precision);
    SnocOfPointwise(Fields(front + [c], just, precision), before, CellField(c, just, precision));
    ConcatAppend(before, [CellField(c, just, precision)]);
    ConcatSingle(CellField(c, just, precision));
  }

  /** One more header extends the header line by its field. */
  lemma HeaderLineSnoc(front: seq<string>, h: string, just: nat)
    ensures HeaderLine(front + [h], just) == HeaderLine(front, just) + Field(h, just)
  {
    var before := HeaderFields(front, just);
    SnocOfPointwise(HeaderFields(front + [h], just), before, Field(h, just));
    ConcatAppend(before, [Field(h, just)]);
    ConcatSingle(Field(h, just));
  }

  /** Cells of any other type contribute nothing: a row prints as its supported cells do. */
  lemma {:induction false} SkipsUnsupported(row: seq<Cell>, just: nat, precision: nat)
    ensures RowLine(row, just, precision) == RowLine(Supported(row), just, precision)
    ensures forall k :: 0 <= k < |Supported(row)| ==> !Supported(row)[k].OtherCell?
    decreases |row|
  {
    if |row| > 0 {
      var front, last := row[..|row| - 1], row[|row| - 1];
      assert row == front + [last];
      SkipsUnsupported(front, just, precision);
      RowLineSnoc(front, last, just, precision);
      if last.OtherCell? {
        assert Supported(row) == Supported(front) + [] == Supported(front);
        assert CellField(last, just, precision) == "";
        assert RowLine(row, just, precision) == RowLine(front, just, precision) + "" == RowLine(front, just, precision);
      } else {
        RowLineSnoc(Supported(front), last, just, precision);
      }
    }
  }

  /** A cell's text fits the column width. */
  predicate Fits(c: Cell, just: nat, precision: nat)
  {
    match c
    case IntCell(v) => |FormatFixed(v, precision)| <= just
    case StrCell(t) => |t| <= just
    case OtherCell => true
  }

  /** When every header fits, the header line is `just + 5` characters per column, four more than the divider. */
  lemma {:induction false} HeaderWidth(headers: seq<string>, just: nat)
    requires forall k :: 0 <= k < |headers| ==> |headers[k]| <= just
    ensures |HeaderLine(headers, just)| == (just + 5) * |headers|
    ensures |headers| > 0 ==> |Divider(just, |headers|)| + 4 == |HeaderLine(headers, just)|
    decreases |headers|
  {
    var n := |headers|;
    if n > 0 {
      HeaderWidth(headers[..n - 1], just);
      assert headers == headers[..n - 1] + [headers[n - 1]];
      HeaderLineSnoc(headers[..n - 1], headers[n - 1], just);
      MulStep(just + 5, n - 1);
    }
  }

  /** When every cell fits, a row line is `just + 5` characters per printed cell: it lines up with the headers. */
  lemma {:induction false} RowWidth(row: seq<Cell>, just: nat, precision: nat)
    requires forall k :: 0 <= k < |row| ==> Fits(row[k], just, precision)
    ensures |RowLine(row, just, precision)| == (just + 5) * |Supported(row)|
    decreases |row|
  {
    var n := |row|;
    if n > 0 {
      var front, last := row[..n - 1], row[n - 1];
      assert row == front + [last];
      RowWidth(front, just, precision);
      RowWidthStep(front, last, just, precision, |Supported(front)|);
    }
  }

  /** One more cell that fits adds a column width when it is printed and nothing otherwise. */
  lemma RowWidthStep(front: seq<Cell>, last: Cell, just: nat, precision: nat, m: nat)
    requires |RowLine(front, just, precision)| == (just + 5) * m && m == |Supported(front)| && Fits(last, just, precision)
    ensures |RowLine(front + [last], just, precision)| == (just + 5) * |Supported(front + [last])|
  {
    SupportedSnoc(front, last);
    RowLineSnoc(front, last, just, precision);
    FieldWidth(last, just, precision);
    WidthStep(RowLine(front, just, precision), CellField(last, just, precision), just + 5, m, !last.OtherCell?);
  }

  /** One more cell adds itself to the supported cells when it is printed. */
  lemma SupportedSnoc(front: seq<Cell>, last: Cell)
    ensures |Supported(front + [last])| == |Supported(front)| + (if last.OtherCell? then 0 else 1)
  {
    var row := front + [last];
    assert row[..|row| - 1] == front;
  }

  /** A line of `m` columns of width `w` and one more field, of width `w` when printed. */
  lemma WidthStep(line: string, field: string, w: nat, m: nat, printed: bool)
    requires |line| == w * m && |field| == (if printed then w else 0)
    ensures |line + field| == w * (if printed then m + 1 else m)
  {
    MulStep(w, m);
  }

  /** A cell that fits takes exactly the column width and the gap, or nothing when it is skipped. */
  lemma FieldWidth(c: Cell, just: nat, precision: nat)
    requires Fits(c, just, precision)
    ensures |CellField(c, just, precision)| == if c.OtherCell? then 0 else just + 5
  {
  }

  /** One more column adds one column width. */
  lemma MulStep(width: nat, m: nat)
    ensures width * (m + 1) == width * m + width
  {
  }
}
