/**
 * The outputs the repository's tests pin for the LaTeX body, on the
 * dataset `[[1, 2, 3], [1, 2, 3]]`: which cells are bolded, where the
 * rules fall, how numbers are written and what a plain line looks like.
 */
module LatexExamples {

  import opened Decimal
  import opened Tables
  import Text

  /** An integer at precision 3 gets three zero decimals; at precision 0 none and no point. */
  lemma FixedExamples()
    ensures FormatFixed(1, 3) == "1.000" && FormatFixed(1, 0) == "1"
  {
  }

  /** Rules after every row for `hline = 1`, after the second for `hline = 2`, and none for 0, -1 or 5 on two rows. */
  lemma HlineExamples(i: nat)
    requires i < 2
    ensures HlineAfter(1, 0) && HlineAfter(1, 1) && !HlineAfter(2, 0) && HlineAfter(2, 1)
    ensures !HlineAfter(0, i) && !HlineAfter(-1, i) && !HlineAfter(5, i)
  {
    assert BlockStart(1, 1) == 1;
    assert BlockStart(i, 5) == 0;
  }

  /** Maximum along rows in windows of two: `1 & \bf{2} & \bf{3}` on either row. */
  lemma RowBestExample(data: seq<seq<int>>, i: nat)
    requires data == [[1, 2, 3], [1, 2, 3]] && i < 2
    ensures !IsBest(data, Max, Row, 2, i, 0) && IsBest(data, Max, Row, 2, i, 1) && IsBest(data, Max, Row, 2, i, 2)
  {
    var row := data[i];
    assert row == [1, 2, 3];
    assert Window(data, Row, 2, i, 0) == row[0..2] == [1, 2];
    assert Window(data, Row, 2, i, 1) == row[0..2];
    assert BlockStart(2, 2) == 2;
    assert Window(data, Row, 2, i, 2) == row[2..3] == [3];
    assert SeqMax([1, 2]) == 2;
  }

  /** Maximum or minimum over whole columns of equal values: every cell is bolded. */
  lemma ColumnBestExample(data: seq<seq<int>>, best: BestMode, countVals: int, i: nat, j: nat)
    requires data == [[1, 2, 3], [1, 2, 3]] && i < 2 && j < 3 && best != NoBest && countVals <= 0
    ensures IsBest(data, best, Column, countVals, i, j)
  {
    var w := Window(data, Column, countVals, i, j);
    assert w == [data[0][j], data[1][j]];
    assert data[0][j] == data[1][j] == data[i][j];
    assert w[..1] == [w[0]];
    assert SeqMax(w) == SeqMin(w) == data[i][j];
  }

  /** Three cells joined by `" & "`. */
  lemma JoinThree(a: string, b: string, c: string)
    ensures Join([a, b, c]) == a + " & " + b + " & " + c
  {
    assert [a, b, c][..2] == [a, b];
    assert [a, b][..1] == [a];
    assert Join([a, b]) == a + " & " + b;
    assert Join([a, b, c]) == Join([a, b]) + " & " + c;
  }

  /** Without highlighting at precision 0, a row is its label, ` & 1 & 2 & 3` and the line ending. */
  lemma PlainLine(data: seq<seq<int>>, fmt: LatexFormat, i: nat)
    requires data == [[1, 2, 3], [1, 2, 3]] && fmt.best == NoBest && fmt.precision == 0 && i < 2
    ensures Line(data, fmt, i) == LabelOf(fmt.labels, i) + " & 1 & 2 & 3" + LineEnd(HlineAfter(fmt.hline, i))
  {
    var cells := RowTexts(data, fmt.best, fmt.axis, fmt.countVals, fmt.precision, i, 3);
    RowTextsAt(data, fmt.best, fmt.axis, fmt.countVals, fmt.precision, i, 3, 0);
    RowTextsAt(data, fmt.best, fmt.axis, fmt.countVals, fmt.precision, i, 3, 1);
    RowTextsAt(data, fmt.best, fmt.axis, fmt.countVals, fmt.precision, i, 3, 2);
    Text.SameAtEveryIndex(cells, ["1", "2", "3"]);
    JoinThree("1", "2", "3");
  }
}
