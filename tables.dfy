/**
 * Table formatting: the window arithmetic behind "best value" highlighting,
 * the LaTeX table body renderer and the fixed-width plain-text table.
 */
module Tables {

  import opened Wrappers
  import opened Decimal
  import Text

  /** Which extreme to highlight: `best = -1` (none), `C.MAX = 0`, `C.MIN = 1`. */
  datatype BestMode = NoBest | Max | Min

  /** The axis along which a window slides: `C.COLUMN = 0`, `C.ROW = 1`. */
  datatype Axis = Column | Row

  /** `np.iinfo(int).max` on a 64-bit platform: the "whole axis" sentinel. */
  const MaxInt: int := 0x7FFF_FFFF_FFFF_FFFF

  // ---------------------------------------------------------------------
  // Windows
  // ---------------------------------------------------------------------

  /**
   * `get_idxs`: the half-open window `[prev, next)` of length `countVals`
   * that contains `position`, aligned to a multiple of `countVals`; a
   * non-positive `countVals` stands for the whole axis.
   */
  function GetIdxs(position: int, countVals: int): (r: (int, int))
    ensures r.0 >= 0
    ensures countVals <= 0 ==> r == (0, MaxInt)
    ensures countVals > 0 && position >= 0 ==>
      r.0 <= position < r.1 && r.1 - r.0 == countVals && r.0 % countVals == 0
  {
    if countVals <= 0 then (0, MaxInt)
    else
      AlignDown(position, countVals);
      var next := (position - position % countVals) + countVals;
      var prev := if next - countVals > 0 then next - countVals else 0;
      (prev, next)
  }

  /** `p - p % c` is the multiple of `c` just at or below `p`. */
  lemma AlignDown(p: int, c: int)
    requires c > 0
    ensures (p - p % c) % c == 0 && p - p % c <= p < p - p % c + c
    ensures p >= 0 ==> p - p % c >= 0
  {
    var q := p / c;
    assert p - p % c == q * c;
    MultipleMod(q, c);
  }

  lemma MultipleMod(q: int, c: int)
    requires c > 0
    ensures (q * c) % c == 0
  {
    var d, r := (q * c) / c, (q * c) % c;
    assert q * c == d * c + r && 0 <= r < c;
    assert (q - d) * c == r;
    MultipleBelow(q - d, c);
  }

  /** The only multiple of `c` in `[0, c)` is 0. */
  lemma MultipleBelow(k: int, c: int)
    requires c > 0 && 0 <= k * c < c
    ensures k == 0
  {
  }

  /** The aligned window is unique: any aligned interval of length `countVals` around `position` is the one returned. */
  lemma GetIdxsUnique(position: int, countVals: int, start: int)
    requires countVals > 0 && position >= 0
    requires start % countVals == 0 && start <= position < start + countVals
    ensures GetIdxs(position, countVals) == (start, start + countVals)
  {
    var (prev, next) := GetIdxs(position, countVals);
    var q1, q2 := prev / countVals, start / countVals;
    assert prev == q1 * countVals;
    assert start == q2 * countVals;
    if prev <= start {
      assert (q2 - q1) * countVals == start - prev;
      MultipleBelow(q2 - q1, countVals);
    } else {
      assert (q1 - q2) * countVals == prev - start;
      MultipleBelow(q1 - q2, countVals);
    }
  }

  /** The values pinned by the repository's tests for `get_idxs`. */
  lemma GetIdxsExamples()
    ensures GetIdxs(1, 3) == (0, 3) && GetIdxs(5, 3) == (3, 6) && GetIdxs(1, 5) == (0, 5)
    ensures GetIdxs(1, 8) == (0, 8) && GetIdxs(4, 20) == (0, 20)
    ensures GetIdxs(3, 3) == (3, 6)
  {
  }

  /**
   * The first position of the block of `size` consecutive positions, counted
   * from 0, that holds `position`: the reference definition of the window
   * start, by repeated subtraction instead of remainders.
   */
  function BlockStart(position: nat, size: nat): (b: nat)
    requires size > 0
    ensures b <= position < b + size
    decreases position
  {
    if position < size then 0 else BlockStart(position - size, size) + size
  }

  /** Adding the modulus does not change a remainder. */
  lemma ModShift(p: int, c: int)
    requires c > 0
    ensures (p + c) % c == p % c
  {
    var q, r := p / c, p % c;
    var q2, r2 := (p + c) / c, (p + c) % c;
    assert p + c == (q + 1) * c + r;
    assert p + c == q2 * c + r2;
    if r2 >= r {
      assert (q + 1 - q2) * c == r2 - r;
      MultipleBelow(q + 1 - q2, c);
    } else {
      assert (q2 - q - 1) * c == r - r2;
      MultipleBelow(q2 - q - 1, c);
    }
  }

  /** Block starts are multiples of the block size, and the offset in the block is the remainder. */
  lemma {:induction false} BlockStartMod(position: nat, size: nat)
    requires size > 0
    ensures BlockStart(position, size) % size == 0
    ensures position % size == position - BlockStart(position, size)
    decreases position
  {
    if position >= size {
      BlockStartMod(position - size, size);
      ModShift(BlockStart(position - size, size), size);
      ModShift(position - size, size);
    }
  }

  /** `get_idxs` returns the block of `countVals` positions around `position`. */
  lemma GetIdxsIsBlock(position: nat, countVals: int)
    requires countVals > 0
    ensures GetIdxs(position, countVals) == (BlockStart(position, countVals), BlockStart(position, countVals) + countVals)
  {
    BlockStartMod(position, countVals);
    GetIdxsUnique(position, countVals, BlockStart(position, countVals));
  }

  /** Slicing with the pair `get_idxs` returns, on an axis no longer than `MaxInt`, selects the window range. */
  lemma GetIdxsClamped(position: nat, countVals: int, len: nat)
    requires position < len <= MaxInt
    ensures var (prev, next) := GetIdxs(position, countVals);
      (prev, if next < len then next else len) == WindowRange(position, countVals, len)
  {
    if countVals > 0 {
      GetIdxsIsBlock(position, countVals);
    }
  }

  /**
   * The slice `[lo, hi)` that `table[prev:next]` selects on an axis of
   * length `len`: the block around `position`, its end clamped to `len`;
   * the whole axis when `countVals <= 0`.
   */
  function WindowRange(position: nat, countVals: int, len: nat): (r: (nat, nat))
    requires position < len
    ensures r.0 <= position < r.1 <= len
  {
    if countVals <= 0 then (0, len)
    else
      var lo := BlockStart(position, countVals);
      (lo, if lo + countVals < len then lo + countVals else len)
  }

  /**
   * A dataset the renderer accepts: every row as long as the first (the
   * source relies on a rectangular `np.asanyarray`), and, as for every
   * Python list, no axis longer than `MaxInt`.
   */
  predicate Rectangular(data: seq<seq<int>>)
  {
    |data| <= MaxInt && forall i :: 0 <= i < |data| ==> |data[i]| == |data[0]| <= MaxInt
  }

  /** `table[lo:hi, j]`: rows `lo` to `hi` (exclusive) of column `j`. */
  function ColumnSlice(data: seq<seq<int>>, j: nat, lo: nat, hi: nat): (s: seq<int>)
    requires Rectangular(data) && lo <= hi <= |data| && lo < |data| && j < |data[lo]|
    ensures |s| == hi - lo
  {
    seq(hi - lo, k requires 0 <= k < hi - lo => data[lo + k][j])
  }

  /** Where cell `(i, j)` lies along `axis`, and how long that axis is. */
  function AxisPosition(axis: Axis, i: nat, j: nat): nat
  {
    if axis == Column then i else j
  }

  function AxisLength(data: seq<seq<int>>, axis: Axis, i: nat): nat
    requires i < |data|
  {
    if axis == Column then |data| else |data[i]|
  }

  /** The cell at position `k` of the line through `(i, j)` along `axis`. */
  function AlongAxis(data: seq<seq<int>>, axis: Axis, i: nat, j: nat, k: nat): int
    requires Rectangular(data) && i < |data| && j < |data[i]|
    requires k < AxisLength(data, axis, i)
  {
    if axis == Column then data[k][j] else data[i][k]
  }

  /** The comparison slice for cell `(i, j)`: its window along `axis`, the other index fixed. */
  function Window(data: seq<seq<int>>, axis: Axis, countVals: int, i: nat, j: nat): seq<int>
    requires Rectangular(data) && i < |data| && j < |data[i]|
  {
    var (lo, hi) := WindowRange(AxisPosition(axis, i, j), countVals, AxisLength(data, axis, i));
    if axis == Column then ColumnSlice(data, j, lo, hi) else data[i][lo..hi]
  }

  /** The window holds, in order, the cells of the range `get_idxs` gives along the axis. */
  lemma WindowElements(data: seq<seq<int>>, axis: Axis, countVals: int, i: nat, j: nat)
    requires Rectangular(data) && i < |data| && j < |data[i]|
    ensures var (lo, hi) := WindowRange(AxisPosition(axis, i, j), countVals, AxisLength(data, axis, i));
      var w := Window(data, axis, countVals, i, j);
      |w| == hi - lo && forall k :: lo <= k < hi ==> w[k - lo] == AlongAxis(data, axis, i, j, k)
  {
  }

  /** `np.max`. */
  function SeqMax(s: seq<int>): int
    requires |s| > 0
  {
    if |s| == 1 then s[0]
    else
      var m := SeqMax(s[..|s| - 1]);
      if s[|s| - 1] > m then s[|s| - 1] else m
  }

  /** `np.min`. */
  function SeqMin(s: seq<int>): int
    requires |s| > 0
  {
    if |s| == 1 then s[0]
    else
      var m := SeqMin(s[..|s| - 1]);
      if s[|s| - 1] < m then s[|s| - 1] else m
  }

  lemma {:induction false} SeqMaxIsMax(s: seq<int>)
    requires |s| > 0
    ensures SeqMax(s) in s && forall k :: 0 <= k < |s| ==> s[k] <= SeqMax(s)
  {
    if |s| > 1 {
      SeqMaxIsMax(s[..|s| - 1]);
      assert s[..|s| - 1] + [s[|s| - 1]] == s;
    }
  }

  lemma {:induction false} SeqMinIsMin(s: seq<int>)
    requires |s| > 0
    ensures SeqMin(s) in s && forall k :: 0 <= k < |s| ==> SeqMin(s) <= s[k]
  {
    if |s| > 1 {
      SeqMinIsMin(s[..|s| - 1]);
      assert s[..|s| - 1] + [s[|s| - 1]] == s;
    }
  }

  function Extreme(best: BestMode, s: seq<int>): int
    requires best != NoBest && |s| > 0
  {
    if best == Max then SeqMax(s) else SeqMin(s)
  }

  /** `x` is at least as good as `y` for the highlighting mode. */
  predicate Dominates(best: BestMode, x: int, y: int)
  {
    if best == Max then y <= x else x <= y
  }

  /** Cell `(i, j)` is bolded: it equals the extreme of its comparison window. */
  predicate IsBest(data: seq<seq<int>>, best: BestMode, axis: Axis, countVals: int, i: nat, j: nat)
    requires Rectangular(data) && i < |data| && j < |data[i]|
  {
    best != NoBest && data[i][j] == Extreme(best, Window(data, axis, countVals, i, j))
  }

  /** An element of a slice is its extreme exactly when it dominates every element. */
  lemma ExtremeIffDominates(best: BestMode, w: seq<int>, t: nat)
    requires best != NoBest && t < |w|
    ensures w[t] == Extreme(best, w) <==> forall k :: 0 <= k < |w| ==> Dominates(best, w[t], w[k])
  {
    var e := Extreme(best, w);
    if best == Max {
      SeqMaxIsMax(w);
    } else {
      SeqMinIsMin(w);
    }
    if forall k :: 0 <= k < |w| ==> Dominates(best, w[t], w[k]) {
      var u :| 0 <= u < |w| && w[u] == e;
      assert Dominates(best, w[t], w[u]);
    }
  }

  /** Dominating a window, by its own indexes or by the positions along the axis it covers. */
  lemma DominatesShifted(data: seq<seq<int>>, best: BestMode, axis: Axis, i: nat, j: nat, x: int, w: seq<int>, lo: nat, hi: nat)
    requires Rectangular(data) && i < |data| && j < |data[i]| && hi <= AxisLength(data, axis, i)
    requires |w| == hi - lo && forall k :: lo <= k < hi ==> w[k - lo] == AlongAxis(data, axis, i, j, k)
    ensures (forall k :: 0 <= k < |w| ==> Dominates(best, x, w[k])) <==>
            (forall k :: lo <= k < hi ==> Dominates(best, x, AlongAxis(data, axis, i, j, k)))
  {
    if forall k :: lo <= k < hi ==> Dominates(best, x, AlongAxis(data, axis, i, j, k)) {
      forall k | 0 <= k < |w| ensures Dominates(best, x, w[k]) {
        assert w[k] == AlongAxis(data, axis, i, j, k + lo);
      }
    }
  }

  /**
   * A cell is bolded exactly when it dominates every cell of its window
   * (ties are all bolded); with no highlighting mode nothing is bolded.
   */
  lemma BestIffDominatesWindow(data: seq<seq<int>>, best: BestMode, axis: Axis, countVals: int, i: nat, j: nat)
    requires Rectangular(data) && i < |data| && j < |data[i]|
    ensures best == NoBest ==> !IsBest(data, best, axis, countVals, i, j)
    ensures var (lo, hi) := WindowRange(AxisPosition(axis, i, j), countVals, AxisLength(data, axis, i));
      best != NoBest ==>
        (IsBest(data, best, axis, countVals, i, j) <==>
         forall k :: lo <= k < hi ==> Dominates(best, data[i][j], AlongAxis(data, axis, i, j, k)))
  {
    var (lo, hi) := WindowRange(AxisPosition(axis, i, j), countVals, AxisLength(data, axis, i));
    var w := Window(data, axis, countVals, i, j);
    WindowElements(data, axis, countVals, i, j);
    var p := AxisPosition(axis, i, j);
    assert w[p - lo] == data[i][j];
    if best != NoBest {
      ExtremeIffDominates(best, w, p - lo);
      DominatesShifted(data, best, axis, i, j, data[i][j], w, lo, hi);
    }
  }

  // ---------------------------------------------------------------------
  // LaTeX body
  // ---------------------------------------------------------------------

  /** The keyword arguments of `print_latex_table` after `dataset`. */
  datatype LatexFormat = LatexFormat(
    labels: Option<seq<string>>,
    best: BestMode,
    axis: Axis,
    countVals: int,
    precision: nat,
    hline: int)

  /** `\bf{t}` when `bold`, else `t`. */
  function Wrap(t: string, bold: bool): string
  {
    if bold then "\\bf{" + t + "}" else t
  }

  /** Cell `(i, j)` as printed: its fixed-point text, in bold when it is best. */
  function CellText(data: seq<seq<int>>, best: BestMode, axis: Axis, countVals: int, precision: nat, i: nat, j: nat): string
    requires Rectangular(data) && i < |data| && j < |data[i]|
  {
    Wrap(FormatFixed(data[i][j], precision), IsBest(data, best, axis, countVals, i, j))
  }

  /** The printed texts of the first `n` cells of row `i`. */
  function RowTexts(data: seq<seq<int>>, best: BestMode, axis: Axis, countVals: int, precision: nat, i: nat, n: nat): (r: seq<string>)
    requires Rectangular(data) && i < |data| && n <= |data[i]|
    ensures |r| == n
  {
    seq(n, k requires 0 <= k < n => CellText(data, best, axis, countVals, precision, i, k))
  }

  /** The `k`-th cell text of a row is the text of cell `k`. */
  lemma RowTextsAt(data: seq<seq<int>>, best: BestMode, axis: Axis, countVals: int, precision: nat, i: nat, n: nat, k: nat)
    requires Rectangular(data) && i < |data| && k < n <= |data[i]|
    ensures RowTexts(data, best, axis, countVals, precision, i, n)[k] == CellText(data, best, axis, countVals, precision, i, k)
  {
  }

  /** One more cell text extends the row's texts by that text. */
  lemma RowTextsSnoc(data: seq<seq<int>>, best: BestMode, axis: Axis, countVals: int, precision: nat, i: nat, n: nat)
    requires Rectangular(data) && i < |data| && n < |data[i]|
    ensures RowTexts(data, best, axis, countVals, precision, i, n + 1)
         == RowTexts(data, best, axis, countVals, precision, i, n) + [CellText(data, best, axis, countVals, precision, i, n)]
  {
    var longer := RowTexts(data, best, axis, countVals, precision, i, n + 1);
    var shorter := RowTexts(data, best, axis, countVals, precision, i, n);
    Text.SnocOfPointwise(longer, shorter, CellText(data, best, axis, countVals, precision, i, n));
  }

  /** `" & ".join(xs)`. */
  function Join(xs: seq<string>): string
  {
    if |xs| == 0 then ""
    else if |xs| == 1 then xs[0]
    else Join(xs[..|xs| - 1]) + " & " + xs[|xs| - 1]
  }

  /** What the cell loop accumulates: every cell followed by `" & "`. */
  function Terminated(xs: seq<string>): string
  {
    if |xs| == 0 then "" else Terminated(xs[..|xs| - 1]) + xs[|xs| - 1] + " & "
  }

  /** The rowLabel of row `i`, or nothing when there are no labels or too few. */
  function LabelOf(labels: Option<seq<string>>, i: nat): string
  {
    if labels.Some? && i < |labels.value| then labels.value[i] else ""
  }

  /** A horizontal rule follows row `i` when it is the last row of a block of `hline` rows. */
  predicate HlineAfter(hline: int, i: nat)
  {
    hline > 0 && i - BlockStart(i, hline) == hline - 1
  }

  /**
   * A line of the body: the label, `" & "` and the cells joined by `" & "`
   * (just the label when the row is empty), then ` \\\\`, `\\hline` when
   * due, and a newline.
   */
  function LineText(rowLabel: string, cells: seq<string>, hl: bool): string
  {
    LineBody(rowLabel, cells) + LineEnd(hl)
  }

  /** The end of a line: ` \\\\`, `\\hline` when due, and a newline. */
  function LineEnd(hl: bool): string
  {
    " \\\\" + (if hl then "\\hline" else "") + "\n"
  }

  /** The label and the cells, joined by `" & "`. */
  function LineBody(rowLabel: string, cells: seq<string>): string
  {
    rowLabel + (if |cells| == 0 then "" else " & " + Join(cells))
  }

  /** Line `i` of the body. */
  function Line(data: seq<seq<int>>, fmt: LatexFormat, i: nat): string
    requires Rectangular(data) && i < |data|
  {
    LineText(LabelOf(fmt.labels, i),
             RowTexts(data, fmt.best, fmt.axis, fmt.countVals, fmt.precision, i, |data[i]|),
             HlineAfter(fmt.hline, i))
  }

  /** The lines of the first `n` rows, in row order. */
  function Lines(data: seq<seq<int>>, fmt: LatexFormat, n: nat): (r: seq<string>)
    requires Rectangular(data) && n <= |data|
    ensures |r| == n
  {
    seq(n, i requires 0 <= i < n => Line(data, fmt, i))
  }

  /** The body text of the first `n` rows. */
  function LatexRows(data: seq<seq<int>>, fmt: LatexFormat, n: nat): string
    requires Rectangular(data) && n <= |data|
  {
    Text.Concat(Lines(data, fmt, n))
  }

  /** The first `n + 1` rows are the first `n` followed by line `n`. */
  lemma RowsSnoc(data: seq<seq<int>>, fmt: LatexFormat, n: nat)
    requires Rectangular(data) && n < |data|
    ensures LatexRows(data, fmt, n + 1) == LatexRows(data, fmt, n) + Line(data, fmt, n)
  {
    var longer := Lines(data, fmt, n + 1);
    Text.SnocOfPointwise(longer, Lines(data, fmt, n), Line(data, fmt, n));
    assert longer[..n] == Lines(data, fmt, n);
  }

  /** The whole body: one line per row. */
  function LatexTable(data: seq<seq<int>>, fmt: LatexFormat): string
    requires Rectangular(data)
  {
    LatexRows(data, fmt, |data|)
  }

  lemma {:induction false} TerminatedIsJoin(xs: seq<string>)
    requires |xs| > 0
    ensures Terminated(xs) == Join(xs) + " & "
    decreases |xs|
  {
    if |xs| > 1 {
      TerminatedIsJoin(xs[..|xs| - 1]);
      assert xs[..|xs| - 1][..|xs| - 2] == xs[..|xs| - 2];
    } else {
      assert xs[..0] == [];
    }
  }

  lemma TerminatedSnoc(xs: seq<string>, x: string)
    ensures Terminated(xs + [x]) == Terminated(xs) + x + " & "
  {
    assert (xs + [x])[..|xs|] == xs;
  }

  lemma CellAppended(start: string, prior: seq<string>, cell: string)
    ensures start + Terminated(prior) + cell + " & " == start + Terminated(prior + [cell])
  {
    TerminatedSnoc(prior, cell);
  }

  /** Appending one cell the way the cell loop does appends its wrapped text. */
  lemma CellStep(before: string, t: string, bold: bool)
    ensures (if bold then before + "\\bf{" + t + "}" else before + t) + " & " == before + Wrap(t, bold) + " & "
  {
  }

  /** Closing a row: `s[:-2]` drops the last `"& "`, then ` \\\\`, the optional `\\hline` and the newline follow. */
  lemma LabelAndTerminated(rowLabel: string, cells: seq<string>)
    ensures rowLabel + " & " + Terminated(cells) == LineBody(rowLabel, cells) + " & "
  {
    if |cells| > 0 {
      TerminatedIsJoin(cells);
      assert rowLabel + " & " + (Join(cells) + " & ") == rowLabel + (" & " + Join(cells)) + " & ";
    }
  }

  lemma DropAmpersand(x: string)
    ensures (x + " & ")[..|x| + 1] == x + " "
  {
  }

  lemma RowClosed(done: string, rowLabel: string, cells: seq<string>, hl: bool, before: string, after: string)
    requires before == done + rowLabel + " & " + Terminated(cells)
    requires after == (if hl then before[..|before| - 2] + "\\\\" + "\\hline" else before[..|before| - 2] + "\\\\") + "\n"
    ensures after == done + LineText(rowLabel, cells, hl)
  {
    var body := LineBody(rowLabel, cells);
    LabelAndTerminated(rowLabel, cells);
    assert before == done + (rowLabel + " & " + Terminated(cells));
    CloseLine(done + body, hl, before, after);
    assert done + (body + LineEnd(hl)) == (done + body) + LineEnd(hl);
  }

  /** Trimming the `"& "` off `x + " & "` and ending the line leaves `x` and the line's ending. */
  lemma CloseLine(x: string, hl: bool, before: string, after: string)
    requires before == x + " & "
    requires after == (if hl then before[..|before| - 2] + "\\\\" + "\\hline" else before[..|before| - 2] + "\\\\") + "\n"
    ensures after == x + LineEnd(hl)
  {
    DropAmpersand(x);
    var stem := before[..|before| - 2];
    assert stem == x + " ";
    var tail := (if hl then "\\\\" + "\\hline" else "\\\\") + "\n";
    assert after == stem + tail;
    assert LineEnd(hl) == " " + tail;
  }

  /** The end of a row: drop the trailing `"& "`, add `\\\\`, maybe `\\hline`, and the newline. */
  method CloseRow(t: string, hline: int, i: nat) returns (s: string)
    requires |t| >= 2
    ensures s == (if HlineAfter(hline, i) then t[..|t| - 2] + "\\\\" + "\\hline" else t[..|t| - 2] + "\\\\") + "\n"
  {
    if hline > 0 {
      BlockStartMod(i, hline);
    }
    s := t[..|t| - 2];
    s := s + "\\\\";
    if hline > 0 && i % hline == hline - 1 {
      s := s + "\\hline";
    }
    s := s + "\n";
  }

  /**
   * The highlighting test of the cell loop: slice the window that
   * `get_idxs` gives along the axis, and compare the cell with its extreme.
   */
  method BestCell(data: seq<seq<int>>, best: BestMode, axis: Axis, countVals: int, i: nat, j: nat) returns (bold: bool)
    requires Rectangular(data) && i < |data| && j < |data[i]|
    ensures bold == IsBest(data, best, axis, countVals, i, j)
  {
    bold := false;
    if best != NoBest {
      if axis == Column {
        var (prev, next) := GetIdxs(i, countVals);
        var hi := if next < |data| then next else |data|;
        GetIdxsClamped(i, countVals, |data|);
        bold := data[i][j] == Extreme(best, ColumnSlice(data, j, prev, hi));
      } else {
        var (prev, next) := GetIdxs(j, countVals);
        var hi := if next < |data[i]| then next else |data[i]|;
        GetIdxsClamped(j, countVals, |data[i]|);
        bold := data[i][j] == Extreme(best, data[i][prev..hi]);
      }
    }
  }

  /** One cell of the inner loop: the number, in `\\bf{...}` when it is a best value, then the separator. */
  method AppendCell(s: string, data: seq<seq<int>>, fmt: LatexFormat, i: nat, j: nat) returns (r: string)
    requires Rectangular(data) && i < |data| && j < |data[i]|
    ensures r == s + CellText(data, fmt.best, fmt.axis, fmt.countVals, fmt.precision, i, j) + " & "
  {
    var bold := BestCell(data, fmt.best, fmt.axis, fmt.countVals, i, j);
    r := s;
    if bold {
      r := r + "\\bf{";
    }
    r := r + FormatFixed(data[i][j], fmt.precision);
    if bold {
      r := r + "}";
    }
    r := r + " & ";
    CellStep(s, FormatFixed(data[i][j], fmt.precision), bold);
  }

  /**
   * The body of the row loop of `print_latex_table`: the label cell, one
   * cell per value, then the row end, all appended to the accumulator.
   */
  method AppendRow(acc: string, data: seq<seq<int>>, fmt: LatexFormat, i: nat) returns (s: string)
    requires Rectangular(data) && i < |data|
    ensures s == acc + Line(data, fmt, i)
  {
    var row := data[i];
    ghost var rowLabel := LabelOf(fmt.labels, i);
    if fmt.labels.Some? && i < |fmt.labels.value| {
      s := acc + fmt.labels.value[i] + " & ";
    } else {
      s := acc + " & ";
    }
    ghost var start := s;
    assert start == acc + rowLabel + " & ";
    assert s == start + Terminated([]);
    for j := 0 to |row|
      invariant s == start + Terminated(RowTexts(data, fmt.best, fmt.axis, fmt.countVals, fmt.precision, i, j))
    {
      ghost var prior := RowTexts(data, fmt.best, fmt.axis, fmt.countVals, fmt.precision, i, j);
      ghost var cell := CellText(data, fmt.best, fmt.axis, fmt.countVals, fmt.precision, i, j);
      s := AppendCell(s, data, fmt, i, j);
      RowTextsSnoc(data, fmt.best, fmt.axis, fmt.countVals, fmt.precision, i, j);
      CellAppended(start, prior, cell);
    }
    ghost var cells := RowTexts(data, fmt.best, fmt.axis, fmt.countVals, fmt.precision, i, |row|);
    ghost var before := s;
    s := CloseRow(s, fmt.hline, i);
    RowClosed(acc, rowLabel, cells, HlineAfter(fmt.hline, i), before, s);
  }

  /** `print_latex_table`: the rows of the dataset, one line each, in order. */
  method PrintLatexTable(data: seq<seq<int>>, fmt: LatexFormat) returns (s: string)
    requires Rectangular(data)
    ensures s == LatexTable(data, fmt)
  {
    s := "";
    for i := 0 to |data|
      invariant s == LatexRows(data, fmt, i)
    {
      s := AppendRow(s, data, fmt, i);
      RowsSnoc(data, fmt, i);
    }
  }
}
