# utils_unibs tables and font sizes in Dafny

This project models two pieces of the `utils_unibs` helper library and proves what they promise.

**Table formatting.** This is `utils_unibs/tables.py`.
- `get_idxs` computes the aligned comparison window of a position along an axis.
- `print_latex_table` renders the LaTeX body of an integer dataset. The cells are joined by ` & ` and each row ends with ` \\`. It adds an optional `\hline` after each block of `hline` rows, and `\bf{...}` around every cell equal to the maximum or minimum of its window.
- `create_table` renders a fixed-width plain-text table as a list of lines.

Both renderers are imperative methods: `Tables.PrintLatexTable` and `TextTables.CreateTable`. Each is proved equal to a specification function (`Tables.LatexTable` and `TextTables.TextTable`), and the lemmas in `LatexProperties` and `TextTables` state the properties of those functions.

**Font-size configuration.** This is `utils_unibs/plots.py`.
- `CharSize` is the character-size singleton. Its three setters keep `1 <= small < medium < big`.
- `PlotConfig` holds the module state:
  - the sizes;
  - the `DIMENSIONS` bindings table, which maps each plot element to a size name (or, for `latex`, to `true`/`false`);
  - the plotting library's parameters, modelled as a map from parameter name to size plus the `text.usetex` flag.
- Its methods model `_update_dimension`, `update_dimensions`, `set_size` and `set_dimension`. `GetSize` and `GetLabel` are the two lookups.
- The main invariant is `Synced`: every parameter agrees with its binding. It is re-established by `set_size` and kept by `set_dimension`.

Modules:
- `Wrappers`: the `Option` type.
- `Text`: the models of `lower`, `strip` and `rjust`.
- `Decimal`: fixed-point rendering of integers, and Python's `int()` on strings.
- `Tables`, `LatexProperties` and `LatexExamples`: the LaTeX body.
- `TextTables`: the plain-text table.
- `Plots`: the font-size configuration.

The tests in `utils_unibs/tests/table_test.py:69-89` expect LaTeX escaping: the cell `1%` printed as `1\%`, and labels such as `a>b` printed as `a\textgreater{}b`. The code escapes nothing, and the model follows the code:
- Row labels are inserted as they are, without formatting or escaping (`utils_unibs/tables.py:62`).
- Every cell goes through the fixed-point format of `utils_unibs/tables.py:85` and nothing else, so no cell is escaped.

Two more points where the model follows the code as written:
- A row with no cells is printed as its label followed by ` \\`: the `s[:-2]` trim removes the space and ampersand that follow the label (`utils_unibs/tables.py:91`).
- `set_dimension` looks up the key exactly as given, without lower-casing or stripping it (`utils_unibs/plots.py:237`).

## Model

| member | source | states |
|---|---|---|
| Tables.GetIdxs | utils_unibs/tables.py:5-25 | A non-positive window length gives `(0, MAXINT)`. Otherwise, for a non-negative position, `prev <= position < next`, `next - prev == count_vals` and `prev` is a multiple of `count_vals`. |
| Tables.GetIdxsUnique | utils_unibs/tables.py:22-23 | The returned window is the only aligned interval of length `count_vals` that contains the position. A position on a multiple starts its own window. |
| Tables.GetIdxsIsBlock | utils_unibs/tables.py:22-23 | The remainder arithmetic agrees with the reference definition: the block found by repeated subtraction. |
| Tables.GetIdxsExamples | utils_unibs/tests/table_test.py:7-15 | The pinned values: `(1,3)` gives `(0,3)`, `(5,3)` gives `(3,6)`, `(1,5)` gives `(0,5)`, `(1,8)` gives `(0,8)` and `(4,20)` gives `(0,20)`; also `(3,3)` gives `(3,6)`. |
| Tables.GetIdxsClamped | utils_unibs/tables.py:71-78 | Slicing by the returned pair, with the end clamped to the axis length, selects exactly the window range. This holds for the whole-axis sentinel too. |
| Tables.WindowElements | utils_unibs/tables.py:72-78 | The comparison slice holds, in order, the cells of the window along the axis, with the other index fixed. |
| Tables.SeqMaxIsMax | utils_unibs/tables.py:53-54 | `np.max` of a non-empty slice is one of its elements and no element exceeds it. |
| Tables.SeqMinIsMin | utils_unibs/tables.py:55-56 | `np.min` of a non-empty slice is one of its elements and no element is below it. |
| Tables.BestIffDominatesWindow | utils_unibs/tables.py:69-89 | In both directions: a cell is bolded exactly when it is at least as good as every cell of its window along the axis, so ties are all bolded. With `best = -1` nothing is bolded. |
| Tables.BestCell | utils_unibs/tables.py:69-83 | The bolding test of the cell loop (call `get_idxs`, slice, compare with the extremum) agrees with the window definition. |
| Tables.AppendCell | utils_unibs/tables.py:81-90 | The cell loop body appends the cell's fixed-point text, wrapped in `\bf{...}` when it is best, then ` & `. |
| Tables.TerminatedIsJoin | utils_unibs/tables.py:68-91 | Cells each followed by ` & ` are the ` & `-join of the cells followed by one ` & `. |
| Tables.RowClosed | utils_unibs/tables.py:91-95 | Trimming two characters, then adding `\\`, the optional `\hline` and the newline, turns the accumulated row into exactly its line. |
| Tables.CloseRow | utils_unibs/tables.py:91-95 | The row end is the trimmed accumulator followed by `\\`. `\hline` follows exactly when the row closes a block of `hline` rows. Then comes the newline. |
| Tables.AppendRow | utils_unibs/tables.py:60-95 | One pass of the row loop appends exactly that row's line. The line is the label or nothing, ` & `, the joined cells, and the line end. |
| Tables.PrintLatexTable | utils_unibs/tables.py:28-96 | The result is the concatenation of one line per dataset row, in row order. |
| LatexProperties.OneLinePerRow | utils_unibs/tables.py:58-95 | Each row's line ends in the only newline it holds, so the body has exactly one newline per row. This assumes no label holds a newline. |
| LatexProperties.UnboldLine | utils_unibs/tables.py:81-89 | Deleting the bold wrappers from one line gives that line as printed with `best = -1`. |
| LatexProperties.UnboldTable | utils_unibs/tables.py:81-89 | Deleting every `\bf{` and `}` from the body gives the body printed with `best = -1`, with the same data, labels, precision and `hline`. This needs labels free of `}` and of backslash followed by `b`. |
| LatexProperties.HlineAfterIsRemainder | utils_unibs/tables.py:93-94 | The block test used by the model is the source's test `hline > 0 and i % hline == hline - 1`. |
| LatexProperties.RuleAfterLine | utils_unibs/tables.py:93-94 | In both directions: line `i` ends with `\hline` and the newline exactly when `hline > 0` and row `i` closes a block. |
| LatexProperties.LineIgnoresHline | utils_unibs/tables.py:93-94 | A line without a rule is the same as with `hline = 0`. |
| LatexProperties.NoRules | utils_unibs/tables.py:93-94 | A non-positive `hline`, or one larger than the row count, draws no rule, and the body equals the body for `hline = 0`. |
| LatexExamples.FixedExamples | utils_unibs/tests/table_test.py:34-35 | `1` is written `1.000` at precision 3 and `1` at precision 0. |
| LatexExamples.HlineExamples | utils_unibs/tests/table_test.py:26-33 | On two rows: rules after both rows for `hline = 1`, after the second only for `hline = 2`, and none for `0`, `-1` or `5`. |
| LatexExamples.RowBestExample | utils_unibs/tests/table_test.py:36-42 | Maximum along rows in windows of two on `[[1,2,3],[1,2,3]]` bolds the second and third cells of each row, not the first. |
| LatexExamples.ColumnBestExample | utils_unibs/tests/table_test.py:43-63 | Maximum or minimum over whole columns (`count_vals` of `-1` or `0`) bolds every cell of `[[1,2,3],[1,2,3]]`. |
| LatexExamples.PlainLine | utils_unibs/tests/table_test.py:64-67 | Without highlighting at precision 0, a row of `[1,2,3]` is its label, ` & 1 & 2 & 3`, ` \\`, the optional `\hline` and the newline. |
| TextTables.CreateTable | utils_unibs/tables.py:99-138 | The lines are the title, the divider, the header line, the divider, one line per row in order, and the divider. |
| TextTables.RenderHeader | utils_unibs/tables.py:119-122 | The header loop yields every header right-justified to `just`, followed by five spaces. |
| TextTables.RenderRow | utils_unibs/tables.py:125-136 | The cell loop yields the fields of the row's cells, in order. Integers are in fixed point, strings as they are, and other types give nothing. |
| TextTables.TableShape | utils_unibs/tables.py:115-138 | The table has `len(rows) + 5` lines. Lines 1, 3 and the last are the same divider, line 2 is the header line, and line `4 + i` is row `i`. |
| TextTables.DividerShape | utils_unibs/tables.py:116 | The divider is `(just + 5) * len(headers) - 4` dashes, or empty when that is not positive. |
| TextTables.Field | utils_unibs/tables.py:133 | A field is as wide as `just` or its text, whichever is larger, plus five. |
| TextTables.FieldShape | utils_unibs/tables.py:121 | A field holds its whole text, never truncated, after spaces only, and ends with five spaces. |
| TextTables.SkipsUnsupported | utils_unibs/tables.py:127-135 | A row prints exactly as its integer and string cells do, so any other cell contributes nothing. |
| TextTables.HeaderWidth | utils_unibs/tables.py:116-122 | When every header fits, the header line is `just + 5` characters per column, four more than the divider. |
| TextTables.RowWidth | utils_unibs/tables.py:125-136 | When every cell fits, a row line is `just + 5` characters per printed cell. |
| Decimal.FormatFixed | utils_unibs/tables.py:85 | The fixed-point text is as long as `str(v)`, plus one for the point and `precision` for the decimals when `precision > 0`. |
| Decimal.FormatFixedShape | utils_unibs/tables.py:85 | The text is `str(v)`, then a point and exactly `precision` zeros when `precision > 0`. It holds only digits, `-` and `.`, and a point exactly when `precision > 0`. |
| Decimal.FormatFixedInjective | utils_unibs/tables.py:85 | Distinct integers are written differently at any precision. |
| Decimal.ParseInt | utils_unibs/plots.py:121-125 | In both directions: `int()` succeeds exactly on an optional sign followed by one or more digits, between white space. A negative result comes only from a leading `-`. |
| Decimal.ParseIntOfIntToString | utils_unibs/plots.py:121-122 | `int(str(v)) == v` for every integer. |
| Decimal.ParseIntIgnoresPadding | utils_unibs/plots.py:121-122 | `int()` of a string is unchanged by surrounding white space. |
| Text.Normalize | utils_unibs/plots.py:118-119 | `lower().strip()` leaves no white space at either end. |
| Text.NormalizeNoUpper | utils_unibs/plots.py:118-119 | `lower().strip()` leaves no upper-case letter. |
| Text.NormalizeIdempotent | utils_unibs/plots.py:255-256 | Normalising a normalised name changes nothing. |
| Text.NormalizeIgnoresCase | utils_unibs/plots.py:186-190 | Normalisation ignores case. |
| Text.NormalizeIgnoresPadding | utils_unibs/plots.py:186-190 | Normalisation ignores surrounding white space. |
| Text.RJust | utils_unibs/tables.py:121 | `rjust(width)` is as long as `width` or its text, whichever is larger. |
| Text.RJustPadding | utils_unibs/tables.py:121 | `rjust` ends with the whole text and pads with spaces in front only. |
| Plots.NormalizeArg | utils_unibs/plots.py:118-119 | Strings are normalised and stay strings. Any other argument is kept as it is. |
| Plots.NormalizeArgIdempotent | utils_unibs/plots.py:255-256 | Normalising an argument twice is normalising it once. |
| Plots.SizeForNormalized | utils_unibs/plots.py:189-194 | `get_size` on a size already normalised by `_update_dimension` answers as on the raw size. |
| Plots.GetLabel | utils_unibs/plots.py:268-285 | In both directions: a label is returned exactly when labels are given and the index is in range, and it is `labels[index]`. Otherwise the result is `None`. |
| Plots.CharSize.constructor | utils_unibs/plots.py:17-19 | The sizes start at 10, 15 and 20, which are ordered. |
| Plots.CharSize.SetSmall | utils_unibs/plots.py:40-53 | The setter accepts exactly `1 <= value < medium`. It then sets `small` only; on refusal nothing changes. The order is kept. |
| Plots.CharSize.SetMedium | utils_unibs/plots.py:64-77 | The setter accepts exactly `small < value < big`. It then sets `medium` only; on refusal nothing changes. The order is kept. |
| Plots.CharSize.SetBig | utils_unibs/plots.py:88-101 | The setter accepts exactly `value > medium`. It then sets `big` only; on refusal nothing changes. The order is kept. |
| Plots.PlotConfig.constructor | utils_unibs/plots.py:548 | At import the sizes are 10/15/20 and the table is the default one, and `update_dimensions()` applies that table to the given parameters. Afterwards `usetex` is off, `font.size` is 10, the axes-title and figure-title sizes are 20 and the other size parameters 15. Every parameter is in line with its binding and the state is valid. |
| Plots.DefaultBindingsApplied | utils_unibs/plots.py:152-170 | For any sizes and any starting parameters, applying the default table turns `usetex` off and sets `font.size` to the small size, the axes-title and figure-title sizes to the big size and the other five size parameters to the medium size. |
| Plots.UpdateSyncs | utils_unibs/plots.py:165-170 | `update_dimensions()` on a valid table leaves every element in line with its binding. |
| Plots.SyncedValue | utils_unibs/plots.py:193-213 | An element in line with a binding to `small`, `medium` or `big` holds that size, and `latex` bound to `true` or `false` holds that flag. |
| Plots.DefaultName | utils_unibs/plots.py:153-161 | The default value of each element: `small` for `font`, `big` for the two titles, `false` for `latex` and `medium` otherwise. |
| Plots.PlotConfig.UpdateDimension | utils_unibs/plots.py:173-223 | Returns true exactly when the normalised element is known and its value is accepted. It then writes that element's parameter only. On false nothing changes. The bindings table is never changed. |
| Plots.PlotConfig.UpdateDimensions | utils_unibs/plots.py:165-170 | Applies the binding of every element of the table, in the table's order, to the parameters. |
| Plots.PlotConfig.SetSize | utils_unibs/plots.py:107-149 | `set_size` returns true exactly when the value converts, the name is a size and the setter accepts. It then changes that size only and reapplies every binding, leaving every parameter in line with its binding. On false nothing changes. |
| Plots.PlotConfig.SetDimension | utils_unibs/plots.py:226-242 | `set_dimension` succeeds exactly when the raw key is in the table and `_update_dimension` accepts the value. It then stores the raw value under that key. On failure the table and parameters are unchanged. Validity and sync are kept. |
| Plots.UpdateAcceptsStrings | utils_unibs/plots.py:186-215 | Only a string element name and a string value are ever accepted. |
| Plots.SizeUpdateKeepsOrder | utils_unibs/plots.py:126-146 | From ordered sizes, `set_size` succeeds exactly when the value is an integer, the name is a size and the sizes with that one replaced are still ordered. It then replaces that size only. |
| Plots.PlotConfig.GetSize | utils_unibs/plots.py:245-265 | In both directions: an answer comes exactly for the three normalised size names, and `None` stands for the `ValueError`. The answer is one of the three current sizes, and at least 1 when the sizes are ordered. |
| Plots.SizeUpdate | utils_unibs/plots.py:118-146 | Success needs a value that converts and a known size name. The sizes then differ from the old ones in the named size only, which takes the converted value. From ordered sizes the result is ordered. |
| Plots.DimensionUpdate | utils_unibs/plots.py:186-223 | In both directions: succeeds exactly when the normalised element is known and accepts the value (`true`/`false` for `latex`, a size name otherwise). Only strings are accepted. `latex` sets the flag and leaves the parameters. Any other element keeps the flag and writes the named size to its own parameter. |
| Plots.IntValue | utils_unibs/plots.py:121-125 | An integer converts to itself. A string converts exactly when it is an optional sign and digits between white space; otherwise the `ValueError` gives `None`. |
| Plots.GetSizeOrdered | utils_unibs/plots.py:245-265 | `get_size` answers exactly for the three normalised names, with a value of at least 1. `small` answers below `big`. |
| Plots.NamesIgnoreCaseAndPadding | utils_unibs/plots.py:186-190 | Size names, element names and the `latex` flag are recognised regardless of case and surrounding white space. |
| Plots.DimensionNameRoundTrip | utils_unibs/plots.py:169-170 | Every key of the table names its own element, looked up as it is or normalised. |
| Plots.DimensionNamedIsName | utils_unibs/plots.py:237 | Only the exact key names an element in the raw lookup. |
| Plots.RcKeyInjective | utils_unibs/plots.py:193-208 | Distinct size elements write distinct parameters. |
| Plots.ApplyBindingSyncs | utils_unibs/plots.py:169-170 | Applying a valid binding brings its element in line and keeps every other element that was in line. |
| Plots.OtherBindingKept | utils_unibs/plots.py:193-213 | Applying one element's binding does not disturb another element's parameter. |
| Plots.ApplyValidBinding | utils_unibs/plots.py:192-213 | A valid binding always applies. `latex` sets the flag, and any other element sets its own parameter to the size it names. |
| Plots.BindingsSync | utils_unibs/plots.py:165-170 | After the bindings of a list of elements are applied in turn, every listed element is in line with its binding. |
| Plots.EveryDimensionListed | utils_unibs/plots.py:152-170 | `update_dimensions` visits every element. |
| Plots.AcceptedBinds | utils_unibs/plots.py:237-240 | A value that `_update_dimension` accepts is a valid binding for that element. |
| Plots.RebindKeepsSync | utils_unibs/plots.py:237-240 | Rebinding an existing key to an accepted value keeps the table valid and the parameters in line with it. |
| Plots.DefaultBinding | utils_unibs/plots.py:153-161 | Each default value is one its element accepts. |
| Plots.DefaultDimensionsValid | utils_unibs/plots.py:152-162 | The default table binds all nine elements to accepted values. |
| Plots.SetSizeRefusals | utils_unibs/tests/plots_test.py:12-45 | From 10/15/20 these are refused: the name `4` (not a string), `small` at 15 or 0, `medium` at 20 or 10, and `big` at 15. |
| Plots.UnknownSizeName | utils_unibs/tests/plots_test.py:13 | An unknown size name is refused. |
| Plots.NonIntegerValue | utils_unibs/tests/plots_test.py:15 | The value `"s"` does not convert, so the update is refused. |
| Plots.PaddedSizeName | utils_unibs/tests/plots_test.py:21-22 | `" SMALL  "` with `"4"` is accepted and sets small to 4 only. |
| Plots.ParseFour | utils_unibs/tests/plots_test.py:21 | `int("4") == 4`. |
| Plots.UnknownDimension | utils_unibs/tests/plots_test.py:71 | `"axes  title"`, with two spaces, names no element. |
| Plots.PaddedDimension | utils_unibs/tests/plots_test.py:55-56 | `" FonT    "` with `"sMaLL"` is accepted and sets `font.size` to the small size only. |
| Plots.LatexTrue | utils_unibs/tests/plots_test.py:131-132 | `" LAtEx    "` with `"TrUe"` sets `text.usetex` and nothing else. |
| Plots.LatexFalse | utils_unibs/tests/plots_test.py:133-134 | `latex` with `"  FALSE  "` clears `text.usetex` and nothing else. |
| Plots.LatexRefusesSize | utils_unibs/tests/plots_test.py:135 | `latex` refuses a size name. |

## Left out

- Float cells in both renderers (`utils_unibs/tables.py:85`, `utils_unibs/tables.py:130-131`) are left out, and so is the formatting of floats. Cells are integers.
- TextTables.CreateTable: Python formats an integer cell with `f` by converting it to a float. Integers beyond 2^53 are then rounded (9007199254740993 prints as 9007199254740992), and integers above about 1.8e308 raise `OverflowError`. The model prints every integer exactly.
- Tables.PrintLatexTable: precision is a natural number. The `ValueError` that a negative precision raises at `utils_unibs/tables.py:85`, on any table with a cell, is not modelled.
- Tables.PrintLatexTable: NumPy turns each integer into a 64-bit value before formatting. The model writes integers of any size, so it does not capture overflow or the rounding of huge values.
- The whole-axis sentinel is the 64-bit `np.iinfo(int).max` of common platforms. Every axis is bounded by it, as Python lists are. Platforms with a different `int` width are not modelled.
- Ragged datasets (`np.asanyarray` on rows of different lengths) are left out: the LaTeX renderer requires a rectangular dataset.
- `best` and `axis` values outside `{-1, 0, 1}` and `{0, 1}` are not modelled: they are datatypes with exactly those cases.
- LaTeX escaping and `transpose_latex_table` are left out: neither is implemented in `utils_unibs/tables.py`.
- TextTables.CreateTable: `just` and `precision` are natural numbers. Negative widths and precisions, which Python accepts or rejects in its own ways, are not modelled.
- TextTables.CreateTable: headers are strings. `str(h)` of other header types is not modelled.
- TextTables.CreateTable: the `hline` argument is accepted and unused, as in the source.
- Text.Lower maps the ASCII letters only. Unicode case mapping is not modelled. White space is the set of characters Python's `isspace` accepts.
- Decimal.ParseInt accepts an optional sign and ASCII digits between white space. Underscores between digits and non-ASCII digits, which Python's `int()` also accepts, are not modelled.
- Plots.IntValue: `int()` of a float (truncation) and of other objects is not modelled. Arguments are strings or integers.
- Plots.GetLabel: negative indexes, which Python counts from the end, are not modelled. Label indexes are natural numbers.
- Plots.PlotConfig: the plotting library's parameters are a map from parameter name to size plus the `text.usetex` flag. Their values before import are constructor parameters, because they come from the plotting library. The constructor then applies the import-time `update_dimensions()` (`utils_unibs/plots.py:548`), so only parameters other than the eight size parameters and `text.usetex` keep their given values. The real `plt.rc` calls and their effects on drawing are left out.
- Plots.PlotConfig: the bindings table is keyed by element rather than by string. The table only ever holds the nine keys, because `set_dimension` checks the raw key. That raw check is modelled by exact lookup of the unnormalised text.
- Plots.CharSize is modelled as one object owned by the configuration. The singleton mechanics of `__new__` are left out.
- The diagnostic `print` and `warnings.warn` calls are left out. They do not affect results.
- The drawing functions of `utils_unibs/plots.py` (`get_line_plot`, `get_hist_plot`, `_line_plot`, `_set_axis_ticks`) are left out: they are plotting and file output.
- `utils_unibs/files.py` is not part of this model: it is file I/O through `open`, `json` and `pickle`.
- `utils_unibs/constants.py` is used only for its values: the size and element names, and the `best`/`axis` codes.
- Tables.PrintLatexTable and TextTables.CreateTable are split into helper methods (one per loop body), so that each loop's proof stays small. The loops and their order are those of the source.
