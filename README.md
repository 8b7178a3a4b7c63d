# easycli-ui table renderer and spinner, modelled in Dafny

This project models the two presentation helpers of the easycli-ui Go
library and proves properties of the model.

- **Table renderer** (`etable.dfy`, module `ETable`). Column definitions and
  tables are values, as in the Go code: every `With*` builder returns a
  modified copy. The per-cell pipeline (look up the key, apply the value
  function, substitute the empty string, truncate with `"..."`) is the
  function `Cell`. `RowCells` and `RowMatrix` state the row matrix, and
  `Active` and `ActiveTitles` state the header list. The Go loops are
  methods proved against those functions:
  - `GetRowMatrix` is `getRowMatrix`;
  - `Render` is the header and column-offset loop of `Render`;
  - `ExportCsv` is the header loop and the error handling of `ExportCSV`.

  `CellStyle` is the style callback handed to the layout engine.
  `CellStyleOfActiveColumn` proves that cell `(row, k)` gets its style and
  its alignment from the k-th active column.
- **Spinner** (`espinner.dfy`, module `ESpinner`). `SpinnerModel` is a
  datatype. `Update` is a function from a model and a message to a new
  model and a command. `View` picks one of the three status lines.
  `Steps` runs a sequence of messages and is used to state that `done`
  never goes back to false and that a recorded error is never cleared.
- `styles.dfy` (module `Styles`) is an abstract stand-in for the styling
  library: a style is a set of opaque attributes plus an optional
  horizontal alignment. `wrappers.dfy` holds `Option`.

Foreign code becomes function values:
- the value and style callbacks of a column are function-typed fields;
- the CSV writer is a `CsvWriter` whose two functions give the error each call reports;
- the spinner's renderer, its inner spinner's frame and the inner spinner's update step are the `Toolkit` parameter.

Strings are `seq<char>`, and one character stands for one byte and one rune.
Go's `len` counts bytes but the `%.*s` precision counts runes. The two agree
on single-byte text, and the model covers only that case.

The Go code does not bound `maxWidth`, and the model does what the code
does. The precision handed to `%.*s` is `maxWidth - 3`, and Go's `fmt`
rejects a precision below 0 or above 1000000 (`MaxPrecision`): it writes
`%!(BADPREC)`, then the whole value, then `"..."`. So, for a value longer
than `maxWidth`:
- `maxWidth` 1 or 2 gives `%!(BADPREC)` + value + `"..."`;
- `maxWidth` 3 gives just `"..."`;
- `maxWidth` from 4 to 1000003 gives the first `maxWidth - 3` characters
  plus `"..."`;
- `maxWidth` above 1000003 gives `%!(BADPREC)` + value + `"..."` again.

`Truncate` states all four cases.

## Model

| member | source | states |
|---|---|---|
| `ETable.NewTableColumn` | etable/etable.go:100-115 | a new column has the given key and title, is active and left-aligned, has maxWidth -1 and an empty replacement string, and its value and style functions are identities |
| `ETable.TableColumn.WithMaxWidth` | etable/etable.go:120-123 | only maxWidth changes; every other field stays the same |
| `ETable.TableColumn.WithAlignment` | etable/etable.go:128-131 | only the alignment changes; every other field stays the same |
| `ETable.TableColumn.WithActive` | etable/etable.go:136-139 | only the active flag changes; every other field stays the same |
| `ETable.TableColumn.WithEmptyString` | etable/etable.go:145-148 | only the empty-string replacement changes; every other field stays the same |
| `ETable.TableColumn.WithValueFunc` | etable/etable.go:156-161 | only the value function changes; every other field stays the same |
| `ETable.TableColumn.WithStyleFunc` | etable/etable.go:172-177 | only the style function changes; every other field stays the same |
| `ETable.NewTable` | etable/etable.go:192-198 | a new table keeps the given columns, has no rows and uses the default style |
| `ETable.NewTableHasNoBody` | etable/etable.go:192-198 | a new table has an empty row matrix |
| `ETable.Table.WithStyle` | etable/etable.go:203-206 | only the style changes; columns and rows stay the same |
| `ETable.Table.WithRows` | etable/etable.go:214-217 | only the rows change; columns and style stay the same |
| `ETable.Truncate` | etable/etable.go:232-234 | a width <= 0, or a value no longer than the width, leaves the value unchanged; for a width from 3 to 1000003 a longer value becomes its first width-3 characters plus "...", exactly width long; for width 1 or 2, or above 1000003, it becomes "%!(BADPREC)" plus the whole value plus "..." |
| `ETable.Cell` | etable/etable.go:228-234 | with a width from 3 to 1000003 a cell is never longer than the width; a cell longer than a positive width ends in "..." |
| `ETable.CellPipeline` | etable/etable.go:228-231 | a missing key behaves as the empty string; the value function runs before the empty check; a non-empty transformed value is kept and an empty one becomes the replacement string; a cell is empty exactly when both the transformed value and the replacement are empty |
| `ETable.NewColumnShowsRawValue` | etable/etable.go:108-110 | a fresh column shows the raw value of its key, and "" when the key is missing |
| `ETable.PresentationBuildersKeepText` | etable/etable.go:219-240 | alignment, style function and visibility do not change a cell's text |
| `ETable.Active` | etable/etable.go:223-226 | the active-column filter keeps only active columns and never adds any |
| `ETable.ActiveConcat` | etable/etable.go:223-226 | filtering the columns of a concatenation is concatenating their filtered lists |
| `ETable.HideColumn` | etable/etable.go:136-139 | hiding column i removes exactly that column from the active list and keeps the rest in order |
| `ETable.ActiveIndex` | etable/etable.go:249-259 | an active column at index j is the active column whose position is the number of active columns before j |
| `ETable.ActiveTitlesAt` | etable/etable.go:251-259 | every header entry is the title of an active column, the k-th header belonging to the k-th active column |
| `ETable.AllActive` | etable/etable.go:223-226 | with no hidden column the active list is the whole column list |
| `ETable.AllActiveOffsets` | etable/etable.go:249-259 | with no hidden column every offset is zero, so rendered column k is column k |
| `ETable.RowCells` | etable/etable.go:222-236 | a row has exactly one cell per active column |
| `ETable.RowCellsAt` | etable/etable.go:222-236 | the k-th cell of a row is the pipeline output of the k-th active column |
| `ETable.MatrixShape` | etable/etable.go:219-240 | the matrix has one row per input row, in input order; each row has as many cells as there are active columns; cell (i, k) is the k-th active column's pipeline output on row i |
| `ETable.GetRowMatrix` | etable/etable.go:219-240 | the nested loops build exactly the row matrix, one row per input row, each as wide as the active columns |
| `ETable.Render` | etable/etable.go:246-261 | the headers are the active titles in declared order; the rows are the row matrix; the offsets map each rendered column k to columns[k + offsets[k]], the k-th active column, with exactly k active columns before it |
| `ETable.AlignStyle` | etable/etable.go:280-287 | the column's alignment becomes the style's horizontal alignment and no other attribute changes |
| `ETable.CellStyle` | etable/etable.go:270-290 | the style callback for grid position (row, col) carries the alignment of the column that offsets map col to, and on the header row the header style's attributes |
| `ETable.AllActiveCount` | etable/etable.go:223-226 | with no hidden column the active list is as long as the column list |
| `ETable.CellStyleOfActiveColumn` | etable/etable.go:270-290 | for a rendered grid, cell (row, k) takes the header style on the header row and otherwise the k-th active column's style function on the row style and the cell text; that column's alignment is applied last |
| `ETable.StatusTableScenario` | etable/etable.go:166-171 | an ID/Status table whose Status column is bold on "OK" renders two headers and two rows, with "OK" bold and "FAIL" not bold |
| `ETable.ExportCsv` | etable/etable.go:300-320 | first writes the header of active titles; when that write fails it writes nothing else and returns that error unchanged; otherwise it writes the row matrix and returns that write's error |
| `ESpinner.NewSpinner` | espinner/espinner.go:49-60 | a new model keeps the title and task, is not done, has no error, and uses the default styles, the Line animation and a plain inner-spinner style |
| `ESpinner.Update` | espinner/espinner.go:73-91 | Ctrl-C returns the model unchanged with Quit; a stop message sets done, replaces the error only when the message carries one and returns Quit; any other message changes only the inner spinner and passes on its command; title, task and style are always kept; done ends true exactly when it was true or the message is a stop |
| `ESpinner.View` | espinner/espinner.go:93-106 | the output ends in one "\n", preceded by the progress-styled "frame title" while running, the failure-styled "* title ... Failed: err" when done with an error, or the success-styled "* title ... Done" when done without one |
| `ESpinner.SpinnerModel.WithStyle` | espinner/espinner.go:115-118 | only the line styles change |
| `ESpinner.SpinnerModel.WithSpinner` | espinner/espinner.go:123-126 | only the inner spinner's animation changes |
| `ESpinner.SpinnerModel.WithSpinnerStyle` | espinner/espinner.go:131-134 | only the inner spinner's style changes |
| `ESpinner.DoneIsMonotone` | espinner/espinner.go:73-91 | once done, a model stays done after any sequence of messages |
| `ESpinner.ErrorIsSticky` | espinner/espinner.go:80-85 | once an error is recorded, no later sequence of messages clears it |
| `ESpinner.NoStopNoResult` | espinner/espinner.go:73-91 | messages other than stop never change done or the error |
| `ESpinner.InterruptBeforeCompletion` | espinner/espinner.go:76-78 | a fresh model interrupted before any stop message quits unchanged, still running, and its Err is nil |
| `ESpinner.FinalLine` | espinner/espinner.go:80-106 | after a stop with error e, Err is e and the line is the failure line with e; after a stop without an error on a model with no error, Err is nil and the line is the success line |

## Left out

- Table layout, border drawing, padding and ANSI output of the layout engine (etable/etable.go:263-292 apart from the style callback): `Render` stops at the `Grid` it hands over, which holds headers, matrix and offsets, and `CellStyle` is the callback.
- CSV quoting and escaping and the `io.Writer` (etable/etable.go:301, 310-316): the writer is a pair of functions from what is written to the error reported.
- ExportCsv: the CSV writer's internals are not modelled. The two functions of `CsvWriter` stand for the errors that `csv.Writer.Write` and `csv.Writer.WriteAll` return, buffering included. A header error that Go only reports at the flush inside `WriteAll` is the case where `write` returns None and `writeAll` returns an error.
- The exact look of `TableStyleDefault`, `SpinnerStyleDefault` and the hidden border is configuration data for the styling library. They are given as opaque attribute names. `TableStyleMarkdown` is not modelled.
- Alignment values other than the three declared constants: Go's `TableAlignment` is an `int`. Any other value skips the alignment switch. The model's alignment type has exactly the three cases.
- Multi-byte text: each character is one byte and one rune. The byte-versus-rune difference between `len` and `%.*s` is outside the model.
- `Init`, `Spin` and the event loop (espinner/espinner.go:63-71, 137-143) are concurrency and the event loop of the terminal framework. `Steps` applies `Update` to any sequence of messages.
- `Spin` (espinner/espinner.go:137-143) returns `s.err` of the model it handed to the event loop. `Update` has a value receiver, so that field is never written and `Spin` returns nil even when the task fails. The `Err` in `FinalLine` is the error of the model `Update` returns, not what `Spin` returns.
- Aliasing: Go's `Table` stores the caller's columns slice and row maps without copying them (etable/etable.go:192-198, 214-217), so a caller's later in-place edit shows up in the table. The model's `seq` and `map` values cannot alias. The library itself never mutates them.
- The inner spinner's animation, its `View` and its `Update` (espinner/espinner.go:89, 96) are the opaque functions of `Toolkit`.
- `spinnerMsgStop.Error` (espinner/espinner.go:16-18) only forwards.
- Errors are modelled by their message text, which is what `%v` prints. Two distinct errors with the same message look alike.
- `ESpinner.SpinnerModel.Err` (espinner/espinner.go:108-110) only returns the recorded error and has no contract of its own. `InterruptBeforeCompletion` and `FinalLine` state what it returns.
