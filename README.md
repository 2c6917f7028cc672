# FlightMAX window: table model and deferred window-mode change

This project models the logic inside one FlightMAX window (`ImguiWidget`, an
X-Plane plugin window drawn with Dear ImGui) and proves properties of it:

- the aircraft table: the row record `tableDataTy`, its case-folding text
  search `contains`, the filter pass that rewrites each row's `filtered`
  flag when the search text is edited, the per-frame heading animation, the
  single-column sort handed to `std::sort`, the row loop that marks at most
  one row for deletion and erases it after the loop, and the "Add" row that
  appends a new aircraft from four staging texts;
- the window-mode state machine: the render pass only records the requested
  positioning mode and schedules a one-shot flight loop; the flight-loop
  callback applies the mode, re-anchors the window when it returns to
  free-floating, clears the request and asks not to be called again;
- the process-wide window counter that numbers windows 1, 2, 3, ….

Files: `options.dfy` (Option), `text.dfy` (`toupper` and `std::string::find`),
`rows.dfy` (row record, search, filter, animation, seeding), `sorting.dfy`
(string compare, truncating heading compare, the comparator, the in-place
sort), `table_edits.dfy` (row-loop inputs, delete mark, erase, add),
`window_mode.dfy` (modes, geometry, mode requests), `widget.dfy` (the shared
`Globals` object and the `ImguiWidget` class).

Modelling choices:

- Strings are `seq<char>`; `toupper` is the C default-locale mapping of ASCII
  `a`–`z`. `std::string::compare` is reduced to its sign (`LexCompare`).
- Headings are `real`. `int(x)` on a float is truncation toward zero
  (`TruncateToInt`).
- The function-static buffers of `buildInterface` (search text, the "Add" row's
  `sTail`, `sType`, `sModel`, `sOwner`, `iHead`, `bLeft`) and the static
  counter `num_win` are shared by all windows; they are fields of one `Globals`
  object handed to every window.
- The host's window state (positioning mode, geometry, whether the flight
  loop exists and is scheduled) is kept as plain fields of `ImguiWidget`:
  `SetWindowPositioningMode`, `GetCurrentWindowGeometry`,
  `SetWindowGeometry`, `XPLMScheduleFlightLoop` and `XPLMDestroyFlightLoop`
  become updates of those fields. `CalcWinCoords` is not part of this model;
  the top-left corner it produces is a parameter of the callback.
- ImGui's widgets become inputs: the edited search text, whether the table is
  drawn, the elapsed frame time `io.DeltaTime`, the sort specs, and which
  row widgets and buttons fired this frame. ImGui's `SpecsDirty` flag is a
  field of the window.
- `std::sort` is modelled by an in-place insertion sort that permutes the
  rows and leaves them sorted whenever the comparator is a strict weak order.
  Which of several equal rows comes first is not modelled.
- `FlightMAX_starter_window.h` is not part of this model. The model assumes
  that a row's `filtered` flag defaults to true (rows are shown until a
  search runs) and that `nextWinPosMode` starts at -1 (no request).
- X-Plane mode values: free-floating 0, popped out 4, VR 5.
- Notes on the code's behaviour:
  - the filter pass runs before the animation (it sits above the table);
  - the heading comparator ties 10.1 with 11.0 as well as with 10.9, since
    `int(10.1 - 11.0)` is 0 (`HeadingTruncationTies`);
  - `contains` upper-cases only the row's texts, not the query
    (`LowerCaseQueryNeverMatches`); the search box supplies upper case;
  - the "Add" row checks the four texts for emptiness without trimming
    blanks, so a text of blanks is accepted.

## Model

| member | source | states |
|---|---|---|
| Text.Upper | src/FlightMAX_starter_window.cpp:146-151 | upper-casing keeps the length and maps each character through C's `toupper` |
| Text.ToUpperInPlace | src/FlightMAX_starter_window.cpp:146-151 | the in-place helper leaves the buffer equal to the upper-cased copy of its old contents |
| Text.FindFrom | src/FlightMAX_starter_window.cpp:240 | `find` returns the first position at or after the start where the needle occurs, or `npos` when there is none |
| Text.FindIsFirstOccurrence | src/FlightMAX_starter_window.cpp:240 | `find` succeeds exactly when the needle is a substring, at its first occurrence |
| Rows.TableContentShown | src/FlightMAX_starter_window.cpp:72-87 | the template `TABLE_CONTENT` holds fourteen aircraft, each heading 0 and shown |
| Rows.AnyTextContainsIff | src/FlightMAX_starter_window.cpp:236-245 | the early-return loop of `contains` is true exactly when some text in its list matches |
| Rows.Contains | src/FlightMAX_starter_window.cpp:233-246 | `contains(q)` holds iff q is a substring of the upper-cased reg, model, typecode or owner |
| Rows.LowerCaseQueryNeverMatches | src/FlightMAX_starter_window.cpp:234-246 | a query with a lower-case letter matches no row, because only the texts are upper-cased |
| Rows.EmptyQueryMatches | src/FlightMAX_starter_window.cpp:240 | the empty query is found in every row |
| Rows.Refiltered | src/FlightMAX_starter_window.cpp:655-660 | the filter pass keeps length, order and every field but `filtered`, and shows every row for the empty search text |
| Rows.RefilteredShowsMatches | src/FlightMAX_starter_window.cpp:650-661 | after the filter pass a row is shown iff the search text is empty or one of its upper-cased texts contains it |
| Rows.HeadingStep | src/FlightMAX_starter_window.cpp:677-683 | a left turn moves the heading by -dt and a right turn by +dt, corrected by 360 exactly when it drops below 0 or reaches 360; from [0,360) with 0 <= dt <= 360 the result stays in [0,360) |
| Rows.Animated | src/FlightMAX_starter_window.cpp:677-683 | a frame of animation gives every row's heading one `HeadingStep` by dt and changes nothing else, keeps length and order, and keeps every heading in [0,360) when 0 <= dt <= 360 |
| Rows.SeedHeading | src/FlightMAX_starter_window.cpp:299-300 | a seeded heading `float(rand() % 3600) / 10` lies in [0,360) |
| Rows.Seeded | src/FlightMAX_starter_window.cpp:297-300 | the window's table is the template with only the headings replaced, all of them in [0,360) |
| Sorting.LexCompare | src/FlightMAX_starter_window.cpp:709-712 | the string comparison is 0 exactly for equal strings |
| Sorting.LexCompareIsDictionaryOrder | src/FlightMAX_starter_window.cpp:709-712 | the string comparison is negative exactly when the first string is a proper prefix or smaller at the first difference |
| Sorting.LexCompareAntisymmetric | src/FlightMAX_starter_window.cpp:709-712 | swapping the strings negates the comparison |
| Sorting.LexCompareTransitive | src/FlightMAX_starter_window.cpp:709-712 | "compares at most equal" is transitive |
| Sorting.Compare | src/FlightMAX_starter_window.cpp:708-714 | the column comparison: for columns 0-3 negative exactly when the first row's text is below the second's in dictionary order and zero exactly for equal texts; by truncated heading difference for column 4; by `turnsLeft` for column 5; zero for any other column |
| Sorting.Less | src/FlightMAX_starter_window.cpp:715-717 | descending order is ascending order with the two rows swapped |
| Sorting.TruncateToInt | src/FlightMAX_starter_window.cpp:713 | `int(x)` truncates toward zero |
| Sorting.HeadingLessIff | src/FlightMAX_starter_window.cpp:713-717 | by heading, a row goes first only when its heading is at least one degree smaller (ascending) or larger (descending) |
| Sorting.HeadingTruncationTies | src/FlightMAX_starter_window.cpp:713-717 | headings 10.9, 10.1 and 11.0 compare pairwise equal in both directions |
| Sorting.RowLessStrictWeakIff | src/FlightMAX_starter_window.cpp:706-718 | the comparator is a strict weak order exactly when the column is not the heading column |
| Sorting.OutOfRangeColumnComparesEqual | src/FlightMAX_starter_window.cpp:708-714 | a column index outside 0..5 compares every pair of rows equal, so any order is sorted |
| Sorting.SortedByColumn | src/FlightMAX_starter_window.cpp:708-717 | a range sorted by the comparator has each row at most equal (ascending) or at least equal (descending) to every later row in the chosen column |
| Sorting.SortInPlace | src/FlightMAX_starter_window.cpp:705-718 | the sort permutes the range and leaves it sorted whenever the comparator is a strict weak order |
| TableEdits.Edited | src/FlightMAX_starter_window.cpp:747-776 | the checkbox flips `turnsLeft`; compass buttons set the heading to 0, 90, 180 or 270, the last drawn one (west, then south, east, north) winning; nothing else changes |
| TableEdits.EditedRows | src/FlightMAX_starter_window.cpp:726-784 | the row loop keeps length and order, leaves hidden rows untouched, and gives every shown row its checkbox and compass-button edit (`Edited`) |
| TableEdits.MarkedRow | src/FlightMAX_starter_window.cpp:722-784 | the remembered row is a shown row whose delete button fired, the last such row; none is remembered iff no shown row's button fired |
| TableEdits.RemoveAt | src/FlightMAX_starter_window.cpp:787-788 | erasing removes one row and keeps the others in order |
| TableEdits.Erased | src/FlightMAX_starter_window.cpp:787-788 | with no marked row the table is unchanged; otherwise exactly the marked row is removed and the others keep their order |
| TableEdits.RowPassRemovesAtMostOne | src/FlightMAX_starter_window.cpp:722-788 | the row pass removes exactly one row iff a shown row was marked, and keeps the order of all others |
| TableEdits.Appended | src/FlightMAX_starter_window.cpp:814-828 | a row is appended at the end only when all four texts are non-empty and "Add" was pressed, with heading `float(iHead)`, `turnsLeft` = `bLeft`, shown; otherwise nothing changes |
| WindowMode.Reanchored | src/FlightMAX_starter_window.cpp:892-901 | the geometry set on return to free-floating keeps width and height and sits at the computed top-left corner |
| WindowMode.Requested | src/FlightMAX_starter_window.cpp:331-362 | a mode is requested only by a drawn button that fired (VR only when VR is enabled and the window is not in VR, pop-in only when popped out or in VR, pop-out only when not popped out); the last such button wins (pop-out over pop-in over VR), and each fired button wins when no later one fired; otherwise the earlier request stands |
| Widget.Globals.constructor | src/FlightMAX_starter_window.cpp:230-231 | the window counter starts at 0; the shared statics start as the code initialises them: `sFilter` (line 648) and `sTail`, `sType`, `sModel`, `sOwner` (line 791) empty, `iHead` 0 (line 792), `bLeft` false (line 793) |
| Widget.IssuedNumbersDistinct | src/FlightMAX_starter_window.cpp:231 | the window numbers issued so far are positive and strictly increasing |
| Widget.ImguiWidget.constructor | src/FlightMAX_starter_window.cpp:248-301 | a new window gets number `num_win + 1` and increments `num_win`; its table is the template with every heading seeded into [0,360); no request is pending and nothing is scheduled |
| Widget.ImguiWidget.Destroy | src/FlightMAX_starter_window.cpp:303-307 | the destructor destroys the flight loop and leaves the window counter alone |
| Widget.ImguiWidget.DrawModeButtons | src/FlightMAX_starter_window.cpp:331-370 | the render pass only overwrites the pending request and schedules the flight loop when one is pending; the mode and geometry are unchanged |
| Widget.ImguiWidget.FlightLoopCallback | src/FlightMAX_starter_window.cpp:883-908 | a pending mode is applied once, the window is re-anchored with its size kept on return to free-floating, the request is cleared and 0 is returned; with nothing pending nothing changes |
| Widget.ImguiWidget.SearchTextEdited | src/FlightMAX_starter_window.cpp:648-661 | an edit of the search text rewrites every row's `filtered` flag as the filter pass prescribes |
| Widget.ImguiWidget.AnimateHeadings | src/FlightMAX_starter_window.cpp:675-683 | every row's heading takes one animation step |
| Widget.ImguiWidget.SortTable | src/FlightMAX_starter_window.cpp:696-720 | with dirty specs, a sort column and two rows or more the table is permuted, sorted by the comparator unless the column is the heading, and the dirty flag is cleared; otherwise nothing changes |
| Widget.ImguiWidget.DrawRows | src/FlightMAX_starter_window.cpp:722-788 | the row loop applies the shown rows' widgets and erases the last marked row after the loop |
| Widget.ImguiWidget.AddRow | src/FlightMAX_starter_window.cpp:790-833 | the "Add" row appends as described and then empties the four texts, sets `iHead` to 0 and `bLeft` to false; otherwise the staging fields are unchanged |
| Widget.ImguiWidget.RenderTable | src/FlightMAX_starter_window.cpp:643-843 | one frame of the table block: filter when edited (the shared search text becomes the edit); then, when the table is drawn, animate, sort (sorted and specs cleared when the sort runs, otherwise the animated table and the flag untouched), row pass with deferred delete, add (staging cleared only when a row was added); a table not drawn is only filtered |

## Left out

- All drawing: ImGui styling, text, buttons, sliders, combo boxes, plots,
  draw lists, fonts, the "Columns" tree node, `PushID_formatted` and
  `ButtonTooltip`. They are calls into a library outside this model.
- Image and texture loading (`loadImage`, `try2load_image`) and font-atlas
  setup and cleanup (`configureImgWindow`, `cleanupAfterImgWindow`): I/O and
  foreign calls.
- The window's decoration, layer, drag area, title and resizing limits set in
  the constructor: host calls with no logic of the window's own.
- The shared drag values `g_dragVal1` and `g_dragVal2`: plain scalars with no
  logic.
- Float rounding: headings are reals, so the float subtraction and the
  conversions between float and double in the animation are exact here.
- `rand()` itself: its draws are a parameter of the constructor.
- The buffer capacities of the ImGui text fields (search 99 characters, tail 9,
  type 4, model and owner 99) and the upper-casing and blank-dropping done by
  the search box as the user types: ImGui enforces them while editing, outside
  this model.
- Any geometry change the host itself makes when the positioning mode
  changes: only the geometry the callback sets is modelled.
- Widget.ImguiWidget.SortTable: does not say which of several rows that compare
  equal comes first, because `std::sort` does not promise it either. For the
  heading column the comparator is not a strict weak order, so the C++ standard
  leaves `std::sort`'s behaviour undefined there; the model assumes that it still
  permutes the rows, and promises nothing about their order.
- Integer widths: numbers are unbounded here. `++num_win` cannot overflow, so
  window numbers never repeat; `float(iHead)` is exact even beyond 2^24; and
  `int(a.heading - b.heading)` never leaves the range of `int`, even for the
  extreme headings the "Add" row accepts.
- ImGui's own setting of the sort-specs dirty flag when a column header is
  clicked: the flag is a field of the window that the sort reads and clears.
