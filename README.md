# eplot workbench and time axis, modelled in Dafny

This project models the two pieces of real logic in the eplot egui demo:

- **The time-axis grid and label engine** (`src/demos/custom_axes.rs`). `x_grid` walks the
  integers from the floored lower bound to the ceiled upper bound of the visible range. It tags
  each integer with the coarsest unit it is a multiple of: a day (1440 minutes), an hour (60) or
  five minutes. Integers that are not a multiple of five get no mark. `time_formatter` turns a
  mark into a label. The label is empty outside the five labelled days `[0, 5·1440)`. It is
  `"Day d"` on a whole day and `"h:mm"` otherwise, with the minute zero-padded to two digits.
- **The signal/plot workbench** (`src/tplot.rs`). A `Tplot` holds a registry of signals, an
  ordered list of plot panes and a one-slot drag state. Each frame it seeds the registry lazily
  and shows the registry rows. A dragged row fills the drag slot, and the colour button can
  recolour a row. "Add Plot" appends a default pane. Then each pane is shown in order. A
  release over a pane while a signal is dragged takes the slot and attaches the signal with its
  current colour. The resize handle clamps the height, and a pane whose close button was
  clicked is removed in place.

Files:

- `wrappers.dfy`: `Option`.
- `format.dfy`: Rust's `{}` and `{:02}` for whole numbers, with the reading-back function
  `DecimalValue` that the label round trip uses.
- `custom_axes.dfy`: module `CustomAxes`. It holds `XGrid`, whose loop (`MarksBetween`) is proved against the
  specification function `GridMarks`, plus the day/hour/minute decomposition,
  `is_approx_integer` and the label formatter with its parser partner `ParseTimeLabel`.
- `tplot.dfy`: module `Tplot`. It holds the class `Tplot`, whose fields `signals`, `plots` and
  `draggedSignal` its methods update in place. It also holds the pure specification of one
  frame (`ShowPlotStep`, `VisitPlots`, `Kept`, `LastDragged`) and the lemmas about it.

What the UI reports is passed in as data: a row being dragged, a picked colour, the pointer
over a pane, a release, a close click, a resize delta and the height still available. The
axis bounds are `real`s with an exact floor and ceiling and the saturating `as i32` cast. The
pane height is a `real`.

Behaviour of the code worth knowing:

- Every new pane is titled `"Plot 1"`. The numbering line at `src/tplot.rs:236` is commented
  out, so titles are not unique ids.
- A release that is not over any pane leaves the drag slot as it was. Nothing clears it, so a
  drag can outlive the release (`VisitPlotsEffect`, last ensures).
- Panes are closed by a per-pane close flag during the frame's loop. There is no remove-by-id.
- A registry row's colour can be changed by its colour button (`src/tplot.rs:193-196`).
  Attachments keep the colour the row had when it was dropped.
- When several rows report a drag in one frame, the last row shown wins (`LastDraggedWins`).

## Model

| member | source | states |
|---|---|---|
| `CustomAxes.TruncRem` | src/demos/custom_axes.rs:39-45 | Rust's truncating `%` lies strictly between `-b` and `b` and takes the sign of the dividend. It is zero exactly when the dividend is a multiple of `b` under Euclidean `%`. |
| `CustomAxes.SaturateI32` | src/demos/custom_axes.rs:35-36 | `as i32` stays in the i32 range, is the identity inside it, and saturates to the nearest end outside it. |
| `CustomAxes.FloorI32` | src/demos/custom_axes.rs:35 | The lower grid bound is an i32. It is the `r` with `r <= min < r + 1` whenever the floor fits in i32, `i32::MIN` when the floor is below that range and `i32::MAX` when it is above. |
| `CustomAxes.CeilI32` | src/demos/custom_axes.rs:36 | The upper grid bound is an i32. It is the `r` with `r - 1 < max <= r` whenever the ceiling fits in i32, `i32::MIN` when the ceiling is below that range and `i32::MAX` when it is above. |
| `CustomAxes.StepOf` | src/demos/custom_axes.rs:39-51 | The step is a day iff the value is a multiple of 1440, an hour iff a multiple of 60 but not of 1440, five minutes iff a multiple of 5 but not of 60, and absent iff not a multiple of 5. The value is a multiple of its step. |
| `CustomAxes.MarksAt` | src/demos/custom_axes.rs:38-57 | One loop iteration yields at most one mark. It yields one exactly when the integer is a multiple of 5, and that mark carries the integer itself. Its partner is `StepOf`. |
| `CustomAxes.GridMarks` | src/demos/custom_axes.rs:38-57 | The marks of `lo..=hi` are at most one per integer of the range, and none when the range is empty. The lemmas `GridMarksInRange` to `GridMarksComplete` state the rest. |
| `CustomAxes.XGrid` | src/demos/custom_axes.rs:28-60 | The loop computes `GridMarks(floor, ceil)` of the saturated i32 bounds. Every mark lies in those bounds and also in the real `[floor(min), ceil(max)]`. Values strictly increase. Each step is the coarsest unit of its value and one of {1440, 60, 5}, and each value is a multiple of its step. Every multiple of 5 in range has a mark. |
| `CustomAxes.SaturatedBoundsWithin` | src/demos/custom_axes.rs:34-38 | Saturating the bounds to i32 never lets a mark fall outside the real `[floor(min), ceil(max)]`. Neither end of i32 is a multiple of 5, so a clamped bound carries no mark. |
| `CustomAxes.MarksBetween` | src/demos/custom_axes.rs:38-57 | The loop over `lo..=hi`, with the truncating `%` chain and `continue`, builds exactly `GridMarks(lo, hi)`. |
| `CustomAxes.GridMarksInRange` | src/demos/custom_axes.rs:34-38 | Every mark of `lo..=hi` has its value in `[lo, hi]`. |
| `CustomAxes.GridMarksIncreasing` | src/demos/custom_axes.rs:38-57 | Mark values strictly increase, so no two marks share a value. |
| `CustomAxes.GridMarksSteps` | src/demos/custom_axes.rs:39-56 | Every mark carries the step the classifier gives its value, so integers that are not multiples of 5 produce no mark. |
| `CustomAxes.GridMarksComplete` | src/demos/custom_axes.rs:45-56 | Every multiple of 5 in `[lo, hi]` has a mark. With strict increase, it has exactly one. |
| `CustomAxes.StepHierarchy` | src/demos/custom_axes.rs:39-51 | A mark's step is one of {1440, 60, 5}, divides its value, and is the coarsest such unit (the three iff statements). |
| `CustomAxes.Day` | src/demos/custom_axes.rs:67-69 | The day of a minute is the whole day containing it: `d·1440 <= m < d·1440 + 1440`. Its partner is `DayHourMinute`. |
| `CustomAxes.Hour` | src/demos/custom_axes.rs:71-73 | The hour of the day is in `[0, 24)`. Its partner is `DayHourMinute`. |
| `CustomAxes.Minute` | src/demos/custom_axes.rs:75-77 | The minute of the hour is in `[0, 60)`. Its partner is `DayHourMinute`. |
| `CustomAxes.DayHourMinute` | src/demos/custom_axes.rs:67-77 | `day·1440 + hour·60 + minute = m`, with `0 <= hour < 24` and `0 <= minute < 60`. For in-range `m`, `0 <= day < 5`. |
| `CustomAxes.Trunc` | src/demos/custom_axes.rs:155 | The integer part behind `fract` rounds toward zero: it is at most a non-negative value and at least a negative one, and within 1 of the value. |
| `CustomAxes.IsApproxInteger` | src/demos/custom_axes.rs:154-156 | Every whole number is approximately an integer. Its partner is `ApproxWholeDay`, which gives the converse on whole minutes. |
| `CustomAxes.ApproxWholeDay` | src/demos/custom_axes.rs:154-156 | On whole minutes, `is_approx_integer(m / 1440)` holds exactly when `m` is a multiple of 1440. |
| `CustomAxes.TimeLabel` | src/demos/custom_axes.rs:83-95 | The label is empty exactly when the value lies outside `[0, 5·1440)`. |
| `CustomAxes.DayLabelRoundTrip` | src/demos/custom_axes.rs:90 | `"Day " + {d}` reads back as day `d`. |
| `CustomAxes.TwoDigitMinute` | src/demos/custom_axes.rs:93 | `{m:02}` of a number below 100 is exactly two digits denoting that number. |
| `CustomAxes.ClockLabelRoundTrip` | src/demos/custom_axes.rs:93 | `"{h}:{m:02}"` reads back as hour `h` and minute `m`. |
| `CustomAxes.TimeLabelRoundTrip` | src/demos/custom_axes.rs:83-95 | Parsing a label gives nothing outside the labelled days, the day number (`m / 1440`) on a whole day, and the hour and minute of the day otherwise. |
| `CustomAxes.SameTimeOfDay` | src/demos/custom_axes.rs:67-77 | In-range minutes with the same day label, or the same hour and minute, are the same whole day or the same time of day. |
| `CustomAxes.SameLabelSameTimeOfDay` | src/demos/custom_axes.rs:83-95 | Two minutes with the same non-empty label fall at the same time of day. Two whole days with the same label are equal. |
| `Format.Decimal` | src/demos/custom_axes.rs:90 | `{}` of a whole number is a non-empty string of digits with no leading zero (except `"0"`). |
| `Format.DecimalRoundTrip` | src/demos/custom_axes.rs:90-93 | Reading back the printed digits gives the number printed. |
| `Format.ZeroPadded` | src/demos/custom_axes.rs:93 | `{:02}` has length `max(len, width)`, ends with the digits and is padded with zeros in front. |
| `Format.ZeroPaddedValue` | src/demos/custom_axes.rs:93 | Zero padding keeps a digit string's value. |
| `Tplot.Tplot.constructor` | src/tplot.rs:34-42 | The default workbench has no signals, no panes and no drag, and satisfies the invariant. |
| `Tplot.DefaultPlot` | src/tplot.rs:24-31 | A default pane is titled "Plot 1", has no signals, and is at least the minimum height of 100. |
| `Tplot.SeededSignals` | src/tplot.rs:57-68 | The seeded registry has two differently named rows: row 0 is red ("Step Function") and row 1 is blue ("Sine Wave"). `EnsureSignalsInitialized` states when it is installed. |
| `Tplot.InitialSignals` | src/tplot.rs:56-69 | Seeding gives a non-empty registry and leaves a non-empty one exactly as it was. Its partner is `EnsureSignalsInitialized`. |
| `Tplot.InitialPlots` | src/tplot.rs:70-72 | Seeding gives at least one pane and leaves a non-empty pane list exactly as it was. Its partner is `EnsureSignalsInitialized`. |
| `Tplot.Tplot.EnsureSignalsInitialized` | src/tplot.rs:55-73 | The registry is the two seeded signals if it was empty and unchanged otherwise. One default pane is appended only if there was none. Both are non-empty afterwards, the drag is untouched and the invariant is kept. |
| `Tplot.Tplot.ShowSignal` | src/tplot.rs:185-209 | A picked colour replaces the row's colour. Dragging row `idx` sets the drag slot to `Some(idx)`. Nothing else changes. |
| `Tplot.Recolored` | src/tplot.rs:193-196 | A picked colour replaces the row's colour and the name and curve are kept. With no pick the row is unchanged. `ShowSignal` and `ShowSignals` apply it to the registry. |
| `Tplot.Tplot.ShowSignals` | src/tplot.rs:229-232 | Each row is recoloured by its own report. The drag slot is `LastDragged(rows, old)`. The panes are unchanged. |
| `Tplot.LastDragged` | src/tplot.rs:229-232 | The slot after the rows is the old slot or a valid row index. |
| `Tplot.LastDraggedWins` | src/tplot.rs:204-205 | The last row reporting a drag wins. With no such row the slot is kept. |
| `Tplot.Tplot.AddPlot` | src/tplot.rs:235-238 | Appends a pane titled "Plot 1", height 300, with no signals. Nothing else changes. |
| `Tplot.Resized` | src/tplot.rs:163-167 | The new height is `min(max(h + dy, 100), available)`. It is `h + dy` within the bounds, `available` when `h + dy` exceeds it, 100 when `h + dy` is below 100 and 100 fits, and `available` when 100 does not fit. So it never exceeds the available height and is at least 100 whenever 100 fits. |
| `Tplot.NewHeight` | src/tplot.rs:163-167 | Without a resize drag the height is kept. With one, it is clamped: never above the available height, and at least 100 whenever 100 fits. `ShowPlotStepEffect` and `VisitPlotsShape` apply it to each pane. |
| `Tplot.ShowPlotStep` | src/tplot.rs:138-167 | Showing a pane keeps its title, and the drag slot either stays or becomes `None`. Its partner is `ShowPlotStepEffect`. |
| `Tplot.Tplot.ShowPlot` | src/tplot.rs:75-183 | The shown pane and the drag slot become `ShowPlotStep` of the old pane and slot. The registry and all other panes are unchanged, the invariant is kept, and the close click is returned. |
| `Tplot.ShowPlotStepEffect` | src/tplot.rs:138-167 | With an active drag and a release over the pane, exactly one `ActiveSignal{idx, signals[idx].color}` is appended at the end and the drag slot becomes `None`. Otherwise the pane's signals and the drag slot are unchanged. The height follows the resize clamp and the title is kept. |
| `Tplot.Tplot.ShowPlots` | src/tplot.rs:246-253 | The close loop leaves `Kept(VisitPlots(old plots))`: every pane is shown once, in order, and the panes whose close button was clicked are removed. |
| `Tplot.Tplot.Ui` | src/tplot.rs:220-259 | One frame composes initialisation, the rows, "Add Plot" and the close loop. The invariant that every attachment and the drag slot name a registry row is kept. |
| `Tplot.VisitPlots` | src/tplot.rs:246-253 | Showing the panes keeps their number, and the drag slot either stays or becomes `None`. |
| `Tplot.VisitPlotsEffect` | src/tplot.rs:138-152 | Titles are kept and heights follow the resize clamp. The dragged signal is attached to the first pane released over and to no other. The slot is emptied iff some pane was released over, so a release outside every pane leaves the drag active. |
| `Tplot.VisitPlotsShape` | src/tplot.rs:163-167 | Showing the panes keeps every title and gives each pane the height its own resize handle produces. |
| `Tplot.VisitPlotsDrag` | src/tplot.rs:138-152 | After all panes are shown, the drag slot is `None` iff some pane was released over, and is the old slot otherwise. |
| `Tplot.VisitPlotsAttach` | src/tplot.rs:138-152 | Each pane's attachments gain the dragged signal iff it is the first pane released over, and are unchanged otherwise. |
| `Tplot.OneAttachmentPerRelease` | src/tplot.rs:99-151 | Over all panes, one frame adds exactly one attachment if a drag is active and some pane is released over, and none otherwise. |
| `Tplot.DuplicateDrops` | src/tplot.rs:146-149 | Dropping the same row on the same pane twice leaves two identical entries. There is no de-duplication. |
| `Tplot.OpenBeforeIncreasing` | src/tplot.rs:246-253 | A pane kept by the close loop lands after every kept pane before it. |
| `Tplot.Kept` | src/tplot.rs:246-253 | The close loop never keeps more panes than it was given. Its partners are `KeptLength`, `KeptPlacesOpenPanes` and `KeptOnlyOpenPanes`. |
| `Tplot.KeptLength` | src/tplot.rs:246-253 | The close loop keeps as many panes as were not closed. |
| `Tplot.KeptPlacesOpenPanes` | src/tplot.rs:246-253 | Every pane not closed is kept, at position `OpenBefore(k)`. |
| `Tplot.KeptOnlyOpenPanes` | src/tplot.rs:246-253 | Every kept position holds a pane that was not closed. |
| `Tplot.DropSineWaveTwice` | src/tplot.rs:138-151 | From the default workbench, two frames that drag "Sine Wave" onto the single pane leave two blue attachments of row 1 and an empty drag slot. |
| `Tplot.DragAcrossFrames` | src/tplot.rs:138-151 | Dragging "Sine Wave" in one frame with the pointer held over the pane, then releasing over it in the next frame with no row dragged, leaves one blue attachment of row 1 and an empty drag slot. The slot carries the drag across frames. |
| `Tplot.SinglePaneNoDrop` | src/tplot.rs:138-152 | A frame over one pane without a release over it, a close click or a resize keeps the pane and the drag slot. |
| `Tplot.SinglePaneDrop` | src/tplot.rs:138-152 | A release over the only pane with row `idx` dragged attaches `idx` in its current colour and empties the slot. |

## Left out

- Rendering and interaction are left out: frames, strokes, painters, cursor icons, `Plot::show`,
  `rect.contains`, scroll areas and side panels. Their results enter as the `RowInput` and
  `PlotInput` fields.
- The closed-form sampling functions (`data_fn`, the sine and step curves) are left out. A
  signal carries a `SignalKind` tag instead. `Color32` is an opaque RGBA value.
- `logistic_fn`, the percentage formatter, `is_approx_zero` and the hover label `label_fmt` are
  left out. They are floating-point presentation and do not touch the grid or the workbench
  state.
- CustomAxes.TimeLabel: modelled on whole minutes only. `x_grid` emits only integer values, so
  the formatter's float behaviour on fractional values (and the 1e-6 tolerance around them) is
  not modelled. `Day`, `Hour` and `Minute` are modelled on whole minutes for the same reason.
- CustomAxes.XGrid: the bounds are exact reals. IEEE rounding, NaN and infinities of the
  `f64` bounds are not modelled. The saturating `as i32` cast is.
- Tplot.Resized: the height is an exact real. f32 rounding and NaN propagation of `max`/`min`
  are not modelled.
- Tplot.Tplot.ShowPlots: the UI report of each pane is given up front, one per pane in the order
  shown. A counter of panes shown indexes it, and this counter is not in the source.
- `src/plot.rs` (a tab dispatcher) and the other demos (`charts.rs`, `interaction.rs`,
  `linked_axes.rs`, `items.rs`, `legends.rs`, `markers.rs`) are not part of this model. They only
  configure the plotting library.
- Serialization (`serde` derives, `#[serde(skip)]`) is not part of this model.
