# Member activity dashboard: filtering and layout core

This project models, in Dafny, the logic inside the dashboard's three views:

- **Timeline ("Gantt") chart.** The member data is a map from member id to lanes. Each lane is a product (`task`) holding its lifecycle events and an `expanded` flag. The model covers:
  - the filter that decides which lanes and events are drawn;
  - the name click that toggles a lane's flag;
  - the triangle-indicator click;
  - the rows of the band axis;
  - the span bars and the time domain;
  - the caption's date range;
  - the tooltip's duration in days and its placement on screen.
- **Histogram.** The model covers the bar width, the x and y scales, bar positions and heights, and the legend. The legend shows each event name once, in order of first appearance, at fixed offsets.
- **Data table.** The model covers how the search-box text becomes the table filter (`trim`, then `toLowerCase`) and the reset of an attached paginator to its first page.

Modelling choices:

- Instants are integer milliseconds.
- A date input is `Option<int>`. `None` means the input was empty or did not parse, i.e. the `Date` is invalid.
- Pixel lengths are exact `real`s.
- d3's continuous scales (`scaleTime`, `scaleLinear`) are modelled in `Scales` by their two-point formula. A zero-width domain maps to the middle of the range.
- Module layout:
  - `Wrappers`: `Option`.
  - `Seqs`: filter, map, subsequence, min/max, and first-occurrence de-duplication.
  - `Scales`: the d3 scale formula.
  - `GanttFilter`: the data model and its state changes.
  - `GanttLayout`: axes, extents and caption.
  - `GanttTooltip`: duration and placement.
  - `Histogram`.
  - `DataTable`.

Behaviour of the code worth knowing before reading the model:

- The date filter keeps an event only when the event lies **inside** the bounds (`start >= from` and `end <= to`). An event that merely overlaps the range is dropped.
- The histogram's frequency axis ends at the largest frequency as given. It is **not** rounded up to a multiple of 5.
- The histogram component applies no date-range filter.
- The timeline code has none of the following: point markers for one-day events, alternating shades for overlapping events, or the category-to-colour table. They are not modelled.
- An event row's band label is `"<task> - <event>"`, with spaces around the dash.
- A member that exists but has no events, with a date input left empty, makes the caption code format an undefined date and throw (`RangeText.Throws`).

## Model

| member | source | states |
|---|---|---|
| GanttFilter.FilterTasks | src/app/gantt-chart/gantt-chart.component.ts:450-470 | An empty or unknown member id gives no lanes. Every lane returned has at least one event. Every lane returned passes the name filter (`'all'` or the chosen name). Every event returned lies inside each valid date bound. |
| GanttFilter.SelectTasks | src/app/gantt-chart/gantt-chart.component.ts:460-469 | On a member's lanes: every lane kept has events and the selected name, and every event kept lies inside the valid bounds. |
| GanttFilter.NarrowShape | src/app/gantt-chart/gantt-chart.component.ts:462-467 | The per-lane copy (`Narrow`) keeps the lane's name and flag. Its events are an in-order subsequence of the lane's events. Each event inside the bounds occurs as many times as in the lane, and no other event occurs. |
| GanttFilter.SelectTasksOrderAndCompleteness | src/app/gantt-chart/gantt-chart.component.ts:460-469 | The lanes shown are, in stored order, a subsequence of the narrowed stored lanes. Every stored lane that passes the name test and keeps an event is shown. |
| GanttFilter.SelectTasksIsOneFilter | src/app/gantt-chart/gantt-chart.component.ts:460-469 | The lanes shown equal the narrowed stored lanes filtered once by the name and non-emptiness tests together. So a qualifying lane is shown, in stored order, as often as it is stored. |
| GanttFilter.NoFilterKeepsEveryLane | src/app/gantt-chart/gantt-chart.component.ts:461-469 | With `'all'` and no valid bounds, the result is exactly the stored lanes that have events, unchanged. So an absent bound removes nothing. |
| GanttFilter.FindTask | src/app/gantt-chart/gantt-chart.component.ts:434 | `find` gives the index of the first lane with the name, or `None` exactly when no lane has it. |
| GanttFilter.ToggleTask | src/app/gantt-chart/gantt-chart.component.ts:429-439 | The member ids are unchanged, and other members' lanes are unchanged. An empty or unknown id changes nothing. Lane count, names and events are unchanged. A lane's flag flips exactly when it is the first lane with the clicked name. |
| GanttFilter.FindTaskReadsNames | src/app/gantt-chart/gantt-chart.component.ts:434 | The lane `find` picks depends only on the lane names, not on the flags. |
| GanttFilter.ToggleTwiceRestores | src/app/gantt-chart/gantt-chart.component.ts:429-439 | Clicking the same name twice restores the stored data. The toggle is its own inverse. |
| GanttFilter.ToggleOtherLabelIsNoOp | src/app/gantt-chart/gantt-chart.component.ts:431-438 | A name that matches no lane (an event row's label, for instance) leaves the data unchanged. |
| GanttFilter.ToggleFlipsNamed | src/app/gantt-chart/gantt-chart.component.ts:429-439 | When a member's lane names are unique, toggling a name flips exactly the lanes with that name. |
| GanttFilter.SelectCommutesWithFlip | src/app/gantt-chart/gantt-chart.component.ts:460-469 | The filter never reads the flag, so filtering and then flipping the lanes of a name equals flipping them and then filtering. |
| GanttFilter.ToggleThenRedraw | src/app/gantt-chart/gantt-chart.component.ts:429-439 | When lane names are unique, the lanes redrawn after a name click are the lanes shown before, with that name's flag flipped. |
| GanttFilter.IndicatorClick | src/app/gantt-chart/gantt-chart.component.ts:359-362 | The indicator click flips the flag of the shown copy. The stored data is unchanged. The redraw shows the same lanes as before, so the redrawn lane's flag differs from the clicked copy's flag. |
| GanttFilter.IndicatorClickIsLost | src/app/gantt-chart/gantt-chart.component.ts:359-362 | Concrete case: one expanded lane, no filters. Clicking its indicator gives a collapsed copy, yet the redraw shows the same lane, still expanded. |
| GanttFilter.ShownLaneIsStored | src/app/gantt-chart/gantt-chart.component.ts:460-469 | Every shown lane is the date-narrowed copy of one of the member's stored lanes, so its name is a stored lane's name. |
| GanttFilter.CorrectedIndicatorClick | src/app/gantt-chart/gantt-chart.component.ts:359-362 | The corrected click does what `toggleTask` does with the clicked lane's name. Some stored lane has that name. The first such lane is flipped, and every other lane of the member is unchanged. Member ids and other members' data are unchanged. |
| GanttFilter.CorrectedClickWithRepeatedName | src/app/gantt-chart/gantt-chart.component.ts:429-439 | Concrete case: two lanes share a name and the date filter hides the first. The corrected click on the shown lane flips the hidden one, and the redraw is unchanged. |
| GanttFilter.CorrectedClickIsShown | src/app/gantt-chart/gantt-chart.component.ts:359-362 | When lane names are unique, after the corrected click the redraw shows the clicked lane flipped. Every lane with a different name is unchanged. |
| GanttLayout.YDomainLength | src/app/gantt-chart/gantt-chart.component.ts:142 | The band-axis list (`YDomain`) has one row per lane plus one row per event of each expanded lane. |
| GanttLayout.YDomainAppend | src/app/gantt-chart/gantt-chart.component.ts:142 | The row list of two groups of lanes is the concatenation of their row lists. |
| GanttLayout.LaneBlock | src/app/gantt-chart/gantt-chart.component.ts:142 | Lane `i`'s rows form one contiguous block after the rows of the earlier lanes. The block is the lane name, then (only when expanded) `"<task> - <event>"` for each event in order. |
| GanttLayout.YDomainMembers | src/app/gantt-chart/gantt-chart.component.ts:142 | A label is on the band axis exactly when it is one of some lane's rows. |
| GanttLayout.CollapsedDomain | src/app/gantt-chart/gantt-chart.component.ts:142 | With every lane collapsed, the band axis is just the lane names, in order. |
| GanttLayout.BandDomain | src/app/gantt-chart/gantt-chart.component.ts:141-142 | The band scale has no repeated band. It has a band for every row label and no other bands. The bands follow the order in which each label first appears in the row list, which decides each row's vertical position. |
| GanttLayout.SpanCoversEvents | src/app/gantt-chart/gantt-chart.component.ts:166-168 | A lane's span bar (`SpanStart` to `SpanEnd`) runs from its earliest start to its latest end. It covers every event of the lane, and both ends are reached by some event. |
| GanttLayout.SpanWidthNonNegative | src/app/gantt-chart/gantt-chart.component.ts:166-168 | If the events are well formed (`start <= end`), a lane's span starts no later than it ends, in time. |
| GanttLayout.SpanBarInsidePlot | src/app/gantt-chart/gantt-chart.component.ts:166-168 | For a shown lane with well-formed events, the span bar's pixel ends under the time scale (`TimeX`) lie in `[0, width]`, left end first. So its pixel width `x(max end) - x(min start)` is non-negative. |
| GanttLayout.AllEvents | src/app/gantt-chart/gantt-chart.component.ts:134-135 | `flatMap` over the lanes' events holds exactly the events of the lanes. |
| GanttLayout.DomainCoversEvents | src/app/gantt-chart/gantt-chart.component.ts:134-135 | When defined, the time domain (`TimeDomain`, the d3 min of starts and max of ends) contains every shown event. |
| GanttLayout.SpansInsideDomain | src/app/gantt-chart/gantt-chart.component.ts:134-135 | Every lane's span lies inside the time domain. |
| GanttLayout.DomainDefinedIffShown | src/app/gantt-chart/gantt-chart.component.ts:134-135 | The time domain is defined exactly when the filter shows some lane. |
| GanttLayout.ShownEventsInsidePlot | src/app/gantt-chart/gantt-chart.component.ts:137-139 | Under the time scale (`TimeX`), every shown well-formed event projects into `[0, width]`, with its start no later than its end. |
| GanttLayout.EarliestStart | src/app/gantt-chart/gantt-chart.component.ts:485 | The fallback start is the earliest event start: no event starts before it, and some event starts at it. |
| GanttLayout.LatestEnd | src/app/gantt-chart/gantt-chart.component.ts:488 | The fallback end is the latest event end: no event ends after it, and some event ends at it. |
| GanttLayout.DateRangeText | src/app/gantt-chart/gantt-chart.component.ts:472-489 | The caption is blank exactly for an empty or unknown id. It throws exactly when a bound is missing and the member has no events. A given bound is used as is. A missing start (end) is the earliest start (latest end) over the member's unfiltered events. |
| GanttLayout.ShownEventsAreStored | src/app/gantt-chart/gantt-chart.component.ts:460-467 | Every shown event is one of the member's stored events. |
| GanttLayout.CaptionBracketsShownEvents | src/app/gantt-chart/gantt-chart.component.ts:472-489 | When the caption and the chart read the same filter inputs, as `applyFilters` does, the caption's range contains every event that is shown. |
| GanttLayout.AllEventsSkipsEmptyLanes | src/app/gantt-chart/gantt-chart.component.ts:469 | Dropping lanes with no events leaves the flattened event list unchanged. |
| GanttLayout.CaptionMatchesDomain | src/app/gantt-chart/gantt-chart.component.ts:484-489 | When the caption and the chart read the same inputs, with both dates empty and `'all'` lanes, the caption's range equals the drawn chart's time domain. |
| GanttTooltip.DurationDays | src/app/gantt-chart/gantt-chart.component.ts:177 | `Math.ceil` of the day count: the result is the least whole number of days that covers the interval. |
| GanttTooltip.DurationOfOrderedInstants | src/app/gantt-chart/gantt-chart.component.ts:250 | An ordered event has a non-negative duration, and the duration is zero exactly when start equals end. |
| GanttTooltip.DurationMonotonic | src/app/gantt-chart/gantt-chart.component.ts:177 | A longer interval never reports fewer days. |
| GanttTooltip.LaneDurationCoversEvents | src/app/gantt-chart/gantt-chart.component.ts:175-177 | A lane's tooltip duration is at least the duration of each of its events. |
| GanttTooltip.TooltipPosition | src/app/gantt-chart/gantt-chart.component.ts:214-225 | When the tooltip fits, its left edge is 5 px right of the pointer and it ends at least 15 px inside the viewport; otherwise it ends 10 px left of the pointer. When its height fits, its top is 28 px above the pointer; otherwise it ends 10 px above the pointer. |
| GanttTooltip.TooltipClearsPointer | src/app/gantt-chart/gantt-chart.component.ts:214-219 | The tooltip is horizontally never over the pointer. |
| GanttTooltip.AdjustedIsShifted | src/app/gantt-chart/gantt-chart.component.ts:406-427 | The container-relative placement makes the same decisions as the page placement, shifted by the container's corner. |
| Histogram.BarWidth | src/app/histogram/histogram.component.ts:113 | The bar width is the smaller of a fifth of each record's share of the width and a twentieth of the width. |
| Histogram.BarWidthRegimes | src/app/histogram/histogram.component.ts:113 | Up to four records the width/20 cap decides. From four on, the per-record share decides. The width always lies within `[0, width]`. |
| Histogram.MaxFrequency | src/app/histogram/histogram.component.ts:120 | The y-axis top is the largest frequency: some record has it, and none exceeds it. |
| Histogram.DrawBars | src/app/histogram/histogram.component.ts:98-153 | After clearing the plot, there is exactly one bar per record, whatever was drawn before. Each bar has its record's event and the common bar width, and rests on the x-axis (`y + height == height`). |
| Histogram.BarForInside | src/app/histogram/histogram.component.ts:139-146 | A bar (`BarFor`) for a date inside the extent, with a width between 0 and the plot width, lies horizontally inside the plot. |
| Histogram.BarForOrder | src/app/histogram/histogram.component.ts:139-146 | Of two bars laid out against the same extent, the later date's bar is never left of the earlier one's. |
| Histogram.BarForEnds | src/app/histogram/histogram.component.ts:139-146 | A bar at the earliest date starts at 0 and one at the latest date ends at `width`; with a one-point extent the bar is centred. |
| Histogram.DateInExtent | src/app/histogram/histogram.component.ts:117 | Every record's date lies within the x domain, `d3.extent` of the dates. |
| Histogram.BarsInsidePlot | src/app/histogram/histogram.component.ts:113-117 | Every bar lies horizontally inside the plot. |
| Histogram.BarsInDateOrder | src/app/histogram/histogram.component.ts:115-117 | A record with a later date never has its bar left of an earlier record's bar. |
| Histogram.BarsSpanPlot | src/app/histogram/histogram.component.ts:115-117 | When the dates differ, the earliest record's bar starts at 0 and the latest record's bar ends at `width`. When all dates are equal, every bar is centred. |
| Histogram.BarForHeight | src/app/histogram/histogram.component.ts:119-121 | A bar's height is frequency / top × plot height. For `0 <= frequency <= top` it lies in `[0, height]`, and at the top it equals the plot height. |
| Histogram.BarHeight | src/app/histogram/histogram.component.ts:145-147 | Bar `k`'s height is its record's share of the largest frequency times the plot height. It lies in `[0, height]`, and the tallest record's bar is as tall as the plot. |
| Histogram.LegendNames | src/app/histogram/histogram.component.ts:156 | The legend has every event name exactly once, only names that occur, in order of first occurrence (`Set` insertion order). |
| Histogram.Legend | src/app/histogram/histogram.component.ts:158-176 | Entry `i` is name `i`, 20·`i` px down, with its swatch at `width + 20` and its label 20 px further right. So the 18 px swatches never overlap. Swatches sit right of the plot, and each label starts right of its swatch. |
| DataTable.LowerChar | src/app/data-table/data-table.component.ts:43 | Lower-casing leaves no capital letter and changes nothing but capitals. It maps a capital to its small letter and never changes whether a character is white space. |
| DataTable.ToLower | src/app/data-table/data-table.component.ts:43 | `toLowerCase()` keeps the length and leaves no capital. Position by position, a capital becomes its small letter and every other character is kept, so white space stays exactly where it was. |
| DataTable.TrimStart | src/app/data-table/data-table.component.ts:43 | The result is a suffix of the input: only white space was removed, and the result does not start with white space. |
| DataTable.TrimEnd | src/app/data-table/data-table.component.ts:43 | The result is a prefix of the input: only white space was removed, and the result does not end with white space. |
| DataTable.Trim | src/app/data-table/data-table.component.ts:43 | `trim()` gives a middle slice of the input with only white space outside it and none at its ends. |
| DataTable.Normalize | src/app/data-table/data-table.component.ts:43 | The filter string has no white space at either end and no capital letters. |
| DataTable.NormalizeIdempotent | src/app/data-table/data-table.component.ts:43 | Normalising a filter string again changes nothing. |
| DataTable.TrimIgnoresPadding | src/app/data-table/data-table.component.ts:43 | White space added around a text does not change its trimmed form. |
| DataTable.NormalizeIgnoresPadding | src/app/data-table/data-table.component.ts:43 | Texts that differ only in surrounding white space give the same filter. |
| DataTable.TrimCommutesWithLower | src/app/data-table/data-table.component.ts:43 | Trimming then lower-casing equals lower-casing then trimming. |
| DataTable.NormalizeIgnoresCase | src/app/data-table/data-table.component.ts:43 | Texts that differ only in letter case give the same filter. |
| DataTable.FirstPage | src/app/data-table/data-table.component.ts:46 | `firstPage()` moves to page 0 and keeps the page size and row count. |
| DataTable.ApplyFilter | src/app/data-table/data-table.component.ts:41-48 | Before the data has arrived, the call throws. Otherwise the filter is the normalised text, with no edge white space and no capitals, and the rows are unchanged. A paginator is reset to page 0, with size and length kept by this call, exactly when one is attached; otherwise none appears. |
| DataTable.ReapplyFilter | src/app/data-table/data-table.component.ts:41-48 | Typing the resulting filter string again leaves the table as it is. |
| DataTable.SameFilterForEquivalentText | src/app/data-table/data-table.component.ts:41-48 | Texts that differ only in case and surrounding white space leave the table in the same state. |

## Left out

- Rendering. SVG/DOM construction, d3 selections, axes, styling, transitions, tooltip HTML and the triangle path are all left out. They are UI and library calls.
- Zoom and pan (`d3.zoom`, `rescaleX`, `applyX`, scale and translate extents). The transform arithmetic lives inside d3, which is not part of this model.
- Date parsing and formatting (`new Date`, `d3.timeParse`, `toLocaleDateString`). These are locale-dependent library calls. Parsing is abstracted as `Option<int>`, and the caption keeps the two bounds rather than the formatted text.
- Local time and daylight saving. Instants are plain milliseconds, so a "day" in the duration is always 86,400,000 ms.
- Floating point. All pixel arithmetic uses exact reals, so rounding and `NaN`/`Infinity` are not modelled.
- `parseInt` of the tooltip's CSS size. It is taken as a non-negative whole number; `NaN` is not modelled. Pointer coordinates are whole pixels.
- Member ids that name inherited object properties (`"constructor"` and the like). The guard `!memberId || !memberData[memberId]` is modelled as "non-empty and a key of the map".
- The ordinal colour scales and the fixed colour lists. They do not affect layout.
- The band scale's pixel positions, padding and bandwidth. Only its domain is modelled.
- The shared state service, the routing module, the data service's spreadsheet loading, and the Angular lifecycle (`ngOnInit`, `ngAfterViewInit`, `@ViewChild` timing). These are framework wiring and I/O.
- The resize listener and the width measured from the DOM. Width and height are parameters.
- The mouseover placement at lines 200-201 and 277-278. It is the no-flip branch of `GanttTooltip.TooltipPosition` and is not modelled separately.
- `GanttTooltip.AdjustTooltipPosition` has no contract of its own. It is characterised by `GanttTooltip.AdjustedIsShifted`.
- The table's sorting and the row-matching predicate of the Material data source. These live inside the component library; the model stops at the filter string the table receives.
- `DataTable.LowerChar`: lower-cases only the Latin capitals A–Z, a weaker model than `toLowerCase`. Full Unicode case mapping (accented capitals, Greek, Cyrillic and the like) is a large locale-independent table that is not modelled.
- `DataTable.ApplyFilter`: states the table state right after the call, with the paginator's length as it was. Setting the filter makes the Material data source re-filter its rows afterwards and set the paginator's length to the number of matching rows. That matching lives inside the component library and is not modelled, so the later length is not stated.
- `DataTable.FirstPage`: resets the page index only. `MatPaginator.firstPage` also emits a page event, and does nothing when already on page 0; neither changes the paging state modelled here.
- `GanttFilter.CorrectedIndicatorClick`: flips the first stored lane with the clicked lane's name, as `toggleTask` does. When a member has two lanes with the same name, that can be a lane the date filter hides, and the click then changes nothing on screen (`GanttFilter.CorrectedClickWithRepeatedName`). `GanttFilter.CorrectedClickIsShown` proves the visible flip only for unique lane names.
- `GanttLayout.CaptionBracketsShownEvents` and `GanttLayout.CaptionMatchesDomain`: hold only when the caption and the chart read the same inputs. The caption is recomputed only at start-up (line 77) and in `applyFilters` (line 446). Every other redraw reads the live inputs (lines 451-454): the name click (line 437), the indicator click (line 361) and a window resize (lines 86-93). A date typed without applying, followed by such a redraw, can show events outside the caption's range. The model has no notion of the inputs changing between calls.
- `Histogram.BarWidth`: requires at least one record. With no records JavaScript yields a non-finite share, but no bar then uses the width; `Histogram.DrawBars` returns no bars in that case.
- `Histogram.BarHeight`: is stated one bar at a time, for a record with a non-negative frequency and a positive largest frequency. When the largest frequency is 0, d3's linear scale puts every bar's top in the middle of the axis. No lemma states that case.

## Findings

| source | as written | input that shows it | evidently intended | confidence | as-written member | corrected member |
|---|---|---|---|---|---|---|
| src/app/gantt-chart/gantt-chart.component.ts:359-362 | The indicator's click handler flips `d.expanded` on the object bound to the triangle. That object is the shallow copy `filterTasks` made (`{...task, events}`, line 463). The redraw then calls `filterTasks` again (line 99) on the unchanged stored data. | Any member with a shown lane. Click that lane's triangle: the stored flag is unchanged, and the redrawn lane and triangle look exactly as before. | The click expands or collapses the lane, as the name click (`toggleTask`) does on the stored lane. | not executed | GanttFilter.IndicatorClick, GanttFilter.IndicatorClickIsLost | GanttFilter.CorrectedIndicatorClick, GanttFilter.CorrectedClickIsShown |
