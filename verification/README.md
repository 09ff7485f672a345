# yourlife life grid, modelled in Dafny

The page draws a life as a grid of cells, one per year, month or week of a
chosen lifespan. Cells before today are "lived" and the rest are not. Each
side is painted by activities: a "spent" activity colours a run of past
cells, and a "future" activity colours a run of future cells, sized by its
hours per day. A totals line, a progress text and a bar report the lived and
remaining time. Annotations with arrows label the first and last cells, the
rows, and custom birthdays.

The model covers the pure core of this page:

- the calculations hook: base progress, unit counts, activity shares, the
  run-length colour walk, and the hook's row layout;
- the page's input handlers: lifespan, hours, rate per day, the activity
  list edits, and the shape button;
- the page's own progress figures: `calculateProgress` and
  `getProgressStats`;
- the grid layout: the per-view table, the clamped cell size, cell
  placement and the annotation list;
- cell fills: plain colour, or gradient stops;
- annotation geometry: placement tables, arrows, line splitting and marker
  ids;
- the progress text's unit word.

The clock is never read. The lived time (whole days, or a real amount in
the view's unit) is a parameter. JavaScript numbers are modelled as Dafny
`real`s. `NaN` and `±Infinity` appear only where the source divides by
zero or sums an undefined rate: see `Numeric.Num` and the `Option` rates.

Modules:

| file | module | models |
|---|---|---|
| wrappers.dfy | Wrappers | `Option` |
| numeric.dfy | Numeric | `Math.floor/ceil/round/min/max`, JavaScript `%`, IEEE infinities and NaN for division by zero |
| text.dfy | Text | decimal rendering, `parseInt`, one-character `split`/`join`/`replace` |
| activities.dfy | Lists, Activities | filtering, the activity record, the side of the grid an activity paints |
| life_grid_calculations.dfy | LifeGridCalculations | `src/hooks/useLifeGridCalculations.js` |
| life_grid_inputs.dfy | LifeGridInputs | rate, lifespan and hours inputs, shape button, unit suffix |
| activity_list.dfy | ActivityList | the activity handlers of `src/components/LifeGrid.js` |
| life_grid_progress.dfy | LifeGridProgress | `calculateProgress` and `getProgressStats` of `src/components/LifeGrid.js` |
| grid_shapes.dfy | GridShapes | `createGridCell` of `src/utils/gridShapes.js` |
| dynamic_annotations.dfy | DynamicAnnotations | `src/utils/dynamicAnnotations.js` |
| grid_creation.dfy | GridCreation | `src/utils/gridCreation.js` and the annotation filter of the page |
| progress_text.dfy | ProgressText | `src/components/ProgressText.js` |

## Model

| member | source | states |
|---|---|---|
| Numeric.Round | src/hooks/useLifeGridCalculations.js:66 | `Math.round`: the integer within half of x, a tie going up |
| Text.ParseIntRoundTrip | src/components/LifeGrid.js:196-197 | `parseInt` reads back the decimal rendering of every integer, negative ones included |
| Text.Split | src/utils/dynamicAnnotations.js:77 | splitting gives at least one piece, and no piece contains the separator |
| Text.JoinSplit | src/utils/dynamicAnnotations.js:77-84 | the lines of an annotation, joined with newlines, are its text: splitting loses nothing |
| Text.SplitCount | src/utils/dynamicAnnotations.js:77-84 | an annotation gets one line per newline, plus one |
| Text.RemoveFirst | src/utils/dynamicAnnotations.js:91 | `replace('#', '')` removes exactly the first '#' (the text before it and after it are kept), so length and count drop by one; without a '#' nothing changes |
| Text.FirstIndex | src/utils/dynamicAnnotations.js:91 | the position of the first occurrence: the character is there and not before it |
| Text.RemoveFirstOfTwo | src/utils/dynamicAnnotations.js:91 | of two '#', only the first is removed: "a#b#" becomes "ab#" |
| Text.ParseInt | src/components/LifeGrid.js:196 | `parseInt` of blank text, or of text whose first non-space character is neither a sign nor a digit, is NaN; a negative result needs a leading '-' |
| Lists.FilterConcat | src/components/LifeGrid.js:297 | filtering a concatenation filters each part |
| Activities.SideActivities | src/hooks/useLifeGridCalculations.js:95-97 | the side list holds exactly the spent activities (past) or the future ones (future), in list order |
| LifeGridCalculations.FutureHoursPerDay | src/hooks/useLifeGridCalculations.js:11-12 | the sum is NaN exactly when some future activity has no rate; with no future activity it is 0; one entry contributes its rate if future and 0 otherwise |
| LifeGridCalculations.FutureHoursPerDayConcat | src/hooks/useLifeGridCalculations.js:11-12 | the sum over a concatenation is the NaN-absorbing sum of the parts' sums, which with the one-entry case fixes every sum |
| LifeGridCalculations.ExtraDays | src/hooks/useLifeGridCalculations.js:13 | extra days exist only when future activities claim over 24 h a day; they are then the ceiling of the remaining days times the excess ratio |
| LifeGridCalculations.CalculateBaseProgress | src/hooks/useLifeGridCalculations.js:4-21 | lived days pass through; `hasExtraDays` holds exactly when the total exceeds lifespan·365, which needs over 24 committed hours and days still to live; with h > 24 committed hours the total grows by the ceiling of the days left times h/24 − 1 |
| LifeGridCalculations.DoubleClaimDoublesLife | src/hooks/useLifeGridCalculations.js:11-14 | 48 committed hours a day stretch one unlived year of 365 days to 730 |
| LifeGridCalculations.UnitCounts | src/hooks/useLifeGridCalculations.js:27-63 | hours and days are exact; weeks (7), months (30) and years (365) floor the lived part and ceil the remaining and total parts; lived plus remaining is the total or one short of it |
| LifeGridCalculations.Rounded | src/hooks/useLifeGridCalculations.js:45-47 | in units of d days: the floor of the lived days, the ceiling of the remaining days and the ceiling of the total |
| LifeGridCalculations.CalculateProgress | src/hooks/useLifeGridCalculations.js:23-72 | counts are those of the stretched lifespan; the percentage is at most 100 and within half a point of lived/denominator·100, with the base lifespan as denominator unless there are extra days |
| LifeGridCalculations.ProportionOfDay | src/hooks/useLifeGridCalculations.js:77 | the share of a day is capped at 1 and never exceeds hours/24 |
| LifeGridCalculations.CeilTenth | src/hooks/useLifeGridCalculations.js:79-80 | rounding up to a tenth: the least multiple of 0.1 not below x |
| LifeGridCalculations.ActivityPastFutureUnits | src/hooks/useLifeGridCalculations.js:74-87 | past and future shares are lived·share and remaining·share rounded up by less than a tenth; the total is their sum |
| LifeGridCalculations.Walk | src/hooks/useLifeGridCalculations.js:99-113 | the walk yields the side default or the colour of one of the side's activities |
| LifeGridCalculations.ColorForCell | src/hooks/useLifeGridCalculations.js:89-114 | a cell asked for on the wrong side of `lived` gets the other side's default; otherwise the colour is a default or that of an activity on the requested side |
| LifeGridCalculations.WalkFindsFirst | src/hooks/useLifeGridCalculations.js:101-108 | the walk returns the colour of the first interval, in the explicit interval layout, that holds the cell |
| LifeGridCalculations.WalkFindsNone | src/hooks/useLifeGridCalculations.js:101-113 | a cell in no interval gets the side default |
| LifeGridCalculations.ColorForCellIsFirstInterval | src/hooks/useLifeGridCalculations.js:89-114 | on the right side of `lived`, the colour is that of the first activity interval (from 0 on the past side, from `lived` on the future side) holding the cell, or the default when none does |
| LifeGridCalculations.CalculateTimeUnits | src/hooks/useLifeGridCalculations.js:137-153 | columns fit in 30-pixel slots of 95% of the window less 40, and are one slot short of overflowing unless capped by the unit count; with a non-zero column count the cell is min(25, room/columns − 5) and rows are the ceiling of units/columns; with no column the rows and cell follow division by zero; padding is 5 |
| LifeGridCalculations.TimeUnitsColumnsLargest | src/hooks/useLifeGridCalculations.js:140-141 | no column count that fits the room and the units exceeds the chosen one |
| LifeGridCalculations.TimeUnitsAtThousandPixels | src/hooks/useLifeGridCalculations.js:137-153 | a 1000-pixel window shows 4160 weeks as 30 columns by 139 rows of 25-pixel cells |
| LifeGridInputs.HoursPerDay | src/components/LifeGrid.js:103-114 | week, month and year rates times 7, 30 and 365 give the hours back; any other unit is already per day; a non-negative rate never grows |
| LifeGridInputs.LifespanInput | src/components/LifeGrid.js:195-205 | the lifespan is always in [1, 120]; unparsable text gives 1; in-range numbers are kept and out-of-range ones clamp |
| LifeGridInputs.LifespanRoundTrip | src/components/LifeGrid.js:195-205 | typing any lifespan from 1 to 120 sets exactly that lifespan |
| LifeGridInputs.HoursInput | src/components/LifeGrid.js:228-230 | hours become a half-hour step in [0, 24], within a quarter hour of the input when the input is in range |
| LifeGridInputs.HoursInputIdempotent | src/components/LifeGrid.js:228-230 | normalising a normalised value changes nothing |
| LifeGridInputs.NextShape | src/components/LifeGrid.js:620-626 | a press moves each shape to the next in the cycle square, circle, heart, diamond, hexagon, and anything else to square; the shape always changes |
| LifeGridInputs.ShapeCycle | src/components/LifeGrid.js:620-626 | five presses return any shape to itself, and one to four presses never do |
| LifeGridInputs.CycleFrom | src/components/LifeGrid.js:620-626 | a shape from which five clicks lead through four other shapes comes back after exactly five clicks and not before |
| LifeGridInputs.TimeUnitSuffix | src/components/LifeGrid.js:407-418 | in the three grid views the plural unit name, or the name less its final 's' exactly for the value 1; any other view shows its own name |
| ActivityList.MapById | src/components/LifeGrid.js:207-225 | only entries with the id are changed, and the list keeps its length |
| ActivityList.SetSpent | src/components/LifeGrid.js:207-215 | only the matching entries' spent flag changes, to the value given |
| ActivityList.SetFuture | src/components/LifeGrid.js:217-225 | only the matching entries' future flag changes, to the value given |
| ActivityList.SetName | src/components/LifeGrid.js:257-264 | only the matching entries' name changes |
| ActivityList.SetColor | src/components/LifeGrid.js:266-273 | only the matching entries' colour changes |
| ActivityList.UnspentLeavesPastSide | src/components/LifeGrid.js:207-215 | unticking spent removes the entry from the past side |
| ActivityList.SpentKeepsProgress | src/components/LifeGrid.js:207-215 | ticking or unticking spent leaves the hook's progress unchanged |
| ActivityList.SpentKeepsFutureColors | src/components/LifeGrid.js:207-215 | ticking or unticking spent repaints no future cell |
| ActivityList.FutureKeepsPastColors | src/components/LifeGrid.js:217-225 | for a given progress, ticking or unticking future repaints no past cell |
| ActivityList.WalkSamePaint | src/hooks/useLifeGridCalculations.js:99-113 | the walk depends only on the colours and rates of the side's activities |
| ActivityList.ChangeOne | src/components/LifeGrid.js:240-252 | the named field takes the value and no other field changes; when the field is hours or unit, the rate is recomputed and agrees with them |
| ActivityList.ChangeField | src/components/LifeGrid.js:239-255 | only matching entries change, each as `ChangeOne` says |
| ActivityList.ChangeFieldKeepsConsistent | src/components/LifeGrid.js:239-255 | any change but a direct rate change keeps every stored rate consistent with hours and unit |
| ActivityList.ChangeTimeUnit | src/components/LifeGrid.js:321-329 | only the matching entries' unit changes, and their rate follows the new unit |
| ActivityList.ChangeTimeUnitIsChangeField | src/components/LifeGrid.js:321-329 | the dedicated unit handler equals the generic handler with the unit field |
| ActivityList.SetHours | src/components/LifeGrid.js:227-237 | only the matching entries' hours change, to the normalised value; the stored rate is kept |
| ActivityList.SetHoursLeavesStaleRate | src/components/LifeGrid.js:227-237 | changing a consistent 8 h/day entry to 2 h keeps rate 8, so the entry is no longer consistent |
| ActivityList.SetHoursFixed | src/components/LifeGrid.js:227-237 | the hours handler with the rate recomputed: hours normalised, rate consistent, nothing else changed |
| ActivityList.SetHoursFixedKeepsConsistent | src/components/LifeGrid.js:227-237 | the corrected hours handler keeps every rate consistent |
| ActivityList.Remove | src/components/LifeGrid.js:296-298 | exactly the entries without the id remain |
| ActivityList.RemoveConcat | src/components/LifeGrid.js:296-298 | removal distributes over concatenation, so order is kept |
| ActivityList.RemoveAbsent | src/components/LifeGrid.js:296-298 | removing an unused id changes nothing |
| ActivityList.NewActivity | src/components/LifeGrid.js:284-292 | the new entry has 1 hour a day, unit day, no flags and no stored rate |
| ActivityList.Add | src/components/LifeGrid.js:283-294 | the list grows by one at the end; the new entry is numbered length+1 with the given colour |
| ActivityList.AddAfterRemoveReusesId | src/components/LifeGrid.js:283-298 | after removing entry 1 of two, the new entry is numbered 2 again, and removing 2 empties the list |
| ActivityList.AddBreaksConsistency | src/components/LifeGrid.js:283-294 | an added entry, as written, has no rate and breaks consistency |
| ActivityList.AddFixed | src/components/LifeGrid.js:283-294 | the add button with the new entry's rate set to 1 h/day |
| ActivityList.AddFixedKeepsConsistent | src/components/LifeGrid.js:283-294 | the corrected add keeps every rate consistent |
| ActivityList.AddBreaksDistinctIds | src/components/LifeGrid.js:283-294 | with only entry 2 left, adding creates a second entry 2 |
| ActivityList.MaxId | src/components/LifeGrid.js:285 | a bound on every id in use |
| ActivityList.AddUnique | src/components/LifeGrid.js:283-294 | the add button numbering past every id in use: the new id exceeds all others |
| ActivityList.AddUniqueKeepsInvariants | src/components/LifeGrid.js:283-294 | the corrected add keeps ids distinct and rates consistent |
| ActivityList.AddedFutureMakesSumNaN | src/components/LifeGrid.js:283-294 | ticking "future" on an entry added as written makes the hook's future-hours sum NaN |
| ActivityList.AddedFixedFutureKeepsSum | src/components/LifeGrid.js:283-294 | with the corrected add, ticking "future" on the new entry keeps the sum a number when every entry had a rate |
| ActivityList.InitialListInconsistent | src/components/LifeGrid.js:19-23 | the initial list has distinct ids, but its third entry stores 8 hours a day for 1 hour a day, so it is not consistent |
| ActivityList.Clear | src/components/LifeGrid.js:331-338 | every entry is unticked on both sides, and nothing else changes |
| ActivityList.ClearEmptiesSides | src/components/LifeGrid.js:331-338 | after clearing neither side has an activity |
| ActivityList.ClearedGridIsPlain | src/components/LifeGrid.js:331-338 | after clearing every cell shows the plain lived or unlived colour |
| LifeGridProgress.UnitsPerYear | src/components/LifeGrid.js:136 | 1, 12 or 52 units a year for the three views, 365 otherwise |
| LifeGridProgress.RateDivisor | src/components/LifeGrid.js:141-142 | an activity's rate is per 1 day exactly for day, 7 exactly for week, 30 exactly for month and 365 for every other unit |
| LifeGridProgress.DivisorMatchesHoursPerDay | src/components/LifeGrid.js:103-114 | for day, week, month and year the fallback rate equals the rate the form's conversion stores |
| LifeGridProgress.CommittedRate | src/components/LifeGrid.js:141-142 | the stored rate when non-zero, otherwise hours over the unit's days |
| LifeGridProgress.FutureCommittedOnlyFuture | src/components/LifeGrid.js:139-155 | only future activities contribute to the committed time |
| LifeGridProgress.FutureCommitted | src/components/LifeGrid.js:139-155 | no future activity commits nothing |
| LifeGridProgress.FutureCommittedSingle | src/components/LifeGrid.js:139-155 | one entry commits its claim if it is future and nothing otherwise |
| LifeGridProgress.FutureCommittedConcat | src/components/LifeGrid.js:139-155 | the committed time of two lists run together is the sum of theirs |
| LifeGridProgress.FutureCommittedNonNegative | src/components/LifeGrid.js:139-155 | with non-negative rates the committed time is non-negative |
| LifeGridProgress.CalculatePageProgress | src/components/LifeGrid.js:116-165 | total is lifespan times units a year; remaining is never negative and, when positive, lived + remaining + committed is the total; the percentage is lived/total·100 |
| LifeGridProgress.ClearedPageProgress | src/components/LifeGrid.js:331-338 | after clearing, remaining is the total less lived, floored at 0 |
| LifeGridProgress.FutureCommittedDaysShare | src/components/LifeGrid.js:428-442 | the committed days are the days left times the future activities' summed rate over 24 |
| LifeGridProgress.ToUnitAdds | src/components/LifeGrid.js:451-464 | the unit conversion adds up |
| LifeGridProgress.ToUnit | src/components/LifeGrid.js:451-464 | days become years (/365), months (12 per 365 days) or, for any other view, weeks (/7) |
| LifeGridProgress.GetProgressStats | src/components/LifeGrid.js:420-475 | remaining is never negative; lived is the lived days in the view's unit; the lived percentage is of lifespan·365 days |
| LifeGridProgress.Assemble | src/components/LifeGrid.js:451-474 | the total is lived plus remaining plus committed |
| LifeGridProgress.CommittedWithinRemaining | src/components/LifeGrid.js:420-475 | with lived days within the lifespan and at most 24 future hours a day, the days committed to future activities do not exceed the days that remain |
| LifeGridProgress.StatsAddUp | src/components/LifeGrid.js:420-475 | with lived days within the lifespan and at most 24 committed hours a day, the total is the lifespan in the view's unit and the three percentages sum to 100 |
| LifeGridProgress.StatsFutureShare | src/components/LifeGrid.js:428-448 | the committed time in the view's unit is the days left times the future activities' summed rate over 24 |
| LifeGridProgress.FutureRateOnlyFuture | src/components/LifeGrid.js:429-441 | only future activities contribute to the committed rate |
| GridShapes.AllSegmentStops | src/utils/gridShapes.js:69-85 | each segment contributes four stops, in order, as a block |
| GridShapes.CreateGridCell | src/utils/gridShapes.js:43-111 | a plain colour is used as is; a descriptor becomes gradient `gradient-<index>` with the default colour at 0% and 100% around each segment's block, or the four stops of a partial fill |
| GridShapes.FillAttribute | src/utils/gridShapes.js:108-110 | the fill is the colour or a `url(#id)` reference to the gradient |
| GridShapes.GradientIdsDistinct | src/utils/gridShapes.js:54 | distinct cells get distinct gradient ids |
| GridShapes.AllSegmentStopsSorted | src/utils/gridShapes.js:69-85 | ordered segments give sorted stop offsets within [lo, 100] |
| GridShapes.StopsSorted | src/utils/gridShapes.js:62-106 | ordered segments or a percentage in [0, 100] give sorted gradient stops |
| DynamicAnnotations.AnnotationPosition | src/utils/dynamicAnnotations.js:4-17 | a cell index splits into row and column with column in [0, unitsPerRow); the anchor is column and row times cell plus padding |
| DynamicAnnotations.CellNotePlacement | src/utils/dynamicAnnotations.js:37-62 | the text and arrow of top, right, bottom and left notes; any other position has no entry |
| DynamicAnnotations.CellArrowPointsAtCell | src/utils/dynamicAnnotations.js:37-91 | every arrow is axis-aligned, its tail lies outside the cell, and its arrowhead (`marker-end`) is at the midpoint of the cell's facing edge |
| DynamicAnnotations.Tspans | src/utils/dynamicAnnotations.js:76-84 | one tspan per line, newline-free, all at the note's x and anchor; the first at dy 0 and the rest at 1.1em; their texts joined give the text |
| DynamicAnnotations.PaletteMarkersFound | src/utils/dynamicAnnotations.js:161-207 | each palette colour, written with '#', names an end and a start marker that exist |
| DynamicAnnotations.MarkerEnd | src/utils/dynamicAnnotations.js:91 | the end marker id is "arrowhead-" and the colour without its leading '#' |
| DynamicAnnotations.MarkerStart | src/utils/dynamicAnnotations.js:161 | the start marker id is "arrowhead-start-" and the colour without its leading '#' |
| DynamicAnnotations.GridNotePlacement | src/utils/dynamicAnnotations.js:108-171 | top and topWithArrows notes sit centred above the grid; the two arrows run at y −20 with text width + 40 between their tails; the left one, drawn with `marker-start`, has its arrowhead at the grid's left edge, and the right one, drawn with `marker-end`, at the last cell's right edge |
| DynamicAnnotations.GridArrowsOffByPadding | src/utils/dynamicAnnotations.js:119-130 | the two arrows of a grid note are not symmetric: the right one is shorter by one padding |
| GridCreation.ConfigFor | src/utils/gridCreation.js:24-64 | a layout exists exactly for years, months and weeks, with 10, 24 and 52 cells a row, positive sizes and padding |
| GridCreation.FitCellSize | src/utils/gridCreation.js:71-82 | with rows to show, the size is finite, the row fits the available width, the rows fit the available height, and one of the two is met exactly; with no rows it is the width's quotient, -Infinity for negative height, and NaN for no height |
| GridCreation.FitCellSizeIsLargest | src/utils/gridCreation.js:71-82 | every size that fits both ways is at most the fitted size |
| GridCreation.ClampCellSize | src/utils/gridCreation.js:85 | the clamped size is within [min, max] unless NaN; in-range sizes are kept, smaller ones (or −Infinity) become min and larger ones (or +Infinity) max |
| GridCreation.ClampedFitIsLargest | src/utils/gridCreation.js:79-85 | the clamped fit is at least every size within the maximum that fits both ways |
| GridCreation.FittedLayoutFitsWindow | src/utils/gridCreation.js:79-92 | a layout made with an in-range fitted size is no wider than the available width and no taller than the available height |
| GridCreation.RowCount | src/utils/gridCreation.js:67 | the rows hold all units with no spare row; there is a row whenever there is a unit |
| GridCreation.MakeLayout | src/utils/gridCreation.js:87-92 | padding is a fixed fraction of the cell, and the grid's size is cells-per-row and rows times cell plus padding |
| GridCreation.PlanGrid | src/utils/gridCreation.js:63-92 | no layout for other views; NaN size exactly with no rows and no spare height; otherwise a planned layout for the units whose cell size is the fitted size clamped to the view's range |
| GridCreation.PlanGridSucceeds | src/utils/gridCreation.js:63-92 | the three views always get a layout for at least one unit |
| GridCreation.CellPlacement | src/utils/gridCreation.js:115-121 | cell i sits in row i / unitsPerRow and column i % unitsPerRow, inside the grid's rows |
| GridCreation.CellWidthPositive | src/utils/gridCreation.js:87-90 | a planned cell plus padding has positive width |
| GridCreation.CellPlacementInjective | src/utils/gridCreation.js:115-121 | distinct cells are drawn at distinct places |
| GridCreation.AnchorIsCellCorner | src/utils/gridCreation.js:115-121 | an annotation for cell i is anchored at that cell's top-left corner |
| GridCreation.LastCellInLastRow | src/utils/gridCreation.js:209 | the "Turning N" mark's cell, index units - 1, is placed in the grid's last row |
| GridCreation.LastIndexRow | src/utils/gridCreation.js:67-117 | when rows are just enough for the units, the floor-division row of the last index is the last row |
| GridCreation.Cells | src/utils/gridCreation.js:108-162 | one cell per unit: labelled i+1, lived exactly when i is below the page's lived amount, placed by row and column, filled with the hook's colour |
| GridCreation.SplitDisagreement | src/utils/gridCreation.js:130-133 | where the page's lived amount and the hook's disagree, a cell gets the other side's plain default |
| GridCreation.CustomDrawn | src/utils/gridCreation.js:217-253 | every kept custom annotation is drawn and every drawing is of a kept annotation; no drawn cell note is beyond the grid |
| GridCreation.CustomDrawnConcat | src/utils/gridCreation.js:217-253 | custom annotations are drawn in list order |
| GridCreation.DrawKeptProperties | src/utils/gridCreation.js:217-253 | the `forEach` draws every kept annotation and only kept ones, never a cell note beyond the grid, and one drawing per annotation when all are kept |
| GridCreation.DrawKeptIsFilterThenDraw | src/utils/gridCreation.js:217-253 | the `forEach` equals drawing, in order, each annotation of the list filtered to the kept ones |
| GridCreation.DrawKeptConcat | src/utils/gridCreation.js:217-253 | the `forEach` over a concatenation draws the first part's notes, then the second's |
| GridCreation.DrawnAnnotations | src/utils/gridCreation.js:201-253 | "Birth" on cell 0 on the left, then "Turning\n<lifespan>" on the last cell on the right, then exactly the custom drawings: every custom note that fits and nothing else |
| GridCreation.VisibleAnnotations | src/components/LifeGrid.js:507-509 | an annotation is shown when it names no view, an empty one, or the current one |
| GridCreation.DefaultAnnotationsPlaceable | src/components/LifeGrid.js:31-101 | every initial annotation has a placement for its position and a marker for its colour |
| GridCreation.NoShorterLife | src/hooks/useLifeGridCalculations.js:8-14 | with the lived days within the lifespan, extra days never shorten it |
| GridCreation.TurningMarksDrawn | src/components/LifeGrid.js:53-100 | for a lifespan of 60 years or more, all "Turning 20/40/60" marks of the weeks and months views fall on cells of the grid |
| ProgressText.UnitLabel | src/components/ProgressText.js:5 | the label is the unit without its last character |
| ProgressText.UnitWord | src/components/ProgressText.js:10-13 | singular exactly for the value 1; otherwise the label followed by "s", which is the unit itself for units ending in 's' |
| ProgressText.Line | src/components/ProgressText.js:10-13 | a line is the formatted value, a space, the unit word and the ending |
| ProgressText.LivedLine | src/components/ProgressText.js:10 | the first line is the formatted value, a space, the unit word and " lived" |
| ProgressText.RemainLine | src/components/ProgressText.js:13 | the second line is the formatted value, a space, the unit word and " remain" |
| ProgressText.UnitWordMatchesSuffix | src/components/LifeGrid.js:407-418 | in the three grid views the progress text and the totals line use the same unit word |

## Left out

- Clock and dates: `new Date()`, the fixed date in `calculateBaseProgress`,
  `getDifferenceInUnits`, `calculateAge`, and the page's own
  `calculateActivityPastFutureUnits` (LifeGrid.js:364-405) are all built on
  date arithmetic. The lived time is a parameter instead.
- IEEE 754 rounding: numbers are exact reals. `toFixed(1)` (`formatNumber`)
  is a parameter `fmt` of the text lines. `parseInt` does not lose
  precision beyond 2^53.
- d3 and DOM work is left out: SVG elements, transitions, hover effects,
  the shape path strings of `gridShapes.js`, `getBBox` (the text width is a
  parameter), and the marker elements' attributes. The model keeps the
  values written into the drawing: fills, stops, positions, arrows, ids and
  texts.
- `src/utils/annotations.js`, `src/utils/activityPanel.js`, the progress
  bar, the feedback button and the share-as-image handler are not part of
  this model.
- The random colour of a new activity (`getUniqueColor`) is a parameter of
  `Add`.
- React state, effects and callbacks are left out. Each handler is a
  function from a list to the new list. Every handler but the add button
  updates the current list (`setActivities(prev => ...)`).
- ActivityList.Add: takes the list it appends to as a parameter. The source
  appends to the list its memoised callback captured
  (`setActivities([...activities, newActivity])`, LifeGrid.js:283-294,
  recreated only when the length changes). So a toggle, rename or recolour
  that keeps the length, made after the callback was created, is dropped by
  the next add. The model does not track which render's list the callback
  holds.
- The page calls the hook with `timeUnit` and `activities` in swapped
  positions (LifeGrid.js:179-185 against useLifeGridCalculations.js:3). The
  hook is modelled with its declared parameters.
- LifeGridCalculations.CalculateProgress: requires a lifespan of at least 1,
  which the lifespan input guarantees. A lifespan of 0 would divide by zero.
- GridCreation.Cells: requires a non-negative unit count, because
  `Array(units)` throws for negative counts. `createGridCell` is only ever
  given the hook's plain colour strings, so every cell is `Solid`.
- GridCreation.PlanGrid: the window height is a parameter. A view without a
  configuration is an outcome here, where the source throws.
- DynamicAnnotations.CellNotePlacement: a position outside the table is
  `None`, where the source throws on `pos.textX`.
- LifeGridProgress.GetProgressStats: the three-way sum and the percentage
  shares are separate lemmas (StatsAddUp, StatsFutureShare) under their
  preconditions, not ensures of the function.

## Findings

| source | as written | input that shows it | evidently intended | confidence | as-written member | corrected member |
|---|---|---|---|---|---|---|
| src/components/LifeGrid.js:227-237 | the hours handler stores new hours but keeps the old `hoursPerDay`, which the grid uses to size the activity | "Sleeping" at 8 h/day changed to 2 h keeps rate 8 | recompute the rate, as the generic handler does at LifeGrid.js:245-249 | medium, not executed | ActivityList.SetHours, ActivityList.SetHoursLeavesStaleRate | ActivityList.SetHoursFixed, ActivityList.SetHoursFixedKeepsConsistent |
| src/components/LifeGrid.js:283-294 | a new activity has no `hoursPerDay`; once marked future, the hook's future-hours sum becomes NaN and its intervals vanish | add an activity to any list | set the rate from the default 1 hour a day | medium, not executed | ActivityList.Add, ActivityList.AddBreaksConsistency, ActivityList.AddedFutureMakesSumNaN | ActivityList.AddFixed, ActivityList.AddFixedKeepsConsistent, ActivityList.AddedFixedFutureKeepsSum |
| src/components/LifeGrid.js:285 | ids are numbered by list length, so after a removal a new entry can repeat an id and later edits hit both entries | ids [1, 2], remove 1, add: ids [2, 2] | number past the largest id in use | medium, not executed | ActivityList.AddBreaksDistinctIds, ActivityList.AddAfterRemoveReusesId | ActivityList.AddUnique, ActivityList.AddUniqueKeepsInvariants |

The corrected handlers keep rates consistent; they do not repair a list
that is already inconsistent. The initial list is one: "Personal Hygiene"
stores 8 hours a day for 1 hour a day (LifeGrid.js:22,
ActivityList.InitialListInconsistent).
