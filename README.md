# Stackable editor blocks: column resizing, container block, sort control

A Dafny model of three pieces of the Stackable block editor plugin.

- **`ColumnResize`** (`resizable_column.dfy`) models the resizable column.
  It covers which resize handles a column shows on each preview device and the width arithmetic of one drag gesture:
  - the column widths captured when the drag starts;
  - the paired desktop widths and their rounded percentages while dragging, fixed up to add to 100%;
  - the independent tablet and mobile percentage;
  - the attribute update made when the drag stops, including the "equal thirds" policy.

  The per-gesture state is the class `ResizableColumn`. Its methods are the events: the column-count effect, the shift-key effect, drag start, drag move and drag stop. The desktop move arithmetic is also a separate method, `DesktopResize`, with loops. Both are proved against the specification functions `PairedWidths` and `PairedPercents`.
- **`ContainerEdit`** (`container_edit.dfy`) models the container block's editor.
  - Its main element's class list is the output of `classnames` over the block's attributes.
  - Its inline style is a record of optional properties.
  - Its toolbar and inspector callbacks are modelled as one `Change` datatype, applied to the attributes by `OnChange`.
- **`SortControl`** (`sort_control.dfy`) models the sort control.
  - `applySort` is two in-place `splice` calls on a JavaScript array, modelled as the class `JsArray`. It is proved to move one element (`Moved`), and `Moved` is proved to be a permutation.
  - The initial `values` of the control are modelled too.
- **`Wrappers`** (`wrappers.dfy`) holds the `Option` type. `None` stands for an undefined attribute, or for a falsy `values` prop of the sort control.

### Units

- Percentages are integers in hundredths of a percent, so 3333 is 33.33%.
- A percentage rounded to one decimal with `toFixed(1)` is therefore a multiple of 10. It is rounded to nearest, with halves away from zero.
- Widths are integers in ten-thousandths of a pixel (`SubPixels`, 10000 to the pixel).
  - The page's measurements (`clientWidth`) are whole pixels. A drag distance is taken to be whole pixels too.
  - A stored width is a percentage with at most two decimals. Its share of a whole-pixel row is a whole number of ten-thousandths, so the widths captured at drag start are exact.
  - A percentage of a width in the total is the same in any unit, so only the drag bound and the minimum width are scaled.

### Inputs

- Page measurements are parameters: the row's width and each column's rendered width.
- The snap-point helper `getSnapWidths` is not part of this model. It is a function-typed parameter, and it receives the widths and totals in the model's units.
- `useBlockContext` is not part of this model either. The first, last and only flags are derived from the block's index in the row and the row's column count.

### The equal-thirds commit

A desktop drag whose whole percents all read 33 commits 33.33% three times, which adds up to 99.99%. Any other desktop commit adds up to exactly 100%. `DesktopCommitTotal` and `DesktopDragCommit` state both outcomes.

## Model

| member | source | states |
|---|---|---|
| ColumnResize.Enable | src/components/resizable-column/index.js:113-122 | on desktop the right handle is on iff the column is neither the only nor the last one, and the left iff it is neither the only nor the first; on tablet and mobile the right handle is on iff the column is not the only one, and the left is never on |
| ColumnResize.MinColumnWidth | src/components/resizable-column/index.js:28-32 | the narrowest a column may be dragged: 100 px on desktop, 50 px on tablet and on mobile |
| ColumnResize.Adjacent | src/components/resizable-column/index.js:151 | the neighbour behind the dragged edge is the next column for the right handle and the previous one for the left handle |
| ColumnResize.EnabledEdgeHasAdjacent | src/components/resizable-column/index.js:115-117 | on desktop an enabled handle always has a neighbouring column behind it, inside the row |
| ColumnResize.NarrowDevicesDragRightOnly | src/components/resizable-column/index.js:115-117 | on tablet and mobile a draggable handle is the right one, on a column that is not alone |
| ColumnResize.PixelWidth | src/components/resizable-column/index.js:138-145 | a column with a stored width gets exactly that share of the row width, with nothing truncated; a column without one gets its rendered width, 0 when it cannot be measured |
| ColumnResize.CapturedWidths | src/components/resizable-column/index.js:138-146 | one captured width per column, in column order |
| ColumnResize.StoredWidthsFillRow | src/components/resizable-column/index.js:138-142 | when every column has a stored width, the captured widths add up to the row width times the stored total, so stored widths adding up to 100% fill the measured row exactly |
| ColumnResize.DesktopMaxWidth | src/components/resizable-column/index.js:151-153 | the desktop drag bound is the pair's combined width less the desktop minimum |
| ColumnResize.BoundKeepsAdjacentMinimum | src/components/resizable-column/index.js:151-152 | a drag within the bound that `maxWidth` hands to the resize box leaves the adjacent column at least the desktop minimum of 100 px wide |
| ColumnResize.Sum | src/components/resizable-column/index.js:177 | the `reduce` total of a row of widths or percentages; `SumConcat`, `SumUpdate` and `SumAround` state how it splits |
| ColumnResize.PairedWidths | src/components/resizable-column/index.js:176-180 | the dragged column gains `dw`, the adjacent one loses `dw`, every other column keeps its width, and the row total is unchanged |
| ColumnResize.RoundHalfAway | src/components/resizable-column/index.js:184-188 | the integer nearest a quotient, a half rounded away from zero as `toFixed` rounds the magnitude |
| ColumnResize.ToFixed1 | src/components/resizable-column/index.js:188 | rounding a percentage to one decimal gives a multiple of 0.1% within 0.05% of it, and leaves a multiple of 0.1% unchanged |
| ColumnResize.Percent | src/components/resizable-column/index.js:183-185 | a width's share of the total as a percentage to one decimal: a multiple of 0.1%, within 0.05% of the exact share, and between 0% and 100% for a width inside the total |
| ColumnResize.Percentages | src/components/resizable-column/index.js:183-185 | one rounded share per column, in column order |
| ColumnResize.RoundingError | src/components/resizable-column/index.js:183-186 | the rounded shares add up to within 0.05% per column of the exact share of the widths |
| ColumnResize.FixUp | src/components/resizable-column/index.js:186-189 | after the fix-up the percentages add up to exactly 100%, and only the adjacent entry changes |
| ColumnResize.PairedPercents | src/components/resizable-column/index.js:176-191 | the desktop percentages of a drag add up to exactly 100%; the dragged column shows its own rounded share; every column outside the pair keeps its rounded share of the row; the adjacent column, which takes up the rounding difference, is within 0.05% per other column of its exact share |
| ColumnResize.FixedShareError | src/components/resizable-column/index.js:183-189 | on any row, the fixed-up adjacent percentage is within 0.05% per other column of its exact share |
| ColumnResize.DragExample | src/components/resizable-column/index.js:176-189 | dragging the first of three 300 px columns 90 px to the right gives 43.3%, 23.4% and 33.3% (the adjacent one takes the missing 0.1%) |
| ColumnResize.StoredWidthsExample | src/components/resizable-column/index.js:138-189 | stored widths of 12.3% and 87.7% in a 1013 px row, dragged 5 px, give 12.8% and 87.2% |
| ColumnResize.IndependentPercent | src/components/resizable-column/index.js:215-216 | the tablet and mobile percentage is a multiple of 0.1% in [0%, 100%], within 0.05% of the exact share of the row width when the new width lies inside it, and 100% or 0% at or beyond either end, including against a bound of 0 |
| ColumnResize.Clamp | src/components/resizable-column/index.js:216 | lodash `clamp` returns a value inside the bounds, and a value already inside them unchanged |
| ColumnResize.TruncatedPercent | src/components/resizable-column/index.js:243 | the bitwise or with 0 on a percentage: the whole percent, truncated toward zero for either sign |
| ColumnResize.NearThirds | src/components/resizable-column/index.js:243 | a row of three entries whose whole percents all read 33 |
| ColumnResize.DesktopCommit | src/components/resizable-column/index.js:243-247 | a three-column row whose entries all lie in [33%, 34%) is committed as 33.33% each; any other row is committed as it is |
| ColumnResize.DesktopCommitIsClose | src/components/resizable-column/index.js:241-247 | the committed row has the same length and moves no entry by a whole percent |
| ColumnResize.DesktopCommitTotal | src/components/resizable-column/index.js:243-247 | a row adding up to 100% is committed either unchanged, adding up to 100%, or as equal thirds, which add up to 99.99% |
| ColumnResize.StopCommit | src/components/resizable-column/index.js:239-253 | no update when the drag ended where it began; otherwise exactly one update, for the current device: the desktop commit of the row on desktop, the pending percentage on tablet or on mobile |
| ColumnResize.DesktopDragCommit | src/components/resizable-column/index.js:176-247 | a desktop drag commits one percentage per column, adding up to 100% or equal thirds adding up to 99.99% |
| ColumnResize.ThirdsExample | src/components/resizable-column/index.js:241-247 | a one-pixel drag of three equal columns gives 33.4%, 33.3% and 33.3%, which are committed as 33.33% each |
| ColumnResize.RowTotal | src/components/resizable-column/index.js:177 | the loop's running total is the sum of the row |
| ColumnResize.RoundedShares | src/components/resizable-column/index.js:183-185 | the loop builds exactly the rounded share of every column |
| ColumnResize.DesktopResize | src/components/resizable-column/index.js:176-189 | the loop-by-loop desktop computation returns the row total, the paired widths and the fixed-up percentages of the specification functions |
| ColumnResize.ResizableColumn.constructor | src/components/resizable-column/index.js:47-83 | a new column starts with no captured widths, no percentages, a 2000 px bound, no snap points, the row's current column count and the popup closed |
| ColumnResize.ResizableColumn.OnAdjacentBlocksChange | src/components/resizable-column/index.js:57-66 | the desktop widths are reset exactly when the column count differs from the remembered one, and the new count is remembered, so the same count never resets twice |
| ColumnResize.ResizableColumn.OnShiftKeyChange | src/components/resizable-column/index.js:78-81 | a change of the shift key drops the snap points |
| ColumnResize.ResizableColumn.OnResizeStart | src/components/resizable-column/index.js:133-166 | on desktop it captures every column's width and the paired drag bound; on tablet and mobile it captures the column's own width and the row width as the bound |
| ColumnResize.ResizableColumn.OnResize | src/components/resizable-column/index.js:168-236 | it closes the popup; on desktop it stores the paired percentages of the captured row for the drag distance, elsewhere the independent percentage; it asks for snap points only when there are none yet, with the paired widths and row total on desktop and with `[100]` and the bound elsewhere |
| ColumnResize.ResizableColumn.OnResizeStop | src/components/resizable-column/index.js:237-265 | it hands the block the stop commit of the pending percentages, and drops the snap points |
| ContainerEdit.Classnames | src/block/container/edit.js:50-58 | `classnames` on an object keeps exactly the keys whose value is truthy, at most one per key |
| ContainerEdit.InConditionalClasses | src/block/container/edit.js:50-58 | a class is conditional iff one of the seven keys is switched on and is that class |
| ContainerEdit.ClassObject | src/block/container/edit.js:50-58 | the seven keys of the conditional class object in source order, each with the truthiness of its value |
| ContainerEdit.ConditionalClasses | src/block/container/edit.js:50-58 | a class is present iff its key in the class object is on |
| ContainerEdit.ContentAlignClass | src/block/container/edit.js:51 | `ugb-container--content-<s>` is present iff the content alignment is the non-empty `s` |
| ContainerEdit.HasBackgroundClass | src/block/container/edit.js:52 | `ugb--has-background` is present iff there is a colour other than empty or `transparent`, or an image URL |
| ContainerEdit.HasBackgroundImageClass | src/block/container/edit.js:53 | `ugb--has-background-image` is present iff there is a non-empty image URL |
| ContainerEdit.HeightClass | src/block/container/edit.js:54 | `ugb-container--height-<s>` is present iff the height is the non-empty `s` |
| ContainerEdit.ContentLocationClass | src/block/container/edit.js:55 | `ugb-container--align-horizontal-<s>` is present iff the content location is the non-empty `s` |
| ContainerEdit.ContentWidthClass | src/block/container/edit.js:56 | `ugb--content-width` is present iff content width is on |
| ContainerEdit.ShadowClass | src/block/container/edit.js:42-57 | a shadow class is present iff the shadow, defaulting to 3, is not 3, and it then names that shadow |
| ContainerEdit.Shadow | src/block/container/edit.js:41-42 | the shadow attribute, 3 when it is undefined |
| ContainerEdit.BorderRadius | src/block/container/edit.js:41-42 | the border radius attribute, 12 when it is undefined |
| ContainerEdit.OpacityClass | src/block/container/edit.js:49 | the opacity class names the rounded opacity, or `NaN` when it is undefined |
| ContainerEdit.MainClasses | src/block/container/edit.js:46-58 | the class list always holds `ugb-container` and the opacity class, holds the block's class name when set, and holds all conditional classes and nothing else |
| ContainerEdit.IfTruthy | src/block/container/edit.js:61-62 | a property is written iff its attribute is truthy, and then as the attribute |
| ContainerEdit.MainStyle | src/block/container/edit.js:60-68 | each style property is written exactly under its source condition: text colour, colour, image URL, fixed flag, colour variable only with an image, vertical alignment only for full or half height, border radius only when it is not the default 12 |
| ContainerEdit.OnChange | src/block/container/edit.js:75-151 | each callback changes only the attributes it names; an undefined colour is stored as `transparent`; removing the image stores URL `''` and ID 0; the fixed flag is stored as a boolean |
| ContainerEdit.RemovedImageLeavesNoImage | src/block/container/edit.js:147-149 | after removing the image there is no image class or image style, and the background class depends on the colour alone |
| ContainerEdit.ClearedColourIsTransparent | src/block/container/edit.js:145 | clearing the colour writes `transparent` to the style, and the background class then depends on the image alone |
| ContainerEdit.FixedBackgroundFollowsToggle | src/block/container/edit.js:151 | the background is fixed in the style iff the toggle was switched on |
| ContainerEdit.DefaultShadowHasNoClass | src/block/container/edit.js:133 | setting the shadow to 3 leaves no shadow class |
| SortControl.JsArray.Splice | src/components/sort-control/index.js:23-24 | `splice` changes the array in place to the spliced list and returns the removed run |
| SortControl.Spliced | src/components/sort-control/index.js:23-24 | with JavaScript's clamping of start and count, the spliced list keeps the part before the start, then holds the items, then what follows the removed run |
| SortControl.SplicedOut | src/components/sort-control/index.js:23-24 | the removed run starts at the clamped start and has the clamped count |
| SortControl.SplicedInsert | src/components/sort-control/index.js:23 | a splice that deletes nothing inserts the item before the start index |
| SortControl.SplicedDelete | src/components/sort-control/index.js:24 | a splice of one entry with no items removes that entry |
| SortControl.RemoveAt | src/components/sort-control/index.js:24 | removing index `i` shifts every later element down by one |
| SortControl.Moved | src/components/sort-control/index.js:22-26 | moving an element keeps the length and puts the element at the target index |
| SortControl.MovedAt | src/components/sort-control/index.js:22-26 | after a move, elements outside the moved range stay, and those inside shift by one toward the old position |
| SortControl.MovedIsPermutation | src/components/sort-control/index.js:22-26 | a move is a permutation |
| SortControl.MovedInPlace | src/components/sort-control/index.js:22-26 | moving an element onto its own index changes nothing |
| SortControl.MovedKeepsOrder | src/components/sort-control/index.js:22-26 | the other elements keep their relative order |
| SortControl.MovedBySplices | src/components/sort-control/index.js:23-24 | the two splices compose to the move |
| SortControl.ApplySort | src/components/sort-control/index.js:22-26 | `applySort` returns the same array, now holding the moved sequence |
| SortControl.OneTo | src/components/sort-control/index.js:29 | the default values are 1 to `num` |
| SortControl.InitialValues | src/components/sort-control/index.js:29 | without given values, `1..num`; with given values, their first `num` entries, which are cut out of the given array |

## Left out

- The temporary inline styles (`tempStyles`) are left out, along with the 400 ms timer that clears them, the mounted flag guarding it, and the CSS text itself. They are presentation and timing.
- The width popup's content, its outside-click listener, the input focus and the `console.log` are left out. Only the popup's open flag is kept, which a drag closes.
- `toggleSelection` is left out. It is an editor side effect.
- Browser measurement is not modelled. The row width and rendered widths are parameters, and a missing element reads as 0.
- `getSnapWidths` is a parameter, so what it computes is not part of this model. Only when it is called, with what arguments, and when its result is kept or dropped are modelled.
- Floating-point arithmetic is not modelled. Widths are held exactly in ten-thousandths of a pixel, and each share is rounded once from the exact quotient. Binary floating-point error in `width / total * 100` is not modelled, nor is a stored width with more than two decimals.
- ColumnResize.ResizableColumn.OnResize requires a positive row total on desktop. With a total of 0 the source divides by zero and stores `NaN` or an infinity for each column.
- ColumnResize.ResizableColumn.OnResize requires, on tablet and mobile, that a bound of 0 comes with a new width other than 0. A bound of 0 is modelled: the share is an infinity, which the clamp takes to 100% or 0%. Only a new width of 0 over a bound of 0 gives `NaN`, which the clamp passes through and which the model does not hold.
- ColumnResize.ResizableColumn.OnResize requires the state to hold a row on desktop and a single width elsewhere, with a bound that is not negative. `OnResizeStart` sets up exactly that for the same device. A device change between the two events would make the source index `undefined` or add a number to an array.
- ColumnResize.TruncatedPercent does not model the 32-bit wrap-around of the bitwise or with 0, because percentages never come near 2^31.
- React state batching and re-rendering are not modelled. Each event method applies its updates at once, which is how the values read on the next event.
- The `stackable.container.mainclasses` filter is taken as the identity.
- Translations, the `align` and `design` attributes, and the toolbar and panel rendering are left out. They are presentation and have no state.
- ContainerEdit.OpacityClass assumes an integer opacity, which `Math.round` leaves unchanged. It does not model a fractional opacity.
- SortControl.InitialValues takes "given values" to be an array, including an empty one, which JavaScript treats as truthy. `None` stands for any falsy `values`: the `null` default of `defaultProps`, an undefined prop, or the `''` that Reset passes to `onChange`. Each of these uses the default `1..num`. `num` is a natural number, so lodash `range` with a negative count is not modelled.
