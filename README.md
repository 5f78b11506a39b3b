# chiroptui layout core in Dafny

chiroptui is a terminal widget toolkit. Every widget reports an
`InternalWidgetDimensions` record: minimum, preferred and maximum size,
an alignment quantum and horizontal and vertical spacer counts. Containers
combine their children's records and split their own area among them. This
project models the integer arithmetic of that layout and proves what it
guarantees. It also models the one text-editing state machine in the
toolkit:

- `Row` (`RowState`) is the linear container. Its desired pass sums
  widths, takes the largest heights and combines spacer counts. Its
  practical pass gives a surplus to the children that like being resized,
  split into a quotient plus a remainder. When space is short it takes
  cells back in reverse sweeps, with a "desperate" fallback. Two keyed
  caches sit in front of the passes.
- `Common` (`WidgetCommon`) is the per-widget state. It keeps a one-entry
  width memo and a layout token that decides when the cache is cleared.
- `InputBox` (`InputBoxState`) is the editable text field. It keeps an
  inclusive selection `[l, r]`, applies an asymmetric cursor fix-up, and
  can cap the text length.
- `BulletinBoard` (`BulletinBoardState`) is the free-placement board. It
  combines children by taking maxima, and it clamps each child inside the
  board when drawing.
- `Border` (`BorderState`) has five slots arranged as a column of north,
  a row of west / center / east, and south.

Children are abstract `WidgetId`s. The dimensions a child reports at a given
width come from an `Estimator` parameter, `(WidgetId, int) -> Dims`. Clearing
a container's layout cache is modelled by returning the children the clear
is forwarded to, in order. Widths are unbounded integers, texts are
sequences of characters, and a panic is an `Option` whose value is `None`.

Typing "abc", one backspace, highlighting `[0, 2]` and typing "X" gives
the text "X" with the cursor at 1. After the backspace the text is "ab",
and the fix-up pulls the selection back to `[0, 1]`, which covers the whole
text (`InputBox.EditingRoundTrip`).

## Model

| member | source | states |
|---|---|---|
| Row.ComputePlotsDesired | src/layout/row.rs:94-133 | panics (`None`) exactly when there are children and every vertical spacer count is at least `usize::MAX`; otherwise the plot is the children's preferred widths in child order, and the dimensions are `DesiredDims` |
| Row.DesiredHeights | src/layout/row.rs:97-98 | the row's minimum and preferred heights are at least 0 and at least every child's, and each is 0 or some child's height |
| Row.DesiredVerticalSpacers | src/layout/row.rs:103-106 | vertical spacer count: 0 with no children; otherwise the smallest child count, strictly below `usize::MAX`; the pass panics iff all children report `usize::MAX` or more |
| Row.SpacerListShape | src/layout/row.rs:141-145 | the spacer list has as many entries as the sum of spacer counts; its entries are in child order and within range; each child appears exactly its spacer count many times |
| Row.ResizeListMeaning | src/layout/row.rs:156-159 | the growth list is nonempty, ordered and in range; each child appears spacer-count times, or exactly once when no child has a spacer |
| Row.Grow | src/layout/row.rs:161-170 | with `k` entries and surplus `s`, each child gains `s / k` per entry that names it, plus one for each entry in the first `s % k`; the result sums to exactly `width` |
| Row.Sweep | src/layout/row.rs:176-187 | one reverse sweep from the last child down to `from`: each child that is eligible (above its minimum or desperate, and above 0) loses one quantum, every other child is unchanged; it stops exactly when the sum reaches `width`, right after an eligible child whose quantum was needed (`s + align > width`); with no stop `from` is 0; the sum is tracked exactly and never increases, and an unchanged sum means nothing changed |
| Row.Shrink | src/layout/row.rs:172-192 | the result is `Shrunk`: the preferred widths when they fit; otherwise the `Outcome` at the unique step where the loop breaks. That step is a phase (calm, or desperate only when the calm phase ends above `width`), a sweep `s` and a child `f`. At it, child `j` has lost `Lost` quanta for its `s + 1` visits (`j >= f`) or `s` visits (`j < f`), and `f`'s quantum is the first to bring the sum to at most `width` |
| Row.QuantaMeaning | src/layout/row.rs:179-183 | after `c` quanta of `a`, a child that prefers `v` is still above the floor `f` exactly when `c` is below `Quanta(v, f, a)`, the distance to `f` rounded up to whole quanta |
| Row.ChildStep | src/layout/row.rs:179-184 | a child's next visit takes a quantum exactly when it is eligible at its current allotment (calm: above its minimum and above 0; desperate: above 0), and then its loss count grows by one; otherwise the count stays |
| Row.SweepOutcome | src/layout/row.rs:176-187 | a sweep that starts from the `Outcome` of `s` complete sweeps ends at the `Outcome` in which the children it visited count one more visit; a child is eligible exactly when its next visit `Takes` a quantum |
| Row.Unproductive | src/layout/row.rs:188-190 | a sweep that changes nothing found no eligible child |
| Row.CalmPhaseOver | src/layout/row.rs:188-190 | once no child takes a quantum in a calm sweep, the allotments are the calm phase's end state, `CalmEnd`, and stay there |
| Row.NotAfterBreak | src/layout/row.rs:172-187 | after a break step, the sum before any later step that takes a quantum is already at most `width`, so the loop never breaks there |
| Row.BreaksOnce | src/layout/row.rs:172-187 | two break steps are the same phase, sweep and child |
| Row.ShrunkUnique | src/layout/row.rs:172-192 | `Shrunk` admits exactly one result for given preferred widths, minimums, quanta and width |
| Row.BreakMeaning | src/layout/row.rs:172-192 | at the break step: child `f` lost a quantum; children lose whole quanta and only while above 0; tidy children stay at or above their minimums when the minimums fit; a child still above its floor is in the calm phase with loss count equal to its visits; in the calm phase no child lost more than its visits |
| Row.ShrunkMeaning | src/layout/row.rs:172-192 | the shrink result sums to at most `width`; when the preferred widths do not fit, some child that lost a quantum would overshoot with it back; children lose whole quanta, only while positive; tidy children never go below their minimum when the minimums fit; for children `i < j`: when `j` is still above its floor, `i` lost no more quanta than `j`; when `i` is still above its floor, `j` lost at most one quantum more than `i` |
| Row.TidyCalmEnd | src/layout/row.rs:179 | the calm phase leaves tidy children (minimum at least 0, preferred width the minimum plus whole quanta) exactly at their minimums |
| Row.ComputePlotsPractical | src/layout/row.rs:135-196 | one plot entry per child; preferred widths unchanged with no children, a negative width or a width equal to their sum; `Grown` over the resize list when there is room to spare; `Shrunk` when the preferred widths do not fit |
| Row.CollectChildren | src/layout/row.rs:141-149 | the first loop of the practical pass: the spacer list and the minimum, preferred and alignment widths of the children, in child order |
| Row.ShrinkSkipsFloor | src/layout/row.rs:172-192 | preferred [3, 1], minimums [0, 1], quanta [1, 5], width 2: the only `Shrunk` result is [1, 1]; the child at its minimum is skipped, and the loop stops as soon as the sum is 2 |
| Row.ShrinkPastMinimum | src/layout/row.rs:172-192 | preferred [5, 5], minimums [4, 0], quanta [3, 1], width 6: the only `Shrunk` result is [2, 4]; the first child's quantum takes it from 5 to 2, below its minimum |
| Row.ShrinkTurnsDesperate | src/layout/row.rs:172-192 | preferred [2, 2] at minimums [2, 2], quanta 1, width 2: the calm sweep changes nothing, and the desperate sweep gives [1, 1], which by `ShrunkUnique` is the only result |
| Row.ShrinkSharesEqually | src/layout/row.rs:172-192 | three children preferring 80 at minimum 80, quanta 1, width 150: the result is [50, 50, 50] |
| Row.EqualShares | src/layout/row.rs:172-192 | children that all prefer `v` at minimum `v`, with quanta 1, in a row `w` cells per child (`0 <= w < v`): each child gets exactly `w` |
| Row.EqualSharesOnly | src/layout/row.rs:172-192 | for such a row every `Shrunk` result gives each child exactly `w` cells; for three children preferring 80 in 150 cells that is [50, 50, 50] |
| Row.TurnsDesperateOnly | src/layout/row.rs:172-192 | [1, 1] is the only `Shrunk` result for preferred [2, 2] at minimums [2, 2], quanta 1, width 2 |
| Row.ChildDims | src/layout/row.rs:108-109 | each child is asked for its dimensions at the row's width, in child order |
| Row.RowState.constructor | src/layout/row.rs:23-31 | no children; desired cache keyed -1 with an empty plot and zero dimensions; practical cache keyed (-1, -1) with an empty plot |
| Row.RowState.Add | src/layout/row.rs:62-64 | the child is appended last; both caches are untouched |
| Row.RowState.ClearLayoutCache | src/layout/row.rs:50-56 | both caches are reset to their initial keys and contents; the clear is forwarded to every child, in order |
| Row.RowState.GetPlotsDesired | src/layout/row.rs:68-78 | the stored entry is returned only when its key is `width` and its plot length is the current child count; otherwise the desired pass runs at `width` and its result is stored under `width` |
| Row.RowState.EstimateDimensions | src/layout/row.rs:45-48 | the row's dimensions are the dimensions half of the desired cache lookup; a miss stores them with the preferred widths under `width`; a hit or a panic leaves the desired cache as it was; the practical cache is never touched |
| Row.RowState.GetPlotsPractical | src/layout/row.rs:80-90 | the stored plot is returned only when its key is the full size and its length is the child count; otherwise the practical pass runs at the size's width, with the contract of `ComputePlotsPractical`; afterwards the cache holds the result under `size` |
| Row.GrowExample | src/layout/row.rs:154-171 | three children that prefer 5 cells, in a row 18 wide, get 6 cells each |
| Row.ShrinkExample | src/layout/row.rs:172-192 | three children that prefer 5 cells with minimum 2, in a row 9 wide, get 3 cells each, and nothing else satisfies `Shrunk` |
| Common.Lookup | src/widget/common.rs:36-47 | as written, a lookup never changes the memo key; a hit returns the stored dimensions and memo unchanged; a miss returns the estimate at the clamped width and stores it |
| Common.LookupIntended | src/widget/common.rs:36-47 | with the key stored as intended, the memo afterwards hits at the same width and holds the answer; a hit returns the stored dimensions; a miss returns the estimate at the clamped width |
| Common.ReplayNeverHits | src/widget/common.rs:40-46 | starting from a negative key, any series of lookups leaves the key negative, and every answer is a fresh estimate at the clamped width |
| Common.RepeatedQueryMisses | src/widget/common.rs:46 | from a fresh memo, looking up width 5 a second time still misses |
| Common.IntendedRepeatHits | src/widget/common.rs:40-47 | if the memo stores the clamped width as its key, a second lookup at the same width hits and gives the same answer |
| Common.IntendedTransparent | src/widget/common.rs:37-47 | with the intended key, a coherent memo answers every lookup with the estimator's value at the clamped width, and it stays coherent |
| Common.ClearIfNeeded | src/widget/common.rs:54-60 | the clear is forwarded iff the stored token is behind the UI token, and then the token becomes the UI token and the memo is cleared; otherwise token and memo are unchanged; the token never decreases and ends at least at the UI token |
| Common.ClearIfNeededTwice | src/widget/common.rs:54-60 | a second clear with the same UI token changes nothing and is not forwarded |
| Common.WidgetCommon.constructor | src/widget/common.rs:19-26 | starts unselected, with memo `(-1, zero)` and layout token 0 |
| Common.WidgetCommon.EstimateDimensions | src/widget/common.rs:36-48 | the result and new memo are exactly one as-written `Lookup`; nothing else changes; while the key is -1, the key stays -1 and the answer is the estimate at the clamped width |
| Common.WidgetCommon.ClearLayoutCacheIfNeeded | src/widget/common.rs:54-60 | the new token, the memo and the forwarding are exactly `ClearIfNeeded`; the selection is untouched |
| InputBox.DropSelection | src/input/input_box.rs:142-145 | removing an inclusive selection leaves a well-formed collapsed cursor at its left end; it shortens the text by the selection length, keeps the text before it, and does nothing without a selection |
| InputBox.Typed | src/input/input_box.rs:141-160 | typing keeps the cursor well-formed and collapsed; at a plain cursor with room it inserts `c` at the cursor and steps past it (`PlainCursorEdits`) |
| InputBox.Backspaced | src/input/input_box.rs:162-177 | backspace keeps the cursor well-formed and collapsed; at a plain cursor it removes the character before the cursor and steps back (`PlainCursorEdits`), and at position 0 it does nothing (`EdgeCases`) |
| InputBox.Deleted | src/input/input_box.rs:179-192 | delete keeps the cursor well-formed and collapsed; at a plain cursor it removes the character under the cursor and stays (`PlainCursorEdits`), and at the end of the text it does nothing (`EdgeCases`) |
| InputBox.FixedUp | src/input/input_box.rs:222-228 | the fix-up keeps the text, and it makes any ordered pair of ends well-formed |
| InputBox.Highlighted | src/input/input_box.rs:213-220 | a highlight always leaves a well-formed cursor and the text unchanged |
| InputBox.CursorSet | src/input/input_box.rs:194-198 | setting the cursor collapses it to `min(v, len)`, well-formed, text unchanged |
| InputBox.CursorMoved | src/input/input_box.rs:200-211 | a move collapses the cursor inside the text, text unchanged; the target is clamped to `[0, len]` (`EdgeCases`) |
| InputBox.PlainCursorEdits | src/input/input_box.rs:141-192 | at a plain cursor: typing with room gives `text[..l] + [c] + text[l..]` with the cursor at `l + 1`, one character longer; backspace at `l > 0` gives `text[..l-1] + text[l..]` with the cursor at `l - 1`; delete at `l < len` gives `text[..l] + text[l+1..]` with the cursor at `l` |
| InputBox.EdgeCases | src/input/input_box.rs:162-211 | backspace at position 0 and delete at the end of the text are no-ops; a move goes to its start (`r` to the right, `l` to the left) plus the amount, clamped to 0 below and to the length above |
| InputBox.TypeThenBackspace | src/input/input_box.rs:153-175 | at a plain cursor below the limit, typing then backspacing restores the exact state |
| InputBox.TypeMoveDelete | src/input/input_box.rs:153-191 | at a plain cursor below the limit, typing, moving left by one and deleting restores the exact state |
| InputBox.TypeRespectsLimit | src/input/input_box.rs:147-151 | typing never takes a text within the limit past it; it adds at most one character to what is left after the deletion; at or over the limit, only the deletion happens |
| InputBox.TypeReplacesSelection | src/input/input_box.rs:142-159 | with a selection and room, the selection `l..=r` is replaced by the character, and the cursor lands after it |
| InputBox.SelectionEditsAgree | src/input/input_box.rs:163-166 | with a selection, backspace and delete both remove exactly `l..=r` |
| InputBox.FixupIdempotent | src/input/input_box.rs:222-228 | the fix-up leaves a well-formed cursor unchanged |
| InputBox.HighlightMeaning | src/input/input_box.rs:213-228 | highlighting is symmetric in its ends; a range inside the text is kept exactly; the left end is clamped to the length; a selection that would end on the length ends at length - 1 |
| InputBox.SetIsEmptyHighlight | src/input/input_box.rs:194-198 | setting the cursor to `v` is highlighting `[v, v]` |
| InputBox.MovesAdd | src/input/input_box.rs:200-211 | two moves of a plain cursor that stay inside the text add up |
| InputBox.MoveFromSelection | src/input/input_box.rs:200-206 | a move right starts from the right end, and a move left from the left end |
| InputBox.EstimateDimensions | src/input/input_box.rs:111-133 | the preferred width is the larger of the limit (80 without one) and the text length; min equals preferred, with height 2; the max is the limit (or `isize::MAX`) by 2; align (1, 2); no spacers |
| InputBox.PreferredWithinMax | src/input/input_box.rs:113-122 | the preferred width is within the maximum iff the text length is within the limit |
| InputBox.InputBoxState.constructor | src/input/input_box.rs:19-28 | empty text, both cursors at 0, no limit, well-formed |
| InputBox.InputBoxState.TypeCharacter | src/input/input_box.rs:141-160 | the new state is `Typed` of the old; the limit is unchanged; the invariant is kept |
| InputBox.InputBoxState.Backspace | src/input/input_box.rs:162-177 | the new state is `Backspaced` of the old; invariant kept |
| InputBox.InputBoxState.Delete | src/input/input_box.rs:179-192 | the new state is `Deleted` of the old; invariant kept |
| InputBox.InputBoxState.SetCursor | src/input/input_box.rs:194-198 | the new state is `CursorSet`; invariant established from any state |
| InputBox.InputBoxState.MoveCursor | src/input/input_box.rs:200-211 | the new state is `CursorMoved`; invariant established from any state |
| InputBox.InputBoxState.Highlight | src/input/input_box.rs:213-220 | the new state is `Highlighted`; invariant established from any state |
| InputBox.InputBoxState.CursorFixup | src/input/input_box.rs:222-228 | the new state is `FixedUp` of the old |
| InputBox.EditingRoundTrip | src/input/input_box.rs:141-228 | "abc", backspace, highlight (0, 2), "X" gives text "X" with the cursor at 1 |
| BulletinBoard.PinnedDims | src/layout/bulletin_board.rs:48-49 | each child is estimated at the board width minus its own x offset |
| BulletinBoard.BoardDimsMeaning | src/layout/bulletin_board.rs:42-66 | minimum width and height are the largest child minimums, with offsets ignored; preferred width and height are the largest of preferred plus offset; both are at least 0 and 0 with no children; no max, align (1, 1), no spacers |
| BulletinBoard.Place | src/layout/bulletin_board.rs:29-37 | placement is at x, y >= 0 and within the board's right and bottom edges; a child that fits is drawn whole; a child that fits at its offset is drawn exactly there |
| BulletinBoard.BulletinBoardState.constructor | src/layout/bulletin_board.rs:19-25 | no children |
| BulletinBoard.BulletinBoardState.Add | src/layout/bulletin_board.rs:79-81 | `(offset, child)` is appended last |
| BulletinBoard.BulletinBoardState.ClearLayoutCache | src/layout/bulletin_board.rs:69-73 | the clear is forwarded to every child, in order |
| BulletinBoard.BulletinBoardState.EstimateDimensions | src/layout/bulletin_board.rs:41-67 | the four running maxima give exactly `BoardDims` of the children estimated by `PinnedDims` |
| BulletinBoard.BulletinBoardState.Placements | src/layout/bulletin_board.rs:28-37 | each child, estimated at the board width, is placed by `Place` and lies inside the board |
| Border.Container.Set | src/layout/border.rs:28-32 | the container's child becomes `w`, replacing any earlier one; the expansion flags are unchanged |
| Border.BorderState.constructor | src/layout/border.rs:58-87 | five distinct empty containers, of which only the center expands both ways; the column is [north, row, south] and the row is [west, center, east]; the column's state starts with a cleared memo and token 0 |
| Border.BorderState.Set | src/layout/border.rs:26-34 | the slot's container gets the child; the other four slots and all expansion flags are unchanged |
| Border.BorderState.SetNorth | src/layout/border.rs:36-38 | the same contract as `Set(North, w)` |
| Border.BorderState.SetWest | src/layout/border.rs:40-42 | the same contract as `Set(West, w)` |
| Border.BorderState.SetEast | src/layout/border.rs:44-46 | the same contract as `Set(East, w)` |
| Border.BorderState.SetSouth | src/layout/border.rs:48-50 | the same contract as `Set(South, w)` |
| Border.BorderState.SetCenter | src/layout/border.rs:52-54 | the same contract as `Set(Center, w)` |
| Border.BorderState.EstimateDimensions | src/layout/border.rs:93-95 | the border's dimensions are its column's at the same width |
| Border.BorderState.ClearLayoutCache | src/layout/border.rs:97-99 | the clear is the column's `clear_layout_cache_if_needed`: the column's token, memo and forwarding are exactly `ClearIfNeeded` of its old state; its selection is untouched |
| Border.FillBorder | src/layout/border.rs:26-87 | filling a fresh border's five slots puts each child in its own slot, and still only the center expands, horizontally and vertically |

## Left out

- All `draw` rendering: brush fill, bevels, text output, interactors and themes. These are calls into the terminal backend. Only the placement arithmetic in the bulletin board's `draw` is modelled (`Placements`).
- Event-handler registration in the input box's `draw`, and the UI's select/deselect calls. These are closures registered with the backend's menu.
- `menu.rs`, `polymorphic.rs`, `mod.rs` and the example application. They contain forwarding, re-exports and wiring only.
- `LayoutHacks::apply`, `fixup`, `to_internal`, `Column`, `Container`, `Deck`, `Scrollable` and `Spacer` are not part of this model. A child's reported dimensions are whatever the `Estimator` parameter returns, including any memo, hacks and fix-up. `Container` is a single optional child plus two expansion flags.
- Row.ComputePlotsPractical: requires every child's horizontal alignment quantum to be at least 1 when the preferred widths do not fit. Without it the shrink loop need not end. `fixup`, which presumably ensures this, is not part of this model.
- Border.BorderState.EstimateDimensions: the column's estimate, `to_internal` included, is a parameter, because `Column` is not part of this model.
- Border.BorderState.ClearLayoutCache: the column's own `clear_layout_cache` is reported by `forwarded`, but it is not modelled, because `Column` is not part of this model.
- Common.WidgetCommon.ClearLayoutCacheIfNeeded: `forwarded` stands for the widget's own `clear_layout_cache`. The UI token is a parameter.
- Common.WidgetCommon.EstimateDimensions: the widget's own estimator followed by `fixup` is a parameter `int -> Dims`. The selection flag is a plain boolean; `Selection` and `is_selected` are UI calls.
- Widths, offsets and counts are unbounded integers. `isize`/`usize` overflow and the `as usize` / `as isize` casts are not modelled, except for the `usize::MAX` sentinel of the desired pass.
- InputBox: text is a sequence of characters, and positions count characters. The source indexes a UTF-8 `String` by bytes, which would panic for a multi-byte character in the middle of the text.
- `RefCell` borrow panics, interior mutability and `Rc` sharing are not modelled. The caches are plain fields that the methods update in place.
- The input box's `clear_layout_cache` does nothing, so it has no model.

## Findings

| source | as written | input that shows it | evidently intended | confidence | as-written member | corrected member |
|---|---|---|---|---|---|---|
| src/widget/common.rs:46 | on a memo miss it stores `(last_width, new_dims)`, so the key stays at its old value (-1 from creation or a clear) and the memo never hits | a fresh widget asked for width 5 twice: the second lookup finds key -1 and misses | store `(width, new_dims)`, so that a repeated width hits and returns the same dimensions | high, not executed | Common.Lookup with Common.RepeatedQueryMisses and Common.ReplayNeverHits | Common.LookupIntended with Common.IntendedRepeatHits and Common.IntendedTransparent |

The answers as written are still correct, because every lookup recomputes.
The bug costs only the caching. `Common.WidgetCommon.EstimateDimensions`
follows the code: it is tied to `Common.Lookup`, and its `KeyCleared` state
(key -1) holds for every reachable widget.
