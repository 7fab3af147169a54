# Boids: a Dafny model of the GUI, input and simulation core

Boid is a MonoGame flocking demo. About 200 boids steer by cohesion, alignment and separation,
and flee a predator at the mouse. They leave fading traces behind them. A small GUI of labels
and numeric inputs, arranged in grids and vertical stacks, edits the simulation parameters.
The model covers the deterministic logic around the flocking maths:

- **Numeric text entry** (`NumericInputComponent`). The cursor-and-text editor driven by
  `KeyPressed`, the commit on losing focus, the cancel on Escape, the blink timer and the
  border colour.
- **The older numeric input widget** (`NumericInputWidget`) and **the label** (`LabelWidget`).
  Alignment inside the space a layout gives them, finalise-once guards and draw guards.
- **Input dispatch.** `ClickDispatch` is the press/hold/release frame as a value, shared by
  `ClickManagement` and `InputManagement`. `KeyRepeat` is the held-key auto-repeat and the
  reconciliation of the held-key list. The two manager classes are proved against these
  specifications.
- **Layouts.** `StackLayout`, `VerticalStackLayout` and `GridLayout` (arrays updated in place),
  with `LayoutMath` for sums and maxima.
- **GUI lifecycle.** `GuiItems` and `GuiManagement`: placements and the finalise-before-use state
  machine.
- **`Ref<T>`** (`Utility`): the value box and its four comparison operators.
- **Simulation bookkeeping.** `BoidAgent` covers trace fade and expiry, the trace cadence, the
  wall nudge, the speed clamp and integration. `BoidSimulation` covers the fixed population of
  200 and the sequential update order of a frame, with the three neighbour rules (cohesion, separation,
  alignment) as loops proved against specification functions, and the predator push as a
  function.

Decisions the model makes:

- Floats are `real`. `Vector2.Length` and `Vector2.Normalize` are function-valued inputs
  (`VectorOps`). `float.Parse` and `float.ToString` are function-valued fields of the numeric
  input. Where a property depends on them round-tripping, the assumption `RoundTrips(v)` is
  stated as a premise.
- Collaborators are call logs. These are the mocked interfaces in the unit tests: components
  seen by a layout, items seen by the GUI manager, clickables seen by the managers. Each class
  has a `log` of the calls it makes, and its methods state exactly what they append.
- The mouse hit test (`LeftClickArea.Contains(MousePosition)`) and each clickable's `Focused`
  flag are predicates passed in. The button state, the pressed keys and the frame time `dt` are
  also inputs.
- An exception is an `Outcome` (`Throws(kind)`) or a `Result` error. Enumeration values outside
  the named members are an `Unsupported` constructor, so the `_ => throw` arms exist.
- `System.Random.Next(-5, 5)` becomes the constructor input `draws`. Its element type `Draw`
  is the integers in [-5, 4], because the upper bound is exclusive.
- In the code, a boid starts at position (0, 0): the constructor never sets `Position`. The
  model follows the code.
- A frame of the simulator has no snapshot. Boid `i` computes its contributions from a flock
  in which boids `0 .. i-1` have already moved. The model states this as `SequentialFrame`.
- `Flock` and `Align` divide by `Count - 1` = 199 whatever the number of neighbours. The model
  keeps this and proves what it gives for a boid with no neighbour.

## Model

| member | source | states |
|---|---|---|
| GuiCommon.DigitChar | Boid/Gui/Components/NumericInput.cs:143-153 | The character a digit key inserts is a decimal digit whose value is the key's digit. |
| GuiCommon.TruncToInt | Boid/Gui/Label.cs:24-25 | The `(int)` cast truncates toward zero: for x >= 0 it is the largest integer not above x, for x < 0 the smallest not below x. |
| GuiCommon.BorderColor | Boid/Gui/Components/NumericInput.cs:117-130 | Red exactly when focused and the state is None; Yellow exactly when unfocused and None; Orange exactly for Hovered; Magenta exactly for Clicked. |
| GuiCommon.BorderColorDistinguishesStates | Boid/Gui/NumericInput.cs:108-121 | For a fixed focus, two click states with the same border colour are the same state. |
| GuiCommon.AlignmentOffset | Boid/Gui/Label.cs:34-40 | An unsupported alignment is an ArgumentException and nothing else is. Left gives offset zero, Right puts the right edge on the available edge, Center leaves equal space on both sides, and the vertical offset is 0. |
| GuiCommon.BlinkStep | Boid/Gui/Components/NumericInput.cs:75-92 | Unfocused: timer 0 and cursor hidden. Focused: visibility toggles exactly when the accumulated time reaches 0.5, and the timer then keeps only the time beyond 0.5. |
| GuiCommon.BlinkTimerStaysBelowInterval | Boid/Gui/NumericInput.cs:64-80 | With frames of at most 0.5 s, a focused timer stays in [0, 0.5), so the cursor toggles at most once per tick. |
| GuiCommon.UnfocusedCursorNeverShows | Boid/Gui/Components/NumericInput.cs:87-91 | Any non-empty run of unfocused frames ends with the timer at 0 and the cursor hidden, whatever the frame lengths. |
| GuiCommon.FocusedBlinkSequence | BoidTests/Gui/Components/NumericInputTests.cs:259-288 | Focused frames of 0.1 s and 0.45 s alternately give hidden, shown, shown, hidden, hidden, shown. |
| NumericInputComponent.Edit | Boid/Gui/Components/NumericInput.cs:132-187 | After any key the cursor is within the text. Escape, Enter and unhandled keys leave text and cursor alone. |
| NumericInputComponent.DigitInsertsAtCursor | Boid/Gui/Components/NumericInput.cs:143-155 | A digit key inserts its digit at the cursor, keeps the text on both sides and moves the cursor one past the new digit. |
| NumericInputComponent.BackRemovesBeforeCursor | Boid/Gui/Components/NumericInput.cs:156-162 | Backspace at cursor 0 changes nothing. Elsewhere it removes the character before the cursor and moves the cursor left by one. |
| NumericInputComponent.DeleteRemovesAtCursor | Boid/Gui/Components/NumericInput.cs:163-168 | Delete at the end changes nothing. Elsewhere it removes the character at the cursor and the cursor stays. |
| NumericInputComponent.BackUndoesDigit | Boid/Gui/Components/NumericInput.cs:143-162 | Backspace right after a digit restores the previous text and cursor. |
| NumericInputComponent.BackIsLeftThenDelete | Boid/Gui/Components/NumericInput.cs:156-180 | Away from the start, Backspace equals a Left move followed by Delete. |
| NumericInputComponent.ArrowsMoveCursor | Boid/Gui/Components/NumericInput.cs:176-185 | Left moves the cursor one place left, stopping at 0; Right one place right, stopping at the text's length; the text is unchanged. |
| NumericInputComponent.ArrowRunsClamp | Boid/Gui/Components/NumericInput.cs:176-185 | n Lefts move the cursor n places left but not past 0; n Rights n places right but not past the end. |
| NumericInputComponent.ArrowExamples | BoidTests/Gui/Components/NumericInputTests.cs:87-145 | From "123.456" with the cursor at the end: three Lefts give 4, two more Rights 6, seventeen Lefts 0, ten Rights 7. |
| NumericInputComponent.PeriodAtMostOnce | Boid/Gui/Components/NumericInput.cs:169-175 | Only the period key adds a period, and no key takes a text with at most one period to a text with two. |
| NumericInputComponent.SecondPeriodIgnored | BoidTests/Gui/Components/NumericInputTests.cs:176-191 | Pressing the period key a second time changes nothing. |
| NumericInputComponent.EditExamples | BoidTests/Gui/Components/NumericInputTests.cs:87-173 | From "12345" with the cursor at 3: D0 gives "123045", D9 "123945", Back "1245", Delete "1235", the period "123.45", and three periods still "123.45"; from "123.456" at its end the arrow runs give cursors 4, 6, 0 and 7. |
| NumericInputComponent.CommitOfFormattedValue | Boid/Gui/Components/NumericInput.cs:62-68 | Committing the text a number was formatted as gives the number back whenever parsing undoes formatting; a commit fails exactly when the text is non-empty and the parser rejects it. |
| NumericInputComponent.NumericInput.constructor | Boid/Gui/Components/NumericInput.cs:36-53 | Height is the text height plus twice the padding, truncated; the text shows the boxed value with the cursor at its end; unfocused, cursor hidden, timer 0. |
| NumericInputComponent.NumericInput.SyncTextWithValue | Boid/Gui/Components/NumericInput.cs:195-199 | The text becomes the formatted boxed value and the cursor moves to its end. |
| NumericInputComponent.NumericInput.UpdateValue | Boid/Gui/Components/NumericInput.cs:189-193 | The box holds the new value and the text shows it, with the cursor at the end. |
| NumericInputComponent.NumericInput.SetFocused | Boid/Gui/Components/NumericInput.cs:58-70 | Gaining focus changes nothing else. Losing focus commits the parsed text (0 when empty) to the box and resyncs the text. A text that does not parse throws FormatException with box and text unchanged. |
| NumericInputComponent.NumericInput.FrameTick | Boid/Gui/Components/NumericInput.cs:75-92 | Timer and visibility take one blink step. |
| NumericInputComponent.NumericInput.LeftClickAction | Boid/Gui/Components/NumericInput.cs:111-115 | The input becomes focused with the cursor shown; text, cursor and box are unchanged. |
| NumericInputComponent.NumericInput.ChangeState | Boid/Gui/Components/NumericInput.cs:117-130 | The border takes the colour of the click state, Red when focused and None. |
| NumericInputComponent.NumericInput.KeyPressed | Boid/Gui/Components/NumericInput.cs:132-187 | Editing keys follow Edit and leave box and focus alone. Arrows restart the blink with the cursor shown. Enter unfocuses and commits the typed text, or throws if it does not parse. Escape unfocuses and, for a value that round-trips, keeps the box value and shows it. |
| NumericInputWidget.NumericInput.constructor | Boid/Gui/NumericInput.cs:36-46 | Width is the given width and height the text height plus twice the padding, truncated; not finalised, unfocused, cursor hidden. |
| NumericInputWidget.NumericInput.ClickAreaInsideSlot | Boid/Gui/NumericInput.cs:29-59 | After alignment in a slot at least as wide as the box, the click area starts at the slot top, stays within the slot width, and sits flush left, flush right or centred as the alignment says. |
| NumericInputWidget.NumericInput.FinalizeComponent | Boid/Gui/NumericInput.cs:48-62 | A second call throws InvalidOperationException and changes nothing. An unsupported alignment throws ArgumentException and leaves it unfinalised. Otherwise the offset is the alignment offset and the widget is finalised. |
| NumericInputWidget.NumericInput.FrameTick | Boid/Gui/NumericInput.cs:64-80 | Timer and visibility take one blink step. |
| NumericInputWidget.NumericInput.UpdatePosition | Boid/Gui/NumericInput.cs:82-86 | The position is stored and the text moves to position plus offset plus padding. |
| NumericInputWidget.NumericInput.Draw | Boid/Gui/NumericInput.cs:88-93 | Drawing throws InvalidOperationException exactly when the widget is not finalised. |
| NumericInputWidget.NumericInput.LeftClickAction | Boid/Gui/NumericInput.cs:102-106 | The widget becomes focused with the cursor shown. |
| NumericInputWidget.NumericInput.ChangeState | Boid/Gui/NumericInput.cs:108-121 | The border takes the colour of the click state, Red when focused and None. |
| LabelWidget.Label.constructor | Boid/Gui/Label.cs:20-26 | Width and height are the text's size truncated to integers; not finalised. |
| LabelWidget.Label.FinalizeComponent | Boid/Gui/Label.cs:28-42 | A second call throws InvalidOperationException and changes nothing. An unsupported alignment throws ArgumentException and leaves it unfinalised. Otherwise the offset is the alignment offset and the label is finalised. |
| LabelWidget.Label.UpdatePosition | Boid/Gui/Label.cs:44-48 | The position is stored and the text moves to position plus offset. |
| LabelWidget.Label.Draw | Boid/Gui/Label.cs:50-57 | Drawing throws InvalidOperationException exactly when the label is not finalised. |
| Utility.Ref.constructor | Boid/Utility/Ref.cs:9-12 | The box holds the given value. |
| Utility.ComparisonsExclusive | Boid/Utility/Ref.cs:14-17 | `ref > x` and `ref < x` never both hold, and neither do `x > ref` and `x < ref`. |
| Utility.MirroredOperatorsAgree | Boid/Utility/Ref.cs:14-17 | For an antisymmetric CompareTo, `ref > x` iff `x < ref` and `ref < x` iff `x > ref`. |
| Utility.NumericCompare | Boid/Utility/Ref.cs:14-17 | CompareTo on numbers is positive, negative or zero exactly when the first is greater, smaller or equal. |
| Utility.NumericCompareAntisymmetric | Boid/Utility/Ref.cs:14-17 | Numeric CompareTo is antisymmetric, so the mirrored operators agree on numbers. |
| Utility.NumericOperatorsFollowOrder | Boid/Utility/Ref.cs:14-17 | Over numbers each operator is the ordinary order between the boxed value and the bare value. |
| Utility.CompareWithRefOnEitherSide | BoidTests/Utility/RefTests.cs:54-89 | A box of 123 against 456, and 123 against a box of 456: not greater, and less, in both operand orders. |
| GuiItems.PlacementOffset | Boid/Gui/Items/GuiItem.cs:27-39 | An unsupported placement is an ArgumentException and nothing else is. Left, middle and right columns sit flush left, with equal margins, or flush right. Top, center and bottom rows likewise vertically. |
| GuiItems.GuiItem.constructor | Boid/Gui/Items/GuiItem.cs:18-22 | The item keeps its placement and starts unfinalised. |
| GuiItems.GuiItem.Position | Boid/Gui/Items/GuiItem.cs:27-39 | Reading the position throws exactly for an unsupported placement; otherwise it is the view origin plus the placement offset. |
| GuiItems.GuiItem.FinalizeItem | Boid/Gui/Items/GuiItem.cs:41-48 | The item ends finalised; the call throws InvalidOperationException exactly when it already was. |
| GuiItems.GuiItem.FrameTick | Boid/Gui/Items/GuiItem.cs:50-56 | A tick throws InvalidOperationException exactly when the item is not finalised. |
| GuiItems.GuiItem.Draw | Boid/Gui/Items/GuiItem.cs:58-64 | Drawing throws InvalidOperationException exactly when the item is not finalised. |
| GuiItems.PlacementExamples | BoidTests/Gui/Items/GuiItemTests.cs:95-119 | A 40 x 10 item in a 400 x 200 view at (-200, -100): TopMiddle (-20, -100), Center (-20, -5), CenterRight (160, -5), BottomLeft (-200, 90), BottomRight (160, 90). |
| GuiManagement.CallEach | Boid/Gui/GuiManager.cs:31-35 | One call per item, on that item, in list order. |
| GuiManagement.CallEachOncePerEntry | BoidTests/Gui/GuiManagerTests.cs:22-36 | Each item receives the call as many times as it is in the list: once for an item added once. |
| GuiManagement.GuiManager.constructor | Boid/Gui/GuiManager.cs:16-18 | No items, not finalised, no calls. |
| GuiManagement.GuiManager.AddItem | Boid/Gui/GuiManager.cs:20-23 | The item is appended after the earlier ones, with no finalised guard. |
| GuiManagement.GuiManager.FinalizeGui | Boid/Gui/GuiManager.cs:25-36 | A second call throws InvalidOperationException and calls nothing. The first finalises every item once, in order, then sets the flag. |
| GuiManagement.GuiManager.FrameTick | Boid/Gui/GuiManager.cs:38-48 | Before finalising it throws and calls nothing; after, it ticks every item once, in order. |
| GuiManagement.GuiManager.Draw | Boid/Gui/GuiManager.cs:50-60 | Before finalising it throws and calls nothing; after, it draws every item once, in order. |
| GuiManagement.GuiManager.CallOnEach | Boid/Gui/GuiManager.cs:44-47 | The loop over the items appends exactly one call per item, in order. |
| StackLayout.Stack.constructor | Boid/Gui/Layout/Stack.cs:15-16 | No components, position zero, size zero. |
| StackLayout.Stack.AddComponent | Boid/Gui/Layout/Stack.cs:20-23 | The component is appended; the earlier ones keep their places. |
| StackLayout.Stack.UpdatePosition | Boid/Gui/Layout/Stack.cs:27-30 | The position becomes the argument and nothing else changes. |
| VerticalStackLayout.Widest | Boid/Gui/Layout/VerticalStack.cs:24 | The widest width is at least every component's width and is the width of one of them. |
| VerticalStackLayout.StackWidth | Boid/Gui/Layout/VerticalStack.cs:22-31 | Width 0 with no components, otherwise the maximum component width. |
| VerticalStackLayout.RowOffsetStep | Boid/Gui/Layout/VerticalStack.cs:43-48 | Each component starts one height and one spacing below the previous one. |
| VerticalStackLayout.LastComponentEndsAtStackHeight | Boid/Gui/Layout/VerticalStack.cs:25 | The last component ends exactly at the stack's height, so the rows tile the stack. |
| VerticalStackLayout.RowOffsetsIncrease | Boid/Gui/Layout/VerticalStack.cs:43-48 | With non-negative heights and spacing, no component starts above an earlier one. |
| VerticalStackLayout.FinalizeCalls | Boid/Gui/Layout/VerticalStack.cs:32-35 | Each component, in order, is finalised with the whole stack's size. |
| VerticalStackLayout.DrawCalls | Boid/Gui/Layout/VerticalStack.cs:51-57 | Each component is drawn once, in order. |
| VerticalStackLayout.PlaceCalls | Boid/Gui/Layout/VerticalStack.cs:43-48 | Exactly the first n components get a call, in order; component i is placed at the position plus (0, sum of the earlier heights plus i spacings). |
| VerticalStackLayout.VerticalStack.constructor | Boid/Gui/Layout/VerticalStack.cs:15-18 | The spacing is stored, with an empty stack at zero. |
| VerticalStackLayout.VerticalStack.FinalizeStack | Boid/Gui/Layout/VerticalStack.cs:20-36 | Width is the widest component (0 if none). Height is the sum of heights plus spacing times (count - 1) (0 if none). Every component is finalised with those. |
| VerticalStackLayout.VerticalStack.UpdatePosition | Boid/Gui/Layout/VerticalStack.cs:38-49 | The stack's position is recorded and the components are placed top to bottom at their row offsets. |
| VerticalStackLayout.VerticalStack.Draw | Boid/Gui/Layout/VerticalStack.cs:51-57 | Every component is drawn once, in insertion order. |
| GridLayout.CellCallsReachEveryComponent | Boid/Gui/Layout/Grid.cs:64-68 | A pass over a row calls every component in it. |
| GridLayout.GridCallsReachEveryComponent | Boid/Gui/Layout/Grid.cs:62-69 | A pass over the grid calls every component in it. |
| GridLayout.OneCallPerComponentInRow | Boid/Gui/Layout/Grid.cs:64-68 | A pass makes exactly as many calls in a row as the row has components, one each, skipping empty cells. |
| GridLayout.ColumnMaxBounds | Boid/Gui/Layout/Grid.cs:46-57 | A measured column is at least as wide as its start and as every component in it, and equals one of those. |
| GridLayout.RowMaxBounds | Boid/Gui/Layout/Grid.cs:46-57 | A measured row is at least as tall as its start and as every component in it, and equals one of those. |
| GridLayout.ColumnMaxIdempotent | Boid/Gui/Layout/Grid.cs:53 | Measuring a column again with unchanged components leaves its width unchanged. |
| GridLayout.ColumnMaxAbsorbs | Boid/Gui/Layout/Grid.cs:53 | A starting width that no component exceeds is kept. |
| GridLayout.RowMaxIdempotent | Boid/Gui/Layout/Grid.cs:54 | Measuring a row again with unchanged components leaves its height unchanged. |
| GridLayout.RowMaxAbsorbs | Boid/Gui/Layout/Grid.cs:54 | A starting height that no component exceeds is kept. |
| GridLayout.OffsetStep | Boid/Gui/Layout/Grid.cs:94-98 | Each cell starts one column width (row height) and one spacing after the previous one. |
| GridLayout.LastCellEndsAtMargin | Boid/Gui/Layout/Grid.cs:59-60 | The last column (row) ends exactly one margin short of the grid's width (height). |
| GridLayout.CellsDoNotOverlap | Boid/Gui/Layout/Grid.cs:84-100 | With non-negative spacing, a component no wider than its column ends no later than where the next column starts. |
| GridLayout.ComponentsFitTheirCells | Boid/Gui/Layout/Grid.cs:62-69 | From zeroed arrays, every component is finalised with a width and height at least its own. |
| GridLayout.Grid.constructor | Boid/Gui/Layout/Grid.cs:27-34 | A numRows x numCols grid of empty cells, with zeroed column widths (numCols) and row heights (numRows). |
| GridLayout.Grid.AddComponent | Boid/Gui/Layout/Grid.cs:36-39 | Only cell (row, col) changes, overwriting any occupant; a cell outside the grid throws IndexOutOfRangeException and changes nothing. |
| GridLayout.Grid.FinalizeGrid | Boid/Gui/Layout/Grid.cs:41-70 | Columns and rows are widened to their widest and tallest components, never narrowed. Width and height are the sums plus spacings plus two margins, with zero columns when there are no rows. Every component is finalised once, in row-major order. |
| GridLayout.Grid.MeasureCells | Boid/Gui/Layout/Grid.cs:46-57 | The nested loop leaves every column and row at the maximum over its cells, starting from the old value. |
| GridLayout.Grid.MeasureRow | Boid/Gui/Layout/Grid.cs:48-56 | One pass of the inner loop widens every column to the maximum over its cells up to and including row r, raises row r to its tallest component, and changes no other row. |
| GridLayout.Grid.VisitCells | Boid/Gui/Layout/Grid.cs:62-69 | The nested loop calls the components in row-major order, skipping empty cells. |
| GridLayout.Grid.VisitRow | Boid/Gui/Layout/Grid.cs:64-68 | The inner loop calls a row's components left to right, skipping empty cells. |
| GridLayout.Grid.FrameTick | Boid/Gui/Layout/Grid.cs:72-82 | Every component is ticked once, in row-major order. |
| GridLayout.Grid.Draw | Boid/Gui/Layout/Grid.cs:102-112 | Every component is drawn once, in row-major order. |
| GridLayout.Grid.UpdatePosition | Boid/Gui/Layout/Grid.cs:84-100 | Cell (r, c) is placed at the position plus (margin + widths of earlier columns + c spacings, margin + heights of earlier rows + r spacings). |
| ClickDispatch.BroadcastCall | Boid/Input/InputManager.cs:167-181 | Reset sets None, hover sets Hovered or None by containment, unfocus clears focus; none of them is an action or a key. |
| ClickDispatch.BroadcastCalls | Boid/Input/InputManager.cs:124-129 | A broadcast makes one call per registered clickable, in registration order. |
| ClickDispatch.FirstHit | Boid/Input/InputManager.cs:183-194 | The first hit is a clickable containing the mouse with none before it; there is none exactly when no clickable contains the mouse. |
| ClickDispatch.FirstHitExtend | Boid/Input/ClickManager.cs:94-102 | Searching one more clickable finds it only when nothing earlier was hit. |
| ClickDispatch.FirstHitIsFirstContaining | Boid/Input/ClickManager.cs:92-103 | The first hit is the clickable at the first index whose area contains the mouse. |
| ClickDispatch.FrameKeepsConsistency | Boid/Input/ClickManager.cs:46-82 | After any frame, nothing is stored while the button is up, and what is stored is registered. |
| ClickDispatch.PressEdgeSelectsFirstHit | Boid/Input/InputManager.cs:98-112 | On the released-to-pressed edge every clickable is reset to None in order, and the first one under the mouse is stored and shown as Clicked. |
| ClickDispatch.HeldPressTouchesOnlyStored | Boid/Input/ClickManager.cs:57-62 | While the button stays down only the stored clickable is touched, shown Clicked or None by containment. |
| ClickDispatch.ReleasedFrameHovers | Boid/Input/ClickManager.cs:72-81 | A frame with the button up clears the stored clickable and ends with every clickable Hovered or None by containment. |
| ClickDispatch.ActionIffReleasedInside | Boid/Input/ClickManager.cs:66-70 | A clickable's action runs exactly when the button goes up inside the clickable it went down on. |
| ClickDispatch.NoActionInBroadcast | Boid/Input/InputManager.cs:167-181 | No broadcast ever runs an action. |
| ClickDispatch.FocusResetPrecedesAction | Boid/Input/InputManager.cs:117-121 | A completed click first unfocuses every clickable (input manager) or nothing (click manager), then runs the action, then hovers. |
| ClickDispatch.ActionsCountsActionCalls | Boid/Input/ClickManager.cs:69 | The action count is zero exactly when no call is an action. |
| ClickDispatch.AtMostOneActionPerFrame | Boid/Input/ClickManager.cs:46-82 | A frame runs at most one action, and only on the pressed-to-released edge. |
| ClickDispatch.PressedFrameRunsNoAction | Boid/Input/ClickManager.cs:48-63 | A frame with the button down runs no action, whatever was stored or pressed before. |
| ClickDispatch.ReleasedFrameActions | Boid/Input/ClickManager.cs:64-80 | A frame with the button up runs exactly one action when the button was down before and the stored clickable contains the mouse, and none otherwise. |
| ClickDispatch.AtMostOneActionPerClick | Boid/Input/ClickManager.cs:66-72 | Over any run of frames, actions never outnumber the press-and-release cycles. |
| ClickManagement.ClickManager.constructor | Boid/Input/ClickManager.cs:24-28 | No clickables, button released, nothing stored, no calls. |
| ClickManagement.ClickManager.RegisterLeftClick | Boid/Input/ClickManager.cs:36 | The clickable is appended after the earlier registrations. |
| ClickManagement.ClickManager.FrameTick | Boid/Input/ClickManager.cs:38-44 | The frame makes exactly the calls of ClickFrame without focus reset, stores what it stores and records the button. |
| ClickManagement.ClickManager.HandleLeftClick | Boid/Input/ClickManager.cs:46-82 | The imperative handler makes exactly the calls of ClickFrame without focus reset and keeps the state consistent. |
| ClickManagement.ClickManager.HandlePress | Boid/Input/ClickManager.cs:48-63 | The button-down branch makes exactly the calls of a pressed ClickFrame: reset and search only on the press edge, then the stored clickable shown Clicked or None. |
| ClickManagement.ClickManager.HandleRelease | Boid/Input/ClickManager.cs:64-80 | The button-up branch makes exactly the calls of a released ClickFrame: the action on a completed click, then every clickable hovered or not, with nothing stored. |
| ClickManagement.ClickManager.HoverAll | Boid/Input/ClickManager.cs:73-78 | Every clickable, in order, is set Hovered or None by containment. |
| ClickManagement.ClickManager.ResetAllLeftClicks | Boid/Input/ClickManager.cs:84-90 | Every clickable, in order, is set to None. |
| ClickManagement.ClickManager.StoreLeftClicked | Boid/Input/ClickManager.cs:92-103 | The first clickable under the mouse is stored, or none; with nothing registered the stored value is unchanged. |
| KeyRepeat.RepeatStep | Boid/Input/InputManager.cs:41-61 | Once repeating a key stays repeating, and a ready flag is never cleared by a tick. |
| KeyRepeat.SwitchesToContinuousAtThreshold | Boid/Input/InputManager.cs:52-60 | Before repeating, a key switches exactly when its held time reaches 0.5, and is then ready with a zero timer. |
| KeyRepeat.RepeatsEveryDelay | Boid/Input/InputManager.cs:44-51 | A repeating key becomes ready exactly when its timer reaches 0.05; the timer then drops by 0.05. |
| KeyRepeat.RepeatTimerStaysBelowDelay | Boid/Input/InputManager.cs:44-51 | With frames of at most 0.05 s the repeat timer stays in [0, 0.05), so a key is ready at most once per tick. |
| KeyRepeat.HoldRun | Boid/Input/InputManager.cs:28-61 | Holding a key through a run of frames, with the flag read once after each tick, gives exactly one reading per frame; the first reading is the ready flag after the first tick, so a key that was ready is read as ready. |
| KeyRepeat.KeyRepeatExample | Boid/Input/InputManager.cs:23-61 | Held through 0.1 s frames, a key is delivered in frame 1, then not again until frame 5 (0.5 s), then in frame 6. Through 0.25 s frames it is delivered in every frame. A 0.25 s repeating frame leaves 0.2 s on the timer. |
| KeyRepeat.AddMissingFacts | Boid/Input/InputManager.cs:137-144 | Adding keeps the held entries first and untouched, adds fresh entries only for keys not held, holds every pressed key and keeps keys distinct. |
| KeyRepeat.KeepPressedFacts | Boid/Input/InputManager.cs:145 | Removal keeps exactly the entries whose key is still pressed, and keeps keys distinct. |
| KeyRepeat.KeepPressedMembers | Boid/Input/InputManager.cs:145 | An entry survives removal exactly when it was held and its key is among the pressed keys. |
| KeyRepeat.KeepPressedDistinct | Boid/Input/InputManager.cs:145 | Removal never introduces two entries for one key. |
| KeyRepeat.ReconciledHoldsExactlyPressed | Boid/Input/InputManager.cs:137-145 | After reconciliation exactly the pressed keys are held, each once. |
| KeyRepeat.ReconcileKeepsHeldState | Boid/Input/InputManager.cs:137-145 | Keys still pressed keep their repeat state; every other entry is a fresh one for a newly pressed key. |
| KeyRepeat.TickAllKeepsKeys | Boid/Input/InputManager.cs:147-150 | Ticking every held key keeps each key in its place, keeps the keys distinct, and never takes back a ready flag. |
| KeyRepeat.ClearReadyKeepsKeys | Boid/Input/InputManager.cs:27-35 | Reading every ready flag keeps the keys in place, leaves no key ready, and reading again changes nothing. |
| KeyRepeat.NoReadyKeysWhenCleared | Boid/Input/InputManager.cs:156-162 | With every flag cleared, no key is ready. |
| KeyRepeat.ReadyKeysAreTheReadyOnes | Boid/Input/InputManager.cs:156-162 | A key is delivered exactly when a held entry for it is ready. |
| KeyRepeat.NewKeyIsDeliveredAtOnce | Boid/Input/InputManager.cs:27 | A newly pressed key is ready in its first frame, whatever that frame's length. |
| InputManagement.HeldKey.constructor | Boid/Input/InputManager.cs:26-39 | A new held key is ready, not repeating, with timer 0. |
| InputManagement.HeldKey.TakeReady | Boid/Input/InputManager.cs:28-36 | Reading returns the flag and clears it, so a second read before the next tick is false. |
| InputManagement.HeldKey.FrameTick | Boid/Input/InputManager.cs:41-61 | The held key takes exactly one repeat step. |
| InputManagement.SnapshotKeys | Boid/Input/InputManager.cs:71 | The held-key objects have distinct keys exactly when the list of their keys and states does. |
| InputManagement.KeysGoOnlyToFirstFocused | Boid/Input/InputManager.cs:152-164 | Every delivered key goes to the first focused clickable; with none focused nothing is delivered and no flag is read. |
| InputManagement.ReadyKeysReachFirstFocused | Boid/Input/InputManager.cs:152-164 | With a focused clickable, a key reaches it exactly when the key is ready, and afterwards no key is ready. |
| InputManagement.KeyboardFrameHoldsPressedKeys | Boid/Input/InputManager.cs:135-165 | After a keyboard frame exactly the pressed keys are held, each once, in reconciliation order. |
| InputManagement.InputManager.constructor | Boid/Input/InputManager.cs:70-75 | No clickables, no held keys, button released, nothing stored, no calls. |
| InputManagement.InputManager.RegisterLeftClick | Boid/Input/InputManager.cs:84 | The clickable is appended after the earlier registrations. |
| InputManagement.InputManager.FrameTick | Boid/Input/InputManager.cs:86-94 | The click frame with focus reset comes first, then the keyboard frame. The calls, the stored clickable and the held keys are exactly those two specifications'. |
| InputManagement.InputManager.HandleLeftClick | Boid/Input/InputManager.cs:96-133 | The imperative handler makes exactly the calls of ClickFrame with focus reset and keeps the state consistent. |
| InputManagement.InputManager.HandlePress | Boid/Input/InputManager.cs:98-113 | The button-down branch makes exactly the calls of a pressed ClickFrame with focus reset. |
| InputManagement.InputManager.HandleRelease | Boid/Input/InputManager.cs:114-131 | The button-up branch makes exactly the calls of a released ClickFrame with focus reset: every clickable unfocused just before the action of a completed click. |
| InputManagement.InputManager.HoverAll | Boid/Input/InputManager.cs:124-129 | Every clickable, in order, is set Hovered or None by containment. |
| InputManagement.InputManager.ResetAllFocus | Boid/Input/InputManager.cs:167-173 | Every clickable, in order, is unfocused. |
| InputManagement.InputManager.ResetAllLeftClicks | Boid/Input/InputManager.cs:175-181 | Every clickable, in order, is set to None. |
| InputManagement.InputManager.StoreLeftClicked | Boid/Input/InputManager.cs:183-194 | The first clickable under the mouse is stored, or none; with nothing registered the stored value is unchanged. |
| InputManagement.InputManager.HandleKeyboardInput | Boid/Input/InputManager.cs:135-165 | Reconcile, tick and deliver: the calls and the held keys are exactly those of KeyboardFrame, and keys stay distinct. |
| InputManagement.InputManager.ReconcileHeldKeys | Boid/Input/InputManager.cs:137-145 | The held list becomes the reconciled list. Every held object is an old one or a fresh one, and keys stay distinct. |
| InputManagement.InputManager.AddPressedKeys | Boid/Input/InputManager.cs:137-144 | A fresh held key is appended for every pressed key not yet held. |
| InputManagement.InputManager.RemoveReleasedKeys | Boid/Input/InputManager.cs:145 | The held keys no longer pressed are dropped, keeping the order of the rest. |
| InputManagement.InputManager.TickHeldKeys | Boid/Input/InputManager.cs:147-150 | Every held key takes exactly one repeat step. |
| InputManagement.InputManager.DeliverKeys | Boid/Input/InputManager.cs:152-164 | The loop over the clickables delivers exactly Deliveries and leaves the held keys as AfterDelivery says. |
| InputManagement.InputManager.OfferHeldKeys | Boid/Input/InputManager.cs:156-162 | Every ready key is delivered to the clickable in holding order, and every flag is cleared. |
| InputManagement.InputManager.OfferKey | Boid/Input/InputManager.cs:156-162 | One step of the inner loop: the held key is delivered exactly when it was ready, its flag is cleared and no other held key changes. |
| BoidAgent.TraceStep | Boid/Simulation/Boid.cs:30-38 | The fade drops by dt/10 and never goes below 0. A trace expires exactly when the fade reaches 0 or below, is then pinned at exactly 0, and never un-expires. |
| BoidAgent.ElapsedNonNegative | Boid/Simulation/Boid.cs:32 | Frames of non-negative length add up to a non-negative time. |
| BoidAgent.TraceFadesLinearly | Boid/Simulation/Boid.cs:14-37 | After frames totalling T seconds the fade is max(0, f - T/10), and the trace has expired exactly when f - T/10 <= 0. |
| BoidAgent.FreshTraceLastsTenSeconds | Boid/Simulation/Boid.cs:14-15 | A new trace has expired exactly once ten seconds have passed. |
| BoidAgent.Trace.constructor | Boid/Simulation/Boid.cs:15-23 | A new trace has its two points, fade 1 and is not expired. |
| BoidAgent.Trace.FrameTick | Boid/Simulation/Boid.cs:30-38 | The trace takes exactly one trace step. |
| BoidAgent.Live | Boid/Simulation/Boid.cs:89 | Removal keeps only traces of the list that have not expired, and never adds any. |
| BoidAgent.LiveKeepsUnexpired | Boid/Simulation/Boid.cs:89 | Every trace that has not expired survives removal. |
| BoidAgent.LiveKeepsDistinct | Boid/Simulation/Boid.cs:89 | Removal keeps the traces distinct. |
| BoidAgent.LiveOfAppended | Boid/Simulation/Boid.cs:86-89 | A trace emitted in this frame, not yet expired, survives this frame's removal, at the end. |
| BoidAgent.NudgeAxisIsUnitStep | Boid/Simulation/Boid.cs:100-107 | A component moves by exactly -1, 0 or +1: down exactly at or past the far margin, up exactly short of it and at or before the near margin. |
| BoidAgent.WallNudgeIsUnitStep | Boid/Simulation/Boid.cs:97-117 | Each velocity component changes by -1, 0 or +1, away from the wall the boid is near; the far wall wins where both apply. |
| BoidAgent.ClampOnlyOutsideRange | Boid/Simulation/Boid.cs:70-78 | The velocity changes only when its speed is above the maximum or below the minimum, and the maximum is checked first. |
| BoidAgent.TraceTimerStaysInRange | Boid/Simulation/Boid.cs:81-88 | With frames of at most 0.2 s the trace timer stays in [0, 0.2), so at most one trace is emitted per frame. |
| BoidAgent.Boid.constructor | Boid/Simulation/Boid.cs:50-56 | A boid starts at the origin with the given velocity, no contributions, no traces and its last trace point at the origin. |
| BoidAgent.Boid.FrameTick | Boid/Simulation/Boid.cs:65-95 | The velocity takes contributions, wall nudge and clamp, and the position advances by velocity times dt. A trace from the new position to the last trace point is emitted exactly when the timer reaches 0.2. Traces expired before the frame are dropped and the rest ticked. |
| BoidAgent.Boid.Step | Boid/Simulation/Boid.cs:65-79 | As the flock sees it, a frame replaces the boid's steering state by Move of its old one. |
| BoidAgent.Boid.Advance | Boid/Simulation/Boid.cs:67-79 | The velocity becomes the steered one (contributions, wall nudge, clamp) of the old state, and the position moves by the new velocity times dt. |
| BoidAgent.Boid.UpdateTraces | Boid/Simulation/Boid.cs:81-94 | Emission, then removal of the traces expired before the frame, then one tick of each survivor, in order. |
| BoidAgent.Boid.PruneAndTick | Boid/Simulation/Boid.cs:89-94 | The traces become exactly the live ones, in order, and each takes one trace step. |
| BoidAgent.Boid.EmitTrace | Boid/Simulation/Boid.cs:81-88 | When the timer reaches 0.2 it drops by 0.2, a fresh trace is appended and the last trace point moves to the position; otherwise only the timer grows. |
| BoidAgent.Boid.RemoveExpiredTraces | Boid/Simulation/Boid.cs:89 | The traces become the live ones, in order, and stay distinct. |
| BoidAgent.Boid.AvoidWalls | Boid/Simulation/Boid.cs:97-117 | The velocity takes the wall nudge of the current position; the position is untouched. |
| BoidAgent.Boid.ClampSpeed | Boid/Simulation/Boid.cs:70-78 | The velocity becomes its clamp. |
| BoidAgent.Boid.TickTraces | Boid/Simulation/Boid.cs:91-94 | Every trace takes exactly one trace step. |
| BoidSimulation.PredatorOnlyWithinDistance | Boid/Simulation/BoidSimulator.cs:109-120 | The push is zero unless the mouse is strictly within the distance. Inside, it points away from the mouse, scaled by a factor that is positive for a positive power. |
| BoidSimulation.NoNeighbourLeavesStart | Boid/Simulation/BoidSimulator.cs:53-64 | When no other boid is strictly within the rule's radius, the rule's sum stays at its start value. |
| BoidSimulation.OwnStateIsSkipped | Boid/Simulation/BoidSimulator.cs:55-58 | A boid's own velocity and contributions never enter its sums; only its position, as the centre, does. |
| BoidSimulation.AvoidWithoutNeighbours | Boid/Simulation/BoidSimulator.cs:70-87 | Separation is the zero vector when no other boid is strictly within the avoid distance. |
| BoidSimulation.FlockWithoutNeighbours | Boid/Simulation/BoidSimulator.cs:50-68 | With no neighbour, cohesion is (position/199 - position) times 0.003, which is non-zero unless the position is zero. |
| BoidSimulation.AlignWithoutNeighbours | Boid/Simulation/BoidSimulator.cs:89-107 | With no neighbour, alignment is (velocity/199 - velocity) times 0.01, which is non-zero unless the velocity is zero. |
| BoidSimulation.SequentialFrame | Boid/Simulation/BoidSimulator.cs:31-38 | After the first k turns of a frame the boids from k on are untouched. |
| BoidSimulation.LaterBoidsSeeEarlierUpdates | Boid/Simulation/BoidSimulator.cs:31-38 | When boid i takes its turn, every earlier boid already holds its final state of the frame and every later boid its state from before. Boid i's final state is computed from that mixed flock. |
| BoidSimulation.AdvanceReceivesContributions | Boid/Simulation/BoidSimulator.cs:33-37 | A boid's turn is the move it makes after receiving exactly the four contributions computed from the flock it sees. |
| BoidSimulation.NextTurn | Boid/Simulation/BoidSimulator.cs:31-38 | Each further turn changes only boid i, replacing it by its turn on the flock as the earlier turns left it. |
| BoidSimulation.FinishedTurnsStay | Boid/Simulation/BoidSimulator.cs:31-38 | Once a boid has had its turn, later turns leave it as it is. |
| BoidSimulation.TurnTakesContributions | Boid/Simulation/BoidSimulator.cs:33-37 | Boid i's turn replaces its state by the move it makes with the four contributions computed from the flock as the earlier turns left it. |
| BoidSimulation.BoidSimulator.constructor | Boid/Simulation/BoidSimulator.cs:19-27 | Exactly 200 distinct fresh boids at the origin, boid k with velocity draws[k] (components in [-5, 4]) and no traces. |
| BoidSimulation.BoidSimulator.FrameTick | Boid/Simulation/BoidSimulator.cs:29-39 | The flock's states after a frame are the sequential frame: the boids take their turns in list order, each one reading the flock as the earlier turns left it. |
| BoidSimulation.BoidSimulator.NextInFrame | Boid/Simulation/BoidSimulator.cs:33-37 | One iteration of the frame loop extends the sequential frame by boid i. |
| BoidSimulation.BoidSimulator.TakeTurn | Boid/Simulation/BoidSimulator.cs:33-37 | The contributions are computed from the flock as it stands, and only boid i then moves with them. |
| BoidSimulation.BoidSimulator.ReceiveAndAdvance | Boid/Simulation/BoidSimulator.cs:33-37 | Boid i receives the contributions and moves; no other boid's state changes. |
| BoidSimulation.BoidSimulator.ComputeContributions | Boid/Simulation/BoidSimulator.cs:33-36 | The four contributions are those of the specification, computed without changing any boid. |
| BoidSimulation.BoidSimulator.Flock | Boid/Simulation/BoidSimulator.cs:50-68 | The loop's result is the cohesion rule: neighbours' positions plus the boid's own, divided by 199, minus the position, times the power. |
| BoidSimulation.BoidSimulator.Avoid | Boid/Simulation/BoidSimulator.cs:70-87 | The loop's result is the separation rule: each neighbour's negated difference weighted by how far inside the avoid distance it is, times the power. |
| BoidSimulation.BoidSimulator.Align | Boid/Simulation/BoidSimulator.cs:89-107 | The loop's result is the alignment rule: neighbours' velocities plus the boid's own, divided by 199, minus the velocity, times the power. |

## Left out

- Rendering: every `Draw` body beyond its finalised guard, the sprite batch, the camera
  (`LayerView`), font measurement and asset loading. A component's drawn size enters as a
  number.
- Devices and the clock: the mouse, the keyboard and the frame timer. The button state, the
  pressed keys, the hit test, the clickables' focus and `dt` are inputs.
- Floating point: floats are reals, so rounding is not modelled. `Vector2.Length` and
  `Vector2.Normalize` are function-valued inputs with no properties required of them, so nothing is
  claimed about speeds. `Normalize` of the zero vector (Boid/Simulation/Boid.cs:73,77) is
  whatever the given function returns.
- `float.Parse` and `float.ToString` are function-valued fields. A malformed text is a
  `Malformed` parse and becomes a FormatException outcome.
- NumericInputComponent.NumericInput.KeyPressed: Escape keeps the box value only under the
  premise `RoundTrips(value)`, because formatting and parsing a float are foreign to the
  model.
- InputManagement.InputManager.FrameTick: the clickables' focus during keyboard delivery is
  the input `focused`, not derived from this frame's click calls. A clickable's `KeyPressed`
  can change only its own focus, and the loop has already passed it.
- Components, items and clickables are identities in call logs. Their own reactions to the
  calls (a label finalising itself inside a grid, say) are modelled by their own classes,
  not by the layouts.
- `GridLayout.Grid.constructor`: the sizes are `nat`. The negative array sizes C# rejects
  are not modelled.
- A null grid cell is `Cell.Empty`. A null item or component in the other lists is not
  modelled.
- The out-of-range `ClickState` arm of `ChangeState` (an ArgumentException) cannot occur,
  because `ClickState` has only its three members here.
- `Random`: the constructor takes the 200 velocity draws as an input.
- Parameters.cs, Settings.cs, Game1.cs and the other wiring files are not part of this
  model. The parameters are the `Parameters` value.
- `BoidSimulator.Draw` and `Boid.Draw` only render; they are not modelled.
- BoidSimulation.BoidSimulator.FrameTick states the flock's steering states. Each boid's
  trace bookkeeping in the frame is what `BoidAgent.Boid.FrameTick` states.
- BoidTests/Gui/Components/GuiComponentTests.cs expects finalise, tick and draw guards that
  Boid/Gui/Components/GuiComponent.cs does not have. Components/Label.cs and
  Components/NumericInput.cs call a `base(horizontalAlignment)` constructor and an `Origin`
  member that GuiComponent.cs lacks. Components/NumericInput.cs also reads and writes
  `_text.Text`, which the `ITextDisplay` interface in Boid/Visual/TextDisplay.cs does not
  declare; the model takes it as the displayed string. The model follows the class files,
  not those tests.
- Exceptions thrown by a callee part-way through a loop: GuiManagement.GuiManager.FinalizeGui,
  GridLayout.Grid.FinalizeGrid, GridLayout.Grid.VisitCells, VerticalStackLayout.VerticalStack.FinalizeStack,
  InputManagement.InputManager.FrameTick, InputManagement.InputManager.HandleLeftClick,
  InputManagement.InputManager.HandleRelease, InputManagement.InputManager.ResetAllFocus,
  InputManagement.InputManager.HandleKeyboardInput, InputManagement.InputManager.DeliverKeys
  and InputManagement.InputManager.OfferHeldKeys state their ensures only for callees that
  return normally. In C# an exception from an item, a component or a clickable ends the loop
  where it is. Examples: an item added twice throws in its second `FinalizeItem`
  (Boid/Gui/Items/GuiItem.cs:43-46), so `_finalized` (Boid/Gui/GuiManager.cs:35) is never set.
  A numeric input holding "." throws FormatException when `ResetAllFocus`
  (Boid/Input/InputManager.cs:119) unfocuses it, so the action, the hover loop and
  `_previousLeftButtonState` are skipped. The same happens when Enter is delivered at
  Boid/Input/InputManager.cs:160, which leaves later ready flags set. The model's call logs
  always run to the end.
- 32-bit integer overflow: sizes, spacings and offsets are unbounded `int`s. GridLayout.Grid.FinalizeGrid
  (width and height), VerticalStackLayout.VerticalStack.FinalizeStack (height),
  GridLayout.Grid.UpdatePosition and VerticalStackLayout.VerticalStack.UpdatePosition
  (running offsets) assume all sizes stay within int32. The OverflowException of
  `Enumerable.Sum` (Boid/Gui/Layout/Grid.cs:59-60, Boid/Gui/Layout/VerticalStack.cs:25) and
  the silent wrap-around of `_spacing * (n - 1)` and of the offsets are not modelled.
- GuiCommon.TruncToInt: truncates any real toward zero. The unspecified result of an `(int)`
  cast of a float outside the int32 range (Boid/Gui/Label.cs:24-25) is not modelled.
