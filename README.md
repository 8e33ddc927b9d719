# winpad_layout, modelled in Dafny

winpad_layout is a Windows tray utility. It snaps the foreground window onto a 3x3 grid of the monitor's work area. The user holds left Ctrl and releases two keys of the numeric keypad. Keypad 1 is the bottom-left cell and 9 the top-right one. The window is then moved so that its visible frame covers the bounding box of the two cells. Two opposite corners (1 and 9, or 3 and 7) maximize the window instead.

The whole program is one file, `main.cpp`. This project models its logic, without the Win32 shell around it:

- `geometry.dfy` (module `Geometry`) holds the grid and the border arithmetic: `GetQuadrant`, `ShouldBeMaximized`, the per-side subtraction of `GetWindowBorder`, and the min/max union of two cells. C++ `/` and `%` truncate toward zero, so the model spells them out (`Div3`, `Rem3`) rather than use Dafny's Euclidean operators.
- `placement.dfy` (module `Placement`) holds the decision the hook takes when a gesture completes, as a pure function `Place`. It chooses to maximize, to do nothing, to move, or to restore and then move. It works from a snapshot of what the Win32 queries return: the window rectangle, the extended (visible) frame, the monitor's work area and the maximized flag.
- `gesture.dfy` (module `Gesture`) states the keyboard state machine as a transition function `Step` over the pair (Ctrl held, pending first cell). `Run` folds `Step` over a sequence of events. The lemmas cover single events, runs, whole gestures and cancelled gestures.
- `hook.dfy` (module `Hook`) holds the callback `KeybdProc` itself. It is a class `KeyboardHook` whose two fields are the callback's two `static` locals, `ctrl_down` and `first_quadrant` (an `int` that is -1 or a cell). `HandleEvent` follows the C++ chain of `if`s with its early returns, and its contract ties it to `Gesture.Step` and `Placement.Place`. `PlaceWindow` is the placement branch written as the code computes it.
- `wrappers.dfy` (module `Wrappers`) holds an `Option` type.

Win32 results are method arguments (`WindowSnapshot`). Win32 effects are returned values:
- `Verdict` says whether the event is consumed (`return 1`) or forwarded (`CallNextHookEx`).
- `Action` says which of `ShowWindow(SW_MAXIMIZE)`, `ShowWindowAsync(SW_SHOWNORMAL)` and `SetWindowPos` would run, and with which position and size.

`main.cpp` checks none of its Win32 calls, and the model adds no guard:
- a no-op when the monitor query fails;
- an all-zero border when the DWM query fails;
- a no-op when there is no foreground window.

The model follows the code: a degenerate work area or border is used exactly as the arithmetic gives it. For a degenerate work area, see `CellWithinWorkArea`, which needs a non-negative width and height, and `OuterGridLinesExact`, which needs neither.

## Model

| member | source | states |
|---|---|---|
| `Geometry.Div3` | main.cpp:21-30 | C++ `a / 3` on `int`, truncated toward zero. Its properties are in `Geometry.TruncatedDivision`. |
| `Geometry.Rem3` | main.cpp:21-22 | C++ `a % 3` on `int`, with the sign of `a`. Its properties are in `Geometry.TruncatedDivision`. |
| `Geometry.TruncatedDivision` | main.cpp:21-30 | The model's `/ 3` and `% 3` are C++'s: the quotient is truncated toward zero, quotient and remainder recombine to the dividend, and the remainder is below 3 in magnitude and takes the dividend's sign. |
| `Geometry.RowColInGrid` | main.cpp:21-22 | For every index 1..9, row and column are in 0..2, and the index is recovered as `3 * (2 - row) + col + 1`. |
| `Geometry.KeypadCorners` | main.cpp:21-22 | Index 1 is row 2, column 0 (bottom-left). 3 is bottom-right, 7 top-left, 9 row 0, column 2 (top-right), and 5 the centre. |
| `Geometry.RowColInjective` | main.cpp:21-22 | Two indices have the same row and column exactly when they are equal. |
| `Geometry.GetQuadrant` | main.cpp:17-33 | The cell of an index. Its properties are in `RowColInGrid`, `KeypadCorners` and `RowColInjective` (row and column), and in `CellWithinWorkArea`, `CellSizeIsAThird`, `CellsReachEdges`, `RowNeighboursShareEdge`, `ColumnNeighboursShareEdge` and `CellTouchesEdgeIff` (tiling). `QuadrantNoOverflow` covers 32-bit range, and the two cell examples give concrete values. |
| `Geometry.GridLinesOrdered` | main.cpp:27-30 | On a non-negative extent the grid lines `k * len / 3` are ordered and lie within 0..len. |
| `Geometry.GridLineSpacing` | main.cpp:27-30 | On a non-negative extent, consecutive grid lines are `len / 3` or `len / 3 + 1` apart. |
| `Geometry.OuterGridLinesExact` | main.cpp:27-30 | Whatever the sign of the extent, the first grid line is 0 and the last is exactly `len`. |
| `Geometry.CellWithinWorkArea` | main.cpp:17-33 | With non-negative width and height, every cell is a well-formed rectangle inside the work area. |
| `Geometry.CellSizeIsAThird` | main.cpp:24-30 | With non-negative width and height, every cell's width and height are a third of the work area's, rounded down or up. |
| `Geometry.CellsReachEdges` | main.cpp:27-30 | Column 0 starts at the work area's left edge and column 2 ends at its right edge. Row 0 starts at the top edge and row 2 ends at the bottom edge. |
| `Geometry.RowNeighboursShareEdge` | main.cpp:27-30 | A cell not in the right column has a neighbour `q + 1`. That neighbour's left edge is the cell's right edge, and the two share their top and bottom. |
| `Geometry.ColumnNeighboursShareEdge` | main.cpp:27-30 | The cell `q + 3` is directly above `q`: its bottom edge is `q`'s top edge, and the two share their left and right. |
| `Geometry.InnerGridLinesStrict` | main.cpp:27-30 | On an extent of at least 3 pixels the two inner grid lines lie strictly inside it. |
| `Geometry.CellTouchesEdgeIff` | main.cpp:27-30 | On a work area of at least 3x3 pixels, a cell touches an edge if and only if it is in the outer row or column on that side. |
| `Geometry.BottomLeftCellExample` | main.cpp:17-33 | On the work area (0,0)-(1200,900), index 1 is (0,600)-(400,900). |
| `Geometry.BottomRightCellExample` | main.cpp:17-33 | On the work area (0,0)-(1200,900), index 3 is (800,600)-(1200,900). |
| `Geometry.ShouldBeMaximized` | main.cpp:48-60 | The four-branch test of the maximizing pairs. Its properties are in `ShouldBeMaximizedSymmetric`, `ShouldBeMaximizedIrreflexive`, `ShouldBeMaximizedPairs`, `ShouldBeMaximizedIffOppositeCorners` and `ShouldBeMaximizedIffUnionIsWorkArea`. |
| `Geometry.ShouldBeMaximizedSymmetric` | main.cpp:48-60 | The order of the two keys does not change whether the window is maximized. |
| `Geometry.ShouldBeMaximizedIrreflexive` | main.cpp:48-60 | The same key twice never maximizes. |
| `Geometry.ShouldBeMaximizedPairs` | main.cpp:48-60 | The result is true exactly when the unordered pair is {1, 9} or {3, 7}. |
| `Geometry.ShouldBeMaximizedIffOppositeCorners` | main.cpp:48-60 | A pair maximizes if and only if, between them, the two cells lie in row 0 and row 2 and in column 0 and column 2. |
| `Geometry.Union` | main.cpp:155-158 | The componentwise `std::min`/`std::max` of two rectangles. Its properties are in `UnionIsBoundingBox` and `UnionWithinWorkArea`. |
| `Geometry.UnionIsBoundingBox` | main.cpp:155-158 | The componentwise min/max of two rectangles contains both and lies inside every rectangle that contains both. It ignores the order of the two and is idempotent. |
| `Geometry.ShouldBeMaximizedIffUnionIsWorkArea` | main.cpp:138-158 | On a work area of at least 3x3 pixels, a pair maximizes if and only if the bounding box of its two cells is the whole work area. |
| `Geometry.UnionWithinWorkArea` | main.cpp:151-158 | With non-negative width and height, the bounding box of any two cells lies inside the work area. |
| `Geometry.WindowBorder` | main.cpp:73-76 | Adding the border to the extended frame gives back the window rectangle on each of the four sides. |
| `Geometry.NoBorderWhenFramesAgree` | main.cpp:73-76 | A window whose rectangle equals its extended frame has a zero border. |
| `Geometry.GridLineBounded` | main.cpp:27-30 | For an extent within ±2^28, the product `k * len` and the grid line stay within 32-bit range. |
| `Geometry.QuadrantNoOverflow` | main.cpp:17-33 | For work-area coordinates within ±2^27, every intermediate value of `GetQuadrant` fits in a 32-bit LONG, so the unbounded model computes what the C++ computes. |
| `Placement.TargetRect` | main.cpp:154-158 | `new_rect`: the cells' union widened by the border on every side. `MovedFrameIsCellUnion` shows that the window's visible frame then equals the cells' union, and `PlacementNoOverflow` shows that its edges fit in 32 bits. |
| `Placement.PosOf` | main.cpp:164-166 | The SetWindowPos origin is the target's left and top edge. The width and height are chosen so that the far edges land on the target's right and bottom. |
| `Placement.Place` | main.cpp:138-166 | The four outcomes, each in both directions. The pair maximizes and the window is not maximized: Maximize. It maximizes and the window is maximized: nothing. The pair does not maximize: a move, preceded by a restore exactly when the window is maximized. |
| `Placement.WidenedFrame` | main.cpp:154-166 | A window placed at a rectangle widened by its border, and keeping that border, shows exactly the original rectangle. |
| `Placement.MovedFrameIsCellUnion` | main.cpp:143-166 | For a non-maximizing pair, the action is a move or a restore-and-move. The window's visible frame then equals the bounding box of the two cells, which lies inside a non-negative work area. |
| `Placement.BorderlessWindowFillsCells` | main.cpp:154-166 | A window without an invisible border is moved, or restored and moved, exactly onto the cells' bounding box. |
| `Placement.MaximizeIgnoresGeometry` | main.cpp:138-142 | With a maximizing pair, the action depends only on the maximized flag, not on any rectangle. |
| `Placement.MaximizeIffCellsSpanWorkArea` | main.cpp:138-158 | On a work area of at least 3x3 pixels, the hook maximizes or leaves the window alone if and only if the cells' bounding box is the whole work area. |
| `Placement.BottomRowCellsExample` | main.cpp:151-158 | On the work area (0,0)-(1200,900), cells 1 and 3 span (0,600)-(1200,900). |
| `Placement.PlacementNoOverflow` | main.cpp:154-166 | With all three rectangles within ±2^27, the border, the target edges, the width and the height all fit in 32 bits. |
| `Gesture.NumpadKeyNamesCell` | main.cpp:118-119 | Every cell 1..9 has a key in VK_NUMPAD1..VK_NUMPAD9, and `vk - VK_NUMPAD1 + 1` maps that key back to the cell. |
| `Gesture.CellNamesNumpadKey` | main.cpp:118-119 | Every key in VK_NUMPAD1..VK_NUMPAD9 is the key of the cell `vk - VK_NUMPAD1 + 1`, so keys and cells correspond one to one. |
| `Gesture.NumpadEnds` | main.cpp:118-119 | VK_NUMPAD1 names cell 1 and VK_NUMPAD9 names cell 9. |
| `Gesture.Step` | main.cpp:89-174 | One call of the callback on the two statics, as a transition function. Its properties are in `ConsumedIffCellKey`, `CommandIffSecondKeyUp`, `NegativeCodeForwarded`, `DigitDownWhileHeldSwallowed`, `CtrlUpResets`, `CtrlDownKeepsPending`, `StateChangesOnlyOnCtrlOrCellKeyUp` and `StepKeepsCoherent`. `Hook.KeyboardHook.HandleEvent` is proved equal to it. |
| `Gesture.ConsumedIffCellKey` | main.cpp:89-174 | An event is consumed if and only if it is a keypad 1..9 key-down or key-up while left Ctrl is held. Every other event is forwarded. |
| `Gesture.CommandIffSecondKeyUp` | main.cpp:116-171 | A command is completed if and only if a keypad key goes up while Ctrl is held and a first cell is pending. The command pairs the pending cell with the released one, clears the pending cell, and the event is consumed. |
| `Gesture.NegativeCodeForwarded` | main.cpp:89-90 | An event with a negative hook code is forwarded and changes nothing. |
| `Gesture.DigitDownWhileHeldSwallowed` | main.cpp:108-112 | A keypad key-down while Ctrl is held is consumed and changes nothing. |
| `Gesture.CtrlUpResets` | main.cpp:97-101 | Left Ctrl going up clears both fields and is forwarded. |
| `Gesture.CtrlDownKeepsPending` | main.cpp:95-96 | Left Ctrl going down (including auto-repeat) marks it held, keeps the pending cell and is forwarded. |
| `Gesture.StateChangesOnlyOnCtrlOrCellKeyUp` | main.cpp:94-128 | Only left Ctrl events and keypad key-ups while Ctrl is held change the state. |
| `Gesture.StepKeepsCoherent` | main.cpp:95-128 | No event leaves a cell pending while Ctrl is up. |
| `Gesture.Run` | main.cpp:83-175 | A run of events gives one verdict per event and at most one command per event. |
| `Gesture.RunAppend` | main.cpp:85-86 | Because the statics persist between calls, running two event sequences one after the other equals running their concatenation. |
| `Gesture.RunKeepsCoherent` | main.cpp:85-128 | Any run from a coherent state ends in a coherent state. |
| `Gesture.CommandsAreConsumed` | main.cpp:122-171 | A run completes no more commands than it consumes events. |
| `Gesture.FirstKeyRecords` | main.cpp:95-128 | Ctrl down, then keypad a pressed and released: the Ctrl press is forwarded, both keypad events are consumed, and the release only records a. |
| `Gesture.SecondKeyCompletes` | main.cpp:108-171 | With a pending and Ctrl held, keypad b pressed and released: both events are consumed, exactly one command (a, b) is completed and the pending cell is cleared. |
| `Gesture.ChordCompletesOneCommand` | main.cpp:95-171 | The whole two-key gesture from any state without a pending cell: verdicts Forward and then four Consumes, exactly the one command (a, b), and Ctrl still held with nothing pending. |
| `Gesture.GestureFromIdle` | main.cpp:85-174 | From start-up, the gesture followed by Ctrl's release returns to the start-up state, with the one command (a, b). |
| `Gesture.CancelledGestureCompletesNothing` | main.cpp:97-127 | When Ctrl is released between the two keys, no command is completed and the state is back to start-up. |
| `Gesture.CancelledGestureForgotten` | main.cpp:97-101 | After a cancelled gesture, any later events get the same verdicts and complete the same commands as they would from start-up, and they end in the same state. |
| `Gesture.AbandonedThenGesture` | main.cpp:97-171 | Keypad 1 abandoned by releasing Ctrl, then the gesture (5, 2): the only command is (5, 2). |
| `Gesture.TwoChordsWhileHeld` | main.cpp:169-171 | With Ctrl held throughout, two gestures in a row complete two commands, in order. |
| `Hook.PlaceWindow` | main.cpp:133-166 | The placement branch as the code computes it (border, both cells, min/max plus border, width and height, restore when maximized) yields the action `Placement.Place` decides. |
| `Hook.KeyboardHook.constructor` | main.cpp:85-86 | The statics start with Ctrl not held and `first_quadrant == -1`. |
| `Hook.KeyboardHook.HandleEvent` | main.cpp:83-175 | One call of the callback. `first_quadrant` stays -1 or a cell. The new fields, the verdict and the completed command are those of `Gesture.Step` on the old fields. The action is `Placement.Place` of the command, or nothing. A negative hook code is forwarded and leaves both fields unchanged. |
| `Hook.HookGesture` | main.cpp:83-175 | A fresh hook fed Ctrl down, keypad a down and up, keypad b down and up, and Ctrl up forwards the two Ctrl events and consumes the four keypad events. It carries out exactly one placement, `Place(win, a, b)`, on the last keypad release. |

## Left out

- `WinMain`, `HiddenWindowProc`, the tray icon and its menu, the message loop and the hook registration (main.cpp:178-256): these are operating-system shell glue with no logic of their own.
- `IsMaximized` (main.cpp:36-44) is the `maximized` flag of the snapshot. The model uses nothing of `GetWindowPlacement` but whether the show state is SW_SHOWMAXIMIZED.
- The Win32 calls (`GetForegroundWindow`, `GetWindowRect`, `DwmGetWindowAttribute`, `MonitorFromRect`, `GetMonitorInfo`, `ShowWindow`, `ShowWindowAsync`, `SetWindowPos`, `CallNextHookEx`) are not modelled as calls. Their results are the `WindowSnapshot` fields and their effects are the `Action` and `Verdict` values.
  - `GetWindowRect` is called twice in the source (lines 67 and 136), and the snapshot holds one window rectangle for both.
  - `MonitorFromRect` is not modelled: the snapshot holds the chosen monitor's work area directly.
- `HWND_TOP`, `SWP_NOSENDCHANGING` and the value `CallNextHookEx` returns are not modelled: the model records only that the event is forwarded.
- The asynchronous effect of `ShowWindowAsync` is left out. The model records a restore that comes before the move, not when the window manager performs it.
- Hook timing, latency and thread delivery are left out. The source runs on one thread and has no concurrency of its own.
- `Geometry.QuadrantNoOverflow`: the 32-bit argument covers coordinates within ±2^27 only. Outside that range the C++ `LONG` arithmetic can overflow, and `GetQuadrant` in the model then keeps computing on unbounded integers, unlike the code.
- `Placement.PlacementNoOverflow`: same bound, ±2^27 on all three rectangles, for the same reason.
- `vkCode` is an unsigned `DWORD` in the source and an `int` here. The comparisons and the subtraction at main.cpp:95-119 never leave the range where the two agree.
