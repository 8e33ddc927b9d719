/** The placement decision the hook takes once a two-key gesture is
    complete: maximize for opposite corners, otherwise move the foreground
    window so that its visible frame spans the two selected cells. */
module Placement {
  import opened Geometry

  /** What the hook learns from Win32 about the foreground window when the
      gesture completes: its outer rectangle (GetWindowRect), its extended
      frame (DWMWA_EXTENDED_FRAME_BOUNDS), the work area of the monitor
      nearest to it (rcWork) and whether its show state is maximized. */
  datatype WindowSnapshot = WindowSnapshot(
    windowRect: Rect,
    extendedFrame: Rect,
    workArea: Rect,
    maximized: bool)

  /** The position and size arguments passed to SetWindowPos. */
  datatype WindowPos = WindowPos(x: int, y: int, cx: int, cy: int)

  /** The window-management effect of one completed gesture.
      RestoreThenMove is ShowWindowAsync(SW_SHOWNORMAL) followed by SetWindowPos. */
  datatype Action = NoAction | Maximize | Move(pos: WindowPos) | RestoreThenMove(pos: WindowPos)

  /** The bounding box of the two selected cells of the window's work area. */
  function Cells(win: WindowSnapshot, first: Quadrant, second: Quadrant): Rect
  {
    Union(GetQuadrant(win.workArea, first), GetQuadrant(win.workArea, second))
  }

  /** `r` widened on every side by `border`. */
  function Widen(r: Rect, border: Rect): Rect
  {
    Rect(r.left + border.left, r.top + border.top, r.right + border.right, r.bottom + border.bottom)
  }

  /** The outer rectangle the window is given: the bounding box of the two
      cells, widened on every side by the window's invisible border. */
  function TargetRect(win: WindowSnapshot, first: Quadrant, second: Quadrant): Rect
  {
    Widen(Cells(win, first, second), WindowBorder(win.windowRect, win.extendedFrame))
  }

  /** SetWindowPos takes a position and a size, not a right/bottom edge. */
  function PosOf(r: Rect): (pos: WindowPos)
    ensures pos.x == r.left && pos.y == r.top
    ensures pos.x + pos.cx == r.right && pos.y + pos.cy == r.bottom
  {
    WindowPos(r.left, r.top, r.right - r.left, r.bottom - r.top)
  }

  /** The placement decision for the gesture (first, second). */
  function Place(win: WindowSnapshot, first: Quadrant, second: Quadrant): (a: Action)
    ensures a == Maximize <==> ShouldBeMaximized(first, second) && !win.maximized
    ensures a == NoAction <==> ShouldBeMaximized(first, second) && win.maximized
    ensures a.Move? <==> !ShouldBeMaximized(first, second) && !win.maximized
    ensures a.RestoreThenMove? <==> !ShouldBeMaximized(first, second) && win.maximized
  {
    if ShouldBeMaximized(first, second) then
      if !win.maximized then Maximize else NoAction
    else
      var pos := PosOf(TargetRect(win, first, second));
      if win.maximized then RestoreThenMove(pos) else Move(pos)
  }

  /** The visible frame of a window placed at `pos` whose border stays `border`. */
  function VisibleFrame(pos: WindowPos, border: Rect): Rect
  {
    Rect(pos.x - border.left, pos.y - border.top,
         pos.x + pos.cx - border.right, pos.y + pos.cy - border.bottom)
  }

  /** A window placed at its widened rectangle, keeping its border, shows
      exactly the rectangle that was widened. */
  lemma WidenedFrame(r: Rect, border: Rect)
    ensures VisibleFrame(PosOf(Widen(r, border)), border) == r
  {
  }

  /** The purpose of the border compensation: if the window keeps its
      invisible border through the move, its visible frame is exactly the
      bounding box of the two selected cells, and that box lies inside the
      work area. */
  lemma MovedFrameIsCellUnion(win: WindowSnapshot, first: Quadrant, second: Quadrant)
    requires !ShouldBeMaximized(first, second)
    ensures var a := Place(win, first, second);
      (a.Move? || a.RestoreThenMove?) &&
      VisibleFrame(a.pos, WindowBorder(win.windowRect, win.extendedFrame)) == Cells(win, first, second)
    ensures Width(win.workArea) >= 0 && Height(win.workArea) >= 0 ==>
      Contains(win.workArea, Cells(win, first, second))
  {
    WidenedFrame(Cells(win, first, second), WindowBorder(win.windowRect, win.extendedFrame));
    if Width(win.workArea) >= 0 && Height(win.workArea) >= 0 {
      UnionWithinWorkArea(win.workArea, first, second);
    }
  }

  /** A window without an invisible border (outer and visible frames agree)
      is moved onto the cells themselves. */
  lemma BorderlessWindowFillsCells(win: WindowSnapshot, first: Quadrant, second: Quadrant)
    requires !ShouldBeMaximized(first, second)
    requires win.windowRect == win.extendedFrame
    ensures Place(win, first, second) ==
      if win.maximized then RestoreThenMove(PosOf(Cells(win, first, second)))
      else Move(PosOf(Cells(win, first, second)))
  {
    NoBorderWhenFramesAgree(win.windowRect);
  }

  /** Opposite corners maximize and bypass the geometry: the result does not
      depend on the window's rectangles or on the work area. */
  lemma MaximizeIgnoresGeometry(win: WindowSnapshot, other: WindowSnapshot, first: Quadrant, second: Quadrant)
    requires ShouldBeMaximized(first, second)
    requires win.maximized == other.maximized
    ensures Place(win, first, second) == Place(other, first, second)
  {
  }

  /** On a work area of at least 3x3 pixels the hook maximizes (or leaves a
      maximized window alone) exactly when the two cells' bounding box would
      be the whole work area anyway; every other gesture moves the window. */
  lemma MaximizeIffCellsSpanWorkArea(win: WindowSnapshot, first: Quadrant, second: Quadrant)
    requires Width(win.workArea) >= 3 && Height(win.workArea) >= 3
    ensures (Place(win, first, second) == Maximize || Place(win, first, second) == NoAction) <==>
      Cells(win, first, second) == win.workArea
  {
    ShouldBeMaximizedIffUnionIsWorkArea(win.workArea, first, second);
  }

  /** Worked example: on a 1200x900 work area at the origin, cells 1 and 3
      (the outer cells of the bottom row) span the whole bottom row. */
  lemma BottomRowCellsExample(win: WindowSnapshot)
    requires win.workArea == Rect(0, 0, 1200, 900)
    ensures Cells(win, 1, 3) == Rect(0, 600, 1200, 900)
  {
    BottomLeftCellExample();
    BottomRightCellExample();
  }

  /** Every value the placement computes in 32-bit arithmetic (border,
      min/max plus border, width and height) is in LONG range when all
      rectangles have coordinates within +-2^27. */
  lemma PlacementNoOverflow(win: WindowSnapshot, first: Quadrant, second: Quadrant)
    requires IsSmallRect(win.windowRect) && IsSmallRect(win.extendedFrame) && IsSmallRect(win.workArea)
    ensures QuadrantArithmeticFits(win.workArea, first) && QuadrantArithmeticFits(win.workArea, second)
    ensures var border := WindowBorder(win.windowRect, win.extendedFrame);
      var t := TargetRect(win, first, second);
      IsLong(border.left) && IsLong(border.top) && IsLong(border.right) && IsLong(border.bottom) &&
      IsLong(t.left) && IsLong(t.top) && IsLong(t.right) && IsLong(t.bottom) &&
      IsLong(t.right - t.left) && IsLong(t.bottom - t.top)
  {
    QuadrantNoOverflow(win.workArea, first);
    QuadrantNoOverflow(win.workArea, second);
    var u := Union(GetQuadrant(win.workArea, first), GetQuadrant(win.workArea, second));
    assert -0x1800_0000 <= u.left <= 0x1800_0000 && -0x1800_0000 <= u.right <= 0x1800_0000;
    assert -0x1800_0000 <= u.top <= 0x1800_0000 && -0x1800_0000 <= u.bottom <= 0x1800_0000;
    var border := WindowBorder(win.windowRect, win.extendedFrame);
    assert -0x1000_0000 <= border.left <= 0x1000_0000 && -0x1000_0000 <= border.right <= 0x1000_0000;
    assert -0x1000_0000 <= border.top <= 0x1000_0000 && -0x1000_0000 <= border.bottom <= 0x1000_0000;
    assert TargetRect(win, first, second) ==
      Rect(u.left + border.left, u.top + border.top, u.right + border.right, u.bottom + border.bottom);
  }
}
