/** Grid geometry of winpad_layout: the 3x3 cells of a monitor's work area,
    the maximizing quadrant pairs, the invisible window border and the
    bounding box of two cells. Coordinates are Win32 screen coordinates
    (x grows to the right, y grows downwards). */
module Geometry {

  /** A Win32 RECT: left/top inclusive, right/bottom exclusive edges. */
  datatype Rect = Rect(left: int, top: int, right: int, bottom: int)

  /** A cell index as typed on the numeric keypad: 1 is bottom-left, 9 is top-right. */
  type Quadrant = q: int | 1 <= q <= 9 witness 1

  function Width(r: Rect): int { r.right - r.left }
  function Height(r: Rect): int { r.bottom - r.top }

  /** `inner` lies inside `outer` (edges may coincide). */
  predicate Contains(outer: Rect, inner: Rect) {
    outer.left <= inner.left && inner.right <= outer.right &&
    outer.top <= inner.top && inner.bottom <= outer.bottom
  }

  // ---------------------------------------------------------------------
  // C++ integer division and remainder by 3 (both truncate toward zero)
  // ---------------------------------------------------------------------

  /** `a / 3` as C++ computes it: the quotient is truncated toward zero. */
  function Div3(a: int): int
  {
    if a >= 0 then a / 3 else -((-a) / 3)
  }

  /** `a % 3` as C++ computes it: the remainder takes the sign of `a`. */
  function Rem3(a: int): int
  {
    if a >= 0 then a % 3 else -((-a) % 3)
  }

  /** The C++ rules for `/` and `%`: the quotient is truncated toward zero,
      the two recombine to the dividend, and the remainder is smaller than
      the divisor and carries the dividend's sign. */
  lemma TruncatedDivision(a: int)
    ensures a == 3 * Div3(a) + Rem3(a)
    ensures a >= 0 ==> 0 <= Rem3(a) < 3 && 0 <= 3 * Div3(a) <= a
    ensures a < 0 ==> -3 < Rem3(a) <= 0 && a <= 3 * Div3(a) <= 0
  {
  }

  // ---------------------------------------------------------------------
  // GetQuadrant
  // ---------------------------------------------------------------------

  /** Grid row of a quadrant index, 0 being the top row: `2 - (quadrant - 1) / 3`. */
  function Row(quadrant: Quadrant): int
  {
    2 - Div3(quadrant - 1)
  }

  /** Grid column of a quadrant index, 0 being the left column: `(quadrant - 1) % 3`. */
  function Col(quadrant: Quadrant): int
  {
    Rem3(quadrant - 1)
  }

  /** Offset of grid line `k` from the start of an extent of length `len`:
      `k * len / 3` with C++ division. */
  function GridLine(k: int, len: int): int { Div3(k * len) }

  /** The cell of `monitor` selected by `quadrant`, computed as the hook does it. */
  function GetQuadrant(monitor: Rect, quadrant: Quadrant): Rect
  {
    var row := Row(quadrant);
    var col := Col(quadrant);
    var width := Width(monitor);
    var height := Height(monitor);
    Rect(monitor.left + GridLine(col, width),
         monitor.top + GridLine(row, height),
         monitor.left + GridLine(col + 1, width),
         monitor.top + GridLine(row + 1, height))
  }

  /** Rows and columns of the nine keypad indices stay on the grid. */
  lemma RowColInGrid(q: Quadrant)
    ensures 0 <= Row(q) <= 2 && 0 <= Col(q) <= 2
    ensures q == 3 * (2 - Row(q)) + Col(q) + 1
  {
    if q <= 3 {
      assert Div3(q - 1) == 0;
    } else if q <= 6 {
      assert Div3(q - 1) == 1;
    } else {
      assert Div3(q - 1) == 2;
    }
  }

  /** The keypad layout: 1 is bottom-left, 3 bottom-right, 7 top-left, 9 top-right, 5 the centre. */
  lemma KeypadCorners()
    ensures Row(1) == 2 && Col(1) == 0
    ensures Row(3) == 2 && Col(3) == 2
    ensures Row(7) == 0 && Col(7) == 0
    ensures Row(9) == 0 && Col(9) == 2
    ensures Row(5) == 1 && Col(5) == 1
  {
  }

  /** Distinct keypad indices name distinct cells: (row, col) determines the index. */
  lemma RowColInjective(a: Quadrant, b: Quadrant)
    ensures (Row(a) == Row(b) && Col(a) == Col(b)) <==> a == b
  {
    RowColInGrid(a);
    RowColInGrid(b);
  }

  /** Grid lines are ordered and stay inside a non-negative extent. */
  lemma {:induction false} GridLinesOrdered(k: int, len: int)
    requires 0 <= k <= 2 && len >= 0
    ensures 0 <= GridLine(k, len) <= GridLine(k + 1, len) <= len
  {
    if k == 0 {
      assert GridLine(0, len) == 0;
    } else if k == 1 {
      assert GridLine(1, len) == Div3(len);
    } else {
      assert GridLine(2, len) == Div3(len + len);
      assert GridLine(3, len) == len;
    }
  }

  /** Consecutive grid lines of a non-negative extent are a third of it
      apart, rounded down or up: the cells differ in size by at most a pixel. */
  lemma {:induction false} GridLineSpacing(k: int, len: int)
    requires 0 <= k <= 2 && len >= 0
    ensures Div3(len) <= GridLine(k + 1, len) - GridLine(k, len) <= Div3(len) + 1
  {
    var m := len / 3;
    var r := len % 3;
    assert len == 3 * m + r && 0 <= r < 3;
    assert GridLine(1, len) == m;
    assert 2 * len == 3 * (2 * m) + 2 * r;
    assert GridLine(2, len) == 2 * m + (2 * r) / 3;
    assert GridLine(3, len) == len;
  }

  /** The outer grid lines are exact, whatever the sign of the extent:
      no rounding loss at the edges of the work area. */
  lemma OuterGridLinesExact(len: int)
    ensures GridLine(0, len) == 0 && GridLine(3, len) == len
  {
  }

  /** With a non-negative width and height every cell lies inside the work area
      and is itself a well-formed rectangle. */
  lemma CellWithinWorkArea(monitor: Rect, q: Quadrant)
    requires Width(monitor) >= 0 && Height(monitor) >= 0
    ensures var r := GetQuadrant(monitor, q);
      monitor.left <= r.left <= r.right <= monitor.right &&
      monitor.top <= r.top <= r.bottom <= monitor.bottom
  {
    RowColInGrid(q);
    GridLinesOrdered(Col(q), Width(monitor));
    GridLinesOrdered(Row(q), Height(monitor));
  }

  /** The nine cells are equal up to rounding: each is a third of the work
      area's width and height, rounded down or up. */
  lemma CellSizeIsAThird(monitor: Rect, q: Quadrant)
    requires Width(monitor) >= 0 && Height(monitor) >= 0
    ensures Div3(Width(monitor)) <= Width(GetQuadrant(monitor, q)) <= Div3(Width(monitor)) + 1
    ensures Div3(Height(monitor)) <= Height(GetQuadrant(monitor, q)) <= Div3(Height(monitor)) + 1
  {
    RowColInGrid(q);
    GridLineSpacing(Col(q), Width(monitor));
    GridLineSpacing(Row(q), Height(monitor));
  }

  /** The cells tile the work area: the left column starts on its left edge,
      the right column ends on its right edge, the top row starts on its top
      edge and the bottom row ends on its bottom edge. */
  lemma CellsReachEdges(monitor: Rect, q: Quadrant)
    ensures Col(q) == 0 ==> GetQuadrant(monitor, q).left == monitor.left
    ensures Col(q) == 2 ==> GetQuadrant(monitor, q).right == monitor.right
    ensures Row(q) == 0 ==> GetQuadrant(monitor, q).top == monitor.top
    ensures Row(q) == 2 ==> GetQuadrant(monitor, q).bottom == monitor.bottom
  {
    OuterGridLinesExact(Width(monitor));
    OuterGridLinesExact(Height(monitor));
  }

  /** Horizontally adjacent cells share their common edge and their rows. */
  lemma RowNeighboursShareEdge(monitor: Rect, q: Quadrant)
    requires Col(q) < 2
    ensures q + 1 <= 9
    ensures GetQuadrant(monitor, q).right == GetQuadrant(monitor, q + 1).left
    ensures GetQuadrant(monitor, q).top == GetQuadrant(monitor, q + 1).top
    ensures GetQuadrant(monitor, q).bottom == GetQuadrant(monitor, q + 1).bottom
  {
    RowColInGrid(q);
    RowColInGrid(q + 1);
    assert Row(q + 1) == Row(q) && Col(q + 1) == Col(q) + 1;
    var c := Col(q);
    assert GridLine(Col(q + 1), Width(monitor)) == GridLine(c + 1, Width(monitor));
  }

  /** Vertically adjacent cells share their common edge and their columns:
      keypad index q + 3 is the cell directly above q. */
  lemma ColumnNeighboursShareEdge(monitor: Rect, q: Quadrant)
    requires q <= 6
    ensures GetQuadrant(monitor, q + 3).bottom == GetQuadrant(monitor, q).top
    ensures GetQuadrant(monitor, q + 3).left == GetQuadrant(monitor, q).left
    ensures GetQuadrant(monitor, q + 3).right == GetQuadrant(monitor, q).right
  {
    RowColInGrid(q);
    assert Row(q + 3) + 1 == Row(q) && Col(q + 3) == Col(q);
  }

  /** On a work area at least 3 pixels wide the inner grid lines lie strictly
      inside, so only the outer columns touch the left and right edges. */
  lemma {:induction false} InnerGridLinesStrict(k: int, len: int)
    requires 1 <= k <= 2 && len >= 3
    ensures 0 < GridLine(k, len) < len
  {
    if k == 1 {
      assert GridLine(1, len) == Div3(len);
    } else {
      assert GridLine(2, len) == Div3(len + len);
    }
  }

  /** On a work area of at least 3x3 pixels a cell touches an edge exactly
      when it is in the outer row or column on that side. */
  lemma CellTouchesEdgeIff(monitor: Rect, q: Quadrant)
    requires Width(monitor) >= 3 && Height(monitor) >= 3
    ensures GetQuadrant(monitor, q).left == monitor.left <==> Col(q) == 0
    ensures GetQuadrant(monitor, q).right == monitor.right <==> Col(q) == 2
    ensures GetQuadrant(monitor, q).top == monitor.top <==> Row(q) == 0
    ensures GetQuadrant(monitor, q).bottom == monitor.bottom <==> Row(q) == 2
  {
    RowColInGrid(q);
    CellsReachEdges(monitor, q);
    if Col(q) > 0 { InnerGridLinesStrict(Col(q), Width(monitor)); }
    if Col(q) < 2 { InnerGridLinesStrict(Col(q) + 1, Width(monitor)); }
    if Row(q) > 0 { InnerGridLinesStrict(Row(q), Height(monitor)); }
    if Row(q) < 2 { InnerGridLinesStrict(Row(q) + 1, Height(monitor)); }
  }

  /** A rectangle is determined by its four edges. */
  lemma RectFromEdges(r: Rect, left: int, top: int, right: int, bottom: int)
    requires r.left == left && r.top == top && r.right == right && r.bottom == bottom
    ensures r == Rect(left, top, right, bottom)
  {
  }

  /** Worked example on a 1200x900 work area: keypad 1 is the bottom-left cell. */
  lemma BottomLeftCellExample()
    ensures GetQuadrant(Rect(0, 0, 1200, 900), 1) == Rect(0, 600, 400, 900)
  {
    var r := GetQuadrant(Rect(0, 0, 1200, 900), 1);
    assert r.left == 0 && r.right == 400;
    assert r.top == 600 && r.bottom == 900;
    RectFromEdges(r, 0, 600, 400, 900);
  }

  /** Worked example on a 1200x900 work area: keypad 3 is the bottom-right cell. */
  lemma BottomRightCellExample()
    ensures GetQuadrant(Rect(0, 0, 1200, 900), 3) == Rect(800, 600, 1200, 900)
  {
    var r := GetQuadrant(Rect(0, 0, 1200, 900), 3);
    assert r.left == 800 && r.right == 1200;
    assert r.top == 600 && r.bottom == 900;
    RectFromEdges(r, 800, 600, 1200, 900);
  }

  // ---------------------------------------------------------------------
  // ShouldBeMaximized
  // ---------------------------------------------------------------------

  /** True for the two pairs of opposite corners, in either order. */
  predicate ShouldBeMaximized(q1: int, q2: int)
  {
    if q1 == 1 && q2 == 9 then true
    else if q1 == 9 && q2 == 1 then true
    else if q1 == 3 && q2 == 7 then true
    else if q1 == 7 && q2 == 3 then true
    else false
  }

  /** The order in which the two keys are pressed does not matter. */
  lemma ShouldBeMaximizedSymmetric(q1: int, q2: int)
    ensures ShouldBeMaximized(q1, q2) == ShouldBeMaximized(q2, q1)
  {
  }

  /** Pressing the same key twice never maximizes. */
  lemma ShouldBeMaximizedIrreflexive(q: int)
    ensures !ShouldBeMaximized(q, q)
  {
  }

  /** The maximizing pairs are exactly the unordered pairs {1, 9} and {3, 7}. */
  lemma ShouldBeMaximizedPairs(q1: int, q2: int)
    ensures ShouldBeMaximized(q1, q2) <==> {q1, q2} == {1, 9} || {q1, q2} == {3, 7}
  {
    if {q1, q2} == {1, 9} {
      assert q1 in {1, 9} && q2 in {1, 9} && 1 in {q1, q2} && 9 in {q1, q2};
    }
    if {q1, q2} == {3, 7} {
      assert q1 in {3, 7} && q2 in {3, 7} && 3 in {q1, q2} && 7 in {q1, q2};
    }
  }

  /** Geometric reading of the maximizing pairs: two cells are a maximizing
      pair exactly when between them they reach all four edges of the grid,
      i.e. they are opposite corners. */
  lemma ShouldBeMaximizedIffOppositeCorners(q1: Quadrant, q2: Quadrant)
    ensures ShouldBeMaximized(q1, q2) <==>
      (Col(q1) == 0 || Col(q2) == 0) && (Col(q1) == 2 || Col(q2) == 2) &&
      (Row(q1) == 0 || Row(q2) == 0) && (Row(q1) == 2 || Row(q2) == 2)
  {
    RowColInGrid(q1);
    RowColInGrid(q2);
  }

  // ---------------------------------------------------------------------
  // Union of two cells, and the invisible border
  // ---------------------------------------------------------------------

  function Min(a: int, b: int): int { if a < b then a else b }
  function Max(a: int, b: int): int { if a < b then b else a }

  /** Componentwise min of the left/top edges and max of the right/bottom edges. */
  function Union(a: Rect, b: Rect): Rect
  {
    Rect(Min(a.left, b.left), Min(a.top, b.top), Max(a.right, b.right), Max(a.bottom, b.bottom))
  }

  /** The union is the tightest rectangle containing both inputs, and it does
      not depend on their order. */
  lemma UnionIsBoundingBox(a: Rect, b: Rect)
    ensures Union(a, b) == Union(b, a)
    ensures Contains(Union(a, b), a) && Contains(Union(a, b), b)
    ensures forall c :: Contains(c, a) && Contains(c, b) ==> Contains(c, Union(a, b))
    ensures Union(a, a) == a
  {
  }

  /** Two opposite corners span the whole (at least 3x3) work area, and no other
      pair of cells does: the maximizing pairs are exactly the pairs whose
      bounding box is the work area itself. */
  lemma ShouldBeMaximizedIffUnionIsWorkArea(monitor: Rect, q1: Quadrant, q2: Quadrant)
    requires Width(monitor) >= 3 && Height(monitor) >= 3
    ensures ShouldBeMaximized(q1, q2) <==>
      Union(GetQuadrant(monitor, q1), GetQuadrant(monitor, q2)) == monitor
  {
    CellTouchesEdgeIff(monitor, q1);
    CellTouchesEdgeIff(monitor, q2);
    CellWithinWorkArea(monitor, q1);
    CellWithinWorkArea(monitor, q2);
    ShouldBeMaximizedIffOppositeCorners(q1, q2);
  }

  /** Any two cells span a rectangle inside the work area. */
  lemma UnionWithinWorkArea(monitor: Rect, q1: Quadrant, q2: Quadrant)
    requires Width(monitor) >= 0 && Height(monitor) >= 0
    ensures Contains(monitor, Union(GetQuadrant(monitor, q1), GetQuadrant(monitor, q2)))
  {
    CellWithinWorkArea(monitor, q1);
    CellWithinWorkArea(monitor, q2);
  }

  /** Per-side difference of a window's outer rectangle and its extended
      (visible) frame: how far the outer edge lies from the visible edge. */
  function WindowBorder(windowRect: Rect, extendedRect: Rect): (border: Rect)
    ensures extendedRect.left + border.left == windowRect.left
    ensures extendedRect.top + border.top == windowRect.top
    ensures extendedRect.right + border.right == windowRect.right
    ensures extendedRect.bottom + border.bottom == windowRect.bottom
  {
    Rect(windowRect.left - extendedRect.left, windowRect.top - extendedRect.top,
         windowRect.right - extendedRect.right, windowRect.bottom - extendedRect.bottom)
  }

  /** A window whose outer and visible frames agree has no border. */
  lemma NoBorderWhenFramesAgree(r: Rect)
    ensures WindowBorder(r, r) == Rect(0, 0, 0, 0)
  {
  }

  // ---------------------------------------------------------------------
  // 32-bit arithmetic
  // ---------------------------------------------------------------------

  /** Fits in a Win32 LONG / C++ int. */
  predicate IsLong(x: int) { -0x8000_0000 <= x < 0x8000_0000 }

  /** Bound under which every coordinate computed by the hook fits in 32 bits. */
  predicate IsSmallCoord(x: int) { -0x800_0000 <= x <= 0x800_0000 }

  predicate IsSmallRect(r: Rect) {
    IsSmallCoord(r.left) && IsSmallCoord(r.top) && IsSmallCoord(r.right) && IsSmallCoord(r.bottom)
  }

  /** Every intermediate value GetQuadrant computes is in LONG range, so the
      unbounded model agrees with the 32-bit code. */
  predicate QuadrantArithmeticFits(monitor: Rect, q: Quadrant) {
    var width := Width(monitor);
    var height := Height(monitor);
    var r := GetQuadrant(monitor, q);
    IsLong(width) && IsLong(height) &&
    IsLong(Col(q) * width) && IsLong((Col(q) + 1) * width) &&
    IsLong(Row(q) * height) && IsLong((Row(q) + 1) * height) &&
    IsLong(r.left) && IsLong(r.right) && IsLong(r.top) && IsLong(r.bottom)
  }

  /** Range of a grid line offset within an extent of bounded length. */
  lemma GridLineBounded(k: int, len: int)
    requires 0 <= k <= 3 && -0x1000_0000 <= len <= 0x1000_0000
    ensures -0x3000_0000 <= k * len <= 0x3000_0000
    ensures -0x1000_0000 <= GridLine(k, len) <= 0x1000_0000
  {
  }

  /** On work areas with coordinates within +-2^27 pixels no step of
      GetQuadrant overflows, and every cell coordinate stays within +-3*2^27. */
  lemma QuadrantNoOverflow(monitor: Rect, q: Quadrant)
    requires IsSmallRect(monitor)
    ensures QuadrantArithmeticFits(monitor, q)
    ensures var r := GetQuadrant(monitor, q);
      -0x1800_0000 <= r.left <= 0x1800_0000 && -0x1800_0000 <= r.right <= 0x1800_0000 &&
      -0x1800_0000 <= r.top <= 0x1800_0000 && -0x1800_0000 <= r.bottom <= 0x1800_0000
  {
    RowColInGrid(q);
    GridLineBounded(Col(q), Width(monitor));
    GridLineBounded(Col(q) + 1, Width(monitor));
    GridLineBounded(Row(q), Height(monitor));
    GridLineBounded(Row(q) + 1, Height(monitor));
  }
}
