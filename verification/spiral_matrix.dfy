/**
 * `generateMatrix`: fill an n-by-n matrix with 1 .. n*n in clockwise spiral
 * order, walking four shrinking boundaries (top row, right column, bottom
 * row, left column).
 *
 * The proof follows the walk with a ghost `path`: the k-th cell written holds
 * k + 1, every cell outside the still-unfilled rectangle is on the path, and
 * consecutive cells of the path are neighbours.
 */
module SpiralMatrix {

  /** A (row, column) position. */
  type Cell = (int, int)

  /** The rows top..bottom and columns left..right; empty when top > bottom or left > right. */
  datatype Rect = Rect(top: int, bottom: int, left: int, right: int)

  const Nothing := Rect(0, -1, 0, -1)

  function Abs(x: int): nat
  {
    if x < 0 then -x else x
  }

  predicate InGrid(c: Cell, n: nat)
  {
    0 <= c.0 < n && 0 <= c.1 < n
  }

  predicate InRect(c: Cell, q: Rect)
  {
    q.top <= c.0 <= q.bottom && q.left <= c.1 <= q.right
  }

  /** Orthogonal neighbours. */
  predicate Adjacent(a: Cell, b: Cell)
  {
    Abs(a.0 - b.0) + Abs(a.1 - b.1) == 1
  }

  /** The number of cells of a rectangle whose sides are not negative. */
  function Area(q: Rect): int
  {
    (q.bottom - q.top + 1) * (q.right - q.left + 1)
  }

  /**
   * A cell has been written when it lies outside the rectangle `rest` that
   * the walk has not reached yet, or on the part `strip` of the side being
   * walked right now.
   */
  predicate Filled(c: Cell, rest: Rect, strip: Rect)
  {
    !InRect(c, rest) || InRect(c, strip)
  }

  /** The matrix: a sequence of rows. */
  type Matrix = seq<seq<int>>

  predicate IsSquare(mat: Matrix, n: nat)
  {
    |mat| == n && forall i :: 0 <= i < n ==> |mat[i]| == n
  }

  /** `Array.from({ length: n }, () => new Array(n).fill(0))` */
  function Zeros(n: nat): (mat: Matrix)
    ensures IsSquare(mat, n)
    ensures forall i, j :: 0 <= i < n && 0 <= j < n ==> mat[i][j] == 0
  {
    seq(n, i => seq(n, j => 0))
  }

  /** `matrix[c.0][c.1] = v` */
  function Store(mat: Matrix, n: nat, c: Cell, v: int): (mat': Matrix)
    requires IsSquare(mat, n) && InGrid(c, n)
    ensures IsSquare(mat', n)
  {
    mat[c.0 := mat[c.0][c.1 := v]]
  }

  /** A store writes its own cell and leaves every other cell as it was. */
  lemma StoreFacts(mat: Matrix, n: nat, c: Cell, v: int)
    requires IsSquare(mat, n) && InGrid(c, n)
    ensures Store(mat, n, c, v)[c.0][c.1] == v
    ensures forall i, j :: 0 <= i < n && 0 <= j < n && (i, j) != c ==> Store(mat, n, c, v)[i][j] == mat[i][j]
  {
  }

  /** The k-th cell of the path holds k + 1. */
  ghost predicate Placed(mat: Matrix, n: nat, path: seq<Cell>)
    requires IsSquare(mat, n)
  {
    forall k :: 0 <= k < |path| ==> InGrid(path[k], n) && mat[path[k].0][path[k].1] == k + 1
  }

  /** Cells not written yet still hold the initial 0. */
  ghost predicate Blank(mat: Matrix, n: nat, rest: Rect, strip: Rect)
    requires IsSquare(mat, n)
  {
    forall i, j {:trigger Filled((i, j), rest, strip)} ::
      0 <= i < n && 0 <= j < n && !Filled((i, j), rest, strip) ==> mat[i][j] == 0
  }

  /** Every written cell lies on the path. */
  ghost predicate Covered(n: nat, path: seq<Cell>, rest: Rect, strip: Rect)
  {
    forall i, j {:trigger Filled((i, j), rest, strip)} ::
      0 <= i < n && 0 <= j < n && Filled((i, j), rest, strip) ==> (i, j) in path
  }

  /** Consecutive cells of the path are neighbours. */
  ghost predicate Connected(path: seq<Cell>)
  {
    forall k :: 0 <= k < |path| - 1 ==> Adjacent(path[k], path[k + 1])
  }

  /** The walk so far: the state every loop of the fill keeps. */
  ghost predicate Walk(mat: Matrix, n: nat, path: seq<Cell>, rest: Rect, strip: Rect)
  {
    && IsSquare(mat, n)
    && Placed(mat, n, path)
    && Blank(mat, n, rest, strip)
    && Covered(n, path, rest, strip)
    && Connected(path)
  }

  /** The four sides of the unfilled rectangle, in the order one pass of the walk takes them. */
  datatype Side = Top | Right | Bottom | Left

  /** The number of cells on a side of `q`. */
  function SideLength(side: Side, q: Rect): int
  {
    match side
    case Top | Bottom => q.right - q.left + 1
    case Right | Left => q.bottom - q.top + 1
  }

  /**
   * The k-th cell (from 0) the walk visits on a side: the top row left to
   * right, the right column top to bottom, the bottom row right to left and
   * the left column bottom to top.
   */
  function SideCell(side: Side, q: Rect, k: int): Cell
  {
    match side
    case Top => (q.top, q.left + k)
    case Right => (q.top + k, q.right)
    case Bottom => (q.bottom, q.right - k)
    case Left => (q.bottom - k, q.left)
  }

  /** The part of a side covered by its first k cells. */
  function SideStrip(side: Side, q: Rect, k: int): Rect
  {
    match side
    case Top => Rect(q.top, q.top, q.left, q.left + k - 1)
    case Right => Rect(q.top, q.top + k - 1, q.right, q.right)
    case Bottom => Rect(q.bottom, q.bottom, q.right - k + 1, q.right)
    case Left => Rect(q.bottom - k + 1, q.bottom, q.left, q.left)
  }

  /** The rectangle left once a side has been walked. */
  function Shrink(side: Side, q: Rect): Rect
  {
    match side
    case Top => Rect(q.top + 1, q.bottom, q.left, q.right)
    case Right => Rect(q.top, q.bottom, q.left, q.right - 1)
    case Bottom => Rect(q.top, q.bottom - 1, q.left, q.right)
    case Left => Rect(q.top, q.bottom, q.left + 1, q.right)
  }

  /** The first k cells of a side, in walking order. */
  function Segment(side: Side, q: Rect, k: nat): (s: seq<Cell>)
    ensures |s| == k
  {
    if k == 0 then [] else Segment(side, q, k - 1) + [SideCell(side, q, k - 1)]
  }

  lemma {:induction false} SegmentAt(side: Side, q: Rect, k: nat, x: nat)
    requires x < k
    ensures Segment(side, q, k)[x] == SideCell(side, q, x)
  {
    if x < k - 1 {
      SegmentAt(side, q, k - 1, x);
    }
  }

  /**
   * `q` lies in the n-by-n grid with sides of length at least -1 ... 0, and
   * the side to be walked is a line of `q` (for a row, `q` has a row; for a
   * column, `q` has a column).
   */
  predicate Fits(side: Side, q: Rect, n: nat)
  {
    && 0 <= q.top && q.bottom < n && 0 <= q.left && q.right < n
    && q.top <= q.bottom + 1 && q.left <= q.right + 1
    && (side.Top? || side.Bottom? ==> q.top <= q.bottom)
    && (side.Right? || side.Left? ==> q.left <= q.right)
  }

  /** The walk invariant depends on the written region only. */
  lemma WalkRegion(mat: Matrix, n: nat, path: seq<Cell>, rest: Rect, strip: Rect, rest': Rect, strip': Rect)
    requires Walk(mat, n, path, rest, strip)
    requires forall i, j :: Filled((i, j), rest, strip) <==> Filled((i, j), rest', strip')
    ensures Walk(mat, n, path, rest', strip')
  {
  }

  lemma PlacedExtend(mat: Matrix, n: nat, path: seq<Cell>, c: Cell)
    requires IsSquare(mat, n) && Placed(mat, n, path)
    requires InGrid(c, n) && mat[c.0][c.1] == 0
    ensures Placed(Store(mat, n, c, |path| + 1), n, path + [c])
  {
    var mat', path' := Store(mat, n, c, |path| + 1), path + [c];
    StoreFacts(mat, n, c, |path| + 1);
    forall k | 0 <= k < |path'|
      ensures InGrid(path'[k], n) && mat'[path'[k].0][path'[k].1] == k + 1
    {
      if k < |path| {
        var d := path[k];
        assert path'[k] == d;
        assert d != c;
      }
    }
  }

  lemma BlankExtend(mat: Matrix, n: nat, rest: Rect, strip: Rect, strip': Rect, c: Cell, v: int)
    requires IsSquare(mat, n) && Blank(mat, n, rest, strip) && InGrid(c, n)
    requires Filled(c, rest, strip')
    requires forall i, j :: Filled((i, j), rest, strip) ==> Filled((i, j), rest, strip')
    ensures Blank(Store(mat, n, c, v), n, rest, strip')
  {
    var mat' := Store(mat, n, c, v);
    StoreFacts(mat, n, c, v);
    forall i, j | 0 <= i < n && 0 <= j < n && !Filled((i, j), rest, strip')
      ensures mat'[i][j] == 0
    {
      assert !Filled((i, j), rest, strip);
      assert (i, j) != c;
    }
  }

  lemma CoveredExtend(n: nat, path: seq<Cell>, rest: Rect, strip: Rect, strip': Rect, c: Cell)
    requires Covered(n, path, rest, strip)
    requires forall i, j :: Filled((i, j), rest, strip') ==> Filled((i, j), rest, strip) || (i, j) == c
    ensures Covered(n, path + [c], rest, strip')
  {
    forall i, j | 0 <= i < n && 0 <= j < n && Filled((i, j), rest, strip')
      ensures (i, j) in path + [c]
    {
      if (i, j) != c {
        assert Filled((i, j), rest, strip);
      }
    }
  }

  lemma ConnectedExtend(path: seq<Cell>, c: Cell)
    requires Connected(path)
    requires |path| > 0 ==> Adjacent(path[|path| - 1], c)
    ensures Connected(path + [c])
  {
    var path' := path + [c];
    forall k | 0 <= k < |path'| - 1
      ensures Adjacent(path'[k], path'[k + 1])
    {
      if k + 1 < |path| {
        assert path'[k] == path[k] && path'[k + 1] == path[k + 1];
      }
    }
  }

  /** Writing the next value into a cell not written yet extends the walk by that cell. */
  lemma WalkExtend(mat: Matrix, n: nat, path: seq<Cell>, rest: Rect, strip: Rect, strip': Rect, c: Cell)
    requires Walk(mat, n, path, rest, strip)
    requires InGrid(c, n) && InRect(c, rest) && !InRect(c, strip)
    requires forall i, j :: InRect((i, j), strip') <==> InRect((i, j), strip) || (i, j) == c
    requires |path| > 0 ==> Adjacent(path[|path| - 1], c)
    ensures Walk(Store(mat, n, c, |path| + 1), n, path + [c], rest, strip')
  {
    assert InRect((c.0, c.1), strip');
    assert !Filled((c.0, c.1), rest, strip);
    PlacedExtend(mat, n, path, c);
    BlankExtend(mat, n, rest, strip, strip', c, |path| + 1);
    CoveredExtend(n, path, rest, strip, strip', c);
    ConnectedExtend(path, c);
  }

  /** The state of the loop over `side` once its first k cells are written. */
  ghost predicate SideLoop(mat: Matrix, n: nat, path0: seq<Cell>, path: seq<Cell>, current: int, side: Side, q: Rect, k: int)
  {
    && Fits(side, q, n) && 0 <= k <= SideLength(side, q)
    && Walk(mat, n, path, q, SideStrip(side, q, k))
    && current == |path| + 1
    && path == path0 + Segment(side, q, k)
    && (k < SideLength(side, q) && |path| > 0 ==> Adjacent(path[|path| - 1], SideCell(side, q, k)))
  }

  lemma SideStart(mat: Matrix, n: nat, path: seq<Cell>, current: int, side: Side, q: Rect)
    requires Fits(side, q, n)
    requires Walk(mat, n, path, q, Nothing)
    requires current == |path| + 1
    requires SideLength(side, q) > 0 && |path| > 0 ==> Adjacent(path[|path| - 1], SideCell(side, q, 0))
    ensures SideLoop(mat, n, path, path, current, side, q, 0)
  {
    WalkRegion(mat, n, path, q, Nothing, q, SideStrip(side, q, 0));
    assert path + Segment(side, q, 0) == path;
  }

  /** The k-th cell of a side is a grid cell of `q` beyond the strip, and extends it by itself. */
  lemma SideCellFacts(side: Side, q: Rect, n: nat, k: int)
    requires Fits(side, q, n) && 0 <= k < SideLength(side, q)
    ensures InGrid(SideCell(side, q, k), n) && InRect(SideCell(side, q, k), q)
    ensures !InRect(SideCell(side, q, k), SideStrip(side, q, k))
    ensures forall i, j :: InRect((i, j), SideStrip(side, q, k + 1)) <==>
                           InRect((i, j), SideStrip(side, q, k)) || (i, j) == SideCell(side, q, k)
    ensures k + 1 < SideLength(side, q) ==> Adjacent(SideCell(side, q, k), SideCell(side, q, k + 1))
  {
  }

  lemma SegmentSnoc(path0: seq<Cell>, side: Side, q: Rect, k: nat)
    ensures path0 + Segment(side, q, k) + [SideCell(side, q, k)] == path0 + Segment(side, q, k + 1)
  {
  }

  /** One iteration of a side loop: cell `c`, the k-th of the side, receives `current`. */
  lemma SideStep(mat: Matrix, n: nat, path0: seq<Cell>, path: seq<Cell>, current: int, side: Side, q: Rect, k: int, c: Cell)
    requires SideLoop(mat, n, path0, path, current, side, q, k) && k < SideLength(side, q)
    requires c == SideCell(side, q, k)
    ensures InGrid(c, n)
    ensures SideLoop(Store(mat, n, c, current), n, path0, path + [c], current + 1, side, q, k + 1)
  {
    SideCellFacts(side, q, n, k);
    WalkExtend(mat, n, path, q, SideStrip(side, q, k), SideStrip(side, q, k + 1), c);
    SegmentSnoc(path0, side, q, k);
  }

  lemma SideEnd(mat: Matrix, n: nat, path0: seq<Cell>, path: seq<Cell>, current: int, side: Side, q: Rect)
    requires SideLoop(mat, n, path0, path, current, side, q, SideLength(side, q))
    ensures Walk(mat, n, path, Shrink(side, q), Nothing)
    ensures current == |path| + 1
    ensures path == path0 + Segment(side, q, SideLength(side, q))
    ensures SideLength(side, q) > 0 ==> path[|path| - 1] == SideCell(side, q, SideLength(side, q) - 1)
  {
    WalkRegion(mat, n, path, q, SideStrip(side, q, SideLength(side, q)), Shrink(side, q), Nothing);
  }

  /** `for (col = left; col <= right; col++) matrix[top][col] = current++` */
  method FillTop(mat: Matrix, n: nat, ghost path: seq<Cell>, current: int, q: Rect)
    returns (mat': Matrix, ghost path': seq<Cell>, current': int)
    requires Fits(Top, q, n) && Walk(mat, n, path, q, Nothing) && current == |path| + 1
    requires q.left <= q.right && |path| > 0 ==> Adjacent(path[|path| - 1], (q.top, q.left))
    ensures Walk(mat', n, path', Shrink(Top, q), Nothing)
    ensures current' == |path'| + 1
    ensures path' == path + Segment(Top, q, SideLength(Top, q))
    ensures q.left <= q.right ==> path'[|path'| - 1] == (q.top, q.right)
    ensures current' == current + SideLength(Top, q)
  {
    SideStart(mat, n, path, current, Top, q);
    var col := q.left;
    ghost var k := 0;
    mat', path', current' := mat, path, current;
    while col <= q.right
      invariant k == col - q.left
      invariant SideLoop(mat', n, path, path', current', Top, q, k)
    {
      SideStep(mat', n, path, path', current', Top, q, k, (q.top, col));
      mat' := Store(mat', n, (q.top, col), current');
      path' := path' + [(q.top, col)];
      current' := current' + 1;
      col := col + 1;
      k := k + 1;
    }
    SideEnd(mat', n, path, path', current', Top, q);
  }

  /** `for (row = top; row <= bottom; row++) matrix[row][right] = current++` */
  method FillRight(mat: Matrix, n: nat, ghost path: seq<Cell>, current: int, q: Rect)
    returns (mat': Matrix, ghost path': seq<Cell>, current': int)
    requires Fits(Right, q, n) && Walk(mat, n, path, q, Nothing) && current == |path| + 1
    requires q.top <= q.bottom && |path| > 0 ==> Adjacent(path[|path| - 1], (q.top, q.right))
    ensures Walk(mat', n, path', Shrink(Right, q), Nothing)
    ensures current' == |path'| + 1
    ensures path' == path + Segment(Right, q, SideLength(Right, q))
    ensures q.top <= q.bottom ==> path'[|path'| - 1] == (q.bottom, q.right)
    ensures current' == current + SideLength(Right, q)
  {
    SideStart(mat, n, path, current, Right, q);
    var row := q.top;
    ghost var k := 0;
    mat', path', current' := mat, path, current;
    while row <= q.bottom
      invariant k == row - q.top
      invariant SideLoop(mat', n, path, path', current', Right, q, k)
    {
      SideStep(mat', n, path, path', current', Right, q, k, (row, q.right));
      mat' := Store(mat', n, (row, q.right), current');
      path' := path' + [(row, q.right)];
      current' := current' + 1;
      row := row + 1;
      k := k + 1;
    }
    SideEnd(mat', n, path, path', current', Right, q);
  }

  /** `for (col = right; col >= left; col--) matrix[bottom][col] = current++` */
  method FillBottom(mat: Matrix, n: nat, ghost path: seq<Cell>, current: int, q: Rect)
    returns (mat': Matrix, ghost path': seq<Cell>, current': int)
    requires Fits(Bottom, q, n) && Walk(mat, n, path, q, Nothing) && current == |path| + 1
    requires q.left <= q.right && |path| > 0 ==> Adjacent(path[|path| - 1], (q.bottom, q.right))
    ensures Walk(mat', n, path', Shrink(Bottom, q), Nothing)
    ensures current' == |path'| + 1
    ensures path' == path + Segment(Bottom, q, SideLength(Bottom, q))
    ensures q.left <= q.right ==> path'[|path'| - 1] == (q.bottom, q.left)
    ensures current' == current + SideLength(Bottom, q)
  {
    SideStart(mat, n, path, current, Bottom, q);
    var col := q.right;
    ghost var k := 0;
    mat', path', current' := mat, path, current;
    while col >= q.left
      invariant k == q.right - col
      invariant SideLoop(mat', n, path, path', current', Bottom, q, k)
    {
      SideStep(mat', n, path, path', current', Bottom, q, k, (q.bottom, col));
      mat' := Store(mat', n, (q.bottom, col), current');
      path' := path' + [(q.bottom, col)];
      current' := current' + 1;
      col := col - 1;
      k := k + 1;
    }
    SideEnd(mat', n, path, path', current', Bottom, q);
  }

  /** `for (row = bottom; row >= top; row--) matrix[row][left] = current++` */
  method FillLeft(mat: Matrix, n: nat, ghost path: seq<Cell>, current: int, q: Rect)
    returns (mat': Matrix, ghost path': seq<Cell>, current': int)
    requires Fits(Left, q, n) && Walk(mat, n, path, q, Nothing) && current == |path| + 1
    requires q.top <= q.bottom && |path| > 0 ==> Adjacent(path[|path| - 1], (q.bottom, q.left))
    ensures Walk(mat', n, path', Shrink(Left, q), Nothing)
    ensures current' == |path'| + 1
    ensures path' == path + Segment(Left, q, SideLength(Left, q))
    ensures q.top <= q.bottom ==> path'[|path'| - 1] == (q.top, q.left)
    ensures current' == current + SideLength(Left, q)
  {
    SideStart(mat, n, path, current, Left, q);
    var row := q.bottom;
    ghost var k := 0;
    mat', path', current' := mat, path, current;
    while row >= q.top
      invariant k == q.bottom - row
      invariant SideLoop(mat', n, path, path', current', Left, q, k)
    {
      SideStep(mat', n, path, path', current', Left, q, k, (row, q.left));
      mat' := Store(mat', n, (row, q.left), current');
      path' := path' + [(row, q.left)];
      current' := current' + 1;
      row := row - 1;
      k := k + 1;
    }
    SideEnd(mat', n, path, path', current', Left, q);
  }
  /** A side's cells leave the rectangle: its area drops by the side's length. */
  lemma AreaShrink(side: Side, q: Rect, n: nat)
    requires Fits(side, q, n)
    ensures Area(q) == Area(Shrink(side, q)) + SideLength(side, q)
  {
    var h, w := q.bottom - q.top + 1, q.right - q.left + 1;
    match side
    case Top => assert h * w == (h - 1) * w + w;
    case Bottom => assert h * w == (h - 1) * w + w;
    case Right => assert h * w == h * (w - 1) + h;
    case Left => assert h * w == h * (w - 1) + h;
  }

  /** A rectangle whose sides are not negative and whose area is positive has both sides positive. */
  lemma AreaPositive(q: Rect)
    requires q.top <= q.bottom + 1 && q.left <= q.right + 1
    ensures Area(q) > 0 <==> q.top <= q.bottom && q.left <= q.right
  {
    var h, w := q.bottom - q.top + 1, q.right - q.left + 1;
    if h == 0 || w == 0 {
      assert h * w == 0;
    } else {
      assert h * w >= 1;
    }
  }

  /** The first pass fills row 0 left to right and then the last column downwards. */
  function FirstPass(n: nat): seq<Cell>
    requires n >= 1
  {
    Segment(Top, Rect(0, n - 1, 0, n - 1), n) + Segment(Right, Rect(1, n - 1, 0, n - 1), n - 1)
  }

  /**
   * The state at the head of the outer `while` loop: the walk so far, the
   * rectangle `q` = (top, bottom, left, right) still to fill, and while cells
   * remain, a square rectangle centred in the grid whose top-left corner is
   * next to the last cell written.
   */
  ghost predicate Shape(n: nat, path: seq<Cell>, current: int, q: Rect)
  {
    && 0 <= q.top && q.bottom < n && 0 <= q.left && q.right < n
    && q.top <= q.bottom + 1 && q.left <= q.right + 1
    && current == |path| + 1
    && |path| + Area(q) == n * n
    && (current <= n * n ==> q.top == q.left && q.bottom == q.right && q.top + q.bottom == n - 1)
    && (current <= n * n && |path| > 0 ==> path[|path| - 1] == (q.top, q.left - 1))
    && (q.top == 0 ==> path == [])
    && (q.top >= 1 ==> n >= 1 && |path| >= 2 * n - 1 && path[..2 * n - 1] == FirstPass(n))
  }

  /** The outer loop invariant: the matrix holds a walk over everything outside `q`. */
  ghost predicate Outer(mat: Matrix, n: nat, path: seq<Cell>, current: int, q: Rect)
  {
    Walk(mat, n, path, q, Nothing) && Shape(n, path, current, q)
  }

  lemma OuterStart(n: nat)
    ensures Outer(Zeros(n), n, [], 1, Rect(0, n - 1, 0, n - 1))
  {
    var q := Rect(0, n - 1, 0, n - 1);
    assert Area(q) == n * n;
  }

  /** The first pass leaves row 0 and the last column as its first 2n - 1 cells. */
  lemma FirstPassKept(n: nat, path0: seq<Cell>, rest: seq<Cell>)
    requires n >= 1 && |path0| >= 2 * n - 1 && path0[..2 * n - 1] == FirstPass(n)
    ensures |path0 + rest| >= 2 * n - 1 && (path0 + rest)[..2 * n - 1] == FirstPass(n)
  {
    assert (path0 + rest)[..2 * n - 1] == path0[..2 * n - 1];
  }

  lemma FirstPassMade(n: nat, rest: seq<Cell>)
    requires n >= 1
    ensures |FirstPass(n) + rest| >= 2 * n - 1 && (FirstPass(n) + rest)[..2 * n - 1] == FirstPass(n)
  {
    assert |FirstPass(n)| == 2 * n - 1;
    assert (FirstPass(n) + rest)[..2 * n - 1] == FirstPass(n);
  }

  /** The cells of one pass around the ring whose top-left corner is (d, d) and bottom-right (e, e). */
  function Ring(d: int, e: int): seq<Cell>
    requires d < e
  {
    Segment(Top, Rect(d, e, d, e), SideLength(Top, Rect(d, e, d, e)))
    + Segment(Right, Rect(d + 1, e, d, e), SideLength(Right, Rect(d + 1, e, d, e)))
    + Segment(Bottom, Rect(d + 1, e, d, e - 1), SideLength(Bottom, Rect(d + 1, e, d, e - 1)))
    + Segment(Left, Rect(d + 1, e - 1, d, e - 1), SideLength(Left, Rect(d + 1, e - 1, d, e - 1)))
  }

  /** A ring of side s >= 2 has 4s - 4 cells and ends next to the corner of the ring inside it. */
  lemma RingFacts(d: int, e: int)
    requires d < e
    ensures |Ring(d, e)| == 4 * (e - d + 1) - 4
    ensures Ring(d, e)[|Ring(d, e)| - 1] == (d + 1, d)
  {
    var s := e - d + 1;
    var bottom := Segment(Bottom, Rect(d + 1, e, d, e - 1), s - 1);
    var left := Segment(Left, Rect(d + 1, e - 1, d, e - 1), s - 2);
    if s > 2 {
      SegmentAt(Left, Rect(d + 1, e - 1, d, e - 1), s - 2, s - 3);
    } else {
      assert left == [];
      SegmentAt(Bottom, Rect(d + 1, e, d, e - 1), s - 1, s - 2);
    }
  }

  lemma RingArea(d: int, e: int)
    requires d < e
    ensures Area(Rect(d, e, d, e)) == 4 * (e - d + 1) - 4 + Area(Rect(d + 1, e - 1, d + 1, e - 1))
  {
    var s := e - d + 1;
    assert Area(Rect(d, e, d, e)) == s * s;
    assert Area(Rect(d + 1, e - 1, d + 1, e - 1)) == (s - 2) * (s - 2);
  }

  /** Whatever ring is walked, the first pass stays at the front of the walk. */
  lemma RingPrefix(n: nat, path0: seq<Cell>, d: int, e: int)
    requires 0 <= d < e < n && d + e == n - 1
    requires d == 0 ==> path0 == []
    requires d >= 1 ==> |path0| >= 2 * n - 1 && path0[..2 * n - 1] == FirstPass(n)
    ensures |path0 + Ring(d, e)| >= 2 * n - 1 && (path0 + Ring(d, e))[..2 * n - 1] == FirstPass(n)
  {
    if d == 0 {
      RingFirst(n);
      FirstPassMade(n, Ring(d, e)[2 * n - 1..]);
    } else {
      FirstPassKept(n, path0, Ring(d, e));
    }
  }

  /** The outermost ring starts with the first pass. */
  lemma RingFirst(n: nat)
    requires n >= 2
    ensures |Ring(0, n - 1)| >= 2 * n - 1
    ensures Ring(0, n - 1) == FirstPass(n) + Ring(0, n - 1)[2 * n - 1..]
  {
    var outer := Rect(0, n - 1, 0, n - 1);
    assert SideLength(Top, outer) == n;
    assert SideLength(Right, Rect(1, n - 1, 0, n - 1)) == n - 1;
    var top := Segment(Top, outer, n);
    var right := Segment(Right, Rect(1, n - 1, 0, n - 1), n - 1);
    var bottom := Segment(Bottom, Rect(1, n - 1, 0, n - 2), SideLength(Bottom, Rect(1, n - 1, 0, n - 2)));
    var left := Segment(Left, Rect(1, n - 2, 0, n - 2), SideLength(Left, Rect(1, n - 2, 0, n - 2)));
    assert Ring(0, n - 1) == top + right + bottom + left;
    assert FirstPass(n) == top + right;
    assert |top + right| == 2 * n - 1;
    assert Ring(0, n - 1) == (top + right) + (bottom + left);
  }

  /** A pass over a ring of side s >= 2 writes its 4s - 4 cells and leaves the ring inside it. */
  lemma PassRing(n: nat, path0: seq<Cell>, path: seq<Cell>, current: int, q: Rect)
    requires Shape(n, path0, |path0| + 1, q) && |path0| + 1 <= n * n && q.top < q.bottom
    requires current == |path| + 1 && path == path0 + Ring(q.top, q.bottom)
    ensures Shape(n, path, current, Rect(q.top + 1, q.bottom - 1, q.top + 1, q.bottom - 1))
    ensures current > |path0| + 1
  {
    var d, e := q.top, q.bottom;
    assert q == Rect(d, e, d, e);
    RingFacts(d, e);
    RingArea(d, e);
    RingPrefix(n, path0, d, e);
    assert path[|path| - 1] == Ring(d, e)[|Ring(d, e)| - 1];
  }

  /** A pass over the single centre cell (odd n) writes it and empties the rectangle. */
  lemma PassCentre(n: nat, path0: seq<Cell>, path: seq<Cell>, current0: int, current: int, d: int)
    requires 0 <= d < n && d + d == n - 1
    requires current0 == |path0| + 1 && |path0| + Area(Rect(d, d, d, d)) == n * n
    requires d == 0 ==> path0 == []
    requires d >= 1 ==> |path0| >= 2 * n - 1 && path0[..2 * n - 1] == FirstPass(n)
    requires current == |path| + 1
    requires path == path0
                     + Segment(Top, Rect(d, d, d, d), SideLength(Top, Rect(d, d, d, d)))
                     + Segment(Right, Rect(d + 1, d, d, d), SideLength(Right, Rect(d + 1, d, d, d)))
    ensures Shape(n, path, current, Rect(d + 1, d, d, d - 1)) && current > current0
  {
    var centre := Segment(Top, Rect(d, d, d, d), 1) + Segment(Right, Rect(d + 1, d, d, d), 0);
    if d == 0 {
      FirstPassMade(n, []);
      assert path == FirstPass(n) + [];
    } else {
      FirstPassKept(n, path0, centre);
    }
  }

  /** The four sides of one pass over a square `q`, as the loop visits them. */
  lemma RingSides(q: Rect)
    requires q.left == q.top && q.right == q.bottom && q.top < q.bottom
    ensures var q1 := Shrink(Top, q); var q2 := Shrink(Right, q1); var q3 := Shrink(Bottom, q2);
      && Segment(Top, q, SideLength(Top, q)) + Segment(Right, q1, SideLength(Right, q1))
         + Segment(Bottom, q2, SideLength(Bottom, q2)) + Segment(Left, q3, SideLength(Left, q3))
         == Ring(q.top, q.bottom)
      && Shrink(Left, q3) == Rect(q.top + 1, q.bottom - 1, q.top + 1, q.bottom - 1)
  {
    var d, e := q.top, q.bottom;
    assert q == Rect(d, e, d, e);
  }

  lemma CentreSides(q: Rect)
    requires q.left == q.top && q.right == q.bottom && q.top == q.bottom
    ensures var q1 := Shrink(Top, q);
      && q == Rect(q.top, q.top, q.top, q.top) && q1 == Rect(q.top + 1, q.top, q.top, q.top)
      && Shrink(Right, q1) == Rect(q.top + 1, q.top, q.top, q.top - 1)
  {
  }

  lemma Append4(p: seq<Cell>, a: seq<Cell>, b: seq<Cell>, c: seq<Cell>, d: seq<Cell>)
    ensures p + a + b + c + d == p + (a + b + c + d)
  {
  }

  /**
   * Half-way through a pass over the square `q` that began with the walk `path0`:
   * the top row and the right column have been walked, ending in the corner (bottom, right).
   */
  ghost predicate Half(mat: Matrix, n: nat, path0: seq<Cell>, path: seq<Cell>, current: int, q: Rect)
  {
    && Shape(n, path0, |path0| + 1, q) && |path0| + 1 <= n * n
    && Walk(mat, n, path, Shrink(Right, Shrink(Top, q)), Nothing)
    && current == |path| + 1
    && path == path0 + Segment(Top, q, SideLength(Top, q))
                     + Segment(Right, Shrink(Top, q), SideLength(Right, Shrink(Top, q)))
    && |path| > 0 && path[|path| - 1] == (q.bottom, q.right)
  }

  /** The top row left to right, `top++`, the right column downwards, `right--`. */
  method TopRight(mat: Matrix, n: nat, ghost path: seq<Cell>, current: int, q: Rect)
    returns (mat': Matrix, ghost path': seq<Cell>, current': int)
    requires Outer(mat, n, path, current, q) && current <= n * n
    ensures Half(mat', n, path, path', current', q)
  {
    AreaPositive(q);
    var m1, p1, c1 := FillTop(mat, n, path, current, q);
    mat', path', current' := FillRight(m1, n, p1, c1, Shrink(Top, q));
  }

  /** While rows remain: the bottom row right to left, `bottom--`, the left column upwards, `left++`. */
  method BottomLeft(mat: Matrix, n: nat, ghost path0: seq<Cell>, ghost path: seq<Cell>, current: int, q: Rect)
    returns (mat': Matrix, ghost path': seq<Cell>, current': int)
    requires Half(mat, n, path0, path, current, q) && q.top < q.bottom
    ensures Outer(mat', n, path', current', Shrink(Left, Shrink(Bottom, Shrink(Right, Shrink(Top, q)))))
    ensures current' > |path0| + 1
  {
    var q1 := Shrink(Top, q);
    var q2 := Shrink(Right, q1);
    var m3, p3, c3 := FillBottom(mat, n, path, current, q2);
    var q3 := Shrink(Bottom, q2);
    mat', path', current' := FillLeft(m3, n, p3, c3, q3);
    RingSides(q);
    Append4(path0, Segment(Top, q, SideLength(Top, q)), Segment(Right, q1, SideLength(Right, q1)),
      Segment(Bottom, q2, SideLength(Bottom, q2)), Segment(Left, q3, SideLength(Left, q3)));
    PassRing(n, path0, path', current', q);
  }

  /** When only the centre cell was left, the pass ends after it with nothing left to fill. */
  lemma HalfCentre(mat: Matrix, n: nat, path0: seq<Cell>, path: seq<Cell>, current: int, q: Rect)
    requires Half(mat, n, path0, path, current, q) && q.top == q.bottom
    ensures Outer(mat, n, path, current, Shrink(Right, Shrink(Top, q))) && current > |path0| + 1
  {
    CentreSides(q);
    PassCentre(n, path0, path, |path0| + 1, current, q.top);
  }

  /**
   * One iteration of the outer `while (current <= max)` loop over the rectangle
   * `q` = (top, bottom, left, right).  The rectangle is always square, so the guard
   * `left <= right` before the left column holds exactly when the guard `top <= bottom`
   * before the bottom row holds; both are taken together.
   */
  method SpiralPass(mat: Matrix, n: nat, ghost path: seq<Cell>, current: int, q: Rect)
    returns (mat': Matrix, ghost path': seq<Cell>, current': int, q': Rect)
    requires Outer(mat, n, path, current, q) && current <= n * n
    ensures Outer(mat', n, path', current', q') && current' > current
  {
    var m2, p2, c2 := TopRight(mat, n, path, current, q);
    var q2 := Shrink(Right, Shrink(Top, q));
    if q2.top <= q2.bottom {
      mat', path', current' := BottomLeft(m2, n, path, p2, c2, q);
      q' := Shrink(Left, Shrink(Bottom, q2));
    } else {
      HalfCentre(m2, n, path, p2, c2, q);
      mat', path', current', q' := m2, p2, c2, q2;
    }
  }

  /** Every cell holds one of 1 .. n*n. */
  ghost predicate InRange(mat: Matrix, n: nat)
    requires IsSquare(mat, n)
  {
    forall i, j :: 0 <= i < n && 0 <= j < n ==> 1 <= mat[i][j] <= n * n
  }

  /** No value is written twice. */
  ghost predicate Distinct(mat: Matrix, n: nat)
    requires IsSquare(mat, n)
  {
    forall i, j, i', j' :: 0 <= i < n && 0 <= j < n && 0 <= i' < n && 0 <= j' < n && mat[i][j] == mat[i'][j']
      ==> i == i' && j == j'
  }

  ghost predicate Occurs(mat: Matrix, n: nat, v: int)
    requires IsSquare(mat, n)
  {
    exists i, j :: 0 <= i < n && 0 <= j < n && mat[i][j] == v
  }

  /** Every value of 1 .. n*n is written somewhere. */
  ghost predicate Onto(mat: Matrix, n: nat)
    requires IsSquare(mat, n)
  {
    forall v :: 1 <= v <= n * n ==> Occurs(mat, n, v)
  }

  /** The cell holding v + 1 is a neighbour of the cell holding v. */
  ghost predicate Steps(mat: Matrix, n: nat)
    requires IsSquare(mat, n)
  {
    forall i, j, i', j' :: 0 <= i < n && 0 <= j < n && 0 <= i' < n && 0 <= j' < n && mat[i'][j'] == mat[i][j] + 1
      ==> Adjacent((i, j), (i', j'))
  }

  /** The walk starts along row 0 to the right and turns down the last column. */
  ghost predicate Clockwise(mat: Matrix, n: nat)
    requires IsSquare(mat, n)
  {
    && (forall j :: 0 <= j < n ==> mat[0][j] == j + 1)
    && (forall i :: 1 <= i < n ==> mat[i][n - 1] == n + i)
  }

  /** When the loop stops the rectangle is empty and every cell is on the walk. */
  lemma WalkDone(mat: Matrix, n: nat, path: seq<Cell>, current: int, q: Rect)
    requires Outer(mat, n, path, current, q) && current > n * n
    ensures |path| == n * n
    ensures forall i, j :: 0 <= i < n && 0 <= j < n ==> (i, j) in path
  {
    var h, w := q.bottom - q.top + 1, q.right - q.left + 1;
    assert h * w >= 0;
    AreaPositive(q);
    forall i, j | 0 <= i < n && 0 <= j < n
      ensures (i, j) in path
    {
      assert Filled((i, j), q, Nothing);
    }
  }

  /** A cell on the walk holds its position on the walk, counted from 1. */
  lemma CellIndex(mat: Matrix, n: nat, path: seq<Cell>, i: int, j: int)
    requires IsSquare(mat, n) && Placed(mat, n, path) && (i, j) in path
    ensures 1 <= mat[i][j] <= |path| && path[mat[i][j] - 1] == (i, j)
  {
    var k :| 0 <= k < |path| && path[k] == (i, j);
  }

  lemma DoneDistinct(mat: Matrix, n: nat, path: seq<Cell>)
    requires IsSquare(mat, n) && Placed(mat, n, path)
    requires forall i, j :: 0 <= i < n && 0 <= j < n ==> (i, j) in path
    ensures Distinct(mat, n)
  {
    forall i, j, i', j' | 0 <= i < n && 0 <= j < n && 0 <= i' < n && 0 <= j' < n && mat[i][j] == mat[i'][j']
      ensures i == i' && j == j'
    {
      CellIndex(mat, n, path, i, j);
      CellIndex(mat, n, path, i', j');
    }
  }

  lemma DoneSteps(mat: Matrix, n: nat, path: seq<Cell>)
    requires IsSquare(mat, n) && Placed(mat, n, path) && Connected(path)
    requires forall i, j :: 0 <= i < n && 0 <= j < n ==> (i, j) in path
    ensures Steps(mat, n)
  {
    forall i, j, i', j' | 0 <= i < n && 0 <= j < n && 0 <= i' < n && 0 <= j' < n && mat[i'][j'] == mat[i][j] + 1
      ensures Adjacent((i, j), (i', j'))
    {
      CellIndex(mat, n, path, i, j);
      CellIndex(mat, n, path, i', j');
      var k := mat[i][j] - 1;
      assert Adjacent(path[k], path[k + 1]);
    }
  }

  lemma DoneRange(mat: Matrix, n: nat, path: seq<Cell>)
    requires IsSquare(mat, n) && Placed(mat, n, path) && |path| == n * n
    requires forall i, j :: 0 <= i < n && 0 <= j < n ==> (i, j) in path
    ensures InRange(mat, n) && Onto(mat, n)
  {
    forall i, j | 0 <= i < n && 0 <= j < n
      ensures 1 <= mat[i][j] <= n * n
    {
      CellIndex(mat, n, path, i, j);
    }
    forall v | 1 <= v <= n * n
      ensures Occurs(mat, n, v)
    {
      var c := path[v - 1];
      assert 0 <= c.0 < n && 0 <= c.1 < n && mat[c.0][c.1] == v;
    }
  }

  lemma DoneClockwise(mat: Matrix, n: nat, path: seq<Cell>)
    requires IsSquare(mat, n) && Placed(mat, n, path) && n >= 1
    requires |path| >= 2 * n - 1 && path[..2 * n - 1] == FirstPass(n)
    ensures Clockwise(mat, n)
  {
    forall j | 0 <= j < n
      ensures mat[0][j] == j + 1
    {
      SegmentAt(Top, Rect(0, n - 1, 0, n - 1), n, j);
      assert path[j] == path[..2 * n - 1][j];
    }
    forall i | 1 <= i < n
      ensures mat[i][n - 1] == n + i
    {
      SegmentAt(Right, Rect(1, n - 1, 0, n - 1), n - 1, i - 1);
      assert path[n + i - 1] == path[..2 * n - 1][n + i - 1];
    }
  }

  /** When the loop stops, the matrix holds the whole spiral. */
  lemma SpiralDone(mat: Matrix, n: nat, path: seq<Cell>, current: int, q: Rect)
    requires Outer(mat, n, path, current, q) && current > n * n
    ensures IsSquare(mat, n)
    ensures InRange(mat, n) && Distinct(mat, n) && Onto(mat, n)
    ensures Steps(mat, n) && Clockwise(mat, n)
  {
    WalkDone(mat, n, path, current, q);
    DoneDistinct(mat, n, path);
    DoneSteps(mat, n, path);
    DoneRange(mat, n, path);
    if n >= 1 {
      DoneClockwise(mat, n, path);
    }
  }

  /**
   * `generateMatrix(n)`: the loop `while (current <= max)` with `max = n * n`,
   * one spiral pass per iteration.
   */
  method GenerateMatrix(n: nat) returns (matrix: Matrix)
    ensures IsSquare(matrix, n)
    ensures InRange(matrix, n) && Distinct(matrix, n) && Onto(matrix, n)
    ensures Steps(matrix, n) && Clockwise(matrix, n)
  {
    matrix := Zeros(n);
    var q := Rect(0, n - 1, 0, n - 1);
    var current := 1;
    var max := n * n;
    ghost var path: seq<Cell> := [];
    OuterStart(n);
    while current <= max
      invariant Outer(matrix, n, path, current, q)
    {
      matrix, path, current, q := SpiralPass(matrix, n, path, current, q);
    }
    SpiralDone(matrix, n, path, current, q);
  }
}
