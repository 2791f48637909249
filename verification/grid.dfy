/**
 * Grid geometry of the image wall: how many rows and columns the tiles are
 * laid out in, the wrap period (WHOLE_WIDTH) per axis, and the cell each
 * tile starts in.
 */
module Grid {

  /** A point or offset in wall coordinates. */
  datatype Vec = Vec(x: real, y: real)

  const Zero: Vec := Vec(0.0, 0.0)

  /**
   * The fixed layout of one wall: the tile count, the tile box and margin,
   * the grid shape derived from the count, and the wrap period.
   */
  datatype Layout = Layout(
    count: nat,
    width: real,
    height: real,
    margin: real,
    numRows: nat,
    numCols: nat,
    whole: Vec)

  /**
   * `Math.ceil(Math.sqrt(n))` for a whole number `n`: the least `r` whose
   * square reaches `n`.
   */
  function CeilSqrt(n: nat): (r: nat)
    ensures n <= r * r
    ensures r == 0 || (r - 1) * (r - 1) < n
  {
    SquareReaching(n, 0)
  }

  /** Counts `r` upward until its square reaches `n`. */
  function SquareReaching(n: nat, r: nat): (s: nat)
    requires r == 0 || (r - 1) * (r - 1) < n
    ensures n <= s * s
    ensures s == 0 || (s - 1) * (s - 1) < n
    decreases n - r
  {
    if n <= r * r then r
    else
      assert r <= r * r;
      SquareReaching(n, r + 1)
  }

  /** `Math.ceil(a / b)` for whole numbers: the least `q` with `a <= q * b`. */
  function CeilDiv(a: nat, b: nat): (q: nat)
    requires b > 0
    ensures a <= q * b
    ensures q == 0 || (q - 1) * b < a
  {
    var q := (a + b - 1) / b;
    assert a + b - 1 == q * b + (a + b - 1) % b;
    assert (q - 1) * b == q * b - b;
    q
  }

  lemma MulCancelLt(a: int, b: int, c: int)
    requires c > 0 && a * c < b * c
    ensures a < b
  {
  }

  /**
   * The grid for `count` tiles, with rows derived first from the square root
   * and columns from the rows; the wrap period is one cell pitch per column
   * (row).
   */
  function MakeLayout(count: nat, width: real, height: real, margin: real): (lay: Layout)
    requires count >= 1
    ensures lay.count == count && lay.width == width && lay.height == height && lay.margin == margin
    ensures lay.numRows >= 1 && lay.numCols >= 1
    ensures count <= lay.numRows * lay.numCols
    ensures lay.numCols <= lay.numRows
    ensures (lay.numRows - 1) * lay.numCols < count
    ensures (lay.numCols - 1) * lay.numRows < count
    ensures width + margin > 0.0 ==> lay.whole.x > 0.0
    ensures height + margin > 0.0 ==> lay.whole.y > 0.0
    ensures width + margin > 0.0 && height + margin > 0.0 ==> Valid(lay)
  {
    var rows := CeilSqrt(count);
    var cols := CeilDiv(count, rows);
    GridShape(count, rows, cols);
    Layout(count, width, height, margin, rows, cols,
           Vec(cols as real * (width + margin), rows as real * (height + margin)))
  }

  /**
   * With `rows` the ceiling square root of `count` and `cols` the ceiling of
   * `count / rows`: the grid is no wider than tall and leaves no row empty.
   */
  lemma GridShape(count: nat, rows: nat, cols: nat)
    requires count >= 1
    requires count <= rows * rows && (rows - 1) * (rows - 1) < count
    requires count <= cols * rows && (cols == 0 || (cols - 1) * rows < count)
    ensures rows >= 1 && cols >= 1
    ensures cols <= rows
    ensures (rows - 1) * cols < count
  {
    assert rows >= 1;
    assert cols >= 1;
    assert (cols - 1) * rows < rows * rows;
    MulCancelLt(cols - 1, rows, rows);
    if count <= rows * (rows - 1) {
      assert (cols - 1) * rows < (rows - 1) * rows;
      MulCancelLt(cols - 1, rows - 1, rows);
      MulMonoLe(cols, rows - 1, rows - 1);
    } else {
      assert (rows - 1) * rows < cols * rows;
      MulCancelLt(rows - 1, cols, rows);
      assert cols == rows;
      assert (rows - 1) * cols == rows * (rows - 1);
    }
  }

  lemma MulMonoLe(a: int, b: int, c: nat)
    requires a <= b
    ensures c * a <= c * b
  {
  }

  /** The layout built for its own count, tile box and margin, with a positive cell pitch. */
  predicate Valid(lay: Layout) {
    && Fits(lay)
    && lay.numRows == CeilSqrt(lay.count)
    && lay.numCols == CeilDiv(lay.count, lay.numRows)
  }

  /** The shape facts the tile placement relies on: positive pitch, room for every tile, one pitch per cell. */
  predicate Fits(lay: Layout) {
    && lay.count >= 1
    && lay.width + lay.margin > 0.0
    && lay.height + lay.margin > 0.0
    && lay.numRows >= 1
    && lay.numCols >= 1
    && lay.count <= lay.numRows * lay.numCols
    && lay.whole == Vec(lay.numCols as real * (lay.width + lay.margin),
                        lay.numRows as real * (lay.height + lay.margin))
    && lay.whole.x > 0.0 && lay.whole.y > 0.0
  }

  /**
   * Where tile `i` is placed before any panning: column `i % numCols`, row
   * `i / numCols`. In a layout that fits, every tile starts inside one wrap
   * period, `[0, WHOLE_WIDTH.x) × [0, WHOLE_WIDTH.y)`.
   */
  function TileOrigin(lay: Layout, i: nat): (o: Vec)
    requires lay.numCols >= 1
    ensures Fits(lay) && i < lay.count ==>
              0.0 <= o.x < lay.whole.x && 0.0 <= o.y < lay.whole.y
  {
    var o := Vec((lay.width + lay.margin) * (i % lay.numCols) as real,
                 (lay.height + lay.margin) * (i / lay.numCols) as real);
    if Fits(lay) && i < lay.count then
      CellInside(o, lay.whole, lay.width + lay.margin, lay.height + lay.margin,
                 i, lay.numCols, lay.numRows);
      o
    else
      o
  }

  /** Cell `i` of a `rows`-by-`c` grid with positive pitches lies inside the block the grid spans. */
  lemma CellInside(o: Vec, whole: Vec, p: real, q: real, i: nat, c: nat, rows: nat)
    requires c >= 1 && p > 0.0 && q > 0.0 && i < rows * c
    requires o.x == p * (i % c) as real && o.y == q * (i / c) as real
    requires whole.x == c as real * p && whole.y == rows as real * q
    ensures 0.0 <= o.x < whole.x && 0.0 <= o.y < whole.y
  {
    CellOf(i, c, rows);
    ScaledBelow(p, i % c, c);
    ScaledBelow(q, i / c, rows);
  }

  /** Index `i` of a `rows`-by-`c` grid lies in column `i % c` and row `i / c`, both inside the grid. */
  lemma CellOf(i: nat, c: nat, rows: nat)
    requires c >= 1 && i < rows * c
    ensures i % c < c && i / c < rows
  {
    assert i == (i / c) * c + i % c;
    assert (i / c) * c < rows * c;
    MulCancelLt(i / c, rows, c);
  }

  lemma ScaledBelow(pitch: real, k: nat, n: nat)
    requires pitch > 0.0 && k < n
    ensures 0.0 <= pitch * k as real < n as real * pitch
  {
    assert (n as real) * pitch - pitch * (k as real) == pitch * ((n - k) as real);
  }

  /** Distinct tiles start in distinct cells. */
  lemma TileOriginInjective(lay: Layout, i: nat, j: nat)
    requires lay.numCols >= 1 && lay.width + lay.margin > 0.0 && lay.height + lay.margin > 0.0
    requires i != j
    ensures TileOrigin(lay, i) != TileOrigin(lay, j)
  {
    CellsDiffer(lay.width + lay.margin, lay.height + lay.margin, i, j, lay.numCols);
  }

  lemma CellsDiffer(p: real, q: real, i: nat, j: nat, c: nat)
    requires c >= 1 && p > 0.0 && q > 0.0 && i != j
    ensures Vec(p * (i % c) as real, q * (i / c) as real) != Vec(p * (j % c) as real, q * (j / c) as real)
  {
    if p * (i % c) as real == p * (j % c) as real && q * (i / c) as real == q * (j / c) as real {
      ScaledEqual(p, i % c, j % c);
      ScaledEqual(q, i / c, j / c);
      SameCell(i, j, c);
    }
  }

  lemma SameCell(i: nat, j: nat, c: nat)
    requires c >= 1 && i % c == j % c && i / c == j / c
    ensures i == j
  {
    assert i == (i / c) * c + i % c;
    assert j == (j / c) * c + j % c;
  }

  lemma ScaledEqual(pitch: real, a: nat, b: nat)
    requires pitch > 0.0 && pitch * a as real == pitch * b as real
    ensures a == b
  {
    assert pitch * (a as real - b as real) == 0.0;
  }

  /** Example grid shapes. */
  lemma GridShapeExamples()
    ensures MakeLayout(10, 1.0, 1.0, 0.0).numRows == 4 && MakeLayout(10, 1.0, 1.0, 0.0).numCols == 3
    ensures MakeLayout(16, 1.0, 1.0, 0.0).numRows == 4 && MakeLayout(16, 1.0, 1.0, 0.0).numCols == 4
    ensures MakeLayout(25, 1.0, 1.0, 0.0).numRows == 5 && MakeLayout(25, 1.0, 1.0, 0.0).numCols == 5
  {
    CeilSqrtIs(10, 4);
    CeilSqrtIs(16, 4);
    CeilSqrtIs(25, 5);
  }

  /** The ceiling square root is the unique `r` with `(r-1)^2 < n <= r^2`. */
  lemma CeilSqrtIs(n: nat, r: nat)
    requires r >= 1 && (r - 1) * (r - 1) < n <= r * r
    ensures CeilSqrt(n) == r
  {
    var s := CeilSqrt(n);
    if s < r {
      SquareMono(s, r - 1);
    } else if s > r {
      SquareMono(r, s - 1);
    }
  }

  lemma SquareMono(a: nat, b: nat)
    requires a <= b
    ensures a * a <= b * b
  {
    assert a * a <= a * b <= b * b;
  }
}
