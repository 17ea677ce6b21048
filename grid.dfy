/** Index arithmetic of the height-field grid: the row-major flat index of a
    cell, the cell covering a world point, and the clamp of a sampled cell
    into the interior (the one-cell border is a fixed boundary). */
module Grid {
  import opened Numeric

  /** Side of one grid cell, in CSS pixels. */
  const CellSize: real := 16.0

  /** Flat index of cell (col, row) in a row-major grid with `cols` columns. */
  function Idx(col: int, row: int, cols: int): int
  {
    row * cols + col
  }

  /** Column (or row) of the cell that covers world coordinate `v`. */
  function CellOf(v: real): int
  {
    (v / CellSize).Floor
  }

  /** Interior cells: neither in the first nor in the last column or row. */
  predicate InteriorCell(col: int, row: int, cols: int, rows: int)
  {
    1 <= col <= cols - 2 && 1 <= row <= rows - 2
  }

  /** The flat index `k` names an interior cell. */
  predicate InteriorIndex(k: int, cols: int, rows: int)
    requires cols > 0
  {
    InteriorCell(k % cols, k / cols, cols, rows)
  }

  /** Clamp of a sampled column (row) `c` into the interior of a dimension of
      size `n`: `Math.max(1, Math.min(n - 2, c))`. */
  function ClampInterior(c: int, n: int): (r: int)
    ensures n >= 3 ==> 1 <= r <= n - 2
    ensures n >= 2 ==> 0 <= r < n
    ensures 1 <= c <= n - 2 ==> r == c
    ensures n >= 3 ==> forall j :: 1 <= j <= n - 2 ==> Dist(c, r) <= Dist(c, j)
  {
    MaxInt(1, MinInt(n - 2, c))
  }

  function Dist(a: int, b: int): nat
  {
    if a <= b then b - a else a - b
  }

  /** A cell of the grid has a flat index inside the buffers. */
  lemma IdxInRange(col: int, row: int, cols: int, rows: int)
    requires 0 <= col < cols && 0 <= row < rows
    ensures 0 <= Idx(col, row, cols) < cols * rows
  {
    assert row * cols <= (rows - 1) * cols;
  }

  /** The flat index determines the cell: its column is the remainder and its
      row the quotient of the division by `cols`. */
  lemma IdxDecompose(col: int, row: int, cols: int)
    requires 0 <= col < cols
    ensures Idx(col, row, cols) % cols == col
    ensures Idx(col, row, cols) / cols == row
  {
    var k := Idx(col, row, cols);
    var q, m := k / cols, k % cols;
    assert k == q * cols + m && 0 <= m < cols;
    assert (q - row) * cols == col - m;
    SmallMultipleIsZero(q - row, cols);
  }

  /** A multiple of `c` strictly between `-c` and `c` is zero. */
  lemma SmallMultipleIsZero(d: int, c: int)
    requires c > 0 && -c < d * c < c
    ensures d == 0
  {
  }

  /** Two different cells never share a flat index. */
  lemma IdxInjective(c1: int, r1: int, c2: int, r2: int, cols: int)
    requires 0 <= c1 < cols && 0 <= c2 < cols
    requires Idx(c1, r1, cols) == Idx(c2, r2, cols)
    ensures c1 == c2 && r1 == r2
  {
    IdxDecompose(c1, r1, cols);
    IdxDecompose(c2, r2, cols);
  }

  /** An interior flat index has all four stencil neighbours inside a grid of
      `cols * rows` cells, and they are the cells left, right, above, below. */
  lemma InteriorNeighbours(k: int, cols: int, rows: int)
    requires cols > 0 && InteriorIndex(k, cols, rows)
    ensures 0 <= k - cols && k + cols < cols * rows
    ensures 0 <= k - 1 && k + 1 < cols * rows
    ensures k == Idx(k % cols, k / cols, cols)
    ensures k - 1 == Idx(k % cols - 1, k / cols, cols)
    ensures k + 1 == Idx(k % cols + 1, k / cols, cols)
    ensures k - cols == Idx(k % cols, k / cols - 1, cols)
    ensures k + cols == Idx(k % cols, k / cols + 1, cols)
  {
    var q, m := k / cols, k % cols;
    assert k == q * cols + m;
    MulMonotone(1, q, cols);
    MulMonotone(q, rows - 2, cols);
    assert (q - 1) * cols == q * cols - cols;
    assert (q + 1) * cols == q * cols + cols;
    assert (rows - 2) * cols == cols * rows - 2 * cols;
  }

  lemma MulMonotone(a: int, b: int, c: int)
    requires a <= b && c >= 0
    ensures a * c <= b * c
  {
    assert b * c - a * c == (b - a) * c;
  }

  /** Every interior flat index lies before the last row. */
  lemma InteriorBeforeLastRow(k: int, cols: int, rows: int)
    requires cols > 0 && InteriorIndex(k, cols, rows)
    ensures 0 <= k < (rows - 1) * cols
  {
    var q, m := k / cols, k % cols;
    assert k == q * cols + m;
    assert q * cols <= (rows - 2) * cols;
    assert (rows - 2) * cols + cols == (rows - 1) * cols;
  }

  /** An interior cell's flat index is an interior index. */
  lemma InteriorCellIndex(col: int, row: int, cols: int, rows: int)
    requires InteriorCell(col, row, cols, rows)
    ensures cols > 0 && InteriorIndex(Idx(col, row, cols), cols, rows)
    ensures 0 <= Idx(col, row, cols) < cols * rows
  {
    IdxDecompose(col, row, cols);
    IdxInRange(col, row, cols, rows);
  }

  /** The first and the last cell of a row belong to the border. */
  lemma RowEnds(row: int, cols: int, rows: int)
    requires cols > 0
    ensures !InteriorIndex(Idx(0, row, cols), cols, rows)
    ensures !InteriorIndex(Idx(cols - 1, row, cols), cols, rows)
  {
    IdxDecompose(0, row, cols);
    IdxDecompose(cols - 1, row, cols);
  }

  /** The first cell of a row follows the last cell of the row above. */
  lemma NextRowStart(row: int, cols: int)
    ensures Idx(0, row + 1, cols) == Idx(cols - 1, row, cols) + 1
  {
    assert (row + 1) * cols == row * cols + cols;
  }

  /** Flat index of the cell `sampleHeightWorld` reads for world point
      (x, y): the covering cell clamped into the interior. */
  function SampledCell(x: real, y: real, cols: int, rows: int): int
  {
    Idx(ClampInterior(CellOf(x), cols), ClampInterior(CellOf(y), rows), cols)
  }

  /** The sampled cell is inside the buffers whenever the grid is at least 2
      by 2, which `resize` ensures, and it is interior when the grid has an
      interior. */
  lemma SampledCellInRange(x: real, y: real, cols: int, rows: int)
    requires cols >= 2 && rows >= 2
    ensures 0 <= SampledCell(x, y, cols, rows) < cols * rows
    ensures cols >= 3 && rows >= 3 ==> InteriorIndex(SampledCell(x, y, cols, rows), cols, rows)
  {
    var cx, cy := ClampInterior(CellOf(x), cols), ClampInterior(CellOf(y), rows);
    IdxInRange(cx, cy, cols, rows);
    if cols >= 3 && rows >= 3 {
      InteriorCellIndex(cx, cy, cols, rows);
    }
  }

  /** The four flat indices `sampleGradientWorld` reads around the sampled
      cell, as the source computes them: left, right, up, down. */
  function GradientTaps(x: real, y: real, cols: int, rows: int): seq<int>
  {
    var cx := ClampInterior(CellOf(x), cols);
    var cy := ClampInterior(CellOf(y), rows);
    [Idx(cx - 1, cy, cols), Idx(cx + 1, cy, cols), Idx(cx, cy - 1, cols), Idx(cx, cy + 1, cols)]
  }

  /** On a grid with an interior, the gradient taps are the four stencil
      neighbours of the (interior) sampled cell, all inside the buffers. */
  lemma GradientTapsInRange(x: real, y: real, cols: int, rows: int)
    requires cols >= 3 && rows >= 3
    ensures var c := SampledCell(x, y, cols, rows);
      && InteriorIndex(c, cols, rows)
      && 0 <= c - cols && c + cols < cols * rows && 0 <= c - 1 && c + 1 < cols * rows
      && GradientTaps(x, y, cols, rows) == [c - 1, c + 1, c - cols, c + cols]
  {
    var cx, cy := ClampInterior(CellOf(x), cols), ClampInterior(CellOf(y), rows);
    SampledCellInRange(x, y, cols, rows);
    InteriorNeighbours(SampledCell(x, y, cols, rows), cols, rows);
    assert (cy - 1) * cols == cy * cols - cols;
    assert (cy + 1) * cols == cy * cols + cols;
  }

  /** A grid only two rows high (a viewport less than one cell tall) makes the
      "down" tap fall past the end of the buffers, whatever point is sampled. */
  lemma GradientTapPastEndWhenTwoRows(x: real, y: real, cols: int)
    requires cols >= 2
    ensures GradientTaps(x, y, cols, 2)[3] >= cols * 2
  {
  }

  /** A grid only two columns wide wraps the "right" tap around to column 0
      of the next row instead of reading a neighbour. */
  lemma GradientTapWrapsWhenTwoColumns(x: real, y: real, rows: int)
    requires rows >= 2
    ensures GradientTaps(x, y, 2, rows)[1] % 2 == 0
    ensures GradientTaps(x, y, 2, rows)[1] == Idx(0, ClampInterior(CellOf(y), rows) + 1, 2)
  {
    var cy := ClampInterior(CellOf(y), rows);
    IdxDecompose(0, cy + 1, 2);
  }
}
