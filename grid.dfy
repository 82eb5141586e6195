/**
 * The grid the extra cubes of the multiple-objects page stand on.
 *
 * The main cube sits at the scene offset, grid cell (0, 0). Extra cube `i`
 * (0-based, 99 of them) takes cell number `i + 1`, read row by row in rows
 * of `MORE_CUBE_COUNT_PER_ROW` cells: x steps = column, y steps = row. The
 * page scales steps by 1.5 world units; the model stays in whole steps.
 */
module CubeGrid {
  import opened Arith

  /** The number of extra cubes drawn beside the main cube. */
  const MORE_CUBE_COUNT: nat := 99

  /** Searches upwards from `r` for the least root whose square reaches `n`. */
  function CeilSqrtFrom(n: nat, r: nat): (s: nat)
    requires r == 0 || (r - 1) * (r - 1) < n
    ensures s * s >= n
    ensures s == 0 || (s - 1) * (s - 1) < n
    decreases n - r
  {
    if r * r >= n then r
    else
      assert r <= r * r;
      CeilSqrtFrom(n, r + 1)
  }

  /** `Math.ceil(Math.sqrt(n))`: the least `r` with `r * r >= n`. */
  function CeilSqrt(n: nat): (r: nat)
    ensures r * r >= n
    ensures r == 0 || (r - 1) * (r - 1) < n
  {
    CeilSqrtFrom(n, 0)
  }

  /** Squares grow with their roots. */
  lemma {:induction false} SquareMonotone(a: nat, b: nat)
    requires a <= b
    ensures a * a <= b * b
  {
    assert a * a <= a * b <= b * b;
  }

  /** The ceiling root is the least root: no smaller number squares to `n` or more. */
  lemma CeilSqrtLeast(n: nat, m: nat)
    requires m * m >= n
    ensures CeilSqrt(n) <= m
  {
    var r := CeilSqrt(n);
    if m < r {
      SquareMonotone(m, r - 1);
    }
  }

  /** The row length of the grid. */
  const MORE_CUBE_COUNT_PER_ROW: nat := CeilSqrt(MORE_CUBE_COUNT)

  /** 99 cubes get rows of 10. */
  lemma PerRowIsTen()
    ensures MORE_CUBE_COUNT_PER_ROW == 10
  {
    CeilSqrtLeast(99, 10);
  }

  /** A grid cell, in whole steps from the main cube. */
  datatype Steps = Steps(x: nat, y: nat)

  /**
   * The steps of extra cube `i`: `offsetYSteps = floor((i + 1) / perRow)`,
   * `offsetXSteps = i + 1 - offsetYSteps * perRow`. Reading the row and
   * column back gives cell number `i + 1`, and the column stays inside a row.
   */
  function GridSteps(i: nat, perRow: nat): (s: Steps)
    requires perRow > 0
    ensures s.y * perRow + s.x == i + 1
    ensures s.x < perRow
  {
    var y := (i + 1) / perRow;
    Steps(i + 1 - y * perRow, y)
  }

  /** The row is the quotient and the column the remainder of the cell number. */
  lemma GridStepsDivMod(i: nat, perRow: nat)
    requires perRow > 0
    ensures GridSteps(i, perRow).y == (i + 1) / perRow
    ensures GridSteps(i, perRow).x == (i + 1) % perRow
  {
  }

  /** A lower row ends before a higher row starts. */
  lemma RowsOrdered(a: nat, b: nat, perRow: nat)
    requires a < b
    ensures a * perRow + perRow <= b * perRow
  {
    assert (a + 1) * perRow <= b * perRow;
  }

  /** A cell number names one (column, row) pair with the column inside the row. */
  lemma {:induction false} CellUnique(perRow: nat, x1: nat, y1: nat, x2: nat, y2: nat)
    requires perRow > 0 && x1 < perRow && x2 < perRow
    requires y1 * perRow + x1 == y2 * perRow + x2
    ensures x1 == x2 && y1 == y2
  {
    if y1 < y2 {
      RowsOrdered(y1, y2, perRow);
      assert false;
    } else if y2 < y1 {
      RowsOrdered(y2, y1, perRow);
      assert false;
    }
  }

  /** Distinct cubes get distinct cells. */
  lemma GridStepsInjective(i: nat, j: nat, perRow: nat)
    requires perRow > 0 && i != j
    ensures GridSteps(i, perRow) != GridSteps(j, perRow)
  {
  }

  /** No extra cube takes the main cube's cell (0, 0). */
  lemma NoExtraCubeAtOrigin(i: nat, perRow: nat)
    requires perRow > 0
    ensures GridSteps(i, perRow) != Steps(0, 0)
  {
  }

  /**
   * All 99 extra cubes of the page have a column in 0..9 and a row in
   * 0..9 (at most 99 / 10).
   */
  lemma ExtraCubesInTenRows(i: nat)
    requires i < MORE_CUBE_COUNT
    ensures MORE_CUBE_COUNT_PER_ROW == 10
    ensures GridSteps(i, MORE_CUBE_COUNT_PER_ROW).x < 10
    ensures GridSteps(i, MORE_CUBE_COUNT_PER_ROW).y <= MORE_CUBE_COUNT / 10
  {
    PerRowIsTen();
  }

  /** A cell number below `perRow * perRow` lies in one of the first `perRow` rows. */
  lemma RowInsideSquare(perRow: nat, x: nat, y: nat)
    requires y * perRow + x < perRow * perRow
    ensures y < perRow
  {
    if y >= perRow {
      MulMonotone(perRow, y, perRow);
      assert false;
    }
  }

  /**
   * For any positive cube count `n`, rows of `CeilSqrt(n)` keep every cube inside a
   * square of `CeilSqrt(n)` rows exactly when the `n` extra cells and the main
   * cube's cell fit, that is when `n + 1 <= CeilSqrt(n)^2`.
   */
  lemma GridFitsSquare(n: nat)
    requires n > 0
    ensures var p := CeilSqrt(n);
      (forall i :: 0 <= i < n ==> GridSteps(i, p).y < p) <==> n + 1 <= p * p
  {
    var p := CeilSqrt(n);
    if n + 1 <= p * p {
      forall i | 0 <= i < n
        ensures GridSteps(i, p).y < p
      {
        var s := GridSteps(i, p);
        RowInsideSquare(p, s.x, s.y);
      }
    } else {
      var s := GridSteps(n - 1, p);
      CellUnique(p, s.x, s.y, 0, p);
    }
  }
}
