/** Grid geometry shared by every build of the simulation: the bounds of the
    square grid, the sliding disaster zone, the clamped random walk driven by
    `rand() % 3 - 1`, and the single-cell pursuit step of the rescuers. */
module Grid {

  /** Side of the square grid (GRID_SIZE); cells are (x, y) with 0 <= x, y < GridSize. */
  const GridSize: int := 80

  predicate InGrid(x: int, y: int)
  {
    0 <= x < GridSize && 0 <= y < GridSize
  }

  function Abs(v: int): int { if v < 0 then -v else v }

  function Min(a: int, b: int): int { if a < b then a else b }

  function Max(a: int, b: int): int { if a < b then b else a }

  /** Chebyshev (king-move) distance between two cells. */
  function Chebyshev(x1: int, y1: int, x2: int, y2: int): int
  {
    Max(Abs(x1 - x2), Abs(y1 - y2))
  }

  /** The disaster zone of time step `step`: the cells of the middle row whose
      column lies in the window [step % GridSize, step % GridSize + 3]. Only the
      start of the window is taken modulo the grid size; the window itself is
      not wrapped past the right edge. */
  predicate IsDisasterCell(x: int, y: int, step: nat)
  {
    y == GridSize / 2 && x >= step % GridSize && x <= step % GridSize + 3
  }

  /** The geometry of the zone: it lies on the middle row, its start repeats
      every GridSize steps, and no column left of the start is ever in it, so
      near the right edge it shrinks instead of wrapping round to column 0. */
  lemma DisasterZoneGeometry(x: int, y: int, step: nat)
    ensures IsDisasterCell(x, y, step) ==> y == 40 && step % GridSize <= x <= step % GridSize + 3
    ensures IsDisasterCell(x, y, step) <==> IsDisasterCell(x, y, step + GridSize)
    ensures x < step % GridSize ==> !IsDisasterCell(x, y, step)
    ensures step % GridSize == GridSize - 2 && InGrid(x, y) ==>
              (IsDisasterCell(x, y, step) <==> y == 40 && GridSize - 2 <= x)
  {
  }

  /** From one step to the next the zone slides right by exactly one column,
      as long as its start does not wrap back to column 0. */
  lemma DisasterZoneSlides(x: int, y: int, step: nat)
    requires step % GridSize < GridSize - 1
    ensures IsDisasterCell(x, y, step) <==> IsDisasterCell(x + 1, y, step + 1)
  {
  }

  /** The offset `rand() % 3 - 1` obtained from one non-negative `rand()` result. */
  function Delta(r: nat): (d: int)
    ensures -1 <= d <= 1
    ensures d == -1 <==> r % 3 == 0
  {
    r % 3 - 1
  }

  /** `std::max(0, std::min(GRID_SIZE - 1, v))`. */
  function Clamp(v: int): (c: int)
    ensures 0 <= c < GridSize
    ensures 0 <= v < GridSize ==> c == v
    ensures v < 0 ==> c == 0
    ensures GridSize <= v ==> c == GridSize - 1
  {
    Max(0, Min(GridSize - 1, v))
  }

  /** One coordinate of a clamped random step: always lands in the grid, and
      from an in-grid coordinate it moves by at most one cell. */
  function RandomWalk(v: int, r: nat): (w: int)
    ensures 0 <= w < GridSize
    ensures 0 <= v < GridSize ==> Abs(w - v) <= 1
  {
    Clamp(v + Delta(r))
  }

  /** One coordinate of `move_toward`: one cell closer to the target, or held
      when already there. */
  function StepToward(v: int, t: int): (w: int)
    ensures Abs(w - v) <= 1
    ensures v == t ==> w == v
    ensures Abs(w - t) == if v == t then 0 else Abs(v - t) - 1
    ensures Min(v, t) <= w <= Max(v, t)
  {
    if v < t then v + 1 else if v > t then v - 1 else v
  }

  /** A pursuit step on both axes shortens a nonzero Chebyshev distance to the
      target by exactly one and never leaves the grid when both ends are in it. */
  lemma PursuitShortensDistance(x: int, y: int, tx: int, ty: int)
    ensures Chebyshev(StepToward(x, tx), StepToward(y, ty), tx, ty)
            == if Chebyshev(x, y, tx, ty) == 0 then 0 else Chebyshev(x, y, tx, ty) - 1
    ensures InGrid(x, y) && InGrid(tx, ty) ==> InGrid(StepToward(x, tx), StepToward(y, ty))
  {
  }
}
