/** The play area of the aim trainer: the grid derived from the play-area size
    and the mode's ratios (aim_trainer.py, AimTrainer.__init__), the integer
    cell centres where targets sit, and the spawn region of each mode. */
module Geometry {
  import opened Util

  /** The three rule sets: "mod_1" (whole grid), "mod_2" (centre 3x3 block)
      and "mod_3" (centre block, viewport moves against the cursor). */
  datatype Mode = Mod1 | Mod2 | Mod3

  datatype Pos = Pos(x: int, y: int)

  /** A target: its centre and its radius. */
  datatype Ball = Ball(center: Pos, radius: int)

  /** Squared Euclidean distance; every distance test of the source compares
      it against a squared threshold instead of taking a square root. */
  function Dist2(p: Pos, q: Pos): int
  {
    (p.x - q.x) * (p.x - q.x) + (p.y - q.y) * (p.y - q.y)
  }

  /** Derived play-area geometry: cell size, target radius, rows and columns. */
  datatype Grid = Grid(width: int, height: int, gridSize: int, ballRadius: int, rows: int, cols: int)
  {
    /** A target fits inside its cell, and the grid covers the area by whole cells. */
    predicate Valid()
    {
      0 < ballRadius && 2 * ballRadius <= gridSize && 0 <= width && 0 <= height &&
      rows == height / gridSize && cols == width / gridSize
    }
  }

  /** The area below which the derived target radius is not positive:
      int(75 * 0.08) == 6 is the smallest base size giving a diameter of 2. */
  const MinSide := 75

  /** The grid derived from a play area of `width` x `height`.
      The float ratios 0.08, 1.75, 1.5 and 1.3 are the exact fractions
      8/100, 7/4, 3/2 and 13/10; every quantity is non-negative, so `int()`
      is the floor. */
  function Derive(mode: Mode, width: int, height: int): (g: Grid)
    requires MinSide <= width && MinSide <= height
    ensures g.Valid()
    ensures g.width == width && g.height == height
    ensures mode == Mod1 ==> g.gridSize >= 3 * g.ballRadius
  {
    var base := Min(width, height) * 8 / 100;
    var baseDiameter := (base / 2) * 2 - 4;
    var diameter := if mode == Mod1 then baseDiameter else baseDiameter * 7 / 4;
    var size := if mode == Mod1 then diameter * 3 / 2 else diameter * 13 / 10;
    Grid(width, height, size, diameter / 2, height / size, width / size)
  }

  /** The play area of the shipped window: 1280 x 800 minus the 250-wide panel. */
  const GameWidth := 1280 - 250
  const GameHeight := 800

  lemma ShippedGrids()
    ensures Derive(Mod1, GameWidth, GameHeight) == Grid(1030, 800, 90, 30, 8, 11)
    ensures Derive(Mod2, GameWidth, GameHeight) == Grid(1030, 800, 136, 52, 5, 7)
    ensures Derive(Mod3, GameWidth, GameHeight) == Grid(1030, 800, 136, 52, 5, 7)
  {
    assert Min(1030, 800) * 8 / 100 == 64;
    assert (64 / 2) * 2 - 4 == 60;
    assert 60 * 3 / 2 == 90 && 60 / 2 == 30 && 800 / 90 == 8 && 1030 / 90 == 11;
    assert 60 * 7 / 4 == 105 && 105 * 13 / 10 == 136 && 105 / 2 == 52;
    assert 800 / 136 == 5 && 1030 / 136 == 7;
  }

  /** The grids of the shipped play area as literals, so that the session
      invariant does not carry the divisions of Derive. */
  function ShippedGrid(mode: Mode): (g: Grid)
    ensures g.Valid() && g.width == GameWidth && g.height == GameHeight
  {
    if mode == Mod1 then Grid(1030, 800, 90, 30, 8, 11) else Grid(1030, 800, 136, 52, 5, 7)
  }

  /** Centre of grid cell (row, col): `col*g + g//2`, `row*g + g//2`. */
  function CellCentre(g: Grid, row: int, col: int): (p: Pos)
    ensures g.gridSize > 0 ==> col * g.gridSize <= p.x < (col + 1) * g.gridSize
    ensures g.gridSize > 0 ==> row * g.gridSize <= p.y < (row + 1) * g.gridSize
  {
    Pos(col * g.gridSize + g.gridSize / 2, row * g.gridSize + g.gridSize / 2)
  }

  /** Rows r0 .. r1-1 and columns c0 .. c1-1 (empty when an end is not above its start). */
  datatype Region = Region(r0: int, r1: int, c0: int, c1: int)
  {
    predicate Contains(row: int, col: int)
    {
      r0 <= row < r1 && c0 <= col < c1
    }
  }

  /** The spawn region of a mode: the whole interior for Mod1, the 3x3 block
      around (rows//2, cols//2) clamped to the interior otherwise. */
  function RegionOf(mode: Mode, g: Grid): (reg: Region)
    ensures 1 <= reg.r0 && reg.r1 <= g.rows - 1 && 1 <= reg.c0 && reg.c1 <= g.cols - 1
    ensures mode == Mod1 ==> reg == Region(1, g.rows - 1, 1, g.cols - 1)
    ensures mode != Mod1 ==> reg.r1 - reg.r0 <= 3 && reg.c1 - reg.c0 <= 3
    ensures mode != Mod1 && 3 <= g.rows && 3 <= g.cols ==> reg.Contains(g.rows / 2, g.cols / 2)
  {
    if mode == Mod1 then
      Region(1, g.rows - 1, 1, g.cols - 1)
    else
      var centerRow := g.rows / 2;
      var centerCol := g.cols / 2;
      Region(Max(1, centerRow - 1), Min(g.rows - 1, centerRow + 2),
             Max(1, centerCol - 1), Min(g.cols - 1, centerCol + 2))
  }

  /** Outside mod_1 the region is exactly the cells at most one row and one
      column from (rows//2, cols//2) that are not on the outer ring. */
  lemma CentreBlockCells(mode: Mode, g: Grid, row: int, col: int)
    requires mode != Mod1
    ensures RegionOf(mode, g).Contains(row, col) <==>
      && 1 <= row <= g.rows - 2 && 1 <= col <= g.cols - 2
      && g.rows / 2 - 1 <= row <= g.rows / 2 + 1 && g.cols / 2 - 1 <= col <= g.cols / 2 + 1
  {
  }

  /** `p` is the centre of a cell of `reg`. */
  ghost predicate IsRegionCentre(g: Grid, reg: Region, p: Pos)
  {
    exists row, col :: reg.Contains(row, col) && p == CellCentre(g, row, col)
  }

  /** A target placed at a cell of a spawn region lies wholly inside the play
      area: the outer ring of cells is what keeps it off the edges and the panel. */
  lemma BallInsidePlayArea(mode: Mode, g: Grid, row: int, col: int)
    requires g.Valid()
    requires RegionOf(mode, g).Contains(row, col)
    ensures var c := CellCentre(g, row, col);
      0 <= c.x - g.ballRadius && c.x + g.ballRadius < g.width &&
      0 <= c.y - g.ballRadius && c.y + g.ballRadius < g.height
  {
    CentreInsideSpan(g.gridSize, g.ballRadius, col, g.cols, g.width);
    CentreInsideSpan(g.gridSize, g.ballRadius, row, g.rows, g.height);
  }

  /** One axis of BallInsidePlayArea: cell `k` of `count == extent / s` cells,
      with 1 <= k <= count - 2, holds a disc of radius r <= s/2 inside [0, extent). */
  lemma CentreInsideSpan(s: int, r: int, k: int, count: int, extent: int)
    requires 0 < r && 2 * r <= s && 0 <= extent && count == extent / s
    requires 1 <= k <= count - 2
    ensures 0 <= k * s + s / 2 - r && k * s + s / 2 + r < extent
  {
    assert count * s <= extent by {
      assert extent == (extent / s) * s + extent % s;
    }
    assert s <= k * s by {
      assert (k - 1) * s >= 0;
    }
    assert k * s <= (count - 2) * s by {
      assert (count - 2 - k) * s >= 0;
    }
  }

  /** Centres of two different cells are at least one cell size apart. */
  lemma DistinctCellsApart(g: Grid, r1: int, c1: int, r2: int, c2: int)
    requires 0 < g.gridSize
    requires r1 != r2 || c1 != c2
    ensures Dist2(CellCentre(g, r1, c1), CellCentre(g, r2, c2)) >= g.gridSize * g.gridSize
  {
    var s := g.gridSize;
    var p, q := CellCentre(g, r1, c1), CellCentre(g, r2, c2);
    var dx, dy := p.x - q.x, p.y - q.y;
    assert dx == (c1 - c2) * s by {
      assert (c1 - c2) * s == c1 * s - c2 * s;
    }
    assert dy == (r1 - r2) * s by {
      assert (r1 - r2) * s == r1 * s - r2 * s;
    }
    assert Dist2(p, q) == dx * dx + dy * dy;
    assert dx * dx >= 0 && dy * dy >= 0;
    if r1 != r2 {
      AtLeastOneStep(r1 - r2, s);
    } else {
      AtLeastOneStep(c1 - c2, s);
    }
  }

  lemma AtLeastOneStep(k: int, s: int)
    requires k != 0 && 0 < s
    ensures (k * s) * (k * s) >= s * s
  {
    assert (k * s) * (k * s) == (k * k) * (s * s);
    assert k * k >= 1;
  }

  /** Distinct cell centres carry non-overlapping targets. */
  lemma DistinctCellsDisjoint(g: Grid, r1: int, c1: int, r2: int, c2: int)
    requires g.Valid()
    requires r1 != r2 || c1 != c2
    ensures Dist2(CellCentre(g, r1, c1), CellCentre(g, r2, c2)) >= (2 * g.ballRadius) * (2 * g.ballRadius)
  {
    DistinctCellsApart(g, r1, c1, r2, c2);
    SquareMonotone(2 * g.ballRadius, g.gridSize);
  }

  lemma SquareMonotone(a: int, b: int)
    requires 0 <= a <= b
    ensures a * a <= b * b
  {
    assert a * a <= a * b <= b * b;
  }

  /** Two cell-centre coordinates that agree come from the same cell. */
  lemma CellCentreInjective(g: Grid, r1: int, c1: int, r2: int, c2: int)
    requires 0 < g.gridSize
    requires CellCentre(g, r1, c1) == CellCentre(g, r2, c2)
    ensures r1 == r2 && c1 == c2
  {
    if r1 != r2 || c1 != c2 {
      DistinctCellsApart(g, r1, c1, r2, c2);
    }
  }
}
