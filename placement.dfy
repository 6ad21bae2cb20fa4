/** Where targets may spawn (aim_trainer.py, get_available_positions,
    get_relaxed_available_positions, generate_balls): a row-major scan of the
    mode's region that keeps the cell centres far enough from the live targets
    and, in the strict pass, from the most recently cleared positions. */
module Placement {
  import opened Util
  import opened Geometry

  /** The test "distance < sqrt(num / den)", decided on integers as
      den * d^2 < num, so that no square root is taken. */
  datatype Limit = Limit(den: nat, num: int)

  function Sq(x: real): real { x * x }

  predicate Within(p: Pos, q: Pos, lim: Limit)
  {
    lim.den * Dist2(p, q) < lim.num
  }

  /** Some position of `qs` is within `lim` of `p` (the `too_close` flag). */
  predicate NearAny(p: Pos, qs: seq<Pos>, lim: Limit)
  {
    exists i :: 0 <= i < |qs| && Within(p, qs[i], lim)
  }

  function Centres(balls: seq<Ball>): (cs: seq<Pos>)
    ensures |cs| == |balls| && forall i :: 0 <= i < |balls| ==> cs[i] == balls[i].center
  {
    seq(|balls|, i requires 0 <= i < |balls| => balls[i].center)
  }

  /** Strict pass, live targets: d < 1.5 * grid_size in Mod1 (4 d^2 < 9 g^2),
      d < ball_radius * 2 * 1.2 otherwise (25 d^2 < 144 r^2). */
  function StrictBallLimit(mode: Mode, g: Grid): (lim: Limit)
    ensures lim.den > 0
    ensures mode == Mod1 ==> lim.num as real == lim.den as real * Sq(1.5 * g.gridSize as real)
    ensures mode != Mod1 ==> lim.num as real == lim.den as real * Sq(g.ballRadius as real * 2.0 * 1.2)
  {
    if mode == Mod1 then Limit(4, 9 * g.gridSize * g.gridSize)
    else Limit(25, 144 * g.ballRadius * g.ballRadius)
  }

  /** Strict pass, cleared positions: d < 0.8 * grid_size (25 d^2 < 16 g^2). */
  function ClearedLimit(g: Grid): (lim: Limit)
    ensures lim.den > 0
    ensures lim.num as real == lim.den as real * Sq(0.8 * g.gridSize as real)
  {
    Limit(25, 16 * g.gridSize * g.gridSize)
  }

  /** Relaxed pass, live targets: d < ball_radius * 2 * 0.8 in Mod1
      (25 d^2 < 64 r^2), d < ball_radius * 2 otherwise (d^2 < 4 r^2). */
  function RelaxedBallLimit(mode: Mode, g: Grid): (lim: Limit)
    ensures lim.den > 0
    ensures mode == Mod1 ==> lim.num as real == lim.den as real * Sq(g.ballRadius as real * 2.0 * 0.8)
    ensures mode != Mod1 ==> lim.num as real == lim.den as real * Sq(g.ballRadius as real * 2.0)
  {
    if mode == Mod1 then Limit(25, 64 * g.ballRadius * g.ballRadius)
    else Limit(1, 4 * g.ballRadius * g.ballRadius)
  }

  /** The cleared positions the strict pass keeps away from: the last n-1
      (none when n <= 1) in Mod1, the last n+1 otherwise. */
  function Window(mode: Mode, n: nat, cleared: seq<Pos>): (w: seq<Pos>)
    ensures SuffixOf(w, cleared)
    ensures mode == Mod1 ==> |w| == if n > 1 then Min(|cleared|, n - 1) else 0
    ensures mode != Mod1 ==> |w| == Min(|cleared|, n + 1)
  {
    if mode == Mod1 then (if n > 1 then Tail(cleared, n - 1) else [])
    else Tail(cleared, n + 1)
  }

  /** The tests of one pass: the limit against live targets, and the
      positions to keep clear with their limit. */
  datatype Rule = Rule(ballLimit: Limit, checked: seq<Pos>, checkedLimit: Limit)

  function StrictRule(mode: Mode, g: Grid, n: nat, cleared: seq<Pos>): Rule
  {
    Rule(StrictBallLimit(mode, g), Window(mode, n, cleared), ClearedLimit(g))
  }

  /** The relaxed pass does not look at cleared positions at all. */
  function RelaxedRule(mode: Mode, g: Grid): Rule
  {
    Rule(RelaxedBallLimit(mode, g), [], ClearedLimit(g))
  }

  predicate Admissible(balls: seq<Ball>, rule: Rule, p: Pos)
  {
    !NearAny(p, Centres(balls), rule.ballLimit) && !NearAny(p, rule.checked, rule.checkedLimit)
  }

  /** Admissible centres of columns c0 .. c-1 of `row`, left to right. */
  function ScanRow(g: Grid, balls: seq<Ball>, rule: Rule, row: int, c0: int, c: int): (cs: seq<Pos>)
    ensures |cs| <= Max(0, c - c0)
    ensures forall i :: 0 <= i < |cs| ==> Admissible(balls, rule, cs[i])
    decreases c - c0
  {
    if c <= c0 then []
    else
      var p := CellCentre(g, row, c - 1);
      ScanRow(g, balls, rule, row, c0, c - 1) + (if Admissible(balls, rule, p) then [p] else [])
  }

  /** Admissible centres of rows reg.r0 .. r-1 of the region, row by row. */
  function ScanRows(g: Grid, balls: seq<Ball>, rule: Rule, reg: Region, r: int): (cs: seq<Pos>)
    ensures forall i :: 0 <= i < |cs| ==> Admissible(balls, rule, cs[i])
    decreases r - reg.r0
  {
    if r <= reg.r0 then []
    else ScanRows(g, balls, rule, reg, r - 1) + ScanRow(g, balls, rule, r - 1, reg.c0, reg.c1)
  }

  /** The candidate list one pass returns. */
  function Candidates(mode: Mode, g: Grid, balls: seq<Ball>, rule: Rule): (cs: seq<Pos>)
    ensures forall i :: 0 <= i < |cs| ==> Admissible(balls, rule, cs[i])
  {
    var reg := RegionOf(mode, g);
    ScanRows(g, balls, rule, reg, reg.r1)
  }

  /** The list `generate_balls` draws from: the strict candidates, or the
      relaxed ones when there are no strict candidates. */
  function SpawnPool(mode: Mode, g: Grid, n: nat, balls: seq<Ball>, cleared: seq<Pos>): (pool: seq<Pos>)
    ensures |pool| > 0 <==>
      |Candidates(mode, g, balls, StrictRule(mode, g, n, cleared))| > 0 || |Candidates(mode, g, balls, RelaxedRule(mode, g))| > 0
    ensures forall i :: 0 <= i < |pool| ==>
      Admissible(balls, StrictRule(mode, g, n, cleared), pool[i]) || Admissible(balls, RelaxedRule(mode, g), pool[i])
    ensures |Candidates(mode, g, balls, StrictRule(mode, g, n, cleared))| > 0 ==>
      forall i :: 0 <= i < |pool| ==> Admissible(balls, StrictRule(mode, g, n, cleared), pool[i])
  {
    var strict := Candidates(mode, g, balls, StrictRule(mode, g, n, cleared));
    if |strict| > 0 then strict else Candidates(mode, g, balls, RelaxedRule(mode, g))
  }

  /** True row-major order: strictly increasing by row, then by column. */
  predicate Precedes(p: Pos, q: Pos)
  {
    p.y < q.y || (p.y == q.y && p.x < q.x)
  }

  predicate RowMajor(s: seq<Pos>)
  {
    forall i, j :: 0 <= i < j < |s| ==> Precedes(s[i], s[j])
  }

  // ---------------------------------------------------------------------
  // What a pass returns

  lemma {:induction false} ScanRowMembers(g: Grid, balls: seq<Ball>, rule: Rule, row: int, c0: int, c: int, p: Pos)
    ensures p in ScanRow(g, balls, rule, row, c0, c) <==>
      exists col :: c0 <= col < c && p == CellCentre(g, row, col) && Admissible(balls, rule, p)
    decreases c - c0
  {
    if c > c0 {
      ScanRowMembers(g, balls, rule, row, c0, c - 1, p);
    }
  }

  lemma {:induction false} ScanRowsMembers(g: Grid, balls: seq<Ball>, rule: Rule, reg: Region, r: int, p: Pos)
    ensures p in ScanRows(g, balls, rule, reg, r) <==>
      exists row, col :: reg.r0 <= row < r && reg.c0 <= col < reg.c1 &&
        p == CellCentre(g, row, col) && Admissible(balls, rule, p)
    decreases r - reg.r0
  {
    if r > reg.r0 {
      ScanRowsMembers(g, balls, rule, reg, r - 1, p);
      ScanRowMembers(g, balls, rule, r - 1, reg.c0, reg.c1, p);
    }
  }

  /** A pass returns exactly the centres of its region's cells that pass its tests... */
  lemma CandidatesMembers(mode: Mode, g: Grid, balls: seq<Ball>, rule: Rule, p: Pos)
    ensures p in Candidates(mode, g, balls, rule) <==>
      Admissible(balls, rule, p) && IsRegionCentre(g, RegionOf(mode, g), p)
  {
    var reg := RegionOf(mode, g);
    ScanRowsMembers(g, balls, rule, reg, reg.r1, p);
  }

  /** ... each once, in row-major order. */
  lemma CandidatesRowMajor(mode: Mode, g: Grid, balls: seq<Ball>, rule: Rule)
    requires 0 < g.gridSize
    ensures RowMajor(Candidates(mode, g, balls, rule))
    ensures NoDups(Candidates(mode, g, balls, rule))
  {
    var reg := RegionOf(mode, g);
    ScanRowsOrdered(g, balls, rule, reg, reg.r1);
  }

  lemma {:induction false} ScanRowOrdered(g: Grid, balls: seq<Ball>, rule: Rule, row: int, c0: int, c: int)
    requires 0 < g.gridSize
    ensures var s := ScanRow(g, balls, rule, row, c0, c);
      RowMajor(s) &&
      forall q :: q in s ==> q.y == CellCentre(g, row, c).y && q.x < CellCentre(g, row, c).x
    decreases c - c0
  {
    if c > c0 {
      var gs := g.gridSize;
      ScanRowOrdered(g, balls, rule, row, c0, c - 1);
      var p := CellCentre(g, row, c - 1);
      assert p.x < CellCentre(g, row, c).x by {
        assert c * gs == (c - 1) * gs + gs;
      }
    }
  }

  lemma {:induction false} ScanRowsOrdered(g: Grid, balls: seq<Ball>, rule: Rule, reg: Region, r: int)
    requires 0 < g.gridSize
    ensures var s := ScanRows(g, balls, rule, reg, r);
      RowMajor(s) && forall q :: q in s ==> q.y < CellCentre(g, r, 0).y
    decreases r - reg.r0
  {
    if r > reg.r0 {
      var gs := g.gridSize;
      ScanRowsOrdered(g, balls, rule, reg, r - 1);
      ScanRowOrdered(g, balls, rule, r - 1, reg.c0, reg.c1);
      assert CellCentre(g, r - 1, 0).y < CellCentre(g, r, 0).y by {
        assert r * gs == (r - 1) * gs + gs;
      }
      var a, b := ScanRows(g, balls, rule, reg, r - 1), ScanRow(g, balls, rule, r - 1, reg.c0, reg.c1);
      forall q | q in b ensures q.y == CellCentre(g, r - 1, 0).y {
        assert q.y == CellCentre(g, r - 1, reg.c1).y;
      }
      ConcatRowMajor(a, b);
    }
  }

  lemma ConcatRowMajor(a: seq<Pos>, b: seq<Pos>)
    requires RowMajor(a) && RowMajor(b)
    requires forall p, q :: p in a && q in b ==> Precedes(p, q)
    ensures RowMajor(a + b)
  {
    forall i, j | 0 <= i < j < |a + b| ensures Precedes((a + b)[i], (a + b)[j]) {
      if j < |a| {
      } else if i >= |a| {
        assert (a + b)[i] == b[i - |a|] && (a + b)[j] == b[j - |a|];
      } else {
        assert (a + b)[i] in a && (a + b)[j] in b;
      }
    }
  }

  // ---------------------------------------------------------------------
  // How the two passes relate on the grid

  /** Every position of `balls` is a cell centre (with any row and column). */
  ghost predicate OnGrid(g: Grid, balls: seq<Ball>)
  {
    forall i :: 0 <= i < |balls| ==> exists row, col :: balls[i].center == CellCentre(g, row, col)
  }

  /** On a valid grid the relaxed tests only exclude a cell already holding a
      live target: any other cell centre is at least one cell (two radii) away. */
  lemma RelaxedAdmitsExactlyFreeCells(mode: Mode, g: Grid, balls: seq<Ball>, row: int, col: int)
    requires g.Valid() && OnGrid(g, balls)
    ensures Admissible(balls, RelaxedRule(mode, g), CellCentre(g, row, col)) <==>
      CellCentre(g, row, col) !in Centres(balls)
  {
    var p := CellCentre(g, row, col);
    var lim := RelaxedBallLimit(mode, g);
    var r := g.ballRadius;
    var cs := Centres(balls);
    assert lim == (if mode == Mod1 then Limit(25, 64 * r * r) else Limit(1, 4 * r * r));
    assert lim.num > 0 by {
      assert r * r > 0;
    }
    if p in cs {
      var i :| 0 <= i < |cs| && cs[i] == p;
      assert Within(p, cs[i], lim);
    } else {
      forall i | 0 <= i < |cs| ensures !Within(p, cs[i], lim) {
        var row', col' :| balls[i].center == CellCentre(g, row', col');
        OtherCellOutsideRelaxed(mode, g, row, col, row', col');
      }
    }
  }

  /** A different cell's centre is never within the relaxed limit. */
  lemma OtherCellOutsideRelaxed(mode: Mode, g: Grid, row: int, col: int, row': int, col': int)
    requires g.Valid() && CellCentre(g, row, col) != CellCentre(g, row', col')
    ensures !Within(CellCentre(g, row, col), CellCentre(g, row', col'), RelaxedBallLimit(mode, g))
  {
    var r := g.ballRadius;
    DistinctCellsDisjoint(g, row, col, row', col');
    assert RelaxedBallLimit(mode, g) == (if mode == Mod1 then Limit(25, 64 * r * r) else Limit(1, 4 * r * r));
  }

  /** The relaxed pass loosens the live-target test of the strict pass: a
      position the strict pass accepts, the relaxed pass accepts too. */
  lemma StrictImpliesRelaxed(mode: Mode, g: Grid, n: nat, balls: seq<Ball>, cleared: seq<Pos>, p: Pos)
    requires g.Valid()
    requires p in Candidates(mode, g, balls, StrictRule(mode, g, n, cleared))
    ensures p in Candidates(mode, g, balls, RelaxedRule(mode, g))
  {
    CandidatesMembers(mode, g, balls, StrictRule(mode, g, n, cleared), p);
    CandidatesMembers(mode, g, balls, RelaxedRule(mode, g), p);
    var cs := Centres(balls);
    forall i | 0 <= i < |cs| ensures !Within(p, cs[i], RelaxedBallLimit(mode, g)) {
      assert !Within(p, cs[i], StrictBallLimit(mode, g));
      LimitsNested(mode, g, Dist2(p, cs[i]));
    }
  }

  lemma LimitsNested(mode: Mode, g: Grid, d2: int)
    requires g.Valid() && 0 <= d2
    ensures StrictBallLimit(mode, g).den * d2 >= StrictBallLimit(mode, g).num ==>
      RelaxedBallLimit(mode, g).den * d2 >= RelaxedBallLimit(mode, g).num
  {
    var r, s := g.ballRadius, g.gridSize;
    SquareMonotone(2 * r, s);
  }

  /** No pass ever offers a cell that holds a live target, and every position
      it offers is a centre of the mode's region. */
  lemma PoolAvoidsLiveTargets(mode: Mode, g: Grid, n: nat, balls: seq<Ball>, cleared: seq<Pos>, p: Pos)
    requires g.Valid()
    requires p in SpawnPool(mode, g, n, balls, cleared)
    ensures p !in Centres(balls)
    ensures IsRegionCentre(g, RegionOf(mode, g), p)
  {
    var r, s := g.ballRadius, g.gridSize;
    assert r * r > 0 && s * s > 0;
    var strict := StrictRule(mode, g, n, cleared);
    if |Candidates(mode, g, balls, strict)| > 0 {
      CandidatesMembers(mode, g, balls, strict, p);
      AdmissibleAvoidsLive(balls, strict, p);
    } else {
      CandidatesMembers(mode, g, balls, RelaxedRule(mode, g), p);
      AdmissibleAvoidsLive(balls, RelaxedRule(mode, g), p);
    }
  }

  lemma AdmissibleAvoidsLive(balls: seq<Ball>, rule: Rule, p: Pos)
    requires 0 < rule.ballLimit.num && Admissible(balls, rule, p)
    ensures p !in Centres(balls)
  {
    var cs := Centres(balls);
    forall i | 0 <= i < |cs| ensures cs[i] != p {
      assert !Within(p, cs[i], rule.ballLimit);
    }
  }

  /** On a board with no live target and no cleared position every cell of
      the region is offered. */
  lemma {:induction false} EmptyBoardOffersRegion(mode: Mode, g: Grid, n: nat)
    ensures var reg := RegionOf(mode, g);
      |Candidates(mode, g, [], StrictRule(mode, g, n, []))| ==
        Max(0, reg.r1 - reg.r0) * Max(0, reg.c1 - reg.c0)
  {
    var reg := RegionOf(mode, g);
    var rule := StrictRule(mode, g, n, []);
    FullRowsCount(g, rule, reg, reg.r1);
  }

  /** On an empty board with no cleared positions the pool is the whole
      spawn region, whenever the region is not empty. */
  lemma EmptyBoardPool(mode: Mode, g: Grid, n: nat, area: int)
    requires var reg := RegionOf(mode, g);
      area == Max(0, reg.r1 - reg.r0) * Max(0, reg.c1 - reg.c0)
    requires area > 0
    ensures |SpawnPool(mode, g, n, [], [])| == area
  {
    EmptyBoardOffersRegion(mode, g, n);
  }

  lemma {:induction false} FullRowCount(g: Grid, rule: Rule, row: int, c0: int, c: int)
    requires rule.checked == []
    ensures |ScanRow(g, [], rule, row, c0, c)| == Max(0, c - c0)
    decreases c - c0
  {
    if c > c0 {
      FullRowCount(g, rule, row, c0, c - 1);
      assert Admissible([], rule, CellCentre(g, row, c - 1));
    }
  }

  lemma {:induction false} FullRowsCount(g: Grid, rule: Rule, reg: Region, r: int)
    requires rule.checked == []
    ensures |ScanRows(g, [], rule, reg, r)| == Max(0, r - reg.r0) * Max(0, reg.c1 - reg.c0)
    decreases r - reg.r0
  {
    if r > reg.r0 {
      FullRowsCount(g, rule, reg, r - 1);
      FullRowCount(g, rule, r - 1, reg.c0, reg.c1);
      RowsTimesWidth(r - reg.r0, Max(0, reg.c1 - reg.c0));
    }
  }

  lemma RowsTimesWidth(rows: int, w: int)
    ensures rows * w == (rows - 1) * w + w
  {
  }

  // ---------------------------------------------------------------------
  // The two passes as the source runs them

  /** One `too_close` loop: stops at the first position within the limit. */
  method AnyWithin(p: Pos, qs: seq<Pos>, lim: Limit) returns (tooClose: bool)
    ensures tooClose == NearAny(p, qs, lim)
  {
    tooClose := false;
    var i := 0;
    while i < |qs|
      invariant 0 <= i <= |qs|
      invariant forall k :: 0 <= k < i ==> !Within(p, qs[k], lim)
    {
      if Within(p, qs[i], lim) {
        tooClose := true;
        break;
      }
      i := i + 1;
    }
  }

  /** The column loop of both passes over one row: a cell is kept unless a
      live target is too close or, when `checkCleared`, a cleared position is. */
  method RowScan(g: Grid, balls: seq<Ball>, centres: seq<Pos>, rule: Rule, checkCleared: bool,
                 row: int, c0: int, c1: int) returns (found: seq<Pos>)
    requires centres == Centres(balls) && (!checkCleared ==> rule.checked == [])
    ensures found == ScanRow(g, balls, rule, row, c0, Max(c0, c1))
  {
    found := [];
    var col := c0;
    while col < c1
      invariant c0 <= col <= Max(c0, c1)
      invariant found == ScanRow(g, balls, rule, row, c0, col)
    {
      var p := CellCentre(g, row, col);
      var tooClose := AnyWithin(p, centres, rule.ballLimit);
      if !tooClose && checkCleared {
        tooClose := AnyWithin(p, rule.checked, rule.checkedLimit);
      }
      if !tooClose {
        found := found + [p];
      }
      col := col + 1;
    }
  }

  /** get_available_positions. */
  method StrictPass(mode: Mode, g: Grid, n: nat, balls: seq<Ball>, cleared: seq<Pos>) returns (avail: seq<Pos>)
    ensures avail == Candidates(mode, g, balls, StrictRule(mode, g, n, cleared))
  {
    var rule := StrictRule(mode, g, n, cleared);
    var reg := RegionOf(mode, g);
    var centres := Centres(balls);
    avail := [];
    var row := reg.r0;
    while row < reg.r1
      invariant reg.r0 <= row <= Max(reg.r0, reg.r1)
      invariant avail == ScanRows(g, balls, rule, reg, row)
    {
      var found := RowScan(g, balls, centres, rule, true, row, reg.c0, reg.c1);
      avail := avail + found;
      row := row + 1;
    }
  }

  /** get_relaxed_available_positions. */
  method RelaxedPass(mode: Mode, g: Grid, balls: seq<Ball>) returns (avail: seq<Pos>)
    ensures avail == Candidates(mode, g, balls, RelaxedRule(mode, g))
  {
    var rule := RelaxedRule(mode, g);
    var reg := RegionOf(mode, g);
    var centres := Centres(balls);
    avail := [];
    var row := reg.r0;
    while row < reg.r1
      invariant reg.r0 <= row <= Max(reg.r0, reg.r1)
      invariant avail == ScanRows(g, balls, rule, reg, row)
    {
      var found := RowScan(g, balls, centres, rule, false, row, reg.c0, reg.c1);
      avail := avail + found;
      row := row + 1;
    }
  }
}
