/** The session engine of the aim trainer (aim_trainer.py, class AimTrainer):
    the live targets, the score and click counters, the streak, the ring of
    recently cleared positions, the session clock and its one-shot end.
    The clock (`pygame.time.get_ticks`) is the parameter `now`. */
module Session {
  import opened Util
  import opened Geometry
  import opened Scoring
  import opened Placement
  import opened History

  /** Targets on screen at once (`self.n`). */
  const N: nat := 3
  /** Value of a hit without combo bonus (`self.C`). */
  const BaseValue := 100
  /** What a miss costs; the score may go negative. */
  const MissPenalty := 100
  /** How many cleared positions are remembered. */
  const RingCapacity := 20

  /** Append a cleared position, dropping the oldest beyond the capacity. */
  function Remember(ring: seq<Pos>, p: Pos): (r: seq<Pos>)
    ensures |ring| <= RingCapacity ==> |r| == Min(|ring| + 1, RingCapacity)
    ensures SuffixOf(r, ring + [p]) && |r| >= 1 && r[|r| - 1] == p
  {
    var grown := ring + [p];
    if |grown| > RingCapacity then grown[1..] else grown
  }

  function BallsAt(ps: seq<Pos>, r: int): (bs: seq<Ball>)
    ensures |bs| == |ps| && forall i :: 0 <= i < |ps| ==> bs[i] == Ball(ps[i], r)
  {
    seq(|ps|, i requires 0 <= i < |ps| => Ball(ps[i], r))
  }

  /** The targets as the viewport shows them: moved by `offset`, each with radius `r`. */
  function Displaced(balls: seq<Ball>, offset: Pos, r: int): (moved: seq<Ball>)
    ensures |moved| == |balls|
    ensures forall i :: 0 <= i < |balls| ==>
      moved[i] == Ball(Pos(balls[i].center.x + offset.x, balls[i].center.y + offset.y), r)
  {
    seq(|balls|, i requires 0 <= i < |balls| =>
      Ball(Pos(balls[i].center.x + offset.x, balls[i].center.y + offset.y), r))
  }

  /** The hit test: `q` lies on the disc of `b` (distance <= radius). */
  predicate Covers(b: Ball, q: Pos)
  {
    Dist2(q, b.center) <= b.radius * b.radius
  }

  /** Index of the first target in list order that covers `q`, if any. */
  function FirstCovering(balls: seq<Ball>, q: Pos): (k: Option<nat>)
    ensures k.Some? ==> k.value < |balls| && Covers(balls[k.value], q)
    ensures k.Some? ==> forall j :: 0 <= j < k.value ==> !Covers(balls[j], q)
    ensures k.None? ==> forall j :: 0 <= j < |balls| ==> !Covers(balls[j], q)
  {
    if |balls| == 0 then None
    else if Covers(balls[0], q) then Some(0)
    else match FirstCovering(balls[1..], q)
      case None => None
      case Some(i) => Some(i + 1)
  }

  /** The hit-test loop of handle_click: stops at the first covering target. */
  method FindCovering(balls: seq<Ball>, q: Pos) returns (k: Option<nat>)
    ensures k == FirstCovering(balls, q)
  {
    k := None;
    var i := 0;
    while i < |balls|
      invariant 0 <= i <= |balls|
      invariant forall j :: 0 <= j < i ==> !Covers(balls[j], q)
    {
      if Covers(balls[i], q) {
        k := Some(i);
        break;
      }
      i := i + 1;
    }
    SameFirstCovering(balls, q, k);
  }

  /** FirstCovering is the only answer that meets its own contract. */
  lemma SameFirstCovering(balls: seq<Ball>, q: Pos, k: Option<nat>)
    requires k.Some? ==> k.value < |balls| && Covers(balls[k.value], q)
    requires k.Some? ==> forall j :: 0 <= j < k.value ==> !Covers(balls[j], q)
    requires k.None? ==> forall j :: 0 <= j < |balls| ==> !Covers(balls[j], q)
    ensures k == FirstCovering(balls, q)
  {
    var f := FirstCovering(balls, q);
    if k.Some? && f.Some? {
      assert !(k.value < f.value) && !(f.value < k.value);
    }
  }

  /** The viewport mode tests the fixed centre against the targets moved by
      offset = centre - cursor; that picks the same target as testing the
      cursor against the targets where they are. */
  lemma {:induction false} ViewportMatchesCursor(balls: seq<Ball>, centre: Pos, cursor: Pos, r: int)
    requires forall i :: 0 <= i < |balls| ==> balls[i].radius == r
    ensures FirstCovering(Displaced(balls, Pos(centre.x - cursor.x, centre.y - cursor.y), r), centre) ==
            FirstCovering(balls, cursor)
  {
    var moved := Displaced(balls, Pos(centre.x - cursor.x, centre.y - cursor.y), r);
    forall i | 0 <= i < |balls| ensures Covers(moved[i], centre) <==> Covers(balls[i], cursor) {
      var b := balls[i].center;
      assert moved[i].center == Pos(b.x + centre.x - cursor.x, b.y + centre.y - cursor.y);
      assert Dist2(centre, moved[i].center) == Dist2(cursor, b);
    }
    SameFirstCovering(balls, cursor, FirstCovering(moved, centre));
  }

  /** Live targets of `mode` are well placed: each has the grid's radius and
      sits on a cell centre of the mode's region, no two on the same cell. */
  ghost predicate WellPlaced(mode: Mode, g: Grid, balls: seq<Ball>)
  {
    (forall i :: 0 <= i < |balls| ==>
       balls[i].radius == g.ballRadius && IsRegionCentre(g, RegionOf(mode, g), balls[i].center)) &&
    NoDups(Centres(balls))
  }

  /** Well-placed targets never overlap. */
  lemma WellPlacedDisjoint(mode: Mode, g: Grid, balls: seq<Ball>, i: nat, j: nat)
    requires g.Valid() && WellPlaced(mode, g, balls)
    requires i < j < |balls|
    ensures Dist2(balls[i].center, balls[j].center) >= (balls[i].radius + balls[j].radius) * (balls[i].radius + balls[j].radius)
  {
    var reg := RegionOf(mode, g);
    assert IsRegionCentre(g, reg, balls[i].center) && IsRegionCentre(g, reg, balls[j].center);
    var r1, c1 :| reg.Contains(r1, c1) && balls[i].center == CellCentre(g, r1, c1);
    var r2, c2 :| reg.Contains(r2, c2) && balls[j].center == CellCentre(g, r2, c2);
    assert Centres(balls)[i] != Centres(balls)[j];
    DistinctCellsDisjoint(g, r1, c1, r2, c2);
  }

  /** Removing a target keeps the rest well placed. */
  lemma RemovalKeepsWellPlaced(mode: Mode, g: Grid, balls: seq<Ball>, k: nat)
    requires WellPlaced(mode, g, balls) && k < |balls|
    ensures WellPlaced(mode, g, balls[..k] + balls[k + 1..])
  {
    var rest := balls[..k] + balls[k + 1..];
    forall i | 0 <= i < |rest| ensures rest[i] == balls[if i < k then i else i + 1] {
    }
    forall i, j | 0 <= i < j < |rest| ensures Centres(rest)[i] != Centres(rest)[j] {
      var i', j' := (if i < k then i else i + 1), (if j < k then j else j + 1);
      assert Centres(balls)[i'] != Centres(balls)[j'];
    }
  }

  /** Spawning distinct positions drawn from the pool keeps the targets well placed. */
  lemma SpawnKeepsWellPlaced(mode: Mode, g: Grid, n: nat, balls: seq<Ball>, cleared: seq<Pos>, picked: seq<Pos>)
    requires g.Valid() && WellPlaced(mode, g, balls)
    requires NoDups(picked) && forall q :: q in picked ==> q in SpawnPool(mode, g, n, balls, cleared)
    ensures WellPlaced(mode, g, balls + BallsAt(picked, g.ballRadius))
  {
    var all := balls + BallsAt(picked, g.ballRadius);
    var cs := Centres(all);
    forall q | q in picked ensures q !in Centres(balls) && IsRegionCentre(g, RegionOf(mode, g), q) {
      PoolAvoidsLiveTargets(mode, g, n, balls, cleared, q);
    }
    forall i | 0 <= i < |all|
      ensures all[i].radius == g.ballRadius && IsRegionCentre(g, RegionOf(mode, g), all[i].center)
    {
      if i >= |balls| {
        assert all[i].center == picked[i - |balls|];
      }
    }
    forall i, j | 0 <= i < j < |all| ensures cs[i] != cs[j] {
      if j >= |balls| {
        assert cs[j] == picked[j - |balls|];
        if i >= |balls| {
          assert cs[i] == picked[i - |balls|];
        } else {
          assert cs[i] == Centres(balls)[i];
        }
      } else {
        assert cs[i] == Centres(balls)[i] && cs[j] == Centres(balls)[j];
      }
    }
  }

  /** Everything a session changes, as one value: the fields of AimTrainer
      other than its constants. */
  datatype Play = Play(
    balls: seq<Ball>, score: int, totalClicks: nat, hitClicks: nat, comboCount: nat,
    lastBallPositions: seq<Pos>, clickTimes: seq<int>,
    firstClickTime: Option<int>, startTime: Option<int>,
    gameActive: bool, gameEndTime: Option<int>, finalScore: Option<int>, offset: Pos)

  /** The state initialize_game starts from: no targets, counters and
      streak at zero, no remembered cells, no hit times, the clock stopped
      and the session running; the last final score and the viewport
      offset stay as they were. */
  function Fresh(s: Play): (r: Play)
    ensures r.balls == [] && r.lastBallPositions == [] && r.clickTimes == []
    ensures r.score == 0 && r.totalClicks == 0 && r.hitClicks == 0 && r.comboCount == 0
    ensures r.firstClickTime.None? && r.startTime.None? && r.gameActive && r.gameEndTime.None?
    ensures r.finalScore == s.finalScore && r.offset == s.offset
  {
    Play([], 0, 0, 0, 0, [], [], None, None, true, None, s.finalScore, s.offset)
  }

  /** Counting a click: one more click, and the first one starts the clock. */
  function Counted(s: Play, now: int): (r: Play)
    ensures r.totalClicks == s.totalClicks + 1
    ensures r.firstClickTime == (if s.firstClickTime.Some? then s.firstClickTime else Some(now))
    ensures r.startTime == (if s.startTime.Some? then s.startTime else Some(now))
    ensures r.firstClickTime.Some? && r.startTime.Some?
    ensures r.(totalClicks := s.totalClicks, firstClickTime := s.firstClickTime, startTime := s.startTime) == s
  {
    s.(totalClicks := s.totalClicks + 1,
       firstClickTime := if s.firstClickTime.None? then Some(now) else s.firstClickTime,
       startTime := if s.startTime.None? then Some(now) else s.startTime)
  }

  /** A miss: the penalty, and the streak is broken. */
  function Missed(s: Play): (r: Play)
    ensures r.score == s.score - MissPenalty && r.comboCount == 0
    ensures r.(score := s.score, comboCount := s.comboCount) == s
  {
    s.(score := s.score - MissPenalty, comboCount := 0)
  }

  /** `t` is a state a hit on target `k` of `s` at time `now` can lead to,
      with `spawned` the replacement drawn: the target is cleared and its
      cell remembered, the hit is timed and scored at the value for the
      targets left, the streak grows, and at most one cell of the pool
      (exactly one when the pool is not empty) becomes a new target. */
  ghost predicate HitStep(mode: Mode, g: Grid, s: Play, k: nat, now: int, spawned: seq<Pos>, t: Play)
    ensures HitStep(mode, g, s, k, now, spawned, t) ==>
      && t.hitClicks == s.hitClicks + 1 && t.comboCount == s.comboCount + 1 && t.totalClicks == s.totalClicks
  {
    k < |s.balls| &&
    var rest := s.balls[..k] + s.balls[k + 1..];
    var ring := Remember(s.lastBallPositions, s.balls[k].center);
    var pool := SpawnPool(mode, g, N, rest, ring);
    && |spawned| == Min(1, |pool|) && (forall q :: q in spawned ==> q in pool)
    && t == s.(balls := rest + BallsAt(spawned, g.ballRadius), lastBallPositions := ring,
               hitClicks := s.hitClicks + 1, clickTimes := s.clickTimes + [now],
               score := s.score + BallValue(N, BaseValue, |rest|, s.comboCount),
               comboCount := s.comboCount + 1)
  }

  /** Target `k` cleared and scored, before the replacement is drawn. */
  function Cleared(s: Play, k: nat, now: int): (u: Play)
    requires k < |s.balls|
    ensures |u.balls| == |s.balls| - 1 && u.hitClicks == s.hitClicks + 1 && u.comboCount == s.comboCount + 1
  {
    s.(balls := s.balls[..k] + s.balls[k + 1..],
       lastBallPositions := Remember(s.lastBallPositions, s.balls[k].center),
       hitClicks := s.hitClicks + 1, clickTimes := s.clickTimes + [now],
       score := s.score + BallValue(N, BaseValue, |s.balls| - 1, s.comboCount),
       comboCount := s.comboCount + 1)
  }

  /** A hit in two stages: `u` clears and scores target `k`, then `t`
      appends the replacement drawn from the pool of `u`. */
  lemma HitStepIntro(mode: Mode, g: Grid, s: Play, k: nat, now: int, spawned: seq<Pos>, u: Play, t: Play)
    requires k < |s.balls| && u == Cleared(s, k, now)
    requires var pool := SpawnPool(mode, g, N, u.balls, u.lastBallPositions);
      |spawned| == Min(1, |pool|) && (forall q :: q in spawned ==> q in pool)
    requires t == u.(balls := u.balls + BallsAt(spawned, g.ballRadius))
    ensures HitStep(mode, g, s, k, now, spawned, t)
  {
  }

  /** `t` is a state a click of a running session in state `s` can lead to,
      given the target the click hits: every click is counted; with no
      target it is a miss, otherwise a hit. */
  ghost predicate ClickStep(mode: Mode, g: Grid, s: Play, target: Option<nat>, now: int, spawned: seq<Pos>, t: Play)
    ensures ClickStep(mode, g, s, target, now, spawned, t) ==>
      && t.totalClicks == s.totalClicks + 1 && t.firstClickTime.Some?
      && (t.hitClicks == s.hitClicks + 1 <==> target.Some?)
      && (target.None? ==> t.hitClicks == s.hitClicks && t.balls == s.balls)
      && t.gameActive == s.gameActive && t.gameEndTime == s.gameEndTime && t.finalScore == s.finalScore
  {
    match target
    case None => spawned == [] && t == Missed(Counted(s, now))
    case Some(k) => HitStep(mode, g, Counted(s, now), k, now, spawned, t)
  }

  /** A click scores as the source promises: a miss costs exactly
      MissPenalty and breaks the streak; a hit, while no more than N targets
      are live, gains at least BaseValue and extends the streak. Either way
      the click is counted, and the session's end state and the viewport
      are untouched. */
  lemma ClickScore(mode: Mode, g: Grid, s: Play, target: Option<nat>, now: int, spawned: seq<Pos>, t: Play)
    requires |s.balls| <= N
    requires ClickStep(mode, g, s, target, now, spawned, t)
    ensures t.totalClicks == s.totalClicks + 1
    ensures target.None? ==> t.score == s.score - MissPenalty && t.comboCount == 0 && t.hitClicks == s.hitClicks
    ensures target.Some? ==> t.score >= s.score + BaseValue && t.comboCount == s.comboCount + 1
    ensures target.Some? ==> t.hitClicks == s.hitClicks + 1 && t.clickTimes == s.clickTimes + [now]
    ensures t.gameActive == s.gameActive && t.gameEndTime == s.gameEndTime
    ensures t.finalScore == s.finalScore && t.offset == s.offset
  {
    if target.Some? {
      BallValueAtLeastBase(N, BaseValue, |s.balls| - 1, s.comboCount);
    }
  }

  /** With fewer than three live targets some cell of a region at least
      three columns wide is free. */
  lemma FreeCell(g: Grid, reg: Region, balls: seq<Ball>) returns (row: int, col: int)
    requires 0 < g.gridSize && reg.r0 < reg.r1 && reg.c0 + 3 <= reg.c1 && |balls| < 3
    ensures reg.Contains(row, col) && CellCentre(g, row, col) !in Centres(balls)
  {
    var cs := Centres(balls);
    row := reg.r0;
    var p0, p1, p2 := CellCentre(g, row, reg.c0), CellCentre(g, row, reg.c0 + 1), CellCentre(g, row, reg.c0 + 2);
    assert p1.x == p0.x + g.gridSize && p2.x == p1.x + g.gridSize;
    if p0 !in cs {
      col := reg.c0;
    } else if p1 !in cs {
      col := reg.c0 + 1;
    } else {
      col := reg.c0 + 2;
      var i0 :| 0 <= i0 < |cs| && cs[i0] == p0;
      var i1 :| 0 <= i1 < |cs| && cs[i1] == p1;
      if p2 in cs {
        var i2 :| 0 <= i2 < |cs| && cs[i2] == p2;
        assert false;
      }
    }
  }

  /** On the shipped play area the pool is never empty while fewer than N
      targets are live: a free cell of the region always passes the relaxed
      tests. */
  lemma ShippedPoolNeverEmpty(mode: Mode, balls: seq<Ball>, cleared: seq<Pos>)
    requires WellPlaced(mode, ShippedGrid(mode), balls) && |balls| < N
    ensures |SpawnPool(mode, ShippedGrid(mode), N, balls, cleared)| > 0
  {
    var g := ShippedGrid(mode);
    var reg := RegionOf(mode, g);
    if mode == Mod1 {
      assert reg == Region(1, 7, 1, 10);
    } else {
      assert reg == Region(1, 4, 2, 5);
    }
    var row, col := FreeCell(g, reg, balls);
    var p := CellCentre(g, row, col);
    forall i | 0 <= i < |balls| ensures exists r, c :: balls[i].center == CellCentre(g, r, c) {
      assert IsRegionCentre(g, reg, balls[i].center);
    }
    RelaxedAdmitsExactlyFreeCells(mode, g, balls, row, col);
    CandidatesMembers(mode, g, balls, RelaxedRule(mode, g), p);
  }

  /** On the shipped play area a hit on a full board leaves a full board:
      the replacement is always drawn, so N targets stay live. */
  lemma HitKeepsNTargets(mode: Mode, s: Play, k: nat, now: int, spawned: seq<Pos>, t: Play)
    requires WellPlaced(mode, ShippedGrid(mode), s.balls) && |s.balls| == N
    requires ClickStep(mode, ShippedGrid(mode), s, Some(k), now, spawned, t)
    ensures |t.balls| == N && |spawned| == 1
  {
    var c := Counted(s, now);
    var rest := c.balls[..k] + c.balls[k + 1..];
    RemovalKeepsWellPlaced(mode, ShippedGrid(mode), s.balls, k);
    ShippedPoolNeverEmpty(mode, rest, Remember(c.lastBallPositions, c.balls[k].center));
  }

  class AimTrainer {
    const mode: Mode
    const gameDuration: int
    const grid: Grid
    /** The fixed hit point of the viewport mode: the middle of the play area. */
    const centre: Pos

    var balls: seq<Ball>
    var score: int
    var totalClicks: nat
    var hitClicks: nat
    var comboCount: nat
    /** Where targets were cleared by hits, oldest first. */
    var lastBallPositions: seq<Pos>
    /** The time of every hit. */
    var clickTimes: seq<int>
    var firstClickTime: Option<int>
    var startTime: Option<int>
    var gameActive: bool
    var gameEndTime: Option<int>
    var finalScore: Option<int>
    /** offset_x, offset_y of the viewport mode; stays (0, 0) in the other modes. */
    var offset: Pos

    /** The constants the session was built with: the grid derived for the
        mode from the fixed screen and the middle of the play area. */
    predicate Shipped()
    {
      grid == ShippedGrid(mode) && centre == Pos(GameWidth / 2, GameHeight / 2)
    }

    /** The session invariant: a valid grid, well-placed targets and never
        more than N of them, counters that agree with each other, and a
        session that has ended exactly when it has an end time and a final score. */
    ghost predicate Valid()
      reads this
      ensures Valid() ==> |balls| <= N && |clickTimes| <= totalClicks && comboCount <= totalClicks
      ensures Valid() ==> (totalClicks > 0 ==> startTime.Some?) && (!gameActive ==> finalScore == Some(score))
    {
      grid.Valid() && WellPlaced(mode, grid, balls) &&
      |lastBallPositions| <= RingCapacity &&
      comboCount <= hitClicks <= totalClicks && |clickTimes| == hitClicks &&
      firstClickTime == startTime && (firstClickTime.None? ==> totalClicks == 0) &&
      (gameActive <==> gameEndTime.None?) &&
      (!gameActive ==> finalScore == Some(score)) &&
      |balls| <= N
    }

    constructor (mode: Mode, gameDuration: int)
      ensures Valid() && Shipped()
      ensures this.mode == mode && this.gameDuration == gameDuration && grid == Derive(mode, GameWidth, GameHeight)
      ensures Current() == Play(balls, 0, 0, 0, 0, [], [], None, None, true, None, None, Pos(0, 0))
      ensures |balls| == N && NoDups(Centres(balls))
    {
      this.mode := mode;
      this.gameDuration := gameDuration;
      grid := Derive(mode, GameWidth, GameHeight);
      ShippedGrids();
      centre := Pos(GameWidth / 2, GameHeight / 2);
      balls := [];
      score, totalClicks, hitClicks, comboCount := 0, 0, 0, 0;
      lastBallPositions, clickTimes := [], [];
      firstClickTime, startTime := None, None;
      gameActive, gameEndTime, finalScore := true, None, None;
      offset := Pos(0, 0);
      new;
      var spawned := InitializeGame();
    }

    /** generate_balls: up to `count` new targets at distinct positions of
      the spawn pool, in the order the shuffle left them. */
    method GenerateBalls(count: nat) returns (picked: seq<Pos>)
      requires Valid() && |balls| + count <= N
      modifies this`balls
      ensures Valid()
      ensures lastBallPositions == old(lastBallPositions) && clickTimes == old(clickTimes)
      ensures score == old(score) && totalClicks == old(totalClicks) && hitClicks == old(hitClicks)
      ensures comboCount == old(comboCount) && firstClickTime == old(firstClickTime) && startTime == old(startTime)
      ensures gameActive == old(gameActive) && gameEndTime == old(gameEndTime)
      ensures finalScore == old(finalScore) && offset == old(offset)
      ensures var pool := SpawnPool(mode, grid, N, old(balls), lastBallPositions);
        && |picked| == Min(count, |pool|)
        && NoDups(picked) && (forall q :: q in picked ==> q in pool)
        && balls == old(balls) + BallsAt(picked, grid.ballRadius)
    {
      var available := StrictPass(mode, grid, N, balls, lastBallPositions);
      if |available| == 0 {
        available := RelaxedPass(mode, grid, balls);
      }
      if |available| == 0 {
        return [];
      }
      ghost var rule := if |Candidates(mode, grid, balls, StrictRule(mode, grid, N, lastBallPositions))| > 0
        then StrictRule(mode, grid, N, lastBallPositions) else RelaxedRule(mode, grid);
      CandidatesRowMajor(mode, grid, balls, rule);
      var shuffled: seq<Pos> :| multiset(shuffled) == multiset(available);
      PermutationKeepsNoDups(shuffled, available);
      assert |shuffled| == |multiset(shuffled)| == |available|;
      picked := shuffled[..Min(count, |available|)];
      forall q | q in picked ensures q in available {
        assert q in multiset(shuffled);
      }
      SpawnKeepsWellPlaced(mode, grid, N, balls, lastBallPositions, picked);
      balls := balls + BallsAt(picked, grid.ballRadius);
    }

    /** initialize_game: a fresh session with N targets on an empty board.
        The final score of an earlier session and the viewport offset are kept. */
    method InitializeGame() returns (spawned: seq<Pos>)
      requires Valid() && Shipped()
      modifies this
      ensures Valid()
      ensures Current() == Fresh(old(Current())).(balls := BallsAt(spawned, grid.ballRadius))
      ensures |spawned| == N && NoDups(spawned)
      ensures forall q :: q in spawned ==> q in SpawnPool(mode, grid, N, [], [])
    {
      ResetSession();
      ShippedPoolHoldsN(mode, grid, balls, lastBallPositions);
      spawned := GenerateBalls(N);
    }

    /** The resets of initialize_game before the targets are drawn. */
    method ResetSession()
      requires grid.Valid()
      modifies this
      ensures Valid()
      ensures Current() == Fresh(old(Current()))
    {
      ClearPlay();
      RestartClock();
    }

    /** No targets, and the score, the counters and the streak at zero. */
    method ClearPlay()
      modifies this`balls, this`score, this`totalClicks, this`hitClicks, this`comboCount
      ensures balls == [] && score == 0 && totalClicks == 0 && hitClicks == 0 && comboCount == 0
    {
      balls := [];
      score := 0;
      totalClicks := 0;
      hitClicks := 0;
      comboCount := 0;
    }

    /** Nothing remembered or timed, the clock stopped and the session running. */
    method RestartClock()
      modifies this`lastBallPositions, this`clickTimes, this`firstClickTime, this`startTime
      modifies this`gameActive, this`gameEndTime
      ensures lastBallPositions == [] && clickTimes == [] && firstClickTime == None && startTime == None
      ensures gameActive && gameEndTime == None
    {
      lastBallPositions := [];
      clickTimes := [];
      firstClickTime := None;
      startTime := None;
      gameActive := true;
      gameEndTime := None;
    }

    /** handle_mouse_motion: in the viewport mode, while the session runs,
        the field moves opposite to the cursor. */
    method HandleMouseMotion(p: Pos)
      requires Valid()
      modifies this`offset
      ensures Valid()
      ensures offset == if mode == Mod3 && gameActive then Pos(centre.x - p.x, centre.y - p.y) else old(offset)
    {
      if mode == Mod3 && gameActive {
        offset := Pos(centre.x - p.x, centre.y - p.y);
      }
    }

    /** The target a click at `p` hits: none on the side panel; in the
        viewport mode the first moved target covering the centre, wherever
        the click is; otherwise the first target covering `p`. */
    function ClickTarget(p: Pos): (k: Option<nat>)
      reads this`balls, this`offset
      ensures k.Some? ==> k.value < |balls|
      ensures p.x >= grid.width ==> k.None?
    {
      if p.x >= grid.width then None
      else if mode == Mod3 then FirstCovering(Displaced(balls, offset, grid.ballRadius), centre)
      else FirstCovering(balls, p)
    }

    /** After the cursor moved to `cursor`, a viewport-mode click anywhere in
        the play area hits what the cursor points at. */
    lemma ViewportClickHitsCursorTarget(cursor: Pos, p: Pos)
      requires Valid() && mode == Mod3 && offset == Pos(centre.x - cursor.x, centre.y - cursor.y)
      requires p.x < grid.width
      ensures ClickTarget(p) == FirstCovering(balls, cursor)
    {
      ViewportMatchesCursor(balls, centre, cursor, grid.ballRadius);
    }

    /** The whole changing state as one value. */
    function Current(): Play
      reads this
    {
      Play(balls, score, totalClicks, hitClicks, comboCount, lastBallPositions, clickTimes,
           firstClickTime, startTime, gameActive, gameEndTime, finalScore, offset)
    }

    /** handle_click at time `now`: nothing happens once the session has
        ended; otherwise the click is a ClickStep from the state before,
        on the target ClickTarget picks. */
    method HandleClick(p: Pos, now: int) returns (spawned: seq<Pos>)
      requires Valid()
      modifies this
      ensures Valid()
      ensures !old(gameActive) ==> unchanged(this) && spawned == []
      ensures old(gameActive) ==>
        ClickStep(mode, grid, old(Current()), old(ClickTarget(p)), now, spawned, Current())
    {
      spawned := [];
      if gameActive {
        spawned := Click(p, now);
      }
    }

    /** A click while the session runs. */
    method Click(p: Pos, now: int) returns (spawned: seq<Pos>)
      requires Valid() && gameActive
      modifies this
      ensures Valid()
      ensures ClickStep(mode, grid, old(Current()), old(ClickTarget(p)), now, spawned, Current())
    {
      var hit := None;
      if p.x < grid.width {
        hit := FindTarget(p);
      }
      if hit.Some? {
        spawned := HitClick(hit.value, now);
      } else {
        spawned := MissClick(now);
      }
    }

    /** The hit test of a click inside the play area. */
    method FindTarget(p: Pos) returns (hit: Option<nat>)
      requires p.x < grid.width
      ensures hit == ClickTarget(p)
    {
      if mode == Mod3 {
        hit := FindCovering(Displaced(balls, offset, grid.ballRadius), centre);
      } else {
        hit := FindCovering(balls, p);
      }
    }

    /** A counted click that hits no target. */
    method MissClick(now: int) returns (spawned: seq<Pos>)
      requires Valid() && gameActive
      modifies this
      ensures Valid()
      ensures ClickStep(mode, grid, old(Current()), None, now, spawned, Current())
    {
      spawned := [];
      CountClick(now);
      Miss();
    }

    /** A counted click that hits target `k`. */
    method HitClick(k: nat, now: int) returns (spawned: seq<Pos>)
      requires Valid() && gameActive && k < |balls|
      modifies this
      ensures Valid()
      ensures ClickStep(mode, grid, old(Current()), Some(k), now, spawned, Current())
    {
      CountClick(now);
      spawned := Hit(k, now);
    }

    /** Every click of a running session is counted, and the first one
        starts the clock. */
    method CountClick(now: int)
      requires Valid()
      modifies this`firstClickTime, this`startTime, this`totalClicks
      ensures Valid()
      ensures Current() == Counted(old(Current()), now)
    {
      if firstClickTime.None? {
        firstClickTime := Some(now);
      }
      if startTime.None? {
        startTime := Some(now);
      }
      totalClicks := totalClicks + 1;
    }

    /** A miss costs MissPenalty and breaks the streak. */
    method Miss()
      requires Valid() && gameActive
      modifies this`score, this`comboCount
      ensures Valid()
      ensures Current() == Missed(old(Current()))
    {
      score := score - MissPenalty;
      comboCount := 0;
    }

    /** A hit on target `k` at time `now`, once the click has been counted. */
    method Hit(k: nat, now: int) returns (spawned: seq<Pos>)
      requires Valid() && gameActive && k < |balls| && hitClicks < totalClicks
      modifies this`balls, this`lastBallPositions, this`hitClicks, this`clickTimes, this`score, this`comboCount
      ensures Valid()
      ensures HitStep(mode, grid, old(Current()), k, now, spawned, Current())
    {
      ghost var s0 := Current();
      ClearTarget(k, now);
      ghost var s1 := Current();
      spawned := GenerateBalls(1);
      HitStepIntro(mode, grid, s0, k, now, spawned, s1, Current());
    }

    /** The first half of a hit: target `k` is removed and its cell
        remembered, and the hit is timed and scored. */
    method ClearTarget(k: nat, now: int)
      requires Valid() && gameActive && k < |balls| && hitClicks < totalClicks
      modifies this`balls, this`lastBallPositions, this`hitClicks, this`clickTimes, this`score, this`comboCount
      ensures Valid() && gameActive
      ensures Current() == Cleared(old(Current()), k, now)
    {
      ghost var s0 := Current();
      RemovalKeepsWellPlaced(mode, grid, balls, k);
      RemoveTarget(k);
      var value := BallValue(N, BaseValue, |balls|, comboCount);
      ScoreHit(now, value);
      assert Current() == Cleared(s0, k, now);
    }

    /** Target `k` leaves the board and its cell joins the cleared ring. */
    method RemoveTarget(k: nat)
      requires Valid() && k < |balls|
      modifies this`balls, this`lastBallPositions
      ensures balls == old(balls[..k] + balls[k + 1..])
      ensures lastBallPositions == Remember(old(lastBallPositions), old(balls[k].center))
    {
      lastBallPositions := Remember(lastBallPositions, balls[k].center);
      balls := balls[..k] + balls[k + 1..];
    }

    /** The hit is timed, scored at `value` and extends the streak. */
    method ScoreHit(now: int, value: int)
      modifies this`hitClicks, this`clickTimes, this`score, this`comboCount
      ensures hitClicks == old(hitClicks) + 1 && clickTimes == old(clickTimes) + [now]
      ensures score == old(score) + value && comboCount == old(comboCount) + 1
    {
      hitClicks := hitClicks + 1;
      clickTimes := clickTimes + [now];
      score := score + value;
      comboCount := comboCount + 1;
    }

    /** Time since the first click; before any click, `start_time or now`
        makes it 0. */
    function Elapsed(now: int): (e: int)
      reads this
      ensures firstClickTime.Some? ==> e == now - firstClickTime.value
      ensures firstClickTime.None? && (startTime.None? || startTime.value == 0) ==> e == 0
    {
      if firstClickTime.Some? then now - firstClickTime.value
      else now - (if startTime.Some? && startTime.value != 0 then startTime.value else now)
    }

    /** check_game_end at time `now`: ends a running session once its
        duration has elapsed, freezing the score, and returns the record
        save_result would append (none without a click). */
    method CheckGameEnd(now: int, timestamp: string) returns (ended: bool, saved: Option<Record>)
      requires Valid()
      modifies this`gameActive, this`gameEndTime, this`finalScore
      ensures Valid()
      ensures ended == (old(gameActive) && old(Elapsed(now)) >= gameDuration)
      ensures ended ==>
        && !gameActive && gameEndTime == Some(now) && finalScore == Some(score)
        && saved == MakeRecord(timestamp, score, totalClicks, hitClicks, comboCount, N,
                               MeanInterval(clickTimes), mode, startTime, now)
      ensures !ended ==>
        && gameActive == old(gameActive) && gameEndTime == old(gameEndTime)
        && finalScore == old(finalScore) && saved == None
    {
      saved := None;
      if !gameActive {
        return false, None;
      }
      var timeElapsed := Elapsed(now);
      if timeElapsed >= gameDuration {
        gameActive := false;
        gameEndTime := Some(now);
        finalScore := Some(score);
        saved := SaveResult(now, timestamp);
        return true, saved;
      }
      return false, None;
    }

    /** The record part of save_result. */
    method SaveResult(now: int, timestamp: string) returns (record: Option<Record>)
      ensures record == MakeRecord(timestamp, score, totalClicks, hitClicks, comboCount, N,
                                   MeanInterval(clickTimes), mode, startTime, now)
    {
      if startTime.None? || totalClicks == 0 {
        return None;
      }
      var avg := AverageClickInterval(clickTimes);
      record := MakeRecord(timestamp, score, totalClicks, hitClicks, comboCount, N, avg, mode, startTime, now);
    }

    /** calculate_score_display: the frozen final score once the session has
        ended, the running score before. */
    function ScoreDisplay(): (s: int)
      reads this
      requires Valid()
      ensures !gameActive ==> s == finalScore.value
      ensures s == score
    {
      if !gameActive && finalScore.Some? then finalScore.value else score
    }
  }

  /** On the shipped play area the empty-board pool of every mode holds at
      least N cells (54 in Mod1, 9 in the centre modes). */
  lemma ShippedPoolHoldsN(mode: Mode, g: Grid, balls: seq<Ball>, cleared: seq<Pos>)
    requires g == ShippedGrid(mode) && balls == [] && cleared == []
    ensures |SpawnPool(mode, g, N, balls, cleared)| >= N
  {
    if mode == Mod1 {
      assert RegionOf(mode, g) == Region(1, 7, 1, 10);
      EmptyBoardPool(mode, g, N, 54);
    } else {
      assert RegionOf(mode, g) == Region(1, 4, 2, 5);
      EmptyBoardPool(mode, g, N, 9);
    }
  }

  /** A session ends once: after the end the clock check reports nothing
      more, clicks change nothing, and the display shows the final score. */
  method EndIsFinal(t: AimTrainer, now: int, later: int, p: Pos, timestamp: string)
    returns (ended: bool, endedAgain: bool, frozen: int)
    requires t.Valid()
    modifies t
    ensures t.Valid()
    ensures ended ==> !endedAgain && !t.gameActive
    ensures ended ==> t.score == frozen && t.finalScore == Some(frozen) && t.ScoreDisplay() == frozen
  {
    var record;
    ended, record := t.CheckGameEnd(now, timestamp);
    endedAgain := false;
    frozen := t.score;
    if ended {
      var spawned := t.HandleClick(p, later);
      endedAgain, record := t.CheckGameEnd(later, timestamp);
    }
  }
}
