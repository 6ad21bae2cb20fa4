# Aim trainer engine, modelled in Dafny

This project models the game engine of `aim_trainer.py`, the `AimTrainer` class of a
pygame aim trainer. A session shows N = 3 round targets on a grid. A click that
covers a target clears it, scores it and spawns a replacement. A click that covers
nothing (or lands on the side panel) costs 100 points and breaks the streak. The
session ends a fixed time after the first click.

The model covers:

- **Geometry** (`geometry.dfy`): the grid derived from the play-area size and the
  mode's ratios, the integer cell centres, and each mode's spawn region.
  - `mod_1` spawns in the whole interior.
  - `mod_2` and `mod_3` spawn in the clamped 3x3 block around the middle cell.
- **Spawn filters** (`placement.dfy`):
  - the strict pass and the relaxed pass, as loops proved equal to a row-major scan
    function `Candidates`;
  - the pool `generate_balls` draws from (`SpawnPool`);
  - what the passes offer: exactly the admissible region centres, in row-major order,
    never a cell that holds a live target.
- **Combo scoring** (`scoring.dfy`): threshold, bonus and the value of a hit.
- **Session** (`session.dfy`): the class `AimTrainer`, with the source's fields and
  methods:
  - `generate_balls`, `initialize_game`, `handle_mouse_motion`, `handle_click`,
    `check_game_end` and `calculate_score_display`;
  - the session invariant `Valid`;
  - the click as a transition `ClickStep` between two `Play` values (the class's
    changing fields, as one value);
  - the lemmas about `ClickStep`.
- **History** (`history.dfy`):
  - the average click interval;
  - the record `save_result` builds;
  - the "keep the last 100" truncation.

How the model represents the source:

- **Distances.** Every distance test compares squared integers, so there is no
  square root. `Limit(den, num)` means `den * d^2 < num`. For example,
  `d < 1.5 * grid_size` becomes `4 d^2 < 9 g^2`, and the hit test
  `d <= radius` becomes `d^2 <= r^2`.
- **Float ratios.** These are exact fractions: 0.08 is 8/100, and 1.75, 1.5, 1.3 are
  7/4, 3/2, 13/10. `int()` of the non-negative products is integer division.
- **Bonus.** `int(2 * (1.0 + k * 0.1))` is `TruncDiv(10 + k, 5)`.
- **The clock.** `pygame.time.get_ticks()` is the parameter `now`.
- **The record's timestamp.** It is a parameter.
- **`random.shuffle`.** It is any permutation of the candidate list.

Points of the code that are easy to misread:

- **A hit is scored after its target is removed** (aim_trainer.py:500 before
  aim_trainer.py:513, and 454 before 467 in mod_3):
  - on a full board 2 targets are then live, so the threshold is 5;
  - the first bonus of a streak comes with the sixth hit (combo 5);
  - with 3 live it would come with combo 4;
  - `Scoring.ShippedExamples` states both sets of figures.
- **`max_combo` in the saved record holds the streak at the end of the session**
  (`combo_count`, aim_trainer.py:566), not the longest streak reached.
- **`initialize_game` does not reset `final_score` or the viewport offset**
  (aim_trainer.py:311-333). `Fresh` keeps both.

## Model

| member | source | states |
|---|---|---|
| Geometry.Derive | aim_trainer.py:133-154 | the derived grid has a positive target radius, a target fits in its cell, rows and columns are whole cells of the area, and in mod_1 a cell is at least three radii wide |
| Geometry.ShippedGrids | aim_trainer.py:120-154 | on the 1030x800 play area (1280 minus the 250-wide panel), mod_1 gets 90-pixel cells, radius 30 and 8x11 cells; mod_2 and mod_3 get 136-pixel cells, radius 52 and 5x7 cells |
| Geometry.RegionOf | aim_trainer.py:239-262 | the spawn region never includes the outer ring of cells; mod_1 uses the whole interior; the other modes use at most 3x3 cells and contain the middle cell once the grid has 3 rows and 3 columns |
| Geometry.CentreBlockCells | aim_trainer.py:249-262 | outside mod_1 a cell is in the region iff it is off the outer ring and at most one row from rows//2 and one column from cols//2 |
| Geometry.BallInsidePlayArea | aim_trainer.py:267-271 | a target centred on a region cell lies wholly inside the play area, so it never touches an edge or the panel |
| Geometry.CellCentre | aim_trainer.py:270-271 | the centre of cell (row, col) lies inside that cell: x in [col*g, (col+1)*g) and y in [row*g, (row+1)*g) |
| Geometry.DistinctCellsDisjoint | aim_trainer.py:270-271 | targets on two different cell centres never overlap |
| Geometry.CellCentreInjective | aim_trainer.py:270-271 | two cells with the same centre are the same cell |
| Util.Tail | aim_trainer.py:244 | Python's `s[-k:]` for k >= 1: the last min(len, k) elements of `s`, in order |
| Util.PermutationKeepsNoDups | aim_trainer.py:347 | shuffling a duplicate-free list leaves it duplicate-free |
| Placement.Window | aim_trainer.py:244-264 | the cleared positions the strict pass checks are the newest n-1 in mod_1 (none when n <= 1) and the newest n+1 in the other modes |
| Placement.StrictBallLimit | aim_trainer.py:277-292 | the strict live-target limit has a positive denominator and num/den equal to (1.5 g)^2 in mod_1 and (2 * 1.2 r)^2 in the other modes, so `den * d^2 < num` holds exactly when the distance is below the source's bound |
| Placement.ClearedLimit | aim_trainer.py:294-304 | the cleared-position limit has a positive denominator and num/den equal to (0.8 g)^2 |
| Placement.RelaxedBallLimit | aim_trainer.py:379-394 | the relaxed live-target limit has a positive denominator and num/den equal to (2 * 0.8 r)^2 in mod_1 and (2 r)^2 in the other modes |
| Placement.ScanRow | aim_trainer.py:269-307 | one row's scan offers at most one position per column, and every position it offers passes both tests of the rule |
| Placement.ScanRows | aim_trainer.py:268-307 | every position the scan of the first rows offers passes both tests of the rule |
| Placement.Candidates | aim_trainer.py:267-308 | every position a pass returns passes both tests of its rule |
| Placement.SpawnPool | aim_trainer.py:337-345 | the pool is empty only when both passes return nothing; while the strict pass offers anything, every pooled position passes the strict tests, and otherwise each passes the relaxed tests |
| Placement.AnyWithin | aim_trainer.py:296-302 | the `too_close` loop with `break` reports true exactly when some listed position is within the limit |
| Placement.RowScan | aim_trainer.py:268-307 | the column loop of one row returns exactly that row's admissible centres, left to right |
| Placement.StrictPass | aim_trainer.py:235-309 | get_available_positions returns exactly `Candidates` under the strict rule: limits 1.5 cells (mod_1) or 2.4 radii, plus 0.8 cells from the checked cleared positions |
| Placement.RelaxedPass | aim_trainer.py:354-400 | get_relaxed_available_positions returns exactly `Candidates` under the relaxed rule: limits 1.6 radii (mod_1) or 2 radii, and no cleared positions |
| Placement.CandidatesMembers | aim_trainer.py:267-307 | a position is offered iff it is the centre of a region cell and passes both distance tests |
| Placement.CandidatesRowMajor | aim_trainer.py:267-268 | the offered positions come in strict row-major order, so none is offered twice |
| Placement.RelaxedAdmitsExactlyFreeCells | aim_trainer.py:378-396 | with every live target on a cell centre, the relaxed test rejects a cell centre iff a live target sits on it |
| Placement.StrictImpliesRelaxed | aim_trainer.py:275-307 | every position the strict pass offers, the relaxed pass offers too |
| Placement.PoolAvoidsLiveTargets | aim_trainer.py:337-345 | the pool generate_balls draws from never holds the centre of a live target, and holds only region centres |
| Placement.EmptyBoardOffersRegion | aim_trainer.py:267-307 | on an empty board with nothing cleared, the strict pass offers every cell of the region |
| Placement.EmptyBoardPool | aim_trainer.py:337-345 | on an empty board with nothing cleared and a non-empty region, the pool is the whole region |
| Placement.FullRowsCount | aim_trainer.py:267-268 | scanning r full rows with no live targets and nothing cleared yields r times the row width cells |
| Scoring.Bonus | aim_trainer.py:211-222 | the bonus is 2 * (1 + (n - live)/10) truncated toward zero: 5b <= 10 + n - live < 5b + 5 when that is non-negative, and the mirror bounds when it is negative |
| Scoring.BallValue | aim_trainer.py:224-233 | below the threshold a hit is worth exactly C, and at exactly the threshold C plus one bonus |
| Scoring.Threshold | aim_trainer.py:201-209 | the combo threshold is at least 2 |
| Scoring.ThresholdNonIncreasing | aim_trainer.py:201-209 | more live targets never raise the threshold; above the floor of 2 it falls by one per extra target |
| Scoring.BonusNonIncreasing | aim_trainer.py:211-222 | more live targets never raise the bonus |
| Scoring.BonusWhileLiveAtMostN | aim_trainer.py:211-222 | while at most n targets are live the bonus is at least 2, and exactly 2 when n = 3 |
| Scoring.BallValueAtLeastBase | aim_trainer.py:224-233 | while at most n targets are live a hit is worth at least the base value C |
| Scoring.BallValueMonotoneInCombo | aim_trainer.py:224-233 | for a fixed live count, a longer streak is never worth less |
| Scoring.BallValueNextTier | aim_trainer.py:224-233 | each further `threshold` hits of a streak add exactly one bonus |
| Scoring.ShippedExamples | aim_trainer.py:201-233 | with n = 3 and C = 100, after the removal (2 live) the threshold is 5 and combos 0 and 4 are worth 100 and combo 5 is worth 102; with 3 live, combo 4 is worth 102 |
| History.MeanInterval | aim_trainer.py:532-546 | 0 with fewer than two hits; otherwise (count - 1) times the value is the sum of the gaps between consecutive hits, so it is their mean |
| History.ElapsedSeconds | aim_trainer.py:565 | 0 when the start time is unset or 0 (Python's truth test); otherwise 1000 times the value is the milliseconds since the start |
| History.GapsTelescope | aim_trainer.py:538-541 | the gaps between consecutive hit times sum to the last time minus the first |
| History.AverageClickInterval | aim_trainer.py:532-546 | the loop's average gap is (last - first) / (count - 1), and 0 with fewer than two hits |
| History.Accuracy | aim_trainer.py:564 | accuracy times total clicks gives the hits; it lies in [0, 1] when hits <= total; it is 0 without clicks |
| History.MakeRecord | aim_trainer.py:554-570 | a record exists iff the timer started and a click was made; it carries the score, counters and streak, and an accuracy whose product with the total is the hits |
| History.KeepRecent | aim_trainer.py:580-583 | appending and keeping the last 100 leaves min(len + 1, 100) records: the newest ones in order, the new record last |
| Session.Fresh | aim_trainer.py:311-324 | initialize_game's state: no targets, no cleared positions, no hit times, zero score, counters and streak, both clocks unset, running; the final score and the offset are kept |
| Session.Counted | aim_trainer.py:414-431 | a click adds one to the click count; the first click sets both clocks to its time and later clicks keep them; nothing else changes |
| Session.Missed | aim_trainer.py:527-530 | a miss lowers the score by exactly 100 and zeroes the streak; nothing else changes |
| Session.Cleared | aim_trainer.py:500-523 | clearing target k leaves one target fewer, one more hit and a streak one longer |
| Session.HitStep | aim_trainer.py:498-526 | a hit removes one target and draws at most one, adds a hit, extends the streak and leaves the click count as it was |
| Session.ClickStep | aim_trainer.py:409-530 | every click adds one to the click count and the clock is running afterwards; a hit is counted exactly when there is a target; a miss leaves the targets and hits alone; the end state does not change |
| Session.Remember | aim_trainer.py:456-459 | the cleared ring gains the new position last, drops only the oldest, and never grows beyond 20 |
| Session.FirstCovering | aim_trainer.py:490-496 | the hit target is the first target in list order whose disc covers the point; none when no disc covers it |
| Session.FindCovering | aim_trainer.py:437-448 | the hit-test loop with `break` returns `FirstCovering` |
| Session.SameFirstCovering | aim_trainer.py:490-496 | any index that meets FirstCovering's contract is FirstCovering's answer |
| Session.ViewportMatchesCursor | aim_trainer.py:439-446 | with offset = centre - cursor, testing the centre against the moved targets picks the same target as testing the cursor against the targets in place |
| Session.WellPlacedDisjoint | aim_trainer.py:267-307 | well-placed live targets never overlap |
| Session.RemovalKeepsWellPlaced | aim_trainer.py:500 | removing a target keeps the others well placed |
| Session.SpawnKeepsWellPlaced | aim_trainer.py:347-352 | appending distinct pool cells keeps the targets well placed, even though the new ones are not re-checked against each other |
| Session.ClickScore | aim_trainer.py:409-530 | a click is counted; a miss costs exactly 100 and zeroes the streak; a hit with at most n live gains at least C, adds a hit and a time, and extends the streak; the end state and the offset do not change |
| Session.ShippedPoolNeverEmpty | aim_trainer.py:335-400 | on the shipped play area, with fewer than n live targets, the pool is never empty, because a free region cell always passes the relaxed test |
| Session.HitKeepsNTargets | aim_trainer.py:498-526 | on the shipped play area a hit on a full board draws exactly one replacement, so n targets stay live |
| Session.ShippedPoolHoldsN | aim_trainer.py:311-333 | on the shipped play area the empty-board pool holds at least n cells (54 in mod_1, 9 in the others) |
| Session.AimTrainer.Valid | aim_trainer.py:160-180 | the session invariant: at most n targets, no more hit times and no longer a streak than clicks, a clock that has started once a click was made, and a finished session whose final score is its score |
| Session.AimTrainer.constructor | aim_trainer.py:102-195 | a new session has the grid derived for its mode, is valid and running, has zero score, counters and streak, no cleared positions, no hit times, both clocks unset, no final score, offset (0, 0), and n targets on distinct cells |
| Session.AimTrainer.ClearTarget | aim_trainer.py:500-523 | the first half of a hit: the state becomes `Cleared` of the old one, and the invariant holds |
| Session.AimTrainer.GenerateBalls | aim_trainer.py:335-352 | appends min(count, pool size) distinct pool cells after the existing targets, changes nothing else, and keeps the invariant |
| Session.AimTrainer.ResetSession | aim_trainer.py:313-324 | the state becomes `Fresh` of the old one, and the invariant holds |
| Session.AimTrainer.InitializeGame | aim_trainer.py:311-333 | the state is `Fresh` of the old one plus exactly n distinct new targets from the empty-board pool |
| Session.AimTrainer.HandleMouseMotion | aim_trainer.py:402-407 | in mod_3, while the session runs, the offset becomes centre - cursor; otherwise it does not change |
| Session.AimTrainer.ClickTarget | aim_trainer.py:424-496 | a click on the panel (x at or beyond the play-area width) hits no target, and any target a click hits is an index of a live target |
| Session.AimTrainer.ViewportClickHitsCursorTarget | aim_trainer.py:402-448 | in mod_3, after the cursor moved to `cursor`, a click anywhere in the play area hits the target under the cursor |
| Session.AimTrainer.HandleClick | aim_trainer.py:409-530 | after the end a click changes nothing; otherwise the new state is a ClickStep from the old one on ClickTarget's target, and the invariant holds |
| Session.AimTrainer.Click | aim_trainer.py:414-530 | a click of a running session is a ClickStep on ClickTarget's target |
| Session.AimTrainer.FindTarget | aim_trainer.py:433-496 | the mode's hit test returns ClickTarget |
| Session.AimTrainer.MissClick | aim_trainer.py:424-429 | a click on the panel or on no target is a ClickStep with no target |
| Session.AimTrainer.HitClick | aim_trainer.py:498-526 | a click on target k is a ClickStep with target k |
| Session.AimTrainer.CountClick | aim_trainer.py:418-431 | the click is counted, and the first click starts both clocks |
| Session.AimTrainer.Miss | aim_trainer.py:527-530 | the score drops by 100 and the streak becomes 0 |
| Session.AimTrainer.Hit | aim_trainer.py:500-526 | the state is a HitStep from the old one: removal, ring, hit time, value after the removal with the old streak, streak + 1, one replacement from the pool |
| Session.AimTrainer.Elapsed | aim_trainer.py:618-623 | the time since the first click; before any click it is 0 while the start time is unset or 0 |
| Session.AimTrainer.CheckGameEnd | aim_trainer.py:613-637 | the session ends iff it ran and the time since the first click reached the duration; the score then freezes as final_score and the record is built; otherwise nothing changes |
| Session.AimTrainer.SaveResult | aim_trainer.py:554-570 | the record save_result appends is `MakeRecord` of the current counters |
| Session.AimTrainer.ScoreDisplay | aim_trainer.py:548-552 | the displayed score is the final score after the end, and the running score before |
| Session.EndIsFinal | aim_trainer.py:613-637 | once a session has ended, a later click and a later clock check leave the score equal to the final score, the second check ends nothing, and the display shows that score |

## Left out

- pygame and OpenGL setup, all drawing (`Ball.draw`, `AimTrainer.draw`,
  `draw_info_panel`) and the `ModeSelection` screen: rendering and library calls.
- The `main` event loop and its restart guard: event dispatch. `InitializeGame`
  requires the constants the constructor set up (`Shipped`).
- `ClickEffect` and the effect appends in `handle_click`: wall-clock fades and fonts.
- `pygame.mouse.set_visible`: cursor display only.
- JSON reading and writing in `save_result` and `load_history`, and `get_statistics`:
  file I/O and string formatting. `KeepRecent` models the `[-100:]` truncation on a
  sequence.
- `round(..., 3)` in the average interval, `/ 1000.0` for the elapsed seconds, and
  every other float rounding: these are exact reals here.
- `background_movable`: it is never set to False, so `HandleMouseMotion` does not
  test it.
- The offset and the centre exist in every mode. They stay (0, 0) and the middle of
  the play area, and only mod_3 uses them.
- Session.AimTrainer.Valid: keeps `|balls| <= n`, not `== n`. That n targets stay
  live is proved separately: by `InitializeGame`, and by `HitKeepsNTargets` for the
  shipped play area only.
- Session.ShippedPoolNeverEmpty: proved for the shipped 1030x800 play area and n = 3,
  not for every screen size.
- Session.HitKeepsNTargets: proved for the shipped 1030x800 play area and n = 3, not
  for every screen size.
- Session.AimTrainer.SaveResult: the elapsed time uses the same `now` as
  check_game_end, while save_result reads the clock again (aim_trainer.py:565), so a
  tick between the two reads is not modelled.
- Session.AimTrainer.GenerateBalls: the shuffle is any permutation, so the contract
  fixes which cells can be drawn but not which ones are.
