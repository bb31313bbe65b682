# PType simulation core in Dafny

A model of the simulation core of PType, a vertically scrolling arcade game
written in Python with pygame, with proofs about it. The model covers:

- **Animations** (`anim.py`): a shared tick clock and four variants built on
  it. The cyclic animation wraps around. The one-shot animation finishes. The
  tilt animation leans left or right and settles back to its middle frame.
  The tilt-linked animation copies another animation's frame.
- **The ground** (`platesman.py`):
  - plates decoded from their four corner samples into Up/Right/Bottom/Left
    edge codes;
  - the Left × Bottom match matrix, in which full plates get eight extra
    entries;
  - the 11 × 8 grid, generated bottom row first so that touching edges agree;
  - scrolling of that grid every 64 ticks.
- **Constructs** (`constrman.py`): buildings standing on full plates. The
  model covers their life and hit box, their hit and explosion animations,
  and scrolling with eviction. That scrolling deletes elements while it
  iterates over the list.
- **The background** (`backtiles.py`): a star field generated by priority
  placement. It is double-buffered as a bank and a display grid, and driven
  by two nested counters.
- **The ship** (`ship.py`): acceleration under a bitmask control, the two
  tilt-linked weapons, and the shots they add.
- **Geometry** (`rutils.py`): the rectangle and parallelogram point tests.
- **Shots** (`ptype.py`, `shot_list_tick`): how each frame advances and
  removes projectiles.

Randomness is never drawn inside the model. Each `random.randint(lo, hi)` is a
natural number supplied by the caller and folded into the range
(`Util.RandInt`), and every value in the range is reachable
(`Util.RandIntReaches`). So every property holds for every outcome of the
random generator. Images are named by their index in the resource list, so an
image grid holds indexes.

Python's "delete the element you are looking at while iterating" loops
(`ConstrManager.scroll`, `shot_list_tick`) are modelled literally by
`ListScan.ScanFrom`. They are then proved equal to a pass over the original
list (`ListScan.Reference`) in which the element right after a deleted one is
neither tested nor changed.

Files: `util.dfy`, `listscan.dfy`, `anim.dfy`, `geometry.dfy`, `ptype.dfy`
(module `Shots`), `ship.dfy`, `constructs.dfy`, `plates.dfy`, `backtiles.dfy`.

## Model

| member | source | states |
|---|---|---|
| Anim.Tick | ptype_src/anim.py:38-46 | the counter stays in [0, ticks_frame]; a new frame is due exactly when the counter was at ticks_frame, and the counter then restarts at 0 |
| Anim.ClockRunClosedForm | ptype_src/anim.py:38-46 | after n ticks the counter is (t + n) mod (T + 1), and exactly (t + n) div (T + 1) frame boundaries were reported |
| Anim.BoundaryPeriod | ptype_src/anim.py:38-46 | from a fresh counter, the k-th tick reports a boundary iff k is a multiple of ticks_frame + 1 |
| Anim.NewAnim | ptype_src/anim.py:22-32 | a new animation starts on frame 0 with a fresh counter, and its resource is frame 0's |
| Anim.CycTick | ptype_src/anim.py:58-64 | on a boundary the frame advances by one modulo the list length, and otherwise it stays; the resource is always the current frame's |
| Anim.CycRunClosedForm | ptype_src/anim.py:58-64 | after n ticks the frame index is (start + boundaries seen) mod the list length |
| Anim.CycPeriod | ptype_src/anim.py:58-64 | a fresh cyclic animation is back on frame 0 with a fresh counter after exactly len·(ticks_frame+1) ticks, and at no earlier tick |
| Anim.NewOnce | ptype_src/anim.py:70-75 | a new one-shot animation is unfinished and starts like any animation |
| Anim.OnceTick | ptype_src/anim.py:77-85 | a finished animation never changes; otherwise the frame advances on a boundary, and the animation finishes exactly when the index passes the last frame, keeping the last frame's resource |
| Anim.OnceRunPrefix | ptype_src/anim.py:77-85 | up to its end, a fresh one-shot animation's frame index is the number of boundaries so far |
| Anim.OnceRunFinished | ptype_src/anim.py:78 | once finished, any number of further ticks leaves the animation unchanged |
| Anim.OnceLifetime | ptype_src/anim.py:77-85 | finish becomes true on exactly the len·(ticks_frame+1)-th tick; from then on the frame index is len (one past the end) and the resource is the last frame's |
| Anim.OnceRunSplit | ptype_src/anim.py:77-85 | ticking n then k times is ticking n + k times |
| Anim.NewTilt | ptype_src/anim.py:91-101 | a tilt animation starts on its middle frame len // 2, with no lean |
| Anim.TiltTick | ptype_src/anim.py:103-120 | on a boundary a lean moves the frame by the direction, clamped to the list; no lean moves it one step toward the middle without overshooting; between boundaries the frame is kept |
| Anim.TiltRunClosedForm | ptype_src/anim.py:103-120 | with a direction of -1, 0 or +1, the frame after n ticks is a saturating walk over the boundaries seen |
| Anim.TiltSettles | ptype_src/anim.py:103-120 | after at least len boundaries the frame is pinned at the end the lean points to, or back in the middle when there is no lean |
| Anim.NewTiltLink | ptype_src/anim.py:127-133 | the link starts on the tilt's frame index but keeps its own frame 0 resource until it first ticks |
| Anim.LinkTick | ptype_src/anim.py:135-137 | after a tick the link's frame index is the tilt's, and its resource is its own list's entry for that frame |
| Anim.LinkFollows | ptype_src/anim.py:133-137 | a link whose list is at least as long as its tilt's always ticks in range and mirrors the tilt's frame |
| Geometry.InsideRect | ptype_src/rutils.py:51-59 | true iff x0 ≤ px ≤ x1 and y0 ≤ py ≤ y1, with all bounds inclusive |
| Geometry.RectCornersInside | ptype_src/rutils.py:56-57 | all four corners of a well-ordered rectangle are inside it |
| Geometry.RectInvertedIsEmpty | ptype_src/rutils.py:56-59 | if x0 > x1 or y0 > y1, no point is inside |
| Geometry.InsideParallelogram | ptype_src/rutils.py:25-49 | false for fewer than four points, and false when the determinant of the edges at vertex 1 is zero |
| Geometry.ParallelogramIgnoresLastVertex | ptype_src/rutils.py:37-42 | the verdict depends only on vertices 0, 1 and 2 |
| Geometry.ParallelogramContainsCorners | ptype_src/rutils.py:43-49 | a non-degenerate parallelogram contains its three given vertices and the fourth corner they determine |
| ListScan.ScanFrom | ptype_src/ptype.py:148-154 | the delete-while-iterating loop never grows the list and never changes the elements before the current index |
| ListScan.ScanIsReference | ptype_src/ptype.py:148-154 | deleting while iterating leaves the visited prefix alone and treats the rest as a pass over the original elements that skips each successor of a deleted element |
| ListScan.ReferenceLength | ptype_src/ptype.py:148-154 | the list shrinks by exactly the number of deleted elements |
| ListScan.SuccessorOfDeletedSurvives | ptype_src/constrman.py:165-167 | when the first element is deleted, the second survives untouched and untested |
| Shots.InField | ptype_src/ptype.py:149-150 | the field test of `shot_list_tick`: 0 < y < height, x > 0 and y < width; it has no contract of its own, and Shots.HeadShotFate and Shots.NoUpperBoundOnX state its consequences |
| Shots.ShotListTick | ptype_src/ptype.py:146-154 | the tick is the pass over the original list that moves visited in-field shots and deletes the others; it never grows the list, and shrinks it by the number deleted |
| Shots.HeadShotFate | ptype_src/ptype.py:149-154 | a visited in-field shot moves by exactly its speed; a visited out-of-field shot is removed |
| Shots.ShotAfterRemovedIsSkipped | ptype_src/ptype.py:148-154 | the shot right after a removed one is neither moved nor tested |
| Shots.NoUpperBoundOnX | ptype_src/ptype.py:149-150 | a shot far to the right still moves, because the fourth comparison tests Y against the width |
| Ship.WeapDefsMatchTilt | ptype_src/ship.py:59-66 | every weapon's frame list and offset list are as long as the ship's tilt list |
| Ship.NewWeap1 | ptype_src/ship.py:72-77 | a weapon is linked to the ship's tilt animation and takes its offsets and shots from its definition |
| Ship.GetOffX | ptype_src/ship.py:49-52 | the offset is an entry of the weapon's own offset table; Ship.WeaponsSymmetric pins which entry |
| Ship.Weap1Shoot | ptype_src/ship.py:79-85 | exactly one shot is appended per shot definition, at x + off_x[frame] + xOff and y + yOff, with the definition's speed and damage; earlier shots are kept |
| Ship.NewShip | ptype_src/ship.py:91-108 | a new ship has acceleration 1, no previous control and no weapon, and both weapons sit on the tilt's frame |
| Ship.Move | ptype_src/ship.py:121-145 | a changed control restarts the acceleration at 1, and a held non-zero control raises it by one up to 5; the tilt is -1 for bit 1, else +1 for bit 2, else 0; x and y move by exactly the acceleration only within their limits (left wins, up wins), with no clamping; nothing else of the ship changes (weapons, sphere, fire animation, tilt frame and clock) |
| Ship.MoveAccRamp | ptype_src/ship.py:123-126 | holding a new non-zero control for n frames gives acceleration min(n, 5) |
| Ship.Weap1ShootAppends | ptype_src/ship.py:79-85 | a weapon's volley does not depend on the shots already listed: firing into a list appends the same volley that firing into an empty list produces |
| Ship.Shoot | ptype_src/ship.py:172-184 | 2 + 3·[weapon&1] + 2·[weapon&2] shots are appended: first the main shot (speed (0,-4), damage 4), then the left weapon's volley if bit 0 is set, then the right weapon's if bit 1 is set, last the sphere's shot |
| Ship.AnimTick | ptype_src/ship.py:110-115 | the fire and tilt animations tick, and both weapons then copy the tilt's new frame |
| Ship.WeaponsSymmetric | ptype_src/ship.py:49-66 | once linked, each weapon's X offset is its definition's entry for the ship's new tilt frame; the left offset is the right one negated, and the right one lies in [15, 30] |
| Constructs.ConstrDefsWellFormed | ptype_src/constrman.py:30-48 | every archetype names an existing explosion animation and has positive life, and every animation has frames |
| Constructs.NewConstr | ptype_src/constrman.py:55-67 | a new construct has the archetype's life, y = row·64 and x = col·64, and no animations |
| Constructs.TickHeld | ptype_src/constrman.py:86-96 | a held animation ticks, and it is dropped on exactly the tick on which it finishes |
| Constructs.ConstrTick | ptype_src/constrman.py:82-96 | y becomes row·64 + offset, both held animations tick, and nothing else changes |
| Constructs.CheckHit | ptype_src/constrman.py:98-112 | a hit happens iff life > 0 and the shot is in the inclusive box [x, x+64] × [y-64, y]; a hit costs exactly 25 life, sets hit_x to the shot's X and restarts the shot-hit animation (ANIM_DEF[0]) from scratch; an explosion of the construct's own kind starts iff life drops to 0 or below; nothing else changes |
| Constructs.DestroyedIsInert | ptype_src/constrman.py:100-112 | a construct with life ≤ 0 is never hit and never changes |
| Constructs.HitBudget | ptype_src/constrman.py:104-111 | life falls by exactly 25 per hit, and at most ⌈L/25⌉ hits succeed from life L |
| Constructs.HeldHitLifetime | ptype_src/constrman.py:92-96 | a held one-shot animation of len frames survives exactly len·(ticks+1) construct ticks, running as if ticked alone |
| Constructs.HitAnimLifetime | ptype_src/constrman.py:139-141 | the hit animation (6 frames, 3 ticks each) is held for exactly 24 construct ticks |
| Constructs.HitShownFor24Ticks | ptype_src/constrman.py:92-112 | after any hit, the hit animation is shown for exactly 24 construct ticks and then dropped |
| Constructs.Add | ptype_src/constrman.py:153-157 | exactly one construct is appended: a fresh construct of one of the CONSTR_DEF archetypes at (row, col), at screen position (col·64, row·64), with life in {100, 10, 50} and no animations |
| Constructs.Tick | ptype_src/constrman.py:148-151 | every construct ticks with the offset, in place |
| Constructs.Scroll | ptype_src/constrman.py:160-168 | every row moves down one, then those past the screen are deleted while iterating, so the successor of a deleted construct survives that scroll |
| Constructs.ScrollSkipsAfterDeletion | ptype_src/constrman.py:165-167 | of two constructs leaving the screen together, the second stays in the list |
| Constructs.ScrollLowersHead | ptype_src/constrman.py:162-164 | scrolling changes row but not y_pos: the source writes the unused attribute `y` |
| Constructs.FirstHit | ptype_src/constrman.py:173-177 | a construct consumes only the first shot, in list order, that hits it, and no shot when none does |
| Constructs.CheckShots | ptype_src/constrman.py:170-177 | the constructs keep their number and order, and the shot list shrinks by exactly the number of hits, at most one per construct |
| Constructs.FirstHitRemovesOne | ptype_src/constrman.py:172-175 | one construct's pass removes at most one shot of the list, and a hit costs that construct exactly 25 life |
| Constructs.CheckShotsConsumes | ptype_src/constrman.py:170-177 | only shots of the original list are removed, and the summed life of the constructs falls by exactly 25 per removed shot |
| Constructs.CheckShotsOutcome | ptype_src/constrman.py:170-177 | every construct is either unchanged or is the outcome of a hit by some shot of the original list |
| Constructs.CheckShotsUnhitMissed | ptype_src/constrman.py:170-177 | a construct left unchanged is missed by every shot that survives the pass |
| Constructs.CheckShotsBound | ptype_src/constrman.py:170-177 | the shot list shrinks by at most the number of constructs |
| Plates.Decode | ptype_src/platesman.py:159-180 | the decoded codes read back exactly the sampled corners, and the sum is 4 iff all four corners are solid |
| Plates.DecodeSpec | ptype_src/platesman.py:159-180 | U = tl + 2·tr, R = tr + 2·br, B = bl + 2·br, L = tl + 2·bl; the corners read back unchanged; the sum counts solid corners in 0..4, and it is 4 iff all four codes are 3 |
| Plates.DecodeOnto | ptype_src/platesman.py:159-180 | every consistent plate is the decoding of its own corners |
| Plates.Insert | ptype_src/platesman.py:184-194 | a plate's entries are appended to its own (Left, Bottom) cell only |
| Plates.MatchMatrix | ptype_src/platesman.py:184-194 | the matrix has one cell per (Left, Bottom) pair, 4 × 4; its contents are stated by Plates.MatchMatrixEntries and Plates.MatchMatrixCounts |
| Plates.MatchMatrixEntries | ptype_src/platesman.py:184-185 | every entry of cell [l][b] is a plate with Left l and Bottom b |
| Plates.MatchMatrixCounts | ptype_src/platesman.py:185-194 | each plate appears in its own cell 9 times if full and once otherwise, and nowhere else |
| Plates.LoadPlates | ptype_src/platesman.py:144-194 | the 10 × 6 atlas cells are decoded and appended in order, and the matrix is the one built from all plates |
| Plates.MatchMatrixExtends | ptype_src/platesman.py:185-194 | loading more plates keeps each cell's old entries as a prefix |
| Plates.SeedLeft | ptype_src/platesman.py:217-222 | the column-0 seed is a Left code whose list for the required Bottom is non-empty |
| Plates.SeedCovers | ptype_src/platesman.py:217-224 | every Left code the retry loop could exit with is reachable, and each is the Left of a real plate with that Bottom |
| Plates.BottomCodes | ptype_src/platesman.py:201-207 | the required Bottom is the Up of the plate below, or 0 on the last row |
| Plates.GenLineInv | ptype_src/platesman.py:196-234 | for any finished line, misses included: misses occur only past column 0 and exactly where no plate fits the left neighbour and the required Bottom; every placed cell fits both; sites are placed full plates of this row |
| Plates.GenLine | ptype_src/platesman.py:196-234 | only columns past 0 can miss, and a missed column keeps its plate; constructs are requested only on full plates of this row that were placed |
| Plates.GenLineFits | ptype_src/platesman.py:200-227 | a line without misses has Left = Right of its neighbour along the row, and Bottom = Up of the row below (0 on the last row) |
| Plates.CompleteNeverMisses | ptype_src/platesman.py:224-234 | when every Left/Bottom pair has a plate, no column misses |
| Plates.SeedableRow | ptype_src/platesman.py:217-222 | when every Up code has a plate with that Bottom, the column-0 retry loop ends for every row |
| Plates.GenRow | ptype_src/platesman.py:238-239 | one row is generated and only that row changes; without a miss, agreement of the rows below extends to it |
| Plates.GenRows | ptype_src/platesman.py:238-239 | generating from row k-1 down to 0 keeps rows k and below, and without a warning the whole grid agrees |
| Plates.Generate | ptype_src/platesman.py:236-239 | without a warning every pair of adjacent cells agrees on its shared edge and the bottom row sits on an empty edge; a complete catalog never warns; sites are full plates |
| Plates.GenerateEmpty | ptype_src/platesman.py:241-248 | every cell holds match_matrix_lb[0][0][0], a plate with Left 0 and Bottom 0 |
| Plates.EmptyFieldConsistent | ptype_src/platesman.py:241-248 | if that first plate is blank, the empty field agrees everywhere |
| Plates.ShiftConsistent | ptype_src/platesman.py:254-261 | shifting an agreeing grid down and writing a row 0 that fits onto the old row 0 keeps every edge agreeing |
| Plates.ScrollGrid | ptype_src/platesman.py:250-261 | rows 0..9 move down one unchanged and the last row drops off; the requested sites are full plates of the new row 0; without a miss an agreeing grid stays agreeing; a complete catalog never misses |
| Plates.AddSites | ptype_src/platesman.py:229-232 | one construct is appended per requested site, in order, at that site's row and column and at screen position (col·64, row·64) |
| Plates.AddSitesOnTop | ptype_src/platesman.py:229-232 | sites of row 0 are appended after the existing constructs, on row 0 at screen Y 0 |
| Plates.Scroll | ptype_src/platesman.py:250-261 | the ground is the scrolled grid, a miss raises the warning, and agreement is kept when nothing misses |
| Plates.ScrollConstructs | ptype_src/platesman.py:259-261 | the old constructs are lowered and evicted first and keep their order; then one construct per requested site of the new row 0 follows, on row 0 and not lowered, at screen Y 0 and the X of its column |
| Plates.Tick | ptype_src/platesman.py:280-287 | the offset stays in [0, 63], and the ground scrolls exactly when it wraps: that tick is a full Plates.Scroll with offset 0, and the constructs are not ticked; on any other tick the constructs tick with the new offset and the grid is unchanged |
| Plates.ScrollEvery64 | ptype_src/platesman.py:280-287 | over n ticks the ground scrolls exactly (offset + n) div 64 times: once every 64 ticks |
| BackTiles.Zeros | ptype_src/backtiles.py:88-90 | the cleared bank is 10 × 8 and all zero |
| BackTiles.PlaceCluster | ptype_src/backtiles.py:93-101 | exactly the on-grid cells under the 2×2 footprint get the quad's tiles in row-major order; nothing else changes and nothing wraps around |
| BackTiles.ClusterClipped | ptype_src/backtiles.py:93-101 | with the anchor at -1 only the right half lands, in column 0; at the last column only the left half lands |
| BackTiles.PlaceComet | ptype_src/backtiles.py:104-109 | the comet is written iff both of its cells are 0; otherwise nothing changes; non-zero cells are kept |
| BackTiles.PlaceSingle | ptype_src/backtiles.py:112-117 | the drawn cell gets a palette entry only if it is 0; an occupied cell is not retried |
| BackTiles.PlaceSingles | ptype_src/backtiles.py:112-125 | non-zero cells are kept, and every changed cell was 0 and now holds an entry of the palette |
| BackTiles.PlaceAsteroids | ptype_src/backtiles.py:111-125 | the big then small singles keep every non-zero cell, and write only big or small asteroid tiles into empty cells |
| BackTiles.Fill | ptype_src/backtiles.py:128-131 | non-zero cells are kept, and every empty cell gets a BT0 tile |
| BackTiles.Scatter | ptype_src/backtiles.py:92-125 | the 2×2 asteroid is never overwritten by later placements, and the comet lands whenever it is clear of it |
| BackTiles.GenerateBack | ptype_src/backtiles.py:84-136 | the finished bank still holds the whole on-grid asteroid, and the comet when it was clear of the asteroid |
| BackTiles.GeneratedInPalette | ptype_src/backtiles.py:61-136 | every tile of a generated bank comes from bt0 ∪ bt1 ∪ bt2 ∪ bt3 ∪ bt4 |
| BackTiles.Init | ptype_src/backtiles.py:77-82 | the first generated bank is shown, the second is held in reserve, and all counters start at 0 |
| BackTiles.Scroll | ptype_src/backtiles.py:144-165 | the display moves down a row and takes the bank's last row on top; the bank image moves down and keeps its top row; the counter advances mod 10, and the bank is regenerated when it wraps |
| BackTiles.RegenerateEveryTen | ptype_src/backtiles.py:161-165 | over n scrolls the bank is regenerated exactly (count + n) div 10 times, and the counter ends at (count + n) mod 10 |
| BackTiles.ScrollsFeedBank | ptype_src/backtiles.py:144-159 | from a fresh bank, k < 10 scrolls put the bank's last k rows on top of the display, bottom row first, and push the old display and the bank down k rows |
| BackTiles.BankFullyShown | ptype_src/backtiles.py:144-165 | ten scrolls after a fresh bank the display equals that bank, and the next bank has just been generated |
| BackTiles.Tick | ptype_src/backtiles.py:174-182 | offset_div stays in [0, 4] and offset_y in [0, 63]; their combined phase advances by one mod 320, and the grids scroll exactly when it wraps |
| BackTiles.ScrollEvery320 | ptype_src/backtiles.py:174-182 | over n ticks the background scrolls exactly (phase + n) div 320 times: once every 5 · 64 ticks |

## Left out

- Pixels and surfaces are not modelled:
  - `pygame` image loading, `blit`, `set_colorkey`;
  - the corner sampling with `get_at` in `load_plates`, which becomes four
    input booleans per atlas cell;
  - `resman.py`;
  - every `draw`/`display` method.
- The event loop, window setup and key polling of `ptype.py` are driver I/O
  and are not modelled. Only `shot_list_tick` is.
- Images are identified with their resource index. So `disp_img`,
  `backt_img` and `dispt_img` hold indexes, and right after generation the
  image bank equals the index bank.
- Plates.SeedLeft: the column-0 loop in `generate_line` retries random
  entries until it finds a non-empty list. The model does not retry: it draws
  directly among the Left codes that the loop can exit with.
  - The source loops forever exactly when no Left code has a plate for the
    Bottom met at column 0. `Plates.GenLine` requires that such a plate exists
    (`Plates.HasBottom`), which is exactly that condition.
  - Row, grid and scroll generation (`Plates.GenRow`, `Plates.GenRows`,
    `Plates.Generate`, `Plates.ScrollGrid`, `Plates.Scroll`, `Plates.Tick`)
    require instead that every Up code has such a plate (`Plates.Seedable`).
    This is a sufficient condition on the catalog, not a necessary one. A
    catalog that fails it but never meets the missing Bottom at column 0 runs
    in the source but is excluded here.
- Plates.GenLine: the source prints `"!!!!!"` when a column misses. The model
  records that column in `misses`, and it raises a `warned` flag in
  `GenRow`/`Generate`/`ScrollGrid`.
- `PlatesManager.scroll_cnt` is never read and is not modelled.
- BackTiles.Fill: `generate_back` draws one random number per empty cell, in
  row order. The model indexes the fill draws by cell. Every outcome of one
  scheme is also an outcome of the other.
- Ship.AnimTick: the orbiting sphere's position uses `math.cos`/`math.sin`
  on a float angle. The model takes the resulting integers as parameters and
  does not model the angle.
- Geometry.InsideParallelogram: the interior branch computes in floating
  point, and the model uses exact rationals instead. Its contract covers the
  fewer-than-four-points and zero-determinant branches, plus the corners of a
  non-degenerate parallelogram.
- Ship.GetOffX: its own contract states only that the offset is an entry of the weapon's table. The frame-specific value is stated where the weapons are linked, in Ship.WeaponsSymmetric.
- Inputs on which the source raises `IndexError` are excluded by a `requires`
  instead of being modelled as an error:
  - Plates.GenerateEmpty requires `match_matrix_lb[0][0]` to be non-empty;
    `generate_empty` reads its first entry and crashes when no plate has
    Left 0 and Bottom 0.
  - Anim.NewAnim, Anim.NewOnce, Anim.NewTilt and Anim.NewTiltLink require a
    non-empty frame list; `Anim.__init__` reads `frame_lst[0]` and crashes on
    an empty one.
  - Ship.NewWeap1 requires non-empty weapon frames, for the same reason.
  - Ship.GetOffX and Ship.Weap1Shoot require the weapon's frame index to lie
    inside its offset table; `off_x[frame_idx]` crashes otherwise.
  - Constructs.NewConstr requires the archetype's explosion index to name an
    entry of `ANIM_DEF`. `get_exp_anim` would crash on the first explosion
    otherwise, and every `CONSTR_DEF` entry meets it
    (Constructs.ConstrDefsWellFormed).
- `print` calls in `ConstrManager.add`/`scroll` are not modelled.
- `ConstrManager.load_constr`, `get_exp_anim` and `get_hit_anim` only wrap
  resource images. The model uses `CONSTR_DEF` directly and builds the
  animations with `Constructs.NewAnimFrom`.

## Notes on the code as written

The model follows the code wherever a reader could expect something else:

- A one-shot animation finishes on the len·(ticks_frame+1)-th tick. At that
  point its frame index is len (one past the end), and its resource stays the
  last frame's.
- `generate_empty` uses the first plate listed under Left 0 / Bottom 0, which
  need not be the blank plate. `Plates.EmptyFieldConsistent` assumes that it
  is blank.
- A tilt-linked animation keeps the resource of its own frame 0 until its
  first tick, even though its frame index already follows the tilt.
- `ConstrManager.scroll` writes the unused attribute `y`, so `y_pos` keeps its
  old value until the next tick.
- Both `ConstrManager.scroll` and `shot_list_tick` skip the element after a
  deleted one.
- The field test of `shot_list_tick` compares Y against the width, so X has
  no upper bound.
- In `generate_back`, a big or small single asteroid whose drawn cell is
  occupied is simply not placed. The code does not retry it.
- The bank is consumed bottom row first: each scroll moves the bank image down
  one row and shows its last row.
- `scroll` shifts only the image bank, not `backt_idx`. Between two
  regenerations, the index bank therefore no longer mirrors the image bank.
