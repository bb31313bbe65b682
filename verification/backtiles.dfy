/** The scrolling star-field behind the ground (`backtiles.py`): a bank of
    tiles generated off screen, the displayed grid, and the counters that
    move the bank into the display one row at a time. Tile images are named
    by their index in the resource list, so an image grid holds indexes. */
module BackTiles {
  import opened Util

  const TX_CNT := 8
  const TY_CNT := 10
  /** Height of a tile in pixels: `offset_y` wraps here. */
  const TILE := 64
  /** Ticks per pixel of `offset_y`. */
  const DIV := 5

  /** Emptiness and simple stars. */
  const BT0: seq<int> := [0, 0, 1, 4, 13, 15, 22, 26, 27, 31, 48, 49, 50, 51, 52, 53]
  /** Small asteroids. */
  const BT1: seq<int> := [0, 2, 3, 29, 30, 23]
  /** Big asteroids. */
  const BT2: seq<int> := [5, 8, 9, 14, 18, 19]
  /** Comets, two tiles wide. */
  const BT3: seq<seq<int>> := [[16, 17]]
  /** Very big asteroids, 2x2, listed top-left, top-right, bottom-left,
      bottom-right. */
  const BT4: seq<seq<int>> := [[6, 7, 10, 11], [20, 21, 24, 25], [32, 33, 36, 37],
                               [34, 35, 38, 39], [40, 41, 42, 43], [44, 45, 46, 47]]

  /** A grid of TY_CNT rows by TX_CNT columns, indexed `[y][x]`. */
  type Grid = seq<seq<int>>

  predicate Shaped<T>(g: seq<seq<T>>)
  {
    |g| == TY_CNT && forall y :: 0 <= y < TY_CNT ==> |g[y]| == TX_CNT
  }

  /** The tile indexes the palettes can produce. */
  predicate InPalette(v: int)
  {
    v in BT0 || v in BT1 || v in BT2 ||
    (exists i :: 0 <= i < |BT3| && v in BT3[i]) ||
    (exists i :: 0 <= i < |BT4| && v in BT4[i])
  }

  predicate AllIn(g: Grid)
    requires Shaped(g)
  {
    forall y, x :: 0 <= y < TY_CNT && 0 <= x < TX_CNT ==> InPalette(g[y][x])
  }

  /** Every non-zero cell of `g` is still there in `r`: a step of the
      generator only writes onto empty (zero) cells. */
  predicate Keeps(g: Grid, r: Grid)
    requires Shaped(g) && Shaped(r)
  {
    forall y, x :: 0 <= y < TY_CNT && 0 <= x < TX_CNT && g[y][x] != 0 ==> r[y][x] == g[y][x]
  }

  /** The cleared bank. */
  function Zeros(): (r: Grid)
    ensures Shaped(r)
    ensures forall y, x :: 0 <= y < TY_CNT && 0 <= x < TX_CNT ==> r[y][x] == 0
  {
    seq(TY_CNT, _ => seq(TX_CNT, _ => 0))
  }

  function SetCell(g: Grid, y: int, x: int, v: int): (r: Grid)
    requires Shaped(g) && 0 <= y < TY_CNT && 0 <= x < TX_CNT
    ensures Shaped(r)
    ensures forall y', x' :: 0 <= y' < TY_CNT && 0 <= x' < TX_CNT ==>
              r[y'][x'] == if y' == y && x' == x then v else g[y'][x']
  {
    g[y := g[y][x := v]]
  }

  /** The three `randint` draws of one placement: column, row, palette entry. */
  datatype Draw3 = Draw3(x: nat, y: nat, z: nat)

  // ---------------------------------------------------------------------
  // The 2x2 asteroid

  /** The cluster's left column may be -1 (only its right half shows). */
  function ClusterX(d: Draw3): int { RandInt(d.x, -1, TX_CNT - 1) }
  function ClusterY(d: Draw3): int { RandInt(d.y, 0, TY_CNT - 2) }

  function ClusterQuad(d: Draw3): (q: seq<int>)
    ensures q in BT4 && |q| == 4
    ensures forall k :: 0 <= k < 4 ==> q[k] != 0 && InPalette(q[k])
  {
    var i := RandInt(d.z, 0, |BT4| - 1);
    assert i == 0 || i == 1 || i == 2 || i == 3 || i == 4 || i == 5;
    BT4[i]
  }

  /** Cell (y, x) lies under the asteroid's 2x2 footprint. */
  predicate InCluster(d: Draw3, y: int, x: int)
  {
    ClusterY(d) <= y <= ClusterY(d) + 1 && ClusterX(d) <= x <= ClusterX(d) + 1
  }

  /** The quad's tile for a covered cell: row-major inside the footprint. */
  function ClusterTile(d: Draw3, y: int, x: int): int
    requires InCluster(d, y, x)
  {
    ClusterQuad(d)[2 * (y - ClusterY(d)) + (x - ClusterX(d))]
  }

  /** Writes `top` and `bottom` into column x of rows y and y + 1, when that
      column is on the grid. */
  function PlaceColumn(g: Grid, y: int, x: int, top: int, bottom: int): (r: Grid)
    requires Shaped(g) && 0 <= y < TY_CNT - 1
    ensures Shaped(r)
    ensures forall y', x' :: 0 <= y' < TY_CNT && 0 <= x' < TX_CNT ==>
              r[y'][x'] == if x' == x && y' == y then top
                           else if x' == x && y' == y + 1 then bottom
                           else g[y'][x']
  {
    if 0 <= x < TX_CNT then SetCell(SetCell(g, y, x, top), y + 1, x, bottom) else g
  }

  /** Places the asteroid, writing only the covered cells that are on the
      grid: with the anchor at -1 or at the last column one column of the
      quad falls off the side and nothing wraps around. */
  function PlaceCluster(g: Grid, d: Draw3): (r: Grid)
    requires Shaped(g)
    ensures Shaped(r)
    ensures forall y, x :: 0 <= y < TY_CNT && 0 <= x < TX_CNT ==>
              r[y][x] == if InCluster(d, y, x) then ClusterTile(d, y, x) else g[y][x]
  {
    var cx, cy, q := ClusterX(d), ClusterY(d), ClusterQuad(d);
    var left := PlaceColumn(g, cy, cx, q[0], q[2]);
    var r := PlaceColumn(left, cy, cx + 1, q[1], q[3]);
    forall y, x | 0 <= y < TY_CNT && 0 <= x < TX_CNT
      ensures r[y][x] == if InCluster(d, y, x) then ClusterTile(d, y, x) else g[y][x]
    {
      if x == cx + 1 {
        assert r[y][x] == if y == cy then q[1] else if y == cy + 1 then q[3] else g[y][x];
      } else {
        assert r[y][x] == left[y][x];
      }
    }
    r
  }

  /** With the anchor at -1 only the right half of the quad lands, in column
      0; at the last column only the left half lands. */
  lemma ClusterClipped(g: Grid, d: Draw3)
    requires Shaped(g)
    ensures ClusterX(d) == -1 ==>
              var r, cy := PlaceCluster(g, d), ClusterY(d);
              r[cy][0] == ClusterQuad(d)[1] && r[cy + 1][0] == ClusterQuad(d)[3] &&
              forall y, x :: 0 <= y < TY_CNT && 1 <= x < TX_CNT ==> r[y][x] == g[y][x]
    ensures ClusterX(d) == TX_CNT - 1 ==>
              var r, cy := PlaceCluster(g, d), ClusterY(d);
              r[cy][TX_CNT - 1] == ClusterQuad(d)[0] && r[cy + 1][TX_CNT - 1] == ClusterQuad(d)[2] &&
              forall y, x :: 0 <= y < TY_CNT && 0 <= x < TX_CNT - 1 ==> r[y][x] == g[y][x]
  {
    var r, cy := PlaceCluster(g, d), ClusterY(d);
    if ClusterX(d) == -1 {
      assert InCluster(d, cy, 0) && InCluster(d, cy + 1, 0);
    } else if ClusterX(d) == TX_CNT - 1 {
      assert InCluster(d, cy, TX_CNT - 1) && InCluster(d, cy + 1, TX_CNT - 1);
    }
  }

  // ---------------------------------------------------------------------
  // The comet

  function CometX(d: Draw3): int { RandInt(d.x, 0, TX_CNT - 2) }
  function CometY(d: Draw3): int { RandInt(d.y, 0, TY_CNT - 2) }

  function CometPair(d: Draw3): (p: seq<int>)
    ensures |p| == 2 && p[0] != 0 && p[1] != 0 && InPalette(p[0]) && InPalette(p[1])
  {
    var i := RandInt(d.z, 0, |BT3| - 1);
    assert i == 0;
    BT3[i]
  }

  /** The comet lands only when both of its cells are empty. */
  predicate CometFits(g: Grid, d: Draw3)
    requires Shaped(g)
  {
    g[CometY(d)][CometX(d)] == 0 && g[CometY(d)][CometX(d) + 1] == 0
  }

  function PlaceComet(g: Grid, d: Draw3): (r: Grid)
    requires Shaped(g)
    ensures Shaped(r) && Keeps(g, r)
    ensures !CometFits(g, d) ==> r == g
    ensures CometFits(g, d) ==>
              forall y, x :: 0 <= y < TY_CNT && 0 <= x < TX_CNT ==>
                r[y][x] == if y == CometY(d) && CometX(d) <= x <= CometX(d) + 1
                           then CometPair(d)[x - CometX(d)] else g[y][x]
  {
    var cx, cy, p := CometX(d), CometY(d), CometPair(d);
    if CometFits(g, d) then SetCell(SetCell(g, cy, cx, p[0]), cy, cx + 1, p[1]) else g
  }

  // ---------------------------------------------------------------------
  // Single-tile asteroids

  function SingleX(d: Draw3): int { RandInt(d.x, 0, TX_CNT - 1) }
  function SingleY(d: Draw3): int { RandInt(d.y, 0, TY_CNT - 1) }

  /** One asteroid from `pal`, placed only onto an empty cell. */
  function PlaceSingle(g: Grid, d: Draw3, pal: seq<int>): (r: Grid)
    requires Shaped(g) && |pal| > 0
    ensures Shaped(r)
    ensures forall y, x :: 0 <= y < TY_CNT && 0 <= x < TX_CNT ==>
              r[y][x] == if y == SingleY(d) && x == SingleX(d) && g[y][x] == 0
                         then Pick(pal, d.z) else g[y][x]
  {
    var cx, cy := SingleX(d), SingleY(d);
    if g[cy][cx] == 0 then SetCell(g, cy, cx, Pick(pal, d.z)) else g
  }

  /** The placements of one loop, in draw order. Every cell they change was
      empty and ends holding an entry of `pal`. */
  function PlaceSingles(g: Grid, ds: seq<Draw3>, pal: seq<int>): (r: Grid)
    requires Shaped(g) && |pal| > 0
    ensures Shaped(r) && Keeps(g, r)
    ensures forall y, x :: 0 <= y < TY_CNT && 0 <= x < TX_CNT && r[y][x] != g[y][x] ==>
              g[y][x] == 0 && r[y][x] in pal
    decreases |ds|
  {
    if |ds| == 0 then g else PlaceSingles(PlaceSingle(g, ds[0], pal), ds[1..], pal)
  }

  /** Every empty cell gets a star or emptiness from BT0, one draw per cell. */
  function Fill(g: Grid, fill: seq<seq<nat>>): (r: Grid)
    requires Shaped(g) && Shaped(fill)
    ensures Shaped(r) && Keeps(g, r)
    ensures forall y, x :: 0 <= y < TY_CNT && 0 <= x < TX_CNT && g[y][x] == 0 ==> r[y][x] in BT0
  {
    seq(TY_CNT, y requires 0 <= y < TY_CNT =>
      seq(TX_CNT, x requires 0 <= x < TX_CNT =>
        if g[y][x] == 0 then Pick(BT0, fill[y][x]) else g[y][x]))
  }

  // ---------------------------------------------------------------------
  // generate_back

  /** All draws one `generate_back` consumes. The fill draws are indexed by
      cell rather than taken from one stream. */
  datatype BackDraws = BackDraws(cluster: Draw3, comet: Draw3, big: seq<Draw3>,
                                 small: seq<Draw3>, fill: seq<seq<nat>>)
  {
    predicate Ok()
    {
      |big| == 3 && |small| == 6 && Shaped(fill)
    }
  }

  /** The comet does not overlap the asteroid's footprint. */
  predicate CometClear(d: BackDraws)
  {
    !InCluster(d.cluster, CometY(d.comet), CometX(d.comet)) &&
    !InCluster(d.cluster, CometY(d.comet), CometX(d.comet) + 1)
  }

  /** The three big and then the six small single-tile asteroids: each
      changed cell was empty and now holds a big or a small asteroid (or
      stays empty, since BT1 lists emptiness too). */
  function PlaceAsteroids(g: Grid, d: BackDraws): (r: Grid)
    requires Shaped(g) && d.Ok()
    ensures Shaped(r) && Keeps(g, r)
    ensures forall y, x :: 0 <= y < TY_CNT && 0 <= x < TX_CNT && r[y][x] != g[y][x] ==>
              g[y][x] == 0 && (r[y][x] in BT2 || r[y][x] in BT1)
  {
    var g1 := PlaceSingles(g, d.big, BT2);
    var r := PlaceSingles(g1, d.small, BT1);
    assert Keeps(g, r) by {
      forall y, x | 0 <= y < TY_CNT && 0 <= x < TX_CNT && g[y][x] != 0
        ensures r[y][x] == g[y][x]
      {
        assert g1[y][x] == g[y][x];
      }
    }
    r
  }

  /** Everything `generate_back` places before the fill: the asteroid, the
      comet, and the single asteroids. The asteroid is never overwritten, and
      the comet lands whenever it is clear of it. */
  function Scatter(d: BackDraws): (r: Grid)
    requires d.Ok()
    ensures Shaped(r)
    ensures forall y, x :: 0 <= y < TY_CNT && 0 <= x < TX_CNT && InCluster(d.cluster, y, x) ==>
              r[y][x] == ClusterTile(d.cluster, y, x)
    ensures CometClear(d) ==>
              r[CometY(d.comet)][CometX(d.comet)] == CometPair(d.comet)[0] &&
              r[CometY(d.comet)][CometX(d.comet) + 1] == CometPair(d.comet)[1]
  {
    var g1 := PlaceCluster(Zeros(), d.cluster);
    var g2 := PlaceComet(g1, d.comet);
    assert CometClear(d) ==> CometFits(g1, d.comet);
    PlaceAsteroids(g2, d)
  }

  /** `generate_back`, up to the copy into the image grid (images are named
      by their index). The fill only writes empty cells, so the asteroid and
      a clear comet survive into the finished bank. */
  function GenerateBack(d: BackDraws): (r: Grid)
    requires d.Ok()
    ensures Shaped(r)
    ensures forall y, x :: 0 <= y < TY_CNT && 0 <= x < TX_CNT && InCluster(d.cluster, y, x) ==>
              r[y][x] == ClusterTile(d.cluster, y, x)
    ensures CometClear(d) ==>
              r[CometY(d.comet)][CometX(d.comet)] == CometPair(d.comet)[0] &&
              r[CometY(d.comet)][CometX(d.comet) + 1] == CometPair(d.comet)[1]
  {
    Fill(Scatter(d), d.fill)
  }

  /** Every tile of a generated bank comes from one of the palettes. */
  lemma GeneratedInPalette(d: BackDraws)
    requires d.Ok()
    ensures AllIn(GenerateBack(d))
  {
    var g1 := PlaceCluster(Zeros(), d.cluster);
    var g2 := PlaceComet(g1, d.comet);
    var g3 := PlaceAsteroids(g2, d);
    var r := Fill(g3, d.fill);
    assert g3 == Scatter(d) && r == GenerateBack(d);
    forall y, x | 0 <= y < TY_CNT && 0 <= x < TX_CNT
      ensures InPalette(r[y][x])
    {
      if g3[y][x] == 0 {
        assert r[y][x] in BT0;
      } else if g3[y][x] != g2[y][x] {
        assert g3[y][x] in BT2 || g3[y][x] in BT1;
      } else if g2[y][x] != g1[y][x] {
        assert CometFits(g1, d.comet);
        assert g2[y][x] == CometPair(d.comet)[x - CometX(d.comet)];
      } else {
        assert InCluster(d.cluster, y, x);
      }
    }
  }

  // ---------------------------------------------------------------------
  // The background state

  datatype BackTiles = BackTiles(backIdx: Grid, backImg: Grid, dispImg: Grid,
                                 scrollCnt: int, offsetY: int, offsetDiv: int)
  {
    predicate Valid()
    {
      Shaped(backIdx) && Shaped(backImg) && Shaped(dispImg) &&
      0 <= scrollCnt < TY_CNT && 0 <= offsetY < TILE && 0 <= offsetDiv < DIV
    }
  }

  /** `__init__`: generate a bank, show it, and generate the next bank. */
  function Init(first: BackDraws, second: BackDraws): (r: BackTiles)
    requires first.Ok() && second.Ok()
    ensures r.Valid()
    ensures r.dispImg == GenerateBack(first)
    ensures r.backIdx == r.backImg == GenerateBack(second)
    ensures r.scrollCnt == 0 && r.offsetY == 0 && r.offsetDiv == 0
  {
    var shown := GenerateBack(first);
    var bank := GenerateBack(second);
    BackTiles(bank, bank, shown, 0, 0, 0)
  }

  /** `scroll`: the display moves down a row and takes the bank's last row
      on top; the bank moves down too, its top row staying where it was.
      After TY_CNT scrolls a new bank is generated. */
  function Scroll(bt: BackTiles, d: BackDraws): (r: BackTiles)
    requires bt.Valid() && d.Ok()
    ensures r.Valid()
    ensures r.offsetY == bt.offsetY && r.offsetDiv == bt.offsetDiv
    ensures r.dispImg == [bt.backImg[TY_CNT - 1]] + bt.dispImg[..TY_CNT - 1]
    ensures r.scrollCnt == (bt.scrollCnt + 1) % TY_CNT
    ensures bt.scrollCnt < TY_CNT - 1 ==>
              r.backIdx == bt.backIdx && r.backImg == [bt.backImg[0]] + bt.backImg[..TY_CNT - 1]
    ensures bt.scrollCnt == TY_CNT - 1 ==> r.backIdx == r.backImg == GenerateBack(d)
  {
    var disp := [bt.backImg[TY_CNT - 1]] + bt.dispImg[..TY_CNT - 1];
    var back := [bt.backImg[0]] + bt.backImg[..TY_CNT - 1];
    var cnt := bt.scrollCnt + 1;
    DivModUnique(cnt, TY_CNT, if cnt == TY_CNT then 1 else 0, if cnt == TY_CNT then 0 else cnt);
    if cnt >= TY_CNT then
      var bank := GenerateBack(d);
      bt.(backIdx := bank, backImg := bank, dispImg := disp, scrollCnt := 0)
    else
      bt.(backImg := back, dispImg := disp, scrollCnt := cnt)
  }

  /** One scroll per entry of `draws` (an entry is used when that scroll
      regenerates the bank); returns the state and the number of banks
      generated. */
  function ScrollRun(bt: BackTiles, draws: seq<BackDraws>): (r: (BackTiles, nat))
    requires bt.Valid() && forall j :: 0 <= j < |draws| ==> draws[j].Ok()
    ensures r.0.Valid() && r.0.offsetY == bt.offsetY && r.0.offsetDiv == bt.offsetDiv
    decreases |draws|
  {
    if |draws| == 0 then (bt, 0)
    else
      var prev := ScrollRun(bt, draws[..|draws| - 1]);
      var s := Scroll(prev.0, draws[|draws| - 1]);
      (s, prev.1 + (if prev.0.scrollCnt == TY_CNT - 1 then 1 else 0))
  }

  /** Over n scrolls the bank is regenerated (count + n) div TY_CNT times and
      the counter ends at (count + n) mod TY_CNT: once every TY_CNT scrolls. */
  lemma {:induction false} RegenerateEveryTen(bt: BackTiles, draws: seq<BackDraws>)
    requires bt.Valid() && forall j :: 0 <= j < |draws| ==> draws[j].Ok()
    ensures ScrollRun(bt, draws).1 == (bt.scrollCnt + |draws|) / TY_CNT
    ensures ScrollRun(bt, draws).0.scrollCnt == (bt.scrollCnt + |draws|) % TY_CNT
    decreases |draws|
  {
    if |draws| == 0 {
      DivModUnique(bt.scrollCnt, TY_CNT, 0, bt.scrollCnt);
    } else {
      RegenerateEveryTen(bt, draws[..|draws| - 1]);
      DivModSucc(bt.scrollCnt + |draws| - 1, TY_CNT);
    }
  }

  /** One scroll of the display `disp` and the bank `back` (both of n rows),
      k - 1 scrolls into showing bank `b` over the old display `o`: the k-th
      scroll brings the next bank row, b[n - k], to the top. */
  lemma ShiftStep<T>(b: seq<T>, o: seq<T>, back: seq<T>, disp: seq<T>, k: nat)
    requires |b| == |o| == |back| == |disp| && 0 < k <= |b|
    requires disp[..k - 1] == b[|b| - k + 1..] && disp[k - 1..] == o[..|b| - k + 1]
    requires back[k - 1..] == b[..|b| - k + 1]
    ensures var n := |b|;
            var disp', back' := [back[n - 1]] + disp[..n - 1], [back[0]] + back[..n - 1];
            disp'[..k] == b[n - k..] && disp'[k..] == o[..n - k] && back'[k..] == b[..n - k]
  {
    var n := |b|;
    var disp', back' := [back[n - 1]] + disp[..n - 1], [back[0]] + back[..n - 1];
    assert back[n - 1] == back[k - 1..][n - k] == b[n - k];
    assert disp'[..k] == [b[n - k]] + disp[..k - 1];
    assert disp'[k..] == disp[k - 1..][..n - k];
    assert back'[k..] == back[k - 1..][..n - k];
  }

  /** Starting from a fresh bank, the first k scrolls feed the bank's last k
      rows into the top of the display, bottom row first, and push the old
      display and the bank down by k rows. */
  lemma {:induction false} ScrollsFeedBank(bt: BackTiles, draws: seq<BackDraws>)
    requires bt.Valid() && bt.scrollCnt == 0 && forall j :: 0 <= j < |draws| ==> draws[j].Ok()
    requires 0 < |draws| < TY_CNT
    ensures var r, k := ScrollRun(bt, draws).0, |draws|;
            r.scrollCnt == k && r.backIdx == bt.backIdx &&
            r.dispImg[..k] == bt.backImg[TY_CNT - k..] &&
            r.dispImg[k..] == bt.dispImg[..TY_CNT - k] &&
            r.backImg[k..] == bt.backImg[..TY_CNT - k]
    decreases |draws|
  {
    var k := |draws|;
    var prev := ScrollRun(bt, draws[..k - 1]).0;
    assert ScrollRun(bt, draws).0 == Scroll(prev, draws[k - 1]);
    if k == 1 {
      assert prev == bt;
    } else {
      ScrollsFeedBank(bt, draws[..k - 1]);
    }
    ShiftStep(bt.backImg, bt.dispImg, prev.backImg, prev.dispImg, k);
  }

  /** TY_CNT scrolls after a fresh bank the display shows exactly that bank,
      and the last scroll has generated the next one. */
  lemma BankFullyShown(bt: BackTiles, draws: seq<BackDraws>)
    requires bt.Valid() && bt.scrollCnt == 0 && forall j :: 0 <= j < |draws| ==> draws[j].Ok()
    requires |draws| == TY_CNT
    ensures ScrollRun(bt, draws).0.dispImg == bt.backImg
    ensures ScrollRun(bt, draws).0.backImg == GenerateBack(draws[TY_CNT - 1])
    ensures ScrollRun(bt, draws).0.scrollCnt == 0
  {
    var k := TY_CNT;
    var prev := ScrollRun(bt, draws[..k - 1]).0;
    assert ScrollRun(bt, draws).0 == Scroll(prev, draws[k - 1]);
    ScrollsFeedBank(bt, draws[..k - 1]);
    ShiftStep(bt.backImg, bt.dispImg, prev.backImg, prev.dispImg, k);
  }

  // ---------------------------------------------------------------------
  // tick

  datatype Ticked = Ticked(bt: BackTiles, scrolled: bool)

  /** Position inside one scroll period: offset_y pixels of DIV ticks each. */
  function Phase(bt: BackTiles): int { bt.offsetY * DIV + bt.offsetDiv }

  /** `tick`: the pixel offset grows once every DIV ticks and the grids
      scroll when it reaches a full tile. */
  function Tick(bt: BackTiles, d: BackDraws): (r: Ticked)
    requires bt.Valid() && d.Ok()
    ensures r.bt.Valid()
    ensures 0 <= Phase(bt) < TILE * DIV
    ensures Phase(r.bt) == (Phase(bt) + 1) % (TILE * DIV)
    ensures r.scrolled <==> Phase(bt) == TILE * DIV - 1
    ensures !r.scrolled ==> r.bt.(offsetY := bt.offsetY, offsetDiv := bt.offsetDiv) == bt
    ensures r.scrolled ==> r.bt == Scroll(bt, d).(offsetY := 0, offsetDiv := 0)
  {
    var p := Phase(bt) + 1;
    DivModUnique(p, TILE * DIV, if p == TILE * DIV then 1 else 0, if p == TILE * DIV then 0 else p);
    var dv := bt.offsetDiv + 1;
    if dv > DIV - 1 then
      var oy := bt.offsetY + 1;
      if oy >= TILE then
        Ticked(Scroll(bt.(offsetY := 0, offsetDiv := 0), d), true)
      else
        Ticked(bt.(offsetY := oy, offsetDiv := 0), false)
    else
      Ticked(bt.(offsetDiv := dv), false)
  }

  function TickRun(bt: BackTiles, draws: seq<BackDraws>): (r: (BackTiles, nat))
    requires bt.Valid() && forall j :: 0 <= j < |draws| ==> draws[j].Ok()
    ensures r.0.Valid()
    decreases |draws|
  {
    if |draws| == 0 then (bt, 0)
    else
      var prev := TickRun(bt, draws[..|draws| - 1]);
      var t := Tick(prev.0, draws[|draws| - 1]);
      (t.bt, prev.1 + (if t.scrolled then 1 else 0))
  }

  /** Over n ticks the background scrolls (phase + n) div 320 times: once
      every 5 * 64 ticks. */
  lemma {:induction false} ScrollEvery320(bt: BackTiles, draws: seq<BackDraws>)
    requires bt.Valid() && forall j :: 0 <= j < |draws| ==> draws[j].Ok()
    ensures TickRun(bt, draws).1 == (Phase(bt) + |draws|) / (TILE * DIV)
    ensures Phase(TickRun(bt, draws).0) == (Phase(bt) + |draws|) % (TILE * DIV)
    decreases |draws|
  {
    if |draws| == 0 {
      DivModUnique(Phase(bt), TILE * DIV, 0, Phase(bt));
    } else {
      ScrollEvery320(bt, draws[..|draws| - 1]);
      DivModSucc(Phase(bt) + |draws| - 1, TILE * DIV);
    }
  }
}
