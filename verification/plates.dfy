/** The ground (`platesman.py`): plates decoded from corner samples into
    (Up, Right, Bottom, Left) edge codes, the Left x Bottom match matrix, and
    the 11 x 8 grid filled bottom-up so that touching edges agree, scrolled
    one row every 64 ticks. Plate images are not modelled: a plate is its
    index in the catalog. */
module Plates {
  import opened Util
  import Constructs

  const TY_OUT := 11
  const TX_OUT := 8
  const TILE := 64
  /** The atlas holds 10 rows of 6 plates. */
  const ATLAS_ROWS := 10
  const ATLAS_COLS := 6
  /** A full plate is entered once plus 8 more times in the match matrix. */
  const FULL_EXTRA := 8

  // -----------------------------------------------------------------------
  // Edge codes

  /** A 2-bit edge code: bit 0 for the first corner of the edge (top or
      left), bit 1 for the second (right or bottom). */
  type Code = c: int | 0 <= c < 4

  predicate Lo(c: Code) { c == 1 || c == 3 }
  predicate Hi(c: Code) { c >= 2 }

  function Bit(b: bool): nat { if b then 1 else 0 }

  /** The code of an edge whose first and second corners are as given. */
  function Edge(first: bool, second: bool): Code
  {
    Bit(first) + 2 * Bit(second)
  }

  /** The two bits of a code are read back by `Lo` and `Hi`, and every code
      is the edge of its two bits. */
  lemma EdgeBits(first: bool, second: bool)
    ensures Lo(Edge(first, second)) == first && Hi(Edge(first, second)) == second
  {
    if first { if second { } else { } } else { if second { } else { } }
  }

  lemma EdgeOfBits(c: Code)
    ensures Edge(Lo(c), Hi(c)) == c
  {
    if c == 0 { } else if c == 1 { } else if c == 2 { } else { }
  }

  /** Occupancy of the four corner quadrants of a plate, as sampled from the
      atlas (true = not background). */
  datatype Corners = Corners(tl: bool, tr: bool, br: bool, bl: bool)

  /** A plate definition: the four edge codes and the number of solid
      corners. */
  datatype Plate = Plate(up: Code, right: Code, bottom: Code, left: Code, sum: int)

  /** The codes agree on the corners they share and the sum counts the
      solid corners. */
  predicate WellFormed(p: Plate)
  {
    && Lo(p.up) == Lo(p.left)
    && Hi(p.up) == Lo(p.right)
    && Hi(p.right) == Hi(p.bottom)
    && Lo(p.bottom) == Hi(p.left)
    && p.sum == Solid(CornersOf(p))
  }

  /** The corners a plate encodes. */
  function CornersOf(p: Plate): Corners
  {
    Corners(Lo(p.up), Hi(p.up), Hi(p.bottom), Lo(p.bottom))
  }

  /** The number of solid corners. */
  function Solid(c: Corners): nat
  {
    Bit(c.tl) + Bit(c.tr) + Bit(c.bl) + Bit(c.br)
  }

  /** Corner decoding of `load_plates`: each solid corner adds its bit to
      the two edges that meet there and one to the sum. */
  function Decode(c: Corners): (p: Plate)
    ensures CornersOf(p) == c
    ensures p.sum == 4 <==> c.tl && c.tr && c.br && c.bl
  {
    EdgeBits(c.tl, c.tr);
    EdgeBits(c.bl, c.br);
    Plate(Edge(c.tl, c.tr), Edge(c.tr, c.br), Edge(c.bl, c.br), Edge(c.tl, c.bl),
          Solid(c))
  }

  /** A decoded plate is well formed and encodes exactly the sampled
      corners; it is full exactly when all four codes are 3. */
  lemma DecodeSpec(c: Corners)
    ensures WellFormed(Decode(c)) && CornersOf(Decode(c)) == c
    ensures 0 <= Decode(c).sum <= 4
    ensures Decode(c).sum == 4 <==> Decode(c).up == 3 && Decode(c).right == 3 && Decode(c).bottom == 3 && Decode(c).left == 3
  {
    EdgeBits(c.tl, c.tr);
    EdgeBits(c.tr, c.br);
    EdgeBits(c.bl, c.br);
    EdgeBits(c.tl, c.bl);
  }

  /** Every well-formed plate is the decoding of its own corners, so the
      encoding loses nothing. */
  lemma DecodeOnto(p: Plate)
    requires WellFormed(p)
    ensures Decode(CornersOf(p)) == p
  {
    var c := CornersOf(p);
    assert c.tr == Lo(p.right) && c.br == Hi(p.right) && c.tl == Lo(p.left) && c.bl == Hi(p.left);
    EdgeOfBits(p.up);
    EdgeOfBits(p.right);
    EdgeOfBits(p.bottom);
    EdgeOfBits(p.left);
  }

  // -----------------------------------------------------------------------
  // Match matrix

  /** `match_matrix_lb[l][b]`: catalog indexes of the plates with Left l and
      Bottom b. */
  type Matrix = seq<seq<seq<nat>>>

  predicate Shaped(m: Matrix)
  {
    |m| == 4 && forall l :: 0 <= l < 4 ==> |m[l]| == 4
  }

  function EmptyMatrix(): (m: Matrix)
    ensures Shaped(m) && forall l, b :: 0 <= l < 4 && 0 <= b < 4 ==> m[l][b] == []
  {
    seq(4, l => seq(4, b => []))
  }

  /** How many times a plate is entered in the matrix. */
  function Weight(p: Plate): nat
  {
    if p.sum == 4 then 1 + FULL_EXTRA else 1
  }

  function Copies(k: nat, n: nat): (s: seq<nat>)
    ensures |s| == n && forall j :: 0 <= j < n ==> s[j] == k
  {
    seq(n, _ => k)
  }

  /** The entries appended for plate `k`: once, then 8 more times when the
      plate is full. */
  function Entries(p: Plate, k: nat): seq<nat>
  {
    if p.sum == 4 then [k] + Copies(k, FULL_EXTRA) else [k]
  }

  lemma CopiesCount(k: nat, n: nat)
    ensures multiset(Copies(k, n))[k] == n
    ensures forall j :: j != k ==> multiset(Copies(k, n))[j] == 0
  {
    if n > 0 {
      assert Copies(k, n) == Copies(k, n - 1) + [k];
      CopiesCount(k, n - 1);
    }
  }

  /** Plate `k` is entered Weight times and nothing else is entered. */
  lemma EntriesCount(p: Plate, k: nat)
    ensures forall j :: 0 <= j < |Entries(p, k)| ==> Entries(p, k)[j] == k
    ensures forall j :: multiset(Entries(p, k))[j] == if j == k then Weight(p) else 0
  {
    CopiesCount(k, FULL_EXTRA);
  }

  function Insert(m: Matrix, p: Plate, k: nat): (r: Matrix)
    requires Shaped(m)
    ensures Shaped(r)
    ensures r[p.left][p.bottom] == m[p.left][p.bottom] + Entries(p, k)
    ensures forall l, b :: 0 <= l < 4 && 0 <= b < 4 && (l != p.left || b != p.bottom) ==> r[l][b] == m[l][b]
  {
    m[p.left := m[p.left][p.bottom := m[p.left][p.bottom] + Entries(p, k)]]
  }

  /** The matrix built by inserting the plates in catalog order. */
  function MatchMatrix(defs: seq<Plate>): (m: Matrix)
    ensures Shaped(m)
  {
    if |defs| == 0 then EmptyMatrix()
    else Insert(MatchMatrix(defs[..|defs| - 1]), defs[|defs| - 1], |defs| - 1)
  }

  /** Every entry of cell (l, b) is a plate with Left l and Bottom b. */
  predicate EntriesMatch(m: Matrix, defs: seq<Plate>)
    requires Shaped(m)
  {
    forall l, b, j :: 0 <= l < 4 && 0 <= b < 4 && 0 <= j < |m[l][b]| ==>
      m[l][b][j] < |defs| && defs[m[l][b][j]].left == l && defs[m[l][b][j]].bottom == b
  }

  lemma {:induction false} MatchMatrixEntries(defs: seq<Plate>)
    ensures EntriesMatch(MatchMatrix(defs), defs)
  {
    if |defs| > 0 {
      var n := |defs| - 1;
      var prev := defs[..n];
      MatchMatrixEntries(prev);
      EntriesCount(defs[n], n);
      var m0, m := MatchMatrix(prev), MatchMatrix(defs);
      forall l, b, j | 0 <= l < 4 && 0 <= b < 4 && 0 <= j < |m[l][b]|
        ensures m[l][b][j] < |defs| && defs[m[l][b][j]].left == l && defs[m[l][b][j]].bottom == b
      {
        if j < |m0[l][b]| {
          assert m[l][b][j] == m0[l][b][j];
          assert defs[m0[l][b][j]] == prev[m0[l][b][j]];
        } else {
          assert m[l][b][j] == n;
        }
      }
    }
  }

  /** Each plate occurs in its own cell exactly Weight times (9 if full, 1
      otherwise) and in no other cell. */
  predicate Counted(m: Matrix, defs: seq<Plate>)
    requires Shaped(m)
  {
    forall l, b, k :: 0 <= l < 4 && 0 <= b < 4 && 0 <= k < |defs| ==>
      multiset(m[l][b])[k] == if defs[k].left == l && defs[k].bottom == b then Weight(defs[k]) else 0
  }

  lemma {:induction false} MatchMatrixCounts(defs: seq<Plate>)
    ensures Counted(MatchMatrix(defs), defs)
  {
    if |defs| > 0 {
      var n := |defs| - 1;
      var prev := defs[..n];
      MatchMatrixCounts(prev);
      MatchMatrixEntries(prev);
      EntriesCount(defs[n], n);
      var m0, m := MatchMatrix(prev), MatchMatrix(defs);
      forall l, b, k | 0 <= l < 4 && 0 <= b < 4 && 0 <= k < |defs|
        ensures multiset(m[l][b])[k] == if defs[k].left == l && defs[k].bottom == b then Weight(defs[k]) else 0
      {
        assert n !in m0[l][b] by {
          assert forall j :: 0 <= j < |m0[l][b]| ==> m0[l][b][j] < n;
        }
        if l == defs[n].left && b == defs[n].bottom {
          assert m[l][b] == m0[l][b] + Entries(defs[n], n);
          assert multiset(m[l][b]) == multiset(m0[l][b]) + multiset(Entries(defs[n], n));
          if k < n {
            assert defs[k] == prev[k];
            assert multiset(Entries(defs[n], n))[k] == 0;
          } else {
            assert multiset(Entries(defs[n], n))[k] == Weight(defs[n]);
          }
        } else {
          assert m[l][b] == m0[l][b];
          if k < n {
            assert defs[k] == prev[k];
          } else {
            assert k == n;
            assert !(defs[k].left == l && defs[k].bottom == b);
          }
        }
      }
    }
  }

  // -----------------------------------------------------------------------
  // Catalog (`plates_def` and `match_matrix_lb`)

  datatype Catalog = Catalog(defs: seq<Plate>, matrix: Matrix)
  {
    /** What `load_plates` maintains: decoded plates, and the matrix built
        from them. */
    predicate Valid() { AllWellFormed(defs) && matrix == MatchMatrix(defs) }

    /** What generation relies on: a 4 x 4 matrix whose every entry is a
        plate of the cell's Left and Bottom. */
    predicate Sound() { Shaped(matrix) && EntriesMatch(matrix, defs) }
  }

  lemma ValidIsSound(cat: Catalog)
    requires cat.Valid()
    ensures cat.Sound()
  {
    MatchMatrixEntries(cat.defs);
  }

  function EmptyCatalog(): (c: Catalog)
    ensures c.Valid() && c.defs == []
  {
    Catalog([], EmptyMatrix())
  }

  /** The plates of the atlas cells, in order. */
  function DecodeAll(cells: seq<Corners>): (r: seq<Plate>)
    ensures |r| == |cells| && forall i :: 0 <= i < |cells| ==> r[i] == Decode(cells[i])
  {
    seq(|cells|, i requires 0 <= i < |cells| => Decode(cells[i]))
  }

  /** `load_plates`: the 10 x 6 atlas cells, row by row, are decoded and
      appended to the catalog, each new plate entered in the matrix under
      its own Left and Bottom in the same order. */
  function LoadPlates(cat: Catalog, cells: seq<Corners>): (r: Catalog)
    requires cat.Valid() && |cells| == ATLAS_ROWS * ATLAS_COLS
    ensures r.Valid() && r.Sound()
    ensures r.defs == cat.defs + DecodeAll(cells)
  {
    var defs := cat.defs + DecodeAll(cells);
    DecodedWellFormed(cat.defs, cells);
    MatchMatrixEntries(defs);
    Catalog(defs, MatchMatrix(defs))
  }

  predicate AllWellFormed(defs: seq<Plate>)
  {
    forall k :: 0 <= k < |defs| ==> WellFormed(defs[k])
  }

  lemma DecodedWellFormed(defs: seq<Plate>, cells: seq<Corners>)
    requires AllWellFormed(defs)
    ensures AllWellFormed(defs + DecodeAll(cells))
  {
    var all := defs + DecodeAll(cells);
    forall k | 0 <= k < |all| ensures WellFormed(all[k]) {
      if k < |defs| {
        assert all[k] == defs[k];
      } else {
        DecodeSpec(cells[k - |defs|]);
      }
    }
  }

  /** Loading extends the previous matrix: every cell keeps its old
      entries as a prefix. */
  lemma {:induction false} MatchMatrixExtends(defs: seq<Plate>, more: seq<Plate>)
    ensures forall l, b :: 0 <= l < 4 && 0 <= b < 4 ==>
              MatchMatrix(defs)[l][b] <= MatchMatrix(defs + more)[l][b]
    decreases |more|
  {
    if |more| > 0 {
      var n := |more| - 1;
      MatchMatrixExtends(defs, more[..n]);
      assert (defs + more)[..|defs + more| - 1] == defs + more[..n];
    } else {
      assert defs + more == defs;
    }
  }

  // -----------------------------------------------------------------------
  // Ground grid

  type Grid = seq<seq<nat>>

  predicate RowOk(cat: Catalog, row: seq<nat>)
  {
    |row| == TX_OUT && forall x :: 0 <= x < |row| ==> row[x] < |cat.defs|
  }

  predicate GridOk(cat: Catalog, g: Grid)
  {
    |g| == TY_OUT && forall y :: 0 <= y < |g| ==> RowOk(cat, g[y])
  }

  /** Bottom of each cell of `upper` is Up of the cell below it. */
  predicate Stacked(cat: Catalog, upper: seq<nat>, lower: seq<nat>)
    requires RowOk(cat, upper) && RowOk(cat, lower)
  {
    forall x :: 0 <= x < TX_OUT ==> cat.defs[upper[x]].bottom == cat.defs[lower[x]].up
  }

  /** Each cell's Left is the Right of its left neighbour. */
  predicate Chained(cat: Catalog, row: seq<nat>)
    requires RowOk(cat, row)
  {
    forall x :: 0 < x < TX_OUT ==> cat.defs[row[x]].left == cat.defs[row[x - 1]].right
  }

  /** The row sits on an empty edge. */
  predicate Grounded(cat: Catalog, row: seq<nat>)
    requires RowOk(cat, row)
  {
    forall x :: 0 <= x < TX_OUT ==> cat.defs[row[x]].bottom == 0
  }

  /** Rows `k` and below agree along every shared edge. */
  predicate ConsistentFrom(cat: Catalog, g: Grid, k: int)
    requires GridOk(cat, g)
  {
    && (forall y :: k <= y < TY_OUT - 1 && 0 <= y ==> Stacked(cat, g[y], g[y + 1]))
    && (forall y :: k <= y < TY_OUT && 0 <= y ==> Chained(cat, g[y]))
  }

  predicate Consistent(cat: Catalog, g: Grid)
    requires GridOk(cat, g)
  {
    ConsistentFrom(cat, g, 0)
  }

  // -----------------------------------------------------------------------
  // Line generation (`generate_line`)

  /** Draws for one cell: the column-0 seed, the pick in the match list, the
      1-in-3 construct roll and the construct archetype. */
  datatype CellDraw = CellDraw(seed: nat, pick: nat, build: nat, kind: nat)

  /** A `constr_man.add(row, col)` request, with its archetype draw. */
  datatype Site = Site(row: nat, col: nat, kind: nat)

  datatype LineOut = LineOut(row: seq<nat>, sites: seq<Site>, misses: set<nat>)

  /** Some plate has Bottom `b`, i.e. some Left code has a non-empty list. */
  predicate HasBottom(cat: Catalog, b: Code)
    requires Shaped(cat.matrix)
  {
    exists l: Code :: |cat.matrix[l][b]| > 0
  }

  /** The Left codes the column-0 retry loop can exit with for bottom `b`. */
  function SeedsFrom(cat: Catalog, b: Code, l: nat): (r: seq<Code>)
    requires Shaped(cat.matrix) && l <= 4
    ensures forall v: Code :: v in r <==> l <= v && |cat.matrix[v][b]| > 0
    decreases 4 - l
  {
    if l == 4 then []
    else (if |cat.matrix[l][b]| > 0 then [l as Code] else []) + SeedsFrom(cat, b, l + 1)
  }

  /** Column-0 seeding: the source retries random Left codes until one has a
      plate with the required Bottom; the model draws directly among those
      codes. */
  function SeedLeft(cat: Catalog, b: Code, d: nat): (l: Code)
    requires Shaped(cat.matrix) && HasBottom(cat, b)
    ensures |cat.matrix[l][b]| > 0
  {
    var seeds := SeedsFrom(cat, b, 0);
    var w: Code :| |cat.matrix[w][b]| > 0;
    assert w in seeds;
    Pick(seeds, d)
  }

  /** Every Left code the retry loop could exit with is reachable by some
      draw, and each is the Left of an actual plate with Bottom `b`. */
  lemma SeedCovers(cat: Catalog, b: Code, l: Code)
    requires cat.Sound() && |cat.matrix[l][b]| > 0
    ensures exists d: nat :: SeedLeft(cat, b, d) == l
    ensures exists k :: 0 <= k < |cat.defs| && cat.defs[k].left == l && cat.defs[k].bottom == b
  {
    var seeds := SeedsFrom(cat, b, 0);
    assert l in seeds;
    var j :| 0 <= j < |seeds| && seeds[j] == l;
    PickReaches(seeds, j);
    assert SeedLeft(cat, b, j) == l;
    assert cat.matrix[l][b][0] < |cat.defs|;
  }

  /** The bottom constraint of each column of row `y`: the Up code of the
      plate below, or 0 on the last row. */
  function BottomCodes(cat: Catalog, g: Grid, y: nat): (r: seq<Code>)
    requires GridOk(cat, g) && y < TY_OUT
    ensures |r| == TX_OUT
    ensures y < TY_OUT - 1 ==> forall x :: 0 <= x < TX_OUT ==> r[x] == cat.defs[g[y + 1][x]].up
    ensures y == TY_OUT - 1 ==> forall x :: 0 <= x < TX_OUT ==> r[x] == 0
  {
    seq(TX_OUT, x requires 0 <= x < TX_OUT => if y < TY_OUT - 1 then cat.defs[g[y + 1][x]].up else 0)
  }

  /** Column x of `row` has the required Bottom and, past column 0, the Left
      its neighbour demands. */
  predicate Fits(cat: Catalog, bottoms: seq<Code>, row: seq<nat>, x: int)
    requires RowOk(cat, row) && |bottoms| == TX_OUT && 0 <= x < TX_OUT
  {
    cat.defs[row[x]].bottom == bottoms[x] && (x > 0 ==> cat.defs[row[x]].left == cat.defs[row[x - 1]].right)
  }

  /** No plate matches the Right of column x-1 and the Bottom of column x. */
  predicate Blocked(cat: Catalog, bottoms: seq<Code>, row: seq<nat>, x: int)
    requires Shaped(cat.matrix) && RowOk(cat, row) && |bottoms| == TX_OUT && 0 < x < TX_OUT
  {
    |cat.matrix[cat.defs[row[x - 1]].right][bottoms[x]]| == 0
  }

  /** A construct request on a full plate of row `y`. */
  predicate RowSite(cat: Catalog, row: seq<nat>, y: nat, s: Site)
    requires RowOk(cat, row)
  {
    s.row == y && s.col < TX_OUT && cat.defs[row[s.col]].sum == 4
  }

  /** What the column loop has established for columns before `i`. */
  predicate LineInv(cat: Catalog, bottoms: seq<Code>, y: nat, i: nat, row: seq<nat>, sites: seq<Site>, misses: set<nat>)
    requires Shaped(cat.matrix) && RowOk(cat, row) && |bottoms| == TX_OUT && i <= TX_OUT
  {
    && (forall x :: x in misses ==> 0 < x < i)
    && (forall x :: 0 <= x < i && x !in misses ==> Fits(cat, bottoms, row, x))
    && (forall x :: 0 < x < i ==> (x in misses <==> Blocked(cat, bottoms, row, x)))
    && (forall j :: 0 <= j < |sites| ==> RowSite(cat, row, y, sites[j]) && sites[j].col < i && sites[j].col !in misses)
  }

  /** Placing plate `p` in column `i` keeps the loop's invariant when `p`
      has the required Bottom and Left; a site may be added only on a full
      plate. */
  lemma PlaceStep(cat: Catalog, bottoms: seq<Code>, y: nat, i: nat, row: seq<nat>, sites: seq<Site>,
                  misses: set<nat>, p: nat, sites': seq<Site>, kind: nat)
    requires cat.Sound() && RowOk(cat, row) && |bottoms| == TX_OUT && i < TX_OUT
    requires LineInv(cat, bottoms, y, i, row, sites, misses)
    requires p < |cat.defs| && cat.defs[p].bottom == bottoms[i]
    requires i > 0 ==> cat.defs[p].left == cat.defs[row[i - 1]].right && !Blocked(cat, bottoms, row, i)
    requires sites' == sites || (cat.defs[p].sum == 4 && sites' == sites + [Site(y, i, kind)])
    ensures RowOk(cat, row[i := p]) && LineInv(cat, bottoms, y, i + 1, row[i := p], sites', misses)
  {
    var row' := row[i := p];
    forall x | 0 <= x < i && x !in misses ensures Fits(cat, bottoms, row', x) {
      assert Fits(cat, bottoms, row, x);
    }
    assert Fits(cat, bottoms, row', i);
    forall x | 0 < x <= i ensures x in misses <==> Blocked(cat, bottoms, row', x) {
      if x < i {
        assert Blocked(cat, bottoms, row', x) == Blocked(cat, bottoms, row, x);
      }
    }
  }

  /** Leaving a blocked column `i` unchanged and recording the miss keeps
      the loop's invariant. */
  lemma MissStep(cat: Catalog, bottoms: seq<Code>, y: nat, i: nat, row: seq<nat>, sites: seq<Site>, misses: set<nat>)
    requires cat.Sound() && RowOk(cat, row) && |bottoms| == TX_OUT && 0 < i < TX_OUT
    requires LineInv(cat, bottoms, y, i, row, sites, misses) && Blocked(cat, bottoms, row, i)
    ensures LineInv(cat, bottoms, y, i + 1, row, sites, misses + {i})
  {
  }

  /** The column loop of `generate_line` from column `i` on. A column whose
      match list is empty keeps its plate and is recorded as a miss (the
      source prints a warning). */
  function GenCells(cat: Catalog, bottoms: seq<Code>, y: nat, draws: seq<CellDraw>,
                    i: nat, row: seq<nat>, sites: seq<Site>, misses: set<nat>): (r: LineOut)
    requires cat.Sound() && RowOk(cat, row) && i <= TX_OUT
    requires |bottoms| == TX_OUT && |draws| == TX_OUT && HasBottom(cat, bottoms[0])
    requires LineInv(cat, bottoms, y, i, row, sites, misses)
    ensures RowOk(cat, r.row) && LineInv(cat, bottoms, y, TX_OUT, r.row, r.sites, r.misses)
    ensures forall x :: 0 <= x < i ==> r.row[x] == row[x] && (x in r.misses <==> x in misses)
    ensures forall x :: x in r.misses ==> r.row[x] == row[x]
    decreases TX_OUT - i
  {
    if i == TX_OUT then LineOut(row, sites, misses)
    else
      var b := bottoms[i];
      var l := if i > 0 then cat.defs[row[i - 1]].right else SeedLeft(cat, b, draws[i].seed);
      var mat := cat.matrix[l][b];
      if |mat| > 0 then
        var p := Pick(mat, draws[i].pick);
        var build := cat.defs[p].sum == 4 && RandInt(draws[i].build, 0, 2) == 0;
        var sites' := if build then sites + [Site(y, i, draws[i].kind)] else sites;
        PlaceStep(cat, bottoms, y, i, row, sites, misses, p, sites', draws[i].kind);
        GenCells(cat, bottoms, y, draws, i + 1, row[i := p], sites', misses)
      else
        MissStep(cat, bottoms, y, i, row, sites, misses);
        GenCells(cat, bottoms, y, draws, i + 1, row, sites, misses + {i})
  }

  /** `generate_line(y)`: every column whose match list is non-empty gets a
      plate whose Bottom is the Up of the plate below (0 on the last row) and
      whose Left is the Right of its left neighbour; column 0 never misses,
      a column misses exactly when no plate fits its neighbour and bottom,
      and a missed column keeps its plate; constructs are requested only on
      full plates of this row. */
  function GenLine(cat: Catalog, g: Grid, y: nat, draws: seq<CellDraw>): (r: LineOut)
    requires cat.Sound() && GridOk(cat, g) && y < TY_OUT && |draws| == TX_OUT
    requires HasBottom(cat, BottomCodes(cat, g, y)[0])
    ensures RowOk(cat, r.row)
    ensures forall j :: 0 <= j < |r.sites| ==> RowSite(cat, r.row, y, r.sites[j]) && r.sites[j].col !in r.misses
    ensures forall x :: x in r.misses ==> 0 < x < TX_OUT && r.row[x] == g[y][x]
  {
    GenCells(cat, BottomCodes(cat, g, y), y, draws, 0, g[y], [], {})
  }

  /** The column loop's invariant holds of the finished line. */
  lemma GenLineInv(cat: Catalog, g: Grid, y: nat, draws: seq<CellDraw>)
    requires cat.Sound() && GridOk(cat, g) && y < TY_OUT && |draws| == TX_OUT
    requires HasBottom(cat, BottomCodes(cat, g, y)[0])
    ensures var r := GenLine(cat, g, y, draws);
            RowOk(cat, r.row) && LineInv(cat, BottomCodes(cat, g, y), y, TX_OUT, r.row, r.sites, r.misses)
  {
  }

  /** A finished line without a miss chains left to right and every cell
      has its required Bottom. */
  lemma NoMissFits(cat: Catalog, bottoms: seq<Code>, y: nat, row: seq<nat>, sites: seq<Site>)
    requires cat.Sound() && RowOk(cat, row) && |bottoms| == TX_OUT
    requires LineInv(cat, bottoms, y, TX_OUT, row, sites, {})
    ensures Chained(cat, row)
    ensures forall x :: 0 <= x < TX_OUT ==> cat.defs[row[x]].bottom == bottoms[x]
  {
    forall x | 0 < x < TX_OUT ensures cat.defs[row[x]].left == cat.defs[row[x - 1]].right {
      assert Fits(cat, bottoms, row, x);
    }
    forall x | 0 <= x < TX_OUT ensures cat.defs[row[x]].bottom == bottoms[x] {
      assert Fits(cat, bottoms, row, x);
    }
  }

  /** A line generated without a miss chains left to right and sits on the
      row below (or on an empty edge at the bottom). */
  lemma GenLineFits(cat: Catalog, g: Grid, y: nat, draws: seq<CellDraw>)
    requires cat.Sound() && GridOk(cat, g) && y < TY_OUT && |draws| == TX_OUT
    requires HasBottom(cat, BottomCodes(cat, g, y)[0])
    ensures var r := GenLine(cat, g, y, draws);
            r.misses == {} ==>
            Chained(cat, r.row) &&
            (y < TY_OUT - 1 ==> Stacked(cat, r.row, g[y + 1])) &&
            (y == TY_OUT - 1 ==> Grounded(cat, r.row))
  {
    var r := GenLine(cat, g, y, draws);
    GenLineInv(cat, g, y, draws);
    if r.misses == {} {
      NoMissFits(cat, BottomCodes(cat, g, y), y, r.row, r.sites);
    }
  }

  /** Every Left/Bottom pair has a plate. */
  predicate Complete(cat: Catalog)
    requires Shaped(cat.matrix)
  {
    forall l: Code, b: Code :: |cat.matrix[l][b]| > 0
  }

  /** With a complete catalog no column ever misses. */
  lemma CompleteNeverMisses(cat: Catalog, g: Grid, y: nat, draws: seq<CellDraw>)
    requires cat.Sound() && GridOk(cat, g) && y < TY_OUT && |draws| == TX_OUT
    requires HasBottom(cat, BottomCodes(cat, g, y)[0]) && Complete(cat)
    ensures GenLine(cat, g, y, draws).misses == {}
  {
    var r := GenLine(cat, g, y, draws);
    var bottoms := BottomCodes(cat, g, y);
    GenLineInv(cat, g, y, draws);
    forall x | 0 < x < TX_OUT ensures x !in r.misses {
      assert !Blocked(cat, bottoms, r.row, x);
    }
  }

  /** The retry loop of column 0 ends for every Up code it can meet. */
  predicate Seedable(cat: Catalog)
    requires Shaped(cat.matrix)
  {
    && HasBottom(cat, 0)
    && forall k :: 0 <= k < |cat.defs| ==> HasBottom(cat, cat.defs[k].up)
  }

  lemma SeedableRow(cat: Catalog, g: Grid, y: nat)
    requires cat.Sound() && Seedable(cat) && GridOk(cat, g) && y < TY_OUT
    ensures HasBottom(cat, BottomCodes(cat, g, y)[0])
  {
    if y < TY_OUT - 1 {
      assert g[y + 1][0] < |cat.defs|;
    }
  }

  // -----------------------------------------------------------------------
  // Whole-field generation (`generate`, `generate_empty`)

  datatype Ground = Ground(grid: Grid, sites: seq<Site>, warned: bool)

  /** Every requested site is a full plate of rows `k` and below. */
  predicate SitesOk(cat: Catalog, g: Grid, k: nat, sites: seq<Site>)
    requires GridOk(cat, g)
  {
    forall j :: 0 <= j < |sites| ==> k <= sites[j].row < TY_OUT && RowSite(cat, g[sites[j].row], sites[j].row, sites[j])
  }

  /** Writing row `y` keeps the sites below it and adds the row's own. */
  lemma SetRowSites(cat: Catalog, g: Grid, y: nat, row: seq<nat>, sites: seq<Site>, more: seq<Site>)
    requires GridOk(cat, g) && y < TY_OUT && RowOk(cat, row) && SitesOk(cat, g, y + 1, sites)
    requires forall j :: 0 <= j < |more| ==> RowSite(cat, row, y, more[j])
    ensures GridOk(cat, g[y := row]) && SitesOk(cat, g[y := row], y, sites + more)
  {
  }

  /** Writing a chained row `y` that sits on row `y + 1` over rows that
      already agree extends the agreement to row `y`; the bottom row stays
      on an empty edge. */
  lemma SetRowConsistent(cat: Catalog, g: Grid, y: nat, row: seq<nat>)
    requires GridOk(cat, g) && y < TY_OUT && RowOk(cat, row) && ConsistentFrom(cat, g, y + 1)
    requires Chained(cat, row) && (y < TY_OUT - 1 ==> Stacked(cat, row, g[y + 1]))
    requires if y < TY_OUT - 1 then Grounded(cat, g[TY_OUT - 1]) else Grounded(cat, row)
    ensures GridOk(cat, g[y := row]) && ConsistentFrom(cat, g[y := row], y)
    ensures Grounded(cat, g[y := row][TY_OUT - 1])
  {
    var g' := g[y := row];
    assert g'[TY_OUT - 1] == if y < TY_OUT - 1 then g[TY_OUT - 1] else row;
    forall z | y <= z < TY_OUT - 1 ensures Stacked(cat, g'[z], g'[z + 1]) {
      if z > y {
        assert Stacked(cat, g[z], g[z + 1]);
      }
    }
    forall z | y <= z < TY_OUT ensures Chained(cat, g'[z]) {
      if z > y {
        assert Chained(cat, g[z]);
      }
    }
  }

  /** One iteration of `generate`: row `y` is generated against row
      `y + 1`, its sites are added and a miss raises the warning. Only row
      `y` changes; with a complete catalog the warning never rises; without
      a miss, agreement of the rows below extends to row `y`. */
  function GenRow(cat: Catalog, g: Grid, y: nat, draws: seq<CellDraw>, sites: seq<Site>, warned: bool): (r: Ground)
    requires cat.Sound() && Seedable(cat) && GridOk(cat, g) && y < TY_OUT && |draws| == TX_OUT
    requires SitesOk(cat, g, y + 1, sites)
    ensures GridOk(cat, r.grid) && SitesOk(cat, r.grid, y, r.sites)
    ensures r.grid == g[y := r.grid[y]]
    ensures warned ==> r.warned
    ensures Complete(cat) ==> r.warned == warned
    ensures !r.warned && ConsistentFrom(cat, g, y + 1) && (y < TY_OUT - 1 ==> Grounded(cat, g[TY_OUT - 1])) ==>
              ConsistentFrom(cat, r.grid, y) && Grounded(cat, r.grid[TY_OUT - 1])
  {
    SeedableRow(cat, g, y);
    var line := GenLine(cat, g, y, draws);
    SetRowSites(cat, g, y, line.row, sites, line.sites);
    assert Complete(cat) ==> line.misses == {} by {
      if Complete(cat) {
        CompleteNeverMisses(cat, g, y, draws);
      }
    }
    assert line.misses == {} && ConsistentFrom(cat, g, y + 1) && (y < TY_OUT - 1 ==> Grounded(cat, g[TY_OUT - 1])) ==>
             ConsistentFrom(cat, g[y := line.row], y) && Grounded(cat, g[y := line.row][TY_OUT - 1]) by {
      if line.misses == {} && ConsistentFrom(cat, g, y + 1) && (y < TY_OUT - 1 ==> Grounded(cat, g[TY_OUT - 1])) {
        GenLineFits(cat, g, y, draws);
        SetRowConsistent(cat, g, y, line.row);
      }
    }
    Ground(g[y := line.row], sites + line.sites, warned || line.misses != {})
  }

  /** Generates rows k-1 down to 0. */
  function GenRows(cat: Catalog, g: Grid, k: nat, draws: seq<seq<CellDraw>>, sites: seq<Site>, warned: bool): (r: Ground)
    requires cat.Sound() && Seedable(cat) && GridOk(cat, g) && k <= TY_OUT
    requires |draws| == TY_OUT && forall j :: 0 <= j < TY_OUT ==> |draws[j]| == TX_OUT
    requires SitesOk(cat, g, k, sites)
    ensures GridOk(cat, r.grid) && SitesOk(cat, r.grid, 0, r.sites)
    ensures r.grid[k..] == g[k..]
    ensures warned ==> r.warned
    ensures Complete(cat) ==> r.warned == warned
    ensures !r.warned && ConsistentFrom(cat, g, k) && (k < TY_OUT ==> Grounded(cat, g[TY_OUT - 1])) ==>
              Consistent(cat, r.grid) && Grounded(cat, r.grid[TY_OUT - 1])
    decreases k
  {
    if k == 0 then Ground(g, sites, warned)
    else
      var row := GenRow(cat, g, k - 1, draws[k - 1], sites, warned);
      var r := GenRows(cat, row.grid, k - 1, draws, row.sites, row.warned);
      assert r.grid[k..] == r.grid[k - 1..][1..] == row.grid[k - 1..][1..];
      assert row.grid[k..] == g[k..];
      r
  }

  /** `generate`: fills rows 10 down to 0. Without a warning every pair of
      adjacent cells agrees along its shared edge and the bottom row sits on
      an empty edge; a complete catalog never warns; constructs are requested
      only on full plates. */
  function Generate(cat: Catalog, g: Grid, draws: seq<seq<CellDraw>>): (r: Ground)
    requires cat.Sound() && Seedable(cat) && GridOk(cat, g)
    requires |draws| == TY_OUT && forall j :: 0 <= j < TY_OUT ==> |draws[j]| == TX_OUT
    ensures GridOk(cat, r.grid) && SitesOk(cat, r.grid, 0, r.sites)
    ensures !r.warned ==> Consistent(cat, r.grid) && Grounded(cat, r.grid[TY_OUT - 1])
    ensures Complete(cat) ==> !r.warned
  {
    assert ConsistentFrom(cat, g, TY_OUT);
    GenRows(cat, g, TY_OUT, draws, [], false)
  }

  /** `generate_empty`: every cell holds the first plate listed under
      Left 0 / Bottom 0. */
  function GenerateEmpty(cat: Catalog): (g: Grid)
    requires cat.Sound() && |cat.matrix[0][0]| > 0
    ensures GridOk(cat, g)
    ensures forall y, x :: 0 <= y < TY_OUT && 0 <= x < TX_OUT ==>
              g[y][x] == cat.matrix[0][0][0] && cat.defs[g[y][x]].left == 0 && cat.defs[g[y][x]].bottom == 0
  {
    var k := cat.matrix[0][0][0];
    seq(TY_OUT, y => seq(TX_OUT, x => k))
  }

  /** If that first plate is the blank one, the empty field is consistent. */
  lemma EmptyFieldConsistent(cat: Catalog)
    requires cat.Sound() && |cat.matrix[0][0]| > 0
    requires cat.defs[cat.matrix[0][0][0]] == Plate(0, 0, 0, 0, 0)
    ensures Consistent(cat, GenerateEmpty(cat)) && Grounded(cat, GenerateEmpty(cat)[TY_OUT - 1])
  {
    var g := GenerateEmpty(cat);
    forall y | 0 <= y < TY_OUT - 1 ensures Stacked(cat, g[y], g[y + 1]) {
    }
    forall y | 0 <= y < TY_OUT ensures Chained(cat, g[y]) {
    }
  }

  // -----------------------------------------------------------------------
  // Scrolling and ticking (`scroll`, `tick`)

  datatype PlatesMan = PlatesMan(cat: Catalog, grid: Grid, offsetY: int, constrs: seq<Constructs.Constr>)
  {
    predicate Valid() {
      && cat.Sound() && Seedable(cat) && GridOk(cat, grid)
      && 0 <= offsetY < TILE
      && Constructs.AllValid(constrs)
    }
  }

  /** Rows move down one; row 0 keeps its plates until it is regenerated. */
  function ShiftDown(g: Grid): (r: Grid)
    requires |g| == TY_OUT
    ensures |r| == TY_OUT && r[0] == g[0]
    ensures forall y :: 1 <= y < TY_OUT ==> r[y] == g[y - 1]
  {
    [g[0]] + g[..TY_OUT - 1]
  }

  /** `constr_man.add` for every requested site, in order. */
  function AddSites(cs: seq<Constructs.Constr>, sites: seq<Site>): (r: seq<Constructs.Constr>)
    requires Constructs.AllValid(cs)
    ensures Constructs.AllValid(r) && |r| == |cs| + |sites| && r[..|cs|] == cs
    ensures forall j :: 0 <= j < |sites| ==>
              && r[|cs| + j].row == sites[j].row && r[|cs| + j].col == sites[j].col
              && r[|cs| + j].yPos == sites[j].row * TILE && r[|cs| + j].xPos == sites[j].col * TILE
    decreases |sites|
  {
    if |sites| == 0 then cs
    else
      var cs' := Constructs.Add(cs, sites[0].row, sites[0].col, sites[0].kind);
      var r := AddSites(cs', sites[1..]);
      assert r[..|cs|] == r[..|cs'|][..|cs|];
      r
  }

  datatype Scrolled = Scrolled(pm: PlatesMan, warned: bool)

  /** Shifting an agreeing grid down and writing a chained row 0 that sits
      on the old row 0 keeps the whole grid agreeing. */
  lemma ShiftConsistent(cat: Catalog, g: Grid, row: seq<nat>)
    requires GridOk(cat, g) && Consistent(cat, g) && RowOk(cat, row)
    requires Chained(cat, row) && Stacked(cat, row, g[0])
    ensures GridOk(cat, ShiftDown(g)[0 := row]) && Consistent(cat, ShiftDown(g)[0 := row])
  {
    var g' := ShiftDown(g)[0 := row];
    forall y | 0 <= y < TY_OUT - 1 ensures Stacked(cat, g'[y], g'[y + 1]) {
      if y > 0 {
        assert Stacked(cat, g[y - 1], g[y]);
      }
    }
    forall y | 0 <= y < TY_OUT ensures Chained(cat, g'[y]) {
      if y > 0 {
        assert Chained(cat, g[y - 1]);
      }
    }
  }

  /** The ground half of `scroll`: shift the grid down a row and
      regenerate row 0 against the new row 1. Every old row moves down one
      and the last drops off; sites are full plates of row 0; a complete
      catalog never misses. */
  function ScrollGrid(cat: Catalog, g: Grid, draws: seq<CellDraw>): (r: Ground)
    requires cat.Sound() && Seedable(cat) && GridOk(cat, g) && |draws| == TX_OUT
    ensures GridOk(cat, r.grid) && SitesOk(cat, r.grid, 0, r.sites)
    ensures r.grid[1..] == g[..TY_OUT - 1]
    ensures forall j :: 0 <= j < |r.sites| ==> r.sites[j].row == 0 && RowSite(cat, r.grid[0], 0, r.sites[j])
    ensures Complete(cat) ==> !r.warned
    ensures !r.warned && Consistent(cat, g) ==> Consistent(cat, r.grid)
  {
    var g' := ShiftDown(g);
    SeedableRow(cat, g', 0);
    var line := GenLine(cat, g', 0, draws);
    assert Complete(cat) ==> line.misses == {} by {
      if Complete(cat) {
        CompleteNeverMisses(cat, g', 0, draws);
      }
    }
    assert line.misses == {} && Consistent(cat, g) ==> Consistent(cat, g'[0 := line.row]) by {
      if line.misses == {} && Consistent(cat, g) {
        GenLineFits(cat, g', 0, draws);
        assert g'[1] == g[0];
        ShiftConsistent(cat, g, line.row);
      }
    }
    SetRowSites(cat, g', 0, line.row, [], line.sites);
    Ground(g'[0 := line.row], line.sites, line.misses != {})
  }

  /** `scroll`: the ground scrolls, the constructs scroll, then the
      constructs requested by the new row are added (see `ScrollConstructs`
      for their order). */
  function Scroll(pm: PlatesMan, draws: seq<CellDraw>): (r: Scrolled)
    requires pm.Valid() && |draws| == TX_OUT
    ensures r.pm.Valid() && r.pm.cat == pm.cat && r.pm.offsetY == pm.offsetY
    ensures r.pm.grid == ScrollGrid(pm.cat, pm.grid, draws).grid
    ensures r.warned == ScrollGrid(pm.cat, pm.grid, draws).warned
    ensures !r.warned && Consistent(pm.cat, pm.grid) ==> Consistent(r.pm.cat, r.pm.grid)
  {
    var sg := ScrollGrid(pm.cat, pm.grid, draws);
    Scrolled(pm.(grid := sg.grid, constrs := AddSites(Constructs.Scroll(pm.constrs), sg.sites)), sg.warned)
  }

  /** The constructs after `scroll`: the old ones are lowered and evicted
      first and keep their order; the new ones follow, one per requested
      site of the new row 0, on row 0 and not lowered, at screen Y 0 and at
      the screen X of their column. */
  lemma ScrollConstructs(pm: PlatesMan, draws: seq<CellDraw>)
    requires pm.Valid() && |draws| == TX_OUT
    ensures var cs, kept, sites := Scroll(pm, draws).pm.constrs, Constructs.Scroll(pm.constrs),
                                   ScrollGrid(pm.cat, pm.grid, draws).sites;
            && |cs| == |kept| + |sites| && cs[..|kept|] == kept
            && forall k :: |kept| <= k < |cs| ==>
                 && cs[k].row == 0 && cs[k].col == sites[k - |kept|].col
                 && cs[k].yPos == 0 && cs[k].xPos == sites[k - |kept|].col * TILE
  {
    var sg := ScrollGrid(pm.cat, pm.grid, draws);
    AddSitesOnTop(Constructs.Scroll(pm.constrs), sg.sites);
  }

  /** Sites of row 0 are added after the kept constructs, on row 0 at
      screen Y 0 and at the screen X of their column. */
  lemma AddSitesOnTop(kept: seq<Constructs.Constr>, sites: seq<Site>)
    requires Constructs.AllValid(kept) && forall j :: 0 <= j < |sites| ==> sites[j].row == 0
    ensures var cs := AddSites(kept, sites);
            && |cs| == |kept| + |sites| && cs[..|kept|] == kept
            && forall k :: |kept| <= k < |cs| ==>
                 && cs[k].row == 0 && cs[k].col == sites[k - |kept|].col
                 && cs[k].yPos == 0 && cs[k].xPos == sites[k - |kept|].col * TILE
  {
    var cs := AddSites(kept, sites);
    forall k | |kept| <= k < |cs|
      ensures && cs[k].row == 0 && cs[k].col == sites[k - |kept|].col
              && cs[k].yPos == 0 && cs[k].xPos == sites[k - |kept|].col * TILE
    {
      var j := k - |kept|;
      assert sites[j].row == 0;
      assert cs[|kept| + j].yPos == sites[j].row * TILE;
    }
  }

  datatype Ticked = Ticked(pm: PlatesMan, scrolled: bool, warned: bool)

  /** `tick`: the offset advances one pixel; on reaching a tile it resets
      and the ground scrolls, otherwise the constructs tick with the new
      offset (they are not ticked on the scrolling tick). */
  function Tick(pm: PlatesMan, draws: seq<CellDraw>): (r: Ticked)
    requires pm.Valid() && |draws| == TX_OUT
    ensures r.pm.Valid() && r.pm.cat == pm.cat
    ensures r.pm.offsetY == (pm.offsetY + 1) % TILE
    ensures r.scrolled <==> pm.offsetY == TILE - 1
    ensures !r.scrolled ==> !r.warned && r.pm.grid == pm.grid && r.pm.constrs == Constructs.Tick(pm.constrs, r.pm.offsetY)
    ensures r.scrolled ==> r.pm == Scroll(pm.(offsetY := 0), draws).pm && r.warned == Scroll(pm.(offsetY := 0), draws).warned
    ensures !r.warned && Consistent(pm.cat, pm.grid) ==> Consistent(r.pm.cat, r.pm.grid)
  {
    var o := pm.offsetY + 1;
    DivModUnique(o, TILE, if o == TILE then 1 else 0, if o == TILE then 0 else o);
    if o >= TILE then
      var s := Scroll(pm.(offsetY := 0), draws);
      Ticked(s.pm, true, s.warned)
    else
      Ticked(pm.(offsetY := o, constrs := Constructs.Tick(pm.constrs, o)), false, false)
  }

  /** One tick per entry of `draws` (the last entry drives the last tick);
      returns the final state and the number of scrolls. */
  function TickRun(pm: PlatesMan, draws: seq<seq<CellDraw>>): (r: (PlatesMan, nat))
    requires pm.Valid() && forall j :: 0 <= j < |draws| ==> |draws[j]| == TX_OUT
    ensures r.0.Valid() && r.0.cat == pm.cat
    decreases |draws|
  {
    if |draws| == 0 then (pm, 0)
    else
      var prev := TickRun(pm, draws[..|draws| - 1]);
      var t := Tick(prev.0, draws[|draws| - 1]);
      (t.pm, prev.1 + (if t.scrolled then 1 else 0))
  }

  /** Over n ticks the ground scrolls exactly (offset + n) div 64 times and
      the offset ends at (offset + n) mod 64: once every 64 ticks. */
  lemma {:induction false} ScrollEvery64(pm: PlatesMan, draws: seq<seq<CellDraw>>)
    requires pm.Valid() && forall j :: 0 <= j < |draws| ==> |draws[j]| == TX_OUT
    ensures TickRun(pm, draws).1 == (pm.offsetY + |draws|) / TILE
    ensures TickRun(pm, draws).0.offsetY == (pm.offsetY + |draws|) % TILE
    decreases |draws|
  {
    if |draws| == 0 {
      DivModUnique(pm.offsetY, TILE, 0, pm.offsetY);
    } else {
      ScrollEvery64(pm, draws[..|draws| - 1]);
      DivModSucc(pm.offsetY + |draws| - 1, TILE);
    }
  }
}
