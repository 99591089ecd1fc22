/** The board as a value: cells, the pure helpers of the board manager
    (`generateInitialBoardState`, `canSpawn`, `resetDidMerge`, the write of a
    spawned tile) and the sums over the board that the proofs about `move`
    are stated with. */
module BoardState {
  import opened Geometry

  /** One board position. `value` 0 stands for the source's `number: null`
      (no tile); `didMerge` is set on the cell a merge wrote into. */
  datatype Cell = Cell(value: nat, didMerge: bool)

  /** The 4 by 4 board in row-major order, the order in which `move` visits
      it: cell (r, c) is at index 4 * r + c. */
  type Board = seq<Cell>

  predicate IsBoard(b: Board) {
    |b| == CellCount
  }

  /** Index of cell (r, c) in row-major order. */
  function Index(r: int, c: int): int {
    4 * r + c
  }

  /** Row and column of the cell at index k. */
  function RowAt(k: int): int { k / 4 }
  function ColAt(k: int): int { k % 4 }

  lemma IndexPosition(r: int, c: int)
    requires InBounds(r, c)
    ensures 0 <= Index(r, c) < CellCount && RowAt(Index(r, c)) == r && ColAt(Index(r, c)) == c
  {
  }

  lemma PositionIndex(k: int)
    requires 0 <= k < CellCount
    ensures InBounds(RowAt(k), ColAt(k)) && Index(RowAt(k), ColAt(k)) == k
  {
  }

  predicate IsFree(b: Board, p: (int, int))
    requires IsBoard(b) && InBounds(p.0, p.1)
  {
    b[Index(p.0, p.1)].value == 0
  }

  // ---------------------------------------------------------------------------
  // generateInitialBoardState

  /** A fresh board of the requested shape, as rows of columns: every cell
      empty and unmerged. */
  function GenerateInitialBoardState(rows: nat, columns: nat): (g: seq<seq<Cell>>)
    ensures |g| == rows
    ensures forall i :: 0 <= i < rows ==> |g[i]| == columns
    ensures forall i, j :: 0 <= i < rows && 0 <= j < columns ==> g[i][j] == Cell(0, false)
  {
    seq(rows, i => seq(columns, j => Cell(0, false)))
  }

  /** Rows of columns of the game's shape read off in row-major order. */
  function RowMajor(g: seq<seq<Cell>>): (b: Board)
    requires |g| == Size && forall i :: 0 <= i < Size ==> |g[i]| == Size
    ensures IsBoard(b)
    ensures forall r, c :: InBounds(r, c) ==> b[Index(r, c)] == g[r][c]
  {
    var b := seq(CellCount, k requires 0 <= k < CellCount => g[RowAt(k)][ColAt(k)]);
    assert forall r, c :: InBounds(r, c) ==> b[Index(r, c)] == g[r][c] by {
      forall r, c | InBounds(r, c) ensures b[Index(r, c)] == g[r][c] {
        IndexPosition(r, c);
      }
    }
    b
  }

  /** The board the game starts from: 16 empty, unmerged cells. */
  function InitialBoard(): (b: Board)
    ensures IsBoard(b)
  {
    seq(CellCount, k => Cell(0, false))
  }

  /** The fresh 4 by 4 board of `generateInitialBoardState(rows, columns)`,
      read off in row-major order, is the board the game starts from. */
  lemma GeneratedIsInitial()
    ensures RowMajor(GenerateInitialBoardState(Size, Size)) == InitialBoard()
  {
    var g := GenerateInitialBoardState(Size, Size);
    var b := RowMajor(g);
    forall k | 0 <= k < CellCount ensures b[k] == InitialBoard()[k] {
      PositionIndex(k);
    }
  }

  // ---------------------------------------------------------------------------
  // canSpawn

  /** `state.some(row => row.some(col => col.number === null))`, taken over
      the cells in row-major order. */
  function CanSpawn(b: seq<Cell>): (ok: bool)
    ensures ok <==> exists k :: 0 <= k < |b| && b[k].value == 0
  {
    if b == [] then false
    else if b[0].value == 0 then true
    else
      var rest := CanSpawn(b[1..]);
      assert rest ==> exists k :: 0 <= k < |b| && b[k].value == 0 by {
        if rest {
          var k :| 0 <= k < |b[1..]| && b[1..][k].value == 0;
          assert b[k + 1] == b[1..][k];
        }
      }
      assert (exists k :: 0 <= k < |b| && b[k].value == 0) ==> rest by {
        if exists k :: 0 <= k < |b| && b[k].value == 0 {
          var k :| 0 <= k < |b| && b[k].value == 0;
          assert k > 0 && b[1..][k - 1] == b[k];
        }
      }
      rest
  }

  // ---------------------------------------------------------------------------
  // resetDidMerge

  /** Every cell copied with `didMerge: false`. */
  function ResetDidMerge(b: Board): (h: Board)
    ensures |h| == |b|
    ensures forall k :: 0 <= k < |b| ==> h[k].value == b[k].value && !h[k].didMerge
  {
    seq(|b|, k requires 0 <= k < |b| => b[k].(didMerge := false))
  }

  // ---------------------------------------------------------------------------
  // Spawning

  /** One draw of the random spawn position: `Math.floor(Math.random() * 4)`
      for the row and again for the column, so always on the board. */
  type Pick = p: (int, int) | InBounds(p.0, p.1) witness (0, 0)

  /** Some draw of the sequence lands on an empty cell. */
  predicate HasFreePick(b: Board, picks: seq<Pick>)
    requires IsBoard(b)
  {
    exists i :: 0 <= i < |picks| && IsFree(b, picks[i])
  }

  /** A fair random source: every position is drawn at some point. */
  ghost predicate Covers(picks: seq<Pick>) {
    forall p: Pick :: p in picks
  }

  /** Index of the draw at which the retrying spawn stops: the first one on
      an empty cell. */
  function FirstFreePick(b: Board, picks: seq<Pick>): (i: nat)
    requires IsBoard(b) && HasFreePick(b, picks)
    ensures i < |picks| && IsFree(b, picks[i])
    ensures forall j :: 0 <= j < i ==> !IsFree(b, picks[j])
  {
    if IsFree(b, picks[0]) then 0
    else
      assert HasFreePick(b, picks[1..]) by {
        var i :| 0 <= i < |picks| && IsFree(b, picks[i]);
        assert i > 0 && picks[1..][i - 1] == picks[i];
      }
      var i := FirstFreePick(b, picks[1..]);
      assert forall j :: 1 <= j < i + 1 ==> picks[j] == picks[1..][j - 1];
      i + 1
  }

  /** A fair source lands on an empty cell whenever the board has one. */
  lemma CoversFindsFree(b: Board, picks: seq<Pick>)
    requires IsBoard(b) && Covers(picks) && CanSpawn(b)
    ensures HasFreePick(b, picks)
  {
    var k :| 0 <= k < |b| && b[k].value == 0;
    PositionIndex(k);
    var p: Pick := (RowAt(k), ColAt(k));
    assert p in picks;
    var i :| 0 <= i < |picks| && picks[i] == p;
    assert IsFree(b, picks[i]);
  }

  /** `state[r][c] = {...state[r][c], number: 2}`. */
  function SpawnAt(b: Board, p: Pick): (h: Board)
    requires IsBoard(b)
    ensures IsBoard(h)
  {
    var k := Index(p.0, p.1);
    IndexPosition(p.0, p.1);
    b[k := b[k].(value := 2)]
  }

  /** What `spawnOnRandomFreeSpot` makes of a board, given the draws: a 2
      on the first drawn cell that is empty. */
  function SpawnOnFreeSpot(b: Board, picks: seq<Pick>): (h: Board)
    requires IsBoard(b) && HasFreePick(b, picks)
    ensures IsBoard(h)
  {
    SpawnAt(b, picks[FirstFreePick(b, picks)])
  }

  // ---------------------------------------------------------------------------
  // Sums over the board

  /** What a cell contributes to: the sum of tile values, the number of
      tiles, the distance of the tiles to the edge of a direction, the
      points it took to build the tiles out of 2s, or the number of tiles
      of value v (the multiplicity of v in the board's tiles). */
  datatype Measure = TileSum | Occupied | Potential(d: Direction) | Worth | OfValue(v: nat)

  /** Points scored in building a tile of value v out of 2s: building 2v
      takes two v tiles and one merge worth 2v. */
  function TileWorth(v: nat): nat {
    if v <= 2 then 0 else v + 2 * TileWorth(v / 2)
  }

  function Weight(m: Measure, v: nat, k: int): nat
    requires 0 <= k < CellCount
  {
    match m
    case TileSum => v
    case Occupied => if v == 0 then 0 else 1
    case Potential(d) => if v == 0 then 0 else Distance(d, RowAt(k), ColAt(k))
    case Worth => TileWorth(v)
    case OfValue(w) => if v == w && w != 0 then 1 else 0
  }

  /** The measure summed over the cells at indices k .. 15. */
  function SumFrom(b: Board, m: Measure, k: nat): nat
    requires IsBoard(b) && k <= CellCount
    decreases |b| - k
  {
    if k == CellCount then 0 else Weight(m, b[k].value, k) + SumFrom(b, m, k + 1)
  }

  function Total(b: Board, m: Measure): nat
    requires IsBoard(b)
  {
    SumFrom(b, m, 0)
  }

  /** Replacing one cell changes a sum by that cell's change of weight. */
  lemma {:induction false} SumFromUpdate(b: Board, m: Measure, i: int, x: Cell, k: nat)
    requires IsBoard(b) && 0 <= i < CellCount && k <= CellCount
    ensures SumFrom(b[i := x], m, k)
         == SumFrom(b, m, k) + (if k <= i then Weight(m, x.value, i) - Weight(m, b[i].value, i) else 0)
    decreases |b| - k
  {
    if k < CellCount {
      SumFromUpdate(b, m, i, x, k + 1);
    }
  }

  lemma TotalUpdate(b: Board, m: Measure, i: int, x: Cell)
    requires IsBoard(b) && 0 <= i < CellCount
    ensures Total(b[i := x], m) == Total(b, m) + Weight(m, x.value, i) - Weight(m, b[i].value, i)
  {
    SumFromUpdate(b, m, i, x, 0);
  }

  /** Replacing two distinct cells changes a sum by both cells' changes. */
  lemma TotalUpdateTwo(b: Board, m: Measure, n: int, x: Cell, k: int, y: Cell)
    requires IsBoard(b) && 0 <= k < CellCount && 0 <= n < CellCount && k != n
    ensures Total(b[n := x][k := y], m)
         == Total(b, m) + Weight(m, x.value, n) - Weight(m, b[n].value, n)
            + Weight(m, y.value, k) - Weight(m, b[k].value, k)
  {
    TotalUpdate(b, m, n, x);
    assert b[n := x][k] == b[k];
    TotalUpdate(b[n := x], m, k, y);
  }

  /** Sums only see tile values, not the merge flags. */
  lemma {:induction false} SumFromSameValues(a: Board, b: Board, m: Measure, k: nat)
    requires IsBoard(a) && IsBoard(b) && k <= CellCount
    requires forall i :: 0 <= i < CellCount ==> a[i].value == b[i].value
    ensures SumFrom(a, m, k) == SumFrom(b, m, k)
    decreases |b| - k
  {
    if k < CellCount {
      SumFromSameValues(a, b, m, k + 1);
    }
  }

  lemma {:induction false} SumFromEmpty(b: Board, m: Measure, k: nat)
    requires IsBoard(b) && k <= CellCount
    requires forall i :: 0 <= i < CellCount ==> b[i].value == 0
    ensures SumFrom(b, m, k) == 0
    decreases |b| - k
  {
    if k < CellCount {
      SumFromEmpty(b, m, k + 1);
    }
  }

  /** The tiles from index k on number at most the cells there, and all of
      them exactly when none of those cells is empty. */
  lemma {:induction false} SumFromOccupied(b: Board, k: nat)
    requires IsBoard(b) && k <= CellCount
    ensures SumFrom(b, Occupied, k) <= CellCount - k
    ensures SumFrom(b, Occupied, k) == CellCount - k <==> forall j :: k <= j < CellCount ==> b[j].value != 0
    decreases |b| - k
  {
    if k < CellCount {
      SumFromOccupied(b, k + 1);
    }
  }

  /** A spawn is possible exactly when the board holds fewer than 16 tiles. */
  lemma SpawnIffRoom(b: Board)
    requires IsBoard(b)
    ensures Total(b, Occupied) <= CellCount
    ensures CanSpawn(b) <==> Total(b, Occupied) < CellCount
  {
    SumFromOccupied(b, 0);
  }

  // ---------------------------------------------------------------------------
  // Tile values

  /** 2, 4, 8, ...: the values a tile can hold. */
  predicate IsTileValue(v: nat) {
    v == 2 || (v > 2 && v % 2 == 0 && IsTileValue(v / 2))
  }

  /** Every cell is empty or holds a tile value. */
  predicate AllTiles(b: Board) {
    forall k :: 0 <= k < |b| ==> b[k].value == 0 || IsTileValue(b[k].value)
  }

  // ---------------------------------------------------------------------------
  // Properties of the pure helpers

  /** The game's fresh board has no tile and no merge flag, so a spawn can
      always follow it and every sum over it is zero. */
  lemma InitialBoardIsEmpty()
    ensures forall k :: 0 <= k < CellCount ==> InitialBoard()[k] == Cell(0, false)
    ensures CanSpawn(InitialBoard()) && AllTiles(InitialBoard())
    ensures forall m :: Total(InitialBoard(), m) == 0
  {
    var b := InitialBoard();
    assert b[0].value == 0;
    forall m ensures Total(b, m) == 0 {
      SumFromEmpty(b, m, 0);
    }
  }

  /** Clearing the merge flags keeps every value, every sum, tile values and
      whether a spawn is possible. */
  lemma ResetKeepsValues(b: Board)
    requires IsBoard(b)
    ensures IsBoard(ResetDidMerge(b))
    ensures CanSpawn(ResetDidMerge(b)) == CanSpawn(b)
    ensures forall m :: Total(ResetDidMerge(b), m) == Total(b, m)
    ensures AllTiles(ResetDidMerge(b)) == AllTiles(b)
  {
    var h := ResetDidMerge(b);
    forall m ensures Total(h, m) == Total(b, m) {
      SumFromSameValues(h, b, m, 0);
    }
    if CanSpawn(b) {
      var k :| 0 <= k < |b| && b[k].value == 0;
      assert h[k].value == 0;
    }
    if CanSpawn(h) {
      var k :| 0 <= k < |h| && h[k].value == 0;
      assert b[k].value == 0;
    }
  }

  /** A spawn turns exactly the drawn empty cell into a 2, keeping its flag,
      and leaves every other cell alone: one more tile, two more points of
      tile sum, no worth added. */
  lemma SpawnAtEffect(b: Board, p: Pick)
    requires IsBoard(b) && IsFree(b, p)
    ensures SpawnAt(b, p)[Index(p.0, p.1)] == Cell(2, b[Index(p.0, p.1)].didMerge)
    ensures forall k :: 0 <= k < CellCount && k != Index(p.0, p.1) ==> SpawnAt(b, p)[k] == b[k]
    ensures Total(SpawnAt(b, p), Occupied) == Total(b, Occupied) + 1
    ensures Total(SpawnAt(b, p), TileSum) == Total(b, TileSum) + 2
    ensures Total(SpawnAt(b, p), Worth) == Total(b, Worth)
    ensures AllTiles(b) ==> AllTiles(SpawnAt(b, p))
  {
    var k := Index(p.0, p.1);
    IndexPosition(p.0, p.1);
    var x := b[k].(value := 2);
    TotalUpdate(b, Occupied, k, x);
    TotalUpdate(b, TileSum, k, x);
    TotalUpdate(b, Worth, k, x);
  }

  /** The spawn fills exactly one cell, one that was empty, with a 2, and
      changes nothing else; draws before it all hit occupied cells. */
  lemma SpawnFillsOneFreeCell(b: Board, picks: seq<Pick>)
    requires IsBoard(b) && HasFreePick(b, picks)
    ensures var h := SpawnOnFreeSpot(b, picks);
      exists k :: 0 <= k < CellCount && b[k].value == 0 && h[k] == Cell(2, b[k].didMerge) &&
        forall j :: 0 <= j < CellCount && j != k ==> h[j] == b[j]
    ensures Total(SpawnOnFreeSpot(b, picks), Occupied) == Total(b, Occupied) + 1
    ensures Total(SpawnOnFreeSpot(b, picks), TileSum) == Total(b, TileSum) + 2
    ensures Total(SpawnOnFreeSpot(b, picks), Worth) == Total(b, Worth)
    ensures AllTiles(b) ==> AllTiles(SpawnOnFreeSpot(b, picks))
  {
    var p := picks[FirstFreePick(b, picks)];
    SpawnAtEffect(b, p);
    IndexPosition(p.0, p.1);
    var k := Index(p.0, p.1);
    assert b[k].value == 0 && SpawnOnFreeSpot(b, picks)[k] == Cell(2, b[k].didMerge);
  }

  /** The spawn that follows a move, on the board with its merge flags
      cleared: a fair source finds an empty cell whenever there is one, and
      the result still holds only tile values and the same worth. */
  lemma SpawnAfterReset(b: Board, picks: seq<Pick>)
    requires IsBoard(b) && Covers(picks) && CanSpawn(b)
    ensures HasFreePick(ResetDidMerge(b), picks)
    ensures AllTiles(b) ==> AllTiles(SpawnOnFreeSpot(ResetDidMerge(b), picks))
    ensures Total(SpawnOnFreeSpot(ResetDidMerge(b), picks), Worth) == Total(b, Worth)
  {
    var cleared := ResetDidMerge(b);
    ResetKeepsValues(b);
    CoversFindsFree(cleared, picks);
    SpawnFillsOneFreeCell(cleared, picks);
  }

  /** The board a new game starts from: one 2 on an otherwise empty board,
      worth nothing. */
  lemma SpawnOnInitialBoard(picks: seq<Pick>)
    requires Covers(picks)
    ensures HasFreePick(InitialBoard(), picks)
    ensures AllTiles(SpawnOnFreeSpot(InitialBoard(), picks))
    ensures Total(SpawnOnFreeSpot(InitialBoard(), picks), Worth) == 0
    ensures Total(SpawnOnFreeSpot(InitialBoard(), picks), Occupied) == 1
  {
    InitialBoardIsEmpty();
    CoversFindsFree(InitialBoard(), picks);
    SpawnFillsOneFreeCell(InitialBoard(), picks);
  }
}
