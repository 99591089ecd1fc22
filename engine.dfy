/** The state of the board manager and the operations that update it: the
    board, the current and highest score, and the two game-phase flags.
    State updates take effect at once, in the order the handlers issue
    them. */
module Engine {
  import opened Geometry
  import opened BoardState
  import opened Moves

  /** `Math.max`. */
  function Max(a: nat, b: nat): (m: nat)
    ensures m >= a && m >= b && (m == a || m == b)
  {
    if a >= b then a else b
  }

  class BoardManager {
    /** `boardState` in row-major order: the cell at row r, column c is
        `cells[Index(r, c)]`. */
    var cells: array<Cell>
    var currentScore: nat
    var highestScore: nat
    var hasGameStarted: bool
    var isGameLost: bool

    ghost predicate Shaped()
      reads this
    {
      cells.Length == CellCount
    }

    /** The board as a value. */
    function Cells(): (b: Board)
      reads this, cells
      requires Shaped()
      ensures IsBoard(b)
    {
      cells[..]
    }

    /** What the game keeps true between gestures: the highest score is at
        least the current one, every tile is a power of two, and the current
        score covers the points it took to build the tiles on the board. */
    ghost predicate Valid()
      reads this, cells
    {
      Shaped() && currentScore <= highestScore && AllTiles(Cells()) && Total(Cells(), Worth) <= currentScore
    }

    /** The state before the mount effect runs: an empty board, no score, no
        game started and none lost. */
    constructor ()
      ensures Valid() && fresh(cells)
      ensures Cells() == InitialBoard()
      ensures currentScore == 0 && highestScore == 0 && !hasGameStarted && !isGameLost
    {
      InitialBoardIsEmpty();
      cells := new Cell[CellCount](k => Cell(0, false));
      currentScore, highestScore := 0, 0;
      hasGameStarted, isGameLost := false, false;
      new;
      assert Cells() == InitialBoard();
    }

    /** `setBoardState`: the board is replaced by b. */
    method SetBoardState(b: Board)
      requires IsBoard(b)
      modifies this`cells
      ensures Shaped() && fresh(cells) && Cells() == b
    {
      cells := new Cell[CellCount](k requires 0 <= k < CellCount => b[k]);
    }

    /** `updateHighestScore`. */
    method UpdateHighestScore(score: nat)
      modifies this`highestScore
      ensures highestScore == Max(score, old(highestScore))
    {
      highestScore := Max(score, highestScore);
    }

    /** `merge(col, nextCol)` for the cells at indices k and n: the target
        takes the sum and the merge flag, the score grows by the new value
        and the highest score follows it, the source is emptied. */
    method Merge(k: int, n: int)
      requires Shaped() && 0 <= k < CellCount && 0 <= n < CellCount && k != n
      modifies this`currentScore, this`highestScore, cells
      ensures Cells() == Merged(old(Cells()), k, n)
      ensures currentScore == old(currentScore) + Cells()[n].value
      ensures highestScore == Max(currentScore, old(highestScore))
    {
      cells[n] := cells[n].(value := cells[k].value + cells[n].value);
      currentScore := currentScore + cells[n].value;
      UpdateHighestScore(currentScore);
      cells[n] := cells[n].(didMerge := true);
      cells[k] := cells[k].(value := 0);
    }

    /** The slide in `move`: the neighbour at index n takes the value of the
        cell at k, which is emptied; merge flags stay where they are. */
    method Slide(k: int, n: int)
      requires Shaped() && 0 <= k < CellCount && 0 <= n < CellCount && k != n
      modifies cells
      ensures Cells() == Slid(old(Cells()), k, n)
    {
      cells[n] := cells[n].(value := cells[k].value);
      cells[k] := cells[k].(value := 0);
    }

    /** `move` in direction d, in place: the board, the score and the flag
        it returns are those of the scan `Moves.Move` describes, and the
        highest score ends at the larger of its old value and the new score.
        The two nested `forEach` loops visit the cells in row-major order,
        which is the order of k here. */
    method MoveInPlace(d: Direction) returns (moved: bool)
      requires Shaped() && currentScore <= highestScore
      modifies this`currentScore, this`highestScore, cells
      ensures Cells() == Move(old(Cells()), d).board
      ensures currentScore == old(currentScore) + Move(old(Cells()), d).gained
      ensures moved == Move(old(Cells()), d).moved
      ensures highestScore == Max(currentScore, old(highestScore))
      ensures Total(Cells(), Potential(d)) <= Total(old(Cells()), Potential(d))
      decreases Total(Cells(), Potential(d)), 1
    {
      ghost var start := Cells();
      ghost var o := Sweep(start, d, 0);
      moved := false;
      for k := 0 to CellCount
        invariant old(currentScore) <= currentScore <= highestScore
        invariant highestScore == Max(currentScore, old(highestScore))
        invariant Total(Cells(), Potential(d)) <= Total(start, Potential(d))
        invariant var rest := Sweep(Cells(), d, k);
          rest.board == o.board && currentScore + rest.gained == old(currentScore) + o.gained &&
          (moved || rest.moved) == o.moved
      {
        var acted := MoveCell(d, k);
        moved := moved || acted;
      }
    }

    /** The body of `move`'s scan at the cell of index k: a tile the
        delimiter admits merges into an equal neighbour or slides into an
        empty one, and a slide runs the whole `move` again. Afterwards the
        rest of the scan, from the next cell on, ends where the scan from
        this cell would have ended. */
    method MoveCell(d: Direction, k: int) returns (acted: bool)
      requires Shaped() && 0 <= k < CellCount && currentScore <= highestScore
      modifies this`currentScore, this`highestScore, cells
      ensures old(currentScore) <= currentScore <= highestScore
      ensures highestScore == Max(currentScore, old(highestScore))
      ensures Total(Cells(), Potential(d)) <= Total(old(Cells()), Potential(d))
      ensures var rest, whole := Sweep(Cells(), d, k + 1), Sweep(old(Cells()), d, k);
        rest.board == whole.board && currentScore + rest.gained == old(currentScore) + whole.gained &&
        (acted || rest.moved) == whole.moved
      decreases Total(Cells(), Potential(d)), 0
    {
      var r, c := RowAt(k), ColAt(k);
      PositionIndex(k);
      ghost var before := Cells();
      acted := false;
      if cells[k].value != 0 {
        if Eligible(d, r, c) {
          NeighbourInBounds(d, r, c);
          var (nr, nc) := Next(d, r, c);
          IndexPosition(nr, nc);
          var n := Index(nr, nc);
          if cells[n].value != 0 {
            if cells[n].value == cells[k].value {
              assert ActionAt(before, d, k) == MergeInto(n);
              RunMerge(before, d, Done, k);
              MergedSums(before, d, k, n);
              Merge(k, n);
              acted := true;
            }
          } else {
            assert ActionAt(before, d, k) == SlideInto(n);
            SweepSlide(before, d, k);
            SlidSums(before, d, k, n);
            Slide(k, n);
            var _ := MoveInPlace(d);
            acted := true;
          }
        }
      }
      if !acted {
        assert ActionAt(before, d, k) == Skip;
        RunSkip(before, d, Done, k);
      }
    }

    /** `spawnOnRandomFreeSpot` on the board in place, drawing positions from
        picks until one is empty; i is the draw that was used. */
    method Spawn(picks: seq<Pick>) returns (i: nat)
      requires Shaped() && HasFreePick(Cells(), picks)
      modifies cells
      ensures i == FirstFreePick(old(Cells()), picks)
      ensures Cells() == SpawnOnFreeSpot(old(Cells()), picks)
    {
      ghost var first := FirstFreePick(Cells(), picks);
      i := 0;
      while cells[Index(picks[i].0, picks[i].1)].value != 0
        invariant i <= first
        decreases first - i
      {
        i := i + 1;
      }
      var (r, c) := picks[i];
      IndexPosition(r, c);
      var k := Index(r, c);
      cells[k] := cells[k].(value := 2);
    }

    /** `lostGame`: the game stops and is marked lost; the highest score
        already covers the current one. */
    method LostGame()
      requires Valid()
      modifies this`hasGameStarted, this`isGameLost, this`highestScore
      ensures Valid()
      ensures !hasGameStarted && isGameLost
      ensures highestScore == Max(currentScore, old(highestScore)) == old(highestScore)
    {
      hasGameStarted := false;
      isGameLost := true;
      UpdateHighestScore(currentScore);
    }

    /** `onAfterMove`: with an empty cell left, a gesture that moved clears
        the merge flags and spawns a 2, and one that did not changes
        nothing; with none left the game is lost. */
    method OnAfterMove(moved: bool, picks: seq<Pick>)
      requires Valid() && Covers(picks)
      modifies this`cells, this`hasGameStarted, this`isGameLost, this`highestScore
      ensures Valid() && (cells == old(cells) || fresh(cells))
      ensures currentScore == old(currentScore) && highestScore == old(highestScore)
      ensures CanSpawn(old(Cells())) && moved ==>
        && HasFreePick(ResetDidMerge(old(Cells())), picks)
        && Cells() == SpawnOnFreeSpot(ResetDidMerge(old(Cells())), picks)
        && hasGameStarted == old(hasGameStarted) && isGameLost == old(isGameLost)
      ensures CanSpawn(old(Cells())) && !moved ==>
        Cells() == old(Cells()) && hasGameStarted == old(hasGameStarted) && isGameLost == old(isGameLost)
      ensures !CanSpawn(old(Cells())) ==>
        Cells() == old(Cells()) && !hasGameStarted && isGameLost
    {
      var board := Cells();
      if CanSpawn(board) {
        if moved {
          SpawnAfterReset(board, picks);
          SetBoardState(ResetDidMerge(board));
          var _ := Spawn(picks);
        }
      } else {
        LostGame();
      }
    }

    /** `startGame`: a fresh board with one 2 on it, the game started and
        not lost; the scores are left as they are. */
    method StartGame(picks: seq<Pick>)
      requires Valid() && Covers(picks)
      modifies this`cells, this`hasGameStarted, this`isGameLost
      ensures Valid() && fresh(cells)
      ensures hasGameStarted && !isGameLost
      ensures currentScore == old(currentScore) && highestScore == old(highestScore)
      ensures HasFreePick(InitialBoard(), picks) && Cells() == SpawnOnFreeSpot(InitialBoard(), picks)
    {
      hasGameStarted := true;
      isGameLost := false;
      SpawnOnInitialBoard(picks);
      SetBoardState(InitialBoard());
      var _ := Spawn(picks);
    }

    /** One arrow handler: `move` in direction d, then `onAfterMove`. A
        gesture that moves always leaves room for the spawn, so the game is
        lost only after a gesture that changes nothing on a full board. */
    method OnArrow(d: Direction, picks: seq<Pick>) returns (moved: bool)
      requires Valid() && Covers(picks)
      modifies this, cells
      ensures Valid() && (cells == old(cells) || fresh(cells))
      ensures moved == Move(old(Cells()), d).moved
      ensures currentScore == old(currentScore) + Move(old(Cells()), d).gained
      ensures highestScore == Max(currentScore, old(highestScore))
      ensures moved ==>
        && HasFreePick(ResetDidMerge(Move(old(Cells()), d).board), picks)
        && Cells() == SpawnOnFreeSpot(ResetDidMerge(Move(old(Cells()), d).board), picks)
        && hasGameStarted == old(hasGameStarted) && isGameLost == old(isGameLost)
      ensures !moved ==> Cells() == old(Cells()) && currentScore == old(currentScore)
      ensures !moved && CanSpawn(old(Cells())) ==>
        hasGameStarted == old(hasGameStarted) && isGameLost == old(isGameLost)
      ensures !moved && !CanSpawn(old(Cells())) ==> !hasGameStarted && isGameLost
    {
      ghost var start := Cells();
      MovedIffMovable(start, d);
      MoveInvariants(start, d);
      MoveLeavesRoom(start, d);
      moved := MoveInPlace(d);
      OnAfterMove(moved, picks);
    }
  }

  /** What the page forwards to the board manager: an arrow key, or a click
      on the Reset button or on either overlay, each of which calls
      `startGame`. */
  datatype Event = Arrow(d: Direction) | StartClick

  /** A session as the page runs it: the hook's initial state, the mount
      effect's `startGame` drawing from `first`, then the events in order,
      the i-th drawing its spawn from `draws[i]`. Every event leaves the
      game invariant in place, and the page shows either a running game or
      the "You lost" overlay, never both and never neither. */
  method Session(first: seq<Pick>, events: seq<Event>, draws: seq<seq<Pick>>) returns (m: BoardManager)
    requires Covers(first) && |draws| == |events|
    requires forall i :: 0 <= i < |draws| ==> Covers(draws[i])
    ensures fresh(m) && fresh(m.cells) && m.Valid()
    ensures m.hasGameStarted != m.isGameLost
  {
    m := new BoardManager();
    m.StartGame(first);
    for i := 0 to |events|
      invariant fresh(m) && fresh(m.cells) && m.Valid()
      invariant m.hasGameStarted != m.isGameLost
    {
      match events[i]
      case Arrow(d) =>
        var _ := m.OnArrow(d, draws[i]);
      case StartClick =>
        m.StartGame(draws[i]);
    }
  }
}
