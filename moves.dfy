/** The `move` algorithm of the board manager as a function on boards.

    `move` scans rows top to bottom and, in each row, columns left to right,
    whatever the direction. An occupied cell that its direction's delimiter
    admits looks at its neighbour: an empty neighbour takes its value and
    the whole scan is run again on the new board before the interrupted scan
    goes on; an equal neighbour is merged into and the scan goes on; a
    different one leaves the cell where it is. */
module Moves {
  import opened Geometry
  import opened BoardState

  /** What one call of `move` yields: the board, the points its merges add
      to the score, the number of merges, and its `didMoveOrMerge` flag. */
  datatype Outcome = Outcome(board: Board, gained: nat, merges: nat, moved: bool)

  /** The board `merge(col, nextCol)` leaves: the target holds the sum of the
      two values and is flagged, the source is emptied (its flag untouched). */
  function Merged(b: Board, k: int, n: int): (h: Board)
    requires IsBoard(b) && 0 <= k < CellCount && 0 <= n < CellCount && k != n
    ensures IsBoard(h)
  {
    b[n := b[n].(value := b[k].value + b[n].value, didMerge := true)][k := b[k].(value := 0)]
  }

  /** The board a slide leaves: the neighbour takes the value (keeping its own
      flag), the source is emptied (keeping its own flag). */
  function Slid(b: Board, k: int, n: int): (h: Board)
    requires IsBoard(b) && 0 <= k < CellCount && 0 <= n < CellCount && k != n
    ensures IsBoard(h)
  {
    b[n := b[n].(value := b[k].value)][k := b[k].(value := 0)]
  }

  /** Merging a tile into an equal tile doubles the target and flags it,
      empties the source (keeping its flag) and changes no other cell. */
  lemma MergedCells(b: Board, k: int, n: int)
    requires IsBoard(b) && 0 <= k < CellCount && 0 <= n < CellCount && k != n
    requires b[n].value == b[k].value
    ensures Merged(b, k, n)[n] == Cell(2 * b[k].value, true)
    ensures Merged(b, k, n)[k] == b[k].(value := 0)
    ensures forall i :: 0 <= i < CellCount && i != k && i != n ==> Merged(b, k, n)[i] == b[i]
  {
  }

  /** A merge keeps the tile sum, removes one tile, and takes the source's
      distance to the edge off the board's. */
  lemma MergedSums(b: Board, d: Direction, k: int, n: int)
    requires IsBoard(b) && 0 <= k < CellCount && 0 <= n < CellCount && k != n
    requires b[k].value != 0 && b[n].value == b[k].value
    ensures Total(Merged(b, k, n), TileSum) == Total(b, TileSum)
    ensures Total(Merged(b, k, n), Occupied) + 1 == Total(b, Occupied)
    ensures Total(Merged(b, k, n), Potential(d)) + Distance(d, RowAt(k), ColAt(k)) == Total(b, Potential(d))
  {
    var x := b[n].(value := b[k].value + b[n].value, didMerge := true);
    var y := b[k].(value := 0);
    assert Merged(b, k, n) == b[n := x][k := y];
    TotalUpdateTwo(b, TileSum, n, x, k, y);
    TotalUpdateTwo(b, Occupied, n, x, k, y);
    TotalUpdateTwo(b, Potential(d), n, x, k, y);
  }

  /** Doubling a tile value gives a tile value. */
  lemma TileDoubling(v: nat)
    requires IsTileValue(v)
    ensures IsTileValue(v + v)
  {
    assert (v + v) / 2 == v;
  }

  /** Building a tile of twice a value of at least 2 takes two tiles of
      that value and one merge that scores the double, so a change of worth
      by the double's worth less the two tiles' is a change by the double. */
  lemma WorthDoubling(after: int, before: int, w: nat, v: nat)
    requires v >= 2 && w == v + v
    requires after == before + TileWorth(w) - 2 * TileWorth(v)
    ensures after == before + w
  {
    assert w / 2 == v;
  }

  /** Writing x over one of two equal cells and an empty cell over the other
      changes the worth by x's worth less theirs. */
  lemma WorthOfMerge(b: Board, k: int, n: int, x: Cell, y: Cell)
    requires IsBoard(b) && 0 <= k < CellCount && 0 <= n < CellCount && k != n
    requires y.value == 0 && b[n].value == b[k].value
    ensures Total(b[n := x][k := y], Worth) == Total(b, Worth) + TileWorth(x.value) - 2 * TileWorth(b[k].value)
  {
    TotalUpdateTwo(b, Worth, n, x, k, y);
  }

  /** On tile values a merge leaves tile values. */
  lemma MergedTiles(b: Board, k: int, n: int)
    requires IsBoard(b) && 0 <= k < CellCount && 0 <= n < CellCount && k != n && AllTiles(b)
    requires b[k].value != 0 && b[n].value == b[k].value
    ensures AllTiles(Merged(b, k, n))
  {
    TileDoubling(b[k].value);
  }

  /** When the merged tiles are at least 2, as tile values are, the worth a
      merge adds to the board is the value of the merged tile. */
  lemma MergedWorth(b: Board, k: int, n: int)
    requires IsBoard(b) && 0 <= k < CellCount && 0 <= n < CellCount && k != n
    requires b[k].value >= 2 && b[n].value == b[k].value
    ensures Total(Merged(b, k, n), Worth) == Total(b, Worth) + Merged(b, k, n)[n].value
  {
    var x := b[n].(value := b[k].value + b[n].value, didMerge := true);
    var y := b[k].(value := 0);
    assert Merged(b, k, n) == b[n := x][k := y];
    WorthOfMerge(b, k, n, x, y);
    WorthDoubling(Total(Merged(b, k, n), Worth), Total(b, Worth), x.value, b[k].value);
  }

  /** Sliding a tile into an empty cell moves the value there, leaving both
      cells' flags, and changes no other cell; tile values stay tile values. */
  lemma SlidCells(b: Board, k: int, n: int)
    requires IsBoard(b) && 0 <= k < CellCount && 0 <= n < CellCount && k != n
    ensures Slid(b, k, n)[n] == b[n].(value := b[k].value)
    ensures Slid(b, k, n)[k] == b[k].(value := 0)
    ensures forall i :: 0 <= i < CellCount && i != k && i != n ==> Slid(b, k, n)[i] == b[i]
    ensures AllTiles(b) ==> AllTiles(Slid(b, k, n))
  {
  }

  /** A slide keeps the tile sum, the tile count and the worth, and changes
      the tile's distance to the edge to that of its new cell. */
  lemma SlidSums(b: Board, d: Direction, k: int, n: int)
    requires IsBoard(b) && 0 <= k < CellCount && 0 <= n < CellCount && k != n
    requires b[k].value != 0 && b[n].value == 0
    ensures Total(Slid(b, k, n), TileSum) == Total(b, TileSum)
    ensures Total(Slid(b, k, n), Occupied) == Total(b, Occupied)
    ensures Total(Slid(b, k, n), Worth) == Total(b, Worth)
    ensures Total(Slid(b, k, n), Potential(d)) + Distance(d, RowAt(k), ColAt(k))
         == Total(b, Potential(d)) + Distance(d, RowAt(n), ColAt(n))
  {
    var x := b[n].(value := b[k].value);
    var y := b[k].(value := 0);
    assert Slid(b, k, n) == b[n := x][k := y];
    TotalUpdateTwo(b, TileSum, n, x, k, y);
    TotalUpdateTwo(b, Occupied, n, x, k, y);
    TotalUpdateTwo(b, Potential(d), n, x, k, y);
    TotalUpdateTwo(b, Worth, n, x, k, y);
  }

  /** The scan at (r, c) slides or merges: the cell holds a tile, the
      delimiter admits it, and its neighbour is empty or equal. */
  predicate Acts(b: Board, d: Direction, r: int, c: int)
    requires IsBoard(b) && InBounds(r, c)
  {
    b[Index(r, c)].value != 0 && Eligible(d, r, c) &&
    (NeighbourInBounds(d, r, c);
     var (nr, nc) := Next(d, r, c);
     var v := b[Index(nr, nc)].value;
     v == 0 || v == b[Index(r, c)].value)
  }

  /** What the scan does at index k. */
  datatype Action = Skip | MergeInto(n: int) | SlideInto(n: int)

  function ActionAt(b: Board, d: Direction, k: int): (a: Action)
    requires IsBoard(b) && 0 <= k < CellCount
    ensures a != Skip ==> 0 <= a.n < CellCount && a.n != k && b[k].value != 0
    ensures a != Skip ==> Distance(d, RowAt(k), ColAt(k)) > 0
    ensures a.MergeInto? ==> b[a.n].value == b[k].value
    ensures a.SlideInto? ==> b[a.n].value == 0
    ensures a.SlideInto? ==> Distance(d, RowAt(a.n), ColAt(a.n)) + 1 == Distance(d, RowAt(k), ColAt(k))
  {
    var r, c := RowAt(k), ColAt(k);
    if b[k].value != 0 && Eligible(d, r, c) then
      NeighbourInBounds(d, r, c);
      var (nr, nc) := Next(d, r, c);
      var n := Index(nr, nc);
      IndexPosition(nr, nc);
      if b[n].value == 0 then SlideInto(n)
      else if b[n].value == b[k].value then MergeInto(n)
      else Skip
    else Skip
  }

  /** The scan skips exactly the cells that cannot act, and a cell that acts
      works on its neighbour in the direction of travel. */
  lemma ActionAtActs(b: Board, d: Direction, k: int)
    requires IsBoard(b) && 0 <= k < CellCount
    ensures InBounds(RowAt(k), ColAt(k))
    ensures ActionAt(b, d, k) != Skip <==> Acts(b, d, RowAt(k), ColAt(k))
    ensures ActionAt(b, d, k) != Skip ==>
      ActionAt(b, d, k).n == Index(Next(d, RowAt(k), ColAt(k)).0, Next(d, RowAt(k), ColAt(k)).1)
  {
    PositionIndex(k);
  }

  /** The scans a slide has interrupted, innermost first: each resumes at
      the cell after the one that slid, once the scans above it are over. */
  datatype Pending = Done | Resume(at: nat, outer: Pending)

  /** `inner`'s scans, then `outer`'s. */
  function Append(inner: Pending, outer: Pending): Pending {
    match inner
    case Done => outer
    case Resume(at, rest) => Resume(at, Append(rest, outer))
  }

  /** `move` while it runs: the running scan is at index k (past the end
      once k reaches 16) and `pending` holds the scans it interrupted (the
      `forEach` loops suspended under the recursive calls). A slide starts a
      new scan from index 0 and makes the interrupted one resume at the
      next cell; a merge or a cell that cannot act lets the running scan go
      on; a finished scan hands over to the innermost pending one. */
  function Run(b: Board, d: Direction, pending: Pending, k: nat): (o: Outcome)
    requires IsBoard(b)
    ensures IsBoard(o.board)
    decreases Total(b, Potential(d)), pending, CellCount - k
  {
    if k >= CellCount then
      match pending
      case Done => Outcome(b, 0, 0, false)
      case Resume(at, outer) => Run(b, d, outer, at)
    else
      match ActionAt(b, d, k)
      case Skip => Run(b, d, pending, k + 1)
      case MergeInto(n) =>
        MergedSums(b, d, k, n);
        var h := Merged(b, k, n);
        var rest := Run(h, d, pending, k + 1);
        Outcome(rest.board, h[n].value + rest.gained, rest.merges + 1, true)
      case SlideInto(n) =>
        SlidSums(b, d, k, n);
        var rest := Run(Slid(b, k, n), d, Resume(k + 1, pending), 0);
        Outcome(rest.board, rest.gained, rest.merges, true)
  }

  /** One call of `move` whose scan is resumed at index k: no scan is
      pending under it. */
  function Sweep(b: Board, d: Direction, k: nat): (o: Outcome)
    requires IsBoard(b) && k <= CellCount
    ensures IsBoard(o.board)
  {
    Run(b, d, Done, k)
  }

  /** The whole `move` of one gesture. */
  function Move(b: Board, d: Direction): (o: Outcome)
    requires IsBoard(b)
    ensures IsBoard(o.board)
  {
    Sweep(b, d, 0)
  }

  // One step of a run, unfolded. The inductive proofs below go through
  // these facts rather than through the body of Run.

  lemma RunPop(b: Board, d: Direction, at: nat, outer: Pending, k: nat)
    requires IsBoard(b) && k >= CellCount
    ensures Run(b, d, Resume(at, outer), k) == Run(b, d, outer, at)
  {
  }

  lemma RunSkip(b: Board, d: Direction, pending: Pending, k: nat)
    requires IsBoard(b) && k < CellCount && ActionAt(b, d, k) == Skip
    ensures Run(b, d, pending, k) == Run(b, d, pending, k + 1)
  {
  }

  lemma RunMerge(b: Board, d: Direction, pending: Pending, k: nat)
    requires IsBoard(b) && k < CellCount && ActionAt(b, d, k).MergeInto?
    ensures var n := ActionAt(b, d, k).n;
      var h := Merged(b, k, n);
      var rest := Run(h, d, pending, k + 1);
      Run(b, d, pending, k) == Outcome(rest.board, h[n].value + rest.gained, rest.merges + 1, true)
  {
  }

  lemma RunSlide(b: Board, d: Direction, pending: Pending, k: nat)
    requires IsBoard(b) && k < CellCount && ActionAt(b, d, k).SlideInto?
    ensures var rest := Run(Slid(b, k, ActionAt(b, d, k).n), d, Resume(k + 1, pending), 0);
      Run(b, d, pending, k) == Outcome(rest.board, rest.gained, rest.merges, true)
  {
  }

  /** A scan over empty cells does nothing: from k on, where every cell is
      empty, the run goes straight to the end of the scan. */
  lemma {:induction false} RunOverEmpty(b: Board, d: Direction, pending: Pending, k: nat)
    requires IsBoard(b) && k <= CellCount
    requires forall j :: k <= j < CellCount ==> b[j].value == 0
    ensures Run(b, d, pending, k) == Run(b, d, pending, CellCount)
    decreases CellCount - k
  {
    if k < CellCount {
      RunSkip(b, d, pending, k);
      RunOverEmpty(b, d, pending, k + 1);
    }
  }

  /** The work of a run followed by a run over what it left. */
  function Then(first: Outcome, second: Outcome): Outcome {
    Outcome(second.board, first.gained + second.gained, first.merges + second.merges, first.moved || second.moved)
  }

  /** Scans pending under a run only add their work after it: running with
      `inner`'s scans and then `outer`'s pending is running with `inner`'s
      pending, then resuming `outer`'s scans on the board that left. */
  lemma {:induction false} RunThen(b: Board, d: Direction, inner: Pending, outer: Pending, k: nat)
    requires IsBoard(b)
    ensures Run(b, d, Append(inner, outer), k)
         == Then(Run(b, d, inner, k), Run(Run(b, d, inner, k).board, d, outer, CellCount))
    decreases Total(b, Potential(d)), inner, CellCount - k, 1
  {
    if k >= CellCount {
      match inner
      case Done =>
      case Resume(at, rest) =>
        RunPop(b, d, at, rest, k);
        RunPop(b, d, at, Append(rest, outer), k);
        RunThen(b, d, rest, outer, at);
    } else {
      var a := ActionAt(b, d, k);
      if a.Skip? {
        RunSkip(b, d, inner, k);
        RunSkip(b, d, Append(inner, outer), k);
        RunThen(b, d, inner, outer, k + 1);
      } else if a.MergeInto? {
        MergeThen(b, d, inner, outer, k);
      } else {
        SlideThen(b, d, inner, outer, k);
      }
    }
  }

  lemma {:induction false} MergeThen(b: Board, d: Direction, inner: Pending, outer: Pending, k: nat)
    requires IsBoard(b) && k < CellCount && ActionAt(b, d, k).MergeInto?
    ensures Run(b, d, Append(inner, outer), k)
         == Then(Run(b, d, inner, k), Run(Run(b, d, inner, k).board, d, outer, CellCount))
    decreases Total(b, Potential(d)), inner, CellCount - k, 0
  {
    var n := ActionAt(b, d, k).n;
    var h := Merged(b, k, n);
    MergedSums(b, d, k, n);
    RunMerge(b, d, inner, k);
    RunMerge(b, d, Append(inner, outer), k);
    RunThen(h, d, inner, outer, k + 1);
    var first := Run(h, d, inner, k + 1);
    var second := Run(first.board, d, outer, CellCount);
    assert Run(b, d, inner, k) == Outcome(first.board, h[n].value + first.gained, first.merges + 1, true);
    assert Run(h, d, Append(inner, outer), k + 1) == Then(first, second);
  }

  lemma {:induction false} SlideThen(b: Board, d: Direction, inner: Pending, outer: Pending, k: nat)
    requires IsBoard(b) && k < CellCount && ActionAt(b, d, k).SlideInto?
    ensures Run(b, d, Append(inner, outer), k)
         == Then(Run(b, d, inner, k), Run(Run(b, d, inner, k).board, d, outer, CellCount))
    decreases Total(b, Potential(d)), inner, CellCount - k, 0
  {
    var n := ActionAt(b, d, k).n;
    var h := Slid(b, k, n);
    SlidSums(b, d, k, n);
    RunSlide(b, d, inner, k);
    RunSlide(b, d, Append(inner, outer), k);
    assert Append(Resume(k + 1, inner), outer) == Resume(k + 1, Append(inner, outer));
    RunThen(h, d, Resume(k + 1, inner), outer, 0);
    var first := Run(h, d, Resume(k + 1, inner), 0);
    var second := Run(first.board, d, outer, CellCount);
    assert Run(b, d, inner, k) == Outcome(first.board, first.gained, first.merges, true);
    assert Run(h, d, Resume(k + 1, Append(inner, outer)), 0) == Then(first, second);
  }

  /** A slide runs a whole `move` on the new board; the interrupted scan
      then goes on from the next cell on the board that left. */
  lemma SweepSlide(b: Board, d: Direction, k: nat)
    requires IsBoard(b) && k < CellCount && ActionAt(b, d, k).SlideInto?
    ensures var h := Slid(b, k, ActionAt(b, d, k).n);
      var inner := Sweep(h, d, 0);
      var rest := Sweep(inner.board, d, k + 1);
      Sweep(b, d, k) == Outcome(rest.board, inner.gained + rest.gained, inner.merges + rest.merges, true)
  {
    var h := Slid(b, k, ActionAt(b, d, k).n);
    RunSlide(b, d, Done, k);
    RunThen(h, d, Done, Resume(k + 1, Done), 0);
    assert Append(Done, Resume(k + 1, Done)) == Resume(k + 1, Done);
    var inner := Run(h, d, Done, 0);
    RunPop(inner.board, d, k + 1, Done, CellCount);
    var rest := Run(inner.board, d, Done, k + 1);
    assert Run(h, d, Resume(k + 1, Done), 0) == Then(inner, rest);
  }

  /** A move keeps the sum of all tile values, and the number of tiles drops
      by exactly the number of merges. */
  lemma {:induction false} RunConserves(b: Board, d: Direction, pending: Pending, k: nat)
    requires IsBoard(b)
    ensures Total(Run(b, d, pending, k).board, TileSum) == Total(b, TileSum)
    ensures Total(Run(b, d, pending, k).board, Occupied) + Run(b, d, pending, k).merges == Total(b, Occupied)
    decreases Total(b, Potential(d)), pending, CellCount - k, 1
  {
    if k >= CellCount {
      match pending
      case Done =>
      case Resume(at, outer) =>
        RunPop(b, d, at, outer, k);
        RunConserves(b, d, outer, at);
    } else {
      var a := ActionAt(b, d, k);
      if a.Skip? {
        RunSkip(b, d, pending, k);
        RunConserves(b, d, pending, k + 1);
      } else if a.MergeInto? {
        MergeConserves(b, d, pending, k);
      } else {
        SlideConserves(b, d, pending, k);
      }
    }
  }

  lemma {:induction false} MergeConserves(b: Board, d: Direction, pending: Pending, k: nat)
    requires IsBoard(b) && k < CellCount && ActionAt(b, d, k).MergeInto?
    ensures Total(Run(b, d, pending, k).board, TileSum) == Total(b, TileSum)
    ensures Total(Run(b, d, pending, k).board, Occupied) + Run(b, d, pending, k).merges == Total(b, Occupied)
    decreases Total(b, Potential(d)), pending, CellCount - k, 0
  {
    var n := ActionAt(b, d, k).n;
    MergedSums(b, d, k, n);
    RunMerge(b, d, pending, k);
    RunConserves(Merged(b, k, n), d, pending, k + 1);
  }

  lemma {:induction false} SlideConserves(b: Board, d: Direction, pending: Pending, k: nat)
    requires IsBoard(b) && k < CellCount && ActionAt(b, d, k).SlideInto?
    ensures Total(Run(b, d, pending, k).board, TileSum) == Total(b, TileSum)
    ensures Total(Run(b, d, pending, k).board, Occupied) + Run(b, d, pending, k).merges == Total(b, Occupied)
    decreases Total(b, Potential(d)), pending, CellCount - k, 0
  {
    var n := ActionAt(b, d, k).n;
    SlidSums(b, d, k, n);
    RunSlide(b, d, pending, k);
    RunConserves(Slid(b, k, n), d, Resume(k + 1, pending), 0);
  }

  /** On a board of tile values a move leaves tile values, and the points
      it scores are exactly the worth its merges add to the board. */
  lemma {:induction false} RunScoresWorth(b: Board, d: Direction, pending: Pending, k: nat)
    requires IsBoard(b) && AllTiles(b)
    ensures AllTiles(Run(b, d, pending, k).board)
    ensures Total(Run(b, d, pending, k).board, Worth) == Total(b, Worth) + Run(b, d, pending, k).gained
    decreases Total(b, Potential(d)), pending, CellCount - k, 1
  {
    if k >= CellCount {
      match pending
      case Done =>
      case Resume(at, outer) =>
        RunPop(b, d, at, outer, k);
        RunScoresWorth(b, d, outer, at);
    } else {
      var a := ActionAt(b, d, k);
      if a.Skip? {
        RunSkip(b, d, pending, k);
        RunScoresWorth(b, d, pending, k + 1);
      } else if a.MergeInto? {
        MergeScoresWorth(b, d, pending, k);
      } else {
        SlideScoresWorth(b, d, pending, k);
      }
    }
  }

  lemma {:induction false} MergeScoresWorth(b: Board, d: Direction, pending: Pending, k: nat)
    requires IsBoard(b) && AllTiles(b) && k < CellCount && ActionAt(b, d, k).MergeInto?
    ensures AllTiles(Run(b, d, pending, k).board)
    ensures Total(Run(b, d, pending, k).board, Worth) == Total(b, Worth) + Run(b, d, pending, k).gained
    decreases Total(b, Potential(d)), pending, CellCount - k, 0
  {
    var n := ActionAt(b, d, k).n;
    MergedSums(b, d, k, n);
    MergedTiles(b, k, n);
    assert IsTileValue(b[k].value);
    MergedWorth(b, k, n);
    RunMerge(b, d, pending, k);
    RunScoresWorth(Merged(b, k, n), d, pending, k + 1);
  }

  lemma {:induction false} SlideScoresWorth(b: Board, d: Direction, pending: Pending, k: nat)
    requires IsBoard(b) && AllTiles(b) && k < CellCount && ActionAt(b, d, k).SlideInto?
    ensures AllTiles(Run(b, d, pending, k).board)
    ensures Total(Run(b, d, pending, k).board, Worth) == Total(b, Worth) + Run(b, d, pending, k).gained
    decreases Total(b, Potential(d)), pending, CellCount - k, 0
  {
    var n := ActionAt(b, d, k).n;
    SlidSums(b, d, k, n);
    SlidCells(b, k, n);
    RunSlide(b, d, pending, k);
    RunScoresWorth(Slid(b, k, n), d, Resume(k + 1, pending), 0);
  }

  /** Some cell can slide or merge in direction d. */
  ghost predicate Movable(b: Board, d: Direction)
    requires IsBoard(b)
  {
    exists r, c :: InBounds(r, c) && Acts(b, d, r, c)
  }

  /** Some cell at index k or later has something to do. */
  predicate ActsFrom(b: Board, d: Direction, k: nat)
    requires IsBoard(b)
  {
    exists j :: k <= j < CellCount && ActionAt(b, d, j) != Skip
  }

  /** A scan from k reports a move exactly when some cell at or after k can
      act; when it reports none, it has changed nothing and scored nothing. */
  lemma {:induction false} SweepIdle(b: Board, d: Direction, k: nat)
    requires IsBoard(b) && k <= CellCount
    ensures Sweep(b, d, k).moved <==> ActsFrom(b, d, k)
    ensures !Sweep(b, d, k).moved ==> Sweep(b, d, k) == Outcome(b, 0, 0, false)
    decreases CellCount - k
  {
    if k < CellCount {
      var a := ActionAt(b, d, k);
      if a.Skip? {
        RunSkip(b, d, Done, k);
        SweepIdle(b, d, k + 1);
        assert ActsFrom(b, d, k) ==> ActsFrom(b, d, k + 1) by {
          if ActsFrom(b, d, k) {
            var j :| k <= j < CellCount && ActionAt(b, d, j) != Skip;
            assert j != k;
          }
        }
      } else {
        assert ActionAt(b, d, k) != Skip;
      }
    }
  }

  /** `didMoveOrMerge` is set exactly when some cell can slide or merge, and
      when it is not set the board and the score are untouched. */
  lemma MovedIffMovable(b: Board, d: Direction)
    requires IsBoard(b)
    ensures Move(b, d).moved <==> Movable(b, d)
    ensures !Move(b, d).moved ==> Move(b, d).board == b && Move(b, d).gained == 0
  {
    SweepIdle(b, d, 0);
    if Movable(b, d) {
      var r, c :| InBounds(r, c) && Acts(b, d, r, c);
      IndexPosition(r, c);
      ActionAtActs(b, d, Index(r, c));
      assert ActionAt(b, d, Index(r, c)) != Skip;
    }
    if ActsFrom(b, d, 0) {
      var j :| 0 <= j < CellCount && ActionAt(b, d, j) != Skip;
      ActionAtActs(b, d, j);
      assert Acts(b, d, RowAt(j), ColAt(j));
    }
  }

  /** On a full board the first cell that acts can only merge, so a scan
      that moves merges at least once. */
  lemma {:induction false} FullSweepMerges(b: Board, d: Direction, k: nat)
    requires IsBoard(b) && k <= CellCount && !CanSpawn(b)
    ensures Sweep(b, d, k).moved ==> Sweep(b, d, k).merges >= 1
    decreases CellCount - k
  {
    if k < CellCount {
      var a := ActionAt(b, d, k);
      if a.Skip? {
        RunSkip(b, d, Done, k);
        FullSweepMerges(b, d, k + 1);
      } else if a.SlideInto? {
        assert false;
      }
    }
  }

  /** A move that moves always leaves an empty cell, so after a gesture that
      moves or merges a spawn is always possible and the game is lost only
      after a gesture that changes nothing. */
  lemma MoveLeavesRoom(b: Board, d: Direction)
    requires IsBoard(b)
    ensures Move(b, d).moved ==> CanSpawn(Move(b, d).board)
  {
    RunConserves(b, d, Done, 0);
    SpawnIffRoom(b);
    SpawnIffRoom(Move(b, d).board);
    if !CanSpawn(b) {
      FullSweepMerges(b, d, 0);
    }
  }

  /** A merge of two equal tiles of value v leaves one tile of value 2v in
      their place and every other tile where it was: counted value by
      value, two tiles v give way to one tile 2v. */
  lemma MergedCounts(b: Board, k: int, n: int)
    requires IsBoard(b) && 0 <= k < CellCount && 0 <= n < CellCount && k != n
    requires b[k].value != 0 && b[n].value == b[k].value
    ensures forall w :: w > 0 ==>
      Total(Merged(b, k, n), OfValue(w)) + (if w == b[k].value then 2 else 0)
      == Total(b, OfValue(w)) + (if w == 2 * b[k].value then 1 else 0)
  {
    var x := b[n].(value := b[k].value + b[n].value, didMerge := true);
    var y := b[k].(value := 0);
    forall w | w > 0
      ensures Total(Merged(b, k, n), OfValue(w)) + (if w == b[k].value then 2 else 0)
           == Total(b, OfValue(w)) + (if w == 2 * b[k].value then 1 else 0)
    {
      TotalUpdateTwo(b, OfValue(w), n, x, k, y);
    }
  }

  /** A slide moves a tile without changing how many tiles of each value
      the board holds. */
  lemma SlidCounts(b: Board, k: int, n: int)
    requires IsBoard(b) && 0 <= k < CellCount && 0 <= n < CellCount && k != n
    requires b[k].value != 0 && b[n].value == 0
    ensures forall w :: Total(Slid(b, k, n), OfValue(w)) == Total(b, OfValue(w))
  {
    var x := b[n].(value := b[k].value);
    var y := b[k].(value := 0);
    forall w {
      TotalUpdateTwo(b, OfValue(w), n, x, k, y);
    }
  }

  /** Each value of s, doubled. */
  function Doubled(s: seq<nat>): (t: seq<nat>)
    ensures |t| == |s| && forall i :: 0 <= i < |s| ==> t[i] == 2 * s[i]
  {
    seq(|s|, i requires 0 <= i < |s| => 2 * s[i])
  }

  function SumOf(s: seq<nat>): nat {
    if |s| == 0 then 0 else s[0] + SumOf(s[1..])
  }

  /** The run o from b combined the tiles of s, one merge each: every value
      v of s went from two tiles v to one tile 2v and scored 2v, and every
      other tile of b is still on the board with its value. Value by value,
      the tiles o leaves plus two per merged v are the tiles of b plus one
      per merge into v. */
  ghost predicate Combines(b: Board, o: Outcome, s: seq<nat>)
    requires IsBoard(b) && IsBoard(o.board)
  {
    && |s| == o.merges
    && o.gained == SumOf(Doubled(s))
    && forall w :: w > 0 ==>
         Total(o.board, OfValue(w)) + 2 * multiset(s)[w] == Total(b, OfValue(w)) + multiset(Doubled(s))[w]
  }

  /** Tiles are only moved or combined in pairs: some list of merged values
      accounts for the tiles a run leaves and for the points it scores. */
  lemma {:induction false} RunCombines(b: Board, d: Direction, pending: Pending, k: nat)
    requires IsBoard(b)
    ensures exists s :: Combines(b, Run(b, d, pending, k), s)
    decreases Total(b, Potential(d)), pending, CellCount - k, 1
  {
    if k >= CellCount {
      match pending
      case Done =>
        assert Combines(b, Run(b, d, pending, k), []);
      case Resume(at, outer) =>
        RunPop(b, d, at, outer, k);
        RunCombines(b, d, outer, at);
        var s :| Combines(b, Run(b, d, outer, at), s);
        assert Combines(b, Run(b, d, pending, k), s);
    } else {
      var a := ActionAt(b, d, k);
      if a.Skip? {
        RunSkip(b, d, pending, k);
        RunCombines(b, d, pending, k + 1);
        var s :| Combines(b, Run(b, d, pending, k + 1), s);
        assert Combines(b, Run(b, d, pending, k), s);
      } else if a.MergeInto? {
        MergeCombines(b, d, pending, k);
      } else {
        SlideCombines(b, d, pending, k);
      }
    }
  }

  /** Putting v in front of s' adds one v to the merged values, one 2v to
      their doubles and 2v to the points. */
  lemma DoubledCons(v: nat, s': seq<nat>)
    ensures SumOf(Doubled([v] + s')) == 2 * v + SumOf(Doubled(s'))
    ensures forall w :: multiset([v] + s')[w] == multiset(s')[w] + (if w == v then 1 else 0)
    ensures forall w :: multiset(Doubled([v] + s'))[w] == multiset(Doubled(s'))[w] + (if w == 2 * v then 1 else 0)
  {
    var s: seq<nat> := [v] + s';
    assert Doubled(s) == [2 * v] + Doubled(s');
    assert Doubled(s)[1..] == Doubled(s');
  }

  /** The merge at k into n before a run that combined the tiles of s'
      combines the tiles of [b[k].value] + s'. */
  lemma CombinesAfterMerge(b: Board, k: int, n: int, rest: Outcome, s': seq<nat>)
    requires IsBoard(b) && 0 <= k < CellCount && 0 <= n < CellCount && k != n
    requires b[k].value != 0 && b[n].value == b[k].value && IsBoard(rest.board)
    requires Combines(Merged(b, k, n), rest, s')
    ensures Combines(b, Outcome(rest.board, Merged(b, k, n)[n].value + rest.gained, rest.merges + 1, true), [b[k].value] + s')
  {
    MergedCounts(b, k, n);
    DoubledCons(b[k].value, s');
  }

  lemma {:induction false} MergeCombines(b: Board, d: Direction, pending: Pending, k: nat)
    requires IsBoard(b) && k < CellCount && ActionAt(b, d, k).MergeInto?
    ensures exists s :: Combines(b, Run(b, d, pending, k), s)
    decreases Total(b, Potential(d)), pending, CellCount - k, 0
  {
    var n := ActionAt(b, d, k).n;
    var h := Merged(b, k, n);
    MergedSums(b, d, k, n);
    RunMerge(b, d, pending, k);
    RunCombines(h, d, pending, k + 1);
    var rest := Run(h, d, pending, k + 1);
    var s' :| Combines(h, rest, s');
    CombinesAfterMerge(b, k, n, rest, s');
    assert Combines(b, Run(b, d, pending, k), [b[k].value] + s');
  }

  lemma {:induction false} SlideCombines(b: Board, d: Direction, pending: Pending, k: nat)
    requires IsBoard(b) && k < CellCount && ActionAt(b, d, k).SlideInto?
    ensures exists s :: Combines(b, Run(b, d, pending, k), s)
    decreases Total(b, Potential(d)), pending, CellCount - k, 0
  {
    var n := ActionAt(b, d, k).n;
    var h := Slid(b, k, n);
    SlidSums(b, d, k, n);
    SlidCounts(b, k, n);
    RunSlide(b, d, pending, k);
    RunCombines(h, d, Resume(k + 1, pending), 0);
    var s :| Combines(h, Run(h, d, Resume(k + 1, pending), 0), s);
    assert Combines(b, Run(b, d, pending, k), s);
  }

  /** A move never adds a tile, removes one per merge, keeps the tile sum,
      and on tile values keeps tile values and scores exactly the worth it
      adds to the board. */
  lemma MoveInvariants(b: Board, d: Direction)
    requires IsBoard(b)
    ensures Total(Move(b, d).board, TileSum) == Total(b, TileSum)
    ensures Total(Move(b, d).board, Occupied) + Move(b, d).merges == Total(b, Occupied)
    ensures AllTiles(b) ==> AllTiles(Move(b, d).board)
    ensures AllTiles(b) ==> Total(Move(b, d).board, Worth) == Total(b, Worth) + Move(b, d).gained
    ensures exists s :: Combines(b, Move(b, d), s)
  {
    RunConserves(b, d, Done, 0);
    RunCombines(b, d, Done, 0);
    if AllTiles(b) {
      RunScoresWorth(b, d, Done, 0);
    }
  }
}
