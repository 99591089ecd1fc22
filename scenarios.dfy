/** Single gestures on boards described cell by cell. */
module Scenarios {
  import opened Geometry
  import opened BoardState
  import opened Moves

  /** The top row holds the given values, left to right, and every other
      cell is empty. */
  predicate TopRow(b: Board, v0: nat, v1: nat, v2: nat)
    requires IsBoard(b)
  {
    b[0].value == v0 && b[1].value == v1 && b[2].value == v2 &&
    forall j :: 3 <= j < CellCount ==> b[j].value == 0
  }

  /** On `[2, 2, 4, _]` the first cell stays on the edge and the second
      merges into it. */
  lemma FirstMerge(b: Board)
    requires IsBoard(b) && TopRow(b, 2, 2, 4)
    ensures ActionAt(b, Left, 0) == Skip && ActionAt(b, Left, 1) == MergeInto(0)
  {
  }

  /** That merge leaves `[4, _, 4, _]`. */
  lemma FirstMergeLeaves(b: Board)
    requires IsBoard(b) && TopRow(b, 2, 2, 4)
    ensures TopRow(Merged(b, 1, 0), 4, 0, 4)
  {
    MergedCells(b, 1, 0);
  }

  /** On `[4, _, 4, _]` the third cell slides into the emptied second one. */
  lemma ThenSlide(b: Board)
    requires IsBoard(b) && TopRow(b, 4, 0, 4)
    ensures ActionAt(b, Left, 2) == SlideInto(1)
  {
  }

  /** That slide leaves `[4, 4, _, _]`. */
  lemma ThenSlideLeaves(b: Board)
    requires IsBoard(b) && TopRow(b, 4, 0, 4)
    ensures TopRow(Slid(b, 2, 1), 4, 4, 0)
  {
    SlidCells(b, 2, 1);
  }

  /** On `[4, 4, _, _]` the second cell merges into the first, which may
      already have merged in this gesture. */
  lemma SecondMerge(b: Board)
    requires IsBoard(b) && TopRow(b, 4, 4, 0)
    ensures ActionAt(b, Left, 0) == Skip && ActionAt(b, Left, 1) == MergeInto(0)
  {
  }

  /** That merge leaves `[8, _, _, _]`, the 8 flagged as merged. */
  lemma SecondMergeLeaves(b: Board)
    requires IsBoard(b) && TopRow(b, 4, 4, 0)
    ensures Merged(b, 1, 0)[0] == Cell(8, true) && TopRow(Merged(b, 1, 0), 8, 0, 0)
  {
    MergedCells(b, 1, 0);
  }

  /** The scan the slide starts, on `[4, 4, _, _]`, merges once for 8 points
      and hands back to the interrupted scan, which finds only empty cells. */
  lemma SecondPass(b: Board)
    requires IsBoard(b) && TopRow(b, 4, 4, 0)
    ensures Run(b, Left, Resume(3, Done), 0) == Outcome(Merged(b, 1, 0), 8, 1, true)
  {
    SecondMerge(b);
    SecondMergeLeaves(b);
    RunSkip(b, Left, Resume(3, Done), 0);
    RunMerge(b, Left, Resume(3, Done), 1);
    var h := Merged(b, 1, 0);
    RunOverEmpty(h, Left, Resume(3, Done), 2);
    RunPop(h, Left, 3, Done, CellCount);
    RunOverEmpty(h, Left, Done, 3);
  }

  /** The first pass on `[2, 2, 4, _]`: a merge, then a slide whose nested
      scan does the rest. */
  lemma FirstPass(b: Board)
    requires IsBoard(b) && TopRow(b, 2, 2, 4)
    ensures var b2 := Slid(Merged(b, 1, 0), 2, 1);
      Move(b, Left) == Outcome(Merged(b2, 1, 0), 12, 2, true) && TopRow(b2, 4, 4, 0)
  {
    FirstMerge(b);
    FirstMergeLeaves(b);
    var b1 := Merged(b, 1, 0);
    ThenSlide(b1);
    ThenSlideLeaves(b1);
    var b2 := Slid(b1, 2, 1);
    SecondPass(b2);
    RunSkip(b, Left, Done, 0);
    RunMerge(b, Left, Done, 1);
    RunSlide(b1, Left, Done, 2);
  }

  /** Nothing stops a merged tile from merging again in the same gesture:
      `[2, 2, 4, _]` moved Left becomes `[8, _, _, _]`, merging twice and
      scoring 12. */
  lemma LeftMergesTwice(b: Board)
    requires IsBoard(b) && TopRow(b, 2, 2, 4)
    ensures Move(b, Left).board[0] == Cell(8, true)
    ensures forall j :: 1 <= j < CellCount ==> Move(b, Left).board[j].value == 0
    ensures Move(b, Left).gained == 12 && Move(b, Left).merges == 2 && Move(b, Left).moved
  {
    FirstPass(b);
    SecondMergeLeaves(Slid(Merged(b, 1, 0), 2, 1));
  }

  /** One merge that combined the tiles it claims cannot take the only 8
      off the board: an 8 leaves only by merging with another 8. */
  lemma OneMergeKeepsLoneEight(b: Board, o: Outcome, s: seq<nat>)
    requires IsBoard(b) && IsBoard(o.board) && Combines(b, o, s)
    requires Total(b, OfValue(8)) == 1 && o.merges == 1
    ensures Total(o.board, OfValue(8)) != 0
  {
    assert s == [s[0]] + [];
    DoubledCons(s[0], []);
    assert Doubled([]) == [];
  }

  /** A tile is never split: a gesture with one merge cannot take the only
      8 off the board, as a split of 8 into two 4s would. */
  lemma NoSplit(b: Board, d: Direction)
    requires IsBoard(b) && Total(b, OfValue(8)) == 1 && Move(b, d).merges == 1
    ensures Total(Move(b, d).board, OfValue(8)) != 0
  {
    RunCombines(b, d, Done, 0);
    var s :| Combines(b, Run(b, d, Done, 0), s);
    OneMergeKeepsLoneEight(b, Run(b, d, Done, 0), s);
  }

  /** Every row reads `[2, 4, 2, 4]`. */
  predicate Striped(b: Board)
    requires IsBoard(b)
  {
    forall r, c :: 0 <= r < Size && 0 <= c < Size ==> b[Index(r, c)].value == (if c == 0 || c == 2 then 2 else 4)
  }

  /** A striped board has no empty cell. */
  lemma StripedIsFull(b: Board)
    requires IsBoard(b) && Striped(b)
    ensures !CanSpawn(b)
  {
    forall k | 0 <= k < CellCount ensures b[k].value != 0 {
      PositionIndex(k);
    }
  }

  /** On a striped board no cell can act Left: each neighbour differs. */
  lemma StripedSkipsLeft(b: Board, k: int)
    requires IsBoard(b) && Striped(b) && 0 <= k < CellCount
    ensures ActionAt(b, Left, k) == Skip
  {
    PositionIndex(k);
    var r, c := RowAt(k), ColAt(k);
    if c > 0 {
      IndexPosition(r, c - 1);
      assert b[Index(r, c - 1)].value != b[Index(r, c)].value;
    }
  }

  /** Up merges the first cell of the second row into the one above it. */
  lemma StripedMergesUp(b: Board)
    requires IsBoard(b) && Striped(b)
    ensures ActionAt(b, Up, 4) == MergeInto(0)
  {
    assert b[Index(1, 0)].value == 2 && b[Index(0, 0)].value == 2;
  }

  /** A full board can be lost while a merge is still possible: on rows
      `[2, 4, 2, 4]` Left changes nothing, so no cell is freed for the
      spawn, although Up would merge. */
  lemma FullBoardStuckLeft(b: Board)
    requires IsBoard(b) && Striped(b)
    ensures !CanSpawn(b)
    ensures Move(b, Left) == Outcome(b, 0, 0, false)
    ensures Move(b, Up).moved
  {
    StripedIsFull(b);
    forall k | 0 <= k < CellCount ensures ActionAt(b, Left, k) == Skip {
      StripedSkipsLeft(b, k);
    }
    assert !ActsFrom(b, Left, 0);
    SweepIdle(b, Left, 0);
    StripedMergesUp(b);
    SweepIdle(b, Up, 0);
  }
}
