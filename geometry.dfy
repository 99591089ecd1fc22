/** Direction geometry of the four arrow handlers of the board manager.

    Each handler hands `move` a "delimiter" (may the tile at a position be
    pushed further?) and a neighbour function (which cell it is pushed into).
    The board side is hard-coded to 4, so positions run over 0..3. */
module Geometry {

  /** The four gestures the arrow keys forward to the board. */
  datatype Direction = Up | Down | Left | Right

  /** Side length of the board in rows and in columns. */
  const Size: int := 4

  /** Number of cells, the length of one row-major scan of the board. */
  const CellCount: int := Size * Size

  predicate InBounds(r: int, c: int) {
    0 <= r < Size && 0 <= c < Size
  }

  /** The delimiter of each handler: true when (r, c) is not on the edge the tiles travel towards. */
  predicate Eligible(d: Direction, r: int, c: int) {
    match d
    case Down => r < 3
    case Left => c > 0
    case Right => c < 3
    case Up => r > 0
  }

  /** The neighbour each handler reads: one step towards the target edge. */
  function Next(d: Direction, r: int, c: int): (int, int) {
    match d
    case Down => (r + 1, c)
    case Left => (r, c - 1)
    case Right => (r, c + 1)
    case Up => (r - 1, c)
  }

  /** Number of steps from (r, c) to the edge the tiles travel towards. */
  function Distance(d: Direction, r: int, c: int): nat
    requires InBounds(r, c)
  {
    match d
    case Down => 3 - r
    case Left => c
    case Right => 3 - c
    case Up => r
  }

  /** A delimiter admits exactly the positions whose neighbour is on the board,
      and each step towards the edge brings a tile one step closer to it. */
  lemma NeighbourInBounds(d: Direction, r: int, c: int)
    requires InBounds(r, c)
    ensures Eligible(d, r, c) <==> InBounds(Next(d, r, c).0, Next(d, r, c).1)
    ensures Eligible(d, r, c) <==> Distance(d, r, c) > 0
    ensures Eligible(d, r, c) ==> Distance(d, Next(d, r, c).0, Next(d, r, c).1) + 1 == Distance(d, r, c)
  {
  }
}
