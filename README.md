# 2048 board manager, modelled in Dafny

This project models the board engine of the 2048 game in `src/App.tsx`. That engine is the `useBoardManager` hook, and the model covers:

- the 4 by 4 board of cells, each holding a tile value (or none) and a `didMerge` flag;
- the current and highest score, and the `hasGameStarted` and `isGameLost` flags;
- the `move` algorithm, shared by the four arrow handlers.

`move` scans the rows top to bottom, and each row left to right, whatever the direction. At each occupied cell that the direction's delimiter admits, it looks at the neighbour:

- an empty neighbour takes the tile, and the whole scan runs again before the interrupted scan goes on;
- an equal neighbour is merged into;
- a different neighbour leaves the cell alone.

After a gesture, `onAfterMove` may clear the merge flags and spawn a 2 on a random empty cell, or declare the game lost.

The model follows the code where an idealised 2048 would differ:

- `didMerge` is never read by `move`, so a tile merged in a gesture can merge again: `[2, 2, 4, _]` moved Left becomes `[8, _, _, _]` and scores 12.
- A full board loses the game even when a merge is still possible.
- `startGame` keeps the current score.
- The arrow handlers ignore the game-phase flags.

Files:

- `geometry.dfy` (module `Geometry`): the directions, the delimiters, the neighbour steps and the distance to the target edge.
- `board_state.dfy` (module `BoardState`): the board as a value (a row-major sequence of 16 cells), `generateInitialBoardState`, `canSpawn`, `resetDidMerge`, spawning with the random draws given as a sequence, and the sums over the board that the proofs use.
- `moves.dfy` (module `Moves`): `move` as a function on boards, and what it keeps and changes, down to the number of tiles of each value.
  - `Run` is the scan. Its explicit stack of interrupted scans stands for the nested recursive calls, and it terminates by the tiles' total distance to the target edge.
  - `SweepSlide` proves that a slide runs a whole `move` and then resumes the interrupted scan.
- `engine.dfy` (module `Engine`): the class `BoardManager`.
  - Its fields are the board (an array updated in place) and the four state variables.
  - Its methods are `merge`, `move` (with the recursive call after a slide), `spawnOnRandomFreeSpot` (a loop over the draws), `updateHighestScore`, `lostGame`, `onAfterMove`, `startGame` and one arrow handler. `Session` runs the mount effect and a sequence of gestures on a new manager.
  - Each method is proved against the functions of `Moves` and `BoardState`.
- `scenarios.dfy` (module `Scenarios`): the double merge, a tile that is never split, and a full board on which Left changes nothing although Up would merge.

## Model

| member | source | states |
|---|---|---|
| Geometry.Eligible | src/App.tsx:233-271 | The four delimiters: Down admits rows below 3, Left columns above 0, Right columns below 3, Up rows above 0. Its properties are stated by Geometry.NeighbourInBounds. |
| Geometry.Next | src/App.tsx:233-271 | The four neighbour functions: one row down, one column left, one column right, one row up. Its properties are stated by Geometry.NeighbourInBounds. |
| Geometry.NeighbourInBounds | src/App.tsx:235-270 | A direction's delimiter admits a position exactly when its neighbour in that direction is on the 4 by 4 board, i.e. exactly when the position is not on the target edge; each step brings a tile one step closer to that edge. |
| BoardState.GenerateInitialBoardState | src/App.tsx:86-93 | The fresh board has `rows` rows of `columns` cells each, and every cell is empty with `didMerge` false. |
| BoardState.RowMajor | src/App.tsx:169-170 | Reading rows of 4 cells in the scan's order puts cell (r, c) at index 4r + c. |
| BoardState.InitialBoard | src/App.tsx:86-93 | `generateInitialBoardState(4, 4)` in row-major order, a board of 16 cells; BoardState.GeneratedIsInitial ties it to the generator, BoardState.InitialBoardIsEmpty states what it holds. |
| BoardState.GeneratedIsInitial | src/App.tsx:86-93 | The generated 4 by 4 board, read row by row, is the board a game starts from. |
| BoardState.InitialBoardIsEmpty | src/App.tsx:86-93 | The starting board has no tile and no merge flag; it can take a spawn, and every sum over it is 0. |
| BoardState.CanSpawn | src/App.tsx:197-201 | `canSpawn` holds exactly when some cell is empty. |
| BoardState.SpawnIffRoom | src/App.tsx:197-201 | A board holds at most 16 tiles, and `canSpawn` holds exactly when it holds fewer. |
| BoardState.ResetDidMerge | src/App.tsx:203-207 | Every cell keeps its value and has its merge flag cleared. |
| BoardState.ResetKeepsValues | src/App.tsx:203-207 | Clearing the flags keeps `canSpawn`, every sum over the board and the tile values. |
| BoardState.FirstFreePick | src/App.tsx:143-152 | The retrying spawn stops at the first draw that lands on an empty cell; every earlier draw landed on an occupied one. |
| BoardState.CoversFindsFree | src/App.tsx:143-152 | A source that draws every position sooner or later reaches an empty cell whenever the board has one. |
| BoardState.SpawnAt | src/App.tsx:147 | Writing `number: 2` into the drawn cell keeps a 16-cell board; BoardState.SpawnAtEffect states its effect. |
| BoardState.SpawnOnFreeSpot | src/App.tsx:143-152 | `spawnOnRandomFreeSpot`: the spawn at the first draw that lands on an empty cell; BoardState.SpawnFillsOneFreeCell states its effect. |
| BoardState.SpawnAtEffect | src/App.tsx:146-148 | Writing the spawned tile puts a 2 on the drawn empty cell, keeps its flag and every other cell; the tile count rises by one and the tile sum by two. |
| BoardState.SpawnFillsOneFreeCell | src/App.tsx:143-152 | A spawn turns exactly one previously empty cell into a 2 and leaves every other cell unchanged. |
| BoardState.SpawnAfterReset | src/App.tsx:214-216 | After a gesture that leaves an empty cell, the flag reset and the spawn succeed, keep tile values and add no worth. |
| BoardState.SpawnOnInitialBoard | src/App.tsx:281-283 | A new game's board holds exactly one tile, a 2. |
| Moves.Merged | src/App.tsx:154-162 | The board after `merge(col, nextCol)` keeps 16 cells; Moves.MergedCells, Moves.MergedSums and Moves.MergedWorth state what it holds. |
| Moves.Slid | src/App.tsx:185-186 | The board after a slide keeps 16 cells; Moves.SlidCells and Moves.SlidSums state what it holds. |
| Moves.MergedCells | src/App.tsx:154-163 | A merge doubles the target and flags it, empties the source and changes no other cell. |
| Moves.MergedSums | src/App.tsx:154-163 | A merge keeps the tile sum, removes one tile and lowers the total distance to the edge. |
| Moves.MergedTiles | src/App.tsx:155 | On powers of two, a merge leaves powers of two. |
| Moves.MergedWorth | src/App.tsx:155-159 | The score a merge adds (the new target value) is the worth it adds to the board. |
| Moves.SlidCells | src/App.tsx:185-186 | A slide moves the value into the empty neighbour, empties the source, keeps both flags and changes no other cell. |
| Moves.MergedCounts | src/App.tsx:154-162 | Counted value by value, a merge of two tiles v takes both off the board and puts one tile 2v on; no other value changes. |
| Moves.SlidSums | src/App.tsx:185-186 | A slide keeps the tile sum, the tile count and the worth, and lowers the tile's distance to the edge by one. |
| Moves.ActionAt | src/App.tsx:171-189 | Any cell that acts is occupied and not on the target edge: a merge targets an equal neighbour, a slide targets an empty one one step closer to the edge. |
| Moves.ActionAtActs | src/App.tsx:171-177 | The scan acts at a cell exactly when that cell is occupied, admitted by the delimiter, and its neighbour is empty or equal; it acts on that neighbour. |
| Moves.Run | src/App.tsx:165-195 | `move` while it runs, with the scans that slides interrupted kept on a stack; it terminates because every slide lowers the tiles' total distance to the target edge and nothing raises it. Its properties are the lemmas below. |
| Moves.Sweep | src/App.tsx:169-194 | One call of `move` resumed at cell k with no interrupted scan under it. |
| Moves.Move | src/App.tsx:165-195 | The `move` of one gesture, from the first cell; Moves.MovedIffMovable, Moves.MoveInvariants and Moves.MoveLeavesRoom state what it does. |
| Moves.SlidCounts | src/App.tsx:185-186 | A slide keeps the number of tiles of every value. |
| Moves.RunOverEmpty | src/App.tsx:171 | A scan over empty cells changes nothing. |
| Moves.RunThen | src/App.tsx:169-193 | A scan with interrupted scans under it computes what the scans compute one after the other. Moves.MergeThen and Moves.SlideThen prove the merge and slide cases. |
| Moves.SweepSlide | src/App.tsx:183-188 | After a slide, the rest of `move` is a whole `move` on the new board, followed by the interrupted scan from the next cell; their scores and merges add up. |
| Moves.RunConserves | src/App.tsx:165-195 | A move keeps the tile sum, and the tile count drops by exactly the number of merges. |
| Moves.RunScoresWorth | src/App.tsx:154-195 | On powers of two, a move leaves powers of two, and the points it scores equal the worth it adds to the board. |
| Moves.SweepIdle | src/App.tsx:167-194 | A scan reports a move exactly when some cell ahead of it can act; when it reports none, it changed nothing and scored nothing. |
| Moves.MovedIffMovable | src/App.tsx:165-195 | `didMoveOrMerge` is set exactly when some cell can slide or merge; when it is not set, the board and the score are unchanged. |
| Moves.FullSweepMerges | src/App.tsx:175-189 | On a full board, a scan that moves merges at least once. |
| Moves.MoveLeavesRoom | src/App.tsx:213-221 | A gesture that moves always leaves an empty cell, so the game is lost only after a gesture that changed nothing on a full board. |
| Moves.RunCombines | src/App.tsx:165-195 | Tiles only move or combine in equal pairs. Some list s of merged values, one per merge, accounts for the run: for every value w > 0, the tiles of value w it leaves plus twice the occurrences of w in s equal the tiles of value w before plus the occurrences of w among the doubles of s, and the points scored are the sum of those doubles. This is the multiset equation tiles(after) + s + s = tiles(before) + doubled(s), stated value by value. Moves.MergeCombines and Moves.SlideCombines prove the merge and slide cases. |
| Moves.MoveInvariants | src/App.tsx:165-195 | For a whole move: the tile sum is kept, one tile goes per merge, on powers of two the score gained equals the worth added, and the tiles are conserved in the sense of Moves.RunCombines (moved, or merged in equal pairs, never split). |
| Engine.Max | src/App.tsx:210 | `Math.max`: at least both arguments, and one of them. |
| Engine.BoardManager.constructor | src/App.tsx:136-140 | The initial state: an empty board, both scores 0, neither started nor lost. |
| Engine.BoardManager.SetBoardState | src/App.tsx:139 | The board is replaced by the given one. |
| Engine.BoardManager.UpdateHighestScore | src/App.tsx:209-211 | The highest score becomes the larger of the given score and its old value. |
| Engine.BoardManager.Merge | src/App.tsx:154-163 | The board becomes the merged board; the current score rises by the new target value, and the highest score follows. |
| Engine.BoardManager.Slide | src/App.tsx:185-186 | The board becomes the slid board. |
| Engine.BoardManager.MoveInPlace | src/App.tsx:165-195 | The in-place scan leaves the board, score and flag that `Moves.Move` computes; the highest score ends at the maximum of itself and the new score. |
| Engine.BoardManager.MoveCell | src/App.tsx:170-191 | One cell of the scan, with the recursive `move` after a slide: the rest of the scan from the next cell ends where the scan from this cell would have ended, and their scores agree. |
| Engine.BoardManager.Spawn | src/App.tsx:143-152 | The loop stops at the first draw on an empty cell and writes a 2 there. |
| Engine.BoardManager.LostGame | src/App.tsx:224-228 | The game is stopped and marked lost; the highest score already covers the current one. |
| Engine.BoardManager.OnAfterMove | src/App.tsx:213-222 | On a full board the game ends and is lost. With an empty cell, a gesture that moved clears the flags and spawns once; one that did not changes nothing. The scores stay. |
| Engine.BoardManager.StartGame | src/App.tsx:278-284 | The new game has one 2 on an empty board and is started and not lost. The current and highest scores are kept. |
| Engine.BoardManager.OnArrow | src/App.tsx:242-252 | One arrow gesture is `move` then `onAfterMove`, whatever the game phase. The game invariant is kept, the score gains what the move scored, the highest score never decreases, and a gesture that changes nothing on a full board loses. |
| Engine.Session | src/App.tsx:278-316 | The hook's initial state, then the mount effect's `startGame`. Then any sequence of events, each with its own random draws: arrow gestures, and `startGame` clicks on the Reset button or on either overlay. The game invariant holds after each event, and the page shows exactly one of a running game and the "You lost" overlay. |
| Scenarios.LeftMergesTwice | src/App.tsx:175-188 | `[2, 2, 4, _]` moved Left becomes `[8, _, _, _]`, with two merges and 12 points. |
| Scenarios.SecondPass | src/App.tsx:183-188 | The scan a slide starts on `[4, 4, _, _]` merges once for 8 points, then the interrupted scan finds only empty cells and the gesture ends. |
| Scenarios.NoSplit | src/App.tsx:154-162 | A gesture with one merge never takes the only 8 off the board. An 8 can leave only by merging with another 8, so an 8 is never split into two 4s. |
| Scenarios.FullBoardStuckLeft | src/App.tsx:213-221 | A full board of rows `[2, 4, 2, 4]` does not move Left, so that gesture leaves no empty cell; moving Up would have merged. |

## Left out

- React state semantics. Every state update takes effect at once, in the order it is issued. The model does not capture:
  - batched or deferred updater functions;
  - `merge`'s score updater reading `nextCol.number` later, after further merges;
  - the value the arrow handler's board updater returns. The model takes it to be superseded by the later `setBoardState` of `onAfterMove`.
- Engine.BoardManager.UpdateHighestScore: compares with the current highest score, not with the stale value that the listener closure (registered once, with no dependencies) captured.
- Engine.BoardManager.LostGame: passes the live current score. In the source the keyboard listener is registered once (src/App.tsx:126-131, no dependencies), so every gesture runs the first render's closures: `lostGame` passes that render's `currentScore`, which is 0, and `updateHighestScore` compares it with that render's `highestScore`, also 0. A lost game therefore sets the displayed "Highest" to 0 in the source, while the model keeps it.
- Engine.BoardManager.OnArrow: that the highest score never decreases is a property of the model, with scores read live, not of the program. For the same reason `merge` in the source sets the highest score to the new current score, not to the larger of the two.
- The cell's `id` field. It is only a rendering key.
- `Math.random`. The draws are a sequence given by the caller, and a fair source is a sequence in which every position appears.
  - On a full board the source's spawn keeps calling itself; in V8 (Chrome, Node) and SpiderMonkey (Firefox), which do not implement proper tail calls, the stack overflows and a `RangeError` is thrown, while in JavaScriptCore (Safari), which does, the call never returns. Engine.BoardManager.Spawn therefore requires a draw that lands on an empty cell.
- Board layout. The board is one row-major array of 16 cells, not four row arrays.
  - The two nested `forEach` loops are one loop over the row-major index.
  - The row arrays shared between `[...boardState]` and the previous state are not modelled.
- Moves.Run: the nested recursive calls of `move` are an explicit stack of interrupted scans. Engine.BoardManager.MoveInPlace keeps the source's recursion.
- `useArrowKeys`, the keyboard listener, `console.log`, the components and the colour mapping. The mount effect `useEffect(() => startGame(), [])` is modelled only as the call of `StartGame` at the start of Engine.Session.
- Board size. The engine is fixed at 4 by 4, as the source's hard-coded 3s and 4s are; only `generateInitialBoardState` takes any shape.
