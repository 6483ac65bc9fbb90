# gamey core: the game of Y, modelled in Dafny

The game engine `gamey` plays Y. Two players take turns putting stones on a triangular board. A player wins by joining all three sides of the triangle with one chain of their own stones. This project models the core of that engine and proves what its code promises:

- **`Topology`** (`topology/mod.rs`): the board contract. Cells are indices, each with a neighbour list and a bit mask of the sides it touches, and the board has a winning mask.
- **`Coords`**: the barycentric coordinates `(x, y, z)` with `x + y + z = size - 1`, and the numbering of cells row by row from the top corner. The crate's `Coordinates` type is not part of this model. Its `to_index`/`from_index` are given an assumed definition here, and the round trips between them are proved.
- **`Triangular`** (`topology/triangular.rs`): the triangular board.
  - `CellRegions` and `NeighborIndices` define what each cell should hold.
  - `NewTopology` is the table-filling loop of `TriangularTopology::new`, proved to build exactly those tables.
  - Proved about the tables: neighbours are the cells one step away, adjacency is symmetric and irreflexive, every neighbour is in range, and the winning mask is the three side bits.
- **`UnionFind`, `Masks`, `Groups`**: the meaning of the engine's data.
  - `UnionFind`: the union-find forest and its roots.
  - `Masks`: the OR of the side masks of a set of cells.
  - `Groups`: connected groups of same-player stones, and `WinsAt`, which holds when the group of a stone touches every winning side.
- **`Engine`** (`topology/engine.rs`): the class `GameEngine`, with `find` (path compression), `union` and `make_move`.
  - The engine invariant says that the forest's roots are exactly the connected groups, and that each root's mask is the OR of its group's sides. The constructor establishes it and `make_move` keeps it.
  - `find` keeps the forest, every root and every mask. `union` keeps the forest and states the new roots and masks. While `make_move` joins the new stone to its neighbours, the invariant holds except for that stone.
  - `make_move` answers `Ok(true)` exactly when the new stone's group touches all three sides.
- **`Game`** (`game.rs`): the game status, movements and turn rules, specified on values (`Play`, `Replay`). The class `GameY` keeps the same data in fields, and its `add_move` is proved to follow `Play`, with `available_cells` always equal to the empty cells in ascending order.
- **`Yen`** (`game.rs`, `TryFrom<YEN>` and `From<&GameY>`): the YEN layout text.
  - Loading is specified by `ParseLayout`: the moves, or the first error in reading order. `FromYen` is the loader, proved against that specification.
  - Printing is specified by `PrintLayout`. `ToYen` is the printer, proved against it.
  - The lemmas connect the two directions: parse then print, and print then parse.

Functions with no `ensures` of their own are given meaning by the lemmas listed next to them. Examples: `Tri`, `Sides`, `StatusAfterPlacement`, `StatusAfterAction`, `EmptyCells`, `Play`, `Replay`, `LayoutBoard`, `PrintLayout`, `WinsAt`.

## Model

| member | source | states |
|---|---|---|
| Coords.TriFormula | gamey/src/core/game.rs:78-80 | The row-by-row cell count of a side-`r` triangle equals `r(r+1)/2`, the number `total_cells` computes |
| Coords.TriUnique | gamey/src/core/game.rs:341-345 | A row and a column inside that row name one cell index, and no other pair names it |
| Coords.FromIndex | gamey/src/core/topology/triangular.rs:32-33 | The coordinates of every in-range cell index lie on the board: `x + y + z = size - 1` |
| Coords.FromIndexFacts | gamey/src/core/topology/triangular.rs:32-33 | `to_index` undoes `from_index` for every index below `total_cells` |
| Coords.IndexRoundTrip | gamey/src/core/topology/triangular.rs:62-64 | Every on-board cell has an index below `total_cells`, and `from_index` undoes `to_index` |
| Coords.RowColumnIndex | gamey/src/core/game.rs:341-345 | The cell in column `col` of layout row `r` has index `Tri(r) + col`, on the board, at coordinates `(size-1-r, col, r-col)` |
| Triangular.CellRegions | gamey/src/core/topology/triangular.rs:35-40 | A cell's mask has bit A exactly when x = 0, bit B exactly when y = 0, bit C exactly when z = 0, and no other bit |
| Triangular.NeighborsAreOneStep | gamey/src/core/topology/triangular.rs:48-59 | The pushed coordinates are exactly the cells one step away: same coordinate sum, one coordinate up by 1 and one down by 1 |
| Triangular.NeighborCoords | gamey/src/core/topology/triangular.rs:48-59 | A cell has at most six neighbours |
| Triangular.NeighborIndices | gamey/src/core/topology/triangular.rs:61-64 | A cell's neighbour list has one index per neighbour coordinate |
| Triangular.NeighborIndexAt | gamey/src/core/topology/triangular.rs:48-64 | The k-th neighbour index is below `total_cells`. It names the k-th neighbour coordinates, one step away, and is never the cell itself |
| Triangular.NeighborsSymmetric | gamey/src/core/topology/triangular.rs:48-59 | If `d` is a neighbour of `c`, then `c` is a neighbour of `d` |
| Triangular.NeighborsInRange | gamey/src/core/topology/triangular.rs:62-64 | Every neighbour index is below `total_cells` and differs from the cell |
| Triangular.TriangularTopology.TotalCells | gamey/src/core/topology/triangular.rs:76-78 | For a built topology, `total_cells` equals the length of both precomputed tables |
| Triangular.TriangularTopology.GetNeighbors | gamey/src/core/topology/triangular.rs:80-82 | In a built topology the stored neighbour list of a cell is the list of cells one step away from it (partner: `GetNeighborsInRange`) |
| Triangular.TriangularTopology.GetCellRegions | gamey/src/core/topology/triangular.rs:84-86 | In a built topology the stored mask of a cell is the set of sides its coordinates lie on (partner: `CellRegionsInWinningMask`) |
| Triangular.TriangularTopology.WinningMask | gamey/src/core/topology/triangular.rs:88-91 | The winning mask holds the three side bits and no other bit (partner: `WinningMaskIsAllSides`) |
| Triangular.GetNeighborsInRange | gamey/src/core/topology/triangular.rs:80-82 | `get_neighbors` returns at most six cells, each in range and none the cell itself |
| Triangular.CellRegionsInWinningMask | gamey/src/core/topology/triangular.rs:84-86 | `get_cell_regions` sets only bits the winning mask asks for |
| Triangular.WinningMaskIsAllSides | gamey/src/core/topology/triangular.rs:88-91 | The winning mask is `0b111`. A mask covers it exactly when it holds all three side bits |
| Triangular.NeighborCellsOf | gamey/src/core/game.rs:236-242 | For an on-board cell, `get_neighbors` returns exactly its neighbour coordinates, in the order they were pushed |
| Triangular.SideFiveNeighbors | gamey/src/core/game.rs:463-511 | On a side-5 board, (2,1,1) has six neighbours, (4,0,0) two and (0,2,2) four, each list exactly the expected cells |
| Triangular.Build | gamey/src/core/topology/triangular.rs:26-72 | For every size there is a topology whose tables hold every cell's neighbours and sides |
| Triangular.ValidIsBuild | gamey/src/core/topology/triangular.rs:26-72 | A topology whose tables are correct is determined by its size |
| Triangular.ValidSymmetric | gamey/src/core/topology/triangular.rs:43-64 | In the adjacency table every neighbour is in range and differs from the cell, and adjacency is symmetric |
| Triangular.ValidIsBoardTopology | gamey/src/core/topology/mod.rs:20-32 | The triangular topology meets the board contract: one neighbour list and one mask per cell, and every neighbour a valid cell |
| Triangular.ValidIsBoard | gamey/src/core/topology/mod.rs:20-32 | The triangular topology meets the board contract, with symmetric and irreflexive adjacency |
| Triangular.PushNeighbors | gamey/src/core/topology/triangular.rs:43-59 | The pushes build exactly the neighbour coordinates, in order |
| Triangular.IndicesOf | gamey/src/core/topology/triangular.rs:62-64 | The j-th pushed index is `to_index` of the j-th neighbour coordinates |
| Triangular.NeighborsOf | gamey/src/core/topology/triangular.rs:43-64 | The list pushed for a cell is that cell's neighbour index list |
| Triangular.UpToIsBuild | gamey/src/core/topology/triangular.rs:32-65 | Tables filled cell by cell up to the last cell are those of the built topology |
| Triangular.SidesOf | gamey/src/core/topology/triangular.rs:36-39 | The OR-ed mask is the sides the cell lies on |
| Triangular.NewTopology | gamey/src/core/topology/triangular.rs:26-72 | `new(size)` fills both tables correctly for every cell, with the given size |
| Topology.CoversGrow | gamey/src/core/topology/engine.rs:111-117 | OR-ing in more regions never loses a win |
| UnionFind.Root | gamey/src/core/topology/engine.rs:91-100 | Following parents from set `k` ends at a set at or after `k` that is its own parent |
| UnionFind.RootOfRoot | gamey/src/core/topology/engine.rs:92-93 | A set is a root exactly when it is its own parent. The newest set is always a root |
| UnionFind.SameParentsSameRoots | gamey/src/core/topology/engine.rs:91-100 | Forests with the same parents have the same roots. Changing masks never changes roots |
| UnionFind.AppendKeepsRoots | gamey/src/core/topology/engine.rs:55-59 | Pushing a new singleton set keeps the forest well ordered and changes no existing root |
| UnionFind.CompressKeepsRoots | gamey/src/core/topology/engine.rs:95-98 | Pointing a set straight at its root keeps the forest well ordered and changes no root |
| UnionFind.LinkRoots | gamey/src/core/topology/engine.rs:108-110 | Hanging root `a` under a later root `b` sends exactly `a`'s tree to `b` |
| UnionFind.LinkFacts | gamey/src/core/topology/engine.rs:108-113 | After linking, the sequence is still a forest, `a`'s tree has root `b`, and every other root is unchanged |
| UnionFind.LinkRegions | gamey/src/core/topology/engine.rs:111-112 | After linking, `b`'s mask is the OR of both masks, and every other mask is unchanged |
| UnionFind.UnionEffect | gamey/src/core/topology/engine.rs:104-113 | After `union(i, j)`, either `j` already shared `i`'s root and nothing changed, or `j`'s tree now has root `i` and `i` holds both masks |
| Masks.MaskOfMember | gamey/src/core/topology/engine.rs:12-13 | A group's mask includes every member's regions |
| Masks.MaskOfUnion | gamey/src/core/topology/engine.rs:111-112 | The mask of a union of groups is the OR of their masks |
| Masks.MaskOfSingleton | gamey/src/core/topology/engine.rs:54-59 | A one-stone group touches exactly that cell's regions |
| Masks.MaskOfSame | gamey/src/core/topology/engine.rs:12-13 | Groups with the same cells on the board have the same mask |
| Groups.ConnectedEnds | gamey/src/core/topology/engine.rs:67-76 | Connected stones belong to the same player |
| Groups.ConnectedStep | gamey/src/core/topology/engine.rs:67-76 | A connection extends to a neighbouring stone of the same player |
| Groups.ConnectedTrans | gamey/src/core/topology/engine.rs:104-113 | Connections compose |
| Groups.ConnectedMono | gamey/src/core/topology/engine.rs:50-51 | Placing more stones never breaks a connection |
| Groups.LoneStone | gamey/src/core/topology/engine.rs:79-85 | A stone with no other stone of its player is a group of its own |
| Groups.PathStaysInGroup | gamey/src/core/topology/engine.rs:22-23 | Along a chain of same-player stones, a complete labelling keeps one label |
| Groups.GroupIsComponent | gamey/src/core/topology/engine.rs:22-23 | A complete and sound labelling names exactly the connected groups |
| Groups.RelabelKeepsComplete | gamey/src/core/topology/engine.rs:108-110 | Merging two labels keeps neighbouring same-player stones equally labelled |
| Groups.RelabelGroups | gamey/src/core/topology/engine.rs:108-110 | Relabelling `a` as `b` merges those two groups and leaves every other group alone |
| Groups.MergeKeepsSound | gamey/src/core/topology/engine.rs:67-74 | Merging the labels of two neighbouring same-player stones keeps every group connected |
| Groups.CompleteAround | gamey/src/core/topology/engine.rs:67-77 | Once the new stone shares the label of every same-player neighbour, the labelling is complete |
| Engine.EmptyInv | gamey/src/core/topology/engine.rs:30-38 | An empty board with no sets satisfies the engine invariant |
| Engine.LabelsLink | gamey/src/core/topology/engine.rs:108-110 | Linking two roots relabels exactly the cells of the linked tree |
| Engine.SameRootsKeepInv | gamey/src/core/topology/engine.rs:91-100 | Path compression, which keeps every root and mask, keeps the invariant and the labels |
| Engine.PlaceKeepsInv | gamey/src/core/topology/engine.rs:50-60 | Placing a stone with a fresh singleton set keeps the invariant everywhere except at the new stone |
| Engine.UnionKeepsInv | gamey/src/core/topology/engine.rs:104-113 | Uniting the new stone's set with a same-player neighbour keeps the invariant and merges the two labels |
| Engine.LinkKeepsMasks | gamey/src/core/topology/engine.rs:111-112 | After a link, every root mask is still the OR of its group's regions |
| Engine.OtherGroupKept | gamey/src/core/topology/engine.rs:108-112 | A group the link does not touch keeps its label, mask and members |
| Engine.JoinedKeepsInv | gamey/src/core/topology/engine.rs:62-85 | Once every same-player neighbour is joined, the invariant holds in full. The root covers the winning mask exactly when the group wins |
| Engine.StartJoining | gamey/src/core/topology/engine.rs:50-60 | Placing the stone and its fresh set starts the neighbour loop with no neighbour joined yet |
| Engine.FinishJoining | gamey/src/core/topology/engine.rs:67-85 | After the loop the invariant holds, and the new set's mask covers the winning mask exactly when the stone's group wins |
| Engine.JoiningFacts | gamey/src/core/topology/engine.rs:67-70 | In the loop each neighbour is a valid cell, and an occupied neighbour has a set |
| Engine.SkipNeighbor | gamey/src/core/topology/engine.rs:68-69 | An empty neighbour, or one of the other player, needs no union |
| Engine.JoinStep | gamey/src/core/topology/engine.rs:69-74 | A union with a same-player neighbour advances the loop by one neighbour and never loses a win |
| Engine.GameEngine.constructor | gamey/src/core/topology/engine.rs:30-38 | `new` gives every cell an empty state and no set, with no sets at all, and the invariant holds |
| Engine.GameEngine.Find | gamey/src/core/topology/engine.rs:91-100 | `find` returns the root of `i`, and its path compression changes no root, no mask and no cell |
| Engine.GameEngine.Union | gamey/src/core/topology/engine.rs:104-118 | `union` links `j`'s root under `i` and ORs in its mask. It returns true exactly when `i`'s mask now covers the winning mask |
| Engine.GameEngine.JoinNeighbors | gamey/src/core/topology/engine.rs:62-77 | The neighbour loop joins every same-player neighbour, and `won` implies the new set covers the winning mask |
| Engine.GameEngine.JoinNeighbor | gamey/src/core/topology/engine.rs:67-76 | One loop turn unites exactly when the neighbour holds the mover's stone, and never loses a win |
| Engine.GameEngine.MakeMove | gamey/src/core/topology/engine.rs:42-88 | Out-of-range and occupied cells are refused with nothing changed. Otherwise the stone is placed with a fresh set, the invariant is kept, and the answer is `Ok(true)` exactly when the stone's group touches all winning sides |
| Game.OtherPlayer | gamey/src/core/game.rs:405-412 | The opponent is always 0 or 1, and differs from a real player |
| Game.OtherPlayerInvolution | gamey/src/core/game.rs:436-440 | On players 0 and 1, `other_player` swaps them and undoes itself |
| Game.CheckGameOver | gamey/src/core/game.rs:65-70 | The game is over exactly when its status is `Finished` (partner: `NextPlayer`) |
| Game.NextPlayer | gamey/src/core/game.rs:102-108 | There is no next player exactly when the game is over. Otherwise the next player is the one in the status |
| Game.CheckPlayerTurn | gamey/src/core/game.rs:85-99 | A move is refused exactly when the game is ongoing and made by someone other than the next player, and the error names both players |
| Game.PlacementStatus | gamey/src/core/game.rs:181-193 | A finished game keeps its status. Otherwise the game ends exactly when the move won, with the mover as winner, and else the opponent moves next |
| Game.ActionStatus | gamey/src/core/game.rs:196-209 | After a resignation the game is over and won by the opponent. After a swap the opponent moves next, and the swapper is out of turn |
| Game.EmptyUpToExactly | gamey/src/core/game.rs:72-75 | The empty cells below `n` are listed exactly, in strictly ascending order |
| Game.EmptyCellsExactly | gamey/src/core/game.rs:72-75 | `available_cells` lists exactly the empty cells, in strictly ascending order |
| Game.Without | gamey/src/core/game.rs:157 | `retain(x != idx)` keeps exactly the other cells |
| Game.FillUpTo | gamey/src/core/game.rs:155-158 | Filling a cell removes exactly that cell from the empty cells below `n` |
| Game.FillCell | gamey/src/core/game.rs:155-158 | Filling a cell removes exactly that cell from `available_cells`, keeping the order |
| Game.AllEmptyUpTo | gamey/src/core/game.rs:55 | On an empty board the empty cells below `n` are `0..n` |
| Game.EmptyBoard | gamey/src/core/game.rs:43-57 | An empty board has every cell available: `(0..total_cells).collect()` |
| Game.NewStateConsistent | gamey/src/core/game.rs:43-57 | A new game's available cells are exactly its empty cells |
| Game.PlayKeepsConsistent | gamey/src/core/game.rs:136-160 | Every accepted move keeps `available_cells` equal to the empty cells in ascending order |
| Game.PlacementAlwaysAccepted | gamey/src/core/game.rs:136-178 | A placement is accepted exactly when its cell is empty, whoever's turn it is and even after the game ended. It then fills the cell and is recorded. An occupied cell gives `Occupied` |
| Game.FinishedStaysFinished | gamey/src/core/game.rs:181-186 | Once a game is finished, no sequence of placements changes its status |
| Game.GameY.constructor | gamey/src/core/game.rs:43-57 | `GameY::new` gives an empty board, player 0 to move, no history and every cell available |
| Game.GameY.TotalCells | gamey/src/core/game.rs:78-80 | `total_cells` is the number of cells of the engine's board and topology |
| Game.GameY.ValidatePlacement | gamey/src/core/game.rs:212-226 | Validation succeeds exactly when the target cell is among the available cells. It fails only with `Occupied` |
| Game.GameY.UpdateStatusAfterPlacement | gamey/src/core/game.rs:181-193 | Sets the status as `PlacementStatus` describes and changes nothing else |
| Game.GameY.HandleAction | gamey/src/core/game.rs:196-209 | Resign and swap set the status as `ActionStatus` describes and leave the board alone |
| Game.GameY.HandlePlacement | gamey/src/core/game.rs:150-178 | An occupied cell gives `Occupied` with nothing changed. Otherwise the stone is placed, its cell leaves `available_cells`, and the status follows the engine's win report |
| Game.GameY.AddMove | gamey/src/core/game.rs:136-147 | `add_move` does exactly what `Play` says, records the move, keeps the bookkeeping, and changes nothing when refused |
| Yen.Split | gamey/src/core/game.rs:325 | `split('/')` gives at least one piece and no piece contains '/' |
| Yen.JoinSplit | gamey/src/core/game.rs:325 | Splitting loses nothing: rejoining the pieces gives the layout back |
| Yen.SplitJoin | gamey/src/core/game.rs:325 | Pieces without '/' survive joining and splitting again |
| Yen.CellChar | gamey/src/core/game.rs:387-391 | A cell prints as 'B' exactly for player 0 and 'R' exactly for player 1, and never as '/' |
| Yen.Decode | gamey/src/core/game.rs:346-359 | Reading a layout character gives only players 0 and 1, and a valid character reads back to itself |
| Yen.DecodeCellChar | gamey/src/core/game.rs:387-391 | Printing then reading a cell keeps stones of players 0 and 1 and empties every other cell |
| Yen.CoordsAt | gamey/src/core/game.rs:342-345 | The coordinates of column `col` of row `row` lie on the board, in column `col` |
| Yen.CoordsAtIndex | gamey/src/core/game.rs:342-345 | Column `col` of row `row` is cell `Tri(row) + col`, which is on the board |
| Yen.CellMove | gamey/src/core/game.rs:346-367 | 'B' and 'R' place a stone of player 0 or 1 and '.' places nothing. Any other character is `InvalidCharInLayout` with its row and column |
| Yen.RowMoves | gamey/src/core/game.rs:341-368 | A row reads as moves that are all in range, or as the error of its first bad character |
| Yen.RowsMoves | gamey/src/core/game.rs:332-369 | The rows read as moves that are all in range, or as the first error in reading order |
| Yen.ParseLayout | gamey/src/core/game.rs:323-331 | A layout with the wrong number of rows is `InvalidYENLayout` with both counts. A loaded layout gives only in-range moves |
| Yen.RowMovesOk | gamey/src/core/game.rs:341-367 | A row loads exactly when every one of its characters is 'B', 'R' or '.' |
| Yen.RowsMovesOk | gamey/src/core/game.rs:332-369 | The rows load exactly when row `r` has `r + 1` valid characters for every `r` |
| Yen.ParseLayoutOk | gamey/src/core/game.rs:320-371 | A layout loads exactly when it has `size` rows, row `r` with `r + 1` characters, all of them 'B', 'R' or '.' |
| Yen.SizeZeroRefused | gamey/src/core/game.rs:325-331 | No layout loads at size 0, because even the empty layout splits into one row |
| Yen.RowMovesErrorStays | gamey/src/core/game.rs:360-366 | The first bad character of a row decides the row's error |
| Yen.RowsMovesErrorStays | gamey/src/core/game.rs:334-340 | The first bad row decides the layout's error |
| Yen.PartialStep | gamey/src/core/game.rs:341-368 | Loading the cells in reading order fills the next cell, which was still empty |
| Yen.EndsRowCoords | gamey/src/core/game.rs:396-399 | The printer's test `z == 0 && x > 0` holds exactly at the last cell of every row but the last |
| Yen.EndsRowAt | gamey/src/core/game.rs:396-399 | A separator follows cell `(r, c)` exactly when `c` is the last column and `r` is not the last row |
| Yen.PrintRowPrefix | gamey/src/core/game.rs:385-400 | Inside a row the printer writes the cells one after another, without separators |
| Yen.PrintRowStep | gamey/src/core/game.rs:385-400 | A whole row is printed, then '/' unless it is the last row |
| Yen.PrintRows | gamey/src/core/game.rs:385-400 | After `r` rows the text is those rows joined by '/', followed by '/' if more rows follow |
| Yen.PrintIsJoin | gamey/src/core/game.rs:385-400 | The printed layout is the board's rows joined by '/' |
| Yen.RowChars | gamey/src/core/game.rs:387-391 | A printed row holds only 'B', 'R' and '.' |
| Yen.PrintedShape | gamey/src/core/game.rs:385-400 | The printed layout splits into `size` rows, row `r` with `r + 1` valid characters |
| Yen.PrintedLength | gamey/src/core/game.rs:385-400 | The printed layout has `total_cells` characters plus `size - 1` separators |
| Yen.Normalize | gamey/src/core/game.rs:387-391 | Printing keeps stones of players 0 and 1 and shows every other cell as empty |
| Yen.LayoutRow | gamey/src/core/game.rs:341-345 | Row `r` of the board a valid layout describes prints as row `r` of the layout |
| Yen.ParseThenPrint | gamey/src/core/game.rs:575-580 | A layout that loads prints back unchanged |
| Yen.PrintThenParse | gamey/src/core/game.rs:575-580 | The printed layout of a board of size at least 1 loads, giving the same board with only players 0 and 1 kept |
| Yen.PrintParsePrint | gamey/src/core/game.rs:575-580 | Printing, loading and printing again gives the same layout |
| Yen.ReplaySnoc | gamey/src/core/game.rs:348-357 | Replaying one more move plays it on the state the earlier moves reached |
| Yen.PartialComplete | gamey/src/core/game.rs:332-369 | Once every cell is loaded, the partial board is the layout's board |
| Yen.RowFails | gamey/src/core/game.rs:334-340 | A row of the wrong length, or with a bad character, gives the whole layout's error |
| Yen.RowStart | gamey/src/core/game.rs:341 | Before the first cell of a row, the loader's state for the earlier rows is the row's starting state |
| Yen.RowEnd | gamey/src/core/game.rs:341-368 | After the last cell of a row, one more row is loaded |
| Yen.FromYen | gamey/src/core/game.rs:320-371 | `try_from` succeeds exactly when the layout loads, and fails with the first error in reading order. On success the game is fresh and valid, has the given size and the layout's board, and is what replaying the layout's moves on a new game gives |
| Yen.LoadRow | gamey/src/core/game.rs:341-368 | Loading a row fails exactly with the row's first bad character. Otherwise it replays the row's stones |
| Yen.LoadColumn | gamey/src/core/game.rs:341-367 | Loading one character either adds its stone, following the replay, or fails with `InvalidCharInLayout`, which is the row's error |
| Yen.LoadCell | gamey/src/core/game.rs:346-359 | A 'B' or 'R' on an empty cell is placed through `add_move`, which cannot fail, and '.' adds nothing |
| Yen.ToYen | gamey/src/core/game.rs:375-402 | `From<&GameY>` prints the board layout with players "B","R". The turn is the next player, or the winner's opponent once the game is over |
| Yen.SideTwoCells | gamey/src/core/game.rs:585-600 | On the side-2 board cell 0 is the top corner (1,0,0) and cell 1 is (0,0,1) |
| Yen.SideTwoNeighbors | gamey/src/core/game.rs:585-600 | Cell 1 of the side-2 board has two neighbours, the first the top corner |
| Yen.SideTwoAdjacency | gamey/src/core/game.rs:585-600 | On the side-2 board cell 0 is a neighbour of cell 1 |
| Yen.SideTwoRegions | gamey/src/core/game.rs:585-600 | On the side-2 board cell 0 touches sides B and C, and cell 1 sides A and B |
| Yen.TwoStonesWin | gamey/src/core/game.rs:585-600 | Stones of one player on cells 0 and 1 of the side-2 board connect all three sides |
| Yen.RowsMovesNext | gamey/src/core/game.rs:332-369 | A row of the right length adds its moves after those of the rows before it |
| Yen.FinishedLayout | gamey/src/core/game.rs:585-600 | "B/BB" at size 2 reads as three placements of player 0, top row first |
| Yen.PlacedStatus | gamey/src/core/game.rs:150-193 | A placement on an empty cell fills it, and the engine's win test decides the status |
| Yen.TwoPlacementsWin | gamey/src/core/game.rs:150-193 | Two stones of one player on empty cells of an ongoing game that together connect all sides finish the game with that player as winner |
| Yen.SideTwoBoard | gamey/src/core/game.rs:585-600 | A new side-2 game has three empty cells |
| Yen.SideTwoIndices | gamey/src/core/game.rs:585-600 | The three cells of the side-2 board have indices 0, 1 and 2, top row first |
| Yen.SideTwoOpening | gamey/src/core/game.rs:585-600 | Cells 0 and 1 of a new side-2 game are free, and player 0's second stone there wins |
| Yen.FinishedAfterTwo | gamey/src/core/game.rs:585-600 | The first two placements of "B/BB" already finish the game, won by player 0 |
| Yen.PlaceAfterFinish | gamey/src/core/game.rs:181-186 | After the game is finished, a stone on an empty cell is still accepted and does not change the status |
| Yen.FinishedThree | gamey/src/core/game.rs:585-600 | All three placements of "B/BB" replay on a new side-2 game, which ends won by player 0 |
| Yen.LoadFinishedExample | gamey/src/core/game.rs:585-600 | Loading "B/BB" at size 2 succeeds and gives a game player 0 has already won |

## Left out

- `bot_server`, and the accounts and gateway services: they are outside the game core.
- `load_from_file` and `save_to_file`: file and JSON I/O. The YEN value itself is modelled (`Yen.FromYen`, `Yen.ToYen`).
- `render`, `format_cell`, `get_indent_multiplier`, `indent`, `apply_player_color`: text rendering and terminal colours, which have no effect on the game.
- `tracing` log calls: they have no effect on the state.
- The accessors `status`, `available_cells` and `board_size`: they are the class fields `status`, `availableCells` and `boardSize`.
- `GameEngine` is generic over `BoardTopology` in the crate. Here it works on the triangular topology only. `Topology.IsBoardTopology` states what the trait promises: table lengths, neighbours in range and masks inside the winning mask. The engine needs more than that, namely `Triangular.IsBoard`, which adds symmetric, irreflexive adjacency. The trait does not promise symmetry, yet the win answer of `make_move` depends on it: a stone joins only the groups its own neighbour list names.
- The crate's `Coordinates`, `PlayerId`, `Movement`, `GameAction`, `GameYError` and `YEN` are not part of this model. They appear as plain datatypes. `to_index` and `from_index` are given the assumed row-by-row definition in `Coords`.
- Integer widths: `u32` and `usize` are unbounded naturals, so overflow of `size * (size + 1)` for huge boards is not modelled. Region masks are `bv32` as in the crate.
- Engine.GameEngine.MakeMove: the error is a datatype (`CellOutOfBounds`, `CellOccupied`) in place of the formatted message string.
- Game.GameY.HandlePlacement: the crate turns any engine error into `Occupied` by reading the message. Here that branch is proved unreachable, because validation has already refused an occupied cell and the cell is in range.
- Game.GameY.HandlePlacement: requires `x < size` and an index below `total_cells` (`Game.InRange`), and nothing more. Coordinates off the board that meet both, such as `(2, 0, 7)` at size 3 with index 0, are accepted, as the crate accepts them under the assumed `to_index`. On the excluded inputs the crate panics: with `x >= size` the assumed `to_index` underflows `size - 1 - x`, and an index of `total_cells` or more reads past the board in `validate_placement` (game.rs:219).
- Game.GameY.AddMove: requires the same two bounds of a placement, for the same reason. Actions have no coordinates and are not restricted.
- Game.GameY.ValidatePlacement: requires `x < size` and an index below the board length, for the same reason.
- Yen.FromYen: the `turn` and `players` fields of the notation are not read, as in the crate. A loaded game's turn comes from replaying its stones.
- Yen.FromYen: the `add_move` error in `try_from` can never happen, because every loaded cell is still empty. The model proves this (`Yen.LoadCell`) instead of carrying the error.
- Yen.PrintThenParse: applies to boards of size at least 1. At size 0 the printed layout is empty, and it does not load back (`Yen.SizeZeroRefused`).
- Yen.ToYen: only players 0 and 1 have a character. Stones of any other id print as '.' (`Yen.Normalize`).
