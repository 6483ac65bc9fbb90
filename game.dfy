/**
 * The game of Y as `GameY` plays it (gamey/src/core/game.rs): the status
 * (whose turn, or who won), the moves (placements and the resign and swap
 * actions), the history of moves and the list of empty cells kept beside
 * the engine's board.
 *
 * The pure part is a value-level account of one move, `Play`, over a
 * `GameState`; the class `GameY` keeps the same data in fields, updates
 * them in place, and is proved to follow `Play` move by move.
 */
module Game {
  import opened Wrappers
  import opened Topology
  import opened Coords
  import opened Triangular
  import opened Groups
  import opened Engine

  datatype GameStatus = Ongoing(nextPlayer: PlayerId) | Finished(winner: PlayerId)

  datatype GameAction = Resign | Swap

  datatype Movement =
    | Placement(player: PlayerId, coords: Coordinates)
    | Action(player: PlayerId, action: GameAction)

  /** The error kinds of the crate that this part of the game can produce. */
  datatype GameYError =
    | InvalidPlayerTurn(expected: PlayerId, found: PlayerId)
    | Occupied(coordinates: Coordinates, player: PlayerId)
    | InvalidYENLayout(expected: nat, found: nat)
    | InvalidYENLayoutLine(expected: nat, found: nat, line: nat)
    | InvalidCharInLayout(ch: char, row: nat, col: nat)

  // ------------------------------------------------------------ players and status

  /** The opponent in a two-player game: 0 for 1, and 1 for every other id. */
  function OtherPlayer(player: PlayerId): (other: PlayerId)
    ensures other <= 1 && (player <= 1 ==> other != player)
  {
    if player == 0 then 1 else 0
  }

  /** On the two real players, `OtherPlayer` swaps them and undoes itself. */
  lemma OtherPlayerInvolution(player: PlayerId)
    requires player <= 1
    ensures OtherPlayer(OtherPlayer(player)) == player
    ensures {OtherPlayer(player), player} == {0, 1}
  {
  }

  /** `check_game_over`: the game has a winner. */
  function CheckGameOver(status: GameStatus): (over: bool)
    ensures over <==> status.Finished?
  {
    match status
    case Ongoing(_) => false
    case Finished(_) => true
  }

  /** `next_player`: who moves next, or nothing once the game is over. */
  function NextPlayer(status: GameStatus): (next: Option<PlayerId>)
    ensures next.None? <==> CheckGameOver(status)
    ensures next.Some? ==> status == Ongoing(next.value)
  {
    if status.Ongoing? then Some(status.nextPlayer) else None
  }

  /**
   * `check_player_turn`: a move is refused exactly when the game is going
   * on and someone other than the next player makes it.
   */
  function CheckPlayerTurn(status: GameStatus, movement: Movement): (r: Result<(), GameYError>)
    ensures r.Ok? <==> NextPlayer(status).None? || NextPlayer(status) == Some(movement.player)
    ensures r.Err? ==> r.error == InvalidPlayerTurn(NextPlayer(status).value, movement.player)
  {
    match status
    case Ongoing(next) =>
      if movement.player != next then Err(InvalidPlayerTurn(next, movement.player)) else Ok(())
    case Finished(_) => Ok(())
  }

  /**
   * `update_status_after_placement`: a finished game stays finished;
   * otherwise the mover wins, or the turn passes to the opponent.
   */
  function StatusAfterPlacement(status: GameStatus, player: PlayerId, won: bool): (next: GameStatus)
  {
    if CheckGameOver(status) then status
    else if won then Finished(player)
    else Ongoing(OtherPlayer(player))
  }

  /** The status left by `handle_action`: resigning hands the win to the opponent, swapping the turn. */
  function StatusAfterAction(player: PlayerId, action: GameAction): (next: GameStatus)
  {
    match action
    case Resign => Finished(OtherPlayer(player))
    case Swap => Ongoing(OtherPlayer(player))
  }

  /**
   * What a placement does to the status: nothing once the game is over,
   * otherwise a win for the mover exactly when its group won, and the turn
   * to the opponent when it did not.
   */
  lemma PlacementStatus(status: GameStatus, player: PlayerId, won: bool)
    ensures CheckGameOver(status) ==> StatusAfterPlacement(status, player, won) == status
    ensures !CheckGameOver(status) ==>
      (CheckGameOver(StatusAfterPlacement(status, player, won)) <==> won)
    ensures !CheckGameOver(status) && won ==>
      NextPlayer(StatusAfterPlacement(status, player, won)).None? && StatusAfterPlacement(status, player, won).winner == player
    ensures !CheckGameOver(status) && !won ==>
      NextPlayer(StatusAfterPlacement(status, player, won)) == Some(OtherPlayer(player))
  {
  }

  /**
   * After an action by a real player the opponent holds the game: as
   * winner after a resignation, as next player after a swap.
   */
  lemma ActionStatus(player: PlayerId, action: GameAction)
    requires player <= 1
    ensures action == Resign ==>
      CheckGameOver(StatusAfterAction(player, action)) && StatusAfterAction(player, action).winner != player
    ensures action == Swap ==>
      NextPlayer(StatusAfterAction(player, action)) == Some(OtherPlayer(player))
      && CheckPlayerTurn(StatusAfterAction(player, action), Action(player, Swap)).Err?
  {
  }

  // ------------------------------------------------------------ empty cells

  /** The empty cells among the first `n`, in ascending order. */
  function EmptyUpTo(board: Board, n: nat): (cells: seq<CellIndex>)
    requires n <= |board|
    decreases n
  {
    if n == 0 then []
    else EmptyUpTo(board, n - 1) + (if board[n - 1].None? then [n - 1] else [])
  }

  /** The empty cells of the board, in ascending order. */
  function EmptyCells(board: Board): seq<CellIndex>
  {
    EmptyUpTo(board, |board|)
  }

  /** `EmptyUpTo` lists exactly the empty cells below `n`, strictly ascending. */
  lemma {:induction false} EmptyUpToExactly(board: Board, n: nat)
    requires n <= |board|
    ensures forall c :: c in EmptyUpTo(board, n) <==> 0 <= c < n && board[c].None?
    ensures forall i, j :: 0 <= i < j < |EmptyUpTo(board, n)| ==> EmptyUpTo(board, n)[i] < EmptyUpTo(board, n)[j]
  {
    if n > 0 {
      EmptyUpToExactly(board, n - 1);
      var prefix := EmptyUpTo(board, n - 1);
      assert forall i :: 0 <= i < |prefix| ==> prefix[i] in prefix;
    }
  }

  /** `available_cells` lists exactly the empty cells, strictly ascending. */
  lemma EmptyCellsExactly(board: Board)
    ensures forall c :: c in EmptyCells(board) <==> 0 <= c < |board| && board[c].None?
    ensures forall i, j :: 0 <= i < j < |EmptyCells(board)| ==> EmptyCells(board)[i] < EmptyCells(board)[j]
  {
    EmptyUpToExactly(board, |board|);
  }

  /** `Vec::retain(|&x| x != cell)`: drop every occurrence of `cell`, keeping the order. */
  function Without(cells: seq<CellIndex>, cell: CellIndex): (rest: seq<CellIndex>)
    ensures forall c :: c in rest <==> c in cells && c != cell
    decreases |cells|
  {
    if |cells| == 0 then []
    else
      var last := cells[|cells| - 1];
      assert cells == cells[..|cells| - 1] + [last];
      Without(cells[..|cells| - 1], cell) + (if last == cell then [] else [last])
  }

  /** Filling a cell removes exactly that cell from the empty cells, in place. */
  lemma {:induction false} FillUpTo(board: Board, cell: CellIndex, p: PlayerId, n: nat)
    requires cell < |board| && n <= |board|
    ensures EmptyUpTo(board[cell := Some(p)], n) == Without(EmptyUpTo(board, n), cell)
  {
    if n > 0 {
      FillUpTo(board, cell, p, n - 1);
      var prefix := EmptyUpTo(board, n - 1);
      var tail: seq<CellIndex> := if board[n - 1].None? then [n - 1] else [];
      if tail == [] {
        assert EmptyUpTo(board, n) == prefix;
      } else {
        var all := prefix + tail;
        assert all[..|all| - 1] == prefix;
      }
    }
  }

  lemma FillCell(board: Board, cell: CellIndex, p: PlayerId)
    requires cell < |board|
    ensures EmptyCells(board[cell := Some(p)]) == Without(EmptyCells(board), cell)
  {
    FillUpTo(board, cell, p, |board|);
  }

  /** On an empty board every cell is available: `(0..total_cells).collect()`. */
  lemma {:induction false} AllEmptyUpTo(board: Board, n: nat)
    requires n <= |board|
    requires forall c :: 0 <= c < |board| ==> board[c].None?
    ensures EmptyUpTo(board, n) == seq(n, i => i)
  {
    if n > 0 {
      AllEmptyUpTo(board, n - 1);
    }
  }

  /** A board with no stone is the all-`None` board, and all its cells are available. */
  lemma EmptyBoard(board: Board)
    requires forall c :: 0 <= c < |board| ==> board[c].None?
    ensures board == seq(|board|, _ => None)
    ensures EmptyCells(board) == seq(|board|, i => i)
  {
    AllEmptyUpTo(board, |board|);
  }

  // ------------------------------------------------------------ the game as a value

  /** Everything `GameY` keeps, as one value. */
  datatype GameState = GameState(
    size: nat,
    board: Board,
    status: GameStatus,
    history: seq<Movement>,
    available: seq<CellIndex>)

  /** The state `GameY::new(size)` starts in. */
  function NewState(size: nat): GameState
  {
    GameState(size, seq(Tri(size), _ => None), Ongoing(0), [], seq(Tri(size), i => i))
  }

  /** The game's own bookkeeping holds: the right number of cells, and `available` lists the empty ones. */
  ghost predicate Consistent(g: GameState)
  {
    |g.board| == Tri(g.size) && g.available == EmptyCells(g.board)
  }

  lemma NewStateConsistent(size: nat)
    ensures Consistent(NewState(size))
    ensures EmptyCells(NewState(size).board) == NewState(size).available
  {
    AllEmptyUpTo(NewState(size).board, Tri(size));
  }

  /**
   * The movement lies on the board. A placement whose index is out of range
   * makes `validate_placement` index past the end of the board, which
   * panics; the model requires it away.
   */
  predicate InRange(movement: Movement, size: nat)
  {
    movement.Placement? ==> movement.coords.x < size && ToIndex(movement.coords, size) < Tri(size)
  }

  /**
   * One `add_move`, as a value: a placement on an occupied cell fails with
   * `Occupied`; otherwise a placement fills its cell and the engine's win
   * test decides the status, an action sets it, and the move is recorded.
   */
  ghost function Play(g: GameState, movement: Movement): (r: Result<GameState, GameYError>)
    requires |g.board| == Tri(g.size) && InRange(movement, g.size)
    ensures r.Ok? ==> r.value.size == g.size && |r.value.board| == |g.board|
  {
    match movement
    case Placement(player, coords) =>
      var idx := ToIndex(coords, g.size);
      if g.board[idx].Some? then Err(Occupied(coords, player))
      else
        var board := g.board[idx := Some(player)];
        Ok(GameState(g.size, board, StatusAfterPlacement(g.status, player, WinsAt(Build(g.size), board, idx)),
                     g.history + [movement], Without(g.available, idx)))
    case Action(player, action) =>
      Ok(g.(status := StatusAfterAction(player, action), history := g.history + [movement]))
  }

  /**
   * Every move that succeeds keeps the bookkeeping: `available_cells`
   * remains the empty cells in ascending order.
   */
  lemma PlayKeepsConsistent(g: GameState, movement: Movement)
    requires Consistent(g) && InRange(movement, g.size)
    ensures Play(g, movement).Ok? ==> Consistent(Play(g, movement).value)
  {
    if movement.Placement? && Play(g, movement).Ok? {
      FillCell(g.board, ToIndex(movement.coords, g.size), movement.player);
    }
  }

  /**
   * `add_move` checks neither the turn nor whether the game is over: any
   * player may fill any empty cell, and the move is recorded. Only the
   * occupied cell is refused, and the refusal changes nothing.
   */
  lemma PlacementAlwaysAccepted(g: GameState, player: PlayerId, coords: Coordinates)
    requires |g.board| == Tri(g.size) && InRange(Placement(player, coords), g.size)
    ensures var idx := ToIndex(coords, g.size);
      && (g.board[idx].None? <==> Play(g, Placement(player, coords)).Ok?)
      && (g.board[idx].None? ==>
            && Play(g, Placement(player, coords)).value.board == g.board[idx := Some(player)]
            && Play(g, Placement(player, coords)).value.history == g.history + [Placement(player, coords)])
      && (g.board[idx].Some? ==> Play(g, Placement(player, coords)) == Err(Occupied(coords, player)))
  {
  }

  /** Moves played one after another; the first refused move stops the sequence. */
  ghost function Replay(g: GameState, moves: seq<Movement>): (r: Result<GameState, GameYError>)
    requires |g.board| == Tri(g.size)
    requires forall k :: 0 <= k < |moves| ==> InRange(moves[k], g.size)
    ensures r.Ok? ==> r.value.size == g.size && |r.value.board| == |g.board|
    decreases |moves|
  {
    if |moves| == 0 then Ok(g)
    else
      match Replay(g, moves[..|moves| - 1])
      case Err(e) => Err(e)
      case Ok(g') => Play(g', moves[|moves| - 1])
  }

  /** Once a game is finished, no further placement changes its status. */
  lemma {:induction false} FinishedStaysFinished(g: GameState, moves: seq<Movement>)
    requires |g.board| == Tri(g.size) && CheckGameOver(g.status)
    requires forall k :: 0 <= k < |moves| ==> InRange(moves[k], g.size) && moves[k].Placement?
    ensures Replay(g, moves).Ok? ==> Replay(g, moves).value.status == g.status
    decreases |moves|
  {
    if |moves| > 0 {
      FinishedStaysFinished(g, moves[..|moves| - 1]);
    }
  }

  // ------------------------------------------------------------ the class

  class GameY {
    const boardSize: nat
    const engine: GameEngine
    var status: GameStatus
    var history: seq<Movement>
    var availableCells: seq<CellIndex>

    /** The engine plays on the side-`boardSize` triangle, and `available_cells` tracks its empty cells. */
    ghost predicate Valid()
      reads this, engine
    {
      && engine.Valid()
      && engine.topology == Build(boardSize)
      && |engine.state| == Tri(boardSize)
      && availableCells == EmptyCells(engine.state)
    }

    /** The fields, as a `GameState`. */
    ghost function Abs(): GameState
      reads this, engine
    {
      GameState(boardSize, engine.state, status, history, availableCells)
    }

    /** `GameY::new`: an empty board, player 0 to move, no history, every cell available. */
    constructor(boardSize: nat)
      ensures Valid() && fresh(engine) && this.boardSize == boardSize
      ensures Abs() == NewState(boardSize)
    {
      this.boardSize := boardSize;
      var total := (boardSize * (boardSize + 1)) / 2;
      TriFormula(boardSize);
      var topology := NewTopology(boardSize);
      ValidIsBoard(topology);
      ValidIsBuild(topology);
      engine := new GameEngine(topology);
      history := [];
      status := Ongoing(0);
      availableCells := seq(total, i => i);
      new;
      EmptyBoard(engine.state);
    }

    /** `total_cells`: the number of cells of the board. */
    function TotalCells(): (n: nat)
      reads this, engine
      ensures Valid() ==> n == |engine.state| == engine.topology.TotalCells()
    {
      TriFormula(boardSize);
      (boardSize * (boardSize + 1)) / 2
    }

    /** `validate_placement`: the target cell must be empty (a finished game is only logged). */
    function ValidatePlacement(player: PlayerId, coords: Coordinates): (r: Result<(), GameYError>)
      reads this, engine
      requires coords.x < boardSize && ToIndex(coords, boardSize) < |engine.state|
      ensures Valid() ==> (r.Ok? <==> ToIndex(coords, boardSize) in availableCells)
      ensures r.Err? ==> r.error == Occupied(coords, player)
    {
      EmptyCellsExactly(engine.state);
      if engine.state[ToIndex(coords, boardSize)].Some? then Err(Occupied(coords, player)) else Ok(())
    }

    /** `update_status_after_placement`. */
    method UpdateStatusAfterPlacement(player: PlayerId, won: bool)
      modifies this
      ensures status == StatusAfterPlacement(old(status), player, won)
      ensures history == old(history) && availableCells == old(availableCells)
    {
      if CheckGameOver(status) {
        // the move is only logged
      } else if won {
        status := Finished(player);
      } else {
        status := Ongoing(OtherPlayer(player));
      }
    }

    /** `handle_action`: resign or swap; the board is left alone. */
    method HandleAction(player: PlayerId, action: GameAction)
      modifies this
      ensures status == StatusAfterAction(player, action)
      ensures history == old(history) && availableCells == old(availableCells)
    {
      match action
      case Resign =>
        status := Finished(OtherPlayer(player));
      case Swap =>
        status := Ongoing(OtherPlayer(player));
    }

    /**
     * `handle_placement`: validate, place the stone through the engine,
     * drop the cell from `available_cells` and update the status from the
     * engine's win report.
     */
    method HandlePlacement(player: PlayerId, coords: Coordinates) returns (r: Result<(), GameYError>)
      requires Valid() && InRange(Placement(player, coords), boardSize)
      modifies this, engine
      ensures Valid() && history == old(history)
      ensures var idx := ToIndex(coords, boardSize);
        old(engine.state[idx]).Some? ==>
          && r == Err(Occupied(coords, player))
          && engine.state == old(engine.state) && status == old(status) && availableCells == old(availableCells)
      ensures var idx := ToIndex(coords, boardSize);
        old(engine.state[idx]).None? ==>
          && r == Ok(())
          && engine.state == old(engine.state)[idx := Some(player)]
          && availableCells == Without(old(availableCells), idx)
          && status == StatusAfterPlacement(old(status), player, WinsAt(Build(boardSize), engine.state, idx))
    {
      var valid := ValidatePlacement(player, coords);
      if valid.Err? {
        return valid;
      }
      var idx := ToIndex(coords, boardSize);
      ghost var board := engine.state;
      var res := engine.MakeMove(idx, player);
      if res.Err? {
        // the cell is in range and empty, so the engine cannot refuse it
        assert false;
      }
      FillCell(board, idx, player);
      availableCells := Without(availableCells, idx);
      UpdateStatusAfterPlacement(player, res.value);
      r := Ok(());
    }

    /**
     * `add_move`: play the movement and record it. The class follows
     * `Play` exactly, and a refused move changes nothing.
     */
    method AddMove(movement: Movement) returns (r: Result<(), GameYError>)
      requires Valid() && InRange(movement, boardSize)
      modifies this, engine
      ensures Valid()
      ensures Play(old(Abs()), movement) == if r.Ok? then Ok(Abs()) else Err(r.error)
      ensures r.Err? ==> Abs() == old(Abs())
    {
      match movement {
        case Placement(player, coords) =>
          var res := HandlePlacement(player, coords);
          if res.Err? {
            return Err(res.error);
          }
        case Action(player, action) =>
          HandleAction(player, action);
      }
      history := history + [movement];
      r := Ok(());
    }
  }
}
