/** The Connect-Four controller: it validates the game's configuration, keeps whose
    turn it is, drives the board and tells every registered listener what happened.
    Each notification a listener receives is recorded, in order, in `log`. */
module ConnectFourModel {
  import opened Outcomes
  import opened Grid
  import opened ConnectFourGameBoard
  import opened ConnectFourPlayer

  /** A registered observer of the game (the user interface in the application). */
  class Listener {
    constructor () {
    }
  }

  /** The eight notifications a listener can receive. */
  datatype Event =
    | GameStart(id: PlayerID)
    | PlayerTurn(id: PlayerID, board: GameBoard)
    | PlayerMove(row: int, column: int, id: PlayerID)
    | Quit
    | Reset
    | ColumnFull
    | Win(id: PlayerID)
    | GameDraw

  /** One listener receiving one event. */
  datatype Notification = Notification(listener: Listener, event: Event)

  /** The same event delivered to each listener in registration order. */
  function Broadcast(listeners: seq<Listener>, e: Event): (ns: seq<Notification>)
    ensures |ns| == |listeners|
    ensures forall i :: 0 <= i < |ns| ==> ns[i] == Notification(listeners[i], e)
  {
    if listeners == [] then []
    else Broadcast(listeners[..|listeners| - 1], e) + [Notification(listeners[|listeners| - 1], e)]
  }

  /** Two players can share a game when they sit in different seats and their
      names differ ignoring case. */
  predicate Compatible(player1: Player, player2: Player) {
    player1.playerID != player2.playerID && !Equals(player1, Some(player2))
  }

  class Model {
    const board: GameBoard
    const player1: Player
    const player2: Player
    const rows: int
    const columns: int
    var currentPlayer: Player
    var listeners: seq<Listener>
    var log: seq<Notification>

    /** The controller's invariant: the board has the configured size, the players
        are compatible and the player to move is one of them. */
    ghost predicate Valid()
      reads this, board, board.next
    {
      && board.Valid() && board.rows == rows && board.columns == columns
      && Compatible(player1, player2)
      && (currentPlayer == player1 || currentPlayer == player2)
    }

    /** A fresh controller on an unset board; player one moves first. */
    constructor (rows: int, columns: int, numToWin: int, player1: Player, player2: Player)
      requires rows >= 1 && columns >= 0 && numToWin <= columns && Compatible(player1, player2)
      ensures Valid() && fresh(board) && fresh(board.grid) && fresh(board.next)
      ensures board.numToWin == numToWin
      ensures board.Cells() == seq(rows, _ => seq(columns, _ => Unset))
      ensures board.next[..] == seq(columns, _ => 0) && board.spots == 0
      ensures this.rows == rows && this.columns == columns
      ensures this.player1 == player1 && this.player2 == player2 && currentPlayer == player1
      ensures listeners == [] && log == []
    {
      board := new GameBoard(rows, columns, numToWin);
      listeners := [];
      log := [];
      this.player1 := player1;
      this.player2 := player2;
      currentPlayer := player1;
      this.rows := rows;
      this.columns := columns;
    }

    /** Construction with its checks: more chips to win than columns, or players in
        the same seat or with the same name ignoring case, is an illegal argument;
        past those checks, a negative size fails when the board is allocated. */
    static method Create(rows: int, columns: int, numToWin: int, player1: Player, player2: Player)
      returns (r: Result<Model>)
      requires rows != 0
      ensures r.Err? <==> numToWin > columns || !Compatible(player1, player2) || rows < 0 || columns < 0
      ensures r.Err? && (numToWin > columns || !Compatible(player1, player2)) ==> r.error == IllegalArgument
      ensures r.Err? && numToWin <= columns && Compatible(player1, player2) ==> r.error == NegativeArraySize
      ensures r.Ok? ==> r.value.Valid() && fresh(r.value) && fresh(r.value.board)
      ensures r.Ok? ==> fresh(r.value.board.grid) && fresh(r.value.board.next)
      ensures r.Ok? ==> r.value.player1 == player1 && r.value.player2 == player2
      ensures r.Ok? ==> r.value.currentPlayer == player1 && r.value.listeners == [] && r.value.log == []
      ensures r.Ok? ==> r.value.GetNumOfRows() == rows && r.value.GetNumOfColumns() == columns
      ensures r.Ok? ==> r.value.board.numToWin == numToWin
      ensures r.Ok? ==> r.value.board.Cells() == seq(rows, _ => seq(columns, _ => Unset))
      ensures r.Ok? ==> r.value.board.next[..] == seq(columns, _ => 0) && r.value.board.spots == 0
    {
      if numToWin > columns {
        return Err(IllegalArgument);
      }
      if player1.playerID == player2.playerID || Equals(player1, Some(player2)) {
        return Err(IllegalArgument);
      }
      if rows < 0 || columns < 0 {
        return Err(NegativeArraySize);
      }
      var m := new Model(rows, columns, numToWin, player1, player2);
      return Ok(m);
    }

    function GetNumOfRows(): (n: int)
      reads this
      ensures n == rows
    {
      rows
    }

    function GetNumOfColumns(): (n: int)
      reads this
      ensures n == columns
    {
      columns
    }

    method AddListener(listener: Listener)
      modifies this
      ensures listeners == old(listeners) + [listener]
      ensures log == old(log) && currentPlayer == old(currentPlayer)
    {
      listeners := listeners + [listener];
    }

    /** The loop shared by the fire methods: every listener, in registration order,
        receives `e`. */
    method Fire(e: Event)
      modifies this
      ensures log == old(log) + Broadcast(listeners, e)
      ensures listeners == old(listeners) && currentPlayer == old(currentPlayer)
    {
      var ls := listeners;
      for i := 0 to |ls|
        invariant listeners == ls && currentPlayer == old(currentPlayer)
        invariant log == old(log) + Broadcast(ls[..i], e)
      {
        assert ls[..i + 1][..i] == ls[..i];
        log := log + [Notification(ls[i], e)];
      }
      assert ls[..|ls|] == ls;
    }

    /** Sets up an empty board and announces the player to move. */
    method StartGame()
      requires Valid()
      modifies this, board, board.grid, board.next
      ensures Valid() && board.Initialised()
      ensures board.Cells() == EmptyGrid(rows, columns) && board.spots == columns * rows
      ensures currentPlayer == old(currentPlayer) && listeners == old(listeners)
      ensures log == old(log) + Broadcast(listeners, GameStart(currentPlayer.playerID))
    {
      board.SetGameBoard();
      Fire(GameStart(currentPlayer.playerID));
    }

    /** Drops the current player's chip: announces the move (its row is the cell just
        filled) or, on a full column, announces that and changes nothing else. */
    method MoveSuccessful(column: int) returns (ok: bool)
      requires Valid() && 0 <= column < columns
      modifies this, board, board.grid, board.next
      ensures Valid()
      ensures ok <==> old(board.next[column]) >= 0
      ensures ok ==> board.Cells() == Dropped(old(board.Cells()), old(board.next[column]), column, Color(currentPlayer))
      ensures ok ==> board.next[..] == old(board.next[..])[column := old(board.next[column]) - 1]
      ensures ok ==> board.spots == old(board.spots) - 1
      ensures !ok ==> board.Cells() == old(board.Cells()) && board.next[..] == old(board.next[..])
      ensures !ok ==> board.spots == old(board.spots)
      ensures old(board.Initialised()) ==> board.Initialised()
      ensures currentPlayer == old(currentPlayer) && listeners == old(listeners)
      ensures log == old(log) + Broadcast(listeners,
        if ok then PlayerMove(old(board.next[column]), column, currentPlayer.playerID) else ColumnFull)
    {
      if board.IsSpotAvailable(column) {
        ghost var before := board.next[column];
        var _ := board.InsertChipAt(column, Color(currentPlayer));
        var row := board.GetNextRowAvailableToFill(column);
        row := row + 1;
        assert row == before;
        Fire(PlayerMove(row, column, currentPlayer.playerID));
        ok := true;
      } else {
        Fire(ColumnFull);
        ok := false;
      }
    }

    /** After a chip has landed in `column`: a win for the current player is
        announced, otherwise a full board is announced as a draw; either ends the
        game. The chip argument is not consulted: the current player's colour is. */
    method GameOver(column: int, chip: Chip) returns (over: bool)
      requires Valid() && 0 <= column < columns && board.next[column] + 1 < rows
      modifies this
      ensures Valid() && currentPlayer == old(currentPlayer) && listeners == old(listeners)
      ensures var won := MoveWins(board.next[column] + 1, column, Color(currentPlayer));
        && (over <==> won || board.spots == 0)
        && log == old(log) + (if won then Broadcast(listeners, Win(currentPlayer.playerID))
                              else if board.spots == 0 then Broadcast(listeners, GameDraw)
                              else [])
    {
      var w := board.IsWinningMove(column, Color(currentPlayer));
      if w == Ok(true) {
        Fire(Win(currentPlayer.playerID));
        return true;
      }
      if board.IsBoardFull() {
        Fire(GameDraw);
        return true;
      }
      return false;
    }

    /** The chip at (row, column) completes a line of `color` on the current board. */
    ghost predicate MoveWins(row: int, column: int, color: Chip)
      reads this, board, board.grid, board.next
      requires board.Valid() && 0 <= row < board.rows && 0 <= column < board.columns
    {
      WinningMove(board.Cells(), board.columns, board.numToWin, row, column, color)
    }

    /** Passes the turn to the other seat and announces it. The listeners are handed
        the live board, not the copy made here. */
    method ChangePlayerTurn()
      requires Valid()
      modifies this
      ensures Valid() && listeners == old(listeners)
      ensures old(currentPlayer) == player1 ==> currentPlayer == player2
      ensures old(currentPlayer) == player2 ==> currentPlayer == player1
      ensures log == old(log) + Broadcast(listeners, PlayerTurn(currentPlayer.playerID, board))
    {
      if Equals(currentPlayer, Some(player1)) {
        currentPlayer := player2;
      } else {
        currentPlayer := player1;
      }
      var copy := new GameBoard.Copy(board);
      Fire(PlayerTurn(currentPlayer.playerID, board));
    }

    /** One move of the current player: a full column is refused (false); otherwise
        the chip is dropped and the move announced (true), then a win or a draw is
        announced and the same player stays current, or the turn passes to the other
        seat. Nothing refuses a move after the game has ended. */
    method ManageMove(column: int) returns (ok: bool)
      requires Valid() && 0 <= column < columns
      modifies this, board, board.grid, board.next
      ensures Valid() && listeners == old(listeners)
      ensures ok <==> old(board.next[column]) >= 0
      ensures !ok ==> board.Cells() == old(board.Cells()) && board.next[..] == old(board.next[..])
      ensures !ok ==> currentPlayer == old(currentPlayer) && log == old(log) + Broadcast(listeners, ColumnFull)
      ensures ok ==> board.Cells() == Dropped(old(board.Cells()), old(board.next[column]), column, Color(old(currentPlayer)))
      ensures ok ==> board.next[..] == old(board.next[..])[column := old(board.next[column]) - 1]
      ensures !ok ==> board.spots == old(board.spots)
      ensures ok ==> board.spots == old(board.spots) - 1
      ensures old(board.Initialised()) ==> board.Initialised()
      ensures ok && MoveWins(old(board.next[column]), column, Color(old(currentPlayer))) ==>
        && currentPlayer == old(currentPlayer)
        && log == old(log) + Broadcast(listeners, PlayerMove(old(board.next[column]), column, currentPlayer.playerID))
                           + Broadcast(listeners, Win(currentPlayer.playerID))
      ensures ok && !MoveWins(old(board.next[column]), column, Color(old(currentPlayer))) && board.spots == 0 ==>
        && currentPlayer == old(currentPlayer)
        && log == old(log) + Broadcast(listeners, PlayerMove(old(board.next[column]), column, currentPlayer.playerID))
                           + Broadcast(listeners, GameDraw)
      ensures ok && !MoveWins(old(board.next[column]), column, Color(old(currentPlayer))) && board.spots != 0 ==>
        && currentPlayer != old(currentPlayer)
        && log == old(log) + Broadcast(listeners, PlayerMove(old(board.next[column]), column, old(currentPlayer).playerID))
                           + Broadcast(listeners, PlayerTurn(currentPlayer.playerID, board))
    {
      ok := MoveSuccessful(column);
      if ok {
        EndTurn(column);
      }
    }

    /** What follows a successful drop into `column`: unless the game is over, the
        turn passes to the other seat. */
    method EndTurn(column: int)
      requires Valid() && 0 <= column < columns && board.next[column] + 1 < rows
      modifies this
      ensures Valid() && listeners == old(listeners)
      ensures MoveWins(board.next[column] + 1, column, Color(old(currentPlayer))) ==>
        && currentPlayer == old(currentPlayer)
        && log == old(log) + Broadcast(listeners, Win(currentPlayer.playerID))
      ensures !MoveWins(board.next[column] + 1, column, Color(old(currentPlayer))) && board.spots == 0 ==>
        && currentPlayer == old(currentPlayer)
        && log == old(log) + Broadcast(listeners, GameDraw)
      ensures !MoveWins(board.next[column] + 1, column, Color(old(currentPlayer))) && board.spots != 0 ==>
        && currentPlayer != old(currentPlayer)
        && log == old(log) + Broadcast(listeners, PlayerTurn(currentPlayer.playerID, board))
    {
      var over := GameOver(column, Color(currentPlayer));
      if !over {
        ChangePlayerTurn();
      }
    }

    /** The quit request is passed on to every listener. */
    method Quit()
      modifies this
      ensures log == old(log) + Broadcast(listeners, Event.Quit)
      ensures currentPlayer == old(currentPlayer) && listeners == old(listeners)
    {
      Fire(Event.Quit);
    }

    /** A new game with the same players: player one moves first, the reset is
        announced, the board is emptied and the start announced. */
    method Reset()
      requires Valid()
      modifies this, board, board.grid, board.next
      ensures Valid() && board.Initialised() && board.Cells() == EmptyGrid(rows, columns)
      ensures currentPlayer == player1 && listeners == old(listeners)
      ensures log == old(log) + Broadcast(listeners, Event.Reset) + Broadcast(listeners, GameStart(player1.playerID))
    {
      currentPlayer := player1;
      Fire(Event.Reset);
      StartGame();
    }
  }
}
