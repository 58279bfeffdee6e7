/** A Connect-Four player: identity, colour, equality by name, and the computer's
    choice of column. */
module ConnectFourPlayer {
  import opened Outcomes
  import opened Text
  import opened Grid
  import opened ConnectFourGameBoard

  /** The two seats of a game. */
  datatype PlayerID = One | Two

  datatype PlayerType = Human | Computer

  /** An immutable player record as the builder produced it. */
  datatype Player = Player(
    name: string,
    playerType: PlayerType,
    playerID: PlayerID,
    gamesPlayed: int,
    gamesWon: int)

  /** Collects the mandatory fields and the optional game counters of a player. */
  class Builder {
    var name: string
    var playerType: PlayerType
    var playerID: PlayerID
    var gamesPlayed: int
    var gamesWon: int

    /** The mandatory fields; both counters start at 0. */
    constructor (name: string, playerType: PlayerType, playerID: PlayerID)
      ensures this.name == name && this.playerType == playerType && this.playerID == playerID
      ensures gamesPlayed == 0 && gamesWon == 0
    {
      this.name := name;
      this.playerType := playerType;
      this.playerID := playerID;
      gamesPlayed := 0;
      gamesWon := 0;
    }

    /** Sets the number of games played and hands back the same builder. */
    method GamesPlayed(val: int) returns (b: Builder)
      modifies this
      ensures b == this && gamesPlayed == val
      ensures name == old(name) && playerType == old(playerType) && playerID == old(playerID)
      ensures gamesWon == old(gamesWon)
    {
      gamesPlayed := val;
      b := this;
    }

    /** Sets the number of games won and hands back the same builder. */
    method GamesWon(val: int) returns (b: Builder)
      modifies this
      ensures b == this && gamesWon == val
      ensures name == old(name) && playerType == old(playerType) && playerID == old(playerID)
      ensures gamesPlayed == old(gamesPlayed)
    {
      gamesWon := val;
      b := this;
    }

    /** A player carrying exactly the builder's fields. */
    method Build() returns (p: Player)
      ensures p.name == name && p.playerType == playerType && p.playerID == playerID
      ensures p.gamesPlayed == gamesPlayed && p.gamesWon == gamesWon
    {
      p := Player(name, playerType, playerID, gamesPlayed, gamesWon);
    }
  }

  /** Player One plays Red and Player Two plays Blue, so the two seats never share a
      colour. */
  function Color(p: Player): (c: Chip)
    ensures c.IsColor()
    ensures c == Red <==> p.playerID == One
  {
    if p.playerID == One then Red else Blue
  }

  /** Equality of players: the other object is a player whose name equals this one's
      ignoring case, that is, letter by letter up to ASCII case. A null or non-player
      argument is `None`. */
  function Equals(p: Player, obj: Option<Player>): (r: bool)
    ensures obj.None? ==> !r
    ensures obj.Some? ==> (r <==> (|p.name| == |obj.value.name| &&
      forall i :: 0 <= i < |p.name| ==> LowerChar(p.name[i]) == LowerChar(obj.value.name[i])))
  {
    match obj
    case None => false
    case Some(other) =>
      EqualsIgnoreCaseLetterwise(p.name, other.name);
      EqualsIgnoreCase(p.name, other.name)
  }

  /** Player equality is an equivalence: reflexive, symmetric and transitive. */
  lemma EqualsIsEquivalence(p: Player, q: Player, s: Player)
    ensures Equals(p, Some(p))
    ensures Equals(p, Some(q)) ==> Equals(q, Some(p))
    ensures Equals(p, Some(q)) && Equals(q, Some(s)) ==> Equals(p, Some(s))
  {
  }

  // ---------------------------------------------------------------------------
  // The computer's move

  /** The columns below n that still have room, in increasing order. */
  ghost function AvailableUpTo(board: GameBoard, n: int): (s: seq<int>)
    reads board, board.grid, board.next
    requires board.Valid() && 0 <= n <= board.columns
    ensures |s| <= n
    ensures forall i :: 0 <= i < |s| ==> 0 <= s[i] < n && board.IsSpotAvailable(s[i])
    ensures forall c :: 0 <= c < n && board.IsSpotAvailable(c) ==> c in s
  {
    if n == 0 then []
    else AvailableUpTo(board, n - 1) + (if board.IsSpotAvailable(n - 1) then [n - 1] else [])
  }

  /** Dropping the player's chip onto `column` of a copy of the board would win. */
  ghost predicate ProbeWins(board: GameBoard, p: Player, column: int)
    reads board, board.grid, board.next
    requires board.Valid() && 0 <= column < board.columns
  {
    LookAheadWins(board.Cells(), board.columns, board.next[..], board.numToWin, column, Color(p))
  }

  /** Some column below n (n at most the number of columns) would win on a drop. */
  ghost predicate SomeProbeWins(board: GameBoard, p: Player, n: int)
    reads board, board.grid, board.next
    requires board.Valid() && n <= board.columns
  {
    exists c :: 0 <= c < n && ProbeWins(board, p, c)
  }

  /** The first loop of the computer's move: the columns with room, in order. */
  method AvailableColumns(board: GameBoard) returns (list: seq<int>)
    requires board.Valid()
    ensures list == AvailableUpTo(board, board.columns)
  {
    list := [];
    for column := 0 to board.GetNumOfColumns()
      invariant list == AvailableUpTo(board, column)
    {
      if board.IsSpotAvailable(column) {
        list := list + [column];
      }
    }
  }

  /** The second loop of the computer's move: the first column below n whose drop
      would win, if any. */
  method FirstWinningProbe(p: Player, board: GameBoard, n: int) returns (found: Option<int>)
    requires board.Valid() && 0 <= n <= board.columns
    ensures found.Some? ==> 0 <= found.value < n && ProbeWins(board, p, found.value)
    ensures found.Some? ==> forall c :: 0 <= c < found.value ==> !ProbeWins(board, p, c)
    ensures found.None? <==> !SomeProbeWins(board, p, n)
  {
    var color := Color(p);
    for column := 0 to n
      invariant forall c :: 0 <= c < column ==> !ProbeWins(board, p, c)
    {
      var wins := board.CheckIfWinningMove(column, color);
      if wins {
        assert ProbeWins(board, p, column);
        return Some(column);
      }
    }
    return None;
  }

  /** A computer's move: collect the columns with room (none is an illegal state),
      probe columns 0, 1, ... below the number of such columns (by number, not the
      collected columns themselves) and take the first whose drop would win; failing
      that, any collected column (the first after a shuffle). Every answer is a
      column with room, and the board does not change. */
  method GetColumnComputerPlayer(p: Player, board: GameBoard) returns (r: Result<int>)
    requires board.Valid()
    ensures r.Err? <==> AvailableUpTo(board, board.columns) == []
    ensures r.Err? ==> r.error == IllegalState
    ensures r.Ok? ==> 0 <= r.value < board.columns && board.IsSpotAvailable(r.value)
    ensures r.Ok? && SomeProbeWins(board, p, |AvailableUpTo(board, board.columns)|) ==>
      && r.value < |AvailableUpTo(board, board.columns)|
      && ProbeWins(board, p, r.value)
      && forall c :: 0 <= c < r.value ==> !ProbeWins(board, p, c)
    ensures r.Ok? && !SomeProbeWins(board, p, |AvailableUpTo(board, board.columns)|) ==>
      r.value in AvailableUpTo(board, board.columns)
  {
    var list := AvailableColumns(board);
    if list == [] {
      return Err(IllegalState);
    }
    var probe := FirstWinningProbe(p, board, |list|);
    if probe.Some? {
      return Ok(probe.value);
    }
    assert list[0] in list;
    var choice :| choice in list;
    return Ok(choice);
  }

  /** The move a player asks for: a human's move comes from the user interface, so
      the answer is -1 and the board is not consulted; a computer chooses as above. */
  method GetMove(p: Player, board: GameBoard) returns (r: Result<int>)
    requires p.playerType == Computer ==> board.Valid()
    ensures p.playerType == Human ==> r == Ok(-1)
    ensures p.playerType == Computer ==> (r.Err? <==> AvailableUpTo(board, board.columns) == [])
    ensures p.playerType == Computer && r.Err? ==> r.error == IllegalState
    ensures p.playerType == Computer && r.Ok? ==>
      0 <= r.value < board.columns && board.IsSpotAvailable(r.value)
    ensures p.playerType == Computer && r.Ok? && SomeProbeWins(board, p, |AvailableUpTo(board, board.columns)|) ==>
      && r.value < |AvailableUpTo(board, board.columns)|
      && ProbeWins(board, p, r.value)
      && forall c :: 0 <= c < r.value ==> !ProbeWins(board, p, c)
    ensures p.playerType == Computer && r.Ok? && !SomeProbeWins(board, p, |AvailableUpTo(board, board.columns)|) ==>
      r.value in AvailableUpTo(board, board.columns)
  {
    if p.playerType == Computer {
      r := GetColumnComputerPlayer(p, board);
    } else {
      r := Ok(-1);
    }
  }
}
