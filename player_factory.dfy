/** The single factory that hands out human and computer players. */
module ConnectFourPlayerFactory {
  import opened Grid
  import opened ConnectFourPlayer

  class PlayerFactory {
    constructor () {
    }

    /** A human player with exactly the given name and seat, no games played or won;
        seat One plays Red. */
    method GetHumanPlayer(name: string, id: PlayerID) returns (p: Player)
      ensures p.name == name && p.playerType == Human && p.playerID == id
      ensures p.gamesPlayed == 0 && p.gamesWon == 0
      ensures Color(p) == Red <==> id == One
    {
      var builder := new Builder(name, Human, id);
      p := builder.Build();
    }

    /** The computer player: always named "Computer", always in seat Two, so it plays
        Blue; no games played or won. */
    method GetComputerPlayer() returns (p: Player)
      ensures p.name == "Computer" && p.playerType == Computer && p.playerID == Two
      ensures p.gamesPlayed == 0 && p.gamesWon == 0
      ensures Color(p) == Blue
    {
      var builder := new Builder("Computer", Computer, Two);
      p := builder.Build();
    }
  }

  /** The class-wide slot that holds the one factory, empty until first asked for. */
  class Instance {
    var factory: PlayerFactory?

    constructor ()
      ensures factory == null
    {
      factory := null;
    }

    /** Creates the factory on the first call and returns that same factory on every
        later call. */
    method GetFactoryInstance() returns (f: PlayerFactory)
      modifies this
      ensures factory == f
      ensures old(factory) != null ==> f == old(factory)
      ensures old(factory) == null ==> fresh(f)
    {
      if factory == null {
        factory := new PlayerFactory();
      }
      f := factory;
    }
  }
}
