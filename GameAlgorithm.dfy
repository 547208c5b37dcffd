/** GameAlgorithm.java: the game state and the terminal game loop. */
module Game {
  import opened Common
  import opened Patches
  import Quilt
  import Timeline
  import Circle
  import Players
  import Terminal

  /** How far the two tokens together still are from the last cell; every
      successful turn lowers it. */
  function Remaining(location1: int, location2: int): (n: int)
    ensures n == 2 * Timeline.Last - location1 - location2
    ensures 0 <= location1 <= Timeline.Last && 0 <= location2 <= Timeline.Last ==> 0 <= n <= 2 * Timeline.Last
  {
    (Timeline.Last - location1) + (Timeline.Last - location2)
  }

  /** With finished meaning "on the last cell" and a running game, the token
      that has priority is never a finished player's. */
  lemma PriorityNeverFinished(location1: int, location2: int, onTop: bool)
    requires 0 <= location1 <= Timeline.Last && 0 <= location2 <= Timeline.Last
    requires !(location1 == Timeline.Last && location2 == Timeline.Last)
    ensures Players.HasPriority(location1, location2, onTop) ==> location1 < Timeline.Last
    ensures !Players.HasPriority(location1, location2, onTop) ==> location2 < Timeline.Last
  {
  }

  /** A player's state between turns: a valid quilt that matches its list of
      patches, on the board, finished exactly on the last cell. */
  ghost predicate Settled(p: Players.Player)
    reads p, p.quilt, p.quilt.board
  {
    p.Valid() && p.quilt.Coherent() && 0 <= p.location <= Timeline.Last &&
    (p.finished <==> p.location == Timeline.Last)
  }

  class GameAlgorithm {
    const patchcircle: Circle.PatchCircle
    const timeboard: Timeline.TimeBoard
    const player1: Players.Player
    const player2: Players.Player
    var currentPlayer: Players.Player
    var currentOpponent: Players.Player
    var game: bool
    var tokenOneOnTwo: bool
    var specialTileTaken: bool
    const kind: int

    /** What holds between two turns of the loop. */
    ghost predicate Valid()
      reads this, player1, player2, player1.quilt, player2.quilt, player1.quilt.board, player2.quilt.board,
            patchcircle
    {
      player1 != player2 && player1.quilt != player2.quilt && player1.quilt.board != player2.quilt.board &&
      player1.id == 1 && player2.id == 2 &&
      Terminal.IsGameType(kind) && timeboard.Valid() && patchcircle.AllValid() &&
      Settled(player1) && Settled(player2) &&
      (game <==> !(player1.finished && player2.finished)) &&
      (specialTileTaken <==> player1.specialTile || player2.specialTile) &&
      !(player1.specialTile && player2.specialTile)
    }

    /** The constructor's assignments once the game type was accepted; the
        full game's circle is the deck read from the patch file, passed in. */
    constructor Make(kind: int, deck: seq<Patch>)
      requires Terminal.IsGameType(kind)
      requires forall k :: 0 <= k < |deck| ==> ValidPatch(deck[k])
      ensures Valid() && game && tokenOneOnTwo && !specialTileTaken && this.kind == kind
      ensures fresh(patchcircle) && fresh(timeboard) && fresh(timeboard.path)
      ensures fresh(player1) && fresh(player2)
      ensures kind == 0 ==> |patchcircle.patches| == 40 && timeboard.path[..] == Timeline.BasicLayout()
      ensures kind == 1 ==> patchcircle.patches == deck && timeboard.path[..] == Timeline.FullLayout()
      ensures player1.button == 5 && player2.button == 5 && player1.location == 0 && player2.location == 0
      ensures player1.quilt.placed == [] && player2.quilt.placed == []
      ensures !player1.specialTile && !player2.specialTile
    {
      var circle: Circle.PatchCircle;
      var board: Timeline.TimeBoard;
      if kind == 0 {
        circle := Circle.PatchCircle.NewPatchCircleBasic();
        StockPatches();
        board := Timeline.TimeBoard.NewBasicTimeBoard();
      } else {
        circle := new Circle.PatchCircle.FromDeck(deck);
        board := Timeline.TimeBoard.NewFullTimeBoard();
      }
      var r1 := Players.Player.NewPlayer(1);
      var r2 := Players.Player.NewPlayer(2);
      patchcircle := circle;
      timeboard := board;
      this.kind := kind;
      player1 := r1.value;
      player2 := r2.value;
      currentPlayer := r1.value;
      currentOpponent := r2.value;
      game := true;
      tokenOneOnTwo := true;
      specialTileTaken := false;
    }

    /** The public constructor: an unknown game type is refused. */
    static method Create(kind: int, deck: seq<Patch>) returns (r: Result<GameAlgorithm>)
      requires forall k :: 0 <= k < |deck| ==> ValidPatch(deck[k])
      ensures r.Ok? <==> Terminal.IsGameType(kind)
      ensures !Terminal.IsGameType(kind) ==> r == Err(IllegalArgument("game type invalid"))
      ensures r.Ok? ==> fresh(r.value) && r.value.Valid() && r.value.game && r.value.kind == kind
    {
      if kind > 1 || kind < 0 {
        return Err(IllegalArgument("game type invalid"));
      }
      var g := new GameAlgorithm.Make(kind, deck);
      return Ok(g);
    }

    /** turnSelection: the player with priority plays, the other is the
        opponent; while the game runs that player has not finished. */
    method TurnSelection()
      requires Valid()
      modifies this
      ensures currentPlayer == (if Players.HasPriority(player1.location, player2.location, tokenOneOnTwo)
                                then player1 else player2)
      ensures currentOpponent == (if currentPlayer == player1 then player2 else player1)
      ensures currentPlayer != currentOpponent
      ensures game ==> !currentPlayer.finished
      ensures game == old(game) && tokenOneOnTwo == old(tokenOneOnTwo) &&
              specialTileTaken == old(specialTileTaken)
      ensures Valid()
    {
      var first := player1.PlayerTurn(player2, tokenOneOnTwo);
      currentPlayer := if first then player1 else player2;
      currentOpponent := if player1.PlayerTurn(player2, tokenOneOnTwo) then player2 else player1;
      if game {
        PriorityNeverFinished(player1.location, player2.location, tokenOneOnTwo);
      }
    }

    /** specialTileProcedure: the first player to complete a 7x7 square gets
        the special tile; nobody gets it afterwards. */
    method SpecialTileProcedure()
      requires currentPlayer == player1 || currentPlayer == player2
      requires player1 != player2 && player1.quilt != player2.quilt
      requires Settled(player1) && Settled(player2)
      requires specialTileTaken <==> player1.specialTile || player2.specialTile
      requires !(player1.specialTile && player2.specialTile)
      modifies this, currentPlayer
      ensures currentPlayer == old(currentPlayer) && currentOpponent == old(currentOpponent)
      ensures game == old(game) && tokenOneOnTwo == old(tokenOneOnTwo)
      ensures !old(specialTileTaken) && currentPlayer.quilt.HasFullSquare() ==>
                specialTileTaken && currentPlayer.specialTile && currentPlayer.button == old(currentPlayer.button) + 7
      ensures old(specialTileTaken) || !currentPlayer.quilt.HasFullSquare() ==>
                specialTileTaken == old(specialTileTaken) && currentPlayer.specialTile == old(currentPlayer.specialTile) &&
                currentPlayer.button == old(currentPlayer.button)
      ensures currentPlayer.location == old(currentPlayer.location) && currentPlayer.finished == old(currentPlayer.finished)
      ensures currentPlayer.specialPatches == old(currentPlayer.specialPatches)
      ensures Settled(player1) && Settled(player2)
      ensures specialTileTaken <==> player1.specialTile || player2.specialTile
      ensures !(player1.specialTile && player2.specialTile)
    {
      if !specialTileTaken {
        var full := currentPlayer.quilt.HasSevenBySevenSquare();
        if full {
          var o := currentPlayer.TakeSpecialTile();
          specialTileTaken := true;
        }
      }
    }

    /** checkEndConditions: the game stops once both players are finished. */
    method CheckEndConditions()
      modifies this
      ensures game == (old(game) && !(player1.finished && player2.finished))
      ensures currentPlayer == old(currentPlayer) && currentOpponent == old(currentOpponent)
      ensures tokenOneOnTwo == old(tokenOneOnTwo) && specialTileTaken == old(specialTileTaken)
    {
      if player1.finished && player2.finished {
        game := false;
      }
    }

    /** terminalPerformPlayerAction: the current player's action; the token
        order for the next turn is what the action reports. */
    method TerminalPerformPlayerAction(console: Terminal.Console) returns (o: Outcome)
      requires Valid()
      requires currentPlayer == player1 || currentPlayer == player2
      requires currentOpponent == (if currentPlayer == player1 then player2 else player1)
      modifies this, currentPlayer, currentPlayer.quilt, currentPlayer.quilt.board, console, timeboard.path, patchcircle
      ensures currentPlayer == old(currentPlayer) && currentOpponent == old(currentOpponent)
      ensures game == old(game) && specialTileTaken == old(specialTileTaken)
      ensures player1.specialTile == old(player1.specialTile) && player2.specialTile == old(player2.specialTile)
      ensures o == Pass ==> Settled(player1) && Settled(player2) && patchcircle.AllValid()
      ensures o == Pass ==> currentPlayer.location > old(currentPlayer.location) &&
                            currentOpponent.location == old(currentOpponent.location)
      ensures o == Pass ==> (tokenOneOnTwo ==> currentPlayer == player1 && player1.location == player2.location)
      ensures o == Pass && currentPlayer == player1 && player1.location == player2.location < Timeline.Last ==>
                tokenOneOnTwo
    {
      var player := currentPlayer;
      var opponent := currentOpponent;
      var r, skipped := Terminal.Action(player, opponent, console, patchcircle, timeboard, kind);
      if r.Err? {
        return Fail(r.error);
      }
      tokenOneOnTwo := r.value;
      o := Pass;
    }

    /** One pass of terminalMode's loop: select, act, award the special tile,
        check the end. A failed action is the exception that ends the program. */
    method Step(console: Terminal.Console) returns (o: Outcome)
      requires Valid() && game
      modifies this, player1, player2, player1.quilt, player2.quilt, player1.quilt.board, player2.quilt.board,
               console, timeboard.path, patchcircle
      ensures o == Pass ==> Valid()
      ensures o == Pass ==>
                Remaining(player1.location, player2.location) < old(Remaining(player1.location, player2.location))
      ensures o == Pass ==>
                currentPlayer == (if old(Players.HasPriority(player1.location, player2.location, tokenOneOnTwo))
                                  then player1 else player2)
      ensures o == Pass && currentPlayer == player1 ==>
                player1.location > old(player1.location) && player2.location == old(player2.location)
      ensures o == Pass && currentPlayer == player2 ==>
                player2.location > old(player2.location) && player1.location == old(player1.location)
      ensures o == Pass ==> (tokenOneOnTwo ==> currentPlayer == player1 && player1.location == player2.location)
      ensures o == Pass && currentPlayer == player1 && player1.location == player2.location < Timeline.Last ==>
                tokenOneOnTwo
      ensures old(specialTileTaken) ==> player1.specialTile == old(player1.specialTile) &&
                                        player2.specialTile == old(player2.specialTile)
    {
      TurnSelection();
      o := TerminalPerformPlayerAction(console);
      if o.Fail? {
        return;
      }
      SpecialTileProcedure();
      CheckEndConditions();
    }

    /** terminalMode's loop: turns until both players are finished. It ends
        because every turn moves the current token forward. */
    method TerminalMode(console: Terminal.Console) returns (o: Outcome)
      requires Valid()
      modifies this, player1, player2, player1.quilt, player2.quilt, player1.quilt.board, player2.quilt.board,
               console, timeboard.path, patchcircle
      ensures o == Pass ==> Valid() && !game && player1.finished && player2.finished
      ensures o == Pass ==> player1.location == Timeline.Last && player2.location == Timeline.Last
    {
      o := Pass;
      while game
        invariant o == Pass && Valid()
        decreases Remaining(player1.location, player2.location)
      {
        o := Step(console);
        if o.Fail? {
          return;
        }
      }
    }
  }
}
