/** Player.java: a player's buttons, time-token position, quilt board and
    bonuses. */
module Players {
  import opened Common
  import opened Patches
  import Quilt
  import Timeline

  /** playerTurn's rule: the player further behind plays; on equal positions
      the token that arrived last (on top) decides. */
  predicate HasPriority(location: int, otherLocation: int, onTop: bool) {
    location < otherLocation || (location == otherLocation && onTop)
  }

  /** Exactly one of two players has priority once the tie-breaking token is
      given to exactly one of them. */
  lemma PriorityIsExclusive(a: int, b: int, onTop: bool)
    ensures HasPriority(a, b, onTop) != HasPriority(b, a, !onTop)
  {
  }

  /** Where a move of `distance` cells from `location` ends: never past the
      last cell. */
  function Destination(location: int, distance: int): (d: int)
    ensures d <= Timeline.Last
    ensures d == location + distance || (d == Timeline.Last && location + distance > Timeline.Last)
  {
    if location + distance > Timeline.Last then Timeline.Last else location + distance
  }

  class Player {
    var button: int
    var location: int
    const quilt: Quilt.QuiltBoard
    var finished: bool
    const id: int
    var specialTile: bool
    var specialPatches: int

    /** What the constructor guarantees and every method keeps. */
    predicate Valid()
      reads this, quilt
    {
      quilt.Valid() && button >= 0 && location >= 0 && (id == 1 || id == 2) && specialPatches >= 0
    }

    /** On the time board, and finished once the last cell is reached. */
    predicate OnBoard()
      reads this
    {
      0 <= location <= Timeline.Last && (location == Timeline.Last ==> finished)
    }

    /** The constructor's field assignments, after its checks passed. */
    constructor Make(button: int, location: int, quilt: Quilt.QuiltBoard, finished: bool, id: int)
      requires button >= 0 && location >= 0 && (id == 1 || id == 2)
      ensures this.button == button && this.location == location && this.quilt == quilt
      ensures this.finished == finished && this.id == id
      ensures !specialTile && specialPatches == 0
    {
      this.button := button;
      this.location := location;
      this.quilt := quilt;
      this.finished := finished;
      this.id := id;
      this.specialTile := false;
      this.specialPatches := 0;
    }

    /** The public constructor: its checks in source order. */
    static method Create(button: int, location: int, quilt: Quilt.QuiltBoard, finished: bool, id: int)
      returns (r: Result<Player>)
      ensures button < 0 ==> r == Err(IllegalArgument("number of buttons cannot be negative"))
      ensures button >= 0 && location < 0 ==> r == Err(IllegalArgument("location cannot be lower than 0"))
      ensures button >= 0 && location >= 0 && id != 1 && id != 2 ==> r == Err(IllegalArgument("Unknown player id"))
      ensures r.Ok? ==> fresh(r.value) && r.value.button == button && r.value.location == location &&
                        r.value.quilt == quilt && r.value.finished == finished && r.value.id == id &&
                        !r.value.specialTile && r.value.specialPatches == 0
      ensures r.Ok? <==> button >= 0 && location >= 0 && (id == 1 || id == 2)
    {
      if button < 0 {
        return Err(IllegalArgument("number of buttons cannot be negative"));
      }
      if location < 0 {
        return Err(IllegalArgument("location cannot be lower than 0"));
      }
      if id != 1 && id != 2 {
        return Err(IllegalArgument("Unknown player id"));
      }
      var p := new Player.Make(button, location, quilt, finished, id);
      return Ok(p);
    }

    /** newPlayer: 5 buttons, at the start, on an empty quilt. */
    static method NewPlayer(id: int) returns (r: Result<Player>)
      ensures id != 1 && id != 2 ==> r == Err(IllegalArgument("Illegal player id"))
      ensures r.Ok? <==> id == 1 || id == 2
      ensures r.Ok? ==> fresh(r.value) && fresh(r.value.quilt) && fresh(r.value.quilt.board) &&
                        r.value.Valid() && r.value.OnBoard() && r.value.button == 5 && r.value.location == 0 &&
                        !r.value.finished && r.value.id == id && !r.value.specialTile &&
                        r.value.specialPatches == 0 && r.value.quilt.placed == [] && r.value.quilt.Coherent() &&
                        forall row, col :: 0 <= row < Quilt.Size && 0 <= col < Quilt.Size ==> !r.value.quilt.board[row, col]
    {
      if id != 1 && id != 2 {
        return Err(IllegalArgument("Illegal player id"));
      }
      var q := new Quilt.QuiltBoard();
      var p := new Player.Make(5, 0, q, false, id);
      return Ok(p);
    }

    /** updateButton: a player cannot go into debt. */
    method UpdateButton(newButton: int) returns (o: Outcome)
      modifies this
      ensures newButton < 0 ==> o == Fail(IllegalArgument("Player cannot be in debt")) && button == old(button)
      ensures newButton >= 0 ==> o == Pass && button == newButton
      ensures location == old(location) && finished == old(finished)
      ensures specialTile == old(specialTile) && specialPatches == old(specialPatches)
    {
      if newButton < 0 {
        return Fail(IllegalArgument("Player cannot be in debt"));
      }
      button := newButton;
      return Pass;
    }

    /** updateLocation: only cells of the time board; reaching the last one
        finishes the player. */
    method UpdateLocation(newLocation: int) returns (o: Outcome)
      modifies this
      ensures !(0 <= newLocation <= Timeline.Last) ==>
                o == Fail(IllegalArgument("Player location out of bound in the timeboard")) &&
                location == old(location) && finished == old(finished)
      ensures 0 <= newLocation <= Timeline.Last ==>
                o == Pass && location == newLocation && finished == (old(finished) || newLocation == Timeline.Last) &&
                OnBoard()
      ensures button == old(button) && specialTile == old(specialTile) && specialPatches == old(specialPatches)
    {
      if newLocation < 0 || newLocation > Timeline.Size - 1 {
        return Fail(IllegalArgument("Player location out of bound in the timeboard"));
      }
      location := newLocation;
      if location == Timeline.Size - 1 {
        FinishPlayer();
      }
      return Pass;
    }

    /** finishPlayer */
    method FinishPlayer()
      modifies this
      ensures finished
      ensures button == old(button) && location == old(location)
      ensures specialTile == old(specialTile) && specialPatches == old(specialPatches)
    {
      finished := true;
    }

    /** playerTurn */
    function PlayerTurn(other: Player, onTop: bool): (b: bool)
      reads this, other
      ensures b == HasPriority(location, other.location, onTop)
    {
      if location < other.location then true
      else if location == other.location then onTop
      else false
    }

    /** score: buttons minus two points per empty quilt cell; a board with
        no patch on it costs 162 points. */
    method Score() returns (s: int)
      requires Valid()
      ensures s == button - 2 * |quilt.EmptyCells()|
      ensures button - 2 * Quilt.Size * Quilt.Size <= s <= button
      ensures (forall r, c :: 0 <= r < Quilt.Size && 0 <= c < Quilt.Size ==> !quilt.board[r, c]) ==>
                s == button - 2 * Quilt.Size * Quilt.Size
    {
      var empty := quilt.EmptySquare();
      s := button - 2 * empty;
    }

    /** movePlayer: advances by the patch's time, stopping on the last cell. */
    method MovePlayer(chosen: Patch) returns (o: Outcome)
      modifies this
      ensures old(location) + chosen.time >= Timeline.Last ==>
                o == Pass && location == Timeline.Last && finished
      ensures 0 <= old(location) + chosen.time < Timeline.Last ==>
                o == Pass && location == old(location) + chosen.time && finished == old(finished)
      ensures old(location) + chosen.time < 0 ==>
                o.Fail? && location == old(location) && finished == old(finished)
      ensures o == Pass ==> location == Destination(old(location), chosen.time) && OnBoard()
      ensures button == old(button) && specialTile == old(specialTile) && specialPatches == old(specialPatches)
    {
      if location + chosen.time >= Timeline.Size - 1 {
        o := UpdateLocation(Timeline.Size - 1);
        FinishPlayer();
      } else {
        o := UpdateLocation(location + chosen.time);
      }
    }

    /** takeSpecialTile: the 7x7 bonus, 7 buttons, at most once. */
    method TakeSpecialTile() returns (o: Outcome)
      requires Valid()
      modifies this
      ensures old(specialTile) ==>
                o == Fail(IllegalState("Current player already has obtaine the special tile")) &&
                button == old(button) && specialTile
      ensures !old(specialTile) ==> o == Pass && specialTile && button == old(button) + 7
      ensures location == old(location) && finished == old(finished) && specialPatches == old(specialPatches)
      ensures Valid()
    {
      if specialTile {
        return Fail(IllegalState("Current player already has obtaine the special tile"));
      }
      specialTile := true;
      o := UpdateButton(button + 7);
    }

    /** takeSpecialPatch: counts one more special patch. */
    method TakeSpecialPatch()
      modifies this
      ensures specialPatches == old(specialPatches) + 1
      ensures button == old(button) && location == old(location)
      ensures finished == old(finished) && specialTile == old(specialTile)
    {
      specialPatches := specialPatches + 1;
    }

    /** graphicCanBuyPatch: the player's buttons cover the price, so paying
        leaves no debt. */
    function GraphicCanBuyPatch(chosen: Patch): (b: bool)
      reads this
      ensures b <==> button - chosen.price >= 0
    {
      button - chosen.price >= 0
    }

    /** skipSelectionUpdateLocation: a player who skips jumps just past the
        opponent, or to the end when the opponent has finished. */
    method SkipSelectionUpdateLocation(opponent: Player) returns (o: Outcome)
      modifies this
      ensures old(opponent.location) < old(location) ==>
                o == Fail(IllegalState("Opponent is behind the player")) &&
                location == old(location) && finished == old(finished)
      ensures old(opponent.location) >= old(location) && old(opponent.finished) ==>
                o == Pass && location == Timeline.Last && finished
      ensures old(opponent.location) >= old(location) && !old(opponent.finished) && 0 <= old(opponent.location) + 1 <= Timeline.Last ==>
                o == Pass && location == old(opponent.location) + 1 &&
                finished == (old(finished) || location == Timeline.Last)
      ensures old(opponent.location) >= old(location) && !old(opponent.finished) && !(0 <= old(opponent.location) + 1 <= Timeline.Last) ==>
                o == Fail(IllegalArgument("Player location out of bound in the timeboard")) &&
                location == old(location) && finished == old(finished)
      ensures o == Pass ==> OnBoard()
      ensures button == old(button) && specialTile == old(specialTile) && specialPatches == old(specialPatches)
    {
      if opponent.location < location {
        return Fail(IllegalState("Opponent is behind the player"));
      }
      if opponent.finished {
        o := UpdateLocation(Timeline.Size - 1);
      } else {
        var target := opponent.location + 1;
        o := UpdateLocation(target);
      }
    }

    /** getTileCrossedSelectionSkip: how many cells the skip move crosses. */
    function GetTileCrossedSelectionSkip(opponent: Player): (n: int)
      reads this, opponent
      ensures (opponent.finished ==> opponent.location == Timeline.Last) ==>
                location + n == (if opponent.finished then Timeline.Last else opponent.location + 1)
      ensures opponent.finished ==> n == opponent.location - location
      ensures !opponent.finished ==> n == opponent.location + 1 - location
    {
      if opponent.finished then opponent.location - location
      else opponent.location - location + 1
    }

    /** getTileCrossedChosePatch: where buying the patch moves the player. */
    function GetTileCrossedChosePatch(chosen: Patch): (d: int)
      reads this
      ensures d == Destination(location, chosen.time)
    {
      if chosen.time + location >= Timeline.Size then Timeline.Size - 1
      else chosen.time + location
    }

    /** getDestinationIndex: moves forward by a positive distance, stopping on
        the last cell. */
    function GetDestinationIndex(distance: int): (r: Result<int>)
      reads this
      ensures distance <= 0 ==> r == Err(IllegalArgument("Distance cannot be <= 0"))
      ensures distance > 0 ==> r == Ok(Destination(location, distance))
      ensures distance > 0 && location < Timeline.Last ==> location < r.value <= Timeline.Last
    {
      if distance <= 0 then Err(IllegalArgument("Distance cannot be <= 0"))
      else
        var destination := if location + distance > Timeline.Size - 1 then Timeline.Size - 1 else location + distance;
        Ok(destination)
    }
  }
}
