# Patchwork rule engine in Dafny

This project models the rule engine of a two-player Patchwork game, written in
Java, and proves properties of that model. Its modules follow the program's
classes:

- **Patches** (`Patch.dfy`): the immutable patch record. Its constructor checks
  run in source order. `flip` and `mirror` are functions over masks, written as
  `seq<seq<bool>>`. `flipArray`, `mirrorArray` and `cube` are loop methods that
  fill a fresh mask, each proved equal to the function that specifies it. The
  stock patches are here too.
- **Circle** (`PatchCircle.dfy`): the class that owns the patch list.
  `choosePatch` removes the chosen patch and rotates the list.
  `choiceIsValid` and `getTrio` are queries. The basic circle is built
  before its shuffle.
- **Quilt** (`QuiltBoard.dfy`, `PatchPlaced.java`): the 9×9 board is an
  `array2<bool>` beside the list of placed patches. It has the placement
  check, the marking loop of `placePatch`, the empty-cell and button counts,
  and the 7×7 detection. `Coherent()` ties the board to the placed patches.
- **Timeline** (`TimeBoard.dfy`, `TimeBoardElement.java`): the 54-cell
  `array<Element>` with its two layouts. It has `elementCrossed`, which
  collects the crossed cells and consumes special patches, plus `setEmpty`
  and the spiral walk of `path2DIndex`.
- **Players** (`Player.dfy`): the player class with its buttons, location,
  finished flag and special tile. It holds the priority rule and the movement
  and skip arithmetic.
- **Terminal** (`TerminalAlgorithm.dfy`): one player's turn. The player's typed
  input is a `Console` of three streams: parsed lines, key characters and
  anchors. Each scanner read takes the next item. An exhausted stream is the
  `NoSuchElementException` the scanner would throw.
- **Game** (`GameAlgorithm.dfy`): the game state, turn selection, the
  one-time special tile, the end condition, one loop pass as `Step`, and the
  loop itself, whose termination is proved.
- **Displays** (`Displays.dfy`): the text builders as functions on strings,
  each with a method where the Java has a loop.

Java exceptions become `Err`/`Fail` values carrying the exception kind and its
message. The source and its design notes disagree in one place, and the model
follows the source: the patch record does not check that the mask has sizeY
rows of sizeX cells. Operations that read a mask therefore require
`ValidPatch`, which adds the mask shape to the record's checks.

## Model

| member | source | states |
|---|---|---|
| Patches.NewPatch | src/fr/uge/patchwork2/Patch.java:33-46 | succeeds exactly when sizeX, sizeY > 0 and time, price, buttons >= 0. Otherwise it fails with the first failing check's IllegalArgument message, in source order. It never looks at the mask's shape. |
| Patches.FlipArray | src/fr/uge/patchwork2/Patch.java:56-72 | an unknown type gives IllegalArgument "Unknown flip type". Otherwise the loop's result is FlipForm, a sizeX-row by sizeY-column mask. |
| Patches.Flip | src/fr/uge/patchwork2/Patch.java:80-87 | unknown type → error. Otherwise the result is valid with the sizes swapped and the same buttons, price, time and color. Type 0 gives cell [i][j] = form[sizeY-1-j][i]; type 1 gives form[j][sizeX-1-i]. |
| Patches.FlipThenFlipBack | src/fr/uge/patchwork2/Patch.java:62-70 | flip(1 - t) after flip(t) gives back the original patch (form and sizes). |
| Patches.FlipFormBack | src/fr/uge/patchwork2/Patch.java:62-70 | the mask half of the round trip: FlipForm one way and then back is the identity. |
| Patches.FlipKeepsCells | src/fr/uge/patchwork2/Patch.java:63-69 | a flip keeps the number of set cells. The proof is a bijection between cell sets. |
| Patches.MirrorArray | src/fr/uge/patchwork2/Patch.java:97-110 | an unknown type gives "Unknown mirror type". Otherwise the loop's result is MirrorForm, with the same shape. |
| Patches.Mirror | src/fr/uge/patchwork2/Patch.java:117-124 | unknown type → error. Otherwise the sizes and attributes are kept. Type 0 gives cell [i][j] = form[i][sizeX-1-j]; type 1 gives form[sizeY-1-i][j]. |
| Patches.MirrorTwice | src/fr/uge/patchwork2/Patch.java:97-124 | the same mirror applied twice is the identity. |
| Patches.MirrorKeepsCells | src/fr/uge/patchwork2/Patch.java:101-107 | a mirror keeps the number of set cells. |
| Patches.Cube | src/fr/uge/patchwork2/Patch.java:135-141 | the result is the record constructor applied to an all-true size×size mask. On success every cell is set. |
| Patches.StockPatches | src/fr/uge/patchwork2/Patch.java:147-167 | specialPatch is the 1×1 cube (0, 0, 0) with its single cell. cubeBasic1 is the 2×2 cube (1, 3, 4); cubeBasic2 is the 2×2 cube (0, 2, 2). All three are valid, and the two basic cubes differ. |
| Circle.AfterChoiceKeepsOthers | src/fr/uge/patchwork2/PatchCircle.java:74-78 | the rotated list plus the chosen patch is the old list as a multiset. Index 0 leaves exactly the tail. |
| Circle.RemoveAt | src/fr/uge/patchwork2/PatchCircle.java:94 | the list loses exactly the element at the given position; those before it stay in place, and those after it move down by one. |
| Circle.RemoveAtIsRemoval | src/fr/uge/patchwork2/PatchCircle.java:94 | the rest of the list, plus the removed patch, is the old list as a multiset. |
| Circle.Trio | src/fr/uge/patchwork2/PatchCircle.java:198-212 | the n-th trio is the slice starting at (n-1)·3 of length min(3, rest). It is empty once the list is exhausted. |
| Circle.PatchCircle.Count | src/fr/uge/patchwork2/PatchCircle.java:36-38 | size() is the list's length. |
| Circle.PatchCircle.AddPatch | src/fr/uge/patchwork2/PatchCircle.java:53-56 | appends exactly one patch. |
| Circle.PatchCircle.ChoosePatch | src/fr/uge/patchwork2/PatchCircle.java:64-79 | the errors come in source order: empty circle (IllegalState), negative index, index > 2 (IllegalArgument), a missing patch (IllegalState). Errors leave the list unchanged. A valid index returns old[i], leaves old[i+1..] + old[..i], and keeps every patch valid. |
| Circle.PatchCircle.ChoosePatchByReference | src/fr/uge/patchwork2/PatchCircle.java:88-96 | the chosen object is named by its position in the circle, because the record's equals compares the mask by reference. An empty circle, or an object outside getTrio(1), gives IllegalState and no change; that includes a copy with the same cells and an object not in the circle. Otherwise that object is returned and removed from its own position, without rotation. |
| Circle.PatchCircle.ChoiceIsValid | src/fr/uge/patchwork2/PatchCircle.java:107-123 | false on an empty circle, even for 3. A negative buttonCount throws. 3 is accepted. Any other index is accepted iff it is in 0..2 and below the size, buttonCount > 0, and the price is <= buttonCount (both directions). |
| Circle.PatchCircle.GetTrio | src/fr/uge/patchwork2/PatchCircle.java:198-212 | n <= 0 gives IllegalArgument; otherwise the result is Trio(patches, n). The circle is not modified. |
| Circle.PatchCircle.NewPatchCircleBasic | src/fr/uge/patchwork2/PatchCircle.java:129-137 | 40 patches: 20 copies of cubeBasic1 and 20 of cubeBasic2, and nothing else. |
| Quilt.FootprintSize | src/fr/uge/patchwork2/QuiltBoard.java:122-128 | an in-bounds patch covers one board cell per set mask cell. |
| Quilt.MarkingEffects | src/fr/uge/patchwork2/QuiltBoard.java:122-128 | marking a fitting patch's cells removes exactly its footprint from the empty cells. The empty count drops by its set-cell count, and the footprint joins the occupied cells. |
| Quilt.QuiltBoard.constructor | src/fr/uge/patchwork2/QuiltBoard.java:31-40 | a fresh 9×9 board with every cell empty, no placed patch, and board and list coherent. |
| Quilt.QuiltBoard.CanPlacePatch | src/fr/uge/patchwork2/QuiltBoard.java:84-104 | true iff the anchor keeps the rectangle on the board and no set mask cell meets an occupied cell (both directions). It changes nothing. |
| Quilt.QuiltBoard.FitsInMaskTerms | src/fr/uge/patchwork2/QuiltBoard.java:84-104 | the board-cell form of the fit condition equals the mask-index form the Java loop reads. |
| Quilt.QuiltBoard.PlacePatch | src/fr/uge/patchwork2/QuiltBoard.java:112-132 | out of bounds gives that error with nothing changed. An overlap gives the overlap error with the list kept; cells marked before the clash may stay marked, as in the Java. On success exactly the masked cells are set and one PatchPlaced is appended. The empty cells lose the footprint, the count drops by the set-cell count, coherence is kept, and a full 7×7 square stays full. |
| Quilt.QuiltBoard.MarkCells | src/fr/uge/patchwork2/QuiltBoard.java:122-129 | the marking loop: it fails iff the patch did not fit. On success each cell becomes old value OR covered. |
| Quilt.QuiltBoard.RecordPlacement | src/fr/uge/patchwork2/QuiltBoard.java:131 | the placement is appended, and the covered cells grow by its footprint. |
| Quilt.QuiltBoard.Buttons | src/fr/uge/patchwork2/QuiltBoard.java:139-145 | the sum of buttons over the placed patches. |
| Quilt.QuiltBoard.EmptySquare | src/fr/uge/patchwork2/QuiltBoard.java:152-161 | equals the number of empty cells and lies in 0..81. It is 81 on an empty board and 0 on a full one. |
| Quilt.QuiltBoard.IsSevenBySevenSquare | src/fr/uge/patchwork2/QuiltBoard.java:169-180 | x or y outside 0..2 throws. Otherwise the result says whether the 7×7 square at board[y][x] is fully occupied. |
| Quilt.QuiltBoard.HasSevenBySevenSquare | src/fr/uge/patchwork2/QuiltBoard.java:186-192 | true iff some 7×7 square with its corner in 0..2 × 0..2 is full. |
| Quilt.QuiltBoard.FullSquareKept | src/fr/uge/patchwork2/QuiltBoard.java:169-192 | when no cell was cleared, a full 7×7 square stays full. |
| Timeline.LayoutCells | src/fr/uge/patchwork2/TimeBoard.java:36-66 | buttons sit on 5 + 6i in both layouts and everything else of the basic layout is empty. Special patches sit on 26 + 6i, i < 5, and never on a button cell. |
| Timeline.NonEmpty | src/fr/uge/patchwork2/TimeBoard.java:124-134 | the collected elements contain no Empty and keep every button and special patch of the range. |
| Timeline.RecrossingFindsOnlyButtons | src/fr/uge/patchwork2/TimeBoard.java:126-132 | crossing a range again after consuming it finds no special patch, only the range's buttons. |
| Timeline.PathEnds | src/fr/uge/patchwork2/TimeBoard.java:93-105 | index 0 maps to (0, 0) and 53 to (2, 3). |
| Timeline.PathInBounds | src/fr/uge/patchwork2/TimeBoard.java:93-105 | every point lies in 0..8 × 0..5. |
| Timeline.PathAdjacent | src/fr/uge/patchwork2/TimeBoard.java:93-105 | consecutive indices differ in exactly one coordinate, by one. |
| Timeline.PathInjective | src/fr/uge/patchwork2/TimeBoard.java:93-105 | no two indices map to the same point. |
| Timeline.Step | src/fr/uge/patchwork2/TimeBoard.java:99-103 | on 49..52 the loop moves left: the branch on line 102 that repeats that range is never taken. |
| Timeline.TimeBoard.constructor | src/fr/uge/patchwork2/TimeBoard.java:36-44 | a fresh 54-cell path holding the basic layout. |
| Timeline.TimeBoard.NewBasicTimeBoard | src/fr/uge/patchwork2/TimeBoard.java:50-53 | a fresh board with the basic layout. |
| Timeline.TimeBoard.NewFullTimeBoard | src/fr/uge/patchwork2/TimeBoard.java:59-66 | a fresh board with the full layout. |
| Timeline.TimeBoard.Path2DIndex | src/fr/uge/patchwork2/TimeBoard.java:93-105 | an index outside 0..53 is an error. Otherwise the loop's point is the spiral walk's point for that index. |
| Timeline.TimeBoard.ElementCrossed | src/fr/uge/patchwork2/TimeBoard.java:115-136 | the three errors in source order, each leaving the path unchanged. Otherwise the result is the non-empty cells of (s, f] in order, and exactly the special patches there are emptied. |
| Timeline.TimeBoard.CrossCells | src/fr/uge/patchwork2/TimeBoard.java:124-134 | the loop of elementCrossed: it collects NonEmpty of the range, and the path becomes Consumed. |
| Timeline.TimeBoard.SetEmpty | src/fr/uge/patchwork2/TimeBoard.java:142-148 | k < 0 or k >= 54 throws with no change. Otherwise only cell k becomes Empty. |
| Players.PriorityIsExclusive | src/fr/uge/patchwork2/Player.java:176-183 | of two players, with the tie token seen from each side, exactly one has priority. |
| Players.Destination | src/fr/uge/patchwork2/Player.java:197-206 | location + distance, clamped to 53. |
| Players.Player.Make | src/fr/uge/patchwork2/Player.java:108-123 | the constructor's field assignments: no special tile, no special patch. |
| Players.Player.Create | src/fr/uge/patchwork2/Player.java:108-123 | the checks come in source order: negative buttons, negative location, an unknown id. It succeeds iff all three pass. |
| Players.Player.NewPlayer | src/fr/uge/patchwork2/Player.java:130-138 | an unknown id is an error. Otherwise: 5 buttons, location 0, not finished, a fresh empty coherent quilt. |
| Players.Player.UpdateButton | src/fr/uge/patchwork2/Player.java:144-148 | a negative value throws and leaves the buttons; otherwise the buttons become the value. |
| Players.Player.UpdateLocation | src/fr/uge/patchwork2/Player.java:154-161 | outside 0..53 throws with no change. Otherwise the location is set, and finished becomes old finished or 53; it is never cleared. |
| Players.Player.FinishPlayer | src/fr/uge/patchwork2/Player.java:166-168 | finished becomes true; nothing else changes. |
| Players.Player.PlayerTurn | src/fr/uge/patchwork2/Player.java:176-183 | true iff the player is behind, or level and holding the tie token. |
| Players.Player.Score | src/fr/uge/patchwork2/Player.java:189-191 | buttons − 2·empty cells, between buttons − 162 and buttons. An empty quilt scores buttons − 162. |
| Players.Player.MovePlayer | src/fr/uge/patchwork2/Player.java:197-206 | the location becomes min(location + time, 53), and reaching 53 finishes. A negative result is refused. |
| Players.Player.TakeSpecialTile | src/fr/uge/patchwork2/Player.java:211-216 | a second call throws IllegalState. The first sets the tile and adds 7 buttons. |
| Players.Player.TakeSpecialPatch | src/fr/uge/patchwork2/Player.java:221-223 | specialPatches goes up by one; nothing else changes. |
| Players.Player.GraphicCanBuyPatch | src/fr/uge/patchwork2/Player.java:230-233 | true iff buttons − price >= 0. Its partners are Terminal.PayAndAdvance (a purchase goes through iff it holds) and Terminal.ValidChoiceIsAffordable. |
| Players.Player.SkipSelectionUpdateLocation | src/fr/uge/patchwork2/Player.java:239-248 | an opponent behind the player throws IllegalState. Otherwise the player moves to 53 if the opponent finished, else to opponent + 1. Off the board, that is refused. |
| Players.Player.GetTileCrossedSelectionSkip | src/fr/uge/patchwork2/Player.java:255-262 | opponent − location, plus 1 unless the opponent finished: exactly the distance of the skip move. |
| Players.Player.GetTileCrossedChosePatch | src/fr/uge/patchwork2/Player.java:269-274 | the clamped destination min(location + time, 53). |
| Players.Player.GetDestinationIndex | src/fr/uge/patchwork2/Player.java:281-288 | d <= 0 throws; otherwise the clamped destination, strictly ahead for a player not yet on 53. |
| Terminal.Console.NextLine | src/fr/uge/patchwork2/TerminalAlgorithm.java:235 | the next parsed line, or NoSuchElement once the lines run out. |
| Terminal.Console.NextAnchor | src/fr/uge/patchwork2/TerminalAlgorithm.java:165-172 | the next anchor, or NoSuchElement once the anchors run out. |
| Terminal.Console.NextKey | src/fr/uge/patchwork2/TerminalAlgorithm.java:123 | the next key, or NoSuchElement once the keys run out. |
| Terminal.KeyTransform | src/fr/uge/patchwork2/TerminalAlgorithm.java:124-131 | l/r flip and h/v mirror, each in either case; any other key leaves the patch. Validity and attributes are kept. |
| Terminal.KeyTransformKeepsCells | src/fr/uge/patchwork2/TerminalAlgorithm.java:124-131 | a key never changes the number of set cells. |
| Terminal.ApplyKeys | src/fr/uge/patchwork2/TerminalAlgorithm.java:121-136 | the dialogue ends iff a stop key is typed, after exactly the keys up to the first one. The patch stays valid with the same attributes. |
| Terminal.ApplyKeysKeepsCells | src/fr/uge/patchwork2/TerminalAlgorithm.java:121-136 | any key sequence keeps the number of set cells. |
| Terminal.ApplyKeysIgnoresRest | src/fr/uge/patchwork2/TerminalAlgorithm.java:132-135 | keys typed after the stop key do not matter. |
| Terminal.FlipProcedure | src/fr/uge/patchwork2/TerminalAlgorithm.java:117-137 | type 0 returns the patch unread. Otherwise the keys are consumed through the stop key and the dialogue's patch is returned; without a stop key the scanner throws. |
| Terminal.PlacementSelection | src/fr/uge/patchwork2/TerminalAlgorithm.java:155-176 | type 0 reads anchors until the first that fits and places the patch there, and every earlier anchor did not fit. In the full game the patch is transformed first. The placement appends it, lowers the empty cells by its set-cell count, and keeps coherence and full squares. Running out of input throws. |
| Terminal.SelectAnchor | src/fr/uge/patchwork2/TerminalAlgorithm.java:158-173 | the do/while of placementSelection: the returned anchor fits. For type 0 it is the first fitting one read. |
| Terminal.CrossedCounts | src/fr/uge/patchwork2/TimeBoard.java:124-134 | the crossed list holds as many buttons and special patches as the path range. |
| Terminal.SpecialsAddNoButtons | src/fr/uge/patchwork2/TerminalAlgorithm.java:48-52 | the appended special patches carry no button. |
| Terminal.ProcessTimeBoardElement | src/fr/uge/patchwork2/TerminalAlgorithm.java:31-41 | a button adds the quilt's buttons. A special patch places one 1×1 special patch, until the input runs out, and lowers the empty cells by one. Empty does nothing. Location, finished, the tile and specialPatches are untouched: takeSpecialPatch is never called. |
| Terminal.ProcessCrossed | src/fr/uge/patchwork2/TerminalAlgorithm.java:66-70 | over the crossed list, the buttons grow by (#buttons) × the quilt's buttons, and one special patch is placed per special cell. |
| Terminal.TimeboardCrossingProcedure | src/fr/uge/patchwork2/TerminalAlgorithm.java:61-71 | distance <= 0 throws. It crosses (location, clamped destination], consumes that range's special patches and pays, per button cell, the quilt's buttons. It places one special patch per special cell. The location is not moved. |
| Terminal.SkipSelectionProcedure | src/fr/uge/patchwork2/TerminalAlgorithm.java:85-94 | it crosses opponent − location + 1 cells and moves just past the opponent (to 53 if the opponent finished). It adds the crossed tile count plus the button income, and finishes on 53. A non-positive distance throws first with nothing changed. |
| Terminal.ChosenPatchPlacementProcedure | src/fr/uge/patchwork2/TerminalAlgorithm.java:202-218 | an invalid index throws with nothing changed. A purchase removes the patch with rotation and places it, then pays the price. A patch the player cannot afford (GraphicCanBuyPatch false) makes it throw with the buttons and location unchanged. It crosses by the patch's time, paying income on the quilt that now includes the patch, and moves to the clamped destination. |
| Terminal.PayAndAdvance | src/fr/uge/patchwork2/TerminalAlgorithm.java:210-217 | when GraphicCanBuyPatch is false, updateButton's "Player cannot be in debt" is thrown with the buttons, location and quilt unchanged. Success implies it held. On success the price is deducted, the timeline is crossed by the patch's time, and the player moves to the clamped destination. |
| Terminal.ValidChoiceIsAffordable | src/fr/uge/patchwork2/PatchCircle.java:107-123 | a patch index that choiceIsValid accepts names an existing patch among the first three that the player can buy (GraphicCanBuyPatch), and the player holds at least one button. |
| Terminal.PatchSelectionProcedure | src/fr/uge/patchwork2/TerminalAlgorithm.java:230-238 | lines are read until choiceIsValid accepts one, and every line before it was refused. The result is 3 or an affordable index. On an empty circle no line is ever accepted, so the input runs out. |
| Terminal.Action | src/fr/uge/patchwork2/TerminalAlgorithm.java:250-273 | an unknown game type throws with nothing changed. A skip returns false and moves past the opponent. A purchase returns true iff the player is player 1 and lands on the opponent's cell, and it shrinks the circle by one. The player always ends further on. |
| Game.Remaining | src/fr/uge/patchwork2/GameAlgorithm.java:105-113 | the loop's measure, which stays within 0..106 while both tokens are on the board. |
| Game.PriorityNeverFinished | src/fr/uge/patchwork2/GameAlgorithm.java:52-55 | while not both players are on 53, the one with priority is not on 53. |
| Game.GameAlgorithm.Make | src/fr/uge/patchwork2/GameAlgorithm.java:30-47 | game and tokenOneOnTwo are true and no special tile is taken. Basic: 40 patches and the basic board. Full: the given deck and the full board. Two new players: 5 buttons each, at 0, with empty quilts. |
| Game.GameAlgorithm.Create | src/fr/uge/patchwork2/GameAlgorithm.java:30-33 | it succeeds iff the type is 0 or 1; otherwise it fails with "game type invalid". |
| Game.GameAlgorithm.TurnSelection | src/fr/uge/patchwork2/GameAlgorithm.java:52-55 | the current player is player 1 iff playerTurn holds, and the opponent is the other player. While the game runs, the chosen player is not finished. |
| Game.GameAlgorithm.SpecialTileProcedure | src/fr/uge/patchwork2/GameAlgorithm.java:80-88 | the tile goes, with 7 buttons, to the first current player showing a full 7×7 square, and to nobody after. |
| Game.GameAlgorithm.CheckEndConditions | src/fr/uge/patchwork2/GameAlgorithm.java:93-96 | game becomes false iff both are finished, and is never set back. |
| Game.GameAlgorithm.TerminalPerformPlayerAction | src/fr/uge/patchwork2/GameAlgorithm.java:72-74 | the action's result becomes tokenOneOnTwo. Only the current player moves, forward. |
| Game.GameAlgorithm.Step | src/fr/uge/patchwork2/GameAlgorithm.java:105-113 | one loop pass: the player with priority acts, the measure drops, and the game invariant holds again. |
| Game.GameAlgorithm.TerminalMode | src/fr/uge/patchwork2/GameAlgorithm.java:102-116 | the loop ends, and unless an exception escapes both players are finished on 53. |
| Displays.NatToStringReadsBack | src/fr/uge/patchwork2/Displays.java:19-23 | the decimal text of a number reads back as that number. |
| Displays.IntToStringReadsBack | src/fr/uge/patchwork2/Displays.java:19-23 | the same for signed numbers. |
| Displays.IntToStringInjective | src/fr/uge/patchwork2/Displays.java:19-23 | different numbers never print alike. |
| Displays.ScoreTextInjective | src/fr/uge/patchwork2/Displays.java:19-23 | the two score lines determine both scores. |
| Displays.DisplayScore | src/fr/uge/patchwork2/Displays.java:19-23 | the score lines of the two players' scores. |
| Displays.ResultText | src/fr/uge/patchwork2/Displays.java:31-40 | "Player 1 has won !" iff s1 > s2, "Player 2 has won !" iff s1 < s2, and "It's a draw !" iff they are equal. |
| Displays.DisplayResult | src/fr/uge/patchwork2/Displays.java:31-40 | the verdict on the two players' scores. |
| Displays.GridShape | src/fr/uge/patchwork2/Displays.java:93-113 | a top border, y row lines with separators between rows only (y − 1 of them), and a bottom border. All lines have the same length and end with a line break. |
| Displays.GridShowsCells | src/fr/uge/patchwork2/Displays.java:100-108 | cell (i, j) appears on line 2i + 1 at column 1 + 3j, as a star when occupied and a blank otherwise. |
| Displays.DisplayRow | src/fr/uge/patchwork2/Displays.java:101-108 | the inner loop builds the row's line. |
| Displays.DisplayGrid | src/fr/uge/patchwork2/Displays.java:93-113 | with x < 1, String.repeat's negative-count error. Otherwise the grid text. |
| Displays.PathTextReadsBack | src/fr/uge/patchwork2/Displays.java:179-196 | the path display between its two rules reads back as the whole path. |
| Displays.PathCellsShowPath | src/fr/uge/patchwork2/Displays.java:184-193 | column k shows cell k's symbol. |
| Displays.DisplayTimeBoardPath | src/fr/uge/patchwork2/Displays.java:179-196 | the loop builds the path text. |
| Displays.TimeTokenAsWritten | src/fr/uge/patchwork2/Displays.java:205-225 | displayTimeToken as written. On one cell it agrees with the corrected TimeToken. On different cells it is one line, max(location1, location2) + 3 characters long, ending with a line break. |
| Displays.TimeToken | src/fr/uge/patchwork2/Displays.java:205-225 | the corrected token lines, ending with a line break. On different cells the line is max + 2 characters long, so each digit stands over its own cell (TimeTokenColumns). |
| Displays.TimeTokenSameCell | src/fr/uge/patchwork2/Displays.java:210-218 | on one cell: two lines with each digit in the cell's column, the token on top first. |
| Displays.TimeTokenColumns | src/fr/uge/patchwork2/Displays.java:220-224 | corrected: a single line with digit 1 exactly at location1, digit 2 exactly at location2, blanks elsewhere. |
| Displays.TimeTokenAsWrittenMisplaced | src/fr/uge/patchwork2/Displays.java:220-224 | as written, (0, 1) prints "1 2\n", not "12\n". |
| Displays.TimeTokenAsWrittenOffByOne | src/fr/uge/patchwork2/Displays.java:220-224 | as written, the token ahead is always one column past its cell. |
| Displays.TimeBoardStateText | src/fr/uge/patchwork2/Displays.java:235-247 | the header, then the token lines as displayTimeToken writes them, then the path display. Its length is the sum of the three, and it ends with the path display. |
| Displays.TimeBoardStateShowsPath | src/fr/uge/patchwork2/Displays.java:235-247 | the time board's path can be read back from the end of the state text. |
| Displays.AvailableIgnoresRest | src/fr/uge/patchwork2/Displays.java:141-160 | only the first three patches are shown, and an empty list shows nothing. |
| Displays.AvailableNumbering | src/fr/uge/patchwork2/Displays.java:141-160 | with three or more patches, the entries are ids 0, 1, 2 in list order. |
| Displays.DisplayPatchAvailable | src/fr/uge/patchwork2/Displays.java:141-160 | the loop builds exactly the listing of the first min(3, n) patches. |

## Left out

- The graphic front end (GraphicAlgorithm, GraphicElements, GraphicButton, GraphicPatch*): it is rendering and event polling. Its purchase differs from the terminal rules: it deducts the price before placing, and it passes a destination index where a distance is expected. It is not modelled.
- Main.java and Tools.java: the mode-selection loop and the sleeps. Tools.scannerGetInt's parsing is folded into the Console's parsed lines, where a line that is not a number is −1.
- The file deck and the randomness: buildPatchByFile, newPatchCircleFull, the random colours and Collections.shuffle. The full game's deck is a parameter, and the basic circle is built before its shuffle.
- Color is an opaque RGB triple; no colour arithmetic is modelled.
- Printing: the System.out output, showStateQuiltboard, displayStartOfTurn, displayQuiltBoard, displayPatch and displayPatchCircle. The Displays builders are modelled as the strings they return; printing them is not.
- The Scanner: it is replaced by the Console's three streams of already-parsed items. InputMismatchException is not modelled; an anchor that does not parse is (−1, −1), as the catch block sets it.
- Equality: Patch is a datatype, so it compares by value. The Java record's equals compares its mask array by reference. The only place where that matters is choosePatch(Patch), which is modelled with the chosen object's position instead.
- Circle.PatchCircle.ChoosePatchByReference: it assumes that every element of the circle is a distinct object. That is how the circles are built: each patch comes from its own cube() or constructor call, and choosePatch(int) only moves objects around. A list holding the same object twice is not modelled.
- Aliasing: getBoard, TimeBoard.path and getPatch leak the internal arrays and lists in Java. Here each class owns its state.
- Helpers that are not in the Java: MarkCells, RecordPlacement, CrossCells, ProcessCrossed, SelectAnchor, PayAndAdvance and DisplayRow. Each splits one Java method at a loop or a statement boundary. Each is called where that code runs, so the state they change is the Java method's.
- Game.GameAlgorithm.Make: currentPlayer and currentOpponent start as player 1 and player 2 rather than null. turnSelection assigns them before any use.
- Game.GameAlgorithm.Step: the token rule is proved in the direction "tokenOneOnTwo implies player 1 moved onto player 2's cell". The converse is proved only when the shared cell is not the last one.
- Displays.TimeBoardStateText: it composes the token lines as written, like displayTimeBoardState, so the misplaced digit of the Findings row shows in it. Its contract does not restate the token section beyond its length.
- Terminal.PlacementSelection: in the full game (type 1) the anchor is not shown to be the first that fits. The contract states that it fits and that the patch keeps its attributes and cell count.
- The mask shape is not checked by the record. Operations that read a mask require ValidPatch, which is the record's checks plus a mask of exactly sizeY rows of sizeX cells. On a smaller mask the Java would throw ArrayIndexOutOfBounds. A larger mask is accepted by the Java and read only in part: flipArray, mirrorArray, canPlacePatch, placePatch and displayGrid only read form[i][j] with i < sizeY and j < sizeX. The requires also excludes that case, and no call site builds such a mask.
- Patches.Cube: it requires size >= 0, leaving out the NegativeArraySizeException that `new boolean[size][size]` throws for a negative size. The method is private and is called only with sizes 1 and 2.

## Findings

| source | as written | input that shows it | evidently intended | confidence | as-written member | corrected member |
|---|---|---|---|---|---|---|
| src/fr/uge/patchwork2/Displays.java:220-224 | on different cells the gap between the two digits is high − low spaces | locations (0, 1) print "1 2\n", so player 2's digit stands over cell 2 | a gap of high − low − 1, putting each digit over its own cell of the path line | not executed | Displays.TimeTokenAsWritten (Displays.TimeTokenAsWrittenMisplaced, Displays.TimeTokenAsWrittenOffByOne) | Displays.TimeToken (Displays.TimeTokenColumns) |
