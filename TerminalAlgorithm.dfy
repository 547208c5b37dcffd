/** TerminalAlgorithm.java: one player's turn in the terminal game. What the
    player types is given up front as a Console; what is printed is not
    modelled. */
module Terminal {
  import opened Common
  import opened Patches
  import Quilt
  import Timeline
  import Circle
  import Players

  /** The game types: 0 is the basic game, 1 the full one with flips and
      special patches. */
  predicate IsGameType(kind: int) {
    0 <= kind <= 1
  }

  /** The input the player will type, read through a java.util.Scanner.
      lines: the whole lines read by Tools.scannerGetInt, already parsed, a line
      that is not a number standing for its default -1; keys: the first
      character of each token read by scanner.next(); anchors: the pairs read by
      two scanner.nextInt() calls, a pair that does not parse standing for
      (-1, -1) as the catch block sets it. */
  class Console {
    var lines: seq<int>
    var keys: seq<char>
    var anchors: seq<Point>

    constructor (lines: seq<int>, keys: seq<char>, anchors: seq<Point>)
      ensures this.lines == lines && this.keys == keys && this.anchors == anchors
    {
      this.lines := lines;
      this.keys := keys;
      this.anchors := anchors;
    }

    /** Tools.scannerGetInt(scanner, -1): the next line's number. */
    method NextLine() returns (r: Result<int>)
      modifies this
      ensures old(lines) == [] ==> r == Err(NoSuchElement("No line found")) && lines == []
      ensures old(lines) != [] ==> r == Ok(old(lines)[0]) && lines == old(lines)[1..]
      ensures keys == old(keys) && anchors == old(anchors)
    {
      if lines == [] {
        return Err(NoSuchElement("No line found"));
      }
      r := Ok(lines[0]);
      lines := lines[1..];
    }

    /** scanner.next().charAt(0): the first character of the next token. */
    method NextKey() returns (r: Result<char>)
      modifies this
      ensures old(keys) == [] ==> r == Err(NoSuchElement("")) && keys == []
      ensures old(keys) != [] ==> r == Ok(old(keys)[0]) && keys == old(keys)[1..]
      ensures lines == old(lines) && anchors == old(anchors)
    {
      if keys == [] {
        return Err(NoSuchElement(""));
      }
      r := Ok(keys[0]);
      keys := keys[1..];
    }

    /** The anchor read by placementSelection. */
    method NextAnchor() returns (r: Result<Point>)
      modifies this
      ensures old(anchors) == [] ==> r == Err(NoSuchElement("")) && anchors == []
      ensures old(anchors) != [] ==> r == Ok(old(anchors)[0]) && anchors == old(anchors)[1..]
      ensures lines == old(lines) && keys == old(keys)
    {
      if anchors == [] {
        return Err(NoSuchElement(""));
      }
      r := Ok(anchors[0]);
      anchors := anchors[1..];
    }
  }

  // ------------------------------------------------------------ flipping

  /** The key that ends flipProcedure. */
  predicate IsStop(key: char) {
    key == 'y' || key == 'Y'
  }

  /** What one key of flipProcedure does to the patch: l and r flip, h and v
      mirror, any other key leaves it as it is. */
  function KeyTransform(p: Patch, key: char): (q: Patch)
    requires ValidPatch(p)
    ensures ValidPatch(q)
    ensures q.buttons == p.buttons && q.price == p.price && q.time == p.time && q.color == p.color
    ensures key !in "lLrRhHvV" ==> q == p
  {
    if key == 'l' || key == 'L' then Flip(p, 0).value
    else if key == 'r' || key == 'R' then Flip(p, 1).value
    else if key == 'h' || key == 'H' then Mirror(p, 0).value
    else if key == 'v' || key == 'V' then Mirror(p, 1).value
    else p
  }

  /** A key never changes how many cells the patch covers. */
  lemma KeyTransformKeepsCells(p: Patch, key: char)
    requires ValidPatch(p)
    ensures |TrueCells(KeyTransform(p, key).form)| == |TrueCells(p.form)|
  {
    if key == 'l' || key == 'L' {
      FlipKeepsCells(p, 0);
    } else if key == 'r' || key == 'R' {
      FlipKeepsCells(p, 1);
    } else if key == 'h' || key == 'H' {
      MirrorKeepsCells(p, 0);
    } else if key == 'v' || key == 'V' {
      MirrorKeepsCells(p, 1);
    }
  }

  /** The outcome of the flip dialogue on a key stream: the patch when the
      stop key is read, with the number of keys read; or the stream ran out. */
  datatype Dialogue = Done(patch: Patch, used: nat) | Exhausted

  /** The flip dialogue as a function of the keys typed. */
  function ApplyKeys(p: Patch, keys: seq<char>): (t: Dialogue)
    requires ValidPatch(p)
    ensures t.Exhausted? <==> forall k :: 0 <= k < |keys| ==> !IsStop(keys[k])
    ensures t.Done? ==> 0 < t.used <= |keys| && IsStop(keys[t.used - 1]) &&
                        forall k :: 0 <= k < t.used - 1 ==> !IsStop(keys[k])
    ensures t.Done? ==> ValidPatch(t.patch) && t.patch.buttons == p.buttons && t.patch.price == p.price &&
                        t.patch.time == p.time && t.patch.color == p.color
    decreases |keys|
  {
    if keys == [] then Exhausted
    else if IsStop(keys[0]) then Done(p, 1)
    else
      match ApplyKeys(KeyTransform(p, keys[0]), keys[1..])
      case Done(q, n) => Done(q, n + 1)
      case Exhausted => Exhausted
  }

  /** However many keys were typed, the patch keeps its number of cells. */
  lemma {:induction false} ApplyKeysKeepsCells(p: Patch, keys: seq<char>)
    requires ValidPatch(p) && ApplyKeys(p, keys).Done?
    ensures |TrueCells(ApplyKeys(p, keys).patch.form)| == |TrueCells(p.form)|
    decreases |keys|
  {
    if !IsStop(keys[0]) {
      KeyTransformKeepsCells(p, keys[0]);
      ApplyKeysKeepsCells(KeyTransform(p, keys[0]), keys[1..]);
    }
  }

  /** Keys typed after the stop key are not read. */
  lemma {:induction false} ApplyKeysIgnoresRest(p: Patch, keys: seq<char>, more: seq<char>)
    requires ValidPatch(p) && ApplyKeys(p, keys).Done?
    ensures ApplyKeys(p, keys + more) == ApplyKeys(p, keys)
    decreases |keys|
  {
    assert (keys + more)[0] == keys[0];
    if !IsStop(keys[0]) {
      assert (keys + more)[1..] == keys[1..] + more;
      ApplyKeysIgnoresRest(KeyTransform(p, keys[0]), keys[1..], more);
    }
  }

  /** Which side of the dialogue's progress has been made after some keys. */
  function Shift(t: Dialogue, d: nat): Dialogue {
    match t
    case Done(q, n) => Done(q, n + d)
    case Exhausted => Exhausted
  }

  /** One key of the dialogue: none left, the stop key, or a transformation
      followed by the rest. */
  lemma ApplyKeysStep(p: Patch, keys: seq<char>)
    requires ValidPatch(p)
    ensures keys == [] ==> ApplyKeys(p, keys) == Exhausted
    ensures keys != [] && IsStop(keys[0]) ==> ApplyKeys(p, keys) == Done(KeyTransform(p, keys[0]), 1)
    ensures keys != [] && !IsStop(keys[0]) ==>
              ApplyKeys(p, keys) == Shift(ApplyKeys(KeyTransform(p, keys[0]), keys[1..]), 1)
  {
  }

  /** flipProcedure: in the basic game the patch is returned as it is; in the
      full game keys are read and applied until the stop key. */
  method FlipProcedure(console: Console, patch: Patch, kind: int) returns (r: Result<Patch>)
    requires ValidPatch(patch)
    modifies console
    ensures kind == 0 ==> r == Ok(patch) && console.keys == old(console.keys)
    ensures kind != 0 && ApplyKeys(patch, old(console.keys)).Done? ==>
              r == Ok(ApplyKeys(patch, old(console.keys)).patch) &&
              console.keys == old(console.keys)[ApplyKeys(patch, old(console.keys)).used..]
    ensures kind != 0 && ApplyKeys(patch, old(console.keys)).Exhausted? ==>
              r == Err(NoSuchElement("")) && console.keys == []
    ensures console.lines == old(console.lines) && console.anchors == old(console.anchors)
  {
    if kind == 0 {
      return Ok(patch);
    }
    var p := patch;
    ghost var read: nat := 0;
    while true
      invariant ValidPatch(p)
      invariant read <= |old(console.keys)| && console.keys == old(console.keys)[read..]
      invariant ApplyKeys(patch, old(console.keys)) == Shift(ApplyKeys(p, console.keys), read)
      invariant console.lines == old(console.lines) && console.anchors == old(console.anchors)
      decreases |console.keys|
    {
      ApplyKeysStep(p, console.keys);
      var key := console.NextKey();
      if key.Err? {
        return Err(key.error);
      }
      p := KeyTransform(p, key.value);
      if IsStop(key.value) {
        return Ok(p);
      }
      assert old(console.keys)[read..][1..] == old(console.keys)[read + 1..];
      read := read + 1;
    }
  }

  // ------------------------------------------------------------ placing

  /** placementSelection: in the full game the flip dialogue runs first; then an
      anchor is read; this repeats until the patch fits, and then it is placed.
      Only running out of input ends it early, and then the quilt is as it was. */
  method PlacementSelection(player: Players.Player, console: Console, patch: Patch, kind: int)
    returns (o: Outcome, placedPatch: Patch, anchor: Point, ghost tries: nat)
    requires player.Valid() && ValidPatch(patch)
    modifies console, player.quilt, player.quilt.board
    ensures player.Valid() && console.lines == old(console.lines)
    ensures o.Fail? ==> o.error.NoSuchElement? &&
                        player.quilt.placed == old(player.quilt.placed) && unchanged(player.quilt.board)
    ensures o == Pass ==>
              ValidPatch(placedPatch) && placedPatch.buttons == patch.buttons && placedPatch.price == patch.price &&
              placedPatch.time == patch.time && |TrueCells(placedPatch.form)| == |TrueCells(patch.form)| &&
              old(player.quilt.Fits(placedPatch, anchor)) &&
              player.quilt.placed == old(player.quilt.placed) + [Quilt.PatchPlaced(placedPatch, anchor)] &&
              |player.quilt.EmptyCells()| == |old(player.quilt.EmptyCells())| - |TrueCells(patch.form)|
    ensures o == Pass && old(player.quilt.Coherent()) ==> player.quilt.Coherent()
    ensures old(player.quilt.HasFullSquare()) ==> player.quilt.HasFullSquare()
    ensures kind != 1 ==> console.keys == old(console.keys)
    ensures kind != 1 && o == Pass ==>
              placedPatch == patch && tries < |old(console.anchors)| && anchor == old(console.anchors)[tries] &&
              console.anchors == old(console.anchors)[tries + 1..] &&
              forall m :: 0 <= m < tries ==> !old(player.quilt.Fits(patch, console.anchors[m]))
    ensures kind != 1 && o.Fail? ==>
              console.anchors == [] && forall m :: 0 <= m < |old(console.anchors)| ==> !old(player.quilt.Fits(patch, console.anchors[m]))
  {
    o, placedPatch, anchor, tries := SelectAnchor(player, console, patch, kind);
    if o.Fail? {
      return;
    }
    o := player.quilt.PlacePatch(placedPatch, anchor);
  }

  /** The loop of placementSelection: flip (full game) and read an anchor
      until the patch fits there; the quilt is only read. */
  method SelectAnchor(player: Players.Player, console: Console, patch: Patch, kind: int)
    returns (o: Outcome, p: Patch, a: Point, ghost tries: nat)
    requires player.Valid() && ValidPatch(patch)
    modifies console
    ensures console.lines == old(console.lines)
    ensures o.Fail? ==> o.error.NoSuchElement?
    ensures ValidPatch(p) && p.buttons == patch.buttons && p.price == patch.price && p.time == patch.time
    ensures |TrueCells(p.form)| == |TrueCells(patch.form)|
    ensures o == Pass ==> player.quilt.Fits(p, a)
    ensures kind != 1 ==> p == patch && console.keys == old(console.keys)
    ensures kind != 1 && o == Pass ==>
              tries < |old(console.anchors)| && a == old(console.anchors)[tries] &&
              console.anchors == old(console.anchors)[tries + 1..] &&
              forall m :: 0 <= m < tries ==> !player.quilt.Fits(patch, old(console.anchors)[m])
    ensures kind != 1 && o.Fail? ==>
              console.anchors == [] && forall m :: 0 <= m < |old(console.anchors)| ==> !player.quilt.Fits(patch, old(console.anchors)[m])
  {
    tries := 0;
    p := patch;
    a := Point(-1, -1);
    var fits := false;
    while !fits
      invariant ValidPatch(p) && p.buttons == patch.buttons && p.price == patch.price && p.time == patch.time
      invariant |TrueCells(p.form)| == |TrueCells(patch.form)|
      invariant console.lines == old(console.lines)
      invariant fits ==> player.quilt.Fits(p, a)
      invariant kind != 1 ==> p == patch && console.keys == old(console.keys)
      invariant kind != 1 ==> tries + (if fits then 1 else 0) <= |old(console.anchors)| &&
                              console.anchors == old(console.anchors)[tries + (if fits then 1 else 0)..]
      invariant kind != 1 && fits ==> a == old(console.anchors)[tries]
      invariant kind != 1 ==> forall m :: 0 <= m < tries ==> !player.quilt.Fits(patch, old(console.anchors)[m])
      decreases |console.anchors|
    {
      if kind == 1 {
        ghost var typed := console.keys;
        var f := FlipProcedure(console, p, kind);
        if f.Err? {
          return Fail(f.error), p, a, tries;
        }
        ApplyKeysKeepsCells(p, typed);
        p := f.value;
      }
      var read := console.NextAnchor();
      if read.Err? {
        return Fail(read.error), p, a, tries;
      }
      a := read.value;
      fits := player.quilt.CanPlacePatch(p, a);
      if !fits {
        if kind != 1 {
          assert old(console.anchors)[tries..][1..] == old(console.anchors)[tries + 1..];
        }
        tries := tries + 1;
      }
    }
    o := Pass;
  }

  // ------------------------------------------------------------ the time board

  /** The number of cells holding e on the part (start, finish] of a path. */
  function CountIn(path: seq<Timeline.Element>, start: int, finish: int, e: Timeline.Element): nat
    requires 0 <= start <= finish < |path|
  {
    multiset(path[start + 1..finish + 1])[e]
  }

  /** How many times e occurs in s. */
  function Occurrences(s: seq<Timeline.Element>, e: Timeline.Element): nat {
    if s == [] then 0
    else Occurrences(s[..|s| - 1], e) + (if s[|s| - 1] == e then 1 else 0)
  }

  lemma {:induction false} OccurrencesCount(s: seq<Timeline.Element>, e: Timeline.Element)
    ensures Occurrences(s, e) == multiset(s)[e]
  {
    if s != [] {
      OccurrencesCount(s[..|s| - 1], e);
      assert s == s[..|s| - 1] + [s[|s| - 1]];
    }
  }

  /** Counting one more element of s. */
  lemma OccurrencesStep(s: seq<Timeline.Element>, k: int, e: Timeline.Element)
    requires 0 <= k < |s|
    ensures Occurrences(s[..k + 1], e) == Occurrences(s[..k], e) + (if s[k] == e then 1 else 0)
  {
    assert s[..k + 1][..k] == s[..k];
  }

  /** The crossed elements hold as many buttons and special patches as the
      crossed cells. */
  lemma CrossedCounts(path: seq<Timeline.Element>, start: int, finish: int, crossed: seq<Timeline.Element>)
    requires 0 <= start <= finish < |path|
    requires crossed == Timeline.NonEmpty(path[start + 1..finish + 1])
    ensures Occurrences(crossed, Timeline.Button) == CountIn(path, start, finish, Timeline.Button)
    ensures Occurrences(crossed, Timeline.SpecialPatch) == CountIn(path, start, finish, Timeline.SpecialPatch)
  {
    OccurrencesCount(crossed, Timeline.Button);
    OccurrencesCount(crossed, Timeline.SpecialPatch);
  }

  /** The quilt grew by `count` special patches and nothing else. */
  ghost predicate SpecialsAppended(placed: seq<Quilt.PatchPlaced>, before: seq<Quilt.PatchPlaced>, count: int) {
    0 <= count && |placed| == |before| + count && placed[..|before|] == before &&
    forall m :: |before| <= m < |placed| ==> placed[m].patch == SpecialPatch()
  }

  /** One more special patch on top of those already appended. */
  lemma SpecialsAppendedStep(placed: seq<Quilt.PatchPlaced>, middle: seq<Quilt.PatchPlaced>, before: seq<Quilt.PatchPlaced>, count: int)
    requires SpecialsAppended(middle, before, count) && SpecialsAppended(placed, middle, 1)
    ensures SpecialsAppended(placed, before, count + 1)
  {
    assert placed[..|before|] == placed[..|middle|][..|before|];
  }

  /** Special patches carry no button, so they leave the quilt's buttons as
      they were. */
  lemma {:induction false} SpecialsAddNoButtons(placed: seq<Quilt.PatchPlaced>, before: seq<Quilt.PatchPlaced>, count: int)
    requires SpecialsAppended(placed, before, count)
    ensures Quilt.ButtonsOf(placed) == Quilt.ButtonsOf(before)
    decreases |placed|
  {
    if |placed| > |before| {
      var n := |placed| - 1;
      assert placed[..n][..|before|] == before;
      SpecialsAddNoButtons(placed[..n], before, count - 1);
    } else {
      assert placed == placed[..|before|];
    }
  }

  /** processTimeBoardElement: a button pays the buttons of the quilt, a special
      patch has to be placed (as in the basic game: no flips), an empty cell
      does nothing. */
  method ProcessTimeBoardElement(player: Players.Player, console: Console, element: Timeline.Element)
    returns (o: Outcome)
    requires player.Valid()
    modifies player, console, player.quilt, player.quilt.board
    ensures player.Valid()
    ensures player.location == old(player.location) && player.finished == old(player.finished)
    ensures player.specialTile == old(player.specialTile) && player.specialPatches == old(player.specialPatches)
    ensures element != Timeline.SpecialPatch ==>
              o == Pass && player.quilt.placed == old(player.quilt.placed) && unchanged(player.quilt.board)
    ensures element == Timeline.Button ==> player.button == old(player.button) + Quilt.ButtonsOf(old(player.quilt.placed))
    ensures element != Timeline.Button ==> player.button == old(player.button)
    ensures element == Timeline.SpecialPatch && o == Pass ==>
              SpecialsAppended(player.quilt.placed, old(player.quilt.placed), 1) &&
              |player.quilt.EmptyCells()| == |old(player.quilt.EmptyCells())| - 1
    ensures o.Fail? ==> o.error.NoSuchElement? &&
                        player.quilt.placed == old(player.quilt.placed) && unchanged(player.quilt.board)
    ensures o == Pass && old(player.quilt.Coherent()) ==> player.quilt.Coherent()
    ensures old(player.quilt.HasFullSquare()) ==> player.quilt.HasFullSquare()
  {
    o := Pass;
    if element == Timeline.Button {
      var added := player.quilt.Buttons();
      o := player.UpdateButton(player.button + added);
    }
    if element == Timeline.SpecialPatch {
      StockPatches();
      ghost var before := player.quilt.placed;
      var q, a;
      ghost var tries;
      o, q, a, tries := PlacementSelection(player, console, SpecialPatch(), 0);
      if o == Pass {
        assert player.quilt.placed[..|before|] == before;
      }
    }
  }

  lemma MulStep(a: int, b: int)
    ensures (a + 1) * b == a * b + b
  {
  }

  /** The forEach of timeboardCrossingProcedure: each crossed element is
      processed in order; each button pays the buttons the quilt had before,
      since a special patch adds none. */
  method ProcessCrossed(player: Players.Player, console: Console, crossed: seq<Timeline.Element>) returns (o: Outcome)
    requires player.Valid()
    modifies player, console, player.quilt, player.quilt.board
    ensures player.Valid()
    ensures player.location == old(player.location) && player.finished == old(player.finished)
    ensures player.specialTile == old(player.specialTile) && player.specialPatches == old(player.specialPatches)
    ensures o.Fail? ==> o.error.NoSuchElement?
    ensures o == Pass ==>
              player.button == old(player.button) + Occurrences(crossed, Timeline.Button) * Quilt.ButtonsOf(old(player.quilt.placed)) &&
              SpecialsAppended(player.quilt.placed, old(player.quilt.placed), Occurrences(crossed, Timeline.SpecialPatch)) &&
              |player.quilt.EmptyCells()| == |old(player.quilt.EmptyCells())| - Occurrences(crossed, Timeline.SpecialPatch)
    ensures o == Pass && old(player.quilt.Coherent()) ==> player.quilt.Coherent()
    ensures old(player.quilt.HasFullSquare()) ==> player.quilt.HasFullSquare()
  {
    o := Pass;
    ghost var before := player.quilt.placed;
    ghost var rate := Quilt.ButtonsOf(before);
    ghost var empty := |player.quilt.EmptyCells()|;
    ghost var buttons, specials := 0, 0;
    var k := 0;
    while k < |crossed|
      invariant 0 <= k <= |crossed| && o == Pass
      invariant player.Valid()
      invariant player.location == old(player.location) && player.finished == old(player.finished)
      invariant player.specialTile == old(player.specialTile) && player.specialPatches == old(player.specialPatches)
      invariant buttons == Occurrences(crossed[..k], Timeline.Button)
      invariant specials == Occurrences(crossed[..k], Timeline.SpecialPatch)
      invariant player.button == old(player.button) + buttons * rate
      invariant SpecialsAppended(player.quilt.placed, before, specials)
      invariant |player.quilt.EmptyCells()| == empty - specials
      invariant old(player.quilt.Coherent()) ==> player.quilt.Coherent()
      invariant old(player.quilt.HasFullSquare()) ==> player.quilt.HasFullSquare()
    {
      SpecialsAddNoButtons(player.quilt.placed, before, specials);
      ghost var placed0 := player.quilt.placed;
      o := ProcessTimeBoardElement(player, console, crossed[k]);
      if o.Fail? {
        return;
      }
      OccurrencesStep(crossed, k, Timeline.Button);
      OccurrencesStep(crossed, k, Timeline.SpecialPatch);
      if crossed[k] == Timeline.Button {
        MulStep(buttons, rate);
        buttons := buttons + 1;
      }
      if crossed[k] == Timeline.SpecialPatch {
        SpecialsAppendedStep(player.quilt.placed, placed0, before, specials);
        specials := specials + 1;
      }
      k := k + 1;
    }
    assert crossed[..k] == crossed;
  }

  /** timeboardCrossingProcedure: the cells after the player's position, up to
      where the move ends, are crossed in order and each is processed; the
      special patches crossed leave the time board. */
  method TimeboardCrossingProcedure(player: Players.Player, timeboard: Timeline.TimeBoard, distance: int, console: Console)
    returns (o: Outcome)
    requires player.Valid() && timeboard.Valid()
    modifies player, console, player.quilt, player.quilt.board, timeboard.path
    ensures player.Valid()
    ensures player.location == old(player.location) && player.finished == old(player.finished)
    ensures player.specialTile == old(player.specialTile) && player.specialPatches == old(player.specialPatches)
    ensures distance <= 0 ==> o == Fail(IllegalArgument("distance <= 0"))
    ensures distance > 0 && !(0 <= old(player.location) < Timeline.Last) ==> o.Fail? && o.error.IllegalArgument?
    ensures distance > 0 && 0 <= old(player.location) < Timeline.Last && o.Fail? ==> o.error.NoSuchElement?
    ensures o.Fail? && o.error.IllegalArgument? ==>
              player.button == old(player.button) && player.quilt.placed == old(player.quilt.placed) &&
              unchanged(player.quilt.board) && timeboard.path[..] == old(timeboard.path[..])
    ensures o == Pass ==>
              distance > 0 && Timeline.CrossingRange(old(player.location), Players.Destination(old(player.location), distance)) &&
              var start, finish := old(player.location), Players.Destination(old(player.location), distance);
              timeboard.path[..] == Timeline.Consumed(old(timeboard.path[..]), start, finish) &&
              player.button == old(player.button) +
                CountIn(old(timeboard.path[..]), start, finish, Timeline.Button) * Quilt.ButtonsOf(old(player.quilt.placed)) &&
              SpecialsAppended(player.quilt.placed, old(player.quilt.placed),
                CountIn(old(timeboard.path[..]), start, finish, Timeline.SpecialPatch)) &&
              |player.quilt.EmptyCells()| == |old(player.quilt.EmptyCells())| -
                CountIn(old(timeboard.path[..]), start, finish, Timeline.SpecialPatch)
    ensures o == Pass && old(player.quilt.Coherent()) ==> player.quilt.Coherent()
    ensures old(player.quilt.HasFullSquare()) ==> player.quilt.HasFullSquare()
  {
    if distance <= 0 {
      return Fail(IllegalArgument("distance <= 0"));
    }
    var finishIndex := player.location + distance;
    if player.location + distance > Timeline.Size - 1 {
      finishIndex := Timeline.Size - 1;
    }
    assert finishIndex == Players.Destination(player.location, distance);
    ghost var path0 := timeboard.path[..];
    var start := player.location;
    var r := timeboard.ElementCrossed(start, finishIndex);
    if r.Err? {
      return Fail(r.error);
    }
    var crossed := r.value;
    assert Timeline.CrossingRange(start, finishIndex);
    assert crossed == Timeline.NonEmpty(path0[start + 1..finishIndex + 1]);
    CrossedCounts(path0, start, finishIndex, crossed);
    o := ProcessCrossed(player, console, crossed);
    if o.Fail? {
      return;
    }
    ghost var gained := CountIn(path0, old(player.location), finishIndex, Timeline.Button) * Quilt.ButtonsOf(old(player.quilt.placed));
    assert player.button == old(player.button) + gained;
    return Pass;
  }

  // ------------------------------------------------------------ a turn

  /** The buttons of a quilt grow by those of the patch placed last. */
  lemma ButtonsOfAppend(placed: seq<Quilt.PatchPlaced>, last: Quilt.PatchPlaced)
    ensures Quilt.ButtonsOf(placed + [last]) == Quilt.ButtonsOf(placed) + last.patch.buttons
  {
    assert (placed + [last])[..|placed|] == placed;
  }

  /** skipSelectionProcedure: the player crosses the cells up to just past the
      opponent, then jumps there (to the end when the opponent has finished)
      and earns one button per cell moved. */
  method SkipSelectionProcedure(player: Players.Player, opponent: Players.Player, timeboard: Timeline.TimeBoard, console: Console)
    returns (o: Outcome)
    requires player != opponent && player.Valid() && timeboard.Valid()
    modifies player, console, player.quilt, player.quilt.board, timeboard.path
    ensures player.Valid()
    ensures player.specialTile == old(player.specialTile) && player.specialPatches == old(player.specialPatches)
    ensures old(opponent.location) - old(player.location) + 1 <= 0 ==>
              o == Fail(IllegalArgument("distance <= 0")) && player.button == old(player.button) &&
              player.location == old(player.location) && player.quilt.placed == old(player.quilt.placed)
    ensures o == Pass ==>
              var start := old(player.location);
              var finish := Players.Destination(start, old(opponent.location) - start + 1);
              var tiles := if old(opponent.finished) then old(opponent.location) - start else old(opponent.location) - start + 1;
              Timeline.CrossingRange(start, finish) && start < Timeline.Last &&
              player.location == (if old(opponent.finished) then Timeline.Last else old(opponent.location) + 1) &&
              player.location > start && player.OnBoard() &&
              player.finished == (old(player.finished) || player.location == Timeline.Last) &&
              timeboard.path[..] == Timeline.Consumed(old(timeboard.path[..]), start, finish) &&
              player.button == old(player.button) + tiles +
                CountIn(old(timeboard.path[..]), start, finish, Timeline.Button) * Quilt.ButtonsOf(old(player.quilt.placed)) &&
              SpecialsAppended(player.quilt.placed, old(player.quilt.placed),
                CountIn(old(timeboard.path[..]), start, finish, Timeline.SpecialPatch))
    ensures o == Pass && old(player.quilt.Coherent()) ==> player.quilt.Coherent()
    ensures old(player.quilt.HasFullSquare()) ==> player.quilt.HasFullSquare()
  {
    o := TimeboardCrossingProcedure(player, timeboard, opponent.location - player.location + 1, console);
    if o.Fail? {
      return;
    }
    var tilesCrossed := player.GetTileCrossedSelectionSkip(opponent);
    o := player.SkipSelectionUpdateLocation(opponent);
    if o.Fail? {
      return;
    }
    o := player.UpdateButton(player.button + tilesCrossed);
    if o.Fail? {
      return;
    }
    if player.location == Timeline.Size - 1 {
      player.FinishPlayer();
    }
  }

  /** chosenPatchPlacementProcedure: take the patch from the circle, place it,
      pay its price, cross the cells its time covers, and move. */
  method ChosenPatchPlacementProcedure(player: Players.Player, console: Console, chosenPatchIndex: int,
                                       circle: Circle.PatchCircle, timeboard: Timeline.TimeBoard, kind: int)
    returns (o: Outcome)
    requires player.Valid() && timeboard.Valid() && circle.AllValid()
    modifies player, console, player.quilt, player.quilt.board, timeboard.path, circle
    ensures player.Valid() && circle.AllValid()
    ensures player.specialTile == old(player.specialTile) && player.specialPatches == old(player.specialPatches)
    ensures !(0 <= chosenPatchIndex <= 2 && chosenPatchIndex < |old(circle.patches)|) ==>
              o.Fail? && circle.patches == old(circle.patches) && player.button == old(player.button) &&
              player.location == old(player.location) && player.quilt.placed == old(player.quilt.placed)
    ensures 0 <= chosenPatchIndex <= 2 && chosenPatchIndex < |old(circle.patches)| &&
            !old(player.GraphicCanBuyPatch(circle.patches[chosenPatchIndex])) ==>
              o.Fail? && player.button == old(player.button) && player.location == old(player.location)
    ensures o == Pass ==>
              0 <= chosenPatchIndex <= 2 && chosenPatchIndex < |old(circle.patches)| &&
              circle.patches == Circle.AfterChoice(old(circle.patches), chosenPatchIndex)
    ensures o == Pass ==>
              var chosen := old(circle.patches)[chosenPatchIndex];
              var start := old(player.location);
              var finish := Players.Destination(start, chosen.time);
              chosen.price <= old(player.button) && chosen.time > 0 &&
              Timeline.CrossingRange(start, finish) &&
              player.location == finish && player.location > start && player.OnBoard() &&
              player.finished == (old(player.finished) || player.location == Timeline.Last) &&
              |player.quilt.placed| > |old(player.quilt.placed)| &&
              var bought := player.quilt.placed[|old(player.quilt.placed)|];
              bought.patch.buttons == chosen.buttons && bought.patch.price == chosen.price &&
              bought.patch.time == chosen.time && |TrueCells(bought.patch.form)| == |TrueCells(chosen.form)| &&
              (kind != 1 ==> bought.patch == chosen) &&
              SpecialsAppended(player.quilt.placed, old(player.quilt.placed) + [bought],
                CountIn(old(timeboard.path[..]), start, finish, Timeline.SpecialPatch)) &&
              Quilt.ButtonsOf(old(player.quilt.placed) + [bought]) == Quilt.ButtonsOf(old(player.quilt.placed)) + chosen.buttons &&
              player.button == old(player.button) - chosen.price +
                CountIn(old(timeboard.path[..]), start, finish, Timeline.Button) * Quilt.ButtonsOf(old(player.quilt.placed) + [bought]) &&
              |player.quilt.EmptyCells()| == |old(player.quilt.EmptyCells())| - |TrueCells(chosen.form)| -
                CountIn(old(timeboard.path[..]), start, finish, Timeline.SpecialPatch)
    ensures o == Pass && old(player.quilt.Coherent()) ==> player.quilt.Coherent()
    ensures old(player.quilt.HasFullSquare()) ==> player.quilt.HasFullSquare()
  {
    ghost var placed0 := player.quilt.placed;
    var taken := circle.ChoosePatch(chosenPatchIndex);
    if taken.Err? {
      return Fail(taken.error);
    }
    var chosen := taken.value;
    var q, a;
    ghost var tries;
    o, q, a, tries := PlacementSelection(player, console, chosen, kind);
    if o.Fail? {
      return;
    }
    ghost var bought := Quilt.PatchPlaced(q, a);
    ButtonsOfAppend(placed0, bought);
    o := PayAndAdvance(player, console, chosen, timeboard);
    if o.Fail? {
      return;
    }
    assert player.quilt.placed[|placed0|] == bought by {
      assert player.quilt.placed[..|placed0| + 1] == placed0 + [bought];
    }
  }

  /** The rest of chosenPatchPlacementProcedure once the patch is placed: pay
      its price, cross the cells its time covers, move. */
  method PayAndAdvance(player: Players.Player, console: Console, chosen: Patch, timeboard: Timeline.TimeBoard)
    returns (o: Outcome)
    requires player.Valid() && timeboard.Valid()
    modifies player, console, player.quilt, player.quilt.board, timeboard.path
    ensures player.Valid()
    ensures player.specialTile == old(player.specialTile) && player.specialPatches == old(player.specialPatches)
    ensures o == Pass ==>
              var start := old(player.location);
              var finish := Players.Destination(start, chosen.time);
              chosen.price <= old(player.button) && chosen.time > 0 &&
              Timeline.CrossingRange(start, finish) &&
              player.location == finish && player.location > start && player.OnBoard() &&
              player.finished == (old(player.finished) || player.location == Timeline.Last) &&
              SpecialsAppended(player.quilt.placed, old(player.quilt.placed),
                CountIn(old(timeboard.path[..]), start, finish, Timeline.SpecialPatch)) &&
              player.button == old(player.button) - chosen.price +
                CountIn(old(timeboard.path[..]), start, finish, Timeline.Button) * Quilt.ButtonsOf(old(player.quilt.placed)) &&
              |player.quilt.EmptyCells()| == |old(player.quilt.EmptyCells())| -
                CountIn(old(timeboard.path[..]), start, finish, Timeline.SpecialPatch)
    ensures !old(player.GraphicCanBuyPatch(chosen)) ==>
              o == Fail(IllegalArgument("Player cannot be in debt")) && player.button == old(player.button) &&
              player.location == old(player.location) && player.quilt.placed == old(player.quilt.placed)
    ensures o == Pass ==> old(player.GraphicCanBuyPatch(chosen))
    ensures o == Pass && old(player.quilt.Coherent()) ==> player.quilt.Coherent()
    ensures old(player.quilt.HasFullSquare()) ==> player.quilt.HasFullSquare()
  {
    o := player.UpdateButton(player.button - chosen.price);
    if o.Fail? {
      return;
    }
    o := TimeboardCrossingProcedure(player, timeboard, chosen.time, console);
    if o.Fail? {
      return;
    }
    o := player.MovePlayer(chosen);
  }

  /** A choice that choiceIsValid accepts, other than the skip, is a patch the
      player can pay for in graphicCanBuyPatch's sense. */
  lemma ValidChoiceIsAffordable(player: Players.Player, circle: Circle.PatchCircle, i: int)
    requires circle.ChoiceIsValid(i, player.button) == Ok(true) && i != 3
    ensures 0 <= i <= 2 && i < |circle.patches| && player.GraphicCanBuyPatch(circle.patches[i])
    ensures player.button > 0
  {
  }

  /** patchSelectionProcedure: lines are read until one is a valid choice: 3
      to skip, or the index among the first three of a patch the player can
      pay for. */
  method PatchSelectionProcedure(player: Players.Player, console: Console, circle: Circle.PatchCircle)
    returns (r: Result<int>, ghost used: nat)
    modifies console
    ensures console.keys == old(console.keys) && console.anchors == old(console.anchors)
    ensures r.Ok? ==>
              circle.ChoiceIsValid(r.value, player.button) == Ok(true) &&
              used < |old(console.lines)| && r.value == old(console.lines)[used] &&
              console.lines == old(console.lines)[used + 1..]
    ensures r.Ok? ==>
              r.value == 3 ||
              (0 <= r.value <= 2 && r.value < |circle.patches| && circle.patches[r.value].price <= player.button)
    ensures forall m :: 0 <= m < used && m < |old(console.lines)| ==>
              circle.ChoiceIsValid(old(console.lines)[m], player.button) == Ok(false)
    ensures r.Err? ==> r.error == NoSuchElement("No line found") || r.error == IllegalArgument("buttonCount cannot be negative")
    ensures |circle.patches| == 0 ==> r == Err(NoSuchElement("No line found")) && console.lines == []
    ensures player.button >= 0 && |circle.patches| > 0 && 3 in old(console.lines) ==> r.Ok?
  {
    used := 0;
    while true
      invariant used <= |old(console.lines)| && console.lines == old(console.lines)[used..]
      invariant console.keys == old(console.keys) && console.anchors == old(console.anchors)
      invariant forall m :: 0 <= m < used ==> circle.ChoiceIsValid(old(console.lines)[m], player.button) == Ok(false)
      invariant player.button >= 0 && |circle.patches| > 0 ==> 3 !in old(console.lines)[..used]
      decreases |console.lines|
    {
      var line := console.NextLine();
      if line.Err? {
        assert old(console.lines)[..used] == old(console.lines);
        return Err(line.error), used;
      }
      var valid := circle.ChoiceIsValid(line.value, player.button);
      if valid.Err? {
        return Err(valid.error), used;
      }
      if valid.value {
        return Ok(line.value), used;
      }
      assert old(console.lines)[used..][1..] == old(console.lines)[used + 1..];
      assert old(console.lines)[..used + 1] == old(console.lines)[..used] + [line.value];
      used := used + 1;
    }
  }

  /** action: one turn of the terminal game for `player`. The result is true
      when player 1 bought a patch and ended on the opponent's cell. */
  method Action(player: Players.Player, opponent: Players.Player, console: Console,
                circle: Circle.PatchCircle, timeboard: Timeline.TimeBoard, kind: int)
    returns (r: Result<bool>, ghost skipped: bool)
    requires player != opponent && player.Valid() && timeboard.Valid() && circle.AllValid()
    modifies player, console, player.quilt, player.quilt.board, timeboard.path, circle
    ensures player.Valid() && circle.AllValid()
    ensures player.specialTile == old(player.specialTile) && player.specialPatches == old(player.specialPatches)
    ensures !IsGameType(kind) ==>
              r == Err(IllegalArgument("game type invalid")) && player.button == old(player.button) &&
              player.location == old(player.location) && player.quilt.placed == old(player.quilt.placed) &&
              circle.patches == old(circle.patches) && console.lines == old(console.lines)
    ensures r.Ok? ==> IsGameType(kind) && player.location > old(player.location) && player.OnBoard()
    ensures r.Ok? ==> player.finished == (old(player.finished) || player.location == Timeline.Last)
    ensures r.Ok? && skipped ==>
              !r.value && circle.patches == old(circle.patches) &&
              player.location == (if old(opponent.finished) then Timeline.Last else old(opponent.location) + 1)
    ensures r.Ok? && !skipped ==>
              (r.value <==> player.id == 1 && opponent.location == player.location) &&
              |circle.patches| == |old(circle.patches)| - 1
    ensures r.Ok? && old(player.quilt.Coherent()) ==> player.quilt.Coherent()
    ensures old(player.quilt.HasFullSquare()) ==> player.quilt.HasFullSquare()
  {
    skipped := false;
    if kind > 1 || kind < 0 {
      return Err(IllegalArgument("game type invalid")), skipped;
    }
    var choice;
    ghost var used;
    choice, used := PatchSelectionProcedure(player, console, circle);
    if choice.Err? {
      return Err(choice.error), skipped;
    }
    if choice.value == 3 {
      skipped := true;
      var o := SkipSelectionProcedure(player, opponent, timeboard, console);
      if o.Fail? {
        return Err(o.error), skipped;
      }
      return Ok(false), skipped;
    }
    var o := ChosenPatchPlacementProcedure(player, console, choice.value, circle, timeboard, kind);
    if o.Fail? {
      return Err(o.error), skipped;
    }
    if player.id == 1 && opponent.location == player.location {
      return Ok(true), skipped;
    }
    return Ok(false), skipped;
  }
}
