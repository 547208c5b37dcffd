/** QuiltBoard.java and PatchPlaced.java: a player's 9x9 board of occupied
    cells and the list of patches sewn onto it. */
module Quilt {
  import opened Common
  import opened Patches

  /** QuiltBoard.SIZE */
  const Size := 9

  /** A patch together with the anchor (top-left corner) it was placed at. */
  datatype PatchPlaced = PatchPlaced(patch: Patch, anchor: Point)

  /** A board cell as (row, column), that is board[row][column] in Java. */
  type Cell = (int, int)

  /** The anchor keeps the whole sizeX-by-sizeY rectangle on the board. */
  predicate InBounds(p: Patch, a: Point) {
    a.x >= 0 && a.x + p.sizeX <= Size && a.y >= 0 && a.y + p.sizeY <= Size
  }

  /** Board cell (r, c) lies under a set cell of the patch's mask. */
  predicate CoversCell(p: Patch, a: Point, r: int, c: int) {
    var i := r - a.y;
    var j := c - a.x;
    0 <= i < p.sizeY && 0 <= j < p.sizeX && i < |p.form| && j < |p.form[i]| && p.form[i][j]
  }

  /** The board cells the patch would occupy. */
  ghost function Footprint(p: Patch, a: Point): set<Cell> {
    set r, c | 0 <= r < Size && 0 <= c < Size && CoversCell(p, a, r, c) :: (r, c)
  }

  /** The cells covered by a list of placed patches. */
  ghost function Covered(placed: seq<PatchPlaced>): set<Cell> {
    if placed == [] then {}
    else
      var last := placed[|placed| - 1];
      Covered(placed[..|placed| - 1]) + Footprint(last.patch, last.anchor)
  }

  /** One more placed patch covers its footprint on top of the others. */
  lemma CoveredSnoc(placed: seq<PatchPlaced>, x: PatchPlaced)
    ensures Covered(placed + [x]) == Covered(placed) + Footprint(x.patch, x.anchor)
  {
    assert (placed + [x])[..|placed|] == placed;
  }

  /** The buttons printed on a list of placed patches. */
  function ButtonsOf(placed: seq<PatchPlaced>): (n: int)
    ensures (forall k :: 0 <= k < |placed| ==> placed[k].patch.buttons >= 0) ==> n >= 0
  {
    if placed == [] then 0
    else ButtonsOf(placed[..|placed| - 1]) + placed[|placed| - 1].patch.buttons
  }

  /** Placing a patch inside the board occupies one board cell per set cell of
      its mask. */
  lemma {:induction false} FootprintSize(p: Patch, a: Point)
    requires MaskShaped(p.form, p.sizeX, p.sizeY) && InBounds(p, a)
    ensures |Footprint(p, a)| == |TrueCells(p.form)|
  {
    var f := (c: Cell) => (c.0 + a.y, c.1 + a.x);
    var g := (c: Cell) => (c.0 - a.y, c.1 - a.x);
    forall c | c in TrueCells(p.form)
      ensures f(c) in Footprint(p, a) && g(f(c)) == c
    {
      TrueCellsMember(p.form, c);
      assert CoversCell(p, a, c.0 + a.y, c.1 + a.x);
    }
    forall c | c in Footprint(p, a)
      ensures g(c) in TrueCells(p.form) && f(g(c)) == c
    {
      TrueCellsMember(p.form, g(c));
    }
    BijectionSameSize(TrueCells(p.form), Footprint(p, a), f, g);
  }

  /** Removing a footprint that lies on empty cells lowers the number of empty
      cells by the number of set cells of the mask. */
  lemma PlacementLowersEmpty(empty: set<Cell>, p: Patch, a: Point)
    requires MaskShaped(p.form, p.sizeX, p.sizeY) && InBounds(p, a)
    requires Footprint(p, a) <= empty
    ensures |empty - Footprint(p, a)| == |empty| - |TrueCells(p.form)|
  {
    FootprintSize(p, a);
    assert empty == (empty - Footprint(p, a)) + Footprint(p, a);
  }

  /** The empty cells of a 9x9 grid value. */
  ghost function EmptyOf(g: seq<seq<bool>>): set<Cell>
    requires |g| == Size && forall r :: 0 <= r < Size ==> |g[r]| == Size
  {
    set r, c | 0 <= r < Size && 0 <= c < Size && !g[r][c] :: (r, c)
  }

  /** The occupied cells of a 9x9 grid value. */
  ghost function OccupiedOf(g: seq<seq<bool>>): set<Cell>
    requires |g| == Size && forall r :: 0 <= r < Size ==> |g[r]| == Size
  {
    set r, c | 0 <= r < Size && 0 <= c < Size && g[r][c] :: (r, c)
  }

  /** Marking the cells of a patch that fits: the empty cells lose exactly its
      footprint, one cell per set cell of the mask. */
  lemma MarkingEffects(before: seq<seq<bool>>, after: seq<seq<bool>>, p: Patch, a: Point)
    requires |before| == Size && forall r :: 0 <= r < Size ==> |before[r]| == Size
    requires |after| == Size && forall r :: 0 <= r < Size ==> |after[r]| == Size
    requires MaskShaped(p.form, p.sizeX, p.sizeY) && InBounds(p, a)
    requires forall r, c :: 0 <= r < Size && 0 <= c < Size && CoversCell(p, a, r, c) ==> !before[r][c]
    requires forall r, c :: 0 <= r < Size && 0 <= c < Size ==> after[r][c] == (before[r][c] || CoversCell(p, a, r, c))
    ensures EmptyOf(after) == EmptyOf(before) - Footprint(p, a)
    ensures Footprint(p, a) <= EmptyOf(before)
    ensures |EmptyOf(after)| == |EmptyOf(before)| - |TrueCells(p.form)|
    ensures OccupiedOf(after) == OccupiedOf(before) + Footprint(p, a)
  {
    assert EmptyOf(after) == EmptyOf(before) - Footprint(p, a);
    assert OccupiedOf(after) == OccupiedOf(before) + Footprint(p, a);
    PlacementLowersEmpty(EmptyOf(before), p, a);
  }

  /** Row-major order: (r, c) comes strictly before (i, j). */
  predicate Before(r: int, c: int, i: int, j: int) {
    r < i || (r == i && c < j)
  }

  class QuiltBoard {
    /** boolean[9][9]: board[row, column] is true when a patch covers it. */
    const board: array2<bool>
    /** The placed patches, in the order they were placed. */
    var placed: seq<PatchPlaced>

    /** The board is 9x9. */
    predicate Sized() {
      board.Length0 == Size && board.Length1 == Size
    }

    /** A 9x9 board carrying well-formed patches. */
    predicate Valid()
      reads this
    {
      Sized() && forall k :: 0 <= k < |placed| ==> ValidPatch(placed[k].patch)
    }

    /** The occupied cells are exactly those the placed patches cover; every
        successful placement keeps this. */
    ghost predicate Coherent()
      reads this, board
      requires Sized()
    {
      OccupiedOf(Grid()) == Covered(placed)
    }

    /** The empty cells of the board. */
    ghost function EmptyCells(): set<Cell>
      reads board
      requires Sized()
    {
      EmptyOf(Grid())
    }

    /** The empty cells among those before (i, j) in row-major order. */
    ghost function EmptyBefore(i: int, j: int): set<Cell>
      reads board
      requires Sized()
    {
      set r, c | 0 <= r < Size && 0 <= c < Size && Before(r, c, i, j) && !board[r, c] :: (r, c)
    }

    /** canPlacePatch's condition: the rectangle is on the board and no set cell
        of the mask lies on an occupied cell. */
    predicate Fits(p: Patch, a: Point)
      reads board
      requires Sized()
    {
      InBounds(p, a) &&
      forall r, c :: 0 <= r < Size && 0 <= c < Size && CoversCell(p, a, r, c) ==> !board[r, c]
    }

    /** The 7x7 square whose top-left cell is board[y][x] is fully occupied. */
    predicate FullSquareAt(x: int, y: int)
      reads board
      requires Sized()
      requires 0 <= x <= 2 && 0 <= y <= 2
    {
      forall r, c :: y <= r < y + 7 && x <= c < x + 7 ==> board[r, c]
    }

    predicate HasFullSquare()
      reads board
      requires Sized()
    {
      exists x, y :: 0 <= x <= 2 && 0 <= y <= 2 && FullSquareAt(x, y)
    }

    /** A board whose cells only went from empty to occupied keeps every full
        7x7 square. */
    twostate lemma FullSquareKept()
      requires Sized()
      requires forall r, c :: 0 <= r < Size && 0 <= c < Size ==> (old(board[r, c]) ==> board[r, c])
      ensures old(HasFullSquare()) ==> HasFullSquare()
    {
      if old(HasFullSquare()) {
        var x, y :| 0 <= x <= 2 && 0 <= y <= 2 && old(FullSquareAt(x, y));
        assert FullSquareAt(x, y);
      }
    }

    /** The board's contents as a value. */
    ghost function Grid(): (g: seq<seq<bool>>)
      reads board
      requires Sized()
      ensures |g| == Size && forall r :: 0 <= r < Size ==> |g[r]| == Size
      ensures forall r, c :: 0 <= r < Size && 0 <= c < Size ==> g[r][c] == board[r, c]
    {
      seq(Size, r requires 0 <= r < Size reads board => seq(Size, c requires 0 <= c < Size reads board => board[r, c]))
    }


    /** A fitting patch covers only empty cells. */
    lemma FitsOnEmpty(p: Patch, a: Point)
      requires Sized() && Fits(p, a)
      ensures Footprint(p, a) <= EmptyCells()
    {
    }

    /** A new board: every cell empty, nothing placed. */
    constructor ()
      ensures Valid() && fresh(board) && placed == []
      ensures forall r, c :: 0 <= r < Size && 0 <= c < Size ==> !board[r, c]
      ensures Coherent()
    {
      board := new bool[Size, Size];
      placed := [];
      new;
      var i := 0;
      while i < Size
        invariant 0 <= i <= Size
        invariant placed == []
        invariant forall r, c :: 0 <= r < i && 0 <= c < Size ==> !board[r, c]
      {
        var j := 0;
        while j < Size
          invariant 0 <= j <= Size
          invariant placed == []
          invariant forall r, c :: 0 <= r < Size && 0 <= c < Size && Before(r, c, i, j) ==> !board[r, c]
        {
          board[i, j] := false;
          j := j + 1;
        }
        i := i + 1;
      }
      assert OccupiedOf(Grid()) == {};
    }

    /** canPlacePatch: true iff the patch fits at the anchor; changes nothing. */
    method CanPlacePatch(p: Patch, a: Point) returns (b: bool)
      requires Valid() && ValidPatch(p)
      ensures b == Fits(p, a)
      ensures b <==> (InBounds(p, a) &&
                      forall i, j :: 0 <= i < p.sizeY && 0 <= j < p.sizeX ==> !(p.form[i][j] && board[a.y + i, a.x + j]))
    {
      if a.x < 0 || a.x + p.sizeX > Size {
        return false;
      }
      if a.y < 0 || a.y + p.sizeY > Size {
        return false;
      }
      var i := 0;
      while i < p.sizeY
        invariant 0 <= i <= p.sizeY
        invariant forall r, c :: 0 <= r < Size && 0 <= c < Size && CoversCell(p, a, r, c) && r - a.y < i ==> !board[r, c]
      {
        var j := 0;
        assert |p.form[i]| == p.sizeX;
        while j < p.sizeX
          invariant 0 <= j <= p.sizeX
          invariant forall r, c :: 0 <= r < Size && 0 <= c < Size && CoversCell(p, a, r, c) && Before(r - a.y, c - a.x, i, j) ==> !board[r, c]
        {
          if p.form[i][j] && board[a.y + i, a.x + j] {
            assert CoversCell(p, a, a.y + i, a.x + j);
            return false;
          }
          j := j + 1;
        }
        i := i + 1;
      }
      FitsInMaskTerms(p, a);
      return true;
    }

    /** Fits, restated over the mask's own indices as the Java loop reads it. */
    lemma FitsInMaskTerms(p: Patch, a: Point)
      requires Sized() && MaskShaped(p.form, p.sizeX, p.sizeY)
      ensures Fits(p, a) <==> (InBounds(p, a) &&
                forall i, j :: 0 <= i < p.sizeY && 0 <= j < p.sizeX ==> !(p.form[i][j] && board[a.y + i, a.x + j]))
    {
      if InBounds(p, a) {
        if !Fits(p, a) {
          var r, c :| 0 <= r < Size && 0 <= c < Size && CoversCell(p, a, r, c) && board[r, c];
          assert p.form[r - a.y][c - a.x] && board[a.y + (r - a.y), a.x + (c - a.x)];
        } else {
          forall i, j | 0 <= i < p.sizeY && 0 <= j < p.sizeX
            ensures !(p.form[i][j] && board[a.y + i, a.x + j])
          {
            assert p.form[i][j] ==> CoversCell(p, a, a.y + i, a.x + j);
          }
        }
      }
    }

    /** placePatch: checks the bounds, marks the mask's cells and records the
        placement. */
    method PlacePatch(p: Patch, a: Point) returns (o: Outcome)
      requires Valid() && ValidPatch(p)
      modifies this, board
      ensures Valid()
      ensures !InBounds(p, a) ==> o == Fail(IllegalArgument("Placed patch out of bound")) &&
                                  placed == old(placed) && unchanged(board)
      ensures InBounds(p, a) && !old(Fits(p, a)) ==>
                o == Fail(IllegalArgument("Placing a patch at an already occupied position")) &&
                placed == old(placed)
      ensures o.Fail? ==> forall r, c :: 0 <= r < Size && 0 <= c < Size ==>
                (old(board[r, c]) ==> board[r, c]) && (board[r, c] ==> old(board[r, c]) || CoversCell(p, a, r, c))
      ensures old(Fits(p, a)) ==> o == Pass
      ensures o == Pass ==>
                old(Fits(p, a)) &&
                placed == old(placed) + [PatchPlaced(p, a)] &&
                (forall r, c :: 0 <= r < Size && 0 <= c < Size ==>
                   board[r, c] == (old(board[r, c]) || CoversCell(p, a, r, c))) &&
                EmptyCells() == old(EmptyCells()) - Footprint(p, a) &&
                Footprint(p, a) <= old(EmptyCells()) &&
                |EmptyCells()| == |old(EmptyCells())| - |TrueCells(p.form)|
      ensures o == Pass && old(Coherent()) ==> Coherent()
      ensures old(HasFullSquare()) ==> HasFullSquare()
    {
      ghost var grid0 := Grid();
      if a.x < 0 || a.x + p.sizeX > Size {
        return Fail(IllegalArgument("Placed patch out of bound"));
      }
      if a.y < 0 || a.y + p.sizeY > Size {
        return Fail(IllegalArgument("Placed patch out of bound"));
      }
      o := MarkCells(p, a);
      FullSquareKept();
      if o.Fail? {
        return;
      }
      MarkingEffects(grid0, Grid(), p, a);
      RecordPlacement(p, a);
    }

    /** The last statement of placePatch: the placement joins the list. */
    method RecordPlacement(p: Patch, a: Point)
      requires Valid() && ValidPatch(p)
      modifies this
      ensures placed == old(placed) + [PatchPlaced(p, a)]
      ensures Valid()
      ensures Covered(placed) == Covered(old(placed)) + Footprint(p, a)
    {
      CoveredSnoc(placed, PatchPlaced(p, a));
      placed := placed + [PatchPlaced(p, a)];
    }

    /** The marking loop of placePatch: scans the mask row by row, marking each
        set cell; an occupied cell under the mask stops it with an exception,
        leaving the cells already marked. */
    method MarkCells(p: Patch, a: Point) returns (o: Outcome)
      requires Sized() && ValidPatch(p) && InBounds(p, a)
      modifies board
      ensures !old(Fits(p, a)) ==> o == Fail(IllegalArgument("Placing a patch at an already occupied position"))
      ensures old(Fits(p, a)) ==> o == Pass
      ensures o.Fail? ==> forall r, c :: 0 <= r < Size && 0 <= c < Size ==>
                (old(board[r, c]) ==> board[r, c]) && (board[r, c] ==> old(board[r, c]) || CoversCell(p, a, r, c))
      ensures o == Pass ==> forall r, c :: 0 <= r < Size && 0 <= c < Size ==>
                board[r, c] == (old(board[r, c]) || CoversCell(p, a, r, c))
    {
      var i := 0;
      while i < p.sizeY
        invariant 0 <= i <= p.sizeY
        invariant forall r, c :: 0 <= r < Size && 0 <= c < Size && CoversCell(p, a, r, c) && r - a.y < i ==> !old(board[r, c])
        invariant forall r, c :: 0 <= r < Size && 0 <= c < Size ==>
                    board[r, c] == (old(board[r, c]) || (CoversCell(p, a, r, c) && r - a.y < i))
      {
        var j := 0;
        assert |p.form[i]| == p.sizeX;
        while j < p.sizeX
          invariant 0 <= j <= p.sizeX
          invariant forall r, c :: 0 <= r < Size && 0 <= c < Size && CoversCell(p, a, r, c) && Before(r - a.y, c - a.x, i, j) ==> !old(board[r, c])
          invariant forall r, c :: 0 <= r < Size && 0 <= c < Size ==>
                      board[r, c] == (old(board[r, c]) || (CoversCell(p, a, r, c) && Before(r - a.y, c - a.x, i, j)))
        {
          if p.form[i][j] && board[a.y + i, a.x + j] {
            assert CoversCell(p, a, a.y + i, a.x + j) && old(board[a.y + i, a.x + j]);
            return Fail(IllegalArgument("Placing a patch at an already occupied position"));
          }
          if p.form[i][j] {
            board[a.y + i, a.x + j] := true;
          }
          j := j + 1;
        }
        i := i + 1;
      }
      return Pass;
    }

    /** buttons(): the buttons on all placed patches. */
    method Buttons() returns (n: int)
      ensures n == ButtonsOf(placed)
    {
      n := 0;
      var k := 0;
      while k < |placed|
        invariant 0 <= k <= |placed|
        invariant n == ButtonsOf(placed[..k])
      {
        assert placed[..k + 1][..k] == placed[..k];
        n := n + placed[k].patch.buttons;
        k := k + 1;
      }
      assert placed[..|placed|] == placed;
    }

    /** emptySquare(): the number of empty cells, between 0 and 81, and 81 on a
        board where nothing is occupied. */
    method EmptySquare() returns (n: int)
      requires Valid()
      ensures n == |EmptyCells()|
      ensures 0 <= n <= Size * Size
      ensures (forall r, c :: 0 <= r < Size && 0 <= c < Size ==> !board[r, c]) ==> n == Size * Size
      ensures (forall r, c :: 0 <= r < Size && 0 <= c < Size ==> board[r, c]) ==> n == 0
    {
      ghost var none := forall r, c :: 0 <= r < Size && 0 <= c < Size ==> !board[r, c];
      n := 0;
      var i := 0;
      while i < Size
        invariant 0 <= i <= Size
        invariant n == |EmptyBefore(i, 0)|
        invariant 0 <= n <= Size * i
        invariant none ==> n == Size * i
      {
        var j := 0;
        while j < Size
          invariant 0 <= j <= Size
          invariant n == |EmptyBefore(i, j)|
          invariant 0 <= n <= Size * i + j
          invariant none ==> n == Size * i + j
        {
          EmptyBeforeStep(i, j);
          if board[i, j] == false {
            n := n + 1;
          }
          j := j + 1;
        }
        EmptyBeforeNextRow(i);
        i := i + 1;
      }
      EmptyBeforeAll();
    }

    /** Counting one more cell in row-major order. */
    lemma EmptyBeforeStep(i: int, j: int)
      requires Sized() && 0 <= i < Size && 0 <= j < Size
      ensures |EmptyBefore(i, j + 1)| == |EmptyBefore(i, j)| + (if board[i, j] then 0 else 1)
    {
      assert (i, j) !in EmptyBefore(i, j);
      if board[i, j] {
        assert EmptyBefore(i, j + 1) == EmptyBefore(i, j);
      } else {
        assert EmptyBefore(i, j + 1) == EmptyBefore(i, j) + {(i, j)};
      }
    }

    /** The end of a row is the start of the next one. */
    lemma EmptyBeforeNextRow(i: int)
      requires Sized() && 0 <= i < Size
      ensures EmptyBefore(i + 1, 0) == EmptyBefore(i, Size)
    {
    }

    /** Past the last row every empty cell has been counted; with every cell
        occupied there are none. */
    lemma EmptyBeforeAll()
      requires Sized()
      ensures EmptyBefore(Size, 0) == EmptyCells()
      ensures (forall r, c :: 0 <= r < Size && 0 <= c < Size ==> board[r, c]) ==> EmptyCells() == {}
    {
      assert EmptyBefore(Size, 0) == EmptyCells();
      if forall r, c :: 0 <= r < Size && 0 <= c < Size ==> board[r, c] {
        assert EmptyCells() == {};
      }
    }

    /** isSevenBySevenSquare: whether the 7x7 square at board[y][x] is full;
        x and y must lie in 0..2 (both failures carry the same message). */
    method IsSevenBySevenSquare(x: int, y: int) returns (r: Result<bool>)
      requires Valid()
      ensures !(0 <= x <= 2) ==> r == Err(IllegalArgument("x out of bounds for 7x7 square"))
      ensures 0 <= x <= 2 && !(0 <= y <= 2) ==> r == Err(IllegalArgument("x out of bounds for 7x7 square"))
      ensures 0 <= x <= 2 && 0 <= y <= 2 ==> r == Ok(FullSquareAt(x, y))
    {
      if x < 0 || x > 2 {
        return Err(IllegalArgument("x out of bounds for 7x7 square"));
      }
      if y < 0 || y > 2 {
        return Err(IllegalArgument("x out of bounds for 7x7 square"));
      }
      var i := 0;
      while i < 7
        invariant 0 <= i <= 7
        invariant forall r, c :: y <= r < y + i && x <= c < x + 7 ==> board[r, c]
      {
        var j := 0;
        while j < 7
          invariant 0 <= j <= 7
          invariant forall r, c :: y <= r < y + 7 && x <= c < x + 7 && Before(r - y, c - x, i, j) ==> board[r, c]
        {
          if board[y + i, x + j] == false {
            return Ok(false);
          }
          j := j + 1;
        }
        i := i + 1;
      }
      return Ok(true);
    }

    /** hasSevenBySevenSquare: some 7x7 square of the board is full. */
    method HasSevenBySevenSquare() returns (b: bool)
      requires Valid()
      ensures b == HasFullSquare()
    {
      var i := 0;
      while i < 3
        invariant 0 <= i <= 3
        invariant forall x, y :: 0 <= x < i && 0 <= y <= 2 ==> !FullSquareAt(x, y)
      {
        var j := 0;
        while j < 3
          invariant 0 <= j <= 3
          invariant forall x, y :: 0 <= x <= 2 && 0 <= y <= 2 && Before(x, y, i, j) ==> !FullSquareAt(x, y)
        {
          var full := IsSevenBySevenSquare(i, j);
          if full.value {
            return true;
          }
          j := j + 1;
        }
        i := i + 1;
      }
      return false;
    }
  }
}
