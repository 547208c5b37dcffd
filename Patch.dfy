/** Patch.java: an immutable patch (buttons, price, time, a boolean mask of
    sizeY rows by sizeX columns, a colour) and its four shape transforms. */
module Patches {
  import opened Common

  /** java.awt.Color, carried as an opaque RGB triple. */
  datatype Color = Rgb(red: int, green: int, blue: int)

  /** java.awt.Color.ORANGE, used by the first basic cube. */
  const Orange := Rgb(255, 200, 0)
  /** The brown of the special patch. */
  const Brown := Rgb(102, 51, 0)
  /** The gold of the second basic cube. */
  const Gold := Rgb(255, 204, 51)

  /** A boolean[][] shape: a sequence of rows. */
  type Mask = seq<seq<bool>>

  /** The mask has `rows` rows of `cols` cells each. */
  predicate MaskShaped(m: Mask, cols: int, rows: int) {
    |m| == rows && forall i :: 0 <= i < |m| ==> |m[i]| == cols
  }

  datatype Patch = Patch(buttons: int, price: int, time: int, form: Mask, sizeX: int, sizeY: int, color: Color)

  /** What the record's compact constructor accepts. */
  predicate Accepted(buttons: int, price: int, time: int, sizeX: int, sizeY: int) {
    sizeX > 0 && sizeY > 0 && time >= 0 && price >= 0 && buttons >= 0
  }

  /** A patch that passed the constructor and whose mask really is sizeY rows by
      sizeX columns, which every array access of the Java code relies on. */
  predicate ValidPatch(p: Patch) {
    Accepted(p.buttons, p.price, p.time, p.sizeX, p.sizeY) && MaskShaped(p.form, p.sizeX, p.sizeY)
  }

  /** The record constructor: the checks run in source order, the first failing
      one decides the message; the mask's dimensions are not checked. */
  function NewPatch(buttons: int, price: int, time: int, form: Mask, sizeX: int, sizeY: int, color: Color): (r: Result<Patch>)
    ensures r.Ok? <==> Accepted(buttons, price, time, sizeX, sizeY)
    ensures r.Ok? ==> r.value == Patch(buttons, price, time, form, sizeX, sizeY, color)
    ensures r.Ok? && MaskShaped(form, sizeX, sizeY) ==> ValidPatch(r.value)
    ensures r.Err? ==> r.error.IllegalArgument?
    ensures sizeX <= 0 ==> r == Err(IllegalArgument("sizeX <= 0"))
    ensures sizeX > 0 && sizeY <= 0 ==> r == Err(IllegalArgument("sizeY <= 0"))
    ensures sizeX > 0 && sizeY > 0 && time < 0 ==> r == Err(IllegalArgument("time < 0"))
    ensures sizeX > 0 && sizeY > 0 && time >= 0 && price < 0 ==> r == Err(IllegalArgument("price < 0"))
  {
    if sizeX <= 0 then Err(IllegalArgument("sizeX <= 0"))
    else if sizeY <= 0 then Err(IllegalArgument("sizeY <= 0"))
    else if time < 0 then Err(IllegalArgument("time < 0"))
    else if price < 0 then Err(IllegalArgument("price < 0"))
    else if buttons < 0 then Err(IllegalArgument("button < 0"))
    else Ok(Patch(buttons, price, time, form, sizeX, sizeY, color))
  }

  /** The cells of a mask that are set, as (row, column) pairs. */
  ghost function TrueCells(m: Mask): set<(int, int)> {
    set i, j | 0 <= i < |m| && 0 <= j < |m[i]| && m[i][j] :: (i, j)
  }

  lemma TrueCellsMember(m: Mask, c: (int, int))
    ensures c in TrueCells(m) <==> 0 <= c.0 < |m| && 0 <= c.1 < |m[c.0]| && m[c.0][c.1]
  {
    if 0 <= c.0 < |m| && 0 <= c.1 < |m[c.0]| && m[c.0][c.1] {
      assert c == (c.0, c.1);
    }
  }

  /** Two masks of the same shape with the same cells are equal. */
  lemma SameMask(a: Mask, b: Mask, cols: int, rows: int)
    requires MaskShaped(a, cols, rows) && MaskShaped(b, cols, rows)
    requires forall i, j :: 0 <= i < rows && 0 <= j < cols ==> a[i][j] == b[i][j]
    ensures a == b
  {
    assert forall i :: 0 <= i < rows ==> a[i] == b[i];
  }

  // ---------------------------------------------------------------- flip

  predicate IsTransformKind(kind: int) { kind == 0 || kind == 1 }

  /** The array flipArray builds: sizeX rows of sizeY cells; kind 0 turns the
      mask one way, kind 1 the other. */
  function FlipForm(form: Mask, sizeX: int, sizeY: int, kind: int): (r: Mask)
    requires IsTransformKind(kind) && sizeX >= 0 && sizeY >= 0 && MaskShaped(form, sizeX, sizeY)
    ensures MaskShaped(r, sizeY, sizeX)
  {
    seq(sizeX, i requires 0 <= i < sizeX =>
      seq(sizeY, j requires 0 <= j < sizeY =>
        if kind == 0 then form[sizeY - 1 - j][i] else form[j][sizeX - 1 - i]))
  }

  /** flipArray: fills a fresh sizeX-by-sizeY array cell by cell. */
  method FlipArray(form: Mask, sizeX: int, sizeY: int, kind: int) returns (r: Result<Mask>)
    requires sizeX > 0 && sizeY > 0 && MaskShaped(form, sizeX, sizeY)
    ensures !IsTransformKind(kind) ==> r == Err(IllegalArgument("Unknown flip type"))
    ensures IsTransformKind(kind) ==> r == Ok(FlipForm(form, sizeX, sizeY, kind))
  {
    if !IsTransformKind(kind) {
      return Err(IllegalArgument("Unknown flip type"));
    }
    ghost var target := FlipForm(form, sizeX, sizeY, kind);
    var board: Mask := [];
    var i := 0;
    while i < sizeX
      invariant 0 <= i <= sizeX
      invariant board == target[..i]
    {
      var row: seq<bool> := [];
      var j := 0;
      while j < sizeY
        invariant 0 <= j <= sizeY
        invariant row == target[i][..j]
      {
        row := row + [if kind == 0 then form[sizeY - 1 - j][i] else form[j][sizeX - i - 1]];
        j := j + 1;
      }
      assert row == target[i];
      assert target[..i + 1] == target[..i] + [target[i]];
      board := board + [row];
      i := i + 1;
    }
    assert target[..sizeX] == target;
    return Ok(board);
  }

  /** flip: a new patch with the flipped mask and the two sizes exchanged. */
  function Flip(p: Patch, kind: int): (r: Result<Patch>)
    requires ValidPatch(p)
    ensures !IsTransformKind(kind) ==> r == Err(IllegalArgument("Unknown flip type"))
    ensures IsTransformKind(kind) ==> r.Ok? && ValidPatch(r.value)
    ensures r.Ok? ==> r.value.sizeX == p.sizeY && r.value.sizeY == p.sizeX
    ensures r.Ok? ==> (r.value.buttons == p.buttons && r.value.price == p.price &&
                       r.value.time == p.time && r.value.color == p.color)
    ensures r.Ok? ==> forall i, j :: 0 <= i < p.sizeX && 0 <= j < p.sizeY ==>
              r.value.form[i][j] == (if kind == 0 then p.form[p.sizeY - 1 - j][i] else p.form[j][p.sizeX - 1 - i])
  {
    if !IsTransformKind(kind) then Err(IllegalArgument("Unknown flip type"))
    else Ok(Patch(p.buttons, p.price, p.time, FlipForm(p.form, p.sizeX, p.sizeY, kind), p.sizeY, p.sizeX, p.color))
  }

  /** Flipping one way and then the other gives back the original patch. */
  lemma {:induction false} FlipThenFlipBack(p: Patch, kind: int)
    requires ValidPatch(p) && IsTransformKind(kind)
    ensures Flip(p, kind).Ok? && Flip(Flip(p, kind).value, 1 - kind) == Ok(p)
  {
    FlipFormBack(p.form, p.sizeX, p.sizeY, kind);
  }

  /** The mask part of FlipThenFlipBack. */
  lemma FlipFormBack(form: Mask, X: int, Y: int, kind: int)
    requires IsTransformKind(kind) && X > 0 && Y > 0 && MaskShaped(form, X, Y)
    ensures FlipForm(FlipForm(form, X, Y, kind), Y, X, 1 - kind) == form
  {
    var q := FlipForm(form, X, Y, kind);
    var s := FlipForm(q, Y, X, 1 - kind);
    forall i, j | 0 <= i < Y && 0 <= j < X
      ensures s[i][j] == form[i][j]
    {
      if kind == 0 {
        assert s[i][j] == q[j][Y - 1 - i];
      } else {
        assert s[i][j] == q[X - 1 - j][i];
      }
    }
    SameMask(s, form, X, Y);
  }

  /** A flip keeps the number of set cells: each cell formula is a bijection. */
  lemma {:induction false} FlipKeepsCells(p: Patch, kind: int)
    requires ValidPatch(p) && IsTransformKind(kind)
    ensures |TrueCells(Flip(p, kind).value.form)| == |TrueCells(p.form)|
  {
    if kind == 0 {
      FlipLeftKeepsCells(p.form, p.sizeX, p.sizeY);
    } else {
      FlipRightKeepsCells(p.form, p.sizeX, p.sizeY);
    }
  }

  lemma {:induction false} FlipLeftKeepsCells(form: Mask, X: int, Y: int)
    requires X > 0 && Y > 0 && MaskShaped(form, X, Y)
    ensures |TrueCells(FlipForm(form, X, Y, 0))| == |TrueCells(form)|
  {
    var q := FlipForm(form, X, Y, 0);
    var f := (c: (int, int)) => (Y - 1 - c.1, c.0);
    var g := (c: (int, int)) => (c.1, Y - 1 - c.0);
    forall c | c in TrueCells(q) ensures f(c) in TrueCells(form) && g(f(c)) == c {
      TrueCellsMember(q, c);
      assert q[c.0][c.1] == form[Y - 1 - c.1][c.0];
      TrueCellsMember(form, f(c));
    }
    forall c | c in TrueCells(form) ensures g(c) in TrueCells(q) && f(g(c)) == c {
      TrueCellsMember(form, c);
      assert q[c.1][Y - 1 - c.0] == form[c.0][c.1];
      TrueCellsMember(q, g(c));
    }
    BijectionSameSize(TrueCells(q), TrueCells(form), f, g);
  }

  lemma {:induction false} FlipRightKeepsCells(form: Mask, X: int, Y: int)
    requires X > 0 && Y > 0 && MaskShaped(form, X, Y)
    ensures |TrueCells(FlipForm(form, X, Y, 1))| == |TrueCells(form)|
  {
    var q := FlipForm(form, X, Y, 1);
    var f := (c: (int, int)) => (c.1, X - 1 - c.0);
    var g := (c: (int, int)) => (X - 1 - c.1, c.0);
    forall c | c in TrueCells(q) ensures f(c) in TrueCells(form) && g(f(c)) == c {
      TrueCellsMember(q, c);
      assert q[c.0][c.1] == form[c.1][X - 1 - c.0];
      TrueCellsMember(form, f(c));
    }
    forall c | c in TrueCells(form) ensures g(c) in TrueCells(q) && f(g(c)) == c {
      TrueCellsMember(form, c);
      assert q[X - 1 - c.1][c.0] == form[c.0][c.1];
      TrueCellsMember(q, g(c));
    }
    BijectionSameSize(TrueCells(q), TrueCells(form), f, g);
  }

  // ---------------------------------------------------------------- mirror

  /** The array mirrorArray builds: kind 0 reverses every row, kind 1 reverses
      the order of the rows. */
  function MirrorForm(form: Mask, sizeX: int, sizeY: int, kind: int): (r: Mask)
    requires IsTransformKind(kind) && sizeX >= 0 && sizeY >= 0 && MaskShaped(form, sizeX, sizeY)
    ensures MaskShaped(r, sizeX, sizeY)
  {
    seq(sizeY, i requires 0 <= i < sizeY =>
      seq(sizeX, j requires 0 <= j < sizeX =>
        if kind == 0 then form[i][sizeX - 1 - j] else form[sizeY - 1 - i][j]))
  }

  /** mirrorArray: fills a fresh sizeY-by-sizeX array cell by cell. */
  method MirrorArray(form: Mask, sizeX: int, sizeY: int, kind: int) returns (r: Result<Mask>)
    requires sizeX > 0 && sizeY > 0 && MaskShaped(form, sizeX, sizeY)
    ensures !IsTransformKind(kind) ==> r == Err(IllegalArgument("Unknown mirror type"))
    ensures IsTransformKind(kind) ==> r == Ok(MirrorForm(form, sizeX, sizeY, kind))
  {
    if !IsTransformKind(kind) {
      return Err(IllegalArgument("Unknown mirror type"));
    }
    ghost var target := MirrorForm(form, sizeX, sizeY, kind);
    var board: Mask := [];
    var i := 0;
    while i < sizeY
      invariant 0 <= i <= sizeY
      invariant board == target[..i]
    {
      var row: seq<bool> := [];
      var j := 0;
      while j < sizeX
        invariant 0 <= j <= sizeX
        invariant row == target[i][..j]
      {
        row := row + [if kind == 0 then form[i][sizeX - 1 - j] else form[sizeY - 1 - i][j]];
        j := j + 1;
      }
      assert row == target[i];
      assert target[..i + 1] == target[..i] + [target[i]];
      board := board + [row];
      i := i + 1;
    }
    assert target[..sizeY] == target;
    return Ok(board);
  }

  /** mirror: a new patch with the mirrored mask and the same sizes. */
  function Mirror(p: Patch, kind: int): (r: Result<Patch>)
    requires ValidPatch(p)
    ensures !IsTransformKind(kind) ==> r == Err(IllegalArgument("Unknown mirror type"))
    ensures IsTransformKind(kind) ==> r.Ok? && ValidPatch(r.value)
    ensures r.Ok? ==> r.value.sizeX == p.sizeX && r.value.sizeY == p.sizeY
    ensures r.Ok? ==> (r.value.buttons == p.buttons && r.value.price == p.price &&
                       r.value.time == p.time && r.value.color == p.color)
    ensures r.Ok? ==> forall i, j :: 0 <= i < p.sizeY && 0 <= j < p.sizeX ==>
              r.value.form[i][j] == (if kind == 0 then p.form[i][p.sizeX - 1 - j] else p.form[p.sizeY - 1 - i][j])
  {
    if !IsTransformKind(kind) then Err(IllegalArgument("Unknown mirror type"))
    else Ok(Patch(p.buttons, p.price, p.time, MirrorForm(p.form, p.sizeX, p.sizeY, kind), p.sizeX, p.sizeY, p.color))
  }

  /** Applying the same mirror twice is the identity. */
  lemma {:induction false} MirrorTwice(p: Patch, kind: int)
    requires ValidPatch(p) && IsTransformKind(kind)
    ensures Mirror(p, kind).Ok? && Mirror(Mirror(p, kind).value, kind) == Ok(p)
  {
    var s := Mirror(Mirror(p, kind).value, kind).value;
    SameMask(s.form, p.form, p.sizeX, p.sizeY);
  }

  /** A mirror keeps the number of set cells. */
  lemma {:induction false} MirrorKeepsCells(p: Patch, kind: int)
    requires ValidPatch(p) && IsTransformKind(kind)
    ensures |TrueCells(Mirror(p, kind).value.form)| == |TrueCells(p.form)|
  {
    var q := Mirror(p, kind).value.form;
    var X, Y := p.sizeX, p.sizeY;
    var f;
    if kind == 0 {
      f := (c: (int, int)) => (c.0, X - 1 - c.1);
    } else {
      f := (c: (int, int)) => (Y - 1 - c.0, c.1);
    }
    forall c | c in TrueCells(q) ensures f(c) in TrueCells(p.form) && f(f(c)) == c {
      TrueCellsMember(q, c);
      TrueCellsMember(p.form, f(c));
    }
    forall c | c in TrueCells(p.form) ensures f(c) in TrueCells(q) && f(f(c)) == c {
      TrueCellsMember(p.form, c);
      TrueCellsMember(q, f(c));
    }
    BijectionSameSize(TrueCells(q), TrueCells(p.form), f, f);
  }

  // ---------------------------------------------------------------- cubes

  /** A size-by-size mask with every cell set. */
  function SquareMask(size: nat): (m: Mask)
    ensures MaskShaped(m, size, size)
  {
    seq(size, i => seq(size, j => true))
  }

  /** cube: fills a fresh size-by-size array with true and builds the patch. */
  method Cube(size: int, buttons: int, price: int, time: int, color: Color) returns (r: Result<Patch>)
    requires size >= 0
    ensures r == NewPatch(buttons, price, time, SquareMask(size), size, size, color)
    ensures r.Ok? ==> ValidPatch(r.value) && forall i, j :: 0 <= i < size && 0 <= j < size ==> r.value.form[i][j]
  {
    var form: Mask := [];
    var i := 0;
    while i < size
      invariant 0 <= i <= size
      invariant form == SquareMask(size)[..i]
    {
      var row: seq<bool> := [];
      var j := 0;
      while j < size
        invariant 0 <= j <= size
        invariant row == SquareMask(size)[i][..j]
      {
        row := row + [true];
        j := j + 1;
      }
      assert row == SquareMask(size)[i];
      assert SquareMask(size)[..i + 1] == SquareMask(size)[..i] + [SquareMask(size)[i]];
      form := form + [row];
      i := i + 1;
    }
    assert SquareMask(size)[..size] == SquareMask(size);
    return NewPatch(buttons, price, time, form, size, size, color);
  }

  /** specialPatch: the 1x1 brown patch worth nothing and costing nothing. */
  function SpecialPatch(): Patch {
    Patch(0, 0, 0, SquareMask(1), 1, 1, Brown)
  }

  /** cubeBasic1: 2x2, one button, price 3, time 4. */
  function CubeBasic1(): Patch {
    Patch(1, 3, 4, SquareMask(2), 2, 2, Orange)
  }

  /** cubeBasic2: 2x2, no button, price 2, time 2. */
  function CubeBasic2(): Patch {
    Patch(0, 2, 2, SquareMask(2), 2, 2, Gold)
  }

  /** The three stock patches are what cube builds for their arguments, and are
      valid full squares with the attributes the source gives them. */
  lemma StockPatches()
    ensures NewPatch(0, 0, 0, SquareMask(1), 1, 1, Brown) == Ok(SpecialPatch())
    ensures NewPatch(1, 3, 4, SquareMask(2), 2, 2, Orange) == Ok(CubeBasic1())
    ensures NewPatch(0, 2, 2, SquareMask(2), 2, 2, Gold) == Ok(CubeBasic2())
    ensures ValidPatch(SpecialPatch()) && ValidPatch(CubeBasic1()) && ValidPatch(CubeBasic2())
    ensures SpecialPatch().form == [[true]]
    ensures TrueCells(SpecialPatch().form) == {(0, 0)} && |TrueCells(SpecialPatch().form)| == 1
    ensures CubeBasic1() != CubeBasic2()
  {
    assert SquareMask(1)[0] == [true];
    forall c | c in TrueCells(SpecialPatch().form) ensures c == (0, 0) {
      TrueCellsMember(SpecialPatch().form, c);
    }
    TrueCellsMember(SpecialPatch().form, (0, 0));
  }
}
