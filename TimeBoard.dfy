/** TimeBoard.java and TimeBoardElement.java: the shared 54-cell timeline
    whose cells are empty, hold a button, or hold a one-shot special patch. */
module Timeline {
  import opened Common

  /** TimeBoardElement. */
  datatype Element = Empty | SpecialPatch | Button

  /** TimeBoard.SIZE: the cells are 0 .. 53 and 53 is the finish. */
  const Size := 54
  const Last := Size - 1

  /** The basic layout: a button on every cell 5 + 6i, nothing elsewhere. */
  function BasicLayout(): (p: seq<Element>)
    ensures |p| == Size
  {
    seq(Size, k => if k % 6 == 5 then Button else Empty)
  }

  /** The full layout adds a special patch on each cell 26 + 6i, i < 5. */
  function FullLayout(): (p: seq<Element>)
    ensures |p| == Size
  {
    seq(Size, k => if k % 6 == 5 then Button else if 26 <= k <= 50 && k % 6 == 2 then SpecialPatch else Empty)
  }

  /** Where the two layouts put things: buttons on 5, 11, ..., 53 in both,
      special patches on 26, 32, ..., 50 in the full one only, and the two
      kinds never share a cell. */
  lemma LayoutCells()
    ensures forall i :: 0 <= i < 9 ==> BasicLayout()[5 + 6 * i] == Button && FullLayout()[5 + 6 * i] == Button
    ensures forall i :: 0 <= i < 5 ==> FullLayout()[26 + 6 * i] == SpecialPatch
    ensures forall k :: 0 <= k < Size && k % 6 != 5 ==> BasicLayout()[k] == Empty
    ensures forall k :: 0 <= k < Size && FullLayout()[k] != BasicLayout()[k] ==>
              BasicLayout()[k] == Empty && FullLayout()[k] == SpecialPatch && 26 <= k <= 50 && k % 6 == 2
  {
  }

  /** The non-empty elements of s, in order (what elementCrossed collects). */
  function NonEmpty(s: seq<Element>): (r: seq<Element>)
    ensures Empty !in r
    ensures multiset(r)[Button] == multiset(s)[Button]
    ensures multiset(r)[SpecialPatch] == multiset(s)[SpecialPatch]
    ensures |r| <= |s|
  {
    if s == [] then []
    else
      var last := s[|s| - 1];
      assert s == s[..|s| - 1] + [last];
      NonEmpty(s[..|s| - 1]) + (if last == Empty then [] else [last])
  }

  /** The new path after crossing (start, finish]: the special patches crossed are gone. */
  function Consumed(p: seq<Element>, start: int, finish: int): (q: seq<Element>)
    ensures |q| == |p|
  {
    seq(|p|, k requires 0 <= k < |p| => if start < k <= finish && p[k] == SpecialPatch then Empty else p[k])
  }

  /** Extending the consumed range by one cell clears at most that cell. */
  lemma ConsumedOneMore(p: seq<Element>, start: int, i: int)
    requires 0 <= start < i < |p|
    ensures Consumed(p, start, i) == Consumed(p, start, i - 1)[i := if p[i] == SpecialPatch then Empty else p[i]]
    ensures Consumed(p, start, i)[i] == (if p[i] == SpecialPatch then Empty else p[i])
    ensures Consumed(p, start, i - 1)[i] == p[i]
  {
  }

  /** One more cell crossed: its element joins the list when it is not empty,
      and it alone is cleared when it is a special patch. */
  lemma CrossOneMore(p: seq<Element>, start: int, i: int)
    requires 0 <= start < i < |p|
    ensures NonEmpty(p[start + 1..i + 1]) == NonEmpty(p[start + 1..i]) + (if p[i] == Empty then [] else [p[i]])
    ensures Consumed(p, start, i) == Consumed(p, start, i - 1)[i := if p[i] == SpecialPatch then Empty else p[i]]
    ensures Consumed(p, start, i - 1)[i] == p[i]
  {
    assert p[start + 1..i + 1] == p[start + 1..i] + [p[i]];
    NonEmptySnoc(p[start + 1..i], p[i]);
    ConsumedOneMore(p, start, i);
  }

  /** The range elementCrossed accepts. */
  predicate CrossingRange(start: int, finish: int) {
    0 <= start < Size && 0 <= finish < Size && start < finish
  }

  /** Crossing the same cells again after a crossing finds only their buttons. */
  lemma {:induction false} RecrossingFindsOnlyButtons(p: seq<Element>, start: int, finish: int)
    requires |p| == Size && CrossingRange(start, finish)
    ensures SpecialPatch !in NonEmpty(Consumed(p, start, finish)[start + 1..finish + 1])
    ensures |NonEmpty(Consumed(p, start, finish)[start + 1..finish + 1])| == multiset(p[start + 1..finish + 1])[Button]
  {
    var x := Consumed(p, start, finish)[start + 1..finish + 1];
    var y := p[start + 1..finish + 1];
    assert forall k :: 0 <= k < |x| ==> x[k] == (if y[k] == SpecialPatch then Empty else y[k]);
    NoSpecialAfterClearing(x, y);
  }

  lemma NonEmptySnoc(s: seq<Element>, e: Element)
    ensures NonEmpty(s + [e]) == NonEmpty(s) + (if e == Empty then [] else [e])
  {
    assert (s + [e])[..|s|] == s;
  }

  lemma ElementSnoc(s: seq<Element>)
    requires s != []
    ensures s == s[..|s| - 1] + [s[|s| - 1]]
    ensures multiset(s)[Button] == multiset(s[..|s| - 1])[Button] + (if s[|s| - 1] == Button then 1 else 0)
  {
    assert s == s[..|s| - 1] + [s[|s| - 1]];
  }

  lemma {:induction false} NoSpecialAfterClearing(x: seq<Element>, y: seq<Element>)
    requires |x| == |y|
    requires forall k :: 0 <= k < |x| ==> x[k] == (if y[k] == SpecialPatch then Empty else y[k])
    ensures SpecialPatch !in NonEmpty(x)
    ensures |NonEmpty(x)| == multiset(y)[Button]
  {
    if x != [] {
      var n := |x| - 1;
      NoSpecialAfterClearing(x[..n], y[..n]);
      ElementSnoc(x);
      ElementSnoc(y);
      NonEmptySnoc(x[..n], x[n]);
    }
  }

  // ------------------------------------------------------------ the spiral

  /** One step of path2DIndex's loop at i: the branch conditions as written.
      The last branch repeats the range 49..53, which the third branch already
      takes, so that part of it is never reached. */
  function Step(i: int): (d: (int, int))
    ensures 49 <= i < 53 ==> d == (-1, 0)
  {
    if (0 <= i < 8) || (25 <= i < 32) || (43 <= i < 48) then (1, 0)
    else if (8 <= i < 13) || (32 <= i < 35) || (48 <= i < 49) then (0, 1)
    else if (13 <= i < 21) || (35 <= i < 41) || (49 <= i < 53) then (-1, 0)
    else if (21 <= i < 25) || (41 <= i < 43) || (49 <= i < 53) then (0, -1)
    else (0, 0)
  }

  /** Where the loop's (x, y) stands after n steps. */
  function Walk(n: nat): (int, int) {
    if n == 0 then (0, 0)
    else (Walk(n - 1).0 + Step(n - 1).0, Walk(n - 1).1 + Step(n - 1).1)
  }

  /** The 9x6 ring walked clockwise from the top-left corner and spiralling in,
      written per straight stretch. */
  function Ring(n: int): (c: (int, int)) {
    if n <= 8 then (n, 0)
    else if n <= 13 then (8, n - 8)
    else if n <= 21 then (21 - n, 5)
    else if n <= 25 then (0, 26 - n)
    else if n <= 32 then (n - 25, 1)
    else if n <= 35 then (7, n - 31)
    else if n <= 41 then (42 - n, 4)
    else if n <= 43 then (1, 45 - n)
    else if n <= 48 then (n - 42, 2)
    else if n <= 49 then (6, n - 46)
    else (55 - n, 3)
  }

  /** One loop step moves along the ring. */
  lemma RingStep(m: int)
    requires 0 <= m < Last
    ensures Ring(m + 1) == (Ring(m).0 + Step(m).0, Ring(m).1 + Step(m).1)
  {
  }

  lemma {:induction false} WalkIsRing(n: nat)
    requires n <= Last
    ensures Walk(n) == Ring(n)
  {
    if n > 0 {
      WalkIsRing(n - 1);
      RingStep(n - 1);
    }
  }

  lemma RingInBounds(n: int)
    requires 0 <= n <= Last
    ensures 0 <= Ring(n).0 <= 8 && 0 <= Ring(n).1 <= 5
  {
  }

  lemma RingInjective(a: int, b: int)
    requires 0 <= a < b <= Last
    ensures Ring(a) != Ring(b)
  {
  }

  /** Each step of the loop changes exactly one coordinate, by one. */
  predicate Adjacent(c: (int, int), d: (int, int)) {
    (c.0 == d.0 && (d.1 == c.1 + 1 || d.1 == c.1 - 1)) ||
    (c.1 == d.1 && (d.0 == c.0 + 1 || d.0 == c.0 - 1))
  }

  /** path2DIndex maps 0 to the top-left corner and 53 to the centre (2, 3). */
  lemma PathEnds()
    ensures Walk(0) == (0, 0) && Walk(Last) == (2, 3)
  {
    WalkIsRing(Last);
  }

  /** path2DIndex's other promises: every point lies on the 9x6 board; each
      step moves one cell horizontally or vertically; no cell is visited twice. */
  lemma PathInBounds(n: nat)
    requires n <= Last
    ensures 0 <= Walk(n).0 <= 8 && 0 <= Walk(n).1 <= 5
  {
    WalkIsRing(n);
    RingInBounds(n);
  }

  lemma PathAdjacent(n: nat)
    requires n < Last
    ensures Adjacent(Walk(n), Walk(n + 1))
  {
    WalkIsRing(n);
    WalkIsRing(n + 1);
    RingStep(n);
    assert Step(n) in {(1, 0), (0, 1), (-1, 0), (0, -1)};
  }

  lemma PathInjective(n: nat, m: nat)
    requires n <= Last && m <= Last && n != m
    ensures Walk(n) != Walk(m)
  {
    WalkIsRing(n);
    WalkIsRing(m);
    if n < m {
      RingInjective(n, m);
    } else {
      RingInjective(m, n);
    }
  }

  // ------------------------------------------------------------ the board

  class TimeBoard {
    /** The path array; the class owns it. */
    const path: array<Element>

    predicate Valid() {
      path.Length == Size
    }

    /** The constructor: every cell empty, then a button on 5 + 6i for i < 9. */
    constructor ()
      ensures Valid() && fresh(path)
      ensures path[..] == BasicLayout()
    {
      path := new Element[Size];
      new;
      var i := 0;
      while i < Size
        invariant 0 <= i <= Size
        invariant forall k :: 0 <= k < i ==> path[k] == Empty
      {
        path[i] := Empty;
        i := i + 1;
      }
      i := 0;
      while i < 9
        invariant 0 <= i <= 9
        invariant forall k :: 0 <= k < Size ==> path[k] == (if k % 6 == 5 && k < 5 + 6 * i then Button else Empty)
      {
        path[5 + 6 * i] := Button;
        i := i + 1;
      }
      assert path[..] == BasicLayout();
    }

    /** newBasicTimeBoard. */
    static method NewBasicTimeBoard() returns (t: TimeBoard)
      ensures fresh(t) && fresh(t.path) && t.Valid()
      ensures t.path[..] == BasicLayout()
    {
      t := new TimeBoard();
    }

    /** newFullTimeBoard: the basic board plus a special patch on 26 + 6i for i < 5. */
    static method NewFullTimeBoard() returns (t: TimeBoard)
      ensures fresh(t) && fresh(t.path) && t.Valid()
      ensures t.path[..] == FullLayout()
    {
      t := new TimeBoard();
      var path := t.path;
      var i := 0;
      while i < 5
        invariant 0 <= i <= 5
        invariant forall k :: 0 <= k < Size ==>
          path[k] == (if k % 6 == 5 then Button else if 26 <= k < 26 + 6 * i && k % 6 == 2 then SpecialPatch else Empty)
      {
        path[26 + 6 * i] := SpecialPatch;
        i := i + 1;
      }
      assert path[..] == FullLayout();
    }

    /** path2DIndex: the 2-D board coordinates of a path index. */
    static method Path2DIndex(index: int) returns (r: Result<Point>)
      ensures !(0 <= index < Size) ==> r == Err(IllegalArgument("index out of bound"))
      ensures 0 <= index < Size ==> r == Ok(Point(Walk(index).0, Walk(index).1))
    {
      if index < 0 || Size <= index {
        return Err(IllegalArgument("index out of bound"));
      }
      var x, y := 0, 0;
      var i := 0;
      while i < index
        invariant 0 <= i <= index
        invariant (x, y) == Walk(i)
      {
        if (0 <= i && i < 8) || (25 <= i && i < 32) || (43 <= i && i < 48) {
          x := x + 1;
        } else if (8 <= i && i < 13) || (32 <= i && i < 35) || (48 <= i && i < 49) {
          y := y + 1;
        } else if (13 <= i && i < 21) || (35 <= i && i < 41) || (49 <= i && i < 53) {
          x := x - 1;
        } else if (21 <= i && i < 25) || (41 <= i && i < 43) || (49 <= i && i < 53) {
          y := y - 1;
        }
        i := i + 1;
      }
      return Ok(Point(x, y));
    }

    /** elementCrossed: the non-empty cells of (start, finish] in increasing
        order; each special patch among them is removed from the board. */
    method ElementCrossed(startIndex: int, finishIndex: int) returns (r: Result<seq<Element>>)
      requires Valid()
      modifies path
      ensures !(0 <= startIndex < Size) ==> r == Err(IllegalArgument("startIndex out of bound"))
      ensures 0 <= startIndex < Size && !(0 <= finishIndex < Size) ==> r == Err(IllegalArgument("finishIndex out of bound"))
      ensures 0 <= startIndex < Size && 0 <= finishIndex < Size && finishIndex <= startIndex ==>
                r == Err(IllegalArgument("finishIndex is lower or equal to startIndex"))
      ensures r.Err? ==> path[..] == old(path[..])
      ensures CrossingRange(startIndex, finishIndex) ==>
                r == Ok(NonEmpty(old(path[..])[startIndex + 1..finishIndex + 1])) &&
                path[..] == Consumed(old(path[..]), startIndex, finishIndex)
    {
      if startIndex < 0 || startIndex >= Size {
        return Err(IllegalArgument("startIndex out of bound"));
      }
      if finishIndex < 0 || finishIndex >= Size {
        return Err(IllegalArgument("finishIndex out of bound"));
      }
      if finishIndex <= startIndex {
        return Err(IllegalArgument("finishIndex is lower or equal to startIndex"));
      }
      var crossed := CrossCells(startIndex, finishIndex);
      return Ok(crossed);
    }

    /** The loop of elementCrossed, once its range was accepted. */
    method CrossCells(startIndex: int, finishIndex: int) returns (crossed: seq<Element>)
      requires Valid() && CrossingRange(startIndex, finishIndex)
      modifies path
      ensures crossed == NonEmpty(old(path[..])[startIndex + 1..finishIndex + 1])
      ensures path[..] == Consumed(old(path[..]), startIndex, finishIndex)
    {
      ghost var before := path[..];
      crossed := [];
      var i := startIndex + 1;
      while i <= finishIndex
        invariant startIndex + 1 <= i <= finishIndex + 1
        invariant crossed == NonEmpty(before[startIndex + 1..i])
        invariant path[..] == Consumed(before, startIndex, i - 1)
      {
        CrossOneMore(before, startIndex, i);
        var element := path[i];
        assert element == before[i];
        if element != Empty {
          crossed := crossed + [element];
          if element == SpecialPatch {
            path[i] := Empty;
          }
        }
        i := i + 1;
      }
    }

    /** setEmpty: empties one cell. */
    method SetEmpty(index: int) returns (o: Outcome)
      requires Valid()
      modifies path
      ensures index < 0 ==> o == Fail(IllegalArgument("index < 0"))
      ensures index >= Size ==> o == Fail(IllegalArgument("index > SIZE (53)"))
      ensures o.Fail? ==> path[..] == old(path[..])
      ensures 0 <= index < Size ==> o == Pass && path[..] == old(path[..])[index := Empty]
    {
      if index < 0 {
        return Fail(IllegalArgument("index < 0"));
      }
      if index >= Size {
        return Fail(IllegalArgument("index > SIZE (53)"));
      }
      path[index] := Empty;
      return Pass;
    }
  }
}
