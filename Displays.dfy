/** Displays.java: the text the terminal game prints. Every builder's only
    effect is the string it returns. */
module Displays {
  import opened Common
  import opened Patches
  import Timeline
  import Players

  // ---------------------------------------------------------------------
  // Integer.toString and String.repeat
  // ---------------------------------------------------------------------

  predicate IsDigit(c: char) {
    '0' <= c <= '9'
  }

  function DigitChar(d: int): (c: char)
    requires 0 <= d <= 9
    ensures IsDigit(c) && c as int - '0' as int == d
  {
    ('0' as int + d) as char
  }

  /** The decimal digits of n, without leading zeros. */
  function NatToString(n: nat): (s: string)
    ensures |s| >= 1 && forall k :: 0 <= k < |s| ==> IsDigit(s[k])
    ensures |s| > 1 ==> s[0] != '0'
  {
    if n < 10 then [DigitChar(n)] else NatToString(n / 10) + [DigitChar(n % 10)]
  }

  function DigitValue(c: char): nat
    requires IsDigit(c)
  {
    c as int - '0' as int
  }

  /** The number a string of digits denotes. */
  function DigitsValue(s: string): nat
    requires forall k :: 0 <= k < |s| ==> IsDigit(s[k])
  {
    if s == [] then 0 else DigitsValue(s[..|s| - 1]) * 10 + DigitValue(s[|s| - 1])
  }

  lemma {:induction false} NatToStringReadsBack(n: nat)
    ensures DigitsValue(NatToString(n)) == n
  {
    if n >= 10 {
      NatToStringReadsBack(n / 10);
      var s := NatToString(n);
      assert s[..|s| - 1] == NatToString(n / 10);
    }
  }

  /** Integer.toString: a minus sign for negative numbers, then the digits. */
  function IntToString(n: int): (s: string)
    ensures |s| >= 1 && (s[0] == '-' <==> n < 0)
    ensures forall k :: 0 <= k < |s| ==> IsDigit(s[k]) || (k == 0 && s[k] == '-')
  {
    if n < 0 then "-" + NatToString(-n) else NatToString(n)
  }

  /** The text of a number, read back. */
  function ParseInt(s: string): int
    requires forall k :: 0 <= k < |s| ==> IsDigit(s[k]) || (k == 0 && s[k] == '-')
  {
    if |s| > 0 && s[0] == '-' then -(DigitsValue(s[1..]) as int) else DigitsValue(s)
  }

  lemma IntToStringReadsBack(n: int)
    ensures ParseInt(IntToString(n)) == n
  {
    if n < 0 {
      NatToStringReadsBack(-n);
      assert IntToString(n)[1..] == NatToString(-n);
    } else {
      NatToStringReadsBack(n);
    }
  }

  /** Two different numbers never print the same. */
  lemma IntToStringInjective(a: int, b: int)
    ensures IntToString(a) == IntToString(b) ==> a == b
  {
    IntToStringReadsBack(a);
    IntToStringReadsBack(b);
  }

  /** String.repeat of a one-character string: n copies of c. */
  function RepeatChar(c: char, n: nat): (r: string)
    ensures |r| == n && forall k :: 0 <= k < n ==> r[k] == c
  {
    if n == 0 then "" else RepeatChar(c, n - 1) + [c]
  }

  /** n spaces. */
  function Spaces(n: nat): string {
    RepeatChar(' ', n)
  }

  /** Text that is not cut by a line break. */
  predicate NoNewline(s: string) {
    forall k :: 0 <= k < |s| ==> s[k] != '\n'
  }

  /** Where the first line of a text ends: the index of its first line
      break, or its length when it has none. */
  function LineEnd(t: string): (e: nat)
    ensures e <= |t|
  {
    if t == [] then 0 else if t[0] == '\n' then 0 else 1 + LineEnd(t[1..])
  }

  lemma {:induction false} LineEndAfter(x: string, y: string)
    requires NoNewline(x)
    ensures LineEnd(x + "\n" + y) == |x|
  {
    if x != [] {
      assert (x + "\n" + y)[1..] == x[1..] + "\n" + y;
      LineEndAfter(x[1..], y);
    }
  }

  /** A first line and the text after it determine each other. */
  lemma SplitAtNewline(x: string, y: string, x': string, y': string)
    requires NoNewline(x) && NoNewline(x')
    requires x + "\n" + y == x' + "\n" + y'
    ensures x == x' && y == y'
  {
    var t := x + "\n" + y;
    LineEndAfter(x, y);
    LineEndAfter(x', y');
    assert x == t[..|x|];
    assert x' == t[..|x'|];
    assert y == t[|x| + 1..];
    assert y' == t[|x'| + 1..];
  }

  // ---------------------------------------------------------------------
  // displayScore and displayResult
  // ---------------------------------------------------------------------

  const ScorePrefix1 := "Player 1's score is "
  const ScorePrefix2 := "Player 2's score is "

  /** A line giving one number after a fixed text. */
  function NumberLine(prefix: string, n: int): string {
    prefix + IntToString(n) + "\n"
  }

  lemma IntToStringOneLine(n: int)
    ensures NoNewline(IntToString(n))
  {
  }

  /** A line of a number reads back: the same prefix and the same text after
      it mean the same number and the same rest. */
  lemma NumberLineSplit(prefix: string, a: int, rest: string, c: int, rest': string)
    requires NumberLine(prefix, a) + rest == NumberLine(prefix, c) + rest'
    ensures a == c && rest == rest'
  {
    var A, C := IntToString(a), IntToString(c);
    IntToStringOneLine(a);
    IntToStringOneLine(c);
    var t := NumberLine(prefix, a) + rest;
    assert t == prefix + (A + "\n" + rest);
    assert NumberLine(prefix, c) + rest' == prefix + (C + "\n" + rest');
    assert t[|prefix|..] == A + "\n" + rest;
    assert t[|prefix|..] == C + "\n" + rest';
    SplitAtNewline(A, rest, C, rest');
    IntToStringInjective(a, c);
  }

  /** The two score lines, each ended by a line break. */
  function ScoreText(score1: int, score2: int): (t: string)
    ensures |t| > |ScorePrefix1| && t[..|ScorePrefix1|] == ScorePrefix1 && t[|t| - 1] == '\n'
  {
    NumberLine(ScorePrefix1, score1) + NumberLine(ScorePrefix2, score2)
  }

  /** The score lines tell both scores exactly. */
  lemma ScoreTextInjective(a: int, b: int, c: int, d: int)
    requires ScoreText(a, b) == ScoreText(c, d)
    ensures a == c && b == d
  {
    NumberLineSplit(ScorePrefix1, a, NumberLine(ScorePrefix2, b), c, NumberLine(ScorePrefix2, d));
    assert NumberLine(ScorePrefix2, b) + "" == NumberLine(ScorePrefix2, d) + "";
    NumberLineSplit(ScorePrefix2, b, "", d, "");
  }

  /** displayScore: both players' scores. */
  method DisplayScore(player1: Players.Player, player2: Players.Player) returns (t: string)
    requires player1.Valid() && player2.Valid()
    ensures t == ScoreText(player1.button - 2 * |player1.quilt.EmptyCells()|,
                           player2.button - 2 * |player2.quilt.EmptyCells()|)
  {
    var s1 := player1.Score();
    var s2 := player2.Score();
    t := ScoreText(s1, s2);
  }

  /** The verdict for two scores. */
  function ResultText(score1: int, score2: int): (t: string)
    ensures t == "Player 1 has won !" <==> score1 > score2
    ensures t == "Player 2 has won !" <==> score1 < score2
    ensures t == "It's a draw !" <==> score1 == score2
  {
    if score1 > score2 then "Player 1 has won !"
    else if score1 < score2 then "Player 2 has won !"
    else "It's a draw !"
  }

  /** displayResult: the verdict on the players' scores. */
  method DisplayResult(player1: Players.Player, player2: Players.Player) returns (t: string)
    requires player1.Valid() && player2.Valid()
    ensures t == ResultText(player1.button - 2 * |player1.quilt.EmptyCells()|,
                            player2.button - 2 * |player2.quilt.EmptyCells()|)
  {
    var s1 := player1.Score();
    var s2 := player2.Score();
    t := ResultText(s1, s2);
  }

  /** displaySpecialTileMessage */
  const SpecialTileMessage := "You are the first to have completed a 7 by 7 square !\n" +
                              "You have obtained the special tile which is worth 7 buttons!\n"

  // ---------------------------------------------------------------------
  // displayGrid
  // ---------------------------------------------------------------------

  /** Every line of a grid of x columns has this many characters, its line
      break included. */
  function LineLength(x: int): int {
    3 * x + 2
  }

  /** A border line: left corner, x segments of two bars with x - 1 joints
      between them, right corner. */
  function Border(left: char, joint: char, right: char, x: int): (t: string)
    requires x >= 1
    ensures |t| == LineLength(x) && t[|t| - 1] == '\n'
  {
    [left] + "══" + Joints(joint, x - 1) + [right] + "\n"
  }

  /** The n joint-and-bars segments of a border ("╦══".repeat(n)). */
  function Joints(joint: char, n: nat): (t: string)
    ensures |t| == 3 * n
  {
    if n == 0 then "" else Joints(joint, n - 1) + [joint] + "══"
  }

  function Cell(occupied: bool): (t: string)
    ensures |t| == 3
  {
    if occupied then "**║" else "  ║"
  }

  /** What a cell shows at its first position. */
  function CellChar(occupied: bool): char {
    if occupied then '*' else ' '
  }

  /** A row's line up to its first n cells: the left bar, then the cells. */
  function RowPrefix(row: seq<bool>, n: nat): (t: string)
    requires n <= |row|
    ensures |t| == 3 * n + 1
  {
    if n == 0 then "║" else RowPrefix(row, n - 1) + Cell(row[n - 1])
  }

  lemma {:induction false} RowPrefixShowsCells(row: seq<bool>, n: nat, j: nat)
    requires j < n <= |row|
    ensures RowPrefix(row, n)[1 + 3 * j] == CellChar(row[j])
  {
    if j < n - 1 {
      RowPrefixShowsCells(row, n - 1, j);
    }
  }

  /** The line of a row of x cells. */
  function RowLine(row: seq<bool>, x: nat): (t: string)
    requires x <= |row|
    ensures |t| == LineLength(x) && t[|t| - 1] == '\n'
  {
    RowPrefix(row, x) + "\n"
  }

  /** Cell j of a row line shows stars exactly when the cell is occupied. */
  lemma RowLineShowsCells(row: seq<bool>, x: nat, j: nat)
    requires j < x <= |row|
    ensures RowLine(row, x)[1 + 3 * j] == CellChar(row[j])
  {
    RowPrefixShowsCells(row, x, j);
  }

  /** The board has at least y rows of at least x cells, as the loops read it. */
  predicate GridFits(board: seq<seq<bool>>, x: int, y: int) {
    y <= |board| && forall i :: 0 <= i < y ==> x <= |board[i]|
  }

  /** The top border and the lines of the first n rows, each row but the last
      followed by a separator line. */
  function Lines(board: seq<seq<bool>>, x: int, y: nat, n: nat): (ls: seq<string>)
    requires x >= 1 && GridFits(board, x, y) && n <= y
    ensures |ls| == (if n == 0 then 1 else if n < y then 2 * n + 1 else 2 * n)
    ensures ls[0] == Border('╔', '╦', '╗', x)
  {
    if n == 0 then [Border('╔', '╦', '╗', x)]
    else Lines(board, x, y, n - 1) + [RowLine(board[n - 1], x)] +
         (if n - 1 < y - 1 then [Border('╠', '╬', '╣', x)] else [])
  }

  lemma {:induction false} LinesShape(board: seq<seq<bool>>, x: int, y: nat, n: nat, i: nat)
    requires x >= 1 && GridFits(board, x, y) && i < n <= y
    ensures Lines(board, x, y, n)[2 * i + 1] == RowLine(board[i], x)
    ensures i < y - 1 ==> Lines(board, x, y, n)[2 * i + 2] == Border('╠', '╬', '╣', x)
  {
    if i < n - 1 {
      LinesShape(board, x, y, n - 1, i);
    }
  }

  /** Every line has the same length and ends with a line break. */
  lemma {:induction false} LinesUniform(board: seq<seq<bool>>, x: int, y: nat, n: nat)
    requires x >= 1 && GridFits(board, x, y) && n <= y
    ensures forall k :: 0 <= k < |Lines(board, x, y, n)| ==>
              |Lines(board, x, y, n)[k]| == LineLength(x) && Lines(board, x, y, n)[k][LineLength(x) - 1] == '\n'
  {
    if n > 0 {
      LinesUniform(board, x, y, n - 1);
      var prev := Lines(board, x, y, n - 1);
      var rest := [RowLine(board[n - 1], x)] + (if n - 1 < y - 1 then [Border('╠', '╬', '╣', x)] else []);
      assert Lines(board, x, y, n) == prev + rest;
    }
  }

  /** The lines displayGrid builds: top border, rows and separators, bottom
      border. */
  function GridLines(board: seq<seq<bool>>, x: int, y: nat): seq<string>
    requires x >= 1 && GridFits(board, x, y)
  {
    Lines(board, x, y, y) + [Border('╚', '╩', '╝', x)]
  }

  /** The lines joined, as the StringBuilder holds them. */
  function Concat(ls: seq<string>): string {
    if ls == [] then "" else Concat(ls[..|ls| - 1]) + ls[|ls| - 1]
  }

  lemma ConcatAppend(ls: seq<string>, l: string)
    ensures Concat(ls + [l]) == Concat(ls) + l
  {
    assert (ls + [l])[..|ls|] == ls;
  }

  /** One more row adds its line, then a separator unless it is the last
      row. */
  lemma NextRowText(board: seq<seq<bool>>, x: int, y: nat, i: nat)
    requires x >= 1 && GridFits(board, x, y) && i < y
    ensures Concat(Lines(board, x, y, i + 1)) ==
            Concat(Lines(board, x, y, i)) + RowLine(board[i], x) +
            (if i < y - 1 then Border('╠', '╬', '╣', x) else "")
  {
    var prev := Lines(board, x, y, i);
    var line := RowLine(board[i], x);
    ConcatAppend(prev, line);
    if i < y - 1 {
      ConcatAppend(prev + [line], Border('╠', '╬', '╣', x));
    } else {
      assert Lines(board, x, y, i + 1) == prev + [line];
    }
  }

  /** What displayGrid builds for at least one column and y >= 0 rows. */
  function GridText(board: seq<seq<bool>>, x: int, y: nat): string
    requires x >= 1 && GridFits(board, x, y)
  {
    Concat(GridLines(board, x, y))
  }

  /** The grid has 2y + 1 lines (2 without rows), all of the same length and
      each ended by a line break: the top border, then for each row i the
      row's line at 2i + 1 and, between rows, a separator at 2i + 2, then the
      bottom border. */
  lemma GridShape(board: seq<seq<bool>>, x: int, y: nat)
    requires x >= 1 && GridFits(board, x, y)
    ensures var ls := GridLines(board, x, y);
            |ls| == (if y == 0 then 2 else 2 * y + 1) &&
            ls[0] == Border('╔', '╦', '╗', x) && ls[|ls| - 1] == Border('╚', '╩', '╝', x) &&
            (forall i :: 0 <= i < y ==> ls[2 * i + 1] == RowLine(board[i], x)) &&
            (forall i :: 0 <= i < y - 1 ==> ls[2 * i + 2] == Border('╠', '╬', '╣', x)) &&
            (forall k :: 0 <= k < |ls| ==> |ls[k]| == LineLength(x) && ls[k][LineLength(x) - 1] == '\n')
  {
    var ls := GridLines(board, x, y);
    var body := Lines(board, x, y, y);
    forall i | 0 <= i < y
      ensures ls[2 * i + 1] == RowLine(board[i], x)
    {
      LinesShape(board, x, y, y, i);
      assert ls[2 * i + 1] == body[2 * i + 1];
    }
    forall i | 0 <= i < y - 1
      ensures ls[2 * i + 2] == Border('╠', '╬', '╣', x)
    {
      LinesShape(board, x, y, y, i);
      assert ls[2 * i + 2] == body[2 * i + 2];
    }
    LinesUniform(board, x, y, y);
    forall k | 0 <= k < |ls|
      ensures |ls[k]| == LineLength(x) && ls[k][LineLength(x) - 1] == '\n'
    {
      if k < |body| {
        assert ls[k] == body[k];
      }
    }
  }

  /** The cell of row i, column j, on the grid's line 2i + 1, shows stars
      exactly when board[i][j] is occupied. */
  lemma GridShowsCells(board: seq<seq<bool>>, x: int, y: nat, i: nat, j: nat)
    requires x >= 1 && GridFits(board, x, y) && i < y && j < x
    ensures 2 * i + 1 < |GridLines(board, x, y)| && GridLines(board, x, y)[2 * i + 1] == RowLine(board[i], x) &&
            RowLine(board[i], x)[1 + 3 * j] == CellChar(board[i][j])
  {
    GridShape(board, x, y);
    RowLineShowsCells(board[i], x, j);
  }

  /** The inner loop of displayGrid: one row's line. */
  method DisplayRow(row: seq<bool>, x: nat) returns (line: string)
    requires x <= |row|
    ensures line == RowLine(row, x)
  {
    line := "║";
    var j := 0;
    while j < x
      invariant 0 <= j <= x
      invariant line == RowPrefix(row, j)
    {
      line := line + Cell(row[j]);
      j := j + 1;
    }
    line := line + "\n";
  }

  /** displayGrid(board, size_x, size_y); String.repeat refuses the negative
      count that fewer than one column gives. */
  method DisplayGrid(board: seq<seq<bool>>, x: int, y: int) returns (r: Result<string>)
    requires x >= 1 ==> GridFits(board, x, y)
    ensures x < 1 ==> r == Err(IllegalArgument("count is negative: " + IntToString(x - 1)))
    ensures x >= 1 ==> r == Ok(GridText(board, x, if y < 0 then 0 else y))
  {
    if x - 1 < 0 {
      return Err(IllegalArgument("count is negative: " + IntToString(x - 1)));
    }
    var rows: nat := if y < 0 then 0 else y;
    var top := Border('╔', '╦', '╗', x);
    var grid := top;
    var floorSeparator := Border('╠', '╬', '╣', x);
    assert Concat(Lines(board, x, rows, 0)) == top by {
      ConcatAppend([], top);
    }
    var i := 0;
    while i < rows
      invariant 0 <= i <= rows && GridFits(board, x, rows)
      invariant grid == Concat(Lines(board, x, rows, i))
    {
      var line := DisplayRow(board[i], x);
      grid := grid + line;
      if i < rows - 1 {
        grid := grid + floorSeparator;
      }
      NextRowText(board, x, rows, i);
      i := i + 1;
    }
    var bottom := Border('╚', '╩', '╝', x);
    ConcatAppend(Lines(board, x, rows, rows), bottom);
    return Ok(grid + bottom);
  }

  // ---------------------------------------------------------------------
  // displayTimeBoardPath
  // ---------------------------------------------------------------------

  function Symbol(e: Timeline.Element): char {
    match e
    case Button => '©'
    case SpecialPatch => '■'
    case Empty => ' '
  }

  function FromSymbol(c: char): Timeline.Element {
    if c == '©' then Timeline.Button
    else if c == '■' then Timeline.SpecialPatch
    else Timeline.Empty
  }

  /** One character per cell of the path. */
  function PathCells(path: seq<Timeline.Element>): (t: string)
    ensures |t| == |path|
  {
    if path == [] then "" else PathCells(path[..|path| - 1]) + [Symbol(path[|path| - 1])]
  }

  lemma {:induction false} PathCellsShowPath(path: seq<Timeline.Element>, k: nat)
    requires k < |path|
    ensures PathCells(path)[k] == Symbol(path[k])
  {
    if k < |path| - 1 {
      PathCellsShowPath(path[..|path| - 1], k);
    }
  }

  /** A rule of double bars as long as the board, and its line break. */
  function Rule(): (t: string)
    ensures |t| == Timeline.Size + 1
  {
    RepeatChar('═', Timeline.Size) + "\n"
  }

  /** The path between two rules. */
  function PathText(path: seq<Timeline.Element>): (t: string)
    ensures |t| == 2 * (Timeline.Size + 1) + |path| + 1
  {
    Rule() + PathCells(path) + "\n" + Rule()
  }

  /** The cells of a path display, read back. */
  function ReadPath(t: string): seq<Timeline.Element>
    requires |t| >= 2 * (Timeline.Size + 1) + 1
  {
    seq(|t| - 2 * (Timeline.Size + 1) - 1, k requires 0 <= k < |t| - 2 * (Timeline.Size + 1) - 1 =>
      FromSymbol(t[Timeline.Size + 1 + k]))
  }

  /** The display shows the whole path: reading it back gives the path. */
  lemma PathTextReadsBack(path: seq<Timeline.Element>)
    ensures ReadPath(PathText(path)) == path
  {
    var t := PathText(path);
    assert |ReadPath(t)| == |path|;
    forall k | 0 <= k < |path|
      ensures ReadPath(t)[k] == path[k]
    {
      PathCellsShowPath(path, k);
      assert t[Timeline.Size + 1 + k] == PathCells(path)[k];
      assert FromSymbol(Symbol(path[k])) == path[k];
    }
  }

  /** displayTimeBoardPath */
  method DisplayTimeBoardPath(timeboard: Timeline.TimeBoard) returns (t: string)
    ensures t == PathText(timeboard.path[..])
  {
    var s := RepeatChar('═', Timeline.Size) + "\n";
    var value := s;
    var i := 0;
    while i < timeboard.path.Length
      invariant 0 <= i <= timeboard.path.Length
      invariant value == s + PathCells(timeboard.path[..i])
    {
      assert timeboard.path[..i + 1][..i] == timeboard.path[..i];
      var element := timeboard.path[i];
      if element == Timeline.Button {
        value := value + "©";
      } else if element == Timeline.SpecialPatch {
        value := value + "■";
      } else {
        value := value + " ";
      }
      i := i + 1;
    }
    assert timeboard.path[..] == timeboard.path[..timeboard.path.Length];
    t := value + "\n" + s;
  }

  // ---------------------------------------------------------------------
  // displayTimeToken
  // ---------------------------------------------------------------------

  /** A token line: spaces up to the digit, the digit, a line break. */
  function TokenLine(column: nat, digit: char): string {
    Spaces(column) + [digit] + "\n"
  }

  /** displayTimeToken as written: on different cells, the second digit is
      preceded by high - low spaces. */
  function TimeTokenAsWritten(location1: nat, location2: nat, oneOnTwo: bool): (t: string)
    ensures location1 == location2 ==> t == TimeToken(location1, location2, oneOnTwo)
    ensures location1 != location2 ==>
              |t| == (if location1 > location2 then location1 else location2) + 3 && t[|t| - 1] == '\n'
  {
    if location1 == location2 then
      if oneOnTwo then TokenLine(location1, '1') + TokenLine(location2, '2')
      else TokenLine(location2, '2') + TokenLine(location1, '1')
    else if location1 > location2 then
      Spaces(location2) + "2" + Spaces(location1 - location2) + "1\n"
    else
      Spaces(location1) + "1" + Spaces(location2 - location1) + "2\n"
  }

  /** displayTimeToken with the gap that puts each digit over its own cell of
      the path line. */
  function TimeToken(location1: nat, location2: nat, oneOnTwo: bool): (t: string)
    ensures |t| >= 2 && t[|t| - 1] == '\n'
    ensures location1 != location2 ==> |t| == (if location1 > location2 then location1 else location2) + 2
  {
    if location1 == location2 then
      if oneOnTwo then TokenLine(location1, '1') + TokenLine(location2, '2')
      else TokenLine(location2, '2') + TokenLine(location1, '1')
    else if location1 > location2 then
      Spaces(location2) + "2" + Spaces(location1 - location2 - 1) + "1\n"
    else
      Spaces(location1) + "1" + Spaces(location2 - location1 - 1) + "2\n"
  }

  /** On one cell: two lines, the token on top first, each digit in the
      cell's column. */
  lemma TimeTokenSameCell(location: nat, oneOnTwo: bool)
    ensures var t := TimeToken(location, location, oneOnTwo);
            var first := if oneOnTwo then '1' else '2';
            var second := if oneOnTwo then '2' else '1';
            |t| == 2 * (location + 2) &&
            t[location] == first && t[location + 1] == '\n' &&
            t[location + 2 + location] == second && t[|t| - 1] == '\n' &&
            (forall k :: 0 <= k < location ==> t[k] == ' ') &&
            (forall k :: location + 2 <= k < location + 2 + location ==> t[k] == ' ')
  {
    var t := TimeToken(location, location, oneOnTwo);
    var first := if oneOnTwo then '1' else '2';
    var second := if oneOnTwo then '2' else '1';
    assert t == TokenLine(location, first) + TokenLine(location, second);
  }

  /** On different cells: one line where column k is player 1's digit exactly
      at location1, player 2's exactly at location2, and blank elsewhere. */
  lemma TimeTokenColumns(location1: nat, location2: nat, oneOnTwo: bool)
    requires location1 != location2
    ensures var t := TimeToken(location1, location2, oneOnTwo);
            |t| == (if location1 > location2 then location1 else location2) + 2 &&
            t[|t| - 1] == '\n' && t[location1] == '1' && t[location2] == '2' &&
            forall k :: 0 <= k < |t| - 1 && k != location1 && k != location2 ==> t[k] == ' '
  {
    var t := TimeToken(location1, location2, oneOnTwo);
    if location1 > location2 {
      var a := Spaces(location2) + "2";
      var b := Spaces(location1 - location2 - 1);
      assert t == a + b + "1\n";
      forall k | 0 <= k < |t| - 1 && k != location1 && k != location2
        ensures t[k] == ' '
      {
        if k < location2 {
          assert t[k] == a[k];
        } else {
          assert t[k] == b[k - location2 - 1];
        }
      }
    } else {
      var a := Spaces(location1) + "1";
      var b := Spaces(location2 - location1 - 1);
      assert t == a + b + "2\n";
      forall k | 0 <= k < |t| - 1 && k != location1 && k != location2
        ensures t[k] == ' '
      {
        if k < location1 {
          assert t[k] == a[k];
        } else {
          assert t[k] == b[k - location1 - 1];
        }
      }
    }
  }

  /** As written, player 2 one cell ahead of player 1 at the start is drawn
      two columns right of player 1, over the wrong cell of the path. */
  lemma TimeTokenAsWrittenMisplaced()
    ensures TimeTokenAsWritten(0, 1, true) == "1 2\n"
    ensures TimeTokenAsWritten(0, 1, true)[1] != '2'
    ensures TimeToken(0, 1, true) == "12\n"
  {
    assert Spaces(1) == " ";
  }

  /** As written, whenever the tokens are on different cells the one ahead is
      drawn one column past its cell. */
  lemma TimeTokenAsWrittenOffByOne(location1: nat, location2: nat, oneOnTwo: bool)
    requires location1 < location2
    ensures var t := TimeTokenAsWritten(location1, location2, oneOnTwo);
            |t| == location2 + 3 && t[location2] == ' ' && t[location2 + 1] == '2'
  {
    var t := TimeTokenAsWritten(location1, location2, oneOnTwo);
    var a := Spaces(location1) + "1";
    var b := Spaces(location2 - location1);
    assert t == a + b + "2\n";
    assert t[location2] == b[location2 - location1 - 1];
  }

  const BoardHeader := "╔═════════════════════════════════════╗\n" +
                       "║   Current state of the time board   ║\n" +
                       "╚═════════════════════════════════════╝\n"

  /** displayTimeBoardState: a header, the token lines as displayTimeToken
      writes them, the path. */
  function TimeBoardStateText(path: seq<Timeline.Element>, location1: nat, location2: nat, oneOnTwo: bool): (t: string)
    ensures BoardHeader <= t
    ensures |t| == |BoardHeader| + |TimeTokenAsWritten(location1, location2, oneOnTwo)| + |PathText(path)|
    ensures t[|t| - |PathText(path)|..] == PathText(path)
  {
    BoardHeader + TimeTokenAsWritten(location1, location2, oneOnTwo) + PathText(path)
  }

  /** The path can be read back from the end of the time board's state. */
  lemma TimeBoardStateShowsPath(path: seq<Timeline.Element>, location1: nat, location2: nat, oneOnTwo: bool)
    ensures var t := TimeBoardStateText(path, location1, location2, oneOnTwo);
            ReadPath(t[|t| - |PathText(path)|..]) == path
  {
    PathTextReadsBack(path);
  }

  // ---------------------------------------------------------------------
  // displayPatchAvailable
  // ---------------------------------------------------------------------

  /** A patch record can be drawn: at least one column, a mask that fits. */
  predicate Drawable(p: Patch) {
    p.sizeX >= 1 && p.sizeY >= 0 && GridFits(p.form, p.sizeX, p.sizeY)
  }

  lemma ValidIsDrawable(p: Patch)
    requires ValidPatch(p)
    ensures Drawable(p)
  {
  }

  /** One entry of the list: its id, time, buttons, price and drawing. */
  function Entry(id: int, p: Patch): string
    requires ValidPatch(p)
  {
    ValidIsDrawable(p);
    EntryHeader(id, p) + GridText(p.form, p.sizeX, p.sizeY) + "\n"
  }

  /** The lines of an entry above its drawing. */
  function EntryHeader(id: int, p: Patch): string {
    "id : " + IntToString(id) + "\n" +
    "Time: " + IntToString(p.time) + "\nButtons: " + IntToString(p.buttons) +
    "\nPrice:" + IntToString(p.price) + "\n"
  }

  /** The entries of the first n patches, numbered from 0. */
  function Entries(patches: seq<Patch>, n: nat): string
    requires n <= |patches| && forall k :: 0 <= k < n ==> ValidPatch(patches[k])
  {
    if n == 0 then "" else Entries(patches, n - 1) + Entry(n - 1, patches[n - 1])
  }

  /** What displayPatchAvailable shows: the first three patches at most. */
  function Available(patches: seq<Patch>): string
    requires forall k :: 0 <= k < Min(3, |patches|) ==> ValidPatch(patches[k])
  {
    Entries(patches, Min(3, |patches|))
  }

  lemma {:induction false} EntriesPrefix(a: seq<Patch>, b: seq<Patch>, n: nat)
    requires n <= |a| && n <= |b| && a[..n] == b[..n]
    requires forall k :: 0 <= k < n ==> ValidPatch(a[k])
    ensures Entries(a, n) == Entries(b, n)
  {
    if n > 0 {
      assert a[n - 1] == a[..n][n - 1];
      assert a[..n - 1] == a[..n][..n - 1];
      assert b[..n - 1] == b[..n][..n - 1];
      EntriesPrefix(a, b, n - 1);
    }
  }

  /** Only the first three patches are shown: the rest of the list does not
      change the text, and an empty list shows nothing. */
  lemma AvailableIgnoresRest(a: seq<Patch>, b: seq<Patch>)
    requires a[..Min(3, |a|)] == b[..Min(3, |b|)]
    requires forall k :: 0 <= k < Min(3, |a|) ==> ValidPatch(a[k])
    ensures Available(a) == Available(b)
    ensures a == [] ==> Available(a) == ""
  {
    assert |a[..Min(3, |a|)]| == Min(3, |a|);
    assert Min(3, |a|) == Min(3, |b|);
    EntriesPrefix(a, b, Min(3, |a|));
  }

  /** The entries carry the ids 0, 1, 2 in list order. */
  lemma AvailableNumbering(patches: seq<Patch>)
    requires |patches| >= 3 && forall k :: 0 <= k < 3 ==> ValidPatch(patches[k])
    ensures Available(patches) == Entry(0, patches[0]) + Entry(1, patches[1]) + Entry(2, patches[2])
  {
    assert Min(3, |patches|) == 3;
    assert Entries(patches, 1) == Entry(0, patches[0]);
    assert Entries(patches, 2) == Entries(patches, 1) + Entry(1, patches[1]);
  }

  /** displayPatchAvailable: iterates the list while fewer than three were
      shown. */
  method DisplayPatchAvailable(patches: seq<Patch>) returns (t: string)
    requires forall k :: 0 <= k < Min(3, |patches|) ==> ValidPatch(patches[k])
    ensures t == Available(patches)
  {
    var value := "";
    var k := 0;
    while k < |patches| && k < 3
      invariant 0 <= k <= Min(3, |patches|)
      invariant value == Entries(patches, k)
    {
      var element := patches[k];
      ValidIsDrawable(element);
      var drawing := DisplayGrid(element.form, element.sizeX, element.sizeY);
      value := value + (EntryHeader(k, element) + drawing.value + "\n");
      k := k + 1;
    }
    assert k == Min(3, |patches|);
    t := value;
  }
}
