/**
 The annotated echo of the grid that accompanies a straight-run failure:
 each flagged cell is emphasised and rows are separated by row breaks.
 Rendering is kept abstract as tokens; `Markup` spells them out with the
 source's HTML tags.
 */
module Rendering {
  import opened Wrappers
  import opened Locations
  import opened Grid
  import opened Runs

  /** One grid character and whether it is emphasised. */
  datatype Cell = Cell(ch: char, marked: bool)

  datatype Token = Glyph(ch: char) | Emphasis | EndEmphasis | RowBreak

  /** The characters of a row of cells. */
  function Chars(row: seq<Cell>): (s: string)
    ensures |s| == |row|
    ensures forall x :: 0 <= x < |row| ==> s[x] == row[x].ch
  {
    if |row| == 0 then "" else [row[0].ch] + Chars(row[1..])
  }

  /**
   The grid with every cell marked that holds `pathCharacter` and lies in a
   horizontal or vertical run of four equal cells; the source's per-cell
   test in `lines_of_4`, which counts matching neighbours with `InALineOf4`.
   */
  function Annotate(g: seq<string>, pathCharacter: char): (rows: seq<seq<Cell>>)
    requires Rectangular(g)
    ensures |rows| == |g|
    ensures forall y :: 0 <= y < |g| ==> |rows[y]| == |g[y]|
    ensures forall y, x :: 0 <= y < |g| && 0 <= x < |g[y]| ==>
      && rows[y][x].ch == g[y][x]
      && (rows[y][x].marked <==> g[y][x] == pathCharacter && InStraightRun(g, Location(x, y)))
  {
    CountsAgreeWithRuns(g);
    seq(|g|, y requires 0 <= y < |g| =>
      seq(Width(g), x requires 0 <= x < Width(g) =>
        var c := CharAt(g, Location(x, y));
        Cell(c, c == pathCharacter && InALineOf4(g, Location(x, y)))))
  }

  /** The neighbour-counting test and the run-of-four definition agree on every cell. */
  lemma CountsAgreeWithRuns(g: seq<string>)
    requires Rectangular(g)
    ensures forall l :: InGrid(g, l) ==> (InALineOf4(g, l) <==> InStraightRun(g, l))
  {
    forall l | InGrid(g, l) ensures InALineOf4(g, l) <==> InStraightRun(g, l) {
      InALineOf4IffStraightRun(g, l);
    }
  }

  function CellTokens(cell: Cell): seq<Token> {
    if cell.marked then [Emphasis, Glyph(cell.ch), EndEmphasis] else [Glyph(cell.ch)]
  }

  /** One output line: its cells' tokens, left to right. */
  function RenderRow(row: seq<Cell>): seq<Token> {
    if |row| == 0 then [] else CellTokens(row[0]) + RenderRow(row[1..])
  }

  /** The output lines joined with row breaks. */
  function Render(rows: seq<seq<Cell>>): seq<Token> {
    if |rows| == 0 then []
    else if |rows| == 1 then RenderRow(rows[0])
    else RenderRow(rows[0]) + [RowBreak] + Render(rows[1..])
  }

  /** Drops the emphasis markers and splits at row breaks, giving back text rows. */
  function Unrender(ts: seq<Token>): (rows: seq<string>)
    ensures |rows| > 0
  {
    if |ts| == 0 then [""]
    else
      var rest := Unrender(ts[1..]);
      match ts[0]
      case RowBreak => [""] + rest
      case Glyph(c) => [[c] + rest[0]] + rest[1..]
      case _ => rest
  }

  /** The source's spelling of the tokens. */
  function Markup(ts: seq<Token>): string {
    if |ts| == 0 then ""
    else
      var head := match ts[0]
        case Glyph(c) => [c]
        case Emphasis => "<b>"
        case EndEmphasis => "</b>"
        case RowBreak => "<br>";
      head + Markup(ts[1..])
  }

  lemma UnrenderCell(cell: Cell, tail: seq<Token>)
    ensures Unrender(CellTokens(cell) + tail) == [[cell.ch] + Unrender(tail)[0]] + Unrender(tail)[1..]
  {
    var ts := CellTokens(cell) + tail;
    if cell.marked {
      assert ts[1..] == [Glyph(cell.ch), EndEmphasis] + tail;
      assert ts[1..][1..] == [EndEmphasis] + tail;
      assert ts[1..][1..][1..] == tail;
      assert Unrender(ts[1..][1..]) == Unrender(tail);
      assert Unrender(ts) == Unrender(ts[1..]);
    } else {
      assert ts[1..] == tail;
    }
  }

  lemma {:induction false} UnrenderRow(row: seq<Cell>, tail: seq<Token>)
    ensures Unrender(RenderRow(row) + tail) == [Chars(row) + Unrender(tail)[0]] + Unrender(tail)[1..]
    decreases |row|
  {
    if |row| > 0 {
      var inner := RenderRow(row[1..]) + tail;
      assert RenderRow(row) + tail == CellTokens(row[0]) + inner;
      UnrenderCell(row[0], inner);
      UnrenderRow(row[1..], tail);
      var u, v := Unrender(inner), Unrender(tail);
      assert u[0] == Chars(row[1..]) + v[0] && u[1..] == v[1..];
      assert [row[0].ch] + u[0] == Chars(row) + v[0];
    } else {
      assert RenderRow(row) + tail == tail;
      var u := Unrender(tail);
      assert u == [u[0]] + u[1..];
      assert Chars(row) + u[0] == u[0];
    }
  }

  /**
   Removing the markers and splitting at the row breaks gives back each
   row's characters, so the rendering echoes the grid exactly.
   */
  lemma {:induction false} UnrenderRender(rows: seq<seq<Cell>>)
    requires |rows| > 0
    ensures |Unrender(Render(rows))| == |rows|
    ensures forall y :: 0 <= y < |rows| ==> Unrender(Render(rows))[y] == Chars(rows[y])
    decreases |rows|
  {
    if |rows| == 1 {
      UnrenderRow(rows[0], []);
      assert RenderRow(rows[0]) + [] == Render(rows);
    } else {
      var tail := [RowBreak] + Render(rows[1..]);
      assert Render(rows) == RenderRow(rows[0]) + tail;
      UnrenderRow(rows[0], tail);
      assert tail[1..] == Render(rows[1..]);
      UnrenderRender(rows[1..]);
      assert Unrender(tail) == [""] + Unrender(Render(rows[1..]));
    }
  }

  /** Some cell of the grid holds the path character and lies in a line of four. */
  predicate AnyFlagged(g: seq<string>, pathCharacter: char)
    requires Rectangular(g)
  {
    exists y, x :: 0 <= y < |g| && 0 <= x < Width(g) && g[y][x] == pathCharacter && InALineOf4(g, Location(x, y))
  }

  /**
   The source's `lines_of_4`: nothing when no path-character cell lies in a
   line of four; otherwise the annotated rendering, which echoes the grid
   with exactly the flagged path-character cells emphasised.
   */
  function LinesOf4(pathCharacter: char, g: seq<string>): (r: Option<seq<Token>>)
    requires Rectangular(g)
    ensures r.None? <==> forall y, x :: 0 <= y < |g| && 0 <= x < Width(g) ==>
      !(g[y][x] == pathCharacter && InALineOf4(g, Location(x, y)))
    ensures r.Some? ==> Unrender(r.value) == g
    ensures r.Some? ==> r.value == Render(Annotate(g, pathCharacter))
  {
    if AnyFlagged(g, pathCharacter) then
      AnnotatedEchoIsGrid(g, pathCharacter);
      Some(Render(Annotate(g, pathCharacter)))
    else
      None
  }

  /** The rendering of the annotated grid, stripped and split, is the grid. */
  lemma AnnotatedEchoIsGrid(g: seq<string>, pathCharacter: char)
    requires Rectangular(g)
    ensures Unrender(Render(Annotate(g, pathCharacter))) == g
  {
    var rows := Annotate(g, pathCharacter);
    UnrenderRender(rows);
    forall y | 0 <= y < |g| ensures Chars(rows[y]) == g[y] {
      assert |Chars(rows[y])| == |g[y]|;
    }
  }
}
