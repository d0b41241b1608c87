/** Verdicts for particular inputs, worked out from the rules. */
module Scenarios {
  import opened Wrappers
  import opened Locations
  import opened Grid
  import opened CornerSearch
  import opened Corners
  import opened Runs
  import opened Rendering
  import opened Validator

  lemma FourAsIsOneRow()
    ensures Lines("AAAA") == ["AAAA"]
  {
    assert '\n' !in "AAAA";
    LinesOfOneLine("AAAA");
  }

  function FourMarked(): seq<Cell> {
    [Cell('A', true), Cell('A', true), Cell('A', true), Cell('A', true)]
  }

  lemma FourAsCellInLine(g: seq<string>, x: int)
    requires g == ["AAAA"] && 0 <= x < 4
    ensures Rectangular(g) && Width(g) == 4
    ensures InALineOf4(g, Location(x, 0))
  {
    assert Width(g) == 4;
    var l := Location(x, 0);
    forall d | -x <= d <= 3 - x ensures Matches(g, l.Plus(Right.Times(d)), 'A') {
      assert l.Plus(Right.Times(d)) == Location(x + d, 0);
    }
    assert Window(g, l, Right, x, 'A');
    InALineOf4IffStraightRun(g, l);
  }

  lemma FourAsAreAllFlagged(g: seq<string>)
    requires g == ["AAAA"]
    ensures Rectangular(g) && Width(g) == 4
    ensures forall x :: 0 <= x < 4 ==> InALineOf4(g, Location(x, 0))
  {
    FourAsCellInLine(g, 0);
    forall x | 0 <= x < 4 ensures InALineOf4(g, Location(x, 0)) {
      FourAsCellInLine(g, x);
    }
  }

  lemma FourAsAnnotated(g: seq<string>)
    requires g == ["AAAA"]
    requires Rectangular(g) && Width(g) == 4
    requires forall x :: 0 <= x < 4 ==> InALineOf4(g, Location(x, 0))
    ensures Annotate(g, 'A') == [FourMarked()]
  {
    var rows := Annotate(g, 'A');
    assert |rows| == 1 && |rows[0]| == 4;
    forall x | 0 <= x < 4 ensures rows[0][x] == Cell('A', true) {
      assert rows[0][x].ch == 'A';
      assert rows[0][x].marked;
    }
    assert rows[0] == FourMarked();
  }

  lemma FourMarkedCellsRender()
    ensures Render([FourMarked()]) ==
      [Emphasis, Glyph('A'), EndEmphasis, Emphasis, Glyph('A'), EndEmphasis,
       Emphasis, Glyph('A'), EndEmphasis, Emphasis, Glyph('A'), EndEmphasis]
  {
    var m := Cell('A', true);
    var t := CellTokens(m);
    assert RenderRow([]) == [];
    assert [m] == [m] && [m][1..] == [];
    assert RenderRow([m]) == t;
    assert [m, m][1..] == [m];
    assert RenderRow([m, m]) == t + t;
    assert [m, m, m][1..] == [m, m];
    assert RenderRow([m, m, m]) == t + t + t;
    assert FourMarked()[1..] == [m, m, m];
    assert RenderRow(FourMarked()) == t + t + t + t;
  }

  /** Four path characters in one row: all four are emphasised. */
  lemma FourInARowIsAStraightRun(s: string)
    requires s == "AAAA"
    ensures HasCornerCells(s)
    ensures Expected(s) == StraightRun(
      [Emphasis, Glyph('A'), EndEmphasis, Emphasis, Glyph('A'), EndEmphasis,
       Emphasis, Glyph('A'), EndEmphasis, Emphasis, Glyph('A'), EndEmphasis])
  {
    FourAsIsOneRow();
    var g := Lines(s);
    FourAsAreAllFlagged(g);
    FourAsAnnotated(g);
    FourMarkedCellsRender();
    FourAsRunRule(g);
    FourAsCharacters(s);
    ExpectedRunRule(s, g, 'A');
  }

  lemma FourAsCharacters(s: string)
    requires s == "AAAA"
    ensures |CharSet(s)| == 1
  {
    assert CharSet(s) == {'A'};
  }

  lemma FourAsRunRule(g: seq<string>)
    requires g == ["AAAA"]
    requires Rectangular(g) && Width(g) == 4
    requires Annotate(g, 'A') == [FourMarked()]
    ensures PathCharacter(g) == Some('A') && HasStraightRun(g, 'A')
  {
    UniformGridHasPathCharacter(g, 'A');
    LinesOf4FindsStraightRuns(g, 'A');
    assert Annotate(g, 'A')[0][0].marked;
    assert AnyFlagged(g, 'A');
  }

  /** Reading off the verdict once the rules' inputs are known. */
  lemma ExpectedRunRule(s: string, g: seq<string>, c: char)
    requires |s| > 0 && Lines(s) == g && |CharSet(s)| <= 2
    requires Rectangular(g) && Width(g) > 0 && PathCharacter(g) == Some(c) && HasStraightRun(g, c)
    ensures HasCornerCells(s) && Expected(s) == StraightRun(Render(Annotate(g, c)))
  {
  }

  /**
   A grid narrower and shorter than four cells has no straight run of four,
   whatever it holds.
   */
  lemma SmallGridHasNoStraightRun(g: seq<string>, c: char)
    requires Rectangular(g) && Width(g) < 4 && |g| < 4
    ensures !HasStraightRun(g, c)
  {
    forall y, x | 0 <= y < |g| && 0 <= x < Width(g)
      ensures !InStraightRun(g, Location(x, y))
    {
      var l := Location(x, y);
      var e := CharAt(g, l);
      forall a | 0 <= a <= 3 ensures !Window(g, l, Right, a, e) && !Window(g, l, Down, a, e) {
        assert l.Plus(Right.Times(-a)).x == x - a && l.Plus(Right.Times(3 - a)).x == x - a + 3;
        assert l.Plus(Down.Times(-a)).y == y - a && l.Plus(Down.Times(3 - a)).y == y - a + 3;
      }
    }
  }

  lemma LShapeRows(s: string)
    requires s == "AAA\nBBA\nBBA"
    ensures Lines(s) == ["AAA", "BBA", "BBA"]
  {
    var a, b := "AAA", "BBA";
    assert '\n' !in a && '\n' !in b;
    assert StripCarriageReturn(a) == a && StripCarriageReturn(b) == b;
    LinesOfOneLine(b);
    LinesOfLineThenRest(b, b);
    assert s == a + "\n" + (b + "\n" + b);
    LinesOfLineThenRest(a, b + "\n" + b);
  }

  lemma LShapeCharacters(s: string)
    requires s == "AAA\nBBA\nBBA"
    ensures |CharSet(s)| == 2
  {
    assert CharSet(s) == {'A', 'B'};
  }

  lemma LShapeLinksCorners(g: seq<string>)
    requires g == ["AAA", "BBA", "BBA"]
    ensures Rectangular(g) && Width(g) == 3
    ensures PathCharacter(g) == Some('A')
  {
    assert Width(g) == 3;
    var p := TopThenRight(3, 3);
    assert p == [Location(0, 0), Location(1, 0), Location(2, 0), Location(2, 1), Location(2, 2)];
    assert IsPathOf(g, 'A', p);
    assert Linked(g, TopLeft(g), BottomRight(g));
  }

  /** Reading off the verdict once the rules' inputs are known. */
  lemma ExpectedValidRule(s: string, g: seq<string>, c: char)
    requires |s| > 0 && Lines(s) == g && |CharSet(s)| <= 2
    requires Rectangular(g) && Width(g) > 0 && PathCharacter(g) == Some(c) && !HasStraightRun(g, c)
    ensures HasCornerCells(s) && Expected(s) == Valid
  {
  }

  /** An L-shaped path of `A` along the top row and down the right column is valid. */
  lemma LShapedPathIsValid(s: string)
    requires s == "AAA\nBBA\nBBA"
    ensures HasCornerCells(s) && Expected(s) == Valid
  {
    LShapeRows(s);
    var g := Lines(s);
    LShapeLinksCorners(g);
    LShapeCharacters(s);
    SmallGridHasNoStraightRun(g, 'A');
    ExpectedValidRule(s, g, 'A');
  }

  /** Three distinct characters are rejected before the shape is looked at. */
  lemma ThreeCharactersAreTooMany(s: string)
    requires s == "ABC\nABC\nABC"
    ensures HasCornerCells(s) && Expected(s) == TooManyCharacters
  {
    assert s[0] == 'A' && s[1] == 'B' && s[2] == 'C';
    assert {'A', 'B', 'C'} <= CharSet(s);
    assert |{'A', 'B', 'C'}| == 3;
    SubsetCardinality({'A', 'B', 'C'}, CharSet(s));
    assert s == "ABC" + "\n" + "ABC\nABC";
    LinesOfLineThenRest("ABC", "ABC\nABC");
  }

  lemma {:induction false} SubsetCardinality(a: set<char>, b: set<char>)
    requires a <= b
    ensures |a| <= |b|
    decreases |a|
  {
    if a != {} {
      var x :| x in a;
      SubsetCardinality(a - {x}, b - {x});
    }
  }

  /** Rows of two and one characters are not a rectangle. */
  lemma RaggedRowsAreNotRectangular(s: string)
    requires s == "AA\nA"
    ensures HasCornerCells(s) && Expected(s) == NotRectangular
  {
    assert s == "AA" + "\n" + "A";
    LinesOfOneLine("A");
    LinesOfLineThenRest("AA", "A");
    assert StripCarriageReturn("AA") == "AA";
    assert Lines(s) == ["AA", "A"];
    assert CharSet(s) == {'A'};
    assert Width(Lines(s)) == 2;
  }
}
