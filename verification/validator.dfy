/**
 The validator: the ordered rules that turn the input text into a verdict,
 and the message text of each verdict.
 */
module Validator {
  import opened Wrappers
  import opened Locations
  import opened Grid
  import opened Corners
  import opened Runs
  import opened Rendering

  datatype Verdict =
    | Empty
    | TooManyCharacters
    | NotRectangular
    | NoConnectedCorners
    | StraightRun(rendering: seq<Token>)
    | Valid

  /** The text the source returns for each verdict. */
  function Message(v: Verdict): string {
    match v
    case Empty => "Invalid. The input is empty."
    case TooManyCharacters => "Invalid. The input contains more than 2 distinct characters."
    case NotRectangular => "Invalid. The input is not rectangular."
    case NoConnectedCorners =>
      "Invalid. There are not 2 diagonally opposite corners connected by horizontally and vertically adjacent characters."
    case StraightRun(rendering) =>
      "Invalid. There must not be 4 path characters in a line horizontally or vertically:<br><br><code>"
      + Markup(rendering) + "</code>"
    case Valid => "This is a valid path."
  }

  /**
   The inputs the source can judge without indexing past the end of a row:
   the empty input, or one whose widest row holds a character. When every
   row is empty the corner search reads a character of an empty row.
   */
  predicate HasCornerCells(s: string) {
    |s| == 0 || Width(Lines(s)) > 0
  }

  /** Some cell holding the path character lies in a straight run of four. */
  ghost predicate HasStraightRun(g: seq<string>, pathCharacter: char)
    requires Rectangular(g)
  {
    exists y, x :: 0 <= y < |g| && 0 <= x < Width(g) && g[y][x] == pathCharacter && InStraightRun(g, Location(x, y))
  }

  /**
   The verdict the rules call for, the first failing rule deciding: empty
   input; more than two characters other than the line feed; rows of
   unequal width; no diagonal pair of corners linked; a path-character cell
   in a straight run of four (with the annotated grid); otherwise valid.
   */
  ghost function Expected(s: string): Verdict
    requires HasCornerCells(s)
  {
    if |s| == 0 then Empty
    else if |CharSet(s)| > 2 then TooManyCharacters
    else if !Rectangular(Lines(s)) then NotRectangular
    else
      var g := Lines(s);
      match PathCharacter(g)
      case None => NoConnectedCorners
      case Some(c) =>
        if HasStraightRun(g, c) then StraightRun(Render(Annotate(g, c))) else Valid
  }

  /**
   The source's `validate_connect_the_corners` up to the message text: the
   rules applied in order, each computed the way the source computes it.
   */
  method Validate(s: string) returns (v: Verdict)
    requires HasCornerCells(s)
    ensures v == Expected(s)
  {
    if |s| == 0 {
      return Empty;
    }
    DistinctCountsCharacters(s);
    if |DistinctCharacters(s)| > 2 {
      return TooManyCharacters;
    }
    RectangleIffRowsAgree(s);
    if !Rectangle(s) {
      return NotRectangular;
    }
    var g := Lines(s);
    var pathCharacter := CharacterConnectingOppositeCorners(g);
    if pathCharacter.None? {
      return NoConnectedCorners;
    }
    var c := pathCharacter.value;
    LinesOf4FindsStraightRuns(g, c);
    match LinesOf4(c, g)
    case Some(highlighted) =>
      return StraightRun(highlighted);
    case None =>
      return Valid;
  }

  /** The detector reports a rendering exactly when some path-character cell is in a straight run. */
  lemma LinesOf4FindsStraightRuns(g: seq<string>, c: char)
    requires Rectangular(g)
    ensures LinesOf4(c, g).Some? <==> HasStraightRun(g, c)
  {
    forall y, x | 0 <= y < |g| && 0 <= x < Width(g)
      ensures InALineOf4(g, Location(x, y)) <==> InStraightRun(g, Location(x, y))
    {
      InALineOf4IffStraightRun(g, Location(x, y));
    }
  }

  /** The exported entry point: the verdict's message. */
  method ValidateConnectTheCorners(s: string) returns (msg: string)
    requires HasCornerCells(s)
    ensures msg == Message(Expected(s))
  {
    var v := Validate(s);
    msg := Message(v);
  }

  /**
   The inputs left out by `HasCornerCells` are exactly the non-empty ones
   that pass the first three rules with no character in any row, so the
   source goes on to look up a corner of an empty row.
   */
  lemma BlankRowsPassShapeRules(s: string)
    requires |s| > 0 && Width(Lines(s)) == 0
    ensures |DistinctCharacters(s)| <= 2 && Rectangle(s)
  {
    var g := Lines(s);
    assert forall i :: 0 <= i < |g| ==> g[i] == "";
    BlankRowsLeaveLineEnds(s);
    DistinctCountsCharacters(s);
    assert CharSet(s) <= {'\r'};
    if '\r' in CharSet(s) {
      assert CharSet(s) == {'\r'};
    } else {
      assert CharSet(s) == {};
    }
    RectangleIffRowsAgree(s);
  }

  /**
   A single non-line-feed character is a 1×1 grid whose corners coincide,
   so no pair of distinct corners is linked.
   */
  lemma SingleCellIsNotConnected(c: char)
    requires c != '\n'
    ensures HasCornerCells([c]) && Expected([c]) == NoConnectedCorners
  {
    var s := [c];
    assert LineEnd(s) == 1;
    assert Lines(s) == [s];
    assert CharSet(s) == {c};
    assert Width(Lines(s)) == 1;
  }

  /**
   A rectangle drawn in a single character, larger than one cell, always
   links its corners: the verdict is decided by the straight-run rule.
   */
  lemma UniformRectangleReachesRunRule(s: string, c: char)
    requires HasCornerCells(s) && Rectangular(Lines(s))
    requires forall y, x :: 0 <= y < |Lines(s)| && 0 <= x < Width(Lines(s)) ==> Lines(s)[y][x] == c
    requires Width(Lines(s)) > 1 || |Lines(s)| > 1
    ensures Expected(s) == Valid || Expected(s) == StraightRun(Render(Annotate(Lines(s), c)))
  {
    UniformRectangleIsTwoCharacters(s, c);
    UniformGridHasPathCharacter(Lines(s), c);
  }

  /** A rectangle drawn in `c` holds no character but `c` and, before a line feed, `'\r'`. */
  lemma UniformRectangleIsTwoCharacters(s: string, c: char)
    requires Rectangular(Lines(s))
    requires forall y, x :: 0 <= y < |Lines(s)| && 0 <= x < Width(Lines(s)) ==> Lines(s)[y][x] == c
    ensures |CharSet(s)| <= 2
  {
    var g := Lines(s);
    assert forall y :: 0 <= y < |g| ==> |g[y]| == Width(g);
    UniformRowsLeaveLineEnds(s, c);
    assert CharSet(s) <= {'\r', c};
    SubsetOfPairIsSmall(CharSet(s), '\r', c);
  }

  lemma SubsetOfPairIsSmall(cs: set<char>, a: char, b: char)
    requires cs <= {a, b}
    ensures |cs| <= 2
  {
    if a in cs && b in cs {
      assert cs == {a, b};
    } else if a in cs {
      assert cs == {a};
    } else if b in cs {
      assert cs == {b};
    } else {
      assert cs == {};
    }
  }
}
