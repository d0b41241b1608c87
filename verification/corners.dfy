/**
 The path character resolver: which character, if any, joins a pair of
 diagonally opposite corners of the grid.
 */
module Corners {
  import opened Wrappers
  import opened Locations
  import opened Grid
  import opened CornerSearch

  function TopLeft(g: seq<string>): Location {
    Location(0, 0)
  }

  function BottomRight(g: seq<string>): Location
    requires |g| > 0
  {
    Location(Width(g) - 1, Height(g) - 1)
  }

  function TopRight(g: seq<string>): Location
    requires |g| > 0
  {
    Location(Width(g) - 1, 0)
  }

  function BottomLeft(g: seq<string>): Location {
    Location(0, Height(g) - 1)
  }

  /** Two different cells joined by a walk over the first cell's character. */
  ghost predicate Linked(g: seq<string>, a: Location, b: Location)
    requires Rectangular(g) && InGrid(g, a)
  {
    a != b && Joined(g, a, b)
  }

  /**
   The character of the first diagonal whose corners are linked, the
   top-left/bottom-right diagonal taking priority.
   */
  ghost function PathCharacter(g: seq<string>): Option<char>
    requires Rectangular(g) && Width(g) > 0
  {
    if Linked(g, TopLeft(g), BottomRight(g)) then Some(CharAt(g, TopLeft(g)))
    else if Linked(g, TopRight(g), BottomLeft(g)) then Some(CharAt(g, TopRight(g)))
    else None
  }

  /**
   The source's `character_connecting_opposite_corners`. It searches the
   top-left/bottom-right diagonal first and answers with the top-left
   character as soon as that pair is linked; only otherwise does it search
   the top-right/bottom-left diagonal.
   */
  method CharacterConnectingOppositeCorners(g: seq<string>) returns (r: Option<char>)
    requires Rectangular(g) && Width(g) > 0
    ensures Linked(g, TopLeft(g), BottomRight(g)) ==> r == Some(CharAt(g, TopLeft(g)))
    ensures !Linked(g, TopLeft(g), BottomRight(g)) && Linked(g, TopRight(g), BottomLeft(g))
            ==> r == Some(CharAt(g, TopRight(g)))
    ensures !Linked(g, TopLeft(g), BottomRight(g)) && !Linked(g, TopRight(g), BottomLeft(g))
            ==> r == None
    ensures Width(g) == 1 && |g| == 1 ==> r == None
  {
    var topLeft, bottomRight := TopLeft(g), BottomRight(g);
    var linked := Connected(g, topLeft, bottomRight);
    if linked {
      return Some(CharAt(g, topLeft));
    }
    var topRight, bottomLeft := TopRight(g), BottomLeft(g);
    linked := Connected(g, topRight, bottomLeft);
    if linked {
      return Some(CharAt(g, topRight));
    }
    return None;
  }

  /** The walk along the top row and then down the rightmost column. */
  function TopThenRight(w: nat, h: nat): (p: seq<Location>)
    requires w > 0 && h > 0
    ensures |p| == w + h - 1
    ensures p[0] == Location(0, 0) && p[|p| - 1] == Location(w - 1, h - 1)
  {
    seq(w + h - 1, i requires 0 <= i < w + h - 1 => if i < w then Location(i, 0) else Location(w - 1, i - w + 1))
  }

  /**
   A grid that uses a single character links its top-left and bottom-right
   corners whenever they are different cells, so that character is the
   path character.
   */
  lemma UniformGridHasPathCharacter(g: seq<string>, c: char)
    requires Rectangular(g) && Width(g) > 0
    requires forall y, x :: 0 <= y < |g| && 0 <= x < Width(g) ==> g[y][x] == c
    requires Width(g) > 1 || |g| > 1
    ensures PathCharacter(g) == Some(c)
  {
    var w, h := Width(g), |g|;
    var p := TopThenRight(w, h);
    forall i | 0 <= i < |p| ensures IsPathSquare(g, c, p[i]) {
      assert 0 <= p[i].x < w && 0 <= p[i].y < h;
    }
    forall i | 0 <= i < |p| - 1 ensures Adjacent(p[i], p[i + 1]) {
      if i + 1 < w {
        assert p[i] == Location(i, 0) && p[i + 1] == Location(i + 1, 0);
      } else {
        assert p[i + 1] == Location(w - 1, i + 2 - w);
      }
    }
    assert IsPathOf(g, CharAt(g, TopLeft(g)), p);
    assert Linked(g, TopLeft(g), BottomRight(g));
  }
}
