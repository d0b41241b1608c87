/**
 The straight-run detector: how many cells in a row, in one direction, repeat
 a cell's character, and whether a cell sits in a horizontal or vertical run
 of four.
 */
module Runs {
  import opened Locations
  import opened Grid

  /** An in-grid cell holding `c`. */
  predicate Matches(g: seq<string>, l: Location, c: char)
    requires Rectangular(g)
  {
    InGrid(g, l) && CharAt(g, l) == c
  }

  /**
   The bounded walk from step `n` up to step 3: how many steps in a row,
   starting at step `n`, land on a cell holding `c`.
   */
  function Walk(g: seq<string>, o: Offset, l: Location, c: char, n: nat): (r: nat)
    requires Rectangular(g) && 1 <= n <= 4
    ensures n + r <= 4
    ensures forall m :: n <= m < n + r ==> Matches(g, l.Plus(o.Times(m)), c)
    ensures n + r <= 3 ==> !Matches(g, l.Plus(o.Times(n + r)), c)
    decreases 4 - n
  {
    if n > 3 then 0
    else if Matches(g, l.Plus(o.Times(n)), c) then 1 + Walk(g, o, l, c, n + 1)
    else 0
  }

  /**
   The source's `same_with_offset`: the number of consecutive cells after
   `l` in direction `o`, at most three, that hold the character of `l`; it
   stops at the first cell that differs or lies outside the grid.
   */
  function SameWithOffset(g: seq<string>, o: Offset, l: Location): (r: nat)
    requires Rectangular(g) && InGrid(g, l)
    ensures r <= 3
    ensures forall m :: 1 <= m <= r ==> Matches(g, l.Plus(o.Times(m)), CharAt(g, l))
    ensures r < 3 ==> !Matches(g, l.Plus(o.Times(r + 1)), CharAt(g, l))
  {
    Walk(g, o, l, CharAt(g, l), 1)
  }

  /** The source's `in_a_line_of_4`: three more equal cells along one axis. */
  predicate InALineOf4(g: seq<string>, l: Location)
    requires Rectangular(g) && InGrid(g, l)
  {
    || SameWithOffset(g, Left, l) + SameWithOffset(g, Right, l) >= 3
    || SameWithOffset(g, Up, l) + SameWithOffset(g, Down, l) >= 3
  }

  /**
   The four cells `l + d·o` for `d` from `-a` to `3 - a`, a window along `o`
   that starts `a` steps behind `l`, all hold `c`.
   */
  ghost predicate Window(g: seq<string>, l: Location, o: Offset, a: int, c: char)
    requires Rectangular(g)
  {
    forall d :: -a <= d <= 3 - a ==> Matches(g, l.Plus(o.Times(d)), c)
  }

  /** Some window of four cells along `o`, all holding the character of `l`, covers `l`. */
  ghost predicate RunOfFourThrough(g: seq<string>, l: Location, o: Offset)
    requires Rectangular(g) && InGrid(g, l)
  {
    exists a :: 0 <= a <= 3 && Window(g, l, o, a, CharAt(g, l))
  }

  /** A cell lies in a straight run of four equal cells, horizontal or vertical. */
  ghost predicate InStraightRun(g: seq<string>, l: Location)
    requires Rectangular(g) && InGrid(g, l)
  {
    RunOfFourThrough(g, l, Right) || RunOfFourThrough(g, l, Down)
  }

  /** Stepping back `m` times is stepping forward `-m` times. */
  lemma BackIsNegatedForward(l: Location, back: Offset, o: Offset)
    requires (back, o) == (Left, Right) || (back, o) == (Up, Down)
    ensures forall m :: l.Plus(back.Times(m)) == l.Plus(o.Times(-m))
  {
  }

  /** Three equal cells counted along an axis form a window of four that starts at the back end. */
  lemma CountsGiveWindow(g: seq<string>, l: Location, back: Offset, o: Offset)
    requires Rectangular(g) && InGrid(g, l)
    requires (back, o) == (Left, Right) || (back, o) == (Up, Down)
    requires SameWithOffset(g, back, l) + SameWithOffset(g, o, l) >= 3
    ensures Window(g, l, o, SameWithOffset(g, back, l), CharAt(g, l))
  {
    var c := CharAt(g, l);
    var b := SameWithOffset(g, back, l);
    BackIsNegatedForward(l, back, o);
    forall d: int | -b <= d <= 3 - b ensures Matches(g, l.Plus(o.Times(d)), c) {
      if d < 0 {
        assert l.Plus(o.Times(d)) == l.Plus(back.Times(-d));
      } else if d == 0 {
        assert l.Plus(o.Times(d)) == l;
      }
    }
  }

  /** A window of four equal cells starting `a` steps back makes both counts long enough. */
  lemma WindowGivesCounts(g: seq<string>, l: Location, back: Offset, o: Offset, a: int)
    requires Rectangular(g) && InGrid(g, l)
    requires (back, o) == (Left, Right) || (back, o) == (Up, Down)
    requires 0 <= a <= 3 && Window(g, l, o, a, CharAt(g, l))
    ensures SameWithOffset(g, back, l) >= a && SameWithOffset(g, o, l) >= 3 - a
  {
    var c := CharAt(g, l);
    BackIsNegatedForward(l, back, o);
    forall m | 1 <= m <= a ensures Matches(g, l.Plus(back.Times(m)), c) {
      assert l.Plus(o.Times(-m)) == l.Plus(back.Times(m));
    }
    var b, f := SameWithOffset(g, back, l), SameWithOffset(g, o, l);
    assert b >= a;
    assert f >= 3 - a;
  }

  /**
   Counting both ways along one axis finds three more equal cells exactly
   when a window of four equal cells along that axis covers the cell.
   */
  lemma AxisCountIffWindow(g: seq<string>, l: Location, back: Offset, o: Offset)
    requires Rectangular(g) && InGrid(g, l)
    requires (back, o) == (Left, Right) || (back, o) == (Up, Down)
    ensures SameWithOffset(g, back, l) + SameWithOffset(g, o, l) >= 3 <==> RunOfFourThrough(g, l, o)
  {
    if SameWithOffset(g, back, l) + SameWithOffset(g, o, l) >= 3 {
      CountsGiveWindow(g, l, back, o);
    }
    if RunOfFourThrough(g, l, o) {
      var a :| 0 <= a <= 3 && Window(g, l, o, a, CharAt(g, l));
      WindowGivesCounts(g, l, back, o, a);
    }
  }

  /** The detector's test is exactly "lies in a straight run of four". */
  lemma InALineOf4IffStraightRun(g: seq<string>, l: Location)
    requires Rectangular(g) && InGrid(g, l)
    ensures InALineOf4(g, l) <==> InStraightRun(g, l)
  {
    AxisCountIffWindow(g, l, Left, Right);
    AxisCountIffWindow(g, l, Up, Down);
  }
}
