/**
 The grid model: how the input text is cut into rows, how wide and tall the
 grid is, whether it is a rectangle, which characters it uses, and the
 character at an address.
 */
module Grid {
  import opened Locations

  /** The index of the first line feed in `s`, or `|s|` when there is none. */
  function LineEnd(s: string): (i: nat)
    ensures i <= |s|
    ensures forall j :: 0 <= j < i ==> s[j] != '\n'
    ensures i < |s| ==> s[i] == '\n'
  {
    if |s| == 0 || s[0] == '\n' then 0 else 1 + LineEnd(s[1..])
  }

  /** A line that ended in a carriage return and line feed loses the carriage return. */
  function StripCarriageReturn(line: string): string {
    if |line| > 0 && line[|line| - 1] == '\r' then line[..|line| - 1] else line
  }

  /**
   The rows of `s` as Rust's `str::lines` yields them: split at each line
   feed, a carriage return directly before a line feed dropped, and no empty
   row after a final line feed. A carriage return that ends the last segment
   without a line feed is kept.
   */
  function Lines(s: string): (rows: seq<string>)
    ensures |rows| == 0 <==> |s| == 0
    ensures forall i :: 0 <= i < |rows| ==> '\n' !in rows[i]
    decreases |s|
  {
    if |s| == 0 then []
    else
      var i := LineEnd(s);
      if i == |s| then [s]
      else [StripCarriageReturn(s[..i])] + Lines(s[i + 1..])
  }

  lemma {:induction false} LineEndSkipsLine(line: string, rest: string)
    requires '\n' !in line
    ensures LineEnd(line + rest) == |line| + LineEnd(rest)
    decreases |line|
  {
    if |line| > 0 {
      assert (line + rest)[1..] == line[1..] + rest;
      LineEndSkipsLine(line[1..], rest);
    } else {
      assert line + rest == rest;
    }
  }

  /** A line followed by a line feed becomes the first row; the rest of the input gives the others. */
  lemma LinesOfLineThenRest(line: string, rest: string)
    requires '\n' !in line
    ensures Lines(line + "\n" + rest) == [StripCarriageReturn(line)] + Lines(rest)
  {
    var s := line + "\n" + rest;
    LineEndSkipsLine(line, "\n" + rest);
    assert s == line + ("\n" + rest);
    assert s[..|line|] == line && s[|line| + 1..] == rest;
  }

  /** Text without a line feed is a single row. */
  lemma LinesOfOneLine(line: string)
    requires '\n' !in line && |line| > 0
    ensures Lines(line) == [line]
  {
    LineEndSkipsLine(line, "");
    assert line + "" == line;
  }

  /** Rows joined back with line feeds. */
  function Unlines(rows: seq<string>): string {
    if |rows| == 0 then ""
    else if |rows| == 1 then rows[0]
    else rows[0] + "\n" + Unlines(rows[1..])
  }

  /**
   Without carriage returns, splitting into rows loses nothing but a final
   line feed: joining the rows again gives back the input, less that line feed.
   */
  lemma {:induction false} LinesRoundTrip(s: string)
    requires '\r' !in s
    ensures Unlines(Lines(s)) == if |s| > 0 && s[|s| - 1] == '\n' then s[..|s| - 1] else s
    decreases |s|
  {
    if |s| > 0 && LineEnd(s) < |s| {
      var i := LineEnd(s);
      var line, rest := s[..i], s[i + 1..];
      assert s == line + "\n" + rest;
      assert '\n' !in line && '\r' !in line && '\r' !in rest;
      LinesOfLineThenRest(line, rest);
      assert StripCarriageReturn(line) == line;
      LinesRoundTrip(rest);
      if |rest| > 0 {
        UnlinesCons(line, Lines(rest));
        LastOfJoin(line, rest);
      }
    }
  }

  lemma UnlinesCons(a: string, rows: seq<string>)
    requires |rows| > 0
    ensures Unlines([a] + rows) == a + "\n" + Unlines(rows)
  {
    assert ([a] + rows)[1..] == rows;
  }

  lemma LastOfJoin(line: string, rest: string)
    requires |rest| > 0
    ensures var s := line + "\n" + rest;
      && s[|s| - 1] == rest[|rest| - 1]
      && s[..|s| - 1] == line + "\n" + rest[..|rest| - 1]
  {
  }

  /**
   Rows that all come out empty leave nothing in the input but line feeds
   and the carriage returns dropped before them.
   */
  lemma {:induction false} BlankRowsLeaveLineEnds(s: string)
    requires forall i :: 0 <= i < |Lines(s)| ==> Lines(s)[i] == ""
    ensures forall j :: 0 <= j < |s| ==> s[j] == '\n' || s[j] == '\r'
    decreases |s|
  {
    if |s| > 0 {
      var i := LineEnd(s);
      assert Lines(s)[0] == if i == |s| then s else StripCarriageReturn(s[..i]);
      assert i < |s|;
      var line, rest := s[..i], s[i + 1..];
      assert Lines(s) == [StripCarriageReturn(line)] + Lines(rest);
      assert StripCarriageReturn(line) == Lines(s)[0] == "";
      assert forall k :: 0 <= k < |Lines(rest)| ==> Lines(rest)[k] == Lines(s)[k + 1];
      BlankRowsLeaveLineEnds(rest);
      forall j | 0 <= j < |s| ensures s[j] == '\n' || s[j] == '\r' {
        if j < i {
          assert line[j] == s[j];
        } else if j > i {
          assert s[j] == rest[j - i - 1];
        }
      }
    }
  }

  /**
   When every row holds only `c`, the input holds nothing but `c`, line
   feeds and the carriage returns dropped before them.
   */
  lemma {:induction false} UniformRowsLeaveLineEnds(s: string, c: char)
    requires forall y, x :: 0 <= y < |Lines(s)| && 0 <= x < |Lines(s)[y]| ==> Lines(s)[y][x] == c
    ensures forall j :: 0 <= j < |s| ==> s[j] == '\n' || s[j] == '\r' || s[j] == c
    decreases |s|
  {
    if |s| > 0 {
      var i := LineEnd(s);
      if i == |s| {
        assert Lines(s)[0] == s;
      } else {
        var line, rest := s[..i], s[i + 1..];
        assert s == line + "\n" + rest;
        LinesOfLineThenRest(line, rest);
        var rows := Lines(s);
        assert rows[0] == StripCarriageReturn(line);
        RowCharacters(line, c);
        assert forall y :: 0 <= y < |Lines(rest)| ==> Lines(rest)[y] == rows[y + 1];
        UniformRowsLeaveLineEnds(rest, c);
        forall j | 0 <= j < |s| ensures s[j] == '\n' || s[j] == '\r' || s[j] == c {
          if j < i {
            assert s[j] == line[j];
          } else if j > i {
            assert s[j] == rest[j - i - 1];
          }
        }
      }
    }
  }

  /** A segment whose row holds only `c` holds only `c` and perhaps a dropped carriage return. */
  lemma RowCharacters(line: string, c: char)
    requires forall x :: 0 <= x < |StripCarriageReturn(line)| ==> StripCarriageReturn(line)[x] == c
    ensures forall j :: 0 <= j < |line| ==> line[j] == '\r' || line[j] == c
  {
    var row := StripCarriageReturn(line);
    forall j | 0 <= j < |line| ensures line[j] == '\r' || line[j] == c {
      if j < |row| {
        assert line[j] == row[j];
      }
    }
  }

  /** The character count of every row, in row order. */
  function Widths(g: seq<string>): (ws: seq<nat>)
    ensures |ws| == |g|
    ensures forall i :: 0 <= i < |g| ==> ws[i] == |g[i]|
  {
    seq(|g|, i requires 0 <= i < |g| => |g[i]|)
  }

  /** The widest row's character count; the grid's `width`. */
  function MaxWidth(g: seq<string>): (w: nat)
    requires |g| > 0
    ensures w in Widths(g)
    ensures forall i :: 0 <= i < |g| ==> |g[i]| <= w
  {
    if |g| == 1 then |g[0]|
    else
      var w' := MaxWidth(g[1..]);
      assert forall i :: 1 <= i < |g| ==> Widths(g)[i] == Widths(g[1..])[i - 1];
      if |g[0]| >= w' then |g[0]| else w'
  }

  /** The narrowest row's character count. */
  function MinWidth(g: seq<string>): (w: nat)
    requires |g| > 0
    ensures w in Widths(g)
    ensures forall i :: 0 <= i < |g| ==> w <= |g[i]|
  {
    if |g| == 1 then |g[0]|
    else
      var w' := MinWidth(g[1..]);
      assert forall i :: 1 <= i < |g| ==> Widths(g)[i] == Widths(g[1..])[i - 1];
      if |g[0]| <= w' then |g[0]| else w'
  }

  function Width(g: seq<string>): nat
    requires |g| > 0
  {
    MaxWidth(g)
  }

  /** The number of rows; the grid's `height`. */
  function Height(g: seq<string>): nat {
    |g|
  }

  /** The source's shape test: the narrowest and the widest row agree. */
  predicate Rectangle(s: string)
    requires |s| > 0
  {
    var g := Lines(s);
    MinWidth(g) == MaxWidth(g)
  }

  /** A non-empty grid whose every row is exactly as wide as the grid. */
  predicate Rectangular(g: seq<string>) {
    |g| > 0 && forall i :: 0 <= i < |g| ==> |g[i]| == Width(g)
  }

  /** Comparing the extreme widths decides exactly whether all rows have one width. */
  lemma RectangleIffRowsAgree(s: string)
    requires |s| > 0
    ensures Rectangle(s) <==> Rectangular(Lines(s))
    ensures Rectangle(s) <==> forall i, j :: 0 <= i < j < |Lines(s)| ==> |Lines(s)[i]| == |Lines(s)[j]|
  {
    var g := Lines(s);
    if !Rectangle(s) {
      var lo :| 0 <= lo < |g| && Widths(g)[lo] == MinWidth(g);
      var hi :| 0 <= hi < |g| && Widths(g)[hi] == MaxWidth(g);
      if lo < hi {
        assert |g[lo]| != |g[hi]|;
      } else {
        assert |g[hi]| != |g[lo]|;
      }
    }
  }

  /** The input with every line feed removed. */
  function RemoveLineFeeds(s: string): (r: string)
    ensures forall c :: c in r <==> c in s && c != '\n'
  {
    if |s| == 0 then ""
    else if s[0] == '\n' then RemoveLineFeeds(s[1..])
    else [s[0]] + RemoveLineFeeds(s[1..])
  }

  predicate NoDuplicates(xs: string) {
    forall i, j :: 0 <= i < j < |xs| ==> xs[i] != xs[j]
  }

  /** `xs` with every repeat of an earlier element dropped, first occurrences kept in order. */
  function Unique(xs: string): (r: string)
    ensures NoDuplicates(r)
    ensures forall x :: x in r <==> x in xs
    ensures |r| <= |xs|
  {
    if |xs| == 0 then []
    else
      var r' := Unique(xs[..|xs| - 1]);
      var last := xs[|xs| - 1];
      assert xs == xs[..|xs| - 1] + [last];
      if last in r' then r' else r' + [last]
  }

  /** The characters the input uses, line feeds aside, each once. */
  function DistinctCharacters(s: string): seq<char> {
    Unique(RemoveLineFeeds(s))
  }

  /** The set of characters of `s` other than the line feed. */
  function CharSet(s: string): set<char> {
    set c | c in s && c != '\n'
  }

  lemma {:induction false} NoDuplicatesCardinality(xs: string)
    requires NoDuplicates(xs)
    ensures |set x | x in xs| == |xs|
  {
    if |xs| > 0 {
      var tail := xs[1..];
      NoDuplicatesCardinality(tail);
      assert (set x | x in xs) == {xs[0]} + (set x | x in tail);
      assert xs[0] !in (set x | x in tail);
    }
  }

  /**
   The deduplicated list has no repeats and holds exactly the input's
   characters other than the line feed, so its length counts them.
   */
  lemma DistinctCountsCharacters(s: string)
    ensures NoDuplicates(DistinctCharacters(s))
    ensures forall c :: c in DistinctCharacters(s) <==> c in s && c != '\n'
    ensures |DistinctCharacters(s)| == |CharSet(s)|
  {
    var d := DistinctCharacters(s);
    NoDuplicatesCardinality(d);
    assert (set x | x in d) == CharSet(s);
  }

  /** The source's `within_grid`: inside the widest row's columns and the rows. */
  predicate InGrid(g: seq<string>, l: Location)
    requires |g| > 0
  {
    0 <= l.x < Width(g) && 0 <= l.y < Height(g)
  }

  /** The character in row `l.y`, column `l.x`. */
  function CharAt(g: seq<string>, l: Location): char
    requires 0 <= l.y < |g| && 0 <= l.x < |g[l.y]|
  {
    g[l.y][l.x]
  }
}
