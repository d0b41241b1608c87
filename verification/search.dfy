/**
 The corner connectivity search: a breadth-first wavefront that spreads from
 a start cell through orthogonally adjacent cells holding the start cell's
 character, drawing each cell from a shrinking pool of unvisited candidates.
 */
module CornerSearch {
  import opened Locations
  import opened Grid

  /** An in-grid cell holding `c`. */
  predicate IsPathSquare(g: seq<string>, c: char, l: Location)
    requires Rectangular(g)
  {
    InGrid(g, l) && CharAt(g, l) == c
  }

  /** `p` is a walk of orthogonal steps over cells that all hold `c`. */
  ghost predicate IsPathOf(g: seq<string>, c: char, p: seq<Location>)
    requires Rectangular(g)
  {
    && |p| > 0
    && (forall i :: 0 <= i < |p| ==> IsPathSquare(g, c, p[i]))
    && (forall i :: 0 <= i < |p| - 1 ==> Adjacent(p[i], p[i + 1]))
  }

  /** Some walk over cells holding the start cell's character leads from `start` to `finish`. */
  ghost predicate Joined(g: seq<string>, start: Location, finish: Location)
    requires Rectangular(g) && InGrid(g, start)
  {
    exists p :: IsPathOf(g, CharAt(g, start), p) && p[0] == start && p[|p| - 1] == finish
  }

  /**
   The candidate pool, gathered row by row: every cell other than `start`
   that holds the start cell's character.
   */
  method PotentialPathSquares(g: seq<string>, start: Location) returns (pool: set<Location>)
    requires Rectangular(g) && InGrid(g, start)
    ensures forall l :: l in pool <==> l != start && IsPathSquare(g, CharAt(g, start), l)
  {
    var c := CharAt(g, start);
    pool := {};
    var y := 0;
    while y < Height(g)
      invariant 0 <= y <= Height(g)
      invariant forall l :: l in pool <==> l != start && IsPathSquare(g, c, l) && l.y < y
    {
      var x := 0;
      while x < Width(g)
        invariant 0 <= x <= Width(g)
        invariant forall l :: l in pool <==>
          l != start && IsPathSquare(g, c, l) && (l.y < y || (l.y == y && l.x < x))
      {
        var l := Location(x, y);
        if l != start && CharAt(g, l) == c {
          pool := pool + {l};
        }
        x := x + 1;
      }
      y := y + 1;
    }
  }

  /** Every cell one orthogonal step away from some cell of the wavefront. */
  function NeighbourSet(wavefront: seq<Location>): set<Location> {
    set j, k | 0 <= j < |wavefront| && 0 <= k < 4 :: wavefront[j].Plus(Orthogonal[k])
  }

  lemma InNeighbourSet(wavefront: seq<Location>, j: nat, k: nat)
    requires j < |wavefront| && k < 4
    ensures wavefront[j].Plus(Orthogonal[k]) in NeighbourSet(wavefront)
  {
  }

  /**
   One round of the wavefront: every neighbour of a wavefront cell that is
   still in the pool is taken out of it and queued for the next round. The
   round reports `found` as soon as the taken cell is `finish`.
   */
  method NextWave(wavefront: seq<Location>, pool: set<Location>, finish: Location)
    returns (found: bool, next: seq<Location>, rest: set<Location>)
    ensures found <==> finish in pool && finish in NeighbourSet(wavefront)
    ensures !found ==> forall l :: l in next ==> l in pool && l in NeighbourSet(wavefront)
    ensures !found ==> forall l :: l in NeighbourSet(wavefront) ==> l !in rest
    ensures !found ==> forall l :: l in rest <==> l in pool && l !in next
    ensures !found ==> NoRepeats(next) && |rest| + |next| == |pool|
  {
    found, next, rest := false, [], pool;
    var i := 0;
    while i < |wavefront|
      invariant 0 <= i <= |wavefront|
      invariant rest <= pool
      invariant forall l :: l in next ==> l in pool && l !in rest && l in NeighbourSet(wavefront) && l != finish
      invariant forall l :: l in pool && l !in rest ==> l in next
      invariant NoRepeats(next) && |rest| + |next| == |pool|
      invariant forall j, k :: 0 <= j < i && 0 <= k < 4 ==> wavefront[j].Plus(Orthogonal[k]) !in rest
    {
      var square := wavefront[i];
      var k := 0;
      while k < 4
        invariant 0 <= k <= 4
        invariant rest <= pool
        invariant forall l :: l in next ==> l in pool && l !in rest && l in NeighbourSet(wavefront) && l != finish
        invariant forall l :: l in pool && l !in rest ==> l in next
        invariant NoRepeats(next) && |rest| + |next| == |pool|
        invariant forall j, k :: 0 <= j < i && 0 <= k < 4 ==> wavefront[j].Plus(Orthogonal[k]) !in rest
        invariant forall k' :: 0 <= k' < k ==> square.Plus(Orthogonal[k']) !in rest
      {
        var candidate := square.Plus(Orthogonal[k]);
        InNeighbourSet(wavefront, i, k);
        if candidate in rest {
          if candidate == finish {
            found := true;
            return;
          }
          next := next + [candidate];
          rest := rest - {candidate};
        }
        k := k + 1;
      }
      i := i + 1;
    }
  }

  predicate NoRepeats(ls: seq<Location>) {
    forall i, j :: 0 <= i < j < |ls| ==> ls[i] != ls[j]
  }

  /** A cell already taken from the pool (or the start cell, never in it). */
  predicate Reached(g: seq<string>, c: char, pool: set<Location>, l: Location)
    requires Rectangular(g)
  {
    IsPathSquare(g, c, l) && l !in pool
  }

  /** None of the four neighbours of `l` is still in the pool. */
  predicate Settled(l: Location, pool: set<Location>) {
    forall k :: 0 <= k < 4 ==> l.Plus(Orthogonal[k]) !in pool
  }

  /** A walk that starts at `start` and takes one more orthogonal step still joins. */
  lemma JoinedStep(g: seq<string>, start: Location, a: Location, b: Location)
    requires Rectangular(g) && InGrid(g, start)
    requires Joined(g, start, a) && Adjacent(a, b) && IsPathSquare(g, CharAt(g, start), b)
    ensures Joined(g, start, b)
  {
    var c := CharAt(g, start);
    var p :| IsPathOf(g, c, p) && p[0] == start && p[|p| - 1] == a;
    var q := p + [b];
    assert forall i :: 0 <= i < |p| ==> q[i] == p[i];
    assert IsPathOf(g, c, q);
  }

  /** A walk over cells of one character ends on a cell of that character. */
  lemma JoinedEndsOnPathSquare(g: seq<string>, start: Location, finish: Location)
    requires Rectangular(g) && InGrid(g, start)
    requires Joined(g, start, finish)
    ensures IsPathSquare(g, CharAt(g, start), finish)
  {
    var p :| IsPathOf(g, CharAt(g, start), p) && p[0] == start && p[|p| - 1] == finish;
  }

  /**
   Once every reached cell has all its neighbours out of the pool, no walk
   from a reached cell can leave the reached region.
   */
  lemma {:induction false} ClosedRegionHoldsWalks(g: seq<string>, c: char, pool: set<Location>, p: seq<Location>)
    requires Rectangular(g)
    requires IsPathOf(g, c, p) && Reached(g, c, pool, p[0])
    requires forall l :: Reached(g, c, pool, l) ==> Settled(l, pool)
    ensures Reached(g, c, pool, p[|p| - 1])
    decreases |p|
  {
    if |p| > 1 {
      var front := p[..|p| - 1];
      assert forall i :: 0 <= i < |front| ==> front[i] == p[i];
      assert IsPathOf(g, c, front);
      ClosedRegionHoldsWalks(g, c, pool, front);
      var k := StepIndex(p[|p| - 2], p[|p| - 1]);
    }
  }

  /**
   What holds between rounds of the search: the pool only holds candidates,
   every reached cell is joined to `start`, `finish` has not been reached
   (unless it is `start`), and only wavefront cells may still have
   neighbours in the pool.
   */
  ghost predicate WaveInvariant(g: seq<string>, start: Location, finish: Location,
                                pool: set<Location>, wavefront: seq<Location>)
    requires Rectangular(g) && InGrid(g, start)
  {
    var c := CharAt(g, start);
    && (forall l :: l in pool ==> l != start && IsPathSquare(g, c, l))
    && |wavefront| > 0
    && (forall j :: 0 <= j < |wavefront| ==> Reached(g, c, pool, wavefront[j]))
    && (forall l :: Reached(g, c, pool, l) ==> Joined(g, start, l))
    && (Reached(g, c, pool, finish) ==> finish == start)
    && (forall l :: Reached(g, c, pool, l) && l !in wavefront ==> Settled(l, pool))
  }

  lemma InitialWave(g: seq<string>, start: Location, finish: Location, pool: set<Location>)
    requires Rectangular(g) && InGrid(g, start)
    requires forall l :: l in pool <==> l != start && IsPathSquare(g, CharAt(g, start), l)
    ensures WaveInvariant(g, start, finish, pool, [start])
  {
    var c := CharAt(g, start);
    assert IsPathOf(g, c, [start]);
    forall l | Reached(g, c, pool, l) ensures Joined(g, start, l) {
      assert l == start;
    }
  }

  /** A pool cell next to the wavefront is joined to `start`. */
  lemma WaveFound(g: seq<string>, start: Location, finish: Location,
                  pool: set<Location>, wavefront: seq<Location>, l: Location)
    requires Rectangular(g) && InGrid(g, start)
    requires WaveInvariant(g, start, finish, pool, wavefront)
    requires l in pool && l in NeighbourSet(wavefront)
    ensures l != start && Joined(g, start, l)
  {
    var j, k :| 0 <= j < |wavefront| && 0 <= k < 4 && l == wavefront[j].Plus(Orthogonal[k]);
    OrthogonalStepIsAdjacent(wavefront[j], k);
    JoinedStep(g, start, wavefront[j], l);
  }

  /** A round that queues nothing leaves `finish` unjoined (or equal to `start`). */
  lemma WaveExhausted(g: seq<string>, start: Location, finish: Location,
                      pool: set<Location>, wavefront: seq<Location>)
    requires Rectangular(g) && InGrid(g, start)
    requires WaveInvariant(g, start, finish, pool, wavefront)
    requires forall l :: l in NeighbourSet(wavefront) ==> l !in pool
    ensures !(finish != start && Joined(g, start, finish))
  {
    var c := CharAt(g, start);
    forall l | Reached(g, c, pool, l) ensures Settled(l, pool) {
      if j :| 0 <= j < |wavefront| && wavefront[j] == l {
        forall k | 0 <= k < 4 ensures l.Plus(Orthogonal[k]) !in pool {
          InNeighbourSet(wavefront, j, k);
        }
      }
    }
    if finish != start && Joined(g, start, finish) {
      var p :| IsPathOf(g, c, p) && p[0] == start && p[|p| - 1] == finish;
      ClosedRegionHoldsWalks(g, c, pool, p);
    }
  }

  /** A round that queues cells keeps the invariant for the next round. */
  lemma WaveAdvances(g: seq<string>, start: Location, finish: Location,
                     pool: set<Location>, wavefront: seq<Location>,
                     next: seq<Location>, rest: set<Location>)
    requires Rectangular(g) && InGrid(g, start)
    requires WaveInvariant(g, start, finish, pool, wavefront)
    requires !(finish in pool && finish in NeighbourSet(wavefront))
    requires forall l :: l in next ==> l in pool && l in NeighbourSet(wavefront)
    requires forall l :: l in NeighbourSet(wavefront) ==> l !in rest
    requires forall l :: l in rest <==> l in pool && l !in next
    requires |next| > 0
    ensures WaveInvariant(g, start, finish, rest, next)
  {
    var c := CharAt(g, start);
    forall l | Reached(g, c, rest, l) ensures Joined(g, start, l) {
      if l in next {
        WaveFound(g, start, finish, pool, wavefront, l);
      }
    }
    forall l | Reached(g, c, rest, l) && l !in next ensures Settled(l, rest) {
      if j :| 0 <= j < |wavefront| && wavefront[j] == l {
        forall k | 0 <= k < 4 ensures l.Plus(Orthogonal[k]) !in rest {
          InNeighbourSet(wavefront, j, k);
        }
      } else {
        assert l !in wavefront && Reached(g, c, pool, l);
        assert Settled(l, pool);
      }
    }
  }

  /**
   The source's `connected`: the wavefront search from `start`, true exactly
   when `finish` is a different cell that a walk over cells of the start
   cell's character reaches.
   */
  method Connected(g: seq<string>, start: Location, finish: Location) returns (r: bool)
    requires Rectangular(g) && InGrid(g, start)
    ensures r <==> finish != start && Joined(g, start, finish)
    ensures r ==> IsPathSquare(g, CharAt(g, start), finish)
  {
    var pool := PotentialPathSquares(g, start);
    var wavefront := [start];
    InitialWave(g, start, finish, pool);
    while true
      invariant WaveInvariant(g, start, finish, pool, wavefront)
      decreases |pool|
    {
      var found, next, rest := NextWave(wavefront, pool, finish);
      if found {
        WaveFound(g, start, finish, pool, wavefront, finish);
        JoinedEndsOnPathSquare(g, start, finish);
        return true;
      }
      if |next| == 0 {
        assert forall l :: l in rest <==> l in pool;
        WaveExhausted(g, start, finish, pool, wavefront);
        return false;
      }
      WaveAdvances(g, start, finish, pool, wavefront, next, rest);
      pool, wavefront := rest, next;
    }
  }
}
