/**
 Grid addresses and the offsets between them. Coordinates are unbounded
 integers: every coordinate the validator builds is bounded by the input
 length, so the source's `isize` never overflows.
 */
module Locations {

  /** A grid address: column `x` from the left, row `y` from the top. */
  datatype Location = Location(x: int, y: int) {

    /** The address reached by moving this location by `o`. */
    function Plus(o: Offset): Location {
      Location(x + o.x, y + o.y)
    }
  }

  /** A displacement between two grid addresses. */
  datatype Offset = Offset(x: int, y: int) {

    /** This displacement repeated `n` times. */
    function Times(n: int): Offset {
      Offset(x * n, y * n)
    }
  }

  const Left := Offset(-1, 0)
  const Right := Offset(1, 0)
  const Up := Offset(0, -1)
  const Down := Offset(0, 1)

  /** The four unit offsets, in the order the wavefront search tries them. */
  const Orthogonal: seq<Offset> := [Left, Right, Up, Down]

  /** Two addresses one unit apart along exactly one axis. */
  predicate Adjacent(a: Location, b: Location) {
    || (a.x == b.x && (a.y - b.y == 1 || b.y - a.y == 1))
    || (a.y == b.y && (a.x - b.x == 1 || b.x - a.x == 1))
  }

  /** Orthogonal adjacency is exactly "one of the four unit offsets away". */
  lemma AdjacentIffOrthogonalStep(a: Location, b: Location)
    ensures Adjacent(a, b) <==> exists k :: 0 <= k < 4 && b == a.Plus(Orthogonal[k])
  {
    if Adjacent(a, b) {
      var k := StepIndex(a, b);
    }
  }

  /** The index into `Orthogonal` of the step from `a` to an adjacent `b`. */
  lemma StepIndex(a: Location, b: Location) returns (k: nat)
    requires Adjacent(a, b)
    ensures k < 4 && b == a.Plus(Orthogonal[k])
  {
    if b.x == a.x - 1 { k := 0; }
    else if b.x == a.x + 1 { k := 1; }
    else if b.y == a.y - 1 { k := 2; }
    else { k := 3; }
  }

  /** Each of the four unit offsets leads to an adjacent address. */
  lemma OrthogonalStepIsAdjacent(a: Location, k: nat)
    requires k < 4
    ensures Adjacent(a, a.Plus(Orthogonal[k]))
  {
  }
}
