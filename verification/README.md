# Connect-the-corners validator, modelled in Dafny

The validator takes a block of text and decides whether it is a valid
"connect the corners" grid. The text must be non-empty and use at most two
characters, and its rows must all be the same width. One diagonal pair of
corners must be joined by a same-character path of orthogonal steps. No
path-character cell may sit in a horizontal or vertical run of four. The
first rule that fails gives the verdict. A straight-run failure also echoes
the grid with the offending cells emphasised.

The model follows `src/lib.rs` one component at a time:

- `locations.dfy` (`Locations`): grid addresses, offsets, the four orthogonal steps in the source's order, and adjacency.
- `grid.dfy` (`Grid`): the rows as Rust's `str::lines` produces them, row widths, the rectangle test, order-preserving deduplication of the characters, `character_at` and `within_grid`.
- `search.dfy` (`CornerSearch`): the breadth-first wavefront search.
  - The candidate pool is a `set<Location>`, and the wavefront is a sequence.
  - One round of the search is the method `NextWave`.
  - `Connected` repeats rounds, with the pool's size as the termination measure.
  - Its contract is stated against an independent definition, `Joined`: some walk of orthogonal steps over cells of the start character leads from start to finish.
- `corners.dfy` (`Corners`): which diagonal's corners are linked, with the top-left/bottom-right pair tried first.
- `runs.dfy` (`Runs`): the bounded run count in one direction (at most 3 steps), and "in a line of 4". The latter is proved equal to "some window of four equal cells along one axis covers the cell".
- `render.dfy` (`Rendering`): the annotated echo, as abstract tokens (glyph, emphasis on/off, row break). `Markup` spells these out as `<b>`, `</b>` and `<br>`.
- `validator.dfy` (`Validator`): the ordered rules and the exact message strings. `Expected` is the verdict defined from the reference definitions. `Validate` is proved to compute it.
- `scenarios.dfy` (`Scenarios`): the verdicts for the inputs `"AAAA"`, a 3×3 L-shaped path, three distinct characters and ragged rows.

Two behaviours of the code are kept as they are:

- A 1×1 grid never has connected corners. Its start cell is left out of the candidate pool, so the finish cell, which is the same cell, is never found. The input `"A"` therefore gets the "not 2 diagonally opposite corners connected" verdict, even though one might expect a single cell to connect to itself.
- Input that is non-empty but has only empty rows (for example `"\n"`) passes the first three rules. The code then reads a character of an empty row and panics. `Validate` therefore requires `HasCornerCells`. `BlankRowsPassShapeRules` proves that the inputs this excludes are exactly those that reach the corner search with no cells.

## Model

| member | source | states |
|---|---|---|
| Locations.AdjacentIffOrthogonalStep | src/lib.rs:140-141 | a neighbour reached by one of the four unit offsets is exactly an address one unit away along one axis |
| Grid.Lines | src/lib.rs:61-63 | the input has at least one row exactly when it is non-empty (so the width `unwrap`s cannot fail), and no row contains a line feed |
| Grid.LinesOfLineThenRest | src/lib.rs:61-63 | a line ended by a line feed becomes the first row, without a carriage return that directly precedes the line feed, and the rest of the input gives the remaining rows |
| Grid.LinesOfOneLine | src/lib.rs:61-63 | non-empty text without a line feed is a single row |
| Grid.LinesRoundTrip | src/lib.rs:61-63 | for text without carriage returns, joining the rows with line feeds gives back the input, minus a final line feed |
| Grid.BlankRowsLeaveLineEnds | src/lib.rs:61-63 | when every row comes out empty, the input holds only line feeds and carriage returns |
| Grid.UniformRowsLeaveLineEnds | src/lib.rs:61-63 | when every row holds only one character, the input holds only that character, line feeds and carriage returns |
| Grid.MaxWidth | src/lib.rs:65-67 | the width is the character count of some row, and no row is wider |
| Grid.MinWidth | src/lib.rs:73-75 | the minimum width is the character count of some row, and no row is narrower |
| Grid.RectangleIffRowsAgree | src/lib.rs:85-87 | comparing the minimum and maximum widths holds exactly when all rows have the same character count |
| Grid.RemoveLineFeeds | src/lib.rs:90 | the result holds exactly the input's characters other than the line feed |
| Grid.Unique | src/lib.rs:90 | the deduplicated sequence has no repeats and holds exactly the characters of its input |
| Grid.DistinctCountsCharacters | src/lib.rs:89-91 | the distinct-character list has no repeats and holds exactly the input's non-line-feed characters, so its length is the number of distinct such characters |
| CornerSearch.PotentialPathSquares | src/lib.rs:121-132 | the row-by-row loop over the grid gathers exactly the in-grid cells, other than the start cell, that hold the start cell's character |
| CornerSearch.NextWave | src/lib.rs:137-158 | a round reports the finish cell exactly when it is in the pool next to the wavefront. Otherwise every pooled neighbour of the wavefront is queued once and removed from the pool, nothing else is queued, and the pool shrinks by the number queued |
| CornerSearch.JoinedStep | src/lib.rs:140-152 | a walk from the start cell, extended by one orthogonal step onto a cell of the start character, is still a walk from the start cell |
| CornerSearch.JoinedEndsOnPathSquare | src/lib.rs:128 | a walk from the start cell ends on an in-grid cell that holds the start character |
| CornerSearch.ClosedRegionHoldsWalks | src/lib.rs:160-162 | once no reached cell has a neighbour left in the pool, every walk from a reached cell ends on a reached cell |
| CornerSearch.InitialWave | src/lib.rs:121-134 | at the start, the only reached cell is the start cell, and the search invariant holds |
| CornerSearch.WaveFound | src/lib.rs:144-150 | a pool cell next to the wavefront differs from the start cell and is joined to it |
| CornerSearch.WaveExhausted | src/lib.rs:160-162 | a round that queues nothing means the finish cell is not joined to the start cell, unless it is the start cell |
| CornerSearch.WaveAdvances | src/lib.rs:152-164 | a round that queues cells keeps the invariant, with the queued cells as the next wavefront |
| CornerSearch.Connected | src/lib.rs:120-166 | true exactly when the finish cell is a different cell that a walk of orthogonal steps over cells of the start character reaches. A finish cell holding another character therefore gives false. The search terminates |
| Corners.CharacterConnectingOppositeCorners | src/lib.rs:99-118 | if the top-left and bottom-right corners are linked, the result is the top-left character. Otherwise it is the top-right character if the other diagonal is linked, and nothing if neither is. A 1×1 grid gives nothing |
| Corners.UniformGridHasPathCharacter | src/lib.rs:99-108 | a grid drawn in one character, larger than one cell, has that character as its path character |
| Runs.Walk | src/lib.rs:224-231 | the steps counted from step n are consecutive matching in-grid cells, and the count stops at the first cell that does not match or at step 3 |
| Runs.SameWithOffset | src/lib.rs:220-234 | the count is at most 3. The first that many cells in the direction hold the cell's own character, and the next one (if the count is under 3) does not, or lies outside the grid |
| Runs.CountsGiveWindow | src/lib.rs:200-218 | when the two counts along an axis add up to 3 or more, the four cells starting at the far end of the backward count all hold the cell's character |
| Runs.WindowGivesCounts | src/lib.rs:200-218 | a window of four equal cells that starts a steps behind the cell makes the backward count at least a and the forward count at least 3 - a |
| Runs.AxisCountIffWindow | src/lib.rs:200-218 | counting both ways along one axis finds 3 or more equal cells exactly when a window of four equal cells along that axis covers the cell |
| Runs.InALineOf4IffStraightRun | src/lib.rs:200-202 | a cell is in a line of 4 exactly when it lies in a horizontal or vertical run of four equal cells |
| Rendering.Annotate | src/lib.rs:175-191 | the echo has the grid's shape and characters. A cell is marked exactly when it holds the path character and lies in a horizontal or vertical run of four equal cells |
| Rendering.CountsAgreeWithRuns | src/lib.rs:200-202 | on every in-grid cell, the neighbour-counting line-of-4 test agrees with the run-of-four definition |
| Rendering.UnrenderRender | src/lib.rs:184-194 | removing the emphasis markers and splitting at the row breaks gives back each row's characters |
| Rendering.AnnotatedEchoIsGrid | src/lib.rs:175-194 | the rendered grid, with its emphasis markers stripped and split at the row breaks, gives back exactly the rows it was built from: marking cells changes no character |
| Rendering.LinesOf4 | src/lib.rs:168-198 | nothing exactly when no path-character cell lies in a line of 4. Otherwise the rendering, which with the markers stripped and split at row breaks is the grid, and which marks exactly the flagged path-character cells |
| Validator.Validate | src/lib.rs:36-58 | the verdict is the first failing rule: empty input; then more than 2 distinct non-line-feed characters; then rows of unequal width; then no linked diagonal corner pair; then a path-character cell in a straight run of four, with the annotated grid; otherwise valid |
| Validator.ValidateConnectTheCorners | src/lib.rs:36-58 | the returned text is the message of the verdict the rules call for |
| Validator.LinesOf4FindsStraightRuns | src/lib.rs:55-58 | the run detector returns a rendering exactly when some path-character cell lies in a straight run of four |
| Validator.BlankRowsPassShapeRules | src/lib.rs:94-104 | a non-empty input whose rows are all empty has at most 2 distinct characters and passes the rectangle test, so it reaches the corner lookup on an empty row |
| Validator.SingleCellIsNotConnected | src/lib.rs:126-149 | a single non-line-feed character is judged "no diagonally opposite corners connected" |
| Validator.UniformRectangleReachesRunRule | src/lib.rs:36-58 | a rectangle drawn in one character, larger than one cell, passes the first four rules and is decided by the straight-run rule |
| Validator.UniformRectangleIsTwoCharacters | src/lib.rs:41-43 | a rectangle drawn in one character has at most 2 distinct characters, that character and a carriage return before a line feed, so it passes the distinct-character rule |
| Scenarios.FourInARowIsAStraightRun | src/lib.rs:168-198 | `AAAA` fails the straight-run rule, with all four characters emphasised |
| Scenarios.SmallGridHasNoStraightRun | src/lib.rs:236-238 | a grid that is narrower and shorter than four cells has no straight run of four |
| Scenarios.LShapedPathIsValid | src/lib.rs:36-58 | a 3×3 L-shaped path of `A` on a background of `B` is valid |
| Scenarios.ThreeCharactersAreTooMany | src/lib.rs:41-43 | three rows of `ABC` are rejected for having more than 2 distinct characters |
| Scenarios.RaggedRowsAreNotRectangular | src/lib.rs:45-47 | rows `AA` and `A` are rejected as not rectangular |

## Left out

- The `#[wasm_bindgen]` export and the JavaScript boundary: binding glue with no logic.
- `itertools::unique` is modelled by the order-preserving `Grid.Unique`; the library itself is not modelled.
- UTF-8 byte layout. The input is a character sequence. The source's `s.len() == 0` on bytes holds exactly when the character sequence is empty, and all widths already count characters.
- `isize` arithmetic. Coordinates and widths are unbounded integers, because every value is bounded by the input length.
- The order in which `Vec::swap_remove` leaves the pool. The pool is a set, since its order never changes the result.
- HTML markup. The rendering is abstract tokens. `Rendering.Markup` spells them with `<b>`, `</b>` and `<br>` for the message text, and no property is stated about that spelling.
- The panic on non-empty input whose rows are all empty. It is a precondition (`HasCornerCells`) of `Validate` and `ValidateConnectTheCorners`, not a verdict. Index panics in `character_at` are preconditions too; the model proves they cannot occur on the inputs it accepts.
- `str::lines` is modelled as current Rust documents it: a carriage return is dropped only directly before a line feed. Older Rust releases also dropped a bare carriage return at the very end of the input; that variant is not modelled.
- The position of the return inside a round. `NextWave` reports `found` and stops at the finish cell, and it leaves the partially built next wave undescribed, because `Connected` returns true at once, as the source does.
