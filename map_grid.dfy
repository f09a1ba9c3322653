/**
 * The grid that `MapLayout::from_path` builds (src/map_editor/map.cpp), the helper
 * lambdas it uses on (row, column) pairs, and what "reachable from the core" means.
 */
module MapGrid {
  import opened TileTypes

  /** `std::vector<std::vector<TileType>>`, row by row. */
  type Grid = seq<seq<TileType>>

  /** `RowColPair`: (row, column). */
  type Cell = (int, int)

  /** The error kinds `from_path` asserts on, in the order they are checked. */
  datatype MapError =
    | InconsistentWidth
    | MultipleCores
    | UnsupportedTile
    | MissingCore
    | Cycle
    | DeadEnd
    | Disconnected

  /** The assertion message printed for each error kind. */
  function Message(e: MapError): string {
    match e
    case InconsistentWidth => "All lines in map must have the same number of tiles."
    case MultipleCores => "Maps can only have one core."
    case UnsupportedTile => "Unsupported tile type."
    case MissingCore => "Map must have a core."
    case Cycle => "Graph cannot contain a cycle"
    case DeadEnd => "Map has a path with a dead-end (path that does not lead to the edge of the map)."
    case Disconnected => "All paths must be connected to the core."
  }

  predicate IsFormatError(e: MapError) {
    e == InconsistentWidth || e == MultipleCores || e == UnsupportedTile || e == MissingCore
  }

  /** Every row has the first row's length. */
  predicate Rectangular(g: Grid) {
    forall i :: 0 <= i < |g| ==> |g[i]| == |g[0]|
  }

  function NumCols(g: Grid): int {
    if |g| == 0 then 0 else |g[0]|
  }

  /** The `is_in_bounds` lambda. */
  predicate InBounds(g: Grid, x: Cell) {
    0 <= x.0 && 0 <= x.1 && x.0 <= |g| - 1 && x.1 <= NumCols(g) - 1
  }

  /** The `is_on_edge` lambda. */
  predicate OnEdge(g: Grid, x: Cell) {
    x.0 == 0 || x.1 == 0 || x.0 == |g| - 1 || x.1 == NumCols(g) - 1
  }

  /** The `get_tile_type` lambda. */
  function TileAt(g: Grid, x: Cell): TileType
    requires Rectangular(g) && InBounds(g, x)
  {
    g[x.0][x.1]
  }

  function Above(x: Cell): Cell { (x.0 - 1, x.1) }
  function Below(x: Cell): Cell { (x.0 + 1, x.1) }
  function Right(x: Cell): Cell { (x.0, x.1 + 1) }
  function Left(x: Cell): Cell { (x.0, x.1 - 1) }

  predicate Adjacent(x: Cell, y: Cell) {
    y == Above(x) || y == Below(x) || y == Right(x) || y == Left(x)
  }

  /** An in-bounds `Path` tile. */
  predicate IsPathAt(g: Grid, x: Cell)
    requires Rectangular(g)
  {
    InBounds(g, x) && TileAt(g, x) == Path
  }

  /** A tile the traversal may stand on: the core itself or an in-bounds `Path` tile. */
  predicate Traversable(g: Grid, core: Cell, x: Cell)
    requires Rectangular(g)
  {
    InBounds(g, x) && (x == core || TileAt(g, x) == Path)
  }

  /** An in-bounds tile that is `Path` or `Core`. */
  predicate IsOpenAt(g: Grid, x: Cell)
    requires Rectangular(g)
  {
    InBounds(g, x) && (TileAt(g, x) == Path || TileAt(g, x) == Core)
  }

  function Count(b: bool): nat { if b then 1 else 0 }

  /** How many of the four neighbours are `Path` or `Core`. */
  function OpenDegree(g: Grid, x: Cell): nat
    requires Rectangular(g)
  {
    Count(IsOpenAt(g, Above(x))) + Count(IsOpenAt(g, Below(x)))
      + Count(IsOpenAt(g, Right(x))) + Count(IsOpenAt(g, Left(x)))
  }

  /** How many of the four neighbours are `Path`. */
  function PathDegree(g: Grid, x: Cell): nat
    requires Rectangular(g)
  {
    Count(IsPathAt(g, Above(x))) + Count(IsPathAt(g, Below(x)))
      + Count(IsPathAt(g, Right(x))) + Count(IsPathAt(g, Left(x)))
  }

  /** Two different open neighbours make the open degree at least two. */
  lemma TwoOpenNeighbours(g: Grid, x: Cell, p: Cell, y: Cell)
    requires Rectangular(g)
    requires Adjacent(x, p) && Adjacent(x, y) && p != y
    requires IsOpenAt(g, p) && IsOpenAt(g, y)
    ensures OpenDegree(g, x) >= 2
  {
  }

  /** One `Path` neighbour makes the path degree at least one. */
  lemma OnePathNeighbour(g: Grid, x: Cell, y: Cell)
    requires Rectangular(g)
    requires Adjacent(x, y) && IsPathAt(g, y)
    ensures PathDegree(g, x) >= 1
  {
  }

  /** Every cell of the grid. */
  function AllCells(g: Grid): set<Cell> {
    set r, c | 0 <= r < |g| && 0 <= c < NumCols(g) :: (r, c)
  }

  lemma InAllCells(g: Grid, x: Cell)
    requires InBounds(g, x)
    ensures x in AllCells(g)
  {
    assert x == (x.0, x.1);
  }

  /**
   * A walk from the core: it starts at the core, every later cell is an in-bounds
   * `Path` tile, and consecutive cells are 4-neighbours.
   */
  ghost predicate IsWalk(g: Grid, core: Cell, w: seq<Cell>)
    requires Rectangular(g)
  {
    && |w| > 0
    && w[0] == core
    && (forall i :: 0 < i < |w| ==> IsPathAt(g, w[i]))
    && (forall i :: 0 <= i < |w| - 1 ==> Adjacent(w[i], w[i + 1]))
  }

  /** `x` can be reached from the core by 4-connected steps over `Path` tiles. */
  ghost predicate Reachable(g: Grid, core: Cell, x: Cell)
    requires Rectangular(g)
  {
    exists w :: IsWalk(g, core, w) && w[|w| - 1] == x
  }

  /** Every `Path` tile of the grid is reachable from the core. */
  ghost predicate AllPathsReachable(g: Grid, core: Cell)
    requires Rectangular(g)
  {
    forall x :: IsPathAt(g, x) ==> Reachable(g, core, x)
  }

  /**
   * No tile of the play field ends the maze: an interior `Path` tile has at least two
   * `Path`/`Core` neighbours (where it came from and where it goes on), and an interior
   * core has at least one `Path` neighbour.
   */
  ghost predicate NoDeadEnds(g: Grid, core: Cell)
    requires Rectangular(g)
  {
    && (forall x :: IsPathAt(g, x) && !OnEdge(g, x) ==> OpenDegree(g, x) >= 2)
    && (InBounds(g, core) && !OnEdge(g, core) ==> PathDegree(g, core) >= 1)
  }

  lemma ReachableCore(g: Grid, core: Cell)
    requires Rectangular(g)
    ensures Reachable(g, core, core)
  {
    assert IsWalk(g, core, [core]);
  }

  /** A reachable tile's `Path` neighbour is reachable. */
  lemma ReachableStep(g: Grid, core: Cell, x: Cell, y: Cell)
    requires Rectangular(g)
    requires Reachable(g, core, x) && Adjacent(x, y) && IsPathAt(g, y)
    ensures Reachable(g, core, y)
  {
    var w :| IsWalk(g, core, w) && w[|w| - 1] == x;
    var w' := w + [y];
    assert IsWalk(g, core, w');
  }

  /** Every `Path` neighbour of a member of `s` is in `s`. */
  ghost predicate ClosedUnderSteps(g: Grid, s: set<Cell>)
    requires Rectangular(g)
  {
    forall x :: x in s ==>
      && (IsPathAt(g, Above(x)) ==> Above(x) in s)
      && (IsPathAt(g, Below(x)) ==> Below(x) in s)
      && (IsPathAt(g, Right(x)) ==> Right(x) in s)
      && (IsPathAt(g, Left(x)) ==> Left(x) in s)
  }

  /** A set that holds the core and is closed under steps holds every cell of a walk. */
  lemma {:induction false} ClosedHoldsWalk(g: Grid, core: Cell, s: set<Cell>, w: seq<Cell>, k: nat)
    requires Rectangular(g)
    requires core in s && ClosedUnderSteps(g, s)
    requires IsWalk(g, core, w) && k < |w|
    ensures w[k] in s
  {
    if k > 0 {
      ClosedHoldsWalk(g, core, s, w, k - 1);
      assert Adjacent(w[k - 1], w[k]);
    }
  }

  /** A set that holds the core and is closed under steps holds every reachable cell. */
  lemma ClosedHoldsReachable(g: Grid, core: Cell, s: set<Cell>, x: Cell)
    requires Rectangular(g)
    requires core in s && ClosedUnderSteps(g, s)
    requires Reachable(g, core, x)
    ensures x in s
  {
    var w :| IsWalk(g, core, w) && w[|w| - 1] == x;
    ClosedHoldsWalk(g, core, s, w, |w| - 1);
  }
}
