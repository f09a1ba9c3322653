/**
 * The depth-first validation pass of `MapLayout::from_path` (src/map_editor/map.cpp):
 * an explicit `to_visit` stack of (cell, depth) entries, a `visited` map from cells to
 * their first recorded depth, and the cycle, dead-end and connectivity checks.
 */
module MapTraversal {
  import opened Defs
  import opened TileTypes
  import opened MapGrid

  /** An entry of the `to_visit` stack: a cell and its depth from the core. */
  type Entry = (Cell, int)

  function Last(s: seq<Entry>): Entry
    requires |s| > 0
  {
    s[|s| - 1]
  }

  /** `visited.insert({cell, depth})`: the key is added, a depth already recorded is kept. */
  function Record(visited: map<Cell, int>, cell: Cell, depth: int): (r: map<Cell, int>)
    ensures r.Keys == visited.Keys + {cell}
    ensures forall y :: y in visited ==> y in r && r[y] == visited[y]
    ensures cell !in visited ==> r[cell] == depth
  {
    if cell in visited then visited else visited[cell := depth]
  }

  /** The cycle test on one neighbour: it was visited at a depth other than `depth` +/- 1. */
  predicate CycleAt(visited: map<Cell, int>, y: Cell, depth: int) {
    y in visited && visited[y] != depth + 1 && visited[y] != depth - 1
  }

  predicate CycleAround(visited: map<Cell, int>, x: Cell, depth: int) {
    CycleAt(visited, Above(x), depth) || CycleAt(visited, Below(x), depth)
      || CycleAt(visited, Right(x), depth) || CycleAt(visited, Left(x), depth)
  }

  /** The push test on one neighbour: an in-bounds `Path` tile not yet visited. */
  predicate ShouldPush(g: Grid, visited: map<Cell, int>, y: Cell)
    requires Rectangular(g)
  {
    IsPathAt(g, y) && y !in visited
  }

  function PushIf(g: Grid, visited: map<Cell, int>, y: Cell, depth: int): seq<Entry>
    requires Rectangular(g)
  {
    if ShouldPush(g, visited, y) then [(y, depth + 1)] else []
  }

  /** What one step pushes, in the order above, below, right, left. */
  function Pushes(g: Grid, visited: map<Cell, int>, x: Cell, depth: int): seq<Entry>
    requires Rectangular(g)
  {
    PushIf(g, visited, Above(x), depth) + PushIf(g, visited, Below(x), depth)
      + PushIf(g, visited, Right(x), depth) + PushIf(g, visited, Left(x), depth)
  }

  /** A neighbour that gives no onward path: not `Path`, or already visited. */
  predicate Blocked(g: Grid, visited: map<Cell, int>, y: Cell)
    requires Rectangular(g) && InBounds(g, y)
  {
    TileAt(g, y) != Path || y in visited
  }

  /** The `current_is_dead_end` lambda. */
  predicate IsDeadEnd(g: Grid, visited: map<Cell, int>, x: Cell)
    requires Rectangular(g) && InBounds(g, x)
  {
    && !OnEdge(g, x)
    && Blocked(g, visited, Above(x))
    && Blocked(g, visited, Below(x))
    && Blocked(g, visited, Right(x))
    && Blocked(g, visited, Left(x))
  }

  // ---------------------------------------------------------------------------
  // The traversal invariant
  // ---------------------------------------------------------------------------

  /** A neighbour of `x` was recorded one level closer to the core. */
  ghost predicate HasParent(visited: map<Cell, int>, x: Cell, depth: int) {
    || (Above(x) in visited && visited[Above(x)] == depth - 1)
    || (Below(x) in visited && visited[Below(x)] == depth - 1)
    || (Right(x) in visited && visited[Right(x)] == depth - 1)
    || (Left(x) in visited && visited[Left(x)] == depth - 1)
  }

  /** Walls are never visited: the traversal stands only on the core and on `Path` tiles. */
  ghost predicate OnlyTraversable(g: Grid, core: Cell, visited: map<Cell, int>, toVisit: seq<Entry>)
    requires Rectangular(g)
  {
    && (forall x :: x in visited ==> Traversable(g, core, x))
    && (forall i :: 0 <= i < |toVisit| ==> Traversable(g, core, toVisit[i].0))
  }

  /** Depths form a discovery tree rooted at the core with depth 0. */
  ghost predicate DepthTree(core: Cell, visited: map<Cell, int>) {
    forall x :: x in visited ==>
      && visited[x] >= 0
      && (x == core ==> visited[x] == 0)
      && (x != core ==> HasParent(visited, x, visited[x]))
  }

  /** Every stack entry was pushed by a visited neighbour one level closer to the core. */
  ghost predicate StackRooted(core: Cell, visited: map<Cell, int>, toVisit: seq<Entry>) {
    forall i :: 0 <= i < |toVisit| ==>
      && toVisit[i].1 >= 0
      && (toVisit[i].0 == core ==> toVisit[i].1 == 0)
      && (toVisit[i].0 != core ==> HasParent(visited, toVisit[i].0, toVisit[i].1))
  }

  ghost predicate DepthStep(visited: map<Cell, int>, x: Cell, y: Cell)
    requires x in visited
  {
    y in visited ==> visited[y] == visited[x] + 1 || visited[y] == visited[x] - 1
  }

  /** Visited 4-neighbours have depths exactly one apart: what the cycle test enforces. */
  ghost predicate DepthsDifferByOne(visited: map<Cell, int>) {
    forall x :: x in visited ==>
      && DepthStep(visited, x, Above(x))
      && DepthStep(visited, x, Below(x))
      && DepthStep(visited, x, Right(x))
      && DepthStep(visited, x, Left(x))
  }

  /** `y` is the cell of some stack entry strictly above index `lo`. */
  ghost predicate OnStackAbove(toVisit: seq<Entry>, lo: int, y: Cell) {
    exists j :: 0 <= j < |toVisit| && lo < j && toVisit[j].0 == y
  }

  ghost predicate CoveredNeighbour(g: Grid, visited: map<Cell, int>, toVisit: seq<Entry>, lo: int, y: Cell)
    requires Rectangular(g)
  {
    IsPathAt(g, y) ==> y in visited || OnStackAbove(toVisit, lo, y)
  }

  /** Every `Path` neighbour of `x` is visited or waits on the stack above index `lo`. */
  ghost predicate Covered(g: Grid, visited: map<Cell, int>, toVisit: seq<Entry>, lo: int, x: Cell)
    requires Rectangular(g)
  {
    && CoveredNeighbour(g, visited, toVisit, lo, Above(x))
    && CoveredNeighbour(g, visited, toVisit, lo, Below(x))
    && CoveredNeighbour(g, visited, toVisit, lo, Right(x))
    && CoveredNeighbour(g, visited, toVisit, lo, Left(x))
  }

  /**
   * The LIFO property: an entry whose cell is already visited lies below every entry
   * pushed for that cell's unvisited neighbours. So when a stale duplicate is popped,
   * all its `Path` neighbours are visited and it pushes nothing.
   */
  ghost predicate StaleEntriesCovered(g: Grid, visited: map<Cell, int>, toVisit: seq<Entry>)
    requires Rectangular(g)
  {
    forall i :: 0 <= i < |toVisit| && toVisit[i].0 in visited ==> Covered(g, visited, toVisit, i, toVisit[i].0)
  }

  /** Every `Path` neighbour of a visited cell is visited or on the stack. */
  ghost predicate VisitedCovered(g: Grid, visited: map<Cell, int>, toVisit: seq<Entry>)
    requires Rectangular(g)
  {
    forall x :: x in visited ==> Covered(g, visited, toVisit, -1, x)
  }

  /** No visited cell tripped the dead-end test. */
  ghost predicate NoDeadEndYet(g: Grid, core: Cell, visited: map<Cell, int>)
    requires Rectangular(g)
  {
    forall x :: x in visited && !OnEdge(g, x) ==>
      && (x == core ==> PathDegree(g, x) >= 1)
      && (x != core ==> OpenDegree(g, x) >= 2)
  }

  ghost predicate TraversalInvariant(g: Grid, core: Cell, visited: map<Cell, int>, toVisit: seq<Entry>) {
    && Rectangular(g)
    && InBounds(g, core)
    && TileAt(g, core) == Core
    && OnlyTraversable(g, core, visited, toVisit)
    && DepthTree(core, visited)
    && StackRooted(core, visited, toVisit)
    && DepthsDifferByOne(visited)
    && StaleEntriesCovered(g, visited, toVisit)
    && VisitedCovered(g, visited, toVisit)
    && NoDeadEndYet(g, core, visited)
    && (core in visited || toVisit == [(core, 0)])
  }

  // ---------------------------------------------------------------------------
  // One step of the traversal
  // ---------------------------------------------------------------------------

  /** One neighbour block of the loop body: the cycle test, then the push test. */
  method VisitNeighbour(g: Grid, visited: map<Cell, int>, toVisit: seq<Entry>, y: Cell, depth: int)
    returns (cycle: bool, toVisit': seq<Entry>)
    requires Rectangular(g)
    ensures cycle <==> CycleAt(visited, y, depth)
    ensures !cycle ==> toVisit' == toVisit + PushIf(g, visited, y, depth)
  {
    if y in visited && (visited[y] != depth + 1 && visited[y] != depth - 1) {
      return true, toVisit;
    }
    toVisit' := toVisit;
    if InBounds(g, y) && TileAt(g, y) == Path && y !in visited {
      toVisit' := toVisit' + [(y, depth + 1)];
    }
    cycle := false;
  }

  /**
   * One iteration of the traversal loop: pop the top entry, record it, test and push its
   * four neighbours, then run the dead-end test.
   */
  method VisitStep(g: Grid, visited: map<Cell, int>, toVisit: seq<Entry>)
    returns (r: Result<(), MapError>, visited': map<Cell, int>, toVisit': seq<Entry>)
    requires Rectangular(g) && |toVisit| > 0 && InBounds(g, Last(toVisit).0)
    ensures r.Ok? || r == Err(Cycle) || r == Err(DeadEnd)
    ensures visited' == Record(visited, Last(toVisit).0, Last(toVisit).1)
    ensures r == Err(Cycle) <==> CycleAround(visited', Last(toVisit).0, Last(toVisit).1)
    ensures r == Err(DeadEnd) <==>
      !CycleAround(visited', Last(toVisit).0, Last(toVisit).1) && IsDeadEnd(g, visited', Last(toVisit).0)
    ensures r.Ok? ==>
      toVisit' == toVisit[..|toVisit| - 1] + Pushes(g, visited', Last(toVisit).0, Last(toVisit).1)
  {
    var current := toVisit[|toVisit| - 1].0;
    var currentDepth := toVisit[|toVisit| - 1].1;
    toVisit' := toVisit[..|toVisit| - 1];
    visited' := visited;
    if current !in visited' {
      visited' := visited'[current := currentDepth];
    }
    var cycle: bool;
    cycle, toVisit' := VisitNeighbour(g, visited', toVisit', Above(current), currentDepth);
    if cycle {
      return Err(Cycle), visited', toVisit';
    }
    cycle, toVisit' := VisitNeighbour(g, visited', toVisit', Below(current), currentDepth);
    if cycle {
      return Err(Cycle), visited', toVisit';
    }
    cycle, toVisit' := VisitNeighbour(g, visited', toVisit', Right(current), currentDepth);
    if cycle {
      return Err(Cycle), visited', toVisit';
    }
    cycle, toVisit' := VisitNeighbour(g, visited', toVisit', Left(current), currentDepth);
    if cycle {
      return Err(Cycle), visited', toVisit';
    }
    if IsDeadEnd(g, visited', current) {
      return Err(DeadEnd), visited', toVisit';
    }
    r := Ok(());
  }

  // ---------------------------------------------------------------------------
  // Preservation of the invariant
  // ---------------------------------------------------------------------------

  /** What one step pushes: unvisited `Path` neighbours of `x` at `depth` + 1 ... */
  lemma PushesAreSteps(g: Grid, visited: map<Cell, int>, x: Cell, depth: int, k: int)
    requires Rectangular(g) && 0 <= k < |Pushes(g, visited, x, depth)|
    ensures Pushes(g, visited, x, depth)[k].1 == depth + 1
    ensures Adjacent(x, Pushes(g, visited, x, depth)[k].0)
    ensures ShouldPush(g, visited, Pushes(g, visited, x, depth)[k].0)
  {
    var a, b, c, d := PushIf(g, visited, Above(x), depth), PushIf(g, visited, Below(x), depth),
      PushIf(g, visited, Right(x), depth), PushIf(g, visited, Left(x), depth);
    assert Pushes(g, visited, x, depth) == a + b + c + d;
    if k < |a| {
    } else if k < |a| + |b| {
      assert (a + b + c + d)[k] == b[k - |a|];
    } else if k < |a| + |b| + |c| {
      assert (a + b + c + d)[k] == c[k - |a| - |b|];
    } else {
      assert (a + b + c + d)[k] == d[k - |a| - |b| - |c|];
    }
  }

  /** ... and every such neighbour is pushed. */
  lemma PushedNeighbour(g: Grid, visited: map<Cell, int>, x: Cell, depth: int, y: Cell)
    requires Rectangular(g) && Adjacent(x, y) && ShouldPush(g, visited, y)
    ensures exists k :: 0 <= k < |Pushes(g, visited, x, depth)| && Pushes(g, visited, x, depth)[k].0 == y
  {
    var a, b, c, d := PushIf(g, visited, Above(x), depth), PushIf(g, visited, Below(x), depth),
      PushIf(g, visited, Right(x), depth), PushIf(g, visited, Left(x), depth);
    var p := a + b + c + d;
    assert Pushes(g, visited, x, depth) == p;
    if y == Above(x) {
      assert p[0] == a[0];
    } else if y == Below(x) {
      assert p[|a|] == b[0];
    } else if y == Right(x) {
      assert p[|a| + |b|] == c[0];
    } else {
      assert p[|a| + |b| + |c|] == d[0];
    }
  }

  /** A stack cell above `lo` (other than the popped top) is still above `lo` after the step. */
  lemma StillAbove(s: seq<Entry>, p: seq<Entry>, lo: int, y: Cell)
    requires |s| > 0 && OnStackAbove(s, lo, y) && y != Last(s).0
    ensures OnStackAbove(s[..|s| - 1] + p, lo, y)
  {
    var j :| 0 <= j < |s| && lo < j && s[j].0 == y;
    assert (s[..|s| - 1] + p)[j] == s[j];
  }

  /** A pushed cell is above every surviving index. */
  lemma PushedIsAbove(g: Grid, visited: map<Cell, int>, s: seq<Entry>, x: Cell, depth: int, lo: int, y: Cell)
    requires Rectangular(g) && |s| > 0 && lo < |s| - 1
    requires Adjacent(x, y) && ShouldPush(g, visited, y)
    ensures OnStackAbove(s[..|s| - 1] + Pushes(g, visited, x, depth), lo, y)
  {
    PushedNeighbour(g, visited, x, depth, y);
    var p := Pushes(g, visited, x, depth);
    var k :| 0 <= k < |p| && p[k].0 == y;
    assert (s[..|s| - 1] + p)[|s| - 1 + k] == p[k];
  }

  /** After a fresh pop, a neighbour covered before is covered after. */
  lemma FreshNeighbourCovered(g: Grid, v: map<Cell, int>, s: seq<Entry>, lo: int, y: Cell, x: Cell)
    requires Rectangular(g) && |s| > 0 && Last(s).0 == x && x !in v && lo < |s| - 1
    requires CoveredNeighbour(g, v, s, lo, y)
    ensures CoveredNeighbour(g, v[x := Last(s).1], s[..|s| - 1] + Pushes(g, v[x := Last(s).1], x, Last(s).1), lo, y)
  {
    var v' := v[x := Last(s).1];
    if IsPathAt(g, y) && y !in v' {
      StillAbove(s, Pushes(g, v', x, Last(s).1), lo, y);
    }
  }

  lemma FreshCovered(g: Grid, v: map<Cell, int>, s: seq<Entry>, lo: int, z: Cell, x: Cell)
    requires Rectangular(g) && |s| > 0 && Last(s).0 == x && x !in v && lo < |s| - 1
    requires Covered(g, v, s, lo, z)
    ensures Covered(g, v[x := Last(s).1], s[..|s| - 1] + Pushes(g, v[x := Last(s).1], x, Last(s).1), lo, z)
  {
    FreshNeighbourCovered(g, v, s, lo, Above(z), x);
    FreshNeighbourCovered(g, v, s, lo, Below(z), x);
    FreshNeighbourCovered(g, v, s, lo, Right(z), x);
    FreshNeighbourCovered(g, v, s, lo, Left(z), x);
  }

  /** After a fresh pop, the popped cell's own neighbours are visited or freshly pushed. */
  lemma PoppedCovered(g: Grid, v: map<Cell, int>, s: seq<Entry>, lo: int, x: Cell)
    requires Rectangular(g) && |s| > 0 && Last(s).0 == x && lo < |s| - 1
    ensures Covered(g, v, s[..|s| - 1] + Pushes(g, v, x, Last(s).1), lo, x)
  {
    var d := Last(s).1;
    var s' := s[..|s| - 1] + Pushes(g, v, x, d);
    forall y | y in [Above(x), Below(x), Right(x), Left(x)]
      ensures CoveredNeighbour(g, v, s', lo, y)
    {
      if IsPathAt(g, y) && y !in v {
        PushedIsAbove(g, v, s, x, d, lo, y);
      }
    }
    assert Above(x) in [Above(x), Below(x), Right(x), Left(x)];
    assert Below(x) in [Above(x), Below(x), Right(x), Left(x)];
    assert Right(x) in [Above(x), Below(x), Right(x), Left(x)];
    assert Left(x) in [Above(x), Below(x), Right(x), Left(x)];
  }

  /** The visited map after popping the top entry. */
  function NextVisited(v: map<Cell, int>, s: seq<Entry>): map<Cell, int>
    requires |s| > 0
  {
    Record(v, Last(s).0, Last(s).1)
  }

  /** The stack after popping the top entry and pushing its unvisited `Path` neighbours. */
  function NextStack(g: Grid, v: map<Cell, int>, s: seq<Entry>): seq<Entry>
    requires Rectangular(g) && |s| > 0
  {
    s[..|s| - 1] + Pushes(g, NextVisited(v, s), Last(s).0, Last(s).1)
  }

  /** The top entry's cell is visited for the first time and passes both tests. */
  ghost predicate FreshPop(g: Grid, core: Cell, v: map<Cell, int>, s: seq<Entry>) {
    && TraversalInvariant(g, core, v, s)
    && |s| > 0
    && Last(s).0 !in v
    && InBounds(g, Last(s).0)
    && !CycleAround(NextVisited(v, s), Last(s).0, Last(s).1)
    && !IsDeadEnd(g, NextVisited(v, s), Last(s).0)
  }

  /** Recording the fresh top cell keeps the visited cells traversable and their depth tree. */
  lemma FreshVisitedShape(g: Grid, core: Cell, v: map<Cell, int>, s: seq<Entry>)
    requires Rectangular(g) && OnlyTraversable(g, core, v, s) && DepthTree(core, v)
    requires StackRooted(core, v, s) && |s| > 0 && Last(s).0 !in v
    ensures forall y :: y in NextVisited(v, s) ==> Traversable(g, core, y)
    ensures DepthTree(core, NextVisited(v, s))
  {
    var x, d := Last(s).0, Last(s).1;
    var v' := NextVisited(v, s);
    assert v' == v[x := d];
    assert Traversable(g, core, s[|s| - 1].0);
    forall y | y in v'
      ensures v'[y] >= 0 && (y == core ==> v'[y] == 0)
      ensures y != core ==> HasParent(v', y, v'[y])
    {
      if y == x {
        assert s[|s| - 1] == (x, d);
        ParentKept(v, x, d, x, d);
      } else {
        ParentKept(v, x, d, y, v[y]);
      }
    }
  }

  /** A parent recorded before stays a parent once a new cell is recorded. */
  lemma ParentKept(v: map<Cell, int>, x: Cell, d: int, y: Cell, e: int)
    requires x !in v
    ensures HasParent(v, y, e) ==> HasParent(v[x := d], y, e)
  {
  }

  /** After the step every stack entry is traversable and has a visited parent. */
  lemma FreshStackShape(g: Grid, core: Cell, v: map<Cell, int>, s: seq<Entry>)
    requires Rectangular(g) && InBounds(g, core) && TileAt(g, core) == Core
    requires OnlyTraversable(g, core, v, s) && StackRooted(core, v, s)
    requires |s| > 0 && Last(s).0 !in v && Last(s).1 >= 0
    ensures forall i :: 0 <= i < |NextStack(g, v, s)| ==> Traversable(g, core, NextStack(g, v, s)[i].0)
    ensures StackRooted(core, NextVisited(v, s), NextStack(g, v, s))
  {
    var x, d := Last(s).0, Last(s).1;
    var v' := NextVisited(v, s);
    assert v' == v[x := d];
    var p := Pushes(g, v', x, d);
    var s' := NextStack(g, v, s);
    forall i | 0 <= i < |s'|
      ensures Traversable(g, core, s'[i].0)
      ensures s'[i].1 >= 0 && (s'[i].0 == core ==> s'[i].1 == 0)
      ensures s'[i].0 != core ==> HasParent(v', s'[i].0, s'[i].1)
    {
      if i < |s| - 1 {
        assert s'[i] == s[i];
        ParentKept(v, x, d, s[i].0, s[i].1);
      } else {
        var k := i - (|s| - 1);
        assert s'[i] == p[k];
        PushesAreSteps(g, v', x, d, k);
      }
    }
  }

  lemma FreshStepShape(g: Grid, core: Cell, v: map<Cell, int>, s: seq<Entry>)
    requires FreshPop(g, core, v, s)
    ensures OnlyTraversable(g, core, NextVisited(v, s), NextStack(g, v, s))
    ensures DepthTree(core, NextVisited(v, s))
    ensures StackRooted(core, NextVisited(v, s), NextStack(g, v, s))
  {
    assert Last(s).1 >= 0 by {
      assert s[|s| - 1] == Last(s);
    }
    FreshVisitedShape(g, core, v, s);
    FreshStackShape(g, core, v, s);
  }

  /** One neighbour pair after recording `x` at depth `d`. */
  lemma RecordDepthStep(v: map<Cell, int>, x: Cell, d: int, y: Cell, z: Cell)
    requires x !in v && (y in v || y == x)
    requires y in v && z in v ==> v[z] == v[y] + 1 || v[z] == v[y] - 1
    requires y == x && z in v ==> v[z] == d + 1 || v[z] == d - 1
    requires z == x && y in v ==> v[y] == d + 1 || v[y] == d - 1
    requires y == x ==> z != x
    ensures DepthStep(v[x := d], y, z)
  {
  }

  /** Recording a cell whose visited neighbours all sit one level away keeps depths one apart. */
  lemma RecordKeepsDepthsApart(v: map<Cell, int>, x: Cell, d: int)
    requires DepthsDifferByOne(v) && x !in v && !CycleAround(v[x := d], x, d)
    ensures DepthsDifferByOne(v[x := d])
  {
    var v' := v[x := d];
    assert !CycleAt(v', Above(x), d) && !CycleAt(v', Below(x), d);
    assert !CycleAt(v', Right(x), d) && !CycleAt(v', Left(x), d);
    forall y | y in v'
      ensures DepthStep(v', y, Above(y))
    {
      if y in v { assert DepthStep(v, y, Above(y)); }
      if Above(y) == x { assert y == Below(x); }
      RecordDepthStep(v, x, d, y, Above(y));
    }
    forall y | y in v'
      ensures DepthStep(v', y, Below(y))
    {
      if y in v { assert DepthStep(v, y, Below(y)); }
      if Below(y) == x { assert y == Above(x); }
      RecordDepthStep(v, x, d, y, Below(y));
    }
    forall y | y in v'
      ensures DepthStep(v', y, Right(y))
    {
      if y in v { assert DepthStep(v, y, Right(y)); }
      if Right(y) == x { assert y == Left(x); }
      RecordDepthStep(v, x, d, y, Right(y));
    }
    forall y | y in v'
      ensures DepthStep(v', y, Left(y))
    {
      if y in v { assert DepthStep(v, y, Left(y)); }
      if Left(y) == x { assert y == Right(x); }
      RecordDepthStep(v, x, d, y, Left(y));
    }
  }

  lemma FreshStepDepths(g: Grid, core: Cell, v: map<Cell, int>, s: seq<Entry>)
    requires FreshPop(g, core, v, s)
    ensures DepthsDifferByOne(NextVisited(v, s))
  {
    assert NextVisited(v, s) == v[Last(s).0 := Last(s).1];
    RecordKeepsDepthsApart(v, Last(s).0, Last(s).1);
  }

  lemma FreshStepCover(g: Grid, core: Cell, v: map<Cell, int>, s: seq<Entry>)
    requires FreshPop(g, core, v, s)
    ensures StaleEntriesCovered(g, NextVisited(v, s), NextStack(g, v, s))
    ensures VisitedCovered(g, NextVisited(v, s), NextStack(g, v, s))
  {
    var x, d := Last(s).0, Last(s).1;
    var v' := NextVisited(v, s);
    assert v' == v[x := d];
    var p := Pushes(g, v', x, d);
    var s' := NextStack(g, v, s);
    forall i | 0 <= i < |s'| && s'[i].0 in v'
      ensures Covered(g, v', s', i, s'[i].0)
    {
      if i < |s| - 1 {
        assert s'[i] == s[i];
        if s[i].0 in v {
          FreshCovered(g, v, s, i, s[i].0, x);
        } else {
          PoppedCovered(g, v', s, i, x);
        }
      } else {
        var k := i - (|s| - 1);
        assert s'[i] == p[k];
        PushesAreSteps(g, v', x, d, k);
      }
    }
    forall y | y in v'
      ensures Covered(g, v', s', -1, y)
    {
      if y in v {
        FreshCovered(g, v, s, -1, y, x);
      } else {
        PoppedCovered(g, v', s, -1, x);
      }
    }
  }

  lemma FreshStepNoDeadEnd(g: Grid, core: Cell, v: map<Cell, int>, s: seq<Entry>)
    requires FreshPop(g, core, v, s)
    ensures NoDeadEndYet(g, core, NextVisited(v, s))
  {
    var x, d := Last(s).0, Last(s).1;
    var v' := NextVisited(v, s);
    assert v' == v[x := d];
    if !OnEdge(g, x) {
      var y :=
        if !Blocked(g, v', Above(x)) then Above(x)
        else if !Blocked(g, v', Below(x)) then Below(x)
        else if !Blocked(g, v', Right(x)) then Right(x)
        else Left(x);
      assert IsPathAt(g, y) && y !in v';
      if x == core {
        OnePathNeighbour(g, x, y);
      } else {
        assert HasParent(v, x, d);
        var q :=
          if Above(x) in v && v[Above(x)] == d - 1 then Above(x)
          else if Below(x) in v && v[Below(x)] == d - 1 then Below(x)
          else if Right(x) in v && v[Right(x)] == d - 1 then Right(x)
          else Left(x);
        assert q in v;
        assert Traversable(g, core, q);
        TwoOpenNeighbours(g, x, q, y);
      }
    }
  }

  /** A first pop of a cell that passes both tests keeps the invariant and visits one more cell. */
  lemma FreshStep(g: Grid, core: Cell, v: map<Cell, int>, s: seq<Entry>)
    requires FreshPop(g, core, v, s)
    ensures TraversalInvariant(g, core, NextVisited(v, s), NextStack(g, v, s))
    ensures AllCells(g) - NextVisited(v, s).Keys < AllCells(g) - v.Keys
  {
    FreshStepShape(g, core, v, s);
    FreshStepDepths(g, core, v, s);
    FreshStepCover(g, core, v, s);
    FreshStepNoDeadEnd(g, core, v, s);
    var x := Last(s).0;
    InAllCells(g, x);
    assert x in AllCells(g) - v.Keys;
    assert x !in AllCells(g) - NextVisited(v, s).Keys;
  }

  /** Dropping the top entry, whose cell is visited, keeps a neighbour covered. */
  lemma DropNeighbourCovered(g: Grid, v: map<Cell, int>, s: seq<Entry>, lo: int, y: Cell)
    requires Rectangular(g) && |s| > 0 && Last(s).0 in v && lo < |s| - 1
    requires CoveredNeighbour(g, v, s, lo, y)
    ensures CoveredNeighbour(g, v, s[..|s| - 1], lo, y)
  {
    if IsPathAt(g, y) && y !in v {
      StillAbove(s, [], lo, y);
      assert s[..|s| - 1] + [] == s[..|s| - 1];
    }
  }

  lemma DropCovered(g: Grid, v: map<Cell, int>, s: seq<Entry>, lo: int, z: Cell)
    requires Rectangular(g) && |s| > 0 && Last(s).0 in v && lo < |s| - 1
    requires Covered(g, v, s, lo, z)
    ensures Covered(g, v, s[..|s| - 1], lo, z)
  {
    DropNeighbourCovered(g, v, s, lo, Above(z));
    DropNeighbourCovered(g, v, s, lo, Below(z));
    DropNeighbourCovered(g, v, s, lo, Right(z));
    DropNeighbourCovered(g, v, s, lo, Left(z));
  }

  /**
   * A later pop of a cell already visited (a stale duplicate) finds every `Path`
   * neighbour visited: it pushes nothing, leaves the map unchanged, and, away from the
   * edge, trips the dead-end test.
   */
  lemma StaleStep(g: Grid, core: Cell, v: map<Cell, int>, s: seq<Entry>)
    requires TraversalInvariant(g, core, v, s) && |s| > 0 && Last(s).0 in v
    ensures NextVisited(v, s) == v
    ensures Pushes(g, v, Last(s).0, Last(s).1) == []
    ensures NextStack(g, v, s) == s[..|s| - 1]
    ensures InBounds(g, Last(s).0) && !OnEdge(g, Last(s).0) ==> IsDeadEnd(g, v, Last(s).0)
    ensures TraversalInvariant(g, core, v, s[..|s| - 1])
  {
    var n := |s|;
    var x := s[n - 1].0;
    assert Covered(g, v, s, n - 1, x);
    assert !OnStackAbove(s, n - 1, Above(x)) && !OnStackAbove(s, n - 1, Below(x));
    assert !OnStackAbove(s, n - 1, Right(x)) && !OnStackAbove(s, n - 1, Left(x));
    assert Pushes(g, v, x, s[n - 1].1) == [];
    assert s[..n - 1] + [] == s[..n - 1];
    var s' := s[..n - 1];
    forall i | 0 <= i < |s'| && s'[i].0 in v
      ensures Covered(g, v, s', i, s'[i].0)
    {
      assert s'[i] == s[i];
      DropCovered(g, v, s, i, s[i].0);
    }
    forall y | y in v
      ensures Covered(g, v, s', -1, y)
    {
      DropCovered(g, v, s, -1, y);
    }
    forall i | 0 <= i < |s'|
      ensures Traversable(g, core, s'[i].0)
    {
      assert s'[i] == s[i];
    }
  }

  /** Following parents from a visited cell down to depth 0 walks back to the core. */
  lemma {:induction false} DepthTreeReachable(g: Grid, core: Cell, v: map<Cell, int>, x: Cell)
    requires Rectangular(g)
    requires forall y :: y in v ==> Traversable(g, core, y)
    requires DepthTree(core, v) && x in v
    ensures Reachable(g, core, x)
    decreases v[x]
  {
    if x == core {
      ReachableCore(g, core);
    } else {
      var d := v[x];
      var q :=
        if Above(x) in v && v[Above(x)] == d - 1 then Above(x)
        else if Below(x) in v && v[Below(x)] == d - 1 then Below(x)
        else if Right(x) in v && v[Right(x)] == d - 1 then Right(x)
        else Left(x);
      assert q in v && v[q] == d - 1;
      DepthTreeReachable(g, core, v, q);
      assert Traversable(g, core, x);
      ReachableStep(g, core, q, x);
    }
  }

  /** With the stack empty, the visited cells are closed under `Path` steps. */
  lemma EmptyStackClosed(g: Grid, v: map<Cell, int>)
    requires Rectangular(g) && VisitedCovered(g, v, [])
    ensures ClosedUnderSteps(g, v.Keys)
  {
    forall x | x in v.Keys
      ensures IsPathAt(g, Above(x)) ==> Above(x) in v.Keys
      ensures IsPathAt(g, Below(x)) ==> Below(x) in v.Keys
      ensures IsPathAt(g, Right(x)) ==> Right(x) in v.Keys
      ensures IsPathAt(g, Left(x)) ==> Left(x) in v.Keys
    {
      assert Covered(g, v, [], -1, x);
    }
  }

  // ---------------------------------------------------------------------------
  // Runs of the loop
  // ---------------------------------------------------------------------------

  /** The loop's variables at the top of an iteration: `visited` and `to_visit`. */
  datatype TraversalState = TraversalState(visited: map<Cell, int>, toVisit: seq<Entry>)

  /** The state the loop starts from: nothing visited, the core on the stack at depth 0. */
  function Start(core: Cell): TraversalState {
    TraversalState(map[], [(core, 0)])
  }

  /** The state after one iteration that neither finds a cycle nor a dead end. */
  function Step(g: Grid, st: TraversalState): TraversalState
    requires Rectangular(g) && |st.toVisit| > 0
  {
    TraversalState(NextVisited(st.visited, st.toVisit), NextStack(g, st.visited, st.toVisit))
  }

  /** The iteration from `st` passes both tests, so the loop goes on. */
  ghost predicate Proceeds(g: Grid, st: TraversalState)
    requires Rectangular(g)
  {
    && |st.toVisit| > 0
    && InBounds(g, Last(st.toVisit).0)
    && !CycleAround(NextVisited(st.visited, st.toVisit), Last(st.toVisit).0, Last(st.toVisit).1)
    && !IsDeadEnd(g, NextVisited(st.visited, st.toVisit), Last(st.toVisit).0)
  }

  /**
   * The loop stops at `st` with outcome `o`: with success when the stack is empty, with
   * "cycle" when the popped entry's cycle test fires, and otherwise with "dead end" when
   * its dead-end test fires.
   */
  ghost predicate Halted(g: Grid, st: TraversalState, o: Result<(), MapError>)
    requires Rectangular(g)
  {
    if |st.toVisit| == 0 then o == Ok(())
    else
      var v', x := NextVisited(st.visited, st.toVisit), Last(st.toVisit);
      && InBounds(g, x.0)
      && if CycleAround(v', x.0, x.1) then o == Err(Cycle)
         else IsDeadEnd(g, v', x.0) && o == Err(DeadEnd)
  }

  /** `t` lists the states of the loop from the start, each the step of the one before. */
  ghost predicate IsRun(g: Grid, core: Cell, t: seq<TraversalState>) {
    && Rectangular(g)
    && |t| > 0
    && t[0] == Start(core)
    && forall i :: 0 <= i < |t| - 1 ==> Proceeds(g, t[i]) && t[i + 1] == Step(g, t[i])
  }

  /** The traversal from `core` stops with outcome `o`. */
  ghost predicate TraversalEnds(g: Grid, core: Cell, o: Result<(), MapError>) {
    exists t :: IsRun(g, core, t) && Halted(g, t[|t| - 1], o)
  }

  /** A run that goes on is extended by the next state. */
  lemma RunExtends(g: Grid, core: Cell, t: seq<TraversalState>)
    requires IsRun(g, core, t) && Proceeds(g, t[|t| - 1])
    ensures IsRun(g, core, t + [Step(g, t[|t| - 1])])
  {
    var t' := t + [Step(g, t[|t| - 1])];
    forall i | 0 <= i < |t'| - 1
      ensures Proceeds(g, t'[i]) && t'[i + 1] == Step(g, t'[i])
    {
      assert t'[i] == t[i];
      if i + 1 < |t| {
        assert t'[i + 1] == t[i + 1];
      }
    }
  }

  /** The loop is deterministic: two runs agree wherever both are defined. */
  lemma {:induction false} RunsAgree(g: Grid, core: Cell, t1: seq<TraversalState>, t2: seq<TraversalState>, i: nat)
    requires IsRun(g, core, t1) && IsRun(g, core, t2)
    requires i < |t1| && i < |t2|
    ensures t1[i] == t2[i]
  {
    if i > 0 {
      RunsAgree(g, core, t1, t2, i - 1);
      assert t1[i] == Step(g, t1[i - 1]) && t2[i] == Step(g, t2[i - 1]);
    }
  }

  /** A state the loop goes on from is not one it stops at. */
  lemma ProceedsNotHalted(g: Grid, st: TraversalState, o: Result<(), MapError>)
    requires Rectangular(g) && Proceeds(g, st)
    ensures !Halted(g, st, o)
  {
  }

  /** A run that has stopped is never extended by another run. */
  lemma {:induction false} HaltedRunIsLongest(g: Grid, core: Cell, t1: seq<TraversalState>, t2: seq<TraversalState>, o: Result<(), MapError>)
    requires IsRun(g, core, t1) && IsRun(g, core, t2) && Halted(g, t1[|t1| - 1], o)
    ensures |t2| <= |t1|
  {
    var n := |t1|;
    if n < |t2| {
      RunsAgree(g, core, t1, t2, n - 1);
      ProceedsNotHalted(g, t2[n - 1], o);
      assert false;
    }
  }

  /** The traversal has exactly one outcome. */
  lemma TraversalEndsUnique(g: Grid, core: Cell, o1: Result<(), MapError>, o2: Result<(), MapError>)
    requires TraversalEnds(g, core, o1) && TraversalEnds(g, core, o2)
    ensures o1 == o2
  {
    var t1 :| IsRun(g, core, t1) && Halted(g, t1[|t1| - 1], o1);
    var t2 :| IsRun(g, core, t2) && Halted(g, t2[|t2| - 1], o2);
    HaltedRunIsLongest(g, core, t1, t2, o1);
    HaltedRunIsLongest(g, core, t2, t1, o2);
    RunsAgree(g, core, t1, t2, |t1| - 1);
  }

  /** A core in the middle of a 3 by 3 room of `Path` tiles. */
  function OpenRoom(): Grid {
    [[Path, Path, Path], [Path, Core, Path], [Path, Path, Path]]
  }

  /** The loop's states on the open room, from the core: it goes to the left, down, right. */
  function RoomState(k: nat): TraversalState
    requires k < 4
  {
    var v1 := map[(1, 1) := 0];
    var v2 := v1[(1, 0) := 1];
    var v3 := v2[(2, 0) := 2];
    if k == 0 then Start((1, 1))
    else if k == 1 then TraversalState(v1, [((0, 1), 1), ((2, 1), 1), ((1, 2), 1), ((1, 0), 1)])
    else if k == 2 then TraversalState(v2, [((0, 1), 1), ((2, 1), 1), ((1, 2), 1), ((0, 0), 2), ((2, 0), 2)])
    else TraversalState(v3, [((0, 1), 1), ((2, 1), 1), ((1, 2), 1), ((0, 0), 2), ((2, 1), 3)])
  }

  /** Popping the core pushes its four neighbours. */
  lemma RoomStep0()
    ensures Proceeds(OpenRoom(), RoomState(0)) && Step(OpenRoom(), RoomState(0)) == RoomState(1)
  {
    var g, x, v := OpenRoom(), (1, 1), map[(1, 1) := 0];
    assert NextVisited(RoomState(0).visited, RoomState(0).toVisit) == v;
    assert PushIf(g, v, Above(x), 0) == [((0, 1), 1)];
    assert PushIf(g, v, Below(x), 0) == [((2, 1), 1)];
    assert PushIf(g, v, Right(x), 0) == [((1, 2), 1)];
    assert PushIf(g, v, Left(x), 0) == [((1, 0), 1)];
  }

  /** Popping (1, 0) pushes the two corners on its left. */
  lemma RoomStep1()
    ensures Proceeds(OpenRoom(), RoomState(1)) && Step(OpenRoom(), RoomState(1)) == RoomState(2)
  {
    var g, x, v := OpenRoom(), (1, 0), RoomState(2).visited;
    assert NextVisited(RoomState(1).visited, RoomState(1).toVisit) == v;
    assert PushIf(g, v, Above(x), 1) == [((0, 0), 2)];
    assert PushIf(g, v, Below(x), 1) == [((2, 0), 2)];
    assert PushIf(g, v, Right(x), 1) == [];
    assert PushIf(g, v, Left(x), 1) == [];
    assert OnEdge(g, x);
  }

  /** Popping (2, 0) pushes (2, 1) at depth 3. */
  lemma RoomStep2()
    ensures Proceeds(OpenRoom(), RoomState(2)) && Step(OpenRoom(), RoomState(2)) == RoomState(3)
  {
    var g, x, v := OpenRoom(), (2, 0), RoomState(3).visited;
    assert NextVisited(RoomState(2).visited, RoomState(2).toVisit) == v;
    assert PushIf(g, v, Above(x), 2) == [];
    assert PushIf(g, v, Below(x), 2) == [];
    assert PushIf(g, v, Right(x), 2) == [((2, 1), 3)];
    assert PushIf(g, v, Left(x), 2) == [];
    assert OnEdge(g, x);
  }

  /** Popping (2, 1) at depth 3 finds the core, at depth 0, above it. */
  lemma RoomStep3()
    ensures Halted(OpenRoom(), RoomState(3), Err(Cycle))
  {
    var v := NextVisited(RoomState(3).visited, RoomState(3).toVisit);
    assert v[(1, 1)] == 0;
    assert CycleAt(v, Above((2, 1)), 3);
  }

  /**
   * The cycle test rejects the open room: the traversal goes left, down and right round
   * the core, and at (2, 1), depth 3, it sees the core, depth 0, above.
   */
  lemma OpenRoomHasCycle()
    ensures TraversalEnds(OpenRoom(), (1, 1), Err(Cycle))
  {
    var g := OpenRoom();
    var t := [RoomState(0), RoomState(1), RoomState(2), RoomState(3)];
    forall i | 0 <= i < |t| - 1
      ensures Proceeds(g, t[i]) && t[i + 1] == Step(g, t[i])
    {
      if i == 0 {
        RoomStep0();
      } else if i == 1 {
        RoomStep1();
      } else {
        RoomStep2();
      }
    }
    assert t[0] == Start((1, 1));
    assert IsRun(g, (1, 1), t);
    RoomStep3();
    assert Halted(g, t[|t| - 1], Err(Cycle));
  }

  // ---------------------------------------------------------------------------
  // The validation pass
  // ---------------------------------------------------------------------------

  /**
   * The depth-first loop of `from_path`, stopping at the first cycle or dead end. `run`
   * is the sequence of loop states it went through; the outcome is the one its last
   * state stops with.
   */
  method Traverse(g: Grid, core: Cell) returns (r: Result<(), MapError>, visited: map<Cell, int>, ghost run: seq<TraversalState>)
    requires Rectangular(g) && InBounds(g, core) && TileAt(g, core) == Core
    ensures r.Ok? || r == Err(Cycle) || r == Err(DeadEnd)
    ensures IsRun(g, core, run) && Halted(g, run[|run| - 1], r)
    ensures TraversalEnds(g, core, r)
    ensures forall x :: x in visited ==> Traversable(g, core, x)
    ensures r.Ok? ==> visited == run[|run| - 1].visited
    ensures r.Ok? ==> core in visited && TraversalInvariant(g, core, visited, [])
  {
    visited := map[];
    var toVisit: seq<Entry> := [(core, 0)];
    run := [Start(core)];
    while |toVisit| > 0
      invariant TraversalInvariant(g, core, visited, toVisit)
      invariant IsRun(g, core, run) && run[|run| - 1] == TraversalState(visited, toVisit)
      decreases AllCells(g) - visited.Keys, |toVisit|
    {
      ghost var v0, s0 := visited, toVisit;
      assert Traversable(g, core, toVisit[|toVisit| - 1].0);
      var step: Result<(), MapError>;
      step, visited, toVisit := VisitStep(g, visited, toVisit);
      if step.Err? {
        assert Halted(g, run[|run| - 1], step);
        return step, visited, run;
      }
      assert Proceeds(g, run[|run| - 1]);
      RunExtends(g, core, run);
      run := run + [TraversalState(visited, toVisit)];
      if Last(s0).0 in v0 {
        StaleStep(g, core, v0, s0);
      } else {
        FreshStep(g, core, v0, s0);
      }
    }
    r := Ok(());
  }

  /** The connectivity scan of `from_path`: is some `Path` tile missing from `visited`? */
  method HasUnvisitedPath(g: Grid, visited: map<Cell, int>) returns (found: bool)
    requires Rectangular(g)
    ensures found <==> exists x :: IsPathAt(g, x) && x !in visited
  {
    for row := 0 to |g|
      invariant forall x :: IsPathAt(g, x) && x.0 < row ==> x in visited
    {
      for col := 0 to NumCols(g)
        invariant forall x :: IsPathAt(g, x) && (x.0 < row || (x.0 == row && x.1 < col)) ==> x in visited
      {
        if g[row][col] == Path && (row, col) !in visited {
          assert IsPathAt(g, (row, col));
          return true;
        }
      }
    }
    return false;
  }

  /** A `Path` tile the finished traversal did not visit cannot be reached at all. */
  lemma UnvisitedIsUnreachable(g: Grid, core: Cell, v: map<Cell, int>, x: Cell)
    requires core in v && TraversalInvariant(g, core, v, [])
    requires IsPathAt(g, x) && x !in v
    ensures !AllPathsReachable(g, core)
  {
    EmptyStackClosed(g, v);
    if Reachable(g, core, x) {
      ClosedHoldsReachable(g, core, v.Keys, x);
    }
  }

  /** A finished traversal that visited every `Path` tile certifies the whole topology. */
  lemma TraversalCertifies(g: Grid, core: Cell, v: map<Cell, int>)
    requires core in v && TraversalInvariant(g, core, v, [])
    requires forall x :: IsPathAt(g, x) ==> x in v
    ensures forall x :: x in v <==> Traversable(g, core, x)
    ensures v[core] == 0 && DepthTree(core, v) && DepthsDifferByOne(v)
    ensures AllPathsReachable(g, core) && NoDeadEnds(g, core)
  {
    forall x | IsPathAt(g, x)
      ensures Reachable(g, core, x)
    {
      DepthTreeReachable(g, core, v, x);
    }
  }

  /**
   * The validation half of `from_path`: the traversal, then the connectivity scan.
   * "cycle" and "dead end" are returned exactly when the traversal stops with them;
   * after a traversal that completes, "disconnected" exactly when some `Path` tile is
   * unreachable. `depth` is the final `visited` map.
   */
  method ValidateTopology(g: Grid, core: Cell) returns (r: Result<(), MapError>, ghost depth: map<Cell, int>)
    requires Rectangular(g) && InBounds(g, core) && TileAt(g, core) == Core
    ensures r.Ok? || r == Err(Cycle) || r == Err(DeadEnd) || r == Err(Disconnected)
    ensures r == Err(Cycle) <==> TraversalEnds(g, core, Err(Cycle))
    ensures r == Err(DeadEnd) <==> TraversalEnds(g, core, Err(DeadEnd))
    ensures r == Err(Disconnected) <==> TraversalEnds(g, core, Ok(())) && !AllPathsReachable(g, core)
    ensures r.Ok? <==> TraversalEnds(g, core, Ok(())) && AllPathsReachable(g, core)
    ensures forall x :: x in depth ==> Traversable(g, core, x)
    ensures r.Ok? ==> forall x :: x in depth <==> Traversable(g, core, x)
    ensures r.Ok? ==> core in depth && depth[core] == 0 && DepthTree(core, depth) && DepthsDifferByOne(depth)
    ensures r.Ok? ==> AllPathsReachable(g, core) && NoDeadEnds(g, core)
  {
    var visited: map<Cell, int>;
    ghost var run: seq<TraversalState>;
    r, visited, run := Traverse(g, core);
    depth := visited;
    forall o | TraversalEnds(g, core, o)
      ensures o == r
    {
      TraversalEndsUnique(g, core, o, r);
    }
    if r.Err? {
      return;
    }
    var found := HasUnvisitedPath(g, visited);
    if found {
      ghost var x :| IsPathAt(g, x) && x !in visited;
      UnvisitedIsUnreachable(g, core, visited, x);
      return Err(Disconnected), depth;
    }
    TraversalCertifies(g, core, visited);
  }
}
