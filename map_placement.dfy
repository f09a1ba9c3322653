/**
 * `Map` (src/map_editor/map.cpp): one cube per tile of a layout, and `draw`, which
 * visits the cubes row by row. A cube is recorded by where it is placed, how it is
 * scaled and its colour; the GPU resources behind it are not part of this model.
 */
module MapPlacement {
  import opened Defs
  import opened TileTypes
  import opened MapGrid
  import opened MapLayouts

  /**
   * A placed cube: its translation (x, y, z), its uniform scale and its colour. The
   * placement loop's `cube_scale` is 10, and every cube is scaled by 10.
   */
  datatype Placement = Placement(x: int, y: int, z: int, scale: int, color: Color)

  /** The colour literal each branch of the placement switch uses. */
  function CubeColor(t: TileType): Color
    requires t != Invalid
  {
    match t
    case Path => Color(60, 168, 50)
    case Wall => Color(64, 64, 64)
    case Core => Color(199, 40, 0)
  }

  /** The per-tile literals agree with `tile_type_to_color`. */
  lemma CubeColorMatchesTable(t: TileType)
    requires t != Invalid
    ensures TileTypeToColor(t) == Ok(CubeColor(t))
  {
  }

  /** The cube of the tile at row `r`, column `c`: none for `Invalid`, which no case handles. */
  function CubeAt(t: TileType, r: int, c: int): (s: seq<Placement>)
    ensures t == Invalid <==> s == []
    ensures t != Invalid ==> s == [Placement(c * 10, 0, r * 10, 10, CubeColor(t))]
  {
    if t == Invalid then [] else [Placement(c * 10, 0, r * 10, 10, CubeColor(t))]
  }

  /** The cubes of the first `n` tiles of row `r`. */
  function RowCubes(tiles: Grid, r: nat, n: nat): seq<Placement>
    requires r < |tiles| && n <= |tiles[r]|
  {
    if n == 0 then [] else RowCubes(tiles, r, n - 1) + CubeAt(tiles[r][n - 1], r, n - 1)
  }

  /** The cube lines of the first `m` rows, each `width` tiles wide. */
  function Cubes(tiles: Grid, m: nat, width: nat): seq<seq<Placement>>
    requires m <= |tiles| && forall r :: 0 <= r < |tiles| ==> width <= |tiles[r]|
  {
    if m == 0 then [] else Cubes(tiles, m - 1, width) + [RowCubes(tiles, m - 1, width)]
  }

  /** The width the placement loop uses: that of the first row. */
  function Width(tiles: Grid): nat {
    if |tiles| == 0 then 0 else |tiles[0]|
  }

  /** Every row is at least as long as the first, so `layout.tiles[r][c]` is in range. */
  predicate Indexable(tiles: Grid) {
    forall r :: 0 <= r < |tiles| ==> Width(tiles) <= |tiles[r]|
  }

  /** All cube lines, one after the other. */
  function Flatten(lines: seq<seq<Placement>>): seq<Placement> {
    if |lines| == 0 then [] else Flatten(lines[..|lines| - 1]) + lines[|lines| - 1]
  }

  class Map {
    /** `map_cubes`: one line of cubes per row of the layout. */
    var mapCubes: seq<seq<Placement>>

    /** `Map::Map`: a cube for every tile of every row, row by row, left to right. */
    constructor (layout: MapLayout)
      requires Indexable(layout.tiles)
      ensures mapCubes == Cubes(layout.tiles, |layout.tiles|, Width(layout.tiles))
    {
      var tiles := layout.tiles;
      var cubes: seq<seq<Placement>> := [];
      for r := 0 to |tiles|
        invariant cubes == Cubes(tiles, r, Width(tiles))
      {
        var cubeLine: seq<Placement> := [];
        for c := 0 to Width(tiles)
          invariant cubeLine == RowCubes(tiles, r, c)
        {
          var tile := tiles[r][c];
          match tile {
            case Path =>
              cubeLine := cubeLine + [Placement(c * 10, 0, r * 10, 10, Color(60, 168, 50))];
            case Wall =>
              cubeLine := cubeLine + [Placement(c * 10, 0, r * 10, 10, Color(64, 64, 64))];
            case Core =>
              cubeLine := cubeLine + [Placement(c * 10, 0, r * 10, 10, Color(199, 40, 0))];
            case Invalid =>
          }
        }
        cubes := cubes + [cubeLine];
      }
      mapCubes := cubes;
    }

    /** `Map::draw`: every cube, line by line, in the order the lines hold them. */
    method Draw() returns (drawn: seq<Placement>)
      ensures drawn == Flatten(mapCubes)
    {
      drawn := [];
      for i := 0 to |mapCubes|
        invariant drawn == Flatten(mapCubes[..i])
      {
        var line := mapCubes[i];
        for j := 0 to |line|
          invariant drawn == Flatten(mapCubes[..i]) + line[..j]
        {
          drawn := drawn + [line[j]];
        }
        assert mapCubes[..i + 1][..i] == mapCubes[..i];
      }
      assert mapCubes[..|mapCubes|] == mapCubes;
    }
  }

  // ---------------------------------------------------------------------------
  // Where each tile's cube ends up
  // ---------------------------------------------------------------------------

  /** In a row of valid tiles, cube `c` of the row is the cube of column `c`. */
  lemma {:induction false} RowCubesAt(tiles: Grid, r: nat, n: nat)
    requires r < |tiles| && n <= |tiles[r]|
    requires forall j :: 0 <= j < n ==> tiles[r][j] != Invalid
    ensures |RowCubes(tiles, r, n)| == n
    ensures forall c :: 0 <= c < n ==>
      RowCubes(tiles, r, n)[c] == Placement(c * 10, 0, r * 10, 10, CubeColor(tiles[r][c]))
  {
    if n > 0 {
      RowCubesAt(tiles, r, n - 1);
    }
  }

  /** `|Cubes(...)|` is the number of rows placed. */
  lemma {:induction false} CubesLength(tiles: Grid, m: nat, width: nat)
    requires m <= |tiles| && forall r :: 0 <= r < |tiles| ==> width <= |tiles[r]|
    ensures |Cubes(tiles, m, width)| == m
    ensures forall r :: 0 <= r < m ==> Cubes(tiles, m, width)[r] == RowCubes(tiles, r, width)
  {
    if m > 0 {
      CubesLength(tiles, m - 1, width);
    }
  }

  lemma MulSucc(a: nat, b: nat)
    ensures a * b + b == (a + 1) * b
  {
  }

  /** A row of valid tiles gets one cube per tile. */
  lemma {:induction false} RowCubesLength(tiles: Grid, r: nat, n: nat)
    requires r < |tiles| && n <= |tiles[r]|
    requires forall j :: 0 <= j < n ==> tiles[r][j] != Invalid
    ensures |RowCubes(tiles, r, n)| == n
  {
    if n > 0 {
      RowCubesLength(tiles, r, n - 1);
    }
  }

  /** The first `m` cube lines of valid tiles hold `m * width` cubes. */
  lemma {:induction false} FlatCubesLength(tiles: Grid, m: nat, width: nat)
    requires m <= |tiles| && forall r :: 0 <= r < |tiles| ==> width <= |tiles[r]|
    requires forall r, c :: 0 <= r < |tiles| && 0 <= c < width ==> tiles[r][c] != Invalid
    ensures |Flatten(Cubes(tiles, m, width))| == m * width
  {
    if m > 0 {
      var p := m - 1;
      var prev := Cubes(tiles, p, width);
      var last := RowCubes(tiles, p, width);
      CubesLength(tiles, p, width);
      assert Cubes(tiles, m, width) == prev + [last];
      assert (prev + [last])[..p] == prev;
      FlatCubesLength(tiles, p, width);
      RowCubesLength(tiles, p, width);
      var k := |Flatten(prev)|;
      assert |Flatten(prev + [last])| == k + width;
      MulSucc(p, width);
    }
  }

  /** The cubes of the first `r` rows come first among those of the first `m`. */
  lemma {:induction false} FlatCubesPrefix(tiles: Grid, r: nat, m: nat, width: nat)
    requires r <= m <= |tiles| && forall i :: 0 <= i < |tiles| ==> width <= |tiles[i]|
    ensures Flatten(Cubes(tiles, r, width)) <= Flatten(Cubes(tiles, m, width))
    decreases m - r
  {
    if r < m {
      var prev := Cubes(tiles, r, width);
      var last := RowCubes(tiles, r, width);
      CubesLength(tiles, r, width);
      assert Cubes(tiles, r + 1, width) == prev + [last];
      assert (prev + [last])[..r] == prev;
      assert Flatten(prev + [last]) == Flatten(prev) + last;
      FlatCubesPrefix(tiles, r + 1, m, width);
    }
  }

  /**
   * Among the first `m` cube lines, the cube of row `r`, column `c` comes right after
   * the cubes of all earlier rows, `c` places in.
   */
  lemma FlatCubeAt(tiles: Grid, m: nat, width: nat, r: nat, c: nat)
    requires m <= |tiles| && forall r :: 0 <= r < |tiles| ==> width <= |tiles[r]|
    requires forall r, c :: 0 <= r < |tiles| && 0 <= c < width ==> tiles[r][c] != Invalid
    requires r < m && c < width
    ensures |Flatten(Cubes(tiles, r, width))| + c < |Flatten(Cubes(tiles, m, width))|
    ensures Flatten(Cubes(tiles, m, width))[|Flatten(Cubes(tiles, r, width))| + c]
      == Placement(c * 10, 0, r * 10, 10, CubeColor(tiles[r][c]))
  {
    var prev := Cubes(tiles, r, width);
    var last := RowCubes(tiles, r, width);
    CubesLength(tiles, r, width);
    assert Cubes(tiles, r + 1, width) == prev + [last];
    assert (prev + [last])[..r] == prev;
    assert Flatten(prev + [last]) == Flatten(prev) + last;
    RowCubesAt(tiles, r, width);
    FlatCubesPrefix(tiles, r + 1, m, width);
  }

  /** Drawing the map of a rectangular layout of valid tiles visits one cube per tile. */
  lemma DrawnCount(layout: MapLayout, drawn: seq<Placement>)
    requires Rectangular(layout.tiles) && AllPrintable(layout.tiles)
    requires drawn == Flatten(Cubes(layout.tiles, |layout.tiles|, Width(layout.tiles)))
    ensures |drawn| == |layout.tiles| * Width(layout.tiles)
  {
    FlatCubesLength(layout.tiles, |layout.tiles|, Width(layout.tiles));
  }

  /**
   * Drawing the map of a rectangular layout of valid tiles, which is what `from_path`
   * returns, visits the cubes in row-major order: the cube of row `r`, column `c` comes
   * at position `r * width + c`, sits at (10c, 0, 10r) with scale 10, and has the colour
   * `tile_type_to_color` gives its tile.
   */
  lemma DrawnPlacementAt(layout: MapLayout, drawn: seq<Placement>, r: nat, c: nat)
    requires Rectangular(layout.tiles) && AllPrintable(layout.tiles)
    requires drawn == Flatten(Cubes(layout.tiles, |layout.tiles|, Width(layout.tiles)))
    requires r < |layout.tiles| && c < Width(layout.tiles)
    ensures r * Width(layout.tiles) + c < |drawn|
    ensures TileTypeToColor(layout.tiles[r][c]).Ok?
    ensures drawn[r * Width(layout.tiles) + c]
      == Placement(c * 10, 0, r * 10, 10, TileTypeToColor(layout.tiles[r][c]).value)
  {
    var g, w := layout.tiles, Width(layout.tiles);
    FlatCubeAt(g, |g|, w, r, c);
    FlatCubesLength(g, r, w);
    CubeColorMatchesTable(g[r][c]);
  }

  /** A layout `from_path` accepts is rectangular and holds only valid tiles. */
  lemma SoundLayoutDrawable(g: Grid, core: Cell)
    requires SoundLayout(g, core)
    ensures Rectangular(g) && AllPrintable(g) && Indexable(g)
  {
    forall i, j | 0 <= i < |g| && 0 <= j < |g[i]|
      ensures g[i][j] != Invalid
    {
      assert InBounds(g, (i, j));
    }
  }
}
