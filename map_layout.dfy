/**
 * `MapLayout` (src/map_editor/map.h, src/map_editor/map.cpp): the validated grid that
 * `from_path` returns, and `print`, which writes it back out one character per tile.
 */
module MapLayouts {
  import opened Defs
  import opened TileTypes
  import opened MapGrid
  import opened MapParse
  import opened MapTraversal

  /** `struct MapLayout`: only the tiles. */
  datatype MapLayout = MapLayout(tiles: Grid)

  /**
   * What a successful `from_path` guarantees about its grid and the core found in it:
   * a rectangle of valid tiles with a single core, every `Path` tile reachable from the
   * core, and no interior dead end.
   */
  ghost predicate SoundLayout(g: Grid, core: Cell) {
    && Rectangular(g)
    && InBounds(g, core)
    && TileAt(g, core) == Core
    && (forall x :: InBounds(g, x) ==> TileAt(g, x) != Invalid)
    && (forall x :: InBounds(g, x) && TileAt(g, x) == Core ==> x == core)
    && AllPathsReachable(g, core)
    && NoDeadEnds(g, core)
  }

  /** The file is a well-formed grid with one core, and the traversal from it stops with `o`. */
  ghost predicate FileTraversalEnds(lines: seq<string>, o: Result<(), MapError>) {
    WellFormed(lines) && exists c :: UniqueCoreAt(lines, c) && TraversalEnds(TilesOf(lines), c, o)
  }

  /**
   * The file is a well-formed grid with one core, its traversal completes, and whether
   * every `Path` tile is reachable from the core is `reachable`.
   */
  ghost predicate FileTraversalCompletes(lines: seq<string>, reachable: bool) {
    && WellFormed(lines)
    && exists c :: UniqueCoreAt(lines, c) && TraversalEnds(TilesOf(lines), c, Ok(()))
         && AllPathsReachable(TilesOf(lines), c) == reachable
  }

  /**
   * What `from_path` promises about the format of the map file when its result is `r`: a
   * format error exactly when the file is not a well-formed grid with one core, each
   * format error for its own reason, and, but for a missing core, the first fault in
   * scan order.
   */
  ghost predicate FormatOutcome(lines: seq<string>, r: Result<MapLayout, MapError>) {
    && ((r.Err? && IsFormatError(r.error)) <==> !(WellFormed(lines) && exists c :: UniqueCoreAt(lines, c)))
    && (r.Ok? ==> WellFormed(lines) && (exists c :: UniqueCoreAt(lines, c)) && r.value.tiles == TilesOf(lines))
    && (r.Ok? ==> forall c :: UniqueCoreAt(lines, c) ==> SoundLayout(r.value.tiles, c))
    && (r == Err(InconsistentWidth) ==> !SameWidth(lines))
    && (r == Err(UnsupportedTile) ==> !AllTileChars(lines))
    && (r == Err(MultipleCores) ==> exists c, d :: IsCoreAt(lines, c) && IsCoreAt(lines, d) && c != d)
    && (r == Err(MissingCore) ==> WellFormed(lines) && HasNoCore(lines))
    && (r.Err? && IsFormatError(r.error) && r.error != MissingCore ==> FirstFault(lines, r.error))
  }

  /**
   * What `from_path` promises about the traversal when its result is `r`: a cycle or a
   * dead end exactly when the traversal from the core stops with that test firing, and a
   * layout exactly when the traversal completes and reaches every `Path` tile.
   */
  ghost predicate TraversalOutcome(lines: seq<string>, r: Result<MapLayout, MapError>) {
    && (r == Err(Cycle) <==> FileTraversalEnds(lines, Err(Cycle)))
    && (r == Err(DeadEnd) <==> FileTraversalEnds(lines, Err(DeadEnd)))
    && (r == Err(Disconnected) <==> FileTraversalCompletes(lines, false))
    && (r.Ok? <==> FileTraversalCompletes(lines, true))
  }

  /**
   * `MapLayout::from_path` on the lines of the map file: the parse loop, then the
   * traversal and the connectivity scan. Any failed assertion is the error returned.
   */
  method FromLines(lines: seq<string>) returns (r: Result<MapLayout, MapError>)
    ensures (r.Err? && IsFormatError(r.error)) <==> !(WellFormed(lines) && exists c :: UniqueCoreAt(lines, c))
    ensures r.Ok? ==> WellFormed(lines) && (exists c :: UniqueCoreAt(lines, c)) && r.value.tiles == TilesOf(lines)
    ensures r.Ok? ==> forall c :: UniqueCoreAt(lines, c) ==> SoundLayout(r.value.tiles, c)
    ensures r == Err(InconsistentWidth) ==> !SameWidth(lines)
    ensures r == Err(UnsupportedTile) ==> !AllTileChars(lines)
    ensures r == Err(MultipleCores) ==> exists c, d :: IsCoreAt(lines, c) && IsCoreAt(lines, d) && c != d
    ensures r == Err(MissingCore) ==> WellFormed(lines) && HasNoCore(lines)
    ensures r.Err? && IsFormatError(r.error) && r.error != MissingCore ==> FirstFault(lines, r.error)
    ensures r == Err(Cycle) <==> FileTraversalEnds(lines, Err(Cycle))
    ensures r == Err(DeadEnd) <==> FileTraversalEnds(lines, Err(DeadEnd))
    ensures r == Err(Disconnected) <==> FileTraversalCompletes(lines, false)
    ensures r.Ok? <==> FileTraversalCompletes(lines, true)
  {
    var parsed := ParseGrid(lines);
    if parsed.Err? {
      RejectedOutcome(lines, parsed.error);
      return Err(parsed.error);
    }
    r := ValidateParsed(lines, parsed.value.tiles, parsed.value.core);
    AcceptedFormat(lines, parsed.value.core, r);
  }

  /** A parse error gives the outcome `from_path` promises. */
  lemma RejectedOutcome(lines: seq<string>, e: MapError)
    requires e == InconsistentWidth || e == MultipleCores || e == UnsupportedTile || e == MissingCore
    requires forall c :: WellFormed(lines) && UniqueCoreAt(lines, c) ==> false
    requires e == InconsistentWidth ==> !SameWidth(lines)
    requires e == UnsupportedTile ==> !AllTileChars(lines)
    requires e == MultipleCores ==> exists c, d :: IsCoreAt(lines, c) && IsCoreAt(lines, d) && c != d
    requires e == MissingCore ==> WellFormed(lines) && HasNoCore(lines)
    requires e != MissingCore ==> FirstFault(lines, e)
    ensures FormatOutcome(lines, Err(e)) && TraversalOutcome(lines, Err(e))
  {
    NoCoreNoTraversal(lines);
  }

  /** On a well-formed file with one core, the traversal's outcome is no format error. */
  lemma AcceptedFormat(lines: seq<string>, core: Cell, r: Result<MapLayout, MapError>)
    requires WellFormed(lines) && UniqueCoreAt(lines, core)
    requires r.Ok? || r == Err(Cycle) || r == Err(DeadEnd) || r == Err(Disconnected)
    requires r.Ok? ==> r.value.tiles == TilesOf(lines) && SoundLayout(TilesOf(lines), core)
    ensures FormatOutcome(lines, r)
  {
    assert forall c :: UniqueCoreAt(lines, c) ==> c == core;
  }

  /**
   * The second half of `from_path`, on the grid and the core that the parse loop found:
   * the traversal and the connectivity scan, then the layout.
   */
  method ValidateParsed(lines: seq<string>, tiles: Grid, core: Cell) returns (r: Result<MapLayout, MapError>)
    requires WellFormed(lines) && UniqueCoreAt(lines, core) && tiles == TilesOf(lines)
    ensures r.Ok? || r == Err(Cycle) || r == Err(DeadEnd) || r == Err(Disconnected)
    ensures r.Ok? ==> r.value.tiles == tiles && SoundLayout(tiles, core)
    ensures r == Err(Cycle) <==> FileTraversalEnds(lines, Err(Cycle))
    ensures r == Err(DeadEnd) <==> FileTraversalEnds(lines, Err(DeadEnd))
    ensures r == Err(Disconnected) <==> FileTraversalCompletes(lines, false)
    ensures r.Ok? <==> FileTraversalCompletes(lines, true)
  {
    TilesOfFaithful(lines, core);
    var checked: Result<(), MapError>;
    ghost var depth: map<Cell, int>;
    checked, depth := ValidateTopology(tiles, core);
    TraversalAtCore(lines, core);
    if checked.Err? {
      return Err(checked.error);
    }
    r := Ok(MapLayout(tiles));
  }

  /** A file that is not a well-formed grid with one core has no traversal. */
  lemma NoCoreNoTraversal(lines: seq<string>)
    requires !(WellFormed(lines) && exists c :: UniqueCoreAt(lines, c))
    ensures forall o :: !FileTraversalEnds(lines, o)
    ensures forall b :: !FileTraversalCompletes(lines, b)
  {
  }

  /** In a file with one core, the file's traversal is the traversal from that core. */
  lemma TraversalAtCore(lines: seq<string>, core: Cell)
    requires WellFormed(lines) && UniqueCoreAt(lines, core)
    ensures forall o :: FileTraversalEnds(lines, o) <==> TraversalEnds(TilesOf(lines), core, o)
    ensures forall b :: (FileTraversalCompletes(lines, b)
      <==> TraversalEnds(TilesOf(lines), core, Ok(())) && AllPathsReachable(TilesOf(lines), core) == b)
  {
    assert forall c :: UniqueCoreAt(lines, c) ==> c == core;
  }

  // ---------------------------------------------------------------------------
  // print
  // ---------------------------------------------------------------------------

  /** No tile of the grid is `Invalid`, so every tile has a character. */
  predicate AllPrintable(g: Grid) {
    forall i, j :: 0 <= i < |g| && 0 <= j < |g[i]| ==> g[i][j] != Invalid
  }

  /** The characters of one row of printable tiles. */
  function RowText(row: seq<TileType>): (s: string)
    requires forall j :: 0 <= j < |row| ==> row[j] != Invalid
    ensures |s| == |row|
    ensures forall j :: 0 <= j < |row| ==> TileTypeToChar(row[j]) == Ok(s[j])
  {
    seq(|row|, j requires 0 <= j < |row| => TileTypeToChar(row[j]).value)
  }

  /** The text `print` writes: each row's characters followed by a newline. */
  function Render(g: Grid): string
    requires AllPrintable(g)
  {
    if |g| == 0 then "" else Render(g[..|g| - 1]) + RowText(g[|g| - 1]) + "\n"
  }

  /** The lines of a map file as they appear in the file, each ended by a newline. */
  function JoinLines(lines: seq<string>): string {
    if |lines| == 0 then "" else JoinLines(lines[..|lines| - 1]) + lines[|lines| - 1] + "\n"
  }

  /**
   * Tile `(i, j)` is the first `Invalid` tile in row-major order: every earlier row and
   * every earlier tile of row `i` is printable.
   */
  predicate FirstInvalid(g: Grid, i: int, j: int) {
    && 0 <= i < |g| && 0 <= j < |g[i]| && g[i][j] == Invalid
    && AllPrintable(g[..i])
    && forall k :: 0 <= k < j ==> g[i][k] != Invalid
  }

  /** A grid has at most one first `Invalid` tile. */
  lemma FirstInvalidUnique(g: Grid, i1: int, j1: int, i2: int, j2: int)
    requires FirstInvalid(g, i1, j1) && FirstInvalid(g, i2, j2)
    ensures i1 == i2 && j1 == j2
  {
  }

  /**
   * `MapLayout::print`: the rows in order, one character per tile, a newline after each
   * row; `out` is the text written. An `Invalid` tile makes `tile_type_to_char` assert,
   * after the rows before it and the characters before it in its row have been written.
   */
  method PrintLayout(layout: MapLayout) returns (out: string, r: Result<(), string>)
    ensures r.Ok? <==> AllPrintable(layout.tiles)
    ensures r.Ok? ==> out == Render(layout.tiles)
    ensures r.Err? ==> r.error == "Tile type not supported"
    ensures r.Err? ==> exists i, j :: FirstInvalid(layout.tiles, i, j)
                                      && out == Render(layout.tiles[..i]) + RowText(layout.tiles[i][..j])
  {
    var tiles := layout.tiles;
    out := "";
    for i := 0 to |tiles|
      invariant AllPrintable(tiles[..i])
      invariant out == Render(tiles[..i])
    {
      var ts := tiles[i];
      for j := 0 to |ts|
        invariant forall k :: 0 <= k < j ==> ts[k] != Invalid
        invariant out == Render(tiles[..i]) + RowText(ts[..j])
      {
        var c := TileTypeToChar(ts[j]);
        if c.Err? {
          assert FirstInvalid(tiles, i, j);
          assert !AllPrintable(tiles) by {
            assert tiles[i][j] == Invalid;
          }
          return out, Err(c.error);
        }
        assert RowText(ts[..j + 1]) == RowText(ts[..j]) + [c.value];
        out := out + [c.value];
      }
      assert ts[..|ts|] == ts;
      assert tiles[..i + 1][..i] == tiles[..i];
      out := out + "\n";
    }
    assert tiles[..|tiles|] == tiles;
    r := Ok(());
  }

  /** Printing the grid of a map file of tile characters gives back the file's text. */
  lemma {:induction false} PrintRoundTrip(lines: seq<string>)
    requires AllTileChars(lines)
    ensures AllPrintable(TilesOf(lines))
    ensures Render(TilesOf(lines)) == JoinLines(lines)
  {
    var g := TilesOf(lines);
    forall i | 0 <= i < |lines|
      ensures RowText(g[i]) == lines[i]
    {
      forall j | 0 <= j < |lines[i]|
        ensures RowText(g[i])[j] == lines[i][j]
      {
        CharRoundTrip(lines[i][j]);
      }
    }
    if |lines| > 0 {
      var n := |lines| - 1;
      assert g[..n] == TilesOf(lines[..n]);
      PrintRoundTrip(lines[..n]);
    }
  }
}
