/**
 * The first half of `MapLayout::from_path` (src/map_editor/map.cpp): reading the map
 * file line by line into a grid of tiles and locating the single core. The file's lines
 * are the input; a failed `M_Assert` is the error it reports.
 */
module MapParse {
  import opened Defs
  import opened TileTypes
  import opened MapGrid

  /** The grid and the core location the parse loop hands to the traversal. */
  datatype Parsed = Parsed(tiles: Grid, core: Cell)

  // ---------------------------------------------------------------------------
  // What a well-formed map file is
  // ---------------------------------------------------------------------------

  /** Every line is as long as the first. */
  predicate SameWidth(lines: seq<string>) {
    forall i :: 0 <= i < |lines| ==> |lines[i]| == |lines[0]|
  }

  /** Every character is one of the three tile characters. */
  predicate AllTileChars(lines: seq<string>) {
    forall i, j :: 0 <= i < |lines| && 0 <= j < |lines[i]| ==> IsTileChar(lines[i][j])
  }

  predicate WellFormed(lines: seq<string>) {
    SameWidth(lines) && AllTileChars(lines)
  }

  /** Line `c.0` holds a core character `'O'` at column `c.1`. */
  predicate IsCoreAt(lines: seq<string>, c: Cell) {
    0 <= c.0 < |lines| && 0 <= c.1 < |lines[c.0]| && lines[c.0][c.1] == 'O'
  }

  /** `c` is the one and only core character of the file. */
  ghost predicate UniqueCoreAt(lines: seq<string>, c: Cell) {
    IsCoreAt(lines, c) && forall d :: IsCoreAt(lines, d) ==> d == c
  }

  ghost predicate HasNoCore(lines: seq<string>) {
    forall d :: !IsCoreAt(lines, d)
  }

  /**
   * Scan order: the parse loop reaches position `a` before position `b`. Position
   * `(i, -1)` is the width check of line `i`, which comes before its characters.
   */
  predicate ScanBefore(a: Cell, b: Cell) {
    a.0 < b.0 || (a.0 == b.0 && a.1 < b.1)
  }

  /**
   * The parse loop would fail with `e` on reaching position `p`: a line whose width
   * differs from the first's, a character that is not a tile character, or an `'O'` after
   * another one.
   */
  ghost predicate FaultAt(lines: seq<string>, p: Cell, e: MapError) {
    && 0 <= p.0 < |lines|
    && if p.1 == -1 then e == InconsistentWidth && |lines[p.0]| != |lines[0]|
       else
         && 0 <= p.1 < |lines[p.0]|
         && ((e == UnsupportedTile && !IsTileChar(lines[p.0][p.1]))
             || (e == MultipleCores && lines[p.0][p.1] == 'O'
                 && exists d :: IsCoreAt(lines, d) && ScanBefore(d, p)))
  }

  /** No position before `p` in scan order is a fault. */
  ghost predicate NoFaultBefore(lines: seq<string>, p: Cell) {
    forall q, e :: ScanBefore(q, p) ==> !FaultAt(lines, q, e)
  }

  /** `e` is the fault at the first faulty position in scan order. */
  ghost predicate FirstFault(lines: seq<string>, e: MapError) {
    exists p :: FaultAt(lines, p, e) && NoFaultBefore(lines, p)
  }

  /** A file has at most one first fault. */
  lemma FirstFaultUnique(lines: seq<string>, e1: MapError, e2: MapError)
    requires FirstFault(lines, e1) && FirstFault(lines, e2)
    ensures e1 == e2
  {
    var p1 :| FaultAt(lines, p1, e1) && NoFaultBefore(lines, p1);
    var p2 :| FaultAt(lines, p2, e2) && NoFaultBefore(lines, p2);
    assert !ScanBefore(p1, p2) && !ScanBefore(p2, p1);
    assert IsTileChar('O');
  }

  /** A well-formed file with at most one `'O'` has no fault. */
  lemma WellFormedHasNoFault(lines: seq<string>)
    requires WellFormed(lines)
    requires forall c, d :: IsCoreAt(lines, c) && IsCoreAt(lines, d) ==> c == d
    ensures forall e :: !FirstFault(lines, e)
  {
    forall p, e | FaultAt(lines, p, e)
      ensures false
    {
      if p.1 != -1 && e == MultipleCores {
        var d :| IsCoreAt(lines, d) && ScanBefore(d, p);
        assert IsCoreAt(lines, p);
      }
    }
  }

  /**
   * Every position before `p` is clean when the lines before `p.0` have the first line's
   * width and only tile characters, line `p.0` does too up to `p.1`, and every `'O'`
   * before `p` is at `k`; a fault at `p` is then the first fault.
   */
  lemma CleanPrefix(lines: seq<string>, p: Cell, k: Cell)
    requires 0 <= p.0 < |lines| && -1 <= p.1
    requires forall i :: 0 <= i < p.0 ==> |lines[i]| == |lines[0]|
    requires forall i, j :: 0 <= i < p.0 && 0 <= j < |lines[i]| ==> IsTileChar(lines[i][j])
    requires p.1 >= 0 ==> |lines[p.0]| == |lines[0]| && p.1 <= |lines[p.0]|
    requires forall j :: 0 <= j < p.1 ==> IsTileChar(lines[p.0][j])
    requires forall d :: IsCoreAt(lines, d) && ScanBefore(d, p) ==> d == k
    ensures NoFaultBefore(lines, p)
    ensures forall e :: FaultAt(lines, p, e) ==> FirstFault(lines, e)
  {
    forall q, e | ScanBefore(q, p) && FaultAt(lines, q, e)
      ensures false
    {
      if q.1 != -1 && e == MultipleCores {
        var d :| IsCoreAt(lines, d) && ScanBefore(d, q);
        assert IsCoreAt(lines, q);
      }
    }
  }

  /** The tiles of one line of tile characters. */
  function RowTiles(line: string): (r: seq<TileType>)
    requires forall j :: 0 <= j < |line| ==> IsTileChar(line[j])
    ensures |r| == |line|
    ensures forall j :: 0 <= j < |line| ==> CharToTileType(line[j]) == Ok(r[j])
  {
    seq(|line|, j requires 0 <= j < |line| => CharToTileType(line[j]).value)
  }

  /** The grid a file of tile characters denotes, line by line. */
  function TilesOf(lines: seq<string>): (g: Grid)
    requires AllTileChars(lines)
    ensures |g| == |lines|
    ensures forall i :: 0 <= i < |lines| ==> g[i] == RowTiles(lines[i])
  {
    seq(|lines|, i requires 0 <= i < |lines| => RowTiles(lines[i]))
  }

  /**
   * The grid of a well-formed file with one core is rectangular, holds no `Invalid`
   * tile, and has `Core` exactly where the file has `'O'`.
   */
  lemma TilesOfFaithful(lines: seq<string>, c: Cell)
    requires WellFormed(lines) && UniqueCoreAt(lines, c)
    ensures Rectangular(TilesOf(lines))
    ensures |TilesOf(lines)| == |lines| && NumCols(TilesOf(lines)) == |lines[0]|
    ensures InBounds(TilesOf(lines), c) && TileAt(TilesOf(lines), c) == Core
    ensures forall x :: InBounds(TilesOf(lines), x) ==> TileAt(TilesOf(lines), x) != Invalid
    ensures forall x :: InBounds(TilesOf(lines), x) && TileAt(TilesOf(lines), x) == Core ==> x == c
  {
    var g := TilesOf(lines);
    forall x | InBounds(g, x)
      ensures TileAt(g, x) != Invalid
      ensures TileAt(g, x) == Core <==> IsCoreAt(lines, x)
    {
      assert CharToTileType(lines[x.0][x.1]) == Ok(g[x.0][x.1]);
    }
  }

  // ---------------------------------------------------------------------------
  // The parse loop
  // ---------------------------------------------------------------------------

  /**
   * The `getline` loop of `from_path`. Lines are checked in order: first the width of
   * the line against the first line's, then its characters left to right, where an
   * unknown character or a second `'O'` fails; after the last line a missing core fails.
   */
  method ParseGrid(lines: seq<string>) returns (r: Result<Parsed, MapError>)
    ensures r.Ok? || r == Err(InconsistentWidth) || r == Err(MultipleCores)
         || r == Err(UnsupportedTile) || r == Err(MissingCore)
    ensures r.Ok? ==> WellFormed(lines) && UniqueCoreAt(lines, r.value.core) && r.value.tiles == TilesOf(lines)
    ensures forall c :: WellFormed(lines) && UniqueCoreAt(lines, c) ==> r == Ok(Parsed(TilesOf(lines), c))
    ensures r == Err(InconsistentWidth) ==> !SameWidth(lines)
    ensures r == Err(UnsupportedTile) ==> !AllTileChars(lines)
    ensures r == Err(MultipleCores) ==> exists c, d :: IsCoreAt(lines, c) && IsCoreAt(lines, d) && c != d
    ensures r == Err(MissingCore) ==> WellFormed(lines) && HasNoCore(lines)
    ensures r.Err? && r.error != MissingCore ==> FirstFault(lines, r.error)
  {
    var tiles: Grid := [];
    var coreRow, coreCol := -1, -1;
    var numCols := -1;
    var row := 0;
    while row < |lines|
      invariant 0 <= row <= |lines|
      invariant row == 0 ==> numCols == -1
      invariant row > 0 ==> numCols == |lines[0]|
      invariant forall i :: 0 <= i < row ==> |lines[i]| == |lines[0]|
      invariant forall i, j :: 0 <= i < row && 0 <= j < |lines[i]| ==> IsTileChar(lines[i][j])
      invariant |tiles| == row && forall i :: 0 <= i < row ==> tiles[i] == RowTiles(lines[i])
      invariant coreRow == -1 <==> coreCol == -1
      invariant coreRow == -1 ==> forall d :: IsCoreAt(lines, d) ==> d.0 >= row
      invariant coreRow != -1 ==> coreRow < row && IsCoreAt(lines, (coreRow, coreCol))
      invariant coreRow != -1 ==> forall d :: IsCoreAt(lines, d) && d.0 < row ==> d == (coreRow, coreCol)
    {
      var line := lines[row];
      var numColsLine := |line|;
      if numCols == -1 {
        numCols := numColsLine;
      }
      if numCols != numColsLine {
        CleanPrefix(lines, (row, -1), (coreRow, coreCol));
        assert FaultAt(lines, (row, -1), InconsistentWidth);
        return Err(InconsistentWidth);
      }

      var parsedRow := ParseRow(lines, row, coreRow, coreCol);
      if parsedRow.Err? {
        return Err(parsedRow.error);
      }
      var rowTiles;
      rowTiles, coreRow, coreCol := parsedRow.value.0, parsedRow.value.1, parsedRow.value.2;
      tiles := tiles + [rowTiles];
      row := row + 1;
    }

    if !(coreRow != -1 && coreCol != -1) {
      return Err(MissingCore);
    }
    assert tiles == TilesOf(lines);
    r := Ok(Parsed(tiles, (coreRow, coreCol)));
  }

  /**
   * The column loop of `from_path` on line `row`, whose width is the first line's, with
   * the core found so far at `(coreRow, coreCol)` (or `-1, -1`): the line's tiles and the
   * core after it, or the first fault among its characters.
   */
  method ParseRow(lines: seq<string>, row: int, coreRow: int, coreCol: int)
    returns (r: Result<(seq<TileType>, int, int), MapError>)
    requires 0 <= row < |lines| && |lines[row]| == |lines[0]|
    requires forall i :: 0 <= i < row ==> |lines[i]| == |lines[0]|
    requires forall i, j :: 0 <= i < row && 0 <= j < |lines[i]| ==> IsTileChar(lines[i][j])
    requires coreRow == -1 <==> coreCol == -1
    requires coreRow == -1 ==> forall d :: IsCoreAt(lines, d) ==> d.0 >= row
    requires coreRow != -1 ==> coreRow < row && IsCoreAt(lines, (coreRow, coreCol))
    requires coreRow != -1 ==> forall d :: IsCoreAt(lines, d) && d.0 < row ==> d == (coreRow, coreCol)
    ensures r.Ok? || r == Err(MultipleCores) || r == Err(UnsupportedTile)
    ensures r.Ok? ==> forall j :: 0 <= j < |lines[row]| ==> IsTileChar(lines[row][j])
    ensures r.Ok? ==> r.value.0 == RowTiles(lines[row])
    ensures r.Ok? ==> (r.value.1 == -1 <==> r.value.2 == -1)
    ensures r.Ok? && r.value.1 == -1 ==> forall d :: IsCoreAt(lines, d) ==> d.0 > row
    ensures r.Ok? && r.value.1 != -1 ==> r.value.1 <= row && IsCoreAt(lines, (r.value.1, r.value.2))
    ensures r.Ok? && r.value.1 != -1 ==> forall d :: IsCoreAt(lines, d) && d.0 <= row ==> d == (r.value.1, r.value.2)
    ensures r == Err(UnsupportedTile) ==> !AllTileChars(lines)
    ensures r == Err(MultipleCores) ==> exists c, d :: IsCoreAt(lines, c) && IsCoreAt(lines, d) && c != d
    ensures r.Err? ==> FirstFault(lines, r.error)
  {
    var line := lines[row];
    var rowTiles: seq<TileType> := [];
    var cr, cc := coreRow, coreCol;
    for col := 0 to |line|
      invariant |rowTiles| == col
      invariant forall j :: 0 <= j < col ==> IsTileChar(line[j]) && CharToTileType(line[j]) == Ok(rowTiles[j])
      invariant cr == -1 <==> cc == -1
      invariant cr == -1 ==> forall d :: IsCoreAt(lines, d) ==> d.0 > row || (d.0 == row && d.1 >= col)
      invariant cr != -1 ==> (cr < row || (cr == row && cc < col)) && IsCoreAt(lines, (cr, cc))
      invariant cr != -1 ==> forall d :: IsCoreAt(lines, d) && ScanBefore(d, (row, col)) ==> d == (cr, cc)
    {
      match line[col] {
        case ' ' =>
          rowTiles := rowTiles + [Path];
        case '#' =>
          rowTiles := rowTiles + [Wall];
        case 'O' =>
          rowTiles := rowTiles + [Core];
          if !(cr == -1 && cc == -1) {
            assert IsCoreAt(lines, (row, col)) && IsCoreAt(lines, (cr, cc));
            CleanPrefix(lines, (row, col), (cr, cc));
            assert FaultAt(lines, (row, col), MultipleCores);
            return Err(MultipleCores);
          }
          cr, cc := row, col;
        case _ =>
          CleanPrefix(lines, (row, col), (cr, cc));
          assert FaultAt(lines, (row, col), UnsupportedTile);
          return Err(UnsupportedTile);
      }
    }
    r := Ok((rowTiles, cr, cc));
  }
}
