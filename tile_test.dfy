/** The copy of the character table kept for the tests (test.h). */
module TileTest {
  import opened Defs
  import opened TileTypes

  /** `tile_type_to_char_test`; the `default` branch asserts. */
  function TileTypeToCharTest(t: TileType): (r: Result<char, string>)
    ensures r.Ok? <==> t != Invalid
    ensures r.Err? ==> r.error == "Tile type not supported"
  {
    match t
    case Path => Ok(' ')
    case Wall => Ok('#')
    case Core => Ok('O')
    case _ => Err("Tile type not supported")
  }

  /** The test copy agrees with `tile_type_to_char` on every tile, the invalid one included. */
  lemma TestTableAgrees(t: TileType)
    ensures TileTypeToCharTest(t) == TileTypeToChar(t)
  {
  }

  /** The test copy maps the three valid tiles to three different characters. */
  lemma TestTableInjective(t: TileType, u: TileType)
    requires t != Invalid && u != Invalid && t != u
    ensures TileTypeToCharTest(t).value != TileTypeToCharTest(u).value
  {
    TestTableAgrees(t);
    TestTableAgrees(u);
    if TileTypeToCharTest(t).value == TileTypeToCharTest(u).value {
      TileTypeToCharInjective(t, u);
    }
  }
}
