/** The tile vocabulary of map files (src/map_editor/tile_types.h). */
module TileTypes {
  import opened Defs

  /** `enum class TileType : unsigned char`. */
  datatype TileType = Invalid | Path | Wall | Core

  /** A display colour: red, green and blue as numerators over 255, alpha always 1.0. */
  datatype Color = Color(r: nat, g: nat, b: nat)

  /** The enumerator's underlying `unsigned char` value. */
  function Ordinal(t: TileType): (n: nat)
    ensures n < 4
    ensures n == 0 <==> t == Invalid
  {
    match t
    case Invalid => 0
    case Path => 1
    case Wall => 2
    case Core => 3
  }

  /** The enumerator with the given underlying value. */
  function FromOrdinal(n: nat): (t: TileType)
    requires n < 4
    ensures Ordinal(t) == n
  {
    if n == 0 then Invalid else if n == 1 then Path else if n == 2 then Wall else Core
  }

  /** The four enumerators are exactly the values 0, 1, 2, 3, in declaration order. */
  lemma OrdinalIsBijective(t: TileType)
    ensures FromOrdinal(Ordinal(t)) == t
  {
  }

  /** The characters a map file may contain. */
  predicate IsTileChar(c: char) {
    c == ' ' || c == '#' || c == 'O'
  }

  /** `tile_type_to_char`; the `default` branch asserts. */
  function TileTypeToChar(t: TileType): (r: Result<char, string>)
    ensures r.Ok? <==> t != Invalid
    ensures r.Ok? ==> IsTileChar(r.value)
    ensures r.Err? ==> r.error == "Tile type not supported"
  {
    match t
    case Path => Ok(' ')
    case Wall => Ok('#')
    case Core => Ok('O')
    case Invalid => Err("Tile type not supported")
  }

  /** `char_to_tile_type`; the `default` branch asserts. */
  function CharToTileType(c: char): (r: Result<TileType, string>)
    ensures r.Ok? <==> IsTileChar(c)
    ensures r.Ok? ==> r.value != Invalid
    ensures r.Err? ==> r.error == "Char does not match a TileType"
  {
    match c
    case ' ' => Ok(Path)
    case '#' => Ok(Wall)
    case 'O' => Ok(Core)
    case _ => Err("Char does not match a TileType")
  }

  /** `tile_type_to_color`; the `default` branch asserts. */
  function TileTypeToColor(t: TileType): (r: Result<Color, string>)
    ensures r.Ok? <==> t != Invalid
    ensures r.Ok? ==> r.value.r <= 255 && r.value.g <= 255 && r.value.b <= 255
    ensures r.Err? ==> r.error == "Tile type not supported"
  {
    match t
    case Path => Ok(Color(60, 168, 50))
    case Wall => Ok(Color(64, 64, 64))
    case Core => Ok(Color(199, 40, 0))
    case Invalid => Err("Tile type not supported")
  }

  /** Reading a valid character and writing it back gives the same character. */
  lemma CharRoundTrip(c: char)
    requires IsTileChar(c)
    ensures CharToTileType(c).Ok? && TileTypeToChar(CharToTileType(c).value) == Ok(c)
  {
  }

  /** Writing a valid tile and reading it back gives the same tile. */
  lemma TileRoundTrip(t: TileType)
    requires t != Invalid
    ensures TileTypeToChar(t).Ok? && CharToTileType(TileTypeToChar(t).value) == Ok(t)
  {
  }

  /** The character table is injective on the three valid tiles. */
  lemma TileTypeToCharInjective(t: TileType, u: TileType)
    requires t != Invalid && u != Invalid
    requires TileTypeToChar(t) == TileTypeToChar(u)
    ensures t == u
  {
    TileRoundTrip(t);
    TileRoundTrip(u);
  }

  /** The three valid tiles have three different colours. */
  lemma TileTypeToColorInjective(t: TileType, u: TileType)
    requires t != Invalid && u != Invalid
    requires TileTypeToColor(t) == TileTypeToColor(u)
    ensures t == u
  {
  }
}
