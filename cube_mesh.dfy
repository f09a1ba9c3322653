/**
 * The mesh the `Cube` constructor builds (src/geometry/cube.cpp): eight corner
 * vertices of a unit cube centred on the origin, 36 indices making two triangles on
 * each of its six sides, one surface covering all the indices, and the surface's
 * bounding box.
 *
 * The coordinates are all 0 or plus or minus one half, values a `float` holds exactly,
 * as do the sums, differences and halvings the bounds take of them, so they are
 * modelled as reals.
 */
module CubeMesh {

  datatype Vec3 = Vec3(x: real, y: real, z: real)

  /** The constructor's `glm::vec4 color`. */
  datatype Color4 = Color4(r: real, g: real, b: real, a: real)

  /** `Vertex`, with the fields the constructor sets. */
  datatype Vertex = Vertex(position: Vec3, normal: Vec3, color: Color4, uvX: real, uvY: real)

  /** `Bounds` without `sphere_radius`, whose square root is not modelled. */
  datatype Bounds = Bounds(origin: Vec3, extents: Vec3)

  /** `GeoSurface`, without its material. */
  datatype GeoSurface = GeoSurface(startIndex: nat, count: nat, bounds: Bounds)

  /** The mesh: vertices, indices and its one surface. */
  datatype Mesh = Mesh(vertices: seq<Vertex>, indices: seq<nat>, surface: GeoSurface)

  /** A side of the cube: the axis it is perpendicular to (0 = x, 1 = y, 2 = z) and its sign. */
  datatype Side = Side(axis: nat, positive: bool)

  function Coord(v: Vec3, axis: nat): real
    requires axis < 3
  {
    if axis == 0 then v.x else if axis == 1 then v.y else v.z
  }

  /** The sides in the order the constructor lists its faces: +y, -y, -z, +z, -x, +x. */
  function FaceSide(f: nat): Side
    requires f < 6
  {
    [Side(1, true), Side(1, false), Side(2, false), Side(2, true), Side(0, false), Side(0, true)][f]
  }

  /** Index `k` lies on side `s`: its vertex has coordinate +-1/2 on the side's axis. */
  predicate OnSide(vs: seq<Vertex>, k: nat, s: Side)
    requires s.axis < 3
  {
    k < |vs| && Coord(vs[k].position, s.axis) == (if s.positive then 0.5 else -0.5)
  }

  function Min(a: real, b: real): real {
    if b < a then b else a
  }

  function Max(a: real, b: real): real {
    if a < b then b else a
  }

  /** `glm::min` of two vectors: componentwise. */
  function MinVec(a: Vec3, b: Vec3): Vec3 {
    Vec3(Min(a.x, b.x), Min(a.y, b.y), Min(a.z, b.z))
  }

  /** `glm::max` of two vectors: componentwise. */
  function MaxVec(a: Vec3, b: Vec3): Vec3 {
    Vec3(Max(a.x, b.x), Max(a.y, b.y), Max(a.z, b.z))
  }

  /** `lo` is the componentwise minimum of the positions of `vs`: below all, reached by some. */
  predicate IsLowerCorner(lo: Vec3, vs: seq<Vertex>) {
    && (forall i :: 0 <= i < |vs| ==> lo.x <= vs[i].position.x && lo.y <= vs[i].position.y && lo.z <= vs[i].position.z)
    && (exists i :: 0 <= i < |vs| && lo.x == vs[i].position.x)
    && (exists i :: 0 <= i < |vs| && lo.y == vs[i].position.y)
    && (exists i :: 0 <= i < |vs| && lo.z == vs[i].position.z)
  }

  /** `hi` is the componentwise maximum of the positions of `vs`. */
  predicate IsUpperCorner(hi: Vec3, vs: seq<Vertex>) {
    && (forall i :: 0 <= i < |vs| ==> vs[i].position.x <= hi.x && vs[i].position.y <= hi.y && vs[i].position.z <= hi.z)
    && (exists i :: 0 <= i < |vs| && hi.x == vs[i].position.x)
    && (exists i :: 0 <= i < |vs| && hi.y == vs[i].position.y)
    && (exists i :: 0 <= i < |vs| && hi.z == vs[i].position.z)
  }

  /**
   * The bounding-box loop of the constructor: starting from the first vertex's position,
   * fold `glm::min` and `glm::max` over every vertex. The result is the smallest box
   * holding all the positions.
   */
  method BoxOf(vertices: seq<Vertex>) returns (minPos: Vec3, maxPos: Vec3)
    requires |vertices| > 0
    ensures IsLowerCorner(minPos, vertices)
    ensures IsUpperCorner(maxPos, vertices)
  {
    minPos := vertices[0].position;
    maxPos := vertices[0].position;
    ghost var ix, iy, iz, jx, jy, jz := 0, 0, 0, 0, 0, 0;
    for i := 0 to |vertices|
      invariant forall k :: 0 <= k < i ==>
        minPos.x <= vertices[k].position.x && minPos.y <= vertices[k].position.y && minPos.z <= vertices[k].position.z
      invariant forall k :: 0 <= k < i ==>
        vertices[k].position.x <= maxPos.x && vertices[k].position.y <= maxPos.y && vertices[k].position.z <= maxPos.z
      invariant ix < |vertices| && minPos.x == vertices[ix].position.x
      invariant iy < |vertices| && minPos.y == vertices[iy].position.y
      invariant iz < |vertices| && minPos.z == vertices[iz].position.z
      invariant jx < |vertices| && maxPos.x == vertices[jx].position.x
      invariant jy < |vertices| && maxPos.y == vertices[jy].position.y
      invariant jz < |vertices| && maxPos.z == vertices[jz].position.z
    {
      var p := vertices[i].position;
      if p.x < minPos.x { ix := i; }
      if p.y < minPos.y { iy := i; }
      if p.z < minPos.z { iz := i; }
      if maxPos.x < p.x { jx := i; }
      if maxPos.y < p.y { jy := i; }
      if maxPos.z < p.z { jz := i; }
      minPos := MinVec(minPos, p);
      maxPos := MaxVec(maxPos, p);
    }
  }

  /** A corner of the top (`y = 1/2`) or bottom (`y = -1/2`) side, with the fields every vertex shares. */
  function Corner(x: real, y: real, z: real, color: Color4): Vertex {
    Vertex(Vec3(x, y, z), Vec3(1.0, 0.0, 0.0), color, 0.0, 0.0)
  }

  /** The eight corners as the constructor places them: 0-3 on the top side, 4-7 on the bottom. */
  function CubeVertices(color: Color4): seq<Vertex> {
    [ Corner(-0.5, 0.5, -0.5, color), Corner(0.5, 0.5, -0.5, color),
      Corner(-0.5, 0.5, 0.5, color), Corner(0.5, 0.5, 0.5, color),
      Corner(-0.5, -0.5, -0.5, color), Corner(0.5, -0.5, -0.5, color),
      Corner(-0.5, -0.5, 0.5, color), Corner(0.5, -0.5, 0.5, color) ]
  }

  /** The six index groups, one per side, in the order the constructor appends them. */
  const CUBE_FACES: seq<seq<nat>> := [
    [0, 2, 1, 1, 2, 3],
    [4, 6, 5, 5, 6, 7],
    [0, 4, 1, 1, 4, 5],
    [2, 6, 3, 3, 6, 7],
    [0, 4, 2, 2, 4, 6],
    [3, 7, 1, 1, 7, 5]]

  /**
   * The corners: 8 of them, the top four at `y = 1/2` and the bottom four at `y = -1/2`,
   * each at `x, z = +-1/2`, no two at the same place, all with the given colour, normal
   * (1, 0, 0) and texture coordinates (0, 0).
   */
  lemma CubeVerticesShape(color: Color4)
    ensures var vs := CubeVertices(color);
      && |vs| == 8
      && (forall i :: 0 <= i < 8 ==> vs[i].position.y == (if i < 4 then 0.5 else -0.5))
      && (forall i :: 0 <= i < 8 ==>
            (vs[i].position.x == 0.5 || vs[i].position.x == -0.5) &&
            (vs[i].position.z == 0.5 || vs[i].position.z == -0.5))
      && (forall i, j :: 0 <= i < j < 8 ==> vs[i].position != vs[j].position)
      && (forall i :: 0 <= i < 8 ==>
            vs[i].normal == Vec3(1.0, 0.0, 0.0) && vs[i].color == color &&
            vs[i].uvX == 0.0 && vs[i].uvY == 0.0)
  {
  }

  /**
   * Six groups of six indices, 36 in all, each naming one of the 8 corners. Each group
   * lies on one side of the cube, no two groups on the same side, and each group's two
   * triangles have three different corners each.
   */
  lemma CubeFacesOnSides(color: Color4)
    ensures |CUBE_FACES| == 6
    ensures |CUBE_FACES[0] + CUBE_FACES[1] + CUBE_FACES[2] + CUBE_FACES[3] + CUBE_FACES[4] + CUBE_FACES[5]| == 36
    ensures forall f :: 0 <= f < 6 ==> |CUBE_FACES[f]| == 6 && FaceSide(f).axis < 3
    ensures forall f, k :: 0 <= f < 6 && k in CUBE_FACES[f] ==> k < 8 && OnSide(CubeVertices(color), k, FaceSide(f))
    ensures forall f, g :: 0 <= f < g < 6 ==> FaceSide(f) != FaceSide(g)
    ensures forall f, t :: 0 <= f < 6 && 0 <= t < 2 ==>
      CUBE_FACES[f][3 * t] != CUBE_FACES[f][3 * t + 1] && CUBE_FACES[f][3 * t + 1] != CUBE_FACES[f][3 * t + 2] &&
      CUBE_FACES[f][3 * t] != CUBE_FACES[f][3 * t + 2]
  {
    var vs := CubeVertices(color);
    forall f, k | 0 <= f < 6 && k in CUBE_FACES[f]
      ensures k < 8 && OnSide(vs, k, FaceSide(f))
    {
      if f == 0 { assert k in {0, 1, 2, 3}; }
      else if f == 1 { assert k in {4, 5, 6, 7}; }
      else if f == 2 { assert k in {0, 1, 4, 5}; }
      else if f == 3 { assert k in {2, 3, 6, 7}; }
      else if f == 4 { assert k in {0, 2, 4, 6}; }
      else { assert k in {1, 3, 5, 7}; }
    }
  }

  /**
   * The mesh part of `Cube::Cube`: the vertex list resized to 8 and filled by index, the
   * index list grown one side at a time, and the surface and its bounds.
   */
  method BuildCubeMesh(color: Color4) returns (m: Mesh)
    ensures m.vertices == CubeVertices(color)
    ensures m.indices == CUBE_FACES[0] + CUBE_FACES[1] + CUBE_FACES[2] + CUBE_FACES[3] + CUBE_FACES[4] + CUBE_FACES[5]
    ensures m.surface.startIndex == 0 && m.surface.count == |m.indices|
    ensures m.surface.bounds == Bounds(Vec3(0.0, 0.0, 0.0), Vec3(0.5, 0.5, 0.5))
  {
    var unset := Corner(0.0, 0.0, 0.0, Color4(0.0, 0.0, 0.0, 0.0));
    var vertices: seq<Vertex> := [unset, unset, unset, unset, unset, unset, unset, unset];
    var indices: seq<nat> := [];

    // Top side.
    var yPos := 0.5;
    vertices := vertices[0 := Corner(-0.5, yPos, -0.5, color)];
    vertices := vertices[1 := Corner(0.5, yPos, -0.5, color)];
    vertices := vertices[2 := Corner(-0.5, yPos, 0.5, color)];
    vertices := vertices[3 := Corner(0.5, yPos, 0.5, color)];
    indices := indices + [0, 2, 1, 1, 2, 3];

    // Bottom side.
    yPos := -0.5;
    vertices := vertices[4 := Corner(-0.5, yPos, -0.5, color)];
    vertices := vertices[5 := Corner(0.5, yPos, -0.5, color)];
    vertices := vertices[6 := Corner(-0.5, yPos, 0.5, color)];
    vertices := vertices[7 := Corner(0.5, yPos, 0.5, color)];
    indices := indices + [4, 6, 5, 5, 6, 7];

    // The four upright sides.
    indices := indices + [0, 4, 1, 1, 4, 5];
    indices := indices + [2, 6, 3, 3, 6, 7];
    indices := indices + [0, 4, 2, 2, 4, 6];
    indices := indices + [3, 7, 1, 1, 7, 5];

    assert vertices == CubeVertices(color);
    var minPos, maxPos := BoxOf(vertices);
    BoxOfCube(vertices, color, minPos, maxPos);
    var origin := Vec3((maxPos.x + minPos.x) / 2.0, (maxPos.y + minPos.y) / 2.0, (maxPos.z + minPos.z) / 2.0);
    var extents := Vec3((maxPos.x - minPos.x) / 2.0, (maxPos.y - minPos.y) / 2.0, (maxPos.z - minPos.z) / 2.0);
    m := Mesh(vertices, indices, GeoSurface(0, |indices|, Bounds(origin, extents)));
  }

  /** The eight corners, all coordinates one half from the centre: their box is [-1/2, 1/2]^3. */
  lemma BoxOfCube(vs: seq<Vertex>, color: Color4, lo: Vec3, hi: Vec3)
    requires vs == CubeVertices(color)
    requires IsLowerCorner(lo, vs) && IsUpperCorner(hi, vs)
    ensures lo == Vec3(-0.5, -0.5, -0.5) && hi == Vec3(0.5, 0.5, 0.5)
  {
    var ix :| 0 <= ix < |vs| && lo.x == vs[ix].position.x;
    var iy :| 0 <= iy < |vs| && lo.y == vs[iy].position.y;
    var iz :| 0 <= iz < |vs| && lo.z == vs[iz].position.z;
    var jx :| 0 <= jx < |vs| && hi.x == vs[jx].position.x;
    var jy :| 0 <= jy < |vs| && hi.y == vs[jy].position.y;
    var jz :| 0 <= jz < |vs| && hi.z == vs[jz].position.z;
    assert lo.x <= vs[0].position.x && lo.y <= vs[4].position.y && lo.z <= vs[0].position.z;
    assert vs[7].position.x <= hi.x && vs[0].position.y <= hi.y && vs[7].position.z <= hi.z;
  }
}
