/** The bounding-box computation of DomainDescriptionFactory::boundingBoxFactory:
    three whitespace-separated strings (base pose, link pose, box size) become a
    cuboid of eight vertices and three axis normals. Doubles are modelled as
    exact reals; the decimal conversion `atof` is a parameter. */
module Geometry {
  import opened Wrappers
  import opened Strings

  datatype Vector = Vector(x: real, y: real, z: real)

  function Plus(a: Vector, b: Vector): Vector {
    Vector(a.x + b.x, a.y + b.y, a.z + b.z)
  }

  /** VectorOperations::minus, assumed componentwise a - b (nddlgen::math is
      not part of this model). */
  function Minus(a: Vector, b: Vector): Vector {
    Vector(a.x - b.x, a.y - b.y, a.z - b.z)
  }

  /** VectorOperations::crossProduct, assumed to be the right-handed a x b. */
  function CrossProduct(a: Vector, b: Vector): Vector {
    Vector(a.y * b.z - a.z * b.y, a.z * b.x - a.x * b.z, a.x * b.y - a.y * b.x)
  }

  function Dot(a: Vector, b: Vector): real {
    a.x * b.x + a.y * b.y + a.z * b.z
  }

  /** Eight vertices and the three (unnormalised) axis normals. */
  datatype Cuboid = Cuboid(vertices: seq<Vector>, xAxisNormal: Vector, yAxisNormal: Vector, zAxisNormal: Vector)

  /** A pose: translation and roll, pitch, yaw. */
  datatype Pose = Pose(x: real, y: real, z: real, roll: real, pitch: real, yaw: real)

  function Translation(p: Pose): Vector {
    Vector(p.x, p.y, p.z)
  }

  /** A pose or size string with too few tokens. The C++ code indexes the split
      vector without a bounds check; the model reports it instead. */
  datatype GeometryError =
    | MalformedBasePose(raw: string)
    | MalformedPose(raw: string)
    | MalformedSize(raw: string)

  const PoseTokens: nat := 6
  const SizeTokens: nat := 3

  /** The first three tokens are the translation, the next three the rotation. */
  function ParsePose(atof: string -> real, tokens: seq<string>): (r: Pose)
    requires |tokens| >= PoseTokens
  {
    Pose(atof(tokens[0]), atof(tokens[1]), atof(tokens[2]),
         atof(tokens[3]), atof(tokens[4]), atof(tokens[5]))
  }

  /** Half of each size component. */
  function Extents(atof: string -> real, tokens: seq<string>): (r: Vector)
    requires |tokens| >= SizeTokens
  {
    Vector(atof(tokens[0]) / 2.0, atof(tokens[1]) / 2.0, atof(tokens[2]) / 2.0)
  }

  /** The eight vertices, in the order of the C++ code (vertex1 .. vertex8). */
  function Vertices(base: Pose, local: Pose, e: Vector): (r: seq<Vector>)
    ensures |r| == 8
    ensures forall k :: 0 <= k < 8 ==> r[k] == Corner(Plus(Translation(base), Translation(local)), e, k)
  {
    [ Vector(local.x + e.x + base.x, local.y + e.y + base.y, local.z + e.z + base.z),
      Vector(local.x + e.x + base.x, local.y - e.y + base.y, local.z + e.z + base.z),
      Vector(local.x - e.x + base.x, local.y + e.y + base.y, local.z + e.z + base.z),
      Vector(local.x - e.x + base.x, local.y - e.y + base.y, local.z + e.z + base.z),
      Vector(local.x + e.x + base.x, local.y + e.y + base.y, local.z - e.z + base.z),
      Vector(local.x + e.x + base.x, local.y - e.y + base.y, local.z - e.z + base.z),
      Vector(local.x - e.x + base.x, local.y + e.y + base.y, local.z - e.z + base.z),
      Vector(local.x - e.x + base.x, local.y - e.y + base.y, local.z - e.z + base.z) ]
  }

  /** The cuboid with its normals, each a cross product of two edges anchored at
      vertex5 (the fifth vertex, index 4). */
  function CuboidOf(base: Pose, local: Pose, e: Vector): (r: Cuboid)
    ensures r.vertices == Vertices(base, local, e)
    ensures r.xAxisNormal == Vector(4.0 * e.y * e.z, 0.0, 0.0)
    ensures r.yAxisNormal == Vector(0.0, -4.0 * e.x * e.z, 0.0)
    ensures r.zAxisNormal == Vector(0.0, 0.0, 4.0 * e.x * e.y)
  {
    Edges(base, local, e);
    var v := Vertices(base, local, e);
    assert CrossProduct(Vector(0.0, 0.0, 2.0 * e.z), Vector(0.0, -2.0 * e.y, 0.0)) == Vector(4.0 * e.y * e.z, 0.0, 0.0);
    assert CrossProduct(Vector(0.0, 0.0, 2.0 * e.z), Vector(-2.0 * e.x, 0.0, 0.0)) == Vector(0.0, -4.0 * e.x * e.z, 0.0);
    assert CrossProduct(Vector(-2.0 * e.x, 0.0, 0.0), Vector(0.0, -2.0 * e.y, 0.0)) == Vector(0.0, 0.0, 4.0 * e.x * e.y);
    Cuboid(v,
           CrossProduct(Minus(v[0], v[4]), Minus(v[5], v[4])),
           CrossProduct(Minus(v[0], v[4]), Minus(v[6], v[4])),
           CrossProduct(Minus(v[6], v[4]), Minus(v[5], v[4])))
  }

  /** boundingBoxFactory(basePose, pose, size). */
  function BoundingBoxFactory(atof: string -> real, basePose: string, pose: string, size: string): (r: Result<Cuboid, GeometryError>)
    ensures r.Success? <==>
              |Split(basePose, ' ')| >= PoseTokens && |Split(pose, ' ')| >= PoseTokens && |Split(size, ' ')| >= SizeTokens
    ensures r.Failure? && |Split(basePose, ' ')| < PoseTokens ==> r.error == MalformedBasePose(basePose)
    ensures r.Success? ==> |r.value.vertices| == 8
  {
    var b := Split(basePose, ' ');
    var p := Split(pose, ' ');
    var s := Split(size, ' ');
    if |b| < PoseTokens then Failure(MalformedBasePose(basePose))
    else if |p| < PoseTokens then Failure(MalformedPose(pose))
    else if |s| < SizeTokens then Failure(MalformedSize(size))
    else Success(CuboidOf(ParsePose(atof, b), ParsePose(atof, p), Extents(atof, s)))
  }

  /** The box spans the given size: its main diagonal, from vertex8 to vertex1,
      is the size vector, and its midpoint is the base translation plus the
      link's own translation. */
  lemma {:induction false} BoxSpansSize(atof: string -> real, basePose: string, pose: string, size: string)
    requires BoundingBoxFactory(atof, basePose, pose, size).Success?
    ensures var v := BoundingBoxFactory(atof, basePose, pose, size).value.vertices;
            var b := Split(basePose, ' ');
            var p := Split(pose, ' ');
            var s := Split(size, ' ');
            Minus(v[0], v[7]) == Vector(atof(s[0]), atof(s[1]), atof(s[2])) &&
            Plus(v[0], v[7]) == Vector(2.0 * (atof(b[0]) + atof(p[0])), 2.0 * (atof(b[1]) + atof(p[1])), 2.0 * (atof(b[2]) + atof(p[2])))
  {
  }

  // ---------------------------------------------------------------------------
  // Reference description of the vertex order: vertex k sits at the centre plus
  // the extents with sign pattern (sx, sy, sz), where z is + for the first four,
  // x alternates in pairs and y alternates every vertex.

  function SignX(k: nat): real { if (k / 2) % 2 == 0 then 1.0 else -1.0 }
  function SignY(k: nat): real { if k % 2 == 0 then 1.0 else -1.0 }
  function SignZ(k: nat): real { if k < 4 then 1.0 else -1.0 }

  function Corner(c: Vector, e: Vector, k: nat): Vector {
    Vector(c.x + SignX(k) * e.x, c.y + SignY(k) * e.y, c.z + SignZ(k) * e.z)
  }

  /** Vertex k is the corner with the k-th sign pattern around base + local. */
  lemma VertexOrder(base: Pose, local: Pose, e: Vector, k: nat)
    requires k < 8
    ensures |Vertices(base, local, e)| == 8
    ensures Vertices(base, local, e)[k] == Corner(Plus(Translation(base), Translation(local)), e, k)
  {
  }

  /** Every vertex lies within the extents of the centre. */
  lemma VerticesWithinExtents(base: Pose, local: Pose, e: Vector, k: nat)
    requires k < 8
    ensures var v := Vertices(base, local, e)[k];
            var c := Plus(Translation(base), Translation(local));
            (v.x - c.x == e.x || v.x - c.x == -e.x) && (v.y - c.y == e.y || v.y - c.y == -e.y) &&
            (v.z - c.z == e.z || v.z - c.z == -e.z)
  {
  }

  /** Tokens beyond the sixth of a pose and the third of a size are ignored. */
  lemma ExtraTokensIgnored(atof: string -> real, pose: seq<string>, size: seq<string>)
    requires |pose| >= PoseTokens && |size| >= SizeTokens
    ensures ParsePose(atof, pose) == ParsePose(atof, pose[..PoseTokens])
    ensures Extents(atof, size) == Extents(atof, size[..SizeTokens])
  {
  }

  function Shifted(p: Pose, d: Vector): Pose {
    p.(x := p.x + d.x, y := p.y + d.y, z := p.z + d.z)
  }

  /** Shifting the base pose by d shifts every vertex by d. */
  lemma TranslationAdditive(base: Pose, local: Pose, e: Vector, d: Vector)
    ensures var before := Vertices(base, local, e);
            var after := Vertices(Shifted(base, d), local, e);
            |after| == |before| == 8 && forall k :: 0 <= k < 8 ==> after[k] == Plus(before[k], d)
  {
  }

  /** The rotation components of either pose do not affect the cuboid. */
  lemma RotationIgnored(base: Pose, local: Pose, e: Vector, base': Pose, local': Pose)
    requires Translation(base') == Translation(base) && Translation(local') == Translation(local)
    ensures CuboidOf(base', local', e) == CuboidOf(base, local, e)
  {
  }

  /** The three edges from vertex5 used for the normals run along z, y and x. */
  lemma Edges(base: Pose, local: Pose, e: Vector)
    ensures var v := Vertices(base, local, e);
            Minus(v[0], v[4]) == Vector(0.0, 0.0, 2.0 * e.z) &&
            Minus(v[5], v[4]) == Vector(0.0, -2.0 * e.y, 0.0) &&
            Minus(v[6], v[4]) == Vector(-2.0 * e.x, 0.0, 0.0)
  {
  }

  /** Closed form of the normals: each lies along its own axis. */
  lemma NormalsClosedForm(base: Pose, local: Pose, e: Vector)
    ensures var c := CuboidOf(base, local, e);
            c.xAxisNormal == Vector(4.0 * e.y * e.z, 0.0, 0.0) &&
            c.yAxisNormal == Vector(0.0, -4.0 * e.x * e.z, 0.0) &&
            c.zAxisNormal == Vector(0.0, 0.0, 4.0 * e.x * e.y)
  {
  }

  /** The normals are pairwise orthogonal, whatever the poses and sizes. */
  lemma {:induction false} NormalsOrthogonal(base: Pose, local: Pose, e: Vector)
    ensures var c := CuboidOf(base, local, e);
            Dot(c.xAxisNormal, c.yAxisNormal) == 0.0 &&
            Dot(c.xAxisNormal, c.zAxisNormal) == 0.0 &&
            Dot(c.yAxisNormal, c.zAxisNormal) == 0.0
  {
    NormalsClosedForm(base, local, e);
  }

  /** Each normal is perpendicular to the two edges it was computed from. */
  lemma {:induction false} NormalsPerpendicularToEdges(base: Pose, local: Pose, e: Vector)
    ensures var c := CuboidOf(base, local, e);
            var v := c.vertices;
            Dot(c.xAxisNormal, Minus(v[0], v[4])) == 0.0 && Dot(c.xAxisNormal, Minus(v[5], v[4])) == 0.0 &&
            Dot(c.yAxisNormal, Minus(v[0], v[4])) == 0.0 && Dot(c.yAxisNormal, Minus(v[6], v[4])) == 0.0 &&
            Dot(c.zAxisNormal, Minus(v[6], v[4])) == 0.0 && Dot(c.zAxisNormal, Minus(v[5], v[4])) == 0.0
  {
    NormalsClosedForm(base, local, e);
    Edges(base, local, e);
  }

  /** For a box of positive size the x and z normals point along +x and +z but
      the y normal points along -y: the three are not a consistently oriented
      set of outward face normals. */
  lemma {:induction false} NormalOrientation(base: Pose, local: Pose, e: Vector)
    requires e.x > 0.0 && e.y > 0.0 && e.z > 0.0
    ensures var c := CuboidOf(base, local, e);
            c.xAxisNormal.x > 0.0 && c.yAxisNormal.y < 0.0 && c.zAxisNormal.z > 0.0
  {
    NormalsClosedForm(base, local, e);
    assert e.y * e.z > 0.0;
    assert e.x * e.z > 0.0;
    assert e.x * e.y > 0.0;
  }

  /** BoundingBoxFactory once the three strings are known to split into enough tokens. */
  lemma FactoryOfTokens(atof: string -> real, basePose: string, pose: string, size: string,
                        b: seq<string>, p: seq<string>, s: seq<string>)
    requires Split(basePose, ' ') == b && Split(pose, ' ') == p && Split(size, ' ') == s
    requires |b| >= PoseTokens && |p| >= PoseTokens && |s| >= SizeTokens
    ensures BoundingBoxFactory(atof, basePose, pose, size) ==
            Success(CuboidOf(ParsePose(atof, b), ParsePose(atof, p), Extents(atof, s)))
  {
  }

  const UnitCube: Cuboid :=
    Cuboid([Vector(1.0, 1.0, 1.0), Vector(1.0, -1.0, 1.0), Vector(-1.0, 1.0, 1.0), Vector(-1.0, -1.0, 1.0),
            Vector(1.0, 1.0, -1.0), Vector(1.0, -1.0, -1.0), Vector(-1.0, 1.0, -1.0), Vector(-1.0, -1.0, -1.0)],
           Vector(4.0, 0.0, 0.0), Vector(0.0, -4.0, 0.0), Vector(0.0, 0.0, 4.0))

  const ZeroPose: Pose := Pose(0.0, 0.0, 0.0, 0.0, 0.0, 0.0)

  lemma UnitCubeValue()
    ensures CuboidOf(ZeroPose, ZeroPose, Vector(1.0, 1.0, 1.0)) == UnitCube
  {
    NormalsClosedForm(ZeroPose, ZeroPose, Vector(1.0, 1.0, 1.0));
  }

  const ZeroTokens: seq<string> := ["0", "0", "0", "0", "0", "0"]
  const UnitXTokens: seq<string> := ["1", "0", "0", "0", "0", "0"]
  const TwoTokens: seq<string> := ["2", "2", "2"]

  lemma CubeTokens(atof: string -> real, base: string, origin: string, size: string, b: seq<string>)
    requires (base == "0 0 0 0 0 0" && b == ZeroTokens) || (base == "1 0 0 0 0 0" && b == UnitXTokens)
    requires origin == "0 0 0 0 0 0" && size == "2 2 2"
    ensures BoundingBoxFactory(atof, base, origin, size) ==
            Success(CuboidOf(ParsePose(atof, b), ParsePose(atof, ZeroTokens), Extents(atof, TwoTokens)))
  {
    SplitZeroPose();
    SplitUnitXPose();
    SplitSize();
    FactoryOfTokens(atof, base, origin, size, b, ZeroTokens, TwoTokens);
  }

  lemma CubeNumbers(atof: string -> real)
    requires atof("0") == 0.0 && atof("1") == 1.0 && atof("2") == 2.0
    ensures ParsePose(atof, ZeroTokens) == ZeroPose
    ensures ParsePose(atof, UnitXTokens) == Shifted(ZeroPose, Vector(1.0, 0.0, 0.0))
    ensures Extents(atof, TwoTokens) == Vector(1.0, 1.0, 1.0)
  {
  }

  /** A size of "2 2 2" at the origin gives the vertices (+-1, +-1, +-1) in the
      fixed order, and normals of length four along the axes. */
  lemma {:induction false} UnitCubeAtOrigin(atof: string -> real, origin: string, size: string)
    requires atof("0") == 0.0 && atof("1") == 1.0 && atof("2") == 2.0
    requires origin == "0 0 0 0 0 0" && size == "2 2 2"
    ensures BoundingBoxFactory(atof, origin, origin, size) == Success(UnitCube)
  {
    CubeTokens(atof, origin, origin, size, ZeroTokens);
    CubeNumbers(atof);
    UnitCubeValue();
  }

  const UnitX: Vector := Vector(1.0, 0.0, 0.0)
  const Ones: Vector := Vector(1.0, 1.0, 1.0)

  /** Any strings that split into the shifted example's tokens give the shifted cube. */
  lemma {:induction false} ShiftedCubeOfTokens(atof: string -> real, unitX: string, origin: string, size: string)
    requires atof("0") == 0.0 && atof("1") == 1.0 && atof("2") == 2.0
    requires Split(unitX, ' ') == UnitXTokens && Split(origin, ' ') == ZeroTokens && Split(size, ' ') == TwoTokens
    ensures BoundingBoxFactory(atof, unitX, origin, size) == Success(CuboidOf(Shifted(ZeroPose, UnitX), ZeroPose, Ones))
  {
    FactoryOfTokens(atof, unitX, origin, size, UnitXTokens, ZeroTokens, TwoTokens);
    ShiftedCubeNumbers(atof);
  }

  /** The shifted example's tokens, read as numbers. */
  lemma ShiftedCubeNumbers(atof: string -> real)
    requires atof("0") == 0.0 && atof("1") == 1.0 && atof("2") == 2.0
    ensures CuboidOf(ParsePose(atof, UnitXTokens), ParsePose(atof, ZeroTokens), Extents(atof, TwoTokens)) ==
            CuboidOf(Shifted(ZeroPose, UnitX), ZeroPose, Ones)
  {
    CubeNumbers(atof);
  }

  /** Moving the base pose to x = 1 moves every vertex by +1 along x. */
  lemma {:induction false} UnitCubeShifted(atof: string -> real, unitX: string, origin: string, size: string)
    requires atof("0") == 0.0 && atof("1") == 1.0 && atof("2") == 2.0
    requires unitX == "1 0 0 0 0 0" && origin == "0 0 0 0 0 0" && size == "2 2 2"
    ensures var moved := BoundingBoxFactory(atof, unitX, origin, size);
            moved.Success? && |moved.value.vertices| == 8 &&
            forall k :: 0 <= k < 8 ==> moved.value.vertices[k] == Plus(UnitCube.vertices[k], UnitX)
  {
    SplitUnitXPose();
    SplitZeroPose();
    SplitSize();
    ShiftedCubeOfTokens(atof, unitX, origin, size);
    TranslationAdditive(ZeroPose, ZeroPose, Ones, UnitX);
    UnitCubeValue();
  }

  /** The token lists of the examples split back out of their strings. */
  lemma SplitZeroPose()
    ensures Split("0 0 0 0 0 0", ' ') == ZeroTokens
  {
    SplitJoin(ZeroTokens, ' ');
  }

  lemma SplitUnitXPose()
    ensures Split("1 0 0 0 0 0", ' ') == UnitXTokens
  {
    SplitJoin(UnitXTokens, ' ');
    assert Join(UnitXTokens, ' ') == "1 0 0 0 0 0";
  }

  lemma SplitSize()
    ensures Split("2 2 2", ' ') == TwoTokens
  {
    SplitJoin(TwoTokens, ' ');
  }
}
