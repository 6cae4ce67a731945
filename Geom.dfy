/** Vector helpers and the half-line intersection test of `M` (ToonMeshEdgeMerger/Editor/M.cs).
    Unity's float vectors are modelled over `real`, so every identity below is exact. */
module Geom {

  datatype Vec2 = Vec2(x: real, y: real)
  datatype Vec3 = Vec3(x: real, y: real, z: real)

  /** A ray: start point and direction (not necessarily normalised). */
  datatype HalfLine = HalfLine(pos: Vec2, dir: Vec2)

  function Add3(a: Vec3, b: Vec3): Vec3 { Vec3(a.x + b.x, a.y + b.y, a.z + b.z) }
  function Sub3(a: Vec3, b: Vec3): Vec3 { Vec3(a.x - b.x, a.y - b.y, a.z - b.z) }
  function Neg3(a: Vec3): Vec3 { Vec3(-a.x, -a.y, -a.z) }
  function Sub2(a: Vec2, b: Vec2): Vec2 { Vec2(a.x - b.x, a.y - b.y) }
  function Add2(a: Vec2, b: Vec2): Vec2 { Vec2(a.x + b.x, a.y + b.y) }
  function Scale2(k: real, a: Vec2): Vec2 { Vec2(k * a.x, k * a.y) }

  /** Unity converts a Vector2 to a Vector3 with z = 0 when it is passed to `dot`. */
  function To3(a: Vec2): Vec3 { Vec3(a.x, a.y, 0.0) }

  function Scale3(k: real, a: Vec3): Vec3 { Vec3(k * a.x, k * a.y, k * a.z) }

  function SqrMagnitude2(a: Vec2): real { a.x * a.x + a.y * a.y }
  function SqrMagnitude3(a: Vec3): real { a.x * a.x + a.y * a.y + a.z * a.z }

  /** `M.dot`. */
  function Dot(a: Vec3, b: Vec3): real { a.x * b.x + a.y * b.y + a.z * b.z }

  /** `M.dot` applied to two Vector2 values (through the implicit conversion). */
  function Dot2(a: Vec2, b: Vec2): real { Dot(To3(a), To3(b)) }

  /** `M.cross`: the result is orthogonal to both arguments. */
  function Cross(a: Vec3, b: Vec3): (r: Vec3)
    ensures Dot(r, a) == 0.0 && Dot(r, b) == 0.0
  {
    Vec3(a.y * b.z - a.z * b.y, a.z * b.x - a.x * b.z, a.x * b.y - a.y * b.x)
  }

  /** `M.rot270`: a quarter turn clockwise. */
  function Rot270(a: Vec2): (r: Vec2)
    ensures Dot2(a, r) == 0.0 && SqrMagnitude2(r) == SqrMagnitude2(a)
  {
    Vec2(a.y, -a.x)
  }

  /** `M.rot90`: a quarter turn counter-clockwise, undone by `Rot270`. */
  function Rot90(a: Vec2): (r: Vec2)
    ensures Dot2(a, r) == 0.0 && SqrMagnitude2(r) == SqrMagnitude2(a)
    ensures Rot270(r) == a
  {
    Vec2(-a.y, a.x)
  }

  lemma CrossAntiCommutes(a: Vec3, b: Vec3)
    ensures Cross(a, b) == Neg3(Cross(b, a))
  {
  }

  lemma RotationsInverse(a: Vec2)
    ensures Rot270(Rot90(a)) == a && Rot90(Rot270(a)) == a
    ensures Dot2(a, Rot90(a)) == 0.0
  {
  }

  /** The sign test of `isCrossing` once the connecting vector `p01` is known to be non-zero.
      `axis` is the vector the source rotates by 90 degrees to build its tangent. */
  function SideTest(l0: HalfLine, l1: HalfLine, axis: Vec2): bool
  {
    var p01t := Rot90(axis);
    var l0dt := Dot2(p01t, l0.dir);
    var l1dt := Dot2(p01t, l1.dir);
    if l0dt * l1dt < 0.0 then false
    else 0.0 < Dot2(Rot90(l0.dir), l1.dir) * l0dt
  }

  /** `M.isCrossing` exactly as written: `len` is `p01.magnitude`, which the caller supplies
      (square roots are not part of the model), and `p01` is divided by it. */
  function IsCrossingAsWritten(l0: HalfLine, l1: HalfLine, len: real): bool
    requires 0.0 <= len
  {
    var p01 := Sub2(l1.pos, l0.pos);
    if len == 0.0 then true
    else SideTest(l0, l1, Vec2(p01.x / len, p01.y / len))
  }

  /** The square-root-free form of `M.isCrossing`: the same sign test on the unnormalised `p01`.
      Rays that start at the same point count as crossing. */
  function IsCrossing(l0: HalfLine, l1: HalfLine): bool
  {
    var p01 := Sub2(l1.pos, l0.pos);
    if p01 == Vec2(0.0, 0.0) then true
    else SideTest(l0, l1, p01)
  }

  // Sign facts over plain reals. Keeping them free of function terms lets the solver's
  // nonlinear arithmetic decide them.

  lemma ScaledSigns(k: real, a0: real, a1: real, c: real)
    requires 0.0 < k
    ensures (a0 * a1 < 0.0) == ((k * a0) * (k * a1) < 0.0)
    ensures (0.0 < c * a0) == (0.0 < c * (k * a0))
  {
  }

  /** Scaling the axis by a positive factor changes none of the signs the test looks at. */
  lemma SideTestScaleInvariant(l0: HalfLine, l1: HalfLine, axis: Vec2, k: real)
    requires 0.0 < k
    ensures SideTest(l0, l1, Scale2(k, axis)) == SideTest(l0, l1, axis)
  {
    var t := Rot90(axis);
    var a0, a1 := Dot2(t, l0.dir), Dot2(t, l1.dir);
    var c := Dot2(Rot90(l0.dir), l1.dir);
    assert Dot2(Rot90(Scale2(k, axis)), l0.dir) == k * a0;
    assert Dot2(Rot90(Scale2(k, axis)), l1.dir) == k * a1;
    ScaledSigns(k, a0, a1, c);
  }

  /** Dividing `p01` by its (positive) length changes no sign the test uses, so the test as
      written agrees with the square-root-free model whenever the supplied length is zero exactly
      for the zero vector (as the exact magnitude is). */
  lemma NormalisationIrrelevant(l0: HalfLine, l1: HalfLine, len: real)
    requires 0.0 <= len && (len == 0.0) == (Sub2(l1.pos, l0.pos) == Vec2(0.0, 0.0))
    ensures IsCrossingAsWritten(l0, l1, len) == IsCrossing(l0, l1)
  {
    var p01 := Sub2(l1.pos, l0.pos);
    if len != 0.0 {
      assert Vec2(p01.x / len, p01.y / len) == Scale2(1.0 / len, p01);
      SideTestScaleInvariant(l0, l1, p01, 1.0 / len);
    }
  }

  /** The direction at angle theta from `u`, given as cos theta = c and sin theta = s. */
  function Turned(u: Vec2, c: real, s: real): Vec2
  {
    Add2(Scale2(c, u), Scale2(s, Rot90(u)))
  }

  lemma TangentIdentity(a: real, b: real, c: real, s: real)
    ensures 2.0 * b * (c * a - s * b) + (-2.0 * a) * (c * b + s * a) == -2.0 * s * (a * a + b * b)
  {
  }

  lemma TurningIdentity(a: real, b: real, c0: real, s0: real, c1: real, s1: real)
    ensures -(c0 * b + s0 * a) * (c1 * a - s1 * b) + (c0 * a - s0 * b) * (c1 * b + s1 * a)
            == -(s0 * c1 - c0 * s1) * (a * a + b * b)
  {
  }

  /** The tangent component of a turned direction against the connecting vector -2u. */
  lemma TangentTerm(u: Vec2, c: real, s: real)
    ensures Dot2(Rot90(Vec2(-2.0 * u.x, -2.0 * u.y)), Turned(u, c, s)) == -2.0 * s * SqrMagnitude2(u)
  {
    assert Turned(u, c, s) == Vec2(c * u.x - s * u.y, c * u.y + s * u.x);
    TangentIdentity(u.x, u.y, c, s);
  }

  /** The turning term of two directions turned from the same `u`. */
  lemma TurningTerm(u: Vec2, c0: real, s0: real, c1: real, s1: real)
    ensures Dot2(Rot90(Turned(u, c0, s0)), Turned(u, c1, s1)) == -(s0 * c1 - c0 * s1) * SqrMagnitude2(u)
  {
    assert Turned(u, c0, s0) == Vec2(c0 * u.x - s0 * u.y, c0 * u.y + s0 * u.x);
    assert Turned(u, c1, s1) == Vec2(c1 * u.x - s1 * u.y, c1 * u.y + s1 * u.x);
    TurningIdentity(u.x, u.y, c0, s0, c1, s1);
  }

  /** The three quantities the test computes for the symmetric configuration, q = |u|^2:
      the connecting vector is -2u, its tangent components are -2 s0 q and -2 s1 q, and the
      turning term is -sin(theta0 - theta1) q. */
  lemma SymmetricPairTerms(centre: Vec2, u: Vec2, c0: real, s0: real, c1: real, s1: real)
    ensures var l0 := HalfLine(Add2(centre, u), Turned(u, c0, s0));
      var l1 := HalfLine(Sub2(centre, u), Turned(u, c1, s1));
      var p01 := Sub2(l1.pos, l0.pos);
      && p01 == Vec2(-2.0 * u.x, -2.0 * u.y)
      && Dot2(Rot90(p01), l0.dir) == -2.0 * s0 * SqrMagnitude2(u)
      && Dot2(Rot90(p01), l1.dir) == -2.0 * s1 * SqrMagnitude2(u)
      && Dot2(Rot90(l0.dir), l1.dir) == -(s0 * c1 - c0 * s1) * SqrMagnitude2(u)
  {
    assert Sub2(Sub2(centre, u), Add2(centre, u)) == Vec2(-2.0 * u.x, -2.0 * u.y);
    TangentTerm(u, c0, s0);
    TangentTerm(u, c1, s1);
    TurningTerm(u, c0, s0, c1, s1);
  }

  lemma ConvergingSigns(s0: real, s1: real, w: real, q: real, l0dt: real, l1dt: real, cr: real)
    requires 0.0 < s0 && 0.0 < s1 && 0.0 < w && 0.0 < q
    requires l0dt == -2.0 * s0 * q && l1dt == -2.0 * s1 * q && cr == -w * q
    ensures !(l0dt * l1dt < 0.0) && 0.0 < cr * l0dt
  {
  }

  lemma DivergingSigns(s0: real, s1: real, w: real, q: real, l0dt: real, l1dt: real, cr: real)
    requires 0.0 < s1 && (s0 <= 0.0 || w < 0.0) && 0.0 < q
    requires l0dt == -2.0 * s0 * q && l1dt == -2.0 * s1 * q && cr == -w * q
    ensures l0dt * l1dt < 0.0 || !(0.0 < cr * l0dt)
  {
  }

  /** The symmetric configuration of the unit test: rays start at centre + u and centre - u and
      point at angles theta0 and theta1 from u. When 0 < theta1 < theta0 < pi (both sines positive
      and sin(theta0 - theta1) = s0*c1 - c0*s1 positive) the rays are reported as crossing. */
  lemma SymmetricPairConverging(centre: Vec2, u: Vec2, c0: real, s0: real, c1: real, s1: real)
    requires 0.0 < SqrMagnitude2(u)
    requires 0.0 < s0 && 0.0 < s1 && 0.0 < s0 * c1 - c0 * s1
    ensures IsCrossing(HalfLine(Add2(centre, u), Turned(u, c0, s0)),
                       HalfLine(Sub2(centre, u), Turned(u, c1, s1)))
  {
    var l0 := HalfLine(Add2(centre, u), Turned(u, c0, s0));
    var l1 := HalfLine(Sub2(centre, u), Turned(u, c1, s1));
    var p01 := Sub2(l1.pos, l0.pos);
    SymmetricPairTerms(centre, u, c0, s0, c1, s1);
    assert p01 != Vec2(0.0, 0.0);
    ConvergingSigns(s0, s1, s0 * c1 - c0 * s1, SqrMagnitude2(u),
      Dot2(Rot90(p01), l0.dir), Dot2(Rot90(p01), l1.dir), Dot2(Rot90(l0.dir), l1.dir));
  }

  /** The diverging configuration of the unit test: theta1 in (0, pi) and theta0 below both theta1
      and pi, i.e. sin theta0 <= 0 or sin(theta0 - theta1) < 0. The rays are reported as not crossing. */
  lemma SymmetricPairDiverging(centre: Vec2, u: Vec2, c0: real, s0: real, c1: real, s1: real)
    requires 0.0 < SqrMagnitude2(u)
    requires 0.0 < s1 && (s0 <= 0.0 || s0 * c1 - c0 * s1 < 0.0)
    ensures !IsCrossing(HalfLine(Add2(centre, u), Turned(u, c0, s0)),
                        HalfLine(Sub2(centre, u), Turned(u, c1, s1)))
  {
    var l0 := HalfLine(Add2(centre, u), Turned(u, c0, s0));
    var l1 := HalfLine(Sub2(centre, u), Turned(u, c1, s1));
    var p01 := Sub2(l1.pos, l0.pos);
    SymmetricPairTerms(centre, u, c0, s0, c1, s1);
    assert p01 != Vec2(0.0, 0.0);
    DivergingSigns(s0, s1, s0 * c1 - c0 * s1, SqrMagnitude2(u),
      Dot2(Rot90(p01), l0.dir), Dot2(Rot90(p01), l1.dir), Dot2(Rot90(l0.dir), l1.dir));
  }

  /** When the first ray has no component across the connecting line the final product is zero,
      so the test reports no crossing whatever the second ray does. */
  lemma AlongConnectingLineNotCrossing(l0: HalfLine, l1: HalfLine)
    requires Sub2(l1.pos, l0.pos) != Vec2(0.0, 0.0)
    requires Dot2(Rot90(Sub2(l1.pos, l0.pos)), l0.dir) == 0.0
    ensures !IsCrossing(l0, l1)
  {
    var cr := Dot2(Rot90(l0.dir), l1.dir);
    assert cr * 0.0 == 0.0;
  }

  /** A ray that starts on another ray, away from its start, is NOT reported as crossing when the
      first ray runs along the connecting line: ((0,0),(1,0)) against ((1,0),(-1,dy)) for every dy. */
  lemma TouchingInteriorNotCrossing(dy: real)
    ensures !IsCrossing(HalfLine(Vec2(0.0, 0.0), Vec2(1.0, 0.0)), HalfLine(Vec2(1.0, 0.0), Vec2(-1.0, dy)))
  {
  }
}
