/** glTF's transforms over exact reals: column-major products, quaternion rotations, and what a node does to a point. */
module GltfMatrix {
  datatype Vec3 = Vec3(x: real, y: real, z: real)

  datatype Vec4 = Vec4(x: real, y: real, z: real, w: real)

  /** A 4x4 matrix by columns, as glTF stores them. */
  datatype Mat = Mat(c0: Vec4, c1: Vec4, c2: Vec4, c3: Vec4)

  const IDENTITY := Mat(Vec4(1.0, 0.0, 0.0, 0.0), Vec4(0.0, 1.0, 0.0, 0.0), Vec4(0.0, 0.0, 1.0, 0.0),
                        Vec4(0.0, 0.0, 0.0, 1.0))

  function Point(p: Vec3): Vec4 { Vec4(p.x, p.y, p.z, 1.0) }

  // ---------------------------------------------------------------- matrices

  function Dot(a: Vec4, b: Vec4): real { a.x * b.x + a.y * b.y + a.z * b.z + a.w * b.w }

  function Row(m: Mat, i: nat): Vec4
    requires i < 4
  {
    match i
    case 0 => Vec4(m.c0.x, m.c1.x, m.c2.x, m.c3.x)
    case 1 => Vec4(m.c0.y, m.c1.y, m.c2.y, m.c3.y)
    case 2 => Vec4(m.c0.z, m.c1.z, m.c2.z, m.c3.z)
    case _ => Vec4(m.c0.w, m.c1.w, m.c2.w, m.c3.w)
  }

  /** The linear map a matrix stands for. */
  function Apply(m: Mat, v: Vec4): Vec4 {
    Vec4(Dot(Row(m, 0), v), Dot(Row(m, 1), v), Dot(Row(m, 2), v), Dot(Row(m, 3), v))
  }

  function ProductColumn(a: Mat, column: Vec4): Vec4 {
    Vec4(Dot(Row(a, 0), column), Dot(Row(a, 1), column), Dot(Row(a, 2), column), Dot(Row(a, 3), column))
  }

  /** The column-major product: entry (row, column) sums a's row against b's column. */
  function Multiply(a: Mat, b: Mat): Mat {
    Mat(ProductColumn(a, b.c0), ProductColumn(a, b.c1), ProductColumn(a, b.c2), ProductColumn(a, b.c3))
  }

  function Add(u: Vec4, v: Vec4): Vec4 { Vec4(u.x + v.x, u.y + v.y, u.z + v.z, u.w + v.w) }

  function Times(k: real, u: Vec4): Vec4 { Vec4(k * u.x, k * u.y, k * u.z, k * u.w) }

  lemma DotAdd(r: Vec4, u: Vec4, v: Vec4)
    ensures Dot(r, Add(u, v)) == Dot(r, u) + Dot(r, v)
  {
  }

  lemma DotTimes(r: Vec4, k: real, u: Vec4)
    ensures Dot(r, Times(k, u)) == k * Dot(r, u)
  {
  }

  /** A matrix applied to a vector combines the matrix's columns. */
  lemma ApplyCombines(b: Mat, v: Vec4)
    ensures Apply(b, v) == Add(Add(Times(v.x, b.c0), Times(v.y, b.c1)), Add(Times(v.z, b.c2), Times(v.w, b.c3)))
  {
  }

  lemma DotThrough(r: Vec4, b: Mat, v: Vec4)
    ensures Dot(Vec4(Dot(r, b.c0), Dot(r, b.c1), Dot(r, b.c2), Dot(r, b.c3)), v) == Dot(r, Apply(b, v))
  {
    var x, y, z, w := Times(v.x, b.c0), Times(v.y, b.c1), Times(v.z, b.c2), Times(v.w, b.c3);
    calc {
      Dot(r, Apply(b, v));
    ==  { ApplyCombines(b, v); }
      Dot(r, Add(Add(x, y), Add(z, w)));
    ==  { DotAdd(r, Add(x, y), Add(z, w)); DotAdd(r, x, y); DotAdd(r, z, w); }
      Dot(r, x) + Dot(r, y) + Dot(r, z) + Dot(r, w);
    ==  { DotTimes(r, v.x, b.c0); DotTimes(r, v.y, b.c1); DotTimes(r, v.z, b.c2); DotTimes(r, v.w, b.c3); }
      v.x * Dot(r, b.c0) + v.y * Dot(r, b.c1) + v.z * Dot(r, b.c2) + v.w * Dot(r, b.c3);
    }
  }

  /** The product of two matrices is the composition of their maps. */
  lemma ProductComposes(a: Mat, b: Mat, v: Vec4)
    ensures Apply(Multiply(a, b), v) == Apply(a, Apply(b, v))
  {
    DotThrough(Row(a, 0), b, v);
    DotThrough(Row(a, 1), b, v);
    DotThrough(Row(a, 2), b, v);
    DotThrough(Row(a, 3), b, v);
  }

  lemma IdentityApplies(v: Vec4)
    ensures Apply(IDENTITY, v) == v
  {
  }

  // ---------------------------------------------------------------- local transforms

  /** A node's transform: a matrix, or translation, rotation quaternion and scale. */
  datatype Transform = Matrix(m: Mat) | Trs(t: Vec3, q: Vec4, s: Vec3)

  /** A rotation's nine entries by columns. */
  datatype Rotation = Rotation(r0: Vec3, r1: Vec3, r2: Vec3)

  function RotationOf(q: Vec4): Rotation {
    var Vec4(x, y, z, w) := q;
    Rotation(Vec3(1.0 - 2.0 * (y*y + z*z), 2.0 * (x*y + z*w), 2.0 * (x*z - y*w)),
             Vec3(2.0 * (x*y - z*w), 1.0 - 2.0 * (x*x + z*z), 2.0 * (y*z + x*w)),
             Vec3(2.0 * (x*z + y*w), 2.0 * (y*z - x*w), 1.0 - 2.0 * (x*x + y*y)))
  }

  function Assembled(r: Rotation, s: Vec3, t: Vec3): Mat {
    Mat(Vec4(r.r0.x * s.x, r.r0.y * s.x, r.r0.z * s.x, 0.0),
        Vec4(r.r1.x * s.y, r.r1.y * s.y, r.r1.z * s.y, 0.0),
        Vec4(r.r2.x * s.z, r.r2.y * s.z, r.r2.z * s.z, 0.0),
        Vec4(t.x, t.y, t.z, 1.0))
  }

  function LocalMatrix(transform: Transform): Mat {
    match transform
    case Matrix(m) => m
    case Trs(t, q, s) => Assembled(RotationOf(q), s, t)
  }

  function Dot3(a: real, b: real, c: real, v: Vec3): real { a * v.x + b * v.y + c * v.z }

  function Turn(r: Rotation, v: Vec3): Vec3 {
    Vec3(Dot3(r.r0.x, r.r1.x, r.r2.x, v), Dot3(r.r0.y, r.r1.y, r.r2.y, v), Dot3(r.r0.z, r.r1.z, r.r2.z, v))
  }

  function Scaled(s: Vec3, p: Vec3): Vec3 { Vec3(s.x * p.x, s.y * p.y, s.z * p.z) }

  function Moved(p: Vec3, t: Vec3): Vec3 { Vec3(p.x + t.x, p.y + t.y, p.z + t.z) }

  lemma RowScaled(a: real, b: real, c: real, s: Vec3, t: real, p: Vec3)
    ensures Dot(Vec4(a * s.x, b * s.y, c * s.z, t), Point(p)) == Dot3(a, b, c, Scaled(s, p)) + t
  {
  }

  lemma LastRow(p: Vec3)
    ensures Dot(Vec4(0.0, 0.0, 0.0, 1.0), Point(p)) == 1.0
  {
  }

  lemma AssembledRows(r: Rotation, s: Vec3, t: Vec3)
    ensures Row(Assembled(r, s, t), 0) == Vec4(r.r0.x * s.x, r.r1.x * s.y, r.r2.x * s.z, t.x)
    ensures Row(Assembled(r, s, t), 1) == Vec4(r.r0.y * s.x, r.r1.y * s.y, r.r2.y * s.z, t.y)
    ensures Row(Assembled(r, s, t), 2) == Vec4(r.r0.z * s.x, r.r1.z * s.y, r.r2.z * s.z, t.z)
    ensures Row(Assembled(r, s, t), 3) == Vec4(0.0, 0.0, 0.0, 1.0)
  {
  }

  lemma AssembledApplies(r: Rotation, s: Vec3, t: Vec3, p: Vec3)
    ensures Apply(Assembled(r, s, t), Point(p)) == Point(Moved(Turn(r, Scaled(s, p)), t))
  {
    AssembledRows(r, s, t);
    RowScaled(r.r0.x, r.r1.x, r.r2.x, s, t.x, p);
    RowScaled(r.r0.y, r.r1.y, r.r2.y, s, t.y, p);
    RowScaled(r.r0.z, r.r1.z, r.r2.z, s, t.z, p);
    LastRow(p);
  }

  /** The Hamilton product, with the scalar part last as glTF writes quaternions. */
  function Hamilton(p: Vec4, q: Vec4): Vec4 {
    Vec4(p.w*q.x + p.x*q.w + p.y*q.z - p.z*q.y,
         p.w*q.y - p.x*q.z + p.y*q.w + p.z*q.x,
         p.w*q.z + p.x*q.y - p.y*q.x + p.z*q.w,
         p.w*q.w - p.x*q.x - p.y*q.y - p.z*q.z)
  }

  function Conjugate(q: Vec4): Vec4 { Vec4(-q.x, -q.y, -q.z, q.w) }

  /** Rotation of a vector by a unit quaternion: the vector part of q v q*. */
  function Rotated(q: Vec4, v: Vec3): Vec3 {
    var r := Hamilton(Hamilton(q, Vec4(v.x, v.y, v.z, 0.0)), Conjugate(q));
    Vec3(r.x, r.y, r.z)
  }

  predicate Unit(q: Vec4) { q.x*q.x + q.y*q.y + q.z*q.z + q.w*q.w == 1.0 }

  lemma Vanish(x: real, y: real, z: real, w: real)
    ensures x * 0.0 == 0.0 && y * 0.0 == 0.0 && z * 0.0 == 0.0 && w * 0.0 == 0.0
  {
  }

  lemma HalfRotated(q: Vec4, v: Vec3)
    ensures Hamilton(q, Vec4(v.x, v.y, v.z, 0.0)) ==
            Vec4(q.w*v.x + q.y*v.z - q.z*v.y, q.w*v.y - q.x*v.z + q.z*v.x, q.w*v.z + q.x*v.y - q.y*v.x,
                 -q.x*v.x - q.y*v.y - q.z*v.z)
  {
    Vanish(q.x, q.y, q.z, q.w);
  }

  /**
   * The coefficients of one coordinate of q v q*: m is minus the vector part of q, n its scalar part, p stands for q v.
   */
  lemma Coefficients(x: real, y: real, z: real, w: real, a: real, b: real, c: real,
                     px: real, py: real, pz: real, pw: real, mx: real, my: real, mz: real, n: real)
    requires px == w*a + y*c + mz*b && py == w*b + mx*c + z*a && pz == w*c + x*b + my*a && pw == mx*a + my*b + mz*c
    ensures pw*mx + px*n + py*mz - pz*my ==
            (mx*mx + w*n + z*mz - my*my) * a + (my*mx + mz*n + w*mz - x*my) * b + (mz*mx + y*n + mx*mz - w*my) * c
  {
    assert pw*mx == mx*mx*a + my*mx*b + mz*mx*c;
    assert px*n == w*n*a + y*n*c + mz*n*b;
    assert py*mz == w*mz*b + mx*mz*c + z*mz*a;
    assert pz*my == w*my*c + x*my*b + my*my*a;
  }

  lemma Entries(x: real, y: real, z: real, w: real, mx: real, my: real, mz: real, n: real, ka: real, kb: real, kc: real)
    requires x*x + y*y + z*z + w*w == 1.0
    requires mx == -x && my == -y && mz == -z && n == w
    requires ka == 1.0 - 2.0 * (y*y + z*z) && kb == 2.0 * (x*y - z*w) && kc == 2.0 * (x*z + y*w)
    ensures mx*mx + w*n + z*mz - my*my == ka && my*mx + mz*n + w*mz - x*my == kb && mz*mx + y*n + mx*mz - w*my == kc
  {
  }

  /** One coordinate of q v q*, over scalars, with k for a row of the rotation. */
  lemma RotatedCoordinate(x: real, y: real, z: real, w: real, a: real, b: real, c: real,
                          px: real, py: real, pz: real, pw: real, mx: real, my: real, mz: real, n: real,
                          ka: real, kb: real, kc: real)
    requires x*x + y*y + z*z + w*w == 1.0
    requires px == w*a + y*c + mz*b && py == w*b + mx*c + z*a && pz == w*c + x*b + my*a && pw == mx*a + my*b + mz*c
    requires mx == -x && my == -y && mz == -z && n == w
    requires ka == 1.0 - 2.0 * (y*y + z*z) && kb == 2.0 * (x*y - z*w) && kc == 2.0 * (x*z + y*w)
    ensures pw * mx + px * n + py * mz - pz * my == ka * a + kb * b + kc * c
  {
    Coefficients(x, y, z, w, a, b, c, px, py, pz, pw, mx, my, mz, n);
    Entries(x, y, z, w, mx, my, mz, n, ka, kb, kc);
  }

  lemma HamiltonAt(p: Vec4, m: Vec4)
    ensures Hamilton(p, m).x == p.w * m.x + p.x * m.w + p.y * m.z - p.z * m.y
    ensures Hamilton(p, m).y == p.w * m.y + p.y * m.w + p.z * m.x - p.x * m.z
    ensures Hamilton(p, m).z == p.w * m.z + p.z * m.w + p.x * m.y - p.y * m.x
  {
  }

  lemma RotatedX(q: Vec4, v: Vec3, p: Vec4, m: Vec4, r: Rotation)
    requires Unit(q) && p == Hamilton(q, Vec4(v.x, v.y, v.z, 0.0)) && m == Conjugate(q) && r == RotationOf(q)
    ensures Hamilton(p, m).x == Turn(r, v).x
  {
    HalfRotated(q, v);
    RotatedCoordinate(q.x, q.y, q.z, q.w, v.x, v.y, v.z, p.x, p.y, p.z, p.w, m.x, m.y, m.z, m.w, r.r0.x, r.r1.x,
                      r.r2.x);
    HamiltonAt(p, m);
  }

  lemma RotatedY(q: Vec4, v: Vec3, p: Vec4, m: Vec4, r: Rotation)
    requires Unit(q) && p == Hamilton(q, Vec4(v.x, v.y, v.z, 0.0)) && m == Conjugate(q) && r == RotationOf(q)
    ensures Hamilton(p, m).y == Turn(r, v).y
  {
    HalfRotated(q, v);
    RotatedCoordinate(q.y, q.z, q.x, q.w, v.y, v.z, v.x, p.y, p.z, p.x, p.w, m.y, m.z, m.x, m.w, r.r1.y, r.r2.y,
                      r.r0.y);
    HamiltonAt(p, m);
  }

  lemma RotatedZ(q: Vec4, v: Vec3, p: Vec4, m: Vec4, r: Rotation)
    requires Unit(q) && p == Hamilton(q, Vec4(v.x, v.y, v.z, 0.0)) && m == Conjugate(q) && r == RotationOf(q)
    ensures Hamilton(p, m).z == Turn(r, v).z
  {
    HalfRotated(q, v);
    RotatedCoordinate(q.z, q.x, q.y, q.w, v.z, v.x, v.y, p.z, p.x, p.y, p.w, m.z, m.x, m.y, m.w, r.r2.z, r.r0.z,
                      r.r1.z);
    HamiltonAt(p, m);
  }

  lemma TurnIsRotation(q: Vec4, v: Vec3)
    requires Unit(q)
    ensures Turn(RotationOf(q), v) == Rotated(q, v)
  {
    var p, m, r := Hamilton(q, Vec4(v.x, v.y, v.z, 0.0)), Conjugate(q), RotationOf(q);
    RotatedX(q, v, p, m, r);
    RotatedY(q, v, p, m, r);
    RotatedZ(q, v, p, m, r);
  }

  /** A node with a unit quaternion scales, then rotates, then translates (section 3.5.3 of glTF 2.0). */
  lemma LocalIsScaleRotateTranslate(t: Vec3, q: Vec4, s: Vec3, p: Vec3)
    requires Unit(q)
    ensures Apply(LocalMatrix(Trs(t, q, s)), Point(p)) == Point(Moved(Rotated(q, Scaled(s, p)), t))
  {
    AssembledApplies(RotationOf(q), s, t, p);
    TurnIsRotation(q, Scaled(s, p));
  }

  /** A node with a matrix applies that matrix: its sixteen numbers are taken column by column. */
  lemma MatrixIsItself(m: Mat, v: Vec4)
    ensures Apply(LocalMatrix(Matrix(m)), v) ==
            Vec4(v.x * m.c0.x + v.y * m.c1.x + v.z * m.c2.x + v.w * m.c3.x,
                 v.x * m.c0.y + v.y * m.c1.y + v.z * m.c2.y + v.w * m.c3.y,
                 v.x * m.c0.z + v.y * m.c1.z + v.z * m.c2.z + v.w * m.c3.z,
                 v.x * m.c0.w + v.y * m.c1.w + v.z * m.c2.w + v.w * m.c3.w)
  {
    ApplyCombines(m, v);
  }
}
