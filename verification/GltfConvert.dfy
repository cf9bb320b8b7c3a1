/** What the converter writes: every mesh placed by its path, mirrored in z, and moved to stand on y = 0, centred. */
module GltfConvert {
  import opened Wrappers
  import opened GltfMatrix
  import opened GltfBake

  const SMALLEST := 0.00000000000000000001

  const MAX_TRIANGLES := 60000

  datatype Face = Face(a: int, b: int, c: int)

  datatype Part = Part(positions: seq<Vec3>, faces: seq<Face>)

  datatype Baked = Baked(parts: seq<Part>, low: Vec3, high: Vec3)

  // ---------------------------------------------------------------- faces

  function Flat(p: Primitive): seq<int> {
    match p.indices
    case Some(flat) => flat
    case None => seq(|p.positions|, i => i)
  }

  /** The k-th triple; a rest of one or two indices is dropped. */
  function Triple(flat: seq<int>, k: nat): Face
    requires k < |flat| / 3
  {
    Face(flat[3 * k], flat[3 * k + 1], flat[3 * k + 2])
  }

  predicate Proper(f: Face) { f.a != f.b && f.b != f.c && f.a != f.c }

  predicate Below(f: Face, count: nat) { f.a < count && f.b < count && f.c < count }

  /** The faces of the first n triples: those with three different corners. */
  function Faces(flat: seq<int>, n: nat): seq<Face>
    requires n <= |flat| / 3
  {
    if n == 0 then [] else Faces(flat, n - 1) + if Proper(Triple(flat, n - 1)) then [Triple(flat, n - 1)] else []
  }

  function FacesOf(p: Primitive): seq<Face> { Faces(Flat(p), |Flat(p)| / 3) }

  predicate InRange(p: Primitive) { forall k | 0 <= k < |Flat(p)| / 3 :: Below(Triple(Flat(p), k), |p.positions|) }

  ghost predicate Differ(flat: seq<int>, k: int)
    requires 0 <= k < |flat| / 3
  {
    flat[3 * k] != flat[3 * k + 1] && flat[3 * k + 1] != flat[3 * k + 2] && flat[3 * k] != flat[3 * k + 2]
  }

  /** Which triples the faces are: those at these places, in order, and exactly those with three different indices. */
  ghost predicate Lists(flat: seq<int>, n: nat, faces: seq<Face>, places: seq<int>)
    requires n <= |flat| / 3
  {
    && |places| == |faces| && (forall i, j :: 0 <= i < j < |places| ==> places[i] < places[j])
    && (forall k :: 0 <= k < n ==> (Differ(flat, k) <==> k in places))
    && (forall i :: 0 <= i < |places| ==>
          && 0 <= places[i] < n
          && faces[i] == Face(flat[3 * places[i]], flat[3 * places[i] + 1], flat[3 * places[i] + 2]))
  }

  /** What the faces of a primitive are to be: its indices taken three by three, or else its positions. */
  ghost predicate Draws(p: Primitive, faces: seq<Face>) {
    match p.indices
    case Some(flat) => exists places :: Lists(flat, |flat| / 3, faces, places)
    case None =>
      && |faces| == |p.positions| / 3
      && forall k :: 0 <= k < |faces| ==> faces[k] == Face(3 * k, 3 * k + 1, 3 * k + 2)
  }

  /** No index names a position past the last; one or two indices past the last triple are not looked at. */
  ghost predicate IndicesFit(p: Primitive) {
    match p.indices
    case Some(flat) => forall i :: 0 <= i < 3 * (|flat| / 3) ==> flat[i] < |p.positions|
    case None => true
  }

  function Corners(faces: seq<Face>): seq<int> {
    if faces == [] then []
    else var f := faces[|faces| - 1]; Corners(faces[..|faces| - 1]) + [f.a, f.b, f.c]
  }

  /** The triples side by side are the indices again. */
  lemma {:induction false} TriplesAreFlat(flat: seq<int>, n: nat)
    requires n <= |flat| / 3
    ensures Corners(seq(n, k requires 0 <= k < n => Triple(flat, k))) == flat[..3 * n]
  {
    var triples := seq(n, k requires 0 <= k < n => Triple(flat, k));
    if n > 0 {
      TriplesAreFlat(flat, n - 1);
      assert triples[..n - 1] == seq(n - 1, k requires 0 <= k < n - 1 => Triple(flat, k));
      assert flat[..3 * n] == flat[..3 * (n - 1)] + [flat[3 * n - 3], flat[3 * n - 2], flat[3 * n - 1]];
    }
  }

  lemma ListsOn(flat: seq<int>, n: nat, faces: seq<Face>, places: seq<int>)
    requires n < |flat| / 3 && Lists(flat, n, faces, places)
    ensures var f := Triple(flat, n);
            if Proper(f) then Lists(flat, n + 1, faces + [f], places + [n]) else Lists(flat, n + 1, faces, places)
  {
    assert Proper(Triple(flat, n)) <==> Differ(flat, n);
    assert n !in places;
    if Proper(Triple(flat, n)) {
      assert forall k :: 0 <= k < n + 1 ==> (k in places + [n] <==> k in places || k == n);
    }
  }

  lemma {:induction false} FacesAreTriples(flat: seq<int>, n: nat) returns (places: seq<int>)
    requires n <= |flat| / 3
    ensures Lists(flat, n, Faces(flat, n), places)
  {
    places := [];
    if n > 0 {
      places := FacesAreTriples(flat, n - 1);
      ListsOn(flat, n - 1, Faces(flat, n - 1), places);
      places := places + if Proper(Triple(flat, n - 1)) then [n - 1] else [];
      assert Faces(flat, n - 1) + [] == Faces(flat, n - 1);
    }
  }

  lemma {:induction false} CountedFaces(flat: seq<int>, n: nat)
    requires n <= |flat| / 3 && forall i :: 0 <= i < |flat| ==> flat[i] == i
    ensures Faces(flat, n) == seq(n, k => Face(3 * k, 3 * k + 1, 3 * k + 2))
  {
    if n > 0 {
      CountedFaces(flat, n - 1);
    }
  }

  lemma FacesAreDrawn(p: Primitive)
    ensures Draws(p, FacesOf(p))
  {
    var flat := Flat(p);
    if p.indices.None? {
      CountedFaces(flat, |flat| / 3);
    } else {
      var places := FacesAreTriples(flat, |flat| / 3);
    }
  }

  lemma RangeIsFit(p: Primitive)
    ensures InRange(p) <==> IndicesFit(p)
  {
    var flat := Flat(p);
    if InRange(p) && p.indices.Some? {
      forall i | 0 <= i < 3 * (|flat| / 3) ensures flat[i] < |p.positions| {
        assert Below(Triple(flat, i / 3), |p.positions|);
      }
    }
  }

  function Triangles(parts: seq<Part>): nat {
    if parts == [] then 0 else Triangles(parts[..|parts| - 1]) + |parts[|parts| - 1].faces|
  }

  lemma {:induction false} TrianglesAdd(a: seq<Part>, b: seq<Part>)
    ensures Triangles(a + b) == Triangles(a) + Triangles(b)
  {
    if b == [] {
      assert a + b == a;
    } else {
      assert (a + b)[..|a + b| - 1] == a + b[..|b| - 1];
      TrianglesAdd(a, b[..|b| - 1]);
    }
  }

  method CollectFaces(p: Primitive) returns (faces: Option<seq<Face>>)
    ensures faces == if InRange(p) then Some(FacesOf(p)) else None
    ensures faces.Some? <==> IndicesFit(p)
    ensures faces.Some? ==> Draws(p, faces.value)
  {
    RangeIsFit(p);
    var flat := Flat(p);
    var found: seq<Face> := [];
    for k := 0 to |flat| / 3
      invariant found == Faces(flat, k)
      invariant forall j | 0 <= j < k :: Below(Triple(flat, j), |p.positions|)
    {
      var f := Triple(flat, k);
      if !Below(f, |p.positions|) {
        return None;
      }
      if Proper(f) {
        found := found + [f];
      }
    }
    FacesAreDrawn(p);
    faces := Some(found);
  }

  // ---------------------------------------------------------------- placing vertices

  /** A vertex taken through every local matrix on its path, then mirrored in z. */
  function Vertex(m: Model, p: Path, v: Vec3): Vec3
    requires NodeAt(m, p).Some?
  {
    var w := Through(m, p, Point(v));
    Vec3(w.x, w.y, -w.z)
  }

  function PathPart(m: Model, p: Path, primitive: Primitive): Part
    requires NodeAt(m, p).Some?
  {
    Part(seq(|primitive.positions|, j requires 0 <= j < |primitive.positions| => Vertex(m, p, primitive.positions[j])),
         FacesOf(primitive))
  }

  /** The parts the visited paths draw: for each path with a mesh, each primitive's vertices and faces. */
  function PathParts(m: Model, p: Path): seq<Part>
    requires NodeAt(m, p).Some?
  {
    match NodeAt(m, p).value.mesh
    case None => []
    case Some(index) =>
      match At(m.meshes, index)
      case None => []
      case Some(mesh) =>
        seq(|mesh|, i requires 0 <= i < |mesh| => PathPart(m, p, mesh[i]))
  }

  function AllParts(m: Model, order: seq<Path>): seq<Part>
    requires AllSound(m, order)
  {
    if order == [] then []
    else AllParts(m, order[..|order| - 1]) + PathParts(m, order[|order| - 1])
  }

  function Carry(world: Mat, p: Vec3): Vec3 {
    Vec3(world.c0.x * p.x + world.c1.x * p.y + world.c2.x * p.z + world.c3.x,
         world.c0.y * p.x + world.c1.y * p.y + world.c2.y * p.z + world.c3.y,
         -(world.c0.z * p.x + world.c1.z * p.y + world.c2.z * p.z + world.c3.z))
  }

  function CarryAll(world: Mat, positions: seq<Vec3>): seq<Vec3> {
    seq(|positions|, j requires 0 <= j < |positions| => Carry(world, positions[j]))
  }

  function InstanceParts(i: Instance): seq<Part> {
    seq(|i.mesh|, k requires 0 <= k < |i.mesh| => Part(CarryAll(i.world, i.mesh[k].positions), FacesOf(i.mesh[k])))
  }

  function FoundParts(found: seq<Instance>): seq<Part> {
    if found == [] then [] else FoundParts(found[..|found| - 1]) + InstanceParts(found[|found| - 1])
  }

  lemma CarryIsVertex(m: Model, p: Path, v: Vec3)
    requires NodeAt(m, p).Some?
    ensures Carry(World(m, p), v) == Vertex(m, p, v)
  {
    WorldIsThrough(m, p, Point(v));
    CarryApplies(World(m, p), v);
  }

  lemma CarryApplies(world: Mat, v: Vec3)
    ensures var w := Apply(world, Point(v)); Carry(world, v) == Vec3(w.x, w.y, -w.z)
  {
  }

  lemma InstanceIsPath(m: Model, p: Path)
    requires NodeAt(m, p).Some?
    ensures |Drawn(m, p)| <= 1
    ensures PathParts(m, p) == if Drawn(m, p) == [] then [] else InstanceParts(Drawn(m, p)[0])
  {
    if Drawn(m, p) != [] {
      var i := Drawn(m, p)[0];
      forall k, j | 0 <= k < |i.mesh| && 0 <= j < |i.mesh[k].positions|
        ensures Carry(i.world, i.mesh[k].positions[j]) == Vertex(m, p, i.mesh[k].positions[j])
      {
        CarryIsVertex(m, p, i.mesh[k].positions[j]);
      }
      forall k | 0 <= k < |i.mesh| ensures InstanceParts(i)[k] == PathParts(m, p)[k] {
        assert InstanceParts(i)[k].positions == PathParts(m, p)[k].positions;
      }
    }
  }

  /** The world matrices of the walk place exactly what the paths do. */
  lemma {:induction false} FoundIsDrawn(m: Model, order: seq<Path>)
    requires AllSound(m, order)
    ensures FoundParts(AllDrawn(m, order)) == AllParts(m, order)
  {
    if order != [] {
      var before, p := order[..|order| - 1], order[|order| - 1];
      FoundIsDrawn(m, before);
      InstanceIsPath(m, p);
      var all, one := AllDrawn(m, before), Drawn(m, p);
      assert AllDrawn(m, order) == all + one;
      if one == [] {
        assert all + one == all;
      } else {
        assert (all + one)[..|all|] == all && (all + one)[|all|] == one[0];
      }
    }
  }

  // ---------------------------------------------------------------- what the parts are

  /** The primitives of the mesh a path's node names, if it names one. */
  function Shown(m: Model, p: Path): seq<Primitive> {
    if NodeAt(m, p).Some? && NodeAt(m, p).value.mesh.Some? && At(m.meshes, NodeAt(m, p).value.mesh.value).Some? then
      At(m.meshes, NodeAt(m, p).value.mesh.value).value
    else []
  }

  /** A primitive as a path places it: each position through the path, z negated, and the primitive's own faces. */
  ghost predicate IsPart(m: Model, p: Path, q: Primitive, t: Part) {
    && NodeAt(m, p).Some? && |t.positions| == |q.positions| && Draws(q, t.faces)
    && forall j :: 0 <= j < |t.positions| ==>
         var w := Through(m, p, Point(q.positions[j])); t.positions[j] == Vec3(w.x, w.y, -w.z)
  }

  /** The k-th primitive of the i-th path. */
  predicate IsOrigin(m: Model, order: seq<Path>, o: (nat, nat)) { o.0 < |order| && o.1 < |Shown(m, order[o.0])| }

  ghost predicate Sorted(origins: seq<(nat, nat)>) {
    forall a, b :: 0 <= a < b < |origins| ==>
      origins[a].0 < origins[b].0 || (origins[a].0 == origins[b].0 && origins[a].1 < origins[b].1)
  }

  /** One part for each primitive of each path, path by path. */
  ghost predicate Pictures(m: Model, order: seq<Path>, parts: seq<Part>, origins: seq<(nat, nat)>) {
    && |origins| == |parts| && Sorted(origins)
    && (forall o: (nat, nat) :: IsOrigin(m, order, o) ==> o in origins)
    && (forall a :: 0 <= a < |origins| ==>
          && IsOrigin(m, order, origins[a])
          && IsPart(m, order[origins[a].0], Shown(m, order[origins[a].0])[origins[a].1], parts[a]))
  }

  lemma PathIsPictured(m: Model, p: Path)
    requires NodeAt(m, p).Some?
    ensures |PathParts(m, p)| == |Shown(m, p)|
    ensures forall k :: 0 <= k < |Shown(m, p)| ==> IsPart(m, p, Shown(m, p)[k], PathParts(m, p)[k])
  {
    forall k | 0 <= k < |Shown(m, p)| ensures IsPart(m, p, Shown(m, p)[k], PathParts(m, p)[k]) {
      FacesAreDrawn(Shown(m, p)[k]);
    }
  }

  /** The origins one more path adds. */
  function Origins(i: nat, count: nat): seq<(nat, nat)> { seq(count, k requires 0 <= k < count => (i, k)) }

  lemma SortedGoesOn(origins: seq<(nat, nat)>, i: nat, count: nat)
    requires Sorted(origins) && forall a :: 0 <= a < |origins| ==> origins[a].0 < i
    ensures Sorted(origins + Origins(i, count))
  {
  }

  lemma OriginsGoOn(m: Model, order: seq<Path>, p: Path, origins: seq<(nat, nat)>)
    requires forall o: (nat, nat) :: IsOrigin(m, order, o) ==> o in origins
    ensures forall o: (nat, nat) :: IsOrigin(m, order + [p], o) ==> o in origins + Origins(|order|, |Shown(m, p)|)
  {
    var added := Origins(|order|, |Shown(m, p)|);
    forall o: (nat, nat) | IsOrigin(m, order + [p], o) ensures o in origins + added {
      if o.0 < |order| {
        assert IsOrigin(m, order, o);
      } else {
        assert added[o.1] == o;
      }
    }
  }

  lemma PicturesGoOn(m: Model, order: seq<Path>, p: Path, parts: seq<Part>, more: seq<Part>,
                     origins: seq<(nat, nat)>)
    requires Pictures(m, order, parts, origins) && |more| == |Shown(m, p)|
    requires forall k :: 0 <= k < |more| ==> IsPart(m, p, Shown(m, p)[k], more[k])
    ensures Pictures(m, order + [p], parts + more, origins + Origins(|order|, |more|))
  {
    SortedGoesOn(origins, |order|, |more|);
    OriginsGoOn(m, order, p, origins);
  }

  lemma {:induction false} PartsArePictures(m: Model, order: seq<Path>) returns (origins: seq<(nat, nat)>)
    requires AllSound(m, order)
    ensures Pictures(m, order, AllParts(m, order), origins)
  {
    origins := [];
    if order != [] {
      var n := |order| - 1;
      var before := PartsArePictures(m, order[..n]);
      var more := PathParts(m, order[n]);
      origins := before + Origins(n, |more|);
      PathIsPictured(m, order[n]);
      PicturesGoOn(m, order[..n], order[n], AllParts(m, order[..n]), more, before);
      assert order[..n] + [order[n]] == order;
    }
  }

  // ---------------------------------------------------------------- what is refused

  function Determinant(w: Mat): real {
    var a, b, c := w.c0.x, w.c1.x, w.c2.x;
    var d, e, f := w.c0.y, w.c1.y, w.c2.y;
    var g, h, i := w.c0.z, w.c1.z, w.c2.z;
    a * (e * i - f * h) + b * -(d * i - f * g) + c * (d * h - e * g)
  }

  function Cross(u: Vec4, v: Vec4): Vec3 { Vec3(u.y * v.z - u.z * v.y, u.z * v.x - u.x * v.z, u.x * v.y - u.y * v.x) }

  /** The cofactor expansion is the triple product of the columns: the volume their unit cube is stretched to. */
  lemma DeterminantIsVolume(w: Mat)
    ensures var n := Cross(w.c0, w.c1); Determinant(w) == n.x * w.c2.x + n.y * w.c2.y + n.z * w.c2.z
  {
    VolumeOf(w.c0.x, w.c1.x, w.c2.x, w.c0.y, w.c1.y, w.c2.y, w.c0.z, w.c1.z, w.c2.z);
  }

  lemma VolumeOf(a: real, b: real, c: real, d: real, e: real, f: real, g: real, h: real, i: real)
    ensures a * (e * i - f * h) + b * -(d * i - f * g) + c * (d * h - e * g) ==
            (d * h - g * e) * c + (g * b - a * h) * f + (a * e - d * b) * i
  {
  }

  predicate Flattens(w: Mat) { -SMALLEST < Determinant(w) < SMALLEST }

  function PrimitiveFault(p: Primitive): Option<Error> {
    if !p.triangles then Some(NotTriangles) else if !InRange(p) then Some(BadFace) else None
  }

  /** The first fault of a mesh's primitives, in order. */
  function MeshFault(mesh: seq<Primitive>): (fault: Option<Error>)
    ensures fault == None <==> forall k | 0 <= k < |mesh| :: PrimitiveFault(mesh[k]) == None
  {
    if mesh == [] then None
    else
      var n := |mesh| - 1;
      assert mesh == mesh[..n] + [mesh[n]];
      if MeshFault(mesh[..n]).Some? then MeshFault(mesh[..n]) else PrimitiveFault(mesh[n])
  }

  lemma {:induction false} FaultStays(mesh: seq<Primitive>, n: nat)
    requires n <= |mesh| && MeshFault(mesh[..n]).Some?
    ensures MeshFault(mesh) == MeshFault(mesh[..n])
  {
    if n == |mesh| {
      assert mesh[..n] == mesh;
    } else {
      assert mesh[..|mesh| - 1][..n] == mesh[..n];
      FaultStays(mesh[..|mesh| - 1], n);
    }
  }

  /** Why an instance is refused by itself, if it is. */
  function Fault(i: Instance): Option<Error> { if Flattens(i.world) then Some(Singular) else MeshFault(i.mesh) }

  /** A primitive nothing is wrong with. */
  ghost predicate IsSound(q: Primitive) { q.triangles && IndicesFit(q) }

  /** The k-th primitive is the first with something wrong. */
  ghost predicate BreaksAt(mesh: seq<Primitive>, k: int) {
    0 <= k < |mesh| && !IsSound(mesh[k]) && forall j :: 0 <= j < k ==> IsSound(mesh[j])
  }

  /** One more primitive breaks where the ones before did, or else at the last place if it is not sound. */
  lemma BreaksOneOn(less: seq<Primitive>, q: Primitive)
    ensures forall k :: BreaksAt(less + [q], k) <==>
                        BreaksAt(less, k) || (k == |less| && !IsSound(q) && forall p <- less :: IsSound(p))
  {
    var mesh := less + [q];
    assert forall j :: 0 <= j < |less| ==> mesh[j] == less[j];
  }

  lemma MeshFaultOneOn(less: seq<Primitive>, q: Primitive, fault: Option<Error>)
    ensures IsMeshFault(less + [q], fault) <==>
            if exists k :: BreaksAt(less, k) then IsMeshFault(less, fault) else fault == PrimitiveFault(q)
  {
    var mesh := less + [q];
    BreaksOneOn(less, q);
    RangeIsFit(q);
    if k :| BreaksAt(less, k) {
      assert BreaksAt(mesh, k) && !IsSound(mesh[k]);
      assert fault.Some? ==> (IsMeshFault(mesh, fault) <==> IsMeshFault(less, fault));
    } else {
      AllSoundUnlessBroken(less);
      assert !IsSound(q) ==> BreaksAt(mesh, |less|);
      assert mesh[|less|] == q;
    }
  }

  lemma {:induction false} AllSoundUnlessBroken(mesh: seq<Primitive>)
    ensures (exists k :: BreaksAt(mesh, k)) <==> exists q :: q in mesh && !IsSound(q)
  {
    if mesh != [] {
      var n := |mesh| - 1;
      AllSoundUnlessBroken(mesh[..n]);
      BreaksOneOn(mesh[..n], mesh[n]);
      assert mesh == mesh[..n] + [mesh[n]];
      if (forall p <- mesh[..n] :: IsSound(p)) && !IsSound(mesh[n]) {
        assert BreaksAt(mesh, n);
      }
      if k :| BreaksAt(mesh[..n], k) {
        assert BreaksAt(mesh, k);
      }
    }
  }

  lemma {:induction false} MeshFaultIsFirst(mesh: seq<Primitive>, fault: Option<Error>)
    ensures IsMeshFault(mesh, fault) <==> fault == MeshFault(mesh)
  {
    if mesh != [] {
      var n := |mesh| - 1;
      assert mesh == mesh[..n] + [mesh[n]];
      MeshFaultIsFirst(mesh[..n], fault);
      MeshFaultIsFirst(mesh[..n], None);
      AllSoundUnlessBroken(mesh[..n]);
      MeshFaultOneOn(mesh[..n], mesh[n], fault);
    }
  }

  /** What is wrong with a mesh: its first primitive with something wrong. */
  ghost predicate IsMeshFault(mesh: seq<Primitive>, fault: Option<Error>) {
    match fault
    case None => forall q <- mesh :: IsSound(q)
    case Some(error) =>
      exists k :: BreaksAt(mesh, k) && error == if mesh[k].triangles then BadFace else NotTriangles
  }

  /** The columns span next to no volume. */
  ghost predicate IsFlat(w: Mat) {
    var n := Cross(w.c0, w.c1);
    var volume := n.x * w.c2.x + n.y * w.c2.y + n.z * w.c2.z;
    -0.00000000000000000001 < volume < 0.00000000000000000001
  }

  lemma FlattensIsFlat(w: Mat)
    ensures Flattens(w) <==> IsFlat(w)
  {
    DeterminantIsVolume(w);
  }

  /** What is wrong with an instance: nearly no volume is left, or else what is wrong with its mesh. */
  ghost predicate IsFault(i: Instance, fault: Option<Error>) {
    if IsFlat(i.world) then fault == Some(Singular)
    else IsMeshFault(i.mesh, fault)
  }

  lemma FaultIsExact(i: Instance, fault: Option<Error>)
    ensures IsFault(i, fault) <==> fault == Fault(i)
  {
    FlattensIsFlat(i.world);
    MeshFaultIsFirst(i.mesh, fault);
  }

  method Place(world: Mat, positions: seq<Vec3>) returns (placed: seq<Vec3>)
    ensures placed == CarryAll(world, positions)
  {
    placed := [];
    for j := 0 to |positions|
      invariant placed == CarryAll(world, positions)[..j]
    {
      placed := placed + [Carry(world, positions[j])];
    }
  }

  lemma PartsGrow(parts: seq<Part>, some: seq<Part>, k: nat)
    requires k < |some|
    ensures parts + some[..k] + [some[k]] == parts + some[..k + 1]
    ensures Triangles(parts + some[..k + 1]) == Triangles(parts + some[..k]) + |some[k].faces|
    ensures Triangles(parts + some[..k + 1]) <= Triangles(parts + some)
  {
    var before, after := parts + some[..k], parts + some[..k + 1];
    assert after == before + [some[k]];
    assert after[..|after| - 1] == before;
    assert after + some[k + 1..] == parts + some;
    TrianglesAdd(after, some[k + 1..]);
  }

  /** One primitive: its mode and its indices are checked, and its positions placed. */
  method PlacePrimitive(world: Mat, q: Primitive) returns (r: Result<Part, Error>)
    ensures r.Ok? <==> PrimitiveFault(q) == None
    ensures r.Ok? ==> r.value == Part(CarryAll(world, q.positions), FacesOf(q))
    ensures r.Err? ==> Some(r.error) == PrimitiveFault(q)
  {
    if !q.triangles {
      return Err(NotTriangles);
    }
    var placed := Place(world, q.positions);
    var faces := CollectFaces(q);
    r := if faces.None? then Err(BadFace) else Ok(Part(placed, faces.value));
  }

  /** The primitives of one instance in order, each checked, placed and counted. */
  method PlaceMesh(i: Instance, parts: seq<Part>, triangles0: nat) returns (r: Result<seq<Part>, Error>, triangles: nat)
    requires !Flattens(i.world) && triangles0 == Triangles(parts) <= MAX_TRIANGLES
    ensures r.Ok? <==> Fault(i).None? && Triangles(parts + InstanceParts(i)) <= MAX_TRIANGLES
    ensures r.Ok? ==> Fault(i).None? && r.value == parts + InstanceParts(i) && triangles == Triangles(r.value)
    ensures r.Err? ==>
            (r.error == TooManyTriangles && Triangles(parts + InstanceParts(i)) > MAX_TRIANGLES)
            || Some(r.error) == Fault(i)
  {
    var after := parts;
    triangles := triangles0;
    for k := 0 to |i.mesh|
      invariant after == parts + InstanceParts(i)[..k] && triangles == Triangles(after)
      invariant MeshFault(i.mesh[..k]) == None
      invariant triangles <= MAX_TRIANGLES
    {
      assert i.mesh[..k + 1][..k] == i.mesh[..k];
      PartsGrow(parts, InstanceParts(i), k);
      var placed := PlacePrimitive(i.world, i.mesh[k]);
      if placed.Err? {
        FaultStays(i.mesh, k + 1);
        return Err(placed.error), triangles;
      }
      triangles := triangles + |placed.value.faces|;
      if triangles > MAX_TRIANGLES {
        return Err(TooManyTriangles), triangles;
      }
      after := after + [placed.value];
    }
    assert i.mesh[..|i.mesh|] == i.mesh && InstanceParts(i)[..|i.mesh|] == InstanceParts(i);
    r := Ok(after);
  }

  /** One instance: its transform must not flatten it, and its primitives must pass. */
  method PlaceInstance(i: Instance, parts: seq<Part>, triangles0: nat)
    returns (r: Result<seq<Part>, Error>, triangles: nat)
    requires triangles0 == Triangles(parts) <= MAX_TRIANGLES
    ensures r.Ok? <==> Fault(i).None? && Triangles(parts + InstanceParts(i)) <= MAX_TRIANGLES
    ensures r.Ok? ==> r.value == parts + InstanceParts(i) && triangles == Triangles(r.value)
    ensures r.Err? ==>
            (r.error == TooManyTriangles && Triangles(parts + InstanceParts(i)) > MAX_TRIANGLES)
            || Some(r.error) == Fault(i)
  {
    if Flattens(i.world) {
      return Err(Singular), triangles0;
    }
    r, triangles := PlaceMesh(i, parts, triangles0);
  }

  lemma {:induction false} FoundGrows(found: seq<Instance>, k: nat)
    requires k < |found|
    ensures FoundParts(found[..k + 1]) == FoundParts(found[..k]) + InstanceParts(found[k])
    ensures Triangles(FoundParts(found[..k + 1])) <= Triangles(FoundParts(found))
    decreases |found| - k
  {
    assert found[..k + 1][..k] == found[..k];
    if k + 1 == |found| {
      assert found[..k + 1] == found;
    } else {
      FoundGrows(found, k + 1);
      TrianglesAdd(FoundParts(found[..k + 1]), InstanceParts(found[k + 1]));
    }
  }

  /** The fault of the first instance that has one. */
  function FirstFault(found: seq<Instance>): (fault: Option<Error>)
    ensures fault == None ==> forall i <- found :: Fault(i) == None
    ensures fault.Some? ==> exists k :: 0 <= k < |found| && Fault(found[k]) == fault && forall j :: 0 <= j < k ==>
            Fault(found[j]) == None
  {
    if found == [] then None
    else
      var n := |found| - 1;
      assert found == found[..n] + [found[n]];
      if FirstFault(found[..n]).Some? then FirstFault(found[..n]) else Fault(found[n])
  }

  lemma {:induction false} FaultsInOrder(found: seq<Instance>, k: nat)
    requires k < |found|
    ensures FirstFault(found[..k]) == None ==> FirstFault(found[..k + 1]) == Fault(found[k])
    ensures FirstFault(found[..k + 1]).Some? ==> FirstFault(found) == FirstFault(found[..k + 1])
    decreases |found| - k
  {
    assert found[..k + 1][..k] == found[..k];
    if k + 1 == |found| {
      assert found[..k + 1] == found;
    } else {
      assert found[..k + 2][..k + 1] == found[..k + 1];
      FaultsInOrder(found, k + 1);
    }
  }

  /** All instances in order: refused for the first that is at fault by itself, or once there are too many triangles. */
  method PlaceFound(found: seq<Instance>) returns (r: Result<seq<Part>, Error>)
    ensures r.Ok? <==> FirstFault(found) == None && Triangles(FoundParts(found)) <= MAX_TRIANGLES
    ensures r.Ok? ==> r.value == FoundParts(found)
    ensures r.Err? ==>
            (r.error == TooManyTriangles && Triangles(FoundParts(found)) > MAX_TRIANGLES)
            || FirstFault(found) == Some(r.error)
  {
    var parts: seq<Part> := [];
    var triangles := 0;
    for k := 0 to |found|
      invariant FirstFault(found[..k]) == None
      invariant parts == FoundParts(found[..k]) && triangles == Triangles(parts) <= MAX_TRIANGLES
    {
      FoundGrows(found, k);
      FaultsInOrder(found, k);
      var placed;
      placed, triangles := PlaceInstance(found[k], parts, triangles);
      if placed.Err? {
        return placed;
      }
      parts := placed.value;
    }
    assert found[..|found|] == found;
    r := Ok(parts);
  }

  // ---------------------------------------------------------------- bounds

  ghost predicate Inside(points: seq<Vec3>, low: Vec3, high: Vec3) {
    forall p <- points :: low.x <= p.x <= high.x && low.y <= p.y <= high.y && low.z <= p.z <= high.z
  }

  ghost predicate Touched(points: seq<Vec3>, low: Vec3, high: Vec3) {
    && (exists p :: p in points && p.x == low.x) && (exists p :: p in points && p.x == high.x)
    && (exists p :: p in points && p.y == low.y) && (exists p :: p in points && p.y == high.y)
    && (exists p :: p in points && p.z == low.z) && (exists p :: p in points && p.z == high.z)
  }

  /** The smallest box around the points: everything is inside, and each of its six faces is touched. */
  ghost predicate IsBox(points: seq<Vec3>, low: Vec3, high: Vec3) {
    Inside(points, low, high) && Touched(points, low, high)
  }

  function Min(a: real, b: real): real { if b < a then b else a }

  function Max(a: real, b: real): real { if b > a then b else a }

  lemma BoxGrows(points: seq<Vec3>, p: Vec3, low: Vec3, high: Vec3)
    requires IsBox(points, low, high)
    ensures IsBox(points + [p], Vec3(Min(low.x, p.x), Min(low.y, p.y), Min(low.z, p.z)),
                  Vec3(Max(high.x, p.x), Max(high.y, p.y), Max(high.z, p.z)))
  {
    assert p in points + [p];
    assert forall q :: q in points ==> q in points + [p];
  }

  method Bounds(points: seq<Vec3>) returns (low: Vec3, high: Vec3)
    requires points != []
    ensures IsBox(points, low, high)
  {
    low, high := points[0], points[0];
    assert points[0] in points[..1];
    for k := 1 to |points|
      invariant IsBox(points[..k], low, high)
    {
      BoxGrows(points[..k], points[k], low, high);
      assert points[..k + 1] == points[..k] + [points[k]];
      low := Vec3(Min(low.x, points[k].x), Min(low.y, points[k].y), Min(low.z, points[k].z));
      high := Vec3(Max(high.x, points[k].x), Max(high.y, points[k].y), Max(high.z, points[k].z));
    }
    assert points[..|points|] == points;
  }

  /** Every vertex of every part. */
  function Every(parts: seq<Part>): seq<Vec3> {
    if parts == [] then [] else Every(parts[..|parts| - 1]) + parts[|parts| - 1].positions
  }

  lemma {:induction false} EveryIsEach(parts: seq<Part>)
    ensures forall v :: v in Every(parts) <==> exists t :: t in parts && v in t.positions
    ensures Every(parts) == [] <==> forall t <- parts :: t.positions == []
  {
    if parts != [] {
      EveryIsEach(parts[..|parts| - 1]);
      assert parts == parts[..|parts| - 1] + [parts[|parts| - 1]];
    }
  }

  method Gather(parts: seq<Part>) returns (every: seq<Vec3>)
    ensures every == Every(parts)
  {
    every := [];
    for k := 0 to |parts|
      invariant every == Every(parts[..k])
    {
      every := every + parts[k].positions;
      assert parts[..k + 1][..k] == parts[..k];
    }
    assert parts[..|parts|] == parts;
  }

  // ---------------------------------------------------------------- the shift

  function Shifted(points: seq<Vec3>, s: Vec3): seq<Vec3> {
    seq(|points|, j requires 0 <= j < |points| => Moved(points[j], s))
  }

  function AllShifted(parts: seq<Part>, s: Vec3): seq<Part> {
    seq(|parts|, i requires 0 <= i < |parts| => Part(Shifted(parts[i].positions, s), parts[i].faces))
  }

  lemma {:induction false} ShiftEvery(parts: seq<Part>, s: Vec3)
    ensures Every(AllShifted(parts, s)) == Shifted(Every(parts), s)
  {
    if parts != [] {
      var rest, last := parts[..|parts| - 1], parts[|parts| - 1];
      ShiftEvery(rest, s);
      assert AllShifted(parts, s)[..|parts| - 1] == AllShifted(rest, s);
      assert Shifted(Every(rest) + last.positions, s) == Shifted(Every(rest), s) + Shifted(last.positions, s);
    }
  }

  lemma ShiftedAre(points: seq<Vec3>, s: Vec3)
    ensures forall p <- points :: Moved(p, s) in Shifted(points, s)
    ensures forall q <- Shifted(points, s) :: exists p :: p in points && q == Moved(p, s)
  {
    forall p <- points ensures Moved(p, s) in Shifted(points, s) {
      var j :| 0 <= j < |points| && points[j] == p;
      assert Shifted(points, s)[j] == Moved(p, s);
    }
    forall q <- Shifted(points, s) ensures exists p :: p in points && q == Moved(p, s) {
      var j :| 0 <= j < |points| && Shifted(points, s)[j] == q;
      assert points[j] in points;
    }
  }

  lemma BoxMoves(points: seq<Vec3>, low: Vec3, high: Vec3, s: Vec3)
    requires IsBox(points, low, high)
    ensures IsBox(Shifted(points, s), Moved(low, s), Moved(high, s))
  {
    ShiftedAre(points, s);
    Touches(points, low, high, s);
    assert Inside(Shifted(points, s), Moved(low, s), Moved(high, s));
  }

  lemma Touches(points: seq<Vec3>, low: Vec3, high: Vec3, s: Vec3)
    requires Touched(points, low, high)
    requires forall p :: p in points ==> Moved(p, s) in Shifted(points, s)
    ensures Touched(Shifted(points, s), Moved(low, s), Moved(high, s))
  {
    var a :| a in points && a.x == low.x;
    var b :| b in points && b.x == high.x;
    var c :| c in points && c.y == low.y;
    var d :| d in points && d.y == high.y;
    var e :| e in points && e.z == low.z;
    var f :| f in points && f.z == high.z;
    assert Moved(a, s) in Shifted(points, s) && Moved(b, s) in Shifted(points, s) && Moved(c, s) in Shifted(points, s);
    assert Moved(d, s) in Shifted(points, s) && Moved(e, s) in Shifted(points, s) && Moved(f, s) in Shifted(points, s);
  }

  method ShiftParts(parts: seq<Part>, s: Vec3) returns (r: seq<Part>)
    ensures r == AllShifted(parts, s)
  {
    r := [];
    for i := 0 to |parts|
      invariant r == AllShifted(parts, s)[..i]
    {
      var points := parts[i].positions;
      var moved: seq<Vec3> := [];
      for j := 0 to |points|
        invariant moved == Shifted(points, s)[..j]
      {
        moved := moved + [Moved(points[j], s)];
      }
      assert moved == Shifted(points, s);
      r := r + [Part(moved, parts[i].faces)];
    }
  }

  /** Every position of every part moved by one vector, and the same faces. */
  ghost predicate MovedBy(parts: seq<Part>, after: seq<Part>, s: Vec3) {
    && |after| == |parts|
    && forall i :: 0 <= i < |parts| ==>
         && after[i].faces == parts[i].faces && |after[i].positions| == |parts[i].positions|
         && forall j :: 0 <= j < |parts[i].positions| ==>
              var v := parts[i].positions[j]; after[i].positions[j] == Vec3(v.x + s.x, v.y + s.y, v.z + s.z)
  }

  lemma ShiftedIsMoved(parts: seq<Part>, s: Vec3)
    ensures MovedBy(parts, AllShifted(parts, s), s)
  {
  }

  /** The model stands on y = 0, is centred in x and z, and its declared corners are its smallest box. */
  ghost predicate Stands(b: Baked) {
    && IsBox(Every(b.parts), b.low, b.high)
    && b.low.y == 0.0 && b.low.x == -b.high.x && b.low.z == -b.high.z
  }

  /** Moves all parts by the one vector that makes them stand. */
  method Stand(parts: seq<Part>, every: seq<Vec3>) returns (baked: Baked, ghost shift: Vec3)
    requires every == Every(parts) && every != []
    ensures MovedBy(parts, baked.parts, shift) && Stands(baked)
  {
    var low, high := Bounds(every);
    var s := Vec3(-(low.x + high.x) / 2.0, -low.y, -(low.z + high.z) / 2.0);
    var moved := ShiftParts(parts, s);
    ShiftEvery(parts, s);
    ShiftedIsMoved(parts, s);
    BoxMoves(every, low, high, s);
    shift := s;
    baked := Baked(moved, Moved(low, s), Moved(high, s));
  }

  /** The include's geometry from the placed parts. */
  method Assemble(parts: seq<Part>) returns (r: Result<Baked, Error>, ghost shift: Vec3)
    ensures r.Ok? <==> Every(parts) != []
    ensures r.Ok? ==> MovedBy(parts, r.value.parts, shift) && Stands(r.value)
    ensures r.Err? ==> r.error == if parts == [] then NoMeshes else NoPoints
    ensures r.Err? ==> forall t <- parts :: t.positions == []
  {
    EveryIsEach(parts);
    shift := Vec3(0.0, 0.0, 0.0);
    if parts == [] { return Err(NoMeshes), shift; }
    var every := Gather(parts);
    if every == [] { return Err(NoPoints), shift; }
    var baked;
    baked, shift := Stand(parts, every);
    r := Ok(baked);
  }

  /** The first instance with a fault has this one. */
  ghost predicate FaultsFirst(found: seq<Instance>, error: Error) {
    exists k :: 0 <= k < |found| && IsFault(found[k], Some(error)) && forall j :: 0 <= j < k ==> IsFault(found[j], None)
  }

  lemma FirstFaultIsFirst(found: seq<Instance>)
    ensures FirstFault(found) == None ==> forall i <- found :: IsFault(i, None)
    ensures FirstFault(found).Some? ==> FaultsFirst(found, FirstFault(found).value)
  {
    forall i <- found, fault ensures IsFault(i, fault) <==> fault == Fault(i) {
      FaultIsExact(i, fault);
    }
  }

  /** What the walk found is what the paths show, each mesh under the product of its path. */
  lemma {:induction false} DrawnIsShown(m: Model, order: seq<Path>)
    requires AllSound(m, order)
    ensures forall i <- AllDrawn(m, order) ::
              exists p :: p in order && NodeAt(m, p).Some? && i.mesh == Shown(m, p) && i.world == World(m, p)
  {
    if order != [] {
      var n := |order| - 1;
      DrawnIsShown(m, order[..n]);
      assert order == order[..n] + [order[n]];
    }
  }

  /** What each refusal says of the model. */
  ghost predicate Refused(m: Model, order: seq<Path>, error: Error) {
    match error
    case TooLarge => |order| > 10000
    case BadIndex => exists p :: Dangling(m, p)
    case TooManyTriangles => AllSound(m, order) && Triangles(AllParts(m, order)) > 60000
    case NoMeshes => AllSound(m, order) && AllParts(m, order) == []
    case NoPoints =>
      AllSound(m, order) && AllParts(m, order) != [] && forall t <- AllParts(m, order) :: t.positions == []
    case _ => AllSound(m, order) && FaultsFirst(AllDrawn(m, order), error)
  }

  /**
   * What success says: every path visited once and at most so many, nothing at fault, every vertex moved by one vector.
   */
  ghost predicate Written(m: Model, order: seq<Path>, b: Baked, shift: Vec3) {
    && |order| <= 10000 && AllSound(m, order) && (forall p :: Named(m, p) ==> p in order)
    && (forall i <- AllDrawn(m, order) :: IsFault(i, None)) && Triangles(AllParts(m, order)) <= 60000
    && MovedBy(AllParts(m, order), b.parts, shift) && Stands(b)
  }

  /** Instances are refused for the first fault, and nothing else is called a fault. */
  lemma FaultIsRefusal(m: Model, order: seq<Path>)
    requires AllSound(m, order)
    ensures var fault := FirstFault(AllDrawn(m, order));
            fault.Some? ==> fault != Some(TooManyTriangles) && Refused(m, order, fault.value)
  {
    var found := AllDrawn(m, order);
    if FirstFault(found).Some? {
      var k :| 0 <= k < |found| && Fault(found[k]) == FirstFault(found);
      MeshFaults(found[k].mesh);
      FirstFaultIsFirst(found);
    }
  }

  lemma {:induction false} MeshFaults(mesh: seq<Primitive>)
    ensures MeshFault(mesh).Some? ==> MeshFault(mesh).value in {NotTriangles, BadFace}
  {
    if mesh != [] {
      MeshFaults(mesh[..|mesh| - 1]);
    }
  }

  /**
   * The vertices written are those of every path of the scene, each path once, taken through the path's matrices,
   * mirrored, and all moved by one vector that makes the model stand; the faces are each primitive's own.
   */
  method Convert(m: Model) returns (r: Result<Baked, Error>, ghost order: seq<Path>, ghost shift: Vec3)
    ensures InOrder(order) && AllNamed(m, order)
    ensures r.Ok? ==> Written(m, order, r.value, shift)
    ensures r.Err? ==> Refused(m, order, r.error)
  {
    shift := Vec3(0.0, 0.0, 0.0);
    var instances;
    instances, order := Instances(m);
    if instances.Err? { return Err(instances.error), order, shift; }
    FoundIsDrawn(m, order);
    FaultIsRefusal(m, order);
    var placed := PlaceFound(instances.value);
    if placed.Err? { return Err(placed.error), order, shift; }
    FirstFaultIsFirst(instances.value);
    r, shift := Assemble(placed.value);
  }
}
