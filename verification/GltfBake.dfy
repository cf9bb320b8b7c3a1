/**
 * Baking a glTF model into world space: node transforms composed down the scene, vertices moved through them, mirrored,
 * and shifted onto the ground plane. Normals, texture coordinates and materials are not part of this model.
 */
module GltfBake {
  import opened Wrappers
  import opened GltfMatrix

  const MAX_VISITS := 10000

  datatype Node = Node(transform: Transform, mesh: Option<int>, children: seq<int>)

  /** Positions, and the indices that list its triangles; without indices the positions are taken three by three. */
  datatype Primitive = Primitive(triangles: bool, positions: seq<Vec3>, indices: Option<seq<int>>)

  datatype Model = Model(nodes: seq<Node>, roots: seq<int>, meshes: seq<seq<Primitive>>)

  datatype Error = TooLarge | BadIndex | Singular | NotTriangles | BadFace | TooManyTriangles | NoMeshes | NoPoints

  /** Python's subscript: negative positions count from the end. */
  function At<T>(items: seq<T>, index: int): Option<T> {
    if 0 <= index < |items| then Some(items[index])
    else if -|items| <= index < 0 then Some(items[|items| + index])
    else None
  }

  // ---------------------------------------------------------------- paths through the scene

  /** A path names a visit: the position in the scene's list, then in each node's list of children. */
  type Path = seq<nat>

  function Above(p: Path): Path
    requires p != []
  {
    p[..|p| - 1]
  }

  /** The node at a path; the empty path is the scene, whose children are the roots. Nothing past a bad index. */
  function NodeAt(m: Model, p: Path): Option<Node>
    decreases |p|
  {
    if p == [] then Some(Node(Matrix(IDENTITY), None, m.roots))
    else
      var above := NodeAt(m, Above(p));
      if above.Some? && p[|p| - 1] < |above.value.children| then At(m.nodes, above.value.children[p[|p| - 1]]) else None
  }

  /** Some list on the way names this path, whether or not there is a node behind the index. */
  predicate Named(m: Model, p: Path) {
    p != [] && NodeAt(m, Above(p)).Some? && p[|p| - 1] < |NodeAt(m, Above(p)).value.children|
  }

  function IndexAt(m: Model, p: Path): int
    requires Named(m, p)
  {
    NodeAt(m, Above(p)).value.children[p[|p| - 1]]
  }

  /** The product of every local matrix on the path, root first. */
  function World(m: Model, p: Path): Mat
    requires NodeAt(m, p).Some?
    decreases |p|
  {
    if p == [] then IDENTITY else Multiply(World(m, Above(p)), LocalMatrix(NodeAt(m, p).value.transform))
  }

  /** A vector taken through the local matrices on the path one after another, the deepest first. */
  function Through(m: Model, p: Path, v: Vec4): Vec4
    requires NodeAt(m, p).Some?
    decreases |p|
  {
    if p == [] then v else Through(m, Above(p), Apply(LocalMatrix(NodeAt(m, p).value.transform), v))
  }

  lemma {:induction false} WorldIsThrough(m: Model, p: Path, v: Vec4)
    requires NodeAt(m, p).Some?
    ensures Apply(World(m, p), v) == Through(m, p, v)
    decreases |p|
  {
    if p == [] {
      IdentityApplies(v);
    } else {
      var local := LocalMatrix(NodeAt(m, p).value.transform);
      ProductComposes(World(m, Above(p)), local, v);
      WorldIsThrough(m, Above(p), Apply(local, v));
    }
  }

  /** A subscript reaches exactly the places of the list, counted from its start or, when negative, from its end. */
  lemma SubscriptReaches<T>(items: seq<T>, index: int)
    ensures At(items, index).Some? <==> -|items| <= index < |items|
    ensures 0 <= index < |items| ==> At(items, index) == Some(items[index])
    ensures 0 <= index < |items| ==> At(items, index - |items|) == At(items, index)
  {
  }

  function Counted<T>(items: seq<T>, index: int): T
    requires -|items| <= index < |items|
  {
    if index < 0 then items[|items| + index] else items[index]
  }

  /**
   * The node indices down a path: the root's from the scene, each other one from the children of the node before it.
   */
  ghost predicate Leads(m: Model, p: Path, indices: seq<int>) {
    && |indices| == |p|
    && (forall i :: 0 <= i < |p| ==> -|m.nodes| <= indices[i] < |m.nodes|)
    && (p != [] ==> p[0] < |m.roots| && indices[0] == m.roots[p[0]])
    && (forall i :: 0 <= i < |p| - 1 ==>
          var children := Counted(m.nodes, indices[i]).children;
          p[i + 1] < |children| && indices[i + 1] == children[p[i + 1]])
  }

  lemma LeadsAbove(m: Model, p: Path, indices: seq<int>)
    requires |p| > 1 && Leads(m, p, indices)
    ensures Leads(m, Above(p), indices[..|p| - 1])
  {
  }

  lemma LeadsOn(m: Model, p: Path, indices: seq<int>, index: int)
    requires |p| > 1 && Leads(m, Above(p), indices) && -|m.nodes| <= index < |m.nodes|
    requires var children := Counted(m.nodes, indices[|p| - 2]).children;
             p[|p| - 1] < |children| && index == children[p[|p| - 1]]
    ensures Leads(m, p, indices + [index])
  {
  }

  /** Indices that lead down a path lead to the node there. */
  lemma {:induction false} LeadsToNode(m: Model, p: Path, indices: seq<int>)
    requires p != [] && Leads(m, p, indices)
    ensures NodeAt(m, p) == Some(Counted(m.nodes, indices[|p| - 1]))
    decreases |p|
  {
    if |p| == 1 {
      assert Above(p) == [];
    } else {
      LeadsAbove(m, p, indices);
      LeadsToNode(m, Above(p), indices[..|p| - 1]);
    }
  }

  /** A node at a path has indices that lead down to it. */
  lemma {:induction false} NodeIsLedTo(m: Model, p: Path) returns (indices: seq<int>)
    requires p != [] && NodeAt(m, p).Some?
    ensures Leads(m, p, indices)
    decreases |p|
  {
    var index := NodeAt(m, Above(p)).value.children[p[|p| - 1]];
    if |p| == 1 {
      assert Above(p) == [];
      indices := [index];
    } else {
      var before := NodeIsLedTo(m, Above(p));
      LeadsToNode(m, Above(p), before);
      LeadsOn(m, p, before, index);
      indices := before + [index];
    }
  }

  // ---------------------------------------------------------------- the order of visits

  /** The paths part at some step, where p takes the later position: the stack gives the last child first. */
  predicate Right(p: Path, q: Path) {
    p != [] && q != [] && (p[0] > q[0] || (p[0] == q[0] && Right(p[1..], q[1..])))
  }

  /** A path is right of another when it takes the later position where they part. */
  lemma {:induction false} RightAtTheParting(p: Path, q: Path)
    ensures Right(p, q) <==> exists i :: 0 <= i < |p| && i < |q| && p[..i] == q[..i] && p[i] > q[i]
  {
    if p != [] && q != [] {
      RightAtTheParting(p[1..], q[1..]);
      if p[0] == q[0] && Right(p[1..], q[1..]) {
        var i :| 0 <= i < |p[1..]| && i < |q[1..]| && p[1..][..i] == q[1..][..i] && p[1..][i] > q[1..][i];
        assert p[..i + 1] == [p[0]] + p[1..][..i] && q[..i + 1] == [q[0]] + q[1..][..i];
        assert p[i + 1] > q[i + 1];
      }
      forall i | 0 < i < |p| && i < |q| && p[..i] == q[..i] && p[i] > q[i] ensures Right(p, q) {
        assert p[0] == p[..i][0] == q[0] && p[1..][..i - 1] == p[..i][1..] == q[1..][..i - 1];
        assert p[1..][i - 1] > q[1..][i - 1];
      }
    }
  }

  predicate Precedes(p: Path, q: Path) { p < q || Right(p, q) }

  predicate InOrder(order: seq<Path>) {
    forall i, j :: 0 <= i < j < |order| ==> Precedes(order[i], order[j])
  }

  lemma {:induction false} RightExtends(p: Path, q: Path, k: nat)
    requires Right(p, q)
    ensures Right(p + [k], q) && Right(p, q + [k])
  {
    if p[0] == q[0] {
      RightExtends(p[1..], q[1..], k);
      assert (p + [k])[1..] == p[1..] + [k] && (q + [k])[1..] == q[1..] + [k];
    }
  }

  lemma {:induction false} Siblings(p: Path, j: nat, k: nat)
    requires k < j
    ensures Right(p + [j], p + [k])
  {
    if p != [] {
      Siblings(p[1..], j, k);
      assert (p + [j])[1..] == p[1..] + [j] && (p + [k])[1..] == p[1..] + [k];
    }
  }

  lemma {:induction false} RightIsStrict(p: Path)
    ensures !Right(p, p)
  {
    if p != [] {
      RightIsStrict(p[1..]);
    }
  }

  lemma InOrderIsDistinct(order: seq<Path>)
    requires InOrder(order)
    ensures forall i, j :: 0 <= i < j < |order| ==> order[i] != order[j]
  {
    forall i, j | 0 <= i < j < |order|
      ensures order[i] != order[j]
    {
      assert Precedes(order[i], order[j]);
      RightIsStrict(order[i]);
    }
  }

  // ---------------------------------------------------------------- the walk

  datatype Instance = Instance(mesh: seq<Primitive>, world: Mat)

  /** What one visited path contributes. */
  function Drawn(m: Model, p: Path): seq<Instance>
    requires NodeAt(m, p).Some?
  {
    match NodeAt(m, p).value.mesh
    case None => []
    case Some(index) =>
      match At(m.meshes, index)
      case None => []
      case Some(mesh) => [Instance(mesh, World(m, p))]
  }

  /** A path whose index, or whose node's mesh index, leads nowhere. */
  predicate Dangling(m: Model, p: Path) {
    && Named(m, p)
    && (NodeAt(m, p).None? || (NodeAt(m, p).value.mesh.Some? && At(m.meshes, NodeAt(m, p).value.mesh.value).None?))
  }

  predicate AllNamed(m: Model, paths: seq<Path>) {
    forall i :: 0 <= i < |paths| ==> Named(m, paths[i])
  }

  predicate AllSound(m: Model, paths: seq<Path>) {
    forall i :: 0 <= i < |paths| ==> Named(m, paths[i]) && !Dangling(m, paths[i])
  }

  function AllDrawn(m: Model, order: seq<Path>): seq<Instance>
    requires AllSound(m, order)
  {
    if order == [] then []
    else AllDrawn(m, order[..|order| - 1]) + Drawn(m, order[|order| - 1])
  }

  /** Every named path directly under a visited one is visited or waiting. */
  ghost predicate Covered(m: Model, seen: seq<Path>, waiting: seq<Path>) {
    forall p: Path :: Named(m, p) && (Above(p) == [] || Above(p) in seen) ==> p in seen || p in waiting
  }

  /** The waiting paths part from one another, last first, and follow everything visited. */
  predicate Ahead(seen: seq<Path>, waiting: seq<Path>) {
    && (forall i, j :: 0 <= i < |seen| && 0 <= j < |waiting| ==> Precedes(seen[i], waiting[j]))
    && (forall i, j :: 0 <= i < j < |waiting| ==> Right(waiting[j], waiting[i]))
  }

  predicate Pending(m: Model, stack: seq<(int, Mat)>, waiting: seq<Path>) {
    && |stack| == |waiting|
    && AllNamed(m, waiting)
    && (forall i :: 0 <= i < |stack| ==> stack[i] == (IndexAt(m, waiting[i]), World(m, Above(waiting[i]))))
  }

  function Kids(p: Path, count: nat): seq<Path> { seq(count, k requires 0 <= k < count => p + [k]) }

  lemma {:induction false} EveryPathIsSeen(m: Model, seen: seq<Path>, p: Path)
    requires Covered(m, seen, []) && Named(m, p)
    ensures p in seen
    decreases |p|
  {
    if Above(p) != [] {
      EveryPathIsSeen(m, seen, Above(p));
    }
  }

  lemma KidsAhead(seen: seq<Path>, waiting: seq<Path>, p: Path, count: nat)
    requires Ahead(seen, waiting + [p])
    ensures Ahead(seen + [p], waiting + Kids(p, count))
  {
    var all, rest := waiting + [p], waiting + Kids(p, count);
    var n := |waiting|;
    assert all[n] == p;
    forall i, j | 0 <= i < |seen| + 1 && 0 <= j < |rest|
      ensures Precedes((seen + [p])[i], rest[j])
    {
      if j < n {
        if i < |seen| {
          assert Precedes(seen[i], all[j]);
        } else {
          assert Right(all[n], all[j]);
        }
      } else {
        if i < |seen| {
          assert Precedes(seen[i], all[n]);
          if Right(seen[i], p) {
            RightExtends(seen[i], p, j - n);
          } else {
            assert seen[i] < p + [j - n];
          }
        }
      }
    }
    forall i, j | 0 <= i < j < |rest|
      ensures Right(rest[j], rest[i])
    {
      if j < n {
        assert Right(all[j], all[i]);
      } else if i < n {
        assert Right(all[n], all[i]);
        RightExtends(p, all[i], j - n);
      } else {
        Siblings(p, j - n, i - n);
      }
    }
  }

  lemma KidsCover(m: Model, seen: seq<Path>, waiting: seq<Path>, p: Path)
    requires Covered(m, seen, waiting + [p]) && NodeAt(m, p).Some?
    ensures Covered(m, seen + [p], waiting + Kids(p, |NodeAt(m, p).value.children|))
  {
    var count := |NodeAt(m, p).value.children|;
    var after := waiting + Kids(p, count);
    forall q: Path | Named(m, q) && (Above(q) == [] || Above(q) in seen + [p])
      ensures q in seen + [p] || q in after
    {
      if Above(q) == [] || Above(q) in seen {
        assert q in seen || q in waiting + [p];
      } else {
        var k := q[|q| - 1];
        assert q == p + [k];
        assert after[|waiting| + k] == q;
      }
    }
  }

  lemma KidsPending(m: Model, stack: seq<(int, Mat)>, waiting: seq<Path>, p: Path, more: seq<(int, Mat)>)
    requires Pending(m, stack, waiting) && NodeAt(m, p).Some?
    requires var children := NodeAt(m, p).value.children;
             |more| == |children| && forall k :: 0 <= k < |more| ==> more[k] == (children[k], World(m, p))
    ensures Pending(m, stack + more, waiting + Kids(p, |more|))
  {
    var after := waiting + Kids(p, |more|);
    forall i | 0 <= i < |after|
      ensures Named(m, after[i]) && (stack + more)[i] == (IndexAt(m, after[i]), World(m, Above(after[i])))
    {
      if i >= |waiting| {
        assert Above(after[i]) == p;
      }
    }
  }

  lemma RootsWait(m: Model)
    ensures Ahead([], Kids([], |m.roots|)) && Covered(m, [], Kids([], |m.roots|))
  {
    var waiting := Kids([], |m.roots|);
    forall i, j | 0 <= i < j < |waiting|
      ensures Right(waiting[j], waiting[i])
    {
      Siblings([], j, i);
    }
    forall p: Path | Named(m, p) && Above(p) == []
      ensures p in waiting
    {
      assert p == [] + [p[|p| - 1]] == waiting[p[|p| - 1]];
    }
  }

  lemma NextInOrder(m: Model, seen: seq<Path>, waiting: seq<Path>, p: Path)
    requires Ahead(seen, waiting + [p]) && InOrder(seen) && AllNamed(m, seen) && Named(m, p)
    ensures InOrder(seen + [p]) && AllNamed(m, seen + [p])
  {
    assert forall i :: 0 <= i < |seen| ==> Precedes(seen[i], (waiting + [p])[|waiting|]);
  }

  lemma DrawnNext(m: Model, seen: seq<Path>, p: Path)
    requires AllSound(m, seen) && Named(m, p) && !Dangling(m, p)
    ensures AllSound(m, seen + [p]) && AllDrawn(m, seen + [p]) == AllDrawn(m, seen) + Drawn(m, p)
  {
    assert (seen + [p])[..|seen|] == seen;
  }

  lemma PoppedPending(m: Model, stack: seq<(int, Mat)>, waiting: seq<Path>)
    requires Pending(m, stack, waiting) && stack != []
    ensures Pending(m, stack[..|stack| - 1], Rest(waiting))
  {
  }

  function Rest(waiting: seq<Path>): seq<Path>
    requires waiting != []
  {
    waiting[..|waiting| - 1]
  }

  method PushAll(stack: seq<(int, Mat)>, children: seq<int>, world: Mat)
    returns (after: seq<(int, Mat)>, ghost more: seq<(int, Mat)>)
    ensures after == stack + more && |more| == |children|
    ensures forall k :: 0 <= k < |more| ==> more[k] == (children[k], world)
  {
    after, more := stack, [];
    for i := 0 to |children|
      invariant after == stack + more && |more| == i
      invariant forall k :: 0 <= k < i ==> more[k] == (children[k], world)
    {
      after, more := after + [(children[i], world)], more + [(children[i], world)];
    }
  }

  /** What the walk keeps: the stack mirrors the waiting paths, and what it found is what the visited paths draw. */
  ghost predicate Walking(m: Model, stack: seq<(int, Mat)>, waiting: seq<Path>, order: seq<Path>,
                          found: seq<Instance>) {
    && Pending(m, stack, waiting) && Ahead(order, waiting) && Covered(m, order, waiting)
    && InOrder(order) && AllSound(m, order) && found == AllDrawn(m, order)
  }

  lemma RootsPending(m: Model, stack: seq<(int, Mat)>)
    requires |stack| == |m.roots| && forall k :: 0 <= k < |stack| ==> stack[k] == (m.roots[k], IDENTITY)
    ensures Pending(m, stack, Kids([], |m.roots|))
  {
    var scene: Path, waiting := [], Kids([], |m.roots|);
    assert NodeAt(m, scene) == Some(Node(Matrix(IDENTITY), None, m.roots)) && World(m, scene) == IDENTITY;
    forall i | 0 <= i < |stack|
      ensures Named(m, waiting[i]) && stack[i] == (IndexAt(m, waiting[i]), World(m, Above(waiting[i])))
    {
      assert waiting[i] == [i] && Above(waiting[i]) == scene;
    }
  }

  lemma WalkStarts(m: Model, stack: seq<(int, Mat)>)
    requires |stack| == |m.roots| && forall k :: 0 <= k < |stack| ==> stack[k] == (m.roots[k], IDENTITY)
    ensures Walking(m, stack, Kids([], |m.roots|), [], [])
  {
    RootsWait(m);
    RootsPending(m, stack);
  }

  lemma LastInOrder(m: Model, waiting: seq<Path>, order: seq<Path>)
    requires waiting != [] && Ahead(order, waiting) && InOrder(order) && AllNamed(m, order)
             && Named(m, waiting[|waiting| - 1])
    ensures InOrder(order + [waiting[|waiting| - 1]]) && AllNamed(m, order + [waiting[|waiting| - 1]])
  {
    assert waiting == Rest(waiting) + [waiting[|waiting| - 1]];
    NextInOrder(m, order, Rest(waiting), waiting[|waiting| - 1]);
  }

  /** The top of the stack is the last waiting path: its index, and the product of everything above it. */
  lemma TopOfStack(m: Model, stack: seq<(int, Mat)>, waiting: seq<Path>, order: seq<Path>, found: seq<Instance>)
    requires Walking(m, stack, waiting, order, found) && stack != []
    ensures |waiting| == |stack| && Named(m, waiting[|waiting| - 1])
    ensures var p := waiting[|waiting| - 1];
            && stack[|stack| - 1] == (IndexAt(m, p), World(m, Above(p)))
            && InOrder(order + [p]) && AllNamed(m, order + [p])
  {
    assert Named(m, waiting[|waiting| - 1]);
    LastInOrder(m, waiting, order);
  }

  lemma {:induction false} WalkGoesOn(m: Model, stack: seq<(int, Mat)>, waiting: seq<Path>, order: seq<Path>,
                                      found: seq<Instance>, more: seq<(int, Mat)>)
    requires Walking(m, stack, waiting, order, found) && stack != []
    requires !Dangling(m, waiting[|waiting| - 1])
    requires var p := waiting[|waiting| - 1];
             && NodeAt(m, p).Some? && |more| == |NodeAt(m, p).value.children|
             && forall k :: 0 <= k < |more| ==> more[k] == (NodeAt(m, p).value.children[k], World(m, p))
    ensures var p := waiting[|waiting| - 1];
            Walking(m, stack[..|stack| - 1] + more, Rest(waiting) + Kids(p, |more|), order + [p], found + Drawn(m, p))
  {
    var p, rest := waiting[|waiting| - 1], Rest(waiting);
    assert waiting == rest + [p];
    PoppedPending(m, stack, waiting);
    NextInOrder(m, order, rest, p);
    DrawnNext(m, order, p);
    KidsAhead(order, rest, p, |more|);
    KidsCover(m, order, rest, p);
    KidsPending(m, stack[..|stack| - 1], rest, p, more);
  }

  /** The instances of a model, by an explicit stack; order names the visits it made. */
  method Instances(m: Model) returns (r: Result<seq<Instance>, Error>, ghost order: seq<Path>)
    ensures InOrder(order) && AllNamed(m, order)
    ensures r.Ok? ==> |order| <= MAX_VISITS && (forall p :: Named(m, p) ==> p in order)
    ensures r.Ok? ==> AllSound(m, order) && r.value == AllDrawn(m, order)
    ensures r == Err(TooLarge) ==> |order| > MAX_VISITS
    ensures r == Err(BadIndex) ==> exists p :: Dangling(m, p)
    ensures r.Err? ==> r.error == TooLarge || r.error == BadIndex
  {
    var found: seq<Instance> := [];
    var visited := 0;
    order := [];
    ghost var waiting := Kids([], |m.roots|);
    var stack;
    ghost var more;
    stack, more := PushAll([], m.roots, IDENTITY);
    assert stack == more;
    WalkStarts(m, stack);
    while stack != []
      invariant Walking(m, stack, waiting, order, found)
      invariant visited == |order| <= MAX_VISITS
      decreases MAX_VISITS - visited
    {
      TopOfStack(m, stack, waiting, order, found);
      var (index, parent) := stack[|stack| - 1];
      ghost var p, before := waiting[|waiting| - 1], stack;
      stack := stack[..|stack| - 1];
      visited := visited + 1;
      if visited > MAX_VISITS {
        order := order + [p];
        return Err(TooLarge), order;
      }
      var node := At(m.nodes, index);
      if node.None? {
        assert Dangling(m, p);
        return Err(BadIndex), order;
      }
      var world := Multiply(parent, LocalMatrix(node.value.transform));
      ghost var earlier := found;
      if node.value.mesh.Some? {
        var mesh := At(m.meshes, node.value.mesh.value);
        if mesh.None? {
          assert Dangling(m, p);
          return Err(BadIndex), order;
        }
        found := found + [Instance(mesh.value, world)];
      }
      stack, more := PushAll(stack, node.value.children, world);
      WalkGoesOn(m, before, waiting, order, earlier, more);
      waiting := Rest(waiting) + Kids(p, |more|);
      order := order + [p];
    }
    forall p | Named(m, p)
      ensures p in order
    {
      EveryPathIsSeen(m, order, p);
    }
    r := Ok(found);
  }
}
