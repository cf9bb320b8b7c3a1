/** The paged breadth-first walk of a mounted source, on a tree that does not change between pages. */
module PagedWalk {
  import opened Wrappers

  const MAX_SCANNED := 5000

  /** A directory entry. Links, special files and names that are not valid source paths are skipped alike. */
  datatype Node = File(name: string) | Dir(name: string, children: seq<Node>) | Skipped(name: string)

  /** What an operation does: whether it descends and how deep, and which entries it lists. */
  datatype Rules = Rules(descends: bool, maxDepth: nat, lists: Node -> bool)

  /** A directory waiting in the queue. */
  datatype Pending = Pending(path: string, children: seq<Node>, depth: nat)

  /**
   * One scanned entry: where it is, whether the operation lists it, and whether it is a directory below the depth
   * limit.
   */
  datatype Visit = Visit(path: string, node: Node, listed: bool, tooDeep: bool)

  function PathOf(parent: string, name: string): string { if parent == "" then name else parent + "/" + name }

  predicate Descends(rules: Rules, node: Node) { rules.descends && node.Dir? }

  function VisitOf(rules: Rules, parent: string, depth: nat, node: Node): Visit {
    Visit(PathOf(parent, node.name), node, !node.Skipped? && rules.lists(node), Descends(rules, node)
          && depth >= rules.maxDepth)
  }

  // ---------------------------------------------------------------- breadth first

  function Size(node: Node): (n: nat)
    ensures n > 0
  {
    match node
    case Dir(_, children) => 1 + Sizes(children)
    case _ => 1
  }

  function Sizes(nodes: seq<Node>): nat { if nodes == [] then 0 else Size(nodes[0]) + Sizes(nodes[1..]) }

  function Weight(queue: seq<Pending>): nat {
    if queue == [] then 0 else 1 + Sizes(queue[0].children) + Weight(queue[1..])
  }

  /** The scans of one directory, and the directories it adds to the queue. */
  function Scans(rules: Rules, parent: string, depth: nat, nodes: seq<Node>): seq<Visit> {
    if nodes == [] then [] else [VisitOf(rules, parent, depth, nodes[0])] + Scans(rules, parent, depth, nodes[1..])
  }

  /** The queue entry of one scanned node, if it is to be descended into. */
  function Entered(rules: Rules, parent: string, depth: nat, node: Node): (queue: seq<Pending>)
    ensures Weight(queue) <= Size(node)
  {
    if Descends(rules, node) && depth < rules.maxDepth then
      var p := Pending(PathOf(parent, node.name), node.children, depth + 1);
      assert [p][1..] == [];
      [p]
    else []
  }

  function Below(rules: Rules, parent: string, depth: nat, nodes: seq<Node>): (queue: seq<Pending>)
    ensures Weight(queue) <= Sizes(nodes)
  {
    if nodes == [] then []
    else
      var first, later := Entered(rules, parent, depth, nodes[0]), Below(rules, parent, depth, nodes[1..]);
      WeightAdds(first, later);
      first + later
  }

  lemma {:induction false} WeightAdds(a: seq<Pending>, b: seq<Pending>)
    ensures Weight(a + b) == Weight(a) + Weight(b)
  {
    if a == [] {
      assert a + b == b;
    } else {
      assert (a + b)[1..] == a[1..] + b;
      WeightAdds(a[1..], b);
    }
  }

  /** Every scan of the walk, in the order the walk makes them. */
  function Visits(rules: Rules, queue: seq<Pending>): seq<Visit>
    decreases Weight(queue)
  {
    if queue == [] then []
    else
      var current := queue[0];
      var next := Below(rules, current.path, current.depth, current.children);
      WeightAdds(queue[1..], next);
      Scans(rules, current.path, current.depth, current.children) + Visits(rules, queue[1..] + next)
  }

  // ---------------------------------------------------------------- depth first, for reference

  /** The same entries by plain recursion: every node above the depth limit, once. */
  function Everything(rules: Rules, parent: string, depth: nat, nodes: seq<Node>): seq<Visit>
    decreases Sizes(nodes)
  {
    if nodes == [] then []
    else
      var first := nodes[0];
      assert Sizes(nodes) == Size(first) + Sizes(nodes[1..]);
      assert first.Dir? ==> Size(first) == 1 + Sizes(first.children);
      [VisitOf(rules, parent, depth, first)]
      + (if Descends(rules, first)
         && depth < rules.maxDepth then Everything(rules, PathOf(parent, first.name), depth + 1, first.children)
         else [])
      + Everything(rules, parent, depth, nodes[1..])
  }

  function Queued(rules: Rules, queue: seq<Pending>): seq<Visit> {
    if queue == [] then []
    else Everything(rules, queue[0].path, queue[0].depth, queue[0].children) + Queued(rules, queue[1..])
  }

  lemma {:induction false} QueuedAdds(rules: Rules, a: seq<Pending>, b: seq<Pending>)
    ensures Queued(rules, a + b) == Queued(rules, a) + Queued(rules, b)
  {
    if a == [] {
      assert a + b == b;
    } else {
      assert (a + b)[1..] == a[1..] + b;
      QueuedAdds(rules, a[1..], b);
    }
  }

  lemma QueuedEntered(rules: Rules, parent: string, depth: nat, node: Node)
    ensures Queued(rules, Entered(rules, parent, depth, node)) ==
            if Descends(rules, node) && depth < rules.maxDepth then
              Everything(rules, PathOf(parent, node.name), depth + 1, node.children) else []
  {
    var entered := Entered(rules, parent, depth, node);
    if entered != [] {
      assert entered[1..] == [];
      assert Queued(rules, entered) ==
             Everything(rules, entered[0].path, entered[0].depth, entered[0].children) + Queued(rules, []);
    }
  }

  lemma Regroup(a: seq<Visit>, b: seq<Visit>, c: seq<Visit>, d: seq<Visit>, e: seq<Visit>)
    requires multiset(c) == multiset(d) + multiset(e)
    ensures multiset(a + b + c) == multiset(a + d) + multiset(b + e)
  {
  }

  lemma {:induction false} OneDirectory(rules: Rules, parent: string, depth: nat, nodes: seq<Node>)
    ensures multiset(Everything(rules, parent, depth, nodes)) ==
            multiset(Scans(rules, parent, depth, nodes)) + multiset(Queued(rules, Below(rules, parent, depth, nodes)))
  {
    if nodes != [] {
      OneDirectory(rules, parent, depth, nodes[1..]);
      var entered, later := Entered(rules, parent, depth, nodes[0]), Below(rules, parent, depth, nodes[1..]);
      QueuedAdds(rules, entered, later);
      QueuedEntered(rules, parent, depth, nodes[0]);
      Regroup([VisitOf(rules, parent, depth, nodes[0])], Queued(rules, entered),
              Everything(rules, parent, depth, nodes[1..]),
              Scans(rules, parent, depth, nodes[1..]), Queued(rules, later));
    }
  }

  /** The walk scans exactly the entries of the depth-bounded tree, each as often as it is there. */
  lemma {:induction false} WalkIsComplete(rules: Rules, queue: seq<Pending>)
    ensures multiset(Visits(rules, queue)) == multiset(Queued(rules, queue))
    decreases Weight(queue)
  {
    if queue != [] {
      var current := queue[0];
      var next := Below(rules, current.path, current.depth, current.children);
      WeightAdds(queue[1..], next);
      WalkIsComplete(rules, queue[1..] + next);
      OneDirectory(rules, current.path, current.depth, current.children);
      QueuedAdds(rules, queue[1..], next);
    }
  }

  /** The names from one level of the tree down to a node, by its positions among its siblings. */
  ghost predicate Reaches(nodes: seq<Node>, trail: seq<nat>, names: seq<string>, node: Node)
    decreases |trail|
  {
    && trail != [] && |names| == |trail| && trail[0] < |nodes| && names[0] == nodes[trail[0]].name
    && if |trail| == 1 then node == nodes[trail[0]]
       else nodes[trail[0]].Dir? && Reaches(nodes[trail[0]].children, trail[1..], names[1..], node)
  }

  /** The names after a path, each behind a slash unless nothing comes before it. */
  function Slashed(path: string, names: seq<string>): string
    decreases |names|
  {
    if names == [] then path else Slashed(if path == "" then names[0] else path + "/" + names[0], names[1..])
  }

  /** The node a trail reaches, and what is said of it: only an operation that descends gets below the first level. */
  ghost predicate Sees(rules: Rules, parent: string, depth: nat, nodes: seq<Node>, v: Visit, trail: seq<nat>,
                       names: seq<string>) {
    && Reaches(nodes, trail, names, v.node) && v.path == Slashed(parent, names)
    && (|trail| > 1 ==> rules.descends && depth + |trail| - 1 <= rules.maxDepth)
    && (v.listed <==> !v.node.Skipped? && rules.lists(v.node))
    && (v.tooDeep <==> rules.descends && v.node.Dir? && depth + |trail| - 1 >= rules.maxDepth)
  }

  lemma SeesFirst(rules: Rules, parent: string, depth: nat, nodes: seq<Node>, v: Visit)
    requires nodes != [] && v == VisitOf(rules, parent, depth, nodes[0])
    ensures Sees(rules, parent, depth, nodes, v, [0], [nodes[0].name])
  {
    assert Slashed(parent, [nodes[0].name]) == Slashed(PathOf(parent, nodes[0].name), []);
  }

  lemma SeesBelow(rules: Rules, parent: string, depth: nat, nodes: seq<Node>, v: Visit, trail: seq<nat>,
                  names: seq<string>)
    requires nodes != [] && nodes[0].Dir? && rules.descends && depth < rules.maxDepth && trail != [] && names != []
    ensures Sees(rules, PathOf(parent, nodes[0].name), depth + 1, nodes[0].children, v, trail, names) <==>
            Sees(rules, parent, depth, nodes, v, [0] + trail, [nodes[0].name] + names)
  {
    var more, all := [0] + trail, [nodes[0].name] + names;
    assert more[1..] == trail && all[1..] == names;
    assert Slashed(parent, all) == Slashed(PathOf(parent, nodes[0].name), names);
  }

  lemma SeesLater(rules: Rules, parent: string, depth: nat, nodes: seq<Node>, v: Visit, trail: seq<nat>,
                  names: seq<string>)
    requires nodes != [] && trail != []
    ensures Sees(rules, parent, depth, nodes[1..], v, trail, names) <==>
            Sees(rules, parent, depth, nodes, v, [trail[0] + 1] + trail[1..], names)
  {
    var moved := [trail[0] + 1] + trail[1..];
    assert moved[1..] == trail[1..];
  }

  /** Every entry of the recursion is reached by a trail. */
  lemma {:induction false} EverythingIsSeen(rules: Rules, parent: string, depth: nat, nodes: seq<Node>, v: Visit)
    returns (trail: seq<nat>, names: seq<string>)
    requires v in Everything(rules, parent, depth, nodes)
    ensures Sees(rules, parent, depth, nodes, v, trail, names)
    decreases Sizes(nodes)
  {
    var first := nodes[0];
    assert Sizes(nodes) == Size(first) + Sizes(nodes[1..]);
    InEverything(rules, parent, depth, nodes, v);
    if v == VisitOf(rules, parent, depth, first) {
      SeesFirst(rules, parent, depth, nodes, v);
      trail, names := [0], [first.name];
    } else if v in Everything(rules, parent, depth, nodes[1..]) {
      trail, names := EverythingIsSeen(rules, parent, depth, nodes[1..], v);
      SeesLater(rules, parent, depth, nodes, v, trail, names);
      trail := [trail[0] + 1] + trail[1..];
    } else {
      trail, names := EverythingIsSeen(rules, PathOf(parent, first.name), depth + 1, first.children, v);
      SeesBelow(rules, parent, depth, nodes, v, trail, names);
      trail, names := [0] + trail, [first.name] + names;
    }
  }

  lemma InEverything(rules: Rules, parent: string, depth: nat, nodes: seq<Node>, v: Visit)
    requires nodes != []
    ensures v in Everything(rules, parent, depth, nodes) <==>
            || v == VisitOf(rules, parent, depth, nodes[0]) || v in Everything(rules, parent, depth, nodes[1..])
            || (Descends(rules, nodes[0]) && depth < rules.maxDepth
                && v in Everything(rules, PathOf(parent, nodes[0].name), depth + 1, nodes[0].children))
  {
  }

  lemma SeenFurther(rules: Rules, parent: string, depth: nat, nodes: seq<Node>, v: Visit, trail: seq<nat>,
                    names: seq<string>)
    requires Sees(rules, parent, depth, nodes, v, trail, names) && trail[0] > 0
    ensures Sees(rules, parent, depth, nodes[1..], v, [trail[0] - 1] + trail[1..], names)
  {
    var moved := [trail[0] - 1] + trail[1..];
    assert [moved[0] + 1] + moved[1..] == trail;
    SeesLater(rules, parent, depth, nodes, v, moved, names);
  }

  lemma SeenInside(rules: Rules, parent: string, depth: nat, nodes: seq<Node>, v: Visit, trail: seq<nat>,
                   names: seq<string>)
    requires Sees(rules, parent, depth, nodes, v, trail, names) && trail[0] == 0 && |trail| > 1
    ensures Descends(rules, nodes[0]) && depth < rules.maxDepth
    ensures Sees(rules, PathOf(parent, nodes[0].name), depth + 1, nodes[0].children, v, trail[1..], names[1..])
  {
    assert [0] + trail[1..] == trail && [nodes[0].name] + names[1..] == names;
    SeesBelow(rules, parent, depth, nodes, v, trail[1..], names[1..]);
  }

  lemma SeenHere(rules: Rules, parent: string, depth: nat, nodes: seq<Node>, v: Visit, trail: seq<nat>,
                 names: seq<string>)
    requires Sees(rules, parent, depth, nodes, v, trail, names) && trail[0] == 0 && |trail| == 1
    ensures v == VisitOf(rules, parent, depth, nodes[0])
  {
    assert names == [nodes[0].name];
    SeesFirst(rules, parent, depth, nodes, VisitOf(rules, parent, depth, nodes[0]));
  }

  /** Whatever a trail reaches above the depth limit is an entry of the recursion. */
  lemma {:induction false} SeenIsEverything(rules: Rules, parent: string, depth: nat, nodes: seq<Node>, v: Visit,
                                            trail: seq<nat>, names: seq<string>)
    requires Sees(rules, parent, depth, nodes, v, trail, names)
    ensures v in Everything(rules, parent, depth, nodes)
    decreases |trail|, trail[0]
  {
    InEverything(rules, parent, depth, nodes, v);
    if trail[0] > 0 {
      SeenFurther(rules, parent, depth, nodes, v, trail, names);
      SeenIsEverything(rules, parent, depth, nodes[1..], v, [trail[0] - 1] + trail[1..], names);
    } else if |trail| > 1 {
      SeenInside(rules, parent, depth, nodes, v, trail, names);
      SeenIsEverything(rules, PathOf(parent, nodes[0].name), depth + 1, nodes[0].children, v, trail[1..], names[1..]);
    } else {
      SeenHere(rules, parent, depth, nodes, v, trail, names);
    }
  }

  // ---------------------------------------------------------------- pages

  /** The entries that are listed among some scans. */
  function Listed(visits: seq<Visit>): seq<Visit> {
    if visits == [] then []
    else Listed(visits[..|visits| - 1]) + if visits[|visits| - 1].listed then [visits[|visits| - 1]] else []
  }

  function Deep(visits: seq<Visit>): bool { exists v <- visits :: v.tooDeep }

  function Scanned(visits: seq<Visit>): seq<Visit> { if |visits| <= MAX_SCANNED then visits else visits[..MAX_SCANNED] }

  datatype Page = Page(entries: seq<Visit>, truncated: bool, nextOffset: Option<nat>)

  function Slice(s: seq<Visit>, from: nat, limit: nat): seq<Visit> {
    if from >= |s| then [] else if from + limit >= |s| then s[from..] else s[from..from + limit]
  }

  /** The page at an offset: a slice of what can be listed within the scan limit. */
  function PageAt(visits: seq<Visit>, offset: nat, limit: nat): Page {
    var listed := Listed(Scanned(visits));
    var entries := Slice(listed, offset, limit);
    var truncated := |listed| > offset + limit || |visits| > MAX_SCANNED || Deep(Scanned(visits));
    Page(entries, truncated, if truncated && |entries| == limit then Some(offset + limit) else None)
  }

  /** Number(value) || fallback, then clamped. */
  function Clamped(value: int, fallback: nat, low: nat, high: nat): nat
    requires low <= high
  {
    var v := if value == 0 then fallback else value;
    if v < low then low else if v > high then high else v
  }

  lemma {:induction false} ListedBound(visits: seq<Visit>)
    ensures |Listed(visits)| <= |visits|
  {
    if visits != [] {
      ListedBound(visits[..|visits| - 1]);
    }
  }

  /** Following nextOffset always moves forward, and never runs into the offset clamp. */
  lemma NextOffsetMoves(visits: seq<Visit>, offset: nat, limit: nat)
    requires limit > 0
    ensures var next := PageAt(visits, offset, limit).nextOffset;
            next.Some? ==> offset < next.value <= MAX_SCANNED && next.value <= |Listed(Scanned(visits))|
  {
    ListedBound(Scanned(visits));
  }

  /** All pages from an offset on, as a client that follows nextOffset receives them. */
  function Pages(visits: seq<Visit>, offset: nat, limit: nat): seq<Visit>
    requires limit > 0
    decreases MAX_SCANNED - offset
  {
    var page := PageAt(visits, offset, limit);
    NextOffsetMoves(visits, offset, limit);
    page.entries + if page.nextOffset.Some? then Pages(visits, page.nextOffset.value, limit) else []
  }

  /** The pages concatenate to everything listable within the scan limit: nothing is missed and nothing repeated. */
  lemma {:induction false} PagesConcatenate(visits: seq<Visit>, offset: nat, limit: nat)
    requires limit > 0 && offset <= |Listed(Scanned(visits))|
    ensures Pages(visits, offset, limit) == Listed(Scanned(visits))[offset..]
    decreases MAX_SCANNED - offset
  {
    var listed := Listed(Scanned(visits));
    var page := PageAt(visits, offset, limit);
    NextOffsetMoves(visits, offset, limit);
    if page.nextOffset.Some? {
      PagesConcatenate(visits, offset + limit, limit);
      assert listed[offset..] == listed[offset..offset + limit] + listed[offset + limit..];
    }
  }

  /**
   * A page that does not say truncated has missed nothing: it ends the listing of a tree without deeper directories.
   */
  lemma UntruncatedIsAll(visits: seq<Visit>, offset: nat, limit: nat)
    requires !PageAt(visits, offset, limit).truncated
    ensures Scanned(visits) == visits && !Deep(visits)
    ensures PageAt(visits, offset, limit).entries == if offset <= |Listed(visits)| then Listed(visits)[offset..] else []
  {
  }

  /** Where the listed entries stand among some scans. */
  ghost predicate Lists(visits: seq<Visit>, places: seq<int>) {
    && (forall i, j :: 0 <= i < j < |places| ==> places[i] < places[j])
    && (forall i :: 0 <= i < |places| ==> 0 <= places[i] < |visits| && visits[places[i]].listed)
    && (forall k :: 0 <= k < |visits| && visits[k].listed ==> k in places)
  }

  lemma ListsOneMore(visits: seq<Visit>, v: Visit, places: seq<int>)
    requires Lists(visits, places)
    ensures Lists(visits + [v], places + if v.listed then [|visits|] else [])
  {
    var more := places + if v.listed then [|visits|] else [];
    assert forall k :: k in places ==> k in more;
  }

  lemma {:induction false} ListedAt(visits: seq<Visit>) returns (places: seq<int>)
    ensures Lists(visits, places) && |places| == |Listed(visits)|
    ensures forall i :: 0 <= i < |places| ==> Listed(visits)[i] == visits[places[i]]
  {
    places := [];
    if visits != [] {
      var n := |visits| - 1;
      places := ListedAt(visits[..n]);
      ListsOneMore(visits[..n], visits[n], places);
      places := places + if visits[n].listed then [n] else [];
      assert visits[..n] + [visits[n]] == visits;
    }
  }

  /** A page of the listed entries among some scans: as many as there are from the offset on, up to the limit. */
  ghost predicate Shows(scanned: seq<Visit>, places: seq<int>, offset: nat, limit: nat, entries: seq<Visit>) {
    && Lists(scanned, places)
    && |entries| == (if |places| <= offset then 0 else if |places| <= offset + limit then |places| - offset else limit)
    && (forall k :: 0 <= k < |entries| ==> entries[k] == scanned[places[offset + k]])
  }

  /** A page in terms of the scans alone, of which the first 5000 are made. */
  ghost predicate IsPage(visits: seq<Visit>, offset: nat, limit: nat, page: Page) {
    var scanned := visits[..if |visits| < 5000 then |visits| else 5000];
    exists places ::
      && Shows(scanned, places, offset, limit, page.entries)
      && (page.truncated <==>
          |places| > offset + limit || |visits| > 5000 || exists v :: v in scanned && v.tooDeep)
      && page.nextOffset == if page.truncated && |page.entries| == limit then Some(offset + limit) else None
  }

  lemma ShowsPlaces(scanned: seq<Visit>, offset: nat, limit: nat) returns (places: seq<int>)
    ensures Shows(scanned, places, offset, limit, Slice(Listed(scanned), offset, limit))
    ensures |places| == |Listed(scanned)|
  {
    places := ListedAt(scanned);
  }

  lemma PageIsExact(visits: seq<Visit>, offset: nat, limit: nat)
    ensures IsPage(visits, offset, limit, PageAt(visits, offset, limit))
  {
    assert visits[..if |visits| < 5000 then |visits| else 5000] == Scanned(visits);
    var places := ShowsPlaces(Scanned(visits), offset, limit);
  }

  /** The page asked for: no limit given, or zero, means 50, and limit and offset are held within their bounds. */
  ghost predicate Answers(visits: seq<Visit>, limit: int, offset: int, highLimit: nat, page: Page) {
    IsPage(visits, if offset < 0 then 0 else if offset > 5000 then 5000 else offset,
           if limit < 0 then 1 else if limit == 0 && highLimit > 50 then 50
           else if limit == 0 || limit > highLimit then highLimit else limit, page)
  }

  lemma PageAnswers(visits: seq<Visit>, limit: int, offset: int, highLimit: nat)
    requires highLimit > 0
    ensures Answers(visits, limit, offset, highLimit,
                    PageAt(visits, Clamped(offset, 0, 0, MAX_SCANNED), Clamped(limit, 50, 1, highLimit)))
  {
    PageIsExact(visits, Clamped(offset, 0, 0, MAX_SCANNED), Clamped(limit, 50, 1, highLimit));
  }

  // ---------------------------------------------------------------- the walk

  /** The variables of the loop. */
  datatype Walk = Walk(scanned: nat, matched: nat, entries: seq<Visit>, truncated: bool, queue: seq<Pending>)

  /** What they hold after some scans. */
  ghost predicate SoFar(seen: seq<Visit>, offset: nat, limit: nat, w: Walk) {
    && w.scanned == |seen| <= MAX_SCANNED && w.matched == |Listed(seen)| <= offset + limit
    && w.entries == Slice(Listed(seen), offset, limit)
    && w.truncated == Deep(seen)
  }

  lemma {:induction false} OneMore(seen: seq<Visit>, v: Visit, offset: nat, limit: nat, entries: seq<Visit>)
    requires entries == Slice(Listed(seen), offset, limit) && |Listed(seen)| <= offset + limit
    ensures Listed(seen + [v]) == Listed(seen) + (if v.listed then [v] else [])
    ensures Deep(seen + [v]) <==> Deep(seen) || v.tooDeep
    ensures !v.listed || |Listed(seen)| < offset ==> Slice(Listed(seen + [v]), offset, limit) == entries
    ensures v.listed && offset <= |Listed(seen)| < offset + limit ==>
              |entries| < limit && Slice(Listed(seen + [v]), offset, limit) == entries + [v]
    ensures |Listed(seen)| == offset + limit && limit > 0 ==> |entries| == limit
    ensures |Listed(seen)| < offset + limit && offset <= |Listed(seen)| ==> |entries| < limit
  {
    assert (seen + [v])[..|seen|] == seen;
  }

  lemma {:induction false} ListedGrows(a: seq<Visit>, b: seq<Visit>)
    ensures Listed(a + b) == Listed(a) + Listed(b)
  {
    if b == [] {
      assert a + b == a;
    } else {
      var n := |b| - 1;
      assert (a + b)[..|a + b| - 1] == a + b[..n];
      ListedGrows(a, b[..n]);
    }
  }

  /** A page that is full when one more listed entry turns up. */
  lemma FullPage(visits: seq<Visit>, n: nat, offset: nat, limit: nat, entries: seq<Visit>)
    requires n < |visits| && n < MAX_SCANNED && visits[n].listed && limit > 0
    requires |Listed(visits[..n])| == offset + limit && entries == Slice(Listed(visits[..n]), offset, limit)
    ensures PageAt(visits, offset, limit) == Page(entries, true, Some(offset + limit))
  {
    var scanned := Scanned(visits);
    assert scanned[..n] == visits[..n] && scanned == scanned[..n] + scanned[n..];
    ListedGrows(scanned[..n], scanned[n..]);
    assert scanned[n..] == [scanned[n]] + scanned[n..][1..];
    ListedGrows([scanned[n]], scanned[n..][1..]);
    assert [scanned[n]][..0] == [];
  }

  datatype Stop = GoOn | ScanLimit | PageFull

  /** What the loop leaves when it stops early. */
  ghost predicate StopOk(stop: Stop, visits: seq<Visit>, offset: nat, limit: nat, w: Walk) {
    && w.truncated
    && (stop == ScanLimit ==> |visits| > MAX_SCANNED && w.entries == PageAt(visits, offset, limit).entries)
    && (stop == PageFull ==>
        PageAt(visits, offset, limit) == Page(w.entries, true, Some(offset + limit)) && |w.entries| == limit)
  }

  /** One turn of the inner loop. */
  method ScanEntry(rules: Rules, current: Pending, entry: Node, offset: nat, limit: nat, w0: Walk,
                   ghost seen: seq<Visit>, ghost later: seq<Visit>, ghost visits: seq<Visit>)
    returns (stop: Stop, w: Walk)
    requires limit > 0 && SoFar(seen, offset, limit, w0)
    requires seen + ([VisitOf(rules, current.path, current.depth, entry)] + later) <= visits
    ensures stop == GoOn ==> SoFar(seen + [VisitOf(rules, current.path, current.depth, entry)], offset, limit, w)
    ensures stop == GoOn ==> w.queue == w0.queue + Entered(rules, current.path, current.depth, entry)
    ensures stop != GoOn ==> StopOk(stop, visits, offset, limit, w)
  {
    var v := VisitOf(rules, current.path, current.depth, entry);
    NextScan(seen, v, later, visits);
    OneMore(seen, v, offset, limit, w0.entries);
    w := w0.(scanned := w0.scanned + 1);
    if w.scanned > MAX_SCANNED {
      return ScanLimit, w.(truncated := true);
    }
    if entry.Skipped? {
      return GoOn, w;
    }
    if rules.descends && entry.Dir? {
      if current.depth < rules.maxDepth {
        w := w.(queue := w.queue + [Pending(v.path, entry.children, current.depth + 1)]);
      } else {
        w := w.(truncated := true);
      }
    }
    if !rules.lists(entry) {
      return GoOn, w;
    }
    w := w.(matched := w.matched + 1);
    if w.matched <= offset {
      return GoOn, w;
    }
    if |w.entries| == limit {
      FullPage(visits, |seen|, offset, limit, w.entries);
      return PageFull, w.(truncated := true);
    }
    return GoOn, w.(entries := w.entries + [v]);
  }

  /** The scan about to be made is the next one of the walk. */
  lemma NextScan(seen: seq<Visit>, v: Visit, later: seq<Visit>, visits: seq<Visit>)
    requires seen + ([v] + later) <= visits
    ensures |seen| < |visits| && visits[|seen|] == v && visits[..|seen|] == seen
    ensures (seen + [v]) + later == seen + ([v] + later)
  {
    assert (seen + ([v] + later))[|seen|] == v;
  }

  /** The inner loop over one directory. */
  method WalkDirectory(rules: Rules, current: Pending, offset: nat, limit: nat, w0: Walk, ghost seen0: seq<Visit>,
                       ghost visits: seq<Visit>)
    returns (stop: Stop, w: Walk)
    requires limit > 0 && SoFar(seen0, offset, limit, w0)
    requires seen0 + Scans(rules, current.path, current.depth, current.children) <= visits
    ensures stop == GoOn ==>
              && SoFar(seen0 + Scans(rules, current.path, current.depth, current.children), offset, limit, w)
              && w.queue == w0.queue + Below(rules, current.path, current.depth, current.children)
    ensures stop != GoOn ==> StopOk(stop, visits, offset, limit, w)
  {
    w := w0;
    ghost var seen := seen0;
    assert current.children[0..] == current.children;
    for i := 0 to |current.children|
      invariant SoFar(seen, offset, limit, w)
      invariant seen + ScansFrom(rules, current, i) == seen0 + ScansFrom(rules, current, 0)
      invariant w.queue + BelowFrom(rules, current, i) == w0.queue + BelowFrom(rules, current, 0)
    {
      var entry := current.children[i];
      ghost var v := VisitOf(rules, current.path, current.depth, entry);
      FromStep(rules, current, i);
      NextScan(seen, v, ScansFrom(rules, current, i + 1), visits);
      ghost var queue := w.queue;
      stop, w := ScanEntry(rules, current, entry, offset, limit, w, seen, ScansFrom(rules, current, i + 1), visits);
      if stop != GoOn {
        return stop, w;
      }
      seen := seen + [v];
      AppendLater(queue, Entered(rules, current.path, current.depth, entry), BelowFrom(rules, current, i + 1));
    }
    stop := GoOn;
    NothingLeft(rules, current, seen, w.queue);
  }

  /** What is still to be scanned, and queued, of a directory from its i-th entry on. */
  function ScansFrom(rules: Rules, current: Pending, i: nat): seq<Visit>
    requires i <= |current.children|
  {
    Scans(rules, current.path, current.depth, current.children[i..])
  }

  function BelowFrom(rules: Rules, current: Pending, i: nat): seq<Pending>
    requires i <= |current.children|
  {
    Below(rules, current.path, current.depth, current.children[i..])
  }

  lemma FromStep(rules: Rules, current: Pending, i: nat)
    requires i < |current.children|
    ensures ScansFrom(rules, current, i) ==
            [VisitOf(rules, current.path, current.depth, current.children[i])] + ScansFrom(rules, current, i + 1)
    ensures BelowFrom(rules, current, i) ==
            Entered(rules, current.path, current.depth, current.children[i]) + BelowFrom(rules, current, i + 1)
  {
    assert current.children[i..][1..] == current.children[i + 1..];
  }

  lemma NothingLeft(rules: Rules, current: Pending, seen: seq<Visit>, queue: seq<Pending>)
    ensures seen + ScansFrom(rules, current, |current.children|) == seen
    ensures queue + BelowFrom(rules, current, |current.children|) == queue
  {
  }

  lemma AppendLater<T>(a: seq<T>, b: seq<T>, c: seq<T>)
    ensures a + (b + c) == (a + b) + c
  {
  }

  lemma FinishedPage(visits: seq<Visit>, offset: nat, limit: nat, w: Walk)
    requires SoFar(visits, offset, limit, w)
    ensures PageAt(visits, offset, limit) ==
            Page(w.entries, w.truncated,
                 if w.truncated && |w.entries| == limit then Some(offset + |w.entries|) else None)
  {
  }

  lemma StoppedPage(stop: Stop, visits: seq<Visit>, offset: nat, limit: nat, w: Walk)
    requires stop != GoOn && StopOk(stop, visits, offset, limit, w)
    ensures PageAt(visits, offset, limit) ==
            Page(w.entries, w.truncated, if |w.entries| == limit then Some(offset + |w.entries|) else None)
  {
  }

  /**
   * One page of the walk. On a tree that does not change, and with the deadline not passed, it is the page at the
   * clamped offset of the listing the whole walk would make.
   */
  method ListPage(rules: Rules, root: Pending, requestedLimit: int, requestedOffset: int, highLimit: nat)
    returns (page: Page)
    requires highLimit > 0
    ensures page == PageAt(Visits(rules, [root]), Clamped(requestedOffset, 0, 0, MAX_SCANNED),
                           Clamped(requestedLimit, 50, 1, highLimit))
    ensures Answers(Visits(rules, [root]), requestedLimit, requestedOffset, highLimit, page)
  {
    var limit := Clamped(requestedLimit, 50, 1, highLimit);
    var offset := Clamped(requestedOffset, 0, 0, MAX_SCANNED);
    ghost var visits := Visits(rules, [root]);
    PageAnswers(visits, requestedLimit, requestedOffset, highLimit);
    ghost var seen: seq<Visit> := [];
    var w := Walk(0, 0, [], false, [root]);
    while w.queue != []
      invariant SoFar(seen, offset, limit, w)
      invariant seen + Visits(rules, w.queue) == visits
      decreases Weight(w.queue)
    {
      var current := w.queue[0];
      ghost var scans := Scans(rules, current.path, current.depth, current.children);
      ghost var next := w.queue[1..] + Below(rules, current.path, current.depth, current.children);
      WeightAdds(w.queue[1..], Below(rules, current.path, current.depth, current.children));
      assert Visits(rules, w.queue) == scans + Visits(rules, next);
      AppendLater(seen, scans, Visits(rules, next));
      var stop, after := WalkDirectory(rules, current, offset, limit, w.(queue := w.queue[1..]), seen, visits);
      if stop != GoOn {
        StoppedPage(stop, visits, offset, limit, after);
        return Page(after.entries, after.truncated,
                    if |after.entries| == limit then Some(offset + |after.entries|) else None);
      }
      w := after;
      seen := seen + scans;
    }
    assert seen + [] == seen;
    FinishedPage(visits, offset, limit, w);
    return Page(w.entries, w.truncated,
                if w.truncated && |w.entries| == limit then Some(offset + |w.entries|) else None);
  }
}
