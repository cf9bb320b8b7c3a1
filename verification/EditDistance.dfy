/** The banded Levenshtein routine of the corpus search, proved exact against edit scripts. */
module EditDistance {
  import opened Wrappers

  // ---------------------------------------------------------------- edit scripts

  datatype Edit = Keep(same: char) | Substitute(was: char, now: char) | Insert(added: char) | Delete(removed: char)

  /** Steps that turn a left word into a right word, read from the left ends of both. */
  datatype Script = Start | Then(prior: Script, last: Edit)

  /** What one step reads of the left word, and what it writes of the right word. */
  function Takes(e: Edit): string {
    match e
    case Keep(c) => [c]
    case Substitute(c, _) => [c]
    case Insert(_) => ""
    case Delete(c) => [c]
  }

  function Gives(e: Edit): string {
    match e
    case Keep(c) => [c]
    case Substitute(_, c) => [c]
    case Insert(c) => [c]
    case Delete(_) => ""
  }

  function Consumed(script: Script): string {
    match script
    case Start => ""
    case Then(prior, last) => Consumed(prior) + Takes(last)
  }

  function Produced(script: Script): string {
    match script
    case Start => ""
    case Then(prior, last) => Produced(prior) + Gives(last)
  }

  function Cost(script: Script): nat {
    match script
    case Start => 0
    case Then(prior, last) => Cost(prior) + if last.Keep? then 0 else 1
  }

  ghost predicate Transforms(script: Script, left: string, right: string) {
    Consumed(script) == left && Produced(script) == right
  }

  // ---------------------------------------------------------------- the distance

  function Min(a: nat, b: nat): nat { if a <= b then a else b }

  /** Levenshtein's recurrence on whole words; cell (i, j) of the table is Distance(left[..i], right[..j]). */
  function Distance(left: string, right: string): nat
    decreases |left| + |right|
  {
    if left == "" then |right|
    else if right == "" then |left|
    else
      var l, r := left[..|left| - 1], right[..|right| - 1];
      var cost := if left[|left| - 1] == right[|right| - 1] then 0 else 1;
      Min(Min(Distance(l, right) + 1, Distance(left, r) + 1), Distance(l, r) + cost)
  }

  /** A script that pays exactly the distance. */
  lemma Cheapest(left: string, right: string) returns (script: Script)
    ensures Transforms(script, left, right)
    ensures Cost(script) == Distance(left, right)
    decreases |left| + |right|
  {
    if left == "" && right == "" {
      return Start;
    } else if left == "" {
      script := CheapestThenInsert(left, right);
    } else if right == "" {
      script := CheapestThenDelete(left, right);
    } else {
      var deleting := CheapestThenDelete(left, right);
      var inserting := CheapestThenInsert(left, right);
      var matching := CheapestThenMatch(left, right);
      script := if Cost(deleting) == Distance(left, right) then deleting
                else if Cost(inserting) == Distance(left, right) then inserting
                else matching;
    }
  }

  lemma CheapestThenInsert(left: string, right: string) returns (script: Script)
    requires right != ""
    ensures Transforms(script, left, right)
    ensures Cost(script) == Distance(left, right[..|right| - 1]) + 1
    decreases |left| + |right|, 0
  {
    var prior := Cheapest(left, right[..|right| - 1]);
    script := Then(prior, Insert(right[|right| - 1]));
    assert Consumed(script) == Consumed(prior) + "" == left;
    assert Produced(script) == right[..|right| - 1] + [right[|right| - 1]] == right;
  }

  lemma CheapestThenDelete(left: string, right: string) returns (script: Script)
    requires left != ""
    ensures Transforms(script, left, right)
    ensures Cost(script) == Distance(left[..|left| - 1], right) + 1
    decreases |left| + |right|, 0
  {
    var prior := Cheapest(left[..|left| - 1], right);
    script := Then(prior, Delete(left[|left| - 1]));
    assert Consumed(script) == left[..|left| - 1] + [left[|left| - 1]] == left;
    assert Produced(script) == Produced(prior) + "" == right;
  }

  lemma CheapestThenMatch(left: string, right: string) returns (script: Script)
    requires left != "" && right != ""
    ensures Transforms(script, left, right)
    ensures Cost(script) == Distance(left[..|left| - 1], right[..|right| - 1])
            + if left[|left| - 1] == right[|right| - 1] then 0 else 1
    decreases |left| + |right|, 0
  {
    var a, b := left[|left| - 1], right[|right| - 1];
    var prior := Cheapest(left[..|left| - 1], right[..|right| - 1]);
    script := Then(prior, if a == b then Keep(a) else Substitute(a, b));
    assert Consumed(script) == left[..|left| - 1] + [a] == left;
    assert Produced(script) == right[..|right| - 1] + [b] == right;
  }

  /** No script is cheaper than the distance. */
  lemma {:induction false} DistanceIsLeast(script: Script, left: string, right: string)
    requires Transforms(script, left, right)
    ensures Distance(left, right) <= Cost(script)
  {
    match script
    case Start =>
    case Then(prior, Insert(_)) =>
      assert right[..|right| - 1] == Produced(prior) && left == Consumed(prior);
      DistanceIsLeast(prior, left, right[..|right| - 1]);
    case Then(prior, Delete(_)) =>
      assert left[..|left| - 1] == Consumed(prior) && right == Produced(prior);
      DistanceIsLeast(prior, left[..|left| - 1], right);
    case Then(prior, _) =>
      assert left[..|left| - 1] == Consumed(prior) && right[..|right| - 1] == Produced(prior);
      DistanceIsLeast(prior, left[..|left| - 1], right[..|right| - 1]);
  }

  /** The length difference alone is a lower bound, which justifies the early return on lengths. */
  lemma {:induction false} LengthBound(left: string, right: string)
    ensures |left| <= |right| + Distance(left, right)
    ensures |right| <= |left| + Distance(left, right)
    decreases |left| + |right|
  {
    if left != "" && right != "" {
      LengthBound(left[..|left| - 1], right);
      LengthBound(left, right[..|right| - 1]);
      LengthBound(left[..|left| - 1], right[..|right| - 1]);
    }
  }

  /** Cell (i, j) of the table. */
  function Cell(left: string, right: string, i: nat, j: nat): nat
    requires i <= |left| && j <= |right|
  {
    Distance(left[..i], right[..j])
  }

  lemma CellStep(left: string, right: string, i: nat, j: nat)
    requires 0 < i <= |left| && 0 < j <= |right|
    ensures Cell(left, right, i, j) ==
            Min(Min(Cell(left, right, i - 1, j) + 1, Cell(left, right, i, j - 1) + 1),
                Cell(left, right, i - 1, j - 1) + if left[i - 1] == right[j - 1] then 0 else 1)
  {
    assert left[..i][..i - 1] == left[..i - 1];
    assert right[..j][..j - 1] == right[..j - 1];
  }

  ghost predicate RowAbove(left: string, right: string, i: nat, bound: int)
    requires i <= |left|
  {
    forall j: nat | j <= |right| :: Cell(left, right, i, j) > bound
  }

  /** A row that is entirely above the bound forces the next row above it: row minima never decrease. */
  lemma {:induction false} NextRowAbove(left: string, right: string, i: nat, bound: int, j: nat)
    requires i < |left| && j <= |right| && RowAbove(left, right, i, bound)
    ensures Cell(left, right, i + 1, j) > bound
  {
    assert Cell(left, right, i, j) > bound;
    if j == 0 {
      assert right[..0] == "";
    } else {
      NextRowAbove(left, right, i, bound, j - 1);
      CellStep(left, right, i + 1, j);
      assert Cell(left, right, i, j - 1) > bound;
    }
  }

  lemma {:induction false} RowAboveIsFinal(left: string, right: string, i: nat, bound: int)
    requires i <= |left| && RowAbove(left, right, i, bound)
    ensures Distance(left, right) > bound
    decreases |left| - i
  {
    if i == |left| {
      assert left[..i] == left && right[..|right|] == right;
      assert Cell(left, right, i, |right|) > bound;
    } else {
      forall j: nat {:trigger Cell(left, right, i + 1, j)} | j <= |right|
        ensures Cell(left, right, i + 1, j) > bound
      {
        NextRowAbove(left, right, i, bound, j);
      }
      RowAboveIsFinal(left, right, i + 1, bound);
    }
  }

  /** The routine itself: rows rebuilt from left to right, abandoned once a whole row exceeds the maximum. */
  method BoundedEditDistance(left: string, right: string, maximum: int) returns (r: Option<nat>)
    ensures r == if Distance(left, right) <= maximum then Some(Distance(left, right)) else None
  {
    LengthBound(left, right);
    var difference := if |left| >= |right| then |left| - |right| else |right| - |left|;
    if difference > maximum {
      return None;
    }
    var previous: seq<nat> := seq(|right| + 1, (j: nat) => j);
    var i := 0;
    assert left[..0] == "";
    while i < |left|
      invariant i <= |left| && |previous| == |right| + 1
      invariant forall j: nat | j <= |right| :: previous[j] == Cell(left, right, i, j)
    {
      i := i + 1;
      var current: seq<nat> := [i];
      var best: nat := i;
      var j := 0;
      assert right[..0] == "";
      while j < |right|
        invariant j <= |right| && |current| == j + 1
        invariant forall k: nat | k <= j :: current[k] == Cell(left, right, i, k)
        invariant forall k: nat | k <= j :: best <= Cell(left, right, i, k)
        invariant forall k: nat | k <= |right| :: previous[k] == Cell(left, right, i - 1, k)
      {
        j := j + 1;
        CellStep(left, right, i, j);
        var cost := if left[i - 1] == right[j - 1] then 0 else 1;
        var value := Min(Min(previous[j] + 1, current[j - 1] + 1), previous[j - 1] + cost);
        current := current + [value];
        best := Min(best, value);
      }
      if best > maximum {
        RowAboveIsFinal(left, right, i, maximum);
        return None;
      }
      previous := current;
    }
    assert left[..i] == left && right[..|right|] == right;
    r := if previous[|right|] <= maximum then Some(previous[|right|]) else None;
  }

  /** The distance is the least cost of any script, and some script attains it. */
  lemma DistanceIsMinimumScriptCost(left: string, right: string, d: nat)
    ensures d == Distance(left, right) <==>
            && (exists script :: Transforms(script, left, right) && Cost(script) == d)
            && (forall script :: Transforms(script, left, right) ==> d <= Cost(script))
  {
    var best := Cheapest(left, right);
    forall script | Transforms(script, left, right) ensures Distance(left, right) <= Cost(script) {
      DistanceIsLeast(script, left, right);
    }
  }
}
