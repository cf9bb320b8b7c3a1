/**
 * The bounded concurrent map of the SSH layer as a state machine. Workers share a cursor; between two moves of one
 * worker any other worker may move, so a schedule is any sequence of moves that are enabled when they are taken. A call
 * may be rejected: it ends its worker and rejects the map, while the other workers go on.
 */
module MapLimit {
  import opened Wrappers

  datatype Worker = Idle | Running(index: nat) | Returned | Broken

  datatype State<R, E> = State(cursor: nat, workers: seq<Worker>, results: seq<Option<R>>, rejection: Option<E>)

  /** A worker takes the next index, or its pending call settles. */
  datatype Move = Claim(worker: nat) | Settle(worker: nat)

  /**
   * How many workers there are: at least one, no more than the limit or the items, and a fractional limit is cut off.
   */
  function Workers(n: nat, limit: real): (count: nat)
    ensures 1 <= count && (count as real <= limit || count == 1) && (n > 0 ==> count <= n) && (n == 0 ==> count == 1)
    ensures (count + 1) as real > limit || count >= n
  {
    var useful := if n == 0 then 1 else n;
    if limit <= 1.0 then 1 else if limit <= useful as real then limit.Floor else useful
  }

  function Start<R, E>(n: nat, limit: real): State<R, E> {
    State(0, seq(Workers(n, limit), (_: nat) => Idle), seq(n, (_: nat) => None), None)
  }

  predicate Enabled<R, E>(s: State<R, E>, m: Move) {
    && m.worker < |s.workers|
    && match m
       case Claim(w) => s.workers[w] == Idle
       case Settle(w) => s.workers[w].Running? && s.workers[w].index < |s.results|
  }

  function Take<T, R, E>(items: seq<T>, fn: (T, nat) -> Result<R, E>, s: State<R, E>, m: Move): State<R, E>
    requires Enabled(s, m) && |s.results| == |items|
  {
    match m
    case Claim(w) =>
      s.(cursor := s.cursor + 1, workers := s.workers[w := if s.cursor >= |items| then Returned else Running(s.cursor)])
    case Settle(w) =>
      var index := s.workers[w].index;
      match fn(items[index], index)
      case Ok(value) => s.(workers := s.workers[w := Idle], results := s.results[index := Some(value)])
      case Err(error) =>
        s.(workers := s.workers[w := Broken], rejection := if s.rejection.None? then Some(error) else s.rejection)
  }

  /** The states a schedule leads through, or None when a move is not enabled. */
  function Run<T, R, E>(items: seq<T>, limit: real, fn: (T, nat) -> Result<R, E>, moves: seq<Move>):
    (s: Option<State<R, E>>)
    ensures s.Some? ==> |s.value.results| == |items|
  {
    if moves == [] then Some(Start(|items|, limit))
    else
      var before := Run(items, limit, fn, moves[..|moves| - 1]);
      var move := moves[|moves| - 1];
      if before.Some? && Enabled(before.value, move) then Some(Take(items, fn, before.value, move)) else None
  }

  /** The indices for which fn was called, in the order of the calls. */
  function Calls<T, R, E>(items: seq<T>, limit: real, fn: (T, nat) -> Result<R, E>, moves: seq<Move>): seq<nat> {
    if moves == [] then []
    else
      var earlier := moves[..|moves| - 1];
      var before := Run(items, limit, fn, earlier);
      Calls(items, limit, fn, earlier)
      + if before.Some? && moves[|moves| - 1].Claim? && before.value.cursor < |items| then [before.value.cursor] else []
  }

  /** No worker will move again. */
  predicate Settled<R, E>(s: State<R, E>) {
    forall w | 0 <= w < |s.workers| :: s.workers[w] == Returned || s.workers[w] == Broken
  }

  /** The number of calls in flight. */
  function InFlight(workers: seq<Worker>): nat {
    if workers == [] then 0 else InFlight(workers[..|workers| - 1]) + if workers[|workers| - 1].Running? then 1 else 0
  }

  predicate Fails<T, R, E>(items: seq<T>, fn: (T, nat) -> Result<R, E>, i: int) {
    0 <= i < |items| && fn(items[i], i).Err?
  }

  // ---------------------------------------------------------------- the invariant

  predicate IsRunning(workers: seq<Worker>, i: nat) { exists w :: 0 <= w < |workers| && workers[w] == Running(i) }

  /**
   * Each claimed index is with exactly one running worker, or has its result, or was rejected; the others are
   * untouched.
   */
  ghost predicate Inv<T, R, E>(items: seq<T>, limit: real, fn: (T, nat) -> Result<R, E>, s: State<R, E>) {
    && |s.workers| == Workers(|items|, limit) && |s.results| == |items|
    && (forall w | 0 <= w < |s.workers| :: s.workers[w].Running? ==>
          s.workers[w].index < |items| && s.workers[w].index < s.cursor && s.results[s.workers[w].index] == None)
    && (forall v, w | 0 <= v < w < |s.workers| :: s.workers[v].Running? && s.workers[w].Running? ==>
        s.workers[v].index != s.workers[w].index)
    && (forall w | 0 <= w < |s.workers| :: s.workers[w].Returned? ==> s.cursor > |items|)
    && (forall i | 0 <= i < |items| :: s.results[i].Some? ==> i < s.cursor && fn(items[i], i) == Ok(s.results[i].value))
    && (forall i | 0 <= i < |items| && i < s.cursor :: s.results[i].None? ==>
        IsRunning(s.workers, i) || (Fails(items, fn, i) && s.rejection.Some?))
  }

  /** A rejection is some call's error, and every broken worker has caused one. */
  ghost predicate RejectionOk<T, R, E>(items: seq<T>, fn: (T, nat) -> Result<R, E>, s: State<R, E>) {
    && (s.rejection.Some? ==> exists i :: Fails(items, fn, i) && fn(items[i], i) == Err(s.rejection.value))
    && (forall w | 0 <= w < |s.workers| :: s.workers[w].Broken? ==> s.rejection.Some?)
  }

  lemma StartInv<T, R, E>(items: seq<T>, limit: real, fn: (T, nat) -> Result<R, E>)
    ensures Inv(items, limit, fn, Start(|items|, limit)) && RejectionOk(items, fn, Start(|items|, limit))
  {
  }

  lemma TakeInv<T, R, E>(items: seq<T>, limit: real, fn: (T, nat) -> Result<R, E>, s: State<R, E>, m: Move)
    requires Inv(items, limit, fn, s) && Enabled(s, m)
    ensures Inv(items, limit, fn, Take(items, fn, s, m))
  {
    var t := Take(items, fn, s, m);
    forall i | 0 <= i < |items| && i < t.cursor && t.results[i].None?
      ensures IsRunning(t.workers, i) || (Fails(items, fn, i) && t.rejection.Some?)
    {
      if m.Claim? && i == s.cursor {
        assert t.workers[m.worker] == Running(i);
      } else if IsRunning(s.workers, i) {
        var w :| 0 <= w < |s.workers| && s.workers[w] == Running(i);
        if w != m.worker {
          assert t.workers[w] == Running(i);
        }
      }
    }
  }

  lemma TakeRejection<T, R, E>(items: seq<T>, limit: real, fn: (T, nat) -> Result<R, E>, s: State<R, E>, m: Move)
    requires Inv(items, limit, fn, s) && RejectionOk(items, fn, s) && Enabled(s, m)
    ensures RejectionOk(items, fn, Take(items, fn, s, m))
  {
    var t := Take(items, fn, s, m);
    if m.Settle? && Fails(items, fn, s.workers[m.worker].index) && s.rejection.None? {
      var index := s.workers[m.worker].index;
      assert Fails(items, fn, index) && fn(items[index], index) == Err(t.rejection.value);
    }
  }

  lemma {:induction false} EveryScheduleKeepsInv<T, R, E>(items: seq<T>, limit: real, fn: (T, nat) -> Result<R, E>,
                                                          moves: seq<Move>)
    ensures var s := Run(items, limit, fn, moves); s.Some? ==>
            Inv(items, limit, fn, s.value) && RejectionOk(items, fn, s.value)
  {
    StartInv(items, limit, fn);
    if moves != [] && Run(items, limit, fn, moves).Some? {
      var earlier := moves[..|moves| - 1];
      EveryScheduleKeepsInv(items, limit, fn, earlier);
      TakeInv(items, limit, fn, Run(items, limit, fn, earlier).value, moves[|moves| - 1]);
      TakeRejection(items, limit, fn, Run(items, limit, fn, earlier).value, moves[|moves| - 1]);
    }
  }

  // ---------------------------------------------------------------- the theorems

  lemma {:induction false} InFlightAtMost(workers: seq<Worker>)
    ensures InFlight(workers) <= |workers|
  {
    if workers != [] {
      InFlightAtMost(workers[..|workers| - 1]);
    }
  }

  /** At no point of any schedule are more calls in flight than the limit allows. */
  lemma InFlightIsBounded<T, R, E>(items: seq<T>, limit: real, fn: (T, nat) -> Result<R, E>, moves: seq<Move>)
    ensures var s := Run(items, limit, fn, moves); s.Some? ==>
            InFlight(s.value.workers) as real <= if limit > 1.0 then limit else 1.0
  {
    EveryScheduleKeepsInv(items, limit, fn, moves);
    var s := Run(items, limit, fn, moves);
    if s.Some? {
      InFlightAtMost(s.value.workers);
    }
  }

  /** One claim of each of the first workers. */
  function Claims(k: nat): seq<Move> { seq(k, i requires 0 <= i < k => Claim(i)) }

  lemma {:induction false} ClaimsRun<T, R, E>(items: seq<T>, limit: real, fn: (T, nat) -> Result<R, E>, k: nat)
    requires k <= Workers(|items|, limit) && k <= |items|
    ensures var s := Run(items, limit, fn, Claims(k));
            && s.Some? && s.value.cursor == k && |s.value.workers| == Workers(|items|, limit)
            && forall w | 0 <= w < |s.value.workers| :: s.value.workers[w] == if w < k then Running(w) else Idle
  {
    if k > 0 {
      assert Claims(k)[..k - 1] == Claims(k - 1);
      ClaimsRun(items, limit, fn, k - 1);
    }
  }

  lemma {:induction false} AllInFlight(workers: seq<Worker>)
    requires forall w <- workers :: w.Running?
    ensures InFlight(workers) == |workers|
  {
    if workers != [] {
      AllInFlight(workers[..|workers| - 1]);
    }
  }

  /**
   * The bound is reached: with items for every worker, some schedule has as many calls in flight as the limit allows.
   */
  lemma LimitIsReached<T, R, E>(items: seq<T>, limit: real, fn: (T, nat) -> Result<R, E>)
    requires items != [] && limit >= 1.0
    ensures exists moves ::
              var s := Run(items, limit, fn, moves);
              s.Some? && (InFlight(s.value.workers) == |items| || (InFlight(s.value.workers) + 1) as real > limit)
  {
    var moves := Claims(Workers(|items|, limit));
    ClaimsRun(items, limit, fn, Workers(|items|, limit));
    AllInFlight(Run(items, limit, fn, moves).value.workers);
  }

  /** Under every schedule the calls are made for 0, 1, 2, ... in order: each index at most once, none skipped. */
  lemma {:induction false} EachIndexOnce<T, R, E>(items: seq<T>, limit: real, fn: (T, nat) -> Result<R, E>,
                                                  moves: seq<Move>)
    requires Run(items, limit, fn, moves).Some?
    ensures var calls := Calls(items, limit, fn, moves);
            var cursor := Run(items, limit, fn, moves).value.cursor;
            && |calls| == (if cursor <= |items| then cursor else |items|)
            && forall k | 0 <= k < |calls| :: calls[k] == k
  {
    if moves != [] {
      EachIndexOnce(items, limit, fn, moves[..|moves| - 1]);
    }
  }

  /** When no worker will move again and nothing was rejected, every index has been called and holds its own result. */
  lemma ResultsAreComplete<T, R, E>(items: seq<T>, limit: real, fn: (T, nat) -> Result<R, E>, moves: seq<Move>)
    requires Run(items, limit, fn, moves).Some? && Settled(Run(items, limit, fn, moves).value)
             && Run(items, limit, fn, moves).value.rejection.None?
    ensures var s := Run(items, limit, fn, moves).value;
            forall i | 0 <= i < |items| :: s.results[i].Some? && fn(items[i], i) == Ok(s.results[i].value)
    ensures |Calls(items, limit, fn, moves)| == |items|
  {
    EveryScheduleKeepsInv(items, limit, fn, moves);
    EachIndexOnce(items, limit, fn, moves);
    CompleteWhenSettled(items, limit, fn, Run(items, limit, fn, moves).value);
  }

  lemma CompleteWhenSettled<T, R, E>(items: seq<T>, limit: real, fn: (T, nat) -> Result<R, E>, s: State<R, E>)
    requires Inv(items, limit, fn, s) && RejectionOk(items, fn, s) && Settled(s)
    ensures s.rejection.Some? <==> exists i :: Fails(items, fn, i)
    ensures s.rejection.None? ==> s.cursor > |items| && forall i | 0 <= i < |items| :: s.results[i].Some?
  {
    assert s.workers[0] == Returned || s.workers[0] == Broken;
    forall i | Fails(items, fn, i) ensures s.rejection.Some? {
      if i < s.cursor {
        assert s.results[i].None? && !IsRunning(s.workers, i);
      }
    }
  }

  /** The map rejects, under every schedule that runs to its end, exactly when some item's call would be rejected. */
  lemma RejectsExactly<T, R, E>(items: seq<T>, limit: real, fn: (T, nat) -> Result<R, E>, moves: seq<Move>)
    requires Run(items, limit, fn, moves).Some? && Settled(Run(items, limit, fn, moves).value)
    ensures Run(items, limit, fn, moves).value.rejection.Some? <==> exists i :: Fails(items, fn, i)
  {
    EveryScheduleKeepsInv(items, limit, fn, moves);
    CompleteWhenSettled(items, limit, fn, Run(items, limit, fn, moves).value);
  }

  /** What the map was rejected with is the error of the call that was rejected first, and stays so. */
  lemma {:induction false} FirstRejectionStays<T, R, E>(items: seq<T>, limit: real, fn: (T, nat) -> Result<R, E>,
                                                        moves: seq<Move>, n: nat)
    requires n <= |moves| && Run(items, limit, fn, moves).Some?
    ensures Run(items, limit, fn, moves[..n]).Some?
    ensures Run(items, limit, fn, moves[..n]).value.rejection.Some? ==>
              Run(items, limit, fn, moves).value.rejection == Run(items, limit, fn, moves[..n]).value.rejection
    decreases |moves| - n
  {
    if n == |moves| {
      assert moves[..n] == moves;
    } else {
      FirstRejectionStays(items, limit, fn, moves, n + 1);
      assert moves[..n + 1][..n] == moves[..n];
    }
  }

  // ---------------------------------------------------------------- every schedule ends

  function Owed(workers: seq<Worker>): nat {
    if workers == [] then 0
    else Owed(workers[..|workers| - 1]) + match workers[|workers| - 1] case Idle => 1 case Running(_) => 2 case _ => 0
  }

  /** The most moves still to be made. */
  function Left<R, E>(s: State<R, E>): nat {
    2 * (if s.cursor <= |s.results| then |s.results| - s.cursor else 0) + Owed(s.workers)
  }

  lemma {:induction false} OwedUpdate(workers: seq<Worker>, w: nat, to: Worker)
    requires w < |workers|
    ensures Owed(workers[w := to]) - Owed([to]) == Owed(workers) - Owed([workers[w]])
  {
    var n := |workers| - 1;
    if w == n {
      assert workers[w := to][..n] == workers[..n];
      assert [to][..0] == [] && [workers[w]][..0] == [];
    } else {
      assert workers[w := to][..n] == workers[..n][w := to];
      OwedUpdate(workers[..n], w, to);
    }
  }

  /** Every move is paid for; a rejection also gives up what its worker would still have done. */
  lemma MoveIsPaid<T, R, E>(items: seq<T>, fn: (T, nat) -> Result<R, E>, s: State<R, E>, m: Move)
    requires Enabled(s, m) && |s.results| == |items|
    ensures var t := Take(items, fn, s, m); Left(t) == Left(s) - if t.workers[m.worker] == Broken then 2 else 1
  {
    var t := Take(items, fn, s, m);
    OwedUpdate(s.workers, m.worker, t.workers[m.worker]);
    assert [t.workers[m.worker]][..0] == [] && [s.workers[m.worker]][..0] == [];
  }

  lemma {:induction false} OwedIdle(k: nat)
    ensures Owed(seq(k, (_: nat) => Idle)) == k
  {
    if k > 0 {
      assert seq(k, (_: nat) => Idle)[..k - 1] == seq(k - 1, (_: nat) => Idle);
      OwedIdle(k - 1);
    }
  }

  /** No schedule is longer than two moves per item and one per worker; without rejections the count is exact. */
  lemma {:induction false} SchedulesAreBounded<T, R, E>(items: seq<T>, limit: real, fn: (T, nat) -> Result<R, E>,
                                                        moves: seq<Move>)
    requires Run(items, limit, fn, moves).Some?
    ensures |moves| + Left(Run(items, limit, fn, moves).value) <= 2 * |items| + Workers(|items|, limit)
    ensures (forall i :: !Fails(items, fn, i)) ==>
            |moves| + Left(Run(items, limit, fn, moves).value) == 2 * |items| + Workers(|items|, limit)
  {
    OwedIdle(Workers(|items|, limit));
    if moves != [] {
      var earlier, move := moves[..|moves| - 1], moves[|moves| - 1];
      SchedulesAreBounded(items, limit, fn, earlier);
      var s := Run(items, limit, fn, earlier).value;
      MoveIsPaid(items, fn, s, move);
      if Take(items, fn, s, move).workers[move.worker] == Broken {
        assert Fails(items, fn, s.workers[move.worker].index);
      }
    }
  }

  /** Until every worker has returned or broken off, some move is enabled. */
  lemma NoDeadlock<T, R, E>(items: seq<T>, limit: real, fn: (T, nat) -> Result<R, E>, moves: seq<Move>)
    requires Run(items, limit, fn, moves).Some? && !Settled(Run(items, limit, fn, moves).value)
    ensures exists m :: Run(items, limit, fn, moves + [m]).Some?
  {
    EveryScheduleKeepsInv(items, limit, fn, moves);
    var s := Run(items, limit, fn, moves).value;
    var w :| 0 <= w < |s.workers| && s.workers[w] != Returned && s.workers[w] != Broken;
    var m := if s.workers[w].Idle? then Claim(w) else Settle(w);
    assert Enabled(s, m) && (moves + [m])[..|moves|] == moves;
    assert Run(items, limit, fn, moves + [m]).Some?;
  }

  // ---------------------------------------------------------------- the program

  /** The map itself, its workers scheduled in any way at all: all the results in order, or some call's error. */
  method MapAll<T, R, E>(items: seq<T>, limit: real, fn: (T, nat) -> Result<R, E>) returns (r: Result<seq<R>, E>)
    ensures r.Ok? <==> forall i :: !Fails(items, fn, i)
    ensures r.Ok? ==> |r.value| == |items| && forall i | 0 <= i < |items| :: fn(items[i], i) == Ok(r.value[i])
    ensures r.Err? ==> exists i :: Fails(items, fn, i) && fn(items[i], i) == Err(r.error)
  {
    var s := Start<R, E>(|items|, limit);
    StartInv(items, limit, fn);
    while exists w :: 0 <= w < |s.workers| && s.workers[w] != Returned && s.workers[w] != Broken
      invariant Inv(items, limit, fn, s) && RejectionOk(items, fn, s)
      decreases Left(s)
    {
      var w: nat :| w < |s.workers| && s.workers[w] != Returned && s.workers[w] != Broken;
      var move := if s.workers[w].Idle? then Claim(w) else Settle(w);
      TakeInv(items, limit, fn, s, move);
      TakeRejection(items, limit, fn, s, move);
      MoveIsPaid(items, fn, s, move);
      s := Take(items, fn, s, move);
    }
    CompleteWhenSettled(items, limit, fn, s);
    if s.rejection.Some? {
      return Err(s.rejection.value);
    }
    r := Ok(seq(|items|, i requires 0 <= i < |items| => s.results[i].value));
  }
}
